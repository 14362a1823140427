/**
 What the details of an event hold in the end: of one comparison, and of a
 run of merged events in any order of map iteration (AgentBridge/events.go:298-340 and 974-1003).
 */
module DetailContents {
  import opened Common
  import opened TacticalEvents
  import opened EventDetails

  /** As many as the limit lets through. */
  function First(texts: seq<string>): seq<string> {
    if |texts| <= 128 then texts else texts[..128]
  }

  lemma FirstOfBoth(a: seq<string>, b: seq<string>)
    ensures First(First(a) + b) == First(a + b)
    ensures First(a + First(b)) == First(a + b)
  {
  }

  // ----- One comparison

  ghost function ChangesReported(reports: seq<Report>): seq<string> {
    if reports == [] then []
    else
      var last := reports[|reports| - 1];
      ChangesReported(reports[..|reports| - 1]) + (if last.OfObject? then [last.change] else [])
  }

  /** The changes are the first 128 that were reported, in the order of the reports. */
  lemma {:induction false} ReportedChanges(reports: seq<Report>)
    requires forall i :: 0 <= i < |reports| ==> IsReport(reports[i])
    ensures ChangesIn(AllRecorded(reports)) == First(ChangesReported(reports))
    ensures CHANGES in AllRecorded(reports) && AllRecorded(reports)[CHANGES].Changes?
  {
    if reports != [] {
      var init, last := reports[..|reports| - 1], reports[|reports| - 1];
      ReportedChanges(init);
      FirstOfBoth(ChangesReported(init), if last.OfObject? then [last.change] else []);
    }
  }

  ghost predicate Names(report: Report, key: string) {
    report.OfGame? && key in report.values
  }

  /** The last report that names it. */
  ghost predicate IsLatest(reports: seq<Report>, key: string, i: nat) {
    i < |reports| && Names(reports[i], key) && forall j :: i < j < |reports| ==> !Names(reports[j], key)
  }

  lemma LatestOfMore(init: seq<Report>, last: Report, key: string, i: nat)
    ensures IsLatest(init + [last], key, i) <==>
            (if Names(last, key) then i == |init| else IsLatest(init, key, i))
  {
    hide Names;
    var reports := init + [last];
    assert reports[|init|] == last && forall k :: 0 <= k < |init| ==> reports[k] == init[k];
    if !Names(last, key) && IsLatest(reports, key, i) {
      forall k | i < k < |init| ensures !Names(init[k], key) {
        assert !Names(reports[k], key);
      }
    }
  }

  /** Any other value is the one reported last under its name. */
  lemma {:induction false} ReportedValue(reports: seq<Report>, key: string)
    requires key != CHANGES && key != COUNT
    ensures key in AllRecorded(reports) <==> exists i: nat :: IsLatest(reports, key, i)
    ensures forall i: nat :: IsLatest(reports, key, i) ==> AllRecorded(reports)[key] == reports[i].values[key]
  {
    hide IsLatest;
    if reports == [] {
      NoneIsLatest(key);
    } else {
      var init, last := reports[..|reports| - 1], reports[|reports| - 1];
      assert reports == init + [last];
      ReportedValue(init, key);
      forall i: nat ensures IsLatest(reports, key, i) <==>
                            (if Names(last, key) then i == |init| else IsLatest(init, key, i))
      {
        LatestOfMore(init, last, key, i);
      }
      if Names(last, key) {
        assert IsLatest(reports, key, |init|);
      } else if i: nat :| IsLatest(init, key, i) {
        assert IsLatest(reports, key, i);
      }
      LatestIsThere(init, key);
    }
  }

  lemma NoneIsLatest(key: string)
    ensures forall i: nat :: !IsLatest([], key, i)
  {
  }

  lemma LatestIsThere(reports: seq<Report>, key: string)
    ensures forall i: nat :: IsLatest(reports, key, i) ==> i < |reports| && Names(reports[i], key)
  {
  }

  // ----- One merge

  /** A turn for another key leaves this one alone; only "changes" writes a second one. */
  lemma OtherTurn(current: Details, incoming: Details, turn: string, key: string)
    requires turn in incoming && turn != key && key != COUNT
    ensures var merged := MergeDetail(current, incoming, turn);
            (key in merged <==> key in current) && (key in merged ==> merged[key] == current[key])
  {
  }

  lemma {:induction false} Untouched(current: Details, incoming: Details, order: seq<string>, from: nat, key: string)
    requires forall i :: 0 <= i < |order| ==> order[i] in incoming
    requires from <= |order| && key != COUNT && forall i :: from <= i < |order| ==> order[i] != key
    ensures var before, after := MergeDetails(current, incoming, order[..from]), MergeDetails(current, incoming, order);
            (key in after <==> key in before) && (key in after ==> after[key] == before[key])
    decreases |order|
  {
    hide MergeDetail;
    if from == |order| {
      assert order[..from] == order;
    } else {
      var init := order[..|order| - 1];
      assert init[..from] == order[..from];
      Untouched(current, incoming, init, from, key);
      OtherTurn(MergeDetails(current, incoming, init), incoming, order[|order| - 1], key);
    }
  }

  /** What one turn writes under its own key. */
  ghost predicate IsTurned(current: Details, incoming: Details, merged: Details, key: string)
    requires key in incoming
  {
    && key in merged
    && (key == CHANGES ==>
          merged[key].Changes? && merged[key].changes == First(ChangesIn(current) + ChangesIn(incoming)))
    && (key == MESSAGES ==>
          merged[key].Messages? && merged[key].messages == First(MessagesIn(incoming) + MessagesIn(current)))
    && (key != CHANGES && key != MESSAGES ==> merged[key] == incoming[key])
  }

  lemma OwnTurn(before: Details, current: Details, incoming: Details, key: string)
    requires key in incoming && key != COUNT && |ChangesIn(current)| <= 128
    requires (key in before <==> key in current) && (key in before ==> before[key] == current[key])
    ensures IsTurned(current, incoming, MergeDetail(before, incoming, key), key)
  {
    if key == CHANGES {
      assert ChangesIn(before) == ChangesIn(current);
      JoinedChanges(ChangesIn(current), ChangesIn(incoming));
    }
  }

  lemma JoinedChanges(existing: seq<string>, more: seq<string>)
    requires |existing| <= 128
    ensures var remaining := Min(MAX_EVENT_OBJECT_IDS - |existing|, |more|);
            (if remaining > 0 then existing + more[..remaining] else existing) == First(existing + more)
  {
  }

  /**
   However Go visits the incoming map: the changes are joined, oldest first, the
   messages newest first, both up to 128; other values are replaced by those that
   come in; what does not come in stays.
   */
  lemma MergedDetail(current: Details, incoming: Details, order: seq<string>, key: string)
    requires Visits(order, incoming) && forall i :: 0 <= i < |order| ==> order[i] in incoming
    requires key != COUNT && |ChangesIn(current)| <= 128
    ensures var merged := MergeDetails(current, incoming, order);
            if key in incoming then IsTurned(current, incoming, merged, key)
            else (key in merged <==> key in current) && (key in merged ==> merged[key] == current[key])
  {
    hide MergeDetail, MergeDetails, IsTurned;
    NothingMerged(current, incoming);
    assert order[..0] == [];
    if key in incoming {
      assert key in Elements(order);
      var k :| 0 <= k < |order| && order[k] == key;
      var visited := order[..k];
      assert forall i :: 0 <= i < k ==> visited[i] == order[i];
      assert visited[..0] == [];
      Untouched(current, incoming, visited, 0, key);
      OneMoreMerged(current, incoming, order, k);
      OwnTurn(MergeDetails(current, incoming, visited), current, incoming, key);
      Untouched(current, incoming, order, k + 1, key);
      TurnStays(current, incoming, MergeDetails(current, incoming, order[..k + 1]),
                MergeDetails(current, incoming, order), key);
    } else {
      Untouched(current, incoming, order, 0, key);
    }
  }

  lemma TurnStays(current: Details, incoming: Details, turned: Details, merged: Details, key: string)
    requires key in incoming && IsTurned(current, incoming, turned, key)
    requires key in merged && merged[key] == turned[key]
    ensures IsTurned(current, incoming, merged, key)
  {
  }

  // ----- A run of merges

  /** What is pending after the details of several events, each map visited in some order. */
  ghost function MergedRun(run: seq<Details>, orders: seq<seq<string>>): Details
    requires run != [] && AreVisits(run, orders)
  {
    var n := |run| - 1;
    if n == 0 then run[0]
    else
      AllVisited(run, orders, n);
      MergeDetails(MergedRun(run[..n], orders[..n]), run[n], orders[n])
  }

  ghost predicate AreVisits(run: seq<Details>, orders: seq<seq<string>>) {
    |orders| == |run| && forall i :: 0 <= i < |run| ==> Visits(orders[i], run[i])
  }

  lemma AllVisited(run: seq<Details>, orders: seq<seq<string>>, n: nat)
    requires AreVisits(run, orders) && n < |run|
    ensures forall i :: 0 <= i < |orders[n]| ==> orders[n][i] in run[n]
    ensures AreVisits(run[..n], orders[..n])
  {
    hide Visits;
    VisitsOnlyKeys(orders[n], run[n]);
  }

  ghost function AllChanges(run: seq<Details>): seq<string> {
    if run == [] then [] else AllChanges(run[..|run| - 1]) + ChangesIn(run[|run| - 1])
  }

  /** Newest first. */
  ghost function AllMessages(run: seq<Details>): seq<string> {
    if run == [] then [] else MessagesIn(run[|run| - 1]) + AllMessages(run[..|run| - 1])
  }

  /** After any run of events the pending changes and messages are the first 128 of all, changes oldest first. */
  lemma {:induction false} RunKeepsTheFirst(run: seq<Details>, orders: seq<seq<string>>)
    requires run != [] && AreVisits(run, orders)
    requires |ChangesIn(run[0])| <= 128 && |MessagesIn(run[0])| <= 128
    ensures ChangesIn(MergedRun(run, orders)) == First(AllChanges(run))
    ensures MessagesIn(MergedRun(run, orders)) == First(AllMessages(run))
  {
    hide ChangesIn, MessagesIn, Visits;
    var n := |run| - 1;
    if n == 0 {
      assert run[..0] == [] && AllChanges(run) == [] + ChangesIn(run[0]) == ChangesIn(run[0]);
      assert AllMessages(run) == MessagesIn(run[0]) + [] == MessagesIn(run[0]);
    } else {
      AllVisited(run, orders, n);
      RunKeepsTheFirst(run[..n], orders[..n]);
      var current := MergedRun(run[..n], orders[..n]);
      ListsOfMerge(current, run[n], orders[n]);
      FirstOfBoth(AllChanges(run[..n]), ChangesIn(run[n]));
      FirstOfBoth(MessagesIn(run[n]), AllMessages(run[..n]));
    }
  }

  lemma ListsOfMerge(current: Details, incoming: Details, order: seq<string>)
    requires Visits(order, incoming) && forall i :: 0 <= i < |order| ==> order[i] in incoming
    requires |ChangesIn(current)| <= 128 && |MessagesIn(current)| <= 128
    ensures var merged := MergeDetails(current, incoming, order);
            && ChangesIn(merged) == First(ChangesIn(current) + ChangesIn(incoming))
            && MessagesIn(merged) == First(MessagesIn(incoming) + MessagesIn(current))
  {
    hide MergeDetails, Visits;
    MergedDetail(current, incoming, order, CHANGES);
    MergedDetail(current, incoming, order, MESSAGES);
    assert ChangesIn(current) + [] == ChangesIn(current) && [] + MessagesIn(current) == MessagesIn(current);
  }
}
