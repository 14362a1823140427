/**
 The details of a tactical event: how the accumulator of one comparison fills
 them and how mergePending coalesces them (AgentBridge/events.go).
 */
module EventDetails {
  import opened Common
  import opened TacticalEvents

  /** The values of an event's details that merging distinguishes. */
  datatype Detail =
    | Changes(changes: seq<string>)
    | Messages(messages: seq<string>)
    | Count(count: nat)
    | Other(text: string)

  type Details = map<string, Detail>

  const CHANGES := "changes"
  const COUNT := "count"
  const MESSAGES := "messages"

  function ChangesIn(details: Details): seq<string> {
    if CHANGES in details && details[CHANGES].Changes? then details[CHANGES].changes else []
  }

  function MessagesIn(details: Details): seq<string> {
    if MESSAGES in details && details[MESSAGES].Messages? then details[MESSAGES].messages else []
  }

  /** An event that lists changes says how many there are. */
  ghost predicate CountIsRight(details: Details) {
    CHANGES in details ==> COUNT in details && details[COUNT] == Count(|ChangesIn(details)|)
  }

  /** The details of an event that a comparison reports: a list of 1 to 128 changes and their number, or neither. */
  ghost predicate Tallied(details: Details) {
    && (CHANGES in details <==> COUNT in details)
    && (CHANGES in details ==> details[CHANGES].Changes? && 0 < |ChangesIn(details)| <= MAX_EVENT_OBJECT_IDS)
    && CountIsRight(details)
  }

  // ----- The details of one comparison

  /** What add is given: named values of the game as a whole, or a change of one object. */
  datatype Report = OfGame(values: Details) | OfObject(change: string)

  /** No report of the comparison names a value "changes" or "count". */
  ghost predicate IsReport(report: Report) {
    report.OfGame? ==> CHANGES !in report.values && COUNT !in report.values
  }

  function Recorded(details: Details, report: Report): Details {
    match report
    case OfGame(values) => details + values
    case OfObject(change) =>
      var changes := ChangesIn(details);
      if |changes| >= MAX_EVENT_OBJECT_IDS then details
      else details[CHANGES := Changes(changes + [change])][COUNT := Count(|changes| + 1)]
  }

  function AllRecorded(reports: seq<Report>): Details {
    if reports == [] then map[CHANGES := Changes([])]
    else Recorded(AllRecorded(reports[..|reports| - 1]), reports[|reports| - 1])
  }

  function WithoutEmptyChanges(details: Details): Details {
    if CHANGES in details && details[CHANGES] == Changes([]) then details - {CHANGES} else details
  }

  /** The details of an event under one key of the accumulator. */
  class DetailsRecord {
    var details: Details

    constructor ()
      ensures details == AllRecorded([])
    {
      details := map[CHANGES := Changes([])];
    }

    /** add: one more report about the event. */
    method Record(report: Report)
      modifies this
      ensures details == Recorded(old(details), report)
    {
      match report {
        case OfGame(values) =>
          var rest := values.Keys;
          while rest != {}
            invariant rest <= values.Keys
            invariant details.Keys == old(details).Keys + (values.Keys - rest)
            invariant forall key :: key in values.Keys - rest ==> details[key] == values[key]
            invariant forall key :: key in details.Keys - (values.Keys - rest) ==> details[key] == old(details)[key]
            decreases rest
          {
            var key :| key in rest;
            details := details[key := values[key]];
            rest := rest - {key};
          }
        case OfObject(change) =>
          var changes := ChangesIn(details);
          if |changes| >= MAX_EVENT_OBJECT_IDS {
            return;
          }
          changes := changes + [change];
          details := details[CHANGES := Changes(changes)];
          details := details[COUNT := Count(|changes|)];
      }
    }

    /** sorted: an empty list of changes is not reported. */
    method Finish()
      modifies this
      ensures details == WithoutEmptyChanges(old(details))
    {
      if CHANGES in details && details[CHANGES].Changes? && |details[CHANGES].changes| == 0 {
        details := details - {CHANGES};
      }
    }
  }

  /** Before it is finished an event has no count exactly while its list of changes is empty. */
  ghost predicate Tallying(details: Details) {
    && CHANGES in details && details[CHANGES].Changes? && |ChangesIn(details)| <= MAX_EVENT_OBJECT_IDS
    && (COUNT in details <==> ChangesIn(details) != [])
    && (COUNT in details ==> details[COUNT] == Count(|ChangesIn(details)|))
  }

  lemma RecordedIsTallying(details: Details, report: Report)
    requires Tallying(details) && IsReport(report)
    ensures Tallying(Recorded(details, report))
  {
  }

  /** Whatever a comparison reports about an event, its count is the length of its changes. */
  lemma {:induction false} ReportedAreTallied(reports: seq<Report>)
    requires forall i :: 0 <= i < |reports| ==> IsReport(reports[i])
    ensures Tallying(AllRecorded(reports)) && Tallied(WithoutEmptyChanges(AllRecorded(reports)))
  {
    if reports != [] {
      ReportedAreTallied(reports[..|reports| - 1]);
      RecordedIsTallying(AllRecorded(reports[..|reports| - 1]), reports[|reports| - 1]);
    }
  }

  // ----- Coalescing the details

  /** One turn of the loop over the incoming details. */
  function MergeDetail(current: Details, incoming: Details, key: string): Details
    requires key in incoming
  {
    if key == CHANGES then
      var existing, more := ChangesIn(current), ChangesIn(incoming);
      var remaining := Min(MAX_EVENT_OBJECT_IDS - |existing|, |more|);
      var all := if remaining > 0 then existing + more[..remaining] else existing;
      current[CHANGES := Changes(all)][COUNT := Count(|all|)]
    else if key == MESSAGES then
      var combined := MessagesIn(incoming) + MessagesIn(current);
      current[MESSAGES := Messages(combined[..Min(|combined|, MAX_EVENT_OBJECT_IDS)])]
    else current[key := incoming[key]]
  }

  /** The whole loop, for the iteration order Go happens to choose for the incoming map. */
  function MergeDetails(current: Details, incoming: Details, order: seq<string>): Details
    requires forall i :: 0 <= i < |order| ==> order[i] in incoming
  {
    if order == [] then current
    else MergeDetail(MergeDetails(current, incoming, order[..|order| - 1]), incoming, order[|order| - 1])
  }

  /** The body of the loop. */
  method MergeOneDetail(current: Details, incoming: Details, key: string) returns (merged: Details)
    requires key in incoming
    ensures merged == MergeDetail(current, incoming, key)
  {
    merged := current;
    if key == CHANGES {
      var existing, more := ChangesIn(current), ChangesIn(incoming);
      var remaining := MAX_EVENT_OBJECT_IDS - |existing|;
      if remaining > |more| {
        remaining := |more|;
      }
      if remaining > 0 {
        existing := existing + more[..remaining];
      }
      merged := merged[CHANGES := Changes(existing)];
      merged := merged[COUNT := Count(|existing|)];
      return;
    }
    if key == MESSAGES {
      var combined := MessagesIn(incoming) + MessagesIn(current);
      if |combined| > MAX_EVENT_OBJECT_IDS {
        combined := combined[..MAX_EVENT_OBJECT_IDS];
      }
      assert combined == combined[..|combined|];
      merged := merged[MESSAGES := Messages(combined)];
      return;
    }
    merged := merged[key := incoming[key]];
  }

  method MergeDetailsInOrder(current: Details, incoming: Details, order: seq<string>) returns (merged: Details)
    requires forall i :: 0 <= i < |order| ==> order[i] in incoming
    ensures merged == MergeDetails(current, incoming, order)
  {
    hide MergeDetail;
    merged := current;
    for i := 0 to |order|
      invariant merged == MergeDetails(current, incoming, order[..i])
    {
      assert order[..i + 1][..i] == order[..i];
      merged := MergeOneDetail(merged, incoming, order[i]);
    }
    assert order[..|order|] == order;
  }

  /** Keys other than "changes" do not touch the changes, and nothing but those two keys touches the count. */
  lemma {:induction false} DetailsAfter(current: Details, incoming: Details, order: seq<string>, k: nat)
    requires forall i :: 0 <= i < |order| ==> order[i] in incoming
    requires k <= |order| && forall i :: k <= i < |order| ==> order[i] != CHANGES
    ensures var before, after := MergeDetails(current, incoming, order[..k]), MergeDetails(current, incoming, order);
            && (CHANGES in after <==> CHANGES in before) && ChangesIn(after) == ChangesIn(before)
            && ((forall i :: k <= i < |order| ==> order[i] != COUNT) ==>
                  (COUNT in after <==> COUNT in before) && (COUNT in after ==> after[COUNT] == before[COUNT]))
    decreases |order|
  {
    if k == |order| {
      assert order[..k] == order;
    } else {
      var init := order[..|order| - 1];
      assert init[..k] == order[..k];
      DetailsAfter(current, incoming, init, k);
    }
  }

  /** A possible order of visiting a map: every key once. */
  ghost predicate Visits(order: seq<string>, incoming: Details) {
    Distinct(order) && Elements(order) == incoming.Keys
  }

  lemma VisitsOnlyKeys(order: seq<string>, incoming: Details)
    requires Visits(order, incoming)
    ensures forall i :: 0 <= i < |order| ==> order[i] in incoming
  {
    assert forall i :: 0 <= i < |order| ==> order[i] in Elements(order);
  }

  ghost predicate IsBefore(order: seq<string>, first: string, second: string) {
    exists i, j :: 0 <= i < j < |order| && order[i] == first && order[j] == second
  }

  /** The number of changes after merging. */
  function MergedLength(existing: nat, more: nat): nat {
    if existing >= MAX_EVENT_OBJECT_IDS then existing else existing + Min(MAX_EVENT_OBJECT_IDS - existing, more)
  }

  lemma ChangesOfMerge(current: Details, incoming: Details)
    requires CHANGES in incoming
    ensures var merged := MergeDetail(current, incoming, CHANGES);
            && CHANGES in merged
            && |ChangesIn(merged)| == MergedLength(|ChangesIn(current)|, |ChangesIn(incoming)|)
  {
  }

  /** Before "changes" is visited the pending list is as it was. */
  lemma ChangesUntil(current: Details, incoming: Details, order: seq<string>, c: nat)
    requires Distinct(order) && c < |order| && order[c] == CHANGES
    requires forall i :: 0 <= i < |order| ==> order[i] in incoming
    ensures ChangesIn(MergeDetails(current, incoming, order[..c])) == ChangesIn(current)
  {
    hide MergeDetails, ChangesIn;
    var visited := order[..c];
    assert forall i :: 0 <= i < |visited| ==> visited[i] == order[i];
    DetailsAfter(current, incoming, visited, 0);
    NothingMerged(current, incoming);
    assert visited[..0] == [];
  }

  /** However the map is visited, the lists of changes are joined up to the limit. */
  lemma MergedChanges(current: Details, incoming: Details, order: seq<string>, c: nat)
    requires Visits(order, incoming) && c < |order| && order[c] == CHANGES
    requires forall i :: 0 <= i < |order| ==> order[i] in incoming
    ensures var merged := MergeDetails(current, incoming, order);
            && CHANGES in merged
            && |ChangesIn(merged)| == MergedLength(|ChangesIn(current)|, |ChangesIn(incoming)|)
  {
    hide MergeDetails, MergeDetail, MergedLength, ChangesIn;
    ChangesUntil(current, incoming, order, c);
    OneMoreMerged(current, incoming, order, c);
    ChangesOfMerge(MergeDetails(current, incoming, order[..c]), incoming);
    DetailsAfter(current, incoming, order, c + 1);
  }

  lemma NothingMerged(current: Details, incoming: Details)
    ensures MergeDetails(current, incoming, []) == current
  {
  }

  lemma OneMoreMerged(current: Details, incoming: Details, order: seq<string>, k: nat)
    requires k < |order| && forall i :: 0 <= i < |order| ==> order[i] in incoming
    ensures MergeDetails(current, incoming, order[..k + 1])
            == MergeDetail(MergeDetails(current, incoming, order[..k]), incoming, order[k])
  {
    assert order[..k + 1][..k] == order[..k];
  }

  lemma CountOfOneMerge(current: Details, incoming: Details)
    ensures CHANGES in incoming ==>
              var merged := MergeDetail(current, incoming, CHANGES);
              COUNT in merged && merged[COUNT] == Count(|ChangesIn(merged)|)
    ensures COUNT in incoming ==>
              var merged := MergeDetail(current, incoming, COUNT);
              COUNT in merged && merged[COUNT] == incoming[COUNT]
  {
  }

  /** Whichever of the two keys comes last decides the count: "changes" counts what is there, "count" overwrites it. */
  lemma MergedCount(current: Details, incoming: Details, order: seq<string>, c: nat, k: nat)
    requires Visits(order, incoming) && forall i :: 0 <= i < |order| ==> order[i] in incoming
    requires c < |order| && k < |order| && order[c] == CHANGES && order[k] == COUNT
    ensures var merged := MergeDetails(current, incoming, order);
            COUNT in merged && merged[COUNT] == if k < c then Count(|ChangesIn(merged)|) else incoming[COUNT]
  {
    hide MergeDetails, MergeDetail, ChangesIn;
    var last := Max(c, k);
    OneMoreMerged(current, incoming, order, last);
    DetailsAfter(current, incoming, order, last + 1);
    CountOfOneMerge(MergeDetails(current, incoming, order[..last]), incoming);
  }

  /** The incoming changes are all there is, or fill the list. */
  predicate CountsAlike(current: Details, incoming: Details) {
    ChangesIn(current) == [] || |ChangesIn(incoming)| == MAX_EVENT_OBJECT_IDS
  }

  /** When only the pending event lists changes, merging leaves its count as it was. */
  lemma CountWithoutIncomingChanges(current: Details, incoming: Details, order: seq<string>)
    requires Tallied(incoming) && CHANGES !in incoming
    requires forall i :: 0 <= i < |order| ==> order[i] in incoming
    ensures CountIsRight(MergeDetails(current, incoming, order)) <==> CountIsRight(current)
  {
    hide MergeDetails;
    DetailsAfter(current, incoming, order, 0);
    assert order[..0] == [];
    NothingMerged(current, incoming);
  }

  lemma CountWithIncomingChanges(current: Details, incoming: Details, order: seq<string>)
    requires Tallied(incoming) && CHANGES in incoming && |ChangesIn(current)| <= MAX_EVENT_OBJECT_IDS
    requires Visits(order, incoming) && forall i :: 0 <= i < |order| ==> order[i] in incoming
    ensures CountIsRight(MergeDetails(current, incoming, order))
            <==> CountsAlike(current, incoming) || IsBefore(order, COUNT, CHANGES)
  {
    hide MergeDetails;
    assert CHANGES in Elements(order) && COUNT in Elements(order);
    var c :| 0 <= c < |order| && order[c] == CHANGES;
    var k :| 0 <= k < |order| && order[k] == COUNT;
    MergedChanges(current, incoming, order, c);
    MergedCount(current, incoming, order, c, k);
    if IsBefore(order, COUNT, CHANGES) {
      var i, j :| 0 <= i < j < |order| && order[i] == COUNT && order[j] == CHANGES;
      assert i == k && j == c;
    }
  }

  /**
   The count of a merged event can disagree with its list of changes. When
   changes come in, it does exactly when Go visits "changes" before "count",
   unless nothing was pending or the incoming event lists 128 changes; when
   none come in, it is as right as it was.
   */
  lemma CountAfterMerging(current: Details, incoming: Details, order: seq<string>)
    requires Tallied(incoming) && |ChangesIn(current)| <= MAX_EVENT_OBJECT_IDS
    requires Visits(order, incoming) && forall i :: 0 <= i < |order| ==> order[i] in incoming
    ensures CountIsRight(MergeDetails(current, incoming, order))
            <==> if CHANGES in incoming then CountsAlike(current, incoming) || IsBefore(order, COUNT, CHANGES)
                 else CountIsRight(current)
  {
    hide MergeDetails, Tallied, CountIsRight, CountsAlike, IsBefore, Visits;
    if CHANGES in incoming {
      CountWithIncomingChanges(current, incoming, order);
    } else {
      CountWithoutIncomingChanges(current, incoming, order);
    }
  }

  /** A merge into pending details is right in every order exactly on a condition about the two events alone. */
  lemma CountAfterAnyMerge(current: Details, incoming: Details)
    requires Tallied(incoming) && CHANGES in incoming && |ChangesIn(current)| <= MAX_EVENT_OBJECT_IDS
    ensures (forall order :: Visits(order, incoming) ==> MergedIsRight(current, incoming, order))
            <==> CountsAlike(current, incoming)
  {
    hide Visits, Tallied, CountIsRight, CountsAlike;
    forall order | Visits(order, incoming)
      ensures MergedIsRight(current, incoming, order)
              <==> CountsAlike(current, incoming) || IsBefore(order, COUNT, CHANGES)
    {
      VisitsOnlyKeys(order, incoming);
      CountAfterMerging(current, incoming, order);
    }
    var unlucky := ChangesFirst(incoming);
  }

  ghost predicate MergedIsRight(current: Details, incoming: Details, order: seq<string>) {
    (forall i :: 0 <= i < |order| ==> order[i] in incoming) && CountIsRight(MergeDetails(current, incoming, order))
  }

  /** Go may visit "changes" first. */
  lemma ChangesFirst(incoming: Details) returns (order: seq<string>)
    requires CHANGES in incoming && Tallied(incoming)
    ensures Visits(order, incoming) && !IsBefore(order, COUNT, CHANGES)
  {
    var rest := Listing(incoming.Keys - {CHANGES});
    order := [CHANGES] + rest;
    assert Elements(order) == Elements(rest) + {CHANGES};
    forall i, j | 0 <= i < j < |order| ensures order[i] != order[j] && order[j] != CHANGES {
      assert order[j] == rest[j - 1] && rest[j - 1] in Elements(rest);
      assert i > 0 ==> order[i] == rest[i - 1];
    }
  }

  lemma {:induction false} Listing(keys: set<string>) returns (order: seq<string>)
    ensures Distinct(order) && Elements(order) == keys
    decreases keys
  {
    order := [];
    if keys != {} {
      var key := Any(keys);
      var rest := Listing(keys - {key});
      order := rest + [key];
      assert Elements(order) == Elements(rest) + {key};
      assert key !in Elements(rest);
    }
  }

  /** One pending change and one incoming: the merged event lists two and may say there is one. */
  lemma CountCanBeWrong()
    ensures var pending, incoming: Details := map[CHANGES := Changes(["a"]), COUNT := Count(1)],
                                             map[CHANGES := Changes(["b"]), COUNT := Count(1)];
            && Tallied(pending) && Tallied(incoming) && Visits([CHANGES, COUNT], incoming)
            && var merged := MergeDetails(pending, incoming, [CHANGES, COUNT]);
               ChangesIn(merged) == ["a", "b"] && merged[COUNT] == Count(1)
  {
    var pending, incoming: Details := map[CHANGES := Changes(["a"]), COUNT := Count(1)],
                                     map[CHANGES := Changes(["b"]), COUNT := Count(1)];
    var order := [CHANGES, COUNT];
    assert forall i :: 0 <= i < |order| ==> order[i] in incoming;
    OneMoreMerged(pending, incoming, order, 0);
    OneMoreMerged(pending, incoming, order, 1);
    assert order[..0] == [] && order[..2] == order && ["b"][..1] == ["b"] && ["a"] + ["b"] == ["a", "b"];
  }
}
