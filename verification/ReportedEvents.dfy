/** What the comparison of two snapshots hands to the coalescer (AgentBridge/events.go). */
module ReportedEvents {
  import opened Common
  import opened Ordering
  import opened TacticalEvents
  import opened SnapshotDiff

  lemma AccumulateKeepsWellFormed(before: Event, event: Event, subject: Option<Object>)
    requires WellFormed(before)
    ensures WellFormed(Accumulate(before, event, subject))
  {
    hide SeverityRank;
  }

  lemma {:induction false} AccumulatedAreWellFormed(current: Snapshot, ems: seq<Emission>)
    ensures forall key :: key in AddAll(map[], current, ems) ==> WellFormed(AddAll(map[], current, ems)[key])
  {
    hide WellFormed, Accumulate, Name, KeyText, SeverityRank;
    if ems != [] {
      var init, last := ems[..|ems| - 1], ems[|ems| - 1];
      var acc := AddAll(map[], current, init);
      AccumulatedAreWellFormed(current, init);
      EmptyEventIsWellFormed(current, last);
      var key := EmissionKey(last);
      AccumulateKeepsWellFormed(if key in acc then acc[key] else EventOf(current, last), EventOf(current, last),
                                last.subject);
    }
  }

  lemma EmptyEventIsWellFormed(current: Snapshot, em: Emission)
    ensures WellFormed(EventOf(current, em))
  {
    hide Name;
  }

  lemma {:induction false} DistinctBySize(ids: seq<int>)
    requires |Elements(ids)| == |ids|
    ensures Distinct(ids)
  {
    if ids != [] {
      var init, last := ids[..|ids| - 1], ids[|ids| - 1];
      assert ids == init + [last];
      assert Elements(ids) == Elements(init) + {last};
      ElementsLength(init);
      DistinctBySize(init);
    }
  }

  lemma SortedIdsStayDistinct(ids: seq<int>)
    requires Distinct(ids)
    ensures Distinct(SortIds(ids)) && |SortIds(ids)| == |ids|
  {
    SortIdsSummary(ids);
    SortIdsElements(ids);
    ElementsLength(ids);
    assert |SortIds(ids)| == |multiset(SortIds(ids))| == |multiset(ids)| == |ids|;
    DistinctBySize(SortIds(ids));
  }

  lemma EntryIsWellFormed(previous: Option<Snapshot>, current: Snapshot, key: string)
    requires key in Reported(previous, current)
    ensures WellFormed(SortedEvent(Reported(previous, current)[key]))
  {
    hide DiffEmissions, AddAll, SeverityRank;
    AccumulatedAreWellFormed(current, DiffEmissions(previous, current));
    var e := Reported(previous, current)[key];
    assert WellFormed(e);
    SortedIdsStayDistinct(e.objectIds);
  }

  /** Every reported event meets the precondition of the coalescing results. */
  lemma ReportedAreWellFormed(previous: Option<Snapshot>, current: Snapshot, events: seq<Event>, i: nat)
    requires ListsEvents(events, Reported(previous, current)) && i < |events|
    ensures WellFormed(events[i])
  {
    hide Reported, WellFormed;
    var acc := Reported(previous, current);
    var keys :| Lists(keys, acc.Keys) && ListsByKeys(events, acc, keys);
    EntryIsWellFormed(previous, current, keys[i]);
  }
}
