/**
 Tactical events, their filters and the coalescing of events of one kind
 (AgentBridge/events.go). Positions are exact reals.
 */
module TacticalEvents {
  import opened Common

  const MAX_EVENT_OBJECT_IDS: nat := 128

  function SeverityRank(severity: string): (rank: int)
    ensures -1 <= rank <= 3
  {
    if severity == "info" then 0
    else if severity == "notice" then 1
    else if severity == "warning" then 2
    else if severity == "critical" then 3
    else -1
  }

  /** The severities that the differs give to events. */
  type Severity = s: string | SeverityRank(s) >= 0 witness "info"

  // ----- Areas

  datatype Area = Area(minX: real, minY: real, maxX: real, maxY: real, initialized: bool)

  const EMPTY_AREA := Area(0.0, 0.0, 0.0, 0.0, false)

  /** eventArea.include: the area after taking in one position. */
  function Include(a: Area, position: seq<real>): Area {
    if |position| < 2 then a
    else if !a.initialized then Area(position[0], position[1], position[0], position[1], true)
    else Area(if position[0] < a.minX then position[0] else a.minX,
              if position[1] < a.minY then position[1] else a.minY,
              if position[0] > a.maxX then position[0] else a.maxX,
              if position[1] > a.maxY then position[1] else a.maxY, true)
  }

  predicate Intersects(a: Area, b: Area) {
    a.maxX >= b.minX && a.minX <= b.maxX && a.maxY >= b.minY && a.minY <= b.maxY
  }

  /** Every area built by Include from positions has this shape. */
  predicate IsBox(a: Area) {
    a.initialized && a.minX <= a.maxX && a.minY <= a.maxY
  }

  predicate Contains(outer: Area, inner: Area) {
    outer.minX <= inner.minX && inner.maxX <= outer.maxX && outer.minY <= inner.minY && inner.maxY <= outer.maxY
  }

  /** The Go value that Include updates in place. */
  class EventArea {
    var minX: real
    var minY: real
    var maxX: real
    var maxY: real
    var initialized: bool

    constructor ()
      ensures Value() == EMPTY_AREA
    {
      minX, minY, maxX, maxY, initialized := 0.0, 0.0, 0.0, 0.0, false;
    }

    function Value(): Area
      reads this
    {
      Area(minX, minY, maxX, maxY, initialized)
    }

    /** The area becomes the least box around its old extent and the position. */
    method IncludePosition(position: seq<real>)
      modifies this
      ensures Value() == Include(old(Value()), position)
    {
      if |position| < 2 {
        return;
      }
      if !initialized {
        minX, maxX := position[0], position[0];
        minY, maxY := position[1], position[1];
        initialized := true;
        return;
      }
      if position[0] < minX {
        minX := position[0];
      }
      if position[0] > maxX {
        maxX := position[0];
      }
      if position[1] < minY {
        minY := position[1];
      }
      if position[1] > maxY {
        maxY := position[1];
      }
    }
  }

  // ----- Events and filters

  datatype Event = Event(cursor: nat, typ: string, severity: string, wake: bool, frame: nat, snapshotId: nat,
                         relationship: string, objectIds: seq<int>, area: Option<Area>)

  datatype Filter = Filter(types: set<string>, relationships: set<string>, objectIds: set<int>, minimum: string,
                           wakeOnly: bool, region: Option<Area>)

  ghost predicate SomeIdWanted(wanted: set<int>, ids: seq<int>) {
    exists i :: 0 <= i < |ids| && ids[i] in wanted
  }

  /** eventFilter.accepts: every criterion that is present must be met. */
  ghost predicate Accepts(f: Filter, e: Event) {
    && (f.types == {} || e.typ in f.types)
    && SeverityRank(e.severity) >= SeverityRank(f.minimum)
    && (f.wakeOnly ==> e.wake)
    && (f.relationships == {} || e.relationship == "" || e.relationship in f.relationships)
    && (f.objectIds == {} || SomeIdWanted(f.objectIds, e.objectIds))
    && (f.region.Some? ==> e.area.Some? && Intersects(e.area.value, f.region.value))
  }

  method FilterAccepts(f: Filter, e: Event) returns (accepted: bool)
    ensures accepted == Accepts(f, e)
  {
    if |f.types| > 0 && e.typ !in f.types {
      return false;
    }
    if SeverityRank(e.severity) < SeverityRank(f.minimum) || (f.wakeOnly && !e.wake) {
      return false;
    }
    if |f.relationships| > 0 && e.relationship != "" && e.relationship !in f.relationships {
      return false;
    }
    if |f.objectIds| > 0 {
      var matched := false;
      for i := 0 to |e.objectIds|
        invariant !matched && forall j :: 0 <= j < i ==> e.objectIds[j] !in f.objectIds
      {
        if e.objectIds[i] in f.objectIds {
          matched := true;
          break;
        }
      }
      if !matched {
        return false;
      }
    }
    if f.region.Some? && (e.area.None? || !Intersects(e.area.value, f.region.value)) {
      return false;
    }
    return true;
  }

  // ----- What filters mean

  lemma SeveritiesAreOrdered(severity: string)
    ensures SeverityRank("info") < SeverityRank("notice") < SeverityRank("warning") < SeverityRank("critical")
    ensures severity !in ["info", "notice", "warning", "critical"] ==> SeverityRank(severity) < SeverityRank("info")
  {
  }

  predicate IsInside(a: Area, x: real, y: real) {
    a.minX <= x <= a.maxX && a.minY <= y <= a.maxY
  }

  /** Boxes intersect exactly when they share a point, if only on their edges. */
  lemma IntersectingSharesAPoint(a: Area, b: Area)
    requires IsBox(a) && IsBox(b)
    ensures Intersects(a, b) <==> exists x, y :: IsInside(a, x, y) && IsInside(b, x, y)
  {
    if Intersects(a, b) {
      var x := if a.minX < b.minX then b.minX else a.minX;
      var y := if a.minY < b.minY then b.minY else a.minY;
      assert IsInside(a, x, y) && IsInside(b, x, y);
    }
  }

  const ANY := Filter({}, {}, {}, "info", false, None)

  /** One criterion at a time, for events of one of the four severities. */
  lemma FilterIsItsCriteria(f: Filter, e: Event)
    requires SeverityRank(e.severity) >= 0 && SeverityRank(f.minimum) >= 0
    ensures Accepts(ANY, e)
    ensures Accepts(ANY.(types := f.types), e) <==> f.types == {} || e.typ in f.types
    ensures Accepts(ANY.(minimum := f.minimum), e) <==> SeverityRank(f.minimum) <= SeverityRank(e.severity)
    ensures Accepts(ANY.(wakeOnly := f.wakeOnly), e) <==> (f.wakeOnly ==> e.wake)
    ensures Accepts(ANY.(relationships := f.relationships), e) <==>
            f.relationships == {} || e.relationship == "" || e.relationship in f.relationships
    ensures Accepts(ANY.(objectIds := f.objectIds), e) <==>
            f.objectIds == {} || exists id :: IsNamed(f.objectIds, e.objectIds, id)
    ensures Accepts(ANY.(region := f.region), e) <==>
            f.region == None || (e.area.Some? && Intersects(e.area.value, f.region.value))
    ensures Accepts(f, e) <==>
            && Accepts(ANY.(types := f.types), e) && Accepts(ANY.(minimum := f.minimum), e)
            && Accepts(ANY.(wakeOnly := f.wakeOnly), e) && Accepts(ANY.(relationships := f.relationships), e)
            && Accepts(ANY.(objectIds := f.objectIds), e) && Accepts(ANY.(region := f.region), e)
  {
    assert SeverityRank("info") == 0;
    hide SeverityRank, Intersects;
    WantedIdIsNamed(f.objectIds, e.objectIds);
    hide SomeIdWanted;
  }

  ghost predicate IsNamed(wanted: set<int>, ids: seq<int>, id: int) {
    id in ids && id in wanted
  }

  lemma WantedIdIsNamed(wanted: set<int>, ids: seq<int>)
    ensures SomeIdWanted(wanted, ids) <==> exists id :: IsNamed(wanted, ids, id)
  {
    if SomeIdWanted(wanted, ids) {
      var i :| 0 <= i < |ids| && ids[i] in wanted;
      assert IsNamed(wanted, ids, ids[i]);
    }
    if id :| IsNamed(wanted, ids, id) {
      var i :| 0 <= i < |ids| && ids[i] == id;
      assert ids[i] in wanted;
    }
  }

  // ----- Coalescing two events

  function AppendId(ids: seq<int>, id: int): seq<int> {
    if |ids| < MAX_EVENT_OBJECT_IDS && id !in ids then ids + [id] else ids
  }

  /** Appends new IDs in order, without duplicates, up to the limit. */
  function AppendIds(ids: seq<int>, more: seq<int>): seq<int> {
    if more == [] then ids else AppendId(AppendIds(ids, more[..|more| - 1]), more[|more| - 1])
  }

  function MergeAreas(current: Option<Area>, incoming: Option<Area>): Option<Area> {
    match (current, incoming)
    case (_, None) => current
    case (None, Some(b)) => Some(b)
    case (Some(a), Some(b)) => Some(Include(Include(a, [b.minX, b.minY]), [b.maxX, b.maxY]))
  }

  /** What mergePending leaves under the key of both events, details aside. */
  function Merge(current: Event, incoming: Event): Event {
    current.(severity := if SeverityRank(incoming.severity) > SeverityRank(current.severity)
                         then incoming.severity else current.severity,
             wake := current.wake || incoming.wake,
             frame := incoming.frame,
             snapshotId := incoming.snapshotId,
             objectIds := AppendIds(current.objectIds, incoming.objectIds),
             area := MergeAreas(current.area, incoming.area))
  }

  method ContainsObjectId(ids: seq<int>, id: int) returns (found: bool)
    ensures found <==> id in ids
  {
    for i := 0 to |ids|
      invariant id !in ids[..i]
    {
      if ids[i] == id {
        return true;
      }
    }
    return false;
  }

  method MergeEvents(current: Event, incoming: Event) returns (merged: Event)
    ensures merged == Merge(current, incoming)
  {
    merged := current;
    if SeverityRank(incoming.severity) > SeverityRank(current.severity) {
      merged := merged.(severity := incoming.severity);
    }
    merged := merged.(wake := current.wake || incoming.wake);
    merged := merged.(frame := incoming.frame, snapshotId := incoming.snapshotId);
    if incoming.area.Some? {
      var b := incoming.area.value;
      if merged.area.None? {
        merged := merged.(area := Some(b));
      } else {
        var a := Include(merged.area.value, [b.minX, b.minY]);
        a := Include(a, [b.maxX, b.maxY]);
        merged := merged.(area := Some(a));
      }
    }
    ghost var before := merged;
    var ids := merged.objectIds;
    for i := 0 to |incoming.objectIds|
      invariant ids == AppendIds(current.objectIds, incoming.objectIds[..i])
    {
      var id := incoming.objectIds[i];
      assert incoming.objectIds[..i + 1][..i] == incoming.objectIds[..i];
      var known := ContainsObjectId(ids, id);
      if |ids| < MAX_EVENT_OBJECT_IDS && !known {
        ids := ids + [id];
      }
    }
    assert incoming.objectIds[..|incoming.objectIds|] == incoming.objectIds;
    merged := merged.(objectIds := ids);
  }

  // ----- Coalescing a run of events

  /** What is pending after a run of events of one type and relationship. */
  ghost function Coalesce(es: seq<Event>): Event
    requires es != []
  {
    if |es| == 1 then es[0] else Merge(Coalesce(es[..|es| - 1]), es[|es| - 1])
  }

  /** The events the differs produce: at most 128 distinct IDs, a box for the area and one of the four severities. */
  ghost predicate WellFormed(e: Event) {
    && |e.objectIds| <= MAX_EVENT_OBJECT_IDS && Distinct(e.objectIds)
    && (e.area.Some? ==> IsBox(e.area.value))
    && SeverityRank(e.severity) >= 0
  }

  /** Events that share a pending entry. */
  ghost predicate SameKind(es: seq<Event>) {
    forall i :: 0 <= i < |es| ==>
      es[i].typ == es[0].typ && es[i].relationship == es[0].relationship && WellFormed(es[i])
  }

  /** All object IDs of a run of events. */
  ghost function AllIds(es: seq<Event>): set<int> {
    if es == [] then {} else AllIds(es[..|es| - 1]) + Elements(es[|es| - 1].objectIds)
  }

  lemma {:induction false} AllIdsContains(es: seq<Event>, i: nat)
    requires i < |es|
    ensures Elements(es[i].objectIds) <= AllIds(es)
  {
    if i < |es| - 1 {
      AllIdsContains(es[..|es| - 1], i);
    }
  }

  lemma {:induction false} AllIdsHasSource(es: seq<Event>, id: int) returns (i: nat)
    requires id in AllIds(es)
    ensures i < |es| && id in es[i].objectIds
  {
    if id in es[|es| - 1].objectIds {
      i := |es| - 1;
    } else {
      i := AllIdsHasSource(es[..|es| - 1], id);
    }
  }

  /** AppendIds never exceeds the limit, invents nothing, and loses nothing unless the limit is hit. */
  lemma {:induction false} AppendIdsSummary(ids: seq<int>, more: seq<int>)
    requires Distinct(ids) && |ids| <= MAX_EVENT_OBJECT_IDS
    ensures var all := AppendIds(ids, more);
            && Distinct(all) && |all| <= MAX_EVENT_OBJECT_IDS
            && Elements(ids) <= Elements(all) <= Elements(ids) + Elements(more)
            && (|all| < MAX_EVENT_OBJECT_IDS ==> Elements(all) == Elements(ids) + Elements(more))
  {
    if more != [] {
      var init, last := more[..|more| - 1], more[|more| - 1];
      AppendIdsSummary(ids, init);
      assert more == init + [last];
      assert Elements(more) == Elements(init) + {last};
      var before := AppendIds(ids, init);
      assert Elements(before + [last]) == Elements(before) + {last};
    }
  }

  /** The merged IDs are the union of all IDs exactly when that union fits the limit. */
  lemma {:induction false} CoalescedIds(es: seq<Event>)
    requires es != [] && SameKind(es)
    ensures var ids := Coalesce(es).objectIds;
            && Distinct(ids) && |ids| <= MAX_EVENT_OBJECT_IDS
            && Elements(ids) <= AllIds(es)
            && (Elements(ids) == AllIds(es) <==> |AllIds(es)| <= MAX_EVENT_OBJECT_IDS)
  {
    CoalescedIdsFit(es);
    var ids := Coalesce(es).objectIds;
    ElementsLength(ids);
    if |AllIds(es)| <= MAX_EVENT_OBJECT_IDS {
      if |ids| == MAX_EVENT_OBJECT_IDS {
        SubsetOfEqualSize(Elements(ids), AllIds(es));
      }
    }
  }

  lemma {:induction false} CoalescedIdsFit(es: seq<Event>)
    requires es != [] && SameKind(es)
    ensures var ids := Coalesce(es).objectIds;
            && Distinct(ids) && |ids| <= MAX_EVENT_OBJECT_IDS
            && Elements(ids) <= AllIds(es)
            && (|ids| < MAX_EVENT_OBJECT_IDS ==> Elements(ids) == AllIds(es))
  {
    if |es| == 1 {
      assert AllIds(es) == AllIds([]) + Elements(es[0].objectIds);
    } else {
      var init, last := es[..|es| - 1], es[|es| - 1];
      CoalescedIdsFit(init);
      AppendIdsSummary(Coalesce(init).objectIds, last.objectIds);
      ElementsLength(Coalesce(init).objectIds);
      AppendIdsGrows(Coalesce(init).objectIds, last.objectIds);
    }
  }

  lemma {:induction false} AppendIdsGrows(ids: seq<int>, more: seq<int>)
    ensures |ids| <= |AppendIds(ids, more)|
  {
    if more != [] {
      AppendIdsGrows(ids, more[..|more| - 1]);
    }
  }

  lemma SubsetOfEqualSize<T>(small: set<T>, large: set<T>)
    requires small <= large && |large| <= |small|
    ensures small == large
  {
    assert |large| == |small| + |large - small| by {
      assert large == small + (large - small);
    }
    assert large - small == {};
  }

  /** The merged severity is the greatest of the run and the merged wake flag is their disjunction. */
  lemma {:induction false} CoalescedUrgency(es: seq<Event>)
    requires es != []
    ensures forall i :: 0 <= i < |es| ==> SeverityRank(es[i].severity) <= SeverityRank(Coalesce(es).severity)
    ensures exists i :: 0 <= i < |es| && es[i].severity == Coalesce(es).severity
    ensures Coalesce(es).wake <==> exists i :: 0 <= i < |es| && es[i].wake
  {
    hide SeverityRank;
    if |es| == 1 {
      assert es[0].severity == Coalesce(es).severity;
    } else {
      var init, last := es[..|es| - 1], es[|es| - 1];
      CoalescedUrgency(init);
      assert forall i :: 0 <= i < |init| ==> init[i] == es[i];
      var k :| 0 <= k < |init| && init[k].severity == Coalesce(init).severity;
      assert es[k].severity == Coalesce(init).severity && es[|es| - 1] == last;
      if Coalesce(init).wake {
        var j :| 0 <= j < |init| && init[j].wake;
        assert es[j].wake;
      }
    }
  }

  ghost predicate ContainsAreas(box: Area, es: seq<Event>) {
    forall i :: 0 <= i < |es| && es[i].area.Some? ==> Contains(box, es[i].area.value)
  }

  ghost predicate SomeArea(es: seq<Event>) {
    exists i :: 0 <= i < |es| && es[i].area.Some?
  }

  lemma NoAreaInNone()
    ensures !SomeArea([])
  {
  }

  lemma SomeAreaSplits(es: seq<Event>)
    requires es != []
    ensures SomeArea(es) <==> SomeArea(es[..|es| - 1]) || es[|es| - 1].area.Some?
  {
    var init := es[..|es| - 1];
    if k :| 0 <= k < |init| && init[k].area.Some? {
      assert es[k].area.Some?;
    }
    if k :| 0 <= k < |es| && es[k].area.Some? {
      assert k < |init| ==> init[k].area.Some?;
    }
  }

  /** The merged area is there when some area was, and contains them all. */
  lemma {:induction false} CoalescedArea(es: seq<Event>)
    requires es != [] && SameKind(es)
    ensures Coalesce(es).area.Some? <==> SomeArea(es)
    ensures Coalesce(es).area.Some? ==>
              IsBox(Coalesce(es).area.value) && ContainsAreas(Coalesce(es).area.value, es)
  {
    hide SomeArea, AppendIds, SeverityRank;
    SomeAreaSplits(es);
    var init, last := es[..|es| - 1], es[|es| - 1];
    if |es| == 1 {
      assert es[0].area == Coalesce(es).area;
      NoAreaInNone();
    } else {
      CoalescedArea(init);
      if Coalesce(es).area.Some? {
        MergedContains(es, Coalesce(es).area.value, Coalesce(init).area);
      }
    }
  }

  /** A box that contains the last area and the box of those before contains them all. */
  lemma MergedContains(es: seq<Event>, box: Area, before: Option<Area>)
    requires es != [] && (es[|es| - 1].area.Some? ==> Contains(box, es[|es| - 1].area.value))
    requires before.None? ==> !SomeArea(es[..|es| - 1])
    requires before.Some? ==> ContainsAreas(before.value, es[..|es| - 1]) && Contains(box, before.value)
    ensures ContainsAreas(box, es)
  {
    var init := es[..|es| - 1];
    forall i | 0 <= i < |init| && es[i].area.Some? ensures Contains(box, es[i].area.value) {
      assert init[i] == es[i];
    }
  }

  /** It is the least such box. */
  lemma {:induction false} CoalescedAreaIsLeast(es: seq<Event>, box: Area)
    requires es != [] && SameKind(es) && ContainsAreas(box, es)
    ensures Coalesce(es).area.Some? ==> Contains(box, Coalesce(es).area.value)
  {
    if |es| == 1 {
      assert es[0].area == Coalesce(es).area;
    } else {
      hide SomeArea, AppendIds, SeverityRank;
      var init, last := es[..|es| - 1], es[|es| - 1];
      assert forall i :: 0 <= i < |init| ==> init[i] == es[i];
      CoalescedAreaIsLeast(init, box);
      CoalescedArea(init);
      assert last.area.Some? ==> Contains(box, last.area.value);
    }
  }

  lemma {:induction false} CoalescedKind(es: seq<Event>)
    requires es != [] && SameKind(es)
    ensures Coalesce(es).typ == es[0].typ && Coalesce(es).relationship == es[0].relationship
  {
    if |es| > 1 {
      CoalescedKind(es[..|es| - 1]);
    }
  }

  /** The merged event is as new as the last of the run. */
  lemma {:induction false} CoalescedStamp(es: seq<Event>)
    requires es != []
    ensures var e, last := Coalesce(es), es[|es| - 1];
            e.frame == last.frame && e.snapshotId == last.snapshotId && e.cursor == es[0].cursor
  {
    if |es| > 1 {
      CoalescedStamp(es[..|es| - 1]);
    }
  }

  /** A filter that accepts some event of the run is not deprived of it, unless it asks for a dropped ID. */
  lemma MergedIsAccepted(es: seq<Event>, i: nat, f: Filter)
    requires i < |es| && SameKind(es) && Accepts(f, es[i])
    requires Elements(Coalesce(es).objectIds) == AllIds(es)
    ensures Accepts(f, Coalesce(es))
  {
    hide SeverityRank;
    CoalescedKind(es);
    CoalescedUrgency(es);
    CoalescedArea(es);
    AllIdsContains(es, i);
    var merged := Coalesce(es);
    if f.objectIds != {} {
      var k :| 0 <= k < |es[i].objectIds| && es[i].objectIds[k] in f.objectIds;
      assert es[i].objectIds[k] in Elements(merged.objectIds);
    }
  }
}
