/**
 What a client's filter can tell apart once events are coalesced
 (parseEventFilter, accepts and mergePending in AgentBridge/events.go).
 */
module EventFilters {
  import opened Common
  import opened TacticalEvents

  const MAX_TYPE_LENGTH: nat := 64

  /** strconv.ParseInt with 32 bits, and not less than 1. */
  predicate IsRequestableId(id: int) {
    1 <= id < 0x8000_0000
  }

  predicate IsRelationship(relationship: string) {
    || relationship == "self" || relationship == "allies" || relationship == "enemies"
    || relationship == "neutral" || relationship == "unknown"
  }

  /** The filters that parseEventFilter can return without an error. */
  ghost predicate Parsable(f: Filter) {
    && (forall t :: t in f.types ==> 0 < |t| <= MAX_TYPE_LENGTH)
    && (forall r :: r in f.relationships ==> IsRelationship(r))
    && (forall id :: id in f.objectIds ==> IsRequestableId(id))
    && |f.objectIds| <= MAX_EVENT_OBJECT_IDS
    && SeverityRank(f.minimum) >= 0
    && (f.region.Some? ==> f.region.value.minX < f.region.value.maxX && f.region.value.minY < f.region.value.maxY)
  }

  /** A run of events under one pending key, about objects a client can ask for. */
  ghost predicate IsRun(es: seq<Event>) {
    && es != [] && SameKind(es)
    && forall i, k :: 0 <= i < |es| && 0 <= k < |es[i].objectIds| ==> IsRequestableId(es[i].objectIds[k])
  }

  ghost predicate SomeAccepted(f: Filter, es: seq<Event>) {
    exists i :: 0 <= i < |es| && Accepts(f, es[i])
  }

  // ----- Hiding: an accepted event that is refused once merged

  /** Asks for every event that names `id`. */
  ghost function OnlyId(id: int): Filter {
    Filter({}, {}, {id}, "info", false, None)
  }

  lemma OnlyIdAccepts(id: int, e: Event)
    requires SeverityRank(e.severity) >= 0
    ensures Accepts(OnlyId(id), e) <==> id in e.objectIds
  {
    assert SeverityRank("info") == 0;
    if id in e.objectIds {
      var k :| 0 <= k < |e.objectIds| && e.objectIds[k] == id;
      assert e.objectIds[k] in {id};
    }
  }

  lemma OnlyIdIsParsable(id: int)
    requires IsRequestableId(id)
    ensures Parsable(OnlyId(id))
  {
    assert SeverityRank("info") == 0;
  }

  lemma CoalescedIsRanked(es: seq<Event>)
    requires es != [] && SameKind(es)
    ensures SeverityRank(Coalesce(es).severity) >= 0
  {
    hide SeverityRank;
    CoalescedUrgency(es);
    assert WellFormed(es[0]);
  }

  /**
   Coalescing never hides an event from any filter that a request can build
   exactly when the run names at most 128 distinct objects; beyond that some
   filter loses its event.
   */
  lemma CoalescingHidesNothing(es: seq<Event>)
    requires IsRun(es)
    ensures (forall f: Filter :: Parsable(f) && SomeAccepted(f, es) ==> Accepts(f, Coalesce(es)))
            <==> |AllIds(es)| <= MAX_EVENT_OBJECT_IDS
  {
    hide Accepts, Coalesce, SameKind, AllIds, SeverityRank;
    CoalescedIds(es);
    if |AllIds(es)| <= MAX_EVENT_OBJECT_IDS {
      forall f: Filter | Parsable(f) && SomeAccepted(f, es) ensures Accepts(f, Coalesce(es)) {
        var i :| 0 <= i < |es| && Accepts(f, es[i]);
        MergedIsAccepted(es, i, f);
      }
    } else {
      var id := Missing(Elements(Coalesce(es).objectIds), AllIds(es));
      HiddenId(es, id);
    }
  }

  /** An object dropped from a merged event is hidden from the filter that asks for it. */
  lemma HiddenId(es: seq<Event>, id: int)
    requires IsRun(es) && id in AllIds(es) && id !in Coalesce(es).objectIds
    ensures Parsable(OnlyId(id)) && SomeAccepted(OnlyId(id), es) && !Accepts(OnlyId(id), Coalesce(es))
  {
    hide Accepts, Coalesce, AllIds, SeverityRank;
    var i := AllIdsHasSource(es, id);
    var k :| 0 <= k < |es[i].objectIds| && es[i].objectIds[k] == id;
    assert IsRequestableId(es[i].objectIds[k]);
    assert WellFormed(es[i]);
    OnlyIdIsParsable(id);
    CoalescedIsRanked(es);
    OnlyIdAccepts(id, es[i]);
    OnlyIdAccepts(id, Coalesce(es));
  }

  /** The IDs 1 to n. */
  function FirstIds(n: nat): (ids: seq<int>)
    ensures |ids| == n && forall k :: 0 <= k < n ==> ids[k] == k + 1
  {
    seq(n, k => k + 1)
  }

  function Sighting(ids: seq<int>): Event {
    Event(0, "enemy.spotted", "warning", true, 0, 0, "enemies", ids, None)
  }

  lemma FullListStays(ids: seq<int>, id: int)
    requires |ids| == MAX_EVENT_OBJECT_IDS
    ensures AppendIds(ids, [id]) == ids
  {
    assert [id][..0] == [] && AppendIds(ids, [id]) == AppendId(AppendIds(ids, []), id);
  }

  lemma AllIdsOfPair(a: Event, b: Event)
    ensures AllIds([a, b]) == Elements(a.objectIds) + Elements(b.objectIds)
  {
    assert [a, b][..1] == [a] && AllIds([a]) == AllIds([]) + Elements(a.objectIds);
  }

  /** A first event about 128 objects and a second about one more: whoever asks for that one is not told. */
  lemma The129thObjectIsHidden()
    ensures var es := [Sighting(FirstIds(128)), Sighting([129])];
            && IsRun(es) && |AllIds(es)| == 129 && Parsable(OnlyId(129))
            && Accepts(OnlyId(129), es[1]) && !Accepts(OnlyId(129), Coalesce(es))
  {
    var a, b := Sighting(FirstIds(128)), Sighting([129]);
    var es := [a, b];
    assert SeverityRank("warning") == 2;
    hide SeverityRank, Accepts, AppendIds, AllIds;
    assert es[..1] == [a] && Coalesce(es) == Merge(a, b);
    FullListStays(a.objectIds, 129);
    AllIdsOfPair(a, b);
    ElementsLength(a.objectIds);
    assert Elements([129]) == {129};
    HiddenId(es, 129);
    OnlyIdAccepts(129, b);
  }

  // ----- Revealing: a merged event that is accepted though none of its parts is
  //
  // What merging alone guarantees, for events of any severity and wake flag. The
  // differs tie both to the type; RevealedRuns has the condition for their events.

  predicate AsksSeverity(f: Filter) {
    SeverityRank(f.minimum) > 0
  }

  predicate AsksIds(f: Filter) {
    f.objectIds != {}
  }

  /** No region, and at most one of minSeverity above info, wakeOnly and objectIds. */
  predicate AsksOneThing(f: Filter) {
    && f.region.None?
    && !(AsksSeverity(f) && f.wakeOnly) && !(AsksSeverity(f) && AsksIds(f)) && !(f.wakeOnly && AsksIds(f))
  }

  /** A filter that asks one thing finds it in the part it came from. */
  lemma MergedHasAcceptedPart(f: Filter, es: seq<Event>)
    requires es != [] && SameKind(es) && Parsable(f) && AsksOneThing(f) && Accepts(f, Coalesce(es))
    ensures SomeAccepted(f, es)
  {
    hide SeverityRank;
    CoalescedKind(es);
    CoalescedUrgency(es);
    var i: nat := 0;
    if AsksSeverity(f) {
      i :| i < |es| && es[i].severity == Coalesce(es).severity;
    } else if f.wakeOnly {
      i :| i < |es| && es[i].wake;
    } else if AsksIds(f) {
      i := WantedPart(f, es);
    }
    assert WellFormed(es[i]);
    assert Accepts(f, es[i]);
  }

  lemma WantedPart(f: Filter, es: seq<Event>) returns (i: nat)
    requires es != [] && SameKind(es) && SomeIdWanted(f.objectIds, Coalesce(es).objectIds)
    ensures i < |es| && SomeIdWanted(f.objectIds, es[i].objectIds)
  {
    hide Coalesce, SameKind;
    CoalescedIds(es);
    var id :| id in Elements(Coalesce(es).objectIds) && id in f.objectIds;
    i := AllIdsHasSource(es, id);
    var k :| 0 <= k < |es[i].objectIds| && es[i].objectIds[k] == id;
  }

  /** An event of a type and relationship that the filter lets through. */
  ghost function Candidate(f: Filter, severity: string, wake: bool, ids: seq<int>, area: Option<Area>): Event {
    Event(0, if f.types == {} then "t" else Any(f.types), severity, wake, 0, 0, "", ids, area)
  }

  /** Nothing, or one object the filter asks for. */
  ghost function WantedIds(f: Filter): (ids: seq<int>)
    ensures |ids| <= 1 && (AsksIds(f) ==> SomeIdWanted(f.objectIds, ids))
    ensures forall k :: 0 <= k < |ids| ==> ids[k] in f.objectIds
  {
    if f.objectIds == {} then [] else
      var ids := [Any(f.objectIds)];
      assert ids[0] in f.objectIds;
      ids
  }

  function PointArea(x: real, y: real): Area {
    Area(x, y, x, y, true)
  }

  lemma CandidatesRun(f: Filter, a: Event, b: Event)
    requires Parsable(f) && WellFormed(a) && WellFormed(b)
    requires a.typ == b.typ && a.relationship == b.relationship
    requires (a.objectIds == [] || a.objectIds == WantedIds(f)) && b.objectIds == WantedIds(f)
    ensures IsRun([a, b]) && Coalesce([a, b]) == Merge(a, b)
    ensures Merge(a, b).objectIds == WantedIds(f)
  {
    hide SeverityRank;
    assert [a, b][..1] == [a];
    var ids := WantedIds(f);
    if ids != [] {
      assert ids == [ids[0]] && ids[..0] == [];
      assert AppendIds(a.objectIds, ids) == AppendId(AppendIds(a.objectIds, []), ids[0]);
    }
  }

  /** Two point areas outside opposite corners of a region are merged into an area around it. */
  lemma CornersSpan(f: Filter) returns (a: Event, b: Event)
    requires Parsable(f) && f.region.Some?
    ensures IsRun([a, b]) && Accepts(f, Coalesce([a, b])) && !SomeAccepted(f, [a, b])
  {
    var r := f.region.value;
    var low, high := PointArea(r.minX - 1.0, r.minY - 1.0), PointArea(r.maxX + 1.0, r.maxY + 1.0);
    assert SeverityRank("critical") == 3;
    a := Candidate(f, "critical", true, WantedIds(f), Some(low));
    b := Candidate(f, "critical", true, WantedIds(f), Some(high));
    hide SeverityRank, Coalesce, IsRun, Parsable;
    RankIsAtMost3(f.minimum);
    CandidatesRun(f, a, b);
    assert Intersects(Merge(a, b).area.value, r);
    assert !Intersects(low, r) && !Intersects(high, r);
  }

  lemma RankIsAtMost3(severity: string)
    ensures SeverityRank(severity) <= 3
  {
  }

  /** One part has what the filter asks of severity, the other what it asks of waking. */
  lemma SeverityAndWakeMix(f: Filter) returns (a: Event, b: Event)
    requires Parsable(f) && f.region.None? && AsksSeverity(f) && f.wakeOnly
    ensures IsRun([a, b]) && Accepts(f, Coalesce([a, b])) && !SomeAccepted(f, [a, b])
  {
    assert SeverityRank("critical") == 3 && SeverityRank("info") == 0;
    a := Candidate(f, "critical", false, WantedIds(f), None);
    b := Candidate(f, "info", true, WantedIds(f), None);
    hide SeverityRank, Coalesce, IsRun, Parsable;
    RankIsAtMost3(f.minimum);
    CandidatesRun(f, a, b);
  }

  /** One part has the severity, the other names the object. */
  lemma SeverityAndIdsMix(f: Filter) returns (a: Event, b: Event)
    requires Parsable(f) && f.region.None? && AsksSeverity(f) && AsksIds(f)
    ensures IsRun([a, b]) && Accepts(f, Coalesce([a, b])) && !SomeAccepted(f, [a, b])
  {
    assert SeverityRank("critical") == 3 && SeverityRank("info") == 0;
    a := Candidate(f, "critical", true, [], None);
    b := Candidate(f, "info", true, WantedIds(f), None);
    hide SeverityRank, Coalesce, IsRun, Parsable;
    RankIsAtMost3(f.minimum);
    CandidatesRun(f, a, b);
  }

  /** One part wakes, the other names the object. */
  lemma WakeAndIdsMix(f: Filter) returns (a: Event, b: Event)
    requires Parsable(f) && f.region.None? && f.wakeOnly && AsksIds(f)
    ensures IsRun([a, b]) && Accepts(f, Coalesce([a, b])) && !SomeAccepted(f, [a, b])
  {
    assert SeverityRank("critical") == 3;
    a := Candidate(f, "critical", true, [], None);
    b := Candidate(f, "critical", false, WantedIds(f), None);
    hide SeverityRank, Coalesce, IsRun, Parsable;
    RankIsAtMost3(f.minimum);
    CandidatesRun(f, a, b);
  }

  lemma SomeRunIsRevealed(f: Filter) returns (es: seq<Event>)
    requires Parsable(f) && !AsksOneThing(f)
    ensures IsRun(es) && Accepts(f, Coalesce(es)) && !SomeAccepted(f, es)
  {
    hide Parsable, IsRun, Accepts, SomeAccepted, Coalesce, AsksSeverity, AsksIds;
    var a: Event, b: Event;
    if f.region.Some? {
      a, b := CornersSpan(f);
    } else if AsksSeverity(f) && f.wakeOnly {
      a, b := SeverityAndWakeMix(f);
    } else if AsksSeverity(f) && AsksIds(f) {
      a, b := SeverityAndIdsMix(f);
    } else {
      a, b := WakeAndIdsMix(f);
    }
    es := [a, b];
  }

  /**
   Whatever events are merged, a merged event passes no filter that none of
   its parts passes, exactly when the filter has no region and asks at most
   one thing of severity, waking and objects.
   */
  lemma CoalescingRevealsNothing(f: Filter)
    requires Parsable(f)
    ensures (forall es :: IsRun(es) && Accepts(f, Coalesce(es)) ==> SomeAccepted(f, es)) <==> AsksOneThing(f)
  {
    hide Parsable, SameKind, Accepts, SomeAccepted, Coalesce, AsksSeverity, AsksIds;
    if AsksOneThing(f) {
      forall es | IsRun(es) && Accepts(f, Coalesce(es)) ensures SomeAccepted(f, es) {
        MergedHasAcceptedPart(f, es);
      }
    } else {
      var es := SomeRunIsRevealed(f);
    }
  }
}
