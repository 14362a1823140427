/**
 Whether a merged event can pass a filter that none of its parts passes, over
 the events the two differs report (mergePending, diffEventSnapshots and
 diffHUDSnapshots in AgentBridge/events.go).
 */
module EventReveals {
  import opened Common
  import opened TacticalEvents
  import opened SnapshotDiff
  import opened HudDiff
  import opened EventFilters
  import opened ReportedKinds
  import ReportedEvents

  // ----- What is reported

  const RELATIONSHIPS: set<string> := {"self", "allies", "enemies", "neutral", "unknown"}

  /** What relationship_name writes for an object (WebAssembly/src/wasm_agent_api.cpp:793-801). */
  predicate IsWrittenRelationship(relationship: string) {
    relationship == "allies" || relationship == "enemies" || relationship == "neutral" || relationship == "unknown"
  }

  ghost predicate IsWritten(s: Snapshot) {
    forall i :: 0 <= i < |s.objects| ==> IsWrittenRelationship(s.objects[i].relationship)
  }

  ghost predicate ReportedUnder(e: Event, previous: Option<Snapshot>, current: Snapshot, key: string) {
    && (previous.Some? ==> IsWritten(previous.value)) && IsWritten(current)
    && key in Reported(previous, current) && e == SortedEvent(Reported(previous, current)[key])
  }

  ghost predicate IsWorldReport(e: Event) {
    exists previous, current, key :: ReportedUnder(e, previous, current, key)
  }

  ghost predicate IsHudReport(e: Event) {
    exists previous, current, world :: e in HudEvents(previous, current, world)
  }

  ghost predicate OneKey(es: seq<Event>) {
    forall i :: 0 <= i < |es| ==> es[i].typ == es[0].typ && es[i].relationship == es[0].relationship
  }

  /** Reported events that share a pending entry. */
  ghost predicate IsReportedRun(es: seq<Event>) {
    es != [] && OneKey(es) && forall i :: 0 <= i < |es| ==> IsWorldReport(es[i]) || IsHudReport(es[i])
  }

  /** The events under one key of consecutive comparisons of the snapshots in `polls`. */
  ghost predicate ReportedOver(es: seq<Event>, polls: seq<Snapshot>, key: string) {
    |polls| == |es| + 1
    && forall i :: 0 <= i < |es| ==> ReportedUnder(es[i], Some(polls[i]), polls[i + 1], key)
  }

  /** Such a run whose comparisons follow one another. */
  ghost predicate IsPolledRun(es: seq<Event>) {
    es != [] && OneKey(es) && exists polls, key :: ReportedOver(es, polls, key)
  }

  lemma WrittenIsKnown(s: Snapshot)
    requires IsWritten(s)
    ensures Knows(s, RELATIONSHIPS)
  {
  }

  lemma WorldReportShape(e: Event) returns (kind: Kind)
    requires IsWorldReport(e)
    ensures WellFormed(e) && TiedAs(e, kind, RELATIONSHIPS)
  {
    hide Knows, Reported, TiedAs, SeverityRank, IsWritten, WellFormed;
    var previous, current, key :| ReportedUnder(e, previous, current, key);
    if previous.Some? {
      WrittenIsKnown(previous.value);
    }
    WrittenIsKnown(current);
    ReportedAreTied(previous, current, key, RELATIONSHIPS);
    kind :| TiedAs(SortedEvent(Reported(previous, current)[key]), kind, RELATIONSHIPS);
    ReportedEvents.EntryIsWellFormed(previous, current, key);
  }

  lemma HudReportShape(e: Event)
    requires IsHudReport(e)
    ensures WellFormed(e) && TiedHud(e)
  {
    hide HudEvents, SeverityRank;
    var previous, current, world :| e in HudEvents(previous, current, world);
    HudEventsAreTied(previous, current, world, e);
  }

  ghost predicate AllOfKind(es: seq<Event>, kind: Kind) {
    forall i :: 0 <= i < |es| ==> TiedAs(es[i], kind, RELATIONSHIPS)
  }

  ghost predicate AllOfTheHud(es: seq<Event>) {
    forall i :: 0 <= i < |es| ==> TiedHud(es[i])
  }

  lemma TypeOfKind(e: Event, kind: Kind)
    requires TiedAs(e, kind, RELATIONSHIPS)
    ensures e.typ == Name(kind)
  {
  }

  lemma TypeOfHud(e: Event)
    requires TiedHud(e)
    ensures |e.typ| > 0 && e.typ[0] == 'h'
  {
    HudTypesHaveNoNul(e.typ);
    hide IsHudType;
  }

  /** A run is of one kind, or of the HUD, throughout. */
  lemma RunShape(es: seq<Event>)
    requires IsReportedRun(es)
    ensures SameKind(es) && (AllOfTheHud(es) || exists kind :: AllOfKind(es, kind))
  {
    hide IsWorldReport, IsHudReport, WellFormed, TiedAs, TiedHud, Name;
    assert IsWorldReport(es[0]) || IsHudReport(es[0]);
    if IsWorldReport(es[0]) {
      var kind := WorldReportShape(es[0]);
      TypeOfKind(es[0], kind);
      forall i | 0 <= i < |es| ensures WellFormed(es[i]) && TiedAs(es[i], kind, RELATIONSHIPS) {
        SameKindAs(es[i], kind);
      }
      assert AllOfKind(es, kind);
    } else {
      HudReportShape(es[0]);
      TypeOfHud(es[0]);
      forall i | 0 <= i < |es| ensures WellFormed(es[i]) && TiedHud(es[i]) {
        SameAsHud(es[i]);
      }
    }
  }

  lemma SameKindAs(e: Event, kind: Kind)
    requires (IsWorldReport(e) || IsHudReport(e)) && e.typ == Name(kind)
    ensures WellFormed(e) && TiedAs(e, kind, RELATIONSHIPS)
  {
    hide IsWorldReport, IsHudReport, WellFormed, TiedAs, TiedHud, Name;
    NoKindIsOfTheHud(kind);
    if IsHudReport(e) {
      HudReportShape(e);
      TypeOfHud(e);
      assert false;
    } else {
      var other := WorldReportShape(e);
      TypeOfKind(e, other);
      NameIsInjective(kind, other);
    }
  }

  lemma SameAsHud(e: Event)
    requires (IsWorldReport(e) || IsHudReport(e)) && |e.typ| > 0 && e.typ[0] == 'h'
    ensures WellFormed(e) && TiedHud(e)
  {
    hide IsWorldReport, IsHudReport, WellFormed, TiedAs, TiedHud, Name;
    if IsHudReport(e) {
      HudReportShape(e);
    } else {
      var kind := WorldReportShape(e);
      TypeOfKind(e, kind);
      NoKindIsOfTheHud(kind);
      assert false;
    }
  }

  // ----- Filters that nothing is revealed to

  predicate PassesKind(f: Filter, kind: Kind, relationship: string) {
    && (f.types == {} || Name(kind) in f.types)
    && (f.relationships == {} || relationship in f.relationships)
    && SeverityRank(FixedSeverity(kind, relationship)) >= SeverityRank(f.minimum)
    && (f.wakeOnly ==> FixedWake(kind, relationship))
  }

  /** Events with objects of this kind and relationship exist, and pass all of the filter but its IDs and its region. */
  predicate ObjectsPass(f: Filter, kind: Kind, relationship: string) {
    && HasObjects(kind) && IsRelationship(relationship) && ReportsFor(kind, relationship)
    && PassesKind(f, kind, relationship)
  }

  /**
   A filter that a client can check: it asks for no region, or no kind of event
   with a place passes the rest of it.
   */
  ghost predicate SeesNoMore(f: Filter) {
    f.region.None? || !exists kind, relationship :: ObjectsPass(f, kind, relationship)
  }

  lemma {:induction false} NoIdsAtAll(es: seq<Event>)
    requires forall i :: 0 <= i < |es| ==> es[i].objectIds == []
    ensures AllIds(es) == {}
  {
    if es != [] {
      NoIdsAtAll(es[..|es| - 1]);
    }
  }

  lemma NothingWanted(f: Filter, es: seq<Event>)
    requires es != [] && SameKind(es) && Accepts(f, Coalesce(es))
    requires forall i :: 0 <= i < |es| ==> es[i].objectIds == []
    ensures f.objectIds == {}
  {
    hide Coalesce, SeverityRank;
    NoIdsAtAll(es);
    CoalescedIds(es);
    var ids := Coalesce(es).objectIds;
    assert forall k :: 0 <= k < |ids| ==> ids[k] in Elements(ids);
  }

  /** Where severity and wake flag are fixed, some part names the object that is asked for. */
  lemma PartWithTheObject(f: Filter, es: seq<Event>, kind: Kind) returns (i: nat)
    requires es != [] && SameKind(es) && f.region.None? && Accepts(f, Coalesce(es))
    requires AllOfKind(es, kind) && HasObjects(kind)
    ensures i < |es| && Accepts(f, es[i])
  {
    hide Coalesce, SeverityRank, Name, FixedSeverity, FixedWake, ReportsFor, HasObjects;
    CoalescedKind(es);
    CoalescedUrgency(es);
    i := 0;
    if f.objectIds != {} {
      i := WantedPart(f, es);
    }
    assert TiedAs(es[i], kind, RELATIONSHIPS);
  }

  /** Without objects, the most urgent part passes if it wakes whenever some part does. */
  lemma PartWithTheSeverity(f: Filter, es: seq<Event>, i: nat)
    requires es != [] && SameKind(es) && f.region.None? && Accepts(f, Coalesce(es))
    requires forall k :: 0 <= k < |es| ==> es[k].objectIds == []
    requires i < |es| && es[i].severity == Coalesce(es).severity && (Coalesce(es).wake ==> es[i].wake)
    ensures Accepts(f, es[i])
  {
    hide Coalesce, SeverityRank;
    NothingWanted(f, es);
    CoalescedKind(es);
    assert es[i].typ == es[0].typ;
  }

  lemma RevealsNoKindWithoutRegion(f: Filter, es: seq<Event>, kind: Kind)
    requires es != [] && SameKind(es) && AllOfKind(es, kind) && f.region.None? && Accepts(f, Coalesce(es))
    ensures SomeAccepted(f, es)
  {
    if HasObjects(kind) {
      var i := PartWithTheObject(f, es, kind);
    } else {
      hide Coalesce, SeverityRank, Name, FixedSeverity, FixedWake, ReportsFor, HasObjects, Accepts;
      CoalescedUrgency(es);
      var i :| 0 <= i < |es| && es[i].severity == Coalesce(es).severity;
      assert TiedAs(es[i], kind, RELATIONSHIPS);
      PartWithTheSeverity(f, es, i);
    }
  }

  /** Only a HUD subtitle has a wake flag of its own, and that follows its severity. */
  lemma RevealsNothingOfTheHud(f: Filter, es: seq<Event>)
    requires es != [] && SameKind(es) && AllOfTheHud(es) && f.region.None? && Accepts(f, Coalesce(es))
    ensures SomeAccepted(f, es)
  {
    hide Coalesce, Accepts;
    assert SeverityRank("info") == 0 && SeverityRank("notice") == 1;
    hide SeverityRank;
    CoalescedUrgency(es);
    var i :| 0 <= i < |es| && es[i].severity == Coalesce(es).severity;
    if Coalesce(es).wake {
      var j :| 0 <= j < |es| && es[j].wake;
      assert TiedHud(es[i]) && TiedHud(es[j]) && es[i].typ == es[j].typ;
    }
    PartWithTheSeverity(f, es, i);
  }

  lemma RevealsNothingWithoutRegion(f: Filter, es: seq<Event>)
    requires IsReportedRun(es) && f.region.None? && Accepts(f, Coalesce(es))
    ensures SomeAccepted(f, es)
  {
    hide Accepts, SomeAccepted, Coalesce, IsReportedRun, SameKind, AllOfKind, AllOfTheHud;
    RunShape(es);
    assert es != [] by { NotEmpty(es); }
    if AllOfTheHud(es) {
      RevealsNothingOfTheHud(f, es);
    } else {
      var kind :| AllOfKind(es, kind);
      RevealsNoKindWithoutRegion(f, es, kind);
    }
  }

  lemma NotEmpty(es: seq<Event>)
    requires IsReportedRun(es)
    ensures es != []
  {
  }

  lemma AreaOfObjects(es: seq<Event>, kind: Kind)
    requires AllOfKind(es, kind) && SomeArea(es)
    ensures HasObjects(kind)
  {
    hide Name, FixedSeverity, FixedWake, ReportsFor;
  }

  lemma NoAreaOnTheHud(es: seq<Event>)
    requires AllOfTheHud(es)
    ensures !SomeArea(es)
  {
  }

  lemma TheKindPasses(f: Filter, es: seq<Event>, kind: Kind)
    requires es != [] && SameKind(es) && AllOfKind(es, kind) && HasObjects(kind) && Accepts(f, Coalesce(es))
    ensures ObjectsPass(f, kind, es[0].relationship)
  {
    hide Coalesce, SeverityRank, Name, FixedSeverity, FixedWake, HasObjects;
    CoalescedKind(es);
    CoalescedUrgency(es);
    assert TiedAs(es[0], kind, RELATIONSHIPS);
    var i :| 0 <= i < |es| && es[i].severity == Coalesce(es).severity;
    assert TiedAs(es[i], kind, RELATIONSHIPS);
    if f.wakeOnly {
      var j :| 0 <= j < |es| && es[j].wake;
      assert TiedAs(es[j], kind, RELATIONSHIPS);
    }
  }

  /** Only objects have a place: a run that passes a region is of a kind that passes the rest. */
  lemma RegionNeedsObjects(f: Filter, es: seq<Event>)
    requires IsReportedRun(es) && f.region.Some? && Accepts(f, Coalesce(es))
    ensures !SeesNoMore(f)
  {
    hide SomeArea, Coalesce, IsReportedRun, SameKind, AllOfKind, AllOfTheHud, ObjectsPass, SeverityRank;
    RunShape(es);
    assert es != [] by { NotEmpty(es); }
    CoalescedArea(es);
    if AllOfTheHud(es) {
      NoAreaOnTheHud(es);
    } else {
      var kind :| AllOfKind(es, kind);
      AreaOfObjects(es, kind);
      TheKindPasses(f, es, kind);
    }
  }
}
