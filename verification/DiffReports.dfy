/**
 What the events of a comparison say, told by the two snapshots: when there
 is one, which objects it names, where it is and how urgent
 (AgentBridge/events.go:275-340 and 386-731).
 */
module DiffReports {
  import opened Common
  import opened Ordering
  import opened TacticalEvents
  import opened SnapshotDiff
  import opened DiffProperties
  import opened DiffLaws
  import ReportedEvents

  ghost predicate HasEvent(previous: Snapshot, current: Snapshot, kind: Kind, relationship: string) {
    KeyText(Name(kind), relationship) in Reported(Some(previous), current)
  }

  /** The event of a kind and relationship, as it leaves the differ. */
  ghost function EventUnder(previous: Snapshot, current: Snapshot, kind: Kind, relationship: string): Event
    requires HasEvent(previous, current, kind, relationship)
  {
    SortedEvent(Reported(Some(previous), current)[KeyText(Name(kind), relationship)])
  }

  // ----- When there is an event

  lemma KeyIsEmitted(ems: seq<Emission>, kind: Kind, relationship: string)
    ensures HasKey(ems, KeyText(Name(kind), relationship)) <==>
            exists subject :: Emits(ems, kind, relationship, subject)
  {
    hide KeyText, Name, EmissionKey;
    var key := KeyText(Name(kind), relationship);
    if HasKey(ems, key) {
      var i :| 0 <= i < |ems| && EmissionKey(ems[i]) == key;
      SameKey(ems[i], kind, relationship);
      assert Is(ems[i], kind, relationship, ems[i].subject);
      assert Emits(ems, kind, relationship, ems[i].subject);
    }
    if subject :| Emits(ems, kind, relationship, subject) {
      var i :| 0 <= i < |ems| && Is(ems[i], kind, relationship, subject);
      SameKey(ems[i], kind, relationship);
    }
  }

  ghost predicate SomethingHappened(previous: Snapshot, current: Snapshot, kind: Kind, relationship: string) {
    exists o :: Happened(kind, previous, current, relationship, o)
  }

  /** An event of a kind and relationship is reported exactly when that happened to some object, or was noticed. */
  lemma ReportedWhenItHappened(previous: Snapshot, current: Snapshot, kind: Kind, relationship: string)
    ensures HasEvent(previous, current, kind, relationship) <==>
            || SomethingHappened(previous, current, kind, relationship)
            || Noticed(kind, previous, current, relationship)
  {
    hide KeyText, Name, DiffEmissions, AddAll, Happened, Noticed, Emits, EntryFor;
    var ems, key := DiffEmissions(Some(previous), current), KeyText(Name(kind), relationship);
    AccumulatedIds(current, ems, key);
    EntryIsThere(AddAll(map[], current, ems), ems, key);
    KeyIsEmitted(ems, kind, relationship);
    if SomethingHappened(previous, current, kind, relationship) {
      var o :| Happened(kind, previous, current, relationship, o);
      EmitsWhatHappened(previous, current, kind, relationship, Some(o));
    }
    EmitsWhatHappened(previous, current, kind, relationship, None);
    if subject :| Emits(ems, kind, relationship, subject) {
      EmitsWhatHappened(previous, current, kind, relationship, subject);
      match subject
      case None =>
      case Some(o) => assert Happened(kind, previous, current, relationship, o);
    }
  }

  lemma EntryIsThere(acc: map<string, Event>, ems: seq<Emission>, key: string)
    requires EntryFor(acc, ems, key)
    ensures key in acc <==> HasKey(ems, key)
    ensures key in acc ==> acc[key].objectIds == AppendIds([], IdsFor(ems, key))
  {
    hide HasKey, IdsFor, AppendIds, KeyText, IsName;
  }

  // ----- Which objects it names

  /** The objects of either snapshot to which it happened. */
  ghost function Subjects(previous: Snapshot, current: Snapshot, kind: Kind, relationship: string): set<int> {
    set o | o in current.objects + previous.objects && Happened(kind, previous, current, relationship, o) :: o.id
  }

  lemma SubjectIsThere(previous: Snapshot, current: Snapshot, kind: Kind, relationship: string, o: Object)
    requires Happened(kind, previous, current, relationship, o)
    ensures o in current.objects + previous.objects
    ensures o.id in Subjects(previous, current, kind, relationship)
  {
    hide TellsOf, IsLost, CapabilityChanged, SeenAs;
  }

  lemma {:induction false} IdsForMember(ems: seq<Emission>, key: string, id: int)
    ensures id in IdsFor(ems, key) <==>
            exists i :: 0 <= i < |ems| && EmissionKey(ems[i]) == key && ems[i].subject.Some?
                        && ems[i].subject.value.id == id
  {
    hide EmissionKey;
    if ems != [] {
      var init, last := ems[..|ems| - 1], ems[|ems| - 1];
      IdsForMember(init, key, id);
      if id in IdsFor(init, key) {
        var i :| 0 <= i < |init| && EmissionKey(init[i]) == key && init[i].subject.Some?
                 && init[i].subject.value.id == id;
        assert ems[i] == init[i];
      }
      if i :| 0 <= i < |ems| && EmissionKey(ems[i]) == key && ems[i].subject.Some? && ems[i].subject.value.id == id {
        assert i < |init| ==> init[i] == ems[i];
      }
    }
  }

  lemma IdsAreSubjects(previous: Snapshot, current: Snapshot, kind: Kind, relationship: string)
    ensures Elements(IdsFor(DiffEmissions(Some(previous), current), KeyText(Name(kind), relationship)))
              == Subjects(previous, current, kind, relationship)
  {
    hide KeyText, Name, DiffEmissions, Happened, IdsFor, EmissionKey;
    var ems, key := DiffEmissions(Some(previous), current), KeyText(Name(kind), relationship);
    forall id ensures id in IdsFor(ems, key) <==> id in Subjects(previous, current, kind, relationship) {
      IdsForMember(ems, key, id);
      if id in IdsFor(ems, key) {
        var i :| 0 <= i < |ems| && EmissionKey(ems[i]) == key && ems[i].subject.Some? && ems[i].subject.value.id == id;
        NamedIsSubject(previous, current, kind, relationship, i);
      }
      if id in Subjects(previous, current, kind, relationship) {
        var o :| o in current.objects + previous.objects && Happened(kind, previous, current, relationship, o)
                 && o.id == id;
        var i := SubjectIsNamed(previous, current, kind, relationship, o);
      }
    }
  }

  lemma NamedIsSubject(previous: Snapshot, current: Snapshot, kind: Kind, relationship: string, i: nat)
    requires i < |DiffEmissions(Some(previous), current)|
    requires var em := DiffEmissions(Some(previous), current)[i];
             EmissionKey(em) == KeyText(Name(kind), relationship) && em.subject.Some?
    ensures var o := DiffEmissions(Some(previous), current)[i].subject.value;
            && Happened(kind, previous, current, relationship, o)
            && o.id in Subjects(previous, current, kind, relationship)
  {
    hide DiffEmissions, Happened, KeyText, Name, Subjects;
    var em := DiffEmissions(Some(previous), current)[i];
    SameKey(em, kind, relationship);
    assert Is(em, kind, relationship, em.subject);
    EmitsWhatHappened(previous, current, kind, relationship, em.subject);
    SubjectIsThere(previous, current, kind, relationship, em.subject.value);
  }

  lemma SubjectIsNamed(previous: Snapshot, current: Snapshot, kind: Kind, relationship: string, o: Object)
    returns (i: nat)
    requires Happened(kind, previous, current, relationship, o)
    ensures i < |DiffEmissions(Some(previous), current)|
    ensures EmissionKey(DiffEmissions(Some(previous), current)[i]) == KeyText(Name(kind), relationship)
    ensures DiffEmissions(Some(previous), current)[i].subject == Some(o)
  {
    hide DiffEmissions, Happened, KeyText, Name;
    var ems := DiffEmissions(Some(previous), current);
    EmitsWhatHappened(previous, current, kind, relationship, Some(o));
    i :| 0 <= i < |ems| && Is(ems[i], kind, relationship, Some(o));
    SameKey(ems[i], kind, relationship);
  }

  /**
   The event names objects to which it happened and no others, each once and
   in order, and all of them exactly when they are at most 128.
   */
  lemma EventNamesItsSubjects(previous: Snapshot, current: Snapshot, kind: Kind, relationship: string)
    requires HasEvent(previous, current, kind, relationship)
    ensures var ids, subjects := EventUnder(previous, current, kind, relationship).objectIds,
                                 Subjects(previous, current, kind, relationship);
            && Sorted(ids) && Distinct(ids) && Elements(ids) <= subjects
            && |ids| == Min(|subjects|, MAX_EVENT_OBJECT_IDS)
            && (Elements(ids) == subjects <==> |subjects| <= MAX_EVENT_OBJECT_IDS)
  {
    hide KeyText, Name, DiffEmissions, AddAll, IdsFor, AppendIds, EntryFor, Subjects;
    var ems, key := DiffEmissions(Some(previous), current), KeyText(Name(kind), relationship);
    AccumulatedIds(current, ems, key);
    EntryIsThere(AddAll(map[], current, ems), ems, key);
    IdsAreSubjects(previous, current, kind, relationship);
    KeptOfMany(IdsFor(ems, key));
    var kept := AppendIds([], IdsFor(ems, key));
    ReportedEvents.SortedIdsStayDistinct(kept);
    SortIdsSummary(kept);
    SortIdsElements(kept);
  }

  lemma KeptOfMany(ids: seq<int>)
    ensures var kept := AppendIds([], ids);
            && Distinct(kept) && Elements(kept) <= Elements(ids)
            && |kept| == |Elements(kept)| == Min(|Elements(ids)|, MAX_EVENT_OBJECT_IDS)
            && (Elements(kept) == Elements(ids) <==> |Elements(ids)| <= MAX_EVENT_OBJECT_IDS)
  {
    var kept := AppendIds([], ids);
    AppendIdsSummary([], ids);
    assert Elements<int>([]) == {};
    hide AppendIds;
    ElementsLength(kept);
    if Elements(kept) != Elements(ids) {
      SmallerSubset(Elements(kept), Elements(ids));
    } else {
      assert |Elements(ids)| == |kept|;
    }
  }

  lemma SmallerSubset<T>(small: set<T>, large: set<T>)
    requires small <= large && small != large
    ensures |small| < |large|
  {
    assert large == small + (large - small);
    assert large - small != {};
  }

  // ----- Where it happened

  predicate Holds(box: Area, position: seq<real>) {
    |position| >= 2 ==> box.minX <= position[0] <= box.maxX && box.minY <= position[1] <= box.maxY
  }

  /** The positions of the subjects under one key. */
  ghost predicate IsLocated(em: Emission, key: string) {
    EmissionKey(em) == key && em.subject.Some? && |em.subject.value.position| >= 2
  }

  ghost predicate HoldsIt(box: Area, em: Emission, key: string) {
    IsLocated(em, key) ==> Holds(box, em.subject.value.position)
  }

  ghost predicate HoldsAll(box: Area, ems: seq<Emission>, key: string) {
    forall i :: 0 <= i < |ems| ==> HoldsIt(box, ems[i], key)
  }

  ghost predicate SomeLocated(ems: seq<Emission>, key: string) {
    exists i :: 0 <= i < |ems| && IsLocated(ems[i], key)
  }

  /** A box around the positions, if there are any. */
  ghost predicate IsAround(area: Option<Area>, ems: seq<Emission>, key: string) {
    && (area.Some? <==> SomeLocated(ems, key))
    && (area.Some? ==> IsBox(area.value) && HoldsAll(area.value, ems, key))
  }

  lemma LocatedInMore(ems: seq<Emission>, em: Emission, key: string)
    ensures SomeLocated(ems + [em], key) <==> SomeLocated(ems, key) || IsLocated(em, key)
  {
    hide IsLocated;
    var more := ems + [em];
    assert more[|ems|] == em;
    if i :| 0 <= i < |ems| && IsLocated(ems[i], key) {
      assert IsLocated(more[i], key);
    }
    if i :| 0 <= i < |more| && IsLocated(more[i], key) {
      assert i < |ems| ==> ems[i] == more[i];
    }
  }

  lemma HoldsMore(box: Area, ems: seq<Emission>, em: Emission, key: string)
    ensures HoldsAll(box, ems + [em], key) <==> HoldsAll(box, ems, key) && HoldsIt(box, em, key)
  {
    hide HoldsIt;
    var more := ems + [em];
    assert more[|ems|] == em;
    assert forall i :: 0 <= i < |ems| ==> more[i] == ems[i];
    if HoldsAll(box, more, key) {
      forall i | 0 <= i < |ems| ensures HoldsIt(box, ems[i], key) {
        assert HoldsIt(box, more[i], key);
      }
    }
  }

  lemma LargerHolds(small: Area, large: Area, ems: seq<Emission>, key: string)
    requires HoldsAll(small, ems, key) && Contains(large, small)
    ensures HoldsAll(large, ems, key)
  {
    hide IsLocated;
    forall i | 0 <= i < |ems| ensures HoldsIt(large, ems[i], key) {
      assert HoldsIt(small, ems[i], key);
    }
  }

  function Taken(area: Option<Area>, position: seq<real>): Area {
    Include(if area.Some? then area.value else EMPTY_AREA, position)
  }

  lemma IncludeIsLeast(area: Option<Area>, position: seq<real>)
    requires |position| >= 2 && (area.Some? ==> IsBox(area.value))
    ensures var taken := Taken(area, position);
            && IsBox(taken) && Holds(taken, position) && (area.Some? ==> Contains(taken, area.value))
            && forall box :: Holds(box, position) && (area.Some? ==> Contains(box, area.value)) ==>
                 Contains(box, taken)
  {
  }

  ghost predicate AreaInv(acc: map<string, Event>, ems: seq<Emission>, key: string) {
    if key in acc then IsAround(acc[key].area, ems, key) else !SomeLocated(ems, key)
  }

  lemma AreaAfterAdd(acc: map<string, Event>, current: Snapshot, ems: seq<Emission>, em: Emission, key: string)
    requires AreaInv(acc, ems, key)
    ensures AreaInv(Add(acc, current, em), ems + [em], key)
  {
    hide SeverityRank, KeyText, Name, AppendId, Include, SomeLocated, HoldsAll, Holds;
    LocatedInMore(ems, em, key);
    var before := if key in acc then acc[key].area else None;
    if IsLocated(em, key) {
      var position := em.subject.value.position;
      var taken := Taken(before, position);
      IncludeIsLeast(before, position);
      HoldsMore(taken, ems, em, key);
      if before.Some? {
        LargerHolds(before.value, taken, ems, key);
      } else {
        NothingLocated(taken, ems, key);
      }
    } else if before.Some? {
      HoldsMore(before.value, ems, em, key);
    }
  }

  lemma NothingLocated(box: Area, ems: seq<Emission>, key: string)
    requires !SomeLocated(ems, key)
    ensures HoldsAll(box, ems, key)
  {
    hide IsLocated;
  }

  lemma {:induction false} AccumulatedArea(current: Snapshot, ems: seq<Emission>, key: string)
    ensures AreaInv(AddAll(map[], current, ems), ems, key)
  {
    hide Add, SomeLocated, IsAround;
    if ems == [] {
      NoneLocated(key);
    } else {
      var init, last := ems[..|ems| - 1], ems[|ems| - 1];
      AccumulatedArea(current, init, key);
      AreaAfterAdd(AddAll(map[], current, init), current, init, last, key);
      assert ems == init + [last];
    }
  }

  lemma NoneLocated(key: string)
    ensures !SomeLocated([], key)
  {
  }

  /** No box around the positions is smaller. */
  lemma {:induction false} AccumulatedAreaIsLeast(current: Snapshot, ems: seq<Emission>, key: string, box: Area)
    requires HoldsAll(box, ems, key)
    ensures var acc := AddAll(map[], current, ems);
            key in acc && acc[key].area.Some? ==> Contains(box, acc[key].area.value)
  {
    hide SeverityRank, KeyText, Name, AppendId, Include, SomeLocated, HoldsAll, Holds, Contains;
    if ems != [] {
      var init, last := ems[..|ems| - 1], ems[|ems| - 1];
      assert ems == init + [last];
      HoldsMore(box, init, last, key);
      AccumulatedAreaIsLeast(current, init, key, box);
      AccumulatedArea(current, init, key);
      var acc := AddAll(map[], current, init);
      var before := if key in acc then acc[key].area else None;
      if IsLocated(last, key) {
        IncludeIsLeast(before, last.subject.value.position);
      }
    }
  }

  /** An object to which it happened, and which has a place. */
  ghost predicate IsPlaced(previous: Snapshot, current: Snapshot, kind: Kind, relationship: string, o: Object) {
    Happened(kind, previous, current, relationship, o) && |o.position| >= 2
  }

  lemma LocatedIsPlaced(previous: Snapshot, current: Snapshot, kind: Kind, relationship: string, i: nat)
    returns (o: Object)
    requires i < |DiffEmissions(Some(previous), current)|
    requires IsLocated(DiffEmissions(Some(previous), current)[i], KeyText(Name(kind), relationship))
    ensures IsPlaced(previous, current, kind, relationship, o)
    ensures DiffEmissions(Some(previous), current)[i].subject == Some(o)
  {
    hide DiffEmissions, Happened, KeyText, Name;
    NamedIsSubject(previous, current, kind, relationship, i);
    o := DiffEmissions(Some(previous), current)[i].subject.value;
  }

  lemma PlacedIsLocated(previous: Snapshot, current: Snapshot, kind: Kind, relationship: string, o: Object)
    returns (i: nat)
    requires IsPlaced(previous, current, kind, relationship, o)
    ensures i < |DiffEmissions(Some(previous), current)|
    ensures IsLocated(DiffEmissions(Some(previous), current)[i], KeyText(Name(kind), relationship))
    ensures DiffEmissions(Some(previous), current)[i].subject == Some(o)
  {
    hide DiffEmissions, Happened, KeyText, Name;
    i := SubjectIsNamed(previous, current, kind, relationship, o);
  }

  ghost predicate HoldsPlaces(box: Area, previous: Snapshot, current: Snapshot, kind: Kind, relationship: string) {
    forall o :: IsPlaced(previous, current, kind, relationship, o) ==> Holds(box, o.position)
  }

  /**
   The event has an area exactly when some object to which it happened has a
   place; the area is a box around all those places, also of objects beyond
   the 128 it names, and no such box is smaller.
   */
  lemma EventIsAroundItsSubjects(previous: Snapshot, current: Snapshot, kind: Kind, relationship: string)
    requires HasEvent(previous, current, kind, relationship)
    ensures var area := EventUnder(previous, current, kind, relationship).area;
            && (area.Some? <==> exists o :: IsPlaced(previous, current, kind, relationship, o))
            && (area.Some? ==>
                  && HoldsPlaces(area.value, previous, current, kind, relationship)
                  && forall box :: HoldsPlaces(box, previous, current, kind, relationship) ==>
                       Contains(box, area.value))
  {
    hide DiffEmissions, AddAll, KeyText, Name, IsPlaced, Holds, Contains, IsLocated, SomeLocated, HoldsAll, SortIds;
    var ems, key := DiffEmissions(Some(previous), current), KeyText(Name(kind), relationship);
    AccumulatedArea(current, ems, key);
    PlacesAreLocated(previous, current, kind, relationship);
    var area := Reported(Some(previous), current)[key].area;
    if area.Some? {
      HoldsAllMeans(area.value, previous, current, kind, relationship);
      forall box | HoldsPlaces(box, previous, current, kind, relationship) ensures Contains(box, area.value) {
        HoldsAllMeans(box, previous, current, kind, relationship);
        AccumulatedAreaIsLeast(current, ems, key, box);
      }
    }
  }

  lemma PlacesAreLocated(previous: Snapshot, current: Snapshot, kind: Kind, relationship: string)
    ensures SomeLocated(DiffEmissions(Some(previous), current), KeyText(Name(kind), relationship)) <==>
            exists o :: IsPlaced(previous, current, kind, relationship, o)
  {
    hide DiffEmissions, KeyText, Name, IsPlaced, IsLocated;
    var ems, key := DiffEmissions(Some(previous), current), KeyText(Name(kind), relationship);
    if i :| 0 <= i < |ems| && IsLocated(ems[i], key) {
      var o := LocatedIsPlaced(previous, current, kind, relationship, i);
    }
    if o :| IsPlaced(previous, current, kind, relationship, o) {
      var i := PlacedIsLocated(previous, current, kind, relationship, o);
    }
  }

  lemma HoldsAllMeans(box: Area, previous: Snapshot, current: Snapshot, kind: Kind, relationship: string)
    ensures HoldsAll(box, DiffEmissions(Some(previous), current), KeyText(Name(kind), relationship)) <==>
            HoldsPlaces(box, previous, current, kind, relationship)
  {
    hide DiffEmissions, KeyText, Name, IsPlaced, IsLocated, Holds;
    var ems, key := DiffEmissions(Some(previous), current), KeyText(Name(kind), relationship);
    if HoldsAll(box, ems, key) {
      forall o | IsPlaced(previous, current, kind, relationship, o) ensures Holds(box, o.position) {
        var i := PlacedIsLocated(previous, current, kind, relationship, o);
        assert HoldsIt(box, ems[i], key);
      }
    }
    if HoldsPlaces(box, previous, current, kind, relationship) {
      forall i | 0 <= i < |ems| ensures HoldsIt(box, ems[i], key) {
        if IsLocated(ems[i], key) {
          var o := LocatedIsPlaced(previous, current, kind, relationship, i);
          assert Holds(box, o.position);
        }
      }
    }
  }

  // ----- The list of events

  ghost predicate IsEventOf(previous: Snapshot, current: Snapshot, kind: Kind, relationship: string, e: Event) {
    HasEvent(previous, current, kind, relationship) && e == EventUnder(previous, current, kind, relationship)
  }

  lemma ListedIsAnEvent(previous: Snapshot, current: Snapshot, events: seq<Event>, e: Event)
    returns (kind: Kind, relationship: string)
    requires ListsEvents(events, Reported(Some(previous), current)) && e in events
    ensures IsEventOf(previous, current, kind, relationship, e)
  {
    hide Reported, SortedEvent, KeyText, Name, Lists;
    var acc := Reported(Some(previous), current);
    var keys :| Lists(keys, acc.Keys) && ListsByKeys(events, acc, keys);
    var i :| 0 <= i < |events| && events[i] == e;
    var key := keys[i];
    assert key in acc && e == SortedEvent(acc[key]);
    hide ListsByKeys;
    kind, relationship := KeyHasAKind(previous, current, key);
  }

  lemma EventIsListed(previous: Snapshot, current: Snapshot, events: seq<Event>, kind: Kind, relationship: string,
                      e: Event)
    requires ListsEvents(events, Reported(Some(previous), current))
    requires IsEventOf(previous, current, kind, relationship, e)
    ensures e in events
  {
    hide Reported, SortedEvent, KeyText, Name;
    var acc, key := Reported(Some(previous), current), KeyText(Name(kind), relationship);
    var keys :| Lists(keys, acc.Keys) && ListsByKeys(events, acc, keys);
    assert key in Elements(keys);
    var i :| 0 <= i < |keys| && keys[i] == key;
    assert events[i] == e;
  }

  /** The differ's list holds the events of all kinds and relationships that have one, and nothing else. */
  lemma ListHoldsTheEvents(previous: Snapshot, current: Snapshot, events: seq<Event>, e: Event)
    requires ListsEvents(events, Reported(Some(previous), current))
    ensures e in events <==> exists kind, relationship :: IsEventOf(previous, current, kind, relationship, e)
  {
    hide Reported, ListsEvents, IsEventOf;
    if e in events {
      var kind, relationship := ListedIsAnEvent(previous, current, events, e);
    }
    if kind, relationship :| IsEventOf(previous, current, kind, relationship, e) {
      EventIsListed(previous, current, events, kind, relationship, e);
    }
  }

  lemma KeyHasAKind(previous: Snapshot, current: Snapshot, key: string) returns (kind: Kind, relationship: string)
    requires key in Reported(Some(previous), current)
    ensures key == KeyText(Name(kind), relationship)
  {
    hide DiffEmissions, AddAll, KeyText, Name, HasKey, IdsFor, AppendIds;
    AccumulatedIds(current, DiffEmissions(Some(previous), current), key);
    var e := Reported(Some(previous), current)[key];
    assert EntryFor(Reported(Some(previous), current), DiffEmissions(Some(previous), current), key);
    kind :| Name(kind) == e.typ;
    relationship := e.relationship;
  }

  /** Without an earlier snapshot there is the baseline, and the outcome if there is one. */
  lemma BaselineAndOutcome(current: Snapshot, kind: Kind, relationship: string)
    ensures KeyText(Name(kind), relationship) in Reported(None, current) <==>
            relationship == "" && (kind == Baseline || (kind == GameOutcome && current.outcome.Some?))
  {
    hide KeyText, Name, AddAll, DiffEmissions, Emits, EntryFor;
    var ems, key := DiffEmissions(None, current), KeyText(Name(kind), relationship);
    AccumulatedIds(current, ems, key);
    EntryIsThere(AddAll(map[], current, ems), ems, key);
    KeyIsEmitted(ems, kind, relationship);
    if subject :| Emits(ems, kind, relationship, subject) {
      BaselineIsEmitted(current, kind, relationship, subject);
    }
    BaselineIsEmitted(current, kind, relationship, None);
  }

  lemma BaselineIsEmitted(current: Snapshot, kind: Kind, relationship: string, subject: Option<Object>)
    ensures Emits(DiffEmissions(None, current), kind, relationship, subject) <==>
            && subject == None && relationship == ""
            && (kind == Baseline || (kind == GameOutcome && current.outcome.Some?))
  {
    hide Emits;
    var begun, ended := Emission(Baseline, "", "info", false, None),
                        Emission(GameOutcome, "", "critical", true, None);
    EmitsInBoth(If(true, begun), If(current.outcome.Some?, ended), kind, relationship, subject);
    EmitsIf(true, begun, kind, relationship, subject);
    EmitsIf(current.outcome.Some?, ended, kind, relationship, subject);
    assert DiffEmissions(None, current) == If(true, begun) + If(current.outcome.Some?, ended);
  }
}
