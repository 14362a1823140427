/**
 The filters to which coalescing reveals an event that none of its parts
 would have shown, with snapshots that lead there (mergePending and
 diffEventSnapshots in AgentBridge/events.go).
 */
module RevealedRuns {
  import opened Common
  import opened Ordering
  import opened TacticalEvents
  import opened SnapshotDiff
  import opened EventFilters
  import opened ReportedKinds
  import opened EventReveals
  import opened Decimals

  // ----- Snapshots in which one thing happens

  predicate IsCapabilityKind(kind: Kind) {
    kind == QueueChanged || kind == CapabilityReady || kind == UpgradeCompleted
  }

  /** An object of the local player, whose number is 0, or of player 1. */
  function Unit(id: nat, relationship: string, x: real, y: real): Object {
    Object(id, Some(if relationship == "self" then 0 else 1),
           if relationship == "self" then "allies" else relationship, [x, y, 0.0], [10.0, 10.0], 1.0, [])
  }

  /** Healthy, finished and at rest. */
  predicate IsUnit(o: Object, relationship: string) {
    && o.owner == Some(if relationship == "self" then 0 else 1)
    && (relationship != "self" ==> o.relationship == relationship)
    && o.health == [10.0, 10.0] && o.construction == 1.0 && o.status == []
  }

  /** The object as seen before something of this kind happens to it. */
  function Before(kind: Kind, o: Object): Option<Object> {
    if IsAppearance(kind) then None
    else if kind == ConstructionCompleted then Some(o.(construction := 0.5))
    else Some(o)
  }

  /** The object as seen afterwards. */
  function After(kind: Kind, o: Object): Option<Object> {
    if IsLoss(kind) then None
    else if kind == ConstructionStarted then Some(o.(construction := 0.5))
    else if kind == CombatDamage then Some(o.(health := [5.0, 10.0]))
    else if kind == ObjectDestroyed then Some(o.(status := ["destroyed"]))
    else if kind == CombatThreat then Some(o.(status := ["attacking"]))
    else Some(o)
  }

  function Entry(kind: Kind, id: nat, happened: bool): Capability {
    Capability(Decimal(id), Some(id), if happened && kind == QueueChanged then Some(["one"]) else None,
               [("command", CommandState(Some(happened && kind == UpgradeCompleted),
                                         Some(happened && kind == CapabilityReady)))])
  }

  function Seen(o: Option<Object>): seq<Object> {
    if o.None? then [] else [o.value]
  }

  function State(kind: Kind, o: Object, happened: bool): Option<Object> {
    if happened then After(kind, o) else Before(kind, o)
  }

  /** Two objects, to each of which it has happened or not. */
  function World(kind: Kind, a: Object, first: bool, b: Object, second: bool): Snapshot
    requires a.id >= 0 && b.id >= 0
  {
    Snapshot(0, 0, true, None, 0, [], Seen(State(kind, a, first)) + Seen(State(kind, b, second)),
             if IsCapabilityKind(kind) then Some([Entry(kind, a.id, first), Entry(kind, b.id, second)]) else None)
  }

  /** The report of it. */
  function Happening(kind: Kind, relationship: string, o: Object): Emission {
    Emission(kind, relationship, FixedSeverity(kind, relationship), FixedWake(kind, relationship),
             if IsLoss(kind) then Before(kind, o) else After(kind, o))
  }

  // ----- What the comparison makes of them

  function ChangesOf(p: Snapshot, c: Snapshot, now: Option<Object>): seq<Emission> {
    if now.None? then [] else ObjectEmissions(p, c, now.value)
  }

  function LossesOf(p: Snapshot, c: Snapshot, prior: Option<Object>): seq<Emission> {
    if prior.None? then [] else LossEmissions(p, c, prior.value)
  }

  lemma NothingHappens(p: Snapshot, c: Snapshot, o: Option<Object>)
    requires o.Some? ==> FindObject(p.objects, o.value.id) == o && FindObject(c.objects, o.value.id) == o
    ensures ChangesOf(p, c, o) == [] && LossesOf(p, c, o) == []
  {
  }

  lemma DamageAndCompletion(kind: Kind, relationship: string, o: Object, prior: Object, now: Object)
    requires IsUnit(o, relationship) && Before(kind, o) == Some(prior) && After(kind, o) == Some(now)
    ensures DamageEmissions(relationship, prior, now) ==
            if kind == CombatDamage then [Happening(kind, relationship, o)] else []
    ensures CompletionEmissions(relationship, prior, now) ==
            if kind == ConstructionCompleted then [Happening(kind, relationship, o)] else []
  {
  }

  lemma DestructionAndThreat(kind: Kind, relationship: string, o: Object, prior: Object, now: Object)
    requires IsUnit(o, relationship) && Before(kind, o) == Some(prior) && After(kind, o) == Some(now)
    requires kind == CombatThreat ==> relationship == "enemies"
    ensures DestructionEmissions(relationship, prior, now) ==
            if kind == ObjectDestroyed then [Happening(kind, relationship, o)] else []
    ensures ThreatEmissions(relationship, prior, now) ==
            if kind == CombatThreat then [Happening(kind, relationship, o)] else []
  {
  }

  lemma AppearanceHappens(kind: Kind, relationship: string, o: Object)
    requires IsUnit(o, relationship) && IsAppearance(kind) && ReportsFor(kind, relationship)
    ensures Appearance(relationship, After(kind, o).value) == Happening(kind, relationship, o)
  {
  }

  lemma StaysInPlace(kind: Kind, relationship: string, o: Object)
    requires IsUnit(o, relationship)
    ensures Before(kind, o).Some? ==> IsSameUnit(o, Before(kind, o).value)
    ensures After(kind, o).Some? ==> IsSameUnit(o, After(kind, o).value)
    ensures Before(kind, o).Some? || After(kind, o).Some?
  {
  }

  predicate IsSameUnit(o: Object, now: Object) {
    now.id == o.id && now.owner == o.owner && now.relationship == o.relationship && now.position == o.position
  }

  lemma ItHappens(kind: Kind, relationship: string, p: Snapshot, c: Snapshot, o: Object)
    requires HasObjects(kind) && ReportsFor(kind, relationship) && !IsCapabilityKind(kind) && !IsLoss(kind)
    requires p.localPlayer == 0 && c.localPlayer == 0 && IsUnit(o, relationship)
    requires FindObject(p.objects, o.id) == Before(kind, o)
    requires FindObject(c.objects, o.id) == After(kind, o)
    ensures ChangesOf(p, c, After(kind, o)) == [Happening(kind, relationship, o)]
    ensures LossesOf(p, c, Before(kind, o)) == []
  {
    hide IsUnit, Happening, FindObject, Appearance, DamageEmissions, CompletionEmissions, DestructionEmissions,
      ThreatEmissions, Relationship, Loss;
    StaysInPlace(kind, relationship, o);
    var now := After(kind, o).value;
    assert Relationship(c, now) == relationship by { RelationshipAfter(c, o, now, relationship); }
    if IsAppearance(kind) {
      AppearanceHappens(kind, relationship, o);
    } else {
      var prior := Before(kind, o).value;
      DamageAndCompletion(kind, relationship, o, prior, now);
      DestructionAndThreat(kind, relationship, o, prior, now);
    }
  }

  lemma RelationshipAfter(s: Snapshot, o: Object, now: Object, relationship: string)
    requires IsUnit(o, relationship) && s.localPlayer == 0 && IsSameUnit(o, now)
    ensures Relationship(s, now) == relationship
  {
  }

  lemma ItIsLost(kind: Kind, relationship: string, p: Snapshot, c: Snapshot, o: Object)
    requires ReportsFor(kind, relationship) && IsLoss(kind)
    requires p.localPlayer == 0 && IsUnit(o, relationship) && FindObject(c.objects, o.id) == None
    ensures ChangesOf(p, c, After(kind, o)) == []
    ensures LossesOf(p, c, Before(kind, o)) == [Happening(kind, relationship, o)]
  {
    hide FindObject, Relationship;
    RelationshipAfter(p, o, o, relationship);
  }

  lemma FindOne(x: Option<Object>, id: int)
    ensures FindObject(Seen(x), id) == if x.Some? && x.value.id == id then x else None
  {
    assert x.Some? ==> Seen(x)[..0] == [];
  }

  lemma PairInit(x: Option<Object>, y: Option<Object>)
    ensures y.None? ==> Seen(x) + Seen(y) == Seen(x)
    ensures y.Some? ==> Seen(x) + Seen(y) == Seen(x) + [y.value]
    ensures y.Some? ==> (Seen(x) + Seen(y))[..|Seen(x) + Seen(y)| - 1] == Seen(x)
  {
    assert Seen(x) + [] == Seen(x);
  }

  lemma FindInPair(x: Option<Object>, y: Option<Object>, id: int)
    ensures FindObject(Seen(x) + Seen(y), id) ==
            if y.Some? && y.value.id == id then y else if x.Some? && x.value.id == id then x else None
  {
    PairInit(x, y);
    FindOne(x, id);
    hide Seen;
  }

  lemma ChangesOfOne(p: Snapshot, c: Snapshot, x: Option<Object>)
    ensures AllObjectEmissions(p, c, Seen(x)) == ChangesOf(p, c, x)
  {
    hide ObjectEmissions;
    assert AllObjectEmissions(p, c, []) == [];
    assert x.Some? ==> Seen(x)[..0] == [];
  }

  lemma ChangesOfPair(p: Snapshot, c: Snapshot, x: Option<Object>, y: Option<Object>)
    ensures AllObjectEmissions(p, c, Seen(x) + Seen(y)) == ChangesOf(p, c, x) + ChangesOf(p, c, y)
  {
    PairInit(x, y);
    ChangesOfOne(p, c, x);
    hide Seen, ObjectEmissions;
  }

  lemma LossesOfOne(p: Snapshot, c: Snapshot, x: Option<Object>)
    ensures AllLossEmissions(p, c, Seen(x)) == LossesOf(p, c, x)
  {
    hide LossEmissions;
    assert AllLossEmissions(p, c, []) == [];
    assert x.Some? ==> Seen(x)[..0] == [];
  }

  lemma LossesOfPair(p: Snapshot, c: Snapshot, x: Option<Object>, y: Option<Object>)
    ensures AllLossEmissions(p, c, Seen(x) + Seen(y)) == LossesOf(p, c, x) + LossesOf(p, c, y)
  {
    PairInit(x, y);
    LossesOfOne(p, c, x);
    hide Seen, LossEmissions;
  }

  /** One object of two changes, whichever is listed first. */
  lemma OneOfTwo(kind: Kind, relationship: string, p: Snapshot, c: Snapshot, o: Object, other: Option<Object>,
                 first: bool)
    requires HasObjects(kind) && ReportsFor(kind, relationship) && !IsCapabilityKind(kind)
    requires p.localPlayer == 0 && c.localPlayer == 0 && IsUnit(o, relationship)
    requires other.Some? ==> other.value.id != o.id
    requires p.objects == if first then Seen(Before(kind, o)) + Seen(other) else Seen(other) + Seen(Before(kind, o))
    requires c.objects == if first then Seen(After(kind, o)) + Seen(other) else Seen(other) + Seen(After(kind, o))
    ensures AllObjectEmissions(p, c, c.objects) + AllLossEmissions(p, c, p.objects) ==
            [Happening(kind, relationship, o)]
  {
    hide IsUnit, ReportsFor, Seen, ChangesOf, LossesOf, FindObject, AllObjectEmissions, AllLossEmissions, Happening,
      IsCapabilityKind;
    var prior, now := Before(kind, o), After(kind, o);
    StaysInPlace(kind, relationship, o);
    hide Before, After;
    var otherId := if other.Some? then other.value.id else o.id;
    if first {
      FindInPair(prior, other, o.id);
      FindInPair(now, other, o.id);
      FindInPair(prior, other, otherId);
      FindInPair(now, other, otherId);
      ChangesOfPair(p, c, now, other);
      LossesOfPair(p, c, prior, other);
    } else {
      FindInPair(other, prior, o.id);
      FindInPair(other, now, o.id);
      FindInPair(other, prior, otherId);
      FindInPair(other, now, otherId);
      ChangesOfPair(p, c, other, now);
      LossesOfPair(p, c, other, prior);
    }
    NothingHappens(p, c, other);
    if IsLoss(kind) {
      LostIsNone(kind, o);
      ItIsLost(kind, relationship, p, c, o);
    } else {
      ItHappens(kind, relationship, p, c, o);
    }
  }

  lemma LostIsNone(kind: Kind, o: Object)
    requires IsLoss(kind)
    ensures After(kind, o) == None
  {
  }

  lemma NoneOfTwo(p: Snapshot, c: Snapshot, x: Object, y: Object)
    requires p.objects == c.objects == Seen(Some(x)) + Seen(Some(y)) && x.id != y.id
    ensures AllObjectEmissions(p, c, c.objects) + AllLossEmissions(p, c, p.objects) == []
  {
    hide Seen, ChangesOf, LossesOf, FindObject, AllObjectEmissions, AllLossEmissions;
    FindInPair(Some(x), Some(y), x.id);
    FindInPair(Some(x), Some(y), y.id);
    ChangesOfPair(p, c, Some(x), Some(y));
    LossesOfPair(p, c, Some(x), Some(y));
    NothingHappens(p, c, Some(x));
    NothingHappens(p, c, Some(y));
  }

  // ----- Capabilities

  lemma FindEntry(e: Capability, f: Capability)
    requires e.key != f.key
    ensures FindCapability([e, f], e.key) == Some(e) && FindCapability([e, f], f.key) == Some(f)
  {
    assert [e, f][..1] == [e];
  }

  lemma EntriesOfPair(before: seq<Capability>, c: Snapshot, e: Capability, f: Capability)
    ensures AllCapabilityEmissions(before, c, [e, f]) ==
            CapabilityEmissions(before, c, e) + CapabilityEmissions(before, c, f)
  {
    hide CapabilityEmissions;
    assert [e, f][..1] == [e] && [e][..0] == [];
    assert AllCapabilityEmissions(before, c, []) == [];
    assert AllCapabilityEmissions(before, c, [e]) == CapabilityEmissions(before, c, e);
  }

  lemma CommandsOfOne(prior: Capability, relationship: string, o: Object, command: (string, CommandState))
    ensures AllCommandEmissions(prior, relationship, o, [command]) ==
            CommandEmissions(prior, relationship, o, command.0, command.1)
  {
    hide CommandEmissions;
    assert [command][..0] == [] && AllCommandEmissions(prior, relationship, o, []) == [];
  }

  lemma FindOnlyCommand(command: (string, CommandState))
    ensures FindCommand([command], command.0) == Some(command.1)
  {
  }

  lemma CapabilityHappening(kind: Kind, relationship: string, o: Object)
    requires IsCapabilityKind(kind)
    ensures Happening(kind, relationship, o) ==
            if kind == QueueChanged then Emission(kind, relationship, "info", false, Some(o))
            else Emission(kind, relationship, "notice", relationship == "self", Some(o))
  {
  }

  lemma CommandsOfEntry(kind: Kind, relationship: string, o: Object, from: bool, to: bool)
    requires from ==> to
    requires IsCapabilityKind(kind) && o.id >= 0
    ensures AllCommandEmissions(Entry(kind, o.id, from), relationship, o, Entry(kind, o.id, to).commands) ==
            if from == to || kind == QueueChanged then [] else [Happening(kind, relationship, o)]
  {
    CapabilityHappening(kind, relationship, o);
    hide Decimal, AllCommandEmissions, FindCommand, Happening;
    CommandsOfOne(Entry(kind, o.id, from), relationship, o, Entry(kind, o.id, to).commands[0]);
    FindOnlyCommand(Entry(kind, o.id, from).commands[0]);
  }

  lemma EntryHappens(kind: Kind, relationship: string, before: seq<Capability>, c: Snapshot, o: Object, from: bool,
                     to: bool)
    requires from ==> to
    requires IsCapabilityKind(kind) && o.id >= 0 && IsUnit(o, relationship) && c.localPlayer == 0
    requires FindCapability(before, Decimal(o.id)) == Some(Entry(kind, o.id, from))
    requires FindObject(c.objects, o.id) == Some(o)
    ensures CapabilityEmissions(before, c, Entry(kind, o.id, to)) ==
            if from == to then [] else [Happening(kind, relationship, o)]
  {
    hide Decimal, FindCapability, FindObject, Relationship, AllCommandEmissions, IsUnit;
    CommandsOfEntry(kind, relationship, o, from, to);
    assert Relationship(c, o) == relationship by { RelationshipAfter(c, o, o, relationship); }
  }

  // ----- Whole comparisons

  lemma OtherPartsAreEmpty(p: Snapshot, c: Snapshot)
    requires p.playable == c.playable && c.outcome == None && c.players == []
    ensures GameEmissions(p, c) == [] && AllPlayerEmissions(p, c.players) == []
    ensures DiffEmissions(Some(p), c) ==
            (AllObjectEmissions(p, c, c.objects) + AllLossEmissions(p, c, p.objects)) + ChangedCapabilities(p, c)
  {
    hide AllObjectEmissions, AllLossEmissions, ChangedCapabilities;
  }

  ghost predicate Staged(kind: Kind, relationship: string, a: Object, b: Object) {
    && HasObjects(kind) && ReportsFor(kind, relationship) && IsUnit(a, relationship) && IsUnit(b, relationship)
    && a.id >= 0 && b.id >= 0 && a.id != b.id
  }

  /** First to one object, then to the other; each comparison reports that and nothing else. */
  lemma OneAfterTheOther(kind: Kind, relationship: string, a: Object, b: Object)
    requires Staged(kind, relationship, a, b)
    ensures DiffEmissions(Some(World(kind, a, false, b, false)), World(kind, a, true, b, false)) ==
            [Happening(kind, relationship, a)]
    ensures DiffEmissions(Some(World(kind, a, true, b, false)), World(kind, a, true, b, true)) ==
            [Happening(kind, relationship, b)]
  {
    hide DiffEmissions, AllObjectEmissions, AllLossEmissions, AllCapabilityEmissions, Happening, IsUnit, ReportsFor,
      GameEmissions, Before, After, Entry;
    var before, between, after := World(kind, a, false, b, false), World(kind, a, true, b, false),
                                  World(kind, a, true, b, true);
    OtherPartsAreEmpty(before, between);
    OtherPartsAreEmpty(between, after);
    if IsCapabilityKind(kind) {
      CapabilityStep(kind, relationship, a, b, false);
      CapabilityStep(kind, relationship, a, b, true);
    } else {
      StaysInPlace(kind, relationship, a);
      StaysInPlace(kind, relationship, b);
      OneOfTwo(kind, relationship, before, between, a, Before(kind, b), true);
      OneOfTwo(kind, relationship, between, after, b, After(kind, a), false);
    }
  }

  lemma UnchangedByCapabilities(kind: Kind, o: Object)
    requires IsCapabilityKind(kind)
    ensures Before(kind, o) == After(kind, o) == Some(o)
  {
  }

  lemma CapabilityStep(kind: Kind, relationship: string, a: Object, b: Object, first: bool)
    requires Staged(kind, relationship, a, b) && IsCapabilityKind(kind)
    ensures var p, c := World(kind, a, first, b, false), World(kind, a, true, b, first);
            && ChangedCapabilities(p, c) == [Happening(kind, relationship, if first then b else a)]
            && AllObjectEmissions(p, c, c.objects) + AllLossEmissions(p, c, p.objects) == []
  {
    hide AllObjectEmissions, AllLossEmissions, CapabilityEmissions, AllCapabilityEmissions, Happening, IsUnit,
      ReportsFor, HasObjects, Before, After, FindObject, FindCapability, Decimal;
    var p, c := World(kind, a, first, b, false), World(kind, a, true, b, first);
    UnchangedByCapabilities(kind, a);
    UnchangedByCapabilities(kind, b);
    NoneOfTwo(p, c, a, b);
    FindInPair(Some(a), Some(b), a.id);
    FindInPair(Some(a), Some(b), b.id);
    DecimalIsInjective(a.id, b.id);
    FindEntry(Entry(kind, a.id, first), Entry(kind, b.id, false));
    EntryHappens(kind, relationship, p.capabilities.value, c, a, first, true);
    EntryHappens(kind, relationship, p.capabilities.value, c, b, false, first);
    EntriesOfPair(p.capabilities.value, c, Entry(kind, a.id, true), Entry(kind, b.id, first));
  }

  // ----- Their events

  function HappeningEvent(kind: Kind, relationship: string, o: Object): Event
    requires |o.position| >= 2
  {
    Event(0, Name(kind), FixedSeverity(kind, relationship), FixedWake(kind, relationship), 0, 0, relationship, [o.id],
          Some(PointArea(o.position[0], o.position[1])))
  }

  lemma SubjectOfHappening(kind: Kind, relationship: string, o: Object)
    requires IsUnit(o, relationship)
    ensures var subject := Happening(kind, relationship, o).subject;
            subject.Some? && subject.value.id == o.id && subject.value.position == o.position
  {
    StaysInPlace(kind, relationship, o);
    hide IsUnit;
  }

  lemma OnlyReport(p: Snapshot, c: Snapshot, kind: Kind, relationship: string, o: Object)
    requires DiffEmissions(Some(p), c) == [Happening(kind, relationship, o)] && c.frame == 0 && c.snapshotId == 0
    requires IsUnit(o, relationship) && |o.position| >= 2 && IsWritten(p) && IsWritten(c)
    ensures ReportedUnder(HappeningEvent(kind, relationship, o), Some(p), c, KeyText(Name(kind), relationship))
  {
    hide Name, KeyText, FixedSeverity, FixedWake, DiffEmissions, IsWritten, AddAll;
    SubjectOfHappening(kind, relationship, o);
    hide IsUnit, Before, After;
    var em := Happening(kind, relationship, o);
    AddAllOne(map[], c, em);
    OneIdIsSorted(o.id);
    EntryOfOne(c, em, em.subject.value);
  }

  lemma OneIdIsSorted(id: int)
    ensures SortIds([id]) == [id]
  {
    assert [id][..0] == [] && SortIds([]) == [];
  }

  lemma EntryOfOne(c: Snapshot, em: Emission, o: Object)
    requires em.subject == Some(o) && |o.position| >= 2
    ensures EmissionKey(em) in Add(map[], c, em)
    ensures Add(map[], c, em)[EmissionKey(em)] ==
            EventOf(c, em).(objectIds := [o.id], area := Some(PointArea(o.position[0], o.position[1])))
  {
    hide Name, KeyText, SeverityRank;
  }

  lemma WorldIsWritten(kind: Kind, relationship: string, a: Object, first: bool, b: Object, second: bool)
    requires a.id >= 0 && b.id >= 0 && IsWrittenRelationship(a.relationship) && IsWrittenRelationship(b.relationship)
    ensures IsWritten(World(kind, a, first, b, second))
  {
    hide IsWrittenRelationship;
  }

  // ----- What coalescing reveals

  /** An object the filter asks for, if it asks for any. */
  ghost function WantedId(f: Filter): (id: nat)
    requires Parsable(f)
    ensures id >= 1 && (f.objectIds != {} ==> id in f.objectIds)
  {
    if f.objectIds == {} then 1 else
      var id := Any(f.objectIds);
      assert IsRequestableId(id);
      id
  }

  function OtherId(id: nat): nat {
    if id == 1 then 2 else 1
  }

  lemma MergeOfTwo(a: Event, b: Event)
    requires |a.objectIds| == |b.objectIds| == 1 && a.objectIds[0] != b.objectIds[0]
    ensures Coalesce([a, b]) == Merge(a, b) && Merge(a, b).objectIds == a.objectIds + b.objectIds
  {
    assert [a, b][..1] == [a];
    assert b.objectIds[..0] == [] && AppendIds(a.objectIds, []) == a.objectIds;
    assert AppendIds(a.objectIds, b.objectIds) == AppendId(a.objectIds, b.objectIds[0]);
  }

  /** Events at points outside opposite corners of the region. */
  lemma CornersAreMerged(f: Filter, kind: Kind, relationship: string, a: Object, b: Object)
    requires Parsable(f) && f.region.Some? && ObjectsPass(f, kind, relationship)
    requires a.id != b.id && (f.objectIds != {} ==> a.id in f.objectIds)
    requires var region := f.region.value;
             && a.position == [region.minX - 1.0, region.minY - 1.0, 0.0]
             && b.position == [region.maxX + 1.0, region.maxY + 1.0, 0.0]
    ensures var es := [HappeningEvent(kind, relationship, a), HappeningEvent(kind, relationship, b)];
            Accepts(f, Coalesce(es)) && !SomeAccepted(f, es)
  {
    hide Name, SeverityRank, FixedSeverity, FixedWake, ReportsFor, HasObjects, IsRelationship;
    var ea, eb := HappeningEvent(kind, relationship, a), HappeningEvent(kind, relationship, b);
    assert ea.objectIds[0] == a.id && eb.objectIds[0] == b.id;
    MergeOfTwo(ea, eb);
    assert Merge(ea, eb).objectIds[0] == a.id;
    hide Coalesce;
    var region := f.region.value;
    assert !Intersects(ea.area.value, region) && !Intersects(eb.area.value, region);
    assert Intersects(Merge(ea, eb).area.value, region);
    forall i | 0 <= i < |[ea, eb]| ensures !Accepts(f, [ea, eb][i]) {
      assert [ea, eb][i] == ea || [ea, eb][i] == eb;
    }
  }

  lemma ObjectAt(id: nat, relationship: string, x: real, y: real) returns (o: Object)
    requires IsRelationship(relationship)
    ensures IsUnit(o, relationship) && o.id == id && o.position == [x, y, 0.0]
    ensures IsWrittenRelationship(o.relationship)
  {
    o := Unit(id, relationship, x, y);
  }

  lemma PolledHappenings(kind: Kind, relationship: string, a: Object, b: Object)
    requires Staged(kind, relationship, a, b) && |a.position| >= 2 && |b.position| >= 2
    requires IsWrittenRelationship(a.relationship) && IsWrittenRelationship(b.relationship)
    ensures var es := [HappeningEvent(kind, relationship, a), HappeningEvent(kind, relationship, b)];
            var polls := [World(kind, a, false, b, false), World(kind, a, true, b, false),
                          World(kind, a, true, b, true)];
            OneKey(es) && ReportedOver(es, polls, KeyText(Name(kind), relationship))
  {
    hide HasObjects, ReportsFor, Name, KeyText, FixedSeverity, FixedWake, DiffEmissions, Happening, ReportedUnder,
      IsWritten, IsWrittenRelationship, IsUnit;
    var first, second, third := World(kind, a, false, b, false), World(kind, a, true, b, false),
                                World(kind, a, true, b, true);
    WorldIsWritten(kind, relationship, a, false, b, false);
    WorldIsWritten(kind, relationship, a, true, b, false);
    WorldIsWritten(kind, relationship, a, true, b, true);
    OneAfterTheOther(kind, relationship, a, b);
    OnlyReport(first, second, kind, relationship, a);
    OnlyReport(second, third, kind, relationship, b);
  }

  /** Three snapshots in which the kind happens at opposite corners of the region, one corner after the other. */
  lemma SomePolledRunIsRevealed(f: Filter, kind: Kind, relationship: string) returns (es: seq<Event>)
    requires Parsable(f) && f.region.Some? && ObjectsPass(f, kind, relationship)
    ensures IsPolledRun(es) && Accepts(f, Coalesce(es)) && !SomeAccepted(f, es)
  {
    hide Accepts, SomeAccepted, Coalesce, IsUnit, ReportedOver, HappeningEvent, PassesKind, World, KeyText, OneKey,
      ReportsFor, HasObjects;
    var region := f.region.value;
    var id := WantedId(f);
    hide Parsable;
    var a := ObjectAt(id, relationship, region.minX - 1.0, region.minY - 1.0);
    var b := ObjectAt(OtherId(id), relationship, region.maxX + 1.0, region.maxY + 1.0);
    CornersAreMerged(f, kind, relationship, a, b);
    PolledHappenings(kind, relationship, a, b);
    es := [HappeningEvent(kind, relationship, a), HappeningEvent(kind, relationship, b)];
    var polls := [World(kind, a, false, b, false), World(kind, a, true, b, false), World(kind, a, true, b, true)];
    assert ReportedOver(es, polls, KeyText(Name(kind), relationship));
  }

  lemma PolledIsReported(es: seq<Event>)
    requires IsPolledRun(es)
    ensures IsReportedRun(es)
  {
    hide ReportedUnder, OneKey;
    var polls, key :| ReportedOver(es, polls, key);
    forall i | 0 <= i < |es| ensures IsWorldReport(es[i]) {
      assert ReportedUnder(es[i], Some(polls[i]), polls[i + 1], key);
    }
  }

  ghost predicate IsRevealed(f: Filter, es: seq<Event>) {
    es != [] && Accepts(f, Coalesce(es)) && !SomeAccepted(f, es)
  }

  /**
   Over the runs the differs can report, coalescing never reveals an event to
   a request's filter exactly when the filter asks for no region or lets no
   kind of event with objects pass; a region is what makes the difference,
   since severity and wake flag are fixed by the kind and the relationship.
   Where it can, three consecutive snapshots do.
   */
  lemma CoalescingRevealsNothingReported(f: Filter)
    requires Parsable(f)
    ensures SeesNoMore(f) <==> forall es :: IsReportedRun(es) ==> !IsRevealed(f, es)
    ensures SeesNoMore(f) <==> forall es :: IsPolledRun(es) ==> !IsRevealed(f, es)
  {
    hide Parsable, Accepts, SomeAccepted, Coalesce, IsReportedRun, IsPolledRun, ObjectsPass;
    if SeesNoMore(f) {
      forall es | IsReportedRun(es) ensures !IsRevealed(f, es) {
        NotRevealed(f, es);
      }
      forall es | IsPolledRun(es) ensures !IsRevealed(f, es) {
        PolledIsReported(es);
        NotRevealed(f, es);
      }
    } else {
      var kind, relationship :| ObjectsPass(f, kind, relationship);
      var es := SomePolledRunIsRevealed(f, kind, relationship);
      PolledIsReported(es);
      NotEmpty(es);
      assert IsRevealed(f, es);
    }
  }

  lemma NotRevealed(f: Filter, es: seq<Event>)
    requires SeesNoMore(f) && IsReportedRun(es)
    ensures !IsRevealed(f, es)
  {
    hide Accepts, SomeAccepted, Coalesce, IsReportedRun, ObjectsPass;
    if IsRevealed(f, es) {
      if f.region.None? {
        RevealsNothingWithoutRegion(f, es);
      } else {
        RegionNeedsObjects(f, es);
      }
    }
  }

  // ----- Two filters

  function DamageIn(region: Area, minimum: Severity): Filter {
    Filter({"combat.damage"}, {}, {}, minimum, false, Some(region))
  }

  /** Damage at two corners outside the region, over three polls, and the merged event tells of damage in it. */
  lemma MergedDamagePassesAlone(region: Area) returns (es: seq<Event>)
    requires region.minX < region.maxX && region.minY < region.maxY
    ensures Parsable(DamageIn(region, "info")) && IsPolledRun(es) && IsRevealed(DamageIn(region, "info"), es)
  {
    var f := DamageIn(region, "info");
    assert Name(CombatDamage) == "combat.damage" && FixedSeverity(CombatDamage, "enemies") == "info";
    assert SeverityRank("info") == 0;
    assert ObjectsPass(f, CombatDamage, "enemies");
    hide Accepts, SomeAccepted, Coalesce, IsPolledRun, ObjectsPass;
    es := SomePolledRunIsRevealed(f, CombatDamage, "enemies");
    assert es != [] by { PolledIsReported(es); NotEmpty(es); }
  }

  /** No damage is critical, so a filter for critical damage is told nothing but what it asked for. */
  lemma CriticalDamageIsNotRevealed(region: Area)
    ensures SeesNoMore(DamageIn(region, "critical"))
  {
    forall kind, relationship ensures !ObjectsPass(DamageIn(region, "critical"), kind, relationship) {
      NotCritical(DamageIn(region, "critical"), kind, relationship);
    }
  }

  lemma NotCritical(f: Filter, kind: Kind, relationship: string)
    requires f.types == {Name(CombatDamage)} && SeverityRank(f.minimum) == 3
    ensures !ObjectsPass(f, kind, relationship)
  {
    hide Name;
    if Name(kind) == Name(CombatDamage) {
      NameIsInjective(kind, CombatDamage);
    }
  }
}
