/**
 What the type and relationship of a reported event already say about its
 severity and wake flag (AgentBridge/events.go:386-724).
 */
module ReportedKinds {
  import opened Common
  import opened TacticalEvents
  import opened SnapshotDiff
  import opened HudDiff

  /** The kinds that name objects. */
  predicate HasObjects(kind: Kind) {
    match kind
    case Baseline | GameStarted | GameOutcome | PlayerEliminated => false
    case EconomyChanged | PowerChanged | PlayerProgress => false
    case _ => true
  }

  /** The relationships for which a kind with objects is reported. */
  predicate ReportsFor(kind: Kind, relationship: string) {
    match kind
    case EnemySpotted | CombatThreat => relationship == "enemies"
    case ConstructionStarted | ProductionCompleted | Disappeared => relationship == "self"
    case ObjectAppeared => relationship != "enemies" && relationship != "self"
    case LostSight => relationship != "self"
    case _ => true
  }

  /** The severity of a kind with objects. */
  function FixedSeverity(kind: Kind, relationship: string): Severity {
    match kind
    case EnemySpotted | CombatThreat | Disappeared => "warning"
    case ProductionCompleted | ConstructionCompleted | CapabilityReady | UpgradeCompleted => "notice"
    case CombatDamage => if relationship == "self" || relationship == "allies" then "warning" else "info"
    case ObjectDestroyed => if relationship == "self" then "critical" else "warning"
    case _ => "info"
  }

  function FixedWake(kind: Kind, relationship: string): bool {
    match kind
    case Baseline | EconomyChanged | ObjectAppeared | ConstructionStarted | LostSight | QueueChanged => false
    case CombatDamage => relationship == "self" || relationship == "allies"
    case ConstructionCompleted | CapabilityReady | UpgradeCompleted => relationship == "self"
    case _ => true
  }

  // ----- Every report of the differ

  /** "self" and what the objects of a snapshot say. */
  ghost predicate Knows(s: Snapshot, rs: set<string>) {
    "self" in rs && forall i :: 0 <= i < |s.objects| ==> s.objects[i].relationship in rs
  }

  predicate TiedReport(em: Emission, rs: set<string>) {
    && em.wake == FixedWake(em.kind, em.relationship)
    && (HasObjects(em.kind) <==> em.subject.Some?)
    && (HasObjects(em.kind) ==>
          && em.relationship in rs && ReportsFor(em.kind, em.relationship)
          && em.severity == FixedSeverity(em.kind, em.relationship))
  }

  ghost predicate AllTied(ems: seq<Emission>, rs: set<string>) {
    forall i :: 0 <= i < |ems| ==> TiedReport(ems[i], rs)
  }

  lemma EconomyIsTied(prior: Economy, now: Economy, rs: set<string>)
    ensures AllTied(EconomyEmissions(prior, now), rs)
  {
  }

  lemma PlayerIsTied(previous: Snapshot, player: Player, rs: set<string>)
    ensures AllTied(PlayerEmissions(previous, player), rs)
  {
    hide EconomyEmissions;
    if FindPlayer(previous.players, player.index).Some? {
      var prior := FindPlayer(previous.players, player.index).value;
      if prior.economy.Some? && player.economy.Some? {
        EconomyIsTied(prior.economy.value, player.economy.value, rs);
      }
    }
  }

  lemma {:induction false} PlayersAreTied(previous: Snapshot, players: seq<Player>, rs: set<string>)
    ensures AllTied(AllPlayerEmissions(previous, players), rs)
  {
    hide PlayerEmissions, TiedReport;
    if players != [] {
      PlayersAreTied(previous, players[..|players| - 1], rs);
      PlayerIsTied(previous, players[|players| - 1], rs);
    }
  }

  lemma RelationshipIsKnown(s: Snapshot, o: Object, rs: set<string>)
    requires "self" in rs && o.relationship in rs
    ensures Relationship(s, o) in rs
  {
  }

  lemma AppearanceIsTied(relationship: string, o: Object, rs: set<string>)
    requires relationship in rs
    ensures TiedReport(Appearance(relationship, o), rs)
  {
  }

  lemma ChangeIsTied(relationship: string, prior: Object, o: Object, rs: set<string>)
    requires relationship in rs
    ensures AllTied(DamageEmissions(relationship, prior, o), rs)
    ensures AllTied(CompletionEmissions(relationship, prior, o), rs)
    ensures AllTied(DestructionEmissions(relationship, prior, o), rs)
    ensures AllTied(ThreatEmissions(relationship, prior, o), rs)
  {
  }

  lemma ObjectIsTied(previous: Snapshot, current: Snapshot, o: Object, rs: set<string>)
    requires "self" in rs && o.relationship in rs
    ensures AllTied(ObjectEmissions(previous, current, o), rs)
  {
    hide Relationship, TiedReport, Appearance, DamageEmissions, CompletionEmissions, DestructionEmissions,
      ThreatEmissions;
    RelationshipIsKnown(current, o, rs);
    AppearanceIsTied(Relationship(current, o), o, rs);
    if FindObject(previous.objects, o.id).Some? {
      ChangeIsTied(Relationship(current, o), FindObject(previous.objects, o.id).value, o, rs);
    }
  }

  lemma {:induction false} ObjectsAreTied(previous: Snapshot, current: Snapshot, objects: seq<Object>, rs: set<string>)
    requires "self" in rs && forall i :: 0 <= i < |objects| ==> objects[i].relationship in rs
    ensures AllTied(AllObjectEmissions(previous, current, objects), rs)
  {
    hide ObjectEmissions, TiedReport;
    if objects != [] {
      ObjectsAreTied(previous, current, objects[..|objects| - 1], rs);
      ObjectIsTied(previous, current, objects[|objects| - 1], rs);
    }
  }

  lemma LossIsTied(previous: Snapshot, o: Object, rs: set<string>)
    requires "self" in rs && o.relationship in rs
    ensures TiedReport(Loss(previous, o), rs)
  {
    hide Relationship;
    RelationshipIsKnown(previous, o, rs);
  }

  lemma {:induction false} LossesAreTied(previous: Snapshot, current: Snapshot, objects: seq<Object>, rs: set<string>)
    requires "self" in rs && forall i :: 0 <= i < |objects| ==> objects[i].relationship in rs
    ensures AllTied(AllLossEmissions(previous, current, objects), rs)
  {
    hide Loss, TiedReport;
    if objects != [] {
      LossesAreTied(previous, current, objects[..|objects| - 1], rs);
      LossIsTied(previous, objects[|objects| - 1], rs);
    }
  }

  lemma CommandIsTied(prior: Capability, relationship: string, o: Object, name: string, state: CommandState,
                      rs: set<string>)
    requires relationship in rs
    ensures AllTied(CommandEmissions(prior, relationship, o, name, state), rs)
  {
  }

  lemma {:induction false} CommandsAreTied(prior: Capability, relationship: string, o: Object,
                                           commands: seq<(string, CommandState)>, rs: set<string>)
    requires relationship in rs
    ensures AllTied(AllCommandEmissions(prior, relationship, o, commands), rs)
  {
    hide CommandEmissions, TiedReport;
    if commands != [] {
      CommandsAreTied(prior, relationship, o, commands[..|commands| - 1], rs);
      CommandIsTied(prior, relationship, o, commands[|commands| - 1].0, commands[|commands| - 1].1, rs);
    }
  }

  lemma {:induction false} FoundObjectIsThere(objects: seq<Object>, id: int)
    requires FindObject(objects, id).Some?
    ensures FindObject(objects, id).value in objects
  {
    if objects[|objects| - 1].id != id {
      FoundObjectIsThere(objects[..|objects| - 1], id);
    }
  }

  lemma QueueChangeIsTied(relationship: string, o: Object, rs: set<string>)
    requires relationship in rs
    ensures TiedReport(Emission(QueueChanged, relationship, "info", false, Some(o)), rs)
  {
  }

  lemma CapabilityIsTied(before: seq<Capability>, current: Snapshot, entry: Capability, rs: set<string>)
    requires Knows(current, rs)
    ensures AllTied(CapabilityEmissions(before, current, entry), rs)
  {
    hide AllCommandEmissions, TiedReport, Relationship;
    if FindCapability(before, entry.key).Some? && entry.objectId.Some?
       && FindObject(current.objects, entry.objectId.value).Some? {
      var prior := FindCapability(before, entry.key).value;
      var o := FindObject(current.objects, entry.objectId.value).value;
      FoundObjectIsThere(current.objects, entry.objectId.value);
      RelationshipIsKnown(current, o, rs);
      QueueChangeIsTied(Relationship(current, o), o, rs);
      CommandsAreTied(prior, Relationship(current, o), o, entry.commands, rs);
    }
  }

  lemma {:induction false} CapabilitiesAreTied(before: seq<Capability>, current: Snapshot, entries: seq<Capability>,
                                               rs: set<string>)
    requires Knows(current, rs)
    ensures AllTied(AllCapabilityEmissions(before, current, entries), rs)
  {
    hide CapabilityEmissions, TiedReport, Knows;
    if entries != [] {
      CapabilitiesAreTied(before, current, entries[..|entries| - 1], rs);
      CapabilityIsTied(before, current, entries[|entries| - 1], rs);
    }
  }

  lemma GameIsTied(previous: Snapshot, current: Snapshot, rs: set<string>)
    ensures AllTied(GameEmissions(previous, current), rs) && AllTied(BaselineEmissions(current), rs)
  {
  }

  ghost predicate KnowsBoth(previous: Option<Snapshot>, current: Snapshot, rs: set<string>) {
    Knows(current, rs) && (previous.Some? ==> Knows(previous.value, rs))
  }

  /**
   In every report the kind and the relationship fix the wake flag and, where
   objects are named, the severity; the relationship is one of the snapshots'.
   */
  lemma ReportsAreTied(previous: Option<Snapshot>, current: Snapshot, rs: set<string>)
    requires KnowsBoth(previous, current, rs)
    ensures AllTied(DiffEmissions(previous, current), rs)
  {
    hide TiedReport, GameEmissions, BaselineEmissions, AllPlayerEmissions, AllObjectEmissions, AllLossEmissions,
      AllCapabilityEmissions;
    match previous
    case None => GameIsTied(current, current, rs);
    case Some(p) =>
      GameIsTied(p, current, rs);
      PlayersAreTied(p, current.players, rs);
      ObjectsAreTied(p, current, current.objects, rs);
      LossesAreTied(p, current, p.objects, rs);
      if p.capabilities.Some? && current.capabilities.Some? {
        CapabilitiesAreTied(p.capabilities.value, current, current.capabilities.value, rs);
      }
  }

  // ----- Every event they accumulate to

  ghost predicate TiedAs(e: Event, kind: Kind, rs: set<string>) {
    && e.typ == Name(kind) && e.wake == FixedWake(kind, e.relationship)
    && (HasObjects(kind) ==>
          && e.relationship in rs && ReportsFor(kind, e.relationship)
          && e.severity == FixedSeverity(kind, e.relationship))
    && (!HasObjects(kind) ==> e.objectIds == [] && e.area == None)
  }

  ghost predicate TiedEntry(key: string, e: Event, rs: set<string>) {
    key == KeyText(e.typ, e.relationship) && exists kind :: TiedAs(e, kind, rs)
  }

  lemma AccumulateKeepsTied(before: Event, current: Snapshot, em: Emission, rs: set<string>)
    requires TiedReport(em, rs) && TiedAs(before, em.kind, rs) && before.relationship == em.relationship
    ensures TiedAs(Accumulate(before, EventOf(current, em), em.subject), em.kind, rs)
  {
    hide SeverityRank, FixedSeverity, FixedWake, HasObjects, ReportsFor, Name;
  }

  lemma FirstIsTied(current: Snapshot, em: Emission, rs: set<string>)
    requires TiedReport(em, rs)
    ensures TiedAs(EventOf(current, em), em.kind, rs)
  {
    hide FixedSeverity, FixedWake, HasObjects, ReportsFor, Name;
  }

  lemma SameEntry(before: Event, em: Emission, rs: set<string>)
    requires TiedEntry(EmissionKey(em), before, rs)
    ensures TiedAs(before, em.kind, rs) && before.relationship == em.relationship
  {
    hide FixedSeverity, FixedWake, HasObjects, ReportsFor, Name, KeyText;
    var kind :| TiedAs(before, kind, rs);
    NameIsNulFree(kind);
    NameIsNulFree(em.kind);
    KeyTextIsInjective(Name(em.kind), em.relationship, before.typ, before.relationship);
    NameIsInjective(kind, em.kind);
  }

  lemma {:induction false} AccumulatedAreTied(current: Snapshot, ems: seq<Emission>, rs: set<string>)
    requires AllTied(ems, rs)
    ensures forall key :: key in AddAll(map[], current, ems) ==> TiedEntry(key, AddAll(map[], current, ems)[key], rs)
  {
    hide TiedReport, TiedAs, Accumulate, Name, KeyText;
    if ems != [] {
      var init, last := ems[..|ems| - 1], ems[|ems| - 1];
      var acc := AddAll(map[], current, init);
      AccumulatedAreTied(current, init, rs);
      OneMoreIsTied(acc, current, last, rs);
    }
  }

  lemma OneMoreIsTied(acc: map<string, Event>, current: Snapshot, em: Emission, rs: set<string>)
    requires TiedReport(em, rs) && forall key :: key in acc ==> TiedEntry(key, acc[key], rs)
    ensures forall key :: key in Add(acc, current, em) ==> TiedEntry(key, Add(acc, current, em)[key], rs)
  {
    hide TiedReport, TiedAs, Name, KeyText, SeverityRank, Include;
    var key := EmissionKey(em);
    FirstIsTied(current, em, rs);
    if key in acc {
      SameEntry(acc[key], em, rs);
    }
    var before := if key in acc then acc[key] else EventOf(current, em);
    AccumulateKeepsTied(before, current, em, rs);
    TiedTypes(before, em.kind, rs);
  }

  lemma TiedTypes(e: Event, kind: Kind, rs: set<string>)
    requires TiedAs(e, kind, rs)
    ensures e.typ == Name(kind)
  {
  }

  lemma ReportedAreTied(previous: Option<Snapshot>, current: Snapshot, key: string, rs: set<string>)
    requires KnowsBoth(previous, current, rs) && key in Reported(previous, current)
    ensures exists kind :: TiedAs(SortedEvent(Reported(previous, current)[key]), kind, rs)
  {
    hide DiffEmissions, AddAll, FixedSeverity, FixedWake, HasObjects, ReportsFor, Name, KeyText;
    ReportsAreTied(previous, current, rs);
    AccumulatedAreTied(current, DiffEmissions(previous, current), rs);
    var e := Reported(previous, current)[key];
    assert TiedEntry(key, e, rs);
    var kind :| TiedAs(e, kind, rs);
    SortKeepsTied(e, kind, rs);
  }

  lemma SortKeepsTied(e: Event, kind: Kind, rs: set<string>)
    requires TiedAs(e, kind, rs)
    ensures TiedAs(SortedEvent(e), kind, rs)
  {
    hide FixedSeverity, FixedWake, HasObjects, ReportsFor, Name;
  }

  // ----- The events of the HUD

  predicate IsHudType(typ: string) {
    typ == "hud.message" || typ == "hud.popup" || typ == "hud.popupClosed" || typ == "hud.subtitle"
    || typ == "hud.timer"
  }

  lemma HudTypesHaveNoNul(typ: string)
    requires IsHudType(typ)
    ensures NulFree(typ) && |typ| > 0 && typ[0] == 'h'
  {
  }

  /** About no object; its wake flag is fixed by its type, or follows its severity. */
  ghost predicate TiedHud(e: Event) {
    && SeverityRank(e.severity) >= 0
    && e.relationship == "" && e.objectIds == [] && e.area == None
    && IsHudType(e.typ)
    && (e.typ == "hud.subtitle" ==> (e.severity == "info" && !e.wake) || (e.severity == "notice" && e.wake))
    && (e.typ != "hud.subtitle" ==> (e.wake <==> e.typ == "hud.message" || e.typ == "hud.popup"))
  }

  lemma MessagesAndPopupsAreTied(previous: Hud, current: Hud, world: Snapshot)
    ensures forall e :: e in MessageEvents(previous, current, world) ==> TiedHud(e)
    ensures forall e :: e in PopupEvents(previous, current, world) ==> TiedHud(e)
  {
  }

  lemma SubtitlesAndTimersAreTied(previous: Hud, current: Hud, world: Snapshot)
    ensures forall e :: e in SubtitleEvents(previous, current, world) ==> TiedHud(e)
    ensures forall e :: e in TimerEvents(previous, current, world) ==> TiedHud(e)
  {
  }

  lemma HudEventsAreTied(previous: Option<Hud>, current: Hud, world: Snapshot, e: Event)
    requires e in HudEvents(previous, current, world)
    ensures TiedHud(e)
  {
    hide TiedHud, MessageEvents, PopupEvents, SubtitleEvents, TimerEvents;
    MessagesAndPopupsAreTied(previous.value, current, world);
    SubtitlesAndTimersAreTied(previous.value, current, world);
  }

  lemma NoKindIsOfTheHud(kind: Kind)
    ensures |Name(kind)| > 0 && Name(kind)[0] != 'h'
  {
  }
}
