/**
 The comparison of two world snapshots (diffEventSnapshots and
 eventAccumulator in AgentBridge/events.go). Summaries are not modelled;
 details are the subject of EventDetails.
 */
module SnapshotDiff {
  import opened Common
  import opened Ordering
  import opened TacticalEvents

  // ----- Snapshots

  datatype Economy = Economy(money: int, powerSufficient: bool, rank: int, skillPoints: int, sciencePoints: int)

  datatype Player = Player(index: int, isLocal: bool, relationship: string, active: bool, economy: Option<Economy>)

  datatype Object = Object(id: int, owner: Option<int>, relationship: string, position: seq<real>, health: seq<real>,
                           construction: real, status: seq<string>)

  /** A command's state: None is a null pointer. */
  datatype CommandState = CommandState(complete: Option<bool>, ready: Option<bool>)

  /**
   One entry of the objectCapabilities map, in the order Go ranges over it;
   `objectId` is what strconv.ParseInt makes of the key.
   */
  datatype Capability = Capability(key: string, objectId: Option<int>, queue: Option<seq<string>>,
                                   commands: seq<(string, CommandState)>)

  datatype Snapshot = Snapshot(frame: nat, snapshotId: nat, playable: bool, outcome: Option<string>, localPlayer: int,
                               players: seq<Player>, objects: seq<Object>, capabilities: Option<seq<Capability>>)

  function Relationship(s: Snapshot, o: Object): string {
    if o.owner == Some(s.localPlayer) then "self" else o.relationship
  }

  /** objectMap and playerMap keep the last entry with a given key. */
  function FindObject(objects: seq<Object>, id: int): Option<Object> {
    if objects == [] then None
    else if objects[|objects| - 1].id == id then Some(objects[|objects| - 1])
    else FindObject(objects[..|objects| - 1], id)
  }

  function FindPlayer(players: seq<Player>, index: int): Option<Player> {
    if players == [] then None
    else if players[|players| - 1].index == index then Some(players[|players| - 1])
    else FindPlayer(players[..|players| - 1], index)
  }

  function FindCapability(entries: seq<Capability>, key: string): Option<Capability> {
    if entries == [] then None
    else if entries[|entries| - 1].key == key then Some(entries[|entries| - 1])
    else FindCapability(entries[..|entries| - 1], key)
  }

  function FindCommand(commands: seq<(string, CommandState)>, name: string): Option<CommandState> {
    if commands == [] then None
    else if commands[|commands| - 1].0 == name then Some(commands[|commands| - 1].1)
    else FindCommand(commands[..|commands| - 1], name)
  }

  // ----- Kinds of event

  datatype Kind =
    | Baseline | GameStarted | GameOutcome | PlayerEliminated
    | EconomyChanged | PowerChanged | PlayerProgress
    | ObjectAppeared | EnemySpotted | ConstructionStarted | ProductionCompleted
    | CombatDamage | ConstructionCompleted | ObjectDestroyed | CombatThreat
    | LostSight | Disappeared
    | QueueChanged | CapabilityReady | UpgradeCompleted

  function Name(kind: Kind): string {
    match kind
    case Baseline => "stream.baseline"
    case GameStarted => "game.started"
    case GameOutcome => "game.outcome"
    case PlayerEliminated => "player.eliminated"
    case EconomyChanged => "economy.changed"
    case PowerChanged => "power.changed"
    case PlayerProgress => "player.progress"
    case ObjectAppeared => "object.appeared"
    case EnemySpotted => "enemy.spotted"
    case ConstructionStarted => "construction.started"
    case ProductionCompleted => "production.completed"
    case CombatDamage => "combat.damage"
    case ConstructionCompleted => "construction.completed"
    case ObjectDestroyed => "object.destroyed"
    case CombatThreat => "combat.threat"
    case LostSight => "object.lostSight"
    case Disappeared => "object.disappeared"
    case QueueChanged => "production.queueChanged"
    case CapabilityReady => "capability.ready"
    case UpgradeCompleted => "upgrade.completed"
  }

  predicate IsAppearance(kind: Kind) {
    kind in {ObjectAppeared, EnemySpotted, ConstructionStarted, ProductionCompleted}
  }

  predicate IsLoss(kind: Kind) {
    kind in {LostSight, Disappeared}
  }

  /** Length and two letters tell the names apart. */
  function Signature(name: string): (nat, char, char) {
    (|name|, if |name| > 0 then name[0] else '?', if |name| > 7 then name[7] else '?')
  }

  function SignatureOf(kind: Kind): (nat, char, char) {
    match kind
    case Baseline => (15, 's', 'b')
    case GameStarted => (12, 'g', 'a')
    case GameOutcome => (12, 'g', 't')
    case PlayerEliminated => (17, 'p', 'e')
    case EconomyChanged => (15, 'e', '.')
    case PowerChanged => (13, 'p', 'h')
    case PlayerProgress => (15, 'p', 'p')
    case ObjectAppeared => (15, 'o', 'a')
    case EnemySpotted => (13, 'e', 'p')
    case ConstructionStarted => (20, 'c', 'c')
    case ProductionCompleted => (20, 'p', 'i')
    case CombatDamage => (13, 'c', 'd')
    case ConstructionCompleted => (22, 'c', 'c')
    case ObjectDestroyed => (16, 'o', 'd')
    case CombatThreat => (13, 'c', 't')
    case LostSight => (16, 'o', 'l')
    case Disappeared => (18, 'o', 'd')
    case QueueChanged => (23, 'p', 'i')
    case CapabilityReady => (16, 'c', 'i')
    case UpgradeCompleted => (17, 'u', '.')
  }

  lemma SignatureOfName(kind: Kind)
    ensures Signature(Name(kind)) == SignatureOf(kind)
  {
  }

  lemma SignaturesDiffer(a: Kind, b: Kind)
    requires SignatureOf(a) == SignatureOf(b)
    ensures a == b
  {
  }

  lemma NameIsInjective(a: Kind, b: Kind)
    requires Name(a) == Name(b)
    ensures a == b
  {
    hide Name, Signature, SignatureOf;
    SignatureOfName(a);
    SignatureOfName(b);
    SignaturesDiffer(a, b);
  }

  ghost predicate NulFree(s: string) {
    forall i :: 0 <= i < |s| ==> s[i] != '\0'
  }

  lemma NameIsNulFree(kind: Kind)
    ensures NulFree(Name(kind))
  {
    hide Name;
    match kind
    case Baseline | GameStarted | GameOutcome | PlayerEliminated => GameNameIsNulFree(kind);
    case EconomyChanged | PowerChanged | PlayerProgress | LostSight | Disappeared => EconomyNameIsNulFree(kind);
    case ObjectAppeared | EnemySpotted | ConstructionStarted | ProductionCompleted => AppearanceNameIsNulFree(kind);
    case CombatDamage | ConstructionCompleted | ObjectDestroyed | CombatThreat => CombatNameIsNulFree(kind);
    case QueueChanged | CapabilityReady | UpgradeCompleted => CapabilityNameIsNulFree(kind);
  }

  lemma GameNameIsNulFree(kind: Kind)
    requires kind in {Baseline, GameStarted, GameOutcome, PlayerEliminated}
    ensures NulFree(Name(kind))
  {
  }

  lemma EconomyNameIsNulFree(kind: Kind)
    requires kind in {EconomyChanged, PowerChanged, PlayerProgress, LostSight, Disappeared}
    ensures NulFree(Name(kind))
  {
  }

  lemma AppearanceNameIsNulFree(kind: Kind)
    requires kind in {ObjectAppeared, EnemySpotted, ConstructionStarted, ProductionCompleted}
    ensures NulFree(Name(kind))
  {
  }

  lemma CombatNameIsNulFree(kind: Kind)
    requires kind in {CombatDamage, ConstructionCompleted, ObjectDestroyed, CombatThreat}
    ensures NulFree(Name(kind))
  {
  }

  lemma CapabilityNameIsNulFree(kind: Kind)
    requires kind in {QueueChanged, CapabilityReady, UpgradeCompleted}
    ensures NulFree(Name(kind))
  {
  }

  /** The map key of an event: its type, a NUL and its relationship. */
  function KeyText(typ: string, relationship: string): string {
    typ + "\0" + relationship
  }

  lemma KeyTextIsInjective(a: string, r: string, b: string, t: string)
    requires NulFree(a) && NulFree(b) && KeyText(a, r) == KeyText(b, t)
    ensures a == b && r == t
  {
    var key := KeyText(a, r);
    assert forall i :: 0 <= i < |a| ==> key[i] == a[i];
    assert forall i :: 0 <= i < |b| ==> key[i] == b[i];
    assert key[|a|] == '\0' && key[|b|] == '\0';
    assert key[..|a|] == a && key[..|b|] == b;
    assert key[|a| + 1..] == r && key[|b| + 1..] == t;
  }

  // ----- What is reported

  /** One call of accumulator.add. */
  datatype Emission = Emission(kind: Kind, relationship: string, severity: Severity, wake: bool,
                               subject: Option<Object>)

  function GameEmissions(previous: Snapshot, current: Snapshot): seq<Emission> {
    (if !previous.playable && current.playable then [Emission(GameStarted, "", "notice", true, None)] else [])
    + (if current.outcome.Some? && previous.outcome != current.outcome
       then [Emission(GameOutcome, "", "critical", true, None)] else [])
  }

  function EconomyEmissions(prior: Economy, now: Economy): seq<Emission> {
    (if prior.money != now.money then [Emission(EconomyChanged, "self", "info", false, None)] else [])
    + (if prior.powerSufficient != now.powerSufficient
       then [Emission(PowerChanged, "self", if now.powerSufficient then "notice" else "warning", true, None)] else [])
    + (if prior.rank != now.rank || prior.sciencePoints != now.sciencePoints || prior.skillPoints != now.skillPoints
       then [Emission(PlayerProgress, "self", "notice", true, None)] else [])
  }

  function PlayerEmissions(previous: Snapshot, player: Player): seq<Emission> {
    match FindPlayer(previous.players, player.index)
    case None => []
    case Some(prior) =>
      var relationship := if player.isLocal then "self" else player.relationship;
      (if prior.active && !player.active
       then [Emission(PlayerEliminated, relationship, if player.isLocal then "critical" else "warning", true, None)]
           else [])
      + (if player.isLocal && prior.economy.Some? && player.economy.Some?
         then EconomyEmissions(prior.economy.value, player.economy.value) else [])
  }

  function AllPlayerEmissions(previous: Snapshot, players: seq<Player>): seq<Emission> {
    if players == [] then []
    else AllPlayerEmissions(previous, players[..|players| - 1]) + PlayerEmissions(previous, players[|players| - 1])
  }

  function Appearance(relationship: string, o: Object): Emission {
    if relationship == "enemies" then Emission(EnemySpotted, relationship, "warning", true, Some(o))
    else if relationship == "self" && o.construction < 0.999 then
      Emission(ConstructionStarted, relationship, "info", false, Some(o))
    else if relationship == "self" then Emission(ProductionCompleted, relationship, "notice", true, Some(o))
    else Emission(ObjectAppeared, relationship, "info", false, Some(o))
  }

  function DamageEmissions(relationship: string, prior: Object, o: Object): seq<Emission> {
    if |prior.health| >= 2 && |o.health| >= 2 && prior.health[0] > o.health[0] + 0.5 then
      if relationship == "self" || relationship == "allies"
      then [Emission(CombatDamage, relationship, "warning", true, Some(o))]
      else [Emission(CombatDamage, relationship, "info", false, Some(o))]
    else []
  }

  function CompletionEmissions(relationship: string, prior: Object, o: Object): seq<Emission> {
    if prior.construction < 0.999 && o.construction >= 0.999
    then [Emission(ConstructionCompleted, relationship, "notice", relationship == "self", Some(o))] else []
  }

  function DestructionEmissions(relationship: string, prior: Object, o: Object): seq<Emission> {
    if "destroyed" !in prior.status && "destroyed" in o.status
    then [Emission(ObjectDestroyed, relationship, if relationship == "self" then "critical" else "warning", true,
                   Some(o))]
    else []
  }

  function ThreatEmissions(relationship: string, prior: Object, o: Object): seq<Emission> {
    if relationship == "enemies" && "attacking" !in prior.status && "attacking" in o.status
    then [Emission(CombatThreat, relationship, "warning", true, Some(o))] else []
  }

  function ObjectEmissions(previous: Snapshot, current: Snapshot, o: Object): seq<Emission> {
    var relationship := Relationship(current, o);
    match FindObject(previous.objects, o.id)
    case None => [Appearance(relationship, o)]
    case Some(prior) =>
      DamageEmissions(relationship, prior, o) + CompletionEmissions(relationship, prior, o)
      + DestructionEmissions(relationship, prior, o) + ThreatEmissions(relationship, prior, o)
  }

  function AllObjectEmissions(previous: Snapshot, current: Snapshot, objects: seq<Object>): seq<Emission> {
    if objects == [] then []
    else AllObjectEmissions(previous, current, objects[..|objects| - 1])
         + ObjectEmissions(previous, current, objects[|objects| - 1])
  }

  function Loss(previous: Snapshot, o: Object): Emission {
    var relationship := Relationship(previous, o);
    if relationship == "self" then Emission(Disappeared, relationship, "warning", true, Some(o))
    else Emission(LostSight, relationship, "info", false, Some(o))
  }

  function LossEmissions(previous: Snapshot, current: Snapshot, o: Object): seq<Emission> {
    if FindObject(current.objects, o.id).Some? then [] else [Loss(previous, o)]
  }

  function AllLossEmissions(previous: Snapshot, current: Snapshot, objects: seq<Object>): seq<Emission> {
    if objects == [] then []
    else AllLossEmissions(previous, current, objects[..|objects| - 1])
         + LossEmissions(previous, current, objects[|objects| - 1])
  }

  function CommandEmissions(prior: Capability, relationship: string, o: Object, name: string,
                            state: CommandState): seq<Emission> {
    match FindCommand(prior.commands, name)
    case None => []
    case Some(before) =>
      (if state.ready == Some(true) && before.ready != Some(true)
       then [Emission(CapabilityReady, relationship, "notice", relationship == "self", Some(o))] else [])
      + (if state.complete == Some(true) && before.complete != Some(true)
         then [Emission(UpgradeCompleted, relationship, "notice", relationship == "self", Some(o))] else [])
  }

  function AllCommandEmissions(prior: Capability, relationship: string, o: Object,
                               commands: seq<(string, CommandState)>): seq<Emission> {
    if commands == [] then []
    else AllCommandEmissions(prior, relationship, o, commands[..|commands| - 1])
         + CommandEmissions(prior, relationship, o, commands[|commands| - 1].0, commands[|commands| - 1].1)
  }

  function CapabilityEmissions(before: seq<Capability>, current: Snapshot, entry: Capability): seq<Emission> {
    match (FindCapability(before, entry.key), entry.objectId)
    case (Some(prior), Some(id)) =>
      (match FindObject(current.objects, id)
       case None => []
       case Some(o) =>
         var relationship := Relationship(current, o);
         (if prior.queue != entry.queue then [Emission(QueueChanged, relationship, "info", false, Some(o))] else [])
         + AllCommandEmissions(prior, relationship, o, entry.commands))
    case _ => []
  }

  function AllCapabilityEmissions(before: seq<Capability>, current: Snapshot, entries: seq<Capability>): seq<Emission> {
    if entries == [] then []
    else AllCapabilityEmissions(before, current, entries[..|entries| - 1])
         + CapabilityEmissions(before, current, entries[|entries| - 1])
  }

  /** addCapabilityEvents does nothing when either snapshot lacks the map. */
  function ChangedCapabilities(previous: Snapshot, current: Snapshot): seq<Emission> {
    if previous.capabilities.None? || current.capabilities.None? then []
    else AllCapabilityEmissions(previous.capabilities.value, current, current.capabilities.value)
  }

  function BaselineEmissions(current: Snapshot): seq<Emission> {
    [Emission(Baseline, "", "info", false, None)]
    + (if current.outcome.Some? then [Emission(GameOutcome, "", "critical", true, None)] else [])
  }

  function DiffEmissions(previous: Option<Snapshot>, current: Snapshot): seq<Emission> {
    match previous
    case None => BaselineEmissions(current)
    case Some(p) =>
      GameEmissions(p, current) + AllPlayerEmissions(p, current.players)
      + AllObjectEmissions(p, current, current.objects) + AllLossEmissions(p, current, p.objects)
      + ChangedCapabilities(p, current)
  }

  // ----- The accumulator

  function EventOf(current: Snapshot, em: Emission): Event {
    Event(0, Name(em.kind), em.severity, em.wake, current.frame, current.snapshotId, em.relationship, [], None)
  }

  function EmissionKey(em: Emission): string {
    KeyText(Name(em.kind), em.relationship)
  }

  /** What eventAccumulator.add does to the event already there, or to a copy of the new one. */
  function Accumulate(before: Event, event: Event, subject: Option<Object>): Event {
    var updated := before.(severity := if SeverityRank(event.severity) > SeverityRank(before.severity)
                                       then event.severity else before.severity,
                           wake := before.wake || event.wake,
                           frame := event.frame,
                           snapshotId := event.snapshotId);
    match subject
    case None => updated
    case Some(o) =>
      updated.(objectIds := AppendId(updated.objectIds, o.id),
               area := if |o.position| >= 2
                       then Some(Include(if updated.area.Some? then updated.area.value else EMPTY_AREA, o.position))
                       else updated.area)
  }

  function Add(acc: map<string, Event>, current: Snapshot, em: Emission): map<string, Event> {
    var key, event := EmissionKey(em), EventOf(current, em);
    acc[key := Accumulate(if key in acc then acc[key] else event, event, em.subject)]
  }

  function AddAll(acc: map<string, Event>, current: Snapshot, ems: seq<Emission>): map<string, Event> {
    if ems == [] then acc else Add(AddAll(acc, current, ems[..|ems| - 1]), current, ems[|ems| - 1])
  }

  lemma {:induction false} AddAllConcat(acc: map<string, Event>, current: Snapshot, a: seq<Emission>, b: seq<Emission>)
    ensures AddAll(acc, current, a + b) == AddAll(AddAll(acc, current, a), current, b)
  {
    if b == [] {
      assert a + b == a;
    } else {
      assert (a + b)[..|a + b| - 1] == a + b[..|b| - 1];
      AddAllConcat(acc, current, a, b[..|b| - 1]);
    }
  }

  lemma AddAllOne(acc: map<string, Event>, current: Snapshot, em: Emission)
    ensures AddAll(acc, current, [em]) == Add(acc, current, em)
  {
    assert [em][..0] == [];
    assert AddAll(acc, current, []) == acc;
  }

  class EventAccumulator {
    var events: map<string, Event>

    constructor ()
      ensures events == map[]
    {
      events := map[];
    }

    method AddEmission(current: Snapshot, em: Emission)
      modifies this
      ensures events == AddAll(old(events), current, [em])
    {
      AddAllOne(events, current, em);
      var event := EventOf(current, em);
      var key := EmissionKey(em);
      var entry := event;
      if key in events {
        entry := events[key];
      }
      if SeverityRank(event.severity) > SeverityRank(entry.severity) {
        entry := entry.(severity := event.severity);
      }
      entry := entry.(wake := entry.wake || event.wake);
      entry := entry.(frame := event.frame, snapshotId := event.snapshotId);
      if em.subject.None? {
        events := events[key := entry];
        return;
      }
      var o := em.subject.value;
      var known := ContainsObjectId(entry.objectIds, o.id);
      if |entry.objectIds| < MAX_EVENT_OBJECT_IDS && !known {
        entry := entry.(objectIds := entry.objectIds + [o.id]);
      }
      if |o.position| >= 2 {
        if entry.area.None? {
          entry := entry.(area := Some(EMPTY_AREA));
        }
        entry := entry.(area := Some(Include(entry.area.value, o.position)));
      }
      events := events[key := entry];
    }

    /** eventAccumulator.sorted: the events by key, each with its IDs in ascending order. */
    method SortedEvents() returns (result: seq<Event>)
      ensures ListsEvents(result, events)
    {
      var keys := SortKeys(events.Keys);
      result := [];
      for i := 0 to |keys|
        invariant |result| == i
        invariant forall j :: 0 <= j < i ==> keys[j] in events && result[j] == SortedEvent(events[keys[j]])
      {
        assert keys[i] in Elements(keys);
        var event := events[keys[i]];
        result := result + [event.(objectIds := SortIds(event.objectIds))];
      }
    }
  }

  function SortedEvent(e: Event): Event {
    e.(objectIds := SortIds(e.objectIds))
  }

  /** `result` lists the accumulated events in the order of their keys. */
  ghost predicate ListsEvents(result: seq<Event>, acc: map<string, Event>) {
    exists keys :: Lists(keys, acc.Keys) && ListsByKeys(result, acc, keys)
  }

  ghost predicate ListsByKeys(result: seq<Event>, acc: map<string, Event>, keys: seq<string>) {
    |result| == |keys| && forall j :: 0 <= j < |keys| ==> keys[j] in acc && result[j] == SortedEvent(acc[keys[j]])
  }

  // ----- diffEventSnapshots

  method DiffPlayer(acc: EventAccumulator, previous: Snapshot, current: Snapshot, player: Player)
    modifies acc
    ensures acc.events == AddAll(old(acc.events), current, PlayerEmissions(previous, player))
  {
    hide Add, Name;
    var found := FindPlayer(previous.players, player.index);
    if found.None? {
      return;
    }
    var prior := found.value;
    ghost var eliminated: seq<Emission> := [];
    ghost var start := acc.events;
    var relationship := player.relationship;
    if player.isLocal {
      relationship := "self";
    }
    if prior.active && !player.active {
      var severity := "warning";
      if player.isLocal {
        severity := "critical";
      }
      eliminated := [Emission(PlayerEliminated, relationship, severity, true, None)];
      acc.AddEmission(current, Emission(PlayerEliminated, relationship, severity, true, None));
    }
    if player.isLocal && prior.economy.Some? && player.economy.Some? {
      AddAllConcat(start, current, eliminated, EconomyEmissions(prior.economy.value, player.economy.value));
      DiffEconomy(acc, current, prior.economy.value, player.economy.value);
    } else {
      AddAllConcat(start, current, eliminated, []);
    }
  }

  method DiffEconomy(acc: EventAccumulator, current: Snapshot, before: Economy, now: Economy)
    modifies acc
    ensures acc.events == AddAll(old(acc.events), current, EconomyEmissions(before, now))
  {
    hide Add, Name;
    ghost var start := acc.events;
    ghost var money: seq<Emission>, power: seq<Emission>, progress: seq<Emission> := [], [], [];
    if before.money != now.money {
      money := [Emission(EconomyChanged, "self", "info", false, None)];
      acc.AddEmission(current, Emission(EconomyChanged, "self", "info", false, None));
    }
    if before.powerSufficient != now.powerSufficient {
      var severity := "notice";
      if !now.powerSufficient {
        severity := "warning";
      }
      power := [Emission(PowerChanged, "self", severity, true, None)];
      acc.AddEmission(current, Emission(PowerChanged, "self", severity, true, None));
    }
    AddAllConcat(start, current, money, power);
    if before.rank != now.rank || before.sciencePoints != now.sciencePoints || before.skillPoints != now.skillPoints {
      progress := [Emission(PlayerProgress, "self", "notice", true, None)];
      acc.AddEmission(current, Emission(PlayerProgress, "self", "notice", true, None));
    }
    AddAllConcat(start, current, money + power, progress);
  }

  method DiffObject(acc: EventAccumulator, previous: Snapshot, current: Snapshot, o: Object)
    modifies acc
    ensures acc.events == AddAll(old(acc.events), current, ObjectEmissions(previous, current, o))
  {
    hide Add, Name, AddAll, Appearance, DamageEmissions, CompletionEmissions, DestructionEmissions, ThreatEmissions;
    var found := FindObject(previous.objects, o.id);
    var relationship := Relationship(current, o);
    if found.None? {
      ReportAppearance(acc, current, relationship, o);
      return;
    }
    var prior := found.value;
    ghost var start := acc.events;
    ghost var d, c, x, t := DamageEmissions(relationship, prior, o), CompletionEmissions(relationship, prior, o),
                            DestructionEmissions(relationship, prior, o), ThreatEmissions(relationship, prior, o);
    ReportDamage(acc, current, relationship, prior, o);
    ReportCompletion(acc, current, relationship, prior, o);
    ReportDestruction(acc, current, relationship, prior, o);
    ReportThreat(acc, current, relationship, prior, o);
    AddAllConcat(start, current, d, c);
    AddAllConcat(start, current, d + c, x);
    AddAllConcat(start, current, d + c + x, t);
  }

  method ReportAppearance(acc: EventAccumulator, current: Snapshot, relationship: string, o: Object)
    modifies acc
    ensures acc.events == AddAll(old(acc.events), current, [Appearance(relationship, o)])
  {
    hide Add, Name, AddAll;
    var kind, severity, wake := ObjectAppeared, "info", false;
    if relationship == "enemies" {
      kind, severity, wake := EnemySpotted, "warning", true;
    } else if relationship == "self" && o.construction < 0.999 {
      kind := ConstructionStarted;
    } else if relationship == "self" {
      kind, severity, wake := ProductionCompleted, "notice", true;
    }
    acc.AddEmission(current, Emission(kind, relationship, severity, wake, Some(o)));
  }

  method ReportDamage(acc: EventAccumulator, current: Snapshot, relationship: string, prior: Object, o: Object)
    modifies acc
    ensures acc.events == AddAll(old(acc.events), current, DamageEmissions(relationship, prior, o))
  {
    hide Add, Name;
    if |prior.health| >= 2 && |o.health| >= 2 && prior.health[0] > o.health[0] + 0.5 {
      var severity, wake := "info", false;
      if relationship == "self" || relationship == "allies" {
        severity, wake := "warning", true;
      }
      acc.AddEmission(current, Emission(CombatDamage, relationship, severity, wake, Some(o)));
    }
  }

  method ReportCompletion(acc: EventAccumulator, current: Snapshot, relationship: string, prior: Object, o: Object)
    modifies acc
    ensures acc.events == AddAll(old(acc.events), current, CompletionEmissions(relationship, prior, o))
  {
    hide Add, Name;
    if prior.construction < 0.999 && o.construction >= 0.999 {
      acc.AddEmission(current, Emission(ConstructionCompleted, relationship, "notice", relationship == "self",
                                        Some(o)));
    }
  }

  method ReportDestruction(acc: EventAccumulator, current: Snapshot, relationship: string, prior: Object, o: Object)
    modifies acc
    ensures acc.events == AddAll(old(acc.events), current, DestructionEmissions(relationship, prior, o))
  {
    hide Add, Name;
    var wasDestroyed := HasStatus(prior.status, "destroyed");
    var isDestroyed := HasStatus(o.status, "destroyed");
    if !wasDestroyed && isDestroyed {
      var severity := "warning";
      if relationship == "self" {
        severity := "critical";
      }
      acc.AddEmission(current, Emission(ObjectDestroyed, relationship, severity, true, Some(o)));
    }
  }

  method ReportThreat(acc: EventAccumulator, current: Snapshot, relationship: string, prior: Object, o: Object)
    modifies acc
    ensures acc.events == AddAll(old(acc.events), current, ThreatEmissions(relationship, prior, o))
  {
    hide Add, Name;
    var wasAttacking := HasStatus(prior.status, "attacking");
    var isAttacking := HasStatus(o.status, "attacking");
    if relationship == "enemies" && !wasAttacking && isAttacking {
      acc.AddEmission(current, Emission(CombatThreat, relationship, "warning", true, Some(o)));
    }
  }

  method HasStatus(statuses: seq<string>, wanted: string) returns (has: bool)
    ensures has <==> wanted in statuses
  {
    for i := 0 to |statuses|
      invariant wanted !in statuses[..i]
    {
      if statuses[i] == wanted {
        return true;
      }
    }
    return false;
  }

  method DiffLoss(acc: EventAccumulator, previous: Snapshot, current: Snapshot, o: Object)
    modifies acc
    ensures acc.events == AddAll(old(acc.events), current, LossEmissions(previous, current, o))
  {
    hide Add, Name;
    if FindObject(current.objects, o.id).Some? {
      return;
    }
    var relationship := Relationship(previous, o);
    var kind, severity, wake := LostSight, "info", false;
    if relationship == "self" {
      kind, severity, wake := Disappeared, "warning", true;
    }
    acc.AddEmission(current, Emission(kind, relationship, severity, wake, Some(o)));
  }

  method DiffCommand(acc: EventAccumulator, current: Snapshot, prior: Capability, relationship: string, o: Object,
                     name: string, state: CommandState)
    modifies acc
    ensures acc.events == AddAll(old(acc.events), current, CommandEmissions(prior, relationship, o, name, state))
  {
    hide Add, AddAll, Name, FindCommand;
    var found := FindCommand(prior.commands, name);
    if found.None? {
      AddNothing(acc.events, current);
      return;
    }
    ghost var start := acc.events;
    AddNothing(start, current);
    ghost var ready: seq<Emission>, complete: seq<Emission> := [], [];
    if state.ready.Some? && state.ready.value && (found.value.ready.None? || !found.value.ready.value) {
      ready := [Emission(CapabilityReady, relationship, "notice", relationship == "self", Some(o))];
      acc.AddEmission(current, Emission(CapabilityReady, relationship, "notice", relationship == "self", Some(o)));
    }
    AddNothing(acc.events, current);
    if state.complete.Some? && state.complete.value && (found.value.complete.None? || !found.value.complete.value) {
      complete := [Emission(UpgradeCompleted, relationship, "notice", relationship == "self", Some(o))];
      acc.AddEmission(current, Emission(UpgradeCompleted, relationship, "notice", relationship == "self", Some(o)));
    }
    AddAllConcat(start, current, ready, complete);
  }

  method DiffCapability(acc: EventAccumulator, before: seq<Capability>, current: Snapshot, entry: Capability)
    modifies acc
    ensures acc.events == AddAll(old(acc.events), current, CapabilityEmissions(before, current, entry))
  {
    hide Add, Name, CommandEmissions;
    var found := FindCapability(before, entry.key);
    if found.None? || entry.objectId.None? {
      return;
    }
    var prior := found.value;
    var observable := FindObject(current.objects, entry.objectId.value);
    if observable.None? {
      return;
    }
    var o := observable.value;
    var relationship := Relationship(current, o);
    ghost var start := acc.events;
    ghost var queue: seq<Emission> := [];
    if prior.queue != entry.queue {
      queue := [Emission(QueueChanged, relationship, "info", false, Some(o))];
      acc.AddEmission(current, Emission(QueueChanged, relationship, "info", false, Some(o)));
    }
    ghost var middle := acc.events;
    for i := 0 to |entry.commands|
      invariant acc.events == AddAll(middle, current, AllCommandEmissions(prior, relationship, o, entry.commands[..i]))
    {
      assert entry.commands[..i + 1][..i] == entry.commands[..i];
      AddAllConcat(middle, current, AllCommandEmissions(prior, relationship, o, entry.commands[..i]),
                   CommandEmissions(prior, relationship, o, entry.commands[i].0, entry.commands[i].1));
      DiffCommand(acc, current, prior, relationship, o, entry.commands[i].0, entry.commands[i].1);
    }
    assert entry.commands[..|entry.commands|] == entry.commands;
    AddAllConcat(start, current, queue, AllCommandEmissions(prior, relationship, o, entry.commands));
  }

  method DiffCapabilities(acc: EventAccumulator, previous: Snapshot, current: Snapshot)
    modifies acc
    ensures acc.events == AddAll(old(acc.events), current, ChangedCapabilities(previous, current))
  {
    hide Add, CapabilityEmissions;
    if current.capabilities.None? || previous.capabilities.None? {
      return;
    }
    var before, entries := previous.capabilities.value, current.capabilities.value;
    ghost var start := acc.events;
    for i := 0 to |entries|
      invariant acc.events == AddAll(start, current, AllCapabilityEmissions(before, current, entries[..i]))
    {
      assert entries[..i + 1][..i] == entries[..i];
      AddAllConcat(start, current, AllCapabilityEmissions(before, current, entries[..i]),
                   CapabilityEmissions(before, current, entries[i]));
      DiffCapability(acc, before, current, entries[i]);
    }
    assert entries[..|entries|] == entries;
  }

  method DiffGame(acc: EventAccumulator, previous: Snapshot, current: Snapshot)
    modifies acc
    ensures acc.events == AddAll(old(acc.events), current, GameEmissions(previous, current))
  {
    hide Add, Name;
    ghost var start := acc.events;
    ghost var began: seq<Emission>, ended: seq<Emission> := [], [];
    if !previous.playable && current.playable {
      began := [Emission(GameStarted, "", "notice", true, None)];
      acc.AddEmission(current, Emission(GameStarted, "", "notice", true, None));
    }
    if current.outcome.Some? && (previous.outcome.None? || previous.outcome.value != current.outcome.value) {
      ended := [Emission(GameOutcome, "", "critical", true, None)];
      acc.AddEmission(current, Emission(GameOutcome, "", "critical", true, None));
    }
    AddAllConcat(start, current, began, ended);
  }

  method DiffAllPlayers(acc: EventAccumulator, previous: Snapshot, current: Snapshot)
    modifies acc
    ensures acc.events == AddAll(old(acc.events), current, AllPlayerEmissions(previous, current.players))
  {
    hide Add, PlayerEmissions;
    ghost var start := acc.events;
    for i := 0 to |current.players|
      invariant acc.events == AddAll(start, current, AllPlayerEmissions(previous, current.players[..i]))
    {
      assert current.players[..i + 1][..i] == current.players[..i];
      AddAllConcat(start, current, AllPlayerEmissions(previous, current.players[..i]),
                   PlayerEmissions(previous, current.players[i]));
      DiffPlayer(acc, previous, current, current.players[i]);
    }
    assert current.players[..|current.players|] == current.players;
  }

  method DiffAllObjects(acc: EventAccumulator, previous: Snapshot, current: Snapshot)
    modifies acc
    ensures acc.events == AddAll(old(acc.events), current, AllObjectEmissions(previous, current, current.objects))
  {
    hide Add, ObjectEmissions;
    ghost var start := acc.events;
    for i := 0 to |current.objects|
      invariant acc.events == AddAll(start, current, AllObjectEmissions(previous, current, current.objects[..i]))
    {
      assert current.objects[..i + 1][..i] == current.objects[..i];
      AddAllConcat(start, current, AllObjectEmissions(previous, current, current.objects[..i]),
                   ObjectEmissions(previous, current, current.objects[i]));
      DiffObject(acc, previous, current, current.objects[i]);
    }
    assert current.objects[..|current.objects|] == current.objects;
  }

  method DiffAllLosses(acc: EventAccumulator, previous: Snapshot, current: Snapshot)
    modifies acc
    ensures acc.events == AddAll(old(acc.events), current, AllLossEmissions(previous, current, previous.objects))
  {
    hide Add, LossEmissions;
    ghost var start := acc.events;
    for i := 0 to |previous.objects|
      invariant acc.events == AddAll(start, current, AllLossEmissions(previous, current, previous.objects[..i]))
    {
      assert previous.objects[..i + 1][..i] == previous.objects[..i];
      AddAllConcat(start, current, AllLossEmissions(previous, current, previous.objects[..i]),
                   LossEmissions(previous, current, previous.objects[i]));
      DiffLoss(acc, previous, current, previous.objects[i]);
    }
    assert previous.objects[..|previous.objects|] == previous.objects;
  }

  /** The accumulated events of a whole comparison. */
  function Reported(previous: Option<Snapshot>, current: Snapshot): map<string, Event> {
    AddAll(map[], current, DiffEmissions(previous, current))
  }

  method DiffEventSnapshots(previous: Option<Snapshot>, current: Snapshot) returns (events: seq<Event>)
    ensures ListsEvents(events, Reported(previous, current))
  {
    hide Add, AddAll, GameEmissions, ListsEvents;
    var acc := new EventAccumulator();
    match previous {
      case None =>
        AddAllConcat(map[], current, [Emission(Baseline, "", "info", false, None)], BaselineEmissions(current)[1..]);
        acc.AddEmission(current, Emission(Baseline, "", "info", false, None));
        if current.outcome.Some? {
          acc.AddEmission(current, Emission(GameOutcome, "", "critical", true, None));
        } else {
          AddNothing(acc.events, current);
        }
      case Some(p) =>
        ghost var g, u, o, l, c := GameEmissions(p, current), AllPlayerEmissions(p, current.players),
                                   AllObjectEmissions(p, current, current.objects),
                                   AllLossEmissions(p, current, p.objects),
                                   ChangedCapabilities(p, current);
        AddAllConcat(map[], current, g, u);
        AddAllConcat(map[], current, g + u, o);
        AddAllConcat(map[], current, g + u + o, l);
        AddAllConcat(map[], current, g + u + o + l, c);
        DiffGame(acc, p, current);
        DiffAllPlayers(acc, p, current);
        DiffAllObjects(acc, p, current);
        DiffAllLosses(acc, p, current);
        DiffCapabilities(acc, p, current);
    }
    events := acc.SortedEvents();
  }

  lemma AddNothing(acc: map<string, Event>, current: Snapshot)
    ensures AddAll(acc, current, []) == acc
  {
  }
}
