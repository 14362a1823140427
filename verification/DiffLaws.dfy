/**
 When the comparison of two snapshots reports what, told by the snapshots
 (diffEventSnapshots in AgentBridge/events.go:386-731).
 */
module DiffLaws {
  import opened Common
  import opened SnapshotDiff

  // ----- What stands in a snapshot

  /** How the local player sees an object. */
  predicate SeenAs(s: Snapshot, o: Object, relationship: string) {
    if o.owner == Some(s.localPlayer) then relationship == "self" else relationship == o.relationship
  }

  /** Nothing later has the same key: what a lookup finds in a map filled in order. */
  ghost predicate IsLast<T, K>(xs: seq<T>, key: T -> K, i: nat) {
    i < |xs| && forall j :: i < j < |xs| ==> key(xs[j]) != key(xs[i])
  }

  ghost predicate Stands<T, K>(xs: seq<T>, key: T -> K, x: T) {
    exists i :: 0 <= i < |xs| && xs[i] == x && IsLast(xs, key, i)
  }

  ghost predicate NoneHas<T, K>(xs: seq<T>, key: T -> K, k: K) {
    forall i :: 0 <= i < |xs| ==> key(xs[i]) != k
  }

  lemma StandsInMore<T, K>(init: seq<T>, last: T, key: T -> K, x: T)
    ensures Stands(init + [last], key, x) <==> x == last || (key(x) != key(last) && Stands(init, key, x))
  {
    var xs := init + [last];
    if x == last {
      assert xs[|init|] == x && IsLast(xs, key, |init|);
    } else if Stands(init, key, x) && key(x) != key(last) {
      var i :| 0 <= i < |init| && init[i] == x && IsLast(init, key, i);
      assert xs[i] == x && IsLast(xs, key, i);
    }
    if Stands(xs, key, x) && x != last {
      var i :| 0 <= i < |xs| && xs[i] == x && IsLast(xs, key, i);
      assert key(xs[|init|]) != key(x);
      assert init[i] == x;
      assert IsLast(init, key, i) by {
        assert forall j :: i < j < |init| ==> init[j] == xs[j];
      }
    }
  }

  function IdOf(o: Object): int {
    o.id
  }

  function IndexOf(player: Player): int {
    player.index
  }

  function KeyOf(entry: Capability): string {
    entry.key
  }

  function NameOf(command: (string, CommandState)): string {
    command.0
  }

  lemma {:induction false} ObjectIsFound(objects: seq<Object>, id: int, o: Object)
    ensures FindObject(objects, id) == Some(o) <==> Stands(objects, IdOf, o) && o.id == id
    ensures FindObject(objects, id) == None <==> NoneHas(objects, IdOf, id)
  {
    if objects != [] {
      var init, last := objects[..|objects| - 1], objects[|objects| - 1];
      assert objects == init + [last];
      ObjectIsFound(init, id, o);
      StandsInMore(init, last, IdOf, o);
      assert forall i :: 0 <= i < |init| ==> objects[i] == init[i];
    }
  }

  lemma {:induction false} PlayerIsFound(players: seq<Player>, index: int, p: Player)
    ensures FindPlayer(players, index) == Some(p) <==> Stands(players, IndexOf, p) && p.index == index
  {
    if players != [] {
      assert players == players[..|players| - 1] + [players[|players| - 1]];
      PlayerIsFound(players[..|players| - 1], index, p);
      StandsInMore(players[..|players| - 1], players[|players| - 1], IndexOf, p);
    }
  }

  lemma {:induction false} EntryIsFound(entries: seq<Capability>, key: string, e: Capability)
    ensures FindCapability(entries, key) == Some(e) <==> Stands(entries, KeyOf, e) && e.key == key
  {
    if entries != [] {
      assert entries == entries[..|entries| - 1] + [entries[|entries| - 1]];
      EntryIsFound(entries[..|entries| - 1], key, e);
      StandsInMore(entries[..|entries| - 1], entries[|entries| - 1], KeyOf, e);
    }
  }

  lemma {:induction false} CommandIsFound(commands: seq<(string, CommandState)>, name: string, s: CommandState)
    ensures FindCommand(commands, name) == Some(s) <==> Stands(commands, NameOf, (name, s))
  {
    if commands != [] {
      assert commands == commands[..|commands| - 1] + [commands[|commands| - 1]];
      CommandIsFound(commands[..|commands| - 1], name, s);
      StandsInMore(commands[..|commands| - 1], commands[|commands| - 1], NameOf, (name, s));
    }
  }

  // ----- What happened between two snapshots

  /** From one state of an object to the next, as the kinds of change have it. */
  predicate Changed(kind: Kind, relationship: string, prior: Object, o: Object) {
    match kind
    case CombatDamage => |prior.health| >= 2 && |o.health| >= 2 && prior.health[0] - o.health[0] > 0.5
    case ConstructionCompleted => prior.construction < 0.999 <= o.construction
    case ObjectDestroyed => "destroyed" !in prior.status && "destroyed" in o.status
    case CombatThreat => relationship == "enemies" && "attacking" !in prior.status && "attacking" in o.status
    case _ => false
  }

  predicate IsNewAs(kind: Kind, relationship: string, o: Object) {
    match kind
    case EnemySpotted => relationship == "enemies"
    case ConstructionStarted => relationship == "self" && o.construction < 0.999
    case ProductionCompleted => relationship == "self" && o.construction >= 0.999
    case ObjectAppeared => relationship != "self" && relationship != "enemies"
    case _ => false
  }

  predicate IsLostAs(kind: Kind, relationship: string) {
    match kind
    case Disappeared => relationship == "self"
    case LostSight => relationship != "self"
    case _ => false
  }

  /** A pointer to true where there was none, or one to false. */
  predicate BecameTrue(before: Option<bool>, now: Option<bool>) {
    now == Some(true) && before != Some(true)
  }

  predicate CommandBecame(kind: Kind, before: CommandState, now: CommandState) {
    || (kind == CapabilityReady && BecameTrue(before.ready, now.ready))
    || (kind == UpgradeCompleted && BecameTrue(before.complete, now.complete))
  }

  /** A command that was known under the same name. */
  ghost predicate CommandChanged(kind: Kind, before: Capability, command: (string, CommandState)) {
    exists known :: Stands(before.commands, NameOf, (command.0, known)) && CommandBecame(kind, known, command.1)
  }

  ghost predicate EntryChanged(kind: Kind, before: Capability, now: Capability) {
    || (kind == QueueChanged && before.queue != now.queue)
    || exists k :: 0 <= k < |now.commands| && CommandChanged(kind, before, now.commands[k])
  }

  /** An entry about object `id` that was known under the same key. */
  ghost predicate ChangedEntry(kind: Kind, known: seq<Capability>, now: Capability, id: int) {
    && now.objectId == Some(id)
    && exists before :: Stands(known, KeyOf, before) && before.key == now.key && EntryChanged(kind, before, now)
  }

  ghost predicate CapabilityChanged(kind: Kind, previous: Snapshot, current: Snapshot, id: int) {
    && previous.capabilities.Some? && current.capabilities.Some?
    && exists k :: 0 <= k < |current.capabilities.value|
                   && ChangedEntry(kind, previous.capabilities.value, current.capabilities.value[k], id)
  }

  ghost predicate ChangedSince(kind: Kind, previous: Snapshot, relationship: string, o: Object) {
    exists prior :: Stands(previous.objects, IdOf, prior) && prior.id == o.id && Changed(kind, relationship, prior, o)
  }

  /** It is new, or something about it changed. */
  ghost predicate TellsOf(kind: Kind, previous: Snapshot, current: Snapshot, relationship: string, o: Object) {
    && SeenAs(current, o, relationship)
    && ((NoneHas(previous.objects, IdOf, o.id) && IsNewAs(kind, relationship, o))
        || ChangedSince(kind, previous, relationship, o))
  }

  ghost predicate IsLost(kind: Kind, previous: Snapshot, current: Snapshot, relationship: string, o: Object) {
    SeenAs(previous, o, relationship) && NoneHas(current.objects, IdOf, o.id) && IsLostAs(kind, relationship)
  }

  /** What must have happened to an object for it to be reported under this kind and relationship. */
  ghost predicate Happened(kind: Kind, previous: Snapshot, current: Snapshot, relationship: string, o: Object) {
    || (o in current.objects && TellsOf(kind, previous, current, relationship, o))
    || (o in previous.objects && IsLost(kind, previous, current, relationship, o))
    || (Stands(current.objects, IdOf, o) && SeenAs(current, o, relationship)
        && CapabilityChanged(kind, previous, current, o.id))
  }

  // ----- What is handed to the accumulator

  ghost predicate Emits(ems: seq<Emission>, kind: Kind, relationship: string, subject: Option<Object>) {
    exists i :: 0 <= i < |ems| && Is(ems[i], kind, relationship, subject)
  }

  predicate Is(em: Emission, kind: Kind, relationship: string, subject: Option<Object>) {
    em.kind == kind && em.relationship == relationship && em.subject == subject
  }

  lemma EmitsInBoth(a: seq<Emission>, b: seq<Emission>, kind: Kind, relationship: string, subject: Option<Object>)
    ensures Emits(a + b, kind, relationship, subject) <==>
            Emits(a, kind, relationship, subject) || Emits(b, kind, relationship, subject)
  {
    hide Is;
    if i :| 0 <= i < |a| && Is(a[i], kind, relationship, subject) {
      assert (a + b)[i] == a[i];
    }
    if i :| 0 <= i < |b| && Is(b[i], kind, relationship, subject) {
      assert (a + b)[|a| + i] == b[i];
    }
  }

  lemma EmitsOne(em: Emission, kind: Kind, relationship: string, subject: Option<Object>)
    ensures Emits([em], kind, relationship, subject) <==> Is(em, kind, relationship, subject)
    ensures !Emits([], kind, relationship, subject)
  {
    assert [em][0] == em;
  }

  lemma NothingEmitted(kind: Kind, relationship: string, subject: Option<Object>)
    ensures !Emits([], kind, relationship, subject)
  {
  }

  function If(condition: bool, em: Emission): seq<Emission> {
    if condition then [em] else []
  }

  lemma EmitsIf(condition: bool, em: Emission, kind: Kind, relationship: string, subject: Option<Object>)
    ensures Emits(If(condition, em), kind, relationship, subject) <==>
            condition && Is(em, kind, relationship, subject)
  {
    EmitsOne(em, kind, relationship, subject);
  }

  // ----- Objects

  lemma ChangeIsEmitted(prior: Object, now: Object, kind: Kind, relationship: string, seen: string,
                        subject: Option<Object>)
    ensures var ems := DamageEmissions(seen, prior, now) + CompletionEmissions(seen, prior, now)
                       + DestructionEmissions(seen, prior, now) + ThreatEmissions(seen, prior, now);
            Emits(ems, kind, relationship, subject) <==>
              subject == Some(now) && relationship == seen && Changed(kind, relationship, prior, now)
  {
    var d, c, x, t := DamageEmissions(seen, prior, now), CompletionEmissions(seen, prior, now),
                      DestructionEmissions(seen, prior, now), ThreatEmissions(seen, prior, now);
    EmitsInBoth(d, c, kind, relationship, subject);
    EmitsInBoth(d + c, x, kind, relationship, subject);
    EmitsInBoth(d + c + x, t, kind, relationship, subject);
    DamageIsEmitted(prior, now, kind, relationship, seen, subject);
    CompletionIsEmitted(prior, now, kind, relationship, seen, subject);
    DestructionIsEmitted(prior, now, kind, relationship, seen, subject);
    ThreatIsEmitted(prior, now, kind, relationship, seen, subject);
    hide Emits, DamageEmissions, CompletionEmissions, DestructionEmissions, ThreatEmissions;
  }

  lemma DamageIsEmitted(prior: Object, now: Object, kind: Kind, relationship: string, seen: string,
                        subject: Option<Object>)
    ensures Emits(DamageEmissions(seen, prior, now), kind, relationship, subject) <==>
            kind == CombatDamage && subject == Some(now) && relationship == seen
            && Changed(kind, relationship, prior, now)
  {
    if DamageEmissions(seen, prior, now) != [] {
      EmitsOne(DamageEmissions(seen, prior, now)[0], kind, relationship, subject);
    }
  }

  lemma CompletionIsEmitted(prior: Object, now: Object, kind: Kind, relationship: string, seen: string,
                            subject: Option<Object>)
    ensures Emits(CompletionEmissions(seen, prior, now), kind, relationship, subject) <==>
            kind == ConstructionCompleted && subject == Some(now) && relationship == seen
            && Changed(kind, relationship, prior, now)
  {
    if CompletionEmissions(seen, prior, now) != [] {
      EmitsOne(CompletionEmissions(seen, prior, now)[0], kind, relationship, subject);
    }
  }

  lemma DestructionIsEmitted(prior: Object, now: Object, kind: Kind, relationship: string, seen: string,
                             subject: Option<Object>)
    ensures Emits(DestructionEmissions(seen, prior, now), kind, relationship, subject) <==>
            kind == ObjectDestroyed && subject == Some(now) && relationship == seen
            && Changed(kind, relationship, prior, now)
  {
    if DestructionEmissions(seen, prior, now) != [] {
      EmitsOne(DestructionEmissions(seen, prior, now)[0], kind, relationship, subject);
    }
  }

  lemma ThreatIsEmitted(prior: Object, now: Object, kind: Kind, relationship: string, seen: string,
                        subject: Option<Object>)
    ensures Emits(ThreatEmissions(seen, prior, now), kind, relationship, subject) <==>
            kind == CombatThreat && subject == Some(now) && relationship == seen
            && Changed(kind, relationship, prior, now)
  {
    if ThreatEmissions(seen, prior, now) != [] {
      EmitsOne(ThreatEmissions(seen, prior, now)[0], kind, relationship, subject);
    }
  }

  lemma AppearanceIsEmitted(o: Object, kind: Kind, relationship: string, seen: string, subject: Option<Object>)
    ensures Emits([Appearance(seen, o)], kind, relationship, subject) <==>
            subject == Some(o) && relationship == seen && IsNewAs(kind, relationship, o)
  {
    EmitsOne(Appearance(seen, o), kind, relationship, subject);
  }

  lemma SeenIsRelationship(s: Snapshot, o: Object, relationship: string)
    ensures SeenAs(s, o, relationship) <==> relationship == Relationship(s, o)
  {
  }

  lemma PriorIsOnlyOne(previous: Snapshot, o: Object, kind: Kind, relationship: string)
    ensures var found := FindObject(previous.objects, o.id);
            ChangedSince(kind, previous, relationship, o) <==>
              found.Some? && Changed(kind, relationship, found.value, o)
    ensures FindObject(previous.objects, o.id).None? <==> NoneHas(previous.objects, IdOf, o.id)
  {
    hide Changed, Stands, NoneHas;
    var found := FindObject(previous.objects, o.id);
    ObjectIsFound(previous.objects, o.id, if found.Some? then found.value else o);
    if ChangedSince(kind, previous, relationship, o) {
      var prior :| Stands(previous.objects, IdOf, prior) && prior.id == o.id && Changed(kind, relationship, prior, o);
      ObjectIsFound(previous.objects, o.id, prior);
    }
  }

  lemma ObjectIsEmitted(previous: Snapshot, current: Snapshot, x: Object, kind: Kind, relationship: string,
                        subject: Option<Object>)
    ensures Emits(ObjectEmissions(previous, current, x), kind, relationship, subject) <==>
            subject == Some(x) && TellsOf(kind, previous, current, relationship, x)
  {
    hide Emits, Changed, NoneHas, ChangedSince, IsNewAs, Relationship, Appearance, DamageEmissions,
      CompletionEmissions, DestructionEmissions, ThreatEmissions, FindObject, SeenAs;
    var seen := Relationship(current, x);
    SeenIsRelationship(current, x, relationship);
    PriorIsOnlyOne(previous, x, kind, relationship);
    AppearanceIsEmitted(x, kind, relationship, seen, subject);
    if FindObject(previous.objects, x.id).Some? {
      ChangeIsEmitted(FindObject(previous.objects, x.id).value, x, kind, relationship, seen, subject);
    }
  }

  lemma {:induction false} ObjectsAreEmitted(previous: Snapshot, current: Snapshot, objects: seq<Object>, kind: Kind,
                                             relationship: string, subject: Option<Object>)
    ensures Emits(AllObjectEmissions(previous, current, objects), kind, relationship, subject) <==>
            subject.Some? && subject.value in objects
            && TellsOf(kind, previous, current, relationship, subject.value)
  {
    hide Emits, TellsOf, ObjectEmissions;
    if objects == [] {
      NothingEmitted(kind, relationship, subject);
    } else {
      var init, last := objects[..|objects| - 1], objects[|objects| - 1];
      ObjectsAreEmitted(previous, current, init, kind, relationship, subject);
      EmitsInBoth(AllObjectEmissions(previous, current, init), ObjectEmissions(previous, current, last), kind,
                  relationship, subject);
      ObjectIsEmitted(previous, current, last, kind, relationship, subject);
    }
  }

  lemma LossIsEmitted(previous: Snapshot, current: Snapshot, x: Object, kind: Kind, relationship: string,
                      subject: Option<Object>)
    ensures Emits(LossEmissions(previous, current, x), kind, relationship, subject) <==>
            subject == Some(x) && IsLost(kind, previous, current, relationship, x)
  {
    hide Emits, FindObject, NoneHas, Relationship, SeenAs, Stands;
    ObjectIsFound(current.objects, x.id, x);
    SeenIsRelationship(previous, x, relationship);
    NothingEmitted(kind, relationship, subject);
    EmitsOne(Loss(previous, x), kind, relationship, subject);
  }

  lemma {:induction false} LossesAreEmitted(previous: Snapshot, current: Snapshot, objects: seq<Object>, kind: Kind,
                                            relationship: string, subject: Option<Object>)
    ensures Emits(AllLossEmissions(previous, current, objects), kind, relationship, subject) <==>
            subject.Some? && subject.value in objects && IsLost(kind, previous, current, relationship, subject.value)
  {
    hide Emits, IsLost, LossEmissions;
    if objects == [] {
      NothingEmitted(kind, relationship, subject);
    } else {
      var init, last := objects[..|objects| - 1], objects[|objects| - 1];
      LossesAreEmitted(previous, current, init, kind, relationship, subject);
      EmitsInBoth(AllLossEmissions(previous, current, init), LossEmissions(previous, current, last), kind,
                  relationship, subject);
      LossIsEmitted(previous, current, last, kind, relationship, subject);
    }
  }

  // ----- Capabilities

  lemma CommandIsEmitted(prior: Capability, seen: string, o: Object, command: (string, CommandState), kind: Kind,
                         relationship: string, subject: Option<Object>)
    ensures Emits(CommandEmissions(prior, seen, o, command.0, command.1), kind, relationship, subject) <==>
            subject == Some(o) && relationship == seen && CommandChanged(kind, prior, command)
  {
    hide Stands, FindCommand;
    var found := FindCommand(prior.commands, command.0);
    if found.None? {
      hide Emits;
      NothingEmitted(kind, relationship, subject);
      if CommandChanged(kind, prior, command) {
        var known :| Stands(prior.commands, NameOf, (command.0, known)) && CommandBecame(kind, known, command.1);
        CommandIsFound(prior.commands, command.0, known);
      }
    } else {
      CommandIsKnown(prior, command, kind, found.value);
      StateIsEmitted(found.value, command.1, seen, o, kind, relationship, subject);
      hide Emits, CommandChanged;
    }
  }

  lemma CommandIsKnown(prior: Capability, command: (string, CommandState), kind: Kind, found: CommandState)
    requires FindCommand(prior.commands, command.0) == Some(found)
    ensures CommandChanged(kind, prior, command) <==> CommandBecame(kind, found, command.1)
  {
    hide Stands, CommandBecame;
    CommandIsFound(prior.commands, command.0, found);
    if CommandChanged(kind, prior, command) {
      var known :| Stands(prior.commands, NameOf, (command.0, known)) && CommandBecame(kind, known, command.1);
      CommandIsFound(prior.commands, command.0, known);
    }
  }

  lemma StateIsEmitted(before: CommandState, state: CommandState, seen: string, o: Object, kind: Kind,
                       relationship: string, subject: Option<Object>)
    ensures var ready := if state.ready == Some(true) && before.ready != Some(true)
                         then [Emission(CapabilityReady, seen, "notice", seen == "self", Some(o))] else [];
            var complete := if state.complete == Some(true) && before.complete != Some(true)
                            then [Emission(UpgradeCompleted, seen, "notice", seen == "self", Some(o))] else [];
            Emits(ready + complete, kind, relationship, subject) <==>
              subject == Some(o) && relationship == seen && CommandBecame(kind, before, state)
  {
    hide Emits;
    var r, c := Emission(CapabilityReady, seen, "notice", seen == "self", Some(o)),
                Emission(UpgradeCompleted, seen, "notice", seen == "self", Some(o));
    var becameReady := state.ready == Some(true) && before.ready != Some(true);
    var becameComplete := state.complete == Some(true) && before.complete != Some(true);
    EmitsInBoth(If(becameReady, r), If(becameComplete, c), kind, relationship, subject);
    EmitsIf(becameReady, r, kind, relationship, subject);
    EmitsIf(becameComplete, c, kind, relationship, subject);
  }

  lemma {:induction false} CommandsAreEmitted(prior: Capability, seen: string, o: Object,
                                              commands: seq<(string, CommandState)>, kind: Kind, relationship: string,
                                              subject: Option<Object>)
    ensures Emits(AllCommandEmissions(prior, seen, o, commands), kind, relationship, subject) <==>
            subject == Some(o) && relationship == seen
            && exists k :: 0 <= k < |commands| && CommandChanged(kind, prior, commands[k])
  {
    hide Emits, CommandChanged, CommandEmissions;
    if commands == [] {
      NothingEmitted(kind, relationship, subject);
    } else {
      var init, last := commands[..|commands| - 1], commands[|commands| - 1];
      CommandsAreEmitted(prior, seen, o, init, kind, relationship, subject);
      EmitsInBoth(AllCommandEmissions(prior, seen, o, init), CommandEmissions(prior, seen, o, last.0, last.1), kind,
                  relationship, subject);
      CommandIsEmitted(prior, seen, o, last, kind, relationship, subject);
      assert forall k :: 0 <= k < |init| ==> init[k] == commands[k];
      if k :| 0 <= k < |init| && CommandChanged(kind, prior, init[k]) {
        assert CommandChanged(kind, prior, commands[k]);
      }
      assert commands[|commands| - 1] == last;
    }
  }

  lemma EntryIsKnown(known: seq<Capability>, entry: Capability, kind: Kind, id: int)
    ensures var found := FindCapability(known, entry.key);
            ChangedEntry(kind, known, entry, id) <==>
              entry.objectId == Some(id) && found.Some? && EntryChanged(kind, found.value, entry)
  {
    hide EntryChanged, Stands;
    var found := FindCapability(known, entry.key);
    if found.Some? {
      EntryIsFound(known, entry.key, found.value);
    }
    if ChangedEntry(kind, known, entry, id) {
      var before :| Stands(known, KeyOf, before) && before.key == entry.key && EntryChanged(kind, before, entry);
      EntryIsFound(known, entry.key, before);
    }
  }

  /** The object is the one that the entry is about, and it is still there. */
  lemma EntryIsEmitted(known: seq<Capability>, current: Snapshot, entry: Capability, kind: Kind, relationship: string,
                       subject: Option<Object>)
    ensures Emits(CapabilityEmissions(known, current, entry), kind, relationship, subject) <==>
            subject.Some? && Stands(current.objects, IdOf, subject.value)
            && SeenAs(current, subject.value, relationship) && ChangedEntry(kind, known, entry, subject.value.id)
  {
    hide Emits, Stands, EntryChanged, ChangedEntry, AllCommandEmissions, FindCapability, Relationship, SeenAs;
    NothingEmitted(kind, relationship, subject);
    if subject.Some? {
      EntryIsKnown(known, entry, kind, subject.value.id);
      ObjectIsFound(current.objects, subject.value.id, subject.value);
      SeenIsRelationship(current, subject.value, relationship);
    }
    if FindCapability(known, entry.key).Some? && entry.objectId.Some?
       && FindObject(current.objects, entry.objectId.value).Some? {
      var o := FindObject(current.objects, entry.objectId.value).value;
      ObjectIsFound(current.objects, entry.objectId.value, o);
      FoundEntryIsEmitted(FindCapability(known, entry.key).value, entry, Relationship(current, o), o, kind,
                          relationship, subject);
    }
  }

  lemma FoundEntryIsEmitted(prior: Capability, entry: Capability, seen: string, o: Object, kind: Kind,
                            relationship: string, subject: Option<Object>)
    ensures var queue := if prior.queue != entry.queue then [Emission(QueueChanged, seen, "info", false, Some(o))]
                         else [];
            Emits(queue + AllCommandEmissions(prior, seen, o, entry.commands), kind, relationship, subject) <==>
              subject == Some(o) && relationship == seen && EntryChanged(kind, prior, entry)
  {
    hide Emits, AllCommandEmissions, CommandChanged;
    var queue := if prior.queue != entry.queue then [Emission(QueueChanged, seen, "info", false, Some(o))] else [];
    EmitsInBoth(queue, AllCommandEmissions(prior, seen, o, entry.commands), kind, relationship, subject);
    NothingEmitted(kind, relationship, subject);
    EmitsOne(Emission(QueueChanged, seen, "info", false, Some(o)), kind, relationship, subject);
    CommandsAreEmitted(prior, seen, o, entry.commands, kind, relationship, subject);
  }

  lemma {:induction false} EntriesAreEmitted(known: seq<Capability>, current: Snapshot, entries: seq<Capability>,
                                             kind: Kind, relationship: string, subject: Option<Object>)
    ensures Emits(AllCapabilityEmissions(known, current, entries), kind, relationship, subject) <==>
            subject.Some? && Stands(current.objects, IdOf, subject.value)
            && SeenAs(current, subject.value, relationship)
            && exists k :: 0 <= k < |entries| && ChangedEntry(kind, known, entries[k], subject.value.id)
  {
    hide Emits, ChangedEntry, CapabilityEmissions, Stands, SeenAs;
    if entries == [] {
      NothingEmitted(kind, relationship, subject);
    } else {
      var init, last := entries[..|entries| - 1], entries[|entries| - 1];
      EntriesAreEmitted(known, current, init, kind, relationship, subject);
      EmitsInBoth(AllCapabilityEmissions(known, current, init), CapabilityEmissions(known, current, last), kind,
                  relationship, subject);
      EntryIsEmitted(known, current, last, kind, relationship, subject);
      assert entries[|entries| - 1] == last;
      if subject.Some? {
        if k :| 0 <= k < |init| && ChangedEntry(kind, known, init[k], subject.value.id) {
          assert ChangedEntry(kind, known, entries[k], subject.value.id);
        }
        if k :| 0 <= k < |entries| && ChangedEntry(kind, known, entries[k], subject.value.id) {
          assert k < |init| ==> init[k] == entries[k];
        }
      }
    }
  }

  lemma CapabilitiesAreEmitted(previous: Snapshot, current: Snapshot, kind: Kind, relationship: string,
                               subject: Option<Object>)
    ensures Emits(ChangedCapabilities(previous, current), kind, relationship, subject) <==>
            subject.Some? && Stands(current.objects, IdOf, subject.value)
            && SeenAs(current, subject.value, relationship)
            && CapabilityChanged(kind, previous, current, subject.value.id)
  {
    hide Emits, ChangedEntry, AllCapabilityEmissions, Stands, SeenAs;
    if previous.capabilities.None? || current.capabilities.None? {
      NothingEmitted(kind, relationship, subject);
    } else {
      EntriesAreEmitted(previous.capabilities.value, current, current.capabilities.value, kind, relationship, subject);
    }
  }

  // ----- The game and its players

  /** A player that both snapshots have, with the state it was in. */
  ghost predicate Was(previous: Snapshot, player: Player, prior: Player) {
    Stands(previous.players, IndexOf, prior) && prior.index == player.index
  }

  predicate PlayerSeenAs(player: Player, relationship: string) {
    if player.isLocal then relationship == "self" else relationship == player.relationship
  }

  predicate EconomyMoved(kind: Kind, before: Economy, now: Economy) {
    match kind
    case EconomyChanged => before.money != now.money
    case PowerChanged => before.powerSufficient != now.powerSufficient
    case PlayerProgress =>
      before.rank != now.rank || before.skillPoints != now.skillPoints || before.sciencePoints != now.sciencePoints
    case _ => false
  }

  /** What happened to a player. */
  predicate PlayerMoved(kind: Kind, relationship: string, prior: Player, player: Player) {
    || (kind == PlayerEliminated && PlayerSeenAs(player, relationship) && prior.active && !player.active)
    || (relationship == "self" && player.isLocal && prior.economy.Some? && player.economy.Some?
        && EconomyMoved(kind, prior.economy.value, player.economy.value))
  }

  ghost predicate PlayerMovedSince(kind: Kind, previous: Snapshot, relationship: string, player: Player) {
    exists prior :: Was(previous, player, prior) && PlayerMoved(kind, relationship, prior, player)
  }

  predicate GameMoved(kind: Kind, previous: Snapshot, current: Snapshot, relationship: string) {
    && relationship == ""
    && ((kind == GameStarted && !previous.playable && current.playable)
        || (kind == GameOutcome && current.outcome.Some? && previous.outcome != current.outcome))
  }

  /** What must have happened for an event about no object to be reported. */
  ghost predicate Noticed(kind: Kind, previous: Snapshot, current: Snapshot, relationship: string) {
    || GameMoved(kind, previous, current, relationship)
    || exists k :: 0 <= k < |current.players| && PlayerMovedSince(kind, previous, relationship, current.players[k])
  }

  lemma GameIsEmitted(previous: Snapshot, current: Snapshot, kind: Kind, relationship: string, subject: Option<Object>)
    ensures Emits(GameEmissions(previous, current), kind, relationship, subject) <==>
            subject == None && GameMoved(kind, previous, current, relationship)
  {
    hide Emits;
    var began := if !previous.playable && current.playable then [Emission(GameStarted, "", "notice", true, None)]
        else [];
    var ended := if current.outcome.Some? && previous.outcome != current.outcome
                 then [Emission(GameOutcome, "", "critical", true, None)] else [];
    EmitsInBoth(began, ended, kind, relationship, subject);
    NothingEmitted(kind, relationship, subject);
    EmitsOne(Emission(GameStarted, "", "notice", true, None), kind, relationship, subject);
    EmitsOne(Emission(GameOutcome, "", "critical", true, None), kind, relationship, subject);
  }

  lemma EconomyIsEmitted(before: Economy, now: Economy, kind: Kind, relationship: string, subject: Option<Object>)
    ensures Emits(EconomyEmissions(before, now), kind, relationship, subject) <==>
            subject == None && relationship == "self" && EconomyMoved(kind, before, now)
  {
    hide Emits, Is;
    var money, progress := Emission(EconomyChanged, "self", "info", false, None),
                           Emission(PlayerProgress, "self", "notice", true, None);
    var power := Emission(PowerChanged, "self", if now.powerSufficient then "notice" else "warning", true, None);
    var earned, powered := before.money != now.money, before.powerSufficient != now.powerSufficient;
    var progressed := before.rank != now.rank || before.sciencePoints != now.sciencePoints
                      || before.skillPoints != now.skillPoints;
    EmitsInBoth(If(earned, money), If(powered, power), kind, relationship, subject);
    EmitsInBoth(If(earned, money) + If(powered, power), If(progressed, progress), kind, relationship, subject);
    EmitsIf(earned, money, kind, relationship, subject);
    EmitsIf(powered, power, kind, relationship, subject);
    EmitsIf(progressed, progress, kind, relationship, subject);
    EconomyKinds(before, now, kind, relationship, subject, money, power, progress);
    assert EconomyEmissions(before, now) == If(earned, money) + If(powered, power) + If(progressed, progress);
  }

  lemma EconomyKinds(before: Economy, now: Economy, kind: Kind, relationship: string, subject: Option<Object>,
                     money: Emission, power: Emission, progress: Emission)
    requires money.kind == EconomyChanged && power.kind == PowerChanged && progress.kind == PlayerProgress
    requires money.relationship == power.relationship == progress.relationship == "self"
    requires money.subject == power.subject == progress.subject == None
    ensures subject == None && relationship == "self" && EconomyMoved(kind, before, now) <==>
            || (before.money != now.money && Is(money, kind, relationship, subject))
            || (before.powerSufficient != now.powerSufficient && Is(power, kind, relationship, subject))
            || ((before.rank != now.rank || before.sciencePoints != now.sciencePoints
                 || before.skillPoints != now.skillPoints) && Is(progress, kind, relationship, subject))
  {
  }

  lemma PriorPlayerIsOnlyOne(previous: Snapshot, player: Player, kind: Kind, relationship: string)
    ensures var found := FindPlayer(previous.players, player.index);
            PlayerMovedSince(kind, previous, relationship, player) <==>
              found.Some? && PlayerMoved(kind, relationship, found.value, player)
  {
    hide PlayerMoved, Stands;
    var found := FindPlayer(previous.players, player.index);
    if found.Some? {
      PlayerIsFound(previous.players, player.index, found.value);
    }
    if PlayerMovedSince(kind, previous, relationship, player) {
      var prior :| Was(previous, player, prior) && PlayerMoved(kind, relationship, prior, player);
      PlayerIsFound(previous.players, player.index, prior);
    }
  }

  lemma EliminationIsEmitted(prior: Player, player: Player, kind: Kind, relationship: string, subject: Option<Object>)
    ensures var seen := if player.isLocal then "self" else player.relationship;
            var severity := if player.isLocal then "critical" else "warning";
            var ems := if prior.active && !player.active
                       then [Emission(PlayerEliminated, seen, severity, true, None)] else [];
            Emits(ems, kind, relationship, subject) <==>
              subject == None && kind == PlayerEliminated && PlayerSeenAs(player, relationship)
              && prior.active && !player.active
  {
    hide Emits;
    NothingEmitted(kind, relationship, subject);
    EmitsOne(Emission(PlayerEliminated, if player.isLocal then "self" else player.relationship,
                      if player.isLocal then "critical" else "warning", true, None), kind, relationship, subject);
  }

  lemma PlayerIsEmitted(previous: Snapshot, player: Player, kind: Kind, relationship: string, subject: Option<Object>)
    ensures Emits(PlayerEmissions(previous, player), kind, relationship, subject) <==>
            subject == None && PlayerMovedSince(kind, previous, relationship, player)
  {
    hide Emits, PlayerMovedSince, EconomyMoved, EconomyEmissions, FindPlayer;
    NothingEmitted(kind, relationship, subject);
    PriorPlayerIsOnlyOne(previous, player, kind, relationship);
    if FindPlayer(previous.players, player.index).Some? {
      var prior := FindPlayer(previous.players, player.index).value;
      var seen := if player.isLocal then "self" else player.relationship;
      var eliminated := if prior.active && !player.active
                        then [Emission(PlayerEliminated, seen, if player.isLocal then "critical" else "warning", true,
                                       None)] else [];
      var economy := if player.isLocal && prior.economy.Some? && player.economy.Some?
                     then EconomyEmissions(prior.economy.value, player.economy.value) else [];
      EmitsInBoth(eliminated, economy, kind, relationship, subject);
      EliminationIsEmitted(prior, player, kind, relationship, subject);
      if player.isLocal && prior.economy.Some? && player.economy.Some? {
        EconomyIsEmitted(prior.economy.value, player.economy.value, kind, relationship, subject);
      }
    }
  }

  lemma {:induction false} PlayersAreEmitted(previous: Snapshot, players: seq<Player>, kind: Kind,
                                             relationship: string, subject: Option<Object>)
    ensures Emits(AllPlayerEmissions(previous, players), kind, relationship, subject) <==>
            subject == None
            && exists k :: 0 <= k < |players| && PlayerMovedSince(kind, previous, relationship, players[k])
  {
    hide Emits, PlayerMovedSince, PlayerEmissions;
    if players == [] {
      NothingEmitted(kind, relationship, subject);
    } else {
      var init, last := players[..|players| - 1], players[|players| - 1];
      PlayersAreEmitted(previous, init, kind, relationship, subject);
      EmitsInBoth(AllPlayerEmissions(previous, init), PlayerEmissions(previous, last), kind, relationship, subject);
      PlayerIsEmitted(previous, last, kind, relationship, subject);
      assert players[|players| - 1] == last;
      if k :| 0 <= k < |init| && PlayerMovedSince(kind, previous, relationship, init[k]) {
        assert PlayerMovedSince(kind, previous, relationship, players[k]);
      }
      if k :| 0 <= k < |players| && PlayerMovedSince(kind, previous, relationship, players[k]) {
        assert k < |init| ==> init[k] == players[k];
      }
    }
  }

  // ----- The whole comparison

  /**
   The differ hands on a report about an object exactly when that happened to it,
   and one without exactly when noticed.
   */
  lemma EmitsWhatHappened(previous: Snapshot, current: Snapshot, kind: Kind, relationship: string,
                          subject: Option<Object>)
    ensures Emits(DiffEmissions(Some(previous), current), kind, relationship, subject) <==>
            match subject
            case Some(o) => Happened(kind, previous, current, relationship, o)
            case None => Noticed(kind, previous, current, relationship)
  {
    hide Emits, TellsOf, IsLost, CapabilityChanged, SeenAs, Stands, GameMoved, PlayerMovedSince, GameEmissions,
      AllPlayerEmissions, AllObjectEmissions, AllLossEmissions, ChangedCapabilities;
    var g, u, o, l, c := GameEmissions(previous, current), AllPlayerEmissions(previous, current.players),
                         AllObjectEmissions(previous, current, current.objects),
                         AllLossEmissions(previous, current, previous.objects),
                         ChangedCapabilities(previous, current);
    EmitsInBoth(g, u, kind, relationship, subject);
    EmitsInBoth(g + u, o, kind, relationship, subject);
    EmitsInBoth(g + u + o, l, kind, relationship, subject);
    EmitsInBoth(g + u + o + l, c, kind, relationship, subject);
    GameIsEmitted(previous, current, kind, relationship, subject);
    PlayersAreEmitted(previous, current.players, kind, relationship, subject);
    ObjectsAreEmitted(previous, current, current.objects, kind, relationship, subject);
    LossesAreEmitted(previous, current, previous.objects, kind, relationship, subject);
    CapabilitiesAreEmitted(previous, current, kind, relationship, subject);
  }
}
