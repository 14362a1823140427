/** What a comparison of two snapshots conserves (AgentBridge/events.go). */
module DiffProperties {
  import opened Common
  import opened Ordering
  import opened TacticalEvents
  import opened SnapshotDiff

  ghost predicate UniqueIds(objects: seq<Object>) {
    forall i, j :: 0 <= i < j < |objects| ==> objects[i].id != objects[j].id
  }

  ghost function Ids(objects: seq<Object>): set<int> {
    set k | 0 <= k < |objects| :: objects[k].id
  }

  // ----- Lookups

  lemma {:induction false} FindObjectResult(objects: seq<Object>, id: int)
    ensures FindObject(objects, id).Some? <==> id in Ids(objects)
    ensures FindObject(objects, id).Some? ==>
              exists k :: 0 <= k < |objects| && objects[k] == FindObject(objects, id).value && objects[k].id == id
  {
    if objects != [] {
      var init, last := objects[..|objects| - 1], objects[|objects| - 1];
      FindObjectResult(init, id);
      assert Ids(objects) == Ids(init) + {last.id} by {
        forall k | 0 <= k < |objects| ensures objects[k].id in Ids(init) + {last.id} {
          if k < |init| { assert objects[k] == init[k]; }
        }
        forall x | x in Ids(init) + {last.id} ensures x in Ids(objects) {
          if x in Ids(init) {
            var k :| 0 <= k < |init| && init[k].id == x;
            assert objects[k].id == x;
          } else {
            assert objects[|objects| - 1].id == x;
          }
        }
      }
      if last.id == id {
        assert objects[|objects| - 1] == last;
      } else if FindObject(init, id).Some? {
        var k :| 0 <= k < |init| && init[k] == FindObject(init, id).value && init[k].id == id;
        assert objects[k] == init[k];
      }
    }
  }

  lemma FindUniqueObject(objects: seq<Object>, k: nat)
    requires UniqueIds(objects) && k < |objects|
    ensures FindObject(objects, objects[k].id) == Some(objects[k])
  {
    FindObjectResult(objects, objects[k].id);
    assert objects[k].id in Ids(objects);
  }

  lemma {:induction false} FindUniquePlayer(players: seq<Player>, k: nat)
    requires forall i, j :: 0 <= i < j < |players| ==> players[i].index != players[j].index
    requires k < |players|
    ensures FindPlayer(players, players[k].index) == Some(players[k])
  {
    if k < |players| - 1 {
      FindUniquePlayer(players[..|players| - 1], k);
    }
  }

  lemma {:induction false} FindUniqueCapability(entries: seq<Capability>, k: nat)
    requires forall i, j :: 0 <= i < j < |entries| ==> entries[i].key != entries[j].key
    requires k < |entries|
    ensures FindCapability(entries, entries[k].key) == Some(entries[k])
  {
    if k < |entries| - 1 {
      FindUniqueCapability(entries[..|entries| - 1], k);
    }
  }

  lemma {:induction false} FindUniqueCommand(commands: seq<(string, CommandState)>, k: nat)
    requires forall i, j :: 0 <= i < j < |commands| ==> commands[i].0 != commands[j].0
    requires k < |commands|
    ensures FindCommand(commands, commands[k].0) == Some(commands[k].1)
  {
    if k < |commands| - 1 {
      FindUniqueCommand(commands[..|commands| - 1], k);
    }
  }

  // ----- A snapshot compared with itself

  /** Objects and players have distinct keys, and the capability maps are maps. */
  ghost predicate Keyed(s: Snapshot) {
    && UniqueIds(s.objects)
    && (forall i, j :: 0 <= i < j < |s.players| ==> s.players[i].index != s.players[j].index)
    && (s.capabilities.Some? ==>
          var entries := s.capabilities.value;
          && (forall i, j :: 0 <= i < j < |entries| ==> entries[i].key != entries[j].key)
          && (forall k :: 0 <= k < |entries| ==> KeyedCommands(entries[k].commands)))
  }

  ghost predicate KeyedCommands(commands: seq<(string, CommandState)>) {
    forall i, j :: 0 <= i < j < |commands| ==> commands[i].0 != commands[j].0
  }

  lemma {:induction false} NoPlayerChanges(s: Snapshot, n: nat)
    requires Keyed(s) && n <= |s.players|
    ensures AllPlayerEmissions(s, s.players[..n]) == []
  {
    if n > 0 {
      NoPlayerChanges(s, n - 1);
      assert s.players[..n][..n - 1] == s.players[..n - 1];
      FindUniquePlayer(s.players, n - 1);
    }
  }

  lemma {:induction false} NoObjectChanges(s: Snapshot, n: nat)
    requires Keyed(s) && n <= |s.objects|
    ensures AllObjectEmissions(s, s, s.objects[..n]) == []
    ensures AllLossEmissions(s, s, s.objects[..n]) == []
  {
    if n > 0 {
      NoObjectChanges(s, n - 1);
      assert s.objects[..n][..n - 1] == s.objects[..n - 1];
      FindUniqueObject(s.objects, n - 1);
    }
  }

  lemma {:induction false} NoCommandChanges(c: Capability, relationship: string, o: Object, n: nat)
    requires KeyedCommands(c.commands) && n <= |c.commands|
    ensures AllCommandEmissions(c, relationship, o, c.commands[..n]) == []
  {
    if n > 0 {
      NoCommandChanges(c, relationship, o, n - 1);
      assert c.commands[..n][..n - 1] == c.commands[..n - 1];
      FindUniqueCommand(c.commands, n - 1);
    }
  }

  lemma {:induction false} NoCapabilityChanges(s: Snapshot, n: nat)
    requires Keyed(s) && s.capabilities.Some? && n <= |s.capabilities.value|
    ensures AllCapabilityEmissions(s.capabilities.value, s, s.capabilities.value[..n]) == []
  {
    if n > 0 {
      var entries := s.capabilities.value;
      NoCapabilityChanges(s, n - 1);
      assert entries[..n][..n - 1] == entries[..n - 1];
      FindUniqueCapability(entries, n - 1);
      var entry := entries[n - 1];
      if entry.objectId.Some? && FindObject(s.objects, entry.objectId.value).Some? {
        var o := FindObject(s.objects, entry.objectId.value).value;
        NoCommandChanges(entry, Relationship(s, o), o, |entry.commands|);
        assert entry.commands[..|entry.commands|] == entry.commands;
      }
    }
  }

  /** Comparing a snapshot with itself reports nothing. */
  lemma SelfDiffIsSilent(s: Snapshot, events: seq<Event>)
    requires Keyed(s) && ListsEvents(events, Reported(Some(s), s))
    ensures events == []
  {
    NoPlayerChanges(s, |s.players|);
    NoObjectChanges(s, |s.objects|);
    assert s.players[..|s.players|] == s.players && s.objects[..|s.objects|] == s.objects;
    if s.capabilities.Some? {
      NoCapabilityChanges(s, |s.capabilities.value|);
      assert s.capabilities.value[..|s.capabilities.value|] == s.capabilities.value;
    }
    assert DiffEmissions(Some(s), s) == [];
    assert Reported(Some(s), s) == map[];
    var keys :| Lists(keys, Reported(Some(s), s).Keys) && ListsByKeys(events, Reported(Some(s), s), keys);
    AscendingIsDistinct(keys);
    ElementsLength(keys);
  }

  // ----- What the accumulator holds

  /** The object IDs passed to accumulator.add under one key, in order. */
  ghost function IdsFor(ems: seq<Emission>, key: string): seq<int> {
    if ems == [] then []
    else
      var last := ems[|ems| - 1];
      IdsFor(ems[..|ems| - 1], key)
      + (if EmissionKey(last) == key && last.subject.Some? then [last.subject.value.id] else [])
  }

  ghost predicate HasKey(ems: seq<Emission>, key: string) {
    exists i :: 0 <= i < |ems| && EmissionKey(ems[i]) == key
  }

  lemma {:induction false} IdsForConcat(a: seq<Emission>, b: seq<Emission>, key: string)
    ensures IdsFor(a + b, key) == IdsFor(a, key) + IdsFor(b, key)
  {
    hide EmissionKey;
    if b == [] {
      assert a + b == a;
    } else {
      assert (a + b)[..|a + b| - 1] == a + b[..|b| - 1];
      IdsForConcat(a, b[..|b| - 1], key);
    }
  }

  lemma {:induction false} NoIdsFor(ems: seq<Emission>, key: string)
    requires !HasKey(ems, key)
    ensures IdsFor(ems, key) == []
  {
    hide EmissionKey;
    if ems != [] {
      NoIdsFor(ems[..|ems| - 1], key);
    }
  }

  /** The entry under `key` holds the first 128 distinct IDs added under it, and has the shape of its key. */
  ghost predicate EntryFor(acc: map<string, Event>, ems: seq<Emission>, key: string) {
    && (key in acc <==> HasKey(ems, key))
    && (key in acc ==> acc[key].objectIds == AppendIds([], IdsFor(ems, key))
                       && KeyText(acc[key].typ, acc[key].relationship) == key
                       && IsName(acc[key].typ))
  }

  ghost predicate IsName(typ: string) {
    exists kind :: Name(kind) == typ
  }

  lemma HasKeyOfMore(ems: seq<Emission>, em: Emission, key: string)
    ensures HasKey(ems + [em], key) <==> HasKey(ems, key) || EmissionKey(em) == key
  {
    hide EmissionKey;
    var more := ems + [em];
    assert more[|ems|] == em;
    if HasKey(ems, key) {
      var i :| 0 <= i < |ems| && EmissionKey(ems[i]) == key;
      assert EmissionKey(more[i]) == key;
    }
  }

  lemma AppendIdsOfMore(ids: seq<int>, id: int)
    ensures AppendIds([], ids + [id]) == AppendId(AppendIds([], ids), id)
  {
    assert (ids + [id])[..|ids|] == ids;
  }

  lemma IdsForMore(ems: seq<Emission>, em: Emission, key: string)
    ensures IdsFor(ems + [em], key) ==
            IdsFor(ems, key) + (if EmissionKey(em) == key && em.subject.Some? then [em.subject.value.id] else [])
  {
    assert (ems + [em])[..|ems|] == ems;
  }

  lemma EntryAfterAdd(acc: map<string, Event>, current: Snapshot, ems: seq<Emission>, em: Emission, key: string)
    requires EntryFor(acc, ems, key)
    ensures EntryFor(Add(acc, current, em), ems + [em], key)
  {
    hide Name, SeverityRank, KeyText, AppendIds, HasKey, IdsFor, Include, IsName;
    assert IsName(Name(em.kind)) by { NameIsName(em.kind); }
    HasKeyOfMore(ems, em, key);
    IdsForMore(ems, em, key);
    assert IdsFor(ems, key) + [] == IdsFor(ems, key);
    if EmissionKey(em) == key {
      if !HasKey(ems, key) {
        NoIdsFor(ems, key);
        NothingAppended();
      }
      if em.subject.Some? {
        AppendIdsOfMore(IdsFor(ems, key), em.subject.value.id);
      }
    }
  }

  lemma NameIsName(kind: Kind)
    ensures IsName(Name(kind))
  {
    hide Name;
  }

  lemma NothingAppended()
    ensures AppendIds([], []) == []
  {
  }

  lemma NoEntry(key: string)
    ensures EntryFor(map[], [], key)
  {
  }

  lemma {:induction false} AccumulatedIds(current: Snapshot, ems: seq<Emission>, key: string)
    ensures EntryFor(AddAll(map[], current, ems), ems, key)
  {
    hide Add, Name, KeyText, EntryFor;
    NoEntry(key);
    if ems != [] {
      var init, last := ems[..|ems| - 1], ems[|ems| - 1];
      AccumulatedIds(current, init, key);
      EntryAfterAdd(AddAll(map[], current, init), current, init, last, key);
      assert ems == init + [last];
    }
  }

  lemma {:induction false} AppendDistinct(ids: seq<int>)
    requires Distinct(ids)
    ensures AppendIds([], ids) == ids[..Min(|ids|, MAX_EVENT_OBJECT_IDS)]
  {
    if ids != [] {
      AppendDistinct(ids[..|ids| - 1]);
    }
  }

  // ----- Appearances and losses

  /** The objects reported under one kind of appearance and one relationship, in snapshot order. */
  ghost function Newcomers(previous: Snapshot, current: Snapshot, objects: seq<Object>, kind: Kind,
                           relationship: string): seq<int> {
    if objects == [] then []
    else
      var o := objects[|objects| - 1];
      Newcomers(previous, current, objects[..|objects| - 1], kind, relationship)
      + (if IsNewcomer(previous, current, o, kind, relationship) then [o.id] else [])
  }

  ghost predicate IsNewcomer(previous: Snapshot, current: Snapshot, o: Object, kind: Kind, relationship: string) {
    && FindObject(previous.objects, o.id).None?
    && Relationship(current, o) == relationship && Appearance(relationship, o).kind == kind
  }

  /** The objects reported under one kind of loss and one relationship. */
  ghost function Departed(previous: Snapshot, current: Snapshot, objects: seq<Object>, kind: Kind,
                          relationship: string): seq<int> {
    if objects == [] then []
    else
      var o := objects[|objects| - 1];
      Departed(previous, current, objects[..|objects| - 1], kind, relationship)
      + (if IsDeparted(previous, current, o, kind, relationship) then [o.id] else [])
  }

  ghost predicate IsDeparted(previous: Snapshot, current: Snapshot, o: Object, kind: Kind, relationship: string) {
    && FindObject(current.objects, o.id).None?
    && Relationship(previous, o) == relationship && Loss(previous, o).kind == kind
  }

  /** One group of objects that share an event, before the limit of 128 is applied. */
  ghost function Group(previous: Snapshot, current: Snapshot, kind: Kind, relationship: string): seq<int> {
    if IsAppearance(kind) then Newcomers(previous, current, current.objects, kind, relationship)
    else Departed(previous, current, previous.objects, kind, relationship)
  }

  lemma SameKey(em: Emission, kind: Kind, relationship: string)
    ensures EmissionKey(em) == KeyText(Name(kind), relationship) <==> em.kind == kind && em.relationship == relationship
  {
    hide Name, KeyText;
    NameIsNulFree(em.kind);
    NameIsNulFree(kind);
    if EmissionKey(em) == KeyText(Name(kind), relationship) {
      KeyTextIsInjective(Name(em.kind), em.relationship, Name(kind), relationship);
      NameIsInjective(em.kind, kind);
    }
  }

  /** No emission in the list is an appearance, or none is a loss. */
  ghost predicate Without(ems: seq<Emission>, appearances: bool, losses: bool) {
    forall i :: 0 <= i < |ems| ==>
      (appearances ==> !IsAppearance(ems[i].kind)) && (losses ==> !IsLoss(ems[i].kind))
  }

  lemma IdsForOtherKind(ems: seq<Emission>, kind: Kind, relationship: string)
    requires (IsAppearance(kind) && Without(ems, true, false)) || (IsLoss(kind) && Without(ems, false, true))
    ensures IdsFor(ems, KeyText(Name(kind), relationship)) == []
  {
    hide EmissionKey, KeyText, Name;
    var key := KeyText(Name(kind), relationship);
    if HasKey(ems, key) {
      var i :| 0 <= i < |ems| && EmissionKey(ems[i]) == key;
      SameKey(ems[i], kind, relationship);
    }
    NoIdsFor(ems, key);
  }

  lemma WithoutConcat(a: seq<Emission>, b: seq<Emission>, appearances: bool, losses: bool)
    requires Without(a, appearances, losses) && Without(b, appearances, losses)
    ensures Without(a + b, appearances, losses)
  {
    hide IsAppearance, IsLoss;
  }

  lemma PlayerWithout(previous: Snapshot, player: Player)
    ensures Without(PlayerEmissions(previous, player), true, true)
  {
    hide EconomyEmissions;
    if FindPlayer(previous.players, player.index).Some? {
      var prior := FindPlayer(previous.players, player.index).value;
      if player.isLocal && prior.economy.Some? && player.economy.Some? {
        EconomyWithout(prior.economy.value, player.economy.value);
      }
    }
  }

  lemma EconomyWithout(prior: Economy, now: Economy)
    ensures Without(EconomyEmissions(prior, now), true, true)
  {
  }

  lemma {:induction false} PlayersWithout(previous: Snapshot, players: seq<Player>)
    ensures Without(AllPlayerEmissions(previous, players), true, true)
  {
    hide PlayerEmissions;
    if players != [] {
      PlayersWithout(previous, players[..|players| - 1]);
      PlayerWithout(previous, players[|players| - 1]);
      WithoutConcat(AllPlayerEmissions(previous, players[..|players| - 1]),
                    PlayerEmissions(previous, players[|players| - 1]), true, true);
    }
  }

  lemma {:induction false} CommandsWithout(c: Capability, relationship: string, o: Object,
                                           commands: seq<(string, CommandState)>)
    ensures Without(AllCommandEmissions(c, relationship, o, commands), true, true)
  {
    if commands != [] {
      CommandsWithout(c, relationship, o, commands[..|commands| - 1]);
    }
  }

  lemma {:induction false} CapabilitiesWithout(before: seq<Capability>, current: Snapshot, entries: seq<Capability>)
    ensures Without(AllCapabilityEmissions(before, current, entries), true, true)
  {
    if entries != [] {
      var entry := entries[|entries| - 1];
      CapabilitiesWithout(before, current, entries[..|entries| - 1]);
      if FindCapability(before, entry.key).Some? && entry.objectId.Some?
         && FindObject(current.objects, entry.objectId.value).Some? {
        var o := FindObject(current.objects, entry.objectId.value).value;
        CommandsWithout(FindCapability(before, entry.key).value, Relationship(current, o), o, entry.commands);
      }
    }
  }

  lemma ObjectWithoutLosses(previous: Snapshot, current: Snapshot, o: Object)
    ensures Without(ObjectEmissions(previous, current, o), false, true)
  {
    hide Relationship;
  }

  lemma {:induction false} ObjectsWithoutLosses(previous: Snapshot, current: Snapshot, objects: seq<Object>)
    ensures Without(AllObjectEmissions(previous, current, objects), false, true)
  {
    hide ObjectEmissions;
    if objects != [] {
      var init, o := objects[..|objects| - 1], objects[|objects| - 1];
      ObjectsWithoutLosses(previous, current, init);
      ObjectWithoutLosses(previous, current, o);
      WithoutConcat(AllObjectEmissions(previous, current, init), ObjectEmissions(previous, current, o), false, true);
    }
  }

  lemma {:induction false} LossesWithoutAppearances(previous: Snapshot, current: Snapshot, objects: seq<Object>)
    ensures Without(AllLossEmissions(previous, current, objects), true, false)
  {
    if objects != [] {
      LossesWithoutAppearances(previous, current, objects[..|objects| - 1]);
    }
  }

  lemma IdsForOne(em: Emission, kind: Kind, relationship: string)
    ensures IdsFor([em], KeyText(Name(kind), relationship)) ==
            if em.kind == kind && em.relationship == relationship && em.subject.Some? then [em.subject.value.id] else []
  {
    hide EmissionKey, KeyText, Name;
    SameKey(em, kind, relationship);
    assert [em][..0] == [];
    var key := KeyText(Name(kind), relationship);
    assert IdsFor([], key) == [];
  }

  lemma {:induction false} IdsForObjects(previous: Snapshot, current: Snapshot, objects: seq<Object>, kind: Kind,
                                         relationship: string)
    requires IsAppearance(kind)
    ensures IdsFor(AllObjectEmissions(previous, current, objects), KeyText(Name(kind), relationship)) ==
            Newcomers(previous, current, objects, kind, relationship)
  {
    hide KeyText, Name, Appearance, EmissionKey;
    if objects != [] {
      var init, o := objects[..|objects| - 1], objects[|objects| - 1];
      IdsForObjects(previous, current, init, kind, relationship);
      IdsForConcat(AllObjectEmissions(previous, current, init), ObjectEmissions(previous, current, o),
                   KeyText(Name(kind), relationship));
      IdsForObject(previous, current, o, kind, relationship);
    }
  }

  lemma IdsForObject(previous: Snapshot, current: Snapshot, o: Object, kind: Kind, relationship: string)
    requires IsAppearance(kind)
    ensures IdsFor(ObjectEmissions(previous, current, o), KeyText(Name(kind), relationship)) ==
            if IsNewcomer(previous, current, o, kind, relationship) then [o.id] else []
  {
    hide KeyText, Name, EmissionKey;
    if FindObject(previous.objects, o.id).None? {
      AppearanceShape(Relationship(current, o), o);
      IdsForOne(Appearance(Relationship(current, o), o), kind, relationship);
    } else {
      assert Without(ObjectEmissions(previous, current, o), true, false);
      IdsForOtherKind(ObjectEmissions(previous, current, o), kind, relationship);
    }
  }

  lemma AppearanceShape(relationship: string, o: Object)
    ensures var em := Appearance(relationship, o);
            em.relationship == relationship && em.subject == Some(o) && IsAppearance(em.kind)
  {
  }

  lemma {:induction false} IdsForLosses(previous: Snapshot, current: Snapshot, objects: seq<Object>, kind: Kind,
                                        relationship: string)
    requires IsLoss(kind)
    ensures IdsFor(AllLossEmissions(previous, current, objects), KeyText(Name(kind), relationship)) ==
            Departed(previous, current, objects, kind, relationship)
  {
    hide KeyText, Name, EmissionKey;
    if objects != [] {
      var init, o := objects[..|objects| - 1], objects[|objects| - 1];
      var key := KeyText(Name(kind), relationship);
      IdsForLosses(previous, current, init, kind, relationship);
      IdsForConcat(AllLossEmissions(previous, current, init), LossEmissions(previous, current, o), key);
      IdsForOne(Loss(previous, o), kind, relationship);
      assert IdsFor([], key) == [];
    }
  }

  /** Neither the game, the players nor the capabilities contribute to an appearance or a loss. */
  lemma OthersContributeNothing(previous: Snapshot, current: Snapshot, kind: Kind, relationship: string)
    requires IsAppearance(kind) || IsLoss(kind)
    ensures var key := KeyText(Name(kind), relationship);
            && IdsFor(GameEmissions(previous, current), key) == []
            && IdsFor(AllPlayerEmissions(previous, current.players), key) == []
            && IdsFor(ChangedCapabilities(previous, current), key) == []
  {
    hide KeyText, Name, EmissionKey, IdsFor, AllPlayerEmissions, AllCapabilityEmissions;
    PlayersWithout(previous, current.players);
    if previous.capabilities.Some? && current.capabilities.Some? {
      CapabilitiesWithout(previous.capabilities.value, current, current.capabilities.value);
    }
    IdsForOtherKind(GameEmissions(previous, current), kind, relationship);
    IdsForOtherKind(AllPlayerEmissions(previous, current.players), kind, relationship);
    IdsForOtherKind(ChangedCapabilities(previous, current), kind, relationship);
  }

  /** The IDs added under the key of an appearance or a loss are exactly its group. */
  lemma IdsForGroup(previous: Snapshot, current: Snapshot, kind: Kind, relationship: string)
    requires IsAppearance(kind) || IsLoss(kind)
    ensures IdsFor(DiffEmissions(Some(previous), current), KeyText(Name(kind), relationship)) ==
            Group(previous, current, kind, relationship)
  {
    hide KeyText, Name, EmissionKey, IdsFor, AllPlayerEmissions, AllObjectEmissions, AllLossEmissions,
      ChangedCapabilities, GameEmissions, Newcomers, Departed;
    var key := KeyText(Name(kind), relationship);
    var g, u, o, l, c := GameEmissions(previous, current), AllPlayerEmissions(previous, current.players),
                         AllObjectEmissions(previous, current, current.objects),
                         AllLossEmissions(previous, current, previous.objects), ChangedCapabilities(previous, current);
    IdsForConcat(g, u, key);
    IdsForConcat(g + u, o, key);
    IdsForConcat(g + u + o, l, key);
    IdsForConcat(g + u + o + l, c, key);
    OthersContributeNothing(previous, current, kind, relationship);
    if IsAppearance(kind) {
      LossesWithoutAppearances(previous, current, previous.objects);
      IdsForOtherKind(l, kind, relationship);
      IdsForObjects(previous, current, current.objects, kind, relationship);
    } else {
      ObjectsWithoutLosses(previous, current, current.objects);
      IdsForOtherKind(o, kind, relationship);
      IdsForLosses(previous, current, previous.objects, kind, relationship);
    }
  }

  // ----- Conservation

  lemma {:induction false} NewcomersSummary(previous: Snapshot, current: Snapshot, objects: seq<Object>, kind: Kind,
                                            relationship: string)
    requires UniqueIds(objects)
    ensures Distinct(Newcomers(previous, current, objects, kind, relationship))
    ensures forall id :: id in Newcomers(previous, current, objects, kind, relationship) <==>
              exists k :: 0 <= k < |objects| && objects[k].id == id
                  && IsNewcomer(previous, current, objects[k], kind, relationship)
  {
    hide IsNewcomer;
    if objects != [] {
      var init, o := objects[..|objects| - 1], objects[|objects| - 1];
      NewcomersSummary(previous, current, init, kind, relationship);
      assert forall k :: 0 <= k < |init| ==> init[k] == objects[k];
      var ids := Newcomers(previous, current, init, kind, relationship);
      assert o.id !in ids;
      forall id | id in ids
        ensures exists k ::
                  && 0 <= k < |objects| && objects[k].id == id
                  && IsNewcomer(previous, current, objects[k], kind, relationship)
      {
        var k :| 0 <= k < |init| && init[k].id == id && IsNewcomer(previous, current, init[k], kind, relationship);
        assert objects[k].id == id;
      }
    }
  }

  lemma {:induction false} DepartedSummary(previous: Snapshot, current: Snapshot, objects: seq<Object>, kind: Kind,
                                           relationship: string)
    requires UniqueIds(objects)
    ensures Distinct(Departed(previous, current, objects, kind, relationship))
    ensures forall id :: id in Departed(previous, current, objects, kind, relationship) <==>
              exists k :: 0 <= k < |objects| && objects[k].id == id
                  && IsDeparted(previous, current, objects[k], kind, relationship)
  {
    hide IsDeparted;
    if objects != [] {
      var init, o := objects[..|objects| - 1], objects[|objects| - 1];
      DepartedSummary(previous, current, init, kind, relationship);
      assert forall k :: 0 <= k < |init| ==> init[k] == objects[k];
      var ids := Departed(previous, current, init, kind, relationship);
      assert o.id !in ids;
      forall id | id in ids
        ensures exists k ::
                  && 0 <= k < |objects| && objects[k].id == id
                  && IsDeparted(previous, current, objects[k], kind, relationship)
      {
        var k :| 0 <= k < |init| && init[k].id == id && IsDeparted(previous, current, init[k], kind, relationship);
        assert objects[k].id == id;
      }
    }
  }

  /** Two snapshots with unique object IDs and the events reported between them, listed by `keys`. */
  ghost predicate IsComparison(previous: Snapshot, current: Snapshot, events: seq<Event>, keys: seq<string>) {
    && UniqueIds(previous.objects) && UniqueIds(current.objects)
    && Lists(keys, Reported(Some(previous), current).Keys)
    && ListsByKeys(events, Reported(Some(previous), current), keys)
  }

  ghost predicate IsMovement(kind: Kind) {
    IsAppearance(kind) || IsLoss(kind)
  }

  /** The part of a group that fits the limit. */
  ghost function Kept(ids: seq<int>): seq<int> {
    ids[..Min(|ids|, MAX_EVENT_OBJECT_IDS)]
  }

  lemma GroupIsDistinct(previous: Snapshot, current: Snapshot, kind: Kind, relationship: string)
    requires UniqueIds(previous.objects) && UniqueIds(current.objects)
    ensures Distinct(Group(previous, current, kind, relationship))
  {
    if IsAppearance(kind) {
      NewcomersSummary(previous, current, current.objects, kind, relationship);
    } else {
      DepartedSummary(previous, current, previous.objects, kind, relationship);
    }
  }

  /** A movement event names exactly the kept part of its group. */
  lemma MovementEventIds(previous: Snapshot, current: Snapshot, events: seq<Event>, keys: seq<string>, i: nat,
                         kind: Kind)
    requires IsComparison(previous, current, events, keys)
    requires i < |events| && IsMovement(kind) && events[i].typ == Name(kind)
    ensures Elements(events[i].objectIds) == Elements(Kept(Group(previous, current, kind, events[i].relationship)))
    ensures keys[i] == KeyText(Name(kind), events[i].relationship)
  {
    hide Name, KeyText, Group, DiffEmissions, AddAll;
    var acc, relationship := Reported(Some(previous), current), events[i].relationship;
    AccumulatedIds(current, DiffEmissions(Some(previous), current), keys[i]);
    SortIdsElements(acc[keys[i]].objectIds);
    IdsForGroup(previous, current, kind, relationship);
    GroupIsDistinct(previous, current, kind, relationship);
    AppendDistinct(Group(previous, current, kind, relationship));
  }

  /** Every non-empty group has its event. */
  lemma MovementEventExists(previous: Snapshot, current: Snapshot, events: seq<Event>, keys: seq<string>, kind: Kind,
                            relationship: string)
    returns (i: nat)
    requires IsComparison(previous, current, events, keys)
    requires IsMovement(kind) && Group(previous, current, kind, relationship) != []
    ensures i < |events| && events[i].typ == Name(kind) && events[i].relationship == relationship
  {
    hide Name, KeyText, Group, DiffEmissions, AddAll;
    var acc, ems, key := Reported(Some(previous), current), DiffEmissions(Some(previous), current),
        KeyText(Name(kind), relationship);
    IdsForGroup(previous, current, kind, relationship);
    if !HasKey(ems, key) { NoIdsFor(ems, key); }
    AccumulatedIds(current, ems, key);
    assert key in Elements(keys);
    i :| 0 <= i < |keys| && keys[i] == key;
    var k :| Name(k) == acc[key].typ;
    NameIsNulFree(k);
    NameIsNulFree(kind);
    KeyTextIsInjective(acc[key].typ, acc[key].relationship, Name(kind), relationship);
  }

  lemma GroupMember(previous: Snapshot, current: Snapshot, kind: Kind, relationship: string, id: int)
    returns (o: Object)
    requires UniqueIds(previous.objects) && UniqueIds(current.objects)
    requires IsMovement(kind) && id in Group(previous, current, kind, relationship)
    ensures IsAppearance(kind) ==> id in Ids(current.objects) - Ids(previous.objects)
    ensures IsLoss(kind) ==> id in Ids(previous.objects) - Ids(current.objects)
    ensures IsAppearance(kind) ==>
              FindObject(current.objects, id) == Some(o) && IsNewcomer(previous, current, o, kind, relationship)
    ensures IsLoss(kind) ==>
              FindObject(previous.objects, id) == Some(o) && IsDeparted(previous, current, o, kind, relationship)
  {
    hide Appearance, Relationship;
    if IsAppearance(kind) {
      NewcomersSummary(previous, current, current.objects, kind, relationship);
      var k :| 0 <= k < |current.objects| && current.objects[k].id == id
               && IsNewcomer(previous, current, current.objects[k], kind, relationship);
      FindUniqueObject(current.objects, k);
      FindObjectResult(previous.objects, id);
      o := current.objects[k];
    } else {
      DepartedSummary(previous, current, previous.objects, kind, relationship);
      var k :| 0 <= k < |previous.objects| && previous.objects[k].id == id
               && IsDeparted(previous, current, previous.objects[k], kind, relationship);
      FindUniqueObject(previous.objects, k);
      FindObjectResult(current.objects, id);
      o := previous.objects[k];
    }
  }

  /** An object belongs to at most one group. */
  lemma GroupsAreDisjoint(previous: Snapshot, current: Snapshot, k1: Kind, r1: string, k2: Kind, r2: string, id: int)
    requires UniqueIds(previous.objects) && UniqueIds(current.objects) && IsMovement(k1) && IsMovement(k2)
    requires id in Group(previous, current, k1, r1) && id in Group(previous, current, k2, r2)
    ensures k1 == k2 && r1 == r2
  {
    hide Group, Appearance;
    var a := GroupMember(previous, current, k1, r1, id);
    var b := GroupMember(previous, current, k2, r2, id);
  }

  /** Every object that came or went belongs to some group. */
  lemma MovedIsInAGroup(previous: Snapshot, current: Snapshot, id: int) returns (kind: Kind, relationship: string)
    requires UniqueIds(previous.objects) && UniqueIds(current.objects)
    requires id in Ids(current.objects) - Ids(previous.objects) || id in Ids(previous.objects) - Ids(current.objects)
    ensures if id in Ids(current.objects) then IsAppearance(kind) else IsLoss(kind)
    ensures id in Group(previous, current, kind, relationship)
  {
    hide Relationship;
    FindObjectResult(previous.objects, id);
    FindObjectResult(current.objects, id);
    if id in Ids(current.objects) {
      var k :| 0 <= k < |current.objects| && current.objects[k].id == id;
      relationship := Relationship(current, current.objects[k]);
      kind := Appearance(relationship, current.objects[k]).kind;
      NewcomersSummary(previous, current, current.objects, kind, relationship);
      assert IsNewcomer(previous, current, current.objects[k], kind, relationship);
    } else {
      var k :| 0 <= k < |previous.objects| && previous.objects[k].id == id;
      relationship := Relationship(previous, previous.objects[k]);
      kind := Loss(previous, previous.objects[k]).kind;
      DepartedSummary(previous, current, previous.objects, kind, relationship);
      assert IsDeparted(previous, current, previous.objects[k], kind, relationship);
    }
  }

  /** `e` is a movement of the given kind and names `id`. */
  ghost predicate Reports(e: Event, kind: Kind, id: int) {
    e.typ == Name(kind) && id in e.objectIds
  }

  lemma ReportedIsKept(previous: Snapshot, current: Snapshot, events: seq<Event>, keys: seq<string>, i: nat, kind: Kind,
                       id: int)
    requires IsComparison(previous, current, events, keys)
    requires i < |events| && IsMovement(kind) && Reports(events[i], kind, id)
    ensures id in Kept(Group(previous, current, kind, events[i].relationship))
    ensures id in Group(previous, current, kind, events[i].relationship)
  {
    hide Name, Group, IsComparison, Kept;
    MovementEventIds(previous, current, events, keys, i, kind);
    assert id in Elements(events[i].objectIds);
    KeptIsPart(Group(previous, current, kind, events[i].relationship), id);
  }

  lemma KeptIsPart(ids: seq<int>, id: int)
    ensures id in Elements(Kept(ids)) ==> id in Kept(ids) && id in ids
    ensures id in Kept(ids) ==> id in ids
  {
  }

  lemma KeptIsReported(previous: Snapshot, current: Snapshot, events: seq<Event>, keys: seq<string>, kind: Kind,
                       relationship: string, id: int)
    returns (i: nat)
    requires IsComparison(previous, current, events, keys)
    requires IsMovement(kind) && id in Kept(Group(previous, current, kind, relationship))
    ensures i < |events| && Reports(events[i], kind, id)
  {
    hide Name, IsComparison;
    i := MovementEventExists(previous, current, events, keys, kind, relationship);
    MovementEventIds(previous, current, events, keys, i, kind);
    assert id in Elements(Kept(Group(previous, current, kind, relationship)));
    assert id in Elements(events[i].objectIds);
  }

  /** No object is named by two movement events. */
  lemma MovementsAreReportedOnce(previous: Snapshot, current: Snapshot, events: seq<Event>, keys: seq<string>,
                                 i: nat, j: nat, k1: Kind, k2: Kind, id: int)
    requires IsComparison(previous, current, events, keys)
    requires i < |events| && j < |events| && IsMovement(k1) && IsMovement(k2)
    requires Reports(events[i], k1, id) && Reports(events[j], k2, id)
    ensures i == j
  {
    hide Name, Group, KeyText;
    ReportedIsKept(previous, current, events, keys, i, k1, id);
    ReportedIsKept(previous, current, events, keys, j, k2, id);
    GroupsAreDisjoint(previous, current, k1, events[i].relationship, k2, events[j].relationship, id);
    MovementEventIds(previous, current, events, keys, i, k1);
    MovementEventIds(previous, current, events, keys, j, k2);
    AscendingIsDistinct(keys);
  }

  /** The objects named by appearance events, or by loss events. */
  ghost function Appeared(events: seq<Event>): set<int> {
    set i, k | 0 <= i < |events| && 0 <= k < |events[i].objectIds|
        && NamesAppearance(events[i].typ) :: events[i].objectIds[k]
  }

  ghost function Lost(events: seq<Event>): set<int> {
    set i, k | 0 <= i < |events| && 0 <= k < |events[i].objectIds| && NamesLoss(events[i].typ) :: events[i].objectIds[k]
  }

  ghost predicate NamesAppearance(typ: string) {
    exists kind :: IsAppearance(kind) && Name(kind) == typ
  }

  ghost predicate NamesLoss(typ: string) {
    exists kind :: IsLoss(kind) && Name(kind) == typ
  }

  lemma AppearedMember(events: seq<Event>, id: int)
    ensures id in Appeared(events) <==>
            exists i, kind :: 0 <= i < |events| && IsAppearance(kind) && Reports(events[i], kind, id)
  {
    hide Name, IsAppearance;
    if id in Appeared(events) {
      var i, k :| 0 <= i < |events| && 0 <= k < |events[i].objectIds| && NamesAppearance(events[i].typ)
          && events[i].objectIds[k] == id;
      var kind :| IsAppearance(kind) && Name(kind) == events[i].typ;
      assert Reports(events[i], kind, id);
    }
    if i, kind :| 0 <= i < |events| && IsAppearance(kind) && Reports(events[i], kind, id) {
      assert NamesAppearance(events[i].typ);
      var k :| 0 <= k < |events[i].objectIds| && events[i].objectIds[k] == id;
    }
  }

  lemma LostMember(events: seq<Event>, id: int)
    ensures id in Lost(events) <==> exists i, kind :: 0 <= i < |events| && IsLoss(kind) && Reports(events[i], kind, id)
  {
    hide Name, IsLoss;
    if id in Lost(events) {
      var i, k :| 0 <= i < |events| && 0 <= k < |events[i].objectIds| && NamesLoss(events[i].typ)
          && events[i].objectIds[k] == id;
      var kind :| IsLoss(kind) && Name(kind) == events[i].typ;
      assert Reports(events[i], kind, id);
    }
    if i, kind :| 0 <= i < |events| && IsLoss(kind) && Reports(events[i], kind, id) {
      assert NamesLoss(events[i].typ);
      var k :| 0 <= k < |events[i].objectIds| && events[i].objectIds[k] == id;
    }
  }

  /** An object is reported exactly when it moved and was kept in its group. */
  ghost predicate IsKept(previous: Snapshot, current: Snapshot, id: int) {
    exists kind, relationship :: IsMovement(kind) && id in Kept(Group(previous, current, kind, relationship))
  }

  lemma AppearedIsKept(previous: Snapshot, current: Snapshot, events: seq<Event>, keys: seq<string>, id: int)
    requires IsComparison(previous, current, events, keys)
    ensures id in Appeared(events) <==>
            id in Ids(current.objects) - Ids(previous.objects) && IsKept(previous, current, id)
  {
    hide Name, Group, IsComparison, Kept, Appeared;
    AppearedMember(events, id);
    if i, kind :| 0 <= i < |events| && IsAppearance(kind) && Reports(events[i], kind, id) {
      Sound(previous, current, events, keys, i, kind, id);
    }
    if id in Ids(current.objects) - Ids(previous.objects) && IsKept(previous, current, id) {
      var kind, relationship :| IsMovement(kind) && id in Kept(Group(previous, current, kind, relationship));
      var i := Complete(previous, current, events, keys, kind, relationship, id);
    }
  }

  lemma LostIsKept(previous: Snapshot, current: Snapshot, events: seq<Event>, keys: seq<string>, id: int)
    requires IsComparison(previous, current, events, keys)
    ensures id in Lost(events) <==> id in Ids(previous.objects) - Ids(current.objects) && IsKept(previous, current, id)
  {
    hide Name, Group, IsComparison, Kept, Lost;
    LostMember(events, id);
    if i, kind :| 0 <= i < |events| && IsLoss(kind) && Reports(events[i], kind, id) {
      Sound(previous, current, events, keys, i, kind, id);
    }
    if id in Ids(previous.objects) - Ids(current.objects) && IsKept(previous, current, id) {
      var kind, relationship :| IsMovement(kind) && id in Kept(Group(previous, current, kind, relationship));
      var i := Complete(previous, current, events, keys, kind, relationship, id);
    }
  }

  lemma Sound(previous: Snapshot, current: Snapshot, events: seq<Event>, keys: seq<string>, i: nat, kind: Kind, id: int)
    requires IsComparison(previous, current, events, keys)
    requires i < |events| && IsMovement(kind) && Reports(events[i], kind, id)
    ensures IsAppearance(kind) ==> id in Ids(current.objects) - Ids(previous.objects)
    ensures IsLoss(kind) ==> id in Ids(previous.objects) - Ids(current.objects)
    ensures IsKept(previous, current, id)
  {
    hide Name, Group, Kept;
    ReportedIsKept(previous, current, events, keys, i, kind, id);
    var o := GroupMember(previous, current, kind, events[i].relationship, id);
  }

  lemma Complete(previous: Snapshot, current: Snapshot, events: seq<Event>, keys: seq<string>, kind: Kind,
                 relationship: string, id: int)
    returns (i: nat)
    requires IsComparison(previous, current, events, keys)
    requires IsMovement(kind) && id in Kept(Group(previous, current, kind, relationship))
    ensures i < |events| && Reports(events[i], kind, id)
    ensures IsAppearance(kind) ==> id in Ids(current.objects) - Ids(previous.objects)
    ensures IsLoss(kind) ==> id in Ids(previous.objects) - Ids(current.objects)
  {
    hide Name, Group, Kept;
    KeptIsPart(Group(previous, current, kind, relationship), id);
    i := KeptIsReported(previous, current, events, keys, kind, relationship, id);
    var o := GroupMember(previous, current, kind, relationship, id);
  }

  /** No group of appearances or losses is larger than the limit. */
  ghost predicate GroupsFit(previous: Snapshot, current: Snapshot) {
    forall kind, relationship :: IsMovement(kind) ==>
      |Group(previous, current, kind, relationship)| <= MAX_EVENT_OBJECT_IDS
  }

  lemma AllKeptWhenGroupsFit(previous: Snapshot, current: Snapshot, id: int)
    requires UniqueIds(previous.objects) && UniqueIds(current.objects) && GroupsFit(previous, current)
    requires id in Ids(current.objects) - Ids(previous.objects) || id in Ids(previous.objects) - Ids(current.objects)
    ensures IsKept(previous, current, id)
  {
    hide Group;
    var kind, relationship := MovedIsInAGroup(previous, current, id);
    assert Kept(Group(previous, current, kind, relationship)) == Group(previous, current, kind, relationship);
  }

  lemma SomeDroppedWhenGroupOverflows(previous: Snapshot, current: Snapshot) returns (id: int)
    requires UniqueIds(previous.objects) && UniqueIds(current.objects) && !GroupsFit(previous, current)
    ensures id in Ids(current.objects) - Ids(previous.objects) || id in Ids(previous.objects) - Ids(current.objects)
    ensures !IsKept(previous, current, id)
  {
    hide Group;
    var kind, relationship :| IsMovement(kind) && |Group(previous, current, kind, relationship)| > MAX_EVENT_OBJECT_IDS;
    var group := Group(previous, current, kind, relationship);
    id := group[MAX_EVENT_OBJECT_IDS];
    var o := GroupMember(previous, current, kind, relationship, id);
    GroupIsDistinct(previous, current, kind, relationship);
    assert id !in Kept(group);
    if IsKept(previous, current, id) {
      var k, r :| IsMovement(k) && id in Kept(Group(previous, current, k, r));
      KeptIsPart(Group(previous, current, k, r), id);
      GroupsAreDisjoint(previous, current, kind, relationship, k, r, id);
    }
  }

  lemma ReportsAreTrue(previous: Snapshot, current: Snapshot, events: seq<Event>, keys: seq<string>)
    requires IsComparison(previous, current, events, keys)
    ensures Appeared(events) <= Ids(current.objects) - Ids(previous.objects)
    ensures Lost(events) <= Ids(previous.objects) - Ids(current.objects)
  {
    hide IsKept, Appeared, Lost, Ids, IsComparison;
    forall id | id in Appeared(events) ensures id in Ids(current.objects) - Ids(previous.objects) {
      AppearedIsKept(previous, current, events, keys, id);
    }
    forall id | id in Lost(events) ensures id in Ids(previous.objects) - Ids(current.objects) {
      LostIsKept(previous, current, events, keys, id);
    }
  }

  lemma ReportsAreCompleteWhenGroupsFit(previous: Snapshot, current: Snapshot, events: seq<Event>, keys: seq<string>)
    requires IsComparison(previous, current, events, keys) && GroupsFit(previous, current)
    ensures Appeared(events) >= Ids(current.objects) - Ids(previous.objects)
    ensures Lost(events) >= Ids(previous.objects) - Ids(current.objects)
  {
    hide IsKept, Appeared, Lost, Ids, GroupsFit;
    forall id | id in Ids(current.objects) - Ids(previous.objects) ensures id in Appeared(events) {
      AllKeptWhenGroupsFit(previous, current, id);
      AppearedIsKept(previous, current, events, keys, id);
    }
    forall id | id in Ids(previous.objects) - Ids(current.objects) ensures id in Lost(events) {
      AllKeptWhenGroupsFit(previous, current, id);
      LostIsKept(previous, current, events, keys, id);
    }
  }

  /**
   Conservation: the objects of the previous snapshot, less the lost, plus the
   appeared, are those of the current one exactly when no group exceeds 128.
   What is reported is always true.
   */
  lemma DiffConservesObjects(previous: Snapshot, current: Snapshot, events: seq<Event>, keys: seq<string>)
    requires IsComparison(previous, current, events, keys)
    ensures Appeared(events) <= Ids(current.objects) - Ids(previous.objects)
    ensures Lost(events) <= Ids(previous.objects) - Ids(current.objects)
    ensures Ids(previous.objects) - Lost(events) + Appeared(events) == Ids(current.objects)
            <==> GroupsFit(previous, current)
  {
    hide IsKept, Appeared, Lost, Ids, GroupsFit, Lists, ListsByKeys;
    ReportsAreTrue(previous, current, events, keys);
    if GroupsFit(previous, current) {
      ReportsAreCompleteWhenGroupsFit(previous, current, events, keys);
      Balances(Ids(previous.objects), Ids(current.objects), Lost(events), Appeared(events));
    } else {
      var id := SomeDroppedWhenGroupOverflows(previous, current);
      AppearedIsKept(previous, current, events, keys, id);
      LostIsKept(previous, current, events, keys, id);
      Unbalanced(Ids(previous.objects), Ids(current.objects), Lost(events), Appeared(events), id);
    }
  }

  lemma Balances(before: set<int>, after: set<int>, gone: set<int>, come: set<int>)
    requires after - before <= come <= after - before && before - after <= gone <= before - after
    ensures before - gone + come == after
  {
  }

  lemma Unbalanced(before: set<int>, after: set<int>, gone: set<int>, come: set<int>, id: int)
    requires id in after - before || id in before - after
    requires id !in gone && id !in come
    ensures before - gone + come != after
  {
    assert id in before - gone + come <==> id in before;
  }

  // ----- A group that does not fit

  /** `n` objects that belong to nobody. */
  function Crowd(n: nat): (s: Snapshot)
    ensures |s.objects| == n && forall k :: 0 <= k < n ==> s.objects[k].id == k + 1
  {
    Snapshot(0, 0, true, None, 0, [], seq(n, k => Object(k + 1, None, "neutral", [], [], 1.0, [])), None)
  }

  lemma {:induction false} AllAreNewcomers(previous: Snapshot, current: Snapshot, objects: seq<Object>, kind: Kind,
                                           relationship: string)
    requires forall k :: 0 <= k < |objects| ==> IsNewcomer(previous, current, objects[k], kind, relationship)
    ensures |Newcomers(previous, current, objects, kind, relationship)| == |objects|
  {
    hide IsNewcomer;
    if objects != [] {
      AllAreNewcomers(previous, current, objects[..|objects| - 1], kind, relationship);
    }
  }

  /** When 129 neutral objects appear at once, the events name only 128 of them. */
  lemma CrowdIsNotConserved()
    ensures |Group(Crowd(0), Crowd(129), ObjectAppeared, "neutral")| == 129 && !GroupsFit(Crowd(0), Crowd(129))
    ensures forall events, keys :: IsComparison(Crowd(0), Crowd(129), events, keys) ==>
              Ids(Crowd(0).objects) - Lost(events) + Appeared(events) != Ids(Crowd(129).objects)
  {
    hide Lost, Appeared, Ids, GroupsFit, IsComparison;
    var nobody, crowd := Crowd(0), Crowd(129);
    assert forall k :: 0 <= k < 129 ==> IsNewcomer(nobody, crowd, crowd.objects[k], ObjectAppeared, "neutral");
    AllAreNewcomers(nobody, crowd, crowd.objects, ObjectAppeared, "neutral");
    OversizedGroup(nobody, crowd, ObjectAppeared, "neutral");
    forall events, keys | IsComparison(nobody, crowd, events, keys)
      ensures Ids(nobody.objects) - Lost(events) + Appeared(events) != Ids(crowd.objects)
    {
      DiffConservesObjects(nobody, crowd, events, keys);
    }
  }

  lemma OversizedGroup(previous: Snapshot, current: Snapshot, kind: Kind, relationship: string)
    requires IsMovement(kind) && |Group(previous, current, kind, relationship)| > MAX_EVENT_OBJECT_IDS
    ensures !GroupsFit(previous, current)
  {
  }
}
