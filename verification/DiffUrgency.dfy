/**
 How urgent the events of a comparison are that name no object, and when
 they are from (AgentBridge/events.go:275-340, 402-440 and 620-674).
 */
module DiffUrgency {
  import opened Common
  import opened TacticalEvents
  import opened SnapshotDiff
  import opened DiffProperties
  import opened DiffLaws
  import opened DiffReports
  import opened ReportedKinds

  // ----- What the accumulator keeps

  /** The event is of the current snapshot. */
  lemma {:induction false} AccumulatedStamp(current: Snapshot, ems: seq<Emission>, key: string)
    ensures var acc := AddAll(map[], current, ems);
            key in acc ==> acc[key].frame == current.frame && acc[key].snapshotId == current.snapshotId
                           && acc[key].cursor == 0
  {
    hide EmissionKey, Name, SeverityRank, Include, AppendId;
    if ems != [] {
      AccumulatedStamp(current, ems[..|ems| - 1], key);
    }
  }

  /** The severity is the greatest reported under the key. */
  lemma {:induction false} AccumulatedSeverity(current: Snapshot, ems: seq<Emission>, key: string)
    ensures var acc := AddAll(map[], current, ems);
            key in acc ==>
              && IsSeverity(ems, key, acc[key].severity)
              && forall i :: 0 <= i < |ems| && EmissionKey(ems[i]) == key ==>
                   SeverityRank(ems[i].severity) <= SeverityRank(acc[key].severity)
    ensures key !in AddAll(map[], current, ems) ==> forall i :: 0 <= i < |ems| ==> EmissionKey(ems[i]) != key
  {
    hide EmissionKey, Name, SeverityRank, Include, AppendId;
    if ems != [] {
      var init, last := ems[..|ems| - 1], ems[|ems| - 1];
      AccumulatedSeverity(current, init, key);
      assert forall i :: 0 <= i < |init| ==> ems[i] == init[i];
      var acc := AddAll(map[], current, init);
      if key in acc {
        var i :| 0 <= i < |init| && EmissionKey(init[i]) == key && init[i].severity == acc[key].severity;
        assert EmissionKey(ems[i]) == key && ems[i].severity == acc[key].severity;
      }
      assert ems[|ems| - 1] == last;
    }
  }

  ghost predicate IsSeverity(ems: seq<Emission>, key: string, severity: string) {
    exists i :: 0 <= i < |ems| && EmissionKey(ems[i]) == key && ems[i].severity == severity
  }

  // ----- What is noticed, and how urgently

  ghost predicate Urges(ems: seq<Emission>, kind: Kind, relationship: string, severity: string) {
    exists i :: 0 <= i < |ems| && IsUrgent(ems[i], kind, relationship, severity)
  }

  predicate IsUrgent(em: Emission, kind: Kind, relationship: string, severity: string) {
    em.kind == kind && em.relationship == relationship && em.severity == severity && em.subject == None
  }

  lemma UrgesInBoth(a: seq<Emission>, b: seq<Emission>, kind: Kind, relationship: string, severity: string)
    ensures Urges(a + b, kind, relationship, severity) <==>
            Urges(a, kind, relationship, severity) || Urges(b, kind, relationship, severity)
  {
    hide IsUrgent;
    if i :| 0 <= i < |a| && IsUrgent(a[i], kind, relationship, severity) {
      assert (a + b)[i] == a[i];
    }
    if i :| 0 <= i < |b| && IsUrgent(b[i], kind, relationship, severity) {
      assert (a + b)[|a| + i] == b[i];
    }
  }

  lemma UrgesIf(condition: bool, em: Emission, kind: Kind, relationship: string, severity: string)
    ensures Urges(If(condition, em), kind, relationship, severity) <==>
            condition && IsUrgent(em, kind, relationship, severity)
  {
    assert [em][0] == em;
  }

  lemma NothingUrges(kind: Kind, relationship: string, severity: string)
    ensures !Urges([], kind, relationship, severity)
  {
  }

  /** How urgent it is that a player's fortunes moved. */
  function MoveSeverity(kind: Kind, player: Player): string {
    match kind
    case PlayerEliminated => if player.isLocal then "critical" else "warning"
    case PowerChanged => if player.economy.Some? && player.economy.value.powerSufficient then "notice" else "warning"
    case EconomyChanged => "info"
    case _ => "notice"
  }

  ghost predicate PlayerMovedWith(kind: Kind, previous: Snapshot, relationship: string, player: Player,
                                  severity: string) {
    PlayerMovedSince(kind, previous, relationship, player) && severity == MoveSeverity(kind, player)
  }

  ghost predicate NoticedWith(kind: Kind, previous: Snapshot, current: Snapshot, relationship: string,
                              severity: string) {
    || (GameMoved(kind, previous, current, relationship)
        && severity == if kind == GameStarted then "notice" else "critical")
    || exists k :: 0 <= k < |current.players|
                   && PlayerMovedWith(kind, previous, relationship, current.players[k], severity)
  }

  lemma GameUrges(previous: Snapshot, current: Snapshot, kind: Kind, relationship: string, severity: string)
    ensures Urges(GameEmissions(previous, current), kind, relationship, severity) <==>
            GameMoved(kind, previous, current, relationship)
            && severity == if kind == GameStarted then "notice" else "critical"
  {
    hide Urges;
    var began, ended := Emission(GameStarted, "", "notice", true, None),
                        Emission(GameOutcome, "", "critical", true, None);
    var starts, ends := !previous.playable && current.playable,
                        current.outcome.Some? && previous.outcome != current.outcome;
    UrgesInBoth(If(starts, began), If(ends, ended), kind, relationship, severity);
    UrgesIf(starts, began, kind, relationship, severity);
    UrgesIf(ends, ended, kind, relationship, severity);
  }

  lemma EconomyUrges(prior: Player, player: Player, kind: Kind, relationship: string, severity: string)
    requires player.isLocal && prior.economy.Some? && player.economy.Some?
    ensures Urges(EconomyEmissions(prior.economy.value, player.economy.value), kind, relationship, severity) <==>
            relationship == "self" && EconomyMoved(kind, prior.economy.value, player.economy.value)
            && severity == MoveSeverity(kind, player)
  {
    hide Urges, IsUrgent, MoveSeverity, EconomyMoved;
    var before, now := prior.economy.value, player.economy.value;
    var money, progress := Emission(EconomyChanged, "self", "info", false, None),
                           Emission(PlayerProgress, "self", "notice", true, None);
    var power := Emission(PowerChanged, "self", if now.powerSufficient then "notice" else "warning", true, None);
    var earned, powered := before.money != now.money, before.powerSufficient != now.powerSufficient;
    var progressed := before.rank != now.rank || before.sciencePoints != now.sciencePoints
                      || before.skillPoints != now.skillPoints;
    UrgesInBoth(If(earned, money), If(powered, power), kind, relationship, severity);
    UrgesInBoth(If(earned, money) + If(powered, power), If(progressed, progress), kind, relationship, severity);
    UrgesIf(earned, money, kind, relationship, severity);
    UrgesIf(powered, power, kind, relationship, severity);
    UrgesIf(progressed, progress, kind, relationship, severity);
    MoneyUrges(kind, relationship, severity, player, money, power, progress);
    EconomyMovedMeans(kind, before, now);
    assert EconomyEmissions(before, now) == If(earned, money) + If(powered, power) + If(progressed, progress);
  }

  lemma EconomyMovedMeans(kind: Kind, before: Economy, now: Economy)
    ensures EconomyMoved(kind, before, now) <==>
            || (kind == EconomyChanged && before.money != now.money)
            || (kind == PowerChanged && before.powerSufficient != now.powerSufficient)
            || (kind == PlayerProgress && (before.rank != now.rank || before.sciencePoints != now.sciencePoints
                                           || before.skillPoints != now.skillPoints))
  {
  }

  lemma MoneyUrges(kind: Kind, relationship: string, severity: string, player: Player, money: Emission,
                   power: Emission, progress: Emission)
    requires player.economy.Some?
    requires money == Emission(EconomyChanged, "self", "info", false, None)
    requires power == Emission(PowerChanged, "self", if player.economy.value.powerSufficient then "notice"
                               else "warning",
                               true, None)
    requires progress == Emission(PlayerProgress, "self", "notice", true, None)
    ensures IsUrgent(money, kind, relationship, severity) <==>
            kind == EconomyChanged && relationship == "self" && severity == MoveSeverity(kind, player)
    ensures IsUrgent(power, kind, relationship, severity) <==>
            kind == PowerChanged && relationship == "self" && severity == MoveSeverity(kind, player)
    ensures IsUrgent(progress, kind, relationship, severity) <==>
            kind == PlayerProgress && relationship == "self" && severity == MoveSeverity(kind, player)
  {
  }

  lemma EliminationUrges(prior: Player, player: Player, kind: Kind, relationship: string, severity: string)
    ensures var seen := if player.isLocal then "self" else player.relationship;
            var em := Emission(PlayerEliminated, seen, if player.isLocal then "critical" else "warning", true, None);
            Urges(If(prior.active && !player.active, em), kind, relationship, severity) <==>
              kind == PlayerEliminated && PlayerSeenAs(player, relationship) && prior.active && !player.active
              && severity == MoveSeverity(kind, player)
  {
    hide Urges;
    var em := Emission(PlayerEliminated, if player.isLocal then "self" else player.relationship,
                       if player.isLocal then "critical" else "warning", true, None);
    UrgesIf(prior.active && !player.active, em, kind, relationship, severity);
  }

  lemma PlayerUrges(previous: Snapshot, player: Player, kind: Kind, relationship: string, severity: string)
    ensures Urges(PlayerEmissions(previous, player), kind, relationship, severity) <==>
            PlayerMovedWith(kind, previous, relationship, player, severity)
  {
    hide Urges, PlayerMovedSince, EconomyMoved, EconomyEmissions, FindPlayer, MoveSeverity, PlayerSeenAs;
    NothingUrges(kind, relationship, severity);
    PriorPlayerIsOnlyOne(previous, player, kind, relationship);
    if FindPlayer(previous.players, player.index).Some? {
      var prior := FindPlayer(previous.players, player.index).value;
      var seen := if player.isLocal then "self" else player.relationship;
      var em := Emission(PlayerEliminated, seen, if player.isLocal then "critical" else "warning", true, None);
      var eliminated := If(prior.active && !player.active, em);
      var economy := if player.isLocal && prior.economy.Some? && player.economy.Some?
                     then EconomyEmissions(prior.economy.value, player.economy.value) else [];
      UrgesInBoth(eliminated, economy, kind, relationship, severity);
      EliminationUrges(prior, player, kind, relationship, severity);
      if player.isLocal && prior.economy.Some? && player.economy.Some? {
        EconomyUrges(prior, player, kind, relationship, severity);
      }
    }
  }

  lemma {:induction false} PlayersUrge(previous: Snapshot, players: seq<Player>, kind: Kind, relationship: string,
                                       severity: string)
    ensures Urges(AllPlayerEmissions(previous, players), kind, relationship, severity) <==>
            exists k :: 0 <= k < |players| && PlayerMovedWith(kind, previous, relationship, players[k], severity)
  {
    hide Urges, PlayerMovedWith, PlayerEmissions;
    if players == [] {
      NothingUrges(kind, relationship, severity);
    } else {
      var init, last := players[..|players| - 1], players[|players| - 1];
      PlayersUrge(previous, init, kind, relationship, severity);
      UrgesInBoth(AllPlayerEmissions(previous, init), PlayerEmissions(previous, last), kind, relationship, severity);
      PlayerUrges(previous, last, kind, relationship, severity);
      assert players[|players| - 1] == last;
      if k :| 0 <= k < |init| && PlayerMovedWith(kind, previous, relationship, init[k], severity) {
        assert PlayerMovedWith(kind, previous, relationship, players[k], severity);
      }
      if k :| 0 <= k < |players| && PlayerMovedWith(kind, previous, relationship, players[k], severity) {
        assert k < |init| ==> init[k] == players[k];
      }
    }
  }

  /** Reports without an object come from the game and its players only. */
  lemma OnlyObjectsElsewhere(ems: seq<Emission>, kind: Kind, relationship: string, severity: string)
    requires !Emits(ems, kind, relationship, None)
    ensures !Urges(ems, kind, relationship, severity)
  {
    if i :| 0 <= i < |ems| && IsUrgent(ems[i], kind, relationship, severity) {
      assert Is(ems[i], kind, relationship, None);
    }
  }

  lemma UrgesWhatIsNoticed(previous: Snapshot, current: Snapshot, kind: Kind, relationship: string, severity: string)
    ensures Urges(DiffEmissions(Some(previous), current), kind, relationship, severity) <==>
            NoticedWith(kind, previous, current, relationship, severity)
  {
    hide Emits, Urges, GameMoved, PlayerMovedWith, GameEmissions, AllPlayerEmissions, AllObjectEmissions,
      AllLossEmissions, ChangedCapabilities, TellsOf, IsLost, CapabilityChanged, SeenAs;
    var g, u, o, l, c := GameEmissions(previous, current), AllPlayerEmissions(previous, current.players),
                         AllObjectEmissions(previous, current, current.objects),
                         AllLossEmissions(previous, current, previous.objects),
                         ChangedCapabilities(previous, current);
    UrgesInBoth(g, u, kind, relationship, severity);
    UrgesInBoth(g + u, o, kind, relationship, severity);
    UrgesInBoth(g + u + o, l, kind, relationship, severity);
    UrgesInBoth(g + u + o + l, c, kind, relationship, severity);
    GameUrges(previous, current, kind, relationship, severity);
    PlayersUrge(previous, current.players, kind, relationship, severity);
    ObjectsAreEmitted(previous, current, current.objects, kind, relationship, None);
    LossesAreEmitted(previous, current, previous.objects, kind, relationship, None);
    CapabilitiesAreEmitted(previous, current, kind, relationship, None);
    OnlyObjectsElsewhere(o, kind, relationship, severity);
    OnlyObjectsElsewhere(l, kind, relationship, severity);
    OnlyObjectsElsewhere(c, kind, relationship, severity);
  }

  lemma NoObjectInReport(previous: Snapshot, current: Snapshot, i: nat)
    requires i < |DiffEmissions(Some(previous), current)| && !HasObjects(DiffEmissions(Some(previous), current)[i].kind)
    ensures DiffEmissions(Some(previous), current)[i].subject == None
  {
    hide DiffEmissions, FixedSeverity, FixedWake, ReportsFor;
    var rs := {"self"} + Spoken(previous) + Spoken(current);
    assert Knows(previous, rs) && Knows(current, rs) by { SpokenIsKnown(previous); SpokenIsKnown(current); }
    ReportsAreTied(Some(previous), current, rs);
    assert TiedReport(DiffEmissions(Some(previous), current)[i], rs);
  }

  ghost function Spoken(s: Snapshot): set<string> {
    set i | 0 <= i < |s.objects| :: s.objects[i].relationship
  }

  lemma SpokenIsKnown(s: Snapshot)
    ensures forall i :: 0 <= i < |s.objects| ==> s.objects[i].relationship in Spoken(s)
  {
  }

  /** The severity of an event without objects is the greatest of what was noticed. */
  lemma EventIsAsUrgent(previous: Snapshot, current: Snapshot, kind: Kind, relationship: string)
    requires HasEvent(previous, current, kind, relationship) && !HasObjects(kind)
    ensures var severity := EventUnder(previous, current, kind, relationship).severity;
            && NoticedWith(kind, previous, current, relationship, severity)
            && forall other :: NoticedWith(kind, previous, current, relationship, other) ==>
                 SeverityRank(other) <= SeverityRank(severity)
  {
    hide DiffEmissions, AddAll, KeyText, Name, NoticedWith, SeverityRank, HasObjects;
    var ems, key := DiffEmissions(Some(previous), current), KeyText(Name(kind), relationship);
    AccumulatedSeverity(current, ems, key);
    var severity := EventUnder(previous, current, kind, relationship).severity;
    var i :| 0 <= i < |ems| && EmissionKey(ems[i]) == key && ems[i].severity == severity;
    SameKey(ems[i], kind, relationship);
    NoObjectInReport(previous, current, i);
    assert IsUrgent(ems[i], kind, relationship, severity);
    UrgesWhatIsNoticed(previous, current, kind, relationship, severity);
    forall other | NoticedWith(kind, previous, current, relationship, other)
      ensures SeverityRank(other) <= SeverityRank(severity)
    {
      UrgesWhatIsNoticed(previous, current, kind, relationship, other);
      var k :| 0 <= k < |ems| && IsUrgent(ems[k], kind, relationship, other);
      SameKey(ems[k], kind, relationship);
    }
  }

  lemma EventIsOfTheSnapshot(previous: Snapshot, current: Snapshot, kind: Kind, relationship: string)
    requires HasEvent(previous, current, kind, relationship)
    ensures var e := EventUnder(previous, current, kind, relationship);
            e.frame == current.frame && e.snapshotId == current.snapshotId && e.cursor == 0
  {
    hide DiffEmissions, AddAll, KeyText, Name;
    AccumulatedStamp(current, DiffEmissions(Some(previous), current), KeyText(Name(kind), relationship));
  }
}
