/**
 Runs of the event stream that show where its guarantees end: they are the
 failing cases of CursorZeroSkipsTheEvicted and NewcomersAreStaleAfterAnIdleStop.
 */
module EventRuns {
  import opened Common
  import opened Ordering
  import opened TacticalEvents
  import opened SnapshotDiff
  import opened EventStreams
  import opened EventProtocol
  import opened EventInvariant
  import opened EventSafety

  /** Some run takes these steps and ends in `sys`. */
  ghost predicate Reaches(limit: nat, steps: seq<Step>, sys: System) {
    exists states :: Run(limit, states, steps) && states[|steps|] == sys
  }

  lemma ReachesInitial(limit: nat)
    requires limit > 0
    ensures Reaches(limit, [], Initial(limit))
  {
    assert Run(limit, [Initial(limit)], []);
  }

  lemma ReachesNext(limit: nat, steps: seq<Step>, sys: System, step: Step)
    requires Reaches(limit, steps, sys) && Enabled(sys, step)
    ensures Reaches(limit, steps + [step], Apply(sys, step))
  {
    hide Enabled, Apply, Initial;
    var states :| Run(limit, states, steps) && states[|steps|] == sys;
    var longer := states + [Apply(sys, step)];
    assert Run(limit, longer, steps + [step]);
  }

  lemma RunOf(limit: nat, steps: seq<Step>, sys: System) returns (states: seq<System>)
    requires Reaches(limit, steps, sys)
    ensures Run(limit, states, steps) && |states| == |steps| + 1 && states[|steps|] == sys
  {
    hide Enabled, Apply, Initial;
    states :| Run(limit, states, steps) && states[|steps|] == sys;
  }

  // ----- Polls that report one event

  lemma OneReport(previous: Option<Snapshot>, snapshot: Snapshot, em: Emission)
    requires DiffEmissions(previous, snapshot) == [em] && em.subject == None
    ensures ListsEvents([EventOf(snapshot, em)], Reported(previous, snapshot))
  {
    hide DiffEmissions, Name, SeverityRank, KeyText;
    AddAllOne(map[], snapshot, em);
    var key, acc := EmissionKey(em), Reported(previous, snapshot);
    assert acc == map[key := EventOf(snapshot, em)];
    assert SortedEvent(acc[key]) == EventOf(snapshot, em);
    assert Elements([key]) == {key} == acc.Keys;
    assert Lists([key], acc.Keys) && ListsByKeys([EventOf(snapshot, em)], acc, [key]);
  }

  /** A poll that reports one event, and the flush after it. */
  ghost function Reporting(sys: System, snapshot: Snapshot, em: Emission): System {
    var s, event := sys.stream, EventOf(snapshot, em).(cursor := sys.stream.nextCursor + 1);
    sys.(stream := s.(previous := Some(snapshot), events := Retain(s.events + [event], sys.limit),
                      nextCursor := s.nextCursor + 1, subscribers := map id | id in s.subscribers :: true),
         log := sys.log + [event], epochs := sys.epochs + [sys.epoch])
  }

  function PollAndFlush(snapshot: Snapshot, em: Emission): seq<Step> {
    [CommitStep(snapshot, [EventOf(snapshot, em)], None), FlushStep([EmissionKey(em)])]
  }

  lemma ReachesReporting(limit: nat, steps: seq<Step>, sys: System, snapshot: Snapshot, em: Emission)
    requires Reaches(limit, steps, sys) && sys.stream.pending == map[]
    requires WithCapabilities(sys.stream.previous, snapshot) == snapshot
    requires DiffEmissions(sys.stream.previous, snapshot) == [em] && em.subject == None
    ensures Reaches(limit, steps + PollAndFlush(snapshot, em), Reporting(sys, snapshot, em))
  {
    hide Reaches, DiffEmissions, Name, KeyText, Reported, ListsEvents, WithCapabilities;
    var event, key := EventOf(snapshot, em), EmissionKey(em);
    OneReport(sys.stream.previous, snapshot, em);
    var commit, flush := CommitStep(snapshot, [event], None), FlushStep([key]);
    ReachesNext(limit, steps, sys, commit);
    OneIsPending(event, key);
    var committed := Apply(sys, commit);
    assert committed.stream.pending == map[key := event];
    FlushOfOne(committed, event, key);
    ReachesNext(limit, steps + [commit], committed, flush);
    assert steps + [commit] + [flush] == steps + PollAndFlush(snapshot, em);
  }

  lemma OneIsPending(event: Event, key: string)
    requires EventKey(event) == key
    ensures MergeAllIntoPending(map[], [event]) == map[key := event]
  {
    hide KeyText;
    assert [event][..0] == [] && MergeAllIntoPending(map[], []) == map[];
  }

  lemma FlushOfOne(sys: System, event: Event, key: string)
    requires sys.stream.pending == map[key := event]
    ensures Enabled(sys, FlushStep([key]))
    ensures var s, numbered := sys.stream, event.(cursor := sys.stream.nextCursor + 1);
            Apply(sys, FlushStep([key]))
            == sys.(stream := s.(events := Retain(s.events + [numbered], sys.limit), nextCursor := s.nextCursor + 1,
                                 pending := map[], subscribers := map id | id in s.subscribers :: true),
                    log := sys.log + [numbered], epochs := sys.epochs + [sys.epoch])
  {
    hide Retain;
    assert Elements([key]) == {key} == sys.stream.pending.Keys;
    var numbered := Numbered(sys.stream.pending, [key], sys.stream.nextCursor);
    assert numbered == [numbered[0]];
    assert seq(1, _ => sys.epoch) == [sys.epoch];
  }

  // ----- A game in which only the money changes

  function Rich(money: nat): Snapshot {
    Snapshot(money, money, true, None, 0, [Player(0, true, "allies", true, Some(Economy(money, true, 0, 0, 0)))], [],
             None)
  }

  const BASELINE := Emission(Baseline, "", "info", false, None)

  const EARNING := Emission(EconomyChanged, "self", "info", false, None)

  lemma EarningIsAllThatChanges(money: nat)
    ensures DiffEmissions(None, Rich(0)) == [BASELINE]
    ensures DiffEmissions(Some(Rich(money)), Rich(money + 1)) == [EARNING]
  {
    var before, player := Rich(money), Rich(money + 1).players[0];
    assert [player][..0] == [] && before.players[..0] == [];
    assert FindPlayer(before.players, 0) == Some(before.players[0]);
    assert AllPlayerEmissions(before, []) == [];
    assert AllPlayerEmissions(before, [player]) == PlayerEmissions(before, player) == [EARNING];
  }

  const EVERYTHING := Filter({}, {}, {}, "info", false, None)

  function Client(start: nat, provided: bool, phase: Phase, cursor: nat, lastRead: nat, base: nat, joined: nat)
    : Handler
  {
    Handler(provided, start, EVERYTHING, false, false, phase, cursor, lastRead, base, [], [], joined)
  }

  // ----- A newcomer that is told to resync

  /** A client that comes after the baseline, finds nothing newer, and goes. */
  const FIRST_VISIT: seq<Step> := [FirstRead(1), SecondRead(1), Open(1), Read(1, true), Park(1), Cancel(1), Leave(1)]

  ghost function AfterBaseline(limit: nat, subscribers: map<nat, bool>, client: Handler, idle: bool): System {
    var told := EventOf(Rich(0), BASELINE).(cursor := 1);
    System(NEW_STREAM.(events := [told], nextCursor := 1, subscribers := subscribers, nextSubscriber := 1,
                       running := true, idleTimer := idle, previous := Some(Rich(0))),
           map[1 := client], [told], [0], 0, limit)
  }

  lemma BaselineIsOver(s: Stream)
    requires |s.events| == 1 && s.events[0].cursor == 1 && s.nextCursor == 1
    ensures After(s, 1) == Replay([], 1, 1, s.gapCursor > 1, false, false)
  {
    assert s.events[..0] == [];
    assert Beyond(s.events[..0], 1) == [] && Beyond(s.events, 1) == [];
  }

  /** The stream with its first client and nothing else. */
  ghost function Joined(limit: nat, provided: bool): System {
    System(NEW_STREAM.(subscribers := map[1 := false], nextSubscriber := 1, running := true),
           map[1 := Client(0, provided, Subscribed, 0, 0, 0, 0)], [], [], 0, limit)
  }

  lemma FirstClientJoins(limit: nat, provided: bool)
    requires limit > 0
    ensures Reaches(limit, [Connect(0, provided, EVERYTHING, false, false)], Joined(limit, provided))
  {
    hide Reaches, Apply, Enabled, Initial, Joined;
    var connect := Connect(0, provided, EVERYTHING, false, false);
    ReachesInitial(limit);
    NewcomersAreLetIn(Initial(limit), provided);
    ReachesNext(limit, [], Initial(limit), connect);
    JoiningStream(limit, provided);
    assert [] + [connect] == [connect];
  }

  lemma NewcomersAreLetIn(sys: System, provided: bool)
    ensures var connect := Connect(0, provided, EVERYTHING, false, false);
            && Enabled(sys, connect)
            && Apply(sys, connect)
                 == sys.(stream := Subscribe(sys.stream, false, false),
                         handlers := sys.handlers[sys.stream.nextSubscriber + 1 :=
                                       Client(0, provided, Subscribed, 0, 0, 0, sys.epoch)])
  {
    hide Subscribe;
  }

  lemma Subscribing(s: Stream)
    ensures Subscribe(s, false, false)
              == s.(idleTimer := false, nextSubscriber := s.nextSubscriber + 1,
                    subscribers := s.subscribers[s.nextSubscriber + 1 := false], running := true)
  {
  }

  lemma JoiningStream(limit: nat, provided: bool)
    ensures Enabled(Initial(limit), Connect(0, provided, EVERYTHING, false, false))
    ensures Apply(Initial(limit), Connect(0, provided, EVERYTHING, false, false)) == Joined(limit, provided)
  {
    hide Apply, Enabled, Subscribe, Client;
    var s := Initial(limit).stream;
    NewcomersAreLetIn(Initial(limit), provided);
    Subscribing(s);
    assert s.subscribers[1 := false] == map[1 := false];
    var handlers: map<nat, Handler> := map[];
    assert handlers[1 := Client(0, provided, Subscribed, 0, 0, 0, 0)]
        == map[1 := Client(0, provided, Subscribed, 0, 0, 0, 0)];
  }

  lemma BaselineIsReported(limit: nat, provided: bool)
    requires limit > 0
    ensures Reporting(Joined(limit, provided), Rich(0), BASELINE)
              == AfterBaseline(limit, map[1 := true], Client(0, provided, Subscribed, 0, 0, 0, 0), false)
  {
    hide Rich, Name;
    var slots := map[1 := false];
    assert (map id | id in slots :: true) == map[1 := true];
  }

  lemma JoinedIsFresh(limit: nat, provided: bool)
    ensures var s := Joined(limit, provided).stream;
            s.pending == map[] && s.previous == None && WithCapabilities(s.previous, Rich(0)) == Rich(0)
  {
  }

  lemma ReachesBaseline(limit: nat, provided: bool)
    requires limit > 0
    ensures Reaches(limit, [Connect(0, provided, EVERYTHING, false, false)] + PollAndFlush(Rich(0), BASELINE),
                    AfterBaseline(limit, map[1 := true], Client(0, provided, Subscribed, 0, 0, 0, 0), false))
  {
    hide Reaches, DiffEmissions, Rich, PollAndFlush, Joined, Reporting, AfterBaseline, WithCapabilities;
    FirstClientJoins(limit, provided);
    JoinedIsFresh(limit, provided);
    EarningIsAllThatChanges(0);
    ReachesReporting(limit, [Connect(0, provided, EVERYTHING, false, false)], Joined(limit, provided), Rich(0),
                     BASELINE);
    BaselineIsReported(limit, provided);
  }

  lemma FirstClientConnects(limit: nat)
    requires limit > 0
    ensures Reaches(limit, [Connect(0, false, EVERYTHING, false, false)] + PollAndFlush(Rich(0), BASELINE),
                    AfterBaseline(limit, map[1 := true], Client(0, false, Subscribed, 0, 0, 0, 0), false))
  {
    hide Reaches, PollAndFlush, AfterBaseline;
    ReachesBaseline(limit, false);
  }

  ghost function Visiting(limit: nat, phase: Phase): System {
    AfterBaseline(limit, map[1 := true], Client(0, false, phase, 1, 1, 1, 0), false)
  }

  lemma FirstClientOpens(limit: nat)
    ensures var before := AfterBaseline(limit, map[1 := true], Client(0, false, Subscribed, 0, 0, 0, 0), false);
            Enabled(before, FirstRead(1)) && Apply(before, FirstRead(1)) == Visiting(limit, Positioned)
    ensures var before, read := Visiting(limit, Positioned),
                                Visiting(limit, Opening(Replay([], 1, 1, false, false, false)));
            && Enabled(before, SecondRead(1)) && Apply(before, SecondRead(1)) == read
            && Enabled(read, Open(1)) && Apply(read, Open(1)) == Visiting(limit, Reading)
  {
    hide After;
    BaselineIsOver(Visiting(limit, Positioned).stream);
    CurrentIsNext(Visiting(limit, Positioned).stream, 0);
  }

  lemma CurrentIsNext(s: Stream, cursor: nat)
    ensures After(s, cursor).current == s.nextCursor
  {
  }

  lemma FirstClientReads(limit: nat)
    ensures var before, after := Visiting(limit, Reading), Visiting(limit, Processing([]));
            && Enabled(before, Read(1, true)) && Apply(before, Read(1, true)) == after
            && Enabled(after, Park(1)) && Apply(after, Park(1)) == Visiting(limit, Waiting)
  {
    hide After;
    BaselineIsOver(Visiting(limit, Reading).stream);
  }

  lemma FirstClientGoes(limit: nat)
    ensures var before, after := Visiting(limit, Waiting), Visiting(limit, Leaving);
            && Enabled(before, Cancel(1)) && Apply(before, Cancel(1)) == after
            && Enabled(after, Leave(1))
            && Apply(after, Leave(1)) == AfterBaseline(limit, map[], Client(0, false, Gone, 1, 1, 1, 0), true)
  {
  }

  const SETTLE: seq<Step> := [Connect(0, false, EVERYTHING, false, false)] + PollAndFlush(Rich(0), BASELINE)

  lemma FirstVisitEnds(limit: nat)
    requires limit > 0
    ensures Reaches(limit, SETTLE + FIRST_VISIT, AfterBaseline(limit, map[], Client(0, false, Gone, 1, 1, 1, 0), true))
  {
    hide Reaches, Enabled, Apply, AfterBaseline, Rich, PollAndFlush;
    FirstClientConnects(limit);
    FirstClientOpens(limit);
    FirstClientReads(limit);
    FirstClientGoes(limit);
    var opening := Opening(Replay([], 1, 1, false, false, false));
    ReachesNext(limit, SETTLE, AfterBaseline(limit, map[1 := true], Client(0, false, Subscribed, 0, 0, 0, 0), false),
                FirstRead(1));
    ReachesNext(limit, SETTLE + [FirstRead(1)], Visiting(limit, Positioned), SecondRead(1));
    ReachesNext(limit, SETTLE + [FirstRead(1)] + [SecondRead(1)], Visiting(limit, opening), Open(1));
    ReachesNext(limit, SETTLE + [FirstRead(1)] + [SecondRead(1)] + [Open(1)], Visiting(limit, Reading), Read(1, true));
    var looping := SETTLE + [FirstRead(1)] + [SecondRead(1)] + [Open(1)] + [Read(1, true)];
    ReachesNext(limit, looping, Visiting(limit, Processing([])), Park(1));
    ReachesNext(limit, looping + [Park(1)], Visiting(limit, Waiting), Cancel(1));
    ReachesNext(limit, looping + [Park(1)] + [Cancel(1)], Visiting(limit, Leaving), Leave(1));
    assert looping + [Park(1)] + [Cancel(1)] + [Leave(1)] == SETTLE + FIRST_VISIT;
  }

  /** The next client, without a cursor too, after the idle timer has stopped the poller. */
  const SECOND_VISIT: seq<Step> :=
    [IdleStep, Connect(0, false, EVERYTHING, false, false), FirstRead(2), SecondRead(2), Open(2)]

  const GONE := Client(0, false, Gone, 1, 1, 1, 0)

  ghost function Stopped(limit: nat): System {
    var before := AfterBaseline(limit, map[], GONE, true);
    before.(stream := before.stream.(idleTimer := false, running := false, previous := None, gapCursor := 2),
            epoch := 1)
  }

  ghost function Returning(limit: nat, client: Handler): System {
    var before := Stopped(limit);
    before.(stream := before.stream.(subscribers := map[2 := false], nextSubscriber := 2, running := true),
            handlers := map[1 := GONE, 2 := client])
  }

  lemma TheTimerStops(limit: nat)
    ensures Apply(AfterBaseline(limit, map[], GONE, true), IdleStep) == Stopped(limit)
  {
  }

  lemma SecondClientConnects(limit: nat)
    ensures Apply(Stopped(limit), Connect(0, false, EVERYTHING, false, false))
            == Returning(limit, Client(0, false, Subscribed, 0, 0, 0, 1))
  {
  }

  /** What the second client reads from the cursor it was given: the stop lies ahead of it. */
  const STALE := Replay([], 1, 1, true, false, false)

  ghost function Resynced(): Handler {
    Client(0, false, Reading, 1, 1, 1, 1).(transcript := [Skipped(1, 1)], wire := [ResyncMessage(1)])
  }

  lemma StaleIsResynced()
    ensures OnOpen(Client(0, false, Opening(STALE), 1, 1, 1, 1)) == Resynced()
  {
    assert [] + [Skipped(1, 1)] == [Skipped(1, 1)];
    assert [] + [ResyncMessage(1)] == [ResyncMessage(1)];
  }

  lemma SecondClientReads(limit: nat)
    ensures var before, placed := Returning(limit, Client(0, false, Subscribed, 0, 0, 0, 1)),
                                  Returning(limit, Client(0, false, Positioned, 1, 1, 1, 1));
            && Enabled(before, FirstRead(2)) && Apply(before, FirstRead(2)) == placed
            && Enabled(placed, SecondRead(2))
            && Apply(placed, SecondRead(2)) == Returning(limit, Client(0, false, Opening(STALE), 1, 1, 1, 1))
  {
    hide After;
    var s := Returning(limit, Client(0, false, Subscribed, 0, 0, 0, 1)).stream;
    BaselineIsOver(s);
    CurrentIsNext(s, 0);
  }

  lemma SecondClientOpens(limit: nat)
    ensures var read := Returning(limit, Client(0, false, Opening(STALE), 1, 1, 1, 1));
            Enabled(read, Open(2)) && Apply(read, Open(2)) == Returning(limit, Resynced())
  {
    hide OnOpen, Client, Resynced;
    StaleIsResynced();
    assert Client(0, false, Opening(STALE), 1, 1, 1, 1).phase == Opening(STALE) by { PhaseOfClient(Opening(STALE)); }
  }

  lemma PhaseOfClient(phase: Phase)
    ensures Client(0, false, phase, 1, 1, 1, 1).phase == phase
  {
  }

  /**
   A client that gives no cursor and connects after an idle stop, with nothing
   flushed since, is told that its cursor expired, whatever the ring's size.
   */
  lemma NewcomerIsToldToResync(limit: nat) returns (states: seq<System>, steps: seq<Step>)
    requires limit > 0
    ensures Run(limit, states, steps) && steps == SETTLE + FIRST_VISIT + SECOND_VISIT
    ensures var sys := states[|steps|];
            && |sys.log| == 1 && 2 in sys.handlers && !sys.handlers[2].provided
            && sys.handlers[2].wire == [ResyncMessage(1)]
  {
    hide Enabled, Apply, AfterBaseline, Stopped, SETTLE, FIRST_VISIT, Run;
    FirstVisitEnds(limit);
    TheTimerStops(limit);
    SecondClientConnects(limit);
    SecondClientReads(limit);
    SecondClientOpens(limit);
    var connect := Connect(0, false, EVERYTHING, false, false);
    var gone := SETTLE + FIRST_VISIT;
    var came := gone + [IdleStep] + [connect];
    IdleIsEnabled(AfterBaseline(limit, map[], GONE, true));
    NewcomersAreLetIn(Stopped(limit), false);
    ReachesNext(limit, gone, AfterBaseline(limit, map[], GONE, true), IdleStep);
    ReachesNext(limit, gone + [IdleStep], Stopped(limit), connect);
    ReachesNext(limit, came, Returning(limit, Client(0, false, Subscribed, 0, 0, 0, 1)), FirstRead(2));
    ReachesNext(limit, came + [FirstRead(2)], Returning(limit, Client(0, false, Positioned, 1, 1, 1, 1)),
                SecondRead(2));
    ReachesNext(limit, came + [FirstRead(2)] + [SecondRead(2)],
                Returning(limit, Client(0, false, Opening(STALE), 1, 1, 1, 1)), Open(2));
    steps := gone + SECOND_VISIT;
    assert came + [FirstRead(2)] + [SecondRead(2)] + [Open(2)] == steps;
    states := RunOf(limit, steps, Returning(limit, Resynced()));
    LogOfReturning(limit, Resynced());
  }

  lemma LogOfReturning(limit: nat, client: Handler)
    ensures |Returning(limit, client).log| == 1
  {
  }

  lemma IdleIsEnabled(sys: System)
    ensures Enabled(sys, IdleStep)
  {
  }

  // ----- A client at cursor 0 that is not told what it missed

  const FROM_ZERO := Connect(0, true, EVERYTHING, false, false)

  function Earnings(n: nat): seq<Step> {
    if n == 0 then PollAndFlush(Rich(0), BASELINE) else Earnings(n - 1) + PollAndFlush(Rich(n), EARNING)
  }

  /** After n + 1 flushes of one event each. */
  ghost predicate HasEarned(sys: System, limit: nat, n: nat) {
    && sys.stream.pending == map[] && sys.stream.previous == Some(Rich(n)) && sys.limit == limit
    && sys.handlers == map[1 := Client(0, true, Subscribed, 0, 0, 0, 0)]
    && |sys.log| == n + 1 && forall i :: 0 <= i < |sys.log| ==> sys.log[i].severity == "info"
  }

  lemma {:induction false} ReachesEarnings(limit: nat, n: nat) returns (sys: System)
    requires limit > 0
    ensures Reaches(limit, [FROM_ZERO] + Earnings(n), sys) && HasEarned(sys, limit, n)
  {
    hide Reaches, DiffEmissions, Rich, PollAndFlush, HasEarned, Reporting, AfterBaseline;
    if n == 0 {
      ReachesBaseline(limit, true);
      sys := AfterBaseline(limit, map[1 := true], Client(0, true, Subscribed, 0, 0, 0, 0), false);
      BaselineIsEarned(limit);
    } else {
      var before := ReachesEarnings(limit, n - 1);
      EarningIsAllThatChanges(n - 1);
      NothingInherited(n - 1, n);
      EarnedStream(before, limit, n - 1);
      ReachesReporting(limit, [FROM_ZERO] + Earnings(n - 1), before, Rich(n), EARNING);
      sys := Reporting(before, Rich(n), EARNING);
      MoreIsEarned(before, limit, n - 1);
      assert [FROM_ZERO] + Earnings(n) == ([FROM_ZERO] + Earnings(n - 1)) + PollAndFlush(Rich(n), EARNING);
    }
  }

  lemma BaselineIsEarned(limit: nat)
    ensures HasEarned(AfterBaseline(limit, map[1 := true], Client(0, true, Subscribed, 0, 0, 0, 0), false), limit, 0)
  {
    hide Rich, Name;
  }

  lemma EarnedStream(sys: System, limit: nat, n: nat)
    requires HasEarned(sys, limit, n)
    ensures sys.stream.pending == map[] && sys.stream.previous == Some(Rich(n))
  {
  }

  lemma MoreIsEarned(sys: System, limit: nat, n: nat)
    requires HasEarned(sys, limit, n)
    ensures HasEarned(Reporting(sys, Rich(n + 1), EARNING), limit, n + 1)
  {
    hide Rich, Name, Retain;
  }

  lemma NothingInherited(before: nat, now: nat)
    ensures WithCapabilities(Some(Rich(before)), Rich(now)) == Rich(now)
  {
  }

  const READ_FROM_ZERO: seq<Step> := [FirstRead(1), Open(1), Read(1, true), Process(1, true)]

  /** Opening at cursor 0 sends nothing, whatever has been evicted. */
  lemma ZeroOpensQuietly(h: Handler, s: Stream)
    requires h.provided && h.cursor == 0
    ensures OnFirstRead(h, s).phase.Opening?
    ensures OnOpen(OnFirstRead(h, s)) == h.(phase := Reading, lastRead := s.nextCursor)
  {
    hide Beyond, Oldest;
  }

  lemma ReachesReading(limit: nat, steps: seq<Step>, sys: System) returns (next: System)
    requires Reaches(limit, steps, sys) && sys.handlers == map[1 := Client(0, true, Subscribed, 0, 0, 0, 0)]
    ensures next == Update(sys, 1, Client(0, true, Reading, 0, sys.stream.nextCursor, 0, 0))
    ensures Reaches(limit, steps + [FirstRead(1)] + [Open(1)], next)
  {
    hide Reaches, OnFirstRead, OnOpen;
    var h := sys.handlers[1];
    ZeroOpensQuietly(h, sys.stream);
    ReachesNext(limit, steps, sys, FirstRead(1));
    var read := Apply(sys, FirstRead(1));
    ReachesNext(limit, steps + [FirstRead(1)], read, Open(1));
    next := Apply(read, Open(1));
    assert next == Update(Update(sys, 1, OnFirstRead(h, sys.stream)), 1, OnOpen(OnFirstRead(h, sys.stream)));
    assert sys.handlers[1 := OnFirstRead(h, sys.stream)][1 := OnOpen(OnFirstRead(h, sys.stream))]
        == sys.handlers[1 := OnOpen(OnFirstRead(h, sys.stream))];
  }

  lemma ClientHasNoHistory(lastRead: nat, log: seq<Event>)
    ensures var h := Client(0, true, Reading, 0, lastRead, 0, 0);
            h.phase == Reading && h.cursor == 0 && History(h, log) && Origin(h)
  {
  }

  lemma InfoIsAccepted(e: Event)
    requires e.severity == "info"
    ensures Accepts(EVERYTHING, e)
  {
  }

  /** What a read and the first event after it make of a client at cursor 0. */
  lemma ReachesFirstEvent(limit: nat, steps: seq<Step>, sys: System, h: Handler) returns (next: System)
    requires Reaches(limit, steps, sys) && sys.handlers == map[1 := h] && RingInv(sys.stream, sys.log, limit)
    requires sys.log != [] && h.phase == Reading && h.cursor == 0 && History(h, sys.log) && Origin(h)
    ensures Reaches(limit, steps + [Read(1, true)] + [Process(1, true)], next) && next.log == sys.log
    ensures Evicted(sys.log, limit) < |sys.log|
    ensures var evicted := Evicted(sys.log, limit);
            && 1 in next.handlers && next.handlers[1].transcript == [Saw(evicted + 1)]
            && next.handlers[1].wire == if Accepts(h.filter, sys.log[evicted]) then [EventMessage(sys.log[evicted])]
                                        else []
  {
    hide Reaches, RingInv, OnRead, OnProcess, History, Origin, Accepts, Evicted;
    FirstEventFromZero(h, sys.stream, sys.log, limit);
    ReachesNext(limit, steps, sys, Read(1, true));
    var read := Apply(sys, Read(1, true));
    ReachesNext(limit, steps + [Read(1, true)], read, Process(1, true));
    next := Apply(read, Process(1, true));
  }

  lemma RingOfReached(limit: nat, steps: seq<Step>, sys: System)
    requires Reaches(limit, steps, sys)
    ensures RingInv(sys.stream, sys.log, sys.limit)
  {
    hide Run, RingInv, HandlerInv, GapInv;
    var states := RunOf(limit, steps, sys);
    RunKeepsInv(limit, states, steps, |steps|);
  }

  /**
   For every ring size: the client asks for everything from cursor 0 on, one
   event more than the ring holds is flushed, and the client is given the
   second event first, with no notice of the one before.
   */
  lemma CursorZeroLoses(limit: nat) returns (states: seq<System>, steps: seq<Step>)
    requires limit > 0
    ensures Run(limit, states, steps) && steps == [FROM_ZERO] + Earnings(limit) + READ_FROM_ZERO
    ensures var sys := states[|steps|];
            && |sys.log| == limit + 1 && Accepts(EVERYTHING, sys.log[0]) && Accepts(EVERYTHING, sys.log[1])
            && 1 in sys.handlers && sys.handlers[1].transcript == [Saw(2)]
            && sys.handlers[1].wire == [EventMessage(sys.log[1])]
  {
    hide Reaches, RingInv, Enabled, Apply, Run, Client, History, Origin, Accepts, EVERYTHING, Initial;
    var sys := ReachesEarnings(limit, limit);
    steps := [FROM_ZERO] + Earnings(limit);
    RingOfReached(limit, steps, sys);
    var begun := ReachesReading(limit, steps, sys);
    var h := Client(0, true, Reading, 0, sys.stream.nextCursor, 0, 0);
    assert begun.handlers == map[1 := h];
    ClientHasNoHistory(sys.stream.nextCursor, sys.log);
    var next := ReachesFirstEvent(limit, steps + [FirstRead(1)] + [Open(1)], begun, h);
    InfoIsAccepted(sys.log[0]);
    InfoIsAccepted(sys.log[1]);
    FilterOfClient(sys.stream.nextCursor);
    assert steps + [FirstRead(1)] + [Open(1)] + [Read(1, true)] + [Process(1, true)] == steps + READ_FROM_ZERO;
    steps := steps + READ_FROM_ZERO;
    states := RunOf(limit, steps, next);
  }

  lemma FilterOfClient(lastRead: nat)
    ensures Client(0, true, Reading, 0, lastRead, 0, 0).filter == EVERYTHING
  {
  }
}
