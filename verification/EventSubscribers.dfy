/**
 What the stream keeps of its subscribers and of the polls, over all runs:
 who is counted, when the idle timer is set, and which snapshot and HUD the
 next ones are compared with (AgentBridge/events.go:796-944).
 */
module EventSubscribers {
  import opened Common
  import opened Ordering
  import opened TacticalEvents
  import opened SnapshotDiff
  import opened HudDiff
  import opened EventStreams
  import opened EventProtocol
  import opened EventInvariant
  import opened EventSafety

  // ----- Who is counted

  ghost predicate IsConnected(sys: System, id: nat) {
    id in sys.handlers && sys.handlers[id].phase != Gone
  }

  /** The handlers that are connected and asked for the HUD. */
  ghost function HudClients(sys: System): set<nat> {
    set id | id in sys.handlers && sys.handlers[id].phase != Gone && sys.handlers[id].hud
  }

  ghost function CapabilityClients(sys: System): set<nat> {
    set id | id in sys.handlers && sys.handlers[id].phase != Gone && sys.handlers[id].capabilities
  }

  ghost predicate AreCounted(sys: System) {
    && sys.stream.hudSubscribers == |HudClients(sys)|
    && sys.stream.capabilitySubscribers == |CapabilityClients(sys)|
  }

  /** A handler's own step other than leaving keeps it connected, with its wishes. */
  lemma OwnStepKeepsWishes(sys: System, step: Step, id: nat)
    requires Enabled(sys, step) && IsStepOf(step, id) && !step.Leave?
    ensures IsConnected(sys, id) && IsConnected(Apply(sys, step), id)
    ensures Apply(sys, step).handlers[id].hud == sys.handlers[id].hud
    ensures Apply(sys, step).handlers[id].capabilities == sys.handlers[id].capabilities
  {
    hide After, Accepts, Lists, ListsEvents, Reported, Commit, Flush;
  }

  lemma OthersStayKnown(sys: System, step: Step, id: nat)
    requires Inv(sys) && Enabled(sys, step) && !step.Connect? && id !in sys.handlers
    ensures id !in Apply(sys, step).handlers
  {
    hide After, Accepts, Lists, ListsEvents, Reported, Commit, Flush, HandlerInv, RingInv, GapInv, OnFirstRead,
      OnSecondRead, OnOpen, OnRead, OnProcess, Unsubscribe, StopIdle;
  }

  /** Steps other than connecting and leaving do not change who is connected or what they want. */
  lemma WishesStay(sys: System, step: Step, id: nat)
    requires Inv(sys) && Enabled(sys, step) && !step.Connect? && !step.Leave?
    ensures IsConnected(Apply(sys, step), id) <==> IsConnected(sys, id)
    ensures IsConnected(sys, id) ==>
              && Apply(sys, step).handlers[id].hud == sys.handlers[id].hud
              && Apply(sys, step).handlers[id].capabilities == sys.handlers[id].capabilities
  {
    hide Enabled, Apply, HandlerInv, RingInv, GapInv, IsStepOf;
    if id !in sys.handlers {
      OthersStayKnown(sys, step, id);
    } else if IsStepOf(step, id) {
      OwnStepKeepsWishes(sys, step, id);
    } else {
      OthersLeaveHandler(sys, step, id);
    }
  }

  lemma CountsStay(sys: System, step: Step)
    requires Enabled(sys, step) && !step.Connect? && !step.Leave?
    ensures Apply(sys, step).stream.hudSubscribers == sys.stream.hudSubscribers
    ensures Apply(sys, step).stream.capabilitySubscribers == sys.stream.capabilitySubscribers
  {
    hide After, Accepts, Lists, ListsEvents, Reported, Retain, Numbered, OnFirstRead, OnSecondRead, OnOpen, OnRead,
      OnProcess, Committed, WithCapabilities, Heard;
  }

  lemma ConnectCounts(sys: System, step: Step)
    requires step.Connect? && Enabled(sys, step)
    ensures var next := Apply(sys, step).stream;
            && next.hudSubscribers == sys.stream.hudSubscribers + One(step.hud)
            && next.capabilitySubscribers == sys.stream.capabilitySubscribers + One(step.capabilities)
  {
  }

  lemma NewcomerIsClient(sys: System, step: Step)
    requires step.Connect? && Enabled(sys, step) && sys.stream.nextSubscriber + 1 !in sys.handlers
    ensures var next, id := Apply(sys, step), sys.stream.nextSubscriber + 1;
            && HudClients(next) == HudClients(sys) + (if step.hud then {id} else {})
            && CapabilityClients(next) == CapabilityClients(sys) + (if step.capabilities then {id} else {})
  {
  }

  lemma NumberIsNew(sys: System)
    requires Inv(sys)
    ensures sys.stream.nextSubscriber + 1 !in sys.handlers
  {
    hide HandlerInv, RingInv, GapInv;
  }

  lemma LeaveCounts(sys: System, id: nat)
    requires Enabled(sys, Leave(id)) && id in sys.stream.subscribers
    ensures var next, h := Apply(sys, Leave(id)).stream, sys.handlers[id];
            && next.hudSubscribers == sys.stream.hudSubscribers - One(h.hud)
            && next.capabilitySubscribers == sys.stream.capabilitySubscribers - One(h.capabilities)
  {
  }

  lemma LeaverIsNoClient(sys: System, id: nat)
    requires Enabled(sys, Leave(id))
    ensures HudClients(Apply(sys, Leave(id))) == HudClients(sys) - {id}
    ensures CapabilityClients(Apply(sys, Leave(id))) == CapabilityClients(sys) - {id}
  {
    hide Unsubscribe;
  }

  lemma LeaverIsSubscribed(sys: System, id: nat)
    requires Inv(sys) && Enabled(sys, Leave(id))
    ensures id in sys.stream.subscribers
  {
    hide RingInv, GapInv, History, Origin, PhaseInv, ResumesAcrossGap, ToldToResync;
  }

  lemma CountOfMore(clients: set<nat>, id: nat, wants: bool)
    requires id !in clients
    ensures |clients + (if wants then {id} else {})| == |clients| + One(wants)
  {
    assert clients + {} == clients;
  }

  lemma CountOfLess(clients: set<nat>, id: nat, wants: bool)
    requires id in clients <==> wants
    ensures |clients - {id}| == |clients| - One(wants)
    ensures clients != {} && !(wants && |clients| == 1) ==> clients - {id} != {}
  {
    if wants {
      assert clients == (clients - {id}) + {id};
    } else {
      assert clients - {id} == clients;
    }
  }

  lemma OthersKeepClients(sys: System, step: Step)
    requires Inv(sys) && Enabled(sys, step) && !step.Connect? && !step.Leave?
    ensures HudClients(Apply(sys, step)) == HudClients(sys)
    ensures CapabilityClients(Apply(sys, step)) == CapabilityClients(sys)
  {
    hide Inv, Enabled, Apply;
    forall id ensures id in HudClients(Apply(sys, step)) <==> id in HudClients(sys) {
      WishesStay(sys, step, id);
    }
    forall id ensures id in CapabilityClients(Apply(sys, step)) <==> id in CapabilityClients(sys) {
      WishesStay(sys, step, id);
    }
  }

  lemma StepKeepsCounts(sys: System, step: Step)
    requires Inv(sys) && Enabled(sys, step) && AreCounted(sys)
    ensures AreCounted(Apply(sys, step))
  {
    hide Inv, Enabled, Apply, HudClients, CapabilityClients;
    if step.Connect? {
      var id := sys.stream.nextSubscriber + 1;
      NumberIsNew(sys);
      NewIsNoClient(sys, id);
      ConnectCounts(sys, step);
      NewcomerIsClient(sys, step);
      CountOfMore(HudClients(sys), id, step.hud);
      CountOfMore(CapabilityClients(sys), id, step.capabilities);
    } else if step.Leave? {
      LeaverIsSubscribed(sys, step.id);
      LeaverIsClient(sys, step.id);
      LeaveCounts(sys, step.id);
      LeaverIsNoClient(sys, step.id);
      CountOfLess(HudClients(sys), step.id, sys.handlers[step.id].hud);
      CountOfLess(CapabilityClients(sys), step.id, sys.handlers[step.id].capabilities);
    } else {
      OthersKeepClients(sys, step);
      CountsStay(sys, step);
    }
  }

  lemma NewIsNoClient(sys: System, id: nat)
    requires id !in sys.handlers
    ensures id !in HudClients(sys) && id !in CapabilityClients(sys)
  {
  }

  lemma LeaverIsClient(sys: System, id: nat)
    requires Enabled(sys, Leave(id))
    ensures id in HudClients(sys) <==> sys.handlers[id].hud
    ensures id in CapabilityClients(sys) <==> sys.handlers[id].capabilities
    ensures id in sys.handlers
  {
  }

  /** After every run the counts are the numbers of connected handlers that asked. */
  lemma {:induction false} ClientsAreCounted(limit: nat, states: seq<System>, steps: seq<Step>, k: nat)
    requires Run(limit, states, steps) && k <= |steps|
    ensures AreCounted(states[k])
  {
    hide Enabled, Apply, Inv, AreCounted;
    if k == 0 {
      NobodyIsCounted(limit);
    } else {
      ClientsAreCounted(limit, states, steps, k - 1);
      RunKeepsInv(limit, states, steps, k - 1);
      StepKeepsCounts(states[k - 1], steps[k - 1]);
    }
  }

  lemma NobodyIsCounted(limit: nat)
    ensures AreCounted(Initial(limit))
  {
    assert HudClients(Initial(limit)) == {} && CapabilityClients(Initial(limit)) == {};
  }

  // ----- The HUD

  /** Someone connected asked for the HUD. */
  ghost predicate HudIsWanted(sys: System) {
    exists id :: IsConnected(sys, id) && sys.handlers[id].hud
  }

  lemma WantedMeansCounted(sys: System)
    requires AreCounted(sys)
    ensures HudIsWanted(sys) <==> sys.stream.hudSubscribers > 0
  {
    if HudIsWanted(sys) {
      var id :| IsConnected(sys, id) && sys.handlers[id].hud;
      assert id in HudClients(sys);
    }
    if sys.stream.hudSubscribers > 0 {
      var id :| id in HudClients(sys);
      assert IsConnected(sys, id);
    }
  }

  /**
   A poll that brings a HUD while someone connected asked for it stores it
   and merges, after the world's changes, all that differs from the HUD
   before; otherwise it leaves the HUD before alone and merges the world's
   changes only.
   */
  lemma WantedHudIsMerged(limit: nat, states: seq<System>, steps: seq<Step>, k: nat)
    requires Run(limit, states, steps) && k < |steps| && steps[k].CommitStep?
    ensures var s, next, hud := states[k].stream, states[k + 1].stream, steps[k].shown;
            && next.previous.Some?
            && (hud.Some? && HudIsWanted(states[k]) ==>
                  && next.previousHud == hud
                  && next.pending == MergeAllIntoPending(s.pending, steps[k].changes
                                       + HudEvents(s.previousHud, hud.value, next.previous.value)))
            && (hud.None? || !HudIsWanted(states[k]) ==>
                  && next.previousHud == s.previousHud
                  && next.pending == MergeAllIntoPending(s.pending, steps[k].changes))
  {
    hide Initial, HudEvents, MergeAllIntoPending, WithCapabilities, HudIsWanted, AreCounted, ListsEvents, Reported;
    ClientsAreCounted(limit, states, steps, k);
    WantedMeansCounted(states[k]);
  }

  /** Nothing is remembered of the HUD while nobody connected wants it. */
  ghost predicate HudIsKept(sys: System) {
    sys.stream.previousHud.Some? ==> HudClients(sys) != {}
  }

  lemma PreviousHudAfterStep(sys: System, step: Step)
    requires Enabled(sys, step)
    ensures var s, next := sys.stream, Apply(sys, step).stream;
            match step
            case CommitStep(_, _, hud) =>
              next.previousHud == if hud.Some? && s.hudSubscribers > 0 then hud else s.previousHud
            case Leave(id) =>
              next.previousHud.Some? ==>
                next.previousHud == s.previousHud
                && !(id in s.subscribers && sys.handlers[id].hud && s.hudSubscribers == 1)
            case IdleStep => next.previousHud == None || next.previousHud == s.previousHud
            case _ => next.previousHud == s.previousHud
  {
    hide After, Accepts, Lists, ListsEvents, Reported, Retain, Numbered, OnFirstRead, OnSecondRead, OnOpen, OnRead,
      OnProcess, Committed, WithCapabilities;
  }

  lemma StepKeepsHud(sys: System, step: Step)
    requires Inv(sys) && Enabled(sys, step) && AreCounted(sys) && HudIsKept(sys)
    ensures HudIsKept(Apply(sys, step))
  {
    hide Inv, Enabled, Apply, HudClients, CapabilityClients;
    PreviousHudAfterStep(sys, step);
    if step.Connect? {
      NumberIsNew(sys);
      NewcomerIsClient(sys, step);
    } else if step.Leave? {
      LeaverIsSubscribed(sys, step.id);
      LeaverIsClient(sys, step.id);
      LeaverIsNoClient(sys, step.id);
      CountOfLess(HudClients(sys), step.id, sys.handlers[step.id].hud);
    } else {
      OthersKeepClients(sys, step);
    }
  }

  /** Whoever asks for the HUD when nobody else does is not told of changes since an older one. */
  lemma {:induction false} HudIsForgotten(limit: nat, states: seq<System>, steps: seq<Step>, k: nat)
    requires Run(limit, states, steps) && k <= |steps|
    ensures HudIsKept(states[k])
  {
    hide Enabled, Apply, Inv, AreCounted, HudIsKept;
    if k == 0 {
      NoHudAtFirst(limit);
    } else {
      HudIsForgotten(limit, states, steps, k - 1);
      RunKeepsInv(limit, states, steps, k - 1);
      ClientsAreCounted(limit, states, steps, k - 1);
      StepKeepsHud(states[k - 1], steps[k - 1]);
    }
  }

  lemma NoHudAtFirst(limit: nat)
    ensures HudIsKept(Initial(limit))
  {
  }

  // ----- The idle timer

  /** The timer is set exactly while the poller runs for nobody. */
  ghost predicate TimerIsRight(s: Stream) {
    s.idleTimer <==> s.running && s.subscribers == map[]
  }

  lemma StepKeepsTimer(sys: System, step: Step)
    requires Inv(sys) && Enabled(sys, step) && TimerIsRight(sys.stream)
    ensures TimerIsRight(Apply(sys, step).stream)
  {
    hide After, Accepts, Lists, ListsEvents, Reported, Retain, Numbered, OnFirstRead, OnSecondRead, OnOpen, OnRead,
      OnProcess, Committed, WithCapabilities, Heard, HandlerInv, RingInv, GapInv;
    if step.Leave? {
      LeaverIsSubscribed(sys, step.id);
    }
    if step.Wake? {
      assert step.id in Apply(sys, step).stream.subscribers;
    }
    if step.Connect? {
      assert sys.stream.nextSubscriber + 1 in Apply(sys, step).stream.subscribers;
    }
    if step.FlushStep? {
      SlotsOf(sys.stream.subscribers);
    }
  }

  lemma SlotsOf(subscribers: map<nat, bool>)
    ensures (map id | id in subscribers :: true).Keys == subscribers.Keys
    ensures (map id | id in subscribers :: true) == map[] <==> subscribers == map[]
  {
    var full := map id | id in subscribers :: true;
    if subscribers != map[] {
      var id :| id in subscribers;
      assert id in full;
    }
  }

  /** So a poller that has lost its last client is stopped when the timer fires, and no other is. */
  lemma {:induction false} TimerIsSetForNobody(limit: nat, states: seq<System>, steps: seq<Step>, k: nat)
    requires Run(limit, states, steps) && k <= |steps|
    ensures TimerIsRight(states[k].stream)
    ensures k < |steps| && steps[k].IdleStep? ==> (IdleStop(states[k], steps[k]) <==> states[k].stream.idleTimer)
  {
    hide Enabled, Apply, Inv;
    if k > 0 {
      TimerIsSetForNobody(limit, states, steps, k - 1);
      RunKeepsInv(limit, states, steps, k - 1);
      StepKeepsTimer(states[k - 1], steps[k - 1]);
    }
  }

  // ----- What the next snapshot is compared with

  /** The last snapshot committed since the poller last stopped. */
  ghost function LastSnapshot(states: seq<System>, steps: seq<Step>, k: nat): Option<Snapshot>
    requires k <= |steps| < |states|
  {
    if k == 0 then None
    else if steps[k - 1].CommitStep? then Some(steps[k - 1].snapshot)
    else if IdleStop(states[k - 1], steps[k - 1]) then None
    else LastSnapshot(states, steps, k - 1)
  }

  /** The capabilities last sent since then: a snapshot may come without. */
  ghost function LastCapabilities(states: seq<System>, steps: seq<Step>, k: nat): Option<seq<Capability>>
    requires k <= |steps| < |states|
  {
    if k == 0 then None
    else if steps[k - 1].CommitStep? && steps[k - 1].snapshot.capabilities.Some? then steps[k - 1].snapshot.capabilities
    else if IdleStop(states[k - 1], steps[k - 1]) then None
    else LastCapabilities(states, steps, k - 1)
  }

  lemma PreviousAfterStep(sys: System, step: Step)
    requires Enabled(sys, step)
    ensures Apply(sys, step).stream.previous ==
            if step.CommitStep? then Some(WithCapabilities(sys.stream.previous, step.snapshot))
            else if IdleStop(sys, step) then None else sys.stream.previous
  {
    hide After, Accepts, Lists, ListsEvents, Reported, Retain, Numbered, OnFirstRead, OnSecondRead, OnOpen, OnRead,
      OnProcess, Committed, WithCapabilities, Heard;
  }

  /**
   The next snapshot is compared with the last one since the poller stopped,
   with the capabilities last sent; right after a stop with none, so that a
   baseline follows.
   */
  lemma {:induction false} ComparedWithTheLast(limit: nat, states: seq<System>, steps: seq<Step>, k: nat)
    requires Run(limit, states, steps) && k <= |steps|
    ensures var last, previous := LastSnapshot(states, steps, k), states[k].stream.previous;
            && (previous.None? <==> last.None?)
            && (last.None? ==> LastCapabilities(states, steps, k) == None)
            && (last.Some? ==> previous.value
                                 == last.value.(capabilities := LastCapabilities(states, steps, k)))
  {
    hide Enabled, Apply, IdleStop;
    if k > 0 {
      ComparedWithTheLast(limit, states, steps, k - 1);
      PreviousAfterStep(states[k - 1], steps[k - 1]);
      StopIsNoCommit(states[k - 1], steps[k - 1]);
    }
  }

  lemma StopIsNoCommit(sys: System, step: Step)
    ensures IdleStop(sys, step) ==> !step.CommitStep?
  {
  }
}
