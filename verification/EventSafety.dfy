/**
 What every run of the tactical event stream guarantees its clients.
 */
module EventSafety {
  import opened Ordering
  import opened TacticalEvents
  import opened SnapshotDiff
  import opened EventStreams
  import opened EventProtocol
  import opened EventInvariant

  ghost predicate Run(limit: nat, states: seq<System>, steps: seq<Step>) {
    && limit > 0
    && |states| == |steps| + 1
    && states[0] == Initial(limit)
    && forall i :: 0 <= i < |steps| ==> Enabled(states[i], steps[i]) && states[i + 1] == Apply(states[i], steps[i])
  }

  lemma {:induction false} RunKeepsInv(limit: nat, states: seq<System>, steps: seq<Step>, k: nat)
    requires Run(limit, states, steps) && k <= |steps|
    ensures Inv(states[k])
  {
    hide Inv, Initial, Enabled, Apply;
    if k == 0 {
      Initially(limit);
    } else {
      RunKeepsInv(limit, states, steps, k - 1);
      StepKeeps(states[k - 1], steps[k - 1]);
    }
  }

  lemma InvFacts(sys: System)
    requires Inv(sys)
    ensures |sys.log| == |sys.epochs| && forall c :: 0 <= c < |sys.log| ==> sys.log[c].cursor == c + 1
  {
    hide HandlerInv, GapInv, Newest;
  }

  // ----- No silent loss

  /**
   Whatever the interleaving, a handler has gone past each cursor after its
   base exactly once, by reading it or by a resync notice, and has written
   the notices and the accepted events and nothing else. A client's own
   positive cursor is the base.
   */
  lemma NoSilentLoss(limit: nat, states: seq<System>, steps: seq<Step>, k: nat, id: nat, cursor: nat)
    requires Run(limit, states, steps) && k <= |steps| && id in states[k].handlers
    ensures var h := states[k].handlers[id];
            && h.wire == Project(h.transcript, states[k].log, h.filter)
            && (h.start > 0 ==> h.base == h.start)
            && (h.base < cursor <= h.cursor <==> exists i :: 0 <= i < |h.transcript| && Passes(h.transcript[i], cursor))
            && (forall i, j :: 0 <= i < j < |h.transcript| && Passes(h.transcript[i], cursor) ==>
                  !Passes(h.transcript[j], cursor))
  {
    hide Project, Chain, PhaseInv, GapInv, RingInv, Enabled, Apply;
    RunKeepsInv(limit, states, steps, k);
    var h := states[k].handlers[id];
    ChainPassesOnce(h.base, h.transcript, h.cursor, cursor);
  }

  /**
   A handler that was never told to resync has read every cursor after its
   base in increasing order, once, and written exactly those events of that
   stretch of the log that its filter accepts.
   */
  lemma InOrderWithoutResync(limit: nat, states: seq<System>, steps: seq<Step>, k: nat, id: nat)
    requires Run(limit, states, steps) && k <= |steps| && id in states[k].handlers
    requires var h := states[k].handlers[id];
             h.transcript != [] && forall i :: 0 <= i < |h.transcript| ==> h.transcript[i].Saw?
    ensures var h := states[k].handlers[id];
            && h.base <= h.cursor <= |states[k].log|
            && h.transcript == Consecutive(h.base, h.cursor)
            && h.wire == AcceptedEvents(states[k].log[h.base..h.cursor], h.filter)
  {
    hide Project, Chain, PhaseInv, GapInv, RingInv, Enabled, Apply, AcceptedEvents;
    RunKeepsInv(limit, states, steps, k);
    var h := states[k].handlers[id];
    ChainWithoutResync(h.base, h.transcript, h.cursor);
    ProjectWithoutResync(h.base, h.cursor, states[k].log, h.filter);
  }

  /** Cursors are assigned once: the log only grows, and its events are numbered from one. */
  lemma {:induction false} TheLogOnlyGrows(limit: nat, states: seq<System>, steps: seq<Step>, i: nat, j: nat)
    requires Run(limit, states, steps) && i <= j <= |steps|
    ensures states[i].log <= states[j].log
    ensures forall c :: 0 <= c < |states[j].log| ==> states[j].log[c].cursor == c + 1
  {
    hide Initial, Enabled, Apply, Inv;
    RunKeepsInv(limit, states, steps, j);
    InvFacts(states[j]);
    if i < j {
      TheLogOnlyGrows(limit, states, steps, i, j - 1);
      OneStepExtendsTheLog(states[j - 1], steps[j - 1]);
    }
  }

  lemma OneStepExtendsTheLog(sys: System, step: Step)
    requires Enabled(sys, step)
    ensures sys.log <= Apply(sys, step).log
  {
    hide Numbered, Retain, Reported, Lists, ListsEvents, OnFirstRead, OnSecondRead, OnOpen, OnRead, OnProcess;
  }

  // ----- Overflow

  /**
   When a handler with a positive cursor reads: if the ring has evicted an
   event it had not read, and only then, it is told to resync and moves to
   the current cursor; otherwise it gets every later event, in order.
   */
  lemma EvictionIsReported(limit: nat, states: seq<System>, steps: seq<Step>, k: nat, id: nat)
    requires Run(limit, states, steps) && k < |steps| && steps[k] == Read(id, true) && states[k].handlers[id].cursor > 0
    ensures var sys, h, after := states[k], states[k].handlers[id], states[k + 1].handlers[id];
            && h.cursor <= |sys.log|
            && (h.cursor < Evicted(sys.log, limit) ==>
                  after.cursor == |sys.log| && after.transcript == h.transcript + [Skipped(h.cursor, |sys.log|)]
                  && after.wire == h.wire + [ResyncMessage(|sys.log|)])
            && (h.cursor >= Evicted(sys.log, limit) ==>
                  after == h.(phase := Processing(sys.log[h.cursor..]), lastRead := |sys.log|))
  {
    hide Initial, Enabled, Apply, HandlerInv, History, Origin, GapInv, RingInv, After, Evicted;
    RunKeepsInv(limit, states, steps, k);
    LimitIsFixed(limit, states, steps, k);
    var sys := states[k];
    ReadStep(sys, id);
    var h := sys.handlers[id];
    HandlerFacts(h, id in sys.stream.subscribers, Token(sys.stream, id), sys.log, sys.epochs, sys.epoch);
    AfterReadsTheLog(sys.stream, sys.log, limit, h.cursor);
  }

  lemma {:induction false} LimitIsFixed(limit: nat, states: seq<System>, steps: seq<Step>, k: nat)
    requires Run(limit, states, steps) && k <= |steps|
    ensures states[k].limit == limit
  {
    hide Enabled, Commit, Flush, StopIdle, Unsubscribe, Subscribe, OnFirstRead, OnSecondRead, OnOpen, OnRead, OnProcess;
    if k > 0 {
      LimitIsFixed(limit, states, steps, k - 1);
    }
  }

  // ----- Wakeups

  lemma WaitingFacts(sys: System, id: nat)
    requires Inv(sys) && In(sys, id, Waiting)
    ensures sys.handlers[id].cursor == sys.handlers[id].lastRead <= |sys.log|
    ensures sys.handlers[id].cursor < |sys.log| ==> Token(sys.stream, id)
  {
    hide History, Origin, GapInv, RingInv, ToldToResync, ResumesAcrossGap;
  }

  lemma TokenWakes(sys: System, id: nat)
    requires In(sys, id, Waiting) && Token(sys.stream, id)
    ensures Enabled(sys, Wake(id))
  {
  }

  /** A handler waits only at the position of its last read, and a waiting handler with events to read can wake. */
  lemma NoLostWakeup(limit: nat, states: seq<System>, steps: seq<Step>, k: nat, id: nat)
    requires Run(limit, states, steps) && k <= |steps| && In(states[k], id, Waiting)
    ensures states[k].handlers[id].cursor == states[k].handlers[id].lastRead <= |states[k].log|
    ensures states[k].handlers[id].cursor < |states[k].log| ==> Enabled(states[k], Wake(id))
  {
    hide Initial, Apply, Inv, Enabled, Token;
    RunKeepsInv(limit, states, steps, k);
    WaitingFacts(states[k], id);
    if states[k].handlers[id].cursor < |states[k].log| {
      TokenWakes(states[k], id);
    }
  }

  // ----- Idle gaps

  /** The steps at which the idle timer finds no subscriber and stops the poller. */
  ghost predicate IdleStop(sys: System, step: Step) {
    step.IdleStep? && sys.stream.subscribers == map[] && sys.stream.running
  }

  lemma OnlyIdleStopsMoveTheGap(sys: System, step: Step)
    requires Enabled(sys, step)
    ensures Apply(sys, step).stream.gapCursor ==
            if IdleStop(sys, step) then sys.stream.nextCursor + 1 else sys.stream.gapCursor
  {
    hide Numbered, Retain, Reported, Lists, ListsEvents, MergeAllIntoPending, WithCapabilities, OnFirstRead,
      OnSecondRead, OnOpen, OnRead, OnProcess;
  }

  lemma {:induction false} GapIsStableBetweenStops(limit: nat, states: seq<System>, steps: seq<Step>, i: nat, j: nat)
    requires Run(limit, states, steps) && i <= j <= |steps|
    requires forall k :: i <= k < j ==> !IdleStop(states[k], steps[k])
    ensures states[j].stream.gapCursor == states[i].stream.gapCursor
  {
    hide Initial, Enabled, Apply, IdleStop;
    if i < j {
      GapIsStableBetweenStops(limit, states, steps, i, j - 1);
      OnlyIdleStopsMoveTheGap(states[j - 1], steps[j - 1]);
    }
  }

  /** gapCursor does not move while anyone is subscribed, though stale idle timers may fire. */
  lemma GapIsStableWhileSubscribed(limit: nat, states: seq<System>, steps: seq<Step>, i: nat, j: nat)
    requires Run(limit, states, steps) && i <= j <= |steps|
    requires forall k :: i <= k < j ==> states[k].stream.subscribers != map[]
    ensures states[j].stream.gapCursor == states[i].stream.gapCursor
  {
    hide Initial, Enabled, Apply;
    GapIsStableBetweenStops(limit, states, steps, i, j);
  }

  /**
   After the latest idle stop, a positive cursor that the stream has assigned
   is reported stale exactly when it had been assigned by that stop.
   */
  lemma StaleExactlyBeforeTheLastStop(limit: nat, states: seq<System>, steps: seq<Step>, stop: nat, now: nat,
                                      cursor: nat)
    requires Run(limit, states, steps) && stop < now <= |steps| && IdleStop(states[stop], steps[stop])
    requires forall k :: stop < k < now ==> !IdleStop(states[k], steps[k])
    requires 0 < cursor <= |states[now].log|
    ensures After(states[now].stream, cursor).stale <==> cursor <= |states[stop].log|
  {
    hide Initial, Enabled, Apply, Beyond, Oldest, HandlerInv, Newest;
    RunKeepsInv(limit, states, steps, stop);
    OnlyIdleStopsMoveTheGap(states[stop], steps[stop]);
    GapIsStableBetweenStops(limit, states, steps, stop + 1, now);
  }

  /** Before any idle stop no cursor is stale. */
  lemma NothingStaleBeforeAnyStop(limit: nat, states: seq<System>, steps: seq<Step>, now: nat, cursor: nat)
    requires Run(limit, states, steps) && now <= |steps|
    requires forall k :: 0 <= k < now ==> !IdleStop(states[k], steps[k])
    ensures !After(states[now].stream, cursor).stale
  {
    hide Enabled, Apply, Beyond, Oldest;
    GapIsStableBetweenStops(limit, states, steps, 0, now);
  }

  /**
   A client that resumes, with its own positive cursor, across an idle stop
   that preceded its subscription is told to resync before anything else.
   */
  lemma ResumedClientsLearnOfTheGap(limit: nat, states: seq<System>, steps: seq<Step>, k: nat, id: nat)
    requires Run(limit, states, steps) && k <= |steps| && id in states[k].handlers && Started(states[k].handlers[id])
    requires ResumesAcrossGap(states[k].handlers[id], states[k].epochs)
    ensures var h := states[k].handlers[id];
            && h.wire != [] && h.wire[0].ResyncMessage?
            && h.transcript != [] && h.transcript[0] == Skipped(h.start, To(h.transcript[0]))
  {
    hide Chain, PhaseInv, GapInv, RingInv, Enabled, Apply, Project;
    RunKeepsInv(limit, states, steps, k);
    var h := states[k].handlers[id];
    ProjectOpensWith(h.transcript, states[k].log, h.filter);
  }

  /** A transcript that opens with a resync is sent as messages that do. */
  lemma {:induction false} ProjectOpensWith(items: seq<Item>, log: seq<Event>, f: Filter)
    requires items != [] && items[0].Skipped?
    ensures Project(items, log, f) != [] && Project(items, log, f)[0] == ResyncMessage(items[0].to)
  {
    hide Accepts;
    if |items| > 1 {
      ProjectOpensWith(items[..|items| - 1], log, f);
    } else {
      assert Project(items[..0], log, f) == [];
    }
  }

  /** Every entry of `epochs` is the number of idle stops before its event was flushed. */
  lemma {:induction false} EpochsCountIdleStops(limit: nat, states: seq<System>, steps: seq<Step>, k: nat, i: nat)
    returns (flush: nat)
    requires Run(limit, states, steps) && k <= |steps| && i < |states[k].epochs|
    ensures flush < k && |states[flush].log| <= i < |states[flush + 1].log|
    ensures states[k].epochs[i] == states[flush].epoch
  {
    hide Enabled, Apply, Inv;
    if k == 0 {
      assert false;
    } else {
      RunKeepsInv(limit, states, steps, k - 1);
      InvFacts(states[k - 1]);
      EpochsGrow(states[k - 1], steps[k - 1]);
      if i < |states[k - 1].log| {
        flush := EpochsCountIdleStops(limit, states, steps, k - 1, i);
      } else {
        flush := k - 1;
      }
    }
  }

  lemma EpochsGrow(sys: System, step: Step)
    requires Enabled(sys, step) && |sys.log| == |sys.epochs|
    ensures var next := Apply(sys, step);
            && |next.log| == |next.epochs| && sys.epochs <= next.epochs
            && (forall i :: |sys.epochs| <= i < |next.epochs| ==> next.epochs[i] == sys.epoch)
            && next.epoch == sys.epoch + (if IdleStop(sys, step) then 1 else 0)
  {
    hide Retain, Reported, Lists, ListsEvents, MergeAllIntoPending, WithCapabilities, OnFirstRead, OnSecondRead,
      OnOpen, OnRead, OnProcess;
  }

  // ----- Leaving

  /** What can fail to be written: a heartbeat, a resync notice, or an event that the filter accepts. */
  ghost predicate WriteFails(sys: System, step: Step, id: nat)
    requires id in sys.handlers
  {
    var h := sys.handlers[id];
    || step == Heartbeat(id, false)
    || (step == Read(id, false) && After(sys.stream, h.cursor).overflow)
    || (step == Process(id, false) && h.phase.Processing? && h.phase.todo != [] && Accepts(h.filter, h.phase.todo[0]))
  }

  /** A handler leaves its loop exactly when its client or session ends, or such a write fails. */
  lemma LeavesTheLoop(sys: System, step: Step, id: nat)
    requires Enabled(sys, step) && IsStepOf(step, id) && id in sys.handlers
    requires var h := sys.handlers[id]; h.phase.Reading? || h.phase.Processing? || h.phase.Waiting?
    ensures id in Apply(sys, step).handlers
    ensures Apply(sys, step).handlers[id].phase == Leaving <==> step == Cancel(id) || WriteFails(sys, step, id)
  {
    hide After, Accepts, Lists, ListsEvents, Reported, Commit, Flush, StopIdle, Subscribe, Unsubscribe;
  }

  // ----- Where the guarantees end

  /** The step is one of the handler's own. */
  ghost predicate IsStepOf(step: Step, id: nat) {
    match step
    case CommitStep(_, _, _) => false
    case FlushStep(_) => false
    case IdleStep => false
    case Connect(_, _, _, _, _) => false
    case FirstRead(n) => n == id
    case SecondRead(n) => n == id
    case Open(n) => n == id
    case Read(n, _) => n == id
    case Process(n, _) => n == id
    case Park(n) => n == id
    case Wake(n) => n == id
    case Heartbeat(n, _) => n == id
    case Cancel(n) => n == id
    case Leave(n) => n == id
  }

  lemma OthersLeaveHandler(sys: System, step: Step, id: nat)
    requires Enabled(sys, step) && id in sys.handlers && id <= sys.stream.nextSubscriber && !IsStepOf(step, id)
    ensures id in Apply(sys, step).handlers && Apply(sys, step).handlers[id] == sys.handlers[id]
  {
    hide Commit, Flush, StopIdle, Numbered, Lists, ListsEvents, Reported, WithCapabilities, Unsubscribe, OnFirstRead,
      OnSecondRead, OnOpen, OnRead, OnProcess, After;
  }

  lemma {:induction false} HandlerUntouched(limit: nat, states: seq<System>, steps: seq<Step>, id: nat, a: nat, b: nat)
    requires Run(limit, states, steps) && a <= b <= |steps| && id in states[a].handlers
    requires forall i :: a <= i < b ==> !IsStepOf(steps[i], id)
    ensures id in states[b].handlers && states[b].handlers[id] == states[a].handlers[id]
  {
    hide Initial, Enabled, Apply, HandlerInv, RingInv, GapInv, IsStepOf;
    if a < b {
      HandlerUntouched(limit, states, steps, id, a, b - 1);
      RunKeepsInv(limit, states, steps, b - 1);
      OthersLeaveHandler(states[b - 1], steps[b - 1], id);
    }
  }

  /**
   A handler that reads from cursor 0 is given only what the ring still
   holds, with no notice of the rest: it silently misses exactly the events
   already evicted, and none if there are none. Step `j` is the handler's
   next one after the read, whatever the others do in between.
   */
  lemma CursorZeroSkipsTheEvicted(limit: nat, states: seq<System>, steps: seq<Step>, k: nat, j: nat, id: nat)
    requires Run(limit, states, steps) && k < j < |steps| && states[k].log != []
    requires steps[k] == Read(id, true) && states[k].handlers[id].cursor == 0 && steps[j] == Process(id, true)
    requires forall i :: k < i < j ==> !IsStepOf(steps[i], id)
    ensures id in states[j + 1].handlers
    ensures var evicted, h, after := Evicted(states[k].log, limit), states[k].handlers[id], states[j + 1].handlers[id];
            && h.wire == []
            && after.base == evicted && after.transcript == [Saw(evicted + 1)]
            && after.wire == if Accepts(h.filter, states[k].log[evicted])
                             then [EventMessage(states[k].log[evicted])] else []
  {
    hide Project, Chain, HandlerInv, History, Origin, RingInv, GapInv, OnRead, OnProcess, IsStepOf, Enabled, Apply,
      Accepts, Evicted;
    RunKeepsInv(limit, states, steps, k);
    LimitIsFixed(limit, states, steps, k);
    var sys := states[k];
    ReadStep(sys, id);
    HandlerFacts(sys.handlers[id], id in sys.stream.subscribers, Token(sys.stream, id), sys.log, sys.epochs, sys.epoch);
    FirstEventFromZero(sys.handlers[id], sys.stream, sys.log, limit);
    HandlerUntouched(limit, states, steps, id, k + 1, j);
    ProcessStep(states[j], id);
  }

  lemma ReadStep(sys: System, id: nat)
    requires Enabled(sys, Read(id, true))
    ensures In(sys, id, Reading) && id in Apply(sys, Read(id, true)).handlers
    ensures Apply(sys, Read(id, true)).handlers[id] == OnRead(sys.handlers[id], sys.stream, true)
  {
    hide OnRead;
  }

  lemma ProcessStep(sys: System, id: nat)
    requires Enabled(sys, Process(id, true))
    ensures id in sys.handlers && sys.handlers[id].phase.Processing? && sys.handlers[id].phase.todo != []
    ensures id in Apply(sys, Process(id, true)).handlers
    ensures Apply(sys, Process(id, true)).handlers[id] == OnProcess(sys.handlers[id], true)
  {
    hide OnProcess;
  }

  lemma FirstEventFromZero(h: Handler, s: Stream, log: seq<Event>, limit: nat)
    requires RingInv(s, log, limit) && log != []
    requires h.phase == Reading && h.cursor == 0 && History(h, log) && Origin(h)
    ensures Evicted(log, limit) < |log|
    ensures h.wire == []
    ensures OnRead(h, s, true).phase.Processing? && OnRead(h, s, true).phase.todo != []
    ensures var evicted, after := Evicted(log, limit), OnProcess(OnRead(h, s, true), true);
            && after.base == evicted && after.transcript == [Saw(evicted + 1)]
            && after.wire == if Accepts(h.filter, log[evicted]) then [EventMessage(log[evicted])] else []
  {
    hide Chain, After, Newest, Accepts;
    AfterReadsTheLog(s, log, limit, 0);
  }

  /** What is decided about a client without a cursor when it is positioned at `a` and reads again at `b`. */
  lemma NewcomerOpens(h: Handler, first: Stream, log: seq<Event>, second: Stream, later: seq<Event>, limit: nat)
    requires RingInv(first, log, limit) && RingInv(second, later, limit) && |log| <= |later|
    requires first.gapCursor == second.gapCursor && !h.provided && h.wire == []
    ensures var begun := OnOpen(OnSecondRead(OnFirstRead(h, first), second));
            begun.wire == if 0 < |log| && (|log| < first.gapCursor || |log| < Evicted(later, limit))
                           then [ResyncMessage(|later|)] else []
  {
    hide RingInv, Newest, Evicted, Beyond, Oldest;
    AfterReadsTheLog(first, log, limit, h.cursor);
    AfterReadsTheLog(second, later, limit, |log|);
  }

  lemma SubscribersPreventIdleStops(limit: nat, states: seq<System>, steps: seq<Step>, id: nat, k: nat)
    requires Run(limit, states, steps) && k < |steps| && id in states[k].handlers
             && states[k].handlers[id].phase != Gone
    ensures !IdleStop(states[k], steps[k])
  {
    hide History, Origin, PhaseInv, RingInv, GapInv, Enabled, Apply, Initial, ToldToResync, ResumesAcrossGap;
    RunKeepsInv(limit, states, steps, k);
  }

  /** The gap does not move between a handler's steps while it is subscribed. */
  lemma {:induction false} GapIsStableForHandler(limit: nat, states: seq<System>, steps: seq<Step>, id: nat, a: nat,
                                                 b: nat)
    requires Run(limit, states, steps) && a <= b <= |steps| && id in states[a].handlers
             && states[a].handlers[id].phase != Gone
    requires forall i :: a <= i < b ==> !IsStepOf(steps[i], id)
    ensures states[b].stream.gapCursor == states[a].stream.gapCursor
    ensures forall i :: a <= i < b ==> !IdleStop(states[i], steps[i])
  {
    hide Initial, Enabled, Apply, IdleStop, IsStepOf;
    forall i | a <= i < b ensures !IdleStop(states[i], steps[i]) {
      HandlerUntouched(limit, states, steps, id, a, i);
      SubscribersPreventIdleStops(limit, states, steps, id, i);
    }
    GapIsStableBetweenStops(limit, states, steps, a, b);
  }

  /** The three steps that take a client without a cursor to its loop, with nothing of its own in between. */
  ghost predicate OpensWithoutCursor(states: seq<System>, steps: seq<Step>, id: nat, a: nat, b: nat, c: nat) {
    && a < b < c < |steps| < |states| && id in states[a].handlers && !states[a].handlers[id].provided
    && steps[a] == FirstRead(id) && steps[b] == SecondRead(id) && steps[c] == Open(id)
    && (forall i :: a < i < b ==> !IsStepOf(steps[i], id)) && forall i :: b < i < c ==> !IsStepOf(steps[i], id)
  }

  lemma SubscribedHasNoWire(h: Handler, log: seq<Event>)
    requires History(h, log) && h.transcript == []
    ensures h.wire == []
  {
    hide Chain;
  }

  lemma NewcomersSteps(limit: nat, states: seq<System>, steps: seq<Step>, id: nat, a: nat, b: nat, c: nat)
    requires Run(limit, states, steps) && OpensWithoutCursor(states, steps, id, a, b, c)
    ensures states[a].handlers[id].wire == [] && id in states[c + 1].handlers
    ensures OnSecondRead(OnFirstRead(states[a].handlers[id], states[a].stream), states[b].stream).phase.Opening?
    ensures states[c + 1].handlers[id]
            == OnOpen(OnSecondRead(OnFirstRead(states[a].handlers[id], states[a].stream), states[b].stream))
    ensures states[b].stream.gapCursor == states[a].stream.gapCursor
  {
    hide Initial, After, History, HandlerInv, RingInv, GapInv, OnOpen, IsStepOf, IdleStop;
    RunKeepsInv(limit, states, steps, a);
    var sys := states[a];
    HandlerFacts(sys.handlers[id], id in sys.stream.subscribers, Token(sys.stream, id), sys.log, sys.epochs, sys.epoch);
    SubscribedIsNew(sys.handlers[id], id in sys.stream.subscribers, Token(sys.stream, id), sys.log, sys.epochs,
                    sys.epoch);
    SubscribedHasNoWire(sys.handlers[id], sys.log);
    HandlerUntouched(limit, states, steps, id, a + 1, b);
    HandlerUntouched(limit, states, steps, id, b + 1, c);
    SubscribersPreventIdleStops(limit, states, steps, id, a);
    OnlyIdleStopsMoveTheGap(states[a], steps[a]);
    GapIsStableForHandler(limit, states, steps, id, a + 1, b);
  }

  lemma SubscribedIsNew(h: Handler, subscribed: bool, token: bool, log: seq<Event>, epochs: seq<nat>, epoch: nat)
    requires |epochs| == |log| && HandlerInv(h, subscribed, token, log, epochs, epoch) && h.phase == Subscribed
    ensures h.transcript == []
  {
    hide History, Origin, ResumesAcrossGap, ToldToResync;
  }

  /**
   A client that gives no cursor is placed at the newest event. Before its
   loop it is told to resync exactly when something was flushed and either
   nothing since the last idle stop, so that it seems to resume across the
   gap, or so much between its two reads that the event left the ring.
   */
  lemma NewcomersAreStaleAfterAnIdleStop(limit: nat, states: seq<System>, steps: seq<Step>, stop: nat, id: nat,
                                         a: nat, b: nat, c: nat)
    requires Run(limit, states, steps) && stop < a && OpensWithoutCursor(states, steps, id, a, b, c)
    requires IdleStop(states[stop], steps[stop]) && forall k :: stop < k < a ==> !IdleStop(states[k], steps[k])
    ensures id in states[c + 1].handlers
    ensures var flushed := |states[a].log|;
            states[c + 1].handlers[id].wire
            == if 0 < flushed && (flushed == |states[stop].log| || flushed < Evicted(states[b].log, limit))
               then [ResyncMessage(|states[b].log|)] else []
  {
    hide Initial, Enabled, Apply, Beyond, Oldest, HandlerInv, Newest, Evicted, GapInv, OnOpen, OnSecondRead,
      OnFirstRead, IdleStop;
    RunKeepsInv(limit, states, steps, stop);
    RunKeepsInv(limit, states, steps, a);
    RunKeepsInv(limit, states, steps, b);
    LimitIsFixed(limit, states, steps, a);
    LimitIsFixed(limit, states, steps, b);
    TheLogOnlyGrows(limit, states, steps, stop, a);
    TheLogOnlyGrows(limit, states, steps, a, b);
    OnlyIdleStopsMoveTheGap(states[stop], steps[stop]);
    GapIsStableBetweenStops(limit, states, steps, stop + 1, a);
    NewcomersSteps(limit, states, steps, id, a, b, c);
    NewcomerOpens(states[a].handlers[id], states[a].stream, states[a].log, states[b].stream, states[b].log, limit);
  }

  /** Before any idle stop only the ring can make such a client resync. */
  lemma NewcomersBeforeAnyStop(limit: nat, states: seq<System>, steps: seq<Step>, id: nat, a: nat, b: nat, c: nat)
    requires Run(limit, states, steps) && OpensWithoutCursor(states, steps, id, a, b, c)
    requires forall k :: 0 <= k < a ==> !IdleStop(states[k], steps[k])
    ensures id in states[c + 1].handlers
    ensures states[c + 1].handlers[id].wire == if 0 < |states[a].log| < Evicted(states[b].log, limit)
                                               then [ResyncMessage(|states[b].log|)] else []
  {
    hide Enabled, Apply, Beyond, Oldest, HandlerInv, Newest, Evicted, GapInv, OnOpen, OnSecondRead, OnFirstRead,
      IdleStop;
    RunKeepsInv(limit, states, steps, a);
    RunKeepsInv(limit, states, steps, b);
    LimitIsFixed(limit, states, steps, a);
    LimitIsFixed(limit, states, steps, b);
    TheLogOnlyGrows(limit, states, steps, a, b);
    GapIsStableBetweenStops(limit, states, steps, 0, a);
    NewcomersSteps(limit, states, steps, id, a, b, c);
    NewcomerOpens(states[a].handlers[id], states[a].stream, states[a].log, states[b].stream, states[b].log, limit);
  }
}
