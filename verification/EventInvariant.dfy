/**
 The invariant of the tactical event stream, and the proof that every step of
 every interleaving keeps it.
 */
module EventInvariant {
  import opened Common
  import opened Ordering
  import opened TacticalEvents
  import opened SnapshotDiff
  import opened HudDiff
  import opened EventStreams
  import opened EventProtocol

  // ----- The stream against everything ever flushed

  ghost function Newest(log: seq<Event>, limit: nat): seq<Event> {
    log[|log| - Min(|log|, limit)..]
  }

  /** Cursors number the log from one, and the ring holds its newest `limit` events. */
  ghost predicate RingInv(s: Stream, log: seq<Event>, limit: nat) {
    && limit > 0
    && s.nextCursor == |log|
    && (forall i :: 0 <= i < |log| ==> log[i].cursor == i + 1)
    && s.events == Newest(log, limit)
  }

  /** gapCursor separates the cursors assigned before the last idle stop from those assigned since. */
  ghost predicate GapInv(s: Stream, epochs: seq<nat>, epoch: nat) {
    && s.nextCursor == |epochs|
    && (forall i :: 0 <= i < |epochs| ==> epochs[i] <= epoch)
    && (s.gapCursor == 0 <==> epoch == 0)
    && s.gapCursor <= |epochs| + 1
    && (epoch > 0 ==> forall i :: 0 <= i < |epochs| ==> (epochs[i] < epoch <==> i + 1 < s.gapCursor))
  }

  // ----- One handler against the stream

  /** The transcript explains the cursor and everything written. */
  ghost predicate History(h: Handler, log: seq<Event>) {
    && Chain(h.base, h.transcript, h.cursor)
    && h.wire == Project(h.transcript, log, h.filter)
    && (h.transcript != [] ==> 0 < h.cursor <= |log|)
  }

  ghost predicate Started(h: Handler) {
    h.phase.Reading? || h.phase.Processing? || h.phase.Waiting? || h.phase.Leaving? || h.phase.Gone?
  }

  /** The client resumes from a cursor assigned before an idle stop that preceded its subscription. */
  ghost predicate ResumesAcrossGap(h: Handler, epochs: seq<nat>) {
    0 < h.start <= |epochs| && epochs[h.start - 1] < h.joined
  }

  ghost predicate ToldToResync(h: Handler) {
    h.transcript != [] && h.transcript[0].Skipped? && h.transcript[0].from == h.start
  }

  /** Where the transcript starts: at the client's own cursor when it gave a positive one. */
  ghost predicate Origin(h: Handler) {
    && (!h.provided ==> h.start == 0)
    && (h.start > 0 ==> h.base == h.start)
    && (h.cursor == 0 ==> h.transcript == [] && h.base == 0)
  }

  ghost predicate OpeningInv(h: Handler, log: seq<Event>, epochs: seq<nat>, epoch: nat)
    requires h.phase.Opening? && |epochs| == |log|
  {
    var r := h.phase.replay;
    && h.transcript == [] && h.cursor == h.base && (h.start > 0 ==> h.cursor == h.start)
    && r.current == h.lastRead <= |log|
    && (r.ahead <==> h.cursor > h.lastRead)
    && (0 < h.cursor <= h.lastRead ==> (r.stale <==> epochs[h.cursor - 1] < epoch))
    && (r.overflow ==> h.cursor > 0)
    && (forall i :: h.lastRead <= i < |epochs| ==> epochs[i] == epoch)
  }

  ghost predicate PhaseInv(h: Handler, token: bool, log: seq<Event>, epochs: seq<nat>, epoch: nat)
    requires |epochs| == |log|
  {
    match h.phase
    case Subscribed => h.transcript == [] && h.cursor == h.base == h.start
    case Positioned => !h.provided && h.transcript == [] && h.cursor == h.base == h.lastRead <= |log|
    case Opening(r) => OpeningInv(h, log, epochs, epoch)
    case Reading => h.cursor <= |log|
    case Processing(todo) =>
      && |todo| <= h.lastRead <= |log|
      && todo == log[h.lastRead - |todo|..h.lastRead]
      && (h.cursor > 0 ==> h.cursor == h.lastRead - |todo|)
      && (h.cursor == 0 && todo == [] ==> h.lastRead == 0)
      && (|log| > h.lastRead ==> token)
    case Waiting => h.cursor == h.lastRead <= |log| && (|log| > h.lastRead ==> token)
    case Leaving => true
    case Gone => true
  }

  ghost predicate HandlerInv(h: Handler, subscribed: bool, token: bool, log: seq<Event>, epochs: seq<nat>, epoch: nat)
    requires |epochs| == |log|
  {
    && (subscribed <==> h.phase != Gone)
    && h.joined <= epoch && (subscribed ==> h.joined == epoch)
    && History(h, log)
    && Origin(h)
    && (Started(h) && ResumesAcrossGap(h, epochs) ==> ToldToResync(h))
    && PhaseInv(h, token, log, epochs, epoch)
  }

  // ----- The whole system

  ghost predicate Token(s: Stream, id: nat) {
    id in s.subscribers && s.subscribers[id]
  }

  ghost predicate Inv(sys: System) {
    && RingInv(sys.stream, sys.log, sys.limit)
    && |sys.epochs| == |sys.log|
    && GapInv(sys.stream, sys.epochs, sys.epoch)
    && (sys.stream.subscribers != map[] ==> sys.stream.running)
    && (forall id :: id in sys.stream.subscribers ==> id in sys.handlers)
    && (forall id :: id in sys.handlers ==> id <= sys.stream.nextSubscriber)
    && (forall id :: id in sys.handlers ==>
          HandlerInv(sys.handlers[id], id in sys.stream.subscribers, Token(sys.stream, id), sys.log, sys.epochs,
                     sys.epoch))
  }

  lemma Initially(limit: nat)
    requires limit > 0
    ensures Inv(Initial(limit))
  {
  }

  // ----- The stream's own steps

  lemma DropOfAppend(log: seq<Event>, more: seq<Event>, k: nat)
    requires k <= |log|
    ensures log[k..] + more == (log + more)[k..]
  {
  }

  lemma DropOfDrop(log: seq<Event>, k: nat, more: nat)
    requires k + more <= |log|
    ensures log[k..][more..] == log[k + more..]
  {
  }

  lemma RetainedAreNewest(log: seq<Event>, more: seq<Event>, limit: nat)
    ensures Retain(Newest(log, limit) + more, limit) == Newest(log + more, limit)
  {
    var all, skipped := log + more, |log| - Min(|log|, limit);
    DropOfAppend(log, more, skipped);
    if |all| - skipped > limit {
      DropOfDrop(all, skipped, |all| - skipped - limit);
      assert Newest(all, limit) == all[|all| - limit..];
    } else {
      assert Newest(all, limit) == all[skipped..];
    }
  }

  lemma NumberingContinues(log: seq<Event>, pending: map<string, Event>, keys: seq<string>)
    requires forall i :: 0 <= i < |log| ==> log[i].cursor == i + 1
    requires forall k :: 0 <= k < |keys| ==> keys[k] in pending
    ensures var longer := log + Numbered(pending, keys, |log|);
            |longer| == |log| + |keys| && forall i :: 0 <= i < |longer| ==> longer[i].cursor == i + 1
  {
    hide Numbered;
  }

  lemma FlushKeepsTheRing(s: Stream, log: seq<Event>, limit: nat, keys: seq<string>)
    requires RingInv(s, log, limit) && s.pending != map[]
    requires forall k :: 0 <= k < |keys| ==> keys[k] in s.pending
    ensures RingInv(Flush(s, limit, keys), log + Numbered(s.pending, keys, s.nextCursor), limit)
  {
    hide Numbered, Retain, Newest;
    var more := Numbered(s.pending, keys, s.nextCursor);
    RetainedAreNewest(log, more, limit);
    NumberingContinues(log, s.pending, keys);
  }

  lemma FlushKeepsTheGap(s: Stream, epochs: seq<nat>, epoch: nat, limit: nat, keys: seq<string>)
    requires GapInv(s, epochs, epoch) && s.pending != map[]
    requires forall k :: 0 <= k < |keys| ==> keys[k] in s.pending
    ensures GapInv(Flush(s, limit, keys), epochs + seq(|keys|, _ => epoch), epoch)
  {
    hide Numbered, Retain;
  }

  lemma IdleStopKeepsTheGap(s: Stream, epochs: seq<nat>, epoch: nat)
    requires GapInv(s, epochs, epoch) && s.subscribers == map[] && s.running
    ensures GapInv(StopIdle(s), epochs, epoch + 1)
  {
  }

  lemma IdleKeepsTheRing(s: Stream, log: seq<Event>, limit: nat)
    requires RingInv(s, log, limit)
    ensures RingInv(StopIdle(s), log, limit)
  {
    hide Newest;
  }

  lemma StaleTimerKeepsTheGap(s: Stream, epochs: seq<nat>, epoch: nat)
    requires GapInv(s, epochs, epoch) && (s.subscribers != map[] || !s.running)
    ensures GapInv(StopIdle(s), epochs, epoch)
  {
  }

  lemma SubscribersLeaveTheRest(s: Stream, subscribers: map<nat, bool>, log: seq<Event>, limit: nat, epochs: seq<nat>,
                                epoch: nat)
    requires RingInv(s, log, limit) && GapInv(s, epochs, epoch)
    ensures RingInv(s.(subscribers := subscribers), log, limit) && GapInv(s.(subscribers := subscribers), epochs, epoch)
  {
    hide Newest;
  }

  // ----- What the steps of others do to a handler

  lemma HandlerOutlivesFlush(h: Handler, subscribed: bool, token: bool, log: seq<Event>, epochs: seq<nat>, epoch: nat,
                             more: seq<Event>)
    requires |epochs| == |log| && HandlerInv(h, subscribed, token, log, epochs, epoch)
    ensures HandlerInv(h, subscribed, subscribed, log + more, epochs + seq(|more|, _ => epoch), epoch)
  {
    hide Chain, Project;
    if h.transcript == [] {
      NothingToProject(log, log + more, h.filter);
    } else {
      ProjectIsStable(h.base, h.transcript, h.cursor, log, more, h.filter);
    }
  }

  lemma NothingToProject(log: seq<Event>, longer: seq<Event>, f: Filter)
    ensures Project([], log, f) == Project([], longer, f)
  {
  }

  lemma HandlerOutlivesIdleStop(h: Handler, token: bool, log: seq<Event>, epochs: seq<nat>, epoch: nat)
    requires |epochs| == |log| && HandlerInv(h, false, token, log, epochs, epoch)
    ensures HandlerInv(h, false, token, log, epochs, epoch + 1)
  {
    hide Chain, Project;
  }

  // ----- What after returns

  /** How many of the flushed events have left the ring. */
  ghost function Evicted(log: seq<Event>, limit: nat): nat {
    |log| - Min(|log|, limit)
  }

  lemma TailEndsInLast(log: seq<Event>, from: nat)
    requires from < |log|
    ensures log[from..][..|log| - from - 1] == log[..|log| - 1][from..]
    ensures log[from..] == log[..|log| - 1][from..] + [log[|log| - 1]]
  {
  }

  lemma {:induction false} BeyondIsATail(log: seq<Event>, from: nat, cursor: nat)
    requires from <= |log| && forall i :: 0 <= i < |log| ==> log[i].cursor == i + 1
    ensures Beyond(log[from..], cursor) == if cursor <= from then log[from..]
              else if cursor <= |log| then log[cursor..] else []
  {
    if from < |log| {
      BeyondIsATail(log[..|log| - 1], from, cursor);
      TailEndsInLast(log, from);
      if from < cursor < |log| {
        TailEndsInLast(log, cursor);
      }
    }
  }

  /**
   A read from `cursor` reports overflow exactly when a positive cursor has an
   unread event that the ring no longer holds; short of that it returns every
   event after the cursor, and from cursor 0 every event still held.
   */
  lemma AfterReadsTheLog(s: Stream, log: seq<Event>, limit: nat, cursor: nat)
    requires RingInv(s, log, limit)
    ensures After(s, cursor).current == |log|
    ensures After(s, cursor).ahead <==> cursor > |log|
    ensures After(s, cursor).overflow <==> 0 < cursor < Evicted(log, limit)
    ensures After(s, cursor).oldest == Evicted(log, limit) + 1
    ensures 0 < cursor <= |log| && !After(s, cursor).overflow ==> After(s, cursor).events == log[cursor..]
    ensures After(s, 0).events == log[Evicted(log, limit)..]
  {
    hide Beyond;
    BeyondIsATail(log, Evicted(log, limit), cursor);
    BeyondIsATail(log, Evicted(log, limit), 0);
  }

  /** A positive, already assigned cursor is stale exactly when it was assigned before the last idle stop. */
  lemma StaleMeansBeforeTheGap(s: Stream, epochs: seq<nat>, epoch: nat, cursor: nat)
    requires GapInv(s, epochs, epoch) && 0 < cursor <= |epochs|
    ensures After(s, cursor).stale <==> epochs[cursor - 1] < epoch
  {
    hide Beyond, Oldest;
    assert epoch == 0 ==> epochs[cursor - 1] == 0;
  }

  // ----- A handler's own steps

  lemma ReadOpens(h: Handler, s: Stream, log: seq<Event>, epochs: seq<nat>, epoch: nat, limit: nat)
    requires RingInv(s, log, limit) && |epochs| == |log| && GapInv(s, epochs, epoch)
    requires h.transcript == [] && h.cursor == h.base && (h.start > 0 ==> h.cursor == h.start)
    ensures After(s, h.cursor).current == |log|
    ensures OpeningInv(h.(phase := Opening(After(s, h.cursor)), lastRead := |log|), log, epochs, epoch)
  {
    hide After, RingInv, GapInv, Newest, Evicted;
    AfterReadsTheLog(s, log, limit, h.cursor);
    if 0 < h.cursor <= |log| {
      StaleMeansBeforeTheGap(s, epochs, epoch, h.cursor);
    }
  }

  lemma FirstReadKeeps(h: Handler, token: bool, s: Stream, log: seq<Event>, epochs: seq<nat>, epoch: nat, limit: nat)
    requires RingInv(s, log, limit) && |epochs| == |log| && GapInv(s, epochs, epoch)
    requires h.phase == Subscribed && HandlerInv(h, true, token, log, epochs, epoch)
    ensures HandlerInv(OnFirstRead(h, s), true, token, log, epochs, epoch)
  {
    hide After, RingInv, GapInv, OpeningInv, Project, ResumesAcrossGap, ToldToResync;
    ReadOpens(h, s, log, epochs, epoch, limit);
  }

  lemma SecondReadKeeps(h: Handler, token: bool, s: Stream, log: seq<Event>, epochs: seq<nat>, epoch: nat, limit: nat)
    requires RingInv(s, log, limit) && |epochs| == |log| && GapInv(s, epochs, epoch)
    requires h.phase == Positioned && HandlerInv(h, true, token, log, epochs, epoch)
    ensures HandlerInv(OnSecondRead(h, s), true, token, log, epochs, epoch)
  {
    hide After, RingInv, GapInv, OpeningInv, Project, ResumesAcrossGap, ToldToResync;
    ReadOpens(h, s, log, epochs, epoch, limit);
  }

  /** Being told to resync leaves the history whole. */
  lemma ResyncKeepsHistory(h: Handler, log: seq<Event>, to: nat, phase: Phase)
    requires History(h, log) && 0 < h.cursor <= to <= |log|
    ensures History(Resync(h, to, phase), log)
  {
    hide Project, Chain;
    ChainExtends(h.base, h.transcript, h.cursor, Skipped(h.cursor, to));
    ProjectExtends(h.transcript, Skipped(h.cursor, to), log, h.filter);
  }

  lemma OpenKeeps(h: Handler, token: bool, log: seq<Event>, epochs: seq<nat>, epoch: nat)
    requires |epochs| == |log| && h.phase.Opening? && HandlerInv(h, true, token, log, epochs, epoch)
    ensures HandlerInv(OnOpen(h), true, token, log, epochs, epoch)
  {
    hide Project, Chain;
    var r := h.phase.replay;
    if !r.ahead && (r.overflow || (r.stale && h.cursor > 0)) {
      ResyncKeepsHistory(h, log, r.current, Reading);
    }
  }

  lemma ReadKeeps(h: Handler, token: bool, written: bool, s: Stream, log: seq<Event>, epochs: seq<nat>, epoch: nat,
                  limit: nat)
    requires RingInv(s, log, limit) && |epochs| == |log|
    requires h.phase == Reading && HandlerInv(h, true, token, log, epochs, epoch)
    ensures HandlerInv(OnRead(h, s, written), true, token, log, epochs, epoch)
  {
    hide HandlerInv, After, RingInv, History, Origin, Resync, Evicted;
    HandlerFacts(h, true, token, log, epochs, epoch);
    AfterReadsTheLog(s, log, limit, h.cursor);
    if !After(s, h.cursor).overflow {
      ReadReturnsATail(h, s, log, limit);
      TailReadKeeps(h, token, After(s, h.cursor).events, log, epochs, epoch);
    } else if written {
      OverflowReadKeeps(h, token, log, epochs, epoch);
    } else {
      FailedWriteLeaves(h, token, |log|, log, epochs, epoch);
    }
  }

  lemma HandlerFacts(h: Handler, subscribed: bool, token: bool, log: seq<Event>, epochs: seq<nat>, epoch: nat)
    requires |epochs| == |log| && HandlerInv(h, subscribed, token, log, epochs, epoch)
    ensures History(h, log) && Origin(h) && (subscribed <==> h.phase != Gone)
    ensures h.phase == Reading ==> h.cursor <= |log|
  {
    hide History, Origin, ResumesAcrossGap, ToldToResync;
  }

  lemma FailedWriteLeaves(h: Handler, token: bool, lastRead: nat, log: seq<Event>, epochs: seq<nat>, epoch: nat)
    requires |epochs| == |log| && h.phase == Reading && HandlerInv(h, true, token, log, epochs, epoch)
    ensures HandlerInv(h.(lastRead := lastRead, phase := Leaving), true, token, log, epochs, epoch)
  {
    hide Project, Chain;
  }

  lemma HistoryIgnoresPhase(h: Handler, log: seq<Event>, lastRead: nat, phase: Phase)
    requires History(h, log)
    ensures History(h.(lastRead := lastRead, phase := phase), log)
  {
    hide Project, Chain;
  }

  lemma TailReadKeeps(h: Handler, token: bool, todo: seq<Event>, log: seq<Event>, epochs: seq<nat>, epoch: nat)
    requires |epochs| == |log| && h.phase == Reading && HandlerInv(h, true, token, log, epochs, epoch)
    requires History(h.(lastRead := |log|, phase := Processing(todo)), log)
    requires |todo| <= |log| && todo == log[|log| - |todo|..|log|]
    requires (h.cursor > 0 ==> |todo| == |log| - h.cursor) && (h.cursor == 0 && todo == [] ==> |log| == 0)
    ensures HandlerInv(h.(lastRead := |log|, phase := Processing(todo)), true, token, log, epochs, epoch)
  {
    hide History, Origin, ResumesAcrossGap, ToldToResync;
    ReadingMovesOn(h, Processing(todo), |log|, epochs);
  }

  lemma OverflowReadKeeps(h: Handler, token: bool, log: seq<Event>, epochs: seq<nat>, epoch: nat)
    requires |epochs| == |log| && h.phase == Reading && HandlerInv(h, true, token, log, epochs, epoch)
    requires h.cursor > 0
    ensures HandlerInv(Resync(h.(lastRead := |log|), |log|, Processing([])), true, token, log, epochs, epoch)
  {
    hide History, Origin, ResumesAcrossGap, ToldToResync;
    HistoryIgnoresPhase(h, log, |log|, h.phase);
    ReadOverflows(h.(lastRead := |log|), log);
    ResyncMovesOn(h, |log|, epochs);
  }

  lemma ReadingMovesOn(h: Handler, phase: Phase, lastRead: nat, epochs: seq<nat>)
    requires Origin(h) && h.phase == Reading && (ResumesAcrossGap(h, epochs) ==> ToldToResync(h))
    ensures var next := h.(lastRead := lastRead, phase := phase);
            Origin(next) && (ResumesAcrossGap(next, epochs) ==> ToldToResync(next))
  {
  }

  lemma ResyncMovesOn(h: Handler, to: nat, epochs: seq<nat>)
    requires Origin(h) && h.phase == Reading && 0 < h.cursor <= to && (ResumesAcrossGap(h, epochs) ==> ToldToResync(h))
    ensures var next := Resync(h.(lastRead := to), to, Processing([]));
            Origin(next) && (ResumesAcrossGap(next, epochs) ==> ToldToResync(next))
  {
  }

  lemma ReadOverflows(h: Handler, log: seq<Event>)
    requires History(h, log) && 0 < h.cursor <= |log|
    ensures log[|log| - 0..|log|] == []
    ensures History(Resync(h, |log|, Processing([])), log)
    ensures h.transcript == [] ==> Resync(h, |log|, Processing([])).transcript == [Skipped(h.cursor, |log|)]
    ensures h.transcript != [] ==> Resync(h, |log|, Processing([])).transcript[0] == h.transcript[0]
  {
    hide Project, Chain;
    ResyncKeepsHistory(h, log, |log|, Processing([]));
  }

  lemma ReadReturnsATail(h: Handler, s: Stream, log: seq<Event>, limit: nat)
    requires RingInv(s, log, limit) && h.cursor <= |log| && !After(s, h.cursor).overflow && History(h, log)
    ensures var read := h.(lastRead := |log|, phase := Processing(After(s, h.cursor).events));
            && History(read, log)
            && |read.phase.todo| <= |log|
            && read.phase.todo == log[|log| - |read.phase.todo|..|log|]
            && (h.cursor > 0 ==> |read.phase.todo| == |log| - h.cursor)
            && (h.cursor == 0 && read.phase.todo == [] ==> |log| == 0)
  {
    hide Project, Chain, After, Newest;
    AfterReadsTheLog(s, log, limit, h.cursor);
  }

  lemma NextToProcess(h: Handler, log: seq<Event>, at: nat) returns (e: Event)
    requires forall i :: 0 <= i < |log| ==> log[i].cursor == i + 1
    requires h.phase.Processing? && h.phase.todo != [] && at + |h.phase.todo| == h.lastRead <= |log|
    requires h.phase.todo == log[at..h.lastRead]
    ensures e == h.phase.todo[0] == log[at] && e.cursor == at + 1
    ensures h.phase.todo[1..] == log[at + 1..h.lastRead]
  {
    e := h.phase.todo[0];
  }

  lemma ProcessKeeps(h: Handler, token: bool, written: bool, log: seq<Event>, epochs: seq<nat>, epoch: nat)
    requires |epochs| == |log| && forall i :: 0 <= i < |log| ==> log[i].cursor == i + 1
    requires h.phase.Processing? && h.phase.todo != [] && HandlerInv(h, true, token, log, epochs, epoch)
    ensures HandlerInv(OnProcess(h, written), true, token, log, epochs, epoch)
  {
    hide Accepts, History, Origin, ResumesAcrossGap, ToldToResync, PhaseInv, OnProcess;
    var at := h.lastRead - |h.phase.todo|;
    var e := ProcessKeepsPhase(h, token, written, log, epochs, epoch);
    ProcessMovesOn(h, written, at, epochs);
    if Accepts(h.filter, e) && !written {
      FailedProcessKeepsHistory(h, log);
    } else {
      ProcessKeepsHistory(h, written, log, at);
    }
  }

  lemma FailedProcessKeepsHistory(h: Handler, log: seq<Event>)
    requires h.phase.Processing? && h.phase.todo != [] && Accepts(h.filter, h.phase.todo[0]) && History(h, log)
    ensures History(OnProcess(h, false), log)
  {
    hide Project, Chain, Accepts;
  }

  lemma ProcessKeepsPhase(h: Handler, token: bool, written: bool, log: seq<Event>, epochs: seq<nat>, epoch: nat)
    returns (e: Event)
    requires |epochs| == |log| && forall i :: 0 <= i < |log| ==> log[i].cursor == i + 1
    requires h.phase.Processing? && h.phase.todo != [] && PhaseInv(h, token, log, epochs, epoch)
    ensures |h.phase.todo| <= h.lastRead <= |log|
    ensures var at := h.lastRead - |h.phase.todo|;
            e == h.phase.todo[0] == log[at] && e.cursor == at + 1 && (h.cursor > 0 ==> h.cursor == at)
    ensures PhaseInv(OnProcess(h, written), token, log, epochs, epoch)
    ensures OnProcess(h, written).phase != Gone && OnProcess(h, written).joined == h.joined
  {
    hide Accepts;
    var at := h.lastRead - |h.phase.todo|;
    e := NextToProcess(h, log, at);
    var next := OnProcess(h, written);
    assert next.phase != Gone && next.joined == h.joined;
    if next.phase.Processing? {
      TailIsInPhase(next, token, at + 1, log, epochs, epoch);
    }
  }

  lemma TailIsInPhase(h: Handler, token: bool, at: nat, log: seq<Event>, epochs: seq<nat>, epoch: nat)
    requires |epochs| == |log| && at <= h.lastRead <= |log| && h.phase == Processing(log[at..h.lastRead])
    requires h.cursor == at > 0 && (|log| > h.lastRead ==> token)
    ensures PhaseInv(h, token, log, epochs, epoch)
  {
  }

  lemma ProcessMovesOn(h: Handler, written: bool, at: nat, epochs: seq<nat>)
    requires h.phase.Processing? && h.phase.todo != [] && h.phase.todo[0].cursor == at + 1
             && (h.cursor > 0 ==> h.cursor == at)
    requires Origin(h) && (ResumesAcrossGap(h, epochs) ==> ToldToResync(h))
    ensures Origin(OnProcess(h, written))
    ensures ResumesAcrossGap(OnProcess(h, written), epochs) ==> ToldToResync(OnProcess(h, written))
  {
    hide Accepts;
  }

  /** A first event read from cursor 0 gives the transcript its base. */
  lemma ChainToCursor(h: Handler, at: nat)
    requires Chain(h.base, h.transcript, h.cursor) && Origin(h) && (h.cursor > 0 ==> h.cursor == at)
    ensures Chain(if h.cursor == 0 then at else h.base, h.transcript, at)
  {
  }

  lemma ProcessKeepsHistory(h: Handler, written: bool, log: seq<Event>, at: nat)
    requires h.phase.Processing? && h.phase.todo != [] && at < |log| && (h.cursor > 0 ==> h.cursor == at)
    requires h.phase.todo[0] == log[at] && log[at].cursor == at + 1
    requires History(h, log) && Origin(h) && (Accepts(h.filter, log[at]) ==> written)
    ensures History(OnProcess(h, written), log)
  {
    hide Project, Chain, Accepts;
    var base := if h.cursor == 0 then at else h.base;
    ChainToCursor(h, at);
    ChainExtends(base, h.transcript, at, Saw(at + 1));
    ProjectExtends(h.transcript, Saw(at + 1), log, h.filter);
    assert h.wire + [] == h.wire;
  }

  // ----- Every step of the system

  ghost predicate HandlerFits(sys: System, id: nat, h: Handler)
    requires |sys.epochs| == |sys.log|
  {
    HandlerInv(h, id in sys.stream.subscribers, Token(sys.stream, id), sys.log, sys.epochs, sys.epoch)
  }

  lemma UpdateKeeps(sys: System, id: nat, h: Handler)
    requires Inv(sys) && id in sys.handlers && HandlerFits(sys, id, h)
    ensures Inv(Update(sys, id, h))
  {
    hide HandlerInv, RingInv, GapInv;
  }

  lemma CommitKeeps(sys: System, snapshot: Snapshot, changes: seq<Event>, hud: Option<Hud>)
    requires Inv(sys)
    ensures Inv(sys.(stream := Commit(sys.stream, snapshot, changes, hud)))
  {
    hide HandlerInv, MergeAllIntoPending, WithCapabilities;
    assert forall id :: Token(sys.stream, id) == Token(Commit(sys.stream, snapshot, changes, hud), id);
  }

  lemma FlushKeeps(sys: System, keys: seq<string>)
    requires Inv(sys) && Enabled(sys, FlushStep(keys))
    ensures Inv(Apply(sys, FlushStep(keys)))
  {
    hide HandlerInv, RingInv, GapInv, Lists, Retain;
    var s := sys.stream;
    ListedKeys(keys, s.pending);
    if s.pending != map[] {
      var more := Numbered(s.pending, keys, s.nextCursor);
      FlushKeepsTheRing(s, sys.log, sys.limit, keys);
      FlushKeepsTheGap(s, sys.epochs, sys.epoch, sys.limit, keys);
      forall id | id in sys.handlers
        ensures HandlerInv(sys.handlers[id], id in s.subscribers, id in s.subscribers, sys.log + more,
                           sys.epochs + seq(|keys|, _ => sys.epoch), sys.epoch)
      {
        HandlerOutlivesFlush(sys.handlers[id], id in s.subscribers, Token(s, id), sys.log, sys.epochs, sys.epoch, more);
      }
    }
  }

  lemma IdleKeeps(sys: System)
    requires Inv(sys)
    ensures Inv(Apply(sys, IdleStep))
  {
    hide HandlerInv, RingInv, GapInv;
    var s := sys.stream;
    var stopped := StopIdle(s);
    IdleKeepsTheRing(s, sys.log, sys.limit);
    assert forall id :: Token(s, id) == Token(stopped, id);
    if s.subscribers == map[] && s.running {
      IdleStopKeepsTheGap(s, sys.epochs, sys.epoch);
      forall id | id in sys.handlers
        ensures HandlerInv(sys.handlers[id], id in stopped.subscribers, Token(stopped, id), sys.log, sys.epochs,
                           sys.epoch + 1)
      {
        HandlerOutlivesIdleStop(sys.handlers[id], Token(s, id), sys.log, sys.epochs, sys.epoch);
      }
    } else {
      StaleTimerKeepsTheGap(s, sys.epochs, sys.epoch);
    }
  }

  lemma SubscribeKeeps(s: Stream, capabilities: bool, hud: bool, log: seq<Event>, limit: nat, epochs: seq<nat>,
                       epoch: nat)
    requires RingInv(s, log, limit) && GapInv(s, epochs, epoch)
    ensures var joined := Subscribe(s, capabilities, hud);
            && RingInv(joined, log, limit) && GapInv(joined, epochs, epoch)
            && joined.subscribers.Keys == s.subscribers.Keys + {s.nextSubscriber + 1}
            && forall id: nat :: id <= s.nextSubscriber ==>
                 (id in joined.subscribers <==> id in s.subscribers) && Token(joined, id) == Token(s, id)
  {
    hide Newest;
  }

  lemma ConnectKeeps(sys: System, start: nat, provided: bool, filter: Filter, capabilities: bool, hud: bool)
    requires Inv(sys) && (!provided ==> start == 0)
    ensures Inv(Apply(sys, Connect(start, provided, filter, capabilities, hud)))
  {
    hide HandlerInv, RingInv, GapInv, Token;
    SubscribeKeeps(sys.stream, capabilities, hud, sys.log, sys.limit, sys.epochs, sys.epoch);
    NewcomerFits(sys, start, provided, filter, capabilities, hud);
  }

  lemma NewcomerFits(sys: System, start: nat, provided: bool, filter: Filter, capabilities: bool, hud: bool)
    requires |sys.epochs| == |sys.log| && (!provided ==> start == 0)
    ensures var h := Handler(provided, start, filter, capabilities, hud, Subscribed, start, 0, start, [], [],
                             sys.epoch);
            HandlerInv(h, true, Token(Subscribe(sys.stream, capabilities, hud), sys.stream.nextSubscriber + 1),
                       sys.log, sys.epochs, sys.epoch)
  {
  }

  /** A step that changes the stream's subscribers and one handler: the others must see no difference. */
  lemma ReplaceKeeps(sys: System, s: Stream, id: nat, h: Handler)
    requires Inv(sys) && id in sys.handlers
    requires RingInv(s, sys.log, sys.limit) && GapInv(s, sys.epochs, sys.epoch)
    requires s.subscribers == map[] || s.running
    requires s.nextSubscriber == sys.stream.nextSubscriber && s.subscribers.Keys <= sys.stream.subscribers.Keys
    requires forall other: nat :: other != id ==>
               (other in s.subscribers <==> other in sys.stream.subscribers)
                   && Token(s, other) == Token(sys.stream, other)
    requires HandlerInv(h, id in s.subscribers, Token(s, id), sys.log, sys.epochs, sys.epoch)
    ensures Inv(Update(sys.(stream := s), id, h))
  {
    hide HandlerInv, RingInv, GapInv, Token;
  }

  lemma WokenReads(h: Handler, token: bool, log: seq<Event>, epochs: seq<nat>, epoch: nat)
    requires |epochs| == |log| && h.phase == Waiting && HandlerInv(h, true, token, log, epochs, epoch)
    ensures HandlerInv(h.(phase := Reading), true, false, log, epochs, epoch)
  {
    hide Project, Chain;
  }

  lemma WakeKeeps(sys: System, id: nat)
    requires Inv(sys) && Enabled(sys, Wake(id))
    ensures Inv(Apply(sys, Wake(id)))
  {
    hide HandlerInv, RingInv, GapInv;
    var s := sys.stream;
    var woken := s.(subscribers := s.subscribers[id := false]);
    SubscribersLeaveTheRest(s, woken.subscribers, sys.log, sys.limit, sys.epochs, sys.epoch);
    WokenReads(sys.handlers[id], Token(s, id), sys.log, sys.epochs, sys.epoch);
    ReplaceKeeps(sys, woken, id, sys.handlers[id].(phase := Reading));
  }

  lemma UnsubscribeKeeps(s: Stream, id: nat, capabilities: bool, hud: bool, log: seq<Event>, limit: nat,
                         epochs: seq<nat>, epoch: nat)
    requires RingInv(s, log, limit) && GapInv(s, epochs, epoch) && id in s.subscribers && s.running
    ensures var left := Unsubscribe(s, id, capabilities, hud);
            && RingInv(left, log, limit) && GapInv(left, epochs, epoch) && left.running
            && left.nextSubscriber == s.nextSubscriber && left.subscribers.Keys == s.subscribers.Keys - {id}
            && forall other: nat :: other != id ==>
                 (other in left.subscribers <==> other in s.subscribers) && Token(left, other) == Token(s, other)
  {
    hide Newest;
  }

  lemma LeaveKeeps(sys: System, id: nat)
    requires Inv(sys) && Enabled(sys, Leave(id))
    ensures Inv(Apply(sys, Leave(id)))
  {
    hide Inv;
    LeavingKeeps(sys, id, sys.handlers[id]);
  }

  lemma LeaverGoes(h: Handler, subscribed: bool, token: bool, log: seq<Event>, epochs: seq<nat>, epoch: nat)
    requires |epochs| == |log| && h.phase == Leaving && HandlerInv(h, subscribed, token, log, epochs, epoch)
    ensures subscribed && HandlerInv(h.(phase := Gone), false, false, log, epochs, epoch)
  {
    hide Project, Chain;
  }

  lemma NoTokenWhenGone(s: Stream, id: nat)
    requires id !in s.subscribers
    ensures !Token(s, id)
  {
  }

  lemma LeavingKeeps(sys: System, id: nat, h: Handler)
    requires Inv(sys) && In(sys, id, Leaving) && h == sys.handlers[id]
    ensures Inv(Update(sys.(stream := Unsubscribe(sys.stream, id, h.capabilities, h.hud)), id, h.(phase := Gone)))
  {
    hide HandlerInv, RingInv, GapInv, Unsubscribe, Token;
    var s := sys.stream;
    LeaverGoes(h, id in s.subscribers, Token(s, id), sys.log, sys.epochs, sys.epoch);
    UnsubscribeKeeps(s, id, h.capabilities, h.hud, sys.log, sys.limit, sys.epochs, sys.epoch);
    var left := Unsubscribe(s, id, h.capabilities, h.hud);
    NoTokenWhenGone(left, id);
    ReplaceKeeps(sys, left, id, h.(phase := Gone));
  }

  /** The phase changes that only move a handler between its read and its select. */
  lemma ParkKeeps(sys: System, id: nat, phase: Phase)
    requires Inv(sys) && id in sys.handlers
    requires (In(sys, id, Processing([])) && phase == Waiting) || (In(sys, id, Waiting) && phase in {Reading, Leaving})
    ensures HandlerFits(sys, id, sys.handlers[id].(phase := phase))
  {
    hide RingInv, GapInv, Chain, Project;
  }

  lemma StepKeeps(sys: System, step: Step)
    requires Inv(sys) && Enabled(sys, step)
    ensures Inv(Apply(sys, step))
  {
    hide HandlerInv, RingInv, GapInv, OnFirstRead, OnSecondRead, OnOpen, OnRead, OnProcess;
    var s := sys.stream;
    match step
    case CommitStep(snapshot, changes, hud) => CommitKeeps(sys, snapshot, changes, hud);
    case FlushStep(keys) => FlushKeeps(sys, keys);
    case IdleStep => IdleKeeps(sys);
    case Connect(start, provided, filter, capabilities, hud) =>
      ConnectKeeps(sys, start, provided, filter, capabilities, hud);
    case Wake(id) => WakeKeeps(sys, id);
    case Leave(id) => LeaveKeeps(sys, id);
    case Park(id) =>
      ParkKeeps(sys, id, Waiting);
      UpdateKeeps(sys, id, sys.handlers[id].(phase := Waiting));
    case Heartbeat(id, written) =>
      var phase := if written then Reading else Leaving;
      ParkKeeps(sys, id, phase);
      UpdateKeeps(sys, id, sys.handlers[id].(phase := phase));
    case Cancel(id) =>
      ParkKeeps(sys, id, Leaving);
      UpdateKeeps(sys, id, sys.handlers[id].(phase := Leaving));
    case _ => HandlerStepKeeps(sys, step);
  }

  /** The steps by which a handler reads the stream and acts on what it read. */
  lemma HandlerStepKeeps(sys: System, step: Step)
    requires Inv(sys) && Enabled(sys, step)
    requires step.FirstRead? || step.SecondRead? || step.Open? || step.Read? || step.Process?
    ensures Inv(Apply(sys, step))
  {
    hide HandlerInv, GapInv, Newest, OnFirstRead, OnSecondRead, OnOpen, OnRead, OnProcess;
    var s, id := sys.stream, step.id;
    var h := sys.handlers[id];
    HandlerFacts(h, id in s.subscribers, Token(s, id), sys.log, sys.epochs, sys.epoch);
    var next := match step
      case FirstRead(_) => OnFirstRead(h, s)
      case SecondRead(_) => OnSecondRead(h, s)
      case Open(_) => OnOpen(h)
      case Read(_, written) => OnRead(h, s, written)
      case Process(_, written) => OnProcess(h, written);
    match step {
      case FirstRead(_) => FirstReadKeeps(h, Token(s, id), s, sys.log, sys.epochs, sys.epoch, sys.limit);
      case SecondRead(_) => SecondReadKeeps(h, Token(s, id), s, sys.log, sys.epochs, sys.epoch, sys.limit);
      case Open(_) => OpenKeeps(h, Token(s, id), sys.log, sys.epochs, sys.epoch);
      case Read(_, written) => ReadKeeps(h, Token(s, id), written, s, sys.log, sys.epochs, sys.epoch, sys.limit);
      case Process(_, written) => ProcessKeeps(h, Token(s, id), written, sys.log, sys.epochs, sys.epoch);
    }
    UpdateKeeps(sys, id, next);
  }
}
