/**
 The tactical event stream as a whole (AgentBridge/events.go): any number of
 pollers and flushes, idle timers that may fire late, and any number of SSE
 handlers, interleaved at every mutex section and every write.
 */
module EventProtocol {
  import opened Common
  import opened Ordering
  import opened TacticalEvents
  import opened SnapshotDiff
  import opened HudDiff
  import opened EventStreams

  // ----- Handlers

  /** How a handler moved past a cursor: it read the event, or told the client to resync. */
  datatype Item = Saw(cursor: nat) | Skipped(from: nat, to: nat)

  /** What reaches the client: events that pass the filter, and resync notices with the new cursor. */
  datatype Message = EventMessage(event: Event) | ResyncMessage(current: nat)

  /** Where tacticalEvents is. `Opening` and `Processing` hold what the last `after` returned. */
  datatype Phase =
    | Subscribed
    | Positioned
    | Opening(replay: Replay)
    | Reading
    | Processing(todo: seq<Event>)
    | Waiting
    | Leaving
    | Gone

  /**
   `start` is the client's cursor (0 when it gave none), `lastRead` the
   stream position returned by the latest `after`. History: `transcript` and
   `wire` record the run, `base` is where the transcript starts, and
   `joined` counts the idle stops before the handler subscribed.
   */
  datatype Handler = Handler(provided: bool, start: nat, filter: Filter, capabilities: bool, hud: bool, phase: Phase,
                             cursor: nat, lastRead: nat, base: nat, transcript: seq<Item>, wire: seq<Message>,
                             joined: nat)

  /** History: `log` is every event ever flushed, `epochs[i]` the idle stops before log[i], `epoch` those so far. */
  datatype System = System(stream: Stream, handlers: map<nat, Handler>, log: seq<Event>, epochs: seq<nat>, epoch: nat,
                           limit: nat)

  datatype Step =
    | CommitStep(snapshot: Snapshot, changes: seq<Event>, shown: Option<Hud>)
    | FlushStep(keys: seq<string>)
    | IdleStep
    | Connect(start: nat, provided: bool, filter: Filter, capabilities: bool, hud: bool)
    | FirstRead(id: nat)
    | SecondRead(id: nat)
    | Open(id: nat)
    | Read(id: nat, written: bool)
    | Process(id: nat, written: bool)
    | Park(id: nat)
    | Wake(id: nat)
    | Heartbeat(id: nat, written: bool)
    | Cancel(id: nat)
    | Leave(id: nat)

  ghost function Initial(limit: nat): System {
    System(NEW_STREAM, map[], [], [], 0, limit)
  }

  ghost predicate In(sys: System, id: nat, phase: Phase) {
    id in sys.handlers && sys.handlers[id].phase == phase
  }

  ghost predicate Enabled(sys: System, step: Step) {
    match step
    case CommitStep(snapshot, changes, _) =>
      ListsEvents(changes, Reported(sys.stream.previous, WithCapabilities(sys.stream.previous, snapshot)))
    case FlushStep(keys) => Lists(keys, sys.stream.pending.Keys)
    case IdleStep => true
    case Connect(start, provided, _, _, _) => !provided ==> start == 0
    case FirstRead(id) => In(sys, id, Subscribed)
    case SecondRead(id) => In(sys, id, Positioned)
    case Open(id) => id in sys.handlers && sys.handlers[id].phase.Opening?
    case Read(id, _) => In(sys, id, Reading)
    case Process(id, _) => id in sys.handlers && sys.handlers[id].phase.Processing? && sys.handlers[id].phase.todo != []
    case Park(id) => In(sys, id, Processing([]))
    case Wake(id) => In(sys, id, Waiting) && id in sys.stream.subscribers && sys.stream.subscribers[id]
    case Heartbeat(id, _) => In(sys, id, Waiting)
    case Cancel(id) => In(sys, id, Waiting)
    case Leave(id) => In(sys, id, Leaving)
  }

  // What each step of a handler does to it, given the stream.

  ghost function OnFirstRead(h: Handler, s: Stream): Handler {
    var r := After(s, h.cursor);
    if h.provided then h.(phase := Opening(r), lastRead := r.current)
    else h.(phase := Positioned, cursor := r.current, lastRead := r.current, base := r.current)
  }

  ghost function OnSecondRead(h: Handler, s: Stream): Handler {
    var r := After(s, h.cursor);
    h.(phase := Opening(r), lastRead := r.current)
  }

  ghost function Resync(h: Handler, to: nat, phase: Phase): Handler {
    h.(phase := phase, cursor := to, transcript := h.transcript + [Skipped(h.cursor, to)],
       wire := h.wire + [ResyncMessage(to)])
  }

  /** The opening notice counts as sent: the handler ignores whether that write succeeded. */
  ghost function OnOpen(h: Handler): Handler
    requires h.phase.Opening?
  {
    var r := h.phase.replay;
    if r.ahead then h.(phase := Leaving)
    else if r.overflow || (r.stale && h.cursor > 0) then Resync(h, r.current, Reading)
    else h.(phase := Reading)
  }

  ghost function OnRead(h: Handler, s: Stream, written: bool): Handler {
    var r := After(s, h.cursor);
    var read := h.(lastRead := r.current);
    if r.overflow then if written then Resync(read, r.current, Processing([])) else read.(phase := Leaving)
    else read.(phase := Processing(r.events))
  }

  ghost function OnProcess(h: Handler, written: bool): Handler
    requires h.phase.Processing? && h.phase.todo != []
  {
    var e := h.phase.todo[0];
    var accepted := Accepts(h.filter, e);
    if accepted && !written then h.(phase := Leaving)
    else h.(phase := Processing(h.phase.todo[1..]), cursor := e.cursor,
            base := if h.cursor == 0 && e.cursor > 0 then e.cursor - 1 else h.base,
            transcript := h.transcript + [Saw(e.cursor)],
            wire := if accepted then h.wire + [EventMessage(e)] else h.wire)
  }

  ghost function Update(sys: System, id: nat, h: Handler): System {
    sys.(handlers := sys.handlers[id := h])
  }

  ghost function Apply(sys: System, step: Step): System
    requires Enabled(sys, step)
  {
    var s := sys.stream;
    match step
    case CommitStep(snapshot, changes, hud) => sys.(stream := Commit(s, snapshot, changes, hud))
    case FlushStep(keys) =>
      ListedKeys(keys, s.pending);
      if s.pending == map[] then sys
      else sys.(stream := Flush(s, sys.limit, keys),
                log := sys.log + Numbered(s.pending, keys, s.nextCursor),
                epochs := sys.epochs + seq(|keys|, _ => sys.epoch))
    case IdleStep =>
      sys.(stream := StopIdle(s), epoch := if s.subscribers == map[] && s.running then sys.epoch + 1 else sys.epoch)
    case Connect(start, provided, filter, capabilities, hud) =>
      sys.(stream := Subscribe(s, capabilities, hud),
           handlers := sys.handlers[s.nextSubscriber + 1 :=
                         Handler(provided, start, filter, capabilities, hud, Subscribed, start, 0, start, [], [],
                                 sys.epoch)])
    case FirstRead(id) => Update(sys, id, OnFirstRead(sys.handlers[id], s))
    case SecondRead(id) => Update(sys, id, OnSecondRead(sys.handlers[id], s))
    case Open(id) => Update(sys, id, OnOpen(sys.handlers[id]))
    case Read(id, written) => Update(sys, id, OnRead(sys.handlers[id], s, written))
    case Process(id, written) => Update(sys, id, OnProcess(sys.handlers[id], written))
    case Park(id) => Update(sys, id, sys.handlers[id].(phase := Waiting))
    case Wake(id) =>
      Update(sys.(stream := s.(subscribers := s.subscribers[id := false])), id, sys.handlers[id].(phase := Reading))
    case Heartbeat(id, written) => Update(sys, id, sys.handlers[id].(phase := if written then Reading else Leaving))
    case Cancel(id) => Update(sys, id, sys.handlers[id].(phase := Leaving))
    case Leave(id) =>
      var h := sys.handlers[id];
      Update(sys.(stream := Unsubscribe(s, id, h.capabilities, h.hud)), id, h.(phase := Gone))
  }

  // ----- Transcripts

  ghost function From(item: Item): nat {
    match item case Saw(c) => if c > 0 then c - 1 else 0 case Skipped(from, _) => from
  }

  ghost function To(item: Item): nat {
    match item case Saw(c) => c case Skipped(_, to) => to
  }

  /** The items join up, each beginning where the one before ended: no cursor is missed, none met twice. */
  ghost predicate Chain(from: nat, items: seq<Item>, to: nat) {
    if items == [] then from == to
    else
      var last := items[|items| - 1];
      To(last) == to && From(last) <= to && (last.Saw? ==> to > 0) && Chain(from, items[..|items| - 1], From(last))
  }

  /** What the client must have been sent for a transcript. */
  ghost function Project(items: seq<Item>, log: seq<Event>, f: Filter): seq<Message> {
    if items == [] then []
    else
      var last := items[|items| - 1];
      var before := Project(items[..|items| - 1], log, f);
      match last
      case Skipped(_, to) => before + [ResyncMessage(to)]
      case Saw(c) => if 0 < c <= |log| && Accepts(f, log[c - 1]) then before + [EventMessage(log[c - 1])] else before
  }

  lemma ChainExtends(from: nat, items: seq<Item>, to: nat, item: Item)
    requires Chain(from, items, to) && From(item) == to && From(item) <= To(item) && (item.Saw? ==> item.cursor > 0)
    ensures Chain(from, items + [item], To(item))
  {
    assert (items + [item])[..|items|] == items;
  }

  lemma ProjectExtends(items: seq<Item>, item: Item, log: seq<Event>, f: Filter)
    ensures Project(items + [item], log, f) ==
            Project(items, log, f)
            + (match item
               case Skipped(_, to) => [ResyncMessage(to)]
               case Saw(c) => if 0 < c <= |log| && Accepts(f, log[c - 1]) then [EventMessage(log[c - 1])] else [])
  {
    hide Accepts;
    assert (items + [item])[..|items|] == items;
    assert Project(items, log, f) + [] == Project(items, log, f);
  }

  /** New events do not change what an old transcript stands for. */
  lemma {:induction false} ProjectIsStable(from: nat, items: seq<Item>, to: nat, log: seq<Event>, more: seq<Event>,
                                           f: Filter)
    requires Chain(from, items, to) && to <= |log|
    ensures Project(items, log + more, f) == Project(items, log, f)
  {
    hide Accepts;
    if items != [] {
      ProjectIsStable(from, items[..|items| - 1], From(items[|items| - 1]), log, more, f);
    }
  }

  lemma {:induction false} ChainOrder(from: nat, items: seq<Item>, to: nat)
    requires Chain(from, items, to)
    ensures from <= to
  {
    if items != [] {
      ChainOrder(from, items[..|items| - 1], From(items[|items| - 1]));
    }
  }

  ghost predicate Passes(item: Item, cursor: nat) {
    From(item) < cursor <= To(item)
  }

  /** Every cursor of a chain's span is passed by exactly one item, and no other cursor by any. */
  lemma {:induction false} ChainPassesOnce(from: nat, items: seq<Item>, to: nat, cursor: nat)
    requires Chain(from, items, to)
    ensures from < cursor <= to <==> exists k :: 0 <= k < |items| && Passes(items[k], cursor)
    ensures forall i, j :: 0 <= i < j < |items| && Passes(items[i], cursor) ==> !Passes(items[j], cursor)
  {
    if items != [] {
      var init, last := items[..|items| - 1], items[|items| - 1];
      ChainPassesOnce(from, init, From(last), cursor);
      ChainOrder(from, init, From(last));
      assert forall k :: 0 <= k < |init| ==> init[k] == items[k];
      if k :| 0 <= k < |init| && Passes(init[k], cursor) {
        assert Passes(items[k], cursor);
      }
      if Passes(last, cursor) {
        assert Passes(items[|items| - 1], cursor);
      }
    }
  }

  /** The cursors of the events read, in a transcript without a resync. */
  ghost function Consecutive(from: nat, to: nat): seq<Item>
    requires from <= to
  {
    seq(to - from, i requires 0 <= i => Saw(from + 1 + i))
  }

  /** Without a resync a chain is every cursor in increasing order. */
  lemma {:induction false} ChainWithoutResync(from: nat, items: seq<Item>, to: nat)
    requires Chain(from, items, to) && forall k :: 0 <= k < |items| ==> items[k].Saw?
    ensures from <= to && items == Consecutive(from, to)
  {
    ChainOrder(from, items, to);
    if items != [] {
      var init, last := items[..|items| - 1], items[|items| - 1];
      ChainWithoutResync(from, init, to - 1);
      assert items == init + [last];
    }
  }

  /** The accepted events of a stretch of the log, in order. */
  ghost function AcceptedEvents(events: seq<Event>, f: Filter): seq<Message> {
    if events == [] then []
    else
      var last := events[|events| - 1];
      AcceptedEvents(events[..|events| - 1], f) + (if Accepts(f, last) then [EventMessage(last)] else [])
  }

  lemma {:induction false} ProjectWithoutResync(from: nat, until: nat, log: seq<Event>, f: Filter)
    requires from <= until <= |log|
    ensures Project(Consecutive(from, until), log, f) == AcceptedEvents(log[from..until], f)
    decreases until
  {
    hide Accepts;
    if from < until {
      ProjectWithoutResync(from, until - 1, log, f);
      assert Consecutive(from, until)[..until - from - 1] == Consecutive(from, until - 1);
      assert log[from..until][..until - from - 1] == log[from..until - 1];
    }
  }
}
