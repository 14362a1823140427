/**
 The mutex sections of eventStream in AgentBridge/events.go, as functions on
 the stream's state and as the methods that perform them.
 */
module EventStreams {
  import opened Common
  import opened Ordering
  import opened TacticalEvents
  import opened SnapshotDiff
  import opened HudDiff

  /**
   The fields under the mutex. `subscribers` maps a subscription to whether
   its one-slot notify channel holds a token; `running` and `idleTimer` say
   whether runCancel and idleTimer are set.
   */
  datatype Stream = Stream(events: seq<Event>, nextCursor: nat, subscribers: map<nat, bool>,
                           capabilitySubscribers: int, hudSubscribers: int, nextSubscriber: nat,
                           running: bool, idleTimer: bool, gapCursor: nat,
                           previous: Option<Snapshot>, previousHud: Option<Hud>, pending: map<string, Event>)

  const NEW_STREAM := Stream([], 0, map[], 0, 0, 0, false, false, 0, None, None, map[])

  function One(b: bool): int {
    if b then 1 else 0
  }

  // ----- subscribe, unsubscribe, stopIdle

  function Subscribe(s: Stream, capabilities: bool, hud: bool): Stream {
    s.(idleTimer := false,
       nextSubscriber := s.nextSubscriber + 1,
       subscribers := s.subscribers[s.nextSubscriber + 1 := false],
       capabilitySubscribers := s.capabilitySubscribers + One(capabilities),
       hudSubscribers := s.hudSubscribers + One(hud),
       running := true)
  }

  function Unsubscribe(s: Stream, id: nat, capabilities: bool, hud: bool): Stream {
    if id !in s.subscribers then s
    else
      var rest := s.subscribers - {id};
      s.(subscribers := rest,
         capabilitySubscribers := s.capabilitySubscribers - One(capabilities),
         hudSubscribers := s.hudSubscribers - One(hud),
         previousHud := if hud && s.hudSubscribers == 1 then None else s.previousHud,
         idleTimer := s.idleTimer || rest == map[])
  }

  /** The idle timer's callback. A stale callback finds a subscriber, or no run, and changes nothing else. */
  function StopIdle(s: Stream): Stream {
    if s.subscribers != map[] || !s.running then s.(idleTimer := false)
    else s.(idleTimer := false, running := false, previous := None, previousHud := None, pending := map[],
            gapCursor := s.nextCursor + 1)
  }

  // ----- poll and mergePending

  function EventKey(e: Event): string {
    KeyText(e.typ, e.relationship)
  }

  function MergeIntoPending(pending: map<string, Event>, e: Event): map<string, Event> {
    var key := EventKey(e);
    pending[key := if key in pending then Merge(pending[key], e) else e]
  }

  function MergeAllIntoPending(pending: map<string, Event>, es: seq<Event>): map<string, Event> {
    if es == [] then pending
    else MergeIntoPending(MergeAllIntoPending(pending, es[..|es| - 1]), es[|es| - 1])
  }

  /** A snapshot without capabilities inherits those of the one before. */
  function WithCapabilities(previous: Option<Snapshot>, snapshot: Snapshot): Snapshot {
    if snapshot.capabilities.None? && previous.Some? then snapshot.(capabilities := previous.value.capabilities)
        else snapshot
  }

  /** The HUD that came with a snapshot counts only while someone wants it. */
  function Heard(s: Stream, hud: Option<Hud>): Option<Hud> {
    if s.hudSubscribers > 0 then hud else None
  }

  /** What a poll merges into pending: the changes that the differ reports, and then those of the HUD. */
  function Committed(s: Stream, snapshot: Snapshot, changes: seq<Event>, hud: Option<Hud>): seq<Event> {
    match Heard(s, hud)
    case None => changes
    case Some(h) => changes + HudEvents(s.previousHud, h, WithCapabilities(s.previous, snapshot))
  }

  /** The mutex section of poll. */
  function Commit(s: Stream, snapshot: Snapshot, changes: seq<Event>, hud: Option<Hud>): Stream {
    s.(previous := Some(WithCapabilities(s.previous, snapshot)),
       previousHud := if Heard(s, hud).Some? then hud else s.previousHud,
       pending := MergeAllIntoPending(s.pending, Committed(s, snapshot, changes, hud)))
  }

  // ----- flushPending

  /** The pending events in the order of `keys`, with the cursors after `next`. */
  function Numbered(pending: map<string, Event>, keys: seq<string>, next: nat): (es: seq<Event>)
    requires forall k :: 0 <= k < |keys| ==> keys[k] in pending
    ensures |es| == |keys|
    ensures forall k :: 0 <= k < |keys| ==> es[k] == pending[keys[k]].(cursor := next + 1 + k)
  {
    if keys == [] then []
    else Numbered(pending, keys[..|keys| - 1], next) + [pending[keys[|keys| - 1]].(cursor := next + |keys|)]
  }

  /** The last `limit` events. */
  function Retain(events: seq<Event>, limit: nat): seq<Event> {
    if |events| > limit then events[|events| - limit..] else events
  }

  lemma ListedKeys(keys: seq<string>, pending: map<string, Event>)
    requires Lists(keys, pending.Keys)
    ensures forall k :: 0 <= k < |keys| ==> keys[k] in pending
  {
    forall k | 0 <= k < |keys| ensures keys[k] in pending {
      assert keys[k] in Elements(keys);
    }
  }

  function Flush(s: Stream, limit: nat, keys: seq<string>): Stream
    requires forall k :: 0 <= k < |keys| ==> keys[k] in s.pending
  {
    if s.pending == map[] then s
    else s.(events := Retain(s.events + Numbered(s.pending, keys, s.nextCursor), limit),
            nextCursor := s.nextCursor + |keys|,
            pending := map[],
            subscribers := map id | id in s.subscribers :: true)
  }

  // ----- after

  datatype Replay = Replay(events: seq<Event>, current: nat, oldest: nat, stale: bool, overflow: bool, ahead: bool)

  /** The retained events beyond a cursor. */
  function Beyond(events: seq<Event>, cursor: nat): seq<Event> {
    if events == [] then []
    else
      var last := events[|events| - 1];
      Beyond(events[..|events| - 1], cursor) + (if last.cursor > cursor then [last] else [])
  }

  function Oldest(s: Stream): nat {
    if |s.events| > 0 then s.events[0].cursor else s.nextCursor + 1
  }

  function After(s: Stream, cursor: nat): Replay {
    var stale := cursor > 0 && s.gapCursor > 0 && cursor < s.gapCursor;
    var ahead := cursor > s.nextCursor;
    var overflow := cursor > 0 && cursor + 1 < Oldest(s);
    Replay(if ahead || overflow then [] else Beyond(s.events, cursor), s.nextCursor, Oldest(s), stale, overflow, ahead)
  }

  // ----- The object

  class EventStream {
    const replayLimit: nat
    var events: seq<Event>
    var nextCursor: nat
    var subscribers: map<nat, bool>
    var capabilitySubscribers: int
    var hudSubscribers: int
    var nextSubscriber: nat
    var running: bool
    var idleTimer: bool
    var gapCursor: nat
    var previous: Option<Snapshot>
    var previousHud: Option<Hud>
    var pending: map<string, Event>

    function State(): Stream
      reads this
    {
      Stream(events, nextCursor, subscribers, capabilitySubscribers, hudSubscribers, nextSubscriber, running, idleTimer,
             gapCursor, previous, previousHud, pending)
    }

    constructor (replayLimit: nat)
      ensures State() == NEW_STREAM && this.replayLimit == replayLimit
    {
      this.replayLimit := replayLimit;
      events, nextCursor, subscribers, capabilitySubscribers, hudSubscribers, nextSubscriber := [], 0, map[], 0, 0, 0;
      running, idleTimer, gapCursor, previous, previousHud, pending := false, false, 0, None, None, map[];
    }

    method AddSubscriber(needsCapabilities: bool, needsHud: bool) returns (id: nat)
      modifies this
      ensures State() == Subscribe(old(State()), needsCapabilities, needsHud)
      ensures id == old(nextSubscriber) + 1
    {
      if idleTimer {
        idleTimer := false;
      }
      nextSubscriber := nextSubscriber + 1;
      subscribers := subscribers[nextSubscriber := false];
      if needsCapabilities {
        capabilitySubscribers := capabilitySubscribers + 1;
      }
      if needsHud {
        hudSubscribers := hudSubscribers + 1;
      }
      if !running {
        running := true;
      }
      return nextSubscriber;
    }

    /** The counts of those who need more than the snapshot; the HUD is forgotten with the last who needs it. */
    method DropNeeds(needsCapabilities: bool, needsHud: bool)
      modifies this`capabilitySubscribers, this`hudSubscribers, this`previousHud
      ensures capabilitySubscribers == old(capabilitySubscribers) - One(needsCapabilities)
      ensures hudSubscribers == old(hudSubscribers) - One(needsHud)
      ensures previousHud == if needsHud && old(hudSubscribers) == 1 then None else old(previousHud)
    {
      if needsCapabilities {
        capabilitySubscribers := capabilitySubscribers - 1;
      }
      if needsHud {
        hudSubscribers := hudSubscribers - 1;
        if hudSubscribers == 0 {
          previousHud := None;
        }
      }
    }

    method RemoveSubscriber(id: nat, needsCapabilities: bool, needsHud: bool)
      modifies this
      ensures State() == Unsubscribe(old(State()), id, needsCapabilities, needsHud)
    {
      if id !in subscribers {
        return;
      }
      subscribers := subscribers - {id};
      DropNeeds(needsCapabilities, needsHud);
      if subscribers == map[] {
        idleTimer := true;
      }
    }

    method IdleTimeout()
      modifies this
      ensures State() == StopIdle(old(State()))
    {
      idleTimer := false;
      if |subscribers| != 0 || !running {
        return;
      }
      running := false;
      previous := None;
      previousHud := None;
      pending := map[];
      gapCursor := nextCursor + 1;
    }

    method MergePending(event: Event)
      modifies this`pending
      ensures pending == MergeIntoPending(old(pending), event)
    {
      var key := EventKey(event);
      if key !in pending {
        pending := pending[key := event];
        return;
      }
      var merged := MergeEvents(pending[key], event);
      pending := pending[key := merged];
    }

    /** What poll does once it holds the mutex; the caller flushes when told to. */
    method CommitPoll(received: Snapshot, hud: Option<Hud>) returns (flush: bool, ghost changes: seq<Event>)
      modifies this
      ensures State() == Commit(old(State()), received, changes, hud)
      ensures ListsEvents(changes, Reported(old(previous), WithCapabilities(old(previous), received)))
      ensures flush <==> old(previous).None? || received.outcome.Some?
    {
      hide Reported, ListsEvents, MergeIntoPending, HudEvents;
      var snapshot := received;
      if snapshot.capabilities.None? && previous.Some? {
        snapshot := snapshot.(capabilities := previous.value.capabilities);
      }
      var wasBaseline := previous.None?;
      var all := DiffEventSnapshots(previous, snapshot);
      changes := all;
      previous := Some(snapshot);
      if hud.Some? && hudSubscribers > 0 {
        var hudChanges := DiffHudSnapshots(previousHud, hud.value, snapshot);
        all := all + hudChanges;
        previousHud := hud;
      }
      ghost var before := pending;
      for index := 0 to |all|
        modifies this`pending
        invariant pending == MergeAllIntoPending(before, all[..index])
      {
        assert all[..index + 1][..index] == all[..index];
        MergePending(all[index]);
      }
      assert all[..|all|] == all;
      flush := wasBaseline || snapshot.outcome.Some?;
    }

    /** Assigns the next cursors to the pending events, in the order of their keys. */
    method AppendPending(sorted: seq<string>)
      requires forall k :: 0 <= k < |sorted| ==> sorted[k] in pending
      modifies this`events, this`nextCursor
      ensures events == old(events) + Numbered(pending, sorted, old(nextCursor))
      ensures nextCursor == old(nextCursor) + |sorted|
    {
      ghost var first, start := events, nextCursor;
      for i := 0 to |sorted|
        invariant events == first + Numbered(pending, sorted[..i], start)
        invariant nextCursor == start + i
      {
        assert sorted[..i + 1][..i] == sorted[..i];
        var event := pending[sorted[i]];
        nextCursor := nextCursor + 1;
        event := event.(cursor := nextCursor);
        events := events + [event];
      }
      assert sorted[..|sorted|] == sorted;
    }

    method FlushPending() returns (ghost keys: seq<string>)
      modifies this
      ensures Lists(keys, old(pending).Keys)
      ensures forall k :: 0 <= k < |keys| ==> keys[k] in old(pending)
      ensures State() == Flush(old(State()), replayLimit, keys)
    {
      hide Numbered, Lists;
      var sorted := SortKeys(pending.Keys);
      keys := sorted;
      ListedKeys(sorted, pending);
      if |pending| == 0 {
        return;
      }
      AppendPending(sorted);
      if |events| > replayLimit {
        events := events[|events| - replayLimit..];
      }
      pending := map[];
      // A send to a full one-slot channel is dropped: either way the slot ends up full.
      subscribers := map id | id in subscribers :: true;
    }

    method ReadAfter(cursor: nat) returns (replay: Replay)
      ensures replay == After(State(), cursor)
    {
      var stale := cursor > 0 && gapCursor > 0 && cursor < gapCursor;
      var oldest := nextCursor + 1;
      if |events| > 0 {
        oldest := events[0].cursor;
      }
      var ahead := cursor > nextCursor;
      var overflow := cursor > 0 && cursor + 1 < oldest;
      if ahead || overflow {
        return Replay([], nextCursor, oldest, stale, overflow, ahead);
      }
      var found := [];
      for i := 0 to |events|
        invariant found == Beyond(events[..i], cursor)
      {
        assert events[..i + 1][..i] == events[..i];
        if events[i].cursor > cursor {
          found := found + [events[i]];
        }
      }
      assert events[..|events|] == events;
      return Replay(found, nextCursor, oldest, stale, overflow, ahead);
    }
  }
}
