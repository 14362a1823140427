/**
 From a reported change to the client: what is pending is the coalesced
 events since the last flush, and an accepted change reaches every handler
 that reads past it (AgentBridge/events.go).
 */
module EventArrival {
  import opened Common
  import opened Ordering
  import opened TacticalEvents
  import opened SnapshotDiff
  import opened HudDiff
  import opened EventStreams
  import opened EventProtocol
  import opened EventInvariant
  import opened EventSafety
  import opened ReportedKinds
  import ReportedEvents

  // ----- What is pending

  /** The events committed since the last flush, or since the last idle stop if that came later. */
  ghost function Fresh(states: seq<System>, steps: seq<Step>, j: nat): seq<Event>
    requires j <= |steps| < |states|
  {
    if j == 0 then []
    else match steps[j - 1]
         case CommitStep(snapshot, changes, hud) =>
           Fresh(states, steps, j - 1) + Committed(states[j - 1].stream, snapshot, changes, hud)
         case FlushStep(_) => []
         case _ => if IdleStop(states[j - 1], steps[j - 1]) then [] else Fresh(states, steps, j - 1)
  }

  /** Those of one type and relationship. */
  ghost function Under(es: seq<Event>, key: string): seq<Event> {
    if es == [] then []
    else Under(es[..|es| - 1], key) + (if EventKey(es[|es| - 1]) == key then [es[|es| - 1]] else [])
  }

  lemma {:induction false} MergeAllConcat(pending: map<string, Event>, a: seq<Event>, b: seq<Event>)
    ensures MergeAllIntoPending(pending, a + b) == MergeAllIntoPending(MergeAllIntoPending(pending, a), b)
  {
    hide MergeIntoPending;
    if b == [] {
      assert a + b == a;
    } else {
      assert (a + b)[..|a + b| - 1] == a + b[..|b| - 1];
      MergeAllConcat(pending, a, b[..|b| - 1]);
    }
  }

  lemma PendingAfterStep(sys: System, step: Step)
    requires Enabled(sys, step)
    ensures Apply(sys, step).stream.pending ==
            match step
            case CommitStep(snapshot, changes, hud) =>
              MergeAllIntoPending(sys.stream.pending, Committed(sys.stream, snapshot, changes, hud))
            case FlushStep(_) => map[]
            case _ => if IdleStop(sys, step) then map[] else sys.stream.pending
  {
    hide Numbered, Retain, Reported, Lists, ListsEvents, MergeAllIntoPending, Committed, WithCapabilities, OnFirstRead,
      OnSecondRead, OnOpen, OnRead, OnProcess;
  }

  lemma {:induction false} PendingIsFresh(limit: nat, states: seq<System>, steps: seq<Step>, j: nat)
    requires Run(limit, states, steps) && j <= |steps|
    ensures states[j].stream.pending == MergeAllIntoPending(map[], Fresh(states, steps, j))
  {
    hide Enabled, Apply, MergeIntoPending, Committed, IdleStop;
    if j > 0 {
      PendingIsFresh(limit, states, steps, j - 1);
      PendingAfterStep(states[j - 1], steps[j - 1]);
      if steps[j - 1].CommitStep? {
        var step := steps[j - 1];
        MergeAllConcat(map[], Fresh(states, steps, j - 1),
                       Committed(states[j - 1].stream, step.snapshot, step.changes, step.shown));
      }
    }
  }

  lemma CoalesceMore(group: seq<Event>, e: Event)
    ensures Coalesce(group + [e]) == if group == [] then e else Merge(Coalesce(group), e)
  {
    hide Merge;
    assert (group + [e])[..|group|] == group;
  }

  lemma {:induction false} MergedIsCoalesced(es: seq<Event>, key: string)
    ensures key in MergeAllIntoPending(map[], es) <==> Under(es, key) != []
    ensures Under(es, key) != [] ==> MergeAllIntoPending(map[], es)[key] == Coalesce(Under(es, key))
  {
    hide Merge, EventKey, Coalesce;
    if es != [] {
      var init, last := es[..|es| - 1], es[|es| - 1];
      MergedIsCoalesced(init, key);
      CoalesceMore(Under(init, key), last);
      assert Under(init, key) + [] == Under(init, key);
    }
  }

  /**
   After any run, what is pending under a type and relationship is the
   coalescing of the events of that key committed since the last flush or
   effective idle stop, and nothing is pending under any other key.
   */
  lemma PendingIsCoalesced(limit: nat, states: seq<System>, steps: seq<Step>, j: nat, key: string)
    requires Run(limit, states, steps) && j <= |steps|
    ensures key in states[j].stream.pending <==> Under(Fresh(states, steps, j), key) != []
    ensures key in states[j].stream.pending ==>
              states[j].stream.pending[key] == Coalesce(Under(Fresh(states, steps, j), key))
  {
    hide Run, Coalesce, MergeAllIntoPending, Under, Fresh;
    RunLength(limit, states, steps);
    PendingIsFresh(limit, states, steps, j);
    MergedIsCoalesced(Fresh(states, steps, j), key);
  }

  lemma RunLength(limit: nat, states: seq<System>, steps: seq<Step>)
    requires Run(limit, states, steps)
    ensures |states| == |steps| + 1
  {
    hide Enabled, Apply, Initial;
  }

  // ----- What a committed event looks like

  ghost predicate Proper(e: Event) {
    WellFormed(e) && NulFree(e.typ)
  }

  ghost predicate AllProper(es: seq<Event>) {
    forall i :: 0 <= i < |es| ==> Proper(es[i])
  }

  ghost function RelationshipsOf(s: Snapshot): set<string> {
    set i | 0 <= i < |s.objects| :: s.objects[i].relationship
  }

  lemma ReportedIsProper(previous: Option<Snapshot>, current: Snapshot, key: string)
    requires key in Reported(previous, current)
    ensures Proper(SortedEvent(Reported(previous, current)[key]))
  {
    hide Reported, TiedAs, WellFormed, Name;
    var rs := {"self"} + RelationshipsOf(current) + (if previous.Some? then RelationshipsOf(previous.value) else {});
    assert forall i :: 0 <= i < |current.objects| ==> current.objects[i].relationship in RelationshipsOf(current);
    assert previous.Some? ==> forall i :: 0 <= i < |previous.value.objects| ==>
      previous.value.objects[i].relationship in RelationshipsOf(previous.value);
    ReportedAreTied(previous, current, key, rs);
    var e := SortedEvent(Reported(previous, current)[key]);
    var kind :| TiedAs(e, kind, rs);
    TypeOf(e, kind, rs);
    NameIsNulFree(kind);
    ReportedEvents.EntryIsWellFormed(previous, current, key);
  }

  lemma TypeOf(e: Event, kind: Kind, rs: set<string>)
    requires TiedAs(e, kind, rs)
    ensures e.typ == Name(kind)
  {
    hide Name;
  }

  lemma HudIsProper(previous: Option<Hud>, current: Hud, world: Snapshot, e: Event)
    requires e in HudEvents(previous, current, world)
    ensures Proper(e)
  {
    hide HudEvents, SeverityRank, IsHudType;
    HudEventsAreTied(previous, current, world, e);
    HudTypesHaveNoNul(e.typ);
  }

  lemma ListedAreProper(previous: Option<Snapshot>, current: Snapshot, events: seq<Event>)
    requires ListsEvents(events, Reported(previous, current))
    ensures AllProper(events)
  {
    hide Reported, Proper, SortedEvent;
    var acc := Reported(previous, current);
    var keys :| Lists(keys, acc.Keys) && ListsByKeys(events, acc, keys);
    forall i | 0 <= i < |events| ensures Proper(events[i]) {
      assert events[i] == SortedEvent(acc[keys[i]]);
      ReportedIsProper(previous, current, keys[i]);
    }
  }

  lemma CommittedAreProper(sys: System, step: Step)
    requires step.CommitStep? && Enabled(sys, step)
    ensures AllProper(Committed(sys.stream, step.snapshot, step.changes, step.shown))
  {
    hide Reported, Proper, ListsEvents, HudEvents, Heard;
    var s := sys.stream;
    var world := WithCapabilities(s.previous, step.snapshot);
    ListedAreProper(s.previous, world, step.changes);
    if Heard(s, step.shown).Some? {
      var shown := HudEvents(s.previousHud, Heard(s, step.shown).value, world);
      forall i | 0 <= i < |shown| ensures Proper(shown[i]) {
        HudIsProper(s.previousHud, Heard(s, step.shown).value, world, shown[i]);
      }
    }
  }

  lemma {:induction false} FreshAreProper(limit: nat, states: seq<System>, steps: seq<Step>, j: nat)
    requires Run(limit, states, steps) && j <= |steps|
    ensures AllProper(Fresh(states, steps, j))
  {
    hide Enabled, Apply, Committed, IdleStop, Proper;
    if j > 0 {
      FreshAreProper(limit, states, steps, j - 1);
      if steps[j - 1].CommitStep? {
        CommittedAreProper(states[j - 1], steps[j - 1]);
      }
    }
  }

  lemma {:induction false} UnderIsPart(es: seq<Event>, key: string)
    ensures forall e :: e in Under(es, key) <==> e in es && EventKey(e) == key
  {
    hide EventKey;
    if es != [] {
      UnderIsPart(es[..|es| - 1], key);
    }
  }

  /** The events of one key can be coalesced as a run. */
  lemma GroupIsARun(es: seq<Event>, key: string)
    requires AllProper(es)
    ensures SameKind(Under(es, key))
  {
    hide Proper, WellFormed, Under;
    var group := Under(es, key);
    UnderIsPart(es, key);
    forall i | 0 <= i < |group|
      ensures group[i].typ == group[0].typ && group[i].relationship == group[0].relationship && WellFormed(group[i])
    {
      assert group[i] in es && group[0] in es;
      ProperKeys(group[i], group[0]);
    }
  }

  lemma ProperKeys(a: Event, b: Event)
    requires Proper(a) && Proper(b) && EventKey(a) == EventKey(b)
    ensures a.typ == b.typ && a.relationship == b.relationship && WellFormed(a)
  {
    hide KeyText, WellFormed;
    KeyTextIsInjective(a.typ, a.relationship, b.typ, b.relationship);
  }

  // ----- From the commit to the log

  /** Nothing empties pending between the two steps. */
  ghost predicate NothingDropped(states: seq<System>, steps: seq<Step>, commit: nat, flush: nat)
    requires flush <= |steps| < |states|
  {
    forall i :: commit < i < flush ==> !steps[i].FlushStep? && !IdleStop(states[i], steps[i])
  }

  lemma {:induction false} CommittedIsFresh(limit: nat, states: seq<System>, steps: seq<Step>, commit: nat, flush: nat,
                                            e: Event)
    requires Run(limit, states, steps) && commit < flush <= |steps| && steps[commit].CommitStep?
    requires e in Committed(states[commit].stream, steps[commit].snapshot, steps[commit].changes, steps[commit].shown)
    requires NothingDropped(states, steps, commit, flush)
    ensures e in Fresh(states, steps, flush)
  {
    hide Enabled, Apply, Initial, Committed, IdleStop;
    if flush - 1 > commit {
      CommittedIsFresh(limit, states, steps, commit, flush - 1, e);
    }
  }

  lemma FlushedLog(sys: System, keys: seq<string>)
    requires Enabled(sys, FlushStep(keys)) && sys.stream.pending != map[]
    ensures forall k :: 0 <= k < |keys| ==> keys[k] in sys.stream.pending
    ensures Apply(sys, FlushStep(keys)).log == sys.log + Numbered(sys.stream.pending, keys, sys.stream.nextCursor)
  {
    hide Flush, Numbered;
    ListedKeys(keys, sys.stream.pending);
  }

  lemma FlushNumbers(sys: System, keys: seq<string>, key: string) returns (cursor: nat)
    requires Enabled(sys, FlushStep(keys)) && key in sys.stream.pending && sys.stream.nextCursor == |sys.log|
    ensures var log := Apply(sys, FlushStep(keys)).log;
            |sys.log| < cursor <= |log| && log[cursor - 1] == sys.stream.pending[key].(cursor := cursor)
  {
    hide Apply, Numbered;
    FlushedLog(sys, keys);
    assert key in Elements(keys);
    var m :| 0 <= m < |keys| && keys[m] == key;
    ListedKeys(keys, sys.stream.pending);
    cursor := |sys.log| + 1 + m;
    assert sys.stream.pending != map[];
    assert (sys.log + Numbered(sys.stream.pending, keys, sys.stream.nextCursor))[cursor - 1]
        == Numbered(sys.stream.pending, keys, sys.stream.nextCursor)[m];
  }

  lemma NumberedIsAccepted(f: Filter, e: Event, cursor: nat)
    ensures Accepts(f, e.(cursor := cursor)) <==> Accepts(f, e)
  {
  }

  /** The filter that accepts one change of a group accepts what the group is coalesced to. */
  lemma GroupIsAccepted(es: seq<Event>, e: Event, f: Filter)
    requires AllProper(es) && e in es && Accepts(f, e)
    requires |AllIds(Under(es, EventKey(e)))| <= MAX_EVENT_OBJECT_IDS
    ensures Under(es, EventKey(e)) != [] && Accepts(f, Coalesce(Under(es, EventKey(e))))
  {
    hide AllProper, Accepts, Coalesce, SameKind, AllIds;
    var group := Under(es, EventKey(e));
    UnderIsPart(es, EventKey(e));
    var i :| 0 <= i < |group| && group[i] == e;
    GroupIsARun(es, EventKey(e));
    CoalescedIds(group);
    MergedIsAccepted(group, i, f);
  }

  /** The changes that a flush coalesces with `e`. */
  ghost function Group(states: seq<System>, steps: seq<Step>, flush: nat, e: Event): seq<Event>
    requires flush <= |steps| < |states|
  {
    Under(Fresh(states, steps, flush), EventKey(e))
  }

  lemma AcceptedChangeIsNumbered(limit: nat, states: seq<System>, steps: seq<Step>, flush: nat, f: Filter, e: Event)
    returns (cursor: nat)
    requires Run(limit, states, steps) && flush < |steps| && steps[flush].FlushStep?
    requires e in Fresh(states, steps, flush) && Accepts(f, e)
    requires |AllIds(Group(states, steps, flush, e))| <= MAX_EVENT_OBJECT_IDS
    ensures |states[flush].log| < cursor <= |states[flush + 1].log|
    ensures Accepts(f, states[flush + 1].log[cursor - 1])
  {
    hide Enabled, Apply, Initial, Fresh, Under, Coalesce, Accepts, AllIds, HandlerInv, GapInv;
    RunKeepsInv(limit, states, steps, flush);
    FreshAreProper(limit, states, steps, flush);
    GroupIsAccepted(Fresh(states, steps, flush), e, f);
    PendingIsCoalesced(limit, states, steps, flush, EventKey(e));
    cursor := FlushNumbers(states[flush], steps[flush].keys, EventKey(e));
    NumberedIsAccepted(f, states[flush].stream.pending[EventKey(e)], cursor);
  }

  // ----- From the log to the client

  /** The event is ahead of the handler, or on its wire, or passed by a resync notice on its wire. */
  ghost predicate Arrives(h: Handler, log: seq<Event>, cursor: nat)
    requires 0 < cursor <= |log|
  {
    || h.cursor < cursor
    || EventMessage(log[cursor - 1]) in h.wire
    || (exists from: nat, to: nat ::
          Skipped(from, to) in h.transcript && from < cursor <= to && ResyncMessage(to) in h.wire)
  }

  lemma {:induction false} ProjectHolds(items: seq<Item>, log: seq<Event>, f: Filter, i: nat)
    requires i < |items|
    ensures items[i].Skipped? ==> ResyncMessage(items[i].to) in Project(items, log, f)
    ensures items[i].Saw? && 0 < items[i].cursor <= |log| && Accepts(f, log[items[i].cursor - 1]) ==>
              EventMessage(log[items[i].cursor - 1]) in Project(items, log, f)
  {
    hide Accepts;
    if i < |items| - 1 {
      ProjectHolds(items[..|items| - 1], log, f, i);
    }
  }

  lemma PassedArrives(limit: nat, states: seq<System>, steps: seq<Step>, k: nat, id: nat, cursor: nat)
    requires Run(limit, states, steps) && k <= |steps| && id in states[k].handlers
    requires 0 < cursor <= |states[k].log| && states[k].handlers[id].base < cursor
    requires Accepts(states[k].handlers[id].filter, states[k].log[cursor - 1])
    ensures Arrives(states[k].handlers[id], states[k].log, cursor)
  {
    hide Enabled, Apply, Initial, Project, Accepts, Run;
    RunLength(limit, states, steps);
    NoSilentLoss(limit, states, steps, k, id, cursor);
    var h := states[k].handlers[id];
    if cursor <= h.cursor {
      var i :| 0 <= i < |h.transcript| && Passes(h.transcript[i], cursor);
      ProjectHolds(h.transcript, states[k].log, h.filter, i);
      match h.transcript[i]
      case Saw(seen) => assert seen == cursor;
      case Skipped(from, to) => assert Skipped(from, to) in h.transcript;
    }
  }

  /**
   A committed change that a handler's filter accepts is numbered by the next
   flush inside an accepted event, if that flush coalesces it with changes of
   at most 128 objects; and a handler whose transcript begins before that
   event has it on its wire, or a resync notice past it, or is yet to read it.
   */
  lemma AcceptedChangesArrive(limit: nat, states: seq<System>, steps: seq<Step>, commit: nat, flush: nat, k: nat,
                              id: nat, e: Event)
    returns (cursor: nat)
    requires Run(limit, states, steps) && commit < flush < k <= |steps|
    requires steps[commit].CommitStep? && steps[flush].FlushStep? && NothingDropped(states, steps, commit, flush)
    requires e in Committed(states[commit].stream, steps[commit].snapshot, steps[commit].changes, steps[commit].shown)
    requires id in states[k].handlers && Accepts(states[k].handlers[id].filter, e)
    requires |AllIds(Group(states, steps, flush, e))| <= MAX_EVENT_OBJECT_IDS
    ensures |states[flush].log| < cursor <= |states[flush + 1].log| <= |states[k].log|
    ensures Accepts(states[k].handlers[id].filter, states[k].log[cursor - 1])
    ensures states[k].handlers[id].base < cursor ==> Arrives(states[k].handlers[id], states[k].log, cursor)
  {
    hide Run, Accepts, Arrives, AllIds, Group, Fresh, Committed;
    RunLength(limit, states, steps);
    CommittedIsFresh(limit, states, steps, commit, flush, e);
    cursor := AcceptedChangeIsNumbered(limit, states, steps, flush, states[k].handlers[id].filter, e);
    TheLogOnlyGrows(limit, states, steps, flush + 1, k);
    if states[k].handlers[id].base < cursor {
      PassedArrives(limit, states, steps, k, id, cursor);
    }
  }

  // ----- Handlers that were reading already

  ghost predicate Settled(h: Handler) {
    Started(h) && h.cursor > 0
  }

  ghost predicate InItsLoop(h: Handler) {
    (h.phase.Reading? || h.phase.Processing? || h.phase.Waiting?) && h.cursor > 0
  }

  lemma LoopIsBehindTheLog(sys: System, id: nat)
    requires Inv(sys) && id in sys.handlers && InItsLoop(sys.handlers[id])
    ensures sys.handlers[id].base <= |sys.log|
  {
    hide Chain, Project, GapInv, RingInv, ResumesAcrossGap, ToldToResync;
    var h := sys.handlers[id];
    ChainOrder(h.base, h.transcript, h.cursor);
  }

  lemma CursorAfterTranscript(sys: System, id: nat)
    requires Inv(sys) && id in sys.handlers && sys.handlers[id].transcript != []
    ensures sys.handlers[id].cursor > 0
  {
    hide Chain, Project, GapInv, RingInv, PhaseInv;
  }

  lemma OwnStepKeepsBase(sys: System, step: Step, id: nat)
    requires Enabled(sys, step) && IsStepOf(step, id) && id in sys.handlers && Settled(sys.handlers[id])
    ensures id in Apply(sys, step).handlers
    ensures var h, next := sys.handlers[id], Apply(sys, step).handlers[id];
            && next.base == h.base && next.filter == h.filter && Started(next)
            && (next.cursor > 0 || next.transcript != [])
  {
    hide Commit, Flush, StopIdle, Subscribe, Unsubscribe, Lists, ListsEvents, Reported, WithCapabilities, After,
      Accepts;
  }

  lemma StepKeepsBase(sys: System, step: Step, id: nat)
    requires Inv(sys) && Enabled(sys, step) && id in sys.handlers && Settled(sys.handlers[id])
    ensures id in Apply(sys, step).handlers
    ensures var h, next := sys.handlers[id], Apply(sys, step).handlers[id];
            next.base == h.base && next.filter == h.filter && Settled(next)
  {
    hide Enabled, Apply, HandlerInv, GapInv, RingInv, IsStepOf, Started;
    StepKeeps(sys, step);
    if IsStepOf(step, id) {
      OwnStepKeepsBase(sys, step, id);
      if Apply(sys, step).handlers[id].transcript != [] {
        CursorAfterTranscript(Apply(sys, step), id);
      }
    } else {
      OthersLeaveHandler(sys, step, id);
    }
  }

  lemma {:induction false} BaseIsFixed(limit: nat, states: seq<System>, steps: seq<Step>, id: nat, a: nat, b: nat)
    requires Run(limit, states, steps) && a <= b <= |steps| && id in states[a].handlers
    requires Settled(states[a].handlers[id])
    ensures id in states[b].handlers && Settled(states[b].handlers[id])
    ensures states[b].handlers[id].base == states[a].handlers[id].base
    ensures states[b].handlers[id].filter == states[a].handlers[id].filter
  {
    hide Enabled, Apply, Initial, Inv, Settled;
    if a < b {
      BaseIsFixed(limit, states, steps, id, a, b - 1);
      RunKeepsInv(limit, states, steps, b - 1);
      StepKeepsBase(states[b - 1], steps[b - 1], id);
    }
  }

  /**
   The same for a client that is being served: whatever change its filter
   accepts while it is in its loop reaches it, is passed by a resync notice,
   or is still to be read, whatever happens in between.
   */
  lemma ServedClientsAreTold(limit: nat, states: seq<System>, steps: seq<Step>, commit: nat, flush: nat, k: nat,
                             id: nat, e: Event)
    returns (cursor: nat)
    requires Run(limit, states, steps) && commit < flush < k <= |steps|
    requires steps[commit].CommitStep? && steps[flush].FlushStep? && NothingDropped(states, steps, commit, flush)
    requires e in Committed(states[commit].stream, steps[commit].snapshot, steps[commit].changes, steps[commit].shown)
    requires id in states[commit].handlers && InItsLoop(states[commit].handlers[id])
    requires Accepts(states[commit].handlers[id].filter, e)
    requires |AllIds(Group(states, steps, flush, e))| <= MAX_EVENT_OBJECT_IDS
    ensures |states[flush].log| < cursor <= |states[flush + 1].log| <= |states[k].log| && id in states[k].handlers
    ensures Accepts(states[k].handlers[id].filter, states[k].log[cursor - 1])
    ensures Arrives(states[k].handlers[id], states[k].log, cursor)
  {
    hide Run, Accepts, Arrives, AllIds, Group, Fresh, Committed, Inv, NothingDropped;
    RunLength(limit, states, steps);
    RunKeepsInv(limit, states, steps, commit);
    LoopIsBehindTheLog(states[commit], id);
    BaseIsFixed(limit, states, steps, id, commit, k);
    TheLogOnlyGrows(limit, states, steps, commit, flush);
    cursor := AcceptedChangesArrive(limit, states, steps, commit, flush, k, id, e);
  }
}
