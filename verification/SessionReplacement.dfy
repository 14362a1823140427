/**
 The life of sessions in the store (AgentBridge/session.go:177-236 and
 server.go:195-211): registration, replacement, removal and shutdown,
 interleaved at every critical section.
 */
module SessionReplacement {
  import opened Common
  import opened SessionTable

  /**
   Where the connection handler of a session is. `Registering` has entered
   the store and has yet to close the session it displaced; `Removing` has
   stopped serving and `Closing` has left the store.
   */
  datatype Phase = Registering(previous: Option<nat>) | Serving | Removing | Closing | Done

  /** History: `displaced` is the session that was replaced, `swept` whether a shutdown emptied the store since. */
  datatype Connection = Connection(key: string, phase: Phase, closed: bool, displaced: Option<nat>, swept: bool)

  /** Sessions are numbered in the order of their registrations; `doomed` are those a shutdown has yet to close. */
  datatype System = System(connections: seq<Connection>, holders: map<string, nat>, doomed: set<nat>)

  datatype Step =
    | RegisterStep(key: string)
    | ClosePreviousStep(n: nat)
    | EndStep(n: nat)
    | RemoveStep(n: nat)
    | CloseStep(n: nat)
    | ShutdownStep
    | CloseDoomedStep(n: nat)

  const INITIAL := System([], map[], {})

  ghost predicate Enabled(sys: System, step: Step) {
    match step
    case RegisterStep(_) => true
    case ClosePreviousStep(n) => n < |sys.connections| && sys.connections[n].phase.Registering?
    case EndStep(n) => n < |sys.connections| && sys.connections[n].phase.Serving?
    case RemoveStep(n) => n < |sys.connections| && sys.connections[n].phase.Removing?
    case CloseStep(n) => n < |sys.connections| && sys.connections[n].phase.Closing?
    case ShutdownStep => true
    case CloseDoomedStep(n) => n in sys.doomed && n < |sys.connections|
  }

  ghost function Closed(cs: seq<Connection>, n: nat): seq<Connection> {
    if n < |cs| then cs[n := cs[n].(closed := true)] else cs
  }

  ghost function Apply(sys: System, step: Step): System
    requires Enabled(sys, step)
  {
    var cs := sys.connections;
    match step
    case RegisterStep(key) =>
      var previous := Found(sys.holders, key);
      sys.(connections := cs + [Connection(key, Registering(previous), false, previous, false)],
           holders := Registered(sys.holders, key, |cs|))
    case ClosePreviousStep(n) =>
      var previous := cs[n].phase.previous;
      var serving := cs[n := cs[n].(phase := Serving)];
      sys.(connections := if previous.Some? then Closed(serving, previous.value) else serving)
    case EndStep(n) => sys.(connections := cs[n := cs[n].(phase := Removing)])
    case RemoveStep(n) =>
      sys.(connections := cs[n := cs[n].(phase := Closing)],
           holders := Removed(sys.holders, cs[n].key, n))
    case CloseStep(n) => sys.(connections := cs[n := cs[n].(phase := Done, closed := true)])
    case ShutdownStep =>
      System(seq(|cs|, i requires 0 <= i < |cs| => cs[i].(swept := true)), map[], sys.doomed + sys.holders.Values)
    case CloseDoomedStep(n) => sys.(connections := Closed(cs, n), doomed := sys.doomed - {n})
  }

  // ----- The invariant

  /** Someone is about to close session n: its successor, a shutdown, or its own handler. */
  ghost predicate CloseInFlight(sys: System, n: nat) {
    || n in sys.doomed
    || (n < |sys.connections| && sys.connections[n].phase.Closing?)
    || exists m :: n < m < |sys.connections| && sys.connections[m].phase == Registering(Some(n))
  }

  ghost predicate Held(sys: System, n: nat)
    requires n < |sys.connections|
  {
    Found(sys.holders, sys.connections[n].key) == Some(n)
  }

  ghost predicate HoldersInv(sys: System) {
    forall key :: key in sys.holders ==>
      && sys.holders[key] < |sys.connections|
      && sys.connections[sys.holders[key]].key == key
      && !sys.connections[sys.holders[key]].swept
      && (sys.connections[sys.holders[key]].phase.Registering? || sys.connections[sys.holders[key]].phase.Serving?
          || sys.connections[sys.holders[key]].phase.Removing?)
  }

  /** No later registration has taken n's identifier. */
  ghost predicate Latest(cs: seq<Connection>, n: nat)
    requires n < |cs|
  {
    forall m :: n < m < |cs| ==> cs[m].key != cs[n].key
  }

  ghost predicate ConnectionInv(sys: System, n: nat)
    requires n < |sys.connections|
  {
    var c := sys.connections[n];
    && (c.closed || Held(sys, n) || CloseInFlight(sys, n))
    && (c.phase.Done? ==> c.closed)
    && (c.phase.Registering? ==> c.phase.previous == c.displaced)
    && (c.displaced.Some? ==> c.displaced.value < n && sys.connections[c.displaced.value].key == c.key)
    && (c.displaced.Some? && !c.phase.Registering? ==> sys.connections[c.displaced.value].closed)
    && (Held(sys, n) ==> Latest(sys.connections, n))
    && (Latest(sys.connections, n) && !c.swept && !c.phase.Closing? && !c.phase.Done? ==> Held(sys, n))
  }

  ghost predicate Inv(sys: System) {
    && HoldersInv(sys)
    && (forall n :: n in sys.doomed ==> n < |sys.connections|)
    && forall n :: 0 <= n < |sys.connections| ==> ConnectionInv(sys, n)
  }

  // ----- Every step keeps it

  lemma RegisterKeeps(sys: System, key: string)
    requires Inv(sys)
    ensures Inv(Apply(sys, RegisterStep(key)))
  {
    hide CloseInFlight, Latest;
    var next := Apply(sys, RegisterStep(key));
    forall n | 0 <= n < |next.connections| ensures ConnectionInv(next, n) {
      if n < |sys.connections| {
        assert ConnectionInv(sys, n);
        RegisterKeepsOthers(sys, key, n);
      } else {
        LastIsLatest(next.connections);
      }
    }
  }

  lemma LastIsLatest(cs: seq<Connection>)
    requires cs != []
    ensures Latest(cs, |cs| - 1)
  {
  }

  lemma RegisterKeepsOthers(sys: System, key: string, n: nat)
    requires n < |sys.connections|
    ensures var next := Apply(sys, RegisterStep(key));
            && (Latest(next.connections, n) <==> Latest(sys.connections, n) && sys.connections[n].key != key)
            && (CloseInFlight(sys, n) ==> CloseInFlight(next, n))
            && (Held(sys, n) && sys.connections[n].key == key ==> CloseInFlight(next, n))
  {
    var next := Apply(sys, RegisterStep(key));
    assert next.connections[|sys.connections|].key == key;
    assert forall m :: 0 <= m < |sys.connections| ==> next.connections[m] == sys.connections[m];
    if CloseInFlight(sys, n) && !(n in sys.doomed) && !sys.connections[n].phase.Closing? {
      var m :| n < m < |sys.connections| && sys.connections[m].phase == Registering(Some(n));
      assert next.connections[m].phase == Registering(Some(n));
    }
  }

  /** Those who were to close session k still are. */
  ghost predicate DutiesStand(sys: System, next: System, k: nat)
    requires |next.connections| == |sys.connections| && k < |sys.connections|
  {
    && (k in sys.doomed ==> k in next.doomed)
    && (sys.connections[k].phase.Closing? ==> next.connections[k].phase.Closing?)
    && forall m :: 0 <= m < |sys.connections| && sys.connections[m].phase == Registering(Some(k)) ==>
         next.connections[m].phase == Registering(Some(k))
  }

  /** What a step that registers nobody carries over for session k. */
  lemma StepCarries(sys: System, next: System, k: nat)
    requires |next.connections| == |sys.connections| && k < |sys.connections|
    requires forall m :: 0 <= m < |sys.connections| ==> next.connections[m].key == sys.connections[m].key
    ensures Latest(next.connections, k) <==> Latest(sys.connections, k)
    ensures CloseInFlight(sys, k) && DutiesStand(sys, next, k) ==> CloseInFlight(next, k)
    ensures k in next.doomed || next.connections[k].phase.Closing? ==> CloseInFlight(next, k)
  {
    if DutiesStand(sys, next, k) && exists m ::
         k < m < |sys.connections| && sys.connections[m].phase == Registering(Some(k)) {
      var m :| k < m < |sys.connections| && sys.connections[m].phase == Registering(Some(k));
      assert next.connections[m].phase == Registering(Some(k));
    }
    assert (forall m :: k < m < |next.connections| ==> next.connections[m].key != sys.connections[k].key) <==>
           (forall m :: k < m < |sys.connections| ==> sys.connections[m].key != sys.connections[k].key);
  }

  lemma ClosePreviousKeeps(sys: System, n: nat)
    requires Inv(sys) && Enabled(sys, ClosePreviousStep(n))
    ensures Inv(Apply(sys, ClosePreviousStep(n)))
  {
    hide CloseInFlight, Latest;
    var next := Apply(sys, ClosePreviousStep(n));
    assert ConnectionInv(sys, n);
    forall k | 0 <= k < |next.connections| ensures ConnectionInv(next, k) {
      assert ConnectionInv(sys, k);
      StepCarries(sys, next, k);
    }
  }

  /** A step that only moves one connection on, and may close it. */
  lemma MoveKeeps(sys: System, n: nat, c: Connection, doomed: set<nat>)
    requires Inv(sys) && n < |sys.connections|
    requires var before := sys.connections[n];
             && c.key == before.key && c.swept == before.swept && c.displaced == before.displaced
             && !before.phase.Registering? && !c.phase.Registering?
             && (before.closed ==> c.closed) && (c.phase.Done? ==> c.closed)
             && (before.phase.Closing? || before.phase.Done? <==> c.phase.Closing? || c.phase.Done?)
             && (before.phase.Closing? && !c.phase.Closing? ==> c.closed)
    requires doomed <= sys.doomed && (forall k :: k in sys.doomed && k !in doomed ==> k == n && c.closed)
    ensures Inv(sys.(connections := sys.connections[n := c], doomed := doomed))
  {
    hide CloseInFlight, Latest;
    var next := sys.(connections := sys.connections[n := c], doomed := doomed);
    forall k | 0 <= k < |next.connections| ensures ConnectionInv(next, k) {
      assert ConnectionInv(sys, k);
      StepCarries(sys, next, k);
    }
  }

  lemma RemoveKeeps(sys: System, n: nat)
    requires Inv(sys) && Enabled(sys, RemoveStep(n))
    ensures Inv(Apply(sys, RemoveStep(n)))
  {
    hide CloseInFlight, Latest;
    var next := Apply(sys, RemoveStep(n));
    forall k | 0 <= k < |next.connections| ensures ConnectionInv(next, k) {
      assert ConnectionInv(sys, k);
      StepCarries(sys, next, k);
    }
  }

  lemma ShutdownKeeps(sys: System)
    requires Inv(sys)
    ensures Inv(Apply(sys, ShutdownStep))
  {
    hide CloseInFlight, Latest;
    var next := Apply(sys, ShutdownStep);
    forall k | 0 <= k < |next.connections| ensures ConnectionInv(next, k) {
      assert ConnectionInv(sys, k);
      StepCarries(sys, next, k);
    }
  }

  lemma CloseDoomedKeeps(sys: System, n: nat)
    requires Inv(sys) && Enabled(sys, CloseDoomedStep(n))
    ensures Inv(Apply(sys, CloseDoomedStep(n)))
  {
    hide CloseInFlight, Latest;
    var next := Apply(sys, CloseDoomedStep(n));
    forall k | 0 <= k < |next.connections| ensures ConnectionInv(next, k) {
      assert ConnectionInv(sys, k);
      StepCarries(sys, next, k);
    }
  }

  lemma StepKeeps(sys: System, step: Step)
    requires Inv(sys) && Enabled(sys, step)
    ensures Inv(Apply(sys, step))
  {
    hide Inv;
    match step
    case RegisterStep(key) => RegisterKeeps(sys, key);
    case ClosePreviousStep(n) => ClosePreviousKeeps(sys, n);
    case EndStep(n) => MoveKeeps(sys, n, sys.connections[n].(phase := Removing), sys.doomed);
    case RemoveStep(n) => RemoveKeeps(sys, n);
    case CloseStep(n) => MoveKeeps(sys, n, sys.connections[n].(phase := Done, closed := true), sys.doomed);
    case ShutdownStep => ShutdownKeeps(sys);
    case CloseDoomedStep(n) => CloseDoomedKeeps(sys, n);
  }

  // ----- Runs

  ghost predicate Run(states: seq<System>, steps: seq<Step>) {
    && |states| == |steps| + 1
    && states[0] == INITIAL
    && forall i :: 0 <= i < |steps| ==> Enabled(states[i], steps[i]) && states[i + 1] == Apply(states[i], steps[i])
  }

  lemma {:induction false} RunKeepsInv(states: seq<System>, steps: seq<Step>, k: nat)
    requires Run(states, steps) && k <= |steps|
    ensures Inv(states[k])
  {
    hide Enabled, Apply, ConnectionInv;
    if k > 0 {
      RunKeepsInv(states, steps, k - 1);
      StepKeeps(states[k - 1], steps[k - 1]);
    }
  }

  /** A session that is no longer the newest under its identifier is closed, or its close is under way. */
  lemma ReplacedSessionsAreClosed(states: seq<System>, steps: seq<Step>, k: nat, n: nat)
    requires Run(states, steps) && k <= |steps| && n < |states[k].connections| && !Latest(states[k].connections, n)
    ensures states[k].connections[n].closed || CloseInFlight(states[k], n)
    ensures forall m :: 0 <= m < |states[k].connections| ==>
              (states[k].connections[m].displaced == Some(n) && !states[k].connections[m].phase.Registering? ==>
                 states[k].connections[n].closed)
  {
    hide Enabled, Apply, CloseInFlight, Latest;
    RunKeepsInv(states, steps, k);
    assert ConnectionInv(states[k], n);
    forall m | 0 <= m < |states[k].connections| && states[k].connections[m].displaced == Some(n)
               && !states[k].connections[m].phase.Registering?
      ensures states[k].connections[n].closed
    {
      assert ConnectionInv(states[k], m);
    }
  }

  /**
   The newest session under an identifier is the one a lookup finds, until
   its own handler removes it or a shutdown empties the store; the removals
   of the sessions it replaced never take it out.
   */
  lemma SuccessorsAreNeverEvicted(states: seq<System>, steps: seq<Step>, k: nat, n: nat)
    requires Run(states, steps) && k <= |steps| && n < |states[k].connections|
    requires !states[k].connections[n].swept && Latest(states[k].connections, n)
    ensures Found(states[k].holders, states[k].connections[n].key) == Some(n) <==>
            !states[k].connections[n].phase.Closing? && !states[k].connections[n].phase.Done?
  {
    hide Enabled, Apply, CloseInFlight, Latest;
    RunKeepsInv(states, steps, k);
    assert ConnectionInv(states[k], n);
  }

  /** Whatever a lookup finds is the newest session registered under the identifier. */
  lemma LookupsFindTheNewest(states: seq<System>, steps: seq<Step>, k: nat, key: string)
    requires Run(states, steps) && k <= |steps| && key in states[k].holders
    ensures var n := states[k].holders[key];
            n < |states[k].connections| && states[k].connections[n].key == key && Latest(states[k].connections, n)
  {
    hide Enabled, Apply, CloseInFlight, Latest;
    RunKeepsInv(states, steps, k);
    assert ConnectionInv(states[k], states[k].holders[key]);
  }
}
