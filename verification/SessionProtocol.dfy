/**
 Request correlation in AgentBridge/session.go: any number of concurrent
 calls, a reader, and a close, interleaved at every critical section.
 */
module SessionProtocol {
  import opened Common
  import opened Decimals
  import opened Sessions

  // ----- The system

  datatype Outcome = Replied(reply: Reply) | Disconnected | Cancelled | WriteFailed

  /** Where a call is. `Returning` has left its select but has yet to delete its pending entry. */
  datatype Phase = Numbered | Writing | Waiting | Returning(outcome: Outcome) | Returned(outcome: Outcome)

  /** History: `arrived` lists the messages whose replies have entered the call's channel. */
  datatype Call = Call(phase: Phase, arrived: seq<Message>)

  datatype Reader = Idle | Received(message: Message) | Holding(call: nat, message: Message)

  datatype System = System(session: State, calls: map<nat, Call>, reader: Reader)

  const INITIAL := System(State(0, map[], map[], false), map[], Idle)

  datatype Step =
    | BeginStep
    | RegisterStep(call: nat)
    | WriteStep(call: nat, written: bool)
    | TakeStep(call: nat)
    | CancelStep(call: nat)
    | SeeClosedStep(call: nat)
    | ReturnStep(call: nat)
    | ReceiveStep(message: Message)
    | LookUpStep
    | OfferStep
    | CloseStep

  ghost predicate At(sys: System, call: nat, phase: Phase) {
    call in sys.calls && sys.calls[call].phase == phase
  }

  ghost predicate Enabled(sys: System, step: Step) {
    match step
    case BeginStep => true
    case RegisterStep(call) => At(sys, call, Numbered)
    case WriteStep(call, _) => At(sys, call, Writing)
    case TakeStep(call) => At(sys, call, Waiting) && call in sys.session.slots && sys.session.slots[call].Some?
    case CancelStep(call) => At(sys, call, Waiting)
    case SeeClosedStep(call) => At(sys, call, Waiting) && sys.session.closed
    case ReturnStep(call) => call in sys.calls && sys.calls[call].phase.Returning?
    case ReceiveStep(_) => sys.reader.Idle?
    case LookUpStep => sys.reader.Received?
    case OfferStep => sys.reader.Holding?
    case CloseStep => true
  }

  ghost function Move(sys: System, call: nat, phase: Phase): System
    requires call in sys.calls
  {
    sys.(calls := sys.calls[call := sys.calls[call].(phase := phase)])
  }

  ghost function Arrive(calls: map<nat, Call>, call: nat, message: Message): map<nat, Call> {
    if call in calls then calls[call := calls[call].(arrived := calls[call].arrived + [message])] else calls
  }

  ghost function Apply(sys: System, step: Step): System
    requires Enabled(sys, step)
  {
    var s := sys.session;
    match step
    case BeginStep => sys.(session := Begin(s), calls := sys.calls[s.nextId + 1 := Call(Numbered, [])])
    case RegisterStep(call) =>
      Move(sys.(session := Register(s, call)), call, if s.closed then Returned(Disconnected) else Writing)
    case WriteStep(call, written) => Move(sys, call, if written then Waiting else Returning(WriteFailed))
    case TakeStep(call) => Move(sys.(session := Take(s, call)), call, Returning(Replied(s.slots[call].value)))
    case CancelStep(call) => Move(sys, call, Returning(Cancelled))
    case SeeClosedStep(call) => Move(sys, call, Returning(Disconnected))
    case ReturnStep(call) => Move(sys.(session := Forget(s, call)), call, Returned(sys.calls[call].phase.outcome))
    case ReceiveStep(message) => if IsReply(message) then sys.(reader := Received(message)) else sys
    case LookUpStep =>
      var waiter := LookUp(s, sys.reader.message.id);
      sys.(reader := if waiter.None? then Idle else Holding(waiter.value, sys.reader.message))
    case OfferStep =>
      var Holding(call, message) := sys.reader;
      var full := call in s.slots && s.slots[call].Some?;
      System(Offer(s, call, ReplyOf(message)), if full then sys.calls else Arrive(sys.calls, call, message), Idle)
    case CloseStep => sys.(session := Close(s))
  }

  // ----- The invariant

  /** Between registration and return. */
  ghost predicate Open(phase: Phase) {
    phase.Writing? || phase.Waiting? || phase.Returning?
  }

  /** Responses with this identifier. */
  ghost predicate Bears(messages: seq<Message>, id: string) {
    forall i :: 0 <= i < |messages| ==> messages[i].typ == "response" && messages[i].id == id
  }

  ghost predicate OutcomeInv(outcome: Outcome, arrived: seq<Message>, closed: bool) {
    && (outcome.Replied? ==> arrived != [] && outcome.reply == ReplyOf(arrived[0]))
    && (outcome.Disconnected? ==> closed)
  }

  /** Until a call leaves its select, its channel holds the first reply to arrive, and nothing if none has. */
  ghost predicate CallInv(call: nat, c: Call, slot: Option<Reply>, closed: bool) {
    && Bears(c.arrived, Decimal(call))
    && match c.phase
       case Numbered => slot == None && c.arrived == []
       case Writing => slot == if c.arrived == [] then None else Some(ReplyOf(c.arrived[0]))
       case Waiting => slot == if c.arrived == [] then None else Some(ReplyOf(c.arrived[0]))
       case Returning(outcome) => OutcomeInv(outcome, c.arrived, closed)
       case Returned(outcome) => OutcomeInv(outcome, c.arrived, closed)
  }

  ghost predicate ReaderInv(reader: Reader, calls: map<nat, Call>) {
    match reader
    case Idle => true
    case Received(message) => message.typ == "response" && message.id != ""
    case Holding(call, message) =>
      && message.typ == "response" && message.id == Decimal(call)
      && call in calls && !calls[call].phase.Numbered?
  }

  /** `pending` is exactly the calls between registration and return, each under its own identifier. */
  ghost predicate PendingInv(pending: map<string, nat>, calls: map<nat, Call>) {
    && (forall id :: id in pending ==>
          id == Decimal(pending[id]) && pending[id] in calls && Open(calls[pending[id]].phase))
    && (forall call :: call in calls && Open(calls[call].phase) ==> Decimal(call) in pending)
  }

  ghost predicate Inv(sys: System) {
    && (forall call :: call in sys.calls ==> call <= sys.session.nextId)
    && sys.session.slots.Keys == sys.calls.Keys
    && PendingInv(sys.session.pending, sys.calls)
    && (forall call :: call in sys.calls ==> CallInv(call, sys.calls[call], sys.session.slots[call],
                                                     sys.session.closed))
    && ReaderInv(sys.reader, sys.calls)
  }

  // ----- Every step keeps it

  /** The pending map after one call's phase changes: only the entry under its identifier may differ. */
  ghost predicate PendingMoves(before: map<string, nat>, after: map<string, nat>, call: nat, open: bool) {
    && (open <==> Decimal(call) in after)
    && (open ==> after[Decimal(call)] == call)
    && (forall id :: id != Decimal(call) ==>
          (id in before <==> id in after) && (id in before ==> before[id] == after[id]))
  }

  lemma PendingMovesKeeps(before: map<string, nat>, after: map<string, nat>, calls: map<nat, Call>, call: nat, c: Call)
    requires PendingInv(before, calls) && PendingMoves(before, after, call, Open(c.phase))
    ensures PendingInv(after, calls[call := c])
  {
    hide Decimal, Open;
    forall other | other in calls && other != call && Open(calls[other].phase) ensures Decimal(other) in after {
      DecimalIsInjective(other, call);
    }
    forall id | id in after
      ensures id == Decimal(after[id]) && after[id] in calls[call := c] && Open(calls[call := c][after[id]].phase)
    {
      if id != Decimal(call) {
        assert id in before && before[id] == after[id];
      }
    }
  }

  /** A step that changes one call, and of the session only that call's slot and pending entry. */
  lemma MoveKeeps(sys: System, call: nat, c: Call, session: State)
    requires Inv(sys) && call in sys.calls
    requires session.nextId == sys.session.nextId && session.closed == sys.session.closed
    requires call in session.slots && session.slots == sys.session.slots[call := session.slots[call]]
    requires PendingMoves(sys.session.pending, session.pending, call, Open(c.phase))
    requires CallInv(call, c, session.slots[call], session.closed)
    requires c.phase.Numbered? ==> sys.calls[call].phase.Numbered?
    ensures Inv(sys.(session := session, calls := sys.calls[call := c]))
  {
    hide CallInv, Decimal, PendingMoves, PendingInv, Open;
    PendingMovesKeeps(sys.session.pending, session.pending, sys.calls, call, c);
  }

  lemma CallStepKeeps(sys: System, step: Step)
    requires Inv(sys) && Enabled(sys, step)
    requires step.WriteStep? || step.TakeStep? || step.CancelStep? || step.SeeClosedStep? || step.ReturnStep?
             || step.RegisterStep?
    ensures Inv(Apply(sys, step))
  {
    hide Apply, Inv, CallInv, PendingMoves;
    var call, next := step.call, Apply(sys, step);
    CallStepMoves(sys, step);
    MoveKeeps(sys, call, next.calls[call], next.session);
  }

  lemma CallStepMoves(sys: System, step: Step)
    requires Inv(sys) && Enabled(sys, step)
    requires step.WriteStep? || step.TakeStep? || step.CancelStep? || step.SeeClosedStep? || step.ReturnStep?
             || step.RegisterStep?
    ensures var call, next := step.call, Apply(sys, step);
            && call in sys.calls && call in next.calls && call in next.session.slots
            && next == sys.(session := next.session, calls := sys.calls[call := next.calls[call]])
            && next.session.nextId == sys.session.nextId && next.session.closed == sys.session.closed
            && next.session.slots == sys.session.slots[call := next.session.slots[call]]
            && PendingMoves(sys.session.pending, next.session.pending, call, Open(next.calls[call].phase))
            && CallInv(call, next.calls[call], next.session.slots[call], next.session.closed)
            && !next.calls[call].phase.Numbered?
  {
    hide Decimal, ReaderInv, PendingInv;
    NotPending(sys, step.call);
  }

  /** A call that is not open has no entry under its identifier. */
  lemma NotPending(sys: System, call: nat)
    requires Inv(sys)
    ensures Decimal(call) in sys.session.pending <==> call in sys.calls && Open(sys.calls[call].phase)
    ensures Decimal(call) in sys.session.pending ==> sys.session.pending[Decimal(call)] == call
  {
    hide CallInv, Decimal;
    if Decimal(call) in sys.session.pending {
      DecimalIsInjective(call, sys.session.pending[Decimal(call)]);
    }
  }

  lemma NumberedIsNotPending(pending: map<string, nat>, calls: map<nat, Call>, call: nat)
    requires PendingInv(pending, calls) && call !in calls
    ensures PendingInv(pending, calls[call := Call(Numbered, [])])
  {
    hide Decimal;
  }

  lemma NumberedFits(call: nat, closed: bool)
    ensures CallInv(call, Call(Numbered, []), None, closed)
  {
    hide Decimal;
  }

  lemma BeginKeeps(sys: System)
    requires Inv(sys)
    ensures Inv(Apply(sys, BeginStep))
  {
    hide Decimal, CallInv, PendingInv;
    var call := sys.session.nextId + 1;
    assert call !in sys.calls;
    NumberedIsNotPending(sys.session.pending, sys.calls, call);
    NumberedFits(call, sys.session.closed);
  }

  lemma ReaderStepKeeps(sys: System, step: Step)
    requires Inv(sys) && Enabled(sys, step) && (step.ReceiveStep? || step.LookUpStep?)
    ensures Inv(Apply(sys, step))
  {
    hide Decimal, CallInv;
  }

  /** A reply put in an empty slot is the first to arrive, unless the call has stopped listening. */
  lemma OfferedFits(call: nat, c: Call, message: Message, closed: bool)
    requires CallInv(call, c, None, closed) && !c.phase.Numbered?
    requires message.typ == "response" && message.id == Decimal(call)
    ensures CallInv(call, c.(arrived := c.arrived + [message]), Some(ReplyOf(message)), closed)
  {
    hide Decimal;
  }

  lemma OfferKeeps(sys: System)
    requires Inv(sys) && Enabled(sys, OfferStep)
    ensures Inv(Apply(sys, OfferStep))
  {
    hide Decimal, CallInv;
    var Holding(call, message) := sys.reader;
    if sys.session.slots[call].None? {
      var c := sys.calls[call].(arrived := sys.calls[call].arrived + [message]);
      OfferedFits(call, sys.calls[call], message, sys.session.closed);
      var session := Offer(sys.session, call, ReplyOf(message));
      NotPending(sys, call);
      MoveKeeps(sys.(reader := Idle), call, c, session);
    }
  }

  lemma CloseKeeps(sys: System)
    requires Inv(sys)
    ensures Inv(Apply(sys, CloseStep))
  {
    hide Decimal;
  }

  lemma StepKeeps(sys: System, step: Step)
    requires Inv(sys) && Enabled(sys, step)
    ensures Inv(Apply(sys, step))
  {
    hide Inv;
    match step
    case BeginStep => BeginKeeps(sys);
    case ReceiveStep(_) => ReaderStepKeeps(sys, step);
    case LookUpStep => ReaderStepKeeps(sys, step);
    case OfferStep => OfferKeeps(sys);
    case CloseStep => CloseKeeps(sys);
    case _ => CallStepKeeps(sys, step);
  }

  // ----- Runs

  ghost predicate Run(states: seq<System>, steps: seq<Step>) {
    && |states| == |steps| + 1
    && states[0] == INITIAL
    && forall i :: 0 <= i < |steps| ==> Enabled(states[i], steps[i]) && states[i + 1] == Apply(states[i], steps[i])
  }

  lemma {:induction false} RunKeepsInv(states: seq<System>, steps: seq<Step>, k: nat)
    requires Run(states, steps) && k <= |steps|
    ensures Inv(states[k])
  {
    hide Enabled, Apply;
    if k > 0 {
      RunKeepsInv(states, steps, k - 1);
      StepKeeps(states[k - 1], steps[k - 1]);
    }
  }

  /**
   A call that returns a reply returns the one for the first message to enter
   its channel, a message that bears the call's own identifier; it reports a
   disconnect only if the session has closed.
   */
  lemma RepliesAreTheCallsOwn(states: seq<System>, steps: seq<Step>, k: nat, call: nat)
    requires Run(states, steps) && k <= |steps| && call in states[k].calls && states[k].calls[call].phase.Returned?
    ensures var Call(Returned(outcome), arrived) := states[k].calls[call];
            && (outcome.Replied? ==>
                  arrived != [] && outcome.reply == ReplyOf(arrived[0]) && arrived[0].id == Decimal(call))
            && (outcome.Disconnected? ==> states[k].session.closed)
  {
    hide Enabled, Apply, Decimal;
    RunKeepsInv(states, steps, k);
    assert CallInv(call, states[k].calls[call], states[k].session.slots[call], states[k].session.closed);
  }

  /** What a caller is told by a message: its result, and an error if the engine gave one or was not successful. */
  ghost predicate Tells(m: Message, r: Reply) {
    && r.result == m.result
    && (r.error.None? <==> m.ok && m.error.None?)
    && (m.error.Some? ==> r.error == m.error)
    && (!m.ok && m.error.None? ==> r.error == Some("invalid_engine_response"))
  }

  lemma ReplyTells(m: Message)
    ensures Tells(m, ReplyOf(m))
  {
  }

  /** What a call returns is what the first response with its identifier tells, and nothing else. */
  lemma RepliesTellTheResponse(states: seq<System>, steps: seq<Step>, k: nat, call: nat)
    requires Run(states, steps) && k <= |steps| && call in states[k].calls
    requires states[k].calls[call].phase.Returned? && states[k].calls[call].phase.outcome.Replied?
    ensures var Call(Returned(Replied(r)), arrived) := states[k].calls[call];
            && arrived != [] && Tells(arrived[0], r)
            && arrived[0].typ == "response" && arrived[0].id == Decimal(call)
  {
    hide Enabled, Apply, Decimal, ReplyOf, Tells;
    RunKeepsInv(states, steps, k);
    assert CallInv(call, states[k].calls[call], states[k].session.slots[call], states[k].session.closed);
    ReplyTells(states[k].calls[call].arrived[0]);
  }

  /** The reader takes up responses with an identifier, and passes over every other message. */
  lemma OnlyResponsesAreRead(states: seq<System>, steps: seq<Step>, k: nat)
    requires Run(states, steps) && k < |steps| && steps[k].ReceiveStep?
    ensures var m := steps[k].message;
            states[k + 1].reader == if m.typ == "response" && m.id != "" then Received(m) else Idle
  {
    hide Decimal;
  }

  /** Received, looked up, offered, taken, returned. */
  ghost predicate IsDelivery(states: seq<System>, steps: seq<Step>, k: nat, call: nat, m: Message) {
    && k + 5 <= |steps| < |states| && At(states[k], call, Waiting) && states[k].calls[call].arrived == []
    && steps[k] == ReceiveStep(m) && steps[k + 1] == LookUpStep && steps[k + 2] == OfferStep
    && steps[k + 3] == TakeStep(call) && steps[k + 4] == ReturnStep(call)
  }

  /** A response to a waiting call that is passed on at once is what the call returns. */
  lemma ResponsesAreDelivered(states: seq<System>, steps: seq<Step>, k: nat, call: nat, m: Message)
    requires Run(states, steps) && IsDelivery(states, steps, k, call, m)
    requires m.typ == "response" && m.id == Decimal(call)
    ensures call in states[k + 5].calls && states[k + 5].calls[call].phase.Returned?
    ensures var outcome := states[k + 5].calls[call].phase.outcome;
            outcome.Replied? && Tells(m, outcome.reply)
  {
    hide Decimal, Tells, ReplyOf, CallInv, PendingInv;
    RunKeepsInv(states, steps, k);
    NotPending(states[k], call);
    var sys := states[k];
    ReplyTells(m);
    WaitingSlotIsEmpty(sys, call);
    assert states[k + 1] == sys.(reader := Received(m));
    assert states[k + 2] == sys.(reader := Holding(call, m));
    Offered(sys, call, m);
    assert states[k + 3] == Delivered(sys, call, m);
    assert At(states[k + 3], call, Waiting);
    assert states[k + 4].calls[call].phase == Returning(Replied(ReplyOf(m)));
  }

  lemma WaitingSlotIsEmpty(sys: System, call: nat)
    requires Inv(sys) && At(sys, call, Waiting) && sys.calls[call].arrived == []
    ensures call in sys.session.slots && sys.session.slots[call] == None
    ensures Decimal(call) in sys.session.pending && sys.session.pending[Decimal(call)] == call
  {
    hide Decimal;
    assert CallInv(call, sys.calls[call], sys.session.slots[call], sys.session.closed);
    NotPending(sys, call);
    assert Open(sys.calls[call].phase);
    DecimalIsInjective(sys.session.pending[Decimal(call)], call);
  }

  ghost function Delivered(sys: System, call: nat, m: Message): System {
    System(Offer(sys.session, call, ReplyOf(m)), Arrive(sys.calls, call, m), Idle)
  }

  lemma Offered(sys: System, call: nat, m: Message)
    requires call in sys.session.slots && sys.session.slots[call] == None
    ensures Enabled(sys.(reader := Holding(call, m)), OfferStep)
    ensures Apply(sys.(reader := Holding(call, m)), OfferStep) == Delivered(sys, call, m)
    ensures call in Delivered(sys, call, m).session.slots
    ensures Delivered(sys, call, m).session.slots[call] == Some(ReplyOf(m))
  {
    hide ReplyOf;
  }

  /** `pending` holds exactly the calls between registration and return. */
  lemma PendingIsTheOpenCalls(states: seq<System>, steps: seq<Step>, k: nat, call: nat)
    requires Run(states, steps) && k <= |steps|
    ensures Decimal(call) in states[k].session.pending <==> call in states[k].calls && Open(states[k].calls[call].phase)
    ensures forall id :: id in states[k].session.pending ==> id == Decimal(states[k].session.pending[id])
  {
    hide Enabled, Apply, Decimal, CallInv;
    RunKeepsInv(states, steps, k);
    NotPending(states[k], call);
  }

  /** A reply that has reached a waiting call's channel stays there until the call takes it. */
  lemma NoReplyIsLost(states: seq<System>, steps: seq<Step>, k: nat, call: nat)
    requires Run(states, steps) && k <= |steps| && At(states[k], call, Waiting)
    ensures states[k].calls[call].arrived != [] <==> Enabled(states[k], TakeStep(call))
    ensures Enabled(states[k], TakeStep(call)) ==>
              Apply(states[k], TakeStep(call)).calls[call].phase
                  == Returning(Replied(ReplyOf(states[k].calls[call].arrived[0])))
  {
    hide Decimal;
    RunKeepsInv(states, steps, k);
    assert CallInv(call, states[k].calls[call], states[k].session.slots[call], states[k].session.closed);
  }

  /** Only a response that was looked up while its call was open can enter the call's channel. */
  lemma LateRepliesFindNobody(states: seq<System>, steps: seq<Step>, k: nat, call: nat)
    requires Run(states, steps) && k < |steps| && steps[k] == LookUpStep && states[k].reader.message.id == Decimal(call)
    ensures states[k + 1].reader ==
            if call in states[k].calls && Open(states[k].calls[call].phase)
                then Holding(call, states[k].reader.message) else Idle
  {
    hide Decimal, CallInv;
    RunKeepsInv(states, steps, k);
    NotPending(states[k], call);
  }
}
