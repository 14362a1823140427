/**
 One engine session and the store of sessions (AgentBridge/session.go): the
 critical sections, as functions on the state and as the methods that
 perform them.
 */
module Sessions {
  import opened Common
  import opened Decimals
  import opened SessionTable

  // ----- Messages

  /** `result` and `error` are the raw JSON of a reply. */
  datatype Message = Message(typ: string, id: string, ok: bool, result: string, error: Option<string>)

  datatype Reply = Reply(result: string, error: Option<string>)

  const INVALID_ENGINE_RESPONSE := "invalid_engine_response"

  predicate IsReply(m: Message) {
    m.typ == "response" && m.id != ""
  }

  /** An unsuccessful response that names no error is given one. */
  function ReplyOf(m: Message): Reply {
    Reply(m.result, if !m.ok && m.error.None? then Some(INVALID_ENGINE_RESPONSE) else m.error)
  }

  // ----- The state of a session

  /** `slots` are the one-slot reply channels made so far, by the number of the call that made them. */
  datatype State = State(nextId: nat, pending: map<string, nat>, slots: map<nat, Option<Reply>>, closed: bool)

  function Begin(s: State): State {
    s.(nextId := s.nextId + 1, slots := s.slots[s.nextId + 1 := None])
  }

  function Register(s: State, call: nat): State {
    if s.closed then s else s.(pending := s.pending[Decimal(call) := call])
  }

  function Forget(s: State, call: nat): State {
    s.(pending := s.pending - {Decimal(call)})
  }

  function LookUp(s: State, id: string): Option<nat> {
    if id in s.pending then Some(s.pending[id]) else None
  }

  /** A send that does not block: a full slot drops the new reply. */
  function Offer(s: State, call: nat, reply: Reply): State {
    if call in s.slots && s.slots[call].Some? then s else s.(slots := s.slots[call := Some(reply)])
  }

  function Take(s: State, call: nat): State {
    s.(slots := s.slots[call := None])
  }

  function Close(s: State): State {
    s.(closed := true)
  }

  class Session {
    const id: string
    var nextId: nat
    var pending: map<string, nat>
    var slots: map<nat, Option<Reply>>
    var closed: bool

    function Current(): State
      reads this
    {
      State(nextId, pending, slots, closed)
    }

    constructor (id: string)
      ensures this.id == id && Current() == State(0, map[], map[], false)
    {
      this.id := id;
      nextId, pending, slots, closed := 0, map[], map[], false;
    }

    /** The request's number and its reply channel. */
    method BeginCall() returns (call: nat, requestId: string)
      modifies this
      ensures Current() == Begin(old(Current())) && call == nextId && requestId == Decimal(call)
    {
      nextId := nextId + 1;
      call, requestId := nextId, Decimal(nextId);
      slots := slots[call := None];
    }

    method RegisterCall(call: nat, requestId: string) returns (open: bool)
      requires requestId == Decimal(call)
      modifies this`pending
      ensures Current() == Register(old(Current()), call) && open == !closed
    {
      if closed {
        return false;
      }
      pending := pending[requestId := call];
      return true;
    }

    /** The deferred deletion at the end of every registered call. */
    method ForgetCall(call: nat, requestId: string)
      requires requestId == Decimal(call)
      modifies this`pending
      ensures Current() == Forget(old(Current()), call)
    {
      pending := pending - {requestId};
    }

    /** One turn of readLoop: the lookup under the lock, the send outside it. */
    method Dispatch(message: Message)
      modifies this`slots
      ensures Current() ==
              if !IsReply(message) || message.id !in pending then old(Current())
              else Offer(old(Current()), pending[message.id], ReplyOf(message))
    {
      if message.typ != "response" || message.id == "" {
        return;
      }
      var error := message.error;
      if !message.ok && error.None? {
        error := Some(INVALID_ENGINE_RESPONSE);
      }
      if message.id !in pending {
        return;
      }
      var waiter := pending[message.id];
      if waiter in slots && slots[waiter].Some? {
        return;
      }
      slots := slots[waiter := Some(Reply(message.result, error))];
    }

    method CloseOnce()
      modifies this`closed
      ensures Current() == Close(old(Current()))
    {
      if !closed {
        closed := true;
      }
    }
  }

  class SessionStore {
    var sessions: map<string, Session>

    constructor ()
      ensures sessions == map[]
    {
      sessions := map[];
    }

    /** What stands registered under an identifier. */
    ghost function Holder(id: string): set<Session>
      reads this
    {
      match Found(sessions, id)
      case None => {}
      case Some(session) => {session}
    }

    /** The newcomer takes the identifier, and only a different session that held it is closed. */
    method RegisterSession(session: Session)
      modifies this, Holder(session.id)`closed
      ensures sessions == Registered(old(sessions), session.id, session)
      ensures forall other :: other in old(Holder(session.id)) && other != session ==> other.closed
      ensures session.closed == old(session.closed)
    {
      var previous: Session? := if session.id in sessions then sessions[session.id] else null;
      sessions := sessions[session.id := session];
      if previous != null && previous != session {
        previous.CloseOnce();
      }
    }

    /** A session takes only itself out: its successor stays. */
    method RemoveSession(session: Session)
      modifies this
      ensures sessions == Removed(old(sessions), session.id, session)
    {
      if session.id in sessions && sessions[session.id] == session {
        sessions := sessions - {session.id};
      }
    }

    method Get(id: string) returns (session: Session?)
      ensures Found(sessions, id) == if session == null then None else Some(session)
    {
      if id in sessions {
        return sessions[id];
      }
      return null;
    }

    /** Empties the store and closes every session that was in it. */
    method CloseAll()
      modifies this, set id | id in sessions :: sessions[id]
      ensures sessions == map[]
      ensures forall id :: id in old(sessions) ==> old(sessions)[id].closed
    {
      ghost var before := sessions;
      var left := sessions.Values;
      sessions := map[];
      while left != {}
        invariant left <= before.Values && sessions == map[]
        invariant forall session :: session in before.Values - left ==> session.closed
        decreases |left|
      {
        var session :| session in left;
        session.CloseOnce();
        left := left - {session};
      }
      assert forall id :: id in before ==> before[id] in before.Values;
    }
  }
}
