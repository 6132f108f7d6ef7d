/** The state that the connection mutex guards, and the lock-protected sections as functions of it. */
module Locked {
  import opened LittleEndian
  import opened Frames

  datatype Option<T> = None | Some(value: T)

  /** A key and an owned payload: a procedure call, or an exception key with its value. */
  datatype Message = Message(key: nat, payload: Bytes)

  /** Why the connection became terminal. */
  datatype Cause =
    | Closed
    | ContextDone
    | ReadFailed
    | FrameTooLong
    | WriteFailed
    | IdAlreadyActive(id: nat)
    | BadResponse(id: nat)

  datatype IncomingCall = IncomingCall(writing: bool, deferred: Option<Message>)

  /** `pending` maps a request ID to the call that waits for its outcome. */
  datatype State = State(
    cause: Option<Cause>,
    nextId: nat,
    pending: map<nat, nat>,
    incoming: map<nat, IncomingCall>)

  datatype Admission = Discard | Dispatch | Deferred | Terminal

  const INITIAL := State(None, 0, map[], map[])

  /** `selectTerminal`: only the first cause is kept; both maps are drained with it. */
  function SelectTerminal(s: State, cause: Cause): State {
    if s.cause.Some? then s else s.(cause := Some(cause), pending := map[], incoming := map[])
  }

  /** The pending calls whose ownership `selectTerminal` transfers to the cleanup owner. */
  function Claims(s: State): set<nat> {
    if s.cause.Some? then {} else s.pending.Values
  }

  /** The admission of an outgoing call: one ID, one pending entry. */
  function AdmitCall(s: State, call: nat): State {
    s.(nextId := s.nextId + 1, pending := s.pending[s.nextId := call])
  }

  /** `claimResponse` and `claimCancel` both claim by removal. */
  function RemovePending(s: State, id: nat): State {
    s.(pending := s.pending - {id})
  }

  function AdmitResult(s: State, id: nat): Admission {
    if s.cause.Some? then Discard
    else if id !in s.incoming then Dispatch
    else if s.incoming[id].writing && s.incoming[id].deferred.None? then Deferred
    else Terminal
  }

  function AdmitIncoming(s: State, id: nat, m: Message): State {
    match AdmitResult(s, id)
    case Dispatch => s.(incoming := s.incoming[id := IncomingCall(false, None)])
    case Deferred => s.(incoming := s.incoming[id := IncomingCall(true, Some(m))])
    case _ => s
  }

  function MarkWriting(s: State, id: nat): State {
    if id in s.incoming then s.(incoming := s.incoming[id := s.incoming[id].(writing := true)]) else s
  }

  /** The deferred generation that a completed response write admits, if any. */
  function Promoted(s: State, id: nat): Option<Message> {
    if id in s.incoming then s.incoming[id].deferred else None
  }

  function CompleteWrite(s: State, id: nat): State {
    if id !in s.incoming then s
    else if s.incoming[id].deferred.None? then s.(incoming := s.incoming - {id})
    else s.(incoming := s.incoming[id := IncomingCall(false, None)])
  }
}
