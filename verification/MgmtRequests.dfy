/** The request half of the management client: two send queues, the pending list, and the
    one-shot write watch.

    `State` and `Step` say what every call and every main-loop dispatch does; `Mgmt` is the
    object the source updates in place, and each of its methods is proved to perform the
    corresponding step. */
module MgmtRequests {

  const UINT_MODULUS: nat := 0x1_0000_0000
  const STATUS_FAILED: nat := 0x03

  /** Which of the two send queues a request was pushed on. */
  datatype Origin = Ordinary | Reply

  /** `serial` names the heap block of the request: the n-th accepted request has serial n. */
  datatype Request = Request(serial: nat, id: nat, opcode: nat, index: nat, origin: Origin, hasCallback: bool)

  /** The arguments of mgmt_send and mgmt_reply. */
  datatype Call = Call(opcode: nat, index: nat, length: nat, hasParam: bool, hasCallback: bool)

  /** What an observer sees happen to a request. */
  datatype Event =
    | Written(r: Request)
    | Answered(r: Request)
    | CallbackRun(r: Request, status: nat)
    | Destroyed(r: Request)

  datatype State = State(
    requestQueue: seq<Request>,
    replyQueue: seq<Request>,
    pending: seq<Request>,
    writeWatch: bool,
    nextId: nat,
    accepted: nat,
    log: seq<Event>)

  const Initial := State([], [], [], false, 0, 0, [])

  // ---------------------------------------------------------------- list helpers

  /** Where the first request satisfying `p` sits, or |xs|. */
  function FirstIndex(xs: seq<Request>, p: Request -> bool): (i: nat)
    ensures i <= |xs|
    ensures i < |xs| ==> p(xs[i])
    ensures forall j :: 0 <= j < i ==> !p(xs[j])
  {
    if xs == [] || p(xs[0]) then 0 else 1 + FirstIndex(xs[1..], p)
  }

  function Without(xs: seq<Request>, i: nat): seq<Request>
    requires i < |xs|
  {
    xs[..i] + xs[i + 1..]
  }

  function OtherIndex(xs: seq<Request>, index: nat): seq<Request> {
    if xs == [] then []
    else (if xs[0].index != index then [xs[0]] else []) + OtherIndex(xs[1..], index)
  }

  function SameIndex(xs: seq<Request>, index: nat): seq<Request> {
    if xs == [] then []
    else (if xs[0].index == index then [xs[0]] else []) + SameIndex(xs[1..], index)
  }

  function DestroyAll(xs: seq<Request>): (es: seq<Event>)
    ensures |es| == |xs|
    ensures forall i :: 0 <= i < |xs| ==> es[i] == Destroyed(xs[i])
  {
    seq(|xs|, i requires 0 <= i < |xs| => Destroyed(xs[i]))
  }

  // ---------------------------------------------------------------- the calls

  /** create_request refuses a zero opcode and a missing parameter block. */
  predicate Acceptable(c: Call) {
    c.opcode != 0 && (c.length > 0 ==> c.hasParam)
  }

  function NormalId(nextId: nat): nat {
    if nextId < 1 then 1 else nextId
  }

  function NewRequest(s: State, c: Call, origin: Origin): Request {
    Request(s.accepted, NormalId(s.nextId), c.opcode, c.index, origin, c.hasCallback)
  }

  function WakeupWriter(s: State): State {
    if s.pending != [] && s.replyQueue == [] then s else s.(writeWatch := true)
  }

  function Allocate(s: State): State {
    s.(nextId := (NormalId(s.nextId) + 1) % UINT_MODULUS, accepted := s.accepted + 1)
  }

  function Send(s: State, c: Call): State {
    if !Acceptable(c) then s
    else WakeupWriter(Allocate(s).(requestQueue := s.requestQueue + [NewRequest(s, c, Ordinary)]))
  }

  function SendReply(s: State, c: Call): State {
    if !Acceptable(c) then s
    else WakeupWriter(Allocate(s).(replyQueue := s.replyQueue + [NewRequest(s, c, Reply)]))
  }

  /** What destroying a request after a failed write leaves in the log. */
  function FailureEvents(r: Request): seq<Event> {
    (if r.hasCallback then [CallbackRun(r, STATUS_FAILED)] else []) + [Destroyed(r)]
  }

  /** A failed write keeps the watch; a successful one is followed by waiting for the answer. */
  function WriteOut(s: State, r: Request, writeFails: bool): State {
    if writeFails then s.(log := s.log + FailureEvents(r))
    else s.(pending := s.pending + [r], log := s.log + [Written(r)], writeWatch := false)
  }

  function CanWriteData(s: State, hangup: bool, writeFails: bool): State {
    if hangup then s.(writeWatch := false)
    else if s.replyQueue != [] then
      WriteOut(s.(replyQueue := s.replyQueue[1..]), s.replyQueue[0], writeFails)
    else if s.pending == [] && s.requestQueue != [] then
      WriteOut(s.(requestQueue := s.requestQueue[1..]), s.requestQueue[0], writeFails)
    else s.(writeWatch := false)
  }

  predicate Matches(r: Request, opcode: nat, index: nat) {
    r.opcode == opcode && r.index == index
  }

  function LookupPending(s: State, opcode: nat, index: nat): nat {
    FirstIndex(s.pending, (r: Request) => Matches(r, opcode, index))
  }

  function AnswerEvents(r: Request, status: nat): seq<Event> {
    [Answered(r)] + (if r.hasCallback then [CallbackRun(r, status)] else []) + [Destroyed(r)]
  }

  function RequestComplete(s: State, status: nat, opcode: nat, index: nat): State {
    var i := LookupPending(s, opcode, index);
    if i == |s.pending| then s
    else WakeupWriter(s.(pending := Without(s.pending, i), log := s.log + AnswerEvents(s.pending[i], status)))
  }

  function FindId(xs: seq<Request>, id: nat): nat {
    FirstIndex(xs, (r: Request) => r.id == id)
  }

  function Cancel(s: State, id: nat): State {
    var i, j, k := FindId(s.requestQueue, id), FindId(s.replyQueue, id), FindId(s.pending, id);
    if id == 0 then s
    else if i < |s.requestQueue| then
      WakeupWriter(s.(requestQueue := Without(s.requestQueue, i), log := s.log + [Destroyed(s.requestQueue[i])]))
    else if j < |s.replyQueue| then
      WakeupWriter(s.(replyQueue := Without(s.replyQueue, j), log := s.log + [Destroyed(s.replyQueue[j])]))
    else if k < |s.pending| then
      WakeupWriter(s.(pending := Without(s.pending, k), log := s.log + [Destroyed(s.pending[k])]))
    else s
  }

  /** Unlike the other cancellations this one does not wake the writer. */
  function CancelIndex(s: State, index: nat): State {
    s.(requestQueue := OtherIndex(s.requestQueue, index),
       replyQueue := OtherIndex(s.replyQueue, index),
       pending := OtherIndex(s.pending, index),
       log := s.log + DestroyAll(SameIndex(s.requestQueue, index) + SameIndex(s.replyQueue, index)
                                 + SameIndex(s.pending, index)))
  }

  function CancelAll(s: State): State {
    s.(requestQueue := [], replyQueue := [], pending := [],
       log := s.log + DestroyAll(s.pending + s.replyQueue + s.requestQueue))
  }

  // ---------------------------------------------------------------- runs

  datatype Action =
    | DoSend(call: Call)
    | DoReply(call: Call)
    | WriteReady(hangup: bool, writeFails: bool)
    | Response(status: nat, opcode: nat, index: nat)
    | DoCancel(id: nat)
    | DoCancelIndex(index: nat)
    | DoCancelAll

  /** The main loop calls the writer only while its watch is armed. */
  function Step(s: State, a: Action): State {
    match a
    case DoSend(c) => Send(s, c)
    case DoReply(c) => SendReply(s, c)
    case WriteReady(hangup, fails) => if s.writeWatch then CanWriteData(s, hangup, fails) else s
    case Response(status, opcode, index) => RequestComplete(s, status, opcode, index)
    case DoCancel(id) => Cancel(s, id)
    case DoCancelIndex(index) => CancelIndex(s, index)
    case DoCancelAll => CancelAll(s)
  }

  function Run(actions: seq<Action>): State {
    if actions == [] then Initial
    else Step(Run(actions[..|actions| - 1]), actions[|actions| - 1])
  }
}
