/** Pending L2CAP requests of the emulated host (Bluetooth Core Specification, Volume 3, Part A,
    section 4): each is answered by the first well-formed signalling packet with its identifier, or
    else when the host is destroyed. Callbacks do not call back into the host. */
module L2capRequests {
  import opened Arithmetic
  import opened Octets
  import opened Options
  import opened AclPackets

  const SIGNALLING: nat := 0x0001
  const LE_SIGNALLING: nat := 0x0005

  /** `serial` tells apart the registered requests. */
  datatype Req = Req(serial: nat, ident: byte)

  datatype Fired = Fired(serial: nat, code: nat)

  datatype Host = Host(handles: seq<nat>, requests: seq<Req>, registered: nat, log: seq<Fired>)

  const NewHost := Host([], [], 0, [])

  /** The identifier of a packet sent without one: the counter starts over with every packet. */
  function NextIdent(): byte {
    1
  }

  function Without(handles: seq<nat>, handle: nat): seq<nat> {
    if handles == [] then []
    else if handles[0] == handle then Without(handles[1..], handle)
    else [handles[0]] + Without(handles[1..], handle)
  }

  function Connected(h: Host, handle: nat): Host {
    h.(handles := [handle] + h.handles)
  }

  function Disconnected(h: Host, handle: nat): Host {
    h.(handles := Without(h.handles, handle))
  }

  function Request(h: Host, handle: nat, hasCallback: bool): Host {
    if handle !in h.handles || !hasCallback then h
    else h.(requests := [Req(h.registered, NextIdent())] + h.requests, registered := h.registered + 1)
  }

  datatype Signal = Signal(code: byte, ident: byte)

  /** The signalling header, if the packet carries one and its length is right. */
  function SignalOf(handles: seq<nat>, packet: seq<byte>): Option<Signal> {
    var frame := ProcessAcl(handles, packet);
    if frame.None? || frame.value.cid !in {SIGNALLING, LE_SIGNALLING} then None
    else
      var p := frame.value.payload;
      if |p| < 4 || 4 + Value16(p[2..4]) != |p| then None else Some(Signal(p[0], p[1]))
  }

  function Rest(requests: seq<Req>, ident: byte): seq<Req> {
    if requests == [] then []
    else if requests[0].ident != ident then [requests[0]] + Rest(requests[1..], ident)
    else Rest(requests[1..], ident)
  }

  function Answers(requests: seq<Req>, ident: byte, code: byte): seq<Fired> {
    if requests == [] then []
    else if requests[0].ident != ident then Answers(requests[1..], ident, code)
    else [Fired(requests[0].serial, code)] + Answers(requests[1..], ident, code)
  }

  function HandlePending(h: Host, ident: byte, code: byte): Host {
    h.(requests := Rest(h.requests, ident), log := h.log + Answers(h.requests, ident, code))
  }

  function Receive(h: Host, packet: seq<byte>): Host {
    var signal := SignalOf(h.handles, packet);
    if signal.None? then h else HandlePending(h, signal.value.ident, signal.value.code)
  }

  function AllFired(requests: seq<Req>, code: nat): seq<Fired> {
    seq(|requests|, i requires 0 <= i < |requests| => Fired(requests[i].serial, code))
  }

  function Destroy(h: Host): Host {
    Host([], [], h.registered, h.log + AllFired(h.requests, 0))
  }

  datatype Action =
    | Connect(handle: nat)
    | Disconnect(handle: nat)
    | Ask(handle: nat, hasCallback: bool)
    | Packet(data: seq<byte>)

  function Step(h: Host, a: Action): Host {
    match a
    case Connect(handle) => Connected(h, handle)
    case Disconnect(handle) => Disconnected(h, handle)
    case Ask(handle, hasCallback) => Request(h, handle, hasCallback)
    case Packet(data) => Receive(h, data)
  }

  function Run(actions: seq<Action>): Host {
    if actions == [] then NewHost else Step(Run(actions[..|actions| - 1]), actions[|actions| - 1])
  }

  // ---------------------------------------------------------------- one pass over the list

  /** The requests at the given places, in that order. */
  function At(requests: seq<Req>, places: seq<nat>): seq<Req>
    requires forall i :: 0 <= i < |places| ==> places[i] < |requests|
  {
    seq(|places|, i requires 0 <= i < |places| => requests[places[i]])
  }

  predicate Increasing(places: seq<nat>) {
    forall i, j :: 0 <= i < j < |places| ==> places[i] < places[j]
  }

  function Next(places: seq<nat>): seq<nat> {
    seq(|places|, i requires 0 <= i < |places| => places[i] + 1)
  }

  lemma AtNext(requests: seq<Req>, places: seq<nat>)
    requires requests != [] && forall i :: 0 <= i < |places| ==> places[i] < |requests| - 1
    ensures At(requests, Next(places)) == At(requests[1..], places)
    ensures At(requests, [0] + Next(places)) == [requests[0]] + At(requests[1..], places)
    ensures Increasing(places) ==> Increasing(Next(places)) && Increasing([0] + Next(places))
  {
  }

  /** The pass takes out the matching requests and no others; both parts keep their order. */
  lemma {:induction false} PassSplits(requests: seq<Req>, ident: byte, code: byte)
    returns (kept: seq<nat>, taken: seq<nat>)
    ensures |kept| + |taken| == |requests| && Increasing(kept) && Increasing(taken)
    ensures forall i :: 0 <= i < |kept| ==> kept[i] < |requests| && requests[kept[i]].ident != ident
    ensures forall i :: 0 <= i < |taken| ==> taken[i] < |requests| && requests[taken[i]].ident == ident
    ensures Rest(requests, ident) == At(requests, kept)
    ensures Answers(requests, ident, code) == AllFired(At(requests, taken), code)
  {
    kept, taken := [], [];
    if requests != [] {
      var k, t := PassSplits(requests[1..], ident, code);
      AtNext(requests, k);
      AtNext(requests, t);
      if requests[0].ident != ident {
        kept, taken := [0] + Next(k), Next(t);
      } else {
        kept, taken := Next(k), [0] + Next(t);
      }
    }
  }

  // ---------------------------------------------------------------- connections and requests

  /** The last word on a handle was a connection. */
  predicate LastConnected(actions: seq<Action>, handle: nat) {
    actions != [] &&
    var a := actions[|actions| - 1];
    if a == Connect(handle) then true
    else if a == Disconnect(handle) then false
    else LastConnected(actions[..|actions| - 1], handle)
  }

  lemma {:induction false} WithoutMeans(handles: seq<nat>, handle: nat, h: nat)
    ensures h in Without(handles, handle) <==> h in handles && h != handle
  {
    if handles != [] { WithoutMeans(handles[1..], handle, h); }
  }

  /** The host knows a connection from when it comes up until it goes down. */
  lemma {:induction false} KnownIff(actions: seq<Action>, handle: nat)
    ensures handle in Run(actions).handles <==> LastConnected(actions, handle)
  {
    if actions != [] {
      var init, a := actions[..|actions| - 1], actions[|actions| - 1];
      KnownIff(init, handle);
      if a.Disconnect? { WithoutMeans(Run(init).handles, a.handle, handle); }
    }
  }

  /** A request is registered in front, with identifier 1, if its connection is known and it has a callback,
      and not otherwise. */
  lemma AskRegisters(h: Host, handle: nat, hasCallback: bool)
    ensures var h' := Step(h, Ask(handle, hasCallback));
            && (handle in h.handles && hasCallback ==>
                  h' == h.(requests := [Req(h.registered, 1)] + h.requests, registered := h.registered + 1))
            && (handle !in h.handles || !hasCallback ==> h' == h)
  {
  }

  // ---------------------------------------------------------------- which packets answer

  /** A data packet on a known connection, with the right lengths, on either signalling channel, and with
      a signalling header of the right length, by the offsets of these in the packet. */
  predicate AnswersSome(handles: seq<nat>, data: seq<byte>) {
    && |data| >= 12 && Value16(data[..2]) % 0x1000 in handles
    && 4 + Value16(data[2..4]) == 8 + Value16(data[4..6]) == 12 + Value16(data[10..12]) == |data|
    && (Value16(data[6..8]) == 0x0001 || Value16(data[6..8]) == 0x0005)
  }

  /** Byte 8 of such a packet is the code and byte 9 the identifier. */
  lemma SignalBytes(handles: seq<nat>, data: seq<byte>)
    ensures SignalOf(handles, data) ==
            if AnswersSome(handles, data) then Some(Signal(data[8], data[9])) else None
  {
    if |data| >= 12 { assert data[8..][2..4] == data[10..12] && data[8..][0] == data[8] && data[8..][1] == data[9]; }
  }

  /** A packet that answers takes out exactly the requests with its identifier, and runs their callbacks
      with its code, in list order; any other packet does nothing. */
  lemma ReceiveByBytes(h: Host, data: seq<byte>) returns (kept: seq<nat>, taken: seq<nat>)
    ensures !AnswersSome(h.handles, data) ==> Receive(h, data) == h
    ensures AnswersSome(h.handles, data) ==>
              && |kept| + |taken| == |h.requests| && Increasing(kept) && Increasing(taken)
              && (forall i :: 0 <= i < |kept| ==> kept[i] < |h.requests| && h.requests[kept[i]].ident != data[9])
              && (forall i :: 0 <= i < |taken| ==> taken[i] < |h.requests| && h.requests[taken[i]].ident == data[9])
              && Receive(h, data) == h.(requests := At(h.requests, kept),
                                        log := h.log + AllFired(At(h.requests, taken), data[8]))
  {
    SignalBytes(h.handles, data);
    kept, taken := [], [];
    if AnswersSome(h.handles, data) { kept, taken := PassSplits(h.requests, data[9], data[8]); }
  }

  /** So does whatever a host sends on a signalling channel with a header of two bytes, code and
      identifier, and the length of the rest. */
  lemma SentSignalAnswers(handles: seq<nat>, handle: nat, cid: nat, code: byte, ident: byte, rest: seq<byte>)
    requires handle < 0x1000 && handle in handles && (cid == 0x0001 || cid == 0x0005)
    requires |rest| + 4 <= MAX_PAYLOAD
    ensures var data := SendAcl(Frame(handle, cid, [code, ident] + Le16(|rest|) + rest))[1..];
            AnswersSome(handles, data) && data[8] == code && data[9] == ident
  {
    var f := Frame(handle, cid, [code, ident] + Le16(|rest|) + rest);
    var data := SendAcl(f)[1..];
    PacketBytes(f);
    ResidueUnique(handle, 0, handle, 0x1000);
    assert data[8..] == f.payload && f.payload[2..4] == Le16(|rest|);
    assert data[8..][2..4] == data[10..12];
    assert data[8] == data[8..][0] && data[9] == data[8..][1];
    LeValue16(|rest|);
  }

  // ---------------------------------------------------------------- exactly once

  function Held(requests: seq<Req>, serial: nat): nat {
    if requests == [] then 0 else (if requests[0].serial == serial then 1 else 0) + Held(requests[1..], serial)
  }

  /** The codes a request's callback was run with, in order. */
  function Codes(log: seq<Fired>, serial: nat): seq<nat> {
    if log == [] then []
    else if log[0].serial == serial then [log[0].code] + Codes(log[1..], serial)
    else Codes(log[1..], serial)
  }

  lemma {:induction false} CodesAppend(a: seq<Fired>, b: seq<Fired>, serial: nat)
    ensures Codes(a + b, serial) == Codes(a, serial) + Codes(b, serial)
  {
    if a == [] {
      assert a + b == b;
    } else {
      assert (a + b)[1..] == a[1..] + b;
      CodesAppend(a[1..], b, serial);
    }
  }

  predicate AllAutomatic(requests: seq<Req>) {
    forall i :: 0 <= i < |requests| ==> requests[i].ident == NextIdent()
  }

  function Repeat(code: nat, n: nat): seq<nat> {
    if n == 0 then [] else [code] + Repeat(code, n - 1)
  }

  lemma {:induction false} PassCounts(requests: seq<Req>, ident: byte, code: byte, serial: nat)
    requires AllAutomatic(requests)
    ensures Rest(requests, ident) == if ident == NextIdent() then [] else requests
    ensures Codes(Answers(requests, ident, code), serial) ==
            if ident == NextIdent() then Repeat(code, Held(requests, serial)) else []
  {
    if requests != [] {
      PassCounts(requests[1..], ident, code, serial);
      assert requests == [requests[0]] + requests[1..];
    }
  }

  lemma {:induction false} CancelCounts(requests: seq<Req>, serial: nat)
    ensures Codes(AllFired(requests, 0), serial) == Repeat(0, Held(requests, serial))
  {
    if requests != [] {
      CancelCounts(requests[1..], serial);
      assert AllFired(requests, 0) == [Fired(requests[0].serial, 0)] + AllFired(requests[1..], 0);
    }
  }

  /** Every identifier in the list is the automatic one, and serials are handed out in order. */
  predicate Valid(h: Host) {
    && AllAutomatic(h.requests)
    && (forall i :: 0 <= i < |h.requests| ==> h.requests[i].serial < h.registered)
    && (forall i :: 0 <= i < |h.log| ==> h.log[i].serial < h.registered)
  }

  lemma {:induction false} AnswersKnown(requests: seq<Req>, ident: byte, code: byte, bound: nat)
    requires forall i :: 0 <= i < |requests| ==> requests[i].serial < bound
    ensures forall f :: f in Answers(requests, ident, code) ==> f.serial < bound
  {
    if requests != [] { AnswersKnown(requests[1..], ident, code, bound); }
  }

  lemma ValidStep(h: Host, a: Action)
    requires Valid(h)
    ensures Valid(Step(h, a))
  {
    if a.Packet? && SignalOf(h.handles, a.data).Some? {
      var signal := SignalOf(h.handles, a.data).value;
      PassCounts(h.requests, signal.ident, signal.code, 0);
      AnswersKnown(h.requests, signal.ident, signal.code, h.registered);
    }
  }

  lemma {:induction false} ValidAlways(actions: seq<Action>)
    ensures Valid(Run(actions)) && forall i :: 0 <= i < |Run(actions).requests| ==> Run(actions).requests[i].ident == 1
  {
    if actions != [] {
      ValidAlways(actions[..|actions| - 1]);
      ValidStep(Run(actions[..|actions| - 1]), actions[|actions| - 1]);
    }
  }

  lemma {:induction false} UnknownNotHeld(requests: seq<Req>, log: seq<Fired>, serial: nat)
    requires forall i :: 0 <= i < |requests| ==> requests[i].serial < serial
    requires forall i :: 0 <= i < |log| ==> log[i].serial < serial
    ensures Held(requests, serial) == 0 && Codes(log, serial) == []
    decreases |requests| + |log|
  {
    if requests != [] { UnknownNotHeld(requests[1..], [], serial); }
    if log != [] { UnknownNotHeld([], log[1..], serial); }
  }

  /** Action k asks on a known connection and with a callback. */
  predicate Registers(actions: seq<Action>, k: nat)
    requires k < |actions|
  {
    var h, a := Run(actions[..k]), actions[k];
    a.Ask? && a.hasCallback && a.handle in h.handles
  }

  /** The code of the first well-formed signalling packet after action k with the identifier the
      request was sent under. */
  function FirstAnswer(actions: seq<Action>, k: nat): Option<nat>
    requires k < |actions|
  {
    if |actions| == k + 1 then None
    else
      var init, a := actions[..|actions| - 1], actions[|actions| - 1];
      var before := FirstAnswer(init, k);
      if before.Some? then before
      else
        var signal := if a.Packet? then SignalOf(Run(init).handles, a.data) else None;
        if signal.Some? && signal.value.ident == NextIdent() then Some(signal.value.code) else None
  }

  ghost predicate Settled(h: Host, serial: nat, answer: Option<nat>) {
    match answer
    case None => Held(h.requests, serial) == 1 && Codes(h.log, serial) == []
    case Some(code) => Held(h.requests, serial) == 0 && Codes(h.log, serial) == [code]
  }

  lemma SettledByPacket(h: Host, serial: nat, data: seq<byte>, answer: Option<nat>)
    requires Valid(h) && Settled(h, serial, answer)
    ensures var signal := SignalOf(h.handles, data);
            Settled(Receive(h, data), serial,
                    if answer.None? && signal.Some? && signal.value.ident == NextIdent()
                    then Some(signal.value.code) else answer)
  {
    var signal := SignalOf(h.handles, data);
    if signal.Some? {
      var ident, code := signal.value.ident, signal.value.code;
      PassCounts(h.requests, ident, code, serial);
      CodesAppend(h.log, Answers(h.requests, ident, code), serial);
      assert Repeat(code, 1) == [code] + Repeat(code, 0) == [code];
    }
  }

  lemma SettledByAsk(h: Host, serial: nat, a: Action, answer: Option<nat>)
    requires Valid(h) && serial < h.registered && Settled(h, serial, answer) && !a.Packet?
    ensures Settled(Step(h, a), serial, answer)
  {
    var h' := Step(h, a);
    if h'.requests != h.requests { assert h'.requests[1..] == h.requests; }
  }

  lemma {:induction false} RegisteredGrows(actions: seq<Action>, k: nat)
    requires k < |actions| && Registers(actions, k)
    ensures Run(actions[..k]).registered < Run(actions).registered
    decreases |actions|
  {
    var init := actions[..|actions| - 1];
    if k < |init| {
      assert init[..k] == actions[..k];
      RegisteredGrows(init, k);
    }
  }

  lemma {:induction false} SettledAlways(actions: seq<Action>, k: nat)
    requires k < |actions| && Registers(actions, k)
    ensures Settled(Run(actions), Run(actions[..k]).registered, FirstAnswer(actions, k))
    decreases |actions|
  {
    var init, a := actions[..|actions| - 1], actions[|actions| - 1];
    var h := Run(init);
    ValidAlways(init);
    if k == |init| {
      UnknownNotHeld(h.requests, h.log, h.registered);
      assert Run(actions).requests[1..] == h.requests;
    } else {
      assert init[..k] == actions[..k];
      SettledAlways(init, k);
      RegisteredGrows(init, k);
      var serial := Run(actions[..k]).registered;
      if a.Packet? {
        SettledByPacket(h, serial, a.data, FirstAnswer(init, k));
      } else {
        SettledByAsk(h, serial, a, FirstAnswer(init, k));
      }
    }
  }

  /** Over the host's whole life every registered request has its callback run exactly once: with the
      code of the first packet that answers it, or with code zero when the host is destroyed. */
  lemma FiresExactlyOnce(actions: seq<Action>, k: nat)
    requires k < |actions| && Registers(actions, k)
    ensures var serial, answer := Run(actions[..k]).registered, FirstAnswer(actions, k);
            Codes(Destroy(Run(actions)).log, serial) == [if answer.Some? then answer.value else 0]
  {
    var h, serial := Run(actions), Run(actions[..k]).registered;
    SettledAlways(actions, k);
    CancelCounts(h.requests, serial);
    CodesAppend(h.log, AllFired(h.requests, 0), serial);
    assert Repeat(0, 1) == [0] + Repeat(0, 0) == [0];
  }

  /** Since all identifiers are the same, one answer settles every request outstanding. */
  lemma OneAnswerSettlesAll(actions: seq<Action>, data: seq<byte>)
    requires SignalOf(Run(actions).handles, data).Some?
    requires SignalOf(Run(actions).handles, data).value.ident == NextIdent()
    ensures Receive(Run(actions), data).requests == []
    ensures |Receive(Run(actions), data).log| == |Run(actions).log| + |Run(actions).requests|
  {
    var h, signal := Run(actions), SignalOf(Run(actions).handles, data).value;
    ValidAlways(actions);
    PassCounts(h.requests, signal.ident, signal.code, 0);
    var kept, taken := PassSplits(h.requests, signal.ident, signal.code);
  }

  // ---------------------------------------------------------------- a life of one request

  /** A connection comes up and a request is sent on it; a command reject with identifier 1 answers it. */
  function AskOnly(): seq<Action> {
    [Connect(5)] + [Ask(5, true)]
  }

  function Reject(): seq<byte> {
    Headers(5, Frame(5, SIGNALLING, [1, 1, 0, 0])) + [1, 1, 0, 0]
  }

  lemma RunNext(actions: seq<Action>, a: Action)
    ensures Run(actions + [a]) == Step(Run(actions), a)
  {
    assert (actions + [a])[..|actions|] == actions;
  }

  lemma AskedHost()
    ensures Run(AskOnly()) == Host([5], [Req(0, NextIdent())], 1, [])
    ensures Registers(AskOnly(), 1) && FirstAnswer(AskOnly(), 1) == None
    ensures Run(AskOnly()[..1]).registered == 0
  {
    RunNext([], Connect(5));
    RunNext([Connect(5)], Ask(5, true));
    assert [] + [Connect(5)] == [Connect(5)];
    assert AskOnly()[..1] == [Connect(5)];
    assert Run([Connect(5)]) == Host([5], [], 0, []);
    assert [Req(0, NextIdent())] + [] == [Req(0, NextIdent())];
  }

  lemma RejectIsSignal()
    ensures SignalOf([5], Reject()) == Some(Signal(1, 1))
  {
    var f := Frame(5, SIGNALLING, [1, 1, 0, 0]);
    SendThenProcessSmall([5], f);
    assert SendAcl(f)[1..] == Reject();
    assert f.payload[2..4] == [0, 0];
  }

  /** A connection response with identifier 1. */
  function Response(): seq<byte> {
    Headers(5, Frame(5, SIGNALLING, [3, 1, 8, 0, 0x40, 0, 0x41, 0, 0, 0, 0, 0]))
    + [3, 1, 8, 0, 0x40, 0, 0x41, 0, 0, 0, 0, 0]
  }

  lemma ResponseIsSignal()
    ensures SignalOf([5], Response()) == Some(Signal(3, 1))
  {
    var f := Frame(5, SIGNALLING, [3, 1, 8, 0, 0x40, 0, 0x41, 0, 0, 0, 0, 0]);
    SendThenProcessSmall([5], f);
    assert SendAcl(f)[1..] == Response();
    assert f.payload[2..4] == [8, 0];
  }

  lemma AnsweredWith(data: seq<byte>, code: byte)
    requires SignalOf([5], data) == Some(Signal(code, 1))
    ensures Codes(Destroy(Run(AskOnly() + [Packet(data)])).log, 0) == [code]
    ensures Receive(Run(AskOnly()), data).requests == []
  {
    var answered := AskOnly() + [Packet(data)];
    AskedHost();
    OneAnswerSettlesAll(AskOnly(), data);
    assert answered[..|answered| - 1] == AskOnly() && answered[..1] == AskOnly()[..1];
    assert FirstAnswer(answered, 1) == Some(code as nat);
    FiresExactlyOnce(answered, 1);
  }

  /** Answered, its callback runs with the answer's code; unanswered, with code zero at the end. */
  lemma OneRequest()
    ensures Codes(Destroy(Run(AskOnly())).log, 0) == [0]
    ensures Codes(Destroy(Run(AskOnly() + [Packet(Reject())])).log, 0) == [1]
    ensures Codes(Destroy(Run(AskOnly() + [Packet(Response())])).log, 0) == [3]
    ensures Receive(Run(AskOnly()), Response()).requests == []
  {
    AskedHost();
    FiresExactlyOnce(AskOnly(), 1);
    RejectIsSignal();
    AnsweredWith(Reject(), 1);
    ResponseIsSignal();
    AnsweredWith(Response(), 3);
  }
}
