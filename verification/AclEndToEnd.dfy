/** Data packets from host to host. A host learns a connection's handle when its controller reports the
    connection and forgets it when the controller reports its end; it takes packets apart for handles it
    knows. Reports and packets reach it in the order its controller sends them. */
module AclEndToEnd {
  import opened Octets
  import opened Options
  import opened Btdev
  import opened BtdevConnections
  import opened BtdevRendezvous
  import opened AclPackets
  import opened AclForwarding
  import L = L2capRequests

  // ---------------------------------------------------------------- the handles a host knows

  /** The connections of the host behind device b. */
  function HandlesOf(log: seq<Event>, b: nat): seq<nat> {
    if log == [] then []
    else
      var before, e := HandlesOf(log[..|log| - 1], b), log[|log| - 1];
      if e.Linked? && e.serial == b then [e.handle] + before
      else if e.Unlinked? && e.serial == b then L.Without(before, e.handle)
      else before
  }

  predicate NoLinks(events: seq<Event>, b: nat) {
    forall i :: 0 <= i < |events| && (events[i].Linked? || events[i].Unlinked?) ==> events[i].serial != b
  }

  lemma {:induction false} HandlesKept(log: seq<Event>, events: seq<Event>, b: nat)
    requires NoLinks(events, b)
    ensures HandlesOf(log + events, b) == HandlesOf(log, b)
    decreases |events|
  {
    if events == [] {
      assert log + events == log;
    } else {
      var init := events[..|events| - 1];
      assert (log + events)[..|log + events| - 1] == log + init;
      HandlesKept(log, init, b);
    }
  }

  lemma HandlesNext(log: seq<Event>, e: Event, b: nat)
    ensures HandlesOf(log + [e], b) ==
            if e.Linked? && e.serial == b then [e.handle] + HandlesOf(log, b)
            else if e.Unlinked? && e.serial == b then L.Without(HandlesOf(log, b), e.handle)
            else HandlesOf(log, b)
  {
    assert (log + [e])[..|log|] == log;
  }

  lemma JoinHandles(s: State, i: nat, j: nat, b: nat)
    requires Live(s.table, i) && Live(s.table, j)
    ensures var ends := {s.table[i].value.serial, s.table[j].value.serial};
            forall h :: h in HandlesOf(Join(s, i, j).log, b) <==>
              h in HandlesOf(s.log, b) || (b in ends && h == HANDLE)
  {
    var first, second := Linked(s.table[j].value.serial, HANDLE), Linked(s.table[i].value.serial, HANDLE);
    HandlesNext(s.log, first, b);
    HandlesNext(s.log + [first], second, b);
    assert s.log + [first, second] == s.log + [first] + [second];
  }

  lemma PartHandles(s: State, i: nat, handle: nat, b: nat)
    requires Enabled(s, Hangup(i, handle))
    ensures var d := s.table[i].value;
            forall h :: h in HandlesOf(Part(s, i, handle).log, b) <==>
              h in HandlesOf(s.log, b) && !(b in {d.serial, d.conn.value} && h == handle)
  {
    var d := s.table[i].value;
    var first, second := Unlinked(d.serial, handle), Unlinked(d.conn.value, handle);
    HandlesNext(s.log, first, b);
    HandlesNext(s.log + [first], second, b);
    assert s.log + [first, second] == s.log + [first] + [second];
    forall h
      ensures h in HandlesOf(s.log + [first, second], b) <==>
              h in HandlesOf(s.log, b) && !(b in {d.serial, d.conn.value} && h == handle)
    {
      L.WithoutMeans(HandlesOf(s.log, b), handle, h);
      L.WithoutMeans(HandlesOf(s.log + [first], b), handle, h);
    }
  }

  /** Any step but a new connection or the end of one leaves what hosts know alone. */
  lemma OtherHandles(s: State, op: Op, b: nat)
    requires !op.AcceptConn? && !op.LeCreateConn? && !op.Hangup?
    ensures HandlesOf(Step(s, op).log, b) == HandlesOf(s.log, b)
  {
    if !op.AdvEnable? && !op.ScanEnable? {
      HandlesKept(s.log, OtherEvents(s, op), b);
    } else if Enabled(s, op) {
      var events;
      if op.AdvEnable? {
        events := AdvEvents(s, op.slot, op.enable);
      } else {
        events := ScanEvents(s, op.slot, op.enable);
      }
      HandlesKept(s.log, events, b);
    }
  }

  // ---------------------------------------------------------------- connected hosts know the handle

  /** The host of every connected device knows the handle. */
  ghost predicate Informed(s: State) {
    forall i :: Live(s.table, i) && s.table[i].value.conn.Some? ==> HANDLE in HandlesOf(s.log, s.table[i].value.serial)
  }

  ghost predicate OneHandle(log: seq<Event>) {
    forall b: nat, h :: h in HandlesOf(log, b) ==> h == HANDLE
  }

  lemma JoinInformed(s: State, i: nat, j: nat)
    requires Sound(s) && Informed(s) && Live(s.table, i) && Live(s.table, j)
    ensures Informed(Join(s, i, j))
  {
    var s' := Join(s, i, j);
    ConnectShape(s, i, j);
    forall k | Live(s'.table, k) && s'.table[k].value.conn.Some?
      ensures HANDLE in HandlesOf(s'.log, s'.table[k].value.serial)
    {
      assert Live(s.table, k);
      JoinHandles(s, i, j, s'.table[k].value.serial);
    }
  }

  lemma PartInformed(s: State, i: nat, handle: nat)
    requires Sound(s) && Informed(s) && Enabled(s, Hangup(i, handle))
    ensures Informed(Part(s, i, handle))
  {
    var s', d := Part(s, i, handle), s.table[i].value;
    var j := Find(s.table, ByPointer(d.conn.value), 0);
    forall k | Live(s'.table, k) && s'.table[k].value.conn.Some?
      ensures HANDLE in HandlesOf(s'.log, s'.table[k].value.serial)
    {
      assert Live(s.table, k) && Live(s.table, j) && k != i && k != j;
      PartHandles(s, i, handle, s'.table[k].value.serial);
    }
  }

  lemma OtherInformed(s: State, op: Op)
    requires Sound(s) && Informed(s) && !op.AcceptConn? && !op.LeCreateConn? && !op.Hangup?
    ensures Informed(Step(s, op))
  {
    var s' := Step(s, op);
    forall k | Live(s'.table, k) && s'.table[k].value.conn.Some?
      ensures HANDLE in HandlesOf(s'.log, s'.table[k].value.serial)
    {
      OtherHandles(s, op, s'.table[k].value.serial);
      assert Live(s.table, k);
    }
  }

  lemma RefusedInformed(s: State, i: nat, status: nat)
    requires Live(s.table, i) && Informed(s)
    ensures Informed(Refuse(s, i, status))
    ensures forall b :: HandlesOf(Refuse(s, i, status).log, b) == HandlesOf(s.log, b)
  {
    forall b: nat { HandlesNext(s.log, Refused(s.table[i].value.serial, status), b); }
    forall k | Live(s.table, k) && s.table[k].value.conn.Some?
      ensures HANDLE in HandlesOf(Refuse(s, i, status).log, s.table[k].value.serial)
    {
    }
  }

  lemma InformedStep(s: State, op: Op)
    requires Sound(s) && Informed(s) && OneHandle(s.log)
    ensures Informed(Step(s, op)) && OneHandle(Step(s, op).log)
  {
    if !Enabled(s, op) {
    } else if op.AcceptConn? || op.LeCreateConn? {
      if Joins(s, op).Some? {
        JoinInformed(s, op.slot, Joins(s, op).value);
        forall b: nat { JoinHandles(s, op.slot, Joins(s, op).value, b); }
      } else if Step(s, op) != s {
        RefusedInformed(s, op.slot, ERR_CONN_FAILED);
      }
    } else if op.Hangup? {
      PartInformed(s, op.slot, op.handle);
      forall b: nat { PartHandles(s, op.slot, op.handle, b); }
    } else {
      OtherInformed(s, op);
      forall b: nat { OtherHandles(s, op, b); }
    }
  }

  /** In every reachable state the host of a connected device knows the handle, and no host knows any
      other. */
  lemma {:induction false} HostsKnowHandle(ops: seq<Op>)
    ensures Informed(Run(ops)) && OneHandle(Run(ops).log)
  {
    if ops != [] {
      HostsKnowHandle(ops[..|ops| - 1]);
      SoundAlways(ops[..|ops| - 1]);
      InformedStep(Run(ops[..|ops| - 1]), ops[|ops| - 1]);
    }
  }

  // ---------------------------------------------------------------- end to end

  /** What the host behind b makes of the packets from a, with the handles it knows when they come. */
  function Received(log: seq<Event>, a: nat, b: nat): seq<Frame> {
    if log == [] then []
    else
      var init, e := log[..|log| - 1], log[|log| - 1];
      var frame := if e.Forwarded? && e.from == a && e.to == b && e.packet != [] && e.packet[0] == H4_ACL
        then ProcessAcl(HandlesOf(init, b), e.packet[1..]) else None;
      Received(init, a, b) + if frame.Some? then [frame.value] else []
  }

  lemma {:induction false} ReceivedNothing(log: seq<Event>, events: seq<Event>, a: nat, b: nat)
    requires NoData(events)
    ensures Received(log + events, a, b) == Received(log, a, b)
    decreases |events|
  {
    if events == [] {
      assert log + events == log;
    } else {
      var init := events[..|events| - 1];
      assert (log + events)[..|log + events| - 1] == log + init;
      ReceivedNothing(log, init, a, b);
    }
  }

  lemma ReceivedOne(log: seq<Event>, from: nat, to: nat, f: Frame, a: nat, b: nat)
    requires Sendable(f) && f.handle == HANDLE && HANDLE in HandlesOf(log, to)
    ensures Received(log + [Forwarded(from, to, SendAcl(f)), Completed(from)], a, b) ==
            Received(log, a, b) + if from == a && to == b then [f] else []
  {
    var one := log + [Forwarded(from, to, SendAcl(f))];
    var two := one + [Completed(from)];
    assert two == log + [Forwarded(from, to, SendAcl(f)), Completed(from)];
    assert two[..|one|] == one && one[..|log|] == log;
    SendThenProcessSmall(HandlesOf(log, to), f);
  }

  lemma ReceivedStranger(log: seq<Event>, f: Frame, a: nat, b: nat)
    requires Sendable(f) && f.handle == HANDLE && HANDLE !in HandlesOf(log, b)
    ensures Received(log + [Forwarded(a, b, SendAcl(f)), Completed(a)], a, b) == Received(log, a, b)
  {
    var one := log + [Forwarded(a, b, SendAcl(f))];
    var two := one + [Completed(a)];
    assert two == log + [Forwarded(a, b, SendAcl(f)), Completed(a)];
    assert two[..|one|] == one && one[..|log|] == log;
    SendThenProcessSmall([HANDLE], f);
  }

  lemma ReceivedOther(log: seq<Event>, from: nat, to: nat, packet: seq<byte>, a: nat, b: nat)
    requires from != a || to != b
    ensures Received(log + [Forwarded(from, to, packet), Completed(from)], a, b) == Received(log, a, b)
  {
    var one := log + [Forwarded(from, to, packet)];
    var two := one + [Completed(from)];
    assert two == log + [Forwarded(from, to, packet), Completed(from)];
    assert two[..|one|] == one && one[..|log|] == log;
  }

  /** The packets are those a host built for these frames, on the handle it knows. */
  predicate Built(packets: seq<seq<byte>>, frames: seq<Frame>) {
    && |packets| == |frames|
    && forall i :: 0 <= i < |frames| ==>
         Sendable(frames[i]) && frames[i].handle == HANDLE && packets[i] == SendAcl(frames[i])
  }

  /** The packet is one that a takes while connected to b. */
  predicate Takes(s: State, op: Op, a: nat, b: nat) {
    var d := Taker(s, op);
    d.Some? && d.value.serial == a && d.value.conn == Some(b)
  }

  lemma ReceivedWhenTaken(s: State, op: Op, a: nat, b: nat, f: Frame)
    requires Takes(s, op, a, b) && Sendable(f) && f.handle == HANDLE && op.packet == SendAcl(f)
    ensures Received(Step(s, op).log, a, b) ==
            Received(s.log, a, b) + if HANDLE in HandlesOf(s.log, b) then [f] else []
  {
    if HANDLE in HandlesOf(s.log, b) {
      ReceivedOne(s.log, a, b, f, a, b);
    } else {
      ReceivedStranger(s.log, f, a, b);
    }
  }

  lemma ReceivedOtherwise(s: State, op: Op, a: nat, b: nat)
    requires !Takes(s, op, a, b)
    ensures Received(Step(s, op).log, a, b) == Received(s.log, a, b)
  {
    var d := Taker(s, op);
    if d.Some? {
      ReceivedOther(s.log, d.value.serial, d.value.conn.value, op.packet, a, b);
    } else if op.AclPacket? {
      assert Step(s, op).log == s.log;
    } else {
      var events := OtherData(s, op);
      ReceivedNothing(s.log, events, a, b);
    }
  }

  lemma BuiltBefore(packets: seq<seq<byte>>, packet: seq<byte>, frames: seq<Frame>)
    requires Built(packets + [packet], frames)
    ensures Built(packets, frames[..|packets|]) && packet == SendAcl(frames[|packets|])
    ensures Sendable(frames[|packets|]) && frames[|packets|].handle == HANDLE
  {
    var all := packets + [packet];
    assert all[|packets|] == packet;
    forall i | 0 <= i < |packets|
      ensures packets[i] == SendAcl(frames[i])
    {
      assert all[i] == packets[i];
    }
  }

  lemma TakenSplit(ops: seq<Op>, a: nat, b: nat)
    requires ops != []
    ensures var init, op := ops[..|ops| - 1], ops[|ops| - 1];
            && Run(ops) == Step(Run(init), op)
            && TakenFor(ops, a, b) ==
               if Takes(Run(init), op, a, b) then TakenFor(init, a, b) + [op.packet] else TakenFor(init, a, b)
  {
    assert TakenFor(ops[..|ops| - 1], a, b) + [] == TakenFor(ops[..|ops| - 1], a, b);
  }

  predicate KnownAt(s: State, op: Op, a: nat, b: nat) {
    Takes(s, op, a, b) ==> HANDLE in HandlesOf(s.log, b)
  }

  /** Whenever a's packets were taken for b, b's host knew the handle. */
  predicate KnownWhenTaken(ops: seq<Op>, a: nat, b: nat) {
    ops != [] ==> KnownWhenTaken(ops[..|ops| - 1], a, b) && KnownAt(Run(ops[..|ops| - 1]), ops[|ops| - 1], a, b)
  }

  /** All frames arrive if `known`, and not all otherwise. */
  predicate Tally(received: seq<Frame>, frames: seq<Frame>, known: bool) {
    && |received| <= |frames|
    && (|received| == |frames| <==> known)
    && (known ==> received == frames)
  }

  lemma TallyNext(received: seq<Frame>, frames: seq<Frame>, known: bool, now: bool)
    requires frames != [] && Tally(received, frames[..|frames| - 1], known)
    ensures Tally(received + if now then [frames[|frames| - 1]] else [], frames, known && now)
  {
    assert frames == frames[..|frames| - 1] + [frames[|frames| - 1]];
  }

  lemma {:induction false} ReceivedTally(ops: seq<Op>, a: nat, b: nat, frames: seq<Frame>)
    requires Built(TakenFor(ops, a, b), frames)
    ensures Tally(Received(Run(ops).log, a, b), frames, KnownWhenTaken(ops, a, b))
    decreases |ops|
  {
    if ops != [] {
      var init, op := ops[..|ops| - 1], ops[|ops| - 1];
      var packets, known := TakenFor(init, a, b), KnownWhenTaken(init, a, b);
      TakenSplit(ops, a, b);
      if Takes(Run(init), op, a, b) {
        BuiltBefore(packets, op.packet, frames);
        ReceivedTally(init, a, b, frames[..|packets|]);
        ReceivedWhenTaken(Run(init), op, a, b, frames[|packets|]);
        TallyNext(Received(Run(init).log, a, b), frames, known, HANDLE in HandlesOf(Run(init).log, b));
      } else {
        ReceivedTally(init, a, b, frames);
        ReceivedOtherwise(Run(init), op, a, b);
      }
    }
  }

  /** Host to host, over any run: the frames that a's host sent while a was connected to b are what b's
      host takes apart, all of them, unchanged and in order, exactly if b's host knew the handle at every
      one of them; otherwise fewer arrive. */
  lemma EndToEndIff(ops: seq<Op>, a: nat, b: nat, frames: seq<Frame>)
    requires Built(TakenFor(ops, a, b), frames)
    ensures Received(Run(ops).log, a, b) == frames <==> KnownWhenTaken(ops, a, b)
    ensures |Received(Run(ops).log, a, b)| == |frames| <==> KnownWhenTaken(ops, a, b)
    ensures |Received(Run(ops).log, a, b)| <= |frames|
  {
    ReceivedTally(ops, a, b, frames);
  }

  lemma PeerKnows(ops: seq<Op>, i: nat)
    requires Symmetric(Run(ops).table) && Live(Run(ops).table, i) && Run(ops).table[i].value.conn.Some?
    ensures HANDLE in HandlesOf(Run(ops).log, Run(ops).table[i].value.conn.value)
  {
    var t := Run(ops).table;
    assert Answered(t, i);
    var j := Find(t, ByPointer(t[i].value.conn.value), 0);
    HostsKnowHandle(ops);
    assert Live(t, j) && t[j].value.conn.Some?;
  }

  lemma {:induction false} SymmetricKnown(ops: seq<Op>, a: nat, b: nat)
    requires SymmetricThroughout(ops)
    ensures KnownWhenTaken(ops, a, b)
  {
    if ops != [] {
      var init, op := ops[..|ops| - 1], ops[|ops| - 1];
      SymmetricKnown(init, a, b);
      if Takes(Run(init), op, a, b) { PeerKnows(init, op.slot); }
    }
  }

  /** In particular while connections are symmetric. */
  lemma EndToEnd(ops: seq<Op>, a: nat, b: nat, frames: seq<Frame>)
    requires SymmetricThroughout(ops) && Built(TakenFor(ops, a, b), frames)
    ensures Received(Run(ops).log, a, b) == frames
  {
    SymmetricKnown(ops, a, b);
    EndToEndIff(ops, a, b, frames);
  }

  // ---------------------------------------------------------------- one frame

  predicate Quiet(ops: seq<Op>) {
    forall i :: 0 <= i < |ops| ==> !ops[i].AclPacket?
  }

  lemma {:induction false} NoPackets(ops: seq<Op>, a: nat, b: nat)
    requires Quiet(ops)
    ensures TakenFor(ops, a, b) == [] && KnownWhenTaken(ops, a, b)
  {
    if ops != [] { NoPackets(ops[..|ops| - 1], a, b); }
  }

  /** What comes of one packet, from the device in slot i to the one in slot j it is connected to, after
      connections have been made and unmade. */
  lemma OnePacket(ops: seq<Op>, i: nat, j: nat, f: Frame)
    requires Quiet(ops) && Sendable(f) && f.handle == HANDLE
    requires var t := Run(ops).table; Live(t, i) && Live(t, j) && t[i].value.conn == Some(t[j].value.serial)
    ensures var t, all := Run(ops).table, ops + [AclPacket(i, SendAcl(f))];
            var a, b := t[i].value.serial, t[j].value.serial;
            && TakenFor(all, a, b) == [SendAcl(f)]
            && Received(Run(all).log, a, b) == if HANDLE in HandlesOf(Run(ops).log, b) then [f] else []
  {
    var t, all := Run(ops).table, ops + [AclPacket(i, SendAcl(f))];
    var a, b := t[i].value.serial, t[j].value.serial;
    SoundAlways(ops);
    FindSerial(Run(ops), j);
    assert Takes(Run(ops), AclPacket(i, SendAcl(f)), a, b);
    assert all[..|ops|] == ops;
    NoPackets(ops, a, b);
    TakenSplit(all, a, b);
    EndToEndIff(all, a, b, [f]);
  }

  /** Every frame the host can send is received over a connection. */
  lemma OneFrameArrives(f: Frame)
    requires Sendable(f) && f.handle == HANDLE
    ensures TakenFor(Pair() + [AclPacket(1, SendAcl(f))], 1, 0) == [SendAcl(f)]
    ensures Received(Run(Pair() + [AclPacket(1, SendAcl(f))]).log, 1, 0) == [f]
  {
    PairTable();
    PeerKnows(Pair(), 1);
    QuietRuns();
    OnePacket(Pair(), 1, 0, f);
  }

  /** Slots and serials of the first three devices agree. */
  predicate ThreeIn(t: Table) {
    Live(t, 0) && Live(t, 1) && Live(t, 2)
    && t[0].value.serial == 0 && t[1].value.serial == 1 && t[2].value.serial == 2
  }

  lemma ThirdJoined(s: State)
    requires Sound(s) && ThreeIn(s.table) && s.table[0].value.conn == Some(1)
    ensures var t := Join(s, 2, 1).table;
            ThreeIn(t) && t[0].value.conn == Some(1) && t[1].value.conn == Some(2) && t[2].value.conn == Some(1)
    ensures HANDLE in HandlesOf(Join(s, 2, 1).log, 1)
  {
    ConnectShape(s, 2, 1);
    JoinHandles(s, 2, 1, 1);
  }

  lemma OverwrittenTable()
    ensures var t := Run(Overwritten()).table;
            ThreeIn(t) && t[0].value.conn == Some(1) && t[1].value.conn == Some(2) && t[2].value.conn == Some(1)
    ensures HANDLE in HandlesOf(Run(Overwritten()).log, 1)
  {
    PairTable();
    ThirdDeviceJoins();
    SoundAlways(Pair());
    ThirdJoined(Run(Pair()));
  }

  lemma QuietRuns()
    ensures Quiet(Pair()) && Quiet(Overwritten()) && Quiet(HungUp())
  {
  }

  /** It still is after the connection was overwritten at the other end: the handle is the same. */
  lemma OverwrittenStillArrives(f: Frame)
    requires Sendable(f) && f.handle == HANDLE
    ensures !Symmetric(Run(Overwritten()).table)
    ensures TakenFor(Overwritten() + [AclPacket(0, SendAcl(f))], 0, 1) == [SendAcl(f)]
    ensures Received(Run(Overwritten() + [AclPacket(0, SendAcl(f))]).log, 0, 1) == [f]
  {
    ThirdDeviceBreaks();
    OverwrittenTable();
    QuietRuns();
    OnePacket(Overwritten(), 0, 1, f);
  }

  function HungUp(): seq<Op> {
    Overwritten() + [Hangup(1, HANDLE)]
  }

  lemma PartedTable(s: State)
    requires Sound(s) && ThreeIn(s.table) && s.table[0].value.conn == Some(1) && s.table[1].value.conn == Some(2)
    ensures Enabled(s, Hangup(1, HANDLE))
    ensures ThreeIn(Part(s, 1, HANDLE).table) && Part(s, 1, HANDLE).table[0].value.conn == Some(1)
    ensures HANDLE !in HandlesOf(Part(s, 1, HANDLE).log, 1)
  {
    FindSerial(s, 2);
    PartHandles(s, 1, HANDLE, 1);
  }

  lemma HungUpTable()
    ensures ThreeIn(Run(HungUp()).table) && Run(HungUp()).table[0].value.conn == Some(1)
    ensures HANDLE !in HandlesOf(Run(HungUp()).log, 1)
  {
    OverwrittenTable();
    SoundAlways(Overwritten());
    PartedTable(Run(Overwritten()));
    RunNext(Overwritten(), Hangup(1, HANDLE));
  }

  /** It is not once that end has hung up on the third device: the packet is still taken and forwarded,
      to a host that knows the handle no more. */
  lemma HungUpLost(f: Frame)
    requires Sendable(f) && f.handle == HANDLE
    ensures TakenFor(HungUp() + [AclPacket(0, SendAcl(f))], 0, 1) == [SendAcl(f)]
    ensures Received(Run(HungUp() + [AclPacket(0, SendAcl(f))]).log, 0, 1) == []
  {
    HungUpTable();
    QuietRuns();
    OnePacket(HungUp(), 0, 1, f);
  }
}
