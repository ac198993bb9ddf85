/** Data packets through the controllers: they arrive unchanged and in order, and every packet taken
    while connected gives exactly one credit back. */
module AclForwarding {
  import opened Octets
  import opened Options
  import opened Btdev
  import opened BtdevConnections
  import opened BtdevRendezvous

  /** The device a call hands a data packet to, while it is connected. */
  function Taker(s: State, op: Op): Option<Device> {
    if op.AclPacket? && Enabled(s, op) && s.table[op.slot].value.conn.Some? then s.table[op.slot] else None
  }

  /** How many packets device a took while connected. */
  function Taken(ops: seq<Op>, a: nat): nat {
    if ops == [] then 0
    else
      var init := ops[..|ops| - 1];
      var d := Taker(Run(init), ops[|ops| - 1]);
      Taken(init, a) + if d.Some? && d.value.serial == a then 1 else 0
  }

  /** The packets device a took while connected to b, in order. */
  function TakenFor(ops: seq<Op>, a: nat, b: nat): seq<seq<byte>> {
    if ops == [] then []
    else
      var init, op := ops[..|ops| - 1], ops[|ops| - 1];
      var d := Taker(Run(init), op);
      TakenFor(init, a, b) + if d.Some? && d.value.serial == a && d.value.conn == Some(b) then [op.packet] else []
  }

  function ForwardedBy(log: seq<Event>, a: nat): nat {
    if log == [] then 0
    else
      var e := log[|log| - 1];
      ForwardedBy(log[..|log| - 1], a) + if e.Forwarded? && e.from == a then 1 else 0
  }

  function CompletedBy(log: seq<Event>, a: nat): nat {
    if log == [] then 0
    else CompletedBy(log[..|log| - 1], a) + if log[|log| - 1] == Completed(a) then 1 else 0
  }

  /** What reached the host behind b from a, in order. */
  function Arrived(log: seq<Event>, a: nat, b: nat): seq<seq<byte>> {
    if log == [] then []
    else
      var e := log[|log| - 1];
      Arrived(log[..|log| - 1], a, b) + if e.Forwarded? && e.from == a && e.to == b then [e.packet] else []
  }

  /** Only the data branch writes the two data events. */
  predicate NoData(events: seq<Event>) {
    forall i :: 0 <= i < |events| ==> !events[i].Forwarded? && !events[i].Completed?
  }

  lemma {:induction false} NoDataAppend(log: seq<Event>, events: seq<Event>, a: nat, b: nat)
    requires NoData(events)
    ensures ForwardedBy(log + events, a) == ForwardedBy(log, a)
    ensures CompletedBy(log + events, a) == CompletedBy(log, a)
    ensures Arrived(log + events, a, b) == Arrived(log, a, b)
    decreases |events|
  {
    if events == [] {
      assert log + events == log;
    } else {
      var init := events[..|events| - 1];
      assert (log + events)[..|log + events| - 1] == log + init;
      NoDataAppend(log, init, a, b);
    }
  }

  lemma DataAppend(log: seq<Event>, from: nat, to: nat, packet: seq<byte>, a: nat, b: nat)
    ensures var log' := log + [Forwarded(from, to, packet), Completed(from)];
            && ForwardedBy(log', a) == ForwardedBy(log, a) + (if from == a then 1 else 0)
            && CompletedBy(log', a) == CompletedBy(log, a) + (if from == a then 1 else 0)
            && Arrived(log', a, b) == Arrived(log, a, b) + (if from == a && to == b then [packet] else [])
  {
    var one := log + [Forwarded(from, to, packet)];
    var two := one + [Completed(from)];
    assert two == log + [Forwarded(from, to, packet), Completed(from)];
    assert two[..|one|] == one && one[..|log|] == log;
  }

  /** Events about advertising and scanning. */
  predicate OnlySwitches(events: seq<Event>) {
    forall i :: 0 <= i < |events| ==> events[i].AdvEnabled? || events[i].ScanEnabled? || events[i].Report?
  }

  lemma AdvEvents(s: State, i: nat, enable: byte) returns (events: seq<Event>)
    requires Live(s.table, i)
    ensures OnlySwitches(events) && SetAdvEnable(s, i, enable).log == s.log + events
  {
    var d := s.table[i].value;
    var t: Table := s.table[i := Some(d.(advEnable := enable))];
    ToldReports(t, i, 0);
    events := if d.kind.Bredr? || d.advEnable == enable || enable == 0 then []
      else [AdvEnabled(d.serial)] + TellScanners(t, i, 0);
  }

  lemma ScanEvents(s: State, i: nat, enable: byte) returns (events: seq<Event>)
    requires Live(s.table, i)
    ensures OnlySwitches(events) && SetScanEnable(s, i, enable).log == s.log + events
  {
    var d := s.table[i].value;
    var t: Table := s.table[i := Some(d.(scanEnable := enable))];
    ToldReports(t, i, 0);
    events := if d.kind.Bredr? || d.scanEnable == enable || enable == 0 then []
      else [ScanEnabled(d.serial)] + TellAboutAdvertisers(t, i, 0);
  }

  /** Every call but a data packet only adds other events. */
  lemma OtherData(s: State, op: Op) returns (events: seq<Event>)
    requires !op.AclPacket?
    ensures NoData(events) && Step(s, op).log == s.log + events
  {
    if !op.AdvEnable? && !op.ScanEnable? {
      events := OtherEvents(s, op);
    } else if !Enabled(s, op) {
      events := [];
    } else if op.AdvEnable? {
      events := AdvEvents(s, op.slot, op.enable);
    } else {
      events := ScanEvents(s, op.slot, op.enable);
    }
  }

  lemma ForwardStep(s: State, op: Op, a: nat, b: nat)
    ensures var d, log' := Taker(s, op), Step(s, op).log;
            var mine := d.Some? && d.value.serial == a;
            && ForwardedBy(log', a) == ForwardedBy(s.log, a) + (if mine then 1 else 0)
            && CompletedBy(log', a) == CompletedBy(s.log, a) + (if mine then 1 else 0)
            && Arrived(log', a, b) ==
               Arrived(s.log, a, b) + (if mine && d.value.conn == Some(b) then [op.packet] else [])
  {
    var d := Taker(s, op);
    if d.Some? {
      DataAppend(s.log, d.value.serial, d.value.conn.value, op.packet, a, b);
    } else if op.AclPacket? {
      assert Step(s, op).log == s.log;
    } else {
      var events := OtherData(s, op);
      NoDataAppend(s.log, events, a, b);
    }
  }

  /** Over any run: packets taken while connected, packets forwarded and credits returned are the
      same number, device by device. */
  lemma {:induction false} CreditsConserved(ops: seq<Op>, a: nat)
    ensures Taken(ops, a) == ForwardedBy(Run(ops).log, a) == CompletedBy(Run(ops).log, a)
  {
    if ops != [] {
      CreditsConserved(ops[..|ops| - 1], a);
      ForwardStep(Run(ops[..|ops| - 1]), ops[|ops| - 1], a, 0);
    }
  }

  /** What arrives from a at b is what a took while connected to b, unchanged and in order. */
  lemma {:induction false} ArrivesInOrder(ops: seq<Op>, a: nat, b: nat)
    ensures Arrived(Run(ops).log, a, b) == TakenFor(ops, a, b)
  {
    if ops != [] {
      ArrivesInOrder(ops[..|ops| - 1], a, b);
      ForwardStep(Run(ops[..|ops| - 1]), ops[|ops| - 1], a, b);
    }
  }
}
