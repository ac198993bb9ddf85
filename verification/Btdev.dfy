/** The emulated controllers: a table of at most sixteen devices, the peer each one is connected to,
    and the low energy advertising and scanning switches. No hooks are installed. */
module Btdev {
  import opened Octets
  import opened Options
  import C = CommandCredits

  const SLOTS := 16

  /** The one handle all connections go by. */
  const HANDLE: nat := 42

  const ERR_UNKNOWN_CONN_ID: nat := 0x02
  const ERR_CONN_FAILED: nat := 0x3e

  /** `serial` stands for the device's pointer; `conn` points to the peer. */
  datatype Device = Device(
    serial: nat, kind: C.DevType, addr: Address, conn: Option<nat>, advEnable: byte, scanEnable: byte)

  type Table = t: seq<Option<Device>> | |t| == SLOTS witness seq(SLOTS, _ => None)

  /** What the devices were told and what they told their hosts about each other. */
  datatype Event =
    | AdvEnabled(serial: nat)
    | ScanEnabled(serial: nat)
    | Report(to: nat, about: nat)
    | Linked(serial: nat, handle: nat)
    | Unlinked(serial: nat, handle: nat)
    | Refused(serial: nat, status: nat)
    | Forwarded(from: nat, to: nat, packet: seq<byte>)
    | Completed(serial: nat)

  datatype State = State(table: Table, created: nat, log: seq<Event>)

  function Initial(): State {
    State(seq(SLOTS, _ => None), 0, [])
  }

  predicate Live(t: Table, i: int) {
    0 <= i < SLOTS && t[i].Some?
  }

  // ---------------------------------------------------------------- the table

  function FirstFree(t: Table, from: nat): (k: nat)
    requires from <= SLOTS
    ensures from <= k <= SLOTS
    ensures k < SLOTS ==> t[k].None?
    ensures forall j :: from <= j < k ==> t[j].Some?
    decreases SLOTS - from
  {
    if from == SLOTS || t[from].None? then from else FirstFree(t, from + 1)
  }

  /** What a device is looked up by: its address, or the pointer to it. */
  datatype Key = ByAddress(addr: Address) | ByPointer(serial: nat)

  predicate Has(d: Device, key: Key) {
    match key
    case ByAddress(addr) => d.addr == addr
    case ByPointer(serial) => d.serial == serial
  }

  /** The first slot from `from` on with such a device, or SLOTS when there is none. */
  function Find(t: Table, key: Key, from: nat): (k: nat)
    requires from <= SLOTS
    ensures from <= k <= SLOTS
    ensures k < SLOTS ==> t[k].Some? && Has(t[k].value, key)
    ensures forall j :: from <= j < k ==> !(t[j].Some? && Has(t[j].value, key))
    decreases SLOTS - from
  {
    if from == SLOTS || (t[from].Some? && Has(t[from].value, key)) then from else Find(t, key, from + 1)
  }

  function AddressOf(id: nat, slot: nat): Address
    requires id < 0x1_0000 && slot < SLOTS
  {
    [id % 256, id / 256, slot, 0x01, 0xaa, 0x00]
  }

  function Create(s: State, kind: C.DevType, id: nat): State
    requires id < 0x1_0000
  {
    var k := FirstFree(s.table, 0);
    if k == SLOTS then s
    else
      var d := Device(s.created, kind, AddressOf(id, k), None, 0, 0);
      s.(table := s.table[k := Some(d)], created := s.created + 1)
  }

  function Destroy(s: State, i: nat): State
    requires Live(s.table, i)
  {
    s.(table := s.table[i := None])
  }

  // ---------------------------------------------------------------- connections

  function SetConn(t: Table, i: nat, conn: Option<nat>): Table
    requires Live(t, i)
  {
    t[i := Some(t[i].value.(conn := conn))]
  }

  /** Each end is pointed at the other, whatever it pointed at before. */
  function Connect(t: Table, i: nat, j: nat): Table
    requires Live(t, i) && Live(t, j)
  {
    SetConn(SetConn(t, i, Some(t[j].value.serial)), j, Some(t[i].value.serial))
  }

  /** A successful connection: both hosts are told its handle, the other side's first. */
  function Join(s: State, i: nat, j: nat): State
    requires Live(s.table, i) && Live(s.table, j)
  {
    s.(table := Connect(s.table, i, j),
       log := s.log + [Linked(s.table[j].value.serial, HANDLE), Linked(s.table[i].value.serial, HANDLE)])
  }

  function Refuse(s: State, i: nat, status: nat): State
    requires Live(s.table, i)
  {
    s.(log := s.log + [Refused(s.table[i].value.serial, status)])
  }

  function Disconnect(t: Table, i: nat): Table
    requires Live(t, i) && t[i].value.conn.Some? && Find(t, ByPointer(t[i].value.conn.value), 0) < SLOTS
  {
    var j := Find(t, ByPointer(t[i].value.conn.value), 0);
    SetConn(SetConn(t, i, None), j, None)
  }

  /** Both hosts are told the handle that the command named, whichever it is. */
  function Part(s: State, i: nat, handle: nat): State
    requires Live(s.table, i) && s.table[i].value.conn.Some?
    requires Find(s.table, ByPointer(s.table[i].value.conn.value), 0) < SLOTS
  {
    var d := s.table[i].value;
    s.(table := Disconnect(s.table, i),
       log := s.log + [Unlinked(d.serial, handle), Unlinked(d.conn.value, handle)])
  }

  // ---------------------------------------------------------------- advertising and scanning

  /** Reports about the device in slot i to every other device that scans. */
  function TellScanners(t: Table, i: nat, from: nat): seq<Event>
    requires Live(t, i) && from <= SLOTS
    decreases SLOTS - from
  {
    if from == SLOTS then []
    else if t[from].None? || from == i || t[from].value.scanEnable == 0 then TellScanners(t, i, from + 1)
    else [Report(t[from].value.serial, t[i].value.serial)] + TellScanners(t, i, from + 1)
  }

  /** Reports to the device in slot i about every other device that advertises. */
  function TellAboutAdvertisers(t: Table, i: nat, from: nat): seq<Event>
    requires Live(t, i) && from <= SLOTS
    decreases SLOTS - from
  {
    if from == SLOTS then []
    else if t[from].None? || from == i || t[from].value.advEnable == 0 then TellAboutAdvertisers(t, i, from + 1)
    else [Report(t[i].value.serial, t[from].value.serial)] + TellAboutAdvertisers(t, i, from + 1)
  }

  function SetAdvEnable(s: State, i: nat, enable: byte): State
    requires Live(s.table, i)
  {
    var d := s.table[i].value;
    if d.kind.Bredr? || d.advEnable == enable then s
    else
      var t := s.table[i := Some(d.(advEnable := enable))];
      s.(table := t,
         log := if enable == 0 then s.log else s.log + [AdvEnabled(d.serial)] + TellScanners(t, i, 0))
  }

  function SetScanEnable(s: State, i: nat, enable: byte): State
    requires Live(s.table, i)
  {
    var d := s.table[i].value;
    if d.kind.Bredr? || d.scanEnable == enable then s
    else
      var t := s.table[i := Some(d.(scanEnable := enable))];
      s.(table := t,
         log := if enable == 0 then s.log else s.log + [ScanEnabled(d.serial)] + TellAboutAdvertisers(t, i, 0))
  }

  // ---------------------------------------------------------------- data packets

  /** A connected device passes the packet to its peer and gives its own host one credit back; an
      unconnected one drops it. */
  function ReceiveAcl(s: State, i: nat, packet: seq<byte>): State
    requires Live(s.table, i)
  {
    var d := s.table[i].value;
    if d.conn.None? then s
    else s.(log := s.log + [Forwarded(d.serial, d.conn.value, packet), Completed(d.serial)])
  }

  // ---------------------------------------------------------------- runs

  /** Devices are named by their slot. */
  datatype Op =
    | New(kind: C.DevType, id: nat)
    | Delete(slot: nat)
    | AcceptConn(slot: nat, addr: Address)
    | LeCreateConn(slot: nat, addr: Address)
    | RejectConn(slot: nat)
    | Hangup(slot: nat, handle: nat)
    | AdvEnable(slot: nat, enable: byte)
    | ScanEnable(slot: nat, enable: byte)
    | AclPacket(slot: nat, packet: seq<byte>)

  /** What the source requires of a call: a live device, and peers that exist where it follows
      pointers without testing them. */
  predicate Enabled(s: State, op: Op) {
    match op
    case New(_, id) => id < 0x1_0000
    case AcceptConn(i, addr) =>
      Live(s.table, i) && (s.table[i].value.kind.Le? || Find(s.table, ByAddress(addr), 0) < SLOTS)
    case RejectConn(i) => Live(s.table, i)
    case Hangup(i, _) =>
      && Live(s.table, i) && s.table[i].value.conn.Some?
      && Find(s.table, ByPointer(s.table[i].value.conn.value), 0) < SLOTS
    case Delete(i) => Live(s.table, i)
    case LeCreateConn(i, _) => Live(s.table, i)
    case AdvEnable(i, _) => Live(s.table, i)
    case ScanEnable(i, _) => Live(s.table, i)
    case AclPacket(i, _) =>
      && Live(s.table, i)
      && (s.table[i].value.conn.Some? ==> Find(s.table, ByPointer(s.table[i].value.conn.value), 0) < SLOTS)
  }

  /** The slot a call joins the caller's device to. Accepting asks nothing of the other side; a low
      energy connection asks it to advertise. */
  function Joins(s: State, op: Op): (r: Option<nat>)
    requires Enabled(s, op)
    ensures r.Some? ==> Live(s.table, r.value)
  {
    if op.AcceptConn? && !s.table[op.slot].value.kind.Le? then Some(Find(s.table, ByAddress(op.addr), 0))
    else if op.LeCreateConn? && !s.table[op.slot].value.kind.Bredr? && Advertises(s.table, op.addr) then
      Some(Find(s.table, ByAddress(op.addr), 0))
    else None
  }

  predicate Advertises(t: Table, addr: Address) {
    var j := Find(t, ByAddress(addr), 0);
    j < SLOTS && t[j].value.advEnable != 0
  }

  function Step(s: State, op: Op): State {
    if !Enabled(s, op) then s
    else
      match op
      case New(kind, id) => Create(s, kind, id)
      case Delete(i) => Destroy(s, i)
      case AcceptConn(i, addr) => if Joins(s, op).None? then s else Join(s, i, Joins(s, op).value)
      case LeCreateConn(i, addr) =>
        if Joins(s, op).Some? then Join(s, i, Joins(s, op).value)
        else if s.table[i].value.kind.Bredr? then s
        else Refuse(s, i, ERR_CONN_FAILED)
      case RejectConn(i) => if s.table[i].value.kind.Le? then s else Refuse(s, i, ERR_UNKNOWN_CONN_ID)
      case Hangup(i, handle) => Part(s, i, handle)
      case AdvEnable(i, enable) => SetAdvEnable(s, i, enable)
      case ScanEnable(i, enable) => SetScanEnable(s, i, enable)
      case AclPacket(i, packet) => ReceiveAcl(s, i, packet)
  }

  function Run(ops: seq<Op>): State {
    if ops == [] then Initial() else Step(Run(ops[..|ops| - 1]), ops[|ops| - 1])
  }
}
