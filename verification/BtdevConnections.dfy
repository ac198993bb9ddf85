/** Devices are found by address, and how far connections stay symmetric. */
module BtdevConnections {
  import opened Octets
  import opened Options
  import opened Btdev
  import C = CommandCredits

  // ---------------------------------------------------------------- the table over runs

  /** Every device carries its slot in its address, and no two devices share a pointer. */
  ghost predicate Sound(s: State) {
    && (forall i :: Live(s.table, i) ==> s.table[i].value.addr[2] == i && s.table[i].value.serial < s.created)
    && (forall i, j :: Live(s.table, i) && Live(s.table, j) && s.table[i].value.serial == s.table[j].value.serial
          ==> i == j)
  }

  /** The devices are the same, whatever else changed about them. */
  ghost predicate SameDevices(a: Table, b: Table) {
    forall i :: 0 <= i < SLOTS ==>
      && a[i].Some? == b[i].Some?
      && (a[i].Some? ==> a[i].value.serial == b[i].value.serial && a[i].value.addr == b[i].value.addr)
  }

  lemma SoundSame(a: State, b: State)
    requires Sound(a) && SameDevices(a.table, b.table) && a.created == b.created
    ensures Sound(b)
  {
    forall i | Live(b.table, i)
      ensures b.table[i].value.addr[2] == i && b.table[i].value.serial < b.created
    {
      assert Live(a.table, i);
    }
    forall i, j | Live(b.table, i) && Live(b.table, j) && b.table[i].value.serial == b.table[j].value.serial
      ensures i == j
    {
      assert Live(a.table, i) && Live(a.table, j);
    }
  }

  lemma SameAfterConn(t: Table, i: nat, conn: Option<nat>)
    requires Live(t, i)
    ensures SameDevices(t, SetConn(t, i, conn))
  {
  }

  lemma SameAfterConns(t: Table, i: nat, j: nat, c: Option<nat>, d: Option<nat>)
    requires Live(t, i) && Live(t, j)
    ensures SameDevices(t, SetConn(SetConn(t, i, c), j, d))
  {
    SameAfterConn(t, i, c);
    SameAfterConn(SetConn(t, i, c), j, d);
  }

  /** Steps other than creation and destruction keep the devices there are. */
  lemma SameStep(s: State, op: Op)
    requires !op.New? && !op.Delete?
    ensures SameDevices(s.table, Step(s, op).table) && Step(s, op).created == s.created
  {
    if Enabled(s, op) {
      if op.AcceptConn? || op.LeCreateConn? {
        var j := Joins(s, op);
        if j.Some? {
          SameAfterConns(s.table, op.slot, j.value, Some(s.table[j.value].value.serial),
                         Some(s.table[op.slot].value.serial));
        }
      } else if op.Hangup? {
        SameAfterConns(s.table, op.slot, Find(s.table, ByPointer(s.table[op.slot].value.conn.value), 0), None, None);
      }
    }
  }

  lemma SoundStep(s: State, op: Op)
    requires Sound(s)
    ensures Sound(Step(s, op))
  {
    if op.New? {
      if Enabled(s, op) { SoundCreate(s, op.kind, op.id); }
    } else if op.Delete? {
      if Enabled(s, op) { SoundDestroy(s, op.slot); }
    } else {
      SameStep(s, op);
      SoundSame(s, Step(s, op));
    }
  }

  lemma SoundCreate(s: State, kind: C.DevType, id: nat)
    requires Sound(s) && id < 0x1_0000
    ensures Sound(Create(s, kind, id))
  {
    var s' := Create(s, kind, id);
    forall i | Live(s'.table, i)
      ensures s'.table[i].value.addr[2] == i && s'.table[i].value.serial < s'.created
    {
      if i != FirstFree(s.table, 0) { assert Live(s.table, i); }
    }
    forall i, j | Live(s'.table, i) && Live(s'.table, j) && s'.table[i].value.serial == s'.table[j].value.serial
      ensures i == j
    {
      if i != FirstFree(s.table, 0) { assert Live(s.table, i); }
      if j != FirstFree(s.table, 0) { assert Live(s.table, j); }
    }
  }

  lemma SoundDestroy(s: State, k: nat)
    requires Sound(s) && Live(s.table, k)
    ensures Sound(Destroy(s, k))
  {
    var s' := Destroy(s, k);
    forall i | Live(s'.table, i)
      ensures Live(s.table, i) && s'.table[i] == s.table[i]
    {
    }
  }

  lemma {:induction false} SoundAlways(ops: seq<Op>)
    ensures Sound(Run(ops))
  {
    if ops != [] {
      SoundAlways(ops[..|ops| - 1]);
      SoundStep(Run(ops[..|ops| - 1]), ops[|ops| - 1]);
    }
  }

  /** Looking a device up by its address gives back that device, and no address leads to another. */
  lemma FindIsOwner(ops: seq<Op>, addr: Address)
    ensures var t := Run(ops).table;
            && (forall i :: Live(t, i) ==> Find(t, ByAddress(t[i].value.addr), 0) == i)
            && (forall i :: Live(t, i) && t[i].value.addr == addr <==> Find(t, ByAddress(addr), 0) == i < SLOTS)
  {
    SoundAlways(ops);
    var t := Run(ops).table;
    forall i | Live(t, i)
      ensures Find(t, ByAddress(t[i].value.addr), 0) == i
    {
      var k := Find(t, ByAddress(t[i].value.addr), 0);
      if k < SLOTS { assert Live(t, k); }
    }
  }

  /** A new device takes the lowest free slot; with none free nothing happens. */
  lemma CreateOutcome(s: State, kind: C.DevType, id: nat, i: nat)
    requires id < 0x1_0000 && i < SLOTS && s.table[i].None? && forall j :: 0 <= j < i ==> s.table[j].Some?
    ensures Create(s, kind, id).table == s.table[i := Some(Device(s.created, kind, AddressOf(id, i), None, 0, 0))]
  {
  }

  lemma CreateFull(s: State, kind: C.DevType, id: nat)
    requires id < 0x1_0000
    ensures Create(s, kind, id) == s <==> forall j :: 0 <= j < SLOTS ==> s.table[j].Some?
  {
  }

  // ---------------------------------------------------------------- symmetry

  /** The device in slot i is connected to a live device that is connected back to it. */
  predicate Answered(t: Table, i: nat)
    requires Live(t, i)
  {
    t[i].value.conn.Some? ==>
      var j := Find(t, ByPointer(t[i].value.conn.value), 0);
      j < SLOTS && t[j].value.conn == Some(t[i].value.serial)
  }

  ghost predicate Symmetric(t: Table) {
    forall i :: Live(t, i) ==> Answered(t, i)
  }

  lemma FindSerial(s: State, j: nat)
    requires Sound(s) && Live(s.table, j)
    ensures Find(s.table, ByPointer(s.table[j].value.serial), 0) == j
  {
    var k := Find(s.table, ByPointer(s.table[j].value.serial), 0);
    if k < SLOTS { assert Live(s.table, k); }
  }

  predicate PointAtEachOther(t: Table, i: nat, j: nat) {
    && Live(t, i) && Live(t, j)
    && t[i].value.conn == Some(t[j].value.serial) && t[j].value.conn == Some(t[i].value.serial)
  }

  /** Said without the lookup: a table is symmetric exactly if every connected device has a live peer, the
      two pointing at each other. In such a table one of two devices points at the other exactly if that
      one points back. */
  lemma SymmetricMeaning(s: State)
    requires Sound(s)
    ensures Symmetric(s.table) <==> forall i :: Live(s.table, i) && s.table[i].value.conn.Some? ==>
              exists j :: PointAtEachOther(s.table, i, j)
    ensures Symmetric(s.table) ==> forall i, j :: Live(s.table, i) && Live(s.table, j) ==>
              (s.table[i].value.conn == Some(s.table[j].value.serial) <==>
               s.table[j].value.conn == Some(s.table[i].value.serial))
  {
    var t := s.table;
    forall i | Live(t, i) && t[i].value.conn.Some?
      ensures Answered(t, i) <==> exists j :: PointAtEachOther(t, i, j)
    {
      if j :| PointAtEachOther(t, i, j) { FindSerial(s, j); }
      if Answered(t, i) { assert PointAtEachOther(t, i, Find(t, ByPointer(t[i].value.conn.value), 0)); }
    }
    forall i, j | Symmetric(t) && Live(t, i) && Live(t, j)
      ensures t[i].value.conn == Some(t[j].value.serial) <==> t[j].value.conn == Some(t[i].value.serial)
    {
      FindSerial(s, i);
      FindSerial(s, j);
      assert Answered(t, i) && Answered(t, j);
    }
  }

  /** Connected to nobody but possibly one of the two. */
  predicate FreeFor(t: Table, k: nat, i: nat, j: nat)
    requires Live(t, k) && Live(t, i) && Live(t, j)
  {
    t[k].value.conn in {None, Some(t[i].value.serial), Some(t[j].value.serial)}
  }

  /** What a caller can check before a step: both ends of a new connection are free for each other,
      and only an unconnected device is destroyed. */
  predicate Guarded(s: State, op: Op) {
    Enabled(s, op) ==>
      && (op.Delete? ==> FreeFor(s.table, op.slot, op.slot, op.slot))
      && (Joins(s, op).Some? ==>
            && FreeFor(s.table, op.slot, op.slot, Joins(s, op).value)
            && FreeFor(s.table, Joins(s, op).value, op.slot, Joins(s, op).value))
  }

  /** Slots other than i and j hold the same devices with the same peers. */
  ghost predicate SameElsewhere(a: Table, b: Table, i: nat, j: nat) {
    forall k :: 0 <= k < SLOTS && k != i && k != j ==> a[k] == b[k]
  }

  lemma ConnectShape(s: State, i: nat, j: nat)
    requires Sound(s) && Live(s.table, i) && Live(s.table, j)
    ensures var t := Connect(s.table, i, j);
            && SameDevices(s.table, t) && SameElsewhere(s.table, t, i, j) && Sound(s.(table := t))
            && t[i].value.conn == Some(s.table[j].value.serial) && t[j].value.conn == Some(s.table[i].value.serial)
  {
    SoundSame(s, s.(table := Connect(s.table, i, j)));
  }

  lemma ConnectKeeps(s: State, i: nat, j: nat)
    requires Sound(s) && Symmetric(s.table) && Live(s.table, i) && Live(s.table, j)
    requires FreeFor(s.table, i, i, j) && FreeFor(s.table, j, i, j)
    ensures Symmetric(Connect(s.table, i, j))
  {
    ConnectShape(s, i, j);
    var s' := s.(table := Connect(s.table, i, j));
    FindSerial(s', i);
    FindSerial(s', j);
    forall k | Live(s'.table, k)
      ensures Answered(s'.table, k)
    {
      if k != i && k != j {
        assert Live(s.table, k) && Answered(s.table, k);
        if s.table[k].value.conn.Some? {
          var m := Find(s.table, ByPointer(s.table[k].value.conn.value), 0);
          assert Live(s'.table, m) && Live(s.table, m) && Live(s.table, i) && Live(s.table, j);
          FindSerial(s', m);
        }
      }
    }
  }

  /** A third device that was connected to either end keeps pointing at it in vain. */
  lemma ConnectBreaks(s: State, i: nat, j: nat)
    requires Sound(s) && Symmetric(s.table) && Live(s.table, i) && Live(s.table, j)
    requires !FreeFor(s.table, i, i, j) || !FreeFor(s.table, j, i, j)
    ensures !Symmetric(Connect(s.table, i, j))
  {
    ConnectShape(s, i, j);
    var s' := s.(table := Connect(s.table, i, j));
    var end := if !FreeFor(s.table, i, i, j) then i else j;
    assert Answered(s.table, end);
    var third := Find(s.table, ByPointer(s.table[end].value.conn.value), 0);
    assert Live(s'.table, third) && third != i && third != j;
    FindSerial(s', end);
    assert !Answered(s'.table, third);
  }

  lemma DisconnectKeeps(s: State, i: nat)
    requires Sound(s) && Symmetric(s.table) && Enabled(s, Hangup(i, HANDLE))
    ensures Symmetric(Disconnect(s.table, i))
  {
    var s' := s.(table := Disconnect(s.table, i));
    var j := Find(s.table, ByPointer(s.table[i].value.conn.value), 0);
    assert SameDevices(s.table, s'.table);
    SoundSame(s, s');
    assert Answered(s.table, i);
    forall k | Live(s'.table, k)
      ensures Answered(s'.table, k)
    {
      DisconnectOther(s, i, j, k);
    }
  }

  lemma DisconnectOther(s: State, i: nat, j: nat, k: nat)
    requires Sound(s) && Symmetric(s.table) && Live(s.table, i) && Live(s.table, j) && Live(s.table, k)
    requires s.table[i].value.conn == Some(s.table[j].value.serial)
    requires s.table[j].value.conn == Some(s.table[i].value.serial)
    ensures var t := SetConn(SetConn(s.table, i, None), j, None);
            Sound(s.(table := t)) ==> Answered(t, k)
  {
    var t := SetConn(SetConn(s.table, i, None), j, None);
    if Sound(s.(table := t)) && k != i && k != j && s.table[k].value.conn.Some? {
      assert Answered(s.table, k);
      var m := Find(s.table, ByPointer(s.table[k].value.conn.value), 0);
      assert Live(s.table, m);
      FindSerial(s.(table := t), m);
    }
  }

  lemma DestroyKeeps(s: State, i: nat)
    requires Sound(s) && Symmetric(s.table) && Live(s.table, i) && FreeFor(s.table, i, i, i)
    ensures Symmetric(Destroy(s, i).table)
  {
    var s' := Destroy(s, i);
    SoundDestroy(s, i);
    forall k | Live(s'.table, k)
      ensures Answered(s'.table, k)
    {
      assert Live(s.table, k) && Answered(s.table, k);
      if s.table[k].value.conn.Some? {
        var m := Find(s.table, ByPointer(s.table[k].value.conn.value), 0);
        assert Live(s.table, m) && Live(s'.table, m);
        FindSerial(s', m);
      }
    }
  }

  lemma DestroyBreaks(s: State, i: nat)
    requires Sound(s) && Symmetric(s.table) && Live(s.table, i) && !FreeFor(s.table, i, i, i)
    ensures !Symmetric(Destroy(s, i).table)
  {
    assert Answered(s.table, i);
    var s', peer := Destroy(s, i), Find(s.table, ByPointer(s.table[i].value.conn.value), 0);
    assert Live(s'.table, peer);
    var k := Find(s'.table, ByPointer(s.table[i].value.serial), 0);
    if k < SLOTS { assert Live(s.table, k) && Live(s.table, i); }
    assert !Answered(s'.table, peer);
  }

  lemma CreateKeeps(s: State, kind: C.DevType, id: nat)
    requires Sound(s) && Symmetric(s.table) && id < 0x1_0000
    ensures Symmetric(Create(s, kind, id).table)
  {
    var s' := Create(s, kind, id);
    SoundCreate(s, kind, id);
    forall k | Live(s'.table, k)
      ensures Answered(s'.table, k)
    {
      if s'.table[k].value.conn.Some? {
        assert Live(s.table, k) && Answered(s.table, k);
        var m := Find(s.table, ByPointer(s.table[k].value.conn.value), 0);
        assert Live(s.table, m) && Live(s'.table, m);
        FindSerial(s', m);
      }
    }
  }

  lemma SameConnsKeep(a: State, b: State)
    requires Sound(a) && Sound(b) && Symmetric(a.table) && SameDevices(a.table, b.table)
    requires forall i :: Live(a.table, i) ==> Live(b.table, i) && b.table[i].value.conn == a.table[i].value.conn
    ensures Symmetric(b.table)
  {
    forall k | Live(b.table, k)
      ensures Answered(b.table, k)
    {
      assert Live(a.table, k) && Answered(a.table, k);
      if a.table[k].value.conn.Some? {
        var m := Find(a.table, ByPointer(a.table[k].value.conn.value), 0);
        assert Live(a.table, m);
        FindSerial(b, m);
      }
    }
  }

  /** The switches touch no connection. */
  lemma SwitchKeeps(s: State, op: Op)
    requires Sound(s) && Symmetric(s.table) && Enabled(s, op) && (op.AdvEnable? || op.ScanEnable?)
    ensures Symmetric(Step(s, op).table)
  {
    SoundStep(s, op);
    SameConnsKeep(s, Step(s, op));
  }

  /** From a symmetric table a step leads to a symmetric table exactly when its guard held. */
  lemma SymmetricStepIff(s: State, op: Op)
    requires Sound(s) && Symmetric(s.table)
    ensures Symmetric(Step(s, op).table) <==> Guarded(s, op)
  {
    if Enabled(s, op) {
      match op
      case New(kind, id) => CreateKeeps(s, kind, id);
      case Delete(i) => if Guarded(s, op) { DestroyKeeps(s, i); } else { DestroyBreaks(s, i); }
      case RejectConn(i) => assert Step(s, op).table == s.table;
      case Hangup(i, handle) => DisconnectKeeps(s, i);
      case AdvEnable(i, enable) => SwitchKeeps(s, op);
      case ScanEnable(i, enable) => SwitchKeeps(s, op);
      case AclPacket(i, packet) => assert Step(s, op).table == s.table;
      case AcceptConn(i, addr) => JoinIff(s, op);
      case LeCreateConn(i, addr) => JoinIff(s, op);
    }
  }

  lemma JoinIff(s: State, op: Op)
    requires Sound(s) && Symmetric(s.table) && Enabled(s, op) && (op.AcceptConn? || op.LeCreateConn?)
    ensures Symmetric(Step(s, op).table) <==> Guarded(s, op)
  {
    var j := Joins(s, op);
    if j.Some? {
      if Guarded(s, op) { ConnectKeeps(s, op.slot, j.value); } else { ConnectBreaks(s, op.slot, j.value); }
    }
  }

  ghost predicate SymmetricThroughout(ops: seq<Op>) {
    Symmetric(Run(ops).table) && (ops != [] ==> SymmetricThroughout(ops[..|ops| - 1]))
  }

  predicate GuardedThroughout(ops: seq<Op>) {
    ops != [] ==> GuardedThroughout(ops[..|ops| - 1]) && Guarded(Run(ops[..|ops| - 1]), ops[|ops| - 1])
  }

  /** Connections are symmetric at every moment of a run exactly when every step of it was guarded. */
  lemma {:induction false} SymmetricAlwaysIff(ops: seq<Op>)
    ensures SymmetricThroughout(ops) <==> GuardedThroughout(ops)
  {
    if ops != [] {
      var init := ops[..|ops| - 1];
      SymmetricAlwaysIff(init);
      SoundAlways(init);
      if Symmetric(Run(init).table) { SymmetricStepIff(Run(init), ops[|ops| - 1]); }
    }
  }

  lemma RunNext(ops: seq<Op>, op: Op)
    ensures Run(ops + [op]) == Step(Run(ops), op)
  {
    assert (ops + [op])[..|ops|] == ops;
  }

  function ThreeDevices(): seq<Op> {
    [New(C.BredrLe, 0)] + [New(C.BredrLe, 0)] + [New(C.BredrLe, 0)]
  }

  lemma ThreeDevicesTable()
    ensures var t := Run(ThreeDevices()).table;
            forall i :: 0 <= i < SLOTS ==>
              t[i] == if i < 3 then Some(Device(i, C.BredrLe, AddressOf(0, i), None, 0, 0)) else None
  {
    var one := [New(C.BredrLe, 0)];
    assert [] + one == one;
    RunNext([], New(C.BredrLe, 0));
    RunNext(one, New(C.BredrLe, 0));
    RunNext(one + one, New(C.BredrLe, 0));
    CreateOutcome(Run([]), C.BredrLe, 0, 0);
    CreateOutcome(Run(one), C.BredrLe, 0, 1);
    CreateOutcome(Run(one + one), C.BredrLe, 0, 2);
  }

  lemma ThreeDevicesFacts()
    ensures var t := Run(ThreeDevices()).table;
            && Symmetric(t) && Live(t, 0) && Live(t, 1) && Live(t, 2) && t[1].value.addr == AddressOf(0, 1)
            && forall i :: 0 <= i < 3 ==>
                 t[i].value.serial == i && t[i].value.conn.None? && t[i].value.kind == C.BredrLe
  {
    ThreeDevicesTable();
  }

  function Pair(): seq<Op> {
    ThreeDevices() + [AcceptConn(0, AddressOf(0, 1))]
  }

  lemma PairTable()
    ensures Symmetric(Run(Pair()).table)
    ensures var t := Run(Pair()).table;
            && Live(t, 0) && Live(t, 1) && Live(t, 2) && t[2].value.kind == C.BredrLe && t[2].value.serial == 2
            && t[1].value.addr == AddressOf(0, 1) && t[1].value.conn == Some(0) && t[1].value.serial == 1
            && t[0].value.conn == Some(1) && t[0].value.serial == 0
  {
    var accept, s := AcceptConn(0, AddressOf(0, 1)), Run(ThreeDevices());
    ThreeDevicesFacts();
    SoundAlways(ThreeDevices());
    FindIsOwner(ThreeDevices(), AddressOf(0, 1));
    RunNext(ThreeDevices(), accept);
    assert Joins(s, accept) == Some(1);
    ConnectKeeps(s, 0, 1);
    ConnectShape(s, 0, 1);
    assert Step(s, accept).table == Connect(s.table, 0, 1);
  }

  /** Two devices get connected; the third then accepts one of them, and the symmetry is gone. */
  function Overwritten(): seq<Op> {
    Pair() + [AcceptConn(2, AddressOf(0, 1))]
  }

  lemma ThirdDeviceJoins()
    ensures Enabled(Run(Pair()), AcceptConn(2, AddressOf(0, 1)))
    ensures Joins(Run(Pair()), AcceptConn(2, AddressOf(0, 1))) == Some(1)
    ensures Run(Overwritten()) == Join(Run(Pair()), 2, 1)
  {
    PairTable();
    SoundAlways(Pair());
    FindIsOwner(Pair(), AddressOf(0, 1));
    RunNext(Pair(), AcceptConn(2, AddressOf(0, 1)));
  }

  lemma ThirdDeviceBreaks()
    ensures Symmetric(Run(Pair()).table) && !Symmetric(Run(Overwritten()).table)
  {
    var again := AcceptConn(2, AddressOf(0, 1));
    PairTable();
    SoundAlways(Pair());
    ThirdDeviceJoins();
    assert !Guarded(Run(Pair()), again);
    RunNext(Pair(), again);
    SymmetricStepIff(Run(Pair()), again);
  }
}
