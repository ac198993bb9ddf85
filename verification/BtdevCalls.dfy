/** What the calls do to the devices and what they tell the hosts, told field by field. */
module BtdevCalls {
  import opened Octets
  import opened Options
  import opened Btdev
  import opened BtdevConnections
  import C = CommandCredits

  /** The two devices point at each other, and nothing else has changed. */
  predicate NowJoined(before: Table, after: Table, i: nat, j: nat)
    requires Live(before, i) && Live(before, j)
  {
    && Live(after, i) && Live(after, j)
    && after[i].value == before[i].value.(conn := Some(before[j].value.serial))
    && after[j].value == before[j].value.(conn := Some(before[i].value.serial))
    && forall k :: 0 <= k < SLOTS && k != i && k != j ==> after[k] == before[k]
  }

  lemma OwnerFound(s: State, j: nat)
    requires Sound(s) && Live(s.table, j)
    ensures Find(s.table, ByAddress(s.table[j].value.addr), 0) == j
  {
    var k := Find(s.table, ByAddress(s.table[j].value.addr), 0);
    if k < SLOTS { assert Live(s.table, k); }
  }

  lemma NobodyFound(s: State, addr: Address)
    requires forall j :: Live(s.table, j) ==> s.table[j].value.addr != addr
    ensures Find(s.table, ByAddress(addr), 0) == SLOTS
  {
    var k := Find(s.table, ByAddress(addr), 0);
    if k < SLOTS { assert Live(s.table, k); }
  }

  /** A new device has the number of its creator, its slot and the bytes 1, 170 and 0 for an address, is
      connected to nothing, and neither advertises nor scans. */
  lemma NewDevice(s: State, kind: C.DevType, id: nat, i: nat)
    requires id < 0x1_0000 && i < SLOTS && s.table[i].None? && forall j :: 0 <= j < i ==> s.table[j].Some?
    ensures var t := Create(s, kind, id).table;
            && Live(t, i) && Value16(t[i].value.addr[..2]) == id && t[i].value.addr[2..] == [i, 1, 170, 0]
            && t[i].value.serial == s.created && t[i].value.kind == kind && t[i].value.conn == None
            && t[i].value.advEnable == 0 && t[i].value.scanEnable == 0
            && forall k :: 0 <= k < SLOTS && k != i ==> t[k] == s.table[k]
  {
    CreateOutcome(s, kind, id, i);
    LeValue16(id);
    assert AddressOf(id, i)[..2] == Le16(id);
  }

  // ---------------------------------------------------------------- low energy connections

  /** A device that can do low energy and asks for one that advertises is joined to it; both hosts are told
      of connection 42, the other side's first. */
  lemma LowEnergyJoins(s: State, i: nat, j: nat)
    requires Sound(s) && Live(s.table, i) && !s.table[i].value.kind.Bredr?
    requires Live(s.table, j) && s.table[j].value.advEnable != 0
    ensures var s' := Step(s, LeCreateConn(i, s.table[j].value.addr));
            && NowJoined(s.table, s'.table, i, j) && s'.created == s.created
            && s'.log == s.log + [Linked(s.table[j].value.serial, 42), Linked(s.table[i].value.serial, 42)]
  {
    OwnerFound(s, j);
  }

  /** If no live device has that address and advertises, nobody is joined, and its own host alone is told,
      with 0x3e. */
  lemma LowEnergyRefused(s: State, i: nat, addr: Address)
    requires Sound(s) && Live(s.table, i) && !s.table[i].value.kind.Bredr?
    requires forall j :: Live(s.table, j) && s.table[j].value.addr == addr ==> s.table[j].value.advEnable == 0
    ensures var s' := Step(s, LeCreateConn(i, addr));
            && s'.table == s.table && s'.created == s.created
            && s'.log == s.log + [Refused(s.table[i].value.serial, 0x3e)]
  {
    if j: nat :| Live(s.table, j) && s.table[j].value.addr == addr {
      OwnerFound(s, j);
    } else {
      NobodyFound(s, addr);
    }
  }

  /** So a low energy connection is made exactly if the device addressed is live and advertises. */
  lemma LowEnergyIff(s: State, i: nat, addr: Address)
    requires Sound(s) && Live(s.table, i) && !s.table[i].value.kind.Bredr?
    ensures (exists j: nat :: Live(s.table, j) && s.table[j].value.addr == addr && s.table[j].value.advEnable != 0) <==>
            !(Refused(s.table[i].value.serial, 0x3e) in Step(s, LeCreateConn(i, addr)).log[|s.log|..])
    ensures s.log <= Step(s, LeCreateConn(i, addr)).log
  {
    var s' := Step(s, LeCreateConn(i, addr));
    if j: nat :| Live(s.table, j) && s.table[j].value.addr == addr && s.table[j].value.advEnable != 0 {
      LowEnergyJoins(s, i, j);
      var a, b := Linked(s.table[j].value.serial, 42), Linked(s.table[i].value.serial, 42);
      assert s'.log[|s.log|..] == [a, b];
    } else {
      LowEnergyRefused(s, i, addr);
      assert s'.log[|s.log|..] == [Refused(s.table[i].value.serial, 0x3e)];
    }
  }

  // ---------------------------------------------------------------- the other calls

  /** A device that only does low energy asks for a classic connection in vain, and one that does none
      for a low energy one. */
  lemma WrongKindIgnored(s: State, i: nat, addr: Address)
    requires Live(s.table, i)
    ensures s.table[i].value.kind.Bredr? ==> Step(s, LeCreateConn(i, addr)) == s
    ensures s.table[i].value.kind.Le? ==> Step(s, AcceptConn(i, addr)) == s && Step(s, RejectConn(i)) == s
  {
  }

  /** Accepting joins with whichever live device has the address, whether it asked or not. */
  lemma AcceptJoins(s: State, i: nat, j: nat)
    requires Sound(s) && Live(s.table, i) && !s.table[i].value.kind.Le? && Live(s.table, j)
    ensures var s' := Step(s, AcceptConn(i, s.table[j].value.addr));
            && NowJoined(s.table, s'.table, i, j) && s'.created == s.created
            && s'.log == s.log + [Linked(s.table[j].value.serial, 42), Linked(s.table[i].value.serial, 42)]
  {
    OwnerFound(s, j);
  }

  lemma RejectTells(s: State, i: nat)
    requires Live(s.table, i) && !s.table[i].value.kind.Le?
    ensures var s' := Step(s, RejectConn(i));
            && s'.table == s.table && s'.created == s.created
            && s'.log == s.log + [Refused(s.table[i].value.serial, 0x02)]
  {
  }

  /** Hanging up clears both ends and tells both hosts the handle, one's own first. */
  lemma HangupParts(s: State, i: nat, j: nat, handle: nat)
    requires Sound(s) && Live(s.table, i) && Live(s.table, j)
    requires s.table[i].value.conn == Some(s.table[j].value.serial)
    ensures var s' := Step(s, Hangup(i, handle));
            && Live(s'.table, i) && s'.table[i].value == s.table[i].value.(conn := None)
            && Live(s'.table, j) && s'.table[j].value == s.table[j].value.(conn := None)
            && (forall k :: 0 <= k < SLOTS && k != i && k != j ==> s'.table[k] == s.table[k])
            && s'.log == s.log + [Unlinked(s.table[i].value.serial, handle), Unlinked(s.table[j].value.serial, handle)]
  {
    FindSerial(s, j);
  }

  /** A device that is switched on or off, unless it is so already or only does classic, keeps everything
      else, and so do the others. */
  lemma SwitchSets(s: State, i: nat, enable: byte)
    requires Live(s.table, i)
    ensures var d, adv, scan := s.table[i].value, Step(s, AdvEnable(i, enable)), Step(s, ScanEnable(i, enable));
            && (d.kind.Bredr? ==> adv == s && scan == s)
            && (!d.kind.Bredr? ==> adv.table == s.table[i := Some(d.(advEnable := enable))]
                                   && scan.table == s.table[i := Some(d.(scanEnable := enable))])
            && (d.advEnable == enable ==> adv == s) && (d.scanEnable == enable ==> scan == s)
            && (enable == 0 ==> adv.log == s.log && scan.log == s.log)
  {
    assert s.table[i := Some(s.table[i].value)] == s.table;
  }

  /** A connected device forwards the very packet to its peer and gives its own host one credit; an
      unconnected one does nothing. */
  lemma PacketForwarded(s: State, i: nat, packet: seq<byte>)
    requires Enabled(s, AclPacket(i, packet))
    ensures var d, s' := s.table[i].value, Step(s, AclPacket(i, packet));
            && s'.table == s.table
            && s'.log == s.log + if d.conn.Some? then [Forwarded(d.serial, d.conn.value, packet), Completed(d.serial)]
                                 else []
  {
    assert s.log + [] == s.log;
  }
}
