/** The device table as the source writes it: sixteen slots searched by loops, with the devices'
    fields updated in place. Every method performs exactly one operation of `Btdev`. */
module BtdevControllers {
  import opened Octets
  import opened Options
  import opened Btdev
  import Spec = Btdev
  import C = CommandCredits

  lemma Regroup(told: seq<Event>, todo: seq<Event>, rest: seq<Event>)
    requires todo != [] && todo == [todo[0]] + rest
    ensures told + todo == (told + [todo[0]]) + rest
  {
  }

  class Controllers {
    const slots: array<Option<Device>>
    ghost var created: nat
    ghost var log: seq<Event>
    var nextPointer: nat

    ghost predicate Valid()
      reads this
    {
      slots.Length == SLOTS && nextPointer == created
    }

    ghost function View(): State
      reads this, slots
      requires Valid()
    {
      State(slots[..], created, log)
    }

    constructor ()
      ensures Valid() && View() == Initial() && fresh(slots)
    {
      slots := new Option<Device>[SLOTS](_ => None);
      nextPointer, created, log := 0, 0, [];
      new;
      assert slots[..] == seq(SLOTS, _ => None);
    }

    /** The first free slot, which is taken at once. */
    method AddBtdev(d: Device) returns (index: int)
      requires Valid()
      modifies slots
      ensures var k := FirstFree(old(slots[..]), 0);
              if k == SLOTS then index == -1 && slots[..] == old(slots[..])
              else index == k && slots[..] == old(slots[..])[k := Some(d)]
    {
      index := -1;
      var i := 0;
      while i < SLOTS
        invariant i <= SLOTS && slots[..] == old(slots[..]) && FirstFree(slots[..], 0) == FirstFree(slots[..], i)
      {
        if slots[i].None? {
          index := i;
          slots[i] := Some(d);
          break;
        }
        i := i + 1;
      }
    }

    method DelBtdev(serial: nat)
      requires Valid()
      modifies slots
      ensures var k := Find(old(slots[..]), ByPointer(serial), 0);
              slots[..] == if k == SLOTS then old(slots[..]) else old(slots[..])[k := None]
    {
      var i := 0;
      while i < SLOTS
        invariant i <= SLOTS && slots[..] == old(slots[..])
        invariant Find(slots[..], ByPointer(serial), 0) == Find(slots[..], ByPointer(serial), i)
      {
        if slots[i].Some? && slots[i].value.serial == serial {
          slots[i] := None;
          break;
        }
        i := i + 1;
      }
    }

    method FindByBdaddr(addr: Address) returns (i: nat)
      requires Valid()
      ensures i == Find(slots[..], ByAddress(addr), 0)
    {
      i := 0;
      while i < SLOTS
        invariant i <= SLOTS && Find(slots[..], ByAddress(addr), 0) == Find(slots[..], ByAddress(addr), i)
      {
        if slots[i].Some? && slots[i].value.addr == addr { return; }
        i := i + 1;
      }
    }

    method FindPointer(serial: nat) returns (i: nat)
      requires Valid()
      ensures i == Find(slots[..], ByPointer(serial), 0)
    {
      i := 0;
      while i < SLOTS
        invariant i <= SLOTS && Find(slots[..], ByPointer(serial), 0) == Find(slots[..], ByPointer(serial), i)
      {
        if slots[i].Some? && slots[i].value.serial == serial { return; }
        i := i + 1;
      }
    }

    /** The address is written once the slot is known. */
    method Create(kind: C.DevType, id: nat) returns (index: int)
      requires Valid() && id < 0x1_0000
      modifies this, slots
      ensures Valid() && View() == Spec.Create(old(View()), kind, id)
      ensures index == if FirstFree(old(slots[..]), 0) == SLOTS then -1 else FirstFree(old(slots[..]), 0)
    {
      var d := Device(nextPointer, kind, [0, 0, 0, 0, 0, 0], None, 0, 0);
      index := AddBtdev(d);
      if index < 0 { return; }
      slots[index] := Some(d.(addr := AddressOf(id, index)));
      nextPointer := nextPointer + 1;
      created := created + 1;
    }

    method Destroy(i: nat)
      requires Valid() && Live(slots[..], i) && Find(slots[..], ByPointer(slots[i].value.serial), 0) == i
      modifies slots
      ensures View() == Spec.Destroy(old(View()), i)
    {
      DelBtdev(slots[i].value.serial);
    }

    method SetConn(i: nat, conn: Option<nat>)
      requires Valid() && Live(slots[..], i)
      modifies slots
      ensures slots[..] == Spec.SetConn(old(slots[..]), i, conn)
    {
      slots[i] := Some(slots[i].value.(conn := conn));
    }

    /** Joins the device to the one with this address, or only reports the failure. */
    method ConnComplete(i: nat, addr: Address, status: nat)
      requires Valid() && Live(slots[..], i)
      requires status == 0 ==> Find(slots[..], ByAddress(addr), 0) < SLOTS
      modifies this`log, slots
      ensures View() == if status == 0 then Join(old(View()), i, Find(old(slots[..]), ByAddress(addr), 0))
                        else Refuse(old(View()), i, status)
    {
      var self := slots[i].value.serial;
      if status == 0 {
        var remote := FindByBdaddr(addr);
        var other := slots[remote].value.serial;
        SetConn(i, Some(other));
        SetConn(remote, Some(self));
        log := log + [Linked(other, HANDLE)];
        log := log + [Linked(self, HANDLE)];
      } else {
        log := log + [Refused(self, status)];
      }
    }

    method AcceptConn(i: nat, addr: Address)
      requires Valid() && Enabled(View(), Op.AcceptConn(i, addr))
      modifies this`log, slots
      ensures View() == Step(old(View()), Op.AcceptConn(i, addr))
    {
      if slots[i].value.kind.Le? { return; }
      ConnComplete(i, addr, 0);
    }

    method RejectConn(i: nat, addr: Address)
      requires Valid() && Live(slots[..], i)
      modifies this`log, slots
      ensures View() == Step(old(View()), Op.RejectConn(i))
    {
      if slots[i].value.kind.Le? { return; }
      ConnComplete(i, addr, ERR_UNKNOWN_CONN_ID);
    }

    method LeConnRequest(i: nat, addr: Address)
      requires Valid() && Live(slots[..], i)
      modifies this`log, slots
      ensures View() == Step(old(View()), LeCreateConn(i, addr))
    {
      if slots[i].value.kind.Bredr? { return; }
      var remote := FindByBdaddr(addr);
      if remote < SLOTS && slots[remote].value.advEnable != 0 {
        ConnComplete(i, addr, 0);
      } else {
        ConnComplete(i, addr, ERR_CONN_FAILED);
      }
    }

    method DisconnectComplete(i: nat, handle: nat)
      requires Valid() && Enabled(View(), Hangup(i, handle))
      modifies this`log, slots
      ensures View() == Step(old(View()), Hangup(i, handle))
    {
      var self, peer := slots[i].value.serial, slots[i].value.conn.value;
      var remote := FindPointer(peer);
      SetConn(i, None);
      SetConn(remote, None);
      log := log + [Unlinked(self, handle)];
      log := log + [Unlinked(peer, handle)];
    }

    method SendAdvReport(to: nat, about: nat)
      requires Valid() && Live(slots[..], to) && Live(slots[..], about)
      modifies this`log
      ensures log == old(log) + [Report(slots[to].value.serial, slots[about].value.serial)]
    {
      log := log + [Report(slots[to].value.serial, slots[about].value.serial)];
    }

    method SetAdvEnableComplete(self: nat)
      requires Valid() && Live(slots[..], self)
      modifies this`log
      ensures log == old(log) + TellScanners(slots[..], self, 0)
    {
      var i := 0;
      ghost var t, told := slots[..], [];
      while i < SLOTS
        invariant i <= SLOTS && log == old(log) + told
        invariant told + TellScanners(t, self, i) == TellScanners(t, self, 0)
      {
        if slots[i].None? || i == self { i := i + 1; continue; }
        if slots[i].value.scanEnable == 0 { i := i + 1; continue; }
        Regroup(told, TellScanners(t, self, i), TellScanners(t, self, i + 1));
        told := told + [TellScanners(t, self, i)[0]];
        SendAdvReport(i, self);
        i := i + 1;
      }
    }

    method SetScanEnableComplete(self: nat)
      requires Valid() && Live(slots[..], self)
      modifies this`log
      ensures log == old(log) + TellAboutAdvertisers(slots[..], self, 0)
    {
      var i := 0;
      ghost var t, told := slots[..], [];
      while i < SLOTS
        invariant i <= SLOTS && log == old(log) + told
        invariant told + TellAboutAdvertisers(t, self, i) == TellAboutAdvertisers(t, self, 0)
      {
        if slots[i].None? || i == self { i := i + 1; continue; }
        if slots[i].value.advEnable == 0 { i := i + 1; continue; }
        Regroup(told, TellAboutAdvertisers(t, self, i), TellAboutAdvertisers(t, self, i + 1));
        told := told + [TellAboutAdvertisers(t, self, i)[0]];
        SendAdvReport(self, i);
        i := i + 1;
      }
    }

    /** Returns whether the command succeeded. */
    method SetAdvEnable(i: nat, enable: byte) returns (success: bool)
      requires Valid() && Live(slots[..], i)
      modifies this`log, slots
      ensures View() == Spec.SetAdvEnable(old(View()), i, enable)
      ensures success <==> !old(slots[i].value.kind.Bredr?) && old(slots[i].value.advEnable) != enable
    {
      var d := slots[i].value;
      if d.kind.Bredr? || d.advEnable == enable { return false; }
      slots[i] := Some(d.(advEnable := enable));
      if enable != 0 {
        log := log + [AdvEnabled(d.serial)];
        SetAdvEnableComplete(i);
      }
      return true;
    }

    method SetScanEnable(i: nat, enable: byte) returns (success: bool)
      requires Valid() && Live(slots[..], i)
      modifies this`log, slots
      ensures View() == Spec.SetScanEnable(old(View()), i, enable)
      ensures success <==> !old(slots[i].value.kind.Bredr?) && old(slots[i].value.scanEnable) != enable
    {
      var d := slots[i].value;
      if d.kind.Bredr? || d.scanEnable == enable { return false; }
      slots[i] := Some(d.(scanEnable := enable));
      if enable != 0 {
        log := log + [ScanEnabled(d.serial)];
        SetScanEnableComplete(i);
      }
      return true;
    }

    method NumCompletedPackets(i: nat)
      requires Valid() && Live(slots[..], i)
      modifies this`log
      ensures log == old(log) + if slots[i].value.conn.Some? then [Completed(slots[i].value.serial)] else []
    {
      if slots[i].value.conn.Some? {
        log := log + [Completed(slots[i].value.serial)];
      }
    }

    /** The data branch of the packet entry point. */
    method ReceiveAcl(i: nat, packet: seq<byte>)
      requires Valid() && Live(slots[..], i)
      modifies this`log
      ensures View() == Spec.ReceiveAcl(old(View()), i, packet)
    {
      var d := slots[i].value;
      if d.conn.Some? {
        log := log + [Forwarded(d.serial, d.conn.value, packet)];
      }
      NumCompletedPackets(i);
    }
  }
}
