/** The emulated host's command side as the source writes it: a credit counter and a queue that is
    entered and left at its tail. Every method performs one step of `CommandCredits`. */
module CommandHost {
  import opened CommandCredits
  import Spec = CommandCredits

  class Bthost {
    var ncmd: nat
    var cmdQueue: seq<Cmd>
    var issued: nat
    ghost var sent: seq<Cmd>
    ghost var lost: seq<Cmd>

    ghost function View(): Host
      reads this
    {
      Host(ncmd, cmdQueue, sent, lost, issued)
    }

    constructor ()
      ensures View() == NewHost
    {
      ncmd, cmdQueue, issued := 0, [], 0;
      sent, lost := [], [];
    }

    method SendPacket(cmd: Cmd)
      modifies this`sent
      ensures sent == old(sent) + [cmd]
    {
      sent := sent + [cmd];
    }

    method QueueCommand(cmd: Cmd)
      modifies this`cmdQueue
      ensures cmdQueue == old(cmdQueue) + [cmd]
    {
      cmdQueue := cmdQueue + [cmd];
    }

    method SendCommand(opcode: nat)
      modifies this
      ensures View() == Spec.SendCommand(old(View()), opcode)
    {
      var cmd := Cmd(issued, opcode);
      issued := issued + 1;
      if ncmd > 0 {
        SendPacket(cmd);
        ncmd := ncmd - 1;
      } else {
        QueueCommand(cmd);
      }
    }

    /** The tail leaves; the entries before it are no longer reachable from the queue. */
    method NextCmd()
      modifies this
      ensures View() == Spec.NextCmd(old(View()))
    {
      if cmdQueue == [] { return; }
      if ncmd == 0 { return; }
      var cmd := cmdQueue[|cmdQueue| - 1];
      SendPacket(cmd);
      ncmd := ncmd - 1;
      lost := lost + cmdQueue[..|cmdQueue| - 1];
      cmdQueue := [];
    }

    /** The completion callback, given by the commands it sends. */
    method RunCallback(opcodes: seq<nat>)
      modifies this
      ensures View() == SendAll(old(View()), opcodes)
    {
      var i := 0;
      while i < |opcodes|
        invariant i <= |opcodes|
        invariant SendAll(View(), opcodes[i..]) == SendAll(old(View()), opcodes)
      {
        assert opcodes[i..][1..] == opcodes[i + 1..];
        SendCommand(opcodes[i]);
        i := i + 1;
      }
    }

    method EvtCmdComplete(credit: nat, callback: seq<nat>)
      modifies this
      ensures View() == EvtCredit(old(View()), credit, callback)
    {
      ncmd := credit;
      RunCallback(callback);
      NextCmd();
    }

    /** The callback runs for a failed command only. */
    method EvtCmdStatus(credit: nat, status: nat, callback: seq<nat>)
      modifies this
      ensures View() == EvtCredit(old(View()), credit, if status != 0 then callback else [])
    {
      ncmd := credit;
      if status != 0 {
        RunCallback(callback);
      }
      NextCmd();
    }

    method Start()
      modifies this
      ensures View() == Spec.Start(old(View()))
    {
      ncmd := 1;
      SendCommand(RESET);
      SendCommand(READ_BD_ADDR);
    }
  }
}
