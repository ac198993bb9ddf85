/** Command credits are conserved, and what the host's queue does to waiting commands. */
module CommandCreditLaws {
  import opened CommandCredits
  import opened Counting

  // ---------------------------------------------------------------- conservation

  /** Every command is answered by exactly one event with one credit, except adding a synchronous
      connection on a controller that supports it, which is not answered at all. */
  lemma OneAnswerIff(t: DevType, opcode: nat)
    ensures |DefaultCmd(t, opcode)| == 1 <==> !(opcode == ADD_SCO_CONN && t != Le)
    ensures |DefaultCmd(t, opcode)| <= 1
    ensures forall e :: e in DefaultCmd(t, opcode) ==> Bears(e) && e.ncmd == 1 && e.opcode == opcode
  {
  }

  predicate Answered(t: DevType, opcode: nat) {
    !(opcode == ADD_SCO_CONN && t != Le)
  }

  function CreditsIn(events: seq<HciEvent>): nat {
    Count(events, Bears)
  }

  /** The credit is with the host, on its way out as a command, or on its way back as an event. */
  function Credits(s: System): nat {
    s.host.ncmd + |s.commands| + CreditsIn(s.events)
  }

  predicate NoCredit(events: seq<HciEvent>) {
    forall i :: 0 <= i < |events| ==> !Bears(events[i])
  }

  /** Sending never creates or destroys a credit: what leaves `ncmd` leaves on the wire. */
  lemma {:induction false} SendAllSpends(h: Host, opcodes: seq<nat>)
    ensures var h' := SendAll(h, opcodes);
            h'.ncmd + |h'.sent| == h.ncmd + |h.sent| && h.sent <= h'.sent
    decreases |opcodes|
  {
    if opcodes != [] { SendAllSpends(SendCommand(h, opcodes[0]), opcodes[1..]); }
  }

  lemma CreditSpends(h: Host, ncmd: nat, callback: seq<nat>)
    ensures var h' := EvtCredit(h, ncmd, callback);
            h'.ncmd + |h'.sent| == ncmd + |h.sent| && h.sent <= h'.sent
  {
    SendAllSpends(h.(ncmd := ncmd), callback);
  }

  // ---------------------------------------------------------------- which commands are in play

  predicate AllAnswered(t: DevType, cmds: seq<Cmd>) {
    forall i :: 0 <= i < |cmds| ==> Answered(t, cmds[i].opcode)
  }

  predicate OpcodesAnswered(t: DevType, opcodes: seq<nat>) {
    forall i :: 0 <= i < |opcodes| ==> Answered(t, opcodes[i])
  }

  /** What else travels to the host bears no credit. */
  predicate NoneFromOutside(a: Action) {
    match a
    case Controller(before, after) => NoCredit(before) && NoCredit(after)
    case Unsolicited(e) => !Bears(e)
    case _ => true
  }

  predicate UnitCredits(events: seq<HciEvent>) {
    forall i :: 0 <= i < |events| && Bears(events[i]) ==> events[i].ncmd == 1
  }

  /** One credit once the host has started, none before. */
  predicate SingleCredit(s: System) {
    Credits(s) == if s.starts > 0 then 1 else 0
  }

  lemma TransmitCredits(s: System, h: Host)
    requires s.host.sent <= h.sent && h.ncmd + |h.sent| == s.host.ncmd + |s.host.sent|
    ensures Credits(Transmit(s, h)) == Credits(s)
  {
  }

  /** A start sets the host's own credits to one, whatever they were. */
  lemma StartCredits(t: DevType, s: System)
    ensures Credits(Step(t, s, HostStart)) == Credits(s) - s.host.ncmd + 1
  {
    TransmitCredits(s.(host := s.host.(ncmd := 1)), Start(s.host));
  }

  /** So it keeps their number exactly if the host holds one credit. */
  lemma StartKeepsCreditsIff(t: DevType, s: System)
    ensures Credits(Step(t, s, HostStart)) == Credits(s) <==> s.host.ncmd == 1
  {
    StartCredits(t, s);
  }

  /** A command that is handled gives its credit back if it is answered, and only then. */
  lemma ControllerCredits(t: DevType, s: System, before: seq<HciEvent>, after: seq<HciEvent>)
    requires s.commands != [] && NoCredit(before) && NoCredit(after)
    ensures var s' := Step(t, s, Controller(before, after));
            && Credits(s') == Credits(s) - (if Answered(t, s.commands[0].opcode) then 0 else 1)
            && (UnitCredits(s.events) ==> UnitCredits(s'.events))
  {
    var answer := DefaultCmd(t, s.commands[0].opcode);
    OneAnswerIff(t, s.commands[0].opcode);
    CountAppend(s.events, before, Bears);
    CountAppend(s.events + before, answer, Bears);
    CountAppend(s.events + before + answer, after, Bears);
    CountZero(before, Bears);
    CountZero(after, Bears);
    if answer != [] { assert answer[1..] == []; assert answer[0] in answer; }
  }

  lemma DeliverCredits(t: DevType, s: System, callback: seq<nat>)
    requires UnitCredits(s.events) && Credits(s) <= 1
    ensures var s' := Step(t, s, Deliver(callback));
            Credits(s') == Credits(s) && UnitCredits(s'.events)
  {
    if s.events != [] {
      var e, rest := s.events[0], s.(events := s.events[1..]);
      if Bears(e) {
        CreditSpends(s.host, e.ncmd, callback);
        TransmitCredits(rest.(host := s.host.(ncmd := e.ncmd)), EvtCredit(s.host, e.ncmd, callback));
      } else if e.ConnRequest? {
        TransmitCredits(rest, SendCommand(s.host, ACCEPT_CONN_REQUEST));
      }
    }
  }

  /** What keeps the single credit, as seen before an action: a start after the first one finds the host
      with its credit at hand, and a command that is handled is one the controller answers. */
  predicate CreditGuard(t: DevType, s: System, a: Action) {
    match a
    case HostStart => s.starts == 0 || s.host.ncmd == 1
    case Controller(_, _) => s.commands != [] ==> Answered(t, s.commands[0].opcode)
    case _ => true
  }

  lemma SingleCreditStepIff(t: DevType, s: System, a: Action)
    requires SingleCredit(s) && UnitCredits(s.events) && NoneFromOutside(a)
    ensures SingleCredit(Step(t, s, a)) <==> CreditGuard(t, s, a)
    ensures UnitCredits(Step(t, s, a).events)
  {
    match a
    case HostStart => StartCredits(t, s);
    case HostSend(opcode) => TransmitCredits(s, SendCommand(s.host, opcode));
    case Controller(before, after) => if s.commands != [] { ControllerCredits(t, s, before, after); }
    case Unsolicited(e) => CountAppend(s.events, [e], Bears);
    case Deliver(callback) => DeliverCredits(t, s, callback);
  }

  predicate CreditGuarded(t: DevType, actions: seq<Action>) {
    actions != [] ==>
      var init := actions[..|actions| - 1];
      CreditGuarded(t, init) && CreditGuard(t, Run(t, init), actions[|actions| - 1])
  }

  predicate SingleCreditThroughout(t: DevType, actions: seq<Action>) {
    SingleCredit(Run(t, actions)) && (actions != [] ==> SingleCreditThroughout(t, actions[..|actions| - 1]))
  }

  predicate AllFromInside(actions: seq<Action>) {
    forall i :: 0 <= i < |actions| ==> NoneFromOutside(actions[i])
  }

  /** The credit is single throughout a run exactly if every start after the first found it with the host,
      and every command handled was answered. */
  lemma {:induction false} SingleCreditAlwaysIff(t: DevType, actions: seq<Action>)
    requires AllFromInside(actions)
    ensures SingleCreditThroughout(t, actions) <==> CreditGuarded(t, actions)
    ensures SingleCreditThroughout(t, actions) ==> UnitCredits(Run(t, actions).events)
  {
    if actions != [] {
      var init, a := actions[..|actions| - 1], actions[|actions| - 1];
      SingleCreditAlwaysIff(t, init);
      if SingleCreditThroughout(t, init) { SingleCreditStepIff(t, Run(t, init), a); }
    }
  }

  // ---------------------------------------------------------------- commands that are answered

  /** An action with commands the controller answers. */
  predicate Proper(t: DevType, a: Action) {
    match a
    case HostSend(opcode) => Answered(t, opcode)
    case Deliver(callback) => OpcodesAnswered(t, callback)
    case _ => NoneFromOutside(a)
  }

  predicate AllProper(t: DevType, actions: seq<Action>) {
    forall i :: 0 <= i < |actions| ==> Proper(t, actions[i])
  }

  predicate OnlyAnswered(t: DevType, s: System) {
    AllAnswered(t, s.commands) && AllAnswered(t, s.host.waiting) && AllAnswered(t, s.host.sent)
  }

  lemma {:induction false} SendAllAnswered(t: DevType, h: Host, opcodes: seq<nat>)
    requires OpcodesAnswered(t, opcodes) && AllAnswered(t, h.waiting) && AllAnswered(t, h.sent)
    ensures AllAnswered(t, SendAll(h, opcodes).waiting) && AllAnswered(t, SendAll(h, opcodes).sent)
    decreases |opcodes|
  {
    if opcodes != [] { SendAllAnswered(t, SendCommand(h, opcodes[0]), opcodes[1..]); }
  }

  lemma TransmitAnswered(t: DevType, s: System, h: Host)
    requires |s.host.sent| <= |h.sent| && AllAnswered(t, s.commands)
    requires AllAnswered(t, h.sent) && AllAnswered(t, h.waiting)
    ensures OnlyAnswered(t, Transmit(s, h))
  {
  }

  lemma OnlyAnsweredStep(t: DevType, s: System, a: Action)
    requires OnlyAnswered(t, s) && Proper(t, a)
    ensures OnlyAnswered(t, Step(t, s, a))
  {
    match a
    case HostStart => TransmitAnswered(t, s, Start(s.host));
    case HostSend(opcode) => TransmitAnswered(t, s, SendCommand(s.host, opcode));
    case Controller(_, _) =>
    case Unsolicited(_) =>
    case Deliver(callback) =>
      if s.events != [] {
        var e, rest := s.events[0], s.(events := s.events[1..]);
        if Bears(e) {
          SendAllAnswered(t, s.host.(ncmd := e.ncmd), callback);
          CreditSpends(s.host, e.ncmd, callback);
          TransmitAnswered(t, rest, EvtCredit(s.host, e.ncmd, callback));
        } else if e.ConnRequest? {
          TransmitAnswered(t, rest, SendCommand(s.host, ACCEPT_CONN_REQUEST));
        }
      }
  }

  lemma {:induction false} OnlyAnsweredAlways(t: DevType, actions: seq<Action>)
    requires AllProper(t, actions)
    ensures OnlyAnswered(t, Run(t, actions))
  {
    if actions != [] {
      var last := |actions| - 1;
      OnlyAnsweredAlways(t, actions[..last]);
      OnlyAnsweredStep(t, Run(t, actions[..last]), actions[last]);
    }
  }

  /** Every start after the first one found the host with its credit at hand. */
  predicate StartsGuarded(t: DevType, actions: seq<Action>) {
    actions != [] ==>
      var init, a := actions[..|actions| - 1], actions[|actions| - 1];
      StartsGuarded(t, init) && (a.HostStart? ==> CreditGuard(t, Run(t, init), a))
  }

  lemma {:induction false} ProperIsGuarded(t: DevType, actions: seq<Action>)
    requires AllProper(t, actions)
    ensures CreditGuarded(t, actions) <==> StartsGuarded(t, actions)
  {
    if actions != [] {
      ProperIsGuarded(t, actions[..|actions| - 1]);
      OnlyAnsweredAlways(t, actions[..|actions| - 1]);
    }
  }

  /** So with commands the controller answers, once started there is exactly one credit in the whole
      system, at every moment of any run, whatever order the queue uses and whatever the callbacks send,
      as long as every further start finds the host idle. At most one command is outstanding. */
  lemma CreditConservation(t: DevType, actions: seq<Action>)
    requires AllProper(t, actions) && StartsGuarded(t, actions)
    ensures var s := Run(t, actions);
            SingleCredit(s) && |s.commands| <= 1 && s.host.ncmd <= 1
  {
    ProperIsGuarded(t, actions);
    SingleCreditAlwaysIff(t, actions);
  }

  /** A run with one start, wherever it comes, is guarded. */
  lemma {:induction false} OneStartIsGuarded(t: DevType, actions: seq<Action>)
    requires Run(t, actions).starts <= 1
    ensures StartsGuarded(t, actions)
  {
    if actions != [] { OneStartIsGuarded(t, actions[..|actions| - 1]); }
  }

  /** Handling a command keeps the number of credits exactly if the command is answered. */
  lemma ControllerKeepsCreditsIff(t: DevType, s: System, before: seq<HciEvent>, after: seq<HciEvent>)
    requires s.commands != [] && NoCredit(before) && NoCredit(after)
    ensures Credits(Step(t, s, Controller(before, after))) == Credits(s) <==> Answered(t, s.commands[0].opcode)
  {
    ControllerCredits(t, s, before, after);
  }

  /** Every command the emulated host itself sends is answered by every type of controller. */
  lemma HostCommandsAnswered(t: DevType, opcode: nat)
    requires opcode in {RESET, READ_BD_ADDR, ACCEPT_CONN_REQUEST, CREATE_CONN, LE_CREATE_CONN, WRITE_SCAN_ENABLE,
                        LE_SET_ADV_ENABLE, LE_CONN_UPDATE}
    ensures Answered(t, opcode) && |DefaultCmd(t, opcode)| == 1
  {
    OneAnswerIff(t, opcode);
  }

  // ---------------------------------------------------------------- what happens to each command

  function Named(serial: nat): Cmd -> bool {
    (c: Cmd) => c.serial == serial
  }

  /** A command issued so far was sent once, is waiting, or was lost, and only one of these. */
  predicate OneFate(h: Host, serial: nat) {
    Count(h.sent, Named(serial)) + Count(h.waiting, Named(serial)) + Count(h.lost, Named(serial))
    == if serial < h.issued then 1 else 0
  }

  lemma SendOneFate(h: Host, opcode: nat, serial: nat)
    requires OneFate(h, serial)
    ensures OneFate(SendCommand(h, opcode), serial)
  {
    CountAppend(h.sent, [Cmd(h.issued, opcode)], Named(serial));
    CountAppend(h.waiting, [Cmd(h.issued, opcode)], Named(serial));
  }

  lemma NextOneFate(h: Host, serial: nat)
    requires OneFate(h, serial)
    ensures OneFate(NextCmd(h), serial)
  {
    if h.waiting != [] {
      var last := |h.waiting| - 1;
      assert h.waiting == h.waiting[..last] + [h.waiting[last]];
      CountAppend(h.waiting[..last], [h.waiting[last]], Named(serial));
      CountAppend(h.sent, [h.waiting[last]], Named(serial));
      CountAppend(h.lost, h.waiting[..last], Named(serial));
    }
  }

  lemma {:induction false} SendAllOneFate(h: Host, opcodes: seq<nat>, serial: nat)
    requires OneFate(h, serial)
    ensures OneFate(SendAll(h, opcodes), serial)
    decreases |opcodes|
  {
    if opcodes != [] {
      SendOneFate(h, opcodes[0], serial);
      SendAllOneFate(SendCommand(h, opcodes[0]), opcodes[1..], serial);
    }
  }

  lemma OneFateStep(t: DevType, s: System, a: Action, serial: nat)
    requires OneFate(s.host, serial)
    ensures OneFate(Step(t, s, a).host, serial)
  {
    match a
    case HostStart =>
      SendOneFate(s.host.(ncmd := 1), RESET, serial);
      SendOneFate(SendCommand(s.host.(ncmd := 1), RESET), READ_BD_ADDR, serial);
    case HostSend(opcode) => SendOneFate(s.host, opcode, serial);
    case Controller(_, _) =>
    case Unsolicited(_) =>
    case Deliver(callback) =>
      if s.events != [] {
        if Bears(s.events[0]) {
          var h := s.host.(ncmd := s.events[0].ncmd);
          SendAllOneFate(h, callback, serial);
          NextOneFate(SendAll(h, callback), serial);
        } else {
          SendOneFate(s.host, ACCEPT_CONN_REQUEST, serial);
        }
      }
  }

  lemma {:induction false} OneFateAlways(t: DevType, actions: seq<Action>, serial: nat)
    ensures OneFate(Run(t, actions).host, serial)
  {
    if actions != [] {
      var last := |actions| - 1;
      OneFateAlways(t, actions[..last], serial);
      OneFateStep(t, Run(t, actions[..last]), actions[last], serial);
    }
  }

  /** Looking at the queue loses commands exactly if there is a credit and more than one waits. */
  lemma NextLosesIff(h: Host)
    ensures NextCmd(h).lost == h.lost <==> h.ncmd == 0 || |h.waiting| <= 1
    ensures h.lost <= NextCmd(h).lost
  {
    if h.ncmd > 0 && |h.waiting| > 1 {
      assert |NextCmd(h).lost| > |h.lost|;
    }
  }

  // ---------------------------------------------------------------- first in, first out

  /** Commands in the order they were issued. */
  predicate InOrder(cmds: seq<Cmd>) {
    forall i, j :: 0 <= i < j < |cmds| ==> cmds[i].serial < cmds[j].serial
  }

  predicate Issued(h: Host) {
    forall c :: c in h.sent + h.waiting ==> c.serial < h.issued
  }

  /** Nothing was lost, and what was sent is followed by what waits in the order of issue. */
  predicate Fifo(h: Host) {
    h.lost == [] && InOrder(h.sent + h.waiting)
  }

  /** A command may be sent past the queue only when the queue is empty. */
  predicate SendGuard(h: Host) {
    h.ncmd == 0 || h.waiting == []
  }

  /** The queue may be looked at only while at most one command waits. */
  predicate LookGuard(h: Host) {
    h.ncmd == 0 || |h.waiting| <= 1
  }

  lemma Overtaken(sent: seq<Cmd>, cmd: Cmd, waiting: seq<Cmd>)
    requires waiting != [] && waiting[0].serial < cmd.serial
    ensures !InOrder(sent + [cmd] + waiting)
  {
    var all := sent + [cmd] + waiting;
    assert all[|sent|] == cmd && all[|sent| + 1] == waiting[0];
  }

  /** A misplaced pair stays misplaced when something is put between. */
  lemma Inserted(a: seq<Cmd>, middle: seq<Cmd>, b: seq<Cmd>)
    requires InOrder(a + middle + b)
    ensures InOrder(a + b)
  {
    var all, ab := a + middle + b, a + b;
    forall i, j | 0 <= i < j < |ab|
      ensures ab[i].serial < ab[j].serial
    {
      var i', j' := if i < |a| then i else i + |middle|, if j < |a| then j else j + |middle|;
      assert all[i'] == ab[i] && all[j'] == ab[j];
    }
  }

  /** Sending keeps the order of issue exactly when its guard holds. */
  lemma SendKeepsOrder(h: Host, opcode: nat)
    requires Issued(h) && InOrder(h.sent + h.waiting)
    ensures InOrder(SendCommand(h, opcode).sent + SendCommand(h, opcode).waiting) <==> SendGuard(h)
  {
    var cmd, h' := Cmd(h.issued, opcode), SendCommand(h, opcode);
    if SendGuard(h) {
      assert h'.sent + h'.waiting == (h.sent + h.waiting) + [cmd];
    } else {
      Overtaken(h.sent, cmd, h.waiting);
    }
  }

  lemma OrderBefore(h: Host, opcode: nat)
    requires InOrder(SendCommand(h, opcode).sent + SendCommand(h, opcode).waiting)
    ensures InOrder(h.sent + h.waiting)
  {
    var cmd, h' := Cmd(h.issued, opcode), SendCommand(h, opcode);
    if h.ncmd > 0 {
      Inserted(h.sent, [cmd], h.waiting);
    } else {
      assert h'.sent + h'.waiting == h.sent + h.waiting + [cmd] + [];
      Inserted(h.sent + h.waiting, [cmd], []);
      assert h.sent + h.waiting + [] == h.sent + h.waiting;
    }
  }

  /** From a queue that is first in, first out, a send keeps it so exactly when guarded; and order once
      lost never comes back. */
  lemma SendFifoIff(h: Host, opcode: nat)
    requires Issued(h)
    ensures Fifo(SendCommand(h, opcode)) <==> Fifo(h) && SendGuard(h)
    ensures Issued(SendCommand(h, opcode))
  {
    var h' := SendCommand(h, opcode);
    if InOrder(h'.sent + h'.waiting) { OrderBefore(h, opcode); }
    if InOrder(h.sent + h.waiting) { SendKeepsOrder(h, opcode); }
  }

  /** Looking at the queue never disturbs the order of issue. */
  lemma NextKeepsOrder(h: Host)
    requires InOrder(h.sent + h.waiting)
    ensures InOrder(NextCmd(h).sent + NextCmd(h).waiting)
  {
    if h.waiting != [] && h.ncmd > 0 {
      var last := |h.waiting| - 1;
      assert h.sent + h.waiting == h.sent + h.waiting[..last] + [h.waiting[last]];
      Inserted(h.sent, h.waiting[..last], [h.waiting[last]]);
      assert NextCmd(h).sent + [] == h.sent + [h.waiting[last]];
    }
  }

  lemma NextFifoIff(h: Host)
    requires Issued(h)
    ensures Fifo(NextCmd(h)) <==> Fifo(h) && LookGuard(h)
    ensures Issued(NextCmd(h))
  {
    NextLosesIff(h);
    if h.ncmd > 0 && |h.waiting| == 1 {
      assert NextCmd(h).sent + NextCmd(h).waiting == h.sent + h.waiting;
    } else if InOrder(h.sent + h.waiting) {
      NextKeepsOrder(h);
    }
  }

  /** Every send of a completion callback met its guard. */
  predicate SendsGuarded(h: Host, opcodes: seq<nat>)
    decreases |opcodes|
  {
    opcodes == [] || (SendGuard(h) && SendsGuarded(SendCommand(h, opcodes[0]), opcodes[1..]))
  }

  lemma {:induction false} SendAllFifoIff(h: Host, opcodes: seq<nat>)
    requires Issued(h)
    ensures Fifo(SendAll(h, opcodes)) <==> Fifo(h) && SendsGuarded(h, opcodes)
    ensures Issued(SendAll(h, opcodes))
    decreases |opcodes|
  {
    if opcodes != [] {
      SendFifoIff(h, opcodes[0]);
      SendAllFifoIff(SendCommand(h, opcodes[0]), opcodes[1..]);
    }
  }

  /** Every send and every look at the queue in one action met its guard. */
  predicate QueueGuarded(s: System, a: Action) {
    match a
    case HostStart => SendsGuarded(s.host.(ncmd := 1), [RESET, READ_BD_ADDR])
    case HostSend(_) => SendGuard(s.host)
    case Controller(_, _) => true
    case Unsolicited(_) => true
    case Deliver(callback) =>
      s.events != [] ==>
        var e := s.events[0];
        if Bears(e) then
          SendsGuarded(s.host.(ncmd := e.ncmd), callback) && LookGuard(SendAll(s.host.(ncmd := e.ncmd), callback))
        else e.ConnRequest? ==> SendGuard(s.host)
  }

  predicate QueueGuardedRun(t: DevType, actions: seq<Action>) {
    actions != [] ==>
      var init := actions[..|actions| - 1];
      QueueGuardedRun(t, init) && QueueGuarded(Run(t, init), actions[|actions| - 1])
  }

  lemma StartIsTwoSends(h: Host)
    ensures Start(h) == SendAll(h.(ncmd := 1), [RESET, READ_BD_ADDR])
  {
    var first := SendCommand(h.(ncmd := 1), RESET);
    assert [RESET, READ_BD_ADDR][1..] == [READ_BD_ADDR] && [READ_BD_ADDR][1..] == [];
    assert SendAll(first, [READ_BD_ADDR]) == SendAll(SendCommand(first, READ_BD_ADDR), []);
  }

  lemma FifoStepIff(t: DevType, s: System, a: Action)
    requires Issued(s.host)
    ensures Fifo(Step(t, s, a).host) <==> Fifo(s.host) && QueueGuarded(s, a)
    ensures Issued(Step(t, s, a).host)
  {
    match a
    case HostStart =>
      StartIsTwoSends(s.host);
      SendAllFifoIff(s.host.(ncmd := 1), [RESET, READ_BD_ADDR]);
    case HostSend(opcode) => SendFifoIff(s.host, opcode);
    case Controller(_, _) =>
    case Unsolicited(_) =>
    case Deliver(callback) =>
      if s.events != [] {
        var e := s.events[0];
        if Bears(e) {
          SendAllFifoIff(s.host.(ncmd := e.ncmd), callback);
          NextFifoIff(SendAll(s.host.(ncmd := e.ncmd), callback));
        } else if e.ConnRequest? {
          SendFifoIff(s.host, ACCEPT_CONN_REQUEST);
        }
      }
  }

  lemma {:induction false} IssuedAlways(t: DevType, actions: seq<Action>)
    ensures Issued(Run(t, actions).host)
  {
    if actions != [] {
      IssuedAlways(t, actions[..|actions| - 1]);
      FifoStepIff(t, Run(t, actions[..|actions| - 1]), actions[|actions| - 1]);
    }
  }

  /** After any run: no command was lost and none overtook another exactly if every send and every look
      at the queue met its guard. */
  lemma {:induction false} FifoIff(t: DevType, actions: seq<Action>)
    ensures Fifo(Run(t, actions).host) <==> QueueGuardedRun(t, actions)
  {
    if actions != [] {
      FifoIff(t, actions[..|actions| - 1]);
      IssuedAlways(t, actions[..|actions| - 1]);
      FifoStepIff(t, Run(t, actions[..|actions| - 1]), actions[|actions| - 1]);
    }
  }

  /** A command sent by a completion callback overtakes one that waits. */
  lemma CallbackOvertakes(t: DevType)
    ensures var s := Step(t, Step(t, Step(t, NewSystem, HostStart), Controller([], [])), Deliver([WRITE_SCAN_ENABLE]));
            && s.host.sent == [Cmd(0, RESET), Cmd(2, WRITE_SCAN_ENABLE)]
            && s.host.waiting == [Cmd(1, READ_BD_ADDR)] && s.host.lost == []
  {
    var s0 := Step(t, NewSystem, HostStart);
    assert s0.commands == [Cmd(0, RESET)] && s0.host.waiting == [Cmd(1, READ_BD_ADDR)];
    var s1 := Step(t, s0, Controller([], []));
    assert s1.events == [CmdComplete(1, RESET)];
    var h := SendCommand(s1.host.(ncmd := 1), WRITE_SCAN_ENABLE);
    assert [WRITE_SCAN_ENABLE][1..] == [];
    assert SendAll(s1.host.(ncmd := 1), [WRITE_SCAN_ENABLE]) == SendAll(h, []) == h;
  }

  /** Enabling page scan right after the start loses the address query that was waiting. */
  lemma AddressQueryLost(t: DevType)
    ensures var s0 := Step(t, Step(t, NewSystem, HostStart), HostSend(WRITE_SCAN_ENABLE));
            var s := Step(t, Step(t, s0, Controller([], [])), Deliver([]));
            s.host.lost == [Cmd(1, READ_BD_ADDR)] && s.host.sent == [Cmd(0, RESET), Cmd(2, WRITE_SCAN_ENABLE)]
  {
    var s0 := Step(t, Step(t, NewSystem, HostStart), HostSend(WRITE_SCAN_ENABLE));
    assert s0.commands == [Cmd(0, RESET)];
    assert s0.host.waiting == [Cmd(1, READ_BD_ADDR), Cmd(2, WRITE_SCAN_ENABLE)];
    var s1 := Step(t, s0, Controller([], []));
    assert s1.events == [CmdComplete(1, RESET)];
    assert SendAll(s1.host.(ncmd := 1), []) == s1.host.(ncmd := 1);
    assert s1.host.waiting[..1] == [Cmd(1, READ_BD_ADDR)];
  }
}
