/** The controllers' command tables against each other: the list of supported commands a controller shows
    its host, the half of the command handler that answers at once, and the half that completes what was
    started. In the list a command is a bit (Bluetooth Core Specification, Volume 2, Part E, section 6.27);
    here it is the opcode the bit stands for. */
module CommandTables {
  import opened CommandCredits
  import opened CommandCreditLaws

  // ---------------------------------------------------------------- the list of supported commands

  /** What every type of controller shows. */
  const SHOWN_BY_ALL: set<nat> := {
    0x0c01, 0x0c03, 0x1001, 0x1002, 0x1003, 0x1005
  }

  /** What classic and low energy controllers show beside that. */
  const SHOWN_BY_BOTH: set<nat> := {
    0x0406, 0x041d, 0x0c33, 0x1009
  }

  /** What only those that do classic show. */
  const CLASSIC_LINK: set<nat> := {
    0x0401, 0x0402, 0x0405, 0x0407, 0x0408, 0x0409, 0x040a, 0x0419, 0x041a, 0x041b, 0x041c, 0x0428, 0x080e, 0x080f
  }
  const CLASSIC_HOST: set<nat> := {
    0x0c05, 0x0c0d, 0x0c11, 0x0c12, 0x0c13, 0x0c14, 0x0c15, 0x0c16, 0x0c17, 0x0c18, 0x0c19, 0x0c1a, 0x0c1b, 0x0c1c,
    0x0c1d, 0x0c1e, 0x0c1f, 0x0c20
  }
  const CLASSIC_MORE: set<nat> := {
    0x0c23, 0x0c24, 0x0c25, 0x0c26, 0x0c3a, 0x0c44, 0x0c45, 0x0c46, 0x0c47, 0x0c48, 0x0c49, 0x0c51, 0x0c52, 0x0c55,
    0x0c56, 0x0c57, 0x0c58, 0x0c59, 0x1004, 0x1007, 0x100a, 0x1803
  }

  /** What only those that do low energy show. One bit is set twice, where two were meant. */
  const SHOWN_BY_LE: set<nat> := {
    0x0c6c, 0x2001, 0x2002, 0x2003, 0x2006, 0x2007, 0x2008, 0x200a, 0x200b, 0x200c, 0x200f, 0x2018, 0x201c, 0x201d,
    0x201e, 0x201f
  }

  predicate Shown(t: DevType, opcode: nat) {
    || opcode in SHOWN_BY_ALL
    || (t != Amp && opcode in SHOWN_BY_BOTH)
    || ((t == Bredr || t == BredrLe)
        && (opcode in CLASSIC_LINK || opcode in CLASSIC_HOST || opcode in CLASSIC_MORE))
    || ((t == Le || t == BredrLe) && opcode in SHOWN_BY_LE)
    || (t == BredrLe && opcode in {0x0c63, 0x0c77})
    || (t == Amp && opcode == 0x1409)
  }

  /** The controller answers that it does not know the command, that it has started on it, or that it has
      done it. */
  predicate Unknown(t: DevType, opcode: nat) {
    CmdStatus(1, true, opcode) in DefaultCmd(t, opcode)
  }

  predicate Started(t: DevType, opcode: nat) {
    CmdStatus(1, false, opcode) in DefaultCmd(t, opcode)
  }

  predicate Done(t: DevType, opcode: nat) {
    CmdComplete(1, opcode) in DefaultCmd(t, opcode)
  }

  /** A controller knows every command it shows, except for the inquiry transmit power (classic) and the
      low energy host setting (low energy alone). */
  lemma ShownIsKnownIff(t: DevType, opcode: nat)
    requires Shown(t, opcode)
    ensures Unknown(t, opcode) <==> (opcode == 0x0c59 && (t == Bredr || t == BredrLe)) || (opcode == 0x0c6c && t == Le)
  {
  }

  /** And these are the commands a classic or low energy controller knows without showing them. */
  lemma KnownButNotShown(t: DevType, opcode: nat)
    requires t != Amp && !Shown(t, opcode)
    ensures !Unknown(t, opcode) <==>
            || (t == Bredr && opcode in {0x0c38, 0x0c39})
            || (t == Le && opcode in {0x1007, 0x1803, 0x200d})
            || (t == BredrLe && opcode in {0x0c38, 0x0c39, 0x0c6d, 0x200d})
  {
  }

  /** A controller that does both knows what either kind knows, and four commands more; a third kind knows
      all that either knows, and two commands more, though it shows next to none. */
  lemma KnownByTheOthers(opcode: nat)
    ensures !Unknown(BredrLe, opcode) <==>
            !Unknown(Bredr, opcode) || !Unknown(Le, opcode) || opcode in {0x0c63, 0x0c6c, 0x0c6d, 0x0c77}
    ensures !Unknown(Amp, opcode) <==> !Unknown(Bredr, opcode) || !Unknown(Le, opcode) || opcode in {0x1409, 0x140a}
  {
  }

  // ---------------------------------------------------------------- the half that completes

  /** The commands the completing half acts on. */
  predicate Completes(t: DevType, opcode: nat) {
    || opcode == 0x0406 || opcode == 0x041d
    || (t != Le && opcode in {0x0401, 0x0405, 0x0408, 0x0409, 0x040a, 0x0419, 0x041a, 0x041b, 0x041c})
    || (t != Bredr && opcode == 0x200d)
  }

  /** A command is answered by a status of success exactly if it is completed later, except for the
      cancelling of a name request, which is answered as complete although more is to come, and the setting
      up of a synchronous connection, completed at once. */
  lemma StartedIffCompletes(t: DevType, opcode: nat)
    ensures Started(t, opcode) <==> (Completes(t, opcode) && opcode != 0x041a) || (opcode == 0x0428 && t != Le)
  {
  }

  /** A command gets one of the three answers, except for adding a synchronous connection, which a
      controller that does classic knows and does not answer. */
  lemma OneOfThree(t: DevType, opcode: nat)
    ensures !(Unknown(t, opcode) && Started(t, opcode)) && !(Unknown(t, opcode) && Done(t, opcode))
    ensures !(Started(t, opcode) && Done(t, opcode))
    ensures Unknown(t, opcode) || Started(t, opcode) || Done(t, opcode) <==> !(opcode == 0x0407 && t != Le)
  {
    OneAnswerIff(t, opcode);
  }

  // ---------------------------------------------------------------- in transit

  /** The commands in flight are the last ones sent, in the order sent. */
  predicate LastSent(s: System) {
    |s.commands| <= |s.host.sent| && s.commands == s.host.sent[|s.host.sent| - |s.commands|..]
  }

  lemma TransmitLastSent(s: System, h: Host)
    requires LastSent(s) && s.host.sent <= h.sent
    ensures LastSent(Transmit(s, h))
  {
  }

  lemma LastSentStep(t: DevType, s: System, a: Action)
    requires LastSent(s)
    ensures LastSent(Step(t, s, a))
  {
    match a
    case HostStart => TransmitLastSent(s, Start(s.host));
    case HostSend(opcode) => TransmitLastSent(s, SendCommand(s.host, opcode));
    case Controller(_, _) =>
    case Unsolicited(_) =>
    case Deliver(callback) => DeliverLastSent(t, s, callback);
  }

  lemma DeliverLastSent(t: DevType, s: System, callback: seq<nat>)
    requires LastSent(s)
    ensures LastSent(Step(t, s, Deliver(callback)))
  {
    if s.events != [] {
      var e, rest := s.events[0], s.(events := s.events[1..]);
      if Bears(e) {
        CreditSpends(s.host, e.ncmd, callback);
        TransmitLastSent(rest, EvtCredit(s.host, e.ncmd, callback));
      } else if e.ConnRequest? {
        TransmitLastSent(rest, SendCommand(s.host, ACCEPT_CONN_REQUEST));
      }
    }
  }

  /** Commands reach the controller in the order the host sent them. */
  lemma {:induction false} CommandsInOrder(t: DevType, actions: seq<Action>)
    ensures LastSent(Run(t, actions))
  {
    if actions != [] {
      CommandsInOrder(t, actions[..|actions| - 1]);
      LastSentStep(t, Run(t, actions[..|actions| - 1]), actions[|actions| - 1]);
    }
  }

  /** What one action sends to the host, and whether it gives it an event. */
  function EmittedBy(t: DevType, s: System, a: Action): seq<HciEvent> {
    match a
    case Controller(before, after) =>
      if s.commands == [] then [] else before + DefaultCmd(t, s.commands[0].opcode) + after
    case Unsolicited(e) => [e]
    case _ => []
  }

  function GivenBy(s: System, a: Action): nat {
    if a.Deliver? && s.events != [] then 1 else 0
  }

  function Emitted(t: DevType, actions: seq<Action>): seq<HciEvent> {
    if actions == [] then []
    else
      var init := actions[..|actions| - 1];
      Emitted(t, init) + EmittedBy(t, Run(t, init), actions[|actions| - 1])
  }

  function Given(t: DevType, actions: seq<Action>): nat {
    if actions == [] then 0
    else
      var init := actions[..|actions| - 1];
      Given(t, init) + GivenBy(Run(t, init), actions[|actions| - 1])
  }

  lemma EventsStep(t: DevType, s: System, a: Action)
    ensures GivenBy(s, a) <= |s.events| && Step(t, s, a).events == s.events[GivenBy(s, a)..] + EmittedBy(t, s, a)
  {
  }

  /** Events reach the host in the order they were sent, the answer to a command between those around it. */
  lemma {:induction false} EventsInOrder(t: DevType, actions: seq<Action>)
    ensures Given(t, actions) <= |Emitted(t, actions)|
    ensures Run(t, actions).events == Emitted(t, actions)[Given(t, actions)..]
  {
    if actions != [] {
      var last := |actions| - 1;
      EventsInOrder(t, actions[..last]);
      var s := Run(t, actions[..last]);
      EventsStep(t, s, actions[last]);
      Shift(Emitted(t, actions[..last]), EmittedBy(t, s, actions[last]), Given(t, actions[..last]),
            GivenBy(s, actions[last]));
    }
  }

  lemma Shift<T>(a: seq<T>, b: seq<T>, i: nat, j: nat)
    requires i + j <= |a|
    ensures a[i..][j..] + b == (a + b)[i + j..]
  {
  }
}
