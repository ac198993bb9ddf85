/** HCI command flow control between the emulated host and a hook-free emulated controller.

    The host may send one command per credit; every command complete or command status event
    carries a new credit (Bluetooth Core Specification, Volume 2, Part E, section 4.4). Commands
    and events travel through two queues in between. */
module CommandCredits {

  datatype DevType = BredrLe | Bredr | Le | Amp

  const RESET: nat := 0x0c03
  const READ_BD_ADDR: nat := 0x1009
  const ACCEPT_CONN_REQUEST: nat := 0x0409
  const CREATE_CONN: nat := 0x0405
  const LE_CREATE_CONN: nat := 0x200d
  const WRITE_SCAN_ENABLE: nat := 0x0c1a
  const LE_SET_ADV_ENABLE: nat := 0x200a
  const LE_CONN_UPDATE: nat := 0x2013
  const ADD_SCO_CONN: nat := 0x0407

  // ---------------------------------------------------------------- the controller's answers

  const ANY_TYPE: set<nat> := {
    0x0406, 0x041d, 0x0c01, RESET, 0x0c33, 0x1001, 0x1002, 0x1003, 0x1005, 0x1007, READ_BD_ADDR, 0x1803
  }
  /** Link control and policy, host control, and informational commands of classic controllers. */
  const NOT_LE_LINK: set<nat> := {
    0x0401, 0x0402, CREATE_CONN, ADD_SCO_CONN, 0x0408, ACCEPT_CONN_REQUEST, 0x040a, 0x0419, 0x041a, 0x041b, 0x041c,
    0x0428, 0x080e, 0x080f
  }
  const NOT_LE_HOST: set<nat> := {
    0x0c05, 0x0c0d, 0x0c11, 0x0c12, 0x0c13, 0x0c14, 0x0c15, 0x0c16, 0x0c17, 0x0c18, 0x0c19, WRITE_SCAN_ENABLE, 0x0c1b,
    0x0c1c, 0x0c1d, 0x0c1e, 0x0c1f, 0x0c20
  }
  const NOT_LE_MORE: set<nat> := {
    0x0c23, 0x0c24, 0x0c25, 0x0c26, 0x0c38, 0x0c39, 0x0c3a, 0x0c44, 0x0c45, 0x0c46, 0x0c47, 0x0c48, 0x0c49, 0x0c51,
    0x0c52, 0x0c55, 0x0c56, 0x0c57, 0x0c58, 0x1004, 0x100a
  }
  const NOT_BREDR: set<nat> := {
    0x2001, 0x2002, 0x2003, 0x2006, 0x2007, 0x2008, LE_SET_ADV_ENABLE, 0x200b, 0x200c, LE_CREATE_CONN, 0x200f, 0x2018,
    0x201c, 0x201d, 0x201e, 0x201f
  }
  const ONLY_BREDRLE: set<nat> := { 0x0c63, 0x0c6c, 0x0c6d, 0x0c77 }
  const ONLY_AMP: set<nat> := { 0x1409, 0x140a }

  /** Commands acknowledged by a status event; the other supported ones complete at once. */
  const STATUS_FIRST: set<nat> := {
    0x0401, CREATE_CONN, 0x0406, 0x0408, ACCEPT_CONN_REQUEST, 0x040a, 0x0419, 0x041b, 0x041c, 0x041d, 0x0428,
    LE_CREATE_CONN
  }

  predicate Supported(t: DevType, opcode: nat) {
    || opcode in ANY_TYPE
    || ((opcode in NOT_LE_LINK || opcode in NOT_LE_HOST || opcode in NOT_LE_MORE) && t != Le)
    || (opcode in NOT_BREDR && t != Bredr)
    || (opcode in ONLY_BREDRLE && t == BredrLe)
    || (opcode in ONLY_AMP && t == Amp)
  }

  /** What travels back to the host: the two credit-bearing events, a connection request, and
      everything else. */
  datatype HciEvent =
    | CmdComplete(ncmd: nat, opcode: nat)
    | CmdStatus(ncmd: nat, unknown: bool, opcode: nat)
    | ConnRequest
    | OtherEvent

  predicate Bears(e: HciEvent) {
    e.CmdComplete? || e.CmdStatus?
  }

  /** The credit-bearing events default_cmd sends for one command. */
  function DefaultCmd(t: DevType, opcode: nat): seq<HciEvent> {
    if !Supported(t, opcode) then [CmdStatus(1, true, opcode)]
    else if opcode == ADD_SCO_CONN then []
    else if opcode in STATUS_FIRST then [CmdStatus(1, false, opcode)]
    else [CmdComplete(1, opcode)]
  }

  // ---------------------------------------------------------------- the host

  /** `serial` tells apart the commands the host was asked to send. */
  datatype Cmd = Cmd(serial: nat, opcode: nat)

  datatype Host = Host(ncmd: nat, waiting: seq<Cmd>, sent: seq<Cmd>, lost: seq<Cmd>, issued: nat)

  const NewHost := Host(0, [], [], [], 0)

  function SendCommand(h: Host, opcode: nat): Host {
    var cmd := Cmd(h.issued, opcode);
    if h.ncmd > 0 then h.(ncmd := h.ncmd - 1, sent := h.sent + [cmd], issued := h.issued + 1)
    else h.(waiting := h.waiting + [cmd], issued := h.issued + 1)
  }

  /** The newest waiting command goes out; older ones become unreachable. */
  function NextCmd(h: Host): Host {
    if h.waiting == [] || h.ncmd == 0 then h
    else
      var last := |h.waiting| - 1;
      h.(ncmd := h.ncmd - 1, sent := h.sent + [h.waiting[last]], lost := h.lost + h.waiting[..last], waiting := [])
  }

  function SendAll(h: Host, opcodes: seq<nat>): Host
    decreases |opcodes|
  {
    if opcodes == [] then h else SendAll(SendCommand(h, opcodes[0]), opcodes[1..])
  }

  /** A credit arrives; the completion callback may send commands before the queue is looked at. */
  function EvtCredit(h: Host, ncmd: nat, callback: seq<nat>): Host {
    NextCmd(SendAll(h.(ncmd := ncmd), callback))
  }

  function Start(h: Host): Host {
    SendCommand(SendCommand(h.(ncmd := 1), RESET), READ_BD_ADDR)
  }

  // ---------------------------------------------------------------- both together

  datatype System = System(host: Host, commands: seq<Cmd>, events: seq<HciEvent>, starts: nat)

  const NewSystem := System(NewHost, [], [], 0)

  datatype Action =
    | HostStart
    | HostSend(opcode: nat)
    | Controller(before: seq<HciEvent>, after: seq<HciEvent>)
    | Unsolicited(e: HciEvent)
    | Deliver(callback: seq<nat>)

  /** What the host has just put on the wire, given what it had sent before. */
  function Transmit(s: System, h: Host): System
    requires |s.host.sent| <= |h.sent|
  {
    s.(host := h, commands := s.commands + h.sent[|s.host.sent|..])
  }

  lemma {:induction false} SendAllGrows(h: Host, opcodes: seq<nat>)
    ensures |h.sent| <= |SendAll(h, opcodes).sent|
    decreases |opcodes|
  {
    if opcodes != [] { SendAllGrows(SendCommand(h, opcodes[0]), opcodes[1..]); }
  }

  /** The controller handles one command, surrounded by events that bear no credit; a delivery
      hands the host its oldest event. */
  function Step(t: DevType, s: System, a: Action): System {
    match a
    case HostStart => Transmit(s, Start(s.host)).(starts := s.starts + 1)
    case HostSend(opcode) => Transmit(s, SendCommand(s.host, opcode))
    case Controller(before, after) =>
      if s.commands == [] then s
      else s.(commands := s.commands[1..],
              events := s.events + before + DefaultCmd(t, s.commands[0].opcode) + after)
    case Unsolicited(e) => s.(events := s.events + [e])
    case Deliver(callback) =>
      if s.events == [] then s
      else
        var e, rest := s.events[0], s.(events := s.events[1..]);
        if Bears(e) then
          SendAllGrows(s.host.(ncmd := e.ncmd), callback);
          Transmit(rest, EvtCredit(s.host, e.ncmd, callback))
        else if e.ConnRequest? then Transmit(rest, SendCommand(s.host, ACCEPT_CONN_REQUEST))
        else rest
  }

  function Run(t: DevType, actions: seq<Action>): System {
    if actions == [] then NewSystem
    else Step(t, Run(t, actions[..|actions| - 1]), actions[|actions| - 1])
  }
}
