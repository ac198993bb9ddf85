/** A scanning device always hears of an advertising one, whichever of the two began first. */
module BtdevRendezvous {
  import opened Octets
  import opened Options
  import opened Btdev
  import opened BtdevConnections
  import C = CommandCredits

  /** The reports to `a` about `b` since the later of a's start of scanning and b's of advertising. */
  function Recent(log: seq<Event>, a: nat, b: nat): nat {
    if log == [] then 0
    else
      var init, last := log[..|log| - 1], log[|log| - 1];
      if last == Report(a, b) then 1 + Recent(init, a, b)
      else if last == ScanEnabled(a) || last == AdvEnabled(b) then 0
      else Recent(init, a, b)
  }

  predicate OnlyReports(events: seq<Event>) {
    forall i :: 0 <= i < |events| ==> events[i].Report?
  }

  function Reports(events: seq<Event>, a: nat, b: nat): nat {
    if events == [] then 0 else (if events[0] == Report(a, b) then 1 else 0) + Reports(events[1..], a, b)
  }

  lemma {:induction false} RecentReports(log: seq<Event>, events: seq<Event>, a: nat, b: nat)
    requires OnlyReports(events)
    ensures Recent(log + events, a, b) == Recent(log, a, b) + Reports(events, a, b)
    decreases |events|
  {
    if events == [] {
      assert log + events == log;
    } else {
      var log' := log + [events[0]];
      assert log'[..|log|] == log;
      assert log' + events[1..] == log + events;
      RecentReports(log', events[1..], a, b);
    }
  }

  lemma {:induction false} ScannersTold(s: State, i: nat, from: nat, k: nat, b: nat)
    requires Sound(s) && Live(s.table, i) && Live(s.table, k) && from <= SLOTS
    ensures var events, d := TellScanners(s.table, i, from), s.table[k].value;
            && OnlyReports(events)
            && Reports(events, d.serial, b) ==
               if b == s.table[i].value.serial && from <= k != i && d.scanEnable != 0 then 1 else 0
    decreases SLOTS - from
  {
    if from < SLOTS {
      ScannersTold(s, i, from + 1, k, b);
      if s.table[from].Some? { assert Live(s.table, from); }
      var rest, t := TellScanners(s.table, i, from + 1), s.table;
      if Live(t, from) {
        assert ([Report(t[from].value.serial, t[i].value.serial)] + rest)[1..] == rest;
      }
    }
  }

  lemma {:induction false} AdvertisersTold(s: State, i: nat, from: nat, k: nat, a: nat)
    requires Sound(s) && Live(s.table, i) && Live(s.table, k) && from <= SLOTS
    ensures var events, d := TellAboutAdvertisers(s.table, i, from), s.table[k].value;
            && OnlyReports(events)
            && Reports(events, a, d.serial) ==
               if a == s.table[i].value.serial && from <= k != i && d.advEnable != 0 then 1 else 0
    decreases SLOTS - from
  {
    if from < SLOTS {
      AdvertisersTold(s, i, from + 1, k, a);
      if s.table[from].Some? { assert Live(s.table, from); }
      var rest, t := TellAboutAdvertisers(s.table, i, from + 1), s.table;
      if Live(t, from) {
        assert ([Report(t[i].value.serial, t[from].value.serial)] + rest)[1..] == rest;
      }
    }
  }

  lemma {:induction false} ToldReports(t: Table, i: nat, from: nat)
    requires Live(t, i) && from <= SLOTS
    ensures OnlyReports(TellScanners(t, i, from)) && OnlyReports(TellAboutAdvertisers(t, i, from))
    decreases SLOTS - from
  {
    if from < SLOTS { ToldReports(t, i, from + 1); }
  }

  /** The device in slot i scans and the one in slot j advertises. */
  predicate Meet(t: Table, i: int, j: int) {
    Live(t, i) && Live(t, j) && i != j && t[i].value.scanEnable != 0 && t[j].value.advEnable != 0
  }

  predicate Heard(s: State, i: nat, j: nat)
    requires Live(s.table, i) && Live(s.table, j)
  {
    Recent(s.log, s.table[i].value.serial, s.table[j].value.serial) == 1
  }

  ghost predicate AllHeard(s: State) {
    forall i, j :: Meet(s.table, i, j) ==> Heard(s, i, j)
  }

  lemma AdvStep(s: State, k: nat, enable: byte)
    requires Sound(s) && AllHeard(s) && Live(s.table, k) && Sound(SetAdvEnable(s, k, enable))
    ensures AllHeard(SetAdvEnable(s, k, enable))
  {
    var s' := SetAdvEnable(s, k, enable);
    forall i, j | Meet(s'.table, i, j)
      ensures Heard(s', i, j)
    {
      if j != k { assert Meet(s.table, i, j); }
      if s' != s && enable != 0 {
        AdvLog(s, k, enable, s'.table[i].value.serial, s'.table[j].value.serial);
        ScannersTold(s', k, 0, i, s'.table[j].value.serial);
      }
    }
  }

  lemma AdvLog(s: State, k: nat, enable: byte, a: nat, b: nat)
    requires Live(s.table, k) && SetAdvEnable(s, k, enable) != s && enable != 0
    ensures var s', d := SetAdvEnable(s, k, enable), s.table[k].value;
            Recent(s'.log, a, b) ==
            (if b == d.serial then 0 else Recent(s.log, a, b)) + Reports(TellScanners(s'.table, k, 0), a, b)
  {
    var s', d := SetAdvEnable(s, k, enable), s.table[k].value;
    var log := s.log + [AdvEnabled(d.serial)];
    assert log[..|s.log|] == s.log;
    ToldReports(s'.table, k, 0);
    RecentReports(log, TellScanners(s'.table, k, 0), a, b);
  }

  lemma ScanStep(s: State, k: nat, enable: byte)
    requires Sound(s) && AllHeard(s) && Live(s.table, k) && Sound(SetScanEnable(s, k, enable))
    ensures AllHeard(SetScanEnable(s, k, enable))
  {
    var s' := SetScanEnable(s, k, enable);
    forall i, j | Meet(s'.table, i, j)
      ensures Heard(s', i, j)
    {
      if i != k { assert Meet(s.table, i, j); }
      if s' != s && enable != 0 {
        ScanLog(s, k, enable, s'.table[i].value.serial, s'.table[j].value.serial);
        AdvertisersTold(s', k, 0, j, s'.table[i].value.serial);
      }
    }
  }

  lemma ScanLog(s: State, k: nat, enable: byte, a: nat, b: nat)
    requires Live(s.table, k) && SetScanEnable(s, k, enable) != s && enable != 0
    ensures var s', d := SetScanEnable(s, k, enable), s.table[k].value;
            Recent(s'.log, a, b) ==
            (if a == d.serial then 0 else Recent(s.log, a, b)) + Reports(TellAboutAdvertisers(s'.table, k, 0), a, b)
  {
    var s', d := SetScanEnable(s, k, enable), s.table[k].value;
    var log := s.log + [ScanEnabled(d.serial)];
    assert log[..|s.log|] == s.log;
    ToldReports(s'.table, k, 0);
    RecentReports(log, TellAboutAdvertisers(s'.table, k, 0), a, b);
  }

  /** Events that tell nothing about advertising or scanning. */
  predicate Quiet(events: seq<Event>) {
    forall i :: 0 <= i < |events| ==> !events[i].Report? && !events[i].AdvEnabled? && !events[i].ScanEnabled?
  }

  lemma {:induction false} RecentQuiet(log: seq<Event>, events: seq<Event>, a: nat, b: nat)
    requires Quiet(events)
    ensures Recent(log + events, a, b) == Recent(log, a, b)
    decreases |events|
  {
    if events == [] {
      assert log + events == log;
    } else {
      var init := events[..|events| - 1];
      assert (log + events)[..|log + events| - 1] == log + init;
      RecentQuiet(log, init, a, b);
    }
  }

  /** What any other step adds to the log. */
  function OtherEvents(s: State, op: Op): (events: seq<Event>)
    requires !op.AdvEnable? && !op.ScanEnable?
    ensures Step(s, op).log == s.log + events && Quiet(events)
    ensures forall i :: 0 <= i < |events| ==>
              && (events[i].Forwarded? || events[i].Completed? ==> op.AclPacket?)
              && (events[i].Linked? || events[i].Unlinked? ==> op.AcceptConn? || op.LeCreateConn? || op.Hangup?)
  {
    Step(s, op).log[|s.log|..]
  }

  /** Every other step is quiet, and no device scans or advertises anew. */
  lemma OtherStep(s: State, op: Op)
    requires Sound(s) && AllHeard(s) && !op.AdvEnable? && !op.ScanEnable?
    ensures AllHeard(Step(s, op))
  {
    var s' := Step(s, op);
    forall i, j | Meet(s'.table, i, j)
      ensures Heard(s', i, j)
    {
      OtherMeet(s, op, i, j);
      RecentQuiet(s.log, OtherEvents(s, op), s.table[i].value.serial, s.table[j].value.serial);
    }
  }

  lemma OtherMeet(s: State, op: Op, i: nat, j: nat)
    requires AllHeard(s) && !op.AdvEnable? && !op.ScanEnable? && Meet(Step(s, op).table, i, j)
    ensures Meet(s.table, i, j) && Heard(s, i, j)
    ensures Step(s, op).table[i].value.serial == s.table[i].value.serial
    ensures Step(s, op).table[j].value.serial == s.table[j].value.serial
  {
  }

  lemma {:induction false} AllHeardAlways(ops: seq<Op>)
    ensures AllHeard(Run(ops))
  {
    if ops != [] {
      var s, op := Run(ops[..|ops| - 1]), ops[|ops| - 1];
      AllHeardAlways(ops[..|ops| - 1]);
      SoundAlways(ops[..|ops| - 1]);
      SoundStep(s, op);
      if !Enabled(s, op) {
      } else if op.AdvEnable? {
        AdvStep(s, op.slot, op.enable);
      } else if op.ScanEnable? {
        ScanStep(s, op.slot, op.enable);
      } else {
        OtherStep(s, op);
      }
    }
  }

  /** In every reachable state: of two different live devices, one scanning and one advertising, the
      scanner has been sent exactly one report about the advertiser since the later of the two
      commands that switched them on. */
  lemma Rendezvous(ops: seq<Op>, i: nat, j: nat)
    requires Meet(Run(ops).table, i, j)
    ensures var s := Run(ops);
            Recent(s.log, s.table[i].value.serial, s.table[j].value.serial) == 1
  {
    AllHeardAlways(ops);
    assert Heard(Run(ops), i, j);
  }
}
