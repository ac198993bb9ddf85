/** A condition on what the callbacks will do, checked before a dispatch, under which every interested
    entry is told of the event. */
module MgmtNotifySpared {
  import opened MgmtNotify
  import opened Options
  import opened MgmtNotifyLaws
  import opened MgmtNotifyOrder

  /** How an interested entry can be named by a removal. */
  datatype Target = Target(id: nat, index: nat)

  function LiveTargets(live: seq<Entry>, event: nat, index: nat): set<Target> {
    if live == [] then {}
    else LiveTargets(live[1..], event, index)
         + if Eligible(live[0], event, index) then {Target(live[0].id, live[0].index)} else {}
  }

  /** The same for the interested entries that these ops would register, from the id counter on. */
  function NewTargets(nextId: nat, ops: seq<Op>, event: nat, index: nat): set<Target>
    decreases |ops|
  {
    if ops == [] then {}
    else if !ops[0].Register? || ops[0].event == 0 then NewTargets(nextId, ops[1..], event, index)
    else
      var id := if nextId < 1 then 1 else nextId;
      NewTargets((id + 1) % UINT_MODULUS, ops[1..], event, index)
      + if Eligible(Entry(0, id, ops[0].event, ops[0].index, ops[0].hasCallback, false), event, index)
        then {Target(id, ops[0].index)} else {}
  }

  function Flat(script: seq<seq<Op>>): seq<Op> {
    if script == [] then [] else script[0] + Flat(script[1..])
  }

  /** The op cannot remove any of these entries. */
  predicate Spares(op: Op, targets: set<Target>) {
    match op
    case Register(_, _, _) => true
    case Unregister(id) => forall t :: t in targets ==> t.id != id
    case UnregisterIndex(i) => forall t :: t in targets ==> t.index != i
    case UnregisterAll => targets == {}
  }

  predicate AllSpare(ops: seq<Op>, targets: set<Target>) {
    forall i :: 0 <= i < |ops| ==> Spares(ops[i], targets)
  }

  /** Checked before the dispatch: nothing the callbacks will do names an interested entry, registered
      now or by the script itself. */
  predicate SparesInterested(s: State, event: nat, index: nat, script: seq<seq<Op>>) {
    AllSpare(Flat(script), LiveTargets(s.live, event, index) + NewTargets(s.nextId, Flat(script), event, index))
  }

  lemma {:induction false} TargetOf(live: seq<Entry>, event: nat, index: nat)
    ensures forall e :: e in live && Eligible(e, event, index) ==>
              Target(e.id, e.index) in LiveTargets(live, event, index)
  {
    if live != [] { TargetOf(live[1..], event, index); }
  }

  /** While c is being called: the loop stands on it, and every interested entry is among the targets. */
  predicate Safe(s: State, c: nat, event: nat, index: nat, targets: set<Target>)
    requires InRange(s)
  {
    && s.cursor.OnLive? && s.live[s.cursor.at].serial == c && Eligible(s.live[s.cursor.at], event, index)
    && forall e :: e in s.live && Eligible(e, event, index) ==> Target(e.id, e.index) in targets
  }

  lemma RemoveAtSafe(s: State, k: nat, c: nat, event: nat, index: nat, targets: set<Target>)
    requires Inv(s) && s.inNotify && Safe(s, c, event, index, targets) && k < |s.live| && k != s.cursor.at
    ensures var s1 := RemoveAt(s, k);
            Inv(s1) && s1.inNotify && Safe(s1, c, event, index, targets) && s1.nextId == s.nextId
  {
    RemoveAtInv(s, k);
    RemoveAtEdits(s, k);
    var s1 := RemoveAt(s, k);
    forall e | e in s1.live
      ensures e in s.live
    {
      var i :| 0 <= i < |s1.live| && s1.live[i] == e;
      assert e == s.live[if i < k then i else i + 1];
    }
  }

  lemma {:induction false} RemoveIndexSafe(s: State, i: nat, k: nat, c: nat, event: nat, index: nat,
                                           targets: set<Target>)
    requires Inv(s) && s.inNotify && Safe(s, c, event, index, targets)
    requires forall t :: t in targets ==> t.index != i
    ensures var s1 := RemoveIndexFrom(s, i, k);
            Inv(s1) && s1.inNotify && Safe(s1, c, event, index, targets) && s1.nextId == s.nextId
    decreases |s.live| - k
  {
    if k < |s.live| {
      if s.live[k].index == i {
        assert s.live[s.cursor.at] in s.live;
        RemoveAtSafe(s, k, c, event, index, targets);
        RemoveIndexSafe(RemoveAt(s, k), i, k, c, event, index, targets);
      } else {
        RemoveIndexSafe(s, i, k + 1, c, event, index, targets);
      }
    }
  }

  lemma ApplySafe(s: State, op: Op, rest: seq<Op>, c: nat, event: nat, index: nat, targets: set<Target>)
    requires Inv(s) && s.inNotify && Safe(s, c, event, index, targets) && Spares(op, targets)
    requires NewTargets(s.nextId, [op] + rest, event, index) <= targets
    ensures var s1 := Apply(s, op);
            && Inv(s1) && s1.inNotify && Safe(s1, c, event, index, targets)
            && NewTargets(s1.nextId, rest, event, index) <= targets
  {
    assert ([op] + rest)[1..] == rest;
    assert s.live[s.cursor.at] in s.live;
    match op
    case Register(ev, ix, cb) => ApplyInv(s, op);
    case Unregister(id) =>
      var k := FindId(s.live, id);
      if id != 0 && k < |s.live| { RemoveAtSafe(s, k, c, event, index, targets); }
    case UnregisterIndex(i) => RemoveIndexSafe(s, i, 0, c, event, index, targets);
    case UnregisterAll =>
  }

  lemma {:induction false} ApplyAllSafe(s: State, ops: seq<Op>, rest: seq<Op>, c: nat, event: nat, index: nat,
                                        targets: set<Target>)
    requires Inv(s) && s.inNotify && Safe(s, c, event, index, targets) && AllSpare(ops, targets)
    requires NewTargets(s.nextId, ops + rest, event, index) <= targets
    ensures var s1 := ApplyAll(s, ops);
            && Inv(s1) && s1.inNotify && Safe(s1, c, event, index, targets)
            && NewTargets(s1.nextId, rest, event, index) <= targets
    decreases |ops|
  {
    if ops == [] {
      assert ops + rest == rest;
    } else {
      assert ops + rest == [ops[0]] + (ops[1..] + rest);
      ApplySafe(s, ops[0], ops[1..] + rest, c, event, index, targets);
      ApplyAllSafe(Apply(s, ops[0]), ops[1..], rest, c, event, index, targets);
    }
  }

  predicate AllTargets(s: State, event: nat, index: nat, targets: set<Target>) {
    forall e :: e in s.live && Eligible(e, event, index) ==> Target(e.id, e.index) in targets
  }

  lemma CallSafe(s: State, event: nat, index: nat, ops: seq<Op>, rest: seq<Op>, targets: set<Target>)
    requires Inv(s) && s.inNotify && s.cursor.OnLive? && WillCall(s, event, index)
    requires AllTargets(s, event, index, targets) && AllSpare(ops, targets)
    requires NewTargets(s.nextId, ops + rest, event, index) <= targets
    ensures var s1 := CallCurrent(s, index, ops);
            && Inv(s1) && s1.inNotify && s1.cursor.OnLive? && AllTargets(s1, event, index, targets)
            && NewTargets(s1.nextId, rest, event, index) <= targets
  {
    var called := s.(log := s.log + [Called(Current(s).serial, index)]);
    CalledInv(s, event, index);
    ApplyAllSafe(called, ops, rest, Current(s).serial, event, index, targets);
  }

  lemma {:induction false} SparedWalk(s: State, event: nat, index: nat, script: seq<seq<Op>>, targets: set<Target>)
    requires Inv(s) && s.inNotify && !s.cursor.OnDead?
    requires AllTargets(s, event, index, targets) && AllSpare(Flat(script), targets)
    requires NewTargets(s.nextId, Flat(script), event, index) <= targets
    ensures CutBy(s, event, index, script) == None
    decreases |script|, Left(s)
  {
    if !s.cursor.Stop? {
      AdvanceInv(s);
      if !WillCall(s, event, index) {
        SparedWalk(Advance(s), event, index, script, targets);
      } else {
        var ops, rest := if script == [] then [] else script[0], if script == [] then [] else script[1..];
        assert Flat(script) == ops + Flat(rest);
        assert forall i :: 0 <= i < |ops| ==> ops[i] == Flat(script)[i];
        assert forall i :: 0 <= i < |Flat(rest)| ==> Flat(rest)[i] == Flat(script)[|ops| + i];
        CallSafe(s, event, index, ops, Flat(rest), targets);
        AdvanceInv(CallCurrent(s, index, ops));
        SparedWalk(Advance(CallCurrent(s, index, ops)), event, index, rest, targets);
      }
    }
  }

  /** A script that spares every interested entry cuts no dispatch short: every interested entry still
      registered at the end has been called. */
  lemma SparedDispatchIsFull(actions: seq<Action>, event: nat, index: nat, script: seq<seq<Op>>)
    returns (news: seq<Event>)
    requires SparesInterested(Run(actions), event, index, script)
    ensures var s := Run(actions);
            var s' := Dispatch(s, event, index, script);
            && s'.log == s.log + news && CutBy(Enter(s), event, index, script) == None
            && forall i :: 0 <= i < |s'.live| ==>
                 (s'.live[i].serial in Calls(news) <==> Eligible(s'.live[i], event, index))
  {
    var s := Run(actions);
    RunInv(actions);
    EnterInv(s);
    TargetOf(s.live, event, index);
    SparedWalk(Enter(s), event, index, script,
               LiveTargets(s.live, event, index) + NewTargets(s.nextId, Flat(script), event, index));
    news := DispatchOutcome(actions, event, index, script);
  }
}
