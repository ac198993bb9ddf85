/** What holds over every run of registrations, unregistrations and dispatches. */
module MgmtNotifyLaws {
  import opened MgmtNotify
  import opened Counting

  // ---------------------------------------------------------------- counting

  function Named(serial: nat): Entry -> bool {
    (x: Entry) => x.serial == serial
  }

  function Same(e: Event): Event -> bool {
    (x: Event) => x == e
  }

  /** How often an event occurs in the log. */
  function Times(log: seq<Event>, e: Event): nat {
    Count(log, Same(e))
  }

  // ---------------------------------------------------------------- the invariant

  /** An entry registered so far is either live or was removed exactly once; a removed one is
      either waiting to be freed or was freed exactly once. */
  predicate Balanced(s: State, serial: nat) {
    && Count(s.live, Named(serial)) + Times(s.log, Removed(serial)) == (if serial < s.accepted then 1 else 0)
    && Count(s.dead, Named(serial)) + Times(s.log, Freed(serial)) == Times(s.log, Removed(serial))
  }

  /** Nothing is called after it was removed. */
  predicate CallsBeforeRemovals(log: seq<Event>) {
    forall i, j :: 0 <= i < j < |log| && log[i].Removed? && log[j].Called? ==> log[i].serial != log[j].serial
  }

  /** The live list is in registration order. */
  predicate Ordered(live: seq<Entry>, accepted: nat) {
    && (forall i, j :: 0 <= i < j < |live| ==> live[i].serial < live[j].serial)
    && (forall i :: 0 <= i < |live| ==> live[i].serial < accepted && !live[i].destroyed)
  }

  ghost predicate Inv(s: State) {
    && InRange(s)
    && Ordered(s.live, s.accepted)
    && (forall i :: 0 <= i < |s.dead| ==> s.dead[i].destroyed)
    && CallsBeforeRemovals(s.log)
    && (forall serial :: Balanced(s, serial))
    && (!s.inNotify ==> s.cursor.Stop? && s.dead == [])
  }

  lemma RemoveAtBalanced(s: State, k: nat, serial: nat)
    requires k < |s.live| && Balanced(s, serial)
    ensures Balanced(RemoveAt(s, k), serial)
  {
    var e := s.live[k];
    CountWithout(s.live, k, Named(serial));
    CountAppend(s.dead, [e.(destroyed := true)], Named(serial));
    var r, f := [Removed(e.serial)], [Freed(e.serial)];
    assert r + f == [Removed(e.serial), Freed(e.serial)];
    CountAppend(s.log, r, Same(Removed(serial)));
    CountAppend(s.log, r, Same(Freed(serial)));
    CountAppend(s.log, r + f, Same(Removed(serial)));
    CountAppend(s.log, r + f, Same(Freed(serial)));
    CountAppend(r, f, Same(Removed(serial)));
    CountAppend(r, f, Same(Freed(serial)));
  }

  lemma RemoveAtInv(s: State, k: nat)
    requires Inv(s) && k < |s.live|
    ensures Inv(RemoveAt(s, k)) && RemoveAt(s, k).inNotify == s.inNotify
  {
    RemoveAtInRange(s, k);
    forall serial { RemoveAtBalanced(s, k, serial); }
    var e := s.live[k];
  }

  lemma {:induction false} RemoveIndexInv(s: State, index: nat, k: nat)
    requires Inv(s)
    ensures Inv(RemoveIndexFrom(s, index, k)) && RemoveIndexFrom(s, index, k).inNotify == s.inNotify
    decreases |s.live| - k
  {
    if k < |s.live| {
      if s.live[k].index == index {
        RemoveAtInv(s, k);
        RemoveIndexInv(RemoveAt(s, k), index, k);
      } else {
        RemoveIndexInv(s, index, k + 1);
      }
    }
  }

  lemma {:induction false} RemoveAllInv(s: State)
    requires Inv(s)
    ensures Inv(RemoveAll(s)) && RemoveAll(s).inNotify == s.inNotify
    decreases |s.live|
  {
    if s.live != [] {
      RemoveAtInv(s, 0);
      RemoveAllInv(RemoveAt(s, 0));
    }
  }

  lemma RegisterInv(s: State, event: nat, index: nat, hasCallback: bool)
    requires Inv(s)
    ensures Inv(RegisterEntry(s, event, index, hasCallback))
  {
    var s' := RegisterEntry(s, event, index, hasCallback);
    if event != 0 {
      var e := s'.live[|s.live|];
      forall serial ensures Balanced(s', serial) {
        assert Balanced(s, serial);
        CountAppend(s.live, [e], Named(serial));
      }
    }
  }

  lemma ApplyInv(s: State, op: Op)
    requires Inv(s)
    ensures Inv(Apply(s, op)) && Apply(s, op).inNotify == s.inNotify
  {
    match op
    case Register(event, index, hasCallback) => RegisterInv(s, event, index, hasCallback);
    case Unregister(id) => if FindId(s.live, id) < |s.live| { RemoveAtInv(s, FindId(s.live, id)); }
    case UnregisterIndex(index) => RemoveIndexInv(s, index, 0);
    case UnregisterAll => RemoveAllInv(s);
  }

  lemma {:induction false} ApplyAllInv(s: State, ops: seq<Op>)
    requires Inv(s)
    ensures Inv(ApplyAll(s, ops)) && ApplyAll(s, ops).inNotify == s.inNotify
    decreases |ops|
  {
    if ops != [] {
      ApplyInv(s, ops[0]);
      ApplyAllInv(Apply(s, ops[0]), ops[1..]);
    }
  }

  lemma BalancedAfterCall(s: State, serial: nat, index: nat, x: nat)
    requires Balanced(s, x)
    ensures Balanced(s.(log := s.log + [Called(serial, index)]), x)
  {
    CountAppend(s.log, [Called(serial, index)], Same(Removed(x)));
    CountAppend(s.log, [Called(serial, index)], Same(Freed(x)));
  }

  /** Calling the live entry under the cursor: it cannot have been removed before. */
  lemma CalledInv(s: State, event: nat, index: nat)
    requires Inv(s) && !s.cursor.Stop? && WillCall(s, event, index)
    ensures s.cursor.OnLive?
    ensures Inv(s.(log := s.log + [Called(Current(s).serial, index)]))
  {
    var c := Current(s).serial;
    assert s.cursor.OnLive?;
    CountOfMember(s.live, s.cursor.at, Named(s.live[s.cursor.at].serial));
    assert Balanced(s, c);
    CountZero(s.log, Same(Removed(c)));
    forall x { BalancedAfterCall(s, c, index, x); }
    forall i | 0 <= i < |s.log| && s.log[i].Removed? ensures s.log[i].serial != c {
      assert s.log[i] in s.log;
    }
  }

  lemma AdvanceInv(s: State)
    requires Inv(s) && s.inNotify
    ensures Inv(Advance(s)) && Advance(s).inNotify
  {
    forall serial ensures Balanced(Advance(s), serial) { assert Balanced(s, serial); }
  }

  lemma {:induction false} WalkInv(s: State, event: nat, index: nat, script: seq<seq<Op>>)
    requires Inv(s) && s.inNotify
    ensures Inv(Walk(s, event, index, script)) && Walk(s, event, index, script).inNotify
    decreases |script|, Left(s)
  {
    if !s.cursor.Stop? {
      if !WillCall(s, event, index) {
        AdvanceInv(s);
        WalkInv(Advance(s), event, index, script);
      } else {
        CalledInv(s, event, index);
        if script == [] {
          AdvanceInv(CallCurrent(s, index, []));
          WalkInv(Advance(CallCurrent(s, index, [])), event, index, []);
        } else {
          ApplyAllInv(s.(log := s.log + [Called(Current(s).serial, index)]), script[0]);
          AdvanceInv(CallCurrent(s, index, script[0]));
          WalkInv(Advance(CallCurrent(s, index, script[0])), event, index, script[1..]);
        }
      }
    }
  }

  lemma {:induction false} FreeAllTimes(dead: seq<Entry>, serial: nat)
    ensures Times(FreeAll(dead), Freed(serial)) == Count(dead, Named(serial))
    ensures Times(FreeAll(dead), Removed(serial)) == 0
  {
    if dead != [] {
      assert FreeAll(dead)[1..] == FreeAll(dead[1..]);
      FreeAllTimes(dead[1..], serial);
    }
  }

  lemma LeaveInv(s: State)
    requires Inv(s)
    ensures Inv(Leave(s))
  {
    forall serial ensures Balanced(Leave(s), serial) {
      assert Balanced(s, serial);
      FreeAllTimes(s.dead, serial);
      CountAppend(s.log, FreeAll(s.dead), Same(Removed(serial)));
      CountAppend(s.log, FreeAll(s.dead), Same(Freed(serial)));
    }
  }

  lemma EnterInv(s: State)
    requires Inv(s)
    ensures Inv(Enter(s))
  {
    forall serial ensures Balanced(Enter(s), serial) { assert Balanced(s, serial); }
  }

  lemma {:induction false} RunInv(actions: seq<Action>)
    ensures Inv(Run(actions)) && !Run(actions).inNotify
  {
    if actions != [] {
      var last := |actions| - 1;
      var s := Run(actions[..last]);
      RunInv(actions[..last]);
      match actions[last]
      case Call(op) => ApplyInv(s, op);
      case Notify(event, index, script) =>
        EnterInv(s);
        WalkInv(Enter(s), event, index, script);
        LeaveInv(Walk(Enter(s), event, index, script));
    }
  }

  // ---------------------------------------------------------------- laws over runs

  /** Between dispatches every registration is either live and not yet freed, or was removed once
      and freed once. */
  lemma FreedExactlyOnce(actions: seq<Action>, serial: nat)
    requires serial < Run(actions).accepted
    ensures var s := Run(actions);
            && Times(s.log, Freed(serial)) == Times(s.log, Removed(serial)) == 1 - Count(s.live, Named(serial))
            && Count(s.live, Named(serial)) <= 1
  {
    RunInv(actions);
    assert Balanced(Run(actions), serial);
  }

  /** Over any run, no callback of an entry runs after the entry was unregistered, even when it
      was unregistered by another callback in the middle of a dispatch. */
  lemma NeverCalledAfterRemoval(actions: seq<Action>, i: nat, j: nat)
    requires i < j < |Run(actions).log|
    requires Run(actions).log[i].Removed? && Run(actions).log[j].Called?
    ensures Run(actions).log[i].serial != Run(actions).log[j].serial
  {
    RunInv(actions);
  }

  // ---------------------------------------------------------------- no freeing during a dispatch

  predicate FreesNothing(before: seq<Event>, after: seq<Event>) {
    before <= after && forall i :: |before| <= i < |after| ==> !after[i].Freed?
  }

  lemma {:induction false} RemovalsFreeNothing(s: State, index: nat, k: nat)
    requires s.inNotify
    ensures FreesNothing(s.log, RemoveIndexFrom(s, index, k).log) && RemoveIndexFrom(s, index, k).inNotify
    decreases |s.live| - k
  {
    if k < |s.live| {
      if s.live[k].index == index {
        RemovalsFreeNothing(RemoveAt(s, k), index, k);
      } else {
        RemovalsFreeNothing(s, index, k + 1);
      }
    }
  }

  lemma {:induction false} RemoveAllFreesNothing(s: State)
    requires s.inNotify
    ensures FreesNothing(s.log, RemoveAll(s).log) && RemoveAll(s).inNotify
    decreases |s.live|
  {
    if s.live != [] { RemoveAllFreesNothing(RemoveAt(s, 0)); }
  }

  lemma {:induction false} OpsFreeNothing(s: State, ops: seq<Op>)
    requires s.inNotify
    ensures FreesNothing(s.log, ApplyAll(s, ops).log)
    decreases |ops|
  {
    if ops != [] {
      match ops[0] {
        case Register(_, _, _) =>
        case Unregister(_) =>
        case UnregisterIndex(index) => RemovalsFreeNothing(s, index, 0);
        case UnregisterAll => RemoveAllFreesNothing(s);
      }
      OpsFreeNothing(Apply(s, ops[0]), ops[1..]);
    }
  }

  /** While the dispatch loop runs, whatever the callbacks do, no entry is freed; the deferred
      entries are all freed, in order, when the loop is over. */
  lemma {:induction false} NothingFreedWhileDispatching(s: State, event: nat, index: nat, script: seq<seq<Op>>)
    requires InRange(s) && s.inNotify
    ensures FreesNothing(s.log, Walk(s, event, index, script).log)
    ensures var w := Walk(s, event, index, script);
            Leave(w).log == w.log + FreeAll(w.dead) && Leave(w).dead == []
    decreases |script|, Left(s)
  {
    if !s.cursor.Stop? {
      if !WillCall(s, event, index) {
        NothingFreedWhileDispatching(Advance(s), event, index, script);
      } else {
        var called := s.(log := s.log + [Called(Current(s).serial, index)]);
        if script == [] {
          NothingFreedWhileDispatching(Advance(called), event, index, []);
        } else {
          OpsFreeNothing(called, script[0]);
          ApplyAllInRange(called, script[0]);
          NothingFreedWhileDispatching(Advance(CallCurrent(s, index, script[0])), event, index, script[1..]);
        }
      }
    }
  }
}
