/** Which entries one dispatch calls, and in which order, whatever the callbacks do to the list. */
module MgmtNotifyOrder {
  import opened MgmtNotify
  import opened Counting
  import opened Options
  import opened MgmtNotifyGuards
  import opened MgmtNotifyLaws

  /** The entry, if any, whose own callback removed it and so cut the dispatch short. */
  function CutBy(s: State, event: nat, index: nat, script: seq<seq<Op>>): Option<nat>
    requires InRange(s) && s.inNotify
    decreases |script|, Left(s)
  {
    if s.cursor.Stop? then None
    else if !WillCall(s, event, index) then CutBy(Advance(s), event, index, script)
    else if script == [] then CutBy(Advance(CallCurrent(s, index, [])), event, index, [])
    else
      ApplyAllInRange(s.(log := s.log + [Called(Current(s).serial, index)]), script[0]);
      var s1 := CallCurrent(s, index, script[0]);
      if s1.cursor.OnDead? then Some(Current(s).serial) else CutBy(Advance(s1), event, index, script[1..])
  }

  /** No callback of the dispatch removes its own entry: the guards of every op of every callback, each
      told from the list as the op finds it. */
  predicate WalkGuarded(s: State, event: nat, index: nat, script: seq<seq<Op>>)
    requires InRange(s) && s.inNotify
    decreases |script|, Left(s)
  {
    if !s.cursor.OnLive? then true
    else if !WillCall(s, event, index) then WalkGuarded(Advance(s), event, index, script)
    else if script == [] then WalkGuarded(Advance(CallCurrent(s, index, [])), event, index, [])
    else
      var called := s.(log := s.log + [Called(Current(s).serial, index)]);
      ApplyAllInRange(called, script[0]);
      OpsGuarded(called, script[0]) && WalkGuarded(Advance(ApplyAll(called, script[0])), event, index, script[1..])
  }

  /** A dispatch is cut short exactly if the guard of one of its ops fails. */
  lemma {:induction false} CutIffUnguarded(s: State, event: nat, index: nat, script: seq<seq<Op>>)
    requires InRange(s) && s.inNotify && !s.cursor.OnDead?
    ensures CutBy(s, event, index, script) == None <==> WalkGuarded(s, event, index, script)
    decreases |script|, Left(s)
  {
    if s.cursor.OnLive? {
      if !WillCall(s, event, index) {
        CutIffUnguarded(Advance(s), event, index, script);
      } else if script == [] {
        CutIffUnguarded(Advance(CallCurrent(s, index, [])), event, index, []);
      } else {
        var called := s.(log := s.log + [Called(Current(s).serial, index)]);
        ApplyAllInRange(called, script[0]);
        CallbackCutsIff(called, script[0]);
        if OpsGuarded(called, script[0]) {
          CutIffUnguarded(Advance(ApplyAll(called, script[0])), event, index, script[1..]);
        }
      }
    }
  }

  // ---------------------------------------------------------------- the calls in a log

  /** The serials of the entries called, in order. */
  function Calls(log: seq<Event>): seq<nat> {
    if log == [] then []
    else
      var e := log[|log| - 1];
      Calls(log[..|log| - 1]) + (if e.Called? then [e.serial] else [])
  }

  lemma {:induction false} CallsAppend(a: seq<Event>, b: seq<Event>)
    ensures Calls(a + b) == Calls(a) + Calls(b)
  {
    if b == [] {
      assert a + b == a;
    } else {
      var last := |b| - 1;
      assert (a + b)[..|a + b| - 1] == a + b[..last];
      CallsAppend(a, b[..last]);
    }
  }

  lemma {:induction false} NoCalls(log: seq<Event>)
    requires forall i :: 0 <= i < |log| ==> !log[i].Called?
    ensures Calls(log) == []
  {
    if log != [] { NoCalls(log[..|log| - 1]); }
  }

  predicate Increasing(ns: seq<nat>) {
    forall i, j :: 0 <= i < j < |ns| ==> ns[i] < ns[j]
  }

  // ---------------------------------------------------------------- what a callback can do

  /** `s1` comes from `s` by edits alone: nothing is called, the survivors among the old entries
      are the old entries, and the cursor still stands on the same node. */
  predicate Edited(s: State, s1: State)
    requires InRange(s) && InRange(s1)
  {
    && s.log <= s1.log && (forall i :: |s.log| <= i < |s1.log| ==> !s1.log[i].Called?)
    && s.accepted <= s1.accepted
    && (forall e :: e in s1.live && e.serial < s.accepted ==> e in s.live)
    && (s.cursor.OnLive? && s1.cursor.OnLive? ==> s1.live[s1.cursor.at] == s.live[s.cursor.at])
    && (!s.cursor.Stop? ==> !s1.cursor.Stop? && Current(s1).serial == Current(s).serial)
    && (s.cursor.OnDead? ==> s1.cursor.OnDead?)
  }

  lemma EditedTwice(s: State, s1: State, s2: State)
    requires InRange(s) && InRange(s1) && InRange(s2)
    requires Edited(s, s1) && Edited(s1, s2)
    ensures Edited(s, s2)
  {
    forall i | |s.log| <= i < |s2.log| ensures !s2.log[i].Called? {
      if i < |s1.log| { assert s2.log[i] == s1.log[i]; }
    }
  }

  lemma RemoveAtEdits(s: State, k: nat)
    requires Inv(s) && s.inNotify && !s.cursor.Stop? && k < |s.live|
    ensures InRange(RemoveAt(s, k)) && Edited(s, RemoveAt(s, k))
  {
    var s1 := RemoveAt(s, k);
    forall e | e in s1.live ensures e in s.live {
      var i :| 0 <= i < |s1.live| && s1.live[i] == e;
      assert e == s.live[if i < k then i else i + 1];
    }
  }

  lemma {:induction false} RemoveIndexEdits(s: State, index: nat, k: nat)
    requires Inv(s) && s.inNotify && !s.cursor.Stop?
    ensures InRange(RemoveIndexFrom(s, index, k)) && Edited(s, RemoveIndexFrom(s, index, k))
    decreases |s.live| - k
  {
    if k < |s.live| {
      if s.live[k].index == index {
        var s1 := RemoveAt(s, k);
        RemoveAtInv(s, k);
        RemoveAtEdits(s, k);
        RemoveIndexEdits(s1, index, k);
        EditedTwice(s, s1, RemoveIndexFrom(s1, index, k));
      } else {
        RemoveIndexEdits(s, index, k + 1);
      }
    }
  }

  lemma {:induction false} RemoveAllEdits(s: State)
    requires Inv(s) && s.inNotify && !s.cursor.Stop?
    ensures InRange(RemoveAll(s)) && Edited(s, RemoveAll(s))
    decreases |s.live|
  {
    if s.live != [] {
      var s1 := RemoveAt(s, 0);
      RemoveAtInv(s, 0);
      RemoveAtEdits(s, 0);
      RemoveAllEdits(s1);
      EditedTwice(s, s1, RemoveAll(s1));
    }
  }

  lemma ApplyEdits(s: State, op: Op)
    requires Inv(s) && s.inNotify && !s.cursor.Stop?
    ensures InRange(Apply(s, op)) && Edited(s, Apply(s, op))
  {
    ApplyInv(s, op);
    match op
    case Register(_, _, _) =>
    case Unregister(id) => if FindId(s.live, id) < |s.live| { RemoveAtEdits(s, FindId(s.live, id)); }
    case UnregisterIndex(index) => RemoveIndexEdits(s, index, 0);
    case UnregisterAll => RemoveAllEdits(s);
  }

  lemma {:induction false} ApplyAllEdits(s: State, ops: seq<Op>)
    requires Inv(s) && s.inNotify && !s.cursor.Stop?
    ensures InRange(ApplyAll(s, ops)) && Edited(s, ApplyAll(s, ops))
    decreases |ops|
  {
    if ops != [] {
      var s1 := Apply(s, ops[0]);
      ApplyInv(s, ops[0]);
      ApplyEdits(s, ops[0]);
      ApplyAllInv(s1, ops[1..]);
      ApplyAllEdits(s1, ops[1..]);
      EditedTwice(s, s1, ApplyAll(s1, ops[1..]));
    }
  }

  // ---------------------------------------------------------------- one dispatch

  /** A dispatch that stands on a removed node calls nobody any more. */
  lemma {:induction false} DeadEnd(s: State, event: nat, index: nat, script: seq<seq<Op>>)
    requires Inv(s) && s.inNotify && !s.cursor.OnLive?
    ensures var w := Walk(s, event, index, script); w.log == s.log && w.live == s.live
    ensures CutBy(s, event, index, script) == None
    decreases Left(s)
  {
    if !s.cursor.Stop? {
      AdvanceInv(s);
      DeadEnd(Advance(s), event, index, script);
    }
  }

  predicate Eligible(e: Entry, event: nat, index: nat) {
    Interested(e, event, index) && e.hasCallback
  }

  /** Everything before the cursor was called exactly if eligible, and nothing at or after it. */
  predicate Progress(s: State, calls: seq<nat>, event: nat, index: nat)
    requires InRange(s)
  {
    && Increasing(calls)
    && !s.cursor.OnDead?
    && (s.cursor.OnLive? ==> forall i :: 0 <= i < |calls| ==> calls[i] < s.live[s.cursor.at].serial)
    && (forall i :: 0 <= i < (if s.cursor.OnLive? then s.cursor.at else |s.live|) ==>
          (s.live[i].serial in calls <==> Eligible(s.live[i], event, index)))
  }

  /** What a finished dispatch has called, given who cut it short. */
  predicate Outcome(live: seq<Entry>, calls: seq<nat>, cut: Option<nat>, event: nat, index: nat) {
    && Increasing(calls)
    && forall i :: 0 <= i < |live| ==>
         (live[i].serial in calls <==>
          Eligible(live[i], event, index) && (cut.Some? ==> live[i].serial < cut.value))
  }

  lemma SkipKeepsProgress(s: State, calls: seq<nat>, event: nat, index: nat)
    requires Inv(s) && s.inNotify && s.cursor.OnLive? && Progress(s, calls, event, index)
    requires !WillCall(s, event, index)
    ensures Progress(Advance(s), calls, event, index)
  {
    var c := s.live[s.cursor.at];
    assert c.serial !in calls;
  }

  /** The position of an old entry among the new live list is before the cursor's iff it was. */
  lemma CallKeepsProgress(s: State, s1: State, calls: seq<nat>, event: nat, index: nat)
    requires Inv(s) && Inv(s1) && s1.inNotify && s.cursor.OnLive? && s1.cursor.OnLive?
    requires Progress(s, calls, event, index) && WillCall(s, event, index) && Edited(s, s1)
    ensures Progress(Advance(s1), calls + [Current(s).serial], event, index)
  {
    var c, calls' := s.live[s.cursor.at], calls + [s.live[s.cursor.at].serial];
    forall k | 0 <= k <= s1.cursor.at
      ensures s1.live[k].serial in calls' <==> Eligible(s1.live[k], event, index)
    {
      if k < s1.cursor.at {
        var e := s1.live[k];
        assert e.serial < c.serial && e in s.live;
        var j :| 0 <= j < |s.live| && s.live[j] == e;
        assert j < s.cursor.at;
      }
    }
  }

  lemma RemovedNotLive(s: State, k: nat)
    requires Inv(s) && k < |s.dead|
    ensures Count(s.live, Named(s.dead[k].serial)) == 0
  {
    CountOfMember(s.dead, k, Named(s.dead[k].serial));
    assert Balanced(s, s.dead[k].serial);
  }

  lemma CutOutcome(s: State, s1: State, calls: seq<nat>, event: nat, index: nat)
    requires Inv(s) && Inv(s1) && s.cursor.OnLive? && s1.cursor.OnDead?
    requires Progress(s, calls, event, index) && WillCall(s, event, index) && Edited(s, s1)
    ensures Outcome(s1.live, calls + [Current(s).serial], Some(Current(s).serial), event, index)
  {
    var c, calls' := s.live[s.cursor.at], calls + [s.live[s.cursor.at].serial];
    RemovedNotLive(s1, s1.cursor.at);
    forall k | 0 <= k < |s1.live|
      ensures s1.live[k].serial in calls' <==>
              Eligible(s1.live[k], event, index) && s1.live[k].serial < c.serial
    {
      var e := s1.live[k];
      CountOfMember(s1.live, k, Named(s1.live[k].serial));
      if e.serial < c.serial {
        assert e in s.live;
        var j :| 0 <= j < |s.live| && s.live[j] == e;
        assert j < s.cursor.at;
      }
    }
  }

  lemma CallLog(before: seq<Event>, news: seq<Event>, call: Event, log: seq<Event>) returns (news': seq<Event>)
    requires call.Called? && before + news + [call] <= log
    requires forall i :: |before| + |news| + 1 <= i < |log| ==> !log[i].Called?
    ensures log == before + news' && Calls(news') == Calls(news) + [call.serial]
  {
    var more := log[|before| + |news| + 1..];
    news' := (news + [call]) + more;
    CallsAppend(news + [call], more);
    NoCalls(more);
    assert (news + [call])[..|news|] == news;
  }

  /** One callback: what it adds to the log and where it leaves the loop. */
  lemma CallStep(s: State, before: seq<Event>, news: seq<Event>, event: nat, index: nat, ops: seq<Op>)
    returns (news': seq<Event>)
    requires Inv(s) && s.inNotify && !s.cursor.Stop? && WillCall(s, event, index)
    requires s.log == before + news && Progress(s, Calls(news), event, index)
    ensures var s1 := CallCurrent(s, index, ops);
            && Inv(s1) && s1.inNotify && !s1.cursor.Stop? && s1.log == before + news'
            && (s1.cursor.OnLive? ==> Progress(Advance(s1), Calls(news'), event, index))
            && (s1.cursor.OnDead? ==>
                  Outcome(s1.live, Calls(news'), Some(Current(s).serial), event, index))
  {
    var called := s.(log := s.log + [Called(Current(s).serial, index)]);
    var s1 := ApplyAll(called, ops);
    CalledInv(s, event, index);
    ApplyAllInv(called, ops);
    ApplyAllEdits(called, ops);
    news' := CallLog(before, news, Called(Current(s).serial, index), s1.log);
    if s1.cursor.OnDead? {
      CutOutcome(called, s1, Calls(news), event, index);
    } else {
      CallKeepsProgress(called, s1, Calls(news), event, index);
    }
  }

  /** `news` is what this dispatch has logged so far; the lemma returns all it will have logged. */
  lemma {:induction false} WalkOutcome(s: State, before: seq<Event>, news: seq<Event>, event: nat, index: nat,
                                       script: seq<seq<Op>>) returns (all: seq<Event>)
    requires Inv(s) && s.inNotify && s.log == before + news && Progress(s, Calls(news), event, index)
    ensures var w := Walk(s, event, index, script);
            w.log == before + all
            && Outcome(w.live, Calls(all), CutBy(s, event, index, script), event, index)
    decreases |script|, Left(s)
  {
    if s.cursor.Stop? {
      all := news;
    } else if !WillCall(s, event, index) {
      AdvanceInv(s);
      SkipKeepsProgress(s, Calls(news), event, index);
      all := WalkOutcome(Advance(s), before, news, event, index, script);
    } else {
      var ops, rest := if script == [] then [] else script[0], if script == [] then [] else script[1..];
      var s1 := CallCurrent(s, index, ops);
      all := CallStep(s, before, news, event, index, ops);
      AdvanceInv(s1);
      if s1.cursor.OnDead? {
        DeadEnd(Advance(s1), event, index, rest);
      } else {
        all := WalkOutcome(Advance(s1), before, all, event, index, rest);
      }
    }
  }

  // ---------------------------------------------------------------- only interested entries are called

  /** An interested entry with this serial is registered, or was removed during the dispatch. */
  ghost predicate Known(s: State, serial: nat, event: nat, index: nat) {
    exists e :: e in s.live + s.dead && e.serial == serial && Eligible(e, event, index)
  }

  ghost predicate CallsKnown(s: State, from: nat, event: nat, index: nat) {
    forall i :: from <= i < |s.log| && s.log[i].Called? ==> Known(s, s.log[i].serial, event, index)
  }

  lemma RemoveAtKnown(s: State, k: nat, serial: nat, event: nat, index: nat)
    requires s.inNotify && k < |s.live| && Known(s, serial, event, index)
    ensures Known(RemoveAt(s, k), serial, event, index) && RemoveAt(s, k).inNotify
  {
    var e :| e in s.live + s.dead && e.serial == serial && Eligible(e, event, index);
    var s1, gone := RemoveAt(s, k), s.live[k].(destroyed := true);
    assert s.live == s.live[..k] + [s.live[k]] + s.live[k + 1..];
    assert gone in s1.dead && Eligible(gone, event, index) == Eligible(s.live[k], event, index);
    assert e == s.live[k] || e in s1.live + s1.dead;
  }

  lemma {:induction false} RemoveIndexKnown(s: State, i: nat, k: nat, serial: nat, event: nat, index: nat)
    requires s.inNotify && Known(s, serial, event, index)
    ensures Known(RemoveIndexFrom(s, i, k), serial, event, index)
    decreases |s.live| - k
  {
    if k < |s.live| {
      if s.live[k].index == i {
        RemoveAtKnown(s, k, serial, event, index);
        RemoveIndexKnown(RemoveAt(s, k), i, k, serial, event, index);
      } else {
        RemoveIndexKnown(s, i, k + 1, serial, event, index);
      }
    }
  }

  lemma {:induction false} RemoveAllKnown(s: State, serial: nat, event: nat, index: nat)
    requires s.inNotify && Known(s, serial, event, index)
    ensures Known(RemoveAll(s), serial, event, index)
    decreases |s.live|
  {
    if s.live != [] {
      RemoveAtKnown(s, 0, serial, event, index);
      RemoveAllKnown(RemoveAt(s, 0), serial, event, index);
    }
  }

  lemma ApplyKnown(s: State, op: Op, serial: nat, event: nat, index: nat)
    requires s.inNotify && Known(s, serial, event, index)
    ensures Known(Apply(s, op), serial, event, index)
  {
    match op
    case Register(_, _, _) =>
      var e :| e in s.live + s.dead && e.serial == serial && Eligible(e, event, index);
      assert e in Apply(s, op).live + Apply(s, op).dead;
    case Unregister(id) =>
      if FindId(s.live, id) < |s.live| { RemoveAtKnown(s, FindId(s.live, id), serial, event, index); }
    case UnregisterIndex(i) => RemoveIndexKnown(s, i, 0, serial, event, index);
    case UnregisterAll => RemoveAllKnown(s, serial, event, index);
  }

  lemma {:induction false} ApplyAllKnown(s: State, ops: seq<Op>, serial: nat, event: nat, index: nat)
    requires Inv(s) && s.inNotify && Known(s, serial, event, index)
    ensures Known(ApplyAll(s, ops), serial, event, index)
    decreases |ops|
  {
    if ops != [] {
      ApplyKnown(s, ops[0], serial, event, index);
      ApplyInv(s, ops[0]);
      ApplyAllKnown(Apply(s, ops[0]), ops[1..], serial, event, index);
    }
  }

  lemma CallKnown(s: State, from: nat, event: nat, index: nat, ops: seq<Op>)
    requires Inv(s) && s.inNotify && !s.cursor.Stop? && WillCall(s, event, index) && CallsKnown(s, from, event, index)
    ensures CallsKnown(CallCurrent(s, index, ops), from, event, index)
  {
    var called := s.(log := s.log + [Called(Current(s).serial, index)]);
    var s1 := ApplyAll(called, ops);
    CalledInv(s, event, index);
    ApplyAllEdits(called, ops);
    forall i | from <= i < |s1.log| && s1.log[i].Called?
      ensures Known(s1, s1.log[i].serial, event, index)
    {
      assert s1.log[i] == called.log[i];
      if i < |s.log| {
        assert Known(s, s.log[i].serial, event, index);
        var e :| e in s.live + s.dead && e.serial == s.log[i].serial && Eligible(e, event, index);
        assert Known(called, e.serial, event, index);
      } else {
        assert Current(s) in called.live + called.dead;
      }
      ApplyAllKnown(called, ops, s1.log[i].serial, event, index);
    }
  }

  lemma AdvanceKnown(s: State, from: nat, event: nat, index: nat)
    requires CallsKnown(s, from, event, index)
    ensures CallsKnown(Advance(s), from, event, index)
  {
    forall i | from <= i < |s.log| && s.log[i].Called?
      ensures Known(Advance(s), s.log[i].serial, event, index)
    {
      var e :| e in s.live + s.dead && e.serial == s.log[i].serial && Eligible(e, event, index);
      assert e in Advance(s).live + Advance(s).dead;
    }
  }

  lemma {:induction false} WalkKnown(s: State, from: nat, event: nat, index: nat, script: seq<seq<Op>>)
    requires Inv(s) && s.inNotify && CallsKnown(s, from, event, index)
    ensures CallsKnown(Walk(s, event, index, script), from, event, index)
    decreases |script|, Left(s)
  {
    if !s.cursor.Stop? {
      if !WillCall(s, event, index) {
        AdvanceInv(s);
        AdvanceKnown(s, from, event, index);
        WalkKnown(Advance(s), from, event, index, script);
      } else {
        var ops, rest := if script == [] then [] else script[0], if script == [] then [] else script[1..];
        var s1 := CallCurrent(s, index, ops);
        CalledInv(s, event, index);
        ApplyAllInv(s.(log := s.log + [Called(Current(s).serial, index)]), ops);
        CallKnown(s, from, event, index, ops);
        AdvanceInv(s1);
        AdvanceKnown(s1, from, event, index);
        WalkKnown(Advance(s1), from, event, index, rest);
      }
    }
  }

  // ---------------------------------------------------------------- who cut it short

  predicate RemovedItselfAt(log: seq<Event>, c: nat, i: int, j: int) {
    && 0 <= i < j < |log| && log[i].Called? && log[i].serial == c && log[j] == Removed(c)
    && forall k :: i < k < j ==> !log[k].Called?
  }

  /** In the log: c was called, and removed before anyone else was called. */
  ghost predicate RemovedItself(log: seq<Event>, c: nat) {
    exists i, j :: RemovedItselfAt(log, c, i, j)
  }

  /** A call leaves the loop on a removed node exactly if the callback's own ops removed its entry. */
  lemma CutIffOwnRemoval(s: State, event: nat, index: nat, ops: seq<Op>)
    requires Inv(s) && s.inNotify && s.cursor.OnLive? && WillCall(s, event, index)
    ensures var s1 := CallCurrent(s, index, ops);
            && s.log < s1.log
            && (s1.cursor.OnDead? <==> Removed(Current(s).serial) in s1.log[|s.log|..])
  {
    var c := Current(s).serial;
    var called := s.(log := s.log + [Called(c, index)]);
    var s1 := ApplyAll(called, ops);
    CalledInv(s, event, index);
    ApplyAllInv(called, ops);
    ApplyAllEdits(called, ops);
    CountOfMember(s.live, s.cursor.at, Named(s.live[s.cursor.at].serial));
    assert Balanced(s, c) && Balanced(s1, c);
    var more := s1.log[|s.log|..];
    assert s1.log == s.log + more;
    CountAppend(s.log, more, Same(Removed(c)));
    if s1.cursor.OnDead? {
      CountOfMember(s1.dead, s1.cursor.at, Named(s1.dead[s1.cursor.at].serial));
      CountZero(more, Same(Removed(c)));
    } else {
      CountOfMember(s1.live, s1.cursor.at, Named(s1.live[s1.cursor.at].serial));
      CountZero(more, Same(Removed(c)));
    }
  }

  /** One call's part of the log: the call and what its ops did, without further calls. */
  predicate OnePart(part: seq<Event>, c: nat) {
    part != [] && part[0].Called? && part[0].serial == c && forall k :: 0 < k < |part| ==> !part[k].Called?
  }

  lemma PartRemoved(part: seq<Event>, c: nat, x: nat)
    requires OnePart(part, c)
    ensures RemovedItself(part, x) <==> x == c && Removed(c) in part
  {
    if x == c && Removed(c) in part {
      var j :| 0 <= j < |part| && part[j] == Removed(c);
      assert RemovedItselfAt(part, c, 0, j);
    }
  }

  lemma RestWithin(part: seq<Event>, rest: seq<Event>, x: nat, i: int, j: int)
    requires RemovedItselfAt(rest, x, i, j)
    ensures RemovedItselfAt(part + rest, x, |part| + i, |part| + j)
  {
    var all, n := part + rest, |part|;
    forall k | n + i < k < n + j
      ensures !all[k].Called?
    {
      assert all[k] == rest[k - n];
    }
  }

  lemma WithinRest(part: seq<Event>, rest: seq<Event>, c: nat, x: nat, i: int, j: int)
    requires OnePart(part, c) && Removed(c) !in part && (rest == [] || rest[0].Called?)
    requires RemovedItselfAt(part + rest, x, i, j)
    ensures RemovedItselfAt(rest, x, i - |part|, j - |part|)
  {
    var all, n := part + rest, |part|;
    assert rest != [] ==> all[n] == rest[0];
    assert i >= n;
    forall k | i - n < k < j - n
      ensures !rest[k].Called?
    {
      assert rest[k] == all[n + k];
    }
  }

  lemma PartThenRest(part: seq<Event>, rest: seq<Event>, c: nat, x: nat)
    requires OnePart(part, c) && Removed(c) !in part && (rest == [] || rest[0].Called?)
    ensures RemovedItself(part + rest, x) <==> RemovedItself(rest, x)
  {
    if RemovedItself(rest, x) {
      var i, j :| RemovedItselfAt(rest, x, i, j);
      RestWithin(part, rest, x, i, j);
    }
    if RemovedItself(part + rest, x) {
      var i, j :| RemovedItselfAt(part + rest, x, i, j);
      WithinRest(part, rest, c, x, i, j);
    }
  }

  lemma FreesAside(log: seq<Event>, frees: seq<Event>, c: nat)
    requires forall i :: 0 <= i < |frees| ==> frees[i].Freed?
    ensures RemovedItself(log + frees, c) <==> RemovedItself(log, c)
  {
    var all := log + frees;
    assert forall k :: 0 <= k < |log| ==> all[k] == log[k];
    if RemovedItself(log, c) {
      var i, j :| RemovedItselfAt(log, c, i, j);
      assert RemovedItselfAt(all, c, i, j);
    }
    if RemovedItself(all, c) {
      var i, j :| RemovedItselfAt(all, c, i, j);
      assert j < |log|;
      assert RemovedItselfAt(log, c, i, j);
    }
  }

  lemma CallPart(s: State, event: nat, index: nat, ops: seq<Op>) returns (part: seq<Event>)
    requires Inv(s) && s.inNotify && s.cursor.OnLive? && WillCall(s, event, index)
    ensures var s1, c := CallCurrent(s, index, ops), Current(s).serial;
            && Inv(s1) && s1.inNotify && !s1.cursor.Stop? && s1.log == s.log + part && OnePart(part, c)
            && (s1.cursor.OnDead? <==> Removed(c) in part)
  {
    var s1 := CallCurrent(s, index, ops);
    var called := s.(log := s.log + [Called(Current(s).serial, index)]);
    CalledInv(s, event, index);
    ApplyAllInv(called, ops);
    ApplyAllEdits(called, ops);
    CutIffOwnRemoval(s, event, index, ops);
    part := s1.log[|s.log|..];
    assert s1.log == s.log + part;
    assert part[0] == called.log[|s.log|];
    assert forall k :: 0 < k < |part| ==> part[k] == s1.log[|s.log| + k];
  }

  lemma {:induction false} CutInLog(s: State, event: nat, index: nat, script: seq<seq<Op>>) returns (more: seq<Event>)
    requires Inv(s) && s.inNotify && !s.cursor.OnDead?
    ensures Walk(s, event, index, script).log == s.log + more && (more == [] || more[0].Called?)
    ensures forall c: nat :: RemovedItself(more, c) <==> CutBy(s, event, index, script) == Some(c)
    decreases |script|, Left(s)
  {
    more := [];
    if !s.cursor.Stop? {
      if !WillCall(s, event, index) {
        AdvanceInv(s);
        more := CutInLog(Advance(s), event, index, script);
      } else {
        var ops, rest := if script == [] then [] else script[0], if script == [] then [] else script[1..];
        var c, s1 := Current(s).serial, CallCurrent(s, index, ops);
        var part := CallPart(s, event, index, ops);
        AdvanceInv(s1);
        if s1.cursor.OnDead? {
          DeadEnd(Advance(s1), event, index, rest);
          forall x: nat { PartRemoved(part, c, x); }
          more := part;
        } else {
          var later := CutInLog(Advance(s1), event, index, rest);
          forall x: nat { PartThenRest(part, later, c, x); }
          assert s.log + part + later == s.log + (part + later);
          more := part + later;
        }
      }
    }
  }

  lemma {:induction false} CallsFrom(log: seq<Event>, c: nat) returns (i: nat)
    requires c in Calls(log)
    ensures i < |log| && log[i].Called? && log[i].serial == c
  {
    var last := |log| - 1;
    if log[last].Called? && log[last].serial == c { i := last; } else { i := CallsFrom(log[..last], c); }
  }

  lemma SameTail(a: seq<Event>, b: seq<Event>, c: seq<Event>)
    requires a + b == a + c
    ensures b == c
  {
    assert b == (a + b)[|a|..] && c == (a + c)[|a|..];
  }

  lemma FreesQuiet(walked: seq<Event>, dead: seq<Entry>)
    ensures Calls(walked + FreeAll(dead)) == Calls(walked)
  {
    CallsAppend(walked, FreeAll(dead));
    NoCalls(FreeAll(dead));
  }

  /** The log of a dispatch: what the loop wrote, then the frees. */
  lemma DispatchLog(s: State, event: nat, index: nat, script: seq<seq<Op>>, walked: seq<Event>, news: seq<Event>)
    requires Inv(s) && !s.inNotify && InRange(Enter(s)) && Walk(Enter(s), event, index, script).log == s.log + walked
    ensures var s', dead := Dispatch(s, event, index, script), Walk(Enter(s), event, index, script).dead;
            && s'.log == s.log + (walked + FreeAll(dead)) && s'.live == Walk(Enter(s), event, index, script).live
            && (s'.log == s.log + news ==> news == walked + FreeAll(dead))
  {
    var w := Walk(Enter(s), event, index, script);
    var s' := Leave(w);
    assert s.log + walked + FreeAll(w.dead) == s.log + (walked + FreeAll(w.dead));
    if s'.log == s.log + news { SameTail(s.log, news, walked + FreeAll(w.dead)); }
  }

  lemma OnlyInterestedCalled(s: State, event: nat, index: nat, script: seq<seq<Op>>, walked: seq<Event>)
    requires Inv(s) && !s.inNotify && InRange(Enter(s)) && Walk(Enter(s), event, index, script).log == s.log + walked
    ensures forall c :: c in Calls(walked) ==> Known(Walk(Enter(s), event, index, script), c, event, index)
  {
    EnterInv(s);
    var w := Walk(Enter(s), event, index, script);
    WalkKnown(Enter(s), |s.log|, event, index, script);
    forall c | c in Calls(walked)
      ensures Known(w, c, event, index)
    {
      var i := CallsFrom(walked, c);
      assert w.log[|s.log| + i] == walked[i];
    }
  }

  /** Every entry called was interested, and one that cut the dispatch short removed itself. */
  lemma WhoWasCalled(s: State, event: nat, index: nat, script: seq<seq<Op>>, news: seq<Event>)
    requires Inv(s) && !s.inNotify && InRange(Enter(s)) && Dispatch(s, event, index, script).log == s.log + news
    ensures forall c :: c in Calls(news) ==> Known(Walk(Enter(s), event, index, script), c, event, index)
    ensures forall c: nat :: RemovedItself(news, c) <==> CutBy(Enter(s), event, index, script) == Some(c)
  {
    EnterInv(s);
    var more := CutInLog(Enter(s), event, index, script);
    var dead := Walk(Enter(s), event, index, script).dead;
    DispatchLog(s, event, index, script, more, news);
    FreesQuiet(more, dead);
    OnlyInterestedCalled(s, event, index, script, more);
    forall c: nat { FreesAside(more, FreeAll(dead), c); }
  }

  lemma CallsInOrder(s: State, event: nat, index: nat, script: seq<seq<Op>>) returns (news: seq<Event>)
    requires Inv(s) && !s.inNotify && InRange(Enter(s))
    ensures var s' := Dispatch(s, event, index, script);
            && s'.log == s.log + news && Increasing(Calls(news))
            && Outcome(s'.live, Calls(news), CutBy(Enter(s), event, index, script), event, index)
  {
    EnterInv(s);
    assert s.log == s.log + [];
    var walked := WalkOutcome(Enter(s), s.log, [], event, index, script);
    var dead := Walk(Enter(s), event, index, script).dead;
    news := walked + FreeAll(dead);
    DispatchLog(s, event, index, script, walked, news);
    FreesQuiet(walked, dead);
  }

  /** What one dispatch of an event does in any reachable state, for any behaviour of the callbacks:
      it calls entries in registration order, each at most once, and only interested ones. If no
      callback removed its own entry, the entries still registered at the end that were called are
      exactly the interested ones; otherwise they are exactly the interested ones registered before the
      entry that removed itself. */
  lemma DispatchOutcome(actions: seq<Action>, event: nat, index: nat, script: seq<seq<Op>>) returns (news: seq<Event>)
    ensures var s := Run(actions);
            var s', w := Dispatch(s, event, index, script), Walk(Enter(s), event, index, script);
            var cut := CutBy(Enter(s), event, index, script);
            && s'.log == s.log + news
            && Increasing(Calls(news))
            && Outcome(s'.live, Calls(news), cut, event, index)
            && (forall c :: c in Calls(news) ==> Known(w, c, event, index))
            && (forall c: nat :: RemovedItself(news, c) <==> cut == Some(c))
            && (cut == None <==> WalkGuarded(Enter(s), event, index, script))
  {
    var s := Run(actions);
    RunInv(actions);
    EnterInv(s);
    news := CallsInOrder(s, event, index, script);
    WhoWasCalled(s, event, index, script, news);
    CutIffUnguarded(Enter(s), event, index, script);
  }

  /** The cut happens: the first of two interested entries unregisters itself and the second,
      still registered, is not told about the event. */
  lemma SelfRemovalCutsShort()
    ensures var s := Run([Call(Register(5, 0, true)), Call(Register(5, 0, true))]);
            var s' := Dispatch(s, 5, 0, [[Unregister(1)]]);
            && |s'.live| == 1 && s'.live[0].serial == 1 && Eligible(s'.live[0], 5, 0)
            && Called(1, 0) !in s'.log
  {
    var a := Call(Register(5, 0, true));
    var e0, e1 := Entry(0, 1, 5, 0, true, false), Entry(1, 2, 5, 0, true, false);
    assert [a, a][..1] == [a] && [a][..0] == [];
    var s := Run([a, a]);
    assert Run([a]).live == [e0];
    assert s.live == [e0, e1] && s.log == [] && s.dead == [];
    var s0 := Enter(s);
    var called := s0.(log := s0.log + [Called(0, 0)]);
    assert ApplyAll(called, [Unregister(1)]) == Apply(called, Unregister(1)) by {
      assert [Unregister(1)][1..] == [];
    }
    var s1 := CallCurrent(s0, 0, [Unregister(1)]);
    assert s1.cursor == OnDead(0) && s1.live == [e1] && s1.log == [Called(0, 0), Removed(0)];
    assert [[Unregister(1)]][1..] == [];
    assert Walk(s0, 5, 0, [[Unregister(1)]]) == Walk(Advance(s1), 5, 0, []);
  }
}
