/** Who is told of an event, told field by field. */
module MgmtNotifyAudience {
  import opened MgmtNotify
  import opened Options
  import opened MgmtNotifyLaws
  import opened MgmtNotifyGuards
  import opened MgmtNotifyOrder

  predicate CarryIndex(log: seq<Event>, from: nat, index: nat) {
    forall i :: from <= i < |log| && log[i].Called? ==> log[i].index == index
  }

  /** Every call a dispatch makes carries the controller of the event. */
  lemma {:induction false} CallsCarryIndex(s: State, from: nat, event: nat, index: nat, script: seq<seq<Op>>)
    requires Inv(s) && s.inNotify
    requires CarryIndex(s.log, from, index)
    ensures CarryIndex(Walk(s, event, index, script).log, from, index)
    decreases |script|, Left(s)
  {
    if !s.cursor.Stop? {
      if !WillCall(s, event, index) {
        AdvanceInv(s);
        assert Advance(s).log == s.log;
        CallsCarryIndex(Advance(s), from, event, index, script);
        assert Walk(s, event, index, script) == Walk(Advance(s), event, index, script);
      } else {
        var ops, rest := if script == [] then [] else script[0], if script == [] then [] else script[1..];
        var called := s.(log := s.log + [Called(Current(s).serial, index)]);
        CalledInv(s, event, index);
        ApplyAllInv(called, ops);
        ApplyAllEdits(called, ops);
        AdvanceInv(ApplyAll(called, ops));
        var s1 := Advance(ApplyAll(called, ops));
        forall i | from <= i < |s1.log| && s1.log[i].Called?
          ensures s1.log[i].index == index
        {
          assert s1.log[i] == called.log[i];
        }
        CallsCarryIndex(s1, from, event, index, rest);
        assert Walk(s, event, index, script) == Walk(s1, event, index, rest);
      }
    }
  }

  lemma NewsCarryIndex(log: seq<Event>, news: seq<Event>, w: State, index: nat)
    requires log + news == w.log + FreeAll(w.dead)
    requires CarryIndex(w.log, |log|, index)
    ensures forall i :: 0 <= i < |news| && news[i].Called? ==> news[i].index == index
  {
    forall i | 0 <= i < |news| && news[i].Called?
      ensures news[i].index == index
    {
      var k := |log| + i;
      assert (log + news)[k] == news[i];
    }
  }

  /** Every entry that a dispatch calls, still registered at its end or not, is registered for this very
      event, with a callback, for this controller or for any (0xFFFF), and is told the controller. */
  lemma OnlyItsAudience(actions: seq<Action>, event: nat, index: nat, script: seq<seq<Op>>) returns (news: seq<Event>)
    ensures var s := Run(actions);
            var s', w := Dispatch(s, event, index, script), Walk(Enter(s), event, index, script);
            && s'.log == s.log + news
            && (forall c :: c in Calls(news) ==>
                  exists e :: e in w.live + w.dead && e.serial == c
                    && e.event == event && e.hasCallback && (e.index == index || e.index == 0xFFFF))
            && (forall i :: 0 <= i < |news| && news[i].Called? ==> news[i].index == index)
  {
    news := DispatchOutcome(actions, event, index, script);
    var s := Run(actions);
    var w := Walk(Enter(s), event, index, script);
    RunInv(actions);
    EnterInv(s);
    CallsCarryIndex(Enter(s), |s.log|, event, index, script);
    NewsCarryIndex(s.log, news, w, index);
    forall c | c in Calls(news)
      ensures exists e :: e in w.live + w.dead && e.serial == c
                && e.event == event && e.hasCallback && (e.index == index || e.index == 0xFFFF)
    {
      assert Known(w, c, event, index);
      var e :| e in w.live + w.dead && e.serial == c && Eligible(e, event, index);
      assert e.event == event;
    }
  }

  /** Of the entries still registered after a dispatch that is not cut short exactly those are called. */
  lemma WholeAudience(actions: seq<Action>, event: nat, index: nat, script: seq<seq<Op>>) returns (news: seq<Event>)
    requires WalkGuarded(Enter(Run(actions)), event, index, script)
    ensures var s := Run(actions);
            var s' := Dispatch(s, event, index, script);
            && s'.log == s.log + news
            && (forall i :: 0 <= i < |s'.live| ==>
                  (s'.live[i].serial in Calls(news) <==>
                   s'.live[i].event == event && s'.live[i].hasCallback
                   && (s'.live[i].index == index || s'.live[i].index == 0xFFFF)))
  {
    news := DispatchOutcome(actions, event, index, script);
  }

  /** A registration for an event adds one entry at the end, for this event and controller, not yet
      destroyed; one without an event is refused. */
  lemma RegistersIts(s: State, event: nat, index: nat, hasCallback: bool)
    ensures var s' := Apply(s, Register(event, index, hasCallback));
            if event == 0 then s' == s
            else
              && |s'.live| == |s.live| + 1 && s.live <= s'.live && s'.log == s.log && s'.dead == s.dead
              && var e := s'.live[|s.live|];
                 && e.serial == s.accepted && e.event == event && e.index == index
                 && e.hasCallback == hasCallback && !e.destroyed && e.id != 0
                 && (s.nextId != 0 ==> e.id == s.nextId)
  {
  }

  // ---------------------------------------------------------------- three entries

  /** One registration for this event and any controller, one for another event, one for another controller. */
  function ThreeEntries(): seq<Action> {
    [Call(Register(5, 0xFFFF, true))] + [Call(Register(6, 0, true))] + [Call(Register(5, 1, true))]
  }

  lemma RunNext(actions: seq<Action>, a: Action)
    ensures Run(actions + [a]) == Step(Run(actions), a)
  {
    assert (actions + [a])[..|actions|] == actions;
  }

  lemma ThreeEntriesState()
    ensures Run(ThreeEntries()).live == [Entry(0, 1, 5, 0xFFFF, true, false), Entry(1, 2, 6, 0, true, false),
                                         Entry(2, 3, 5, 1, true, false)]
    ensures Run(ThreeEntries()).log == []
  {
    var a, b, c := Call(Register(5, 0xFFFF, true)), Call(Register(6, 0, true)), Call(Register(5, 1, true));
    assert [] + [a] == [a];
    RunNext([], a);
    RunNext([a], b);
    RunNext([a] + [b], c);
  }

  /** An event 5 of controller 0 is told to the first alone. */
  lemma OnlyTheFirst() returns (news: seq<Event>)
    ensures Dispatch(Run(ThreeEntries()), 5, 0, []).log == news
    ensures 0 in Calls(news) && 1 !in Calls(news) && 2 !in Calls(news)
  {
    news := DispatchOutcome(ThreeEntries(), 5, 0, []);
    ThreeEntriesState();
    NothingDone(Enter(Run(ThreeEntries())), 5, 0);
    var s' := Dispatch(Run(ThreeEntries()), 5, 0, []);
    assert s'.live[0].serial == 0 && s'.live[1].serial == 1 && s'.live[2].serial == 2;
  }

  /** Callbacks that do nothing leave the list alone and cut nothing short. */
  lemma {:induction false} NothingDone(s: State, event: nat, index: nat)
    requires InRange(s) && s.inNotify
    ensures Walk(s, event, index, []).live == s.live && CutBy(s, event, index, []) == None
    decreases Left(s)
  {
    if !s.cursor.Stop? {
      if !WillCall(s, event, index) {
        NothingDone(Advance(s), event, index);
      } else {
        NothingDone(Advance(CallCurrent(s, index, [])), event, index);
      }
    }
  }
}
