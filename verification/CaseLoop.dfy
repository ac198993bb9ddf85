/** The test runner as the source writes it: the list cursor, the cases' stages and the queue of idle
    callbacks are changed by the callbacks themselves. Every entry performs one step of `CaseRunner`. */
module CaseLoop {
  import opened Options
  import opened CaseRunner
  import Spec = CaseRunner

  class Runner {
    const stages: array<Stage>
    const verdicts: array<Verdict>
    var current: Option<nat>
    var idle: seq<Callback>
    var quit: bool
    ghost var owed: nat
    ghost var active: seq<Call>
    ghost var finished: seq<seq<Call>>

    ghost function View(): State
      reads this, stages, verdicts
    {
      State(current, stages[..], verdicts[..], idle, owed, active, finished, quit)
    }

    ghost predicate Valid()
      reads this, stages, verdicts
    {
      Shaped(View())
    }

    constructor (n: nat)
      ensures View() == Fresh(n) && fresh(stages) && fresh(verdicts)
    {
      stages := new Stage[n](_ => Invalid);
      verdicts := new Verdict[n](_ => NotRun);
      current, idle, quit := None, [], false;
      owed, active, finished := 0, [], [];
      new;
      assert stages[..] == seq(n, _ => Invalid);
      assert verdicts[..] == seq(n, _ => NotRun);
    }

    /** The stage is noted and the case's own function is called. */
    method Enter(c: nat, stage: Stage)
      requires c < stages.Length
      modifies this`owed, this`active, stages
      ensures View() == Spec.Enter(old(View()), c, stage)
    {
      stages[c] := stage;
      owed := owed + 1;
      active := active + [Call(stage, c)];
    }

    method IdleAdd(cb: Callback)
      modifies this`idle
      ensures View() == Schedule(old(View()), cb)
    {
      idle := idle + [cb];
    }

    method NextCase()
      requires Valid()
      modifies this, stages
      ensures View() == Spec.NextCase(old(View()))
    {
      var next := 0;
      if current.Some? { next := current.value + 1; }
      if next >= stages.Length {
        current := None;
        quit := true;
        return;
      }
      current := Some(next);
      Enter(next, PreSetup);
    }

    method Start()
      requires View() == Fresh(stages.Length)
      modifies this, stages
      ensures View() == Spec.Start(stages.Length)
    {
      NextCase();
    }

    /** The main loop runs the callback at the head of its queue. */
    method RunIdle()
      requires Valid()
      modifies this, stages
      ensures View() == Dispatch(old(View()))
    {
      if idle == [] { return; }
      var cb := idle[0];
      idle := idle[1..];
      match cb {
        case SetupCallback(c) => Enter(c, Setup);
        case RunCallback(c) => Enter(c, RunStage);
        case TeardownCallback(c) => Enter(c, Teardown);
        case DoneCallback(_) =>
          finished, active := finished + [active], [];
          NextCase();
      }
    }

    method PreSetupComplete()
      requires Valid()
      modifies this
      ensures View() == Receive(old(View()), Report.PreSetupComplete)
    {
      if current.None? || stages[current.value] != PreSetup { return; }
      owed := OneLess(owed);
      IdleAdd(SetupCallback(current.value));
    }

    method PreSetupFailed()
      requires Valid()
      modifies this, stages
      ensures View() == Receive(old(View()), Report.PreSetupFailed)
    {
      if current.None? || stages[current.value] != PreSetup { return; }
      stages[current.value] := Setup;
      SetupFailed();
    }

    method SetupComplete()
      requires Valid()
      modifies this
      ensures View() == Receive(old(View()), Report.SetupComplete)
    {
      if current.None? || stages[current.value] != Setup { return; }
      owed := OneLess(owed);
      IdleAdd(RunCallback(current.value));
    }

    method SetupFailed()
      requires Valid()
      modifies this
      ensures View() == Receive(old(View()), Report.SetupFailed)
    {
      if current.None? || stages[current.value] != Setup { return; }
      owed := OneLess(owed);
      IdleAdd(DoneCallback(current.value));
    }

    method ReportVerdict(passed: bool)
      requires Valid()
      modifies this, verdicts
      ensures View() == Receive(old(View()), if passed then CasePassed else CaseFailed)
    {
      if current.None? || stages[current.value] != RunStage { return; }
      verdicts[current.value] := if passed then Passed else Failed;
      owed := OneLess(owed);
      IdleAdd(TeardownCallback(current.value));
    }

    method TeardownComplete()
      requires Valid()
      modifies this, stages
      ensures View() == Receive(old(View()), Report.TeardownComplete)
    {
      if current.None? || stages[current.value] != Teardown { return; }
      owed := OneLess(owed);
      Enter(current.value, PostTeardown);
    }

    method TeardownFailed()
      requires Valid()
      modifies this, stages
      ensures View() == Receive(old(View()), Report.TeardownFailed)
    {
      if current.None? || stages[current.value] != Teardown { return; }
      stages[current.value] := PostTeardown;
      PostTeardownDone();
    }

    /** Completion and failure of the last stage lead on alike. */
    method PostTeardownDone()
      requires Valid()
      modifies this
      ensures View() == Receive(old(View()), PostTeardownComplete)
      ensures View() == Receive(old(View()), PostTeardownFailed)
    {
      if current.None? || stages[current.value] != PostTeardown { return; }
      owed := OneLess(owed);
      IdleAdd(DoneCallback(current.value));
    }
  }
}
