/** The staged test runner. Every stage of a case is a function that reports back by one completion
    call, at once or later; in between, idle callbacks lead from stage to stage. Timeouts are off. */
module CaseRunner {
  import opened Options

  datatype Stage = Invalid | PreSetup | Setup | RunStage | Teardown | PostTeardown

  datatype Verdict = NotRun | Passed | Failed

  datatype Callback = SetupCallback(c: nat) | RunCallback(c: nat) | TeardownCallback(c: nat) | DoneCallback(c: nat)

  /** A stage function of a case being called. */
  datatype Call = Call(stage: Stage, c: nat)

  /** `owed` counts the stage functions that have been called and have not reported back. `active` is
      what has been called for the current case, `finished` what was called for each case done. */
  datatype State = State(
    current: Option<nat>,
    stages: seq<Stage>,
    verdicts: seq<Verdict>,
    idle: seq<Callback>,
    owed: nat,
    active: seq<Call>,
    finished: seq<seq<Call>>,
    quit: bool)

  datatype Report =
    | PreSetupComplete | PreSetupFailed
    | SetupComplete | SetupFailed
    | CasePassed | CaseFailed
    | TeardownComplete | TeardownFailed
    | PostTeardownComplete | PostTeardownFailed

  function StageOf(r: Report): Stage {
    match r
    case PreSetupComplete => PreSetup
    case PreSetupFailed => PreSetup
    case SetupComplete => Setup
    case SetupFailed => Setup
    case CasePassed => RunStage
    case CaseFailed => RunStage
    case TeardownComplete => Teardown
    case TeardownFailed => Teardown
    case PostTeardownComplete => PostTeardown
    case PostTeardownFailed => PostTeardown
  }

  predicate Shaped(s: State) {
    && |s.stages| == |s.verdicts|
    && (s.current.Some? ==> s.current.value < |s.stages|)
    && forall i :: 0 <= i < |s.idle| ==> s.idle[i].c < |s.stages|
  }

  // ---------------------------------------------------------------- the runner

  /** A stage function is called: the case is in that stage and owes a report. */
  function Enter(s: State, c: nat, stage: Stage): State
    requires c < |s.stages|
  {
    s.(stages := s.stages[c := stage], owed := s.owed + 1, active := s.active + [Call(stage, c)])
  }

  function Schedule(s: State, cb: Callback): State {
    s.(idle := s.idle + [cb])
  }

  function SetStage(s: State, c: nat, stage: Stage): State
    requires c < |s.stages|
  {
    s.(stages := s.stages[c := stage])
  }

  function NextCase(s: State): State
    requires Shaped(s)
  {
    var next := if s.current.Some? then s.current.value + 1 else 0;
    if next < |s.stages| then Enter(s.(current := Some(next)), next, PreSetup)
    else s.(current := None, quit := true)
  }

  /** The part of a report that depends on which one it is; its stage is the current one. */
  function Take(s: State, c: nat, r: Report): State
    requires c < |s.stages| == |s.verdicts|
  {
    match r
    case PreSetupComplete => Schedule(s, SetupCallback(c))
    case PreSetupFailed => Schedule(SetStage(s, c, Setup), DoneCallback(c))
    case SetupComplete => Schedule(s, RunCallback(c))
    case SetupFailed => Schedule(s, DoneCallback(c))
    case CasePassed => Schedule(s.(verdicts := s.verdicts[c := Passed]), TeardownCallback(c))
    case CaseFailed => Schedule(s.(verdicts := s.verdicts[c := Failed]), TeardownCallback(c))
    case TeardownComplete => Enter(s, c, PostTeardown)
    case TeardownFailed => Schedule(SetStage(s, c, PostTeardown), DoneCallback(c))
    case PostTeardownComplete => Schedule(s, DoneCallback(c))
    case PostTeardownFailed => Schedule(s, DoneCallback(c))
  }

  /** A report counts when the current case is in its stage. */
  predicate Counts(s: State, r: Report)
    requires Shaped(s)
  {
    s.current.Some? && s.stages[s.current.value] == StageOf(r)
  }

  function OneLess(n: nat): nat {
    if n > 0 then n - 1 else 0
  }

  function Receive(s: State, r: Report): State
    requires Shaped(s)
  {
    if !Counts(s, r) then s else Take(s.(owed := OneLess(s.owed)), s.current.value, r)
  }

  function Dispatch(s: State): State
    requires Shaped(s)
  {
    if s.idle == [] then s
    else
      var s', c := s.(idle := s.idle[1..]), s.idle[0].c;
      match s.idle[0]
      case SetupCallback(_) => Enter(s', c, Setup)
      case RunCallback(_) => Enter(s', c, RunStage)
      case TeardownCallback(_) => Enter(s', c, Teardown)
      case DoneCallback(_) => NextCase(s'.(finished := s'.finished + [s'.active], active := []))
  }

  function Fresh(n: nat): State {
    State(None, seq(n, _ => Invalid), seq(n, _ => NotRun), [], 0, [], [], false)
  }

  function Start(n: nat): (s: State)
    ensures Shaped(s)
  {
    NextCase(Fresh(n))
  }

  datatype Action = Reports(r: Report) | Idle

  function Step(s: State, a: Action): (s': State)
    requires Shaped(s)
    ensures Shaped(s') && |s'.stages| == |s.stages|
  {
    match a
    case Reports(r) => Receive(s, r)
    case Idle => Dispatch(s)
  }

  function Run(n: nat, actions: seq<Action>): (s: State)
    ensures Shaped(s) && |s.stages| == n
    decreases |actions|
  {
    if actions == [] then Start(n) else Step(Run(n, actions[..|actions| - 1]), actions[|actions| - 1])
  }

  // ---------------------------------------------------------------- one token

  /** A report that counts is owed. */
  predicate Disciplined(s: State, a: Action)
    requires Shaped(s)
  {
    a.Reports? && Counts(s, a.r) ==> s.owed > 0
  }

  predicate DisciplinedRun(n: nat, actions: seq<Action>)
    decreases |actions|
  {
    actions != [] ==>
      var init := actions[..|actions| - 1];
      DisciplinedRun(n, init) && Disciplined(Run(n, init), actions[|actions| - 1])
  }

  function Rank(stage: Stage): nat {
    match stage
    case Invalid => 0
    case PreSetup => 1
    case Setup => 2
    case RunStage => 3
    case Teardown => 4
    case PostTeardown => 5
  }

  /** What has been called for case c when it has got as far as this stage. */
  function Path(c: nat, stage: Stage): seq<Call>
    decreases Rank(stage)
  {
    match stage
    case Invalid => []
    case PreSetup => [Call(PreSetup, c)]
    case Setup => Path(c, PreSetup) + [Call(Setup, c)]
    case RunStage => Path(c, Setup) + [Call(RunStage, c)]
    case Teardown => Path(c, RunStage) + [Call(Teardown, c)]
    case PostTeardown => Path(c, Teardown) + [Call(PostTeardown, c)]
  }

  /** The ways a case can end: given up before its test, or after its teardown. */
  predicate Complete(c: nat, calls: seq<Call>) {
    calls in {Path(c, PreSetup), Path(c, Setup), Path(c, Teardown), Path(c, PostTeardown)}
  }

  /** The single continuation fits the stage: an owed report for the stage function last called, or
      the callback that leads on from it. */
  predicate Token(s: State, c: nat)
    requires c < |s.stages|
  {
    var stage := s.stages[c];
    if s.owed == 1 && s.idle == [] then stage != Invalid && s.active == Path(c, stage)
    else
      && s.owed == 0 && |s.idle| == 1 && s.idle[0].c == c
      && match s.idle[0]
         case SetupCallback(_) => stage == PreSetup && s.active == Path(c, PreSetup)
         case RunCallback(_) => stage == Setup && s.active == Path(c, Setup)
         case TeardownCallback(_) => stage == RunStage && s.active == Path(c, RunStage)
         case DoneCallback(_) => Complete(c, s.active)
  }

  predicate AllComplete(finished: seq<seq<Call>>) {
    forall i :: 0 <= i < |finished| ==> Complete(i, finished[i])
  }

  /** Cases whose turn has not come are untouched. */
  predicate LaterInvalid(s: State) {
    forall k :: |s.finished| < k < |s.stages| ==> s.stages[k] == Invalid
  }

  predicate Single(s: State) {
    && Shaped(s) && AllComplete(s.finished) && LaterInvalid(s)
    && match s.current
       case Some(c) => !s.quit && |s.finished| == c && Token(s, c)
       case None => s.quit && s.owed == 0 && s.idle == [] && s.active == [] && |s.finished| == |s.stages|
  }

  lemma NextCaseSingle(s: State)
    requires Shaped(s) && AllComplete(s.finished) && s.idle == [] && s.owed == 0 && s.active == [] && !s.quit
    requires |s.finished| == if s.current.Some? then s.current.value + 1 else 0
    requires forall k :: |s.finished| <= k < |s.stages| ==> s.stages[k] == Invalid
    ensures Single(NextCase(s))
  {
    if |s.finished| < |s.stages| {
      assert [] + [Call(PreSetup, |s.finished|)] == Path(|s.finished|, PreSetup);
    }
  }

  lemma TakeSingle(s: State, r: Report)
    requires Single(s) && Counts(s, r) && s.owed > 0
    ensures Single(Receive(s, r))
  {
    var c := s.current.value;
    if r.PreSetupFailed? || r.SetupFailed? || r.TeardownFailed? || r.PostTeardownComplete? || r.PostTeardownFailed? {
      assert Complete(c, s.active);
    }
  }

  lemma DispatchSingle(s: State)
    requires Single(s)
    ensures Single(Dispatch(s))
  {
    if s.idle != [] {
      var c := s.current.value;
      if s.idle[0].DoneCallback? {
        NextCaseSingle(s.(idle := [], finished := s.finished + [s.active], active := []));
      }
    }
  }

  /** From a state with one continuation a step leads to one with one continuation exactly when it is
      disciplined; an undisciplined report leaves two. */
  lemma SingleStepIff(s: State, a: Action)
    requires Single(s)
    ensures Single(Step(s, a)) <==> Disciplined(s, a)
  {
    if a.Idle? {
      DispatchSingle(s);
    } else if Counts(s, a.r) {
      if s.owed > 0 {
        TakeSingle(s, a.r);
      } else {
        UnrulyDoubles(s, a.r);
      }
    }
  }

  /** No case ever goes back a stage. */
  lemma StagesAdvance(s: State, a: Action, k: nat)
    requires Single(s) && Disciplined(s, a) && k < |s.stages|
    ensures Rank(Step(s, a).stages[k]) >= Rank(s.stages[k])
  {
    if a.Idle? && s.idle != [] && s.idle[0].DoneCallback? {
      assert s.current.value == |s.finished|;
    }
  }

  lemma UnrulyDoubles(s: State, r: Report)
    requires Single(s) && Counts(s, r) && s.owed == 0
    ensures var s' := Receive(s, r);
            s'.owed + |s'.idle| == 2 && !Single(s')
  {
  }

  lemma {:induction false} SingleAlways(n: nat, actions: seq<Action>)
    requires DisciplinedRun(n, actions)
    ensures Single(Run(n, actions))
    decreases |actions|
  {
    if actions == [] {
      NextCaseSingle(Fresh(n));
    } else {
      SingleAlways(n, actions[..|actions| - 1]);
      SingleStepIff(Run(n, actions[..|actions| - 1]), actions[|actions| - 1]);
    }
  }

  /** At every moment of a disciplined run there is exactly one continuation, until the loop quits;
      cases run in list order, and the loop quits exactly when the last one is done. */
  lemma OneContinuation(n: nat, actions: seq<Action>)
    requires DisciplinedRun(n, actions)
    ensures var s := Run(n, actions);
            && s.owed + |s.idle| == (if s.quit then 0 else 1)
            && (s.quit <==> |s.finished| == n)
            && (!s.quit ==> s.current == Some(|s.finished|))
  {
    SingleAlways(n, actions);
  }

  predicate OneThroughout(n: nat, actions: seq<Action>)
    decreases |actions|
  {
    && (var s := Run(n, actions); s.owed + |s.idle| == if s.quit then 0 else 1)
    && (actions != [] ==> OneThroughout(n, actions[..|actions| - 1]))
  }

  /** And no longer: a run has one continuation at every moment exactly if it is disciplined. */
  lemma {:induction false} OneThroughoutIff(n: nat, actions: seq<Action>)
    ensures OneThroughout(n, actions) <==> DisciplinedRun(n, actions)
    decreases |actions|
  {
    if actions == [] {
      OneContinuation(n, actions);
    } else {
      var init, a := actions[..|actions| - 1], actions[|actions| - 1];
      OneThroughoutIff(n, init);
      if DisciplinedRun(n, init) {
        SingleAlways(n, init);
        if Disciplined(Run(n, init), a) { OneContinuation(n, actions); } else { UnrulyDoubles(Run(n, init), a.r); }
      }
    }
  }

  function Times(calls: seq<Call>, stage: Stage): nat {
    if calls == [] then 0 else Times(calls[..|calls| - 1], stage) + (if calls[|calls| - 1].stage == stage then 1 else 0)
  }

  lemma TimesOne(calls: seq<Call>, call: Call, stage: Stage)
    ensures Times(calls + [call], stage) == Times(calls, stage) + (if call.stage == stage then 1 else 0)
  {
    assert (calls + [call])[..|calls|] == calls;
  }

  lemma {:induction false} PathTimes(c: nat, upTo: Stage, stage: Stage)
    ensures Times(Path(c, upTo), stage) == if 1 <= Rank(stage) <= Rank(upTo) then 1 else 0
    ensures forall i :: 0 <= i < |Path(c, upTo)| ==> Path(c, upTo)[i].c == c
    decreases Rank(upTo)
  {
    match upTo
    case Invalid =>
    case PreSetup => TimesOne([], Call(PreSetup, c), stage); assert [] + [Call(PreSetup, c)] == Path(c, PreSetup);
    case Setup => PathTimes(c, PreSetup, stage); TimesOne(Path(c, PreSetup), Call(Setup, c), stage);
    case RunStage => PathTimes(c, Setup, stage); TimesOne(Path(c, Setup), Call(RunStage, c), stage);
    case Teardown => PathTimes(c, RunStage, stage); TimesOne(Path(c, RunStage), Call(Teardown, c), stage);
    case PostTeardown => PathTimes(c, Teardown, stage); TimesOne(Path(c, Teardown), Call(PostTeardown, c), stage);
  }

  /** The stage a complete case ended in. */
  lemma Ending(c: nat, calls: seq<Call>) returns (last: Stage)
    requires Complete(c, calls)
    ensures last in {PreSetup, Setup, Teardown, PostTeardown} && calls == Path(c, last)
  {
    last := if calls == Path(c, PreSetup) then PreSetup
      else if calls == Path(c, Setup) then Setup
      else if calls == Path(c, Teardown) then Teardown
      else PostTeardown;
  }

  /** Of a finished case every stage function was called at most once, the teardown exactly if the test
      itself was run. */
  lemma TeardownIffRun(n: nat, actions: seq<Action>, c: nat, stage: Stage)
    requires DisciplinedRun(n, actions) && c < |Run(n, actions).finished|
    ensures var calls := Run(n, actions).finished[c];
            && Times(calls, stage) <= 1
            && Times(calls, PreSetup) == 1
            && Times(calls, Teardown) == Times(calls, RunStage)
            && forall i :: 0 <= i < |calls| ==> calls[i].c == c
  {
    SingleAlways(n, actions);
    var last := Ending(c, Run(n, actions).finished[c]);
    PathTimes(c, last, stage);
    PathTimes(c, last, PreSetup);
    PathTimes(c, last, RunStage);
    PathTimes(c, last, Teardown);
  }

  /** A stage function that reports twice leaves two callbacks for the same case. */
  lemma DoubleReportDoubles(n: nat)
    requires n > 0
    ensures Run(n, [Reports(PreSetupComplete), Reports(PreSetupComplete)]).idle ==
            [SetupCallback(0), SetupCallback(0)]
  {
    var twice := [Reports(PreSetupComplete), Reports(PreSetupComplete)];
    assert twice[..1] == [Reports(PreSetupComplete)] && twice[..1][..0] == [];
    assert Run(n, twice[..1]) == Step(Start(n), Reports(PreSetupComplete));
    assert Run(n, twice[..1]).idle == [SetupCallback(0)];
  }

  // ---------------------------------------------------------------- verdicts

  predicate Judged(calls: seq<Call>, verdict: Verdict) {
    verdict != NotRun <==> Times(calls, Teardown) == 1
  }

  /** A verdict is given on the way to the teardown, and never taken back. */
  predicate Verdicts(s: State)
    requires Single(s)
  {
    && (forall c :: 0 <= c < |s.finished| ==> Judged(s.finished[c], s.verdicts[c]))
    && (forall c :: |s.finished| < c < |s.stages| ==> s.verdicts[c] == NotRun)
    && match s.current
       case None => true
       case Some(c) =>
         if s.idle != [] && s.idle[0].TeardownCallback? then s.verdicts[c] != NotRun
         else Judged(s.active, s.verdicts[c])
  }

  lemma PathJudged(c: nat)
    ensures Times(Path(c, PreSetup), Teardown) == 0 && Times(Path(c, Setup), Teardown) == 0
    ensures Times(Path(c, RunStage), Teardown) == 0
    ensures Times(Path(c, Teardown), Teardown) == 1 && Times(Path(c, PostTeardown), Teardown) == 1
  {
    PathTimes(c, PreSetup, Teardown);
    PathTimes(c, Setup, Teardown);
    PathTimes(c, RunStage, Teardown);
    PathTimes(c, Teardown, Teardown);
    PathTimes(c, PostTeardown, Teardown);
  }

  lemma VerdictsWhenDone(s: State)
    requires Single(s) && Verdicts(s) && s.idle != [] && s.idle[0].DoneCallback? && Single(Dispatch(s))
    ensures Verdicts(Dispatch(s))
  {
    var s', c := Dispatch(s), s.current.value;
    assert s'.verdicts == s.verdicts && s'.finished == s.finished + [s.active];
    if s'.current.Some? { PathJudged(c + 1); }
  }

  lemma VerdictsWhenEntering(s: State)
    requires Single(s) && Verdicts(s) && s.idle != [] && !s.idle[0].DoneCallback? && Single(Dispatch(s))
    ensures Verdicts(Dispatch(s))
  {
    PathJudged(s.current.value);
  }

  /** Reports that schedule a callback, other than the test's own, keep what was called and judged. */
  lemma VerdictsWhenScheduled(s: State, r: Report)
    requires Single(s) && Verdicts(s) && Counts(s, r) && s.owed > 0 && Single(Receive(s, r))
    requires !r.CasePassed? && !r.CaseFailed? && !r.TeardownComplete?
    ensures Verdicts(Receive(s, r))
  {
    var s' := Receive(s, r);
    assert s'.verdicts == s.verdicts && s'.active == s.active && s'.finished == s.finished;
  }

  lemma VerdictsWhenReported(s: State, r: Report)
    requires Single(s) && Verdicts(s) && Counts(s, r) && s.owed > 0 && Single(Receive(s, r))
    ensures Verdicts(Receive(s, r))
  {
    var s', c := Receive(s, r), s.current.value;
    if r.TeardownComplete? {
      PathJudged(c);
      assert s'.verdicts == s.verdicts && s'.active == Path(c, PostTeardown);
    } else if r.CasePassed? || r.CaseFailed? {
      assert forall k :: 0 <= k < |s.verdicts| && k != c ==> s'.verdicts[k] == s.verdicts[k];
    } else {
      VerdictsWhenScheduled(s, r);
    }
  }

  lemma VerdictsStep(s: State, a: Action)
    requires Single(s) && Verdicts(s) && Disciplined(s, a)
    ensures Single(Step(s, a)) && Verdicts(Step(s, a))
  {
    SingleStepIff(s, a);
    if a.Idle? {
      if s.idle != [] {
        if s.idle[0].DoneCallback? { VerdictsWhenDone(s); } else { VerdictsWhenEntering(s); }
      }
    } else if Counts(s, a.r) {
      VerdictsWhenReported(s, a.r);
    }
  }

  lemma {:induction false} VerdictsAlways(n: nat, actions: seq<Action>)
    requires DisciplinedRun(n, actions)
    ensures Single(Run(n, actions)) && Verdicts(Run(n, actions))
    decreases |actions|
  {
    SingleAlways(n, actions);
    if actions == [] {
      PathJudged(0);
    } else {
      VerdictsAlways(n, actions[..|actions| - 1]);
      VerdictsStep(Run(n, actions[..|actions| - 1]), actions[|actions| - 1]);
    }
  }

  /** A finished case has a verdict exactly if its test was run; the others count as not run. */
  lemma VerdictIffRun(n: nat, actions: seq<Action>, c: nat)
    requires DisciplinedRun(n, actions) && c < |Run(n, actions).finished|
    ensures var s := Run(n, actions);
            c < n && (s.verdicts[c] == NotRun <==> Times(s.finished[c], RunStage) == 0)
  {
    VerdictsAlways(n, actions);
    TeardownIffRun(n, actions, c, RunStage);
    assert Judged(Run(n, actions).finished[c], Run(n, actions).verdicts[c]);
  }

  /** The verdict a step gives case c: while its test is under way, what the test reports. */
  function Reported(s: State, a: Action, c: nat): Option<Verdict>
    requires c < |s.stages|
  {
    if s.current == Some(c) && s.stages[c] == RunStage && a == Reports(CasePassed) then Some(Passed)
    else if s.current == Some(c) && s.stages[c] == RunStage && a == Reports(CaseFailed) then Some(Failed)
    else None
  }

  function LastReported(n: nat, actions: seq<Action>, c: nat): Verdict
    requires c < n
    decreases |actions|
  {
    if actions == [] then NotRun
    else
      var init := actions[..|actions| - 1];
      var reported := Reported(Run(n, init), actions[|actions| - 1], c);
      if reported.Some? then reported.value else LastReported(n, init, c)
  }

  lemma VerdictStep(s: State, a: Action, c: nat)
    requires Shaped(s) && c < |s.stages|
    ensures Step(s, a).verdicts[c] == if Reported(s, a, c).Some? then Reported(s, a, c).value else s.verdicts[c]
  {
    if a.Reports? && Counts(s, a.r) { ReceiveVerdict(s, a.r, c); }
  }

  lemma ReceiveVerdict(s: State, r: Report, c: nat)
    requires Shaped(s) && c < |s.stages| && Counts(s, r)
    ensures Receive(s, r).verdicts ==
            if r.CasePassed? then s.verdicts[s.current.value := Passed]
            else if r.CaseFailed? then s.verdicts[s.current.value := Failed] else s.verdicts
  {
  }

  /** Over any run, disciplined or not, a case has the verdict its test last reported while it was under way. */
  lemma {:induction false} VerdictIsReported(n: nat, actions: seq<Action>, c: nat)
    requires c < n
    ensures Run(n, actions).verdicts[c] == LastReported(n, actions, c)
    decreases |actions|
  {
    if actions != [] {
      VerdictIsReported(n, actions[..|actions| - 1], c);
      VerdictStep(Run(n, actions[..|actions| - 1]), actions[|actions| - 1], c);
    }
  }

  // ---------------------------------------------------------------- progress

  /** How much is left to do at most. */
  function Left(s: State): int
    requires Single(s)
  {
    match s.current
    case None => 0
    case Some(c) =>
      12 * (|s.stages| - c)
      - if s.idle != [] && s.idle[0].DoneCallback? then 11 else 2 * Rank(s.stages[c]) - s.owed
  }

  /** Every disciplined step that does anything brings the end closer, so the runner cannot go on for
      ever; and until the end there is always one that does. */
  lemma StepsLead(s: State, a: Action)
    requires Single(s) && Disciplined(s, a)
    ensures Single(Step(s, a)) && 0 <= Left(s)
    ensures Step(s, a) != s ==> Left(Step(s, a)) < Left(s)
    ensures Left(s) == 0 <==> s.quit
  {
    SingleStepIff(s, a);
  }

  lemma NeverStuck(s: State)
    requires Single(s) && !s.quit
    ensures exists a :: Disciplined(s, a) && Step(s, a) != s
  {
    var c := s.current.value;
    if s.idle != [] {
      StepsLead(s, Idle);
      DispatchMoves(s);
      assert Step(s, Idle) != s;
    } else {
      var r := match s.stages[c]
        case PreSetup => PreSetupComplete
        case Setup => SetupComplete
        case RunStage => CasePassed
        case Teardown => TeardownComplete
        case _ => PostTeardownComplete;
      assert Counts(s, r);
      assert Step(s, Reports(r)) != s;
    }
  }

  lemma DispatchMoves(s: State)
    requires Single(s) && s.idle != []
    ensures Dispatch(s) != s
  {
    var c := s.current.value;
    if s.idle[0].DoneCallback? {
      assert |Dispatch(s).finished| == |s.finished| + 1;
    } else {
      assert Dispatch(s).owed == s.owed + 1;
    }
  }
}
