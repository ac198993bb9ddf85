/** What holds over every run of the request half of the management client. */
module MgmtRequestLaws {
  import opened MgmtRequests
  import opened Counting
  import Arithmetic

  lemma RunStep(actions: seq<Action>, a: Action)
    ensures Run(actions + [a]) == Step(Run(actions), a)
  {
    assert (actions + [a])[..|actions|] == actions;
  }

  // ---------------------------------------------------------------- no stall

  predicate NoStall(s: State) {
    s.requestQueue != [] || s.replyQueue != [] ==> s.writeWatch || s.pending != []
  }

  predicate SomeOther(xs: seq<Request>, index: nat) {
    exists i :: 0 <= i < |xs| && xs[i].index != index
  }

  lemma {:induction false} OtherIndexNonEmpty(xs: seq<Request>, index: nat)
    ensures OtherIndex(xs, index) != [] <==> SomeOther(xs, index)
  {
    if xs != [] {
      OtherIndexNonEmpty(xs[1..], index);
      if SomeOther(xs, index) {
        var i :| 0 <= i < |xs| && xs[i].index != index;
        assert i > 0 ==> xs[1..][i - 1].index != index;
      }
    }
  }

  /** Exactly when cancelling a controller leaves the client stalled. */
  lemma CancelIndexStallsIff(s: State, index: nat)
    ensures !NoStall(CancelIndex(s, index)) <==>
            !s.writeWatch && !SomeOther(s.pending, index)
            && (SomeOther(s.requestQueue, index) || SomeOther(s.replyQueue, index))
  {
    OtherIndexNonEmpty(s.pending, index);
    OtherIndexNonEmpty(s.requestQueue, index);
    OtherIndexNonEmpty(s.replyQueue, index);
  }

  /** What a caller can check before a step: a hangup finds something pending or nothing queued, and
      cancelling a controller leaves a watch, something pending, or nothing queued. */
  predicate StallGuard(s: State, a: Action) {
    match a
    case WriteReady(hangup, _) =>
      hangup && s.writeWatch && s.pending == [] ==> s.requestQueue == [] && s.replyQueue == []
    case DoCancelIndex(index) =>
      !s.writeWatch && !SomeOther(s.pending, index) ==>
        !SomeOther(s.requestQueue, index) && !SomeOther(s.replyQueue, index)
    case _ => true
  }

  /** From a state that does not stall, a step leads to one that does exactly when its guard fails. */
  lemma StepStallsIff(s: State, a: Action)
    requires NoStall(s)
    ensures NoStall(Step(s, a)) <==> StallGuard(s, a)
  {
    if a.DoCancelIndex? { CancelIndexStallsIff(s, a.index); }
  }

  /** The two steps that can leave work queued with nobody to pick it up are excluded. */
  predicate KeepsWriter(a: Action) {
    !a.DoCancelIndex? && !(a.WriteReady? && a.hangup)
  }

  lemma {:induction false} NeverStalls(actions: seq<Action>)
    requires forall i :: 0 <= i < |actions| ==> KeepsWriter(actions[i])
    ensures NoStall(Run(actions))
  {
    if actions != [] {
      var last := |actions| - 1;
      NeverStalls(actions[..last]);
      assert KeepsWriter(actions[last]);
      StepStallsIff(Run(actions[..last]), actions[last]);
    }
  }

  predicate NoStallThroughout(actions: seq<Action>) {
    NoStall(Run(actions)) && (actions != [] ==> NoStallThroughout(actions[..|actions| - 1]))
  }

  predicate StallGuarded(actions: seq<Action>) {
    actions != [] ==>
      StallGuarded(actions[..|actions| - 1]) && StallGuard(Run(actions[..|actions| - 1]), actions[|actions| - 1])
  }

  /** A client never stalls during a run exactly if every step of it was guarded. */
  lemma {:induction false} NeverStallsIff(actions: seq<Action>)
    ensures NoStallThroughout(actions) <==> StallGuarded(actions)
  {
    if actions != [] {
      var init := actions[..|actions| - 1];
      NeverStallsIff(init);
      if NoStall(Run(init)) { StepStallsIff(Run(init), actions[|actions| - 1]); }
    }
  }

  // ---------------------------------------------------------------- replies need not wait, but can

  predicate Finds(s: State, a: Action) {
    match a
    case DoSend(c) => Acceptable(c)
    case DoReply(c) => Acceptable(c)
    case Response(_, opcode, index) => LookupPending(s, opcode, index) < |s.pending|
    case DoCancel(id) =>
      id != 0 && (FindId(s.requestQueue, id) < |s.requestQueue| || FindId(s.replyQueue, id) < |s.replyQueue|
                  || FindId(s.pending, id) < |s.pending|)
    case _ => false
  }

  /** Exactly when a reply that waits after a step has its watch armed: a call, response or cancel that
      took effect arms it, a successful write or a hangup disarms it, and anything else leaves it. */
  lemma ReplyArmedIff(s: State, a: Action)
    requires Step(s, a).replyQueue != []
    ensures Step(s, a).writeWatch <==>
            Finds(s, a) || (s.writeWatch && !(a.WriteReady? && (a.hangup || !a.writeFails)))
  {
  }

  predicate ReplyArmed(s: State) {
    s.replyQueue != [] ==> s.writeWatch
  }

  /** The steps that leave a reply waiting unarmed: a hangup while one waits, and a successful write
      while two do. */
  predicate ReplyGuard(s: State, a: Action) {
    a.WriteReady? && s.writeWatch ==>
      if a.hangup then s.replyQueue == [] else a.writeFails || |s.replyQueue| < 2
  }

  lemma ReplyStepIff(s: State, a: Action)
    requires ReplyArmed(s)
    ensures ReplyArmed(Step(s, a)) <==> ReplyGuard(s, a)
  {
    if Step(s, a).replyQueue != [] { ReplyArmedIff(s, a); }
  }

  predicate ReplyArmedThroughout(actions: seq<Action>) {
    ReplyArmed(Run(actions)) && (actions != [] ==> ReplyArmedThroughout(actions[..|actions| - 1]))
  }

  predicate RepliesGuarded(actions: seq<Action>) {
    actions != [] ==>
      RepliesGuarded(actions[..|actions| - 1]) && ReplyGuard(Run(actions[..|actions| - 1]), actions[|actions| - 1])
  }

  /** During a run a waiting reply always has its watch armed exactly if no hangup found one waiting and
      no write succeeded while two were. */
  lemma {:induction false} RepliesArmedIff(actions: seq<Action>)
    ensures ReplyArmedThroughout(actions) <==> RepliesGuarded(actions)
  {
    if actions != [] {
      var init := actions[..|actions| - 1];
      RepliesArmedIff(init);
      if ReplyArmed(Run(init)) { ReplyStepIff(Run(init), actions[|actions| - 1]); }
    }
  }

  lemma TwoReplies(s: State, c: Call, d: Call)
    requires s == Initial && Acceptable(c) && Acceptable(d)
    ensures var s' := SendReply(SendReply(s, c), d);
            |s'.replyQueue| == 2 && s'.writeWatch && s'.pending == []
  {
  }

  lemma WriteLeavesReply(s: State)
    requires |s.replyQueue| >= 2 && s.writeWatch
    ensures var s' := Step(s, WriteReady(false, false));
            s'.replyQueue != [] && !s'.writeWatch && s'.pending != []
  {
  }

  /** Two replies and one write: the second reply waits for the answer to the first. */
  lemma SecondReplyWaits() returns (actions: seq<Action>)
    ensures !ReplyArmed(Run(actions)) && NoStall(Run(actions))
  {
    var a, w := DoReply(Call(3, 0, 0, false, true)), WriteReady(false, false);
    actions := [a] + [a] + [w];
    RunStep([], a);
    RunStep([a], a);
    RunStep([a] + [a], w);
    assert [] + [a] == [a];
    TwoReplies(Initial, a.call, a.call);
    WriteLeavesReply(Run([a] + [a]));
  }

  /** A request for controller 0 is pending, one for controller 1 waits; cancelling controller 0
      leaves the second one queued with no watch and nothing pending. */
  lemma CancelIndexCanStall() returns (actions: seq<Action>)
    ensures !NoStall(Run(actions))
  {
    var a0, a1 := DoSend(Call(3, 0, 0, false, true)), WriteReady(false, false);
    var a2, a3 := DoSend(Call(4, 1, 0, false, true)), DoCancelIndex(0);
    RunStep([], a0);
    RunStep([a0], a1);
    RunStep([a0, a1], a2);
    actions := [a0, a1, a2] + [a3];
    RunStep([a0, a1, a2], a3);
    var s1 := Run([a0]);
    assert [] + [a0] == [a0] && [a0] + [a1] == [a0, a1] && [a0, a1] + [a2] == [a0, a1, a2];
    assert s1.writeWatch && s1.requestQueue == [Request(0, 1, 3, 0, Ordinary, true)];
    var s3 := Run([a0, a1, a2]);
    assert !s3.writeWatch && s3.pending == [Request(0, 1, 3, 0, Ordinary, true)];
    assert s3.requestQueue == [Request(1, 2, 4, 1, Ordinary, true)];
    CancelIndexStallsIff(s3, 0);
    assert SomeOther(s3.requestQueue, 0) by { assert s3.requestQueue[0].index != 0; }
  }

  /** Whatever stalled the client, the next accepted send or reply unstalls it. */
  lemma NextCallRecovers(s: State, c: Call)
    requires Acceptable(c)
    ensures NoStall(Send(s, c)) && NoStall(SendReply(s, c))
    ensures SendReply(s, c).writeWatch
  {
  }

  // ---------------------------------------------------------------- one place for each request

  function Named(serial: nat): Request -> bool {
    (r: Request) => r.serial == serial
  }

  function Destroys(serial: nat): Event -> bool {
    (e: Event) => e.Destroyed? && e.r.serial == serial
  }

  function Destructions(log: seq<Event>, serial: nat): nat {
    Count(log, Destroys(serial))
  }

  /** In how many places the request with this serial is: the two queues, the pending list, and
      the graveyard, each counted with multiplicity. */
  function Places(s: State, serial: nat): nat {
    Count(s.requestQueue, Named(serial)) + Count(s.replyQueue, Named(serial)) + Count(s.pending, Named(serial))
    + Destructions(s.log, serial)
  }

  lemma {:induction false} CountByIndex(xs: seq<Request>, index: nat, serial: nat)
    ensures Count(xs, Named(serial))
         == Count(OtherIndex(xs, index), Named(serial)) + Count(SameIndex(xs, index), Named(serial))
  {
    if xs != [] {
      CountByIndex(xs[1..], index, serial);
      var x := if xs[0].index == index then xs[..1] else [];
      var y := if xs[0].index == index then [] else xs[..1];
      CountAppend(x, SameIndex(xs[1..], index), Named(serial));
      CountAppend(y, OtherIndex(xs[1..], index), Named(serial));
    }
  }

  lemma {:induction false} DestroyAllCount(xs: seq<Request>, serial: nat)
    ensures Destructions(DestroyAll(xs), serial) == Count(xs, Named(serial))
  {
    if xs != [] {
      assert DestroyAll(xs)[1..] == DestroyAll(xs[1..]);
      DestroyAllCount(xs[1..], serial);
    }
  }

  lemma FailureDestroysOnce(r: Request, serial: nat)
    ensures Destructions(FailureEvents(r), serial) == if r.serial == serial then 1 else 0
  {
    var first := if r.hasCallback then [CallbackRun(r, STATUS_FAILED)] else [];
    CountAppend(first, [Destroyed(r)], Destroys(serial));
  }

  lemma WriteOutPlaces(s: State, r: Request, writeFails: bool, serial: nat)
    ensures Places(WriteOut(s, r, writeFails), serial) == Places(s, serial) + if r.serial == serial then 1 else 0
  {
    CountAppend(s.pending, [r], Named(serial));
    CountAppend(s.log, [Written(r)], Destroys(serial));
    CountAppend(s.log, FailureEvents(r), Destroys(serial));
    FailureDestroysOnce(r, serial);
  }

  lemma AnswerPlaces(s: State, status: nat, opcode: nat, index: nat, serial: nat)
    ensures Places(RequestComplete(s, status, opcode, index), serial) == Places(s, serial)
  {
    var i := LookupPending(s, opcode, index);
    if i < |s.pending| {
      CountWithout(s.pending, i, Named(serial));
      CountAppend(s.log, AnswerEvents(s.pending[i], status), Destroys(serial));
      AnswerDestroysOnce(s.pending[i], status, serial);
    }
  }

  lemma CancelIndexPlaces(s: State, index: nat, serial: nat)
    ensures Places(CancelIndex(s, index), serial) == Places(s, serial)
  {
    CountByIndex(s.requestQueue, index, serial);
    CountByIndex(s.replyQueue, index, serial);
    CountByIndex(s.pending, index, serial);
    DestroyAllCount(Dropped(s, index), serial);
    CountAppend(s.log, DestroyAll(Dropped(s, index)), Destroys(serial));
    DroppedCount(s, index, serial);
  }

  lemma CancelAllPlaces(s: State, serial: nat)
    ensures Places(CancelAll(s), serial) == Places(s, serial)
  {
    var gone := s.pending + s.replyQueue + s.requestQueue;
    CountAppend(s.pending, s.replyQueue, Named(serial));
    CountAppend(s.pending + s.replyQueue, s.requestQueue, Named(serial));
    DestroyAllCount(gone, serial);
    CountAppend(s.log, DestroyAll(gone), Destroys(serial));
  }

  lemma WriteReadyPlaces(s: State, hangup: bool, fails: bool, serial: nat)
    ensures Places(Step(s, WriteReady(hangup, fails)), serial) == Places(s, serial)
  {
    if s.replyQueue != [] {
      WriteOutPlaces(s.(replyQueue := s.replyQueue[1..]), s.replyQueue[0], fails, serial);
    } else if s.requestQueue != [] {
      WriteOutPlaces(s.(requestQueue := s.requestQueue[1..]), s.requestQueue[0], fails, serial);
    }
  }

  /** An accepted call, of either kind, adds one request. */
  lemma SendPlaces(s: State, c: Call, serial: nat)
    ensures forall s' :: s' in {Send(s, c), SendReply(s, c)} ==>
              Places(s', serial) == Places(s, serial) + (if s.accepted == serial < s'.accepted then 1 else 0)
  {
    CountAppend(s.requestQueue, [NewRequest(s, c, Ordinary)], Named(serial));
    CountOne(NewRequest(s, c, Ordinary), Named(serial));
    CountAppend(s.replyQueue, [NewRequest(s, c, Reply)], Named(serial));
    CountOne(NewRequest(s, c, Reply), Named(serial));
  }

  /** No step loses or copies a request; an accepted call adds the next serial once. */
  lemma PlacesStep(s: State, a: Action, serial: nat)
    ensures var s' := Step(s, a);
            s.accepted <= s'.accepted <= s.accepted + 1
            && Places(s', serial) == Places(s, serial) + (if s.accepted == serial < s'.accepted then 1 else 0)
  {
    match a
    case DoSend(c) => SendPlaces(s, c, serial);
    case DoReply(c) => SendPlaces(s, c, serial);
    case WriteReady(hangup, fails) => WriteReadyPlaces(s, hangup, fails, serial);
    case Response(status, opcode, index) => AnswerPlaces(s, status, opcode, index, serial);
    case DoCancel(id) => CancelPlaces(s, id, serial);
    case DoCancelIndex(index) => CancelIndexPlaces(s, index, serial);
    case DoCancelAll => CancelAllPlaces(s, serial);
  }

  function Dropped(s: State, index: nat): seq<Request> {
    SameIndex(s.requestQueue, index) + SameIndex(s.replyQueue, index) + SameIndex(s.pending, index)
  }

  lemma DroppedCount(s: State, index: nat, serial: nat)
    ensures Count(Dropped(s, index), Named(serial)) == Count(SameIndex(s.requestQueue, index), Named(serial))
              + Count(SameIndex(s.replyQueue, index), Named(serial)) + Count(SameIndex(s.pending, index), Named(serial))
  {
    var a, b, c := SameIndex(s.requestQueue, index), SameIndex(s.replyQueue, index), SameIndex(s.pending, index);
    CountAppend(a, b, Named(serial));
    CountAppend(a + b, c, Named(serial));
  }

  lemma AnswerDestroysOnce(r: Request, status: nat, serial: nat)
    ensures Destructions(AnswerEvents(r, status), serial) == if r.serial == serial then 1 else 0
  {
    var middle := if r.hasCallback then [CallbackRun(r, status)] else [];
    CountAppend([Answered(r)] + middle, [Destroyed(r)], Destroys(serial));
    CountAppend([Answered(r)], middle, Destroys(serial));
  }

  /** A request taken out of a list and destroyed is counted in the log instead. */
  lemma TakenOut(xs: seq<Request>, i: nat, log: seq<Event>, serial: nat)
    requires i < |xs|
    ensures Count(Without(xs, i), Named(serial)) + Destructions(log + [Destroyed(xs[i])], serial)
         == Count(xs, Named(serial)) + Destructions(log, serial)
  {
    CountWithout(xs, i, Named(serial));
    CountAppend(log, [Destroyed(xs[i])], Destroys(serial));
    CountOne(Destroyed(xs[i]), Destroys(serial));
  }

  lemma CancelPlaces(s: State, id: nat, serial: nat)
    ensures Places(Cancel(s, id), serial) == Places(s, serial)
  {
    var i, j, k := FindId(s.requestQueue, id), FindId(s.replyQueue, id), FindId(s.pending, id);
    if i < |s.requestQueue| {
      TakenOut(s.requestQueue, i, s.log, serial);
    } else if j < |s.replyQueue| {
      TakenOut(s.replyQueue, j, s.log, serial);
    } else if k < |s.pending| {
      TakenOut(s.pending, k, s.log, serial);
    }
  }

  /** Every accepted request is, at every moment, in exactly one of request queue, reply queue,
      pending list and graveyard, and is destroyed at most once; no other request exists. */
  lemma {:induction false} ExactlyOnePlace(actions: seq<Action>, serial: nat)
    ensures Places(Run(actions), serial) == if serial < Run(actions).accepted then 1 else 0
  {
    if actions != [] {
      var last := |actions| - 1;
      ExactlyOnePlace(actions[..last], serial);
      PlacesStep(Run(actions[..last]), actions[last], serial);
    }
  }

  // ---------------------------------------------------------------- callbacks

  /** A callback is always followed at once by the destruction of its request. */
  predicate CallbackThenDestroy(log: seq<Event>) {
    forall i :: 0 <= i < |log| && log[i].CallbackRun? ==> i + 1 < |log| && log[i + 1] == Destroyed(log[i].r)
  }

  predicate IsCancel(a: Action) {
    a.DoCancel? || a.DoCancelIndex? || a.DoCancelAll?
  }

  /** What one step appends to the log. */
  function NewEvents(s: State, a: Action): seq<Event> {
    match a
    case DoSend(_) => []
    case DoReply(_) => []
    case WriteReady(hangup, fails) =>
      if !s.writeWatch || hangup || (s.replyQueue == [] && (s.pending != [] || s.requestQueue == [])) then []
      else
        var r := if s.replyQueue != [] then s.replyQueue[0] else s.requestQueue[0];
        if fails then FailureEvents(r) else [Written(r)]
    case Response(status, opcode, index) =>
      var i := LookupPending(s, opcode, index);
      if i == |s.pending| then [] else AnswerEvents(s.pending[i], status)
    case DoCancel(id) =>
      var i, j, k := FindId(s.requestQueue, id), FindId(s.replyQueue, id), FindId(s.pending, id);
      if id == 0 then []
      else if i < |s.requestQueue| then [Destroyed(s.requestQueue[i])]
      else if j < |s.replyQueue| then [Destroyed(s.replyQueue[j])]
      else if k < |s.pending| then [Destroyed(s.pending[k])]
      else []
    case DoCancelIndex(index) => DestroyAll(Dropped(s, index))
    case DoCancelAll => DestroyAll(s.pending + s.replyQueue + s.requestQueue)
  }

  lemma StepLog(s: State, a: Action)
    ensures Step(s, a).log == s.log + NewEvents(s, a)
  {
  }

  /** A step logs whole callback-and-destroy pairs. A request with a callback that is destroyed by
      anything but a cancel has just had its callback run; a cancel runs no callback. */
  lemma StepEvents(s: State, a: Action)
    ensures CallbackThenDestroy(NewEvents(s, a))
    ensures IsCancel(a) ==> forall e :: e in NewEvents(s, a) ==> e.Destroyed?
    ensures !IsCancel(a) ==> forall i :: 0 <= i < |NewEvents(s, a)| ==>
              var e := NewEvents(s, a)[i];
              e.Destroyed? && e.r.hasCallback ==>
              i > 0 && NewEvents(s, a)[i - 1].CallbackRun? && NewEvents(s, a)[i - 1].r == e.r
  {
  }

  lemma PairsAppend(log: seq<Event>, more: seq<Event>)
    requires CallbackThenDestroy(log) && CallbackThenDestroy(more)
    ensures CallbackThenDestroy(log + more)
  {
    forall i | 0 <= i < |log + more| && (log + more)[i].CallbackRun?
      ensures i + 1 < |log + more| && (log + more)[i + 1] == Destroyed((log + more)[i].r)
    {
      if i < |log| { assert log[i].CallbackRun?; } else { assert more[i - |log|].CallbackRun?; }
    }
  }

  lemma {:induction false} CallbackPairs(actions: seq<Action>)
    ensures CallbackThenDestroy(Run(actions).log)
  {
    if actions != [] {
      var last := |actions| - 1;
      CallbackPairs(actions[..last]);
      StepLog(Run(actions[..last]), actions[last]);
      StepEvents(Run(actions[..last]), actions[last]);
      PairsAppend(Run(actions[..last]).log, NewEvents(Run(actions[..last]), actions[last]));
    }
  }

  lemma {:induction false} TwoDestructions(log: seq<Event>, i: nat, j: nat)
    requires i < j < |log| && log[i].Destroyed? && log[j].Destroyed? && log[i].r.serial == log[j].r.serial
    ensures Destructions(log, log[i].r.serial) >= 2
  {
    CountAppend(log[..j], log[j..], Destroys(log[i].r.serial));
    assert log == log[..j] + log[j..];
    CountAppend(log[..i], log[i..j], Destroys(log[i].r.serial));
    assert log[..j] == log[..i] + log[i..j];
  }

  /** Over any run the callback of a request runs at most once, and never after the request was
      destroyed, whether by an answer, a failed write or a cancel. */
  lemma CallbackAtMostOnce(actions: seq<Action>, i: nat, j: nat)
    requires i < j < |Run(actions).log|
    requires var log := Run(actions).log;
             log[j].CallbackRun? && log[i].r.serial == log[j].r.serial
    ensures !Run(actions).log[i].CallbackRun? && !Run(actions).log[i].Destroyed?
  {
    var log := Run(actions).log;
    CallbackPairs(actions);
    ExactlyOnePlace(actions, log[j].r.serial);
    if log[i].CallbackRun? {
      TwoDestructions(log, i + 1, j + 1);
    } else if log[i].Destroyed? {
      TwoDestructions(log, i, j + 1);
    }
  }

  // ---------------------------------------------------------------- identifiers

  /** Identifier 0 is never issued, so the identifiers repeat with this period. */
  const ID_PERIOD: nat := UINT_MODULUS - 1

  predicate IdFollowsSerial(r: Request) {
    r.id == 1 + r.serial % ID_PERIOD
  }

  predicate IdsFollow(xs: seq<Request>, accepted: nat) {
    forall i :: 0 <= i < |xs| ==> IdFollowsSerial(xs[i]) && xs[i].serial < accepted
  }

  predicate AllIdsFollow(s: State) {
    && NormalId(s.nextId) == 1 + s.accepted % ID_PERIOD
    && IdsFollow(s.requestQueue, s.accepted)
    && IdsFollow(s.replyQueue, s.accepted)
    && IdsFollow(s.pending, s.accepted)
  }

  lemma {:induction false} OtherIndexIds(xs: seq<Request>, index: nat, accepted: nat)
    requires IdsFollow(xs, accepted)
    ensures IdsFollow(OtherIndex(xs, index), accepted)
  {
    if xs != [] { OtherIndexIds(xs[1..], index, accepted); }
  }

  lemma NewRequestIds(s: State, c: Call, origin: Origin)
    requires NormalId(s.nextId) == 1 + s.accepted % ID_PERIOD
    ensures NormalId(Allocate(s).nextId) == 1 + Allocate(s).accepted % ID_PERIOD
    ensures IdsFollow([NewRequest(s, c, origin)], s.accepted + 1)
  {
  }

  lemma IdsWhenWriting(s: State, hangup: bool, fails: bool)
    requires AllIdsFollow(s)
    ensures AllIdsFollow(CanWriteData(s, hangup, fails))
  {
  }

  lemma IdsWithout(xs: seq<Request>, i: nat, accepted: nat)
    requires IdsFollow(xs, accepted) && i < |xs|
    ensures IdsFollow(Without(xs, i), accepted)
  {
  }

  lemma IdsWhenRemoving(s: State, a: Action)
    requires AllIdsFollow(s) && (a.Response? || a.DoCancel?)
    ensures AllIdsFollow(Step(s, a))
  {
    forall i | 0 <= i < |s.requestQueue| { IdsWithout(s.requestQueue, i, s.accepted); }
    forall i | 0 <= i < |s.replyQueue| { IdsWithout(s.replyQueue, i, s.accepted); }
    forall i | 0 <= i < |s.pending| { IdsWithout(s.pending, i, s.accepted); }
  }

  lemma IdsStep(s: State, a: Action)
    requires AllIdsFollow(s)
    ensures AllIdsFollow(Step(s, a))
  {
    match a
    case DoSend(c) => NewRequestIds(s, c, Ordinary);
    case DoReply(c) => NewRequestIds(s, c, Reply);
    case WriteReady(hangup, fails) => IdsWhenWriting(s, hangup, fails);
    case Response(status, opcode, index) => IdsWhenRemoving(s, a);
    case DoCancel(id) => IdsWhenRemoving(s, a);
    case DoCancelIndex(index) =>
      OtherIndexIds(s.requestQueue, index, s.accepted);
      OtherIndexIds(s.replyQueue, index, s.accepted);
      OtherIndexIds(s.pending, index, s.accepted);
    case DoCancelAll =>
  }

  lemma {:induction false} IdsFollowSerials(actions: seq<Action>)
    ensures AllIdsFollow(Run(actions))
  {
    if actions != [] {
      var last := |actions| - 1;
      IdsFollowSerials(actions[..last]);
      IdsStep(Run(actions[..last]), actions[last]);
    }
  }

  predicate Live(s: State, r: Request) {
    r in s.requestQueue || r in s.replyQueue || r in s.pending
  }

  lemma LiveIds(s: State, r: Request)
    requires AllIdsFollow(s) && Live(s, r)
    ensures IdFollowsSerial(r) && r.serial < s.accepted
  {
  }

  lemma PeriodBounds(n: nat)
    ensures 1 <= 1 + n % ID_PERIOD < UINT_MODULUS
    ensures 0 < n < ID_PERIOD ==> n % ID_PERIOD != 0
  {
  }

  /** The identifier the next accepted call returns is never 0, and it is also the identifier of a
      live request exactly when a whole period of calls has gone by since that request's own. */
  lemma NewIdIsFresh(actions: seq<Action>, r: Request)
    requires Live(Run(actions), r)
    ensures var s := Run(actions);
            1 <= NormalId(s.nextId) < UINT_MODULUS
            && (NormalId(s.nextId) == r.id <==> (s.accepted - r.serial) % ID_PERIOD == 0)
    ensures Run(actions).accepted - r.serial < ID_PERIOD ==> NormalId(Run(actions).nextId) != r.id
  {
    IdsFollowSerials(actions);
    LiveIds(Run(actions), r);
    PeriodBounds(Run(actions).accepted);
    PeriodBounds(Run(actions).accepted - r.serial);
    Arithmetic.ResidueEqual(Run(actions).accepted, r.serial, ID_PERIOD);
  }

  /** Two requests share an id exactly if a whole number of periods lies between them. */
  lemma SameIdIff(a: Request, b: Request)
    requires IdFollowsSerial(a) && IdFollowsSerial(b) && b.serial <= a.serial
    ensures a.id == b.id <==> (a.serial - b.serial) % ID_PERIOD == 0
  {
    Arithmetic.ResidueEqual(a.serial, b.serial, ID_PERIOD);
  }

  /** No other live request is a whole number of periods away. */
  ghost predicate IdUnshared(s: State, r: Request) {
    forall q :: Live(s, q) && q.serial != r.serial ==>
      (if q.serial < r.serial then r.serial - q.serial else q.serial - r.serial) % ID_PERIOD != 0
  }

  lemma CancelFinds(s: State, r: Request) returns (found: Request)
    requires Live(s, r) && r.id != 0
    ensures Live(s, found) && found.id == r.id && NewEvents(s, DoCancel(r.id)) == [Destroyed(found)]
  {
    var i, j, k := FindId(s.requestQueue, r.id), FindId(s.replyQueue, r.id), FindId(s.pending, r.id);
    found := if i < |s.requestQueue| then s.requestQueue[i]
      else if j < |s.replyQueue| then s.replyQueue[j]
      else s.pending[k];
  }

  /** Cancelling a live request by an id it does not share destroys that request, nothing else, and
      runs no callback, wherever the request is. */
  lemma CancelDestroysNamed(actions: seq<Action>, r: Request)
    requires Live(Run(actions), r) && IdUnshared(Run(actions), r)
    ensures var s := Run(actions);
            var more := NewEvents(s, DoCancel(r.id));
            && Step(s, DoCancel(r.id)).log == s.log + more
            && |more| == 1 && more[0].Destroyed? && more[0].r.serial == r.serial
  {
    var s := Run(actions);
    IdsFollowSerials(actions);
    LiveIds(s, r);
    StepLog(s, DoCancel(r.id));
    var found := CancelFinds(s, r);
    LiveIds(s, found);
    if found.serial < r.serial { SameIdIff(r, found); } else { SameIdIff(found, r); }
  }

  /** Before the ids wrap no id is shared. */
  lemma UnsharedBeforeWrap(actions: seq<Action>, r: Request)
    requires Live(Run(actions), r) && Run(actions).accepted <= ID_PERIOD
    ensures IdUnshared(Run(actions), r)
  {
    var s := Run(actions);
    IdsFollowSerials(actions);
    LiveIds(s, r);
    forall q | Live(s, q) && q.serial != r.serial
      ensures (if q.serial < r.serial then r.serial - q.serial else q.serial - r.serial) % ID_PERIOD != 0
    {
      LiveIds(s, q);
      PeriodBounds(if q.serial < r.serial then r.serial - q.serial else q.serial - r.serial);
    }
  }
}
