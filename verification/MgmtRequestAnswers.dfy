/** Which request a response answers, what a call puts into the queues, and when the writer rests, told
    field by field. */
module MgmtRequestAnswers {
  import opened MgmtRequests
  import opened MgmtRequestLaws
  import opened MgmtRequestOrder

  /** A response takes the first pending request with its opcode and its controller off the list, logs
      it as answered, runs its callback, if it has one, with the response's status, and destroys it. */
  lemma ResponseTakesFirst(s: State, status: nat, opcode: nat, index: nat, i: nat)
    requires i < |s.pending| && s.pending[i].opcode == opcode && s.pending[i].index == index
    requires forall j :: 0 <= j < i ==> s.pending[j].opcode != opcode || s.pending[j].index != index
    ensures var s', r := Step(s, Response(status, opcode, index)), s.pending[i];
            && s'.pending == s.pending[..i] + s.pending[i + 1..]
            && s'.requestQueue == s.requestQueue && s'.replyQueue == s.replyQueue
            && s'.log == s.log + (if r.hasCallback then [Answered(r), CallbackRun(r, status), Destroyed(r)]
                                  else [Answered(r), Destroyed(r)])
  {
    assert Matches(s.pending[i], opcode, index);
    assert forall j :: 0 <= j < i ==> !Matches(s.pending[j], opcode, index);
    assert LookupPending(s, opcode, index) == i;
  }

  /** One that no pending request waits for does nothing. */
  lemma StrayResponse(s: State, status: nat, opcode: nat, index: nat)
    requires forall i :: 0 <= i < |s.pending| ==> s.pending[i].opcode != opcode || s.pending[i].index != index
    ensures Step(s, Response(status, opcode, index)) == s
  {
    assert forall j :: 0 <= j < |s.pending| ==> !Matches(s.pending[j], opcode, index);
  }

  /** So what a response answers has its opcode and its controller, and the pending list changes exactly if
      something on it has. */
  lemma AnswersItsOwnIff(s: State, status: nat, opcode: nat, index: nat)
    ensures var s' := Step(s, Response(status, opcode, index));
            && s.log <= s'.log
            && (forall k :: |s.log| <= k < |s'.log| && s'.log[k].Answered? ==>
                  s'.log[k].r.opcode == opcode && s'.log[k].r.index == index)
            && (s'.pending != s.pending <==>
                exists i :: 0 <= i < |s.pending| && s.pending[i].opcode == opcode && s.pending[i].index == index)
  {
    if i: nat :| i < |s.pending| && s.pending[i].opcode == opcode && s.pending[i].index == index {
      var first := FirstOf(s.pending, opcode, index, i);
      ResponseTakesFirst(s, status, opcode, index, first);
    } else {
      StrayResponse(s, status, opcode, index);
    }
  }

  lemma {:induction false} FirstOf(pending: seq<Request>, opcode: nat, index: nat, i: nat) returns (first: nat)
    requires i < |pending| && pending[i].opcode == opcode && pending[i].index == index
    ensures first <= i && pending[first].opcode == opcode && pending[first].index == index
    ensures forall j :: 0 <= j < first ==> pending[j].opcode != opcode || pending[j].index != index
  {
    if j: nat :| j < i && pending[j].opcode == opcode && pending[j].index == index {
      first := FirstOf(pending, opcode, index, j);
    } else {
      first := i;
    }
  }

  /** A response completes the oldest outstanding write with its opcode and controller: any earlier write
      with both has already been destroyed. */
  lemma AnswerGoesToOldestWrite(actions: seq<Action>, status: nat, opcode: nat, index: nat, i: nat) returns (p: nat)
    requires var s := Run(actions);
             i < |s.pending| && s.pending[i].opcode == opcode && s.pending[i].index == index
    ensures var s := Run(actions);
            var s' := Step(s, Response(status, opcode, index));
            && p < |s.log| && s.log[p].Written? && s.log[p].r in s.pending
            && s.log[p].r.opcode == opcode && s.log[p].r.index == index
            && |s'.log| > |s.log| && s'.log[|s.log|] == Answered(s.log[p].r)
            && forall q :: 0 <= q < p && s.log[q].Written? ==>
                 (s.log[q].r.opcode == opcode && s.log[q].r.index == index ==>
                  Destructions(s.log, s.log[q].r.serial) > 0)
  {
    var s := Run(actions);
    var first := FirstOf(s.pending, opcode, index, i);
    ResponseTakesFirst(s, status, opcode, index, first);
    p := OldestWrite(actions, first);
    forall q | 0 <= q < p && s.log[q].Written? && s.log[q].r.opcode == opcode && s.log[q].r.index == index
      ensures Destructions(s.log, s.log[q].r.serial) > 0
    {
    }
  }

  /** Of two replies with one opcode the second is answered, if the response is from its controller. */
  lemma OtherControllerWaits()
    ensures var r1, r0 := Request(0, 1, 4, 1, Reply, false), Request(1, 2, 4, 0, Reply, false);
            var s := State([], [], [r1, r0], false, 3, 2, []);
            Step(s, Response(0, 4, 0)).pending == [r1]
  {
    var r1, r0 := Request(0, 1, 4, 1, Reply, false), Request(1, 2, 4, 0, Reply, false);
    var s := State([], [], [r1, r0], false, 3, 2, []);
    ResponseTakesFirst(s, 0, 4, 0, 1);
  }

  // ---------------------------------------------------------------- what a call queues

  /** An accepted call queues one request for its own opcode and controller, at the end of its own queue;
      a call without an opcode, or with a length but no parameters, queues nothing. */
  lemma CallQueues(s: State, c: Call)
    ensures var sent, replied := Step(s, DoSend(c)), Step(s, DoReply(c));
            if c.opcode == 0 || (c.length > 0 && !c.hasParam) then sent == s && replied == s
            else
              && sent.replyQueue == s.replyQueue && replied.requestQueue == s.requestQueue
              && |sent.requestQueue| == |s.requestQueue| + 1 && s.requestQueue <= sent.requestQueue
              && |replied.replyQueue| == |s.replyQueue| + 1 && s.replyQueue <= replied.replyQueue
              && (var r := sent.requestQueue[|s.requestQueue|];
                  r.serial == s.accepted && r.opcode == c.opcode && r.index == c.index && r.origin.Ordinary?
                  && r.hasCallback == c.hasCallback)
              && (var r := replied.replyQueue[|s.replyQueue|];
                  r.serial == s.accepted && r.opcode == c.opcode && r.index == c.index && r.origin.Reply?
                  && r.hasCallback == c.hasCallback)
  {
  }

  // ---------------------------------------------------------------- the writer

  /** The writer stays watched after its turn exactly if it tried a write that failed: a hangup, a write and a
      turn with nothing to write all end the watch. */
  lemma WatchedAfterTurnIff(s: State, hangup: bool, fails: bool)
    requires s.writeWatch
    ensures Step(s, WriteReady(hangup, fails)).writeWatch <==>
            !hangup && fails && (s.replyQueue != [] || (s.pending == [] && s.requestQueue != []))
  {
  }

  predicate OnlyTurns(actions: seq<Action>) {
    forall i :: 0 <= i < |actions| ==> actions[i].WriteReady?
  }

  function After(s: State, actions: seq<Action>): State
    decreases |actions|
  {
    if actions == [] then s else After(Step(s, actions[0]), actions[1..])
  }

  /** Left alone, the writer comes to rest: one turn more than there are requests queued ends its watch,
      whichever writes fail. */
  lemma {:induction false} WriterRests(s: State, turns: seq<Action>)
    requires OnlyTurns(turns) && |turns| > |s.replyQueue| + |s.requestQueue|
    ensures !After(s, turns).writeWatch
    decreases |turns|
  {
    var s' := Step(s, turns[0]);
    if s'.writeWatch { WriterRests(s', turns[1..]); } else { StaysUnwatched(s', turns[1..]); }
  }

  lemma {:induction false} StaysUnwatched(s: State, turns: seq<Action>)
    requires OnlyTurns(turns) && !s.writeWatch
    ensures After(s, turns) == s
    decreases |turns|
  {
    if turns != [] { StaysUnwatched(s, turns[1..]); }
  }
}
