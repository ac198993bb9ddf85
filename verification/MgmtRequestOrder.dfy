/** In which order requests are written and answered, over every run. */
module MgmtRequestOrder {
  import opened MgmtRequests
  import opened Counting
  import opened MgmtRequestLaws

  // ---------------------------------------------------------------- only replies jump the queue

  predicate AllFrom(xs: seq<Request>, o: Origin) {
    forall i :: 0 <= i < |xs| ==> xs[i].origin == o
  }

  /** Behind the head of the pending list there are only replies. */
  predicate RepliesBehindHead(s: State) {
    && AllFrom(s.requestQueue, Ordinary)
    && AllFrom(s.replyQueue, Reply)
    && (s.pending != [] ==> AllFrom(s.pending[1..], Reply))
  }

  lemma {:induction false} OtherIndexFrom(xs: seq<Request>, index: nat, o: Origin)
    requires AllFrom(xs, o)
    ensures AllFrom(OtherIndex(xs, index), o)
  {
    if xs != [] { OtherIndexFrom(xs[1..], index, o); }
  }

  lemma WithoutFrom(xs: seq<Request>, i: nat, o: Origin)
    requires i < |xs| && AllFrom(xs, o)
    ensures AllFrom(Without(xs, i), o)
  {
  }

  lemma WithoutBehindHead(xs: seq<Request>, i: nat)
    requires i < |xs| && AllFrom(xs[1..], Reply)
    ensures Without(xs, i) != [] ==> AllFrom(Without(xs, i)[1..], Reply)
  {
    var rest := Without(xs, i);
    forall j | 1 <= j < |rest| ensures rest[j].origin == Reply {
      assert rest[j] == if j < i then xs[1..][j - 1] else xs[1..][j];
    }
  }

  lemma OtherIndexBehindHead(xs: seq<Request>, index: nat)
    requires xs != [] && AllFrom(xs[1..], Reply)
    ensures OtherIndex(xs, index) != [] ==> AllFrom(OtherIndex(xs, index)[1..], Reply)
  {
    OtherIndexFrom(xs[1..], index, Reply);
    var tail := OtherIndex(xs[1..], index);
    if xs[0].index != index { assert OtherIndex(xs, index)[1..] == tail; }
  }

  lemma WritingKeepsRepliesBehind(s: State, hangup: bool, fails: bool)
    requires RepliesBehindHead(s)
    ensures RepliesBehindHead(CanWriteData(s, hangup, fails))
  {
    if s.replyQueue != [] && s.pending != [] {
      var r := s.replyQueue[0];
      assert (s.pending + [r])[1..] == s.pending[1..] + [r];
    }
  }

  lemma RemovalKeepsRepliesBehind(s: State, a: Action)
    requires RepliesBehindHead(s) && (a.Response? || a.DoCancel?)
    ensures RepliesBehindHead(Step(s, a))
  {
    forall i | 0 <= i < |s.requestQueue| { WithoutFrom(s.requestQueue, i, Ordinary); }
    forall i | 0 <= i < |s.replyQueue| { WithoutFrom(s.replyQueue, i, Reply); }
    forall i | 0 <= i < |s.pending| { WithoutBehindHead(s.pending, i); }
  }

  lemma RepliesBehindStep(s: State, a: Action)
    requires RepliesBehindHead(s)
    ensures RepliesBehindHead(Step(s, a))
  {
    match a
    case DoSend(c) =>
    case DoReply(c) =>
    case WriteReady(hangup, fails) => WritingKeepsRepliesBehind(s, hangup, fails);
    case Response(status, opcode, index) => RemovalKeepsRepliesBehind(s, a);
    case DoCancel(id) => RemovalKeepsRepliesBehind(s, a);
    case DoCancelIndex(index) =>
      OtherIndexFrom(s.requestQueue, index, Ordinary);
      OtherIndexFrom(s.replyQueue, index, Reply);
      if s.pending != [] { OtherIndexBehindHead(s.pending, index); }
    case DoCancelAll =>
  }

  lemma {:induction false} RepliesBehindAlways(actions: seq<Action>)
    ensures RepliesBehindHead(Run(actions))
  {
    if actions != [] {
      var last := |actions| - 1;
      RepliesBehindAlways(actions[..last]);
      RepliesBehindStep(Run(actions[..last]), actions[last]);
    }
  }

  /** At most one pending request came from the request queue, and it heads the pending list. */
  lemma OnlyRepliesJump(actions: seq<Action>, i: nat)
    requires 0 < i < |Run(actions).pending|
    ensures Run(actions).pending[i].origin == Reply
  {
    RepliesBehindAlways(actions);
    assert Run(actions).pending[1..][i - 1] == Run(actions).pending[i];
  }

  // ---------------------------------------------------------------- writes in order of calls

  function WrittenSerials(log: seq<Event>, o: Origin): seq<nat> {
    if log == [] then []
    else
      var e := log[|log| - 1];
      WrittenSerials(log[..|log| - 1], o) + (if e.Written? && e.r.origin == o then [e.r.serial] else [])
  }

  function Serials(xs: seq<Request>): (ns: seq<nat>)
    ensures |ns| == |xs|
    ensures forall i :: 0 <= i < |xs| ==> ns[i] == xs[i].serial
  {
    seq(|xs|, i requires 0 <= i < |xs| => xs[i].serial)
  }

  function Queue(s: State, o: Origin): seq<Request> {
    if o == Ordinary then s.requestQueue else s.replyQueue
  }

  /** The serials already written from a queue, followed by those still waiting in it. */
  function Line(s: State, o: Origin): seq<nat> {
    WrittenSerials(s.log, o) + Serials(Queue(s, o))
  }

  predicate Increasing(ns: seq<nat>, bound: nat) {
    && (forall i, j :: 0 <= i < j < |ns| ==> ns[i] < ns[j])
    && (forall i :: 0 <= i < |ns| ==> ns[i] < bound)
  }

  lemma {:induction false} WrittenAppend(a: seq<Event>, b: seq<Event>, o: Origin)
    ensures WrittenSerials(a + b, o) == WrittenSerials(a, o) + WrittenSerials(b, o)
  {
    if b == [] {
      assert a + b == a;
    } else {
      var last := |b| - 1;
      assert (a + b)[..|a + b| - 1] == a + b[..last];
      WrittenAppend(a, b[..last], o);
    }
  }

  lemma {:induction false} NothingWritten(log: seq<Event>, o: Origin)
    requires forall e :: e in log ==> !e.Written?
    ensures WrittenSerials(log, o) == []
  {
    if log != [] {
      assert forall e :: e in log[..|log| - 1] ==> e in log;
      assert log[|log| - 1] in log;
      NothingWritten(log[..|log| - 1], o);
    }
  }

  lemma IncreasingPrefixKept(w: seq<nat>, xs: seq<Request>, i: nat, bound: nat)
    requires i < |xs| && Increasing(w + Serials(xs), bound)
    ensures Increasing(w + Serials(Without(xs, i)), bound)
  {
    var before, after := w + Serials(xs), w + Serials(Without(xs, i));
    forall j | 0 <= j < |after| ensures after[j] == before[if j < |w| + i then j else j + 1] {
    }
  }

  lemma {:induction false} IncreasingOtherIndex(w: seq<nat>, xs: seq<Request>, index: nat, bound: nat)
    requires Increasing(w + Serials(xs), bound)
    ensures Increasing(w + Serials(OtherIndex(xs, index)), bound)
    decreases |xs|
  {
    if xs != [] {
      if xs[0].index == index {
        assert Without(xs, 0) == xs[1..];
        assert OtherIndex(xs, index) == OtherIndex(xs[1..], index);
        IncreasingPrefixKept(w, xs, 0, bound);
        IncreasingOtherIndex(w, xs[1..], index, bound);
      } else {
        var w' := w + [xs[0].serial];
        assert w' + Serials(xs[1..]) == w + Serials(xs);
        IncreasingOtherIndex(w', xs[1..], index, bound);
        assert OtherIndex(xs, index) == [xs[0]] + OtherIndex(xs[1..], index);
        assert w' + Serials(OtherIndex(xs[1..], index)) == w + Serials(OtherIndex(xs, index));
      }
    }
  }

  lemma QuietEvents(s: State, a: Action)
    requires !a.WriteReady?
    ensures forall e :: e in NewEvents(s, a) ==> !e.Written?
  {
  }

  /** A step that writes nothing leaves the written part of the line alone. */
  lemma QuietStep(s: State, a: Action, o: Origin)
    requires !a.WriteReady?
    ensures WrittenSerials(Step(s, a).log, o) == WrittenSerials(s.log, o)
  {
    StepLog(s, a);
    WrittenAppend(s.log, NewEvents(s, a), o);
    QuietEvents(s, a);
    NothingWritten(NewEvents(s, a), o);
  }

  lemma FailedWriteLine(s: State, r: Request, o: Origin, rest: seq<Request>)
    requires Increasing(WrittenSerials(s.log, o) + Serials(if r.origin == o then [r] + rest else rest), s.accepted)
    ensures Increasing(WrittenSerials(WriteOut(s, r, true).log, o) + Serials(rest), s.accepted)
  {
    var w := WrittenSerials(s.log, o);
    WrittenAppend(s.log, FailureEvents(r), o);
    NothingWritten(FailureEvents(r), o);
    assert w + [] == w;
    if r.origin == o {
      assert Without([r] + rest, 0) == rest;
      IncreasingPrefixKept(w, [r] + rest, 0, s.accepted);
    }
  }

  /** Writing a request out moves it along in the line. */
  lemma WrittenStaysInLine(log: seq<Event>, r: Request, o: Origin, rest: seq<Request>)
    ensures WrittenSerials(log + [Written(r)], o) + Serials(rest)
         == WrittenSerials(log, o) + Serials(if r.origin == o then [r] + rest else rest)
  {
    var w := WrittenSerials(log, o);
    assert (log + [Written(r)])[..|log|] == log;
    assert w + [] == w;
    if r.origin == o {
      assert Serials([r] + rest) == [r.serial] + Serials(rest);
      assert w + ([r.serial] + Serials(rest)) == (w + [r.serial]) + Serials(rest);
    }
  }

  lemma WriteOutLine(s: State, r: Request, fails: bool, o: Origin, rest: seq<Request>)
    requires Increasing(WrittenSerials(s.log, o) + Serials(if r.origin == o then [r] + rest else rest), s.accepted)
    ensures Increasing(WrittenSerials(WriteOut(s, r, fails).log, o) + Serials(rest), s.accepted)
  {
    if fails {
      FailedWriteLine(s, r, o, rest);
    } else {
      WrittenStaysInLine(s.log, r, o, rest);
    }
  }

  lemma LineWhenWriting(s: State, hangup: bool, fails: bool, o: Origin)
    requires RepliesBehindHead(s) && Increasing(Line(s, o), s.accepted)
    ensures Increasing(Line(CanWriteData(s, hangup, fails), o), s.accepted)
  {
    if s.replyQueue != [] {
      assert s.replyQueue == [s.replyQueue[0]] + s.replyQueue[1..];
      var s1 := s.(replyQueue := s.replyQueue[1..]);
      WriteOutLine(s1, s.replyQueue[0], fails, o, Queue(s1, o));
    } else if s.requestQueue != [] {
      assert s.requestQueue == [s.requestQueue[0]] + s.requestQueue[1..];
      var s1 := s.(requestQueue := s.requestQueue[1..]);
      WriteOutLine(s1, s.requestQueue[0], fails, o, Queue(s1, o));
    }
  }

  lemma LineWhenCancelling(s: State, id: nat, o: Origin)
    requires Increasing(Line(s, o), s.accepted)
    ensures Increasing(WrittenSerials(s.log, o) + Serials(Queue(Cancel(s, id), o)), s.accepted)
  {
    var i := FindId(Queue(s, o), id);
    if i < |Queue(s, o)| { IncreasingPrefixKept(WrittenSerials(s.log, o), Queue(s, o), i, s.accepted); }
  }

  lemma LineWhenQueueing(w: seq<nat>, xs: seq<Request>, r: Request)
    requires Increasing(w + Serials(xs), r.serial)
    ensures Increasing(w + Serials(xs + [r]), r.serial + 1)
    ensures Increasing(w + Serials(xs), r.serial + 1)
  {
    assert w + Serials(xs + [r]) == (w + Serials(xs)) + [r.serial];
  }

  lemma LineWhenEmptied(w: seq<nat>, xs: seq<Request>, bound: nat)
    requires Increasing(w + Serials(xs), bound)
    ensures Increasing(w + Serials([]), bound)
  {
    assert w + Serials([]) == w;
    assert forall i :: 0 <= i < |w| ==> (w + Serials(xs))[i] == w[i];
  }

  lemma LineWhenSending(s: State, a: Action, o: Origin)
    requires a.DoSend? || a.DoReply?
    requires Increasing(Line(s, o), s.accepted)
    ensures Increasing(WrittenSerials(s.log, o) + Serials(Queue(Step(s, a), o)), Step(s, a).accepted)
  {
    var r := NewRequest(s, a.call, if a.DoSend? then Ordinary else Reply);
    LineWhenQueueing(WrittenSerials(s.log, o), Queue(s, o), r);
    assert Queue(Step(s, a), o) ==
           if s.accepted < Step(s, a).accepted && r.origin == o then Queue(s, o) + [r] else Queue(s, o);
  }

  lemma LineOtherwise(s: State, a: Action, o: Origin)
    requires a.Response? || a.DoCancelIndex? || a.DoCancelAll?
    requires Increasing(Line(s, o), s.accepted)
    ensures Increasing(WrittenSerials(s.log, o) + Serials(Queue(Step(s, a), o)), s.accepted)
  {
    var w := WrittenSerials(s.log, o);
    if a.DoCancelIndex? { IncreasingOtherIndex(w, Queue(s, o), a.index, s.accepted); }
    if a.DoCancelAll? { LineWhenEmptied(w, Queue(s, o), s.accepted); }
  }

  lemma LineStep(s: State, a: Action, o: Origin)
    requires RepliesBehindHead(s) && Increasing(Line(s, o), s.accepted)
    ensures Increasing(Line(Step(s, a), o), Step(s, a).accepted)
  {
    if a.WriteReady? {
      LineWhenWriting(s, a.hangup, a.writeFails, o);
    } else {
      QuietStep(s, a, o);
      if a.DoSend? || a.DoReply? {
        LineWhenSending(s, a, o);
      } else if a.DoCancel? {
        LineWhenCancelling(s, a.id, o);
      } else {
        LineOtherwise(s, a, o);
      }
    }
  }

  lemma {:induction false} LineAlways(actions: seq<Action>, o: Origin)
    ensures Increasing(Line(Run(actions), o), Run(actions).accepted)
  {
    if actions != [] {
      var last := |actions| - 1;
      LineAlways(actions[..last], o);
      RepliesBehindAlways(actions[..last]);
      LineStep(Run(actions[..last]), actions[last], o);
    }
  }

  /** Over any run, requests of one queue are written in the order of the calls that queued them,
      and everything written came before everything still waiting there. */
  lemma WrittenInCallOrder(actions: seq<Action>, o: Origin)
    ensures var s := Run(actions);
            var w := WrittenSerials(s.log, o);
            && (forall i, j :: 0 <= i < j < |w| ==> w[i] < w[j])
            && (forall i, j :: 0 <= i < |w| && 0 <= j < |Queue(s, o)| ==> w[i] < Queue(s, o)[j].serial)
  {
    LineAlways(actions, o);
    var s := Run(actions);
    var w := WrittenSerials(s.log, o);
    assert forall i :: 0 <= i < |w| ==> Line(s, o)[i] == w[i];
    assert forall j :: 0 <= j < |Queue(s, o)| ==> Line(s, o)[|w| + j] == Queue(s, o)[j].serial;
  }

  // ---------------------------------------------------------------- answers in order of writes

  /** The requests written in `es`, in order, that `log` has not destroyed. */
  function Outstanding(es: seq<Event>, log: seq<Event>): seq<Request> {
    if es == [] then []
    else
      var e := es[|es| - 1];
      Outstanding(es[..|es| - 1], log)
      + (if e.Written? && Destructions(log, e.r.serial) == 0 then [e.r] else [])
  }

  function Survivors(xs: seq<Request>, more: seq<Event>): seq<Request> {
    if xs == [] then []
    else
      var last := |xs| - 1;
      Survivors(xs[..last], more) + (if Destructions(more, xs[last].serial) == 0 then [xs[last]] else [])
  }

  lemma {:induction false} OutstandingAppend(a: seq<Event>, b: seq<Event>, log: seq<Event>)
    ensures Outstanding(a + b, log) == Outstanding(a, log) + Outstanding(b, log)
  {
    if b == [] {
      assert a + b == a;
    } else {
      var last := |b| - 1;
      assert (a + b)[..|a + b| - 1] == a + b[..last];
      OutstandingAppend(a, b[..last], log);
    }
  }

  lemma {:induction false} OutstandingShrinks(es: seq<Event>, log: seq<Event>, more: seq<Event>)
    ensures Outstanding(es, log + more) == Survivors(Outstanding(es, log), more)
  {
    if es != [] {
      var last := |es| - 1;
      OutstandingShrinks(es[..last], log, more);
      if es[last].Written? { CountAppend(log, more, Destroys(es[last].r.serial)); }
      var before := Outstanding(es[..last], log);
      if Outstanding(es, log) != before {
        assert Outstanding(es, log)[..|before|] == before;
      }
    }
  }

  lemma {:induction false} AllSurvive(xs: seq<Request>, more: seq<Event>)
    requires forall i :: 0 <= i < |xs| ==> Destructions(more, xs[i].serial) == 0
    ensures Survivors(xs, more) == xs
  {
    if xs != [] {
      var last := |xs| - 1;
      AllSurvive(xs[..last], more);
      assert xs == xs[..last] + [xs[last]];
    }
  }

  lemma {:induction false} SurvivorsAppend(xs: seq<Request>, ys: seq<Request>, more: seq<Event>)
    ensures Survivors(xs + ys, more) == Survivors(xs, more) + Survivors(ys, more)
  {
    if ys == [] {
      assert xs + ys == xs;
    } else {
      var last := |ys| - 1;
      assert (xs + ys)[..|xs + ys| - 1] == xs + ys[..last];
      SurvivorsAppend(xs, ys[..last], more);
    }
  }

  /** The pending list is exactly the written, not yet destroyed requests, oldest write first. */
  predicate PendingIsOutstanding(s: State) {
    s.pending == Outstanding(s.log, s.log)
  }

  /** Every request is in at most one place. */
  ghost predicate OnePlaceEach(s: State) {
    forall serial :: Places(s, serial) <= 1
  }

  lemma OutstandingStep(s: State, a: Action)
    requires PendingIsOutstanding(s)
    ensures var more := NewEvents(s, a);
            Outstanding(Step(s, a).log, Step(s, a).log)
            == Survivors(s.pending, more) + Outstanding(more, s.log + more)
  {
    var more := NewEvents(s, a);
    StepLog(s, a);
    OutstandingAppend(s.log, more, s.log + more);
    OutstandingShrinks(s.log, s.log, more);
  }

  lemma {:induction false} NoWritesNothingOutstanding(es: seq<Event>, log: seq<Event>)
    requires forall i :: 0 <= i < |es| ==> !es[i].Written?
    ensures Outstanding(es, log) == []
  {
    if es != [] { NoWritesNothingOutstanding(es[..|es| - 1], log); }
  }

  /** Destroying requests that are not pending changes nothing about the pending list. */
  lemma PendingUntouched(s: State, more: seq<Event>)
    requires forall i :: 0 <= i < |s.pending| ==> Destructions(more, s.pending[i].serial) == 0
    requires forall i :: 0 <= i < |more| ==> !more[i].Written?
    ensures Survivors(s.pending, more) + Outstanding(more, s.log + more) == s.pending
  {
    AllSurvive(s.pending, more);
    NoWritesNothingOutstanding(more, s.log + more);
  }

  /** A queued request is not pending. */
  lemma QueuedNotPending(s: State, o: Origin, i: nat, j: nat)
    requires OnePlaceEach(s) && i < |Queue(s, o)| && j < |s.pending|
    ensures Queue(s, o)[i].serial != s.pending[j].serial
    ensures Destructions(s.log, Queue(s, o)[i].serial) == 0
  {
    CountOfMember(Queue(s, o), i, Named(Queue(s, o)[i].serial));
    CountOfMember(s.pending, j, Named(s.pending[j].serial));
    assert Places(s, Queue(s, o)[i].serial) <= 1;
  }

  lemma QueuedNotDestroyed(s: State, o: Origin, i: nat)
    requires OnePlaceEach(s) && i < |Queue(s, o)|
    ensures Destructions(s.log, Queue(s, o)[i].serial) == 0
  {
    CountOfMember(Queue(s, o), i, Named(Queue(s, o)[i].serial));
    assert Places(s, Queue(s, o)[i].serial) <= 1;
  }

  lemma PendingDistinct(s: State, i: nat, j: nat)
    requires OnePlaceEach(s) && i < j < |s.pending|
    ensures s.pending[i].serial != s.pending[j].serial
  {
    var x := s.pending[i].serial;
    CountWithout(s.pending, i, Named(x));
    assert Without(s.pending, i)[j - 1] == s.pending[j];
    CountOfMember(Without(s.pending, i), j - 1, Named(Without(s.pending, i)[j - 1].serial));
    assert Places(s, x) <= 1;
  }

  lemma OthersSurvive(s: State, i: nat, more: seq<Event>)
    requires OnePlaceEach(s) && i < |s.pending|
    requires forall serial :: serial != s.pending[i].serial ==> Destructions(more, serial) == 0
    ensures Survivors(s.pending[..i], more) == s.pending[..i]
    ensures Survivors(s.pending[i + 1..], more) == s.pending[i + 1..]
  {
    forall j | 0 <= j < i { PendingDistinct(s, j, i); }
    AllSurvive(s.pending[..i], more);
    forall j | i < j < |s.pending| { PendingDistinct(s, i, j); }
    AllSurvive(s.pending[i + 1..], more);
  }

  lemma SurvivorsAround(xs: seq<Request>, i: nat, more: seq<Event>)
    requires i < |xs| && Destructions(more, xs[i].serial) > 0
    requires Survivors(xs[..i], more) == xs[..i] && Survivors(xs[i + 1..], more) == xs[i + 1..]
    ensures Survivors(xs, more) == Without(xs, i)
  {
    var a, x, b := xs[..i], [xs[i]], xs[i + 1..];
    assert xs == a + (x + b);
    SurvivorsAppend(a, x + b, more);
    SurvivorsAppend(x, b, more);
    assert Survivors(x, more) == [] by { assert x[..0] == []; }
  }

  /** Destroying one pending request takes just that one off the list. */
  lemma PendingLosesOne(s: State, i: nat, more: seq<Event>)
    requires OnePlaceEach(s) && i < |s.pending|
    requires forall serial :: Destructions(more, serial) == if serial == s.pending[i].serial then 1 else 0
    requires forall j :: 0 <= j < |more| ==> !more[j].Written?
    ensures Survivors(s.pending, more) + Outstanding(more, s.log + more) == Without(s.pending, i)
  {
    OthersSurvive(s, i, more);
    SurvivorsAround(s.pending, i, more);
    NoWritesNothingOutstanding(more, s.log + more);
  }

  lemma OutstandingWhenWriteFails(s: State, o: Origin)
    requires OnePlaceEach(s) && Queue(s, o) != []
    ensures var more := FailureEvents(Queue(s, o)[0]);
            Survivors(s.pending, more) + Outstanding(more, s.log + more) == s.pending
  {
    var r := Queue(s, o)[0];
    forall j | 0 <= j < |s.pending| ensures Destructions(FailureEvents(r), s.pending[j].serial) == 0 {
      QueuedNotPending(s, o, 0, j);
      FailureDestroysOnce(r, s.pending[j].serial);
    }
    PendingUntouched(s, FailureEvents(r));
  }

  lemma OutstandingWhenWritten(s: State, o: Origin)
    requires OnePlaceEach(s) && Queue(s, o) != []
    ensures var r := Queue(s, o)[0];
            var more := [Written(r)];
            Survivors(s.pending, more) + Outstanding(more, s.log + more) == s.pending + [r]
  {
    var r := Queue(s, o)[0];
    var more := [Written(r)];
    forall p | 0 <= p < |s.pending| { CountOne(Written(r), Destroys(s.pending[p].serial)); }
    AllSurvive(s.pending, more);
    QueuedNotDestroyed(s, o, 0);
    CountAppend(s.log, more, Destroys(r.serial));
    assert more[..0] == [];
  }

  lemma OutstandingWhenWriting(s: State, hangup: bool, fails: bool)
    requires s.writeWatch && PendingIsOutstanding(s) && OnePlaceEach(s)
    ensures PendingIsOutstanding(CanWriteData(s, hangup, fails))
  {
    var a := WriteReady(hangup, fails);
    var o := if s.replyQueue != [] then Reply else Ordinary;
    OutstandingStep(s, a);
    if NewEvents(s, a) == [] {
      AllSurvive(s.pending, []);
    } else if fails {
      OutstandingWhenWriteFails(s, o);
    } else {
      OutstandingWhenWritten(s, o);
    }
  }

  lemma AnsweredLeaves(s: State, i: nat, status: nat)
    requires OnePlaceEach(s) && i < |s.pending|
    ensures var more := AnswerEvents(s.pending[i], status);
            Survivors(s.pending, more) + Outstanding(more, s.log + more) == Without(s.pending, i)
  {
    forall serial { AnswerDestroysOnce(s.pending[i], status, serial); }
    PendingLosesOne(s, i, AnswerEvents(s.pending[i], status));
  }

  lemma OutstandingWhenAnswering(s: State, status: nat, opcode: nat, index: nat)
    requires PendingIsOutstanding(s) && OnePlaceEach(s)
    ensures PendingIsOutstanding(RequestComplete(s, status, opcode, index))
  {
    OutstandingStep(s, Response(status, opcode, index));
    var i := LookupPending(s, opcode, index);
    if i == |s.pending| {
      AllSurvive(s.pending, []);
    } else {
      AnsweredLeaves(s, i, status);
    }
  }

  lemma QueuedDestroyed(s: State, o: Origin, i: nat)
    requires OnePlaceEach(s) && i < |Queue(s, o)|
    ensures var more := [Destroyed(Queue(s, o)[i])];
            Survivors(s.pending, more) + Outstanding(more, s.log + more) == s.pending
  {
    forall p | 0 <= p < |s.pending|
      ensures Destructions([Destroyed(Queue(s, o)[i])], s.pending[p].serial) == 0
    {
      QueuedNotPending(s, o, i, p);
      CountOne(Destroyed(Queue(s, o)[i]), Destroys(s.pending[p].serial));
    }
    PendingUntouched(s, [Destroyed(Queue(s, o)[i])]);
  }

  lemma OutstandingCancelQueued(s: State, id: nat)
    requires PendingIsOutstanding(s) && OnePlaceEach(s) && id != 0
    requires FindId(s.requestQueue, id) < |s.requestQueue| || FindId(s.replyQueue, id) < |s.replyQueue|
    ensures PendingIsOutstanding(Cancel(s, id))
  {
    OutstandingStep(s, DoCancel(id));
    var o := if FindId(s.requestQueue, id) < |s.requestQueue| then Ordinary else Reply;
    QueuedDestroyed(s, o, FindId(Queue(s, o), id));
  }

  lemma OutstandingCancelPending(s: State, id: nat)
    requires PendingIsOutstanding(s) && OnePlaceEach(s)
    requires FindId(s.requestQueue, id) == |s.requestQueue| && FindId(s.replyQueue, id) == |s.replyQueue|
    ensures PendingIsOutstanding(Cancel(s, id))
  {
    OutstandingStep(s, DoCancel(id));
    var k := FindId(s.pending, id);
    if id == 0 || k == |s.pending| {
      AllSurvive(s.pending, []);
    } else {
      forall serial { CountOne(Destroyed(s.pending[k]), Destroys(serial)); }
      PendingLosesOne(s, k, [Destroyed(s.pending[k])]);
    }
  }

  lemma OutstandingWhenCancelling(s: State, id: nat)
    requires PendingIsOutstanding(s) && OnePlaceEach(s)
    ensures PendingIsOutstanding(Cancel(s, id))
  {
    if id != 0 && (FindId(s.requestQueue, id) < |s.requestQueue| || FindId(s.replyQueue, id) < |s.replyQueue|) {
      OutstandingCancelQueued(s, id);
    } else if id != 0 {
      OutstandingCancelPending(s, id);
    }
  }

  lemma {:induction false} SameIndexCount(xs: seq<Request>, index: nat, i: nat)
    requires i < |xs| && xs[i].index == index
    ensures Count(SameIndex(xs, index), Named(xs[i].serial)) >= 1
  {
    var x := if xs[0].index == index then [xs[0]] else [];
    CountAppend(x, SameIndex(xs[1..], index), Named(xs[i].serial));
    if i > 0 { SameIndexCount(xs[1..], index, i - 1); }
  }

  lemma {:induction false} OtherIndexCount(xs: seq<Request>, index: nat, i: nat)
    requires i < |xs| && xs[i].index != index
    ensures Count(OtherIndex(xs, index), Named(xs[i].serial)) >= 1
  {
    var x := if xs[0].index != index then [xs[0]] else [];
    CountAppend(x, OtherIndex(xs[1..], index), Named(xs[i].serial));
    if i > 0 { OtherIndexCount(xs[1..], index, i - 1); }
  }

  /** Cancelling a controller destroys a pending request exactly if it is for that controller. */
  lemma DroppedIffSameIndex(s: State, index: nat, i: nat)
    requires OnePlaceEach(s) && i < |s.pending|
    ensures Destructions(DestroyAll(Dropped(s, index)), s.pending[i].serial) == 0 <==> s.pending[i].index != index
  {
    var x := s.pending[i].serial;
    DestroyAllCount(Dropped(s, index), x);
    DroppedCount(s, index, x);
    CountByIndex(s.requestQueue, index, x);
    CountByIndex(s.replyQueue, index, x);
    CountByIndex(s.pending, index, x);
    CountOfMember(s.pending, i, Named(s.pending[i].serial));
    assert Places(s, x) <= 1;
    if s.pending[i].index == index {
      SameIndexCount(s.pending, index, i);
    } else {
      OtherIndexCount(s.pending, index, i);
    }
  }

  lemma {:induction false} SurvivorsAreOthers(xs: seq<Request>, index: nat, more: seq<Event>)
    requires forall i :: 0 <= i < |xs| ==> (Destructions(more, xs[i].serial) == 0 <==> xs[i].index != index)
    ensures Survivors(xs, more) == OtherIndex(xs, index)
  {
    if xs != [] {
      assert xs == [xs[0]] + xs[1..];
      SurvivorsAppend([xs[0]], xs[1..], more);
      assert [xs[0]][..0] == [];
      SurvivorsAreOthers(xs[1..], index, more);
    }
  }

  lemma OutstandingWhenIndexCancelled(s: State, index: nat)
    requires PendingIsOutstanding(s) && OnePlaceEach(s)
    ensures PendingIsOutstanding(CancelIndex(s, index))
  {
    OutstandingStep(s, DoCancelIndex(index));
    var more := NewEvents(s, DoCancelIndex(index));
    forall i | 0 <= i < |s.pending| { DroppedIffSameIndex(s, index, i); }
    SurvivorsAreOthers(s.pending, index, more);
    NoWritesNothingOutstanding(more, s.log + more);
  }

  lemma {:induction false} NoneSurvive(xs: seq<Request>, more: seq<Event>)
    requires forall i :: 0 <= i < |xs| ==> Destructions(more, xs[i].serial) > 0
    ensures Survivors(xs, more) == []
  {
    if xs != [] { NoneSurvive(xs[..|xs| - 1], more); }
  }

  lemma PendingDestroyed(s: State, i: nat)
    requires i < |s.pending|
    ensures Destructions(DestroyAll(s.pending + s.replyQueue + s.requestQueue), s.pending[i].serial) > 0
  {
    var gone := s.pending + s.replyQueue + s.requestQueue;
    assert gone[i] == s.pending[i];
    CountOfMember(gone, i, Named(gone[i].serial));
    DestroyAllCount(gone, gone[i].serial);
  }

  lemma OutstandingWhenAllCancelled(s: State)
    requires PendingIsOutstanding(s)
    ensures PendingIsOutstanding(CancelAll(s))
  {
    OutstandingStep(s, DoCancelAll);
    var more := NewEvents(s, DoCancelAll);
    forall i | 0 <= i < |s.pending| ensures Destructions(more, s.pending[i].serial) > 0 { PendingDestroyed(s, i); }
    NoneSurvive(s.pending, more);
    NoWritesNothingOutstanding(more, s.log + more);
  }

  lemma OutstandingKept(s: State, a: Action)
    requires PendingIsOutstanding(s) && OnePlaceEach(s)
    ensures PendingIsOutstanding(Step(s, a))
  {
    match a
    case DoSend(c) =>
    case DoReply(c) =>
    case WriteReady(hangup, fails) => if s.writeWatch { OutstandingWhenWriting(s, hangup, fails); }
    case Response(status, opcode, index) => OutstandingWhenAnswering(s, status, opcode, index);
    case DoCancel(id) => OutstandingWhenCancelling(s, id);
    case DoCancelIndex(index) => OutstandingWhenIndexCancelled(s, index);
    case DoCancelAll => OutstandingWhenAllCancelled(s);
  }

  lemma {:induction false} PendingAlwaysOutstanding(actions: seq<Action>)
    ensures PendingIsOutstanding(Run(actions))
  {
    if actions != [] {
      var last := |actions| - 1;
      PendingAlwaysOutstanding(actions[..last]);
      forall serial ensures Places(Run(actions[..last]), serial) <= 1 { ExactlyOnePlace(actions[..last], serial); }
      OutstandingKept(Run(actions[..last]), actions[last]);
    }
  }

  /** A member of the outstanding list stands at a write, and every earlier write is either
      destroyed or stands before it in the list. */
  lemma {:induction false} OutstandingOrder(es: seq<Event>, log: seq<Event>, i: nat) returns (p: nat)
    requires i < |Outstanding(es, log)|
    ensures p < |es| && es[p] == Written(Outstanding(es, log)[i])
    ensures forall q :: 0 <= q < p && es[q].Written? && Destructions(log, es[q].r.serial) == 0 ==>
              es[q].r in Outstanding(es, log)[..i]
  {
    var last := |es| - 1;
    var before := Outstanding(es[..last], log);
    if i < |before| {
      p := OutstandingOrder(es[..last], log, i);
      assert Outstanding(es, log)[..i] == before[..i];
    } else {
      p := last;
      assert Outstanding(es, log)[..i] == before;
      forall q | 0 <= q < last && es[q].Written? && Destructions(log, es[q].r.serial) == 0 ensures es[q].r in before {
        OutstandingHas(es[..last], log, q);
      }
    }
  }

  lemma {:induction false} OutstandingHas(es: seq<Event>, log: seq<Event>, q: nat)
    requires q < |es| && es[q].Written? && Destructions(log, es[q].r.serial) == 0
    ensures es[q].r in Outstanding(es, log)
  {
    var last := |es| - 1;
    if q < last { OutstandingHas(es[..last], log, q); }
  }

  /** A pending request was written, and every write before it that is not pending ahead of it has been
      destroyed. */
  lemma OldestWrite(actions: seq<Action>, i: nat) returns (p: nat)
    requires i < |Run(actions).pending|
    ensures var s := Run(actions);
            && p < |s.log| && s.log[p] == Written(s.pending[i])
            && forall q :: 0 <= q < p && s.log[q].Written? && s.log[q].r !in s.pending[..i] ==>
                 Destructions(s.log, s.log[q].r.serial) > 0
  {
    var s := Run(actions);
    PendingAlwaysOutstanding(actions);
    p := OutstandingOrder(s.log, s.log, i);
  }
}
