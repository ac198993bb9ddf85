/** The management client as the source writes it: one object whose queues, pending list and watch
    are updated in place. Every method performs exactly one step of `MgmtRequests`. */
module MgmtClient {
  import opened MgmtRequests
  import Spec = MgmtRequests

  lemma DestroyAllAppend(a: seq<Request>, b: seq<Request>)
    ensures DestroyAll(a + b) == DestroyAll(a) + DestroyAll(b)
  {
  }

  lemma OneMore(log: seq<Event>, gone: seq<Request>, r: Request)
    ensures log + DestroyAll(gone) + [Destroyed(r)] == log + DestroyAll(gone + [r])
  {
  }

  lemma ThreeBatches(log: seq<Event>, a: seq<Request>, b: seq<Request>, c: seq<Request>)
    ensures log + DestroyAll(a) + DestroyAll(b) + DestroyAll(c) == log + DestroyAll(a + b + c)
  {
    DestroyAllAppend(a, b);
    DestroyAllAppend(a + b, c);
  }

  class Mgmt {
    var requestQueue: seq<Request>
    var replyQueue: seq<Request>
    var pendingList: seq<Request>
    var writeWatch: bool
    var nextRequestId: nat
    var accepted: nat
    ghost var log: seq<Event>

    ghost function View(): State
      reads this
    {
      State(requestQueue, replyQueue, pendingList, writeWatch, nextRequestId, accepted, log)
    }

    constructor ()
      ensures View() == Initial
    {
      requestQueue, replyQueue, pendingList := [], [], [];
      writeWatch, nextRequestId, accepted := false, 0, 0;
      log := [];
    }

    method WakeupWriter()
      modifies this`writeWatch
      ensures View() == Spec.WakeupWriter(old(View()))
    {
      if pendingList != [] {
        if |replyQueue| == 0 { return; }
      }
      if writeWatch { return; }
      writeWatch := true;
    }

    method DestroyRequest(r: Request)
      modifies this`log
      ensures log == old(log) + [Destroyed(r)]
    {
      log := log + [Destroyed(r)];
    }

    method RunCallback(r: Request, status: nat)
      modifies this`log
      ensures log == old(log) + (if r.hasCallback then [CallbackRun(r, status)] else [])
    {
      if r.hasCallback { log := log + [CallbackRun(r, status)]; }
    }

    /** The id of a request about to be queued. */
    method NextId() returns (id: nat)
      modifies this`nextRequestId, this`accepted
      ensures id == NormalId(old(nextRequestId)) && View() == Allocate(old(View()))
    {
      if nextRequestId < 1 { nextRequestId := 1; }
      id := nextRequestId;
      nextRequestId := (nextRequestId + 1) % UINT_MODULUS;
      accepted := accepted + 1;
    }

    method Send(c: Call) returns (id: nat)
      modifies this
      ensures View() == Spec.Send(old(View()), c)
      ensures id == if Acceptable(c) then NormalId(old(nextRequestId)) else 0
    {
      if c.opcode == 0 { return 0; }
      if c.length > 0 && !c.hasParam { return 0; }
      var serial := accepted;
      id := NextId();
      requestQueue := requestQueue + [Request(serial, id, c.opcode, c.index, Ordinary, c.hasCallback)];
      WakeupWriter();
    }

    method SendReply(c: Call) returns (id: nat)
      modifies this
      ensures View() == Spec.SendReply(old(View()), c)
      ensures id == if Acceptable(c) then NormalId(old(nextRequestId)) else 0
    {
      if c.opcode == 0 { return 0; }
      if c.length > 0 && !c.hasParam { return 0; }
      var serial := accepted;
      id := NextId();
      replyQueue := replyQueue + [Request(serial, id, c.opcode, c.index, Reply, c.hasCallback)];
      WakeupWriter();
    }

    /** The watch callback; returning false removes the watch. `writeFails` is the outcome of write. */
    method CanWriteData(hangup: bool, writeFails: bool) returns (keep: bool)
      modifies this
      ensures View() == Spec.CanWriteData(old(View()), hangup, writeFails).(writeWatch := old(writeWatch))
      ensures old(writeWatch) ==> keep == Spec.CanWriteData(old(View()), hangup, writeFails).writeWatch
    {
      if hangup { return false; }
      var request;
      if replyQueue != [] {
        request, replyQueue := replyQueue[0], replyQueue[1..];
      } else {
        if pendingList != [] { return false; }
        if requestQueue == [] { return false; }
        request, requestQueue := requestQueue[0], requestQueue[1..];
      }
      if writeFails {
        RunCallback(request, STATUS_FAILED);
        DestroyRequest(request);
        assert log == old(log) + FailureEvents(request);
        return true;
      }
      pendingList := pendingList + [request];
      log := log + [Written(request)];
      return false;
    }

    /** One dispatch of the armed watch by the main loop. */
    method DispatchWriter(hangup: bool, writeFails: bool)
      modifies this
      ensures View() == Step(old(View()), WriteReady(hangup, writeFails))
    {
      if writeWatch {
        var keep := CanWriteData(hangup, writeFails);
        if !keep { writeWatch := false; }
      }
    }

    method LookupPending(opcode: nat, index: nat) returns (i: nat)
      ensures i == Spec.LookupPending(View(), opcode, index) <= |pendingList|
      ensures i < |pendingList| ==> pendingList[i].opcode == opcode && pendingList[i].index == index
      ensures forall j :: 0 <= j < i ==> pendingList[j].opcode != opcode || pendingList[j].index != index
    {
      i := 0;
      while i < |pendingList|
        invariant i <= |pendingList|
        invariant FirstIndex(pendingList, (r: Request) => Matches(r, opcode, index))
                  == i + FirstIndex(pendingList[i..], (r: Request) => Matches(r, opcode, index))
        invariant forall j :: 0 <= j < i ==> pendingList[j].opcode != opcode || pendingList[j].index != index
      {
        if pendingList[i].opcode == opcode && pendingList[i].index == index { return; }
        assert pendingList[i..][1..] == pendingList[i + 1..];
        i := i + 1;
      }
    }

    method RequestComplete(status: nat, opcode: nat, index: nat)
      modifies this
      ensures View() == Spec.RequestComplete(old(View()), status, opcode, index)
    {
      var i := LookupPending(opcode, index);
      if i == |pendingList| { return; }
      var request := pendingList[i];
      pendingList := pendingList[..i] + pendingList[i + 1..];
      log := log + [Answered(request)];
      RunCallback(request, status);
      DestroyRequest(request);
      assert log == old(log) + AnswerEvents(request, status);
      WakeupWriter();
    }

    static method FindId(list: seq<Request>, id: nat) returns (i: nat)
      ensures i == Spec.FindId(list, id)
    {
      i := 0;
      while i < |list|
        invariant i <= |list|
        invariant FirstIndex(list, (r: Request) => r.id == id)
                  == i + FirstIndex(list[i..], (r: Request) => r.id == id)
      {
        if list[i].id == id { return; }
        assert list[i..][1..] == list[i + 1..];
        i := i + 1;
      }
    }

    method Cancel(id: nat) returns (found: bool)
      modifies this
      ensures View() == Spec.Cancel(old(View()), id)
      ensures found <==> |log| == |old(log)| + 1
    {
      if id == 0 { return false; }
      ghost var was := View();
      var request;
      var i := FindId(requestQueue, id);
      if i < |requestQueue| {
        request := requestQueue[i];
        requestQueue := requestQueue[..i] + requestQueue[i + 1..];
        assert View() == was.(requestQueue := Without(was.requestQueue, i));
      } else {
        i := FindId(replyQueue, id);
        if i < |replyQueue| {
          request := replyQueue[i];
          replyQueue := replyQueue[..i] + replyQueue[i + 1..];
          assert View() == was.(replyQueue := Without(was.replyQueue, i));
        } else {
          i := FindId(pendingList, id);
          if i == |pendingList| { return false; }
          request := pendingList[i];
          pendingList := pendingList[..i] + pendingList[i + 1..];
          assert View() == was.(pending := Without(was.pending, i));
        }
      }
      DestroyRequest(request);
      WakeupWriter();
      return true;
    }

    /** Walks one list, unlinking and destroying the requests for a controller. */
    method RemoveIndex(list: seq<Request>, index: nat) returns (kept: seq<Request>)
      modifies this`log
      ensures kept == OtherIndex(list, index)
      ensures log == old(log) + DestroyAll(SameIndex(list, index))
    {
      kept := list;
      var i := 0;
      ghost var front, rest, gone := [], list, [];
      while i < |kept|
        invariant kept == front + rest && i == |front|
        invariant OtherIndex(list, index) == front + OtherIndex(rest, index)
        invariant SameIndex(list, index) == gone + SameIndex(rest, index)
        invariant log == old(log) + DestroyAll(gone)
        decreases |kept| - i
      {
        var request := kept[i];
        if request.index != index {
          front := front + [request];
          i := i + 1;
        } else {
          kept := kept[..i] + kept[i + 1..];
          DestroyRequest(request);
          OneMore(old(log), gone, request);
          gone := gone + [request];
        }
        rest := rest[1..];
      }
    }

    method CancelIndex(index: nat)
      modifies this
      ensures View() == Spec.CancelIndex(old(View()), index)
    {
      ghost var before := View();
      requestQueue := RemoveIndex(requestQueue, index);
      replyQueue := RemoveIndex(replyQueue, index);
      pendingList := RemoveIndex(pendingList, index);
      ThreeBatches(before.log, SameIndex(before.requestQueue, index), SameIndex(before.replyQueue, index),
                   SameIndex(before.pending, index));
    }

    /** Destroys every member of a list, front to back. */
    method DestroyList(list: seq<Request>)
      modifies this`log
      ensures log == old(log) + DestroyAll(list)
    {
      for i := 0 to |list|
        invariant log == old(log) + DestroyAll(list[..i])
      {
        DestroyRequest(list[i]);
        assert DestroyAll(list[..i + 1]) == DestroyAll(list[..i]) + [Destroyed(list[i])];
      }
      assert list[..|list|] == list;
    }

    method CancelAll()
      modifies this
      ensures View() == Spec.CancelAll(old(View()))
    {
      DestroyList(pendingList);
      pendingList := [];
      DestroyList(replyQueue);
      replyQueue := [];
      DestroyList(requestQueue);
      requestQueue := [];
      ThreeBatches(old(log), old(pendingList), old(replyQueue), old(requestQueue));
    }
  }
}
