/** The host's connection and request lists as the source edits them in place. Every method performs
    exactly one operation of `L2capRequests`. */
module L2capHost {
  import opened Octets
  import opened Options
  import opened AclPackets
  import opened L2capRequests
  import Spec = L2capRequests

  class Bthost {
    var handles: seq<nat>
    var requests: seq<Req>
    var registered: nat
    ghost var log: seq<Fired>

    ghost function View(): Host
      reads this
    {
      Host(handles, requests, registered, log)
    }

    constructor ()
      ensures View() == NewHost
    {
      handles, requests, registered, log := [], [], 0, [];
    }

    method InitConn(handle: nat)
      modifies this`handles
      ensures View() == Connected(old(View()), handle)
    {
      handles := [handle] + handles;
    }

    /** Removes every entry with the handle; `curr` is the place the next one is unlinked from. */
    method DisconnComplete(handle: nat)
      modifies this`handles
      ensures View() == Disconnected(old(View()), handle)
    {
      var curr := 0;
      while curr < |handles|
        invariant curr <= |handles|
        invariant handles[..curr] + Without(handles[curr..], handle) == Without(old(handles), handle)
        decreases |handles| - curr
      {
        ghost var before, kept := handles[curr..], handles[..curr];
        if handles[curr] == handle {
          handles := handles[..curr] + handles[curr + 1..];
          assert handles[curr..] == before[1..] && handles[..curr] == kept;
        } else {
          assert before[1..] == handles[curr + 1..];
          assert handles[..curr + 1] == kept + [before[0]];
          curr := curr + 1;
        }
      }
      assert handles[..curr] == handles && handles[curr..] == [];
    }

    method L2capReq(handle: nat, hasCallback: bool) returns (success: bool)
      modifies this
      ensures View() == Request(old(View()), handle, hasCallback)
      ensures success <==> handle in old(handles)
    {
      if handle !in handles { return false; }
      var ident := NextIdent();
      if !hasCallback { return true; }
      requests := [Req(registered, ident)] + requests;
      registered := registered + 1;
      return true;
    }

    method RunCallback(r: Req, code: nat)
      modifies this`log
      ensures log == old(log) + [Fired(r.serial, code)]
    {
      log := log + [Fired(r.serial, code)];
    }

    lemma Unlinked(ident: byte, code: byte, kept: seq<Req>, todo: seq<Req>, fired: seq<Fired>)
      requires todo != []
      ensures todo[0].ident != ident ==>
                (kept + [todo[0]]) + Rest(todo[1..], ident) == kept + Rest(todo, ident)
                && fired + Answers(todo[1..], ident, code) == fired + Answers(todo, ident, code)
      ensures todo[0].ident == ident ==>
                kept + Rest(todo[1..], ident) == kept + Rest(todo, ident)
                && (fired + [Fired(todo[0].serial, code)]) + Answers(todo[1..], ident, code) ==
                   fired + Answers(todo, ident, code)
    {
    }

    method HandlePendingL2reqs(ident: byte, code: byte)
      modifies this`requests, this`log
      ensures View() == HandlePending(old(View()), ident, code)
    {
      var curr := 0;
      while curr < |requests|
        invariant curr <= |requests|
        invariant requests[..curr] + Rest(requests[curr..], ident) == Rest(old(requests), ident)
        invariant log + Answers(requests[curr..], ident, code) == old(log) + Answers(old(requests), ident, code)
        decreases |requests| - curr
      {
        var req := requests[curr];
        ghost var todo, kept := requests[curr..], requests[..curr];
        Unlinked(ident, code, kept, todo, log);
        if req.ident != ident {
          assert requests[curr + 1..] == todo[1..] && requests[..curr + 1] == kept + [req];
          curr := curr + 1;
          continue;
        }
        requests := requests[..curr] + requests[curr + 1..];
        assert requests[curr..] == todo[1..] && requests[..curr] == kept;
        RunCallback(req, code);
      }
      assert requests[..curr] == requests && requests[curr..] == [];
    }

    /** A data packet: signalling ones settle pending requests. */
    method ProcessAcl(data: seq<byte>)
      modifies this`requests, this`log
      ensures View() == Receive(old(View()), data)
    {
      var frame := CheckAcl(handles, data);
      if frame.None? { return; }
      if frame.value.cid != SIGNALLING && frame.value.cid != LE_SIGNALLING { return; }
      var p := frame.value.payload;
      if |p| < 4 || 4 + Value16(p[2..4]) != |p| { return; }
      HandlePendingL2reqs(p[1], p[0]);
    }

    method Destroy()
      modifies this
      ensures View() == Spec.Destroy(old(View()))
    {
      handles := [];
      while requests != []
        invariant handles == [] && registered == old(registered)
        invariant log + AllFired(requests, 0) == old(log) + AllFired(old(requests), 0)
        decreases |requests|
      {
        var req := requests[0];
        assert AllFired(requests, 0) == [Fired(req.serial, 0)] + AllFired(requests[1..], 0);
        requests := requests[1..];
        RunCallback(req, 0);
      }
    }
  }
}
