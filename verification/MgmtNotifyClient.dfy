/** The notification list as the source runs it: one object whose two lists are edited in place,
    also by the callbacks of a dispatch that is walking them. Every method performs exactly one
    operation of `MgmtNotify`. */
module MgmtNotifyClient {
  import opened MgmtNotify
  import Spec = MgmtNotify

  class NotifyList {
    var notifyList: seq<Entry>
    var notifyDestroyed: seq<Entry>
    /** The link the dispatch loop holds; moving a link between the lists moves it along. */
    var cursor: Cursor
    var inNotify: bool
    var nextNotifyId: nat
    var accepted: nat
    ghost var log: seq<Event>

    ghost function View(): State
      reads this
    {
      State(notifyList, notifyDestroyed, cursor, inNotify, nextNotifyId, accepted, log)
    }

    ghost predicate Valid()
      reads this
    {
      InRange(View()) && (inNotify || cursor.Stop?)
    }

    constructor ()
      ensures View() == Initial && Valid()
    {
      notifyList, notifyDestroyed, cursor, inNotify := [], [], Stop, false;
      nextNotifyId, accepted, log := 0, 0, [];
    }

    method Register(event: nat, index: nat, hasCallback: bool) returns (id: nat)
      requires Valid()
      modifies this
      ensures View() == RegisterEntry(old(View()), event, index, hasCallback) && Valid()
      ensures id == if event == 0 then 0 else if old(nextNotifyId) < 1 then 1 else old(nextNotifyId)
    {
      if event == 0 { return 0; }
      if nextNotifyId < 1 { nextNotifyId := 1; }
      id := nextNotifyId;
      nextNotifyId := (nextNotifyId + 1) % UINT_MODULUS;
      notifyList := notifyList + [Entry(accepted, id, event, index, hasCallback, false)];
      accepted := accepted + 1;
    }

    /** Unlinks the k-th entry; outside a dispatch it is destroyed at once. */
    method Unlink(k: nat)
      requires Valid() && k < |notifyList|
      modifies this
      ensures View() == RemoveAt(old(View()), k) && Valid() && inNotify == old(inNotify)
    {
      var notify := notifyList[k];
      notifyList := notifyList[..k] + notifyList[k + 1..];
      log := log + [Removed(notify.serial)];
      if !inNotify {
        log := log + [Freed(notify.serial)];
        return;
      }
      if cursor.OnLive? && k <= cursor.at {
        cursor := if k < cursor.at then OnLive(cursor.at - 1) else OnDead(|notifyDestroyed|);
      }
      notifyDestroyed := notifyDestroyed + [notify.(destroyed := true)];
    }

    method Unregister(id: nat) returns (found: bool)
      requires Valid()
      modifies this
      ensures View() == Apply(old(View()), Op.Unregister(id)) && Valid() && inNotify == old(inNotify)
      ensures found <==> id != 0 && exists i :: 0 <= i < |old(notifyList)| && old(notifyList)[i].id == id
    {
      if id == 0 { return false; }
      var k := 0;
      while k < |notifyList|
        invariant k <= |notifyList|
        invariant FindId(notifyList, id) == k + FindId(notifyList[k..], id)
      {
        if notifyList[k].id == id {
          Unlink(k);
          return true;
        }
        assert notifyList[k..][1..] == notifyList[k + 1..];
        k := k + 1;
      }
      return false;
    }

    method UnregisterIndex(index: nat)
      requires Valid()
      modifies this
      ensures View() == Apply(old(View()), Op.UnregisterIndex(index)) && Valid() && inNotify == old(inNotify)
    {
      var k := 0;
      while k < |notifyList|
        invariant k <= |notifyList| && Valid() && inNotify == old(inNotify)
        invariant RemoveIndexFrom(View(), index, k) == RemoveIndexFrom(old(View()), index, 0)
        decreases |notifyList| - k
      {
        if notifyList[k].index == index {
          Unlink(k);
        } else {
          k := k + 1;
        }
      }
    }

    method UnregisterAll()
      requires Valid()
      modifies this
      ensures View() == Apply(old(View()), Op.UnregisterAll) && Valid() && inNotify == old(inNotify)
    {
      while notifyList != []
        invariant Valid() && inNotify == old(inNotify)
        invariant RemoveAll(View()) == RemoveAll(old(View()))
        decreases |notifyList|
      {
        Unlink(0);
      }
    }

    /** What a callback does to the list before it returns. */
    method Callback(ops: seq<Op>)
      requires Valid()
      modifies this
      ensures View() == ApplyAll(old(View()), ops) && Valid() && inNotify == old(inNotify)
    {
      var i := 0;
      while i < |ops|
        invariant i <= |ops| && Valid() && inNotify == old(inNotify)
        invariant ApplyAll(View(), ops[i..]) == ApplyAll(old(View()), ops)
      {
        assert ops[i..][1..] == ops[i + 1..];
        match ops[i] {
          case Register(event, index, hasCallback) => var _ := Register(event, index, hasCallback);
          case Unregister(id) => var _ := Unregister(id);
          case UnregisterIndex(index) => UnregisterIndex(index);
          case UnregisterAll => UnregisterAll();
        }
        i := i + 1;
      }
    }

    /** One round of the dispatch loop; `ops` is what the callback does, if it is run. */
    method Visit(event: nat, index: nat, ops: seq<Op>) returns (called: bool)
      requires Valid() && inNotify && !cursor.Stop?
      modifies this
      ensures Valid() && inNotify
      ensures called == WillCall(old(View()), event, index)
      ensures View() == Advance(if called then CallCurrent(old(View()), index, ops) else old(View()))
    {
      var notify := if cursor.OnLive? then notifyList[cursor.at] else notifyDestroyed[cursor.at];
      called := !notify.destroyed && notify.event == event
                && (notify.index == index || notify.index == INDEX_NONE) && notify.hasCallback;
      if called {
        log := log + [Called(notify.serial, index)];
        Callback(ops);
      }
      match cursor {
        case OnLive(i) => cursor := if i + 1 < |notifyList| then OnLive(i + 1) else Stop;
        case OnDead(i) => cursor := if i + 1 < |notifyDestroyed| then OnDead(i + 1) else Stop;
        case Stop =>
      }
    }

    /** process_notify; the k-th callback it runs performs script[k], later ones nothing. */
    method ProcessNotify(event: nat, index: nat, script: seq<seq<Op>>)
      requires Valid() && !inNotify
      modifies this
      ensures View() == Dispatch(old(View()), event, index, script) && Valid() && !inNotify
    {
      inNotify := true;
      cursor := if notifyList == [] then Stop else OnLive(0);
      ghost var entered := View();
      var todo := script;
      while !cursor.Stop?
        invariant Valid() && inNotify
        invariant Walk(View(), event, index, todo) == Walk(entered, event, index, script)
        decreases |todo|, Left(View())
      {
        var called := Visit(event, index, if todo == [] then [] else todo[0]);
        if called && todo != [] { todo := todo[1..]; }
      }
      inNotify := false;
      log := log + FreeAll(notifyDestroyed);
      notifyDestroyed := [];
    }
  }
}
