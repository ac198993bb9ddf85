/** The notification half of the management client: a list of registered entries that callbacks may
    edit while an event is being dispatched over it, with destruction deferred to the end. */
module MgmtNotify {

  const UINT_MODULUS: nat := 0x1_0000_0000
  const INDEX_NONE: nat := 0xFFFF

  /** `serial` names the heap block: the n-th registration has serial n. */
  datatype Entry = Entry(serial: nat, id: nat, event: nat, index: nat, hasCallback: bool, destroyed: bool)

  /** The list node the dispatch loop stands on. A node keeps its identity when it is moved to the
      list of deferred destructions, and its successor is then its successor there. */
  datatype Cursor = Stop | OnLive(at: nat) | OnDead(at: nat)

  datatype Event =
    | Called(serial: nat, index: nat)
    | Removed(serial: nat)
    | Freed(serial: nat)

  datatype State = State(
    live: seq<Entry>,
    dead: seq<Entry>,
    cursor: Cursor,
    inNotify: bool,
    nextId: nat,
    accepted: nat,
    log: seq<Event>)

  const Initial := State([], [], Stop, false, 0, 0, [])

  /** The calls a callback, or anyone else, may make. */
  datatype Op =
    | Register(event: nat, index: nat, hasCallback: bool)
    | Unregister(id: nat)
    | UnregisterIndex(index: nat)
    | UnregisterAll

  // ---------------------------------------------------------------- editing the list

  function RegisterEntry(s: State, event: nat, index: nat, hasCallback: bool): State {
    if event == 0 then s
    else
      var id := if s.nextId < 1 then 1 else s.nextId;
      s.(live := s.live + [Entry(s.accepted, id, event, index, hasCallback, false)],
         nextId := (id + 1) % UINT_MODULUS,
         accepted := s.accepted + 1)
  }

  /** Where the cursor's node is after the k-th live node moves to the end of the dead list. */
  function CursorAfterRemoval(s: State, k: nat): Cursor {
    match s.cursor
    case OnLive(i) => if k < i then OnLive(i - 1) else if k == i then OnDead(|s.dead|) else s.cursor
    case _ => s.cursor
  }

  /** Unlinks the k-th live entry; it is freed at once unless a dispatch is running. */
  function RemoveAt(s: State, k: nat): (s': State)
    requires k < |s.live|
    ensures |s'.live| == |s.live| - 1
  {
    var e := s.live[k];
    var rest := s.(live := s.live[..k] + s.live[k + 1..]);
    if !s.inNotify then rest.(log := s.log + [Removed(e.serial), Freed(e.serial)])
    else rest.(dead := s.dead + [e.(destroyed := true)],
               cursor := CursorAfterRemoval(s, k),
               log := s.log + [Removed(e.serial)])
  }

  function FindId(live: seq<Entry>, id: nat): (i: nat)
    ensures i <= |live|
    ensures i < |live| ==> live[i].id == id
    ensures forall j :: 0 <= j < i ==> live[j].id != id
  {
    if live == [] || live[0].id == id then 0 else 1 + FindId(live[1..], id)
  }

  function RemoveIndexFrom(s: State, index: nat, k: nat): State
    decreases |s.live| - k
  {
    if k >= |s.live| then s
    else if s.live[k].index == index then RemoveIndexFrom(RemoveAt(s, k), index, k)
    else RemoveIndexFrom(s, index, k + 1)
  }

  function RemoveAll(s: State): State
    decreases |s.live|
  {
    if s.live == [] then s else RemoveAll(RemoveAt(s, 0))
  }

  function Apply(s: State, op: Op): State {
    match op
    case Register(event, index, hasCallback) => RegisterEntry(s, event, index, hasCallback)
    case Unregister(id) => var k := FindId(s.live, id); if id == 0 || k == |s.live| then s else RemoveAt(s, k)
    case UnregisterIndex(index) => RemoveIndexFrom(s, index, 0)
    case UnregisterAll => RemoveAll(s)
  }

  function ApplyAll(s: State, ops: seq<Op>): State
    decreases |ops|
  {
    if ops == [] then s else ApplyAll(Apply(s, ops[0]), ops[1..])
  }

  // ---------------------------------------------------------------- dispatching an event

  predicate Interested(e: Entry, event: nat, index: nat) {
    e.event == event && (e.index == index || e.index == INDEX_NONE)
  }

  predicate InRange(s: State) {
    && (s.cursor.OnLive? ==> s.cursor.at < |s.live|)
    && (s.cursor.OnDead? ==> s.cursor.at < |s.dead|)
  }

  function Current(s: State): Entry
    requires InRange(s) && !s.cursor.Stop?
  {
    if s.cursor.OnLive? then s.live[s.cursor.at] else s.dead[s.cursor.at]
  }

  function Advance(s: State): (s': State)
    ensures InRange(s')
  {
    match s.cursor
    case Stop => s
    case OnLive(i) => s.(cursor := if i + 1 < |s.live| then OnLive(i + 1) else Stop)
    case OnDead(i) => s.(cursor := if i + 1 < |s.dead| then OnDead(i + 1) else Stop)
  }

  predicate WillCall(s: State, event: nat, index: nat)
    requires InRange(s) && !s.cursor.Stop?
  {
    var e := Current(s);
    !e.destroyed && Interested(e, event, index) && e.hasCallback
  }

  function CallCurrent(s: State, index: nat, ops: seq<Op>): State
    requires InRange(s) && !s.cursor.Stop?
  {
    ApplyAll(s.(log := s.log + [Called(Current(s).serial, index)]), ops)
  }

  function Left(s: State): nat {
    match s.cursor
    case Stop => 0
    case OnLive(i) => if i < |s.live| then |s.live| - i else 0
    case OnDead(i) => if i < |s.dead| then |s.dead| - i else 0
  }

  lemma RemoveAtInRange(s: State, k: nat)
    requires InRange(s) && k < |s.live| && (s.inNotify || s.cursor.Stop?)
    ensures InRange(RemoveAt(s, k)) && RemoveAt(s, k).inNotify == s.inNotify
    ensures s.cursor.Stop? ==> RemoveAt(s, k).cursor.Stop?
  {
  }

  lemma {:induction false} RemoveIndexInRange(s: State, index: nat, k: nat)
    requires InRange(s) && (s.inNotify || s.cursor.Stop?)
    ensures var s' := RemoveIndexFrom(s, index, k);
            InRange(s') && s'.inNotify == s.inNotify && (s.cursor.Stop? ==> s'.cursor.Stop?)
    decreases |s.live| - k
  {
    if k < |s.live| {
      if s.live[k].index == index {
        RemoveAtInRange(s, k);
        RemoveIndexInRange(RemoveAt(s, k), index, k);
      } else {
        RemoveIndexInRange(s, index, k + 1);
      }
    }
  }

  lemma {:induction false} RemoveAllInRange(s: State)
    requires InRange(s) && (s.inNotify || s.cursor.Stop?)
    ensures var s' := RemoveAll(s);
            InRange(s') && s'.inNotify == s.inNotify && (s.cursor.Stop? ==> s'.cursor.Stop?)
    decreases |s.live|
  {
    if s.live != [] {
      RemoveAtInRange(s, 0);
      RemoveAllInRange(RemoveAt(s, 0));
    }
  }

  lemma ApplyInRange(s: State, op: Op)
    requires InRange(s) && (s.inNotify || s.cursor.Stop?)
    ensures var s' := Apply(s, op);
            InRange(s') && s'.inNotify == s.inNotify && (s.cursor.Stop? ==> s'.cursor.Stop?)
  {
    match op
    case Register(_, _, _) =>
    case Unregister(id) => if FindId(s.live, id) < |s.live| { RemoveAtInRange(s, FindId(s.live, id)); }
    case UnregisterIndex(index) => RemoveIndexInRange(s, index, 0);
    case UnregisterAll => RemoveAllInRange(s);
  }

  lemma {:induction false} ApplyAllInRange(s: State, ops: seq<Op>)
    requires InRange(s) && (s.inNotify || s.cursor.Stop?)
    ensures var s' := ApplyAll(s, ops);
            InRange(s') && s'.inNotify == s.inNotify && (s.cursor.Stop? ==> s'.cursor.Stop?)
    decreases |ops|
  {
    if ops != [] {
      ApplyInRange(s, ops[0]);
      ApplyAllInRange(Apply(s, ops[0]), ops[1..]);
    }
  }

  /** The loop from the cursor to the end. The k-th callback still to come performs script[k], and
      nothing once the script is used up. */
  function Walk(s: State, event: nat, index: nat, script: seq<seq<Op>>): State
    requires InRange(s) && s.inNotify
    decreases |script|, Left(s)
  {
    if s.cursor.Stop? then s
    else if !WillCall(s, event, index) then Walk(Advance(s), event, index, script)
    else if script == [] then Walk(Advance(CallCurrent(s, index, [])), event, index, [])
    else
      ApplyAllInRange(s.(log := s.log + [Called(Current(s).serial, index)]), script[0]);
      Walk(Advance(CallCurrent(s, index, script[0])), event, index, script[1..])
  }

  function FreeAll(dead: seq<Entry>): (es: seq<Event>)
    ensures |es| == |dead| && forall i :: 0 <= i < |dead| ==> es[i] == Freed(dead[i].serial)
  {
    seq(|dead|, i requires 0 <= i < |dead| => Freed(dead[i].serial))
  }

  function Enter(s: State): State {
    s.(inNotify := true, cursor := if s.live == [] then Stop else OnLive(0))
  }

  function Leave(s: State): State {
    s.(inNotify := false, cursor := Stop, dead := [], log := s.log + FreeAll(s.dead))
  }

  /** process_notify. */
  function Dispatch(s: State, event: nat, index: nat, script: seq<seq<Op>>): State {
    Leave(Walk(Enter(s), event, index, script))
  }

  datatype Action = Call(op: Op) | Notify(event: nat, index: nat, script: seq<seq<Op>>)

  function Step(s: State, a: Action): State {
    match a
    case Call(op) => Apply(s, op)
    case Notify(event, index, script) => Dispatch(s, event, index, script)
  }

  function Run(actions: seq<Action>): State {
    if actions == [] then Initial
    else Step(Run(actions[..|actions| - 1]), actions[|actions| - 1])
  }
}
