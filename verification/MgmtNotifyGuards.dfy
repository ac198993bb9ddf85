/** Which ops of a callback remove the entry whose callback it is, told before each op is done. */
module MgmtNotifyGuards {
  import opened MgmtNotify

  /** The loop stands on a registered entry. */
  predicate Standing(s: State) {
    s.inNotify && s.cursor.OnLive? && s.cursor.at < |s.live|
  }

  /** The loop stands on a removed entry, and stays there. */
  predicate Stranded(s: State) {
    s.inNotify && s.cursor.OnDead? && InRange(s)
  }

  /** The op removes the entry the loop stands on. An id names the first entry that has it. */
  predicate RemovesCurrent(s: State, op: Op)
    requires Standing(s)
  {
    match op
    case Register(_, _, _) => false
    case Unregister(id) => id != 0 && FindId(s.live, id) == s.cursor.at
    case UnregisterIndex(index) => s.live[s.cursor.at].index == index
    case UnregisterAll => true
  }

  lemma {:induction false} RemoveIndexCutsIff(s: State, index: nat, k: nat)
    requires Standing(s)
    ensures var s1 := RemoveIndexFrom(s, index, k);
            if k <= s.cursor.at && s.live[s.cursor.at].index == index then Stranded(s1) else Standing(s1)
    decreases |s.live| - k
  {
    if k < |s.live| {
      if s.live[k].index != index {
        RemoveIndexCutsIff(s, index, k + 1);
      } else if k == s.cursor.at {
        RemoveIndexInRange(RemoveAt(s, k), index, k);
        StrandedByIndex(RemoveAt(s, k), index, k);
      } else {
        RemoveIndexCutsIff(RemoveAt(s, k), index, k);
      }
    }
  }

  lemma {:induction false} StrandedByIndex(s: State, index: nat, k: nat)
    requires Stranded(s)
    ensures Stranded(RemoveIndexFrom(s, index, k))
    decreases |s.live| - k
  {
    if k < |s.live| {
      StrandedByIndex(if s.live[k].index == index then RemoveAt(s, k) else s, index,
                      if s.live[k].index == index then k else k + 1);
    }
  }

  lemma {:induction false} StrandedByAll(s: State)
    requires Stranded(s)
    ensures Stranded(RemoveAll(s))
    decreases |s.live|
  {
    if s.live != [] { StrandedByAll(RemoveAt(s, 0)); }
  }

  lemma {:induction false} RemoveAllCuts(s: State)
    requires Standing(s)
    ensures Stranded(RemoveAll(s))
    decreases |s.live|
  {
    if s.cursor.at == 0 { StrandedByAll(RemoveAt(s, 0)); } else { RemoveAllCuts(RemoveAt(s, 0)); }
  }

  /** One op takes the loop off the list exactly if its guard says so. */
  lemma OpCutsIff(s: State, op: Op)
    requires Standing(s)
    ensures if RemovesCurrent(s, op) then Stranded(Apply(s, op)) else Standing(Apply(s, op))
  {
    match op
    case Register(_, _, _) =>
    case Unregister(_) =>
    case UnregisterIndex(index) => RemoveIndexCutsIff(s, index, 0);
    case UnregisterAll => RemoveAllCuts(s);
  }

  lemma {:induction false} StrandedStays(s: State, ops: seq<Op>)
    requires Stranded(s)
    ensures Stranded(ApplyAll(s, ops))
    decreases |ops|
  {
    if ops != [] {
      match ops[0] {
        case Register(_, _, _) =>
        case Unregister(_) =>
        case UnregisterIndex(index) => StrandedByIndex(s, index, 0);
        case UnregisterAll => StrandedByAll(s);
      }
      StrandedStays(Apply(s, ops[0]), ops[1..]);
    }
  }

  /** No op of a callback removes the entry the loop stands on. */
  predicate OpsGuarded(s: State, ops: seq<Op>)
    requires Standing(s)
    decreases |ops|
  {
    ops != [] ==> !RemovesCurrent(s, ops[0]) && (OpCutsIff(s, ops[0]); OpsGuarded(Apply(s, ops[0]), ops[1..]))
  }

  lemma {:induction false} CallbackCutsIff(s: State, ops: seq<Op>)
    requires Standing(s)
    ensures if OpsGuarded(s, ops) then Standing(ApplyAll(s, ops)) else Stranded(ApplyAll(s, ops))
    decreases |ops|
  {
    if ops != [] {
      OpCutsIff(s, ops[0]);
      if RemovesCurrent(s, ops[0]) {
        StrandedStays(Apply(s, ops[0]), ops[1..]);
      } else {
        CallbackCutsIff(Apply(s, ops[0]), ops[1..]);
      }
    }
  }

  // ---------------------------------------------------------------- told from the entry alone

  /** The op names this entry, by its id, by its controller, or among all. */
  predicate Names(op: Op, e: Entry) {
    match op
    case Register(_, _, _) => false
    case Unregister(id) => id != 0 && id == e.id
    case UnregisterIndex(index) => index == e.index
    case UnregisterAll => true
  }

  /** The loop stands on e, and no entry before it has its id. */
  predicate StandsOn(s: State, e: Entry) {
    Standing(s) && s.live[s.cursor.at] == e && forall j :: 0 <= j < s.cursor.at ==> s.live[j].id != e.id
  }

  lemma RemoveAtStands(s: State, k: nat, e: Entry)
    requires StandsOn(s, e) && k < |s.live| && k != s.cursor.at
    ensures StandsOn(RemoveAt(s, k), e)
  {
  }

  lemma {:induction false} RemoveIndexStands(s: State, index: nat, k: nat, e: Entry)
    requires StandsOn(s, e) && e.index != index
    ensures StandsOn(RemoveIndexFrom(s, index, k), e)
    decreases |s.live| - k
  {
    if k < |s.live| {
      if s.live[k].index == index {
        RemoveAtStands(s, k, e);
        RemoveIndexStands(RemoveAt(s, k), index, k, e);
      } else {
        RemoveIndexStands(s, index, k + 1, e);
      }
    }
  }

  lemma NamedIff(s: State, op: Op, e: Entry)
    requires StandsOn(s, e)
    ensures RemovesCurrent(s, op) <==> Names(op, e)
    ensures !Names(op, e) ==> StandsOn(Apply(s, op), e)
  {
    match op
    case Register(_, _, _) =>
    case Unregister(id) =>
      if id != 0 && FindId(s.live, id) < |s.live| && id != e.id { RemoveAtStands(s, FindId(s.live, id), e); }
    case UnregisterIndex(index) => if index != e.index { RemoveIndexStands(s, index, 0, e); }
    case UnregisterAll =>
  }

  /** Where ids are not shared, a callback ends the dispatch exactly if one of its ops names its entry,
      whatever else they do and in whatever order. */
  lemma {:induction false} NamedCutsIff(s: State, ops: seq<Op>, e: Entry)
    requires StandsOn(s, e)
    ensures ApplyAll(s, ops).cursor.OnDead? <==> exists k :: 0 <= k < |ops| && Names(ops[k], e)
    decreases |ops|
  {
    CallbackCutsIff(s, ops);
    if ops != [] {
      NamedIff(s, ops[0], e);
      if !Names(ops[0], e) {
        NamedCutsIff(Apply(s, ops[0]), ops[1..], e);
        assert forall k :: 0 <= k < |ops[1..]| ==> ops[1..][k] == ops[k + 1];
        assert forall k :: 0 < k < |ops| ==> ops[k] == ops[1..][k - 1];
      }
    }
  }
}
