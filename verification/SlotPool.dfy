/** A pool of slots for handed-over buffers: a slot is filled, emptied when its contents are fetched,
    and filled again; the pool only grows. */
module SlotPool {
  import opened Options

  /** `serial` tells apart the items offered to the pool. */
  datatype Item = Item(serial: nat, code: string, data: nat)

  /** An emptied slot keeps its last code. */
  datatype Slot = Empty(lastCode: string) | Handle(item: Item)

  datatype Pool = Pool(slots: seq<Slot>, offered: nat, stored: seq<Item>, fetched: seq<Item>)

  const NewPool := Pool([], 0, [], [])

  function CodeOf(s: Slot): string {
    match s
    case Empty(code) => code
    case Handle(item) => item.code
  }

  /** The first empty slot, or the number of slots. */
  function FirstEmpty(slots: seq<Slot>): (i: nat)
    ensures i <= |slots|
    ensures i < |slots| ==> slots[i].Empty?
    ensures forall j :: 0 <= j < i ==> slots[j].Handle?
  {
    if slots == [] || slots[0].Empty? then 0 else 1 + FirstEmpty(slots[1..])
  }

  function FirstHandle(slots: seq<Slot>): (i: nat)
    ensures i <= |slots|
    ensures i < |slots| ==> slots[i].Handle?
    ensures forall j :: 0 <= j < i ==> slots[j].Empty?
  {
    if slots == [] || slots[0].Handle? then 0 else 1 + FirstHandle(slots[1..])
  }

  /** Some slot is empty or carries this code. */
  predicate Search(slots: seq<Slot>, code: string) {
    exists i :: 0 <= i < |slots| && (slots[i].Empty? || CodeOf(slots[i]) == code)
  }

  function Xset(slots: seq<Slot>, item: Item): seq<Slot> {
    var i := FirstEmpty(slots);
    if i == |slots| then slots else slots[i := Handle(item)]
  }

  /** An item goes into the first empty slot when the search succeeds, else into a new one; with the
      search satisfied by a code alone it goes nowhere. */
  function Update(p: Pool, code: string, data: nat): Pool {
    var item := Item(p.offered, code, data);
    var slots := if Search(p.slots, code) then Xset(p.slots, item) else p.slots + [Handle(item)];
    p.(slots := slots, offered := p.offered + 1, stored := if slots == p.slots then p.stored else p.stored + [item])
  }

  function Select(p: Pool): Pool {
    var i := FirstHandle(p.slots);
    if i == |p.slots| then p
    else
      var item := p.slots[i].item;
      p.(slots := p.slots[i := Empty(item.code)], fetched := p.fetched + [item])
  }

  datatype Op = Offer(code: string, data: nat) | Fetch

  function Step(p: Pool, op: Op): Pool {
    match op
    case Offer(code, data) => Update(p, code, data)
    case Fetch => Select(p)
  }

  function Run(ops: seq<Op>): Pool {
    if ops == [] then NewPool else Step(Run(ops[..|ops| - 1]), ops[|ops| - 1])
  }

  // ---------------------------------------------------------------- what is held

  function Contents(s: Slot): multiset<Item> {
    match s
    case Empty(_) => multiset{}
    case Handle(item) => multiset{item}
  }

  function Held(slots: seq<Slot>): multiset<Item> {
    if slots == [] then multiset{} else Held(slots[1..]) + Contents(slots[0])
  }

  lemma Exchange(a: multiset<Item>, b: multiset<Item>, c: multiset<Item>)
    ensures a + b + c == a + c + b
  {
  }

  lemma {:induction false} HeldSet(slots: seq<Slot>, i: nat, s: Slot)
    requires i < |slots|
    ensures Held(slots[i := s]) + Contents(slots[i]) == Held(slots) + Contents(s)
  {
    if i > 0 {
      var rest, first := slots[1..], Contents(slots[0]);
      HeldSet(rest, i - 1, s);
      assert slots[i := s][1..] == rest[i - 1 := s];
      Exchange(Held(rest[i - 1 := s]), first, Contents(slots[i]));
      Exchange(Held(rest), first, Contents(s));
    } else {
      assert slots[i := s][1..] == slots[1..];
    }
  }

  lemma {:induction false} HeldAppend(slots: seq<Slot>, item: Item)
    ensures Held(slots + [Handle(item)]) == Held(slots) + multiset{item}
  {
    if slots == [] {
      assert (slots + [Handle(item)])[1..] == [];
    } else {
      HeldAppend(slots[1..], item);
      assert (slots + [Handle(item)])[1..] == slots[1..] + [Handle(item)];
    }
  }

  lemma {:induction false} HeldBound(slots: seq<Slot>)
    ensures |Held(slots)| <= |slots|
    ensures |Held(slots)| == |slots| <==> FirstEmpty(slots) == |slots|
  {
    if slots != [] { HeldBound(slots[1..]); }
  }

  // ---------------------------------------------------------------- single steps

  /** An offer is turned away exactly when no slot is empty and some slot carries its code. */
  lemma DroppedIff(p: Pool, code: string, data: nat)
    ensures Update(p, code, data).stored == p.stored <==>
            (forall i :: 0 <= i < |p.slots| ==> p.slots[i].Handle?)
            && exists i :: 0 <= i < |p.slots| && CodeOf(p.slots[i]) == code
    ensures Update(p, code, data).stored == p.stored ==> Update(p, code, data).slots == p.slots
  {
    var k, item := FirstEmpty(p.slots), Item(p.offered, code, data);
    if k < |p.slots| {
      assert p.slots[k := Handle(item)][k] == Handle(item) != p.slots[k];
    } else if !Search(p.slots, code) {
      assert |p.slots + [Handle(item)]| != |p.slots|;
    }
  }

  lemma UpdateHeld(p: Pool, code: string, data: nat)
    ensures var p' := Update(p, code, data);
            && (p'.stored == p.stored ==> Held(p'.slots) == Held(p.slots) && |p'.slots| == |p.slots|)
            && (p'.stored != p.stored ==>
                  && p'.stored == p.stored + [Item(p.offered, code, data)]
                  && Held(p'.slots) == Held(p.slots) + multiset{Item(p.offered, code, data)}
                  && |p'.slots| == if FirstEmpty(p.slots) < |p.slots| then |p.slots| else |p.slots| + 1)
  {
    var k, item := FirstEmpty(p.slots), Item(p.offered, code, data);
    DroppedIff(p, code, data);
    if k < |p.slots| {
      assert Search(p.slots, code);
      HeldSet(p.slots, k, Handle(item));
    } else if !Search(p.slots, code) {
      HeldAppend(p.slots, item);
    }
  }

  lemma SelectHeld(p: Pool)
    ensures var p' := Select(p);
            && |p'.slots| == |p.slots| && p'.stored == p.stored
            && Held(p'.slots) + multiset(p'.fetched) == Held(p.slots) + multiset(p.fetched)
            && (p' == p ==> Held(p.slots) == multiset{})
            && (p' != p ==> |Held(p'.slots)| == |Held(p.slots)| - 1)
  {
    var i := FirstHandle(p.slots);
    if i < |p.slots| {
      var item := p.slots[i].item;
      HeldSet(p.slots, i, Empty(item.code));
      var slots := p.slots[i := Empty(item.code)];
      assert slots[i] != p.slots[i];
      assert Held(slots) + multiset{item} == Held(p.slots);
      assert |Held(p.slots)| == |Held(slots)| + 1;
      assert multiset(p.fetched + [item]) == multiset(p.fetched) + multiset{item};
    } else {
      NoneHeld(p.slots);
    }
  }

  lemma {:induction false} NoneHeld(slots: seq<Slot>)
    requires forall i :: 0 <= i < |slots| ==> slots[i].Empty?
    ensures Held(slots) == multiset{}
  {
    if slots != [] { NoneHeld(slots[1..]); }
  }

  // ---------------------------------------------------------------- runs

  /** Nothing is lost and nothing is made up: what was stored is what is held and what was fetched. */
  lemma {:induction false} Conserved(ops: seq<Op>)
    ensures var p := Run(ops);
            multiset(p.stored) == Held(p.slots) + multiset(p.fetched)
  {
    if ops != [] {
      var init, op := ops[..|ops| - 1], ops[|ops| - 1];
      Conserved(init);
      match op
      case Offer(code, data) => UpdateHeld(Run(init), code, data);
      case Fetch => SelectHeld(Run(init));
    }
  }

  predicate Rising(items: seq<Item>, bound: nat) {
    && (forall i, j :: 0 <= i < j < |items| ==> items[i].serial < items[j].serial)
    && (forall i :: 0 <= i < |items| ==> items[i].serial < bound)
  }

  lemma {:induction false} StoredRising(ops: seq<Op>)
    ensures Rising(Run(ops).stored, Run(ops).offered)
  {
    if ops != [] {
      StoredRising(ops[..|ops| - 1]);
      var op := ops[|ops| - 1];
      if op.Offer? { UpdateHeld(Run(ops[..|ops| - 1]), op.code, op.data); }
    }
  }

  lemma {:induction false} RisingOnce(items: seq<Item>, bound: nat, x: Item)
    requires Rising(items, bound)
    ensures multiset(items)[x] <= 1
  {
    if items != [] {
      var init, last := items[..|items| - 1], items[|items| - 1];
      RisingOnce(init, last.serial, x);
      assert items == init + [last];
    }
  }

  /** Every item fetched had been stored, no item is fetched twice, and none is both fetched and held. */
  lemma FetchedOnce(ops: seq<Op>, x: Item)
    ensures var p := Run(ops);
            && Held(p.slots)[x] + multiset(p.fetched)[x] <= 1
            && (x in p.fetched ==> x in p.stored)
  {
    Conserved(ops);
    StoredRising(ops);
    var p := Run(ops);
    RisingOnce(p.stored, p.offered, x);
    if x in p.fetched { assert x in multiset(p.fetched); assert x in multiset(p.stored); }
  }

  /** The most items held at any moment of the run. */
  function Peak(ops: seq<Op>): nat {
    var now := |Held(Run(ops).slots)|;
    if ops == [] then now
    else
      var before := Peak(ops[..|ops| - 1]);
      if now > before then now else before
  }

  /** The pool is exactly as large as the most it ever had to hold. */
  lemma {:induction false} SizeIsPeak(ops: seq<Op>)
    ensures |Run(ops).slots| == Peak(ops)
  {
    HeldBound(Run(ops).slots);
    if ops != [] {
      var init, op := ops[..|ops| - 1], ops[|ops| - 1];
      SizeIsPeak(init);
      HeldBound(Run(init).slots);
      match op
      case Offer(code, data) => UpdateHeld(Run(init), code, data);
      case Fetch => SelectHeld(Run(init));
    }
  }

  // ---------------------------------------------------------------- as the source does it

  class SlotStack {
    var addr: seq<Slot>
    var count: nat
    var offered: nat
    ghost var stored: seq<Item>
    ghost var fetched: seq<Item>

    ghost predicate Valid()
      reads this
    {
      count == |addr|
    }

    ghost function View(): Pool
      reads this
    {
      Pool(addr, offered, stored, fetched)
    }

    constructor ()
      ensures Valid() && View() == NewPool
    {
      addr, count, offered := [], 0, 0;
      stored, fetched := [], [];
    }

    method Find(code: string) returns (found: bool)
      requires Valid()
      ensures found == Search(addr, code)
    {
      var i := 0;
      while i < count
        invariant i <= count
        invariant forall j :: 0 <= j < i ==> addr[j].Handle? && CodeOf(addr[j]) != code
      {
        if addr[i].Empty? || CodeOf(addr[i]) == code { return true; }
        i := i + 1;
      }
      return false;
    }

    method SetEmpty(item: Item) returns (done: bool)
      requires Valid()
      modifies this`addr
      ensures Valid() && addr == Xset(old(addr), item)
      ensures done <==> FirstEmpty(old(addr)) < |old(addr)|
    {
      var i := 0;
      while i < count
        invariant i <= count && addr == old(addr) && FirstEmpty(addr) == i + FirstEmpty(addr[i..])
      {
        assert addr[i..][1..] == addr[i + 1..];
        if addr[i].Empty? {
          addr := addr[i := Handle(item)];
          return true;
        }
        i := i + 1;
      }
      assert addr[i..] == [];
      return false;
    }

    method Append(item: Item)
      requires Valid()
      modifies this`addr, this`count
      ensures Valid() && addr == old(addr) + [Handle(item)]
    {
      addr := addr + [Handle(item)];
      count := count + 1;
    }

    method Offer(code: string, data: nat)
      requires Valid()
      modifies this
      ensures Valid() && View() == Update(old(View()), code, data)
    {
      var item := Item(offered, code, data);
      DroppedIff(View(), code, data);
      var found := Find(code);
      var done := true;
      if found {
        done := SetEmpty(item);
      } else {
        Append(item);
      }
      offered := offered + 1;
      if done { stored := stored + [item]; }
    }

    /** Hands out the contents of the first filled slot. */
    method Fetch() returns (item: Option<Item>)
      requires Valid()
      modifies this
      ensures Valid() && View() == Select(old(View()))
      ensures item.Some? <==> FirstHandle(old(addr)) < |old(addr)|
      ensures item.Some? ==> fetched == old(fetched) + [item.value]
    {
      var i := 0;
      while i < count
        invariant i <= count && View() == old(View()) && FirstHandle(addr) == i + FirstHandle(addr[i..])
      {
        assert addr[i..][1..] == addr[i + 1..];
        if addr[i].Handle? {
          item := Some(addr[i].item);
          addr := addr[i := Empty(item.value.code)];
          fetched := fetched + [item.value];
          return;
        }
        i := i + 1;
      }
      assert addr[i..] == [];
      return None;
    }
  }
}
