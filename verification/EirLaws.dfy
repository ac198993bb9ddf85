/** What an out-of-band block carries, how large it gets, and that reading it gives back what was
    put in. */
module EirLaws {
  import opened Arithmetic
  import opened Octets
  import opened Options
  import opened Eir

  // ---------------------------------------------------------------- blocks as lists of fields

  /** A block of fields means the fields applied in order, whatever follows it. */
  lemma {:induction false} ParseOfFields(e: EirData, fs: seq<Field>, rest: seq<byte>)
    requires AllEncodable(fs)
    ensures ParseFields(e, EncodeAll(fs) + rest) == ParseFields(ApplyAll(e, fs), rest)
    decreases |fs|
  {
    if fs == [] {
      assert EncodeAll(fs) + rest == rest;
    } else {
      var f, data := fs[0], EncodeAll(fs) + rest;
      var tail := EncodeAll(fs[1..]) + rest;
      assert data == Encode(f) + tail;
      assert data[2..data[0] + 1] == f.payload && data[data[0] + 1..] == tail;
      ParseOfFields(Apply(e, f.kind, f.payload), fs[1..], rest);
    }
  }

  /** The fields the reader finds in a block, and what it leaves unread. */
  function FieldsOf(data: seq<byte>): (r: (seq<Field>, seq<byte>))
    ensures AllEncodable(r.0) && Stops(r.1)
    ensures EncodeAll(r.0) + r.1 == data
    decreases |data|
  {
    if Stops(data) then ([], data)
    else
      var (fs, rest) := FieldsOf(data[data[0] + 1..]);
      var f := Field(data[1], data[2..data[0] + 1]);
      assert ([f] + fs)[1..] == fs;
      assert Encode(f) == data[..data[0] + 1];
      ([f] + fs, rest)
  }

  /** Every block of bytes is read as one list of fields, and no other list fits it. */
  lemma {:induction false} ParseIsApply(e: EirData, data: seq<byte>, fs: seq<Field>, rest: seq<byte>)
    requires AllEncodable(fs) && Stops(rest) && data == EncodeAll(fs) + rest
    ensures ParseFields(e, data) == ApplyAll(e, fs)
    ensures FieldsOf(data) == (fs, rest)
    decreases |fs|
  {
    ParseOfFields(e, fs, rest);
    if fs == [] {
      assert data == rest;
    } else {
      var f, tail := fs[0], EncodeAll(fs[1..]) + rest;
      assert data == Encode(f) + tail;
      assert data[2..data[0] + 1] == f.payload && data[data[0] + 1..] == tail;
      ParseIsApply(e, tail, fs[1..], rest);
      assert fs == [f] + fs[1..];
    }
  }

  lemma {:induction false} EncodeAppend(a: seq<Field>, b: seq<Field>)
    requires AllEncodable(a) && AllEncodable(b)
    ensures EncodeAll(a + b) == EncodeAll(a) + EncodeAll(b)
  {
    if a == [] {
      assert a + b == b;
    } else {
      assert (a + b)[1..] == a[1..] + b;
      EncodeAppend(a[1..], b);
    }
  }

  lemma {:induction false} ApplyAppend(e: EirData, a: seq<Field>, b: seq<Field>)
    ensures ApplyAll(e, a + b) == ApplyAll(ApplyAll(e, a), b)
    decreases |a|
  {
    if a == [] {
      assert a + b == b;
    } else {
      assert (a + b)[1..] == a[1..] + b;
      ApplyAppend(Apply(e, a[0].kind, a[0].payload), a[1..], b);
    }
  }

  lemma EncodeOne(f: Field)
    requires Encodable(f)
    ensures EncodeAll([f]) == Encode(f)
  {
    assert EncodeAll([f]) == Encode(f) + EncodeAll([]);
  }

  // ---------------------------------------------------------------- which candidates are kept

  /** The distinct elements in the order of their first occurrence. */
  function Distinct<T(==)>(list: seq<T>): seq<T> {
    if list == [] then []
    else
      var before, last := Distinct(list[..|list| - 1]), list[|list| - 1];
      if last in before then before else before + [last]
  }

  predicate Unique<T(==)>(s: seq<T>) {
    forall i, j :: 0 <= i < j < |s| ==> s[i] != s[j]
  }

  lemma {:induction false} DistinctMeaning<T>(list: seq<T>)
    ensures Unique(Distinct(list))
    ensures forall x :: x in Distinct(list) <==> x in list
  {
    if list != [] {
      var init := list[..|list| - 1];
      DistinctMeaning(init);
      assert list == init + [list[|list| - 1]];
    }
  }

  /** A longer list only adds at the end. */
  lemma {:induction false} DistinctGrows<T>(a: seq<T>, b: seq<T>)
    ensures Distinct(a) <= Distinct(a + b)
    decreases |b|
  {
    if b == [] {
      assert a + b == a;
    } else {
      var init := b[..|b| - 1];
      assert (a + b)[..|a + b| - 1] == a + init;
      DistinctGrows(a, init);
    }
  }

  function Take<T>(s: seq<T>, n: nat): seq<T> {
    if |s| <= n then s else s[..n]
  }

  lemma CollectFull<T>(done: seq<T>, list: seq<T>, room: nat)
    requires |Distinct(done)| == room && list != []
    ensures Take(Distinct(done + list), room) == Distinct(done)
    ensures |Distinct(done + list[..|list| - 1])| >= room
  {
    DistinctGrows(done, list);
    DistinctGrows(done, list[..|list| - 1]);
  }

  lemma Shift<T>(done: seq<T>, list: seq<T>)
    requires list != []
    ensures var done' := done + [list[0]];
            && Distinct(done') == (if list[0] in Distinct(done) then Distinct(done) else Distinct(done) + [list[0]])
            && done' + list[1..] == done + list
            && (|list| > 1 ==> done' + list[1..][..|list| - 2] == done + list[..|list| - 1])
            && (|list| == 1 ==> done + list[..|list| - 1] == done)
  {
    assert (done + [list[0]])[..|done|] == done;
  }

  lemma {:induction false} CollectFrom<T>(done: seq<T>, list: seq<T>, room: nat)
    requires |Distinct(done)| <= room
    ensures Collect(list, Distinct(done), room).0 == Take(Distinct(done + list), room)
    ensures Collect(list, Distinct(done), room).1 <==>
            list != [] && |Distinct(done + list[..|list| - 1])| >= room
    decreases |list|
  {
    if list == [] {
      assert done + list == done;
    } else if |Distinct(done)| >= room {
      CollectFull(done, list, room);
    } else {
      Shift(done, list);
      CollectFrom(done + [list[0]], list[1..], room);
    }
  }

  /** The pass keeps the first distinct candidates there is room for, and reports a cut exactly when
      a candidate is left over once the room is used up. */
  lemma CollectExact<T>(list: seq<T>, room: nat)
    ensures Collect(list, [], room).0 == Take(Distinct(list), room)
    ensures Collect(list, [], room).1 <==> list != [] && |Distinct(list[..|list| - 1])| >= room
  {
    assert Distinct<T>([]) == [];
    assert [] + list == list;
    if list != [] { assert [] + list[..|list| - 1] == list[..|list| - 1]; }
    CollectFrom([], list, room);
  }

  /** A complete list names every candidate once, in the order of first occurrence. */
  lemma UncutIsComplete<T>(list: seq<T>, room: nat)
    requires !Collect(list, [], room).1
    ensures var kept := Collect(list, [], room).0;
            kept == Distinct(list) && Unique(kept) && forall x :: x in kept <==> x in list
  {
    CollectExact(list, room);
    DistinctMeaning(list);
    if list != [] {
      assert Distinct(list) == (if list[|list| - 1] in Distinct(list[..|list| - 1])
                                then Distinct(list[..|list| - 1])
                                else Distinct(list[..|list| - 1]) + [list[|list| - 1]]);
    }
  }

  lemma {:induction false} DistinctNotLonger<T>(list: seq<T>)
    ensures |Distinct(list)| <= |list|
    ensures list != [] ==> |Distinct(list[..|list| - 1])| <= |Distinct(list)|
  {
    if list != [] { DistinctNotLonger(list[..|list| - 1]); }
  }

  /** The converse fails exactly when the room suffices for all distinct candidates, and is used up
      before the last candidate, which can then only repeat an earlier one. */
  lemma CutThoughCompleteIff<T>(list: seq<T>, room: nat)
    ensures var (kept, cut) := Collect(list, [], room);
            cut && kept == Distinct(list) <==>
            list != [] && |Distinct(list[..|list| - 1])| >= room >= |Distinct(list)|
  {
    CollectExact(list, room);
  }

  /** The same in terms of the last candidate: the distinct ones fill the room exactly, and the list
      ends in a repetition. */
  lemma CutThoughCompleteMeaning<T>(list: seq<T>, room: nat)
    ensures var (kept, cut) := Collect(list, [], room);
            cut && kept == Distinct(list) <==>
            list != [] && |Distinct(list)| == room && list[|list| - 1] in list[..|list| - 1]
  {
    CutThoughCompleteIff(list, room);
    DistinctNotLonger(list);
    if list != [] { DistinctMeaning(list[..|list| - 1]); }
  }

  // ---------------------------------------------------------------- sizes

  /** There is room for one more element after `count` exactly when the source's own test says so. */
  lemma RoomIsExact(used: nat, size: nat, count: nat)
    requires size > 0
    ensures used + count * size + 2 + size > MAX_EIR_LENGTH <==> count >= Room(used, size)
  {
    if used + 2 <= MAX_EIR_LENGTH {
      var r := Room(used, size);
      assert MAX_EIR_LENGTH - 2 - used == r * size + (MAX_EIR_LENGTH - 2 - used) % size;
      assert count * size + size == (count + 1) * size;
      if count >= r { MultipleAtLeast(count + 1 - r, size); } else { MultipleAtMost(count + 1, r, size); }
    }
  }

  lemma MultipleAtMost(a: nat, b: nat, m: nat)
    requires a <= b
    ensures a * m <= b * m
  {
    assert b * m == a * m + (b - a) * m;
  }

  function FixedSize(o: Oob): nat {
    (if o.classOfDevice > 0 then 5 else 0) + (if o.hash.Some? then 18 else 0)
    + (if o.randomizer.Some? then 18 else 0)
    + (if o.name == [] then 0 else if |o.name| > MAX_NAME then MAX_NAME + 2 else |o.name| + 2)
    + (if o.vendor != 0 then 10 else 0)
  }

  lemma SizeOfOne(fs: seq<Field>)
    requires |fs| <= 1 && AllEncodable(fs)
    ensures |EncodeAll(fs)| == if fs == [] then 0 else |fs[0].payload| + 2
  {
    if fs != [] {
      assert fs == [fs[0]];
      EncodeOne(fs[0]);
    }
  }

  lemma SizeOfFive(a: seq<Field>, b: seq<Field>, c: seq<Field>, d: seq<Field>, i: seq<Field>)
    requires AllEncodable(a) && AllEncodable(b) && AllEncodable(c) && AllEncodable(d) && AllEncodable(i)
    ensures |EncodeAll(a + b + c + d + i)| ==
            |EncodeAll(a)| + |EncodeAll(b)| + |EncodeAll(c)| + |EncodeAll(d)| + |EncodeAll(i)|
  {
    EncodeAppend(a, b);
    EncodeAppend(a + b, c);
    EncodeAppend(a + b + c, d);
    EncodeAppend(a + b + c + d, i);
  }

  lemma PartSizes(o: Oob)
    ensures |EncodeAll(ClassFields(o))| == if o.classOfDevice > 0 then 5 else 0
    ensures |EncodeAll(KeyFields(SSP_HASH, o.hash))| == if o.hash.Some? then 18 else 0
    ensures |EncodeAll(KeyFields(SSP_RANDOMIZER, o.randomizer))| == if o.randomizer.Some? then 18 else 0
    ensures |EncodeAll(NameFields(o))| ==
            if o.name == [] then 0 else if |o.name| > MAX_NAME then MAX_NAME + 2 else |o.name| + 2
    ensures |EncodeAll(IdFields(o))| == if o.vendor != 0 then 10 else 0
  {
    SizeOfOne(ClassFields(o));
    SizeOfOne(KeyFields(SSP_HASH, o.hash));
    SizeOfOne(KeyFields(SSP_RANDOMIZER, o.randomizer));
    SizeOfOne(NameFields(o));
    SizeOfOne(IdFields(o));
  }

  lemma FixedFieldsSize(o: Oob)
    ensures |EncodeAll(FixedFields(o))| == FixedSize(o) <= 101
  {
    PartSizes(o);
    SizeOfFive(ClassFields(o), KeyFields(SSP_HASH, o.hash), KeyFields(SSP_RANDOMIZER, o.randomizer), NameFields(o),
               IdFields(o));
  }

  function Used16(o: Oob): nat {
    |EncodeAll(FixedFields(o) + Fields16(o))|
  }

  lemma ListSizes(o: Oob)
    ensures Used16(o) == FixedSize(o) + (if Kept16(o).0 == [] then 0 else 2 + 2 * |Kept16(o).0|) <= MAX_EIR_LENGTH
    ensures |EncodeAll(OobFields(o))| ==
            Used16(o) + (if Fields128(o, Used16(o)) == [] then 0 else 2 + 16 * |Kept128(o, Used16(o)).0|)
            <= MAX_EIR_LENGTH
  {
    FixedFieldsSize(o);
    EncodeAppend(FixedFields(o), Fields16(o));
    SizeOfOne(Fields16(o));
    EncodeAppend(FixedFields(o) + Fields16(o), Fields128(o, Used16(o)));
    SizeOfOne(Fields128(o, Used16(o)));
  }

  lemma BlockShape(o: Oob)
    ensures var optional := EncodeAll(OobFields(o));
            CreateOob(o) == Le16(OOB_MIN + |optional|) + (o.addr + optional)
  {
  }

  /** The optional part never exceeds the limit, the stored length is the length of the block, and
      every field length fits its byte. */
  lemma BlockIsBounded(o: Oob)
    ensures |EncodeAll(OobFields(o))| <= MAX_EIR_LENGTH
    ensures |CreateOob(o)| == OOB_MIN + |EncodeAll(OobFields(o))|
    ensures Value16(CreateOob(o)) == |CreateOob(o)|
    ensures AllEncodable(OobFields(o))
  {
    ListSizes(o);
    var optional := EncodeAll(OobFields(o));
    BlockShape(o);
    LeHead(OOB_MIN + |optional|, o.addr + optional);
  }

  /** A list of the kind that claims to be complete names every eligible service exactly once. */
  lemma AllMeansAll(o: Oob)
    ensures forall f :: f in Fields16(o) && f.kind == UUID16_ALL ==>
            var kept := Kept16(o).0;
            f.payload == Bytes16(kept) && Unique(kept) && forall x :: x in kept <==> x in Shorts(o.uuids)
    ensures forall used, f :: f in Fields128(o, used) && f.kind == UUID128_ALL ==>
            var kept := Kept128(o, used).0;
            f.payload == Bytes128(kept) && Unique(kept) && forall x :: x in kept <==> x in Fulls(o.uuids)
  {
    if !Kept16(o).1 { UncutIsComplete(Shorts(o.uuids), Room(|EncodeAll(FixedFields(o))|, 2)); }
    forall used: nat, f | f in Fields128(o, used) && f.kind == UUID128_ALL
      ensures var kept := Kept128(o, used).0;
              f.payload == Bytes128(kept) && Unique(kept) && forall x :: x in kept <==> x in Fulls(o.uuids)
    {
      UncutIsComplete(Fulls(o.uuids), Room(used, 16));
    }
  }

  // ---------------------------------------------------------------- a list marked as cut though complete

  /** The short identifiers 0x2000, 0x2001, .... */
  function Many(n: nat): (us: seq<Uuid>)
    requires n <= 0x1000
    ensures |us| == n && forall i :: 0 <= i < n ==> us[i] == Uuid16(0x2000 + i)
  {
    seq(n, i requires 0 <= i < n => Uuid16(0x2000 + i))
  }

  lemma {:induction false} ShortsAppend(a: seq<Uuid>, b: seq<Uuid>)
    ensures Shorts(a + b) == Shorts(a) + Shorts(b) && Fulls(a + b) == Fulls(a) + Fulls(b)
  {
    if a == [] {
      assert a + b == b;
    } else {
      assert (a + b)[1..] == a[1..] + b;
      ShortsAppend(a[1..], b);
    }
  }

  lemma {:induction false} ManyShorts(n: nat)
    requires n <= 0x1000
    ensures |Shorts(Many(n))| == n && Fulls(Many(n)) == []
    ensures forall i :: 0 <= i < n ==> Shorts(Many(n))[i] == 0x2000 + i
  {
    if n > 0 {
      ManyShorts(n - 1);
      var last := Uuid16(0x2000 + n - 1);
      assert Many(n) == Many(n - 1) + [last];
      ShortsAppend(Many(n - 1), [last]);
      assert [last][1..] == [];
      assert Shorts([last]) == [last.short] + Shorts([]) == [last.short];
      assert Fulls([last]) == Fulls([]) == [];
    }
  }

  lemma {:induction false} UniqueIsDistinct<T>(s: seq<T>)
    requires Unique(s)
    ensures Distinct(s) == s
  {
    if s != [] {
      UniqueIsDistinct(s[..|s| - 1]);
      assert s == s[..|s| - 1] + [s[|s| - 1]];
    }
  }

  /** A device with 103 short services and one long service listed twice. */
  function Crowded(addr: Address, key: Key): Oob {
    Oob(addr, [], 0, None, None, 0, 0, 0, 0, Many(103) + [Uuid128(key), Uuid128(key)])
  }

  lemma CrowdedLists(addr: Address, key: Key)
    ensures Shorts(Crowded(addr, key).uuids) == Shorts(Many(103))
    ensures Fulls(Crowded(addr, key).uuids) == [key, key]
  {
    var two := [Uuid128(key), Uuid128(key)];
    ShortsAppend(Many(103), two);
    ManyShorts(103);
    assert two[1..] == [Uuid128(key)] && two[1..][1..] == [];
    assert Shorts(two) == Shorts(two[1..]) == Shorts([]) == [];
    assert Fulls(two) == [key] + Fulls(two[1..]) && Fulls(two[1..]) == [key] + Fulls([]);
    assert Shorts(Many(103)) + [] == Shorts(Many(103));
  }

  lemma CrowdedUsed(addr: Address, key: Key)
    ensures Used16(Crowded(addr, key)) == 208
  {
    var o := Crowded(addr, key);
    CrowdedLists(addr, key);
    ManyShorts(103);
    FixedFieldsSize(o);
    assert Room(0, 2) == 119;
    UniqueIsDistinct(Shorts(Many(103)));
    CollectExact(Shorts(o.uuids), Room(0, 2));
    ListSizes(o);
  }

  /** Its block names the long service, and still marks the list of long services as cut. */
  lemma CutMayBeComplete(addr: Address, key: Key)
    ensures var o := Crowded(addr, key);
            && Kept128(o, Used16(o)) == ([key], true)
            && Fields128(o, Used16(o)) == [Field(UUID128_SOME, Bytes128([key]))]
            && forall x :: x in [key] <==> x in Fulls(o.uuids)
  {
    var o := Crowded(addr, key);
    CrowdedLists(addr, key);
    CrowdedUsed(addr, key);
    assert Room(208, 16) == 1;
    assert [key, key][1..] == [key] && [] + [key] == [key];
    assert Collect([key], [key], 1) == ([key], true);
  }

  // ---------------------------------------------------------------- services left out without a word

  /** Short services are never left out without a word: there is room for some. */
  lemma ShortListMissingIff(o: Oob)
    ensures Fields16(o) == [] <==> Shorts(o.uuids) == []
  {
    FixedFieldsSize(o);
    CollectExact(Shorts(o.uuids), Room(FixedSize(o), 2));
    DistinctEmpty(Shorts(o.uuids));
  }

  /** Long services are, exactly if the short ones have filled the block; and when that is so can be told
      from what is to be published. */
  lemma LongListMissingIff(o: Oob)
    ensures Fields128(o, Used16(o)) == [] <==> Fulls(o.uuids) == [] || Used16(o) > MAX_EIR_LENGTH - 2
    ensures Used16(o) > MAX_EIR_LENGTH - 2 <==> |Distinct(Shorts(o.uuids))| >= (MAX_EIR_LENGTH - 2 - FixedSize(o)) / 2
  {
    FixedFieldsSize(o);
    ListSizes(o);
    CollectExact(Shorts(o.uuids), Room(FixedSize(o), 2));
    CollectExact(Fulls(o.uuids), Room(Used16(o), 16));
    DistinctEmpty(Fulls(o.uuids));
  }

  /** A device with 119 short services and a long one. */
  function Filled(addr: Address, key: Key): Oob {
    Oob(addr, [], 0, None, None, 0, 0, 0, 0, Many(119) + [Uuid128(key)])
  }

  lemma OneFull(us: seq<Uuid>, key: Key)
    ensures Shorts(us + [Uuid128(key)]) == Shorts(us) && Fulls(us + [Uuid128(key)]) == Fulls(us) + [key]
  {
    var one := [Uuid128(key)];
    ShortsAppend(us, one);
    assert one[1..] == [] && Shorts(one) == [] && Fulls(one) == [key];
    assert Shorts(us) + [] == Shorts(us);
  }

  /** As many different short services as there is room for are all kept, and fill the block. */
  lemma AllShortsKept(o: Oob)
    requires Unique(Shorts(o.uuids)) && |Shorts(o.uuids)| == (MAX_EIR_LENGTH - 2 - FixedSize(o)) / 2
    ensures Fields16(o) == [Field(UUID16_ALL, Bytes16(Shorts(o.uuids)))]
    ensures Fields128(o, Used16(o)) == []
  {
    var shorts := Shorts(o.uuids);
    FixedFieldsSize(o);
    UniqueIsDistinct(shorts);
    CollectExact(shorts, |shorts|);
    DistinctNotLonger(shorts[..|shorts| - 1]);
    LongListMissingIff(o);
  }

  /** Its block says nothing of the long service, not even that a list was cut. */
  lemma LongServiceUnsaid(addr: Address, key: Key)
    ensures Fulls(Filled(addr, key).uuids) == [key]
    ensures OobFields(Filled(addr, key)) == [Field(UUID16_ALL, Bytes16(Shorts(Many(119))))]
  {
    var o := Filled(addr, key);
    ManyShorts(119);
    OneFull(Many(119), key);
    AllShortsKept(o);
    assert [] + Fields16(o) + [] == Fields16(o);
  }

  // ---------------------------------------------------------------- lists read back

  function Services16(vs: seq<Word>): seq<Uuid> {
    seq(|vs|, i requires 0 <= i < |vs| => Uuid16(vs[i]))
  }

  function Services128(vs: seq<Key>): seq<Uuid> {
    seq(|vs|, i requires 0 <= i < |vs| => Uuid128(vs[i]))
  }

  lemma {:induction false} Bytes16At(vs: seq<Word>, i: nat)
    requires i < |vs|
    ensures Bytes16(vs)[2 * i..2 * i + 2] == Le16(vs[i])
  {
    if i < |vs| - 1 {
      Bytes16At(vs[..|vs| - 1], i);
      assert Bytes16(vs)[2 * i..2 * i + 2] == Bytes16(vs[..|vs| - 1])[2 * i..2 * i + 2];
    }
  }

  lemma {:induction false} Bytes128At(vs: seq<Key>, i: nat)
    requires i < |vs|
    ensures Bytes128(vs)[16 * i..16 * i + 16] == Reverse(vs[i])
  {
    if i < |vs| - 1 {
      Bytes128At(vs[..|vs| - 1], i);
      assert Bytes128(vs)[16 * i..16 * i + 16] == Bytes128(vs[..|vs| - 1])[16 * i..16 * i + 16];
    }
  }

  lemma List16RoundTrip(vs: seq<Word>)
    ensures ListOf16(Bytes16(vs)) == Services16(vs)
  {
    forall i | 0 <= i < |vs|
      ensures ListOf16(Bytes16(vs))[i] == Uuid16(vs[i])
    {
      Bytes16At(vs, i);
      LeValue16(vs[i]);
    }
  }

  /** The bytes of a long identifier are reversed on the way out and again on the way in. */
  lemma List128RoundTrip(vs: seq<Key>)
    ensures ListOf128(Bytes128(vs)) == Services128(vs)
  {
    forall i | 0 <= i < |vs|
      ensures ListOf128(Bytes128(vs))[i] == Uuid128(vs[i])
    {
      Bytes128At(vs, i);
      ReverseTwice(vs[i]);
    }
  }

  // ---------------------------------------------------------------- the round trip

  lemma ApplyOne(e: EirData, f: Field)
    ensures ApplyAll(e, [f]) == Apply(e, f.kind, f.payload)
  {
    assert [f][1..] == [];
  }

  lemma ApplyClass(e: EirData, o: Oob)
    ensures ApplyAll(e, ClassFields(o)) ==
            if o.classOfDevice > 0 then e.(classOfDevice := o.classOfDevice % 0x100_0000) else e
  {
    LeValue24(o.classOfDevice);
    if ClassFields(o) != [] { ApplyOne(e, ClassFields(o)[0]); }
  }

  lemma ApplyKeys(e: EirData, o: Oob)
    ensures ApplyAll(e, KeyFields(SSP_HASH, o.hash)) == if o.hash.Some? then e.(hash := o.hash) else e
    ensures ApplyAll(e, KeyFields(SSP_RANDOMIZER, o.randomizer)) ==
            if o.randomizer.Some? then e.(randomizer := o.randomizer) else e
  {
    if o.hash.Some? {
      ApplyOne(e, Field(SSP_HASH, o.hash.value));
      assert o.hash.value[..16] == o.hash.value;
    }
    if o.randomizer.Some? {
      ApplyOne(e, Field(SSP_RANDOMIZER, o.randomizer.value));
      assert o.randomizer.value[..16] == o.randomizer.value;
    }
  }

  lemma StripNothing(s: seq<byte>)
    requires 0 !in s
    ensures StripNuls(s) == s
  {
    if s != [] { assert s[|s| - 1] in s; }
  }

  lemma ApplyName(e: EirData, o: Oob)
    requires ValidOob(o)
    ensures ApplyAll(e, NameFields(o)) ==
            if o.name == [] then e
            else e.(name := Some(Take(o.name, MAX_NAME)), nameComplete := |o.name| <= MAX_NAME)
  {
    StripNothing(Take(o.name, MAX_NAME));
    if o.name != [] { ApplyOne(e, NameFields(o)[0]); }
  }

  lemma ApplyId(e: EirData, o: Oob)
    ensures ApplyAll(e, IdFields(o)) == e
  {
    if IdFields(o) != [] { ApplyOne(e, IdFields(o)[0]); }
  }

  lemma ApplyLists(e: EirData, o: Oob, used: nat)
    requires used <= MAX_EIR_LENGTH
    ensures ApplyAll(e, Fields16(o)) == e.(services := e.services + Services16(Kept16(o).0))
    ensures ApplyAll(e, Fields128(o, used)) == e.(services := e.services + Services128(Kept128(o, used).0))
  {
    List16RoundTrip(Kept16(o).0);
    List128RoundTrip(Kept128(o, used).0);
    assert e.services + [] == e.services;
    if Fields16(o) != [] { ApplyOne(e, Fields16(o)[0]); }
    if Fields128(o, used) != [] { ApplyOne(e, Fields128(o, used)[0]); }
  }

  /** The short and the long services a block announces: the first distinct ones there is room for. */
  function Announced16(o: Oob): seq<Word> {
    Take(Distinct(Shorts(o.uuids)), Room(FixedSize(o), 2))
  }

  function Announced128(o: Oob): seq<Key> {
    var short := Announced16(o);
    Take(Distinct(Fulls(o.uuids)), Room(FixedSize(o) + (if short == [] then 0 else 2 + 2 * |short|), 16))
  }

  lemma KeptIsAnnounced(o: Oob)
    ensures Kept16(o).0 == Announced16(o)
    ensures Kept128(o, Used16(o)).0 == Announced128(o)
  {
    FixedFieldsSize(o);
    ListSizes(o);
    CollectExact(Shorts(o.uuids), Room(FixedSize(o), 2));
    CollectExact(Fulls(o.uuids), Room(Used16(o), 16));
  }

  /** Nothing but the address is published. */
  predicate Bare(o: Oob) {
    && o.classOfDevice == 0 && o.hash.None? && o.randomizer.None? && o.name == [] && o.vendor == 0
    && Shorts(o.uuids) == [] && Fulls(o.uuids) == []
  }

  lemma {:induction false} DistinctEmpty<T>(list: seq<T>)
    ensures Distinct(list) == [] <==> list == []
  {
    if list != [] { DistinctMeaning(list); assert list[0] in Distinct(list); }
  }

  lemma EmptyIff(o: Oob)
    ensures EncodeAll(OobFields(o)) == [] <==> Bare(o)
  {
    ListSizes(o);
    KeptIsAnnounced(o);
    FixedFieldsSize(o);
    DistinctEmpty(Shorts(o.uuids));
    DistinctEmpty(Fulls(o.uuids));
  }

  /** What the reader holds afterwards: what it had, overwritten by what was published. */
  function Received(e: EirData, o: Oob): EirData {
    if Bare(o) then e.(addr := o.addr)
    else
      e.(addr := o.addr,
         flags := -1,
         txPower := 127,
         classOfDevice := if o.classOfDevice > 0 then o.classOfDevice % 0x100_0000 else e.classOfDevice,
         hash := if o.hash.Some? then o.hash else e.hash,
         randomizer := if o.randomizer.Some? then o.randomizer else e.randomizer,
         name := if o.name != [] then Some(Take(o.name, MAX_NAME)) else e.name,
         nameComplete := if o.name != [] then |o.name| <= MAX_NAME else e.nameComplete,
         services := e.services + Services16(Announced16(o)) + Services128(Announced128(o)))
  }

  lemma ApplyFixed(e: EirData, o: Oob)
    requires ValidOob(o)
    ensures ApplyAll(e, FixedFields(o)) ==
            e.(classOfDevice := if o.classOfDevice > 0 then o.classOfDevice % 0x100_0000 else e.classOfDevice,
               hash := if o.hash.Some? then o.hash else e.hash,
               randomizer := if o.randomizer.Some? then o.randomizer else e.randomizer,
               name := if o.name != [] then Some(Take(o.name, MAX_NAME)) else e.name,
               nameComplete := if o.name != [] then |o.name| <= MAX_NAME else e.nameComplete)
  {
    var a, b, c, d, i := ClassFields(o), KeyFields(SSP_HASH, o.hash), KeyFields(SSP_RANDOMIZER, o.randomizer),
      NameFields(o), IdFields(o);
    ApplyAppend(e, a, b);
    ApplyAppend(e, a + b, c);
    ApplyAppend(e, a + b + c, d);
    ApplyAppend(e, a + b + c + d, i);
    ApplyClass(e, o);
    var e1 := ApplyAll(e, a);
    ApplyKeys(e1, o);
    var e2 := ApplyAll(e1, b);
    ApplyKeys(e2, o);
    var e3 := ApplyAll(e2, c);
    ApplyName(e3, o);
    ApplyId(ApplyAll(e3, d), o);
  }

  lemma ParseOfBlock(e: EirData, o: Oob)
    requires ValidOob(o)
    ensures ApplyAll(e, OobFields(o)) ==
            var fixed := ApplyAll(e, FixedFields(o));
            fixed.(services := fixed.services + Services16(Announced16(o)) + Services128(Announced128(o)))
  {
    ListSizes(o);
    KeptIsAnnounced(o);
    ApplyAppend(e, FixedFields(o), Fields16(o));
    ApplyAppend(e, FixedFields(o) + Fields16(o), Fields128(o, Used16(o)));
    var fixed := ApplyAll(e, FixedFields(o));
    ApplyLists(fixed, o, Used16(o));
    ApplyLists(ApplyAll(fixed, Fields16(o)), o, Used16(o));
  }

  lemma ParseOobOf(e: EirData, block: seq<byte>, optional: seq<byte>)
    requires |block| == OOB_MIN + |optional| <= OOB_MIN + 255
    requires Value16(block) == |block| && block[8..] == optional
    ensures ParseOob(e, block) ==
            Some(if optional == [] then e.(addr := block[2..8])
                 else ParseFields(e.(addr := block[2..8], flags := -1, txPower := 127), optional))
  {
  }

  lemma ParseOfOptional(e: EirData, o: Oob)
    requires ValidOob(o) && e.flags == -1 && e.txPower == 127 && !Bare(o)
    ensures ParseFields(e, EncodeAll(OobFields(o))) == Received(e, o).(addr := e.addr)
  {
    assert EncodeAll(OobFields(o)) + [] == EncodeAll(OobFields(o));
    ParseOfFields(e, OobFields(o), []);
    ParseOfBlock(e, o);
    ApplyFixed(e, o);
  }

  /** Whatever is published is received. */
  lemma RoundTrip(e: EirData, o: Oob)
    requires ValidOob(o)
    ensures ParseOob(e, CreateOob(o)) == Some(Received(e, o))
  {
    BlockIsBounded(o);
    assert CreateOob(o)[2..8] == o.addr;
    ParseOobOf(e, CreateOob(o), EncodeAll(OobFields(o)));
    EmptyIff(o);
    if !Bare(o) { ParseOfOptional(e.(addr := o.addr, flags := -1, txPower := 127), o); }
  }

  lemma AcceptedIff(e: EirData, block: seq<byte>)
    ensures ParseOob(e, block).Some? <==> OOB_MIN <= |block| < 0x1_0000 && block[..2] == Le16(|block|)
  {
    if |block| >= OOB_MIN {
      ValueLe(block[..2]);
      LeValue16(|block|);
    }
  }

  /** A block whose stored length is right is read field by field, as far as the eight bits of the
      parser's length reach; that is to its end for blocks of up to 263 bytes. */
  lemma AcceptedMeaning(e: EirData, block: seq<byte>)
    requires |block| > OOB_MIN && Value16(block) == |block|
    ensures var optional := block[8..8 + (|block| - 8) % 256];
            ParseOob(e, block) ==
            Some(ApplyAll(e.(addr := block[2..8], flags := -1, txPower := 127), FieldsOf(optional).0))
    ensures |block| <= 263 ==> block[8..8 + (|block| - 8) % 256] == block[8..]
  {
    PartMeaning(block);
    var part := block[8..8 + (|block| - 8) % 256];
    var (fs, rest) := FieldsOf(part);
    ParseIsApply(e.(addr := block[2..8], flags := -1, txPower := 127), part, fs, rest);
  }

  /** The part the parser is handed: the stored length less the eight bytes, kept to eight bits. */
  lemma PartMeaning(block: seq<byte>)
    requires |block| > OOB_MIN && Value16(block) == |block|
    ensures OptionalPart(block) == block[8..8 + (|block| - 8) % 256]
  {
  }
}
