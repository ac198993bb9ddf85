/** The fields of a generated block one by one, and what the reader makes of each kind of field, told by
    the numbers of the kinds and the bytes. */
module EirFields {
  import opened Octets
  import opened Options
  import opened Eir
  import opened EirLaws

  // ---------------------------------------------------------------- what is written

  /** The fields in the optional part of the block generated for a record. */
  function Written(o: Oob): seq<Field> {
    FieldsOf(CreateOob(o)[8..]).0
  }

  function Kinds(fs: seq<Field>): (r: seq<byte>)
    ensures |r| == |fs| && forall i :: 0 <= i < |fs| ==> r[i] == fs[i].kind
  {
    seq(|fs|, i requires 0 <= i < |fs| => fs[i].kind)
  }

  /** The optional part is read field by field to its end. */
  lemma WrittenIs(o: Oob)
    ensures Written(o) == OobFields(o) && FieldsOf(CreateOob(o)[8..]).1 == []
  {
    var optional := EncodeAll(OobFields(o));
    BlockShape(o);
    assert CreateOob(o)[8..] == optional && optional + [] == optional;
    ParseIsApply(NoData(), optional, OobFields(o), []);
  }

  /** One field for each thing published, in this order: class, hash, randomizer, name (9, or 8 when cut),
      device identification, short services (3, or 2 when cut), long services (7, or 6 when cut). */
  lemma KindsInOrder(o: Oob)
    ensures Kinds(Written(o)) ==
            (if o.classOfDevice > 0 then [0x0d] else []) + (if o.hash.Some? then [0x0e] else [])
            + (if o.randomizer.Some? then [0x0f] else [])
            + (if o.name == [] then [] else if |o.name| > 48 then [0x08] else [0x09])
            + (if o.vendor != 0 then [0x10] else [])
            + (if Shorts(o.uuids) == [] then [] else if Kept16(o).1 then [0x02] else [0x03])
            + (if Fulls(o.uuids) == [] || Used16(o) > 238 then []
               else if Kept128(o, Used16(o)).1 then [0x06] else [0x07])
  {
    WrittenIs(o);
    FixedKinds(o);
    ListKinds(o);
    KindsAppend(FixedFields(o), Fields16(o));
    KindsAppend(FixedFields(o) + Fields16(o), Fields128(o, Used16(o)));
  }

  lemma KindsAppend(a: seq<Field>, b: seq<Field>)
    ensures Kinds(a + b) == Kinds(a) + Kinds(b)
  {
  }

  lemma FixedKinds(o: Oob)
    ensures Kinds(FixedFields(o)) ==
            (if o.classOfDevice > 0 then [0x0d] else []) + (if o.hash.Some? then [0x0e] else [])
            + (if o.randomizer.Some? then [0x0f] else [])
            + (if o.name == [] then [] else if |o.name| > 48 then [0x08] else [0x09])
            + (if o.vendor != 0 then [0x10] else [])
  {
    PartKinds(o);
    FiveKinds(ClassFields(o), KeyFields(SSP_HASH, o.hash), KeyFields(SSP_RANDOMIZER, o.randomizer), NameFields(o),
              IdFields(o));
  }

  lemma PartKinds(o: Oob)
    ensures Kinds(ClassFields(o)) == if o.classOfDevice > 0 then [0x0d] else []
    ensures Kinds(KeyFields(SSP_HASH, o.hash)) == if o.hash.Some? then [0x0e] else []
    ensures Kinds(KeyFields(SSP_RANDOMIZER, o.randomizer)) == if o.randomizer.Some? then [0x0f] else []
    ensures Kinds(NameFields(o)) == if o.name == [] then [] else if |o.name| > 48 then [0x08] else [0x09]
    ensures Kinds(IdFields(o)) == if o.vendor != 0 then [0x10] else []
  {
  }

  lemma FiveKinds(a: seq<Field>, b: seq<Field>, c: seq<Field>, d: seq<Field>, i: seq<Field>)
    ensures Kinds(a + b + c + d + i) == Kinds(a) + Kinds(b) + Kinds(c) + Kinds(d) + Kinds(i)
  {
    KindsAppend(a, b);
    KindsAppend(a + b, c);
    KindsAppend(a + b + c, d);
    KindsAppend(a + b + c + d, i);
  }

  lemma ListKinds(o: Oob)
    ensures Kinds(Fields16(o)) == if Shorts(o.uuids) == [] then [] else if Kept16(o).1 then [0x02] else [0x03]
    ensures Kinds(Fields128(o, Used16(o))) ==
            if Fulls(o.uuids) == [] || Used16(o) > 238 then []
            else if Kept128(o, Used16(o)).1 then [0x06] else [0x07]
  {
    ShortListMissingIff(o);
    LongListMissingIff(o);
  }

  /** The device identification is written exactly if there is a vendor: source, vendor, product and
      version, in this order. */
  lemma IdWritten(o: Oob)
    ensures o.vendor != 0 <==> exists f :: f in Written(o) && f.kind == 0x10
    ensures forall f :: f in Written(o) && f.kind == 0x10 ==>
              && |f.payload| == 8
              && Value16(f.payload[..2]) == o.source && Value16(f.payload[2..4]) == o.vendor
              && Value16(f.payload[4..6]) == o.product && Value16(f.payload[6..]) == o.version
  {
    WrittenIs(o);
    OnlyId(o);
    if o.vendor != 0 { IdBytes(o); }
  }

  /** By the kinds of the others, a field of kind 16 is the device identification. */
  lemma OnlyId(o: Oob)
    ensures forall f :: f in OobFields(o) && f.kind == 0x10 <==> f in IdFields(o)
    ensures IdFields(o) == [] <==> o.vendor == 0
  {
    var a, b, c, d := ClassFields(o), KeyFields(SSP_HASH, o.hash), KeyFields(SSP_RANDOMIZER, o.randomizer),
      NameFields(o);
    var others := a + b + c + d;
    assert forall f: Field :: f in others ==> f in a || f in b || f in c || f in d;
    assert forall f: Field :: f in others ==> f.kind != 0x10;
    assert OobFields(o) == others + IdFields(o) + Fields16(o) + Fields128(o, Used16(o));
  }

  lemma IdBytes(o: Oob)
    requires o.vendor != 0
    ensures |IdFields(o)| == 1 && IdFields(o)[0].kind == 0x10
    ensures var p := IdFields(o)[0].payload;
            && |p| == 8 && Value16(p[..2]) == o.source && Value16(p[2..4]) == o.vendor
            && Value16(p[4..6]) == o.product && Value16(p[6..]) == o.version
  {
    var p := IdFields(o)[0].payload;
    assert p[..2] == Le16(o.source) && p[2..4] == Le16(o.vendor);
    assert p[4..6] == Le16(o.product) && p[6..] == Le16(o.version);
    LeValue16(o.source);
    LeValue16(o.vendor);
    LeValue16(o.product);
    LeValue16(o.version);
  }

  // ---------------------------------------------------------------- the services in it

  lemma {:induction false} ShortsAre(us: seq<Uuid>)
    ensures forall v :: v in Shorts(us) <==> Uuid16(v) in us && v >= 0x1100 && v != 0x1200
  {
    if us != [] {
      ShortsAre(us[1..]);
      assert forall v :: Uuid16(v) in us <==> us[0] == Uuid16(v) || Uuid16(v) in us[1..];
    }
  }

  lemma {:induction false} FullsAre(us: seq<Uuid>)
    ensures forall v :: v in Fulls(us) <==> Uuid128(v) in us
  {
    if us != [] {
      FullsAre(us[1..]);
      assert forall v :: Uuid128(v) in us <==> us[0] == Uuid128(v) || Uuid128(v) in us[1..];
    }
  }

  lemma FixedAreOthers(o: Oob)
    ensures forall f :: f in FixedFields(o) ==> f.kind >= 0x08
  {
    var a, b, c, d := ClassFields(o), KeyFields(SSP_HASH, o.hash), KeyFields(SSP_RANDOMIZER, o.randomizer),
      NameFields(o);
    assert forall f: Field :: f in FixedFields(o) ==> f in a || f in b || f in c || f in d || f in IdFields(o);
  }

  lemma OnlyLists(o: Oob)
    ensures forall f :: f in Written(o) && (f.kind == 0x02 || f.kind == 0x03) <==> f in Fields16(o)
    ensures forall f :: f in Written(o) && (f.kind == 0x06 || f.kind == 0x07) <==> f in Fields128(o, Used16(o))
  {
    WrittenIs(o);
    FixedAreOthers(o);
    assert OobFields(o) == FixedFields(o) + Fields16(o) + Fields128(o, Used16(o));
  }

  lemma DistinctAreSome<T>(list: seq<T>)
    ensures forall x :: x in Distinct(list) ==> x in list
  {
    DistinctMeaning(list);
  }

  lemma KeptAreSome<T>(list: seq<T>, room: nat)
    ensures var (kept, cut) := Collect(list, [], room);
            (forall x :: x in kept ==> x in list) && (!cut ==> forall x :: x in list ==> x in kept)
  {
    CollectExact(list, room);
    DistinctAreSome(list);
    assert forall x :: x in Take(Distinct(list), room) ==> x in Distinct(list);
    if !Collect(list, [], room).1 { UncutIsComplete(list, room); }
  }

  lemma ShortListIs(o: Oob)
    ensures forall f, u :: f in Fields16(o) && u in ListOf16(f.payload) ==> u.Uuid16? && u.short in Shorts(o.uuids)
    ensures forall f, v :: f in Fields16(o) && f.kind == 0x03 && v in Shorts(o.uuids) ==>
              Uuid16(v) in ListOf16(f.payload)
  {
    var kept := Kept16(o).0;
    KeptAreSome(Shorts(o.uuids), Room(|EncodeAll(FixedFields(o))|, 2));
    List16RoundTrip(kept);
    forall v | v in kept ensures Uuid16(v) in Services16(kept) {
      var i :| 0 <= i < |kept| && kept[i] == v;
      assert Services16(kept)[i] == Uuid16(v);
    }
  }

  lemma LongListIs(o: Oob)
    ensures forall f, u :: f in Fields128(o, Used16(o)) && u in ListOf128(f.payload) ==>
              u.Uuid128? && u.full in Fulls(o.uuids)
    ensures forall f, v :: f in Fields128(o, Used16(o)) && f.kind == 0x07 && v in Fulls(o.uuids) ==>
              Uuid128(v) in ListOf128(f.payload)
  {
    var kept := Kept128(o, Used16(o)).0;
    KeptAreSome(Fulls(o.uuids), Room(Used16(o), 16));
    List128RoundTrip(kept);
    forall v | v in kept ensures Uuid128(v) in Services128(kept) {
      var i :| 0 <= i < |kept| && kept[i] == v;
      assert Services128(kept)[i] == Uuid128(v);
    }
  }

  /** Read back, a list of short services holds only services published, from 0x1100 on without 0x1200, and
      all of them when it is of kind 3. */
  lemma ShortServicesListed(o: Oob)
    ensures forall f, u :: f in Written(o) && (f.kind == 0x02 || f.kind == 0x03) && u in ListOf16(f.payload) ==>
              u in o.uuids && u.Uuid16? && u.short >= 0x1100 && u.short != 0x1200
    ensures forall f, u :: f in Written(o) && f.kind == 0x03 ==>
              u in o.uuids && u.Uuid16? && u.short >= 0x1100 && u.short != 0x1200 ==> u in ListOf16(f.payload)
  {
    OnlyLists(o);
    ShortListIs(o);
    ShortsAre(o.uuids);
  }

  /** Likewise for long services, without any left out by number. */
  lemma LongServicesListed(o: Oob)
    ensures forall f, u :: f in Written(o) && (f.kind == 0x06 || f.kind == 0x07) && u in ListOf128(f.payload) ==>
              u in o.uuids && u.Uuid128?
    ensures forall f, u :: f in Written(o) && f.kind == 0x07 && u in o.uuids && u.Uuid128? ==>
              u in ListOf128(f.payload)
  {
    OnlyLists(o);
    LongListIs(o);
    FullsAre(o.uuids);
  }

  /** A whole block with a class alone: length, address, and one field of length, kind and three bytes. */
  lemma ClassOnly(addr: Address)
    ensures CreateOob(Oob(addr, [], 0x123456, None, None, 0, 0, 0, 0, [])) ==
            [13, 0] + addr + [4, 0x0d, 0x56, 0x34, 0x12]
  {
    var o := Oob(addr, [], 0x123456, None, None, 0, 0, 0, 0, []);
    OneField(o);
    LowestFirst();
    EncodeOne(Field(CLASS_OF_DEV, [0x56, 0x34, 0x12]));
    assert EncodeAll(OobFields(o)) == [4, 0x0d, 0x56, 0x34, 0x12];
    assert Le16(13) == [13, 0];
  }

  lemma OneField(o: Oob)
    requires o.classOfDevice > 0 && o.hash.None? && o.randomizer.None? && o.name == [] && o.vendor == 0 && o.uuids == []
    ensures OobFields(o) == [Field(CLASS_OF_DEV, Le24(o.classOfDevice))]
  {
    ShortListMissingIff(o);
    LongListMissingIff(o);
    assert FixedFields(o) == ClassFields(o);
    assert ClassFields(o) + [] == ClassFields(o);
  }

  // ---------------------------------------------------------------- what is read

  lemma OneFieldRead(e: EirData, kind: byte, payload: seq<byte>)
    requires |payload| < 255
    ensures ParseFields(e, [|payload| + 1, kind] + payload) == Apply(e, kind, payload)
  {
    var data := [|payload| + 1, kind] + payload;
    assert data[2..data[0] + 1] == payload && data[data[0] + 1..] == [];
  }

  /** Flags, transmit power (a signed byte) and appearance (lowest byte first), if they are long enough. */
  lemma SmallFieldsRead(e: EirData, a: byte, b: byte)
    ensures ParseFields(e, [2, 0x01, a]) == e.(flags := a)
    ensures ParseFields(e, [2, 0x0a, a]) == e.(txPower := if a < 128 then a else a - 256)
    ensures ParseFields(e, [3, 0x19, a, b]) == e.(appearance := Value16([a, b]))
    ensures ParseFields(e, [1, 0x01]) == e && ParseFields(e, [1, 0x0a]) == e && ParseFields(e, [2, 0x19, a]) == e
  {
    OneFieldRead(e, 0x01, [a]);
    OneFieldRead(e, 0x0a, [a]);
    OneFieldRead(e, 0x19, [a, b]);
    OneFieldRead(e, 0x01, []);
    OneFieldRead(e, 0x0a, []);
    OneFieldRead(e, 0x19, [a]);
    assert [2, 0x01] + [a] == [2, 0x01, a] && [2, 0x0a] + [a] == [2, 0x0a, a] && [2, 0x19] + [a] == [2, 0x19, a];
    assert [3, 0x19] + [a, b] == [3, 0x19, a, b] && [1, 0x01] + [] == [1, 0x01] && [1, 0x0a] + [] == [1, 0x0a];
  }

  /** Services of four bytes, under either kind: every whole four bytes are one, and up to three at the end
      are passed over. */
  lemma MiddleServicesRead(e: EirData, payload: seq<byte>, kind: byte)
    requires |payload| < 255 && (kind == 0x04 || kind == 0x05)
    ensures var read := ParseFields(e, [|payload| + 1, kind] + payload);
            && |read.services| == |e.services| + |payload| / 4 && read == e.(services := read.services)
            && read.services[..|e.services|] == e.services
            && forall i :: 0 <= i < |payload| / 4 ==>
                 read.services[|e.services| + i] == Uuid32(Value32(payload[4 * i..4 * i + 4]))
  {
    OneFieldRead(e, kind, payload);
  }

  /** Keys and a class that are too short, and fields of other kinds, are passed over. */
  lemma PassedOver(e: EirData, kind: byte, payload: seq<byte>)
    requires |payload| < 255
    requires (kind == 0x0d && |payload| < 3) || ((kind == 0x0e || kind == 0x0f) && |payload| < 16)
             || kind == 0 || kind == 0x0b || kind == 0x0c || (kind > 0x0f && kind != 0x19)
    ensures ParseFields(e, [|payload| + 1, kind] + payload) == e
  {
    OneFieldRead(e, kind, payload);
  }

  /** A name loses its trailing zeros, and is marked as whole or as cut by its kind. */
  lemma NameRead(e: EirData, name: seq<byte>, zeros: nat)
    requires |name| + zeros < 255 && (name == [] || name[|name| - 1] != 0)
    ensures var padded := name + seq(zeros, _ => 0);
            && ParseFields(e, [|padded| + 1, 0x08] + padded) == e.(name := Some(name), nameComplete := false)
            && ParseFields(e, [|padded| + 1, 0x09] + padded) == e.(name := Some(name), nameComplete := true)
  {
    Stripped(name, zeros);
    NameTaken(e, name + seq(zeros, _ => 0));
  }

  lemma NameTaken(e: EirData, padded: seq<byte>)
    requires |padded| < 255
    ensures ParseFields(e, [|padded| + 1, 0x08] + padded) == e.(name := Some(StripNuls(padded)), nameComplete := false)
    ensures ParseFields(e, [|padded| + 1, 0x09] + padded) == e.(name := Some(StripNuls(padded)), nameComplete := true)
  {
    OneFieldRead(e, 0x08, padded);
    OneFieldRead(e, 0x09, padded);
  }

  lemma {:induction false} Stripped(name: seq<byte>, zeros: nat)
    requires name == [] || name[|name| - 1] != 0
    ensures StripNuls(name + seq(zeros, _ => 0)) == name
  {
    var padded := name + seq(zeros, _ => 0);
    if zeros == 0 {
      assert padded == name;
    } else {
      assert padded[..|padded| - 1] == name + seq(zeros - 1, _ => 0);
      Stripped(name, zeros - 1);
    }
  }
}
