/** The out-of-band generator and the field parser as the source writes them: an advancing pointer
    into a byte buffer, counters, and lists kept in place. */
module EirCodec {
  import opened Octets
  import opened Options
  import opened Buffers
  import opened Eir
  import Spec = Eir
  import EirLaws

  // ---------------------------------------------------------------- the parser

  /** One round of the parser's loop, on a buffer read from position p. */
  lemma ParseAt(e: EirData, s: seq<byte>, p: nat, end: nat)
    requires p + 2 <= end <= |s| && s[p] != 0 && p + s[p] + 1 <= end
    ensures ParseFields(e, s[p..end]) ==
            ParseFields(Apply(e, s[p + 1], s[p + 2..p + s[p] + 1]), s[p + s[p] + 1..end])
  {
    var data, n: int := s[p..end], s[p];
    assert data[0] == n && data[1] == s[p + 1];
    SliceOfSlice(s, p, end, 2, n + 1);
    SliceOfSlice(s, p, end, n + 1, end - p);
  }

  lemma ParseEnds(e: EirData, s: seq<byte>, p: nat, end: nat)
    requires p <= end <= |s| && (end < p + 2 || s[p] == 0 || end < p + s[p] + 1)
    ensures ParseFields(e, s[p..end]) == e
  {
    if p + 2 <= end { assert s[p..end][0] == s[p]; }
  }

  /** Where the optional part of a block lies in the buffer that holds it. */
  lemma OptionalAt(data: seq<byte>, eirLen: nat)
    requires OOB_MIN <= eirLen <= |data|
    ensures var len := (eirLen - OOB_MIN) % 256;
            OOB_MIN + len <= eirLen && OptionalPart(data[..eirLen]) == data[OOB_MIN..OOB_MIN + len]
  {
    var len := (eirLen - OOB_MIN) % 256;
    assert data[..eirLen][OOB_MIN..OOB_MIN + len] == data[OOB_MIN..OOB_MIN + len];
  }


  class EirRecord {
    var addr: Address
    var flags: int
    var txPower: int
    var classOfDevice: nat
    var appearance: nat
    var name: Option<seq<byte>>
    var nameComplete: bool
    var hash: Option<Key>
    var randomizer: Option<Key>
    var services: seq<Uuid>

    ghost function View(): EirData
      reads this
    {
      EirData(addr, flags, txPower, classOfDevice, appearance, name, nameComplete, hash, randomizer, services)
    }

    constructor ()
      ensures View() == NoData()
    {
      addr := seq(6, _ => 0);
      flags, txPower, classOfDevice, appearance := 0, 0, 0, 0;
      name, nameComplete, hash, randomizer, services := None, false, None, None, [];
    }

    method ParseUuid16(data: seq<byte>, at: nat, len: nat)
      requires at + len <= |data|
      modifies this`services
      ensures services == old(services) + ListOf16(data[at..at + len])
    {
      ghost var all := ListOf16(data[at..at + len]);
      var i := 0;
      while i < len / 2
        invariant i <= len / 2
        invariant services == old(services) + all[..i]
      {
        var p := at + 2 * i;
        SliceOfSlice(data, at, at + len, 2 * i, 2 * i + 2);
        services := services + [Uuid16(Value16(data[p..p + 2]))];
        i := i + 1;
      }
    }

    method ParseUuid32(data: seq<byte>, at: nat, len: nat)
      requires at + len <= |data|
      modifies this`services
      ensures services == old(services) + ListOf32(data[at..at + len])
    {
      ghost var all := ListOf32(data[at..at + len]);
      var i := 0;
      while i < len / 4
        invariant i <= len / 4
        invariant services == old(services) + all[..i]
      {
        var p := at + 4 * i;
        SliceOfSlice(data, at, at + len, 4 * i, 4 * i + 4);
        services := services + [Uuid32(Value32(data[p..p + 4]))];
        i := i + 1;
      }
    }

    method ParseUuid128(data: seq<byte>, at: nat, len: nat)
      requires at + len <= |data|
      modifies this`services
      ensures services == old(services) + ListOf128(data[at..at + len])
    {
      ghost var all := ListOf128(data[at..at + len]);
      var i, p := 0, at;
      while i < len / 16
        invariant i <= len / 16 && p == at + 16 * i
        invariant services == old(services) + all[..i]
      {
        SliceOfSlice(data, at, at + len, 16 * i, 16 * i + 16);
        var key := ReversedKey(data, p);
        services := services + [Uuid128(key)];
        i, p := i + 1, p + 16;
      }
    }

    method ReversedKey(data: seq<byte>, p: nat) returns (key: Key)
      requires p + 16 <= |data|
      ensures key == Reverse(data[p..p + 16])
    {
      var bytes := [];
      for k := 0 to 16
        invariant bytes == Reverse(data[p..p + 16])[..k]
      {
        bytes := bytes + [data[p + 16 - k - 1]];
      }
      key := bytes;
    }

    /** Name fields may carry a terminator. */
    method ParseName(data: seq<byte>, at: nat, len: nat, complete: bool)
      requires at + len <= |data|
      modifies this`name, this`nameComplete
      ensures name == Some(StripNuls(data[at..at + len])) && nameComplete == complete
    {
      var n := len;
      while n > 0 && data[at + n - 1] == 0
        invariant 0 <= n <= len
        invariant StripNuls(data[at..at + n]) == StripNuls(data[at..at + len])
      {
        assert data[at..at + n][..n - 1] == data[at..at + n - 1];
        n := n - 1;
      }
      name, nameComplete := Some(data[at..at + n]), complete;
    }

    method ParseField(kind: byte, data: seq<byte>, at: nat, len: nat)
      requires at + len <= |data|
      modifies this
      ensures View() == Apply(old(View()), kind, data[at..at + len])
    {
      if kind == UUID16_SOME || kind == UUID16_ALL { ParseUuid16(data, at, len); }
      else if kind == UUID32_SOME || kind == UUID32_ALL { ParseUuid32(data, at, len); }
      else if kind == UUID128_SOME || kind == UUID128_ALL { ParseUuid128(data, at, len); }
      else if kind == FLAGS { if len > 0 { flags := data[at]; } }
      else if kind == NAME_SHORT || kind == NAME_COMPLETE { ParseName(data, at, len, kind == NAME_COMPLETE); }
      else if kind == TX_POWER { if len >= 1 { txPower := Signed(data[at]); } }
      else if kind == CLASS_OF_DEV { if len >= 3 { classOfDevice := Value24(data[at..at + len]); } }
      else if kind == GAP_APPEARANCE { if len >= 2 { appearance := Value16(data[at..at + len]); } }
      else if kind == SSP_HASH { if len >= 16 { hash := Some(data[at..at + len][..16]); } }
      else if kind == SSP_RANDOMIZER { if len >= 16 { randomizer := Some(data[at..at + len][..16]); } }
    }

    method NextField(data: seq<byte>, p: nat, ghost end: nat)
      requires p + 2 <= end <= |data| && data[p] != 0 && p + data[p] + 1 <= end
      modifies this
      ensures ParseFields(View(), data[p + data[p] + 1..end]) == ParseFields(old(View()), data[p..end])
    {
      ParseAt(View(), data, p, end);
      ParseField(data[p + 1], data, p + 2, data[p] - 1);
    }

    method Parse(data: seq<byte>, start: nat, eirLen: nat)
      requires start + eirLen <= |data| && eirLen < 256
      modifies this
      ensures View() == Spec.Parse(old(View()), data[start..start + eirLen])
    {
      flags, txPower := -1, 127;
      var p, len := start, 0;
      ghost var end, first := start + eirLen, View();
      while len < eirLen - 1
        invariant len <= eirLen && p == start + len
        invariant ParseFields(View(), data[p..end]) == ParseFields(first, data[start..end])
      {
        var fieldLen: int := data[p];
        if fieldLen == 0 { break; }
        len := len + fieldLen + 1;
        if len > eirLen { break; }
        NextField(data, p, end);
        p := p + fieldLen + 1;
      }
      ParseEnds(View(), data, p, end);
    }

    method ParseOob(data: seq<byte>, eirLen: nat) returns (status: int)
      requires eirLen <= |data| && eirLen < 0x1_0000
      modifies this
      ensures var r := Spec.ParseOob(old(View()), data[..eirLen]);
              if r.Some? then status == 0 && View() == r.value else status == -1 && View() == old(View())
    {
      ghost var block := data[..eirLen];
      if eirLen < OOB_MIN { return -1; }
      assert block[..2] == data[..2];
      if eirLen != Value16(data[..2]) { return -1; }
      addr := data[2..8];
      assert block[2..8] == data[2..8];
      var optional := eirLen - OOB_MIN;
      if optional > 0 {
        OptionalAt(data, eirLen);
        Parse(data, 8, optional % 256);
      }
      return 0;
    }
  }

  // ---------------------------------------------------------------- the generator

  /** The buffer d0 with the fields fs laid out behind the address, up to p. */
  ghost predicate Laid(d: seq<byte>, d0: seq<byte>, fs: seq<Field>, p: nat) {
    && AllEncodable(fs) && p == OOB_MIN + |EncodeAll(fs)| <= |d0|
    && d == Splice(d0, OOB_MIN, EncodeAll(fs))
  }

  lemma LaidOneMore(d: seq<byte>, d0: seq<byte>, fs: seq<Field>, p: nat, f: Field)
    requires Laid(d, d0, fs, p) && Encodable(f) && p + 2 + |f.payload| <= |d0|
    ensures Laid(Splice(Splice(d, p, [|f.payload| + 1, f.kind]), p + 2, f.payload), d0, fs + [f],
                 p + 2 + |f.payload|)
  {
    EirLaws.EncodeAppend(fs, [f]);
    EirLaws.EncodeOne(f);
    SpliceNext(d, p, [|f.payload| + 1, f.kind], f.payload);
    SpliceNext(d0, OOB_MIN, EncodeAll(fs), Encode(f));
  }

  lemma LaidNoMore(fs: seq<Field>)
    ensures fs + [] == fs
  {
  }

  /** Appends one field behind those already written. */
  method PutField(data: array<byte>, p: nat, ghost d0: seq<byte>, ghost fs: seq<Field>, f: Field) returns (q: nat)
    requires Laid(data[..], d0, fs, p) && Encodable(f) && p + 2 + |f.payload| <= data.Length
    modifies data
    ensures Laid(data[..], d0, fs + [f], q) && q == p + 2 + |f.payload|
  {
    LaidOneMore(data[..], d0, fs, p, f);
    PutPair(data, p, |f.payload| + 1, f.kind);
    Put(data, p + 2, f.payload);
    q := p + 2 + |f.payload|;
  }

  method PutClass(o: Oob, data: array<byte>, p: nat, ghost d0: seq<byte>, ghost fs: seq<Field>) returns (q: nat)
    requires Laid(data[..], d0, fs, p) && p + 5 <= data.Length
    modifies data
    ensures Laid(data[..], d0, fs + ClassFields(o), q) && q <= p + 5
  {
    q := p;
    LaidNoMore(fs);
    if o.classOfDevice > 0 {
      q := PutField(data, p, d0, fs, Field(CLASS_OF_DEV, Le24(o.classOfDevice)));
    }
  }

  method PutSecret(kind: byte, key: Option<Key>, data: array<byte>, p: nat, ghost d0: seq<byte>, ghost fs: seq<Field>)
    returns (q: nat)
    requires Laid(data[..], d0, fs, p) && p + 18 <= data.Length
    modifies data
    ensures Laid(data[..], d0, fs + KeyFields(kind, key), q) && q <= p + 18
  {
    q := p;
    LaidNoMore(fs);
    if key.Some? {
      q := PutField(data, p, d0, fs, Field(kind, key.value));
    }
  }

  method PutName(o: Oob, data: array<byte>, p: nat, ghost d0: seq<byte>, ghost fs: seq<Field>) returns (q: nat)
    requires Laid(data[..], d0, fs, p) && p + MAX_NAME + 2 <= data.Length
    modifies data
    ensures Laid(data[..], d0, fs + NameFields(o), q) && q <= p + MAX_NAME + 2
  {
    q := p;
    LaidNoMore(fs);
    if |o.name| > 0 {
      if |o.name| > MAX_NAME {
        q := PutField(data, p, d0, fs, Field(NAME_SHORT, o.name[..MAX_NAME]));
      } else {
        q := PutField(data, p, d0, fs, Field(NAME_COMPLETE, o.name));
      }
    }
  }

  method PutId(o: Oob, data: array<byte>, p: nat, ghost d0: seq<byte>, ghost fs: seq<Field>) returns (q: nat)
    requires Laid(data[..], d0, fs, p) && p + 10 <= data.Length
    modifies data
    ensures Laid(data[..], d0, fs + IdFields(o), q) && q <= p + 10
  {
    q := p;
    LaidNoMore(fs);
    if o.vendor != 0 {
      var id := Le16(o.source) + Le16(o.vendor) + Le16(o.product) + Le16(o.version);
      q := PutField(data, p, d0, fs, Field(DEVICE_ID, id));
    }
  }

  /** The fields that come before the service lists. */
  method PutFixed(o: Oob, data: array<byte>) returns (p: nat)
    requires data.Length >= OOB_MIN + MAX_EIR_LENGTH
    modifies data
    ensures Laid(data[..], old(data[..]), FixedFields(o), p)
  {
    ghost var d0 := data[..];
    SpliceNothing(d0, OOB_MIN);
    p := PutClass(o, data, OOB_MIN, d0, []);
    ghost var fs := [] + ClassFields(o);
    p := PutSecret(SSP_HASH, o.hash, data, p, d0, fs);
    fs := fs + KeyFields(SSP_HASH, o.hash);
    p := PutSecret(SSP_RANDOMIZER, o.randomizer, data, p, d0, fs);
    fs := fs + KeyFields(SSP_RANDOMIZER, o.randomizer);
    p := PutName(o, data, p, d0, fs);
    fs := fs + NameFields(o);
    p := PutId(o, data, p, d0, fs);
    assert [] + ClassFields(o) == ClassFields(o);
  }

  // ---------------------------------------------------------------- the short services

  lemma CollectNext<T>(x: T, rest: seq<T>, kept: seq<T>, room: nat)
    ensures Collect([x] + rest, kept, room) ==
            if |kept| >= room then (kept, true) else Collect(rest, if x in kept then kept else kept + [x], room)
  {
    assert ([x] + rest)[1..] == rest;
  }

  lemma ShortsNext(us: seq<Uuid>, l: nat)
    requires l < |us|
    ensures Shorts(us[l..]) == if Eligible16(us[l]) then [us[l].short] + Shorts(us[l + 1..]) else Shorts(us[l + 1..])
  {
    assert us[l..][1..] == us[l + 1..];
  }

  lemma FullsNext(us: seq<Uuid>, l: nat)
    requires l < |us|
    ensures Fulls(us[l..]) == if us[l].Uuid128? then [us[l].full] + Fulls(us[l + 1..]) else Fulls(us[l + 1..])
  {
    assert us[l..][1..] == us[l + 1..];
  }

  method FindWord(a: array<Word>, count: nat, v: Word) returns (i: nat)
    requires count <= a.Length
    ensures i <= count && (i < count <==> v in a[..count])
  {
    i := 0;
    while i < count
      invariant i <= count && v !in a[..i]
    {
      if a[i] == v { return; }
      i := i + 1;
    }
  }

  /** The pass over the list; `optional` counts the bytes the kept services will take. */
  method CollectShorts(uuids: seq<Uuid>, uuid16: array<Word>, used: nat)
    returns (count: nat, truncated: bool, optional: nat)
    requires uuid16.Length == MAX_EIR_LENGTH / 2
    modifies uuid16
    ensures count <= uuid16.Length && optional == used + 2 * count
    ensures count > 0 ==> optional + 2 <= MAX_EIR_LENGTH
    ensures (uuid16[..count], truncated) == Collect(Shorts(uuids), [], Room(used, 2))
  {
    count, truncated, optional := 0, false, used;
    var l := 0;
    while l < |uuids|
      invariant l <= |uuids| && count <= uuid16.Length && optional == used + 2 * count
      invariant count > 0 ==> optional + 2 <= MAX_EIR_LENGTH
      invariant Collect(Shorts(uuids[l..]), uuid16[..count], Room(used, 2)) == Collect(Shorts(uuids), [], Room(used, 2))
      invariant !truncated
    {
      var uuid := uuids[l];
      ShortsNext(uuids, l);
      l := l + 1;
      if !Eligible16(uuid) { continue; }
      EirLaws.RoomIsExact(used, 2, count);
      CollectNext(uuid.short, Shorts(uuids[l..]), uuid16[..count], Room(used, 2));
      if optional + 2 + 2 > MAX_EIR_LENGTH {
        truncated := true;
        break;
      }
      var i := FindWord(uuid16, count, uuid.short);
      if i < count { continue; }
      uuid16[count] := uuid.short;
      assert uuid16[..count + 1] == uuid16[..count] + [uuid.short];
      count, optional := count + 1, optional + 2;
    }
    if !truncated { assert uuids[l..] == []; }
  }

  lemma Bytes16Next(d0: seq<byte>, p: nat, vs: seq<Word>, i: nat)
    requires i < |vs| && p + 2 * |vs| <= |d0|
    ensures Splice(Splice(d0, p, Bytes16(vs[..i])), p + 2 * i, Le16(vs[i])) == Splice(d0, p, Bytes16(vs[..i + 1]))
  {
    assert vs[..i + 1][..i] == vs[..i];
    SpliceNext(d0, p, Bytes16(vs[..i]), Le16(vs[i]));
  }

  method PutWord(data: array<byte>, p: nat, w: Word)
    requires p + 2 <= data.Length
    modifies data
    ensures data[..] == Splice(old(data[..]), p, Le16(w))
  {
    PutPair(data, p, w % 256, w / 256 % 256);
  }

  /** Lays the collected services out from p on. */
  method PutShorts(data: array<byte>, p: nat, vs: seq<Word>)
    requires p + 2 * |vs| <= data.Length
    modifies data
    ensures data[..] == Splice(old(data[..]), p, Bytes16(vs))
  {
    var i, q := 0, p;
    ghost var d0 := data[..];
    SpliceNothing(d0, p);
    while i < |vs|
      invariant i <= |vs| && q == p + 2 * i
      invariant data[..] == Splice(d0, p, Bytes16(vs[..i]))
    {
      Bytes16Next(d0, p, vs, i);
      PutWord(data, q, vs[i]);
      i, q := i + 1, q + 2;
    }
    assert vs[..i] == vs;
  }

  lemma ShortList(o: Oob, vs: seq<Word>, truncated: bool)
    requires (vs, truncated) == Kept16(o)
    ensures Fields16(o) == if vs == [] then [] else [Field(if truncated then UUID16_SOME else UUID16_ALL, Bytes16(vs))]
  {
  }

  /** The short services, if any were kept. */
  method PutShortList(o: Oob, data: array<byte>, p: nat, ghost d0: seq<byte>) returns (q: nat)
    requires data.Length >= OOB_MIN + MAX_EIR_LENGTH && Laid(data[..], d0, FixedFields(o), p)
    modifies data
    ensures Laid(data[..], d0, FixedFields(o) + Fields16(o), q)
  {
    ghost var fs := FixedFields(o);
    LaidNoMore(fs);
    var uuid16 := new Word[MAX_EIR_LENGTH / 2];
    var count, truncated, optional := CollectShorts(o.uuids, uuid16, p - OOB_MIN);
    ShortList(o, uuid16[..count], truncated);
    q := p;
    if count > 0 {
      q := PutGroup16(data, p, d0, fs, if truncated then UUID16_SOME else UUID16_ALL, uuid16[..count]);
    }
  }

  method PutGroup16(data: array<byte>, p: nat, ghost d0: seq<byte>, ghost fs: seq<Field>, kind: byte, vs: seq<Word>)
    returns (q: nat)
    requires Laid(data[..], d0, fs, p) && p + 2 + 2 * |vs| <= data.Length && 2 * |vs| < 255
    modifies data
    ensures Laid(data[..], d0, fs + [Field(kind, Bytes16(vs))], q)
  {
    ghost var f := Field(kind, Bytes16(vs));
    LaidOneMore(data[..], d0, fs, p, f);
    assert |f.payload| + 1 == |vs| * 2 + 1;
    PutPair(data, p, |vs| * 2 + 1, kind);
    PutShorts(data, p + 2, vs);
    q := p + 2 + 2 * |vs|;
  }

  // ---------------------------------------------------------------- the long services

  method SameKey(data: array<byte>, p: nat, key: Key) returns (same: bool)
    requires p + 16 <= data.Length
    ensures same <==> data[..][p..p + 16] == Reverse(key)
  {
    ghost var stored := data[..][p..p + 16];
    var k := 0;
    while k < 16
      invariant k <= 16 && stored[..k] == Reverse(key)[..k]
    {
      if data[p + k] != key[16 - 1 - k] {
        assert stored[k] != Reverse(key)[k];
        return false;
      }
      k := k + 1;
    }
    return true;
  }

  lemma HeldBytes(d: seq<byte>, base: nat, bytes: seq<byte>, i: nat, r: seq<byte>)
    requires base + |bytes| <= |d| && 16 * i + 16 <= |bytes| && bytes[16 * i..16 * i + 16] == r
    ensures Splice(d, base, bytes)[base + 16 * i..base + 16 * i + 16] == r
  {
    var at := 16 * i;
    SpliceInside(d, base, bytes, at, at + 16);
  }

  /** The keys kept so far lie reversed in the buffer. */
  lemma HeldKey(d: seq<byte>, base: nat, kept: seq<Key>, i: nat)
    requires base + 16 * |kept| <= |d| && i < |kept|
    ensures Splice(d, base, Bytes128(kept))[base + 16 * i..base + 16 * i + 16] == Reverse(kept[i])
  {
    EirLaws.Bytes128At(kept, i);
    HeldBytes(d, base, Bytes128(kept), i, Reverse(kept[i]));
  }

  method FindKey(data: array<byte>, base: nat, count: nat, ghost d0: seq<byte>, ghost kept: seq<Key>, key: Key)
    returns (i: nat)
    requires count == |kept| && base + 16 * count <= |d0| && data[..] == Splice(d0, base, Bytes128(kept))
    ensures i <= count && (i < count <==> key in kept)
  {
    i := 0;
    while i < count
      invariant i <= count && key !in kept[..i]
    {
      var same := SameKey(data, base + 16 * i, key);
      HeldKey(d0, base, kept, i);
      ReverseInjective(kept[i], key);
      if same { return; }
      i := i + 1;
    }
  }

  lemma ReverseNext(d0: seq<byte>, p: nat, key: Key, k: nat)
    requires k < 16 && p + 16 <= |d0|
    ensures Splice(Splice(d0, p, Reverse(key)[..k]), p + k, [key[16 - 1 - k]]) == Splice(d0, p, Reverse(key)[..k + 1])
  {
    PrefixNext(d0, p, Reverse(key), k);
  }

  method PutKey(data: array<byte>, p: nat, key: Key)
    requires p + 16 <= data.Length
    modifies data
    ensures data[..] == Splice(old(data[..]), p, Reverse(key))
  {
    ghost var d0, bytes := data[..], Reverse(key);
    SpliceNothing(d0, p);
    var k := 0;
    while k < 16
      invariant k <= |bytes|
      invariant data[..] == Splice(d0, p, bytes[..k])
    {
      ReverseNext(d0, p, key, k);
      PutByte(data, p + k, key[16 - 1 - k]);
      k := k + 1;
    }
    assert bytes[..k] == bytes;
  }

  lemma Bytes128Append(kept: seq<Key>, key: Key)
    ensures Bytes128(kept + [key]) == Bytes128(kept) + Reverse(key)
  {
    assert (kept + [key])[..|kept|] == kept;
  }

  lemma Bytes128Next(d0: seq<byte>, base: nat, kept: seq<Key>, key: Key)
    requires base + 16 * |kept| + 16 <= |d0|
    ensures Splice(Splice(d0, base, Bytes128(kept)), base + 16 * |kept|, Reverse(key)) ==
            Splice(d0, base, Bytes128(kept + [key]))
  {
    Bytes128Append(kept, key);
    SpliceNext(d0, base, Bytes128(kept), Reverse(key));
  }

  /** Collects the long services in place from `base` on. */
  method CollectFulls(uuids: seq<Uuid>, data: array<byte>, base: nat, used: nat)
    returns (count: nat, truncated: bool, len: nat, ghost kept: seq<Key>)
    requires used + 2 <= MAX_EIR_LENGTH && base + MAX_EIR_LENGTH - 2 - used <= data.Length
    modifies data
    ensures (kept, truncated) == Collect(Fulls(uuids), [], Room(used, 16))
    ensures count == |kept| && len == used + 16 * count <= MAX_EIR_LENGTH - 2
    ensures data[..] == Splice(old(data[..]), base, Bytes128(kept))
  {
    count, truncated, len, kept := 0, false, used, [];
    ghost var d0 := data[..];
    SpliceNothing(d0, base);
    var l := 0;
    while l < |uuids|
      invariant l <= |uuids| && count == |kept| && len == used + 16 * count <= MAX_EIR_LENGTH - 2
      invariant data[..] == Splice(d0, base, Bytes128(kept))
      invariant Collect(Fulls(uuids[l..]), kept, Room(used, 16)) == Collect(Fulls(uuids), [], Room(used, 16))
      invariant !truncated
    {
      var uuid := uuids[l];
      FullsNext(uuids, l);
      l := l + 1;
      if !uuid.Uuid128? { continue; }
      EirLaws.RoomIsExact(used, 16, count);
      CollectNext(uuid.full, Fulls(uuids[l..]), kept, Room(used, 16));
      if len + 2 + 16 > MAX_EIR_LENGTH {
        truncated := true;
        break;
      }
      var i := FindKey(data, base, count, d0, kept, uuid.full);
      if i < count { continue; }
      PutKey(data, base + 16 * count, uuid.full);
      Bytes128Next(d0, base, kept, uuid.full);
      kept := kept + [uuid.full];
      len, count := len + 16, count + 1;
    }
    if !truncated { assert uuids[l..] == []; }
  }

  lemma LongList(o: Oob, used: nat, vs: seq<Key>, truncated: bool)
    requires used + 2 <= MAX_EIR_LENGTH && (vs, truncated) == Kept128(o, used)
    ensures Fields128(o, used) ==
            if vs == [] && !truncated then []
            else [Field(if truncated then UUID128_SOME else UUID128_ALL, Bytes128(vs))]
  {
  }

  lemma LaidInPlace(d: seq<byte>, d0: seq<byte>, fs: seq<Field>, p: nat, f: Field)
    requires Laid(d, d0, fs, p) && Encodable(f) && p + 2 + |f.payload| <= |d0|
    ensures Laid(Splice(Splice(d, p + 2, f.payload), p, [|f.payload| + 1, f.kind]), d0, fs + [f],
                 p + 2 + |f.payload|)
  {
    var h := [|f.payload| + 1, f.kind];
    SpliceNext(d, p, h, f.payload);
    LaidOneMore(d, d0, fs, p, f);
  }

  /** Collects in place, then writes length and type in front. */
  method GenerateUuid128(ghost o: Oob, uuids: seq<Uuid>, data: array<byte>, p: nat, ghost d0: seq<byte>,
                         ghost fs: seq<Field>, used: nat)
    returns (len: nat)
    requires uuids == o.uuids && used + 2 <= MAX_EIR_LENGTH && p == OOB_MIN + used
    requires data.Length >= OOB_MIN + MAX_EIR_LENGTH && Laid(data[..], d0, fs, p)
    modifies data
    ensures Laid(data[..], d0, fs + Fields128(o, used), OOB_MIN + len)
  {
    ghost var d := data[..];
    var count, truncated, end, kept := CollectFulls(uuids, data, p + 2, used);
    len := used;
    LaidNoMore(fs);
    LongList(o, used, kept, truncated);
    if count > 0 || truncated {
      len := end + 2;
      CloseGroup128(data, p, d, d0, fs, if truncated then UUID128_SOME else UUID128_ALL, count, kept);
    } else {
      SpliceNothing(d, p + 2);
    }
  }

  method CloseGroup128(data: array<byte>, p: nat, ghost d: seq<byte>, ghost d0: seq<byte>, ghost fs: seq<Field>,
                       kind: byte, count: nat, ghost kept: seq<Key>)
    requires Laid(d, d0, fs, p) && count == |kept| && 16 * count < 255 && p + 2 + 16 * count <= |d|
    requires data[..] == Splice(d, p + 2, Bytes128(kept))
    modifies data
    ensures Laid(data[..], d0, fs + [Field(kind, Bytes128(kept))], p + 2 + 16 * count)
  {
    LaidInPlace(d, d0, fs, p, Field(kind, Bytes128(kept)));
    PutPair(data, p, count * 16 + 1, kind);
  }

  method PutOptional(o: Oob, data: array<byte>) returns (optional: nat)
    requires data.Length >= OOB_MIN + MAX_EIR_LENGTH
    modifies data
    ensures Laid(data[..], old(data[..]), OobFields(o), OOB_MIN + optional)
  {
    ghost var d0, fs := data[..], FixedFields(o) + Fields16(o);
    var p := PutFixed(o, data);
    p := PutShortList(o, data, p, d0);
    optional := p - OOB_MIN;
    LaidNoMore(fs);
    if optional <= MAX_EIR_LENGTH - 2 {
      optional := GenerateUuid128(o, o.uuids, data, p, d0, fs, optional);
    }
  }

  lemma Assembled(d: seq<byte>, addr: seq<byte>, optional: seq<byte>, length: seq<byte>)
    requires |addr| == 6 && |length| == 2 && OOB_MIN + |optional| <= |d|
    ensures Splice(Splice(Splice(d, 2, addr), OOB_MIN, optional), 0, length) == Splice(d, 0, length + addr + optional)
  {
    SpliceNext(d, 2, addr, optional);
    assert length + (addr + optional) == length + addr + optional;
  }

  /** Builds the block in the caller's buffer and returns its length. */
  method CreateOob(o: Oob, data: array<byte>) returns (total: nat)
    requires ValidOob(o) && data.Length >= OOB_MIN + MAX_EIR_LENGTH
    modifies data
    ensures total == |Spec.CreateOob(o)| <= OOB_MIN + MAX_EIR_LENGTH
    ensures data[..] == Splice(old(data[..]), 0, Spec.CreateOob(o))
  {
    Put(data, 2, o.addr);
    var optional := PutOptional(o, data);
    total := OOB_MIN + optional;
    Put(data, 0, Le16(total));
    EirLaws.ListSizes(o);
    Assembled(old(data[..]), o.addr, EncodeAll(OobFields(o)), Le16(total));
  }
}
