/** What the player makes of the recorder's own headers, and of chunk sequences in general. */
module WaveLaws {
  import opened Arithmetic
  import opened Octets
  import opened Options
  import opened Wave

  // ---------------------------------------------------------------- chunk sequences

  function Num(n: nat, big: bool): (s: seq<byte>)
    ensures |s| == 4
  {
    var s := Le32(n);
    if big then [s[3], s[2], s[1], s[0]] else s
  }

  lemma NumRead(n: nat, big: bool)
    ensures Int(Num(n, big), big) == n % UINT_MODULUS
  {
    LeValue32(n);
    var s := Num(n, big);
    if big { assert [s[3], s[2], s[1], s[0]] == Le32(n); }
  }

  datatype Chunk = Chunk(id: seq<byte>, payload: seq<byte>)

  predicate WellFormed(c: Chunk) {
    |c.id| == 4 && |c.payload| < UINT_MODULUS - 1
  }

  /** A chunk as it lies in a file: a filling byte follows an odd payload. */
  function EncodeChunk(c: Chunk, big: bool): seq<byte>
    requires WellFormed(c)
  {
    c.id + Num(|c.payload|, big) + c.payload + (if |c.payload| % 2 == 1 then [0] else [])
  }

  predicate AllOther(cs: seq<Chunk>, id: seq<byte>) {
    forall i :: 0 <= i < |cs| ==> WellFormed(cs[i]) && cs[i].id != id
  }

  function EncodeChunks(cs: seq<Chunk>, big: bool): seq<byte>
    requires forall i :: 0 <= i < |cs| ==> WellFormed(cs[i])
  {
    if cs == [] then [] else EncodeChunk(cs[0], big) + EncodeChunks(cs[1..], big)
  }

  lemma PaddedSize(c: Chunk, big: bool)
    requires WellFormed(c)
    ensures |EncodeChunk(c, big)| == CHUNK_HEADER + Padded(|c.payload|)
  {
    var len := |c.payload|;
    ResidueUnique(len + len % 2, 0, len + len % 2, UINT_MODULUS);
  }

  lemma SeekHit(id: seq<byte>, n: nat, rest: seq<byte>, big: bool)
    requires |id| == 4 && n < UINT_MODULUS
    ensures Seek(id + Num(n, big) + rest, id, big) == Found(n, rest)
  {
    var s := id + Num(n, big) + rest;
    assert s[..4] == id && s[4..8] == Num(n, big) && s[8..] == rest;
    NumRead(n, big);
    ResidueUnique(n, 0, n, UINT_MODULUS);
  }

  lemma SeekMiss(c: Chunk, rest: seq<byte>, id: seq<byte>, big: bool)
    requires WellFormed(c) && c.id != id
    ensures Seek(EncodeChunk(c, big) + rest, id, big) == Seek(rest, id, big)
  {
    var len, s := |c.payload|, EncodeChunk(c, big) + rest;
    PaddedSize(c, big);
    assert s[..4] == c.id && s[4..8] == Num(len, big);
    assert s[8..][Padded(len)..] == rest;
    NumRead(len, big);
    ResidueUnique(len, 0, len, UINT_MODULUS);
  }

  /** Chunks in front of the wanted one are passed over, whatever they hold. */
  lemma {:induction false} SeekPasses(cs: seq<Chunk>, rest: seq<byte>, id: seq<byte>, big: bool)
    requires AllOther(cs, id)
    ensures Seek(EncodeChunks(cs, big) + rest, id, big) == Seek(rest, id, big)
    decreases |cs|
  {
    if cs == [] {
      assert EncodeChunks(cs, big) + rest == rest;
    } else {
      var tail := EncodeChunks(cs[1..], big) + rest;
      assert EncodeChunks(cs, big) + rest == EncodeChunk(cs[0], big) + tail;
      SeekMiss(cs[0], tail, id, big);
      SeekPasses(cs[1..], rest, id, big);
    }
  }

  lemma SeekInFile(cs: seq<Chunk>, id: seq<byte>, n: nat, rest: seq<byte>, big: bool)
    requires AllOther(cs, id) && |id| == 4 && n < UINT_MODULUS
    ensures Seek(EncodeChunks(cs, big) + (id + Num(n, big) + rest), id, big) == Found(n, rest)
  {
    SeekPasses(cs, id + Num(n, big) + rest, id, big);
    SeekHit(id, n, rest, big);
  }

  /** A whole file: other chunks, the format chunk with its filling, other chunks, and the data chunk's
      header with everything behind it. */
  function File(big: bool, size: nat, before: seq<Chunk>, declared: nat, fmt: seq<byte>, between: seq<Chunk>,
                n: nat, body: seq<byte>): seq<byte>
    requires AllOther(before, FmtId()) && AllOther(between, DataId())
  {
    (if big then Rifx() else Riff()) + Num(size, big) + WaveType()
    + (EncodeChunks(before, big)
       + (FmtId() + Num(declared, big) + (fmt + (EncodeChunks(between, big) + (DataId() + Num(n, big) + body)))))
  }

  /** Any well-formed chunk sequence is played as its format chunk says, from the data body onward. */
  lemma PlayFile(big: bool, size: nat, before: seq<Chunk>, declared: nat, fmt: seq<byte>, between: seq<Chunk>,
                 n: nat, body: seq<byte>, count: nat)
    requires AllOther(before, FmtId()) && AllOther(between, DataId())
    requires declared < UINT_MODULUS && Padded(declared) == |fmt| && n < UINT_MODULUS
    ensures Play(File(big, size, before, declared, fmt, between, n, body), count) ==
            match Interpret(fmt, big)
            case None => Exit
            case Some(params) => Playing(params, Shrink(count, n), body)
  {
    var file := File(big, size, before, declared, fmt, between, n, body);
    var data := EncodeChunks(between, big) + (DataId() + Num(n, big) + body);
    var chunks := EncodeChunks(before, big) + (FmtId() + Num(declared, big) + (fmt + data));
    assert file[..4] == if big then Rifx() else Riff();
    assert Riff()[3] != Rifx()[3];
    assert file[8..12] == WaveType() && file[12..] == chunks;
    PlayChunksOf(big, before, declared, fmt, data, count);
    SeekInFile(between, DataId(), n, body, big);
  }

  lemma PlayFound(s: seq<byte>, big: bool, count: nat, declared: nat, fmt: seq<byte>, data: seq<byte>)
    requires Seek(s, FmtId(), big) == Found(declared, fmt + data) && Padded(declared) == |fmt|
    ensures PlayChunks(s, big, count) ==
            if Interpret(fmt, big).None? then Exit
            else
              var found := Seek(data, DataId(), big);
              if found.EndOfInput? then Exit
              else Playing(Interpret(fmt, big).value, Shrink(count, found.len), found.rest)
  {
    assert (fmt + data)[..|fmt|] == fmt && (fmt + data)[|fmt|..] == data;
  }

  lemma PlayChunksOf(big: bool, before: seq<Chunk>, declared: nat, fmt: seq<byte>, data: seq<byte>, count: nat)
    requires AllOther(before, FmtId()) && declared < UINT_MODULUS && Padded(declared) == |fmt|
    ensures PlayChunks(EncodeChunks(before, big) + (FmtId() + Num(declared, big) + (fmt + data)), big, count) ==
            if Interpret(fmt, big).None? then Exit
            else
              var found := Seek(data, DataId(), big);
              if found.EndOfInput? then Exit
              else Playing(Interpret(fmt, big).value, Shrink(count, found.len), found.rest)
  {
    SeekInFile(before, FmtId(), declared, fmt + data, big);
    PlayFound(EncodeChunks(before, big) + (FmtId() + Num(declared, big) + (fmt + data)), big, count, declared, fmt,
              data);
  }

  // ---------------------------------------------------------------- the recorder's own header

  lemma HeaderIsFile(p: Params, count: nat, body: seq<byte>)
    requires Bits(p.format).Some?
    ensures Header(p, count).value + body ==
            File(false, WrittenCount(count) + 36, [], 16, FmtChunk(p), [], WrittenCount(count) % UINT_MODULUS, body)
  {
    var w := WrittenCount(count);
    assert Num(w % UINT_MODULUS, false) == Le32(w) by { Le32Residue(w); }
    assert EncodeChunks([], false) == [];
  }

  lemma Le32Residue(n: nat)
    ensures Le32(n % UINT_MODULUS) == Le32(n)
  {
    var q, r := n / UINT_MODULUS, n % UINT_MODULUS;
    ResidueUnique(n, 65536 * q + r / 65536, r % 65536, 65536);
    ResidueUnique(n / 65536, q, r / 65536, 65536);
  }

  lemma Layout(a: seq<byte>, b: seq<byte>, c: seq<byte>, d: seq<byte>, e: seq<byte>, f: seq<byte>)
    requires |a| == |b| == |e| == |f| == 2 && |c| == |d| == 4
    ensures var s := a + b + c + d + e + f;
            s[..2] == a && s[2..4] == b && s[4..8] == c && s[12..14] == e && s[14..16] == f
  {
  }

  lemma FieldsRead(code: nat, channels: nat, rate: nat, perSecond: nat, frame: nat, bits: nat)
    requires code < 0x1_0000 && channels < 0x1_0000 && frame < 0x1_0000 && bits < 0x1_0000 && rate < UINT_MODULUS
    ensures var s := Le16(code) + Le16(channels) + Le32(rate) + Le32(perSecond) + Le16(frame) + Le16(bits);
            && Value16(s) == code && Value16(s[2..4]) == channels && Value32(s[4..8]) == rate
            && Value16(s[12..14]) == frame && Value16(s[14..16]) == bits
  {
    var s := Le16(code) + Le16(channels) + Le32(rate) + Le32(perSecond) + Le16(frame) + Le16(bits);
    Layout(Le16(code), Le16(channels), Le32(rate), Le32(perSecond), Le16(frame), Le16(bits));
    assert Value16(s) == Value16(s[..2]);
    LeValue16(code);
    LeValue16(channels);
    LeValue32(rate);
    LeValue16(frame);
    LeValue16(bits);
    ResidueUnique(rate, 0, rate, UINT_MODULUS);
  }

  lemma FmtFields(p: Params)
    requires Bits(p.format).Some? && p.channels < 0x1_0000 && p.rate < UINT_MODULUS
    ensures var s := FmtChunk(p);
            && Value16(s) == (if p.format == FloatLe then IEEE_FLOAT else PCM)
            && Value16(s[2..4]) == p.channels && Value32(s[4..8]) == p.rate
            && Value16(s[12..14]) == p.channels * Width(p.format) % 0x1_0000
            && Value16(s[14..16]) == Bits(p.format).value
  {
    var frame := p.channels * Width(p.format) % 0x1_0000;
    FieldsRead(if p.format == FloatLe then IEEE_FLOAT else PCM, p.channels, p.rate, frame * p.rate, frame,
               Bits(p.format).value);
  }

  /** The frame size survives its sixteen bits. */
  predicate FrameFits(p: Params) {
    p.channels * Width(p.format) < 0x1_0000
  }

  /** With the frame size cut to sixteen bits, the bytes per sample come out too small to be taken for
      a format. */
  lemma BytesPerSample(channels: nat, width: nat)
    requires 1 <= channels < 0x1_0000 && 3 <= width <= 4
    ensures channels * width < 0x1_0000 ==> channels * width % 0x1_0000 / channels == width
    ensures channels * width >= 0x1_0000 ==> channels * width % 0x1_0000 / channels < 3
  {
    var frame := channels * width;
    if frame < 0x1_0000 {
      ResidueUnique(frame, 0, frame, 0x1_0000);
      ResidueUnique(frame, width, 0, channels);
    } else {
      var cut := frame % 0x1_0000;
      assert cut <= frame - 0x1_0000;
      assert frame <= 4 * channels;
      assert cut < 3 * channels;
      QuotientBelow(cut, 3, channels);
    }
  }

  predicate Is24(f: Format) {
    f == S24Le || f == S24In3Le
  }

  lemma InterpretOwn(p: Params)
    requires Bits(p.format).Some? && 1 <= p.channels < 0x1_0000 && p.rate < UINT_MODULUS
    ensures Interpret(FmtChunk(p), false) == if Is24(p.format) && !FrameFits(p) then None else Some(p)
  {
    FmtFields(p);
    if Is24(p.format) { BytesPerSample(p.channels, Width(p.format)); }
  }

  /** What the recorder writes, the player reads: the same format, channels and rate, the byte count as
      far as it is plausible, and exactly the samples; but a 24 bit recording whose frame size does not
      fit sixteen bits makes the player give up. */
  lemma HeaderRoundTrip(p: Params, count: nat, body: seq<byte>, limit: nat)
    requires Bits(p.format).Some? && 1 <= p.channels < 0x1_0000 && p.rate < UINT_MODULUS
    ensures Play(Header(p, count).value + body, limit) ==
            if Is24(p.format) && !FrameFits(p) then Exit
            else Playing(p, Shrink(limit, WrittenCount(count) % UINT_MODULUS), body)
  {
    HeaderIsFile(p, count, body);
    ResidueUnique(16, 0, 16, UINT_MODULUS);
    PlayFile(false, WrittenCount(count) + 36, [], 16, FmtChunk(p), [], WrittenCount(count) % UINT_MODULUS, body, limit);
    InterpretOwn(p);
  }

  /** So every recording the command line allows, with up to 256 channels, plays back as recorded. */
  lemma RecordingPlaysBack(p: Params, count: nat, body: seq<byte>, limit: nat)
    requires Bits(p.format).Some? && 1 <= p.channels <= 256 && p.rate < UINT_MODULUS
    requires count < COUNT_LIMIT <= limit
    ensures Play(Header(p, count).value + body, limit) == Playing(p, count, body)
  {
    HeaderRoundTrip(p, count, body, limit);
    ResidueUnique(count, 0, count, UINT_MODULUS);
  }
}
