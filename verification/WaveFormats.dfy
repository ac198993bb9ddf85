/** Format chunks and headers byte by byte, of either byte order. */
module WaveFormats {
  import opened Arithmetic
  import opened Octets
  import opened Options
  import opened Wave
  import opened WaveLaws

  // ---------------------------------------------------------------- format chunks

  function Num16(n: nat, big: bool): (s: seq<byte>)
    ensures |s| == 2
  {
    var s := Le16(n);
    if big then [s[1], s[0]] else s
  }

  /** The common part of a format chunk. */
  function FmtBody(big: bool, code: nat, channels: nat, rate: nat, perSecond: nat, frame: nat, bits: nat)
    : (s: seq<byte>)
    ensures |s| == 16
  {
    Num16(code, big) + Num16(channels, big) + Num(rate, big) + Num(perSecond, big) + Num16(frame, big)
    + Num16(bits, big)
  }

  lemma Num16Read(n: nat, big: bool)
    requires n < 0x1_0000
    ensures Short(Num16(n, big), big) == n
  {
    LeValue16(n);
    var s := Num16(n, big);
    if big { assert [s[1], s[0]] == Le16(n); }
  }

  lemma BodyRead(big: bool, code: nat, channels: nat, rate: nat, perSecond: nat, frame: nat, bits: nat, more: seq<byte>)
    requires code < 0x1_0000 && channels < 0x1_0000 && frame < 0x1_0000 && bits < 0x1_0000 && rate < UINT_MODULUS
    ensures var body := FmtBody(big, code, channels, rate, perSecond, frame, bits) + more;
            && Short(body, big) == code && Short(body[2..4], big) == channels && Int(body[4..8], big) == rate
            && Short(body[12..14], big) == frame && Short(body[14..16], big) == bits
  {
    var s := FmtBody(big, code, channels, rate, perSecond, frame, bits);
    var body := s + more;
    Layout(Num16(code, big), Num16(channels, big), Num(rate, big), Num(perSecond, big), Num16(frame, big),
           Num16(bits, big));
    assert body[..2] == Num16(code, big) && body[2..4] == Num16(channels, big) && body[4..8] == Num(rate, big);
    assert body[12..14] == Num16(frame, big) && body[14..16] == Num16(bits, big);
    assert Short(body, big) == Short(body[..2], big);
    Num16Read(code, big);
    Num16Read(channels, big);
    Num16Read(frame, big);
    Num16Read(bits, big);
    NumRead(rate, big);
    ResidueUnique(rate, 0, rate, UINT_MODULUS);
  }

  /** Which numbers stand for which format, little and big end first. */
  lemma FormatTable(code: nat, bits: nat, valid: nat, bytes: nat)
    ensures var le, be := SampleFormat(code, bits, valid, bytes, false), SampleFormat(code, bits, valid, bytes, true);
            && (bits == 8 ==> le == Some(U8) && be == Some(U8))
            && (bits == 16 ==> le == Some(S16Le) && be == Some(S16Be))
            && (bits == 24 && bytes == 3 ==> le == Some(S24In3Le) && be == Some(S24In3Be))
            && (bits == 24 && bytes == 4 ==> le == Some(S24Le) && be == Some(S24Be))
            && (bits == 32 && code == 3 ==> le == Some(FloatLe) && be == Some(FloatBe))
            && (bits == 32 && code != 3 && valid == 24 ==> le == Some(S24Le) && be == Some(S24Be))
            && (bits == 32 && code != 3 && valid != 24 ==> le == Some(S32Le) && be == Some(S32Be))
            && (bits == 24 && bytes != 3 && bytes != 4 ==> le == None && be == None)
            && (bits != 8 && bits != 16 && bits != 24 && bits != 32 ==> le == None && be == None)
  {
  }

  function PerChannel(frame: nat, channels: nat): nat
    requires channels > 0
  {
    frame / channels
  }

  /** A plain chunk is understood if it is PCM (1) or floating point (3) and has a channel; the bytes per
      sample are the frame's divided by the channels, and the bytes per second do not matter. */
  lemma PlainRead(big: bool, code: nat, channels: nat, rate: nat, perSecond: nat, frame: nat, bits: nat,
                  more: seq<byte>)
    requires code < 0x1_0000 && channels < 0x1_0000 && frame < 0x1_0000 && bits < 0x1_0000 && rate < UINT_MODULUS
    requires code != 0xfffe
    ensures var params := Interpret(FmtBody(big, code, channels, rate, perSecond, frame, bits) + more, big);
            if (code != 1 && code != 3) || channels == 0 then params == None
            else
              var format := SampleFormat(code, bits, 0, PerChannel(frame, channels), big);
              params == if format.None? then None else Some(Params(format.value, channels, rate))
  {
    BodyRead(big, code, channels, rate, perSecond, frame, bits, more);
  }

  /** What an extensible chunk (0xfffe) has behind the common part: a length, the valid bits, a channel mask,
      the code and the rest of its identifier. */
  function Extension(big: bool, valid: nat, mask: nat, code: nat): (s: seq<byte>)
    ensures |s| == 24
  {
    Num16(22, big) + Num16(valid, big) + Num(mask, big) + Num16(code, big)
    + [0x00, 0x00, 0x00, 0x00, 0x10, 0x00, 0x80, 0x00, 0x00, 0xaa, 0x00, 0x38, 0x9b, 0x71]
  }

  lemma ExtensionRead(big: bool, s: seq<byte>, valid: nat, mask: nat, code: nat)
    requires |s| == 16 && valid < 0x1_0000 && code < 0x1_0000
    ensures var body := s + Extension(big, valid, mask, code);
            && Short(body[18..20], big) == valid && Short(body[24..26], big) == code && body[26..40] == GuidTag()
  {
    var body := s + Extension(big, valid, mask, code);
    assert body[18..20] == Num16(valid, big) && body[24..26] == Num16(code, big);
    Num16Read(valid, big);
    Num16Read(code, big);
  }

  /** An extensible chunk is understood as the code in its extension says, if its valid bits, of which only
      eight bits count, are no more than its bits. */
  lemma ExtensibleRead(big: bool, channels: nat, rate: nat, perSecond: nat, frame: nat, bits: nat, valid: nat,
                       mask: nat, code: nat)
    requires channels < 0x1_0000 && frame < 0x1_0000 && bits < 0x1_0000 && rate < UINT_MODULUS
    requires valid < 0x1_0000 && code < 0x1_0000
    ensures var params := Interpret(FmtBody(big, 0xfffe, channels, rate, perSecond, frame, bits)
                                    + Extension(big, valid, mask, code), big);
            if (code != 1 && code != 3) || channels == 0 || valid % 256 > bits then params == None
            else
              var format := SampleFormat(code, bits, valid % 256, PerChannel(frame, channels), big);
              params == if format.None? then None else Some(Params(format.value, channels, rate))
  {
    var s := FmtBody(big, 0xfffe, channels, rate, perSecond, frame, bits);
    BodyRead(big, 0xfffe, channels, rate, perSecond, frame, bits, Extension(big, valid, mask, code));
    ExtensionRead(big, s, valid, mask, code);
  }

  /** Other extensible chunks, and chunks too short, are not understood. */
  lemma NotUnderstood(big: bool, body: seq<byte>, more: seq<byte>)
    requires |body| == 26 && Short(body, big) == 0xfffe
    requires |more| < 14
             || more[..14] != [0x00, 0x00, 0x00, 0x00, 0x10, 0x00, 0x80, 0x00, 0x00, 0xaa, 0x00, 0x38, 0x9b, 0x71]
    ensures Interpret(body + more, big) == None
    ensures forall n :: 0 <= n < 16 ==> Interpret(body[..n], big) == None
  {
    var s := body + more;
    assert Short(s, big) == Short(body, big);
    if |more| >= 14 { assert s[26..40] == more[..14]; }
  }

  // ---------------------------------------------------------------- whole files

  /** Twelve bytes tell a WAVE file, and the first four its byte order. */
  lemma WaveIff(file: seq<byte>, count: nat)
    ensures Play(file, count) != NotWave <==>
            && |file| >= 12
            && (file[..4] == [0x52, 0x49, 0x46, 0x46] || file[..4] == [0x52, 0x49, 0x46, 0x58])
            && file[8..12] == [0x57, 0x41, 0x56, 0x45]
    ensures Play(file, count) != NotWave ==> Play(file, count) == PlayChunks(file[12..], file[3] == 0x58, count)
  {
    if |file| >= 12 { assert file[..4][3] == file[3]; }
  }

  /** The declared length of the data takes the place of the count if it is smaller, and below 0x7ffffffe. */
  lemma FileCount(big: bool, size: nat, before: seq<Chunk>, declared: nat, fmt: seq<byte>, between: seq<Chunk>,
                  n: nat, body: seq<byte>, count: nat)
    requires AllOther(before, FmtId()) && AllOther(between, DataId())
    requires declared < UINT_MODULUS && Padded(declared) == |fmt| && n < UINT_MODULUS
    ensures var outcome := Play(File(big, size, before, declared, fmt, between, n, body), count);
            outcome.Playing? ==>
              && outcome.body == body && outcome.count <= count
              && (outcome.count == count || outcome.count == n)
              && (outcome.count < count <==> n < count && n < 0x7fff_fffe)
  {
    PlayFile(big, size, before, declared, fmt, between, n, body, count);
  }

  // ---------------------------------------------------------------- the recorder's header

  /** The header, by its offsets. */
  lemma HeaderBytes(p: Params, count: nat)
    requires Bits(p.format).Some?
    ensures var h, written := Header(p, count).value, if count == 0xffff_ffff_ffff_fffe then 0x7fff_ff00 else count;
            && |h| == 44
            && h[..4] == [0x52, 0x49, 0x46, 0x46] && h[4..8] == Le32(written + 36)
            && h[8..12] == [0x57, 0x41, 0x56, 0x45] && h[12..16] == [0x66, 0x6d, 0x74, 0x20]
            && h[16..20] == [16, 0, 0, 0]
            && h[36..40] == [0x64, 0x61, 0x74, 0x61] && h[40..44] == Le32(written)
  {
    assert Le32(16) == [16, 0, 0, 0];
  }

  /** The format part of it: code, channels, rate, bytes per second, bytes per frame (in sixteen bits) and
      bits per sample. */
  lemma HeaderFormat(p: Params, count: nat)
    requires Bits(p.format).Some?
    ensures var bytes := match p.format
                         case U8 => 1
                         case S16Le => 2
                         case S24In3Le => 3
                         case _ => 4;
            var h, f := Header(p, count).value, p.channels * bytes % 0x1_0000;
            && |h| == 44
            && h[20..22] == (if p.format == FloatLe then [3, 0] else [1, 0]) && h[22..24] == Le16(p.channels)
            && h[24..28] == Le32(p.rate) && h[28..32] == Le32(f * p.rate) && h[32..34] == Le16(f)
            && h[34..36] == Le16(match p.format
                                 case U8 => 8
                                 case S16Le => 16
                                 case S24In3Le => 24
                                 case S24Le => 24
                                 case _ => 32)
  {
    var f := p.channels * Width(p.format) % 0x1_0000;
    var h := Header(p, count).value;
    assert h[20..36] == FmtChunk(p);
    assert Le16(1) == [1, 0] && Le16(3) == [3, 0];
    assert h[20..22] == FmtChunk(p)[..2] && h[22..24] == FmtChunk(p)[2..4] && h[24..28] == FmtChunk(p)[4..8];
    assert h[28..32] == FmtChunk(p)[8..12] && h[32..34] == FmtChunk(p)[12..14] && h[34..36] == FmtChunk(p)[14..16];
  }

  /** The formats a recording can have, and no others. */
  lemma Recordable(p: Params, count: nat)
    ensures Header(p, count).Some? <==> p.format in {U8, S16Le, S24In3Le, S24Le, S32Le, FloatLe}
  {
  }
}
