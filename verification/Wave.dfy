/** WAVE files: the header that is written in front of a recording, and what a file means to the
    player. */
module Wave {
  import opened Octets
  import opened Options

  datatype Format =
    | U8
    | S16Le | S24Le | S24In3Le | S32Le | FloatLe
    | S16Be | S24Be | S24In3Be | S32Be | FloatBe
    | OtherFormat

  datatype Params = Params(format: Format, channels: nat, rate: nat)

  function Riff(): seq<byte> { [0x52, 0x49, 0x46, 0x46] }

  function Rifx(): seq<byte> { [0x52, 0x49, 0x46, 0x58] }

  function WaveType(): seq<byte> { [0x57, 0x41, 0x56, 0x45] }

  function FmtId(): seq<byte> { [0x66, 0x6d, 0x74, 0x20] }

  function DataId(): seq<byte> { [0x64, 0x61, 0x74, 0x61] }

  function GuidTag(): seq<byte> {
    [0x00, 0x00, 0x00, 0x00, 0x10, 0x00, 0x80, 0x00, 0x00, 0xaa, 0x00, 0x38, 0x9b, 0x71]
  }

  const PCM: nat := 0x0001
  const IEEE_FLOAT: nat := 0x0003
  const EXTENSIBLE: nat := 0xfffe

  const HEADER := 12
  const CHUNK_HEADER := 8
  const FMT_BODY := 16
  const FMT_EXTENSIBLE := 40

  const UINT_MODULUS := 0x1_0000_0000
  const COUNT_LIMIT := 0x7fff_fffe

  function Short(s: seq<byte>, big: bool): nat
    requires |s| >= 2
  {
    if big then Value16([s[1], s[0]]) else Value16(s)
  }

  function Int(s: seq<byte>, big: bool): (n: nat)
    requires |s| >= 4
    ensures n < UINT_MODULUS
  {
    if big then Value32([s[3], s[2], s[1], s[0]]) else Value32(s)
  }

  /** Chunks are padded to even length, in thirty-two bit arithmetic. */
  function Padded(len: nat): nat {
    (len + len % 2) % UINT_MODULUS
  }

  // ---------------------------------------------------------------- reading

  /** Where a chunk search ends: at the wanted chunk, given by its declared length and everything
      behind its header, or at the end of the input. */
  datatype Found = Found(len: nat, rest: seq<byte>) | EndOfInput

  function Seek(s: seq<byte>, id: seq<byte>, big: bool): Found
    decreases |s|
  {
    if |s| < CHUNK_HEADER then EndOfInput
    else
      var len, rest := Int(s[4..8], big), s[8..];
      if s[..4] == id then Found(len, rest)
      else if |rest| < Padded(len) then EndOfInput
      else Seek(rest[Padded(len)..], id, big)
  }

  function ByWidth(bytes: nat, big: bool): Option<Format> {
    if bytes == 3 then Some(if big then S24In3Be else S24In3Le)
    else if bytes == 4 then Some(if big then S24Be else S24Le)
    else None
  }

  /** The sample format, from the format code, the bits per sample, the valid ones among them, and the
      bytes per sample of one channel. */
  function SampleFormat(code: nat, bits: nat, valid: nat, bytes: nat, big: bool): Option<Format> {
    if bits == 8 then Some(U8)
    else if bits == 16 then Some(if big then S16Be else S16Le)
    else if bits == 24 then ByWidth(bytes, big)
    else if bits == 32 then
      if code == IEEE_FLOAT then Some(if big then FloatBe else FloatLe)
      else if valid == 24 then Some(if big then S24Be else S24Le)
      else Some(if big then S32Be else S32Le)
    else None
  }

  datatype Coding = Coding(code: nat, valid: nat)

  /** The format code and the valid bits; the extensible form keeps them behind the common fields, the
      valid bits narrowed to eight. */
  function CodingOf(body: seq<byte>, big: bool): Option<Coding>
    requires |body| >= FMT_BODY
  {
    var code := Short(body, big);
    if code != EXTENSIBLE then Some(Coding(code, 0))
    else if |body| < FMT_EXTENSIBLE || body[26..40] != GuidTag() then None
    else Some(Coding(Short(body[24..26], big), Short(body[18..20], big) % 256))
  }

  predicate Playable(coding: Coding, channels: nat, bits: nat) {
    (coding.code == PCM || coding.code == IEEE_FLOAT) && channels >= 1 && coding.valid <= bits
  }

  /** What the format chunk says, or nothing when the player gives up on it. */
  function Interpret(body: seq<byte>, big: bool): Option<Params> {
    if |body| < FMT_BODY then None
    else
      var coding, channels, bits := CodingOf(body, big), Short(body[2..4], big), Short(body[14..16], big);
      if coding.None? || !Playable(coding.value, channels, bits) then None
      else
        var bytes := Short(body[12..14], big) / channels;
        var format := SampleFormat(coding.value.code, bits, coding.value.valid, bytes, big);
        if format.None? then None else Some(Params(format.value, channels, Int(body[4..8], big)))
  }

  /** What a file is to the player: not a WAVE file, a reason to exit, or samples to play, `count`
      bytes at most. */
  datatype Outcome =
    | NotWave
    | Exit
    | Playing(params: Params, count: nat, body: seq<byte>)

  /** The byte count read so far only shrinks, and only to a plausible length. */
  function Shrink(count: nat, len: nat): nat {
    if len < count && len < COUNT_LIMIT then len else count
  }

  function PlayChunks(s: seq<byte>, big: bool, count: nat): Outcome {
    var fmt := Seek(s, FmtId(), big);
    if fmt.EndOfInput? || |fmt.rest| < Padded(fmt.len) then Exit
    else
      var len := Padded(fmt.len);
      var params := Interpret(fmt.rest[..len], big);
      if params.None? then Exit
      else
        var data := Seek(fmt.rest[len..], DataId(), big);
        if data.EndOfInput? then Exit else Playing(params.value, Shrink(count, data.len), data.rest)
  }

  function Play(file: seq<byte>, count: nat): Outcome {
    if |file| < HEADER || (file[..4] != Riff() && file[..4] != Rifx()) || file[8..12] != WaveType() then NotWave
    else PlayChunks(file[12..], file[..4] == Rifx(), count)
  }

  // ---------------------------------------------------------------- writing

  function Bits(f: Format): Option<nat> {
    match f
    case U8 => Some(8)
    case S16Le => Some(16)
    case S32Le => Some(32)
    case FloatLe => Some(32)
    case S24Le => Some(24)
    case S24In3Le => Some(24)
    case _ => None
  }

  /** Bytes one sample takes in memory. */
  function Width(f: Format): nat {
    match f
    case U8 => 1
    case S16Le => 2
    case S24In3Le => 3
    case _ => 4
  }

  /** The unknown length stands for as much as fits. */
  function WrittenCount(count: nat): nat {
    if count == 0xffff_ffff_ffff_fffe then 0x7fff_ff00 else count
  }

  function FmtChunk(p: Params): (s: seq<byte>)
    requires Bits(p.format).Some?
    ensures |s| == 16
  {
    var frame := p.channels * Width(p.format) % 0x1_0000;
    Le16(if p.format == FloatLe then IEEE_FLOAT else PCM) + Le16(p.channels) + Le32(p.rate)
    + Le32(frame * p.rate) + Le16(frame) + Le16(Bits(p.format).value)
  }

  function Header(p: Params, count: nat): Option<seq<byte>> {
    if Bits(p.format).None? then None
    else
      var written := WrittenCount(count);
      Some(Riff() + Le32(written + 36) + WaveType() + FmtId() + Le32(16) + FmtChunk(p) + DataId() + Le32(written))
  }
}
