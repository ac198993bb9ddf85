/** Cutting a stream of sound chunks into segments. Whether a chunk is voiced is decided elsewhere and
    comes with the chunk. */
module SoundSegments {
  import opened Octets

  const SEEK := 22048
  const STREAM_BLOCK := 24
  const CAPACITY := SEEK * STREAM_BLOCK

  /** The most chunks a segment has. */
  const FULL := STREAM_BLOCK - 1

  datatype Chunk = Chunk(voiced: bool, bytes: seq<byte>)

  predicate Sized(c: Chunk) {
    1 <= |c.bytes| <= SEEK
  }

  predicate AllSized(cs: seq<Chunk>) {
    forall i :: 0 <= i < |cs| ==> Sized(cs[i])
  }

  // ---------------------------------------------------------------- the machine

  /** `check` is 0 between segments, 1 after the first chunk and 2 later on; `data` is the part of the
      buffer in use. */
  datatype Mic = Mic(check: nat, block: nat, data: seq<byte>)

  const Idle := Mic(0, 0, [])

  const SILENT := 0
  const GROWING := 1
  const READY := 2

  function Result(m: Mic, c: Chunk): nat {
    if c.voiced then if m.check != 0 && m.block + 1 >= FULL then READY else GROWING
    else if m.check != 0 then READY
    else SILENT
  }

  function Feed(m: Mic, c: Chunk): Mic {
    if c.voiced then
      if m.check == 0 then Mic(1, 1, c.bytes)
      else Mic(if m.block + 1 >= FULL then 0 else 2, m.block + 1, m.data + c.bytes)
    else if m.check != 0 then Mic(0, m.block, m.data + c.bytes)
    else Mic(0, 0, m.data)
  }

  /** The segments handed out while a stream is fed. */
  function Emitted(m: Mic, cs: seq<Chunk>): seq<seq<byte>>
    decreases |cs|
  {
    if cs == [] then []
    else
      var m' := Feed(m, cs[0]);
      (if Result(m, cs[0]) == READY then [m'.data] else []) + Emitted(m', cs[1..])
  }

  function FeedAll(m: Mic, cs: seq<Chunk>): Mic
    decreases |cs|
  {
    if cs == [] then m else FeedAll(Feed(m, cs[0]), cs[1..])
  }

  // ---------------------------------------------------------------- segments, declared

  /** How many chunks from the start on are voiced, as far as a segment can reach. */
  function Run(cs: seq<Chunk>, most: nat): (n: nat)
    ensures n <= most && n <= |cs|
    ensures forall i :: 0 <= i < n ==> cs[i].voiced
    ensures n == most || n == |cs| || !cs[n].voiced
  {
    if most == 0 || cs == [] || !cs[0].voiced then 0 else 1 + Run(cs[1..], most - 1)
  }

  /** The first segment of a stream that starts with a voiced chunk: as many voiced chunks as fit, or
      fewer and the unvoiced one behind them; empty while the stream is too short to tell. */
  function First(cs: seq<Chunk>): (s: seq<Chunk>)
    requires cs != [] && cs[0].voiced
    ensures s <= cs
  {
    var n := Run(cs, FULL);
    if n == FULL then cs[..n] else if n < |cs| then cs[..n + 1] else []
  }

  function Segments(cs: seq<Chunk>): seq<seq<Chunk>>
    decreases |cs|
  {
    if cs == [] then []
    else if !cs[0].voiced then Segments(cs[1..])
    else if First(cs) == [] then []
    else [First(cs)] + Segments(cs[|First(cs)|..])
  }

  /** The chunks of a segment not yet finished. */
  function Open(cs: seq<Chunk>): seq<Chunk>
    decreases |cs|
  {
    if cs == [] then []
    else if !cs[0].voiced then Open(cs[1..])
    else if First(cs) == [] then cs
    else Open(cs[|First(cs)|..])
  }

  function Bytes(cs: seq<Chunk>): seq<byte> {
    if cs == [] then [] else Bytes(cs[..|cs| - 1]) + cs[|cs| - 1].bytes
  }

  function AllBytes(segments: seq<seq<Chunk>>): seq<seq<byte>> {
    seq(|segments|, i requires 0 <= i < |segments| => Bytes(segments[i]))
  }

  /** One to twenty-two voiced chunks and an unvoiced one, or exactly twenty-three voiced ones. */
  predicate IsSegment(s: seq<Chunk>) {
    || (|s| == FULL && forall i :: 0 <= i < |s| ==> s[i].voiced)
    || (2 <= |s| <= FULL && !s[|s| - 1].voiced && forall i :: 0 <= i < |s| - 1 ==> s[i].voiced)
  }

  lemma FirstShape(cs: seq<Chunk>)
    requires cs != [] && cs[0].voiced
    ensures First(cs) == [] ==> |cs| < FULL && forall i :: 0 <= i < |cs| ==> cs[i].voiced
    ensures First(cs) != [] ==> IsSegment(First(cs)) && cs == First(cs) + cs[|First(cs)|..]
  {
  }

  lemma {:induction false} SegmentShapes(cs: seq<Chunk>)
    ensures forall i :: 0 <= i < |Segments(cs)| ==> IsSegment(Segments(cs)[i])
    ensures |Open(cs)| < FULL && forall i :: 0 <= i < |Open(cs)| ==> Open(cs)[i].voiced
    decreases |cs|
  {
    if cs != [] {
      if !cs[0].voiced {
        SegmentShapes(cs[1..]);
      } else {
        FirstShape(cs);
        if First(cs) != [] { SegmentShapes(cs[|First(cs)|..]); }
      }
    }
  }

  function Voiced(cs: seq<Chunk>): seq<Chunk> {
    if cs == [] then []
    else if cs[0].voiced then [cs[0]] + Voiced(cs[1..])
    else Voiced(cs[1..])
  }

  function Joined(segments: seq<seq<Chunk>>): seq<Chunk> {
    if segments == [] then [] else segments[0] + Joined(segments[1..])
  }

  lemma {:induction false} VoicedAppend(a: seq<Chunk>, b: seq<Chunk>)
    ensures Voiced(a + b) == Voiced(a) + Voiced(b)
  {
    if a == [] {
      assert a + b == b;
    } else {
      assert (a + b)[1..] == a[1..] + b;
      VoicedAppend(a[1..], b);
    }
  }

  /** Every voiced chunk of the stream is in exactly one segment, or in the open one, in its order. */
  lemma {:induction false} VoicedChunksKept(cs: seq<Chunk>)
    ensures Voiced(Joined(Segments(cs)) + Open(cs)) == Voiced(cs)
    decreases |cs|
  {
    if cs != [] {
      if !cs[0].voiced {
        VoicedChunksKept(cs[1..]);
      } else if First(cs) == [] {
        assert Joined([]) + cs == cs;
      } else {
        var first := First(cs);
        var rest := cs[|first|..];
        FirstShape(cs);
        VoicedChunksKept(rest);
        JoinedNext(first, Segments(rest), Open(rest));
        VoicedAppend(first, Joined(Segments(rest)) + Open(rest));
        VoicedAppend(first, rest);
      }
    }
  }

  lemma JoinedNext(first: seq<Chunk>, segments: seq<seq<Chunk>>, open: seq<Chunk>)
    ensures Joined([first] + segments) + open == first + (Joined(segments) + open)
  {
    assert ([first] + segments)[1..] == segments;
  }

  // ---------------------------------------------------------------- the machine finds them

  lemma {:induction false} FeedAppend(m: Mic, a: seq<Chunk>, b: seq<Chunk>)
    ensures FeedAll(m, a + b) == FeedAll(FeedAll(m, a), b)
    ensures Emitted(m, a + b) == Emitted(m, a) + Emitted(FeedAll(m, a), b)
    decreases |a|
  {
    if a == [] {
      assert a + b == b;
    } else {
      assert (a + b)[1..] == a[1..] + b;
      FeedAppend(Feed(m, a[0]), a[1..], b);
    }
  }

  /** From between segments, voiced chunks short of a full segment only fill the buffer. */
  lemma {:induction false} FillBuffer(m: Mic, run: seq<Chunk>)
    requires m.check == 0 && 1 <= |run| < FULL && forall i :: 0 <= i < |run| ==> run[i].voiced
    ensures FeedAll(m, run) == Mic(if |run| == 1 then 1 else 2, |run|, Bytes(run))
    ensures Emitted(m, run) == []
    decreases |run|
  {
    var init, last := run[..|run| - 1], run[|run| - 1];
    assert run == init + [last];
    FeedAppend(m, init, [last]);
    if init == [] {
      assert Bytes(init) + last.bytes == last.bytes;
    } else {
      FillBuffer(m, init);
    }
  }

  lemma FinishSegment(m: Mic, s: seq<Chunk>)
    requires m.check == 0 && IsSegment(s)
    ensures FeedAll(m, s).check == 0 && Emitted(m, s) == [Bytes(s)]
  {
    var init, last := s[..|s| - 1], s[|s| - 1];
    assert s == init + [last];
    FillBuffer(m, init);
    FeedAppend(m, init, [last]);
  }

  lemma AfterSegment(m: Mic, first: seq<Chunk>, rest: seq<Chunk>)
    requires m.check == 0 && IsSegment(first)
    ensures FeedAll(m, first).check == 0
    ensures FeedAll(m, first + rest) == FeedAll(FeedAll(m, first), rest)
    ensures Emitted(m, first + rest) == [Bytes(first)] + Emitted(FeedAll(m, first), rest)
  {
    FinishSegment(m, first);
    FeedAppend(m, first, rest);
  }

  lemma BytesNext(first: seq<Chunk>, segments: seq<seq<Chunk>>)
    ensures AllBytes([first] + segments) == [Bytes(first)] + AllBytes(segments)
  {
  }

  /** For any stream, fed chunk by chunk, the segments handed out are the declared ones, and the buffer
      holds the open one. */
  lemma {:induction false} MachineFindsSegments(m: Mic, cs: seq<Chunk>)
    requires m.check == 0
    ensures Emitted(m, cs) == AllBytes(Segments(cs))
    ensures FeedAll(m, cs).check == 0 <==> Open(cs) == []
    ensures Open(cs) != [] ==> FeedAll(m, cs).data == Bytes(Open(cs))
    decreases |cs|
  {
    if cs == [] {
    } else if !cs[0].voiced {
      MachineFindsSegments(Feed(m, cs[0]), cs[1..]);
    } else if First(cs) == [] {
      FirstShape(cs);
      FillBuffer(m, cs);
    } else {
      var first := First(cs);
      var rest := cs[|first|..];
      FirstShape(cs);
      AfterSegment(m, first, rest);
      MachineFindsSegments(FeedAll(m, first), rest);
      BytesNext(first, Segments(rest));
    }
  }

  // ---------------------------------------------------------------- the buffer suffices

  /** Between and within segments the buffer has room for one more chunk of the largest size. */
  predicate Roomy(m: Mic) {
    m.check <= 2 && (m.check != 0 ==> 1 <= m.block < FULL && 1 <= |m.data| <= m.block * SEEK)
  }

  lemma FeedRoomy(m: Mic, c: Chunk)
    requires Roomy(m) && Sized(c)
    ensures Roomy(Feed(m, c))
    ensures Result(m, c) != SILENT ==> 1 <= |Feed(m, c).data| <= FULL * SEEK < CAPACITY
  {
  }
}
