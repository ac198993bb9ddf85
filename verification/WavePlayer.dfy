/** The player's chunk parser as the source writes it: part of the file is already loaded, the rest is
    read when it is needed, and a buffer is shifted down past what has been dealt with. However much
    was loaded beforehand, the outcome is that of `Wave.Play` on the whole file. */
module WavePlayer {
  import opened Octets
  import opened Options
  import opened Wave
  import opened WaveLaws

  datatype Status = Rejected | Exited | Ready

  /** What one read can return when so many bytes are wanted and so many are left: a failure, nothing at
      the end of the input, or some of them. */
  predicate CanReturn(res: int, wanted: nat, left: nat) {
    res == -1 || (0 <= res <= wanted && res <= left && (res == 0 ==> left == 0))
  }

  class Player {
    /** The valid part of the parser's buffer, and what the file descriptor has left. */
    var buffer: seq<byte>
    var unread: seq<byte>
    /** A read has reported an error. */
    var failed: bool
    var hwparams: Params
    var pbrecCount: nat

    constructor (file: seq<byte>, hwparams: Params, pbrecCount: nat)
      ensures buffer == [] && unread == file && !failed && this.hwparams == hwparams && this.pbrecCount == pbrecCount
    {
      buffer, unread, failed, this.hwparams, this.pbrecCount := [], file, false, hwparams, pbrecCount;
    }

    /** Everything not yet dealt with. */
    ghost function Ahead(): seq<byte>
      reads this
    {
      buffer + unread
    }

    /** A short read does not show in the result; a failure does, by an error when it was the first read
        and by too few bytes otherwise. */
    method SafeRead(count: nat) returns (result: int, bytes: seq<byte>)
      requires !failed
      modifies this`unread, this`failed
      ensures bytes + unread == old(unread) && |bytes| <= count
      ensures result == if failed && bytes == [] then -1 else |bytes|
      ensures |bytes| < count <==> failed || |old(unread)| < count
    {
      result, bytes := 0, [];
      var left: nat := count;
      while left > 0
        invariant bytes + unread == old(unread) && |bytes| + left == count
        invariant !failed && result == |bytes|
        decreases left
      {
        assert CanReturn(-1, left, |unread|);
        var res: int :| CanReturn(res, left, |unread|);
        assert CanReturn(res, left, |unread|);
        if res == 0 { break; }
        if res < 0 {
          failed := true;
          if result == 0 { result := res; }
          return;
        }
        bytes, unread := bytes + unread[..res], unread[res..];
        left, result := left - res, result + res;
      }
    }

    /** Makes sure `n` bytes are in the buffer, or reports that they cannot be had. */
    method Require(n: nat) returns (ok: bool)
      requires !failed
      modifies this`buffer, this`unread, this`failed
      ensures Ahead() == old(Ahead())
      ensures ok <==> !failed && |Ahead()| >= n
      ensures ok ==> |buffer| >= n
    {
      if |buffer| >= n { return true; }
      var result, bytes := SafeRead(n - |buffer|);
      assert buffer + unread == old(buffer) + unread;
      ok := result == n - |buffer|;
      buffer := buffer + bytes;
      assert buffer + unread == old(buffer) + (bytes + unread);
    }

    /** Shifts the buffer down past its first n bytes. */
    method Discard(n: nat)
      requires n <= |buffer|
      modifies this`buffer
      ensures Ahead() == old(Ahead())[n..]
    {
      buffer := buffer[n..];
    }

    /** Passes over chunks until the wanted one; its length as declared. */
    method SeekChunk(id: seq<byte>, big: bool) returns (ok: bool, len: nat)
      requires |id| == 4 && !failed
      modifies this`buffer, this`unread, this`failed
      ensures failed ==> !ok
      ensures !failed ==> Seek(old(Ahead()), id, big) == if ok then Found(len, Ahead()) else EndOfInput
    {
      len := 0;
      while true
        invariant !failed && Seek(Ahead(), id, big) == Seek(old(Ahead()), id, big)
        decreases |Ahead()|
      {
        ok := Require(CHUNK_HEADER);
        if !ok { return; }
        ghost var s := Ahead();
        assert s[..4] == buffer[..4] && s[4..8] == buffer[4..8];
        var kind := buffer[..4];
        len := Int(buffer[4..8], big);
        Discard(CHUNK_HEADER);
        if kind == id { return; }
        ok := Require(Padded(len));
        if !ok { return; }
        Discard(Padded(len));
      }
    }

    /** Reads the format chunk and takes over what it says. */
    method ReadFormat(len: nat, big: bool) returns (ok: bool)
      requires !failed
      modifies this`buffer, this`unread, this`failed, this`hwparams
      ensures ok <==> !failed && |old(Ahead())| >= len && Interpret(old(Ahead())[..len], big).Some?
      ensures ok ==> Ahead() == old(Ahead())[len..] && hwparams == Interpret(old(Ahead())[..len], big).value
    {
      ok := Require(len);
      if !ok { return; }
      assert Ahead()[..len] == buffer[..len];
      var params := Interpret(buffer[..len], big);
      if params.None? { return false; }
      hwparams := params.value;
      Discard(len);
      return true;
    }

    method TestWavefile(loaded: seq<byte>) returns (status: Status)
      requires !failed
      modifies this
      ensures failed ==> status == Exited
      ensures |loaded| < HEADER ==> status == Rejected
      ensures !failed && |loaded| >= HEADER ==>
                match Play(loaded + old(unread), old(pbrecCount))
                case NotWave => status == Rejected
                case Exit => status == Exited
                case Playing(params, count, body) =>
                  status == Ready && hwparams == params && pbrecCount == count && buffer + unread == body
    {
      if |loaded| < HEADER { return Rejected; }
      ghost var file := loaded + unread;
      assert file[..4] == loaded[..4] && file[8..12] == loaded[8..12];
      if loaded[..4] != Riff() && loaded[..4] != Rifx() { return Rejected; }
      var big := loaded[..4] == Rifx();
      if loaded[8..12] != WaveType() { return Rejected; }
      buffer := loaded[HEADER..];
      assert Ahead() == file[12..];
      status := ParseChunks(big);
    }

    method ParseChunks(big: bool) returns (status: Status)
      requires !failed
      modifies this
      ensures failed ==> status == Exited
      ensures !failed ==>
              match PlayChunks(old(Ahead()), big, old(pbrecCount))
                case NotWave => false
                case Exit => status == Exited
                case Playing(params, count, body) =>
                  status == Ready && hwparams == params && pbrecCount == count && Ahead() == body
    {
      var ok, len := SeekChunk(FmtId(), big);
      if !ok { return Exited; }
      ok := ReadFormat(Padded(len), big);
      if !ok { return Exited; }
      ok, len := SeekChunk(DataId(), big);
      if !ok { return Exited; }
      if len < pbrecCount && len < COUNT_LIMIT {
        pbrecCount := len;
      }
      return Ready;
    }
  }

  // ---------------------------------------------------------------- the recorder

  lemma FourParts(a: seq<byte>, b: seq<byte>, c: seq<byte>, d: seq<byte>, e: seq<byte>, f: seq<byte>, g: seq<byte>,
                  h: seq<byte>)
    ensures (a + b + c) + (d + e) + f + (g + h) == a + b + c + d + e + f + g + h
  {
  }

  /** Writes the four parts of the header, or nothing for a format WAVE files cannot hold. */
  method BeginWave(p: Params, cnt: nat) returns (ok: bool, file: seq<byte>)
    ensures ok <==> Header(p, cnt).Some?
    ensures ok ==> file == Header(p, cnt).value
  {
    var count := if cnt == 0xffff_ffff_ffff_fffe then 0x7fff_ff00 else cnt;
    var bits: nat;
    match p.format {
      case U8 => bits := 8;
      case S16Le => bits := 16;
      case S32Le => bits := 32;
      case FloatLe => bits := 32;
      case S24Le => bits := 24;
      case S24In3Le => bits := 24;
      case _ => return false, [];
    }
    var frame := p.channels * Width(p.format) % 0x1_0000;
    var f := Le16(if p.format == FloatLe then IEEE_FLOAT else PCM) + Le16(p.channels) + Le32(p.rate)
      + Le32(frame * p.rate) + Le16(frame) + Le16(bits);
    var h := Riff() + Le32(count + HEADER + CHUNK_HEADER + FMT_BODY + CHUNK_HEADER - 8) + WaveType();
    var cf := FmtId() + Le32(16);
    var cd := DataId() + Le32(count);
    file := h + cf + f + cd;
    FourParts(Riff(), Le32(count + 36), WaveType(), FmtId(), Le32(16), f, DataId(), Le32(count));
    assert f == FmtChunk(p);
    ok := true;
  }
}
