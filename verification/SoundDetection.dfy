/** The segmenter as the source writes it: one buffer of fixed size, filled chunk by chunk. Every call
    performs exactly one step of `SoundSegments`; the buffer is never too small and the repair of an
    implausible length is never needed. */
module SoundDetection {
  import opened Octets
  import opened Buffers
  import opened SoundSegments

  const SOUND_BEGIN := 1
  const SOUND_FINAL := 3
  const SOUND_WAIT := 4

  class SoundStruct {
    const buffer: array<byte>
    var length: nat
    var block: nat
    var check: nat

    ghost predicate Valid()
      reads this, buffer
    {
      buffer.Length == CAPACITY && length <= CAPACITY && Roomy(View())
    }

    ghost function View(): Mic
      reads this, buffer
      requires length <= buffer.Length
    {
      Mic(check, block, buffer[..length])
    }

    /** Allocation. */
    constructor ()
      ensures Valid() && View() == Idle && fresh(buffer)
    {
      buffer := new byte[CAPACITY](_ => 0x4e);
      length, block, check := 0, 0, 0;
    }

    method Append(chunk: seq<byte>)
      requires length + |chunk| <= buffer.Length
      modifies this`length, buffer
      ensures length == old(length) + |chunk| && buffer[..length] == old(buffer[..length]) + chunk
    {
      ghost var d0 := buffer[..];
      Put(buffer, length, chunk);
      length := length + |chunk|;
      assert buffer[..length] == Splice(d0, length - |chunk|, chunk)[..length];
    }

    method Create(c: Chunk) returns (ret: nat)
      requires Valid() && Sized(c)
      modifies this, buffer
      ensures Valid() && View() == Feed(old(View()), c) && ret == Result(old(View()), c)
    {
      FeedRoomy(View(), c);
      ret := SILENT;
      if c.voiced {
        ret := GROWING;
        if check == 0 {
          length := 0;
          Append(c.bytes);
          check, block := 1, 1;
        } else {
          Append(c.bytes);
          block := block + 1;
          if block >= FULL {
            check := 3;
            ret := NewLine(c);
            return;
          }
          check := 2;
        }
      } else {
        ret := NewLine(c);
      }
    }

    /** Closes the segment, with the chunk at hand unless it is already in the buffer. */
    method NewLine(c: Chunk) returns (ret: nat)
      requires buffer.Length == CAPACITY && Sized(c)
      requires check in {1, 2} ==> 1 <= length + |c.bytes| <= CAPACITY && block >= 1
      requires check == 3 ==> 1 <= length <= CAPACITY && block >= 1
      requires check == 0 ==> length <= CAPACITY
      requires check <= 3
      modifies this, buffer
      ensures length <= CAPACITY && check == 0
      ensures old(check) == 0 ==> ret == SILENT && block == 0 && buffer[..length] == old(buffer[..length])
      ensures old(check) != 0 ==> ret == READY && block == old(block)
      ensures old(check) in {1, 2} ==> buffer[..length] == old(buffer[..length]) + c.bytes
      ensures old(check) == 3 ==> buffer[..length] == old(buffer[..length])
    {
      if check == 1 || check == 2 || check == 3 {
        if check > 0 && check < 3 { Append(c.bytes); }
        // The source would correct an implausible length here; there is never one to correct.
        assert !(length <= 0 || length > CAPACITY);
        check := 0;
        ret := GROWING;
        if block >= 1 { ret := READY; }
      } else {
        check, block := 0, 0;
        ret := SILENT;
      }
    }

    /** Starts over with what was collected dropped. */
    method Empty()
      requires Valid()
      modifies this, buffer
      ensures Valid() && View() == Idle
    {
      var i := 0;
      while i < length
        invariant i <= length <= buffer.Length && length == old(length)
      {
        buffer[i] := 0x70;
        i := i + 1;
      }
      length, block, check := 0, 0, 0;
      assert buffer[..length] == [];
    }
  }

  /** One call of the detector: the flag may ask for a new segmenter, when there need not be one yet, or
      for a fresh start; the result tells whether a segment is ready in the buffer. */
  method Detect(previous: SoundStruct?, flag: nat, c: Chunk) returns (s: SoundStruct, result: nat, flags: nat)
    requires flag != SOUND_BEGIN ==> previous != null && previous.Valid()
    requires Sized(c)
    modifies if flag == SOUND_BEGIN then {} else {previous, previous.buffer}
    ensures s.Valid() && (if flag == SOUND_BEGIN then fresh(s) && fresh(s.buffer) else s == previous)
    ensures var m := if flag == SOUND_BEGIN || flag == SOUND_FINAL then Idle else old(previous.View());
            s.View() == Feed(m, c) && result == (if Result(m, c) == READY then 1 else 0)
    ensures flags == SOUND_WAIT
  {
    if flag == SOUND_BEGIN {
      s := new SoundStruct();
    } else {
      s := previous;
      if flag == SOUND_FINAL {
        s.Empty();
      }
    }
    flags := SOUND_WAIT;
    var state := s.Create(c);
    result := 0;
    if state == READY {
      if s.block > 0 { result := 1; }
    }
  }
}
