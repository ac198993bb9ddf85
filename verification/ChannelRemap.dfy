/** The channel map as the player sets it up and applies it: loops over channels and over the bytes of
    every frame. */
module ChannelRemap {
  import opened Octets
  import opened Options
  import opened Buffers
  import opened ChannelMap
  import opened ChannelMapGuards

  // ---------------------------------------------------------------- frames of bytes

  lemma SampleInFrame(size: nat, k: nat, n: nat)
    requires k < n
    ensures 0 <= size * k && size * k + size <= size * n
  {
    assert size * n == size * k + size * (n - k);
    assert size * (n - k) == size + size * (n - k - 1);
  }

  /** The samples of a frame of n channels. */
  function Samples(frame: seq<byte>, size: nat, n: nat): (r: seq<seq<byte>>)
    requires |frame| == size * n
    ensures |r| == n && forall k :: 0 <= k < n ==> |r[k]| == size
  {
    seq(n, k requires 0 <= k < n => SampleAt(frame, size, n, k))
  }

  function SampleAt(frame: seq<byte>, size: nat, n: nat, k: nat): (r: seq<byte>)
    requires |frame| == size * n && k < n
    ensures |r| == size
  {
    SampleInFrame(size, k, n);
    frame[size * k..size * k + size]
  }

  function Join(samples: seq<seq<byte>>): seq<byte> {
    if samples == [] then [] else Join(samples[..|samples| - 1]) + samples[|samples| - 1]
  }

  predicate AllSized(samples: seq<seq<byte>>, size: nat) {
    forall k :: 0 <= k < |samples| ==> |samples[k]| == size
  }

  lemma {:induction false} JoinSize(samples: seq<seq<byte>>, size: nat)
    requires AllSized(samples, size)
    ensures |Join(samples)| == size * |samples|
  {
    if samples != [] {
      JoinSize(samples[..|samples| - 1], size);
      assert size * |samples| == size * (|samples| - 1) + size;
    }
  }

  lemma {:induction false} JoinAt(samples: seq<seq<byte>>, size: nat, k: nat)
    requires AllSized(samples, size) && k < |samples|
    ensures |Join(samples)| == size * |samples|
    ensures SampleAt(Join(samples), size, |samples|, k) == samples[k]
  {
    var last := |samples| - 1;
    var init := samples[..last];
    JoinSize(samples, size);
    JoinSize(init, size);
    SampleInFrame(size, k, |samples|);
    if k < last {
      JoinAt(init, size, k);
      SampleInFrame(size, k, last);
      assert Join(samples)[size * k..size * k + size] == Join(init)[size * k..size * k + size];
    }
  }

  /** Cutting a joined frame gives its samples back. */
  lemma SamplesOfJoin(samples: seq<seq<byte>>, size: nat)
    requires AllSized(samples, size)
    ensures |Join(samples)| == size * |samples|
    ensures Samples(Join(samples), size, |samples|) == samples
  {
    JoinSize(samples, size);
    forall k | 0 <= k < |samples|
      ensures Samples(Join(samples), size, |samples|)[k] == samples[k]
    {
      JoinAt(samples, size, k);
    }
  }

  lemma {:induction false} JoinOfSamples(frame: seq<byte>, size: nat, n: nat)
    requires |frame| == size * n
    ensures Join(Samples(frame, size, n)) == frame
  {
    if n == 0 {
      assert frame == [];
    } else {
      var init := frame[..size * (n - 1)];
      assert size * n == size * (n - 1) + size;
      JoinOfSamples(init, size, n - 1);
      InitSamples(frame, size, n);
      assert frame == init + frame[size * (n - 1)..];
    }
  }

  lemma InitSamples(frame: seq<byte>, size: nat, n: nat)
    requires n > 0 && |frame| == size * n && size * n == size * (n - 1) + size
    ensures var samples := Samples(frame, size, n);
            && samples[..n - 1] == Samples(frame[..size * (n - 1)], size, n - 1)
            && samples[n - 1] == frame[size * (n - 1)..]
  {
    var samples, init := Samples(frame, size, n), frame[..size * (n - 1)];
    forall k | 0 <= k < n - 1
      ensures samples[k] == Samples(init, size, n - 1)[k]
    {
      SampleInFrame(size, k, n - 1);
      assert frame[size * k..size * k + size] == init[size * k..size * k + size];
    }
  }

  predicate MapFor(m: seq<nat>, n: nat) {
    |m| == n && forall i :: 0 <= i < |m| ==> m[i] < n
  }

  function RemapFrame(frame: seq<byte>, size: nat, m: seq<nat>): seq<byte>
    requires |frame| == size * |m| && MapFor(m, |m|)
  {
    Join(Rearrange(Samples(frame, size, |m|), m))
  }

  predicate Frames(frames: seq<seq<byte>>, size: nat, m: seq<nat>) {
    AllSized(frames, size * |m|)
  }

  /** All frames, one by one. */
  function RemapFrames(frames: seq<seq<byte>>, size: nat, m: seq<nat>): (r: seq<seq<byte>>)
    requires Frames(frames, size, m) && MapFor(m, |m|)
    ensures |r| == |frames| && forall i :: 0 <= i < |frames| ==> r[i] == RemapFrame(frames[i], size, m)
  {
    seq(|frames|, i requires 0 <= i < |frames| => RemapFrame(frames[i], size, m))
  }

  /** A buffer of `count` frames of `step` bytes. */
  function Remap(data: seq<byte>, count: nat, size: nat, m: seq<nat>, step: nat): seq<byte>
    requires MapFor(m, |m|) && step == size * |m| && |data| == step * count
  {
    Join(RemapFrames(Samples(data, step, count), size, m))
  }

  /** On bytes as on samples: rearranging a frame is undone by the inverse map. */
  lemma RemapFrameBack(frame: seq<byte>, size: nat, m: seq<nat>)
    requires Permutation(m) && |frame| == size * |m|
    ensures MapFor(Inverse(m), |m|) && |RemapFrame(frame, size, m)| == |frame|
    ensures RemapFrame(RemapFrame(frame, size, m), size, Inverse(m)) == frame
  {
    var samples := Samples(frame, size, |m|);
    RearrangeBack(samples, m);
    SamplesOfJoin(Rearrange(samples, m), size);
    JoinOfSamples(frame, size, |m|);
  }

  lemma FrameSize(frame: seq<byte>, size: nat, m: seq<nat>)
    requires |frame| == size * |m| && MapFor(m, |m|)
    ensures |RemapFrame(frame, size, m)| == |frame|
  {
    JoinSize(Rearrange(Samples(frame, size, |m|), m), size);
  }

  lemma FramesSize(frames: seq<seq<byte>>, size: nat, m: seq<nat>)
    requires Frames(frames, size, m) && MapFor(m, |m|)
    ensures Frames(RemapFrames(frames, size, m), size, m)
  {
    forall i | 0 <= i < |frames|
      ensures |RemapFrames(frames, size, m)[i]| == size * |m|
    {
      FrameSize(frames[i], size, m);
    }
  }

  lemma FramesBack(frames: seq<seq<byte>>, size: nat, m: seq<nat>)
    requires Frames(frames, size, m) && Permutation(m)
    ensures MapFor(Inverse(m), |m|) && Frames(RemapFrames(frames, size, m), size, Inverse(m))
    ensures RemapFrames(RemapFrames(frames, size, m), size, Inverse(m)) == frames
  {
    InverseUndoes(m);
    FramesSize(frames, size, m);
    forall i | 0 <= i < |frames|
      ensures RemapFrames(RemapFrames(frames, size, m), size, Inverse(m))[i] == frames[i]
    {
      RemapFrameBack(frames[i], size, m);
    }
  }

  /** A whole buffer rearranged by a permutation comes back under the inverse map. */
  lemma RemapBack(data: seq<byte>, count: nat, size: nat, m: seq<nat>, step: nat)
    requires Permutation(m) && step == size * |m| && |data| == step * count
    ensures MapFor(Inverse(m), |m|) && |Remap(data, count, size, m, step)| == |data|
    ensures Remap(Remap(data, count, size, m, step), count, size, Inverse(m), step) == data
  {
    var frames := Samples(data, step, count);
    FramesBack(frames, size, m);
    FramesSize(frames, size, m);
    SamplesOfJoin(RemapFrames(frames, size, m), step);
    JoinOfSamples(data, step, count);
  }

  // ---------------------------------------------------------------- as the source does it

  datatype Setup = Unneeded | Failed | Mapped(places: seq<nat>)

  /** The driver's map is no longer than the one asked for. */
  predicate DriverFits(request: Option<seq<nat>>, channels: nat, hw: Option<seq<nat>>) {
    request.Some? && hw.Some? && |request.value| == channels ==> |hw.value| <= channels
  }

  /** What setting up comes to: nothing to do without a request, when the driver takes it as it is, or
      when the driver's own map cannot be had or is the same. Requested channels beyond the driver's
      keep the zero they were cleared to. */
  function SetupSpec(request: Option<seq<nat>>, channels: nat, driverTakesIt: bool, hw: Option<seq<nat>>): Setup
    requires DriverFits(request, channels, hw)
  {
    if request.None? then Unneeded
    else if |request.value| != channels then Failed
    else if driverTakesIt || hw.None? || hw.value == request.value then Unneeded
    else
      var n := |hw.value|;
      var m := HwMap(request.value[..n], hw.value);
      if m.None? then Failed else Mapped(m.value + seq(channels - n, _ => 0))
  }

  /** When setting up fails, when it has nothing to do, and when it finds a map: it fails if the request is for
      another number of channels, or if some channel that has to move finds no place among the driver's. */
  lemma SetupOutcome(request: Option<seq<nat>>, channels: nat, driverTakesIt: bool, hw: Option<seq<nat>>)
    requires DriverFits(request, channels, hw)
    ensures var setup := SetupSpec(request, channels, driverTakesIt, hw);
            && (request.None? ==> setup == Unneeded)
            && (request.Some? && |request.value| != channels ==> setup == Failed)
            && (request.Some? && |request.value| == channels ==>
                  if driverTakesIt || hw.None? || hw.value == request.value then setup == Unneeded
                  else
                    var pos := request.value[..|hw.value|];
                    && (setup == Failed <==> exists ch :: 0 <= ch < |pos| && !FindsPlace(pos, hw.value, ch))
                    && (setup.Mapped? || setup == Failed) && (setup.Mapped? ==> |setup.places| == channels))
  {
    if request.Some? && hw.Some? && |request.value| == channels {
      var pos := request.value[..|hw.value|];
      AnyMapFoundIff(pos, hw.value);
      if HwMap(pos, hw.value).Some? { MapFits(pos, hw.value); }
    }
  }

  /** Each of the driver's channels is sent to a place of its position, and the rest to the first. */
  lemma SetupPlaces(pos: seq<nat>, hw: seq<nat>)
    requires |hw| <= |pos| && SetupSpec(Some(pos), |pos|, false, Some(hw)).Mapped?
    ensures var places := SetupSpec(Some(pos), |pos|, false, Some(hw)).places;
            && |places| == |pos|
            && (forall ch :: 0 <= ch < |hw| ==> places[ch] < |hw| && hw[places[ch]] == pos[ch])
            && (forall ch :: |hw| <= ch < |pos| ==> places[ch] == 0)
  {
    MapFits(pos[..|hw|], hw);
  }

  /** A map found for as many channels as were asked for is undone on every buffer under the
      condition on the two position lists that makes it a permutation. */
  lemma SetupUndone(pos: seq<nat>, hw: seq<nat>, data: seq<byte>, count: nat, size: nat, step: nat)
    requires |pos| == |hw| && SetupSpec(Some(pos), |pos|, false, Some(hw)).Mapped?
    requires forall a :: 0 <= a < |pos| ==> EnoughBefore(pos, hw, a)
    requires step == size * |pos| && |data| == step * count
    ensures var m := SetupSpec(Some(pos), |pos|, false, Some(hw)).places;
            && Permutation(m) && |m| == |pos| && MapFor(Inverse(m), |m|)
            && |Remap(data, count, size, m, step)| == |data|
            && Remap(Remap(data, count, size, m, step), count, size, Inverse(m), step) == data
  {
    assert pos[..|hw|] == pos;
    MapPermutesIff(pos, hw);
    var m := HwMap(pos, hw).value;
    assert m + [] == m;
    RemapBack(data, count, size, m, step);
  }

  method SetupChmap(request: Option<seq<nat>>, channels: nat, driverTakesIt: bool, hw: Option<seq<nat>>)
    returns (setup: Setup)
    requires DriverFits(request, channels, hw)
    ensures setup == SetupSpec(request, channels, driverTakesIt, hw)
  {
    if request.None? { return Unneeded; }
    var chmap := request.value;
    if |chmap| != channels { return Failed; }
    if driverTakesIt || hw.None? || hw.value == chmap { return Unneeded; }
    var hwChannels := |hw.value|;
    ghost var pos := chmap[..hwChannels];
    var mapped := new bool[hwChannels](_ => false);
    var hwMap := new nat[channels](_ => 0);
    var ch := 0;
    assert mapped[..] == seq(hwChannels, _ => false);
    while ch < hwChannels
      invariant ch <= hwChannels
      invariant Match(pos, hw.value, mapped[..], hwMap[..ch]) == HwMap(pos, hw.value)
      invariant forall k :: ch <= k < channels ==> hwMap[k] == 0
    {
      ghost var m := hwMap[..ch];
      if chmap[ch] == hw.value[ch] {
        mapped[ch] := true;
        hwMap[ch] := ch;
        assert hwMap[..ch + 1] == m + [ch];
        ch := ch + 1;
        continue;
      }
      var i := 0;
      while i < hwChannels && (mapped[i] || chmap[ch] != hw.value[i])
        invariant i <= hwChannels
        invariant FirstFree(hw.value, mapped[..], pos[ch], 0) == FirstFree(hw.value, mapped[..], pos[ch], i)
      {
        i := i + 1;
      }
      if i >= hwChannels { return Failed; }
      mapped[i] := true;
      hwMap[ch] := i;
      assert hwMap[..ch + 1] == m + [i];
      ch := ch + 1;
    }
    assert hwMap[..] == hwMap[..ch] + seq(channels - ch, _ => 0);
    return Mapped(hwMap[..]);
  }

  /** Copies one frame's samples, in the order of the map, to the end of what has been written. */
  method RemapOne(frame: seq<byte>, size: nat, m: seq<nat>, tmp: array<byte>, dst: nat)
    requires |frame| == size * |m| && MapFor(m, |m|) && dst + |frame| <= tmp.Length
    modifies tmp
    ensures |RemapFrame(frame, size, m)| == |frame|
    ensures tmp[..] == Splice(old(tmp[..]), dst, RemapFrame(frame, size, m))
  {
    ghost var d0, samples := tmp[..], Rearrange(Samples(frame, size, |m|), m);
    JoinSize(samples, size);
    var ch, p := 0, dst;
    SpliceNothing(d0, dst);
    while ch < |m|
      invariant ch <= |m| && p == dst + size * ch && size * ch <= |frame|
      invariant |Join(samples[..ch])| == size * ch
      invariant tmp[..] == Splice(d0, dst, Join(samples[..ch]))
    {
      SampleInFrame(size, m[ch], |m|);
      SampleInFrame(size, ch, |m|);
      var src := size * m[ch];
      NextSample(samples, size, ch);
      SpliceNext(d0, dst, Join(samples[..ch]), samples[ch]);
      Put(tmp, p, frame[src..src + size]);
      ch, p := ch + 1, p + size;
    }
    assert samples[..ch] == samples;
  }

  lemma NextSample(samples: seq<seq<byte>>, size: nat, ch: nat)
    requires AllSized(samples, size) && ch < |samples|
    ensures Join(samples[..ch + 1]) == Join(samples[..ch]) + samples[ch]
    ensures |Join(samples[..ch + 1])| == size * (ch + 1) == size * ch + size
  {
    assert samples[..ch + 1][..ch] == samples[..ch];
    JoinSize(samples[..ch + 1], size);
  }

  /** One more part of equal size written behind those before it. */
  lemma NextPart(d0: seq<byte>, parts: seq<seq<byte>>, size: nat, i: nat)
    requires AllSized(parts, size) && i < |parts| && |d0| == size * |parts|
    ensures |Join(parts[..i])| == size * i && size * i + size <= |d0|
    ensures |Join(parts[..i + 1])| == size * (i + 1) == size * i + size
    ensures Splice(Splice(d0, 0, Join(parts[..i])), size * i, parts[i]) == Splice(d0, 0, Join(parts[..i + 1]))
  {
    SampleInFrame(size, i, |parts|);
    JoinSize(parts[..i], size);
    NextSample(parts, size, i);
    SpliceNext(d0, 0, Join(parts[..i]), parts[i]);
  }

  /** The whole buffer, frame by frame, into a new one. */
  method RemapData(data: seq<byte>, count: nat, size: nat, m: seq<nat>) returns (tmp: array<byte>)
    requires MapFor(m, |m|) && |data| == size * |m| * count
    ensures fresh(tmp) && tmp[..] == Remap(data, count, size, m, size * |m|)
  {
    var step := size * |m|;
    tmp := new byte[|data|];
    ghost var d0, frames := tmp[..], Samples(data, step, count);
    ghost var out := RemapFrames(frames, size, m);
    FramesSize(frames, size, m);
    var i, src := 0, 0;
    SpliceNothing(d0, 0);
    while i < count
      invariant i <= count && src == step * i && |Join(out[..i])| == src <= |d0|
      invariant tmp[..] == Splice(d0, 0, Join(out[..i]))
    {
      NextPart(d0, out, step, i);
      assert data[src..src + step] == frames[i];
      RemapOne(data[src..src + step], size, m, tmp, src);
      i, src := i + 1, src + step;
    }
    assert out[..i] == out;
    JoinSize(out, step);
    SpliceAll(d0, Join(out));
  }
}
