/** Writing runs of bytes into a buffer. */
module Buffers {
  import opened Octets

  lemma SliceOfSlice<T>(s: seq<T>, a: nat, b: nat, c: nat, d: nat)
    requires a <= b <= |s| && c <= d <= b - a
    ensures s[a..b][c..d] == s[a + c..a + d]
  {
    forall k | 0 <= k < d - c
      ensures s[a..b][c..d][k] == s[a + c..a + d][k]
    {
      assert s[a..b][c + k] == s[a + c + k];
    }
  }

  /** A buffer with `bytes` written from position p on. */
  function Splice(d: seq<byte>, p: nat, bytes: seq<byte>): (r: seq<byte>)
    requires p + |bytes| <= |d|
    ensures |r| == |d|
  {
    seq(|d|, i requires 0 <= i < |d| => if p <= i < p + |bytes| then bytes[i - p] else d[i])
  }

  lemma SpliceNext(d: seq<byte>, p: nat, a: seq<byte>, b: seq<byte>)
    requires p + |a| + |b| <= |d|
    ensures Splice(Splice(d, p, a), p + |a|, b) == Splice(d, p, a + b)
  {
  }

  lemma SpliceNothing(d: seq<byte>, p: nat)
    requires p <= |d|
    ensures Splice(d, p, []) == d
  {
  }

  lemma SpliceAll(d: seq<byte>, bytes: seq<byte>)
    requires |bytes| == |d|
    ensures Splice(d, 0, bytes) == bytes
  {
  }

  lemma PrefixNext(d0: seq<byte>, p: nat, bytes: seq<byte>, k: nat)
    requires k < |bytes| && p + |bytes| <= |d0|
    ensures Splice(Splice(d0, p, bytes[..k]), p + k, [bytes[k]]) == Splice(d0, p, bytes[..k + 1])
  {
    SpliceNext(d0, p, bytes[..k], [bytes[k]]);
    assert bytes[..k] + [bytes[k]] == bytes[..k + 1];
  }

  lemma SpliceInside(d: seq<byte>, p: nat, bytes: seq<byte>, i: nat, j: nat)
    requires p + |bytes| <= |d| && i <= j <= |bytes|
    ensures Splice(d, p, bytes)[p + i..p + j] == bytes[i..j]
  {
    forall k | 0 <= k < j - i
      ensures Splice(d, p, bytes)[p + i..p + j][k] == bytes[i..j][k]
    {
      assert Splice(d, p, bytes)[p + i + k] == bytes[i + k];
    }
  }

  method PutByte(data: array<byte>, p: nat, b: byte)
    requires p < data.Length
    modifies data
    ensures data[..] == Splice(old(data[..]), p, [b])
  {
    data[p] := b;
  }

  method PutPair(data: array<byte>, p: nat, a: byte, b: byte)
    requires p + 2 <= data.Length
    modifies data
    ensures data[..] == Splice(old(data[..]), p, [a, b])
  {
    data[p] := a;
    data[p + 1] := b;
  }

  method Put(data: array<byte>, p: nat, bytes: seq<byte>)
    requires p + |bytes| <= data.Length
    modifies data
    ensures data[..] == Splice(old(data[..]), p, bytes)
  {
    var i := 0;
    ghost var d0 := data[..];
    SpliceNothing(d0, p);
    while i < |bytes|
      invariant i <= |bytes|
      invariant data[..] == Splice(d0, p, bytes[..i])
    {
      PrefixNext(d0, p, bytes, i);
      PutByte(data, p + i, bytes[i]);
      i := i + 1;
    }
    assert bytes[..i] == bytes;
  }
}
