/** Bytes and the little-endian numbers laid out in them. */
module Octets {
  import opened Arithmetic

  type byte = x: int | 0 <= x < 256

  /** A Bluetooth device address, lowest byte first. */
  type Address = s: seq<byte> | |s| == 6 witness seq(6, _ => 0)

  function Le16(n: nat): (r: seq<byte>)
    ensures |r| == 2
  {
    [n % 256, n / 256 % 256]
  }

  function Le24(n: nat): (r: seq<byte>)
    ensures |r| == 3
  {
    [n % 256, n / 256 % 256, n / 65536 % 256]
  }

  function Le32(n: nat): (r: seq<byte>)
    ensures |r| == 4
  {
    Le16(n % 65536) + Le16(n / 65536 % 65536)
  }

  function Value16(s: seq<byte>): (r: nat)
    requires |s| >= 2
    ensures r < 0x1_0000
  {
    var low: int, high: int := s[0], s[1];
    low + 256 * high
  }

  function Value24(s: seq<byte>): (r: nat)
    requires |s| >= 3
    ensures r < 0x100_0000
  {
    var low: int, middle: int, high: int := s[0], s[1], s[2];
    low + 256 * middle + 65536 * high
  }

  function Value32(s: seq<byte>): (r: nat)
    requires |s| >= 4
    ensures r < 0x1_0000_0000
  {
    Value16(s) + 65536 * Value16(s[2..])
  }

  lemma LeValue16(n: nat)
    ensures Value16(Le16(n)) == n % 0x1_0000
  {
    ResidueUnique(n, n / 256 / 256, n % 256 + 256 * (n / 256 % 256), 0x1_0000);
  }

  /** Reading back what was laid out gives the number as far as the width reaches. */
  lemma LeValue24(n: nat)
    ensures Value24(Le24(n)) == n % 0x100_0000
  {
    LeValue16(n);
    var high := n / 65536;
    ResidueUnique(n, high / 256, n % 65536 + 65536 * (high % 256), 0x100_0000);
  }

  lemma LeValue32(n: nat)
    ensures Value32(Le32(n)) == n % 0x1_0000_0000
  {
    var high := n / 65536;
    LeValue16(n % 65536);
    LeValue16(high % 65536);
    assert Le32(n)[2..] == Le16(high % 65536);
    ResidueUnique(n, high / 65536, n % 65536 + 65536 * (high % 65536), 0x1_0000_0000);
  }

  /** The lowest byte comes first. */
  lemma LowestFirst()
    ensures Le16(0x1234) == [0x34, 0x12] && Value16([0x34, 0x12]) == 0x1234
    ensures Le24(0x123456) == [0x56, 0x34, 0x12] && Value24([0x56, 0x34, 0x12]) == 0x123456
    ensures Le32(0x12345678) == [0x78, 0x56, 0x34, 0x12] && Value32([0x78, 0x56, 0x34, 0x12]) == 0x12345678
  {
    assert [0x78, 0x56, 0x34, 0x12][2..] == [0x34, 0x12];
  }

  lemma LeHead(n: nat, rest: seq<byte>)
    requires n < 0x1_0000
    ensures Value16(Le16(n) + rest) == n
  {
    LeValue16(n);
  }

  lemma ValueLe(s: seq<byte>)
    requires |s| == 2
    ensures Le16(Value16(s)) == s
  {
  }

  function Reverse<T>(s: seq<T>): (r: seq<T>)
    ensures |r| == |s| && forall k :: 0 <= k < |s| ==> r[k] == s[|s| - 1 - k]
  {
    seq(|s|, k requires 0 <= k < |s| => s[|s| - 1 - k])
  }

  lemma ReverseTwice<T>(s: seq<T>)
    ensures Reverse(Reverse(s)) == s
  {
  }

  lemma ReverseInjective<T>(a: seq<T>, b: seq<T>)
    ensures Reverse(a) == Reverse(b) <==> a == b
  {
    ReverseTwice(a);
    ReverseTwice(b);
  }
}
