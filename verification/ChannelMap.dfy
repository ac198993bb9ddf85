/** Channel maps: matching the requested speaker positions with the hardware's, and rearranging the
    samples of every frame accordingly. */
module ChannelMap {
  import opened Octets
  import opened Options

  // ---------------------------------------------------------------- building the map

  /** The first free hardware channel at this position, or the number of channels. */
  function FirstFree(hw: seq<nat>, mapped: seq<bool>, p: nat, from: nat): (i: nat)
    requires |mapped| == |hw| && from <= |hw|
    ensures from <= i <= |hw|
    ensures i < |hw| ==> !mapped[i] && hw[i] == p
    ensures forall j :: from <= j < i ==> mapped[j] || hw[j] != p
    decreases |hw| - from
  {
    if from == |hw| || (!mapped[from] && hw[from] == p) then from else FirstFree(hw, mapped, p, from + 1)
  }

  /** Channel by channel: the same place if it fits, whether free or not, else the first free one. */
  function Match(pos: seq<nat>, hw: seq<nat>, mapped: seq<bool>, chosen: seq<nat>): Option<seq<nat>>
    requires |pos| == |hw| == |mapped| && |chosen| <= |pos|
    decreases |pos| - |chosen|
  {
    var ch := |chosen|;
    if ch == |pos| then Some(chosen)
    else if pos[ch] == hw[ch] then Match(pos, hw, mapped[ch := true], chosen + [ch])
    else
      var i := FirstFree(hw, mapped, pos[ch], 0);
      if i == |hw| then None else Match(pos, hw, mapped[i := true], chosen + [i])
  }

  function HwMap(pos: seq<nat>, hw: seq<nat>): Option<seq<nat>>
    requires |pos| == |hw|
  {
    Match(pos, hw, seq(|hw|, _ => false), [])
  }

  predicate Distinct(s: seq<nat>) {
    forall i, j :: 0 <= i < j < |s| ==> s[i] != s[j]
  }

  ghost predicate InRange(m: seq<nat>, n: nat) {
    forall k :: 0 <= k < |m| ==> m[k] < n
  }

  /** A map sends every requested channel to a hardware channel at the same position. */
  ghost predicate Fits(pos: seq<nat>, hw: seq<nat>, m: seq<nat>) {
    |m| <= |pos| && InRange(m, |hw|) && forall k :: 0 <= k < |m| ==> hw[m[k]] == pos[k]
  }

  /** Only channels already in the map are marked. */
  ghost predicate Marked(mapped: seq<bool>, m: seq<nat>) {
    forall i :: 0 <= i < |mapped| ==> (mapped[i] <==> i in m)
  }

  lemma MarkOne(mapped: seq<bool>, m: seq<nat>, i: nat)
    requires Marked(mapped, m) && i < |mapped|
    ensures Marked(mapped[i := true], m + [i])
  {
    forall j | 0 <= j < |mapped|
      ensures mapped[i := true][j] <==> j in m + [i]
    {
    }
  }

  lemma {:induction false} MatchFits(pos: seq<nat>, hw: seq<nat>, mapped: seq<bool>, m: seq<nat>)
    requires |pos| == |hw| == |mapped| && Fits(pos, hw, m)
    ensures var r := Match(pos, hw, mapped, m);
            r.Some? ==> |r.value| == |pos| && Fits(pos, hw, r.value)
    decreases |pos| - |m|
  {
    var ch := |m|;
    if ch < |pos| {
      if pos[ch] == hw[ch] {
        MatchFits(pos, hw, mapped[ch := true], m + [ch]);
      } else {
        var i := FirstFree(hw, mapped, pos[ch], 0);
        if i < |hw| { MatchFits(pos, hw, mapped[i := true], m + [i]); }
      }
    }
  }

  /** Whenever a map is found, hardware channel m[ch] has the position requested for channel ch. */
  lemma MapFits(pos: seq<nat>, hw: seq<nat>)
    requires |pos| == |hw| && HwMap(pos, hw).Some?
    ensures |HwMap(pos, hw).value| == |pos| && Fits(pos, hw, HwMap(pos, hw).value)
  {
    MatchFits(pos, hw, seq(|hw|, _ => false), []);
  }

  lemma {:induction false} MatchDistinct(pos: seq<nat>, hw: seq<nat>, mapped: seq<bool>, m: seq<nat>)
    requires |pos| == |hw| == |mapped| && Fits(pos, hw, m) && Distinct(pos) && Marked(mapped, m)
    ensures Match(pos, hw, mapped, m).Some? <==> forall k :: |m| <= k < |pos| ==> pos[k] in hw
    decreases |pos| - |m|
  {
    var ch := |m|;
    if ch < |pos| {
      if pos[ch] == hw[ch] {
        MarkOne(mapped, m, ch);
        MatchDistinct(pos, hw, mapped[ch := true], m + [ch]);
      } else {
        var i := FirstFree(hw, mapped, pos[ch], 0);
        if i < |hw| {
          MarkOne(mapped, m, i);
          MatchDistinct(pos, hw, mapped[i := true], m + [i]);
        } else {
          forall j | 0 <= j < |hw|
            ensures hw[j] != pos[ch]
          {
            if mapped[j] {
              var k :| 0 <= k < |m| && m[k] == j;
              assert hw[m[k]] == pos[k] != pos[ch];
            }
          }
        }
      }
    }
  }

  /** With distinct positions requested, a map is found exactly when the hardware has them all. */
  lemma MapFoundIff(pos: seq<nat>, hw: seq<nat>)
    requires |pos| == |hw| && Distinct(pos)
    ensures HwMap(pos, hw).Some? <==> forall p :: p in pos ==> p in hw
  {
    MatchDistinct(pos, hw, seq(|hw|, _ => false), []);
    if forall k :: 0 <= k < |pos| ==> pos[k] in hw {
      assert forall p :: p in pos ==> p in hw;
    }
  }

  predicate Permutation(m: seq<nat>) {
    Distinct(m) && forall i :: 0 <= i < |m| ==> m[i] < |m|
  }

  // ---------------------------------------------------------------- when the map is a permutation

  /** What distinguishes the map found from others that fit: a channel that fits its own place takes
      it; any other takes the first place of its position not taken by the channels before it. */
  ghost predicate Greedy(pos: seq<nat>, hw: seq<nat>, m: seq<nat>)
    requires |pos| == |hw|
  {
    && Fits(pos, hw, m)
    && (forall ch :: 0 <= ch < |m| && pos[ch] == hw[ch] ==> m[ch] == ch)
    && (forall ch :: 0 <= ch < |m| && pos[ch] != hw[ch] ==> TakesFirst(pos, hw, m, ch))
  }

  ghost predicate TakesFirst(pos: seq<nat>, hw: seq<nat>, m: seq<nat>, ch: nat)
    requires |pos| == |hw| && ch < |m| <= |pos| && m[ch] < |hw|
  {
    m[ch] !in m[..ch] && forall j :: 0 <= j < m[ch] && hw[j] == pos[ch] ==> j in m[..ch]
  }

  lemma GreedyNext(pos: seq<nat>, hw: seq<nat>, m: seq<nat>, i: nat)
    requires |pos| == |hw| && Greedy(pos, hw, m) && |m| < |pos| && i < |hw| && hw[i] == pos[|m|]
    requires pos[|m|] == hw[|m|] ==> i == |m|
    requires pos[|m|] != hw[|m|] ==> i !in m && forall j :: 0 <= j < i && hw[j] == pos[|m|] ==> j in m
    ensures Greedy(pos, hw, m + [i])
  {
    var m' := m + [i];
    assert m'[..|m|] == m;
    forall ch | 0 <= ch < |m'| && pos[ch] != hw[ch]
      ensures TakesFirst(pos, hw, m', ch)
    {
      if ch < |m| {
        assert TakesFirst(pos, hw, m, ch);
        assert m'[..ch] == m[..ch];
      }
    }
  }

  lemma {:induction false} MatchGreedy(pos: seq<nat>, hw: seq<nat>, mapped: seq<bool>, m: seq<nat>)
    requires |pos| == |hw| == |mapped| && Greedy(pos, hw, m) && Marked(mapped, m)
    ensures var r := Match(pos, hw, mapped, m);
            r.Some? ==> |r.value| == |pos| && Greedy(pos, hw, r.value)
    decreases |pos| - |m|
  {
    var ch := |m|;
    if ch < |pos| {
      var i := if pos[ch] == hw[ch] then ch else FirstFree(hw, mapped, pos[ch], 0);
      if i < |hw| {
        GreedyNext(pos, hw, m, i);
        MarkOne(mapped, m, i);
        MatchGreedy(pos, hw, mapped[i := true], m + [i]);
      }
    }
  }

  lemma MapGreedy(pos: seq<nat>, hw: seq<nat>)
    requires |pos| == |hw| && HwMap(pos, hw).Some?
    ensures |HwMap(pos, hw).value| == |pos| && Greedy(pos, hw, HwMap(pos, hw).value)
  {
    MatchGreedy(pos, hw, seq(|hw|, _ => false), []);
  }

  /** The channel moves to the place of one that is asked to be at the same position. */
  predicate Intrudes(pos: seq<nat>, m: seq<nat>, ch: nat)
    requires |m| == |pos| && ch < |m|
  {
    m[ch] < |pos| && m[ch] != ch && pos[m[ch]] == pos[ch]
  }

  predicate KeepsOff(pos: seq<nat>, m: seq<nat>, n: nat)
    requires n <= |m| == |pos|
  {
    forall ch :: 0 <= ch < n ==> !Intrudes(pos, m, ch)
  }

  /** Two channels end up in one place exactly when one that moved took the place of one that fits. */
  lemma PermutationIffKeepsOff(pos: seq<nat>, hw: seq<nat>, m: seq<nat>)
    requires |pos| == |hw| == |m| && Greedy(pos, hw, m)
    ensures Permutation(m) <==> KeepsOff(pos, m, |m|)
  {
    if KeepsOff(pos, m, |m|) {
      forall a, b | 0 <= a < b < |m|
        ensures m[a] != m[b]
      {
        assert !Intrudes(pos, m, a);
        if pos[b] != hw[b] {
          assert TakesFirst(pos, hw, m, b);
          assert m[..b][a] == m[a];
        } else {
          assert hw[m[a]] == pos[a];
        }
      }
    }
    if Permutation(m) {
      forall ch | 0 <= ch < |m|
        ensures !Intrudes(pos, m, ch)
      {
        if m[ch] != ch { assert m[m[ch]] != m[ch]; }
      }
    }
  }

  // ---------------------------------------------------------------- counting the places before one

  /** The channels before a that want position p and have to move. */
  function Movers(pos: seq<nat>, hw: seq<nat>, p: nat, a: nat): set<nat>
    requires |pos| == |hw| && a <= |pos|
  {
    set c | 0 <= c < a && pos[c] == p && hw[c] != p
  }

  /** The places before a that offer position p to channels that have to move. */
  function Vacant(pos: seq<nat>, hw: seq<nat>, p: nat, a: nat): set<nat>
    requires |pos| == |hw| && a <= |pos|
  {
    Movers(hw, pos, p, a)
  }

  lemma MoversNext(pos: seq<nat>, hw: seq<nat>, p: nat, a: nat)
    requires |pos| == |hw| && 0 < a <= |pos|
    ensures |Movers(pos, hw, p, a)| ==
            |Movers(pos, hw, p, a - 1)| + (if pos[a - 1] == p && hw[a - 1] != p then 1 else 0)
  {
    var before := Movers(pos, hw, p, a - 1);
    assert Movers(pos, hw, p, a) == if pos[a - 1] == p && hw[a - 1] != p then before + {a - 1} else before;
  }

  lemma OccurrencesNext(s: seq<nat>, p: nat, a: nat)
    requires 0 < a <= |s|
    ensures multiset(s[..a])[p] == multiset(s[..a - 1])[p] + (if s[a - 1] == p then 1 else 0)
  {
    assert s[..a] == s[..a - 1] + [s[a - 1]];
  }

  lemma {:induction false} CountsDiffer(pos: seq<nat>, hw: seq<nat>, p: nat, a: nat)
    requires |pos| == |hw| && a <= |pos|
    ensures multiset(pos[..a])[p] + |Vacant(pos, hw, p, a)| == multiset(hw[..a])[p] + |Movers(pos, hw, p, a)|
  {
    if a == 0 {
      assert Movers(pos, hw, p, 0) == {} && Vacant(pos, hw, p, 0) == {};
    } else {
      CountsDiffer(pos, hw, p, a - 1);
      MoversNext(pos, hw, p, a);
      MoversNext(hw, pos, p, a);
      OccurrencesNext(pos, p, a);
      OccurrencesNext(hw, p, a);
    }
  }

  function Image(m: seq<nat>, cs: set<nat>): (r: set<nat>)
    requires forall c :: c in cs ==> c < |m|
    ensures forall i :: i in r <==> exists c :: c in cs && m[c] == i
  {
    set c | c in cs :: m[c]
  }

  lemma {:induction false} ImageSize(m: seq<nat>, cs: set<nat>)
    requires forall c :: c in cs ==> c < |m|
    ensures |Image(m, cs)| <= |cs|
    ensures (forall a, b :: a in cs && b in cs && a != b ==> m[a] != m[b]) ==> |Image(m, cs)| == |cs|
    decreases cs
  {
    if cs != {} {
      var c :| c in cs;
      var rest := cs - {c};
      ImageSize(m, rest);
      assert Image(m, cs) == Image(m, rest) + {m[c]};
    }
  }

  /** Where place a is kept by the channel that fits it, the channels before it do not ask for its
      position more often than the places before it offer it. */
  predicate EnoughBefore(pos: seq<nat>, hw: seq<nat>, a: nat)
    requires |pos| == |hw| && a < |pos|
  {
    pos[a] == hw[a] ==> multiset(pos[..a])[pos[a]] <= multiset(hw[..a])[pos[a]]
  }

  /** If no mover takes a place that is kept, those before a kept place all find theirs before it. */
  lemma MoversFitBefore(pos: seq<nat>, hw: seq<nat>, m: seq<nat>, a: nat)
    requires |pos| == |hw| == |m| && Greedy(pos, hw, m) && KeepsOff(pos, m, |m|) && a < |pos|
    ensures EnoughBefore(pos, hw, a)
  {
    var p := pos[a];
    if hw[a] == p {
      var movers, vacant := Movers(pos, hw, p, a), Vacant(pos, hw, p, a);
      PermutationIffKeepsOff(pos, hw, m);
      forall i | i in Image(m, movers)
        ensures i in vacant
      {
        var c :| c in movers && m[c] == i;
        assert !Intrudes(pos, m, c);
        assert TakesFirst(pos, hw, m, c) && hw[m[c]] == pos[c];
        forall k | 0 <= k <= c
          ensures m[k] != a
        {
          assert m[a] == a;
        }
        assert a !in m[..c];
      }
      ImageSize(m, movers);
      SubsetSmaller(Image(m, movers), vacant);
      CountsDiffer(pos, hw, p, a);
    }
  }

  lemma IntruderBefore(pos: seq<nat>, hw: seq<nat>, m: seq<nat>, ch: nat)
    requires |pos| == |hw| == |m| && Greedy(pos, hw, m) && ch < |m| && Intrudes(pos, m, ch)
    ensures pos[ch] != hw[ch] && hw[m[ch]] == pos[ch] && ch < m[ch] && TakesFirst(pos, hw, m, ch)
  {
    var a := m[ch];
    assert hw[a] == pos[ch] && m[a] == a;
    assert TakesFirst(pos, hw, m, ch);
    forall k | 0 <= k < ch
      ensures m[k] != a
    {
      assert m[k] == m[..ch][k];
    }
  }

  lemma VacantTaken(pos: seq<nat>, hw: seq<nat>, m: seq<nat>, ch: nat, j: nat)
    requires |pos| == |hw| == |m| && Greedy(pos, hw, m) && ch < |m| && Intrudes(pos, m, ch)
    requires j in Vacant(pos, hw, pos[ch], m[ch])
    ensures j in Image(m, Movers(pos, hw, pos[ch], ch))
  {
    IntruderBefore(pos, hw, m, ch);
    assert j in m[..ch];
    var c :| 0 <= c < ch && m[c] == j;
    assert hw[m[c]] == pos[c];
  }

  /** A mover that takes the kept place a found every vacant place before it taken by earlier movers. */
  lemma IntruderLacksPlace(pos: seq<nat>, hw: seq<nat>, m: seq<nat>, ch: nat)
    requires |pos| == |hw| == |m| && Greedy(pos, hw, m) && ch < |m| && Intrudes(pos, m, ch)
    ensures !EnoughBefore(pos, hw, m[ch])
  {
    var a, p := m[ch], pos[ch];
    IntruderBefore(pos, hw, m, ch);
    var earlier, movers, vacant := Movers(pos, hw, p, ch), Movers(pos, hw, p, a), Vacant(pos, hw, p, a);
    forall j | j in vacant { VacantTaken(pos, hw, m, ch, j); }
    ImageSize(m, earlier);
    SubsetSmaller(vacant, Image(m, earlier));
    SubsetSmaller(earlier + {ch}, movers);
    CountsDiffer(pos, hw, p, a);
  }

  /** Exactly when the map found is a permutation, as read off the two position lists beforehand. */
  lemma MapPermutesIff(pos: seq<nat>, hw: seq<nat>)
    requires |pos| == |hw| && HwMap(pos, hw).Some?
    ensures |HwMap(pos, hw).value| == |pos|
    ensures Permutation(HwMap(pos, hw).value) <==> forall a :: 0 <= a < |pos| ==> EnoughBefore(pos, hw, a)
  {
    var m := HwMap(pos, hw).value;
    MapGreedy(pos, hw);
    PermutationIffKeepsOff(pos, hw, m);
    if KeepsOff(pos, m, |m|) {
      forall a | 0 <= a < |pos| { MoversFitBefore(pos, hw, m, a); }
    } else {
      var ch :| 0 <= ch < |m| && Intrudes(pos, m, ch);
      IntruderLacksPlace(pos, hw, m, ch);
    }
  }

  /** In particular when the requested positions are distinct. */
  lemma MapPermutes(pos: seq<nat>, hw: seq<nat>)
    requires |pos| == |hw| && Distinct(pos) && HwMap(pos, hw).Some?
    ensures Permutation(HwMap(pos, hw).value) && |HwMap(pos, hw).value| == |pos|
  {
    forall a | 0 <= a < |pos|
      ensures EnoughBefore(pos, hw, a)
    {
      assert pos[a] !in pos[..a];
    }
    MapPermutesIff(pos, hw);
  }

  /** With a position requested twice it need not be one: both channels can end up in one place. */
  lemma RepeatedPositionCollides()
    ensures HwMap([3, 3], [4, 3]) == Some([1, 1])
    ensures !EnoughBefore([3, 3], [4, 3], 1)
  {
    var mapped := seq(2, _ => false);
    assert FirstFree([4, 3], mapped, 3, 0) == 1;
    assert Match([3, 3], [4, 3], mapped[1 := true], [1]) == Match([3, 3], [4, 3], mapped[1 := true], [1] + [1]);
    assert [] + [1] == [1] && [1] + [1] == [1, 1];
    assert [3, 3][..1] == [3] && [4, 3][..1] == [4];
  }

  // ---------------------------------------------------------------- rearranging frames

  /** Place ch of the new frame holds what was in place m[ch] of the old one. */
  function Rearrange<T>(frame: seq<T>, m: seq<nat>): (r: seq<T>)
    requires |m| == |frame| && forall i :: 0 <= i < |m| ==> m[i] < |frame|
    ensures |r| == |frame| && forall ch :: 0 <= ch < |frame| ==> r[ch] == frame[m[ch]]
  {
    seq(|frame|, ch requires 0 <= ch < |frame| => frame[m[ch]])
  }

  /** Where place i went. */
  function Place(m: seq<nat>, i: nat, from: nat): (k: nat)
    requires from <= |m|
    ensures from <= k <= |m|
    ensures k < |m| ==> m[k] == i
    ensures forall j :: from <= j < k ==> m[j] != i
    decreases |m| - from
  {
    if from == |m| || m[from] == i then from else Place(m, i, from + 1)
  }

  function Inverse(m: seq<nat>): (r: seq<nat>)
    ensures |r| == |m|
  {
    seq(|m|, i requires 0 <= i < |m| => Place(m, i, 0))
  }

  function Range(n: nat): (r: set<nat>)
    ensures |r| == n && forall i: nat :: i in r <==> i < n
  {
    if n == 0 then {} else Range(n - 1) + {n - 1}
  }

  function Values(m: seq<nat>): set<nat> {
    set x: nat | x in m
  }

  lemma ValuesNext(m: seq<nat>)
    requires m != []
    ensures Values(m) == Values(m[..|m| - 1]) + {m[|m| - 1]}
    ensures Distinct(m) ==> m[|m| - 1] !in Values(m[..|m| - 1])
  {
    assert m == m[..|m| - 1] + [m[|m| - 1]];
  }

  lemma {:induction false} ValuesSize(m: seq<nat>)
    requires Distinct(m)
    ensures |Values(m)| == |m|
  {
    if m != [] {
      ValuesSize(m[..|m| - 1]);
      ValuesNext(m);
    }
  }

  lemma SubsetFull(a: set<nat>, b: set<nat>)
    requires a <= b && |a| == |b|
    ensures a == b
  {
    if a != b {
      var x :| x in b && x !in a;
      SubsetSmaller(a, b - {x});
    }
  }

  lemma {:induction false} SubsetSmaller(a: set<nat>, b: set<nat>)
    requires a <= b
    ensures |a| <= |b|
    decreases a
  {
    if a != {} {
      var x :| x in a;
      SubsetSmaller(a - {x}, b - {x});
    }
  }

  /** A permutation reaches every place. */
  lemma PermutationReaches(m: seq<nat>, i: nat)
    requires Permutation(m) && i < |m|
    ensures i in m
  {
    ValuesSize(m);
    SubsetFull(Values(m), Range(|m|));
    assert i in Range(|m|);
  }

  lemma InverseUndoes(m: seq<nat>)
    requires Permutation(m)
    ensures Permutation(Inverse(m))
    ensures forall i :: 0 <= i < |m| ==> Inverse(m)[i] < |m| && m[Inverse(m)[i]] == i && Inverse(m)[m[i]] == i
  {
    forall i | 0 <= i < |m|
      ensures Inverse(m)[i] < |m| && m[Inverse(m)[i]] == i
    {
      PermutationReaches(m, i);
    }
    forall i | 0 <= i < |m|
      ensures Inverse(m)[m[i]] == i
    {
      var k := Inverse(m)[m[i]];
      assert m[k] == m[i];
    }
  }

  /** Rearranging is undone by the inverse map, on either side. */
  lemma RearrangeBack<T>(frame: seq<T>, m: seq<nat>)
    requires Permutation(m) && |m| == |frame|
    ensures Permutation(Inverse(m))
    ensures Rearrange(Rearrange(frame, m), Inverse(m)) == frame
    ensures Rearrange(Rearrange(frame, Inverse(m)), m) == frame
  {
    InverseUndoes(m);
  }

  /** The places named by m that hold x. */
  function Holding<T(==)>(frame: seq<T>, m: seq<nat>, x: T): set<nat>
    requires forall i :: 0 <= i < |m| ==> m[i] < |frame|
  {
    set i: nat | i in Values(m) && frame[i] == x
  }

  function Picked<T>(frame: seq<T>, m: seq<nat>): (r: seq<T>)
    requires forall i :: 0 <= i < |m| ==> m[i] < |frame|
    ensures |r| == |m| && forall k :: 0 <= k < |m| ==> r[k] == frame[m[k]]
  {
    seq(|m|, k requires 0 <= k < |m| => frame[m[k]])
  }

  lemma HoldingNext<T>(frame: seq<T>, m: seq<nat>, x: T)
    requires m != [] && Distinct(m) && forall i :: 0 <= i < |m| ==> m[i] < |frame|
    ensures |Holding(frame, m, x)| ==
            |Holding(frame, m[..|m| - 1], x)| + (if frame[m[|m| - 1]] == x then 1 else 0)
  {
    var init, last := m[..|m| - 1], m[|m| - 1];
    ValuesNext(m);
    if frame[last] == x {
      assert Holding(frame, m, x) == Holding(frame, init, x) + {last};
    } else {
      assert Holding(frame, m, x) == Holding(frame, init, x);
    }
  }

  lemma PickedNext<T>(frame: seq<T>, m: seq<nat>, x: T)
    requires m != [] && forall i :: 0 <= i < |m| ==> m[i] < |frame|
    ensures multiset(Picked(frame, m))[x] ==
            multiset(Picked(frame, m[..|m| - 1]))[x] + (if frame[m[|m| - 1]] == x then 1 else 0)
  {
    assert Picked(frame, m) == Picked(frame, m[..|m| - 1]) + [frame[m[|m| - 1]]];
  }

  lemma {:induction false} PickedOccurrences<T>(frame: seq<T>, m: seq<nat>, x: T)
    requires Distinct(m) && forall i :: 0 <= i < |m| ==> m[i] < |frame|
    ensures multiset(Picked(frame, m))[x] == |Holding(frame, m, x)|
  {
    if m == [] {
      assert Holding(frame, m, x) == {};
    } else {
      PickedOccurrences(frame, m[..|m| - 1], x);
      HoldingNext(frame, m, x);
      PickedNext(frame, m, x);
    }
  }

  /** No sample of a frame is lost or doubled. */
  lemma RearrangeKeepsSamples<T>(frame: seq<T>, m: seq<nat>)
    requires Permutation(m) && |m| == |frame|
    ensures multiset(Rearrange(frame, m)) == multiset(frame)
  {
    var id := seq(|frame|, i requires 0 <= i < |frame| => i);
    assert Picked(frame, id) == frame && Picked(frame, m) == Rearrange(frame, m);
    assert Values(id) == Values(m) by {
      forall i: nat | i < |m|
        ensures i in m && i in id
      {
        PermutationReaches(m, i);
        assert id[i] == i;
      }
    }
    forall x | true
      ensures multiset(Rearrange(frame, m))[x] == multiset(frame)[x]
    {
      PickedOccurrences(frame, m, x);
      PickedOccurrences(frame, id, x);
      assert Holding(frame, m, x) == Holding(frame, id, x);
    }
  }

  /** And only a permutation keeps them: another map loses a sample of the frame 0, 1, 2, .... */
  lemma OnlyPermutationsKeepSamples(m: seq<nat>)
    requires forall i :: 0 <= i < |m| ==> m[i] < |m|
    ensures var frame := seq(|m|, i requires 0 <= i < |m| => i);
            multiset(Rearrange(frame, m)) == multiset(frame) <==> Permutation(m)
  {
    var frame := seq(|m|, i requires 0 <= i < |m| => i);
    assert Rearrange(frame, m) == m;
    if Permutation(m) { RearrangeKeepsSamples(frame, m); }
    if multiset(m) == multiset(frame) {
      forall i, j | 0 <= i < j < |m|
        ensures m[i] != m[j]
      {
        PickedOccurrences(frame, frame, m[i]);
        assert Picked(frame, frame) == frame;
        assert Holding(frame, frame, m[i]) <= {m[i]};
        SubsetSmaller(Holding(frame, frame, m[i]), {m[i]});
        if m[i] == m[j] { TwiceCounted(m, i, j); }
      }
    }
  }

  lemma TwiceCounted(m: seq<nat>, i: nat, j: nat)
    requires i < j < |m| && m[i] == m[j]
    ensures multiset(m)[m[i]] >= 2
  {
    assert m == m[..i] + [m[i]] + m[i + 1..j] + [m[j]] + m[j + 1..];
  }

  /** Where a frame's samples end up, for every map found: at hardware channels of their positions
      exactly when sending a place through the map twice leads back to the same position; with distinct
      positions, exactly when the map undoes itself. */
  lemma ReachesItsPositionIff(pos: seq<nat>, hw: seq<nat>)
    requires |pos| == |hw| && HwMap(pos, hw).Some?
    ensures var m := HwMap(pos, hw).value;
            && |m| == |pos| && InRange(m, |m|)
            && (Rearrange(pos, m) == hw <==> forall ch :: 0 <= ch < |m| ==> hw[m[m[ch]]] == hw[ch])
            && (Distinct(pos) ==> (Rearrange(pos, m) == hw <==> forall ch :: 0 <= ch < |m| ==> m[m[ch]] == ch))
  {
    MapFits(pos, hw);
    var m := HwMap(pos, hw).value;
    forall ch | 0 <= ch < |m|
      ensures Rearrange(pos, m)[ch] == hw[m[m[ch]]]
    {
      assert hw[m[m[ch]]] == pos[m[ch]];
    }
    if Distinct(pos) { Undone(pos, hw, m); }
  }

  lemma Undone(pos: seq<nat>, hw: seq<nat>, m: seq<nat>)
    requires |pos| == |hw| == |m| && Fits(pos, hw, m) && Distinct(pos)
    ensures Rearrange(pos, m) == hw <==> forall ch :: 0 <= ch < |m| ==> m[m[ch]] == ch
  {
    if Rearrange(pos, m) == hw {
      forall ch | 0 <= ch < |m|
        ensures m[m[ch]] == ch
      {
        assert pos[m[m[ch]]] == Rearrange(pos, m)[m[ch]] == hw[m[ch]] == pos[ch];
      }
    }
    if forall ch :: 0 <= ch < |m| ==> m[m[ch]] == ch {
      forall ch | 0 <= ch < |m|
        ensures Rearrange(pos, m)[ch] == hw[ch]
      {
        assert hw[m[m[ch]]] == pos[m[ch]];
      }
    }
  }

  /** With three speakers shifted round, every sample ends up at a wrong one: the first is asked to be
      where the hardware has the second, but not the other way round. */
  lemma ShiftedSpeakersMiss()
    ensures HwMap([1, 2, 3], [3, 1, 2]) == Some([1, 2, 0])
    ensures Rearrange([1, 2, 3], [1, 2, 0]) == [2, 3, 1]
    ensures var pos, hw := [1, 2, 3], [3, 1, 2]; pos[0] == hw[1] && pos[1] != hw[0]
  {
    var pos, hw, none := [1, 2, 3], [3, 1, 2], seq(3, _ => false);
    assert FirstFree(hw, none, 1, 0) == 1;
    var one := none[1 := true];
    assert FirstFree(hw, one, 2, 0) == 2;
    var two := one[2 := true];
    assert FirstFree(hw, two, 3, 0) == 0;
    assert [] + [1] == [1] && [1] + [2] == [1, 2] && [1, 2] + [0] == [1, 2, 0];
    assert Match(pos, hw, two[0 := true], [1, 2, 0]) == Some([1, 2, 0]);
    assert Match(pos, hw, two, [1, 2]) == Match(pos, hw, two[0 := true], [1, 2, 0]);
    assert Match(pos, hw, one, [1]) == Match(pos, hw, two, [1, 2]);
  }
}
