/** What becomes of a channel map, as read off the requested positions and the hardware's before it is
    set up, positions asked for more than once included. */
module ChannelMapGuards {
  import opened Options
  import opened ChannelMap

  // ---------------------------------------------------------------- whether a map is found

  /** The places before a at position p. */
  function Places(hw: seq<nat>, p: nat, a: nat): set<nat>
    requires a <= |hw|
  {
    set j | 0 <= j < a && hw[j] == p
  }

  /** How many places at position p the channels before t take. A channel whose own place fits takes no
      further one if that place has gone to an earlier channel, which is so once more places are taken
      than lie before it. */
  function Taken(pos: seq<nat>, hw: seq<nat>, p: nat, t: nat): nat
    requires |pos| == |hw| && t <= |pos|
  {
    if t == 0 then 0
    else
      var c, before := t - 1, Taken(pos, hw, p, t - 1);
      if pos[c] != p || (hw[c] == p && before > |Places(hw, p, c)|) then before else before + 1
  }

  function TakenBy(hw: seq<nat>, m: seq<nat>, p: nat): set<nat> {
    set i | 0 <= i < |hw| && i in m && hw[i] == p
  }

  lemma OwnPlaceGone(pos: seq<nat>, hw: seq<nat>, m: seq<nat>, p: nat)
    requires |pos| == |hw| && Greedy(pos, hw, m) && |m| < |pos| && hw[|m|] == p && |m| in m
    ensures |TakenBy(hw, m, p)| > |Places(hw, p, |m|)|
  {
    var c :| 0 <= c < |m| && m[c] == |m|;
    assert TakesFirst(pos, hw, m, c) && hw[m[c]] == pos[c];
    forall j | j in Places(hw, p, |m|)
      ensures j in TakenBy(hw, m, p)
    {
      assert j in m[..c];
    }
    SubsetSmaller(Places(hw, p, |m|) + {|m|}, TakenBy(hw, m, p));
  }

  lemma TakenLiesBefore(pos: seq<nat>, hw: seq<nat>, m: seq<nat>, c: nat)
    requires c < |m| < |pos| == |hw| && m[c] < |hw| && hw[m[c]] == pos[c] == hw[|m|] && |m| !in m
    requires if pos[c] == hw[c] then m[c] == c else TakesFirst(pos, hw, m, c)
    ensures m[c] < |m|
  {
    assert |m| !in m[..c];
  }

  lemma OwnPlaceFree(pos: seq<nat>, hw: seq<nat>, m: seq<nat>, p: nat)
    requires |pos| == |hw| && Greedy(pos, hw, m) && |m| < |pos| && hw[|m|] == p && |m| !in m
    ensures |TakenBy(hw, m, p)| <= |Places(hw, p, |m|)|
  {
    forall c | 0 <= c < |m| && pos[c] == p
      ensures m[c] < |m|
    {
      TakenLiesBefore(pos, hw, m, c);
    }
    assert forall i :: i in TakenBy(hw, m, p) ==> exists c :: 0 <= c < |m| && m[c] == i && pos[c] == p;
    SubsetSmaller(TakenBy(hw, m, p), Places(hw, p, |m|));
  }

  ghost predicate Counted(pos: seq<nat>, hw: seq<nat>, m: seq<nat>)
    requires |m| <= |pos| == |hw|
  {
    forall p: nat :: |TakenBy(hw, m, p)| == Taken(pos, hw, p, |m|)
  }

  lemma TakenByNext(hw: seq<nat>, m: seq<nat>, i: nat, p: nat)
    requires i < |hw|
    ensures |TakenBy(hw, m + [i], p)| == |TakenBy(hw, m, p)| + if hw[i] == p && i !in m then 1 else 0
  {
    if hw[i] == p {
      assert TakenBy(hw, m + [i], p) == TakenBy(hw, m, p) + {i};
    } else {
      assert TakenBy(hw, m + [i], p) == TakenBy(hw, m, p);
    }
  }

  lemma TakenStep(pos: seq<nat>, hw: seq<nat>, m: seq<nat>, i: nat, p: nat)
    requires |pos| == |hw| && |m| < |pos| && i < |hw| && hw[i] == pos[|m|]
    requires pos[|m|] == p ==> (i in m <==> hw[|m|] == p && |TakenBy(hw, m, p)| > |Places(hw, p, |m|)|)
    requires |TakenBy(hw, m, p)| == Taken(pos, hw, p, |m|)
    ensures |TakenBy(hw, m + [i], p)| == Taken(pos, hw, p, |m| + 1)
  {
    TakenByNext(hw, m, i, p);
  }

  lemma CountedNext(pos: seq<nat>, hw: seq<nat>, m: seq<nat>, i: nat)
    requires |pos| == |hw| && Greedy(pos, hw, m) && Counted(pos, hw, m) && |m| < |pos|
    requires i < |hw| && hw[i] == pos[|m|] && if pos[|m|] == hw[|m|] then i == |m| else i !in m
    ensures Counted(pos, hw, m + [i])
  {
    var own := pos[|m|];
    if own == hw[|m|] {
      if i in m { OwnPlaceGone(pos, hw, m, own); } else { OwnPlaceFree(pos, hw, m, own); }
    }
    forall p: nat
      ensures |TakenBy(hw, m + [i], p)| == Taken(pos, hw, p, |m| + 1)
    {
      TakenStep(pos, hw, m, i, p);
    }
  }

  /** A channel that has to move still finds a place. */
  predicate FindsPlace(pos: seq<nat>, hw: seq<nat>, ch: nat)
    requires |pos| == |hw| && ch < |pos|
  {
    pos[ch] != hw[ch] ==> Taken(pos, hw, pos[ch], ch) < |Places(hw, pos[ch], |hw|)|
  }

  lemma PlaceLeftIff(pos: seq<nat>, hw: seq<nat>, mapped: seq<bool>, m: seq<nat>)
    requires |m| < |pos| == |hw| == |mapped| && Counted(pos, hw, m) && Marked(mapped, m)
    ensures FirstFree(hw, mapped, pos[|m|], 0) < |hw| <==>
            Taken(pos, hw, pos[|m|], |m|) < |Places(hw, pos[|m|], |hw|)|
  {
    var p := pos[|m|];
    var taken, places := TakenBy(hw, m, p), Places(hw, p, |hw|);
    assert taken <= places;
    SubsetSmaller(taken, places);
    if |taken| == |places| { SubsetFull(taken, places); }
    var i := FirstFree(hw, mapped, p, 0);
    if i < |hw| { assert i in places && i !in taken; } else { assert taken == places; }
  }

  lemma {:induction false} MatchFoundIff(pos: seq<nat>, hw: seq<nat>, mapped: seq<bool>, m: seq<nat>)
    requires |pos| == |hw| == |mapped| && Greedy(pos, hw, m) && Marked(mapped, m) && Counted(pos, hw, m)
    ensures Match(pos, hw, mapped, m).Some? <==> forall ch :: |m| <= ch < |pos| ==> FindsPlace(pos, hw, ch)
    decreases |pos| - |m|
  {
    var ch := |m|;
    if ch < |pos| {
      var i := if pos[ch] == hw[ch] then ch else FirstFree(hw, mapped, pos[ch], 0);
      PlaceLeftIff(pos, hw, mapped, m);
      assert FindsPlace(pos, hw, ch) <==> i < |hw|;
      if i < |hw| {
        GreedyNext(pos, hw, m, i);
        CountedNext(pos, hw, m, i);
        MarkOne(mapped, m, i);
        MatchFoundIff(pos, hw, mapped[i := true], m + [i]);
      }
    }
  }

  /** For any request, a map is found exactly if every channel that has to move still finds a place. */
  lemma AnyMapFoundIff(pos: seq<nat>, hw: seq<nat>)
    requires |pos| == |hw|
    ensures HwMap(pos, hw).Some? <==> forall ch :: 0 <= ch < |pos| ==> FindsPlace(pos, hw, ch)
  {
    assert forall p: nat :: TakenBy(hw, [], p) == {};
    MatchFoundIff(pos, hw, seq(|hw|, _ => false), []);
  }

  // ---------------------------------------------------------------- whether the samples reach their places

  /** The channel and the place are of the same rank, one among the channels that have to move to the
      position, the other among the places left to such channels. */
  predicate Paired(pos: seq<nat>, hw: seq<nat>, ch: nat, i: nat)
    requires |pos| == |hw| && ch < |pos| && i < |pos|
  {
    && pos[ch] == hw[i] && pos[ch] != hw[ch] && pos[i] != hw[i]
    && |Movers(pos, hw, pos[ch], ch)| == |Vacant(pos, hw, pos[ch], i)|
  }

  /** In a map that is a permutation a channel that has to move goes to the place of its rank. */
  lemma MovesToItsRank(pos: seq<nat>, hw: seq<nat>, m: seq<nat>, ch: nat)
    requires |pos| == |hw| == |m| && Greedy(pos, hw, m) && KeepsOff(pos, m, |m|)
    requires ch < |m| && pos[ch] != hw[ch]
    ensures Paired(pos, hw, ch, m[ch])
  {
    var p, i := pos[ch], m[ch];
    var movers, vacant := Movers(pos, hw, p, ch), Vacant(pos, hw, p, i);
    PermutationIffKeepsOff(pos, hw, m);
    assert TakesFirst(pos, hw, m, ch) && hw[i] == p && !Intrudes(pos, m, ch);
    forall j | j in vacant
      ensures j in Image(m, movers)
    {
      assert j in m[..ch];
      var c :| 0 <= c < ch && m[c] == j;
      assert hw[m[c]] == pos[c];
    }
    forall j | j in Image(m, movers)
      ensures j in vacant
    {
      var c :| c in movers && m[c] == j;
      assert TakesFirst(pos, hw, m, c) && hw[j] == p && !Intrudes(pos, m, c);
    }
    assert Image(m, movers) == vacant;
    ImageSize(m, movers);
  }

  lemma OneOfEachRank(pos: seq<nat>, hw: seq<nat>, p: nat, i: nat, j: nat)
    requires |pos| == |hw| && i < j < |pos| && hw[i] == p && pos[i] != p
    ensures |Vacant(pos, hw, p, i)| < |Vacant(pos, hw, p, j)|
  {
    SubsetSmaller(Vacant(pos, hw, p, i) + {i}, Vacant(pos, hw, p, j));
  }

  lemma PairedIsMapped(pos: seq<nat>, hw: seq<nat>, m: seq<nat>, ch: nat, i: nat)
    requires |pos| == |hw| == |m| && Greedy(pos, hw, m) && KeepsOff(pos, m, |m|)
    requires ch < |m| && i < |m| && Paired(pos, hw, ch, i)
    ensures i == m[ch]
  {
    MovesToItsRank(pos, hw, m, ch);
    if i < m[ch] { OneOfEachRank(pos, hw, pos[ch], i, m[ch]); }
    if m[ch] < i { OneOfEachRank(pos, hw, pos[ch], m[ch], i); }
  }

  /** Each channel that has to move trades places with the one of its rank. */
  predicate Trades(pos: seq<nat>, hw: seq<nat>)
    requires |pos| == |hw|
  {
    forall ch, i :: 0 <= ch < |pos| && 0 <= i < |pos| && Paired(pos, hw, ch, i) ==> pos[i] == hw[ch]
  }

  lemma ReachesKeepsOff(pos: seq<nat>, hw: seq<nat>, m: seq<nat>)
    requires |pos| == |hw| == |m| && Greedy(pos, hw, m) && Rearrange(pos, m) == hw
    ensures KeepsOff(pos, m, |m|)
  {
    forall ch | 0 <= ch < |m|
      ensures !Intrudes(pos, m, ch)
    {
      assert Rearrange(pos, m)[ch] == pos[m[ch]];
    }
  }

  /** For any request for which a map is found, every sample ends up at a hardware channel of its position
      exactly if the map is a permutation and the channels that have to move trade places. */
  lemma ReachesIff(pos: seq<nat>, hw: seq<nat>)
    requires |pos| == |hw| && HwMap(pos, hw).Some?
    ensures var m := HwMap(pos, hw).value;
            && |m| == |pos| && InRange(m, |m|)
            && (Rearrange(pos, m) == hw <==>
                (forall a :: 0 <= a < |pos| ==> EnoughBefore(pos, hw, a)) && Trades(pos, hw))
  {
    var m := HwMap(pos, hw).value;
    MapGreedy(pos, hw);
    MapPermutesIff(pos, hw);
    PermutationIffKeepsOff(pos, hw, m);
    if Rearrange(pos, m) == hw {
      ReachesKeepsOff(pos, hw, m);
      forall ch, i | 0 <= ch < |pos| && 0 <= i < |pos| && Paired(pos, hw, ch, i)
        ensures pos[i] == hw[ch]
      {
        PairedIsMapped(pos, hw, m, ch, i);
        assert Rearrange(pos, m)[ch] == pos[m[ch]];
      }
    }
    if KeepsOff(pos, m, |m|) && Trades(pos, hw) {
      forall ch | 0 <= ch < |m|
        ensures Rearrange(pos, m)[ch] == hw[ch]
      {
        if pos[ch] != hw[ch] { MovesToItsRank(pos, hw, m, ch); }
      }
    }
  }

  /** If the first is asked to be where the hardware has the second, so the other way round. */
  predicate Swapped(pos: seq<nat>, hw: seq<nat>, i: nat, j: nat)
    requires |pos| == |hw| && i < |pos| && j < |pos|
  {
    pos[i] == hw[j] ==> pos[j] == hw[i]
  }

  lemma Reacher(pos: seq<nat>, hw: seq<nat>, m: seq<nat>, j: nat) returns (k: nat)
    requires |pos| == |hw| == |m| && Fits(pos, hw, m) && j < |m| && j in m
    requires Rearrange(pos, m) == hw
    ensures k < |m| && hw[j] == pos[k] && pos[j] == hw[k]
  {
    k :| 0 <= k < |m| && m[k] == j;
    assert Rearrange(pos, m)[k] == pos[m[k]];
  }

  lemma ReachedSwaps(pos: seq<nat>, hw: seq<nat>, m: seq<nat>, i: nat, j: nat)
    requires |pos| == |hw| == |m| && Fits(pos, hw, m) && Permutation(m) && Distinct(pos)
    requires Rearrange(pos, m) == hw && i < |m| && j < |m|
    ensures Swapped(pos, hw, i, j)
  {
    PermutationReaches(m, j);
    var k := Reacher(pos, hw, m, j);
    assert pos[i] == pos[k] ==> i == k;
  }

  lemma SwapsReach(pos: seq<nat>, hw: seq<nat>, m: seq<nat>)
    requires |pos| == |hw| == |m| && Fits(pos, hw, m)
    requires forall i, j :: 0 <= i < |pos| && 0 <= j < |pos| ==> Swapped(pos, hw, i, j)
    ensures Rearrange(pos, m) == hw
  {
    forall ch | 0 <= ch < |m|
      ensures Rearrange(pos, m)[ch] == hw[ch]
    {
      assert Swapped(pos, hw, ch, m[ch]);
    }
  }

  /** With distinct positions: exactly if the channels swap places in pairs. */
  lemma DistinctReachesIff(pos: seq<nat>, hw: seq<nat>)
    requires |pos| == |hw| && Distinct(pos) && HwMap(pos, hw).Some?
    ensures var m := HwMap(pos, hw).value;
            && |m| == |pos| && InRange(m, |m|)
            && (Rearrange(pos, m) == hw <==>
                forall i, j :: 0 <= i < |pos| && 0 <= j < |pos| ==> Swapped(pos, hw, i, j))
  {
    var m := HwMap(pos, hw).value;
    MapFits(pos, hw);
    MapPermutes(pos, hw);
    if Rearrange(pos, m) == hw {
      forall i, j | 0 <= i < |pos| && 0 <= j < |pos| { ReachedSwaps(pos, hw, m, i, j); }
    }
    if forall i, j :: 0 <= i < |pos| && 0 <= j < |pos| ==> Swapped(pos, hw, i, j) { SwapsReach(pos, hw, m); }
  }
}
