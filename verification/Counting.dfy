/** How many elements of a list satisfy a predicate. */
module Counting {

  function Count<T>(xs: seq<T>, p: T -> bool): nat {
    if xs == [] then 0 else (if p(xs[0]) then 1 else 0) + Count(xs[1..], p)
  }

  lemma {:induction false} CountAppend<T>(xs: seq<T>, ys: seq<T>, p: T -> bool)
    ensures Count(xs + ys, p) == Count(xs, p) + Count(ys, p)
  {
    if xs == [] {
      assert xs + ys == ys;
    } else {
      assert (xs + ys)[1..] == xs[1..] + ys;
      CountAppend(xs[1..], ys, p);
    }
  }

  lemma CountOne<T>(x: T, p: T -> bool)
    ensures Count([x], p) == if p(x) then 1 else 0
  {
  }

  /** Taking one element out takes one count out. */
  lemma CountWithout<T>(xs: seq<T>, i: nat, p: T -> bool)
    requires i < |xs|
    ensures Count(xs, p) == Count(xs[..i] + xs[i + 1..], p) + (if p(xs[i]) then 1 else 0)
  {
    var a, x, b := xs[..i], [xs[i]], xs[i + 1..];
    assert xs == a + (x + b);
    CountAppend(a, x + b, p);
    CountAppend(x, b, p);
    CountAppend(a, b, p);
    CountOne(xs[i], p);
  }

  lemma {:induction false} CountOfMember<T>(xs: seq<T>, i: nat, p: T -> bool)
    requires i < |xs| && p(xs[i])
    ensures Count(xs, p) > 0
  {
    if i > 0 { CountOfMember(xs[1..], i - 1, p); }
  }

  lemma {:induction false} CountZero<T>(xs: seq<T>, p: T -> bool)
    ensures Count(xs, p) == 0 <==> forall i :: 0 <= i < |xs| ==> !p(xs[i])
  {
    if xs != [] { CountZero(xs[1..], p); }
  }
}
