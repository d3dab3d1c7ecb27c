/** Lists packed back to back: the lengths alone take them apart again. */
module Packing {

  function Sum(s: seq<int>): int {
    if s == [] then 0 else Sum(s[..|s| - 1]) + s[|s| - 1]
  }

  function Concat<T>(xs: seq<seq<T>>): seq<T> {
    if xs == [] then [] else Concat(xs[..|xs| - 1]) + xs[|xs| - 1]
  }

  function Lens<T>(xs: seq<seq<T>>): (l: seq<nat>)
    ensures |l| == |xs| && forall i | 0 <= i < |xs| :: l[i] == |xs[i]|
  {
    seq(|xs|, (i: nat) requires i < |xs| => |xs[i]|)
  }

  /** Where part i starts. */
  function At(lens: seq<int>, i: nat): int
    requires i <= |lens|
  {
    Sum(lens[..i])
  }

  lemma AtNext(lens: seq<int>, i: nat)
    requires i < |lens|
    ensures At(lens, i + 1) == At(lens, i) + lens[i]
  {
    assert lens[..i + 1][..i] == lens[..i];
  }

  lemma AtEnds(lens: seq<int>)
    ensures At(lens, 0) == 0 && At(lens, |lens|) == Sum(lens)
  {
    assert lens[..|lens|] == lens;
  }

  ghost predicate Lengths(lens: seq<int>) {
    forall i | 0 <= i < |lens| :: lens[i] >= 0
  }

  lemma {:induction false} AtGrows(lens: seq<int>, i: nat, j: nat)
    requires Lengths(lens) && i <= j <= |lens|
    ensures 0 <= At(lens, i) <= At(lens, j) <= Sum(lens)
    decreases |lens| - i
  {
    hide At, Sum;
    AtEnds(lens);
    AtOrdered(lens, 0, i);
    AtOrdered(lens, i, j);
    AtOrdered(lens, j, |lens|);
  }

  lemma {:induction false} AtOrdered(lens: seq<int>, i: nat, j: nat)
    requires Lengths(lens) && i <= j <= |lens|
    ensures At(lens, i) <= At(lens, j)
    decreases j
  {
    hide At;
    if i < j {
      AtOrdered(lens, i, j - 1);
      AtNext(lens, j - 1);
    }
  }

  /** Later parts start after earlier ones end. */
  lemma AtApart(lens: seq<int>, i: nat, j: nat)
    requires Lengths(lens) && i < j < |lens|
    ensures At(lens, i) + lens[i] <= At(lens, j)
  {
    hide At;
    AtNext(lens, i);
    AtOrdered(lens, i + 1, j);
  }

  /** Every position of the whole lies in a part. */
  lemma {:induction false} AtCovers(lens: seq<int>, p: nat, n: nat)
    requires Lengths(lens) && n <= |lens| && p < At(lens, n)
    ensures exists i: nat :: i < n && At(lens, i) <= p < At(lens, i) + lens[i]
  {
    hide At, Sum;
    if n == 0 {
      AtEnds(lens);
      assert false;
    } else {
      AtNext(lens, n - 1);
      if p < At(lens, n - 1) {
        AtCovers(lens, p, n - 1);
      }
    }
  }

  lemma LensPrefix<T>(xs: seq<seq<T>>, i: nat)
    requires i <= |xs|
    ensures Lens(xs)[..i] == Lens(xs[..i])
  {
  }

  lemma {:induction false} ConcatLength<T>(xs: seq<seq<T>>)
    ensures |Concat(xs)| == Sum(Lens(xs))
    decreases |xs|
  {
    if xs != [] {
      ConcatLength(xs[..|xs| - 1]);
      LensPrefix(xs, |xs| - 1);
    }
  }

  lemma JoinedSlice<T>(a: seq<T>, b: seq<T>, lo: nat, hi: nat)
    requires lo <= hi <= |a|
    ensures (a + b)[lo..hi] == a[lo..hi]
  {
  }

  lemma JoinedBack<T>(a: seq<T>, b: seq<T>)
    ensures (a + b)[|a|..|a| + |b|] == b
  {
  }

  /** Part i is where its lengths say. */
  lemma {:induction false} PartAt<T>(xs: seq<seq<T>>, i: nat)
    requires i < |xs|
    ensures 0 <= At(Lens(xs), i) <= At(Lens(xs), i) + |xs[i]| <= |Concat(xs)|
    ensures Concat(xs)[At(Lens(xs), i)..At(Lens(xs), i) + |xs[i]|] == xs[i]
    decreases |xs|
  {
    hide Sum, Lens;
    var front := xs[..|xs| - 1];
    LensPrefix(xs, i);
    LensPrefix(front, i);
    ConcatLength(front);
    assert front[..i] == xs[..i];
    if i < |xs| - 1 {
      PartAt(front, i);
      var at := At(Lens(xs), i);
      JoinedSlice(Concat(front), xs[|xs| - 1], at, at + |xs[i]|);
    } else {
      JoinedBack(Concat(front), xs[i]);
    }
  }

  /** The parts of s with the given lengths. */
  ghost function Split<T>(s: seq<T>, lens: seq<int>): (xs: seq<seq<T>>)
    requires Lengths(lens) && Sum(lens) == |s|
    ensures |xs| == |lens| && forall i | 0 <= i < |lens| :: |xs[i]| == lens[i]
    ensures forall i | 0 <= i < |lens| :: 0 <= At(lens, i) <= At(lens, i) + lens[i] <= |s|
    ensures forall i | 0 <= i < |lens| :: xs[i] == s[At(lens, i)..At(lens, i) + lens[i]]
  {
    Places(lens);
    seq(|lens|, (i: nat) requires i < |lens| && 0 <= At(lens, i) <= At(lens, i) + lens[i] <= |s| =>
      s[At(lens, i)..At(lens, i) + lens[i]])
  }

  lemma Places(lens: seq<int>)
    requires Lengths(lens)
    ensures forall i | 0 <= i < |lens| :: 0 <= At(lens, i) <= At(lens, i) + lens[i] <= Sum(lens)
  {
    hide At, Sum;
    forall i | 0 <= i < |lens| ensures 0 <= At(lens, i) <= At(lens, i) + lens[i] <= Sum(lens) {
      AtNext(lens, i);
      AtGrows(lens, i, i + 1);
    }
  }

  lemma {:induction false} SplitPrefix<T>(s: seq<T>, lens: seq<int>, n: nat)
    requires Lengths(lens) && Sum(lens) == |s| && n <= |lens|
    ensures 0 <= At(lens, n) <= |s| && Concat(Split(s, lens)[..n]) == s[..At(lens, n)]
  {
    hide At, Sum;
    AtEnds(lens);
    AtGrows(lens, n, |lens|);
    if n > 0 {
      SplitPrefix(s, lens, n - 1);
      AtNext(lens, n - 1);
      var xs := Split(s, lens);
      ConcatPush(xs, n - 1);
      SliceJoin(s, At(lens, n - 1), At(lens, n));
    }
  }

  lemma ConcatPush<T>(xs: seq<seq<T>>, i: nat)
    requires i < |xs|
    ensures Concat(xs[..i + 1]) == Concat(xs[..i]) + xs[i]
  {
    assert xs[..i + 1][..i] == xs[..i];
  }

  lemma SliceJoin<T>(s: seq<T>, i: nat, j: nat)
    requires i <= j <= |s|
    ensures s[..i] + s[i..j] == s[..j]
  {
  }

  /** Splitting and packing again gives the whole back. */
  lemma SplitIsWhole<T>(s: seq<T>, lens: seq<int>)
    requires Lengths(lens) && Sum(lens) == |s|
    ensures Concat(Split(s, lens)) == s && Lens(Split(s, lens)) == lens
  {
    hide At, Sum;
    var xs := Split(s, lens);
    SplitPrefix(s, lens, |lens|);
    AtEnds(lens);
    assert xs[..|lens|] == xs && s[..|s|] == s;
  }
}
