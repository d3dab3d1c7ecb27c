/** Slices of byte strings, and byte strings standing at an offset of a buffer
    that is filled by copying. */
module Buffers {
  import opened Bytes

  lemma FrontSlice(a: seq<byte>, b: seq<byte>, lo: nat, hi: nat)
    requires lo <= hi <= |a|
    ensures (a + b)[lo..hi] == a[lo..hi]
  {
  }

  lemma BackSlice(a: seq<byte>, b: seq<byte>)
    ensures (a + b)[|a|..] == b && (a + b)[..|a|] == a
  {
  }

  lemma SliceSlice(s: seq<byte>, lo: nat, hi: nat, x: nat, y: nat)
    requires lo <= hi <= |s| && x <= y <= hi - lo
    ensures s[lo..hi][x..y] == s[lo + x..lo + y]
  {
    forall j | 0 <= j < y - x ensures s[lo..hi][x..y][j] == s[lo + x..lo + y][j] {
      assert s[lo..hi][x + j] == s[lo + x + j];
    }
  }

  lemma PrefixTail(s: seq<byte>, a: seq<byte>, b: seq<byte>)
    requires |a| + |b| <= |s| && s[..|a| + |b|] == a + b
    ensures s[|a|..|a| + |b|] == b
  {
    forall j | 0 <= j < |b| ensures s[|a| + j] == b[j] {
      assert s[..|a| + |b|][|a| + j] == s[|a| + j];
    }
  }

  lemma Joined(s: seq<byte>, lo: nat, mid: nat, hi: nat)
    requires lo <= mid <= hi <= |s|
    ensures s[lo..hi] == s[lo..mid] + s[mid..hi]
  {
  }

  ghost predicate StandsAt(s: seq<byte>, at: nat, x: seq<byte>) {
    at + |x| <= |s| && s[at..at + |x|] == x
  }

  lemma StandsJoin(s: seq<byte>, at: nat, a: seq<byte>, b: seq<byte>)
    ensures StandsAt(s, at, a + b) <==> StandsAt(s, at, a) && StandsAt(s, at + |a|, b)
  {
    if StandsAt(s, at, a + b) {
      SliceSlice(s, at, at + |a + b|, 0, |a|);
      SliceSlice(s, at, at + |a + b|, |a|, |a + b|);
      BackSlice(a, b);
      assert (a + b)[|a|..|a + b|] == b;
    } else if StandsAt(s, at, a) && StandsAt(s, at + |a|, b) {
      Joined(s, at, at + |a|, at + |a| + |b|);
    }
  }

  /** s with x copied over it at. */
  function Patch(s: seq<byte>, at: nat, x: seq<byte>): (p: seq<byte>)
    requires at + |x| <= |s|
    ensures |p| == |s|
  {
    s[..at] + x + s[at + |x|..]
  }

  lemma PatchStands(s: seq<byte>, at: nat, x: seq<byte>)
    requires at + |x| <= |s|
    ensures StandsAt(Patch(s, at, x), at, x)
  {
  }

  lemma PatchKeeps(s: seq<byte>, at: nat, x: seq<byte>, p: nat, y: seq<byte>)
    requires at + |x| <= |s| && StandsAt(s, p, y) && (p + |y| <= at || at + |x| <= p)
    ensures StandsAt(Patch(s, at, x), p, y)
  {
    var t := Patch(s, at, x);
    forall j | 0 <= j < |y| ensures t[p..p + |y|][j] == y[j] {
      assert s[p..p + |y|][j] == s[p + j] == t[p + j];
    }
  }

  method Copy(sec: array<byte>, at: nat, x: seq<byte>)
    requires at + |x| <= sec.Length
    modifies sec
    ensures sec[..] == Patch(old(sec[..]), at, x)
  {
    for j := 0 to |x|
      invariant forall k | 0 <= k < sec.Length :: sec[k] == if at <= k < at + j then x[k - at] else old(sec[k])
    {
      sec[at + j] := x[j];
    }
  }

  lemma StandsWhole(s: seq<byte>, x: seq<byte>)
    requires StandsAt(s, 0, x) && |x| == |s|
    ensures s == x
  {
  }

  lemma Associates(a: seq<byte>, b: seq<byte>, c: seq<byte>)
    ensures (a + b) + c == a + (b + c)
  {
  }

  lemma FiveStand(s: seq<byte>, a: seq<byte>, b: seq<byte>, c: seq<byte>, d: seq<byte>, e: seq<byte>)
    requires |s| == |a| + |b| + |c| + |d| + |e| && StandsAt(s, 0, a) && StandsAt(s, |a|, b)
    requires StandsAt(s, |a| + |b|, c) && StandsAt(s, |a| + |b| + |c|, d) && StandsAt(s, |a| + |b| + |c| + |d|, e)
    ensures s == a + b + c + d + e
  {
    hide StandsAt;
    StandsJoin(s, 0, a, b);
    StandsJoin(s, 0, a + b, c);
    StandsJoin(s, 0, a + b + c, d);
    StandsJoin(s, 0, a + b + c + d, e);
    StandsWhole(s, a + b + c + d + e);
  }
}
