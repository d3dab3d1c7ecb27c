/** Short strings to name things apart by: their order is the numbers'. */
module Spelling {
  import opened Bytes

  /** w letters, different for each i below 16^w. */
  function Spelt(w: nat, i: nat): (id: seq<byte>)
    ensures |id| == w && Letters(id)
  {
    if w == 0 then [] else Spelt(w - 1, i / 16) + [97 + i % 16]
  }

  predicate Letters(s: seq<byte>) {
    forall i | 0 <= i < |s| :: 97 <= s[i] < 113
  }

  function Pow16(w: nat): nat {
    if w == 0 then 1 else 16 * Pow16(w - 1)
  }

  lemma {:induction false} SpeltDiffer(w: nat, i: nat, j: nat)
    requires i < Pow16(w) && j < Pow16(w) && Spelt(w, i) == Spelt(w, j)
    ensures i == j
  {
    if w > 0 {
      var a, b := Spelt(w, i), Spelt(w, j);
      assert a[..w - 1] == Spelt(w - 1, i / 16) && b[..w - 1] == Spelt(w - 1, j / 16);
      SpeltDiffer(w - 1, i / 16, j / 16);
      assert a[w - 1] == b[w - 1];
    }
  }

  /** Spellings of one length are ordered as their numbers. */
  lemma {:induction false} SpeltOrdered(w: nat, i: nat, j: nat)
    requires i < j < Pow16(w)
    ensures Less(Spelt(w, i), Spelt(w, j))
  {
    var a, b := Spelt(w - 1, i / 16), Spelt(w - 1, j / 16);
    if i / 16 < j / 16 {
      SpeltOrdered(w - 1, i / 16, j / 16);
      LessExtends(a, b, [97 + i % 16], [97 + j % 16]);
    } else {
      LessLast(a, 97 + i % 16, 97 + j % 16);
    }
  }

  lemma {:induction false} LessExtends(a: seq<byte>, b: seq<byte>, x: seq<byte>, y: seq<byte>)
    requires Less(a, b) && |a| == |b|
    ensures Less(a + x, b + y)
    decreases |a|
  {
    assert (a + x)[1..] == a[1..] + x && (b + y)[1..] == b[1..] + y;
    if a[0] == b[0] {
      LessExtends(a[1..], b[1..], x, y);
    }
  }

  lemma {:induction false} LessLast(a: seq<byte>, x: byte, y: byte)
    requires x < y
    ensures Less(a + [x], a + [y])
    decreases |a|
  {
    if a != [] {
      assert (a + [x])[1..] == a[1..] + [x] && (a + [y])[1..] == a[1..] + [y];
      LessLast(a[1..], x, y);
    }
  }
}
