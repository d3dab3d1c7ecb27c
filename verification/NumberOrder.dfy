/** The comparator on canonical numbers (engine/typed_filter.go:634-686): it
    never leaves the digits, and its sign is the numeric order. */
module NumberOrder {
  import opened Bytes
  import opened JsonNumber
  import opened Decimal
  import opened Numbers

  /** strings.Compare. */
  function Compare(a: seq<byte>, b: seq<byte>): int {
    if a == b then 0 else if Less(a, b) then -1 else 1
  }

  function IndexOf(s: seq<byte>, c: byte): (i: nat)
    ensures i <= |s| && (i < |s| ==> s[i] == c)
    ensures forall j | 0 <= j < i :: s[j] != c
  {
    if s == [] || s[0] == c then 0 else 1 + IndexOf(s[1..], c)
  }

  /** The i-th byte of a fraction, zero past its end. */
  function At(s: seq<byte>, i: nat): byte {
    if i < |s| then s[i] else ZERO
  }

  function Max(a: int, b: int): int {
    if a > b then a else b
  }

  /** Compares the digits after the points, from position i on. */
  function CompareFrom(a: seq<byte>, b: seq<byte>, i: nat): int
    decreases Max(|a|, |b|) - i
  {
    if i >= Max(|a|, |b|) then 0
    else if At(a, i) != At(b, i) then At(a, i) as int - At(b, i) as int
    else CompareFrom(a, b, i + 1)
  }

  function CompareMagnitudes(a: seq<byte>, b: seq<byte>): int {
    var adot, bdot := IndexOf(a, DOT), IndexOf(b, DOT);
    if adot != bdot then adot - bdot
    else
      var cmp := Compare(a[..adot], b[..bdot]);
      if cmp != 0 then cmp else CompareFrom(a[adot..], b[bdot..], 1)
  }

  function CompareNumbers(a: seq<byte>, b: seq<byte>): int {
    if a == b then 0
    else
      var aNeg, bNeg := a != [] && a[0] == MINUS, b != [] && b[0] == MINUS;
      if aNeg != bNeg then (if aNeg then -1 else 1)
      else if aNeg then -CompareMagnitudes(a[1..], b[1..])
      else CompareMagnitudes(a, b)
  }

  // --------------------------------------------------------------- as it is run

  method FindDot(s: seq<byte>) returns (dot: nat)
    ensures dot == IndexOf(s, DOT)
  {
    dot := 0;
    while dot < |s| && s[dot] != DOT
      invariant dot <= |s| && forall j | 0 <= j < dot :: s[j] != DOT
    {
      dot := dot + 1;
    }
  }

  method CompareCanonicalMagnitudes(a: seq<byte>, b: seq<byte>) returns (r: int)
    ensures r == CompareMagnitudes(a, b)
  {
    var adot := FindDot(a);
    var bdot := FindDot(b);
    if adot != bdot {
      return adot - bdot;
    }
    var cmp := Compare(a[..adot], b[..bdot]);
    if cmp != 0 {
      return cmp;
    }
    ghost var fa, fb := a[adot..], b[bdot..];
    var maxFrac := Max(|a| - adot, |b| - bdot);
    var i := 1;
    while i < maxFrac
      invariant 1 <= i && CompareFrom(fa, fb, 1) == CompareFrom(fa, fb, i)
    {
      var ac, bc := ZERO, ZERO;
      if adot + i < |a| {
        ac := a[adot + i];
      }
      if bdot + i < |b| {
        bc := b[bdot + i];
      }
      assert ac == At(fa, i) && bc == At(fb, i);
      if ac != bc {
        return ac as int - bc as int;
      }
      i := i + 1;
    }
    return 0;
  }

  // ------------------------------------------------------------ order of values

  predicate SameSign(x: int, y: real) {
    (x < 0 <==> y < 0.0) && (x > 0 <==> y > 0.0)
  }

  function Pad(f: seq<byte>, m: nat): (p: seq<byte>)
    requires |f| <= m
    ensures |p| == m
  {
    f + Zeros(m - |f|)
  }

  /** A plain number without its sign, padded to m fraction digits. */
  ghost function Padded(n: Number, m: nat): seq<byte>
    requires n.WellFormed() && |n.frac| <= m
  {
    n.whole + Pad(n.frac, m)
  }

  lemma PaddedValue(n: Number, m: nat)
    requires n.WellFormed() && n.exp.NoExp? && |n.frac| <= m
    ensures Digits(Padded(n, m)) && Value(n) == Signed(n.neg, Nat(Padded(n, m)), -(m as int))
  {
    hide Nat, Ten, Pow10;
    var d, k := n.whole + n.frac, m - |n.frac|;
    assert Padded(n, m) == d + Zeros(k);
    NatConcat(d, Zeros(k));
    NatOfZeros(Zeros(k));
    SignedShift(n.neg, Nat(d), -(m as int), k);
  }

  lemma SplitLess(w: seq<byte>, w': seq<byte>, p: seq<byte>, p': seq<byte>)
    requires |w| == |w'|
    ensures Less(w + p, w' + p') <==> Less(w, w') || (w == w' && Less(p, p'))
    decreases |w|
  {
    if w == [] {
      assert w + p == p && w' + p' == p';
    } else {
      assert (w + p)[1..] == w[1..] + p && (w' + p')[1..] == w'[1..] + p';
      SplitLess(w[1..], w'[1..], p, p');
      assert w == w' <==> w[0] == w'[0] && w[1..] == w'[1..];
    }
  }

  /** The digit loop orders fractions as if both were padded. */
  lemma {:induction false} FromIsPadded(a: seq<byte>, b: seq<byte>, x: seq<byte>, y: seq<byte>, i: nat)
    requires |x| == |y| && (i + |x| == Max(|a|, |b|) || (i > Max(|a|, |b|) && x == []))
    requires forall j | 0 <= j < |x| :: x[j] == At(a, i + j) && y[j] == At(b, i + j)
    ensures CompareFrom(a, b, i) < 0 <==> Less(x, y)
    ensures CompareFrom(a, b, i) == 0 <==> x == y
    decreases |x|
  {
    if x != [] {
      if x[0] == y[0] {
        FromIsPadded(a, b, x[1..], y[1..], i + 1);
        assert x == [x[0]] + x[1..] && y == [y[0]] + y[1..];
      }
    }
  }

  /** Plain notation of a magnitude. */
  function Plain(n: Number): seq<byte> {
    n.whole + SpellTail(n.frac, NoExp)
  }

  lemma DotAt(n: Number)
    requires n.WellFormed() && n.exp.NoExp?
    ensures IndexOf(Plain(n), DOT) == |n.whole|
    ensures Plain(n)[..|n.whole|] == n.whole
    ensures Plain(n)[|n.whole|..] == Dotted(n.frac)
  {
    assert forall j | 0 <= j < |n.whole| :: Plain(n)[j] != DOT;
    assert n.frac != [] ==> Plain(n)[|n.whole|] == DOT;
  }

  /** More whole digits: a larger number. */
  lemma LongerIsLarger(m: Number, n: Number, k: nat)
    requires m.WellFormed() && n.WellFormed() && |m.frac| <= k && |n.frac| <= k
    requires |m.whole| < |n.whole|
    ensures Digits(Padded(m, k)) && Digits(Padded(n, k)) && Nat(Padded(m, k)) < Nat(Padded(n, k))
  {
    hide Nat, Pow10;
    NatBound(Padded(m, k));
    NatAtLeast(Padded(n, k));
    Pow10Grows(|Padded(m, k)|, |Padded(n, k)| - 1);
  }

  function Dotted(f: seq<byte>): seq<byte> {
    if f == [] then [] else [DOT] + f
  }

  /** Comparing what follows the whole parts is comparing padded fractions. */
  lemma FractionsPad(f: seq<byte>, g: seq<byte>, k: nat)
    requires k == Max(|f|, |g|)
    ensures CompareFrom(Dotted(f), Dotted(g), 1) < 0 <==> Less(Pad(f, k), Pad(g, k))
    ensures CompareFrom(Dotted(f), Dotted(g), 1) == 0 <==> Pad(f, k) == Pad(g, k)
  {
    hide CompareFrom, Less;
    FromIsPadded(Dotted(f), Dotted(g), Pad(f, k), Pad(g, k), 1);
  }

  lemma EqualWholes(m: Number, n: Number, k: nat)
    requires m.WellFormed() && n.WellFormed() && m.exp.NoExp? && n.exp.NoExp?
    requires |m.whole| == |n.whole| && k == Max(|m.frac|, |n.frac|)
    ensures CompareMagnitudes(Plain(m), Plain(n)) < 0 <==> Less(Padded(m, k), Padded(n, k))
    ensures CompareMagnitudes(Plain(m), Plain(n)) == 0 <==> Padded(m, k) == Padded(n, k)
  {
    hide IndexOf, CompareFrom, Less, Plain, Pad;
    DotAt(m);
    DotAt(n);
    FractionsPad(m.frac, n.frac, k);
    SplitLess(m.whole, n.whole, Pad(m.frac, k), Pad(n.frac, k));
    LessIrreflexive(m.whole);
    Halves(m.whole, Pad(m.frac, k), n.whole, Pad(n.frac, k));
  }

  lemma Halves(w: seq<byte>, p: seq<byte>, w': seq<byte>, p': seq<byte>)
    requires |w| == |w'|
    ensures w + p == w' + p' <==> w == w' && p == p'
  {
    assert (w + p)[..|w|] == w && (w + p)[|w|..] == p;
    assert (w' + p')[..|w|] == w' && (w' + p')[|w|..] == p';
  }

  /** On unsigned plain numbers the comparison's sign is the order of the
      padded digit strings' values. */
  lemma MagnitudeOrder(m: Number, n: Number, k: nat)
    requires m.WellFormed() && n.WellFormed() && m.exp.NoExp? && n.exp.NoExp?
    requires k == Max(|m.frac|, |n.frac|)
    ensures Digits(Padded(m, k)) && Digits(Padded(n, k))
    ensures SameSign(CompareMagnitudes(Plain(m), Plain(n)),
                     (Nat(Padded(m, k)) as int - Nat(Padded(n, k)) as int) as real)
  {
    hide Nat, IndexOf, CompareFrom, Padded, Plain;
    PaddedDigits(m, k);
    PaddedDigits(n, k);
    if |m.whole| == |n.whole| {
      EqualWholes(m, n, k);
      NatOrder(Padded(m, k), Padded(n, k));
    } else {
      DotAt(m);
      DotAt(n);
      if |m.whole| < |n.whole| {
        LongerIsLarger(m, n, k);
      } else {
        LongerIsLarger(n, m, k);
      }
    }
  }

  lemma PaddedDigits(n: Number, k: nat)
    requires n.WellFormed() && |n.frac| <= k
    ensures Digits(Padded(n, k)) && |Padded(n, k)| == |n.whole| + k
  {
  }

  lemma SignedOrder(neg: bool, x: nat, y: nat, e: int)
    ensures SameSign(if neg then y - x else x - y, Signed(neg, x, e) - Signed(neg, y, e))
  {
    hide Ten;
    CancelLess(x as real, y as real, Ten(e));
    CancelLess(y as real, x as real, Ten(e));
  }

  lemma PlainShape(r: Normal)
    requires r.WellFormed()
    ensures var n := Fixed(r);
            && n.WellFormed() && n.exp.NoExp?
            && n.neg == (r.Normal? && r.neg)
            && n.Spell() == (if n.neg then [MINUS] else []) + Plain(n)
            && Plain(n) != [] && Plain(n)[0] != MINUS
  {
    FixedWellFormed(r);
    var n := Fixed(r);
    assert Plain(n)[0] == n.whole[0];
    assert NoExp.Spell() == [];
  }

  lemma UnsignedSpell(neg: bool, plain: seq<byte>)
    requires plain != [] && plain[0] != MINUS
    ensures var s := (if neg then [MINUS] else []) + plain;
            && s != []
            && (s[0] == MINUS <==> neg)
            && (if neg then s[1..] else s) == plain
  {
  }

  /** The comparator's sign is the order of the numbers. */
  lemma CompareIsOrder(r: Normal, r': Normal)
    requires r.WellFormed() && r'.WellFormed()
    ensures SameSign(CompareNumbers(Fixed(r).Spell(), Fixed(r').Spell()), r.Value() - r'.Value())
  {
    hide Fixed, Plain, CompareMagnitudes, Normal.Value, Number.Spell, Normal.WellFormed, Padded, Number.WellFormed,
      Value;
    var m, n := Fixed(r), Fixed(r');
    PlainShape(r);
    PlainShape(r');
    FixedInjective(r, r');
    UnsignedSpell(m.neg, Plain(m));
    UnsignedSpell(n.neg, Plain(n));
    Sides(r);
    Sides(r');
    if m.neg == n.neg && m.Spell() != n.Spell() {
      SameSide(m, n);
      FixedValue(r);
      FixedValue(r');
    }
  }

  lemma Sides(r: Normal)
    requires r.WellFormed()
    ensures if r.Normal? && r.neg then r.Value() < 0.0 else r.Value() >= 0.0
  {
    if r.Normal? {
      NormalSign(r);
    }
  }

  lemma SameSide(m: Number, n: Number)
    requires m.WellFormed() && n.WellFormed() && m.exp.NoExp? && n.exp.NoExp? && m.neg == n.neg
    ensures var c := CompareMagnitudes(Plain(m), Plain(n));
            SameSign(if m.neg then -c else c, Value(m) - Value(n))
  {
    hide Plain, CompareMagnitudes, Padded, Number.WellFormed, Value, Nat, Signed;
    var k := Max(|m.frac|, |n.frac|);
    MagnitudeOrder(m, n, k);
    PaddedValue(m, k);
    PaddedValue(n, k);
    SignedOrder(m.neg, Nat(Padded(m, k)), Nat(Padded(n, k)), -(k as int));
  }
}
