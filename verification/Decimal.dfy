/** Decimal numerals as numbers: the value a digit string and an exponent
    denote, and the unique normal form of a value. */
module Decimal {
  import opened Bytes
  import opened JsonNumber

  /** The number a string of digits spells. */
  function Nat(d: seq<byte>): nat
    requires Digits(d)
  {
    if d == [] then 0 else 10 * Nat(d[..|d| - 1]) + (d[|d| - 1] - ZERO)
  }

  function Pow10(k: nat): (p: nat)
    ensures p > 0
  {
    if k == 0 then 1 else 10 * Pow10(k - 1)
  }

  /** Ten to the power e. */
  function Ten(e: int): (t: real)
    ensures t > 0.0
  {
    if e >= 0 then Pow10(e) as real else 1.0 / (Pow10(-e) as real)
  }

  function Zeros(k: nat): (z: seq<byte>)
    ensures |z| == k && Digits(z)
  {
    seq(k, _ => ZERO)
  }

  // ---------------------------------------------------------------- arithmetic

  lemma TenStep(e: int)
    ensures Ten(e + 1) == 10.0 * Ten(e)
  {
    if e < -1 {
      assert Pow10(-e) == 10 * Pow10(-e - 1);
      var p := Pow10(-e - 1) as real;
      assert 10.0 * (1.0 / (10.0 * p)) == 1.0 / p;
    }
  }

  lemma {:induction false} TenSum(e: int, k: nat)
    ensures Ten(e + k) == Ten(e) * Pow10(k) as real
  {
    hide Ten;
    if k > 0 {
      TenSum(e, k - 1);
      TenStep(e + k - 1);
      TenTimes(Ten(e), Pow10(k - 1));
    }
  }

  lemma TenTimes(t: real, p: nat)
    ensures 10.0 * (t * p as real) == t * (10 * p) as real
  {
  }

  lemma {:induction false} NatConcat(a: seq<byte>, b: seq<byte>)
    requires Digits(a) && Digits(b)
    ensures Digits(a + b) && Nat(a + b) == Nat(a) * Pow10(|b|) + Nat(b)
  {
    if b == [] {
      assert a + b == a;
    } else {
      var rest := b[..|b| - 1];
      NatConcat(a, rest);
      assert (a + b)[..|a + b| - 1] == a + rest;
      Shift(Nat(a), Pow10(|rest|), Nat(rest));
    }
  }

  lemma Shift(x: nat, p: nat, y: nat)
    ensures 10 * (x * p + y) == x * (10 * p) + 10 * y
  {
  }

  lemma {:induction false} NatBound(d: seq<byte>)
    requires Digits(d)
    ensures Nat(d) < Pow10(|d|)
  {
    if d != [] {
      NatBound(d[..|d| - 1]);
    }
  }

  lemma {:induction false} NatOfZeros(d: seq<byte>)
    requires Digits(d)
    ensures Nat(d) == 0 <==> d == Zeros(|d|)
  {
    if d != [] {
      NatOfZeros(d[..|d| - 1]);
      assert d == d[..|d| - 1] + [d[|d| - 1]];
      assert Zeros(|d|) == Zeros(|d| - 1) + [ZERO];
    }
  }

  /** No leading zero: the length gives the order of magnitude. */
  lemma NatAtLeast(d: seq<byte>)
    requires Digits(d) && d != [] && d[0] != ZERO
    ensures Nat(d) >= Pow10(|d| - 1)
  {
    hide Nat, Pow10;
    HeadFirst(d);
    AtLeastOnce(d[0] - ZERO, Pow10(|d| - 1));
  }

  lemma AtLeastOnce(x: int, p: nat)
    requires x > 0
    ensures x * p >= p
  {
  }

  /** Equally long numerals are ordered as their values. */
  lemma {:induction false} NatOrder(a: seq<byte>, b: seq<byte>)
    requires Digits(a) && Digits(b) && |a| == |b|
    ensures Nat(a) < Nat(b) <==> Less(a, b)
    ensures Nat(a) == Nat(b) <==> a == b
  {
    if a != [] {
      var ra, rb := a[1..], b[1..];
      NatOrder(ra, rb);
      HeadFirst(a);
      HeadFirst(b);
      NatBound(ra);
      NatBound(rb);
      var p := Pow10(|ra|);
      if a[0] == b[0] {
        assert a == [a[0]] + ra && b == [b[0]] + rb;
      } else {
        HeadWins((a[0] - ZERO) as int, (b[0] - ZERO) as int, Nat(ra), Nat(rb), p);
      }
    }
  }

  lemma HeadFirst(a: seq<byte>)
    requires Digits(a) && a != []
    ensures Digits(a[1..]) && Nat(a) == (a[0] - ZERO) * Pow10(|a| - 1) + Nat(a[1..])
  {
    hide Nat, Pow10;
    assert a == [a[0]] + a[1..];
    NatConcat([a[0]], a[1..]);
    OneDigit(a[0]);
  }

  lemma OneDigit(c: byte)
    requires Digits([c])
    ensures Nat([c]) == c as int - ZERO as int
  {
    assert [c][..0] == [];
  }

  lemma HeadWins(x: int, y: int, r: nat, s: nat, p: nat)
    requires x != y && r < p && s < p
    ensures x * p + r < y * p + s <==> x < y
    ensures x * p + r != y * p + s
  {
    if x < y {
      assert (x + 1) * p <= y * p;
    } else {
      assert (y + 1) * p <= x * p;
    }
  }

  // ---------------------------------------------------------------- normal form

  /** Zero, or a sign and digits without leading or trailing zeros, scaled. */
  datatype Normal = Nought | Normal(neg: bool, digits: seq<byte>, scale: int) {
    predicate WellFormed() {
      Normal? ==> Digits(digits) && digits != [] && digits[0] != ZERO && digits[|digits| - 1] != ZERO
    }

    ghost function Value(): real
      requires WellFormed()
    {
      if Nought? then 0.0 else Signed(neg, Nat(digits), scale)
    }

    /** The exponent of the leading digit. */
    function Exponent(): int
      requires Normal?
    {
      |digits| - 1 + scale
    }
  }

  /** The number with coefficient c and exponent e. */
  ghost function Signed(neg: bool, c: nat, e: int): real {
    var x := c as real * Ten(e);
    if neg then -x else x
  }

  lemma Cancel(x: real, y: real, t: real)
    requires t > 0.0 && x * t == y * t
    ensures x == y
  {
  }

  lemma CancelLess(x: real, y: real, t: real)
    requires t > 0.0
    ensures x * t < y * t <==> x < y
  {
  }

  lemma PositiveProduct(c: nat, t: real)
    requires c > 0 && t > 0.0
    ensures c as real * t > 0.0
  {
  }

  lemma NormalSign(a: Normal)
    requires a.WellFormed() && a.Normal?
    ensures Nat(a.digits) > 0
    ensures a.neg ==> a.Value() < 0.0
    ensures !a.neg ==> a.Value() > 0.0
  {
    NatAtLeast(a.digits);
    PositiveProduct(Nat(a.digits), Ten(a.scale));
  }

  /** A value has one normal form. */
  lemma NormalUnique(a: Normal, b: Normal)
    requires a.WellFormed() && b.WellFormed()
    ensures a.Value() == b.Value() <==> a == b
  {
    hide Ten, Nat, Normal.WellFormed;
    if a.Normal? {
      NormalSign(a);
    }
    if b.Normal? {
      NormalSign(b);
    }
    if a.Normal? && b.Normal? && a.Value() == b.Value() {
      assert Normal(false, a.digits, a.scale).WellFormed() by { Unsigned(a); }
      assert Normal(false, b.digits, b.scale).WellFormed() by { Unsigned(b); }
      if a.scale <= b.scale {
        SameMagnitude(a.digits, a.scale, b.digits, b.scale);
      } else {
        SameMagnitude(b.digits, b.scale, a.digits, a.scale);
      }
    }
  }

  lemma Unsigned(a: Normal)
    requires a.WellFormed() && a.Normal?
    ensures Normal(false, a.digits, a.scale).WellFormed()
  {
  }

  lemma SameMagnitude(d: seq<byte>, s: int, d': seq<byte>, s': int)
    requires Normal(false, d, s).WellFormed() && Normal(false, d', s').WellFormed() && s <= s'
    requires Nat(d) as real * Ten(s) == Nat(d') as real * Ten(s')
    ensures d == d' && s == s'
  {
    hide Ten, Nat, Pow10;
    var k := s' - s;
    ScaledAlike(Nat(d), Nat(d'), s, k);
    if k > 0 {
      LastDigit(d, Nat(d'), k);
    } else {
      Pow10Zero();
      SameDigits(d, d');
    }
  }

  lemma ScaledAlike(c: nat, c': nat, s: int, k: nat)
    requires c as real * Ten(s) == c' as real * Ten(s + k)
    ensures c == c' * Pow10(k)
  {
    hide Ten, Pow10;
    TenSum(s, k);
    Regroup(c', Ten(s), Pow10(k));
    Cancel(c as real, (c' * Pow10(k)) as real, Ten(s));
  }

  lemma Pow10Zero()
    ensures Pow10(0) == 1
  {
  }

  lemma Regroup(c: nat, t: real, p: nat)
    ensures c as real * (t * p as real) == (c * p) as real * t
  {
  }

  lemma LastDigit(d: seq<byte>, m: nat, k: nat)
    requires Digits(d) && d != [] && k > 0 && Nat(d) == m * Pow10(k)
    ensures d[|d| - 1] == ZERO
  {
    Shift(m, Pow10(k - 1), 0);
    TenMultiple(Nat(d[..|d| - 1]), d[|d| - 1] as int - ZERO as int, m * Pow10(k - 1));
  }

  lemma TenMultiple(q: int, x: int, y: int)
    requires 0 <= x < 10 && 10 * q + x == 10 * y
    ensures x == 0
  {
  }

  lemma SameDigits(d: seq<byte>, d': seq<byte>)
    requires Digits(d) && Digits(d') && d != [] && d' != [] && d[0] != ZERO && d'[0] != ZERO
    requires Nat(d) == Nat(d')
    ensures d == d'
  {
    SameLength(d, d');
    SameLength(d', d);
    NatOrder(d, d');
  }

  lemma SameLength(d: seq<byte>, d': seq<byte>)
    requires Digits(d) && Digits(d') && d' != [] && d'[0] != ZERO && Nat(d') <= Nat(d)
    ensures |d'| <= |d|
  {
    hide Nat, Pow10;
    NatAtLeast(d');
    NatBound(d);
    if |d| <= |d'| - 1 {
      Pow10Grows(|d|, |d'| - 1);
    }
  }

  lemma {:induction false} Pow10Grows(a: nat, b: nat)
    requires a <= b
    ensures Pow10(a) <= Pow10(b)
  {
    if a < b {
      Pow10Grows(a, b - 1);
    }
  }

  // -------------------------------------------------------------- normalization

  predicate ZerosIn(d: seq<byte>, from: nat, to: nat)
    requires to <= |d|
  {
    forall i | from <= i < to :: d[i] == ZERO
  }

  /** The length of the leading run of zeros. */
  function LeadingZeros(d: seq<byte>): (n: nat)
    ensures n <= |d| && ZerosIn(d, 0, n)
    ensures n < |d| ==> d[n] != ZERO
  {
    if d == [] || d[0] != ZERO then 0
    else
      var n := LeadingZeros(d[1..]);
      assert forall i | 0 < i <= n :: d[i] == d[1..][i - 1];
      1 + n
  }

  function TrailingZeros(d: seq<byte>): (n: nat)
    ensures n <= |d| && ZerosIn(d, |d| - n, |d|)
    ensures n < |d| ==> d[|d| - 1 - n] != ZERO
  {
    if d == [] || d[|d| - 1] != ZERO then 0
    else 1 + TrailingZeros(d[..|d| - 1])
  }

  /** The normal form of digits d scaled by exponent e. */
  function Normalize(neg: bool, d: seq<byte>, e: int): (r: Normal)
    requires Digits(d)
    ensures r.WellFormed()
  {
    var lead, trail := LeadingZeros(d), TrailingZeros(d);
    if lead == |d| then Nought else Normal(neg, d[lead..|d| - trail], e + trail)
  }

  /** Stripping zeros keeps the value. */
  lemma NormalizeValue(neg: bool, d: seq<byte>, e: int)
    requires Digits(d)
    ensures Normalize(neg, d, e).Value() == Signed(neg, Nat(d), e)
  {
    hide Ten, Nat, Pow10, LeadingZeros, TrailingZeros, Signed;
    var lead, trail := LeadingZeros(d), TrailingZeros(d);
    if lead == |d| {
      AllZeros(d);
      SignedZero(neg, e);
    } else {
      Stripped(d, lead, trail);
      SignedShift(neg, Nat(d[lead..|d| - trail]), e, trail);
    }
  }

  lemma AllZeros(d: seq<byte>)
    requires LeadingZeros(d) == |d|
    ensures Digits(d) && Nat(d) == 0
  {
    hide Nat;
    assert d == Zeros(|d|);
    NatOfZeros(d);
  }

  lemma SignedZero(neg: bool, e: int)
    ensures Signed(neg, 0, e) == 0.0
  {
  }

  lemma SignedShift(neg: bool, c: nat, e: int, k: nat)
    ensures Signed(neg, c, e + k) == Signed(neg, c * Pow10(k), e)
  {
    hide Ten, Pow10;
    TenSum(e, k);
    Regroup(c, Ten(e), Pow10(k));
  }

  lemma Stripped(d: seq<byte>, lead: nat, trail: nat)
    requires Digits(d) && lead + trail <= |d|
    requires ZerosIn(d, 0, lead) && ZerosIn(d, |d| - trail, |d|)
    ensures Digits(d[lead..|d| - trail]) && Nat(d) == Nat(d[lead..|d| - trail]) * Pow10(trail)
  {
    hide Nat, Pow10;
    var core := d[lead..|d| - trail];
    NatOfZeros(Zeros(lead));
    NatOfZeros(Zeros(trail));
    assert d == Zeros(lead) + (core + Zeros(trail));
    NatConcat(core, Zeros(trail));
    NatConcat(Zeros(lead), core + Zeros(trail));
  }
}
