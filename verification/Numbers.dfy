/** Canonical decimal numbers (engine/typed_filter.go:471-686): equal bytes for
    equal numbers, within a precision envelope and up to a clamped exponent. */
module Numbers {
  import opened Bytes
  import opened JsonNumber
  import opened Decimal
  import opened Options

  const MAX_BYTES := 256
  const MAX_SIGNIFICANT := 40
  const MAX_EXPONENT := 200
  const EXP_CAP := 1000000

  // ------------------------------------------------------------ specification

  /** The exponent a token spells. */
  function ExpOf(e: Exponent): int
    requires e.WellFormed()
  {
    if e.NoExp? then 0 else if e.sign == [MINUS] then -(Nat(e.digits) as int) else Nat(e.digits)
  }

  function Cap(x: nat): nat {
    if x > EXP_CAP then EXP_CAP + 1 else x
  }

  /** The exponent the program works with: capped just past a million. */
  function CappedExpOf(e: Exponent): int
    requires e.WellFormed()
  {
    if e.NoExp? then 0 else if e.sign == [MINUS] then -(Cap(Nat(e.digits)) as int) else Cap(Nat(e.digits))
  }

  /** The number a token denotes. */
  ghost function Value(n: Number): real
    requires n.WellFormed()
  {
    DigitsJoin(n.whole, n.frac);
    Signed(n.neg, Nat(n.whole + n.frac), ExpOf(n.exp) - |n.frac|)
  }

  lemma DigitsJoin(a: seq<byte>, b: seq<byte>)
    requires Digits(a) && Digits(b)
    ensures Digits(a + b)
  {
  }

  function NormalAt(n: Number, exp: int): (r: Normal)
    requires n.WellFormed()
    ensures r.WellFormed()
  {
    DigitsJoin(n.whole, n.frac);
    Normalize(n.neg, n.whole + n.frac, exp - |n.frac|)
  }

  function NormalOf(n: Number): (r: Normal)
    requires n.WellFormed()
    ensures r.WellFormed()
  {
    NormalAt(n, ExpOf(n.exp))
  }

  predicate InEnvelope(r: Normal) {
    r.Normal? ==> |r.digits| <= MAX_SIGNIFICANT && -MAX_EXPONENT <= r.Exponent() <= MAX_EXPONENT
  }

  /** Plain decimal notation of a normal form. */
  function Fixed(r: Normal): Number {
    match r
    case Nought => Number(false, [ZERO], [], NoExp)
    case Normal(neg, d, scale) =>
      var pos := |d| + scale;
      if pos <= 0 then Number(neg, [ZERO], Zeros(-pos) + d, NoExp)
      else if pos >= |d| then Number(neg, d + Zeros(scale), [], NoExp)
      else Number(neg, d[..pos], d[pos..], NoExp)
  }

  datatype Outcome = Invalid | Uncomparable | Canonical(text: seq<byte>)

  /** What a normal form within the envelope is written as. */
  function Written(r: Normal, request: bool): Outcome {
    if InEnvelope(r) then Canonical(Fixed(r).Spell()) else if request then Invalid else Uncomparable
  }

  function Canonicalize(tok: seq<byte>, request: bool): Outcome {
    if request && |tok| > MAX_BYTES then Invalid
    else if Read(tok).None? then Invalid
    else
      ReadSpells(tok);
      var n := Read(tok).value;
      Written(NormalAt(n, CappedExpOf(n.exp)), request)
  }

  // ------------------------------------------------------ fixed notation's value

  lemma FixedWellFormed(r: Normal)
    requires r.WellFormed()
    ensures Fixed(r).WellFormed() && ExpOf(Fixed(r).exp) == 0
  {
  }

  /** Plain notation denotes the value of the normal form it was made from. */
  lemma FixedValue(r: Normal)
    requires r.WellFormed()
    ensures Fixed(r).WellFormed() && Value(Fixed(r)) == r.Value()
  {
    hide Nat, Ten, Pow10;
    FixedWellFormed(r);
    match r {
      case Nought =>
        NatOfZeros([ZERO]);
        assert [ZERO] + [] == Zeros(1);
        SignedZero(false, 0);
      case Normal(neg, d, scale) =>
        var pos := |d| + scale;
        var n := Fixed(r);
        if pos <= 0 {
          assert n.whole + n.frac == Zeros(1 - pos) + d;
          NatConcat(Zeros(1 - pos), d);
          NatOfZeros(Zeros(1 - pos));
        } else if pos >= |d| {
          assert n.whole + n.frac == d + Zeros(scale);
          NatConcat(d, Zeros(scale));
          NatOfZeros(Zeros(scale));
          SignedShift(neg, Nat(d), 0, scale);
        } else {
          assert n.whole + n.frac == d;
        }
    }
  }

  lemma NormalOfValue(n: Number)
    requires n.WellFormed()
    ensures NormalOf(n).Value() == Value(n)
  {
    DigitsJoin(n.whole, n.frac);
    NormalizeValue(n.neg, n.whole + n.frac, ExpOf(n.exp) - |n.frac|);
  }

  /** Plain notation reads back as its own normal form. */
  lemma FixedReads(r: Normal)
    requires r.WellFormed()
    ensures Read(Fixed(r).Spell()) == Some(Fixed(r))
    ensures Fixed(r).WellFormed() && NormalOf(Fixed(r)) == r
  {
    hide Nat, Ten, Pow10, Read, Fixed, Normalize;
    FixedValue(r);
    SpellReads(Fixed(r));
    NormalOfValue(Fixed(r));
    NormalUnique(NormalOf(Fixed(r)), r);
  }

  lemma FixedInjective(r: Normal, r': Normal)
    requires r.WellFormed() && r'.WellFormed()
    ensures Fixed(r).Spell() == Fixed(r').Spell() <==> r == r'
  {
    hide Read, Fixed, NormalOf;
    FixedReads(r);
    FixedReads(r');
  }

  // --------------------------------------------------------- the exponent clamp

  /** The exponent of the leading digit, less the exponent spelled. */
  function Lead(n: Number): int
    requires n.WellFormed() && NormalOf(n).Normal?
  {
    NormalOf(n).Exponent() - ExpOf(n.exp)
  }

  /** The clamp changes the outcome: a non-zero number of few digits spells an
      exponent past the cap, and its leading digit is in the envelope, really
      or under the capped exponent. */
  predicate Clipped(n: Number)
    requires n.WellFormed()
  {
    var r := NormalOf(n);
    && r.Normal? && |r.digits| <= MAX_SIGNIFICANT
    && ExpOf(n.exp) != CappedExpOf(n.exp)
    && (-MAX_EXPONENT <= Lead(n) + ExpOf(n.exp) <= MAX_EXPONENT ||
        -MAX_EXPONENT <= Lead(n) + CappedExpOf(n.exp) <= MAX_EXPONENT)
  }

  lemma CappedNormal(n: Number, exp: int)
    requires n.WellFormed()
    ensures var r, c := NormalOf(n), NormalAt(n, exp);
            (r.Nought? && c.Nought?) ||
            (r.Normal? && c == Normal(r.neg, r.digits, r.scale + exp - ExpOf(n.exp)))
  {
    hide LeadingZeros, TrailingZeros;
  }

  /** The program writes a number's true normal form exactly when the clamp
      does not clip it. */
  lemma CanonicalIsTrue(tok: seq<byte>, n: Number)
    requires Read(tok) == Some(n)
    ensures n.WellFormed()
    ensures Canonicalize(tok, false) == Written(NormalOf(n), false) <==> !Clipped(n)
  {
    hide Read, Fixed, NormalOf, NormalAt, ExpOf, CappedExpOf;
    ReadSpells(tok);
    var r, c := NormalOf(n), NormalAt(n, CappedExpOf(n.exp));
    CappedNormal(n, CappedExpOf(n.exp));
    FixedInjective(r, c);
  }

  /** No token shorter than 999,800 bytes is clipped. */
  lemma ShortIsTrue(tok: seq<byte>, n: Number)
    requires Read(tok) == Some(n) && |tok| < 999800
    ensures n.WellFormed() && !Clipped(n)
  {
    hide Read;
    ReadSpells(tok);
    if Clipped(n) {
      LeadBound(n);
    }
  }

  lemma LeadBound(n: Number)
    requires n.WellFormed() && NormalOf(n).Normal?
    ensures -|n.frac| <= Lead(n) <= |n.whole|
    ensures |n.whole| + |n.frac| <= |n.Spell()|
  {
    hide LeadingZeros, TrailingZeros, Nat;
    var d := n.whole + n.frac;
    var lead, trail := LeadingZeros(d), TrailingZeros(d);
    assert |NormalOf(n).digits| == |d| - trail - lead;
  }

  /** Where the clamp bites, a number can be written as a different one: this
      token denotes 1 and gets the bytes of 10. */
  function ClampWitness(): Number {
    Number(false, [49] + Zeros(1000002), [], Exp(LOWER_E, [MINUS], [49, 48, 48, 48, 48, 48, 50]))
  }

  lemma ClampWitnessExponent()
    ensures ClampWitness().WellFormed()
    ensures ExpOf(ClampWitness().exp) == -1000002 && CappedExpOf(ClampWitness().exp) == -1000001
  {
    hide Nat;
    NatPush([], 0, [49]);
    NatPush([49], 1, [49, 48]);
    NatPush([49, 48], 10, [49, 48, 48]);
    NatPush([49, 48, 48], 100, [49, 48, 48, 48]);
    NatPush([49, 48, 48, 48], 1000, [49, 48, 48, 48, 48]);
    NatPush([49, 48, 48, 48, 48], 10000, [49, 48, 48, 48, 48, 48]);
    NatPush([49, 48, 48, 48, 48, 48], 100000, [49, 48, 48, 48, 48, 48, 50]);
  }

  lemma NatPush(d: seq<byte>, v: nat, more: seq<byte>)
    requires Digits(more) && |more| == |d| + 1 && d == more[..|d|]
    requires d == [] || Nat(d) == v
    ensures Nat(more) == (if d == [] then 0 else 10 * v) + (more[|d|] - ZERO)
  {
  }

  lemma ClampWitnessNormal(exp: int)
    ensures ClampWitness().WellFormed()
    ensures NormalAt(ClampWitness(), exp) == Normal(false, [49], exp + 1000002)
  {
    hide LeadingZeros, TrailingZeros, Nat;
    ClampWitnessExponent();
    var n := ClampWitness();
    var d := n.whole + n.frac;
    assert d == [49] + Zeros(1000002);
    var lead, trail := LeadingZeros(d), TrailingZeros(d);
    assert lead == 0 by { assert d[0] == 49; }
    assert trail == 1000002 by {
      assert trail <= 1000002 by { assert d[0] == 49; }
      assert d[|d| - 1 - trail] != ZERO;
    }
    assert d[0..1] == [49];
  }

  lemma ClampGivesWrongNumber()
    ensures var n := ClampWitness();
            && n.WellFormed() && Clipped(n)
            && Value(n) == 1.0
            && Canonicalize(n.Spell(), false) == Canonical([49, ZERO])
  {
    hide Read, Normalize, Nat, Ten;
    var n := ClampWitness();
    ClampWitnessExponent();
    ClampWitnessNormal(-1000002);
    ClampWitnessNormal(-1000001);
    NormalOfValue(n);
    SpellReads(n);
    ReadSpells(n.Spell());
    OneIsOne();
    assert Fixed(Normal(false, [49], 1)).Spell() == [49, ZERO];
  }

  lemma OneIsOne()
    ensures Signed(false, Nat([49]), 0) == 1.0
  {
    assert [49][..0] == [];
  }

  // ------------------------------------------------------------- main properties

  /** The parser rejects exactly the tokens that are not JSON numbers. */
  lemma RejectsOnlyNonNumbers(tok: seq<byte>)
    ensures Canonicalize(tok, false) == Invalid <==> !IsNumber(tok)
  {
    NumberIsRead(tok);
  }

  /** Two in-envelope numbers get the same bytes exactly when they are equal. */
  lemma SameBytesIffEqual(a: seq<byte>, b: seq<byte>, m: Number, n: Number)
    requires Read(a) == Some(m) && Read(b) == Some(n) && |a| < 999800 && |b| < 999800
    ensures m.WellFormed() && n.WellFormed()
    ensures InEnvelope(NormalOf(m)) && InEnvelope(NormalOf(n)) ==>
              (Canonicalize(a, false) == Canonicalize(b, false) <==> Value(m) == Value(n))
  {
    hide Read, Fixed, NormalOf, Clipped;
    ShortIsTrue(a, m);
    ShortIsTrue(b, n);
    CanonicalIsTrue(a, m);
    CanonicalIsTrue(b, n);
    NormalOfValue(m);
    NormalOfValue(n);
    NormalUnique(NormalOf(m), NormalOf(n));
    FixedInjective(NormalOf(m), NormalOf(n));
  }

  /** A canonical form is its own canonical form, in requests and payloads. */
  lemma Idempotent(tok: seq<byte>, request: bool, again: bool)
    ensures var c := Canonicalize(tok, request);
            c.Canonical? ==> Canonicalize(c.text, again) == c
  {
    hide Read, Fixed, NormalAt, CappedExpOf;
    var c := Canonicalize(tok, request);
    if c.Canonical? {
      ReadSpells(tok);
      var n := Read(tok).value;
      var r := NormalAt(n, CappedExpOf(n.exp));
      FixedReads(r);
      FixedShort(r);
    }
  }

  lemma FixedShort(r: Normal)
    requires r.WellFormed() && InEnvelope(r)
    ensures |Fixed(r).Spell()| <= MAX_BYTES
    ensures CappedExpOf(Fixed(r).exp) == ExpOf(Fixed(r).exp) && Fixed(r).exp.WellFormed()
  {
  }

  /** A request number that is accepted is written exactly; the byte limit
      keeps it clear of the clamp. */
  lemma RequestIsTrue(tok: seq<byte>, n: Number)
    requires Read(tok) == Some(n)
    ensures n.WellFormed()
    ensures Canonicalize(tok, true).Canonical? <==> |tok| <= MAX_BYTES && InEnvelope(NormalOf(n))
    ensures Canonicalize(tok, true).Canonical? ==>
              Canonicalize(tok, true) == Canonicalize(tok, false) == Canonical(Fixed(NormalOf(n)).Spell())
  {
    hide Read, Fixed, NormalOf, NormalAt;
    ReadSpells(tok);
    if |tok| <= MAX_BYTES {
      ShortIsTrue(tok, n);
      CanonicalIsTrue(tok, n);
      SameEnvelope(n);
    }
  }

  lemma SameEnvelope(n: Number)
    requires n.WellFormed() && !Clipped(n)
    ensures InEnvelope(NormalOf(n)) <==> InEnvelope(NormalAt(n, CappedExpOf(n.exp)))
  {
    hide LeadingZeros, TrailingZeros, Nat;
    CappedNormal(n, CappedExpOf(n.exp));
  }
}
