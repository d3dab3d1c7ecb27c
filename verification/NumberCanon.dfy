/** The number canonicalizer as the program runs it (engine/typed_filter.go:
    494-632): one pass over the token finds its parts, one over its digits
    finds the significant ones, and the output is appended piece by piece. */
module NumberCanon {
  import opened Bytes
  import opened JsonNumber
  import opened Decimal
  import opened Numbers
  import opened Options

  datatype Scan = Scan(neg: bool, intStart: nat, intEnd: nat, fracStart: nat, fracEnd: nat, exp: int)

  ghost predicate Parts(tok: seq<byte>, s: Scan, n: Number) {
    && s.intStart <= s.intEnd <= s.fracStart <= s.fracEnd <= |tok|
    && s.intStart < s.intEnd
    && n.neg == s.neg
    && n.whole == tok[s.intStart..s.intEnd]
    && n.frac == tok[s.fracStart..s.fracEnd]
    && n.exp.WellFormed()
    && s.exp == CappedExpOf(n.exp)
  }

  // ------------------------------------------------------------------- scanning

  /** Reads exponent digits; past a million it stops counting. */
  method ScanExpDigits(tok: seq<byte>, start: nat) returns (exp: nat, i: nat)
    requires start <= |tok|
    ensures i == start + Run(tok[start..]) && i <= |tok|
    ensures Digits(tok[start..i]) && exp == Cap(Nat(tok[start..i]))
  {
    i, exp := start, 0;
    while i < |tok| && Digit(tok[i])
      invariant start <= i <= |tok| && Digits(tok[start..i])
      invariant exp <= EXP_CAP ==> exp == Nat(tok[start..i])
      invariant exp > EXP_CAP ==> Nat(tok[start..i]) > EXP_CAP
    {
      assert tok[start..i + 1] == tok[start..i] + [tok[i]];
      NatPush(tok[start..i], Nat(tok[start..i]), tok[start..i + 1]);
      if exp <= EXP_CAP {
        exp := exp * 10 + (tok[i] - ZERO);
      }
      i := i + 1;
    }
    ghost var s := tok[start..];
    assert s[..i - start] == tok[start..i];
    assert i < |tok| ==> s[i - start] == tok[i];
    RunIs(s, i - start);
    if exp > EXP_CAP {
      exp := EXP_CAP + 1;
    }
  }

  method ScanExp(tok: seq<byte>, start: nat) returns (ok: bool, exp: int)
    requires start <= |tok|
    ensures ok <==> ReadExp(tok[start..]).Some?
    ensures ok ==> ReadExp(tok[start..]).value.WellFormed() && exp == CappedExpOf(ReadExp(tok[start..]).value)
  {
    hide Run, Digits;
    ok, exp := true, 0;
    var i := start;
    ghost var s := tok[start..];
    if i < |tok| && Mark(tok[i]) {
      i := i + 1;
      var expNegative := false;
      if i < |tok| && Sign(tok[i]) {
        expNegative := tok[i] == MINUS;
        i := i + 1;
      }
      var digits := i;
      exp, i := ScanExpDigits(tok, i);
      assert s[digits - start..] == tok[digits..];
      if i == digits {
        return false, 0;
      }
      if i == |tok| {
        assert tok[digits..i] == tok[digits..];
        ReadExpIs(s, Exp(s[0], s[1..digits - start], tok[digits..]));
        if digits - start == 2 {
          assert s[1..2] == [tok[start + 1]];
        }
        assert s == [s[0]] + s[1..digits - start] + tok[digits..];
      }
      if expNegative {
        exp := -exp;
      }
    }
    ok := i == |tok|;
  }

  method ScanTail(tok: seq<byte>, start: nat) returns (ok: bool, fracStart: nat, fracEnd: nat, exp: int)
    requires start <= |tok|
    ensures ok <==> ReadTail(tok[start..]).Some?
    ensures start <= fracStart <= fracEnd <= |tok|
    ensures ok ==> var (frac, e) := ReadTail(tok[start..]).value;
                   frac == tok[fracStart..fracEnd] && e.WellFormed() && exp == CappedExpOf(e)
  {
    hide Run, ReadExp, CappedExpOf;
    ok, fracStart, fracEnd, exp := false, start, start, 0;
    var i := start;
    ghost var tail := tok[start..];
    if i < |tok| && tok[i] == DOT {
      i := i + 1;
      fracStart := i;
      assert tail[1..] == tok[fracStart..];
      i := SkipDigits(tok, i);
      fracEnd := i;
      assert tail[1 + (i - fracStart)..] == tok[i..];
      assert tail[1..1 + (i - fracStart)] == tok[fracStart..i];
      if i == fracStart {
        return;
      }
    }
    ok, exp := ScanExp(tok, i);
  }

  /** Finds the parts of a number token, or rejects it. */
  method ScanNumber(tok: seq<byte>) returns (ok: bool, s: Scan)
    ensures ok <==> Read(tok).Some?
    ensures ok ==> Parts(tok, s, Read(tok).value)
  {
    hide Run, ReadTail, CappedExpOf;
    ok, s := false, Scan(false, 0, 0, 0, 0, 0);
    if |tok| == 0 {
      RunOfEmpty();
      return;
    }
    var i := 0;
    var negative := tok[i] == MINUS;
    if negative {
      i := i + 1;
      if i == |tok| {
        RunOfEmpty();
        return;
      }
    }
    var intStart := i;
    ghost var rest := tok[intStart..];
    RunStarts(rest);
    if tok[i] == ZERO {
      i := i + 1;
      ZeroRun(rest);
      if i < |tok| && Digit(tok[i]) {
        return;
      }
    } else if 49 <= tok[i] <= NINE {
      i := SkipDigits(tok, i);
    } else {
      return;
    }
    assert rest[i - intStart..] == tok[i..] && rest[..i - intStart] == tok[intStart..i];
    var fracStart, fracEnd, exp;
    ok, fracStart, fracEnd, exp := ScanTail(tok, i);
    s := Scan(negative, intStart, i, fracStart, fracEnd, exp);
  }

  lemma RunOfEmpty()
    ensures Run([]) == 0
  {
  }

  lemma RunStarts(s: seq<byte>)
    requires s != []
    ensures Run(s) > 0 <==> Digit(s[0])
  {
  }

  lemma ZeroRun(s: seq<byte>)
    requires s != [] && Digit(s[0])
    ensures Run(s) == 1 <==> |s| == 1 || !Digit(s[1])
  {
    assert s[1..] == [] || s[1..][0] == s[1];
  }

  // ------------------------------------------------------- significant digits

  /** The digits seen so far and where the non-zero ones lie. */
  datatype Ends = Ends(found: bool, first: nat, last: nat)

  ghost predicate Marks(p: seq<byte>, e: Ends) {
    if e.found then
      && e.first <= e.last < |p|
      && p[e.first] != ZERO && ZerosIn(p, 0, e.first)
      && p[e.last] != ZERO && ZerosIn(p, e.last + 1, |p|)
    else ZerosIn(p, 0, |p|)
  }

  /** Extends the marks over tok[start..end]. */
  method Visit(tok: seq<byte>, start: nat, end: nat, ghost before: seq<byte>, digitOrdinal: nat, ends: Ends)
    returns (ordinal: nat, e: Ends)
    requires start <= end <= |tok| && Marks(before, ends) && digitOrdinal == |before|
    ensures Marks(before + tok[start..end], e) && ordinal == |before + tok[start..end]|
  {
    ordinal, e := digitOrdinal, ends;
    assert before + tok[start..start] == before;
    for p := start to end
      invariant ordinal == |before| + (p - start)
      invariant Marks(before + tok[start..p], e)
    {
      assert before + tok[start..p + 1] == (before + tok[start..p]) + [tok[p]];
      if tok[p] != ZERO {
        e := Ends(true, if e.found then e.first else ordinal, ordinal);
      }
      ordinal := ordinal + 1;
    }
  }

  /** The marks locate the normal form's digits. */
  lemma MarksAreEnds(d: seq<byte>, e: Ends)
    requires Marks(d, e)
    ensures e.found <==> LeadingZeros(d) < |d|
    ensures e.found ==> e.first == LeadingZeros(d) && |d| - 1 - e.last == TrailingZeros(d)
  {
    hide LeadingZeros, TrailingZeros;
  }

  // --------------------------------------------------------------------- output

  /** The part of s between positions x and y, as far as s reaches. */
  function Window(s: seq<byte>, x: int, y: int): seq<byte>
    requires x <= y
  {
    if y <= 0 || x >= |s| then [] else s[(if x < 0 then 0 else x)..(if y > |s| then |s| else y)]
  }

  lemma WindowGrows(s: seq<byte>, c: byte, x: int, y: int)
    requires x <= y
    ensures Window(s + [c], x, y) == Window(s, x, y) + if x <= |s| < y then [c] else []
  {
  }

  /** Appends the digits of tok[start..end] whose ordinal lies in first..last. */
  method AppendRange(tok: seq<byte>, start: nat, end: nat, offset: nat, first: nat, last: nat, digits: seq<byte>)
    returns (r: seq<byte>)
    requires start <= end <= |tok| && first <= last
    ensures r == digits + Window(tok[start..end], first - offset, last + 1 - offset)
  {
    hide Window;
    r := digits;
    WindowOfNothing(first - offset, last + 1 - offset);
    assert tok[start..start] == [];
    for p := start to end
      invariant r == digits + Window(tok[start..p], first - offset, last + 1 - offset)
    {
      var ordinal := p - start + offset;
      assert tok[start..p + 1] == tok[start..p] + [tok[p]];
      WindowGrows(tok[start..p], tok[p], first - offset, last + 1 - offset);
      if first <= ordinal <= last {
        r := r + [tok[p]];
      }
    }
  }

  lemma WindowOfNothing(x: int, y: int)
    requires x <= y
    ensures Window([], x, y) == []
  {
  }

  method AppendZeros(dst: seq<byte>, k: nat) returns (r: seq<byte>)
    ensures r == dst + Zeros(k)
  {
    r := dst;
    for i := 0 to k
      invariant r == dst + Zeros(i)
    {
      r := r + [ZERO];
    }
  }

  /** Writes digits with the decimal point after decimalPos of them. */
  method WriteFixed(negative: bool, digits: seq<byte>, decimalPos: int) returns (out: seq<byte>)
    requires digits != []
    ensures out == Fixed(Normal(negative, digits, decimalPos - |digits|)).Spell()
  {
    hide Fixed, Zeros, Number.Spell;
    out := if negative then [MINUS] else [];
    FixedShapes(negative, digits, decimalPos);
    if decimalPos <= 0 {
      out := out + [ZERO, DOT];
      out := AppendZeros(out, -decimalPos);
      out := out + digits;
    } else if decimalPos >= |digits| {
      out := out + digits;
      out := AppendZeros(out, decimalPos - |digits|);
    } else {
      out := out + digits[..decimalPos];
      out := out + [DOT];
      out := out + digits[decimalPos..];
    }
  }

  /** The three shapes of plain notation. */
  lemma FixedShapes(negative: bool, digits: seq<byte>, pos: int)
    requires digits != []
    ensures var sign := if negative then [MINUS] else [];
            Fixed(Normal(negative, digits, pos - |digits|)).Spell() ==
            if pos <= 0 then sign + [ZERO, DOT] + Zeros(-pos) + digits
            else if pos >= |digits| then sign + digits + Zeros(pos - |digits|)
            else sign + digits[..pos] + [DOT] + digits[pos..]
  {
    hide Zeros;
    var sign := if negative then [MINUS] else [];
    if pos <= 0 {
      SmallShape(sign, Zeros(-pos), digits);
    } else if pos < |digits| {
      assert sign + digits[..pos] + ([DOT] + digits[pos..]) == sign + digits[..pos] + [DOT] + digits[pos..];
    }
  }

  lemma SmallShape(sign: seq<byte>, zeros: seq<byte>, digits: seq<byte>)
    ensures sign + [ZERO] + ([DOT] + (zeros + digits)) == sign + [ZERO, DOT] + zeros + digits
  {
  }

  /** The canonicalizer computes `Canonicalize`. */
  method CanonicalNumberTokenBytes(tok: seq<byte>, request: bool) returns (o: Outcome)
    ensures o == Canonicalize(tok, request)
  {
    hide Read, Fixed, NormalAt, CappedExpOf, Zeros;
    if request && |tok| > MAX_BYTES {
      return Invalid;
    }
    var ok, s := ScanNumber(tok);
    if !ok {
      return Invalid;
    }
    ghost var n := Read(tok).value;
    ReadSpells(tok);
    var ordinal, e := Visit(tok, s.intStart, s.intEnd, [], 0, Ends(false, 0, 0));
    assert [] + n.whole == n.whole;
    ordinal, e := Visit(tok, s.fracStart, s.fracEnd, n.whole, ordinal, e);
    Located(n, s.exp, e);
    o := WriteNumber(tok, s, n, e, request);
  }

  method WriteNumber(tok: seq<byte>, s: Scan, ghost n: Number, e: Ends, request: bool) returns (o: Outcome)
    requires n.WellFormed() && Parts(tok, s, n) && Marks(n.whole + n.frac, e)
    ensures o == Written(NormalAt(n, s.exp), request)
  {
    hide Fixed, NormalAt, CappedExpOf, Zeros, Number.WellFormed, Marks, Parts;
    PartLengths(tok, s, n);
    Located(n, s.exp, e);
    if !e.found {
      WrittenNought(request);
      return Canonical([ZERO]);
    }
    var significant := e.last - e.first + 1;
    var fracDigits := s.fracEnd - s.fracStart;
    var totalDigits := (s.intEnd - s.intStart) + fracDigits;
    var trailingZeros := totalDigits - 1 - e.last;
    var scaleExp := s.exp - fracDigits + trailingZeros;
    var mathExp := significant - 1 + scaleExp;
    ghost var r := NormalAt(n, s.exp);
    assert |r.digits| == significant && r.scale == scaleExp && r.Exponent() == mathExp;
    if significant > MAX_SIGNIFICANT {
      return if request then Invalid else Uncomparable;
    }
    if mathExp < -MAX_EXPONENT || mathExp > MAX_EXPONENT {
      return if request then Invalid else Uncomparable;
    }
    var digits := GatherDigits(tok, s, n, e);
    var out := WriteFixed(s.neg, digits, |digits| + scaleExp);
    return Canonical(out);
  }

  method GatherDigits(tok: seq<byte>, s: Scan, ghost n: Number, e: Ends) returns (digits: seq<byte>)
    requires Parts(tok, s, n) && e.first <= e.last < |n.whole| + |n.frac|
    ensures digits == (n.whole + n.frac)[e.first..e.last + 1]
  {
    hide CappedExpOf, Window;
    digits := AppendRange(tok, s.intStart, s.intEnd, 0, e.first, e.last, []);
    digits := AppendRange(tok, s.fracStart, s.fracEnd, s.intEnd - s.intStart, e.first, e.last, digits);
    Straddle(n.whole, n.frac, e.first, e.last + 1);
  }

  lemma WrittenNought(request: bool)
    ensures Written(Nought, request) == Canonical([ZERO])
  {
  }

  lemma Located(n: Number, exp: int, e: Ends)
    requires n.WellFormed() && Marks(n.whole + n.frac, e)
    ensures var d := n.whole + n.frac;
            if e.found then
              e.first <= e.last < |d| &&
              NormalAt(n, exp) == Normal(n.neg, d[e.first..e.last + 1], exp - |n.frac| + (|d| - 1 - e.last))
            else NormalAt(n, exp) == Nought
  {
    hide LeadingZeros, TrailingZeros;
    MarksAreEnds(n.whole + n.frac, e);
  }

  /** A window over a concatenation is a window over each half. */
  lemma Straddle(a: seq<byte>, b: seq<byte>, x: nat, y: nat)
    requires x < y <= |a| + |b|
    ensures (a + b)[x..y] == Window(a, x, y) + Window(b, x - |a|, y - |a|)
  {
    if y <= |a| {
      assert (a + b)[x..y] == a[x..y] + [];
    } else if x >= |a| {
      assert (a + b)[x..y] == [] + b[x - |a|..y - |a|];
    } else {
      assert (a + b)[x..y] == a[x..] + b[..y - |a|];
    }
  }

  lemma PartLengths(tok: seq<byte>, s: Scan, n: Number)
    requires Parts(tok, s, n)
    ensures n.neg == s.neg && s.intEnd - s.intStart == |n.whole| && s.fracEnd - s.fracStart == |n.frac|
  {
  }
}
