/** The number tokens of JSON (RFC 8259, section 6) and the scanner's check of
    non-string scalar tokens (engine/payload.go:224-267). A token is a number
    when it is the spelling of a well-formed `Number`. */
module JsonNumber {
  import opened Bytes
  import opened Options

  const PLUS: byte := 43
  const MINUS: byte := 45
  const DOT: byte := 46
  const ZERO: byte := 48
  const NINE: byte := 57
  const UPPER_E: byte := 69
  const LOWER_E: byte := 101

  const TRUE: seq<byte> := [116, 114, 117, 101]
  const FALSE: seq<byte> := [102, 97, 108, 115, 101]
  const NULL: seq<byte> := [110, 117, 108, 108]

  predicate Digit(c: byte) {
    ZERO <= c <= NINE
  }

  predicate Digits(s: seq<byte>) {
    forall i | 0 <= i < |s| :: Digit(s[i])
  }

  predicate Mark(c: byte) {
    c == LOWER_E || c == UPPER_E
  }

  predicate Sign(c: byte) {
    c == PLUS || c == MINUS
  }

  // ------------------------------------------------------------------ grammar

  datatype Exponent = NoExp | Exp(mark: byte, sign: seq<byte>, digits: seq<byte>) {
    predicate WellFormed() {
      Exp? ==> Mark(mark) && |sign| <= 1 && (sign != [] ==> Sign(sign[0])) && digits != [] && Digits(digits)
    }

    function Spell(): seq<byte> {
      if NoExp? then [] else [mark] + sign + digits
    }
  }

  /** number = [ minus ] int [ frac ] [ exp ]; frac is empty when absent. */
  datatype Number = Number(neg: bool, whole: seq<byte>, frac: seq<byte>, exp: Exponent) {
    predicate WellFormed() {
      && whole != [] && Digits(whole) && (whole[0] == ZERO ==> |whole| == 1)
      && Digits(frac)
      && exp.WellFormed()
    }

    function Spell(): seq<byte> {
      (if neg then [MINUS] else []) + whole + SpellTail(frac, exp)
    }
  }

  function SpellTail(frac: seq<byte>, exp: Exponent): seq<byte> {
    (if frac == [] then [] else [DOT] + frac) + exp.Spell()
  }

  ghost predicate IsNumber(tok: seq<byte>) {
    exists n: Number :: n.WellFormed() && n.Spell() == tok
  }

  /** The non-string scalar tokens. */
  ghost predicate IsScalar(tok: seq<byte>) {
    tok == TRUE || tok == FALSE || tok == NULL || IsNumber(tok)
  }

  // ------------------------------------------------------------------ reading

  /** The length of the leading run of digits. */
  function Run(s: seq<byte>): (n: nat)
    ensures n <= |s|
  {
    if s == [] || !Digit(s[0]) then 0 else 1 + Run(s[1..])
  }

  lemma {:induction false} RunIs(s: seq<byte>, n: nat)
    requires n <= |s|
    ensures Run(s) == n <==> Digits(s[..n]) && (n == |s| || !Digit(s[n]))
  {
    if s != [] && Digit(s[0]) {
      if n > 0 {
        RunIs(s[1..], n - 1);
        assert s[..n] == [s[0]] + s[1..][..n - 1];
      }
    } else if n > 0 {
      assert s[..n][0] == s[0];
    }
  }

  function ReadExp(s: seq<byte>): Option<Exponent> {
    if s == [] then Some(NoExp)
    else if !Mark(s[0]) then None
    else
      var signed := if |s| > 1 && Sign(s[1]) then 1 else 0;
      var digits := s[1 + signed..];
      if digits != [] && Run(digits) == |digits| then Some(Exp(s[0], s[1..1 + signed], digits)) else None
  }

  function ReadTail(s: seq<byte>): Option<(seq<byte>, Exponent)> {
    var n := if s != [] && s[0] == DOT then Run(s[1..]) else 0;
    if s != [] && s[0] == DOT && n == 0 then None
    else
      var frac := if n == 0 then [] else s[1..1 + n];
      var exp := ReadExp(if n == 0 then s else s[1 + n..]);
      if exp.None? then None else Some((frac, exp.value))
  }

  function Read(tok: seq<byte>): Option<Number> {
    var neg := tok != [] && tok[0] == MINUS;
    var s := if neg then tok[1..] else tok;
    var n := Run(s);
    if n == 0 || (s[0] == ZERO && n > 1) then None
    else
      var tail := ReadTail(s[n..]);
      if tail.None? then None else Some(Number(neg, s[..n], tail.value.0, tail.value.1))
  }

  lemma ReadExpIs(s: seq<byte>, e: Exponent)
    ensures ReadExp(s) == Some(e) <==> e.WellFormed() && e.Spell() == s
  {
    if ReadExp(s) == Some(e) && e.Exp? {
      RunIs(e.digits, |e.digits|);
      assert s == [e.mark] + e.sign + e.digits;
    }
    if e.WellFormed() && e.Spell() == s && e.Exp? {
      RunIs(e.digits, |e.digits|);
      assert s[1 + |e.sign|..] == e.digits && s[1..1 + |e.sign|] == e.sign;
      assert |e.sign| == 1 ==> s[1] == e.sign[0];
    }
  }

  lemma ReadTailSpells(s: seq<byte>)
    requires ReadTail(s).Some?
    ensures var (frac, e) := ReadTail(s).value;
            Digits(frac) && e.WellFormed() && SpellTail(frac, e) == s
  {
    hide Digits, Run, ReadExp, Exponent.WellFormed, Exponent.Spell;
    var (frac, e) := ReadTail(s).value;
    if s != [] && s[0] == DOT {
      RunIs(s[1..], |frac|);
      assert s[1..][..|frac|] == frac;
      ReadExpIs(s[1 + |frac|..], e);
      assert s == [DOT] + frac + s[1 + |frac|..];
    } else {
      ReadExpIs(s, e);
      NoDigits();
    }
  }

  lemma NoDigits()
    ensures Digits([])
  {
  }

  lemma ExpStart(e: Exponent)
    requires e.WellFormed()
    ensures e.Spell() == [] || (Mark(e.Spell()[0]) && !Digit(e.Spell()[0]) && e.Spell()[0] != DOT)
  {
  }

  lemma SpellTailReads(frac: seq<byte>, e: Exponent)
    requires Digits(frac) && e.WellFormed()
    ensures ReadTail(SpellTail(frac, e)) == Some((frac, e))
  {
    hide Digits, Run, ReadExp, Exponent.WellFormed, Exponent.Spell;
    var s := SpellTail(frac, e);
    var x := e.Spell();
    ReadExpIs(x, e);
    ExpStart(e);
    if frac == [] {
      assert s == x;
    } else {
      assert s[1..] == frac + x && s[1..][..|frac|] == frac;
      RunIs(s[1..], |frac|);
      assert s[1 + |frac|..] == x;
    }
  }

  lemma ReadSpells(tok: seq<byte>)
    requires Read(tok).Some?
    ensures Read(tok).value.WellFormed() && Read(tok).value.Spell() == tok
  {
    hide Digits, Run, ReadTail, Exponent.WellFormed, SpellTail;
    var neg := tok != [] && tok[0] == MINUS;
    var s := if neg then tok[1..] else tok;
    var n := Read(tok).value;
    var k := Run(s);
    RunIs(s, k);
    ReadTailSpells(s[k..]);
    assert s == n.whole + s[k..];
  }

  lemma WholeStart(whole: seq<byte>)
    requires whole != [] && Digits(whole)
    ensures Digit(whole[0])
  {
  }

  lemma TailStart(frac: seq<byte>, e: Exponent)
    requires e.WellFormed()
    ensures SpellTail(frac, e) == [] || !Digit(SpellTail(frac, e)[0])
  {
    ExpStart(e);
  }

  lemma SpellReads(n: Number)
    requires n.WellFormed()
    ensures Read(n.Spell()) == Some(n)
  {
    hide Digits, Run, ReadTail, Exponent.WellFormed, SpellTail;
    var tok, tail := n.Spell(), SpellTail(n.frac, n.exp);
    WholeStart(n.whole);
    TailStart(n.frac, n.exp);
    SpellTailReads(n.frac, n.exp);
    var s := n.whole + tail;
    assert tok == if n.neg then [MINUS] + s else s;
    assert s[..|n.whole|] == n.whole && s[|n.whole|..] == tail;
    RunIs(s, |n.whole|);
  }

  /** A number token is read in exactly one way. */
  lemma NumberIsRead(tok: seq<byte>)
    ensures IsNumber(tok) <==> Read(tok).Some?
  {
    if IsNumber(tok) {
      var n: Number :| n.WellFormed() && n.Spell() == tok;
      SpellReads(n);
    }
    if Read(tok).Some? {
      ReadSpells(tok);
    }
  }

  // ---------------------------------------------------------------- the checks

  /** Advances over digits. */
  method SkipDigits(tok: seq<byte>, start: nat) returns (i: nat)
    requires start <= |tok|
    ensures i == start + Run(tok[start..]) && i <= |tok|
  {
    i := start;
    while i < |tok| && Digit(tok[i])
      invariant start <= i <= |tok|
      invariant Digits(tok[start..i])
    {
      assert tok[start..i + 1] == tok[start..i] + [tok[i]];
      i := i + 1;
    }
    ghost var s := tok[start..];
    assert s[..i - start] == tok[start..i];
    assert i < |tok| ==> s[i - start] == tok[i];
    RunIs(s, i - start);
  }

  /** Advances over an optional exponent. */
  method SkipExp(tok: seq<byte>, start: nat) returns (ok: bool, i: nat)
    requires start <= |tok|
    ensures i <= |tok|
    ensures ok && i == |tok| <==> ReadExp(tok[start..]).Some?
  {
    i := start;
    if i < |tok| && Mark(tok[i]) {
      i := i + 1;
      if i < |tok| && Sign(tok[i]) {
        i := i + 1;
      }
      var digits := i;
      i := SkipDigits(tok, i);
      assert tok[start..][digits - start..] == tok[digits..];
      return i > digits, i;
    }
    return true, i;
  }

  /** Checks what follows the whole part, to the end of the token. */
  method ValidTail(tok: seq<byte>, start: nat) returns (ok: bool)
    requires start <= |tok|
    ensures ok <==> ReadTail(tok[start..]).Some?
  {
    hide ReadExp, Run;
    var i := start;
    ghost var tail := tok[start..];
    if i < |tok| && tok[i] == DOT {
      i := i + 1;
      assert tail[1..] == tok[i..];
      var digits := i;
      i := SkipDigits(tok, i);
      assert tail[1 + (i - digits)..] == tok[i..];
      if i == digits {
        return false;
      }
    }
    ok, i := SkipExp(tok, i);
    ok := ok && i == |tok|;
  }

  /** The scanner's scalar check accepts exactly the scalar tokens. */
  method ValidScalarToken(tok: seq<byte>) returns (ok: bool)
    ensures ok <==> IsScalar(tok)
  {
    hide ReadTail;
    NumberIsRead(tok);
    if tok == TRUE || tok == FALSE || tok == NULL {
      return true;
    }
    var i := 0;
    if i < |tok| && tok[i] == MINUS {
      i := i + 1;
    }
    ghost var whole := i;
    ghost var s := tok[i..];
    if i >= |tok| {
      return false;
    } else if tok[i] == ZERO {
      i := i + 1;
      LeadingZero(s);
    } else if 49 <= tok[i] <= NINE {
      i := SkipDigits(tok, i);
    } else {
      return false;
    }
    assert s[i - whole..] == tok[i..];
    ok := ValidTail(tok, i);
  }

  /** After a leading zero no digit may follow; the tail check sees to it. */
  lemma LeadingZero(s: seq<byte>)
    requires s != [] && s[0] == ZERO
    ensures Run(s) >= 1
    ensures Run(s) > 1 ==> ReadTail(s[1..]).None?
    ensures Run(s) > 1 || s[1..] == s[Run(s)..]
  {
  }
}
