/** The payload scanner (engine/payload.go:25-220): a cursor that validates
    JSON without building it. It accepts exactly what the grammar reads. */
module PayloadScan {
  import opened Bytes
  import opened JsonNumber
  import opened JsonGrammar
  import opened JsonReading
  import opened Options

  /** bytes.IndexByte: -1 when absent. */
  method IndexByte(s: seq<byte>, c: byte) returns (k: int)
    ensures -1 <= k < |s|
    ensures k >= 0 ==> s[k] == c && forall j | 0 <= j < k :: s[j] != c
    ensures k < 0 ==> c !in s
  {
    for j := 0 to |s|
      invariant forall h | 0 <= h < j :: s[h] != c
    {
      if s[j] == c {
        return j;
      }
    }
    return -1;
  }

  predicate NoControl(s: seq<byte>) {
    forall j | 0 <= j < |s| :: s[j] >= 32
  }

  method HasControl(s: seq<byte>) returns (r: bool)
    ensures r <==> !NoControl(s)
  {
    for j := 0 to |s|
      invariant NoControl(s[..j])
    {
      if s[j] < 32 {
        return true;
      }
      assert s[..j + 1] == s[..j] + [s[j]];
    }
    assert s[..|s|] == s;
    return false;
  }

  // ----------------------------------------------------- jumping through strings

  predicate Quiet(b: seq<byte>, i: nat, j: nat)
    requires i <= j <= |b|
  {
    forall k | i <= k < j :: b[k] != QUOTE && b[k] != BACKSLASH
  }

  /** A run without quotes or backslashes is stepped over, unless it holds a
      control byte; then the string never ends. */
  lemma {:induction false} RunJump(b: seq<byte>, i: nat, j: nat)
    requires i <= j <= |b| && Quiet(b, i, j)
    ensures StringEnd(b, i) == if NoControl(b[i..j]) then StringEnd(b, j) else None
    decreases j - i
  {
    if i < j {
      assert b[i..][0] == b[i];
      assert b[i..j] == [b[i]] + b[i + 1..j];
      RunJump(b, i + 1, j);
    } else {
      assert b[i..j] == [];
    }
  }

  lemma NoClosingQuote(b: seq<byte>, i: nat)
    requires i <= |b| && QUOTE !in b[i..]
    ensures StringEnd(b, i).None?
  {
    assert forall k | i <= k < |b| :: b[k] in b[i..];
  }

  lemma EscapeJump(b: seq<byte>, e: nat)
    requires e < |b| && b[e] == BACKSLASH
    ensures e + 1 >= |b| ==> StringEnd(b, e).None?
    ensures e + 1 < |b| && ShortEscape(b[e + 1]) ==> StringEnd(b, e) == StringEnd(b, e + 2)
    ensures e + 1 < |b| && !ShortEscape(b[e + 1]) && b[e + 1] != LOWER_U ==> StringEnd(b, e).None?
    ensures e + 1 < |b| && b[e + 1] == LOWER_U && e + 6 > |b| ==> StringEnd(b, e).None?
    ensures e + 6 <= |b| && !ShortEscape(b[e + 1]) && b[e + 1] == LOWER_U ==>
              StringEnd(b, e) == if AllHex(b[e + 2..e + 6]) then StringEnd(b, e + 6) else None
  {
    var s := b[e..];
    assert s[0] == BACKSLASH;
    if e + 6 <= |b| {
      var h := b[e + 2..e + 6];
      assert h[0] == s[2] && h[1] == s[3] && h[2] == s[4] && h[3] == s[5];
    }
  }

  predicate AllHex(h: seq<byte>) {
    forall j | 0 <= j < |h| :: Hex(h[j])
  }

  lemma RestRun(b: seq<byte>, i: nat, n: nat)
    requires i + n <= |b| && Quiet(b[i..], 0, n)
    ensures b[i..][..n] == b[i..i + n]
    ensures StringEnd(b, i) == if NoControl(b[i..i + n]) then StringEnd(b, i + n) else None
  {
    forall k | i <= k < i + n ensures b[k] != QUOTE && b[k] != BACKSLASH {
      assert b[k] == b[i..][k - i];
    }
    RunJump(b, i, i + n);
  }

  // ---------------------------------------------------------- reading past spaces

  ghost function ValueEnd(b: seq<byte>, i: nat): Option<nat>
    requires i <= |b|
  {
    var (_, e) :- ParseValue(b, i);
    Some(e)
  }

  ghost function MembersEnd(b: seq<byte>, i: nat): Option<nat>
    requires i <= |b|
  {
    var (_, e) :- ParseMembers(b, i);
    Some(e)
  }

  ghost function ElementsEnd(b: seq<byte>, i: nat): Option<nat>
    requires i <= |b|
  {
    var (_, e) :- ParseElements(b, i);
    Some(e)
  }

  lemma WsOnce(b: seq<byte>, i: nat)
    requires i <= |b|
    ensures WsEnd(b, WsEnd(b, i)) == WsEnd(b, i)
    decreases |b| - i
  {
    if WsEnd(b, i) != i {
      WsOnce(b, i + 1);
    }
  }

  lemma NoSpaceHere(b: seq<byte>, i: nat)
    requires i < |b| && !Space(b[i])
    ensures WsEnd(b, i) == i
  {
  }

  /** Reading a value after the whitespace reads the same value. */
  lemma ValueAfterWs(b: seq<byte>, i: nat)
    requires i <= |b|
    ensures var j := WsEnd(b, i);
            && ValueEnd(b, j) == ValueEnd(b, i)
            && (ParseValue(b, i).Some? ==>
                  ParseValue(b, j).value.0 == ParseValue(b, i).value.0.(ws := b[j..j]))
  {
    hide WsEnd, StringEnd, ScalarEnd, IsScalar, ParseMembers, ParseElements;
    WsOnce(b, i);
  }

  lemma MembersAfterWs(b: seq<byte>, i: nat)
    requires i <= |b|
    ensures var j := WsEnd(b, i);
            && MembersEnd(b, j) == MembersEnd(b, i)
            && (ParseMembers(b, i).Some? ==>
                  ParseMembers(b, j).value.0 == ParseMembers(b, i).value.0.(lead := b[j..j]))
  {
    hide WsEnd, StringEnd, ParseValue, ParseMembers;
    WsOnce(b, i);
    var j := WsEnd(b, i);
    if ParseMembers(b, i).Some? {
      MembersFromWs(b, i);
    }
    if ParseMembers(b, j).Some? {
      var (m, end) := ParseMembers(b, j).value;
      var x := ReadMembersParts(b, j);
      MemberParses(b, i, m.(lead := b[i..j]), end, x);
    }
  }

  lemma MembersFromWs(b: seq<byte>, i: nat)
    requires i <= |b| && ParseMembers(b, i).Some?
    ensures var (m, end) := ParseMembers(b, i).value;
            var j := WsEnd(b, i);
            ParseMembers(b, j) == Some((m.(lead := b[j..j]), end))
  {
    hide WsEnd, StringEnd, ParseValue, ParseMembers;
    WsOnce(b, i);
    var j := WsEnd(b, i);
    var (m, end) := ParseMembers(b, i).value;
    var x := ReadMembersParts(b, i);
    MemberParses(b, j, m.(lead := b[j..j]), end, x);
  }

  lemma ElementsAfterWs(b: seq<byte>, i: nat)
    requires i <= |b|
    ensures var j := WsEnd(b, i);
            && ElementsEnd(b, j) == ElementsEnd(b, i)
            && (ParseElements(b, i).Some? ==>
                  var x := ParseElements(b, i).value.0;
                  ParseElements(b, j).value.0 == x.(value := x.value.(ws := b[j..j])))
  {
    hide WsEnd, ParseValue;
    ValueAfterWs(b, i);
  }

  /** What follows the opening byte of a value decides its end. */
  lemma TokenEnds(b: seq<byte>, j: nat)
    requires j < |b| && !Space(b[j])
    ensures b[j] == QUOTE ==> ValueEnd(b, j) == var e :- StringEnd(b, j + 1); Some(e + 1)
    ensures b[j] == LBRACE ==>
              ValueEnd(b, j) == if Closes(b, j + 1, RBRACE) then Some(WsEnd(b, j + 1) + 1) else MembersEnd(b, j + 1)
    ensures b[j] == LBRACKET ==>
              ValueEnd(b, j) == if Closes(b, j + 1, RBRACKET) then Some(WsEnd(b, j + 1) + 1) else ElementsEnd(b, j + 1)
    ensures b[j] != QUOTE && b[j] != LBRACE && b[j] != LBRACKET ==>
              ValueEnd(b, j) == if IsScalar(b[j..ScalarEnd(b, j)]) then Some(ScalarEnd(b, j)) else None
  {
    hide WsEnd, StringEnd, ScalarEnd, IsScalar, ParseMembers, ParseElements;
    NoSpaceHere(b, j);
    if IsScalar(b[j..ScalarEnd(b, j)]) {
      ScalarBytes(b[j..ScalarEnd(b, j)]);
    }
  }

  /** The key span of the member at i, and the position after its colon. */
  ghost function KeyAt(b: seq<byte>, i: nat): (r: Option<(nat, nat, nat)>)
    requires i <= |b|
    ensures r.Some? ==> i < r.value.0 <= r.value.1 < r.value.2 <= |b|
  {
    var k := WsEnd(b, i);
    if k == |b| || b[k] != QUOTE then None
    else
      var e :- StringEnd(b, k + 1);
      var c := WsEnd(b, e + 1);
      if c == |b| || b[c] != COLON then None else Some((k + 1, e, c + 1))
  }

  /** A member's end, step by step. */
  lemma MemberSteps(b: seq<byte>, i: nat)
    requires i <= |b|
    ensures KeyAt(b, i).None? || ValueEnd(b, KeyAt(b, i).value.2).None? ==> MembersEnd(b, i).None?
    ensures KeyAt(b, i).Some? && ValueEnd(b, KeyAt(b, i).value.2).Some? ==>
              var t := WsEnd(b, ValueEnd(b, KeyAt(b, i).value.2).value);
              MembersEnd(b, i) == if t == |b| then None
                                  else if b[t] == COMMA then MembersEnd(b, t + 1)
                                  else if b[t] == RBRACE then Some(t + 1)
                                  else None
  {
    hide WsEnd, StringEnd, ParseValue, MemberOf;
  }

  lemma ElementSteps(b: seq<byte>, i: nat)
    requires i <= |b|
    ensures ValueEnd(b, i).None? ==> ElementsEnd(b, i).None?
    ensures ValueEnd(b, i).Some? ==>
              var t := WsEnd(b, ValueEnd(b, i).value);
              ElementsEnd(b, i) == if t == |b| then None
                                   else if b[t] == COMMA then ElementsEnd(b, t + 1)
                                   else if b[t] == RBRACKET then Some(t + 1)
                                   else None
  {
    hide WsEnd, ParseValue;
  }

  // ------------------------------------------------------------------ the cursor

  class Cursor {
    const b: seq<byte>
    var i: nat

    ghost predicate Valid()
      reads this
    {
      i <= |b|
    }

    constructor (payload: seq<byte>)
      ensures b == payload && i == 0
    {
      b, i := payload, 0;
    }

    method Ws()
      requires Valid()
      modifies this`i
      ensures Valid() && i == WsEnd(b, old(i))
    {
      while i < |b| && Space(b[i])
        invariant Valid() && old(i) <= i
        invariant WsEnd(b, old(i)) == WsEnd(b, i)
      {
        i := i + 1;
      }
    }

    /** Consumes a string token by jumping from quote to backslash; returns the
        span between the quotes. */
    method RawString() returns (start: nat, end: nat, ok: bool)
      requires Valid()
      modifies this`i
      ensures Valid()
      ensures ok <==> old(i) < |b| && b[old(i)] == QUOTE && StringEnd(b, old(i) + 1).Some?
      ensures ok ==> start == old(i) + 1 && Some(end) == StringEnd(b, start) && start <= end && i == end + 1
    {
      hide StringEnd;
      start, end, ok := 0, 0, false;
      if i >= |b| || b[i] != QUOTE {
        return;
      }
      i := i + 1;
      start := i;
      while true
        invariant old(i) + 1 == start <= i <= |b|
        invariant StringEnd(b, start) == StringEnd(b, i)
        decreases |b| - i
      {
        var rest := b[i..];
        var q := IndexByte(rest, QUOTE);
        var bs := IndexByte(rest, BACKSLASH);
        if q < 0 && bs < 0 {
          NoClosingQuote(b, i);
          return;
        }
        var stop := if bs >= 0 && (q < 0 || bs < q) then bs else q;
        RestRun(b, i, stop);
        var control := HasControl(rest[..stop]);
        if control {
          return;
        }
        if stop == bs {
          var next, valid := Escape(i + bs);
          if !valid {
            return;
          }
          i := next;
        } else {
          QuoteEnds(b, i + q);
          end := i + q;
          i := end + 1;
          return start, end, true;
        }
      }
    }

    /** Validates the escape at e; next is the position after it. */
    method Escape(e: nat) returns (next: nat, ok: bool)
      requires e < |b| && b[e] == BACKSLASH
      ensures ok ==> e < next <= |b| && StringEnd(b, e) == StringEnd(b, next)
      ensures !ok ==> StringEnd(b, e).None?
    {
      hide StringEnd, AllHex, ShortEscape;
      EscapeJump(b, e);
      next, ok := e, false;
      if e + 1 < |b| {
        if ShortEscape(b[e + 1]) {
          return e + 2, true;
        } else if b[e + 1] == LOWER_U && e + 6 <= |b| {
          return e + 6, AllHex(b[e + 2..e + 6]);
        }
      }
    }

    /** Consumes a non-string scalar: up to a delimiter, then checks it. */
    method RawScalar() returns (start: nat, end: nat, ok: bool)
      requires Valid()
      modifies this`i
      ensures Valid() && start == old(i) && start <= end <= |b|
      ensures ok <==> IsScalar(b[start..ScalarEnd(b, start)])
      ensures ok ==> start < i == end == ScalarEnd(b, start)
    {
      start := i;
      while i < |b| && !Delimiter(b[i])
        invariant start <= i <= |b|
        invariant ScalarEnd(b, start) == ScalarEnd(b, i)
      {
        i := i + 1;
      }
      end := i;
      ok := ValidScalarToken(b[start..end]);
      if ok {
        ScalarBytes(b[start..end]);
      }
    }

    /** Consumes an object key and the colon after it. */
    method Key() returns (start: nat, end: nat, ok: bool)
      requires Valid()
      modifies this`i
      ensures Valid()
      ensures ok <==> KeyAt(b, old(i)).Some?
      ensures ok ==> Some((start, end, i)) == KeyAt(b, old(i))
    {
      hide WsEnd, StringEnd;
      Ws();
      start, end, ok := RawString();
      if ok {
        Ws();
        if i >= |b| || b[i] != COLON {
          return start, end, false;
        }
        i := i + 1;
      }
    }

    /** Validates one value of any type. */
    method SkipValue() returns (ok: bool)
      requires Valid()
      modifies this`i
      ensures Valid()
      ensures ok <==> ValueEnd(b, old(i)).Some?
      ensures ok ==> Some(i) == ValueEnd(b, old(i)) && i > old(i)
      decreases |b| - i, 2
    {
      hide IsScalar, WsEnd, StringEnd, ScalarEnd, ValueEnd, MembersEnd, ElementsEnd;
      ValueAfterWs(b, i);
      WsOnce(b, i);
      Ws();
      if i >= |b| {
        NothingThere(b);
        return false;
      }
      SpaceEnds(b, i);
      TokenEnds(b, i);
      if b[i] == QUOTE {
        var _, _, found := RawString();
        return found;
      } else if b[i] == LBRACE {
        ok := SkipObject();
      } else if b[i] == LBRACKET {
        ok := SkipArray();
      } else {
        var _, _, found := RawScalar();
        return found;
      }
    }

    method SkipObject() returns (ok: bool)
      requires Valid() && i < |b| && b[i] == LBRACE
      modifies this`i
      ensures Valid()
      ensures ok <==> ValueEnd(b, old(i)).Some?
      ensures ok ==> Some(i) == ValueEnd(b, old(i)) && i > old(i)
      decreases |b| - i, 1
    {
      hide WsEnd, StringEnd, KeyAt, ValueEnd, MembersEnd, ElementsEnd, ParseValue, ParseMembers, ParseElements;
      TokenEnds(b, i);
      i := i + 1;
      ghost var first := i;
      Ws();
      if i < |b| && b[i] == RBRACE {
        i := i + 1;
        return true;
      }
      MembersAfterWs(b, first);
      while true
        invariant old(i) < first <= i <= |b|
        invariant MembersEnd(b, first) == MembersEnd(b, i)
        decreases |b| - i
      {
        MemberSteps(b, i);
        var _, _, found := Key();
        if !found {
          return false;
        }
        var valid := SkipValue();
        if !valid {
          return false;
        }
        Ws();
        if i >= |b| {
          return false;
        }
        if b[i] == COMMA {
          i := i + 1;
        } else if b[i] == RBRACE {
          i := i + 1;
          return true;
        } else {
          return false;
        }
      }
    }

    method SkipArray() returns (ok: bool)
      requires Valid() && i < |b| && b[i] == LBRACKET
      modifies this`i
      ensures Valid()
      ensures ok <==> ValueEnd(b, old(i)).Some?
      ensures ok ==> Some(i) == ValueEnd(b, old(i)) && i > old(i)
      decreases |b| - i, 1
    {
      hide WsEnd, StringEnd, KeyAt, ValueEnd, MembersEnd, ElementsEnd, ParseValue, ParseMembers, ParseElements;
      TokenEnds(b, i);
      i := i + 1;
      ghost var first := i;
      Ws();
      if i < |b| && b[i] == RBRACKET {
        i := i + 1;
        return true;
      }
      ElementsAfterWs(b, first);
      while true
        invariant old(i) < first <= i <= |b|
        invariant ElementsEnd(b, first) == ElementsEnd(b, i)
        decreases |b| - i
      {
        ElementSteps(b, i);
        var valid := SkipValue();
        if !valid {
          return false;
        }
        Ws();
        if i >= |b| {
          return false;
        }
        if b[i] == COMMA {
          i := i + 1;
        } else if b[i] == RBRACKET {
          i := i + 1;
          return true;
        } else {
          return false;
        }
      }
    }
  }

  lemma QuoteEnds(b: seq<byte>, e: nat)
    requires e < |b| && b[e] == QUOTE
    ensures StringEnd(b, e) == Some(e)
  {
  }

  lemma NothingThere(b: seq<byte>)
    ensures ValueEnd(b, |b|).None?
  {
  }

  lemma SpaceEnds(b: seq<byte>, j: nat)
    requires j < |b| && WsEnd(b, j) == j
    ensures !Space(b[j])
  {
  }
}
