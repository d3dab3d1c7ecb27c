/** Reading inverts rendering: a text is read exactly when the grammar produces
    it, and then as the one tree it is rendered from. */
module JsonReading {
  import opened Bytes
  import opened JsonNumber
  import opened JsonGrammar
  import opened Options

  /** s stands in b at i. */
  predicate Stands(b: seq<byte>, i: nat, s: seq<byte>) {
    i + |s| <= |b| && b[i..i + |s|] == s
  }

  lemma StandsSplit(b: seq<byte>, i: nat, s: seq<byte>, t: seq<byte>)
    ensures Stands(b, i, s + t) <==> Stands(b, i, s) && Stands(b, i + |s|, t)
  {
    if i + |s| + |t| <= |b| {
      var w := b[i..i + |s| + |t|];
      assert w[..|s|] == b[i..i + |s|] && w[|s|..] == b[i + |s|..i + |s| + |t|];
      assert (s + t)[..|s|] == s && (s + t)[|s|..] == t;
      assert w == w[..|s|] + w[|s|..];
    }
  }

  lemma StandsByte(b: seq<byte>, i: nat, c: byte)
    ensures Stands(b, i, [c]) <==> i < |b| && b[i] == c
  {
  }

  lemma StandsWithin(b: seq<byte>, i: nat, s: seq<byte>, x: nat, y: nat)
    requires Stands(b, i, s) && x <= y <= |s|
    ensures i + y <= |b| && b[i + x..i + y] == s[x..y]
  {
    forall j | x <= j < y ensures b[i + j] == s[j] {
      StandsAt(b, i, s, j);
    }
  }

  lemma StandsAt(b: seq<byte>, i: nat, s: seq<byte>, x: nat)
    requires Stands(b, i, s) && x < |s|
    ensures i + x < |b| && b[i + x] == s[x]
  {
  }

  // ------------------------------------------------------------------- scanners

  lemma {:induction false} WsUnique(b: seq<byte>, i: nat, e: nat)
    requires i <= e <= |b|
    ensures WsEnd(b, i) == e <==> Spaces(b[i..e]) && (e == |b| || !Space(b[e]))
    decreases e - i
  {
    if i < e {
      WsUnique(b, i + 1, e);
      assert b[i..e] == [b[i]] + b[i + 1..e];
    }
  }

  lemma {:induction false} ScalarUnique(b: seq<byte>, i: nat, e: nat)
    requires i <= e <= |b|
    ensures ScalarEnd(b, i) == e <==>
            (forall k | i <= k < e :: !Delimiter(b[k])) && (e == |b| || Delimiter(b[e]))
    decreases e - i
  {
    if i < e {
      ScalarUnique(b, i + 1, e);
    }
  }

  lemma CharLenPrefix(s: seq<byte>, k: nat)
    requires k <= |s|
    ensures CharLen(s[..k]) > 0 ==> CharLen(s) == CharLen(s[..k])
    ensures 0 < CharLen(s) <= k ==> CharLen(s) == CharLen(s[..k])
  {
  }

  lemma {:induction false} StringUnique(b: seq<byte>, i: nat, e: nat)
    requires i <= e < |b|
    ensures StringEnd(b, i) == Some(e) <==> b[e] == QUOTE && Body(b[i..e])
    decreases e - i
  {
    var s, k := b[i..], e - i;
    assert s[..k] == b[i..e];
    CharLenPrefix(s, k);
    if i < e {
      var n := CharLen(s);
      if 0 < n <= k {
        StringUnique(b, i + n, e);
        assert b[i..e][n..] == b[i + n..e];
      }
    }
  }

  // ------------------------------------------------------- what is read is there

  lemma Join(b: seq<byte>, i: nat, j: nat, k: nat)
    requires i <= j <= k <= |b|
    ensures b[i..j] + b[j..k] == b[i..k]
  {
  }

  lemma QuotedSlice(b: seq<byte>, k: nat, e: nat)
    requires k < e < |b| && b[k] == QUOTE && b[e] == QUOTE
    ensures Quoted(b[k + 1..e]) == b[k..e + 1]
  {
  }

  lemma ByteSlice(b: seq<byte>, k: nat, e: nat)
    requires k < e <= |b|
    ensures [b[k]] + b[k + 1..e] == b[k..e]
  {
  }

  /** v is read at i, up to e, in terms of the readings of its parts. */
  ghost predicate ValueAt(b: seq<byte>, i: nat, v: Value, e: nat)
    requires i <= |b|
  {
    var j := WsEnd(b, i);
    && j < e <= |b| && v.ws == b[i..j]
    && match v
       case Str(_, body) => b[j] == QUOTE && StringEnd(b, j + 1) == Some(e - 1) && body == b[j + 1..e - 1]
       case Scalar(_, tok) => !Delimiter(b[j]) && ScalarEnd(b, j) == e && tok == b[j..e] && IsScalar(tok)
       case EmptyObj(_, gap) => GapAt(b, j, e, LBRACE, RBRACE) && gap == b[j + 1..e - 1]
       case EmptyArr(_, gap) => GapAt(b, j, e, LBRACKET, RBRACKET) && gap == b[j + 1..e - 1]
       case Obj(_, members) => b[j] == LBRACE && ParseMembers(b, j + 1) == Some((members, e))
       case Arr(_, elements) => b[j] == LBRACKET && ParseElements(b, j + 1) == Some((elements, e))
  }

  predicate GapAt(b: seq<byte>, j: nat, e: nat, open: byte, close: byte)
    requires j < e <= |b|
  {
    j + 1 < e && b[j] == open && WsEnd(b, j + 1) == e - 1 && b[e - 1] == close
  }

  lemma ReadValueParts(b: seq<byte>, i: nat)
    requires i <= |b| && ParseValue(b, i).Some?
    ensures ValueAt(b, i, ParseValue(b, i).value.0, ParseValue(b, i).value.1)
  {
    hide WsEnd, StringEnd, ParseMembers, ParseElements, IsScalar;
    var e := ParseValue(b, i).value.1;
    if ParseValue(b, i).value.0.Scalar? {
      ScalarUnique(b, WsEnd(b, i), e);
    }
  }

  lemma ValueParses(b: seq<byte>, i: nat, v: Value, e: nat)
    requires i <= |b| && ValueAt(b, i, v, e)
    requires v.Obj? ==> !Closes(b, WsEnd(b, i) + 1, RBRACE)
    requires v.Arr? ==> !Closes(b, WsEnd(b, i) + 1, RBRACKET)
    ensures ParseValue(b, i) == Some((v, e))
  {
    hide WsEnd, StringEnd, ScalarEnd, ParseMembers, ParseElements, IsScalar;
  }

  predicate Closes(b: seq<byte>, i: nat, close: byte)
    requires i <= |b|
  {
    var g := WsEnd(b, i);
    g < |b| && b[g] == close
  }

  lemma ReadValueSound(b: seq<byte>, i: nat)
    requires i <= |b| && ParseValue(b, i).Some?
    ensures var (v, e) := ParseValue(b, i).value;
            Good(v) && Render(v) == b[i..e]
    decreases |b| - i, 2
  {
    hide Spaces, WsEnd, StringEnd, ParseValue, ParseMembers, ParseElements, RenderMembers, RenderElements;
    var j := WsEnd(b, i);
    var (v, e) := ParseValue(b, i).value;
    ReadValueParts(b, i);
    WsUnique(b, i, j);
    Join(b, i, j, e);
    if v.Obj? {
      ReadMembersSound(b, j + 1);
      ByteSlice(b, j, e);
    } else if v.Arr? {
      ReadElementsSound(b, j + 1);
      ByteSlice(b, j, e);
    } else {
      ReadLeafSound(b, i);
    }
  }

  lemma ReadLeafSound(b: seq<byte>, i: nat)
    requires i <= |b| && ParseValue(b, i).Some? && !ParseValue(b, i).value.0.Obj? && !ParseValue(b, i).value.0.Arr?
    ensures var (v, e) := ParseValue(b, i).value;
            Good(v) && Render(v) == b[i..e]
  {
    hide Spaces, Body, Quoted, IsScalar, WsEnd, StringEnd, ParseValue, Good, Render;
    var j := WsEnd(b, i);
    var (v, e) := ParseValue(b, i).value;
    ReadValueParts(b, i);
    WsUnique(b, i, j);
    Join(b, i, j, e);
    if v.Str? {
      StringUnique(b, j + 1, e - 1);
      QuotedSlice(b, j, e - 1);
      GoodStr(v);
    } else if v.Scalar? {
      GoodScalar(v);
    } else {
      WsUnique(b, j + 1, e - 1);
      GapSlice(b, j, e);
      GoodEmpty(v);
    }
  }

  lemma GoodStr(v: Value)
    requires v.Str? && Spaces(v.ws) && Body(v.body)
    ensures Good(v) && Render(v) == v.ws + Quoted(v.body)
  {
  }

  lemma GoodScalar(v: Value)
    requires v.Scalar? && Spaces(v.ws) && IsScalar(v.tok)
    ensures Good(v) && Render(v) == v.ws + v.tok
  {
  }

  lemma GoodEmpty(v: Value)
    requires v.EmptyObj? || v.EmptyArr?
    requires Spaces(v.ws) && Spaces(v.gap)
    ensures Good(v)
    ensures Render(v) == v.ws + if v.EmptyObj? then [LBRACE] + v.gap + [RBRACE] else [LBRACKET] + v.gap + [RBRACKET]
  {
  }

  lemma GapSlice(b: seq<byte>, j: nat, e: nat)
    requires j + 1 < e <= |b|
    ensures [b[j]] + b[j + 1..e - 1] + [b[e - 1]] == b[j..e]
  {
  }

  /** Where the parts of a member end: lead, key, mid, value, trail. */
  datatype Cuts = Cuts(k: nat, e: nat, c: nat, f: nat, t: nat)

  ghost predicate MemberAt(b: seq<byte>, i: nat, m: Members, end: nat, x: Cuts) {
    && i <= x.k < x.e < x.c < x.f <= x.t < end <= |b|
    && WsEnd(b, i) == x.k && m.lead == b[i..x.k]
    && b[x.k] == QUOTE && StringEnd(b, x.k + 1) == Some(x.e) && m.key == b[x.k + 1..x.e]
    && WsEnd(b, x.e + 1) == x.c && m.mid == b[x.e + 1..x.c] && b[x.c] == COLON
    && ParseValue(b, x.c + 1) == Some((m.value, x.f))
    && WsEnd(b, x.f) == x.t && m.trail == b[x.f..x.t]
    && (if m.more.Some? then b[x.t] == COMMA && ParseMembers(b, x.t + 1) == Some((m.more.value, end))
        else b[x.t] == RBRACE && end == x.t + 1)
  }

  lemma ReadMembersParts(b: seq<byte>, i: nat) returns (x: Cuts)
    requires i <= |b| && ParseMembers(b, i).Some?
    ensures MemberAt(b, i, ParseMembers(b, i).value.0, ParseMembers(b, i).value.1, x)
  {
    hide WsEnd, StringEnd, ParseValue;
    var k := WsEnd(b, i);
    var e := StringEnd(b, k + 1).value;
    var c := WsEnd(b, e + 1);
    var f := ParseValue(b, c + 1).value.1;
    x := Cuts(k, e, c, f, WsEnd(b, f));
  }

  lemma ReadMembersSound(b: seq<byte>, i: nat)
    requires i <= |b| && ParseMembers(b, i).Some?
    ensures var (m, end) := ParseMembers(b, i).value;
            GoodMembers(m) && RenderMembers(m) == b[i..end]
    decreases |b| - i, 1
  {
    hide Spaces, Body, Quoted, Good, Render, WsEnd, StringEnd, ParseValue, ParseMembers;
    var (m, end) := ParseMembers(b, i).value;
    var x := ReadMembersParts(b, i);
    WsUnique(b, i, x.k);
    StringUnique(b, x.k + 1, x.e);
    QuotedSlice(b, x.k, x.e);
    WsUnique(b, x.e + 1, x.c);
    ReadValueSound(b, x.c + 1);
    WsUnique(b, x.f, x.t);
    if m.more.Some? {
      ReadMembersSound(b, x.t + 1);
      ByteSlice(b, x.t, end);
    }
    MemberRender(b, i, m, end, x);
  }

  lemma MemberRender(b: seq<byte>, i: nat, m: Members, end: nat, x: Cuts)
    requires MemberAt(b, i, m, end, x)
    requires Quoted(m.key) == b[x.k..x.e + 1] && Render(m.value) == b[x.c + 1..x.f]
    requires (if m.more.Some? then [COMMA] + RenderMembers(m.more.value) else [RBRACE]) == b[x.t..end]
    ensures RenderMembers(m) == b[i..end]
  {
    hide Quoted, Render, RenderMembers, WsEnd, StringEnd, ParseValue, ParseMembers;
    MemberSlices(b, i, x.k, x.e, x.c, x.f, x.t, end);
    MemberSpelt(m);
  }

  lemma MemberSpelt(m: Members)
    ensures RenderMembers(m) == m.lead + Quoted(m.key) + m.mid + [COLON] + Render(m.value) + m.trail +
                                if m.more.Some? then [COMMA] + RenderMembers(m.more.value) else [RBRACE]
  {
    hide Quoted, Render;
  }

  lemma MemberSlices(b: seq<byte>, i: nat, k: nat, e: nat, c: nat, f: nat, t: nat, end: nat)
    requires i <= k < e < c < f <= t < end <= |b|
    ensures b[i..k] + b[k..e + 1] + b[e + 1..c] + [b[c]] + b[c + 1..f] + b[f..t] + b[t..end] == b[i..end]
  {
    Join(b, i, k, e + 1);
    Join(b, i, e + 1, c);
    assert b[i..c] + [b[c]] == b[i..c + 1];
    Join(b, i, c + 1, f);
    Join(b, i, f, t);
    Join(b, i, t, end);
  }

  ghost predicate ElementAt(b: seq<byte>, i: nat, x: Elements, end: nat, f: nat, t: nat) {
    && i < f <= t < end <= |b|
    && ParseValue(b, i) == Some((x.value, f))
    && WsEnd(b, f) == t && x.trail == b[f..t]
    && (if x.more.Some? then b[t] == COMMA && ParseElements(b, t + 1) == Some((x.more.value, end))
        else b[t] == RBRACKET && end == t + 1)
  }

  lemma ReadElementsParts(b: seq<byte>, i: nat) returns (f: nat, t: nat)
    requires i <= |b| && ParseElements(b, i).Some?
    ensures ElementAt(b, i, ParseElements(b, i).value.0, ParseElements(b, i).value.1, f, t)
  {
    hide WsEnd, ParseValue;
    f := ParseValue(b, i).value.1;
    t := WsEnd(b, f);
  }

  lemma ReadElementsSound(b: seq<byte>, i: nat)
    requires i <= |b| && ParseElements(b, i).Some?
    ensures var (x, end) := ParseElements(b, i).value;
            GoodElements(x) && RenderElements(x) == b[i..end]
    decreases |b| - i, 3
  {
    hide Spaces, Good, Render, WsEnd, ParseValue, ParseElements;
    var (x, end) := ParseElements(b, i).value;
    var f, t := ReadElementsParts(b, i);
    ReadValueSound(b, i);
    WsUnique(b, f, t);
    if x.more.Some? {
      ReadElementsSound(b, t + 1);
      ByteSlice(b, t, end);
    }
    ElementRender(b, i, x, end, f, t);
  }

  lemma ElementRender(b: seq<byte>, i: nat, x: Elements, end: nat, f: nat, t: nat)
    requires ElementAt(b, i, x, end, f, t) && Render(x.value) == b[i..f]
    requires (if x.more.Some? then [COMMA] + RenderElements(x.more.value) else [RBRACKET]) == b[t..end]
    ensures RenderElements(x) == b[i..end]
  {
    hide Render, WsEnd, ParseValue, ParseElements;
    Join(b, i, f, t);
    Join(b, i, t, end);
  }

  // ------------------------------------------------------- what is there is read

  /** The byte after a value: anything, but a scalar must be delimited. */
  predicate Follows(b: seq<byte>, e: nat, v: Value) {
    v.Scalar? ==> e >= |b| || Delimiter(b[e])
  }

  predicate Undelimited(s: seq<byte>) {
    forall k | 0 <= k < |s| :: !Delimiter(s[k])
  }

  lemma UndelimitedJoin(s: seq<byte>, t: seq<byte>)
    requires Undelimited(s) && Undelimited(t)
    ensures Undelimited(s + t)
  {
  }

  lemma ScalarBytes(tok: seq<byte>)
    requires IsScalar(tok)
    ensures tok != [] && Undelimited(tok)
  {
    if IsNumber(tok) {
      var n: Number :| n.WellFormed() && n.Spell() == tok;
      NumberBytes(n);
    }
  }

  lemma NumberBytes(n: Number)
    requires n.WellFormed()
    ensures n.Spell() != [] && Undelimited(n.Spell())
  {
    var e := n.exp;
    if e.Exp? {
      UndelimitedJoin([e.mark], e.sign);
      UndelimitedJoin([e.mark] + e.sign, e.digits);
    }
    UndelimitedJoin([DOT], n.frac);
    UndelimitedJoin(if n.frac == [] then [] else [DOT] + n.frac, e.Spell());
    UndelimitedJoin(if n.neg then [MINUS] else [], n.whole);
    UndelimitedJoin((if n.neg then [MINUS] else []) + n.whole, SpellTail(n.frac, e));
  }

  lemma WsStands(b: seq<byte>, i: nat, ws: seq<byte>)
    requires Stands(b, i, ws) && Spaces(ws)
    requires i + |ws| == |b| || !Space(b[i + |ws|])
    ensures WsEnd(b, i) == i + |ws| && b[i..i + |ws|] == ws
  {
    WsUnique(b, i, i + |ws|);
  }

  lemma QuotedParts(body: seq<byte>)
    ensures var q := Quoted(body);
            && |q| == |body| + 2 && q[0] == QUOTE && q[|body| + 1] == QUOTE && q[1..|body| + 1] == body
  {
  }

  lemma QuotedBytes(b: seq<byte>, k: nat, body: seq<byte>)
    requires Stands(b, k, Quoted(body))
    ensures k + 1 + |body| < |b| && b[k] == b[k + 1 + |body|] == QUOTE
    ensures b[k + 1..k + 1 + |body|] == body
  {
    hide Quoted, Stands;
    QuotedParts(body);
    StandsWithin(b, k, Quoted(body), 1, |body| + 1);
    StandsAt(b, k, Quoted(body), 0);
    StandsAt(b, k, Quoted(body), |body| + 1);
  }

  lemma QuotedStands(b: seq<byte>, k: nat, body: seq<byte>)
    requires Stands(b, k, Quoted(body)) && Body(body)
    ensures k + 1 + |body| < |b| && b[k] == QUOTE && StringEnd(b, k + 1) == Some(k + 1 + |body|)
    ensures b[k + 1..k + 1 + |body|] == body
  {
    hide Quoted, Body, StringEnd, Stands;
    QuotedBytes(b, k, body);
    StringUnique(b, k + 1, k + 1 + |body|);
  }

  /** A value's bytes, without the whitespace before it. */
  function Token(v: Value): seq<byte> {
    match v
    case Str(_, body) => Quoted(body)
    case Scalar(_, tok) => tok
    case EmptyObj(_, gap) => [LBRACE] + gap + [RBRACE]
    case EmptyArr(_, gap) => [LBRACKET] + gap + [RBRACKET]
    case Obj(_, members) => [LBRACE] + RenderMembers(members)
    case Arr(_, elements) => [LBRACKET] + RenderElements(elements)
  }

  lemma TokenStart(v: Value)
    requires Good(v)
    ensures Render(v) == v.ws + Token(v) && Spaces(v.ws)
    ensures Token(v) != [] && !Space(Token(v)[0]) && Token(v)[0] != RBRACKET
    ensures match v
            case Str(_, _) => Token(v)[0] == QUOTE
            case Scalar(_, _) => !Delimiter(Token(v)[0])
            case EmptyObj(_, _) => Token(v)[0] == LBRACE
            case Obj(_, _) => Token(v)[0] == LBRACE
            case EmptyArr(_, _) => Token(v)[0] == LBRACKET
            case Arr(_, _) => Token(v)[0] == LBRACKET
  {
    hide Spaces, Body, IsScalar, RenderMembers, RenderElements;
    if v.Scalar? {
      ScalarBytes(v.tok);
    }
  }

  /** The whitespace before a value that stands at i ends at its token. */
  lemma ValueStands(b: seq<byte>, i: nat, v: Value)
    requires Good(v) && Stands(b, i, Render(v))
    ensures WsEnd(b, i) == i + |v.ws| && b[i..i + |v.ws|] == v.ws
    ensures Stands(b, i + |v.ws|, Token(v)) && |Render(v)| == |v.ws| + |Token(v)|
    ensures i + |v.ws| < |b| && b[i + |v.ws|] == Token(v)[0]
  {
    hide Good, Render, Token, Stands, Spaces, WsEnd;
    TokenStart(v);
    StandsSplit(b, i, v.ws, Token(v));
    StandsAt(b, i + |v.ws|, Token(v), 0);
    WsStands(b, i, v.ws);
  }

  lemma GapStands(b: seq<byte>, j: nat, open: byte, gap: seq<byte>, close: byte)
    requires Stands(b, j, [open] + gap + [close]) && Spaces(gap) && !Space(close)
    ensures WsEnd(b, j + 1) == j + 1 + |gap| && j + 1 + |gap| < |b|
    ensures b[j] == open && b[j + 1 + |gap|] == close && b[j + 1..j + 1 + |gap|] == gap
  {
    hide Spaces, WsEnd, Stands;
    StandsSplit(b, j, [open] + gap, [close]);
    StandsSplit(b, j, [open], gap);
    StandsByte(b, j, open);
    StandsByte(b, j + 1 + |gap|, close);
    WsStands(b, j + 1, gap);
  }

  lemma ScalarStands(b: seq<byte>, j: nat, tok: seq<byte>)
    requires Stands(b, j, tok) && IsScalar(tok)
    requires j + |tok| >= |b| || Delimiter(b[j + |tok|])
    ensures ScalarEnd(b, j) == j + |tok| && b[j..j + |tok|] == tok
  {
    hide IsScalar, ScalarEnd;
    ScalarBytes(tok);
    forall k | j <= k < j + |tok| ensures !Delimiter(b[k]) {
      StandsAt(b, j, tok, k - j);
    }
    ScalarUnique(b, j, j + |tok|);
  }

  lemma OpenStands(b: seq<byte>, j: nat, open: byte, rest: seq<byte>)
    requires Stands(b, j, [open] + rest)
    ensures j < |b| && b[j] == open && Stands(b, j + 1, rest)
  {
    hide Stands;
    StandsSplit(b, j, [open], rest);
    StandsByte(b, j, open);
  }

  lemma StrAt(b: seq<byte>, i: nat, v: Value)
    requires v.Str? && i <= |b| && v.ws == b[i..WsEnd(b, i)]
    requires Stands(b, WsEnd(b, i), Quoted(v.body)) && Body(v.body)
    ensures ValueAt(b, i, v, WsEnd(b, i) + |v.body| + 2)
  {
    hide Stands, WsEnd, StringEnd, Body, Quoted;
    QuotedStands(b, WsEnd(b, i), v.body);
  }

  lemma ScalarAt(b: seq<byte>, i: nat, v: Value)
    requires v.Scalar? && i <= |b| && v.ws == b[i..WsEnd(b, i)]
    requires Stands(b, WsEnd(b, i), v.tok) && IsScalar(v.tok) && Follows(b, WsEnd(b, i) + |v.tok|, v)
    ensures ValueAt(b, i, v, WsEnd(b, i) + |v.tok|)
  {
    hide Stands, WsEnd, ScalarEnd, IsScalar, Delimiter;
    ScalarStands(b, WsEnd(b, i), v.tok);
    ScalarBytes(v.tok);
    StandsAt(b, WsEnd(b, i), v.tok, 0);
    StandsWithin(b, WsEnd(b, i), v.tok, 0, |v.tok|);
  }

  lemma EmptyAt(b: seq<byte>, i: nat, v: Value)
    requires (v.EmptyObj? || v.EmptyArr?) && i <= |b| && v.ws == b[i..WsEnd(b, i)]
    requires Stands(b, WsEnd(b, i), Token(v)) && Spaces(v.gap)
    ensures ValueAt(b, i, v, WsEnd(b, i) + |v.gap| + 2)
  {
    hide Stands, WsEnd, Spaces, Token, ValueAt;
    EmptyToken(v);
    var open, close := if v.EmptyObj? then LBRACE else LBRACKET, if v.EmptyObj? then RBRACE else RBRACKET;
    GapStands(b, WsEnd(b, i), open, v.gap, close);
    EmptyIsAt(b, i, v, open, close);
  }

  lemma EmptyToken(v: Value)
    ensures v.EmptyObj? ==> Token(v) == [LBRACE] + v.gap + [RBRACE]
    ensures v.EmptyArr? ==> Token(v) == [LBRACKET] + v.gap + [RBRACKET]
  {
  }

  lemma EmptyIsAt(b: seq<byte>, i: nat, v: Value, open: byte, close: byte)
    requires i <= |b| && v.ws == b[i..WsEnd(b, i)]
    requires || (v.EmptyObj? && open == LBRACE && close == RBRACE)
             || (v.EmptyArr? && open == LBRACKET && close == RBRACKET)
    requires var j := WsEnd(b, i);
             && j + 1 + |v.gap| < |b| && WsEnd(b, j + 1) == j + 1 + |v.gap|
             && b[j] == open && b[j + 1 + |v.gap|] == close && b[j + 1..j + 1 + |v.gap|] == v.gap
    ensures ValueAt(b, i, v, WsEnd(b, i) + |v.gap| + 2)
  {
    hide WsEnd;
  }

  lemma TokenLength(v: Value)
    requires Good(v) && !v.Obj? && !v.Arr?
    ensures |Token(v)| == if v.Str? then |v.body| + 2 else if v.Scalar? then |v.tok| else |v.gap| + 2
    ensures if v.Str? then Body(v.body) else if v.Scalar? then IsScalar(v.tok) else Spaces(v.gap)
  {
    hide IsScalar, Body, Spaces;
  }

  lemma LeafStands(b: seq<byte>, i: nat, v: Value)
    requires Good(v) && Stands(b, i, Render(v)) && Follows(b, i + |Render(v)|, v) && !v.Obj? && !v.Arr?
    ensures i <= |b| && ValueAt(b, i, v, i + |Render(v)|)
  {
    hide Render, Stands, Spaces, WsEnd, IsScalar, Body, Quoted, ValueAt, Good;
    ValueStands(b, i, v);
    TokenLength(v);
    if v.Str? {
      StrAt(b, i, v);
    } else if v.Scalar? {
      ScalarAt(b, i, v);
    } else {
      EmptyAt(b, i, v);
    }
  }

  lemma ReadsValue(b: seq<byte>, i: nat, v: Value)
    requires Good(v) && Stands(b, i, Render(v)) && Follows(b, i + |Render(v)|, v)
    ensures ParseValue(b, i) == Some((v, i + |Render(v)|))
    decreases v
  {
    hide Render, Stands, Spaces, WsEnd, ParseValue, ParseMembers, ParseElements, RenderMembers, RenderElements, ValueAt,
      Body, IsScalar;
    var j, e := i + |v.ws|, i + |Render(v)|;
    TokenStart(v);
    ValueStands(b, i, v);
    if v.Obj? {
      OpenStands(b, j, LBRACE, RenderMembers(v.members));
      ReadsMembers(b, j + 1, v.members);
      NestedAt(b, i, v, e);
    } else if v.Arr? {
      OpenStands(b, j, LBRACKET, RenderElements(v.elements));
      ReadsElements(b, j + 1, v.elements);
      NestedAt(b, i, v, e);
    } else {
      LeafStands(b, i, v);
    }
    ValueParses(b, i, v, e);
  }

  /** An object or array at its place. */
  lemma NestedAt(b: seq<byte>, i: nat, v: Value, e: nat)
    requires i <= |b| && WsEnd(b, i) < e <= |b| && v.ws == b[i..WsEnd(b, i)] && (v.Obj? || v.Arr?)
    requires v.Obj? ==> b[WsEnd(b, i)] == LBRACE && ParseMembers(b, WsEnd(b, i) + 1) == Some((v.members, e))
    requires v.Arr? ==> b[WsEnd(b, i)] == LBRACKET && ParseElements(b, WsEnd(b, i) + 1) == Some((v.elements, e))
    ensures ValueAt(b, i, v, e)
  {
    hide WsEnd, ParseMembers, ParseElements;
  }

  function MembersTail(m: Members): seq<byte> {
    if m.more.Some? then [COMMA] + RenderMembers(m.more.value) else [RBRACE]
  }

  lemma MemberStands(b: seq<byte>, i: nat, m: Members) returns (x: Cuts)
    requires GoodMembers(m) && Stands(b, i, RenderMembers(m))
    ensures x == Cuts(i + |m.lead|, i + |m.lead| + |m.key| + 1, i + |m.lead| + |m.key| + 2 + |m.mid|,
                      i + |m.lead| + |m.key| + 3 + |m.mid| + |Render(m.value)|,
                      i + |m.lead| + |m.key| + 3 + |m.mid| + |Render(m.value)| + |m.trail|)
    ensures Stands(b, i, m.lead) && Stands(b, x.k, Quoted(m.key)) && Stands(b, x.e + 1, m.mid)
    ensures Stands(b, x.c, [COLON]) && Stands(b, x.c + 1, Render(m.value)) && Stands(b, x.f, m.trail)
    ensures Stands(b, x.t, MembersTail(m)) && x.t + |MembersTail(m)| == i + |RenderMembers(m)|
  {
    hide Stands, Quoted, Render;
    QuotedParts(m.key);
    var k := i + |m.lead|;
    var e := k + |m.key| + 1;
    var c := e + 1 + |m.mid|;
    var f := c + 1 + |Render(m.value)|;
    x := Cuts(k, e, c, f, f + |m.trail|);
    var a1 := m.lead + Quoted(m.key);
    var a2 := a1 + m.mid;
    var a3 := a2 + [COLON];
    var a4 := a3 + Render(m.value);
    var a5 := a4 + m.trail;
    StandsSplit(b, i, a5, MembersTail(m));
    StandsSplit(b, i, a4, m.trail);
    StandsSplit(b, i, a3, Render(m.value));
    StandsSplit(b, i, a2, [COLON]);
    StandsSplit(b, i, a1, m.mid);
    StandsSplit(b, i, m.lead, Quoted(m.key));
  }

  lemma MemberParses(b: seq<byte>, i: nat, m: Members, end: nat, x: Cuts)
    requires MemberAt(b, i, m, end, x)
    ensures ParseMembers(b, i) == Some((m, end))
  {
    hide WsEnd, StringEnd, ParseValue, ParseMembers, MemberOf;
    MemberIs(b, i, m, end, x);
    if m.more.Some? {
      ParseMore(b, i, x, m.value, m.more.value, end);
    } else {
      ParseLast(b, i, x, m.value);
    }
  }

  lemma MemberIs(b: seq<byte>, i: nat, m: Members, end: nat, x: Cuts)
    requires MemberAt(b, i, m, end, x)
    ensures m == MemberOf(b, i, x.k, x.e, x.c, m.value, x.f, x.t, m.more)
  {
    hide WsEnd, StringEnd, ParseValue, ParseMembers;
  }

  /** A member's cuts before its comma or brace. */
  ghost predicate CutsAt(b: seq<byte>, i: nat, x: Cuts, value: Value) {
    && i <= x.k < x.e < x.c < x.f <= x.t < |b|
    && WsEnd(b, i) == x.k && b[x.k] == QUOTE && StringEnd(b, x.k + 1) == Some(x.e)
    && WsEnd(b, x.e + 1) == x.c && b[x.c] == COLON && ParseValue(b, x.c + 1) == Some((value, x.f))
    && WsEnd(b, x.f) == x.t
  }

  lemma ParseLast(b: seq<byte>, i: nat, x: Cuts, value: Value)
    requires CutsAt(b, i, x, value) && b[x.t] == RBRACE
    ensures ParseMembers(b, i) ==
            Some((MemberOf(b, i, x.k, x.e, x.c, value, x.f, x.t, None), x.t + 1))
  {
    hide WsEnd, StringEnd, ParseValue, MemberOf;
  }

  lemma ParseMore(b: seq<byte>, i: nat, x: Cuts, value: Value, more: Members, end: nat)
    requires CutsAt(b, i, x, value) && b[x.t] == COMMA && ParseMembers(b, x.t + 1) == Some((more, end))
    ensures ParseMembers(b, i) ==
            Some((MemberOf(b, i, x.k, x.e, x.c, value, x.f, x.t, Some(more)), end))
  {
    hide WsEnd, StringEnd, ParseValue, MemberOf;
  }

  lemma ReadsMembers(b: seq<byte>, i: nat, m: Members)
    requires GoodMembers(m) && Stands(b, i, RenderMembers(m))
    ensures ParseMembers(b, i) == Some((m, i + |RenderMembers(m)|))
    ensures WsEnd(b, i) < |b| && b[WsEnd(b, i)] == QUOTE
    decreases m
  {
    hide Render, Stands, Spaces, WsEnd, StringEnd, ParseValue, ParseMembers, RenderMembers, Body, Quoted, Good,
      MembersTail;
    var x := MemberStands(b, i, m);
    var end := i + |RenderMembers(m)|;
    QuotedStands(b, x.k, m.key);
    WsStands(b, i, m.lead);
    StandsByte(b, x.c, COLON);
    WsStands(b, x.e + 1, m.mid);
    TailByte(b, x.t, m);
    TrailFollows(b, x.f, m.trail, m.value);
    ReadsValue(b, x.c + 1, m.value);
    WsStands(b, x.f, m.trail);
    if m.more.Some? {
      OpenStands(b, x.t, COMMA, RenderMembers(m.more.value));
      ReadsMembers(b, x.t + 1, m.more.value);
    }
    MemberParses(b, i, m, end, x);
  }

  lemma TailByte(b: seq<byte>, t: nat, m: Members)
    requires Stands(b, t, MembersTail(m))
    ensures t < |b| && b[t] == if m.more.Some? then COMMA else RBRACE
    ensures m.more.None? ==> |MembersTail(m)| == 1
    ensures m.more.Some? ==>
              && |MembersTail(m)| == 1 + |RenderMembers(m.more.value)|
              && MembersTail(m) == [COMMA] + RenderMembers(m.more.value)
  {
    hide Stands, RenderMembers;
    StandsAt(b, t, MembersTail(m), 0);
  }

  /** Whitespace and then a delimiter delimit a value. */
  lemma TrailFollows(b: seq<byte>, f: nat, trail: seq<byte>, v: Value)
    requires Stands(b, f, trail) && Spaces(trail)
    requires f + |trail| < |b| && Delimiter(b[f + |trail|])
    ensures Follows(b, f, v)
  {
    if trail != [] {
      StandsAt(b, f, trail, 0);
    }
  }

  function ElementsTail(x: Elements): seq<byte> {
    if x.more.Some? then [COMMA] + RenderElements(x.more.value) else [RBRACKET]
  }

  lemma ElementStands(b: seq<byte>, i: nat, x: Elements) returns (f: nat, t: nat)
    requires GoodElements(x) && Stands(b, i, RenderElements(x))
    ensures f == i + |Render(x.value)| && t == f + |x.trail|
    ensures Stands(b, i, Render(x.value)) && Stands(b, f, x.trail)
    ensures Stands(b, t, ElementsTail(x)) && t + |ElementsTail(x)| == i + |RenderElements(x)|
  {
    hide Stands, Render;
    f := i + |Render(x.value)|;
    t := f + |x.trail|;
    StandsSplit(b, i, Render(x.value) + x.trail, ElementsTail(x));
    StandsSplit(b, i, Render(x.value), x.trail);
  }

  lemma ElementsTailByte(b: seq<byte>, t: nat, x: Elements)
    requires Stands(b, t, ElementsTail(x))
    ensures t < |b| && b[t] == if x.more.Some? then COMMA else RBRACKET
    ensures x.more.None? ==> |ElementsTail(x)| == 1
    ensures x.more.Some? ==>
              && |ElementsTail(x)| == 1 + |RenderElements(x.more.value)|
              && ElementsTail(x) == [COMMA] + RenderElements(x.more.value)
  {
    hide Stands, RenderElements;
    StandsAt(b, t, ElementsTail(x), 0);
  }

  lemma ElementParses(b: seq<byte>, i: nat, x: Elements, end: nat, f: nat, t: nat)
    requires ElementAt(b, i, x, end, f, t)
    ensures ParseElements(b, i) == Some((x, end))
  {
    hide WsEnd, ParseValue;
  }

  lemma ReadsElements(b: seq<byte>, i: nat, x: Elements)
    requires GoodElements(x) && Stands(b, i, RenderElements(x))
    ensures ParseElements(b, i) == Some((x, i + |RenderElements(x)|))
    ensures WsEnd(b, i) < |b| && b[WsEnd(b, i)] != RBRACKET
    decreases x
  {
    hide Render, Stands, Spaces, WsEnd, ParseValue, ParseElements, RenderElements, Good, ElementsTail;
    var f, t := ElementStands(b, i, x);
    TokenStart(x.value);
    ValueStands(b, i, x.value);
    ElementsTailByte(b, t, x);
    TrailFollows(b, f, x.trail, x.value);
    ReadsValue(b, i, x.value);
    WsStands(b, f, x.trail);
    if x.more.Some? {
      OpenStands(b, t, COMMA, RenderElements(x.more.value));
      ReadsElements(b, t + 1, x.more.value);
    }
    ElementParses(b, i, x, i + |RenderElements(x)|, f, t);
  }

  // ------------------------------------------------------------------ whole texts

  /** A text is read exactly when the grammar produces it, as its one tree. */
  lemma ReadIsGrammar(b: seq<byte>, v: Value)
    ensures ParseText(b) == Some(v) <==> IsText(b, v)
  {
    hide Render, Good, Stands, Spaces, WsEnd, ParseValue;
    if ParseText(b) == Some(v) {
      var e := ParseValue(b, 0).value.1;
      ReadValueSound(b, 0);
      WsUnique(b, e, |b|);
      Join(b, 0, e, |b|);
      assert b[0..|b|] == b;
    }
    if IsText(b, v) {
      var ws :| Spaces(ws) && b == Render(v) + ws;
      TextStands(Render(v), ws);
      TextFollows(b, |Render(v)|, ws, v);
      ReadsValue(b, 0, v);
      WsStands(b, |Render(v)|, ws);
    }
  }

  lemma TextStands(s: seq<byte>, ws: seq<byte>)
    ensures Stands(s + ws, 0, s) && Stands(s + ws, |s|, ws)
  {
  }

  lemma TextFollows(b: seq<byte>, e: nat, ws: seq<byte>, v: Value)
    requires Stands(b, e, ws) && Spaces(ws) && |b| == e + |ws|
    ensures Follows(b, e, v)
  {
    if ws != [] {
      StandsAt(b, e, ws, 0);
    }
  }
}
