/** The grammar of JSON text (RFC 8259, sections 2 to 7) as concrete syntax
    trees that render to bytes, and the one reading of a text as a tree. */
module JsonGrammar {
  import opened Bytes
  import opened JsonNumber
  import opened Options

  const TAB: byte := 9
  const LF: byte := 10
  const CR: byte := 13
  const SPACE: byte := 32
  const QUOTE: byte := 34
  const COMMA: byte := 44
  const SLASH: byte := 47
  const COLON: byte := 58
  const LBRACKET: byte := 91
  const BACKSLASH: byte := 92
  const RBRACKET: byte := 93
  const LOWER_U: byte := 117
  const LBRACE: byte := 123
  const RBRACE: byte := 125

  predicate Space(c: byte) {
    c == SPACE || c == TAB || c == LF || c == CR
  }

  predicate Spaces(s: seq<byte>) {
    forall i | 0 <= i < |s| :: Space(s[i])
  }

  /** Bytes that end a scalar token. */
  predicate Delimiter(c: byte) {
    Space(c) || c == COMMA || c == RBRACE || c == RBRACKET || c == LBRACE || c == LBRACKET || c == QUOTE
  }

  predicate Hex(c: byte) {
    48 <= c <= 57 || 97 <= c <= 102 || 65 <= c <= 70
  }

  /** The one-letter escapes: quote, backslash, slash, b, f, n, r, t. */
  predicate ShortEscape(c: byte) {
    c == QUOTE || c == BACKSLASH || c == SLASH || c == 98 || c == 102 || c == 110 || c == 114 || c == 116
  }

  predicate Plain(c: byte) {
    c >= 32 && c != QUOTE && c != BACKSLASH
  }

  /** The length of the string character s starts with, 0 if none. */
  function CharLen(s: seq<byte>): (n: nat)
    ensures n <= |s|
  {
    if s == [] then 0
    else if Plain(s[0]) then 1
    else if s[0] != BACKSLASH || |s| < 2 then 0
    else if ShortEscape(s[1]) then 2
    else if s[1] == LOWER_U && |s| >= 6 && Hex(s[2]) && Hex(s[3]) && Hex(s[4]) && Hex(s[5]) then 6
    else 0
  }

  /** What may stand between the quotes: whole string characters. */
  predicate Body(s: seq<byte>) {
    s == [] || (CharLen(s) > 0 && Body(s[CharLen(s)..]))
  }

  // ----------------------------------------------------------------------- trees

  datatype Value =
    | Str(ws: seq<byte>, body: seq<byte>)
    | Scalar(ws: seq<byte>, tok: seq<byte>)
    | EmptyObj(ws: seq<byte>, gap: seq<byte>)
    | Obj(ws: seq<byte>, members: Members)
    | EmptyArr(ws: seq<byte>, gap: seq<byte>)
    | Arr(ws: seq<byte>, elements: Elements)

  /** Members up to the closing brace; `more` is what follows a comma. */
  datatype Members = Member(lead: seq<byte>, key: seq<byte>, mid: seq<byte>, value: Value,
                            trail: seq<byte>, more: Option<Members>)

  datatype Elements = Element(value: Value, trail: seq<byte>, more: Option<Elements>)

  ghost predicate Good(v: Value) {
    && Spaces(v.ws)
    && match v
       case Str(_, body) => Body(body)
       case Scalar(_, tok) => IsScalar(tok)
       case EmptyObj(_, gap) => Spaces(gap)
       case EmptyArr(_, gap) => Spaces(gap)
       case Obj(_, members) => GoodMembers(members)
       case Arr(_, elements) => GoodElements(elements)
  }

  ghost predicate GoodMembers(m: Members) {
    && Spaces(m.lead) && Body(m.key) && Spaces(m.mid) && Good(m.value) && Spaces(m.trail)
    && (m.more.Some? ==> GoodMembers(m.more.value))
  }

  ghost predicate GoodElements(e: Elements) {
    && Good(e.value) && Spaces(e.trail)
    && (e.more.Some? ==> GoodElements(e.more.value))
  }

  function Render(v: Value): seq<byte> {
    v.ws + match v
           case Str(_, body) => Quoted(body)
           case Scalar(_, tok) => tok
           case EmptyObj(_, gap) => [LBRACE] + gap + [RBRACE]
           case EmptyArr(_, gap) => [LBRACKET] + gap + [RBRACKET]
           case Obj(_, members) => [LBRACE] + RenderMembers(members)
           case Arr(_, elements) => [LBRACKET] + RenderElements(elements)
  }

  function Quoted(body: seq<byte>): seq<byte> {
    [QUOTE] + body + [QUOTE]
  }

  function RenderMembers(m: Members): seq<byte> {
    m.lead + Quoted(m.key) + m.mid + [COLON] + Render(m.value) + m.trail +
    if m.more.Some? then [COMMA] + RenderMembers(m.more.value) else [RBRACE]
  }

  function RenderElements(e: Elements): seq<byte> {
    Render(e.value) + e.trail +
    if e.more.Some? then [COMMA] + RenderElements(e.more.value) else [RBRACKET]
  }

  /** A JSON text: one value with whitespace around it. */
  ghost predicate IsText(b: seq<byte>, v: Value) {
    Good(v) && exists ws :: Spaces(ws) && b == Render(v) + ws
  }

  // --------------------------------------------------------------------- reading

  /** The first position from i on that is not whitespace. */
  function WsEnd(b: seq<byte>, i: nat): (e: nat)
    requires i <= |b|
    ensures i <= e <= |b|
    decreases |b| - i
  {
    if i < |b| && Space(b[i]) then WsEnd(b, i + 1) else i
  }

  /** The closing quote of the string whose body starts at i. */
  function StringEnd(b: seq<byte>, i: nat): (r: Option<nat>)
    requires i <= |b|
    ensures r.Some? ==> i <= r.value < |b| && b[r.value] == QUOTE
    decreases |b| - i
  {
    if i < |b| && b[i] == QUOTE then Some(i)
    else
      var n := CharLen(b[i..]);
      if n == 0 then None else StringEnd(b, i + n)
  }

  /** The first delimiter from i on. */
  function ScalarEnd(b: seq<byte>, i: nat): (e: nat)
    requires i <= |b|
    ensures i <= e <= |b|
    decreases |b| - i
  {
    if i < |b| && !Delimiter(b[i]) then ScalarEnd(b, i + 1) else i
  }

  ghost function ParseValue(b: seq<byte>, i: nat): (r: Option<(Value, nat)>)
    requires i <= |b|
    ensures r.Some? ==> i < r.value.1 <= |b|
    decreases |b| - i, 2
  {
    var j := WsEnd(b, i);
    var ws := b[i..j];
    if j == |b| then None
    else if b[j] == QUOTE then
      var e :- StringEnd(b, j + 1);
      Some((Str(ws, b[j + 1..e]), e + 1))
    else if b[j] == LBRACE then
      var g := WsEnd(b, j + 1);
      if g < |b| && b[g] == RBRACE then Some((EmptyObj(ws, b[j + 1..g]), g + 1))
      else
        var (members, e) :- ParseMembers(b, j + 1);
        Some((Obj(ws, members), e))
    else if b[j] == LBRACKET then
      var g := WsEnd(b, j + 1);
      if g < |b| && b[g] == RBRACKET then Some((EmptyArr(ws, b[j + 1..g]), g + 1))
      else
        var (elements, e) :- ParseElements(b, j + 1);
        Some((Arr(ws, elements), e))
    else
      var e := ScalarEnd(b, j);
      if IsScalar(b[j..e]) && e > j then Some((Scalar(ws, b[j..e]), e)) else None
  }

  /** The member whose parts end at these positions. */
  function MemberOf(b: seq<byte>, i: nat, k: nat, e: nat, c: nat, value: Value, f: nat, t: nat,
                    more: Option<Members>): Members
    requires i <= k < e < c < f <= t <= |b|
  {
    Member(b[i..k], b[k + 1..e], b[e + 1..c], value, b[f..t], more)
  }

  ghost function ParseMembers(b: seq<byte>, i: nat): (r: Option<(Members, nat)>)
    requires i <= |b|
    ensures r.Some? ==> i < r.value.1 <= |b|
    decreases |b| - i, 1
  {
    var k := WsEnd(b, i);
    if k == |b| || b[k] != QUOTE then None
    else
      var e :- StringEnd(b, k + 1);
      var c := WsEnd(b, e + 1);
      if c == |b| || b[c] != COLON then None
      else
        var (value, f) :- ParseValue(b, c + 1);
        var t := WsEnd(b, f);
        if t == |b| then None
        else if b[t] == COMMA then
          var (more, end) :- ParseMembers(b, t + 1);
          Some((MemberOf(b, i, k, e, c, value, f, t, Some(more)), end))
        else if b[t] == RBRACE then
          Some((MemberOf(b, i, k, e, c, value, f, t, None), t + 1))
        else None
  }

  ghost function ParseElements(b: seq<byte>, i: nat): (r: Option<(Elements, nat)>)
    requires i <= |b|
    ensures r.Some? ==> i < r.value.1 <= |b|
    decreases |b| - i, 3
  {
    var (value, f) :- ParseValue(b, i);
    var t := WsEnd(b, f);
    if t == |b| then None
    else if b[t] == COMMA then
      var (more, end) :- ParseElements(b, t + 1);
      Some((Element(value, b[f..t], Some(more)), end))
    else if b[t] == RBRACKET then Some((Element(value, b[f..t], None), t + 1))
    else None
  }

  /** The tree of a whole text, if it is one. */
  ghost function ParseText(b: seq<byte>): Option<Value> {
    var (value, e) :- ParseValue(b, 0);
    if WsEnd(b, e) == |b| then Some(value) else None
  }
}
