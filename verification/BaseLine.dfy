/** The canonical line of a record (engine/prepared/encode.go:93-139): what
    json.Marshal writes for it, the bound on its length, and the base identity
    hashed from all the lines. The lines bind the records: equal text, equal
    records, a null key list told from an empty one. */
module BaseLine {
  import opened Buffers
  import opened Bytes
  import opened JsonNumber
  import opened JsonGrammar
  import opened JsonReading
  import opened JsonText
  import opened Options
  import opened Records

  const MAX_LINE := 0x10_0000

  // ----------------------------------------------------------------------- strings

  /** U+2028 or U+2029, which end lines in JavaScript. */
  predicate Separator(s: seq<byte>) {
    |s| >= 3 && s[0] == 226 && s[1] == 128 && (s[2] == 168 || s[2] == 169)
  }

  predicate Html(c: byte) {
    c == 60 || c == 62 || c == 38
  }

  function SmallEscape(c: byte): seq<byte>
    requires c < 128
  {
    [BACKSLASH, LOWER_U, 48, 48, LowerHex(c / 16), LowerHex(c % 16)]
  }

  function SeparatorEscape(c: byte): seq<byte>
    requires c == 168 || c == 169
  {
    [BACKSLASH, LOWER_U, 50, 48, 50, c - 112]
  }

  /** How json.Marshal spells the character s starts with. */
  function MarshalFirst(s: seq<byte>): seq<byte>
    requires s != []
  {
    if Html(s[0]) then SmallEscape(s[0])
    else if Separator(s) then SeparatorEscape(s[2])
    else EscapeFirst(s)
  }

  function Marshal(s: seq<byte>): seq<byte> {
    if s == [] then [] else MarshalFirst(s) + Marshal(s[Step(s)..])
  }

  lemma HexDigits(c: byte)
    requires c < 128
    ensures Hex(LowerHex(c / 16)) && Hex(LowerHex(c % 16)) && Hex(48)
    ensures 16 * HexValue(LowerHex(c / 16)) + HexValue(LowerHex(c % 16)) == c as int && HexValue(48) == 0
  {
  }

  lemma SmallDecodes(c: byte, rest: seq<byte>)
    requires c < 128
    ensures Decode(SmallEscape(c) + rest) == [c] + Decode(rest)
  {
    hide Decode;
    var t := SmallEscape(c) + rest;
    HexDigits(c);
    assert t[6..] == rest;
    assert Unit(t) == Some(c as nat);
    DecodeStep(t);
  }

  lemma SeparatorDecodes(c: byte, rest: seq<byte>)
    requires c == 168 || c == 169
    ensures Decode(SeparatorEscape(c) + rest) == [226, 128, c] + Decode(rest)
  {
    hide Decode;
    var t := SeparatorEscape(c) + rest;
    assert t[6..] == rest;
    assert Unit(t) == Some(8192 + 32 + (c - 160) as nat);
    DecodeStep(t);
  }

  lemma EscapeBody(e: seq<byte>, rest: seq<byte>)
    requires |e| == 6 && e[0] == BACKSLASH && e[1] == LOWER_U && Body(rest)
    requires Hex(e[2]) && Hex(e[3]) && Hex(e[4]) && Hex(e[5])
    ensures Body(e + rest)
  {
    assert (e + rest)[6..] == rest;
    assert CharLen(e + rest) == 6;
  }

  lemma MarshalFirstDecodes(s: seq<byte>, rest: seq<byte>)
    requires RuneLen(s) > 0
    ensures Decode(MarshalFirst(s) + rest) == s[..RuneLen(s)] + Decode(rest)
    ensures Body(rest) ==> Body(MarshalFirst(s) + rest)
  {
    hide Decode, Body, EscapeFirst;
    if Html(s[0]) {
      SmallDecodes(s[0], rest);
      HexDigits(s[0]);
      assert s[..1] == [s[0]];
      if Body(rest) {
        EscapeBody(SmallEscape(s[0]), rest);
      }
    } else if Separator(s) {
      SeparatorDecodes(s[2], rest);
      assert s[..3] == [226, 128, s[2]];
      if Body(rest) {
        EscapeBody(SeparatorEscape(s[2]), rest);
      }
    } else {
      EscapeFirstDecodes(s, rest);
      if Body(rest) {
        EscapeFirstBody(s, rest);
      }
    }
  }

  /** A marshaled string is a string body and decodes to the string. */
  lemma {:induction false} MarshalDecodes(s: seq<byte>)
    requires Utf8(s)
    ensures Body(Marshal(s)) && Decode(Marshal(s)) == s
    decreases |s|
  {
    hide MarshalFirst, RuneLen, Decode, Body;
    if s == [] {
      Nothing();
    } else {
      var n := RuneLen(s);
      MarshalDecodes(s[n..]);
      MarshalFirstDecodes(s, Marshal(s[n..]));
      assert s == s[..n] + s[n..];
    }
  }

  // ---------------------------------------------------------------------- payloads

  /** A tree without the whitespace around its tokens. */
  function Tight(v: Value): Value
    decreases v
  {
    match v
    case Str(_, body) => Str([], body)
    case Scalar(_, tok) => Scalar([], tok)
    case EmptyObj(_, _) => EmptyObj([], [])
    case EmptyArr(_, _) => EmptyArr([], [])
    case Obj(_, members) => Obj([], TightMembers(members))
    case Arr(_, elements) => Arr([], TightElements(elements))
  }

  function TightMembers(m: Members): Members
    decreases m
  {
    Member([], m.key, [], Tight(m.value), [], if m.more.Some? then Some(TightMembers(m.more.value)) else None)
  }

  function TightElements(e: Elements): Elements
    decreases e
  {
    Element(Tight(e.value), [], if e.more.Some? then Some(TightElements(e.more.value)) else None)
  }

  /** Compaction's escaping of <, >, & and the two separators. */
  function EscapeHtml(s: seq<byte>): seq<byte> {
    if s == [] then []
    else if Html(s[0]) then SmallEscape(s[0]) + EscapeHtml(s[1..])
    else if Separator(s) then SeparatorEscape(s[2]) + EscapeHtml(s[3..])
    else [s[0]] + EscapeHtml(s[1..])
  }

  /** What json.Marshal writes for a raw payload; none for what is no JSON. */
  ghost function CanonicalPayload(p: seq<byte>): Option<seq<byte>> {
    if p == [] then Some([])
    else
      var v :- ParseText(p);
      Some(EscapeHtml(Render(Tight(v))))
  }

  // ------------------------------------------------------------------------- lines

  /** {"id": */
  const ID_PART: seq<byte> := [123, 34, 105, 100, 34, 58]
  /** ,"keys": */
  const KEYS_PART: seq<byte> := [44, 34, 107, 101, 121, 115, 34, 58]
  /** ,"payload": */
  const PAYLOAD_PART: seq<byte> := [44, 34, 112, 97, 121, 108, 111, 97, 100, 34, 58]

  /** Keys from the i-th on, and the closing bracket. */
  function KeyTail(keys: seq<seq<byte>>, i: nat): seq<byte>
    requires i < |keys|
    decreases |keys| - i
  {
    Quoted(Marshal(keys[i])) + if i + 1 < |keys| then [COMMA] + KeyTail(keys, i + 1) else [RBRACKET]
  }

  function KeysJson(keys: Option<seq<seq<byte>>>): seq<byte> {
    if keys.None? then NULL
    else if keys.value == [] then [LBRACKET, RBRACKET]
    else [LBRACKET] + KeyTail(keys.value, 0)
  }

  /** The record's line; an empty payload is left out. */
  function Line(r: Record): seq<byte> {
    ID_PART + Quoted(Marshal(r.id)) + KEYS_PART + KeysJson(r.keys) +
    (if r.payload == [] then [] else PAYLOAD_PART + r.payload) + [RBRACE]
  }

  predicate LineFits(r: Record) {
    |Line(r)| + 1 <= MAX_LINE
  }

  /** What the base identity is the digest of. */
  function BaseText(recs: seq<Record>): seq<byte> {
    if recs == [] then [] else BaseText(recs[..|recs| - 1]) + Line(recs[|recs| - 1]) + [LF]
  }

  ghost predicate Canonical(r: Record) {
    CanonicalPayload(r.payload) == Some(r.payload)
  }

  // ---------------------------------------------------------------- lines as trees

  const ID_KEY: seq<byte> := [105, 100]
  const KEYS_KEY: seq<byte> := [107, 101, 121, 115]
  const PAYLOAD_KEY: seq<byte> := [112, 97, 121, 108, 111, 97, 100]

  function KeyTree(keys: seq<seq<byte>>, i: nat): Elements
    requires i < |keys|
    decreases |keys| - i
  {
    Element(Str([], Marshal(keys[i])), [], if i + 1 < |keys| then Some(KeyTree(keys, i + 1)) else None)
  }

  function KeysTree(keys: Option<seq<seq<byte>>>): Value {
    if keys.None? then Scalar([], NULL)
    else if keys.value == [] then EmptyArr([], [])
    else Arr([], KeyTree(keys.value, 0))
  }

  /** The payload's tree, and the whitespace after it. */
  ghost predicate Payload(p: seq<byte>, v: Value, ws: seq<byte>) {
    Good(v) && Spaces(ws) && p == Render(v) + ws
  }

  ghost function PayloadMember(p: seq<byte>): (m: Option<Members>)
    requires CanonicalPayload(p) == Some(p)
    ensures m.None? <==> p == []
    ensures m.Some? ==> m.value == Member([], PAYLOAD_KEY, [], m.value.value, m.value.trail, None)
    ensures m.Some? ==> Payload(p, m.value.value, m.value.trail)
  {
    if p == [] then None
    else
      ReadIsGrammar(p, ParseText(p).value);
      var ws :| Spaces(ws) && p == Render(ParseText(p).value) + ws;
      Some(Member([], PAYLOAD_KEY, [], ParseText(p).value, ws, None))
  }

  ghost function LineTree(r: Record): Value
    requires Canonical(r)
  {
    Obj([], Member([], ID_KEY, [], Str([], Marshal(r.id)), [],
      Some(Member([], KEYS_KEY, [], KeysTree(r.keys), [], PayloadMember(r.payload)))))
  }

  lemma {:induction false} KeyTreeRenders(keys: seq<seq<byte>>, i: nat)
    requires i < |keys| && forall j | 0 <= j < |keys| :: Utf8(keys[j])
    ensures RenderElements(KeyTree(keys, i)) == KeyTail(keys, i) && GoodElements(KeyTree(keys, i))
    decreases |keys| - i
  {
    hide Marshal, Body, Utf8, Decode;
    MarshalDecodes(keys[i]);
    if i + 1 < |keys| {
      KeyTreeRenders(keys, i + 1);
    }
    assert Good(Str([], Marshal(keys[i])));
  }

  lemma GoodKeys(r: Record)
    requires GoodRecord(r)
    ensures r.keys.Some? ==> forall j | 0 <= j < |r.keys.value| :: Utf8(r.keys.value[j])
  {
    hide Utf8;
    assert r.keys.Some? ==> KeyList(r) == r.keys.value;
  }

  lemma GoodId(r: Record)
    requires GoodRecord(r)
    ensures Utf8(r.id)
  {
    hide Utf8;
  }

  lemma KeysTreeRenders(r: Record)
    requires GoodRecord(r)
    ensures Render(KeysTree(r.keys)) == KeysJson(r.keys) && Good(KeysTree(r.keys))
  {
    hide Marshal, Body, Utf8, KeyTree, KeyTail;
    GoodKeys(r);
    if r.keys.Some? && r.keys.value != [] {
      KeyTreeRenders(r.keys.value, 0);
    }
  }

  lemma PlainKeys()
    ensures Body(ID_KEY) && Body(KEYS_KEY) && Body(PAYLOAD_KEY)
  {
    PlainRun(ID_KEY, []);
    PlainRun(KEYS_KEY, []);
    PlainRun(PAYLOAD_KEY, []);
    assert ID_KEY + [] == ID_KEY && KEYS_KEY + [] == KEYS_KEY && PAYLOAD_KEY + [] == PAYLOAD_KEY;
  }

  /** The line is a JSON text, with this tree. */
  lemma LineIsText(r: Record)
    requires GoodRecord(r) && Canonical(r)
    ensures ParseText(Line(r)) == Some(LineTree(r))
  {
    hide LineTree, Line, Render, Good, ParseText, Canonical, GoodRecord;
    var t := LineTree(r);
    LineRenders(r);
    LineTreeIsGood(r);
    assert Spaces([]) && Line(r) == Render(t) + [];
    ReadIsGrammar(Line(r), t);
  }

  lemma LineTreeIsGood(r: Record)
    requires GoodRecord(r) && Canonical(r)
    ensures Good(LineTree(r))
  {
    hide Marshal, Body, Utf8, KeysTree, Decode, CanonicalPayload, PayloadMember;
    PlainKeys();
    MarshalDecodes(r.id);
    KeysTreeRenders(r);
    var more := PayloadMember(r.payload);
    assert more.Some? ==> GoodMembers(more.value);
    var keys := Member([], KEYS_KEY, [], KeysTree(r.keys), [], more);
    assert GoodMembers(keys);
    var id := Member([], ID_KEY, [], Str([], Marshal(r.id)), [], Some(keys));
    assert Good(Str([], Marshal(r.id)));
    assert GoodMembers(id);
  }

  /** A member without whitespace before its value. */
  lemma MemberRenders(key: seq<byte>, v: Value, more: Option<Members>, rest: seq<byte>)
    requires rest == if more.Some? then [COMMA] + RenderMembers(more.value) else [RBRACE]
    ensures RenderMembers(Member([], key, [], v, [], more)) == (Quoted(key) + [COLON]) + (Render(v) + rest)
  {
    hide Render;
    var m := Member([], key, [], v, [], more);
    assert RenderMembers(m) == [] + Quoted(key) + [] + [COLON] + Render(v) + [] + rest;
  }

  lemma Parts(a: seq<byte>, b: seq<byte>, c: seq<byte>, d: seq<byte>, e: seq<byte>)
    ensures a + (b + (c + (d + e))) == a + b + c + d + e
  {
  }

  lemma CommaPart(x: seq<byte>, y: seq<byte>)
    ensures [COMMA] + (x + y) == ([COMMA] + x) + y
  {
  }

  lemma ObjRenders(m: Members)
    ensures Render(Obj([], m)) == [] + ([LBRACE] + RenderMembers(m))
  {
  }

  lemma StrRenders(body: seq<byte>)
    ensures Render(Str([], body)) == Quoted(body)
  {
  }

  lemma LineKeys()
    ensures [COMMA] + (Quoted(KEYS_KEY) + [COLON]) == KEYS_PART && [LBRACE] + (Quoted(ID_KEY) + [COLON]) == ID_PART
  {
  }

  lemma LineRenders(r: Record)
    requires GoodRecord(r) && Canonical(r)
    ensures Render(LineTree(r)) == Line(r)
  {
    hide Marshal, Utf8, KeysTree, KeysJson, CanonicalPayload, PayloadMember, RenderMembers, GoodRecord, Render, Quoted,
      Line;
    KeysTreeRenders(r);
    PayloadRenders(r.payload);
    var more := PayloadMember(r.payload);
    var body, keys := Quoted(Marshal(r.id)), KeysJson(r.keys);
    var tail := (if r.payload == [] then [] else PAYLOAD_PART + r.payload) + [RBRACE];
    var second := Member([], KEYS_KEY, [], KeysTree(r.keys), [], more);
    MemberRenders(KEYS_KEY, KeysTree(r.keys), more, tail);
    CommaPart(Quoted(KEYS_KEY) + [COLON], keys + tail);
    LineKeys();
    StrRenders(Marshal(r.id));
    MemberRenders(ID_KEY, Str([], Marshal(r.id)), Some(second), KEYS_PART + (keys + tail));
    LineParts(r, body, keys, tail);
    ObjRenders(Member([], ID_KEY, [], Str([], Marshal(r.id)), [], Some(second)));
    BracePart(Quoted(ID_KEY) + [COLON], body + (KEYS_PART + (keys + tail)));
  }

  lemma BracePart(x: seq<byte>, y: seq<byte>)
    ensures [] + ([LBRACE] + (x + y)) == ([LBRACE] + x) + y
  {
  }

  lemma LineParts(r: Record, body: seq<byte>, keys: seq<byte>, tail: seq<byte>)
    requires body == Quoted(Marshal(r.id)) && keys == KeysJson(r.keys)
    requires tail == (if r.payload == [] then [] else PAYLOAD_PART + r.payload) + [RBRACE]
    ensures Line(r) == ID_PART + (body + (KEYS_PART + (keys + tail)))
  {
    hide Marshal, KeysJson;
    Parts(ID_PART, body, KEYS_PART, keys, tail);
  }

  lemma PayloadRenders(p: seq<byte>)
    requires CanonicalPayload(p) == Some(p)
    ensures (if PayloadMember(p).Some? then [COMMA] + RenderMembers(PayloadMember(p).value) else [RBRACE]) ==
            (if p == [] then [] else PAYLOAD_PART + p) + [RBRACE]
  {
    hide PayloadMember, CanonicalPayload, Render;
    if p != [] {
      var m := PayloadMember(p).value;
      TrailParts(Quoted(PAYLOAD_KEY), Render(m.value), m.trail);
      CommaPart(Quoted(PAYLOAD_KEY) + [COLON], p + [RBRACE]);
      assert [COMMA] + (Quoted(PAYLOAD_KEY) + [COLON]) == PAYLOAD_PART;
      Associates(PAYLOAD_PART, p, [RBRACE]);
    }
  }

  lemma TrailParts(key: seq<byte>, v: seq<byte>, ws: seq<byte>)
    ensures [] + key + [] + [COLON] + v + ws + [RBRACE] == (key + [COLON]) + ((v + ws) + [RBRACE])
  {
  }

  // ------------------------------------------------------------------- lines bind

  lemma {:induction false} KeyTreeBinds(a: seq<seq<byte>>, b: seq<seq<byte>>, i: nat)
    requires i < |a| && i < |b| && KeyTree(a, i) == KeyTree(b, i)
    requires forall j | 0 <= j < |a| :: Utf8(a[j])
    requires forall j | 0 <= j < |b| :: Utf8(b[j])
    ensures |a| == |b| && a[i..] == b[i..]
    decreases |a| - i
  {
    hide Marshal, Utf8, Decode, Body;
    MarshalDecodes(a[i]);
    MarshalDecodes(b[i]);
    if i + 1 < |a| {
      KeyTreeBinds(a, b, i + 1);
    }
    assert a[i..] == [a[i]] + a[i + 1..] && b[i..] == [b[i]] + b[i + 1..];
  }

  /** A line binds its record: ID, keys (null apart from empty) and payload. */
  lemma LineBinds(a: Record, b: Record)
    requires GoodRecord(a) && Canonical(a) && GoodRecord(b) && Canonical(b) && Line(a) == Line(b)
    ensures a == b
  {
    hide Marshal, Utf8, Decode, Body, ParseText, Line, KeyTree, CanonicalPayload, GoodRecord;
    LineIsText(a);
    LineIsText(b);
    GoodKeys(a);
    GoodKeys(b);
    GoodId(a);
    GoodId(b);
    MarshalDecodes(a.id);
    MarshalDecodes(b.id);
    assert a.id == b.id && KeysTree(a.keys) == KeysTree(b.keys);
    if a.keys.Some? && b.keys.Some? && a.keys.value != [] && b.keys.value != [] {
      KeyTreeBinds(a.keys.value, b.keys.value, 0);
      assert a.keys.value[0..] == a.keys.value && b.keys.value[0..] == b.keys.value;
    }
    assert PayloadMember(a.payload) == PayloadMember(b.payload);
  }

  // -------------------------------------------------------------------- whole bases

  lemma {:induction false} MarshalOneLine(s: seq<byte>)
    ensures LF !in Marshal(s)
    decreases |s|
  {
    hide MarshalFirst;
    if s != [] {
      FirstOneLine(s);
      MarshalOneLine(s[Step(s)..]);
    }
  }

  lemma FirstOneLine(s: seq<byte>)
    requires s != []
    ensures LF !in MarshalFirst(s)
  {
    hide Decode;
    if !Html(s[0]) && !Separator(s) && s[0] >= 128 && RuneLen(s) > 0 {
      assert forall i | 0 <= i < RuneLen(s) :: s[i] >= 128;
    }
  }

  lemma {:induction false} HtmlOneLine(s: seq<byte>)
    requires LF !in s
    ensures LF !in EscapeHtml(s)
    decreases |s|
  {
    if s != [] {
      assert s == [s[0]] + s[1..];
      HtmlOneLine(s[1..]);
      if Separator(s) {
        assert s == s[..3] + s[3..];
        HtmlOneLine(s[3..]);
      }
    }
  }

  lemma {:induction false} BodyOneLine(s: seq<byte>)
    requires Body(s)
    ensures LF !in s
    decreases |s|
  {
    if s != [] {
      var n := CharLen(s);
      BodyOneLine(s[n..]);
      assert s == s[..n] + s[n..];
      assert forall i | 0 <= i < n :: s[i] != LF;
    }
  }

  lemma TokenOneLine(tok: seq<byte>)
    requires IsScalar(tok)
    ensures LF !in tok
  {
    ScalarBytes(tok);
  }

  lemma TightOneLine(v: Value)
    requires Good(v)
    ensures LF !in Render(Tight(v))
    decreases v
  {
    hide Body, IsScalar;
    match v {
      case Str(_, body) => BodyOneLine(body);
      case Scalar(_, tok) => TokenOneLine(tok);
      case EmptyObj(_, _) =>
      case EmptyArr(_, _) =>
      case Obj(_, members) => TightMembersOneLine(members);
      case Arr(_, elements) => TightElementsOneLine(elements);
    }
  }

  lemma TightMembersOneLine(m: Members)
    requires GoodMembers(m)
    ensures LF !in RenderMembers(TightMembers(m))
    decreases m
  {
    hide Render, Tight, Good;
    BodyOneLine(m.key);
    TightOneLine(m.value);
    if m.more.Some? {
      TightMembersOneLine(m.more.value);
    }
  }

  lemma TightElementsOneLine(e: Elements)
    requires GoodElements(e)
    ensures LF !in RenderElements(TightElements(e))
    decreases e
  {
    hide Render, Tight, Good;
    TightOneLine(e.value);
    if e.more.Some? {
      TightElementsOneLine(e.more.value);
    }
  }

  lemma PayloadOneLine(p: seq<byte>)
    requires CanonicalPayload(p) == Some(p)
    ensures LF !in p
  {
    hide ParseText, Render, Tight, EscapeHtml, Good;
    if p != [] {
      var v := ParseText(p).value;
      ReadIsGrammar(p, v);
      TightOneLine(v);
      HtmlOneLine(Render(Tight(v)));
    }
  }

  lemma {:induction false} KeyTailOneLine(keys: seq<seq<byte>>, i: nat)
    requires i < |keys|
    ensures LF !in KeyTail(keys, i)
    decreases |keys| - i
  {
    hide Marshal;
    MarshalOneLine(keys[i]);
    if i + 1 < |keys| {
      KeyTailOneLine(keys, i + 1);
    }
  }

  lemma KeysOneLine(r: Record)
    ensures LF !in KeysJson(r.keys)
  {
    hide KeyTail;
    if r.keys.Some? && r.keys.value != [] {
      KeyTailOneLine(r.keys.value, 0);
    }
  }

  /** A record's line is one line. */
  lemma LineIsOneLine(r: Record)
    requires Canonical(r)
    ensures LF !in Line(r)
  {
    hide Marshal, KeysJson, CanonicalPayload;
    MarshalOneLine(r.id);
    PayloadOneLine(r.payload);
    KeysOneLine(r);
  }

  lemma NoLaterEnd(a: seq<byte>, x: seq<byte>, b: seq<byte>, y: seq<byte>)
    requires a + x + [LF] == b + y + [LF] && LF !in x && (b == [] || b[|b| - 1] == LF)
    ensures |b| <= |a|
  {
    var t := a + x + [LF];
    forall k | |a| <= k < |a| + |x| ensures t[k] != LF {
      assert t[k] == x[k - |a|];
    }
    assert b != [] ==> t[|b| - 1] == LF;
  }

  /** Texts that end in a line feed before their last line part there. */
  lemma LastLine(a: seq<byte>, x: seq<byte>, b: seq<byte>, y: seq<byte>)
    requires a + x + [LF] == b + y + [LF] && LF !in x && LF !in y
    requires (a == [] || a[|a| - 1] == LF) && (b == [] || b[|b| - 1] == LF)
    ensures a == b && x == y
  {
    var t := a + x + [LF];
    NoLaterEnd(a, x, b, y);
    NoLaterEnd(b, y, a, x);
    assert a == t[..|a|] && b == t[..|b|];
    assert x == t[|a|..|t| - 1] && y == t[|b|..|t| - 1];
  }

  lemma TextEnds(recs: seq<Record>)
    ensures BaseText(recs) == [] <==> recs == []
    ensures recs != [] ==> BaseText(recs)[|BaseText(recs)| - 1] == LF
  {
    hide Line;
  }

  /** The base identity binds the records: their lines determine them all. */
  lemma {:induction false} BaseBinds(a: seq<Record>, b: seq<Record>)
    requires GoodRecords(a) && GoodRecords(b) && BaseText(a) == BaseText(b)
    requires (forall i | 0 <= i < |a| :: Canonical(a[i])) && (forall i | 0 <= i < |b| :: Canonical(b[i]))
    ensures a == b
    decreases |a|
  {
    hide Line, GoodRecord, Canonical;
    TextEnds(a);
    TextEnds(b);
    if a != [] {
      var f, g := a[..|a| - 1], b[..|b| - 1];
      var x, y := a[|a| - 1], b[|b| - 1];
      TextEnds(f);
      TextEnds(g);
      LineIsOneLine(x);
      LineIsOneLine(y);
      LastLine(BaseText(f), Line(x), BaseText(g), Line(y));
      LineBinds(x, y);
      BaseBinds(f, g);
      assert a == f + [x] && b == g + [y];
    }
  }

  /** json.Marshal on raw payloads. */
  ghost predicate Marshals(marshal: seq<byte> -> Option<seq<byte>>) {
    forall p :: marshal(p) == CanonicalPayload(p)
  }
}
