/** The characters of JSON strings (RFC 8259, section 7) over UTF-8 bytes: the
    standard library's decoding of a string body, and the one canonical
    encoder (engine/typed_filter.go:415-455), which it inverts. */
module JsonText {
  import opened Bytes
  import opened JsonNumber
  import opened JsonGrammar
  import opened Options
  import FilterTrie

  // ------------------------------------------------------------------------ UTF-8

  predicate Continues(c: byte) {
    128 <= c < 192
  }

  /** The length of the encoded rune s starts with; 0 when there is none. */
  function RuneLen(s: seq<byte>): (n: nat)
    ensures n <= |s|
  {
    if s == [] then 0
    else if s[0] < 128 then 1
    else if 194 <= s[0] < 224 && |s| >= 2 && Continues(s[1]) then 2
    else if 224 <= s[0] < 240 && |s| >= 3 && Continues(s[1]) && Continues(s[2]) &&
            (s[0] == 224 ==> s[1] >= 160) && (s[0] == 237 ==> s[1] < 160) then 3
    else if 240 <= s[0] < 245 && |s| >= 4 && Continues(s[1]) && Continues(s[2]) && Continues(s[3]) &&
            (s[0] == 240 ==> s[1] >= 144) && (s[0] == 244 ==> s[1] < 144) then 4
    else 0
  }

  predicate Utf8(s: seq<byte>) {
    s == [] || (RuneLen(s) > 0 && Utf8(s[RuneLen(s)..]))
  }

  /** The number of runes, an undecodable byte counting as one. */
  function RuneCount(s: seq<byte>): nat {
    if s == [] then 0 else 1 + RuneCount(s[Step(s)..])
  }

  function Step(s: seq<byte>): (n: nat)
    requires s != []
    ensures 0 < n <= |s|
  {
    if RuneLen(s) > 0 then RuneLen(s) else 1
  }

  /** U+FFFD. */
  const REPLACEMENT: seq<byte> := [239, 191, 189]

  function EncodeRune(r: nat): seq<byte>
    requires r < 0x11_0000
  {
    if r < 128 then [r]
    else if r < 2048 then [192 + r / 64, 128 + r % 64]
    else if r < 65536 then [224 + r / 4096, 128 + r / 64 % 64, 128 + r % 64]
    else [240 + r / 262144, 128 + r / 4096 % 64, 128 + r / 64 % 64, 128 + r % 64]
  }

  predicate Surrogate(r: nat) {
    0xD800 <= r < 0xE000
  }

  lemma EncodedLen(r: nat)
    requires r < 0x11_0000 && !Surrogate(r)
    ensures RuneLen(EncodeRune(r)) == |EncodeRune(r)| > 0
  {
  }

  lemma RuneLenPrefix(a: seq<byte>, b: seq<byte>)
    requires RuneLen(a) > 0
    ensures RuneLen(a + b) == RuneLen(a)
  {
  }

  lemma {:induction false} Utf8Join(a: seq<byte>, b: seq<byte>)
    requires Utf8(a) && Utf8(b)
    ensures Utf8(a + b)
    decreases |a|
  {
    if a == [] {
      assert a + b == b;
    } else {
      RuneLenPrefix(a, b);
      Utf8Join(a[RuneLen(a)..], b);
      assert (a + b)[RuneLen(a)..] == a[RuneLen(a)..] + b;
    }
  }

  lemma OneRune(a: seq<byte>)
    requires RuneLen(a) == |a| > 0
    ensures Utf8(a)
  {
    assert a[RuneLen(a)..] == [];
  }

  // --------------------------------------------------------------------- decoding

  function HexValue(c: byte): (v: nat)
    requires Hex(c)
    ensures v < 16
  {
    if c <= 57 then c - 48 else if c <= 70 then c - 55 else c - 87
  }

  /** The code unit of a \uXXXX escape at the head of s. */
  function Unit(s: seq<byte>): (r: Option<nat>)
    ensures r.Some? ==> r.value < 65536 && |s| >= 6
  {
    if |s| >= 6 && s[0] == BACKSLASH && s[1] == LOWER_U && Hex(s[2]) && Hex(s[3]) && Hex(s[4]) && Hex(s[5]) then
      Some(4096 * HexValue(s[2]) + 256 * HexValue(s[3]) + 16 * HexValue(s[4]) + HexValue(s[5]))
    else None
  }

  /** What the escape at the head of s decodes to, and its length. */
  function Escaped(s: seq<byte>): (r: (seq<byte>, nat))
    requires |s| >= 2
    ensures 2 <= r.1 <= |s|
  {
    var u := Unit(s);
    if u.Some? then
      if !Surrogate(u.value) then (EncodeRune(u.value), 6)
      else
        var low := Unit(s[6..]);
        if u.value < 0xDC00 && low.Some? && 0xDC00 <= low.value < 0xE000 then
          (EncodeRune(0x1_0000 + (u.value - 0xD800) * 1024 + (low.value - 0xDC00)), 12)
        else (REPLACEMENT, 6)
    else
      (match s[1]
       case 98 => [8]
       case 102 => [12]
       case 110 => [10]
       case 114 => [13]
       case 116 => [9]
       case c => [c], 2)
  }

  /** The string a body spells; undecodable bytes become U+FFFD. */
  function Decode(s: seq<byte>): seq<byte> {
    if s == [] then []
    else if s[0] == BACKSLASH && |s| >= 2 then
      var (r, n) := Escaped(s);
      r + Decode(s[n..])
    else if RuneLen(s) == 0 then REPLACEMENT + Decode(s[1..])
    else s[..RuneLen(s)] + Decode(s[RuneLen(s)..])
  }

  // --------------------------------------------------------------------- encoding

  function LowerHex(v: nat): byte
    requires v < 16
  {
    if v < 10 then 48 + v else 87 + v
  }

  /** The canonical spelling of the character s starts with. */
  function EscapeFirst(s: seq<byte>): seq<byte>
    requires s != []
  {
    var c := s[0];
    if c >= 128 then (if RuneLen(s) == 0 then REPLACEMENT else s[..RuneLen(s)])
    else if c == QUOTE || c == BACKSLASH then [BACKSLASH, c]
    else if c == 8 then [BACKSLASH, 98]
    else if c == 12 then [BACKSLASH, 102]
    else if c == LF then [BACKSLASH, 110]
    else if c == CR then [BACKSLASH, 114]
    else if c == TAB then [BACKSLASH, 116]
    else if c < 32 then [BACKSLASH, LOWER_U, 48, 48, LowerHex(c / 16), LowerHex(c % 16)]
    else [c]
  }

  function Escape(s: seq<byte>): seq<byte> {
    if s == [] then [] else EscapeFirst(s) + Escape(s[Step(s)..])
  }

  method AppendJSONString(dst: seq<byte>, s: seq<byte>) returns (r: seq<byte>)
    ensures r == dst + Quoted(Escape(s))
  {
    hide EscapeFirst, RuneLen;
    r := dst + [QUOTE];
    var i := 0;
    while i < |s|
      invariant i <= |s|
      invariant r + Escape(s[i..]) == dst + [QUOTE] + Escape(s)
    {
      var rest := s[i..];
      r := r + EscapeFirst(rest);
      assert rest[Step(rest)..] == s[i + Step(rest)..];
      i := i + Step(rest);
    }
    assert s[i..] == [] && r == dst + [QUOTE] + Escape(s);
    r := r + [QUOTE];
  }

  // ------------------------------------------------------------------- inversion

  lemma BodyAfter(s: seq<byte>)
    requires s != [] && Body(s) && s[0] != BACKSLASH
    ensures Body(s[Step(s)..])
  {
    if Step(s) >= 2 {
      assert s[1..][1..] == s[2..] && s[1..][0] == s[1];
      if Step(s) >= 3 {
        assert s[2..][1..] == s[3..] && s[2..][0] == s[2];
        if Step(s) >= 4 {
          assert s[3..][1..] == s[4..] && s[3..][0] == s[3];
        }
      }
    }
  }

  lemma EscapedFacts(s: seq<byte>)
    requires |s| >= 2 && Body(s) && s[0] == BACKSLASH
    ensures Utf8(Escaped(s).0) && Body(s[Escaped(s).1..])
  {
    hide EncodeRune, Utf8;
    var u := Unit(s);
    if u.Some? {
      if Surrogate(u.value) {
        var low := Unit(s[6..]);
        if u.value < 0xDC00 && low.Some? && 0xDC00 <= low.value < 0xE000 {
          var r := 0x1_0000 + (u.value - 0xD800) * 1024 + (low.value - 0xDC00);
          EncodedLen(r);
          OneRune(EncodeRune(r));
          assert s[6..][6..] == s[12..];
        } else {
          OneRune(REPLACEMENT);
        }
      } else {
        EncodedLen(u.value);
        OneRune(EncodeRune(u.value));
      }
    } else {
      assert CharLen(s) == 2;
      OneRune(Escaped(s).0);
    }
  }

  /** Whatever the body, its decoding is valid UTF-8. */
  lemma {:induction false} DecodedIsUtf8(s: seq<byte>)
    requires Body(s)
    ensures Utf8(Decode(s))
    decreases |s|
  {
    hide RuneLen, Escaped;
    if s != [] {
      if s[0] == BACKSLASH {
        EscapedFacts(s);
        var (r, n) := Escaped(s);
        DecodedIsUtf8(s[n..]);
        Utf8Join(r, Decode(s[n..]));
      } else {
        BodyAfter(s);
        var n := RuneLen(s);
        DecodedIsUtf8(s[Step(s)..]);
        if n == 0 {
          OneRune(REPLACEMENT) by { ReplacementIsRune(); }
          Utf8Join(REPLACEMENT, Decode(s[1..]));
        } else {
          HeadRune(s);
          OneRune(s[..n]);
          Utf8Join(s[..n], Decode(s[n..]));
        }
      }
    }
  }

  lemma ReplacementIsRune()
    ensures RuneLen(REPLACEMENT) == |REPLACEMENT|
  {
  }

  lemma HeadRune(s: seq<byte>)
    requires RuneLen(s) > 0
    ensures RuneLen(s[..RuneLen(s)]) == RuneLen(s)
  {
  }

  /** Valid UTF-8 without escapes decodes to itself. */
  lemma {:induction false} DecodePlain(s: seq<byte>)
    requires Utf8(s) && BACKSLASH !in s
    ensures Decode(s) == s
    decreases |s|
  {
    if s != [] {
      var n := RuneLen(s);
      DecodePlain(s[n..]);
      assert s == s[..n] + s[n..];
    }
  }

  /** The abstract decoder of the filter evaluator can be this one. */
  function Library(): FilterTrie.Codec {
    FilterTrie.Codec(s => Utf8(s), s => Decode(s))
  }

  lemma LibraryIsLawful()
    ensures FilterTrie.Lawful(Library())
  {
    forall s | Library().valid(s) && BACKSLASH !in s ensures Library().decode(s) == s {
      DecodePlain(s);
    }
  }

  /** One canonical character decodes to the character it stands for. */
  lemma EscapeFirstDecodes(s: seq<byte>, rest: seq<byte>)
    requires RuneLen(s) > 0
    ensures Decode(EscapeFirst(s) + rest) == s[..RuneLen(s)] + Decode(rest)
  {
    hide Decode;
    var e, c := EscapeFirst(s), s[0];
    var t := e + rest;
    if c >= 128 {
      HeadRune(s);
      RuneLenPrefix(s[..RuneLen(s)], rest);
      DecodeStep(t);
      assert t[..RuneLen(s)] == s[..RuneLen(s)] && t[RuneLen(s)..] == rest;
    } else if e[0] == BACKSLASH {
      DecodeStep(t);
      assert t[2..] == rest || |e| == 6;
      assert |e| == 6 ==> t[6..] == rest;
      assert s[..1] == [c];
      if |e| == 6 {
        HexOfByte(c);
        assert Unit(t) == Some(c as nat);
      }
    } else {
      DecodeStep(t);
      assert t[..1] == [c] && t[1..] == rest && s[..1] == [c];
    }
  }

  lemma HexOfByte(c: byte)
    requires c < 32
    ensures Hex(LowerHex(c / 16)) && Hex(LowerHex(c % 16)) && Hex(48)
    ensures 4096 * HexValue(48) + 256 * HexValue(48) + 16 * HexValue(LowerHex(c / 16)) + HexValue(LowerHex(c % 16)) ==
            c as int
  {
  }

  lemma DecodeStep(s: seq<byte>)
    requires s != []
    ensures s[0] == BACKSLASH && |s| >= 2 ==> Decode(s) == Escaped(s).0 + Decode(s[Escaped(s).1..])
    ensures s[0] != BACKSLASH && RuneLen(s) > 0 ==> Decode(s) == s[..RuneLen(s)] + Decode(s[RuneLen(s)..])
  {
  }

  lemma EscapeFirstBody(s: seq<byte>, rest: seq<byte>)
    requires RuneLen(s) > 0 && Body(rest)
    ensures Body(EscapeFirst(s) + rest)
  {
    var e, c := EscapeFirst(s), s[0];
    var t := e + rest;
    if c >= 128 {
      PlainRun(e, rest);
    } else if |e| == 6 {
      HexOfByte(c);
      assert t[6..] == rest;
    } else if |e| == 2 {
      assert t[2..] == rest;
    } else {
      assert t[1..] == rest;
    }
  }

  lemma {:induction false} PlainRun(e: seq<byte>, rest: seq<byte>)
    requires Body(rest) && forall i | 0 <= i < |e| :: Plain(e[i])
    ensures Body(e + rest)
    decreases |e|
  {
    if e == [] {
      assert e + rest == rest;
    } else {
      PlainRun(e[1..], rest);
      assert (e + rest)[1..] == e[1..] + rest;
    }
  }

  /** The canonical spelling is a string body and decodes to the string. */
  lemma {:induction false} EscapeDecodes(s: seq<byte>)
    requires Utf8(s)
    ensures Body(Escape(s)) && Decode(Escape(s)) == s
    decreases |s|
  {
    hide EscapeFirst, RuneLen, Decode, Body;
    if s == [] {
      Nothing();
    } else {
      var n := RuneLen(s);
      EscapeDecodes(s[n..]);
      EscapeFirstBody(s, Escape(s[n..]));
      EscapeFirstDecodes(s, Escape(s[n..]));
      assert s == s[..n] + s[n..];
    }
  }

  lemma Nothing()
    ensures Body([]) && Decode([]) == []
  {
  }
}
