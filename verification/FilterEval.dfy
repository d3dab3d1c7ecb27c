/** Filter evaluation (engine/payload.go:293-468, engine/filter.go:47-58): one
    strict traversal decides every term, and its verdict on the bytes is the
    skipping scanner's. */
module FilterEval {
  import opened Bytes
  import opened JsonNumber
  import opened JsonGrammar
  import opened JsonReading
  import opened PayloadScan
  import opened FilterTrie
  import opened Options
  import Numbers
  import NumberCanon

  // -------------------------------------------------------------- one scalar

  method MatchesString(text: Text, alternatives: seq<Alternative>, leaf: Value) returns (r: bool)
    requires leaf.Str?
    ensures r <==> Matches(text, alternatives, leaf)
  {
    hide DecodedEq;
    for j := 0 to |alternatives|
      invariant forall h | 0 <= h < j ::
                  !(alternatives[h].StringValue? && alternatives[h].value == text.decode(leaf.body))
    {
      var a := alternatives[j];
      if a.StringValue? {
        FastCompareIsExact(text, leaf.body, a.value, CleanAscii(a.value));
        if DecodedEq(text, leaf.body, a.value, CleanAscii(a.value)) {
          return true;
        }
      }
    }
    return false;
  }

  method MatchesScalar(text: Text, alternatives: seq<Alternative>, leaf: Value) returns (r: bool)
    requires leaf.Scalar?
    ensures r <==> Matches(text, alternatives, leaf)
  {
    if leaf.tok == FALSE {
      return FalseValue in alternatives;
    } else if leaf.tok == TRUE {
      return TrueValue in alternatives;
    } else if leaf.tok == NULL {
      return false;
    }
    var c := NumberCanon.CanonicalNumberTokenBytes(leaf.tok, false);
    return c.Canonical? && NumberValue(c.text) in alternatives;
  }

  /** Fires the terminals of one node for a scalar. */
  method FireTerms(text: Text, n: Node, leaf: Value, bits: bv8) returns (out: bv8)
    requires leaf.Str? || leaf.Scalar?
    ensures forall k: Slot :: Has(out, k) <==> Has(bits, k) || FiresHere(text, n, leaf, k)
  {
    hide Has, Bit, Matches, FiresAmong;
    out := bits;
    NoneAmong(text, leaf);
    for j := 0 to |n.terms|
      invariant forall k: Slot :: Has(out, k) <==> Has(bits, k) || FiresAmong(text, n.terms[..j], leaf, k)
    {
      var t := n.terms[j];
      assert n.terms[..j + 1] == n.terms[..j] + [t];
      AmongGrows(text, n.terms[..j], t, leaf);
      if out & Bit(t.slot) == 0 {
        var hit;
        if leaf.Str? {
          hit := MatchesString(text, t.alternatives, leaf);
        } else {
          hit := MatchesScalar(text, t.alternatives, leaf);
        }
        if hit {
          SetBit(out, t.slot);
          out := out | Bit(t.slot);
        }
      } else {
        AlreadySet(out, t.slot);
      }
    }
    assert n.terms[..|n.terms|] == n.terms;
    AmongAll(text, n, leaf);
  }

  ghost predicate FiresAmong(text: Text, terms: seq<Terminal>, leaf: Value, k: Slot) {
    exists t :: t in terms && t.slot == k && Matches(text, t.alternatives, leaf)
  }

  lemma NoneAmong(text: Text, leaf: Value)
    ensures forall k: Slot :: !FiresAmong(text, [], leaf, k)
  {
  }

  lemma AmongGrows(text: Text, terms: seq<Terminal>, t: Terminal, leaf: Value)
    ensures forall k: Slot :: FiresAmong(text, terms + [t], leaf, k) <==>
              FiresAmong(text, terms, leaf, k) || (t.slot == k && Matches(text, t.alternatives, leaf))
  {
    hide Matches;
    forall k: Slot
      ensures FiresAmong(text, terms + [t], leaf, k) <==>
              FiresAmong(text, terms, leaf, k) || (t.slot == k && Matches(text, t.alternatives, leaf))
    {
      assert t in terms + [t];
      if FiresAmong(text, terms, leaf, k) {
        var u :| u in terms && u.slot == k && Matches(text, u.alternatives, leaf);
        assert u in terms + [t];
      }
    }
  }

  lemma AmongAll(text: Text, n: Node, leaf: Value)
    ensures forall k: Slot :: FiresAmong(text, n.terms, leaf, k) <==> FiresHere(text, n, leaf, k)
  {
    hide Matches;
  }

  lemma SetBit(bits: bv8, j: Slot)
    ensures forall k: Slot :: Has(bits | Bit(j), k) <==> Has(bits, k) || j == k
  {
    forall k: Slot ensures Has(bits | Bit(j), k) <==> Has(bits, k) || j == k {
      HasSet(bits, j, k);
    }
  }

  lemma AlreadySet(bits: bv8, j: Slot)
    requires bits & Bit(j) != 0
    ensures Has(bits, j)
  {
  }

  /** The child whose segment is the decoded key, if any. */
  method Child(text: Text, n: Node, key: seq<byte>) returns (child: Option<Node>)
    ensures child == if text.decode(key) in n.children then Some(n.children[text.decode(key)]) else None
  {
    hide DecodedEq;
    var segs := n.children.Keys;
    while segs != {}
      invariant segs <= n.children.Keys
      invariant text.decode(key) in n.children ==> text.decode(key) in segs
      decreases |segs|
    {
      var seg :| seg in segs;
      FastCompareIsExact(text, key, seg, CleanAscii(seg));
      if DecodedEq(text, key, seg, CleanAscii(seg)) {
        return Some(n.children[seg]);
      }
      segs := segs - {seg};
    }
    return None;
  }

  // ------------------------------------------------------------- values by place

  /** Walking the value at i from n sets bit k. */
  ghost predicate ValueFires(text: Text, n: Node, b: seq<byte>, i: nat, k: Slot)
    requires i <= |b|
  {
    ParseValue(b, i).Some? && Fires(text, n, ParseValue(b, i).value.0, k)
  }

  ghost predicate MembersFireAt(text: Text, n: Node, b: seq<byte>, i: nat, k: Slot)
    requires i <= |b|
  {
    ParseMembers(b, i).Some? && MembersFire(text, n, ParseMembers(b, i).value.0, k)
  }

  ghost predicate ElementsFireAt(text: Text, n: Node, b: seq<byte>, i: nat, k: Slot)
    requires i <= |b|
  {
    ParseElements(b, i).Some? && ElementsFire(text, n, ParseElements(b, i).value.0, k)
  }

  lemma FiresAfterWs(text: Text, n: Node, b: seq<byte>, i: nat, k: Slot)
    requires i <= |b|
    ensures ValueFires(text, n, b, i, k) <==> ValueFires(text, n, b, WsEnd(b, i), k)
  {
    hide WsEnd, ParseValue, Fires;
    ValueAfterWs(b, i);
    if ParseValue(b, i).Some? {
      FiresWithoutWs(text, n, ParseValue(b, i).value.0, b[WsEnd(b, i)..WsEnd(b, i)], k);
    }
  }

  /** The whitespace before a value does not matter. */
  lemma FiresWithoutWs(text: Text, n: Node, v: Value, ws: seq<byte>, k: Slot)
    ensures Fires(text, n, v, k) <==> Fires(text, n, v.(ws := ws), k)
  {
    assert forall t: Terminal :: Matches(text, t.alternatives, v) <==> Matches(text, t.alternatives, v.(ws := ws));
  }

  lemma ElementsFireSplit(text: Text, n: Node, x: Elements, k: Slot)
    ensures ElementsFire(text, n, x, k) <==>
            Fires(text, n, x.value, k) || (x.more.Some? && ElementsFire(text, n, x.more.value, k))
  {
    hide Fires;
  }

  /** What the token at j fires. */
  lemma TokenFires(text: Text, n: Node, b: seq<byte>, j: nat, k: Slot)
    requires j < |b| && !Space(b[j]) && ValueEnd(b, j).Some?
    ensures b[j] == QUOTE ==>
              (ValueFires(text, n, b, j, k) <==> FiresHere(text, n, Str([], b[j + 1..StringEnd(b, j + 1).value]), k))
    ensures b[j] == LBRACE && Closes(b, j + 1, RBRACE) ==> !ValueFires(text, n, b, j, k)
    ensures b[j] == LBRACE && !Closes(b, j + 1, RBRACE) ==>
              (ValueFires(text, n, b, j, k) <==> MembersFireAt(text, n, b, j + 1, k))
    ensures b[j] == LBRACKET && Closes(b, j + 1, RBRACKET) ==> !ValueFires(text, n, b, j, k)
    ensures b[j] == LBRACKET && !Closes(b, j + 1, RBRACKET) ==>
              (ValueFires(text, n, b, j, k) <==> ElementsFireAt(text, n, b, j + 1, k))
    ensures b[j] != QUOTE && b[j] != LBRACE && b[j] != LBRACKET ==>
              (ValueFires(text, n, b, j, k) <==> FiresHere(text, n, Scalar([], b[j..ScalarEnd(b, j)]), k))
  {
    hide WsEnd, StringEnd, ScalarEnd, IsScalar, ParseMembers, ParseElements, Matches;
    NoSpaceHere(b, j);
    assert b[j..j] == [];
  }

  /** The member at i is followed by another, or closes the object. */
  ghost predicate Followed(b: seq<byte>, i: nat) {
    && i <= |b| && KeyAt(b, i).Some? && ValueEnd(b, KeyAt(b, i).value.2).Some?
    && var t := WsEnd(b, ValueEnd(b, KeyAt(b, i).value.2).value);
       t < |b| && ((b[t] == COMMA && MembersEnd(b, t + 1).Some?) || b[t] == RBRACE)
  }

  ghost function ValueTreeAt(b: seq<byte>, i: nat): Option<Value> {
    if i <= |b| && ParseValue(b, i).Some? then Some(ParseValue(b, i).value.0) else None
  }

  ghost function MembersTreeAt(b: seq<byte>, i: nat): Option<Members> {
    if i <= |b| && ParseMembers(b, i).Some? then Some(ParseMembers(b, i).value.0) else None
  }

  /** The tree of the member at i. */
  lemma MemberPieces(b: seq<byte>, i: nat) returns (m: Members)
    requires Followed(b, i)
    ensures MembersTreeAt(b, i) == Some(m)
    ensures var (ks, ke, c) := KeyAt(b, i).value;
            m.key == b[ks..ke] && Some(m.value) == ValueTreeAt(b, c)
    ensures var t := WsEnd(b, ValueEnd(b, KeyAt(b, i).value.2).value);
            m.more == if b[t] == COMMA then MembersTreeAt(b, t + 1) else None
  {
    hide WsEnd, StringEnd, ParseValue, ParseMembers;
    MemberSteps(b, i);
    var x := ReadMembersParts(b, i);
    m := ParseMembers(b, i).value.0;
  }

  lemma MembersFireSplit(text: Text, n: Node, m: Members, k: Slot)
    ensures MembersFire(text, n, m, k) <==>
            || (text.decode(m.key) in n.children && Fires(text, n.children[text.decode(m.key)], m.value, k))
            || (m.more.Some? && MembersFire(text, n, m.more.value, k))
  {
    hide Fires;
  }

  /** What one member fires, and what is left after it. */
  lemma MemberFireSteps(text: Text, n: Node, b: seq<byte>, i: nat, k: Slot)
    requires Followed(b, i)
    ensures var (ks, ke, c) := KeyAt(b, i).value;
            var t := WsEnd(b, ValueEnd(b, c).value);
            MembersFireAt(text, n, b, i, k) <==>
              || (text.decode(b[ks..ke]) in n.children && ValueFires(text, n.children[text.decode(b[ks..ke])], b, c, k))
              || (b[t] == COMMA && MembersFireAt(text, n, b, t + 1, k))
  {
    hide WsEnd, KeyAt, ParseValue, ParseMembers, Fires;
    var m := MemberPieces(b, i);
    MembersFireSplit(text, n, m, k);
  }

  lemma ElementFireSteps(text: Text, n: Node, b: seq<byte>, i: nat, k: Slot)
    requires i <= |b| && ValueEnd(b, i).Some?
    ensures var t := WsEnd(b, ValueEnd(b, i).value);
            && (t < |b| && b[t] == COMMA && ElementsEnd(b, t + 1).Some? ==>
                  (ElementsFireAt(text, n, b, i, k) <==>
                   ValueFires(text, n, b, i, k) || ElementsFireAt(text, n, b, t + 1, k)))
            && (t < |b| && b[t] == RBRACKET ==> (ElementsFireAt(text, n, b, i, k) <==> ValueFires(text, n, b, i, k)))
  {
    hide WsEnd, ParseValue, Fires;
  }

  // ------------------------------------------------------------------- the walk

  /** The bits recorded for the value at i: those there were and those it fires. */
  ghost predicate Recorded(text: Text, n: Node, b: seq<byte>, i: nat, bits: bv8, out: bv8)
    requires i <= |b|
  {
    forall k: Slot :: Has(out, k) <==> Has(bits, k) || ValueFires(text, n, b, i, k)
  }

  /** Evaluates one value against a trie node. Its verdict on the bytes does
      not mention the node. */
  method WalkValue(s: Cursor, text: Text, n: Node, bits: bv8) returns (ok: bool, out: bv8)
    requires s.Valid()
    modifies s`i
    ensures s.Valid()
    ensures ok <==> ValueEnd(s.b, old(s.i)).Some?
    ensures ok ==> Some(s.i) == ValueEnd(s.b, old(s.i)) && s.i > old(s.i)
    ensures ok ==> Recorded(text, n, s.b, old(s.i), bits, out)
    decreases |s.b| - s.i, 2
  {
    hide IsScalar, WsEnd, StringEnd, ScalarEnd, ValueEnd, MembersEnd, ElementsEnd, ValueFires, FiresHere, Has,
      MembersFireAt, ElementsFireAt;
    out := bits;
    ghost var first := s.i;
    ValueAfterWs(s.b, s.i);
    WsOnce(s.b, s.i);
    s.Ws();
    if s.i >= |s.b| {
      NothingThere(s.b);
      return false, out;
    }
    ghost var j := s.i;
    SpaceEnds(s.b, j);
    TokenEnds(s.b, j);
    if s.b[s.i] == LBRACE {
      ok, out := WalkObject(s, text, n, bits);
    } else if s.b[s.i] == LBRACKET {
      ok, out := WalkArray(s, text, n, bits);
    } else if s.b[s.i] == QUOTE {
      var vs, ve;
      vs, ve, ok := s.RawString();
      if ok {
        out := FireTerms(text, n, Str([], s.b[vs..ve]), bits);
      }
    } else {
      var start, end;
      start, end, ok := s.RawScalar();
      if ok {
        out := FireTerms(text, n, Scalar([], s.b[start..end]), bits);
      }
    }
    if ok {
      forall k: Slot ensures Has(out, k) <==> Has(bits, k) || ValueFires(text, n, s.b, first, k) {
        FiresAfterWs(text, n, s.b, first, k);
        TokenFires(text, n, s.b, j, k);
      }
    }
  }

  method WalkObject(s: Cursor, text: Text, n: Node, bits: bv8) returns (ok: bool, out: bv8)
    requires s.Valid() && s.i < |s.b| && s.b[s.i] == LBRACE
    modifies s`i
    ensures s.Valid()
    ensures ok <==> ValueEnd(s.b, old(s.i)).Some?
    ensures ok ==> Some(s.i) == ValueEnd(s.b, old(s.i)) && s.i > old(s.i)
    ensures ok ==> Recorded(text, n, s.b, old(s.i), bits, out)
    decreases |s.b| - s.i, 1
  {
    hide WsEnd, StringEnd, KeyAt, ValueEnd, MembersEnd, ElementsEnd, ValueFires, Has, MembersFireAt;
    out := bits;
    ghost var j := s.i;
    TokenEnds(s.b, j);
    s.i := s.i + 1;
    s.Ws();
    if s.i < |s.b| && s.b[s.i] == RBRACE {
      s.i := s.i + 1;
      forall k: Slot ensures !ValueFires(text, n, s.b, j, k) {
        TokenFires(text, n, s.b, j, k);
      }
      return true, out;
    }
    ok, out := WalkMembers(s, text, n, bits, j + 1);
    if ok {
      forall k: Slot ensures ValueFires(text, n, s.b, j, k) <==> MembersFireAt(text, n, s.b, j + 1, k) {
        TokenFires(text, n, s.b, j, k);
      }
    }
  }

  /** The members of an object, from the first one on. */
  method WalkMembers(s: Cursor, text: Text, n: Node, bits: bv8, ghost first: nat) returns (ok: bool, out: bv8)
    requires s.Valid() && first <= s.i && s.i == WsEnd(s.b, first)
    modifies s`i
    ensures s.Valid()
    ensures ok <==> MembersEnd(s.b, first).Some?
    ensures ok ==> Some(s.i) == MembersEnd(s.b, first) && s.i > old(s.i)
    ensures ok ==> forall k: Slot :: Has(out, k) <==> Has(bits, k) || MembersFireAt(text, n, s.b, first, k)
    decreases |s.b| - s.i, 0
  {
    hide WsEnd, StringEnd, KeyAt, ValueEnd, MembersEnd, ElementsEnd, ValueFires, Has, MembersFireAt, ParseMembers;
    out := bits;
    MembersAfterWs(s.b, first);
    FiresAfterLead(text, n, s.b, first);
    while true
      invariant old(s.i) <= s.i <= |s.b|
      invariant MembersEnd(s.b, first) == MembersEnd(s.b, s.i)
      invariant MembersEnd(s.b, first).Some? ==> forall k: Slot ::
        Has(out, k) || MembersFireAt(text, n, s.b, s.i, k) <==> Has(bits, k) || MembersFireAt(text, n, s.b, first, k)
      decreases |s.b| - s.i
    {
      ghost var i := s.i;
      MemberSteps(s.b, i);
      var ks, ke;
      ks, ke, ok := s.Key();
      if !ok {
        return;
      }
      ghost var before := out;
      var child := Child(text, n, s.b[ks..ke]);
      if child.Some? {
        ok, out := WalkValue(s, text, child.value, out);
      } else {
        ok := s.SkipValue();
      }
      if !ok {
        return;
      }
      s.Ws();
      if s.i >= |s.b| {
        return false, out;
      }
      if MembersEnd(s.b, first).Some? {
        forall k: Slot ensures Has(out, k) || (s.b[s.i] == COMMA && MembersFireAt(text, n, s.b, s.i + 1, k)) <==>
                               Has(before, k) || MembersFireAt(text, n, s.b, i, k) {
          MemberFireSteps(text, n, s.b, i, k);
        }
      }
      if s.b[s.i] == COMMA {
        s.i := s.i + 1;
      } else if s.b[s.i] == RBRACE {
        s.i := s.i + 1;
        return true, out;
      } else {
        return false, out;
      }
    }
  }

  lemma FiresAfterLead(text: Text, n: Node, b: seq<byte>, i: nat)
    requires i <= |b|
    ensures forall k: Slot :: MembersFireAt(text, n, b, i, k) <==> MembersFireAt(text, n, b, WsEnd(b, i), k)
  {
    hide WsEnd, ParseMembers, Fires;
    MembersAfterWs(b, i);
    if ParseMembers(b, i).Some? {
      forall k: Slot ensures MembersFireAt(text, n, b, i, k) <==> MembersFireAt(text, n, b, WsEnd(b, i), k) {
        MembersFireSplit(text, n, ParseMembers(b, i).value.0, k);
        MembersFireSplit(text, n, ParseMembers(b, WsEnd(b, i)).value.0, k);
      }
    }
  }

  method WalkArray(s: Cursor, text: Text, n: Node, bits: bv8) returns (ok: bool, out: bv8)
    requires s.Valid() && s.i < |s.b| && s.b[s.i] == LBRACKET
    modifies s`i
    ensures s.Valid()
    ensures ok <==> ValueEnd(s.b, old(s.i)).Some?
    ensures ok ==> Some(s.i) == ValueEnd(s.b, old(s.i)) && s.i > old(s.i)
    ensures ok ==> Recorded(text, n, s.b, old(s.i), bits, out)
    decreases |s.b| - s.i, 1
  {
    hide WsEnd, StringEnd, ValueEnd, MembersEnd, ElementsEnd, ValueFires, Has, ElementsFireAt;
    out := bits;
    ghost var j := s.i;
    TokenEnds(s.b, j);
    s.i := s.i + 1;
    s.Ws();
    if s.i < |s.b| && s.b[s.i] == RBRACKET {
      s.i := s.i + 1;
      forall k: Slot ensures !ValueFires(text, n, s.b, j, k) {
        TokenFires(text, n, s.b, j, k);
      }
      return true, out;
    }
    ok, out := WalkElements(s, text, n, bits, j + 1);
    if ok {
      forall k: Slot ensures ValueFires(text, n, s.b, j, k) <==> ElementsFireAt(text, n, s.b, j + 1, k) {
        TokenFires(text, n, s.b, j, k);
      }
    }
  }

  /** The elements of an array, from the first one on. */
  method WalkElements(s: Cursor, text: Text, n: Node, bits: bv8, ghost first: nat) returns (ok: bool, out: bv8)
    requires s.Valid() && first <= s.i && s.i == WsEnd(s.b, first)
    modifies s`i
    ensures s.Valid()
    ensures ok <==> ElementsEnd(s.b, first).Some?
    ensures ok ==> Some(s.i) == ElementsEnd(s.b, first) && s.i > old(s.i)
    ensures ok ==> forall k: Slot :: Has(out, k) <==> Has(bits, k) || ElementsFireAt(text, n, s.b, first, k)
    decreases |s.b| - s.i, 3
  {
    hide WsEnd, ValueEnd, ElementsEnd, ValueFires, Has, ElementsFireAt, ParseElements;
    out := bits;
    ElementsAfterWs(s.b, first);
    ElementsFireAfterWs(text, n, s.b, first);
    while true
      invariant old(s.i) <= s.i <= |s.b|
      invariant ElementsEnd(s.b, first) == ElementsEnd(s.b, s.i)
      invariant ElementsEnd(s.b, first).Some? ==> forall k: Slot ::
        Has(out, k) || ElementsFireAt(text, n, s.b, s.i, k) <==> Has(bits, k) || ElementsFireAt(text, n, s.b, first, k)
      decreases |s.b| - s.i
    {
      ghost var i := s.i;
      ElementSteps(s.b, i);
      ghost var before := out;
      ok, out := WalkValue(s, text, n, out);
      if !ok {
        return;
      }
      s.Ws();
      if s.i >= |s.b| {
        return false, out;
      }
      if ElementsEnd(s.b, first).Some? {
        forall k: Slot ensures Has(out, k) || (s.b[s.i] == COMMA && ElementsFireAt(text, n, s.b, s.i + 1, k)) <==>
                               Has(before, k) || ElementsFireAt(text, n, s.b, i, k) {
          ElementFireSteps(text, n, s.b, i, k);
        }
      }
      if s.b[s.i] == COMMA {
        s.i := s.i + 1;
      } else if s.b[s.i] == RBRACKET {
        s.i := s.i + 1;
        return true, out;
      } else {
        return false, out;
      }
    }
  }

  lemma ElementsFireAfterWs(text: Text, n: Node, b: seq<byte>, i: nat)
    requires i <= |b|
    ensures forall k: Slot :: ElementsFireAt(text, n, b, i, k) <==> ElementsFireAt(text, n, b, WsEnd(b, i), k)
  {
    hide WsEnd, ParseElements, ParseValue, Fires;
    ElementsAfterWs(b, i);
    if ParseElements(b, i).Some? {
      var x := ParseElements(b, i).value.0;
      var j := WsEnd(b, i);
      forall k: Slot ensures ElementsFireAt(text, n, b, i, k) <==> ElementsFireAt(text, n, b, j, k) {
        FiresWithoutWs(text, n, x.value, b[j..j], k);
        ElementsFireSplit(text, n, x, k);
        ElementsFireSplit(text, n, ParseElements(b, j).value.0, k);
      }
    }
  }

  // ----------------------------------------------------------------- evaluation

  datatype Verdict = Malformed | Decided(pass: bool)

  ghost predicate AllSatisfied(terms: seq<Term>, text: Text, v: Value) {
    forall i | 0 <= i < |terms| :: terms[i].Satisfied(text, v)
  }

  /** A payload passes when it is one JSON text and satisfies every term; it is
      malformed exactly when it is no JSON text, whatever the filter. */
  method Eval(f: Compiled, ghost terms: seq<Term>, text: Text, payload: seq<byte>) returns (r: Verdict)
    requires Compiles(f, terms)
    ensures r.Malformed? <==> forall v :: !IsText(payload, v)
    ensures r.Decided? ==>
              exists v :: IsText(payload, v) && (r.pass <==> AllSatisfied(terms, text, v))
  {
    hide Has, Bit, Compiles, IsText, ParseValue, WsEnd, Fires;
    var s := new Cursor(payload);
    var ok, bits := WalkValue(s, text, f.root, 0);
    if !ok {
      NoTree(payload);
      return Malformed;
    }
    ghost var v := ParseValue(payload, 0).value.0;
    s.Ws();
    ReadIsGrammar(payload, v);
    NoTree(payload);
    if s.i != |payload| {
      return Malformed;
    }
    NoBits();
    FullIsAll(f, terms, text, v, bits);
    return Decided(bits == f.full);
  }

  lemma NoTree(b: seq<byte>)
    ensures ParseText(b).None? ==> forall v :: !IsText(b, v)
  {
    forall v ensures ParseText(b) == Some(v) <==> IsText(b, v) {
      ReadIsGrammar(b, v);
    }
  }

  lemma NoBits()
    ensures forall k: Slot :: !Has(0, k)
  {
  }
}
