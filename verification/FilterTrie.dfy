/** Compiled payload filters (engine/filter.go:21-58, 100-157): the terms share
    one trie of path segments, and a mask of up to eight bits records which
    have matched. */
module FilterTrie {
  import opened Bytes
  import opened JsonNumber
  import opened JsonGrammar
  import opened Options
  import Numbers

  // --------------------------------------------------------------- the JSON text

  /** Decoding of string bodies and the check for valid UTF-8, as the standard
      library has them: a valid body without escapes decodes to itself. */
  datatype Codec = Codec(valid: seq<byte> -> bool, decode: seq<byte> -> seq<byte>)

  ghost predicate Lawful(c: Codec) {
    forall s :: c.valid(s) && BACKSLASH !in s ==> c.decode(s) == s
  }

  type Text = c: Codec | Lawful(c)
    ghost witness Codec(s => false, s => s)

  /** Printable ASCII without quote or backslash: needs no JSON escaping. */
  predicate CleanAscii(s: seq<byte>) {
    forall i | 0 <= i < |s| :: 32 <= s[i] <= 126 && s[i] != QUOTE && s[i] != BACKSLASH
  }

  /** Compares a raw body with a wanted string, decoding only when it must. */
  predicate DecodedEq(text: Text, body: seq<byte>, want: seq<byte>, clean: bool) {
    if BACKSLASH !in body && clean && text.valid(body) then body == want else text.decode(body) == want
  }

  lemma FastCompareIsExact(text: Text, body: seq<byte>, want: seq<byte>, clean: bool)
    ensures DecodedEq(text, body, want, clean) <==> text.decode(body) == want
  {
    assert Lawful(text);
  }

  // -------------------------------------------------------------------- filters

  datatype Alternative = FalseValue | TrueValue | NumberValue(canonical: seq<byte>) | StringValue(value: seq<byte>)

  /** Whether a scalar of the payload is one of the alternatives. */
  ghost predicate Matches(text: Text, alternatives: seq<Alternative>, leaf: Value) {
    match leaf
    case Str(_, body) => exists a :: a in alternatives && a.StringValue? && a.value == text.decode(body)
    case Scalar(_, tok) =>
      if tok == FALSE then FalseValue in alternatives
      else if tok == TRUE then TrueValue in alternatives
      else if tok == NULL then false
      else
        var c := Numbers.Canonicalize(tok, false);
        c.Canonical? && NumberValue(c.text) in alternatives
    case _ => false
  }

  /** leaf is a scalar of v that path leads to: objects are descended by every
      member whose decoded key is the next segment, arrays by every element. */
  ghost predicate Reaches(text: Text, v: Value, path: seq<seq<byte>>, leaf: Value)
    decreases v
  {
    match v
    case Str(_, _) => path == [] && leaf == v
    case Scalar(_, _) => path == [] && leaf == v
    case EmptyObj(_, _) => false
    case EmptyArr(_, _) => false
    case Obj(_, members) => path != [] && MembersReach(text, members, path, leaf)
    case Arr(_, elements) => ElementsReach(text, elements, path, leaf)
  }

  ghost predicate MembersReach(text: Text, m: Members, path: seq<seq<byte>>, leaf: Value)
    requires path != []
    decreases m
  {
    || (text.decode(m.key) == path[0] && Reaches(text, m.value, path[1..], leaf))
    || (m.more.Some? && MembersReach(text, m.more.value, path, leaf))
  }

  ghost predicate ElementsReach(text: Text, x: Elements, path: seq<seq<byte>>, leaf: Value)
    decreases x
  {
    || Reaches(text, x.value, path, leaf)
    || (x.more.Some? && ElementsReach(text, x.more.value, path, leaf))
  }

  /** One conjunct: some value the path reaches is an alternative. */
  datatype Term = Term(segs: seq<seq<byte>>, alternatives: seq<Alternative>) {
    ghost predicate Satisfied(text: Text, v: Value) {
      exists leaf :: Reaches(text, v, segs, leaf) && Matches(text, alternatives, leaf)
    }
  }

  // ----------------------------------------------------------------------- masks

  type Slot = k: nat | k < 8

  function Bit(k: Slot): bv8 {
    match k
    case 0 => 1
    case 1 => 2
    case 2 => 4
    case 3 => 8
    case 4 => 16
    case 5 => 32
    case 6 => 64
    case _ => 128
  }

  predicate Has(bits: bv8, k: Slot) {
    bits & Bit(k) != 0
  }

  /** uint8(1<<n) - 1, in eight bits: all of them for n = 8. */
  function Full(n: nat): bv8
    requires n <= 8
  {
    if n == 8 then 0 - 1 else Bit(n) - 1
  }

  lemma HasSet(bits: bv8, j: Slot, k: Slot)
    ensures Has(bits | Bit(j), k) <==> Has(bits, k) || j == k
  {
    assert Bit(j) & Bit(k) != 0 <==> j == k by {
      SlotCases(j);
      SlotCases(k);
    }
    assert (bits | Bit(j)) & Bit(k) == (bits & Bit(k)) | (Bit(j) & Bit(k));
    assert j == k ==> Bit(j) & Bit(k) == Bit(k);
  }

  lemma SlotCases(k: Slot)
    ensures k == 0 || k == 1 || k == 2 || k == 3 || k == 4 || k == 5 || k == 6 || k == 7
  {
  }

  lemma FullHas(n: nat, k: Slot)
    requires n <= 8
    ensures Has(Full(n), k) <==> k < n
  {
    SlotCases(k);
    if n < 8 {
      SlotCases(n);
    }
  }

  /** A mask is determined by its eight bits. */
  lemma MaskExtensional(a: bv8, b: bv8)
    requires forall k: Slot :: Has(a, k) <==> Has(b, k)
    ensures a == b
  {
    assert Has(a, 0) <==> Has(b, 0);
    assert Has(a, 1) <==> Has(b, 1);
    assert Has(a, 2) <==> Has(b, 2);
    assert Has(a, 3) <==> Has(b, 3);
    assert Has(a, 4) <==> Has(b, 4);
    assert Has(a, 5) <==> Has(b, 5);
    assert Has(a, 6) <==> Has(b, 6);
    assert Has(a, 7) <==> Has(b, 7);
  }

  // ------------------------------------------------------------------------ trie

  /** A term that ends at a node: its bit's position and its alternatives. */
  datatype Terminal = Terminal(slot: Slot, alternatives: seq<Alternative>)

  datatype Node = Node(children: map<seq<byte>, Node>, terms: seq<Terminal>)

  function TermsAt(n: Node, path: seq<seq<byte>>): seq<Terminal>
    decreases |path|
  {
    if path == [] then n.terms
    else if path[0] in n.children then TermsAt(n.children[path[0]], path[1..])
    else []
  }

  // ------------------------------------------------------- what one pass records

  ghost predicate FiresHere(text: Text, n: Node, leaf: Value, k: Slot) {
    exists t :: t in n.terms && t.slot == k && Matches(text, t.alternatives, leaf)
  }

  /** Walking v from node n sets bit k. */
  ghost predicate Fires(text: Text, n: Node, v: Value, k: Slot)
    decreases v
  {
    match v
    case Str(_, _) => FiresHere(text, n, v, k)
    case Scalar(_, _) => FiresHere(text, n, v, k)
    case EmptyObj(_, _) => false
    case EmptyArr(_, _) => false
    case Obj(_, members) => MembersFire(text, n, members, k)
    case Arr(_, elements) => ElementsFire(text, n, elements, k)
  }

  ghost predicate MembersFire(text: Text, n: Node, m: Members, k: Slot)
    decreases m
  {
    || MemberFires(text, n, m, k)
    || (m.more.Some? && MembersFire(text, n, m.more.value, k))
  }

  ghost predicate MemberFires(text: Text, n: Node, m: Members, k: Slot)
    decreases m, 0
  {
    text.decode(m.key) in n.children && Fires(text, n.children[text.decode(m.key)], m.value, k)
  }

  ghost predicate ElementsFire(text: Text, n: Node, x: Elements, k: Slot)
    decreases x
  {
    || Fires(text, n, x.value, k)
    || (x.more.Some? && ElementsFire(text, n, x.more.value, k))
  }

  /** A terminal below n fires for v: its path reaches a matching value. */
  ghost predicate Witness(text: Text, n: Node, v: Value, k: Slot, path: seq<seq<byte>>, t: Terminal, leaf: Value) {
    t in TermsAt(n, path) && t.slot == k && Reaches(text, v, path, leaf) && Matches(text, t.alternatives, leaf)
  }

  ghost predicate MembersWitness(text: Text, n: Node, m: Members, k: Slot, path: seq<seq<byte>>, t: Terminal,
                                 leaf: Value) {
    && path != [] && t in TermsAt(n, path) && t.slot == k
    && MembersReach(text, m, path, leaf) && Matches(text, t.alternatives, leaf)
  }

  ghost predicate ElementsWitness(text: Text, n: Node, x: Elements, k: Slot, path: seq<seq<byte>>, t: Terminal,
                                  leaf: Value) {
    && t in TermsAt(n, path) && t.slot == k
    && ElementsReach(text, x, path, leaf) && Matches(text, t.alternatives, leaf)
  }

  /** One walk over the trie records exactly what the paths reach. */
  lemma FiresIsReached(text: Text, n: Node, v: Value, k: Slot)
    ensures Fires(text, n, v, k) <==> exists path, t, leaf :: Witness(text, n, v, k, path, t, leaf)
    decreases v
  {
    hide Matches;
    match v {
      case Str(_, _) => LeafWitness(text, n, v, k);
      case Scalar(_, _) => LeafWitness(text, n, v, k);
      case EmptyObj(_, _) =>
      case EmptyArr(_, _) =>
      case Obj(_, members) =>
        MembersFireIsReached(text, n, members, k);
        if Fires(text, n, v, k) {
          var path, t, leaf :| MembersWitness(text, n, members, k, path, t, leaf);
          assert Witness(text, n, v, k, path, t, leaf);
        }
        forall path, t, leaf | Witness(text, n, v, k, path, t, leaf) ensures MembersFire(text, n, members, k) {
          assert MembersWitness(text, n, members, k, path, t, leaf);
        }
      case Arr(_, elements) =>
        ElementsFireIsReached(text, n, elements, k);
        if Fires(text, n, v, k) {
          var path, t, leaf :| ElementsWitness(text, n, elements, k, path, t, leaf);
          assert Witness(text, n, v, k, path, t, leaf);
        }
        forall path, t, leaf | Witness(text, n, v, k, path, t, leaf) ensures ElementsFire(text, n, elements, k) {
          assert ElementsWitness(text, n, elements, k, path, t, leaf);
        }
    }
  }

  lemma LeafWitness(text: Text, n: Node, v: Value, k: Slot)
    requires v.Str? || v.Scalar?
    ensures FiresHere(text, n, v, k) <==> exists path, t, leaf :: Witness(text, n, v, k, path, t, leaf)
  {
    hide Matches;
    if FiresHere(text, n, v, k) {
      var t :| t in n.terms && t.slot == k && Matches(text, t.alternatives, v);
      assert Witness(text, n, v, k, [], t, v);
    }
  }

  lemma MembersFireIsReached(text: Text, n: Node, m: Members, k: Slot)
    ensures MembersFire(text, n, m, k) <==> exists path, t, leaf :: MembersWitness(text, n, m, k, path, t, leaf)
    decreases m
  {
    hide Matches, Fires, Reaches;
    var seg := text.decode(m.key);
    if seg in n.children {
      FiresIsReached(text, n.children[seg], m.value, k);
    }
    if m.more.Some? {
      MembersFireIsReached(text, n, m.more.value, k);
    }
    if MemberFires(text, n, m, k) {
      var path, t, leaf :| Witness(text, n.children[seg], m.value, k, path, t, leaf);
      assert ([seg] + path)[1..] == path;
      assert MembersWitness(text, n, m, k, [seg] + path, t, leaf);
    } else if m.more.Some? && MembersFire(text, n, m.more.value, k) {
      var path, t, leaf :| MembersWitness(text, n, m.more.value, k, path, t, leaf);
      assert MembersWitness(text, n, m, k, path, t, leaf);
    }
    forall path, t, leaf | MembersWitness(text, n, m, k, path, t, leaf) ensures MembersFire(text, n, m, k) {
      if seg == path[0] && Reaches(text, m.value, path[1..], leaf) {
        assert Witness(text, n.children[seg], m.value, k, path[1..], t, leaf);
      } else {
        assert MembersWitness(text, n, m.more.value, k, path, t, leaf);
      }
    }
  }

  lemma ElementsFireIsReached(text: Text, n: Node, x: Elements, k: Slot)
    ensures ElementsFire(text, n, x, k) <==> exists path, t, leaf :: ElementsWitness(text, n, x, k, path, t, leaf)
    decreases x
  {
    hide Matches, Fires, Reaches;
    FiresIsReached(text, n, x.value, k);
    if x.more.Some? {
      ElementsFireIsReached(text, n, x.more.value, k);
    }
    if Fires(text, n, x.value, k) {
      var path, t, leaf :| Witness(text, n, x.value, k, path, t, leaf);
      assert ElementsWitness(text, n, x, k, path, t, leaf);
    } else if x.more.Some? && ElementsFire(text, n, x.more.value, k) {
      var path, t, leaf :| ElementsWitness(text, n, x.more.value, k, path, t, leaf);
      assert ElementsWitness(text, n, x, k, path, t, leaf);
    }
    forall path, t, leaf | ElementsWitness(text, n, x, k, path, t, leaf) ensures ElementsFire(text, n, x, k) {
      if Reaches(text, x.value, path, leaf) {
        assert Witness(text, n, x.value, k, path, t, leaf);
      } else {
        assert ElementsWitness(text, n, x.more.value, k, path, t, leaf);
      }
    }
  }

  // ----------------------------------------------------------------- compilation

  /** Adds a terminal at the end of its path, making the nodes it needs. */
  function Insert(n: Node, segs: seq<seq<byte>>, t: Terminal): Node
    decreases |segs|
  {
    if segs == [] then n.(terms := n.terms + [t])
    else
      var child := if segs[0] in n.children then n.children[segs[0]] else Node(map[], []);
      n.(children := n.children[segs[0] := Insert(child, segs[1..], t)])
  }

  lemma {:induction false} InsertAdds(n: Node, segs: seq<seq<byte>>, t: Terminal, path: seq<seq<byte>>)
    ensures TermsAt(Insert(n, segs, t), path) == TermsAt(n, path) + if path == segs then [t] else []
    decreases |segs|
  {
    if segs == [] {
      assert path == segs || TermsAt(Insert(n, segs, t), path) == TermsAt(n, path) by {
        if path != [] && path[0] in n.children {
        }
      }
    } else if path != [] && path[0] == segs[0] {
      var child := if segs[0] in n.children then n.children[segs[0]] else Node(map[], []);
      InsertAdds(child, segs[1..], t, path[1..]);
      assert segs == [segs[0]] + segs[1..] && path == [path[0]] + path[1..];
      if segs[0] !in n.children {
        NoTerms(path[1..]);
      }
    }
  }

  lemma NoTerms(path: seq<seq<byte>>)
    ensures TermsAt(Node(map[], []), path) == []
  {
  }

  /** The trie of the first i terms. */
  ghost predicate Holds(root: Node, terms: seq<Term>, i: nat)
    requires i <= |terms| <= 8
  {
    forall path, t :: t in TermsAt(root, path) <==>
      t.slot < i && path == terms[t.slot].segs && t.alternatives == terms[t.slot].alternatives
  }

  /** The compiled form of at most eight terms. */
  datatype Compiled = Compiled(root: Node, full: bv8)

  ghost predicate Compiles(f: Compiled, terms: seq<Term>) {
    |terms| <= 8 && Holds(f.root, terms, |terms|) && f.full == Full(|terms|)
  }

  method CompileTrie(terms: seq<Term>) returns (f: Compiled)
    requires |terms| <= 8
    ensures Compiles(f, terms)
  {
    var root := Node(map[], []);
    forall path ensures TermsAt(root, path) == [] {
      NoTerms(path);
    }
    for idx := 0 to |terms|
      invariant Holds(root, terms, idx)
    {
      var t := Terminal(idx, terms[idx].alternatives);
      InsertHolds(root, terms, idx);
      root := Insert(root, terms[idx].segs, t);
    }
    f := Compiled(root, Full(|terms|));
  }

  lemma InsertHolds(root: Node, terms: seq<Term>, idx: nat)
    requires idx < |terms| <= 8 && Holds(root, terms, idx)
    ensures Holds(Insert(root, terms[idx].segs, Terminal(idx, terms[idx].alternatives)), terms, idx + 1)
  {
    var t0 := Terminal(idx, terms[idx].alternatives);
    var next := Insert(root, terms[idx].segs, t0);
    forall path, t ensures t in TermsAt(next, path) <==>
        t.slot < idx + 1 && path == terms[t.slot].segs && t.alternatives == terms[t.slot].alternatives {
      InsertAdds(root, terms[idx].segs, t0, path);
    }
  }

  /** All bits set is all terms satisfied. */
  lemma FullIsAll(f: Compiled, terms: seq<Term>, text: Text, v: Value, bits: bv8)
    requires Compiles(f, terms)
    requires forall k: Slot :: Has(bits, k) <==> Fires(text, f.root, v, k)
    ensures bits == f.full <==> forall i | 0 <= i < |terms| :: terms[i].Satisfied(text, v)
  {
    hide Fires, Has, Bit, Reaches, Matches;
    forall k: Slot
      ensures Has(f.full, k) <==> k < |terms|
      ensures Has(bits, k) <==> k < |terms| && terms[k].Satisfied(text, v)
    {
      FullHas(|terms|, k);
      SlotSatisfied(f.root, terms, text, v, k);
    }
    if forall i | 0 <= i < |terms| :: terms[i].Satisfied(text, v) {
      MaskExtensional(bits, f.full);
    } else {
      var i :| 0 <= i < |terms| && !terms[i].Satisfied(text, v);
      assert Has(f.full, i) && !Has(bits, i);
    }
  }

  lemma SlotSatisfied(root: Node, terms: seq<Term>, text: Text, v: Value, k: Slot)
    requires |terms| <= 8 && Holds(root, terms, |terms|)
    ensures Fires(text, root, v, k) <==> k < |terms| && terms[k].Satisfied(text, v)
  {
    hide Fires, Reaches, Matches;
    FiresIsReached(text, root, v, k);
    if k < |terms| && terms[k].Satisfied(text, v) {
      var leaf :| Reaches(text, v, terms[k].segs, leaf) && Matches(text, terms[k].alternatives, leaf);
      assert Witness(text, root, v, k, terms[k].segs, Terminal(k, terms[k].alternatives), leaf);
    }
  }
}
