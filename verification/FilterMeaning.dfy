/** Filters from end to end (engine/filter.go:43-58, 100-157, engine/payload.go:
    369-400): an accepted request, compiled against a list's declared fields and
    evaluated on a payload, passes exactly when the payload says for every name
    one of the values the request lets it be. The exception is exact: a payload
    number whose exponent the canonicalizer clips. */
module FilterMeaning {
  import opened Bytes
  import opened Options
  import opened JsonNumber
  import opened JsonGrammar
  import opened JsonReading
  import opened JsonText
  import opened Decimal
  import opened Numbers
  import opened NumberOrder
  import opened FilterTrie
  import opened FilterEval
  import opened TypedFilter

  /** The standard library's strings. */
  function LibraryText(): (t: Text)
    ensures t == Library()
  {
    LibraryIsLawful();
    Library()
  }

  // -------------------------------------------------------------------- one scalar

  ghost predicate AllProperValues(s: seq<Alternative>) {
    forall i | 0 <= i < |s| :: Proper(s[i])
  }

  predicate IsLeaf(v: Value) {
    v.Str? || v.Scalar?
  }

  /** The clamp does not change the number this scalar is. */
  ghost predicate Unclipped(leaf: Value) {
    leaf.Scalar? ==> forall n | Read(leaf.tok) == Some(n) && n.WellFormed() :: !Clipped(n)
  }

  /** Some value the scalar spells is one the alternatives stand for. */
  ghost predicate Agrees(alternatives: seq<Alternative>, leaf: Value)
    requires AllProperValues(alternatives)
  {
    exists x :: ScalarSays(leaf, x) && Among(alternatives, x)
  }

  /** What the number token says, and nothing else. */
  lemma NumberSays(leaf: Value, n: Number)
    requires leaf.Scalar? && Read(leaf.tok) == Some(n)
    ensures n.WellFormed() && leaf.tok !in {TRUE, FALSE, NULL}
    ensures forall x :: ScalarSays(leaf, x) <==> x == Num(Numbers.Value(n))
  {
    hide Read, Numbers.Value, Number.WellFormed, Number.Spell;
    ReadSpells(leaf.tok);
    NumberIsRead(leaf.tok);
    LiteralsAreNoNumbers();
  }

  lemma LiteralSays(leaf: Value)
    requires leaf.Scalar? && Read(leaf.tok).None?
    ensures forall x ::
              ScalarSays(leaf, x) <==> (leaf.tok == FALSE && x == Bool(false)) || (leaf.tok == TRUE && x == Bool(true))
  {
  }

  /** A proper number alternative stands for a normal form's value exactly when
      it is that normal form's bytes. */
  lemma StandsFor(a: Alternative, r: Normal)
    requires Proper(a) && r.WellFormed()
    ensures TypeOf(a) == Num(r.Value()) <==> InEnvelope(r) && a == NumberValue(Fixed(r).Spell())
  {
    hide Fixed, InEnvelope;
    if a.NumberValue? {
      NormalUnique(NumberOf(a.canonical), r);
      FixedInjective(NumberOf(a.canonical), r);
    }
  }

  lemma NumberAmong(alternatives: seq<Alternative>, r: Normal)
    requires AllProperValues(alternatives) && r.WellFormed()
    ensures Among(alternatives, Num(r.Value())) <==> InEnvelope(r) && NumberValue(Fixed(r).Spell()) in alternatives
  {
    hide Fixed, InEnvelope, TypeOf, Proper;
    if Among(alternatives, Num(r.Value())) {
      var a :| a in alternatives && TypeOf(a) == Num(r.Value());
      StandsFor(a, r);
    }
    if NumberValue(Fixed(r).Spell()) in alternatives {
      StandsFor(NumberValue(Fixed(r).Spell()), r);
    }
  }

  /** What the canonicalizer writes decides whether a number token matches. */
  lemma NumberMatches(alternatives: seq<Alternative>, leaf: Value, n: Number)
    requires leaf.Scalar? && Read(leaf.tok) == Some(n)
    ensures Matches(LibraryText(), alternatives, leaf) <==>
            Canonicalize(leaf.tok, false).Canonical? && NumberValue(Canonicalize(leaf.tok, false).text) in alternatives
  {
    hide Canonicalize;
    NumberSays(leaf, n);
  }

  lemma NormalOfIsWell(n: Number, exp: int)
    requires n.WellFormed()
    ensures NormalAt(n, exp).WellFormed()
  {
  }

  /** A scalar of the payload matches exactly when it is, as a typed value, one
      of the alternatives. */
  lemma MatchesIsTyped(alternatives: seq<Alternative>, leaf: Value)
    requires AllProperValues(alternatives) && IsLeaf(leaf) && Good(leaf) && Unclipped(leaf)
    ensures Matches(LibraryText(), alternatives, leaf) <==> Agrees(alternatives, leaf)
  {
    hide Fixed, InEnvelope, Canonicalize, Clipped, NormalOf, Read;
    if leaf.Str? {
      StringMatches(alternatives, leaf);
    } else if Read(leaf.tok).Some? {
      var n := Read(leaf.tok).value;
      NumberSays(leaf, n);
      NumberMatches(alternatives, leaf, n);
      CanonicalIsTrue(leaf.tok, n);
      NormalOfValue(n);
      NormalOfIsWell(n, ExpOf(n.exp));
      NumberAmong(alternatives, NormalOf(n));
    } else {
      LiteralMatches(alternatives, leaf);
    }
  }

  /** A value is among the alternatives exactly when the one alternative that
      stands for it is. */
  lemma AmongOne(alternatives: seq<Alternative>, one: Alternative, x: TypedValue)
    requires AllProperValues(alternatives)
    requires forall a | Proper(a) :: TypeOf(a) == x <==> a == one
    ensures Among(alternatives, x) <==> one in alternatives
  {
    hide TypeOf, Proper;
    if Among(alternatives, x) {
      var a :| a in alternatives && TypeOf(a) == x;
    }
  }

  lemma StringMatches(alternatives: seq<Alternative>, leaf: Value)
    requires AllProperValues(alternatives) && leaf.Str?
    ensures Matches(LibraryText(), alternatives, leaf) <==> Agrees(alternatives, leaf)
  {
    hide Decode, Utf8, RuneCount, Among;
    var x, one := Txt(Decode(leaf.body)), StringValue(Decode(leaf.body));
    assert ScalarSays(leaf, x);
    assert Matches(LibraryText(), alternatives, leaf) <==> one in alternatives;
    assert Agrees(alternatives, leaf) <==> Among(alternatives, x);
    TypesOfStrings(alternatives, leaf);
  }

  lemma TypesOfStrings(alternatives: seq<Alternative>, leaf: Value)
    requires AllProperValues(alternatives) && leaf.Str?
    ensures Among(alternatives, Txt(Decode(leaf.body))) <==> StringValue(Decode(leaf.body)) in alternatives
  {
    hide Decode, Utf8, RuneCount, Among;
    AmongOne(alternatives, StringValue(Decode(leaf.body)), Txt(Decode(leaf.body)));
  }

  lemma LiteralMatches(alternatives: seq<Alternative>, leaf: Value)
    requires AllProperValues(alternatives) && leaf.Scalar? && Good(leaf) && Read(leaf.tok).None?
    ensures Matches(LibraryText(), alternatives, leaf) <==> Agrees(alternatives, leaf)
  {
    hide Canonicalize, Read, Among;
    NumberIsRead(leaf.tok);
    LiteralSays(leaf);
    AmongOne(alternatives, TrueValue, Bool(true));
    AmongOne(alternatives, FalseValue, Bool(false));
    assert leaf.tok in [TRUE, FALSE, NULL];
  }

  ghost predicate TypedMatch(leaf: Value) {
    forall alternatives | AllProperValues(alternatives) ::
      Matches(LibraryText(), alternatives, leaf) <==> Agrees(alternatives, leaf)
  }

  /** Where the clamp clips a number, it matches a value it is not, or does not
      match the value it is. */
  lemma ClippedDisagrees(leaf: Value, n: Number)
    requires leaf.Scalar? && Read(leaf.tok) == Some(n) && n.WellFormed() && Clipped(n)
    ensures exists a :: Proper(a) && !(Matches(LibraryText(), [a], leaf) <==> Agrees([a], leaf))
  {
    hide Fixed, InEnvelope, Canonicalize, Clipped, NormalOf, NormalAt, Read, ExpOf, CappedExpOf, Matches;
    var r, c := NormalOf(n), NormalAt(n, CappedExpOf(n.exp));
    NumberSays(leaf, n);
    CanonicalIsTrue(leaf.tok, n);
    NormalOfValue(n);
    FixedInjective(r, c);
    var out := Canonicalize(leaf.tok, false);
    WhatIsWritten(leaf.tok, n);
    var shown := if InEnvelope(c) then c else r;
    var a := NumberValue(Fixed(shown).Spell());
    assert IsCanonical(a.canonical, shown);
    assert AllProperValues([a]);
    NumberMatches([a], leaf, n);
    NumberAmong([a], r);
  }

  lemma WhatIsWritten(tok: seq<byte>, n: Number)
    requires Read(tok) == Some(n) && n.WellFormed()
    ensures Canonicalize(tok, false) == Written(NormalAt(n, CappedExpOf(n.exp)), false)
  {
    hide Read, NormalAt, CappedExpOf, Written;
  }

  /** The comparison of canonical bytes is the comparison of typed values
      exactly when the clamp leaves the payload's number alone. */
  lemma TypedIffUnclipped(leaf: Value)
    requires IsLeaf(leaf) && Good(leaf)
    ensures TypedMatch(leaf) <==> Unclipped(leaf)
  {
    hide Clipped, Matches, Agrees, Read;
    if Unclipped(leaf) {
      forall alternatives | AllProperValues(alternatives)
        ensures Matches(LibraryText(), alternatives, leaf) <==> Agrees(alternatives, leaf)
      {
        MatchesIsTyped(alternatives, leaf);
      }
    } else {
      var n :| Read(leaf.tok) == Some(n) && n.WellFormed() && Clipped(n);
      ClippedDisagrees(leaf, n);
      var a :| Proper(a) && !(Matches(LibraryText(), [a], leaf) <==> Agrees([a], leaf));
      assert AllProperValues([a]);
    }
  }

  /** The payload number of a long token, which fits a base line. */
  function ClampLeaf(): Value {
    Scalar([], ClampWitness().Spell())
  }

  /** It is 1, and the filter value 10 matches it. */
  lemma OneMatchesTen()
    ensures Good(ClampLeaf()) && |ClampLeaf().tok| < 0x10_0000
    ensures forall x :: ScalarSays(ClampLeaf(), x) <==> x == Num(1.0)
    ensures Proper(NumberValue([49, ZERO])) && TypeOf(NumberValue([49, ZERO])) == Num(10.0)
    ensures Matches(LibraryText(), [NumberValue([49, ZERO])], ClampLeaf())
    ensures !Agrees([NumberValue([49, ZERO])], ClampLeaf())
  {
    hide Canonicalize, Clipped, NormalOf, Read, Numbers.Value, Zeros, Matches, Fixed;
    ClampGivesWrongNumber();
    var n := ClampWitness();
    SpellReads(n);
    NumberIsRead(n.Spell());
    ClampIsNumber();
    NumberSays(ClampLeaf(), n);
    NumberMatches([NumberValue([49, ZERO])], ClampLeaf(), n);
    TenIsTen();
  }

  lemma ClampIsNumber()
    ensures |ClampWitness().Spell()| < 0x10_0000
  {
    hide Zeros;
  }

  lemma TenIsTen()
    ensures Proper(NumberValue([49, ZERO])) && TypeOf(NumberValue([49, ZERO])) == Num(10.0)
  {
    var ten := Normal(false, [49], 1);
    assert Fixed(ten).Spell() == [49, ZERO];
    assert IsCanonical([49, ZERO], ten);
    FixedInjective(NumberOf([49, ZERO]), ten);
    TenIsValue();
  }

  lemma TenIsValue()
    ensures Signed(false, Nat([49]), 1) == 10.0
  {
    assert [49][..0] == [];
  }

  // -------------------------------------------------------------- declared paths

  const DOT: byte := 46

  /** A path's segments: the parts between its dots. */
  function SplitDots(path: seq<byte>): (segs: seq<seq<byte>>)
    ensures segs != []
  {
    if path == [] then [[]]
    else
      var rest := SplitDots(path[1..]);
      if path[0] == DOT then [[]] + rest else [[path[0]] + rest[0]] + rest[1..]
  }

  function JoinDots(segs: seq<seq<byte>>): seq<byte>
    requires segs != []
  {
    if |segs| == 1 then segs[0] else segs[0] + [DOT] + JoinDots(segs[1..])
  }

  predicate Dotless(segs: seq<seq<byte>>) {
    forall i | 0 <= i < |segs| :: DOT !in segs[i]
  }

  lemma {:induction false} SplitJoins(path: seq<byte>)
    ensures Dotless(SplitDots(path)) && JoinDots(SplitDots(path)) == path
  {
    if path != [] {
      var rest := SplitDots(path[1..]);
      SplitJoins(path[1..]);
      if path[0] == DOT {
        assert ([[]] + rest)[1..] == rest;
        assert [path[0]] + path[1..] == path;
      } else {
        var segs := [[path[0]] + rest[0]] + rest[1..];
        assert segs[1..] == rest[1..];
        assert JoinDots(segs) == [path[0]] + JoinDots(rest);
      }
    }
  }

  lemma {:induction false} JoinSplits(segs: seq<seq<byte>>)
    requires segs != [] && Dotless(segs)
    ensures SplitDots(JoinDots(segs)) == segs
    decreases |segs|, |segs[0]|
  {
    hide SplitDots;
    if segs[0] != [] {
      var less := [segs[0][1..]] + segs[1..];
      assert less[1..] == segs[1..];
      JoinSplits(less);
      assert [segs[0][0]] + less[0] == segs[0];
      SplitPush(segs[0][0], JoinDots(less));
      assert JoinDots(segs) == [segs[0][0]] + JoinDots(less);
    } else if |segs| > 1 {
      JoinSplits(segs[1..]);
      SplitPush(DOT, JoinDots(segs[1..]));
      assert JoinDots(segs) == [DOT] + JoinDots(segs[1..]);
      assert [[]] + segs[1..] == segs;
    } else {
      SplitNothing();
      assert segs == [[]];
    }
  }

  lemma SplitPush(c: byte, path: seq<byte>)
    ensures var rest := SplitDots(path);
            SplitDots([c] + path) == if c == DOT then [[]] + rest else [[c] + rest[0]] + rest[1..]
  {
    assert ([c] + path)[1..] == path;
  }

  lemma SplitNothing()
    ensures SplitDots([]) == [[]]
  {
  }

  /** The segments of a path are the one dot-free list that joins to it. */
  lemma SplitIsInverse(path: seq<byte>, segs: seq<seq<byte>>)
    requires segs != []
    ensures segs == SplitDots(path) <==> Dotless(segs) && JoinDots(segs) == path
  {
    SplitJoins(path);
    if Dotless(segs) && JoinDots(segs) == path {
      JoinSplits(segs);
    }
  }

  /** A filter name a list declares, and the payload path it stands for. */
  datatype Field = Field(name: seq<byte>, path: seq<byte>)

  /** Declarations are sorted by name when the list is configured. */
  ghost predicate Declared(fields: seq<Field>) {
    forall i, j | 0 <= i < j < |fields| :: Less(fields[i].name, fields[j].name)
  }

  /** Binary search for a name. */
  method FindField(fields: seq<Field>, name: seq<byte>) returns (r: Option<Field>)
    requires Declared(fields)
    ensures r.Some? ==> r.value in fields && r.value.name == name
    ensures r.None? ==> forall g :: g in fields ==> g.name != name
  {
    hide Less;
    var lo, hi := 0, |fields|;
    while lo < hi
      invariant 0 <= lo <= hi <= |fields|
      invariant forall i | 0 <= i < lo :: Less(fields[i].name, name)
      invariant forall i | hi <= i < |fields| :: !Less(fields[i].name, name)
    {
      var mid := lo + (hi - lo) / 2;
      StringOrder(fields[mid].name, name);
      if Compare(fields[mid].name, name) < 0 {
        forall i | 0 <= i < mid ensures Less(fields[i].name, name) {
          LessTransitive(fields[i].name, fields[mid].name, name);
        }
        lo := mid + 1;
      } else {
        forall i | mid < i < |fields| ensures !Less(fields[i].name, name) {
          StringOrder(fields[i].name, name);
          if Less(fields[i].name, name) {
            LessTransitive(fields[mid].name, fields[i].name, name);
          }
        }
        hi := mid;
      }
    }
    LessIrreflexive(name);
    if lo < |fields| && fields[lo].name == name {
      return Some(fields[lo]);
    }
    forall i | lo < i < |fields| ensures Less(fields[lo].name, fields[i].name) {
    }
    return None;
  }

  // ----------------------------------------------------------------- compilation

  /** The term is the entry's alternatives at the path its name stands for. */
  ghost predicate Resolves(fields: seq<Field>, e: Entry, t: Term) {
    exists g :: g in fields && g.name == e.name && t.segs == SplitDots(g.path) && t.alternatives == e.value.scalars
  }

  ghost predicate Resolved(fields: seq<Field>, f: Filter, terms: seq<Term>) {
    |terms| == |f| && forall i | 0 <= i < |f| :: Resolves(fields, f[i], terms[i])
  }

  ghost predicate Undeclares(fields: seq<Field>, e: Entry) {
    forall g | g in fields :: g.name != e.name
  }

  ghost predicate FirstUndeclared(fields: seq<Field>, f: Filter, i: nat) {
    i < |f| && Undeclares(fields, f[i]) && forall j | 0 <= j < i :: !Undeclares(fields, f[j])
  }

  ghost predicate CompiledFrom(c: Compiled, fields: seq<Field>, f: Filter) {
    exists terms :: Resolved(fields, f, terms) && Compiles(c, terms)
  }

  datatype Compiling = NoFilter | Undeclared(name: seq<byte>) | Ready(filter: Compiled)

  /** Compiles a parsed filter against a list's declarations: none for the empty
      filter, and an error naming the first name that is not declared. */
  method CompileTypedFilter(fields: seq<Field>, f: Filter) returns (r: Compiling)
    requires Declared(fields) && NormalForm(f)
    ensures r.NoFilter? <==> f == []
    ensures r.Undeclared? ==> exists i: nat :: FirstUndeclared(fields, f, i) && f[i].name == r.name
    ensures r.Ready? ==> CompiledFrom(r.filter, fields, f)
    ensures r.Ready? ==> forall i | 0 <= i < |f| :: !Undeclares(fields, f[i])
  {
    hide Compiles, SplitDots, Less, GoodName, GoodValue;
    if f == [] {
      return NoFilter;
    }
    var terms: seq<Term> := [];
    for i := 0 to |f|
      invariant |terms| == i && forall j | 0 <= j < i :: Resolves(fields, f[j], terms[j])
      invariant forall j | 0 <= j < i :: !Undeclares(fields, f[j])
    {
      var g := FindField(fields, f[i].name);
      if g.None? {
        assert FirstUndeclared(fields, f, i);
        return Undeclared(f[i].name);
      }
      terms := terms + [Term(SplitDots(g.value.path), f[i].value.scalars)];
      assert Resolves(fields, f[i], terms[i]);
    }
    var c := CompileTrie(terms);
    return Ready(c);
  }

  // ----------------------------------------------------------------- evaluation

  /** The payload says x at the place the name stands for. */
  ghost predicate Says(fields: seq<Field>, v: Value, name: seq<byte>, x: TypedValue) {
    exists g, leaf ::
      g in fields && g.name == name && Reaches(LibraryText(), v, SplitDots(g.path), leaf) && ScalarSays(leaf, x)
  }

  ghost predicate SomeShared(fields: seq<Field>, request: Value, v: Value, name: seq<byte>) {
    exists x :: TreeSays(request, name, x) && Says(fields, v, name, x)
  }

  ghost predicate Asks(request: Value, name: seq<byte>) {
    exists x :: TreeSays(request, name, x)
  }

  lemma SomethingSaid(v: Value) returns (x: TypedValue)
    requires Good(v) && ValueAllowed(v)
    ensures ValueSays(v, x)
  {
    hide ScalarSays, ScalarOf, Decode, Proper, TypeOf;
    if IsIn(v) {
      var e := v.members.value.elements;
      assert GoodMembers(v.members) && Good(v.members.value) && GoodElements(e) && ElementsAllowed(e);
      x := TypeOf(FirstAlternative(e.value));
    } else {
      x := TypeOf(FirstAlternative(v));
    }
  }

  ghost function FirstAlternative(v: Value): (a: Alternative)
    requires Good(v) && ScalarOf(v).Some?
    ensures Proper(a) && ScalarSays(v, TypeOf(a))
  {
    ScalarOfSays(v);
    ScalarOf(v).value
  }

  ghost predicate MembersAsk(m: Members, name: seq<byte>) {
    exists x :: MembersSay(m, name, x)
  }

  lemma MembersAskOf(m: Members, name: seq<byte>, x: TypedValue)
    requires MembersSay(m, name, x)
    ensures MembersAsk(m, name)
  {
  }

  lemma {:induction false} NamedIsAsked(m: Members, name: seq<byte>)
    requires GoodMembers(m) && MembersAllowed(m)
    ensures name in Names(m) <==> MembersAsk(m, name)
  {
    hide ValueSays, ValueAllowed, Decode, Body, RuneCount, Good;
    if name == Decode(m.key) {
      var x := SomethingSaid(m.value);
      MembersAskOf(m, name, x);
    } else if m.more.Some? {
      NamedIsAsked(m.more.value, name);
      if MembersAsk(m, name) {
        var y :| MembersSay(m, name, y);
        MembersAskOf(m.more.value, name, y);
      }
      if MembersAsk(m.more.value, name) {
        var y :| MembersSay(m.more.value, name, y);
        MembersAskOf(m, name, y);
      }
    }
  }

  /** A request asks about exactly the names it holds. */
  lemma AsksItsNames(request: Value, name: seq<byte>)
    requires Good(request) && Allowed(request)
    ensures Asks(request, name) <==> request.Obj? && name in Names(request.members)
  {
    hide MembersSay, MembersAllowed, GoodMembers, Names;
    if request.Obj? {
      NamedIsAsked(request.members, name);
      if Asks(request, name) {
        var x :| TreeSays(request, name, x);
        MembersAskOf(request.members, name, x);
      }
      if MembersAsk(request.members, name) {
        var x :| MembersSay(request.members, name, x);
        assert TreeSays(request, name, x);
      }
    }
  }

  /** For every name of the request the payload says a value the request lets
      it be. */
  ghost predicate Admits(fields: seq<Field>, request: Value, v: Value) {
    forall name | Asks(request, name) :: SomeShared(fields, request, v, name)
  }

  /** The clamp changes no number the declared paths lead to. */
  ghost predicate AllUnclipped(fields: seq<Field>, v: Value) {
    forall g, leaf | g in fields && Reaches(LibraryText(), v, SplitDots(g.path), leaf) :: Unclipped(leaf)
  }

  lemma {:induction false} ReachedIsLeaf(text: Text, v: Value, path: seq<seq<byte>>, leaf: Value)
    requires Good(v) && Reaches(text, v, path, leaf)
    ensures IsLeaf(leaf) && Good(leaf) && |Render(leaf)| <= |Render(v)|
    decreases v
  {
    match v {
      case Str(_, _) =>
      case Scalar(_, _) =>
      case Obj(_, members) => MemberReachedIsLeaf(text, members, path, leaf);
      case Arr(_, elements) => ElementReachedIsLeaf(text, elements, path, leaf);
      case _ =>
    }
  }

  lemma {:induction false} MemberReachedIsLeaf(text: Text, m: Members, path: seq<seq<byte>>, leaf: Value)
    requires GoodMembers(m) && path != [] && MembersReach(text, m, path, leaf)
    ensures IsLeaf(leaf) && Good(leaf) && |Render(leaf)| <= |RenderMembers(m)|
    decreases m
  {
    if text.decode(m.key) == path[0] && Reaches(text, m.value, path[1..], leaf) {
      ReachedIsLeaf(text, m.value, path[1..], leaf);
    } else {
      MemberReachedIsLeaf(text, m.more.value, path, leaf);
    }
  }

  lemma {:induction false} ElementReachedIsLeaf(text: Text, e: Elements, path: seq<seq<byte>>, leaf: Value)
    requires GoodElements(e) && ElementsReach(text, e, path, leaf)
    ensures IsLeaf(leaf) && Good(leaf) && |Render(leaf)| <= |RenderElements(e)|
    decreases e
  {
    if Reaches(text, e.value, path, leaf) {
      ReachedIsLeaf(text, e.value, path, leaf);
    } else {
      ElementReachedIsLeaf(text, e.more.value, path, leaf);
    }
  }

  /** The clamp touches nothing in a payload shorter than 999,800 bytes. */
  lemma ShortIsUnclipped(fields: seq<Field>, payload: seq<byte>, v: Value)
    requires IsText(payload, v) && |payload| < 999800
    ensures AllUnclipped(fields, v)
  {
    hide Reaches, SplitDots, Read, Clipped, Render, Good;
    forall g, leaf | g in fields && Reaches(LibraryText(), v, SplitDots(g.path), leaf) ensures Unclipped(leaf) {
      ReachedIsLeaf(LibraryText(), v, SplitDots(g.path), leaf);
      if leaf.Scalar? {
        RenderedToken(leaf);
        forall n | Read(leaf.tok) == Some(n) && n.WellFormed() ensures !Clipped(n) {
          ShortIsTrue(leaf.tok, n);
        }
      }
    }
  }

  lemma RenderedToken(leaf: Value)
    requires leaf.Scalar?
    ensures |leaf.tok| <= |Render(leaf)|
  {
  }

  /** A term is satisfied exactly when its path reaches one of its values. */
  lemma SatisfiedAgrees(fields: seq<Field>, g: Field, v: Value, t: Term)
    requires g in fields && t.segs == SplitDots(g.path) && AllProperValues(t.alternatives)
    requires Good(v) && AllUnclipped(fields, v)
    ensures t.Satisfied(LibraryText(), v) <==>
            exists leaf :: Reaches(LibraryText(), v, t.segs, leaf) && Agrees(t.alternatives, leaf)
  {
    hide Reaches, SplitDots, Matches, Unclipped, Agrees, Good, Proper;
    forall leaf | Reaches(LibraryText(), v, t.segs, leaf)
      ensures Matches(LibraryText(), t.alternatives, leaf) <==> Agrees(t.alternatives, leaf)
    {
      ReachedIsLeaf(LibraryText(), v, t.segs, leaf);
      MatchesIsTyped(t.alternatives, leaf);
    }
  }

  /** The payload says x at the name exactly when some value at the name's one
      path is x. */
  lemma SaidThere(fields: seq<Field>, g: Field, v: Value, x: TypedValue)
    requires Declared(fields) && g in fields
    ensures Says(fields, v, g.name, x) <==>
            exists leaf :: Reaches(LibraryText(), v, SplitDots(g.path), leaf) && ScalarSays(leaf, x)
  {
    hide Reaches, SplitDots, ScalarSays, Declared;
    if Says(fields, v, g.name, x) {
      var h, leaf :| h in fields && h.name == g.name && Reaches(LibraryText(), v, SplitDots(h.path), leaf) &&
                     ScalarSays(leaf, x);
      OneField(fields, g, h);
    }
  }

  /** One term is satisfied exactly when the payload says one of its values. */
  lemma TermIsShared(fields: seq<Field>, request: Value, f: Filter, v: Value, e: Entry, t: Term)
    requires Declared(fields) && Reads(request, f) && e in f && Resolves(fields, e, t)
    requires Good(v) && AllUnclipped(fields, v)
    ensures t.Satisfied(LibraryText(), v) <==> SomeShared(fields, request, v, e.name)
  {
    hide Reaches, SplitDots, AllUnclipped, Term.Satisfied, ScalarSays, Good, Declared, TreeSays, Among, Proper,
      TypeOf, Says, NormalForm, Means;
    var g :| g in fields && g.name == e.name && t.segs == SplitDots(g.path) && t.alternatives == e.value.scalars;
    EntryMeans(f, e, Bool(true));
    SatisfiedAgrees(fields, g, v, t);
    forall x
      ensures TreeSays(request, e.name, x) <==> Among(t.alternatives, x)
      ensures Says(fields, v, e.name, x) <==>
              exists leaf :: Reaches(LibraryText(), v, t.segs, leaf) && ScalarSays(leaf, x)
    {
      EntryMeans(f, e, x);
      SaidThere(fields, g, v, x);
    }
    if t.Satisfied(LibraryText(), v) {
      var leaf :| Reaches(LibraryText(), v, t.segs, leaf) && Agrees(t.alternatives, leaf);
      var x :| ScalarSays(leaf, x) && Among(t.alternatives, x);
      assert TreeSays(request, e.name, x) && Says(fields, v, e.name, x);
    }
    if SomeShared(fields, request, v, e.name) {
      var x :| TreeSays(request, e.name, x) && Says(fields, v, e.name, x);
      var leaf :| Reaches(LibraryText(), v, t.segs, leaf) && ScalarSays(leaf, x);
      assert Agrees(t.alternatives, leaf);
    }
  }

  /** Some value at the entry's path has the canonical bytes of an alternative. */
  ghost predicate SameBytes(fields: seq<Field>, e: Entry, v: Value) {
    exists g, leaf :: g in fields && g.name == e.name && Reaches(LibraryText(), v, SplitDots(g.path), leaf) &&
                      Matches(LibraryText(), e.value.scalars, leaf)
  }

  ghost predicate AllSameBytes(fields: seq<Field>, f: Filter, v: Value) {
    forall e | e in f :: SameBytes(fields, e, v)
  }

  /** What the terms decide, whatever the clamp does. */
  lemma AllAreBytes(fields: seq<Field>, f: Filter, terms: seq<Term>, v: Value)
    requires Declared(fields) && Resolved(fields, f, terms)
    ensures AllSatisfied(terms, LibraryText(), v) <==> AllSameBytes(fields, f, v)
  {
    hide Reaches, Matches, SplitDots, Declared;
    forall i | 0 <= i < |f| ensures terms[i].Satisfied(LibraryText(), v) <==> SameBytes(fields, f[i], v) {
      var g :| g in fields && g.name == f[i].name && terms[i].segs == SplitDots(g.path) &&
               terms[i].alternatives == f[i].value.scalars;
      forall h | h in fields && h.name == f[i].name ensures h == g {
        OneField(fields, g, h);
      }
    }
    forall e | e in f ensures exists i :: 0 <= i < |f| && f[i] == e {
    }
  }

  lemma EntryMeans(f: Filter, e: Entry, x: TypedValue)
    requires NormalForm(f) && e in f
    ensures AllProperValues(e.value.scalars)
    ensures Means(f, e.name, x) <==> Among(e.value.scalars, x)
  {
    hide Less, CompareScalar, Proper, GoodName, TypeOf, Among;
    if Means(f, e.name, x) {
      var d :| d in f && d.name == e.name && ValueMeans(d.value, x);
      OneEntryPerName(f, d, e);
    }
    if Among(e.value.scalars, x) {
      assert ValueMeans(e.value, x);
    }
  }

  lemma OneField(fields: seq<Field>, g: Field, h: Field)
    requires Declared(fields) && g in fields && h in fields && g.name == h.name
    ensures g == h
  {
    hide Less;
    LessIrreflexive(g.name);
  }

  /** All terms are satisfied exactly when the payload is admitted. */
  lemma AllIsAdmitted(fields: seq<Field>, request: Value, f: Filter, terms: seq<Term>, v: Value)
    requires Declared(fields) && Reads(request, f) && Resolved(fields, f, terms)
    requires Good(v) && AllUnclipped(fields, v)
    ensures AllSatisfied(terms, LibraryText(), v) <==> Admits(fields, request, v)
  {
    hide AllUnclipped, Good, Resolves, TreeSays, Declared, SomeShared, Less, Term.Satisfied, ValueMeans;
    forall i | 0 <= i < |f|
      ensures terms[i].Satisfied(LibraryText(), v) <==> SomeShared(fields, request, v, f[i].name)
    {
      TermIsShared(fields, request, f, v, f[i], terms[i]);
    }
    forall i | 0 <= i < |f| ensures Asks(request, f[i].name) {
      EntryNamed(request, f, f[i]);
    }
    if AllSatisfied(terms, LibraryText(), v) {
      forall name | Asks(request, name) ensures SomeShared(fields, request, v, name) {
        var x :| TreeSays(request, name, x);
        assert Means(f, name, x);
        var e :| e in f && e.name == name && ValueMeans(e.value, x);
        var i :| 0 <= i < |f| && f[i] == e;
      }
    }
  }

  lemma EntryNamed(request: Value, f: Filter, e: Entry)
    requires Reads(request, f) && e in f
    ensures Asks(request, e.name)
  {
    hide TypeOf, Less, CompareScalar, Proper, TreeSays;
    var a := e.value.scalars[0];
    assert ValueMeans(e.value, TypeOf(a));
    assert Means(f, e.name, TypeOf(a));
  }

  /** An accepted request on a payload: malformed exactly when the payload is no
      JSON text; otherwise it passes exactly when the payload is admitted. */
  method EvalTypedFilter(c: Compiled, ghost fields: seq<Field>, ghost raw: seq<byte>, ghost request: Value,
                         ghost f: Filter, payload: seq<byte>) returns (r: Verdict)
    requires Accepts(raw, request, f) && Declared(fields) && CompiledFrom(c, fields, f)
    ensures r.Malformed? <==> forall v :: !IsText(payload, v)
    ensures r.Decided? ==> exists v :: IsText(payload, v) && (r.pass <==> AllSameBytes(fields, f, v))
    ensures r.Decided? ==> exists v ::
              IsText(payload, v) && (AllUnclipped(fields, v) ==> (r.pass <==> Admits(fields, request, v)))
    ensures r.Decided? && |payload| < 999800 ==> exists v ::
              IsText(payload, v) && (r.pass <==> Admits(fields, request, v))
  {
    hide Resolved, Compiles, AllSatisfied, Admits, AllUnclipped, Good, Reads, Declared, Allowed, AllSameBytes,
      TypedFilter.Canonical, ParseText;
    ghost var terms :| Resolved(fields, f, terms) && Compiles(c, terms);
    r := Eval(c, terms, LibraryText(), payload);
    if r.Decided? {
      ghost var v :| IsText(payload, v) && (r.pass <==> AllSatisfied(terms, LibraryText(), v));
      AllAreBytes(fields, f, terms, v);
      if AllUnclipped(fields, v) {
        AllIsAdmitted(fields, request, f, terms, v);
      }
      if |payload| < 999800 {
        ShortIsUnclipped(fields, payload, v);
      }
    }
  }
}
