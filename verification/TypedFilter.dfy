/** Typed filters (engine/typed_filter.go:42-150, 205-274, 367-469): the parsed
    form is the one normal form of what the expression means, and its canonical
    bytes are JSON that means the same. */
module TypedFilter {
  import opened Bytes
  import opened Seqs
  import opened JsonNumber
  import opened Decimal
  import opened Numbers
  import opened NumberOrder
  import opened JsonGrammar
  import opened JsonReading
  import opened JsonText
  import opened FilterTrie
  import opened Options

  const MAX_NAMES := 8
  const MAX_NAME_RUNES := 128
  const MAX_VALUE_RUNES := 512
  const MAX_ALTERNATIVES := 64
  const MAX_CANONICAL := 32768

  /** "in" */
  const IN: seq<byte> := [105, 110]

  datatype FilterValue = FilterValue(isIn: bool, scalars: seq<Alternative>)
  datatype Entry = Entry(name: seq<byte>, value: FilterValue)
  type Filter = seq<Entry>

  // --------------------------------------------------------------- typed values

  /** What an alternative stands for. */
  datatype TypedValue = Bool(b: bool) | Num(x: real) | Txt(s: seq<byte>)

  ghost predicate IsCanonical(t: seq<byte>, r: Normal) {
    r.WellFormed() && InEnvelope(r) && t == Fixed(r).Spell()
  }

  ghost predicate Proper(a: Alternative) {
    match a
    case NumberValue(t) => exists r :: IsCanonical(t, r)
    case StringValue(v) => Utf8(v) && RuneCount(v) <= MAX_VALUE_RUNES
    case _ => true
  }

  ghost function NumberOf(t: seq<byte>): Normal
    requires Proper(NumberValue(t))
    ensures IsCanonical(t, NumberOf(t))
  {
    var r :| IsCanonical(t, r);
    r
  }

  ghost function TypeOf(a: Alternative): TypedValue
    requires Proper(a)
  {
    match a
    case FalseValue => Bool(false)
    case TrueValue => Bool(true)
    case NumberValue(t) => Num(NumberOf(t).Value())
    case StringValue(v) => Txt(v)
  }

  function Kind(a: Alternative): int {
    match a
    case FalseValue => 0
    case TrueValue => 1
    case NumberValue(_) => 2
    case StringValue(_) => 3
  }

  /** The canonical order of alternatives. */
  function CompareScalar(a: Alternative, b: Alternative): int {
    if Kind(a) != Kind(b) then Kind(a) - Kind(b)
    else match a
         case NumberValue(t) => CompareNumbers(t, b.canonical)
         case StringValue(v) => Compare(v, b.value)
         case _ => 0
  }

  /** Alternatives are equal exactly when they stand for the same value. */
  lemma TypedInjective(a: Alternative, b: Alternative)
    requires Proper(a) && Proper(b)
    ensures TypeOf(a) == TypeOf(b) <==> a == b
  {
    hide Fixed, InEnvelope;
    if a.NumberValue? && b.NumberValue? {
      NormalUnique(NumberOf(a.canonical), NumberOf(b.canonical));
    }
  }

  /** The order is total and strict. */
  lemma ScalarOrder(a: Alternative, b: Alternative, c: Alternative)
    requires Proper(a) && Proper(b) && Proper(c)
    ensures CompareScalar(a, b) == 0 <==> a == b
    ensures CompareScalar(a, b) < 0 <==> CompareScalar(b, a) > 0
    ensures CompareScalar(a, b) < 0 && CompareScalar(b, c) < 0 ==> CompareScalar(a, c) < 0
  {
    hide Fixed, InEnvelope, CompareNumbers;
    if a.NumberValue? && b.NumberValue? {
      var r, s := NumberOf(a.canonical), NumberOf(b.canonical);
      CompareIsOrder(r, s);
      CompareIsOrder(s, r);
      NormalUnique(r, s);
      if c.NumberValue? {
        var t := NumberOf(c.canonical);
        CompareIsOrder(s, t);
        CompareIsOrder(r, t);
      }
    }
    if a.StringValue? && b.StringValue? {
      StringOrder(a.value, b.value);
      if c.StringValue? {
        StringOrder(b.value, c.value);
        StringOrder(a.value, c.value);
        if Less(a.value, b.value) && Less(b.value, c.value) {
          LessTransitive(a.value, b.value, c.value);
          LessIrreflexive(a.value);
        }
      }
    }
  }

  lemma StringOrder(a: seq<byte>, b: seq<byte>)
    ensures Compare(a, b) < 0 <==> Less(a, b)
    ensures Compare(a, b) == 0 <==> a == b
    ensures Compare(a, b) < 0 <==> Compare(b, a) > 0
  {
    LessIrreflexive(a);
    LessTotal(a, b);
    if Less(a, b) && Less(b, a) {
      LessTransitive(a, b, a);
    }
  }

  // ---------------------------------------------------------------- normal form

  ghost predicate GoodValue(v: FilterValue) {
    && 1 <= |v.scalars| <= MAX_ALTERNATIVES
    && (forall i | 0 <= i < |v.scalars| :: Proper(v.scalars[i]))
    && (forall i, j | 0 <= i < j < |v.scalars| :: CompareScalar(v.scalars[i], v.scalars[j]) < 0)
    && v.isIn == (|v.scalars| > 1)
  }

  predicate GoodName(name: seq<byte>) {
    name != [] && Utf8(name) && RuneCount(name) <= MAX_NAME_RUNES
  }

  ghost predicate NormalForm(f: Filter) {
    && |f| <= MAX_NAMES
    && (forall i | 0 <= i < |f| :: GoodName(f[i].name) && GoodValue(f[i].value))
    && (forall i, j | 0 <= i < j < |f| :: Less(f[i].name, f[j].name))
  }

  ghost predicate Among(s: seq<Alternative>, x: TypedValue)
    requires forall i | 0 <= i < |s| :: Proper(s[i])
  {
    exists a :: a in s && TypeOf(a) == x
  }

  ghost predicate ValueMeans(v: FilterValue, x: TypedValue)
    requires GoodValue(v)
  {
    Among(v.scalars, x)
  }

  /** The expression lets name be x. */
  ghost predicate Means(f: Filter, name: seq<byte>, x: TypedValue)
    requires NormalForm(f)
  {
    exists e :: e in f && e.name == name && ValueMeans(e.value, x)
  }

  ghost predicate SameMeaning(f: Filter, g: Filter)
    requires NormalForm(f) && NormalForm(g)
  {
    forall name, x :: Means(f, name, x) <==> Means(g, name, x)
  }

  /** A sorted list is determined by its elements. */
  lemma {:induction false} SortedScalarsUnique(s: seq<Alternative>, t: seq<Alternative>)
    requires forall i | 0 <= i < |s| :: Proper(s[i])
    requires forall i | 0 <= i < |t| :: Proper(t[i])
    requires forall i, j | 0 <= i < j < |s| :: CompareScalar(s[i], s[j]) < 0
    requires forall i, j | 0 <= i < j < |t| :: CompareScalar(t[i], t[j]) < 0
    requires Elems(s) == Elems(t)
    ensures s == t
    decreases |s|
  {
    hide CompareScalar, Proper;
    if s != [] && t != [] {
      assert s[0] in Elems(t) && t[0] in Elems(s);
      var i :| 0 <= i < |t| && t[i] == s[0];
      var j :| 0 <= j < |s| && s[j] == t[0];
      ScalarOrder(s[0], t[0], t[0]);
      assert s[0] == t[0];
      ScalarOrder(s[0], s[0], s[0]);
      TailElems(s);
      TailElems(t);
      SortedScalarsUnique(s[1..], t[1..]);
    } else {
      EmptyElems(s);
      EmptyElems(t);
    }
  }

  lemma {:induction false} SortedEntriesUnique(f: Filter, g: Filter)
    requires forall i, j | 0 <= i < j < |f| :: Less(f[i].name, f[j].name)
    requires forall i, j | 0 <= i < j < |g| :: Less(g[i].name, g[j].name)
    requires Elems(f) == Elems(g)
    ensures f == g
    decreases |f|
  {
    hide Less;
    if f != [] && g != [] {
      assert f[0] in Elems(g) && g[0] in Elems(f);
      var i :| 0 <= i < |g| && g[i] == f[0];
      var j :| 0 <= j < |f| && f[j] == g[0];
      NotBoth(f[0].name, g[0].name);
      assert f[0] == g[0];
      NotBoth(f[0].name, f[0].name);
      TailElems(f);
      TailElems(g);
      SortedEntriesUnique(f[1..], g[1..]);
    } else {
      EmptyElems(f);
      EmptyElems(g);
    }
  }

  lemma NotBoth(a: seq<byte>, b: seq<byte>)
    ensures !(Less(a, b) && Less(b, a))
  {
    LessIrreflexive(a);
    if Less(a, b) && Less(b, a) {
      LessTransitive(a, b, a);
    }
  }

  lemma OneEntryPerName(f: Filter, d: Entry, e: Entry)
    requires NormalForm(f) && d in f && e in f && d.name == e.name
    ensures d == e
  {
    LessIrreflexive(d.name);
  }

  /** Every alternative of f is an alternative of the same name in g. */
  lemma Included(f: Filter, g: Filter, e: Entry)
    requires NormalForm(f) && NormalForm(g) && SameMeaning(f, g) && e in f
    ensures exists d :: d in g && d.name == e.name && GoodValue(e.value) && GoodValue(d.value) &&
                        Elems(e.value.scalars) <= Elems(d.value.scalars)
  {
    hide TypeOf, Proper, CompareScalar, GoodName, Less;
    var first := e.value.scalars[0];
    assert ValueMeans(e.value, TypeOf(first));
    assert Means(f, e.name, TypeOf(first));
    var d :| d in g && d.name == e.name && ValueMeans(d.value, TypeOf(first));
    forall a | a in e.value.scalars ensures a in d.value.scalars {
      assert ValueMeans(e.value, TypeOf(a));
      assert Means(f, e.name, TypeOf(a));
      var c :| c in g && c.name == e.name && ValueMeans(c.value, TypeOf(a));
      OneEntryPerName(g, c, d);
      var b :| b in d.value.scalars && TypeOf(b) == TypeOf(a);
      TypedInjective(a, b);
    }
  }

  lemma EntriesEqual(f: Filter, g: Filter, e: Entry)
    requires NormalForm(f) && NormalForm(g) && SameMeaning(f, g) && e in f
    ensures e in g
  {
    hide TypeOf, Proper, CompareScalar, GoodName, Less, SameMeaning, Means, ValueMeans;
    Included(f, g, e);
    var d :| d in g && d.name == e.name && GoodValue(e.value) && GoodValue(d.value) &&
             Elems(e.value.scalars) <= Elems(d.value.scalars);
    MeaningFlips(f, g);
    Included(g, f, d);
    var c :| c in f && c.name == d.name && Elems(d.value.scalars) <= Elems(c.value.scalars);
    OneEntryPerName(f, c, e);
    SortedScalarsUnique(e.value.scalars, d.value.scalars);
  }

  lemma MeaningFlips(f: Filter, g: Filter)
    requires NormalForm(f) && NormalForm(g) && SameMeaning(f, g)
    ensures SameMeaning(g, f)
  {
  }

  /** A meaning has one normal form. */
  lemma NormalFormUnique(f: Filter, g: Filter)
    requires NormalForm(f) && NormalForm(g)
    ensures SameMeaning(f, g) <==> f == g
  {
    hide Means, GoodValue, GoodName;
    if SameMeaning(f, g) {
      MeaningFlips(f, g);
      forall e ensures e in f <==> e in g {
        if e in f {
          EntriesEqual(f, g, e);
        }
        if e in g {
          EntriesEqual(g, f, e);
        }
      }
      SortedEntriesUnique(f, g);
    }
  }

  // ------------------------------------------------------------- what a text says

  /** The alternative a scalar of the request is, when it is allowed. */
  function ScalarOf(v: Value): Option<Alternative> {
    match v
    case Str(_, body) =>
      if RuneCount(Decode(body)) <= MAX_VALUE_RUNES then Some(StringValue(Decode(body))) else None
    case Scalar(_, tok) =>
      if tok == FALSE then Some(FalseValue)
      else if tok == TRUE then Some(TrueValue)
      else if tok == NULL then None
      else
        var c := Canonicalize(tok, true);
        if c.Canonical? then Some(NumberValue(c.text)) else None
    case _ => None
  }

  /** v spells the scalar x. */
  ghost predicate ScalarSays(v: Value, x: TypedValue) {
    match v
    case Str(_, body) => x == Txt(Decode(body))
    case Scalar(_, tok) =>
      || (tok == FALSE && x == Bool(false))
      || (tok == TRUE && x == Bool(true))
      || (exists n :: Read(tok) == Some(n) && n.WellFormed() && x == Num(Numbers.Value(n)))
    case _ => false
  }

  ghost predicate SomeElementSays(e: Elements, x: TypedValue) {
    ScalarSays(e.value, x) || (e.more.Some? && SomeElementSays(e.more.value, x))
  }

  predicate IsIn(v: Value) {
    v.Obj? && v.members.more.None? && Decode(v.members.key) == IN && v.members.value.Arr?
  }

  ghost predicate ValueSays(v: Value, x: TypedValue) {
    if IsIn(v) then SomeElementSays(v.members.value.elements, x) else ScalarSays(v, x)
  }

  ghost predicate MembersSay(m: Members, name: seq<byte>, x: TypedValue) {
    || (Decode(m.key) == name && ValueSays(m.value, x))
    || (m.more.Some? && MembersSay(m.more.value, name, x))
  }

  /** The request text lets name be x. */
  ghost predicate TreeSays(v: Value, name: seq<byte>, x: TypedValue) {
    v.Obj? && MembersSay(v.members, name, x)
  }

  function Count(e: Elements): nat {
    1 + if e.more.Some? then Count(e.more.value) else 0
  }

  predicate ElementsAllowed(e: Elements) {
    ScalarOf(e.value).Some? && (e.more.Some? ==> ElementsAllowed(e.more.value))
  }

  predicate ValueAllowed(v: Value) {
    if IsIn(v) then
      ElementsAllowed(v.members.value.elements) && Count(v.members.value.elements) <= MAX_ALTERNATIVES
    else ScalarOf(v).Some?
  }

  function Names(m: Members): seq<seq<byte>> {
    [Decode(m.key)] + if m.more.Some? then Names(m.more.value) else []
  }

  predicate MembersAllowed(m: Members) {
    && Decode(m.key) != [] && RuneCount(Decode(m.key)) <= MAX_NAME_RUNES
    && ValueAllowed(m.value)
    && (m.more.Some? ==> MembersAllowed(m.more.value))
  }

  /** The request grammar: an object of allowed values under distinct names. */
  ghost predicate Allowed(v: Value) {
    || v.EmptyObj?
    || (v.Obj? && NoDup(Names(v.members)) && |Names(v.members)| <= MAX_NAMES && MembersAllowed(v.members))
  }

  /** f is what the text says. */
  ghost predicate Reads(v: Value, f: Filter) {
    NormalForm(f) && forall name, x :: Means(f, name, x) <==> TreeSays(v, name, x)
  }

  // ------------------------------------------------------------ canonical bytes

  function ScalarTree(a: Alternative): Value {
    match a
    case FalseValue => Scalar([], FALSE)
    case TrueValue => Scalar([], TRUE)
    case NumberValue(t) => Scalar([], t)
    case StringValue(v) => Str([], Escape(v))
  }

  function ElementsTree(s: seq<Alternative>): Elements
    requires s != []
  {
    Element(ScalarTree(s[0]), [], if |s| > 1 then Some(ElementsTree(s[1..])) else None)
  }

  function ValueTree(v: FilterValue): Value
    requires v.scalars != []
  {
    if v.isIn then Obj([], Member([], IN, [], Arr([], ElementsTree(v.scalars)), [], None))
    else ScalarTree(v.scalars[0])
  }

  function MembersTree(f: Filter): Members
    requires f != [] && forall i | 0 <= i < |f| :: f[i].value.scalars != []
  {
    Member([], Escape(f[0].name), [], ValueTree(f[0].value), [], if |f| > 1 then Some(MembersTree(f[1..])) else None)
  }

  function Tree(f: Filter): Value
    requires f != [] && forall i | 0 <= i < |f| :: f[i].value.scalars != []
  {
    Obj([], MembersTree(f))
  }

  /** The canonical encoding; the empty filter has none. */
  function Canonical(f: Filter): seq<byte>
    requires forall i | 0 <= i < |f| :: f[i].value.scalars != []
  {
    if f == [] then [] else Render(Tree(f))
  }

  // --------------------------------------------------- scalars and what they say

  lemma FixedIsCanonical(r: Normal, request: bool)
    requires r.WellFormed() && InEnvelope(r)
    ensures Canonicalize(Fixed(r).Spell(), request) == Outcome.Canonical(Fixed(r).Spell())
  {
    hide Read, Fixed, NormalAt, CappedExpOf;
    FixedReads(r);
    FixedShort(r);
  }

  lemma NumberStart(t: seq<byte>)
    requires IsNumber(t)
    ensures t != FALSE && t != TRUE && t != NULL
  {
    var n: Number :| n.WellFormed() && n.Spell() == t;
    assert t[0] == if n.neg then MINUS else n.whole[0];
  }

  lemma ProperNumber(t: seq<byte>)
    requires Proper(NumberValue(t))
    ensures IsNumber(t) && Canonicalize(t, true) == Outcome.Canonical(t)
    ensures Read(t).Some? && Read(t).value.WellFormed() && Numbers.Value(Read(t).value) == NumberOf(t).Value()
  {
    hide Read, Fixed, InEnvelope;
    var r := NumberOf(t);
    FixedReads(r);
    FixedValue(r);
    FixedIsCanonical(r, true);
    NumberIsRead(t);
  }

  lemma ScalarTreeSays(a: Alternative)
    requires Proper(a)
    ensures Good(ScalarTree(a)) && ScalarOf(ScalarTree(a)) == Some(a)
    ensures forall x :: ScalarSays(ScalarTree(a), x) <==> x == TypeOf(a)
  {
    hide Read, Canonicalize, Decode, Escape, Body, RuneCount;
    match a {
      case FalseValue =>
        LiteralsAreNoNumbers();
      case TrueValue =>
        LiteralsAreNoNumbers();
      case NumberValue(t) =>
        ProperNumber(t);
        NumberStart(t);
      case StringValue(v) =>
        EscapeDecodes(v);
    }
  }

  lemma LiteralsAreNoNumbers()
    ensures Read(FALSE).None? && Read(TRUE).None? && Read(NULL).None?
  {
  }

  /** An allowed scalar is the alternative that stands for what it says. */
  lemma ScalarOfSays(v: Value)
    requires Good(v) && ScalarOf(v).Some?
    ensures Proper(ScalarOf(v).value)
    ensures forall x :: ScalarSays(v, x) <==> x == TypeOf(ScalarOf(v).value)
  {
    hide Read, Canonicalize, Decode, Body, RuneCount, NormalOf, Fixed, InEnvelope;
    if v.Str? {
      DecodedIsUtf8(v.body);
    } else if v.tok == FALSE || v.tok == TRUE {
      LiteralsAreNoNumbers();
    } else {
      NumberIsRead(v.tok);
      var n := Read(v.tok).value;
      RequestIsTrue(v.tok, n);
      NormalOfValue(n);
      var t := ScalarOf(v).value.canonical;
      assert IsCanonical(t, NormalOf(n));
      FixedInjective(NormalOf(n), NumberOf(t));
    }
  }

  // ------------------------------------------------ the canonical text says the same

  lemma {:induction false} ElementsTreeSays(s: seq<Alternative>)
    requires s != [] && forall i | 0 <= i < |s| :: Proper(s[i])
    ensures GoodElements(ElementsTree(s)) && ElementsAllowed(ElementsTree(s)) && Count(ElementsTree(s)) == |s|
    ensures forall x :: SomeElementSays(ElementsTree(s), x) <==> Among(s, x)
    decreases |s|
  {
    hide ScalarTree, ScalarSays, ScalarOf, Proper, TypeOf, Good, Among;
    ScalarTreeSays(s[0]);
    if |s| > 1 {
      ElementsTreeSays(s[1..]);
    }
    forall x ensures SomeElementSays(ElementsTree(s), x) <==> Among(s, x) {
      AmongCons(s, x);
    }
  }

  lemma AmongCons(s: seq<Alternative>, x: TypedValue)
    requires s != [] && forall i | 0 <= i < |s| :: Proper(s[i])
    ensures Among(s, x) <==> x == TypeOf(s[0]) || (|s| > 1 && Among(s[1..], x))
  {
    hide TypeOf, Proper;
    assert s[0] in s;
    if Among(s, x) && x != TypeOf(s[0]) {
      var a :| a in s && TypeOf(a) == x;
      assert a in s[1..];
    }
    if |s| > 1 && Among(s[1..], x) {
      var a :| a in s[1..] && TypeOf(a) == x;
      assert a in s;
    }
  }

  lemma InIsPlain()
    ensures Body(IN) && Decode(IN) == IN
  {
    assert IN[1..] == [110] && [110][1..] == [];
    assert CharLen(IN) == 1 && CharLen([110]) == 1;
    assert Utf8(IN) by { assert RuneLen(IN) == 1 && RuneLen([110]) == 1; }
    DecodePlain(IN);
  }

  lemma ValueTreeSays(v: FilterValue)
    requires GoodValue(v)
    ensures Good(ValueTree(v)) && ValueAllowed(ValueTree(v))
    ensures forall x :: ValueSays(ValueTree(v), x) <==> ValueMeans(v, x)
  {
    hide ScalarTree, ScalarSays, ScalarOf, Proper, TypeOf, ElementsTree, Decode, Body;
    if v.isIn {
      InIsPlain();
      ElementsTreeSays(v.scalars);
      var arr := Arr([], ElementsTree(v.scalars));
      assert Good(arr);
      assert GoodMembers(Member([], IN, [], arr, [], None));
    } else {
      var a := v.scalars[0];
      ScalarTreeSays(a);
      NoObject(a);
      assert forall b :: b in v.scalars <==> b == a;
    }
  }

  lemma NoObject(a: Alternative)
    ensures !ScalarTree(a).Obj?
  {
  }

  lemma {:induction false} MembersTreeSays(f: Filter)
    requires f != [] && forall i | 0 <= i < |f| :: GoodName(f[i].name) && GoodValue(f[i].value)
    requires forall i | 0 <= i < |f| :: f[i].value.scalars != []
    ensures GoodMembers(MembersTree(f)) && MembersAllowed(MembersTree(f))
    ensures |Names(MembersTree(f))| == |f| && forall i | 0 <= i < |f| :: Names(MembersTree(f))[i] == f[i].name
    ensures forall name, x :: MembersSay(MembersTree(f), name, x) <==>
              exists e :: e in f && e.name == name && GoodValue(e.value) && ValueMeans(e.value, x)
    decreases |f|
  {
    hide ValueTree, ValueSays, ValueAllowed, Decode, Body, Escape, Utf8, GoodValue, ValueMeans, RuneCount, Good;
    EscapeDecodes(f[0].name);
    ValueTreeSays(f[0].value);
    if |f| > 1 {
      MembersTreeSays(f[1..]);
    }
    MembersTreeParts(f);
    forall name, x
      ensures MembersSay(MembersTree(f), name, x) <==>
              exists e :: e in f && e.name == name && GoodValue(e.value) && ValueMeans(e.value, x)
    {
      if |f| > 1 && MembersSay(MembersTree(f[1..]), name, x) {
        var e :| e in f[1..] && e.name == name && GoodValue(e.value) && ValueMeans(e.value, x);
        assert e in f;
      }
      if f[0].name == name && ValueMeans(f[0].value, x) {
        assert f[0] in f;
      }
    }
  }

  lemma MembersTreeParts(f: Filter)
    requires f != [] && forall i | 0 <= i < |f| :: f[i].value.scalars != []
    ensures var m := MembersTree(f);
            && m.key == Escape(f[0].name) && m.value == ValueTree(f[0].value)
            && m.lead == m.mid == m.trail == []
            && m.more == if |f| > 1 then Some(MembersTree(f[1..])) else None
  {
    hide ValueTree, Escape;
  }

  /** The canonical tree is an allowed request that says what the filter means. */
  lemma TreeReads(f: Filter)
    requires NormalForm(f) && f != []
    ensures Good(Tree(f)) && Allowed(Tree(f)) && Reads(Tree(f), f)
  {
    hide MembersTree, MembersAllowed, GoodMembers, MembersSay, ValueMeans, Less, GoodValue;
    NonEmptyValues(f);
    MembersTreeSays(f);
    forall i, j | 0 <= i < j < |f| ensures f[i].name != f[j].name {
      LessIrreflexive(f[i].name);
    }
    forall name, x ensures Means(f, name, x) <==> TreeSays(Tree(f), name, x) {
    }
  }

  lemma NonEmptyValues(f: Filter)
    requires NormalForm(f)
    ensures forall i | 0 <= i < |f| :: f[i].value.scalars != []
  {
  }

  /** The canonical bytes are a JSON text with the canonical tree. */
  lemma CanonicalIsText(f: Filter)
    requires NormalForm(f) && f != []
    ensures forall i | 0 <= i < |f| :: f[i].value.scalars != []
    ensures ParseText(Canonical(f)) == Some(Tree(f))
  {
    hide Tree, Render, Good, ParseText, NormalForm;
    NonEmptyValues(f);
    TreeReads(f);
    assert Canonical(f) == Render(Tree(f)) + [];
    assert Spaces([]);
    ReadIsGrammar(Canonical(f), Tree(f));
  }

  /** raw is a request this filter is the parsed form of. */
  ghost predicate Accepts(raw: seq<byte>, v: Value, f: Filter) {
    && ParseText(raw) == Some(v) && Allowed(v) && Reads(v, f)
    && (forall i | 0 <= i < |f| :: f[i].value.scalars != [])
    && |Canonical(f)| <= MAX_CANONICAL
  }

  /** A request has one parsed form. */
  lemma AcceptsOnce(raw: seq<byte>, v: Value, f: Filter, w: Value, g: Filter)
    requires Accepts(raw, v, f) && Accepts(raw, w, g)
    ensures v == w && f == g
  {
    hide ParseText, Allowed, NormalForm, Means, TreeSays, Canonical;
    NormalFormUnique(f, g);
  }

  /** Canonical bytes are equal exactly when the requests say the same: order,
      repetitions, one-element sets and number spelling make no difference. */
  lemma CanonicalIffSame(a: seq<byte>, v: Value, f: Filter, b: seq<byte>, w: Value, g: Filter)
    requires Accepts(a, v, f) && Accepts(b, w, g)
    ensures Canonical(f) == Canonical(g) <==> forall name, x :: TreeSays(v, name, x) <==> TreeSays(w, name, x)
  {
    hide ParseText, Allowed, NormalForm, Means, TreeSays, Canonical;
    NormalFormUnique(f, g);
    if Canonical(f) == Canonical(g) {
      CanonicalInjective(f, g);
    }
  }

  lemma CanonicalInjective(f: Filter, g: Filter)
    requires NormalForm(f) && NormalForm(g)
    requires forall i | 0 <= i < |f| :: f[i].value.scalars != []
    requires forall i | 0 <= i < |g| :: g[i].value.scalars != []
    requires Canonical(f) == Canonical(g)
    ensures f == g
  {
    hide ParseText, NormalForm, Allowed, Means, TreeSays;
    if f != [] && g != [] {
      CanonicalIsText(f);
      CanonicalIsText(g);
      TreeReads(f);
      TreeReads(g);
      NormalFormUnique(f, g);
    }
  }

  /** Parsing the canonical bytes gives the same filter back. */
  lemma CanonicalRoundTrip(raw: seq<byte>, v: Value, f: Filter)
    requires Accepts(raw, v, f) && f != []
    ensures Accepts(Canonical(f), Tree(f), f)
  {
    hide ParseText, NormalForm, Allowed, Canonical, Tree;
    TreeReads(f);
    CanonicalIsText(f);
  }
}
