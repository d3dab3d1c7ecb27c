/** The exponent clamp from end to end (engine/typed_filter.go:532-546,
    engine/filter.go:43-58, engine/prepared/format.go:36): a record whose line
    fits the bound says 1, and a filter that asks for 10 lets it pass. */
module ClampedLine {
  import opened Bytes
  import opened Options
  import opened JsonNumber
  import opened JsonGrammar
  import opened JsonReading
  import opened JsonText
  import opened Decimal
  import opened Numbers
  import opened Records
  import opened BaseLine
  import opened FilterTrie
  import opened FilterEval
  import opened TypedFilter
  import opened FilterMeaning

  /** The letter n, a filter name and a payload path. */
  const NAME: seq<byte> := [110]

  /** {"n": and the long token of value 1, and a closing brace. */
  function PayloadTree(): Value {
    Obj([], Member([], NAME, [], ClampLeaf(), [], None))
  }

  function LongPayload(): seq<byte> {
    Render(PayloadTree())
  }

  function LongRecord(): Record {
    Record([97], Some([[97]]), LongPayload())
  }

  predicate Unescaped(s: seq<byte>) {
    forall i | 0 <= i < |s| :: s[i] < 128 && !Html(s[i])
  }

  lemma {:induction false} NothingToEscape(s: seq<byte>)
    requires Unescaped(s)
    ensures EscapeHtml(s) == s
  {
    if s != [] {
      NothingToEscape(s[1..]);
      assert s == [s[0]] + s[1..];
    }
  }

  lemma TokenUnescaped()
    ensures Unescaped(ClampLeaf().tok) && |ClampLeaf().tok| == 1000012
  {
    hide Zeros;
    var zeros := Zeros(1000002);
    ZerosAre(1000002);
    var tail := [LOWER_E, MINUS, 49, 48, 48, 48, 48, 48, 50];
    assert ClampLeaf().tok == [49] + zeros + tail;
  }

  lemma ZerosAre(k: nat)
    ensures |Zeros(k)| == k && forall i | 0 <= i < k :: Zeros(k)[i] == ZERO
  {
  }

  lemma PayloadIs()
    ensures LongPayload() == [LBRACE, QUOTE, 110, QUOTE, COLON] + ClampLeaf().tok + [RBRACE]
  {
    hide ClampLeaf;
    var t := ClampLeaf();
    assert t.Scalar? by { LeafIsScalar(); }
    assert Render(t) == t.ws + t.tok;
    LeafIsScalar();
  }

  lemma LeafIsScalar()
    ensures ClampLeaf().Scalar? && ClampLeaf().ws == []
  {
  }

  lemma PayloadIsText()
    ensures IsText(LongPayload(), PayloadTree()) && ParseText(LongPayload()) == Some(PayloadTree())
  {
    hide ClampLeaf, Render, ParseText, Good, PayloadTree;
    PayloadIsGood();
    assert LongPayload() == Render(PayloadTree()) + [];
    assert Spaces([]);
    ReadIsGrammar(LongPayload(), PayloadTree());
  }

  lemma PayloadIsGood()
    ensures Good(PayloadTree())
  {
    hide ClampLeaf, Body, IsScalar, Matches, Agrees, Among, ScalarSays, TypeOf, Proper;
    OneMatchesTen();
    NameIsBody();
  }

  lemma NameIsBody()
    ensures Body(NAME)
  {
    assert NAME[1..] == [];
  }

  /** A record that the engine accepts, on a line within the bound. */
  lemma LongRecordFits()
    ensures GoodRecord(LongRecord()) && BaseLine.Canonical(LongRecord()) && LineFits(LongRecord())
  {
    hide ClampLeaf, Render, ParseText, EscapeHtml;
    PayloadIsText();
    PayloadIs();
    TokenUnescaped();
    LeafIsScalar();
    assert Tight(PayloadTree()) == PayloadTree();
    NothingToEscape(LongPayload());
    ShortParts();
  }

  lemma ShortParts()
    ensures Utf8([97]) && |Quoted(Marshal([97]))| == 3 && |KeysJson(Some([[97]]))| == 5
  {
    assert [97][1..] == [];
    assert MarshalFirst([97]) == [97];
  }

  // ----------------------------------------------------------------- the request

  /** {"n":10} */
  function TenFilter(): Filter {
    [Entry(NAME, FilterValue(false, [NumberValue([49, ZERO])]))]
  }

  function Fields(): seq<Field> {
    [Field(NAME, NAME)]
  }

  lemma TenIsNormal()
    ensures NormalForm(TenFilter())
  {
    hide Fixed, InEnvelope;
    TenIsTen();
    assert Utf8(NAME) && RuneCount(NAME) == 1 by {
      assert NAME[1..] == [];
    }
  }

  lemma TenIsAccepted()
    ensures NormalForm(TenFilter()) && forall i | 0 <= i < |TenFilter()| :: TenFilter()[i].value.scalars != []
    ensures Accepts(TypedFilter.Canonical(TenFilter()), Tree(TenFilter()), TenFilter())
  {
    hide NormalForm, Allowed, Reads, Good, ParseText;
    TenIsNormal();
    TreeReads(TenFilter());
    CanonicalIsText(TenFilter());
    TenText();
  }

  lemma TenText()
    ensures |TypedFilter.Canonical(TenFilter())| <= MAX_CANONICAL
  {
    assert NAME[1..] == [];
    assert Escape(NAME) == EscapeFirst(NAME) + Escape([]);
    assert |Escape(NAME)| <= 6;
  }

  // ------------------------------------------------------------------ the verdict

  /** The one leaf at the path is the long token. */
  lemma OneLeaf(leaf: Value)
    ensures Reaches(LibraryText(), PayloadTree(), SplitDots(NAME), leaf) <==> leaf == ClampLeaf()
  {
    hide ClampLeaf, Decode;
    LeafIsScalar();
    NameDecodes();
    SplitNothing();
    SplitPush(110, []);
    assert [110] + [] == NAME;
    assert SplitDots(NAME) == [NAME];
    assert [NAME][1..] == [];
  }

  lemma NameDecodes()
    ensures Decode(NAME) == NAME
  {
    DecodePlain(NAME);
  }

  /** The payload says 1 and the request allows 10, and nothing else. */
  lemma NotAdmitted()
    ensures NormalForm(TenFilter()) && !Admits(Fields(), Tree(TenFilter()), PayloadTree())
  {
    hide ClampLeaf, Reaches, TypeOf, Proper, ScalarSays, SplitDots, TreeSays, Tree;
    TenIsAccepted();
    OneMatchesTen();
    var f, e := TenFilter(), TenFilter()[0];
    EntryNamed(Tree(f), f, e);
    forall x | TreeSays(Tree(f), NAME, x) ensures !Says(Fields(), PayloadTree(), NAME, x) {
      EntryMeans(f, e, x);
      assert x == Num(10.0);
      forall leaf | Reaches(LibraryText(), PayloadTree(), SplitDots(NAME), leaf) ensures !ScalarSays(leaf, x) {
        OneLeaf(leaf);
      }
    }
  }

  lemma SameBytesHere()
    ensures AllSameBytes(Fields(), TenFilter(), PayloadTree())
  {
    hide ClampLeaf, Reaches, Matches, SplitDots;
    OneMatchesTen();
    OneLeaf(ClampLeaf());
    var e := TenFilter()[0];
    assert Field(NAME, NAME) in Fields();
    assert SameBytes(Fields(), e, PayloadTree());
  }

  /** Compiled and evaluated, the filter that asks for 10 passes the record that
      says 1. */
  method PassesWrongly() returns (r: Verdict)
    ensures GoodRecord(LongRecord()) && BaseLine.Canonical(LongRecord()) && LineFits(LongRecord())
    ensures IsText(LongRecord().payload, PayloadTree()) && NormalForm(TenFilter())
    ensures r == Decided(true) && !Admits(Fields(), Tree(TenFilter()), PayloadTree())
  {
    hide ClampLeaf, PayloadTree, Admits, AllUnclipped, AllSameBytes, Accepts, NormalForm, ParseText, Tree, LineFits,
      GoodRecord, BaseLine.Canonical, CompiledFrom;
    LongRecordFits();
    PayloadIsText();
    TenIsAccepted();
    NotAdmitted();
    SameBytesHere();
    var c := CompileTypedFilter(Fields(), TenFilter());
    r := EvalTypedFilter(c.filter, Fields(), TypedFilter.Canonical(TenFilter()), Tree(TenFilter()), TenFilter(),
                         LongPayload());
    OneTree(LongPayload(), PayloadTree());
  }

  lemma OneTree(b: seq<byte>, v: Value)
    requires IsText(b, v)
    ensures forall w :: IsText(b, w) ==> w == v
  {
    hide ParseText, IsText;
    forall w | IsText(b, w) ensures w == v {
      ReadIsGrammar(b, v);
      ReadIsGrammar(b, w);
    }
  }
}
