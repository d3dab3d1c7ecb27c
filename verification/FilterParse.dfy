/** Parsing a typed filter as the program does it (engine/typed_filter.go:
    115-274, 308-413). The standard decoder's reading of the
    request is the tree; what follows it is here. */
module FilterParse {
  import opened Bytes
  import opened Seqs
  import opened JsonNumber
  import opened NumberOrder
  import opened JsonGrammar
  import opened JsonText
  import opened FilterTrie
  import opened TypedFilter
  import opened Options
  import Numbers

  // ------------------------------------------------------------ alternatives

  ghost predicate AllProper(s: seq<Alternative>) {
    forall i | 0 <= i < |s| :: Proper(s[i])
  }

  lemma AmongPush(s: seq<Alternative>, a: Alternative, x: TypedValue)
    requires AllProper(s) && Proper(a)
    ensures AllProper(s + [a])
    ensures Among(s + [a], x) <==> Among(s, x) || TypeOf(a) == x
  {
    hide TypeOf, Proper;
    assert a in s + [a];
    if Among(s, x) {
      var b :| b in s && TypeOf(b) == x;
      assert b in s + [a];
    }
  }

  lemma AmongElems(s: seq<Alternative>, t: seq<Alternative>)
    requires AllProper(s) && Elems(s) == Elems(t)
    ensures AllProper(t) && forall x :: Among(s, x) <==> Among(t, x)
  {
    hide TypeOf, Proper;
    forall i | 0 <= i < |t| ensures Proper(t[i]) {
      assert t[i] in Elems(s);
    }
    forall x ensures Among(s, x) <==> Among(t, x) {
      if Among(s, x) {
        var a :| a in s && TypeOf(a) == x;
        assert a in Elems(t);
      }
      if Among(t, x) {
        var a :| a in t && TypeOf(a) == x;
        assert a in Elems(s);
      }
    }
  }

  /** Reads the alternatives of an in list, in order. */
  method CollectAlternatives(e: Elements) returns (scalars: Option<seq<Alternative>>)
    requires GoodElements(e)
    ensures scalars.Some? <==> ElementsAllowed(e) && Count(e) <= MAX_ALTERNATIVES
    ensures scalars.Some? ==> AllProper(scalars.value) && |scalars.value| == Count(e)
    ensures scalars.Some? ==> forall x :: Among(scalars.value, x) <==> SomeElementSays(e, x)
  {
    hide Proper, TypeOf, ScalarOf, ScalarSays, Good, Among, Spaces;
    var cur, out := Some(e), [];
    NothingAmong();
    while cur.Some?
      invariant cur.Some? ==> GoodElements(cur.value)
      invariant AllProper(out) && |out| <= MAX_ALTERNATIVES
      invariant ElementsAllowed(e) <==> (cur.Some? ==> ElementsAllowed(cur.value))
      invariant Count(e) == |out| + if cur.Some? then Count(cur.value) else 0
      invariant forall x :: SomeElementSays(e, x) <==>
                  Among(out, x) || (cur.Some? && SomeElementSays(cur.value, x))
      decreases cur
    {
      if |out| == MAX_ALTERNATIVES {
        return None;
      }
      var a := ScalarOf(cur.value.value);
      if a.None? {
        return None;
      }
      ScalarOfSays(cur.value.value);
      forall x ensures Among(out + [a.value], x) <==> Among(out, x) || TypeOf(a.value) == x {
        AmongPush(out, a.value, x);
      }
      out := out + [a.value];
      cur := cur.value.more;
    }
    return Some(out);
  }

  lemma NothingAmong()
    ensures forall x :: !Among([], x)
  {
  }

  predicate Rising(s: seq<Alternative>) {
    forall i, j | 0 <= i < j < |s| :: CompareScalar(s[i], s[j]) <= 0
  }

  predicate StrictlyRising(s: seq<Alternative>) {
    forall i, j | 0 <= i < j < |s| :: CompareScalar(s[i], s[j]) < 0
  }

  function InsertScalar(a: Alternative, s: seq<Alternative>): seq<Alternative> {
    if s == [] || CompareScalar(a, s[0]) < 0 then [a] + s else [s[0]] + InsertScalar(a, s[1..])
  }

  lemma {:induction false} InsertElems(a: Alternative, s: seq<Alternative>)
    ensures Elems(InsertScalar(a, s)) == Elems(s) + {a} && |InsertScalar(a, s)| == |s| + 1
    decreases |s|
  {
    hide CompareScalar;
    if s != [] && CompareScalar(a, s[0]) >= 0 {
      InsertElems(a, s[1..]);
      var t := InsertScalar(a, s[1..]);
      assert Elems(s) == Elems(s[1..]) + {s[0]};
      assert Elems([s[0]] + t) == {s[0]} + Elems(t);
    }
  }

  lemma LeastFirst(a: Alternative, s: seq<Alternative>)
    requires AllProper(s) && Proper(a) && Rising(s) && (s != [] ==> CompareScalar(a, s[0]) <= 0)
    ensures Rising([a] + s)
  {
    hide CompareScalar, Proper;
    forall i | 0 <= i < |s| ensures CompareScalar(a, s[i]) <= 0 {
      ScalarOrder(a, s[0], s[i]);
      ScalarOrder(s[0], s[i], s[i]);
    }
  }

  lemma {:induction false} InsertRising(a: Alternative, s: seq<Alternative>)
    requires AllProper(s) && Proper(a) && Rising(s)
    ensures Rising(InsertScalar(a, s)) && AllProper(InsertScalar(a, s))
    decreases |s|
  {
    hide CompareScalar, Proper;
    if s == [] || CompareScalar(a, s[0]) < 0 {
      LeastFirst(a, s);
    } else {
      ScalarOrder(a, s[0], s[0]);
      InsertRising(a, s[1..]);
      var t := InsertScalar(a, s[1..]);
      InsertElems(a, s[1..]);
      assert t[0] in Elems(t);
      LeastFirst(s[0], t);
    }
  }

  /** sort.Slice under the canonical order. */
  method SortScalars(s: seq<Alternative>) returns (r: seq<Alternative>)
    requires AllProper(s)
    ensures Elems(r) == Elems(s) && |r| == |s| && Rising(r) && AllProper(r)
  {
    hide Proper, CompareScalar, InsertScalar;
    r := [];
    for i := 0 to |s|
      invariant Elems(r) == Elems(s[..i]) && |r| == i && Rising(r) && AllProper(r)
    {
      InsertRising(s[i], r);
      InsertElems(s[i], r);
      r := InsertScalar(s[i], r);
      assert s[..i + 1] == s[..i] + [s[i]];
    }
    assert s[..|s|] == s;
  }

  /** Drops repetitions from a sorted list. */
  method Dedupe(s: seq<Alternative>) returns (out: seq<Alternative>)
    requires AllProper(s) && Rising(s)
    ensures Elems(out) == Elems(s) && |out| <= |s| && StrictlyRising(out) && AllProper(out)
  {
    hide Proper, CompareScalar;
    out := [];
    for i := 0 to |s|
      invariant Elems(out) == Elems(s[..i]) && |out| <= i && StrictlyRising(out) && AllProper(out)
      invariant i > 0 ==> out != [] && out[|out| - 1] == s[i - 1]
    {
      assert s[..i + 1] == s[..i] + [s[i]];
      if i > 0 {
        ScalarOrder(s[i - 1], s[i], s[i]);
      }
      if |out| == 0 || CompareScalar(out[|out| - 1], s[i]) != 0 {
        forall j | 0 <= j < |out| ensures CompareScalar(out[j], s[i]) < 0 {
          ScalarOrder(out[j], out[|out| - 1], s[i]);
        }
        out := out + [s[i]];
        assert Elems(out) == Elems(s[..i]) + {s[i]};
      } else {
        assert s[i] in s[..i];
        assert Elems(s[..i + 1]) == Elems(s[..i]);
      }
    }
    assert s[..|s|] == s;
  }

  method ParseTypedIn(e: Elements) returns (r: Option<FilterValue>)
    requires GoodElements(e)
    ensures r.Some? <==> ElementsAllowed(e) && Count(e) <= MAX_ALTERNATIVES
    ensures r.Some? ==> GoodValue(r.value) && forall x :: ValueMeans(r.value, x) <==> SomeElementSays(e, x)
  {
    hide Proper, TypeOf, CompareScalar, Good, Among, SomeElementSays;
    var scalars := CollectAlternatives(e);
    if scalars.None? {
      return None;
    }
    var sorted := SortScalars(scalars.value);
    var out := Dedupe(sorted);
    AmongElems(scalars.value, out);
    EmptyElems(scalars.value);
    EmptyElems(out);
    return Some(FilterValue(|out| > 1, out));
  }

  method ParseTypedFilterValue(v: Value) returns (r: Option<FilterValue>)
    requires Good(v)
    ensures r.Some? <==> ValueAllowed(v)
    ensures r.Some? ==> GoodValue(r.value) && forall x :: ValueMeans(r.value, x) <==> ValueSays(v, x)
  {
    hide Proper, TypeOf, CompareScalar, Among, SomeElementSays, Decode, ScalarOf, ScalarSays;
    if IsIn(v) {
      assert GoodMembers(v.members) && Good(v.members.value);
      r := ParseTypedIn(v.members.value.elements);
    } else {
      var a := ScalarOf(v);
      if a.None? {
        return None;
      }
      ScalarOfSays(v);
      NothingAmong();
      forall x ensures Among([a.value], x) <==> x == TypeOf(a.value) {
        AmongPush([], a.value, x);
        assert [] + [a.value] == [a.value];
      }
      return Some(FilterValue(false, [a.value]));
    }
  }

  // --------------------------------------------------------------- the object

  type RawObject = map<seq<byte>, Value>

  /** The members read so far and the members still to read, together. */
  ghost predicate Split(m: Members, entries: RawObject, cur: Option<Members>) {
    && (forall name | name in entries :: Good(entries[name]))
    && (cur.Some? ==> GoodMembers(cur.value))
    && (MembersAllowed(m) <==> EntriesAllowed(entries) && (cur.Some? ==> MembersAllowed(cur.value)))
    && (forall name, x :: MembersSay(m, name, x) <==>
          (name in entries && ValueSays(entries[name], x)) || (cur.Some? && MembersSay(cur.value, name, x)))
  }

  ghost predicate EntriesAllowed(entries: RawObject) {
    forall name | name in entries ::
      name != [] && RuneCount(name) <= MAX_NAME_RUNES && ValueAllowed(entries[name])
  }

  ghost function NamesLeft(cur: Option<Members>): seq<seq<byte>> {
    if cur.Some? then Names(cur.value) else []
  }

  /** Collects the members of an object by decoded name; repeated names are
      reported, not merged. */
  method ReadObject(m: Members) returns (entries: RawObject, duplicate: bool)
    requires GoodMembers(m)
    ensures duplicate <==> !NoDup(Names(m))
    ensures forall name | name in entries :: Utf8(name)
    ensures !duplicate ==> Split(m, entries, None) && |entries| == |Names(m)|
  {
    hide Split, NoDup, Names, NamesLeft, Decode, Utf8, GoodMembers;
    SplitStart(m);
    var cur := Some(m);
    entries, duplicate := map[], false;
    ghost var read: seq<seq<byte>> := [];
    while cur.Some?
      invariant cur.Some? ==> GoodMembers(cur.value)
      invariant Names(m) == read + NamesLeft(cur)
      invariant entries.Keys == Elems(read)
      invariant forall name | name in entries :: Utf8(name)
      invariant duplicate <==> !NoDup(read)
      invariant !duplicate ==> Split(m, entries, cur) && |entries| == |read|
      decreases cur
    {
      var key := Decode(cur.value.key);
      MemberFacts(cur.value);
      NamesSplit(read, cur.value);
      assert Elems(read + [key]) == Elems(read) + {key};
      if key in entries {
        KeyTwice(read, key);
        duplicate := true;
      } else {
        KeyOnce(read, key);
        SplitStep(m, entries, cur.value, duplicate);
        entries := entries[key := cur.value.value];
      }
      read := read + [key];
      cur := cur.value.more;
    }
    NamesDone(read);
  }

  lemma SplitStart(m: Members)
    requires GoodMembers(m)
    ensures Split(m, map[], Some(m)) && NoDup<seq<byte>>([])
    ensures Names(m) == [] + NamesLeft(Some(m))
  {
  }

  lemma NamesSplit(read: seq<seq<byte>>, c: Members)
    ensures read + NamesLeft(Some(c)) == read + [Decode(c.key)] + NamesLeft(c.more)
  {
    hide Decode;
    assert NamesLeft(Some(c)) == [Decode(c.key)] + NamesLeft(c.more);
  }

  lemma NamesDone(read: seq<seq<byte>>)
    ensures read + NamesLeft(None) == read
  {
  }

  lemma MemberFacts(m: Members)
    requires GoodMembers(m)
    ensures Good(m.value) && Utf8(Decode(m.key)) && (m.more.Some? ==> GoodMembers(m.more.value))
  {
    hide Good;
    DecodedIsUtf8(m.key);
  }

  lemma KeyTwice(read: seq<seq<byte>>, key: seq<byte>)
    requires key in Elems(read)
    ensures !NoDup(read + [key])
  {
    var i :| 0 <= i < |read| && read[i] == key;
    assert (read + [key])[i] == (read + [key])[|read|];
  }

  lemma KeyOnce(read: seq<seq<byte>>, key: seq<byte>)
    requires key !in Elems(read)
    ensures NoDup(read + [key]) <==> NoDup(read)
  {
    if NoDup(read + [key]) {
      forall i, j | 0 <= i < j < |read| ensures read[i] != read[j] {
        assert (read + [key])[i] != (read + [key])[j];
      }
    }
  }

  lemma SplitStep(m: Members, entries: RawObject, c: Members, duplicate: bool)
    requires !duplicate ==> Split(m, entries, Some(c))
    requires GoodMembers(c) && Decode(c.key) !in entries
    ensures !duplicate ==> Split(m, entries[Decode(c.key) := c.value], c.more)
  {
    hide Good, ValueAllowed, ValueSays, Decode, RuneCount;
    var key := Decode(c.key);
    var more := entries[key := c.value];
    if !duplicate {
      assert EntriesAllowed(more) <==>
             EntriesAllowed(entries) && key != [] && RuneCount(key) <= MAX_NAME_RUNES && ValueAllowed(c.value) by {
        if EntriesAllowed(more) {
          assert key in more;
          forall name | name in entries ensures name in more && more[name] == entries[name] {
          }
        }
      }
    }
  }

  function InsertName(x: seq<byte>, s: seq<seq<byte>>): seq<seq<byte>> {
    if s == [] || Less(x, s[0]) then [x] + s else [s[0]] + InsertName(x, s[1..])
  }

  predicate SortedNames(s: seq<seq<byte>>) {
    forall i, j | 0 <= i < j < |s| :: Less(s[i], s[j])
  }

  lemma {:induction false} InsertNameSorted(x: seq<byte>, s: seq<seq<byte>>)
    requires SortedNames(s) && x !in s
    ensures SortedNames(InsertName(x, s)) && Elems(InsertName(x, s)) == Elems(s) + {x}
    ensures |InsertName(x, s)| == |s| + 1
    decreases |s|
  {
    hide Less;
    if s != [] {
      LessTotal(x, s[0]);
      if Less(x, s[0]) {
        forall i | 0 < i < |s| ensures Less(x, s[i]) {
          LessTransitive(x, s[0], s[i]);
        }
      } else {
        InsertNameSorted(x, s[1..]);
        var t := InsertName(x, s[1..]);
        forall i | 0 <= i < |t| ensures Less(s[0], t[i]) {
          assert t[i] in Elems(s[1..]) + {x};
        }
        assert Elems(s) == Elems(s[1..]) + {s[0]};
        assert Elems([s[0]] + t) == {s[0]} + Elems(t);
      }
    }
  }

  /** The names in byte order. */
  method SortNames(keys: set<seq<byte>>) returns (names: seq<seq<byte>>)
    ensures SortedNames(names) && Elems(names) == keys && |names| == |keys|
  {
    hide Less;
    names := [];
    var left := keys;
    while left != {}
      invariant left <= keys && Elems(names) == keys - left && |names| == |keys - left| && SortedNames(names)
      decreases |left|
    {
      var x :| x in left;
      assert x !in Elems(names);
      InsertNameSorted(x, names);
      names := InsertName(x, names);
      assert keys - (left - {x}) == (keys - left) + {x};
      left := left - {x};
    }
    assert keys - {} == keys;
  }

  /** The parsed entries of the first names, and what they mean. */
  ghost predicate EntriesParsed(entries: RawObject, names: seq<seq<byte>>, f: Filter) {
    && |f| <= |names|
    && forall i | 0 <= i < |f| ::
         && names[i] in entries && f[i].name == names[i]
         && GoodName(names[i]) && GoodValue(f[i].value)
         && forall x :: ValueMeans(f[i].value, x) <==> ValueSays(entries[names[i]], x)
  }

  method ParseEntries(entries: RawObject, names: seq<seq<byte>>) returns (f: Option<Filter>)
    requires forall name | name in entries :: Good(entries[name]) && Utf8(name)
    requires Elems(names) == entries.Keys
    ensures f.Some? <==> EntriesAllowed(entries)
    ensures f.Some? ==> |f.value| == |names| && EntriesParsed(entries, names, f.value)
  {
    hide Good, GoodValue, ValueMeans, ValueSays, ValueAllowed, Utf8, RuneCount;
    var out: Filter := [];
    for i := 0 to |names|
      invariant |out| == i && EntriesParsed(entries, names, out)
      invariant forall j | 0 <= j < i ::
                  names[j] != [] && RuneCount(names[j]) <= MAX_NAME_RUNES && ValueAllowed(entries[names[j]])
    {
      assert names[i] in Elems(names);
      if names[i] == [] || RuneCount(names[i]) > MAX_NAME_RUNES {
        return None;
      }
      var value := ParseTypedFilterValue(entries[names[i]]);
      if value.None? {
        return None;
      }
      out := out + [Entry(names[i], value.value)];
    }
    forall name | name in entries ensures name in names {
      assert name in Elems(names);
    }
    return Some(out);
  }

  lemma ParsedIsNormal(entries: RawObject, names: seq<seq<byte>>, f: Filter)
    requires EntriesParsed(entries, names, f) && |f| == |names| <= MAX_NAMES && SortedNames(names)
    requires Elems(names) == entries.Keys
    ensures NormalForm(f)
    ensures forall name, x :: Means(f, name, x) <==> name in entries && ValueSays(entries[name], x)
  {
    hide GoodValue, ValueMeans, ValueSays, GoodName, Less;
    assert NormalForm(f);
    forall name, x ensures Means(f, name, x) <==> name in entries && ValueSays(entries[name], x) {
      if Means(f, name, x) {
        var e :| e in f && e.name == name && ValueMeans(e.value, x);
        var i :| 0 <= i < |f| && f[i] == e;
        assert names[i] == name;
      }
      if name in entries && ValueSays(entries[name], x) {
        assert name in Elems(names);
        var i :| 0 <= i < |names| && names[i] == name;
        assert f[i] in f && ValueMeans(f[i].value, x);
      }
    }
  }

  // ------------------------------------------------------------ canonical bytes

  ghost predicate AllHeld(f: Filter) {
    forall i | 0 <= i < |f| :: f[i].value.scalars != []
  }

  method AppendFilterScalar(dst: seq<byte>, a: Alternative) returns (r: seq<byte>)
    ensures r == dst + Render(ScalarTree(a))
  {
    match a {
      case FalseValue => r := dst + FALSE;
      case TrueValue => r := dst + TRUE;
      case NumberValue(t) => r := dst + t;
      case StringValue(v) => r := AppendJSONString(dst, v);
    }
    assert Render(ScalarTree(a)) == match a case FalseValue => FALSE case TrueValue => TRUE case NumberValue(t) => t
                                            case StringValue(v) => Quoted(Escape(v));
  }

  /** What is still to write of a list of alternatives. */
  ghost function ScalarsLeft(s: seq<Alternative>, j: nat): seq<byte>
    requires j <= |s| && s != []
  {
    if j == |s| then [RBRACKET]
    else (if j > 0 then [COMMA] else []) + RenderElements(ElementsTree(s[j..]))
  }

  lemma ScalarsLeftStep(s: seq<Alternative>, j: nat)
    requires j < |s|
    ensures ScalarsLeft(s, j) == (if j > 0 then [COMMA] else []) + Render(ScalarTree(s[j])) + ScalarsLeft(s, j + 1)
  {
    hide Render, ScalarTree;
    var rest := s[j..];
    assert rest[1..] == s[j + 1..];
    var x := ElementsTree(rest);
    var more := if |rest| > 1 then [COMMA] + RenderElements(ElementsTree(s[j + 1..])) else [RBRACKET];
    assert RenderElements(x) == Render(ScalarTree(s[j])) + [] + more;
  }

  /** Writes the alternatives of an in list and its closing bracket. */
  method AppendScalars(dst: seq<byte>, s: seq<Alternative>) returns (r: seq<byte>)
    requires s != []
    ensures r == dst + RenderElements(ElementsTree(s))
  {
    hide ScalarsLeft, Render, ScalarTree, RenderElements;
    r := dst;
    ScalarsLeftStart(s);
    for j := 0 to |s|
      invariant r + ScalarsLeft(s, j) == dst + RenderElements(ElementsTree(s))
    {
      ScalarsLeftStep(s, j);
      if j > 0 {
        r := r + [COMMA];
      }
      r := AppendFilterScalar(r, s[j]);
    }
    ScalarsLeftEnd(s);
    r := r + [RBRACKET];
  }

  lemma ScalarsLeftStart(s: seq<Alternative>)
    requires s != []
    ensures ScalarsLeft(s, 0) == RenderElements(ElementsTree(s))
  {
    assert s[0..] == s;
  }

  lemma ScalarsLeftEnd(s: seq<Alternative>)
    requires s != []
    ensures ScalarsLeft(s, |s|) == [RBRACKET]
  {
  }

  lemma InRender(s: seq<Alternative>)
    requires s != []
    ensures Render(ValueTree(FilterValue(true, s))) ==
            [LBRACE] + Quoted(IN) + [COLON, LBRACKET] + RenderElements(ElementsTree(s)) + [RBRACE]
  {
    hide RenderElements, ElementsTree;
    var arr := Arr([], ElementsTree(s));
    assert Render(arr) == [LBRACKET] + RenderElements(ElementsTree(s));
    assert RenderMembers(Member([], IN, [], arr, [], None)) == Quoted(IN) + [COLON] + Render(arr) + [RBRACE];
  }

  method AppendValue(dst: seq<byte>, v: FilterValue) returns (r: seq<byte>)
    requires v.scalars != [] && (!v.isIn ==> |v.scalars| == 1)
    ensures r == dst + Render(ValueTree(v))
  {
    hide Render, RenderElements, ElementsTree, ScalarTree;
    if v.isIn {
      InRender(v.scalars);
      r := dst + [LBRACE] + Quoted(IN) + [COLON, LBRACKET];
      r := AppendScalars(r, v.scalars);
      r := r + [RBRACE];
    } else {
      r := AppendFilterScalar(dst, v.scalars[0]);
    }
  }

  /** What is still to write of the object. */
  ghost function EntriesLeft(f: Filter, i: nat): seq<byte>
    requires i <= |f| && f != [] && AllHeld(f)
  {
    if i == |f| then [RBRACE]
    else (if i > 0 then [COMMA] else []) + RenderMembers(MembersTree(f[i..]))
  }

  lemma RenderTight(m: Members)
    requires m.lead == m.mid == m.trail == []
    ensures RenderMembers(m) == Quoted(m.key) + [COLON] + Render(m.value) +
                                if m.more.Some? then [COMMA] + RenderMembers(m.more.value) else [RBRACE]
  {
    hide Render, Quoted;
    assert [] + Quoted(m.key) + [] + [COLON] == Quoted(m.key) + [COLON];
  }

  lemma EntriesLeftStep(f: Filter, i: nat)
    requires i < |f| && AllHeld(f)
    ensures EntriesLeft(f, i) ==
            (if i > 0 then [COMMA] else []) + Quoted(Escape(f[i].name)) + [COLON] +
            Render(ValueTree(f[i].value)) + EntriesLeft(f, i + 1)
  {
    hide Render, RenderMembers, MembersTree, ValueTree, Quoted, Escape;
    var rest := f[i..];
    assert rest[1..] == f[i + 1..];
    MembersTreeParts(rest);
    RenderTight(MembersTree(rest));
  }

  lemma EntriesLeftEnds(f: Filter)
    requires f != [] && AllHeld(f)
    ensures EntriesLeft(f, |f|) == [RBRACE]
    ensures [LBRACE] + EntriesLeft(f, 0) == Canonical(f)
  {
    hide MembersTree, RenderMembers;
    assert f[0..] == f;
  }

  /** Writes the canonical encoding, or refuses it for its size. */
  method FinishTypedFilter(f: Filter) returns (canonical: Option<seq<byte>>)
    requires f != [] && AllHeld(f) && forall i | 0 <= i < |f| :: !f[i].value.isIn ==> |f[i].value.scalars| == 1
    ensures canonical.Some? <==> |Canonical(f)| <= MAX_CANONICAL
    ensures canonical.Some? ==> canonical.value == Canonical(f)
  {
    hide EntriesLeft, Render, ValueTree, Quoted, Canonical;
    var buf := [LBRACE];
    EntriesLeftEnds(f);
    for i := 0 to |f|
      invariant buf + EntriesLeft(f, i) == Canonical(f)
    {
      EntriesLeftStep(f, i);
      if i > 0 {
        buf := buf + [COMMA];
      }
      buf := AppendJSONString(buf, f[i].name);
      buf := buf + [COLON];
      buf := AppendValue(buf, f[i].value);
    }
    buf := buf + [RBRACE];
    if |buf| > MAX_CANONICAL {
      return None;
    }
    return Some(buf);
  }

  // ------------------------------------------------------------------ the parser

  datatype Parsing = Rejected | Parsed(filter: Filter, canonical: seq<byte>)

  /** Parses the tree of a request. It is accepted exactly when the request
      grammar allows it and its canonical encoding is not too long; the result
      says what the request says. */
  method ParseTypedFilter(v: Value) returns (r: Parsing)
    requires Good(v)
    ensures r.Rejected? ==> !Allowed(v) || exists f :: Oversized(v, f)
    ensures r.Parsed? ==> Allowed(v) && Reads(v, r.filter) && AllHeld(r.filter)
    ensures r.Parsed? ==> r.canonical == Canonical(r.filter) && |r.canonical| <= MAX_CANONICAL
  {
    hide Means, TreeSays, NormalForm, GoodMembers, Names, NoDup, Canonical, ValueSays, MembersAllowed, Split, Allowed,
         EntriesAllowed, SortedNames, EntriesParsed;
    if v.EmptyObj? {
      EmptyReads(v);
      return Parsing.Parsed([], []);
    }
    if !v.Obj? {
      NotAllowed(v);
      return Rejected;
    }
    var entries, duplicate := ReadObject(v.members);
    AllowedObject(v);
    if duplicate {
      return Rejected;
    }
    if |entries| > MAX_NAMES {
      return Rejected;
    }
    SplitDone(v.members, entries);
    SomeName(v.members);
    var names := SortNames(entries.Keys);
    var f := ParseEntries(entries, names);
    if f.None? {
      return Rejected;
    }
    ParsedIsNormal(entries, names, f.value);
    ObjectReads(v, entries, f.value);
    var canonical := FinishTypedFilter(f.value);
    if canonical.None? {
      assert Oversized(v, f.value);
      return Rejected;
    }
    return Parsing.Parsed(f.value, canonical.value);
  }

  ghost predicate Oversized(v: Value, f: Filter) {
    Allowed(v) && Reads(v, f) && AllHeld(f) && |Canonical(f)| > MAX_CANONICAL
  }

  lemma EmptyReads(v: Value)
    requires v.EmptyObj?
    ensures Allowed(v) && Reads(v, []) && AllHeld([]) && Canonical([]) == []
  {
  }

  lemma NotAllowed(v: Value)
    requires !v.Obj? && !v.EmptyObj?
    ensures !Allowed(v)
  {
  }

  lemma AllowedObject(v: Value)
    requires v.Obj?
    ensures Allowed(v) <==>
            NoDup(Names(v.members)) && |Names(v.members)| <= MAX_NAMES && MembersAllowed(v.members)
  {
  }

  lemma SomeName(m: Members)
    ensures |Names(m)| > 0
  {
  }

  lemma SplitDone(m: Members, entries: RawObject)
    requires Split(m, entries, None)
    ensures forall name | name in entries :: Good(entries[name])
    ensures MembersAllowed(m) <==> EntriesAllowed(entries)
    ensures forall name, x :: MembersSay(m, name, x) <==> name in entries && ValueSays(entries[name], x)
  {
  }

  lemma ObjectReads(v: Value, entries: RawObject, f: Filter)
    requires v.Obj? && NormalForm(f)
    requires forall name, x :: MembersSay(v.members, name, x) <==> name in entries && ValueSays(entries[name], x)
    requires forall name, x :: Means(f, name, x) <==> name in entries && ValueSays(entries[name], x)
    ensures Reads(v, f) && AllHeld(f)
    ensures forall i | 0 <= i < |f| :: !f[i].value.isIn ==> |f[i].value.scalars| == 1
  {
    hide Means, MembersSay, ValueSays;
  }
}
