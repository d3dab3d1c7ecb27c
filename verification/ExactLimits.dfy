/** Where the exact index's formats part (engine/exact/exact.go:105-160,
    engine/prepared/view.go:449-518, engine/artifact/exact.go:60-175): indexes
    that are built and written, and not read back. */
module ExactLimits {
  import opened Bytes
  import opened Options
  import opened Packing
  import opened Spelling
  import opened ExactIndex
  import opened ExactLayout
  import opened ExactCode
  import opened ExactRead
  import opened ExactFile
  import B = ExactBuild
  import L = ListModel
  import Q = ExactQuery

  // --------------------------------------------------------- building an index

  /** Keys with runs an index can hold, in any order. */
  ghost predicate Packable(f: Flat) {
    && |f.keys| == |f.runs|
    && (forall i, j | 0 <= i < j < |f.keys| :: f.keys[i] != f.keys[j])
    && (forall i | 0 <= i < |f.keys| :: f.keys[i] != [] && 1 <= |f.runs[i]| <= MAX_RUN && Ascending(f.runs[i]))
  }

  /** The index the keys make in this order. */
  ghost function Packed(f: Flat, n: nat): Index
    requires Packable(f) && n <= |f.keys|
  {
    if n == 0 then Index(map[], [], [], 0) else Push(Packed(f, n - 1), f.keys[n - 1], f.runs[n - 1])
  }

  ghost predicate HoldsFirst(idx: Index, f: Flat, n: nat)
    requires Packable(f) && n <= |f.keys|
  {
    && idx.Valid() && |idx.postings| == At(Lens(f.runs), n)
    && (forall k :: k in idx.m <==> k in f.keys[..n])
    && forall i | 0 <= i < n :: idx.Lookup(f.keys[i]) == f.runs[i]
  }

  lemma {:induction false} PackedHolds(f: Flat, n: nat)
    requires Packable(f) && n <= |f.keys| && (n > 0 ==> At(Lens(f.runs), n - 1) <= MAX_OFF)
    ensures HoldsFirst(Packed(f, n), f, n)
  {
    hide At, Push, Ascending, Index.Valid, Index.Lookup;
    AtEnds(Lens(f.runs));
    if n == 0 {
      NothingHeld();
    } else {
      if n > 1 {
        AtOrdered(Lens(f.runs), n - 2, n - 1);
      }
      PackedHolds(f, n - 1);
      AtNext(Lens(f.runs), n - 1);
      HoldsNext(Packed(f, n - 1), f, n - 1);
    }
  }

  lemma NothingHeld()
    ensures Index(map[], [], [], 0).Valid()
  {
  }

  lemma HoldsNext(idx: Index, f: Flat, n: nat)
    requires Packable(f) && n < |f.keys| && HoldsFirst(idx, f, n) && At(Lens(f.runs), n) <= MAX_OFF
    requires At(Lens(f.runs), n + 1) == At(Lens(f.runs), n) + |f.runs[n]|
    ensures HoldsFirst(Push(idx, f.keys[n], f.runs[n]), f, n + 1)
  {
    hide At, Push, Ascending, Index.Valid, Index.Lookup;
    var k, run := f.keys[n], f.runs[n];
    assert f.keys[..n + 1] == f.keys[..n] + [k];
    assert k !in f.keys[..n];
    PushValid(idx, k, run);
    PushKeys(idx, k, run);
    var t := Push(idx, k, run);
    forall i | 0 <= i < n + 1 ensures t.Lookup(f.keys[i]) == f.runs[i] {
      PushLooksUp(idx, k, run, f.keys[i]);
      assert i < n ==> f.keys[i] in f.keys[..n];
    }
  }

  // ------------------------------------------------------------------ full runs

  function FullRun(): (run: seq<nat>)
    ensures |run| == MAX_RUN && forall i | 0 <= i < |run| :: run[i] == i
  {
    seq(MAX_RUN, (i: nat) => i)
  }

  /** n keys, each held by all of 2^20 - 1 entries. */
  function Full(w: nat, n: nat): (f: Flat)
    ensures |f.keys| == |f.runs| == n
    ensures forall i | 0 <= i < n :: f.keys[i] == Spelt(w, i) && f.runs[i] == FullRun()
  {
    Flat(seq(n, (i: nat) => Spelt(w, i)), seq(n, (i: nat) => FullRun()))
  }

  lemma FullRises(w: nat, n: nat)
    requires 0 < w && n <= Pow16(w)
    ensures Rising(Full(w, n).keys) && Packable(Full(w, n))
  {
    hide Spelt, Less, Pow16, FullRun;
    var f := Full(w, n);
    forall i: nat, j: nat | i < j < n ensures Less(f.keys[i], f.keys[j]) && f.keys[i] != f.keys[j] {
      SpeltOrdered(w, i, j);
      LessIrreflexive(f.keys[i]);
    }
  }

  lemma {:induction false} FullAt(runs: seq<seq<nat>>, n: nat)
    requires n <= |runs| && forall i | 0 <= i < n :: |runs[i]| == MAX_RUN
    ensures At(Lens(runs), n) == n * MAX_RUN
  {
    hide At;
    if n == 0 {
      AtEnds(Lens(runs));
    } else {
      FullAt(runs, n - 1);
      AtNext(Lens(runs), n - 1);
    }
  }

  lemma PostingsAt(f: Flat)
    ensures |Postings(f)| == At(Lens(f.runs), |f.runs|)
  {
    hide At, Concat;
    ConcatLength<nat>(f.runs);
    AtEnds(Lens(f.runs));
  }

  lemma {:induction false} PackedOrds(f: Flat, n: nat, bound: nat)
    requires Packable(f) && n <= |f.keys| && forall i | 0 <= i < n :: f.runs[i][|f.runs[i]| - 1] < bound
    ensures Packed(f, n).numOrds <= bound
  {
    hide Ascending;
    if n > 0 {
      PackedOrds(f, n - 1, bound);
    }
  }

  /** Packed in whatever order, the sorted keys list the index. */
  lemma PackedLists(g: Flat, f: Flat)
    requires Packable(g) && Rising(f.keys) && |f.keys| == |f.runs|
    requires |g.keys| > 0 && At(Lens(g.runs), |g.keys| - 1) <= MAX_OFF
    requires forall k :: k in f.keys <==> k in g.keys
    requires forall i, j | 0 <= i < |f.keys| && 0 <= j < |g.keys| && f.keys[i] == g.keys[j] :: f.runs[i] == g.runs[j]
    ensures Packed(g, |g.keys|).Valid() && Lists(f, Packed(g, |g.keys|))
  {
    hide At, Packed, Rising, Index.Valid, Index.Lookup, Ascending;
    PackedHolds(g, |g.keys|);
    assert g.keys[..|g.keys|] == g.keys;
    var idx := Packed(g, |g.keys|);
    forall i | 0 <= i < |f.keys| ensures f.runs[i] == idx.Lookup(f.keys[i]) {
      assert f.keys[i] in f.keys;
      var j :| 0 <= j < |g.keys| && g.keys[j] == f.keys[i];
    }
  }

  // ------------------------------------------------ more postings than are read

  const CROWD: nat := 4097

  /** The same keys for every one of the entries. */
  function CrowdLog(): (log: Log)
    ensures |log| == MAX_RUN && forall i | 0 <= i < |log| :: log[i] == (i, Full(4, CROWD).keys)
  {
    seq(MAX_RUN, (i: nat) => (i, Full(4, CROWD).keys))
  }

  function CrowdRuns(): Runs {
    map k | k in Full(4, CROWD).keys :: FullRun()
  }

  lemma CrowdIndexes()
    ensures Indexes(CrowdRuns(), CrowdLog())
  {
    hide Full, FullRun, CrowdLog, Spelt;
    var keys, runs, log := Full(4, CROWD).keys, CrowdRuns(), CrowdLog();
    forall k | k in keys ensures k != [] {
      var i :| 0 <= i < |keys| && keys[i] == k;
    }
    forall k, o: nat ensures Posted(runs, k, o) <==> Added(log, k, o) {
      if Posted(runs, k, o) {
        var i :| 0 <= i < |FullRun()| && FullRun()[i] == o;
        assert log[o].0 == o && k in log[o].1;
      }
      if Added(log, k, o) {
        var i :| 0 <= i < |log| && log[i].0 == o && k in log[i].1;
        assert FullRun()[o] == o;
      }
    }
  }

  ghost function CrowdIndex(): Index
    requires Packable(Full(4, CROWD))
  {
    Packed(Full(4, CROWD), CROWD)
  }

  lemma CrowdFacts()
    ensures Packable(Full(4, CROWD)) && Rising(Full(4, CROWD).keys)
    ensures CrowdIndex().Valid() && Lists(Full(4, CROWD), CrowdIndex()) && CrowdIndex().numOrds <= MAX_RUN
    ensures |Postings(Full(4, CROWD))| == 4296011775
  {
    hide Spelt, Less, Full, FullRun, At, Packed, Index.Valid, Index.Lookup, Rising, Packable;
    var f := Full(4, CROWD);
    FourLetters();
    FullRises(4, CROWD);
    FullAt(f.runs, CROWD - 1);
    FullAt(f.runs, CROWD);
    PostingsAt(f);
    DistinctKeys(f);
    PackedLists(f, f);
    PackedOrds(f, CROWD, MAX_RUN);
  }

  lemma FourLetters()
    ensures Pow16(4) == 0x1_0000 && Pow16(7) == 0x1000_0000
  {
    assert Pow16(2) == 256;
  }

  lemma DistinctKeys(f: Flat)
    requires Packable(f)
    ensures forall i, j | 0 <= i < |f.keys| && 0 <= j < |f.keys| && f.keys[i] == f.keys[j] :: f.runs[i] == f.runs[j]
  {
    hide Ascending;
  }

  lemma {:induction false} ShortArena(keys: seq<Key>, n: nat)
    requires forall i | 0 <= i < |keys| :: |keys[i]| <= n
    ensures |Concat(keys)| <= n * |keys|
    decreases |keys|
  {
    if keys != [] {
      ShortArena(keys[..|keys| - 1], n);
    }
  }

  /** An index over 2^20 - 1 entries is built and its section written, and no
      reader takes it: it holds more than 2^32 - 1 postings. */
  lemma TooManyPostings(n: nat)
    requires MAX_RUN <= n <= MAX_U32
    ensures Packable(Full(4, CROWD)) && CrowdIndex().Valid() && Lists(Full(4, CROWD), CrowdIndex())
    ensures CrowdIndex().Means(CrowdRuns()) && Indexes(CrowdRuns(), CrowdLog())
    ensures ShortKeys(CrowdIndex()) && ExactLayout.Size(Full(4, CROWD)) <= MAX_INT
    ensures forall g :: !IsSection(Section(Full(4, CROWD)), g, n)
  {
    hide Spelt, Less, Full, FullRun, Concat, Packed, Index.Valid, Index.Lookup, Rising, Packable, Section, IsSection;
    CrowdFacts();
    var f, idx := Full(4, CROWD), CrowdIndex();
    CrowdIndexes();
    ShortArena(f.keys, 4);
    ListedRuns(f, idx);
    WrittenIsRead(idx, f, n, Section(f));
  }

  lemma ListedRuns(f: Flat, idx: Index)
    requires f == Full(4, CROWD) && idx.Valid() && Lists(f, idx)
    ensures idx.Means(CrowdRuns()) && ShortKeys(idx)
    ensures forall k | k in idx.m :: Ascending(idx.Lookup(k))
  {
    hide Spelt, Full, FullRun, Rising, Index.Valid, Index.Lookup;
    forall k | k in idx.m ensures |k| == 4 && idx.Lookup(k) == FullRun() {
      assert k in f.keys;
      var i :| 0 <= i < |f.keys| && f.keys[i] == k;
    }
    assert idx.m.Keys == CrowdRuns().Keys;
  }

  ghost function FirstKeys(f: Flat, n: nat): set<Key>
    requires n <= |f.keys|
  {
    set i | 0 <= i < n :: f.keys[i]
  }

  /** The runs of the first n keys, back to back. */
  lemma {:induction false} PostingsAreRuns(f: Flat, runs: Runs, n: nat)
    requires |f.keys| == |f.runs| && n <= |f.keys| && Rising(f.keys)
    requires forall i | 0 <= i < |f.keys| :: f.keys[i] in runs && f.runs[i] == runs[f.keys[i]]
    ensures |Concat<nat>(f.runs[..n])| == Total(Part(runs, FirstKeys(f, n)))
  {
    hide Concat, Total, Less, Part;
    if n == 0 {
      NothingPacked<nat>();
      NoRuns(runs, FirstKeys(f, 0));
    } else {
      PostingsAreRuns(f, runs, n - 1);
      ConcatPush<nat>(f.runs, n - 1);
      LessIrreflexive(f.keys[n - 1]);
      assert FirstKeys(f, n) == FirstKeys(f, n - 1) + {f.keys[n - 1]};
      PartTotal(runs, FirstKeys(f, n - 1), f.keys[n - 1]);
    }
  }

  lemma NoRuns(runs: Runs, none: set<Key>)
    requires none == {}
    ensures Total(Part(runs, none)) == 0
  {
    assert Part(runs, none) == map[];
  }

  lemma ListedTotal(idx: Index, f: Flat, runs: Runs)
    requires idx.Means(runs) && Lists(f, idx)
    ensures |Postings(f)| == Total(runs)
  {
    hide Concat, Total, Index.Valid, Index.Lookup, Rising, Part;
    forall i | 0 <= i < |f.keys| ensures f.keys[i] in runs && f.runs[i] == runs[f.keys[i]] {
      assert f.keys[i] in f.keys;
    }
    PostingsAreRuns(f, runs, |f.keys|);
    assert f.runs[..|f.runs|] == f.runs;
    forall k ensures k in FirstKeys(f, |f.keys|) <==> k in runs.Keys {
      assert k in f.keys <==> k in idx.m;
    }
    assert FirstKeys(f, |f.keys|) == runs.Keys;
    WholePart(runs);
  }

  /** An index over entries with no more keys than the records section may hold
      never meets the postings bound: what keeps an artifact from being read is
      its records. */
  lemma RecordsBindFirst(rules: Q.Rules, entries: seq<L.Entry>, runs: Runs, idx: Index, f: Flat, sec: seq<byte>)
    requires L.KeysOf(entries) <= MAX_U32 && Indexes(runs, B.LogOf(rules, entries))
    requires idx.Means(runs) && Lists(f, idx) && ShortKeys(idx)
    requires idx.numOrds <= |entries| <= MAX_U32 && ExactLayout.Size(f) <= MAX_INT && sec == Section(f)
    ensures exists g :: IsSection(sec, g, |entries|)
  {
    hide Index.Valid, Lists, Section, IsSection, Total, B.LogOf, Posted, Added, Postings, ExactLayout.Size, L.KeysOf,
      Index.Lookup, Ascending;
    ListedTotal(idx, f, runs);
    B.PostingsBound(rules, entries, runs);
    WrittenIsRead(idx, f, |entries|, sec);
  }

  // ------------------------------------------------- saved files that do not load

  lemma {:induction false} UvarintLength(v: nat)
    ensures |PutUvarint(v)| <= v + 1
  {
    if v >= 128 {
      UvarintLength(v / 128);
    }
  }

  lemma {:induction false} LensLength(f: Flat, n: nat)
    requires n <= |f.keys| == |f.runs|
    ensures |AllLens(f, n)| <= |Concat(f.keys[..n])| + |Concat<nat>(f.runs[..n])| + 2 * n
  {
    hide PutUvarint, Concat;
    if n == 0 {
      NothingPacked<byte>();
      NothingPacked<nat>();
    } else {
      LensLength(f, n - 1);
      ConcatPush(f.keys, n - 1);
      ConcatPush<nat>(f.runs, n - 1);
      UvarintLength(|f.keys[n - 1]|);
      UvarintLength(|f.runs[n - 1]|);
    }
  }

  /** A file is no longer than this. */
  lemma FileLength(f: Flat, hdr: seq<byte>)
    requires |f.keys| == |f.runs|
    ensures |FileOf(f, hdr)| <= 9 + 2 * |hdr| + 2 * |Arena(f)| + 2 * |f.keys| + 5 * |Postings(f)|
  {
    hide PutUvarint, Concat, AllLens;
    UvarintLength(|hdr|);
    LensLength(f, |f.keys|);
    assert f.keys[..|f.keys|] == f.keys && f.runs[..|f.runs|] == f.runs;
  }

  /** The letter a, held by the first n entries. */
  function Single(n: nat): (f: Flat)
    ensures |f.keys| == |f.runs| == 1 && f.keys[0] == [97]
    ensures |f.runs[0]| == n && forall i | 0 <= i < n :: f.runs[0][i] == i
  {
    Flat([[97]], [seq(n, (i: nat) => i)])
  }

  ghost function SingleIndex(n: nat): Index
    requires Packable(Single(n))
  {
    Packed(Single(n), 1)
  }

  lemma SingleFacts(n: nat)
    requires 1 <= n <= 8
    ensures Packable(Single(n)) && SingleIndex(n).Valid() && Lists(Single(n), SingleIndex(n))
    ensures SingleIndex(n).numOrds == n && |Postings(Single(n))| == n && |Arena(Single(n))| == 1
  {
    hide Packed, Index.Valid, Index.Lookup, At, Single;
    var f := Single(n);
    AtEnds(Lens(f.runs));
    PackedLists(f, f);
    SingleSizes(f);
    ListedOrds(SingleIndex(n), f);
    assert f.runs[0][n - 1] == n - 1;
    SinglePostings(f);
  }

  lemma SingleSizes(f: Flat)
    requires |f.keys| == |f.runs| == 1 && |f.keys[0]| == 1
    ensures |Postings(f)| == |f.runs[0]| && |Arena(f)| == 1
  {
    OnePart(f.keys);
    OnePart<nat>(f.runs);
  }

  lemma OnePart<T>(xs: seq<seq<T>>)
    requires |xs| == 1
    ensures Concat(xs) == xs[0]
  {
    NothingPacked<T>();
    ConcatPush(xs, 0);
    assert xs[..0] == [] && xs[..1] == xs;
  }

  lemma SinglePostings(f: Flat)
    requires |f.runs| == 1
    ensures Postings(f) == f.runs[0]
  {
    OnePart<nat>(f.runs);
  }

  const UNKNOWN := BuildInfo([], 0, 0, 0)

  /** An analyzer named at more than 2^20 bytes: saved, and refused. */
  lemma HeaderTooLong(analyzer: seq<byte>, encode: Meta -> seq<byte>, decode: seq<byte> -> Option<Meta>)
    requires Lawful(encode, decode) && |analyzer| == MAX_LEN + 1
    requires |analyzer| <= |encode(MetaOf(Single(1), analyzer, UNKNOWN))| <= 0x1000 + 6 * |analyzer|
    ensures Packable(Single(1)) && SingleIndex(1).Valid() && Lists(Single(1), SingleIndex(1)) && BuildFits(UNKNOWN, 1)
    ensures ReadFile(FileOf(Single(1), encode(MetaOf(Single(1), analyzer, UNKNOWN))), decode).None?
  {
    hide FileOf, ReadFile, Single, Index.Valid, Lists, Arena, Postings, OffsetsFit, Packed, Lawful;
    SingleFacts(1);
    var f := Single(1);
    var hdr := encode(MetaOf(f, analyzer, UNKNOWN));
    FileLength(f, hdr);
    ListedPlain(SingleIndex(1), f);
    LawfulHeader(MetaOf(f, analyzer, UNKNOWN), encode, decode);
    SavedReads(f, hdr, MetaOf(f, analyzer, UNKNOWN), decode);
  }

  lemma LawfulHeader(m: Meta, encode: Meta -> seq<byte>, decode: seq<byte> -> Option<Meta>)
    requires Lawful(encode, decode)
    ensures decode(encode(m)) == Some(m) && encode(m) != []
  {
  }

  /** A build record of one entry beside an index over two: saved, and refused. */
  lemma FewerEntries(analyzer: seq<byte>, build: BuildInfo,
                     encode: Meta -> seq<byte>, decode: seq<byte> -> Option<Meta>)
    requires Lawful(encode, decode) && build == BuildInfo([], 1, 0, 0)
    requires |encode(MetaOf(Single(2), analyzer, build))| <= MAX_LEN
    ensures Packable(Single(2)) && SingleIndex(2).Valid() && Lists(Single(2), SingleIndex(2))
    ensures var read := ReadFile(FileOf(Single(2), encode(MetaOf(Single(2), analyzer, build))), decode);
            ValidBuild(Some(build)) && read.Some? && !Usable(read.value)
  {
    hide FileOf, ReadFile, Single, Index.Valid, Lists, Arena, Postings, OffsetsFit, Packed, Usable, Lawful;
    SingleFacts(2);
    var f := Single(2);
    var hdr := encode(MetaOf(f, analyzer, build));
    FileLength(f, hdr);
    SavedLoads(SingleIndex(2), f, analyzer, build, encode, decode);
    ListedPlain(SingleIndex(2), f);
    LawfulHeader(MetaOf(f, analyzer, build), encode, decode);
    SavedReads(f, hdr, MetaOf(f, analyzer, build), decode);
  }

  const FAR: nat := 0x100_0010

  /** The letter z, after every spelling. */
  const LATE: Key := [122]

  /** One key's run, then 2^24 + 17 full ones: the last starts within 44 bits. */
  function BuiltOrder(): Flat {
    Flat([LATE] + Full(7, FAR + 1).keys, [[0]] + Full(7, FAR + 1).runs)
  }

  /** In key order that one run comes last, past 44 bits. */
  function KeyOrder(): Flat {
    Flat(Full(7, FAR + 1).keys + [LATE], Full(7, FAR + 1).runs + [[0]])
  }

  lemma LateIsLate(i: nat)
    ensures Less(Spelt(7, i), LATE) && Spelt(7, i) != LATE
  {
    hide Spelt;
    var s := Spelt(7, i);
    assert s[0] < 122;
  }

  lemma OrdersAreGood()
    ensures Packable(BuiltOrder()) && Rising(KeyOrder().keys)
  {
    hide Spelt, Less, Full, FullRun, Pow16, Rising;
    var full := Full(7, FAR + 1);
    FourLetters();
    FullRises(7, FAR + 1);
    forall i: nat | i < FAR + 1 ensures full.keys[i] != LATE && Less(full.keys[i], LATE) {
      LateIsLate(i);
    }
    LateRises(full.keys);
  }

  lemma LateRises(keys: seq<Key>)
    requires Rising(keys) && forall i | 0 <= i < |keys| :: Less(keys[i], LATE)
    ensures Rising(keys + [LATE])
  {
    hide Less;
  }

  lemma {:induction false} AfterFirst(first: seq<nat>, runs: seq<seq<nat>>, n: nat)
    requires n <= |runs| && forall i | 0 <= i < n :: |runs[i]| == MAX_RUN
    ensures At(Lens([first] + runs), n + 1) == |first| + n * MAX_RUN
  {
    hide At;
    var all := [first] + runs;
    if n == 0 {
      AtEnds(Lens(all));
      AtNext(Lens(all), 0);
    } else {
      AfterFirst(first, runs, n - 1);
      AtNext(Lens(all), n);
    }
  }

  ghost function FarIndex(): Index
    requires Packable(BuiltOrder())
  {
    Packed(BuiltOrder(), FAR + 2)
  }

  lemma FarLists()
    ensures Packable(BuiltOrder()) && FarIndex().Valid() && Lists(KeyOrder(), FarIndex())
  {
    hide Spelt, Less, Full, FullRun, At, Packed, Index.Valid, Index.Lookup, Rising, Ascending;
    OrdersAreGood();
    var g, f, full := BuiltOrder(), KeyOrder(), Full(7, FAR + 1);
    AfterFirst([0], full.runs, FAR);
    forall i, j | 0 <= i < |f.keys| && 0 <= j < |g.keys| && f.keys[i] == g.keys[j] ensures f.runs[i] == g.runs[j] {
      DistinctKeys(g);
      var k := if i == FAR + 1 then 0 else i + 1;
      assert g.keys[k] == f.keys[i] && g.runs[k] == f.runs[i];
    }
    forall k ensures k in f.keys <==> k in g.keys {
      assert k in f.keys <==> k in full.keys || k == LATE;
      assert k in g.keys <==> k in full.keys || k == LATE;
    }
    PackedLists(g, f);
  }

  lemma FarSizes()
    requires Packable(BuiltOrder())
    ensures FarIndex().numOrds <= MAX_RUN
    ensures !OffsetsFit(KeyOrder())
    ensures |Postings(KeyOrder())| == (FAR + 1) * MAX_RUN + 1 && |Arena(KeyOrder())| <= 7 * (FAR + 2)
  {
    hide Spelt, Less, Full, FullRun, At, Packed, Concat, Packable;
    var g, f := BuiltOrder(), KeyOrder();
    PackedOrds(g, FAR + 2, MAX_RUN);
    FullAt(f.runs, FAR + 1);
    AtNext(Lens(f.runs), FAR + 1);
    PostingsAt(f);
    ShortArena(f.keys, 7);
  }

  /** 2^44 postings and a few: an index whose runs all start within 44 bits is
      saved in key order, where one does not, and is refused. */
  lemma OffsetPastLocator(analyzer: seq<byte>, encode: Meta -> seq<byte>, decode: seq<byte> -> Option<Meta>)
    requires Lawful(encode, decode) && |encode(MetaOf(KeyOrder(), analyzer, UNKNOWN))| <= MAX_LEN
    ensures Packable(BuiltOrder()) && FarIndex().Valid() && Lists(KeyOrder(), FarIndex())
    ensures BuildFits(UNKNOWN, FarIndex().numOrds)
    ensures var read := ReadFile(FileOf(KeyOrder(), encode(MetaOf(KeyOrder(), analyzer, UNKNOWN))), decode);
            read.Some? && !Usable(read.value)
  {
    hide FileOf, ReadFile, KeyOrder, BuiltOrder, Packable, Index.Valid, Lists, Arena, Postings, OffsetsFit, Packed,
      Usable, Lawful;
    FarLists();
    FarSizes();
    var f := KeyOrder();
    var hdr := encode(MetaOf(f, analyzer, UNKNOWN));
    KeyOrderSize();
    FileLength(f, hdr);
    SavedLoads(FarIndex(), f, analyzer, UNKNOWN, encode, decode);
    ListedPlain(FarIndex(), f);
    LawfulHeader(MetaOf(f, analyzer, UNKNOWN), encode, decode);
    SavedReads(f, hdr, MetaOf(f, analyzer, UNKNOWN), decode);
  }

  lemma KeyOrderSize()
    ensures |KeyOrder().keys| == |KeyOrder().runs| == FAR + 2
  {
    hide Full;
  }
}
