/** Checking an exact section and rebuilding the index over it (engine/prepared/
    view.go:449-518 and 693-736). */
module ExactRead {
  import opened Bytes
  import opened ExactIndex
  import opened ExactLayout
  import opened ExactCode
  import opened Packing

  /** The four lists, still bytes. */
  datatype ExactView = ExactView(k: nat, p: nat, keyLens: seq<byte>, runLens: seq<byte>, postings: seq<byte>,
                                 arena: seq<byte>) {
    predicate Shaped() {
      |keyLens| == 4 * k && |runLens| == 4 * k && |postings| == 4 * p
    }

    function Decoded(): Parts
      requires Shaped()
    {
      ExactLayout.Parts.Parts(Decode(keyLens, k), Decode(runLens, k), Decode(postings, p), arena)
    }
  }

  /** The first keys and runs checked so far. */
  ghost predicate Checked(t: Parts, n: nat, i: nat, aOff: nat, pOff: nat)
    requires i <= |t.keyLens| == |t.runLens|
  {
    && aOff == At(t.keyLens, i) <= |t.arena| && pOff == At(t.runLens, i) <= |t.postings|
    && (forall j | 0 <= j < i :: 1 <= t.keyLens[j] && 1 <= t.runLens[j] <= MAX_RUN)
    && (forall j | 0 < j < i :: Less(KeyAt(t.arena, t.keyLens, j - 1), KeyAt(t.arena, t.keyLens, j)))
    && (forall p | 0 <= p < pOff :: t.postings[p] < n)
    && forall j: nat | j < i :: RunRises(t, j)
  }

  lemma OkNext(t: Parts, n: nat, i: nat)
    requires PartsOk(t, n) && i < |t.keyLens|
    ensures 1 <= t.keyLens[i] && 1 <= t.runLens[i] <= MAX_RUN && RunRises(t, i)
    ensures 0 <= At(t.keyLens, i) <= At(t.keyLens, i) + t.keyLens[i] <= |t.arena|
    ensures 0 <= At(t.runLens, i) <= At(t.runLens, i) + t.runLens[i] <= |t.postings|
    ensures i > 0 ==> Less(KeyAt(t.arena, t.keyLens, i - 1), KeyAt(t.arena, t.keyLens, i))
    ensures forall p | 0 <= p < |t.postings| :: t.postings[p] < n
  {
    hide At, Sum, KeyAt, Less, RunRises;
    AtNext(t.keyLens, i);
    AtNext(t.runLens, i);
    AtGrows(t.keyLens, i, i + 1);
    AtGrows(t.runLens, i, i + 1);
  }

  lemma NoneChecked(t: Parts, n: nat)
    requires |t.keyLens| == |t.runLens|
    ensures Checked(t, n, 0, 0, 0)
  {
    AtEnds(t.keyLens);
    AtEnds(t.runLens);
  }

  lemma CheckedNext(t: Parts, n: nat, i: nat, aOff: nat, pOff: nat)
    requires i < |t.keyLens| == |t.runLens| && Checked(t, n, i, aOff, pOff)
    requires 1 <= t.keyLens[i] && aOff + t.keyLens[i] <= |t.arena|
    requires 1 <= t.runLens[i] <= MAX_RUN && pOff + t.runLens[i] <= |t.postings|
    requires i > 0 ==> Less(KeyAt(t.arena, t.keyLens, i - 1), KeyAt(t.arena, t.keyLens, i))
    requires forall p | pOff <= p < pOff + t.runLens[i] :: t.postings[p] < n
    requires RunRises(t, i)
    ensures Checked(t, n, i + 1, aOff + t.keyLens[i], pOff + t.runLens[i])
  {
    hide At, KeyAt, Less, RunRises;
    AtNext(t.keyLens, i);
    AtNext(t.runLens, i);
  }

  lemma CheckedAll(t: Parts, n: nat, aOff: nat, pOff: nat)
    requires |t.keyLens| == |t.runLens| && Checked(t, n, |t.keyLens|, aOff, pOff)
    ensures PartsOk(t, n) <==> aOff == |t.arena| && pOff == |t.postings|
  {
    hide KeyAt, Less, RunRises, At;
    AtEnds(t.keyLens);
    AtEnds(t.runLens);
  }

  /** Checks one run: ascending, and within the records. */
  method CheckRun(v: ExactView, n: nat, pOff: nat, rl: nat, ghost i: nat) returns (ok: bool)
    requires v.Shaped() && i < v.k && rl == v.Decoded().runLens[i] && pOff == At(v.Decoded().runLens, i)
    requires pOff + rl <= v.p
    ensures ok <==> (forall p | pOff <= p < pOff + rl :: v.Decoded().postings[p] < n) && RunRises(v.Decoded(), i)
  {
    hide At;
    ghost var t := v.Decoded();
    var last := 0;
    for j := 0 to rl
      invariant forall p | pOff <= p < pOff + j :: t.postings[p] < n
      invariant forall p | pOff < p < pOff + j :: t.postings[p - 1] < t.postings[p]
      invariant j > 0 ==> last == t.postings[pOff + j - 1]
    {
      var o := U32At(v.postings, pOff + j);
      assert o == t.postings[pOff + j];
      if o >= n || (j > 0 && o <= last) {
        return false;
      }
      last := o;
    }
    ok := true;
  }

  /** Checks every key and run. */
  method CheckKeys(v: ExactView, n: nat) returns (ok: bool)
    requires v.Shaped()
    ensures ok <==> PartsOk(v.Decoded(), n)
  {
    hide At, Sum, KeyAt, Less, RunRises, Checked, PartsOk;
    ghost var t := v.Decoded();
    var aOff: nat, pOff: nat := 0, 0;
    var prev: Key := [];
    NoneChecked(t, n);
    for i := 0 to v.k
      invariant Checked(t, n, i, aOff, pOff)
      invariant i > 0 ==> prev == KeyAt(t.arena, t.keyLens, i - 1)
    {
      var kl, rl := U32At(v.keyLens, i), U32At(v.runLens, i);
      assert kl == t.keyLens[i] && rl == t.runLens[i];
      CheckedPlace(t, n, i, aOff, pOff);
      if PartsOk(t, n) {
        OkNext(t, n, i);
      }
      if kl == 0 || kl > |v.arena| - aOff {
        return false;
      }
      if rl == 0 || rl > MAX_RUN || rl > v.p - pOff {
        return false;
      }
      var key := v.arena[aOff..aOff + kl];
      KeyIs(t.arena, t.keyLens, i);
      if i > 0 && !Less(prev, key) {
        return false;
      }
      prev := key;
      var rises := CheckRun(v, n, pOff, rl, i);
      if !rises {
        return false;
      }
      CheckedNext(t, n, i, aOff, pOff);
      aOff, pOff := aOff + kl, pOff + rl;
    }
    CheckedAll(t, n, aOff, pOff);
    ok := aOff == |v.arena| && pOff == v.p;
  }

  lemma CheckedPlace(t: Parts, n: nat, i: nat, aOff: nat, pOff: nat)
    requires i <= |t.keyLens| == |t.runLens| && Checked(t, n, i, aOff, pOff)
    ensures aOff == At(t.keyLens, i) <= |t.arena| && pOff == At(t.runLens, i) <= |t.postings|
  {
  }

  /** Accepts exactly the sections of good listings of at most 2^32 - 1
      postings, and serves that listing's parts. */
  method ParseExact(b: seq<byte>, n: nat) returns (ok: bool, v: ExactView)
    requires |b| <= MAX_INT && n <= MAX_U32
    ensures ok <==> exists f :: IsSection(b, f, n)
    ensures ok ==> v.Shaped() && HeadFits(b) && v.Decoded() == PartsOf(b) && PartsOk(v.Decoded(), n)
    ensures ok ==> IsSection(b, FlatOf(PartsOf(b)), n)
  {
    hide PartsOk, IsSection, LE, PartsOf, ExactView.Decoded, FlatOf;
    v := ExactView(0, 0, [], [], [], []);
    AcceptedIsSection(b, n);
    if |b| < 24 {
      return false, v;
    }
    var k, p, arenaLen := LE(b[0..8]), LE(b[8..16]), LE(b[16..24]);
    var room := |b| - 24;
    if k > room / 8 {
      return false, v;
    }
    room := room - 8 * k;
    if p > room / 4 {
      return false, v;
    }
    room := room - 4 * p;
    if arenaLen != room || p > MAX_U32 {
      return false, v;
    }
    v := ExactView(k, p, b[24..24 + 4 * k], b[24 + 4 * k..24 + 8 * k],
                   b[24 + 8 * k..24 + 8 * k + 4 * p], b[24 + 8 * k + 4 * p..]);
    ViewIsParts(b, v);
    ok := CheckKeys(v, n);
    if ok {
      AcceptedSums(b, n);
    }
  }

  lemma ViewIsParts(b: seq<byte>, v: ExactView)
    requires HeadFits(b) && v.k == LE(b[0..8]) && v.p == LE(b[8..16])
    requires v.keyLens == b[24..24 + 4 * v.k] && v.runLens == b[24 + 4 * v.k..24 + 8 * v.k]
    requires v.postings == b[24 + 8 * v.k..24 + 8 * v.k + 4 * v.p] && v.arena == b[24 + 8 * v.k + 4 * v.p..]
    ensures v.Shaped() && v.Decoded() == PartsOf(b)
  {
    hide LE, Decode;
  }

  lemma AcceptedSums(b: seq<byte>, n: nat)
    requires HeadFits(b) && PartsOk(PartsOf(b), n)
    ensures Sum(PartsOf(b).keyLens) == |PartsOf(b).arena| && Sum(PartsOf(b).runLens) == |PartsOf(b).postings|
  {
    hide LE, Sum, RunRises, KeyAt;
  }

  // --------------------------------------------------------------------- rebuilding

  lemma PartsRestore(t: Parts, n: nat)
    requires PartsOk(t, n) && n <= MAX_U32 && |t.postings| <= MAX_U32
    ensures Restorable(t.arena, t.keyLens, t.runLens, t.postings)
  {
    hide At, Sum, KeyAt, Less, RunRises;
    forall i | 0 <= i < |t.runLens| ensures At(t.runLens, i) <= MAX_OFF {
      AtGrows(t.runLens, i, |t.runLens|);
    }
    forall i, j | 0 <= i < j < |t.keyLens| ensures KeyAt(t.arena, t.keyLens, i) != KeyAt(t.arena, t.keyLens, j) {
      KeysRise(t, n, i, j);
      LessIrreflexive(KeyAt(t.arena, t.keyLens, i));
    }
  }

  lemma RestoredKey(idx: Index, t: Parts, n: nat, i: nat)
    requires PartsOk(t, n) && idx.Valid() && idx.postings == t.postings && i < |t.keyLens|
    requires Mapped(idx.m, t.arena, t.keyLens, t.runLens, |t.keyLens|)
    ensures Sum(t.keyLens) == |t.arena| && Sum(t.runLens) == |t.postings|
    ensures var k := FlatOf(t).keys[i];
            k == KeyAt(t.arena, t.keyLens, i) && k in idx.m && idx.Lookup(k) == FlatOf(t).runs[i]
  {
    hide At, Sum, KeyAt, Less, RunRises, Mapped, Index.Valid, Pack, Off, Len;
    var f := FlatOf(t);
    KeyIs(t.arena, t.keyLens, i);
    RunOf(idx.m, t.arena, t.keyLens, t.runLens, i);
  }

  /** The restored index is listed by the parts' listing. */
  lemma RestoredLists(idx: Index, t: Parts, n: nat)
    requires PartsOk(t, n) && idx.Valid() && idx.postings == t.postings && Good(FlatOf(t), n)
    requires Mapped(idx.m, t.arena, t.keyLens, t.runLens, |t.keyLens|)
    ensures Lists(FlatOf(t), idx)
  {
    hide At, Sum, KeyAt, Less, RunRises, Rising, GoodRun, Mapped, Index.Valid, Index.Lookup, Pack, Off, Len, PartsOk;
    OkSums(t, n);
    var f := FlatOf(t);
    forall i | 0 <= i < |f.keys|
      ensures f.keys[i] == KeyAt(t.arena, t.keyLens, i) && f.keys[i] in idx.m && f.runs[i] == idx.Lookup(f.keys[i])
    {
      RestoredKey(idx, t, n, i);
    }
    forall k | k in idx.m ensures k in f.keys {
      MappedKey(idx.m, t.arena, t.keyLens, t.runLens, |t.keyLens|, k);
      var i: nat :| i < |t.keyLens| && KeyAt(t.arena, t.keyLens, i) == k;
      assert f.keys[i] == k;
    }
  }

  /** Decodes the lists and restores the index: always possible, and it looks
      up what the section lists. */
  method ExactIndexOf(v: ExactView, n: nat) returns (ok: bool, idx: Index)
    requires v.Shaped() && PartsOk(v.Decoded(), n) && n <= MAX_U32 && v.p <= MAX_U32
    requires Good(FlatOf(v.Decoded()), n)
    ensures ok && idx.Valid() && Lists(FlatOf(v.Decoded()), idx) && idx.numOrds <= n
  {
    hide PartsOk, Lists, Good, At, Sum, Mapped, Restorable, NumOrdsOf, Index.Lookup;
    ghost var t := v.Decoded();
    var keyLens: seq<nat>, runLens: seq<nat> := [], [];
    for i := 0 to v.k
      invariant |keyLens| == |runLens| == i
      invariant forall j | 0 <= j < i :: keyLens[j] == t.keyLens[j] && runLens[j] == t.runLens[j]
    {
      keyLens := keyLens + [U32At(v.keyLens, i)];
      runLens := runLens + [U32At(v.runLens, i)];
    }
    assert keyLens == t.keyLens && runLens == t.runLens;
    var postings := Decode(v.postings, v.p);
    PartsRestore(t, n);
    ok, idx := Restore(v.arena, keyLens, runLens, postings);
    RestoredLists(idx, t, n);
    OrdsBelow(idx, t, n);
  }

  lemma OrdsBelow(idx: Index, t: Parts, n: nat)
    requires idx.Valid() && idx.postings == t.postings && PartsOk(t, n)
    ensures idx.numOrds <= n
  {
    hide At, Sum, RunRises, KeyAt, Less;
  }

  // --------------------------------------------------------------------- round trips

  lemma ListedRun(idx: Index, f: Flat, n: nat, i: nat)
    requires idx.Valid() && Lists(f, idx) && ShortKeys(idx) && idx.numOrds <= n && i < |f.keys|
    ensures f.keys[i] in idx.m && 1 <= |f.keys[i]| <= MAX_U32
    ensures GoodRun(f.runs[i], n) <==> Ascending(f.runs[i])
  {
    hide Off, Less, Ascending, Rising;
    assert f.keys[i] in f.keys;
  }

  /** A built index's listing is good over its entries. */
  lemma ListedIsGood(idx: Index, f: Flat, n: nat)
    requires idx.Valid() && Lists(f, idx) && ShortKeys(idx) && idx.numOrds <= n
    ensures Good(f, n) <==> forall k | k in idx.m :: Ascending(idx.Lookup(k))
  {
    hide Off, Less, Ascending, Rising, Index.Valid, Index.Lookup, GoodRun;
    forall i: nat | i < |f.keys|
      ensures f.keys[i] in idx.m && 1 <= |f.keys[i]| <= MAX_U32
      ensures GoodRun(f.runs[i], n) <==> Ascending(idx.Lookup(f.keys[i]))
    {
      ListedRun(idx, f, n, i);
    }
    if Good(f, n) {
      forall k | k in idx.m ensures Ascending(idx.Lookup(k)) {
        assert k in f.keys;
        var i :| 0 <= i < |f.keys| && f.keys[i] == k;
        assert GoodRun(f.runs[i], n);
      }
    }
  }

  /** What EncodeExact wrote of a built index is accepted, unless it holds more
      than 2^32 - 1 postings: only the reader counts those. */
  lemma WrittenIsRead(idx: Index, f: Flat, n: nat, sec: seq<byte>)
    requires idx.Valid() && Lists(f, idx) && ShortKeys(idx) && idx.numOrds <= n <= MAX_U32 && Size(f) <= MAX_INT
    requires forall k | k in idx.m :: Ascending(idx.Lookup(k))
    requires sec == Section(f)
    ensures (exists g :: IsSection(sec, g, n)) <==> |Postings(f)| <= MAX_U32
    ensures forall g | IsSection(sec, g, n) :: g == f
  {
    hide Lists, Index.Valid, Good, Section, Postings, ExactLayout.Size, Ascending, LE;
    ListedIsGood(idx, f, n);
    if |Postings(f)| <= MAX_U32 {
      assert IsSection(sec, f, n);
    }
    forall g | IsSection(sec, g, n) ensures g == f {
      SectionParts(f, n);
      SectionParts(g, n);
      PartsForUnique(f, g);
    }
  }

  /** Every section accepted is written again, byte for byte, from the index
      rebuilt over it. */
  lemma AcceptedReencodes(b: seq<byte>, n: nat, f: Flat, idx: Index, g: Flat)
    requires IsSection(b, f, n) && idx.Valid() && Lists(f, idx) && Lists(g, idx)
    ensures Section(g) == b && ShortKeys(idx) && ExactLayout.Size(g) <= MAX_INT
  {
    hide Index.Valid, Index.Lookup, Section, Rising, GoodRun;
    ListingUnique(idx, f, g);
    forall k | k in idx.m ensures |k| <= MAX_U32 {
      assert k in f.keys;
    }
  }
}
