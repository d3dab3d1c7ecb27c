/** The exact section (engine/prepared/encode.go:438-475, engine/prepared/
    view.go:449-518, 693-717): key lengths, run lengths, postings and arena,
    keys in sorted order. One index has one section, and one section one index. */
module ExactLayout {
  import opened Buffers
  import opened Bytes
  import opened ExactIndex
  import opened Packing

  const MAX_INT := 0x7FFF_FFFF_FFFF_FFFF

  /** An index listed: keys in strictly increasing order, each with its run. */
  datatype Flat = Flat(keys: seq<Key>, runs: seq<seq<nat>>)

  ghost predicate Rising(keys: seq<Key>) {
    forall i, j | 0 <= i < j < |keys| :: Less(keys[i], keys[j])
  }

  ghost predicate GoodRun(run: seq<nat>, n: nat) {
    1 <= |run| <= MAX_RUN && Ascending(run) && forall q | 0 <= q < |run| :: run[q] < n
  }

  /** An index over n entries, in section form. */
  ghost predicate Good(f: Flat, n: nat) {
    && |f.keys| == |f.runs| && Rising(f.keys)
    && (forall i | 0 <= i < |f.keys| :: 1 <= |f.keys[i]| <= MAX_U32)
    && forall i | 0 <= i < |f.runs| :: GoodRun(f.runs[i], n)
  }

  function Arena(f: Flat): seq<byte> {
    Concat(f.keys)
  }

  function Postings(f: Flat): seq<nat> {
    Concat<nat>(f.runs)
  }

  function U32s(vals: seq<nat>): (b: seq<byte>)
    ensures |b| == 4 * |vals|
  {
    if vals == [] then [] else U32s(vals[..|vals| - 1]) + PutLE(4, vals[|vals| - 1])
  }

  function Head(k: nat, p: nat, a: nat): (b: seq<byte>)
    ensures |b| == 24
  {
    PutLE(8, k) + PutLE(8, p) + PutLE(8, a)
  }

  function Section(f: Flat): seq<byte> {
    Head(|f.keys|, |Postings(f)|, |Arena(f)|)
    + U32s(Lens(f.keys)) + U32s(Lens(f.runs)) + U32s(Postings(f)) + Arena(f)
  }

  function Size(f: Flat): nat {
    24 + 4 * |f.keys| + 4 * |f.runs| + 4 * |Postings(f)| + |Arena(f)|
  }

  // ------------------------------------------------------------------- 32-bit lists

  function U32At(b: seq<byte>, i: nat): (v: nat)
    requires 4 * i + 4 <= |b|
    ensures v <= MAX_U32
  {
    U32Bound(b[4 * i..4 * i + 4]);
    LE(b[4 * i..4 * i + 4])
  }

  lemma U32Bound(w: seq<byte>)
    requires |w| == 4
    ensures LE(w) <= MAX_U32
  {
    Span4();
    LEBound(w);
  }

  function Decode(b: seq<byte>, n: nat): (vals: seq<nat>)
    requires 4 * n <= |b|
    ensures |vals| == n && forall i | 0 <= i < n :: vals[i] == U32At(b, i)
  {
    seq(n, (i: nat) requires i < n => U32At(b, i))
  }

  lemma {:induction false} U32Reads(vals: seq<nat>, i: nat)
    requires i < |vals| && vals[i] <= MAX_U32
    ensures U32At(U32s(vals), i) == vals[i]
    decreases |vals|
  {
    hide LE, PutLE;
    var front := vals[..|vals| - 1];
    if i < |vals| - 1 {
      U32Reads(front, i);
      FrontSlice(U32s(front), PutLE(4, vals[|vals| - 1]), 4 * i, 4 * i + 4);
    } else {
      Span4();
      ReadAfterPut(4, vals[i]);
      BackSlice(U32s(front), PutLE(4, vals[i]));
      assert U32s(vals)[4 * i..] == U32s(vals)[4 * i..4 * i + 4];
    }
  }

  /** A list that fits is read back from its bytes. */
  lemma DecodeEncoded(vals: seq<nat>)
    requires forall i | 0 <= i < |vals| :: vals[i] <= MAX_U32
    ensures Decode(U32s(vals), |vals|) == vals
  {
    hide U32s, U32At;
    forall i | 0 <= i < |vals| ensures Decode(U32s(vals), |vals|)[i] == vals[i] {
      U32Reads(vals, i);
    }
  }

  lemma {:induction false} EncodeDecoded(b: seq<byte>, n: nat)
    requires |b| == 4 * n
    ensures U32s(Decode(b, n)) == b
    decreases n
  {
    hide LE, PutLE;
    if n > 0 {
      var front, w := b[..4 * (n - 1)], b[4 * (n - 1)..];
      EncodeDecoded(front, n - 1);
      assert Decode(b, n)[..n - 1] == Decode(front, n - 1) by {
        forall i | 0 <= i < n - 1 ensures U32At(b, i) == U32At(front, i) {
          SliceSlice(b, 0, 4 * (n - 1), 4 * i, 4 * i + 4);
          assert b[0..4 * (n - 1)] == front;
        }
      }
      PutAfterRead(w);
      assert w == b[4 * (n - 1)..4 * (n - 1) + 4];
    }
  }

  // -------------------------------------------------------------------- the parts

  /** The decoded parts of a section. */
  datatype Parts = Parts(keyLens: seq<nat>, runLens: seq<nat>, postings: seq<nat>, arena: seq<byte>)

  predicate HeadFits(b: seq<byte>) {
    |b| >= 24 && 24 + 8 * LE(b[0..8]) + 4 * LE(b[8..16]) + LE(b[16..24]) == |b|
  }

  function PartsOf(b: seq<byte>): (t: Parts)
    requires HeadFits(b)
  {
    var k, p := LE(b[0..8]), LE(b[8..16]);
    Parts(Decode(b[24..24 + 4 * k], k), Decode(b[24 + 4 * k..24 + 8 * k], k),
          Decode(b[24 + 8 * k..24 + 8 * k + 4 * p], p), b[24 + 8 * k + 4 * p..])
  }

  ghost predicate RunRises(t: Parts, i: nat)
    requires i < |t.runLens|
  {
    forall p | At(t.runLens, i) < p < At(t.runLens, i) + t.runLens[i] && 0 < p < |t.postings| ::
      t.postings[p - 1] < t.postings[p]
  }

  /** The parts describe an index over n entries. */
  ghost predicate PartsOk(t: Parts, n: nat) {
    && |t.keyLens| == |t.runLens| && Sum(t.keyLens) == |t.arena| && Sum(t.runLens) == |t.postings|
    && (forall i | 0 <= i < |t.keyLens| :: 1 <= t.keyLens[i] && 1 <= t.runLens[i] <= MAX_RUN)
    && (forall i | 0 < i < |t.keyLens| :: Less(KeyAt(t.arena, t.keyLens, i - 1), KeyAt(t.arena, t.keyLens, i)))
    && (forall p | 0 <= p < |t.postings| :: t.postings[p] < n)
    && forall i: nat | i < |t.runLens| :: RunRises(t, i)
  }

  ghost function FlatOf(t: Parts): Flat
    requires Sum(t.keyLens) == |t.arena| && Sum(t.runLens) == |t.postings|
  {
    Flat(Split(t.arena, t.keyLens), Split(t.postings, t.runLens))
  }

  lemma {:induction false} KeysRise(t: Parts, n: nat, i: nat, j: nat)
    requires PartsOk(t, n) && i < j < |t.keyLens|
    ensures Less(KeyAt(t.arena, t.keyLens, i), KeyAt(t.arena, t.keyLens, j))
    decreases j
  {
    hide KeyAt, Less, RunRises, Sum;
    if i + 1 < j {
      KeysRise(t, n, i, j - 1);
      LessTransitive(KeyAt(t.arena, t.keyLens, i), KeyAt(t.arena, t.keyLens, j - 1), KeyAt(t.arena, t.keyLens, j));
    }
  }

  lemma {:induction false} RunClimbs(s: seq<nat>, x: nat, y: nat)
    requires x < y < |s| && forall q | 0 < q < |s| :: s[q - 1] < s[q]
    ensures s[x] < s[y]
    decreases y
  {
    if x + 1 < y {
      RunClimbs(s, x, y - 1);
    }
  }

  lemma RunIsGood(t: Parts, n: nat, i: nat)
    requires PartsOk(t, n) && i < |t.runLens|
    ensures GoodRun(Split(t.postings, t.runLens)[i], n)
  {
    hide At, Sum, KeyAt, Less;
    var run, at := Split(t.postings, t.runLens)[i], At(t.runLens, i);
    forall q | 0 <= q < |run| ensures run[q] == t.postings[at + q] {
    }
    assert RunRises(t, i);
    forall q | 0 < q < |run| ensures run[q - 1] < run[q] {
      assert t.postings[at + q - 1] < t.postings[at + q];
    }
    forall x, y | 0 <= x < y < |run| ensures run[x] < run[y] {
      RunClimbs(run, x, y);
    }
  }

  /** Good parts are the parts of one good listing. */
  lemma PartsAreGood(t: Parts, n: nat)
    requires PartsOk(t, n) && forall i | 0 <= i < |t.keyLens| :: t.keyLens[i] <= MAX_U32
    ensures Good(FlatOf(t), n)
  {
    hide At, Sum, Less, RunRises, GoodRun;
    var f := FlatOf(t);
    forall i, j | 0 <= i < j < |f.keys| ensures Less(f.keys[i], f.keys[j]) {
      KeysRise(t, n, i, j);
    }
    forall i | 0 <= i < |f.runs| ensures GoodRun(f.runs[i], n) {
      RunIsGood(t, n, i);
    }
  }

  function PartsFor(f: Flat): Parts {
    Parts(Lens(f.keys), Lens(f.runs), Postings(f), Arena(f))
  }

  lemma FlatKey(f: Flat, i: nat)
    requires i < |f.keys|
    ensures KeyAt(Arena(f), Lens(f.keys), i) == f.keys[i]
  {
    hide At, Concat, Lens;
    PartAt(f.keys, i);
  }

  /** A posting lies in one of the runs. */
  lemma PostingInRun(f: Flat, p: nat) returns (i: nat, q: nat)
    requires p < |Postings(f)|
    ensures i < |f.runs| && q < |f.runs[i]| && Postings(f)[p] == f.runs[i][q]
  {
    hide At, Concat, Lens;
    var lens := Lens<nat>(f.runs);
    ConcatLength<nat>(f.runs);
    AtEnds(lens);
    AtCovers(lens, p, |lens|);
    i :| i < |lens| && At(lens, i) <= p < At(lens, i) + lens[i];
    PartAt<nat>(f.runs, i);
    var at := At(lens, i);
    q := p - at;
    assert Postings(f)[at..at + |f.runs[i]|][q] == Postings(f)[p];
  }

  lemma FlatPosting(f: Flat, n: nat, p: nat)
    requires Good(f, n) && p < |Postings(f)|
    ensures Postings(f)[p] < n
  {
    hide Postings, Rising;
    var i, q := PostingInRun(f, p);
    assert GoodRun(f.runs[i], n);
  }

  lemma FlatRises(f: Flat, n: nat, i: nat)
    requires Good(f, n) && i < |f.runs|
    ensures RunRises(PartsFor(f), i)
  {
    hide At, Concat, Lens, Rising;
    var lens, all := Lens<nat>(f.runs), Postings(f);
    PartAt(f.runs, i);
    assert GoodRun(f.runs[i], n);
    var at := At(lens, i);
    forall p | at < p < at + lens[i] && 0 < p < |all| ensures all[p - 1] < all[p] {
      assert all[at..at + |f.runs[i]|][p - 1 - at] == all[p - 1];
      assert all[at..at + |f.runs[i]|][p - at] == all[p];
    }
  }

  lemma GoodParts(f: Flat, n: nat)
    requires Good(f, n)
    ensures PartsOk(PartsFor(f), n)
  {
    hide At, Sum, Concat, KeyAt, RunRises, Less;
    ConcatLength(f.keys);
    ConcatLength(f.runs);
    forall i | 0 <= i < |f.keys| ensures KeyAt(Arena(f), Lens(f.keys), i) == f.keys[i] {
      FlatKey(f, i);
    }
    forall p | 0 <= p < |Postings(f)| ensures Postings(f)[p] < n {
      FlatPosting(f, n, p);
    }
    forall i: nat | i < |f.runs| ensures RunRises(PartsFor(f), i) {
      FlatRises(f, n, i);
    }
    assert forall i | 0 <= i < |f.runs| :: GoodRun(f.runs[i], n);
  }

  // ------------------------------------------------------------ sections and parts

  /** A section of its own bytes, cut at its counts. */
  ghost predicate Cut(b: seq<byte>, k: nat, p: nat, head: seq<byte>, kl: seq<byte>, rl: seq<byte>, po: seq<byte>,
                      ar: seq<byte>) {
    && |head| == 24 && |kl| == 4 * k && |rl| == 4 * k && |po| == 4 * p
    && b == head + kl + rl + po + ar
  }

  lemma CutSlices(b: seq<byte>, k: nat, p: nat, head: seq<byte>, kl: seq<byte>, rl: seq<byte>, po: seq<byte>,
                  ar: seq<byte>)
    requires Cut(b, k, p, head, kl, rl, po, ar)
    ensures |b| == 24 + 8 * k + 4 * p + |ar|
    ensures b[..24] == head && b[24..24 + 4 * k] == kl && b[24 + 4 * k..24 + 8 * k] == rl
    ensures b[24 + 8 * k..24 + 8 * k + 4 * p] == po && b[24 + 8 * k + 4 * p..] == ar
  {
  }

  lemma CutWhole(b: seq<byte>, k: nat, p: nat)
    requires |b| >= 24 + 8 * k + 4 * p
    ensures b == b[..24] + b[24..24 + 4 * k] + b[24 + 4 * k..24 + 8 * k]
                 + b[24 + 8 * k..24 + 8 * k + 4 * p] + b[24 + 8 * k + 4 * p..]
  {
  }

  lemma HeadReads(k: nat, p: nat, a: nat)
    requires k <= MAX_INT && p <= MAX_INT && a <= MAX_INT
    ensures LE(Head(k, p, a)[0..8]) == k && LE(Head(k, p, a)[8..16]) == p && LE(Head(k, p, a)[16..24]) == a
  {
    hide LE, PutLE;
    Span8();
    ReadAfterPut(8, k);
    ReadAfterPut(8, p);
    ReadAfterPut(8, a);
    var h := Head(k, p, a);
    assert h[0..8] == PutLE(8, k) && h[8..16] == PutLE(8, p) && h[16..24] == PutLE(8, a);
  }

  lemma HeadIs(h: seq<byte>)
    requires |h| == 24
    ensures h == Head(LE(h[0..8]), LE(h[8..16]), LE(h[16..24]))
  {
    hide LE, PutLE;
    PutAfterRead(h[0..8]);
    PutAfterRead(h[8..16]);
    PutAfterRead(h[16..24]);
    assert h == h[0..8] + h[8..16] + h[16..24];
  }

  lemma HeadSlices(b: seq<byte>, h: seq<byte>)
    requires |b| >= 24 && h == b[..24]
    ensures b[0..8] == h[0..8] && b[8..16] == h[8..16] && b[16..24] == h[16..24]
  {
  }

  /** The section of a good listing is cut back into that listing's parts. */
  lemma SectionParts(f: Flat, n: nat)
    requires Good(f, n) && n <= MAX_U32 && Size(f) <= MAX_INT
    ensures HeadFits(Section(f)) && PartsOf(Section(f)) == PartsFor(f) && LE(Section(f)[8..16]) == |Postings(f)|
    ensures |Section(f)| == Size(f)
  {
    hide LE, U32s, Arena, Postings, Rising, GoodRun, U32At, Head;
    var b, k, p := Section(f), |f.keys|, |Postings(f)|;
    var h := Head(k, p, |Arena(f)|);
    CutSlices(b, k, p, h, U32s(Lens(f.keys)), U32s(Lens(f.runs)), U32s(Postings(f)), Arena(f));
    HeadReads(k, p, |Arena(f)|);
    HeadSlices(b, h);
    DecodeEncoded(Lens(f.keys));
    RunLengths(f, n);
    DecodeEncoded(Lens(f.runs));
    forall i | 0 <= i < p ensures Postings(f)[i] <= MAX_U32 {
      FlatPosting(f, n, i);
    }
    DecodeEncoded(Postings(f));
  }

  lemma RunLengths(f: Flat, n: nat)
    requires Good(f, n)
    ensures forall i | 0 <= i < |f.runs| :: |f.runs[i]| <= MAX_RUN
  {
    hide Ascending, Rising;
    assert forall i | 0 <= i < |f.runs| :: GoodRun(f.runs[i], n);
  }

  /** A section whose parts are good is the section of their listing. */
  lemma PartsSection(b: seq<byte>, n: nat)
    requires HeadFits(b) && PartsOk(PartsOf(b), n)
    ensures b == Section(FlatOf(PartsOf(b))) && PartsFor(FlatOf(PartsOf(b))) == PartsOf(b)
    ensures Good(FlatOf(PartsOf(b)), n)
  {
    hide LE, U32s, Head, KeyAt, RunRises, Less, Sum, Good, U32At, Split, Concat, Lens;
    var t := PartsOf(b);
    var k, p := LE(b[0..8]), LE(b[8..16]);
    DecodeBound(b[24..24 + 4 * k], k);
    PartsAreGood(t, n);
    SplitIsWhole(t.arena, t.keyLens);
    SplitIsWhole<nat>(t.postings, t.runLens);
    EncodeDecoded(b[24..24 + 4 * k], k);
    EncodeDecoded(b[24 + 4 * k..24 + 8 * k], k);
    EncodeDecoded(b[24 + 8 * k..24 + 8 * k + 4 * p], p);
    HeadIs(b[..24]);
    HeadSlices(b, b[..24]);
    CutWhole(b, k, p);
  }

  lemma DecodeBound(b: seq<byte>, n: nat)
    requires 4 * n <= |b|
    ensures forall i | 0 <= i < n :: Decode(b, n)[i] <= MAX_U32
  {
    hide LE;
  }

  ghost predicate IsSection(b: seq<byte>, f: Flat, n: nat) {
    Good(f, n) && |Postings(f)| <= MAX_U32 && Size(f) <= MAX_INT && b == Section(f)
  }

  ghost predicate Accepted(b: seq<byte>, n: nat) {
    HeadFits(b) && LE(b[8..16]) <= MAX_U32 && PartsOk(PartsOf(b), n)
  }

  /** The bytes that pass the checks are exactly the sections of good listings. */
  lemma AcceptedIsSection(b: seq<byte>, n: nat)
    requires |b| <= MAX_INT && n <= MAX_U32
    ensures Accepted(b, n) <==> exists f :: IsSection(b, f, n)
    ensures Accepted(b, n) ==> IsSection(b, FlatOf(PartsOf(b)), n)
  {
    hide LE, U32s, Head, PartsOk, Good, U32At, Postings, Arena;
    if Accepted(b, n) {
      OkSums(PartsOf(b), n);
      PartsSection(b, n);
      var f := FlatOf(PartsOf(b));
      SectionSize(f);
      SectionCount(b, f);
      assert IsSection(b, f, n);
    }
    forall f | IsSection(b, f, n) ensures Accepted(b, n) {
      SectionParts(f, n);
      GoodParts(f, n);
    }
  }

  lemma OkSums(t: Parts, n: nat)
    requires PartsOk(t, n)
    ensures Sum(t.keyLens) == |t.arena| && Sum(t.runLens) == |t.postings|
  {
  }

  lemma SectionSize(f: Flat)
    ensures |f.keys| == |f.runs| ==> |Section(f)| == Size(f)
  {
    hide U32s, Head, Arena, Postings;
  }

  lemma SectionCount(b: seq<byte>, f: Flat)
    requires HeadFits(b) && PartsFor(f) == PartsOf(b)
    ensures |Postings(f)| == LE(b[8..16]) && |f.keys| == |f.runs|
  {
    hide LE, Concat;
    assert |PartsOf(b).keyLens| == |PartsOf(b).runLens|;
  }

  /** One section, one listing. */
  lemma SectionIsUnique(b: seq<byte>, f: Flat, g: Flat, n: nat)
    requires IsSection(b, f, n) && IsSection(b, g, n) && n <= MAX_U32
    ensures f == g
  {
    hide LE, U32s, Head, Good, U32At, Concat, Lens;
    SectionParts(f, n);
    SectionParts(g, n);
    PartsForUnique(f, g);
  }

  lemma PartsForUnique(f: Flat, g: Flat)
    requires PartsFor(f) == PartsFor(g)
    ensures f == g
  {
    hide Concat, Lens, At;
    LensSame(f, g);
    forall i | 0 <= i < |f.keys| ensures f.keys[i] == g.keys[i] {
      PartAt(f.keys, i);
      PartAt(g.keys, i);
    }
    forall i | 0 <= i < |f.runs| ensures f.runs[i] == g.runs[i] {
      PartAt(f.runs, i);
      PartAt(g.runs, i);
    }
  }

  lemma LensSame(f: Flat, g: Flat)
    requires PartsFor(f) == PartsFor(g)
    ensures |f.keys| == |g.keys| && |f.runs| == |g.runs|
    ensures forall i | 0 <= i < |f.keys| :: |f.keys[i]| == |g.keys[i]|
    ensures forall i | 0 <= i < |f.runs| :: |f.runs[i]| == |g.runs[i]|
  {
    assert |Lens(f.keys)| == |Lens(g.keys)| && |Lens(f.runs)| == |Lens(g.runs)|;
    assert forall i | 0 <= i < |f.keys| :: Lens(f.keys)[i] == Lens(g.keys)[i];
    assert forall i | 0 <= i < |f.runs| :: Lens(f.runs)[i] == Lens(g.runs)[i];
  }
}
