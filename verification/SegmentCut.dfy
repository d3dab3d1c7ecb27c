/** The ngram half of a query over base and overlay (engine/list.go:1702-1789,
    1866-1898): each segment's lookup is cut before tombstones are masked, and
    the merged result is cut again. The cut loses nothing that matters. */
module SegmentCut {
  import opened Bytes
  import opened Seqs
  import R = Ranking
  import opened NgramIndex
  import opened NgramLookup
  import opened ScratchPool

  type Id = seq<byte>

  /** Entry IDs and payloads by ordinal, and the index over the entries. */
  datatype Segment = Segment(ids: seq<Id>, payloads: seq<seq<byte>>, idx: Index) {
    ghost predicate Valid() {
      idx.Valid() && idx.numOrds <= |ids| == |payloads| && NoDup(ids)
    }
  }

  datatype Cand = Cand(id: Id, score: real)

  /** The final order: score descending, then ID ascending. */
  predicate Before(a: Cand, b: Cand) {
    a.score > b.score || (a.score == b.score && Less(a.id, b.id))
  }

  lemma BeforeIsStrict(a: Cand, b: Cand, c: Cand)
    ensures !Before(a, a)
    ensures Before(a, b) && Before(b, c) ==> Before(a, c)
    ensures a == b || Before(a, b) || Before(b, a)
  {
    LessIrreflexive(a.id);
    LessTotal(a.id, b.id);
    if Less(a.id, b.id) && Less(b.id, c.id) {
      LessTransitive(a.id, b.id, c.id);
    }
  }

  /** One ngram query; a filter decides on payloads, when there is one. */
  datatype Query = Query(idf: Idf, rnd: Rounding, q: string, threshold: real, topK: int,
                         filtered: bool, filter: seq<byte> -> bool)
  {
    predicate Passes(payload: seq<byte>) {
      filtered ==> filter(payload)
    }

    ghost function Hits(idx: Index, keep: nat -> bool): set<R.Hit>
      requires idx.Valid()
    {
      Answer(idx, idf, rnd, q, threshold, keep)
    }
  }

  function All(): nat -> bool { o => true }

  /** The lookup's predicate under a filter: not masked, and passing. */
  function LiveKeep(seg: Segment, query: Query, masked: set<Id>): nat -> bool {
    (o: nat) => o < |seg.ids| && o < |seg.payloads| && seg.ids[o] !in masked && query.Passes(seg.payloads[o])
  }

  // ------------------------------------------------------------ specification

  /** Score everything, keep what is live and passes: no cut anywhere. */
  ghost function LiveHits(seg: Segment, query: Query, masked: set<Id>): set<R.Hit>
    requires seg.Valid()
  {
    set h | h in query.Hits(seg.idx, All()) && LiveKeep(seg, query, masked)(h.ord)
  }

  function Name(seg: Segment, h: R.Hit): Cand
    requires h.ord < |seg.ids|
  {
    Cand(seg.ids[h.ord], h.score)
  }

  ghost predicate InRange(seg: Segment, hits: set<R.Hit>) {
    forall h | h in hits :: h.ord < |seg.ids|
  }

  ghost function Named(seg: Segment, hits: set<R.Hit>): set<Cand>
    requires InRange(seg, hits)
  {
    set h | h in hits :: Name(seg, h)
  }

  ghost function Live(seg: Segment, query: Query, masked: set<Id>): set<Cand>
    requires seg.Valid()
  {
    HitFacts(seg, query, All());
    Named(seg, LiveHits(seg, query, masked))
  }

  /** Every candidate of the snapshot: unmasked base, and overlay. */
  ghost function Candidates(base: Segment, overlay: Segment, tombstones: set<Id>, query: Query): set<Cand>
    requires base.Valid() && overlay.Valid()
  {
    Live(base, query, tombstones) + Live(overlay, query, {})
  }

  /** kept is a safe cut of all: what was dropped scores no better than what
      was kept, and something was dropped only if k were kept. */
  ghost predicate SafeCut(kept: set<Cand>, all: set<Cand>, k: int) {
    && kept <= all
    && Dominates(kept, all)
    && (kept == all || (k > 0 && |kept| >= k))
  }

  ghost predicate Dominates(kept: set<Cand>, all: set<Cand>) {
    forall x, y | x in all && x !in kept && y in kept :: x.score <= y.score
  }

  // ---------------------------------------------------------- facts about hits

  ghost predicate OnePerOrd(hits: set<R.Hit>) {
    forall g, h | g in hits && h in hits && g.ord == h.ord :: g == h
  }

  lemma HitFacts(seg: Segment, query: Query, keep: nat -> bool)
    requires seg.Valid()
    ensures InRange(seg, query.Hits(seg.idx, keep))
    ensures OnePerOrd(query.Hits(seg.idx, keep))
  {
    if Known(seg.idx, query.q) != {} {
      JobValid(seg.idx, query.idf, query.rnd, query.q, query.threshold, keep);
    }
  }

  lemma HitMember(job: Job, h: R.Hit)
    requires job.Valid()
    ensures h in job.Hits() <==> h.ord < job.numOrds && job.Qualifies(h.ord) && h == job.HitFor(h.ord)
  {
  }

  /** The lookup's filter only removes hits; it changes no score. */
  lemma HitsFiltered(seg: Segment, query: Query, keep: nat -> bool)
    requires seg.Valid()
    ensures query.Hits(seg.idx, keep) == set h | h in query.Hits(seg.idx, All()) && keep(h.ord)
  {
    if Known(seg.idx, query.q) != {} {
      var a := JobFor(seg.idx, query.idf, query.rnd, query.q, query.threshold, keep);
      var b := JobFor(seg.idx, query.idf, query.rnd, query.q, query.threshold, All());
      JobValid(seg.idx, query.idf, query.rnd, query.q, query.threshold, keep);
      JobValid(seg.idx, query.idf, query.rnd, query.q, query.threshold, All());
      forall h ensures h in a.Hits() <==> h in b.Hits() && keep(h.ord) {
        KeepOnlyFilters(a, b, h);
      }
    }
  }

  lemma KeepOnlyFilters(a: Job, b: Job, h: R.Hit)
    requires a.Valid() && b.Valid() && b.keep == All()
    requires a == b.(keep := a.keep)
    ensures h in a.Hits() <==> h in b.Hits() && a.keep(h.ord)
  {
    HitMember(a, h);
    HitMember(b, h);
  }

  lemma {:induction false} NamedSize(seg: Segment, hits: set<R.Hit>)
    requires InRange(seg, hits) && OnePerOrd(hits) && NoDup(seg.ids)
    ensures |Named(seg, hits)| == |hits|
    decreases |hits|
  {
    if hits != {} {
      var h :| h in hits;
      NamedSize(seg, hits - {h});
      assert Named(seg, hits) == Named(seg, hits - {h}) + {Name(seg, h)};
    }
  }

  /** At most as many hits are masked as there are masked IDs. */
  lemma MaskedFew(seg: Segment, hits: set<R.Hit>, masked: set<Id>)
    requires InRange(seg, hits) && OnePerOrd(hits) && NoDup(seg.ids)
    requires forall h | h in hits :: seg.ids[h.ord] in masked
    ensures |hits| <= |masked|
    decreases |hits|
  {
    if hits != {} {
      var h :| h in hits;
      MaskedFew(seg, hits - {h}, masked - {seg.ids[h.ord]});
    }
  }

  // -------------------------------------------------------- one segment's cut

  /** The hits a lookup cut at k returns. */
  lemma TopKSplits(all: set<R.Hit>, k: int)
    ensures Elems(R.TopK(all, k)) <= all
    ensures NoDup(R.TopK(all, k))
    ensures forall x, y | x in all && x !in R.TopK(all, k) && y in R.TopK(all, k) :: x.score <= y.score
    ensures Elems(R.TopK(all, k)) == all || (k > 0 && |Elems(R.TopK(all, k))| == k)
  {
    R.RankIsSorted(all);
    var full, cut := R.Rank(all), R.TopK(all, k);
    R.SortedNoDup(full);
    assert NoDup(cut);
    NoDupSize(cut);
    assert forall h | h in cut :: h in Elems(full);
    forall x, y | x in all && x !in cut && y in cut ensures x.score <= y.score {
      assert x in Elems(full);
      CutScores(full, cut, x, y);
    }
  }

  lemma CutScores(full: seq<R.Hit>, cut: seq<R.Hit>, x: R.Hit, y: R.Hit)
    requires R.Sorted(full) && cut <= full && x in full && x !in cut && y in cut
    ensures x.score <= y.score
  {
    var i :| 0 <= i < |full| && full[i] == x;
    var j :| 0 <= j < |cut| && cut[j] == y;
    assert i >= |cut| && full[j] == y;
  }

  ghost predicate Unmasked(seg: Segment, masked: set<Id>, h: R.Hit) {
    h.ord < |seg.ids| && seg.ids[h.ord] !in masked
  }

  ghost function UnmaskedOf(seg: Segment, masked: set<Id>, hits: set<R.Hit>): set<R.Hit> {
    set h | h in hits && Unmasked(seg, masked, h)
  }

  /** Widening the cut by one slot per masked ID leaves at least k live hits. */
  lemma WidenedCut(seg: Segment, all: set<R.Hit>, masked: set<Id>, k: int)
    requires InRange(seg, all) && OnePerOrd(all) && NoDup(seg.ids)
    ensures var top := Elems(R.TopK(all, if k > 0 then k + |masked| else 0));
            && top <= all
            && SafeCut(Named(seg, UnmaskedOf(seg, masked, top)), Named(seg, UnmaskedOf(seg, masked, all)), k)
  {
    hide R.TopK;
    var segK := if k > 0 then k + |masked| else 0;
    var top := Elems(R.TopK(all, segK));
    TopKSplits(all, segK);
    if top != all {
      EnoughUnmasked(seg, top, masked);
    }
  }

  lemma EnoughUnmasked(seg: Segment, top: set<R.Hit>, masked: set<Id>)
    requires InRange(seg, top) && OnePerOrd(top) && NoDup(seg.ids)
    ensures |Named(seg, UnmaskedOf(seg, masked, top))| >= |top| - |masked|
  {
    var kept := UnmaskedOf(seg, masked, top);
    MaskedFew(seg, top - kept, masked);
    assert |top| == |top - kept| + |kept| by { assert top == (top - kept) + kept; }
    NamedSize(seg, kept);
  }

  /** Masking inside the lookup needs no widening. */
  lemma PlainCut(seg: Segment, all: set<R.Hit>, k: int)
    requires InRange(seg, all) && OnePerOrd(all) && NoDup(seg.ids)
    ensures var top := Elems(R.TopK(all, if k > 0 then k else 0));
            && top <= all
            && SafeCut(Named(seg, top), Named(seg, all), k)
  {
    var segK := if k > 0 then k else 0;
    TopKSplits(all, segK);
    NamedSize(seg, Elems(R.TopK(all, segK)));
  }

  lemma CutIsSafe(seg: Segment, query: Query, masked: set<Id>, hits: seq<R.Hit>)
    requires seg.Valid()
    requires hits == SegmentHits(seg, query, masked)
    ensures NoDup(hits) && InRange(seg, Elems(hits)) && OnePerOrd(Elems(hits))
    ensures query.filtered ==> UnmaskedOf(seg, masked, Elems(hits)) == Elems(hits)
    ensures SafeCut(Named(seg, UnmaskedOf(seg, masked, Elems(hits))), Live(seg, query, masked), query.topK)
  {
    if query.filtered {
      FilteredCut(seg, query, masked, hits);
    } else {
      UnfilteredCut(seg, query, masked, hits);
    }
  }

  lemma FilteredCut(seg: Segment, query: Query, masked: set<Id>, hits: seq<R.Hit>)
    requires seg.Valid() && query.filtered
    requires hits == SegmentHits(seg, query, masked)
    ensures NoDup(hits) && InRange(seg, Elems(hits)) && OnePerOrd(Elems(hits))
    ensures UnmaskedOf(seg, masked, Elems(hits)) == Elems(hits)
    ensures SafeCut(Named(seg, Elems(hits)), Live(seg, query, masked), query.topK)
  {
    hide Answer, R.TopK, SafeCut;
    var keep := LiveKeep(seg, query, masked);
    HitFacts(seg, query, All());
    HitFacts(seg, query, keep);
    HitsFiltered(seg, query, keep);
    var all := query.Hits(seg.idx, keep);
    TopKSplits(all, SegK(query, masked));
    PlainCut(seg, all, query.topK);
    assert all == LiveHits(seg, query, masked);
  }

  lemma UnfilteredCut(seg: Segment, query: Query, masked: set<Id>, hits: seq<R.Hit>)
    requires seg.Valid() && !query.filtered
    requires hits == SegmentHits(seg, query, masked)
    ensures NoDup(hits) && InRange(seg, Elems(hits)) && OnePerOrd(Elems(hits))
    ensures SafeCut(Named(seg, UnmaskedOf(seg, masked, Elems(hits))), Live(seg, query, masked), query.topK)
  {
    hide Answer, R.TopK, SafeCut;
    HitFacts(seg, query, All());
    HitsFiltered(seg, query, All());
    var all := query.Hits(seg.idx, All());
    TopKSplits(all, SegK(query, masked));
    WidenedCut(seg, all, masked, query.topK);
    assert UnmaskedOf(seg, masked, all) == LiveHits(seg, query, masked);
  }

  function SegK(query: Query, masked: set<Id>): int {
    if query.topK <= 0 then 0 else if query.filtered then query.topK else query.topK + |masked|
  }

  ghost function SegmentHits(seg: Segment, query: Query, masked: set<Id>): seq<R.Hit>
    requires seg.Valid()
  {
    var keep := if query.filtered then LiveKeep(seg, query, masked) else All();
    R.TopK(query.Hits(seg.idx, keep), SegK(query, masked))
  }

  /** Gathers one segment's candidates. */
  method CollectNgram(seg: Segment, query: Query, masked: set<Id>, sc: Scratch, background: bool)
    returns (canceled: bool, out: seq<Cand>)
    requires seg.Valid() && sc.Clean() && sc.counts.Length == seg.idx.numOrds
    modifies sc, sc.counts, sc.touched
    ensures sc.Clean()
    ensures background ==> !canceled
    ensures !canceled ==> NoDup(out) && SafeCut(Elems(out), Live(seg, query, masked), query.topK)
  {
    hide Answer, R.TopK, SafeCut, Live;
    var keep := if query.filtered then LiveKeep(seg, query, masked) else All();
    var hits;
    canceled, hits := Lookup(seg.idx, query.idf, query.rnd, query.q, query.threshold, SegK(query, masked), keep, sc,
                             background);
    out := [];
    if !canceled {
      CutIsSafe(seg, query, masked, hits);
      out := AddAll(seg, masked, hits, query.filtered);
    }
  }

  /** Appends the unmasked hits; a filtered lookup has checked them already. */
  method AddAll(seg: Segment, masked: set<Id>, hits: seq<R.Hit>, prechecked: bool) returns (out: seq<Cand>)
    requires NoDup(seg.ids) && NoDup(hits) && InRange(seg, Elems(hits)) && OnePerOrd(Elems(hits))
    requires prechecked ==> UnmaskedOf(seg, masked, Elems(hits)) == Elems(hits)
    ensures NoDup(out) && Elems(out) == Named(seg, UnmaskedOf(seg, masked, Elems(hits)))
  {
    out := [];
    for i := 0 to |hits|
      invariant NoDup(out)
      invariant InRange(seg, Elems(hits[..i]))
      invariant Elems(out) == Named(seg, UnmaskedOf(seg, masked, Elems(hits[..i])))
    {
      var h := hits[i];
      assert h in Elems(hits);
      assert Elems(hits[..i + 1]) == Elems(hits[..i]) + {h};
      var before := UnmaskedOf(seg, masked, Elems(hits[..i]));
      if seg.ids[h.ord] !in masked {
        AddOne(seg, before, h, out);
        assert UnmaskedOf(seg, masked, Elems(hits[..i + 1])) == before + {h};
        out := out + [Name(seg, h)];
      } else {
        assert UnmaskedOf(seg, masked, Elems(hits[..i + 1])) == before;
      }
    }
    assert hits[..|hits|] == hits;
  }

  lemma AddOne(seg: Segment, before: set<R.Hit>, h: R.Hit, out: seq<Cand>)
    requires InRange(seg, before) && h !in before && h.ord < |seg.ids| && NoDup(seg.ids)
    requires OnePerOrd(before + {h})
    requires NoDup(out) && Elems(out) == Named(seg, before)
    ensures NoDup(out + [Name(seg, h)]) && Elems(out + [Name(seg, h)]) == Named(seg, before + {h})
  {
    assert Named(seg, before + {h}) == Named(seg, before) + {Name(seg, h)};
    assert forall c | c in out :: c in Elems(out);
  }

  // ----------------------------------------------------------------- the merge

  predicate Ordered(r: seq<Cand>) {
    forall i, j | 0 <= i < j < |r| :: Before(r[i], r[j])
  }

  function InsertCand(c: Cand, r: seq<Cand>): seq<Cand> {
    if r == [] || Before(c, r[0]) then [c] + r else [r[0]] + InsertCand(c, r[1..])
  }

  lemma {:induction false} InsertCandSorted(c: Cand, r: seq<Cand>)
    requires Ordered(r) && c !in r
    ensures Ordered(InsertCand(c, r)) && Elems(InsertCand(c, r)) == Elems(r) + {c}
  {
    hide Before;
    if r != [] {
      BeforeIsStrict(c, r[0], r[0]);
      if Before(c, r[0]) {
        forall i | 0 <= i < |r| ensures Before(c, r[i]) {
          BeforeIsStrict(c, r[0], r[i]);
        }
      } else {
        assert c != r[0] && Before(r[0], c);
        InsertCandSorted(c, r[1..]);
        var s := InsertCand(c, r[1..]);
        forall i | 0 <= i < |s| ensures Before(r[0], s[i]) {
          assert s[i] in Elems(r[1..]) + {c};
        }
        assert Elems(r) == Elems(r[1..]) + {r[0]};
        assert Elems([r[0]] + s) == {r[0]} + Elems(s);
      }
    }
  }

  method SortCandidates(s: seq<Cand>) returns (r: seq<Cand>)
    requires NoDup(s)
    ensures Ordered(r) && Elems(r) == Elems(s) && |r| == |s|
  {
    hide Before;
    r := [];
    for i := 0 to |s|
      invariant Ordered(r) && Elems(r) == Elems(s[..i])
    {
      assert s[i] !in Elems(r);
      InsertCandSorted(s[i], r);
      r := InsertCand(s[i], r);
      assert s[..i + 1] == s[..i] + [s[i]];
    }
    assert s[..|s|] == s;
    OrderedNoDup(r);
    NoDupSize(r);
    NoDupSize(s);
  }

  lemma OrderedNoDup(r: seq<Cand>)
    requires Ordered(r)
    ensures NoDup(r)
  {
    forall c: Cand ensures !Before(c, c) {
      BeforeIsStrict(c, c, c);
    }
  }

  lemma OrderedScores(r: seq<Cand>, i: nat, j: nat)
    requires Ordered(r) && i <= j < |r|
    ensures r[i].score >= r[j].score
  {
  }

  /** What a query may return for a set of candidates: as many of the best as
      asked for, in order; a candidate left out scores no better than any
      returned, so all those strictly above the last score are there. */
  ghost predicate BestCut(out: seq<Cand>, all: set<Cand>, k: int) {
    && Ordered(out)
    && Elems(out) <= all
    && Dominates(Elems(out), all)
    && |out| == if k <= 0 || |all| <= k then |all| else k
  }

  function Cut(r: seq<Cand>, k: int): seq<Cand> {
    if k > 0 && |r| > k then r[..k] else r
  }

  /** Cutting the merged safe cuts gives a best cut of everything. */
  lemma MergedCut(r: seq<Cand>, a: set<Cand>, allA: set<Cand>, b: set<Cand>, allB: set<Cand>, k: int)
    requires SafeCut(a, allA, k) && SafeCut(b, allB, k) && allA !! allB
    requires Ordered(r) && Elems(r) == a + b
    ensures BestCut(Cut(r, k), allA + allB, k)
  {
    hide Before, Dominates;
    OrderedNoDup(r);
    NoDupSize(r);
    assert Elems(Cut(r, k)) <= Elems(r);
    MergedSize(a, allA, b, allB, k);
    MergedDominates(r, a, allA, b, allB, k);
  }

  lemma MergedSize(a: set<Cand>, allA: set<Cand>, b: set<Cand>, allB: set<Cand>, k: int)
    requires SafeCut(a, allA, k) && SafeCut(b, allB, k)
    ensures |a + b| <= |allA + allB|
    ensures a + b == allA + allB || (k > 0 && |a + b| >= k)
  {
    hide Dominates;
    SubsetSize(a + b, allA + allB);
    SubsetSize(a, a + b);
    SubsetSize(b, a + b);
  }

  lemma MergedDominates(r: seq<Cand>, a: set<Cand>, allA: set<Cand>, b: set<Cand>, allB: set<Cand>, k: int)
    requires SafeCut(a, allA, k) && SafeCut(b, allB, k)
    requires Ordered(r) && Elems(r) == a + b
    ensures Dominates(Elems(Cut(r, k)), allA + allB)
  {
    hide Before, Ordered, SafeCut;
    var out := Cut(r, k);
    forall x, y | x in allA + allB && x !in Elems(out) && y in Elems(out) ensures x.score <= y.score {
      var j :| 0 <= j < |out| && out[j] == y;
      if x in Elems(r) {
        var i :| 0 <= i < |r| && r[i] == x;
        assert forall t | 0 <= t < |out| :: r[t] in Elems(out);
        OrderedScores(r, j, i);
      } else if x in allA {
        SafeCutDef(a, allA, k, x);
        DroppedBelow(r, a, allA, k, x, j);
      } else {
        SafeCutDef(b, allB, k, x);
        DroppedBelow(r, b, allB, k, x, j);
      }
    }
  }

  lemma SafeCutDef(a: set<Cand>, allA: set<Cand>, k: int, x: Cand)
    requires SafeCut(a, allA, k) && x in allA && x !in a
    ensures 0 < k <= |a|
  {
  }

  /** What a segment's cut dropped scores no better than any of the first k. */
  lemma DroppedBelow(r: seq<Cand>, a: set<Cand>, allA: set<Cand>, k: int, x: Cand, j: nat)
    requires SafeCut(a, allA, k) && x in allA && x !in a
    requires Ordered(r) && a <= Elems(r) && j < |Cut(r, k)|
    ensures x.score <= r[j].score
  {
    hide Before;
    if x.score > r[j].score {
      forall y | y in a ensures y in Elems(r[..j]) {
        assert y in r;
        var i :| 0 <= i < |r| && r[i] == y;
        if i >= j {
          OrderedScores(r, j, i);
        }
        assert r[i] in r[..j];
      }
      OrderedNoDup(r[..j]);
      NoDupSize(r[..j]);
      SubsetSize(a, Elems(r[..j]));
      assert false;
    }
  }

  /** The snapshot's rule: an overlay entry masks the base entry it replaces. */
  ghost predicate Masks(base: Segment, overlay: Segment, tombstones: set<Id>) {
    forall id | id in overlay.ids && id in base.ids :: id in tombstones
  }

  lemma SegmentsDisjoint(base: Segment, overlay: Segment, tombstones: set<Id>, query: Query)
    requires base.Valid() && overlay.Valid() && Masks(base, overlay, tombstones)
    ensures Live(base, query, tombstones) !! Live(overlay, query, {})
  {
    HitFacts(base, query, All());
    HitFacts(overlay, query, All());
    hide Answer;
  }

  /** An ngram query over a snapshot: a best cut of its live candidates. */
  method QueryNgram(base: Segment, overlay: Segment, tombstones: set<Id>, query: Query,
                    scBase: Scratch, scOverlay: Scratch, background: bool)
    returns (canceled: bool, out: seq<Cand>)
    requires base.Valid() && overlay.Valid() && Masks(base, overlay, tombstones)
    requires scBase.Clean() && scBase.counts.Length == base.idx.numOrds
    requires scOverlay.Clean() && scOverlay.counts.Length == overlay.idx.numOrds
    requires {scBase, scBase.counts, scBase.touched} !! {scOverlay, scOverlay.counts, scOverlay.touched}
    modifies scBase, scBase.counts, scBase.touched, scOverlay, scOverlay.counts, scOverlay.touched
    ensures background ==> !canceled
    ensures canceled ==> out == []
    ensures !canceled ==> BestCut(out, Candidates(base, overlay, tombstones, query), query.topK)
  {
    hide Before, Live, Segment.Valid, Ordered, BestCut, SafeCut;
    out := [];
    var fromBase, fromOverlay;
    canceled, fromBase := CollectNgram(base, query, tombstones, scBase, background);
    if canceled {
      return;
    }
    canceled, fromOverlay := CollectNgram(overlay, query, {}, scOverlay, background);
    if canceled {
      return;
    }
    SegmentsDisjoint(base, overlay, tombstones, query);
    Joined(fromBase, fromOverlay, Live(base, query, tombstones), Live(overlay, query, {}), query.topK);
    out := SortCandidates(fromBase + fromOverlay);
    MergedCut(out, Elems(fromBase), Live(base, query, tombstones), Elems(fromOverlay), Live(overlay, query, {}),
              query.topK);
    if query.topK > 0 && |out| > query.topK {
      out := out[..query.topK];
    }
  }

  lemma Joined(s: seq<Cand>, t: seq<Cand>, allS: set<Cand>, allT: set<Cand>, k: int)
    requires NoDup(s) && NoDup(t) && SafeCut(Elems(s), allS, k) && SafeCut(Elems(t), allT, k) && allS !! allT
    ensures NoDup(s + t) && Elems(s + t) == Elems(s) + Elems(t)
  {
    forall i, j | 0 <= i < |s| && 0 <= j < |t| ensures s[i] != t[j] {
      assert s[i] in Elems(s) && t[j] in Elems(t);
    }
  }

  // ------------------------------------------------- what a best cut determines

  predicate ScoresFall(r: seq<Cand>) {
    forall a, b | 0 <= a < b < |r| :: r[a].score >= r[b].score
  }

  /** The scores returned are the best scores there are, in order: the i-th
      returned score is the i-th of any score-sorted list of everything. */
  lemma BestScores(out: seq<Cand>, all: set<Cand>, k: int, full: seq<Cand>, i: nat)
    requires BestCut(out, all, k)
    requires NoDup(full) && Elems(full) == all && ScoresFall(full)
    requires i < |out|
    ensures i < |full| && out[i].score == full[i].score
  {
    hide Before;
    OrderedNoDup(out);
    NoDupSize(out);
    NoDupSize(full);
    SubsetSize(Elems(out), all);
    NotBelow(out, full, i);
    NotAbove(out, full, i);
  }

  lemma NotBelow(out: seq<Cand>, full: seq<Cand>, i: nat)
    requires Ordered(out) && i < |out| && i < |full| && NoDup(full) && ScoresFall(full)
    requires Dominates(Elems(out), Elems(full))
    ensures full[i].score <= out[i].score
  {
    hide Before, Ordered;
    if full[i].score > out[i].score {
      forall c | c in Elems(full[..i + 1]) ensures c in Elems(out[..i]) {
        var a :| 0 <= a <= i && full[a] == c;
        assert c.score >= full[i].score;
        assert c in Elems(full) && out[i] in Elems(out);
        assert c in out;
        var b :| 0 <= b < |out| && out[b] == c;
        if b >= i {
          OrderedScores(out, i, b);
        }
        assert out[b] in out[..i];
      }
      TooMany(full[..i + 1], out[..i]);
      assert false;
    }
  }

  lemma NotAbove(out: seq<Cand>, full: seq<Cand>, i: nat)
    requires Ordered(out) && i < |out| && i < |full| && NoDup(out) && ScoresFall(full)
    requires Elems(out) <= Elems(full)
    ensures full[i].score >= out[i].score
  {
    hide Before, Ordered;
    if full[i].score < out[i].score {
      forall c | c in Elems(out[..i + 1]) ensures c in Elems(full[..i]) {
        var a :| 0 <= a <= i && out[a] == c;
        OrderedScores(out, a, i);
        assert c in Elems(out) && c in full;
        var b :| 0 <= b < |full| && full[b] == c;
        assert b < i;
        assert full[b] in full[..i];
      }
      TooMany(out[..i + 1], full[..i]);
      assert false;
    }
  }

  lemma TooMany(big: seq<Cand>, small: seq<Cand>)
    requires NoDup(big) && |big| > |small|
    ensures !(Elems(big) <= Elems(small))
  {
    NoDupSize(big);
    ElemsAtMost(small);
    if Elems(big) <= Elems(small) {
      SubsetSize(Elems(big), Elems(small));
    }
  }

  lemma {:induction false} ElemsAtMost<T>(s: seq<T>)
    ensures |Elems(s)| <= |s|
  {
    if s != [] {
      ElemsAtMost(s[1..]);
      assert Elems(s) == {s[0]} + Elems(s[1..]);
    }
  }
}
