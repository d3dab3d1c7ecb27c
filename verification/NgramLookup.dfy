/** The IDF-weighted pigeonhole lookup (engine/ngram/ngram.go:280-431), in
    real arithmetic, against "score every ordinal, filter, rank, cut". */
module NgramLookup {
  import opened Ranking
  import opened Seqs
  import opened HitHeap
  import opened Weights
  import opened ScratchPool
  import opened NgramIndex
  import Grams

  /** The IDF of a gram held by c of n ordinals: log(1 + n/c), positive. */
  type Idf = f: (nat, nat) -> real | forall n: nat, c: nat | n > 0 && c > 0 :: f(n, c) > 0.0
    witness (n: nat, c: nat) => 1.0

  /** Score rounding: a full score stays full. */
  type Rounding = r: real -> real | r(100.0) == 100.0
    witness (x: real) => x

  // ------------------------------------------------------------ specification

  /** The query grams the index knows. */
  ghost function Known(idx: Index, q: string): set<string> {
    set g | g in KeyGrams(idx.cfg, q) && g in idx.postings && idx.postings[g] != []
  }

  ghost function WeightsOf(idx: Index, idf: Idf, known: set<string>): WeightMap
    requires known <= idx.postings.Keys
  {
    map g | g in known :: idf(idx.numOrds, |idx.postings[g]|)
  }

  /** One query against one index, with its floor and filter. */
  datatype Job = Job(posts: Postings, w: WeightMap, floor: real, max: real, numOrds: nat,
                     keep: nat -> bool, rnd: Rounding) {
    ghost predicate Valid() {
      && w.Keys <= posts.Keys
      && Positive(w)
      && max == Mass(w.Keys, w)
      && max > 0.0
      && (forall g | g in w :: Ascending(posts[g]) && forall o | o in posts[g] :: o < numOrds)
    }

    /** The IDF mass of the query grams ordinal o holds. */
    ghost function Coverage(o: nat): real
      requires Valid()
    {
      Mass(Holding(w.Keys, posts, o), w)
    }

    /** o holds some query gram, reaches the floor, and is kept. */
    ghost predicate Qualifies(o: nat)
      requires Valid()
    {
      Holding(w.Keys, posts, o) != {} && Coverage(o) >= floor && keep(o)
    }

    ghost function HitFor(o: nat): Hit
      requires Valid()
    {
      Hit(o, rnd(Coverage(o) / max * 100.0))
    }

    /** Every qualifying ordinal with its full score. */
    ghost function Hits(): set<Hit>
      requires Valid()
    {
      set o: nat | o < numOrds && Qualifies(o) :: HitFor(o)
    }

    /** The hits among a list of ordinals. */
    ghost function Seen(ts: seq<nat>): set<Hit>
      requires Valid()
    {
      if ts == [] then {}
      else
        var o := ts[|ts| - 1];
        Seen(ts[..|ts| - 1]) + if Qualifies(o) then {HitFor(o)} else {}
    }

    /** gs lists every query gram once. */
    ghost predicate Order(gs: seq<string>) {
      NoDup(gs) && Elems(gs) == w.Keys
    }
  }

  ghost function JobFor(idx: Index, idf: Idf, rnd: Rounding, q: string, threshold: real, keep: nat -> bool): Job
  {
    var w := WeightsOf(idx, idf, Known(idx, q));
    var max := Mass(w.Keys, w);
    Job(idx.postings, w, threshold * max, max, idx.numOrds, keep, rnd)
  }

  /** All hits of a query: what the lookup is specified to return, before the cut. */
  ghost function Answer(idx: Index, idf: Idf, rnd: Rounding, q: string, threshold: real, keep: nat -> bool): set<Hit>
    requires idx.Valid()
  {
    if Known(idx, q) == {} then {}
    else
      JobValid(idx, idf, rnd, q, threshold, keep);
      JobFor(idx, idf, rnd, q, threshold, keep).Hits()
  }

  lemma JobValid(idx: Index, idf: Idf, rnd: Rounding, q: string, threshold: real, keep: nat -> bool)
    requires idx.Valid() && Known(idx, q) != {}
    ensures JobFor(idx, idf, rnd, q, threshold, keep).Valid()
  {
    var w := WeightsOf(idx, idf, Known(idx, q));
    forall g | g in w ensures w[g] > 0.0 {
      assert idx.postings[g][0] in idx.postings[g];
    }
    assert w.Keys == Known(idx, q);
    MassPositive(w.Keys, w);
  }

  // ---------------------------------------------------------------- the order

  lemma OrderListed(job: Job, gs: seq<string>)
    requires job.Valid() && job.Order(gs)
    ensures Listed(gs, job.posts, job.w)
    ensures Along(gs, job.w) == job.max
  {
    forall g | g in gs ensures g in job.w {
      assert g in Elems(gs);
    }
    AlongIsMass(gs, job.posts, job.w, 0);
  }

  lemma OrderCoverage(job: Job, gs: seq<string>, o: nat)
    requires job.Valid() && job.Order(gs) && Listed(gs, job.posts, job.w)
    ensures Cover(gs, job.posts, job.w, o) == job.Coverage(o)
    ensures Cover(gs, job.posts, job.w, o) > 0.0 <==> Holding(job.w.Keys, job.posts, o) != {}
  {
    AlongIsMass(gs, job.posts, job.w, o);
    CoverBounds(gs, job.posts, job.w, o);
    var h := Holding(job.w.Keys, job.posts, o);
    if exists g :: g in gs && o in job.posts[g] {
      var g :| g in gs && o in job.posts[g];
      assert g in Elems(gs);
      assert g in h;
    }
    if h != {} {
      var g :| g in h;
      assert g in Elems(gs);
    }
  }

  function InsertByCard(g: string, gs: seq<string>, posts: Postings): (r: seq<string>)
    requires g in posts && forall k | k in gs :: k in posts
    ensures multiset(r) == multiset(gs) + multiset{g}
  {
    if gs == [] || |posts[g]| <= |posts[gs[0]]| then [g] + gs
    else
      assert gs == [gs[0]] + gs[1..];
      [gs[0]] + InsertByCard(g, gs[1..], posts)
  }

  /** Rarest grams first. */
  method SortByCard(gi: seq<string>, posts: Postings) returns (order: seq<string>)
    requires forall g | g in gi :: g in posts
    ensures multiset(order) == multiset(gi)
  {
    order := [];
    for i := 0 to |gi|
      invariant multiset(order) == multiset(gi[..i])
    {
      assert gi[..i + 1] == gi[..i] + [gi[i]];
      assert forall k | k in order :: k in multiset(order);
      assert forall k | k in gi[..i] :: k in gi;
      order := InsertByCard(gi[i], order, posts);
    }
    assert gi[..|gi|] == gi;
  }

  /** The generators: the rarest grams, until their mass exceeds `need`. */
  method Split(order: seq<string>, w: WeightMap, need: real) returns (split: nat)
    requires forall g | g in order :: g in w
    ensures split <= |order|
    ensures split < |order| ==> Along(order[..split], w) > need
    ensures forall i: nat | i < split :: i == 0 || Along(order[..i], w) <= need
  {
    var acc := 0.0;
    split := 0;
    while split < |order|
      invariant split <= |order|
      invariant acc == Along(order[..split], w)
      invariant split == 0 || acc <= need
      invariant forall i: nat | i < split :: i == 0 || Along(order[..i], w) <= need
    {
      acc := acc + w[order[split]];
      assert order[..split + 1][..split] == order[..split];
      split := split + 1;
      if acc > need {
        break;
      }
    }
  }

  /** Scan the generators into the accumulator. */
  method Accumulate(gens: seq<string>, job: Job, sc: Scratch, background: bool) returns (canceled: bool)
    requires job.Valid() && Listed(gens, job.posts, job.w)
    requires sc.Clean() && sc.counts.Length == job.numOrds
    modifies sc, sc.counts, sc.touched
    ensures sc.Valid()
    ensures background ==> !canceled
    ensures !canceled ==> forall o: nat | o < job.numOrds :: sc.counts[o] == Cover(gens, job.posts, job.w, o)
  {
    canceled := false;
    for k := 0 to |gens|
      invariant sc.Valid()
      invariant forall o: nat | o < job.numOrds :: sc.counts[o] == Cover(gens[..k], job.posts, job.w, o)
    {
      var g := gens[k];
      assert g in gens;
      assert gens[..k + 1][..k] == gens[..k];
      canceled := sc.AddGram(job.posts[g], job.w[g], background);
      if canceled {
        return;
      }
    }
    assert gens[..|gens|] == gens;
  }

  /** Finish one candidate: probe the common grams, giving up as soon as the
      floor is out of reach. Exact whenever the floor is reached. */
  method Probe(probes: seq<string>, job: Job, start: real, total: real, o: nat) returns (score: real)
    requires job.Valid() && Listed(probes, job.posts, job.w) && total == Along(probes, job.w)
    ensures var full := start + Cover(probes, job.posts, job.w, o);
            (score >= job.floor <==> full >= job.floor) && (score >= job.floor ==> score == full)
  {
    score := start;
    var rem := total;
    for j := 0 to |probes|
      invariant score == start + Cover(probes[..j], job.posts, job.w, o)
      invariant rem == total - Along(probes[..j], job.w)
    {
      var p := probes[j];
      assert p in probes;
      if score + rem < job.floor {
        assert probes == probes[..j] + probes[j..];
        AlongAppend(probes[..j], probes[j..], job.posts, job.w, o);
        CoverBounds(probes[j..], job.posts, job.w, o);
        return;
      }
      assert probes[..j + 1][..j] == probes[..j];
      rem := rem - job.w[p];
      if o in job.posts[p] {
        score := score + job.w[p];
      }
    }
    assert probes[..|probes|] == probes;
  }

  lemma {:induction false} SeenOrds(job: Job, ts: seq<nat>)
    requires job.Valid()
    ensures forall h | h in job.Seen(ts) :: h.ord in ts
    ensures |job.Seen(ts)| <= |ts|
  {
    if ts != [] {
      var front, o := ts[..|ts| - 1], ts[|ts| - 1];
      SeenOrds(job, front);
      assert forall x | x in front :: x in ts;
    }
  }

  lemma {:induction false} SeenMembers(job: Job, ts: seq<nat>, h: Hit)
    requires job.Valid()
    ensures h in job.Seen(ts) <==> h.ord in ts && job.Qualifies(h.ord) && h == job.HitFor(h.ord)
  {
    if ts != [] {
      var front, o := ts[..|ts| - 1], ts[|ts| - 1];
      SeenMembers(job, front, h);
      assert ts == front + [o];
    }
  }

  /** Decide one touched ordinal: floor first, then the filter. */
  method Judge(job: Job, ghost order: seq<string>, ghost gens: seq<string>, probes: seq<string>,
               total: real, start: real, o: nat)
    returns (ok: bool, h: Hit)
    requires job.Valid() && job.Order(order) && Listed(order, job.posts, job.w)
    requires order == gens + probes && Listed(gens, job.posts, job.w) && Listed(probes, job.posts, job.w)
    requires total == Along(probes, job.w) && start == Cover(gens, job.posts, job.w, o) > 0.0
    ensures ok <==> job.Qualifies(o)
    ensures ok ==> h == job.HitFor(o)
  {
    AlongAppend(gens, probes, job.posts, job.w, o);
    OrderCoverage(job, order, o);
    CoverBounds(probes, job.posts, job.w, o);
    var score := Probe(probes, job, start, total, o);
    if score < job.floor || !job.keep(o) {
      return false, Hit(0, 0.0);
    }
    return true, Hit(o, job.rnd(score / job.max * 100.0));
  }

  /** Score every touched ordinal and keep the best topK. */
  method Collect(job: Job, ghost order: seq<string>, ghost gens: seq<string>, probes: seq<string>,
                 sc: Scratch, topK: int, background: bool)
    returns (canceled: bool, out: array<Hit>, n: nat)
    requires job.Valid() && job.Order(order) && Listed(order, job.posts, job.w)
    requires order == gens + probes && Listed(gens, job.posts, job.w) && Listed(probes, job.posts, job.w)
    requires sc.Valid() && sc.counts.Length == job.numOrds
    requires forall o: nat | o < job.numOrds :: sc.counts[o] == Cover(gens, job.posts, job.w, o)
    ensures fresh(out) && n <= out.Length
    ensures out.Length == if topK > 0 && topK < sc.n then topK else sc.n
    ensures background ==> !canceled
    ensures !canceled ==> Selects(out[..n], job.Seen(sc.touched[..sc.n]), topK)
  {
    hide Selects, HeapFrom, Job.Valid, Job.Order, Job.Qualifies, Job.HitFor, Job.Seen, Cover, Along, Tracks, NoDup;
    var total := Total(probes, job.w);
    var ts := sc.touched[..sc.n];
    TouchedCounts(sc.counts[..], ts);
    var bound := |ts|;
    if topK > 0 && topK < bound {
      bound := topK;
    }
    out := new Hit[bound](_ => Hit(0, 0.0));
    n, canceled := 0, false;
    var heaped := false;
    assert ts[..0] == [];
    NothingSelected(job, out[..0], topK);
    for t := 0 to |ts|
      invariant n <= out.Length && Selects(out[..n], job.Seen(ts[..t]), topK)
      invariant heaped ==> HeapFrom(out[..n], 0)
      invariant heaped ==> topK > 0 && n == topK
    {
      if !background {
        canceled := *;
        if canceled {
          return;
        }
      }
      var o := ts[t];
      assert o in ts;
      var ok, h := Judge(job, order, gens, probes, total, sc.counts[o], o);
      SeenStep(job, ts, t);
      if ok {
        SelectedRoom(out[..n], job.Seen(ts[..t]), topK, t);
        n, heaped := Offer(out, n, topK, heaped, h, job.Seen(ts[..t]));
      }
    }
    assert ts[..|ts|] == ts;
  }

  lemma SeenHit(job: Job, o: nat)
    requires job.Valid()
    ensures job.HitFor(o).ord == o
  {
  }

  lemma SeenStep(job: Job, ts: seq<nat>, t: nat)
    requires job.Valid() && NoDup(ts) && t < |ts|
    ensures job.Seen(ts[..t + 1]) == job.Seen(ts[..t]) + if job.Qualifies(ts[t]) then {job.HitFor(ts[t])} else {}
    ensures job.HitFor(ts[t]) !in job.Seen(ts[..t]) && |job.Seen(ts[..t])| <= t
  {
    hide Job.HitFor, Job.Qualifies, Job.Valid;
    assert ts[..t + 1][..t] == ts[..t];
    assert ts[t] !in ts[..t];
    SeenHit(job, ts[t]);
    SeenOrds(job, ts[..t]);
  }

  lemma TouchedCounts(c: seq<real>, ts: seq<nat>)
    requires Tracks(c, ts)
    ensures NoDup(ts) && forall o | o in ts :: o < |c| && c[o] > 0.0
  {
  }

  lemma NothingSelected(job: Job, s: seq<Hit>, k: int)
    requires job.Valid() && s == []
    ensures Selects(s, job.Seen([]), k)
  {
  }

  lemma SelectedRoom(s: seq<Hit>, seen: set<Hit>, k: int, t: nat)
    requires Selects(s, seen, k) && |seen| <= t
    ensures |s| <= t
  {
  }

  /** The mass the probes could still add. */
  method Total(probes: seq<string>, w: WeightMap) returns (total: real)
    requires forall g | g in probes :: g in w
    ensures total == Along(probes, w)
  {
    total := 0.0;
    for j := 0 to |probes|
      invariant total == Along(probes[..j], w)
    {
      assert probes[..j + 1][..j] == probes[..j];
      total := total + w[probes[j]];
    }
    assert probes[..|probes|] == probes;
  }

  lemma SeenIsHits(job: Job, order: seq<string>, gens: seq<string>, probes: seq<string>, ts: seq<nat>)
    requires job.Valid() && job.Order(order) && Listed(order, job.posts, job.w)
    requires order == gens + probes && Listed(gens, job.posts, job.w) && Listed(probes, job.posts, job.w)
    requires probes != [] ==> Along(gens, job.w) > job.max - job.floor
    requires forall o | o in ts :: o < job.numOrds
    requires forall o: nat | o < job.numOrds :: o in ts <==> Cover(gens, job.posts, job.w, o) > 0.0
    ensures job.Seen(ts) == job.Hits()
  {
    hide Cover, Along, Job.Valid, Job.Seen;
    forall h: Hit ensures h in job.Seen(ts) <==> h in job.Hits() {
      SeenMembers(job, ts, h);
      if h.ord < job.numOrds && job.Qualifies(h.ord) {
        Touched(job, order, gens, probes, h.ord);
      }
    }
  }

  /** A qualifying ordinal holds a generator: what only probes hold cannot
      reach the floor. */
  lemma Touched(job: Job, order: seq<string>, gens: seq<string>, probes: seq<string>, o: nat)
    requires job.Valid() && job.Order(order) && Listed(order, job.posts, job.w)
    requires order == gens + probes && Listed(gens, job.posts, job.w) && Listed(probes, job.posts, job.w)
    requires probes != [] ==> Along(gens, job.w) > job.max - job.floor
    requires job.Qualifies(o)
    ensures Cover(gens, job.posts, job.w, o) > 0.0
  {
    OrderListed(job, order);
    OrderCoverage(job, order, o);
    AlongAppend(gens, probes, job.posts, job.w, o);
    CoverBounds(gens, job.posts, job.w, o);
    CoverBounds(probes, job.posts, job.w, o);
  }

  predicate IsKnown(idx: Index, g: string) {
    g in idx.postings && |idx.postings[g]| != 0
  }

  function KeepKnown(idx: Index, xs: seq<string>): seq<string> {
    if xs == [] then []
    else
      var g := xs[|xs| - 1];
      KeepKnown(idx, xs[..|xs| - 1]) + if IsKnown(idx, g) then [g] else []
  }

  lemma {:induction false} KeptAreKnown(idx: Index, xs: seq<string>)
    ensures Elems(KeepKnown(idx, xs)) == set g | g in xs && IsKnown(idx, g)
    ensures NoDup(xs) ==> NoDup(KeepKnown(idx, xs))
  {
    if xs != [] {
      var front, g := xs[..|xs| - 1], xs[|xs| - 1];
      KeptAreKnown(idx, front);
      assert xs == front + [g];
      var kept := KeepKnown(idx, front);
      forall x ensures x in KeepKnown(idx, xs) <==> x in kept || (x == g && IsKnown(idx, g)) {
      }
      forall x | x in kept ensures x in front {
        assert x in Elems(kept);
      }
      forall x ensures x in Elems(KeepKnown(idx, xs)) <==> x in xs && IsKnown(idx, x) {
        assert x in kept <==> x in Elems(kept);
      }
    }
  }

  /** The known query grams, each with its weight, and their total. */
  method QueryWeights(idx: Index, idf: Idf, q: string) returns (gi: seq<string>, w: WeightMap, max: real)
    requires idx.Valid()
    ensures NoDup(gi) && Elems(gi) == Known(idx, q)
    ensures w == WeightsOf(idx, idf, Known(idx, q))
    ensures Listed(gi, idx.postings, w)
    ensures max == Along(gi, w)
  {
    hide Along, NoDup, Prepared, IsKnown;
    gi, w, max := [], map[], 0.0;
    AlongNil(w);
    var s := Prepared(idx.cfg, q);
    if s == "" {
      NoQuery(idx, q);
      return;
    }
    var emitted, _ := Grams.EachGram(s, idx.cfg.sizes, {});
    for k := 0 to |emitted|
      invariant gi == KeepKnown(idx, emitted[..k])
      invariant Elems(gi) <= idx.postings.Keys && w == WeightsOf(idx, idf, Elems(gi))
      invariant forall g | g in gi :: g in w && g in idx.postings
      invariant max == Along(gi, w)
    {
      var g := emitted[k];
      assert emitted[..k + 1][..k] == emitted[..k];
      if g in idx.postings && |idx.postings[g]| != 0 {
        var weight := idf(idx.numOrds, |idx.postings[g]|);
        KnownStep(idx, idf, gi, w, g);
        gi, w, max := gi + [g], w[g := weight], max + weight;
      }
      IsKnownDef(idx, g);
    }
    assert emitted[..|emitted|] == emitted;
    Emitted(idx, q, emitted);
  }

  lemma IsKnownDef(idx: Index, g: string)
    ensures IsKnown(idx, g) <==> g in idx.postings && |idx.postings[g]| != 0
  {
  }

  lemma AlongNil(w: WeightMap)
    ensures Along([], w) == 0.0 && NoDup<string>([])
  {
  }

  lemma NoQuery(idx: Index, q: string)
    requires Prepared(idx.cfg, q) == ""
    ensures Known(idx, q) == {}
  {
  }

  lemma KnownStep(idx: Index, idf: Idf, gi: seq<string>, w: WeightMap, g: string)
    requires Elems(gi) <= idx.postings.Keys && w == WeightsOf(idx, idf, Elems(gi))
    requires IsKnown(idx, g)
    ensures Elems(gi + [g]) <= idx.postings.Keys
    ensures w[g := idf(idx.numOrds, |idx.postings[g]|)] == WeightsOf(idx, idf, Elems(gi + [g]))
    ensures forall x | x in gi :: x in w
    ensures Along(gi + [g], w[g := idf(idx.numOrds, |idx.postings[g]|)]) ==
            Along(gi, w) + idf(idx.numOrds, |idx.postings[g]|)
  {
    var weight := idf(idx.numOrds, |idx.postings[g]|);
    assert Elems(gi + [g]) == Elems(gi) + {g};
    forall x | x in gi ensures x in w && w[g := weight][x] == w[x] {
      assert x in Elems(gi);
    }
    AlongSame(gi, w, w[g := weight]);
    assert (gi + [g])[..|gi|] == gi;
  }

  lemma Emitted(idx: Index, q: string, emitted: seq<string>)
    requires Prepared(idx.cfg, q) != ""
    requires emitted == Grams.Fresh({}, Grams.AllWindows(Prepared(idx.cfg, q), idx.cfg.sizes))
    ensures NoDup(KeepKnown(idx, emitted)) && Elems(KeepKnown(idx, emitted)) == Known(idx, q)
  {
    var s := Prepared(idx.cfg, q);
    Grams.QueryGramsAreIndexGrams(s, idx.cfg.sizes);
    Grams.FreshIsSet({}, Grams.AllWindows(s, idx.cfg.sizes));
    KeptAreKnown(idx, emitted);
    forall g ensures g in emitted <==> g in KeyGrams(idx.cfg, q) {
      assert g in emitted <==> g in Grams.SetOf(emitted);
    }
    assert Elems(KeepKnown(idx, emitted)) == Known(idx, q);
  }

  lemma {:induction false} AlongSame(gs: seq<string>, w: WeightMap, w': WeightMap)
    requires forall g | g in gs :: g in w && g in w' && w[g] == w'[g]
    ensures Along(gs, w) == Along(gs, w')
  {
    if gs != [] {
      AlongSame(gs[..|gs| - 1], w, w');
    }
  }

  function InsertHit(h: Hit, r: seq<Hit>): seq<Hit> {
    if r == [] || Worse(r[0], h) then [h] + r else [r[0]] + InsertHit(h, r[1..])
  }

  lemma {:induction false} InsertSorted(h: Hit, r: seq<Hit>)
    requires Sorted(r) && h !in r
    ensures Sorted(InsertHit(h, r)) && multiset(InsertHit(h, r)) == multiset(r) + multiset{h}
  {
    hide Worse;
    if r != [] {
      assert r == [r[0]] + r[1..];
      WorseIsTotalOrder(r[0], h, h);
      if Worse(r[0], h) {
        forall i | 0 <= i < |r| ensures Worse(r[i], h) {
          WorseIsTotalOrder(r[i], r[0], h);
        }
      } else {
        var rest := InsertHit(h, r[1..]);
        InsertSorted(h, r[1..]);
        forall i | 0 <= i < |rest| ensures Worse(rest[i], r[0]) {
          assert rest[i] in multiset(rest);
          assert rest[i] == h || rest[i] in r[1..];
        }
      }
    }
  }

  /** The final sort: best first. */
  method SortHits(s: seq<Hit>) returns (r: seq<Hit>)
    requires NoDup(s)
    ensures Sorted(r) && multiset(r) == multiset(s)
  {
    r := [];
    for i := 0 to |s|
      invariant Sorted(r) && multiset(r) == multiset(s[..i])
    {
      assert s[..i + 1] == s[..i] + [s[i]];
      forall x | x in r ensures x != s[i] {
        assert x in multiset(s[..i]);
      }
      InsertSorted(s[i], r);
      r := InsertHit(s[i], r);
    }
    assert s[..|s|] == s;
  }

  /** Look a query up. The result is exactly the best topK (all, if topK is
      not positive) of the hits that scoring every ordinal in full would give;
      every exit hands the accumulator back clean. */
  method Lookup(idx: Index, idf: Idf, rnd: Rounding, q: string, threshold: real, topK: int, keep: nat -> bool,
                sc: Scratch, background: bool)
    returns (canceled: bool, hits: seq<Hit>)
    requires idx.Valid() && sc.Clean() && sc.counts.Length == idx.numOrds
    modifies sc, sc.counts, sc.touched
    ensures sc.Clean()
    ensures background ==> !canceled
    ensures canceled ==> hits == []
    ensures !canceled ==> hits == TopK(Answer(idx, idf, rnd, q, threshold, keep), topK)
  {
    hide TopK, Job.Valid, Job.Seen, Job.Hits, Job.Order, Tracks, Cover, Along, Selects, WeightsOf, Known, Answer,
      JobFor, Worse;
    canceled, hits := false, [];
    NothingKnown(idx, idf, rnd, q, threshold, keep, topK);
    var gi, w, max := QueryWeights(idx, idf, q);
    if idx.numOrds == 0 || |gi| == 0 {
      return;
    }
    PlannedJob(idx, idf, rnd, q, threshold, keep, gi, w, max);
    var order := SortByCard(gi, idx.postings);
    Rearranged(gi, order);
    assert forall g | g in order :: g in Elems(order);
    var split := Split(order, w, max - threshold * max);
    var gens, probes := order[..split], order[split..];
    var job := Job(idx.postings, w, threshold * max, max, idx.numOrds, keep, rnd);
    PlannedOrder(job, gi, order, split);
    canceled := Accumulate(gens, job, sc, background);
    if !canceled {
      var out, n;
      canceled, out, n := Collect(job, order, gens, probes, sc, topK, background);
      if !canceled {
        TouchedExactly(sc.counts[..], sc.touched[..sc.n]);
        SeenIsHits(job, order, gens, probes, sc.touched[..sc.n]);
        Selected(out[..n], job.Hits(), topK);
        hits := SortHits(out[..n]);
        SelectedIsTopK(out[..n], hits, job.Hits(), topK);
      }
    }
    sc.Reset();
  }

  lemma NothingKnown(idx: Index, idf: Idf, rnd: Rounding, q: string, threshold: real, keep: nat -> bool, topK: int)
    requires idx.Valid()
    ensures idx.numOrds == 0 ==> Known(idx, q) == {}
    ensures Known(idx, q) == {} ==> TopK(Answer(idx, idf, rnd, q, threshold, keep), topK) == []
  {
    forall g | g in Known(idx, q) ensures idx.numOrds > 0 {
      assert idx.postings[g][0] in idx.postings[g];
    }
  }

  /** The job the lookup builds is the one its answer is defined by. */
  lemma PlannedJob(idx: Index, idf: Idf, rnd: Rounding, q: string, threshold: real, keep: nat -> bool,
                   gi: seq<string>, w: WeightMap, max: real)
    requires idx.Valid() && gi != [] && NoDup(gi) && Elems(gi) == Known(idx, q)
    requires w == WeightsOf(idx, idf, Known(idx, q)) && Listed(gi, idx.postings, w) && max == Along(gi, w)
    ensures Job(idx.postings, w, threshold * max, max, idx.numOrds, keep, rnd) ==
            JobFor(idx, idf, rnd, q, threshold, keep)
    ensures JobFor(idx, idf, rnd, q, threshold, keep).Valid()
    ensures Answer(idx, idf, rnd, q, threshold, keep) == JobFor(idx, idf, rnd, q, threshold, keep).Hits()
    ensures w.Keys == Elems(gi)
  {
    hide Along, Mass, Job.Hits, Job.Valid, KeyGrams;
    assert gi[0] in Elems(gi);
    assert w.Keys == Elems(gi);
    AlongIsMass(gi, idx.postings, w, 0);
    JobValid(idx, idf, rnd, q, threshold, keep);
  }

  lemma PlannedOrder(job: Job, gi: seq<string>, order: seq<string>, split: nat)
    requires job.Valid() && NoDup(gi) && Elems(gi) == job.w.Keys
    requires multiset(order) == multiset(gi) && split <= |order|
    ensures job.Order(order) && Listed(order, job.posts, job.w)
    ensures Listed(order[..split], job.posts, job.w) && Listed(order[split..], job.posts, job.w)
    ensures order == order[..split] + order[split..]
  {
    hide Job.Valid;
    Rearranged(gi, order);
    OrderListed(job, order);
  }

  lemma TouchedExactly(c: seq<real>, ts: seq<nat>)
    requires Tracks(c, ts)
    ensures forall o | o in ts :: o < |c|
    ensures forall o: nat | o < |c| :: o in ts <==> c[o] > 0.0
  {
  }

  lemma Selected(s: seq<Hit>, all: set<Hit>, k: int)
    requires Selects(s, all, k)
    ensures NoDup(s)
  {
  }

  lemma SelectedIsTopK(s: seq<Hit>, r: seq<Hit>, all: set<Hit>, k: int)
    requires Selects(s, all, k) && Sorted(r) && multiset(r) == multiset(s)
    ensures r == TopK(all, k)
  {
    Rearranged(s, r);
    SortedIsTopK(r, all, k);
  }

  // ------------------------------------------------------------- own-key recall

  /** All grams of an indexed entry's key are known, and hold the entry. */
  lemma OwnKeyKnown(idx: Index, log: Log, i: nat, j: nat)
    requires Indexes(idx.cfg, idx.postings, log) && i < |log| && j < |log[i].1|
    ensures Known(idx, log[i].1[j]) == KeyGrams(idx.cfg, log[i].1[j])
    ensures Holding(Known(idx, log[i].1[j]), idx.postings, log[i].0) == Known(idx, log[i].1[j])
  {
    KeyInEntry(idx.cfg, log[i].1, j);
    forall g | g in KeyGrams(idx.cfg, log[i].1[j]) ensures Posted(idx.postings, g, log[i].0) {
      assert Added(idx.cfg, log, g, log[i].0);
    }
  }

  lemma FullScore(threshold: real, max: real)
    requires threshold <= 1.0 && max > 0.0
    ensures threshold * max <= max && max / max * 100.0 == 100.0
  {
  }

  /** Every indexed entry is found, at 100, by each of its own keys, at any
      threshold up to 1 and whatever else is indexed, exactly when the key
      still has text after preparation. */
  lemma FoundByOwnKey(idx: Index, log: Log, idf: Idf, rnd: Rounding, i: nat, j: nat, threshold: real, keep: nat -> bool)
    requires idx.Valid() && Indexes(idx.cfg, idx.postings, log) && idx.cfg.sizes != []
    requires i < |log| && j < |log[i].1| && threshold <= 1.0 && keep(log[i].0)
    ensures Hit(log[i].0, 100.0) in Answer(idx, idf, rnd, log[i].1[j], threshold, keep) <==>
            Prepared(idx.cfg, log[i].1[j]) != ""
  {
    hide Indexes, Added, Mass, Prepared;
    var o, q := log[i].0, log[i].1[j];
    OwnKeyKnown(idx, log, i, j);
    if Prepared(idx.cfg, q) != "" {
      Grams.HasGrams(Prepared(idx.cfg, q), idx.cfg.sizes);
      var known := Known(idx, q);
      var g :| g in known;
      assert g in Holding(known, idx.postings, o);
      JobValid(idx, idf, rnd, q, threshold, keep);
      var job := JobFor(idx, idf, rnd, q, threshold, keep);
      assert job.w.Keys == known && job.Coverage(o) == job.max;
      FullScore(threshold, job.max);
      assert job.Qualifies(o) && job.HitFor(o) == Hit(o, 100.0);
    }
  }
}
