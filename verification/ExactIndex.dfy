/** The normalized-exact index (engine/exact/exact.go): analyzed key to the
    ascending ordinals of the entries that hold it, every run in one shared
    postings list behind a packed 44/20-bit locator. */
module ExactIndex {
  import opened Bytes
  import opened Packing
  import opened Seqs

  type Key = seq<byte>
  type Runs = map<Key, seq<nat>>

  const MAX_RUN := 0xF_FFFF
  const MAX_OFF := 0xFFF_FFFF_FFFF
  const MAX_U32 := 0xFFFF_FFFF
  const WORD64 := 0x1_0000_0000_0000_0000

  // ------------------------------------------------------------------ the locator

  /** uint64(off) << 20 | uint64(len), for a len of at most 20 bits. */
  function Pack(off: nat, len: nat): nat
    requires len <= MAX_RUN
  {
    off * 0x10_0000 % WORD64 + len
  }

  function Off(p: nat): nat {
    p / 0x10_0000
  }

  function Len(p: nat): nat {
    p % 0x10_0000
  }

  predicate Covers(p: nat, at: nat) {
    Off(p) <= at < Off(p) + Len(p)
  }

  /** The fields come back exactly up to the largest offset guarded for; one
      further and the offset is lost. */
  lemma PackReads(off: nat, len: nat)
    requires len <= MAX_RUN && off < 0x1_0000_0000_0000
    ensures Pack(off, len) < WORD64 && Len(Pack(off, len)) == len
    ensures Off(Pack(off, len)) == off <==> off <= MAX_OFF
  {
  }

  // --------------------------------------------------------------------- the index

  datatype Index = Index(m: map<Key, nat>, arena: seq<byte>, postings: seq<nat>, numOrds: nat) {
    ghost predicate Covered(p: nat) {
      exists k :: k in m && Covers(m[k], p)
    }

    /** Every key has a run, and the runs partition the postings. */
    ghost predicate Valid() {
      && (forall k | k in m :: k != [] && 1 <= Len(m[k]) && Off(m[k]) + Len(m[k]) <= |postings|)
      && (forall k, l | k in m && l in m && k != l ::
            Off(m[k]) + Len(m[k]) <= Off(m[l]) || Off(m[l]) + Len(m[l]) <= Off(m[k]))
      && (forall p: nat | p < |postings| :: Covered(p))
      && NumOrdsOf(postings, numOrds)
    }

    /** The ordinals of every entry holding the key; none on a miss. */
    function Lookup(k: Key): seq<nat>
      requires Valid()
    {
      if k in m then postings[Off(m[k])..Off(m[k]) + Len(m[k])] else []
    }

    ghost predicate Means(runs: Runs) {
      Valid() && m.Keys == runs.Keys && forall k | k in runs :: Lookup(k) == runs[k]
    }
  }

  /** One more than the largest ordinal; zero when there is none. */
  ghost predicate NumOrdsOf(postings: seq<nat>, n: nat) {
    && (forall p | 0 <= p < |postings| :: postings[p] < n)
    && (n > 0 ==> n - 1 in postings)
  }

  // --------------------------------------------------------------------- building

  /** Entry ordinals and their analyzed keys, in the order they were added. */
  type Log = seq<(nat, seq<Key>)>

  ghost predicate Added(log: Log, k: Key, o: nat) {
    k != [] && exists i | 0 <= i < |log| :: log[i].0 == o && k in log[i].1
  }

  ghost predicate Posted(runs: Runs, k: Key, o: nat) {
    k in runs && o in runs[k]
  }

  predicate Ascending(s: seq<nat>) {
    forall i, j | 0 <= i < j < |s| :: s[i] < s[j]
  }

  ghost predicate Orderly(runs: Runs) {
    forall k | k in runs :: k != [] && runs[k] != [] && Ascending(runs[k])
  }

  ghost predicate Indexes(runs: Runs, log: Log) {
    Orderly(runs) && forall k, o: nat :: Posted(runs, k, o) <==> Added(log, k, o)
  }

  datatype Outcome = Built(index: Index) | KeyOverflow(key: Key) | Refused

  /** Ordinals below the bound. */
  ghost predicate Below(runs: Runs, bound: nat) {
    forall k, o: nat :: Posted(runs, k, o) ==> o < bound
  }

  lemma TailIsOrd(s: seq<nat>, ord: nat)
    requires Ascending(s) && forall i | 0 <= i < |s| :: s[i] <= ord
    ensures ord in s <==> s != [] && s[|s| - 1] == ord
  {
  }

  lemma OldBelow(runs: Runs, log: Log, ord: nat)
    requires Indexes(runs, log) && forall i | 0 <= i < |log| :: log[i].0 < ord
    ensures Below(runs, ord)
  {
    forall k, o: nat | Posted(runs, k, o) ensures o < ord {
      assert Added(log, k, o);
    }
  }

  lemma TailSays(runs: Runs, k: Key, ord: nat)
    requires Orderly(runs) && Below(runs, ord + 1)
    ensures Posted(runs, k, ord) <==> k in runs && runs[k] != [] && runs[k][|runs[k]| - 1] == ord
  {
    if k in runs {
      forall i | 0 <= i < |runs[k]| ensures runs[k][i] <= ord {
        assert Posted(runs, k, runs[k][i]);
      }
      TailIsOrd(runs[k], ord);
    }
  }

  /** Appending an ordinal above the rest of its run. */
  lemma RunPush(was: Runs, k: Key, ord: nat)
    requires Orderly(was) && Below(was, ord + 1) && k != [] && !Posted(was, k, ord)
    ensures var m := was[k := (if k in was then was[k] else []) + [ord]];
            && Orderly(m) && Below(m, ord + 1)
            && forall l, o: nat :: Posted(m, l, o) <==> Posted(was, l, o) || (l == k && o == ord)
  {
    var p := if k in was then was[k] else [];
    forall i | 0 <= i < |p| ensures p[i] < ord {
      assert Posted(was, k, p[i]);
    }
    var m := was[k := p + [ord]];
    forall l, o: nat ensures Posted(m, l, o) <==> Posted(was, l, o) || (l == k && o == ord) {
      if l == k {
        assert o in p + [ord] <==> o in p || o == ord;
      }
    }
  }

  lemma LogPush(before: Runs, m: Runs, log: Log, ord: nat, keys: seq<Key>)
    requires Indexes(before, log) && Orderly(m)
    requires forall k, o: nat :: Posted(m, k, o) <==> Posted(before, k, o) || (o == ord && k != [] && k in keys)
    ensures Indexes(m, log + [(ord, keys)])
  {
    var all := log + [(ord, keys)];
    forall k, o: nat ensures Posted(m, k, o) <==> Added(all, k, o) {
      if Added(log, k, o) {
        var i :| 0 <= i < |log| && log[i].0 == o && k in log[i].1;
        assert all[i] == log[i];
      }
      if o == ord && k != [] && k in keys {
        assert all[|log|] == (ord, keys);
      }
      if Added(all, k, o) {
        var i :| 0 <= i < |all| && all[i].0 == o && k in all[i].1;
        assert i < |log| ==> all[i] == log[i];
      }
    }
  }

  /** before, and these keys with this ordinal. */
  ghost predicate AddedSoFar(before: Runs, m: Runs, ord: nat, keys: seq<Key>) {
    forall k, o: nat :: Posted(m, k, o) <==> Posted(before, k, o) || (o == ord && k != [] && k in keys)
  }

  lemma OneMore(before: Runs, was: Runs, m: Runs, ord: nat, keys: seq<Key>, k: Key)
    requires AddedSoFar(before, was, ord, keys)
    requires forall l, o: nat :: Posted(m, l, o) <==> Posted(was, l, o) || (l == k && k != [] && o == ord)
    ensures AddedSoFar(before, m, ord, keys + [k])
  {
    hide Posted;
    forall l, o: nat ensures Posted(m, l, o) <==> Posted(before, l, o) || (o == ord && l != [] && l in keys + [k]) {
      assert l in keys + [k] <==> l in keys || l == k;
      assert Posted(m, l, o) <==> Posted(was, l, o) || (l == k && k != [] && o == ord);
      assert Posted(was, l, o) <==> Posted(before, l, o) || (o == ord && l != [] && l in keys);
    }
  }

  // ------------------------------------------------------------------- compacting

  /** How many ordinals the runs hold together. */
  ghost function Total(runs: Runs): nat
    decreases |runs|
  {
    if runs == map[] then 0
    else
      var k :| k in runs;
      Shrinks(runs, k);
      |runs[k]| + Total(runs - {k})
  }

  lemma Shrinks(runs: Runs, k: Key)
    requires k in runs
    ensures |runs - {k}| < |runs|
  {
    assert (runs - {k}).Keys == runs.Keys - {k};
  }

  lemma {:induction false} TotalPush(runs: Runs, k: Key)
    requires k in runs
    ensures Total(runs) == |runs[k]| + Total(runs - {k})
    decreases |runs|
  {
    var l :| l in runs && Total(runs) == |runs[l]| + Total(runs - {l});
    if l != k {
      Shrinks(runs, l);
      Shrinks(runs, k);
      TotalPush(runs - {l}, k);
      TotalPush(runs - {k}, l);
      assert runs - {l} - {k} == runs - {k} - {l};
    }
  }

  ghost function Part(src: Runs, done: set<Key>): Runs {
    map k | k in src && k in done :: src[k]
  }

  /** The postings grown by one key's run. */
  function Push(idx: Index, k: Key, run: seq<nat>): Index
    requires 0 < |run| <= MAX_RUN
  {
    var last := run[|run| - 1];
    Index(idx.m[k := Pack(|idx.postings|, |run|)], idx.arena + k, idx.postings + run,
          if last + 1 > idx.numOrds then last + 1 else idx.numOrds)
  }

  lemma PushValid(idx: Index, k: Key, run: seq<nat>)
    requires idx.Valid() && k !in idx.m && k != [] && 0 < |run| <= MAX_RUN && |idx.postings| <= MAX_OFF
    requires Ascending(run)
    ensures Push(idx, k, run).Valid()
  {
    hide Off, Len, Pack;
    var t := Push(idx, k, run);
    var n := |idx.postings|;
    PackReads(n, |run|);
    assert forall l | l in idx.m :: t.m[l] == idx.m[l];
    forall p: nat | p < |t.postings| ensures t.Covered(p) {
      if p < n {
        assert idx.Covered(p);
        var l :| l in idx.m && Covers(idx.m[l], p);
        assert l in t.m;
      } else {
        assert k in t.m && Covers(t.m[k], p);
      }
    }
    PushOrds(idx.postings, idx.numOrds, run);
  }

  lemma PushOrds(postings: seq<nat>, n: nat, run: seq<nat>)
    requires NumOrdsOf(postings, n) && run != [] && Ascending(run)
    ensures NumOrdsOf(postings + run, if run[|run| - 1] + 1 > n then run[|run| - 1] + 1 else n)
  {
    var all, last := postings + run, run[|run| - 1];
    forall p | 0 <= p < |all| ensures all[p] < n || all[p] <= last {
      if p >= |postings| && p < |all| - 1 {
        assert run[p - |postings|] < last;
      }
    }
    assert last in all;
    assert n > 0 ==> n - 1 in all;
  }

  lemma PushLooksUp(idx: Index, k: Key, run: seq<nat>, l: Key)
    requires idx.Valid() && Push.requires(idx, k, run) && Push(idx, k, run).Valid()
    requires k !in idx.m && |idx.postings| <= MAX_OFF
    ensures Push(idx, k, run).Lookup(l) == if l == k then run else idx.Lookup(l)
  {
    hide Off, Len, Pack;
    PackReads(|idx.postings|, |run|);
    var t := Push(idx, k, run);
    if l != k && l in idx.m {
      JoinedSlice(idx.postings, run, Off(idx.m[l]), Off(idx.m[l]) + Len(idx.m[l]));
    } else if l == k {
      JoinedBack(idx.postings, run);
    }
  }

  lemma PushMeans(idx: Index, src: Runs, done: set<Key>, k: Key)
    requires idx.Means(Part(src, done)) && done <= src.Keys && k in src && k !in done && Orderly(src)
    requires |src[k]| <= MAX_RUN && |idx.postings| <= MAX_OFF
    ensures Push(idx, k, src[k]).Means(Part(src, done + {k}))
  {
    hide Index.Valid, Index.Lookup, Ascending, Push;
    PushValid(idx, k, src[k]);
    PushKeys(idx, k, src[k]);
    var t := Push(idx, k, src[k]);
    forall l | l in Part(src, done + {k}) ensures t.Lookup(l) == src[l] {
      PushLooksUp(idx, k, src[k], l);
    }
  }

  lemma PushKeys(idx: Index, k: Key, run: seq<nat>)
    requires 0 < |run| <= MAX_RUN
    ensures Push(idx, k, run).m.Keys == idx.m.Keys + {k} && |Push(idx, k, run).postings| == |idx.postings| + |run|
  {
  }

  lemma PartTotal(src: Runs, done: set<Key>, k: Key)
    requires done <= src.Keys && k in src && k !in done
    ensures Total(Part(src, done + {k})) == Total(Part(src, done)) + |src[k]|
  {
    var p := Part(src, done + {k});
    TotalPush(p, k);
    assert p - {k} == Part(src, done);
  }

  lemma {:induction false} TotalGrows(src: Runs, done: set<Key>, rest: set<Key>)
    requires done <= src.Keys && rest <= src.Keys && done !! rest && done + rest == src.Keys
    ensures Total(Part(src, done)) <= Total(src)
    decreases |rest|
  {
    hide Total, Part;
    if rest == {} {
      WholePart(src);
    } else {
      var k :| k in rest;
      PartTotal(src, done, k);
      TotalGrows(src, done + {k}, rest - {k});
    }
  }

  /** The keys done so far are compacted, and their runs fill the postings. */
  ghost predicate Compacted(idx: Index, src: Runs, done: set<Key>) {
    idx.Means(Part(src, done)) && |idx.postings| == Total(Part(src, done))
  }

  lemma CompactStep(idx: Index, src: Runs, done: set<Key>, k: Key)
    requires Compacted(idx, src, done) && done <= src.Keys && k in src && k !in done && Orderly(src)
    requires |src[k]| <= MAX_RUN && |idx.postings| <= MAX_OFF
    ensures Compacted(Push(idx, k, src[k]), src, done + {k})
  {
    hide Index.Means, Ascending, Push, Part, Total;
    PushMeans(idx, src, done, k);
    PushKeys(idx, k, src[k]);
    PartTotal(src, done, k);
  }

  /** A run no locator could hold, if there is one. */
  method FindLong(src: Runs) returns (long: bool, key: Key)
    ensures long <==> exists k :: k in src && |src[k]| > MAX_RUN
    ensures long ==> key in src && |src[key]| > MAX_RUN
  {
    var todo := src.Keys;
    while todo != {}
      invariant todo <= src.Keys && forall k | k in src && k !in todo :: |src[k]| <= MAX_RUN
      decreases |todo|
    {
      var k :| k in todo;
      if |src[k]| > MAX_RUN {
        return true, k;
      }
      todo := todo - {k};
    }
    return false, [];
  }

  /** A map's keys, each once, in the order a range over it gives them. */
  ghost predicate Ranges(src: Runs, order: seq<Key>) {
    NoDup(order) && Elems(order) == src.Keys
  }

  method Range(src: Runs) returns (order: seq<Key>)
    ensures Ranges(src, order)
  {
    order := [];
    var todo := src.Keys;
    while todo != {}
      invariant todo <= src.Keys && NoDup(order) && Elems(order) == src.Keys - todo
      decreases |todo|
    {
      var k :| k in todo;
      assert k !in Elems(order);
      assert Elems(order + [k]) == Elems(order) + {k};
      order, todo := order + [k], todo - {k};
    }
  }

  /** How many ordinals the runs before position i hold. */
  ghost function Before(src: Runs, order: seq<Key>, i: nat): nat
    requires i <= |order|
  {
    Total(Part(src, Elems(order[..i])))
  }

  /** In this order every run starts at an offset the locator encodes, and none
      ends in the ordinal that has no successor. */
  ghost predicate Packs(src: Runs, order: seq<Key>) {
    forall i: nat | i < |order| :: PacksAt(src, order, i)
  }

  ghost predicate PacksAt(src: Runs, order: seq<Key>, i: nat)
    requires i < |order|
  {
    Before(src, order, i) <= MAX_OFF && (order[i] in src ==> MAX_U32 !in src[order[i]])
  }

  /** Some order of some map is refused only for its last ordinal or for more
      ordinals than offsets reach. */
  lemma PacksUnless(src: Runs, order: seq<Key>)
    requires Ranges(src, order)
    ensures Below(src, MAX_U32) && Total(src) <= MAX_OFF ==> Packs(src, order)
  {
    hide Total, Part;
    if Below(src, MAX_U32) && Total(src) <= MAX_OFF {
      forall i: nat | i < |order| ensures PacksAt(src, order, i) {
        var done := Elems(order[..i]);
        TotalGrows(src, done, src.Keys - done);
        assert order[i] in Elems(order);
        assert MAX_U32 in src[order[i]] ==> Posted(src, order[i], MAX_U32);
      }
    }
  }

  lemma RangeStep(src: Runs, order: seq<Key>, i: nat)
    requires Ranges(src, order) && i < |order|
    ensures order[i] in src && order[i] !in Elems(order[..i]) && Elems(order[..i]) <= src.Keys
    ensures Elems(order[..i + 1]) == Elems(order[..i]) + {order[i]}
  {
    assert order[..i + 1] == order[..i] + [order[i]];
    assert order[i] in Elems(order);
    forall k | k in Elems(order[..i]) ensures k in Elems(order) {
    }
  }

  /** Builds the postings in the order a range over the map gives its keys. */
  method Compact(src: Runs) returns (r: Outcome, order: seq<Key>)
    requires Orderly(src) && Below(src, MAX_U32 + 1)
    ensures Ranges(src, order)
    ensures r.KeyOverflow? <==> exists k :: k in src && |src[k]| > MAX_RUN
    ensures r.KeyOverflow? ==> r.key in src && |src[r.key]| > MAX_RUN
    ensures r.Built? <==> (forall k | k in src :: |src[k]| <= MAX_RUN) && Packs(src, order)
    ensures r.Built? ==> r.index.Means(src)
  {
    hide Index.Means, Ascending, Push, Compacted, Total, Part, Elems, NoDup;
    order := Range(src);
    var long, key := FindLong(src);
    if long {
      return KeyOverflow(key), order;
    }
    var idx := Index(map[], [], [], 0);
    NothingIn(order);
    Empty(src);
    for i := 0 to |order|
      invariant Compacted(idx, src, Elems(order[..i]))
      invariant forall j: nat | j < i :: PacksAt(src, order, j)
    {
      var k := order[i];
      RangeStep(src, order, i);
      CompactedSize(idx, src, order, i);
      if |idx.postings| > MAX_OFF {
        assert !PacksAt(src, order, i);
        return Refused, order;
      }
      var last := src[k][|src[k]| - 1];
      TailIsMost(src[k]);
      if last == MAX_U32 {
        assert !PacksAt(src, order, i);
        return Refused, order;
      }
      LastOrdinal(src, k);
      CompactStep(idx, src, Elems(order[..i]), k);
      idx := Push(idx, k, src[k]);
    }
    assert order[..|order|] == order;
    CompactedAll(idx, src);
    r := Built(idx);
  }

  lemma LastOrdinal(src: Runs, k: Key)
    requires Orderly(src) && Below(src, MAX_U32 + 1) && k in src
    requires src[k] != [] && src[k][|src[k]| - 1] != MAX_U32
    ensures MAX_U32 !in src[k]
  {
    TailIsMost(src[k]);
    assert Posted(src, k, src[k][|src[k]| - 1]);
  }

  lemma NothingIn(order: seq<Key>)
    ensures Elems(order[..0]) == {}
  {
  }

  lemma CompactedSize(idx: Index, src: Runs, order: seq<Key>, i: nat)
    requires i <= |order| && Compacted(idx, src, Elems(order[..i]))
    ensures |idx.postings| == Before(src, order, i)
  {
    hide Index.Means, Total, Part, Elems;
  }

  lemma CompactedAll(idx: Index, src: Runs)
    requires Compacted(idx, src, src.Keys)
    ensures idx.Means(src)
  {
    hide Index.Means, Total;
    WholePart(src);
  }

  lemma Empty(src: Runs)
    ensures Compacted(Index(map[], [], [], 0), src, {})
  {
    assert Part(src, {}) == map[];
  }

  lemma WholePart(src: Runs)
    ensures Part(src, src.Keys) == src
  {
  }

  lemma TailIsMost(s: seq<nat>)
    requires Ascending(s) && s != []
    ensures forall o | o in s :: o <= s[|s| - 1]
  {
  }

  class Builder {
    var m: Runs
    ghost var log: Log

    ghost predicate Valid()
      reads this
    {
      Indexes(m, log) && Below(m, MAX_U32 + 1)
    }

    constructor ()
      ensures Valid() && log == []
    {
      m := map[];
      log := [];
    }

    /** Indexes one entry's keys. Ordinals only ascend, so a run's tail says
        whether this entry is in it already. */
    method Add(ord: nat, keys: seq<Key>)
      requires Valid() && ord <= MAX_U32 && forall i | 0 <= i < |log| :: log[i].0 < ord
      modifies this
      ensures Valid() && log == old(log) + [(ord, keys)]
    {
      hide Ascending;
      ghost var before := m;
      OldBelow(m, log, ord);
      for j := 0 to |keys|
        invariant log == old(log) && Orderly(m) && Below(m, ord + 1)
        invariant AddedSoFar(before, m, ord, keys[..j])
      {
        ghost var was := m;
        var k := keys[j];
        assert keys[..j + 1] == keys[..j] + [k];
        if k != [] {
          var p := if k in m then m[k] else [];
          TailSays(m, k, ord);
          if !(|p| > 0 && p[|p| - 1] == ord) {
            RunPush(m, k, ord);
            m := m[k := p + [ord]];
          }
        }
        OneMore(before, was, m, ord, keys[..j], k);
      }
      log := log + [(ord, keys)];
      assert keys[..|keys|] == keys;
      LogPush(before, m, old(log), ord, keys);
    }

    /** Compacts the runs, in whatever order the map yields them. */
    method Finish() returns (r: Outcome, order: seq<Key>)
      requires Valid()
      modifies this
      ensures Ranges(old(m), order)
      ensures r.KeyOverflow? <==> exists k :: k in old(m) && |old(m)[k]| > MAX_RUN
      ensures r.KeyOverflow? ==> r.key in old(m) && |old(m)[r.key]| > MAX_RUN
      ensures r.Built? <==> (forall k | k in old(m) :: |old(m)[k]| <= MAX_RUN) && Packs(old(m), order)
      ensures r.Built? ==> r.index.Means(old(m))
    {
      var src := m;
      m := map[];
      log := [];
      r, order := Compact(src);
    }
  }

  /** A lookup gives every entry holding the key, in ascending order, once. */
  lemma LookupFindsHolders(idx: Index, runs: Runs, log: Log, k: Key)
    requires idx.Means(runs) && Indexes(runs, log)
    ensures Ascending(idx.Lookup(k)) && forall o: nat :: o in idx.Lookup(k) <==> Added(log, k, o)
  {
    hide Index.Valid;
    forall o: nat ensures o in idx.Lookup(k) <==> Added(log, k, o) {
      assert Posted(runs, k, o) <==> Added(log, k, o);
    }
  }

  // --------------------------------------------------------------------- restoring

  /** The bytes of key i. */
  function KeyAt(arena: seq<byte>, keyLens: seq<int>, i: nat): Key
    requires i < |keyLens|
  {
    var at := At(keyLens, i);
    if 0 <= at <= at + keyLens[i] <= |arena| then arena[at..at + keyLens[i]] else []
  }

  /** What Restore asks of serialized sections. */
  ghost predicate Restorable(arena: seq<byte>, keyLens: seq<int>, runLens: seq<int>, postings: seq<nat>) {
    && |keyLens| == |runLens| && Sum(keyLens) == |arena| && Sum(runLens) == |postings|
    && (forall i | 0 <= i < |keyLens| :: 1 <= keyLens[i] && 1 <= runLens[i] <= MAX_RUN && At(runLens, i) <= MAX_OFF)
    && (forall i, j | 0 <= i < j < |keyLens| :: KeyAt(arena, keyLens, i) != KeyAt(arena, keyLens, j))
    && forall p | 0 <= p < |postings| :: postings[p] != MAX_U32
  }

  /** The first n keys are in the map, each with its run. */
  ghost predicate Mapped(m: map<Key, nat>, arena: seq<byte>, keyLens: seq<int>, runLens: seq<int>, n: nat)
    requires n <= |keyLens| == |runLens|
  {
    && (forall i | 0 <= i < n :: 1 <= keyLens[i] && 1 <= runLens[i] <= MAX_RUN && 0 <= At(runLens, i) <= MAX_OFF)
    && (forall i | 0 <= i < n :: KeyAt(arena, keyLens, i) in m && KeyAt(arena, keyLens, i) != []
                                 && m[KeyAt(arena, keyLens, i)] == Pack(At(runLens, i), runLens[i]))
    && (forall i, j | 0 <= i < j < n :: KeyAt(arena, keyLens, i) != KeyAt(arena, keyLens, j))
    && forall k | k in m :: exists i: nat :: i < n && KeyAt(arena, keyLens, i) == k
  }

  /** Rebuilds the index from its sections, or refuses them. */
  method Restore(arena: seq<byte>, keyLens: seq<int>, runLens: seq<int>, postings: seq<nat>)
    returns (ok: bool, idx: Index)
    requires forall p | 0 <= p < |postings| :: postings[p] <= MAX_U32
    ensures ok <==> Restorable(arena, keyLens, runLens, postings)
    ensures ok ==> idx.arena == arena && idx.postings == postings && idx.Valid()
    ensures ok ==> Mapped(idx.m, arena, keyLens, runLens, |keyLens|)
  {
    hide At, Sum, Pack, KeyAt, Mapped, Index.Valid;
    idx := Index(map[], arena, postings, 0);
    if |keyLens| != |runLens| {
      return false, idx;
    }
    var m: map<Key, nat> := map[];
    var aOff, pOff := 0, 0;
    AtEnds(keyLens);
    AtEnds(runLens);
    NothingMapped(arena, keyLens, runLens);
    for i := 0 to |keyLens|
      invariant 0 <= aOff == At(keyLens, i) <= |arena| && 0 <= pOff == At(runLens, i) <= |postings|
      invariant Mapped(m, arena, keyLens, runLens, i)
    {
      var kl, rl := keyLens[i], runLens[i];
      AtNext(keyLens, i);
      AtNext(runLens, i);
      if Restorable(arena, keyLens, runLens, postings) {
        AtGrows(keyLens, i, i + 1);
        AtGrows(runLens, i, i + 1);
      }
      if kl < 1 || kl > |arena| - aOff {
        return false, idx;
      }
      if rl < 1 || rl > MAX_RUN || rl > |postings| - pOff || pOff > MAX_OFF {
        return false, idx;
      }
      var k := arena[aOff..aOff + kl];
      KeyIs(arena, keyLens, i);
      if k in m {
        MappedKey(m, arena, keyLens, runLens, i, k);
        return false, idx;
      }
      MapNext(m, arena, keyLens, runLens, i, k);
      m := m[k := Pack(pOff, rl)];
      aOff, pOff := aOff + kl, pOff + rl;
    }
    if aOff != |arena| || pOff != |postings| {
      return false, idx;
    }
    var numOrds := 0;
    NoOrds();
    for p := 0 to |postings|
      invariant NumOrdsOf(postings[..p], numOrds) && forall q | 0 <= q < p :: postings[q] != MAX_U32
    {
      var o := postings[p];
      if o == MAX_U32 {
        return false, idx;
      }
      OrdNext(postings, p, numOrds);
      if o + 1 > numOrds {
        numOrds := o + 1;
      }
    }
    assert postings[..|postings|] == postings;
    idx := Index(m, arena, postings, numOrds);
    MappedIsValid(idx, keyLens, runLens);
    MappedApart(m, arena, keyLens, runLens);
    ok := true;
  }

  lemma NothingMapped(arena: seq<byte>, keyLens: seq<int>, runLens: seq<int>)
    requires |keyLens| == |runLens|
    ensures Mapped(map[], arena, keyLens, runLens, 0)
  {
  }

  lemma KeyIs(arena: seq<byte>, keyLens: seq<int>, i: nat)
    requires i < |keyLens| && 0 <= At(keyLens, i) && 0 <= keyLens[i] && At(keyLens, i) + keyLens[i] <= |arena|
    ensures KeyAt(arena, keyLens, i) == arena[At(keyLens, i)..At(keyLens, i) + keyLens[i]]
  {
  }

  lemma MappedKey(m: map<Key, nat>, arena: seq<byte>, keyLens: seq<int>, runLens: seq<int>, n: nat, k: Key)
    requires n <= |keyLens| == |runLens| && Mapped(m, arena, keyLens, runLens, n) && k in m
    ensures exists i: nat :: i < n && KeyAt(arena, keyLens, i) == k
  {
  }

  lemma MapNext(m: map<Key, nat>, arena: seq<byte>, keyLens: seq<int>, runLens: seq<int>, n: nat, k: Key)
    requires n < |keyLens| == |runLens| && Mapped(m, arena, keyLens, runLens, n) && k !in m && k != []
    requires k == KeyAt(arena, keyLens, n)
    requires 1 <= keyLens[n] && 1 <= runLens[n] <= MAX_RUN && 0 <= At(runLens, n) <= MAX_OFF
    ensures Mapped(m[k := Pack(At(runLens, n), runLens[n])], arena, keyLens, runLens, n + 1)
  {
    hide At, Pack, KeyAt;
    var t := m[k := Pack(At(runLens, n), runLens[n])];
    forall l | l in t ensures exists i: nat :: i < n + 1 && KeyAt(arena, keyLens, i) == l {
      if l == k {
        assert KeyAt(arena, keyLens, n) == l;
      } else {
        MappedKey(m, arena, keyLens, runLens, n, l);
      }
    }
  }

  lemma NoOrds()
    ensures NumOrdsOf([], 0)
  {
  }

  lemma OrdNext(postings: seq<nat>, p: nat, n: nat)
    requires p < |postings| && NumOrdsOf(postings[..p], n)
    ensures NumOrdsOf(postings[..p + 1], if postings[p] + 1 > n then postings[p] + 1 else n)
  {
    assert postings[..p + 1] == postings[..p] + [postings[p]];
    assert postings[p] in postings[..p + 1];
    assert n > 0 ==> n - 1 in postings[..p + 1];
    assert forall q | 0 <= q < p :: postings[..p][q] == postings[q];
  }

  lemma RunFits(idx: Index, keyLens: seq<int>, runLens: seq<int>, k: Key) returns (i: nat)
    requires |keyLens| == |runLens| && Mapped(idx.m, idx.arena, keyLens, runLens, |keyLens|) && k in idx.m
    requires Sum(runLens) == |idx.postings|
    ensures i < |keyLens| && KeyAt(idx.arena, keyLens, i) == k && k != []
    ensures Off(idx.m[k]) == At(runLens, i) && Len(idx.m[k]) == runLens[i] >= 1
    ensures At(runLens, i) + runLens[i] <= |idx.postings|
  {
    hide At, Sum, Pack, KeyAt, Off, Len;
    i :| i < |keyLens| && KeyAt(idx.arena, keyLens, i) == k;
    RunOf(idx.m, idx.arena, keyLens, runLens, i);
    AtNext(runLens, i);
    AtGrows(runLens, i + 1, |keyLens|);
    AtEnds(runLens);
  }

  lemma RunsApart(idx: Index, keyLens: seq<int>, runLens: seq<int>, k: Key, l: Key)
    requires |keyLens| == |runLens| && Mapped(idx.m, idx.arena, keyLens, runLens, |keyLens|)
    requires Sum(runLens) == |idx.postings|
    requires k in idx.m && l in idx.m && k != l
    ensures Off(idx.m[k]) + Len(idx.m[k]) <= Off(idx.m[l]) || Off(idx.m[l]) + Len(idx.m[l]) <= Off(idx.m[k])
  {
    hide At, Sum, Pack, KeyAt, Off, Len;
    var i := RunFits(idx, keyLens, runLens, k);
    var j := RunFits(idx, keyLens, runLens, l);
    if i < j {
      AtApart(runLens, i, j);
    } else {
      AtApart(runLens, j, i);
    }
  }

  /** The runs restored partition the postings. */
  lemma MappedIsValid(idx: Index, keyLens: seq<int>, runLens: seq<int>)
    requires |keyLens| == |runLens| && Mapped(idx.m, idx.arena, keyLens, runLens, |keyLens|)
    requires Sum(runLens) == |idx.postings| && NumOrdsOf(idx.postings, idx.numOrds)
    ensures idx.Valid()
  {
    hide At, Sum, Pack, KeyAt, Off, Len, NumOrdsOf;
    forall k | k in idx.m ensures k != [] && 1 <= Len(idx.m[k]) && Off(idx.m[k]) + Len(idx.m[k]) <= |idx.postings| {
      var i := RunFits(idx, keyLens, runLens, k);
    }
    forall k, l | k in idx.m && l in idx.m && k != l
      ensures Off(idx.m[k]) + Len(idx.m[k]) <= Off(idx.m[l]) || Off(idx.m[l]) + Len(idx.m[l]) <= Off(idx.m[k])
    {
      RunsApart(idx, keyLens, runLens, k, l);
    }
    forall p: nat | p < |idx.postings| ensures idx.Covered(p) {
      AtEnds(runLens);
      AtCovers(runLens, p, |runLens|);
      var i: nat :| i < |runLens| && At(runLens, i) <= p < At(runLens, i) + runLens[i];
      RunOf(idx.m, idx.arena, keyLens, runLens, i);
      assert Covers(idx.m[KeyAt(idx.arena, keyLens, i)], p);
    }
  }

  lemma RunOf(m: map<Key, nat>, arena: seq<byte>, keyLens: seq<int>, runLens: seq<int>, i: nat)
    requires i < |keyLens| == |runLens| && Mapped(m, arena, keyLens, runLens, |keyLens|)
    ensures var k := KeyAt(arena, keyLens, i);
            k in m && k != [] && Off(m[k]) == At(runLens, i) && Len(m[k]) == runLens[i]
  {
    hide At, KeyAt, Pack, Off, Len;
    PackReads(At(runLens, i), runLens[i]);
  }

  lemma MappedApart(m: map<Key, nat>, arena: seq<byte>, keyLens: seq<int>, runLens: seq<int>)
    requires |keyLens| == |runLens| && Mapped(m, arena, keyLens, runLens, |keyLens|)
    ensures forall i | 0 <= i < |keyLens| :: 1 <= keyLens[i] && 1 <= runLens[i] <= MAX_RUN && At(runLens, i) <= MAX_OFF
    ensures forall i, j | 0 <= i < j < |keyLens| :: KeyAt(arena, keyLens, i) != KeyAt(arena, keyLens, j)
  {
    hide At, KeyAt, Pack;
  }
}
