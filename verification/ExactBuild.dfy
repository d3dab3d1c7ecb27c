/** The exact index of a segment (engine/list.go:314-381,
    engine/exact/exact.go:77-160): which entries can be indexed, and what the
    packed index of those that can gives the exact queries. */
module ExactBuild {
  import opened Bytes
  import opened Seqs
  import opened Options
  import opened ListModel
  import opened ListState
  import X = ExactIndex
  import Q = ExactQuery
  import P = ExactParent
  import F = ExactLayout
  import C = ExactCode

  type Key = seq<byte>

  // ---------------------------------------------------------- what is added

  /** An entry's analyzed keys; those the analyzer leaves nothing of are dropped. */
  function Analyzed(rules: Q.Rules, keys: seq<Key>): seq<Key> {
    if keys == [] then []
    else Analyzed(rules, keys[..|keys| - 1]) + (var a := rules.norm(keys[|keys| - 1]); if a == [] then [] else [a])
  }

  lemma {:induction false} AnalyzedAre(rules: Q.Rules, keys: seq<Key>, k: Key)
    ensures k in Analyzed(rules, keys) <==> k != [] && exists i | 0 <= i < |keys| :: rules.norm(keys[i]) == k
    ensures |Analyzed(rules, keys)| <= |keys|
    decreases |keys|
  {
    if keys != [] {
      AnalyzedAre(rules, keys[..|keys| - 1], k);
    }
  }

  /** What buildSegment adds, in order. */
  function LogOf(rules: Q.Rules, entries: seq<Entry>): (log: X.Log)
    ensures |log| == |entries|
    ensures forall i | 0 <= i < |log| :: log[i] == (i, Analyzed(rules, entries[i].keys))
  {
    seq(|entries|, (i: nat) requires i < |entries| => (i, Analyzed(rules, entries[i].keys)))
  }

  ghost function Holders(rules: Q.Rules, entries: seq<Entry>, key: Key): set<nat> {
    set o: nat | o < |entries| && Q.Holds(rules, entries[o], key)
  }

  lemma AddedIsHeld(rules: Q.Rules, entries: seq<Entry>, k: Key, o: nat)
    ensures X.Added(LogOf(rules, entries), k, o) <==> o < |entries| && Q.Holds(rules, entries[o], k)
  {
    var log := LogOf(rules, entries);
    if o < |entries| {
      AnalyzedAre(rules, entries[o].keys, k);
      assert log[o].0 == o;
    }
  }

  /** No key is held by more entries than a run can list. */
  ghost predicate RunsFit(rules: Q.Rules, entries: seq<Entry>) {
    forall key :: |Holders(rules, entries, key)| <= X.MAX_RUN
  }

  /** The builder a list's indexes are built by. */
  ghost function RunCap(rules: Q.Rules): Builder {
    entries => RunsFit(rules, entries)
  }

  /** What is dropped and what is analyzed are all the keys. */
  lemma {:induction false} DroppedOrAnalyzed(rules: Q.Rules, keys: seq<Key>)
    ensures DroppedKeys(rules.norm, keys) + |Analyzed(rules, keys)| == |keys|
  {
    if keys != [] {
      DroppedOrAnalyzed(rules, keys[..|keys| - 1]);
    }
  }

  /** An entry counted as keyless is one that has keys and that no lookup finds. */
  lemma KeylessIsUnfindable(rules: Q.Rules, e: Entry)
    ensures Keyless(rules.norm, e) <==> e.keys != [] && forall key :: !Q.Holds(rules, e, key)
  {
    hide Analyzed, DroppedKeys;
    DroppedOrAnalyzed(rules, e.keys);
    var a := Analyzed(rules, e.keys);
    if a == [] {
      forall key ensures !Q.Holds(rules, e, key) {
        AnalyzedAre(rules, e.keys, key);
      }
    } else {
      AnalyzedAre(rules, e.keys, a[0]);
      assert Q.Holds(rules, e, a[0]);
    }
  }

  // --------------------------------------------------------------- run lengths

  lemma RunIsHolders(rules: Q.Rules, entries: seq<Entry>, runs: X.Runs, k: Key)
    requires X.Indexes(runs, LogOf(rules, entries))
    ensures |Holders(rules, entries, k)| == if k in runs then |runs[k]| else 0
  {
    hide X.Added, Q.Holds, LogOf;
    forall o: nat ensures o in Holders(rules, entries, k) <==> X.Posted(runs, k, o) {
      AddedIsHeld(rules, entries, k, o);
      assert X.Posted(runs, k, o) <==> X.Added(LogOf(rules, entries), k, o);
    }
    if k in runs {
      assert Elems(runs[k]) == Holders(rules, entries, k);
      NoDupSize(runs[k]);
    } else {
      assert Holders(rules, entries, k) == {};
    }
  }

  /** The pairs of key and ordinal that are posted. */
  ghost function PairsOf(runs: X.Runs): set<(Key, nat)> {
    set k, i | k in runs && 0 <= i < |runs[k]| :: (k, runs[k][i])
  }

  lemma {:induction false} TotalIsPairs(runs: X.Runs)
    requires X.Orderly(runs)
    ensures X.Total(runs) == |PairsOf(runs)|
    decreases |runs|
  {
    hide X.Ascending;
    if runs == map[] {
      assert PairsOf(runs) == {};
    } else {
      var k :| k in runs;
      X.TotalPush(runs, k);
      X.Shrinks(runs, k);
      var rest := runs - {k};
      TotalIsPairs(rest);
      OneRunPairs(k, runs[k]);
      var here := set i | 0 <= i < |runs[k]| :: (k, runs[k][i]);
      forall p ensures p in PairsOf(runs) <==> p in here + PairsOf(rest) {
        if p in PairsOf(runs) {
          assert p.0 in runs && p.1 in runs[p.0];
          var i :| 0 <= i < |runs[p.0]| && runs[p.0][i] == p.1;
          assert p.0 != k ==> p.0 in rest && rest[p.0][i] == p.1;
        }
      }
      assert PairsOf(runs) == here + PairsOf(rest);
    }
  }

  lemma OneRunPairs(k: Key, run: seq<nat>)
    requires X.Ascending(run)
    ensures |set i | 0 <= i < |run| :: (k, run[i])| == |run|
    decreases |run|
  {
    var all := set i | 0 <= i < |run| :: (k, run[i]);
    if run == [] {
      assert all == {};
    } else {
      var short := run[..|run| - 1];
      OneRunPairs(k, short);
      var fewer := set i | 0 <= i < |short| :: (k, short[i]);
      var last := (k, run[|run| - 1]);
      assert all == fewer + {last};
      assert last !in fewer;
    }
  }

  ghost function PairsTo(rules: Q.Rules, entries: seq<Entry>, n: nat): set<(Key, nat)>
    requires n <= |entries|
  {
    set o: nat, k | o < n && k in Analyzed(rules, entries[o].keys) :: (k, o)
  }

  lemma {:induction false} AtMostLength<T>(s: seq<T>)
    ensures |Elems(s)| <= |s|
  {
    if s != [] {
      AtMostLength(s[1..]);
      assert Elems(s) == {s[0]} + Elems(s[1..]);
    }
  }

  lemma {:induction false} PairsBound(rules: Q.Rules, entries: seq<Entry>, n: nat)
    requires n <= |entries|
    ensures |PairsTo(rules, entries, n)| <= KeysOf(entries[..n])
  {
    hide Analyzed;
    if n > 0 {
      PairsBound(rules, entries, n - 1);
      assert entries[..n][..n - 1] == entries[..n - 1];
      var a := Analyzed(rules, entries[n - 1].keys);
      AnalyzedAre(rules, entries[n - 1].keys, []);
      var here := seq(|a|, (i: nat) requires i < |a| => (a[i], n - 1));
      AtMostLength(here);
      forall k | k in a ensures (k, n - 1) in Elems(here) {
        var i :| 0 <= i < |a| && a[i] == k;
        assert here[i] == (k, n - 1);
      }
      SubsetSize(PairsTo(rules, entries, n), PairsTo(rules, entries, n - 1) + Elems(here));
    }
  }

  /** Postings are never more than keys. */
  lemma PostingsBound(rules: Q.Rules, entries: seq<Entry>, runs: X.Runs)
    requires X.Indexes(runs, LogOf(rules, entries))
    ensures X.Total(runs) <= KeysOf(entries)
  {
    hide LogOf, X.Added, X.Total;
    TotalIsPairs(runs);
    PairsBound(rules, entries, |entries|);
    assert entries[..|entries|] == entries;
    forall k, o: nat | (k, o) in PairsOf(runs) ensures (k, o) in PairsTo(rules, entries, |entries|) {
      assert X.Posted(runs, k, o) <==> X.Added(LogOf(rules, entries), k, o);
      AddedIsHeld(rules, entries, k, o);
      AnalyzedAre(rules, entries[o].keys, k);
    }
    SubsetSize(PairsOf(runs), PairsTo(rules, entries, |entries|));
  }

  // ------------------------------------------------------------------ building

  /** Analyzes one entry's keys. */
  method AnalyzeKeys(rules: Q.Rules, keys: seq<Key>) returns (out: seq<Key>)
    ensures out == Analyzed(rules, keys)
  {
    out := [];
    for i := 0 to |keys|
      invariant out == Analyzed(rules, keys[..i])
    {
      assert keys[..i + 1][..i] == keys[..i];
      var a := rules.norm(keys[i]);
      if a != [] {
        out := out + [a];
      }
    }
    assert keys[..|keys|] == keys;
  }

  /** The lookup of a packed index. */
  function Search(idx: X.Index): Key -> seq<nat> {
    k =>
      if k in idx.m && X.Off(idx.m[k]) + X.Len(idx.m[k]) <= |idx.postings|
      then idx.postings[X.Off(idx.m[k])..X.Off(idx.m[k]) + X.Len(idx.m[k])] else []
  }

  lemma SearchIsLookup(idx: X.Index, k: Key)
    requires idx.Valid()
    ensures Search(idx)(k) == idx.Lookup(k)
  {
  }

  /** A packed index over the entries' keys is the index exact queries ask for. */
  lemma PackedIsGood(rules: Q.Rules, entries: seq<Entry>, runs: X.Runs, idx: X.Index)
    requires DistinctIds(entries) && idx.Means(runs) && X.Indexes(runs, LogOf(rules, entries))
    ensures Q.GoodIndex(rules, Q.Indexed(entries, Search(idx)))
  {
    hide X.Index.Valid, X.Indexes, Q.Holds, LogOf, Search, X.Added, DistinctIds, X.Index.Lookup;
    forall key
      ensures NoDup(Search(idx)(key))
      ensures forall o: nat :: o in Search(idx)(key) <==> o < |entries| && Q.Holds(rules, entries[o], key)
    {
      SearchIsLookup(idx, key);
      X.LookupFindsHolders(idx, runs, LogOf(rules, entries), key);
      forall o: nat ensures o in Search(idx)(key) <==> o < |entries| && Q.Holds(rules, entries[o], key) {
        AddedIsHeld(rules, entries, key, o);
      }
    }
  }

  /** So is an index read back from the section or the file the packed one was
      written to. */
  lemma ReadBackIsGood(rules: Q.Rules, entries: seq<Entry>, runs: X.Runs, idx: X.Index, f: F.Flat, back: X.Index)
    requires DistinctIds(entries) && idx.Means(runs) && X.Indexes(runs, LogOf(rules, entries))
    requires C.Lists(f, idx) && back.Valid() && C.Lists(f, back)
    ensures Q.GoodIndex(rules, Q.Indexed(entries, Search(back)))
  {
    hide X.Index.Valid, X.Indexes, Q.Holds, LogOf, DistinctIds, X.Index.Lookup, C.Lists, Search;
    PackedIsGood(rules, entries, runs, idx);
    forall key ensures Search(back)(key) == Search(idx)(key) {
      C.SameLookups(f, idx, back, key);
      SearchIsLookup(idx, key);
      SearchIsLookup(back, key);
    }
  }

  /** The exact index of a segment. It is refused exactly when some key is held
      by too many entries, short of lists no machine holds. */
  method BuildExact(rules: Q.Rules, entries: seq<Entry>) returns (r: X.Outcome)
    requires |entries| <= X.MAX_U32 + 1
    ensures r.KeyOverflow? <==> !RunsFit(rules, entries)
    ensures r.KeyOverflow? ==> |Holders(rules, entries, r.key)| > X.MAX_RUN
    ensures r.Refused? ==> |entries| > X.MAX_U32 || KeysOf(entries) > X.MAX_OFF
    ensures r.Built? && DistinctIds(entries) ==> Q.GoodIndex(rules, Q.Indexed(entries, Search(r.index)))
  {
    hide Holders, X.Index.Means, X.Indexes, Search, Analyzed, KeysOf, DistinctIds, Q.GoodIndex, X.Total, X.Posted;
    var b := new X.Builder();
    for i := 0 to |entries|
      invariant b.Valid() && fresh(b)
      invariant b.log == LogOf(rules, entries)[..i]
    {
      var keys := AnalyzeKeys(rules, entries[i].keys);
      b.Add(i, keys);
    }
    assert LogOf(rules, entries)[..|entries|] == LogOf(rules, entries);
    ghost var runs := b.m;
    assert X.Indexes(runs, LogOf(rules, entries));
    ghost var order;
    r, order := b.Finish();
    X.PacksUnless(runs, order);
    forall k ensures |Holders(rules, entries, k)| == if k in runs then |runs[k]| else 0 {
      RunIsHolders(rules, entries, runs, k);
    }
    PostingsBound(rules, entries, runs);
    OrdinalsBelow(rules, entries, runs);
    if r.Built? && DistinctIds(entries) {
      PackedIsGood(rules, entries, runs, r.index);
    }
  }

  /** Analyzes and indexes entries: the segment, and its exact index when the
      list has one. Only too many holders of one key make it fail. */
  method BuildSegment(rules: Q.Rules, exact: bool, entries: seq<Entry>)
    returns (seg: Option<Segment>, index: Option<X.Index>)
    requires |entries| <= X.MAX_U32 && KeysOf(entries) <= X.MAX_OFF && DistinctIds(entries)
    ensures seg.Some? <==> exact ==> RunsFit(rules, entries)
    ensures seg.Some? ==> seg.value.Valid() && seg.value.entries == entries
    ensures seg.Some? ==> seg.value.Truthful(rules.norm) && seg.value.losses.unindexed == 0
    ensures seg.Some? ==> index.Some? == exact
    ensures index.Some? ==> Q.GoodIndex(rules, Q.Indexed(entries, Search(index.value)))
  {
    hide RunsFit, DistinctIds, KeysOf, Q.GoodIndex, Segment.Valid, Segment.Truthful;
    var fits := true;
    index := None;
    if exact {
      var r := BuildExact(rules, entries);
      fits := r.Built?;
      if fits {
        index := Some(r.index);
      }
    }
    seg := ListModel.BuildSegment(entries, rules.norm, es => fits);
  }

  lemma OrdinalsBelow(rules: Q.Rules, entries: seq<Entry>, runs: X.Runs)
    requires X.Indexes(runs, LogOf(rules, entries))
    ensures X.Below(runs, |entries|)
  {
    hide LogOf, X.Added;
    forall k, o: nat | X.Posted(runs, k, o) ensures o < |entries| {
      assert X.Posted(runs, k, o) <==> X.Added(LogOf(rules, entries), k, o);
      AddedIsHeld(rules, entries, k, o);
    }
  }

  /** Base and overlay with their packed indexes: a snapshot the exact queries
      answer over, which stands for the live map. */
  method BuildSnapshot(rules: Q.Rules, base: seq<Entry>, overlay: seq<Entry>, tomb: set<Id>)
    returns (s: Option<Q.Snapshot>)
    requires |base| <= X.MAX_U32 && KeysOf(base) <= X.MAX_OFF && DistinctIds(base)
    requires |overlay| <= X.MAX_U32 && KeysOf(overlay) <= X.MAX_OFF && DistinctIds(overlay)
    requires Coherent(LastWins(base), Overlay(LastWins(overlay), tomb))
    ensures s.Some? <==> RunsFit(rules, base) && RunsFit(rules, overlay)
    ensures s.Some? ==> Q.Good(rules, s.value)
    ensures s.Some? ==> Q.LiveIn(s.value) == LiveOf(LastWins(base), Overlay(LastWins(overlay), tomb))
  {
    hide RunsFit, DistinctIds, KeysOf, LastWins, Q.GoodIndex, Coherent;
    var b := BuildExact(rules, base);
    if !b.Built? {
      return None;
    }
    var o := BuildExact(rules, overlay);
    if !o.Built? {
      return None;
    }
    return Some(Q.Snapshot(Q.Indexed(base, Search(b.index)), Q.Indexed(overlay, Search(o.index)), tomb));
  }

  /** An any-of query over packed indexes. */
  method AnyOfPacked(rules: Q.Rules, base: seq<Entry>, overlay: seq<Entry>, tomb: set<Id>, terms: seq<Key>, k: int)
    returns (out: Option<seq<Q.Cand>>)
    requires |base| <= X.MAX_U32 && KeysOf(base) <= X.MAX_OFF && DistinctIds(base)
    requires |overlay| <= X.MAX_U32 && KeysOf(overlay) <= X.MAX_OFF && DistinctIds(overlay)
    requires Coherent(LastWins(base), Overlay(LastWins(overlay), tomb))
    ensures out.Some? <==> RunsFit(rules, base) && RunsFit(rules, overlay)
    ensures out.Some? ==>
              Q.AnyOfAnswer(out.value, LiveOf(LastWins(base), Overlay(LastWins(overlay), tomb)), rules, terms, k)
  {
    hide RunsFit, DistinctIds, KeysOf, LastWins, Q.Good, Coherent, Q.AnyOfAnswer, Q.LiveIn;
    var s := BuildSnapshot(rules, base, overlay, tomb);
    if s.None? {
      return None;
    }
    var canceled, cands := Q.AnyOf(rules, s.value, terms, k, true);
    return Some(cands);
  }

  /** An exact-mode query over packed indexes. */
  method QueryPacked(rules: Q.Rules, base: seq<Entry>, overlay: seq<Entry>, tomb: set<Id>, q: Key, fallback: bool,
                     thr: real, k: int)
    returns (out: Option<seq<P.Hit>>)
    requires |base| <= X.MAX_U32 && KeysOf(base) <= X.MAX_OFF && DistinctIds(base)
    requires |overlay| <= X.MAX_U32 && KeysOf(overlay) <= X.MAX_OFF && DistinctIds(overlay)
    requires Coherent(LastWins(base), Overlay(LastWins(overlay), tomb))
    ensures out.Some? <==> RunsFit(rules, base) && RunsFit(rules, overlay)
    ensures out.Some? ==> P.ExactAnswer(out.value, LiveOf(LastWins(base), Overlay(LastWins(overlay), tomb)), rules,
                                        P.Levels(q, fallback), thr, k)
  {
    hide RunsFit, DistinctIds, KeysOf, LastWins, Q.Good, Coherent, P.ExactAnswer, Q.LiveIn, P.Levels;
    var s := BuildSnapshot(rules, base, overlay, tomb);
    if s.None? {
      return None;
    }
    var canceled, hits := P.QueryExact(rules, s.value, q, fallback, thr, k, true);
    return Some(hits);
  }
}
