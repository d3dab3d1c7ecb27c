/** Hits and the order they are returned in (engine/ngram/ngram.go:438-443):
    score descending, ordinal ascending. `Rank` is the reference: collect
    everything, sort; a top-K result is a prefix of it. */
module Ranking {
  import opened Seqs

  datatype Hit = Hit(ord: nat, score: real)

  /** a ranks strictly worse than b. */
  predicate Worse(a: Hit, b: Hit) {
    if a.score != b.score then a.score < b.score else a.ord > b.ord
  }

  lemma WorseIsTotalOrder(a: Hit, b: Hit, c: Hit)
    ensures !Worse(a, a)
    ensures a == b || Worse(a, b) || Worse(b, a)
    ensures !(Worse(a, b) && Worse(b, a))
    ensures Worse(a, b) && Worse(b, c) ==> Worse(a, c)
  {
  }

  ghost predicate BeatsAll(h: Hit, s: set<Hit>) {
    forall x | x in s :: Worse(x, h)
  }

  /** A non-empty set of hits has a best one. */
  lemma {:induction false} BestExists(s: set<Hit>)
    requires s != {}
    ensures exists best :: best in s && BeatsAll(best, s - {best})
    decreases |s|
  {
    var h :| h in s;
    if s == {h} {
      assert BeatsAll(h, s - {h});
    } else {
      BestExists(s - {h});
      var best :| best in s - {h} && BeatsAll(best, s - {h} - {best});
      if Worse(best, h) {
        forall x | x in s - {h} ensures Worse(x, h) {
          assert x == best || x in s - {h} - {best};
        }
        assert BeatsAll(h, s - {h});
      } else {
        forall x | x in s - {best} ensures Worse(x, best) {
          assert x == h || x in s - {h} - {best};
        }
        assert BeatsAll(best, s - {best});
      }
    }
  }

  /** All hits of s, best first. */
  ghost function Rank(s: set<Hit>): (r: seq<Hit>)
    ensures |r| == |s|
  {
    if s == {} then []
    else
      BestExists(s);
      var best :| best in s && BeatsAll(best, s - {best});
      [best] + Rank(s - {best})
  }

  predicate Sorted(r: seq<Hit>) {
    forall i, j | 0 <= i < j < |r| :: Worse(r[j], r[i])
  }

  lemma SortedNoDup(r: seq<Hit>)
    requires Sorted(r)
    ensures NoDup(r)
  {
  }

  /** t is a set of best hits of s: whatever was left out is worse. */
  ghost predicate Best(t: set<Hit>, s: set<Hit>) {
    t <= s && forall x, y | x in s - t && y in t :: Worse(x, y)
  }

  /** A sorted list of best hits is a prefix of the full ranking. */
  lemma {:induction false} SortedIsPrefix(r: seq<Hit>, s: set<Hit>)
    requires Sorted(r) && Best(Elems(r), s)
    ensures |r| <= |s| && r == Rank(s)[..|r|]
  {
    if r != [] {
      var h := r[0];
      assert h in Elems(r);
      forall x | x in s - {h} ensures Worse(x, h) {
        if x in Elems(r) {
          var i :| 0 <= i < |r| && r[i] == x;
        }
      }
      var best := Rank(s)[0];
      assert best in s && BeatsAll(best, s - {best});
      assert (best == h || best in s - {h}) && (h == best || h in s - {best});
      assert best == h;
      SortedNoDup(r);
      assert Elems(r[1..]) == Elems(r) - {h};
      SortedIsPrefix(r[1..], s - {h});
      assert r == [h] + r[1..];
      assert Rank(s) == [h] + Rank(s - {h});
    }
  }

  lemma ElemsCons(h: Hit, r: seq<Hit>)
    ensures Elems([h] + r) == {h} + Elems(r)
  {
    forall x ensures x in [h] + r <==> x == h || x in r {
    }
  }

  lemma RankIsSorted(s: set<Hit>)
    ensures Sorted(Rank(s)) && Elems(Rank(s)) == s
    decreases |s|
  {
    if s != {} {
      var r := Rank(s);
      var best := r[0];
      hide Worse;
      RankIsSorted(s - {best});
      assert r == [best] + Rank(s - {best});
      forall i, j | 0 <= i < j < |r| ensures Worse(r[j], r[i]) {
        if i == 0 {
          assert r[j] in Elems(Rank(s - {best}));
        }
      }
      ElemsCons(best, Rank(s - {best}));
    }
  }

  /** What a top-K lookup returns: all of it when k is 0 (unlimited). */
  ghost function TopK(s: set<Hit>, k: int): seq<Hit> {
    if k <= 0 || |s| <= k then Rank(s) else Rank(s)[..k]
  }

  /** A sorted list of best hits, as long as it may be, is the top-K. */
  lemma SortedIsTopK(r: seq<Hit>, s: set<Hit>, k: int)
    requires Sorted(r) && Best(Elems(r), s)
    requires |r| == if k <= 0 || |s| <= k then |s| else k
    ensures r == TopK(s, k)
  {
    SortedIsPrefix(r, s);
  }
}
