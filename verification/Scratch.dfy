/** The pooled accumulator of a lookup (engine/ngram/ngram.go:39-47, 209-242):
    dense counts plus the list of touched ordinals, both preallocated at
    exactly numOrds. */
module ScratchPool {
  import opened Seqs

  /** The touched list names exactly the ordinals with a nonzero count, once each. */
  ghost predicate Tracks(c: seq<real>, ts: seq<nat>) {
    && NoDup(ts)
    && (forall o | o in ts :: o < |c|)
    && (forall o: nat | o < |c| :: c[o] >= 0.0 && (c[o] > 0.0 <==> o in ts))
  }

  lemma TouchTracks(c: seq<real>, ts: seq<nat>, ord: nat, w: real)
    requires Tracks(c, ts) && ord < |c| && w > 0.0
    ensures Tracks(c[ord := c[ord] + w], if c[ord] == 0.0 then ts + [ord] else ts)
  {
  }

  ghost function Below(n: nat): (s: set<nat>)
    ensures |s| == n
    ensures forall o: nat :: o in s <==> o < n
  {
    if n == 0 then {} else Below(n - 1) + {n - 1}
  }

  /** A repetition-free list of ordinals is at most numOrds long. */
  lemma TouchedFits(ts: seq<nat>, n: nat)
    requires NoDup(ts) && forall o | o in ts :: o < n
    ensures |ts| <= n
  {
    NoDupSize(ts);
    SubsetSize(Elems(ts), Below(n));
  }

  class Scratch {
    const counts: array<real>
    const touched: array<nat>
    var n: nat

    ghost predicate Valid()
      reads this, counts, touched
    {
      && counts.Length == touched.Length
      && n <= touched.Length
      && Tracks(counts[..], touched[..n])
    }

    /** What the pool holds: every count zero, nothing touched. */
    ghost predicate Clean()
      reads this, counts, touched
    {
      && counts.Length == touched.Length
      && n == 0
      && forall o | 0 <= o < counts.Length :: counts[o] == 0.0
    }

    constructor (numOrds: nat)
      ensures Clean() && counts.Length == numOrds
      ensures fresh(counts) && fresh(touched)
    {
      counts := new real[numOrds](_ => 0.0);
      touched := new nat[numOrds](_ => 0);
      n := 0;
    }

    /** Add weight w to every ordinal of one posting list. The scan polls for
        cancellation; canceled or not, the touched list stays exact. */
    method AddGram(bm: seq<nat>, w: real, background: bool) returns (canceled: bool)
      requires Valid() && w > 0.0
      requires NoDup(bm) && forall o | o in bm :: o < counts.Length
      modifies this`n, counts, touched
      ensures Valid()
      ensures background ==> !canceled
      ensures !canceled ==>
                forall o | 0 <= o < counts.Length :: counts[o] == old(counts[o]) + if o in bm then w else 0.0
    {
      for j := 0 to |bm|
        invariant Valid()
        invariant forall o | 0 <= o < counts.Length ::
                    counts[o] == old(counts[o]) + if o in bm[..j] then w else 0.0
      {
        if !background {
          canceled := *;
          if canceled {
            return;
          }
        }
        var ord := bm[j];
        assert ord in bm;
        TouchTracks(counts[..], touched[..n], ord, w);
        ghost var c, ts := counts[..], touched[..n];
        if counts[ord] == 0.0 {
          TouchedFits(ts + [ord], counts.Length);
          touched[n] := ord;
          n := n + 1;
          assert touched[..n] == ts + [ord];
        }
        counts[ord] := counts[ord] + w;
        assert counts[..] == c[ord := c[ord] + w];
        assert bm[..j + 1] == bm[..j] + [ord];
        assert ord !in bm[..j];
      }
      assert bm[..|bm|] == bm;
      canceled := false;
    }

    /** putScratch: zero what was touched, so the pool gets back a clean buffer. */
    method Reset()
      requires Valid()
      modifies this`n, counts
      ensures Clean()
    {
      for t := 0 to n
        invariant n == old(n) && n <= touched.Length == counts.Length
        invariant touched[..n] == old(touched[..n])
        invariant forall o | o in touched[..n] :: o < counts.Length
        invariant forall o | 0 <= o < counts.Length :: counts[o] != 0.0 ==> o in touched[t..n]
      {
        assert touched[t] in touched[..n];
        assert touched[t..n] == [touched[t]] + touched[t + 1..n];
        counts[touched[t]] := 0.0;
      }
      n := 0;
    }
  }
}
