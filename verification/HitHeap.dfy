/** The bounded, worst-at-root selection of a lookup
    (engine/ngram/ngram.go:379-425, 445-469), in place on the hit buffer. */
module HitHeap {
  import opened Ranking
  import opened Seqs

  /** j is a heap child of p. */
  predicate Edge(p: nat, j: nat) {
    j == 2 * p + 1 || j == 2 * p + 2
  }

  /** Every node from lo on ranks no better than its children. */
  ghost predicate HeapFrom(s: seq<Hit>, lo: nat) {
    forall p: nat, j: nat | lo <= p && j < |s| && Edge(p, j) :: !Worse(s[j], s[p])
  }

  /** The same, except at one node being sifted down; its children already
      rank no worse than its parent. */
  ghost predicate HeapButAt(s: seq<Hit>, lo: nat, hole: nat) {
    && (forall p: nat, j: nat | lo <= p && p != hole && j < |s| && Edge(p, j) :: !Worse(s[j], s[p]))
    && (forall p: nat, j: nat | lo <= p && j < |s| && Edge(p, hole) && Edge(hole, j) :: !Worse(s[j], s[p]))
  }

  lemma SwapKeepsHits(s: seq<Hit>, i: nat, j: nat)
    requires i < |s| && j < |s|
    ensures multiset(s[i := s[j]][j := s[i]]) == multiset(s)
  {
  }

  lemma SiftStep(s: seq<Hit>, lo: nat, i: nat, w: nat)
    requires lo <= i && Edge(i, w) && w < |s| && HeapButAt(s, lo, i)
    requires !Worse(s[i], s[w]) && forall j: nat | j < |s| && Edge(i, j) :: !Worse(s[j], s[w])
    ensures HeapButAt(s[i := s[w]][w := s[i]], lo, w)
  {
    hide Worse;
  }

  /** Sift node i down until the heap holds from i on. */
  method Swap(h: array<Hit>, n: nat, i: nat, j: nat)
    requires i < n <= h.Length && j < n
    modifies h
    ensures h[..n] == old(h[..n][i := h[j]][j := h[i]]) && h[n..] == old(h[n..])
  {
    h[i], h[j] := h[j], h[i];
  }

  method SiftWorst(h: array<Hit>, n: nat, lo: nat)
    requires lo < n <= h.Length && HeapFrom(h[..n], lo + 1)
    modifies h
    ensures HeapFrom(h[..n], lo)
    ensures multiset(h[..n]) == old(multiset(h[..n])) && h[n..] == old(h[n..])
  {
    var i := lo;
    while true
      invariant lo <= i < n && HeapButAt(h[..n], lo, i)
      invariant multiset(h[..n]) == old(multiset(h[..n])) && h[n..] == old(h[n..])
      decreases n - i
    {
      var l, r := 2 * i + 1, 2 * i + 2;
      var w := i;
      WorseIsTotalOrder(h[i], h[i], h[i]);
      if l < n && Worse(h[l], h[w]) {
        w := l;
      }
      if r < n && Worse(h[r], h[w]) {
        w := r;
      }
      ghost var s := h[..n];
      assert !Worse(s[i], s[w]) && forall j: nat | j < |s| && Edge(i, j) :: !Worse(s[j], s[w]);
      if w == i {
        return;
      }
      assert Edge(i, w);
      SiftStep(s, lo, i, w);
      SwapKeepsHits(s, i, w);
      Swap(h, n, i, w);
      i := w;
    }
  }

  method HeapifyWorst(h: array<Hit>, n: nat)
    requires n <= h.Length
    modifies h
    ensures HeapFrom(h[..n], 0)
    ensures multiset(h[..n]) == old(multiset(h[..n])) && h[n..] == old(h[n..])
  {
    for i := n / 2 downto 0
      invariant HeapFrom(h[..n], i)
      invariant multiset(h[..n]) == old(multiset(h[..n])) && h[n..] == old(h[n..])
    {
      SiftWorst(h, n, i);
    }
  }

  /** The root of the heap is the worst hit in it. */
  lemma {:induction false} RootIsWorst(s: seq<Hit>, j: nat)
    requires HeapFrom(s, 0) && j < |s|
    ensures !Worse(s[j], s[0])
  {
    if j > 0 {
      var p := (j - 1) / 2;
      assert Edge(p, j);
      RootIsWorst(s, p);
    }
  }

  /** The buffer holds the best hits of those seen: all of them while they
      fit in k (k <= 0 is unlimited), else exactly k. */
  ghost predicate Selects(s: seq<Hit>, seen: set<Hit>, k: int) {
    && NoDup(s)
    && Best(Elems(s), seen)
    && |s| == if k <= 0 || |seen| <= k then |seen| else k
  }

  /** A rearrangement of the buffer selects the same hits. */
  lemma SameSelection(s: seq<Hit>, r: seq<Hit>, seen: set<Hit>, k: int)
    requires multiset(s) == multiset(r) && Selects(s, seen, k)
    ensures Selects(r, seen, k)
  {
    Rearranged(s, r);
  }

  lemma AppendSelects(s: seq<Hit>, seen: set<Hit>, k: int, h: Hit)
    requires Selects(s, seen, k) && h !in seen && (k <= 0 || |s| < k)
    ensures Selects(s + [h], seen + {h}, k)
  {
    NoDupSize(s);
    SubsetSize(Elems(s), seen);
    assert Elems(s + [h]) == Elems(s) + {h};
    assert h !in Elems(s);
    assert seen + {h} - Elems(s + [h]) == {};
  }

  lemma SkipSelects(s: seq<Hit>, seen: set<Hit>, k: int, h: Hit)
    requires Selects(s, seen, k) && h !in seen && k > 0 && |s| == k
    requires HeapFrom(s, 0) && Worse(h, s[0])
    ensures Selects(s, seen + {h}, k)
  {
    forall x, y | x in seen + {h} - Elems(s) && y in Elems(s) ensures Worse(x, y) {
      if x == h {
        var j :| 0 <= j < |s| && s[j] == y;
        RootIsWorst(s, j);
        WorseIsTotalOrder(h, s[0], y);
        WorseIsTotalOrder(y, s[0], y);
      }
    }
    NoDupSize(s);
  }

  lemma ReplaceSelects(s: seq<Hit>, seen: set<Hit>, k: int, h: Hit)
    requires Selects(s, seen, k) && h !in seen && k > 0 && |s| == k
    requires HeapFrom(s, 0) && !Worse(h, s[0])
    ensures Selects(s[0 := h], seen + {h}, k)
  {
    var root := s[0];
    var r := s[0 := h];
    assert root in Elems(s) && root in seen;
    WorseIsTotalOrder(h, root, h);
    assert Worse(root, h);
    forall y | y in Elems(r) ensures Worse(root, y) && (y == h || y in Elems(s)) {
      var j :| 0 <= j < |r| && r[j] == y;
      if j > 0 {
        RootIsWorst(s, j);
        WorseIsTotalOrder(y, root, y);
      }
    }
    forall x | x in Elems(s) ensures x in Elems(r) + {root} {
      var j :| 0 <= j < |s| && s[j] == x;
      assert x == root || r[j] == x;
    }
    forall x, y | x in seen + {h} - Elems(r) && y in Elems(r) ensures Worse(x, y) {
      assert x != h by { assert r[0] == h; }
      if x != root {
        assert x !in Elems(s);
        WorseIsTotalOrder(x, root, y);
      }
    }
    NoDupSize(s);
    assert NoDup(r);
  }

  /** Offer one more hit: append while they fit, else keep it only if it beats
      the worst kept one. The buffer is turned into a heap the first time it
      overflows. */
  method Offer(out: array<Hit>, n: nat, k: int, heaped: bool, h: Hit, ghost seen: set<Hit>)
    returns (n': nat, heaped': bool)
    requires n <= out.Length && Selects(out[..n], seen, k) && h !in seen
    requires heaped ==> HeapFrom(out[..n], 0)
    requires heaped ==> k > 0 && n == k
    requires k <= 0 || n < k ==> n < out.Length
    modifies out
    ensures n' <= out.Length && Selects(out[..n'], seen + {h}, k)
    ensures heaped' ==> HeapFrom(out[..n'], 0)
    ensures heaped' ==> k > 0 && n' == k
  {
    hide HeapFrom, Selects, Worse;
    n', heaped' := n, heaped;
    if k <= 0 || n < k {
      AppendSelects(out[..n], seen, k, h);
      out[n] := h;
      n' := n + 1;
      assert out[..n'] == old(out[..n]) + [h];
      return;
    }
    SelectsAtMost(out[..n], seen, k);
    if !heaped {
      HeapifyWorst(out, n);
      SameSelection(old(out[..n]), out[..n], seen, k);
      heaped' := true;
    }
    ghost var s := out[..n];
    if Worse(h, out[0]) {
      SkipSelects(s, seen, k, h);
      return;
    }
    ReplaceSelects(s, seen, k, h);
    ReplaceRoot(s, h);
    out[0] := h;
    assert out[..n] == s[0 := h];
    ghost var r := out[..n];
    SiftWorst(out, n, 0);
    SameSelection(r, out[..n], seen + {h}, k);
  }

  lemma SelectsAtMost(s: seq<Hit>, seen: set<Hit>, k: int)
    requires Selects(s, seen, k)
    ensures k > 0 ==> |s| <= k
  {
  }

  lemma ReplaceRoot(s: seq<Hit>, h: Hit)
    requires HeapFrom(s, 0) && |s| > 0
    ensures HeapFrom(s[0 := h], 1)
  {
  }
}
