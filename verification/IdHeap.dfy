/** The bounded any-of selection (engine/list.go:1458-1562): a max-heap on
    entry ID in a plain slice, with the set of the ordinals it holds. */
module IdHeap {
  import opened Bytes
  import opened Seqs

  type Id = seq<byte>

  /** An entry by place: segment and ordinal. */
  datatype Place = Place(overlay: bool, ord: nat)

  datatype Item = Item(place: Place, id: Id)

  predicate Geq(a: Item, b: Item) {
    !Less(a.id, b.id)
  }

  lemma GeqOrder(a: Item, b: Item, c: Item)
    ensures Geq(a, a)
    ensures Geq(a, b) || Geq(b, a)
    ensures Geq(a, b) && Geq(b, c) ==> Geq(a, c)
    ensures Geq(a, b) && Geq(b, a) ==> a.id == b.id
  {
    LessIrreflexive(a.id);
    LessTotal(a.id, b.id);
    LessTotal(b.id, c.id);
    if Less(a.id, b.id) && Less(b.id, a.id) {
      LessTransitive(a.id, b.id, a.id);
    }
    if Less(a.id, c.id) {
      if Less(b.id, a.id) {
        LessTransitive(b.id, a.id, c.id);
      }
      if Less(c.id, b.id) {
        LessTransitive(a.id, c.id, b.id);
      }
    }
  }

  function Parent(i: nat): nat
    requires i > 0
  {
    (i - 1) / 2
  }

  /** A max-heap, except that the pair of hole and its parent is not checked. */
  predicate HeapBelow(s: seq<Item>, hole: nat) {
    && (forall j: nat | 0 < j < |s| && j != hole :: Geq(s[Parent(j)], s[j]))
    && (forall j: nat | 0 < j < |s| && hole > 0 && hole < |s| && Parent(j) == hole :: Geq(s[Parent(hole)], s[j]))
  }

  /** A max-heap, except that hole and its children are not checked. */
  predicate HeapAbove(s: seq<Item>, hole: nat) {
    && (forall j: nat | 0 < j < |s| && Parent(j) != hole :: Geq(s[Parent(j)], s[j]))
    && (forall j: nat | 0 < j < |s| && hole > 0 && hole < |s| && Parent(j) == hole :: Geq(s[Parent(hole)], s[j]))
  }

  predicate Heap(s: seq<Item>) {
    forall j: nat | 0 < j < |s| :: Geq(s[Parent(j)], s[j])
  }

  lemma {:induction false} RootIsLargest(s: seq<Item>, i: nat)
    requires Heap(s) && i < |s|
    ensures Geq(s[0], s[i])
    decreases i
  {
    hide Geq;
    if i == 0 {
      GeqOrder(s[0], s[0], s[0]);
    } else {
      RootIsLargest(s, Parent(i));
      GeqOrder(s[0], s[Parent(i)], s[i]);
    }
  }

  function Swap(s: seq<Item>, i: nat, j: nat): seq<Item>
    requires i < |s| && j < |s|
  {
    s[i := s[j]][j := s[i]]
  }

  lemma SwapKeeps(s: seq<Item>, i: nat, j: nat)
    requires i < |s| && j < |s| && NoDup(s)
    ensures Elems(Swap(s, i, j)) == Elems(s) && NoDup(Swap(s, i, j))
  {
    var t := Swap(s, i, j);
    forall x ensures x in t <==> x in s {
      if x in s {
        var k :| 0 <= k < |s| && s[k] == x;
        assert t[if k == i then j else if k == j then i else k] == x;
      }
    }
  }

  method Up(s: seq<Item>) returns (r: seq<Item>)
    requires |s| > 0 && NoDup(s) && Heap(s[..|s| - 1])
    ensures Heap(r) && Elems(r) == Elems(s) && NoDup(r)
  {
    hide Geq;
    r := s;
    var i: nat := |s| - 1;
    assert forall j: nat | 0 < j < |s| && j != i :: s[..i][Parent(j)] == s[Parent(j)];
    while i > 0
      invariant |r| == |s| && i < |r| && NoDup(r) && Elems(r) == Elems(s)
      invariant HeapBelow(r, i)
    {
      var p := Parent(i);
      GeqOrder(r[p], r[i], r[i]);
      if Geq(r[p], r[i]) {
        return;
      }
      SwapKeeps(r, p, i);
      UpStep(r, i);
      r := Swap(r, p, i);
      i := p;
    }
  }

  lemma UpStep(s: seq<Item>, i: nat)
    requires 0 < i < |s| && HeapBelow(s, i) && !Geq(s[Parent(i)], s[i])
    ensures HeapBelow(Swap(s, Parent(i), i), Parent(i))
  {
    hide Geq;
    var p := Parent(i);
    var t := Swap(s, p, i);
    GeqOrder(s[p], s[i], s[i]);
    forall j: nat | 0 < j < |t| && j != p ensures Geq(t[Parent(j)], t[j]) {
      if j != i && Parent(j) == p {
        GeqOrder(s[i], s[p], s[j]);
      }
    }
    forall j: nat | 0 < j < |t| && p > 0 && Parent(j) == p ensures Geq(t[Parent(p)], t[j]) {
      if j != i {
        GeqOrder(s[Parent(p)], s[p], s[j]);
      }
    }
  }

  method Down(s: seq<Item>) returns (r: seq<Item>)
    requires NoDup(s) && HeapAbove(s, 0)
    ensures Heap(r) && Elems(r) == Elems(s) && NoDup(r)
  {
    hide Geq, HeapAbove, Heap, NoDup;
    r := s;
    var i: nat := 0;
    if |r| == 0 {
      EmptyHeap();
      return;
    }
    while true
      invariant |r| == |s| && NoDup(r) && Elems(r) == Elems(s)
      invariant i < |r| && HeapAbove(r, i)
      decreases |s| - i
    {
      var n := |r|;
      var l, rt, big := 2 * i + 1, 2 * i + 2, i;
      if l < n && !Geq(r[big], r[l]) {
        big := l;
      }
      if rt < n && !Geq(r[big], r[rt]) {
        big := rt;
      }
      DownChoice(r, i, big);
      if big == i {
        return;
      }
      SwapKeeps(r, i, big);
      r := Swap(r, i, big);
      i := big;
    }
  }

  lemma EmptyHeap()
    ensures Heap([])
  {
  }

  lemma DownChoice(s: seq<Item>, i: nat, big: nat)
    requires i < |s| && HeapAbove(s, i)
    requires var (l, rt) := (2 * i + 1, 2 * i + 2);
             var b := if l < |s| && !Geq(s[i], s[l]) then l else i;
             big == if rt < |s| && !Geq(s[b], s[rt]) then rt else b
    ensures big < |s|
    ensures big == i ==> Heap(s)
    ensures big != i ==> big > i && HeapAbove(Swap(s, i, big), big)
  {
    hide Geq;
    var l, rt := 2 * i + 1, 2 * i + 2;
    if l < |s| {
      GeqOrder(s[i], s[l], s[l]);
      GeqOrder(s[l], s[i], s[i]);
      if rt < |s| {
        GeqOrder(s[i], s[rt], s[l]);
        GeqOrder(s[l], s[rt], s[i]);
        GeqOrder(s[rt], s[l], s[i]);
        GeqOrder(s[rt], s[i], s[l]);
      }
    }
    forall j: nat | 0 < j && Parent(j) == i ensures j == l || j == rt {
    }
    if big != i {
      DownStep(s, i, big);
    }
  }

  /** Swapping the larger child up moves the hole down. */
  lemma DownStep(s: seq<Item>, i: nat, big: nat)
    requires i < big < |s| && HeapAbove(s, i) && Parent(big) == i
    requires forall j: nat | 0 < j < |s| && Parent(j) == i :: Geq(s[big], s[j])
    requires Geq(s[big], s[i])
    ensures HeapAbove(Swap(s, i, big), big)
  {
    hide Geq;
    var t := Swap(s, i, big);
    forall j: nat | 0 < j < |t| && Parent(j) != big ensures Geq(t[Parent(j)], t[j]) {
    }
    forall j: nat | 0 < j < |t| && Parent(j) == big ensures Geq(t[Parent(big)], t[j]) {
      assert Geq(s[Parent(j)], s[j]);
    }
  }

  // ------------------------------------------------------------------- selection

  /** An ID stands for one place and a place for one ID. */
  ghost predicate OneToOne(seen: set<Item>) {
    forall a, b | a in seen && b in seen && (a.id == b.id || a.place == b.place) :: a == b
  }

  /** kept are the k smallest IDs of seen, all of them when k is 0. */
  ghost predicate Smallest(kept: set<Item>, seen: set<Item>, k: int) {
    && kept <= seen
    && (forall x, y | x in seen && x !in kept && y in kept :: Less(y.id, x.id))
    && (if k <= 0 || |seen| <= k then kept == seen else |kept| == k)
  }

  class AnyOfSelection {
    const k: int
    var selected: set<Place>
    var items: seq<Item>

    ghost predicate Valid(seen: set<Item>)
      reads this
    {
      && Heap(items) && NoDup(items) && OneToOne(seen)
      && selected == (set x | x in items :: x.place)
      && Smallest(Elems(items), seen, k)
    }

    constructor (k: int)
      ensures this.k == k && Valid({})
    {
      this.k, selected, items := k, {}, [];
    }

    /** Whether an entry can still enter the selection. */
    predicate Admits(x: Item)
      reads this
    {
      x.place !in selected && (k <= 0 || |items| < k || (|items| > 0 && Less(x.id, items[0].id)))
    }

    /** An entry that is not admitted would not be among the smallest. */
    lemma Refused(seen: set<Item>, x: Item)
      requires Valid(seen) && OneToOne(seen + {x}) && !Admits(x)
      ensures Valid(seen + {x})
    {
      hide Heap;
      NoDupSize(items);
      if x.place in selected {
        var y :| y in items && y.place == x.place;
        assert y in Elems(items);
        assert seen + {x} == seen;
      } else {
        FullRefuses(items, seen, x, k);
      }
    }

    /** Adds an admitted entry, evicting the largest when full. */
    method Push(ghost seen: set<Item>, x: Item)
      requires Valid(seen) && OneToOne(seen + {x}) && Admits(x)
      modifies this`selected, this`items
      ensures Valid(seen + {x})
    {
      hide Smallest, Heap, Geq, NoDup, OneToOne, Elems, HeapAbove;
      ghost var before := items;
      Fresh(items, selected, x);
      PushedElems(items, x);
      var grown := Up(items + [x]);
      NoDupSize(grown);
      NoDupSize(before);
      LargestOfAll(grown);
      if k > 0 && |grown| > k {
        var root := grown[0];
        EvictKeeps(grown);
        SmallestSize(Elems(before), seen, k);
        Evicted(Elems(before), seen, x, root, k);
        items := Down(Evict(grown));
        PlacesLess(before, x, root, items, seen);
        selected := selected + {x.place} - {root.place};
      } else {
        Admitted(Elems(before), seen, x, k);
        PlacesMore(before, x, grown);
        items := grown;
        selected := selected + {x.place};
      }
    }
  }

  lemma SmallestSize(kept: set<Item>, seen: set<Item>, k: int)
    requires Smallest(kept, seen, k) && k > 0
    ensures kept <= seen && |kept| <= k
  {
  }

  lemma PlacesMore(before: seq<Item>, x: Item, after: seq<Item>)
    requires Elems(after) == Elems(before) + {x}
    ensures (set y | y in after :: y.place) == (set y | y in before :: y.place) + {x.place}
  {
    var a, b := (set y | y in after :: y.place), (set y | y in before :: y.place) + {x.place};
    assert x in Elems(after);
    forall p ensures p in a <==> p in b {
      if p in a {
        var y :| y in after && y.place == p;
        assert y in Elems(after);
      }
      if p in b && p != x.place {
        var y :| y in before && y.place == p;
        assert y in Elems(before);
        assert y in Elems(after);
      }
    }
  }

  /** The root swapped out, its slot taken by the last. */
  function Evict(s: seq<Item>): seq<Item>
    requires |s| > 0
  {
    Swap(s, 0, |s| - 1)[..|s| - 1]
  }

  lemma EvictKeeps(s: seq<Item>)
    requires |s| > 0 && NoDup(s) && Heap(s)
    ensures NoDup(Evict(s)) && Elems(Evict(s)) == Elems(s) - {s[0]} && HeapAbove(Evict(s), 0)
  {
    hide Geq;
    var n := |s| - 1;
    var t := Swap(s, 0, n);
    SwapKeeps(s, 0, n);
    assert t == Evict(s) + [s[0]];
    assert forall i | 0 <= i < n :: t[i] != t[n];
    forall y ensures y in Evict(s) <==> y in Elems(s) - {s[0]} {
      assert y in t <==> y in Elems(s);
    }
    forall j: nat | 0 < j < n && Parent(j) != 0 ensures Geq(Evict(s)[Parent(j)], Evict(s)[j]) {
      assert Evict(s)[j] == s[j] && Evict(s)[Parent(j)] == s[Parent(j)];
    }
  }

  lemma LargestOfAll(s: seq<Item>)
    requires |s| > 0 && Heap(s)
    ensures s[0] in Elems(s) && forall y | y in Elems(s) :: Geq(s[0], y)
  {
    forall y | y in s ensures Geq(s[0], y) {
      var i :| 0 <= i < |s| && s[i] == y;
      RootIsLargest(s, i);
    }
  }

  lemma PushedElems(s: seq<Item>, x: Item)
    ensures Elems(s + [x]) == Elems(s) + {x}
  {
  }

  lemma Fresh(s: seq<Item>, selected: set<Place>, x: Item)
    requires NoDup(s) && selected == (set y | y in s :: y.place) && x.place !in selected
    ensures NoDup(s + [x]) && x !in s && x !in Elems(s)
    ensures (s + [x])[..|s|] == s
  {
  }

  lemma FullRefuses(items: seq<Item>, seen: set<Item>, x: Item, k: int)
    requires NoDup(items) && Smallest(Elems(items), seen, k) && OneToOne(seen + {x}) && x !in items
    requires Heap(items) && k > 0 && |items| >= k && !Less(x.id, items[0].id)
    ensures Smallest(Elems(items), seen + {x}, k)
  {
    hide Heap;
    NoDupSize(items);
    LargestOfAll(items);
    SubsetSize(Elems(items), seen);
    SubsetSize(seen, seen + {x});
    forall y | y in items ensures Less(y.id, x.id) {
      assert y in Elems(items);
      GeqOrder(items[0], y, y);
      GeqOrder(x, items[0], y);
      LessTotal(y.id, x.id);
    }
  }

  lemma Admitted(kept: set<Item>, seen: set<Item>, x: Item, k: int)
    requires Smallest(kept, seen, k) && OneToOne(seen + {x}) && x !in kept
    requires k <= 0 || |kept| < k
    ensures Smallest(kept + {x}, seen + {x}, k)
  {
    assert kept == seen;
  }

  /** Evicting the largest leaves the k smallest of one more. */
  lemma Evicted(kept: set<Item>, seen: set<Item>, x: Item, root: Item, k: int)
    requires Smallest(kept, seen, k) && OneToOne(seen + {x}) && x !in kept && k > 0 && |kept| == k
    requires root in kept + {x} && forall y | y in kept + {x} :: Geq(root, y)
    ensures Smallest(kept + {x} - {root}, seen + {x}, k)
  {
    hide Geq;
    var now := kept + {x} - {root};
    SubsetSize(kept, seen);
    forall z, y | z in seen + {x} && z !in now && y in now ensures Less(y.id, z.id) {
      GeqOrder(root, y, y);
      assert Less(y.id, root.id) by {
        LargerId(root, y);
      }
      if z != root && y == x {
        LessTransitive(x.id, root.id, z.id);
      }
    }
    NotSeen(kept, seen, x, root, k);
  }

  lemma LargerId(root: Item, y: Item)
    requires Geq(root, y) && root.id != y.id
    ensures Less(y.id, root.id)
  {
    LessTotal(y.id, root.id);
  }

  /** Had x been seen before, it would have been smaller than something kept. */
  lemma NotSeen(kept: set<Item>, seen: set<Item>, x: Item, root: Item, k: int)
    requires Smallest(kept, seen, k) && x !in kept && k > 0 && |kept| == k
    requires root in kept + {x}
    ensures |seen + {x}| > k && |kept + {x} - {root}| == k
  {
    SubsetSize(kept + {x}, seen + {x});
  }

  lemma PlacesLess(before: seq<Item>, x: Item, root: Item, after: seq<Item>, seen: set<Item>)
    requires OneToOne(seen + {x}) && Elems(before) <= seen && root in Elems(before) + {x}
    requires Elems(after) == Elems(before) + {x} - {root}
    ensures (set y | y in after :: y.place) == (set y | y in before :: y.place) + {x.place} - {root.place}
  {
    var a, b := (set y | y in after :: y.place), (set y | y in before :: y.place) + {x.place} - {root.place};
    forall p ensures p in a <==> p in b {
      if p in a {
        var y :| y in after && y.place == p;
        assert y in Elems(after);
      }
      if p in b {
        if p == x.place && x != root {
          assert x in Elems(after);
        } else {
          var y :| y in before && y.place == p;
          assert y in Elems(before);
          assert y in Elems(after);
        }
      }
    }
  }
}
