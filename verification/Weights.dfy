/** IDF mass of gram sets, in real arithmetic. `Mass` sums over a set, the
    reference; `Along` and `Cover` sum along the list a lookup walks. */
module Weights {
  import opened Seqs

  type Bitmap = seq<nat>
  type Postings = map<string, Bitmap>
  type WeightMap = map<string, real>

  ghost predicate Positive(w: WeightMap) {
    forall g | g in w :: w[g] > 0.0
  }

  ghost function Mass(gs: set<string>, w: WeightMap): real
    requires gs <= w.Keys
  {
    if gs == {} then 0.0
    else
      var g :| g in gs;
      w[g] + Mass(gs - {g}, w)
  }

  lemma {:induction false} MassRemove(gs: set<string>, w: WeightMap, g: string)
    requires gs <= w.Keys && g in gs
    ensures Mass(gs, w) == w[g] + Mass(gs - {g}, w)
    decreases |gs|
  {
    var p :| p in gs && Mass(gs, w) == w[p] + Mass(gs - {p}, w);
    if p != g {
      MassRemove(gs - {p}, w, g);
      MassRemove(gs - {g}, w, p);
      assert gs - {p} - {g} == gs - {g} - {p};
    }
  }

  lemma {:induction false} MassPositive(gs: set<string>, w: WeightMap)
    requires gs <= w.Keys && Positive(w)
    ensures Mass(gs, w) >= 0.0
    ensures gs != {} ==> Mass(gs, w) > 0.0
    decreases |gs|
  {
    if gs != {} {
      var g :| g in gs;
      MassRemove(gs, w, g);
      MassPositive(gs - {g}, w);
    }
  }

  /** The grams of gs that hold ordinal o. */
  ghost function Holding(gs: set<string>, posts: Postings, o: nat): set<string>
    requires gs <= posts.Keys
  {
    set g | g in gs && o in posts[g]
  }

  // ------------------------------------------------------- sums along a list

  predicate Listed(gs: seq<string>, posts: Postings, w: WeightMap) {
    forall g | g in gs :: g in w && g in posts
  }

  function Along(gs: seq<string>, w: WeightMap): real
    requires forall g | g in gs :: g in w
  {
    if gs == [] then 0.0 else Along(gs[..|gs| - 1], w) + w[gs[|gs| - 1]]
  }

  function Cover(gs: seq<string>, posts: Postings, w: WeightMap, o: nat): real
    requires Listed(gs, posts, w)
  {
    if gs == [] then 0.0
    else
      var g := gs[|gs| - 1];
      Cover(gs[..|gs| - 1], posts, w, o) + if o in posts[g] then w[g] else 0.0
  }

  lemma LastOfSet(gs: seq<string>)
    requires gs != [] && NoDup(gs)
    ensures Elems(gs) == Elems(gs[..|gs| - 1]) + {gs[|gs| - 1]}
    ensures gs[|gs| - 1] !in Elems(gs[..|gs| - 1])
    ensures NoDup(gs[..|gs| - 1])
  {
  }

  /** Along a list without repetitions, the sums are the masses of its set. */
  lemma {:induction false} AlongIsMass(gs: seq<string>, posts: Postings, w: WeightMap, o: nat)
    requires NoDup(gs) && Listed(gs, posts, w)
    ensures Elems(gs) <= w.Keys && Elems(gs) <= posts.Keys
    ensures Along(gs, w) == Mass(Elems(gs), w)
    ensures Cover(gs, posts, w, o) == Mass(Holding(Elems(gs), posts, o), w)
  {
    if gs != [] {
      var front, g := gs[..|gs| - 1], gs[|gs| - 1];
      LastOfSet(gs);
      AlongIsMass(front, posts, w, o);
      assert Elems(gs) - {g} == Elems(front);
      MassRemove(Elems(gs), w, g);
      var h := Holding(Elems(gs), posts, o);
      if o in posts[g] {
        assert h - {g} == Holding(Elems(front), posts, o);
        MassRemove(h, w, g);
      } else {
        assert h == Holding(Elems(front), posts, o);
      }
    }
  }

  lemma {:induction false} AlongAppend(a: seq<string>, b: seq<string>, posts: Postings, w: WeightMap, o: nat)
    requires Listed(a + b, posts, w)
    ensures Listed(a, posts, w) && Listed(b, posts, w)
    ensures Along(a + b, w) == Along(a, w) + Along(b, w)
    ensures Cover(a + b, posts, w, o) == Cover(a, posts, w, o) + Cover(b, posts, w, o)
  {
    forall g | g in a || g in b ensures g in a + b { }
    if b == [] {
      assert a + b == a;
    } else {
      assert (a + b)[..|a + b| - 1] == a + b[..|b| - 1];
      AlongAppend(a, b[..|b| - 1], posts, w, o);
    }
  }

  lemma {:induction false} CoverBounds(gs: seq<string>, posts: Postings, w: WeightMap, o: nat)
    requires Listed(gs, posts, w) && Positive(w)
    ensures 0.0 <= Cover(gs, posts, w, o) <= Along(gs, w)
    ensures Cover(gs, posts, w, o) > 0.0 <==> exists g :: g in gs && o in posts[g]
  {
    if gs != [] {
      CoverBounds(gs[..|gs| - 1], posts, w, o);
      assert forall g :: g in gs <==> g in gs[..|gs| - 1] || g == gs[|gs| - 1];
    }
  }
}
