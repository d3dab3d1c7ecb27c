/** Building the n-gram index (engine/ngram/ngram.go:88-140). */
module NgramIndex {
  import opened Weights
  import Grams

  datatype Config = Config(sizes: seq<nat>, stripSpaces: bool)

  /** An immutable index: gram to ascending ordinals, and max ordinal + 1. */
  datatype Index = Index(cfg: Config, postings: Postings, numOrds: nat) {
    ghost predicate Valid() {
      forall g | g in postings :: Ascending(postings[g]) && forall o | o in postings[g] :: o < numOrds
    }
  }

  predicate Ascending(bm: Bitmap) {
    forall i, j | 0 <= i < j < |bm| :: bm[i] < bm[j]
  }

  function Strip(s: string): string {
    if s == "" then "" else if s[0] == ' ' then Strip(s[1..]) else [s[0]] + Strip(s[1..])
  }

  function Prepared(cfg: Config, s: string): string {
    if cfg.stripSpaces then Strip(s) else s
  }

  /** The gram set of one analyzed key or query. */
  ghost function KeyGrams(cfg: Config, k: string): set<string> {
    if Prepared(cfg, k) == "" then {} else Grams.GramsOf(Prepared(cfg, k), cfg.sizes)
  }

  ghost function EntryGrams(cfg: Config, keys: seq<string>): set<string> {
    if keys == [] then {} else EntryGrams(cfg, keys[..|keys| - 1]) + KeyGrams(cfg, keys[|keys| - 1])
  }

  lemma {:induction false} KeyInEntry(cfg: Config, keys: seq<string>, i: nat)
    requires i < |keys|
    ensures KeyGrams(cfg, keys[i]) <= EntryGrams(cfg, keys)
  {
    if i < |keys| - 1 {
      KeyInEntry(cfg, keys[..|keys| - 1], i);
    }
  }

  /** Entry ordinals and keys, in the order they were added. */
  type Log = seq<(nat, seq<string>)>

  ghost predicate Added(cfg: Config, log: Log, g: string, o: nat) {
    exists i | 0 <= i < |log| :: log[i].0 == o && g in EntryGrams(cfg, log[i].1)
  }

  ghost predicate Posted(postings: Postings, g: string, o: nat) {
    g in postings && o in postings[g]
  }

  /** The postings hold exactly the grams of the entries added. */
  ghost predicate Indexes(cfg: Config, postings: Postings, log: Log) {
    && (forall g | g in postings :: Ascending(postings[g]) && postings[g] != [])
    && forall g, o :: Posted(postings, g, o) <==> Added(cfg, log, g, o)
  }

  /** Bitmap.Add: insert keeping the list ascending; a no-op if present. */
  function BitmapAdd(bm: Bitmap, ord: nat): (r: Bitmap)
    requires Ascending(bm)
    ensures Ascending(r) && forall o :: o in r <==> o in bm || o == ord
  {
    if bm == [] then [ord]
    else if ord < bm[0] then [ord] + bm
    else if ord == bm[0] then bm
    else
      var rest := BitmapAdd(bm[1..], ord);
      assert forall o :: o in bm <==> o == bm[0] || o in bm[1..];
      assert forall o | o in rest :: bm[0] < o;
      assert forall i | 0 <= i < |rest| :: rest[i] in rest;
      [bm[0]] + rest
  }

  class Builder {
    const cfg: Config
    var postings: Postings
    ghost var log: Log

    ghost predicate Valid()
      reads this
    {
      Indexes(cfg, postings, log)
    }

    constructor (cfg: Config)
      ensures Valid() && log == [] && this.cfg == cfg
    {
      this.cfg := cfg;
      postings := map[];
      log := [];
    }

    method AddGram(g: string, ord: nat)
      requires forall k | k in postings :: Ascending(postings[k]) && postings[k] != []
      modifies this`postings
      ensures forall k | k in postings :: Ascending(postings[k]) && postings[k] != []
      ensures forall k, o :: Posted(postings, k, o) <==> old(Posted(postings, k, o)) || (k == g && o == ord)
    {
      var bm := if g in postings then postings[g] else [];
      var bm' := BitmapAdd(bm, ord);
      assert ord in bm';
      postings := postings[g := bm'];
    }

    /** Index the union of the grams of every analyzed key under ord. */
    method Add(ord: nat, keys: seq<string>)
      requires Valid()
      modifies this
      ensures Valid() && log == old(log) + [(ord, keys)]
    {
      var gset := GatherAll(keys);
      PostAll(gset, ord);
      log := log + [(ord, keys)];
      LogGrows(cfg, old(log), ord, keys);
    }

    method GatherAll(keys: seq<string>) returns (gset: set<string>)
      ensures gset == EntryGrams(cfg, keys)
    {
      gset := {};
      for i := 0 to |keys|
        invariant gset == EntryGrams(cfg, keys[..i])
      {
        var s := Prepared(cfg, keys[i]);
        assert keys[..i + 1][..i] == keys[..i];
        if s != "" {
          var gs := Gather(s);
          gset := gset + gs;
        }
      }
      assert keys[..|keys|] == keys;
    }

    /** Post ord under every gram of the set, in any order. */
    method PostAll(gset: set<string>, ord: nat)
      requires forall k | k in postings :: Ascending(postings[k]) && postings[k] != []
      modifies this`postings
      ensures forall k | k in postings :: Ascending(postings[k]) && postings[k] != []
      ensures forall k, o :: Posted(postings, k, o) <==> old(Posted(postings, k, o)) || (k in gset && o == ord)
    {
      var todo := gset;
      while todo != {}
        invariant todo <= gset
        invariant forall k | k in postings :: Ascending(postings[k]) && postings[k] != []
        invariant forall k, o :: Posted(postings, k, o) <==>
                    old(Posted(postings, k, o)) || (k in gset - todo && o == ord)
        decreases |todo|
      {
        var g :| g in todo;
        AddGram(g, ord);
        todo := todo - {g};
      }
    }

    /** The grams of one prepared key: CharGrams for every size. */
    method Gather(s: string) returns (gs: set<string>)
      ensures gs == Grams.GramsOf(s, cfg.sizes)
    {
      gs := {};
      for k := 0 to |cfg.sizes|
        invariant gs == Grams.GramsOf(s, cfg.sizes[..k])
      {
        assert cfg.sizes[..k + 1][..k] == cfg.sizes[..k];
        var out := Grams.CharGrams(s, cfg.sizes[k]);
        Grams.FreshIsSet({}, Grams.Windows(s, cfg.sizes[k]));
        assert Grams.SetOf(out) == Grams.GramSet(s, cfg.sizes[k]);
        gs := gs + Grams.SetOf(out);
      }
      assert cfg.sizes[..|cfg.sizes|] == cfg.sizes;
    }

    /** Freeze: the index covers exactly the ordinals up to the highest posted one. */
    method Finish() returns (idx: Index)
      requires Valid()
      ensures idx.Valid() && idx.cfg == cfg && Indexes(cfg, idx.postings, log)
      ensures idx.numOrds > 0 ==> exists g | g in idx.postings :: idx.numOrds - 1 in idx.postings[g]
      ensures idx.numOrds == 0 <==> idx.postings == map[]
    {
      hide Indexes, Added;
      Shape(cfg, postings, log);
      var post := postings;
      var max, any := 0, false;
      var todo := post.Keys;
      while todo != {}
        invariant todo <= post.Keys
        invariant any <==> todo != post.Keys
        invariant any ==> exists g | g in post :: max in post[g]
        invariant forall g | g in post.Keys - todo :: AtMost(post[g], max)
        decreases |todo|
      {
        var g :| g in todo;
        var bm := post[g];
        var m := bm[|bm| - 1];
        assert m in post[g] && AtMost(bm, m);
        if !any || m > max {
          max := m;
        }
        any := true;
        todo := todo - {g};
      }
      idx := Index(cfg, post, if any then max + 1 else 0);
    }
  }

  predicate AtMost(bm: Bitmap, m: nat) {
    forall o | o in bm :: o <= m
  }

  lemma Shape(cfg: Config, postings: Postings, log: Log)
    requires Indexes(cfg, postings, log)
    ensures forall g | g in postings :: Ascending(postings[g]) && postings[g] != []
  {
  }

  lemma LogGrows(cfg: Config, log: Log, ord: nat, keys: seq<string>)
    ensures forall g, o :: Added(cfg, log + [(ord, keys)], g, o) <==>
                           Added(cfg, log, g, o) || (o == ord && g in EntryGrams(cfg, keys))
  {
    var log' := log + [(ord, keys)];
    forall g, o
      ensures Added(cfg, log', g, o) <==> Added(cfg, log, g, o) || (o == ord && g in EntryGrams(cfg, keys))
    {
      if Added(cfg, log, g, o) {
        var i :| 0 <= i < |log| && log[i].0 == o && g in EntryGrams(cfg, log[i].1);
        assert log'[i] == log[i];
      }
      if o == ord && g in EntryGrams(cfg, keys) {
        assert log'[|log|] == (ord, keys);
      }
    }
  }
}
