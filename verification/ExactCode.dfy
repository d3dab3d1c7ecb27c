/** Listing an index in key order and writing its section (engine/exact/
    exact.go:241-251, engine/prepared/encode.go:438-475). */
module ExactCode {
  import opened Buffers
  import opened Bytes
  import opened ExactIndex
  import opened ExactLayout
  import opened Packing

  /** f lists the index: its keys in order, each with what Lookup gives. */
  ghost predicate Lists(f: Flat, idx: Index)
    requires idx.Valid()
  {
    && |f.keys| == |f.runs| && Rising(f.keys)
    && (forall k :: k in f.keys <==> k in idx.m)
    && forall i | 0 <= i < |f.keys| :: f.runs[i] == idx.Lookup(f.keys[i])
  }

  /** Indexes with one listing answer every lookup alike. */
  lemma SameLookups(f: Flat, a: Index, b: Index, k: Key)
    requires a.Valid() && b.Valid() && Lists(f, a) && Lists(f, b)
    ensures a.Lookup(k) == b.Lookup(k)
  {
    hide Index.Valid, Rising;
    if k in f.keys {
      var i :| 0 <= i < |f.keys| && f.keys[i] == k;
      assert a.Lookup(f.keys[i]) == f.runs[i] == b.Lookup(f.keys[i]);
    }
  }

  lemma FirstIsFirst(a: seq<Key>, b: seq<Key>)
    requires a != [] && b != [] && Rising(a) && Rising(b) && forall k :: k in a <==> k in b
    ensures a[0] == b[0]
  {
    assert a[0] in b && b[0] in a;
    var p :| 0 <= p < |b| && b[p] == a[0];
    var q :| 0 <= q < |a| && a[q] == b[0];
    if p > 0 && q > 0 {
      LessTransitive(a[0], b[0], a[0]);
      LessIrreflexive(a[0]);
    }
  }

  lemma TailElements(a: seq<Key>, k: Key)
    requires a != [] && Rising(a)
    ensures k in a[1..] <==> k in a && k != a[0]
  {
    LessIrreflexive(a[0]);
    assert a == [a[0]] + a[1..];
    assert forall i | 0 <= i < |a| - 1 :: a[1..][i] == a[i + 1] && Less(a[0], a[i + 1]);
  }

  lemma {:induction false} RisingUnique(a: seq<Key>, b: seq<Key>)
    requires Rising(a) && Rising(b) && forall k :: k in a <==> k in b
    ensures a == b
    decreases |a|
  {
    if a == [] {
      assert forall i | 0 <= i < |b| :: b[i] in b;
    } else {
      assert a[0] in b;
      FirstIsFirst(a, b);
      forall k ensures k in a[1..] <==> k in b[1..] {
        TailElements(a, k);
        TailElements(b, k);
      }
      RisingUnique(a[1..], b[1..]);
      assert a == [a[0]] + a[1..] && b == [b[0]] + b[1..];
    }
  }

  /** An index has one listing. */
  lemma ListingUnique(idx: Index, f: Flat, g: Flat)
    requires idx.Valid() && Lists(f, idx) && Lists(g, idx)
    ensures f == g
  {
    hide Index.Valid, Index.Lookup, Rising;
    RisingUnique(f.keys, g.keys);
    assert f.runs == g.runs;
  }

  lemma {:induction false} RisingExists(s: set<Key>) returns (keys: seq<Key>)
    ensures Rising(keys) && forall k :: k in keys <==> k in s
    decreases |s|
  {
    keys := [];
    if s != {} {
      var k :| k in s;
      var rest := RisingExists(s - {k});
      InsertRises(k, rest);
      keys := InsertKey(k, rest);
    }
  }

  lemma ListingExists(idx: Index)
    requires idx.Valid()
    ensures exists f :: Lists(f, idx)
  {
    hide Index.Valid, Index.Lookup, Rising;
    var keys := RisingExists(idx.m.Keys);
    assert Lists(Flat(keys, RunsFor(idx, keys)), idx);
  }

  /** The index's one listing. */
  ghost function Listing(idx: Index): (f: Flat)
    requires idx.Valid()
    ensures Lists(f, idx)
  {
    ListingExists(idx);
    var f :| Lists(f, idx);
    f
  }

  // -------------------------------------------------------------------- sorted keys

  function InsertKey(k: Key, s: seq<Key>): (r: seq<Key>)
    ensures forall x :: x in r <==> x in s || x == k
  {
    if s == [] then [k]
    else if Less(k, s[0]) then [k] + s
    else
      assert forall x :: x in s <==> x == s[0] || x in s[1..];
      [s[0]] + InsertKey(k, s[1..])
  }

  lemma {:induction false} InsertRises(k: Key, s: seq<Key>)
    requires Rising(s) && k !in s
    ensures Rising(InsertKey(k, s))
  {
    if s == [] {
    } else if Less(k, s[0]) {
      forall j | 0 <= j < |s| ensures Less(k, s[j]) {
        if j > 0 {
          LessTransitive(k, s[0], s[j]);
        }
      }
    } else {
      LessTotal(k, s[0]);
      InsertRises(k, s[1..]);
      var t := InsertKey(k, s[1..]);
      forall j | 0 <= j < |t| ensures Less(s[0], t[j]) {
        assert t[j] in t;
      }
    }
  }

  /** Every analyzed key in sorted order. */
  method SortedKeys(idx: Index) returns (keys: seq<Key>)
    ensures Rising(keys) && forall k :: k in keys <==> k in idx.m
  {
    keys := [];
    var todo := idx.m.Keys;
    while todo != {}
      invariant todo <= idx.m.Keys && Rising(keys)
      invariant forall k :: k in keys <==> k in idx.m && k !in todo
      decreases |todo|
    {
      var k :| k in todo;
      InsertRises(k, keys);
      keys := InsertKey(k, keys);
      todo := todo - {k};
    }
  }

  // ------------------------------------------------------------------------ writing

  /** Regions of a buffer, each with what has been written to it so far. */
  type Regions = seq<(nat, seq<byte>)>

  ghost predicate Written(s: seq<byte>, rs: Regions) {
    forall i | 0 <= i < |rs| :: StandsAt(s, rs[i].0, rs[i].1)
  }

  function Grown(rs: Regions, i: nat, x: seq<byte>): Regions
    requires i < |rs|
  {
    rs[i := (rs[i].0, rs[i].1 + x)]
  }

  /** A write at the end of one region that reaches no other. */
  lemma WriteNext(s: seq<byte>, rs: Regions, i: nat, x: seq<byte>)
    requires Written(s, rs) && i < |rs| && rs[i].0 + |rs[i].1| + |x| <= |s|
    requires forall j | 0 <= j < |rs| && j != i ::
               rs[j].0 + |rs[j].1| <= rs[i].0 + |rs[i].1| || rs[i].0 + |rs[i].1| + |x| <= rs[j].0
    ensures Written(Patch(s, rs[i].0 + |rs[i].1|, x), Grown(rs, i, x))
  {
    hide StandsAt, Patch;
    var end := rs[i].0 + |rs[i].1|;
    var t := Patch(s, end, x);
    forall j | 0 <= j < |rs| ensures StandsAt(t, rs[j].0, Grown(rs, i, x)[j].1) {
      PatchKeeps(s, end, x, rs[j].0, rs[j].1);
      if j == i {
        PatchStands(s, end, x);
        StandsJoin(t, rs[i].0, rs[i].1, x);
      }
    }
  }

  /** What has been written of the four lists. */
  datatype Sheet = Sheet(kl: seq<nat>, rl: seq<nat>, po: seq<nat>, ar: seq<byte>)

  ghost function Layout(k: nat, p: nat, head: seq<byte>, t: Sheet): Regions {
    [(0, head), (24, U32s(t.kl)), (24 + 4 * k, U32s(t.rl)), (24 + 8 * k, U32s(t.po)), (24 + 8 * k + 4 * p, t.ar)]
  }

  ghost predicate Holds(s: seq<byte>, k: nat, p: nat, head: seq<byte>, t: Sheet) {
    && |head| == 24 && |t.kl| <= k && |t.rl| <= k && |t.po| <= p && 24 + 8 * k + 4 * p + |t.ar| <= |s|
    && Written(s, Layout(k, p, head, t))
  }

  lemma U32sPush(vals: seq<nat>, v: nat)
    ensures U32s(vals + [v]) == U32s(vals) + PutLE(4, v)
  {
    assert (vals + [v])[..|vals|] == vals;
  }

  lemma AddKeyLen(s: seq<byte>, k: nat, p: nat, head: seq<byte>, t: Sheet, v: nat)
    requires Holds(s, k, p, head, t) && |t.kl| < k
    ensures Holds(Patch(s, 24 + 4 * |t.kl|, PutLE(4, v)), k, p, head, t.(kl := t.kl + [v]))
  {
    hide Patch, PutLE, Written, U32s;
    var rs, u := Layout(k, p, head, t), t.(kl := t.kl + [v]);
    WriteNext(s, rs, 1, PutLE(4, v));
    U32sPush(t.kl, v);
    assert Layout(k, p, head, u) == Grown(rs, 1, PutLE(4, v));
  }

  lemma AddRunLen(s: seq<byte>, k: nat, p: nat, head: seq<byte>, t: Sheet, v: nat)
    requires Holds(s, k, p, head, t) && |t.rl| < k
    ensures Holds(Patch(s, 24 + 4 * k + 4 * |t.rl|, PutLE(4, v)), k, p, head, t.(rl := t.rl + [v]))
  {
    hide Patch, PutLE, Written, U32s;
    var rs, u := Layout(k, p, head, t), t.(rl := t.rl + [v]);
    WriteNext(s, rs, 2, PutLE(4, v));
    U32sPush(t.rl, v);
    assert Layout(k, p, head, u) == Grown(rs, 2, PutLE(4, v));
  }

  lemma AddPosting(s: seq<byte>, k: nat, p: nat, head: seq<byte>, t: Sheet, v: nat)
    requires Holds(s, k, p, head, t) && |t.po| < p
    ensures Holds(Patch(s, 24 + 8 * k + 4 * |t.po|, PutLE(4, v)), k, p, head, t.(po := t.po + [v]))
  {
    hide Patch, PutLE, Written, U32s;
    var rs, u := Layout(k, p, head, t), t.(po := t.po + [v]);
    WriteNext(s, rs, 3, PutLE(4, v));
    U32sPush(t.po, v);
    assert Layout(k, p, head, u) == Grown(rs, 3, PutLE(4, v));
  }

  lemma AddArena(s: seq<byte>, k: nat, p: nat, head: seq<byte>, t: Sheet, x: seq<byte>)
    requires Holds(s, k, p, head, t) && 24 + 8 * k + 4 * p + |t.ar| + |x| <= |s|
    ensures Holds(Patch(s, 24 + 8 * k + 4 * p + |t.ar|, x), k, p, head, t.(ar := t.ar + x))
  {
    hide Patch, PutLE, Written, U32s;
    var rs, u := Layout(k, p, head, t), t.(ar := t.ar + x);
    WriteNext(s, rs, 4, x);
    assert Layout(k, p, head, u) == Grown(rs, 4, x);
  }

  method PutRun(buf: array<byte>, k: nat, p: nat, pAt: nat, run: seq<nat>, ghost head: seq<byte>, ghost t: Sheet)
    requires Holds(buf[..], k, p, head, t) && |t.po| + |run| <= p && pAt == 24 + 8 * k + 4 * |t.po|
    modifies buf
    ensures Holds(buf[..], k, p, head, t.(po := t.po + run))
  {
    hide Holds, Patch, PutLE;
    HoldsRoom(buf[..], k, p, head, t);
    assert t.po + run[..0] == t.po;
    for q := 0 to |run|
      invariant Holds(buf[..], k, p, head, t.(po := t.po + run[..q]))
    {
      AddPosting(buf[..], k, p, head, t.(po := t.po + run[..q]), run[q]);
      Copy(buf, pAt + 4 * q, PutLE(4, run[q]));
      assert t.po + run[..q + 1] == t.po + run[..q] + [run[q]];
    }
    assert run[..|run|] == run;
  }

  lemma HoldsRoom(s: seq<byte>, k: nat, p: nat, head: seq<byte>, t: Sheet)
    requires Holds(s, k, p, head, t)
    ensures 24 + 8 * k + 4 * p + |t.ar| <= |s|
  {
  }

  method PutKey(buf: array<byte>, k: nat, p: nat, i: nat, pAt: nat, aAt: nat, key: Key, run: seq<nat>,
                ghost head: seq<byte>, ghost t: Sheet) returns (ghost u: Sheet)
    requires Holds(buf[..], k, p, head, t) && |t.kl| == |t.rl| == i < k && |t.po| + |run| <= p
    requires pAt == 24 + 8 * k + 4 * |t.po| && aAt == 24 + 8 * k + 4 * p + |t.ar| && aAt + |key| <= buf.Length
    modifies buf
    ensures u == Sheet(t.kl + [|key|], t.rl + [|run|], t.po + run, t.ar + key) && Holds(buf[..], k, p, head, u)
  {
    hide Holds, Patch, PutLE;
    HoldsRoom(buf[..], k, p, head, t);
    u := t;
    AddKeyLen(buf[..], k, p, head, u, |key|);
    Copy(buf, 24 + 4 * i, PutLE(4, |key|));
    u := u.(kl := t.kl + [|key|]);
    AddRunLen(buf[..], k, p, head, u, |run|);
    Copy(buf, 24 + 4 * k + 4 * i, PutLE(4, |run|));
    u := u.(rl := t.rl + [|run|]);
    PutRun(buf, k, p, pAt, run, head, u);
    u := u.(po := t.po + run);
    AddArena(buf[..], k, p, head, u, key);
    Copy(buf, aAt, key);
    u := u.(ar := t.ar + key);
  }

  ghost function RunsFor(idx: Index, keys: seq<Key>): (runs: seq<seq<nat>>)
    requires idx.Valid()
    ensures |runs| == |keys| && forall i | 0 <= i < |keys| :: runs[i] == idx.Lookup(keys[i])
  {
    seq(|keys|, (i: nat) requires i < |keys| => idx.Lookup(keys[i]))
  }

  /** What the listing's first i keys put on the sheet. */
  ghost function SheetOf(f: Flat, i: nat): Sheet
    requires i <= |f.keys| && i <= |f.runs|
  {
    Sheet(Lens(f.keys[..i]), Lens(f.runs[..i]), Concat<nat>(f.runs[..i]), Concat(f.keys[..i]))
  }

  lemma SheetNext(f: Flat, i: nat)
    requires i < |f.keys| && i < |f.runs|
    ensures SheetOf(f, i + 1) == Sheet(SheetOf(f, i).kl + [|f.keys[i]|], SheetOf(f, i).rl + [|f.runs[i]|],
                                       SheetOf(f, i).po + f.runs[i], SheetOf(f, i).ar + f.keys[i])
  {
    hide Concat, Lens;
    LensPush(f.keys, i);
    LensPush(f.runs, i);
    ConcatPush(f.keys, i);
    ConcatPush<nat>(f.runs, i);
  }

  lemma SheetRoom(f: Flat, i: nat)
    requires i < |f.keys| == |f.runs|
    ensures |SheetOf(f, i).po| + |f.runs[i]| <= |Postings(f)| && |SheetOf(f, i).ar| + |f.keys[i]| <= |Arena(f)|
  {
    hide Concat, Lens;
    SheetNext(f, i);
    ConcatGrows<nat>(f.runs, i + 1);
    ConcatGrows(f.keys, i + 1);
  }

  lemma NoSheet(f: Flat)
    ensures SheetOf(f, 0) == Sheet([], [], [], [])
  {
  }

  lemma WholeSheet(f: Flat)
    requires |f.keys| == |f.runs|
    ensures SheetOf(f, |f.keys|) == Sheet(Lens(f.keys), Lens(f.runs), Postings(f), Arena(f))
  {
    hide Concat, Lens;
    assert f.keys[..|f.keys|] == f.keys && f.runs[..|f.runs|] == f.runs;
  }

  /** A full sheet is the section. */
  lemma SheetIsSection(s: seq<byte>, f: Flat)
    requires |f.keys| == |f.runs| && |s| == Size(f)
    requires Holds(s, |f.keys|, |Postings(f)|, Head(|f.keys|, |Postings(f)|, |Arena(f)|),
                   Sheet(Lens(f.keys), Lens(f.runs), Postings(f), Arena(f)))
    ensures s == Section(f)
  {
    hide U32s, Head, Postings, Arena, StandsAt;
    var k, p := |f.keys|, |Postings(f)|;
    var h := Head(k, p, |Arena(f)|);
    var rs := Layout(k, p, h, Sheet(Lens(f.keys), Lens(f.runs), Postings(f), Arena(f)));
    assert StandsAt(s, rs[0].0, rs[0].1) && StandsAt(s, rs[1].0, rs[1].1) && StandsAt(s, rs[2].0, rs[2].1);
    assert StandsAt(s, rs[3].0, rs[3].1) && StandsAt(s, rs[4].0, rs[4].1);
    FiveStand(s, h, U32s(Lens(f.keys)), U32s(Lens(f.runs)), U32s(Postings(f)), Arena(f));
  }

  /** Adds up the sizes; a key longer than a 32-bit length is refused. */
  method Measure(idx: Index, keys: seq<Key>) returns (ok: bool, arena: nat, postings: nat)
    requires idx.Valid()
    ensures ok <==> forall i | 0 <= i < |keys| :: |keys[i]| <= MAX_U32
    ensures ok ==> arena == |Concat(keys)| && postings == |Concat<nat>(RunsFor(idx, keys))|
  {
    hide Index.Valid, Concat;
    arena, postings := 0, 0;
    ghost var runs := RunsFor(idx, keys);
    NothingPacked<byte>();
    NothingPacked<nat>();
    for i := 0 to |keys|
      invariant forall j | 0 <= j < i :: |keys[j]| <= MAX_U32
      invariant arena == |Concat(keys[..i])| && postings == |Concat<nat>(runs[..i])|
    {
      if |keys[i]| > MAX_U32 {
        return false, arena, postings;
      }
      ConcatPush(keys, i);
      ConcatPush<nat>(runs, i);
      arena, postings := arena + |keys[i]|, postings + |idx.Lookup(keys[i])|;
    }
    assert keys[..|keys|] == keys && runs[..|keys|] == runs;
    ok := true;
  }

  lemma NothingPacked<T>()
    ensures Concat<T>([]) == []
  {
  }

  ghost predicate ShortKeys(idx: Index) {
    forall k | k in idx.m :: |k| <= MAX_U32
  }

  /** Writes the index's one section, if its keys, entry count and size allow. */
  method EncodeExact(idx: Index, entries: nat) returns (ok: bool, sec: seq<byte>)
    requires idx.Valid()
    ensures ok <==> ShortKeys(idx) && idx.numOrds <= entries && Size(Listing(idx)) <= MAX_INT
    ensures ok ==> sec == Section(Listing(idx))
  {
    hide Index.Valid, Concat, Holds, Head, Patch, U32s, Rising, Section, Listing;
    var keys := SortedKeys(idx);
    ghost var f := Flat(keys, RunsFor(idx, keys));
    ListingUnique(idx, f, Listing(idx));
    sec := [];
    var arena, postings;
    ok, arena, postings := Measure(idx, keys);
    ShortKeysIs(idx, keys);
    if !ok || idx.numOrds > entries {
      return false, sec;
    }
    var k := |keys|;
    var size := 24 + 8 * k + 4 * postings + arena;
    if size > MAX_INT {
      return false, sec;
    }
    var buf := new byte[size](_ => 0);
    var head := Head(k, postings, arena);
    HeadWritten(buf[..], k, postings, arena);
    Copy(buf, 0, head);
    ghost var t := Sheet([], [], [], []);
    NoSheet(f);
    var pAt, aAt := 24 + 8 * k, 24 + 8 * k + 4 * postings;
    for i := 0 to k
      invariant t == SheetOf(f, i) && Holds(buf[..], k, postings, head, t)
      invariant pAt == 24 + 8 * k + 4 * |t.po| && aAt == 24 + 8 * k + 4 * postings + |t.ar|
    {
      SheetRoom(f, i);
      SheetNext(f, i);
      t := PutKey(buf, k, postings, i, pAt, aAt, keys[i], idx.Lookup(keys[i]), head, t);
      pAt, aAt := pAt + 4 * |idx.Lookup(keys[i])|, aAt + |keys[i]|;
    }
    WholeSheet(f);
    sec := buf[..];
    SheetIsSection(sec, f);
  }

  lemma ShortKeysIs(idx: Index, keys: seq<Key>)
    requires forall k :: k in keys <==> k in idx.m
    ensures ShortKeys(idx) <==> forall i | 0 <= i < |keys| :: |keys[i]| <= MAX_U32
  {
    assert forall i | 0 <= i < |keys| :: keys[i] in idx.m;
  }

  lemma HeadWritten(z: seq<byte>, k: nat, p: nat, a: nat)
    requires |z| == 24 + 8 * k + 4 * p + a
    ensures Holds(Patch(z, 0, Head(k, p, a)), k, p, Head(k, p, a), Sheet([], [], [], []))
  {
    hide Patch, Head;
    PatchStands(z, 0, Head(k, p, a));
  }

  lemma LensPush<T>(xs: seq<seq<T>>, i: nat)
    requires i < |xs|
    ensures Lens(xs[..i + 1]) == Lens(xs[..i]) + [|xs[i]|]
  {
  }

  /** How long the first parts are, within the whole. */
  lemma {:induction false} ConcatGrows<T>(xs: seq<seq<T>>, i: nat)
    requires i <= |xs|
    ensures |Concat(xs[..i])| <= |Concat(xs)|
    decreases |xs|
  {
    if i == |xs| {
      assert xs[..i] == xs;
    } else {
      ConcatGrows(xs[..|xs| - 1], i);
      assert xs[..|xs| - 1][..i] == xs[..i];
    }
  }
}
