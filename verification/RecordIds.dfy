/** The ids section (engine/prepared/encode.go:349-366, engine/prepared/
    view.go:318-345, 591-602): the ordinals in strictly increasing ID order,
    and the lookup by binary search that rests on it. */
module RecordIds {
  import opened Buffers
  import opened Bytes
  import opened Seqs
  import opened Records
  import opened RecordsCode
  import opened RecordsWrite
  import opened Options

  // ---------------------------------------------------------------- specification

  /** ords lists the positions of ids in strictly increasing order of ID. */
  ghost predicate IdOrder(ids: seq<seq<byte>>, ords: seq<nat>) {
    && |ords| == |ids|
    && (forall k | 0 <= k < |ords| :: ords[k] < |ids|)
    && forall j, k | 0 <= j < k < |ords| :: Less(ids[ords[j]], ids[ords[k]])
  }

  function Layout(ords: seq<nat>): seq<byte> {
    Word(|ords|) + Words(ords)
  }

  ghost function UpTo(n: nat): (s: set<nat>)
    ensures |s| == n && forall o | o in s :: o < n
  {
    if n == 0 then {} else UpTo(n - 1) + {n - 1}
  }

  lemma {:induction false} UpToMembers(n: nat, o: nat)
    ensures o in UpTo(n) <==> o < n
  {
    if n > 0 {
      UpToMembers(n - 1, o);
    }
  }

  /** Distinct ordinals below n, n of them, are all of them. */
  lemma AllListed(ords: seq<nat>, n: nat)
    requires |ords| == n && NoDup(ords) && forall k | 0 <= k < n :: ords[k] < n
    ensures forall o: nat | o < n :: o in ords
  {
    NoDupSize(ords);
    forall o | o in Elems(ords) ensures o in UpTo(n) {
      UpToMembers(n, o);
    }
    SubsetSize(Elems(ords), UpTo(n));
    forall o: nat | o < n ensures o in ords {
      UpToMembers(n, o);
      assert o in Elems(ords);
    }
  }

  lemma OrderNoDup(ids: seq<seq<byte>>, ords: seq<nat>)
    requires IdOrder(ids, ords)
    ensures NoDup(ords) && NoDup(ids)
    ensures forall o: nat | o < |ids| :: o in ords
  {
    forall j, k | 0 <= j < k < |ords| ensures ords[j] != ords[k] {
      LessIrreflexive(ids[ords[j]]);
    }
    AllListed(ords, |ids|);
    forall a: nat, b: nat | a < b < |ids| ensures ids[a] != ids[b] {
      assert a in ords && b in ords;
      var j: nat :| j < |ords| && ords[j] == a;
      var k: nat :| k < |ords| && ords[k] == b;
      LessIrreflexive(ids[a]);
      assert j < k || k < j;
    }
  }

  /** There is one such order. */
  lemma {:induction false} OrderUnique(ids: seq<seq<byte>>, x: seq<nat>, y: seq<nat>, k: nat)
    requires IdOrder(ids, x) && IdOrder(ids, y) && k <= |ids|
    ensures forall j | 0 <= j < k :: x[j] == y[j]
  {
    if k > 0 {
      OrderUnique(ids, x, y, k - 1);
      OrderNoDup(ids, x);
      OrderNoDup(ids, y);
      assert x[k - 1] in y && y[k - 1] in x;
      var p: nat :| p < |y| && y[p] == x[k - 1];
      var q: nat :| q < |x| && x[q] == y[k - 1];
      assert p >= k - 1 && q >= k - 1;
      if p > k - 1 && q > k - 1 {
        LessTransitive(ids[x[k - 1]], ids[x[q]], ids[y[p]]);
        LessIrreflexive(ids[x[k - 1]]);
      }
    }
  }

  // ---------------------------------------------------------------------- writing

  ghost predicate Ascending(ids: seq<seq<byte>>, s: seq<nat>)
  {
    && (forall k | 0 <= k < |s| :: s[k] < |ids|)
    && forall j, k | 0 <= j < k < |s| :: !Less(ids[s[k]], ids[s[j]])
  }

  function Insert(ids: seq<seq<byte>>, o: nat, s: seq<nat>): (r: seq<nat>)
    requires o < |ids| && forall k | 0 <= k < |s| :: s[k] < |ids|
    ensures |r| == |s| + 1 && multiset(r) == multiset(s) + multiset{o}
  {
    if s == [] then [o]
    else if Less(ids[o], ids[s[0]]) then [o] + s
    else
      assert s == [s[0]] + s[1..];
      [s[0]] + Insert(ids, o, s[1..])
  }

  lemma {:induction false} InsertAscends(ids: seq<seq<byte>>, o: nat, s: seq<nat>)
    requires o < |ids| && Ascending(ids, s)
    ensures Ascending(ids, Insert(ids, o, s))
  {
    if s == [] {
    } else if Less(ids[o], ids[s[0]]) {
      forall k | 0 <= k < |s| ensures !Less(ids[s[k]], ids[o]) {
        if Less(ids[s[k]], ids[o]) {
          LessTransitive(ids[s[k]], ids[o], ids[s[0]]);
          LessIrreflexive(ids[s[0]]);
        }
      }
    } else {
      InsertAscends(ids, o, s[1..]);
      var t := Insert(ids, o, s[1..]);
      forall k | 0 <= k < |t| ensures !Less(ids[t[k]], ids[s[0]]) {
        assert t[k] in multiset(t);
        assert t[k] in multiset(s[1..]) || t[k] == o;
      }
    }
  }

  /** sort.Slice by ID. */
  method SortOrdinals(ids: seq<seq<byte>>) returns (ords: seq<nat>)
    ensures Ascending(ids, ords) && |ords| == |ids| && NoDup(ords)
  {
    ords := [];
    for i := 0 to |ids|
      invariant |ords| == i && Ascending(ids, ords)
      invariant forall o | o in multiset(ords) :: o < i && multiset(ords)[o] == 1
    {
      InsertAscends(ids, i, ords);
      ords := Insert(ids, i, ords);
    }
    forall j, k | 0 <= j < k < |ords| ensures ords[j] != ords[k] {
      Twice(ords, j, k);
      assert ords[j] in multiset(ords);
    }
  }

  /** Strictly increasing neighbours make a strictly increasing list. */
  lemma {:induction false} NeighboursRise(ids: seq<seq<byte>>, ords: seq<nat>, j: nat, k: nat)
    requires forall i | 0 <= i < |ords| :: ords[i] < |ids|
    requires forall i | 0 < i < |ords| :: Less(ids[ords[i - 1]], ids[ords[i]])
    requires j < k < |ords|
    ensures Less(ids[ords[j]], ids[ords[k]])
    decreases k
  {
    if j + 1 < k {
      NeighboursRise(ids, ords, j, k - 1);
      LessTransitive(ids[ords[j]], ids[ords[k - 1]], ids[ords[k]]);
    }
  }

  lemma NeighboursOrder(ids: seq<seq<byte>>, ords: seq<nat>)
    requires |ords| == |ids| && forall i | 0 <= i < |ords| :: ords[i] < |ids|
    requires forall i | 0 < i < |ords| :: Less(ids[ords[i - 1]], ids[ords[i]])
    ensures IdOrder(ids, ords)
  {
    hide Less;
    forall j, k | 0 <= j < k < |ords| ensures Less(ids[ords[j]], ids[ords[k]]) {
      NeighboursRise(ids, ords, j, k);
    }
  }

  lemma WordsGrow(ords: seq<nat>, i: nat)
    requires i < |ords|
    ensures Words(ords[..i + 1]) == Words(ords[..i]) + Word(ords[i])
  {
    assert ords[..i + 1][..i] == ords[..i];
  }

  /** Writes the order, or finds a repeated ID. */
  method EncodeIds(ids: seq<seq<byte>>) returns (ok: bool, sec: seq<byte>)
    ensures ok <==> NoDup(ids)
    ensures ok ==> exists ords :: IdOrder(ids, ords) && sec == Layout(ords)
  {
    hide StandsAt, Patch, Word, Words, Less;
    var n := |ids|;
    var ords := SortOrdinals(ids);
    sec := [];
    var buf := new byte[8 + 8 * n](_ => 0);
    PatchStands(buf[..], 0, Word(n));
    Copy(buf, 0, Word(n));
    NoWords(buf[..]);
    for i := 0 to n
      invariant StandsAt(buf[..], 0, Word(n)) && StandsAt(buf[..], 8, Words(ords[..i]))
      invariant forall k | 0 < k < i :: Less(ids[ords[k - 1]], ids[ords[k]])
    {
      if i > 0 {
        LessTotal(ids[ords[i - 1]], ids[ords[i]]);
        if ids[ords[i - 1]] == ids[ords[i]] {
          assert ords[i - 1] != ords[i];
          return false, sec;
        }
      }
      PatchStands(buf[..], 8 + 8 * i, Word(ords[i]));
      PatchKeeps(buf[..], 8 + 8 * i, Word(ords[i]), 0, Word(n));
      PatchKeeps(buf[..], 8 + 8 * i, Word(ords[i]), 8, Words(ords[..i]));
      Copy(buf, 8 + 8 * i, Word(ords[i]));
      StandsJoin(buf[..], 8, Words(ords[..i]), Word(ords[i]));
      WordsGrow(ords, i);
    }
    NeighboursOrder(ids, ords);
    OrderNoDup(ids, ords);
    assert ords[..n] == ords;
    StandsJoin(buf[..], 0, Word(n), Words(ords));
    StandsWhole(buf[..], Layout(ords));
    return true, buf[..];
  }

  lemma NoWords(s: seq<byte>)
    ensures |s| >= 8 ==> StandsAt(s, 8, Words([]))
  {
  }

  // ---------------------------------------------------------------------- reading

  ghost function Ids(v: View): (ids: seq<seq<byte>>)
    requires v.Shaped()
    ensures |ids| == v.n && forall i | 0 <= i < v.n :: ids[i] == v.ID(i)
  {
    seq(v.n, (i: nat) requires i < v.n => v.ID(i))
  }

  /** The k-th ordinal of the section's table. */
  function OrdAt(table: seq<byte>, k: nat): nat
    requires 8 * k + 8 <= |table|
  {
    LE(table[8 * k..8 * k + 8])
  }

  ghost predicate OrdsAre(table: seq<byte>, ords: seq<nat>) {
    8 * |ords| <= |table| && forall k | 0 <= k < |ords| :: OrdAt(table, k) == ords[k]
  }

  lemma LayoutReads(b: seq<byte>, ords: seq<nat>)
    requires b == Layout(ords) && |ords| <= MAX_U32 && forall k | 0 <= k < |ords| :: ords[k] < |ords|
    ensures |b| == 8 + 8 * |ords| && LE(b[0..8]) == |ords| && OrdsAre(b[8..], ords)
  {
    hide Words, Word;
    var n := |ords|;
    BackSlice(Word(n), Words(ords));
    WordReads(n);
    assert b[0..8] == Word(n);
    forall k | 0 <= k < n ensures OrdAt(b[8..], k) == ords[k] {
      WordsAt(ords, k);
      WordReads(ords[k]);
    }
  }

  lemma ReadsLayout(b: seq<byte>, ords: seq<nat>)
    requires |b| == 8 + 8 * |ords| && LE(b[0..8]) == |ords| && OrdsAre(b[8..], ords)
    ensures b == Layout(ords)
  {
    hide Words, Word;
    WordIs(b[0..8], |ords|);
    forall f | 0 <= f < |ords| ensures LE(b[8..][8 * f..8 * f + 8]) == ords[f] {
      assert OrdAt(b[8..], f) == ords[f];
    }
    WordsFrom(b[8..], ords);
    assert b == b[0..8] + b[8..];
  }

  ghost predicate IdsSection(v: View, b: seq<byte>)
    requires v.Shaped()
  {
    exists ords :: IdOrder(Ids(v), ords) && b == Layout(ords)
  }

  /** Accepts exactly the section that lists the view's records in strictly
      increasing ID order. */
  method ParseIds(v: View, b: seq<byte>) returns (ok: bool, table: seq<byte>)
    requires v.Shaped() && v.n <= MAX_U32
    ensures ok <==> IdsSection(v, b)
    ensures ok ==> |table| == 8 * v.n && exists ords :: IdOrder(Ids(v), ords) && OrdsAre(table, ords)
  {
    hide IdsSection, LE, Ids, OrdAt, OrdsAre, IdOrder;
    table := [];
    SectionSays(v, b);
    var n;
    ok, n := Count(b, 0, 8, 0);
    if !ok || n != v.n || |b| != 8 + 8 * n {
      return false, table;
    }
    table := b[8..];
    ok := CheckOrds(v, table);
    if ok {
      ghost var ords := OrdsOf(table, n);
      RisesIsOrder(v, table);
      ReadsLayout(b, ords);
      SectionIs(v, b, ords);
    }
  }

  /** The ordinals a table of n words holds. */
  function OrdsOf(table: seq<byte>, n: nat): (ords: seq<nat>)
    requires |table| == 8 * n
    ensures OrdsAre(table, ords) && |ords| == n
  {
    seq(n, (k: nat) requires k < n => OrdAt(table, k))
  }

  /** Entry k names a record, whose ID is above the one before it. */
  ghost predicate Rises(v: View, table: seq<byte>, k: nat)
    requires v.Shaped() && |table| == 8 * v.n && k < v.n
  {
    && OrdAt(table, k) < v.n
    && (k > 0 && OrdAt(table, k - 1) < v.n ==> Less(Ids(v)[OrdAt(table, k - 1)], Ids(v)[OrdAt(table, k)]))
  }

  method CheckOrds(v: View, table: seq<byte>) returns (ok: bool)
    requires v.Shaped() && |table| == 8 * v.n
    ensures ok <==> forall k: nat | k < v.n :: Rises(v, table, k)
  {
    hide OrdAt, Less, View.ID;
    var prev: seq<byte> := [];
    for i := 0 to v.n
      invariant forall k: nat | k < i :: Rises(v, table, k)
      invariant i > 0 ==> OrdAt(table, i - 1) < v.n && prev == Ids(v)[OrdAt(table, i - 1)]
    {
      var o := OrdAt(table, i);
      if o >= v.n || (i > 0 && !Less(prev, v.ID(o))) {
        assert !Rises(v, table, i);
        return false;
      }
      prev := v.ID(o);
    }
    return true;
  }

  lemma RisesIsOrder(v: View, table: seq<byte>)
    requires v.Shaped() && |table| == 8 * v.n && forall k: nat | k < v.n :: Rises(v, table, k)
    ensures IdOrder(Ids(v), OrdsOf(table, v.n))
  {
    hide OrdAt, Less, View.ID;
    var ords := OrdsOf(table, v.n);
    forall i: nat | i < v.n ensures ords[i] < v.n {
      assert Rises(v, table, i);
    }
    forall i: nat | 0 < i < v.n ensures Less(Ids(v)[ords[i - 1]], Ids(v)[ords[i]]) {
      assert Rises(v, table, i);
    }
    NeighboursOrder(Ids(v), ords);
  }

  lemma SectionIs(v: View, b: seq<byte>, ords: seq<nat>)
    requires v.Shaped() && IdOrder(Ids(v), ords) && b == Layout(ords)
    ensures IdsSection(v, b)
  {
  }

  /** What a section in order is made of. */
  lemma SectionSays(v: View, b: seq<byte>)
    requires v.Shaped() && v.n <= MAX_U32
    ensures IdsSection(v, b) ==>
              |b| == 8 + 8 * v.n && LE(b[0..8]) == v.n && forall k: nat | k < v.n :: Rises(v, b[8..], k)
  {
    hide Layout, View.ID, LE, Less, Ids, OrdAt;
    if IdsSection(v, b) {
      var o :| IdOrder(Ids(v), o) && b == Layout(o);
      LayoutReads(b, o);
    }
  }



  /** Finds the record that holds id, if one does. */
  method Lookup(v: View, table: seq<byte>, id: seq<byte>) returns (found: bool, o: nat)
    requires v.Shaped() && |table| == 8 * v.n
    requires exists ords :: IdOrder(Ids(v), ords) && OrdsAre(table, ords)
    ensures found <==> exists i: nat :: i < v.n && v.ID(i) == id
    ensures found ==> o < v.n && v.ID(o) == id
  {
    hide View.ID, LE;
    ghost var ords :| IdOrder(Ids(v), ords) && OrdsAre(table, ords);
    var lo: nat, hi: nat := 0, v.n;
    while lo < hi
      invariant lo <= hi <= v.n
      invariant forall k | 0 <= k < lo :: Less(Ids(v)[ords[k]], id)
      invariant hi < v.n ==> !Less(Ids(v)[ords[hi]], id)
    {
      var mid := (lo + hi) / 2;
      var here := v.ID(OrdAt(table, mid));
      if Less(here, id) {
        forall k | 0 <= k <= mid ensures Less(Ids(v)[ords[k]], id) {
          if k < mid {
            LessTransitive(Ids(v)[ords[k]], here, id);
          }
        }
        lo := mid + 1;
      } else {
        hi := mid;
      }
    }
    OrderNoDup(Ids(v), ords);
    if lo < v.n && v.ID(OrdAt(table, lo)) == id {
      return true, OrdAt(table, lo);
    }
    forall i: nat | i < v.n ensures v.ID(i) != id {
      assert i in ords;
      var k: nat :| k < |ords| && ords[k] == i;
      LessIrreflexive(id);
      if lo < k {
        LessTotal(Ids(v)[ords[lo]], id);
        LessTransitive(id, Ids(v)[ords[lo]], Ids(v)[ords[k]]);
      }
    }
    return false, 0;
  }

  /** The section written for records is the one their view asks for. */
  lemma WrittenIsAsked(recs: seq<Record>)
    requires Fits(recs)
    ensures Ids(ViewOf(recs)) == seq(|recs|, (i: nat) requires i < |recs| => recs[i].id)
  {
    hide Fits, View.ID;
    forall i | 0 <= i < |recs| ensures ViewOf(recs).ID(i) == recs[i].id {
      ViewReads(recs, i);
    }
  }

  /** So a view's ids section is determined byte for byte, and no two of its
      records share an ID. */
  lemma OneIdsSection(v: View, a: seq<byte>, b: seq<byte>)
    requires v.Shaped() && IdsSection(v, a)
    ensures NoDup(Ids(v))
    ensures IdsSection(v, b) ==> a == b
  {
    var x :| IdOrder(Ids(v), x) && a == Layout(x);
    OrderNoDup(Ids(v), x);
    if IdsSection(v, b) {
      var y :| IdOrder(Ids(v), y) && b == Layout(y);
      OrderUnique(Ids(v), x, y, |x|);
      assert x == y;
    }
  }
}
