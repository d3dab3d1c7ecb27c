/** A list as a map from ID to entry (engine/list.go:62-110, 314-358, 383-430,
    493-530, 719-950, 2041-2087): base, overlay and tombstones represent the
    map, and every mutation acts as the map operation. */
module ListModel {
  import opened Bytes
  import opened Seqs
  import opened Options

  type Id = seq<byte>

  datatype Entry = Entry(id: Id, keys: seq<seq<byte>>, payload: seq<byte>)

  type Live = map<Id, Entry>

  // ------------------------------------------------------------------- segments

  type Analyzer = seq<byte> -> seq<byte>

  /** What a build lost: keys the analyzer left nothing of, entries that only had
      such keys, and entries an index built earlier does not cover. */
  datatype Losses = Losses(dropped: nat, keyless: nat, unindexed: nat)

  /** An indexed run of entries with distinct IDs. */
  datatype Segment = Segment(entries: seq<Entry>, byID: map<Id, nat>, totalKeys: nat, losses: Losses) {
    ghost predicate Valid() {
      && (forall i | 0 <= i < |entries| :: entries[i].id in byID && byID[entries[i].id] == i)
      && (forall id | id in byID :: byID[id] < |entries| && entries[byID[id]].id == id)
      && totalKeys == KeysOf(entries) && losses.unindexed <= |entries|
    }

    /** The losses are those of the entries the index covers. */
    ghost predicate Truthful(norm: Analyzer)
      requires Valid()
    {
      var n := |entries| - losses.unindexed;
      losses.dropped == DroppedOf(norm, entries[..n]) && losses.keyless == KeylessOf(norm, entries[..n])
    }
  }

  /** How many of the keys analyze to nothing. */
  function DroppedKeys(norm: Analyzer, keys: seq<seq<byte>>): (n: nat)
    ensures n <= |keys|
  {
    if keys == [] then 0
    else DroppedKeys(norm, keys[..|keys| - 1]) + if norm(keys[|keys| - 1]) == [] then 1 else 0
  }

  /** An entry that has keys and can match none. */
  predicate Keyless(norm: Analyzer, e: Entry) {
    e.keys != [] && DroppedKeys(norm, e.keys) == |e.keys|
  }

  function DroppedOf(norm: Analyzer, entries: seq<Entry>): nat {
    if entries == [] then 0
    else DroppedOf(norm, entries[..|entries| - 1]) + DroppedKeys(norm, entries[|entries| - 1].keys)
  }

  function KeylessOf(norm: Analyzer, entries: seq<Entry>): nat {
    if entries == [] then 0
    else KeylessOf(norm, entries[..|entries| - 1]) + if Keyless(norm, entries[|entries| - 1]) then 1 else 0
  }

  function KeysOf(entries: seq<Entry>): nat {
    if entries == [] then 0 else KeysOf(entries[..|entries| - 1]) + |entries[|entries| - 1].keys|
  }

  ghost predicate DistinctIds(entries: seq<Entry>) {
    forall i, j | 0 <= i < j < |entries| :: entries[i].id != entries[j].id
  }

  /** The map a list of entries spells: later duplicates win. */
  function LastWins(entries: seq<Entry>): (m: Live)
    ensures forall id | id in m :: m[id].id == id
  {
    if entries == [] then map[]
    else LastWins(entries[..|entries| - 1])[entries[|entries| - 1].id := entries[|entries| - 1]]
  }

  /** Whether the indexes can be built over these entries: an exact index
      refuses a key held by more entries than it can encode. */
  type Builder = seq<Entry> -> bool

  lemma {:induction false} LastWinsHas(entries: seq<Entry>)
    requires DistinctIds(entries)
    ensures forall i | 0 <= i < |entries| ::
              entries[i].id in LastWins(entries) && LastWins(entries)[entries[i].id] == entries[i]
    ensures forall id | id in LastWins(entries) :: exists i :: 0 <= i < |entries| && entries[i].id == id
  {
    if entries != [] {
      LastWinsHas(entries[..|entries| - 1]);
    }
  }

  /** Counts the keys that analyze to nothing. */
  method CountDropped(norm: Analyzer, keys: seq<seq<byte>>) returns (n: nat)
    ensures n == DroppedKeys(norm, keys)
  {
    n := 0;
    for i := 0 to |keys|
      invariant n == DroppedKeys(norm, keys[..i])
    {
      assert keys[..i + 1][..i] == keys[..i];
      if norm(keys[i]) == [] {
        n := n + 1;
      }
    }
    assert keys[..|keys|] == keys;
  }

  /** The segment over entries; fails when they cannot be indexed. */
  method BuildSegment(entries: seq<Entry>, norm: Analyzer, builds: Builder) returns (seg: Option<Segment>)
    requires DistinctIds(entries)
    ensures seg.Some? <==> builds(entries)
    ensures seg.Some? ==> seg.value.Valid() && seg.value.entries == entries
    ensures seg.Some? ==> seg.value.Truthful(norm) && seg.value.losses.unindexed == 0
  {
    hide DroppedKeys;
    var byID: map<Id, nat> := map[];
    var totalKeys, dropped, keyless := 0, 0, 0;
    for i := 0 to |entries|
      invariant totalKeys == KeysOf(entries[..i])
      invariant dropped == DroppedOf(norm, entries[..i]) && keyless == KeylessOf(norm, entries[..i])
      invariant forall j | 0 <= j < i :: entries[j].id in byID && byID[entries[j].id] == j
      invariant forall id | id in byID :: byID[id] < i && entries[byID[id]].id == id
    {
      assert entries[..i + 1][..i] == entries[..i];
      byID := byID[entries[i].id := i];
      var lost := CountDropped(norm, entries[i].keys);
      dropped := dropped + lost;
      if lost == |entries[i].keys| && |entries[i].keys| > 0 {
        keyless := keyless + 1;
      }
      totalKeys := totalKeys + |entries[i].keys|;
    }
    assert entries[..|entries|] == entries;
    if !builds(entries) {
      return None;
    }
    return Some(Segment(entries, byID, totalKeys, Losses(dropped, keyless, 0)));
  }

  /** What a prebuilt index says of its own build. */
  datatype BuildRecord = BuildRecord(entries: int, dropped: int, keyless: int)

  /** A record some build makes, over at most n entries and at least as many as
      the index has ordinals. */
  predicate Plausible(b: BuildRecord, n: nat, ords: nat) {
    0 <= b.dropped && 0 <= b.keyless <= b.entries <= n && ords <= b.entries
  }

  /** The record is that of a build over a prefix of the entries. */
  ghost predicate Honest(norm: Analyzer, entries: seq<Entry>, b: BuildRecord) {
    && 0 <= b.entries <= |entries|
    && b.dropped == DroppedOf(norm, entries[..b.entries]) && b.keyless == KeylessOf(norm, entries[..b.entries])
  }

  /** The segment over entries with an index built before: refused when the index
      has more ordinals than there are entries, or its record is impossible.
      Entries past the record's count are reported as unindexed; without a
      record nothing is. */
  method AttachIndex(entries: seq<Entry>, ords: nat, record: Option<BuildRecord>) returns (seg: Option<Segment>)
    requires DistinctIds(entries)
    ensures seg.Some? <==> ords <= |entries| && (record.Some? ==> Plausible(record.value, |entries|, ords))
    ensures seg.Some? ==> seg.value.Valid() && seg.value.entries == entries
    ensures seg.Some? && record.None? ==> seg.value.losses == Losses(0, 0, 0)
    ensures seg.Some? && record.Some? ==> seg.value.losses.unindexed == |entries| - record.value.entries
    ensures forall norm | seg.Some? && record.Some? && Honest(norm, entries, record.value) :: seg.value.Truthful(norm)
  {
    if ords > |entries| {
      return None;
    }
    var losses := Losses(0, 0, 0);
    if record.Some? {
      var b := record.value;
      if !Plausible(b, |entries|, ords) {
        return None;
      }
      losses := Losses(b.dropped, b.keyless, |entries| - b.entries);
    }
    var built := BuildSegment(entries, k => k, e => true);
    return Some(built.value.(losses := losses));
  }

  // ---------------------------------------------------------------- sorting by ID

  predicate SortedById(s: seq<Entry>) {
    forall i, j | 0 <= i < j < |s| :: Less(s[i].id, s[j].id)
  }

  function InsertEntry(e: Entry, s: seq<Entry>): seq<Entry> {
    if s == [] || Less(e.id, s[0].id) then [e] + s else [s[0]] + InsertEntry(e, s[1..])
  }

  lemma {:induction false} InsertSorted(e: Entry, s: seq<Entry>)
    requires SortedById(s) && forall x | x in s :: x.id != e.id
    ensures SortedById(InsertEntry(e, s)) && Elems(InsertEntry(e, s)) == Elems(s) + {e}
    decreases |s|
  {
    hide Less;
    if s != [] {
      LessTotal(e.id, s[0].id);
      if Less(e.id, s[0].id) {
        forall i | 0 < i < |s| ensures Less(e.id, s[i].id) {
          LessTransitive(e.id, s[0].id, s[i].id);
        }
      } else {
        InsertSorted(e, s[1..]);
        var t := InsertEntry(e, s[1..]);
        forall i | 0 <= i < |t| ensures Less(s[0].id, t[i].id) {
          assert t[i] in Elems(s[1..]) + {e};
        }
        assert Elems(s) == Elems(s[1..]) + {s[0]};
        assert Elems([s[0]] + t) == {s[0]} + Elems(t);
      }
    }
  }

  lemma SortedDistinct(s: seq<Entry>)
    requires SortedById(s)
    ensures DistinctIds(s)
  {
    forall i, j | 0 <= i < j < |s| ensures s[i].id != s[j].id {
      LessIrreflexive(s[i].id);
    }
  }

  /** The entries of a map in ID order: there is one such list. */
  ghost predicate Lists(s: seq<Entry>, m: Live) {
    SortedById(s) && Elems(s) == (set id | id in m :: m[id]) && forall id | id in m :: m[id].id == id
  }

  lemma {:induction false} ListsOnce(s: seq<Entry>, t: seq<Entry>)
    requires SortedById(s) && SortedById(t) && Elems(s) == Elems(t)
    ensures s == t
    decreases |s|
  {
    hide Less;
    if s != [] && t != [] {
      assert s[0] in Elems(t) && t[0] in Elems(s);
      var i :| 0 <= i < |t| && t[i] == s[0];
      var j :| 0 <= j < |s| && s[j] == t[0];
      LessIrreflexive(s[0].id);
      if Less(s[0].id, t[0].id) && Less(t[0].id, s[0].id) {
        LessTransitive(s[0].id, t[0].id, s[0].id);
      }
      assert s[0] == t[0];
      assert Elems(s[1..]) == Elems(s) - {s[0]};
      assert Elems(t[1..]) == Elems(t) - {t[0]};
      ListsOnce(s[1..], t[1..]);
    } else {
      EmptyElems(s);
      EmptyElems(t);
    }
  }

  /** Collects a map's entries in ID order. */
  method SortEntries(m: Live) returns (s: seq<Entry>)
    requires forall id | id in m :: m[id].id == id
    ensures Lists(s, m) && DistinctIds(s) && LastWins(s) == m
  {
    hide Less, InsertEntry, SortedById, LastWins;
    s := [];
    var left := m.Keys;
    NothingSorted();
    while left != {}
      invariant left <= m.Keys && SortedById(s)
      invariant Elems(s) == set id | id in m.Keys - left :: m[id]
      decreases |left|
    {
      var id :| id in left;
      forall x | x in s ensures x.id != id {
        assert x in Elems(s);
      }
      InsertSorted(m[id], s);
      s := InsertEntry(m[id], s);
      assert m.Keys - (left - {id}) == (m.Keys - left) + {id};
      left := left - {id};
    }
    assert m.Keys - {} == m.Keys;
    SortedDistinct(s);
    ListedIsMap(s, m);
  }

  lemma NothingSorted()
    ensures SortedById([])
  {
  }

  lemma ListedIsMap(s: seq<Entry>, m: Live)
    requires DistinctIds(s) && Elems(s) == (set id | id in m :: m[id]) && forall id | id in m :: m[id].id == id
    ensures LastWins(s) == m
  {
    hide LastWins;
    LastWinsHas(s);
    forall id ensures id in LastWins(s) <==> id in m {
      if id in m {
        assert m[id] in Elems(s);
      }
      if id in LastWins(s) {
        var i :| 0 <= i < |s| && s[i].id == id;
        assert s[i] in Elems(s);
      }
    }
    forall id | id in m ensures LastWins(s)[id] == m[id] {
      assert m[id] in Elems(s);
    }
  }

  /** The entries from position i on that no later entry overrides. */
  function Kept(entries: seq<Entry>, i: nat): seq<Entry>
    requires i <= |entries|
    decreases |entries| - i
  {
    if i == |entries| then []
    else (if Final(entries, i) then [entries[i]] else []) + Kept(entries, i + 1)
  }

  predicate Final(entries: seq<Entry>, i: nat)
    requires i < |entries|
  {
    forall j | i < j < |entries| :: entries[j].id != entries[i].id
  }

  function Dedupe(entries: seq<Entry>): seq<Entry> {
    Kept(entries, 0)
  }

  lemma {:induction false} LastWinsFront(e: Entry, r: seq<Entry>)
    ensures LastWins([e] + r) == map[e.id := e] + LastWins(r)
    decreases |r|
  {
    if r == [] {
      assert [e] + r == [e] && [e][..0] == [];
    } else {
      var n := |r| - 1;
      LastWinsFront(e, r[..n]);
      assert ([e] + r)[..|r|] == [e] + r[..n] && ([e] + r)[|r|] == r[n];
      AddLast(map[e.id := e], LastWins(r[..n]), r[n]);
    }
  }

  lemma {:induction false} KeptFrom(entries: seq<Entry>, i: nat, x: Entry)
    requires i <= |entries| && x in Kept(entries, i)
    ensures exists j :: i <= j < |entries| && entries[j] == x
    decreases |entries| - i
  {
    if i < |entries| && x in Kept(entries, i + 1) {
      KeptFrom(entries, i + 1, x);
    }
  }

  lemma {:induction false} KeptDistinct(entries: seq<Entry>, i: nat)
    requires i <= |entries|
    ensures DistinctIds(Kept(entries, i))
    decreases |entries| - i
  {
    if i < |entries| {
      var rest := Kept(entries, i + 1);
      KeptDistinct(entries, i + 1);
      if Final(entries, i) {
        forall k | 0 <= k < |rest| ensures rest[k].id != entries[i].id {
          KeptFrom(entries, i + 1, rest[k]);
        }
      }
    }
  }

  lemma {:induction false} KeptMap(entries: seq<Entry>, i: nat)
    requires i <= |entries|
    ensures LastWins(Kept(entries, i)) == LastWins(entries[i..])
    decreases |entries| - i
  {
    hide LastWins;
    if i < |entries| {
      var rest := Kept(entries, i + 1);
      KeptMap(entries, i + 1);
      assert entries[i..] == [entries[i]] + entries[i + 1..];
      LastWinsFront(entries[i], entries[i + 1..]);
      if Final(entries, i) {
        LastWinsFront(entries[i], rest);
      } else {
        LaterWins(entries, i);
        assert Kept(entries, i) == rest;
        assert map[entries[i].id := entries[i]] + LastWins(entries[i + 1..]) == LastWins(entries[i + 1..]);
      }
    } else {
      assert entries[i..] == [];
    }
  }

  lemma LaterWins(entries: seq<Entry>, i: nat)
    requires i < |entries| && !Final(entries, i)
    ensures entries[i].id in LastWins(entries[i + 1..])
  {
    var j :| i < j < |entries| && entries[j].id == entries[i].id;
    HasId(entries[i + 1..], j - i - 1);
  }

  lemma {:induction false} HasId(s: seq<Entry>, k: nat)
    requires k < |s|
    ensures s[k].id in LastWins(s)
    decreases |s|
  {
    if k < |s| - 1 {
      HasId(s[..|s| - 1], k);
    }
  }

  lemma {:induction false} DistinctKept(entries: seq<Entry>, i: nat)
    requires i <= |entries| && DistinctIds(entries)
    ensures Kept(entries, i) == entries[i..]
    decreases |entries| - i
  {
    if i < |entries| {
      DistinctKept(entries, i + 1);
      assert entries[i..] == [entries[i]] + entries[i + 1..];
    }
  }

  lemma DedupeDistinct(entries: seq<Entry>)
    requires DistinctIds(entries)
    ensures Dedupe(entries) == entries
  {
    DistinctKept(entries, 0);
    assert entries[0..] == entries;
  }

  /** The last position of each ID, and whether some ID repeats. */
  ghost predicate LastOf(entries: seq<Entry>, n: nat, last: map<Id, nat>)
    requires n <= |entries|
  {
    && (forall id | id in last :: last[id] < n && entries[last[id]].id == id)
    && (forall j | 0 <= j < n :: entries[j].id in last && j <= last[entries[j].id])
  }

  lemma LastOfFinal(entries: seq<Entry>, last: map<Id, nat>, i: nat)
    requires LastOf(entries, |entries|, last) && i < |entries|
    ensures entries[i].id in last
    ensures last[entries[i].id] == i <==> Final(entries, i)
  {
    if last[entries[i].id] != i {
      assert entries[last[entries[i].id]].id == entries[i].id;
    }
  }

  method LastPositions(entries: seq<Entry>) returns (last: map<Id, nat>, dup: bool)
    ensures LastOf(entries, |entries|, last)
    ensures !dup ==> DistinctIds(entries)
  {
    last := map[];
    dup := false;
    for i := 0 to |entries|
      invariant LastOf(entries, i, last)
      invariant !dup ==> forall j, k | 0 <= j < k < i :: entries[j].id != entries[k].id
    {
      if entries[i].id in last {
        dup := true;
      }
      last := last[entries[i].id := i];
    }
  }

  /** Drops all but the last occurrence of each ID. */
  method DedupeLastWins(entries: seq<Entry>) returns (out: seq<Entry>)
    ensures out == Dedupe(entries) && DistinctIds(out) && LastWins(out) == LastWins(entries)
  {
    hide LastWins, DistinctIds, LastOf, Final;
    KeptDistinct(entries, 0);
    KeptMap(entries, 0);
    assert entries[0..] == entries;
    var last, dup := LastPositions(entries);
    if !dup {
      DedupeDistinct(entries);
      return entries;
    }
    out := [];
    for i := 0 to |entries|
      invariant out + Kept(entries, i) == Dedupe(entries)
    {
      LastOfFinal(entries, last, i);
      if last[entries[i].id] == i {
        out := out + [entries[i]];
      }
    }
  }

  lemma LastWinsPush(entries: seq<Entry>, i: nat)
    requires i < |entries|
    ensures LastWins(entries[..i + 1]) == LastWins(entries[..i])[entries[i].id := entries[i]]
  {
    assert entries[..i + 1][..i] == entries[..i];
  }

  // ------------------------------------------------------ the overlay and records

  /** The mutable part of a snapshot: overlay entries, and masked base IDs. */
  datatype Overlay = Overlay(src: Live, tomb: set<Id>)

  const Empty := Overlay(map[], {})

  /** One mutation, as a journal records it; an unknown record does nothing. */
  datatype Rec = Upsert(entry: Entry) | Delete(id: Id) | Unknown

  function Apply(o: Overlay, r: Rec, baseIds: set<Id>): Overlay {
    match r
    case Upsert(e) => Overlay(o.src[e.id := e], if e.id in baseIds then o.tomb + {e.id} else o.tomb)
    case Delete(id) => Overlay(o.src - {id}, if id in baseIds then o.tomb + {id} else o.tomb)
    case Unknown => o
  }

  /** Record-by-record replay. */
  function ApplyAll(o: Overlay, recs: seq<Rec>, baseIds: set<Id>): Overlay {
    if recs == [] then o else Apply(ApplyAll(o, recs[..|recs| - 1], baseIds), recs[|recs| - 1], baseIds)
  }

  function RecOn(m: Live, r: Rec): Live {
    match r
    case Upsert(e) => m[e.id := e]
    case Delete(id) => m - {id}
    case Unknown => m
  }

  function RecsOn(m: Live, recs: seq<Rec>): Live {
    if recs == [] then m else RecOn(RecsOn(m, recs[..|recs| - 1]), recs[|recs| - 1])
  }

  /** The map a base and an overlay stand for. */
  function LiveOf(base: Live, o: Overlay): Live {
    (base - o.tomb) + o.src
  }

  /** The snapshot invariants: only base IDs are masked; an overlay entry masks
      its base copy; entries are filed under their own IDs. */
  predicate Coherent(base: Live, o: Overlay) {
    && o.tomb <= base.Keys
    && (forall id | id in o.src && id in base :: id in o.tomb)
    && (forall id | id in o.src :: o.src[id].id == id)
  }

  lemma ApplyKeeps(base: Live, o: Overlay, r: Rec)
    requires Coherent(base, o)
    ensures Coherent(base, Apply(o, r, base.Keys))
    ensures LiveOf(base, Apply(o, r, base.Keys)) == RecOn(LiveOf(base, o), r)
  {
    var now, m := LiveOf(base, Apply(o, r, base.Keys)), RecOn(LiveOf(base, o), r);
    forall id ensures id in now <==> id in m {
    }
    forall id | id in now ensures now[id] == m[id] {
    }
  }

  /** One-batch replay is the map operations in order. */
  lemma {:induction false} ApplyAllKeeps(base: Live, o: Overlay, recs: seq<Rec>)
    requires Coherent(base, o)
    ensures Coherent(base, ApplyAll(o, recs, base.Keys))
    ensures LiveOf(base, ApplyAll(o, recs, base.Keys)) == RecsOn(LiveOf(base, o), recs)
    decreases |recs|
  {
    if recs != [] {
      ApplyAllKeeps(base, o, recs[..|recs| - 1]);
      ApplyKeeps(base, ApplyAll(o, recs[..|recs| - 1], base.Keys), recs[|recs| - 1]);
    }
  }

  lemma {:induction false} ApplyAllJoin(o: Overlay, a: seq<Rec>, b: seq<Rec>, baseIds: set<Id>)
    ensures ApplyAll(o, a + b, baseIds) == ApplyAll(ApplyAll(o, a, baseIds), b, baseIds)
    decreases |b|
  {
    if b == [] {
      assert a + b == a;
    } else {
      assert (a + b)[..|a + b| - 1] == a + b[..|b| - 1];
      ApplyAllJoin(o, a, b[..|b| - 1], baseIds);
    }
  }

  /** The overlay entries a replay leaves do not depend on the base. */
  lemma {:induction false} SourceIgnoresBase(o: Overlay, p: Overlay, recs: seq<Rec>, ids: set<Id>, ids': set<Id>)
    requires o.src == p.src
    ensures ApplyAll(o, recs, ids).src == ApplyAll(p, recs, ids').src
    decreases |recs|
  {
    if recs != [] {
      SourceIgnoresBase(o, p, recs[..|recs| - 1], ids, ids');
    }
  }

  /** What one record decides about an ID: nothing, absence, or an entry. */
  function Verdict(r: Rec, id: Id): Option<Option<Entry>> {
    match r
    case Upsert(e) => if e.id == id then Some(Some(e)) else None
    case Delete(x) => if x == id then Some(None) else None
    case Unknown => None
  }

  /** The last decision about an ID. */
  function LastVerdict(recs: seq<Rec>, id: Id): Option<Option<Entry>> {
    if recs == [] then None
    else if Verdict(recs[|recs| - 1], id).Some? then Verdict(recs[|recs| - 1], id)
    else LastVerdict(recs[..|recs| - 1], id)
  }

  lemma {:induction false} VerdictDecides(m: Live, recs: seq<Rec>, id: Id)
    ensures match LastVerdict(recs, id)
            case None => (id in RecsOn(m, recs) <==> id in m) && (id in m ==> RecsOn(m, recs)[id] == m[id])
            case Some(None) => id !in RecsOn(m, recs)
            case Some(Some(e)) => id in RecsOn(m, recs) && RecsOn(m, recs)[id] == e
    decreases |recs|
  {
    if recs != [] {
      VerdictDecides(m, recs[..|recs| - 1], id);
    }
  }

  /** Replaying records over their own result changes nothing. */
  lemma ReplayIdempotent(m: Live, recs: seq<Rec>)
    ensures RecsOn(RecsOn(m, recs), recs) == RecsOn(m, recs)
  {
    hide RecsOn, LastVerdict;
    var r := RecsOn(m, recs);
    forall id
      ensures id in RecsOn(r, recs) <==> id in r
      ensures id in r && id in RecsOn(r, recs) ==> RecsOn(r, recs)[id] == r[id]
    {
      VerdictDecides(m, recs, id);
      VerdictDecides(r, recs, id);
    }
  }

  /** An upsert batch as records. */
  function UpsertRecs(entries: seq<Entry>): (r: seq<Rec>)
    ensures |r| == |entries|
  {
    seq(|entries|, i requires 0 <= i < |entries| => Upsert(entries[i]))
  }

  lemma {:induction false} UpsertsAreLastWins(m: Live, entries: seq<Entry>)
    ensures RecsOn(m, UpsertRecs(entries)) == m + LastWins(entries)
    decreases |entries|
  {
    if entries == [] {
      assert m + map[] == m;
    } else {
      var n := |entries| - 1;
      var e := entries[n];
      UpsertsAreLastWins(m, entries[..n]);
      assert UpsertRecs(entries)[..n] == UpsertRecs(entries[..n]);
      AddLast(m, LastWins(entries[..n]), e);
    }
  }

  lemma AddLast(m: Live, n: Live, e: Entry)
    ensures (m + n)[e.id := e] == m + n[e.id := e]
  {
  }
}
