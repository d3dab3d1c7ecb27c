/** A journal that is set aside (engine/store.go:478-560, 1433-1561): with the
    exact index's own bound on runs, a batch that is accepted as a whole has a
    prefix that cannot be indexed, so a crash between its lines loses every
    acknowledged record since the base. */
module Quarantine {
  import opened Bytes
  import opened Seqs
  import opened Options
  import opened Spelling
  import opened ListModel
  import opened ListState
  import opened JournalFile
  import opened StoreDisk
  import opened Store
  import opened ExactBuild
  import X = ExactIndex
  import Q = ExactQuery

  // ---------------------------------------------------------- which maps build

  ghost function HeldIn(rules: Q.Rules, m: Live, key: Key): set<Id> {
    set id | id in m && Q.Holds(rules, m[id], key)
  }

  lemma {:induction false} SomeListing(m: Live, ids: set<Id>) returns (s: seq<Entry>)
    requires ids <= m.Keys && forall id | id in m :: m[id].id == id
    ensures SortedById(s) && Elems(s) == set id | id in ids :: m[id]
    decreases |ids|
  {
    hide Less, InsertEntry, SortedById;
    if ids == {} {
      s := [];
      NothingSorted();
    } else {
      var id :| id in ids;
      s := SomeListing(m, ids - {id});
      forall x | x in s ensures x.id != id {
        assert x in Elems(s);
      }
      InsertSorted(m[id], s);
      s := InsertEntry(m[id], s);
      assert ids == (ids - {id}) + {id};
    }
  }

  ghost function IdsAt(s: seq<Entry>, ords: set<nat>): set<Id>
    requires forall o | o in ords :: o < |s|
  {
    set o | o in ords :: s[o].id
  }

  /** Entries have as many IDs as ordinals. */
  lemma {:induction false} OrdinalsAreIds(s: seq<Entry>, ords: set<nat>)
    requires DistinctIds(s) && forall o | o in ords :: o < |s|
    ensures |IdsAt(s, ords)| == |ords|
    decreases |ords|
  {
    if ords == {} {
      assert IdsAt(s, ords) == {};
    } else {
      var o: nat :| o in ords;
      OrdinalsAreIds(s, ords - {o});
      assert IdsAt(s, ords) == IdsAt(s, ords - {o}) + {s[o].id};
    }
  }

  lemma HoldersAreHeld(rules: Q.Rules, m: Live, s: seq<Entry>, key: Key)
    requires Lists(s, m)
    ensures |Holders(rules, s, key)| == |HeldIn(rules, m, key)|
  {
    hide Q.Holds, SortedById;
    SortedDistinct(s);
    OrdinalsAreIds(s, Holders(rules, s, key));
    var ids := IdsAt(s, Holders(rules, s, key));
    forall id ensures id in ids <==> id in HeldIn(rules, m, key) {
      if id in ids {
        var o: nat :| o in Holders(rules, s, key) && s[o].id == id;
        assert s[o] in Elems(s);
      }
      if id in HeldIn(rules, m, key) {
        assert m[id] in Elems(s);
        var o: nat :| o < |s| && s[o] == m[id];
        assert o in Holders(rules, s, key);
      }
    }
    assert ids == HeldIn(rules, m, key);
  }

  /** A map can be indexed exactly when no key is held by more entries than a
      run can list. */
  lemma CanBuildIff(rules: Q.Rules, m: Live)
    requires forall id | id in m :: m[id].id == id
    ensures CanBuild(RunCap(rules), m) <==> forall key :: |HeldIn(rules, m, key)| <= X.MAX_RUN
  {
    hide Holders, HeldIn, SortedById;
    var s := SomeListing(m, m.Keys);
    assert Lists(s, m);
    BuildIsCanBuild(RunCap(rules), m, s);
    forall key ensures |Holders(rules, s, key)| == |HeldIn(rules, m, key)| {
      HoldersAreHeld(rules, m, s, key);
    }
  }

  // --------------------------------------------------------------- the hot key

  const FULL: nat := X.MAX_RUN

  /** The analyzer that changes nothing. */
  function Verbatim(): Q.Rules {
    Q.Rules(k => k, p => true)
  }

  /** The letter a. */
  const HOT: Key := [97]

  function HotEntry(i: nat): Entry {
    Entry(Spelt(5, i), [HOT], [])
  }

  function HotEntries(n: nat): (s: seq<Entry>)
    ensures |s| == n && forall i | 0 <= i < n :: s[i] == HotEntry(i)
  {
    seq(n, (i: nat) => HotEntry(i))
  }

  /** The same entry, no longer holding the key. */
  function Cooled(): Entry {
    Entry(Spelt(5, 0), [], [])
  }

  ghost function HotIds(n: nat): set<Id> {
    set i: nat | i < n :: Spelt(5, i)
  }

  lemma {:induction false} HotIdCount(n: nat)
    requires n <= 0x10_0000
    ensures |HotIds(n)| == n
  {
    hide Spelt;
    if n == 0 {
      assert HotIds(0) == {};
    } else {
      HotIdCount(n - 1);
      FiveLetters();
      forall i: nat | i < n - 1 ensures Spelt(5, i) != Spelt(5, n - 1) {
        if Spelt(5, i) == Spelt(5, n - 1) {
          SpeltDiffer(5, i, n - 1);
        }
      }
      assert HotIds(n) == HotIds(n - 1) + {Spelt(5, n - 1)};
    }
  }

  lemma FiveLetters()
    ensures Pow16(5) == 0x10_0000
  {
    assert Pow16(3) == 4096;
  }

  lemma HotMap(n: nat)
    requires n <= 0x10_0000
    ensures LastWins(HotEntries(n)).Keys == HotIds(n)
    ensures forall i: nat | i < n :: LastWins(HotEntries(n))[Spelt(5, i)] == HotEntry(i)
    ensures forall id | id in HotIds(n) :: LastWins(HotEntries(n))[id] == Entry(id, [HOT], [])
  {
    hide Spelt, LastWins;
    var s := HotEntries(n);
    FiveLetters();
    forall i, j | 0 <= i < j < n ensures s[i].id != s[j].id {
      if Spelt(5, i) == Spelt(5, j) {
        SpeltDiffer(5, i, j);
      }
    }
    LastWinsHas(s);
    forall i: nat | i < n ensures Spelt(5, i) in LastWins(s) && LastWins(s)[Spelt(5, i)] == HotEntry(i) {
      assert s[i].id == Spelt(5, i);
    }
    forall id | id in LastWins(s) ensures id in HotIds(n) {
      var i :| 0 <= i < n && s[i].id == id;
    }
  }

  lemma VerbatimHolds(e: Entry, key: Key)
    ensures Q.Holds(Verbatim(), e, key) <==> key != [] && key in e.keys
  {
  }

  /** Maps whose entries hold the hot key or none. */
  lemma HotBuilds(m: Live, hot: set<Id>)
    requires hot <= m.Keys
    requires forall id | id in m :: m[id] == Entry(id, if id in hot then [HOT] else [], [])
    ensures CanBuild(RunCap(Verbatim()), m) <==> |hot| <= FULL
  {
    hide Q.Holds;
    CanBuildIff(Verbatim(), m);
    forall key ensures HeldIn(Verbatim(), m, key) == if key == HOT then hot else {} {
      forall id | id in m ensures Q.Holds(Verbatim(), m[id], key) <==> key == HOT && id in hot {
        VerbatimHolds(m[id], key);
      }
    }
    assert |HeldIn(Verbatim(), m, HOT)| == |hot|;
  }

  // ------------------------------------------------------------------ the loss

  /** A store whose lists are exact ones, keys analyzed to themselves. */
  ghost predicate Exact(env: Env) {
    forall cfg, entries :: env.builds(cfg)(entries) <==> RunsFit(Verbatim(), entries)
  }

  lemma ExactBuilds(env: Env, cfg: Config, m: Live)
    requires Exact(env)
    ensures CanBuild(env.builds(cfg), m) <==> CanBuild(RunCap(Verbatim()), m)
  {
    hide RunsFit, Lists;
    if CanBuild(env.builds(cfg), m) {
      var s :| Lists(s, m) && env.builds(cfg)(s);
      assert RunCap(Verbatim())(s);
    }
    if CanBuild(RunCap(Verbatim()), m) {
      var s :| Lists(s, m) && RunCap(Verbatim())(s);
      assert env.builds(cfg)(s);
    }
  }

  /** A key's run is full; then one entry takes up the key and another lets go. */
  function Acked(): seq<Rec> {
    UpsertRecs(HotEntries(FULL))
  }

  function Batch(): seq<Rec> {
    [Rec.Upsert(HotEntry(FULL)), Rec.Upsert(Cooled())]
  }

  lemma SourceIs(recs: seq<Rec>)
    ensures ApplyAll(Empty, recs, {}).src == RecsOn(map[], recs)
  {
    hide ApplyAll, RecsOn;
    ApplyAllKeeps(map[], Empty, recs);
    var o := ApplyAll(Empty, recs, {});
    var none: Live := map[];
    assert none.Keys == {};
    assert LiveOf(none, Empty) == none;
    assert LiveOf(none, o) == o.src;
  }

  /** What the three runs of records leave in the overlay. */
  lemma Sources()
    ensures ApplyAll(Empty, Acked(), {}).src == LastWins(HotEntries(FULL))
    ensures ApplyAll(Empty, Acked() + Batch()[..1], {}).src ==
            LastWins(HotEntries(FULL))[Spelt(5, FULL) := HotEntry(FULL)]
    ensures ApplyAll(Empty, Acked() + Batch(), {}).src ==
            LastWins(HotEntries(FULL))[Spelt(5, FULL) := HotEntry(FULL)][Spelt(5, 0) := Cooled()]
  {
    hide ApplyAll, LastWins, Spelt, HotEntries;
    var a, b := Acked(), Batch();
    SourceIs(a);
    SourceIs(a + b[..1]);
    SourceIs(a + b);
    UpsertsAreLastWins(map[], HotEntries(FULL));
    assert map[] + LastWins(HotEntries(FULL)) == LastWins(HotEntries(FULL));
    RecsPush(map[], a, b[0]);
    RecsPush(map[], a + b[..1], b[1]);
    assert a + b[..1] == a + [b[0]];
    assert a + b == a + b[..1] + [b[1]];
  }

  lemma RecsPush(m: Live, recs: seq<Rec>, r: Rec)
    ensures RecsOn(m, recs + [r]) == RecOn(RecsOn(m, recs), r)
  {
    assert (recs + [r])[..|recs|] == recs;
  }

  lemma AckedBuilds()
    ensures CanBuild(RunCap(Verbatim()), LastWins(HotEntries(FULL)))
  {
    hide Spelt, LastWins, CanBuild, HotEntries;
    HotMap(FULL);
    HotIdCount(FULL);
    HotBuilds(LastWins(HotEntries(FULL)), HotIds(FULL));
  }

  lemma NewIdIsNew()
    ensures Spelt(5, FULL) !in HotIds(FULL) && Spelt(5, 0) in HotIds(FULL)
  {
    hide Spelt;
    FiveLetters();
    forall i: nat | i < FULL ensures Spelt(5, i) != Spelt(5, FULL) {
      if Spelt(5, i) == Spelt(5, FULL) {
        SpeltDiffer(5, i, FULL);
      }
    }
  }

  lemma BatchBuilds()
    ensures var one := LastWins(HotEntries(FULL))[Spelt(5, FULL) := HotEntry(FULL)];
            && !CanBuild(RunCap(Verbatim()), one)
            && CanBuild(RunCap(Verbatim()), one[Spelt(5, 0) := Cooled()])
  {
    hide Spelt, LastWins, CanBuild, HotEntries;
    HotMap(FULL);
    HotIdCount(FULL);
    NewIdIsNew();
    var one := LastWins(HotEntries(FULL))[Spelt(5, FULL) := HotEntry(FULL)];
    var both := HotIds(FULL) + {Spelt(5, FULL)};
    HotBuilds(one, both);
    HotBuilds(one[Spelt(5, 0) := Cooled()], both - {Spelt(5, 0)});
  }

  lemma FirstLine(c: LineCodec, a: Rec, b: Rec)
    ensures var k := |c.encode(a)| + 1;
            k <= |Lines(c, [a, b])| && Whole(c, [a, b], k) == 1
  {
    assert [a, b][1..] == [b];
    assert Whole(c, [b], 0) == 0;
  }

  /** The acknowledged entries fill the run. */
  lemma AckedCount(s: Served)
    requires s.base.None? && s.overlay.src == LastWins(HotEntries(FULL))
    ensures |LiveMap(s)| == FULL
  {
    hide LastWins, Spelt, HotEntries;
    HotMap(FULL);
    HotIdCount(FULL);
    assert LiveMap(s) == s.overlay.src;
    assert |LiveMap(s)| == |LiveMap(s).Keys|;
  }

  /** They can be indexed. */
  lemma AckedFit(env: Env, cfg: Config)
    requires Exact(env)
    ensures Buildable(env, cfg, ApplyAll(Empty, Acked(), {}))
  {
    hide ApplyAll, LastWins, Spelt, CanBuild, HotEntries, Acked, Exact;
    Sources();
    AckedBuilds();
    ExactBuilds(env, cfg, LastWins(HotEntries(FULL)));
  }

  /** So can the batch on top of them, but not its first record alone. */
  lemma PrefixFails(env: Env, cfg: Config)
    requires Exact(env)
    ensures var o := ApplyAll(Empty, Acked(), {});
            Buildable(env, cfg, ApplyAll(o, Batch(), {})) && !Buildable(env, cfg, ApplyAll(o, Batch()[..1], {}))
  {
    hide ApplyAll, LastWins, Spelt, CanBuild, HotEntries, Acked, Exact;
    Sources();
    BatchBuilds();
    ApplyAllJoin(Empty, Acked(), Batch(), {});
    ApplyAllJoin(Empty, Acked(), Batch()[..1], {});
    ExactBuilds(env, cfg, ApplyAll(Empty, Acked() + Batch(), {}).src);
    ExactBuilds(env, cfg, ApplyAll(Empty, Acked() + Batch()[..1], {}).src);
    assert Spelt(5, FULL) in ApplyAll(Empty, Acked() + Batch()[..1], {}).src;
  }

  /** The line of the batch's first record. */
  function FirstLineOf(codec: LineCodec): seq<byte> {
    codec.encode(Batch()[0]) + [LF]
  }

  /** Memory and disk agree on a list, and a batch for it can be indexed. The
      process dies with the batch's first line written, and the list reopens
      without any of the 2^20 - 1 entries acknowledged before. */
  lemma QuarantineHappens(env: Env, before: Dir, s: Served, d: Dir)
    requires Exact(env) && Lawful(env.codec) && AllFit(env.codec, Batch())
    requires Sync(env, before, s, Acked()) && s.base.None?
    requires CutAt(env, before, Batch(), |FirstLineOf(env.codec)|, d)
    ensures |LiveMap(s)| == FULL && Appendable(env, s, Batch())
    ensures OpenList(env, d).Opened? && OpenList(env, d).quarantined
    ensures LiveMap(OpenList(env, d).served) == map[]
  {
    hide ApplyAll, LastWins, CanBuild, Buildable, Lines, Whole, OpenList, AllFit, Lawful, Acked, Exact, HotEntry,
      Cooled, LiveMap, RecsOn;
    Sources();
    NoBase(s);
    AckedCount(s);
    PrefixFails(env, s.cfg);
    FirstLine(env.codec, Batch()[0], Batch()[1]);
    FirstBytes(env.codec, Batch()[0], Batch()[1]);
    AppendRecovery(env, before, s, Acked(), Batch(), d, |FirstLineOf(env.codec)|);
    Opens(env, d);
  }

  lemma NoBase(s: Served)
    requires s.base.None?
    ensures BaseMap(s.base).Keys == {}
  {
  }

  /** A list whose key's run is full, in a store without failures. */
  ghost predicate Filled(st: ListStore)
    reads st
  {
    && st.Valid() && st.calm && st.damage == NoDamage && !st.shipped && st.acked == Acked()
    && st.mem.Some? && st.mem.value.base.None?
  }

  /** From an empty directory: a list is created, and a key's run filled. */
  method Fill(env: Env, fits: Entry -> bool, fsync: FsyncMode, cfg: Config) returns (st: ListStore)
    requires Exact(env) && Lawful(env.codec) && AllFit(env.codec, Acked())
    ensures fresh(st) && st.env == env && Filled(st)
  {
    hide ApplyAll, LastWins, CanBuild, Buildable, Lines, AllFit, Lawful, Acked, Exact, LiveMap, RecsOn, HotEntries,
      ListStore.Valid, Sync, CutAmong, CreatePoint, StampFrom, AppendTrace, Batch;
    BatchesAre();
    st := new ListStore(env, fits, fsync);
    var created := st.CreateList(cfg, true);
    NoBase(st.mem.value);
    AckedFit(env, cfg);
    var first := st.Upsert(HotEntries(FULL));
  }

  /** A batch is acknowledged, and the process dies where its first line ends. */
  method Lose(st: ListStore) returns (quarantined: bool)
    requires Filled(st) && Exact(st.env) && AllFit(st.env.codec, Batch())
    modifies st
    ensures st.Valid() && quarantined && st.mem.Some? && LiveMap(st.mem.value) == map[]
  {
    hide ApplyAll, LastWins, CanBuild, Buildable, Lines, AllFit, Lawful, Acked, Exact, LiveMap, RecsOn, HotEntry,
      Cooled, ListStore.Valid, Sync, CutAmong, CutAt, OpenList, AppendTrace, Batch, StampFrom, FirstLineOf, Advanced;
    BatchesAre();
    st.InSync();
    ghost var before, s := st.disk, st.mem.value;
    var start := JournalBytes(st.disk);
    SyncedOverlay(st.env, before, s);
    PrefixFails(st.env, s.cfg);
    st.CutNext(|FirstLineOf(st.env.codec)|);
    var second := st.Upsert([HotEntry(FULL), Cooled()]);
    CutIsThere(st.env, before, st.trace);
    var point :| 0 <= point < |st.trace| && JournalBytes(st.trace[point]) == start + FirstLineOf(st.env.codec);
    FoundCut(st.env, before, st.trace, point);
    QuarantineHappens(st.env, before, s, st.trace[point]);
    quarantined := st.Crash(point);
  }

  /** The same from an empty directory, by the store's own operations: all that
      was acknowledged is set aside. */
  method LosingRun(env: Env, fits: Entry -> bool, fsync: FsyncMode, cfg: Config)
    returns (st: ListStore, quarantined: bool)
    requires Exact(env) && Lawful(env.codec) && AllFit(env.codec, Acked()) && AllFit(env.codec, Batch())
    ensures fresh(st) && st.Valid() && quarantined && st.mem.Some? && LiveMap(st.mem.value) == map[]
  {
    hide Filled, ListStore.Valid, Exact, AllFit, Lawful, LiveMap;
    st := Fill(env, fits, fsync, cfg);
    FilledIsValid(st);
    quarantined := Lose(st);
  }

  lemma FilledIsValid(st: ListStore)
    requires Filled(st)
    ensures st.Valid()
  {
    hide ListStore.Valid;
  }

  lemma BatchesAre()
    ensures Acked() == UpsertRecs(HotEntries(FULL)) && Batch() == UpsertRecs([HotEntry(FULL), Cooled()])
    ensures [] + Acked() == Acked()
  {
    hide HotEntries, HotEntry, Cooled;
  }

  lemma SyncedOverlay(env: Env, d: Dir, s: Served)
    requires Sync(env, d, s, Acked()) && s.base.None?
    ensures s.overlay == ApplyAll(Empty, Acked(), {}) && BaseMap(s.base).Keys == {}
  {
    hide ApplyAll, Acked, Lines;
    NoBase(s);
  }

  /** The cut is after the first line. */
  lemma CutIsThere(env: Env, before: Dir, trace: seq<Dir>)
    requires CutAmong(env, before, Batch(), |FirstLineOf(env.codec)|, trace)
    ensures exists i :: 0 <= i < |trace| && JournalBytes(trace[i]) == JournalBytes(before) + FirstLineOf(env.codec)
  {
    hide Lines, HotEntry, Cooled;
    FirstBytes(env.codec, Batch()[0], Batch()[1]);
    var d :| d in trace && CutAt(env, before, Batch(), |FirstLineOf(env.codec)|, d);
    var i :| 0 <= i < |trace| && trace[i] == d;
  }

  lemma FoundCut(env: Env, before: Dir, trace: seq<Dir>, i: nat)
    requires AppendTrace(env, before, Batch(), trace) && AllFit(env.codec, Batch())
    requires i < |trace| && JournalBytes(trace[i]) == JournalBytes(before) + FirstLineOf(env.codec)
    ensures CutAt(env, before, Batch(), |FirstLineOf(env.codec)|, trace[i])
  {
    hide Lines, HotEntry, Cooled, AllFit;
    FirstBytes(env.codec, Batch()[0], Batch()[1]);
  }

  lemma FirstBytes(c: LineCodec, a: Rec, b: Rec)
    ensures |c.encode(a)| + 1 <= |Lines(c, [a, b])|
    ensures Lines(c, [a, b])[..|c.encode(a)| + 1] == c.encode(a) + [LF]
  {
    assert [a, b][1..] == [b];
  }

  lemma Opens(env: Env, d: Dir)
    requires OpenList(env, d).Opened? && OpenList(env, d).quarantined && d.base.None?
    ensures LiveMap(OpenList(env, d).served) == map[]
  {
  }
}
