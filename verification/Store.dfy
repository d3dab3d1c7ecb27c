/** The durable store of one list (engine/store.go:282-323, 604-710, 735-867,
    885-933, 1028-1098, 1134-1260, 1433-1561): every operation is a
    sequence of directory steps, each of which may fail and after each of which
    the process may die. */
module Store {
  import opened Bytes
  import opened Seqs
  import opened ListModel
  import opened ListState
  import opened JournalFile
  import opened StoreDisk
  import opened Options

  /** Why a list refuses appends. Content damage: base and journal bytes are
      unverifiable. Create damage: a re-create died in its window. */
  datatype Damage = NoDamage | Content | Create

  datatype FsyncMode = FsyncNone | FsyncEvery | FsyncInterval

  /** Memory alone is a list that could have been built. */
  ghost predicate GoodMemory(env: Env, s: Served) {
    && GoodBase(env, s.cfg, s.base)
    && Coherent(BaseMap(s.base), s.overlay)
    && Buildable(env, s.cfg, s.overlay)
  }

  lemma SyncIsGood(env: Env, d: Dir, s: Served, recs: seq<Rec>)
    requires Sync(env, d, s, recs)
    ensures GoodMemory(env, s)
    ensures LiveMap(s) == RecsOn(BaseMap(s.base), recs)
  {
    hide ApplyAll, RecsOn, CanBuild, Lines;
    NothingShadowed(BaseMap(s.base));
    ApplyAllKeeps(BaseMap(s.base), Empty, recs);
  }

  lemma NothingShadowed(base: Live)
    ensures Coherent(base, Empty) && LiveOf(base, Empty) == base
  {
  }

  class ListStore {
    const env: Env
    const fits: Entry -> bool
    const fsync: FsyncMode

    var disk: Dir
    var mem: Option<Served>
    var damage: Damage
    /** No disk step fails while this holds. */
    var calm: bool
    /** How many bytes of an append are in the file when a crash or a failing
        write cuts it. */
    var cut: nat

    /** The directory at every crash point of the last operation. */
    var trace: seq<Dir>
    /** The acknowledged records in the journal. */
    ghost var acked: seq<Rec>
    /** The directory was changed from outside, and not yet reloaded. */
    ghost var shipped: bool

    ghost predicate Valid()
      reads this
    {
      && Lawful(env.codec)
      && |trace| > 0 && trace[|trace| - 1] == disk
      && (forall d | d in trace :: SoundDir(env, d))
      && (mem.Some? ==> GoodMemory(env, mem.value))
      && (mem.Some? && damage == NoDamage ==> Rested(env, disk, acked))
      && (mem.Some? && damage == NoDamage && !shipped ==> Sync(env, disk, mem.value, acked))
      && (damage == Content ==> mem.Some? && !disk.marker)
      && (damage == Content && !shipped ==> disk.config == Some(mem.value.cfg))
    }

    /** A store with no directory for the list yet. */
    constructor (env: Env, fits: Entry -> bool, fsync: FsyncMode)
      requires Lawful(env.codec)
      ensures Valid() && mem.None? && this.env == env && this.fits == fits && damage == NoDamage && !shipped
      ensures calm && acked == []
    {
      this.env, this.fits, this.fsync, calm, cut := env, fits, fsync, true, 0;
      var empty := Dir(false, None, None, None, None);
      disk, mem, damage, trace, acked, shipped := empty, None, NoDamage, [empty], [], false;
      EmptySound(env, empty);
    }

    /** One durable step. */
    method Step(d: Dir)
      modifies this`disk, this`trace
      ensures disk == d && trace == old(trace) + [d]
    {
      disk, trace := d, trace + [d];
    }

    method Begin()
      modifies this`trace
      ensures trace == [disk]
    {
      trace := [disk];
    }

    /** Whether an overlay's entries can be indexed. */
    method PrepareOverlay(cfg: Config, o: Overlay) returns (ok: bool)
      requires forall id | id in o.src :: o.src[id].id == id
      ensures ok <==> Buildable(env, cfg, o)
    {
      if o.src == map[] {
        return true;
      }
      var s := SortEntries(o.src);
      BuildIsCanBuild(env.builds(cfg), o.src, s);
      ok := env.builds(cfg)(s);
    }

    /** Appends records in one write and makes them as durable as configured;
        any failure after bytes may have reached the file rolls them back. */
    method AppendJournal(recs: seq<Rec>) returns (ok: bool, buf: seq<byte>)
      requires Valid() && mem.Some?
      modifies this`disk, this`trace, this`damage
      ensures old(damage) != NoDamage ==> !ok && damage == old(damage) && disk == old(disk) && trace == old(trace)
      ensures damage == old(damage) || (damage == Content && !ok)
      ensures |trace| >= |old(trace)| && trace[..|old(trace)|] == old(trace) && trace[|trace| - 1] == disk
      ensures old(damage) == NoDamage ==>
                forall i | |old(trace)| <= i < |trace| :: PartOf(env, old(disk), recs, trace[i])
      ensures disk.(journal := old(disk).journal) == old(disk)
      ensures ok ==> AllFit(env.codec, recs) && buf == Lines(env.codec, recs)
      ensures ok ==> JournalBytes(disk) == JournalBytes(old(disk)) + buf && CutAmong(env, old(disk), recs, cut, trace)
      ensures !ok && damage == NoDamage ==> JournalBytes(disk) == JournalBytes(old(disk))
      ensures calm && old(damage) == NoDamage ==> damage == NoDamage && (ok <==> AllFit(env.codec, recs))
    {
      hide Lines, Sync, SoundDir, GoodMemory, Lawful, PartOf, AllFit, Rested, CutAt;
      buf := [];
      if damage != NoDamage {
        return false, buf;
      }
      var encoded := Marshal(env.codec, recs);
      if encoded.None? {
        return false, buf;
      }
      var isOpen: bool :| calm ==> isOpen;
      if !isOpen {
        return false, buf;
      }
      buf := encoded.value;
      var start := JournalBytes(disk);
      if disk.journal.None? {
        PartNone(env, disk, recs, disk.(journal := Some([])));
        Step(disk.(journal := Some([])));
      }
      ok := WriteAndSync(old(disk), recs, start, buf);
      if !ok {
        var undone: bool :| calm ==> undone;
        if undone {
          PartNone(env, old(disk), recs, disk.(journal := Some(start)));
          Step(disk.(journal := Some(start)));
        } else {
          damage := Content;
        }
      }
    }

    /** Writes buf at the end of the file; a failed write leaves part of it, and
        a write can fail to become durable after it succeeded. */
    method WriteAndSync(ghost before: Dir, ghost recs: seq<Rec>, start: seq<byte>, buf: seq<byte>) returns (ok: bool)
      requires |trace| > 0 && AllFit(env.codec, recs) && buf == Lines(env.codec, recs)
      requires before.(journal := disk.journal) == disk && JournalBytes(before) == start
      modifies this`disk, this`trace
      ensures |trace| > |old(trace)| && trace[..|old(trace)|] == old(trace) && trace[|trace| - 1] == disk
      ensures forall i | |old(trace)| <= i < |trace| :: PartOf(env, before, recs, trace[i])
      ensures CutAmong(env, before, recs, cut, trace)
      ensures disk.(journal := old(disk).journal) == old(disk) && disk.journal.Some?
      ensures ok ==> JournalBytes(disk) == start + buf
      ensures calm ==> ok
    {
      hide Lines, PartOf, AllFit, CutAt;
      var k := if cut <= |buf| then cut else |buf|;
      PartHere(env, before, recs, k, disk.(journal := Some(start + buf[..k])));
      Step(disk.(journal := Some(start + buf[..k])));
      CutHere(env, before, recs, cut, disk);
      ghost var torn := disk;
      assert torn in trace;
      ok :| calm ==> ok;
      if ok {
        assert buf[..|buf|] == buf;
        PartHere(env, before, recs, |buf|, disk.(journal := Some(start + buf)));
        Step(disk.(journal := Some(start + buf)));
        assert torn in trace;
        var synced: bool, closed: bool, committed: bool :| calm ==> synced && closed && committed;
        ok := (fsync == FsyncEvery ==> synced) && closed && (fsync == FsyncInterval ==> committed);
      }
    }

    /** Prepares, journals, then installs a batch of records. */
    method Mutate(recs: seq<Rec>) returns (ok: bool)
      requires Valid()
      modifies this`disk, this`mem, this`damage, this`trace, this`acked
      ensures Valid()
      ensures old(damage) != NoDamage || old(mem).None? ==>
                !ok && mem == old(mem) && damage == old(damage) && disk == old(disk)
      ensures ok ==> old(mem).Some? && mem.Some? && damage == NoDamage && Advanced(env, old(mem.value), mem.value, recs)
      ensures ok ==> acked == old(acked) + recs && disk.(journal := old(disk).journal) == old(disk)
      ensures !ok ==> mem == old(mem) && (damage == old(damage) || damage == Content)
      ensures old(damage) == NoDamage && old(mem).Some? ==> AppendTrace(env, old(disk), recs, trace)
      ensures ok ==> CutAmong(env, old(disk), recs, cut, trace)
      ensures calm && old(damage) == NoDamage && old(mem).Some? ==>
                damage == NoDamage && (ok <==> Appendable(env, old(mem.value), recs))
    {
      hide Sync, SoundDir, GoodMemory, Lawful, PartOf, Buildable, Advanced, StampFrom, Rested, CutAmong;
      Begin();
      ok := false;
      if mem.None? {
        return;
      }
      var s := mem.value;
      var o := ApplyAll(s.overlay, recs, BaseMap(s.base).Keys);
      AdvanceKeeps(env, s, recs);
      ok := PrepareOverlay(s.cfg, o);
      if !ok {
        return;
      }
      var buf;
      ok, buf := AppendJournal(recs);
      if old(damage) == NoDamage {
        PartsAreSound(env, old(disk), acked, recs, trace);
        RestedMarker(env, old(disk), acked);
      }
      if ok {
        var jbytes := s.jbytes + buf;
        mem := Some(Served(s.cfg, s.base, o, StampFrom(s.cfg, s.base, |JournalBytes(disk)|, jbytes), jbytes));
        AppendRests(env, old(disk), disk, acked, recs);
        AppendKeeps(env, s, mem.value, recs, |JournalBytes(disk)|);
        if !shipped {
          AppendSyncs(env, old(disk), disk, s, mem.value, acked, recs);
        }
        acked := acked + recs;
      } else if damage == NoDamage {
        SameRest(env, old(disk), disk, acked);
        if !shipped {
          SameJournal(env, old(disk), disk, s, acked);
        }
      } else if !shipped && old(damage) == NoDamage {
        MarkerOf(env, old(disk), s, acked);
      }
    }

    /** Adds or replaces entries. */
    method Upsert(entries: seq<Entry>) returns (ok: bool)
      requires Valid()
      modifies this`disk, this`mem, this`damage, this`trace, this`acked
      ensures Valid()
      ensures old(damage) != NoDamage || old(mem).None? ==>
                !ok && mem == old(mem) && damage == old(damage) && disk == old(disk)
      ensures ok ==> old(mem).Some? && mem.Some? && damage == NoDamage
      ensures ok ==> LiveMap(mem.value) == LiveMap(old(mem.value)) + LastWins(entries)
      ensures ok ==> Advanced(env, old(mem.value), mem.value, UpsertRecs(entries))
      ensures ok ==> acked == old(acked) + UpsertRecs(entries)
      ensures ok ==> disk.(journal := old(disk).journal) == old(disk)
      ensures ok ==> CutAmong(env, old(disk), UpsertRecs(entries), cut, trace)
      ensures !ok ==> mem == old(mem) && (damage == old(damage) || damage == Content)
      ensures old(damage) == NoDamage && old(mem).Some? ==> AppendTrace(env, old(disk), UpsertRecs(entries), trace)
      ensures calm && old(damage) == NoDamage && old(mem).Some? ==>
                damage == NoDamage && (ok <==> Appendable(env, old(mem.value), UpsertRecs(entries)))
    {
      hide Sync, SoundDir, GoodMemory, Lawful, PartOf, Rested, CutAmong;
      ok := Mutate(UpsertRecs(entries));
      if ok {
        UpsertsAreLastWins(LiveMap(old(mem.value)), entries);
      }
    }

    /** Removes an entry. */
    method Delete(id: Id) returns (ok: bool)
      requires Valid()
      modifies this`disk, this`mem, this`damage, this`trace, this`acked
      ensures Valid()
      ensures old(damage) != NoDamage || old(mem).None? ==>
                !ok && mem == old(mem) && damage == old(damage) && disk == old(disk)
      ensures ok ==> old(mem).Some? && mem.Some? && damage == NoDamage
      ensures ok ==> LiveMap(mem.value) == LiveMap(old(mem.value)) - {id}
      ensures ok ==> Advanced(env, old(mem.value), mem.value, [Rec.Delete(id)])
      ensures ok ==> acked == old(acked) + [Rec.Delete(id)]
      ensures ok ==> disk.(journal := old(disk).journal) == old(disk)
      ensures ok ==> CutAmong(env, old(disk), [Rec.Delete(id)], cut, trace)
      ensures !ok ==> mem == old(mem) && (damage == old(damage) || damage == Content)
      ensures old(damage) == NoDamage && old(mem).Some? ==> AppendTrace(env, old(disk), [Rec.Delete(id)], trace)
      ensures calm && old(damage) == NoDamage && old(mem).Some? ==>
                damage == NoDamage && (ok <==> Appendable(env, old(mem.value), [Rec.Delete(id)]))
    {
      hide Sync, SoundDir, GoodMemory, Lawful, PartOf, Rested, CutAmong;
      ok := Mutate([Rec.Delete(id)]);
      if ok {
        OneRec(LiveMap(old(mem.value)), Rec.Delete(id));
      }
    }

    // ------------------------------------------------------------ rebuilding the base

    /** Every entry's line is within the line limit. */
    predicate AllShort(entries: seq<Entry>) {
      forall e | e in entries :: fits(e)
    }

    /** Writes a new base and empties the journal: the content to a temporary
        file, the index removed, the rename, the truncation, each synced. From
        the rename on the operation cannot roll back. */
    method Rebase(entries: seq<Entry>) returns (ok: bool, published: bool)
      requires Valid() && trace == [disk] && DistinctIds(entries)
      modifies this`disk, this`trace
      ensures |trace| > 0 && trace[|trace| - 1] == disk
      ensures forall d | d in trace :: SoundDir(env, d) && RebasePoint(old(disk), entries, d)
      ensures !published ==> !ok && (disk == old(disk) || disk == old(disk).(idx := None))
      ensures disk.marker == old(disk).marker && disk.config == old(disk).config
      ensures ok ==> disk.base == Some(entries) && disk.idx.None? && JournalBytes(disk) == []
      ensures calm ==> (ok <==> AllShort(entries)) && ok == published
    {
      hide SoundDir, GoodMemory, Sync, Rested, DistinctIds;
      ok, published := false, false;
      var written: bool, removed: bool, renamed: bool :| calm ==> written && removed && renamed;
      if !AllShort(entries) || !written || !removed {
        return;
      }
      SoundNoIdx(env, disk);
      Step(disk.(idx := None));
      if !renamed {
        return;
      }
      SoundBase(env, disk, entries);
      Step(disk.(base := Some(entries)));
      published := true;
      var dirSynced: bool, truncated: bool, truncateSynced: bool :| calm ==> dirSynced && truncated && truncateSynced;
      if !dirSynced {
        return;
      }
      if disk.journal.Some? {
        if !truncated {
          return;
        }
        SoundTruncated(env, disk);
        Step(disk.(journal := Some([])));
        if !truncateSynced {
          return;
        }
      }
      ok := true;
    }

    /** Saves the index cache over the served base; failure is tolerated. */
    method SaveArtifact(cfg: Config, entries: seq<Entry>)
      requires |trace| > 0 && trace[|trace| - 1] == disk && disk.base == Some(entries) && env.builds(cfg)(entries)
      requires forall d | d in trace :: SoundDir(env, d)
      modifies this`disk, this`trace
      ensures (trace == old(trace) && disk == old(disk)) ||
              (disk == old(disk).(idx := Some(Idx(ContentOf(entries), cfg.index, entries))) &&
               trace == old(trace) + [disk])
      ensures calm ==> disk.idx == Some(Idx(ContentOf(entries), cfg.index, entries))
      ensures |trace| > 0 && trace[|trace| - 1] == disk && forall d | d in trace :: SoundDir(env, d)
    {
      hide SoundDir;
      var saved: bool :| calm ==> saved;
      if saved {
        SoundIdx(env, disk, cfg, entries);
        Step(disk.(idx := Some(Idx(ContentOf(entries), cfg.index, entries))));
      }
    }

    /** Swaps the whole content. */
    method Replace(entries: seq<Entry>) returns (ok: bool)
      requires Valid()
      modifies this`disk, this`mem, this`damage, this`trace, this`acked, this`shipped
      ensures Valid()
      ensures old(damage) == Create || old(mem).None? ==>
                !ok && mem == old(mem) && damage == old(damage) && disk == old(disk)
      ensures ok ==> old(mem).Some? && damage == NoDamage
      ensures ok ==> mem == Some(Fresh(old(mem.value).cfg, Dedupe(entries))) && LiveMap(mem.value) == LastWins(entries)
      ensures ok ==> env.builds(old(mem.value).cfg)(Dedupe(entries))
      ensures !ok ==> mem == old(mem) && (damage == old(damage) || damage == Content)
      ensures shipped ==> old(shipped)
      ensures calm && old(damage) != Create && old(mem).Some? ==>
                damage == (if ok then NoDamage else old(damage)) &&
                (ok <==> env.builds(old(mem.value).cfg)(Dedupe(entries)) && AllShort(Dedupe(entries)))
    {
      hide SoundDir, GoodBase, GoodMemory, Sync, Lines, RebasePoint, Rested, DistinctIds;
      Begin();
      ok := false;
      if mem.None? || damage == Create {
        return;
      }
      var s := mem.value;
      AtRest();
      var deduped := DedupeLastWins(entries);
      if !env.builds(s.cfg)(deduped) {
        return;
      }
      GoodFold(env, s.cfg, deduped);
      FoldedMap(s.cfg, deduped);
      ok := Install(s, deduped);
    }

    /** Persists a prepared base and serves it; shared tail of a replace and a
        compact. */
    method Install(s: Served, entries: seq<Entry>) returns (ok: bool)
      requires Valid() && trace == [disk] && mem == Some(s) && damage != Create
      requires !disk.marker && GoodBase(env, s.cfg, Some(entries))
      modifies this`disk, this`mem, this`damage, this`trace, this`acked, this`shipped
      ensures Valid()
      ensures ok ==> damage == NoDamage && mem == Some(Fresh(s.cfg, entries))
      ensures !ok ==> mem == old(mem) && (damage == old(damage) || damage == Content)
      ensures shipped ==> old(shipped)
      ensures forall d | d in trace :: InstallPoint(old(disk), s.cfg, entries, d)
      ensures calm ==> (ok <==> AllShort(entries)) && (!ok ==> damage == old(damage))
    {
      hide SoundDir, GoodBase, GoodMemory, Sync, Lines, RebasePoint, Rested, DistinctIds;
      GoodBaseBuilds(env, s.cfg, entries);
      if damage == NoDamage && !shipped {
        MarkerOf(env, disk, s, acked);
      }
      var published;
      ok, published := Rebase(entries);
      forall d | d in trace ensures InstallPoint(old(disk), s.cfg, entries, d) {
        RebaseInstalls(old(disk), s.cfg, entries, d);
      }
      if !ok {
        if published {
          damage := Content;
        } else if damage == NoDamage {
          RestNoIdx(env, old(disk), disk, acked);
          if !shipped {
            SyncNoIdx(env, old(disk), disk, s, acked);
          }
        }
        return;
      }
      Serve(s.cfg, entries);
      SavedInstalls(old(disk), s.cfg, entries, disk);
    }

    /** Serves a base that is in place, with its index cache beside it. */
    method Serve(cfg: Config, entries: seq<Entry>)
      requires Lawful(env.codec) && |trace| > 0 && trace[|trace| - 1] == disk
      requires forall d | d in trace :: SoundDir(env, d)
      requires !disk.marker && disk.base == Some(entries) && disk.idx.None? && JournalBytes(disk) == []
      requires GoodBase(env, cfg, Some(entries)) && (!shipped ==> disk.config == Some(cfg))
      modifies this`disk, this`mem, this`damage, this`trace, this`acked, this`shipped
      ensures Valid() && damage == NoDamage && mem == Some(Fresh(cfg, entries))
      ensures shipped ==> old(shipped)
      ensures (trace == old(trace) && disk == old(disk)) || trace == old(trace) + [disk]
      ensures disk == old(disk) || disk == old(disk).(idx := Some(Idx(ContentOf(entries), cfg.index, entries)))
    {
      hide SoundDir, GoodBase, GoodMemory, Sync, Lines, Rested;
      GoodBaseBuilds(env, cfg, entries);
      damage, mem, acked := NoDamage, Some(Fresh(cfg, entries)), [];
      SaveArtifact(cfg, entries);
      EmptyRests(env, disk);
      FreshGood(env, cfg, entries);
      shipped := shipped && disk.config != Some(cfg);
      if !shipped {
        FreshSync(env, disk, cfg, entries);
      }
    }

    /** Outside create damage no marker stands. */
    lemma AtRest()
      requires Valid() && mem.Some? && damage != Create
      ensures !disk.marker
    {
      if damage == NoDamage {
        RestedMarker(env, disk, acked);
      }
    }

    predicate AllShortIn(live: Live) {
      forall id | id in live :: fits(live[id])
    }

    lemma ListedShort(entries: seq<Entry>, live: Live)
      requires Lists(entries, live)
      ensures AllShort(entries) <==> AllShortIn(live)
    {
      hide SortedById;
      forall id | id in live ensures live[id] in entries {
        assert live[id] in Elems(entries);
      }
      forall e | e in entries ensures exists id :: id in live && live[id] == e {
        assert e in Elems(entries);
      }
    }

    /** Folds base and overlay into a fresh base. Every crash point recovers to
        the acknowledged content. */
    method Compact() returns (ok: bool)
      requires Valid()
      modifies this`disk, this`mem, this`damage, this`trace, this`acked, this`shipped
      ensures Valid()
      ensures old(damage) == Create || old(mem).None? ==>
                !ok && mem == old(mem) && damage == old(damage) && disk == old(disk)
      ensures ok ==> old(mem).Some? && mem.Some? && damage == NoDamage && LiveMap(mem.value) == LiveMap(old(mem.value))
      ensures ok ==> mem.value.base.Some? && mem.value == Fresh(old(mem.value).cfg, mem.value.base.value)
      ensures ok ==> CanBuild(env.builds(mem.value.cfg), LiveMap(mem.value))
      ensures !ok ==> mem == old(mem) && (damage == old(damage) || damage == Content)
      ensures shipped ==> old(shipped)
      ensures old(damage) == NoDamage && old(mem).Some? && !old(shipped) ==>
                forall d | d in trace :: Recovers(env, d, LiveMap(old(mem.value)))
      ensures calm && old(damage) != Create && old(mem).Some? ==>
                damage == (if ok then NoDamage else old(damage)) &&
                (ok <==> CanBuild(env.builds(old(mem.value).cfg), LiveMap(old(mem.value))) &&
                         AllShortIn(LiveMap(old(mem.value))))
    {
      hide SoundDir, GoodBase, GoodMemory, Sync, Lines, RebasePoint, InstallPoint, Recovers, LiveMap, Rested;
      Begin();
      ok := false;
      if mem.None? {
        return;
      }
      var s := mem.value;
      if damage == NoDamage && !shipped {
        SyncRecovers(env, disk, s, acked);
      }
      if damage == Create {
        return;
      }
      AtRest();
      GoodLive(env, s);
      var live := SortEntries(LiveMap(s));
      BuildIsCanBuild(env.builds(s.cfg), LiveMap(s), live);
      ListedShort(live, LiveMap(s));
      if !env.builds(s.cfg)(live) {
        return;
      }
      GoodFold(env, s.cfg, live);
      ok := Install(s, live);
      if old(damage) == NoDamage && !old(shipped) {
        forall d | d in trace ensures Recovers(env, d, LiveMap(s)) {
          FoldRecovers(env, old(disk), s, old(acked), live, d);
        }
      }
      FoldedMap(s.cfg, live);
    }

    // ------------------------------------------------------------------ re-creating

    /** Creates or re-creates the list. The marker brackets the window in which
        old data is gone and the new configuration is not yet in place. */
    method CreateList(cfg: Config, valid: bool) returns (ok: bool)
      requires Valid()
      modifies this`disk, this`mem, this`damage, this`trace, this`acked, this`shipped
      ensures Valid()
      ensures ok ==> valid && damage == NoDamage && !shipped
      ensures ok ==> mem == Some(Served(cfg, None, Empty, BaseStamp(cfg, None), []))
      ensures ok ==> acked == []
      ensures !ok ==> mem == old(mem) && (damage == old(damage) || damage == Create)
      ensures forall d | d in trace :: CreatePoint(env, old(disk), cfg, d)
      ensures calm ==> (ok <==> valid)
    {
      hide SoundDir, GoodBase, GoodMemory, Sync, Lines, OpenList, Lawful, Rested;
      MarkedSkips(env);
      FreshOpens(env, cfg);
      Begin();
      ok := false;
      var made: bool, written: bool :| calm ==> made && written;
      if !valid || !made || !written {
        return;
      }
      SoundMarked(env, disk, disk.(marker := true));
      Step(disk.(marker := true));
      shipped := false;
      var markerSynced: bool :| calm ==> markerSynced;
      if !markerSynced {
        damage := Create;
        return;
      }
      ok := Rewrite(cfg);
      if !ok {
        damage := Create;
        return;
      }
      damage, mem, acked := NoDamage, Some(Served(cfg, None, Empty, BaseStamp(cfg, None), [])), [];
      FreshList(env, disk, cfg);
      SyncIsSound(env, disk, mem.value, []);
      SyncIsGood(env, disk, mem.value, []);
    }

    /** Wipes the old data, then brings in the new configuration. */
    method Rewrite(cfg: Config) returns (ok: bool)
      requires disk.marker && |trace| > 0 && trace[|trace| - 1] == disk
      requires forall d | d in trace :: SoundDir(env, d)
      modifies this`disk, this`trace
      ensures |trace| > 0 && trace[|trace| - 1] == disk && forall d | d in trace :: SoundDir(env, d)
      ensures forall d | d in trace :: d in old(trace) || d.marker || d == Dir(false, Some(cfg), None, None, None)
      ensures ok ==> disk == Dir(false, Some(cfg), None, None, None)
      ensures calm ==> ok
    {
      hide SoundDir;
      ok := Wipe();
      if ok {
        ok := Configure(cfg);
      }
    }

    /** Puts the new configuration in place over wiped data, and then the marker
        goes. */
    method Configure(cfg: Config) returns (ok: bool)
      requires disk.marker && disk.base.None? && disk.idx.None? && disk.journal.None?
      requires |trace| > 0 && trace[|trace| - 1] == disk && forall d | d in trace :: SoundDir(env, d)
      modifies this`disk, this`trace
      ensures |trace| > 0 && trace[|trace| - 1] == disk && forall d | d in trace :: SoundDir(env, d)
      ensures forall d | d in trace :: d in old(trace) || d.marker || d == Dir(false, Some(cfg), None, None, None)
      ensures ok ==> disk == Dir(false, Some(cfg), None, None, None)
      ensures calm ==> ok
    {
      hide SoundDir, Sync, OpenList;
      var configured: bool, configSynced: bool :| calm ==> configured && configSynced;
      if !configured {
        return false;
      }
      SoundMarked(env, disk, disk.(config := Some(cfg)));
      Step(disk.(config := Some(cfg)));
      if !configSynced {
        return false;
      }
      var cleared: bool, clearSynced: bool :| calm ==> cleared && clearSynced;
      if !cleared {
        return false;
      }
      FreshList(env, disk.(marker := false), cfg);
      Step(disk.(marker := false));
      return clearSynced;
    }

    /** Removes base, index and journal, in that order, until one removal fails. */
    method Wipe() returns (ok: bool)
      requires disk.marker && |trace| > 0 && trace[|trace| - 1] == disk
      requires forall d | d in trace :: SoundDir(env, d)
      modifies this`disk, this`trace
      ensures disk.marker && |trace| > 0 && trace[|trace| - 1] == disk
      ensures forall d | d in trace :: SoundDir(env, d) && (d in old(trace) || d.marker)
      ensures ok ==> disk.base.None? && disk.idx.None? && disk.journal.None?
      ensures calm ==> ok
    {
      hide SoundDir;
      var base: bool, idx: bool, journal: bool :| calm ==> base && idx && journal;
      if !base {
        return false;
      }
      SoundMarked(env, disk, disk.(base := None));
      Step(disk.(base := None));
      if !idx {
        return false;
      }
      SoundMarked(env, disk, disk.(idx := None));
      Step(disk.(idx := None));
      if !journal {
        return false;
      }
      SoundMarked(env, disk, disk.(journal := None));
      Step(disk.(journal := None));
      return true;
    }

    // ---------------------------------------------------------------------- opening

    /** Opens the directory as it stands: base, index or rebuild, journal. */
    method OpenDir() returns (o: Option<Served>, quarantined: bool)
      requires Lawful(env.codec) && |trace| > 0 && trace[|trace| - 1] == disk
      requires forall d | d in trace :: SoundDir(env, d)
      modifies this`disk, this`trace
      ensures |trace| > 0 && trace[|trace| - 1] == disk && forall d | d in trace :: SoundDir(env, d)
      ensures o.Some? ==> OpenList(env, old(disk)) == Opened(o.value, quarantined) && Repaired(env, old(disk), disk)
      ensures Healed(old(disk), disk)
      ensures JournalBytes(old(disk)) == [] ==> JournalBytes(disk) == []
      ensures calm ==> (o.Some? <==> OpenList(env, old(disk)).Opened?)
    {
      hide SoundDir, Lines, Read, ApplyAll, CanBuild, Dedupe, LastWins;
      o, quarantined := None, false;
      var readable: bool :| calm ==> readable;
      if disk.marker || disk.config.None? || !readable {
        return;
      }
      ghost var d0 := disk;
      var cfg := disk.config.value;
      var base: Option<seq<Entry>> := None;
      if disk.base.Some? {
        var entries := DedupeLastWins(disk.base.value);
        if !Installs(env, disk) {
          if !env.builds(cfg)(entries) {
            return;
          }
          Heal(cfg, entries);
        }
        base := Some(entries);
      }
      o, quarantined := Replay(d0, cfg, base);
    }

    /** Replays the journal over the base, in one batch. */
    method Replay(ghost d0: Dir, cfg: Config, base: Option<seq<Entry>>) returns (o: Option<Served>, quarantined: bool)
      requires Lawful(env.codec) && |trace| > 0 && trace[|trace| - 1] == disk && disk.journal == d0.journal
      requires forall d | d in trace :: SoundDir(env, d)
      requires !d0.marker && d0.config == Some(cfg)
      requires d0.base.Some? ==> Installs(env, d0) || env.builds(cfg)(Dedupe(d0.base.value))
      requires base == if d0.base.Some? then Some(Dedupe(d0.base.value)) else None
      requires Healed(d0, disk)
      modifies this`disk, this`trace
      ensures |trace| > 0 && trace[|trace| - 1] == disk && forall d | d in trace :: SoundDir(env, d)
      ensures o.Some? ==> OpenList(env, d0) == Opened(o.value, quarantined) && Repaired(env, d0, disk)
      ensures Healed(d0, disk)
      ensures JournalBytes(d0) == [] ==> JournalBytes(disk) == []
      ensures calm ==> (o.Some? <==> OpenList(env, d0).Opened?)
    {
      hide SoundDir, Lines, Read, ApplyAll, CanBuild, Dedupe, LastWins, Installs;
      o, quarantined := None, false;
      var recs, kept, repaired := LoadJournal(d0);
      if !repaired {
        return;
      }
      var overlay := ApplyAll(Empty, recs, BaseMap(base).Keys);
      NothingShadowed(BaseMap(base));
      ApplyAllKeeps(BaseMap(base), Empty, recs);
      if |recs| == 0 {
        o := Some(Served(cfg, base, Empty, BaseStamp(cfg, base), kept));
        return;
      }
      var applied := PrepareOverlay(cfg, overlay);
      if applied {
        o := Some(Served(cfg, base, overlay, StampAt(cfg, base, kept), kept));
        return;
      }
      var renamed: bool :| calm ==> renamed;
      if !renamed {
        return;
      }
      SoundNoJournal(env, disk);
      Step(disk.(journal := None));
      o := Some(Served(cfg, base, Empty, BaseStamp(cfg, base), []));
      quarantined := true;
    }

    /** Rebuilds the index cache after a fallback; failure is tolerated. */
    method Heal(cfg: Config, entries: seq<Entry>)
      requires |trace| > 0 && trace[|trace| - 1] == disk && disk.base.Some? && !disk.marker && disk.config == Some(cfg)
      requires entries == Dedupe(disk.base.value) && env.builds(cfg)(entries)
      requires forall d | d in trace :: SoundDir(env, d)
      modifies this`disk, this`trace
      ensures || disk == old(disk)
              || disk == old(disk).(idx := Some(Idx(ContentOf(old(disk).base.value), cfg.index, entries)))
      ensures calm ==> disk.idx.Some? && disk.idx.value.over == entries
      ensures |trace| > 0 && trace[|trace| - 1] == disk && forall d | d in trace :: SoundDir(env, d)
    {
      hide SoundDir, Lines, Dedupe;
      var saved: bool :| calm ==> saved;
      if saved {
        SoundHealed(env, disk, cfg, entries);
        Step(disk.(idx := Some(Idx(ContentOf(disk.base.value), cfg.index, entries))));
      }
    }

    /** Reads the journal and cuts a torn tail. */
    method LoadJournal(ghost d0: Dir) returns (recs: seq<Rec>, kept: seq<byte>, ok: bool)
      requires Lawful(env.codec) && |trace| > 0 && trace[|trace| - 1] == disk && disk.journal == d0.journal
      requires forall d | d in trace :: SoundDir(env, d)
      modifies this`disk, this`trace
      ensures |trace| > 0 && trace[|trace| - 1] == disk && forall d | d in trace :: SoundDir(env, d)
      ensures disk.(journal := old(disk).journal) == old(disk)
      ensures ok ==> recs == Read(env.codec, JournalBytes(d0)).recs && kept == Intact(env, d0) == JournalBytes(disk)
      ensures JournalBytes(d0) == [] ==> JournalBytes(disk) == []
      ensures calm ==> ok
    {
      hide SoundDir, Lines, Read;
      var bytes := JournalBytes(disk);
      var r := ReadJournal(env.codec, bytes);
      recs, kept, ok := r.recs, bytes, true;
      if r.torn.Some? {
        TornRepair(env.codec, bytes);
        var truncated: bool :| calm ==> truncated;
        if !truncated {
          return recs, kept, false;
        }
        kept := bytes[..r.torn.value];
        SoundRepaired(env, disk);
        Step(disk.(journal := Some(kept)));
      }
    }

    // ------------------------------------------------------------------- publishing

    /** A bundle's files are moved into the directory, some of the way or all of
        it: the index and the journal removed, then configuration, base and
        index renamed into place. What is served does not change. */
    method Ship(b: Bundle, steps: nat)
      requires Valid() && GoodBundle(env, b)
      modifies this`disk, this`trace, this`acked, this`shipped
      ensures Valid() && |trace| <= 6 && |trace| <= steps + 1
      ensures forall i | 0 <= i < |trace| :: trace[i] == ShippedTo(old(disk), b, i)
      ensures calm ==> |trace| == if steps < 5 then steps + 1 else 6
      ensures shipped == (old(shipped) || |trace| > 1)
    {
      hide SoundDir, GoodMemory, Sync, Lawful, GoodBundle, Rested;
      Begin();
      var first, done := disk, 0;
      while done < steps && done < 5
        invariant done <= 5 && done <= steps && |trace| == done + 1 && disk == trace[done]
        invariant forall i | 0 <= i < |trace| :: trace[i] == ShippedTo(old(disk), b, i)
        invariant forall d | d in trace :: SoundDir(env, d)
        invariant shipped == (old(shipped) || done > 0)
        invariant mem.Some? && damage == NoDamage ==> Rested(env, disk, acked)
        invariant disk.marker == first.marker && (done == 0 ==> acked == old(acked))
      {
        var moved: bool :| calm ==> moved;
        if !moved {
          return;
        }
        ShipSound(env, first, b, done + 1);
        Step(ShippedTo(first, b, done + 1));
        shipped := true;
        if mem.Some? && damage == NoDamage {
          acked := ShipRests(env, first, b, done, acked);
        }
        done := done + 1;
      }
    }

    /** Ships a bundle and reloads: what is served becomes exactly the bundle, or
        stays exactly what it was. */
    method Publish(b: Bundle) returns (ok: bool)
      requires Valid() && GoodBundle(env, b)
      modifies this`disk, this`mem, this`damage, this`trace, this`acked, this`shipped
      ensures Valid() && damage == old(damage)
      ensures ok ==> !shipped && mem == Some(Fresh(b.cfg, b.entries))
      ensures !ok ==> mem == old(mem)
      ensures calm ==> (ok <==> old(damage) == NoDamage && !old(disk).marker && env.builds(b.cfg)(b.entries))
    {
      hide SoundDir, GoodMemory, Sync, Lawful, GoodBundle, OpenList, Rested;
      ghost var before := disk;
      Ship(b, 5);
      if |trace| < 6 {
        return false;
      }
      ShippedOpens(env, before, b);
      ok := Reload();
    }

    /** Re-opens the directory and swaps the result in. */
    method Reload() returns (ok: bool)
      requires Valid()
      modifies this`disk, this`mem, this`damage, this`trace, this`acked, this`shipped
      ensures Valid()
      ensures old(damage) != NoDamage ==> !ok && damage == old(damage) && disk == old(disk)
      ensures ok ==> mem.Some? && damage == NoDamage && !shipped && OpenList(env, old(disk)) == Opened(mem.value, false)
      ensures !ok ==> mem == old(mem) && damage == old(damage) && shipped == old(shipped)
      ensures calm ==>
                (ok <==> old(damage) == NoDamage && JournalBytes(old(disk)) == [] && OpenList(env, old(disk)).Opened?)
    {
      hide SoundDir, GoodBase, GoodMemory, Sync, Lines, OpenList, Repaired, Rested;
      Begin();
      ok := false;
      if damage != NoDamage || |JournalBytes(disk)| > 0 {
        return;
      }
      var o, quarantined := OpenDir();
      if o.None? {
        if mem.Some? {
          RestedMarker(env, old(disk), acked);
          RestedEmpty(env, old(disk), acked);
          EmptyRests(env, disk);
          if !shipped {
            HealedSyncs(env, old(disk), disk, mem.value, acked);
          }
        }
        return;
      }
      NoJournalNoQuarantine(env, old(disk));
      acked := OpenSyncs(env, old(disk), disk);
      mem := o;
      shipped := false;
      SyncIsSound(env, disk, mem.value, acked);
      SyncIsGood(env, disk, mem.value, acked);
      ok := true;
    }

    /** The process dies at a crash point of the last operation and a new one
        opens the directory it left. */
    method Crash(point: nat) returns (quarantined: bool)
      requires Valid() && point < |trace|
      modifies this`disk, this`mem, this`damage, this`trace, this`acked, this`shipped
      ensures Valid() && damage == NoDamage && !shipped
      ensures mem.Some? ==> OpenList(env, old(trace)[point]) == Opened(mem.value, quarantined)
      ensures calm ==> (mem.Some? <==> OpenList(env, old(trace)[point]).Opened?)
    {
      hide SoundDir, GoodBase, GoodMemory, Sync, Lines, OpenList, Repaired, Rested;
      disk, trace, mem, damage, shipped := trace[point], [trace[point]], None, NoDamage, false;
      ghost var d0 := disk;
      var o;
      o, quarantined := OpenDir();
      if o.Some? {
        acked := OpenSyncs(env, d0, disk);
        mem := o;
        SyncIsSound(env, disk, mem.value, acked);
        SyncIsGood(env, disk, mem.value, acked);
      }
    }

    // -------------------------------------------------------------------------- runs

    /** Whether the next operation meets a disk failure, and how far its append
        gets first. */
    method Weather()
      requires Valid()
      modifies this`calm, this`cut
      ensures Valid()
    {
      hide SoundDir, Sync, GoodMemory, Lawful, Rested;
      calm, cut := *, *;
    }

    /** Where the next append is cut. */
    method CutNext(n: nat)
      requires Valid()
      modifies this`cut
      ensures Valid() && cut == n
    {
      hide SoundDir, Sync, GoodMemory, Lawful, Rested;
      cut := n;
    }

    lemma InSync()
      requires Valid() && mem.Some? && damage == NoDamage && !shipped
      ensures Sync(env, disk, mem.value, acked) && Lawful(env.codec)
    {
    }

    /** One operation, with or without disk failures. Create damage is cleared
        only by a create that succeeds, content damage only by one that writes
        a new base; a restart looks at the directory afresh. */
    method Do(op: Op) returns (ok: bool)
      requires Valid() && (op.DoShip? ==> GoodBundle(env, op.bundle))
      modifies this
      ensures Valid()
      ensures old(damage) == Create && damage != Create ==> op.DoCrash? || (op.DoCreate? && ok)
      ensures old(damage) == Create && !op.DoCreate? && !op.DoCrash? ==> !ok && mem == old(mem)
      ensures old(damage) == Create && !op.DoCreate? && !op.DoCrash? && !op.DoShip? ==> disk == old(disk)
      ensures old(damage) == Content && damage == NoDamage ==>
                op.DoCrash? || (ok && (op.DoCreate? || op.DoReplace? || op.DoCompact?))
      ensures old(damage) == Content && (op.DoUpsert? || op.DoDelete? || op.DoReload?) ==> !ok && disk == old(disk)
      ensures op.DoShip? ==> !ok && mem == old(mem) && damage == old(damage)
    {
      hide Valid, GoodBundle, LiveMap, RecsOn, LastWins, OpenList, CreatePoint, InstallPoint, AppendTrace, Recovers,
        CutAmong, Advanced, Dedupe, CanBuild;
      Weather();
      ok := false;
      match op {
        case DoCreate(cfg, valid) => ok := CreateList(cfg, valid);
        case DoUpsert(entries) => ok := Upsert(entries);
        case DoDelete(id) => ok := Delete(id);
        case DoReplace(entries) => ok := Replace(entries);
        case DoCompact => ok := Compact();
        case DoReload => ok := Reload();
        case DoShip(bundle, steps) => Ship(bundle, steps);
        case DoCrash(point) =>
          if point < |trace| {
            var quarantined := Crash(point);
            ok := true;
          }
      }
    }

    /** Any sequence of operations, failures, shipped bundles, crashes and
        restarts keeps the store valid; while no restart and no create succeeds,
        create damage stays. */
    method Run(ops: seq<Op>)
      requires Valid() && forall op | op in ops && op.DoShip? :: GoodBundle(env, op.bundle)
      modifies this
      ensures Valid()
      ensures old(damage) == Create && (forall op | op in ops :: !op.DoCreate? && !op.DoCrash?) ==>
                damage == Create && mem == old(mem)
    {
      hide Valid, GoodBundle;
      for i := 0 to |ops|
        invariant Valid()
        invariant old(damage) == Create && (forall op | op in ops[..i] :: !op.DoCreate? && !op.DoCrash?) ==>
                    damage == Create && mem == old(mem)
      {
        assert ops[i] in ops[..i + 1] && forall op | op in ops[..i] :: op in ops[..i + 1];
        var _ := Do(ops[i]);
      }
      assert ops[..|ops|] == ops;
    }

    /** In a valid store an undamaged list opens as exactly what it serves. */
    lemma Durable()
      requires Valid() && mem.Some? && damage == NoDamage && !shipped
      ensures OpenList(env, disk) == Opened(mem.value, false)
      ensures mem.value.stamp == StampAt(mem.value.cfg, mem.value.base, JournalBytes(disk))
      ensures LiveMap(mem.value) == RecsOn(BaseMap(mem.value.base), acked)
    {
      hide OpenList, Lines, ApplyAll, CanBuild, RecsOn, LiveMap;
      SyncOpens(env, disk, mem.value, acked);
      SyncIsGood(env, disk, mem.value, acked);
    }

    /** A list whose directory was changed from outside reopens as what was put
        there and the records acknowledged on top of it since, whatever memory
        serves. */
    lemma ReopensShipped()
      requires Valid() && mem.Some? && damage == NoDamage && OpenList(env, disk).Opened?
      ensures var o := OpenList(env, disk);
              && disk.config == Some(o.served.cfg) && disk.base == o.served.base
              && (o.quarantined <==>
                  acked != [] && !Buildable(env, o.served.cfg, ApplyAll(Empty, acked, BaseMap(disk.base).Keys)))
              && (!o.quarantined ==> LiveMap(o.served) == RecsOn(BaseMap(disk.base), acked))
    {
      hide Lines, Read, ApplyAll, CanBuild, RecsOn, Dedupe;
      LinesRead(env.codec, acked);
      LinesEmpty(env.codec, acked);
      NothingShadowed(BaseMap(disk.base));
      ApplyAllKeeps(BaseMap(disk.base), Empty, acked);
      NothingApplied(BaseMap(disk.base).Keys);
      if disk.base.Some? {
        DedupeDistinct(disk.base.value);
      }
    }

    /** No crash point leaves an index beside a base it was not built over,
        outside the marked window. */
    lemma IndexNeverForeign(d: Dir)
      requires Valid() && d in trace && !d.marker && d.idx.Some?
      ensures d.base == Some(d.idx.value.over)
    {
      var recs, k :| Sound(env, d, recs, k);
    }
  }

  /** What an append needs besides the disk: lines within the limit, and an
      overlay that can be indexed. */
  ghost predicate Appendable(env: Env, s: Served, recs: seq<Rec>) {
    AllFit(env.codec, recs) && Buildable(env, s.cfg, ApplyAll(s.overlay, recs, BaseMap(s.base).Keys))
  }

  /** What a fresh base is served as. */
  function Fresh(cfg: Config, entries: seq<Entry>): Served {
    Served(cfg, Some(entries), Empty, BaseStamp(cfg, Some(entries)), [])
  }

  datatype Op =
    | DoCreate(cfg: Config, valid: bool)
    | DoUpsert(entries: seq<Entry>)
    | DoDelete(id: Id)
    | DoReplace(entries: seq<Entry>)
    | DoCompact
    | DoReload
    | DoShip(bundle: Bundle, steps: nat)
    | DoCrash(point: nat)

  /** The files of a prebuilt list. */
  datatype Bundle = Bundle(cfg: Config, entries: seq<Entry>, idx: Option<Idx>)

  /** IDs are distinct, and an index is the one built over these entries to the
      specification it records. */
  ghost predicate GoodBundle(env: Env, b: Bundle) {
    && DistinctIds(b.entries)
    && (b.idx.Some? ==>
          b.idx.value.over == b.entries && b.idx.value.baseId == ContentOf(b.entries) &&
          env.primary(b.idx.value.spec)(b.entries))
  }

  /** The directory after n steps of moving a bundle in. */
  function ShippedTo(d: Dir, b: Bundle, n: nat): Dir {
    match n
    case 0 => d
    case 1 => d.(idx := None)
    case 2 => d.(idx := None, journal := None)
    case 3 => d.(idx := None, journal := None, config := Some(b.cfg))
    case 4 => d.(idx := None, journal := None, config := Some(b.cfg), base := Some(b.entries))
    case _ => Dir(d.marker, Some(b.cfg), Some(b.entries), b.idx, None)
  }

  /** However far a bundle got, the directory can be opened or is skipped. */
  lemma ShipSound(env: Env, d: Dir, b: Bundle, n: nat)
    requires SoundDir(env, d) && GoodBundle(env, b) && n <= 5
    ensures SoundDir(env, ShippedTo(d, b, n))
  {
    var recs, k :| Sound(env, d, recs, k);
    var t := ShippedTo(d, b, n);
    if n < 2 {
      assert Sound(env, t, recs, k);
    } else {
      assert Sound(env, t, [], 0);
    }
  }

  /** A bundle shipped whole opens as its entries, with nothing on top. */
  lemma ShippedOpens(env: Env, d: Dir, b: Bundle)
    requires GoodBundle(env, b)
    ensures OpenList(env, ShippedTo(d, b, 5)) ==
            if d.marker || !env.builds(b.cfg)(b.entries) then Skipped else Opened(Fresh(b.cfg, b.entries), false)
    ensures JournalBytes(ShippedTo(d, b, 5)) == []
  {
    hide ApplyAll, Dedupe;
    DedupeDistinct(b.entries);
    ReadStep(env.codec, []);
  }

  ghost predicate AppendTrace(env: Env, before: Dir, recs: seq<Rec>, trace: seq<Dir>) {
    |trace| > 0 && trace[0] == before && forall i | 0 < i < |trace| :: PartOf(env, before, recs, trace[i])
  }

  /** The directory part way through writing a new base. */
  ghost predicate RebasePoint(before: Dir, entries: seq<Entry>, d: Dir) {
    var bare := before.(idx := None);
    || d == before || d == bare || d == bare.(base := Some(entries))
    || d == bare.(base := Some(entries), journal := Some([]))
  }

  ghost predicate InstallPoint(before: Dir, cfg: Config, entries: seq<Entry>, d: Dir) {
    var bare := before.(idx := None);
    || RebasePoint(before, entries, d)
    || (d.base == Some(entries) && d.idx == Some(Idx(ContentOf(entries), cfg.index, entries)) &&
        JournalBytes(d) == [] && d.marker == before.marker && d.config == before.config)
  }

  /** d opens with this content, nothing set aside. */
  ghost predicate Recovers(env: Env, d: Dir, live: Live) {
    var o := OpenList(env, d);
    o.Opened? && !o.quarantined && LiveMap(o.served) == live
  }

  lemma RebaseInstalls(before: Dir, cfg: Config, entries: seq<Entry>, d: Dir)
    requires RebasePoint(before, entries, d)
    ensures InstallPoint(before, cfg, entries, d)
  {
  }

  lemma SavedInstalls(before: Dir, cfg: Config, entries: seq<Entry>, d: Dir)
    requires d.base == Some(entries) && JournalBytes(d) == [] && d.marker == before.marker && d.config == before.config
    ensures d.idx == Some(Idx(ContentOf(entries), cfg.index, entries)) ==> InstallPoint(before, cfg, entries, d)
  {
  }

  /** Every crash point of a create opens as before, not at all, or as the new
      empty list. */
  ghost predicate CreatePoint(env: Env, before: Dir, cfg: Config, d: Dir) {
    d == before || OpenList(env, d).Skipped? ||
    OpenList(env, d) == Opened(Served(cfg, None, Empty, BaseStamp(cfg, None), []), false)
  }

  lemma MarkedSkips(env: Env)
    ensures forall d: Dir :: d.marker ==> OpenList(env, d).Skipped?
  {
  }

  lemma FreshOpens(env: Env, cfg: Config)
    ensures OpenList(env, Dir(false, Some(cfg), None, None, None)) ==
            Opened(Served(cfg, None, Empty, BaseStamp(cfg, None), []), false)
  {
    FreshList(env, Dir(false, Some(cfg), None, None, None), cfg);
  }

  /** Inside the marked window only the journal's shape matters. */
  lemma SoundMarked(env: Env, d: Dir, d': Dir)
    requires SoundDir(env, d) && d'.marker && (d'.journal == d.journal || d'.journal.None?)
    ensures SoundDir(env, d') && OpenList(env, d').Skipped?
  {
    if d'.journal == d.journal {
      var recs, k :| Sound(env, d, recs, k);
      assert Sound(env, d', recs, k);
    } else {
      assert Sound(env, d', [], 0);
    }
  }

  lemma FreshList(env: Env, d: Dir, cfg: Config)
    requires d == Dir(false, Some(cfg), None, None, None)
    ensures SoundDir(env, d)
    ensures Sync(env, d, Served(cfg, None, Empty, BaseStamp(cfg, None), []), [])
    ensures OpenList(env, d) == Opened(Served(cfg, None, Empty, BaseStamp(cfg, None), []), false)
  {
    assert Sound(env, d, [], 0);
    ReadStep(env.codec, []);
    NothingApplied({});
  }

  lemma SoundNoJournal(env: Env, d: Dir)
    requires SoundDir(env, d)
    ensures SoundDir(env, d.(journal := None))
  {
    assert Sound(env, d.(journal := None), [], 0);
  }

  lemma SoundHealed(env: Env, d: Dir, cfg: Config, entries: seq<Entry>)
    requires SoundDir(env, d) && !d.marker && d.config == Some(cfg) && d.base.Some? && entries == Dedupe(d.base.value)
    requires env.builds(cfg)(entries)
    ensures SoundDir(env, d.(idx := Some(Idx(ContentOf(d.base.value), cfg.index, entries))))
  {
    hide Dedupe;
    var recs, k :| Sound(env, d, recs, k);
    DedupeDistinct(d.base.value);
    assert Sound(env, d.(idx := Some(Idx(ContentOf(d.base.value), cfg.index, entries))), recs, k);
  }

  lemma SoundRepaired(env: Env, d: Dir)
    requires Lawful(env.codec) && SoundDir(env, d) && Read(env.codec, JournalBytes(d)).torn.Some?
    requires Read(env.codec, JournalBytes(d)).torn.value <= |JournalBytes(d)|
    ensures SoundDir(env, d.(journal := Some(JournalBytes(d)[..Read(env.codec, JournalBytes(d)).torn.value])))
  {
    hide Read, Lines;
    var recs, k :| Sound(env, d, recs, k);
    IntactPrefix(env, recs, k);
    var j := Whole(env.codec, recs, k);
    var d' := d.(journal := Some(JournalBytes(d)[..Read(env.codec, JournalBytes(d)).torn.value]));
    var l := Lines(env.codec, recs[..j]);
    assert l[..|l|] == l;
    assert Sound(env, d', recs[..j], |l|);
  }

  /** d' differs from d at most in its journal and in a rebuilt index. */
  predicate Healed(d: Dir, d': Dir) {
    && d'.(idx := d.idx, journal := d.journal) == d
    && (d'.idx == d.idx ||
        (d.base.Some? && d.config.Some? &&
         d'.idx == Some(Idx(ContentOf(d.base.value), d.config.value.index, Dedupe(d.base.value)))))
  }

  lemma HealedSyncs(env: Env, d: Dir, d': Dir, s: Served, recs: seq<Rec>)
    requires Sync(env, d, s, recs) && Healed(d, d') && JournalBytes(d') == JournalBytes(d)
    ensures Sync(env, d', s, recs)
  {
    hide Dedupe, Lines, ApplyAll, CanBuild;
    if s.base.Some? {
      DedupeDistinct(s.base.value);
    }
  }

  lemma NoJournalNoQuarantine(env: Env, d: Dir)
    requires JournalBytes(d) == []
    ensures OpenList(env, d).Opened? ==> !OpenList(env, d).quarantined
  {
    ReadStep(env.codec, []);
  }

  // ------------------------------------------------------------- soundness by step

  lemma SoundNoIdx(env: Env, d: Dir)
    requires SoundDir(env, d)
    ensures SoundDir(env, d.(idx := None))
  {
    var recs, k :| Sound(env, d, recs, k);
    assert Sound(env, d.(idx := None), recs, k);
  }

  lemma SoundBase(env: Env, d: Dir, entries: seq<Entry>)
    requires SoundDir(env, d) && d.idx.None? && DistinctIds(entries)
    ensures SoundDir(env, d.(base := Some(entries)))
  {
    var recs, k :| Sound(env, d, recs, k);
    assert Sound(env, d.(base := Some(entries)), recs, k);
  }

  lemma SoundTruncated(env: Env, d: Dir)
    requires SoundDir(env, d)
    ensures SoundDir(env, d.(journal := Some([])))
  {
    assert Sound(env, d.(journal := Some([])), [], 0);
  }

  lemma SoundIdx(env: Env, d: Dir, cfg: Config, entries: seq<Entry>)
    requires SoundDir(env, d) && d.base == Some(entries) && env.builds(cfg)(entries)
    ensures SoundDir(env, d.(idx := Some(Idx(ContentOf(entries), cfg.index, entries))))
  {
    var recs, k :| Sound(env, d, recs, k);
    assert Sound(env, d.(idx := Some(Idx(ContentOf(entries), cfg.index, entries))), recs, k);
  }

  lemma GoodBaseBuilds(env: Env, cfg: Config, entries: seq<Entry>)
    requires GoodBase(env, cfg, Some(entries))
    ensures DistinctIds(entries) && env.builds(cfg)(entries)
  {
  }

  lemma SyncNoIdx(env: Env, d: Dir, d': Dir, s: Served, recs: seq<Rec>)
    requires Sync(env, d, s, recs) && (d' == d || d' == d.(idx := None))
    ensures Sync(env, d', s, recs)
  {
  }

  lemma FreshSync(env: Env, d: Dir, cfg: Config, entries: seq<Entry>)
    requires !d.marker && d.config == Some(cfg) && d.base == Some(entries) && JournalBytes(d) == []
    requires d.idx.None? || d.idx == Some(Idx(ContentOf(entries), cfg.index, entries))
    requires GoodBase(env, cfg, Some(entries))
    ensures Sync(env, d, Fresh(cfg, entries), [])
  {
    NothingApplied(LastWins(entries).Keys);
  }

  lemma FreshGood(env: Env, cfg: Config, entries: seq<Entry>)
    requires GoodBase(env, cfg, Some(entries))
    ensures GoodMemory(env, Fresh(cfg, entries))
  {
    hide LastWins;
    NothingShadowed(LastWins(entries));
  }

  lemma RestNoIdx(env: Env, d: Dir, d': Dir, recs: seq<Rec>)
    requires Rested(env, d, recs) && (d' == d || d' == d.(idx := None))
    ensures Rested(env, d', recs)
  {
  }

  lemma RestedMarker(env: Env, d: Dir, recs: seq<Rec>)
    requires Rested(env, d, recs)
    ensures !d.marker
  {
  }

  lemma RestedEmpty(env: Env, d: Dir, recs: seq<Rec>)
    requires Rested(env, d, recs) && JournalBytes(d) == []
    ensures recs == []
  {
    LinesEmpty(env.codec, recs);
  }

  /** Moving one file of a bundle in leaves the journal as it was, or none. */
  lemma ShipRests(env: Env, d: Dir, b: Bundle, n: nat, recs: seq<Rec>) returns (now: seq<Rec>)
    requires n < 5 && GoodBundle(env, b) && Rested(env, ShippedTo(d, b, n), recs)
    requires SoundDir(env, ShippedTo(d, b, n + 1))
    ensures Rested(env, ShippedTo(d, b, n + 1), now)
  {
    hide SoundDir, Lines;
    if n == 0 {
      now := recs;
    } else {
      now := [];
      EmptyRests(env, ShippedTo(d, b, n + 1));
    }
  }

  lemma GoodFold(env: Env, cfg: Config, entries: seq<Entry>)
    requires DistinctIds(entries) && env.builds(cfg)(entries)
    ensures GoodBase(env, cfg, Some(entries))
  {
  }

  lemma GoodLive(env: Env, s: Served)
    requires GoodMemory(env, s)
    ensures forall id | id in LiveMap(s) :: LiveMap(s)[id].id == id
  {
    if s.base.Some? {
      assert forall id | id in LastWins(s.base.value) :: LastWins(s.base.value)[id].id == id;
    }
  }

  lemma FoldedMap(cfg: Config, live: seq<Entry>)
    ensures LiveMap(Fresh(cfg, live)) == LastWins(live)
  {
    NothingShadowed(LastWins(live));
  }

  // ------------------------------------------------------------ recovery of a fold

  lemma SyncRecovers(env: Env, d: Dir, s: Served, recs: seq<Rec>)
    requires Lawful(env.codec) && Sync(env, d, s, recs)
    ensures Recovers(env, d, LiveMap(s))
  {
    SyncOpens(env, d, s, recs);
  }

  /** Before the journal is emptied it is replayed over its own fold, which
      changes nothing. */
  lemma ReplayOverFold(env: Env, d: Dir, s: Served, recs: seq<Rec>, live: seq<Entry>)
    requires Lawful(env.codec) && Sync(env, d, s, recs)
    requires GoodBase(env, s.cfg, Some(live)) && LastWins(live) == LiveMap(s)
    ensures Recovers(env, d.(idx := None, base := Some(live)), LiveMap(s))
  {
    hide Lines, Read, ApplyAll, CanBuild, RecsOn, LastWins, Dedupe;
    var d' := d.(idx := None, base := Some(live));
    var m := LiveMap(s);
    LinesRead(env.codec, recs);
    DedupeDistinct(live);
    SyncIsGood(env, d, s, recs);
    ReplayIdempotent(BaseMap(s.base), recs);
    NothingShadowed(m);
    ApplyAllKeeps(m, Empty, recs);
    SourceIgnoresBase(Empty, Empty, recs, BaseMap(s.base).Keys, m.Keys);
  }

  lemma EmptiedRecovers(env: Env, d: Dir, cfg: Config, live: seq<Entry>)
    requires Lawful(env.codec) && !d.marker && d.config == Some(cfg) && d.base == Some(live) && JournalBytes(d) == []
    requires GoodBase(env, cfg, Some(live))
    ensures Recovers(env, d, LastWins(live))
  {
    hide LastWins, Dedupe;
    DedupeDistinct(live);
    ReadStep(env.codec, []);
    NothingShadowed(LastWins(live));
  }

  lemma FoldRecovers(env: Env, before: Dir, s: Served, recs: seq<Rec>, live: seq<Entry>, d: Dir)
    requires Lawful(env.codec) && Sync(env, before, s, recs)
    requires GoodBase(env, s.cfg, Some(live)) && LastWins(live) == LiveMap(s)
    requires InstallPoint(before, s.cfg, live, d)
    ensures Recovers(env, d, LiveMap(s))
  {
    hide Recovers, LiveMap, GoodBase, Sync, LastWins;
    MarkerOf(env, before, s, recs);
    SyncNoIdx(env, before, before.(idx := None), s, recs);
    SyncRecovers(env, before, s, recs);
    SyncRecovers(env, before.(idx := None), s, recs);
    ReplayOverFold(env, before, s, recs, live);
    if d.base == Some(live) && JournalBytes(d) == [] {
      EmptiedRecovers(env, d, s.cfg, live);
    }
  }

  /** t is s after recs: the map is the records' map, and the stamp says where
      in the journal and with what bytes. */
  ghost predicate Advanced(env: Env, s: Served, t: Served, recs: seq<Rec>) {
    && t.cfg == s.cfg && t.base == s.base && t.overlay == ApplyAll(s.overlay, recs, BaseMap(s.base).Keys)
    && LiveMap(t) == RecsOn(LiveMap(s), recs)
    && t.jbytes == s.jbytes + Lines(env.codec, recs)
    && t.stamp == StampFrom(t.cfg, t.base, t.stamp.jpos, t.jbytes)
  }

  lemma OneRec(m: Live, r: Rec)
    ensures RecsOn(m, [r]) == RecOn(m, r)
  {
    assert [r][..0] == [];
  }

  lemma AdvanceKeeps(env: Env, s: Served, recs: seq<Rec>)
    requires GoodMemory(env, s)
    ensures var o := ApplyAll(s.overlay, recs, BaseMap(s.base).Keys);
            Coherent(BaseMap(s.base), o) && LiveOf(BaseMap(s.base), o) == RecsOn(LiveMap(s), recs)
  {
    ApplyAllKeeps(BaseMap(s.base), s.overlay, recs);
  }

  lemma MarkerOf(env: Env, d: Dir, s: Served, recs: seq<Rec>)
    requires Sync(env, d, s, recs)
    ensures !d.marker && d.config == Some(s.cfg)
  {
  }

  lemma SameJournal(env: Env, d: Dir, d': Dir, s: Served, recs: seq<Rec>)
    requires Sync(env, d, s, recs) && d'.(journal := d.journal) == d && JournalBytes(d') == JournalBytes(d)
    ensures Sync(env, d', s, recs)
  {
  }

  lemma SameRest(env: Env, d: Dir, d': Dir, recs: seq<Rec>)
    requires Rested(env, d, recs) && d'.(journal := d.journal) == d && JournalBytes(d') == JournalBytes(d)
    ensures Rested(env, d', recs)
  {
  }

  lemma AppendRests(env: Env, d: Dir, d': Dir, acked: seq<Rec>, recs: seq<Rec>)
    requires Rested(env, d, acked) && AllFit(env.codec, recs)
    requires d'.(journal := d.journal) == d && JournalBytes(d') == JournalBytes(d) + Lines(env.codec, recs)
    ensures Rested(env, d', acked + recs)
  {
    hide Lines;
    LinesJoin(env.codec, acked, recs);
  }

  /** Memory after an append. */
  lemma AppendKeeps(env: Env, s: Served, t: Served, recs: seq<Rec>, jpos: nat)
    requires GoodMemory(env, s)
    requires t == Served(s.cfg, s.base, ApplyAll(s.overlay, recs, BaseMap(s.base).Keys),
                         StampFrom(s.cfg, s.base, jpos, t.jbytes), s.jbytes + Lines(env.codec, recs))
    requires Buildable(env, t.cfg, t.overlay)
    ensures GoodMemory(env, t) && Advanced(env, s, t, recs)
  {
    hide Lines, ApplyAll, CanBuild, RecsOn;
    AdvanceKeeps(env, s, recs);
  }

  lemma AppendSyncs(env: Env, d: Dir, d': Dir, s: Served, t: Served, acked: seq<Rec>, recs: seq<Rec>)
    requires Sync(env, d, s, acked) && AllFit(env.codec, recs)
    requires d'.(journal := d.journal) == d && JournalBytes(d') == JournalBytes(d) + Lines(env.codec, recs)
    requires t == Served(s.cfg, s.base, ApplyAll(s.overlay, recs, BaseMap(s.base).Keys),
                         StampFrom(s.cfg, s.base, |JournalBytes(d')|, t.jbytes), s.jbytes + Lines(env.codec, recs))
    requires Buildable(env, t.cfg, t.overlay)
    ensures Sync(env, d', t, acked + recs)
  {
    hide Lines, ApplyAll, CanBuild, RecsOn;
    LinesJoin(env.codec, acked, recs);
    ApplyAllJoin(Empty, acked, recs, BaseMap(s.base).Keys);
  }

  /** The records as lines, unless one is over the line limit. */
  method Marshal(c: LineCodec, recs: seq<Rec>) returns (buf: Option<seq<byte>>)
    ensures buf.Some? <==> AllFit(c, recs)
    ensures buf.Some? ==> buf.value == Lines(c, recs)
  {
    var out := [];
    for i := 0 to |recs|
      invariant AllFit(c, recs[..i])
      invariant out + Lines(c, recs[i..]) == Lines(c, recs)
    {
      var line := c.encode(recs[i]);
      if |line| + 1 > MAX_LINE {
        return None;
      }
      assert recs[i..][1..] == recs[i + 1..];
      assert out + (line + [LF] + Lines(c, recs[i + 1..])) == out + line + [LF] + Lines(c, recs[i + 1..]);
      out := out + line + [LF];
    }
    assert recs[|recs|..] == [] && recs[..|recs|] == recs;
    return Some(out);
  }

  /** d is before with the first k bytes of an append of recs. */
  ghost predicate PartAt(env: Env, before: Dir, recs: seq<Rec>, d: Dir, k: nat) {
    && AllFit(env.codec, recs) && k <= |Lines(env.codec, recs)|
    && d.(journal := before.journal) == before
    && JournalBytes(d) == JournalBytes(before) + Lines(env.codec, recs)[..k]
  }

  ghost predicate PartOf(env: Env, before: Dir, recs: seq<Rec>, d: Dir) {
    exists k :: PartAt(env, before, recs, d, k)
  }

  lemma PartHere(env: Env, before: Dir, recs: seq<Rec>, k: nat, d: Dir)
    requires AllFit(env.codec, recs) && k <= |Lines(env.codec, recs)|
    requires d.(journal := before.journal) == before
    requires JournalBytes(d) == JournalBytes(before) + Lines(env.codec, recs)[..k]
    ensures PartOf(env, before, recs, d)
  {
    assert PartAt(env, before, recs, d, k);
  }

  /** d is before with the append cut after that many bytes, or whole. */
  ghost predicate CutAt(env: Env, before: Dir, recs: seq<Rec>, cut: nat, d: Dir) {
    PartAt(env, before, recs, d, if cut <= |Lines(env.codec, recs)| then cut else |Lines(env.codec, recs)|)
  }

  /** Some crash point cuts the append there. */
  ghost predicate CutAmong(env: Env, before: Dir, recs: seq<Rec>, cut: nat, trace: seq<Dir>) {
    exists d :: d in trace && CutAt(env, before, recs, cut, d)
  }

  lemma CutHere(env: Env, before: Dir, recs: seq<Rec>, cut: nat, d: Dir)
    requires AllFit(env.codec, recs) && d.(journal := before.journal) == before
    requires var l := Lines(env.codec, recs);
             JournalBytes(d) == JournalBytes(before) + l[..if cut <= |l| then cut else |l|]
    ensures CutAt(env, before, recs, cut, d)
  {
    hide Lines, AllFit;
  }

  lemma PartNone(env: Env, before: Dir, recs: seq<Rec>, d: Dir)
    requires AllFit(env.codec, recs) && d.(journal := before.journal) == before
    requires JournalBytes(d) == JournalBytes(before)
    ensures PartOf(env, before, recs, d)
  {
    assert JournalBytes(before) + [] == JournalBytes(before);
    assert PartAt(env, before, recs, d, 0);
  }

  /** A directory in the middle of an append is sound. */
  lemma PartIsSound(env: Env, before: Dir, acked: seq<Rec>, recs: seq<Rec>, d: Dir)
    requires Rested(env, before, acked) && PartOf(env, before, recs, d)
    ensures SoundDir(env, d)
  {
    hide Lines;
    var k: nat :| PartAt(env, before, recs, d, k);
    LinesJoin(env.codec, acked, recs);
    var n := |Lines(env.codec, acked)|;
    assert Lines(env.codec, acked + recs)[..n + k] == Lines(env.codec, acked) + Lines(env.codec, recs)[..k];
    assert Sound(env, d, acked + recs, n + k);
  }

  lemma PartsAreSound(env: Env, before: Dir, acked: seq<Rec>, recs: seq<Rec>, trace: seq<Dir>)
    requires Rested(env, before, acked) && |trace| > 0 && trace[0] == before
    requires forall i | 0 < i < |trace| :: PartOf(env, before, recs, trace[i])
    ensures forall d | d in trace :: SoundDir(env, d)
  {
    hide Rested, PartOf, SoundDir;
    RestedIsSound(env, before, acked);
    forall d | d in trace ensures SoundDir(env, d) {
      var i :| 0 <= i < |trace| && trace[i] == d;
      if i > 0 {
        PartIsSound(env, before, acked, recs, d);
      }
    }
  }

  /** A crash with k bytes of an append written recovers the acknowledged
      content and then the whole records among those bytes, exactly when the
      overlay they make can be indexed; else the journal is set aside. */
  lemma AppendRecovery(env: Env, before: Dir, s: Served, acked: seq<Rec>, recs: seq<Rec>, d: Dir, k: nat)
    requires Lawful(env.codec) && Sync(env, before, s, acked) && PartAt(env, before, recs, d, k)
    ensures var j := Whole(env.codec, recs, k);
            var o := OpenList(env, d);
            && o.Opened?
            && (o.quarantined <==> !Buildable(env, s.cfg, ApplyAll(s.overlay, recs[..j], BaseMap(s.base).Keys)))
            && (!o.quarantined ==> LiveMap(o.served) == RecsOn(LiveMap(s), recs[..j]))
  {
    hide Lines, Read, ApplyAll, CanBuild, RecsOn, Dedupe, Whole;
    var j := Whole(env.codec, recs, k);
    var keys := BaseMap(s.base).Keys;
    LinesRead(env.codec, acked);
    CrashDuringAppend(env.codec, JournalBytes(before), recs, k);
    SyncIsGood(env, before, s, acked);
    AdvanceKeeps(env, s, recs[..j]);
    ApplyAllJoin(Empty, acked, recs[..j], keys);
    NothingApplied(keys);
    if s.base.Some? {
      DedupeDistinct(s.base.value);
    }
  }

  lemma EmptySound(env: Env, d: Dir)
    requires d == Dir(false, None, None, None, None)
    ensures SoundDir(env, d)
  {
    assert Sound(env, d, [], 0);
  }
}
