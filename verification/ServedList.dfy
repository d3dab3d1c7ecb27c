/** A list in memory and the store that journals it (engine/store.go:735-867,
    1028-1098, engine/list.go:742-950): after every operation the list
    holds exactly what the store serves. */
module ServedList {
  import opened Seqs
  import opened Options
  import opened ListModel
  import opened ListState
  import opened JournalFile
  import opened StoreDisk
  import opened Store

  /** The list is the one the store serves. */
  ghost predicate Holds(st: ListStore, l: List)
    reads st, l
  {
    && st.mem.Some? && l.Valid()
    && var s := st.mem.value;
       && l.builds == st.env.builds(s.cfg)
       && l.BaseMap() == BaseMap(s.base) && l.State() == s.overlay
  }

  /** Then its contents are the store's. */
  lemma HeldContents(st: ListStore, l: List)
    requires Holds(st, l)
    ensures l.Contents() == LiveMap(st.mem.value)
  {
  }

  /** Journals a batch and then applies it: both move, or neither. */
  method Mutate(st: ListStore, l: List, recs: seq<Rec>) returns (ok: bool)
    requires st.Valid() && Holds(st, l)
    modifies st, l
    ensures st.Valid() && Holds(st, l)
    ensures l.Contents() == if ok then RecsOn(old(l.Contents()), recs) else old(l.Contents())
    ensures ok && !st.shipped ==> l.Contents() == RecsOn(BaseMap(st.mem.value.base), st.acked)
  {
    hide ListStore.Valid, List.Valid, CanBuild, ApplyAll, RecsOn, Lines, LastWins, CutAmong;
    SameIds(st, l);
    HeldContents(st, l);
    ok := st.Mutate(recs);
    if ok {
      Servable(st);
      var applied := l.ApplyJournal(recs);
      if recs == [] {
        NothingApplied(l.BaseIds());
      }
      assert applied && Holds(st, l);
      HeldContents(st, l);
      if !st.shipped {
        st.Durable();
      }
    }
  }

  /** Swaps the content of both. */
  method Replace(st: ListStore, l: List, entries: seq<Entry>) returns (ok: bool)
    requires st.Valid() && Holds(st, l)
    modifies st, l
    ensures st.Valid() && Holds(st, l)
    ensures l.Contents() == if ok then LastWins(entries) else old(l.Contents())
  {
    hide ListStore.Valid, List.Valid, CanBuild, ApplyAll, RecsOn, Lines, LastWins, Dedupe, DistinctIds;
    ok := st.Replace(entries);
    if ok {
      var swapped := l.Replace(entries);
      DedupedMap(entries);
    }
  }

  /** Folds both. */
  method Compact(st: ListStore, l: List) returns (ok: bool)
    requires st.Valid() && Holds(st, l)
    modifies st, l
    ensures st.Valid() && Holds(st, l) && l.Contents() == old(l.Contents())
  {
    hide ListStore.Valid, List.Valid, CanBuild, ApplyAll, RecsOn, Lines, LastWins, Dedupe, DistinctIds, Recovers;
    HeldContents(st, l);
    ok := st.Compact();
    if ok {
      EmptyOverlay(BaseMap(st.mem.value.base));
      var folded := l.Compact();
      EmptyOverlay(l.BaseMap());
    }
  }

  lemma EmptyOverlay(base: Live)
    ensures LiveOf(base, Empty) == base
  {
  }

  lemma SameIds(st: ListStore, l: List)
    requires Holds(st, l)
    ensures l.BaseIds() == BaseMap(st.mem.value.base).Keys
  {
    l.BaseFacts();
  }

  lemma Servable(st: ListStore)
    requires st.Valid() && st.mem.Some?
    ensures Buildable(st.env, st.mem.value.cfg, st.mem.value.overlay)
  {
  }

  lemma DedupedMap(entries: seq<Entry>)
    ensures LastWins(Dedupe(entries)) == LastWins(entries)
  {
    KeptMap(entries, 0);
    assert entries[0..] == entries;
  }
}
