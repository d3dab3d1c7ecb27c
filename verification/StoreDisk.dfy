/** A list's directory and what opening it gives (engine/store.go:428-584, 1676-1767).
    A base file is the entries it holds, one line each; SHA-256 is injective,
    so a content hash is the content itself. */
module StoreDisk {
  import opened Bytes
  import opened Seqs
  import opened ListModel
  import opened ListState
  import opened JournalFile
  import opened Options

  /** What an index cache depends on: the mode, the analyzer's digest, and for
      n-grams their sizes and whether spaces are stripped. */
  type IndexSpec = seq<byte>

  /** A resolved list configuration, as encoded in config.json: what the index
      depends on, whether an exact companion is built beside it, and the rest. */
  datatype Config = Config(index: IndexSpec, companion: bool, rest: seq<byte>)

  datatype BaseId = NoBase | ContentOf(entries: seq<Entry>)

  /** A version stamp: base identity and size, journal position and content,
      and configuration. */
  datatype Stamp = Stamp(baseId: BaseId, baseN: nat, jpos: nat, jhash: Option<seq<byte>>, cfg: Config)

  /** An index cache: the identities it records, and the entries it was built
      over. */
  datatype Idx = Idx(baseId: BaseId, spec: IndexSpec, over: seq<Entry>)

  datatype Dir = Dir(marker: bool, config: Option<Config>, base: Option<seq<Entry>>, idx: Option<Idx>,
                     journal: Option<seq<byte>>)

  /** The line codec, and which entries a list's own index and an exact
      companion can be built over. */
  datatype Env = Env(codec: LineCodec, primary: IndexSpec -> Builder, exact: IndexSpec -> Builder) {
    /** The companion a configuration asks for can be built. */
    predicate Attaches(cfg: Config, entries: seq<Entry>) {
      cfg.companion ==> exact(cfg.index)(entries)
    }

    function builds(cfg: Config): Builder {
      entries => primary(cfg.index)(entries) && Attaches(cfg, entries)
    }
  }

  /** A published snapshot with its identities. */
  datatype Served = Served(cfg: Config, base: Option<seq<Entry>>, overlay: Overlay, stamp: Stamp, jbytes: seq<byte>)

  function BaseMap(base: Option<seq<Entry>>): Live {
    if base.Some? then LastWins(base.value) else map[]
  }

  /** What queries see. */
  function LiveMap(s: Served): Live {
    LiveOf(BaseMap(s.base), s.overlay)
  }

  function BaseStamp(cfg: Config, base: Option<seq<Entry>>): Stamp {
    if base.Some? then Stamp(ContentOf(base.value), |base.value|, 0, None, cfg) else Stamp(NoBase, 0, 0, None, cfg)
  }

  /** The stamp after a journal of jpos bytes, jbytes the content hashed so far. */
  function StampFrom(cfg: Config, base: Option<seq<Entry>>, jpos: nat, jbytes: seq<byte>): Stamp {
    BaseStamp(cfg, base).(jpos := jpos, jhash := if jpos == 0 then None else Some(jbytes))
  }

  function StampAt(cfg: Config, base: Option<seq<Entry>>, jbytes: seq<byte>): Stamp {
    StampFrom(cfg, base, |jbytes|, jbytes)
  }

  function JournalBytes(d: Dir): seq<byte> {
    if d.journal.Some? then d.journal.value else []
  }

  /** An index is used only if it records this base and what this configuration
      asks of an index. */
  predicate Usable(d: Dir) {
    d.idx.Some? && d.base.Some? && d.config.Some? &&
    d.idx.value.baseId == ContentOf(d.base.value) && d.idx.value.spec == d.config.value.index
  }

  /** An index sits beside the base it was built over. */
  predicate IdxFits(d: Dir) {
    d.idx.Some? ==> d.base == Some(d.idx.value.over) && d.idx.value.baseId == ContentOf(d.idx.value.over)
  }

  ghost predicate Buildable(env: Env, cfg: Config, o: Overlay) {
    o.src == map[] || CanBuild(env.builds(cfg), o.src)
  }

  // ---------------------------------------------------------------------- opening

  /** The index beside the base serves, with the companion built anew. */
  predicate Installs(env: Env, d: Dir) {
    Usable(d) && env.Attaches(d.config.value, Dedupe(d.base.value))
  }

  datatype Opening = Skipped | Opened(served: Served, quarantined: bool)

  /** The part of the journal that is intact. */
  function Intact(env: Env, d: Dir): seq<byte> {
    var r := Read(env.codec, JournalBytes(d));
    if r.torn.Some? && r.torn.value <= |JournalBytes(d)| then JournalBytes(d)[..r.torn.value] else JournalBytes(d)
  }

  /** What a directory opens as. */
  ghost function OpenList(env: Env, d: Dir): Opening {
    if d.marker || d.config.None? then Skipped
    else
      var cfg := d.config.value;
      if d.base.Some? && !Installs(env, d) && !env.builds(cfg)(Dedupe(d.base.value)) then Skipped
      else
        var base := if d.base.Some? then Some(Dedupe(d.base.value)) else None;
        var recs := Read(env.codec, JournalBytes(d)).recs;
        var o := ApplyAll(Empty, recs, BaseMap(base).Keys);
        if recs == [] then Opened(Served(cfg, base, Empty, BaseStamp(cfg, base), Intact(env, d)), false)
        else if Buildable(env, cfg, o) then
          Opened(Served(cfg, base, o, StampAt(cfg, base, Intact(env, d)), Intact(env, d)), false)
        else Opened(Served(cfg, base, Empty, BaseStamp(cfg, base), []), true)
  }

  // -------------------------------------------------------------------- invariants

  ghost predicate GoodBase(env: Env, cfg: Config, base: Option<seq<Entry>>) {
    base.Some? ==> DistinctIds(base.value) && env.builds(cfg)(base.value)
  }

  /** Directory and memory agree: recs are the acknowledged records since the
      base. */
  ghost predicate Sync(env: Env, d: Dir, s: Served, recs: seq<Rec>) {
    && !d.marker && d.config == Some(s.cfg) && d.base == s.base && IdxFits(d)
    && GoodBase(env, s.cfg, s.base)
    && AllFit(env.codec, recs)
    && JournalBytes(d) == s.jbytes == Lines(env.codec, recs)
    && s.overlay == ApplyAll(Empty, recs, BaseMap(s.base).Keys)
    && Buildable(env, s.cfg, s.overlay)
    && s.stamp == StampAt(s.cfg, s.base, s.jbytes)
  }

  lemma LinesEmpty(c: LineCodec, recs: seq<Rec>)
    ensures Lines(c, recs) == [] <==> recs == []
  {
  }

  /** A directory in agreement opens as exactly what memory serves, stamp
      included, and its journal is not set aside. */
  lemma SyncOpens(env: Env, d: Dir, s: Served, recs: seq<Rec>)
    requires Lawful(env.codec) && Sync(env, d, s, recs)
    ensures OpenList(env, d) == Opened(s, false)
  {
    hide Lines, Read, ApplyAll, CanBuild, Dedupe;
    LinesRead(env.codec, recs);
    LinesEmpty(env.codec, recs);
    if s.base.Some? {
      DedupeDistinct(s.base.value);
    }
    NothingApplied(BaseMap(s.base).Keys);
  }

  lemma NothingApplied(ids: set<Id>)
    ensures ApplyAll(Empty, [], ids) == Empty
  {
  }

  /** A base beside its own index can be indexed; any other is checked when it
      is opened. */
  ghost predicate TrustedBase(env: Env, d: Dir) {
    d.base.Some? ==> DistinctIds(d.base.value) && (Usable(d) ==> env.primary(d.config.value.index)(d.base.value))
  }

  /** What every crash point leaves: outside the marked window an index fits its
      base, and a base whose index is used can be indexed; the journal is a run
      of whole records and perhaps part of one more. */
  ghost predicate Sound(env: Env, d: Dir, recs: seq<Rec>, k: nat) {
    && (!d.marker ==> IdxFits(d))
    && (!d.marker ==> TrustedBase(env, d))
    && AllFit(env.codec, recs) && k <= |Lines(env.codec, recs)|
    && JournalBytes(d) == Lines(env.codec, recs)[..k]
  }

  ghost predicate SoundDir(env: Env, d: Dir) {
    exists recs, k :: Sound(env, d, recs, k)
  }

  /** A sound directory outside the marked window whose journal is exactly these
      records, whole. */
  ghost predicate Rested(env: Env, d: Dir, recs: seq<Rec>) {
    && !d.marker && IdxFits(d) && TrustedBase(env, d)
    && AllFit(env.codec, recs) && JournalBytes(d) == Lines(env.codec, recs)
  }

  lemma RestedIsSound(env: Env, d: Dir, recs: seq<Rec>)
    requires Rested(env, d, recs)
    ensures SoundDir(env, d)
  {
    var l := Lines(env.codec, recs);
    assert l[..|l|] == l;
    assert Sound(env, d, recs, |l|);
  }

  lemma SyncIsSound(env: Env, d: Dir, s: Served, recs: seq<Rec>)
    requires Sync(env, d, s, recs)
    ensures Rested(env, d, recs) && SoundDir(env, d)
  {
    hide Lines, ApplyAll, CanBuild;
    RestedIsSound(env, d, recs);
  }

  /** A sound directory without a journal is at rest. */
  lemma EmptyRests(env: Env, d: Dir)
    requires SoundDir(env, d) && !d.marker && JournalBytes(d) == []
    ensures Rested(env, d, [])
  {
    LinesEmpty(env.codec, []);
  }

  /** An index cache is disposable: no directory a crash leaves opens otherwise
      for having one. */
  lemma CacheIsDisposable(env: Env, d: Dir)
    requires SoundDir(env, d)
    ensures OpenList(env, d) == OpenList(env, d.(idx := None))
  {
    hide Lines, Read, ApplyAll, CanBuild, Dedupe;
    var recs, k :| Sound(env, d, recs, k);
    if !d.marker && d.base.Some? {
      DedupeDistinct(d.base.value);
    }
  }

  // ------------------------------------------------------------------ repair on open

  /** The directory after opening it: the torn tail is cut, a journal that
      cannot be applied is set aside, and the index may be rebuilt. */
  ghost predicate Repaired(env: Env, d: Dir, d': Dir)
  {
    var o := OpenList(env, d);
    && o.Opened?
    && d'.marker == d.marker && d'.config == d.config && d'.base == d.base
    && (d'.idx == d.idx ||
        (d.base.Some? && d'.idx == Some(Idx(ContentOf(d.base.value), o.served.cfg.index, Dedupe(d.base.value)))))
    && JournalBytes(d') == if o.quarantined then [] else Intact(env, d)
  }

  lemma {:induction false} IntactPrefix(env: Env, recs: seq<Rec>, k: nat)
    requires Lawful(env.codec) && AllFit(env.codec, recs) && k <= |Lines(env.codec, recs)|
    ensures var x := Lines(env.codec, recs)[..k]; var r := Read(env.codec, x);
            var j := Whole(env.codec, recs, k);
            && r.recs == recs[..j]
            && (r.torn.None? ==> x == Lines(env.codec, recs[..j]))
            && (r.torn.Some? ==> r.torn.value <= |x| && x[..r.torn.value] == Lines(env.codec, recs[..j]))
    decreases |recs|
  {
    hide Read;
    var c := env.codec;
    var x := Lines(c, recs)[..k];
    PrefixRead(c, recs, k);
    if recs == [] {
      ReadStep(c, []);
    } else {
      var n := |c.encode(recs[0])| + 1;
      if k < n {
        assert x == c.encode(recs[0])[..k];
        Unterminated(c, x);
        assert recs[..0] == [];
      } else {
        var rest, j := recs[1..], Whole(c, recs[1..], k - n);
        var y := Lines(c, rest)[..k - n];
        IntactPrefix(env, rest, k - n);
        assert x == c.encode(recs[0]) + [LF] + y;
        LineReads(c, recs[0], y);
        assert recs[..1 + j][1..] == rest[..j];
        var t := Read(c, y).torn;
        if t.Some? {
          assert x[..n + t.value] == c.encode(recs[0]) + [LF] + y[..t.value];
        }
      }
    }
  }

  /** After opening a sound directory, directory and memory agree. */
  lemma OpenSyncs(env: Env, d: Dir, d': Dir) returns (recs: seq<Rec>)
    requires Lawful(env.codec) && SoundDir(env, d) && Repaired(env, d, d')
    ensures Sync(env, d', OpenList(env, d).served, recs)
  {
    hide Lines, Read, ApplyAll, CanBuild, Dedupe, Whole;
    var all, k :| Sound(env, d, all, k);
    IntactPrefix(env, all, k);
    var j := Whole(env.codec, all, k);
    if d.base.Some? {
      DedupeDistinct(d.base.value);
    }
    var o := OpenList(env, d);
    NothingApplied(BaseMap(o.served.base).Keys);
    LinesEmpty(env.codec, []);
    LinesEmpty(env.codec, all[..j]);
    recs := if o.quarantined then [] else all[..j];
    LinesEmpty(env.codec, recs);
  }
}
