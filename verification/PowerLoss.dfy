/** Creating a list under power loss (engine/store.go:428-436, 645-710,
    1777-1801). A rename or removal is visible at once but durable only after
    the directory is synced; until then a power loss keeps any of them. */
module PowerLoss {
  import opened ListModel
  import opened JournalFile
  import opened StoreDisk
  import opened Options
  import Store

  /** One change of a directory entry. */
  datatype Change = Mark(on: bool) | DropBase | DropIdx | DropJournal | PutConfig(cfg: Config)

  function Changed(d: Dir, c: Change): Dir {
    match c
    case Mark(on) => d.(marker := on)
    case DropBase => d.(base := None)
    case DropIdx => d.(idx := None)
    case DropJournal => d.(journal := None)
    case PutConfig(cfg) => d.(config := Some(cfg))
  }

  /** The directory as the running process sees it. */
  function Visible(d: Dir, pending: seq<Change>): Dir {
    if pending == [] then d else Changed(Visible(d, pending[..|pending| - 1]), pending[|pending| - 1])
  }

  /** d' may be what is left: some of the pending changes, in their order. */
  ghost predicate Survives(d: Dir, pending: seq<Change>, d': Dir) {
    if pending == [] then d' == d
    else
      var (rest, last) := (pending[..|pending| - 1], pending[|pending| - 1]);
      Survives(d, rest, d') || exists e :: Survives(d, rest, e) && d' == Changed(e, last)
  }

  function EmptyList(cfg: Config): Dir {
    Dir(false, Some(cfg), None, None, None)
  }

  /** What a power loss may leave: the directory as it was, a marked directory
      that is skipped, or a complete new empty list. */
  predicate Clean(before: Dir, cfgs: set<Config>, d: Dir) {
    d == before || d.marker || (d.config.Some? && d.config.value in cfgs && d == EmptyList(d.config.value))
  }

  predicate OnlyMarks(pending: seq<Change>) {
    forall i | 0 <= i < |pending| :: pending[i].Mark?
  }

  /** Whole when its marker is ignored: as before, or a new empty list. */
  predicate Unmarked(before: Dir, cfgs: set<Config>, d: Dir) {
    Clean(before, cfgs, d.(marker := false))
  }

  /** What durable and pending may be between the steps of a create. */
  predicate Guarded(before: Dir, cfgs: set<Config>, durable: Dir, pending: seq<Change>) {
    || (Unmarked(before, cfgs, durable) && OnlyMarks(pending))
    || (durable.marker && Mark(false) !in pending)
  }

  lemma {:induction false} GuardedSurvives(before: Dir, cfgs: set<Config>, durable: Dir, pending: seq<Change>, d: Dir)
    requires !before.marker && Guarded(before, cfgs, durable, pending) && Survives(durable, pending, d)
    ensures Clean(before, cfgs, d)
    ensures Unmarked(before, cfgs, durable) && OnlyMarks(pending) ==> d.(marker := durable.marker) == durable
    ensures durable.marker && Mark(false) !in pending ==> d.marker
    decreases |pending|
  {
    if pending != [] {
      var rest, last := pending[..|pending| - 1], pending[|pending| - 1];
      if Survives(durable, rest, d) {
        GuardedSurvives(before, cfgs, durable, rest, d);
      } else {
        var e :| Survives(durable, rest, e) && d == Changed(e, last);
        GuardedSurvives(before, cfgs, durable, rest, e);
        assert last in pending;
      }
    }
  }

  /** Wherever the power goes, what is left is clean: in particular never the
      old configuration over wiped data without its marker. */
  lemma LossIsClean(before: Dir, cfgs: set<Config>, durable: Dir, pending: seq<Change>)
    requires !before.marker && Guarded(before, cfgs, durable, pending)
    ensures forall d | Survives(durable, pending, d) :: Clean(before, cfgs, d)
  {
    forall d | Survives(durable, pending, d) ensures Clean(before, cfgs, d) {
      GuardedSurvives(before, cfgs, durable, pending, d);
    }
  }

  /** Opening what a power loss leaves gives the old list, nothing, or an empty
      list. */
  lemma CleanOpens(env: Env, before: Dir, cfgs: set<Config>, d: Dir)
    requires Clean(before, cfgs, d)
    ensures OpenList(env, d) == OpenList(env, before) || OpenList(env, d).Skipped? ||
            exists cfg ::
              cfg in cfgs && OpenList(env, d) == Opened(Served(cfg, None, Empty, BaseStamp(cfg, None), []), false)
  {
    if d != before && !d.marker {
      Store.FreshList(env, d, d.config.value);
    }
  }

  lemma VisiblePush(d: Dir, pending: seq<Change>, c: Change)
    ensures Visible(d, pending + [c]) == Changed(Visible(d, pending), c)
  {
    assert (pending + [c])[..|pending|] == pending;
  }

  /** Seen by the process, only the marker can differ. */
  lemma {:induction false} VisibleMarks(d: Dir, pending: seq<Change>)
    requires OnlyMarks(pending)
    ensures Visible(d, pending).(marker := d.marker) == d
    decreases |pending|
  {
    if pending != [] {
      VisibleMarks(d, pending[..|pending| - 1]);
    }
  }

  lemma SurvivesGrows(before: Dir, cfgs: set<Config>, cfg: Config, durable: Dir, pending: seq<Change>)
    requires Guarded(before, cfgs, durable, pending)
    ensures Guarded(before, cfgs + {cfg}, durable, pending)
  {
  }

  /** A point at which the power may go. */
  datatype Point = Point(durable: Dir, pending: seq<Change>)

  class PowerDir {
    const before: Dir
    var durable: Dir
    var pending: seq<Change>
    /** No disk step fails while this holds. */
    var calm: bool

    /** The configurations some create attempted. */
    ghost var cfgs: set<Config>
    /** Every state the last create passed through. */
    ghost var points: seq<Point>

    ghost predicate Valid()
      reads this
    {
      !before.marker && Guarded(before, cfgs, durable, pending)
    }

    ghost predicate AlwaysClean()
      reads this
    {
      forall p, d | p in points && Survives(p.durable, p.pending, d) :: Clean(before, cfgs, d)
    }

    /** A fully durable directory, before any create. */
    constructor (d: Dir, calm: bool)
      requires !d.marker
      ensures Valid() && this.calm == calm && before == d && cfgs == {} && durable == d && pending == []
    {
      this.calm := calm;
      before, cfgs, durable, pending, points := d, {}, d, [], [];
    }

    /** Records the current state as one the power may go in. */
    ghost method Here()
      requires Valid() && AlwaysClean()
      modifies this`points
      ensures AlwaysClean() && points == old(points) + [Point(durable, pending)]
    {
      LossIsClean(before, cfgs, durable, pending);
      points := points + [Point(durable, pending)];
    }

    method Sync() returns (ok: bool)
      modifies this`durable, this`pending
      ensures if ok then durable == Visible(old(durable), old(pending)) && pending == []
              else durable == old(durable) && pending == old(pending)
      ensures calm ==> ok
    {
      ok :| calm ==> ok;
      if ok {
        durable, pending := Visible(durable, pending), [];
      }
    }

    /** Changes an entry, or fails and changes nothing. */
    method Try(c: Change) returns (ok: bool)
      modifies this`pending
      ensures pending == if ok then old(pending) + [c] else old(pending)
      ensures calm ==> ok
    {
      ok :| calm ==> ok;
      if ok {
        pending := pending + [c];
      }
    }

    /** Creates the list inside its crash bracket. Whenever the power goes, only
        clean states are left; once acknowledged, only the new empty list. */
    method CreateList(cfg: Config) returns (ok: bool)
      requires Valid()
      modifies this`durable, this`pending, this`cfgs, this`points
      ensures Valid() && cfgs == old(cfgs) + {cfg} && AlwaysClean()
      ensures points != [] && points[|points| - 1] == Point(durable, pending)
      ensures ok ==> durable == EmptyList(cfg) && pending == []
      ensures calm ==> ok
    {
      hide Survives, Clean, Visible;
      SurvivesGrows(before, cfgs, cfg, durable, pending);
      cfgs := cfgs + {cfg};
      points := [];
      Here();
      ok := Bracket();
      if !ok {
        return;
      }
      ok := Rewrite(cfg);
      if !ok {
        return;
      }
      WholeNow(before, cfgs, durable, cfg);
      ok := Try(Mark(false));
      Here();
      if !ok {
        return;
      }
      VisiblePush(durable, [], Mark(false));
      NothingPending(durable);
      ok := Sync();
      WholeNow(before, cfgs, durable, cfg);
      Here();
    }

    /** Publishes the marker durably. */
    method Bracket() returns (ok: bool)
      requires Valid() && AlwaysClean() && points != [] && points[|points| - 1] == Point(durable, pending)
      modifies this`durable, this`pending, this`points
      ensures Valid() && AlwaysClean() && points != [] && points[|points| - 1] == Point(durable, pending)
      ensures ok ==> durable.marker && pending == []
      ensures calm ==> ok
    {
      hide Survives, Clean, Visible;
      ok := Try(Mark(true));
      if !ok {
        return;
      }
      Here();
      VisiblePush(durable, old(pending), Mark(true));
      if OnlyMarks(pending) {
        VisibleMarks(durable, pending);
      }
      ok := Sync();
      Here();
    }

    /** One change inside the bracket. */
    method Within(c: Change) returns (ok: bool)
      requires Valid() && AlwaysClean() && durable.marker && Mark(false) !in pending && c != Mark(false)
      modifies this`pending, this`points
      ensures Valid() && AlwaysClean() && Mark(false) !in pending
      ensures points != [] && points[|points| - 1] == Point(durable, pending)
      ensures ok ==> Visible(durable, pending) == Changed(Visible(durable, old(pending)), c)
      ensures calm ==> ok
    {
      hide Survives, Clean, Visible, Unmarked;
      VisiblePush(durable, pending, c);
      ok := Try(c);
      Here();
    }

    /** Wipes the data and writes the configuration, inside the bracket. */
    method Rewrite(cfg: Config) returns (ok: bool)
      requires Valid() && AlwaysClean() && durable.marker && pending == []
      modifies this`durable, this`pending, this`points
      ensures Valid() && AlwaysClean() && points != [] && points[|points| - 1] == Point(durable, pending)
      ensures ok ==> durable == EmptyList(cfg).(marker := true) && pending == []
      ensures calm ==> ok
    {
      hide Survives, Clean, Visible, Unmarked;
      NothingPending(durable);
      ok := Within(DropBase);
      if ok {
        ok := Within(DropIdx);
      }
      if ok {
        ok := Within(DropJournal);
      }
      if ok {
        ok := Within(PutConfig(cfg));
      }
      if ok {
        ok := Sync();
        Here();
      }
    }
  }

  lemma NothingPending(d: Dir)
    ensures Visible(d, []) == d
  {
  }

  lemma WholeNow(before: Dir, cfgs: set<Config>, d: Dir, cfg: Config)
    requires cfg in cfgs
    ensures d.(marker := false) == EmptyList(cfg) ==> Unmarked(before, cfgs, d)
  {
  }
}
