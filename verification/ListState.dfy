/** The in-memory list (engine/list.go:383-430, 493-530, 742-950, 2041-2087;
    engine/journal.go:28-68): each mutation builds first and installs after,
    and acts on the live map as the map operation. */
module ListState {
  import opened Bytes
  import opened Seqs
  import opened ListModel
  import opened Options

  /** The overlay's entries can be indexed, in ID order. */
  ghost predicate CanBuild(builds: Builder, m: Live) {
    exists s :: Lists(s, m) && builds(s)
  }

  /** The number of keys the entries with these IDs hold. */
  ghost function KeySum(m: Live, ids: set<Id>): nat
    requires ids <= m.Keys
    decreases |ids|
  {
    if ids == {} then 0
    else
      var id :| id in ids;
      |m[id].keys| + KeySum(m, ids - {id})
  }

  /** Any element may be counted first. */
  lemma {:induction false} KeySumAny(m: Live, ids: set<Id>, id: Id)
    requires ids <= m.Keys && id in ids
    ensures KeySum(m, ids) == |m[id].keys| + KeySum(m, ids - {id})
    decreases |ids|
  {
    var least :| least in ids && KeySum(m, ids) == |m[least].keys| + KeySum(m, ids - {least});
    if least != id {
      KeySumAny(m, ids - {least}, id);
      KeySumAny(m, ids - {id}, least);
      assert ids - {least} - {id} == ids - {id} - {least};
    }
  }

  lemma {:induction false} KeySumSame(m: Live, n: Live, ids: set<Id>)
    requires ids <= m.Keys && ids <= n.Keys && forall id | id in ids :: m[id] == n[id]
    ensures KeySum(m, ids) == KeySum(n, ids)
    decreases |ids|
  {
    if ids != {} {
      var id :| id in ids;
      KeySumAny(m, ids, id);
      KeySumAny(n, ids, id);
      KeySumSame(m, n, ids - {id});
    }
  }

  lemma {:induction false} KeySumSplit(m: Live, a: set<Id>, b: set<Id>)
    requires a + b <= m.Keys && a !! b
    ensures KeySum(m, a + b) == KeySum(m, a) + KeySum(m, b)
    decreases |a|
  {
    if a == {} {
      assert a + b == b;
    } else {
      var id :| id in a;
      KeySumAny(m, a + b, id);
      KeySumAny(m, a, id);
      assert a + b - {id} == (a - {id}) + b;
      KeySumSplit(m, a - {id}, b);
    }
  }

  lemma {:induction false} KeysOfIsSum(s: seq<Entry>)
    requires DistinctIds(s)
    ensures LastWins(s).Keys == (set e | e in s :: e.id)
    ensures KeysOf(s) == KeySum(LastWins(s), LastWins(s).Keys)
    decreases |s|
  {
    if s != [] {
      var t, e := s[..|s| - 1], s[|s| - 1];
      KeysOfIsSum(t);
      var m := LastWins(s);
      assert e.id !in LastWins(t);
      assert m.Keys - {e.id} == LastWins(t).Keys;
      KeySumAny(m, m.Keys, e.id);
      KeySumSame(m, LastWins(t), LastWins(t).Keys);
    }
  }

  // ------------------------------------------------------------------ the class

  datatype Status = Status(entries: int, overlay: nat, tombstones: nat, losses: Losses)

  class List {
    const norm: Analyzer
    const builds: Builder
    var base: Option<Segment>
    var overlay: Option<Segment>
    var tombstones: set<Id>
    var overlaySrc: Live

    ghost function BaseMap(): Live
      reads this
    {
      if base.Some? then LastWins(base.value.entries) else map[]
    }

    function BaseIds(): set<Id>
      reads this
    {
      if base.Some? then base.value.byID.Keys else {}
    }

    ghost function State(): Overlay
      reads this
    {
      Overlay(overlaySrc, tombstones)
    }

    /** The live map the list stands for. */
    ghost function Contents(): Live
      reads this
    {
      LiveOf(BaseMap(), State())
    }

    ghost predicate Valid()
      reads this
    {
      && (base.Some? ==> base.value.Valid())
      && Coherent(BaseMap(), State())
      && (if overlay.None? then overlaySrc == map[]
          else overlaySrc != map[] && overlay.value.Valid() && Lists(overlay.value.entries, overlaySrc) &&
               overlay.value.Truthful(norm) && overlay.value.losses.unindexed == 0)
    }

    constructor (norm: Analyzer, builds: Builder)
      ensures Valid() && Contents() == map[] && this.norm == norm && this.builds == builds && base.None?
    {
      this.norm, this.builds := norm, builds;
      base, overlay, tombstones, overlaySrc := None, None, {}, map[];
    }

    lemma BaseFacts()
      requires Valid()
      ensures BaseIds() == BaseMap().Keys
      ensures base.Some? ==> forall id | id in base.value.byID ::
                base.value.byID[id] < |base.value.entries| && BaseMap()[id] == base.value.entries[base.value.byID[id]]
    {
      if base.Some? {
        LastWinsHas(base.value.entries);
      }
    }

    /** Installs a new overlay if its entries can be indexed. */
    method InstallOverlay(o: Overlay) returns (ok: bool)
      requires Valid() && Coherent(BaseMap(), o)
      modifies this
      ensures Valid() && base == old(base)
      ensures ok <==> o.src == map[] || CanBuild(builds, o.src)
      ensures if ok then State() == o else State() == old(State()) && overlay == old(overlay)
    {
      if o.src == map[] {
        overlay, tombstones, overlaySrc := None, o.tomb, o.src;
        return true;
      }
      var entries := SortEntries(o.src);
      var seg := BuildSegment(entries, norm, builds);
      BuildIsCanBuild(builds, o.src, entries);
      if seg.None? {
        return false;
      }
      overlay, tombstones, overlaySrc := seg, o.tomb, o.src;
      return true;
    }

    /** Adds or replaces entries. */
    method Upsert(entries: seq<Entry>) returns (ok: bool)
      requires Valid()
      modifies this
      ensures Valid() && base == old(base)
      ensures var o := ApplyAll(old(State()), UpsertRecs(entries), old(BaseIds()));
              && (ok <==> o.src == map[] || CanBuild(builds, o.src))
              && (ok ==> State() == o && Contents() == old(Contents()) + LastWins(entries))
      ensures !ok ==> State() == old(State()) && Contents() == old(Contents())
    {
      hide Segment.Valid, Segment.Truthful, LastWins, Lists, CanBuild;
      BaseFacts();
      var o := Overlay(overlaySrc, tombstones);
      for i := 0 to |entries|
        invariant o == ApplyAll(State(), UpsertRecs(entries)[..i], BaseIds())
      {
        var recs := UpsertRecs(entries);
        assert recs[..i + 1][..i] == recs[..i];
        var tomb := if entries[i].id in BaseIds() then o.tomb + {entries[i].id} else o.tomb;
        o := Overlay(o.src[entries[i].id := entries[i]], tomb);
      }
      assert UpsertRecs(entries)[..|entries|] == UpsertRecs(entries);
      ApplyAllKeeps(BaseMap(), State(), UpsertRecs(entries));
      UpsertsAreLastWins(Contents(), entries);
      ok := InstallOverlay(o);
    }

    /** Removes an entry; removing an absent one changes nothing. */
    method Delete(id: Id) returns (ok: bool)
      requires Valid()
      modifies this
      ensures Valid() && base == old(base)
      ensures var o := Apply(old(State()), Rec.Delete(id), old(BaseIds()));
              && (ok <==> o.src == map[] || CanBuild(builds, o.src))
              && (ok ==> State() == o && Contents() == old(Contents()) - {id})
      ensures !ok ==> State() == old(State()) && Contents() == old(Contents())
    {
      BaseFacts();
      ApplyKeeps(BaseMap(), State(), Rec.Delete(id));
      var tomb := if id in BaseIds() then tombstones + {id} else tombstones;
      ok := InstallOverlay(Overlay(overlaySrc - {id}, tomb));
    }

    /** Folds a whole journal in at one go: the overlay is built once, and the
        result is that of replaying record by record. */
    method ApplyJournal(recs: seq<Rec>) returns (ok: bool)
      requires Valid()
      modifies this
      ensures Valid() && base == old(base)
      ensures var o := ApplyAll(old(State()), recs, old(BaseIds()));
              && (ok <==> recs == [] || o.src == map[] || CanBuild(builds, o.src))
              && (ok ==> State() == o && Contents() == RecsOn(old(Contents()), recs))
      ensures !ok ==> State() == old(State()) && Contents() == old(Contents())
    {
      hide Segment.Valid, Segment.Truthful, LastWins, Lists, CanBuild;
      if |recs| == 0 {
        return true;
      }
      BaseFacts();
      var o := Overlay(overlaySrc, tombstones);
      for i := 0 to |recs|
        invariant o == ApplyAll(State(), recs[..i], BaseIds())
      {
        assert recs[..i + 1][..i] == recs[..i];
        match recs[i] {
          case Upsert(e) =>
            o := Overlay(o.src[e.id := e], if e.id in BaseIds() then o.tomb + {e.id} else o.tomb);
          case Delete(id) =>
            o := Overlay(o.src - {id}, if id in BaseIds() then o.tomb + {id} else o.tomb);
          case Unknown =>
        }
      }
      assert recs[..|recs|] == recs;
      ApplyAllKeeps(BaseMap(), State(), recs);
      ok := InstallOverlay(o);
    }

    /** Serves a segment as the entire content. */
    method InstallBase(seg: Segment)
      requires seg.Valid()
      modifies this
      ensures Valid() && base == Some(seg) && State() == Empty && Contents() == LastWins(seg.entries)
    {
      hide Segment.Valid, LastWins;
      base, overlay, tombstones, overlaySrc := Some(seg), None, {}, map[];
      LiveOfEmpty(BaseMap());
    }

    /** Swaps the whole content. */
    method Replace(entries: seq<Entry>) returns (ok: bool)
      requires Valid()
      modifies this
      ensures Valid()
      ensures ok ==> Contents() == LastWins(entries) && State() == Empty && base.Some?
      ensures !ok ==> base == old(base) && State() == old(State()) && Contents() == old(Contents())
      ensures ok <==> builds(Dedupe(entries))
      ensures ok ==> base.value.entries == Dedupe(entries)
    {
      hide Segment.Valid, LastWins, Dedupe, Coherent;
      var deduped := DedupeLastWins(entries);
      var seg := BuildSegment(deduped, norm, builds);
      if seg.None? {
        return false;
      }
      InstallBase(seg.value);
      return true;
    }

    /** Swaps the whole content for entries whose index was built before. */
    method ReplaceWithIndex(entries: seq<Entry>, ords: nat, record: Option<BuildRecord>) returns (ok: bool)
      requires Valid()
      modifies this
      ensures Valid()
      ensures ok <==> var n := |Dedupe(entries)|; ords <= n && (record.Some? ==> Plausible(record.value, n, ords))
      ensures ok ==> Contents() == LastWins(entries) && State() == Empty && base.Some?
      ensures ok && record.Some? ==> base.value.losses.unindexed == |Dedupe(entries)| - record.value.entries
      ensures ok && record.Some? && Honest(norm, Dedupe(entries), record.value) ==> base.value.Truthful(norm)
      ensures !ok ==> base == old(base) && State() == old(State()) && Contents() == old(Contents())
    {
      hide Segment.Valid, LastWins, Dedupe, Coherent;
      var deduped := DedupeLastWins(entries);
      var seg := AttachIndex(deduped, ords, record);
      if seg.None? {
        return false;
      }
      InstallBase(seg.value);
      return true;
    }

    /** The live entries in ID order. */
    method LiveEntries() returns (s: seq<Entry>)
      requires Valid()
      ensures Lists(s, Contents()) && DistinctIds(s) && LastWins(s) == Contents()
    {
      hide Segment.Valid, Coherent;
      BaseFacts();
      var out: Live := map[];
      if base.Some? {
        SegmentFacts(base.value);
        out := Unmasked(base.value.entries, tombstones, overlaySrc);
      }
      OverlayWins(BaseMap(), State());
      s := SortEntries(out + overlaySrc);
    }

    /** Folds base and overlay into a fresh base: the same entries. */
    method Compact() returns (ok: bool)
      requires Valid()
      modifies this
      ensures Valid() && Contents() == old(Contents())
      ensures ok <==> CanBuild(builds, old(Contents()))
      ensures if ok then State() == Empty && base.Some? else base == old(base) && State() == old(State())
    {
      hide Segment.Valid, Segment.Truthful, LastWins, SortedById, Coherent;
      var live := LiveEntries();
      var seg := BuildSegment(live, norm, builds);
      BuildIsCanBuild(builds, Contents(), live);
      if seg.None? {
        return false;
      }
      InstallBase(seg.value);
      return true;
    }

    /** The entries an index covers, base then overlay. */
    function Covered(): seq<Entry>
      requires Valid()
      reads this
    {
      Indexed(base) + Indexed(overlay)
    }

    /** Counters of one snapshot: live entries, overlay entries, masked base
        entries; and what the builds of base and overlay lost. Masked entries
        still count among the losses. */
    method GetStatus() returns (st: Status)
      requires Valid()
      ensures st.entries == |Contents()| && st.overlay == |overlaySrc| && st.tombstones == |tombstones|
      ensures st.losses.unindexed == LossesOf(base).unindexed
      ensures base.None? || base.value.Truthful(norm) ==>
                st.losses.dropped == DroppedOf(norm, Covered()) && st.losses.keyless == KeylessOf(norm, Covered())
    {
      hide Segment.Valid, Segment.Truthful, LastWins, DroppedOf, KeylessOf, Indexed, Lists, Coherent;
      var entries, ov, masked := CountEntries();
      var losses := Losses(0, 0, 0);
      if base.Some? {
        losses := base.value.losses;
      }
      if overlay.Some? {
        var l := overlay.value.losses;
        losses := Losses(losses.dropped + l.dropped, losses.keyless + l.keyless, losses.unindexed + l.unindexed);
      }
      if base.None? || base.value.Truthful(norm) {
        LossesAdd(norm, base, overlay);
      }
      st := Status(entries, ov, masked, losses);
    }

    method CountEntries() returns (entries: int, ov: nat, masked: nat)
      requires Valid()
      ensures entries == |Contents()| && ov == |overlaySrc| && masked == |tombstones|
    {
      hide Segment.Valid, Segment.Truthful, LastWins;
      BaseFacts();
      LiveSize(BaseMap(), State());
      entries, masked := 0, 0;
      NoMap();
      if base.Some? {
        SegmentFacts(base.value);
        SegmentSize(base.value.entries);
        entries := |base.value.entries|;
        masked := CountMasked(tombstones, base.value.byID);
      }
      entries := entries - masked;
      ov := 0;
      if overlay.Some? {
        ov := |overlay.value.entries|;
        entries := entries + ov;
        ListedMap(overlay.value.entries, overlaySrc);
        SegmentSize(overlay.value.entries);
      }
    }

    /** The live raw-key total. */
    method KeyCount() returns (n: int)
      requires Valid()
      ensures n == KeySum(Contents(), Contents().Keys)
    {
      hide Segment.Valid, LastWins, KeySum;
      BaseFacts();
      LiveKeys(BaseMap(), State());
      NoMap();
      n := 0;
      if base.Some? {
        n := UnmaskedKeys(base.value, tombstones);
      } else {
        assert BaseMap().Keys - tombstones == {};
      }
      if overlay.Some? {
        SegmentFacts(overlay.value);
        n := n + overlay.value.totalKeys;
        ListedMap(overlay.value.entries, overlaySrc);
        KeysOfIsSum(overlay.value.entries);
      } else {
        assert overlaySrc.Keys == {};
      }
    }
  }

  lemma {:induction false} LossesJoin(norm: Analyzer, a: seq<Entry>, b: seq<Entry>)
    ensures DroppedOf(norm, a + b) == DroppedOf(norm, a) + DroppedOf(norm, b)
    ensures KeylessOf(norm, a + b) == KeylessOf(norm, a) + KeylessOf(norm, b)
    decreases |b|
  {
    hide DroppedKeys, Keyless;
    if b == [] {
      assert a + b == a;
    } else {
      assert (a + b)[..|a + b| - 1] == a + b[..|b| - 1];
      LossesJoin(norm, a, b[..|b| - 1]);
    }
  }

  function Indexed(seg: Option<Segment>): seq<Entry>
    requires seg.Some? ==> seg.value.Valid()
  {
    if seg.Some? then seg.value.entries[..|seg.value.entries| - seg.value.losses.unindexed] else []
  }

  function LossesOf(seg: Option<Segment>): Losses {
    if seg.Some? then seg.value.losses else Losses(0, 0, 0)
  }

  /** What base and overlay lost is what their covered entries lost. */
  lemma LossesAdd(norm: Analyzer, base: Option<Segment>, overlay: Option<Segment>)
    requires base.Some? ==> base.value.Valid() && base.value.Truthful(norm)
    requires overlay.Some? ==> overlay.value.Valid() && overlay.value.Truthful(norm)
    ensures DroppedOf(norm, Indexed(base) + Indexed(overlay)) == LossesOf(base).dropped + LossesOf(overlay).dropped
    ensures KeylessOf(norm, Indexed(base) + Indexed(overlay)) == LossesOf(base).keyless + LossesOf(overlay).keyless
  {
    hide Segment.Valid;
    LossesJoin(norm, Indexed(base), Indexed(overlay));
  }

  lemma NoMap()
    ensures LastWins([]) == map[] && KeySum(map[], {}) == 0
  {
  }

  lemma SegmentFacts(seg: Segment)
    requires seg.Valid()
    ensures DistinctIds(seg.entries) && seg.byID.Keys == LastWins(seg.entries).Keys
    ensures seg.totalKeys == KeysOf(seg.entries)
    ensures forall id | id in seg.byID ::
              seg.byID[id] < |seg.entries| && LastWins(seg.entries)[id] == seg.entries[seg.byID[id]]
  {
    LastWinsHas(seg.entries);
  }

  lemma OverlayWins(base: Live, o: Overlay)
    ensures (base - o.tomb - o.src.Keys) + o.src == LiveOf(base, o)
  {
  }

  /** The entries of a base that are neither masked nor shadowed. */
  method Unmasked(entries: seq<Entry>, tomb: set<Id>, src: Live) returns (out: Live)
    requires DistinctIds(entries)
    ensures out == LastWins(entries) - tomb - src.Keys
  {
    hide LastWins, DistinctIds;
    out := map[];
    NoMap();
    for i := 0 to |entries|
      invariant out == LastWins(entries[..i]) - tomb - src.Keys
    {
      LastWinsPush(entries, i);
      NewId(entries, i);
      if entries[i].id !in tomb && entries[i].id !in src {
        out := out[entries[i].id := entries[i]];
      }
    }
    assert entries[..|entries|] == entries;
  }

  lemma NewId(entries: seq<Entry>, i: nat)
    requires i < |entries| && DistinctIds(entries)
    ensures entries[i].id !in LastWins(entries[..i])
  {
    LastWinsHas(entries[..i]);
  }

  method CountMasked(tomb: set<Id>, byID: map<Id, nat>) returns (masked: nat)
    ensures tomb <= byID.Keys ==> masked == |tomb|
  {
    masked := 0;
    var left := tomb;
    while left != {}
      invariant left <= tomb && (tomb <= byID.Keys ==> masked == |tomb - left|)
      decreases |left|
    {
      var id :| id in left;
      assert tomb - (left - {id}) == (tomb - left) + {id};
      if id in byID {
        masked := masked + 1;
      }
      left := left - {id};
    }
    assert tomb - {} == tomb;
  }

  /** A base's key total, less the keys of its masked entries. */
  method UnmaskedKeys(seg: Segment, tomb: set<Id>) returns (n: int)
    requires seg.Valid() && tomb <= LastWins(seg.entries).Keys
    ensures n == KeySum(LastWins(seg.entries), LastWins(seg.entries).Keys - tomb)
  {
    hide Segment.Valid, LastWins, KeySum;
    SegmentFacts(seg);
    KeysOfIsSum(seg.entries);
    n := seg.totalKeys;
    ghost var m := LastWins(seg.entries);
    var left := tomb;
    assert m.Keys - (tomb - left) == m.Keys;
    while left != {}
      invariant left <= tomb
      invariant n == KeySum(m, m.Keys - (tomb - left))
      decreases |left|
    {
      var id :| id in left;
      KeySumAny(m, m.Keys - (tomb - left), id);
      assert m.Keys - (tomb - left) - {id} == m.Keys - (tomb - (left - {id}));
      n := n - |seg.entries[seg.byID[id]].keys|;
      left := left - {id};
    }
    assert tomb - {} == tomb;
  }

  lemma BuildIsCanBuild(builds: Builder, m: Live, s: seq<Entry>)
    requires Lists(s, m)
    ensures builds(s) <==> CanBuild(builds, m)
  {
    hide SortedById;
    if CanBuild(builds, m) {
      var t :| Lists(t, m) && builds(t);
      ListsOnce(s, t);
    }
  }

  lemma LiveOfEmpty(base: Live)
    ensures LiveOf(base, Empty) == base
  {
  }

  lemma SegmentSize(s: seq<Entry>)
    requires DistinctIds(s)
    ensures |LastWins(s)| == |s|
    decreases |s|
  {
    if s != [] {
      SegmentSize(s[..|s| - 1]);
      LastWinsHas(s[..|s| - 1]);
    }
  }

  lemma ListedMap(s: seq<Entry>, m: Live)
    requires Lists(s, m)
    ensures DistinctIds(s) && LastWins(s) == m
  {
    SortedDistinct(s);
    ListedIsMap(s, m);
  }

  lemma LiveSize(base: Live, o: Overlay)
    requires Coherent(base, o)
    ensures |LiveOf(base, o)| == |base| - |o.tomb| + |o.src|
  {
    var kept := base.Keys - o.tomb;
    assert LiveOf(base, o).Keys == kept + o.src.Keys;
    assert base.Keys == kept + o.tomb;
    assert |base.Keys| == |kept| + |o.tomb|;
    assert |kept + o.src.Keys| == |kept| + |o.src.Keys|;
  }

  lemma LiveKeys(base: Live, o: Overlay)
    requires Coherent(base, o)
    ensures KeySum(LiveOf(base, o), LiveOf(base, o).Keys) ==
            KeySum(base, base.Keys - o.tomb) + KeySum(o.src, o.src.Keys)
  {
    var m := LiveOf(base, o);
    var kept := base.Keys - o.tomb;
    assert m.Keys == kept + o.src.Keys;
    KeySumSplit(m, kept, o.src.Keys);
    KeySumSame(m, base, kept);
    KeySumSame(m, o.src, o.src.Keys);
  }
}
