/** The container around the sections (engine/prepared/format.go): a fixed
    header, a section table, a digest, then 32-aligned sections up to the end of
    the file. */
module ContainerFormat {
  import opened Buffers
  import opened Bytes

  const MAGIC: seq<byte> := [75, 85, 82, 78, 65, 82, 84, 49]
  const HEADER := 24
  const ENTRY := 64
  const DIGEST := 32
  const ALIGN := 32
  const MAX_SECTIONS := 64
  const MAX_U64 := 0xFFFF_FFFF_FFFF_FFFF

  const CONFIG := 1
  const BUILD := 2
  const RECORDS := 3
  const IDS := 4
  const NGRAM := 5
  const EXACT := 6
  const COMPANION := 7

  datatype Section = Section(kind: nat, flags: nat, off: nat, length: nat, sum: seq<byte>) {
    function End(): nat {
      off + length
    }
  }

  datatype Table = Table(major: nat, minor: nat, sections: seq<Section>, headEnd: nat, digest: seq<byte>)

  /** The engine's two errors about an artifact's structure: ErrMalformed and
      ErrIncompatible. */
  datatype Result<T> = Ok(value: T) | Malformed | Incompatible

  function HeadLen(n: nat): nat {
    HEADER + ENTRY * n + DIGEST
  }

  /** The next multiple of 32; callers check the 64-bit range. */
  function Align32(n: nat): (r: nat)
    ensures n <= r < n + 32 && r % 32 == 0
  {
    (n + 31) / 32 * 32
  }

  // ---------------------------------------------------------------- specification

  /** The fields of the table entry at offset e. */
  function EntryAt(b: seq<byte>, e: nat): Section
    requires e + ENTRY <= |b|
  {
    Section(LE(b[e..e + 4]), LE(b[e + 4..e + 8]), LE(b[e + 8..e + 16]), LE(b[e + 16..e + 24]), b[e + 24..e + 56])
  }

  function Entries(b: seq<byte>, n: nat): (secs: seq<Section>)
    requires HEADER + ENTRY * n <= |b|
    ensures |secs| == n && forall i | 0 <= i < n :: secs[i] == EntryAt(b, HEADER + ENTRY * i)
  {
    seq(n, (i: nat) requires i < n => EntryAt(b, HEADER + ENTRY * i))
  }

  predicate HasMagic(b: seq<byte>) {
    |b| >= HEADER && b[0..8] == MAGIC
  }

  /** A format this build reads. */
  predicate Reads(b: seq<byte>)
    requires |b| >= HEADER
  {
    LE(b[8..10]) == 1 && LE(b[12..16]) == 0
  }

  function Sections(b: seq<byte>): nat
    requires |b| >= HEADER
  {
    LE(b[16..20])
  }

  predicate HeadOk(b: seq<byte>) {
    HasMagic(b) && Reads(b) && 0 < Sections(b) <= MAX_SECTIONS && LE(b[20..24]) == 0
  }

  predicate PlainEntry(b: seq<byte>, e: nat)
    requires e + ENTRY <= |b|
  {
    LE(b[e + 56..e + 64]) == 0 && LE(b[e + 4..e + 8]) <= 1
  }

  /** Aligned, apart, in order, inside the file and up to its end. */
  ghost predicate Placed(secs: seq<Section>, from: nat, fileSize: nat) {
    && secs != [] && secs[|secs| - 1].End() == fileSize
    && (forall i | 0 <= i < |secs| :: secs[i].off % ALIGN == 0 && from <= secs[i].off && secs[i].End() <= fileSize)
    && forall i, j | 0 <= i < j < |secs| :: secs[i].End() <= secs[j].off && secs[i].off < secs[j].off
  }

  ghost predicate DistinctKinds(secs: seq<Section>) {
    forall i, j | 0 <= i < j < |secs| :: secs[i].kind != secs[j].kind
  }

  predicate Known(s: Section) {
    s.flags == 1 ==> CONFIG <= s.kind <= COMPANION
  }

  predicate Has(secs: seq<Section>, kind: nat) {
    exists i | 0 <= i < |secs| :: secs[i].kind == kind
  }

  /** The sections every artifact holds, and one index. */
  predicate Complete(secs: seq<Section>) {
    && Has(secs, CONFIG) && Has(secs, BUILD) && Has(secs, RECORDS) && Has(secs, IDS)
    && Has(secs, NGRAM) != Has(secs, EXACT)
    && (Has(secs, COMPANION) ==> Has(secs, NGRAM))
  }

  /** The whole head is there, and its table lays the file out. */
  ghost predicate Structured(b: seq<byte>, fileSize: nat) {
    && HeadOk(b) && HeadLen(Sections(b)) <= fileSize && HeadLen(Sections(b)) <= |b|
    && (forall i | 0 <= i < Sections(b) :: PlainEntry(b, HEADER + ENTRY * i))
    && DistinctKinds(Entries(b, Sections(b)))
    && Placed(Entries(b, Sections(b)), Align32(HeadLen(Sections(b))), fileSize)
  }

  ghost predicate AllKnown(b: seq<byte>)
    requires HeadOk(b) && HeadLen(Sections(b)) <= |b|
  {
    forall i | 0 <= i < Sections(b) :: Known(EntryAt(b, HEADER + ENTRY * i))
  }

  /** What the format refuses as another build's. */
  ghost predicate Foreign(b: seq<byte>, fileSize: nat) {
    || (HasMagic(b) && !Reads(b))
    || (Structured(b, fileSize) && !AllKnown(b))
  }

  ghost predicate Accepts(b: seq<byte>, fileSize: nat) {
    Structured(b, fileSize) && AllKnown(b) && Complete(Entries(b, Sections(b)))
  }

  // ---------------------------------------------------------------------- reading

  /** The length of header, table and digest. */
  method HeadLength(b: seq<byte>) returns (r: Result<nat>)
    ensures r.Ok? <==> HeadOk(b)
    ensures r.Ok? ==> r.value == HeadLen(Sections(b))
    ensures r.Incompatible? <==> HasMagic(b) && !Reads(b)
  {
    hide LE;
    if |b| < HEADER || b[0..8] != MAGIC {
      return Malformed;
    }
    if LE(b[8..10]) != 1 || LE(b[12..16]) != 0 {
      return Incompatible;
    }
    var n := LE(b[16..20]);
    if n == 0 || n > MAX_SECTIONS || LE(b[20..24]) != 0 {
      return Malformed;
    }
    return Ok(HEADER + ENTRY * n + DIGEST);
  }

  /** The sections checked so far: their kinds are seen and the last one ends
      at prevEnd. */
  ghost predicate Checked(b: seq<byte>, fileSize: nat, secs: seq<Section>, seen: set<nat>, prevEnd: nat)
    requires |b| >= HEADER
  {
    && HEADER + ENTRY * |secs| <= |b| && secs == Entries(b, |secs|)
    && (forall i | 0 <= i < |secs| :: PlainEntry(b, HEADER + ENTRY * i))
    && DistinctKinds(secs) && (forall k :: k in seen <==> Has(secs, k))
    && (secs == [] ==> prevEnd == 0)
    && (secs != [] ==> Placed(secs, Align32(HeadLen(Sections(b))), prevEnd) && prevEnd <= fileSize)
  }

  /** What the next section must be. */
  predicate NextFits(b: seq<byte>, fileSize: nat, secs: seq<Section>, seen: set<nat>, prevEnd: nat, s: Section)
    requires |b| >= HEADER
  {
    && s.kind !in seen && s.off % ALIGN == 0 && s.End() <= fileSize
    && (if secs == [] then s.off >= Align32(HeadLen(Sections(b)))
        else s.off > secs[|secs| - 1].off && s.off >= prevEnd)
  }

  lemma EntriesGrow(b: seq<byte>, n: nat)
    requires HEADER + ENTRY * (n + 1) <= |b|
    ensures Entries(b, n + 1) == Entries(b, n) + [EntryAt(b, HEADER + ENTRY * n)]
  {
    hide EntryAt;
  }

  lemma HasPush(secs: seq<Section>, s: Section, k: nat)
    ensures Has(secs + [s], k) <==> Has(secs, k) || s.kind == k
  {
    var all := secs + [s];
    if Has(secs, k) {
      var i :| 0 <= i < |secs| && secs[i].kind == k;
      assert all[i] == secs[i];
    }
    assert all[|secs|] == s;
  }

  lemma PlacedPush(secs: seq<Section>, s: Section, from: nat, prevEnd: nat)
    requires secs == [] || Placed(secs, from, prevEnd)
    requires s.off % ALIGN == 0
    requires if secs == [] then s.off >= from else s.off > secs[|secs| - 1].off && s.off >= prevEnd
    ensures Placed(secs + [s], from, s.End())
  {
    var all := secs + [s];
    forall i, j | 0 <= i < j < |all| ensures all[i].End() <= all[j].off && all[i].off < all[j].off {
      if j == |secs| && i < |secs| - 1 {
        assert secs[i].off < secs[|secs| - 1].off;
      }
    }
  }

  lemma CheckedPush(b: seq<byte>, fileSize: nat, secs: seq<Section>, seen: set<nat>, prevEnd: nat, s: Section)
    requires |b| >= HEADER && Checked(b, fileSize, secs, seen, prevEnd) && HEADER + ENTRY * (|secs| + 1) <= |b|
    requires s == EntryAt(b, HEADER + ENTRY * |secs|) && PlainEntry(b, HEADER + ENTRY * |secs|)
    requires NextFits(b, fileSize, secs, seen, prevEnd, s)
    ensures Checked(b, fileSize, secs + [s], seen + {s.kind}, s.End())
  {
    hide EntryAt, PlainEntry, Has, Placed, Align32, LE;
    EntriesGrow(b, |secs|);
    PlacedPush(secs, s, Align32(HeadLen(Sections(b))), prevEnd);
    forall k ensures k in seen + {s.kind} <==> Has(secs + [s], k) {
      HasPush(secs, s, k);
    }
    forall i | 0 <= i < |secs| ensures secs[i].kind != s.kind {
      HasKind(secs, i);
    }
  }

  lemma HasKind(secs: seq<Section>, i: nat)
    requires i < |secs|
    ensures Has(secs, secs[i].kind)
  {
  }

  /** In a structured file each next section fits. */
  lemma StructuredNext(b: seq<byte>, fileSize: nat, secs: seq<Section>, seen: set<nat>, prevEnd: nat)
    requires Structured(b, fileSize) && Checked(b, fileSize, secs, seen, prevEnd) && |secs| < Sections(b)
    ensures PlainEntry(b, HEADER + ENTRY * |secs|)
    ensures NextFits(b, fileSize, secs, seen, prevEnd, EntryAt(b, HEADER + ENTRY * |secs|))
  {
    hide EntryAt, PlainEntry, HeadOk, LE, Align32;
    var i, all := |secs|, Entries(b, Sections(b));
    assert forall j | 0 <= j < i :: secs[j] == all[j];
    var s := EntryAt(b, HEADER + ENTRY * i);
    assert s == all[i];
    assert s.kind !in seen;
  }

  lemma NothingChecked(b: seq<byte>, fileSize: nat)
    requires |b| >= HEADER
    ensures Checked(b, fileSize, [], {}, 0)
  {
  }

  lemma HeadFacts(b: seq<byte>)
    ensures HeadOk(b) ==> HasMagic(b) && |b| >= HEADER && Reads(b) && 0 < Sections(b) <= MAX_SECTIONS
    ensures HasMagic(b) ==> |b| >= HEADER
  {
    hide LE;
  }

  lemma EntryFields(b: seq<byte>, e: nat)
    requires e + ENTRY <= |b|
    ensures EntryAt(b, e).off <= MAX_U64
    ensures PlainEntry(b, e) <==> LE(b[e + 56..e + 64]) == 0 && EntryAt(b, e).flags <= 1
  {
    hide LE;
    Span8();
    LEBound(b[e + 8..e + 16]);
  }

  lemma AllChecked(b: seq<byte>, fileSize: nat, secs: seq<Section>, seen: set<nat>, prevEnd: nat)
    requires HeadOk(b) && HeadLen(Sections(b)) <= fileSize && HeadLen(Sections(b)) <= |b|
    requires Checked(b, fileSize, secs, seen, prevEnd) && |secs| == Sections(b)
    ensures secs == Entries(b, Sections(b)) && forall k :: k in seen <==> Has(secs, k)
    ensures Structured(b, fileSize) <==> prevEnd == fileSize
  {
    hide EntryAt, PlainEntry, LE, Has, Align32;
  }

  /** Reads the table; accepts exactly the heads that lay the file out with every
      needed section, and tells another build's format from a broken one. */
  method ParseTable(head: seq<byte>, fileSize: nat) returns (r: Result<Table>)
    requires fileSize <= MAX_U64
    ensures r.Ok? <==> Accepts(head, fileSize)
    ensures r.Incompatible? <==> Foreign(head, fileSize)
    ensures r.Ok? ==> r.value.sections == Entries(head, Sections(head)) && r.value.headEnd == HeadLen(Sections(head))
    ensures r.Ok? ==> r.value.digest == head[r.value.headEnd - DIGEST..r.value.headEnd]
  {
    hide EntryAt, PlainEntry, LE, HeadOk, HasMagic, Reads, Checked, Placed, DistinctKinds, Has, Align32, Entries;
    var hl := HeadLength(head);
    HeadFacts(head);
    if !hl.Ok? {
      return if hl.Incompatible? then Incompatible else Malformed;
    }
    if hl.value > fileSize || |head| < hl.value {
      return Malformed;
    }
    var n := LE(head[16..20]);
    var first := Align32(hl.value);
    var prevEnd := 0;
    var seen: set<nat> := {};
    var secs: seq<Section> := [];
    NothingChecked(head, fileSize);
    for i := 0 to n
      invariant |secs| == i && Checked(head, fileSize, secs, seen, prevEnd)
    {
      var e := HEADER + ENTRY * i;
      var s := EntryAt(head, e);
      EntryFields(head, e);
      if Structured(head, fileSize) {
        StructuredNext(head, fileSize, secs, seen, prevEnd);
      }
      if LE(head[e + 56..e + 64]) != 0 || s.flags > 1 || s.kind in seen || s.off % ALIGN != 0 {
        return Malformed;
      }
      if s.length > MAX_U64 - s.off || s.End() > fileSize {
        return Malformed;
      }
      if i == 0 {
        if s.off < first {
          return Malformed;
        }
      } else if s.off <= secs[i - 1].off || s.off < prevEnd {
        return Malformed;
      }
      CheckedPush(head, fileSize, secs, seen, prevEnd, s);
      prevEnd, seen, secs := s.End(), seen + {s.kind}, secs + [s];
    }
    AllChecked(head, fileSize, secs, seen, prevEnd);
    if prevEnd != fileSize {
      return Malformed;
    }
    for i := 0 to n
      invariant forall j | 0 <= j < i :: Known(EntryAt(head, HEADER + ENTRY * j))
    {
      if !(CONFIG <= secs[i].kind <= COMPANION) && secs[i].flags == 1 {
        assert !Known(EntryAt(head, HEADER + ENTRY * i));
        return Incompatible;
      }
    }
    if CONFIG !in seen || BUILD !in seen || RECORDS !in seen || IDS !in seen ||
       (NGRAM in seen) == (EXACT in seen) || (COMPANION in seen && NGRAM !in seen) {
      return Malformed;
    }
    return Ok(Table(LE(head[8..10]), LE(head[10..12]), secs, hl.value, head[hl.value - DIGEST..hl.value]));
  }
}
