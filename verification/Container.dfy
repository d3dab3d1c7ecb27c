/** Whole artifacts (engine/prepared/encode.go:217-264, engine/prepared/
    view.go:74-157): what Encode assembles passes every structural check, and
    each section is handed to its parser exactly as its encoder left it. */
module Container {
  import opened Buffers
  import opened Bytes
  import opened ContainerFormat
  import opened ContainerWrite

  /** The encoded sections; the companion only beside an ngram index. */
  datatype Contents = Contents(config: seq<byte>, build: seq<byte>, records: seq<byte>, ids: seq<byte>,
                               ngram: bool, index: seq<byte>, companion: seq<seq<byte>>)
  {
    /** No encoder writes an empty section. */
    predicate Proper() {
      && config != [] && build != [] && records != [] && ids != [] && index != []
      && |companion| <= 1 && (companion != [] ==> ngram)
    }

    function Bodies(): seq<Body> {
      [Body(CONFIG, config), Body(BUILD, build), Body(RECORDS, records), Body(IDS, ids),
       Body(if ngram then NGRAM else EXACT, index)] +
      (if companion == [] then [] else [Body(COMPANION, companion[0])])
    }
  }

  // -------------------------------------------------------------------------- gaps

  ghost predicate InSection(secs: seq<Section>, p: nat) {
    exists i | 0 <= i < |secs| :: secs[i].off <= p < secs[i].End()
  }

  /** Every byte is in the head, in a section, or zero. */
  ghost predicate GapsZero(b: seq<byte>, secs: seq<Section>, headEnd: nat) {
    forall p: nat | headEnd <= p < |b| :: InSection(secs, p) || b[p] == 0
  }

  ghost predicate GapsUpTo(b: seq<byte>, secs: seq<Section>, headEnd: nat, end: nat) {
    forall p: nat | headEnd <= p < |b| && p < end :: InSection(secs, p) || b[p] == 0
  }

  lemma BeforeLast(secs: seq<Section>, from: nat, fileSize: nat, i: nat, j: nat)
    requires Placed(secs, from, fileSize) && i < j < |secs|
    ensures secs[i].End() <= secs[j].off <= secs[j].End()
  {
  }

  /** A byte before a section and after the one before it is in none. */
  lemma BetweenIsGap(secs: seq<Section>, from: nat, fileSize: nat, i: nat, p: nat)
    requires Placed(secs, from, fileSize) && i < |secs|
    requires p < secs[i].off && (i > 0 ==> secs[i - 1].End() <= p)
    ensures !InSection(secs, p)
  {
    forall j: nat | j < |secs| ensures !(secs[j].off <= p < secs[j].End()) {
      if i > 0 && j < i - 1 {
        BeforeLast(secs, from, fileSize, j, i - 1);
      } else if j > i {
        BeforeLast(secs, from, fileSize, i, j);
      }
    }
  }

  method CheckGaps(b: seq<byte>, t: Table) returns (ok: bool)
    requires Placed(t.sections, Align32(t.headEnd), |b|)
    ensures ok <==> GapsZero(b, t.sections, t.headEnd)
  {
    hide Align32;
    var secs := t.sections;
    var prev := t.headEnd;
    for i := 0 to |secs|
      invariant t.headEnd <= prev <= |b| && GapsUpTo(b, secs, t.headEnd, prev)
      invariant prev == if i == 0 then t.headEnd else secs[i - 1].End()
    {
      PlacedBounds(secs, Align32(t.headEnd), |b|, i);
      AlignedUp(t.headEnd);
      for p := prev to secs[i].off
        invariant GapsUpTo(b, secs, t.headEnd, p)
      {
        if b[p] != 0 {
          BetweenIsGap(secs, Align32(t.headEnd), |b|, i, p);
          return false;
        }
      }
      forall p: nat | secs[i].off <= p < secs[i].End() ensures InSection(secs, p) {
      }
      prev := secs[i].End();
    }
    return true;
  }

  lemma AlignedUp(n: nat)
    ensures n <= Align32(n)
  {
  }

  lemma PlacedBounds(secs: seq<Section>, from: nat, fileSize: nat, i: nat)
    requires Placed(secs, from, fileSize) && i < |secs|
    ensures from <= secs[i].off <= secs[i].End() <= fileSize
    ensures i > 0 ==> secs[i - 1].End() <= secs[i].off
    ensures i == |secs| - 1 ==> secs[i].End() == fileSize
  {
  }

  // --------------------------------------------------------------------- assembling

  /** Each body copied to its section, so far. */
  ghost predicate Copied(b: seq<byte>, secs: seq<Section>, bodies: seq<Body>, i: nat)
    requires i <= |bodies|
  {
    forall j | 0 <= j < i && j < |secs| :: StandsAt(b, secs[j].off, bodies[j].data)
  }

  lemma CopyNext(b: seq<byte>, secs: seq<Section>, bodies: seq<Body>, headEnd: nat, i: nat)
    requires Placed(secs, Align32(headEnd), |b|) && |secs| == |bodies| && i < |secs| && headEnd <= |b|
    requires forall j | 0 <= j < |secs| :: secs[j].length == |bodies[j].data|
    requires Copied(b, secs, bodies, i) && GapsZero(b, secs, headEnd)
    ensures secs[i].off + |bodies[i].data| <= |b|
    ensures var t := Patch(b, secs[i].off, bodies[i].data);
            Copied(t, secs, bodies, i + 1) && GapsZero(t, secs, headEnd) && t[..headEnd] == b[..headEnd]
  {
    hide Patch, StandsAt, Align32;
    PlacedBounds(secs, Align32(headEnd), |b|, i);
    AlignedUp(headEnd);
    var x := bodies[i].data;
    var t := Patch(b, secs[i].off, x);
    PatchStands(b, secs[i].off, x);
    forall j | 0 <= j < i ensures StandsAt(t, secs[j].off, bodies[j].data) {
      PatchKeeps(b, secs[i].off, x, secs[j].off, bodies[j].data);
    }
    PatchElsewhere(b, secs[i].off, x);
    forall p: nat | headEnd <= p < |t| ensures InSection(secs, p) || t[p] == 0 {
      if secs[i].off <= p < secs[i].End() {
        assert InSection(secs, p);
      }
    }
    FrontSame(b, t, headEnd);
  }

  /** What a reader must find: an accepted table, zero gaps, and every section
      where the table says. */
  ghost predicate Holds(b: seq<byte>, bodies: seq<Body>, hash: seq<byte> -> seq<byte>) {
    var n := |bodies|;
    && |b| == EndAfter(bodies, n) && HeadLen(n) <= |b|
    && Accepts(b[..HeadLen(n)], |b|)
    && Sections(b[..HeadLen(n)]) == n
    && var secs := Entries(b[..HeadLen(n)], n);
    && LaidOut(secs, bodies, n, hash)
    && GapsZero(b, secs, HeadLen(n))
    && Copied(b, secs, bodies, n)
  }

  lemma BodiesFit(c: Contents)
    requires c.Proper()
    ensures var bodies := c.Bodies();
            && 5 <= |bodies| <= 6 && (forall i | 0 <= i < |bodies| - 1 :: bodies[i].data != [])
            && forall i | 0 <= i < |bodies| :: CONFIG <= bodies[i].kind <= COMPANION
  {
  }

  lemma LaidRanges(secs: seq<Section>, bodies: seq<Body>, n: nat, hash: seq<byte> -> seq<byte>)
    requires LaidOut(secs, bodies, n, hash) && Digests(hash) && n == |bodies| && EndAfter(bodies, n) <= MAX_INT
    requires forall i | 0 <= i < |bodies| :: CONFIG <= bodies[i].kind <= COMPANION
    ensures |secs| == |bodies|
    ensures forall i | 0 <= i < |secs| ::
              InRange(secs[i]) && secs[i].length == |bodies[i].data| &&
              secs[i].kind == bodies[i].kind && secs[i].flags == 1
  {
    hide Align32, EndAfter;
    forall i | 0 <= i < |secs| ensures secs[i].End() <= EndAfter(bodies, n) {
      LayoutBounds(secs, bodies, n, hash, i);
    }
  }

  lemma NothingCopied(z: seq<byte>, secs: seq<Section>, bodies: seq<Body>, head: seq<byte>)
    requires |head| <= |z| && ZeroFrom(z, 0, |z|)
    ensures var t := Patch(z, 0, head);
            Copied(t, secs, bodies, 0) && GapsZero(t, secs, |head|) && t[..|head|] == head
  {
    hide StandsAt, Patch;
    PatchElsewhere(z, 0, head);
    PatchStands(z, 0, head);
    Stood(Patch(z, 0, head), 0, head);
  }

  lemma KindsDistinct(c: Contents, secs: seq<Section>)
    requires c.Proper() && |secs| == |c.Bodies()|
    requires forall i | 0 <= i < |secs| :: secs[i].kind == c.Bodies()[i].kind && secs[i].flags == 1
    ensures DistinctKinds(secs) && Complete(secs) && forall i | 0 <= i < |secs| :: Known(secs[i])
  {
    hide Has;
    KindsAre(c, secs);
    HasKind(secs, 0);
    HasKind(secs, 1);
    HasKind(secs, 2);
    HasKind(secs, 3);
    HasKind(secs, 4);
    OneIndex(c, secs);
  }

  lemma KindsAre(c: Contents, secs: seq<Section>)
    requires c.Proper() && |secs| == |c.Bodies()|
    requires forall i | 0 <= i < |secs| :: secs[i].kind == c.Bodies()[i].kind
    ensures |secs| == 5 || (|secs| == 6 && c.ngram && secs[5].kind == COMPANION)
    ensures secs[0].kind == CONFIG && secs[1].kind == BUILD && secs[2].kind == RECORDS && secs[3].kind == IDS
    ensures secs[4].kind == if c.ngram then NGRAM else EXACT
  {
  }

  lemma OneIndex(c: Contents, secs: seq<Section>)
    requires |secs| == 5 || (|secs| == 6 && c.ngram && secs[5].kind == COMPANION)
    requires secs[0].kind == CONFIG && secs[1].kind == BUILD && secs[2].kind == RECORDS && secs[3].kind == IDS
    requires secs[4].kind == if c.ngram then NGRAM else EXACT
    ensures !Has(secs, if c.ngram then EXACT else NGRAM) && (!c.ngram ==> !Has(secs, COMPANION))
  {
  }

  /** Encode's head passes the table checks. */
  lemma HeadAccepted(head: seq<byte>, secs: seq<Section>, c: Contents, size: nat)
    requires c.Proper() && |secs| == |c.Bodies()| && |head| == HeadLen(|secs|) && HeadHolds(head, |secs|, secs)
    requires forall i | 0 <= i < |secs| :: InRange(secs[i]) && secs[i].kind == c.Bodies()[i].kind && secs[i].flags == 1
    requires Placed(secs, Align32(HeadLen(|secs|)), size)
    ensures Accepts(head, size) && Sections(head) == |secs| && Entries(head, |secs|) == secs
  {
    hide Align32, HeadHolds, InRange, HeadOk, PlainEntry, EntryAt, Known, DistinctKinds, Complete;
    BodiesFit(c);
    HeadReads(head, secs);
    KindsDistinct(c, secs);
    PlacedBounds(secs, Align32(HeadLen(|secs|)), size, 0);
    AlignedUp(HeadLen(|secs|));
    forall i | 0 <= i < |secs| ensures Known(EntryAt(head, HEADER + ENTRY * i)) {
      assert Entries(head, |secs|)[i] == EntryAt(head, HEADER + ENTRY * i);
    }
  }

  /** Assembles the artifact, or finds it too large. */
  method Assemble(c: Contents, hash: seq<byte> -> seq<byte>) returns (ok: bool, out: seq<byte>)
    requires c.Proper() && Digests(hash)
    ensures ok <==> EndAfter(c.Bodies(), |c.Bodies()|) <= MAX_INT
    ensures ok ==> Holds(out, c.Bodies(), hash)
  {
    hide Align32, EndAfter, LaidOut, HeadHolds, GapsZero, Copied, StandsAt, Patch, Placed, Accepts;
    out := [];
    var bodies := c.Bodies();
    var n := |bodies|;
    BodiesFit(c);
    var secs;
    ok, secs := LayOut(bodies, hash);
    if !ok {
      return;
    }
    var total := secs[n - 1].End();
    LaidRanges(secs, bodies, n, hash);
    LayoutIsPlaced(secs, bodies, n, hash);
    PlacedBounds(secs, Align32(HeadLen(n)), EndAfter(bodies, n), n - 1);
    AlignedUp(HeadLen(n));
    var buf := new byte[total](_ => 0);
    var head := EncodeHead(secs, hash);
    NothingCopied(buf[..], secs, bodies, head);
    Copy(buf, 0, head);
    for i := 0 to n
      invariant Copied(buf[..], secs, bodies, i) && GapsZero(buf[..], secs, HeadLen(n)) && buf[..HeadLen(n)] == head
    {
      CopyNext(buf[..], secs, bodies, HeadLen(n), i);
      Copy(buf, secs[i].off, bodies[i].data);
    }
    out := buf[..];
    HeadAccepted(head, secs, c, |out|);
  }

  // ------------------------------------------------------------------------ opening

  /** The head, once its length is known. */
  function HeadOf(b: seq<byte>): seq<byte>
    requires HeadOk(b) && HeadLen(Sections(b)) <= |b|
  {
    b[..HeadLen(Sections(b))]
  }

  ghost predicate Opens(b: seq<byte>) {
    && HeadOk(b) && HeadLen(Sections(b)) <= |b|
    && Accepts(HeadOf(b), |b|)
    && GapsZero(b, Entries(HeadOf(b), Sections(HeadOf(b))), HeadLen(Sections(HeadOf(b))))
  }

  /** The checks before any section is parsed. */
  method Open(b: seq<byte>) returns (r: Result<Table>)
    requires |b| <= MAX_INT
    ensures r.Ok? <==> Opens(b)
    ensures r.Ok? ==> r.value.sections == Entries(HeadOf(b), Sections(HeadOf(b)))
  {
    hide GapsZero, HeadOk, Entries, DistinctKinds, PlainEntry, Complete, Align32, LE, Placed;
    var hl := HeadLength(b);
    if !hl.Ok? {
      return if hl.Incompatible? then Incompatible else Malformed;
    }
    if hl.value > |b| {
      return Malformed;
    }
    r := ParseTable(b[..hl.value], |b|);
    if r.Ok? {
      var ok := CheckGaps(b, r.value);
      if !ok {
        return Malformed;
      }
    }
  }

  /** The bytes of the section of a kind. */
  method SectionBytes(b: seq<byte>, t: Table, kind: nat) returns (data: seq<byte>)
    requires Placed(t.sections, Align32(t.headEnd), |b|) && DistinctKinds(t.sections) && Has(t.sections, kind)
    ensures forall i | 0 <= i < |t.sections| && t.sections[i].kind == kind ::
              t.sections[i].End() <= |b| && data == b[t.sections[i].off..t.sections[i].End()]
  {
    for i := 0 to |t.sections|
      invariant forall j | 0 <= j < i :: t.sections[j].kind != kind
    {
      if t.sections[i].kind == kind {
        return b[t.sections[i].off..t.sections[i].End()];
      }
    }
    data := [];
  }

  lemma HeadFront(b: seq<byte>, n: nat)
    requires HeadLen(n) <= |b| && HeadOk(b[..HeadLen(n)]) && Sections(b[..HeadLen(n)]) == n
    ensures HeadOk(b) && Sections(b) == n
  {
    hide LE;
    var head := b[..HeadLen(n)];
    assert head[0..8] == b[0..8] && head[8..10] == b[8..10] && head[12..16] == b[12..16];
    assert head[16..20] == b[16..20] && head[20..24] == b[20..24];
  }

  /** The assembled artifact opens; its sections are disjoint, aligned and less
      than 32 bytes apart, and each one's bytes are what was encoded. */
  lemma AssembledOpens(c: Contents, hash: seq<byte> -> seq<byte>, b: seq<byte>, i: nat)
    requires c.Proper() && Holds(b, c.Bodies(), hash) && i < |c.Bodies()|
    ensures Opens(b)
    ensures var secs := Entries(HeadOf(b), Sections(HeadOf(b)));
            && |secs| == |c.Bodies()| && secs[i].kind == c.Bodies()[i].kind
            && secs[i].End() <= |b| && b[secs[i].off..secs[i].End()] == c.Bodies()[i].data
            && secs[i].sum == hash(c.Bodies()[i].data)
            && secs[i].off < 32 + if i == 0 then HeadLen(|secs|) else secs[i - 1].End()
  {
    hide GapsZero, HeadOk, Entries, DistinctKinds, PlainEntry, Complete, Align32, LE, Placed, EndAfter, StandsAt, Known;
    var bodies := c.Bodies();
    var n := |bodies|;
    HeadFront(b, n);
    var secs := Entries(HeadOf(b), n);
    AcceptedIsPlaced(HeadOf(b), |b|);
    PlacedBounds(secs, Align32(HeadLen(n)), |b|, i);
    Stood(b, secs[i].off, bodies[i].data);
    Close(bodies, n, i);
    assert bodies[..n] == bodies;
  }

  lemma AcceptedIsPlaced(head: seq<byte>, size: nat)
    requires Accepts(head, size)
    ensures Placed(Entries(head, Sections(head)), Align32(HeadLen(Sections(head))), size)
  {
  }

  lemma Close(bodies: seq<Body>, n: nat, i: nat)
    requires i < |bodies|
    ensures Align32(EndAfter(bodies[..i], n)) <
            32 + if i == 0 then HeadLen(n) else Align32(EndAfter(bodies[..i - 1], n)) + |bodies[i - 1].data|
  {
    if i > 0 {
      EndPush(bodies, n, i - 1);
    } else {
      assert bodies[..0] == [];
    }
  }

  /** Every byte of a file that opens has one place: in the head, in one section,
      or in a zero gap. */
  lemma OnePlace(b: seq<byte>, p: nat)
    requires Opens(b) && p < |b|
    ensures var (secs, hl) := (Entries(HeadOf(b), Sections(HeadOf(b))), HeadLen(Sections(HeadOf(b))));
            && (p < hl ==> !InSection(secs, p))
            && (p >= hl && !InSection(secs, p) ==> b[p] == 0)
            && forall i, j | 0 <= i < |secs| && 0 <= j < |secs| ::
                secs[i].off <= p < secs[i].End() && secs[j].off <= p < secs[j].End() ==> i == j
  {
    hide HeadOk, Entries, DistinctKinds, PlainEntry, Complete, Align32, LE;
    AcceptedIsPlaced(HeadOf(b), |b|);
    AlignedUp(HeadLen(Sections(HeadOf(b))));
  }
}
