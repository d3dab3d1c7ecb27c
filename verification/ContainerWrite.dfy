/** Laying out an artifact (engine/prepared/encode.go:236-249, engine/prepared/
    format.go:284-304): sections as early as their alignment allows, and a head
    that says where they are. */
module ContainerWrite {
  import opened Buffers
  import opened Bytes
  import opened ContainerFormat

  const MAX_INT := 0x7FFF_FFFF_FFFF_FFFF

  // ------------------------------------------------------------------- zero bytes

  ghost predicate ZeroFrom(s: seq<byte>, lo: nat, hi: nat) {
    forall p | lo <= p < hi && p < |s| :: s[p] == 0
  }

  lemma {:induction false} PutZero(w: nat)
    ensures forall j | 0 <= j < w :: PutLE(w, 0)[j] == 0
  {
    if w > 0 {
      PutZero(w - 1);
      assert PutLE(w, 0) == [0] + PutLE(w - 1, 0);
    }
  }

  lemma ZeroStands(s: seq<byte>, at: nat, w: nat)
    requires at + w <= |s| && ZeroFrom(s, at, at + w)
    ensures StandsAt(s, at, PutLE(w, 0))
  {
    hide PutLE;
    PutZero(w);
  }

  lemma PatchElsewhere(s: seq<byte>, at: nat, x: seq<byte>)
    requires at + |x| <= |s|
    ensures forall p | 0 <= p < |s| && (p < at || at + |x| <= p) :: Patch(s, at, x)[p] == s[p]
  {
  }

  /** Two copies side by side are one. */
  lemma PatchNext(s: seq<byte>, at: nat, x: seq<byte>, y: seq<byte>)
    requires at + |x| + |y| <= |s|
    ensures Patch(Patch(s, at, x), at + |x|, y) == Patch(s, at, x + y)
  {
    var a, b := Patch(Patch(s, at, x), at + |x|, y), Patch(s, at, x + y);
    forall p | 0 <= p < |s| ensures a[p] == b[p] {
    }
  }

  lemma SameStands(s: seq<byte>, t: seq<byte>, at: nat, x: seq<byte>)
    requires |s| == |t| && StandsAt(s, at, x) && forall p | at <= p < at + |x| && p < |s| :: t[p] == s[p]
    ensures StandsAt(t, at, x)
  {
    forall j | 0 <= j < |x| ensures t[at + j] == x[j] {
      assert s[at..at + |x|][j] == s[at + j];
    }
  }

  // ------------------------------------------------------------------- table entries

  function EntryBytes(s: Section): (b: seq<byte>)
    requires |s.sum| == DIGEST
    ensures |b| == ENTRY
  {
    PutLE(4, s.kind) + PutLE(4, s.flags) + PutLE(8, s.off) + PutLE(8, s.length) + s.sum + PutLE(8, 0)
  }

  predicate InRange(s: Section) {
    s.kind < 0x1_0000_0000 && s.flags <= 1 && s.off <= MAX_U64 && s.length <= MAX_U64 && |s.sum| == DIGEST
  }

  lemma WordStands(b: seq<byte>, at: nat, w: nat, v: nat)
    requires StandsAt(b, at, PutLE(w, v)) && v < Span(w)
    ensures LE(b[at..at + w]) == v
  {
    ReadAfterPut(w, v);
  }

  lemma EntryReads(b: seq<byte>, e: nat, s: Section)
    requires InRange(s) && StandsAt(b, e, EntryBytes(s))
    ensures e + ENTRY <= |b| && EntryAt(b, e) == s && PlainEntry(b, e)
  {
    hide PutLE, LE, StandsAt, Span;
    Span4();
    Span8();
    var k, f, o, l := PutLE(4, s.kind), PutLE(4, s.flags), PutLE(8, s.off), PutLE(8, s.length);
    EntryLength(b, e, s);
    StandsJoin(b, e, k + f + o + l + s.sum, PutLE(8, 0));
    StandsJoin(b, e, k + f + o + l, s.sum);
    StandsJoin(b, e, k + f + o, l);
    StandsJoin(b, e, k + f, o);
    StandsJoin(b, e, k, f);
    WordStands(b, e, 4, s.kind);
    WordStands(b, e + 4, 4, s.flags);
    WordStands(b, e + 8, 8, s.off);
    WordStands(b, e + 16, 8, s.length);
    WordStands(b, e + 56, 8, 0);
    Stood(b, e + 24, s.sum);
  }

  lemma EntryLength(b: seq<byte>, e: nat, s: Section)
    requires InRange(s) && StandsAt(b, e, EntryBytes(s))
    ensures e + ENTRY <= |b|
  {
  }

  lemma Stood(b: seq<byte>, at: nat, x: seq<byte>)
    requires StandsAt(b, at, x)
    ensures at + |x| <= |b| && b[at..at + |x|] == x
  {
  }

  method PutEntry(b: array<byte>, e: nat, s: Section)
    requires e + ENTRY <= b.Length && InRange(s) && ZeroFrom(b[..], e, e + ENTRY)
    modifies b
    ensures StandsAt(b[..], e, EntryBytes(s))
    ensures forall p | 0 <= p < b.Length && (p < e || e + ENTRY <= p) :: b[p] == old(b[p])
  {
    hide PutLE, StandsAt, Patch;
    ghost var z := b[..];
    Copy(b, e, PutLE(4, s.kind));
    Copy(b, e + 4, PutLE(4, s.flags));
    Copy(b, e + 8, PutLE(8, s.off));
    Copy(b, e + 16, PutLE(8, s.length));
    Copy(b, e + 24, s.sum);
    EntryCopied(z, e, s);
  }

  lemma EntryCopied(z: seq<byte>, e: nat, s: Section)
    requires e + ENTRY <= |z| && InRange(s) && ZeroFrom(z, e, e + ENTRY)
    ensures var t := Patch(Patch(Patch(Patch(Patch(z, e, PutLE(4, s.kind)), e + 4, PutLE(4, s.flags)),
                                       e + 8, PutLE(8, s.off)), e + 16, PutLE(8, s.length)), e + 24, s.sum);
            && StandsAt(t, e, EntryBytes(s))
            && forall p | 0 <= p < |z| && (p < e || e + ENTRY <= p) :: t[p] == z[p]
  {
    hide PutLE, StandsAt, Patch;
    var k, f, o, l := PutLE(4, s.kind), PutLE(4, s.flags), PutLE(8, s.off), PutLE(8, s.length);
    PatchNext(z, e, k, f);
    PatchNext(z, e, k + f, o);
    PatchNext(z, e, k + f + o, l);
    PatchNext(z, e, k + f + o + l, s.sum);
    var x := k + f + o + l + s.sum;
    PatchStands(z, e, x);
    PatchElsewhere(z, e, x);
    ZeroStands(Patch(z, e, x), e + 56, 8);
    StandsJoin(Patch(z, e, x), e, x, PutLE(8, 0));
  }

  // -------------------------------------------------------------------------- head

  /** Header, then the entries. */
  ghost predicate HeadHolds(b: seq<byte>, n: nat, secs: seq<Section>) {
    && |b| >= HEADER + ENTRY * |secs|
    && StandsAt(b, 0, MAGIC) && StandsAt(b, 8, PutLE(2, 1)) && StandsAt(b, 10, PutLE(2, 1))
    && StandsAt(b, 12, PutLE(4, 0)) && StandsAt(b, 16, PutLE(4, n)) && StandsAt(b, 20, PutLE(4, 0))
    && forall i | 0 <= i < |secs| :: |secs[i].sum| == DIGEST && StandsAt(b, HEADER + ENTRY * i, EntryBytes(secs[i]))
  }

  lemma HeadReads(b: seq<byte>, secs: seq<Section>)
    requires HeadHolds(b, |secs|, secs) && 0 < |secs| <= MAX_SECTIONS && forall i | 0 <= i < |secs| :: InRange(secs[i])
    ensures HeadOk(b) && Sections(b) == |secs| && Entries(b, |secs|) == secs
    ensures forall i | 0 <= i < |secs| :: PlainEntry(b, HEADER + ENTRY * i)
  {
    hide PutLE, LE, EntryBytes, StandsAt, EntryAt, PlainEntry, InRange, Span;
    Span4();
    Span2();
    Stood(b, 0, MAGIC);
    WordStands(b, 8, 2, 1);
    WordStands(b, 12, 4, 0);
    WordStands(b, 16, 4, |secs|);
    WordStands(b, 20, 4, 0);
    forall i | 0 <= i < |secs|
      ensures EntryAt(b, HEADER + ENTRY * i) == secs[i] && PlainEntry(b, HEADER + ENTRY * i)
    {
      EntryReads(b, HEADER + ENTRY * i, secs[i]);
    }
  }

  lemma Span2()
    ensures Span(2) == 0x1_0000
  {
    assert Span(1) == 256;
  }

  /** The header's writes into a zeroed buffer. */
  lemma HeaderCopied(z: seq<byte>, n: nat)
    requires |z| >= HEADER && ZeroFrom(z, 0, |z|)
    ensures var t := Patch(Patch(Patch(Patch(z, 0, MAGIC), 8, PutLE(2, 1)), 10, PutLE(2, 1)), 16, PutLE(4, n));
            && StandsAt(t, 0, MAGIC) && StandsAt(t, 8, PutLE(2, 1)) && StandsAt(t, 10, PutLE(2, 1))
            && StandsAt(t, 12, PutLE(4, 0)) && StandsAt(t, 16, PutLE(4, n)) && StandsAt(t, 20, PutLE(4, 0))
            && ZeroFrom(t, HEADER, |t|)
  {
    hide PutLE, StandsAt, Patch;
    var one, x := PutLE(2, 1), MAGIC + PutLE(2, 1) + PutLE(2, 1);
    PatchNext(z, 0, MAGIC, one);
    PatchNext(z, 0, MAGIC + one, one);
    var y := Patch(z, 0, x);
    PatchStands(z, 0, x);
    PatchElsewhere(z, 0, x);
    StandsJoin(y, 0, MAGIC + one, one);
    StandsJoin(y, 0, MAGIC, one);
    var t := Patch(y, 16, PutLE(4, n));
    PatchStands(y, 16, PutLE(4, n));
    PatchElsewhere(y, 16, PutLE(4, n));
    PatchKeeps(y, 16, PutLE(4, n), 0, MAGIC);
    PatchKeeps(y, 16, PutLE(4, n), 8, one);
    PatchKeeps(y, 16, PutLE(4, n), 10, one);
    ZeroStands(t, 12, 4);
    ZeroStands(t, 20, 4);
  }

  lemma HeadKept(s: seq<byte>, t: seq<byte>, n: nat, secs: seq<Section>)
    requires HeadHolds(s, n, secs) && |s| == |t| && forall p | 0 <= p < HEADER + ENTRY * |secs| :: t[p] == s[p]
    ensures HeadHolds(t, n, secs)
  {
    hide PutLE, StandsAt, EntryBytes;
    SameStands(s, t, 0, MAGIC);
    SameStands(s, t, 8, PutLE(2, 1));
    SameStands(s, t, 10, PutLE(2, 1));
    SameStands(s, t, 12, PutLE(4, 0));
    SameStands(s, t, 16, PutLE(4, n));
    SameStands(s, t, 20, PutLE(4, 0));
    forall i | 0 <= i < |secs| ensures StandsAt(t, HEADER + ENTRY * i, EntryBytes(secs[i])) {
      SameStands(s, t, HEADER + ENTRY * i, EntryBytes(secs[i]));
    }
  }

  /** A digest is 32 bytes. */
  ghost predicate Digests(hash: seq<byte> -> seq<byte>) {
    forall b :: |hash(b)| == DIGEST
  }

  /** Writes header, table and digest. */
  method EncodeHead(secs: seq<Section>, hash: seq<byte> -> seq<byte>) returns (head: seq<byte>)
    requires Digests(hash) && 0 < |secs| <= MAX_SECTIONS && forall i | 0 <= i < |secs| :: InRange(secs[i])
    ensures |head| == HeadLen(|secs|) && HeadHolds(head, |secs|, secs)
    ensures head[|head| - DIGEST..] == hash(head[..|head| - DIGEST])
  {
    hide PutLE, StandsAt, Patch, EntryBytes, InRange, HeadHolds;
    var n := |secs|;
    var hl := HeadLen(n);
    var b := new byte[hl](_ => 0);
    PutHeader(b, n);
    assert secs[..0] == [];
    for i := 0 to n
      invariant HeadHolds(b[..], n, secs[..i]) && ZeroFrom(b[..], HEADER + ENTRY * i, hl)
    {
      ghost var before := b[..];
      SumLength(secs[i]);
      PutEntry(b, HEADER + ENTRY * i, secs[i]);
      HeadKept(before, b[..], n, secs[..i]);
      HeadPush(b[..], n, secs[..i], secs[i]);
      assert secs[..i + 1] == secs[..i] + [secs[i]];
    }
    assert secs[..n] == secs;
    ghost var front := b[..];
    Seal(b, hash);
    HeadKept(front, b[..], n, secs);
    head := b[..];
  }

  /** Writes the fixed header over zeros. */
  method PutHeader(b: array<byte>, n: nat)
    requires b.Length >= HEADER && ZeroFrom(b[..], 0, b.Length)
    modifies b
    ensures HeadHolds(b[..], n, []) && ZeroFrom(b[..], HEADER, b.Length)
  {
    hide PutLE, StandsAt, Patch;
    HeaderCopied(b[..], n);
    Copy(b, 0, MAGIC);
    Copy(b, 8, PutLE(2, 1));
    Copy(b, 10, PutLE(2, 1));
    Copy(b, 16, PutLE(4, n));
  }

  /** The digest of all that comes before it goes last. */
  method Seal(b: array<byte>, hash: seq<byte> -> seq<byte>)
    requires Digests(hash) && b.Length >= DIGEST
    modifies b
    ensures b[..b.Length - DIGEST] == old(b[..b.Length - DIGEST])
    ensures b[b.Length - DIGEST..] == hash(b[..b.Length - DIGEST])
  {
    hide Patch, StandsAt;
    ghost var front := b[..];
    var at := b.Length - DIGEST;
    var sum := hash(b[..at]);
    Copy(b, at, sum);
    PatchElsewhere(front, at, sum);
    PatchStands(front, at, sum);
    Stood(b[..], at, sum);
    FrontSame(front, b[..], at);
  }

  lemma SumLength(s: Section)
    requires InRange(s)
    ensures |s.sum| == DIGEST
  {
  }

  lemma FrontSame(s: seq<byte>, t: seq<byte>, n: nat)
    requires |s| == |t| && n <= |s| && forall p | 0 <= p < n :: t[p] == s[p]
    ensures s[..n] == t[..n]
  {
  }

  lemma HeadPush(b: seq<byte>, n: nat, secs: seq<Section>, s: Section)
    requires HeadHolds(b, n, secs) && |s.sum| == DIGEST && StandsAt(b, HEADER + ENTRY * |secs|, EntryBytes(s))
    ensures HeadHolds(b, n, secs + [s])
  {
    hide PutLE, StandsAt;
    var all := secs + [s];
    EntryLen(b, HEADER + ENTRY * |secs|, EntryBytes(s));
    forall i | 0 <= i < |all| ensures |all[i].sum| == DIGEST && StandsAt(b, HEADER + ENTRY * i, EntryBytes(all[i])) {
      assert all[i] == if i < |secs| then secs[i] else s;
    }
  }

  lemma EntryLen(b: seq<byte>, e: nat, x: seq<byte>)
    requires StandsAt(b, e, x)
    ensures e + |x| <= |b|
  {
  }

  // ------------------------------------------------------------------------ layout

  datatype Body = Body(kind: nat, data: seq<byte>)

  /** Where n sections' data may start, and where the first few end. */
  function EndAfter(bodies: seq<Body>, n: nat): (e: nat)
    ensures e >= HeadLen(n)
  {
    if bodies == [] then HeadLen(n)
    else Align32(EndAfter(bodies[..|bodies| - 1], n)) + |bodies[|bodies| - 1].data|
  }

  lemma {:induction false} EndGrows(bodies: seq<Body>, n: nat, i: nat)
    requires i <= |bodies|
    ensures EndAfter(bodies[..i], n) <= EndAfter(bodies, n)
    decreases |bodies|
  {
    if i == |bodies| {
      assert bodies[..i] == bodies;
    } else {
      EndGrows(bodies[..|bodies| - 1], n, i);
      assert bodies[..|bodies| - 1][..i] == bodies[..i];
    }
  }

  lemma EndPush(bodies: seq<Body>, n: nat, i: nat)
    requires i < |bodies|
    ensures EndAfter(bodies[..i + 1], n) == Align32(EndAfter(bodies[..i], n)) + |bodies[i].data|
  {
    assert bodies[..i + 1][..i] == bodies[..i];
  }

  /** The sections of some bodies, each as early as its alignment allows. */
  ghost predicate LaidOut(secs: seq<Section>, bodies: seq<Body>, n: nat, hash: seq<byte> -> seq<byte>) {
    && |secs| == |bodies|
    && forall i | 0 <= i < |secs| ::
        secs[i] == Section(bodies[i].kind, 1, Align32(EndAfter(bodies[..i], n)), |bodies[i].data|, hash(bodies[i].data))
  }

  /** Assigns offsets; fails past the 64-bit range or a slice's length. */
  method LayOut(bodies: seq<Body>, hash: seq<byte> -> seq<byte>) returns (ok: bool, secs: seq<Section>)
    requires bodies != []
    ensures ok <==> EndAfter(bodies, |bodies|) <= MAX_INT
    ensures ok ==> |secs| == |bodies| && LaidOut(secs, bodies, |bodies|, hash)
  {
    hide Align32, EndAfter;
    var n := |bodies|;
    secs := [];
    ghost var end := HeadLen(n);
    NoBodies(n);
    var off := Align32(HeadLen(n));
    for i := 0 to n
      invariant |secs| == i && LaidOut(secs, bodies[..i], n, hash)
      invariant end == EndAfter(bodies[..i], n) && off == Align32(end)
      invariant i > 0 ==> secs[i - 1].End() == end
    {
      var s := Section(bodies[i].kind, 1, off, |bodies[i].data|, hash(bodies[i].data));
      EndPush(bodies, n, i);
      EndGrows(bodies, n, i + 1);
      LaidPush(secs, bodies, n, i, hash, s);
      secs := secs + [s];
      end := s.End();
      if s.End() > MAX_U64 - 31 {
        return false, secs;
      }
      off := Align32(s.End());
    }
    assert bodies[..n] == bodies;
    ok := secs[n - 1].End() <= MAX_INT;
  }

  lemma NoBodies(n: nat)
    ensures EndAfter([], n) == HeadLen(n)
  {
  }

  lemma LaidPush(secs: seq<Section>, bodies: seq<Body>, n: nat, i: nat, hash: seq<byte> -> seq<byte>, s: Section)
    requires i < |bodies| && LaidOut(secs, bodies[..i], n, hash)
    requires s == Section(bodies[i].kind, 1, Align32(EndAfter(bodies[..i], n)), |bodies[i].data|, hash(bodies[i].data))
    ensures LaidOut(secs + [s], bodies[..i + 1], n, hash)
  {
    hide Align32, EndAfter;
    var all := secs + [s];
    forall j | 0 <= j <= i
      ensures all[j] == Section(bodies[j].kind, 1, Align32(EndAfter(bodies[..i + 1][..j], n)),
                                |bodies[j].data|, hash(bodies[j].data))
    {
      assert bodies[..i + 1][..j] == bodies[..j];
      if j < i {
        assert bodies[..i][..j] == bodies[..j];
      }
    }
  }

  /** Sections come one after another; an empty one must be last. */
  lemma LayoutRises(secs: seq<Section>, bodies: seq<Body>, n: nat, hash: seq<byte> -> seq<byte>, i: nat, j: nat)
    requires LaidOut(secs, bodies, n, hash) && i < j < |bodies| && bodies[i].data != []
    ensures secs[i].End() <= secs[j].off && secs[i].off < secs[j].off
  {
    hide Align32, EndAfter;
    EndPush(bodies, n, i);
    EndGrows(bodies[..j], n, i + 1);
    assert bodies[..j][..i + 1] == bodies[..i + 1];
  }

  lemma LayoutBounds(secs: seq<Section>, bodies: seq<Body>, n: nat, hash: seq<byte> -> seq<byte>, i: nat)
    requires LaidOut(secs, bodies, n, hash) && i < |bodies|
    ensures Align32(HeadLen(n)) <= secs[i].off && secs[i].off % ALIGN == 0 && secs[i].End() <= EndAfter(bodies, n)
    ensures i == |bodies| - 1 ==> secs[i].End() == EndAfter(bodies, n)
  {
    hide Align32, EndAfter;
    EndPush(bodies, n, i);
    EndGrows(bodies, n, i + 1);
    AlignMonotone(HeadLen(n), EndAfter(bodies[..i], n));
    assert bodies[..|bodies|] == bodies;
  }

  /** A layout is placed: aligned, in order, disjoint and up to the end. */
  lemma LayoutIsPlaced(secs: seq<Section>, bodies: seq<Body>, n: nat, hash: seq<byte> -> seq<byte>)
    requires LaidOut(secs, bodies, n, hash) && bodies != [] && forall i | 0 <= i < |bodies| - 1 :: bodies[i].data != []
    ensures Placed(secs, Align32(HeadLen(n)), EndAfter(bodies, n))
  {
    hide Align32, EndAfter, LaidOut;
    LaidLength(secs, bodies, n, hash);
    forall i, j | 0 <= i < j < |secs| ensures secs[i].End() <= secs[j].off && secs[i].off < secs[j].off {
      LayoutRises(secs, bodies, n, hash, i, j);
    }
    forall i | 0 <= i < |secs|
      ensures Align32(HeadLen(n)) <= secs[i].off && secs[i].off % ALIGN == 0 && secs[i].End() <= EndAfter(bodies, n)
    {
      LayoutBounds(secs, bodies, n, hash, i);
    }
    LayoutBounds(secs, bodies, n, hash, |bodies| - 1);
  }

  lemma LaidLength(secs: seq<Section>, bodies: seq<Body>, n: nat, hash: seq<byte> -> seq<byte>)
    requires LaidOut(secs, bodies, n, hash)
    ensures |secs| == |bodies|
  {
  }

  lemma AlignMonotone(a: nat, b: nat)
    requires a <= b
    ensures Align32(a) <= Align32(b)
  {
  }
}
