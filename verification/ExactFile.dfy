/** The exact index's cache file (engine/artifact/exact.go): magic, header,
    arena, varint lengths, postings. Saving and loading give the index back, and
    the loader's plausibility checks never refuse a saved file. */
module ExactFile {
  import opened Buffers
  import opened Bytes
  import opened ExactIndex
  import opened ExactLayout
  import opened ExactCode
  import opened Packing
  import opened Options

  const MAGIC: seq<byte> := [75, 85, 82, 78, 69, 88, 65, 49]
  const MAX_LEN := 0x10_0000
  const MIN_KEY := 7

  // ------------------------------------------------------------------------ varints

  datatype Num = Num(v: nat, end: nat)

  /** encoding/binary's PutUvarint: seven bits a byte, low ones first. */
  function PutUvarint(v: nat): (b: seq<byte>)
    ensures |b| > 0
  {
    if v < 128 then [v] else [v % 128 + 128] + PutUvarint(v / 128)
  }

  /** ReadUvarint from byte i of the number on: at most ten bytes, 64 bits. */
  function ReadUvarint(b: seq<byte>, at: nat, i: nat): (r: Option<Num>)
    requires i <= 10
    ensures r.Some? ==> at < r.value.end <= |b|
    decreases 10 - i
  {
    if i == 10 || at >= |b| then None
    else if b[at] < 128 then
      if i == 9 && b[at] > 1 then None else Some(Num(b[at], at + 1))
    else
      var rest := ReadUvarint(b, at + 1, i + 1);
      if rest.None? then None else Some(Num(b[at] - 128 + 128 * rest.value.v, rest.value.end))
  }

  /** What is left of 64 bits after i bytes. */
  function Limit(i: nat): (l: nat)
    requires i <= 9
    ensures l > 0
    decreases 9 - i
  {
    if i == 9 then 2 else 128 * Limit(i + 1)
  }

  lemma {:induction false} UvarintReads(b: seq<byte>, at: nat, i: nat, v: nat)
    requires i <= 9 && v < Limit(i) && StandsAt(b, at, PutUvarint(v))
    ensures ReadUvarint(b, at, i) == Some(Num(v, at + |PutUvarint(v)|))
    decreases 9 - i
  {
    hide PutUvarint, ReadUvarint, StandsAt;
    PutStep(v);
    if v < 128 {
      ByteStands(b, at, v);
      ReadStep(b, at, i);
    } else {
      StandsJoin(b, at, [v % 128 + 128], PutUvarint(v / 128));
      ByteStands(b, at, v % 128 + 128);
      UvarintReads(b, at + 1, i + 1, v / 128);
      ReadStep(b, at, i);
    }
  }

  lemma PutStep(v: nat)
    ensures PutUvarint(v) == if v < 128 then [v] else [v % 128 + 128] + PutUvarint(v / 128)
  {
  }

  lemma ByteStands(b: seq<byte>, at: nat, c: byte)
    requires StandsAt(b, at, [c])
    ensures at < |b| && b[at] == c
  {
    assert b[at] == b[at..at + 1][0];
  }

  lemma ReadStep(b: seq<byte>, at: nat, i: nat)
    requires i <= 9 && at < |b|
    ensures b[at] < 128 && (i == 9 ==> b[at] <= 1) ==> ReadUvarint(b, at, i) == Some(Num(b[at], at + 1))
    ensures b[at] >= 128 && ReadUvarint(b, at + 1, i + 1).Some? ==>
              var rest := ReadUvarint(b, at + 1, i + 1).value;
              ReadUvarint(b, at, i) == Some(Num(b[at] - 128 + 128 * rest.v, rest.end))
  {
  }

  lemma SixtyFourBits()
    ensures Limit(0) == WORD64
  {
    assert Limit(5) == 0x2000_0000;
  }

  // ------------------------------------------------------------------------ the file

  datatype BuildInfo = BuildInfo(baseID: seq<byte>, entries: int, droppedKeys: int, keylessEntries: int)

  datatype Meta = Meta(keyCount: int, postingsLen: int, arenaLen: int, analyzer: seq<byte>, build: Option<BuildInfo>)

  /** The header's JSON codec: it round-trips, and nothing is written as no bytes. */
  ghost predicate Lawful(encode: Meta -> seq<byte>, decode: seq<byte> -> Option<Meta>) {
    forall m :: decode(encode(m)) == Some(m) && encode(m) != []
  }

  function LenBytes(key: nat, run: nat): seq<byte> {
    PutUvarint(key) + PutUvarint(run)
  }

  function AllLens(f: Flat, n: nat): seq<byte>
    requires n <= |f.keys| == |f.runs|
  {
    if n == 0 then [] else AllLens(f, n - 1) + LenBytes(|f.keys[n - 1]|, |f.runs[n - 1]|)
  }

  function MetaOf(f: Flat, analyzer: seq<byte>, build: BuildInfo): Meta {
    Meta(|f.keys|, |Postings(f)|, |Arena(f)|, analyzer, Some(build))
  }

  function FileOf(f: Flat, hdr: seq<byte>): seq<byte>
    requires |f.keys| == |f.runs|
  {
    MAGIC + PutUvarint(|hdr|) + hdr + Arena(f) + AllLens(f, |f.keys|) + U32s(Postings(f))
  }

  // -------------------------------------------------------------------------- saving

  method Totals(idx: Index, keys: seq<Key>) returns (arena: nat, postings: nat)
    requires idx.Valid()
    ensures arena == |Concat(keys)| && postings == |Concat<nat>(RunsFor(idx, keys))|
  {
    hide Index.Valid, Concat, Index.Lookup;
    ghost var runs := RunsFor(idx, keys);
    arena, postings := 0, 0;
    NothingPacked<byte>();
    NothingPacked<nat>();
    for i := 0 to |keys|
      invariant arena == |Concat(keys[..i])| && postings == |Concat<nat>(runs[..i])|
    {
      ConcatPush(keys, i);
      ConcatPush<nat>(runs, i);
      arena, postings := arena + |keys[i]|, postings + |idx.Lookup(keys[i])|;
    }
    assert keys[..|keys|] == keys && runs[..|keys|] == runs;
  }

  /** Key bytes back to back. */
  method WriteArena(keys: seq<Key>) returns (arena: seq<byte>)
    ensures arena == Concat(keys)
  {
    hide Concat;
    arena := [];
    NothingPacked<byte>();
    for i := 0 to |keys|
      invariant arena == Concat(keys[..i])
    {
      ConcatPush(keys, i);
      arena := arena + keys[i];
    }
    assert keys[..|keys|] == keys;
  }

  /** Each key's length and its run's. */
  method WriteLens(idx: Index, keys: seq<Key>, ghost f: Flat) returns (lens: seq<byte>)
    requires idx.Valid() && f == Flat(keys, RunsFor(idx, keys))
    ensures lens == AllLens(f, |keys|)
  {
    hide Index.Valid, PutUvarint, Index.Lookup, Rising;
    lens := [];
    for i := 0 to |keys|
      invariant lens == AllLens(f, i)
    {
      lens := lens + (PutUvarint(|keys[i]|) + PutUvarint(|idx.Lookup(keys[i])|));
    }
  }

  method WriteRun(posts: seq<byte>, run: seq<nat>, ghost was: seq<nat>) returns (b: seq<byte>)
    requires posts == U32s(was)
    ensures b == U32s(was + run)
  {
    hide U32s, PutLE;
    b := posts;
    assert was + run[..0] == was;
    for q := 0 to |run|
      invariant b == U32s(was + run[..q])
    {
      U32sPush(was + run[..q], run[q]);
      assert was + run[..q + 1] == was + run[..q] + [run[q]];
      b := b + PutLE(4, run[q]);
    }
    assert run[..|run|] == run;
  }

  /** The runs in key order. */
  method WritePostings(idx: Index, keys: seq<Key>) returns (posts: seq<byte>)
    requires idx.Valid()
    ensures posts == U32s(Concat<nat>(RunsFor(idx, keys)))
  {
    hide Index.Valid, Concat, U32s, Index.Lookup;
    ghost var runs := RunsFor(idx, keys);
    posts := [];
    NoU32s();
    NothingPacked<nat>();
    for i := 0 to |keys|
      invariant posts == U32s(Concat<nat>(runs[..i]))
    {
      posts := WriteRun(posts, idx.Lookup(keys[i]), Concat<nat>(runs[..i]));
      ConcatPush<nat>(runs, i);
    }
    assert runs[..|keys|] == runs;
  }

  /** The bytes SaveExact renames into place. */
  method SaveExact(idx: Index, analyzer: seq<byte>, build: BuildInfo, encode: Meta -> seq<byte>)
    returns (file: seq<byte>)
    requires idx.Valid()
    ensures file == FileOf(Listing(idx), encode(MetaOf(Listing(idx), analyzer, build)))
  {
    hide Index.Valid, Concat, U32s, PutUvarint, Rising, AllLens, Index.Lookup, Listing;
    var keys := SortedKeys(idx);
    ghost var f := Flat(keys, RunsFor(idx, keys));
    ListingUnique(idx, f, Listing(idx));
    var arenaLen, postLen := Totals(idx, keys);
    var hdr := encode(Meta(|keys|, postLen, arenaLen, analyzer, Some(build)));
    var arena := WriteArena(keys);
    var lens := WriteLens(idx, keys, f);
    var posts := WritePostings(idx, keys);
    file := MAGIC + PutUvarint(|hdr|) + hdr + arena + lens + posts;
  }

  lemma NoU32s()
    ensures U32s([]) == []
  {
  }

  // ------------------------------------------------------------------------- loading

  datatype Raw = Raw(meta: Meta, arena: seq<byte>, keyLens: seq<nat>, runLens: seq<nat>, postings: seq<nat>)

  datatype LensRead = LensRead(keyLens: seq<nat>, runLens: seq<nat>, end: nat)

  /** n pairs of lengths from at, none over the declared totals. */
  function ReadLens(b: seq<byte>, at: nat, n: nat, arenaLen: nat, postingsLen: nat): (r: Option<LensRead>)
    requires at <= |b|
    ensures r.Some? ==> at <= r.value.end <= |b| && |r.value.keyLens| == |r.value.runLens| == n
  {
    if n == 0 then Some(LensRead([], [], at))
    else
      var front := ReadLens(b, at, n - 1, arenaLen, postingsLen);
      if front.None? then None
      else
        var kl := ReadUvarint(b, front.value.end, 0);
        if kl.None? then None
        else
          var rl := ReadUvarint(b, kl.value.end, 0);
          if rl.None? || kl.value.v > arenaLen || rl.value.v > postingsLen then None
          else Some(LensRead(front.value.keyLens + [kl.value.v], front.value.runLens + [rl.value.v], rl.value.end))
  }

  /** The header's counts agree with each other and with the file's size. */
  predicate Plausible(m: Meta, size: nat) {
    && 0 <= m.keyCount <= m.postingsLen && m.keyCount <= m.arenaLen
    && m.keyCount <= size / MIN_KEY && m.arenaLen <= size && m.postingsLen <= size / 4
  }

  /** Where the header is, if its length is in range. */
  function ReadHeader(b: seq<byte>): (r: Option<Num>)
    ensures r.Some? ==> r.value.end + r.value.v <= |b| && r.value.v > 0
  {
    if |b| < 8 || b[..8] != MAGIC then None
    else
      var hl := ReadUvarint(b, 8, 0);
      if hl.None? || hl.value.v == 0 || hl.value.v > MAX_LEN || hl.value.end + hl.value.v > |b| then None else hl
  }

  /** The file taken apart, if every part is there and nothing follows. */
  function ReadFile(b: seq<byte>, decode: seq<byte> -> Option<Meta>): Option<Raw> {
    var h := ReadHeader(b);
    if h.None? then None
    else
      var at := h.value.end + h.value.v;
      var m := decode(b[h.value.end..at]);
      if m.None? || !Plausible(m.value, |b|) || at + m.value.arenaLen > |b| then None
      else
        var lensAt := at + m.value.arenaLen;
        var lens := ReadLens(b, lensAt, m.value.keyCount, m.value.arenaLen, m.value.postingsLen);
        if lens.None? || lens.value.end + 4 * m.value.postingsLen != |b| then None
        else Some(Raw(m.value, b[at..lensAt], lens.value.keyLens, lens.value.runLens,
                      Decode(b[lens.value.end..], m.value.postingsLen)))
  }

  /** BuildInfo.validate. */
  predicate ValidBuild(build: Option<BuildInfo>) {
    build.Some? ==>
      build.value.entries >= 0 && build.value.droppedKeys >= 0 && 0 <= build.value.keylessEntries <= build.value.entries
  }

  /** No entries for an index that has some means no information. */
  function KnownBuild(build: Option<BuildInfo>, numOrds: nat): Option<BuildInfo> {
    if build.Some? && build.value.entries == 0 && numOrds > 0 then None else build
  }

  datatype Loaded = Bad | Loaded(idx: Index, analyzer: seq<byte>, build: Option<BuildInfo>)

  /** What loading asks beyond the file's structure. */
  ghost predicate Usable(raw: Raw) {
    && Restorable(raw.arena, raw.keyLens, raw.runLens, raw.postings) && ValidBuild(raw.meta.build)
    && forall n: nat | NumOrdsOf(raw.postings, n) ::
         var build := KnownBuild(raw.meta.build, n);
         build.Some? ==> n <= build.value.entries
  }

  lemma OneNumOrds(postings: seq<nat>, m: nat, n: nat)
    requires NumOrdsOf(postings, m) && NumOrdsOf(postings, n)
    ensures m == n
  {
  }

  method ReadLengths(b: seq<byte>, at: nat, m: Meta) returns (r: Option<LensRead>)
    requires at <= |b| && m.keyCount >= 0 && m.arenaLen >= 0 && m.postingsLen >= 0
    ensures r == ReadLens(b, at, m.keyCount, m.arenaLen, m.postingsLen)
  {
    hide ReadUvarint;
    var keyLens: seq<nat>, runLens: seq<nat>, end: nat := [], [], at;
    for i := 0 to m.keyCount
      invariant end <= |b| && ReadLens(b, at, i, m.arenaLen, m.postingsLen) == Some(LensRead(keyLens, runLens, end))
    {
      NextMissing(b, at, i, m);
      var kl := ReadUvarint(b, end, 0);
      if kl.None? {
        return None;
      }
      var rl := ReadUvarint(b, kl.value.end, 0);
      if rl.None? || kl.value.v > m.arenaLen || rl.value.v > m.postingsLen {
        return None;
      }
      keyLens, runLens, end := keyLens + [kl.value.v], runLens + [rl.value.v], rl.value.end;
    }
    r := Some(LensRead(keyLens, runLens, end));
  }

  /** Once a pair is missing, the rest is. */
  lemma NextMissing(b: seq<byte>, at: nat, i: nat, m: Meta)
    requires at <= |b| && i < m.keyCount && m.arenaLen >= 0 && m.postingsLen >= 0
    ensures ReadLens(b, at, i + 1, m.arenaLen, m.postingsLen).None? ==>
              ReadLens(b, at, m.keyCount, m.arenaLen, m.postingsLen).None?
  {
    hide ReadUvarint;
    StaysMissing(b, at, i + 1, m.keyCount, m.arenaLen, m.postingsLen);
  }

  lemma {:induction false} StaysMissing(b: seq<byte>, at: nat, i: nat, n: nat, arenaLen: nat, postingsLen: nat)
    requires at <= |b| && i <= n
    ensures ReadLens(b, at, i, arenaLen, postingsLen).None? ==> ReadLens(b, at, n, arenaLen, postingsLen).None?
    decreases n
  {
    hide ReadUvarint;
    if i < n {
      StaysMissing(b, at, i, n - 1, arenaLen, postingsLen);
    }
  }

  /** Loads exactly the files that can be taken apart and restored. */
  method LoadExact(b: seq<byte>, decode: seq<byte> -> Option<Meta>) returns (r: Loaded)
    ensures r.Loaded? <==> ReadFile(b, decode).Some? && Usable(ReadFile(b, decode).value)
    ensures r.Loaded? ==>
              var raw := ReadFile(b, decode).value;
              && r.idx.Valid() && r.idx.arena == raw.arena && r.idx.postings == raw.postings
              && Mapped(r.idx.m, raw.arena, raw.keyLens, raw.runLens, |raw.keyLens|)
              && r.analyzer == raw.meta.analyzer && r.build == KnownBuild(raw.meta.build, r.idx.numOrds)
  {
    hide ReadUvarint, Restorable, Mapped, NumOrdsOf, MAGIC;
    var h := ReadHeader(b);
    if h.None? {
      return Bad;
    }
    var at := h.value.end + h.value.v;
    var d := decode(b[h.value.end..at]);
    if d.None? {
      return Bad;
    }
    var m := d.value;
    if m.keyCount < 0 || m.postingsLen < m.keyCount || m.arenaLen < m.keyCount {
      return Bad;
    }
    if m.keyCount > |b| / MIN_KEY || m.arenaLen > |b| || m.postingsLen > |b| / 4 || at + m.arenaLen > |b| {
      return Bad;
    }
    var lensAt := at + m.arenaLen;
    var lens := ReadLengths(b, lensAt, m);
    if lens.None? || lens.value.end + 4 * m.postingsLen > |b| {
      return Bad;
    }
    if lens.value.end + 4 * m.postingsLen < |b| {
      return Bad;
    }
    var raw := Raw(m, b[at..lensAt], lens.value.keyLens, lens.value.runLens,
                   Decode(b[lens.value.end..], m.postingsLen));
    var ok, idx := Restore(raw.arena, raw.keyLens, raw.runLens, raw.postings);
    if !ok || !ValidBuild(m.build) {
      return Bad;
    }
    CountsOrds(idx);
    forall n: nat | NumOrdsOf(raw.postings, n) ensures n == idx.numOrds {
      OneNumOrds(raw.postings, n, idx.numOrds);
    }
    var build := KnownBuild(m.build, idx.numOrds);
    if build.Some? && idx.numOrds > build.value.entries {
      return Bad;
    }
    r := Loaded.Loaded(idx, m.analyzer, build);
  }

  lemma CountsOrds(idx: Index)
    requires idx.Valid()
    ensures NumOrdsOf(idx.postings, idx.numOrds)
  {
  }

  // --------------------------------------------------------------------- round trip

  /** The lengths of f's first n keys and runs. */
  lemma {:induction false} LensComeBack(b: seq<byte>, at: nat, f: Flat, n: nat)
    requires n <= |f.keys| == |f.runs| && at <= |b| <= MAX_INT && StandsAt(b, at, AllLens(f, n))
    requires |Arena(f)| <= MAX_INT && |Postings(f)| <= MAX_INT
    ensures ReadLens(b, at, n, |Arena(f)|, |Postings(f)|) ==
            Some(LensRead(Lens(f.keys)[..n], Lens(f.runs)[..n], at + |AllLens(f, n)|))
  {
    hide ReadUvarint, PutUvarint, Arena, Postings, StandsAt, ReadLens, Lens;
    LensStart(b, at, |Arena(f)|, |Postings(f)|);
    if n > 0 {
      var kl, rl := |f.keys[n - 1]|, |f.runs[n - 1]|;
      StandsJoin(b, at, AllLens(f, n - 1), LenBytes(kl, rl));
      StandsJoin(b, at + |AllLens(f, n - 1)|, PutUvarint(kl), PutUvarint(rl));
      LensComeBack(b, at, f, n - 1);
      PartFits(f, n - 1);
      SixtyFourBits();
      UvarintReads(b, at + |AllLens(f, n - 1)|, 0, kl);
      UvarintReads(b, at + |AllLens(f, n - 1)| + |PutUvarint(kl)|, 0, rl);
      LensStep(b, at, n, |Arena(f)|, |Postings(f)|);
      PrefixPush(Lens(f.keys), n);
      PrefixPush(Lens(f.runs), n);
    }
  }

  lemma LensStart(b: seq<byte>, at: nat, arenaLen: nat, postingsLen: nat)
    requires at <= |b|
    ensures ReadLens(b, at, 0, arenaLen, postingsLen) == Some(LensRead([], [], at))
  {
  }

  /** One more pair of lengths. */
  lemma LensStep(b: seq<byte>, at: nat, n: nat, arenaLen: nat, postingsLen: nat)
    requires at <= |b| && n > 0 && ReadLens(b, at, n - 1, arenaLen, postingsLen).Some?
    ensures var front := ReadLens(b, at, n - 1, arenaLen, postingsLen).value;
            var kl := ReadUvarint(b, front.end, 0);
            kl.Some? ==>
              var rl := ReadUvarint(b, kl.value.end, 0);
              rl.Some? && kl.value.v <= arenaLen && rl.value.v <= postingsLen ==>
                ReadLens(b, at, n, arenaLen, postingsLen) ==
                Some(LensRead(front.keyLens + [kl.value.v], front.runLens + [rl.value.v], rl.value.end))
  {
    hide ReadUvarint;
  }

  lemma PrefixPush(s: seq<nat>, n: nat)
    requires 0 < n <= |s|
    ensures s[..n] == s[..n - 1] + [s[n - 1]]
  {
  }

  lemma PartFits(f: Flat, i: nat)
    requires i < |f.keys| == |f.runs|
    ensures |f.keys[i]| <= |Arena(f)| && |f.runs[i]| <= |Postings(f)|
  {
    hide Concat, Lens;
    PartAt(f.keys, i);
    PartAt<nat>(f.runs, i);
  }

  /** A key is at least a byte, two lengths and a posting. */
  lemma {:induction false} FileIsLong(f: Flat, n: nat)
    requires n <= |f.keys| == |f.runs| && forall i | 0 <= i < |f.keys| :: |f.keys[i]| >= 1 && |f.runs[i]| >= 1
    ensures |AllLens(f, n)| >= 2 * n
    ensures |Concat(f.keys[..n])| >= n && |Concat<nat>(f.runs[..n])| >= n
  {
    hide PutUvarint, Concat;
    if n > 0 {
      FileIsLong(f, n - 1);
      ConcatPush(f.keys, n - 1);
      ConcatPush<nat>(f.runs, n - 1);
    } else {
      NothingPacked<byte>();
      NothingPacked<nat>();
    }
  }

  /** Keys and runs as an index holds them. */
  ghost predicate Plain(f: Flat) {
    && |f.keys| == |f.runs|
    && (forall i | 0 <= i < |f.keys| :: |f.keys[i]| >= 1 && |f.runs[i]| >= 1)
    && forall p | 0 <= p < |Postings(f)| :: Postings(f)[p] <= MAX_U32
  }

  lemma PlainCounts(f: Flat)
    requires Plain(f)
    ensures |f.keys| <= |Postings(f)| && |f.keys| <= |Arena(f)| && |AllLens(f, |f.keys|)| >= 2 * |f.keys|
  {
    FileIsLong(f, |f.keys|);
    assert f.keys[..|f.keys|] == f.keys && f.runs[..|f.keys|] == f.runs;
  }

  /** Where the parts of a saved file lie. */
  lemma FileStands(f: Flat, hdr: seq<byte>)
    requires |f.keys| == |f.runs|
    ensures var (b, x, y) := (FileOf(f, hdr), 8 + |PutUvarint(|hdr|)|, |AllLens(f, |f.keys|)|);
            && |b| == x + |hdr| + |Arena(f)| + y + 4 * |Postings(f)|
            && StandsAt(b, 0, MAGIC) && StandsAt(b, 8, PutUvarint(|hdr|)) && StandsAt(b, x, hdr)
            && StandsAt(b, x + |hdr|, Arena(f)) && StandsAt(b, x + |hdr| + |Arena(f)|, AllLens(f, |f.keys|))
            && StandsAt(b, x + |hdr| + |Arena(f)| + y, U32s(Postings(f)))
  {
    hide PutUvarint, Arena, Postings, StandsAt, U32s, AllLens;
    var b, u, ls, us := FileOf(f, hdr), PutUvarint(|hdr|), AllLens(f, |f.keys|), U32s(Postings(f));
    WholeStands(b);
    StandsJoin(b, 0, MAGIC + u + hdr + Arena(f) + ls, us);
    StandsJoin(b, 0, MAGIC + u + hdr + Arena(f), ls);
    StandsJoin(b, 0, MAGIC + u + hdr, Arena(f));
    StandsJoin(b, 0, MAGIC + u, hdr);
    StandsJoin(b, 0, MAGIC, u);
  }

  lemma WholeStands(b: seq<byte>)
    ensures StandsAt(b, 0, b)
  {
  }

  lemma HeaderReads(f: Flat, hdr: seq<byte>)
    requires |f.keys| == |f.runs| && |FileOf(f, hdr)| <= MAX_INT && hdr != []
    ensures ReadHeader(FileOf(f, hdr)) ==
            if |hdr| <= MAX_LEN then Some(Num(|hdr|, 8 + |PutUvarint(|hdr|)|)) else None
  {
    hide PutUvarint, Arena, Postings, U32s, AllLens, FileOf, ReadUvarint;
    FileStands(f, hdr);
    SixtyFourBits();
    UvarintReads(FileOf(f, hdr), 8, 0, |hdr|);
  }

  /** A saved file is taken apart into what was saved, unless its header is over
      the loader's bound; the plausibility checks never refuse it. */
  lemma SavedReads(f: Flat, hdr: seq<byte>, m: Meta, decode: seq<byte> -> Option<Meta>)
    requires Plain(f) && |FileOf(f, hdr)| <= MAX_INT && hdr != [] && decode(hdr) == Some(m)
    requires m.keyCount == |f.keys| && m.postingsLen == |Postings(f)| && m.arenaLen == |Arena(f)|
    ensures ReadFile(FileOf(f, hdr), decode) ==
            if |hdr| <= MAX_LEN then Some(Raw(m, Arena(f), Lens(f.keys), Lens(f.runs), Postings(f))) else None
  {
    hide PutUvarint, Arena, Postings, U32s, AllLens, FileOf, ReadUvarint, ReadHeader, ReadLens, Decode, Lens;
    var b := FileOf(f, hdr);
    FileStands(f, hdr);
    HeaderReads(f, hdr);
    if |hdr| <= MAX_LEN {
      PlainCounts(f);
      var at := 8 + |PutUvarint(|hdr|)| + |hdr|;
      LensComeBack(b, at + |Arena(f)|, f, |f.keys|);
      DecodeEncoded(Postings(f));
      var end := at + |Arena(f)| + |AllLens(f, |f.keys|)|;
      StandsLast(b, end, U32s(Postings(f)));
      WholePrefix(Lens(f.keys));
      WholePrefix(Lens(f.runs));
    }
  }

  lemma StandsLast(b: seq<byte>, at: nat, x: seq<byte>)
    requires StandsAt(b, at, x) && |b| == at + |x|
    ensures b[at..] == x
  {
  }

  lemma WholePrefix(s: seq<nat>)
    ensures s[..|s|] == s
  {
  }

  /** No run starts past what a locator can hold. */
  ghost predicate OffsetsFit(f: Flat) {
    forall i | 0 <= i < |f.runs| :: At(Lens(f.runs), i) <= MAX_OFF
  }

  lemma LookupBelow(idx: Index, k: Key, q: nat)
    requires idx.Valid() && q < |idx.Lookup(k)|
    ensures idx.Lookup(k)[q] < idx.numOrds
  {
    hide Off, Len;
  }

  /** Every posting is looked up by some key. */
  lemma PostingHasKey(idx: Index, p: nat) returns (k: Key)
    requires idx.Valid() && p < |idx.postings|
    ensures k in idx.m && idx.postings[p] in idx.Lookup(k)
  {
    hide Off, Len;
    assert idx.Covered(p);
    k :| k in idx.m && Covers(idx.m[k], p);
    assert idx.Lookup(k)[p - Off(idx.m[k])] == idx.postings[p];
  }

  lemma ListedMax(idx: Index, f: Flat)
    requires idx.Valid() && Lists(f, idx) && idx.numOrds > 0
    ensures idx.numOrds - 1 in Postings(f)
  {
    hide Postings, Rising, Index.Lookup, Index.Covered;
    CountsOrds(idx);
    var p: nat :| p < |idx.postings| && idx.postings[p] == idx.numOrds - 1;
    var k := PostingHasKey(idx, p);
    var i: nat :| i < |f.keys| && f.keys[i] == k;
    assert f.runs[i] == idx.Lookup(f.keys[i]);
    var q: nat :| q < |f.runs[i]| && f.runs[i][q] == idx.numOrds - 1;
    RunInPostings(f, i, q);
  }

  /** A listed index's postings are its runs'. */
  lemma ListedOrds(idx: Index, f: Flat)
    requires idx.Valid() && Lists(f, idx)
    ensures NumOrdsOf(Postings(f), idx.numOrds)
  {
    hide Postings, Rising, Index.Valid, Index.Lookup;
    forall p: nat | p < |Postings(f)| ensures Postings(f)[p] < idx.numOrds {
      var i, q := PostingInRun(f, p);
      LookupBelow(idx, f.keys[i], q);
    }
    if idx.numOrds > 0 {
      ListedMax(idx, f);
    }
  }

  lemma RunInPostings(f: Flat, i: nat, q: nat)
    requires i < |f.runs| && q < |f.runs[i]|
    ensures f.runs[i][q] in Postings(f)
  {
    hide Concat, Lens, At;
    PartAt<nat>(f.runs, i);
    var at := At(Lens<nat>(f.runs), i);
    assert Postings(f)[at..at + |f.runs[i]|][q] == Postings(f)[at + q];
  }

  lemma ListedPlain(idx: Index, f: Flat)
    requires idx.Valid() && Lists(f, idx) && idx.numOrds <= MAX_U32
    ensures Plain(f) && (forall p | 0 <= p < |Postings(f)| :: Postings(f)[p] < MAX_U32)
    ensures forall i | 0 <= i < |f.runs| :: |f.runs[i]| <= MAX_RUN
  {
    hide Postings, Rising, NumOrdsOf, Off;
    ListedOrds(idx, f);
    OrdsUnder(Postings(f), idx.numOrds);
    forall i | 0 <= i < |f.keys| ensures |f.keys[i]| >= 1 && 1 <= |f.runs[i]| <= MAX_RUN {
      assert f.keys[i] in f.keys;
    }
  }

  lemma OrdsUnder(postings: seq<nat>, n: nat)
    requires NumOrdsOf(postings, n)
    ensures forall p | 0 <= p < |postings| :: postings[p] < n
  {
  }

  lemma ListedRestores(idx: Index, f: Flat)
    requires idx.Valid() && Lists(f, idx) && idx.numOrds <= MAX_U32
    ensures Restorable(Arena(f), Lens(f.keys), Lens(f.runs), Postings(f)) <==> OffsetsFit(f)
  {
    hide Index.Valid, Index.Lookup, At, Sum, Concat, KeyAt;
    ListedPlain(idx, f);
    ConcatLength(f.keys);
    ConcatLength<nat>(f.runs);
    forall i | 0 <= i < |f.keys| ensures KeyAt(Arena(f), Lens(f.keys), i) == f.keys[i] {
      FlatKey(f, i);
    }
    forall i, j | 0 <= i < j < |f.keys| ensures f.keys[i] != f.keys[j] {
      LessIrreflexive(f.keys[i]);
    }
  }

  /** What the caller of SaveExact passes must be a record some build makes, over
      at least as many entries as the index has ordinals (or none: unknown). */
  predicate BuildFits(build: BuildInfo, numOrds: nat) {
    && ValidBuild(Some(build)) && (build.entries == 0 || numOrds <= build.entries)
  }

  /** Saving then loading: refused only for an oversized header, a build record
      no build makes, or postings past the locator; otherwise what is loaded
      answers every lookup as the saved index did. */
  lemma SavedLoads(idx: Index, f: Flat, analyzer: seq<byte>, build: BuildInfo,
                   encode: Meta -> seq<byte>, decode: seq<byte> -> Option<Meta>)
    requires idx.Valid() && Lists(f, idx) && idx.numOrds <= MAX_U32 && Lawful(encode, decode)
    requires |FileOf(f, encode(MetaOf(f, analyzer, build)))| <= MAX_INT
    ensures var hdr := encode(MetaOf(f, analyzer, build));
            var read := ReadFile(FileOf(f, hdr), decode);
            && (read.Some? && Usable(read.value) <==>
                |hdr| <= MAX_LEN && BuildFits(build, idx.numOrds) && OffsetsFit(f))
            && (read.Some? ==>
                read.value == Raw(MetaOf(f, analyzer, build), Arena(f), Lens(f.keys), Lens(f.runs), Postings(f)))
  {
    hide Index.Valid, FileOf, ReadFile, Arena, Postings, Lens, OffsetsFit, Restorable, NumOrdsOf, Lists;
    var m := MetaOf(f, analyzer, build);
    ListedPlain(idx, f);
    SavedReads(f, encode(m), m, decode);
    ListedRestores(idx, f);
    ListedOrds(idx, f);
    forall n: nat | NumOrdsOf(Postings(f), n) ensures n == idx.numOrds {
      OneNumOrds(Postings(f), n, idx.numOrds);
    }
  }

  /** And the loaded index is the saved one again. */
  lemma LoadedLists(idx: Index, f: Flat, loaded: Index, k: Key)
    requires idx.Valid() && Lists(f, idx) && idx.numOrds <= MAX_U32
    requires loaded.Valid() && loaded.postings == Postings(f)
    requires Mapped(loaded.m, Arena(f), Lens(f.keys), Lens(f.runs), |f.keys|)
    ensures Lists(f, loaded) && loaded.numOrds == idx.numOrds && loaded.Lookup(k) == idx.Lookup(k)
  {
    hide Index.Valid, At, Lens, Concat, KeyAt, Mapped, Index.Lookup, Rising, NumOrdsOf;
    forall i | 0 <= i < |f.keys| ensures f.keys[i] in loaded.m && f.runs[i] == loaded.Lookup(f.keys[i]) {
      LoadedRun(f, loaded, i);
    }
    forall l ensures l in f.keys <==> l in loaded.m {
      if l in loaded.m {
        MappedKey(loaded.m, Arena(f), Lens(f.keys), Lens(f.runs), |f.keys|, l);
        var i: nat :| i < |f.keys| && KeyAt(Arena(f), Lens(f.keys), i) == l;
        FlatKey(f, i);
      }
    }
    SameLookups(f, idx, loaded, k);
    ListedOrds(idx, f);
    CountsOrds(loaded);
    OneNumOrds(Postings(f), idx.numOrds, loaded.numOrds);
  }

  lemma LoadedRun(f: Flat, loaded: Index, i: nat)
    requires i < |f.keys| == |f.runs| && loaded.Valid() && loaded.postings == Postings(f)
    requires Mapped(loaded.m, Arena(f), Lens(f.keys), Lens(f.runs), |f.keys|)
    ensures f.keys[i] in loaded.m && f.runs[i] == loaded.Lookup(f.keys[i])
  {
    hide Index.Valid, At, Concat, KeyAt, Mapped, Off, Len;
    FlatKey(f, i);
    RunOf(loaded.m, Arena(f), Lens(f.keys), Lens(f.runs), i);
    PartAt<nat>(f.runs, i);
  }
}
