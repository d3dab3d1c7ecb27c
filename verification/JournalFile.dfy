/** The journal file (engine/store.go:478-493, 1498-1561, 1598-1674): records
    one to a line, a reader that keeps what is intact and says where the file
    stops being so, and bounded line reading from chunks of any size. */
module JournalFile {
  import opened Bytes
  import opened ListModel
  import opened Options

  const LF: byte := 10
  const MAX_LINE := 1048576

  /** The JSON line codec: it round-trips and never emits a newline. */
  datatype LineCodec = LineCodec(encode: Rec -> seq<byte>, decode: seq<byte> -> Option<Rec>)

  ghost predicate Lawful(c: LineCodec) {
    forall r :: c.encode(r) != [] && LF !in c.encode(r) && c.decode(c.encode(r)) == Some(r)
  }

  ghost predicate Fits(c: LineCodec, r: Rec) {
    |c.encode(r)| + 1 <= MAX_LINE
  }

  ghost predicate AllFit(c: LineCodec, recs: seq<Rec>) {
    forall i | 0 <= i < |recs| :: Fits(c, recs[i])
  }

  function Lines(c: LineCodec, recs: seq<Rec>): seq<byte> {
    if recs == [] then [] else c.encode(recs[0]) + [LF] + Lines(c, recs[1..])
  }

  lemma {:induction false} LinesJoin(c: LineCodec, a: seq<Rec>, b: seq<Rec>)
    ensures Lines(c, a + b) == Lines(c, a) + Lines(c, b)
    decreases |a|
  {
    if a == [] {
      assert a + b == b;
    } else {
      assert (a + b)[1..] == a[1..] + b;
      LinesJoin(c, a[1..], b);
    }
  }

  // ------------------------------------------------------------------ the reading

  /** The position of the first newline, or the length. */
  function LineEnd(b: seq<byte>): (e: nat)
    ensures e <= |b|
    ensures e < |b| ==> b[e] == LF
    ensures forall i | 0 <= i < e :: b[i] != LF
  {
    if b == [] || b[0] == LF then 0 else 1 + LineEnd(b[1..])
  }

  /** The records read, and where the file is torn, if it is. */
  datatype Reading = Reading(recs: seq<Rec>, torn: Option<nat>)

  function Then(first: seq<Rec>, n: nat, rest: Reading): Reading {
    Reading(first + rest.recs, if rest.torn.None? then None else Some(n + rest.torn.value))
  }

  function Read(c: LineCodec, b: seq<byte>): Reading {
    var e := LineEnd(b);
    if b == [] then Reading([], None)
    else if e == |b| || e + 1 > MAX_LINE then Reading([], Some(0))
    else if e == 0 then Then([], 1, Read(c, b[1..]))
    else if c.decode(b[..e]).None? then Reading([], Some(0))
    else Then([c.decode(b[..e]).value], e + 1, Read(c, b[e + 1..]))
  }

  lemma LineEndIs(b: seq<byte>, e: nat)
    requires e < |b| && b[e] == LF && LF !in b[..e]
    ensures LineEnd(b) == e
  {
    assert forall i | 0 <= i < e :: b[i] in b[..e];
  }

  lemma LineEndAppend(a: seq<byte>, x: seq<byte>)
    requires LineEnd(a) < |a|
    ensures LineEnd(a + x) == LineEnd(a)
  {
    var e := LineEnd(a);
    assert (a + x)[..e] == a[..e];
    LineEndIs(a + x, e);
  }

  /** The first line is whole, within bounds, and blank or a record. */
  predicate GoodLine(c: LineCodec, b: seq<byte>) {
    var e := LineEnd(b);
    e < |b| && e + 1 <= MAX_LINE && (e == 0 || c.decode(b[..e]).Some?)
  }

  function FirstRecs(c: LineCodec, b: seq<byte>): seq<Rec>
    requires GoodLine(c, b)
  {
    var e := LineEnd(b);
    if e == 0 then [] else [c.decode(b[..e]).value]
  }

  lemma ReadStep(c: LineCodec, b: seq<byte>)
    ensures b == [] ==> Read(c, b) == Reading([], None)
    ensures b != [] && !GoodLine(c, b) ==> Read(c, b) == Reading([], Some(0))
    ensures GoodLine(c, b) ==> LineEnd(b) < |b|
    ensures GoodLine(c, b) ==>
              Read(c, b) == Then(FirstRecs(c, b), LineEnd(b) + 1, Read(c, b[LineEnd(b) + 1..]))
  {
  }

  lemma GoodLineAppend(c: LineCodec, a: seq<byte>, x: seq<byte>)
    requires GoodLine(c, a)
    ensures GoodLine(c, a + x) && LineEnd(a + x) == LineEnd(a) && FirstRecs(c, a + x) == FirstRecs(c, a)
    ensures (a + x)[LineEnd(a) + 1..] == a[LineEnd(a) + 1..] + x
  {
    LineEndAppend(a, x);
    assert (a + x)[..LineEnd(a)] == a[..LineEnd(a)];
  }

  /** After an intact file, what follows is read as if it stood alone. */
  lemma {:induction false} ReadAppend(c: LineCodec, a: seq<byte>, x: seq<byte>)
    requires Read(c, a).torn.None?
    ensures Read(c, a + x) == Then(Read(c, a).recs, |a|, Read(c, x))
    decreases |a|
  {
    hide Read, GoodLine, FirstRecs;
    ReadStep(c, a);
    if a == [] {
      assert a + x == x;
      ThenNothing(Read(c, x));
    } else {
      var rest := a[LineEnd(a) + 1..];
      GoodLineAppend(c, a, x);
      ReadStep(c, a + x);
      ReadAppend(c, rest, x);
      ThenThen(FirstRecs(c, a), LineEnd(a) + 1, Read(c, rest).recs, |rest|, Read(c, x));
    }
  }

  lemma ThenNothing(r: Reading)
    ensures Then([], 0, r) == r
  {
  }

  lemma ThenThen(f: seq<Rec>, n: nat, g: seq<Rec>, m: nat, r: Reading)
    ensures Then(f, n, Then(g, m, r)) == Then(f + g, n + m, r)
  {
    assert f + (g + r.recs) == (f + g) + r.recs;
  }

  /** Cutting a torn file where it is torn leaves the same records, intact. */
  lemma {:induction false} TornRepair(c: LineCodec, b: seq<byte>)
    requires Read(c, b).torn.Some?
    ensures Read(c, b).torn.value <= |b|
    ensures Read(c, b[..Read(c, b).torn.value]) == Reading(Read(c, b).recs, None)
    decreases |b|
  {
    hide Read, GoodLine, FirstRecs;
    ReadStep(c, b);
    if GoodLine(c, b) {
      var n := LineEnd(b) + 1;
      TornRepair(c, b[n..]);
      var y := b[n..][..Read(c, b[n..]).torn.value];
      assert b[..n + |y|] == b[..n] + y;
      OneLine(c, b);
      ReadAppend(c, b[..n], y);
    } else {
      assert b[..0] == [];
      ReadStep(c, []);
    }
  }

  lemma OneLine(c: LineCodec, b: seq<byte>)
    requires GoodLine(c, b)
    ensures LineEnd(b) < |b| && Read(c, b[..LineEnd(b) + 1]) == Reading(FirstRecs(c, b), None)
  {
    var e := LineEnd(b);
    var l := b[..e + 1];
    assert l[..e] == b[..e] && l[e + 1..] == [];
    LineEndIs(l, e);
    ReadStep(c, l);
    ReadStep(c, []);
  }

  // -------------------------------------------------------------------- appending

  lemma LineReads(c: LineCodec, r: Rec, x: seq<byte>)
    requires Lawful(c) && Fits(c, r)
    ensures Read(c, c.encode(r) + [LF] + x) == Then([r], |c.encode(r)| + 1, Read(c, x))
  {
    var l := c.encode(r) + [LF] + x;
    var e := |c.encode(r)|;
    assert l[..e] == c.encode(r) && l[e + 1..] == x;
    LineEndIs(l, e);
  }

  lemma {:induction false} LinesRead(c: LineCodec, recs: seq<Rec>)
    requires Lawful(c) && AllFit(c, recs)
    ensures Read(c, Lines(c, recs)) == Reading(recs, None)
  {
    if recs != [] {
      LinesRead(c, recs[1..]);
      LineReads(c, recs[0], Lines(c, recs[1..]));
      assert [recs[0]] + recs[1..] == recs;
    }
  }

  /** A later append decodes as the old records, then the new ones. */
  lemma AppendReads(c: LineCodec, b: seq<byte>, recs: seq<Rec>)
    requires Lawful(c) && AllFit(c, recs) && Read(c, b).torn.None?
    ensures Read(c, b + Lines(c, recs)) == Reading(Read(c, b).recs + recs, None)
  {
    ReadAppend(c, b, Lines(c, recs));
    LinesRead(c, recs);
  }

  /** How many whole lines the first k bytes hold. */
  function Whole(c: LineCodec, recs: seq<Rec>, k: nat): (j: nat)
    ensures j <= |recs|
  {
    if recs == [] || k < |c.encode(recs[0])| + 1 then 0
    else 1 + Whole(c, recs[1..], k - |c.encode(recs[0])| - 1)
  }

  lemma Unterminated(c: LineCodec, x: seq<byte>)
    requires LF !in x
    ensures Read(c, x) == Reading([], if x == [] then None else Some(0))
  {
    assert forall i | 0 <= i < |x| :: x[i] in x;
  }

  lemma {:induction false} PrefixRead(c: LineCodec, recs: seq<Rec>, k: nat)
    requires Lawful(c) && AllFit(c, recs) && k <= |Lines(c, recs)|
    ensures var r := Read(c, Lines(c, recs)[..k]);
            r.recs == recs[..Whole(c, recs, k)]
    decreases |recs|
  {
    hide Read;
    var x := Lines(c, recs)[..k];
    if recs == [] {
      ReadStep(c, []);
    } else {
      var n := |c.encode(recs[0])| + 1;
      if k < n {
        assert x == c.encode(recs[0])[..k];
        Unterminated(c, x);
      } else {
        var j := Whole(c, recs[1..], k - n);
        PrefixRead(c, recs[1..], k - n);
        var y := Lines(c, recs[1..])[..k - n];
        assert x == c.encode(recs[0]) + [LF] + y;
        LineReads(c, recs[0], y);
        assert recs[..1 + j] == [recs[0]] + recs[1..][..j];
      }
    }
  }

  /** Whatever part of an append reached the file, the acknowledged records are
      read, and then the whole records of that part. */
  lemma CrashDuringAppend(c: LineCodec, b: seq<byte>, recs: seq<Rec>, k: nat)
    requires Lawful(c) && AllFit(c, recs) && Read(c, b).torn.None? && k <= |Lines(c, recs)|
    ensures Read(c, b + Lines(c, recs)[..k]).recs == Read(c, b).recs + recs[..Whole(c, recs, k)]
  {
    ReadAppend(c, b, Lines(c, recs)[..k]);
    PrefixRead(c, recs, k);
  }

  // ------------------------------------------------------------- reading in chunks

  datatype Chunk = Found(bytes: seq<byte>) | Full(bytes: seq<byte>) | Eof(bytes: seq<byte>)

  datatype LineRead = Line(bytes: seq<byte>) | End(fragment: seq<byte>) | TooLong

  /** What a bounded line read gives, chunks or no chunks. */
  function NextLine(b: seq<byte>, max: nat): LineRead {
    var e := LineEnd(b);
    if e < |b| then (if e + 1 > max then TooLong else Line(b[..e + 1]))
    else if |b| > max then TooLong
    else End(b)
  }

  class Reader {
    const b: seq<byte>
    var pos: nat

    ghost predicate Valid()
      reads this
    {
      pos <= |b|
    }

    constructor (b: seq<byte>)
      ensures Valid() && this.b == b && pos == 0
    {
      this.b, pos := b, 0;
    }

    /** The buffered reader: up to a newline, a buffer of any size, or the end. */
    method ReadSlice() returns (chunk: Chunk)
      requires Valid()
      modifies this`pos
      ensures Valid()
      ensures var rest := b[old(pos)..]; var e := LineEnd(rest);
              match chunk
              case Found(x) => e < |rest| && x == rest[..e + 1] && pos == old(pos) + e + 1
              case Full(x) => 0 < |x| <= e && x == rest[..|x|] && pos == old(pos) + |x|
              case Eof(x) => e == |rest| && x == rest && pos == |b|
    {
      var size: nat :| size > 0;
      var rest := b[pos..];
      var e := LineEnd(rest);
      if e < |rest| && e < size {
        pos := pos + e + 1;
        return Found(rest[..e + 1]);
      }
      if |rest| < size {
        pos := |b|;
        return Eof(rest);
      }
      pos := pos + size;
      return Full(rest[..size]);
    }

    /** Reads one line without holding more than max bytes of it. */
    method ReadBoundedLine(max: nat) returns (line: LineRead)
      requires Valid()
      modifies this`pos
      ensures Valid() && line == NextLine(b[old(pos)..], max)
      ensures line.Line? ==> pos == old(pos) + |line.bytes|
    {
      hide LineEnd;
      var acc: seq<byte> := [];
      ghost var all := b[pos..];
      assert all[0..] == all;
      while true
        invariant Valid() && pos == old(pos) + |acc|
        invariant all == b[old(pos)..] && acc <= all && |acc| <= max
        invariant LineEnd(all) == |acc| + LineEnd(all[|acc|..])
        decreases |b| - pos
      {
        assert b[pos..] == all[|acc|..];
        var chunk := ReadSlice();
        assert all == acc + all[|acc|..];
        if |acc| + |chunk.bytes| > max {
          return TooLong;
        }
        ghost var before := acc;
        acc := acc + chunk.bytes;
        if chunk.Found? {
          return Line(acc);
        } else if chunk.Eof? {
          return End(acc);
        }
        Advance(all, before, chunk.bytes);
      }
    }
  }

  /** A chunk without a newline moves the reader within the line. */
  lemma Advance(all: seq<byte>, acc: seq<byte>, x: seq<byte>)
    requires acc <= all && LineEnd(all) == |acc| + LineEnd(all[|acc|..])
    requires x <= all[|acc|..] && |x| <= LineEnd(all[|acc|..])
    ensures acc + x <= all && LineEnd(all) == |acc + x| + LineEnd(all[|acc + x|..])
  {
    LineEndSkip(all[|acc|..], |x|);
    assert all[|acc|..][|x|..] == all[|acc + x|..];
    assert all == acc + all[|acc|..];
  }

  lemma {:induction false} LineEndSkip(b: seq<byte>, n: nat)
    requires n <= LineEnd(b)
    ensures LineEnd(b) == n + LineEnd(b[n..])
    decreases n
  {
    if n == 0 {
      assert b[0..] == b;
    } else {
      LineEndSkip(b[1..], n - 1);
      assert b[1..][n - 1..] == b[n..];
    }
  }

  /** Loads the records of a journal, whatever the chunks it is read in. */
  method ReadJournal(c: LineCodec, b: seq<byte>) returns (r: Reading)
    ensures r == Read(c, b)
  {
    hide LineEnd, Read, NextLine;
    var reader := new Reader(b);
    var ops, off := [], 0;
    assert b[0..] == b && [] + Read(c, b).recs == Read(c, b).recs;
    ThenNothing(Read(c, b));
    while true
      invariant reader.Valid() && reader.b == b && reader.pos == off
      invariant Read(c, b) == Then(ops, off, Read(c, b[off..]))
      decreases |b| - off
    {
      ghost var rest := b[off..];
      NextLineStep(c, rest);
      var line := reader.ReadBoundedLine(MAX_LINE);
      match line {
        case TooLong =>
          return Reading(ops, Some(off));
        case End(fragment) =>
          return Reading(ops, if |fragment| > 0 then Some(off) else None);
        case Line(l) =>
          var body := l[..|l| - 1];
          assert rest[|l|..] == b[off + |l|..];
          ghost var before := ops;
          if |body| > 0 {
            if c.decode(body).None? {
              return Reading(ops, Some(off));
            }
            ops := ops + [c.decode(body).value];
          }
          ThenThen(before, off, if |body| > 0 then [c.decode(body).value] else [], |l|, Read(c, rest[|l|..]));
          assert before + [] == before;
          off := off + |l|;
      }
    }
  }

  /** One line's part in the reading. */
  lemma NextLineStep(c: LineCodec, b: seq<byte>)
    ensures NextLine(b, MAX_LINE).TooLong? ==> Read(c, b) == Reading([], Some(0))
    ensures NextLine(b, MAX_LINE).End? ==>
              Read(c, b) == Reading([], if |NextLine(b, MAX_LINE).fragment| > 0 then Some(0) else None)
    ensures NextLine(b, MAX_LINE).Line? ==> AfterLine(c, b, NextLine(b, MAX_LINE).bytes)
  {
    var e := LineEnd(b);
    if e < |b| {
      assert b[..e + 1][..e] == b[..e];
    }
  }

  predicate AfterLine(c: LineCodec, b: seq<byte>, l: seq<byte>) {
    && 0 < |l| <= |b| && l == b[..|l|]
    && Read(c, b) == if |l| == 1 then Then([], 1, Read(c, b[1..]))
                     else if c.decode(l[..|l| - 1]).None? then Reading([], Some(0))
                     else Then([c.decode(l[..|l| - 1]).value], |l|, Read(c, b[|l|..]))
  }
}
