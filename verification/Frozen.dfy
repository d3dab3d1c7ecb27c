/** The structural validator for roaring's frozen bitmaps
    (engine/prepared/frozen.go).

    A frozen bitmap is, from its start: the bitset data, the run data, the
    array data, then the trailer: n keys, n counts, n typecodes, and a header
    word holding the cookie and n. `Denotes` is what the bytes mean; the two
    methods are the validator, proved to accept exactly the well-formed
    buffers and to report the size and the maximum of what they denote. */
module Frozen {
  import opened Bytes
  import opened BitCount

  const COOKIE := 13766
  const MAX_CONTAINERS := 0x1_0000
  const BITSET_BYTES := 8192
  const ARRAY_MAX := 4096

  /** Where the trailer's parts lie in the buffer. */
  datatype Trailer = Trailer(n: nat, keysAt: nat, countsAt: nat, typesAt: nat)

  datatype Info = Info(containers: nat, cardinality: nat, max: nat)

  datatype Result<+T> = Ok(value: T) | Malformed

  // ---------------------------------------------------------------- trailer

  function HeaderWord(b: seq<byte>): nat
    requires |b| >= 4
  {
    LE32(b, |b| - 4)
  }

  /** The low 15 bits of the header word read big-endian. */
  function BigEndianCookie(b: seq<byte>): nat
    requires |b| >= 4
  {
    (b[|b| - 2] as int % 128) * 256 + b[|b| - 1] as int
  }

  function Containers(b: seq<byte>): nat
    requires |b| >= 4
  {
    HeaderWord(b) / 0x8000
  }

  /** The trailer a buffer's header word implies. */
  function TrailerOf(b: seq<byte>): Trailer
    requires |b| >= 4 && 5 * Containers(b) + 4 <= |b|
  {
    var (n, end) := (Containers(b), |b| - 4);
    Trailer(n, end - 5 * n, end - 3 * n, end - n)
  }

  predicate Framed(b: seq<byte>, t: Trailer) {
    && t.keysAt + 2 * t.n == t.countsAt
    && t.countsAt + 2 * t.n == t.typesAt
    && t.typesAt + t.n + 4 == |b|
  }

  function TypeOf(b: seq<byte>, t: Trailer, i: nat): byte
    requires Framed(b, t) && i < t.n
  {
    b[t.typesAt + i]
  }

  function CountOf(b: seq<byte>, t: Trailer, i: nat): nat
    requires Framed(b, t) && i < t.n
  {
    LE16(b, t.countsAt + 2 * i)
  }

  function KeyOf(b: seq<byte>, t: Trailer, i: nat): nat
    requires Framed(b, t) && i < t.n
  {
    LE16(b, t.keysAt + 2 * i)
  }

  /** How many data elements (bitsets, array values, runs) a container has. */
  function Elements(typ: byte, count: nat): nat {
    if typ == 1 then 1 else if typ == 2 then count + 1 else count
  }

  /** Data elements of type `typ` in the first i containers. */
  function Before(b: seq<byte>, t: Trailer, typ: byte, i: nat): nat
    requires Framed(b, t) && i <= t.n
  {
    if i == 0 then 0
    else Before(b, t, typ, i - 1) + if TypeOf(b, t, i - 1) == typ then Elements(typ, CountOf(b, t, i - 1)) else 0
  }

  function Total(b: seq<byte>, t: Trailer, typ: byte): nat
    requires Framed(b, t)
  {
    Before(b, t, typ, t.n)
  }

  predicate TypesKnown(b: seq<byte>, t: Trailer, i: nat)
    requires Framed(b, t) && i <= t.n
  {
    forall k | 0 <= k < i :: 1 <= TypeOf(b, t, k) <= 3
  }

  /** Known typecodes, and exactly the data bytes they and the counts imply. */
  predicate DataOk(b: seq<byte>, t: Trailer) {
    && Framed(b, t)
    && TypesKnown(b, t, t.n)
    && BITSET_BYTES * Total(b, t, 1) + 4 * Total(b, t, 3) + 2 * Total(b, t, 2) == t.keysAt
  }

  /** The trailer is well formed: a little-endian cookie, a container count in
      range, and a data region of the length it implies. */
  predicate TrailerOk(b: seq<byte>) {
    && |b| >= 4
    && BigEndianCookie(b) != COOKIE
    && HeaderWord(b) % 0x8000 == COOKIE
    && 1 <= Containers(b) <= MAX_CONTAINERS
    && 5 * Containers(b) + 4 <= |b|
    && DataOk(b, TrailerOf(b))
  }

  // ------------------------------------------------------------- data regions

  function RunsAt(b: seq<byte>, t: Trailer): nat requires Framed(b, t) { BITSET_BYTES * Total(b, t, 1) }
  function ArraysAt(b: seq<byte>, t: Trailer): nat requires Framed(b, t) { RunsAt(b, t) + 4 * Total(b, t, 3) }

  function DataAt(b: seq<byte>, t: Trailer, i: nat): nat
    requires DataOk(b, t) && i < t.n
  {
    match TypeOf(b, t, i)
    case 1 => BITSET_BYTES * Before(b, t, 1, i)
    case 2 => ArraysAt(b, t) + 2 * Before(b, t, 2, i)
    case _ => RunsAt(b, t) + 4 * Before(b, t, 3, i)
  }

  function DataLen(b: seq<byte>, t: Trailer, i: nat): nat
    requires DataOk(b, t) && i < t.n
  {
    match TypeOf(b, t, i)
    case 1 => BITSET_BYTES
    case 2 => 2 * (CountOf(b, t, i) + 1)
    case _ => 4 * CountOf(b, t, i)
  }

  lemma {:induction false} BeforeGrows(b: seq<byte>, t: Trailer, typ: byte, i: nat, j: nat)
    requires Framed(b, t) && i <= j <= t.n
    ensures Before(b, t, typ, i) <= Before(b, t, typ, j)
    ensures i < j && TypeOf(b, t, i) == typ ==>
              Before(b, t, typ, i) + Elements(typ, CountOf(b, t, i)) <= Before(b, t, typ, j)
  {
    if i < j {
      BeforeGrows(b, t, typ, i, j - 1);
    }
  }

  /** Every container's data lies inside the data region of its own type. */
  lemma DataInside(b: seq<byte>, t: Trailer, i: nat)
    requires DataOk(b, t) && i < t.n
    ensures DataAt(b, t, i) + DataLen(b, t, i) <= t.keysAt
    ensures TypeOf(b, t, i) == 1 ==> DataAt(b, t, i) + DataLen(b, t, i) <= RunsAt(b, t)
    ensures TypeOf(b, t, i) == 3 ==>
              RunsAt(b, t) <= DataAt(b, t, i) && DataAt(b, t, i) + DataLen(b, t, i) <= ArraysAt(b, t)
    ensures TypeOf(b, t, i) == 2 ==> ArraysAt(b, t) <= DataAt(b, t, i)
  {
    BeforeGrows(b, t, TypeOf(b, t, i), i, t.n);
  }

  ghost predicate Owns(b: seq<byte>, t: Trailer, i: nat, p: nat)
    requires DataOk(b, t) && i < t.n
  {
    DataAt(b, t, i) <= p < DataAt(b, t, i) + DataLen(b, t, i)
  }

  /** The container of type `typ` that holds the given element of its region. */
  lemma {:induction false} FindElement(b: seq<byte>, t: Trailer, typ: byte, e: nat, n: nat) returns (i: nat)
    requires Framed(b, t) && n <= t.n && e < Before(b, t, typ, n)
    ensures i < n && TypeOf(b, t, i) == typ
    ensures Before(b, t, typ, i) <= e < Before(b, t, typ, i) + Elements(typ, CountOf(b, t, i))
  {
    if e < Before(b, t, typ, n - 1) {
      i := FindElement(b, t, typ, e, n - 1);
    } else {
      i := n - 1;
    }
  }

  /** The regions partition the buffer: every byte before the trailer is data
      of exactly one container. */
  lemma Partition(b: seq<byte>, t: Trailer, p: nat)
    requires DataOk(b, t) && p < t.keysAt
    ensures exists i: nat | i < t.n :: Owns(b, t, i, p)
    ensures forall i: nat, j: nat | i < j < t.n && Owns(b, t, i, p) :: !Owns(b, t, j, p)
  {
    var n := t.n;
    if p < RunsAt(b, t) {
      var i := FindElement(b, t, 1, p / BITSET_BYTES, n);
      assert Owns(b, t, i, p);
    } else if p < ArraysAt(b, t) {
      var i := FindElement(b, t, 3, (p - RunsAt(b, t)) / 4, n);
      assert Owns(b, t, i, p);
    } else {
      var i := FindElement(b, t, 2, (p - ArraysAt(b, t)) / 2, n);
      assert Owns(b, t, i, p);
    }
    forall i: nat, j: nat | i < j < n && Owns(b, t, i, p) ensures !Owns(b, t, j, p) {
      DataInside(b, t, i);
      DataInside(b, t, j);
      BeforeGrows(b, t, TypeOf(b, t, i), i, j);
    }
  }

  // --------------------------------------------------------- container content

  ghost predicate AtMost(s: set<nat>, m: int) {
    forall x | x in s :: x <= m
  }

  function WordAt(b: seq<byte>, at: nat, w: nat): nat
    requires at + BITSET_BYTES <= |b| && w < 1024
  {
    LE64(b, at + 8 * w)
  }

  predicate BitsetHas(b: seq<byte>, at: nat, x: nat)
    requires at + BITSET_BYTES <= |b| && x < 0x1_0000
  {
    Bit(WordAt(b, at, x / 64), x % 64)
  }

  ghost function BitsetSet(b: seq<byte>, at: nat, words: nat): set<nat>
    requires at + BITSET_BYTES <= |b| && words <= 1024
  {
    set x: nat | x < 64 * words && BitsetHas(b, at, x)
  }

  function ArrayValue(b: seq<byte>, at: nat, j: nat): nat
    requires at + 2 * j + 2 <= |b|
  {
    LE16(b, at + 2 * j)
  }

  ghost function ArraySet(b: seq<byte>, at: nat, size: nat): set<nat>
    requires at + 2 * size <= |b|
  {
    set j: nat | j < size :: ArrayValue(b, at, j)
  }

  predicate ArrayOk(b: seq<byte>, at: nat, size: nat)
    requires at + 2 * size <= |b|
  {
    && size <= ARRAY_MAX
    && forall j, k | 0 <= j < k < size :: ArrayValue(b, at, j) < ArrayValue(b, at, k)
  }

  function RunStart(b: seq<byte>, at: nat, j: nat): nat
    requires at + 4 * j + 4 <= |b|
  {
    LE16(b, at + 4 * j)
  }

  function RunLast(b: seq<byte>, at: nat, j: nat): nat
    requires at + 4 * j + 4 <= |b|
  {
    RunStart(b, at, j) + LE16(b, at + 4 * j + 2)
  }

  predicate InRuns(b: seq<byte>, at: nat, runs: nat, x: nat)
    requires at + 4 * runs <= |b|
  {
    exists j: nat | j < runs :: RunStart(b, at, j) <= x <= RunLast(b, at, j)
  }

  ghost function RunSet(b: seq<byte>, at: nat, runs: nat): set<nat>
    requires at + 4 * runs <= |b|
  {
    set x: nat | x < 0x2_0000 && InRuns(b, at, runs, x)
  }

  predicate RunsOk(b: seq<byte>, at: nat, runs: nat)
    requires at + 4 * runs <= |b|
  {
    && runs >= 1
    && (forall j | 0 <= j < runs :: RunLast(b, at, j) <= 0xffff)
    && forall j, k | 0 <= j < k < runs :: RunLast(b, at, j) < RunStart(b, at, k)
  }

  /** The 16-bit values container i holds. */
  ghost function LowSet(b: seq<byte>, t: Trailer, i: nat): set<nat>
    requires DataOk(b, t) && i < t.n
  {
    DataInside(b, t, i);
    match TypeOf(b, t, i)
    case 1 => BitsetSet(b, DataAt(b, t, i), 1024)
    case 2 => ArraySet(b, DataAt(b, t, i), CountOf(b, t, i) + 1)
    case _ => RunSet(b, DataAt(b, t, i), CountOf(b, t, i))
  }

  ghost predicate ContainerOk(b: seq<byte>, t: Trailer, i: nat)
    requires DataOk(b, t) && i < t.n
  {
    DataInside(b, t, i);
    match TypeOf(b, t, i)
    case 1 => |BitsetSet(b, DataAt(b, t, i), 1024)| == CountOf(b, t, i) + 1
    case 2 => ArrayOk(b, DataAt(b, t, i), CountOf(b, t, i) + 1)
    case _ => RunsOk(b, DataAt(b, t, i), CountOf(b, t, i))
  }

  ghost predicate KeysAscend(b: seq<byte>, t: Trailer, i: nat)
    requires Framed(b, t) && i <= t.n
  {
    forall j, k | 0 <= j < k < i :: KeyOf(b, t, j) < KeyOf(b, t, k)
  }

  ghost predicate WellFormed(b: seq<byte>) {
    && TrailerOk(b)
    && KeysAscend(b, TrailerOf(b), TrailerOf(b).n)
    && AllOk(b, TrailerOf(b), TrailerOf(b).n)
  }

  ghost predicate AllOk(b: seq<byte>, t: Trailer, i: nat)
    requires DataOk(b, t) && i <= t.n
  {
    forall k: nat | k < i :: ContainerOk(b, t, k)
  }

  ghost predicate HoldsAt(b: seq<byte>, t: Trailer, i: nat, v: nat)
    requires DataOk(b, t) && i < t.n
  {
    KeyOf(b, t, i) == v / 0x1_0000 && v % 0x1_0000 in LowSet(b, t, i)
  }

  ghost predicate HasAmong(b: seq<byte>, t: Trailer, n: nat, v: nat)
    requires DataOk(b, t) && n <= t.n
  {
    exists i: nat | i < n :: HoldsAt(b, t, i, v)
  }

  /** The set of uint32 values the bytes denote. */
  ghost function Denotes(b: seq<byte>, t: Trailer): set<nat>
    requires DataOk(b, t)
  {
    set v: nat | v < 0x1_0000_0000 && HasAmong(b, t, t.n, v)
  }

  // ------------------------------------------------------------------ bitsets

  lemma WordBound(b: seq<byte>, at: nat, w: nat)
    requires at + BITSET_BYTES <= |b| && w < 1024
    ensures WordAt(b, at, w) < Pow2(64)
  {
    LEBound(b[at + 8 * w..at + 8 * w + 8]);
    Span8();
    Pow2Is64();
  }

  lemma InWord(b: seq<byte>, at: nat, w: nat, x: nat)
    requires at + BITSET_BYTES <= |b| && w < 1024 && 64 * w <= x < 64 * w + 64
    ensures BitsetHas(b, at, x) <==> x - 64 * w in BitsOf(WordAt(b, at, w), 64)
  {
    assert x / 64 == w && x % 64 == x - 64 * w;
  }

  /** One more word adds exactly its bits, shifted into place. */
  lemma WordAdds(b: seq<byte>, at: nat, w: nat)
    requires at + BITSET_BYTES <= |b| && w < 1024
    ensures BitsetSet(b, at, w + 1) == BitsetSet(b, at, w) + Shift(BitsOf(WordAt(b, at, w), 64), 64 * w)
    ensures BitsetSet(b, at, w) !! Shift(BitsOf(WordAt(b, at, w), 64), 64 * w)
  {
    var bits := BitsOf(WordAt(b, at, w), 64);
    forall x | x in BitsetSet(b, at, w + 1) && x >= 64 * w ensures x in Shift(bits, 64 * w) {
      InWord(b, at, w, x);
      assert x == (x - 64 * w) + 64 * w;
    }
    forall x | x in Shift(bits, 64 * w) ensures x in BitsetSet(b, at, w + 1) && x >= 64 * w {
      InWord(b, at, w, x);
    }
  }

  /** Nothing in the first w + 1 words lies above the top bit of word w. */
  lemma WordCeiling(b: seq<byte>, at: nat, w: nat, x: nat)
    requires at + BITSET_BYTES <= |b| && w < 1024 && x in BitsetSet(b, at, w + 1)
    ensures x < 64 * w + Len(WordAt(b, at, w)) || x < 64 * w
  {
    if x >= 64 * w {
      InWord(b, at, w, x);
      LenIsHighest(WordAt(b, at, w), x - 64 * w);
    }
  }

  /** The highest set bit of a nonzero word is the highest value so far. */
  lemma WordTop(b: seq<byte>, at: nat, w: nat)
    requires at + BITSET_BYTES <= |b| && w < 1024 && WordAt(b, at, w) != 0
    ensures 1 <= Len(WordAt(b, at, w)) <= 64
    ensures var top := 64 * w + Len(WordAt(b, at, w)) - 1;
            top in BitsetSet(b, at, w + 1) && AtMost(BitsetSet(b, at, w + 1), top)
  {
    var v := WordAt(b, at, w);
    WordBound(b, at, w);
    LenBound(v, 64);
    LenIsHighest(v, 0);
    InWord(b, at, w, 64 * w + Len(v) - 1);
    hide WordAt, Bit, BitsetHas;
    var s := BitsetSet(b, at, w + 1);
    forall x | x in s ensures x <= 64 * w + Len(v) - 1 {
      WordCeiling(b, at, w, x);
    }
  }

  lemma WordStep(b: seq<byte>, at: nat, w: nat)
    requires at + BITSET_BYTES <= |b| && w < 1024
    ensures |BitsetSet(b, at, w + 1)| == |BitsetSet(b, at, w)| + OnesCount(WordAt(b, at, w))
    ensures WordAt(b, at, w) == 0 ==> BitsetSet(b, at, w + 1) == BitsetSet(b, at, w)
  {
    hide BitsetHas, WordAt, BitsetSet, Bit;
    var v := WordAt(b, at, w);
    var bits := BitsOf(v, 64);
    WordBound(b, at, w);
    CountIsSize(v, 64);
    ShiftSize(bits, 64 * w);
    WordAdds(b, at, w);
    if v == 0 {
      assert |Shift(bits, 64 * w)| == 0;
      assert Shift(bits, 64 * w) == {};
    }
  }

  /** Count a bitset container and find its highest value. */
  method ScanBitset(b: seq<byte>, at: nat) returns (card: nat, last: int)
    requires at + BITSET_BYTES <= |b|
    ensures card == |BitsetSet(b, at, 1024)|
    ensures card > 0 ==> last in BitsetSet(b, at, 1024)
    ensures AtMost(BitsetSet(b, at, 1024), last)
  {
    card, last := 0, -1;
    assert BitsetSet(b, at, 0) == {};
    for w := 0 to 1024
      invariant card == |BitsetSet(b, at, w)|
      invariant card > 0 ==> last in BitsetSet(b, at, w)
      invariant AtMost(BitsetSet(b, at, w), last)
    {
      var v := LE64(b, at + 8 * w);
      assert v == WordAt(b, at, w);
      WordStep(b, at, w);
      if v != 0 {
        WordTop(b, at, w);
        card := card + OnesCount(v);
        last := 64 * w + 63 - (64 - Len(v));
      } else {
        assert OnesCount(v) == 0;
      }
    }
  }

  // ------------------------------------------------------------------- arrays

  lemma ArrayStep(b: seq<byte>, at: nat, j: nat)
    requires at + 2 * j + 2 <= |b|
    requires AtMost(ArraySet(b, at, j), ArrayValue(b, at, j) - 1)
    ensures |ArraySet(b, at, j + 1)| == |ArraySet(b, at, j)| + 1
    ensures AtMost(ArraySet(b, at, j + 1), ArrayValue(b, at, j))
  {
    assert ArraySet(b, at, j + 1) == ArraySet(b, at, j) + {ArrayValue(b, at, j)};
  }

  /** Walk an array container; `ok` iff it is strictly ascending. */
  method ScanArray(b: seq<byte>, at: nat, size: nat) returns (ok: bool, last: nat)
    requires 1 <= size <= ARRAY_MAX && at + 2 * size <= |b|
    ensures ok <==> ArrayOk(b, at, size)
    ensures ok ==> |ArraySet(b, at, size)| == size && last in ArraySet(b, at, size)
    ensures ok ==> AtMost(ArraySet(b, at, size), last)
  {
    var prev := 0;
    assert ArraySet(b, at, 0) == {};
    for j := 0 to size
      invariant forall i, k | 0 <= i < k < j :: ArrayValue(b, at, i) < ArrayValue(b, at, k)
      invariant |ArraySet(b, at, j)| == j
      invariant j > 0 ==> prev == ArrayValue(b, at, j - 1) && prev in ArraySet(b, at, j)
      invariant AtMost(ArraySet(b, at, j), prev)
    {
      var v := LE16(b, at + 2 * j);
      if j > 0 && v <= prev {
        assert ArrayValue(b, at, j) <= ArrayValue(b, at, j - 1);
        return false, 0;
      }
      assert v == ArrayValue(b, at, j);
      ArrayStep(b, at, j);
      prev := v;
    }
    return true, prev;
  }

  // --------------------------------------------------------------------- runs

  ghost function Interval(lo: nat, n: nat): (s: set<nat>)
    ensures |s| == n
    ensures forall x | x in s :: lo <= x < lo + n
    ensures forall x: nat | lo <= x < lo + n :: x in s
  {
    if n == 0 then {} else Interval(lo, n - 1) + {lo + n - 1}
  }

  lemma InRunsStep(b: seq<byte>, at: nat, j: nat, x: nat)
    requires at + 4 * j + 4 <= |b|
    ensures InRuns(b, at, j + 1, x) <==> InRuns(b, at, j, x) || RunStart(b, at, j) <= x <= RunLast(b, at, j)
  {
    if InRuns(b, at, j, x) {
      var k: nat :| k < j && RunStart(b, at, k) <= x <= RunLast(b, at, k);
      assert k < j + 1;
    }
  }

  lemma NoRuns(b: seq<byte>, at: nat)
    requires at <= |b|
    ensures RunSet(b, at, 0) == {}
  {
  }

  lemma RunStep(b: seq<byte>, at: nat, j: nat)
    requires at + 4 * j + 4 <= |b| && RunLast(b, at, j) <= 0xffff
    requires AtMost(RunSet(b, at, j), RunStart(b, at, j) - 1)
    ensures |RunSet(b, at, j + 1)| == |RunSet(b, at, j)| + (RunLast(b, at, j) - RunStart(b, at, j)) + 1
    ensures RunLast(b, at, j) in RunSet(b, at, j + 1)
    ensures AtMost(RunSet(b, at, j + 1), RunLast(b, at, j))
  {
    hide InRuns;
    var run := Interval(RunStart(b, at, j), RunLast(b, at, j) + 1 - RunStart(b, at, j));
    var old_, new_ := RunSet(b, at, j), RunSet(b, at, j + 1);
    forall x: nat ensures x in new_ <==> x in old_ || x in run {
      InRunsStep(b, at, j, x);
    }
    assert new_ == old_ + run;
    assert old_ !! run;
  }

  /** Walk a run container; `ok` iff its runs are in range, ascending and disjoint. */
  method ScanRuns(b: seq<byte>, at: nat, runs: nat) returns (ok: bool, card: nat, last: nat)
    requires runs >= 1 && at + 4 * runs <= |b|
    ensures ok <==> RunsOk(b, at, runs)
    ensures ok ==> card == |RunSet(b, at, runs)| && last in RunSet(b, at, runs) && last < 0x1_0000
    ensures ok ==> AtMost(RunSet(b, at, runs), last)
  {
    hide InRuns;
    var prevLast: int := -1;
    card := 0;
    NoRuns(b, at);
    for j := 0 to runs
      invariant forall k | 0 <= k < j :: RunLast(b, at, k) <= 0xffff
      invariant forall i, k | 0 <= i < k < j :: RunLast(b, at, i) < RunStart(b, at, k)
      invariant card == |RunSet(b, at, j)|
      invariant j == 0 ==> prevLast == -1
      invariant j > 0 ==> prevLast == RunLast(b, at, j - 1) && prevLast in RunSet(b, at, j)
      invariant AtMost(RunSet(b, at, j), prevLast)
    {
      var start := LE16(b, at + 4 * j);
      var length := LE16(b, at + 4 * j + 2);
      var runLast := start + length;
      assert start == RunStart(b, at, j) && runLast == RunLast(b, at, j);
      if runLast > 0xffff {
        return false, 0, 0;
      }
      if start <= prevLast {
        assert j > 0 && !(RunLast(b, at, j - 1) < RunStart(b, at, j));
        return false, 0, 0;
      }
      RunStep(b, at, j);
      prevLast := runLast;
      card := card + length + 1;
    }
    return true, card, prevLast;
  }

  // ---------------------------------------------------------------- validator

  /** Add up what the typecodes and counts imply; fails on an unknown typecode. */
  method CountElements(b: seq<byte>, t: Trailer) returns (ok: bool, nBitset: nat, nArrayEl: nat, nRunEl: nat)
    requires Framed(b, t)
    ensures ok <==> TypesKnown(b, t, t.n)
    ensures ok ==> nBitset == Total(b, t, 1) && nArrayEl == Total(b, t, 2) && nRunEl == Total(b, t, 3)
  {
    nBitset, nArrayEl, nRunEl := 0, 0, 0;
    for i := 0 to t.n
      invariant nBitset == Before(b, t, 1, i) && nArrayEl == Before(b, t, 2, i) && nRunEl == Before(b, t, 3, i)
      invariant TypesKnown(b, t, i)
    {
      var c := LE16(b, t.countsAt + 2 * i);
      var typ := b[t.typesAt + i];
      assert typ == TypeOf(b, t, i) && c == CountOf(b, t, i);
      if typ == 1 {
        nBitset := nBitset + 1;
      } else if typ == 2 {
        nArrayEl := nArrayEl + c + 1;
      } else if typ == 3 {
        nRunEl := nRunEl + c;
      } else {
        ok := false;
        return;
      }
    }
    ok := true;
  }

  /** Validate the trailer: accepts exactly the well-formed ones. */
  method CheckTrailer(b: seq<byte>) returns (r: Result<(Trailer, nat, nat)>)
    ensures r.Ok? <==> TrailerOk(b)
    ensures r.Ok? ==> var t := TrailerOf(b); r.value == (t, Total(b, t, 1), Total(b, t, 3))
  {
    hide LE, Before;
    if |b| < 4 {
      return Malformed;
    }
    var hdrAt := |b| - 4;
    if (b[hdrAt + 2] as int % 128) * 256 + b[hdrAt + 3] as int == COOKIE {
      return Malformed;
    }
    var header := LE32(b, hdrAt);
    if header % 0x8000 != COOKIE {
      return Malformed;
    }
    var n := header / 0x8000;
    if n < 1 || n > MAX_CONTAINERS || hdrAt < 5 * n {
      return Malformed;
    }
    var typesAt := hdrAt - n;
    var countsAt := typesAt - 2 * n;
    var keysAt := countsAt - 2 * n;
    var t := Trailer(n, keysAt, countsAt, typesAt);
    var ok, nBitset, nArrayEl, nRunEl := CountElements(b, t);
    if !ok || nBitset * BITSET_BYTES + 4 * nRunEl + 2 * nArrayEl != keysAt {
      return Malformed;
    }
    return Ok((t, nBitset, nRunEl));
  }

  /** The values of the first i containers. */
  ghost function ValuesUpTo(b: seq<byte>, t: Trailer, i: nat): set<nat>
    requires DataOk(b, t) && i <= t.n
  {
    if i == 0 then {} else ValuesUpTo(b, t, i - 1) + Shift(LowSet(b, t, i - 1), 0x1_0000 * KeyOf(b, t, i - 1))
  }

  /** Adding a shifted set above everything there: sizes add, the top is known. */
  lemma AddAbove(s: set<nat>, low: set<nat>, d: nat, hi: nat)
    requires AtMost(s, d - 1) && hi in low && AtMost(low, hi)
    ensures |s + Shift(low, d)| == |s| + |low|
    ensures d + hi in s + Shift(low, d) && AtMost(s + Shift(low, d), d + hi)
  {
    ShiftSize(low, d);
    assert s !! Shift(low, d);
    assert hi + d in Shift(low, d);
  }

  lemma ShiftMember(low: set<nat>, k: nat, v: nat)
    requires AtMost(low, 0xffff)
    ensures v in Shift(low, 0x1_0000 * k) <==> v / 0x1_0000 == k && v % 0x1_0000 in low
  {
    if v in Shift(low, 0x1_0000 * k) {
      var x :| x in low && v == x + 0x1_0000 * k;
    }
    if v / 0x1_0000 == k && v % 0x1_0000 in low {
      assert v == v % 0x1_0000 + 0x1_0000 * k;
    }
  }

  lemma {:induction false} ValuesMeaning(b: seq<byte>, t: Trailer, i: nat, v: nat)
    requires DataOk(b, t) && i <= t.n
    requires forall k: nat | k < i :: AtMost(LowSet(b, t, k), 0xffff)
    ensures v in ValuesUpTo(b, t, i) <==> HasAmong(b, t, i, v)
  {
    hide LowSet;
    if i > 0 {
      ValuesMeaning(b, t, i - 1, v);
      ShiftMember(LowSet(b, t, i - 1), KeyOf(b, t, i - 1), v);
      assert HasAmong(b, t, i, v) <==> HasAmong(b, t, i - 1, v) || HoldsAt(b, t, i - 1, v);
    }
  }

  lemma ValuesAreDenotation(b: seq<byte>, t: Trailer)
    requires DataOk(b, t)
    requires forall k: nat | k < t.n :: AtMost(LowSet(b, t, k), 0xffff)
    ensures ValuesUpTo(b, t, t.n) == Denotes(b, t)
  {
    forall v: nat ensures v in ValuesUpTo(b, t, t.n) <==> v in Denotes(b, t) {
      ValuesMeaning(b, t, t.n, v);
    }
  }

  /** Validate one container's content: its size and its highest value. */
  method ScanContainer(b: seq<byte>, ghost t: Trailer, i: nat, at: nat, typ: byte, c: nat)
    returns (ok: bool, card: nat, hi: nat)
    requires DataOk(b, t) && i < t.n
    requires at == DataAt(b, t, i) && typ == TypeOf(b, t, i) && c == CountOf(b, t, i)
    ensures ok <==> ContainerOk(b, t, i)
    ensures ok ==> card == |LowSet(b, t, i)| && hi in LowSet(b, t, i) && AtMost(LowSet(b, t, i), hi) && hi <= 0xffff
  {
    DataInside(b, t, i);
    ok, card, hi := false, 0, 0;
    if typ == 1 {
      var last;
      card, last := ScanBitset(b, at);
      if card == c + 1 {
        ok, hi := true, last;
      }
    } else if typ == 2 {
      var sz := c + 1;
      if sz <= ARRAY_MAX {
        ok, hi := ScanArray(b, at, sz);
        card := sz;
      }
    } else {
      if c >= 1 {
        ok, card, hi := ScanRuns(b, at, c);
      }
    }
  }

  /** The first i containers are valid, and what they hold has this size and maximum. */
  ghost predicate Scanned(b: seq<byte>, t: Trailer, i: nat, cardinality: nat, max: nat)
    requires DataOk(b, t) && i <= t.n
  {
    && KeysAscend(b, t, i)
    && AllOk(b, t, i)
    && (forall k: nat | k < i :: AtMost(LowSet(b, t, k), 0xffff))
    && cardinality == |ValuesUpTo(b, t, i)|
    && AtMost(ValuesUpTo(b, t, i), max)
    && (i > 0 ==> max in ValuesUpTo(b, t, i) && max < 0x1_0000 * (KeyOf(b, t, i - 1) + 1))
  }

  lemma AscendStep(b: seq<byte>, t: Trailer, i: nat)
    requires Framed(b, t) && i < t.n && KeysAscend(b, t, i)
    requires i > 0 ==> KeyOf(b, t, i - 1) < KeyOf(b, t, i)
    ensures KeysAscend(b, t, i + 1)
  {
    hide KeyOf;
  }

  lemma Weaken(s: set<nat>, m: int, n: int)
    requires AtMost(s, m) && (m <= n || s == {})
    ensures AtMost(s, n)
  {
  }

  lemma ValuesStep(b: seq<byte>, t: Trailer, i: nat)
    requires DataOk(b, t) && i < t.n
    ensures ValuesUpTo(b, t, i + 1) == ValuesUpTo(b, t, i) + Shift(LowSet(b, t, i), 0x1_0000 * KeyOf(b, t, i))
    ensures ValuesUpTo(b, t, 0) == {}
  {
    hide LowSet, Shift, KeyOf;
  }

  lemma ScannedStep(b: seq<byte>, t: Trailer, i: nat, cardinality: nat, max: nat, hi: nat)
    requires DataOk(b, t) && i < t.n && Scanned(b, t, i, cardinality, max)
    requires i > 0 ==> KeyOf(b, t, i - 1) < KeyOf(b, t, i)
    requires ContainerOk(b, t, i) && hi in LowSet(b, t, i) && AtMost(LowSet(b, t, i), hi) && hi <= 0xffff
    ensures Scanned(b, t, i + 1, cardinality + |LowSet(b, t, i)|, 0x1_0000 * KeyOf(b, t, i) + hi)
  {
    hide ContainerOk, LowSet, KeyOf, KeysAscend, ValuesUpTo, Shift, AtMost;
    var d := 0x1_0000 * KeyOf(b, t, i);
    AscendStep(b, t, i);
    ValuesStep(b, t, i);
    Weaken(ValuesUpTo(b, t, i), max, d - 1);
    Weaken(LowSet(b, t, i), hi, 0xffff);
    AddAbove(ValuesUpTo(b, t, i), LowSet(b, t, i), d, hi);
  }

  lemma ScannedAll(b: seq<byte>, t: Trailer, cardinality: nat, max: nat)
    requires DataOk(b, t) && t.n > 0 && Scanned(b, t, t.n, cardinality, max)
    ensures cardinality == |Denotes(b, t)| && max in Denotes(b, t) && AtMost(Denotes(b, t), max)
  {
    ValuesAreDenotation(b, t);
  }

  lemma ScannedOk(b: seq<byte>, t: Trailer, i: nat, cardinality: nat, max: nat)
    requires DataOk(b, t) && i <= t.n && Scanned(b, t, i, cardinality, max)
    ensures KeysAscend(b, t, i) && AllOk(b, t, i)
  {
  }

  /** Where the next bitset, run and array container's data start. */
  datatype Cursors = Cursors(bits: nat, runs: nat, arrays: nat)

  function CursorsAt(b: seq<byte>, t: Trailer, i: nat): Cursors
    requires DataOk(b, t) && i <= t.n
  {
    Cursors(BITSET_BYTES * Before(b, t, 1, i), RunsAt(b, t) + 4 * Before(b, t, 3, i),
            ArraysAt(b, t) + 2 * Before(b, t, 2, i))
  }

  lemma CursorStep(b: seq<byte>, t: Trailer, i: nat)
    requires DataOk(b, t) && i < t.n
    ensures var (cur, next) := (CursorsAt(b, t, i), CursorsAt(b, t, i + 1));
      match TypeOf(b, t, i)
      case 1 => DataAt(b, t, i) == cur.bits && next == cur.(bits := cur.bits + BITSET_BYTES)
      case 2 => DataAt(b, t, i) == cur.arrays && next == cur.(arrays := cur.arrays + 2 * (CountOf(b, t, i) + 1))
      case _ => DataAt(b, t, i) == cur.runs && next == cur.(runs := cur.runs + 4 * CountOf(b, t, i))
  {
  }

  /** Validate container i, from its key to its content, and step the cursors. */
  method NextContainer(b: seq<byte>, t: Trailer, i: nat, cur: Cursors, prevKey: nat)
    returns (ok: bool, next: Cursors, k: nat, card: nat, hi: nat)
    requires DataOk(b, t) && i < t.n && cur == CursorsAt(b, t, i)
    requires i > 0 ==> prevKey == KeyOf(b, t, i - 1)
    ensures ok <==> (i > 0 ==> KeyOf(b, t, i - 1) < KeyOf(b, t, i)) && ContainerOk(b, t, i)
    ensures ok ==> next == CursorsAt(b, t, i + 1) && k == KeyOf(b, t, i)
    ensures ok ==> card == |LowSet(b, t, i)| && hi in LowSet(b, t, i) && AtMost(LowSet(b, t, i), hi) && hi <= 0xffff
  {
    hide LowSet, ContainerOk;
    hide CursorsAt, Before;
    CursorStep(b, t, i);
    ok, next, k, card, hi := false, cur, LE16(b, t.keysAt + 2 * i), 0, 0;
    assert k == KeyOf(b, t, i);
    if i == 0 || prevKey < k {
      var count := LE16(b, t.countsAt + 2 * i);
      var typ := b[t.typesAt + i];
      if typ == 1 {
        ok, card, hi := ScanContainer(b, t, i, cur.bits, typ, count);
        next := cur.(bits := cur.bits + BITSET_BYTES);
      } else if typ == 2 {
        ok, card, hi := ScanContainer(b, t, i, cur.arrays, typ, count);
        next := cur.(arrays := cur.arrays + 2 * (count + 1));
      } else {
        ok, card, hi := ScanContainer(b, t, i, cur.runs, typ, count);
        next := cur.(runs := cur.runs + 4 * count);
      }
    }
  }

  lemma ScanStart(b: seq<byte>, t: Trailer)
    requires DataOk(b, t)
    ensures Scanned(b, t, 0, 0, 0)
    ensures var runAt := BITSET_BYTES * Total(b, t, 1);
            CursorsAt(b, t, 0) == Cursors(0, runAt, runAt + 4 * Total(b, t, 3))
  {
  }

  lemma Rejects(b: seq<byte>, t: Trailer, i: nat)
    requires DataOk(b, t) && i < t.n
    requires !((i > 0 ==> KeyOf(b, t, i - 1) < KeyOf(b, t, i)) && ContainerOk(b, t, i))
    ensures !(KeysAscend(b, t, t.n) && AllOk(b, t, t.n))
  {
    hide ContainerOk, KeyOf;
  }

  /** Validate every container's content over a well-formed trailer. */
  method CheckContainers(b: seq<byte>, t: Trailer, nBitset: nat, nRunEl: nat)
    returns (ok: bool, cardinality: nat, max: nat)
    requires DataOk(b, t) && nBitset == Total(b, t, 1) && nRunEl == Total(b, t, 3)
    ensures ok <==> KeysAscend(b, t, t.n) && AllOk(b, t, t.n)
    ensures ok ==> Scanned(b, t, t.n, cardinality, max)
  {
    hide LowSet, ContainerOk, Scanned, CursorsAt, KeyOf, KeysAscend, AllOk, AtMost, Total, Before;
    var runAt := nBitset * BITSET_BYTES;
    var cur := Cursors(0, runAt, runAt + 4 * nRunEl);
    ScanStart(b, t);
    var prevKey := 0;
    cardinality, max := 0, 0;
    for i := 0 to t.n
      invariant cur == CursorsAt(b, t, i)
      invariant i > 0 ==> prevKey == KeyOf(b, t, i - 1)
      invariant Scanned(b, t, i, cardinality, max)
    {
      var next, k, card, hi;
      ok, next, k, card, hi := NextContainer(b, t, i, cur, prevKey);
      if !ok {
        Rejects(b, t, i);
        return;
      }
      ScannedStep(b, t, i, cardinality, max, hi);
      cur, prevKey := next, k;
      cardinality, max := cardinality + card, 0x1_0000 * k + hi;
    }
    ScannedOk(b, t, t.n, cardinality, max);
    ok := true;
  }

  /** Validate one whole frozen bitmap. Accepts exactly the well-formed
      buffers; on acceptance they denote a non-empty set of uint32 whose size
      and maximum are the returned ones. */
  method CheckFrozen(b: seq<byte>) returns (r: Result<Info>)
    ensures r.Ok? <==> WellFormed(b)
    ensures r.Ok? ==>
              var values := Denotes(b, TrailerOf(b));
              && r.value.containers == Containers(b)
              && r.value.cardinality == |values|
              && r.value.max in values
              && AtMost(values, r.value.max)
  {
    var c := CheckTrailer(b);
    if c.Malformed? {
      return Malformed;
    }
    var (t, nBitset, nRunEl) := c.value;
    hide KeysAscend, AllOk, Scanned, Denotes;
    var ok, cardinality, max := CheckContainers(b, t, nBitset, nRunEl);
    if !ok {
      return Malformed;
    }
    ScannedAll(b, t, cardinality, max);
    return Ok(Info(t.n, cardinality, max));
  }
}
