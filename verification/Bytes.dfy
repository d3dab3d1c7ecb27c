/** Bytes, fixed-width little-endian words and the bytewise order on strings.
    Everything the binary formats share. */
module Bytes {

  type byte = b: int | 0 <= b < 256

  /** The number a little-endian byte string spells. */
  function LE(b: seq<byte>): nat {
    if b == [] then 0 else b[0] + 256 * LE(b[1..])
  }

  function LE16(b: seq<byte>, at: nat): (v: nat)
    requires at + 2 <= |b|
    ensures v < 0x1_0000
  {
    b[at] as int + 256 * (b[at + 1] as int)
  }

  function LE32(b: seq<byte>, at: nat): nat
    requires at + 4 <= |b|
  {
    LE(b[at..at + 4])
  }

  function LE64(b: seq<byte>, at: nat): nat
    requires at + 8 <= |b|
  {
    LE(b[at..at + 8])
  }

  /** 256 to the power w: one past the largest w-byte word. */
  function Span(w: nat): (p: nat)
    ensures p > 0
  {
    if w == 0 then 1 else 256 * Span(w - 1)
  }

  /** The w-byte little-endian encoding of v (reduced modulo 256^w). */
  function PutLE(w: nat, v: nat): (b: seq<byte>)
    ensures |b| == w
  {
    if w == 0 then [] else [v % 256] + PutLE(w - 1, v / 256)
  }

  lemma {:induction false} LEBound(b: seq<byte>)
    ensures LE(b) < Span(|b|)
  {
    if b != [] {
      LEBound(b[1..]);
    }
  }

  /** Reading back an encoded word gives the word, if it fits. */
  lemma {:induction false} ReadAfterPut(w: nat, v: nat)
    requires v < Span(w)
    ensures LE(PutLE(w, v)) == v
  {
    if w > 0 {
      ReadAfterPut(w - 1, v / 256);
      assert PutLE(w, v)[1..] == PutLE(w - 1, v / 256);
    }
  }

  /** Encoding a word that was read reproduces the bytes it was read from. */
  lemma {:induction false} PutAfterRead(b: seq<byte>)
    ensures PutLE(|b|, LE(b)) == b
  {
    if b != [] {
      PutAfterRead(b[1..]);
      assert LE(b) % 256 == b[0] && LE(b) / 256 == LE(b[1..]);
      assert b == [b[0]] + b[1..];
    }
  }

  lemma Span4()
    ensures Span(4) == 0x1_0000_0000
  {
    assert Span(2) == 0x1_0000;
    assert Span(3) == 0x100_0000;
  }

  lemma Span8()
    ensures Span(8) == 0x1_0000_0000_0000_0000
  {
    Span4();
    assert Span(5) == 0x100_0000_0000;
    assert Span(6) == 0x1_0000_0000_0000;
    assert Span(7) == 0x100_0000_0000_0000;
  }

  /** Bytewise lexicographic order: Go's `<` on strings. */
  predicate Less(a: seq<byte>, b: seq<byte>)
  {
    if b == [] then false
    else if a == [] then true
    else a[0] < b[0] || (a[0] == b[0] && Less(a[1..], b[1..]))
  }

  lemma {:induction false} LessIrreflexive(a: seq<byte>)
    ensures !Less(a, a)
  {
    if a != [] {
      LessIrreflexive(a[1..]);
    }
  }

  lemma {:induction false} LessTransitive(a: seq<byte>, b: seq<byte>, c: seq<byte>)
    requires Less(a, b) && Less(b, c)
    ensures Less(a, c)
  {
    if a != [] && a[0] == b[0] == c[0] {
      LessTransitive(a[1..], b[1..], c[1..]);
    }
  }

  lemma {:induction false} LessTotal(a: seq<byte>, b: seq<byte>)
    ensures a == b || Less(a, b) || Less(b, a)
  {
    if a != [] && b != [] && a[0] == b[0] {
      LessTotal(a[1..], b[1..]);
      assert a == [a[0]] + a[1..] && b == [b[0]] + b[1..];
    }
  }
}
