/** The records section (engine/prepared/encode.go:266-347, engine/prepared/
    view.go:244-316, 537-589): rows, key rows and a packed blob, each record's bytes
    right after the last one's. A layout is canonical: the bytes determine the
    records and the records determine the bytes. */
module Records {
  import opened Buffers
  import opened Bytes
  import opened Options
  import JsonText

  /** An entry as stored; a null key list is not an empty one. */
  datatype Record = Record(id: seq<byte>, keys: Option<seq<seq<byte>>>, payload: seq<byte>)

  const NULL_FLAG := 0x8000_0000_0000_0000
  const MAX_INT := 0x7FFF_FFFF_FFFF_FFFF
  const MAX_U32 := 0xFFFF_FFFF

  function KeyList(r: Record): seq<seq<byte>> {
    if r.keys.Some? then r.keys.value else []
  }

  function Word(v: nat): (w: seq<byte>)
    ensures |w| == 8
  {
    PutLE(8, v)
  }

  // ---------------------------------------------------------------- specification

  function KeyBytes(keys: seq<seq<byte>>): seq<byte> {
    if keys == [] then [] else KeyBytes(keys[..|keys| - 1]) + keys[|keys| - 1]
  }

  function BlobOf(r: Record): seq<byte> {
    r.id + KeyBytes(KeyList(r)) + r.payload
  }

  function Blob(recs: seq<Record>): seq<byte> {
    if recs == [] then [] else Blob(recs[..|recs| - 1]) + BlobOf(recs[|recs| - 1])
  }

  function KeyTotal(recs: seq<Record>): nat {
    if recs == [] then 0 else KeyTotal(recs[..|recs| - 1]) + |KeyList(recs[|recs| - 1])|
  }

  function CountWord(r: Record): nat {
    if r.keys.None? then NULL_FLAG else |r.keys.value|
  }

  /** The six words of a record whose bytes start at and whose keys start at k. */
  function RowWords(r: Record, at: nat, k: nat): (w: seq<nat>)
    ensures |w| == 6
  {
    [at, |r.id|, k, CountWord(r), at + |r.id| + |KeyBytes(KeyList(r))|, |r.payload|]
  }

  function Words(w: seq<nat>): (b: seq<byte>)
    ensures |b| == 8 * |w|
  {
    if w == [] then [] else Words(w[..|w| - 1]) + Word(w[|w| - 1])
  }

  function Rows(recs: seq<Record>): (b: seq<byte>)
    ensures |b| == 48 * |recs|
  {
    if recs == [] then []
    else
      var front := recs[..|recs| - 1];
      Rows(front) + Words(RowWords(recs[|recs| - 1], |Blob(front)|, KeyTotal(front)))
  }

  /** The rows of some keys whose bytes start at. */
  function KeyRowsOf(keys: seq<seq<byte>>, at: nat): (b: seq<byte>)
    ensures |b| == 16 * |keys|
  {
    if keys == [] then []
    else
      var front := keys[..|keys| - 1];
      KeyRowsOf(front, at) + Words([at + |KeyBytes(front)|, |keys[|keys| - 1]|])
  }

  function KeyRows(recs: seq<Record>): (b: seq<byte>)
    ensures |b| == 16 * KeyTotal(recs)
  {
    if recs == [] then []
    else
      var front, r := recs[..|recs| - 1], recs[|recs| - 1];
      KeyRows(front) + KeyRowsOf(KeyList(r), |Blob(front)| + |r.id|)
  }

  function Encode(recs: seq<Record>): seq<byte> {
    Word(|recs|) + Rows(recs) + Word(KeyTotal(recs)) + KeyRows(recs) + Blob(recs)
  }

  function Size(recs: seq<Record>): nat {
    16 + 48 * |recs| + 16 * KeyTotal(recs) + |Blob(recs)|
  }

  predicate GoodRecord(r: Record) {
    r.id != [] && JsonText.Utf8(r.id) && forall j | 0 <= j < |KeyList(r)| :: JsonText.Utf8(KeyList(r)[j])
  }

  predicate GoodRecords(recs: seq<Record>) {
    forall i | 0 <= i < |recs| :: GoodRecord(recs[i])
  }

  /** What the section can hold. */
  predicate Fits(recs: seq<Record>) {
    GoodRecords(recs) && Size(recs) <= MAX_INT && |recs| <= MAX_U32 && KeyTotal(recs) <= MAX_U32
  }

  // ------------------------------------------------------------------------ words

  predicate Word64(v: nat) {
    v < 0x1_0000_0000_0000_0000
  }

  lemma WordReads(v: nat)
    requires Word64(v)
    ensures LE(Word(v)) == v
  {
    Span8();
    ReadAfterPut(8, v);
  }

  lemma WordIs(b: seq<byte>, v: nat)
    requires |b| == 8
    ensures LE(b) == v ==> b == Word(v)
    ensures b == Word(v) && Word64(v) ==> LE(b) == v
  {
    PutAfterRead(b);
    if Word64(v) {
      WordReads(v);
    }
  }

  /** Eight bytes at a time, the words are what they were written as. */
  lemma {:induction false} WordsAt(w: seq<nat>, f: nat)
    requires f < |w|
    ensures Words(w)[8 * f..8 * f + 8] == Word(w[f])
    decreases |w|
  {
    if f < |w| - 1 {
      WordsAt(w[..|w| - 1], f);
      FrontSlice(Words(w[..|w| - 1]), Word(w[|w| - 1]), 8 * f, 8 * f + 8);
    }
  }

  lemma {:induction false} WordsFrom(b: seq<byte>, w: seq<nat>)
    requires |b| == 8 * |w| && forall f | 0 <= f < |w| :: LE(b[8 * f..8 * f + 8]) == w[f]
    ensures b == Words(w)
    decreases |w|
  {
    hide LE, Word;
    if w != [] {
      var n := |w| - 1;
      forall f | 0 <= f < n ensures b[..8 * n][8 * f..8 * f + 8] == b[8 * f..8 * f + 8] {
        FrontOf(b, 8 * n, 8 * f, 8 * f + 8);
      }
      WordsFrom(b[..8 * n], w[..n]);
      WordIs(b[8 * n..8 * n + 8], w[n]);
      assert b == b[..8 * n] + b[8 * n..8 * n + 8];
    }
  }

  lemma FrontOf(b: seq<byte>, n: nat, lo: nat, hi: nat)
    requires lo <= hi <= n <= |b|
    ensures b[..n][lo..hi] == b[lo..hi]
  {
  }

  // ------------------------------------------------------------- one record's parts

  lemma {:induction false} BlobGrows(recs: seq<Record>, i: nat)
    requires i <= |recs|
    ensures |Blob(recs[..i])| <= |Blob(recs)| && Blob(recs)[..|Blob(recs[..i])|] == Blob(recs[..i])
    ensures KeyTotal(recs[..i]) <= KeyTotal(recs) && KeyRows(recs)[..16 * KeyTotal(recs[..i])] == KeyRows(recs[..i])
    decreases |recs|
  {
    if i == |recs| {
      assert recs[..i] == recs;
    } else {
      BlobGrows(recs[..|recs| - 1], i);
      assert recs[..|recs| - 1][..i] == recs[..i];
    }
  }

  lemma RowsPush(recs: seq<Record>)
    requires recs != []
    ensures var front := recs[..|recs| - 1];
            Rows(recs) == Rows(front) + Words(RowWords(recs[|recs| - 1], |Blob(front)|, KeyTotal(front)))
  {
  }

  lemma {:induction false} RowAt(recs: seq<Record>, i: nat)
    requires i < |recs|
    ensures Rows(recs)[48 * i..48 * i + 48] == Words(RowWords(recs[i], |Blob(recs[..i])|, KeyTotal(recs[..i])))
    decreases |recs|
  {
    hide Rows, Words, RowWords, Blob, KeyTotal;
    var front := recs[..|recs| - 1];
    var last := Words(RowWords(recs[|recs| - 1], |Blob(front)|, KeyTotal(front)));
    RowsPush(recs);
    if i < |recs| - 1 {
      RowAt(front, i);
      assert front[..i] == recs[..i];
      FrontSlice(Rows(front), last, 48 * i, 48 * i + 48);
    } else {
      BackSlice(Rows(front), last);
      assert Rows(recs)[48 * i..] == Rows(recs)[48 * i..48 * i + 48];
    }
  }

  lemma {:induction false} KeyBytesGrow(keys: seq<seq<byte>>, j: nat)
    requires j <= |keys|
    ensures |KeyBytes(keys[..j])| <= |KeyBytes(keys)| && KeyBytes(keys)[..|KeyBytes(keys[..j])|] == KeyBytes(keys[..j])
    decreases |keys|
  {
    if j == |keys| {
      assert keys[..j] == keys;
    } else {
      KeyBytesGrow(keys[..|keys| - 1], j);
      assert keys[..|keys| - 1][..j] == keys[..j];
    }
  }

  lemma {:induction false} KeyRowAt(keys: seq<seq<byte>>, at: nat, j: nat)
    requires j < |keys|
    ensures KeyRowsOf(keys, at)[16 * j..16 * j + 16] == Words([at + |KeyBytes(keys[..j])|, |keys[j]|])
    decreases |keys|
  {
    if j < |keys| - 1 {
      KeyRowAt(keys[..|keys| - 1], at, j);
      assert keys[..|keys| - 1][..j] == keys[..j];
      var front := keys[..|keys| - 1];
      FrontSlice(KeyRowsOf(front, at), Words([at + |KeyBytes(front)|, |keys[|keys| - 1]|]), 16 * j, 16 * j + 16);
    }
  }

  // -------------------------------------------------------------------------- views

  /** The parts of a parsed section. */
  datatype View = View(n: nat, nk: nat, rows: seq<byte>, keyRows: seq<byte>, blob: seq<byte>) {
    predicate Shaped() {
      |rows| == 48 * n && |keyRows| == 16 * nk
    }

    /** Word f of row i. */
    function RowWord(i: nat, f: nat): nat
      requires Shaped() && i < n && f < 6
    {
      LE(rows[48 * i + 8 * f..48 * i + 8 * f + 8])
    }

    function KeyWord(k: nat, f: nat): nat
      requires Shaped() && k < nk && f < 2
    {
      LE(keyRows[16 * k + 8 * f..16 * k + 8 * f + 8])
    }

    function Str(off: nat, len: nat): seq<byte> {
      if off + len <= |blob| then blob[off..off + len] else []
    }

    function ID(i: nat): seq<byte>
      requires Shaped() && i < n
    {
      Str(RowWord(i, 0), RowWord(i, 1))
    }

    function KeyCount(i: nat): nat
      requires Shaped() && i < n
    {
      if RowWord(i, 3) >= NULL_FLAG then RowWord(i, 3) - NULL_FLAG else RowWord(i, 3)
    }

    function KeysNull(i: nat): bool
      requires Shaped() && i < n
    {
      RowWord(i, 3) == NULL_FLAG
    }

    function Key(i: nat, j: nat): seq<byte>
      requires Shaped() && i < n
    {
      var k := RowWord(i, 2) + j;
      if k < nk then Str(KeyWord(k, 0), KeyWord(k, 1)) else []
    }

    function Payload(i: nat): seq<byte>
      requires Shaped() && i < n
    {
      Str(RowWord(i, 4), RowWord(i, 5))
    }

    /** The record the accessors read. */
    function At(i: nat): Record
      requires Shaped() && i < n
    {
      Record(ID(i), if KeysNull(i) then None else Some(seq(KeyCount(i), (j: nat) => Key(i, j))), Payload(i))
    }
  }

  function ViewOf(recs: seq<Record>): (v: View)
    ensures v.Shaped()
  {
    View(|recs|, KeyTotal(recs), Rows(recs), KeyRows(recs), Blob(recs))
  }

  /** A row's words are what the row was written with. */
  lemma RowReads(recs: seq<Record>, i: nat, f: nat)
    requires i < |recs| && f < 6 && Word64(RowWords(recs[i], |Blob(recs[..i])|, KeyTotal(recs[..i]))[f])
    ensures ViewOf(recs).RowWord(i, f) == RowWords(recs[i], |Blob(recs[..i])|, KeyTotal(recs[..i]))[f]
  {
    hide Rows, Words, RowWords, Blob, KeyTotal, KeyRows;
    var w := RowWords(recs[i], |Blob(recs[..i])|, KeyTotal(recs[..i]));
    RowAt(recs, i);
    WordsAt(w, f);
    SliceSlice(Rows(recs), 48 * i, 48 * i + 48, 8 * f, 8 * f + 8);
    WordIs(Word(w[f]), w[f]);
  }

  /** Where the parts of a record lie. */
  lemma RecordPlace(recs: seq<Record>, i: nat)
    requires i < |recs|
    ensures var at := |Blob(recs[..i])|;
            && at + |BlobOf(recs[i])| <= |Blob(recs)|
            && Blob(recs)[at..at + |BlobOf(recs[i])|] == BlobOf(recs[i])
            && Blob(recs[..i + 1]) == Blob(recs[..i]) + BlobOf(recs[i])
            && KeyTotal(recs[..i + 1]) == KeyTotal(recs[..i]) + |KeyList(recs[i])| <= KeyTotal(recs)
  {
    hide KeyRows, BlobOf, Blob, KeyTotal;
    BlobGrows(recs, i + 1);
    BlobPush(recs, i);
    PrefixTail(Blob(recs), Blob(recs[..i]), BlobOf(recs[i]));
  }

  lemma BlobPush(recs: seq<Record>, i: nat)
    requires i < |recs|
    ensures Blob(recs[..i + 1]) == Blob(recs[..i]) + BlobOf(recs[i])
    ensures KeyTotal(recs[..i + 1]) == KeyTotal(recs[..i]) + |KeyList(recs[i])|
  {
    hide BlobOf;
    assert recs[..i + 1][..i] == recs[..i];
  }

  lemma SizeWords(recs: seq<Record>, i: nat)
    requires Fits(recs) && i < |recs|
    ensures forall f | 0 <= f < 6 :: Word64(RowWords(recs[i], |Blob(recs[..i])|, KeyTotal(recs[..i]))[f])
    ensures CountWord(recs[i]) < NULL_FLAG || recs[i].keys.None?
  {
    hide Blob, KeyTotal, KeyBytes, GoodRecords;
    RecordPlace(recs, i);
  }

  /** Each accessor reads the part of the record that was stored. */
  lemma ViewReads(recs: seq<Record>, i: nat)
    requires Fits(recs) && i < |recs|
    ensures ViewOf(recs).ID(i) == recs[i].id
    ensures ViewOf(recs).Payload(i) == recs[i].payload
    ensures ViewOf(recs).KeysNull(i) <==> recs[i].keys.None?
    ensures ViewOf(recs).KeyCount(i) == |KeyList(recs[i])|
  {
    hide Blob, KeyTotal, Rows, KeyRows, KeyBytes, Fits, View.RowWord;
    SizeWords(recs, i);
    RecordPlace(recs, i);
    RowReads(recs, i, 0);
    RowReads(recs, i, 1);
    RowReads(recs, i, 3);
    RowReads(recs, i, 4);
    RowReads(recs, i, 5);
    var at, r := |Blob(recs[..i])|, recs[i];
    var ids, keys := |r.id|, |KeyBytes(KeyList(r))|;
    SliceSlice(Blob(recs), at, at + |BlobOf(r)|, 0, ids);
    SliceSlice(Blob(recs), at, at + |BlobOf(r)|, ids + keys, |BlobOf(r)|);
    RecordParts(r);
  }

  lemma RecordParts(r: Record)
    ensures var b, k := BlobOf(r), |r.id| + |KeyBytes(KeyList(r))|;
            && |b| == k + |r.payload|
            && b[0..|r.id|] == r.id && b[|r.id|..k] == KeyBytes(KeyList(r)) && b[k..|b|] == r.payload
  {
  }

  lemma KeyRowsPlace(recs: seq<Record>, i: nat)
    requires i < |recs|
    ensures var (k, c) := (KeyTotal(recs[..i]), |KeyList(recs[i])|);
            && k + c <= KeyTotal(recs)
            && KeyRows(recs)[16 * k..16 * (k + c)] == KeyRowsOf(KeyList(recs[i]), |Blob(recs[..i])| + |recs[i].id|)
  {
    hide KeyRowsOf, Blob, KeyTotal, KeyRows;
    RecordPlace(recs, i);
    BlobGrows(recs, i + 1);
    var front, r := recs[..i], recs[i];
    var tail := KeyRowsOf(KeyList(r), |Blob(front)| + |r.id|);
    KeyRowsPush(recs, i);
    PrefixTail(KeyRows(recs), KeyRows(front), tail);
  }

  lemma KeyRowsPush(recs: seq<Record>, i: nat)
    requires i < |recs|
    ensures KeyRows(recs[..i + 1]) == KeyRows(recs[..i]) + KeyRowsOf(KeyList(recs[i]), |Blob(recs[..i])| + |recs[i].id|)
  {
    hide KeyRowsOf, Blob, KeyTotal;
    assert recs[..i + 1][..i] == recs[..i];
  }

  lemma KeyWordsRead(recs: seq<Record>, i: nat, j: nat)
    requires Fits(recs) && i < |recs| && j < |KeyList(recs[i])|
    ensures var k := KeyTotal(recs[..i]) + j;
            && k < KeyTotal(recs)
            && ViewOf(recs).KeyWord(k, 0) == |Blob(recs[..i])| + |recs[i].id| + |KeyBytes(KeyList(recs[i])[..j])|
            && ViewOf(recs).KeyWord(k, 1) == |KeyList(recs[i])[j]|
  {
    hide Blob, KeyTotal, Rows, KeyRows, KeyBytes, KeyRowsOf, GoodRecords, Words, KeyList;
    RecordPlace(recs, i);
    KeyRowsPlace(recs, i);
    var r, keys := recs[i], KeyList(recs[i]);
    var at, k := |Blob(recs[..i])| + |r.id|, KeyTotal(recs[..i]);
    KeyRowAt(keys, at, j);
    SliceSlice(KeyRows(recs), 16 * k, 16 * (k + |keys|), 16 * j, 16 * j + 16);
    KeyPlace(r, j);
    KeyWords(KeyRows(recs), k + j, [at + |KeyBytes(keys[..j])|, |keys[j]|]);
  }

  lemma KeyReads(recs: seq<Record>, i: nat, j: nat)
    requires Fits(recs) && i < |recs| && j < |KeyList(recs[i])|
    ensures ViewOf(recs).Key(i, j) == KeyList(recs[i])[j]
  {
    hide Blob, KeyTotal, Rows, KeyRows, KeyBytes, View.RowWord, View.KeyWord, Fits, BlobOf;
    SizeWords(recs, i);
    RecordPlace(recs, i);
    RowReads(recs, i, 2);
    KeyWordsRead(recs, i, j);
    KeyPlace(recs[i], j);
    var x := |recs[i].id| + |KeyBytes(KeyList(recs[i])[..j])|;
    SliceSlice(Blob(recs), |Blob(recs[..i])|, |Blob(recs[..i])| + |BlobOf(recs[i])|, x, x + |KeyList(recs[i])[j]|);
  }

  /** A key's bytes within its record's. */
  lemma KeyPlace(r: Record, j: nat)
    requires j < |KeyList(r)|
    ensures var (keys, at) := (KeyList(r), |r.id| + |KeyBytes(KeyList(r)[..j])|);
            at + |keys[j]| <= |BlobOf(r)| && BlobOf(r)[at..at + |keys[j]|] == keys[j]
  {
    var keys := KeyList(r);
    KeyBytesGrow(keys, j + 1);
    assert keys[..j + 1][..j] == keys[..j];
    var x := |KeyBytes(keys[..j])|;
    BackSlice(KeyBytes(keys[..j]), keys[j]);
    SliceSlice(KeyBytes(keys), 0, x + |keys[j]|, x, x + |keys[j]|);
    assert KeyBytes(keys)[0..x + |keys[j]|] == KeyBytes(keys)[..x + |keys[j]|];
    RecordParts(r);
    SliceSlice(BlobOf(r), |r.id|, |r.id| + |KeyBytes(keys)|, x, x + |keys[j]|);
  }

  lemma KeyWords(rows: seq<byte>, k: nat, w: seq<nat>)
    requires |w| == 2 && Word64(w[0]) && Word64(w[1]) && 16 * k + 16 <= |rows|
    requires rows[16 * k..16 * k + 16] == Words(w)
    ensures LE(rows[16 * k..16 * k + 8]) == w[0] && LE(rows[16 * k + 8..16 * k + 16]) == w[1]
  {
    hide Words;
    WordsAt(w, 0);
    WordsAt(w, 1);
    SliceSlice(rows, 16 * k, 16 * k + 16, 0, 8);
    SliceSlice(rows, 16 * k, 16 * k + 16, 8, 16);
    WordIs(Word(w[0]), w[0]);
    WordIs(Word(w[1]), w[1]);
  }

  /** Parsing back gives every record: ID, keys (null apart from empty), payload. */
  lemma RoundTrip(recs: seq<Record>, i: nat)
    requires Fits(recs) && i < |recs|
    ensures ViewOf(recs).At(i) == recs[i]
  {
    hide View.ID, View.Key, View.Payload, View.KeysNull, View.KeyCount, Fits, Rows, KeyRows, Blob, KeyTotal;
    ViewReads(recs, i);
    forall j | 0 <= j < |KeyList(recs[i])| ensures ViewOf(recs).Key(i, j) == KeyList(recs[i])[j] {
      KeyReads(recs, i, j);
    }
    if recs[i].keys.Some? {
      assert seq(ViewOf(recs).KeyCount(i), (j: nat) => ViewOf(recs).Key(i, j)) == recs[i].keys.value;
    }
  }
}
