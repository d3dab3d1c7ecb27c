/** Checking the records section as the program does (engine/prepared/
    view.go:223-316): two counts cut it, then one cursor runs through rows, keys
    and blob. */
module RecordsCode {
  import opened Buffers
  import opened Bytes
  import opened Records
  import opened Options
  import JsonText

  // ---------------------------------------------------------------------- reading

  /** Reads an element count and checks that the elements fit. */
  method Count(b: seq<byte>, off: nat, elem: nat, reserve: nat) returns (ok: bool, n: nat)
    requires elem > 0
    ensures ok ==> off + 8 <= |b| && n == LE(b[off..off + 8]) <= MAX_U32 && off + 8 + elem * n + reserve <= |b|
    ensures !ok ==>
              || off + 8 > |b| || LE(b[off..off + 8]) > MAX_U32
              || off + 8 + elem * LE(b[off..off + 8]) + reserve > |b|
  {
    ok, n := false, 0;
    if off + 8 > |b| {
      return;
    }
    n := LE(b[off..off + 8]);
    var room := |b| - off - 8;
    if reserve > room {
      Products(elem, n, room - reserve);
      return;
    }
    Products(elem, n, room - reserve);
    if n > (room - reserve) / elem || n > MAX_U32 {
      return;
    }
    ok := true;
  }

  lemma Products(elem: nat, n: nat, room: int)
    requires elem > 0
    ensures elem * n >= 0
    ensures room >= 0 ==> (n > room / elem <==> elem * n > room)
  {
    if room >= 0 {
      var q := room / elem;
      assert elem * q <= room < elem * (q + 1);
      if n > q {
        assert elem * n >= elem * (q + 1);
      } else {
        assert elem * n <= elem * q;
      }
    }
  }

  /** The parts of a section that holds n records and nk keys. */
  ghost predicate Parts(b: seq<byte>, v: View) {
    && v.Shaped()
    && |b| == 16 + |v.rows| + |v.keyRows| + |v.blob|
    && b[8..8 + |v.rows|] == v.rows
    && b[16 + |v.rows|..16 + |v.rows| + |v.keyRows|] == v.keyRows
    && b[16 + |v.rows| + |v.keyRows|..] == v.blob
    && LE(b[0..8]) == v.n && LE(b[8 + |v.rows|..16 + |v.rows|]) == v.nk
  }

  /** Equal parts are equal sections. */
  lemma PartsEncode(b: seq<byte>, v: View, recs: seq<Record>)
    requires Parts(b, v) && v == ViewOf(recs)
    ensures b == Encode(recs)
  {
    hide Rows, KeyRows, Blob, KeyTotal, Word;
    var r, k := |v.rows|, |v.keyRows|;
    WordIs(b[0..8], v.n);
    WordIs(b[8 + r..16 + r], v.nk);
    FiveParts(b, 8, 8 + r, 16 + r, 16 + r + k);
  }

  lemma FiveParts(b: seq<byte>, i: nat, j: nat, k: nat, l: nat)
    requires i <= j <= k <= l <= |b|
    ensures b == b[0..i] + b[i..j] + b[j..k] + b[k..l] + b[l..]
  {
  }

  lemma EncodeParts(b: seq<byte>, recs: seq<Record>)
    requires b == Encode(recs) && Fits(recs)
    ensures Parts(b, ViewOf(recs)) && |b| == Size(recs)
  {
    hide Rows, KeyRows, Blob, KeyTotal, Word, GoodRecords;
    var v := ViewOf(recs);
    var a1 := Word(v.n) + v.rows;
    var a2 := a1 + Word(v.nk);
    var a3 := a2 + v.keyRows;
    BackSlice(a3, v.blob);
    BackSlice(a2, v.keyRows);
    BackSlice(a1, Word(v.nk));
    BackSlice(Word(v.n), v.rows);
    WordReads(v.n);
    WordReads(v.nk);
    assert b[0..8] == Word(v.n);
    assert b[8..8 + |v.rows|] == v.rows;
    assert b[8 + |v.rows|..16 + |v.rows|] == Word(v.nk);
    assert b[16 + |v.rows|..16 + |v.rows| + |v.keyRows|] == v.keyRows;
  }

  /** A section is split in one way. */
  lemma PartsUnique(b: seq<byte>, v: View, w: View)
    requires Parts(b, v) && Parts(b, w)
    ensures v == w
  {
  }

  ghost predicate IsEncoding(b: seq<byte>, recs: seq<Record>) {
    Fits(recs) && b == Encode(recs)
  }

  /** Splits a section by its two counts. */
  method SplitSection(b: seq<byte>) returns (ok: bool, v: View)
    ensures ok ==> Parts(b, v) && v.Shaped() && |v.blob| <= |b| && v.n <= MAX_U32 && v.nk <= MAX_U32
    ensures forall recs | IsEncoding(b, recs) :: ok && v == ViewOf(recs)
  {
    hide Parts, IsEncoding, ViewOf, KeyTotal, LE;
    var n, nk;
    ok, n, nk := Counts(b);
    v := View(0, 0, [], [], []);
    CountsOf(b);
    if ok {
      var rowsEnd := 8 + 48 * n;
      var keysEnd := rowsEnd + 8 + 16 * nk;
      v := View(n, nk, b[8..rowsEnd], b[rowsEnd + 8..keysEnd], b[keysEnd..]);
      SplitIsParts(b, v);
      PartsOf(b, v);
    }
  }

  /** Both counts, and the lengths they ask for. */
  method Counts(b: seq<byte>) returns (ok: bool, n: nat, nk: nat)
    ensures ok ==> SplitAt(b, n, nk)
    ensures !ok ==> forall m, mk: nat :: !SplitAt(b, m, mk)
  {
    hide LE;
    nk := 0;
    ok, n := Count(b, 0, 48, 8);
    if ok {
      ok, nk := Count(b, 8 + 48 * n, 16, 0);
    }
  }

  lemma CountsOf(b: seq<byte>)
    ensures forall recs | IsEncoding(b, recs) :: SplitAt(b, |recs|, KeyTotal(recs))
  {
    hide Encode, Fits, LE, KeyTotal;
    forall recs | IsEncoding(b, recs) ensures SplitAt(b, |recs|, KeyTotal(recs)) {
      SectionCounts(b, recs);
    }
  }

  lemma PartsOf(b: seq<byte>, v: View)
    requires Parts(b, v)
    ensures forall recs | IsEncoding(b, recs) :: v == ViewOf(recs)
  {
    hide Encode, Fits, Parts, ViewOf;
    forall recs | IsEncoding(b, recs) ensures v == ViewOf(recs) {
      EncodeParts(b, recs);
      PartsUnique(b, v, ViewOf(recs));
    }
  }

  /** The two counts a section of n records and nk keys holds. */
  predicate SplitAt(b: seq<byte>, n: nat, nk: nat) {
    && n <= MAX_U32 && nk <= MAX_U32 && 16 + 48 * n + 16 * nk <= |b|
    && LE(b[0..8]) == n && LE(b[8 + 48 * n..16 + 48 * n]) == nk
  }

  lemma SplitIsParts(b: seq<byte>, v: View)
    requires 16 + 48 * v.n + 16 * v.nk <= |b|
    requires v.n == LE(b[0..8]) && v.nk == LE(b[8 + 48 * v.n..16 + 48 * v.n])
    requires v.rows == b[8..8 + 48 * v.n] && v.keyRows == b[16 + 48 * v.n..16 + 48 * v.n + 16 * v.nk]
    requires v.blob == b[16 + 48 * v.n + 16 * v.nk..]
    ensures Parts(b, v) && v.Shaped() && |v.blob| <= |b|
  {
  }

  lemma PartsCounts(b: seq<byte>, v: View)
    requires Parts(b, v)
    ensures v.Shaped() && 16 + 48 * v.n + 16 * v.nk <= |b|
    ensures LE(b[0..8]) == v.n && LE(b[8 + 48 * v.n..16 + 48 * v.n]) == v.nk
  {
    hide LE;
  }

  lemma SectionCounts(b: seq<byte>, recs: seq<Record>)
    requires b == Encode(recs) && Fits(recs)
    ensures 16 + 48 * |recs| <= |b| && LE(b[0..8]) == |recs| <= MAX_U32
    ensures LE(b[8 + 48 * |recs|..16 + 48 * |recs|]) == KeyTotal(recs) <= MAX_U32
    ensures 16 + 48 * |recs| + 16 * KeyTotal(recs) <= |b|
  {
    hide Rows, KeyRows, Blob, KeyTotal, Encode, GoodRecords, Parts, LE, Size, Word;
    EncodeParts(b, recs);
    PartsCounts(b, ViewOf(recs));
  }

  /** The cursor's check of one string: right at the cursor, in bounds, and
      valid UTF-8 unless it is a payload. */
  predicate Takes(v: View, cur: nat, off: nat, len: nat, text: bool) {
    off == cur && cur + len <= |v.blob| && (text ==> JsonText.Utf8(v.blob[cur..cur + len]))
  }

  ghost predicate KeysAt(v: View, k: nat, at: nat, keys: seq<seq<byte>>) {
    && 16 * (k + |keys|) <= |v.keyRows| && at + |KeyBytes(keys)| <= |v.blob|
    && v.keyRows[16 * k..16 * (k + |keys|)] == KeyRowsOf(keys, at)
    && v.blob[at..at + |KeyBytes(keys)|] == KeyBytes(keys)
    && forall j | 0 <= j < |keys| :: JsonText.Utf8(keys[j])
  }

  /** Some count keys are there, and end at cur. */
  ghost predicate KeysEnd(v: View, k: nat, count: nat, at: nat, keys: seq<seq<byte>>, cur: nat) {
    |keys| == count && KeysAt(v, k, at, keys) && cur == at + |KeyBytes(keys)|
  }

  /** Reads a record's keys through the cursor, if keys are there. */
  method ParseKeys(v: View, k: nat, count: nat, at: nat) returns (ok: bool, cur: nat)
    requires v.Shaped() && k + count <= v.nk && at <= |v.blob| <= MAX_INT
    ensures ok <==> exists keys :: |keys| == count && KeysAt(v, k, at, keys)
    ensures ok ==> exists keys :: KeysEnd(v, k, count, at, keys, cur)
  {
    hide KeysAt, KeyBytes, KeyRowsOf, View.KeyWord, JsonText.Utf8;
    ok, cur := true, at;
    ghost var w: Option<seq<seq<byte>>> := None;
    if exists x :: |x| == count && KeysAt(v, k, at, x) {
      ghost var x :| |x| == count && KeysAt(v, k, at, x);
      w := Some(x);
    }
    ghost var keys: seq<seq<byte>> := [];
    NoKeys(v, k, at);
    for j := 0 to count
      invariant |keys| == j && KeysAt(v, k, at, keys) && cur == at + |KeyBytes(keys)|
      invariant w.Some? ==> keys == w.value[..j]
    {
      if w.Some? {
        WitnessKey(v, k, at, w.value, j);
      }
      var off, len := v.KeyWord(k + j, 0), v.KeyWord(k + j, 1);
      if !Takes(v, cur, off, len, true) {
        return false, cur;
      }
      KeyPush(v, k, at, keys, v.blob[cur..cur + len]);
      keys := keys + [v.blob[cur..cur + len]];
      if w.Some? {
        assert w.value[..j + 1] == w.value[..j] + [w.value[j]];
      }
      cur := cur + len;
    }
    assert KeysEnd(v, k, count, at, keys, cur);
  }

  /** The rows and the blob leave no choice of keys. */
  lemma {:induction false} KeysSame(v: View, k: nat, at: nat, x: seq<seq<byte>>, y: seq<seq<byte>>, j: nat)
    requires v.Shaped() && KeysAt(v, k, at, x) && KeysAt(v, k, at, y)
    requires j <= |x| == |y| && k + |x| <= v.nk && |v.blob| <= MAX_INT
    ensures x[..j] == y[..j]
    decreases j
  {
    hide KeysAt, KeyBytes, View.KeyWord, JsonText.Utf8;
    if j > 0 {
      KeysSame(v, k, at, x, y, j - 1);
      WitnessKey(v, k, at, x, j - 1);
      WitnessKey(v, k, at, y, j - 1);
      assert x[..j] == x[..j - 1] + [x[j - 1]] && y[..j] == y[..j - 1] + [y[j - 1]];
    }
  }

  lemma NoKeys(v: View, k: nat, at: nat)
    requires v.Shaped() && k <= v.nk && at <= |v.blob|
    ensures KeysAt(v, k, at, []) && |KeyBytes([])| == 0
  {
  }

  lemma KeyRowIs(v: View, k: nat)
    requires v.Shaped() && k < v.nk
    ensures v.keyRows[16 * k..16 * k + 16] == Words([v.KeyWord(k, 0), v.KeyWord(k, 1)])
  {
    hide Words;
    var row, w := v.keyRows[16 * k..16 * k + 16], [v.KeyWord(k, 0), v.KeyWord(k, 1)];
    SliceSlice(v.keyRows, 16 * k, 16 * k + 16, 0, 8);
    SliceSlice(v.keyRows, 16 * k, 16 * k + 16, 8, 16);
    assert forall f | 0 <= f < 2 :: LE(row[8 * f..8 * f + 8]) == w[f];
    WordsFrom(row, w);
  }

  lemma KeyRowsOfPush(keys: seq<seq<byte>>, x: seq<byte>, at: nat)
    ensures KeyRowsOf(keys + [x], at) == KeyRowsOf(keys, at) + Words([at + |KeyBytes(keys)|, |x|])
    ensures KeyBytes(keys + [x]) == KeyBytes(keys) + x
  {
    assert (keys + [x])[..|keys|] == keys;
  }

  lemma KeyPushRows(v: View, k: nat, at: nat, keys: seq<seq<byte>>, x: seq<byte>)
    requires v.Shaped() && k + |keys| < v.nk
    requires v.keyRows[16 * k..16 * (k + |keys|)] == KeyRowsOf(keys, at)
    requires v.KeyWord(k + |keys|, 0) == at + |KeyBytes(keys)| && v.KeyWord(k + |keys|, 1) == |x|
    ensures v.keyRows[16 * k..16 * (k + |keys| + 1)] == KeyRowsOf(keys + [x], at)
  {
    hide Words, KeyBytes, KeyRowsOf, View.KeyWord;
    KeyRowIs(v, k + |keys|);
    KeyRowsOfPush(keys, x, at);
    Joined(v.keyRows, 16 * k, 16 * (k + |keys|), 16 * (k + |keys| + 1));
  }

  lemma KeyPushBlob(blob: seq<byte>, at: nat, keys: seq<seq<byte>>, x: seq<byte>)
    requires at + |KeyBytes(keys)| + |x| <= |blob| && blob[at..at + |KeyBytes(keys)|] == KeyBytes(keys)
    requires blob[at + |KeyBytes(keys)|..at + |KeyBytes(keys)| + |x|] == x
    ensures |KeyBytes(keys + [x])| == |KeyBytes(keys)| + |x|
    ensures blob[at..at + |KeyBytes(keys + [x])|] == KeyBytes(keys + [x])
  {
    hide KeyBytes;
    KeyRowsOfPush(keys, x, at);
    Joined(blob, at, at + |KeyBytes(keys)|, at + |KeyBytes(keys)| + |x|);
  }

  lemma KeyPush(v: View, k: nat, at: nat, keys: seq<seq<byte>>, x: seq<byte>)
    requires v.Shaped() && KeysAt(v, k, at, keys) && k + |keys| < v.nk
    requires v.KeyWord(k + |keys|, 0) == at + |KeyBytes(keys)| && v.KeyWord(k + |keys|, 1) == |x|
    requires at + |KeyBytes(keys)| + |x| <= |v.blob| && JsonText.Utf8(x)
    requires v.blob[at + |KeyBytes(keys)|..at + |KeyBytes(keys)| + |x|] == x
    ensures KeysAt(v, k, at, keys + [x]) && |KeyBytes(keys + [x])| == |KeyBytes(keys)| + |x|
  {
    hide KeyBytes, KeyRowsOf, View.KeyWord, JsonText.Utf8;
    KeyPushRows(v, k, at, keys, x);
    KeyPushBlob(v.blob, at, keys, x);
    assert |keys + [x]| == |keys| + 1;
  }

  /** Key j of the witness is where the cursor is. */
  lemma WitnessKey(v: View, k: nat, at: nat, w: seq<seq<byte>>, j: nat)
    requires v.Shaped() && KeysAt(v, k, at, w) && j < |w| && k + |w| <= v.nk && |v.blob| <= MAX_INT
    ensures v.KeyWord(k + j, 0) == at + |KeyBytes(w[..j])| && v.KeyWord(k + j, 1) == |w[j]|
    ensures Takes(v, at + |KeyBytes(w[..j])|, at + |KeyBytes(w[..j])|, |w[j]|, true)
    ensures v.blob[at + |KeyBytes(w[..j])|..at + |KeyBytes(w[..j])| + |w[j]|] == w[j]
  {
    hide Words, KeyRowsOf, KeyBytes, JsonText.Utf8;
    KeyInBytes(w, j);
    WitnessWords(v, k, at, w, j);
    var x := |KeyBytes(w[..j])|;
    SliceSlice(v.blob, at, at + |KeyBytes(w)|, x, x + |w[j]|);
  }

  lemma WitnessWords(v: View, k: nat, at: nat, w: seq<seq<byte>>, j: nat)
    requires v.Shaped() && KeysAt(v, k, at, w) && j < |w| && k + |w| <= v.nk && |v.blob| <= MAX_INT
    requires at + |KeyBytes(w[..j])| + |w[j]| <= |v.blob|
    ensures v.KeyWord(k + j, 0) == at + |KeyBytes(w[..j])| && v.KeyWord(k + j, 1) == |w[j]|
  {
    hide Words, KeyRowsOf, KeyBytes, JsonText.Utf8;
    KeyRowAt(w, at, j);
    SliceSlice(v.keyRows, 16 * k, 16 * (k + |w|), 16 * j, 16 * j + 16);
    KeyWords(v.keyRows, k + j, [at + |KeyBytes(w[..j])|, |w[j]|]);
  }

  lemma KeyInBytes(keys: seq<seq<byte>>, j: nat)
    requires j < |keys|
    ensures var x := |KeyBytes(keys[..j])|;
            x + |keys[j]| <= |KeyBytes(keys)| && KeyBytes(keys)[x..x + |keys[j]|] == keys[j]
  {
    KeyBytesGrow(keys, j + 1);
    assert keys[..j + 1][..j] == keys[..j];
    PrefixTail(KeyBytes(keys), KeyBytes(keys[..j]), keys[j]);
  }

  // ------------------------------------------------------------------------- rows

  ghost predicate RowIs(v: View, i: nat, w: seq<nat>)
    requires v.Shaped() && |w| == 6
  {
    i < v.n && forall f | 0 <= f < 6 :: v.RowWord(i, f) == w[f]
  }

  /** Row i holds r, its bytes starting at and its keys at k. */
  ghost predicate NextIs(v: View, i: nat, at: nat, k: nat, r: Record)
    requires v.Shaped()
  {
    && RowIs(v, i, RowWords(r, at, k))
    && StandsAt(v.blob, at, BlobOf(r))
    && k + |KeyList(r)| <= v.nk
    && KeysAt(v, k, at + |r.id|, KeyList(r))
    && GoodRecord(r)
  }

  lemma PartsStand(blob: seq<byte>, at: nat, r: Record)
    ensures StandsAt(blob, at, BlobOf(r)) <==>
            && StandsAt(blob, at, r.id)
            && StandsAt(blob, at + |r.id|, KeyBytes(KeyList(r)))
            && StandsAt(blob, at + |r.id| + |KeyBytes(KeyList(r))|, r.payload)
  {
    hide KeyBytes;
    var i, k := |r.id|, |r.id| + |KeyBytes(KeyList(r))|;
    RecordParts(r);
    if StandsAt(blob, at, BlobOf(r)) {
      SliceSlice(blob, at, at + |BlobOf(r)|, 0, i);
      SliceSlice(blob, at, at + |BlobOf(r)|, i, k);
      SliceSlice(blob, at, at + |BlobOf(r)|, k, k + |r.payload|);
    } else if && StandsAt(blob, at, r.id) && StandsAt(blob, at + i, KeyBytes(KeyList(r)))
              && StandsAt(blob, at + k, r.payload) {
      Joined(blob, at, at + i, at + k);
      Joined(blob, at, at + k, at + k + |r.payload|);
    }
  }

  /** The record of row i ends at cur, its keys at kEnd. */
  ghost predicate RowEnd(v: View, i: nat, at: nat, k: nat, r: Record, cur: nat, kEnd: nat)
    requires v.Shaped()
  {
    NextIs(v, i, at, k, r) && cur == at + |BlobOf(r)| && kEnd == k + |KeyList(r)|
  }

  /** Checks one row against the cursor. */
  method ParseRow(v: View, i: nat, at: nat, k: nat) returns (ok: bool, cur: nat, kEnd: nat)
    requires v.Shaped() && i < v.n && at <= |v.blob| <= MAX_INT && k <= v.nk <= MAX_U32
    ensures ok <==> exists r :: NextIs(v, i, at, k, r)
    ensures ok ==> exists r :: RowEnd(v, i, at, k, r, cur, kEnd)
  {
    hide KeysAt, KeyBytes, View.RowWord, BlobOf, NextIs, JsonText.Utf8, KeyRowsOf;
    ok, cur, kEnd := false, at, k;
    forall w | NextIs(v, i, at, k, w) ensures RowShows(v, i, at, k, w) {
      WitnessRow(v, i, at, k, w);
    }
    var idLen := v.RowWord(i, 1);
    if idLen == 0 || !Takes(v, at, v.RowWord(i, 0), idLen, true) {
      return;
    }
    cur := at + idLen;
    var ks, kc := v.RowWord(i, 2), v.RowWord(i, 3);
    if kc >= NULL_FLAG && kc != NULL_FLAG {
      return;
    }
    var count := if kc >= NULL_FLAG then kc - NULL_FLAG else kc;
    if ks != k || count > v.nk - k {
      return;
    }
    var found;
    found, cur := ParseKeys(v, k, count, cur);
    if !found {
      return;
    }
    ghost var keys :| KeysEnd(v, k, count, at + idLen, keys, cur);
    OneKeyList(v, i, at, k, keys);
    if !Takes(v, cur, v.RowWord(i, 4), v.RowWord(i, 5), false) {
      return;
    }
    ok := true;
    ghost var r := Record(v.blob[at..at + idLen], if kc == NULL_FLAG then None else Some(keys),
                          v.blob[cur..cur + v.RowWord(i, 5)]);
    RowDone(v, i, at, k, r, keys);
    cur, kEnd := cur + v.RowWord(i, 5), k + count;
    assert RowEnd(v, i, at, k, r, cur, kEnd);
  }

  /** Whatever record the row is of has the keys that were read. */
  lemma OneKeyList(v: View, i: nat, at: nat, k: nat, keys: seq<seq<byte>>)
    requires v.Shaped() && i < v.n && |v.blob| <= MAX_INT && k + |keys| <= v.nk <= MAX_U32
    requires KeysAt(v, k, at + v.RowWord(i, 1), keys)
    requires |keys| == if v.RowWord(i, 3) >= NULL_FLAG then v.RowWord(i, 3) - NULL_FLAG else v.RowWord(i, 3)
    ensures forall w | NextIs(v, i, at, k, w) :: KeyList(w) == keys
  {
    hide KeysAt, KeyBytes, View.RowWord, BlobOf, NextIs, JsonText.Utf8, KeyRowsOf;
    forall w | NextIs(v, i, at, k, w) ensures KeyList(w) == keys {
      WitnessRow(v, i, at, k, w);
      KeysSame(v, k, at + v.RowWord(i, 1), keys, KeyList(w), |keys|);
      assert keys[..|keys|] == keys && KeyList(w)[..|keys|] == KeyList(w);
    }
  }

  /** The record read is the row's. */
  lemma RowDone(v: View, i: nat, at: nat, k: nat, r: Record, keys: seq<seq<byte>>)
    requires v.Shaped() && i < v.n && r.id != [] && JsonText.Utf8(r.id) && k + |keys| <= v.nk
    requires (r.keys == None && keys == []) || r.keys == Some(keys)
    requires v.RowWord(i, 0) == at && v.RowWord(i, 1) == |r.id| && StandsAt(v.blob, at, r.id)
    requires v.RowWord(i, 2) == k && v.RowWord(i, 3) == CountWord(r) && KeysAt(v, k, at + |r.id|, keys)
    requires v.RowWord(i, 4) == at + |r.id| + |KeyBytes(keys)| && v.RowWord(i, 5) == |r.payload|
    requires StandsAt(v.blob, v.RowWord(i, 4), r.payload)
    ensures NextIs(v, i, at, k, r) && |BlobOf(r)| == |r.id| + |KeyBytes(keys)| + |r.payload| && KeyList(r) == keys
  {
    hide KeysAt, KeyBytes, View.RowWord, BlobOf, NextIs, JsonText.Utf8, KeyRowsOf, StandsAt;
    RowIsNext(v, i, at, k, r);
    RecordParts(r);
  }

  /** What row i and the blob show of r. */
  ghost predicate RowShows(v: View, i: nat, at: nat, k: nat, r: Record)
    requires v.Shaped() && i < v.n
  {
    && v.RowWord(i, 0) == at && v.RowWord(i, 1) == |r.id| > 0 && StandsAt(v.blob, at, r.id)
    && v.RowWord(i, 2) == k && v.RowWord(i, 3) == CountWord(r) && k + |KeyList(r)| <= v.nk
    && v.RowWord(i, 4) == at + |r.id| + |KeyBytes(KeyList(r))| && v.RowWord(i, 5) == |r.payload|
    && StandsAt(v.blob, v.RowWord(i, 4), r.payload) && JsonText.Utf8(r.id)
    && KeysAt(v, k, at + |r.id|, KeyList(r))
  }

  /** A row has one record. */
  lemma NextUnique(v: View, i: nat, at: nat, k: nat, r: Record, s: Record)
    requires v.Shaped() && NextIs(v, i, at, k, r) && NextIs(v, i, at, k, s)
    requires v.nk <= MAX_U32 && |v.blob| <= MAX_INT
    ensures r == s
  {
    hide KeysAt, KeyBytes, View.RowWord, NextIs, JsonText.Utf8;
    WitnessRow(v, i, at, k, r);
    WitnessRow(v, i, at, k, s);
    KeysSame(v, k, at + |r.id|, KeyList(r), KeyList(s), |KeyList(r)|);
    assert KeyList(r)[..|KeyList(r)|] == KeyList(r) && KeyList(s)[..|KeyList(s)|] == KeyList(s);
  }

  lemma RowIsNext(v: View, i: nat, at: nat, k: nat, r: Record)
    requires v.Shaped() && i < v.n && r.id != [] && JsonText.Utf8(r.id)
    requires v.RowWord(i, 0) == at && v.RowWord(i, 1) == |r.id| && StandsAt(v.blob, at, r.id)
    requires v.RowWord(i, 2) == k && v.RowWord(i, 3) == CountWord(r) && k + |KeyList(r)| <= v.nk
    requires KeysAt(v, k, at + |r.id|, KeyList(r))
    requires v.RowWord(i, 4) == at + |r.id| + |KeyBytes(KeyList(r))| && v.RowWord(i, 5) == |r.payload|
    requires StandsAt(v.blob, v.RowWord(i, 4), r.payload)
    ensures NextIs(v, i, at, k, r)
  {
    hide KeyBytes, View.RowWord, BlobOf, JsonText.Utf8, KeyRowsOf;
    KeysStand(v, k, at + |r.id|, KeyList(r));
    PartsStand(v.blob, at, r);
  }

  lemma KeysStand(v: View, k: nat, at: nat, keys: seq<seq<byte>>)
    requires KeysAt(v, k, at, keys)
    ensures StandsAt(v.blob, at, KeyBytes(keys)) && forall j | 0 <= j < |keys| :: JsonText.Utf8(keys[j])
  {
    hide KeyBytes, KeyRowsOf, JsonText.Utf8;
  }

  lemma WitnessRow(v: View, i: nat, at: nat, k: nat, r: Record)
    requires v.Shaped() && NextIs(v, i, at, k, r) && v.nk <= MAX_U32
    ensures i < v.n && RowShows(v, i, at, k, r)
  {
    hide KeyBytes, View.RowWord, BlobOf, JsonText.Utf8, KeysAt, StandsAt;
    PartsStand(v.blob, at, r);
    var w := RowWords(r, at, k);
    assert v.RowWord(i, 0) == w[0] && v.RowWord(i, 1) == w[1] && v.RowWord(i, 2) == w[2];
    assert v.RowWord(i, 3) == w[3] && v.RowWord(i, 4) == w[4] && v.RowWord(i, 5) == w[5];
  }

  // ---------------------------------------------------------------------- records

  /** The records read so far fill the front of every part. */
  ghost predicate RecsAt(v: View, recs: seq<Record>) {
    && StandsAt(v.rows, 0, Rows(recs))
    && StandsAt(v.keyRows, 0, KeyRows(recs))
    && StandsAt(v.blob, 0, Blob(recs))
    && GoodRecords(recs)
  }

  lemma RowStands(v: View, i: nat, w: seq<nat>)
    requires v.Shaped() && |w| == 6 && RowIs(v, i, w)
    ensures StandsAt(v.rows, 48 * i, Words(w))
  {
    hide Words;
    var row := v.rows[48 * i..48 * i + 48];
    forall f | 0 <= f < 6 ensures LE(row[8 * f..8 * f + 8]) == w[f] {
      SliceSlice(v.rows, 48 * i, 48 * i + 48, 8 * f, 8 * f + 8);
      assert v.RowWord(i, f) == w[f];
    }
    WordsFrom(row, w);
  }

  lemma PushParts(recs: seq<Record>, r: Record)
    ensures var all := recs + [r];
            && Rows(all) == Rows(recs) + Words(RowWords(r, |Blob(recs)|, KeyTotal(recs)))
            && KeyRows(all) == KeyRows(recs) + KeyRowsOf(KeyList(r), |Blob(recs)| + |r.id|)
            && Blob(all) == Blob(recs) + BlobOf(r)
            && KeyTotal(all) == KeyTotal(recs) + |KeyList(r)|
  {
    hide Words, RowWords, KeyRowsOf, BlobOf, Rows, KeyRows, Blob, KeyTotal;
    var all := recs + [r];
    assert all[..|recs|] == recs && all[..|recs| + 1] == all;
    RowsPush(all);
    KeyRowsPush(all, |recs|);
    BlobPush(all, |recs|);
  }

  lemma PushRecord(v: View, recs: seq<Record>, r: Record)
    requires v.Shaped() && RecsAt(v, recs) && NextIs(v, |recs|, |Blob(recs)|, KeyTotal(recs), r)
    ensures RecsAt(v, recs + [r])
  {
    hide Words, RowWords, KeyRowsOf, BlobOf, Rows, KeyRows, Blob, KeyTotal, KeyBytes, StandsAt, RowIs, KeysAt;
    PushParts(recs, r);
    var w := RowWords(r, |Blob(recs)|, KeyTotal(recs));
    RowStands(v, |recs|, w);
    StandsJoin(v.rows, 0, Rows(recs), Words(w));
    KeyRowsStand(v, KeyTotal(recs), |Blob(recs)| + |r.id|, KeyList(r));
    StandsJoin(v.keyRows, 0, KeyRows(recs), KeyRowsOf(KeyList(r), |Blob(recs)| + |r.id|));
    StandsJoin(v.blob, 0, Blob(recs), BlobOf(r));
  }

  lemma KeyRowsStand(v: View, k: nat, at: nat, keys: seq<seq<byte>>)
    requires KeysAt(v, k, at, keys)
    ensures StandsAt(v.keyRows, 16 * k, KeyRowsOf(keys, at))
  {
    hide KeyBytes;
  }

  /** Of an encoding's parts, row i holds record i. */
  lemma WitnessNext(w: seq<Record>, i: nat)
    requires Fits(w) && i < |w|
    ensures NextIs(ViewOf(w), i, |Blob(w[..i])|, KeyTotal(w[..i]), w[i])
  {
    hide Words, RowWords, KeyRowsOf, BlobOf, Rows, KeyRows, Blob, KeyTotal, KeyBytes, View.RowWord, JsonText.Utf8;
    SizeWords(w, i);
    forall f | 0 <= f < 6 ensures ViewOf(w).RowWord(i, f) == RowWords(w[i], |Blob(w[..i])|, KeyTotal(w[..i]))[f] {
      RowReads(w, i, f);
    }
    RecordPlace(w, i);
    KeyRowsPlace(w, i);
    PartsStand(ViewOf(w).blob, |Blob(w[..i])|, w[i]);
  }

  lemma WholeIsView(b: seq<byte>, v: View, recs: seq<Record>)
    requires Parts(b, v) && RecsAt(v, recs) && |b| <= MAX_INT && v.n <= MAX_U32 && v.nk <= MAX_U32
    requires |recs| == v.n && KeyTotal(recs) == v.nk && |Blob(recs)| == |v.blob|
    ensures IsEncoding(b, recs) && v == ViewOf(recs)
  {
    hide Rows, KeyRows, Blob, KeyTotal, GoodRecords, Encode;
    assert v == ViewOf(recs);
    PartsEncode(b, v, recs);
  }

  lemma NoRecs(v: View)
    ensures RecsAt(v, []) && Blob([]) == [] && KeyTotal([]) == 0
  {
  }

  lemma RecsFit(v: View, recs: seq<Record>)
    requires v.Shaped() && RecsAt(v, recs)
    ensures |Blob(recs)| <= |v.blob| && KeyTotal(recs) <= v.nk
  {
    hide Blob, KeyTotal, Rows, KeyRows;
  }

  ghost predicate Encodes(b: seq<byte>) {
    exists recs :: IsEncoding(b, recs)
  }

  /** Accepts exactly the encodings of records that fit, and then serves those
      records: no other bytes are read, none are left unread. */
  method ParseRecords(b: seq<byte>) returns (ok: bool, v: View)
    requires |b| <= MAX_INT
    ensures ok <==> Encodes(b)
    ensures ok ==> exists recs :: IsEncoding(b, recs) && v == ViewOf(recs)
  {
    hide Rows, KeyRows, Blob, KeyTotal, Parts, Encode, RecsAt, NextIs, GoodRecords, BlobOf;
    ghost var w: Option<seq<Record>> := None;
    if Encodes(b) {
      ghost var x :| IsEncoding(b, x);
      w := Some(x);
    }
    ok, v := SplitSection(b);
    if !ok {
      return;
    }
    NoRecs(v);
    ghost var recs: seq<Record> := [];
    var cur, kIdx := 0, 0;
    for i := 0 to v.n
      invariant |recs| == i && RecsAt(v, recs) && cur == |Blob(recs)| <= |v.blob| && kIdx == KeyTotal(recs) <= v.nk
      invariant w.Some? ==> recs == w.value[..i]
    {
      if w.Some? {
        WitnessNext(w.value, i);
      }
      ghost var at, k := cur, kIdx;
      ok, cur, kIdx := ParseRow(v, i, cur, kIdx);
      if !ok {
        return;
      }
      ghost var r :| RowEnd(v, i, at, k, r, cur, kIdx);
      if w.Some? {
        NextUnique(v, i, at, k, r, w.value[i]);
        assert w.value[..i + 1] == w.value[..i] + [w.value[i]];
      }
      PushRecord(v, recs, r);
      PushParts(recs, r);
      recs := recs + [r];
      RecsFit(v, recs);
    }
    if w.Some? {
      assert w.value[..v.n] == w.value;
    }
    ok := kIdx == v.nk && cur == |v.blob|;
    if ok {
      WholeIsView(b, v, recs);
    }
  }

  /** The bytes determine the records. */
  lemma EncodingIsUnique(b: seq<byte>, x: seq<Record>, y: seq<Record>)
    requires IsEncoding(b, x) && IsEncoding(b, y)
    ensures x == y
  {
    hide Rows, KeyRows, Blob, KeyTotal, Parts, Encode, GoodRecords, View.At;
    EncodeParts(b, x);
    EncodeParts(b, y);
    PartsUnique(b, ViewOf(x), ViewOf(y));
    forall i | 0 <= i < |x| ensures x[i] == y[i] {
      RoundTrip(x, i);
      RoundTrip(y, i);
    }
  }
}
