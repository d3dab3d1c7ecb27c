/** Writing the records section (engine/prepared/encode.go:266-347): sizes
    first, then rows, key rows and blob into one preallocated buffer, each at
    its own moving offset. */
module RecordsWrite {
  import opened Buffers
  import opened BaseLine
  import opened Bytes
  import opened Records
  import opened RecordsCode
  import opened Options
  import JsonText
  import opened JsonGrammar

  /** What has been written: the two counts, and R, K and B in the three regions. */
  ghost predicate Filled(s: seq<byte>, n: nat, nk: nat, R: seq<byte>, K: seq<byte>, B: seq<byte>) {
    && |R| <= 48 * n && |K| <= 16 * nk && 16 + 48 * n + 16 * nk + |B| <= |s|
    && StandsAt(s, 0, Word(n)) && StandsAt(s, 8, R)
    && StandsAt(s, 8 + 48 * n, Word(nk)) && StandsAt(s, 16 + 48 * n, K)
    && StandsAt(s, 16 + 48 * n + 16 * nk, B)
  }

  lemma FillRow(s: seq<byte>, n: nat, nk: nat, R: seq<byte>, K: seq<byte>, B: seq<byte>, x: seq<byte>)
    requires Filled(s, n, nk, R, K, B) && |R| + |x| <= 48 * n
    ensures 8 + |R| + |x| <= |s| && Filled(Patch(s, 8 + |R|, x), n, nk, R + x, K, B)
  {
    hide StandsAt, Patch, Word;
    PatchStands(s, 8 + |R|, x);
    PatchKeeps(s, 8 + |R|, x, 0, Word(n));
    PatchKeeps(s, 8 + |R|, x, 8, R);
    PatchKeeps(s, 8 + |R|, x, 8 + 48 * n, Word(nk));
    PatchKeeps(s, 8 + |R|, x, 16 + 48 * n, K);
    PatchKeeps(s, 8 + |R|, x, 16 + 48 * n + 16 * nk, B);
    StandsJoin(Patch(s, 8 + |R|, x), 8, R, x);
  }

  lemma FillKey(s: seq<byte>, n: nat, nk: nat, R: seq<byte>, K: seq<byte>, B: seq<byte>, x: seq<byte>)
    requires Filled(s, n, nk, R, K, B) && |K| + |x| <= 16 * nk
    ensures 16 + 48 * n + |K| + |x| <= |s| && Filled(Patch(s, 16 + 48 * n + |K|, x), n, nk, R, K + x, B)
  {
    hide StandsAt, Patch, Word;
    var at := 16 + 48 * n + |K|;
    PatchStands(s, at, x);
    PatchKeeps(s, at, x, 0, Word(n));
    PatchKeeps(s, at, x, 8, R);
    PatchKeeps(s, at, x, 8 + 48 * n, Word(nk));
    PatchKeeps(s, at, x, 16 + 48 * n, K);
    PatchKeeps(s, at, x, 16 + 48 * n + 16 * nk, B);
    StandsJoin(Patch(s, at, x), 16 + 48 * n, K, x);
  }

  lemma FillBlob(s: seq<byte>, n: nat, nk: nat, R: seq<byte>, K: seq<byte>, B: seq<byte>, x: seq<byte>)
    requires Filled(s, n, nk, R, K, B) && 16 + 48 * n + 16 * nk + |B| + |x| <= |s|
    ensures Filled(Patch(s, 16 + 48 * n + 16 * nk + |B|, x), n, nk, R, K, B + x)
  {
    hide StandsAt, Patch, Word;
    var at := 16 + 48 * n + 16 * nk + |B|;
    PatchStands(s, at, x);
    PatchKeeps(s, at, x, 0, Word(n));
    PatchKeeps(s, at, x, 8, R);
    PatchKeeps(s, at, x, 8 + 48 * n, Word(nk));
    PatchKeeps(s, at, x, 16 + 48 * n, K);
    PatchKeeps(s, at, x, 16 + 48 * n + 16 * nk, B);
    StandsJoin(Patch(s, at, x), 16 + 48 * n + 16 * nk, B, x);
  }

  // ---------------------------------------------------------------------- writing

  /** Where the three regions stand while records are written. */
  datatype Sheet = Sheet(n: nat, nk: nat, rows: seq<byte>, keyRows: seq<byte>, blob: seq<byte>)

  ghost predicate Holds(s: seq<byte>, t: Sheet) {
    Filled(s, t.n, t.nk, t.rows, t.keyRows, t.blob)
  }

  method PutRowWord(sec: array<byte>, n: nat, at: nat, v: nat, ghost t: Sheet) returns (ghost u: Sheet)
    requires Holds(sec[..], t) && n == t.n && at == |t.rows| && at + 8 <= 48 * n
    modifies sec
    ensures u == t.(rows := t.rows + Word(v)) && Holds(sec[..], u)
  {
    hide Patch, StandsAt;
    FillRow(sec[..], t.n, t.nk, t.rows, t.keyRows, t.blob, Word(v));
    Copy(sec, 8 + at, Word(v));
    u := t.(rows := t.rows + Word(v));
  }

  method PutKeyRow(sec: array<byte>, n: nat, k: nat, a: nat, len: nat, ghost t: Sheet) returns (ghost u: Sheet)
    requires Holds(sec[..], t) && n == t.n && 16 * k == |t.keyRows| && k < t.nk
    modifies sec
    ensures u == t.(keyRows := t.keyRows + Words([a, len])) && Holds(sec[..], u)
  {
    hide Patch, StandsAt;
    FillKey(sec[..], t.n, t.nk, t.rows, t.keyRows, t.blob, Word(a));
    Copy(sec, 16 + 48 * n + 16 * k, Word(a));
    FillKey(sec[..], t.n, t.nk, t.rows, t.keyRows + Word(a), t.blob, Word(len));
    Copy(sec, 16 + 48 * n + 16 * k + 8, Word(len));
    assert [a, len][..1] == [a] && [a][..0] == [];
    assert t.keyRows + Word(a) + Word(len) == t.keyRows + Words([a, len]);
    u := t.(keyRows := t.keyRows + Words([a, len]));
  }

  method PutBlob(sec: array<byte>, n: nat, nk: nat, cur: nat, x: seq<byte>, ghost t: Sheet) returns (ghost u: Sheet)
    requires Holds(sec[..], t) && n == t.n && nk == t.nk && cur == |t.blob|
    requires 16 + 48 * n + 16 * nk + cur + |x| <= sec.Length
    modifies sec
    ensures u == t.(blob := t.blob + x) && Holds(sec[..], u)
  {
    hide Patch, StandsAt;
    FillBlob(sec[..], t.n, t.nk, t.rows, t.keyRows, t.blob, x);
    Copy(sec, 16 + 48 * n + 16 * nk + cur, x);
    u := t.(blob := t.blob + x);
  }

  method PutKeys(sec: array<byte>, n: nat, nk: nat, k: nat, at: nat, keys: seq<seq<byte>>, ghost t: Sheet)
    returns (cur: nat, ghost u: Sheet)
    requires Holds(sec[..], t) && n == t.n && nk == t.nk && at == |t.blob| && 16 * k == |t.keyRows|
    requires k + |keys| <= nk && 16 + 48 * n + 16 * nk + at + |KeyBytes(keys)| <= sec.Length
    modifies sec
    ensures Holds(sec[..], u) && cur == at + |KeyBytes(keys)|
    ensures u == t.(keyRows := t.keyRows + KeyRowsOf(keys, at), blob := t.blob + KeyBytes(keys))
  {
    hide KeyBytes, KeyRowsOf, Filled, Words;
    cur, u := at, t;
    NoKeysYet(at);
    assert t.keyRows + [] == t.keyRows && t.blob + [] == t.blob;
    for j := 0 to |keys|
      invariant Holds(sec[..], u) && cur == at + |KeyBytes(keys[..j])|
      invariant u == t.(keyRows := t.keyRows + KeyRowsOf(keys[..j], at), blob := t.blob + KeyBytes(keys[..j]))
    {
      KeyBytesGrow(keys, j + 1);
      KeyRowsOfPush(keys[..j], keys[j], at);
      assert keys[..j + 1] == keys[..j] + [keys[j]];
      u := PutBlob(sec, n, nk, cur, keys[j], u);
      u := PutKeyRow(sec, n, k + j, cur, |keys[j]|, u);
      Associates(t.keyRows, KeyRowsOf(keys[..j], at), Words([cur, |keys[j]|]));
      Associates(t.blob, KeyBytes(keys[..j]), keys[j]);
      cur := cur + |keys[j]|;
    }
    assert keys[..|keys|] == keys;
  }

  lemma NoKeysYet(at: nat)
    ensures KeyRowsOf([], at) == [] && KeyBytes([]) == []
  {
  }

  lemma SixWords(w: seq<nat>)
    requires |w| == 6
    ensures Words(w) == Word(w[0]) + Word(w[1]) + Word(w[2]) + Word(w[3]) + Word(w[4]) + Word(w[5])
  {
    hide Word;
    WordsPush(w, 5);
    WordsPush(w, 4);
    WordsPush(w, 3);
    WordsPush(w, 2);
    WordsPush(w, 1);
    WordsPush(w, 0);
    assert w[..6] == w && w[..0] == [];
  }

  lemma WordsPush(w: seq<nat>, f: nat)
    requires f < |w|
    ensures Words(w[..f + 1]) == Words(w[..f]) + Word(w[f])
  {
    assert w[..f + 1][..f] == w[..f];
  }

  method PutRecord(sec: array<byte>, n: nat, nk: nat, i: nat, k: nat, at: nat, r: Record, ghost t: Sheet)
    returns (cur: nat, ghost u: Sheet)
    requires Holds(sec[..], t) && n == t.n && nk == t.nk && at == |t.blob|
    requires 48 * i == |t.rows| && 16 * k == |t.keyRows| && i < n
    requires k + |KeyList(r)| <= nk && 16 + 48 * n + 16 * nk + at + |BlobOf(r)| <= sec.Length
    modifies sec
    ensures Holds(sec[..], u) && cur == at + |BlobOf(r)|
    ensures u == Sheet(n, nk, t.rows + Words(RowWords(r, at, k)),
                       t.keyRows + KeyRowsOf(KeyList(r), at + |r.id|), t.blob + BlobOf(r))
  {
    hide Filled, Words, Word, KeyBytes, KeyRowsOf;
    u := PutBlob(sec, n, nk, at, r.id, t);
    u := PutRowWord(sec, n, 48 * i, at, u);
    u := PutRowWord(sec, n, 48 * i + 8, |r.id|, u);
    u := PutRowWord(sec, n, 48 * i + 16, k, u);
    u := PutRowWord(sec, n, 48 * i + 24, CountWord(r), u);
    cur, u := PutKeys(sec, n, nk, k, at + |r.id|, KeyList(r), u);
    var p := cur;
    u := PutBlob(sec, n, nk, cur, r.payload, u);
    cur := cur + |r.payload|;
    u := PutRowWord(sec, n, 48 * i + 32, p, u);
    u := PutRowWord(sec, n, 48 * i + 40, |r.payload|, u);
    var w := RowWords(r, at, k);
    SixWords(w);
    SixAppended(t.rows, w);
    assert u.blob == t.blob + BlobOf(r);
  }

  lemma SixAppended(s: seq<byte>, w: seq<nat>)
    requires |w| == 6
    ensures s + Word(w[0]) + Word(w[1]) + Word(w[2]) + Word(w[3]) + Word(w[4]) + Word(w[5]) ==
            s + (Word(w[0]) + Word(w[1]) + Word(w[2]) + Word(w[3]) + Word(w[4]) + Word(w[5]))
  {
    hide Word;
  }

  lemma FilledWhole(s: seq<byte>, n: nat, nk: nat, R: seq<byte>, K: seq<byte>, B: seq<byte>)
    requires Filled(s, n, nk, R, K, B) && |R| == 48 * n && |K| == 16 * nk && |s| == 16 + |R| + |K| + |B|
    ensures s == Word(n) + R + Word(nk) + K + B
  {
    hide StandsAt, PutLE;
    FiveStand(s, Word(n), R, Word(nk), K, B);
  }

  lemma EncodeIs(recs: seq<Record>)
    ensures Encode(recs) == Word(|recs|) + Rows(recs) + Word(KeyTotal(recs)) + KeyRows(recs) + Blob(recs)
  {
  }

  lemma EncodeLen(recs: seq<Record>)
    ensures |Encode(recs)| == Size(recs)
  {
    hide Rows, KeyRows, Blob, KeyTotal, Word;
  }

  /** Checks the strings and adds up the sizes. */
  method MeasureKeys(keys: seq<seq<byte>>) returns (ok: bool, total: nat)
    ensures ok <==> forall x | 0 <= x < |keys| :: JsonText.Utf8(keys[x])
    ensures ok ==> total == |KeyBytes(keys)|
  {
    hide KeyBytes, KeyRowsOf;
    total := 0;
    NoKeyBytes();
    for j := 0 to |keys|
      invariant forall x | 0 <= x < j :: JsonText.Utf8(keys[x])
      invariant total == |KeyBytes(keys[..j])|
    {
      if !JsonText.Utf8(keys[j]) {
        return false, total;
      }
      assert keys[..j + 1] == keys[..j] + [keys[j]];
      KeyRowsOfPush(keys[..j], keys[j], 0);
      total := total + |keys[j]|;
    }
    assert keys[..|keys|] == keys;
    ok := true;
  }

  lemma NoKeyBytes()
    ensures KeyBytes([]) == []
  {
  }

  method Measure(recs: seq<Record>) returns (ok: bool, nKeys: nat, blob: nat)
    ensures ok <==> GoodRecords(recs)
    ensures ok ==> nKeys == KeyTotal(recs) && blob == |Blob(recs)|
  {
    hide Blob, KeyTotal, BlobOf, KeyBytes;
    ok, nKeys, blob := true, 0, 0;
    NothingMeasured();
    for i := 0 to |recs|
      invariant ok && forall j | 0 <= j < i :: GoodRecord(recs[j])
      invariant nKeys == KeyTotal(recs[..i]) && blob == |Blob(recs[..i])|
    {
      var r := recs[i];
      if r.id == [] || !JsonText.Utf8(r.id) {
        assert !GoodRecord(recs[i]);
        return false, nKeys, blob;
      }
      var keys, total := KeyList(r), 0;
      ok, total := MeasureKeys(keys);
      if !ok {
        assert !GoodRecord(recs[i]);
        return;
      }
      BlobPush(recs, i);
      RecordParts(r);
      nKeys, blob := nKeys + |keys|, blob + |r.id| + |r.payload| + total;
    }
    assert recs[..|recs|] == recs;
  }

  lemma NothingMeasured()
    ensures KeyTotal([]) == 0 && Blob([]) == [] && KeyBytes([]) == [] && Rows([]) == [] && KeyRows([]) == []
  {
  }

  /** What the encoder takes: good strings, canonical payloads, lines within
      the base-line bound, and a section that fits a slice. */
  ghost predicate Encodable(recs: seq<Record>) {
    && GoodRecords(recs) && Size(recs) <= MAX_INT
    && forall i | 0 <= i < |recs| :: Canonical(recs[i]) && LineFits(recs[i])
  }

  /** Writes the section, and hashes the records' lines into the base identity. */
  method EncodeRecords(recs: seq<Record>, marshal: seq<byte> -> Option<seq<byte>>, hash: seq<byte> -> seq<byte>)
    returns (ok: bool, sec: seq<byte>, nKeys: nat, baseID: seq<byte>)
    requires Marshals(marshal)
    ensures ok <==> Encodable(recs)
    ensures ok ==> sec == Encode(recs) && nKeys == KeyTotal(recs) && baseID == hash(BaseText(recs))
  {
    hide Filled, Rows, KeyRows, Blob, KeyTotal, BlobOf, KeyRowsOf, Words, RowWords, GoodRecords, Word, Encode, Patch,
      CanonicalPayload, Line, BaseText;
    var blobLen;
    sec, baseID := [], [];
    ok, nKeys, blobLen := Measure(recs);
    if !ok {
      return;
    }
    var n := |recs|;
    var size := 16 + 48 * n + 16 * nKeys + blobLen;
    if size > MAX_INT {
      return false, sec, nKeys, baseID;
    }
    var buf := new byte[size](_ => 0);
    PatchStands(buf[..], 0, Word(n));
    Copy(buf, 0, Word(n));
    PatchStands(buf[..], 8 + 48 * n, Word(nKeys));
    PatchKeeps(buf[..], 8 + 48 * n, Word(nKeys), 0, Word(n));
    Copy(buf, 8 + 48 * n, Word(nKeys));
    ghost var t := Sheet(n, nKeys, [], [], []);
    CountsWritten(buf[..], n, nKeys, blobLen);
    NothingMeasured();
    var cur, k, text := 0, 0, [];
    NoText();
    for i := 0 to n
      invariant Holds(buf[..], t) && cur == |Blob(recs[..i])| && k == KeyTotal(recs[..i])
      invariant t == Sheet(n, nKeys, Rows(recs[..i]), KeyRows(recs[..i]), Blob(recs[..i]))
      invariant text == BaseText(recs[..i])
      invariant forall j | 0 <= j < i :: Canonical(recs[j]) && LineFits(recs[j])
    {
      if marshal(recs[i].payload) != Some(recs[i].payload) {
        assert !Canonical(recs[i]);
        return false, sec, nKeys, baseID;
      }
      var line := Line(recs[i]);
      if |line| + 1 > MAX_LINE {
        assert !LineFits(recs[i]);
        return false, sec, nKeys, baseID;
      }
      NextText(recs, i);
      text := text + line + [LF];
      RecordPlace(recs, i);
      PushParts(recs[..i], recs[i]);
      assert recs[..i + 1] == recs[..i] + [recs[i]];
      cur, t := PutRecord(buf, n, nKeys, i, k, cur, recs[i], t);
      k := k + |KeyList(recs[i])|;
    }
    assert recs[..n] == recs;
    sec := buf[..];
    FilledWhole(sec, n, nKeys, Rows(recs), KeyRows(recs), Blob(recs));
    EncodeIs(recs);
    baseID := hash(text);
  }

  lemma NoText()
    ensures BaseText([]) == []
  {
  }

  lemma NextText(recs: seq<Record>, i: nat)
    requires i < |recs|
    ensures BaseText(recs[..i + 1]) == BaseText(recs[..i]) + Line(recs[i]) + [LF]
  {
    hide Line;
    assert recs[..i + 1][..i] == recs[..i];
  }

  /** What Encode wrote is read back, unless there are more than 2^32 - 1 keys:
      only the reader counts those. */
  lemma EncodedIsRead(recs: seq<Record>)
    requires GoodRecords(recs) && Size(recs) <= MAX_INT && |recs| <= MAX_U32
    ensures Encodes(Encode(recs)) <==> KeyTotal(recs) <= MAX_U32
  {
    hide Rows, KeyRows, Blob, KeyTotal, Encode, GoodRecords;
    if KeyTotal(recs) <= MAX_U32 {
      assert IsEncoding(Encode(recs), recs);
    } else if Encodes(Encode(recs)) {
      var other :| IsEncoding(Encode(recs), other);
      EncodeCounts(recs);
      EncodeCounts(other);
    }
  }

  lemma EncodeCounts(recs: seq<Record>)
    requires Size(recs) <= MAX_INT
    ensures var b, n := Encode(recs), |recs|;
            16 + 48 * n <= |b| && LE(b[0..8]) == n && LE(b[8 + 48 * n..16 + 48 * n]) == KeyTotal(recs)
  {
    hide Rows, KeyRows, Blob, KeyTotal, Word;
    var b, n := Encode(recs), |recs|;
    EncodeLen(recs);
    WordReads(n);
    WordReads(KeyTotal(recs));
    StandsWhole(b, b);
    StandsJoin(b, 0, Word(n) + Rows(recs) + Word(KeyTotal(recs)) + KeyRows(recs), Blob(recs));
    StandsJoin(b, 0, Word(n) + Rows(recs) + Word(KeyTotal(recs)), KeyRows(recs));
    StandsJoin(b, 0, Word(n) + Rows(recs), Word(KeyTotal(recs)));
    StandsJoin(b, 0, Word(n), Rows(recs));
  }

  lemma CountsWritten(s: seq<byte>, n: nat, nk: nat, blob: nat)
    requires |s| == 16 + 48 * n + 16 * nk + blob
    requires StandsAt(s, 0, Word(n)) && StandsAt(s, 8 + 48 * n, Word(nk))
    ensures Filled(s, n, nk, [], [], [])
  {
    hide Word;
  }
}
