/** The one bound writer and reader of the records section do not share
    (engine/prepared/encode.go:284-298, engine/prepared/view.go:238-240): an
    input the writer takes whose section the reader refuses. */
module RecordsLimit {
  import opened Bytes
  import opened Options
  import opened Seqs
  import opened JsonGrammar
  import opened JsonText
  import opened Records
  import opened RecordsCode
  import opened RecordsWrite
  import opened BaseLine
  import opened Spelling

  const KEYS := 0x4_0000
  const RECORDS := 0x4000

  function LetterId(i: nat): (id: seq<byte>)
    ensures |id| == 4 && Letters(id)
  {
    Spelt(4, i)
  }

  lemma LetterIdsDiffer(i: nat, j: nat)
    requires i < 0x1_0000 && j < 0x1_0000 && LetterId(i) == LetterId(j)
    ensures i == j
  {
    assert Pow16(4) == 0x1_0000 by { assert Pow16(2) == 256; }
    SpeltDiffer(4, i, j);
  }

  /** 2^18 empty keys. */
  function Crowded(i: nat): Record {
    Record(LetterId(i), Some(seq(KEYS, _ => [])), [])
  }

  /** 2^14 such records: 2^32 keys. */
  function Crowd(m: nat): (recs: seq<Record>)
    ensures |recs| == m && forall i | 0 <= i < m :: recs[i] == Crowded(i)
  {
    seq(m, (i: nat) => Crowded(i))
  }

  lemma {:induction false} LettersArePlain(s: seq<byte>)
    requires Letters(s)
    ensures Utf8(s) && Marshal(s) == s
    decreases |s|
  {
    if s != [] {
      LettersArePlain(s[1..]);
      assert s == [s[0]] + s[1..];
    }
  }

  lemma {:induction false} EmptyKeyTail(keys: seq<seq<byte>>, i: nat)
    requires i < |keys| && forall j | 0 <= j < |keys| :: keys[j] == []
    ensures |KeyTail(keys, i)| == 3 * (|keys| - i)
    decreases |keys| - i
  {
    assert Marshal([]) == [];
    if i + 1 < |keys| {
      EmptyKeyTail(keys, i + 1);
    }
  }

  /** Its line is 22 bytes and three for each key: within the bound. */
  lemma CrowdedFits(i: nat)
    ensures |Line(Crowded(i))| == 22 + 3 * KEYS && LineFits(Crowded(i))
  {
    hide Marshal, KeyTail;
    LettersArePlain(LetterId(i));
    EmptyKeyTail(Crowded(i).keys.value, 0);
  }

  lemma CrowdedIsGood(i: nat)
    ensures GoodRecord(Crowded(i)) && Canonical(Crowded(i))
  {
    hide Utf8;
    LettersArePlain(LetterId(i));
    LettersArePlain([]);
  }

  lemma {:induction false} EmptyKeyBytes(keys: seq<seq<byte>>)
    requires forall j | 0 <= j < |keys| :: keys[j] == []
    ensures KeyBytes(keys) == []
    decreases |keys|
  {
    if keys != [] {
      EmptyKeyBytes(keys[..|keys| - 1]);
    }
  }

  lemma {:induction false} CrowdSize(m: nat)
    ensures KeyTotal(Crowd(m)) == KEYS * m && |Blob(Crowd(m))| == 4 * m
  {
    hide KeyBytes;
    if m > 0 {
      CrowdSize(m - 1);
      assert Crowd(m)[..m - 1] == Crowd(m - 1);
      EmptyKeyBytes(KeyList(Crowded(m - 1)));
    }
  }

  /** 2^14 records of 2^18 empty keys each, their IDs distinct, every line within
      the bound: the encoder writes them, and no reader takes the section. */
  lemma TooManyKeys(recs: seq<Record>)
    requires recs == Crowd(RECORDS)
    ensures forall i, j | 0 <= i < j < |recs| :: recs[i].id != recs[j].id
    ensures forall i | 0 <= i < |recs| :: |Line(recs[i])| == 786454
    ensures Encodable(recs) && |recs| <= MAX_U32
    ensures KeyTotal(recs) == 0x1_0000_0000 && !Encodes(Encode(recs))
  {
    hide Encode, Line, Crowded, KeyTotal, Blob, LetterId, GoodRecord, Canonical;
    forall i, j | 0 <= i < j < |recs| ensures recs[i].id != recs[j].id {
      CrowdedId(i);
      CrowdedId(j);
      if LetterId(i) == LetterId(j) {
        LetterIdsDiffer(i, j);
      }
    }
    forall i | 0 <= i < |recs|
      ensures |Line(recs[i])| == 786454 && LineFits(recs[i]) && GoodRecord(recs[i]) && Canonical(recs[i])
    {
      CrowdedFits(i);
      CrowdedIsGood(i);
    }
    CrowdSize(RECORDS);
    EncodedIsRead(recs);
  }

  lemma CrowdedId(i: nat)
    ensures Crowded(i).id == LetterId(i)
  {
  }
}
