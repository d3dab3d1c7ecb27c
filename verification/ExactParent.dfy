/** Exact-mode queries (engine/list.go:961-987, 1791-1865, 1889-1899): the whole
    key first, then each parent suffix of a domain, until some level has a live
    match. */
module ExactParent {
  import opened Bytes
  import opened Seqs
  import opened ListModel
  import opened ExactQuery

  const DOT: byte := 46

  function IndexOfDot(s: Key): (i: nat)
    ensures i <= |s| && (i < |s| ==> s[i] == DOT) && forall j | 0 <= j < i :: s[j] != DOT
  {
    if s == [] || s[0] == DOT then 0 else 1 + IndexOfDot(s[1..])
  }

  /** The parent suffixes, while two labels remain. */
  function Parents(q: Key): seq<Key> {
    var i := IndexOfDot(q);
    if i == |q| then []
    else
      var rest := q[i + 1..];
      if DOT !in rest then [] else [rest] + Parents(rest)
  }

  function Levels(q: Key, fallback: bool): seq<Key> {
    [q] + if fallback then Parents(q) else []
  }

  ghost predicate AfterDot(q: Key, s: Key) {
    exists i :: SplitsAt(q, s, i)
  }

  predicate SplitsAt(q: Key, s: Key, i: nat) {
    i < |q| && q[i] == DOT && s == q[i + 1..]
  }

  /** Splitting behind position n is splitting what follows it. */
  lemma SplitBehind(q: Key, s: Key, n: nat, i: nat)
    requires n <= |q|
    ensures SplitsAt(q[n..], s, i) <==> SplitsAt(q, s, n + i)
  {
    if n + i < |q| {
      SuffixOfSuffix(q, n, i + 1);
    }
  }

  /** A suffix after a dot follows the first dot, or comes after one behind it. */
  lemma AfterFirstDot(q: Key, s: Key)
    requires IndexOfDot(q) < |q|
    ensures var rest := q[IndexOfDot(q) + 1..];
            AfterDot(q, s) <==> s == rest || AfterDot(rest, s)
  {
    hide SplitsAt;
    var d := IndexOfDot(q);
    FirstSplit(q, s);
    if AfterDot(q, s) {
      var i: nat :| SplitsAt(q, s, i);
      if i > d {
        SplitBehind(q, s, d + 1, i - d - 1);
      }
    }
    if AfterDot(q[d + 1..], s) {
      var i: nat :| SplitsAt(q[d + 1..], s, i);
      SplitBehind(q, s, d + 1, i);
    }
  }

  lemma FirstSplit(q: Key, s: Key)
    requires IndexOfDot(q) < |q|
    ensures s == q[IndexOfDot(q) + 1..] <==> SplitsAt(q, s, IndexOfDot(q))
    ensures forall i: nat | i < IndexOfDot(q) :: !SplitsAt(q, s, i)
  {
  }

  lemma SuffixOfSuffix(q: Key, i: nat, j: nat)
    requires i + j <= |q|
    ensures q[i..][j..] == q[i + j..]
  {
  }

  lemma NoDotNothingAfter(q: Key, s: Key)
    requires DOT !in q
    ensures !AfterDot(q, s)
  {
    forall i: nat ensures !SplitsAt(q, s, i) {
    }
  }

  lemma SuffixKeepsDot(q: Key, s: Key)
    requires AfterDot(q, s) && DOT in s
    ensures DOT in q
  {
    var i: nat :| SplitsAt(q, s, i);
    assert q[i] in q;
  }

  /** The parents are exactly the suffixes after a dot that still have a dot. */
  lemma {:induction false} ParentsAre(q: Key, s: Key)
    ensures s in Parents(q) <==> DOT in s && AfterDot(q, s)
    decreases |q|
  {
    hide Parents, AfterDot;
    var d := IndexOfDot(q);
    ParentsStep(q);
    if d == |q| {
      NoDotNothingAfter(q, s);
    } else {
      var rest := q[d + 1..];
      AfterFirstDot(q, s);
      if DOT in rest {
        ParentsAre(rest, s);
        assert s in Parents(q) <==> s == rest || s in Parents(rest);
      } else if DOT in s && AfterDot(rest, s) {
        SuffixKeepsDot(rest, s);
      }
    }
  }

  /** One step up: the rest after the first dot, and its parents. */
  lemma ParentsStep(q: Key)
    ensures var i := IndexOfDot(q);
            i < |q| && DOT in q[i + 1..] ==> Parents(q) == [q[i + 1..]] + Parents(q[i + 1..])
    ensures var i := IndexOfDot(q);
            i == |q| || DOT !in q[i + 1..] ==> Parents(q) == []
  {
  }

  lemma {:induction false} ParentsShorter(q: Key, i: nat)
    requires i < |Parents(q)|
    ensures |Parents(q)[i]| < |q|
    decreases |q|
  {
    hide Parents;
    ParentsStep(q);
    if i > 0 {
      ParentsShorter(q[IndexOfDot(q) + 1..], i - 1);
    }
  }

  /** Longer suffixes come first. */
  lemma {:induction false} ParentsShrink(q: Key, i: nat, j: nat)
    requires i < j < |Parents(q)|
    ensures |Parents(q)[j]| < |Parents(q)[i]| < |q|
    decreases |q|
  {
    hide Parents;
    ParentsStep(q);
    ParentsShorter(q, i);
    var rest := q[IndexOfDot(q) + 1..];
    if i == 0 {
      ParentsShorter(rest, j - 1);
    } else {
      ParentsShrink(rest, i - 1, j - 1);
    }
  }

  method ExactLevels(q: Key, fallback: bool) returns (levels: seq<Key>)
    ensures levels == Levels(q, fallback)
  {
    hide Parents, IndexOfDot;
    levels := [q];
    if !fallback {
      return;
    }
    var rest := q;
    while true
      invariant levels + Parents(rest) == Levels(q, true)
      decreases |rest|
    {
      ParentsStep(rest);
      var i := IndexOfDot(rest);
      if i == |rest| {
        break;
      }
      rest := rest[i + 1..];
      if DOT !in rest {
        break;
      }
      levels := levels + [rest];
    }
  }

  // --------------------------------------------------------------- specification

  datatype Hit = Hit(id: Id, score: real, payload: seq<byte>)

  /** 100 at the queried key, 90 at a parent. */
  function ScoreAt(i: nat): real {
    if i == 0 then 100.0 else 90.0
  }

  /** A level is probed when its score reaches the threshold, and wins when some
      live entry holds it and passes. */
  ghost predicate Wins(live: Live, rules: Rules, level: Key, score: real, thr: real) {
    score >= thr * 100.0 && Matching(live, rules, [level]) != {}
  }

  ghost predicate FirstWin(live: Live, rules: Rules, levels: seq<Key>, thr: real, i: nat) {
    && i < |levels| && Wins(live, rules, levels[i], ScoreAt(i), thr)
    && forall j: nat | j < i :: !Wins(live, rules, levels[j], ScoreAt(j), thr)
  }

  ghost function HitIds(out: seq<Hit>): set<Id> {
    set h | h in out :: h.id
  }

  predicate SortedHits(out: seq<Hit>) {
    forall i, j | 0 <= i < j < |out| :: Less(out[i].id, out[j].id)
  }

  /** The hits of one level: all of them, or k of them when there are more. */
  ghost predicate LevelHits(out: seq<Hit>, live: Live, rules: Rules, level: Key, score: real, k: int) {
    var m := Matching(live, rules, [level]);
    && HitIds(out) <= m
    && |out| == |HitIds(out)| == (if k <= 0 || |m| <= k then |m| else k)
    && forall h | h in out :: h.id in live && h == Hit(h.id, score, live[h.id].payload)
  }

  ghost predicate ExactAnswer(out: seq<Hit>, live: Live, rules: Rules, levels: seq<Key>, thr: real, k: int) {
    && SortedHits(out)
    && (forall i: nat | FirstWin(live, rules, levels, thr, i) :: LevelHits(out, live, rules, levels[i], ScoreAt(i), k))
    && ((forall i: nat :: !FirstWin(live, rules, levels, thr, i)) ==> out == [])
  }

  lemma {:induction false} SortedHitsUnique(a: seq<Hit>, b: seq<Hit>)
    requires SortedHits(a) && SortedHits(b) && Elems(a) == Elems(b)
    ensures a == b
    decreases |a|
  {
    hide Less;
    if a != [] && b != [] {
      assert a[0] in Elems(b) && b[0] in Elems(a);
      var i :| 0 <= i < |b| && b[i] == a[0];
      var j :| 0 <= j < |a| && a[j] == b[0];
      LessIrreflexive(a[0].id);
      if Less(a[0].id, b[0].id) && Less(b[0].id, a[0].id) {
        LessTransitive(a[0].id, b[0].id, a[0].id);
      }
      assert a[0] == b[0];
      TailElems(a);
      TailElems(b);
      SortedHitsUnique(a[1..], b[1..]);
    } else {
      EmptyElems(a);
      EmptyElems(b);
    }
  }

  /** Without a top-K an exact query's answer is a function of the live map. */
  lemma ExactIsFunction(rules: Rules, live: Live, levels: seq<Key>, thr: real, a: seq<Hit>, b: seq<Hit>)
    requires ExactAnswer(a, live, rules, levels, thr, 0) && ExactAnswer(b, live, rules, levels, thr, 0)
    ensures a == b
  {
    hide Matching, SortedHits, Wins;
    if i: nat :| FirstWin(live, rules, levels, thr, i) {
      var m := Matching(live, rules, [levels[i]]);
      SubsetSize(HitIds(a), m);
      SubsetSize(HitIds(b), m);
      SameHits(a, b, live, rules, levels[i], ScoreAt(i));
      SameHits(b, a, live, rules, levels[i], ScoreAt(i));
      SortedHitsUnique(a, b);
    }
  }

  lemma SameHits(a: seq<Hit>, b: seq<Hit>, live: Live, rules: Rules, level: Key, score: real)
    requires LevelHits(a, live, rules, level, score, 0) && LevelHits(b, live, rules, level, score, 0)
    requires HitIds(a) == HitIds(b)
    ensures Elems(a) <= Elems(b)
  {
    hide Matching;
    forall h | h in a ensures h in b {
      assert h.id in HitIds(b);
      var g :| g in b && g.id == h.id;
    }
  }

  // ------------------------------------------------------------------- execution

  /** r is out with what part of the level's run contributes. */
  ghost predicate Partial(rules: Rules, x: Indexed, masked: set<Id>, level: Key, score: real, k: int, out: seq<Hit>,
                          r: seq<Hit>, run: seq<nat>)
  {
    && out <= r && (k > 0 ==> |r| <= k) && |HitIds(r)| == |r|
    && HitIds(r) == HitIds(out) + RunIds(rules, x, masked, level, run)
    && forall h | h in r[|out|..] :: FromSegment(rules, x, masked, level, score, h)
  }

  /** Adds the hits of one level's run in a segment, up to the cap. */
  method CollectLevel(rules: Rules, x: Indexed, masked: set<Id>, level: Key, score: real, k: int, out: seq<Hit>,
                      background: bool) returns (canceled: bool, r: seq<Hit>)
    requires GoodIndex(rules, x) && (k > 0 ==> |out| <= k)
    requires HitIds(out) !! IdsOf(rules, x, masked, [level]) && |HitIds(out)| == |out|
    ensures background ==> !canceled
    ensures !canceled ==> Collected(rules, x, masked, level, score, k, out, r)
  {
    hide Partial, Collected, GoodIndex, HitIds, IdsOf;
    canceled, r := false, out;
    var run := x.look(level);
    PartialStart(rules, x, masked, level, score, k, out);
    for j := 0 to |run|
      invariant Partial(rules, x, masked, level, score, k, out, r, run[..j])
    {
      if k > 0 && |r| >= k {
        PartialFull(rules, x, masked, level, score, k, out, r, run[..j]);
        return;
      }
      var stop: bool :| background ==> !stop;
      if stop {
        return true, [];
      }
      PartialStep(rules, x, masked, level, score, k, out, r, j);
      var e := x.entries[run[j]];
      if e.id !in masked && rules.pass(e.payload) {
        r := r + [Hit(e.id, score, e.payload)];
      }
    }
    assert run[..|run|] == run;
    PartialEnd(rules, x, masked, level, score, k, out, r);
  }

  lemma PartialStart(rules: Rules, x: Indexed, masked: set<Id>, level: Key, score: real, k: int, out: seq<Hit>)
    requires (k > 0 ==> |out| <= k) && |HitIds(out)| == |out|
    ensures Partial(rules, x, masked, level, score, k, out, out, x.look(level)[..0])
  {
  }

  lemma PartialFull(rules: Rules, x: Indexed, masked: set<Id>, level: Key, score: real, k: int, out: seq<Hit>,
                    r: seq<Hit>, run: seq<nat>)
    requires Partial(rules, x, masked, level, score, k, out, r, run) && k > 0 && |r| >= k
    ensures Collected(rules, x, masked, level, score, k, out, r)
  {
    hide IdsOf, RunIds, FromSegment;
    RunIdsWithin(rules, x, masked, level, run);
  }

  lemma PartialEnd(rules: Rules, x: Indexed, masked: set<Id>, level: Key, score: real, k: int, out: seq<Hit>,
                   r: seq<Hit>)
    requires GoodIndex(rules, x) && Partial(rules, x, masked, level, score, k, out, r, x.look(level))
    ensures Collected(rules, x, masked, level, score, k, out, r)
  {
    hide IdsOf, RunIds, FromSegment, GoodIndex;
    RunIdsAll(rules, x, masked, level);
  }

  lemma PartialStep(rules: Rules, x: Indexed, masked: set<Id>, level: Key, score: real, k: int, out: seq<Hit>,
                    r: seq<Hit>, j: nat)
    requires GoodIndex(rules, x) && j < |x.look(level)| && HitIds(out) !! IdsOf(rules, x, masked, [level])
    requires Partial(rules, x, masked, level, score, k, out, r, x.look(level)[..j]) && (k > 0 ==> |r| < k)
    ensures x.look(level)[j] < |x.entries|
    ensures var e := x.entries[x.look(level)[j]];
            Partial(rules, x, masked, level, score, k, out,
                    if e.id !in masked && rules.pass(e.payload) then r + [Hit(e.id, score, e.payload)] else r,
                    x.look(level)[..j + 1])
  {
    hide IdsOf, RunIds, GoodIndex, Counts, FromSegment, HitIds;
    var run := x.look(level);
    RunIdsStep(rules, x, masked, level, run, j);
    var e := x.entries[run[j]];
    if e.id !in masked && rules.pass(e.payload) {
      var h := Hit(e.id, score, e.payload);
      NewHit(rules, x, masked, level, run, j, out, r, h);
      HitIdsPush(r, h);
      assert (r + [h])[|out|..] == r[|out|..] + [h];
      assert FromSegment(rules, x, masked, level, score, h) by {
        HitHere(rules, x, masked, level, score, run[j]);
      }
    }
  }

  lemma HitIdsPush(r: seq<Hit>, h: Hit)
    ensures HitIds(r + [h]) == HitIds(r) + {h.id}
  {
  }

  lemma HitHere(rules: Rules, x: Indexed, masked: set<Id>, level: Key, score: real, o: nat)
    requires o < |x.entries| && Counts(rules, x, masked, [level], o)
    ensures FromSegment(rules, x, masked, level, score, Hit(x.entries[o].id, score, x.entries[o].payload))
  {
  }

  ghost predicate FromSegment(rules: Rules, x: Indexed, masked: set<Id>, level: Key, score: real, h: Hit) {
    exists o: nat :: o < |x.entries| && Counts(rules, x, masked, [level], o) &&
                     h == Hit(x.entries[o].id, score, x.entries[o].payload)
  }

  /** r is out with the segment's hits added, up to the cap. */
  ghost predicate Collected(rules: Rules, x: Indexed, masked: set<Id>, level: Key, score: real, k: int,
                            out: seq<Hit>, r: seq<Hit>) {
    && out <= r && (k > 0 ==> |r| <= k) && |HitIds(r)| == |r|
    && HitIds(r) <= HitIds(out) + IdsOf(rules, x, masked, [level])
    && (HitIds(r) == HitIds(out) + IdsOf(rules, x, masked, [level]) || (k > 0 && |r| == k))
    && forall h | h in r[|out|..] :: FromSegment(rules, x, masked, level, score, h)
  }

  /** The IDs a part of the level's run contributes. */
  ghost function RunIds(rules: Rules, x: Indexed, masked: set<Id>, level: Key, run: seq<nat>): set<Id> {
    set o | o in run && o < |x.entries| && Counts(rules, x, masked, [level], o) :: x.entries[o].id
  }

  lemma RunIdsStep(rules: Rules, x: Indexed, masked: set<Id>, level: Key, run: seq<nat>, j: nat)
    requires GoodIndex(rules, x) && run == x.look(level) && j < |run|
    ensures run[j] < |x.entries|
    ensures var e := x.entries[run[j]];
            && (Counts(rules, x, masked, [level], run[j]) <==> e.id !in masked && rules.pass(e.payload))
            && RunIds(rules, x, masked, level, run[..j + 1]) == RunIds(rules, x, masked, level, run[..j]) +
                 (if e.id !in masked && rules.pass(e.payload) then {e.id} else {})
  {
    hide Holds;
    assert run[j] in run;
    assert level in [level];
    assert run[..j + 1] == run[..j] + [run[j]];
  }

  lemma NewHit(rules: Rules, x: Indexed, masked: set<Id>, level: Key, run: seq<nat>, j: nat, out: seq<Hit>,
               r: seq<Hit>, h: Hit)
    requires GoodIndex(rules, x) && run == x.look(level) && j < |run| && run[j] < |x.entries|
    requires Counts(rules, x, masked, [level], run[j]) && h.id == x.entries[run[j]].id
    requires HitIds(out) !! IdsOf(rules, x, masked, [level])
    requires HitIds(r) == HitIds(out) + RunIds(rules, x, masked, level, run[..j])
    ensures h.id !in HitIds(r)
  {
    hide Counts, Holds;
    assert h.id in IdsOf(rules, x, masked, [level]);
    forall o | o in run[..j] && o < |x.entries| ensures x.entries[o].id != h.id {
      assert o != run[j];
    }
  }

  lemma RunIdsWithin(rules: Rules, x: Indexed, masked: set<Id>, level: Key, run: seq<nat>)
    ensures RunIds(rules, x, masked, level, run) <= IdsOf(rules, x, masked, [level])
  {
    hide Counts;
  }

  lemma RunIdsAll(rules: Rules, x: Indexed, masked: set<Id>, level: Key)
    requires GoodIndex(rules, x)
    ensures RunIds(rules, x, masked, level, x.look(level)) == IdsOf(rules, x, masked, [level])
  {
    hide Holds;
    forall o: nat | o < |x.entries| && Counts(rules, x, masked, [level], o) ensures o in x.look(level) {
    }
  }

  /** Base and overlay collected: the level's hits. */
  lemma BothCollected(rules: Rules, s: Snapshot, level: Key, score: real, k: int, r: seq<Hit>, out: seq<Hit>)
    requires Good(rules, s)
    requires Collected(rules, s.base, s.tomb, level, score, k, [], r)
    requires Collected(rules, s.overlay, {}, level, score, k, r, out)
    ensures LevelHits(out, LiveIn(s), rules, level, score, k)
  {
    hide Good, LiveIn, Matching, IdsOf, FromSegment, HitIds;
    MatchingByPlace(rules, s, [level]);
    NoHits();
    var m := Matching(LiveIn(s), rules, [level]);
    assert HitIds(out) <= m;
    SubsetSize(HitIds(out), m);
    forall h | h in out ensures h.id in LiveIn(s) && h == Hit(h.id, score, LiveIn(s)[h.id].payload) {
      HitOfEither(rules, s, level, score, k, r, out, h);
    }
  }

  lemma HitOfEither(rules: Rules, s: Snapshot, level: Key, score: real, k: int, r: seq<Hit>, out: seq<Hit>, h: Hit)
    requires Good(rules, s) && h in out
    requires Collected(rules, s.base, s.tomb, level, score, k, [], r)
    requires Collected(rules, s.overlay, {}, level, score, k, r, out)
    ensures h.id in LiveIn(s) && h == Hit(h.id, score, LiveIn(s)[h.id].payload)
  {
    hide Good, LiveIn, IdsOf, FromSegment, HitIds;
    if h in r {
      CollectedFrom(rules, s.base, s.tomb, level, score, k, [], r, h);
      HitIsLive(rules, s, s.base, s.tomb, level, score, h);
    } else {
      CollectedFrom(rules, s.overlay, {}, level, score, k, r, out, h);
      HitIsLive(rules, s, s.overlay, {}, level, score, h);
    }
  }

  lemma CollectedFrom(rules: Rules, x: Indexed, masked: set<Id>, level: Key, score: real, k: int, out: seq<Hit>,
                      r: seq<Hit>, h: Hit)
    requires Collected(rules, x, masked, level, score, k, out, r) && h in r && h !in out
    ensures FromSegment(rules, x, masked, level, score, h)
  {
    hide FromSegment, IdsOf, HitIds;
    assert r == out + r[|out|..];
  }

  lemma HitIsLive(rules: Rules, s: Snapshot, x: Indexed, masked: set<Id>, level: Key, score: real, h: Hit)
    requires Good(rules, s) && FromSegment(rules, x, masked, level, score, h)
    requires (x == s.base && masked == s.tomb) || (x == s.overlay && masked == {})
    ensures h.id in LiveIn(s) && h == Hit(h.id, score, LiveIn(s)[h.id].payload)
  {
    hide GoodIndex, LiveIn, HoldsAny;
    MatchingByPlace(rules, s, [level]);
  }

  /** The overlay's hits cannot repeat what the base gave. */
  lemma NoRepeats(rules: Rules, s: Snapshot, level: Key, score: real, k: int, r: seq<Hit>)
    requires Good(rules, s) && Collected(rules, s.base, s.tomb, level, score, k, [], r)
    ensures HitIds(r) !! IdsOf(rules, s.overlay, {}, [level])
  {
    hide GoodIndex, IdsOf;
    MatchingByPlace(rules, s, [level]);
    assert HitIds([]) == {};
  }

  function InsertHit(h: Hit, r: seq<Hit>): seq<Hit> {
    if r == [] || Less(h.id, r[0].id) then [h] + r else [r[0]] + InsertHit(h, r[1..])
  }

  lemma {:induction false} InsertHitSorted(h: Hit, r: seq<Hit>)
    requires SortedHits(r) && forall g | g in r :: g.id != h.id
    ensures SortedHits(InsertHit(h, r)) && Elems(InsertHit(h, r)) == Elems(r) + {h} && |InsertHit(h, r)| == |r| + 1
    decreases |r|
  {
    hide Less;
    if r != [] {
      LessTotal(h.id, r[0].id);
      if Less(h.id, r[0].id) {
        forall i | 0 < i < |r| ensures Less(h.id, r[i].id) {
          LessTransitive(h.id, r[0].id, r[i].id);
        }
      } else {
        InsertHitSorted(h, r[1..]);
        var t := InsertHit(h, r[1..]);
        forall i | 0 <= i < |t| ensures Less(r[0].id, t[i].id) {
          assert t[i] in Elems(r[1..]) + {h};
        }
        assert Elems(r) == Elems(r[1..]) + {r[0]};
        assert Elems([r[0]] + t) == {r[0]} + Elems(t);
      }
    }
  }

  lemma {:induction false} DistinctHits(s: seq<Hit>, i: nat, j: nat)
    requires |HitIds(s)| == |s| && i < j < |s|
    ensures s[i].id != s[j].id
  {
    if s[i].id == s[j].id {
      var t := s[..j] + s[j + 1..];
      forall h | h in s ensures exists g :: g in t && g.id == h.id {
        var k :| 0 <= k < |s| && s[k] == h;
        assert t[if k < j then k else if k == j then i else k - 1].id == h.id;
      }
      assert HitIds(s) <= HitIds(t);
      SubsetSize(HitIds(s), HitIds(t));
      HitIdsAtMost(t);
    }
  }

  lemma {:induction false} HitIdsAtMost(t: seq<Hit>)
    ensures |HitIds(t)| <= |t|
  {
    if t != [] {
      HitIdsAtMost(t[..|t| - 1]);
      assert HitIds(t) == HitIds(t[..|t| - 1]) + {t[|t| - 1].id};
    }
  }

  /** Hits of one score in ID order. */
  method SortHits(s: seq<Hit>) returns (r: seq<Hit>)
    requires |HitIds(s)| == |s|
    ensures SortedHits(r) && Elems(r) == Elems(s) && |r| == |s|
  {
    hide Less, InsertHit, HitIds;
    r := [];
    for i := 0 to |s|
      invariant SortedHits(r) && Elems(r) == Elems(s[..i]) && |r| == i
    {
      forall g | g in r ensures g.id != s[i].id {
        assert g in Elems(s[..i]);
        var j :| 0 <= j < i && s[j] == g;
        DistinctHits(s, j, i);
      }
      InsertHitSorted(s[i], r);
      r := InsertHit(s[i], r);
      assert s[..i + 1] == s[..i] + [s[i]];
    }
    assert s[..|s|] == s;
  }

  lemma SortedLevel(out: seq<Hit>, r: seq<Hit>, live: Live, rules: Rules, level: Key, score: real, k: int)
    requires LevelHits(out, live, rules, level, score, k) && Elems(r) == Elems(out) && |r| == |out|
    ensures LevelHits(r, live, rules, level, score, k)
  {
    hide Matching;
    assert forall h :: h in r <==> h in Elems(r);
    assert forall h :: h in out <==> h in Elems(out);
    assert HitIds(r) == HitIds(out);
  }

  /** Runs an exact-mode query. */
  method QueryExact(rules: Rules, s: Snapshot, q: Key, fallback: bool, thr: real, k: int, background: bool)
    returns (canceled: bool, out: seq<Hit>)
    requires Good(rules, s)
    ensures background ==> !canceled
    ensures canceled ==> out == []
    ensures !canceled ==> ExactAnswer(out, LiveIn(s), rules, Levels(q, fallback), thr, k)
  {
    hide GoodIndex, LiveIn, Matching, Collected, LevelHits, SortedHits, IdsOf, Levels;
    canceled, out := false, [];
    var levels := ExactLevels(q, fallback);
    NoHits();
    for i := 0 to |levels|
      invariant out == []
      invariant forall j: nat | j < i :: !Wins(LiveIn(s), rules, levels[j], ScoreAt(j), thr)
    {
      var score := if i == 0 then 100.0 else 90.0;
      if score >= thr * 100.0 {
        var fromBase;
        canceled, fromBase := CollectLevel(rules, s.base, s.tomb, levels[i], score, k, [], background);
        if canceled {
          return true, [];
        }
        NoRepeats(rules, s, levels[i], score, k, fromBase);
        CapKept(rules, s.base, s.tomb, levels[i], score, k, [], fromBase);
        var both;
        canceled, both := CollectLevel(rules, s.overlay, {}, levels[i], score, k, fromBase, background);
        if canceled {
          return true, [];
        }
        BothCollected(rules, s, levels[i], score, k, fromBase, both);
        LevelSize(both, LiveIn(s), rules, levels[i], score, k);
        if |both| > 0 {
          out := SortHits(both);
          SortedLevel(both, out, LiveIn(s), rules, levels[i], score, k);
          OneFirstWin(LiveIn(s), rules, levels, thr, i);
          return;
        }
      }
    }
  }

  lemma NoHits()
    ensures HitIds([]) == {} && SortedHits([])
  {
  }

  lemma CapKept(rules: Rules, x: Indexed, masked: set<Id>, level: Key, score: real, k: int, out: seq<Hit>, r: seq<Hit>)
    requires Collected(rules, x, masked, level, score, k, out, r)
    ensures (k > 0 ==> |r| <= k) && |HitIds(r)| == |r|
  {
  }

  lemma LevelSize(out: seq<Hit>, live: Live, rules: Rules, level: Key, score: real, k: int)
    requires LevelHits(out, live, rules, level, score, k)
    ensures |out| > 0 <==> Matching(live, rules, [level]) != {}
    ensures |HitIds(out)| == |out|
  {
    hide Matching;
  }

  lemma OneFirstWin(live: Live, rules: Rules, levels: seq<Key>, thr: real, i: nat)
    requires i < |levels| && Wins(live, rules, levels[i], ScoreAt(i), thr)
    requires forall j: nat | j < i :: !Wins(live, rules, levels[j], ScoreAt(j), thr)
    ensures FirstWin(live, rules, levels, thr, i)
    ensures forall j: nat | FirstWin(live, rules, levels, thr, j) :: j == i
  {
    hide Wins;
  }
}
