/** Exact lookups of any of several terms (engine/list.go:1245-1270, 1370-1454,
    1564-1586): the smallest live entries that hold one, whose answer is a
    function of the live map alone. */
module ExactQuery {
  import opened Bytes
  import opened Seqs
  import opened ListModel
  import IdHeap

  type Key = seq<byte>

  /** Entries with their exact index: the ordinals holding an analyzed key. */
  datatype Indexed = Indexed(entries: seq<Entry>, look: Key -> seq<nat>)

  /** The analyzer, and a filter on payloads. */
  datatype Rules = Rules(norm: Key -> Key, pass: seq<byte> -> bool)

  datatype Snapshot = Snapshot(base: Indexed, overlay: Indexed, tomb: set<Id>)

  predicate Holds(rules: Rules, e: Entry, key: Key) {
    key != [] && exists i | 0 <= i < |e.keys| :: rules.norm(e.keys[i]) == key
  }

  predicate HoldsAny(rules: Rules, e: Entry, terms: seq<Key>) {
    exists t | t in terms :: Holds(rules, e, t)
  }

  ghost predicate GoodIndex(rules: Rules, x: Indexed) {
    && DistinctIds(x.entries)
    && forall key ::
         && NoDup(x.look(key))
         && forall o: nat :: o in x.look(key) <==> o < |x.entries| && Holds(rules, x.entries[o], key)
  }

  ghost predicate Good(rules: Rules, s: Snapshot) {
    && GoodIndex(rules, s.base) && GoodIndex(rules, s.overlay)
    && Coherent(LastWins(s.base.entries), Overlay(LastWins(s.overlay.entries), s.tomb))
  }

  /** What the snapshot stands for. */
  ghost function LiveIn(s: Snapshot): Live {
    LiveOf(LastWins(s.base.entries), Overlay(LastWins(s.overlay.entries), s.tomb))
  }

  /** The live entries that hold a term and pass. */
  ghost function Matching(live: Live, rules: Rules, terms: seq<Key>): set<Id> {
    set id | id in live && HoldsAny(rules, live[id], terms) && rules.pass(live[id].payload)
  }

  // -------------------------------------------------------------- entries by place

  /** Entry o of a segment is live, holds a term, and passes. */
  predicate Counts(rules: Rules, x: Indexed, masked: set<Id>, terms: seq<Key>, o: nat) {
    && o < |x.entries| && x.entries[o].id !in masked
    && HoldsAny(rules, x.entries[o], terms) && rules.pass(x.entries[o].payload)
  }

  ghost function IdsOf(rules: Rules, x: Indexed, masked: set<Id>, terms: seq<Key>): set<Id> {
    set o: nat | o < |x.entries| && Counts(rules, x, masked, terms, o) :: x.entries[o].id
  }

  /** Base and overlay together hold exactly the matching live entries. */
  lemma MatchingByPlace(rules: Rules, s: Snapshot, terms: seq<Key>)
    requires Good(rules, s)
    ensures Matching(LiveIn(s), rules, terms) ==
            IdsOf(rules, s.base, s.tomb, terms) + IdsOf(rules, s.overlay, {}, terms)
    ensures IdsOf(rules, s.base, s.tomb, terms) !! IdsOf(rules, s.overlay, {}, terms)
    ensures forall o: nat | o < |s.base.entries| && s.base.entries[o].id !in s.tomb ::
              s.base.entries[o].id in LiveIn(s) && LiveIn(s)[s.base.entries[o].id] == s.base.entries[o]
    ensures forall o: nat | o < |s.overlay.entries| ::
              s.overlay.entries[o].id in LiveIn(s) && LiveIn(s)[s.overlay.entries[o].id] == s.overlay.entries[o]
  {
    hide HoldsAny, LastWins;
    LastWinsHas(s.base.entries);
    LastWinsHas(s.overlay.entries);
    var live := LiveIn(s);
    forall o: nat | o < |s.base.entries| && s.base.entries[o].id !in s.tomb
      ensures s.base.entries[o].id in live && live[s.base.entries[o].id] == s.base.entries[o]
    {
      assert s.base.entries[o].id in LastWins(s.base.entries);
      assert s.base.entries[o].id !in LastWins(s.overlay.entries);
    }
    var m := Matching(live, rules, terms);
    var b, v := IdsOf(rules, s.base, s.tomb, terms), IdsOf(rules, s.overlay, {}, terms);
    forall id | id in m ensures id in b + v {
      if id in LastWins(s.overlay.entries) {
        var o :| 0 <= o < |s.overlay.entries| && s.overlay.entries[o].id == id;
        assert Counts(rules, s.overlay, {}, terms, o);
      } else {
        var o :| 0 <= o < |s.base.entries| && s.base.entries[o].id == id;
        assert Counts(rules, s.base, s.tomb, terms, o);
      }
    }
  }

  // ---------------------------------------------------------------------- any-of

  /** A candidate: its ID, the key it is attributed to, and its payload. */
  datatype Cand = Cand(id: Id, key: Key, payload: seq<byte>)

  /** The first key of an entry that analyzes to a looked-up term. */
  function FirstKey(rules: Rules, keys: seq<Key>, terms: seq<Key>): Key {
    if keys == [] then []
    else if rules.norm(keys[0]) != [] && rules.norm(keys[0]) in terms then keys[0]
    else FirstKey(rules, keys[1..], terms)
  }

  function CandOf(rules: Rules, e: Entry, terms: seq<Key>): Cand {
    Cand(e.id, FirstKey(rules, e.keys, terms), e.payload)
  }

  predicate SortedCands(out: seq<Cand>) {
    forall i, j | 0 <= i < j < |out| :: Less(out[i].id, out[j].id)
  }

  ghost function CandIds(out: seq<Cand>): set<Id> {
    set c | c in out :: c.id
  }

  /** The k smallest matching IDs, each once, in order (all of them when k is
      not positive). */
  ghost predicate AnyOfAnswer(out: seq<Cand>, live: Live, rules: Rules, terms: seq<Key>, k: int) {
    var m := Matching(live, rules, terms);
    && SortedCands(out)
    && CandIds(out) <= m
    && (forall x, y | x in m && x !in CandIds(out) && y in CandIds(out) :: Less(y, x))
    && |out| == (if k <= 0 || |m| <= k then |m| else k)
    && (forall c | c in out :: c.id in live && c == CandOf(rules, live[c.id], terms))
  }

  lemma TermsAsSet(rules: Rules, terms: seq<Key>, terms': seq<Key>, e: Entry)
    requires Elems(terms) == Elems(terms')
    ensures HoldsAny(rules, e, terms) <==> HoldsAny(rules, e, terms')
    ensures CandOf(rules, e, terms) == CandOf(rules, e, terms')
  {
    hide Holds;
    assert forall t :: t in terms <==> t in Elems(terms);
    assert forall t :: t in terms' <==> t in Elems(terms');
    FirstKeyAsSet(rules, e.keys, terms, terms');
  }

  lemma {:induction false} FirstKeyAsSet(rules: Rules, keys: seq<Key>, terms: seq<Key>, terms': seq<Key>)
    requires forall t :: t in terms <==> t in terms'
    ensures FirstKey(rules, keys, terms) == FirstKey(rules, keys, terms')
    decreases |keys|
  {
    if keys != [] {
      FirstKeyAsSet(rules, keys[1..], terms, terms');
    }
  }

  lemma {:induction false} SortedCandsUnique(a: seq<Cand>, b: seq<Cand>)
    requires SortedCands(a) && SortedCands(b) && Elems(a) == Elems(b)
    ensures a == b
    decreases |a|
  {
    hide Less;
    if a != [] && b != [] {
      assert a[0] in Elems(b) && b[0] in Elems(a);
      var i :| 0 <= i < |b| && b[i] == a[0];
      var j :| 0 <= j < |a| && a[j] == b[0];
      LessIrreflexive(a[0].id);
      if Less(a[0].id, b[0].id) && Less(b[0].id, a[0].id) {
        LessTransitive(a[0].id, b[0].id, a[0].id);
      }
      assert a[0] == b[0];
      TailElems(a);
      TailElems(b);
      SortedCandsUnique(a[1..], b[1..]);
    } else {
      EmptyElems(a);
      EmptyElems(b);
    }
  }

  lemma {:induction false} SortedIds(out: seq<Cand>)
    requires SortedCands(out)
    ensures |CandIds(out)| == |out|
    decreases |out|
  {
    if out != [] {
      var c := out[|out| - 1];
      SortedIds(out[..|out| - 1]);
      assert CandIds(out) == CandIds(out[..|out| - 1]) + {c.id};
      if c.id in CandIds(out[..|out| - 1]) {
        var d :| d in out[..|out| - 1] && d.id == c.id;
        LessIrreflexive(c.id);
      }
    }
  }

  /** Two sets of equally many smallest elements are the same. */
  lemma SmallestUnique(m: set<Id>, a: set<Id>, b: set<Id>, x: Id)
    requires a <= m && b <= m && |a| == |b| && x in a
    requires forall x, y | x in m && x !in a && y in a :: Less(y, x)
    requires forall x, y | x in m && x !in b && y in b :: Less(y, x)
    ensures x in b
  {
    if x !in b {
      assert |b - a| == |b| - |a * b| && |a - b| == |a| - |a * b| by {
        assert b == (b - a) + (a * b) && a == (a - b) + (a * b);
      }
      assert x in a - b;
      assert b - a != {};
      var y: Id :| y in b - a;
      LessIrreflexive(x);
      LessTransitive(x, y, x);
    }
  }

  /** An any-of answer depends on the live map and the set of terms alone: not
      on term order, or on how base, overlay and tombstones spell the map. */
  lemma AnyOfIsFunction(rules: Rules, live: Live, terms: seq<Key>, terms': seq<Key>, k: int, a: seq<Cand>, b: seq<Cand>)
    requires Elems(terms) == Elems(terms')
    requires AnyOfAnswer(a, live, rules, terms, k) && AnyOfAnswer(b, live, rules, terms', k)
    ensures a == b
  {
    hide Less, HoldsAny, SortedCands, CandOf;
    var m := Matching(live, rules, terms);
    assert m == Matching(live, rules, terms') by {
      forall id | id in live ensures HoldsAny(rules, live[id], terms) <==> HoldsAny(rules, live[id], terms') {
        TermsAsSet(rules, terms, terms', live[id]);
      }
    }
    SortedIds(a);
    SortedIds(b);
    SameCands(rules, live, terms, terms', a, b, m);
    SameCands(rules, live, terms', terms, b, a, m);
    SortedCandsUnique(a, b);
  }

  lemma SameCands(rules: Rules, live: Live, terms: seq<Key>, terms': seq<Key>, a: seq<Cand>, b: seq<Cand>, m: set<Id>)
    requires Elems(terms) == Elems(terms')
    requires CandIds(a) <= m && CandIds(b) <= m && |CandIds(a)| == |CandIds(b)|
    requires forall x, y | x in m && x !in CandIds(a) && y in CandIds(a) :: Less(y, x)
    requires forall x, y | x in m && x !in CandIds(b) && y in CandIds(b) :: Less(y, x)
    requires forall c | c in a :: c.id in live && c == CandOf(rules, live[c.id], terms)
    requires forall c | c in b :: c.id in live && c == CandOf(rules, live[c.id], terms')
    ensures Elems(a) <= Elems(b)
  {
    hide Less, CandOf, HoldsAny;
    forall c | c in a ensures c in b {
      assert c.id in CandIds(a);
      SmallestUnique(m, CandIds(a), CandIds(b), c.id);
      var d :| d in b && d.id == c.id;
      TermsAsSet(rules, terms, terms', live[c.id]);
    }
  }

  // ------------------------------------------------------------------- execution

  ghost function ItemsOf(rules: Rules, x: Indexed, overlay: bool, masked: set<Id>, terms: seq<Key>): set<IdHeap.Item> {
    set o: nat | o < |x.entries| && Counts(rules, x, masked, terms, o) ::
      IdHeap.Item(IdHeap.Place(overlay, o), x.entries[o].id)
  }

  ghost function AllItems(rules: Rules, s: Snapshot, terms: seq<Key>): set<IdHeap.Item> {
    ItemsOf(rules, s.base, false, s.tomb, terms) + ItemsOf(rules, s.overlay, true, {}, terms)
  }

  lemma ItemsOneToOne(rules: Rules, s: Snapshot, terms: seq<Key>)
    requires Good(rules, s)
    ensures IdHeap.OneToOne(AllItems(rules, s, terms))
  {
    hide HoldsAny, LiveIn, Matching, Coherent;
    MatchingByPlace(rules, s, terms);
    var b, v := IdsOf(rules, s.base, s.tomb, terms), IdsOf(rules, s.overlay, {}, terms);
    assert forall x | x in ItemsOf(rules, s.base, false, s.tomb, terms) :: x.id in b;
    assert forall x | x in ItemsOf(rules, s.overlay, true, {}, terms) :: x.id in v;
  }

  /** The items a prefix of a run of ordinals contributes. */
  ghost function RunItems(rules: Rules, x: Indexed, overlay: bool, masked: set<Id>, run: seq<nat>): set<IdHeap.Item> {
    set o | o in run && o < |x.entries| && x.entries[o].id !in masked && rules.pass(x.entries[o].payload) ::
      IdHeap.Item(IdHeap.Place(overlay, o), x.entries[o].id)
  }

  lemma SubOneToOne(a: set<IdHeap.Item>, b: set<IdHeap.Item>)
    requires IdHeap.OneToOne(b) && a <= b
    ensures IdHeap.OneToOne(a)
  {
  }

  /** Considers one reached entry. */
  method Offer(rules: Rules, e: Entry, masked: set<Id>, item: IdHeap.Item, sel: IdHeap.AnyOfSelection,
               ghost now: set<IdHeap.Item>)
    requires sel.Valid(now)
    requires e.id !in masked && rules.pass(e.payload) ==> IdHeap.OneToOne(now + {item})
    modifies sel`selected, sel`items
    ensures sel.Valid(now + if e.id !in masked && rules.pass(e.payload) then {item} else {})
  {
    hide IdHeap.AnyOfSelection.Valid, IdHeap.OneToOne;
    assert now + {} == now;
    if sel.Admits(item) {
      if e.id !in masked {
        if rules.pass(e.payload) {
          sel.Push(now, item);
        }
      }
    } else if e.id !in masked && rules.pass(e.payload) {
      sel.Refused(now, item);
    }
  }

  /** Offers one run of postings to the selection; false when canceled. */
  method WalkRun(rules: Rules, x: Indexed, overlay: bool, masked: set<Id>, run: seq<nat>, sel: IdHeap.AnyOfSelection,
                 background: bool, ghost seen: set<IdHeap.Item>, ghost all: set<IdHeap.Item>) returns (ok: bool)
    requires sel.Valid(seen) && IdHeap.OneToOne(all) && seen <= all
    requires (forall o | o in run :: o < |x.entries|) && RunItems(rules, x, overlay, masked, run) <= all
    modifies sel`selected, sel`items
    ensures ok ==> sel.Valid(seen + RunItems(rules, x, overlay, masked, run))
    ensures background ==> ok
  {
    hide IdHeap.AnyOfSelection.Valid, IdHeap.OneToOne, RunItems;
    ghost var now := seen;
    EmptyRun(rules, x, overlay, masked);
    for j := 0 to |run|
      invariant now == seen + RunItems(rules, x, overlay, masked, run[..j]) && now <= all && sel.Valid(now)
    {
      var canceled: bool :| background ==> !canceled;
      if canceled {
        return false;
      }
      assert run[j] in run;
      var e := x.entries[run[j]];
      var item := IdHeap.Item(IdHeap.Place(overlay, run[j]), e.id);
      RunStep(rules, x, overlay, masked, run, j);
      if e.id !in masked && rules.pass(e.payload) {
        SubOneToOne(now + {item}, all);
      }
      Offer(rules, e, masked, item, sel, now);
      now := now + if e.id !in masked && rules.pass(e.payload) then {item} else {};
    }
    assert run[..|run|] == run;
    return true;
  }

  lemma EmptyRun(rules: Rules, x: Indexed, overlay: bool, masked: set<Id>)
    ensures RunItems(rules, x, overlay, masked, []) == {}
  {
  }

  lemma RunStep(rules: Rules, x: Indexed, overlay: bool, masked: set<Id>, run: seq<nat>, j: nat)
    requires j < |run| && run[j] < |x.entries|
    ensures var e := x.entries[run[j]]; var item := IdHeap.Item(IdHeap.Place(overlay, run[j]), e.id);
            && RunItems(rules, x, overlay, masked, run[..j + 1]) == RunItems(rules, x, overlay, masked, run[..j]) +
                 (if e.id !in masked && rules.pass(e.payload) then {item} else {})
            && (e.id !in masked && rules.pass(e.payload) ==> item in RunItems(rules, x, overlay, masked, run))
  {
    assert run[..j + 1] == run[..j] + [run[j]];
    assert run[j] in run;
  }

  /** The items the first terms reach. */
  ghost function TermItems(rules: Rules, x: Indexed, overlay: bool, masked: set<Id>,
                           terms: seq<Key>): set<IdHeap.Item> {
    if terms == [] then {}
    else
      TermItems(rules, x, overlay, masked, terms[..|terms| - 1]) +
      RunItems(rules, x, overlay, masked, x.look(terms[|terms| - 1]))
  }

  lemma {:induction false} TermItemsAre(rules: Rules, x: Indexed, overlay: bool, masked: set<Id>, terms: seq<Key>)
    requires GoodIndex(rules, x)
    ensures TermItems(rules, x, overlay, masked, terms) == ItemsOf(rules, x, overlay, masked, terms)
    decreases |terms|
  {
    hide Holds;
    if terms != [] {
      var rest, t := terms[..|terms| - 1], terms[|terms| - 1];
      TermItemsAre(rules, x, overlay, masked, rest);
      forall o: nat | o < |x.entries|
        ensures Counts(rules, x, masked, terms, o) <==>
                  (Counts(rules, x, masked, rest, o) ||
                   (o in x.look(t) && x.entries[o].id !in masked && rules.pass(x.entries[o].payload)))
      {
        assert HoldsAny(rules, x.entries[o], terms) <==>
               HoldsAny(rules, x.entries[o], rest) || Holds(rules, x.entries[o], t);
      }
      forall item
        ensures item in TermItems(rules, x, overlay, masked, terms) <==>
                item in ItemsOf(rules, x, overlay, masked, terms)
      {
        if item in ItemsOf(rules, x, overlay, masked, terms) && item !in ItemsOf(rules, x, overlay, masked, rest) {
          assert item.place.ord in x.look(t);
        }
      }
    }
  }

  lemma TermItemsGrow(rules: Rules, x: Indexed, overlay: bool, masked: set<Id>, terms: seq<Key>, i: nat)
    requires i < |terms|
    ensures TermItems(rules, x, overlay, masked, terms[..i + 1]) ==
            TermItems(rules, x, overlay, masked, terms[..i]) + RunItems(rules, x, overlay, masked, x.look(terms[i]))
  {
    assert terms[..i + 1][..i] == terms[..i];
  }

  lemma RunWithin(rules: Rules, x: Indexed, overlay: bool, masked: set<Id>, terms: seq<Key>, i: nat)
    requires GoodIndex(rules, x) && i < |terms|
    ensures RunItems(rules, x, overlay, masked, x.look(terms[i])) <= ItemsOf(rules, x, overlay, masked, terms)
    ensures forall o | o in x.look(terms[i]) :: o < |x.entries|
  {
    hide Holds;
    assert terms[i] in terms;
  }

  /** Walks every term's run in one segment. */
  method Collect(rules: Rules, x: Indexed, overlay: bool, masked: set<Id>, terms: seq<Key>, sel: IdHeap.AnyOfSelection,
                 background: bool, ghost seen: set<IdHeap.Item>, ghost all: set<IdHeap.Item>) returns (ok: bool)
    requires GoodIndex(rules, x) && sel.Valid(seen) && IdHeap.OneToOne(all) && seen <= all
    requires ItemsOf(rules, x, overlay, masked, terms) <= all
    modifies sel`selected, sel`items
    ensures ok ==> sel.Valid(seen + ItemsOf(rules, x, overlay, masked, terms))
    ensures background ==> ok
  {
    hide GoodIndex, ItemsOf, RunItems, TermItems, IdHeap.OneToOne;
    ghost var now := seen;
    NoTerms(rules, x, overlay, masked);
    for i := 0 to |terms|
      invariant now == seen + TermItems(rules, x, overlay, masked, terms[..i]) && now <= all && sel.Valid(now)
    {
      RunWithin(rules, x, overlay, masked, terms, i);
      ok := WalkRun(rules, x, overlay, masked, x.look(terms[i]), sel, background, now, all);
      if !ok {
        return;
      }
      TermItemsGrow(rules, x, overlay, masked, terms, i);
      now := now + RunItems(rules, x, overlay, masked, x.look(terms[i]));
    }
    assert terms[..|terms|] == terms;
    TermItemsAre(rules, x, overlay, masked, terms);
    ok := true;
  }

  lemma NoTerms(rules: Rules, x: Indexed, overlay: bool, masked: set<Id>)
    ensures TermItems(rules, x, overlay, masked, []) == {}
  {
  }

  /** Runs an any-of lookup. */
  method AnyOf(rules: Rules, s: Snapshot, terms: seq<Key>, k: int, background: bool)
    returns (canceled: bool, out: seq<Cand>)
    requires Good(rules, s)
    ensures background ==> !canceled
    ensures canceled ==> out == []
    ensures !canceled ==> AnyOfAnswer(out, LiveIn(s), rules, terms, k)
  {
    hide GoodIndex, ItemsOf, IdHeap.OneToOne, AnyOfAnswer, LiveIn;
    canceled, out := true, [];
    var sel := new IdHeap.AnyOfSelection(k);
    ghost var all := AllItems(rules, s, terms);
    ItemsOneToOne(rules, s, terms);
    var ok := Collect(rules, s.base, false, s.tomb, terms, sel, background, {}, all);
    if !ok {
      return;
    }
    ghost var fromBase := ItemsOf(rules, s.base, false, s.tomb, terms);
    assert {} + fromBase == fromBase;
    ok := Collect(rules, s.overlay, true, {}, terms, sel, background, fromBase, all);
    if !ok {
      return;
    }
    canceled := false;
    SelectedFacts(rules, s, terms, k, sel.items);
    out := Sorted(rules, s, terms, sel.items);
    SelectedIsAnswer(rules, s, terms, k, sel.items, out);
  }

  /** The entry at a place. */
  function EntryAt(s: Snapshot, p: IdHeap.Place): Entry
    requires p.ord < |(if p.overlay then s.overlay else s.base).entries|
  {
    (if p.overlay then s.overlay else s.base).entries[p.ord]
  }

  ghost predicate Placed(s: Snapshot, items: seq<IdHeap.Item>) {
    forall x | x in items ::
      x.place.ord < |(if x.place.overlay then s.overlay else s.base).entries| && EntryAt(s, x.place).id == x.id
  }

  function InsertCand(c: Cand, r: seq<Cand>): seq<Cand> {
    if r == [] || Less(c.id, r[0].id) then [c] + r else [r[0]] + InsertCand(c, r[1..])
  }

  lemma {:induction false} InsertCandSorted(c: Cand, r: seq<Cand>)
    requires SortedCands(r) && c.id !in CandIds(r)
    ensures SortedCands(InsertCand(c, r)) && Elems(InsertCand(c, r)) == Elems(r) + {c}
    decreases |r|
  {
    hide Less;
    if r != [] {
      assert r[0].id in CandIds(r);
      LessTotal(c.id, r[0].id);
      if Less(c.id, r[0].id) {
        forall i | 0 < i < |r| ensures Less(c.id, r[i].id) {
          LessTransitive(c.id, r[0].id, r[i].id);
        }
      } else {
        InsertCandSorted(c, r[1..]);
        var t := InsertCand(c, r[1..]);
        forall i | 0 <= i < |t| ensures Less(r[0].id, t[i].id) {
          assert t[i] in Elems(r[1..]) + {c};
        }
        assert Elems(r) == Elems(r[1..]) + {r[0]};
        assert Elems([r[0]] + t) == {r[0]} + Elems(t);
      }
    }
  }

  /** The selected entries as candidates, in ID order. */
  method Sorted(rules: Rules, s: Snapshot, terms: seq<Key>, items: seq<IdHeap.Item>) returns (out: seq<Cand>)
    requires Placed(s, items) && forall i, j | 0 <= i < j < |items| :: items[i].id != items[j].id
    ensures SortedCands(out) && CandIds(out) == (set x | x in items :: x.id)
    ensures forall c | c in out :: exists x :: x in items && c == CandOf(rules, EntryAt(s, x.place), terms)
  {
    hide Less, SortedCands, InsertCand;
    out := [];
    NoCands();
    for i := 0 to |items|
      invariant SortedCands(out) && CandIds(out) == (set x | x in items[..i] :: x.id)
      invariant forall c | c in out :: exists x :: x in items && c == CandOf(rules, EntryAt(s, x.place), terms)
    {
      assert items[i] in items;
      var c := CandOf(rules, EntryAt(s, items[i].place), terms);
      InsertCandSorted(c, out);
      ghost var before := out;
      out := InsertCand(c, out);
      assert items[..i + 1] == items[..i] + [items[i]];
      IdsGrow(before, c, out);
      forall d | d in out ensures exists x :: x in items && d == CandOf(rules, EntryAt(s, x.place), terms) {
        assert d in Elems(out);
        if d == c {
          assert items[i] in items;
        } else {
          assert d in Elems(before);
        }
      }
    }
    assert items[..|items|] == items;
  }

  lemma NoCands()
    ensures SortedCands([]) && CandIds([]) == {}
  {
  }

  lemma IdsGrow(before: seq<Cand>, c: Cand, after: seq<Cand>)
    requires Elems(after) == Elems(before) + {c}
    ensures CandIds(after) == CandIds(before) + {c.id}
  {
    assert c in Elems(after);
    forall id | id in CandIds(before) ensures id in CandIds(after) {
      var d :| d in before && d.id == id;
      assert d in Elems(before);
      assert d in Elems(after);
    }
    forall id | id in CandIds(after) ensures id in CandIds(before) + {c.id} {
      var d :| d in after && d.id == id;
      assert d in Elems(after);
    }
  }

  lemma SelectedFacts(rules: Rules, s: Snapshot, terms: seq<Key>, k: int, items: seq<IdHeap.Item>)
    requires Good(rules, s) && NoDup(items) && IdHeap.Smallest(Elems(items), AllItems(rules, s, terms), k)
    ensures Placed(s, items)
    ensures forall i, j | 0 <= i < j < |items| :: items[i].id != items[j].id
  {
    hide GoodIndex, Counts;
    ItemsOneToOne(rules, s, terms);
    forall x | x in items ensures x in AllItems(rules, s, terms) {
      assert x in Elems(items);
    }
  }

  ghost function ItemIds(items: set<IdHeap.Item>): set<Id> {
    set x | x in items :: x.id
  }

  lemma {:induction false} ItemIdsSize(items: set<IdHeap.Item>)
    requires IdHeap.OneToOne(items)
    ensures |ItemIds(items)| == |items|
    decreases |items|
  {
    if items != {} {
      var x :| x in items;
      ItemIdsSize(items - {x});
      assert ItemIds(items) == ItemIds(items - {x}) + {x.id};
      assert x.id !in ItemIds(items - {x});
    }
  }

  lemma AllItemIds(rules: Rules, s: Snapshot, terms: seq<Key>)
    requires Good(rules, s)
    ensures ItemIds(AllItems(rules, s, terms)) == Matching(LiveIn(s), rules, terms)
    ensures |AllItems(rules, s, terms)| == |Matching(LiveIn(s), rules, terms)|
  {
    hide GoodIndex, LiveIn, Matching, HoldsAny;
    MatchingByPlace(rules, s, terms);
    ItemsOneToOne(rules, s, terms);
    ItemIdsSize(AllItems(rules, s, terms));
    var a, b := ItemsOf(rules, s.base, false, s.tomb, terms), ItemsOf(rules, s.overlay, true, {}, terms);
    assert ItemIds(a + b) == ItemIds(a) + ItemIds(b);
    SegmentIds(rules, s.base, false, s.tomb, terms);
    SegmentIds(rules, s.overlay, true, {}, terms);
  }

  lemma SegmentIds(rules: Rules, x: Indexed, overlay: bool, masked: set<Id>, terms: seq<Key>)
    ensures ItemIds(ItemsOf(rules, x, overlay, masked, terms)) == IdsOf(rules, x, masked, terms)
  {
    hide Counts;
    var a, b := ItemIds(ItemsOf(rules, x, overlay, masked, terms)), IdsOf(rules, x, masked, terms);
    forall id | id in b ensures id in a {
      var o: nat :| o < |x.entries| && Counts(rules, x, masked, terms, o) && x.entries[o].id == id;
      assert IdHeap.Item(IdHeap.Place(overlay, o), id) in ItemsOf(rules, x, overlay, masked, terms);
    }
  }

  /** The selection's candidates are the answer. */
  lemma SelectedIsAnswer(rules: Rules, s: Snapshot, terms: seq<Key>, k: int, items: seq<IdHeap.Item>, out: seq<Cand>)
    requires Good(rules, s) && NoDup(items) && IdHeap.Smallest(Elems(items), AllItems(rules, s, terms), k)
    requires Placed(s, items) && SortedCands(out) && CandIds(out) == (set x | x in items :: x.id)
    requires forall c | c in out :: exists x :: x in items && c == CandOf(rules, EntryAt(s, x.place), terms)
    ensures AnyOfAnswer(out, LiveIn(s), rules, terms, k)
  {
    hide GoodIndex, LiveIn, Matching, SortedCands, CandOf, AllItems, CandIds, IdHeap.OneToOne, EntryAt;
    var all, m := AllItems(rules, s, terms), Matching(LiveIn(s), rules, terms);
    ItemsOneToOne(rules, s, terms);
    AllItemIds(rules, s, terms);
    SubOneToOne(Elems(items), all);
    ItemIdsSize(Elems(items));
    assert CandIds(out) == ItemIds(Elems(items));
    SortedIds(out);
    SmallestIds(Elems(items), all, k);
    forall c | c in out ensures c.id in LiveIn(s) && c == CandOf(rules, LiveIn(s)[c.id], terms) {
      var x :| x in items && c == CandOf(rules, EntryAt(s, x.place), terms);
      assert x in Elems(items);
      LiveAtPlace(rules, s, terms, x);
      CandId(rules, EntryAt(s, x.place), terms);
    }
  }

  /** The smallest items have the smallest IDs. */
  lemma SmallestIds(kept: set<IdHeap.Item>, all: set<IdHeap.Item>, k: int)
    requires IdHeap.Smallest(kept, all, k)
    ensures ItemIds(kept) <= ItemIds(all)
    ensures forall x, y | x in ItemIds(all) && x !in ItemIds(kept) && y in ItemIds(kept) :: Less(y, x)
    ensures |kept| == if k <= 0 || |all| <= k then |all| else k
  {
    forall x, y | x in ItemIds(all) && x !in ItemIds(kept) && y in ItemIds(kept) ensures Less(y, x) {
      var a :| a in all && a.id == x;
      var b :| b in kept && b.id == y;
    }
  }

  lemma CandId(rules: Rules, e: Entry, terms: seq<Key>)
    ensures CandOf(rules, e, terms).id == e.id
  {
  }

  lemma LiveAtPlace(rules: Rules, s: Snapshot, terms: seq<Key>, x: IdHeap.Item)
    requires Good(rules, s) && x in AllItems(rules, s, terms)
    ensures x.place.ord < |(if x.place.overlay then s.overlay else s.base).entries|
    ensures x.id == EntryAt(s, x.place).id && x.id in LiveIn(s) && LiveIn(s)[x.id] == EntryAt(s, x.place)
  {
    hide GoodIndex, LiveIn, HoldsAny;
    MatchingByPlace(rules, s, terms);
  }
}
