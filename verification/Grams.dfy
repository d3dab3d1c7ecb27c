/** Character n-grams (engine/ngram/ngram.go:193-207, 471-540): the index side
    derives them with CharGrams, the query side streams them with EachGram.
    Strings are sequences of runes. */
module Grams {

  /** The n-rune windows of s, left to right; s itself if it is shorter. */
  function Windows(s: string, n: nat): seq<string> {
    if |s| < n then [s] else seq(|s| - n + 1, j requires 0 <= j <= |s| - n => s[j..j + n])
  }

  ghost function GramSet(s: string, n: nat): set<string> {
    set g | g in Windows(s, n)
  }

  /** The grams of s over every configured size. */
  ghost function GramsOf(s: string, sizes: seq<nat>): set<string> {
    if sizes == [] then {} else GramsOf(s, sizes[..|sizes| - 1]) + GramSet(s, sizes[|sizes| - 1])
  }

  /** xs without repetitions and without what was seen: first occurrences, in order. */
  function Fresh(seen: set<string>, xs: seq<string>): seq<string>
    decreases xs
  {
    if xs == [] then []
    else if xs[0] in seen then Fresh(seen, xs[1..])
    else [xs[0]] + Fresh(seen + {xs[0]}, xs[1..])
  }

  function SetOf(xs: seq<string>): set<string> {
    set g | g in xs
  }

  lemma {:induction false} FreshSplit(seen: set<string>, a: seq<string>, b: seq<string>)
    ensures Fresh(seen, a + b) == Fresh(seen, a) + Fresh(seen + SetOf(a), b)
    decreases a
  {
    if a == [] {
      assert a + b == b && seen + SetOf(a) == seen;
    } else {
      assert (a + b)[1..] == a[1..] + b;
      FreshSplit(seen + {a[0]}, a[1..], b);
      assert seen + {a[0]} + SetOf(a[1..]) == seen + SetOf(a);
      if a[0] in seen {
        assert seen + {a[0]} == seen;
      }
    }
  }

  lemma {:induction false} FreshIsSet(seen: set<string>, xs: seq<string>)
    ensures SetOf(Fresh(seen, xs)) == SetOf(xs) - seen
    ensures forall i, j | 0 <= i < j < |Fresh(seen, xs)| :: Fresh(seen, xs)[i] != Fresh(seen, xs)[j]
    decreases xs
  {
    if xs != [] {
      FreshIsSet(seen + {xs[0]}, xs[1..]);
      assert SetOf(xs) == {xs[0]} + SetOf(xs[1..]);
      if xs[0] in seen {
        assert seen + {xs[0]} == seen;
      } else {
        var rest := Fresh(seen + {xs[0]}, xs[1..]);
        forall g | g in rest ensures g != xs[0] {
          assert g in SetOf(rest);
        }
        assert Fresh(seen, xs) == [xs[0]] + rest;
        assert SetOf(Fresh(seen, xs)) == {xs[0]} + SetOf(rest);
      }
    }
  }

  /** Deduplicating a part before deduplicating the whole changes nothing. */
  lemma {:induction false} FreshOfFresh(seen: set<string>, inner: set<string>, xs: seq<string>)
    requires inner <= seen
    ensures Fresh(seen, Fresh(inner, xs)) == Fresh(seen, xs)
    decreases xs
  {
    if xs != [] {
      if xs[0] in inner {
        FreshOfFresh(seen, inner, xs[1..]);
      } else {
        assert Fresh(inner, xs) == [xs[0]] + Fresh(inner + {xs[0]}, xs[1..]);
        assert Fresh(inner, xs)[1..] == Fresh(inner + {xs[0]}, xs[1..]);
        FreshOfFresh(seen + {xs[0]}, inner + {xs[0]}, xs[1..]);
        if xs[0] in seen {
          assert seen + {xs[0]} == seen;
        }
      }
    }
  }

  /** The distinct n-grams of s, in order of first occurrence. */
  method CharGrams(s: string, n: nat) returns (out: seq<string>)
    ensures out == Fresh({}, Windows(s, n))
  {
    hide Fresh;
    FreshOne({}, s);
    if |s| < n {
      assert Windows(s, n)[1..] == [];
      return [s];
    }
    ghost var w := Windows(s, n);
    out := [];
    var seen: set<string> := {};
    var i := 0;
    while i + n <= |s|
      invariant 0 <= i <= |w|
      invariant out == Fresh({}, w[..i]) && seen == SetOf(w[..i])
    {
      var g := s[i..i + n];
      assert g == w[i];
      FreshSplit({}, w[..i], [g]);
      assert w[..i + 1] == w[..i] + [g];
      assert {} + SetOf(w[..i]) == seen;
      FreshOne(seen, g);
      if g !in seen {
        seen := seen + {g};
        out := out + [g];
      }
      i := i + 1;
    }
    assert w[..i] == w;
  }

  lemma FreshOne(seen: set<string>, g: string)
    ensures Fresh(seen, []) == []
    ensures Fresh(seen, [g]) == if g in seen then [] else [g]
  {
  }

  /** One size of EachGram: extends what was emitted for the windows before. */
  method StreamSize(s: string, n: nat, emitted0: seq<string>, seen: set<string>, ghost seen0: set<string>,
                    ghost prefix: seq<string>)
    returns (emitted: seq<string>, seen': set<string>)
    requires emitted0 == Fresh(seen0, prefix) && seen == seen0 + SetOf(prefix)
    ensures emitted == Fresh(seen0, prefix + Windows(s, n))
    ensures seen' == seen0 + SetOf(prefix + Windows(s, n))
  {
    hide Fresh;
    emitted, seen' := emitted0, seen;
    ghost var w := Windows(s, n);
    if |s| < n {
      FreshSplit(seen0, prefix, [s]);
      FreshOne(seen, s);
      if s !in seen {
        seen' := seen + {s};
        emitted := emitted + [s];
      }
      return;
    }
    assert prefix + w[..0] == prefix;
    var j := 0;
    while j + n <= |s|
      invariant 0 <= j <= |w|
      invariant emitted == Fresh(seen0, prefix + w[..j])
      invariant seen' == seen0 + SetOf(prefix + w[..j])
    {
      var g := s[j..j + n];
      assert g == w[j];
      FreshSplit(seen0, prefix + w[..j], [g]);
      assert prefix + w[..j + 1] == prefix + w[..j] + [g];
      FreshOne(seen', g);
      if g !in seen' {
        seen' := seen' + {g};
        emitted := emitted + [g];
      }
      j := j + 1;
    }
    assert w[..j] == w;
  }

  /** Stream the grams of s that are not in `seen0`, sizes in order, windows
      left to right. */
  method EachGram(s: string, sizes: seq<nat>, seen0: set<string>) returns (emitted: seq<string>, seen: set<string>)
    ensures emitted == Fresh(seen0, AllWindows(s, sizes))
    ensures seen == seen0 + SetOf(AllWindows(s, sizes))
  {
    emitted, seen := [], seen0;
    for k := 0 to |sizes|
      invariant emitted == Fresh(seen0, AllWindows(s, sizes[..k]))
      invariant seen == seen0 + SetOf(AllWindows(s, sizes[..k]))
    {
      assert sizes[..k + 1][..k] == sizes[..k];
      emitted, seen := StreamSize(s, sizes[k], emitted, seen, seen0, AllWindows(s, sizes[..k]));
    }
    assert sizes[..|sizes|] == sizes;
  }

  function AllWindows(s: string, sizes: seq<nat>): seq<string> {
    if sizes == [] then [] else AllWindows(s, sizes[..|sizes| - 1]) + Windows(s, sizes[|sizes| - 1])
  }

  /** What the index side derives for every size, one CharGrams call a size. */
  function IndexGrams(s: string, sizes: seq<nat>): seq<string> {
    if sizes == [] then []
    else IndexGrams(s, sizes[..|sizes| - 1]) + Fresh({}, Windows(s, sizes[|sizes| - 1]))
  }

  lemma {:induction false} SameGramSet(s: string, sizes: seq<nat>)
    ensures SetOf(AllWindows(s, sizes)) == GramsOf(s, sizes)
    ensures SetOf(IndexGrams(s, sizes)) == GramsOf(s, sizes)
  {
    if sizes != [] {
      var front, w := sizes[..|sizes| - 1], Windows(s, sizes[|sizes| - 1]);
      SameGramSet(s, front);
      FreshIsSet({}, w);
      assert SetOf(AllWindows(s, sizes)) == SetOf(AllWindows(s, front)) + SetOf(w);
      assert SetOf(IndexGrams(s, sizes)) == SetOf(IndexGrams(s, front)) + SetOf(Fresh({}, w));
    }
  }

  /** The query side emits, in order, the deduplicated index-side grams: the
      two halves derive one gram set. */
  lemma {:induction false} QueryGramsAreIndexGrams(s: string, sizes: seq<nat>)
    ensures Fresh({}, IndexGrams(s, sizes)) == Fresh({}, AllWindows(s, sizes))
    ensures SetOf(Fresh({}, AllWindows(s, sizes))) == GramsOf(s, sizes)
  {
    SameGramSet(s, sizes);
    FreshIsSet({}, AllWindows(s, sizes));
    if sizes != [] {
      var front, w := sizes[..|sizes| - 1], Windows(s, sizes[|sizes| - 1]);
      QueryGramsAreIndexGrams(s, front);
      SameGramSet(s, front);
      FreshSplit({}, IndexGrams(s, front), Fresh({}, w));
      FreshSplit({}, AllWindows(s, front), w);
      FreshOfFresh({} + GramsOf(s, front), {}, w);
    }
  }

  /** A non-empty string has grams as soon as one size is configured. */
  lemma HasGrams(s: string, sizes: seq<nat>)
    requires sizes != []
    ensures GramsOf(s, sizes) != {}
  {
    var n := sizes[|sizes| - 1];
    assert Windows(s, n)[0] in GramSet(s, n);
  }
}
