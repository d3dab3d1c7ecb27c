/** Population count and highest bit of machine words, against the set of bit
    positions a word holds (Go's bits.OnesCount64 and bits.LeadingZeros64). */
module BitCount {

  predicate Bit(v: nat, p: nat) {
    if p == 0 then v % 2 == 1 else Bit(v / 2, p - 1)
  }

  function OnesCount(v: nat): nat {
    if v == 0 then 0 else v % 2 + OnesCount(v / 2)
  }

  /** The minimum number of bits that represent v: 64 - LeadingZeros64(v). */
  function Len(v: nat): nat {
    if v == 0 then 0 else 1 + Len(v / 2)
  }

  function Pow2(k: nat): (p: nat)
    ensures p > 0
  {
    if k == 0 then 1 else 2 * Pow2(k - 1)
  }

  ghost function BitsOf(v: nat, k: nat): set<nat> {
    set p: nat | p < k && Bit(v, p)
  }

  ghost function Shift(s: set<nat>, d: nat): set<nat> {
    set x | x in s :: x + d
  }

  lemma {:induction false} ShiftSize(s: set<nat>, d: nat)
    ensures |Shift(s, d)| == |s|
    decreases |s|
  {
    if |s| != 0 {
      var e :| e in s;
      ShiftSize(s - {e}, d);
      forall y | y in Shift(s, d) ensures y in Shift(s - {e}, d) + {e + d} {
        assert y == e + d || y - d in s - {e};
      }
      assert Shift(s, d) == Shift(s - {e}, d) + {e + d};
    } else {
      assert Shift(s, d) == {};
    }
  }

  lemma {:induction false} CountIsSize(v: nat, k: nat)
    requires v < Pow2(k)
    ensures |BitsOf(v, k)| == OnesCount(v)
  {
    if k == 0 {
      assert BitsOf(v, k) == {};
    } else {
      CountIsSize(v / 2, k - 1);
      ShiftSize(BitsOf(v / 2, k - 1), 1);
      BitsHalve(v, k);
      OnesHalve(v);
    }
  }

  /** The bits of a word are those of its half, one up, and its lowest. */
  lemma BitsHalve(v: nat, k: nat)
    requires k > 0
    ensures var up := Shift(BitsOf(v / 2, k - 1), 1);
            0 !in up && BitsOf(v, k) == if v % 2 == 1 then up + {0} else up
  {
    var up := Shift(BitsOf(v / 2, k - 1), 1);
    forall p | p in BitsOf(v, k) && p > 0 ensures p in up {
      assert p - 1 in BitsOf(v / 2, k - 1);
    }
  }

  lemma OnesHalve(v: nat)
    ensures OnesCount(v) == v % 2 + OnesCount(v / 2)
  {
  }

  /** Bit Len(v) - 1 is set, and nothing above it is. */
  lemma {:induction false} LenIsHighest(v: nat, p: nat)
    ensures v > 0 ==> Bit(v, Len(v) - 1)
    ensures p >= Len(v) ==> !Bit(v, p)
    decreases v + p
  {
    if v > 0 {
      LenIsHighest(v / 2, if p == 0 then 0 else p - 1);
    } else if p > 0 {
      LenIsHighest(0, p - 1);
    }
  }

  lemma {:induction false} LenBound(v: nat, k: nat)
    requires v < Pow2(k)
    ensures Len(v) <= k
  {
    if v > 0 {
      LenBound(v / 2, k - 1);
    }
  }

  lemma Pow2Is64()
    ensures Pow2(64) == 0x1_0000_0000_0000_0000
  {
    assert Pow2(8) == 0x100 by {
      assert Pow2(4) == 16;
    }
    assert Pow2(16) == 0x1_0000 by {
      assert Pow2(12) == 0x1000;
    }
    assert Pow2(24) == 0x100_0000 by {
      assert Pow2(20) == 0x10_0000;
    }
    assert Pow2(32) == 0x1_0000_0000 by {
      assert Pow2(28) == 0x1000_0000;
    }
    assert Pow2(40) == 0x100_0000_0000 by {
      assert Pow2(36) == 0x10_0000_0000;
    }
    assert Pow2(48) == 0x1_0000_0000_0000 by {
      assert Pow2(44) == 0x1000_0000_0000;
    }
    assert Pow2(56) == 0x100_0000_0000_0000 by {
      assert Pow2(52) == 0x10_0000_0000_0000;
    }
    assert Pow2(60) == 0x1000_0000_0000_0000;
  }
}
