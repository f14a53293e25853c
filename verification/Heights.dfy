/** Table heights: every committed matrix has a power of two of rows, at least four. */
module Heights {
  import opened Words

  ghost predicate IsPowerOfTwo(h: int) {
    exists k: nat :: h == Pow2(k)
  }

  /** `n.next_power_of_two().max(4)` */
  function PaddedHeight(n: nat): (h: nat)
    ensures h >= n && h >= 4 && (h == 4 || h < 2 * n)
  {
    Doubled(4, n)
  }

  function Doubled(h: nat, n: nat): (r: nat)
    requires h >= 4
    ensures r >= n && r >= h && (r == h || r < 2 * n)
    decreases n - h
  {
    if h >= n then h else Doubled(2 * h, n)
  }

  lemma {:induction false} DoubledIsPower(h: nat, n: nat)
    requires h >= 4 && IsPowerOfTwo(h)
    ensures IsPowerOfTwo(Doubled(h, n))
    decreases n - h
  {
    if h < n {
      var k: nat :| h == Pow2(k);
      assert 2 * h == Pow2(k + 1);
      DoubledIsPower(2 * h, n);
    }
  }

  /** The padded height is the least power of two that is at least four and holds n rows. */
  lemma {:induction false} PaddedHeightIsPower(n: nat)
    ensures IsPowerOfTwo(PaddedHeight(n)) && n <= PaddedHeight(n) && 4 <= PaddedHeight(n)
    ensures forall h: nat :: IsPowerOfTwo(h) && n <= h && 4 <= h ==> PaddedHeight(n) <= h
  {
    assert 4 == Pow2(2);
    DoubledIsPower(4, n);
    var j: nat :| PaddedHeight(n) == Pow2(j);
    forall h: nat | IsPowerOfTwo(h) && n <= h && 4 <= h ensures PaddedHeight(n) <= h {
      var k: nat :| h == Pow2(k);
      if k < j {
        HalfAtMost(k, j);
      } else {
        hide PaddedHeight;
        PowersGrow(j, k);
      }
    }
  }

  lemma {:induction false} PowersGrow(k: nat, j: nat)
    requires k <= j
    ensures Pow2(k) <= Pow2(j)
  {
    if k < j {
      PowersGrow(k, j - 1);
    }
  }

  lemma {:induction false} HalfAtMost(k: nat, j: nat)
    requires k < j
    ensures 2 * Pow2(k) <= Pow2(j)
  {
    PowersGrow(k, j - 1);
  }
}
