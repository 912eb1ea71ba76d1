/** Shifts and bits of numbers, in terms of division by powers of two. */
module Bits {
  import opened Common

  function Pow2(n: nat): (p: nat)
    ensures p > 0
  {
    if n == 0 then 1 else 2 * Pow2(n - 1)
  }

  lemma DivIs(value: nat, d: nat, q: nat)
    requires d > 0
    ensures value / d == q <==> q * d <= value < q * d + d
  {
    var k := value / d;
    assert value == k * d + value % d;
    if q < k {
      assert (q + 1) * d <= k * d;
    }
    if k < q {
      assert (k + 1) * d <= q * d;
    }
  }

  lemma HalfOfQuotient(value: nat, p: nat)
    requires p > 0
    ensures value / p / 2 == value / (2 * p)
  {
    var a, q := value / p, value / p / 2;
    var x := q * p;
    DivIs(value, p, a);
    assert a == 2 * q || a == 2 * q + 1;
    assert a * p == 2 * x || a * p == 2 * x + p by {
      assert (2 * q) * p == 2 * x && (2 * q + 1) * p == 2 * x + p;
    }
    assert q * (2 * p) == 2 * x;
    DivIs(value, 2 * p, q);
  }

  lemma QuotientOfHalf(value: nat, p: nat)
    requires p > 0
    ensures value / 2 / p == value / (2 * p)
  {
    var b, q := value / 2, value / 2 / p;
    var x := q * p;
    DivIs(b, p, q);
    assert q * (2 * p) == 2 * x;
    DivIs(value, 2 * p, q);
  }

  /** Shifting is dividing by a power of two. */
  lemma {:induction false} ShrDivides(value: nat, count: nat)
    ensures Shr(value, count) == value / Pow2(count)
  {
    if count > 0 {
      ShrDivides(value, count - 1);
      HalfOfQuotient(value, Pow2(count - 1));
    }
  }

  predicate BitAt(value: nat, i: nat) {
    value / Pow2(i) % 2 == 1
  }

  lemma NextBitAt(value: nat, i: nat)
    ensures BitAt(value, i + 1) <==> BitAt(value / 2, i)
  {
    QuotientOfHalf(value, Pow2(i));
  }

  /** The numbers have a common bit among their lowest `n`. */
  predicate Overlap(value: nat, mask: nat, n: nat) {
    n > 0 && ((value % 2 == 1 && mask % 2 == 1) || Overlap(value / 2, mask / 2, n - 1))
  }

  lemma {:induction false} OverlapHasBit(value: nat, mask: nat, n: nat) returns (i: nat)
    requires Overlap(value, mask, n)
    ensures i < n && BitAt(value, i) && BitAt(mask, i)
  {
    if value % 2 == 1 && mask % 2 == 1 {
      i := 0;
    } else {
      var j := OverlapHasBit(value / 2, mask / 2, n - 1);
      i := j + 1;
      NextBitAt(value, j);
      NextBitAt(mask, j);
    }
  }

  lemma {:induction false} CommonBitOverlaps(value: nat, mask: nat, n: nat, i: nat)
    requires i < n && BitAt(value, i) && BitAt(mask, i)
    ensures Overlap(value, mask, n)
  {
    if i > 0 {
      NextBitAt(value, i - 1);
      NextBitAt(mask, i - 1);
      CommonBitOverlaps(value / 2, mask / 2, n - 1, i - 1);
    }
  }

  lemma {:induction false} NothingOverlapsZero(value: nat, n: nat)
    ensures !Overlap(value, 0, n)
  {
    if n > 0 {
      NothingOverlapsZero(value / 2, n - 1);
    }
  }

  /** A mask of one bit tests that bit. */
  lemma {:induction false} OneBitMask(value: nat, k: nat, n: nat)
    requires k < n
    ensures Overlap(value, Pow2(k), n) <==> BitAt(value, k)
  {
    if k == 0 {
      NothingOverlapsZero(value / 2, n - 1);
    } else {
      OneBitMask(value / 2, k - 1, n - 1);
      NextBitAt(value, k - 1);
    }
  }

  lemma {:induction false} PowersAdd(a: nat, b: nat)
    ensures Pow2(a + b) == Pow2(a) * Pow2(b)
  {
    if b > 0 {
      PowersAdd(a, b - 1);
      assert Pow2(a + b) == 2 * (Pow2(a) * Pow2(b - 1)) == Pow2(a) * (2 * Pow2(b - 1));
    }
  }
}
