/** Integer arithmetic the other modules lean on: products, quotients, remainders and powers of two. */
module Arithmetic {
  import opened Words

  function Pow2(k: nat): (r: int)
    ensures 1 <= r
  {
    if k == 0 then 1 else 2 * Pow2(k - 1)
  }

  lemma {:induction false} Pow2Monotone(k: nat, n: nat)
    requires k <= n
    ensures Pow2(k) <= Pow2(n) && Pow2(n) % Pow2(k) == 0
    decreases n
  {
    if k == n {
    } else {
      Pow2Monotone(k, n - 1);
      var q := Pow2(n - 1) / Pow2(k);
      assert Pow2(n) == Pow2(k) * (2 * q) by { assert Pow2(n - 1) == Pow2(k) * q; }
      RemainderIs(Pow2(n), Pow2(k), 2 * q, 0);
    }
  }

  lemma {:induction false} Pow2Adds(a: nat, b: nat)
    ensures Pow2(a + b) == Pow2(a) * Pow2(b)
  {
    if b > 0 {
      Pow2Adds(a, b - 1);
      assert Pow2(a + b) == 2 * Pow2(a + b - 1);
      assert Pow2(a) * Pow2(b) == 2 * (Pow2(a) * Pow2(b - 1));
    }
  }

  lemma {:induction false} Pow2Of64()
    ensures Pow2(64) == TWO_64
  {
    Pow2Adds(8, 8);
    Pow2Adds(16, 16);
    Pow2Adds(32, 32);
  }

  lemma {:induction false} RemainderIs(x: int, d: int, q: int, r: int)
    requires 0 < d && x == d * q + r && 0 <= r < d
    ensures x % d == r && x / d == q
  {
    var q', r' := x / d, x % d;
    assert d * (q - q') == r' - r;
    SmallMultiple(d, q - q');
  }

  lemma {:induction false} SmallMultiple(d: int, k: int)
    requires 0 < d && -d < d * k < d
    ensures k == 0
  {
    if k >= 1 { AtLeastOnce(d, k); }
    if k <= -1 { AtLeastOnce(d, -k); }
  }

  lemma {:induction false} AtLeastOnce(d: int, k: int)
    requires 0 < d && 1 <= k
    ensures d <= d * k
    ensures d * -k == -(d * k)
  {
    assert d * 1 <= d * k;
  }

  lemma {:induction false} MultipleOrder(d: int, a: int, b: int)
    requires 0 < d && d * a < d * b + d
    ensures a <= b && d * a <= d * b
  {
    if a >= b + 1 { AtLeastOnce(d, a - b); }
  }

  /** `a > m / b` is an exact overflow test for `a * b > m`. */
  lemma {:induction false} QuotientBound(a: int, b: int, m: int)
    requires 0 <= a && 0 <= b && 0 <= m
    ensures 0 <= a * b
    ensures b != 0 ==> (a <= m / b <==> a * b <= m)
    ensures b == 0 ==> a * b == 0
  {
    if b != 0 {
      var q := m / b;
      assert m == b * q + m % b;
      if a <= q {
        assert a * b <= q * b;
      } else {
        assert (q + 1) * b <= a * b;
        assert (q + 1) * b == q * b + b;
      }
    }
  }

  /** Slot number `slot` of size `bytes` ends before slot number `limit` starts. */
  lemma {:induction false} SlotFits(slot: int, limit: int, bytes: int)
    requires 0 <= slot < limit && 0 <= bytes
    ensures 0 <= slot * bytes && slot * bytes + bytes <= limit * bytes
  {
    assert (slot + 1) * bytes <= limit * bytes;
    assert (slot + 1) * bytes == slot * bytes + bytes;
  }

  lemma {:induction false} ProductNonNegative(a: int, b: int)
    requires 0 <= a && 0 <= b
    ensures 0 <= a * b
  {
  }

  lemma {:induction false} BoundedProduct(a: int, b: int, m: int, n: int)
    requires 0 <= a <= m && 0 <= b <= n
    ensures 0 <= a * b <= m * n
  {
    assert a * b <= m * b;
    assert m * b <= m * n;
  }

  lemma {:induction false} PositiveFactor(a: int, b: int)
    requires 0 < a && 0 < a * b
    ensures a <= a * b
  {
    assert 0 < b;
    assert a * 1 <= a * b;
  }

  lemma {:induction false} QuotientAtMost(x: nat, d: nat)
    requires 0 < d
    ensures 0 <= x / d <= x
  {
    var q, r := x / d, x % d;
    assert x == d * q + r;
    if q > x { AtLeastOnce(q, d); }
  }
}
