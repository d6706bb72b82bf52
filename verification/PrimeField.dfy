/**
 Vanishing of constraint expressions over a prime field. A field element is its canonical
 representative, and an expression is an integer polynomial that vanishes when p divides it.
 */
module PrimeField {

  ghost predicate Prime(p: int)
  {
    p > 1 && forall d :: 1 < d < p ==> p % d != 0
  }

  ghost predicate Vanishes(p: int, e: int)
    requires p > 1
  {
    e % p == 0
  }

  lemma MultipleVanishes(p: int, k: int)
    requires p > 1
    ensures (p * k) % p == 0
  {
    ModUnique(p * k, p, k, 0);
  }

  lemma ModUnique(n: int, p: int, q: int, r: int)
    requires p > 0 && 0 <= r < p && n == p * q + r
    ensures n / p == q && n % p == r
  {
    var q', r' := n / p, n % p;
    assert n == p * q' + r';
    Distribute(p, q', q);
    if q' > q {
      GrowsBy(p, q' - q);
    } else if q' < q {
      GrowsBy(p, q - q');
      Distribute(p, q, q');
    }
  }

  lemma Distribute(p: int, a: int, b: int)
    ensures p * (a - b) == p * a - p * b
  {
  }

  lemma GrowsBy(p: int, d: int)
    requires p > 0 && d >= 1
    ensures p * d >= p
  {
    assert p * d == p + p * (d - 1);
  }

  /** A prime field has no zero divisors: the remainders of p by a shrink down to 1. */
  lemma {:induction false} NoZeroDivisors(p: int, a: int, b: int)
    requires Prime(p) && 0 < a < p && 0 < b < p
    ensures (a * b) % p != 0
    decreases a
  {
    if a == 1 {
      ModUnique(b, p, 0, b);
    } else {
      var r, q, k := p % a, p / a, (a * b) / p;
      NoZeroDivisors(p, r, b);
      if (a * b) % p == 0 {
        assert r * b == p * (b - q * k) by {
          assert p == q * a + r;
          assert a * b == p * k;
          assert r * b == p * b - q * (a * b);
        }
        MultipleVanishes(p, b - q * k);
        assert false;
      }
    }
  }

  /** v (v - 1) vanishes exactly on the two bits. */
  lemma BooleanRoots(p: int, v: int)
    requires Prime(p) && 0 <= v < p
    ensures Vanishes(p, v * (v - 1)) <==> v == 0 || v == 1
  {
    if v > 1 {
      NoZeroDivisors(p, v, v - 1);
    } else {
      assert v * (v - 1) == 0;
    }
  }

  /** The difference of two canonical elements vanishes exactly when they are equal. */
  lemma DifferenceVanishes(p: int, v: int, w: int)
    requires p > 1 && 0 <= v < p && 0 <= w < p
    ensures Vanishes(p, v - w) <==> v == w
  {
    if v >= w {
      ModUnique(v - w, p, 0, v - w);
    } else {
      ModUnique(v - w, p, -1, v - w + p);
    }
  }
}
