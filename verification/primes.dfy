/**
 * Just enough elementary number theory to show that a product of the card
 * primes determines its factors: primality by finite search, and Euclid's
 * lemma (a prime dividing `q * x` for a prime `q` other than itself divides `x`).
 */
module Primes {

  ghost predicate IsPrime(p: int) {
    p >= 2 && forall d :: 2 <= d < p ==> p % d != 0
  }

  /** No `e` in `[d, p)` divides `p`; computable, so it can be evaluated on literals. */
  predicate NoDivisorFrom(p: nat, d: nat)
    requires d >= 2
    decreases p - d
  {
    d >= p || (p % d != 0 && NoDivisorFrom(p, d + 1))
  }

  lemma {:induction false} NoDivisorFromSound(p: nat, d: nat)
    requires 2 <= d && NoDivisorFrom(p, d)
    ensures forall e :: d <= e < p ==> p % e != 0
    decreases p - d
  {
    if d < p {
      NoDivisorFromSound(p, d + 1);
    }
  }

  lemma MulAtLeast(p: int, t: int)
    requires p > 0 && t >= 1
    ensures p * t >= p
  {
    assert p * t == p * (t - 1) + p;
  }

  /** The only multiple of `p` strictly between `-p` and `p` is zero. */
  lemma MulSmall(p: int, t: int)
    requires p > 0 && -p < p * t < p
    ensures t == 0
  {
    if t >= 1 {
      MulAtLeast(p, t);
    } else if t <= -1 {
      MulAtLeast(p, -t);
    }
  }

  lemma ModSplit(p: int, a: int, b: int)
    requires p > 0
    ensures (p * a + b) % p == b % p
  {
    var n := p * a + b;
    var q, r := n / p, n % p;
    var q2, r2 := b / p, b % p;
    assert p * (a + q2 - q) == r - r2;
    MulSmall(p, a + q2 - q);
  }

  /** Euclid's lemma for a factor below the prime, by descent on that factor. */
  lemma {:induction false} EuclidBelow(p: int, q: int, x: int)
    requires IsPrime(p) && 0 < q < p
    requires (q * x) % p == 0
    ensures x % p == 0
    decreases q
  {
    if q > 1 {
      var k, r := p / q, p % q;
      assert r != 0;
      var m := (q * x) / p;
      assert q * x == p * m;
      assert r * x == p * (x - k * m) by {
        assert p == k * q + r;
        assert r * x == p * x - k * (q * x);
      }
      ModSplit(p, x - k * m, 0);
      EuclidBelow(p, r, x);
    }
  }

  /** Euclid's lemma for two distinct primes. */
  lemma Euclid(p: int, q: int, x: int)
    requires IsPrime(p) && IsPrime(q) && p != q
    requires (q * x) % p == 0
    ensures x % p == 0
  {
    if q < p {
      EuclidBelow(p, q, x);
    } else {
      var k, r := q / p, q % p;
      assert r != 0;
      assert q * x == p * (k * x) + r * x by {
        assert q == k * p + r;
      }
      ModSplit(p, k * x, r * x);
      EuclidBelow(p, r, x);
    }
  }

  lemma MultipleMod(p: int, a: int)
    requires p > 0
    ensures (p * a) % p == 0
  {
    ModSplit(p, a, 0);
  }
}
