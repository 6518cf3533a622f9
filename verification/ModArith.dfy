/**
 Integer arithmetic modulo m, primality, and Fermat's little theorem.

 Field elements are kept as ordinary integers and compared up to congruence, so that every
 algebraic step is an identity over the integers followed by a congruence rule.
 */
module ModArith {

  // ---------- Powers ----------

  function Pow(a: int, n: nat): int {
    if n == 0 then 1 else a * Pow(a, n - 1)
  }

  lemma {:induction false} PowAdd(a: int, m: nat, n: nat)
    ensures Pow(a, m + n) == Pow(a, m) * Pow(a, n)
  {
    if m == 0 {
    } else {
      PowAdd(a, m - 1, n);
      MulAssoc(a, Pow(a, m - 1), Pow(a, n));
    }
  }

  lemma {:induction false} PowPow(a: int, m: nat, n: nat)
    ensures 0 <= m * n
    ensures Pow(Pow(a, m), n) == Pow(a, m * n)
  {
    MulNonNeg(m, n);
    if n == 0 {
    } else {
      PowPow(a, m, n - 1);
      MulNonNeg(m, n - 1);
      assert m * n == m + m * (n - 1) by { MulDist(m, 1, n - 1); }
      PowAdd(a, m, m * (n - 1));
    }
  }

  function TwoTo(n: nat): (r: nat)
    ensures r > 0
  {
    if n == 0 then 1 else 2 * TwoTo(n - 1)
  }

  lemma {:induction false} TwoToSplit(n: nat, m: nat)
    requires m <= n
    ensures TwoTo(n) == TwoTo(n - m) * TwoTo(m)
    decreases m
  {
    if m > 0 {
      TwoToSplit(n - 1, m - 1);
      assert TwoTo(n - m) * (2 * TwoTo(m - 1)) == 2 * (TwoTo(n - m) * TwoTo(m - 1)) by {
        MulAssoc(TwoTo(n - m), 2, TwoTo(m - 1));
        MulAssoc(2, TwoTo(n - m), TwoTo(m - 1));
      }
    }
  }

  // ---------- Integer identities used by the congruence rules ----------

  lemma MulAssoc(a: int, b: int, c: int)
    ensures a * (b * c) == (a * b) * c
  {
  }

  lemma MulDist(a: int, b: int, c: int)
    ensures a * (b + c) == a * b + a * c
  {
  }

  lemma MulNonNeg(a: int, b: int)
    requires a >= 0 && b >= 0
    ensures a * b >= 0
  {
  }

  lemma MulMonotone(n: nat, a: nat, b: nat)
    requires a <= b
    ensures n * a <= n * b
  {
  }

  lemma MulAtLeast(a: int, m: int)
    requires a >= 1 && m > 0
    ensures a * m >= m
  {
  }

  /** Quotient and remainder are unique. */
  lemma DivModUnique(x: int, q: int, r: int, m: int)
    requires m > 0 && 0 <= r < m && x == q * m + r
    ensures q == x / m && r == x % m
  {
    var d := q - x / m;
    assert d * m == q * m - (x / m) * m;
    if d >= 1 {
      MulAtLeast(d, m);
    } else if d <= -1 {
      MulAtLeast(-d, m);
    }
  }

  // ---------- Congruence ----------

  predicate Cong(a: int, b: int, m: int)
    requires m > 0
  {
    a % m == b % m
  }

  lemma CongQuotient(a: int, b: int, m: int) returns (k: int)
    requires m > 0 && Cong(a, b, m)
    ensures a - b == k * m
  {
    k := a / m - b / m;
    assert k * m == (a / m) * m - (b / m) * m;
  }

  lemma CongFromQuotient(a: int, b: int, k: int, m: int)
    requires m > 0 && a - b == k * m
    ensures Cong(a, b, m)
  {
    assert (b / m + k) * m == (b / m) * m + k * m;
    DivModUnique(a, b / m + k, b % m, m);
  }

  lemma CongAdd(a: int, b: int, c: int, d: int, m: int)
    requires m > 0 && Cong(a, b, m) && Cong(c, d, m)
    ensures Cong(a + c, b + d, m)
  {
    var k := CongQuotient(a, b, m);
    var l := CongQuotient(c, d, m);
    assert (k + l) * m == k * m + l * m;
    CongFromQuotient(a + c, b + d, k + l, m);
  }

  lemma CongSub(a: int, b: int, c: int, d: int, m: int)
    requires m > 0 && Cong(a, b, m) && Cong(c, d, m)
    ensures Cong(a - c, b - d, m)
  {
    var k := CongQuotient(a, b, m);
    var l := CongQuotient(c, d, m);
    assert (k - l) * m == k * m - l * m;
    CongFromQuotient(a - c, b - d, k - l, m);
  }

  lemma CongMul(a: int, b: int, c: int, d: int, m: int)
    requires m > 0 && Cong(a, b, m) && Cong(c, d, m)
    ensures Cong(a * c, b * d, m)
  {
    var k := CongQuotient(a, b, m);
    var l := CongQuotient(c, d, m);
    calc {
      a * c - b * d;
      { MulDist(c, a - b, b); }
      c * (a - b) + b * (c - d);
      c * (k * m) + b * (l * m);
      { MulAssoc(c, k, m); MulAssoc(b, l, m); }
      (c * k) * m + (b * l) * m;
      { MulDist(m, c * k, b * l); }
      (c * k + b * l) * m;
    }
    CongFromQuotient(a * c, b * d, c * k + b * l, m);
  }

  /** Reducing a value leaves its congruence class. */
  lemma CongReduce(a: int, m: int)
    requires m > 0
    ensures Cong(a % m, a, m)
  {
    assert (-(a / m)) * m == -((a / m) * m);
    CongFromQuotient(a % m, a, -(a / m), m);
  }

  lemma CongSmall(a: int, b: int, m: int)
    requires 0 <= a < m && 0 <= b < m && Cong(a, b, m)
    ensures a == b
  {
    DivModUnique(a, 0, a, m);
    DivModUnique(b, 0, b, m);
  }

  lemma CongZeroMul(a: int, b: int, m: int)
    requires m > 0 && Cong(a, 0, m)
    ensures Cong(a * b, 0, m) && Cong(b * a, 0, m)
  {
    CongMul(a, 0, b, b, m);
  }

  lemma {:induction false} CongPow(a: int, b: int, n: nat, m: int)
    requires m > 0 && Cong(a, b, m)
    ensures Cong(Pow(a, n), Pow(b, n), m)
  {
    if n == 0 {
    } else {
      CongPow(a, b, n - 1, m);
      CongMul(a, b, Pow(a, n - 1), Pow(b, n - 1), m);
    }
  }

  // ---------- Primes ----------

  predicate IsPrime(p: nat) {
    p >= 2 && forall d :: 2 <= d < p ==> p % d != 0
  }

  /** No smaller positive multiple-killer exists: the descent behind Euclid's lemma. */
  lemma {:induction false} NoSmallAnnihilator(p: nat, a: nat, b: int)
    requires IsPrime(p) && 0 < a < p && Cong(a * b, 0, p)
    ensures Cong(b, 0, p)
    decreases a
  {
    if a == 1 {
      assert a * b == b;
    } else {
      var q, r := p / a, p % a;
      assert p == q * a + r;
      assert r * b == p * b - q * (a * b) by {
        MulAssoc(q, a, b);
        MulDist(b, q * a, r);
      }
      CongFromQuotient(p * b, 0, b, p);
      CongZeroMul(a * b, q, p);
      CongSub(p * b, 0, q * (a * b), 0, p);
      NoSmallAnnihilator(p, r, b);
    }
  }

  /** Euclid's lemma: a prime that divides a product divides one of the factors. */
  lemma EuclidsLemma(p: nat, a: int, b: int)
    requires IsPrime(p) && Cong(a * b, 0, p)
    ensures Cong(a, 0, p) || Cong(b, 0, p)
  {
    var r := a % p;
    CongReduce(a, p);
    if r != 0 {
      CongMul(r, a, b, b, p);
      NoSmallAnnihilator(p, r, b);
    } else {
      DivModUnique(0, 0, 0, p);
    }
  }

  /** Cancellation of a factor that is not divisible by the prime. */
  lemma CongCancel(p: nat, a: int, b: int, c: int)
    requires IsPrime(p) && !Cong(a, 0, p) && Cong(a * b, a * c, p)
    ensures Cong(b, c, p)
  {
    CongSub(a * b, a * c, a * c, a * c, p);
    assert a * (b - c) == a * b - a * c by { MulDist(a, b - c, c); }
    EuclidsLemma(p, a, b - c);
    CongAdd(b - c, 0, c, c, p);
  }
}
