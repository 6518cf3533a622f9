/**
 Polynomials as coefficient lists in degree-ascending order, evaluated over the integers.

 Everything the rest of the project needs about coefficient lists is here: evaluation respects
 congruence, multiplication by a linear factor, Fermat's little theorem (through the binomial
 coefficients, which are themselves the coefficients of a product of linear factors), and the
 bound on the number of roots.
 */
module Polynomials {
  import opened ModArith

  function Eval(c: seq<int>, x: int): int {
    if c == [] then 0 else c[0] + x * Eval(c[1..], x)
  }

  /** The coefficients of (x - a) * c + carry. */
  function MulLinear(c: seq<int>, a: int, carry: int): (r: seq<int>)
    ensures |r| == |c| + 1
  {
    if c == [] then [carry] else [carry - a * c[0]] + MulLinear(c[1..], a, c[0])
  }

  lemma {:induction false} EvalMulLinear(c: seq<int>, a: int, carry: int, x: int)
    ensures Eval(MulLinear(c, a, carry), x) == carry + (x - a) * Eval(c, x)
  {
    if c == [] {
      assert Eval(MulLinear(c, a, carry), x) == carry + x * Eval([], x);
    } else {
      var rest := Eval(c[1..], x);
      EvalMulLinear(c[1..], a, c[0], x);
      assert MulLinear(c, a, carry)[1..] == MulLinear(c[1..], a, c[0]);
      LinearStep(x, a, c[0], rest);
    }
  }

  lemma LinearStep(x: int, a: int, c0: int, rest: int)
    ensures -a * c0 + x * (c0 + (x - a) * rest) == (x - a) * (c0 + x * rest)
  {
    MulDist(x, c0, (x - a) * rest);
    MulDist(x - a, c0, x * rest);
    MulAssoc(x, x - a, rest);
    MulAssoc(x - a, x, rest);
  }

  lemma {:induction false} MulLinearAt(c: seq<int>, a: int, carry: int, i: nat)
    requires i <= |c|
    ensures MulLinear(c, a, carry)[i] ==
            (if i == 0 then carry else c[i - 1]) - (if i < |c| then a * c[i] else 0)
  {
    if c != [] && i > 0 {
      MulLinearAt(c[1..], a, c[0], i - 1);
    }
  }

  lemma {:induction false} EvalCong(c: seq<int>, d: seq<int>, x: int, m: int)
    requires m > 0 && |c| == |d|
    requires forall i :: 0 <= i < |c| ==> Cong(c[i], d[i], m)
    ensures Cong(Eval(c, x), Eval(d, x), m)
  {
    if c != [] {
      EvalCong(c[1..], d[1..], x, m);
      CongMul(x, x, Eval(c[1..], x), Eval(d[1..], x), m);
      CongAdd(c[0], d[0], x * Eval(c[1..], x), x * Eval(d[1..], x), m);
    }
  }

  lemma {:induction false} EvalZeros(c: seq<int>, x: int)
    requires forall i :: 0 <= i < |c| ==> c[i] == 0
    ensures Eval(c, x) == 0
  {
    if c != [] {
      EvalZeros(c[1..], x);
    }
  }

  // ---------- Fermat's little theorem ----------

  /** Row n of Pascal's triangle: the coefficients of (x + 1)^n. */
  function PascalRow(n: nat): (r: seq<int>)
    ensures |r| == n + 1
  {
    if n == 0 then [1] else MulLinear(PascalRow(n - 1), -1, 0)
  }

  lemma {:induction false} EvalPascalRow(n: nat, x: int)
    ensures Eval(PascalRow(n), x) == Pow(x + 1, n)
  {
    if n == 0 {
      assert Eval([1], x) == 1 + x * Eval([], x);
    } else {
      EvalPascalRow(n - 1, x);
      EvalMulLinear(PascalRow(n - 1), -1, 0, x);
    }
  }

  lemma PascalRule(n: nat, k: nat)
    requires 1 <= n && k <= n
    ensures PascalRow(n)[k] ==
            (if k == 0 then 0 else PascalRow(n - 1)[k - 1]) + (if k < n then PascalRow(n - 1)[k] else 0)
  {
    MulLinearAt(PascalRow(n - 1), -1, 0, k);
  }

  lemma {:induction false} PascalEnds(n: nat)
    ensures PascalRow(n)[0] == 1 && PascalRow(n)[n] == 1
  {
    if n > 0 {
      PascalEnds(n - 1);
      PascalRule(n, 0);
      PascalRule(n, n);
    }
  }

  /** The absorption identity k * C(n, k) == n * C(n - 1, k - 1). */
  lemma {:induction false} Absorption(n: nat, k: nat)
    requires 1 <= k <= n
    ensures k * PascalRow(n)[k] == n * PascalRow(n - 1)[k - 1]
  {
    PascalRule(n, k);
    if k == n {
      PascalEnds(n);
      PascalEnds(n - 1);
    } else {
      PascalRule(n - 1, k - 1);
      Absorption(n - 1, k);
      if k == 1 {
        PascalEnds(n - 1);
        PascalEnds(n - 2);
        AbsorptionStep(n, k, 1, PascalRow(n - 1)[k], 0, 1);
      } else {
        Absorption(n - 1, k - 1);
        AbsorptionStep(n, k, PascalRow(n - 1)[k - 1], PascalRow(n - 1)[k], PascalRow(n - 2)[k - 2],
                       PascalRow(n - 2)[k - 1]);
      }
    }
  }

  lemma AbsorptionStep(n: int, k: int, c: int, d: int, e: int, f: int)
    requires (k - 1) * c == (n - 1) * e && k * d == (n - 1) * f && c == e + f
    ensures k * (c + d) == n * c
  {
    calc {
      k * (c + d);
      { MulDist(k, c, d); }
      k * c + k * d;
      (k - 1) * c + c + k * d;
      (n - 1) * e + (n - 1) * f + c;
      { MulDist(n - 1, e, f); }
      (n - 1) * c + c;
      n * c;
    }
  }

  lemma PrimeDividesPascal(p: nat, k: nat)
    requires IsPrime(p) && 1 <= k < p
    ensures Cong(PascalRow(p)[k], 0, p)
  {
    Absorption(p, k);
    CongFromQuotient(k * PascalRow(p)[k], 0, PascalRow(p - 1)[k - 1], p);
    NoSmallAnnihilator(p, k, PascalRow(p)[k]);
  }

  lemma {:induction false} EvalSparse(c: seq<int>, x: int)
    requires |c| >= 1
    requires forall i :: 0 <= i < |c| - 1 ==> c[i] == 0
    ensures Eval(c, x) == c[|c| - 1] * Pow(x, |c| - 1)
  {
    if |c| == 1 {
      assert Eval(c, x) == c[0] + x * Eval([], x);
    } else {
      EvalSparse(c[1..], x);
      MulAssoc(x, c[|c| - 1], Pow(x, |c| - 2));
      MulAssoc(c[|c| - 1], x, Pow(x, |c| - 2));
    }
  }

  /** The binomial theorem at a prime exponent, modulo that prime. */
  lemma FreshmansDream(p: nat, x: int)
    requires IsPrime(p)
    ensures Cong(Pow(x + 1, p), Pow(x, p) + 1, p)
  {
    var row := PascalRow(p);
    var sparse := seq(p + 1, i => if i == 0 || i == p then 1 else 0);
    PascalEnds(p);
    forall i | 0 <= i < |row| ensures Cong(row[i], sparse[i], p) {
      if 1 <= i < p {
        PrimeDividesPascal(p, i);
      }
    }
    EvalCong(row, sparse, x, p);
    EvalPascalRow(p, x);
    EvalSparse(sparse[1..], x);
  }

  lemma {:induction false} FermatNat(p: nat, a: nat)
    requires IsPrime(p)
    ensures Cong(Pow(a, p), a, p)
  {
    if a == 0 {
      assert Pow(0, p) == 0 * Pow(0, p - 1);
    } else {
      FermatNat(p, a - 1);
      FreshmansDream(p, a - 1);
      CongAdd(Pow(a - 1, p), a - 1, 1, 1, p);
    }
  }

  /** Fermat's little theorem. */
  lemma FermatLittle(p: nat, a: nat)
    requires IsPrime(p) && !Cong(a, 0, p)
    ensures Cong(Pow(a, p - 1), 1, p)
  {
    FermatNat(p, a);
    assert a * Pow(a, p - 1) == Pow(a, p);
    assert a * 1 == a;
    CongCancel(p, a, Pow(a, p - 1), 1);
  }

  // ---------- A polynomial has no more roots than its degree ----------

  /** The quotient of c by (x - a), by synthetic division. */
  function DivLinear(c: seq<int>, a: int): (q: seq<int>)
    requires c != []
    ensures |q| == |c| - 1
  {
    if |c| == 1 then [] else [Eval(c[1..], a)] + DivLinear(c[1..], a)
  }

  lemma {:induction false} EvalDivLinear(c: seq<int>, a: int, x: int)
    requires c != []
    ensures Eval(c, x) == Eval(c, a) + (x - a) * Eval(DivLinear(c, a), x)
  {
    if |c| == 1 {
      assert Eval(c[1..], x) == 0 && Eval(c[1..], a) == 0;
    } else {
      var r, q := Eval(c[1..], a), Eval(DivLinear(c[1..], a), x);
      EvalDivLinear(c[1..], a, x);
      assert DivLinear(c, a)[1..] == DivLinear(c[1..], a);
      assert Eval(DivLinear(c, a), x) == r + x * q;
      LinearStep(x, a, r, q);
      MulDist(x, r, (x - a) * q);
    }
  }

  ghost predicate DistinctMod(points: seq<int>, p: nat)
    requires p > 0
  {
    forall i, j :: 0 <= i < j < |points| ==> !Cong(points[i], points[j], p)
  }

  ghost predicate ZeroAt(c: seq<int>, points: seq<int>, p: nat)
    requires p > 0
  {
    forall i :: 0 <= i < |points| ==> Cong(Eval(c, points[i]), 0, p)
  }

  lemma {:induction false} ZeroQuotient(c: seq<int>, a: int, p: nat)
    requires p > 0 && c != []
    requires forall i :: 0 <= i < |c| - 1 ==> Cong(DivLinear(c, a)[i], 0, p)
    requires Cong(Eval(c, a), 0, p)
    ensures forall i :: 0 <= i < |c| ==> Cong(c[i], 0, p)
  {
    if |c| == 1 {
      assert Eval(c, a) == c[0] + a * Eval([], a);
    } else {
      var q := DivLinear(c, a);
      assert Cong(Eval(c[1..], a), 0, p) by { assert Cong(q[0], 0, p); }
      forall i | 0 <= i < |c| - 2 ensures Cong(DivLinear(c[1..], a)[i], 0, p) {
        assert Cong(q[i + 1], 0, p);
      }
      ZeroQuotient(c[1..], a, p);
      CongZeroMul(Eval(c[1..], a), a, p);
      CongSub(Eval(c, a), 0, a * Eval(c[1..], a), 0, p);
      forall i | 0 <= i < |c| ensures Cong(c[i], 0, p) {
        if i > 0 { assert Cong(c[1..][i - 1], 0, p); }
      }
    }
  }

  /** A polynomial with at most n coefficients that vanishes at n distinct points is zero. */
  lemma {:induction false} TooManyRoots(c: seq<int>, points: seq<int>, p: nat)
    requires IsPrime(p) && |c| <= |points|
    requires DistinctMod(points, p) && ZeroAt(c, points, p)
    ensures forall i :: 0 <= i < |c| ==> Cong(c[i], 0, p)
    decreases |c|
  {
    if c != [] {
      var a, rest := points[0], points[1..];
      var q := DivLinear(c, a);
      forall i | 0 <= i < |rest| ensures Cong(Eval(q, rest[i]), 0, p) {
        var x := rest[i];
        EvalDivLinear(c, a, x);
        assert Cong(Eval(c, points[i + 1]), 0, p) && Cong(Eval(c, points[0]), 0, p);
        assert !Cong(points[0], points[i + 1], p);
        CongSub(Eval(c, x), 0, Eval(c, a), 0, p);
        EuclidsLemma(p, x - a, Eval(q, x));
        if Cong(x - a, 0, p) {
          CongAdd(x - a, 0, a, a, p);
          assert false;
        }
      }
      forall i, j | 0 <= i < j < |rest| ensures !Cong(rest[i], rest[j], p) {
        assert !Cong(points[i + 1], points[j + 1], p);
      }
      TooManyRoots(q, rest, p);
      ZeroQuotient(c, a, p);
    }
  }

  function Minus(c: seq<int>, d: seq<int>): (r: seq<int>)
    requires |c| == |d|
    ensures |r| == |c| && forall i :: 0 <= i < |c| ==> r[i] == c[i] - d[i]
  {
    seq(|c|, i requires 0 <= i < |c| => c[i] - d[i])
  }

  lemma {:induction false} EvalMinus(c: seq<int>, d: seq<int>, x: int)
    requires |c| == |d|
    ensures Eval(Minus(c, d), x) == Eval(c, x) - Eval(d, x)
  {
    if c != [] {
      EvalMinus(c[1..], d[1..], x);
      assert Minus(c, d)[1..] == Minus(c[1..], d[1..]);
    }
  }

  /** Interpolation is unique: same length, same values at enough distinct points, same coefficients. */
  lemma AgreementIsEquality(c: seq<int>, d: seq<int>, points: seq<int>, p: nat)
    requires IsPrime(p) && |c| == |d| <= |points| && DistinctMod(points, p)
    requires forall i :: 0 <= i < |points| ==> Cong(Eval(c, points[i]), Eval(d, points[i]), p)
    ensures forall i :: 0 <= i < |c| ==> Cong(c[i], d[i], p)
  {
    forall i | 0 <= i < |points| ensures Cong(Eval(Minus(c, d), points[i]), 0, p) {
      var x := points[i];
      EvalMinus(c, d, x);
      CongSub(Eval(c, x), Eval(d, x), Eval(d, x), Eval(d, x), p);
    }
    TooManyRoots(Minus(c, d), points, p);
    forall i | 0 <= i < |c| ensures Cong(c[i], d[i], p) {
      assert Cong(Minus(c, d)[i], 0, p);
      CongAdd(c[i] - d[i], 0, d[i], d[i], p);
    }
  }
}
