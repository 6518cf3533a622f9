/**
 Matching and interpolation polynomials (common/apsi/util/interpolate.cpp).

 A coefficient vector that the source rewrites in place is the field of a class here. The
 divided-difference table is filled by the same two nested loops, and the inverse of a denominator
 is the power p - 2, as in the source.
 */
module Interpolate {
  import opened Wrappers
  import opened ModArith
  import opened Polynomials

  datatype InterpolateError = ModIsZero | SizeMismatch | ModNotPrime | RepeatedPoints

  predicate InField(c: seq<int>, p: nat) {
    forall i :: 0 <= i < |c| ==> 0 <= c[i] < p
  }

  // ---------- Specification of the matching polynomial ----------

  function Reduced(c: seq<int>, p: nat): (r: seq<nat>)
    requires p > 0
    ensures |r| == |c| && InField(r, p) && forall i :: 0 <= i < |c| ==> r[i] == c[i] % p
  {
    seq(|c|, i requires 0 <= i < |c| => c[i] % p)
  }

  lemma EvalReduced(c: seq<int>, p: nat, x: int)
    requires p > 0
    ensures Cong(Eval(Reduced(c, p), x), Eval(c, x), p)
  {
    forall i | 0 <= i < |c| ensures Cong(Reduced(c, p)[i], c[i], p) {
      CongReduce(c[i], p);
    }
    EvalCong(Reduced(c, p), c, x, p);
  }

  /** The product of (x - root) over the list of roots, over the integers. */
  function RootProduct(roots: seq<nat>, x: int): int {
    if roots == [] then 1
    else RootProduct(roots[..|roots| - 1], x) * (x - roots[|roots| - 1])
  }

  function RootsPolyn(roots: seq<nat>, p: nat): (c: seq<nat>)
    requires p > 1
    ensures |c| == |roots| + 1 && InField(c, p)
  {
    if roots == [] then [1]
    else Reduced(MulLinear(RootsPolyn(roots[..|roots| - 1], p), roots[|roots| - 1], 0), p)
  }

  /** The matching polynomial is the product of its linear factors. */
  lemma {:induction false} RootsPolynIsProduct(roots: seq<nat>, p: nat, x: int)
    requires p > 1
    ensures Cong(Eval(RootsPolyn(roots, p), x), RootProduct(roots, x), p)
  {
    if roots == [] {
      assert Eval([1], x) == 1 + x * Eval([], x);
    } else {
      var a, front := roots[|roots| - 1], roots[..|roots| - 1];
      var c := RootsPolyn(front, p);
      RootsPolynIsProduct(front, p, x);
      EvalReduced(MulLinear(c, a, 0), p, x);
      EvalMulLinear(c, a, 0, x);
      CongScale(Eval(RootsPolyn(roots, p), x), Eval(c, x), RootProduct(front, x), x - a, p);
    }
  }

  lemma CongScale(whole: int, part: int, value: int, factor: int, p: nat)
    requires p > 0 && Cong(whole, factor * part, p) && Cong(part, value, p)
    ensures Cong(whole, value * factor, p)
  {
    CongMul(factor, factor, part, value, p);
  }

  lemma {:induction false} RootsPolynMonic(roots: seq<nat>, p: nat)
    requires p > 1
    ensures RootsPolyn(roots, p)[|roots|] == 1
  {
    if roots != [] {
      RootsPolynMonic(roots[..|roots| - 1], p);
      MulLinearAt(RootsPolyn(roots[..|roots| - 1], p), roots[|roots| - 1], 0, |roots|);
      DivModUnique(1, 0, 1, p);
    }
  }

  lemma {:induction false} RootProductZero(roots: seq<nat>, p: nat, x: int)
    requires IsPrime(p)
    ensures Cong(RootProduct(roots, x), 0, p) <==> exists i :: 0 <= i < |roots| && Cong(x, roots[i], p)
  {
    if roots == [] {
      DivModUnique(1, 0, 1, p);
      DivModUnique(0, 0, 0, p);
    } else {
      var n := |roots|;
      var a, b := RootProduct(roots[..n - 1], x), x - roots[n - 1];
      RootProductZero(roots[..n - 1], p, x);
      if Cong(x, roots[n - 1], p) {
        CongSub(x, roots[n - 1], roots[n - 1], roots[n - 1], p);
        CongZeroMul(b, a, p);
      } else if Cong(a, 0, p) {
        CongZeroMul(a, b, p);
        var i :| 0 <= i < n - 1 && Cong(x, roots[..n - 1][i], p);
        assert Cong(x, roots[i], p);
      } else {
        if Cong(a * b, 0, p) {
          EuclidsLemma(p, a, b);
          CongAdd(b, 0, roots[n - 1], roots[n - 1], p);
        }
        forall i | 0 <= i < n ensures !Cong(x, roots[i], p) {
          if i < n - 1 { assert !Cong(x, roots[..n - 1][i], p); }
        }
      }
    }
  }

  /** For field elements, the matching polynomial vanishes at x exactly when x is one of its roots. */
  lemma MatchingZeroIffPresent(roots: seq<nat>, p: nat, x: nat)
    requires IsPrime(p) && InField(roots, p) && x < p
    ensures Eval(RootsPolyn(roots, p), x) % p == 0 <==> x in roots
  {
    RootsPolynIsProduct(roots, p, x);
    RootProductZero(roots, p, x);
    DivModUnique(0, 0, 0, p);
    if x in roots {
      var i :| 0 <= i < |roots| && roots[i] == x;
      assert Cong(x, roots[i], p);
    }
    if exists i :: 0 <= i < |roots| && Cong(x, roots[i], p) {
      var i :| 0 <= i < |roots| && Cong(x, roots[i], p);
      CongSmall(x, roots[i], p);
    }
  }

  // ---------- The in-place product ----------

  class CoeffVector {
    var coeffs: seq<nat>

    constructor (c: seq<nat>)
      ensures coeffs == c
    {
      coeffs := c;
    }

    /** Multiplies by (x - a) from right to left without a copy of the coefficients. */
    method MulMonicMonomialInplace(a: nat, p: nat)
      requires a < p && InField(coeffs, p)
      modifies this
      ensures coeffs == Reduced(MulLinear(old(coeffs), a, 0), p)
    {
      ghost var was := coeffs;
      ghost var goal := Reduced(MulLinear(was, a, 0), p);
      coeffs := coeffs + [0];
      var negA := (p - a) % p;

      var i := |coeffs| - 1;
      while i > 0
        invariant 0 <= i < |coeffs| == |goal|
        invariant forall k :: 0 <= k <= i ==> coeffs[k] == (was + [0])[k]
        invariant forall k :: i < k < |coeffs| ==> coeffs[k] == goal[k]
      {
        MulLinearAt(was, a, 0, i);
        NegatedProduct(coeffs[i], a, coeffs[i - 1], p);
        coeffs := coeffs[i := (coeffs[i] * negA + coeffs[i - 1]) % p];
        i := i - 1;
      }
      MulLinearAt(was, a, 0, 0);
      NegatedProduct(coeffs[0], a, 0, p);
      coeffs := coeffs[0 := coeffs[0] * negA % p];
      assert coeffs == goal;
    }
  }

  /** Adding a product with the negated operand is subtracting the product. */
  lemma NegatedProduct(c: int, a: nat, d: int, p: nat)
    requires a < p
    ensures (c * ((p - a) % p) + d) % p == (d - a * c) % p
  {
    CongReduce(p - a, p);
    var neg: int := 0 - a as int;
    CongFromQuotient(p - a, neg, 1, p);
    CongMul(c, c, (p - a) % p, neg, p);
    CongAdd(c * ((p - a) % p), c * neg, d, d, p);
    assert c * neg == -(a * c);
  }

  method PolynWithRoots(roots: seq<nat>, p: nat) returns (r: Result<seq<nat>, InterpolateError>)
    requires p != 1 && InField(roots, p)
    ensures p == 0 ==> r == Err(ModIsZero)
    ensures p > 1 ==> r == Ok(RootsPolyn(roots, p))
  {
    if p == 0 {
      return Err(ModIsZero);
    }
    var polyn := new CoeffVector([1]);
    for i := 0 to |roots|
      invariant polyn.coeffs == RootsPolyn(roots[..i], p)
    {
      assert roots[..i + 1][..i] == roots[..i];
      polyn.MulMonicMonomialInplace(roots[i], p);
    }
    assert roots[..|roots|] == roots;
    return Ok(polyn.coeffs);
  }

  // ---------- Divided differences ----------

  /** exponentiate_uint_mod(a, p - 2): the inverse of a nonzero field element. */
  function Inverse(a: nat, p: nat): (r: nat)
    requires p >= 2
    ensures r < p
  {
    Pow(a, p - 2) % p
  }

  lemma InverseCancels(a: nat, p: nat)
    requires IsPrime(p) && !Cong(a, 0, p)
    ensures Cong(a * Inverse(a, p), 1, p)
  {
    FermatLittle(p, a);
    CongReduce(Pow(a, p - 2), p);
    CongMul(a, a, Inverse(a, p), Pow(a, p - 2), p);
  }

  function DividedDifference(points: seq<nat>, values: seq<nat>, p: nat, i: nat, j: nat): (r: nat)
    requires |points| == |values| && i + j < |points| && p >= 2
    ensures j > 0 ==> r < p
    decreases j
  {
    if j == 0 then values[i]
    else
      var numerator := (DividedDifference(points, values, p, i + 1, j - 1)
                        - DividedDifference(points, values, p, i, j - 1)) % p;
      numerator * Inverse((points[i + j] - points[i]) % p, p) % p
  }

  function Gap(points: seq<nat>, i: nat, j: nat): int
    requires i + j < |points|
  {
    points[i + j] as int - points[i] as int
  }

  /** Multiplying a divided difference by its denominator gives back its numerator. */
  lemma DividedDifferenceStep(points: seq<nat>, values: seq<nat>, p: nat, i: nat, j: nat)
    requires |points| == |values| && i + j < |points| && j > 0
    requires IsPrime(p) && DistinctMod(points, p)
    ensures Cong(DividedDifference(points, values, p, i, j) * Gap(points, i, j),
                 DividedDifference(points, values, p, i + 1, j - 1) - DividedDifference(points, values, p, i, j - 1), p)
  {
    var gap := Gap(points, i, j);
    var den := gap % p;
    var diff := DividedDifference(points, values, p, i + 1, j - 1) - DividedDifference(points, values, p, i, j - 1);
    var num, inv := diff % p, Inverse(den, p);
    CongReduce(gap, p);
    CongReduce(diff, p);
    CongReduce(num * inv, p);
    assert !Cong(points[i], points[i + j], p);
    if Cong(den, 0, p) {
      CongAdd(gap, 0, points[i], points[i], p);
      assert false;
    }
    InverseCancels(den, p);
    CongMul(num * inv % p, num * inv, gap, den, p);
    assert (num * inv) * den == num * (den * inv) by { MulAssoc(num, inv, den); }
    CongMul(num, diff, den * inv, 1, p);
  }

  /** The product of (x - points[m]) for lo <= m < hi. */
  function Span(points: seq<nat>, lo: nat, hi: nat, x: int): int
    requires lo <= hi <= |points|
  {
    if lo == hi then 1 else Span(points, lo, hi - 1, x) * (x - points[hi - 1])
  }

  lemma {:induction false} SpanFront(points: seq<nat>, lo: nat, hi: nat, x: int)
    requires lo < hi <= |points|
    ensures Span(points, lo, hi, x) == (x - points[lo]) * Span(points, lo + 1, hi, x)
  {
    if lo + 1 < hi {
      SpanFront(points, lo, hi - 1, x);
      MulAssoc(x - points[lo], Span(points, lo + 1, hi - 1, x), x - points[hi - 1]);
    } else {
      assert Span(points, lo, lo, x) == 1;
    }
  }

  lemma {:induction false} SpanZero(points: seq<nat>, lo: nat, hi: nat, m: nat)
    requires lo <= m < hi <= |points|
    ensures Span(points, lo, hi, points[m]) == 0
  {
    if m < hi - 1 {
      SpanZero(points, lo, hi - 1, m);
    }
  }

  /** The Newton form over the cnt points that start at index i. */
  function NewtonForm(points: seq<nat>, values: seq<nat>, p: nat, i: nat, cnt: nat, x: int): int
    requires |points| == |values| && i + cnt <= |points| && p >= 2
  {
    if cnt == 0 then 0
    else NewtonForm(points, values, p, i, cnt - 1, x)
         + DividedDifference(points, values, p, i, cnt - 1) * Span(points, i, i + cnt - 1, x)
  }

  /** The same polynomial, with the first point split off instead of the last. */
  lemma {:induction false} NewtonFormReversed(points: seq<nat>, values: seq<nat>, p: nat, i: nat, cnt: nat, x: int)
    requires |points| == |values| && i + cnt <= |points| && cnt >= 1
    requires IsPrime(p) && DistinctMod(points, p)
    ensures Cong(NewtonForm(points, values, p, i, cnt, x),
                 NewtonForm(points, values, p, i + 1, cnt - 1, x)
                 + DividedDifference(points, values, p, i, cnt - 1) * Span(points, i + 1, i + cnt, x), p)
    decreases cnt
  {
    if cnt > 1 {
      var j := cnt - 1;
      var w := Span(points, i + 1, i + j, x);
      var d := DividedDifference(points, values, p, i, j);
      var d0 := DividedDifference(points, values, p, i, j - 1);
      var d1 := DividedDifference(points, values, p, i + 1, j - 1);
      var whole, lower := NewtonForm(points, values, p, i, j, x), NewtonForm(points, values, p, i + 1, j - 1, x);
      NewtonFormReversed(points, values, p, i, j, x);
      DividedDifferenceStep(points, values, p, i, j);
      SpanFront(points, i, i + j, x);
      NewtonStep(p, x, points[i], points[i + j], w, d, d0, d1, whole, lower);
    }
  }

  lemma NewtonStep(p: nat, x: int, a: int, b: int, w: int, d: int, d0: int, d1: int, whole: int, lower: int)
    requires p > 0 && Cong(whole, lower + d0 * w, p) && Cong(d * (b - a), d1 - d0, p)
    ensures Cong(whole + d * ((x - a) * w), (lower + d1 * w) + d * (w * (x - b)), p)
  {
    CongMul(d * (b - a), d1 - d0, w, w, p);
    CongAdd(whole, lower + d0 * w, (d * (b - a)) * w, (d1 - d0) * w, p);
    var t := d * (w * (x - b));
    CongAdd(whole + (d * (b - a)) * w, lower + d0 * w + (d1 - d0) * w, t, t, p);
    assert (d * (b - a)) * w + d * (w * (x - b)) == d * ((x - a) * w) by {
      MulAssoc(d, b - a, w);
      MulDist(d, (b - a) * w, w * (x - b));
      MulDist(w, b - a, x - b);
    }
    assert d0 * w + (d1 - d0) * w == d1 * w by { MulDist(w, d0, d1 - d0); }
  }

  /** The Newton form takes the prescribed value at each of its points. */
  lemma {:induction false} NewtonFormInterpolates(points: seq<nat>, values: seq<nat>, p: nat, i: nat, cnt: nat, m: nat)
    requires |points| == |values| && i + cnt <= |points| && i <= m < i + cnt
    requires IsPrime(p) && DistinctMod(points, p)
    ensures Cong(NewtonForm(points, values, p, i, cnt, points[m]), values[m], p)
    decreases cnt
  {
    var x := points[m];
    if cnt == 1 {
      assert NewtonForm(points, values, p, i, 0, x) == 0;
    } else if m < i + cnt - 1 {
      NewtonFormInterpolates(points, values, p, i, cnt - 1, m);
      SpanZero(points, i, i + cnt - 1, m);
    } else {
      var d, span := DividedDifference(points, values, p, i, cnt - 1), Span(points, i + 1, i + cnt, x);
      NewtonFormInterpolates(points, values, p, i + 1, cnt - 1, m);
      NewtonFormReversed(points, values, p, i, cnt, x);
      SpanZero(points, i + 1, i + cnt, m);
      assert d * span == 0;
    }
  }

  // ---------- Newton interpolation ----------

  predicate AllZero(values: seq<nat>) {
    forall i :: 0 <= i < |values| ==> values[i] == 0
  }

  predicate Distinct(points: seq<nat>) {
    forall i, j :: 0 <= i < j < |points| ==> points[i] != points[j]
  }

  lemma DistinctInField(points: seq<nat>, p: nat)
    requires p > 0 && InField(points, p) && Distinct(points)
    ensures DistinctMod(points, p)
  {
    forall i, j | 0 <= i < j < |points| ensures !Cong(points[i], points[j], p) {
      if Cong(points[i], points[j], p) {
        CongSmall(points[i], points[j], p);
      }
    }
  }

  /** c is the interpolation polynomial of the given points: right length, in the field, right values. */
  ghost predicate Interpolates(c: seq<nat>, points: seq<nat>, values: seq<nat>, p: nat)
    requires |points| == |values| && p > 0
  {
    && |c| == (if |points| == 0 then 1 else |points|)
    && InField(c, p)
    && forall i :: 0 <= i < |points| ==> Eval(c, points[i]) % p == values[i]
  }

  /** The points leave room for only one such polynomial. */
  lemma InterpolationUnique(c: seq<nat>, d: seq<nat>, points: seq<nat>, values: seq<nat>, p: nat)
    requires |points| == |values| > 0 && IsPrime(p) && InField(points, p) && Distinct(points)
    requires Interpolates(c, points, values, p) && Interpolates(d, points, values, p)
    ensures c == d
  {
    DistinctInField(points, p);
    AgreementIsEquality(c, d, points, p);
    forall i | 0 <= i < |c| ensures c[i] == d[i] {
      CongSmall(c[i], d[i], p);
    }
  }

  method NewtonInterpolatePolyn(points: seq<nat>, values: seq<nat>, p: nat)
    returns (r: Result<seq<nat>, InterpolateError>)
    requires InField(points, p) && InField(values, p)
    ensures r == Err(SizeMismatch) <==> |points| != |values|
    ensures r == Err(ModNotPrime) <==> |points| == |values| && !IsPrime(p)
    ensures r == Err(RepeatedPoints) <==>
            |points| == |values| && IsPrime(p) && !AllZero(values) && !Distinct(points)
    ensures r.Ok? <==> |points| == |values| && IsPrime(p) && (AllZero(values) || Distinct(points))
    ensures r.Ok? ==> Interpolates(r.value, points, values, p)
  {
    if |points| != |values| {
      return Err(SizeMismatch);
    }
    if !IsPrime(p) {
      return Err(ModNotPrime);
    }
    var size := |points|;
    if AllZero(values) {
      var zeros := seq(if size == 0 then 1 else size, _ => 0);
      forall i | 0 <= i < size ensures Eval(zeros, points[i]) % p == values[i] {
        EvalZeros(zeros, points[i]);
        DivModUnique(0, 0, 0, p);
      }
      return Ok(zeros);
    }

    var table := DividedDifferenceTable(points, values, p);
    if table.None? {
      return Err(RepeatedPoints);
    }
    DistinctInField(points, p);
    var c := HornerExpand(points, values, p, table.value);
    return Ok(c);
  }

  /** table[i][j] is the divided difference of the j + 1 points that start at i. */
  ghost predicate IsTable(table: seq<seq<nat>>, points: seq<nat>, values: seq<nat>, p: nat)
    requires |points| == |values| && p >= 2
  {
    && |table| == |points|
    && (forall i :: 0 <= i < |table| ==> |table[i]| <= |points| - i)
    && forall i, k :: 0 <= i < |table| && 0 <= k < |table[i]| ==>
                        table[i][k] == DividedDifference(points, values, p, i, k)
  }

  /** One entry of the table from its two neighbours in the previous column. */
  method NextDifference(points: seq<nat>, values: seq<nat>, p: nat, i: nat, j: nat, left: nat, right: nat)
    returns (r: Option<nat>)
    requires |points| == |values| && p >= 2 && InField(points, p) && j > 0 && i + j < |points|
    requires left == DividedDifference(points, values, p, i, j - 1)
    requires right == DividedDifference(points, values, p, i + 1, j - 1)
    ensures r.Some? <==> points[i] != points[i + j]
    ensures r.Some? ==> r.value == DividedDifference(points, values, p, i, j)
  {
    var numerator := (right - left) % p;
    var denominator := (points[i + j] - points[i]) % p;
    if denominator == 0 {
      ZeroGap(points[i + j], points[i], p);
      return None;
    }
    EqualGap(points[i + j], points[i], p);
    return Some(numerator * Inverse(denominator, p) % p);
  }

  /** Rows below i hold j + 1 entries, as far as they are that long; the others hold j. */
  predicate Filled(table: seq<seq<nat>>, i: nat, j: nat) {
    forall h :: 0 <= h < |table| ==>
                  |table[h]|
                    == (if h < i && j < |table| - h then j + 1 else if j <= |table| - h then j else |table| - h)
  }

  /** No two points less than j apart coincide. */
  predicate DistinctWithin(points: seq<nat>, j: nat) {
    forall i, k :: 0 <= i < k < |points| && k - i < j ==> points[i] != points[k]
  }

  /** Adds column j to the table; None stands for the exception at repeated points. */
  method FillColumn(points: seq<nat>, values: seq<nat>, p: nat, table: seq<seq<nat>>, j: nat)
    returns (r: Option<seq<seq<nat>>>)
    requires |points| == |values| && p >= 2 && InField(points, p) && 0 < j < |points|
    requires IsTable(table, points, values, p) && Filled(table, 0, j) && DistinctWithin(points, j)
    ensures r.Some? ==> IsTable(r.value, points, values, p) && Filled(r.value, 0, j + 1)
    ensures r.Some? <==> DistinctWithin(points, j + 1)
  {
    var t := table;
    for i := 0 to |points| - j
      invariant IsTable(t, points, values, p) && Filled(t, i, j)
      invariant forall h :: 0 <= h < i ==> points[h] != points[h + j]
    {
      var entry := NextDifference(points, values, p, i, j, t[i][j - 1], t[i + 1][j - 1]);
      if entry.None? {
        return None;
      }
      t := t[i := t[i] + [entry.value]];
    }
    forall i, k | 0 <= i < k < |points| && k - i < j + 1 ensures points[i] != points[k] {
      if k - i == j { assert points[i] != points[i + j]; }
    }
    return Some(t);
  }

  /** Fills the table column by column. */
  method DividedDifferenceTable(points: seq<nat>, values: seq<nat>, p: nat) returns (r: Option<seq<seq<nat>>>)
    requires |points| == |values| > 0 && p >= 2 && InField(points, p)
    ensures r.Some? <==> Distinct(points)
    ensures r.Some? ==> IsTable(r.value, points, values, p) && Filled(r.value, 0, |points|)
  {
    var table: seq<seq<nat>> := seq(|points|, i requires 0 <= i < |points| => [values[i]]);
    for j := 1 to |points|
      invariant IsTable(table, points, values, p) && Filled(table, 0, j) && DistinctWithin(points, j)
    {
      var next := FillColumn(points, values, p, table, j);
      if next.None? {
        return None;
      }
      table := next.value;
    }
    return Some(table);
  }

  /** Horner's method over the first row of the table, from the innermost term outwards. */
  method HornerExpand(points: seq<nat>, values: seq<nat>, p: nat, table: seq<seq<nat>>) returns (c: seq<nat>)
    requires |points| == |values| > 0 && IsPrime(p)
    requires InField(points, p) && InField(values, p) && DistinctMod(points, p)
    requires IsTable(table, points, values, p) && |table[0]| == |points|
    ensures Interpolates(c, points, values, p)
  {
    var result := new CoeffVector([0]);
    var i := |points| - 1;
    HornerStart(points, values, p);
    while i > 0
      invariant 0 <= i < |points| && fresh(result) && IsHorner(result.coeffs, points, values, p, i)
    {
      ghost var before := result.coeffs;
      result.coeffs := result.coeffs[0 := (result.coeffs[0] + table[0][i]) % p];
      ghost var mid := result.coeffs;
      result.MulMonicMonomialInplace(points[i - 1], p);
      HornerNext(before, mid, points, values, p, i);
      i := i - 1;
    }
    c := result.coeffs[0 := (result.coeffs[0] + table[0][0]) % p];
    forall m | 0 <= m < |points| ensures Eval(c, points[m]) % p == values[m] {
      assert HornerState(result.coeffs, points, values, p, 0, points[m]);
      HornerFinish(result.coeffs, c, points, values, p, m);
    }
    result.coeffs := c;
  }

  /** The coefficients while the terms below i are still to come. */
  ghost predicate IsHorner(c: seq<nat>, points: seq<nat>, values: seq<nat>, p: nat, i: nat)
    requires |points| == |values| && i < |points| && p >= 2
  {
    |c| == |points| - i && InField(c, p) && forall x: int :: HornerState(c, points, values, p, i, x)
  }

  lemma HornerStart(points: seq<nat>, values: seq<nat>, p: nat)
    requires |points| == |values| > 0 && p >= 2
    ensures IsHorner([0], points, values, p, |points| - 1)
  {
    var top: nat := |points| - 1;
    forall x: int ensures HornerState([0], points, values, p, top, x) {
      assert Eval([0], x) == 0 + x * Eval([], x);
    }
  }

  lemma HornerNext(before: seq<nat>, mid: seq<nat>, points: seq<nat>, values: seq<nat>, p: nat, i: nat)
    requires |points| == |values| && 0 < i < |points| && p >= 2 && IsHorner(before, points, values, p, i)
    requires mid == before[0 := (before[0] + DividedDifference(points, values, p, 0, i)) % p]
    ensures IsHorner(Reduced(MulLinear(mid, points[i - 1], 0), p), points, values, p, i - 1)
  {
    var after, next: nat := Reduced(MulLinear(mid, points[i - 1], 0), p), i - 1;
    forall x: int ensures HornerState(after, points, values, p, next, x) {
      assert HornerState(before, points, values, p, i, x);
      HornerStep(before, mid, points, values, p, i, x);
    }
  }

  lemma ZeroGap(a: nat, b: nat, p: nat)
    requires a < p && b < p && (a - b) % p == 0
    ensures a == b
  {
    DivModUnique(0, 0, 0, p);
    CongAdd(a - b, 0, b, b, p);
    CongSmall(a, b, p);
  }

  lemma EqualGap(a: nat, b: nat, p: nat)
    requires p > 0 && (a - b) % p != 0
    ensures a != b
  {
    DivModUnique(0, 0, 0, p);
  }

  /** After the terms above i, result * Span(0, i) + (Newton form of i + 1 terms) is the whole form. */
  ghost predicate HornerState(c: seq<nat>, points: seq<nat>, values: seq<nat>, p: nat, i: nat, x: int)
    requires |points| == |values| && i < |points| && p >= 2
  {
    Cong(Eval(c, x) * Span(points, 0, i, x) + NewtonForm(points, values, p, 0, i + 1, x),
         NewtonForm(points, values, p, 0, |points|, x), p)
  }

  lemma EvalBumpConstant(c: seq<nat>, d: seq<nat>, y: nat, p: nat, x: int)
    requires p > 0 && c != [] && d == c[0 := (c[0] + y) % p]
    ensures Cong(Eval(d, x), Eval(c, x) + y, p)
  {
    CongReduce(c[0] + y, p);
    var rest := x * Eval(c[1..], x);
    CongAdd(d[0], c[0] + y, rest, rest, p);
    assert d[1..] == c[1..];
  }

  lemma HornerStep(c: seq<nat>, d: seq<nat>, points: seq<nat>, values: seq<nat>, p: nat, i: nat, x: int)
    requires |points| == |values| && 0 < i < |points| && p >= 2 && c != []
    requires HornerState(c, points, values, p, i, x)
    requires d == c[0 := (c[0] + DividedDifference(points, values, p, 0, i)) % p]
    ensures HornerState(Reduced(MulLinear(d, points[i - 1], 0), p), points, values, p, i - 1, x)
  {
    var y := DividedDifference(points, values, p, 0, i);
    var s0, f := Span(points, 0, i - 1, x), x - points[i - 1];
    EvalBumpConstant(c, d, y, p, x);
    EvalReduced(MulLinear(d, points[i - 1], 0), p, x);
    EvalMulLinear(d, points[i - 1], 0, x);
    HornerAlgebra(Eval(Reduced(MulLinear(d, points[i - 1], 0), p), x), Eval(d, x), Eval(c, x), y, f, s0,
                  NewtonForm(points, values, p, 0, i, x), p);
  }

  lemma HornerAlgebra(next: int, bumped: int, was: int, y: int, f: int, s0: int, form: int, p: nat)
    requires p > 0 && Cong(next, f * bumped, p) && Cong(bumped, was + y, p)
    ensures Cong(next * s0 + form, was * (s0 * f) + (form + y * (s0 * f)), p)
  {
    CongScale(next, bumped, was + y, f, p);
    CongMul(next, (was + y) * f, s0, s0, p);
    assert ((was + y) * f) * s0 == was * (s0 * f) + y * (s0 * f) by {
      MulAssoc(was + y, f, s0);
      MulDist(s0 * f, was, y);
    }
    CongAdd(next * s0, ((was + y) * f) * s0, form, form, p);
  }

  lemma HornerFinish(c: seq<nat>, d: seq<nat>, points: seq<nat>, values: seq<nat>, p: nat, m: nat)
    requires |points| == |values| && m < |points| && c != []
    requires IsPrime(p) && DistinctMod(points, p) && InField(values, p)
    requires HornerState(c, points, values, p, 0, points[m])
    requires d == c[0 := (c[0] + DividedDifference(points, values, p, 0, 0)) % p]
    ensures Eval(d, points[m]) % p == values[m]
  {
    var x := points[m];
    EvalBumpConstant(c, d, values[0], p, x);
    assert NewtonForm(points, values, p, 0, 1, x)
             == NewtonForm(points, values, p, 0, 0, x) + values[0] * Span(points, 0, 0, x);
    assert Eval(c, x) * Span(points, 0, 0, x) == Eval(c, x);
    NewtonFormInterpolates(points, values, p, 0, |points|, m);
    DivModUnique(values[m], 0, values[m], p);
  }
}
