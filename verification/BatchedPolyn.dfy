/**
 Batched plaintext polynomials and their two evaluators (BatchedPlaintextPolyn in
 sender/apsi/bin_bundle.cpp).

 batched_coeffs[i] packs the degree-i coefficients of all bins. The direct evaluator and the
 Paterson-Stockmeyer evaluator are proved against the same meaning: slot s of the result is the
 polynomial of bin s at the query value of slot s.
 */
module BatchedPolyn {
  import opened Wrappers
  import opened ModArith
  import opened Polynomials
  import opened Seal

  datatype EvalError = NotEnoughPowers | BadLowDegree | FormMismatch

  // ---------- Meaning ----------

  /** The polynomial of one bin: the coefficients in slot s, lowest degree first. */
  function Column(coeffs: seq<Plaintext>, s: nat): (c: seq<nat>)
    requires forall d :: 0 <= d < |coeffs| ==> s < |coeffs[d].slots|
    ensures |c| == |coeffs|
  {
    seq(|coeffs|, d requires 0 <= d < |coeffs| => coeffs[d].slots[s])
  }

  predicate SlotCount(coeffs: seq<Plaintext>, n: nat) {
    forall d :: 0 <= d < |coeffs| ==> |coeffs[d].slots| == n
  }

  /** Ciphertext d of the list holds the d-th power of the query. */
  ghost predicate IsPower(powers: seq<Ciphertext>, x: seq<nat>, d: nat, p: nat)
    requires d < |powers| && p > 0
  {
    Holds(powers[d].slots, seq(|x|, s requires 0 <= s < |x| => Pow(x[s], d)), p)
  }

  /** The sum of coeffs[base + j] * x^j over lo <= j < hi, in slot s. */
  function TermSum(coeffs: seq<Plaintext>, s: nat, x: int, base: nat, lo: nat, hi: nat): int
    requires lo <= hi && base + hi <= |coeffs|
    requires forall d :: 0 <= d < |coeffs| ==> s < |coeffs[d].slots|
  {
    if lo == hi then 0 else TermSum(coeffs, s, x, base, lo, hi - 1) + coeffs[base + hi - 1].slots[s] * Pow(x, hi - 1)
  }

  function TermSums(coeffs: seq<Plaintext>, x: seq<nat>, base: nat, lo: nat, hi: nat): (v: seq<int>)
    requires lo <= hi && base + hi <= |coeffs| && SlotCount(coeffs, |x|)
    ensures |v| == |x|
  {
    seq(|x|, s requires 0 <= s < |x| => TermSum(coeffs, s, x[s], base, lo, hi))
  }

  lemma {:induction false} TermSumJoin(coeffs: seq<Plaintext>, s: nat, x: int, lo: nat, mid: nat, hi: nat)
    requires lo <= mid <= hi <= |coeffs|
    requires forall d :: 0 <= d < |coeffs| ==> s < |coeffs[d].slots|
    ensures TermSum(coeffs, s, x, 0, lo, hi) == TermSum(coeffs, s, x, 0, lo, mid) + TermSum(coeffs, s, x, 0, mid, hi)
    decreases hi
  {
    if mid < hi {
      TermSumJoin(coeffs, s, x, lo, mid, hi - 1);
    }
  }

  /** Multiplying an inner sum by a high power shifts it to its place. */
  lemma {:induction false} TermSumShift(coeffs: seq<Plaintext>, s: nat, x: int, base: nat, lo: nat, hi: nat)
    requires lo <= hi && base + hi <= |coeffs|
    requires forall d :: 0 <= d < |coeffs| ==> s < |coeffs[d].slots|
    ensures TermSum(coeffs, s, x, base, lo, hi) * Pow(x, base) == TermSum(coeffs, s, x, 0, base + lo, base + hi)
    decreases hi
  {
    if lo < hi {
      var inner, c := TermSum(coeffs, s, x, base, lo, hi - 1), coeffs[base + hi - 1].slots[s];
      var q, r := Pow(x, hi - 1), Pow(x, base);
      TermSumShift(coeffs, s, x, base, lo, hi - 1);
      PowAdd(x, base, hi - 1);
      assert (inner + c * q) * r == inner * r + c * (r * q) by {
        MulDist(r, inner, c * q);
        MulAssoc(c, q, r);
      }
    }
  }

  lemma {:induction false} TermSumIsEval(coeffs: seq<Plaintext>, s: nat, x: int, k: nat)
    requires k <= |coeffs| && forall d :: 0 <= d < |coeffs| ==> s < |coeffs[d].slots|
    ensures TermSum(coeffs, s, x, 0, k, |coeffs|) == Pow(x, k) * Eval(Column(coeffs, s)[k..], x)
    decreases |coeffs| - k
  {
    var col := Column(coeffs, s);
    if k < |coeffs| {
      TermSumIsEval(coeffs, s, x, k + 1);
      TermSumJoin(coeffs, s, x, k, k + 1, |coeffs|);
      assert TermSum(coeffs, s, x, 0, k, k + 1) == TermSum(coeffs, s, x, 0, k, k) + col[k] * Pow(x, k);
      assert col[k..][1..] == col[k + 1..];
      var e := Eval(col[k + 1..], x);
      assert Pow(x, k) * (col[k] + x * e) == col[k] * Pow(x, k) + (x * Pow(x, k)) * e by {
        MulDist(Pow(x, k), col[k], x * e);
        MulAssoc(Pow(x, k), x, e);
      }
    }
  }

  /** The polynomial of every bin at the query value of its slot. */
  ghost predicate EvaluatesTo(result: Ciphertext, coeffs: seq<Plaintext>, x: seq<nat>, p: nat)
    requires p > 0 && SlotCount(coeffs, |x|)
  {
    && !result.ntt && |result.slots| == |x|
    && forall s :: 0 <= s < |x| ==> result.slots[s] < p && result.slots[s] == Eval(Column(coeffs, s), x[s]) % p
  }

  lemma FullSumEvaluates(result: Ciphertext, coeffs: seq<Plaintext>, x: seq<nat>, p: nat)
    requires p > 0 && SlotCount(coeffs, |x|) && !result.ntt
    requires Holds(result.slots, TermSums(coeffs, x, 0, 0, |coeffs|), p)
    requires forall s :: 0 <= s < |result.slots| ==> result.slots[s] < p
    ensures EvaluatesTo(result, coeffs, x, p)
  {
    forall s | 0 <= s < |x| ensures result.slots[s] == Eval(Column(coeffs, s), x[s]) % p {
      TermSumIsEval(coeffs, s, x[s], 0);
      assert Column(coeffs, s)[0..] == Column(coeffs, s);
      assert TermSums(coeffs, x, 0, 0, |coeffs|)[s] == Eval(Column(coeffs, s), x[s]);
      DivModUnique(result.slots[s], 0, result.slots[s], p);
    }
  }

  // ---------- The direct evaluator ----------

  /** SEAL accepts every operation of eval exactly under this condition. */
  predicate EvalForms(coeffs: seq<Plaintext>, powers: seq<Ciphertext>)
    requires 0 < |coeffs| <= |powers|
  {
    !coeffs[0].ntt && forall d :: 1 <= d < |coeffs| ==> coeffs[d].ntt && powers[d].ntt
  }

  /** One more term: a coefficient times a power, added to a running sum. */
  lemma AddTerm(coeffs: seq<Plaintext>, powers: seq<Ciphertext>, x: seq<nat>, p: nat, base: nat, lo: nat, j: nat,
                sum: seq<nat>)
    requires p > 0 && SlotCount(coeffs, |x|) && base + j < |coeffs| && j < |powers| && lo <= j
    requires IsPower(powers, x, j, p) && Holds(sum, TermSums(coeffs, x, base, lo, j), p)
    ensures Holds(SlotSum(sum, SlotProduct(powers[j].slots, coeffs[base + j].slots, p), p),
                  TermSums(coeffs, x, base, lo, j + 1), p)
  {
    FirstTerm(coeffs, powers, x, p, base, j);
    forall s | 0 <= s < |x|
      ensures TermSums(coeffs, x, base, lo, j + 1)[s]
                == TermSums(coeffs, x, base, lo, j)[s] + TermSums(coeffs, x, base, j, j + 1)[s]
    {
      assert TermSum(coeffs, s, x[s], base, j, j) == 0;
    }
    HoldsSum(sum, SlotProduct(powers[j].slots, coeffs[base + j].slots, p),
             TermSums(coeffs, x, base, lo, j), TermSums(coeffs, x, base, j, j + 1),
             TermSums(coeffs, x, base, lo, j + 1), p);
  }

  lemma FirstTerm(coeffs: seq<Plaintext>, powers: seq<Ciphertext>, x: seq<nat>, p: nat, base: nat, j: nat)
    requires p > 0 && SlotCount(coeffs, |x|) && base + j < |coeffs| && j < |powers| && IsPower(powers, x, j, p)
    ensures Holds(SlotProduct(powers[j].slots, coeffs[base + j].slots, p), TermSums(coeffs, x, base, j, j + 1), p)
  {
    var c := coeffs[base + j].slots;
    var pows := seq(|x|, s requires 0 <= s < |x| => Pow(x[s], j));
    forall s | 0 <= s < |x| ensures TermSums(coeffs, x, base, j, j + 1)[s] == pows[s] * c[s] {
      assert TermSum(coeffs, s, x[s], base, j, j) == 0;
    }
    HoldsProduct(powers[j].slots, c, pows, c, TermSums(coeffs, x, base, j, j + 1), p);
  }

  method EvalPolyn(coeffs: seq<Plaintext>, powers: seq<Ciphertext>, p: nat, ghost x: seq<nat>)
    returns (r: Result<Ciphertext, EvalError>)
    requires p > 0 && coeffs != [] && SlotCount(coeffs, |x|)
    requires forall d :: 1 <= d < |coeffs| && d < |powers| ==> |powers[d].slots| == |x|
    ensures r == Err(NotEnoughPowers) <==> |powers| < |coeffs| || |powers| < 2
    ensures r != Err(BadLowDegree)
    ensures r.Ok? <==> |powers| >= |coeffs| && |powers| >= 2 && EvalForms(coeffs, powers)
    ensures r.Ok? && (forall d :: 1 <= d < |coeffs| ==> IsPower(powers, x, d, p)) ==> EvaluatesTo(r.value, coeffs, x, p)
  {
    if |powers| < |coeffs| || |powers| < 2 {
      return Err(NotEnoughPowers);
    }
    ghost var isPower := forall d :: 1 <= d < |coeffs| ==> IsPower(powers, x, d, p);
    var result := Ciphertext(seq(|coeffs[0].slots|, _ => 0), true);
    for deg := 1 to |coeffs|
      invariant result.ntt && |result.slots| == |x|
      invariant forall d :: 1 <= d < deg ==> coeffs[d].ntt && powers[d].ntt
      invariant isPower ==> Holds(result.slots, TermSums(coeffs, x, 0, 1, deg), p)
    {
      if powers[deg].ntt != coeffs[deg].ntt {
        return Err(FormMismatch);
      }
      var temp := MultiplyPlain(powers[deg], coeffs[deg], p);
      if result.ntt != temp.ntt {
        return Err(FormMismatch);
      }
      if isPower {
        AddTerm(coeffs, powers, x, p, 0, 1, deg, result.slots);
      }
      result := Add(result, temp, p);
    }
    result := TransformFromNtt(result);
    if coeffs[0].ntt {
      return Err(FormMismatch);
    }
    ghost var before := result.slots;
    result := AddPlain(result, coeffs[0], p);
    if isPower {
      AddConstant(coeffs, x, p, before);
      FullSumEvaluates(result, coeffs, x, p);
    }
    return Ok(result);
  }

  lemma AddConstant(coeffs: seq<Plaintext>, x: seq<nat>, p: nat, sum: seq<nat>)
    requires p > 0 && coeffs != [] && SlotCount(coeffs, |x|) && Holds(sum, TermSums(coeffs, x, 0, 1, |coeffs|), p)
    ensures Holds(SlotSum(sum, coeffs[0].slots, p), TermSums(coeffs, x, 0, 0, |coeffs|), p)
  {
    var whole, rest := TermSums(coeffs, x, 0, 0, |coeffs|), TermSums(coeffs, x, 0, 1, |coeffs|);
    forall s | 0 <= s < |x| ensures whole[s] == rest[s] + coeffs[0].slots[s] {
      TermSumJoin(coeffs, s, x[s], 0, 1, |coeffs|);
      assert TermSum(coeffs, s, x[s], 0, 0, 1) == TermSum(coeffs, s, x[s], 0, 0, 0) + coeffs[0].slots[s] * Pow(x[s], 0);
    }
    HoldsSum(sum, coeffs[0].slots, rest, coeffs[0].slots, whole, p);
  }

  // ---------- The Paterson-Stockmeyer evaluator ----------

  /** SEAL accepts every operation of eval_patstock exactly under this condition. */
  predicate PatstockForms(coeffs: seq<Plaintext>, powers: seq<Ciphertext>, high: nat)
    requires high > 1 && |coeffs| <= |powers|
  {
    && (forall d :: 0 <= d < |coeffs| ==> (coeffs[d].ntt <==> d % high != 0))
    && (forall j :: 1 <= j < high && j < |coeffs| ==> powers[j].ntt)
    && (forall d :: high <= d < |coeffs| && d % high == 0 ==> !powers[d].ntt)
  }

  /** Powers that eval_patstock never reads may be unset; the others have all slots. */
  predicate PatstockSized(coeffs: seq<Plaintext>, powers: seq<Ciphertext>, n: nat, high: nat) {
    forall d :: 1 <= d < |coeffs| && d < |powers| && (d < high || (high > 0 && d % high == 0)) ==>
      |powers[d].slots| == n
  }

  /** The powers that eval_patstock reads hold the powers of the query. */
  ghost predicate PatstockPowers(coeffs: seq<Plaintext>, powers: seq<Ciphertext>, x: seq<nat>, high: nat, p: nat)
    requires p > 0 && high > 1 && |coeffs| <= |powers|
  {
    forall d :: 1 <= d < |coeffs| && (d < high || d % high == 0) ==> IsPower(powers, x, d, p)
  }

  /** The terms with exponents in (i * high, i * high + high) for 1 <= i < k. */
  function Inners(coeffs: seq<Plaintext>, s: nat, x: int, high: nat, k: nat): int
    requires k >= 1 && high > 1 && 0 <= k * high <= |coeffs|
    requires forall d :: 0 <= d < |coeffs| ==> s < |coeffs[d].slots|
    decreases k
  {
    if k == 1 then 0
    else
      BlockBounds(k, high);
      Inners(coeffs, s, x, high, k - 1) + TermSum(coeffs, s, x, 0, (k - 1) * high + 1, k * high)
  }

  /** The terms with exponents i * high for 1 <= i < k. */
  function Heads(coeffs: seq<Plaintext>, s: nat, x: int, high: nat, k: nat): int
    requires k >= 1 && high > 1 && 0 <= (k - 1) * high < |coeffs|
    requires forall d :: 0 <= d < |coeffs| ==> s < |coeffs[d].slots|
    decreases k
  {
    if k == 1 then 0
    else
      BlockBounds(k - 1, high);
      Heads(coeffs, s, x, high, k - 1) + TermSum(coeffs, s, x, 0, (k - 1) * high, (k - 1) * high + 1)
  }

  lemma BlockBounds(k: nat, high: nat)
    requires k >= 1 && high > 1
    ensures 0 <= (k - 1) * high && (k - 1) * high + high == k * high
  {
    MulNonNeg(k - 1, high);
  }

  /** Blocks and heads below k * high make up the polynomial below k * high. */
  lemma {:induction false} BlocksJoin(coeffs: seq<Plaintext>, s: nat, x: int, high: nat, k: nat)
    requires k >= 1 && high > 1 && 0 <= k * high < |coeffs|
    requires forall d :: 0 <= d < |coeffs| ==> s < |coeffs[d].slots|
    ensures 0 <= (k - 1) * high
    ensures TermSum(coeffs, s, x, 0, 0, high) + Inners(coeffs, s, x, high, k) + Heads(coeffs, s, x, high, k)
            == TermSum(coeffs, s, x, 0, 0, k * high)
    decreases k
  {
    BlockBounds(k, high);
    if k > 1 {
      BlockBounds(k - 1, high);
      var start := (k - 1) * high;
      BlocksJoin(coeffs, s, x, high, k - 1);
      TermSumJoin(coeffs, s, x, 0, start, k * high);
      TermSumJoin(coeffs, s, x, start, start + 1, k * high);
    }
  }

  function InnersAll(coeffs: seq<Plaintext>, x: seq<nat>, high: nat, k: nat): (v: seq<int>)
    requires k >= 1 && high > 1 && 0 <= k * high <= |coeffs| && SlotCount(coeffs, |x|)
    ensures |v| == |x|
  {
    seq(|x|, s requires 0 <= s < |x| => Inners(coeffs, s, x[s], high, k))
  }

  function HeadsAll(coeffs: seq<Plaintext>, x: seq<nat>, high: nat, k: nat): (v: seq<int>)
    requires k >= 1 && high > 1 && 0 <= (k - 1) * high < |coeffs| && SlotCount(coeffs, |x|)
    ensures |v| == |x|
  {
    seq(|x|, s requires 0 <= s < |x| => Heads(coeffs, s, x[s], high, k))
  }

  function VectorSum(u: seq<int>, v: seq<int>): (w: seq<int>)
    requires |u| == |v|
    ensures |w| == |u| && forall s :: 0 <= s < |u| ==> w[s] == u[s] + v[s]
  {
    seq(|u|, s requires 0 <= s < |u| => u[s] + v[s])
  }

  lemma ResidueInBlock(i: nat, j: nat, high: nat)
    requires j < high
    ensures 0 <= i * high && (i * high + j) % high == j && (i * high + j) / high == i
  {
    MulNonNeg(i, high);
    DivModUnique(i * high + j, i, j, high);
  }

  predicate TermForm(coeffs: seq<Plaintext>, powers: seq<Ciphertext>, base: nat, j: nat, ntt: bool)
    requires base + j < |coeffs| && j < |powers|
  {
    coeffs[base + j].ntt == ntt && powers[j].ntt == ntt
  }

  /** An inner polynomial without its free term, back in coefficient form. */
  method InnerPolyn(coeffs: seq<Plaintext>, powers: seq<Ciphertext>, base: nat, count: nat, p: nat, ghost x: seq<nat>,
                    ghost good: bool)
    returns (r: Option<Ciphertext>)
    requires p > 0 && SlotCount(coeffs, |x|) && 1 <= count && base + count < |coeffs| && count < |powers|
    requires forall j :: 1 <= j <= count ==> |powers[j].slots| == |x|
    requires good ==> forall j :: 1 <= j <= count ==> IsPower(powers, x, j, p)
    ensures r.Some? <==> forall j :: 1 <= j <= count ==> TermForm(coeffs, powers, base, j, true)
    ensures r.Some? ==> !r.value.ntt && |r.value.slots| == |x|
    ensures r.Some? && good ==> Holds(r.value.slots, TermSums(coeffs, x, base, 1, count + 1), p)
  {
    if powers[1].ntt != coeffs[base + 1].ntt {
      assert !TermForm(coeffs, powers, base, 1, true);
      return None;
    }
    var tempIn := MultiplyPlain(powers[1], coeffs[base + 1], p);
    if good {
      FirstTerm(coeffs, powers, x, p, base, 1);
    }
    for j := 2 to count + 1
      invariant |tempIn.slots| == |x| && tempIn.ntt == powers[1].ntt
      invariant forall k :: 1 <= k < j ==> TermForm(coeffs, powers, base, k, powers[1].ntt)
      invariant good ==> Holds(tempIn.slots, TermSums(coeffs, x, base, 1, j), p)
    {
      if powers[j].ntt != coeffs[base + j].ntt || tempIn.ntt != powers[j].ntt {
        assert !(TermForm(coeffs, powers, base, j, true) && TermForm(coeffs, powers, base, 1, true));
        return None;
      }
      if good {
        AddTerm(coeffs, powers, x, p, base, 1, j, tempIn.slots);
      }
      tempIn := Add(tempIn, MultiplyPlain(powers[j], coeffs[base + j], p), p);
    }
    if !tempIn.ntt {
      assert !TermForm(coeffs, powers, base, 1, true);
      return None;
    }
    return Some(TransformFromNtt(tempIn));
  }

  /** One inner polynomial times its high power, added to the result. */
  method AddBlock(coeffs: seq<Plaintext>, powers: seq<Ciphertext>, result: Ciphertext, i: nat, high: nat, count: nat,
                  p: nat, ghost x: seq<nat>, ghost good: bool, ghost sum: seq<int>)
    returns (r: Option<Ciphertext>)
    requires p > 0 && SlotCount(coeffs, |x|) && |coeffs| <= |powers| && 1 <= i && 1 <= count < high
    requires i * high + count < |coeffs| && 0 < i * high
    requires PatstockSized(coeffs, powers, |x|, high)
    requires !result.ntt && |result.slots| == |x| == |sum|
    requires good ==> PatstockPowers(coeffs, powers, x, high, p) && Holds(result.slots, sum, p)
    ensures r.Some? ==> forall d :: i * high < d <= i * high + count ==> coeffs[d].ntt
    ensures r.None? ==> !PatstockForms(coeffs, powers, high)
    ensures r.Some? ==> !r.value.ntt && |r.value.slots| == |x|
    ensures r.Some? && good ==>
            Holds(r.value.slots, VectorSum(sum, TermSums(coeffs, x, 0, i * high + 1, i * high + count + 1)), p)
  {
    var base := i * high;
    ResidueInBlock(i, 0, high);
    var inner := InnerPolyn(coeffs, powers, base, count, p, x, good);
    if inner.None? {
      ghost var j :| 1 <= j <= count && !TermForm(coeffs, powers, base, j, true);
      ResidueInBlock(i, j, high);
      return None;
    }
    if powers[base].ntt {
      return None;
    }
    var product := Multiply(inner.value, powers[base], p);
    forall d | base < d <= base + count ensures coeffs[d].ntt {
      assert TermForm(coeffs, powers, base, d - base, true);
    }
    if good {
      BlockProduct(coeffs, powers, x, high, p, base, count, inner.value.slots);
      HoldsSum(result.slots, product.slots, sum, TermSums(coeffs, x, 0, base + 1, base + count + 1),
               VectorSum(sum, TermSums(coeffs, x, 0, base + 1, base + count + 1)), p);
    }
    return Some(Add(result, product, p));
  }

  lemma BlockProduct(coeffs: seq<Plaintext>, powers: seq<Ciphertext>, x: seq<nat>, high: nat, p: nat, base: nat,
                     count: nat, inner: seq<nat>)
    requires p > 0 && high > 1 && SlotCount(coeffs, |x|) && |coeffs| <= |powers| && base + count < |coeffs|
    requires 1 <= base && base % high == 0 && |powers[base].slots| == |x|
    requires PatstockPowers(coeffs, powers, x, high, p) && Holds(inner, TermSums(coeffs, x, base, 1, count + 1), p)
    ensures Holds(SlotProduct(inner, powers[base].slots, p), TermSums(coeffs, x, 0, base + 1, base + count + 1), p)
  {
    assert IsPower(powers, x, base, p);
    var pows := seq(|x|, s requires 0 <= s < |x| => Pow(x[s], base));
    var inners, shifted := TermSums(coeffs, x, base, 1, count + 1), TermSums(coeffs, x, 0, base + 1, base + count + 1);
    forall s | 0 <= s < |x| ensures shifted[s] == inners[s] * pows[s] {
      TermSumShift(coeffs, s, x[s], base, 1, count + 1);
    }
    HoldsProduct(inner, powers[base].slots, inners, pows, shifted, p);
  }

  /** One full block of the first loop. */
  method AddFullBlock(coeffs: seq<Plaintext>, powers: seq<Ciphertext>, result: Ciphertext, high: nat, i: nat, p: nat,
                      ghost x: seq<nat>, ghost good: bool)
    returns (r: Option<Ciphertext>)
    requires p > 0 && SlotCount(coeffs, |x|) && |coeffs| <= |powers| && high > 1 && i >= 1
    requires 0 < i * high && i * high + high == (i + 1) * high < |coeffs|
    requires PatstockSized(coeffs, powers, |x|, high)
    requires !result.ntt && |result.slots| == |x| && BlocksInNtt(coeffs, high, i * high)
    requires good ==>
               PatstockPowers(coeffs, powers, x, high, p) && Holds(result.slots, InnersAll(coeffs, x, high, i), p)
    ensures r.None? ==> !PatstockForms(coeffs, powers, high)
    ensures r.Some? ==> !r.value.ntt && |r.value.slots| == |x| && BlocksInNtt(coeffs, high, (i + 1) * high)
    ensures r.Some? && good ==> Holds(r.value.slots, InnersAll(coeffs, x, high, i + 1), p)
  {
    ghost var before := InnersAll(coeffs, x, high, i);
    r := AddBlock(coeffs, powers, result, i, high, high - 1, p, x, good, before);
    if r.Some? {
      NextBlockInNtt(coeffs, high, i, (i + 1) * high);
      InnersStep(coeffs, x, high, i, before);
    }
  }

  /** The first loop: the inner polynomials of the blocks 1, ..., h - 1, each times its high power. */
  method AddInnerBlocks(coeffs: seq<Plaintext>, powers: seq<Ciphertext>, result: Ciphertext, high: nat, h: nat, p: nat,
                        ghost x: seq<nat>, ghost good: bool)
    returns (r: Option<Ciphertext>)
    requires p > 0 && SlotCount(coeffs, |x|) && |coeffs| <= |powers| && high > 1 && h >= 1
    requires 0 <= h * high < |coeffs|
    requires PatstockSized(coeffs, powers, |x|, high)
    requires !result.ntt && result.slots == seq(|x|, _ => 0)
    requires good ==> PatstockPowers(coeffs, powers, x, high, p)
    ensures r.None? ==> !PatstockForms(coeffs, powers, high)
    ensures r.Some? ==> !r.value.ntt && |r.value.slots| == |x| && BlocksInNtt(coeffs, high, h * high)
    ensures r.Some? && good ==> Holds(r.value.slots, InnersAll(coeffs, x, high, h), p)
  {
    r := Some(result);
    NextBlockFits(0, h, high);
    for i := 1 to h
      invariant r.Some? && 0 < i * high <= h * high
      invariant !r.value.ntt && |r.value.slots| == |x| && BlocksInNtt(coeffs, high, i * high)
      invariant good ==> Holds(r.value.slots, InnersAll(coeffs, x, high, i), p)
    {
      NextBlockFits(i, h, high);
      r := AddFullBlock(coeffs, powers, r.value, high, i, p, x, good);
      if r.None? {
        return;
      }
    }
  }

  /** The last block, which stops at the degree and may be empty. */
  method AddLastBlock(coeffs: seq<Plaintext>, powers: seq<Ciphertext>, result: Ciphertext, high: nat, h: nat, p: nat,
                      ghost x: seq<nat>, ghost good: bool)
    returns (r: Option<Ciphertext>)
    requires p > 0 && SlotCount(coeffs, |x|) && 1 < |coeffs| <= |powers| && high > 1 && h >= 1
    requires 0 < h * high && h * high + (|coeffs| - 1) % high == |coeffs| - 1
    requires PatstockSized(coeffs, powers, |x|, high)
    requires !result.ntt && |result.slots| == |x| && BlocksInNtt(coeffs, high, h * high)
    requires good ==>
               PatstockPowers(coeffs, powers, x, high, p) && Holds(result.slots, InnersAll(coeffs, x, high, h), p)
    ensures r.None? ==> !PatstockForms(coeffs, powers, high)
    ensures r.Some? ==> !r.value.ntt && |r.value.slots| == |x| && BlocksInNtt(coeffs, high, |coeffs|)
    ensures r.Some? && good ==> Holds(r.value.slots,
            VectorSum(InnersAll(coeffs, x, high, h), TermSums(coeffs, x, 0, h * high + 1, |coeffs|)), p)
  {
    var rest := (|coeffs| - 1) % high;
    if rest > 0 {
      r := AddBlock(coeffs, powers, result, h, high, rest, p, x, good, InnersAll(coeffs, x, high, h));
    } else {
      r := Some(result);
      NothingLeft(coeffs, x, high, h);
    }
    if r.Some? {
      NextBlockInNtt(coeffs, high, h, |coeffs|);
    }
  }

  predicate BlocksInNtt(coeffs: seq<Plaintext>, high: nat, bound: nat)
    requires high > 0
  {
    forall d :: high <= d < bound && d < |coeffs| && d % high != 0 ==> coeffs[d].ntt
  }

  lemma NextBlockInNtt(coeffs: seq<Plaintext>, high: nat, i: nat, bound: nat)
    requires high > 0 && BlocksInNtt(coeffs, high, i * high) && bound <= i * high + high
    requires forall d :: i * high < d < bound && d < |coeffs| ==> coeffs[d].ntt
    ensures BlocksInNtt(coeffs, high, bound)
  {
    ResidueInBlock(i, 0, high);
  }

  lemma DegreeSplit(degree: nat, high: nat)
    requires high > 0
    ensures 0 <= (degree / high) * high && (degree / high) * high + degree % high == degree
  {
    MulNonNeg(degree / high, high);
  }

  lemma InnersStep(coeffs: seq<Plaintext>, x: seq<nat>, high: nat, i: nat, before: seq<int>)
    requires i >= 1 && high > 1 && SlotCount(coeffs, |x|)
    requires 0 <= i * high && i * high + high == (i + 1) * high <= |coeffs|
    requires before == InnersAll(coeffs, x, high, i)
    ensures InnersAll(coeffs, x, high, i + 1)
            == VectorSum(before, TermSums(coeffs, x, 0, i * high + 1, i * high + (high - 1) + 1))
  {
    var after := VectorSum(before, TermSums(coeffs, x, 0, i * high + 1, i * high + (high - 1) + 1));
    forall s | 0 <= s < |x| ensures InnersAll(coeffs, x, high, i + 1)[s] == after[s] {
      assert Inners(coeffs, s, x[s], high, i + 1)
          == Inners(coeffs, s, x[s], high, i) + TermSum(coeffs, s, x[s], 0, i * high + 1, (i + 1) * high);
    }
  }

  lemma NothingLeft(coeffs: seq<Plaintext>, x: seq<nat>, high: nat, h: nat)
    requires h >= 1 && high > 1 && SlotCount(coeffs, |x|) && 0 <= h * high && h * high + 1 == |coeffs|
    ensures VectorSum(InnersAll(coeffs, x, high, h), TermSums(coeffs, x, 0, h * high + 1, |coeffs|))
              == InnersAll(coeffs, x, high, h)
  {
  }

  lemma NextBlockFits(i: nat, h: nat, high: nat)
    requires i < h && high > 0
    ensures (i + 1) * high <= h * high && (i + 1) * high == i * high + high
  {
    MulNonNeg(h - i - 1, high);
    MulDist(high, h - i - 1, i + 1);
  }

  /** The first inner polynomial, one transformed term at a time. */
  method AddLowTerms(coeffs: seq<Plaintext>, powers: seq<Ciphertext>, result: Ciphertext, high: nat, p: nat,
                     ghost x: seq<nat>, ghost good: bool, ghost sum: seq<int>)
    returns (r: Option<Ciphertext>)
    requires p > 0 && SlotCount(coeffs, |x|) && 1 < high < |coeffs| <= |powers|
    requires PatstockSized(coeffs, powers, |x|, high)
    requires !result.ntt && |result.slots| == |x| == |sum|
    requires good ==> PatstockPowers(coeffs, powers, x, high, p) && Holds(result.slots, sum, p)
    ensures r.Some? ==> forall j :: 1 <= j < high ==> TermForm(coeffs, powers, 0, j, true)
    ensures r.None? ==> !PatstockForms(coeffs, powers, high)
    ensures r.Some? ==> !r.value.ntt && |r.value.slots| == |x|
    ensures r.Some? && good ==> Holds(r.value.slots, VectorSum(sum, TermSums(coeffs, x, 0, 1, high)), p)
  {
    var acc := result;
    for j := 1 to high
      invariant !acc.ntt && |acc.slots| == |x|
      invariant forall k :: 1 <= k < j ==> TermForm(coeffs, powers, 0, k, true)
      invariant good ==> Holds(acc.slots, VectorSum(sum, TermSums(coeffs, x, 0, 1, j)), p)
    {
      ResidueInBlock(0, j, high);
      if powers[j].ntt != coeffs[j].ntt || !powers[j].ntt {
        return None;
      }
      var temp := TransformFromNtt(MultiplyPlain(powers[j], coeffs[j], p));
      if good {
        AddSingle(coeffs, powers, x, p, j, acc.slots, VectorSum(sum, TermSums(coeffs, x, 0, 1, j)),
                  VectorSum(sum, TermSums(coeffs, x, 0, 1, j + 1)), 1, sum);
      }
      acc := Add(acc, temp, p);
    }
    return Some(acc);
  }

  lemma AddSingle(coeffs: seq<Plaintext>, powers: seq<Ciphertext>, x: seq<nat>, p: nat, j: nat, acc: seq<nat>,
                  u: seq<int>, w: seq<int>, lo: nat, sum: seq<int>)
    requires p > 0 && SlotCount(coeffs, |x|) && lo <= j < |coeffs| && j < |powers| && IsPower(powers, x, j, p)
    requires Holds(acc, u, p) && |u| == |w| == |x| == |sum|
    requires u == VectorSum(sum, TermSums(coeffs, x, 0, lo, j))
    requires w == VectorSum(sum, TermSums(coeffs, x, 0, lo, j + 1))
    ensures Holds(SlotSum(acc, SlotProduct(powers[j].slots, coeffs[j].slots, p), p), w, p)
  {
    FirstTerm(coeffs, powers, x, p, 0, j);
    forall s | 0 <= s < |x| ensures w[s] == u[s] + TermSums(coeffs, x, 0, j, j + 1)[s] {
      TermSumJoin(coeffs, s, x[s], lo, j, j + 1);
    }
    HoldsSum(acc, SlotProduct(powers[j].slots, coeffs[j].slots, p), u, TermSums(coeffs, x, 0, j, j + 1), w, p);
  }

  /** The free terms of the inner polynomials, times their high powers. */
  method AddHeads(coeffs: seq<Plaintext>, powers: seq<Ciphertext>, result: Ciphertext, high: nat, h: nat, p: nat,
                  ghost x: seq<nat>, ghost good: bool, ghost sum: seq<int>)
    returns (r: Option<Ciphertext>)
    requires p > 0 && SlotCount(coeffs, |x|) && 1 < |coeffs| <= |powers| && high > 1 && h >= 1
    requires h == (|coeffs| - 1) / high
    requires PatstockSized(coeffs, powers, |x|, high)
    requires !result.ntt && |result.slots| == |x| == |sum|
    requires good ==> PatstockPowers(coeffs, powers, x, high, p) && Holds(result.slots, sum, p)
    ensures 0 <= h * high < |coeffs|
    ensures r.Some? ==> forall d :: high <= d < |coeffs| && d % high == 0 ==> TermForm(coeffs, powers, 0, d, false)
    ensures r.None? ==> !PatstockForms(coeffs, powers, high)
    ensures r.Some? ==> !r.value.ntt && |r.value.slots| == |x|
    ensures r.Some? && good ==> Holds(r.value.slots, VectorSum(sum, HeadsAll(coeffs, x, high, h + 1)), p)
  {
    assert h * high <= |coeffs| - 1 < h * high + high;
    var acc := result;
    assert VectorSum(sum, HeadsAll(coeffs, x, high, 1)) == sum;
    for i := 1 to h + 1
      invariant 0 <= (i - 1) * high <= h * high
      invariant !acc.ntt && |acc.slots| == |x|
      invariant forall d :: high <= d < i * high && d < |coeffs| && d % high == 0 ==>
                  TermForm(coeffs, powers, 0, d, false)
      invariant good ==> Holds(acc.slots, VectorSum(sum, HeadsAll(coeffs, x, high, i)), p)
    {
      BlockBounds(i, high);
      NextBlockFits(i - 1, h, high);
      ResidueInBlock(i, 0, high);
      var d := i * high;
      if powers[d].ntt != coeffs[d].ntt || powers[d].ntt {
        return None;
      }
      var temp := MultiplyPlain(powers[d], coeffs[d], p);
      if good {
        HeadStep(coeffs, powers, x, high, p, i, acc.slots, sum);
      }
      acc := Add(acc, temp, p);
      forall e | high <= e < (i + 1) * high && e < |coeffs| && e % high == 0
        ensures TermForm(coeffs, powers, 0, e, false) {
        if e > d {
          ResidueInBlock(i, e - d, high);
        }
      }
    }
    return Some(acc);
  }

  lemma HeadStep(coeffs: seq<Plaintext>, powers: seq<Ciphertext>, x: seq<nat>, high: nat, p: nat, i: nat, acc: seq<nat>,
                 sum: seq<int>)
    requires p > 0 && high > 1 && i >= 1 && SlotCount(coeffs, |x|) && |coeffs| <= |powers| && |sum| == |x|
    requires 0 <= (i - 1) * high && 0 < i * high < |coeffs| && (i * high) % high == 0
    requires |powers[i * high].slots| == |x|
    requires PatstockPowers(coeffs, powers, x, high, p) && Holds(acc, VectorSum(sum, HeadsAll(coeffs, x, high, i)), p)
    ensures Holds(SlotSum(acc, SlotProduct(powers[i * high].slots, coeffs[i * high].slots, p), p),
                  VectorSum(sum, HeadsAll(coeffs, x, high, i + 1)), p)
  {
    var d := i * high;
    assert IsPower(powers, x, d, p);
    FirstTerm(coeffs, powers, x, p, 0, d);
    var u, w := VectorSum(sum, HeadsAll(coeffs, x, high, i)), VectorSum(sum, HeadsAll(coeffs, x, high, i + 1));
    var t := TermSums(coeffs, x, 0, d, d + 1);
    forall s | 0 <= s < |x| ensures w[s] == u[s] + t[s] {
      assert Heads(coeffs, s, x[s], high, i + 1)
               == Heads(coeffs, s, x[s], high, i) + TermSum(coeffs, s, x[s], 0, d, d + 1);
    }
    HoldsSum(acc, SlotProduct(powers[d].slots, coeffs[d].slots, p), u, t, w, p);
  }

  method EvalPatstock(coeffs: seq<Plaintext>, powers: seq<Ciphertext>, lowDegree: nat, p: nat, ghost x: seq<nat>)
    returns (r: Result<Ciphertext, EvalError>)
    requires p > 0 && coeffs != [] && SlotCount(coeffs, |x|)
    requires PatstockSized(coeffs, powers, |x|, lowDegree + 1)
    ensures r == Err(NotEnoughPowers) <==> |powers| < |coeffs| || |powers| < 2
    ensures r == Err(BadLowDegree) <==>
            |powers| >= |coeffs| && |powers| >= 2 && (lowDegree <= 1 || lowDegree >= |coeffs| - 1)
    ensures r.Ok? <==> && |powers| >= |coeffs| && |powers| >= 2 && 1 < lowDegree < |coeffs| - 1
                       && PatstockForms(coeffs, powers, lowDegree + 1)
    ensures r.Ok? && PatstockPowers(coeffs, powers, x, lowDegree + 1, p) ==> EvaluatesTo(r.value, coeffs, x, p)
  {
    if |powers| < |coeffs| || |powers| < 2 {
      return Err(NotEnoughPowers);
    }
    var degree := |coeffs| - 1;
    if lowDegree <= 1 || lowDegree >= degree {
      return Err(BadLowDegree);
    }
    var high := lowDegree + 1;
    var h := degree / high;
    DivPositive(degree, high);
    ghost var good := PatstockPowers(coeffs, powers, x, high, p);
    var result := Ciphertext(seq(|coeffs[0].slots|, _ => 0), false);

    DegreeSplit(degree, high);
    NextBlockFits(0, h, high);
    var blocks := AddInnerBlocks(coeffs, powers, result, high, h, p, x, good);
    if blocks.None? {
      return Err(FormMismatch);
    }
    var inner := AddLastBlock(coeffs, powers, blocks.value, high, h, p, x, good);
    if inner.None? {
      return Err(FormMismatch);
    }
    ghost var inners := VectorSum(InnersAll(coeffs, x, high, h), TermSums(coeffs, x, 0, h * high + 1, |coeffs|));
    var low := AddLowTerms(coeffs, powers, inner.value, high, p, x, good, inners);
    if low.None? {
      return Err(FormMismatch);
    }
    ghost var lows := VectorSum(inners, TermSums(coeffs, x, 0, 1, high));
    var heads := AddHeads(coeffs, powers, low.value, high, h, p, x, good, lows);
    if heads.None? {
      return Err(FormMismatch);
    }
    if coeffs[0].ntt {
      assert 0 % high == 0;
      return Err(FormMismatch);
    }
    var sum := AddPlain(heads.value, coeffs[0], p);
    if good {
      AllTogether(coeffs, x, high, h, p, heads.value.slots, inners, lows);
      FullSumEvaluates(sum, coeffs, x, p);
    }
    FormsTogether(coeffs, powers, high);
    return Ok(sum);
  }

  lemma DivPositive(n: nat, m: nat)
    requires 0 < m <= n
    ensures n / m >= 1
  {
  }

  lemma FormsTogether(coeffs: seq<Plaintext>, powers: seq<Ciphertext>, high: nat)
    requires 1 < high < |coeffs| <= |powers| && !coeffs[0].ntt
    requires BlocksInNtt(coeffs, high, |coeffs|)
    requires forall j :: 1 <= j < high ==> TermForm(coeffs, powers, 0, j, true)
    requires forall d :: high <= d < |coeffs| && d % high == 0 ==> TermForm(coeffs, powers, 0, d, false)
    ensures PatstockForms(coeffs, powers, high)
  {
    forall d | 0 <= d < |coeffs| ensures coeffs[d].ntt <==> d % high != 0 {
      if d < high {
        ResidueInBlock(0, d, high);
        assert d > 0 ==> TermForm(coeffs, powers, 0, d, true);
      } else if d % high == 0 {
        assert TermForm(coeffs, powers, 0, d, false);
      }
    }
    forall j | 1 <= j < high && j < |coeffs| ensures powers[j].ntt {
      assert TermForm(coeffs, powers, 0, j, true);
    }
    forall d | high <= d < |coeffs| && d % high == 0 ensures !powers[d].ntt {
      assert TermForm(coeffs, powers, 0, d, false);
    }
  }

  lemma AllTogether(coeffs: seq<Plaintext>, x: seq<nat>, high: nat, h: nat, p: nat, acc: seq<nat>, inners: seq<int>,
                    lows: seq<int>)
    requires p > 0 && SlotCount(coeffs, |x|) && 1 < high < |coeffs| && h >= 1 && 0 <= h * high < |coeffs|
    requires inners == VectorSum(InnersAll(coeffs, x, high, h), TermSums(coeffs, x, 0, h * high + 1, |coeffs|))
    requires lows == VectorSum(inners, TermSums(coeffs, x, 0, 1, high))
    requires Holds(acc, VectorSum(lows, HeadsAll(coeffs, x, high, h + 1)), p)
    ensures Holds(SlotSum(acc, coeffs[0].slots, p), TermSums(coeffs, x, 0, 0, |coeffs|), p)
  {
    var u, w := VectorSum(lows, HeadsAll(coeffs, x, high, h + 1)), TermSums(coeffs, x, 0, 0, |coeffs|);
    var c := coeffs[0].slots;
    forall s | 0 <= s < |x| ensures w[s] == u[s] + c[s] {
      var y, top := x[s], h * high;
      BlockBounds(h, high);
      BlocksJoin(coeffs, s, y, high, h);
      TermSumJoin(coeffs, s, y, 0, top, |coeffs|);
      TermSumJoin(coeffs, s, y, top, top + 1, |coeffs|);
      TermSumJoin(coeffs, s, y, 0, 1, high);
      assert TermSum(coeffs, s, y, 0, 0, 1) == TermSum(coeffs, s, y, 0, 0, 0) + c[s] * Pow(y, 0);
      assert Heads(coeffs, s, y, high, h + 1) == Heads(coeffs, s, y, high, h) + TermSum(coeffs, s, y, 0, top, top + 1);
    }
    HoldsSum(acc, c, u, c, w, p);
  }

  // ---------- Batching ----------

  /** Only the coefficients that are multiplied before any addition are kept in NTT form. */
  predicate CoeffInNtt(lowDegree: nat, i: nat) {
    if lowDegree == 0 then i != 0 else i % (lowDegree + 1) != 0
  }

  /** The plaintexts of a list of polynomials: padded columns, and the form each evaluator expects. */
  ghost predicate IsBatch(coeffs: seq<Plaintext>, polyns: seq<seq<nat>>, lowDegree: nat) {
    && |coeffs| > 0 && SlotCount(coeffs, |polyns|)
    && (forall s :: 0 <= s < |polyns| ==> |polyns[s]| <= |coeffs|)
    && (|coeffs| == 1 || exists s :: 0 <= s < |polyns| && |polyns[s]| == |coeffs|)
    && (forall i :: 0 <= i < |coeffs| ==> (coeffs[i].ntt <==> CoeffInNtt(lowDegree, i)))
    && forall i, s :: 0 <= i < |coeffs| && 0 <= s < |polyns| ==>
                        coeffs[i].slots[s] == if i < |polyns[s]| then polyns[s][i] else 0
  }

  method BatchPolyns(polyns: seq<seq<nat>>, lowDegree: nat) returns (coeffs: seq<Plaintext>)
    ensures IsBatch(coeffs, polyns, lowDegree)
  {
    var maxDeg: nat := 0;
    for s := 0 to |polyns|
      invariant forall k :: 0 <= k < s ==> |polyns[k]| <= maxDeg + 1
      invariant maxDeg == 0 || exists k :: 0 <= k < s && |polyns[k]| == maxDeg + 1
    {
      maxDeg := (if |polyns[s]| > maxDeg + 1 then |polyns[s]| else maxDeg + 1) - 1;
    }
    coeffs := [];
    for i := 0 to maxDeg + 1
      invariant |coeffs| == i && SlotCount(coeffs, |polyns|)
      invariant forall d :: 0 <= d < i ==> (coeffs[d].ntt <==> CoeffInNtt(lowDegree, d))
      invariant forall d, s :: 0 <= d < i && 0 <= s < |polyns| ==>
                                 coeffs[d].slots[s] == if d < |polyns[s]| then polyns[s][d] else 0
    {
      var column: seq<nat> := [];
      for s := 0 to |polyns|
        invariant |column| == s
        invariant forall k :: 0 <= k < s ==> column[k] == if i < |polyns[k]| then polyns[k][i] else 0
      {
        var coeff := 0;
        if i < |polyns[s]| {
          coeff := polyns[s][i];
        }
        column := column + [coeff];
      }
      coeffs := coeffs + [Plaintext(column, CoeffInNtt(lowDegree, i))];
    }
    assert |coeffs| == maxDeg + 1;
  }

  lemma {:induction false} EvalPadded(c: seq<int>, d: seq<int>, x: int)
    requires |d| <= |c| && forall i :: 0 <= i < |c| ==> c[i] == if i < |d| then d[i] else 0
    ensures Eval(c, x) == Eval(d, x)
  {
    if d == [] {
      EvalZeros(c, x);
    } else {
      EvalPadded(c[1..], d[1..], x);
    }
  }

  /** The batch evaluates slot by slot to the polynomials it was made from. */
  lemma BatchMeaning(coeffs: seq<Plaintext>, polyns: seq<seq<nat>>, lowDegree: nat, x: seq<nat>, p: nat,
                     result: Ciphertext)
    requires p > 0 && IsBatch(coeffs, polyns, lowDegree) && |x| == |polyns| && EvaluatesTo(result, coeffs, x, p)
    ensures forall s :: 0 <= s < |x| ==> result.slots[s] == Eval(polyns[s], x[s]) % p
  {
    forall s | 0 <= s < |x| ensures result.slots[s] == Eval(polyns[s], x[s]) % p {
      EvalPadded(Column(coeffs, s), polyns[s], x[s]);
    }
  }
}
