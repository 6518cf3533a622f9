/**
 Query processing (sender/apsi/sender.cpp) and the plaintext powers a query carries
 (receiver/apsi/plaintext_powers.cpp).

 ComputePowers runs the scheduler of PowersScheduler with homomorphic multiplication as its
 function, so its result is proved for every interleaving. ProcessBinBundleCache then picks one of
 the two evaluators.
 */
module Sender {
  import opened Wrappers
  import opened ModArith
  import opened Polynomials
  import opened PowersDags
  import opened PowersScheduler
  import opened Seal
  import opened BatchedPolyn

  // ---------- Plaintext powers (the receiver's side) ----------

  /** The power of every entry, reduced. */
  ghost predicate IsVectorPower(v: seq<nat>, values: seq<nat>, exponent: nat, p: nat)
    requires p > 0
  {
    |v| == |values| && forall s :: 0 <= s < |v| ==> v[s] == Pow(values[s], exponent) % p
  }

  /** Square-and-multiply on whole vectors. None stands for the exception at a zero exponent. */
  method ExponentiateArray(values: seq<nat>, exponent: nat, p: nat) returns (r: Option<seq<nat>>)
    requires p > 1
    ensures r.None? <==> exponent == 0
    ensures r.Some? ==> IsVectorPower(r.value, values, exponent, p)
  {
    if exponent == 0 {
      return None;
    }
    var base: seq<nat>, result: seq<nat>, e: nat := values, seq(|values|, _ => 1), exponent;
    while e > 0
      invariant |base| == |result| == |values|
      invariant forall s :: 0 <= s < |values| ==> result[s] < p
      invariant forall s :: 0 <= s < |values| ==> PowerState(values[s], exponent, base[s], result[s], e, p)
    {
      ghost var base0, result0, e0 := base, result, e;
      if e % 2 == 1 {
        result := SlotProduct(base, result, p);
      }
      base := SlotProduct(base, base, p);
      e := e / 2;
      forall s | 0 <= s < |values| ensures PowerState(values[s], exponent, base[s], result[s], e, p) {
        assert PowerState(values[s], exponent, base0[s], result0[s], e0, p);
        PowerStep(values[s], exponent, base0[s], result0[s], e0, p);
      }
    }
    forall s | 0 <= s < |values| ensures result[s] == Pow(values[s], exponent) % p {
      assert PowerState(values[s], exponent, base[s], result[s], 0, p);
      DivModUnique(result[s], 0, result[s], p);
    }
    return Some(result);
  }

  ghost predicate PowerState(v: nat, exponent: nat, base: nat, result: nat, e: nat, p: nat)
    requires p > 0
  {
    Cong(result * Pow(base, e), Pow(v, exponent), p)
  }

  lemma PowerStep(v: nat, exponent: nat, base: nat, result: nat, e: nat, p: nat)
    requires p > 0 && e > 0 && PowerState(v, exponent, base, result, e, p)
    ensures PowerState(v, exponent, base * base % p, if e % 2 == 1 then base * result % p else result, e / 2, p)
  {
    var half, sq := e / 2, base * base;
    CongReduce(sq, p);
    CongPow(sq % p, sq, half, p);
    PowPow(base, 2, half);
    assert Pow(base, 2) == base * Pow(base, 1) && Pow(base, 1) == base * Pow(base, 0);
    if e % 2 == 1 {
      assert Pow(base, e) == base * Pow(base, e - 1);
      CongReduce(base * result, p);
      CongMul(base * result % p, base * result, Pow(sq % p, half), Pow(base, e - 1), p);
      assert (base * result) * Pow(base, e - 1) == result * Pow(base, e) by {
        MulAssoc(result, base, Pow(base, e - 1));
      }
    } else {
      CongMul(result, result, Pow(sq % p, half), Pow(base, e), p);
    }
  }

  /** PlaintextPowers::compute_powers: the powers of the query that the receiver sends, one for each source node. */
  method ComputePlaintextPowers(values: seq<nat>, sourceNodes: set<PowersNode>, p: nat)
    returns (r: Option<map<nat, seq<nat>>>)
    requires p > 1
    ensures r.None? <==> 0 in PowersIn(sourceNodes)
    ensures r.Some? ==> r.value.Keys == PowersIn(sourceNodes)
    ensures r.Some? ==> forall s :: s in r.value ==> IsVectorPower(r.value[s], values, s, p)
  {
    var powers: map<nat, seq<nat>> := map[];
    var rest := sourceNodes;
    while rest != {}
      invariant rest <= sourceNodes && powers.Keys == PowersIn(sourceNodes - rest) && 0 !in powers
      invariant forall s :: s in powers ==> IsVectorPower(powers[s], values, s, p)
      decreases |rest|
    {
      var node :| node in rest;
      var power := ExponentiateArray(values, node.power, p);
      if power.None? {
        assert 0 in PowersIn(sourceNodes);
        return None;
      }
      ghost var done := sourceNodes - rest;
      rest := rest - {node};
      assert sourceNodes - rest == done + {node};
      powers := powers[node.power := power.value];
    }
    assert sourceNodes - rest == sourceNodes;
    return Some(powers);
  }

  // ---------- ComputePowers ----------

  /** Sender::RunQuery: room for all powers, and the received ones put in their places. */
  method LoadPowers(received: map<nat, seq<nat>>, maxItemsPerBin: nat, ghost x: seq<nat>, p: nat)
    returns (loaded: map<nat, Ciphertext>)
    requires p > 0 && forall s :: s in received ==> s <= maxItemsPerBin && IsVectorPower(received[s], x, s, p)
    ensures forall t: nat :: t in loaded <==> t <= maxItemsPerBin
    ensures forall s :: s in received ==> HoldsPower(loaded[s], x, s, p)
  {
    loaded := map t: nat | 0 <= t <= maxItemsPerBin ::
      if t in received then Ciphertext(received[t], false) else Ciphertext([], false);
    forall s | s in received ensures HoldsPower(loaded[s], x, s, p) {
      forall i | 0 <= i < |x| ensures Cong(received[s][i], Pow(x[i], s), p) {
        CongReduce(Pow(x[i], s), p);
      }
    }
  }

  /** Homomorphic multiplication as a total function; the last case is where SEAL would throw. */
  function SafeMultiply(a: Ciphertext, b: Ciphertext, p: nat): Ciphertext
    requires p > 0
  {
    if |a.slots| == |b.slots| && !a.ntt && !b.ntt then Multiply(a, b, p) else Ciphertext([], true)
  }

  function PowersPlan(dag: map<nat, PowersNode>, targets: seq<nat>, p: nat): Plan<Ciphertext>
    requires p > 0
  {
    Plan(targets, dag, (a, b) => SafeMultiply(a, b, p))
  }

  /** In coefficient form, slot s holds the given power of x[s]. */
  ghost predicate HoldsPower(c: Ciphertext, x: seq<nat>, power: nat, p: nat)
    requires p > 0
  {
    !c.ntt && Holds(c.slots, seq(|x|, s requires 0 <= s < |x| => Pow(x[s], power)), p)
  }

  /** The query data has been loaded: every source power is there. */
  ghost predicate QueryLoaded(plan: Plan<Ciphertext>, sources: seq<nat>, store: map<nat, Ciphertext>, x: seq<nat>,
                              p: nat)
    requires p > 0
  {
    && Setup(plan, sources, store)
    && forall s :: s in sources && s in plan.targets ==> HoldsPower(store[s], x, s, p)
  }

  lemma {:induction false} ExpectedIsPower(dag: map<nat, PowersNode>, targets: seq<nat>, sources: seq<nat>,
                                           store: map<nat, Ciphertext>, x: seq<nat>, p: nat, t: nat)
    requires p > 0 && QueryLoaded(PowersPlan(dag, targets, p), sources, store, x, p) && t in targets
    ensures HoldsPower(Expected(PowersPlan(dag, targets, p), sources, store, t), x, t, p)
    decreases t
  {
    var plan := PowersPlan(dag, targets, p);
    assert NodeSound(dag, sources, targets, t);
    if t !in sources {
      var (s1, s2) := dag[t].parents;
      ExpectedIsPower(dag, targets, sources, store, x, p, s1);
      ExpectedIsPower(dag, targets, sources, store, x, p, s2);
      var a, b := Expected(plan, sources, store, s1), Expected(plan, sources, store, s2);
      forall s | 0 <= s < |x| ensures Pow(x[s], t) == Pow(x[s], s1) * Pow(x[s], s2) {
        PowAdd(x[s], s1, s2);
      }
      HoldsProduct(a.slots, b.slots, seq(|x|, s requires 0 <= s < |x| => Pow(x[s], s1)),
                   seq(|x|, s requires 0 <= s < |x| => Pow(x[s], s2)),
                   seq(|x|, s requires 0 <= s < |x| => Pow(x[s], t)), p);
    }
  }

  /** Whatever the interleaving, once a worker has returned every target power has its value. */
  lemma PowersAreComputed(dag: map<nat, PowersNode>, targets: seq<nat>, sources: seq<nat>, store: map<nat, Ciphertext>,
                          x: seq<nat>, p: nat, workerCount: nat, schedule: seq<nat>, w: nat)
    requires p > 0 && QueryLoaded(PowersPlan(dag, targets, p), sources, store, x, p)
    requires var m := Run(PowersPlan(dag, targets, p), Initial(PowersPlan(dag, targets, p), store, workerCount),
                          schedule);
             w < |m.workers| && m.workers[w].pc.Returned?
    ensures var m := Run(PowersPlan(dag, targets, p), Initial(PowersPlan(dag, targets, p), store, workerCount),
                         schedule);
            forall t :: t in targets ==> HoldsPower(m.store[t], x, t, p)
  {
    var plan := PowersPlan(dag, targets, p);
    var m := Run(plan, Initial(plan, store, workerCount), schedule);
    EveryScheduleIsSafe(plan, sources, store, workerCount, schedule);
    ReturnMeansDone(plan, sources, store, m, w);
    forall t | t in targets ensures HoldsPower(m.store[t], x, t, p) {
      ExpectedIsPower(dag, targets, sources, store, x, p, t);
    }
  }

  /** The form a power is left in: all powers, or only the low ones, go to NTT form. */
  predicate PowerInNtt(lowDegree: nat, power: nat) {
    lowDegree == 0 || power <= lowDegree
  }

  /** The last part of ComputePowers: every target power is brought into the form the evaluators use. */
  method TransformPowers(store: map<nat, Ciphertext>, targets: seq<nat>, lowDegree: nat)
    returns (r: map<nat, Ciphertext>)
    requires StrictlyIncreasing(targets)
    requires forall t :: t in targets ==> t in store && !store[t].ntt
    ensures r.Keys == store.Keys
    ensures forall t :: t in targets ==> r[t] == Ciphertext(store[t].slots, PowerInNtt(lowDegree, t))
    ensures forall t :: t in store && t !in targets ==> r[t] == store[t]
  {
    r := store;
    for i := 0 to |targets|
      invariant r.Keys == store.Keys
      invariant forall k :: 0 <= k < i ==>
                  r[targets[k]] == Ciphertext(store[targets[k]].slots, PowerInNtt(lowDegree, targets[k]))
      invariant forall t :: t in store && (forall k :: 0 <= k < i ==> targets[k] != t) ==> r[t] == store[t]
    {
      var power: nat := targets[i];
      if lowDegree == 0 {
        r := r[power := TransformToNtt(r[power])];
      } else if power <= lowDegree {
        r := r[power := TransformToNtt(r[power])];
      }
    }
  }

  // ---------- ProcessBinBundleCache ----------

  predicate UsesPatstock(lowDegree: nat, degree: nat) {
    lowDegree > 1 && lowDegree < degree
  }

  /** The powers the chosen evaluator reads. */
  predicate Reads(lowDegree: nat, degree: nat, power: nat) {
    1 <= power <= degree && (UsesPatstock(lowDegree, degree) ==> power <= lowDegree || power % (lowDegree + 1) == 0)
  }

  /** Every power that is read was computed. */
  ghost predicate ReadsAvailable(lowDegree: nat, maxItemsPerBin: nat, degree: nat) {
    forall d :: Reads(lowDegree, degree, d) ==> InPowersSet(lowDegree, maxItemsPerBin, d)
  }

  /** Plaintexts as batched, and powers as ComputePowers leaves them. */
  predicate FormsAsPrepared(coeffs: seq<Plaintext>, powers: seq<Ciphertext>, lowDegree: nat, maxItemsPerBin: nat) {
    && (forall i :: 0 <= i < |coeffs| ==> (coeffs[i].ntt <==> CoeffInNtt(lowDegree, i)))
    && forall d :: 1 <= d < |powers| && InPowersSet(lowDegree, maxItemsPerBin, d) ==>
         (powers[d].ntt <==> PowerInNtt(lowDegree, d))
  }

  /** SEAL accepts all operations of the chosen evaluator. */
  predicate FormsMatch(coeffs: seq<Plaintext>, powers: seq<Ciphertext>, lowDegree: nat)
    requires 0 < |coeffs| <= |powers|
  {
    if UsesPatstock(lowDegree, |coeffs| - 1) then PatstockForms(coeffs, powers, lowDegree + 1)
    else EvalForms(coeffs, powers)
  }

  /**
   The choice of evaluator works out exactly when the low degree is not 1, or the polynomial is
   at most linear: only then are all powers that are read computed and all forms equal.
   */
  lemma EvaluatorChoiceIsSound(coeffs: seq<Plaintext>, powers: seq<Ciphertext>, lowDegree: nat, maxItemsPerBin: nat)
    requires 0 < |coeffs| <= maxItemsPerBin + 1 == |powers| && lowDegree <= maxItemsPerBin
    requires FormsAsPrepared(coeffs, powers, lowDegree, maxItemsPerBin)
    ensures ReadsAvailable(lowDegree, maxItemsPerBin, |coeffs| - 1) && FormsMatch(coeffs, powers, lowDegree)
            <==> lowDegree != 1 || |coeffs| <= 2
  {
    var degree := |coeffs| - 1;
    if lowDegree == 1 && degree >= 2 {
      assert !CoeffInNtt(lowDegree, 2);
      assert !coeffs[2].ntt;
    } else {
      forall d | 0 <= d <= degree
        ensures CoeffInNtt(lowDegree, d) <==>
                if UsesPatstock(lowDegree, degree) then d % (lowDegree + 1) != 0 else d != 0
      {
        if lowDegree > 0 && degree <= lowDegree {
          DivModUnique(d, 0, d, lowDegree + 1);
        }
      }
    }
  }

  /** The smallest failure: with low degree 1, a polynomial of degree 2 meets mismatched forms. */
  lemma LowDegreeOneFails()
    ensures var zero := Plaintext([0], false);
            var one := Ciphertext([1], false);
            var coeffs := [zero, zero.(ntt := true), zero];
            var powers := [one, one.(ntt := true), one, one.(ntt := false)];
            FormsAsPrepared(coeffs, powers, 1, 3) && !FormsMatch(coeffs, powers, 1)
  {
    assert !CoeffInNtt(1, 2) && CoeffInNtt(1, 1) && !CoeffInNtt(1, 0);
    var coeffs := [Plaintext([0], false), Plaintext([0], true), Plaintext([0], false)];
    assert !coeffs[2].ntt;
  }

  /** One result of ProcessBinBundleCache, for a matching or an interpolation polynomial. */
  method ProcessPolyn(coeffs: seq<Plaintext>, powers: seq<Ciphertext>, lowDegree: nat, maxItemsPerBin: nat, p: nat,
                      ghost polyns: seq<seq<nat>>, ghost x: seq<nat>)
    returns (r: Result<Ciphertext, EvalError>)
    requires p > 0 && |x| == |polyns| && IsBatch(coeffs, polyns, lowDegree)
    requires |powers| == maxItemsPerBin + 1 && maxItemsPerBin >= 1 && lowDegree <= maxItemsPerBin
    requires |coeffs| <= maxItemsPerBin + 1
    requires lowDegree != 1 || |coeffs| <= 2
    requires forall d :: 1 <= d <= maxItemsPerBin && InPowersSet(lowDegree, maxItemsPerBin, d) ==>
                           IsPower(powers, x, d, p) && powers[d].ntt == PowerInNtt(lowDegree, d)
    ensures r.Ok? && |r.value.slots| == |x|
    ensures forall s :: 0 <= s < |x| ==> r.value.slots[s] == Eval(polyns[s], x[s]) % p
  {
    var degree := |coeffs| - 1;
    var usingPs := lowDegree > 1 && lowDegree < degree;
    EvaluatorChoiceIsSound(coeffs, powers, lowDegree, maxItemsPerBin);
    forall d | Reads(lowDegree, degree, d) ensures IsPower(powers, x, d, p) {
      assert InPowersSet(lowDegree, maxItemsPerBin, d);
    }
    if usingPs {
      r := EvalPatstock(coeffs, powers, lowDegree, p, x);
    } else {
      r := EvalPolyn(coeffs, powers, p, x);
    }
    BatchMeaning(coeffs, polyns, lowDegree, x, p, r.value);
  }
}
