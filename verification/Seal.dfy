/**
 The part of Microsoft SEAL that the evaluators call.

 A ciphertext or plaintext is the vector of its slots modulo the plaintext prime, together with the
 flag that says whether it is in NTT form. The homomorphic operations work slot by slot; modulus
 switching and relinearization do not change the slots and are left out. Each requires clause is a
 condition under which SEAL does not throw.
 */
module Seal {
  import opened ModArith

  datatype Plaintext = Plaintext(slots: seq<nat>, ntt: bool)

  datatype Ciphertext = Ciphertext(slots: seq<nat>, ntt: bool)

  function SlotProduct(a: seq<nat>, b: seq<nat>, p: nat): (r: seq<nat>)
    requires |a| == |b| && p > 0
  {
    seq(|a|, s requires 0 <= s < |a| => a[s] * b[s] % p)
  }

  function SlotSum(a: seq<nat>, b: seq<nat>, p: nat): (r: seq<nat>)
    requires |a| == |b| && p > 0
  {
    seq(|a|, s requires 0 <= s < |a| => (a[s] + b[s]) % p)
  }

  function MultiplyPlain(c: Ciphertext, pt: Plaintext, p: nat): Ciphertext
    requires |c.slots| == |pt.slots| && p > 0
    requires c.ntt == pt.ntt
  {
    Ciphertext(SlotProduct(c.slots, pt.slots, p), c.ntt)
  }

  function Multiply(a: Ciphertext, b: Ciphertext, p: nat): Ciphertext
    requires |a.slots| == |b.slots| && p > 0
    requires !a.ntt && !b.ntt
  {
    Ciphertext(SlotProduct(a.slots, b.slots, p), false)
  }

  function Add(a: Ciphertext, b: Ciphertext, p: nat): Ciphertext
    requires |a.slots| == |b.slots| && p > 0
    requires a.ntt == b.ntt
  {
    Ciphertext(SlotSum(a.slots, b.slots, p), a.ntt)
  }

  function AddPlain(c: Ciphertext, pt: Plaintext, p: nat): Ciphertext
    requires |c.slots| == |pt.slots| && p > 0
    requires !c.ntt && !pt.ntt
  {
    Ciphertext(SlotSum(c.slots, pt.slots, p), false)
  }

  function TransformToNtt(c: Ciphertext): Ciphertext
    requires !c.ntt
  {
    c.(ntt := true)
  }

  function TransformFromNtt(c: Ciphertext): Ciphertext
    requires c.ntt
  {
    c.(ntt := false)
  }

  /** Slot by slot, the vector holds the given integers modulo p. */
  ghost predicate Holds(slots: seq<nat>, values: seq<int>, p: nat)
    requires p > 0
  {
    |slots| == |values| && forall s :: 0 <= s < |slots| ==> Cong(slots[s], values[s], p)
  }

  lemma HoldsProduct(a: seq<nat>, b: seq<nat>, u: seq<int>, v: seq<int>, w: seq<int>, p: nat)
    requires p > 0 && Holds(a, u, p) && Holds(b, v, p) && |u| == |v| == |w|
    requires forall s :: 0 <= s < |w| ==> w[s] == u[s] * v[s]
    ensures Holds(SlotProduct(a, b, p), w, p)
  {
    forall s | 0 <= s < |w| ensures Cong(SlotProduct(a, b, p)[s], w[s], p) {
      CongReduce(a[s] * b[s], p);
      CongMul(a[s], u[s], b[s], v[s], p);
    }
  }

  lemma HoldsSum(a: seq<nat>, b: seq<nat>, u: seq<int>, v: seq<int>, w: seq<int>, p: nat)
    requires p > 0 && Holds(a, u, p) && Holds(b, v, p) && |u| == |v| == |w|
    requires forall s :: 0 <= s < |w| ==> w[s] == u[s] + v[s]
    ensures Holds(SlotSum(a, b, p), w, p)
  {
    forall s | 0 <= s < |w| ensures Cong(SlotSum(a, b, p)[s], w[s], p) {
      CongReduce(a[s] + b[s], p);
      CongAdd(a[s], u[s], b[s], v[s], p);
    }
  }
}
