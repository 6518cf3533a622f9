/**
 The scalar recodings of FourQ (common/apsi/fourq/eccp2_core.c and eccp2.c).

 Words and digits are natural numbers below 2^64 and 2^32; the digit -1 of the source's unsigned
 arrays is MINUS_ONE. Each loop keeps one fact: the signed digits written so far, followed by what is
 left of the scalar, have the value of the scalar.
 */
module Recoding {
  import opened ModArith
  import opened Words

  const MINUS_ONE: nat := 0xFFFF_FFFF

  // ---------- The value of signed digits ----------

  /** The sum of term_i * 2^i. */
  function WeightedSum(terms: seq<int>): int {
    if terms == [] then 0
    else WeightedSum(terms[..|terms| - 1]) + terms[|terms| - 1] * TwoTo(|terms| - 1)
  }

  /** The value of the terms when rest stands for all higher ones. */
  function Prefixed(terms: seq<int>, rest: int): int {
    if terms == [] then rest
    else Prefixed(terms[..|terms| - 1], terms[|terms| - 1] + 2 * rest)
  }

  lemma {:induction false} PrefixedIsSum(terms: seq<int>, rest: int)
    ensures Prefixed(terms, rest) == WeightedSum(terms) + rest * TwoTo(|terms|)
    decreases |terms|
  {
    if terms != [] {
      var n, last := |terms| - 1, terms[|terms| - 1];
      PrefixedIsSum(terms[..n], last + 2 * rest);
      assert (last + 2 * rest) * TwoTo(n) == last * TwoTo(n) + rest * (2 * TwoTo(n)) by {
        MulDist(TwoTo(n), last, 2 * rest);
        MulAssoc(rest, 2, TwoTo(n));
      }
    }
  }

  lemma Append(terms: seq<int>, digit: int, rest: int)
    ensures Prefixed(terms + [digit], rest) == Prefixed(terms, digit + 2 * rest)
  {
    assert (terms + [digit])[..|terms|] == terms;
  }

  // ---------- Words ----------

  function HalvedAt(was: seq<nat>, k: nat): nat
    requires IsWords(was) && k < 4
  {
    was[k] / 2 + (if k == 3 then 0 else was[k + 1] % 2 * HALF)
  }

  /** Shifts four words right by one bit, from the low word up. */
  method ShiftRightOne(w: array<nat>)
    requires w.Length == 4 && IsWords(w[..])
    modifies w
    ensures IsWords(w[..]) && w[3] < HALF && old(Value(w[..])) == old(w[0]) % 2 + 2 * Value(w[..])
  {
    ghost var was := w[..];
    for j := 0 to 3
      invariant forall k :: j <= k < 4 ==> w[k] == was[k]
      invariant forall k :: 0 <= k < j ==> w[k] == HalvedAt(was, k)
    {
      w[j] := w[j] / 2 + w[j + 1] % 2 * HALF;
    }
    w[3] := w[3] / 2;
    HalvedValue(was, w[..]);
  }

  lemma HalvedValue(was: seq<nat>, now: seq<nat>)
    requires IsWords(was) && |now| == 4
    requires now[0] == HalvedAt(was, 0) && now[1] == HalvedAt(was, 1) && now[2] == HalvedAt(was, 2)
    requires now[3] == HalvedAt(was, 3)
    ensures IsWords(now) && now[3] < HALF && Value(was) == was[0] % 2 + 2 * Value(now)
  {
  }

  lemma LowBit(w: seq<nat>)
    requires IsWords(w)
    ensures Value(w) % 2 == w[0] % 2
  {
    assert Value(w) == w[0] + 2 * (HALF * (w[1] + RADIX * (w[2] + RADIX * w[3])));
  }

  /** A word is zero after the addition of a carry exactly when it wrapped. */
  method AddWord(x: nat, carry: nat) returns (sum: nat, out: nat)
    requires x < RADIX && carry <= 1
    ensures sum < RADIX && out <= 1 && sum + RADIX * out == x + carry
  {
    sum := (x + carry) % RADIX;
    out := if carry == 1 && sum == 0 then 1 else 0;
  }

  method AddAt(w: array<nat>, j: nat, carry: nat) returns (out: nat)
    requires j < w.Length && w[j] < RADIX && carry <= 1
    modifies w
    ensures w[j] < RADIX && out <= 1 && w[j] + RADIX * out == old(w[j]) + carry
    ensures forall k :: 0 <= k < w.Length && k != j ==> w[k] == old(w[k])
  {
    var sum: nat;
    sum, out := AddWord(w[j], carry);
    w[j] := sum;
  }

  /** Adds a bit and passes the carry up. */
  method AddBit(w: array<nat>, temp: nat)
    requires w.Length == 4 && IsWords(w[..]) && w[3] < HALF && temp <= 1
    modifies w
    ensures IsWords(w[..]) && Value(w[..]) == old(Value(w[..])) + temp
  {
    ghost var was := w[..];
    var carry := AddAt(w, 0, temp);
    ghost var carries := [temp, carry];
    for j := 1 to 4
      invariant |carries| == j + 1 && carries[0] == temp && carries[j] == carry
      invariant forall k :: 0 <= k <= j ==> carries[k] <= 1
      invariant forall k :: j <= k < 4 ==> w[k] == was[k]
      invariant forall k :: 0 <= k < j ==> CarryAt(was[k], w[k], carries[k], carries[k + 1])
    {
      carry := AddAt(w, j, carry);
      carries := carries + [carry];
    }
    CarriedValue(was, w[..], carries);
  }

  /** One column of the addition. */
  predicate CarryAt(x: nat, sum: nat, carry: nat, out: nat) {
    sum < RADIX && sum + RADIX * out == x + carry
  }

  lemma CarriedValue(was: seq<nat>, now: seq<nat>, carries: seq<nat>)
    requires IsWords(was) && |now| == 4 && |carries| == 5 && was[3] < HALF
    requires forall k :: 0 <= k <= 4 ==> carries[k] <= 1
    requires forall k :: 0 <= k < 4 ==> CarryAt(was[k], now[k], carries[k], carries[k + 1])
    ensures IsWords(now) && Value(now) == Value(was) + carries[0]
  {
    assert CarryAt(was[0], now[0], carries[0], carries[1]) && CarryAt(was[1], now[1], carries[1], carries[2]);
    assert CarryAt(was[2], now[2], carries[2], carries[3]) && CarryAt(was[3], now[3], carries[3], carries[4]);
  }

  // ---------- mLSB_set_recode ----------

  const D: nat := 50
  const L: nat := 250

  /** The magnitude under a sign digit: zero is positive. */
  function Signed(sign: nat, magnitude: nat): int {
    if sign == 0 then magnitude else -(magnitude as int)
  }

  /** The signed digits of the comb: a row of ones in the signs' places, then the set rows. */
  function CombTerm(digits: seq<nat>, i: nat): int
    requires i < |digits|
  {
    Signed(digits[i % D], if i < D then 1 else digits[i])
  }

  lemma RowBelow(i: nat)
    ensures 0 <= i % D <= i
  {
  }

  function CombTerms(digits: seq<nat>): (r: seq<int>)
    ensures |r| == |digits|
  {
    seq(|digits|, i requires 0 <= i < |digits| => CombTerm(digits, i))
  }

  lemma CombAppend(digits: seq<nat>, digit: nat, rest: int)
    ensures Prefixed(CombTerms(digits + [digit]), rest)
            == Prefixed(CombTerms(digits), CombTerm(digits + [digit], |digits|) + 2 * rest)
  {
    var term := CombTerm(digits + [digit], |digits|);
    forall i | 0 <= i < |digits| ensures CombTerm(digits + [digit], i) == CombTerm(digits, i) {
      RowBelow(i);
    }
    assert CombTerms(digits + [digit]) == CombTerms(digits) + [term];
    Append(CombTerms(digits), term, rest);
  }

  /** Signs are 0 or MINUS_ONE, the other digits 0 or 1, and the last sign is positive. */
  predicate CombDigits(digits: seq<nat>) {
    && (forall i :: 0 <= i < |digits| && i < D ==> digits[i] == 0 || digits[i] == MINUS_ONE)
    && (forall i :: D <= i < |digits| ==> digits[i] <= 1)
    && (|digits| >= D ==> digits[D - 1] == 0)
  }

  /** The comb value of the digits is the scalar when it is odd, and one more when it is even. */
  method MLsbSetRecode(scalar: array<nat>, digits: array<nat>)
    requires scalar.Length == 4 && IsWords(scalar[..]) && digits.Length >= L
    modifies scalar, digits
    ensures IsWords(scalar[..]) && CombDigits(digits[..L]) && digits[L..] == old(digits[L..])
    ensures old(Value(scalar[..])) < TwoTo(L - 1) ==> Value(scalar[..]) == 0
    ensures WeightedSum(CombTerms(digits[..L])) + Value(scalar[..]) * TwoTo(L)
            == old(Value(scalar[..])) - old(Value(scalar[..])) % 2 + 1
  {
    ghost var total := Value(scalar[..]) - Value(scalar[..]) % 2 + 1;
    SignRow(scalar, digits, total);
    SetRows(scalar, digits, total);
    PrefixedIsSum(CombTerms(digits[..L]), Value(scalar[..]));
  }

  /** While signs are written: the rest is always odd, and its low bit is kept out of the scalar. */
  ghost predicate SignState(digits: seq<nat>, c: nat, total: nat, small: bool, m: nat) {
    CombDigits(digits) && Prefixed(CombTerms(digits), 2 * c + 1) == total && (small ==> c < TwoTo(m))
  }

  /** The d signs: a zero bit above the lowest makes a negative sign. */
  method SignRow(scalar: array<nat>, digits: array<nat>, ghost total: nat)
    requires scalar.Length == 4 && IsWords(scalar[..]) && digits.Length >= L
    requires total == Value(scalar[..]) - Value(scalar[..]) % 2 + 1
    modifies scalar, digits
    ensures IsWords(scalar[..]) && digits[L..] == old(digits[L..])
    ensures SetState(digits[..D], Value(scalar[..]), total, old(Value(scalar[..])) < TwoTo(L - 1), L - 1 - D)
  {
    ghost var small := Value(scalar[..]) < TwoTo(L - 1);
    digits[D - 1] := 0;
    LowBit(scalar[..]);
    ghost var k := Value(scalar[..]);
    ShiftRightOne(scalar);
    FirstShift(k, Value(scalar[..]), L - 1);
    SignLoop(scalar, digits, total, small, L - 2);
    assert digits[..D] == digits[..D - 1] + [0];
    LastSign(digits[..D - 1], Value(scalar[..]), total, small, L - 1 - D);
  }

  /** The last sign is positive, and pays the low bit back. */
  lemma LastSign(digits: seq<nat>, c: nat, total: nat, small: bool, m: nat)
    requires |digits| == D - 1 && SignState(digits, c, total, small, m)
    ensures SetState(digits + [0], c, total, small, m)
  {
    CombAppend(digits, 0, c);
  }

  lemma FirstShift(k: nat, c: nat, m: nat)
    requires k == k % 2 + 2 * c && m > 0
    ensures k < TwoTo(m) ==> c < TwoTo(m - 1)
    ensures 2 * c + 1 == k - k % 2 + 1
  {
    assert TwoTo(m) == 2 * TwoTo(m - 1);
  }

  method SignLoop(scalar: array<nat>, digits: array<nat>, ghost total: nat, ghost small: bool, ghost bits: nat)
    requires scalar.Length == 4 && IsWords(scalar[..]) && digits.Length >= L && digits[D - 1] == 0 && bits >= D - 1
    requires SignState([], Value(scalar[..]), total, small, bits)
    modifies scalar, digits
    ensures IsWords(scalar[..]) && digits[D - 1] == 0 && digits[L..] == old(digits[L..])
    ensures SignState(digits[..D - 1], Value(scalar[..]), total, small, bits - (D - 1))
  {
    ghost var m := bits;
    assert digits[..0] == [];
    for i := 0 to D - 1
      invariant IsWords(scalar[..]) && digits[D - 1] == 0 && digits[L..] == old(digits[L..]) && m == bits - i
      invariant SignState(digits[..i], Value(scalar[..]), total, small, m)
    {
      ghost var c, before := Value(scalar[..]), digits[..i];
      SignDigit(scalar, digits, i);
      assert digits[..i + 1] == before + [digits[i]];
      SignNext(before, digits[i], c, Value(scalar[..]), total, small, m);
      m := m - 1;
    }
  }

  lemma SignNext(digits: seq<nat>, digit: nat, c: nat, c2: nat, total: nat, small: bool, m: nat)
    requires |digits| < D - 1 && m > 0 && SignState(digits, c, total, small, m) && (digit == 0 || digit == MINUS_ONE)
    requires 2 * c + 1 == Signed(digit, 1) + 2 * (2 * c2 + 1)
    ensures SignState(digits + [digit], c2, total, small, m - 1)
  {
    CombAppend(digits, digit, 2 * c2 + 1);
    assert TwoTo(m) == 2 * TwoTo(m - 1);
  }

  /** While the other rows are written; m is how many bits a small scalar has left at most. */
  ghost predicate SetState(digits: seq<nat>, c: nat, total: nat, small: bool, m: nat) {
    CombDigits(digits) && Prefixed(CombTerms(digits), c) == total
      && (small ==> if |digits| < L then c <= TwoTo(m) else c == 0)
  }

  /** The remaining rows: each one bit under a negative sign is paid back by the next bit. */
  method SetRows(scalar: array<nat>, digits: array<nat>, ghost total: nat)
    requires scalar.Length == 4 && IsWords(scalar[..]) && digits.Length >= L
    requires SetState(digits[..D], Value(scalar[..]), total, Value(scalar[..]) <= TwoTo(L - 1 - D), L - 1 - D)
    modifies scalar, digits
    ensures IsWords(scalar[..]) && digits[L..] == old(digits[L..])
    ensures SetState(digits[..L], Value(scalar[..]), total, old(Value(scalar[..])) <= TwoTo(L - 1 - D), 0)
  {
    ghost var small, m: nat := Value(scalar[..]) <= TwoTo(L - 1 - D), L - 1 - D;
    for i := D to L
      invariant IsWords(scalar[..]) && digits[L..] == old(digits[L..])
      invariant SetState(digits[..i], Value(scalar[..]), total, small, m) && (i < L ==> m == L - 1 - i)
    {
      ghost var c, before := Value(scalar[..]), digits[..i];
      SetDigit(scalar, digits, i);
      assert digits[..i + 1] == before + [digits[i]];
      SetNext(before, digits[i], c, Value(scalar[..]), total, small, m);
      m := if m > 0 then m - 1 else 0;
    }
  }

  lemma SetNext(digits: seq<nat>, digit: nat, c: nat, c2: nat, total: nat, small: bool, m: nat)
    requires D <= |digits| < L && SetState(digits, c, total, small, m) && digit <= 1 && m == L - 1 - |digits|
    requires c == CombTerm(digits + [digit], |digits|) + 2 * c2
    ensures SetState(digits + [digit], c2, total, small, if m > 0 then m - 1 else 0)
  {
    CombAppend(digits, digit, c2);
    if m > 0 {
      assert TwoTo(m) == 2 * TwoTo(m - 1);
    } else {
      assert TwoTo(0) == 1 && |digits| % D == D - 1;
    }
  }

  method SignDigit(scalar: array<nat>, digits: array<nat>, i: nat)
    requires scalar.Length == 4 && IsWords(scalar[..]) && i < digits.Length && scalar != digits
    modifies scalar, digits
    ensures IsWords(scalar[..]) && forall h :: 0 <= h < digits.Length && h != i ==> digits[h] == old(digits[h])
    ensures digits[i] == 0 || digits[i] == MINUS_ONE
    ensures 2 * old(Value(scalar[..])) + 1 == Signed(digits[i], 1) + 2 * (2 * Value(scalar[..]) + 1)
  {
    digits[i] := if scalar[0] % 2 == 1 then 0 else MINUS_ONE;
    ShiftRightOne(scalar);
  }

  /** One digit of a set row; the scalar loses the signed digit and is halved. */
  method SetDigit(scalar: array<nat>, digits: array<nat>, i: nat)
    requires scalar.Length == 4 && IsWords(scalar[..]) && digits.Length >= L && D <= i < L && CombDigits(digits[..i])
    modifies scalar, digits
    ensures IsWords(scalar[..]) && digits[i] <= 1
    ensures forall h :: 0 <= h < digits.Length && h != i ==> digits[h] == old(digits[h])
    ensures old(Value(scalar[..])) == CombTerm(digits[..i] + [digits[i]], i) + 2 * Value(scalar[..])
  {
    var sign := digits[i - (i / D) * D];
    assert i - (i / D) * D == i % D && sign == digits[..i][i % D];
    digits[i] := scalar[0] % 2;
    ShiftRightOne(scalar);
    // (0 - sign) & digit: both operands are 0 or 1
    var temp := (0x1_0000_0000 - sign) % 0x1_0000_0000 * digits[i];
    AddBit(scalar, temp);
  }

  // ---------- wNAF_recode ----------

  /** Zero, or odd and at most 2^(w-1) - 1 in absolute value. */
  predicate NafDigit(digit: int, w: nat)
    requires w >= 1
  {
    digit == 0 || (digit % 2 == 1 && -(TwoTo(w - 1) as int) < digit < TwoTo(w - 1))
  }

  /** Digits of a width-w non-adjacent form; two nonzero digits are at least w positions apart. */
  predicate NafDigits(digits: seq<int>, w: nat)
    requires w >= 1
  {
    && (forall i :: 0 <= i < |digits| ==> NafDigit(digits[i], w))
    && forall i, j :: 0 <= i < j < |digits| && digits[i] != 0 && digits[j] != 0 ==> j - i >= w
  }

  /** The last w - 1 digits are zero, so any digit may follow. */
  predicate ZeroTail(digits: seq<int>, w: nat) {
    forall i :: 0 <= i < |digits| && i + w > |digits| ==> digits[i] == 0
  }

  function Zeros(n: nat): (r: seq<int>)
    ensures |r| == n && forall i :: 0 <= i < n ==> r[i] == 0
  {
    seq(n, _ => 0)
  }

  lemma {:induction false} PrefixedZeros(terms: seq<int>, n: nat, rest: nat)
    ensures Prefixed(terms + Zeros(n), rest) == Prefixed(terms, Shifted(rest, n))
  {
    if n == 0 {
      assert terms + Zeros(0) == terms;
    } else {
      assert terms + Zeros(n) == (terms + Zeros(n - 1)) + [0];
      Append(terms + Zeros(n - 1), 0, rest);
      PrefixedZeros(terms, n - 1, 2 * rest);
      ShiftedTwice(rest, n - 1);
    }
  }

  /** rest << n */
  function Shifted(rest: nat, n: nat): (r: nat)
    ensures rest > 0 ==> r > 0
    ensures rest == 0 ==> r == 0
  {
    if n == 0 then rest else 2 * Shifted(rest, n - 1)
  }

  lemma {:induction false} ShiftedTwice(rest: nat, n: nat)
    ensures Shifted(2 * rest, n) == 2 * Shifted(rest, n)
  {
    if n > 0 {
      ShiftedTwice(rest, n - 1);
    }
  }

  lemma {:induction false} ShiftedIsProduct(rest: nat, n: nat)
    ensures Shifted(rest, n) == rest * TwoTo(n)
  {
    if n > 0 {
      ShiftedIsProduct(rest, n - 1);
      MulAssoc(2, rest, TwoTo(n - 1));
      MulAssoc(rest, 2, TwoTo(n - 1));
    }
  }

  lemma {:induction false} ShiftedBound(rest: nat, n: nat, m: nat)
    requires n <= m && Shifted(rest, n) < TwoTo(m)
    ensures rest < TwoTo(m - n)
  {
    if n > 0 {
      ShiftedBound(rest, n - 1, m - 1);
    }
  }

  lemma {:induction false} ShiftedAtLeast(rest: nat, n: nat, m: nat)
    requires rest > 0 && m <= n
    ensures Shifted(rest, n) >= TwoTo(m)
  {
    if m > 0 {
      ShiftedAtLeast(rest, n - 1, m - 1);
    }
  }

  /** The digits so far and the rest of the scalar; at most left bits of it remain. */
  ghost predicate NafState(digits: seq<int>, k: nat, scalar: nat, w: nat, left: nat)
    requires w >= 1
  {
    && Prefixed(digits, k) == scalar && NafDigits(digits, w)
    && (k > 0 ==> |digits| + left == 64 && k <= TwoTo(left) && ZeroTail(digits, w))
  }

  /** A nonzero digit and, while the scalar lasts, the w - 1 zeros after it. */
  method WriteNextDigit(digits: array<int>, index: nat, k: nat, ghost scalar: nat, w: nat, ghost left: nat)
    returns (next: nat, rest: nat, ghost bits: nat)
    requires w >= 2 && k % 2 == 1 && index <= 64 < digits.Length && NafState(digits[..index], k, scalar, w, left)
    modifies digits
    ensures index < next <= 65 && rest < k && NafState(digits[..next], rest, scalar, w, bits)
    ensures forall i :: next <= i < digits.Length ==> digits[i] == old(digits[i])
  {
    var digit;
    digit, rest := NextDigit(k, w, left);
    OddStep(digits[..index], k, scalar, w, left, digit, rest);
    next, bits := index, left;
    if rest != 0 {
      WriteDigits(digits, next, digit, w - 1);
      next, bits := next + (w - 1), left - w;
    } else {
      WriteDigits(digits, next, digit, 0);
    }
    next := next + 1;
  }

  /** Writes the first n digits, n <= 65, and leaves the others alone. */
  method WNafRecode(scalar: nat, w: nat, digits: array<int>) returns (n: nat)
    requires scalar < RADIX && 2 <= w <= 30 && digits.Length >= 65
    modifies digits
    ensures n <= 65 && forall i :: n <= i < digits.Length ==> digits[i] == old(digits[i])
    ensures WeightedSum(digits[..n]) == scalar && NafDigits(digits[..n], w)
  {
    var index: nat, k: nat := 0, scalar;
    ghost var left: nat := 64;
    NafStart(scalar, w);
    assert digits[..0] == [];
    while k != 0
      invariant index <= 65 && NafState(digits[..index], k, scalar, w, left)
      invariant forall i :: index <= i < digits.Length ==> digits[i] == old(digits[i])
      decreases k
    {
      if k % 2 == 0 {
        EvenStep(digits[..index], k, scalar, w, left);
        WriteDigits(digits, index, 0, 0);
        k := k / 2;
        left := left - 1;
        index := index + 1;
      } else {
        index, k, left := WriteNextDigit(digits, index, k, scalar, w, left);
      }
    }
    n := index;
    PrefixedIsSum(digits[..n], 0);
  }

  lemma NafStart(scalar: nat, w: nat)
    requires scalar < RADIX && w >= 1
    ensures NafState([], scalar, scalar, w, 64)
  {
    RadixIsPow();
  }

  lemma EvenStep(digits: seq<int>, k: nat, scalar: nat, w: nat, left: nat)
    requires w >= 2 && k > 0 && k % 2 == 0 && NafState(digits, k, scalar, w, left)
    ensures left > 0 && NafState(digits + [0] + Zeros(0), k / 2, scalar, w, left - 1)
  {
    Append(digits, 0, k / 2);
    assert digits + [0] + Zeros(0) == digits + [0];
    assert left > 0 by { assert TwoTo(0) == 1; }
    assert TwoTo(left) == 2 * TwoTo(left - 1);
  }

  lemma OddStep(digits: seq<int>, k: nat, scalar: nat, w: nat, left: nat, digit: int, rest: nat)
    requires w >= 2 && k > 0 && NafState(digits, k, scalar, w, left)
    requires NafDigit(digit, w) && digit != 0 && k == digit + Shifted(rest, w)
    requires (rest > 0 ==> w <= left && rest <= TwoTo(left - w))
    ensures rest == 0 ==> NafState(digits + [digit] + Zeros(0), 0, scalar, w, left)
    ensures rest > 0 ==> NafState(digits + [digit] + Zeros(w - 1), rest, scalar, w, left - w)
  {
    assert Shifted(rest, w) == 2 * Shifted(rest, w - 1);
    assert digits + [digit] + Zeros(0) == digits + [digit];
    Append(digits, digit, Shifted(rest, w - 1));
    PrefixedZeros(digits + [digit], w - 1, rest);
    assert rest == 0 ==> Shifted(rest, w - 1) == 0;
  }

  /** One digit and a number of zeros after it. */
  method WriteDigits(digits: array<int>, index: nat, digit: int, zeros: nat)
    requires index + zeros < digits.Length
    modifies digits
    ensures digits[..index + 1 + zeros] == old(digits[..index]) + [digit] + Zeros(zeros)
    ensures forall j :: index + zeros < j < digits.Length ==> digits[j] == old(digits[j])
  {
    digits[index] := digit;
    for i := 0 to zeros
      invariant forall j :: 0 <= j < index || index + i < j < digits.Length ==> digits[j] == old(digits[j])
      invariant digits[index] == digit && forall j :: index < j <= index + i ==> digits[j] == 0
    {
      digits[index + 1 + i] := 0;
    }
  }

  lemma FromQuotient(k: nat, val: nat, rest: nat, digit: nat, w: nat)
    requires val == TwoTo(w) && k == rest * val + digit
    ensures k == digit + Shifted(rest, w)
  {
    ShiftedIsProduct(rest, w);
  }

  method DivideBy(k: nat, val: nat) returns (digit: nat, rest: nat)
    requires val > 0
    ensures k == rest * val + digit && digit < val
  {
    digit, rest := k % val, k / val;
  }

  /** k & (2^w - 1) and k >> w */
  method SplitOff(k: nat, w: nat) returns (digit: nat, rest: nat)
    ensures k == digit + Shifted(rest, w) && digit < TwoTo(w)
  {
    digit, rest := DivideBy(k, TwoTo(w));
    FromQuotient(k, TwoTo(w), rest, digit, w);
  }

  /** One digit of w bits, made odd and small, and the rest of the scalar; m bounds the bits left. */
  method NextDigit(k: nat, w: nat, ghost m: nat) returns (digit: int, rest: nat)
    requires k % 2 == 1 && 2 <= w && k <= TwoTo(m)
    ensures digit != 0 && NafDigit(digit, w) && k == digit + Shifted(rest, w)
    ensures rest > 0 ==> w <= m && rest <= TwoTo(m - w)
    ensures rest < k
  {
    var val1, val2 := TwoTo(w - 1) as int - 1, TwoTo(w);
    digit, rest := SplitOff(k, w);
    SplitScalar(k, w, m, rest, digit);
    if digit > val1 {
      digit := digit - val2;
    }
    if digit < 0 {
      ShiftedNext(rest, w);
      rest := rest + 1;
    }
  }

  lemma {:induction false} ShiftedNext(rest: nat, n: nat)
    ensures Shifted(rest + 1, n) == Shifted(rest, n) + TwoTo(n)
  {
    if n > 0 {
      ShiftedNext(rest, n - 1);
    }
  }

  lemma {:induction false} ShiftedGrows(rest: nat, n: nat)
    ensures Shifted(rest, n) >= rest
  {
    if n > 0 {
      ShiftedGrows(rest, n - 1);
    }
  }

  lemma SplitScalar(k: nat, w: nat, m: nat, rest: nat, digit: nat)
    requires k % 2 == 1 && w >= 2 && k <= TwoTo(m) && k == digit + Shifted(rest, w) && digit < TwoTo(w)
    ensures digit % 2 == 1
    ensures TwoTo(w) == 2 * TwoTo(w - 1) && TwoTo(w - 1) == 2 * TwoTo(w - 2)
    ensures rest < k && (digit >= TwoTo(w - 1) ==> rest + 1 < k)
    ensures m < w ==> rest == 0 && digit < TwoTo(w - 1)
    ensures m >= w ==> rest + 1 <= TwoTo(m - w)
  {
    assert Shifted(rest, w) == 4 * Shifted(rest, w - 2);
    ShiftedGrows(rest, w - 2);
    OddBelowPower(k, m);
    RestBound(k, w, m, rest);
  }

  lemma RestBound(k: nat, w: nat, m: nat, rest: nat)
    requires w > 0 && k <= TwoTo(m) && (k < TwoTo(m) || m == 0) && Shifted(rest, w) <= k
    ensures m < w ==> rest == 0 && k <= TwoTo(w - 1) && (m > 0 ==> k < TwoTo(w - 1))
    ensures m >= w ==> rest + 1 <= TwoTo(m - w)
  {
    if m < w {
      TwoToMonotone(m, w - 1);
      assert TwoTo(w) == 2 * TwoTo(w - 1);
      if rest > 0 {
        ShiftedAtLeast(rest, w, w);
        assert false;
      }
    } else {
      ShiftedBound(rest, w, m);
    }
  }

  lemma OddBelowPower(k: nat, m: nat)
    requires k % 2 == 1 && k <= TwoTo(m)
    ensures k < TwoTo(m) || m == 0
  {
    if m > 0 {
      assert TwoTo(m) == 2 * TwoTo(m - 1);
    }
  }

  lemma {:induction false} TwoToMonotone(m: nat, n: nat)
    requires m <= n
    ensures TwoTo(m) <= TwoTo(n)
  {
    if m < n {
      TwoToMonotone(m, n - 1);
    }
  }

  // ---------- recode ----------

  /** sign_masks holds all ones for a positive sign and zero for a negative one. */
  function MaskSign(mask: nat): int {
    if mask == 0 then -1 else 1
  }

  /** The bit of sub-scalar j in a combined digit. */
  function DigitBit(digit: nat, j: nat): nat {
    if j == 1 then digit % 2 else if j == 2 then digit / 2 % 2 else digit / 4 % 2
  }

  /** The signs alone stand for sub-scalar 0; the others have their bits under the same signs. */
  function JointTerms(masks: seq<nat>, digits: seq<nat>, j: nat): (r: seq<int>)
    requires |masks| == |digits|
    ensures |r| == |masks|
  {
    seq(|masks|, i requires 0 <= i < |masks| => MaskSign(masks[i]) * (if j == 0 then 1 else DigitBit(digits[i], j)))
  }

  lemma JointAppend(masks: seq<nat>, digits: seq<nat>, mask: nat, digit: nat, j: nat, rest: int)
    requires |masks| == |digits|
    ensures Prefixed(JointTerms(masks + [mask], digits + [digit], j), rest)
            == Prefixed(JointTerms(masks, digits, j),
                        MaskSign(mask) * (if j == 0 then 1 else DigitBit(digit, j)) + 2 * rest)
  {
    var term := MaskSign(mask) * (if j == 0 then 1 else DigitBit(digit, j));
    assert JointTerms(masks + [mask], digits + [digit], j) == JointTerms(masks, digits, j) + [term];
    Append(JointTerms(masks, digits, j), term, rest);
  }

  /** Halves a sub-scalar, rounding up when its bit comes with a negative sign. */
  method HalveWithCarry(c: nat, bit0: nat, ghost m: nat) returns (bit: nat, half: nat)
    requires bit0 <= 1 && m > 0 && c <= TwoTo(m)
    ensures bit <= 1 && half <= TwoTo(m - 1)
    ensures c == (if bit0 == 1 then 1 else -1) * bit + 2 * half
  {
    bit := c % 2;
    var either := if bit0 == 1 || bit == 1 then 1 else 0;
    var carry := if either != bit0 then 1 else 0;
    half := c / 2 + carry;
    assert TwoTo(m) == 2 * TwoTo(m - 1);
  }

  /** What is kept while the first i digits are written: the digits and the rests make up the scalars. */
  ghost predicate JointState(masks: seq<nat>, digits: seq<nat>, c: seq<nat>, s: seq<nat>, m: nat) {
    && |masks| == |digits| && |c| == |s| == 4
    && (forall h :: 0 <= h < |digits| ==> digits[h] <= 7 && (masks[h] == 0 || masks[h] == MINUS_ONE))
    && c[0] < TwoTo(m) && c[1] <= TwoTo(m) && c[2] <= TwoTo(m) && c[3] <= TwoTo(m)
    && forall j {:trigger JointRest(masks, digits, j, c, s)} :: 0 <= j < 4 ==> JointRest(masks, digits, j, c, s)
  }

  /** The digits of sub-scalar j followed by what is left of it. */
  ghost predicate JointRest(masks: seq<nat>, digits: seq<nat>, j: nat, c: seq<nat>, s: seq<nat>)
    requires |masks| == |digits| && |c| == |s| == 4 && j < 4
  {
    Prefixed(JointTerms(masks, digits, j), Odd(c[j], j)) == Odd(s[j], j)
  }

  /** Sub-scalar 0 is taken to be odd; its low bit is not represented. */
  function Odd(c: nat, j: nat): nat {
    if j == 0 then c - c % 2 + 1 else c
  }

  method Recode(scalars: array<nat>, digits: array<nat>, masks: array<nat>)
    requires scalars.Length == 4 && digits.Length == masks.Length == 65 && digits != masks && scalars != digits
    requires scalars != masks
    requires scalars[0] < RADIX && scalars[1] < RADIX && scalars[2] < RADIX && scalars[3] < RADIX
    modifies scalars, digits, masks
    ensures forall i :: 0 <= i < 65 ==> digits[i] <= 7 && (masks[i] == 0 || masks[i] == MINUS_ONE)
    ensures forall j :: 0 <= j < 4 ==> WeightedSum(JointTerms(masks[..], digits[..], j)) == Odd(old(scalars[j]), j)
  {
    ghost var s := scalars[..];
    masks[64] := MINUS_ONE;
    JointStart(s);
    RecodeBits(scalars, digits, masks, s);
    ghost var c := scalars[..];
    digits[64] := scalars[1] + 2 * scalars[2] + 4 * scalars[3];
    assert masks[..] == masks[..64] + [MINUS_ONE] && digits[..] == digits[..64] + [digits[64]];
    LastDigit(masks[..64], digits[..64], digits[64], c, s);
  }

  lemma JointStart(s: seq<nat>)
    requires |s| == 4 && s[0] < RADIX && s[1] < RADIX && s[2] < RADIX && s[3] < RADIX
    ensures JointState([], [], s, s, 64)
  {
    RadixIsPow();
    assert forall j :: 0 <= j < 4 ==> JointTerms([], [], j) == [];
  }

  method RecodeBits(scalars: array<nat>, digits: array<nat>, masks: array<nat>, ghost s: seq<nat>)
    requires scalars.Length == 4 && digits.Length == masks.Length == 65 && digits != masks && scalars != digits
    requires scalars != masks
    requires JointState([], [], scalars[..], s, 64)
    modifies scalars, digits, masks
    ensures masks[64] == old(masks[64]) && JointState(masks[..64], digits[..64], scalars[..], s, 0)
  {
    ghost var m: nat := 64;
    assert masks[..0] == [] && digits[..0] == [];
    for i := 0 to 64
      invariant masks[64] == old(masks[64]) && m == 64 - i
      invariant JointState(masks[..i], digits[..i], scalars[..], s, m)
    {
      RecodeStep(scalars, digits, masks, i, s, m);
      m := m - 1;
    }
  }

  method RecodeStep(scalars: array<nat>, digits: array<nat>, masks: array<nat>, i: nat, ghost s: seq<nat>, ghost m: nat)
    requires scalars.Length == 4 && digits.Length == masks.Length == 65 && digits != masks && scalars != digits
    requires scalars != masks
    requires i < 64 && m == 64 - i && JointState(masks[..i], digits[..i], scalars[..], s, m)
    modifies scalars, digits, masks
    ensures masks[64] == old(masks[64]) && JointState(masks[..i + 1], digits[..i + 1], scalars[..], s, m - 1)
    ensures scalars[0] < RADIX && scalars[1] < RADIX && scalars[2] < RADIX && scalars[3] < RADIX
  {
    ghost var c, m0, d0 := scalars[..], masks[..i], digits[..i];
    ghost var bit1, bit2, bit3 := WriteDigit(scalars, digits, masks, i, m);
    assert masks[..i + 1] == m0 + [masks[i]] && digits[..i + 1] == d0 + [digits[i]];
    JointNext(m0, d0, c, s, m, masks[i], bit1, bit2, bit3, scalars[..]);
    WithinWord(masks[..i + 1], digits[..i + 1], scalars[..], s, m - 1);
  }

  /** After the first round the rests are below half a word and fit one even when rounded up. */
  lemma WithinWord(masks: seq<nat>, digits: seq<nat>, c: seq<nat>, s: seq<nat>, m: nat)
    requires JointState(masks, digits, c, s, m) && m < 64
    ensures c[0] < RADIX && c[1] < RADIX && c[2] < RADIX && c[3] < RADIX
  {
    RadixIsPow();
    TwoToMonotone(m, 63);
    assert TwoTo(64) == 2 * TwoTo(63);
  }

  /** The combined digit holds the three low bits; each scalar loses its bit under the common sign. */
  method WriteDigit(scalars: array<nat>, digits: array<nat>, masks: array<nat>, i: nat, ghost m: nat)
    returns (ghost bit1: nat, ghost bit2: nat, ghost bit3: nat)
    requires scalars.Length == 4 && digits.Length == masks.Length == 65 && digits != masks && scalars != digits
    requires scalars != masks
    requires i < 64 && m > 0 && scalars[1] <= TwoTo(m) && scalars[2] <= TwoTo(m) && scalars[3] <= TwoTo(m)
    modifies scalars, digits, masks
    ensures forall h :: 0 <= h < 65 && h != i ==> digits[h] == old(digits[h]) && masks[h] == old(masks[h])
    ensures bit1 <= 1 && bit2 <= 1 && bit3 <= 1 && digits[i] == bit1 + 2 * bit2 + 4 * bit3
    ensures scalars[0] == old(scalars[0]) / 2 && masks[i] == if scalars[0] % 2 == 1 then MINUS_ONE else 0
    ensures scalars[1] <= TwoTo(m - 1) && scalars[2] <= TwoTo(m - 1) && scalars[3] <= TwoTo(m - 1)
    ensures old(scalars[1]) == MaskSign(masks[i]) * bit1 + 2 * scalars[1]
    ensures old(scalars[2]) == MaskSign(masks[i]) * bit2 + 2 * scalars[2]
    ensures old(scalars[3]) == MaskSign(masks[i]) * bit3 + 2 * scalars[3]
  {
    scalars[0] := scalars[0] / 2;
    var bit0 := scalars[0] % 2;
    masks[i] := if bit0 == 1 then MINUS_ONE else 0;
    var bit, half := HalveWithCarry(scalars[1], bit0, m);
    scalars[1] := half;
    digits[i] := bit;
    bit1 := bit;
    bit, half := HalveWithCarry(scalars[2], bit0, m);
    scalars[2] := half;
    digits[i] := digits[i] + 2 * bit;
    bit2 := bit;
    bit, half := HalveWithCarry(scalars[3], bit0, m);
    scalars[3] := half;
    digits[i] := digits[i] + 4 * bit;
    bit3 := bit;
  }

  lemma JointNext(masks: seq<nat>, digits: seq<nat>, c: seq<nat>, s: seq<nat>, m: nat, mask: nat, bit1: nat, bit2: nat,
                  bit3: nat, c2: seq<nat>)
    requires JointState(masks, digits, c, s, m) && m > 0 && |c2| == 4
    requires c2[0] == c[0] / 2 && mask == (if c2[0] % 2 == 1 then MINUS_ONE else 0)
    requires bit1 <= 1 && bit2 <= 1 && bit3 <= 1
    requires c[1] == MaskSign(mask) * bit1 + 2 * c2[1] && c[2] == MaskSign(mask) * bit2 + 2 * c2[2]
    requires c[3] == MaskSign(mask) * bit3 + 2 * c2[3]
    requires c2[1] <= TwoTo(m - 1) && c2[2] <= TwoTo(m - 1) && c2[3] <= TwoTo(m - 1)
    ensures JointState(masks + [mask], digits + [bit1 + 2 * bit2 + 4 * bit3], c2, s, m - 1)
  {
    var digit := bit1 + 2 * bit2 + 4 * bit3;
    DigitBits(bit1, bit2, bit3);
    RestNext(masks, digits, c, s, mask, digit, 0, c2);
    RestNext(masks, digits, c, s, mask, digit, 1, c2);
    RestNext(masks, digits, c, s, mask, digit, 2, c2);
    RestNext(masks, digits, c, s, mask, digit, 3, c2);
    assert TwoTo(m) == 2 * TwoTo(m - 1);
  }

  lemma DigitBits(bit1: nat, bit2: nat, bit3: nat)
    requires bit1 <= 1 && bit2 <= 1 && bit3 <= 1
    ensures DigitBit(bit1 + 2 * bit2 + 4 * bit3, 1) == bit1 && DigitBit(bit1 + 2 * bit2 + 4 * bit3, 2) == bit2
    ensures DigitBit(bit1 + 2 * bit2 + 4 * bit3, 3) == bit3 && bit1 + 2 * bit2 + 4 * bit3 <= 7
  {
  }

  lemma RestNext(masks: seq<nat>, digits: seq<nat>, c: seq<nat>, s: seq<nat>, mask: nat, digit: nat, j: nat,
                 c2: seq<nat>)
    requires |masks| == |digits| && |c| == |s| == |c2| == 4 && j < 4 && JointRest(masks, digits, j, c, s)
    requires if j == 0 then c2[0] == c[0] / 2 && mask == (if c2[0] % 2 == 1 then MINUS_ONE else 0)
             else c[j] == MaskSign(mask) * DigitBit(digit, j) + 2 * c2[j]
    ensures JointRest(masks + [mask], digits + [digit], j, c2, s)
  {
    JointAppend(masks, digits, mask, digit, j, Odd(c2[j], j));
  }

  lemma LastDigit(masks: seq<nat>, digits: seq<nat>, last: nat, c: seq<nat>, s: seq<nat>)
    requires JointState(masks, digits, c, s, 0) && last == c[1] + 2 * c[2] + 4 * c[3]
    ensures last <= 7
    ensures forall j :: 0 <= j < 4 ==> WeightedSum(JointTerms(masks + [MINUS_ONE], digits + [last], j)) == Odd(s[j], j)
  {
    assert TwoTo(0) == 1;
    DigitBits(c[1], c[2], c[3]);
    forall j | 0 <= j < 4 ensures WeightedSum(JointTerms(masks + [MINUS_ONE], digits + [last], j)) == Odd(s[j], j) {
      assert JointRest(masks, digits, j, c, s);
      JointAppend(masks, digits, MINUS_ONE, last, j, 0);
      PrefixedIsSum(JointTerms(masks + [MINUS_ONE], digits + [last], j), 0);
    }
  }
}
