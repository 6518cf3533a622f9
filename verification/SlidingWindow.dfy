/**
 The inversion modulo the curve order by sliding-window exponentiation
 (Montgomery_inversion_mod_order in common/apsi/fourq/crypto_util.c).

 The exponent is an array of four 64-bit words that is shifted left in place. Any associative product
 can stand for the Montgomery product; for the Montgomery product itself and a prime modulus the
 result is the inverse.
 */
module SlidingWindow {
  import opened ModArith
  import opened Polynomials
  import opened Words

  // ---------- Powers under an associative product ----------

  ghost predicate Associative<T(!new)>(mul: (T, T) -> T) {
    forall x, y, z {:trigger mul(mul(x, y), z)} :: mul(mul(x, y), z) == mul(x, mul(y, z))
  }

  function Power<T>(mul: (T, T) -> T, a: T, n: nat): T
    requires n > 0
  {
    if n == 1 then a else mul(Power(mul, a, n - 1), a)
  }

  lemma {:induction false} PowerAdd<T(!new)>(mul: (T, T) -> T, a: T, m: nat, n: nat)
    requires Associative(mul) && m > 0 && n > 0
    ensures mul(Power(mul, a, m), Power(mul, a, n)) == Power(mul, a, m + n)
  {
    if n > 1 {
      PowerAdd(mul, a, m, n - 1);
      assert mul(mul(Power(mul, a, m), Power(mul, a, n - 1)), a) == mul(Power(mul, a, m), mul(Power(mul, a, n - 1), a));
    }
  }

  // ---------- Shifts to the left ----------

  /** The bits that a left shift moves out of a word, and the rest. */
  lemma ShiftedWord(w: nat, up: nat, down: nat)
    requires up > 0 && down > 0 && up * down == RADIX && w < RADIX
    ensures w * up == (w / down) * RADIX + (w * up) % RADIX
    ensures w / down < up && (w * up) % RADIX <= RADIX - up
  {
    var q, r := w / down, w % down;
    DivModUnique(w, q, r, down);
    MulAssoc(q, down, up);
    MulDist(up, q * down, r);
    assert w * up == q * RADIX + r * up;
    MulMonotone(up, r, down - 1);
    assert up * (down - 1) == RADIX - up;
    DivModUnique(w * up, q, r * up, RADIX);
    if q >= up {
      MulMonotone(down, up, q);
      assert false;
    }
  }

  /** Word k after a shift: its lower bits moved up, and the upper bits of the word below. */
  function ShiftedAt(was: seq<nat>, k: nat, up: nat, down: nat): nat
    requires IsWords(was) && k < 4 && down > 0
  {
    (was[k] * up) % RADIX + (if k == 0 then 0 else was[k - 1] / down)
  }

  /** Shifts all words left by s bits in place; the upper bits of the top word are lost. */
  method ShiftLeft(w: array<nat>, s: nat)
    requires w.Length == 4 && IsWords(w[..]) && 0 < s <= 5
    modifies w
    ensures IsWords(w[..])
    ensures old(Value(w[..])) * TwoTo(s) == old(w[3]) / TwoTo(64 - s) * TOP + Value(w[..])
  {
    RadixIsPow();
    TwoToSplit(64, s);
    ShiftWords(w, TwoTo(s), TwoTo(64 - s));
  }

  method ShiftWords(w: array<nat>, up: nat, down: nat)
    requires w.Length == 4 && IsWords(w[..]) && up > 0 && down > 0 && up * down == RADIX
    modifies w
    ensures IsWords(w[..])
    ensures old(Value(w[..])) * up == old(w[3]) / down * TOP + Value(w[..])
  {
    ghost var was := w[..];
    var j := 3;
    while j > 0
      invariant 0 <= j <= 3
      invariant forall k :: 0 <= k <= j ==> w[k] == was[k]
      invariant forall k :: j < k < 4 ==> w[k] == ShiftedAt(was, k, up, down)
    {
      w[j] := (w[j] * up) % RADIX + w[j - 1] / down;
      j := j - 1;
    }
    w[0] := (w[0] * up) % RADIX;
    ShiftedValue(was, w[..], up, down);
  }

  lemma ShiftedValue(was: seq<nat>, now: seq<nat>, up: nat, down: nat)
    requires IsWords(was) && |now| == 4 && up > 0 && down > 0 && up * down == RADIX
    requires now[0] == ShiftedAt(was, 0, up, down) && now[1] == ShiftedAt(was, 1, up, down)
    requires now[2] == ShiftedAt(was, 2, up, down) && now[3] == ShiftedAt(was, 3, up, down)
    ensures IsWords(now) && Value(was) * up == was[3] / down * TOP + Value(now)
  {
    ShiftedWord(was[0], up, down);
    ShiftedWord(was[1], up, down);
    ShiftedWord(was[2], up, down);
    ShiftedWord(was[3], up, down);
    SpreadProduct(was[0], was[1], was[2], was[3], up);
  }

  lemma SpreadProduct(a: int, b: int, c: int, d: int, up: int)
    ensures (a + RADIX * (b + RADIX * (c + RADIX * d))) * up
              == a * up + RADIX * (b * up + RADIX * (c * up + RADIX * (d * up)))
  {
    MulDist(up, a, RADIX * (b + RADIX * (c + RADIX * d)));
    MulDist(up, b, RADIX * (c + RADIX * d));
    MulDist(up, c, RADIX * d);
  }

  /** The shift that looks for the leading one: from the low word up, with the bit that falls out. */
  method ShiftLeftOut(w: array<nat>) returns (bit: nat)
    requires w.Length == 4 && IsWords(w[..])
    modifies w
    ensures IsWords(w[..]) && bit <= 1
    ensures old(Value(w[..])) * 2 == bit * TOP + Value(w[..])
  {
    var temp: nat := 0;
    bit := 0;
    ghost var was := w[..];
    for j := 0 to 4
      invariant temp == bit == if j == 0 then 0 else was[j - 1] / HALF
      invariant forall k :: j <= k < 4 ==> w[k] == was[k]
      invariant forall k :: 0 <= k < j ==> w[k] == ShiftedAt(was, k, 2, HALF)
    {
      bit := w[j] / HALF;
      w[j] := (w[j] * 2) % RADIX + temp;
      temp := bit;
    }
    ShiftedValue(was, w[..], 2, HALF);
  }

  // ---------- The exponent while it is consumed ----------

  /** value holds the low i bits of e, at the top of the 256-bit window. */
  ghost predicate Window(value: nat, e: nat, i: nat) {
    value * TwoTo(i) == (e % TwoTo(i)) * TOP
  }

  /** Consuming c bits: the bits t that left the window extend the exponent reached so far. */
  lemma Consume(v: nat, v2: nat, t: nat, e: nat, i: nat, c: nat)
    requires Window(v, e, i) && c <= i && v2 < TOP && v * TwoTo(c) == t * TOP + v2
    ensures e / TwoTo(i - c) == e / TwoTo(i) * TwoTo(c) + t && Window(v2, e, i - c)
  {
    TwoToSplit(i, c);
    ConsumeParts(v, v2, t, e, TwoTo(i), TwoTo(c), TwoTo(i - c));
  }

  lemma ConsumeParts(v: nat, v2: nat, t: nat, e: nat, whole: nat, part: nat, low: nat)
    requires part > 0 && low > 0 && whole == low * part && whole > 0
    requires v * whole == (e % whole) * TOP && v2 < TOP && v * part == t * TOP + v2
    ensures e / low == e / whole * part + t && v2 * low == (e % low) * TOP
  {
    var q, r := e / whole, e % whole;
    DivModUnique(e, q, r, whole);
    ConsumeAlgebra(v, v2, t, q, r, e, part, low);
    DivModUnique(e, q * part + t, r - t * low, low);
  }

  lemma ConsumeAlgebra(v: nat, v2: nat, t: nat, q: nat, r: nat, e: nat, part: nat, low: nat)
    requires v * (low * part) == r * TOP && v2 < TOP && v * part == t * TOP + v2 && low > 0
    requires e == q * (low * part) + r
    ensures v2 * low == (r - t * low) * TOP && 0 <= r - t * low < low
    ensures e == (q * part + t) * low + (r - t * low)
  {
    assert v * (low * part) == (v * part) * low by { MulAssoc(v, part, low); }
    MulDist(low, t * TOP, v2);
    assert (t * TOP) * low == (t * low) * TOP by { MulAssoc(t, TOP, low); MulAssoc(t, low, TOP); }
    var rest := r - t * low;
    assert rest * TOP == v2 * low by { MulDist(TOP, rest, t * low); }
    if rest < 0 {
      MulAtLeast(-rest, TOP);
      MulNonNeg(v2, low);
      assert false;
    }
    if rest >= low {
      MulMonotone(TOP, low, rest);
      MulMonotone(low, v2, TOP - 1);
      assert false;
    }
    MulDist(low, q * part, t);
    MulAssoc(q, part, low);
  }

  /** While more than i bits are asked for, the surplus bits are zero. */
  lemma SurplusIsEven(w: seq<nat>, e: nat, i: nat, count: nat)
    requires IsWords(w) && Window(Value(w), e, i) && i < count <= 5
    ensures (w[3] / TwoTo(64 - count)) % 2 == 0
  {
    RadixIsPow();
    TwoToSplit(64, i);
    TwoToSplit(64 - i, 64 - count);
    var r := e % TwoTo(i);
    WindowTopWord(w, r, TwoTo(i), TwoTo(64 - i));
    var step, d := TwoTo(count - i - 1), TwoTo(64 - count);
    assert TwoTo(count - i) == 2 * step;
    EvenQuotient(w[3], r, step, d);
  }

  lemma EvenQuotient(x: nat, r: nat, step: nat, d: nat)
    requires d > 0 && x == r * ((2 * step) * d)
    ensures (x / d) % 2 == 0
  {
    MulAssoc(r, 2 * step, d);
    assert r * (2 * step) == 2 * (r * step) by { MulAssoc(r, 2, step); MulAssoc(2, r, step); }
    DivModUnique(x, 2 * (r * step), 0, d);
  }

  lemma WindowTopWord(w: seq<nat>, r: nat, small: nat, big: nat)
    requires IsWords(w) && Value(w) * small == r * TOP && small * big == RADIX && small > 0
    ensures w[3] == r * big
  {
    var low := w[0] + RADIX * (w[1] + RADIX * w[2]);
    var cube := RADIX * RADIX * RADIX;
    assert Value(w) == low + cube * w[3];
    assert r * TOP == (r * big) * cube * small by {
      assert TOP == (big * small) * cube;
      MulAssoc(r, big, small);
      MulAssoc(r * big, small, cube);
      MulAssoc(r * big, cube, small);
      MulAssoc(r, big * small, cube);
    }
    if Value(w) != r * big * cube {
      MulCancel(Value(w), r * big * cube, small);
      assert false;
    }
    DivModUnique(Value(w), w[3], low, cube);
    DivModUnique(Value(w), r * big, 0, cube);
  }

  lemma MulCancel(a: nat, b: nat, m: nat)
    requires m > 0 && a != b
    ensures a * m != b * m
  {
    if a < b {
      MulMonotone(m, a + 1, b);
    } else {
      MulMonotone(m, b + 1, a);
    }
  }

  // ---------- The algorithm ----------

  /** table[j] = a^(2j + 1) */
  method OddPowers<T(!new)>(mul: (T, T) -> T, a: T) returns (table: seq<T>)
    requires Associative(mul)
    ensures |table| == 16 && forall j :: 0 <= j < 16 ==> table[j] == Power(mul, a, 2 * j + 1)
  {
    table := [a];
    var square := mul(a, a);
    for j := 0 to 15
      invariant |table| == j + 1 && forall k :: 0 <= k <= j ==> table[k] == Power(mul, a, 2 * k + 1)
    {
      assert square == Power(mul, a, 2);
      PowerAdd(mul, a, 2 * j + 1, 2);
      table := table + [mul(table[j], square)];
    }
  }

  /** Only zeros have fallen out. */
  ghost predicate NoneYet(value: nat, e: nat, i: nat) {
    value * TwoTo(i) == e * TOP
  }

  /** The leading one has just fallen out. */
  ghost predicate LeadingOne(value: nat, e: nat, i: nat) {
    e / TwoTo(i) == 1 && Window(value, e, i)
  }

  /** Shifts until the leading one falls out; i bits of the exponent remain. */
  method SkipLeadingZeros(w: array<nat>, ghost e: nat) returns (i: nat)
    requires w.Length == 4 && IsWords(w[..]) && Value(w[..]) == e > 0
    modifies w
    ensures IsWords(w[..]) && i < 256
    ensures e / TwoTo(i) == 1 && Window(Value(w[..]), e, i)
  {
    RadixIsPow();
    i := 256;
    var bit := 0;
    while bit != 1
      invariant IsWords(w[..]) && bit <= 1 && i <= 256 && (bit == 1 ==> i < 256)
      invariant if bit == 0 then NoneYet(Value(w[..]), e, i) else LeadingOne(Value(w[..]), e, i)
      decreases i, 1 - bit
    {
      ghost var v := Value(w[..]);
      NotAllZero(v, e, i);
      i := i - 1;
      bit := ShiftLeftOut(w);
      LeadingStep(v, Value(w[..]), bit, e, i);
    }
  }

  lemma NotAllZero(v: nat, e: nat, i: nat)
    requires NoneYet(v, e, i) && v < TOP && e > 0
    ensures i > 0
  {
    if i == 0 {
      assert TwoTo(0) == 1;
      MulAtLeast(e, TOP);
      assert false;
    }
  }

  lemma LeadingStep(v: nat, v2: nat, bit: nat, e: nat, i: nat)
    requires NoneYet(v, e, i + 1) && v * 2 == bit * TOP + v2 && v2 < TOP && bit <= 1
    ensures if bit == 0 then NoneYet(v2, e, i) else LeadingOne(v2, e, i)
  {
    var m := TwoTo(i);
    assert TwoTo(i + 1) == 2 * m;
    assert v * (2 * m) == (v * 2) * m by { MulAssoc(v, 2, m); }
    if bit == 1 {
      MulDist(m, TOP, v2);
      var rest := e - m;
      assert rest * TOP == v2 * m by { MulDist(TOP, rest, m); }
      if rest < 0 {
        MulAtLeast(-rest, TOP);
        MulNonNeg(v2, m);
        assert false;
      }
      if rest >= m {
        MulMonotone(TOP, m, rest);
        MulMonotone(m, v2, TOP - 1);
        assert false;
      }
      DivModUnique(e, 1, rest, m);
    }
  }

  /** The longest odd bit string of at most five bits at the top of the window. */
  method OddPrefix(w: seq<nat>, ghost e: nat, ghost i: nat) returns (temp: nat, count: nat)
    requires IsWords(w) && Window(Value(w), e, i) && w[3] >= HALF
    ensures 0 < count <= 5 && count <= i && temp % 2 == 1 && temp < 32
    ensures temp == w[3] / TwoTo(64 - count)
  {
    count := 5;
    PowerOfTwoFacts();
    temp := w[3] / TwoTo(59);
    while temp % 2 == 0
      invariant 0 < count <= 5
      invariant temp == w[3] / TwoTo(64 - count) && 0 < temp < 32
      invariant TwoTo(count - 1) <= temp < TwoTo(count)
      decreases count
    {
      HalfQuotient(w[3], TwoTo(64 - count));
      assert TwoTo(64 - (count - 1)) == 2 * TwoTo(64 - count);
      temp := temp / 2;
      count := count - 1;
    }
    if count > i {
      SurplusIsEven(w, e, i, count);
      assert false;
    }
  }

  lemma PowerOfTwoFacts()
    ensures TwoTo(59) == 0x800_0000_0000_0000 && TwoTo(63) == HALF
    ensures TwoTo(0) == 1 && TwoTo(1) == 2 && TwoTo(4) == 16 && TwoTo(5) == 32
  {
    RadixIsPow();
    TwoToSplit(64, 5);
    TwoToSplit(64, 1);
  }

  lemma HalfQuotient(x: nat, d: nat)
    requires d > 0
    ensures x / d / 2 == x / (2 * d)
  {
    var q, r := x / d, x % d;
    DivModUnique(x, q, r, d);
    var h, b := q / 2, q % 2;
    assert x == h * (2 * d) + (b * d + r) by {
      MulDist(d, 2 * h, b);
      MulAssoc(h, 2, d);
    }
    DivModUnique(x, h, b * d + r, 2 * d);
  }

  /** Raises mc to the power 2^count. */
  method SquareRepeatedly<T(!new)>(mul: (T, T) -> T, a: T, mc: T, ghost n: nat, count: nat) returns (r: T)
    requires Associative(mul) && n > 0 && mc == Power(mul, a, n)
    ensures n * TwoTo(count) > 0 && r == Power(mul, a, n * TwoTo(count))
  {
    r := mc;
    for j := 0 to count
      invariant n * TwoTo(j) > 0 && r == Power(mul, a, n * TwoTo(j))
    {
      PowerAdd(mul, a, n * TwoTo(j), n * TwoTo(j));
      assert n * TwoTo(j + 1) == n * TwoTo(j) + n * TwoTo(j);
      r := mul(r, r);
    }
  }

  /** mc is a to the part of e above bit i; the lower bits are in the window. */
  ghost predicate Reached<T(!new)>(mul: (T, T) -> T, a: T, mc: T, value: nat, e: nat, i: nat) {
    e / TwoTo(i) > 0 && Window(value, e, i) && mc == Power(mul, a, e / TwoTo(i))
  }

  /** The shift after a zero bit was squared in. */
  method SquareStep<T(!new)>(w: array<nat>, ghost mul: (T, T) -> T, ghost a: T, ghost mc: T, ghost e: nat, ghost i: nat)
    requires Associative(mul) && w.Length == 4 && IsWords(w[..]) && w[3] / HALF == 0
    requires e / TwoTo(i + 1) > 0 && Window(Value(w[..]), e, i + 1)
    requires mc == mul(Power(mul, a, e / TwoTo(i + 1)), Power(mul, a, e / TwoTo(i + 1)))
    modifies w
    ensures IsWords(w[..]) && Reached(mul, a, mc, Value(w[..]), e, i)
  {
    ghost var v, n := Value(w[..]), e / TwoTo(i + 1);
    PowerOfTwoFacts();
    ShiftLeft(w, 1);
    Consume(v, Value(w[..]), 0, e, i + 1, 1);
    PowerAdd(mul, a, n, n);
  }

  /** A window that starts with a one bit is consumed with one table look-up. */
  method WindowStep<T(!new)>(w: array<nat>, mul: (T, T) -> T, a: T, table: seq<T>, mc: T, ghost e: nat, i: nat)
    returns (r: T, k: nat)
    requires Associative(mul) && w.Length == 4 && IsWords(w[..]) && w[3] / HALF != 0
    requires |table| == 16 && forall j :: 0 <= j < 16 ==> table[j] == Power(mul, a, 2 * j + 1)
    requires Reached(mul, a, mc, Value(w[..]), e, i)
    modifies w
    ensures k < i && IsWords(w[..]) && Reached(mul, a, r, Value(w[..]), e, k)
  {
    ghost var v, n := Value(w[..]), e / TwoTo(i);
    var temp, count := OddPrefix(w[..], e, i);
    r := SquareRepeatedly(mul, a, mc, n, count);
    PowerAdd(mul, a, n * TwoTo(count), temp);
    assert 2 * ((temp - 1) / 2) + 1 == temp;
    r := mul(r, table[(temp - 1) / 2]);
    ShiftLeft(w, count);
    Consume(v, Value(w[..]), temp, e, i, count);
    k := i - count;
  }

  /** a^e for the exponent in w, which is shifted away bit by bit. */
  method Exponentiate<T(!new)>(mul: (T, T) -> T, a: T, w: array<nat>) returns (mc: T)
    requires Associative(mul) && w.Length == 4 && IsWords(w[..]) && Value(w[..]) > 0
    modifies w
    ensures mc == Power(mul, a, old(Value(w[..])))
  {
    ghost var e := Value(w[..]);
    var table := OddPowers(mul, a);
    var i := SkipLeadingZeros(w, e);
    mc := a;
    while i > 0
      invariant IsWords(w[..]) && Reached(mul, a, mc, Value(w[..]), e, i)
      decreases i
    {
      if w[3] / HALF == 0 {
        mc := mul(mc, mc);
        i := i - 1;
        SquareStep(w, mul, a, mc, e, i);
      } else {
        ghost var before := i;
        mc, i := WindowStep(w, mul, a, table, mc, e, i);
      }
    }
    assert TwoTo(0) == 1;
    assert e / 1 == e;
  }

  // ---------- Inversion ----------

  /** x * y / R modulo m, where rInv is the inverse of R. */
  function MontgomeryProduct(m: nat, rInv: nat): (nat, nat) -> nat
    requires m > 0
  {
    (x: nat, y: nat) => x * y * rInv % m
  }

  lemma MontgomeryAssociative(m: nat, rInv: nat)
    requires m > 0
    ensures Associative(MontgomeryProduct(m, rInv))
  {
    var mul := MontgomeryProduct(m, rInv);
    forall x: nat, y: nat, z: nat ensures mul(mul(x, y), z) == mul(x, mul(y, z)) {
      CongReduce(x * y * rInv, m);
      CongMul(mul(x, y), x * y * rInv, z * rInv, z * rInv, m);
      CongReduce(y * z * rInv, m);
      CongMul(x * rInv, x * rInv, mul(y, z), y * z * rInv, m);
      MontgomeryRegroup(x, y, z, rInv, mul(x, y), mul(y, z));
    }
  }

  lemma MontgomeryRegroup(x: nat, y: nat, z: nat, rInv: nat, xy: nat, yz: nat)
    ensures (x * y * rInv) * (z * rInv) == (x * rInv) * (y * z * rInv)
    ensures xy * (z * rInv) == xy * z * rInv && (x * rInv) * yz == x * yz * rInv
  {
    MulAssoc(xy, z, rInv);
    assert (x * rInv) * yz == x * yz * rInv by { MulAssoc(x, rInv, yz); MulAssoc(x, yz, rInv); }
    assert (x * y * rInv) * (z * rInv) == (x * rInv) * (y * z * rInv) by {
      var u, s := x * rInv, z * rInv;
      assert x * y * rInv == u * y by { MulAssoc(x, y, rInv); MulAssoc(x, rInv, y); }
      assert y * z * rInv == y * s by { MulAssoc(y, z, rInv); }
      MulAssoc(u, y, s);
    }
  }

  /** Multiplied out, a Montgomery power is an ordinary power with one factor rInv less. */
  lemma {:induction false} MontgomeryPower(m: nat, rInv: nat, a: nat, n: nat)
    requires m > 0 && n > 0
    ensures Cong(Power<nat>(MontgomeryProduct(m, rInv), a, n) * rInv, Pow(a * rInv, n), m)
  {
    var mul := MontgomeryProduct(m, rInv);
    if n == 1 {
      assert Pow(a * rInv, 1) == (a * rInv) * Pow(a * rInv, 0);
      CongReduce(a * rInv, m);
    } else {
      var before := Power<nat>(mul, a, n - 1);
      MontgomeryPower(m, rInv, a, n - 1);
      CongReduce(before * a * rInv, m);
      CongMul(mul(before, a), before * a * rInv, rInv, rInv, m);
      CongMul(before * rInv, Pow(a * rInv, n - 1), a * rInv, a * rInv, m);
      assert before * a * rInv * rInv == (before * rInv) * (a * rInv) by {
        MulAssoc(before, a, rInv);
        MulAssoc(before, a * rInv, rInv);
        MulAssoc(before, rInv, a * rInv);
      }
      assert Pow(a * rInv, n) == (a * rInv) * Pow(a * rInv, n - 1);
    }
  }

  lemma UnitProduct(m: nat, r: nat, rInv: nat, a: nat)
    requires IsPrime(m) && Cong(r * rInv, 1, m) && !Cong(a, 0, m)
    ensures !Cong(a * rInv, 0, m)
  {
    if Cong(a * rInv, 0, m) {
      EuclidsLemma(m, a, rInv);
      CongMul(r, r, rInv, 0, m);
      CongSmall(1, 0, m);
      assert false;
    }
  }

  /** For a prime order, the power order - 2 of a nonzero element is its inverse in Montgomery form. */
  lemma InverseByExponent(m: nat, r: nat, rInv: nat, a: nat)
    requires IsPrime(m) && m > 2 && Cong(r * rInv, 1, m) && r < m && !Cong(a, 0, m)
    ensures MontgomeryProduct(m, rInv)(Power<nat>(MontgomeryProduct(m, rInv), a, m - 2), a) == r
  {
    var mul := MontgomeryProduct(m, rInv);
    var product := mul(Power<nat>(mul, a, m - 2), a);
    assert product == Power<nat>(mul, a, m - 1);
    MontgomeryPower(m, rInv, a, m - 1);
    UnitProduct(m, r, rInv, a);
    FermatLittle(m, a * rInv);
    SameInverse(product, r, rInv, m);
  }

  /** Two residues with the same inverse are equal. */
  lemma SameInverse(x: nat, y: nat, inv: nat, m: nat)
    requires m > 0 && x < m && y < m && Cong(x * inv, 1, m) && Cong(y * inv, 1, m)
    ensures x == y
  {
    CongMul(x * inv, 1, y, y, m);
    CongMul(y * inv, 1, x, x, m);
    assert (x * inv) * y == (y * inv) * x by { MulAssoc(x, inv, y); MulAssoc(y, inv, x); }
    CongSmall(x, y, m);
  }

  /** Montgomery_inversion_mod_order: the exponent is order - 2. */
  method InvertModOrder(order: nat, r: nat, rInv: nat, a: nat) returns (mc: nat)
    requires IsPrime(order) && 2 < order < TOP && Cong(r * rInv, 1, order) && r < order && !Cong(a, 0, order)
    ensures MontgomeryProduct(order, rInv)(mc, a) == r
  {
    MontgomeryAssociative(order, rInv);
    var e := order - 2;
    var w := new nat[4];
    w[0], w[1] := e % RADIX, e / RADIX % RADIX;
    w[2], w[3] := e / RADIX / RADIX % RADIX, e / RADIX / RADIX / RADIX;
    assert IsWords(w[..]) && Value(w[..]) == e;
    mc := Exponentiate(MontgomeryProduct(order, rInv), a, w);
    InverseByExponent(order, r, rInv, a);
  }
}
