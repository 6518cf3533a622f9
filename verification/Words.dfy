/** Multi-word integers of the FourQ code: four 64-bit words, least significant word first. */
module Words {
  import opened ModArith

  const RADIX: nat := 0x1_0000_0000_0000_0000
  const HALF: nat := 0x8000_0000_0000_0000
  const TOP: nat := RADIX * RADIX * RADIX * RADIX

  predicate IsWords(w: seq<nat>) {
    |w| == 4 && w[0] < RADIX && w[1] < RADIX && w[2] < RADIX && w[3] < RADIX
  }

  function Value(w: seq<nat>): (v: nat)
    requires IsWords(w)
    ensures v < TOP
  {
    w[0] + RADIX * (w[1] + RADIX * (w[2] + RADIX * w[3]))
  }

  lemma Doubled(n: nat, v: nat, m: nat, square: nat)
    requires TwoTo(n) == v && m == n + n && square == v * v
    ensures TwoTo(m) == square
  {
    TwoToSplit(m, n);
  }

  lemma RadixIsPow()
    ensures TwoTo(64) == RADIX && TwoTo(256) == TOP
  {
    Doubled(2, 4, 4, 16);
    Doubled(4, 16, 8, 256);
    Doubled(8, 256, 16, 65536);
    Doubled(16, 65536, 32, 0x1_0000_0000);
    Doubled(32, 0x1_0000_0000, 64, RADIX);
    Doubled(64, RADIX, 128, RADIX * RADIX);
    Doubled(128, RADIX * RADIX, 256, TOP);
  }
}
