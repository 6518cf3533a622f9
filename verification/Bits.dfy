/**
 Bits of bytes and the two unaligned bit copies (common/apsi/util/db_encoding.cpp).

 A byte is the sequence of its eight bits, least significant bit first; the bitwise operators and
 shifts of the source are functions on these sequences.
 */
module Bits {
  import opened ModArith
  import opened Wrappers

  type Byte = b: seq<bool> | |b| == 8 witness [false, false, false, false, false, false, false, false]

  /** b >> n */
  function Shr(b: Byte, n: nat): (r: Byte) {
    seq(8, i requires 0 <= i < 8 => i + n < 8 && b[i + n])
  }

  /** The low byte of b << n. */
  function Shl(b: Byte, n: nat): (r: Byte) {
    seq(8, i requires 0 <= i < 8 => n <= i && b[i - n])
  }

  /** The low byte of (1 << n) - 1. */
  function LowMask(n: nat): (r: Byte) {
    seq(8, i requires 0 <= i < 8 => i < n)
  }

  function And(a: Byte, b: Byte): (r: Byte) {
    seq(8, i requires 0 <= i < 8 => a[i] && b[i])
  }

  function Or(a: Byte, b: Byte): (r: Byte) {
    seq(8, i requires 0 <= i < 8 => a[i] || b[i])
  }

  function Not(a: Byte): (r: Byte) {
    seq(8, i requires 0 <= i < 8 => !a[i])
  }

  const ALL_ONES: Byte := [true, true, true, true, true, true, true, true]

  // ---------- Byte strings ----------

  /** Bit k of a byte string, least significant bit of the first byte first. */
  function BitAt(s: seq<Byte>, k: nat): bool {
    k / 8 < |s| && s[k / 8][k % 8]
  }

  lemma BitAtByte(s: seq<Byte>, w: nat, i: nat)
    requires w < |s| && i < 8
    ensures BitAt(s, 8 * w + i) == s[w][i]
  {
    DivModUnique(8 * w + i, w, i, 8);
  }

  /** The low n bits of b are bits off .. off + n - 1 of s. */
  ghost predicate LowBitsFrom(b: Byte, n: nat, s: seq<Byte>, off: nat) {
    forall i {:trigger b[i]} :: 0 <= i < n && i < 8 ==> b[i] == BitAt(s, off + i)
  }

  /** Bits n .. 7 of b are those of c. */
  ghost predicate HighBitsKept(b: Byte, n: nat, c: Byte) {
    forall i :: n <= i < 8 ==> b[i] == c[i]
  }

  /** Exactly n bits of s from bit off on are written to bit at on; all other bits stay. */
  ghost predicate BitsCopied(after: seq<Byte>, before: seq<Byte>, at: nat, s: seq<Byte>, off: nat, n: nat) {
    && |after| == |before|
    && forall j, i {:trigger after[j][i]} :: 0 <= j < |after| && 0 <= i < 8 ==>
         after[j][i] == if at <= 8 * j + i < at + n then BitAt(s, off + (8 * j + i - at)) else before[j][i]
  }

  // ---------- Single bytes ----------

  lemma FullByte(s: seq<Byte>, w: nat, lo: nat)
    requires 1 <= lo < 8 && w + 1 < |s|
    ensures LowBitsFrom(Or(Shr(s[w], lo), Shl(s[w + 1], 8 - lo)), 8, s, 8 * w + lo)
  {
    var b := Or(Shr(s[w], lo), Shl(s[w + 1], 8 - lo));
    forall i | 0 <= i < 8 ensures b[i] == BitAt(s, 8 * w + lo + i) {
      if lo + i < 8 {
        BitAtByte(s, w, lo + i);
      } else {
        BitAtByte(s, w + 1, lo + i - 8);
      }
    }
  }

  /** The last byte when its bits lie in one source byte. */
  function TailOneByte(src: Byte, dest: Byte, lo: nat, rem: nat): Byte {
    Or(And(Shr(src, lo), LowMask(rem)), And(dest, Not(LowMask(rem))))
  }

  lemma TailOneByteRight(s: seq<Byte>, w: nat, lo: nat, rem: nat, dest: Byte)
    requires w < |s| && lo + rem <= 8
    ensures LowBitsFrom(TailOneByte(s[w], dest, lo, rem), rem, s, 8 * w + lo)
    ensures HighBitsKept(TailOneByte(s[w], dest, lo, rem), rem, dest)
  {
    forall i | 0 <= i < rem ensures TailOneByte(s[w], dest, lo, rem)[i] == BitAt(s, 8 * w + lo + i) {
      BitAtByte(s, w, lo + i);
    }
  }

  /** The last byte when its bits lie in two source bytes. */
  function TailTwoBytes(src: Byte, next: Byte, dest: Byte, lo: nat, rem: nat): Byte
    requires lo < 8 < lo + rem
  {
    var low := And(Shr(src, lo), LowMask(8 - lo));
    var mid := Shl(And(next, LowMask(rem - (8 - lo))), 8 - lo);
    Or(Or(low, mid), And(dest, Shl(ALL_ONES, rem)))
  }

  lemma TailTwoBytesRight(s: seq<Byte>, w: nat, lo: nat, rem: nat, dest: Byte)
    requires w + 1 < |s| && lo < 8 < lo + rem && rem < 8
    ensures LowBitsFrom(TailTwoBytes(s[w], s[w + 1], dest, lo, rem), rem, s, 8 * w + lo)
    ensures HighBitsKept(TailTwoBytes(s[w], s[w + 1], dest, lo, rem), rem, dest)
  {
    var b := TailTwoBytes(s[w], s[w + 1], dest, lo, rem);
    forall i | 0 <= i < rem ensures b[i] == BitAt(s, 8 * w + lo + i) {
      if lo + i < 8 {
        BitAtByte(s, w, lo + i);
      } else {
        BitAtByte(s, w + 1, lo + i - 8);
      }
    }
    forall i | rem <= i < 8 ensures b[i] == dest[i] {
      assert ALL_ONES[i - rem];
    }
  }

  // ---------- The copy to an aligned destination ----------

  /** The last byte of a copy, whose upper bits stay. */
  method TailByte(src: seq<Byte>, off: nat, rem: nat, dest: Byte) returns (b: Byte)
    requires 0 < rem < 8 && off + rem <= 8 * |src|
    ensures LowBitsFrom(b, rem, src, off) && HighBitsKept(b, rem, dest)
  {
    var w, low := off / 8, off % 8;
    if low + rem <= 8 {
      TailOneByteRight(src, w, low, rem, dest);
      return TailOneByte(src[w], dest, low, rem);
    } else {
      TailTwoBytesRight(src, w, low, rem, dest);
      return TailTwoBytes(src[w], src[w + 1], dest, low, rem);
    }
  }

  /** Copies bitCount bits of src from bitOffset on to the start of byte base of dest. */
  method CopyToAligned(src: seq<Byte>, bitOffset: nat, bitCount: nat, dest: array<Byte>, base: nat)
    requires bitOffset + bitCount <= 8 * |src| && 8 * base + bitCount <= 8 * dest.Length
    modifies dest
    ensures BitsCopied(dest[..], old(dest[..]), 8 * base, src, bitOffset, bitCount)
  {
    var low := bitOffset % 8;
    var full := bitCount / 8;
    var w := bitOffset / 8;
    var rem := bitCount % 8;
    ghost var was := dest[..];
    for i := 0 to full
      invariant forall j :: base <= j < base + i ==> LowBitsFrom(dest[j], 8, src, bitOffset + 8 * (j - base))
      invariant forall j :: 0 <= j < base || base + i <= j < dest.Length ==> dest[j] == was[j]
    {
      if low != 0 {
        FullByte(src, w + i, low);
        dest[base + i] := Or(Shr(src[w + i], low), Shl(src[w + i + 1], 8 - low));
      } else {
        CopiedByte(src, w + i);
        dest[base + i] := src[w + i];
      }
    }
    if rem != 0 {
      var tail := TailByte(src, bitOffset + 8 * full, rem, dest[base + full]);
      dest[base + full] := tail;
    }
    BytesGiveBits(dest[..], was, base, full, rem, src, bitOffset);
  }

  lemma CopiedByte(s: seq<Byte>, w: nat)
    requires w < |s|
    ensures LowBitsFrom(s[w], 8, s, 8 * w)
  {
    forall i | 0 <= i < 8 ensures s[w][i] == BitAt(s, 8 * w + i) {
      BitAtByte(s, w, i);
    }
  }

  lemma BytesGiveBits(after: seq<Byte>, before: seq<Byte>, base: nat, full: nat, rem: nat, src: seq<Byte>, off: nat)
    requires |after| == |before| && rem < 8 && base + full <= |after| && (rem > 0 ==> base + full < |after|)
    requires forall j :: base <= j < base + full ==> LowBitsFrom(after[j], 8, src, off + 8 * (j - base))
    requires rem > 0 ==> LowBitsFrom(after[base + full], rem, src, off + 8 * full)
    requires rem > 0 ==> HighBitsKept(after[base + full], rem, before[base + full])
    requires forall j :: 0 <= j < |after| && !(base <= j < base + full) && !(rem > 0 && j == base + full) ==>
               after[j] == before[j]
    ensures BitsCopied(after, before, 8 * base, src, off, 8 * full + rem)
  {
    forall j, i | 0 <= j < |after| && 0 <= i < 8
      ensures after[j][i]
              == if 8 * base <= 8 * j + i < 8 * base + (8 * full + rem) then BitAt(src, off + (8 * j + i - 8 * base))
                else before[j][i]
    {
      if base <= j < base + full {
        assert LowBitsFrom(after[j], 8, src, off + 8 * (j - base));
        assert off + 8 * (j - base) + i == off + (8 * j + i - 8 * base);
      } else if rem > 0 && j == base + full {
        assert off + 8 * full + i == off + (8 * j + i - 8 * base);
      }
    }
  }

  // ---------- The copy to any bit of the destination ----------

  /** The bits of one source byte, moved under dest. */
  function HeadOneByte(src: Byte, dest: Byte, srcOffset: nat, destOffset: nat, diff: nat): Byte {
    Or(And(dest, Not(Shl(LowMask(diff), destOffset))), Shl(And(Shr(src, srcOffset), LowMask(diff)), destOffset))
  }

  /** The bits of two source bytes, moved under dest; highDiff of them come from the second. */
  function HeadTwoBytes(src: Byte, next: Byte, dest: Byte, srcOffset: nat, destOffset: nat, diff: nat,
                        highDiff: nat): Byte
    requires highDiff <= diff
  {
    var lowDiff := diff - highDiff;
    var low := Shl(And(Shr(src, srcOffset), LowMask(lowDiff)), destOffset);
    var high := Shl(And(next, LowMask(highDiff)), destOffset + lowDiff);
    Or(Or(And(dest, Not(Shl(LowMask(diff), destOffset))), low), high)
  }

  /** Bits from .. from + n - 1 of b are bits off .. of s, the others those of c. */
  ghost predicate MiddleBitsFrom(b: Byte, c: Byte, from: nat, n: nat, s: seq<Byte>, off: nat) {
    forall i {:trigger b[i]} :: 0 <= i < 8 ==> b[i] == if from <= i < from + n then BitAt(s, off + (i - from)) else c[i]
  }

  lemma HeadOneByteRight(s: seq<Byte>, w: nat, dest: Byte, so: nat, d: nat, diff: nat)
    requires w < |s| && so + diff <= 8 && so < 8 && d + diff <= 8
    ensures MiddleBitsFrom(HeadOneByte(s[w], dest, so, d, diff), dest, d, diff, s, 8 * w + so)
  {
    var b := HeadOneByte(s[w], dest, so, d, diff);
    forall i | 0 <= i < 8 ensures b[i] == if d <= i < d + diff then BitAt(s, 8 * w + so + (i - d)) else dest[i] {
      if d <= i < d + diff {
        BitAtByte(s, w, so + (i - d));
      }
    }
  }

  lemma HeadTwoBytesRight(s: seq<Byte>, w: nat, dest: Byte, so: nat, d: nat, diff: nat, highDiff: nat)
    requires w + 1 < |s| && so < 8 && 0 < highDiff <= diff && highDiff == so + diff - 8 && d + diff <= 8
    ensures MiddleBitsFrom(HeadTwoBytes(s[w], s[w + 1], dest, so, d, diff, highDiff), dest, d, diff, s, 8 * w + so)
  {
    var b := HeadTwoBytes(s[w], s[w + 1], dest, so, d, diff, highDiff);
    forall i | 0 <= i < 8 ensures b[i] == if d <= i < d + diff then BitAt(s, 8 * w + so + (i - d)) else dest[i] {
      if d <= i < d + (diff - highDiff) {
        BitAtByte(s, w, so + (i - d));
      } else if d <= i < d + diff {
        BitAtByte(s, w + 1, so + (i - d) - 8);
      }
    }
  }

  /** The first byte of a copy that starts inside a byte; its other bits stay. */
  method HeadByte(src: seq<Byte>, off: nat, dest: Byte, d: nat, diff: nat) returns (b: Byte)
    requires 0 < diff && d + diff <= 8 && off + diff <= 8 * |src|
    ensures MiddleBitsFrom(b, dest, d, diff, src, off)
  {
    var w, so := off / 8, off % 8;
    var highDiff := so + diff - 8;
    if highDiff <= 0 {
      HeadOneByteRight(src, w, dest, so, d, diff);
      return HeadOneByte(src[w], dest, so, d, diff);
    } else {
      HeadTwoBytesRight(src, w, dest, so, d, diff, highDiff);
      return HeadTwoBytes(src[w], src[w + 1], dest, so, d, diff, highDiff);
    }
  }

  /** high_diff as the source computes it, in 32 unsigned bits. */
  function HighDiff32(srcOffset: nat, diff: nat): nat {
    (srcOffset + diff - 8) % 0x1_0000_0000
  }

  /** The first byte with the source's own test; None where it shifts a 32-bit one by 32 or more. */
  function HeadByteAsWritten(src: seq<Byte>, off: nat, dest: Byte, d: nat, diff: nat): Option<Byte>
    requires 0 < diff && d + diff <= 8 && off + diff <= 8 * |src|
  {
    var (w, so) := (off / 8, off % 8);
    var highDiff := HighDiff32(so, diff);
    if highDiff <= 0 then Some(HeadOneByte(src[w], dest, so, d, diff))
    else if highDiff >= 32 then None
    else Some(HeadTwoBytes(src[w], src[w + 1], dest, so, d, diff, highDiff))
  }

  lemma HighDiff32Value(srcOffset: nat, diff: nat)
    requires srcOffset < 8 && 0 < diff <= 8
    ensures srcOffset + diff >= 8 ==> HighDiff32(srcOffset, diff) == srcOffset + diff - 8
    ensures srcOffset + diff < 8 ==> HighDiff32(srcOffset, diff) >= 32
  {
  }

  /** The test works exactly when the bits reach the end of their first source byte. */
  lemma HeadByteAsWrittenIff(src: seq<Byte>, off: nat, dest: Byte, d: nat, diff: nat)
    requires 0 < diff && d + diff <= 8 && off + diff <= 8 * |src|
    ensures var r := HeadByteAsWritten(src, off, dest, d, diff);
            && (r.Some? <==> off % 8 + diff >= 8)
            && (r.Some? ==> MiddleBitsFrom(r.value, dest, d, diff, src, off))
  {
    var w, so := off / 8, off % 8;
    HighDiff32Value(so, diff);
    if so + diff == 8 {
      HeadOneByteRight(src, w, dest, so, d, diff);
      assert HeadByteAsWritten(src, off, dest, d, diff) == Some(HeadOneByte(src[w], dest, so, d, diff));
    } else if so + diff > 8 {
      var highDiff := so + diff - 8;
      HeadTwoBytesRight(src, w, dest, so, d, diff, highDiff);
      assert HeadByteAsWritten(src, off, dest, d, diff)
          == Some(HeadTwoBytes(src[w], src[w + 1], dest, so, d, diff, highDiff));
    } else {
      assert HeadByteAsWritten(src, off, dest, d, diff) == None;
    }
  }

  /** Copies bitCount bits of src from srcBitOffset on to bit destBitOffset of dest. */
  method CopyWithBitOffset(src: seq<Byte>, srcBitOffset: nat, destBitOffset: nat, bitCount: nat, dest: array<Byte>)
    requires srcBitOffset + bitCount <= 8 * |src| && destBitOffset + bitCount <= 8 * dest.Length
    modifies dest
    ensures BitsCopied(dest[..], old(dest[..]), destBitOffset, src, srcBitOffset, bitCount)
  {
    ghost var was := dest[..];
    var destNext := (destBitOffset + 7) / 8;
    var diff := destNext * 8 - destBitOffset;
    if bitCount > diff {
      CopyToAligned(src, srcBitOffset + diff, bitCount - diff, dest, destNext);
    } else {
      diff := bitCount;
    }
    ghost var mid := dest[..];
    if diff != 0 {
      var j := destBitOffset / 8;
      var head := HeadByte(src, srcBitOffset, dest[j], destBitOffset % 8, diff);
      dest[j] := head;
      HeadAndRest(dest[..], mid, was, j, destBitOffset % 8, destNext, diff, bitCount, src, srcBitOffset);
    }
  }

  lemma HeadAndRest(after: seq<Byte>, mid: seq<Byte>, was: seq<Byte>, j: nat, d: nat, destNext: nat, diff: nat,
                    bitCount: nat, src: seq<Byte>, srcOff: nat)
    requires j < |was| == |mid| == |after| && forall k :: 0 <= k < |mid| && k != j ==> after[k] == mid[k]
    requires 0 < diff <= bitCount && d + diff <= 8 && (diff == bitCount || d + diff == 8) && destNext == j + 1
    requires if bitCount > diff then BitsCopied(mid, was, 8 * destNext, src, srcOff + diff, bitCount - diff)
             else mid == was
    requires MiddleBitsFrom(after[j], mid[j], d, diff, src, srcOff)
    ensures BitsCopied(after, was, 8 * j + d, src, srcOff, bitCount)
  {
    var at := 8 * j + d;
    forall k, i | 0 <= k < |after| && 0 <= i < 8
      ensures after[k][i]
              == if at <= 8 * k + i < at + bitCount then BitAt(src, srcOff + (8 * k + i - at)) else was[k][i]
    {
      if bitCount > diff {
        assert mid[k][i] == if 8 * destNext <= 8 * k + i < 8 * destNext + (bitCount - diff)
                            then BitAt(src, srcOff + diff + (8 * k + i - 8 * destNext)) else was[k][i];
        if k > j {
          assert srcOff + diff + (8 * k + i - 8 * destNext) == srcOff + (8 * k + i - at);
        }
      }
      if k == j {
        assert srcOff + (i - d) == srcOff + (8 * k + i - at);
      }
    }
  }

  // ---------- The copy with the source's own test ----------

  /** No shift by 32 or more: there is no partial first byte, or its bits reach the end of their first source byte. */
  predicate DefinedAsWritten(srcBitOffset: nat, destBitOffset: nat, bitCount: nat) {
    var room := 8 - destBitOffset % 8;
    bitCount == 0 || destBitOffset % 8 == 0 || srcBitOffset % 8 + (if bitCount < room then bitCount else room) >= 8
  }

  /** The bits that go to a partial first byte of the destination. */
  function HeadCount(destBitOffset: nat, bitCount: nat): (r: nat)
    ensures r <= bitCount && (r > 0 ==> destBitOffset % 8 + r <= 8)
    ensures r == bitCount || destBitOffset % 8 + r == 8 || destBitOffset % 8 == r == 0
  {
    var diff := (destBitOffset + 7) / 8 * 8 - destBitOffset;
    if bitCount > diff then diff else bitCount
  }

  lemma DefinedByHead(srcBitOffset: nat, destBitOffset: nat, bitCount: nat)
    ensures DefinedAsWritten(srcBitOffset, destBitOffset, bitCount)
            <==> HeadCount(destBitOffset, bitCount) == 0 || srcBitOffset % 8 + HeadCount(destBitOffset, bitCount) >= 8
  {
  }

  /** The same copy with the unsigned test; the result is false where the source's behaviour is undefined. */
  method CopyAsWritten(src: seq<Byte>, srcBitOffset: nat, destBitOffset: nat, bitCount: nat, dest: array<Byte>)
    returns (isDefined: bool)
    requires srcBitOffset + bitCount <= 8 * |src| && destBitOffset + bitCount <= 8 * dest.Length
    modifies dest
    ensures isDefined <==> DefinedAsWritten(srcBitOffset, destBitOffset, bitCount)
    ensures isDefined ==> BitsCopied(dest[..], old(dest[..]), destBitOffset, src, srcBitOffset, bitCount)
  {
    ghost var was := dest[..];
    var destNext := (destBitOffset + 7) / 8;
    var diff := HeadCount(destBitOffset, bitCount);
    DefinedByHead(srcBitOffset, destBitOffset, bitCount);
    if bitCount > diff {
      CopyToAligned(src, srcBitOffset + diff, bitCount - diff, dest, destNext);
    }
    if diff != 0 {
      isDefined := WriteHead(src, srcBitOffset, destBitOffset, bitCount, dest, diff, was);
    } else {
      isDefined := true;
    }
  }

  method WriteHead(src: seq<Byte>, srcBitOffset: nat, destBitOffset: nat, bitCount: nat, dest: array<Byte>, diff: nat,
                   ghost was: seq<Byte>)
    returns (isDefined: bool)
    requires srcBitOffset + bitCount <= 8 * |src| && destBitOffset + bitCount <= 8 * dest.Length == 8 * |was|
    requires 0 < diff == HeadCount(destBitOffset, bitCount)
    requires var destNext := (destBitOffset + 7) / 8;
             if bitCount > diff then BitsCopied(dest[..], was, 8 * destNext, src, srcBitOffset + diff, bitCount - diff)
             else dest[..] == was
    modifies dest
    ensures isDefined <==> srcBitOffset % 8 + diff >= 8
    ensures isDefined ==> BitsCopied(dest[..], was, destBitOffset, src, srcBitOffset, bitCount)
  {
    ghost var mid := dest[..];
    var j, d := destBitOffset / 8, destBitOffset % 8;
    HeadByteAsWrittenIff(src, srcBitOffset, dest[j], d, diff);
    var head := HeadByteAsWritten(src, srcBitOffset, dest[j], d, diff);
    if head.None? {
      return false;
    }
    dest[j] := head.value;
    HeadAndRest(dest[..], mid, was, j, d, (destBitOffset + 7) / 8, diff, bitCount, src, srcBitOffset);
    return true;
  }

  /** Four bits from the start of a byte to the middle of another: high_diff is 2^32 - 4. */
  lemma HalfByteIsUndefined()
    ensures HighDiff32(0, 4) == 0xFFFF_FFFC && !DefinedAsWritten(0, 4, 4)
  {
  }

  /**
   What a processor that takes shift counts modulo 32 makes of the undefined branch, when the copy
   starts at the first bit of a source byte: all eight bits of the byte are or-ed in, and nothing of the next.
   */
  function HeadByteMod32(src: Byte, next: Byte, dest: Byte, d: nat, diff: nat): Byte {
    var low := Shl(And(src, LowMask(8)), d);
    var high := Shl(And(next, LowMask((HighDiff32(0, diff)) % 32)), d + 8);
    Or(Or(And(dest, Not(Shl(LowMask(diff), d))), low), high)
  }

  /** That is right exactly when no later bit of the source byte spills over a zero bit of the destination. */
  lemma HeadByteMod32Iff(src: Byte, next: Byte, dest: Byte, d: nat, diff: nat)
    requires 0 < diff < 8 && d + diff <= 8
    ensures MiddleBitsFrom(HeadByteMod32(src, next, dest, d, diff), dest, d, diff, [src, next], 0)
            <==> forall i :: d + diff <= i < 8 && src[i - d] ==> dest[i]
  {
    var b := HeadByteMod32(src, next, dest, d, diff);
    forall i | 0 <= i < 8
      ensures b[i] == if d <= i < d + diff then src[i - d] else dest[i] || (d + diff <= i && src[i - d])
      ensures d <= i ==> BitAt([src, next], 0 + (i - d)) == src[i - d]
    {
      if d <= i {
        BitAtByte([src, next], 0, i - d);
      }
    }
  }
}
