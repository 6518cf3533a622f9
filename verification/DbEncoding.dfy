/**
 Packing of bit strings into field elements and back, and the layout of labels built on it
 (common/apsi/util/db_encoding.cpp).
 */
module DbEncoding {
  import opened Wrappers
  import opened ModArith
  import opened Interpolate
  import opened Bits
  import opened BinContents
  import opened BinBundles

  datatype EncodeError = ZeroModulus | NoFelts | TooManyBits | IgnoresElements

  // ---------- Bits of numbers ----------

  function NatBit(v: nat, k: nat): bool {
    if k == 0 then v % 2 == 1 else NatBit(v / 2, k - 1)
  }

  /** The number with the given bits, least significant bit first. */
  function ValueOf(bits: seq<bool>): nat {
    if bits == [] then 0
    else (if bits[0] then 1 else 0) + 2 * ValueOf(bits[1..])
  }

  lemma {:induction false} ValueBits(bits: seq<bool>, k: nat)
    ensures NatBit(ValueOf(bits), k) == (k < |bits| && bits[k])
  {
    if bits == [] {
      ZeroBits(k);
    } else {
      BitStep(if bits[0] then 1 else 0, ValueOf(bits[1..]), k);
      if k > 0 {
        ValueBits(bits[1..], k - 1);
      }
    }
  }

  lemma BitStep(c: nat, r: nat, k: nat)
    requires c <= 1
    ensures NatBit(c + 2 * r, k) == if k == 0 then c == 1 else NatBit(r, k - 1)
  {
    assert (c + 2 * r) / 2 == r && (c + 2 * r) % 2 == c;
  }

  lemma {:induction false} ZeroBits(k: nat)
    ensures !NatBit(0, k)
  {
    if k > 0 {
      ZeroBits(k - 1);
    }
  }

  lemma {:induction false} ValueBound(bits: seq<bool>)
    ensures ValueOf(bits) < Pow(2, |bits|)
  {
    if bits != [] {
      ValueBound(bits[1..]);
    }
  }

  /** A number is determined by its bits. */
  lemma {:induction false} ValueFromBits(v: nat, bits: seq<bool>)
    requires v < Pow(2, |bits|) && forall i :: 0 <= i < |bits| ==> bits[i] == NatBit(v, i)
    ensures ValueOf(bits) == v
  {
    if bits != [] {
      forall i | 0 <= i < |bits| - 1 ensures bits[1..][i] == NatBit(v / 2, i) {
        assert bits[i + 1] == NatBit(v, i + 1);
      }
      ValueFromBits(v / 2, bits[1..]);
      assert bits[0] == NatBit(v, 0);
    }
  }

  /** Zero bits on top do not change the number. */
  lemma {:induction false} ValuePadded(wide: seq<bool>, bits: seq<bool>)
    requires |bits| <= |wide| && forall k :: 0 <= k < |wide| ==> wide[k] == (k < |bits| && bits[k])
    ensures ValueOf(wide) == ValueOf(bits)
  {
    if wide != [] {
      ValuePadded(wide[1..], if bits == [] then [] else bits[1..]);
    }
  }

  /** n bits of a byte string from bit off on. */
  function BitSlice(s: seq<Byte>, off: nat, n: nat): (r: seq<bool>)
    ensures |r| == n && forall i :: 0 <= i < n ==> r[i] == BitAt(s, off + i)
  {
    seq(n, i requires 0 <= i < n => BitAt(s, off + i))
  }

  /** The little-endian value of eight bytes. */
  function ReadU64(bytes: seq<Byte>): nat
    requires |bytes| == 8
  {
    ValueOf(BitSlice(bytes, 0, 64))
  }

  function WriteU64(v: nat): (bytes: seq<Byte>)
    ensures |bytes| == 8
  {
    seq(8, j requires 0 <= j < 8 => var b: Byte := seq(8, i requires 0 <= i < 8 => NatBit(v, 8 * j + i)); b)
  }

  lemma WriteU64Bits(v: nat, k: nat)
    requires k < 64
    ensures BitAt(WriteU64(v), k) == NatBit(v, k)
  {
    assert k == 8 * (k / 8) + k % 8;
  }

  // ---------- Moduli ----------

  function BitCount(m: nat): nat {
    if m == 0 then 0 else 1 + BitCount(m / 2)
  }

  lemma {:induction false} BitCountBounds(m: nat)
    requires m > 0
    ensures BitCount(m) > 0 && Pow(2, BitCount(m) - 1) <= m < Pow(2, BitCount(m))
  {
    if m > 1 {
      BitCountBounds(m / 2);
    } else {
      assert BitCount(m / 2) == 0;
      assert Pow(2, 0) == 1 && Pow(2, 1) == 2 * Pow(2, 0);
    }
  }

  /** SEAL moduli: zero, or at least two and at most 61 bits long. */
  predicate IsSealModulus(m: nat) {
    m == 0 || 2 <= BitCount(m) <= 61
  }

  function BitsPerFelt(m: nat): nat
    requires m > 0
  {
    BitCount(m) - 1
  }

  lemma {:induction false} PowMonotone(c: nat, b: nat)
    requires c <= b
    ensures 0 < Pow(2, c) <= Pow(2, b)
    decreases b
  {
    if c < b {
      PowMonotone(c, b - 1);
    } else if c > 0 {
      PowMonotone(c - 1, c - 1);
    }
  }

  /** b bits are the most that always stay below the modulus. */
  predicate IsWidth(m: nat, b: nat) {
    Pow(2, b) <= m < Pow(2, b + 1)
  }

  /** The width in use is this one, and there is no other. */
  lemma WidthIsLargest(m: nat)
    requires m > 0
    ensures IsWidth(m, BitsPerFelt(m))
    ensures forall b: nat :: IsWidth(m, b) ==> b == BitsPerFelt(m)
  {
    BitCountBounds(m);
    forall b: nat | IsWidth(m, b) ensures b == BitsPerFelt(m) {
      if b < BitsPerFelt(m) {
        PowMonotone(b + 1, BitsPerFelt(m));
      } else if BitsPerFelt(m) < b {
        PowMonotone(BitsPerFelt(m) + 1, b);
      }
    }
  }

  lemma ZeroHasNoWidth()
    ensures forall b: nat :: !IsWidth(0, b)
  {
    forall b: nat ensures !IsWidth(0, b) {
      PowMonotone(b, b);
    }
  }

  // ---------- Packing ----------

  /** n / b, rounded up. */
  function NumFelts(n: nat, b: nat): nat
    requires b > 0
  {
    (n + b - 1) / b
  }

  lemma NumFeltsBounds(n: nat, b: nat)
    requires b > 0
    ensures n <= NumFelts(n, b) * b && (n > 0 ==> NumFelts(n, b) > 0 && (NumFelts(n, b) - 1) * b < n)
    ensures n == 0 ==> NumFelts(n, b) == 0
  {
    var q := (n + b - 1) / b;
    DivModUnique(n + b - 1, q, (n + b - 1) % b, b);
    assert (q - 1) * b == q * b - b;
    if n == 0 {
      DivModUnique(b - 1, 0, b - 1, b);
    }
  }

  /** The start of chunk j lies inside the string. */
  lemma ChunkInside(n: nat, b: nat, j: nat)
    requires b > 0 && j < NumFelts(n, b)
    ensures j * b < n
  {
    NumFeltsBounds(n, b);
    MulMonotone(b, j, NumFelts(n, b) - 1);
    assert b * j == j * b && b * (NumFelts(n, b) - 1) == (NumFelts(n, b) - 1) * b;
  }

  /** The number of bits in chunk j. */
  function ChunkSize(n: nat, b: nat, j: nat): (c: nat)
    requires b > 0 && j < NumFelts(n, b)
    ensures 0 < c <= b && j * b + c <= n
    ensures c < b ==> j * b + c == n
  {
    ChunkInside(n, b, j);
    if n - j * b < b then n - j * b else b
  }

  /** Field element j holds bits j * b .. of the string. */
  function Pack(data: seq<Byte>, n: nat, b: nat): (felts: seq<nat>)
    requires b > 0
    ensures |felts| == NumFelts(n, b)
  {
    seq(NumFelts(n, b), j requires 0 <= j < NumFelts(n, b) => Chunk(data, n, b, j))
  }

  function Chunk(data: seq<Byte>, n: nat, b: nat, j: nat): nat
    requires b > 0 && j < NumFelts(n, b)
  {
    ValueOf(BitSlice(data, j * b, ChunkSize(n, b, j)))
  }

  lemma NextChunk(n: nat, b: nat, j: nat)
    requires b > 0 && j < NumFelts(n, b)
    ensures (j + 1) * b == j * b + b && j * b < n
    ensures ChunkSize(n, b, j) == if b < n - j * b then b else n - j * b
  {
    ChunkInside(n, b, j);
  }

  /** Copies a chunk into a zeroed eight-byte buffer and reads the buffer as a number. */
  method ReadChunk(data: seq<Byte>, srcOffset: nat, copySize: nat) returns (felt: nat)
    requires srcOffset + copySize <= 8 * |data| && copySize < 64
    ensures felt == ValueOf(BitSlice(data, srcOffset, copySize))
  {
    var repr := new Byte[8](_ => [false, false, false, false, false, false, false, false]);
    CopyToAligned(data, srcOffset, copySize, repr, 0);
    CopiedIntoZeros(repr[..], data, srcOffset, copySize);
    return ReadU64(repr[..]);
  }

  /** As few elements as hold n bits, b of them each; bit i of element j is bit j * b + i of the string. */
  ghost predicate IsPacking(felts: seq<nat>, data: seq<Byte>, n: nat, b: nat) {
    && n <= |felts| * b && (felts != [] ==> (|felts| - 1) * b < n)
    && forall j, i :: 0 <= j < |felts| && 0 <= i ==>
         (NatBit(felts[j], i) <==> i < b && j * b + i < n && BitAt(data, j * b + i))
  }

  lemma PackIsPacking(data: seq<Byte>, n: nat, b: nat)
    requires b > 0
    ensures IsPacking(Pack(data, n, b), data, n, b)
  {
    var felts := Pack(data, n, b);
    NumFeltsBounds(n, b);
    forall j, i | 0 <= j < |felts| && 0 <= i
      ensures NatBit(felts[j], i) <==> i < b && j * b + i < n && BitAt(data, j * b + i)
    {
      ValueBits(BitSlice(data, j * b, ChunkSize(n, b, j)), i);
    }
  }

  method BitsToFieldElts(data: seq<Byte>, bitCount: nat, m: nat) returns (r: Result<seq<nat>, EncodeError>)
    requires bitCount <= 8 * |data| && IsSealModulus(m)
    ensures m == 0 ==> r == Err(ZeroModulus)
    ensures m > 0 ==> r == Ok(Pack(data, bitCount, BitsPerFelt(m)))
    ensures forall b: nat :: IsWidth(m, b) ==> r.Ok? && IsPacking(r.value, data, bitCount, b)
  {
    if m == 0 {
      ZeroHasNoWidth();
      return Err(ZeroModulus);
    }
    WidthIsLargest(m);
    PackIsPacking(data, bitCount, BitsPerFelt(m));
    var b := BitsPerFelt(m);
    var felts := PackBits(data, bitCount, b);
    return Ok(felts);
  }

  method PackBits(data: seq<Byte>, bitCount: nat, b: nat) returns (felts: seq<nat>)
    requires bitCount <= 8 * |data| && 0 < b < 64
    ensures felts == Pack(data, bitCount, b)
  {
    felts := [];
    var uncopied, srcOffset := bitCount, 0;
    for j := 0 to NumFelts(bitCount, b)
      invariant srcOffset == j * b && uncopied == if srcOffset <= bitCount then bitCount - srcOffset else 0
      invariant |felts| == j && forall i :: 0 <= i < j ==> felts[i] == Chunk(data, bitCount, b, i)
    {
      NextChunk(bitCount, b, j);
      var copySize := if b < uncopied then b else uncopied;
      var felt := ReadChunk(data, srcOffset, copySize);
      felts := felts + [felt];
      srcOffset := srcOffset + b;
      uncopied := uncopied - copySize;
    }
  }

  const ZERO_BYTES: seq<Byte> := seq(8, _ => [false, false, false, false, false, false, false, false])

  lemma CopiedIntoZeros(repr: seq<Byte>, data: seq<Byte>, off: nat, c: nat)
    requires c < 64 && BitsCopied(repr, ZERO_BYTES, 0, data, off, c)
    ensures ReadU64(repr) == ValueOf(BitSlice(data, off, c))
  {
    forall k | 0 <= k < 64 ensures BitAt(repr, k) == (k < c && BitAt(data, off + k)) {
      CopiedBit(repr, ZERO_BYTES, 0, data, off, c, k);
    }
    ValuePadded(BitSlice(repr, 0, 64), BitSlice(data, off, c));
  }

  /** The same as BitsCopied, for one bit. */
  lemma CopiedBit(after: seq<Byte>, before: seq<Byte>, at: nat, s: seq<Byte>, off: nat, n: nat, k: nat)
    requires BitsCopied(after, before, at, s, off, n) && k < 8 * |after|
    ensures BitAt(after, k) == if at <= k < at + n then BitAt(s, off + (k - at)) else BitAt(before, k)
  {
    assert k == 8 * (k / 8) + k % 8;
    assert after[k / 8][k % 8] == BitAt(after, k);
  }

  /** Every packed element is below the modulus. */
  lemma PackBelowModulus(data: seq<Byte>, n: nat, m: nat, j: nat)
    requires IsSealModulus(m) && m > 0 && j < NumFelts(n, BitsPerFelt(m))
    ensures Pack(data, n, BitsPerFelt(m))[j] < m
    ensures Pack(data, n, BitsPerFelt(m))[j] < Pow(2, ChunkSize(n, BitsPerFelt(m), j))
  {
    var b := BitsPerFelt(m);
    var c := ChunkSize(n, b, j);
    ValueBound(BitSlice(data, j * b, c));
    BitCountBounds(m);
    PowMonotone(c, b);
  }

  // ---------- Unpacking ----------

  /** bytes holds the bits of the elements one after the other, then zeros to the end of the last byte. */
  predicate IsUnpacked(bytes: seq<Byte>, felts: seq<nat>, bitCount: nat, b: nat)
    requires b > 0
  {
    |bytes| == (bitCount + 7) / 8 && UnpackedBelow(bytes, felts, b, bitCount)
  }

  function FeltBit(felts: seq<nat>, b: nat, k: nat): bool
    requires b > 0
  {
    k / b < |felts| && NatBit(felts[k / b], k % b)
  }

  method FieldEltsToBits(felts: seq<nat>, bitCount: nat, m: nat) returns (r: Result<seq<Byte>, EncodeError>)
    requires IsSealModulus(m)
    ensures r == Err(NoFelts) <==> felts == []
    ensures r == Err(ZeroModulus) <==> felts != [] && m == 0
    ensures r == Err(TooManyBits) <==> felts != [] && m > 0 && bitCount > |felts| * BitsPerFelt(m)
    ensures r == Err(IgnoresElements) <==> felts != [] && m > 0 && bitCount <= (|felts| - 1) * BitsPerFelt(m)
    ensures r.Ok? <==> felts != [] && m > 0 && (|felts| - 1) * BitsPerFelt(m) < bitCount <= |felts| * BitsPerFelt(m)
    ensures r.Ok? ==> m > 0 && IsUnpacked(r.value, felts, bitCount, BitsPerFelt(m))
    ensures forall b: nat :: IsWidth(m, b) && felts != [] ==>
              && (r == Err(TooManyBits) <==> bitCount > |felts| * b)
              && (r == Err(IgnoresElements) <==> bitCount <= (|felts| - 1) * b)
              && (r.Ok? ==> b > 0 && IsUnpacked(r.value, felts, bitCount, b))
  {
    if |felts| == 0 {
      return Err(NoFelts);
    }
    if m == 0 {
      ZeroHasNoWidth();
      return Err(ZeroModulus);
    }
    WidthIsLargest(m);
    var b := BitsPerFelt(m);
    var maxNumBits := b * |felts|;
    assert maxNumBits == |felts| * b && maxNumBits - b == (|felts| - 1) * b;
    if bitCount > maxNumBits {
      return Err(TooManyBits);
    }
    if bitCount <= maxNumBits - b {
      return Err(IgnoresElements);
    }
    var bytes := UnpackFelts(felts, bitCount, b);
    return Ok(bytes);
  }

  method UnpackFelts(felts: seq<nat>, bitCount: nat, b: nat) returns (bytes: seq<Byte>)
    requires |felts| > 0 && 0 < b < 64 && (|felts| - 1) * b < bitCount <= |felts| * b
    ensures IsUnpacked(bytes, felts, bitCount, b)
  {
    var buf := new Byte[(bitCount + 7) / 8](_ => [false, false, false, false, false, false, false, false]);
    var uncopied, dstOffset := bitCount, 0;
    for j := 0 to |felts|
      invariant dstOffset == (if j < |felts| then j * b else bitCount) && uncopied == bitCount - dstOffset
      invariant UnpackedBelow(buf[..], felts, b, dstOffset)
    {
      var copySize := if b < uncopied then b else uncopied;
      ghost var before := buf[..];
      CopyLength(j, |felts|, b, bitCount);
      CopyWithBitOffset(WriteU64(felts[j]), 0, dstOffset, copySize, buf);
      UnpackStep(buf[..], before, felts, j, b, copySize);
      dstOffset := dstOffset + copySize;
      uncopied := uncopied - copySize;
    }
    return buf[..];
  }

  /** Every copy that decoding makes is one whose shifts are defined in the source. */
  ghost predicate DecodingDefined(n: nat, b: nat)
    requires b > 0
  {
    forall j :: 0 <= j < NumFelts(n, b) ==> CopyDefined(n, b, j)
  }

  predicate CopyDefined(n: nat, b: nat, j: nat)
    requires b > 0 && j < NumFelts(n, b)
  {
    MulNonNeg(j, b);
    DefinedAsWritten(0, j * b, ChunkSize(n, b, j))
  }

  /** That is so exactly when there is only one element or the elements are whole bytes. */
  lemma DecodingDefinedIff(n: nat, b: nat)
    requires b > 0
    ensures DecodingDefined(n, b) <==> NumFelts(n, b) <= 1 || b % 8 == 0
  {
    if b % 8 == 0 {
      forall j | 0 <= j < NumFelts(n, b) ensures CopyDefined(n, b, j) {
        WholeBytes(j, b);
      }
    } else if NumFelts(n, b) > 1 {
      assert ChunkSize(n, b, 1) > 0 && 1 * b == b;
      assert !CopyDefined(n, b, 1);
    }
  }

  lemma WholeBytes(j: nat, b: nat)
    requires b % 8 == 0
    ensures j * b >= 0 && (j * b) % 8 == 0
  {
    var q := b / 8;
    MulAssoc(j, q, 8);
    MulNonNeg(j, q);
    assert b == q * 8;
    DivModUnique(j * b, j * q, 0, 8);
  }

  lemma CopyLength(j: nat, n: nat, b: nat, bitCount: nat)
    requires j < n && 0 < b && (n - 1) * b < bitCount <= n * b
    ensures 0 <= j * b && (j + 1) * b == j * b + b
    ensures if j + 1 < n then (j + 1) * b < bitCount else j * b < bitCount <= j * b + b
  {
    MulDist(b, j, 1);
    MulMonotone(b, j, n - 1);
    if j + 1 < n {
      MulMonotone(b, j + 1, n - 1);
    }
  }

  /** The first bits of the buffer are those of the elements, the others zero. */
  predicate UnpackedBelow(bytes: seq<Byte>, felts: seq<nat>, b: nat, n: nat)
    requires b > 0
  {
    forall k :: 0 <= k < 8 * |bytes| ==> BitAt(bytes, k) == (k < n && FeltBit(felts, b, k))
  }

  lemma UnpackStep(after: seq<Byte>, before: seq<Byte>, felts: seq<nat>, j: nat, b: nat, c: nat)
    requires 0 < b < 64 && j < |felts| && c <= b
    requires BitsCopied(after, before, j * b, WriteU64(felts[j]), 0, c)
    requires UnpackedBelow(before, felts, b, j * b)
    ensures UnpackedBelow(after, felts, b, j * b + c)
  {
    forall k | 0 <= k < 8 * |after| ensures BitAt(after, k) == (k < j * b + c && FeltBit(felts, b, k)) {
      CopiedBit(after, before, j * b, WriteU64(felts[j]), 0, c, k);
      if j * b <= k < j * b + c {
        DivModUnique(k, j, k - j * b, b);
        WriteU64Bits(felts[j], k - j * b);
      }
    }
  }

  // ---------- The two directions undo each other ----------

  /** Unpacking what was packed gives the string back, padded with zero bits to a whole byte. */
  lemma UnpackOfPack(data: seq<Byte>, n: nat, b: nat, bytes: seq<Byte>)
    requires b > 0 && IsUnpacked(bytes, Pack(data, n, b), n, b)
    ensures forall k :: 0 <= k < 8 * |bytes| ==> BitAt(bytes, k) == (k < n && BitAt(data, k))
  {
    forall k | 0 <= k < 8 * |bytes| ensures BitAt(bytes, k) == (k < n && BitAt(data, k)) {
      if k < n {
        PackedBit(data, n, b, k);
      }
    }
  }

  lemma PackedBit(data: seq<Byte>, n: nat, b: nat, k: nat)
    requires b > 0 && k < n
    ensures FeltBit(Pack(data, n, b), b, k) == BitAt(data, k)
  {
    var j, i := k / b, k % b;
    DivModUnique(k, j, i, b);
    NumFeltsBounds(n, b);
    if j >= NumFelts(n, b) {
      MulMonotone(b, NumFelts(n, b), j);
      assert false;
    }
    ValueBits(BitSlice(data, j * b, ChunkSize(n, b, j)), i);
  }

  /** Packing what was unpacked gives the elements back, as long as each fits its bits. */
  lemma PackOfUnpack(felts: seq<nat>, n: nat, b: nat, bytes: seq<Byte>)
    requires b > 0 && IsUnpacked(bytes, felts, n, b) && |felts| == NumFelts(n, b)
    requires forall j :: 0 <= j < |felts| ==> felts[j] < Pow(2, ChunkSize(n, b, j))
    ensures Pack(bytes, n, b) == felts
  {
    forall j | 0 <= j < |felts| ensures Chunk(bytes, n, b, j) == felts[j] {
      ChunkOfUnpacked(felts, n, b, bytes, j);
    }
  }

  lemma ChunkOfUnpacked(felts: seq<nat>, n: nat, b: nat, bytes: seq<Byte>, j: nat)
    requires b > 0 && IsUnpacked(bytes, felts, n, b) && j < |felts| == NumFelts(n, b)
    requires felts[j] < Pow(2, ChunkSize(n, b, j))
    ensures Chunk(bytes, n, b, j) == felts[j]
  {
    var c := ChunkSize(n, b, j);
    forall i | 0 <= i < c ensures BitSlice(bytes, j * b, c)[i] == NatBit(felts[j], i) {
      DivModUnique(j * b + i, j, i, b);
    }
    ValueFromBits(felts[j], BitSlice(bytes, j * b, c));
  }

  // ---------- Labels ----------

  /** compute_label_size: the label size the database is set up with. */
  function ComputeLabelSize(labelByteCount: nat, itemBitCount: nat): nat
    requires itemBitCount > 0
  {
    (labelByteCount * 8 + itemBitCount - 1) / itemBitCount
  }

  /** As few item-length pieces as hold the label. */
  lemma LabelSizeIsLeast(labelByteCount: nat, itemBitCount: nat)
    requires itemBitCount > 0
    ensures var size := ComputeLabelSize(labelByteCount, itemBitCount);
            && 8 * labelByteCount <= size * itemBitCount
            && (size > 0 ==> (size - 1) * itemBitCount < 8 * labelByteCount)
  {
    NumFeltsBounds(8 * labelByteCount, itemBitCount);
  }

  /** The label size the encoder produces. */
  function EncodedLabelSize(labelByteCount: nat, b: nat, f: nat): nat
    requires b > 0 && f > 0
  {
    (NumFelts(labelByteCount * 8, b) + f - 1) / f
  }

  lemma CeilUnique(x: nat, y: nat, q: nat)
    requires y > 0 && x <= q * y && (q == 0 || (q - 1) * y < x)
    ensures (x + y - 1) / y == q
  {
    if q == 0 {
      DivModUnique(y - 1, 0, y - 1, y);
    } else {
      assert (q - 1) * y == q * y - y;
      DivModUnique(x + y - 1, q, x + y - 1 - q * y, y);
    }
  }

  lemma NestedCeil(x: nat, b: nat, f: nat)
    requires b > 0 && f > 0
    ensures f * b > 0 && (x + f * b - 1) / (f * b) == (NumFelts(x, b) + f - 1) / f
  {
    MulAtLeast(f, b);
    var n := NumFelts(x, b);
    var q := NumFelts(n, f);
    NumFeltsBounds(x, b);
    NumFeltsBounds(n, f);
    NestedBounds(x, b, f, n, q);
    CeilUnique(x, f * b, q);
  }

  lemma NestedBounds(x: nat, b: nat, f: nat, n: nat, q: nat)
    requires b > 0 && f > 0 && x <= n * b && n <= q * f
    requires q > 0 ==> (q - 1) * f < n
    requires n > 0 ==> (n - 1) * b < x
    ensures x <= q * (f * b) && (q > 0 ==> (q - 1) * (f * b) < x)
  {
    MulMonotone(b, n, q * f);
    MulAssoc(q, f, b);
    assert b * n == n * b && b * (q * f) == (q * f) * b;
    if q > 0 {
      var low: nat := (q - 1) * f;
      MulMonotone(b, low, n - 1);
      MulAssoc(q - 1, f, b);
      assert b * low == low * b && b * (n - 1) == (n - 1) * b;
    }
  }

  /** The size check on an inserted label never fails, and an item has felts_per_item parts. */
  lemma LabelSizeMatches(labelByteCount: nat, b: nat, f: nat)
    requires b > 0 && f > 0
    ensures f * b > 0 && NumFelts(f * b, b) == f
    ensures ComputeLabelSize(labelByteCount, f * b) == EncodedLabelSize(labelByteCount, b, f)
  {
    NestedCeil(labelByteCount * 8, b, f);
    assert (f - 1) * b == f * b - b;
    CeilUnique(f * b, b, f);
  }

  /** The packed label, filled up with zeros to a multiple of the item length. */
  function PaddedLabel(encLabel: seq<Byte>, b: nat, f: nat): (r: seq<nat>)
    requires b > 0 && f > 0
    ensures |r| == EncodedLabelSize(|encLabel|, b, f) * f
    ensures forall j :: 0 <= j < |r| ==>
              r[j] == if j < NumFelts(|encLabel| * 8, b) then Pack(encLabel, |encLabel| * 8, b)[j] else 0
  {
    NumFeltsBounds(NumFelts(|encLabel| * 8, b), f);
    Pack(encLabel, |encLabel| * 8, b)
    + seq(EncodedLabelSize(|encLabel|, b, f) * f - NumFelts(|encLabel| * 8, b), _ => 0)
  }

  /** Part k of the item carries element k of every item-length piece of the label. */
  predicate IsAlgItemLabel(parts: seq<ItemLabel>, item: seq<Byte>, itemBitCount: nat, encLabel: seq<Byte>, b: nat)
    requires b > 0 && itemBitCount > 0
  {
    NumFeltsBounds(itemBitCount, b);
    var f := NumFelts(itemBitCount, b);
    && |parts| == f && LabelsHaveSize(parts, EncodedLabelSize(|encLabel|, b, f))
    && (forall k :: 0 <= k < f ==> parts[k].item == Pack(item, itemBitCount, b)[k])
    && forall k, l :: 0 <= k < f && 0 <= l < EncodedLabelSize(|encLabel|, b, f) ==>
                        parts[k].felts[l] == LabelAt(PaddedLabel(encLabel, b, f), f, l, k)
  }

  /** The only such list. */
  function AlgItemLabelOf(item: seq<Byte>, itemBitCount: nat, encLabel: seq<Byte>, b: nat): (r: seq<ItemLabel>)
    requires b > 0 && itemBitCount > 0
    ensures IsAlgItemLabel(r, item, itemBitCount, encLabel, b)
  {
    NumFeltsBounds(itemBitCount, b);
    var f, size := NumFelts(itemBitCount, b), EncodedLabelSize(|encLabel|, b, NumFelts(itemBitCount, b));
    seq(f, k requires 0 <= k < f =>
      ItemLabel(Pack(item, itemBitCount, b)[k],
                seq(size, l requires 0 <= l < size => LabelAt(PaddedLabel(encLabel, b, f), f, l, k))))
  }

  lemma AlgItemLabelUnique(parts: seq<ItemLabel>, item: seq<Byte>, itemBitCount: nat, encLabel: seq<Byte>, b: nat)
    requires b > 0 && itemBitCount > 0 && IsAlgItemLabel(parts, item, itemBitCount, encLabel, b)
    ensures parts == AlgItemLabelOf(item, itemBitCount, encLabel, b)
  {
    var other := AlgItemLabelOf(item, itemBitCount, encLabel, b);
    forall k | 0 <= k < |parts| ensures parts[k] == other[k] {
      assert parts[k].felts == other[k].felts;
    }
  }

  /** Element k of each item-length piece. */
  method LabelPartsOf(padded: seq<nat>, f: nat, labelSize: nat, k: nat) returns (labelParts: seq<nat>)
    requires k < f && |padded| == f * labelSize
    ensures |labelParts| == labelSize && forall l :: 0 <= l < labelSize ==> labelParts[l] == LabelAt(padded, f, l, k)
  {
    labelParts := [];
    for l := 0 to labelSize
      invariant |labelParts| == l && forall i :: 0 <= i < l ==> labelParts[i] == LabelAt(padded, f, i, k)
    {
      LabelSlot(f, l, k, labelSize);
      labelParts := labelParts + [padded[f * l + k]];
    }
  }

  method AlgebraizeItemLabel(item: seq<Byte>, encLabel: seq<Byte>, itemBitCount: nat, m: nat)
    returns (r: Result<seq<ItemLabel>, EncodeError>)
    requires 0 < itemBitCount <= 8 * |item| && IsSealModulus(m)
    ensures m == 0 ==> r == Err(ZeroModulus)
    ensures m > 0 ==> r.Ok? && IsAlgItemLabel(r.value, item, itemBitCount, encLabel, BitsPerFelt(m))
  {
    var algItem := BitsToFieldElts(item, itemBitCount, m);
    if algItem.Err? {
      return Err(algItem.error);
    }
    var algLabel := BitsToFieldElts(encLabel, |encLabel| * 8, m);
    NumFeltsBounds(itemBitCount, BitsPerFelt(m));
    var f := |algItem.value|;
    var labelSize := (|algLabel.value| + f - 1) / f;
    NumFeltsBounds(|algLabel.value|, f);
    var padded := algLabel.value + seq(labelSize * f - |algLabel.value|, _ => 0);
    assert padded == PaddedLabel(encLabel, BitsPerFelt(m), f);
    assert f * labelSize == labelSize * f;
    var parts := Arrange(algItem.value, padded, labelSize);
    return Ok(parts);
  }

  method Arrange(algItem: seq<nat>, padded: seq<nat>, labelSize: nat) returns (parts: seq<ItemLabel>)
    requires |padded| == |algItem| * labelSize
    ensures |parts| == |algItem| && LabelsHaveSize(parts, labelSize)
    ensures forall k :: 0 <= k < |parts| ==> parts[k].item == algItem[k]
    ensures forall k, l :: 0 <= k < |parts| && 0 <= l < labelSize ==>
              parts[k].felts[l] == LabelAt(padded, |algItem|, l, k)
  {
    parts := [];
    for k := 0 to |algItem|
      invariant |parts| == k && LabelsHaveSize(parts, labelSize)
      invariant forall i :: 0 <= i < k ==> parts[i].item == algItem[i]
      invariant forall i, l :: 0 <= i < k && 0 <= l < labelSize ==>
                  parts[i].felts[l] == LabelAt(padded, |algItem|, l, i)
    {
      var labelParts := LabelPartsOf(padded, |algItem|, labelSize, k);
      parts := parts + [ItemLabel(algItem[k], labelParts)];
    }
  }

  /** Bit i of element j of the padded label is bit j * b + i of the label, and zero after its end. */
  lemma PaddedBits(encLabel: seq<Byte>, b: nat, f: nat, j: nat, i: nat)
    requires b > 0 && f > 0 && j < |PaddedLabel(encLabel, b, f)|
    ensures NatBit(PaddedLabel(encLabel, b, f)[j], i)
            <==> i < b && 0 <= j * b + i < 8 * |encLabel| && BitAt(encLabel, j * b + i)
  {
    var n := 8 * |encLabel|;
    PackIsPacking(encLabel, n, b);
    if j >= NumFelts(n, b) {
      ZeroBits(i);
      NumFeltsBounds(n, b);
      MulMonotone(b, NumFelts(n, b), j);
    }
  }

  /** Bit i of component l of part k is bit (f * l + k) * b + i of the label, f being the number of parts. */
  lemma LabelBits(parts: seq<ItemLabel>, item: seq<Byte>, itemBitCount: nat, encLabel: seq<Byte>, b: nat, k: nat,
                  l: nat, i: nat)
    requires b > 0 && itemBitCount > 0 && IsAlgItemLabel(parts, item, itemBitCount, encLabel, b)
    requires k < |parts| && l < |parts[k].felts|
    ensures var at := (|parts| * l + k) * b + i;
            NatBit(parts[k].felts[l], i) <==> i < b && 0 <= at < 8 * |encLabel| && BitAt(encLabel, at)
  {
    NumFeltsBounds(itemBitCount, b);
    var f := NumFelts(itemBitCount, b);
    var size := EncodedLabelSize(|encLabel|, b, f);
    LabelSlot(f, l, k, size);
    assert f * size == size * f;
    PaddedBits(encLabel, b, f, f * l + k, i);
  }

  /** The parts are field elements, so a bundle can take them. */
  lemma AlgItemLabelInField(parts: seq<ItemLabel>, item: seq<Byte>, itemBitCount: nat, encLabel: seq<Byte>, m: nat)
    requires IsSealModulus(m) && m > 0 && itemBitCount > 0
    requires IsAlgItemLabel(parts, item, itemBitCount, encLabel, BitsPerFelt(m))
    ensures PartsInField(parts, m)
  {
    var b := BitsPerFelt(m);
    NumFeltsBounds(itemBitCount, b);
    var f := NumFelts(itemBitCount, b);
    forall k | 0 <= k < |parts| ensures parts[k].item < m && InField(parts[k].felts, m) {
      PackBelowModulus(item, itemBitCount, m, k);
      forall l | 0 <= l < |parts[k].felts| ensures 0 <= parts[k].felts[l] < m {
        PaddedBelowModulus(encLabel, m, f, l, k);
      }
    }
  }

  lemma PaddedBelowModulus(encLabel: seq<Byte>, m: nat, f: nat, l: nat, k: nat)
    requires IsSealModulus(m) && m > 0 && f > 0
    ensures LabelAt(PaddedLabel(encLabel, BitsPerFelt(m), f), f, l, k) < m
  {
    var b := BitsPerFelt(m);
    if f * l + k < NumFelts(|encLabel| * 8, b) {
      PackBelowModulus(encLabel, |encLabel| * 8, m, f * l + k);
    }
  }

  /** Elements read back in component order are the padded label. */
  lemma ReadBackIsPadded(labels: seq<nat>, encLabel: seq<Byte>, b: nat, f: nat)
    requires b > 0 && f > 0 && |labels| == f * EncodedLabelSize(|encLabel|, b, f)
    requires forall k, l :: 0 <= k < f && 0 <= l < EncodedLabelSize(|encLabel|, b, f) ==>
               LabelAt(labels, f, l, k) == LabelAt(PaddedLabel(encLabel, b, f), f, l, k)
    ensures labels == PaddedLabel(encLabel, b, f)
  {
    var size := EncodedLabelSize(|encLabel|, b, f);
    assert f * size == size * f;
    forall j | 0 <= j < |labels| ensures labels[j] == PaddedLabel(encLabel, b, f)[j] {
      var l, k := j / f, j % f;
      DivModUnique(j, l, k, f);
      assert f * l == l * f;
      if l >= size {
        MulMonotone(f, size, l);
        assert false;
      }
      assert LabelAt(labels, f, l, k) == LabelAt(PaddedLabel(encLabel, b, f), f, l, k);
    }
  }

  /** Unpacking the padded label and truncating gives the label byte for byte. */
  lemma UnpackPaddedLabel(encLabel: seq<Byte>, b: nat, f: nat, bytes: seq<Byte>)
    requires b > 0 && f > 0
    requires IsUnpacked(bytes, PaddedLabel(encLabel, b, f), |PaddedLabel(encLabel, b, f)| * b, b)
    ensures |encLabel| <= |bytes| && bytes[..|encLabel|] == encLabel
  {
    var n := |encLabel| * 8;
    var padded := PaddedLabel(encLabel, b, f);
    NumFeltsBounds(n, b);
    NumFeltsBounds(NumFelts(n, b), f);
    MulMonotone(b, NumFelts(n, b), |padded|);
    assert b * |padded| == |padded| * b && b * NumFelts(n, b) == NumFelts(n, b) * b;
    assert n <= |padded| * b;
    forall k | 0 <= k < n ensures BitAt(bytes, k) == BitAt(encLabel, k) {
      PackedBit(encLabel, n, b, k);
      InsidePacked(n, b, k);
    }
    SameBitsSameBytes(bytes, encLabel);
  }

  lemma InsidePacked(n: nat, b: nat, k: nat)
    requires b > 0 && k < n
    ensures k / b < NumFelts(n, b)
  {
    NumFeltsBounds(n, b);
    DivModUnique(k, k / b, k % b, b);
    if k / b >= NumFelts(n, b) {
      MulMonotone(b, NumFelts(n, b), k / b);
      assert false;
    }
  }

  lemma SameBitsSameBytes(bytes: seq<Byte>, front: seq<Byte>)
    requires |front| <= |bytes| && forall k :: 0 <= k < 8 * |front| ==> BitAt(bytes, k) == BitAt(front, k)
    ensures bytes[..|front|] == front
  {
    forall w | 0 <= w < |front| ensures bytes[w] == front[w] {
      forall i | 0 <= i < 8 ensures bytes[w][i] == front[w][i] {
        BitAtByte(bytes, w, i);
        BitAtByte(front, w, i);
      }
    }
  }

  /** A label that was encoded with its item and is stored in a bundle is what a look-up decodes to. */
  lemma LabelRoundTrip(c: Contents, parts: seq<ItemLabel>, start: nat, m: nat, item: seq<Byte>, itemBitCount: nat,
                       encLabel: seq<Byte>, labels: seq<nat>, bytes: seq<Byte>)
    requires IsSealModulus(m) && m > 0 && itemBitCount > 0
    requires IsAlgItemLabel(parts, item, itemBitCount, encLabel, BitsPerFelt(m)) && StoresLabels(c, parts, start)
    requires |labels| == |parts| * |c.labels|
    requires forall k, l :: 0 <= k < |parts| && 0 <= l < |c.labels| ==>
               HasLabel(c, Items(parts), start, k, l, LabelAt(labels, |parts|, l, k))
    requires IsUnpacked(bytes, labels, |labels| * BitsPerFelt(m), BitsPerFelt(m))
    ensures |encLabel| <= |bytes| && bytes[..|encLabel|] == encLabel
  {
    var b := BitsPerFelt(m);
    NumFeltsBounds(itemBitCount, b);
    var f := NumFelts(itemBitCount, b);
    assert |parts[0].felts| == |c.labels|;
    forall k, l | 0 <= k < f && 0 <= l < |c.labels|
      ensures LabelAt(labels, f, l, k) == LabelAt(PaddedLabel(encLabel, b, f), f, l, k)
    {
      assert HasLabel(c, Items(parts), start, k, l, parts[k].felts[l]);
      assert HasLabel(c, Items(parts), start, k, l, LabelAt(labels, |parts|, l, k));
    }
    ReadBackIsPadded(labels, encLabel, b, f);
    UnpackPaddedLabel(encLabel, b, f, bytes);
  }

  /** The bytes of a string are determined by its bits; this is how a truncated label is recognized. */
  lemma TruncatedLabel(encLabel: seq<Byte>, b: nat, f: nat, bytes: seq<Byte>)
    requires b > 0 && f > 0 && |bytes| == |encLabel|
    requires forall k :: 0 <= k < 8 * |bytes| ==> BitAt(bytes, k) == FeltBit(PaddedLabel(encLabel, b, f), b, k)
    ensures bytes == encLabel
  {
    var n := |encLabel| * 8;
    NumFeltsBounds(n, b);
    NumFeltsBounds(NumFelts(n, b), f);
    forall k | 0 <= k < n ensures BitAt(bytes, k) == BitAt(encLabel, k) {
      PackedBit(encLabel, n, b, k);
      InsidePacked(n, b, k);
    }
    SameBitsSameBytes(bytes, encLabel);
  }

  /** The pieces of the padded label hold at least as many bits as the label. */
  lemma PaddedIsLongEnough(n: nat, b: nat, f: nat)
    requires b > 0 && f > 0
    ensures 8 * n <= (f * b) * EncodedLabelSize(n, b, f) && n <= (f * b) * EncodedLabelSize(n, b, f) / 8
  {
    NumFeltsBounds(n * 8, b);
    var count, size := NumFelts(n * 8, b), EncodedLabelSize(n, b, f);
    NumFeltsBounds(count, f);
    MulMonotone(b, count, size * f);
    MulAssoc(size, f, b);
    assert (f * b) * size == size * (f * b) && b * count == count * b && b * (size * f) == (size * f) * b;
  }
}
