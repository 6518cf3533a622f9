/**
 The receiver's side (receiver/apsi/receiver.cpp): how the cuckoo table is laid out over the slots of
 the queries, and how zero runs in a result part are turned back into indices of the receiver's items.
 */
module Receiver {
  import opened Wrappers
  import opened ModArith
  import opened Interpolate
  import opened Bits
  import opened DbEncoding
  import opened BinBundles

  datatype MatchError = DuplicateMatch

  // ---------- Query layout ----------

  /** Slot block * felts_per_item + k holds part k of the item at that place of the bundle. */
  predicate IsLayout(slots: seq<nat>, items: seq<seq<Byte>>, itemBitCount: nat, b: nat)
    requires b > 0
  {
    var f := NumFelts(itemBitCount, b);
    && |slots| == |items| * f
    && forall block, k :: 0 <= block < |items| && 0 <= k < f ==>
                            SlotAt(slots, block, f, k) == Pack(items[block], itemBitCount, b)[k]
  }

  function SlotAt(slots: seq<nat>, block: nat, f: nat, k: nat): nat {
    if block * f + k < |slots| then slots[block * f + k] else 0
  }

  /** The first location of a bundle index. */
  function BundleStart(index: nat, n: nat): nat {
    MulNonNeg(index, n);
    index * n
  }

  /** The items of the cuckoo table that belong to one bundle index. */
  function BundleItems(table: seq<seq<Byte>>, index: nat, n: nat): (r: seq<seq<Byte>>)
    requires (index + 1) * n <= |table|
    ensures |r| == n && forall i :: 0 <= i < n ==> 0 <= index * n + i < |table| && r[i] == table[index * n + i]
  {
    MulNonNeg(index, n);
    MulDist(n, index, 1);
    var first: nat := index * n;
    assert first + n == (index + 1) * n;
    table[first..first + n]
  }

  /** The field elements of one bundle index, item after item. */
  method LayoutBundle(table: seq<seq<Byte>>, index: nat, itemsPerBundle: nat, itemBitCount: nat, m: nat)
    returns (slots: seq<nat>)
    requires (index + 1) * itemsPerBundle <= |table| && IsSealModulus(m) && m > 0
    requires forall i :: 0 <= i < |table| ==> itemBitCount <= 8 * |table[i]|
    ensures IsLayout(slots, BundleItems(table, index, itemsPerBundle), itemBitCount, BitsPerFelt(m))
    ensures InField(slots, m)
  {
    var items := BundleItems(table, index, itemsPerBundle);
    slots := [];
    for i := 0 to itemsPerBundle
      invariant IsLayout(slots, items[..i], itemBitCount, BitsPerFelt(m)) && InField(slots, m)
    {
      var algItem := BitsToFieldElts(items[i], itemBitCount, m);
      forall k | 0 <= k < NumFelts(itemBitCount, BitsPerFelt(m)) ensures algItem.value[k] < m {
        PackBelowModulus(items[i], itemBitCount, m, k);
      }
      LayoutStep(slots, items, i, itemBitCount, BitsPerFelt(m));
      slots := slots + algItem.value;
    }
    assert items[..itemsPerBundle] == items;
  }

  lemma LayoutStep(slots: seq<nat>, items: seq<seq<Byte>>, i: nat, itemBitCount: nat, b: nat)
    requires b > 0 && i < |items| && IsLayout(slots, items[..i], itemBitCount, b)
    ensures IsLayout(slots + Pack(items[i], itemBitCount, b), items[..i + 1], itemBitCount, b)
  {
    var f := NumFelts(itemBitCount, b);
    var after := slots + Pack(items[i], itemBitCount, b);
    assert (i + 1) * f == i * f + f;
    forall block, k | 0 <= block < i + 1 && 0 <= k < f
      ensures SlotAt(after, block, f, k) == Pack(items[block], itemBitCount, b)[k]
    {
      if block < i {
        SlotInside(block, f, k, i);
        assert SlotAt(slots, block, f, k) == Pack(items[..i][block], itemBitCount, b)[k];
      }
    }
  }

  lemma SlotInside(block: nat, f: nat, k: nat, n: nat)
    requires block < n && k < f
    ensures block * f + k < n * f
  {
    MulMonotone(f, block + 1, n);
    assert f * (block + 1) == block * f + f && f * n == n * f;
  }

  // ---------- Labels ----------

  /** The label bytes to expect in a result part and, with the nonce, to keep of a decoded label. */
  datatype LabelBytes = LabelBytes(labelByteCount: nat, effective: nat)

  /** The checks against what was actually received; unexpected label data is ignored, never an error. */
  function ExpectedLabel(labelByteCount: nat, nonceByteCount: nat, components: nat, itemBitCount: nat, keyCount: nat,
                         itemCount: nat): (r: LabelBytes)
    ensures r.labelByteCount > 0 ==>
              components > 0 && 8 * r.effective <= itemBitCount * components && keyCount == itemCount
  {
    MulNonNeg(itemBitCount, components);
    var received: nat := itemBitCount * components / 8;
    var wanted := if components == 0 then 0 else labelByteCount;
    var nonce := if wanted > 0 then nonceByteCount else 0;
    var counts :=
      if received < nonce then LabelBytes(0, 0)
      else if received < nonce + wanted then LabelBytes(received - nonce, received)
      else LabelBytes(wanted, nonce + wanted);
    if counts.labelByteCount > 0 && keyCount != itemCount then LabelBytes(0, 0) else counts
  }

  /** The elements of one block, component after component. */
  function LabelFelts(labelResult: seq<seq<nat>>, block: nat, f: nat): (r: seq<nat>)
    requires f > 0
    ensures |r| == f * |labelResult|
  {
    seq(f * |labelResult|, j requires 0 <= j < f * |labelResult| =>
      if j / f < |labelResult| then SlotAt(labelResult[j / f], block, f, j % f) else 0)
  }

  lemma LabelFeltsAt(labelResult: seq<seq<nat>>, block: nat, f: nat, l: nat, k: nat)
    requires l < |labelResult| && k < f
    ensures LabelAt(LabelFelts(labelResult, block, f), f, l, k) == SlotAt(labelResult[l], block, f, k)
  {
    LabelSlot(f, l, k, |labelResult|);
    DivModUnique(f * l + k, l, k, f);
  }

  method CollectLabel(labelResult: seq<seq<nat>>, block: nat, f: nat) returns (algLabel: seq<nat>)
    requires f > 0 && forall l :: 0 <= l < |labelResult| ==> block * f + f <= |labelResult[l]|
    ensures algLabel == LabelFelts(labelResult, block, f)
  {
    algLabel := [];
    for l := 0 to |labelResult|
      invariant algLabel == LabelFelts(labelResult[..l], block, f)
    {
      AppendComponent(labelResult, block, f, l);
      algLabel := algLabel + labelResult[l][block * f..block * f + f];
    }
    assert labelResult[..|labelResult|] == labelResult;
  }

  lemma AppendComponent(labelResult: seq<seq<nat>>, block: nat, f: nat, l: nat)
    requires f > 0 && l < |labelResult| && 0 <= block * f <= block * f + f <= |labelResult[l]|
    ensures LabelFelts(labelResult[..l + 1], block, f)
            == LabelFelts(labelResult[..l], block, f) + labelResult[l][block * f..block * f + f]
  {
    var longer, shorter := LabelFelts(labelResult[..l + 1], block, f), LabelFelts(labelResult[..l], block, f);
    assert f * (l + 1) == f * l + f;
    forall j | 0 <= j < f * (l + 1) ensures longer[j] == (shorter + labelResult[l][block * f..block * f + f])[j] {
      if j >= f * l {
        DivModUnique(j, l, j - f * l, f);
      } else {
        ComponentBelow(j, f, l);
      }
    }
  }

  lemma ComponentBelow(j: nat, f: nat, l: nat)
    requires f > 0 && j < f * l
    ensures j / f < l
  {
    DivModUnique(j, j / f, j % f, f);
    if j / f >= l {
      MulMonotone(f, l, j / f);
      assert false;
    }
  }

  /** The bytes are the first bits of the block's elements. */
  predicate IsBlockLabel(bytes: seq<Byte>, labelResult: seq<seq<nat>>, block: nat, f: nat, b: nat, count: nat)
    requires f > 0 && b > 0
  {
    && |bytes| == count
    && forall k :: 0 <= k < 8 * count ==> BitAt(bytes, k) == FeltBit(LabelFelts(labelResult, block, f), b, k)
  }

  /** The label of a matched block: decoded and truncated; decoding cannot throw. */
  method ExtractLabel(labelResult: seq<seq<nat>>, block: nat, f: nat, itemBitCount: nat, m: nat, effective: nat)
    returns (bytes: seq<Byte>)
    requires IsSealModulus(m) && m > 0 && f > 0 && itemBitCount == f * BitsPerFelt(m) && |labelResult| > 0
    requires forall l :: 0 <= l < |labelResult| ==> block * f + f <= |labelResult[l]|
    requires 8 * effective <= itemBitCount * |labelResult|
    ensures IsBlockLabel(bytes, labelResult, block, f, BitsPerFelt(m), effective)
  {
    var algLabel := CollectLabel(labelResult, block, f);
    var b := BitsPerFelt(m);
    LabelBitCount(f, b, |labelResult|);
    var bitCount := itemBitCount * |labelResult|;
    assert bitCount == |algLabel| * b && (|algLabel| - 1) * b < bitCount;
    var decoded := FieldEltsToBits(algLabel, bitCount, m);
    bytes := decoded.value[..effective];
    forall k | 0 <= k < 8 * effective ensures BitAt(bytes, k) == FeltBit(algLabel, b, k) {
      TruncatedBit(decoded.value, effective, k);
    }
  }

  lemma LabelBitCount(f: nat, b: nat, components: nat)
    requires f > 0 && b > 0 && components > 0
    ensures f * components > 0 && (f * b) * components == (f * components) * b
    ensures (f * components - 1) * b < (f * b) * components
  {
    MulAssoc(f, b, components);
    MulAssoc(f, components, b);
    MulAtLeast(f, components);
    MulDist(b, f * components, -1);
  }

  lemma TruncatedBit(bytes: seq<Byte>, n: nat, k: nat)
    requires n <= |bytes| && k < 8 * n
    ensures BitAt(bytes[..n], k) == BitAt(bytes, k)
  {
    assert k / 8 < n;
  }

  // ---------- Result processing ----------

  /** A match record: found or not, and the encrypted label if one was sent along. */
  datatype MatchRecord = MatchRecord(found: bool, encLabel: Option<seq<Byte>>)

  /** What the sender returned for one bundle: the decrypted matching and label slots, and the label sizes. */
  datatype PlainResult = PlainResult(psi: seq<nat>, labelResult: seq<seq<nat>>, labelByteCount: nat,
                                     nonceByteCount: nat)

  /** has_n_zeros on one block of slots. */
  predicate ZeroBlock(slots: seq<nat>, block: nat, f: nat) {
    forall k :: 0 <= k < f ==> SlotAt(slots, block, f, k) == 0
  }

  /** Block block reports the receiver's item. */
  predicate Reports(slots: seq<nat>, block: nat, f: nat, bundleStart: nat, table: map<nat, nat>, item: nat) {
    ZeroBlock(slots, block, f) && block + bundleStart in table && table[block + bundleStart] == item
  }

  predicate ReportedBelow(slots: seq<nat>, n: nat, f: nat, bundleStart: nat, table: map<nat, nat>, item: nat) {
    exists block :: 0 <= block < n && Reports(slots, block, f, bundleStart, table, item)
  }

  /** Two blocks report the same item: the source's exception. */
  predicate Duplicated(slots: seq<nat>, n: nat, f: nat, bundleStart: nat, table: map<nat, nat>, item: nat) {
    exists block :: 0 <= block < n && Reports(slots, block, f, bundleStart, table, item)
                    && ReportedBelow(slots, block, f, bundleStart, table, item)
  }

  ghost predicate NoneDuplicated(slots: seq<nat>, n: nat, f: nat, bundleStart: nat, table: map<nat, nat>) {
    forall item :: !Duplicated(slots, n, f, bundleStart, table, item)
  }

  lemma NoneDuplicatedNext(slots: seq<nat>, n: nat, f: nat, bundleStart: nat, table: map<nat, nat>)
    requires NoneDuplicated(slots, n, f, bundleStart, table)
    requires forall item :: Reports(slots, n, f, bundleStart, table, item) ==>
               !ReportedBelow(slots, n, f, bundleStart, table, item)
    ensures NoneDuplicated(slots, n + 1, f, bundleStart, table)
  {
    var next := n + 1;
    forall item: nat ensures !Duplicated(slots, next, f, bundleStart, table, item) {
      assert !Duplicated(slots, n, f, bundleStart, table, item);
    }
  }

  /** No two locations of the translation table belong to the same item. */
  predicate Injective(table: map<nat, nat>) {
    forall s, t :: s in table && t in table && table[s] == table[t] ==> s == t
  }

  /** The table gives each item one location, so the exception never occurs. */
  lemma InjectiveNeverDuplicates(slots: seq<nat>, n: nat, f: nat, bundleStart: nat, table: map<nat, nat>, item: nat)
    requires Injective(table)
    ensures !Duplicated(slots, n, f, bundleStart, table, item)
  {
  }

  method HasNZeros(slots: seq<nat>, block: nat, f: nat) returns (r: bool)
    requires block * f + f <= |slots|
    ensures r <==> ZeroBlock(slots, block, f)
  {
    for k := 0 to f
      invariant forall i :: 0 <= i < k ==> SlotAt(slots, block, f, i) == 0
    {
      if slots[block * f + k] != 0 {
        assert SlotAt(slots, block, f, k) != 0;
        return false;
      }
    }
    return true;
  }

  /** The records after the blocks below n: who is found, and with which label. */
  ghost predicate RecordsBelow(mrs: seq<MatchRecord>, n: nat, part: PlainResult, f: nat, b: nat, bundleStart: nat,
                               table: map<nat, nat>, expected: LabelBytes)
    requires f > 0 && b > 0
  {
    forall item :: 0 <= item < |mrs| ==> RecordRight(mrs[item], item, n, part, f, b, bundleStart, table, expected)
  }

  ghost predicate RecordRight(mr: MatchRecord, item: nat, n: nat, part: PlainResult, f: nat, b: nat, bundleStart: nat,
                              table: map<nat, nat>, expected: LabelBytes)
    requires f > 0 && b > 0
  {
    && (mr.found <==> ReportedBelow(part.psi, n, f, bundleStart, table, item))
    && (mr.encLabel.Some? <==> mr.found && expected.labelByteCount > 0)
    && (mr.encLabel.Some? ==> exists block :: 0 <= block < n && Reports(part.psi, block, f, bundleStart, table, item)
                                && IsBlockLabel(mr.encLabel.value, part.labelResult, block, f, b, expected.effective))
  }

  /** The slots of every vector cover all blocks. */
  predicate CoversBlocks(part: PlainResult, itemsPerBundle: nat, f: nat) {
    && |part.psi| >= itemsPerBundle * f
    && forall l :: 0 <= l < |part.labelResult| ==> |part.labelResult[l]| >= itemsPerBundle * f
  }

  /** Items found in one result part with their labels; a second match for the same item is the source's exception. */
  method ProcessResultPart(part: PlainResult, bundleIdx: nat, itemsPerBundle: nat, f: nat, itemBitCount: nat, m: nat,
                           table: map<nat, nat>, itemCount: nat, keyCount: nat)
    returns (r: Result<seq<MatchRecord>, MatchError>)
    requires IsSealModulus(m) && m > 0 && f > 0 && itemBitCount == f * BitsPerFelt(m)
    requires CoversBlocks(part, itemsPerBundle, f) && forall t :: t in table ==> table[t] < itemCount
    ensures r.Ok? ==> |r.value| == itemCount
    ensures r.Ok? ==>
              RecordsBelow(r.value, itemsPerBundle, part, f, BitsPerFelt(m), BundleStart(bundleIdx, itemsPerBundle),
                           table, LabelOf(part, itemBitCount, keyCount, itemCount))
    ensures r.Err? <==> exists item ::
              Duplicated(part.psi, itemsPerBundle, f, BundleStart(bundleIdx, itemsPerBundle), table, item)
    ensures Injective(table) ==> r.Ok?
  {
    var start := BundleStart(bundleIdx, itemsPerBundle);
    var expected := LabelOf(part, itemBitCount, keyCount, itemCount);
    var b := BitsPerFelt(m);
    var mrs: seq<MatchRecord> := seq(itemCount, _ => MatchRecord(false, None));
    for block := 0 to itemsPerBundle
      invariant |mrs| == itemCount && RecordsBelow(mrs, block, part, f, b, start, table, expected)
      invariant NoneDuplicated(part.psi, block, f, start, table)
    {
      SlotBlockInside(block, f, itemsPerBundle);
      var zeros := HasNZeros(part.psi, block, f);
      var tableIdx := block + start;
      if zeros && tableIdx in table {
        var item := table[tableIdx];
        assert Reports(part.psi, block, f, start, table, item);
        assert RecordRight(mrs[item], item, block, part, f, b, start, table, expected);
        if mrs[item].found {
          DuplicateHere(part.psi, block, itemsPerBundle, f, start, table, item);
          return Err(DuplicateMatch);
        }
        var record := MatchRecord(true, None);
        if expected.labelByteCount > 0 {
          var bytes := ExtractLabel(part.labelResult, block, f, itemBitCount, m, expected.effective);
          record := MatchRecord(true, Some(bytes));
        }
        MatchStep(mrs, record, block, part, f, b, start, table, expected, item);
        mrs := mrs[item := record];
      } else {
        NoMatchStep(mrs, block, part, f, b, start, table, expected);
      }
    }
    return Ok(mrs);
  }

  function LabelOf(part: PlainResult, itemBitCount: nat, keyCount: nat, itemCount: nat): LabelBytes {
    ExpectedLabel(part.labelByteCount, part.nonceByteCount, |part.labelResult|, itemBitCount, keyCount, itemCount)
  }

  lemma DuplicateHere(slots: seq<nat>, block: nat, n: nat, f: nat, bundleStart: nat, table: map<nat, nat>, item: nat)
    requires block < n && Reports(slots, block, f, bundleStart, table, item)
    requires ReportedBelow(slots, block, f, bundleStart, table, item)
    ensures Duplicated(slots, n, f, bundleStart, table, item) && !Injective(table)
  {
  }

  /** A block that reports an item for the first time. */
  lemma MatchStep(mrs: seq<MatchRecord>, record: MatchRecord, block: nat, part: PlainResult, f: nat, b: nat, start: nat,
                  table: map<nat, nat>, expected: LabelBytes, item: nat)
    requires f > 0 && b > 0 && RecordsBelow(mrs, block, part, f, b, start, table, expected) && item < |mrs|
    requires Reports(part.psi, block, f, start, table, item) && !mrs[item].found && record.found
    requires record.encLabel.Some? <==> expected.labelByteCount > 0
    requires record.encLabel.Some? ==>
               IsBlockLabel(record.encLabel.value, part.labelResult, block, f, b, expected.effective)
    requires NoneDuplicated(part.psi, block, f, start, table)
    ensures RecordsBelow(mrs[item := record], block + 1, part, f, b, start, table, expected)
    ensures NoneDuplicated(part.psi, block + 1, f, start, table)
  {
    assert RecordRight(mrs[item], item, block, part, f, b, start, table, expected);
    NoneDuplicatedNext(part.psi, block, f, start, table);
    var after, next := mrs[item := record], block + 1;
    forall i | 0 <= i < |after| ensures RecordRight(after[i], i, next, part, f, b, start, table, expected) {
      assert RecordRight(mrs[i], i, block, part, f, b, start, table, expected);
      ReportedNext(part.psi, block, f, start, table, i);
    }
  }

  /** A block that reports nobody. */
  lemma NoMatchStep(mrs: seq<MatchRecord>, block: nat, part: PlainResult, f: nat, b: nat, start: nat,
                    table: map<nat, nat>, expected: LabelBytes)
    requires f > 0 && b > 0 && RecordsBelow(mrs, block, part, f, b, start, table, expected)
    requires forall i :: !Reports(part.psi, block, f, start, table, i)
    requires NoneDuplicated(part.psi, block, f, start, table)
    ensures RecordsBelow(mrs, block + 1, part, f, b, start, table, expected)
    ensures NoneDuplicated(part.psi, block + 1, f, start, table)
  {
    NoneDuplicatedNext(part.psi, block, f, start, table);
    var next := block + 1;
    forall i | 0 <= i < |mrs| ensures RecordRight(mrs[i], i, next, part, f, b, start, table, expected) {
      assert RecordRight(mrs[i], i, block, part, f, b, start, table, expected);
      ReportedNext(part.psi, block, f, start, table, i);
    }
  }

  lemma SlotBlockInside(block: nat, f: nat, n: nat)
    requires block < n
    ensures block * f + f <= n * f
  {
    MulMonotone(f, block + 1, n);
    assert f * (block + 1) == block * f + f && f * n == n * f;
  }

  lemma ReportedNext(slots: seq<nat>, n: nat, f: nat, bundleStart: nat, table: map<nat, nat>, item: nat)
    ensures ReportedBelow(slots, n + 1, f, bundleStart, table, item)
            <==> ReportedBelow(slots, n, f, bundleStart, table, item) || Reports(slots, n, f, bundleStart, table, item)
  {
  }

  // ---------- Merging the result parts ----------

  /** Part i has a positive record for the item; a part of the wrong length is passed over. */
  predicate MarkedBy(records: seq<seq<MatchRecord>>, i: nat, item: nat, itemCount: nat) {
    i < |records| && |records[i]| == itemCount && item < itemCount && records[i][item].found
  }

  predicate MarkedBelow(records: seq<seq<MatchRecord>>, n: nat, item: nat, itemCount: nat) {
    exists i :: 0 <= i < n && MarkedBy(records, i, item, itemCount)
  }

  predicate MarkedTwice(records: seq<seq<MatchRecord>>, n: nat, item: nat, itemCount: nat) {
    exists i, j :: 0 <= i < j < n && MarkedBy(records, i, item, itemCount) && MarkedBy(records, j, item, itemCount)
  }

  /** The record of the only one of the first n parts that marks the item, or the negative one. */
  predicate MergedRecord(mr: MatchRecord, records: seq<seq<MatchRecord>>, n: nat, item: nat, itemCount: nat) {
    && !MarkedTwice(records, n, item, itemCount)
    && (mr.found <==> MarkedBelow(records, n, item, itemCount))
    && forall i :: 0 <= i < n && MarkedBy(records, i, item, itemCount) ==> mr == records[i][item]
  }

  lemma MergeStep(mr: MatchRecord, records: seq<seq<MatchRecord>>, n: nat, item: nat, itemCount: nat)
    requires MergedRecord(mr, records, n, item, itemCount) && n < |records|
    requires !(mr.found && MarkedBy(records, n, item, itemCount))
    ensures var next := n + 1;
            MergedRecord(if MarkedBy(records, n, item, itemCount) then records[n][item] else mr, records, next, item,
                         itemCount)
  {
    var next := n + 1;
    assert MarkedBelow(records, next, item, itemCount)
        <==> MarkedBelow(records, n, item, itemCount) || MarkedBy(records, n, item, itemCount);
  }

  /** process_result: the records of all parts together; two positive ones for an item are the source's exception. */
  method MergeRecords(records: seq<seq<MatchRecord>>, itemCount: nat) returns (r: Result<seq<MatchRecord>, MatchError>)
    ensures r.Err? <==> exists item :: 0 <= item < itemCount && MarkedTwice(records, |records|, item, itemCount)
    ensures r.Ok? ==> |r.value| == itemCount
    ensures r.Ok? ==> forall item :: 0 <= item < itemCount ==>
                        MergedRecord(r.value[item], records, |records|, item, itemCount)
  {
    var mrs: seq<MatchRecord> := seq(itemCount, _ => MatchRecord(false, None));
    for n := 0 to |records|
      invariant |mrs| == itemCount
      invariant forall item :: 0 <= item < itemCount ==> MergedRecord(mrs[item], records, n, item, itemCount)
    {
      if |records[n]| != itemCount {
        forall item | 0 <= item < itemCount {
          MergeStep(mrs[item], records, n, item, itemCount);
        }
        continue;
      }
      for item := 0 to itemCount
        invariant |mrs| == itemCount
        invariant forall k :: 0 <= k < item ==> MergedRecord(mrs[k], records, n + 1, k, itemCount)
        invariant forall k :: item <= k < itemCount ==> MergedRecord(mrs[k], records, n, k, itemCount)
      {
        if records[n][item].found && mrs[item].found {
          assert MarkedBelow(records, n, item, itemCount) && MarkedBy(records, n, item, itemCount);
          assert MarkedTwice(records, |records|, item, itemCount);
          return Err(DuplicateMatch);
        }
        MergeStep(mrs[item], records, n, item, itemCount);
        if records[n][item].found {
          mrs := mrs[item := records[n][item]];
        }
      }
    }
    forall item | 0 <= item < itemCount ensures !MarkedTwice(records, |records|, item, itemCount) {
      assert MergedRecord(mrs[item], records, |records|, item, itemCount);
    }
    return Ok(mrs);
  }
}
