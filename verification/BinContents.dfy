/**
 What a BinBundle stores, as values: bins of field elements and, beside each bin, one bin of label
 parts per label component (sender/apsi/bin_bundle.h). The operations of the class in BinBundle.dfy
 are specified by the functions here.
 */
module BinContents {
  import opened Interpolate

  /** One part of an item with its part of every label component; no label parts in unlabeled mode. */
  datatype ItemLabel = ItemLabel(item: nat, felts: seq<nat>)

  datatype Contents = Contents(items: seq<seq<nat>>, labels: seq<seq<seq<nat>>>)

  /** The label bins of one component lie beside the item bins. */
  predicate Beside(items: seq<seq<nat>>, labels: seq<seq<nat>>, p: nat) {
    |labels| == |items| && forall b :: 0 <= b < |items| ==> |labels[b]| == |items[b]| && InField(labels[b], p)
  }

  predicate BinSound(bin: seq<nat>, labelSize: nat, p: nat) {
    InField(bin, p) && (labelSize > 0 ==> Distinct(bin))
  }

  /** Bins of field elements, label bins beside them, and no repeated item in a labeled bin. */
  predicate Sound(c: Contents, numBins: nat, labelSize: nat, p: nat) {
    && |c.items| == numBins && |c.labels| == labelSize
    && (forall b :: 0 <= b < numBins ==> BinSound(c.items[b], labelSize, p))
    && forall l :: 0 <= l < labelSize ==> Beside(c.items, c.labels[l], p)
  }

  function EmptyContents(numBins: nat, labelSize: nat): Contents {
    Contents(seq(numBins, _ => []), seq(labelSize, _ => seq(numBins, _ => [])))
  }

  lemma EmptySound(numBins: nat, labelSize: nat, p: nat)
    ensures Sound(EmptyContents(numBins, labelSize), numBins, labelSize, p)
    ensures SameShape(EmptyContents(numBins, labelSize))
  {
  }

  predicate InRange(start: nat, n: nat, numBins: nat) {
    start < numBins && n <= numBins - start
  }

  /** Bin b receives part b - start. */
  predicate Touched(start: nat, n: nat, b: nat) {
    start <= b < start + n
  }

  // ---------- Insertion ----------

  function InsertedItems(items: seq<seq<nat>>, parts: seq<ItemLabel>, start: nat): (r: seq<seq<nat>>)
    ensures |r| == |items|
  {
    seq(|items|, b requires 0 <= b < |items| =>
      if Touched(start, |parts|, b) then items[b] + [parts[b - start].item] else items[b])
  }

  function InsertedLabel(bins: seq<seq<nat>>, l: nat, parts: seq<ItemLabel>, start: nat): (r: seq<seq<nat>>)
    requires forall k :: 0 <= k < |parts| ==> l < |parts[k].felts|
    ensures |r| == |bins|
  {
    seq(|bins|, b requires 0 <= b < |bins| =>
      if Touched(start, |parts|, b) then bins[b] + [parts[b - start].felts[l]] else bins[b])
  }

  predicate LabelsHaveSize(parts: seq<ItemLabel>, n: nat) {
    forall k :: 0 <= k < |parts| ==> |parts[k].felts| == n
  }

  function Inserted(c: Contents, parts: seq<ItemLabel>, start: nat): Contents
    requires LabelsHaveSize(parts, |c.labels|)
  {
    Contents(InsertedItems(c.items, parts, start),
             seq(|c.labels|, l requires 0 <= l < |c.labels| => InsertedLabel(c.labels[l], l, parts, start)))
  }

  predicate PartsInField(parts: seq<ItemLabel>, p: nat) {
    forall k :: 0 <= k < |parts| ==> parts[k].item < p && InField(parts[k].felts, p)
  }

  /** No part is already in its bin. */
  predicate AllAbsent(items: seq<seq<nat>>, parts: seq<ItemLabel>, start: nat)
    requires start + |parts| <= |items|
  {
    forall k :: 0 <= k < |parts| ==> parts[k].item !in items[start + k]
  }

  /** Every part is in its bin. */
  predicate AllPresent(items: seq<seq<nat>>, parts: seq<nat>, start: nat)
    requires start + |parts| <= |items|
  {
    forall k :: 0 <= k < |parts| ==> parts[k] in items[start + k]
  }

  /** There are parts, and each of them lies in its own bin. */
  predicate HoldsEach(c: Contents, items: seq<nat>, start: nat) {
    && items != [] && start + |items| <= |c.items|
    && forall k :: 0 <= k < |items| ==> items[k] in c.items[start + k]
  }

  /** There are parts, no touched bin reaches the limit with them and, if labeled, no part is there already. */
  predicate HasRoom(c: Contents, parts: seq<ItemLabel>, start: nat, labelSize: nat, limit: nat) {
    && parts != [] && start + |parts| <= |c.items|
    && forall k :: 0 <= k < |parts| ==>
         |c.items[start + k]| + 1 < limit && (labelSize > 0 ==> parts[k].item !in c.items[start + k])
  }

  /** The size of the largest bin in the range after an insertion. */
  function LargestAfter(items: seq<seq<nat>>, start: nat, n: nat): (m: nat)
    requires start + n <= |items|
    ensures forall b :: start <= b < start + n ==> |items[b]| < m
    ensures n > 0 ==> m > 0 && exists b :: start <= b < start + n && m == |items[b]| + 1
  {
    if n == 0 then 0
    else
      var rest := LargestAfter(items, start, n - 1);
      if rest < |items[start + n - 1]| + 1 then |items[start + n - 1]| + 1 else rest
  }

  lemma InsertedStepItems(items: seq<seq<nat>>, parts: seq<ItemLabel>, start: nat, k: nat)
    requires k < |parts| && start + |parts| <= |items|
    ensures InsertedItems(items, parts[..k + 1], start)
            == InsertedItems(items, parts[..k], start)[start + k := items[start + k] + [parts[k].item]]
    ensures InsertedItems(items, parts[..k], start)[start + k] == items[start + k]
  {
  }

  lemma InsertedStepLabel(bins: seq<seq<nat>>, l: nat, parts: seq<ItemLabel>, start: nat, k: nat)
    requires k < |parts| && start + |parts| <= |bins|
    requires forall i :: 0 <= i < |parts| ==> l < |parts[i].felts|
    ensures InsertedLabel(bins, l, parts[..k + 1], start)
            == InsertedLabel(bins, l, parts[..k], start)[start + k := bins[start + k] + [parts[k].felts[l]]]
    ensures InsertedLabel(bins, l, parts[..k], start)[start + k] == bins[start + k]
  {
  }

  lemma InsertedNotYet(c: Contents, parts: seq<ItemLabel>, start: nat, k: nat)
    requires LabelsHaveSize(parts, |c.labels|) && k < |parts| && start + |parts| <= |c.items|
    ensures Inserted(c, parts[..k], start).items[start + k] == c.items[start + k]
  {
  }

  lemma InsertedNothing(c: Contents, parts: seq<ItemLabel>, start: nat)
    requires LabelsHaveSize(parts, |c.labels|)
    ensures Inserted(c, parts[..0], start) == c
  {
    assert forall l :: 0 <= l < |c.labels| ==> InsertedLabel(c.labels[l], l, parts[..0], start) == c.labels[l];
    assert InsertedItems(c.items, parts[..0], start) == c.items;
  }

  /** The copies that an insertion gives to bin b. */
  function Given(parts: seq<ItemLabel>, start: nat, b: nat): multiset<nat> {
    if Touched(start, |parts|, b) then multiset{parts[b - start].item} else multiset{}
  }

  lemma InsertedCounts(items: seq<seq<nat>>, parts: seq<ItemLabel>, start: nat, b: nat)
    requires b < |items|
    ensures multiset(InsertedItems(items, parts, start)[b]) == multiset(items[b]) + Given(parts, start, b)
    ensures |InsertedItems(items, parts, start)[b]| == |items[b]| + (if Touched(start, |parts|, b) then 1 else 0)
  {
  }

  lemma InsertedSound(c: Contents, parts: seq<ItemLabel>, start: nat, numBins: nat, labelSize: nat, p: nat)
    requires Sound(c, numBins, labelSize, p) && LabelsHaveSize(parts, labelSize) && PartsInField(parts, p)
    requires start + |parts| <= numBins && (labelSize > 0 ==> AllAbsent(c.items, parts, start))
    ensures Sound(Inserted(c, parts, start), numBins, labelSize, p)
  {
    var d := Inserted(c, parts, start);
    forall b | 0 <= b < numBins ensures BinSound(d.items[b], labelSize, p) {
      assert BinSound(c.items[b], labelSize, p);
      if Touched(start, |parts|, b) {
        assert labelSize > 0 ==> parts[b - start].item !in c.items[start + (b - start)];
      }
    }
    forall l | 0 <= l < labelSize ensures Beside(d.items, d.labels[l], p) {
      forall b | 0 <= b < numBins ensures |d.labels[l][b]| == |d.items[b]| && InField(d.labels[l][b], p) {
        assert Beside(c.items, c.labels[l], p);
        if Touched(start, |parts|, b) {
          assert InField(parts[b - start].felts, p);
        }
      }
    }
  }

  /** A limit on the largest bin is a limit on all of them. */
  lemma LargestBelow(c: Contents, parts: seq<ItemLabel>, start: nat, labelSize: nat, limit: nat)
    requires start + |parts| <= |c.items| && parts != []
    ensures HasRoom(c, parts, start, labelSize, limit)
            <==> LargestAfter(c.items, start, |parts|) < limit && (labelSize > 0 ==> AllAbsent(c.items, parts, start))
  {
    var m := LargestAfter(c.items, start, |parts|);
    var b :| start <= b < start + |parts| && m == |c.items[b]| + 1;
    if HasRoom(c, parts, start, labelSize, limit) {
      var k := b - start;
      assert parts[k].item == parts[k].item && |c.items[start + k]| + 1 < limit;
    }
  }

  // ---------- Look-up, overwriting, removal ----------

  /** std::find in a bin that holds the element. */
  function IndexOf(s: seq<nat>, x: nat): (i: nat)
    requires x in s
    ensures i < |s| && s[i] == x && x !in s[..i]
  {
    if s[0] == x then 0
    else
      assert s == [s[0]] + s[1..];
      assert forall i :: 0 < i < |s| ==> s[..i] == [s[0]] + s[1..][..i - 1];
      1 + IndexOf(s[1..], x)
  }

  function RemoveAt(s: seq<nat>, i: nat): (r: seq<nat>)
    requires i < |s|
    ensures |r| == |s| - 1 && multiset(r) == multiset(s) - multiset{s[i]}
  {
    assert s == s[..i] + [s[i]] + s[i + 1..];
    s[..i] + s[i + 1..]
  }

  /** The bins of one component have the sizes of the item bins. */
  predicate SameSizes(items: seq<seq<nat>>, bins: seq<seq<nat>>) {
    |bins| == |items| && forall b :: 0 <= b < |items| ==> |bins[b]| == |items[b]|
  }

  predicate SameShape(c: Contents) {
    forall l :: 0 <= l < |c.labels| ==> SameSizes(c.items, c.labels[l])
  }

  lemma SoundShape(c: Contents, numBins: nat, labelSize: nat, p: nat)
    requires Sound(c, numBins, labelSize, p)
    ensures SameShape(c)
  {
    forall l | 0 <= l < |c.labels| ensures SameSizes(c.items, c.labels[l]) {
      assert Beside(c.items, c.labels[l], p);
    }
  }

  /** What lies beside the first copy of x in the bin is erased. */
  function Erased(bin: seq<nat>, beside: seq<nat>, x: nat): (r: seq<nat>)
    ensures x in bin && |beside| == |bin| ==> |r| == |bin| - 1
  {
    if x in bin && IndexOf(bin, x) < |beside| then RemoveAt(beside, IndexOf(bin, x)) else beside
  }

  /** The same positions are erased from bins that lie beside the item bins. */
  function RemovedBeside(items: seq<seq<nat>>, bins: seq<seq<nat>>, parts: seq<nat>, start: nat): (r: seq<seq<nat>>)
    ensures |r| == |bins|
  {
    seq(|bins|, b requires 0 <= b < |bins| =>
      if Touched(start, |parts|, b) && b < |items| then Erased(items[b], bins[b], parts[b - start]) else bins[b])
  }

  /** From each touched bin the first copy of its part is erased, with its label parts. */
  function Removed(c: Contents, parts: seq<nat>, start: nat): Contents {
    Contents(RemovedBeside(c.items, c.items, parts, start),
             seq(|c.labels|, l requires 0 <= l < |c.labels| => RemovedBeside(c.items, c.labels[l], parts, start)))
  }

  lemma RemovedStep(items: seq<seq<nat>>, bins: seq<seq<nat>>, parts: seq<nat>, start: nat, k: nat)
    requires k < |parts| && start + |parts| <= |items| && SameSizes(items, bins)
    ensures RemovedBeside(items, bins, parts[..k], start)[start + k] == bins[start + k]
    ensures RemovedBeside(items, bins, parts[..k + 1], start)
            == RemovedBeside(items, bins, parts[..k], start)
               [start + k := Erased(items[start + k], bins[start + k], parts[k])]
  {
  }

  lemma EraseKeeps(bin: seq<nat>, beside: seq<nat>, x: nat, p: nat)
    requires |beside| == |bin| && InField(beside, p)
    ensures InField(Erased(bin, beside, x), p) && (Distinct(beside) ==> Distinct(Erased(bin, beside, x)))
    ensures |Erased(bin, beside, x)| == |Erased(bin, bin, x)|
  {
  }

  /** Removal takes away exactly one copy of each part, and its label parts with it. */
  lemma RemovedSound(c: Contents, parts: seq<nat>, start: nat, numBins: nat, labelSize: nat, p: nat)
    requires Sound(c, numBins, labelSize, p)
    ensures Sound(Removed(c, parts, start), numBins, labelSize, p)
  {
    forall b | 0 <= b < numBins ensures BinSound(RemovedBeside(c.items, c.items, parts, start)[b], labelSize, p) {
      assert BinSound(c.items[b], labelSize, p);
      RemovedBinSound(c.items, parts, start, labelSize, p, b);
    }
    forall l | 0 <= l < labelSize
      ensures Beside(RemovedBeside(c.items, c.items, parts, start),
                     RemovedBeside(c.items, c.labels[l], parts, start), p)
    {
      RemovedStaysBeside(c.items, c.labels[l], parts, start, p);
    }
  }

  lemma RemovedBinSound(items: seq<seq<nat>>, parts: seq<nat>, start: nat, labelSize: nat, p: nat, b: nat)
    requires b < |items| && BinSound(items[b], labelSize, p)
    ensures BinSound(RemovedBeside(items, items, parts, start)[b], labelSize, p)
  {
    if Touched(start, |parts|, b) {
      EraseKeeps(items[b], items[b], parts[b - start], p);
    }
  }

  lemma RemovedStaysBeside(items: seq<seq<nat>>, bins: seq<seq<nat>>, parts: seq<nat>, start: nat, p: nat)
    requires Beside(items, bins, p)
    ensures Beside(RemovedBeside(items, items, parts, start), RemovedBeside(items, bins, parts, start), p)
  {
    forall b | 0 <= b < |items|
      ensures |RemovedBeside(items, bins, parts, start)[b]| == |RemovedBeside(items, items, parts, start)[b]|
      ensures InField(RemovedBeside(items, bins, parts, start)[b], p)
    {
      if Touched(start, |parts|, b) {
        EraseKeeps(items[b], bins[b], parts[b - start], p);
      }
    }
  }

  /** Removing what was just inserted gives the contents of before back, if the parts were not there. */
  lemma RemovalUndoesInsertion(c: Contents, parts: seq<ItemLabel>, start: nat)
    requires SameShape(c) && LabelsHaveSize(parts, |c.labels|) && start + |parts| <= |c.items|
    requires AllAbsent(c.items, parts, start)
    ensures Removed(Inserted(c, parts, start), Items(parts), start) == c
  {
    var d := Inserted(c, parts, start);
    UndoneBeside(c.items, c.items, d.items, parts, start);
    forall l | 0 <= l < |c.labels| ensures RemovedBeside(d.items, d.labels[l], Items(parts), start) == c.labels[l] {
      assert SameSizes(c.items, c.labels[l]);
      UndoneBeside(c.items, c.labels[l], d.labels[l], parts, start);
    }
  }

  /** What was appended beside the new parts is what is erased. */
  lemma UndoneBeside(items: seq<seq<nat>>, bins: seq<seq<nat>>, longer: seq<seq<nat>>, parts: seq<ItemLabel>,
                     start: nat)
    requires SameSizes(items, bins) && start + |parts| <= |items| && AllAbsent(items, parts, start)
    requires |longer| == |bins|
    requires forall b :: 0 <= b < |bins| ==>
               bins[b] <= longer[b] && |longer[b]| == |bins[b]| + (if Touched(start, |parts|, b) then 1 else 0)
    ensures RemovedBeside(InsertedItems(items, parts, start), longer, Items(parts), start) == bins
  {
    forall b | 0 <= b < |bins|
      ensures RemovedBeside(InsertedItems(items, parts, start), longer, Items(parts), start)[b] == bins[b]
    {
      UndoneBin(items, bins[b], longer, parts, start, b);
    }
  }

  lemma UndoneBin(items: seq<seq<nat>>, bin: seq<nat>, longer: seq<seq<nat>>, parts: seq<ItemLabel>, start: nat, b: nat)
    requires start + |parts| <= |items| && AllAbsent(items, parts, start) && b < |items| == |longer|
    requires |bin| == |items[b]| && bin <= longer[b]
    requires |longer[b]| == |bin| + (if Touched(start, |parts|, b) then 1 else 0)
    ensures RemovedBeside(InsertedItems(items, parts, start), longer, Items(parts), start)[b] == bin
  {
    if Touched(start, |parts|, b) {
      assert parts[b - start].item !in items[start + (b - start)];
      EraseLast(items[b], longer[b], parts[b - start].item);
      assert InsertedItems(items, parts, start)[b] == items[b] + [parts[b - start].item];
    }
  }

  lemma EraseLast(bin: seq<nat>, longer: seq<nat>, x: nat)
    requires x !in bin && |longer| == |bin| + 1
    ensures Erased(bin + [x], longer, x) == longer[..|bin|]
  {
    FirstIndex(bin + [x], x, |bin|);
  }

  /** The copies that a removal takes from bin b. */
  function Taken(parts: seq<nat>, start: nat, b: nat): multiset<nat> {
    if Touched(start, |parts|, b) then multiset{parts[b - start]} else multiset{}
  }

  lemma RemovedCounts(items: seq<seq<nat>>, parts: seq<nat>, start: nat, b: nat)
    requires start + |parts| <= |items| && AllPresent(items, parts, start) && b < |items|
    ensures Taken(parts, start, b) <= multiset(items[b])
    ensures multiset(RemovedBeside(items, items, parts, start)[b]) == multiset(items[b]) - Taken(parts, start, b)
  {
    if Touched(start, |parts|, b) {
      assert parts[b - start] in items[start + (b - start)];
    }
  }

  /** The label part at the position of the first copy of x is replaced. */
  function Replaced(bin: seq<nat>, beside: seq<nat>, x: nat, part: nat): (r: seq<nat>)
    ensures |r| == |beside|
  {
    if x in bin && IndexOf(bin, x) < |beside| then beside[IndexOf(bin, x) := part] else beside
  }

  function OverwrittenLabel(items: seq<seq<nat>>, bins: seq<seq<nat>>, l: nat, parts: seq<ItemLabel>,
                            start: nat): (r: seq<seq<nat>>)
    requires forall k :: 0 <= k < |parts| ==> l < |parts[k].felts|
    ensures |r| == |bins|
  {
    seq(|bins|, b requires 0 <= b < |bins| =>
      if Touched(start, |parts|, b) && b < |items|
      then Replaced(items[b], bins[b], parts[b - start].item, parts[b - start].felts[l])
      else bins[b])
  }

  function Items(parts: seq<ItemLabel>): (r: seq<nat>)
    ensures |r| == |parts|
  {
    seq(|parts|, k requires 0 <= k < |parts| => parts[k].item)
  }

  lemma OverwrittenStep(items: seq<seq<nat>>, bins: seq<seq<nat>>, l: nat, parts: seq<ItemLabel>, start: nat, k: nat)
    requires k < |parts| && start + |parts| <= |items| && SameSizes(items, bins)
    requires forall k :: 0 <= k < |parts| ==> l < |parts[k].felts|
    ensures OverwrittenLabel(items, bins, l, parts[..k], start)[start + k] == bins[start + k]
    ensures OverwrittenLabel(items, bins, l, parts[..k + 1], start)
            == OverwrittenLabel(items, bins, l, parts[..k], start)
                 [start + k := Replaced(items[start + k], bins[start + k], parts[k].item, parts[k].felts[l])]
  {
  }

  function Overwritten(c: Contents, parts: seq<ItemLabel>, start: nat): Contents
    requires LabelsHaveSize(parts, |c.labels|)
  {
    Contents(c.items,
             seq(|c.labels|, l requires 0 <= l < |c.labels| => OverwrittenLabel(c.items, c.labels[l], l, parts, start)))
  }

  lemma OverwrittenSound(c: Contents, parts: seq<ItemLabel>, start: nat, numBins: nat, labelSize: nat, p: nat)
    requires Sound(c, numBins, labelSize, p)
    requires LabelsHaveSize(parts, labelSize) && PartsInField(parts, p)
    ensures Sound(Overwritten(c, parts, start), numBins, labelSize, p)
  {
    var d := Overwritten(c, parts, start);
    forall l | 0 <= l < labelSize ensures Beside(d.items, d.labels[l], p) {
      assert Beside(c.items, c.labels[l], p);
      forall b | 0 <= b < numBins ensures |d.labels[l][b]| == |d.items[b]| && InField(d.labels[l][b], p) {
        if Touched(start, |parts|, b) {
          assert InField(parts[b - start].felts, p);
        }
      }
    }
  }

  // ---------- The label stored for a sequence of parts ----------

  /** Part k has label part value in component l. */
  predicate HasLabel(c: Contents, parts: seq<nat>, start: nat, k: nat, l: nat, value: nat) {
    && k < |parts| && l < |c.labels| && start + k < |c.items| && |c.labels[l]| == |c.items|
    && |c.labels[l][start + k]| == |c.items[start + k]|
    && parts[k] in c.items[start + k]
    && c.labels[l][start + k][IndexOf(c.items[start + k], parts[k])] == value
  }

  lemma IndexOfUnique(s: seq<nat>, x: nat, i: nat)
    requires i < |s| && s[i] == x && Distinct(s)
    ensures IndexOf(s, x) == i
  {
  }

  /** Every part is in its bin and every component of its label is what is found for it. */
  predicate StoresLabels(c: Contents, parts: seq<ItemLabel>, start: nat) {
    && start + |parts| <= |c.items| && LabelsHaveSize(parts, |c.labels|)
    && (forall k :: 0 <= k < |parts| ==> parts[k].item in c.items[start + k])
    && forall k, l :: 0 <= k < |parts| && 0 <= l < |c.labels| ==>
         HasLabel(c, Items(parts), start, k, l, parts[k].felts[l])
  }

  /** What was inserted is what is found. */
  lemma InsertedHasLabel(c: Contents, parts: seq<ItemLabel>, start: nat, numBins: nat, labelSize: nat, p: nat, k: nat,
                         l: nat)
    requires Sound(c, numBins, labelSize, p) && LabelsHaveSize(parts, labelSize) && PartsInField(parts, p)
    requires start + |parts| <= numBins && labelSize > 0 && AllAbsent(c.items, parts, start)
    requires k < |parts| && l < labelSize
    ensures HasLabel(Inserted(c, parts, start), Items(parts), start, k, l, parts[k].felts[l])
  {
    InsertedSound(c, parts, start, numBins, labelSize, p);
    var d, b := Inserted(c, parts, start), start + k;
    assert Beside(d.items, d.labels[l], p) && Beside(c.items, c.labels[l], p);
    assert d.items[b] == c.items[b] + [parts[k].item];
    assert d.labels[l][b] == c.labels[l][b] + [parts[k].felts[l]];
    IndexOfUnique(d.items[b], parts[k].item, |c.items[b]|);
  }

  lemma InsertedStores(c: Contents, parts: seq<ItemLabel>, start: nat, numBins: nat, labelSize: nat, p: nat)
    requires Sound(c, numBins, labelSize, p) && LabelsHaveSize(parts, labelSize) && PartsInField(parts, p)
    requires start + |parts| <= numBins && (labelSize > 0 ==> AllAbsent(c.items, parts, start))
    ensures StoresLabels(Inserted(c, parts, start), parts, start)
  {
    var d := Inserted(c, parts, start);
    forall k | 0 <= k < |parts| ensures parts[k].item in d.items[start + k] {
      var bin := d.items[start + k];
      assert bin[|bin| - 1] == parts[k].item;
    }
    forall k, l | 0 <= k < |parts| && 0 <= l < labelSize
      ensures HasLabel(d, Items(parts), start, k, l, parts[k].felts[l])
    {
      InsertedHasLabel(c, parts, start, numBins, labelSize, p, k, l);
    }
  }

  /** Overwriting replaces exactly the labels of the given parts. */
  lemma OverwrittenHasLabel(c: Contents, parts: seq<ItemLabel>, start: nat, numBins: nat, labelSize: nat, p: nat,
                            k: nat, l: nat)
    requires Sound(c, numBins, labelSize, p)
    requires start + |parts| <= numBins && AllPresent(c.items, Items(parts), start)
    requires LabelsHaveSize(parts, labelSize) && PartsInField(parts, p) && k < |parts| && l < labelSize
    ensures HasLabel(Overwritten(c, parts, start), Items(parts), start, k, l, parts[k].felts[l])
  {
    OverwrittenSound(c, parts, start, numBins, labelSize, p);
    assert Items(parts)[k] in c.items[start + k];
    var d := Overwritten(c, parts, start);
    assert Beside(d.items, d.labels[l], p) && Beside(c.items, c.labels[l], p);
  }

  lemma OverwrittenStores(c: Contents, parts: seq<ItemLabel>, start: nat, numBins: nat, labelSize: nat, p: nat)
    requires Sound(c, numBins, labelSize, p) && start + |parts| <= numBins && AllPresent(c.items, Items(parts), start)
    requires LabelsHaveSize(parts, labelSize) && PartsInField(parts, p)
    ensures StoresLabels(Overwritten(c, parts, start), parts, start)
  {
    var d := Overwritten(c, parts, start);
    forall k | 0 <= k < |parts| ensures parts[k].item in d.items[start + k] {
      assert Items(parts)[k] in c.items[start + k];
    }
    forall k, l | 0 <= k < |parts| && 0 <= l < labelSize
      ensures HasLabel(d, Items(parts), start, k, l, parts[k].felts[l])
    {
      OverwrittenHasLabel(c, parts, start, numBins, labelSize, p, k, l);
    }
  }

  // ---------- Stored labels survive what is done to other items ----------

  lemma IndexOfAppend(s: seq<nat>, x: nat, t: seq<nat>)
    requires x in s
    ensures x in s + t && IndexOf(s + t, x) == IndexOf(s, x)
  {
    var i := IndexOf(s, x);
    assert (s + t)[i] == x && (s + t)[..i] == s[..i];
    FirstIndex(s + t, x, i);
  }

  lemma FirstIndex(s: seq<nat>, x: nat, i: nat)
    requires i < |s| && s[i] == x && x !in s[..i]
    ensures IndexOf(s, x) == i
  {
    var j := IndexOf(s, x);
    assert forall h :: 0 <= h < i ==> s[..i][h] == s[h];
    assert forall h :: 0 <= h < j ==> s[..j][h] == s[h];
  }

  /** Later insertions, also into the same bins, do not change what is found for a part. */
  lemma LabelSurvivesInsertion(c: Contents, parts: seq<ItemLabel>, start: nat, items: seq<nat>, at: nat, k: nat, l: nat,
                               value: nat)
    requires LabelsHaveSize(parts, |c.labels|) && HasLabel(c, items, at, k, l, value)
    ensures HasLabel(Inserted(c, parts, start), items, at, k, l, value)
  {
    var b := at + k;
    if Touched(start, |parts|, b) {
      IndexOfAppend(c.items[b], items[k], [parts[b - start].item]);
    }
  }

  lemma StoredSurvivesInsertion(c: Contents, parts: seq<ItemLabel>, start: nat, kept: seq<ItemLabel>, at: nat)
    requires LabelsHaveSize(parts, |c.labels|) && StoresLabels(c, kept, at)
    ensures StoresLabels(Inserted(c, parts, start), kept, at)
  {
    var d := Inserted(c, parts, start);
    forall k | 0 <= k < |kept| ensures kept[k].item in d.items[at + k] {
      assert c.items[at + k] <= d.items[at + k];
    }
    forall k, l | 0 <= k < |kept| && 0 <= l < |c.labels| ensures HasLabel(d, Items(kept), at, k, l, kept[k].felts[l]) {
      LabelSurvivesInsertion(c, parts, start, Items(kept), at, k, l, kept[k].felts[l]);
    }
  }

  /** The two lists of parts have different parts wherever they meet in a bin. */
  ghost predicate Apart(parts: seq<nat>, start: nat, kept: seq<nat>, at: nat) {
    forall b: nat :: Touched(start, |parts|, b) && Touched(at, |kept|, b) ==> parts[b - start] != kept[b - at]
  }

  /** Erasing another element keeps the pairing of x with what lies beside it. */
  lemma ErasedPairing(bin: seq<nat>, beside: seq<nat>, y: nat, x: nat)
    requires |beside| == |bin| && x in bin && x != y
    ensures x in Erased(bin, bin, y) && |Erased(bin, beside, y)| == |Erased(bin, bin, y)|
    ensures Erased(bin, beside, y)[IndexOf(Erased(bin, bin, y), x)] == beside[IndexOf(bin, x)]
  {
    if y in bin {
      var i, j, rest := IndexOf(bin, x), IndexOf(bin, y), Erased(bin, bin, y);
      if i < j {
        assert rest[..i] == bin[..i];
        FirstIndex(rest, x, i);
      } else {
        assert rest[i - 1] == x;
        forall h | 0 <= h < i - 1 ensures rest[h] != x {
          assert rest[h] == if h < j then bin[..i][h] else bin[..i][h + 1];
        }
        FirstIndex(rest, x, i - 1);
      }
    }
  }

  /** Removing other items does not change what is found for a part. */
  lemma LabelSurvivesRemoval(c: Contents, parts: seq<nat>, start: nat, items: seq<nat>, at: nat, k: nat, l: nat,
                             value: nat)
    requires HasLabel(c, items, at, k, l, value) && Apart(parts, start, items, at)
    ensures HasLabel(Removed(c, parts, start), items, at, k, l, value)
  {
    var b := at + k;
    if Touched(start, |parts|, b) {
      assert Touched(at, |items|, b);
      ErasedPairing(c.items[b], c.labels[l][b], parts[b - start], items[k]);
      ErasedPairing(c.items[b], c.items[b], parts[b - start], items[k]);
    }
  }

  lemma StoredSurvivesRemoval(c: Contents, parts: seq<nat>, start: nat, kept: seq<ItemLabel>, at: nat)
    requires StoresLabels(c, kept, at) && Apart(parts, start, Items(kept), at)
    ensures StoresLabels(Removed(c, parts, start), kept, at)
  {
    var d := Removed(c, parts, start);
    forall k | 0 <= k < |kept| ensures kept[k].item in d.items[at + k] {
      var b := at + k;
      if Touched(start, |parts|, b) {
        assert Touched(at, |kept|, b) && Items(kept)[b - at] == kept[k].item;
        ErasedPairing(c.items[b], c.items[b], parts[b - start], kept[k].item);
      }
    }
    forall k, l | 0 <= k < |kept| && 0 <= l < |c.labels| ensures HasLabel(d, Items(kept), at, k, l, kept[k].felts[l]) {
      LabelSurvivesRemoval(c, parts, start, Items(kept), at, k, l, kept[k].felts[l]);
    }
  }

  /** Overwriting the labels of other items does not change what is found for a part. */
  lemma LabelSurvivesOverwrite(c: Contents, parts: seq<ItemLabel>, start: nat, items: seq<nat>, at: nat, k: nat, l: nat,
                               value: nat)
    requires LabelsHaveSize(parts, |c.labels|) && HasLabel(c, items, at, k, l, value)
    requires Apart(Items(parts), start, items, at)
    ensures HasLabel(Overwritten(c, parts, start), items, at, k, l, value)
  {
    var b := at + k;
    if Touched(start, |parts|, b) {
      assert Touched(at, |items|, b) && Items(parts)[b - start] == parts[b - start].item;
    }
  }

  lemma StoredSurvivesOverwrite(c: Contents, parts: seq<ItemLabel>, start: nat, kept: seq<ItemLabel>, at: nat)
    requires LabelsHaveSize(parts, |c.labels|) && StoresLabels(c, kept, at)
    requires Apart(Items(parts), start, Items(kept), at)
    ensures StoresLabels(Overwritten(c, parts, start), kept, at)
  {
    var d := Overwritten(c, parts, start);
    forall k, l | 0 <= k < |kept| && 0 <= l < |c.labels| ensures HasLabel(d, Items(kept), at, k, l, kept[k].felts[l]) {
      LabelSurvivesOverwrite(c, parts, start, Items(kept), at, k, l, kept[k].felts[l]);
    }
  }

  /** A part that is erased from a bin without repeats is gone from it. */
  lemma SharedPartIsLost(c: Contents, parts: seq<nat>, start: nat, kept: seq<ItemLabel>, at: nat, k: nat)
    requires k < |kept| && StoresLabels(c, kept, at) && Distinct(c.items[at + k])
    requires Touched(start, |parts|, at + k) && parts[at + k - start] == kept[k].item
    ensures !StoresLabels(Removed(c, parts, start), kept, at)
  {
    var b := at + k;
    ErasedIsGone(c.items[b], kept[k].item);
    assert Removed(c, parts, start).items[b] == Erased(c.items[b], c.items[b], kept[k].item);
    assert kept[k].item !in Removed(c, parts, start).items[at + k];
  }

  /** The condition on removals is exact in a labeled bundle. */
  lemma RemovalKeepsIffApart(c: Contents, parts: seq<nat>, start: nat, kept: seq<ItemLabel>, at: nat, numBins: nat,
                             labelSize: nat, p: nat)
    requires Sound(c, numBins, labelSize, p) && labelSize > 0 && StoresLabels(c, kept, at)
    ensures StoresLabels(Removed(c, parts, start), kept, at) <==> Apart(parts, start, Items(kept), at)
  {
    if Apart(parts, start, Items(kept), at) {
      StoredSurvivesRemoval(c, parts, start, kept, at);
    } else {
      var b: nat :| Touched(start, |parts|, b) && Touched(at, |kept|, b) && parts[b - start] == Items(kept)[b - at];
      assert BinSound(c.items[b], labelSize, p);
      SharedPartIsLost(c, parts, start, kept, at, b - at);
    }
  }

  lemma ErasedIsGone(bin: seq<nat>, x: nat)
    requires x in bin && Distinct(bin)
    ensures x !in Erased(bin, bin, x)
  {
  }
}
