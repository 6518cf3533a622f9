/**
 The BinBundle class (sender/apsi/bin_bundle.cpp): bins of field elements that are changed in place,
 label bins beside them, a cuckoo filter for each bin, and a cache of polynomials behind a dirty flag.
 */
module BinBundles {
  import opened Wrappers
  import opened ModArith
  import opened Polynomials
  import opened Interpolate
  import opened Seal
  import opened BatchedPolyn
  import opened BinContents

  datatype BundleError =
    | EvaluatorNotSet
    | LowDegreeTooLarge
    | NoBins
    | IsStripped
    | LabelModeMismatch
    | WrongLabelSize
    | StaleCache

  /** The two instances of the insertion templates. */
  datatype AlgData = AlgItem(items: seq<nat>) | AlgItemLabel(itemLabels: seq<ItemLabel>)

  function Parts(data: AlgData): (r: seq<ItemLabel>)
    ensures data.AlgItem? ==> |r| == |data.items| && forall k :: 0 <= k < |r| ==> r[k] == ItemLabel(data.items[k], [])
  {
    match data
    case AlgItem(items) => seq(|items|, k requires 0 <= k < |items| => ItemLabel(items[k], []))
    case AlgItemLabel(itemLabels) => itemLabels
  }

  // ---------- Cuckoo filters ----------

  /** A filter reports every stored element, and possibly others. */
  datatype Filter = Filter(stored: multiset<nat>, spurious: set<nat>) {
    predicate Contains(x: nat) {
      x in stored || x in spurious
    }
  }

  method FilterAdd(f: Filter, x: nat) returns (g: Filter)
    ensures g.stored == f.stored + multiset{x}
  {
    var spurious: set<nat> := *;
    g := Filter(f.stored + multiset{x}, spurious);
  }

  method FilterRemove(f: Filter, x: nat) returns (g: Filter)
    ensures g.stored == f.stored - multiset{x}
  {
    var spurious: set<nat> := *;
    g := Filter(f.stored - multiset{x}, spurious);
  }

  predicate FiltersTrack(filters: seq<Filter>, items: seq<seq<nat>>) {
    |filters| == |items| && forall b :: 0 <= b < |items| ==> filters[b].stored == multiset(items[b])
  }

  /** The filter shortcut never changes the result of the linear search. */
  function GetIterator(bin: seq<nat>, filter: Filter, x: nat): (r: Option<nat>)
    requires filter.stored == multiset(bin)
    ensures r == if x in bin then Some(IndexOf(bin, x)) else None
  {
    if filter.Contains(x) then
      if x in bin then Some(IndexOf(bin, x)) else None
    else
      None
  }

  // ---------- The polynomial cache ----------

  datatype Cache = Cache(matching: seq<seq<nat>>, interp: seq<seq<seq<nat>>>,
                         batchedMatching: seq<Plaintext>, batchedInterp: seq<seq<Plaintext>>)

  /** One matching polynomial for each bin: the monic product of (x - item) over the bin. */
  predicate MatchingBuilt(matching: seq<seq<nat>>, items: seq<seq<nat>>, p: nat)
    requires p > 1
  {
    |matching| == |items| && forall b :: 0 <= b < |items| ==> matching[b] == RootsPolyn(items[b], p)
  }

  /** One interpolation polynomial for each bin of a component. */
  ghost predicate InterpBuilt(interp: seq<seq<nat>>, items: seq<seq<nat>>, bins: seq<seq<nat>>, p: nat)
    requires SameSizes(items, bins) && p > 1
  {
    |interp| == |items| && forall b :: 0 <= b < |items| ==> Interpolates(interp[b], items[b], bins[b], p)
  }

  ghost predicate PolynsBuilt(cache: Cache, c: Contents, p: nat)
    requires SameShape(c) && p > 1
  {
    && MatchingBuilt(cache.matching, c.items, p)
    && |cache.interp| == |c.labels|
    && forall l :: 0 <= l < |c.labels| ==> InterpBuilt(cache.interp[l], c.items, c.labels[l], p)
  }

  ghost predicate BatchesBuilt(cache: Cache, lowDegree: nat) {
    && IsBatch(cache.batchedMatching, cache.matching, lowDegree)
    && |cache.batchedInterp| == |cache.interp|
    && forall l :: 0 <= l < |cache.interp| ==> IsBatch(cache.batchedInterp[l], cache.interp[l], lowDegree)
  }

  ghost predicate CacheMatches(cache: Cache, c: Contents, p: nat, lowDegree: nat)
    requires SameShape(c) && p > 1
  {
    PolynsBuilt(cache, c, p) && BatchesBuilt(cache, lowDegree)
  }

  /** What a fresh cache answers for a field element: in the bin or not, and if so which label part. */
  lemma CacheMeaning(cache: Cache, c: Contents, numBins: nat, labelSize: nat, p: nat, lowDegree: nat, b: nat, x: nat)
    requires Sound(c, numBins, labelSize, p) && SameShape(c) && IsPrime(p) && b < numBins && x < p
    requires CacheMatches(cache, c, p, lowDegree)
    ensures Eval(cache.matching[b], x) % p == 0 <==> x in c.items[b]
    ensures cache.matching[b][|c.items[b]|] == 1
    ensures forall l :: 0 <= l < labelSize && x in c.items[b] ==>
              Eval(cache.interp[l][b], x) % p == c.labels[l][b][IndexOf(c.items[b], x)]
  {
    assert BinSound(c.items[b], labelSize, p);
    MatchingZeroIffPresent(c.items[b], p, x);
    RootsPolynMonic(c.items[b], p);
    forall l | 0 <= l < labelSize && x in c.items[b]
      ensures Eval(cache.interp[l][b], x) % p == c.labels[l][b][IndexOf(c.items[b], x)]
    {
      assert InterpBuilt(cache.interp[l], c.items, c.labels[l], p);
    }
  }

  // ---------- Outcomes ----------

  function InsertOutcome(data: AlgData, c: Contents, labelSize: nat, numBins: nat, start: nat,
                         stripped: bool): Result<int, BundleError>
    requires !stripped ==> |c.items| == numBins
  {
    if stripped then Err(IsStripped)
    else if Parts(data) == [] then Ok(-1)
    else if data.AlgItem? != (labelSize == 0) then Err(LabelModeMismatch)
    else if !LabelsHaveSize(Parts(data), labelSize) then Err(WrongLabelSize)
    else if !InRange(start, |Parts(data)|, numBins) then Ok(-1)
    else if labelSize > 0 && !AllAbsent(c.items, Parts(data), start) then Ok(-1)
    else Ok(LargestAfter(c.items, start, |Parts(data)|) as int)
  }

  function OverwriteOutcome(data: AlgData, c: Contents, labelSize: nat, numBins: nat, start: nat,
                            stripped: bool): Result<bool, BundleError>
    requires !stripped ==> |c.items| == numBins
  {
    if stripped then Err(IsStripped)
    else if Parts(data) == [] then Ok(false)
    else if data.AlgItemLabel? && !LabelsHaveSize(Parts(data), labelSize) then Err(WrongLabelSize)
    else Ok(InRange(start, |Parts(data)|, numBins) && AllPresent(c.items, Items(Parts(data)), start))
  }

  function FindOutcome(items: seq<nat>, c: Contents, numBins: nat, start: nat,
                       stripped: bool): Result<bool, BundleError>
    requires !stripped ==> |c.items| == numBins
  {
    if stripped then Err(IsStripped)
    else Ok(items != [] && InRange(start, |items|, numBins) && AllPresent(c.items, items, start))
  }

  /** Labels exactly in labeled mode, and of the right size. */
  predicate WellFormed(data: AlgData, labelSize: nat) {
    data.AlgItem? == (labelSize == 0) && LabelsHaveSize(Parts(data), labelSize)
  }

  /** An insertion with a limit on the bins: rejected for the form of the data alone, else done if there is room. */
  lemma InsertOutcomeIff(data: AlgData, c: Contents, labelSize: nat, numBins: nat, start: nat, limit: nat)
    requires |c.items| == numBins
    ensures var r := InsertOutcome(data, c, labelSize, numBins, start, false);
            && (r.Err? <==> Parts(data) != [] && !WellFormed(data, labelSize))
            && (r.Ok? && 0 < r.value < limit
                <==> WellFormed(data, labelSize) && HasRoom(c, Parts(data), start, labelSize, limit))
  {
    if InRange(start, |Parts(data)|, numBins) && Parts(data) != [] {
      LargestBelow(c, Parts(data), start, labelSize, limit);
    }
  }

  /** An overwrite succeeds exactly when every part is in its bin, unless the labels have a wrong size. */
  lemma OverwriteOutcomeIff(data: AlgData, c: Contents, labelSize: nat, numBins: nat, start: nat)
    requires |c.items| == numBins
    ensures var r := OverwriteOutcome(data, c, labelSize, numBins, start, false);
            && (r.Err? <==> data.AlgItemLabel? && !LabelsHaveSize(Parts(data), labelSize))
            && (r == Ok(true) <==> r.Ok? && HoldsEach(c, Items(Parts(data)), start))
  {
  }

  lemma InsertOutcomeRight(data: AlgData, c: Contents, labelSize: nat, numBins: nat, start: nat)
    requires |c.items| == numBins
    ensures var r := InsertOutcome(data, c, labelSize, numBins, start, false);
            && (r.Err? <==> Parts(data) != [] && !WellFormed(data, labelSize))
            && (r.Ok? ==> forall limit: nat :: 0 < r.value < limit <==>
                            HasRoom(c, Parts(data), start, labelSize, limit))
  {
    InsertOutcomeIff(data, c, labelSize, numBins, start, 0);
    if InsertOutcome(data, c, labelSize, numBins, start, false).Ok? {
      forall limit: nat
        ensures 0 < InsertOutcome(data, c, labelSize, numBins, start, false).value < limit
                <==> HasRoom(c, Parts(data), start, labelSize, limit)
      {
        InsertOutcomeIff(data, c, labelSize, numBins, start, limit);
      }
    }
  }

  /** The result vector of a label look-up is ordered by component first. */
  function LabelAt(labels: seq<nat>, n: nat, l: nat, k: nat): nat {
    if n * l + k < |labels| then labels[n * l + k] else 0
  }

  lemma LabelSlot(n: nat, l: nat, k: nat, size: nat)
    requires k < n && l < size
    ensures n * l + k < n * size
  {
    MulMonotone(n, l + 1, size);
    assert n * (l + 1) == n * l + n;
  }

  lemma LabelSlotUnique(n: nat, l: nat, k: nat, l2: nat, k2: nat)
    requires k < n && k2 < n && n * l + k == n * l2 + k2
    ensures l == l2 && k == k2
  {
    if l < l2 {
      LabelSlot(n, l, k, l2);
    } else if l2 < l {
      LabelSlot(n, l2, k2, l);
    }
  }

  lemma OtherSlotsStay(before: seq<nat>, after: seq<nat>, n: nat, size: nat, l: nat, k: nat)
    requires k < n && l < size && |before| == |after| && n * l + k < |before|
    requires forall j :: 0 <= j < |before| && j != n * l + k ==> before[j] == after[j]
    ensures forall i, m :: 0 <= i < n && 0 <= m < size && !(i == k && m == l) ==>
              LabelAt(after, n, m, i) == LabelAt(before, n, m, i)
  {
    forall i, m | 0 <= i < n && 0 <= m < size && !(i == k && m == l)
      ensures LabelAt(after, n, m, i) == LabelAt(before, n, m, i)
    {
      if n * m + i == n * l + k {
        LabelSlotUnique(n, m, i, l, k);
      }
    }
  }

  // ---------- The class ----------

  class BinBundle {
    const p: nat
    const labelSize: nat
    const maxBinSize: nat
    const psLowDegree: nat
    const numBins: nat
    var itemBins: seq<seq<nat>>
    var labelBins: seq<seq<seq<nat>>>
    var filters: seq<Filter>
    var cache: Cache
    var cacheInvalid: bool
    var stripped: bool
    ghost var strippedOf: Contents  // the contents of before, once the bundle is stripped

    function Value(): Contents
      reads this
    {
      Contents(itemBins, labelBins)
    }

    /** The contents that a fresh cache answers for. */
    ghost function Served(): Contents
      reads this
    {
      if stripped then strippedOf else Value()
    }

    ghost predicate Valid()
      reads this
    {
      && IsPrime(p) && numBins > 0 && psLowDegree <= maxBinSize
      && (!stripped ==> Sound(Value(), numBins, labelSize, p) && SameShape(Value()) && FiltersTrack(filters, itemBins))
      && (!stripped && !cacheInvalid ==> CacheMatches(cache, Value(), p, psLowDegree))
      && (stripped && !cacheInvalid ==> CacheServes(cache, strippedOf, numBins, labelSize, p, psLowDegree))
    }

    constructor (p: nat, labelSize: nat, maxBinSize: nat, psLowDegree: nat, numBins: nat, stripped: bool)
      requires IsPrime(p) && psLowDegree <= maxBinSize && numBins > 0
      ensures Valid() && this.stripped == stripped && cacheInvalid
      ensures this.p == p && this.labelSize == labelSize && this.maxBinSize == maxBinSize
      ensures this.psLowDegree == psLowDegree && this.numBins == numBins
      ensures !stripped ==> Value() == EmptyContents(numBins, labelSize)
    {
      this.p, this.labelSize, this.maxBinSize := p, labelSize, maxBinSize;
      this.psLowDegree, this.numBins := psLowDegree, numBins;
      cacheInvalid := true;
      new;
      Clear(stripped);
    }

    /** Removes all data, even from a stripped object. */
    method Clear(stripped: bool)
      requires IsPrime(p) && psLowDegree <= maxBinSize && numBins > 0
      modifies this
      ensures Valid() && this.stripped == stripped && cacheInvalid
      ensures !stripped ==> Value() == EmptyContents(numBins, labelSize)
      ensures stripped ==> itemBins == [] && labelBins == []
    {
      this.stripped := stripped;
      itemBins := [];
      if !stripped {
        itemBins := seq(numBins, _ => []);
      }
      labelBins := [];
      if !stripped {
        labelBins := seq(labelSize, _ => seq(numBins, _ => []));
      }
      filters := [];
      if !stripped {
        filters := seq(numBins, _ => Filter(multiset{}, {}));
        EmptySound(numBins, labelSize, p);
      }
      ClearCache();
    }

    method ClearCache()
      modifies this`cache, this`cacheInvalid
      ensures cacheInvalid && cache == Cache([], [], [], [])
    {
      cache := Cache([], [], [], []);
      cacheInvalid := true;
    }

    // ---------- Insertion ----------

    method MultiInsert(data: AlgData, start: nat, dryRun: bool) returns (r: Result<int, BundleError>)
      requires Valid() && PartsInField(Parts(data), p)
      modifies this
      ensures Valid() && stripped == old(stripped) && cache == old(cache) && strippedOf == old(strippedOf)
      ensures r == InsertOutcome(data, old(Value()), labelSize, numBins, start, stripped)
      ensures Value()
                == (if r.Ok? && r.value > 0 && !dryRun then Inserted(old(Value()), Parts(data), start)
                    else old(Value()))
      ensures cacheInvalid == (old(cacheInvalid) || (r.Ok? && r.value > 0 && !dryRun))
      ensures r.Err? <==> stripped || (Parts(data) != [] && !WellFormed(data, labelSize))
      ensures r.Ok? ==> forall limit: nat :: 0 < r.value < limit <==>
                          HasRoom(old(Value()), Parts(data), start, labelSize, limit)
    {
      ghost var was := Value();
      if !stripped {
        InsertOutcomeRight(data, was, labelSize, numBins, start);
      }
      var accepted := CanInsert(data, start);
      if accepted.Err? {
        return Err(accepted.error);
      }
      if !accepted.value {
        return Ok(-1);
      }
      var largest := InsertParts(Parts(data), start, dryRun);
      if !dryRun {
        InsertedSound(was, Parts(data), start, numBins, labelSize, p);
        SoundShape(Value(), numBins, labelSize, p);
      }
      return Ok(largest);
    }

    /** The checks before an insertion: an exception, a refusal, or nothing to object. */
    method CanInsert(data: AlgData, start: nat) returns (r: Result<bool, BundleError>)
      requires Valid()
      ensures r.Err? ==> InsertOutcome(data, Value(), labelSize, numBins, start, stripped) == Err(r.error)
      ensures r == Ok(false) ==> InsertOutcome(data, Value(), labelSize, numBins, start, stripped) == Ok(-1)
      ensures r == Ok(true) ==> !stripped && |Parts(data)| > 0 && LabelsHaveSize(Parts(data), labelSize)
                                && InRange(start, |Parts(data)|, numBins)
      ensures r == Ok(true) ==> (labelSize > 0 ==> AllAbsent(itemBins, Parts(data), start))
      ensures r == Ok(true) ==> InsertOutcome(data, Value(), labelSize, numBins, start, stripped)
                                == Ok(LargestAfter(itemBins, start, |Parts(data)|))
    {
      if stripped {
        return Err(IsStripped);
      }
      var parts := Parts(data);
      if |parts| == 0 {
        return Ok(false);
      }
      if data.AlgItem? != (labelSize == 0) {
        return Err(LabelModeMismatch);
      }
      for k := 0 to |parts|
        invariant forall i :: 0 <= i < k ==> |parts[i].felts| == labelSize
      {
        if |parts[k].felts| != labelSize {
          return Err(WrongLabelSize);
        }
      }
      if start >= numBins || |parts| > numBins - start {
        return Ok(false);
      }
      if labelSize != 0 {
        for k := 0 to |parts|
          invariant forall i :: 0 <= i < k ==> parts[i].item !in itemBins[start + i]
        {
          if GetIterator(itemBins[start + k], filters[start + k], parts[k].item).Some? {
            return Ok(false);
          }
        }
      }
      return Ok(true);
    }

    /** The insertion loop: the running maximum of the new bin sizes, and, unless dry, the new parts. */
    method InsertParts(parts: seq<ItemLabel>, start: nat, dryRun: bool) returns (largest: nat)
      requires |parts| > 0 && LabelsHaveSize(parts, labelSize) && start + |parts| <= |itemBins|
      requires SameShape(Value()) && |labelBins| == labelSize && FiltersTrack(filters, itemBins)
      modifies this`itemBins, this`labelBins, this`filters, this`cacheInvalid
      ensures largest == LargestAfter(old(itemBins), start, |parts|) && FiltersTrack(filters, itemBins)
      ensures Value() == if dryRun then old(Value()) else Inserted(old(Value()), parts, start)
      ensures cacheInvalid == (old(cacheInvalid) || !dryRun)
    {
      ghost var was := Value();
      largest := 0;
      InsertedNothing(was, parts, start);
      for k := 0 to |parts|
        invariant largest == LargestAfter(was.items, start, k) && FiltersTrack(filters, itemBins)
        invariant Value() == if dryRun then was else Inserted(was, parts[..k], start)
        invariant cacheInvalid == (old(cacheInvalid) || (!dryRun && k > 0))
      {
        InsertedNotYet(was, parts, start, k);
        if largest < |itemBins[start + k]| + 1 {
          largest := |itemBins[start + k]| + 1;
        }
        if !dryRun {
          InsertPart(was, parts, start, k);
        }
      }
      assert parts[..|parts|] == parts;
    }

    method InsertPart(ghost was: Contents, parts: seq<ItemLabel>, start: nat, k: nat)
      requires k < |parts| && LabelsHaveSize(parts, labelSize) && |was.labels| == labelSize && SameShape(was)
      requires start + |parts| <= |was.items| && Value() == Inserted(was, parts[..k], start)
      requires FiltersTrack(filters, itemBins)
      modifies this`itemBins, this`labelBins, this`filters, this`cacheInvalid
      ensures Value() == Inserted(was, parts[..k + 1], start) && FiltersTrack(filters, itemBins) && cacheInvalid
    {
      var b := start + k;
      InsertedStepItems(was.items, parts, start, k);
      itemBins := itemBins[b := itemBins[b] + [parts[k].item]];
      var filter := FilterAdd(filters[b], parts[k].item);
      filters := filters[b := filter];
      AppendLabelParts(was, parts, start, k);
      cacheInvalid := true;
    }

    method AppendLabelParts(ghost was: Contents, parts: seq<ItemLabel>, start: nat, k: nat)
      requires k < |parts| && LabelsHaveSize(parts, labelSize) && |was.labels| == labelSize && SameShape(was)
      requires start + |parts| <= |was.items| && labelBins == Inserted(was, parts[..k], start).labels
      modifies this`labelBins
      ensures labelBins == Inserted(was, parts[..k + 1], start).labels
    {
      for l := 0 to labelSize
        invariant |labelBins| == labelSize
        invariant forall i :: 0 <= i < l ==> labelBins[i] == InsertedLabel(was.labels[i], i, parts[..k + 1], start)
        invariant forall i :: l <= i < labelSize ==> labelBins[i] == InsertedLabel(was.labels[i], i, parts[..k], start)
      {
        assert SameSizes(was.items, was.labels[l]);
        InsertedStepLabel(was.labels[l], l, parts, start, k);
        var b := start + k;
        var bins := labelBins[l];
        labelBins := labelBins[l := bins[b := bins[b] + [parts[k].felts[l]]]];
      }
    }

    // ---------- Overwriting ----------

    method TryMultiOverwrite(data: AlgData, start: nat) returns (r: Result<bool, BundleError>)
      requires Valid() && PartsInField(Parts(data), p)
      modifies this
      ensures Valid() && stripped == old(stripped) && cache == old(cache) && strippedOf == old(strippedOf)
      ensures r == OverwriteOutcome(data, old(Value()), labelSize, numBins, start, stripped)
      ensures Value()
                == (if r == Ok(true) && data.AlgItemLabel? then Overwritten(old(Value()), Parts(data), start)
                    else old(Value()))
      ensures cacheInvalid == (old(cacheInvalid) || r == Ok(true))
      ensures r.Err? <==> stripped || (data.AlgItemLabel? && !LabelsHaveSize(Parts(data), labelSize))
      ensures r == Ok(true) <==> r.Ok? && HoldsEach(old(Value()), Items(Parts(data)), start)
      ensures r == Ok(true) && data.AlgItemLabel? ==> StoresLabels(Value(), Parts(data), start)
    {
      if stripped {
        return Err(IsStripped);
      }
      var parts := Parts(data);
      if |parts| == 0 {
        return Ok(false);
      }
      if data.AlgItemLabel? {
        for k := 0 to |parts|
          invariant forall i :: 0 <= i < k ==> |parts[i].felts| == labelSize
        {
          if |parts[k].felts| != labelSize {
            return Err(WrongLabelSize);
          }
        }
      }
      if start >= numBins || |parts| > numBins - start {
        return Ok(false);
      }
      var found := AllInBins(Items(parts), start);
      if !found {
        return Ok(false);
      }
      if data.AlgItemLabel? {
        OverwrittenStores(Value(), parts, start, numBins, labelSize, p);
        OverwriteParts(parts, start);
      }
      cacheInvalid := true;
      return Ok(true);
    }

    method AllInBins(items: seq<nat>, start: nat) returns (r: bool)
      requires Valid() && !stripped && InRange(start, |items|, numBins)
      ensures r <==> AllPresent(itemBins, items, start)
    {
      for k := 0 to |items|
        invariant forall i :: 0 <= i < k ==> items[i] in itemBins[start + i]
      {
        if GetIterator(itemBins[start + k], filters[start + k], items[k]).None? {
          assert items[k] !in itemBins[start + k];
          return false;
        }
      }
      return true;
    }

    method OverwriteParts(parts: seq<ItemLabel>, start: nat)
      requires Valid() && !stripped && InRange(start, |parts|, numBins)
      requires LabelsHaveSize(parts, labelSize) && PartsInField(parts, p) && AllPresent(itemBins, Items(parts), start)
      modifies this`labelBins, this`cacheInvalid
      ensures Value() == Overwritten(old(Value()), parts, start)
      ensures Sound(Value(), numBins, labelSize, p) && SameShape(Value())
      ensures cacheInvalid == (old(cacheInvalid) || |parts| > 0)
    {
      ghost var was := Value();
      assert labelBins == Overwritten(was, parts[..0], start).labels by {
        assert forall l :: 0 <= l < labelSize ==>
                 OverwrittenLabel(was.items, was.labels[l], l, parts[..0], start) == was.labels[l];
      }
      for k := 0 to |parts|
        invariant Value() == Overwritten(was, parts[..k], start)
        invariant cacheInvalid == (old(cacheInvalid) || k > 0)
      {
        assert Items(parts)[k] in itemBins[start + k];
        ReplaceLabelParts(was, parts, start, k, IndexOf(itemBins[start + k], parts[k].item));
        cacheInvalid := true;
      }
      assert parts[..|parts|] == parts;
      OverwrittenSound(was, parts, start, numBins, labelSize, p);
      SoundShape(Value(), numBins, labelSize, p);
    }

    method ReplaceLabelParts(ghost was: Contents, parts: seq<ItemLabel>, start: nat, k: nat, position: nat)
      requires k < |parts| && LabelsHaveSize(parts, labelSize) && |was.labels| == labelSize && SameShape(was)
      requires start + |parts| <= |was.items| && labelBins == Overwritten(was, parts[..k], start).labels
      requires parts[k].item in was.items[start + k] && position == IndexOf(was.items[start + k], parts[k].item)
      modifies this`labelBins
      ensures labelBins == Overwritten(was, parts[..k + 1], start).labels
    {
      for l := 0 to labelSize
        invariant |labelBins| == labelSize
        invariant forall i :: 0 <= i < l ==>
                    labelBins[i] == OverwrittenLabel(was.items, was.labels[i], i, parts[..k + 1], start)
        invariant forall i :: l <= i < labelSize ==>
                    labelBins[i] == OverwrittenLabel(was.items, was.labels[i], i, parts[..k], start)
      {
        OverwrittenStep(was.items, was.labels[l], l, parts, start, k);
        var b := start + k;
        var bins := labelBins[l];
        labelBins := labelBins[l := bins[b := bins[b][position := parts[k].felts[l]]]];
      }
    }

    // ---------- Removal and look-up ----------

    /** Positions of the parts in their bins, or None as soon as one is missing. */
    method Locate(items: seq<nat>, start: nat) returns (r: Option<seq<nat>>)
      requires Valid() && !stripped && InRange(start, |items|, numBins)
      ensures r.Some? <==> AllPresent(itemBins, items, start)
      ensures r.Some? ==> |r.value| == |items|
                          && forall k :: 0 <= k < |items| ==> r.value[k] == IndexOf(itemBins[start + k], items[k])
    {
      var positions: seq<nat> := [];
      for k := 0 to |items|
        invariant |positions| == k && forall i :: 0 <= i < k ==> items[i] in itemBins[start + i]
        invariant forall i :: 0 <= i < k ==> positions[i] == IndexOf(itemBins[start + i], items[i])
      {
        var position := GetIterator(itemBins[start + k], filters[start + k], items[k]);
        if position.None? {
          assert items[k] !in itemBins[start + k];
          return None;
        }
        positions := positions + [position.value];
      }
      return Some(positions);
    }

    method TryMultiRemove(items: seq<nat>, start: nat) returns (r: Result<bool, BundleError>)
      requires Valid()
      modifies this
      ensures Valid() && stripped == old(stripped) && cache == old(cache) && strippedOf == old(strippedOf)
      ensures r == FindOutcome(items, old(Value()), numBins, start, stripped)
      ensures Value() == (if r == Ok(true) then Removed(old(Value()), items, start) else old(Value()))
      ensures cacheInvalid == (old(cacheInvalid) || r == Ok(true))
      ensures (r.Err? <==> stripped) && (r == Ok(true) <==> !stripped && HoldsEach(old(Value()), items, start))
    {
      if stripped {
        return Err(IsStripped);
      }
      if |items| == 0 {
        return Ok(false);
      }
      if start >= numBins || |items| > numBins - start {
        return Ok(false);
      }
      var positions := Locate(items, start);
      if positions.None? {
        return Ok(false);
      }
      ghost var was := Value();
      EraseItems(was, items, start, positions.value);
      EraseLabelParts(was, items, start, positions.value);
      RemovedSound(was, items, start, numBins, labelSize, p);
      SoundShape(Value(), numBins, labelSize, p);
      return Ok(true);
    }

    method EraseItems(ghost was: Contents, items: seq<nat>, start: nat, positions: seq<nat>)
      requires was == Value() && SameShape(was) && FiltersTrack(filters, itemBins) && |items| > 0
      requires start + |items| <= |itemBins| && AllPresent(itemBins, items, start) && |positions| == |items|
      requires forall k :: 0 <= k < |items| ==> positions[k] == IndexOf(itemBins[start + k], items[k])
      modifies this`itemBins, this`filters, this`cacheInvalid
      ensures itemBins == RemovedBeside(was.items, was.items, items, start)
      ensures FiltersTrack(filters, itemBins) && cacheInvalid
    {
      assert itemBins == RemovedBeside(was.items, was.items, items[..0], start);
      for k := 0 to |items|
        invariant itemBins == RemovedBeside(was.items, was.items, items[..k], start)
        invariant FiltersTrack(filters, itemBins) && (k > 0 ==> cacheInvalid)
      {
        var b := start + k;
        RemovedStep(was.items, was.items, items, start, k);
        assert items[k] in was.items[b];
        var filter := FilterRemove(filters[b], itemBins[b][positions[k]]);
        filters := filters[b := filter];
        itemBins := itemBins[b := RemoveAt(itemBins[b], positions[k])];
        cacheInvalid := true;
      }
      assert items[..|items|] == items;
    }

    method EraseLabelParts(ghost was: Contents, items: seq<nat>, start: nat, positions: seq<nat>)
      requires |was.labels| == labelSize && labelBins == was.labels && SameShape(was)
      requires start + |items| <= |was.items| && AllPresent(was.items, items, start) && |positions| == |items|
      requires forall k :: 0 <= k < |items| ==> positions[k] == IndexOf(was.items[start + k], items[k])
      modifies this`labelBins
      ensures labelBins == Removed(was, items, start).labels
    {
      for l := 0 to labelSize
        invariant |labelBins| == labelSize
        invariant forall i :: 0 <= i < l ==> labelBins[i] == RemovedBeside(was.items, was.labels[i], items, start)
        invariant forall i :: l <= i < labelSize ==> labelBins[i] == was.labels[i]
      {
        assert SameSizes(was.items, was.labels[l]);
        assert labelBins[l] == RemovedBeside(was.items, was.labels[l], items[..0], start);
        for k := 0 to |items|
          invariant |labelBins| == labelSize
          invariant forall i :: 0 <= i < l ==> labelBins[i] == RemovedBeside(was.items, was.labels[i], items, start)
          invariant labelBins[l] == RemovedBeside(was.items, was.labels[l], items[..k], start)
          invariant forall i :: l < i < labelSize ==> labelBins[i] == was.labels[i]
        {
          RemovedStep(was.items, was.labels[l], items, start, k);
          assert items[k] in was.items[start + k];
          var bins := labelBins[l];
          labelBins := labelBins[l := bins[start + k := RemoveAt(bins[start + k], positions[k])]];
        }
        assert items[..|items|] == items;
      }
    }

    /** The label of a sequence of parts, all components of part 0 .. n - 1 in component order. */
    method TryGetMultiLabel(items: seq<nat>, start: nat) returns (r: Result<Option<seq<nat>>, BundleError>)
      requires Valid()
      ensures r.Ok? <==> !stripped
      ensures r.Err? ==> r.error == IsStripped
      ensures r.Ok? ==> (r.value.Some? <==> FindOutcome(items, Value(), numBins, start, stripped) == Ok(true))
      ensures r.Ok? ==> (r.value.Some? <==> HoldsEach(Value(), items, start))
      ensures r.Ok? && r.value.Some? ==> |r.value.value| == |items| * labelSize
      ensures r.Ok? && r.value.Some? ==> forall k, l :: 0 <= k < |items| && 0 <= l < labelSize ==>
                HasLabel(Value(), items, start, k, l, LabelAt(r.value.value, |items|, l, k))
    {
      if stripped {
        return Err(IsStripped);
      }
      if |items| == 0 {
        return Ok(None);
      }
      if start >= numBins || |items| > numBins - start {
        return Ok(None);
      }
      var labels: seq<nat> := seq(|items| * labelSize, _ => 0);
      var n := |items|;
      for k := 0 to n
        invariant |labels| == n * labelSize
        invariant forall i :: 0 <= i < k ==> items[i] in itemBins[start + i]
        invariant forall i, l :: 0 <= i < k && 0 <= l < labelSize ==>
                    HasLabel(Value(), items, start, i, l, LabelAt(labels, n, l, i))
      {
        var position := GetIterator(itemBins[start + k], filters[start + k], items[k]);
        if position.None? {
          assert items[k] !in itemBins[start + k];
          return Ok(None);
        }
        labels := WriteLabelParts(labels, n, k, items, start, position.value);
      }
      return Ok(Some(labels));
    }

    /** Writes the label parts of part k into their places; all other places stay. */
    method WriteLabelParts(labels: seq<nat>, n: nat, k: nat, ghost items: seq<nat>, start: nat, position: nat)
      returns (r: seq<nat>)
      requires !stripped && SameShape(Value()) && |labelBins| == labelSize && |labels| == n * labelSize
      requires k < n == |items|
      requires start + k < |itemBins| && items[k] in itemBins[start + k]
      requires position == IndexOf(itemBins[start + k], items[k])
      ensures |r| == n * labelSize
      ensures forall l :: 0 <= l < labelSize ==> HasLabel(Value(), items, start, k, l, LabelAt(r, n, l, k))
      ensures forall i, l :: 0 <= i < n && 0 <= l < labelSize && i != k ==>
                LabelAt(r, n, l, i) == LabelAt(labels, n, l, i)
    {
      r := labels;
      for l := 0 to labelSize
        invariant |r| == n * labelSize
        invariant forall m :: 0 <= m < l ==> HasLabel(Value(), items, start, k, m, LabelAt(r, n, m, k))
        invariant forall i, m :: 0 <= i < n && 0 <= m < labelSize && i != k ==>
                    LabelAt(r, n, m, i) == LabelAt(labels, n, m, i)
      {
        assert SameSizes(itemBins, labelBins[l]);
        LabelSlot(n, l, k, labelSize);
        ghost var before := r;
        r := r[n * l + k := labelBins[l][start + k][position]];
        OtherSlotsStay(before, r, n, labelSize, l, k);
      }
    }

    // ---------- The cache ----------

    /** A stale cache is never handed out. */
    method GetCache() returns (r: Result<Cache, BundleError>)
      requires Valid()
      ensures r == if cacheInvalid then Err(StaleCache) else Ok(cache)
      ensures r.Ok? && !stripped ==> CacheMatches(r.value, Value(), p, psLowDegree)
      ensures r.Ok? ==> CacheServes(r.value, Served(), numBins, labelSize, p, psLowDegree)
    {
      if cacheInvalid {
        return Err(StaleCache);
      }
      if !stripped {
        MatchingCacheServes(cache, Value(), p, psLowDegree);
      }
      return Ok(cache);
    }

    method RegenPolyns()
      requires Valid() && !stripped && cacheInvalid
      modifies this`cache
      ensures Valid() && PolynsBuilt(cache, Value(), p)
    {
      cache := cache.(matching := seq(numBins, _ => []), interp := seq(labelSize, _ => seq(numBins, _ => [])));
      for b := 0 to numBins
        invariant |cache.matching| == numBins && |cache.interp| == labelSize
        invariant forall l :: 0 <= l < labelSize ==> |cache.interp[l]| == numBins
        invariant forall i :: 0 <= i < b ==> cache.matching[i] == RootsPolyn(itemBins[i], p)
      {
        assert BinSound(itemBins[b], labelSize, p);
        var polyn := PolynWithRoots(itemBins[b], p);
        cache := cache.(matching := cache.matching[b := polyn.value]);
      }
      for l := 0 to labelSize
        invariant MatchingBuilt(cache.matching, itemBins, p) && |cache.interp| == labelSize
        invariant forall i :: 0 <= i < l ==> InterpBuilt(cache.interp[i], itemBins, labelBins[i], p)
        invariant forall i :: 0 <= i < labelSize ==> |cache.interp[i]| == numBins
      {
        RegenInterpPolyns(l);
      }
    }

    /** One row of interpolation polynomials. */
    method RegenInterpPolyns(l: nat)
      requires Valid() && !stripped && cacheInvalid && l < labelSize == |cache.interp| && |cache.interp[l]| == numBins
      modifies this`cache
      ensures Valid() && cache.matching == old(cache.matching) && |cache.interp| == labelSize
      ensures forall i :: 0 <= i < labelSize && i != l ==> cache.interp[i] == old(cache.interp[i])
      ensures InterpBuilt(cache.interp[l], itemBins, labelBins[l], p)
    {
      assert Beside(itemBins, labelBins[l], p);
      for b := 0 to numBins
        invariant cache.matching == old(cache.matching) && |cache.interp| == labelSize && |cache.interp[l]| == numBins
        invariant forall i :: 0 <= i < labelSize && i != l ==> cache.interp[i] == old(cache.interp[i])
        invariant forall i :: 0 <= i < b ==> Interpolates(cache.interp[l][i], itemBins[i], labelBins[l][i], p)
      {
        assert BinSound(itemBins[b], labelSize, p);
        var polyn := NewtonInterpolatePolyn(itemBins[b], labelBins[l][b], p);
        cache := cache.(interp := cache.interp[l := cache.interp[l][b := polyn.value]]);
      }
    }

    method RegenPlaintexts()
      requires Valid() && !stripped && cacheInvalid && PolynsBuilt(cache, Value(), p)
      modifies this`cache
      ensures CacheMatches(cache, Value(), p, psLowDegree)
    {
      var batch := BatchPolyns(cache.matching, psLowDegree);
      cache := cache.(batchedMatching := batch, batchedInterp := []);
      for l := 0 to |cache.interp|
        invariant PolynsBuilt(cache, Value(), p) && IsBatch(cache.batchedMatching, cache.matching, psLowDegree)
        invariant |cache.batchedInterp| == l
        invariant forall i :: 0 <= i < l ==> IsBatch(cache.batchedInterp[i], cache.interp[i], psLowDegree)
      {
        batch := BatchPolyns(cache.interp[l], psLowDegree);
        cache := cache.(batchedInterp := cache.batchedInterp + [batch]);
      }
    }

    /** Rebuilds a stale cache; a fresh one is kept as it is. */
    method RegenCache()
      requires Valid() && (stripped ==> !cacheInvalid)
      modifies this`cache, this`cacheInvalid
      ensures Valid() && !cacheInvalid
      ensures !old(cacheInvalid) ==> cache == old(cache)
    {
      if cacheInvalid {
        ClearCache();
        RegenPolyns();
        RegenPlaintexts();
        cacheInvalid := false;
      }
    }

    method Empty() returns (r: bool)
      requires Valid()
      ensures r <==> forall b :: 0 <= b < |itemBins| ==> itemBins[b] == []
    {
      for b := 0 to |itemBins|
        invariant forall i :: 0 <= i < b ==> itemBins[i] == []
      {
        if itemBins[b] != [] {
          return false;
        }
      }
      return true;
    }

    /** Only the batched polynomials survive; they still serve the contents of before. */
    method Strip()
      requires Valid() && (stripped ==> !cacheInvalid)
      modifies this
      ensures Valid() && stripped && !cacheInvalid && itemBins == [] && labelBins == []
      ensures cache.matching == [] && cache.interp == []
      ensures Served() == old(Served()) && CacheServes(cache, Served(), numBins, labelSize, p, psLowDegree)
    {
      RegenCache();
      ghost var full := cache;
      if !stripped {
        strippedOf := Value();
      }
      stripped := true;
      itemBins := [];
      labelBins := [];
      filters := [];
      cache := cache.(matching := [], interp := []);
      if !old(stripped) {
        assert cache.(matching := full.matching, interp := full.interp) == full;
        MatchingCacheServes(full, old(Value()), p, psLowDegree);
      }
      OnlyBatchesCount(full, cache, strippedOf, p, psLowDegree);
    }
  }

  /** With the right coefficient lists added, this is a cache of the given contents. */
  ghost predicate BatchesServe(cache: Cache, c: Contents, p: nat, lowDegree: nat)
    requires SameShape(c) && p > 1
  {
    exists matching, interp :: CacheMatches(cache.(matching := matching, interp := interp), c, p, lowDegree)
  }

  /** The batched polynomials answer for sound contents. */
  ghost predicate CacheServes(cache: Cache, c: Contents, numBins: nat, labelSize: nat, p: nat, lowDegree: nat)
    requires p > 1
  {
    Sound(c, numBins, labelSize, p) && SameShape(c) && BatchesServe(cache, c, p, lowDegree)
  }

  lemma MatchingCacheServes(cache: Cache, c: Contents, p: nat, lowDegree: nat)
    requires SameShape(c) && p > 1 && CacheMatches(cache, c, p, lowDegree)
    ensures BatchesServe(cache, c, p, lowDegree)
  {
    assert cache.(matching := cache.matching, interp := cache.interp) == cache;
  }

  lemma OnlyBatchesCount(cache: Cache, other: Cache, c: Contents, p: nat, lowDegree: nat)
    requires SameShape(c) && p > 1 && BatchesServe(cache, c, p, lowDegree)
    requires other.batchedMatching == cache.batchedMatching && other.batchedInterp == cache.batchedInterp
    ensures BatchesServe(other, c, p, lowDegree)
  {
    var matching, interp :| CacheMatches(cache.(matching := matching, interp := interp), c, p, lowDegree);
    assert other.(matching := matching, interp := interp) == cache.(matching := matching, interp := interp);
  }

  /** The constructor with the arguments that it rejects; evaluatorSet says that the context has an evaluator. */
  method NewBinBundle(evaluatorSet: bool, p: nat, labelSize: nat, maxBinSize: nat, psLowDegree: nat, numBins: nat,
                      stripped: bool)
    returns (r: Result<BinBundle, BundleError>)
    requires IsPrime(p)
    ensures !evaluatorSet ==> r == Err(EvaluatorNotSet)
    ensures evaluatorSet && psLowDegree > maxBinSize ==> r == Err(LowDegreeTooLarge)
    ensures evaluatorSet && psLowDegree <= maxBinSize && numBins == 0 ==> r == Err(NoBins)
    ensures evaluatorSet && psLowDegree <= maxBinSize && numBins > 0 ==> r.Ok? && fresh(r.value) && r.value.Valid()
    ensures r.Ok? ==> r.value.stripped == stripped && r.value.cacheInvalid
    ensures r.Ok? && !stripped ==> r.value.Value() == EmptyContents(numBins, labelSize)
    ensures r.Ok? ==> r.value.p == p && r.value.labelSize == labelSize && r.value.numBins == numBins
    ensures r.Ok? ==> r.value.maxBinSize == maxBinSize && r.value.psLowDegree == psLowDegree
  {
    if !evaluatorSet {
      return Err(EvaluatorNotSet);
    }
    if psLowDegree > maxBinSize {
      return Err(LowDegreeTooLarge);
    }
    if numBins == 0 {
      return Err(NoBins);
    }
    var bundle := new BinBundle(p, labelSize, maxBinSize, psLowDegree, numBins, stripped);
    return Ok(bundle);
  }

  // ---------- Histories ----------

  datatype Operation =
    | Insert(data: AlgData, start: nat, dryRun: bool)
    | Overwrite(data: AlgData, start: nat)
    | Remove(items: seq<nat>, start: nat)
    | Wipe(strip: bool)
    | DropCache
    | Regenerate
    | StripDown

  predicate OperationInField(op: Operation, p: nat) {
    (op.Insert? || op.Overwrite?) ==> PartsInField(Parts(op.data), p)
  }

  method Perform(bundle: BinBundle, op: Operation)
    requires bundle.Valid() && OperationInField(op, bundle.p)
    modifies bundle
    ensures bundle.Valid()
    ensures old(bundle.stripped) && !op.Wipe? ==> bundle.stripped && bundle.strippedOf == old(bundle.strippedOf)
  {
    match op {
      case Insert(data, start, dryRun) => var largest := bundle.MultiInsert(data, start, dryRun);
      case Overwrite(data, start) => var done := bundle.TryMultiOverwrite(data, start);
      case Remove(items, start) => var done := bundle.TryMultiRemove(items, start);
      case Wipe(strip) => bundle.Clear(strip);
      case DropCache => bundle.ClearCache();
      case Regenerate =>
        if !bundle.stripped || !bundle.cacheInvalid {
          bundle.RegenCache();
        }
      case StripDown =>
        if !bundle.stripped || !bundle.cacheInvalid {
          bundle.Strip();
        }
    }
  }

  /** Whatever was done before, a cache that is handed out answers for the current bins and their labels. */
  method PerformAllThenGetCache(bundle: BinBundle, ops: seq<Operation>) returns (r: Result<Cache, BundleError>)
    requires bundle.Valid() && forall i :: 0 <= i < |ops| ==> OperationInField(ops[i], bundle.p)
    modifies bundle
    ensures bundle.Valid() && r == if bundle.cacheInvalid then Err(StaleCache) else Ok(bundle.cache)
    ensures r.Ok? && !bundle.stripped ==> CacheMatches(r.value, bundle.Value(), bundle.p, bundle.psLowDegree)
    ensures r.Ok? && !bundle.stripped ==> Serves(r.value, bundle.Value(), bundle.p)
    ensures r.Ok? ==>
              CacheServes(r.value, bundle.Served(), bundle.numBins, bundle.labelSize, bundle.p, bundle.psLowDegree)
    ensures old(bundle.stripped) && (forall i :: 0 <= i < |ops| ==> !ops[i].Wipe?) ==>
              bundle.stripped && bundle.Served() == old(bundle.Served())
  {
    for i := 0 to |ops|
      invariant bundle.Valid()
      invariant old(bundle.stripped) && (forall j :: 0 <= j < i ==> !ops[j].Wipe?) ==>
                  bundle.stripped && bundle.strippedOf == old(bundle.strippedOf)
    {
      Perform(bundle, ops[i]);
    }
    r := bundle.GetCache();
    if r.Ok? && !bundle.stripped {
      FreshCacheServes(r.value, bundle.Value(), bundle.numBins, bundle.labelSize, bundle.p, bundle.psLowDegree);
    }
  }

  /**
   The polynomials answer for the contents: each matching polynomial is monic of degree the size of the
   bin, congruent to the product of (x - item) everywhere, and zero exactly on the bin; each
   interpolation polynomial maps every stored item to its current label part.
   */
  ghost predicate Serves(cache: Cache, c: Contents, p: nat)
    requires p > 1
  {
    && |cache.matching| == |c.items| && |cache.interp| == |c.labels|
    && (forall b :: 0 <= b < |c.items| ==> MatchingServes(cache.matching[b], c.items[b], p))
    && forall l :: 0 <= l < |c.labels| ==> InterpServes(cache.interp[l], c.items, c.labels[l], p)
  }

  ghost predicate MatchingServes(polyn: seq<nat>, bin: seq<nat>, p: nat)
    requires p > 1
  {
    && |polyn| == |bin| + 1 && polyn[|bin|] == 1
    && (forall x: int {:trigger Eval(polyn, x)} :: Cong(Eval(polyn, x), RootProduct(bin, x), p))
    && forall x: nat {:trigger Eval(polyn, x)} :: x < p ==> (Eval(polyn, x) % p == 0 <==> x in bin)
  }

  ghost predicate InterpServes(polyns: seq<seq<nat>>, items: seq<seq<nat>>, labels: seq<seq<nat>>, p: nat)
    requires p > 1
  {
    && |polyns| == |items| == |labels|
    && forall b, x {:trigger x in items[b]} :: 0 <= b < |items| && x in items[b] ==>
         IndexOf(items[b], x) < |labels[b]| && Eval(polyns[b], x) % p == labels[b][IndexOf(items[b], x)]
  }

  lemma MatchingPolynServes(bin: seq<nat>, p: nat)
    requires IsPrime(p) && InField(bin, p)
    ensures MatchingServes(RootsPolyn(bin, p), bin, p)
  {
    RootsPolynMonic(bin, p);
    forall x: int ensures Cong(Eval(RootsPolyn(bin, p), x), RootProduct(bin, x), p) {
      RootsPolynIsProduct(bin, p, x);
    }
    forall x: nat | x < p ensures Eval(RootsPolyn(bin, p), x) % p == 0 <==> x in bin {
      MatchingZeroIffPresent(bin, p, x);
    }
  }

  lemma InterpPolynsServe(polyns: seq<seq<nat>>, items: seq<seq<nat>>, labels: seq<seq<nat>>, p: nat)
    requires p > 1 && SameSizes(items, labels) && InterpBuilt(polyns, items, labels, p)
    ensures InterpServes(polyns, items, labels, p)
  {
    forall b, x | 0 <= b < |items| && x in items[b]
      ensures IndexOf(items[b], x) < |labels[b]| && Eval(polyns[b], x) % p == labels[b][IndexOf(items[b], x)]
    {
      assert Interpolates(polyns[b], items[b], labels[b], p);
    }
  }

  lemma FreshCacheServes(cache: Cache, c: Contents, numBins: nat, labelSize: nat, p: nat, lowDegree: nat)
    requires Sound(c, numBins, labelSize, p) && SameShape(c) && IsPrime(p) && CacheMatches(cache, c, p, lowDegree)
    ensures Serves(cache, c, p)
  {
    forall b | 0 <= b < numBins ensures MatchingServes(cache.matching[b], c.items[b], p) {
      assert BinSound(c.items[b], labelSize, p);
      MatchingPolynServes(c.items[b], p);
    }
    forall l | 0 <= l < labelSize ensures InterpServes(cache.interp[l], c.items, c.labels[l], p) {
      InterpPolynsServe(cache.interp[l], c.items, c.labels[l], p);
    }
  }
}
