/**
 What the sender database does with the BinBundles of one bundle index (sender/apsi/sender_db.cpp),
 as functions on their contents. The class BundleSet in SenderDB.dfy is specified by them.
 */
module BundleSets {
  import opened Wrappers
  import opened ModArith
  import opened BinContents
  import opened BinBundles

  datatype Config = Config(p: nat, labelSize: nat, maxBinSize: nat, psLowDegree: nat, binsPerBundle: nat)

  datatype WorkerError = BundleFailed(error: BundleError) | FreshBundleRejects | NothingToOverwrite | NothingToRemove

  /** Algebraized data with its cuckoo index. */
  datatype Task = Task(data: AlgData, cuckooIdx: nat)

  datatype RemoveTask = RemoveTask(items: seq<nat>, cuckooIdx: nat)

  predicate ConfigOk(cfg: Config) {
    cfg.binsPerBundle > 0 && cfg.psLowDegree <= cfg.maxBinSize && cfg.p > 1
  }

  // ---------- Cuckoo indices ----------

  /** The bin index and the bundle index of a cuckoo index. */
  function UnpackCuckooIdx(cuckooIdx: nat, binsPerBundle: nat): (r: (nat, nat))
    requires binsPerBundle > 0
    ensures r.0 < binsPerBundle && cuckooIdx == r.1 * binsPerBundle + r.0
  {
    var binIdx := cuckooIdx % binsPerBundle;
    DivModUnique(cuckooIdx, cuckooIdx / binsPerBundle, cuckooIdx % binsPerBundle, binsPerBundle);
    ExactQuotient(cuckooIdx - binIdx, cuckooIdx / binsPerBundle, binsPerBundle);
    (binIdx, (cuckooIdx - binIdx) / binsPerBundle)
  }

  lemma ExactQuotient(n: int, q: int, m: nat)
    requires m > 0 && n == q * m
    ensures n / m == q
  {
    DivModUnique(n, q, 0, m);
  }

  function BinIdx(cuckooIdx: nat, cfg: Config): nat
    requires ConfigOk(cfg)
  {
    UnpackCuckooIdx(cuckooIdx, cfg.binsPerBundle).0
  }

  function BundleIdx(cuckooIdx: nat, cfg: Config): nat
    requires ConfigOk(cfg)
  {
    UnpackCuckooIdx(cuckooIdx, cfg.binsPerBundle).1
  }

  /** The first bin of an item lies in its bundle at block location % items_per_bundle. */
  lemma UnpackLocation(location: nat, feltsPerItem: nat, itemsPerBundle: nat)
    requires feltsPerItem > 0 && itemsPerBundle > 0
    ensures itemsPerBundle * feltsPerItem > 0
    ensures UnpackCuckooIdx(location * feltsPerItem, itemsPerBundle * feltsPerItem)
            == ((location % itemsPerBundle) * feltsPerItem, location / itemsPerBundle)
    ensures InRange((location % itemsPerBundle) * feltsPerItem, feltsPerItem, itemsPerBundle * feltsPerItem)
  {
    var q, r := location / itemsPerBundle, location % itemsPerBundle;
    var binsPerBundle := itemsPerBundle * feltsPerItem;
    BlockFits(r, feltsPerItem, itemsPerBundle);
    SplitLocation(location, q, r, feltsPerItem, itemsPerBundle);
    var u := UnpackCuckooIdx(location * feltsPerItem, binsPerBundle);
    DivModUnique(location * feltsPerItem, q, r * feltsPerItem, binsPerBundle);
    DivModUnique(location * feltsPerItem, u.1, u.0, binsPerBundle);
  }

  lemma BlockFits(r: nat, f: nat, n: nat)
    requires r < n && f > 0
    ensures r * f + f <= n * f
  {
    MulMonotone(f, r + 1, n);
    assert f * (r + 1) == r * f + f && f * n == n * f;
  }

  lemma SplitLocation(location: nat, q: nat, r: nat, f: nat, n: nat)
    requires location == q * n + r
    ensures location * f == q * (n * f) + r * f
  {
    MulDist(f, q * n, r);
    MulAssoc(q, n, f);
  }

  // ---------- Insertion into the bundles of one index ----------

  predicate Sized(c: Contents, cfg: Config) {
    |c.items| == cfg.binsPerBundle && |c.labels| == cfg.labelSize
  }

  predicate AllSized(cs: seq<Contents>, cfg: Config) {
    forall i :: 0 <= i < |cs| ==> Sized(cs[i], cfg)
  }

  predicate IsSound(c: Contents, cfg: Config) {
    Sound(c, cfg.binsPerBundle, cfg.labelSize, cfg.p)
  }

  predicate AllSound(cs: seq<Contents>, cfg: Config) {
    forall i :: 0 <= i < |cs| ==> IsSound(cs[i], cfg)
  }

  /** Why no bundle takes the data, whatever it holds. */
  function DataError(data: AlgData, start: nat, cfg: Config): Option<WorkerError> {
    if Parts(data) == [] then Some(FreshBundleRejects)
    else if data.AlgItem? != (cfg.labelSize == 0) then Some(BundleFailed(LabelModeMismatch))
    else if !LabelsHaveSize(Parts(data), cfg.labelSize) then Some(BundleFailed(WrongLabelSize))
    else if !InRange(start, |Parts(data)|, cfg.binsPerBundle) then Some(FreshBundleRejects)
    else None
  }

  function Outcome(c: Contents, data: AlgData, start: nat, cfg: Config): Result<int, BundleError>
    requires |c.items| == cfg.binsPerBundle
  {
    InsertOutcome(data, c, cfg.labelSize, cfg.binsPerBundle, start, false)
  }

  predicate Fits(c: Contents, data: AlgData, start: nat, cfg: Config)
    requires |c.items| == cfg.binsPerBundle
  {
    var outcome := Outcome(c, data, start, cfg);
    outcome.Ok? && 0 < outcome.value < cfg.maxBinSize
  }

  /** The bundle that takes the data: the last one in which no touched bin would reach max_bin_size. */
  function Place(cs: seq<Contents>, data: AlgData, start: nat, cfg: Config): (r: Option<nat>)
    requires AllSized(cs, cfg)
    ensures r.Some? ==> r.value < |cs|
  {
    PlaceBelow(cs, |cs|, data, start, cfg)
  }

  function PlaceBelow(cs: seq<Contents>, n: nat, data: AlgData, start: nat, cfg: Config): (r: Option<nat>)
    requires AllSized(cs, cfg) && n <= |cs|
    ensures r.Some? ==> r.value < n
  {
    if n == 0 then None
    else if Fits(cs[n - 1], data, start, cfg) then Some(n - 1)
    else PlaceBelow(cs, n - 1, data, start, cfg)
  }

  /** No bundle from lo on and below hi fits. */
  predicate NoneFits(cs: seq<Contents>, lo: nat, hi: nat, data: AlgData, start: nat, cfg: Config)
    requires AllSized(cs, cfg) && hi <= |cs|
  {
    forall j :: lo <= j < hi ==> !Fits(cs[j], data, start, cfg)
  }

  lemma NoneFitsNext(cs: seq<Contents>, lo: nat, hi: nat, data: AlgData, start: nat, cfg: Config)
    requires AllSized(cs, cfg) && 0 < hi <= |cs| && NoneFits(cs, lo, hi - 1, data, start, cfg)
    requires !Fits(cs[hi - 1], data, start, cfg)
    ensures NoneFits(cs, lo, hi, data, start, cfg)
  {
  }

  /** Data is accepted exactly when there are parts, labels of the right size if labeled, and bins for all parts. */
  lemma DataErrorIff(data: AlgData, start: nat, cfg: Config)
    ensures DataError(data, start, cfg) == None
            <==> Parts(data) != [] && WellFormed(data, cfg.labelSize) && start + |Parts(data)| <= cfg.binsPerBundle
  {
    if Parts(data) != [] && start + |Parts(data)| <= cfg.binsPerBundle {
      assert start < cfg.binsPerBundle;
    }
  }

  /** First fit from the back: the chosen bundle fits and no later one does; None means that none fits. */
  lemma {:induction false} PlaceIsLastFit(cs: seq<Contents>, n: nat, data: AlgData, start: nat, cfg: Config)
    requires AllSized(cs, cfg) && n <= |cs|
    ensures var r := PlaceBelow(cs, n, data, start, cfg);
            && (r.Some? ==> Fits(cs[r.value], data, start, cfg))
            && NoneFits(cs, if r.Some? then r.value + 1 else 0, n, data, start, cfg)
  {
    if n > 0 && !Fits(cs[n - 1], data, start, cfg) {
      PlaceIsLastFit(cs, n - 1, data, start, cfg);
      var r := PlaceBelow(cs, n - 1, data, start, cfg);
      NoneFitsNext(cs, if r.Some? then r.value + 1 else 0, n, data, start, cfg);
    }
  }

  /** The bundle has room for the data: no touched bin would reach max_bin_size and, if labeled, no part is there. */
  predicate RoomFor(c: Contents, data: AlgData, start: nat, cfg: Config) {
    HasRoom(c, Parts(data), start, cfg.labelSize, cfg.maxBinSize)
  }

  lemma FitsIff(c: Contents, data: AlgData, start: nat, cfg: Config)
    requires Sized(c, cfg) && WellFormed(data, cfg.labelSize)
    ensures Fits(c, data, start, cfg) <==> RoomFor(c, data, start, cfg)
  {
    InsertOutcomeIff(data, c, cfg.labelSize, cfg.binsPerBundle, start, cfg.maxBinSize);
  }

  function InsertOne(cs: seq<Contents>, data: AlgData, start: nat, cfg: Config): (r: seq<Contents>)
    requires AllSized(cs, cfg) && DataError(data, start, cfg) == None
    ensures AllSized(r, cfg)
  {
    var place := Place(cs, data, start, cfg);
    if place.Some? then
      cs[place.value := Inserted(cs[place.value], Parts(data), start)]
    else
      cs + [Inserted(EmptyContents(cfg.binsPerBundle, cfg.labelSize), Parts(data), start)]
  }

  lemma PlacedAt(cs: seq<Contents>, data: AlgData, start: nat, cfg: Config, i: nat)
    requires AllSized(cs, cfg) && DataError(data, start, cfg) == None && Place(cs, data, start, cfg) == Some(i)
    ensures InsertOne(cs, data, start, cfg) == cs[i := Inserted(cs[i], Parts(data), start)]
  {
  }

  predicate IsLastRoom(cs: seq<Contents>, i: nat, data: AlgData, start: nat, cfg: Config) {
    i < |cs| && RoomFor(cs[i], data, start, cfg) && forall j :: i < j < |cs| ==> !RoomFor(cs[j], data, start, cfg)
  }

  /** The last bundle with room takes the data; a bundle is added exactly when none has room. */
  lemma FreshBundleIff(cs: seq<Contents>, data: AlgData, start: nat, cfg: Config)
    requires AllSized(cs, cfg) && DataError(data, start, cfg) == None
    ensures var r := InsertOne(cs, data, start, cfg);
            && (|r| == |cs| + 1 <==> forall i :: 0 <= i < |cs| ==> !RoomFor(cs[i], data, start, cfg))
            && (|r| == |cs| + 1 ==>
                  r == cs + [Inserted(EmptyContents(cfg.binsPerBundle, cfg.labelSize), Parts(data), start)])
            && (|r| != |cs| + 1 ==> exists i: nat :: IsLastRoom(cs, i, data, start, cfg)
                                                && r == cs[i := Inserted(cs[i], Parts(data), start)])
  {
    forall i | 0 <= i < |cs| ensures Fits(cs[i], data, start, cfg) <==> RoomFor(cs[i], data, start, cfg) {
      FitsIff(cs[i], data, start, cfg);
    }
    PlaceIsLastFit(cs, |cs|, data, start, cfg);
    var place := Place(cs, data, start, cfg);
    if place.Some? {
      assert IsLastRoom(cs, place.value, data, start, cfg);
    }
  }

  predicate TasksInField(tasks: seq<Task>, p: nat) {
    forall k :: 0 <= k < |tasks| ==> PartsInField(Parts(tasks[k].data), p)
  }

  /** A fresh bundle never rejects data that some bundle could take. */
  lemma FreshAccepts(data: AlgData, start: nat, cfg: Config)
    requires DataError(data, start, cfg) == None
    ensures Outcome(EmptyContents(cfg.binsPerBundle, cfg.labelSize), data, start, cfg) == Ok(1)
  {
    var c := EmptyContents(cfg.binsPerBundle, cfg.labelSize);
    assert AllAbsent(c.items, Parts(data), start);
    LargestInEmpty(cfg.binsPerBundle, start, |Parts(data)|);
  }

  /** What a fresh bundle answers is decided by the data alone. */
  lemma FreshOutcome(data: AlgData, start: nat, cfg: Config)
    ensures var outcome := Outcome(EmptyContents(cfg.binsPerBundle, cfg.labelSize), data, start, cfg);
            DataError(data, start, cfg) == if outcome.Err? then Some(BundleFailed(outcome.error))
                                           else if outcome.value < 0 then Some(FreshBundleRejects) else None
    ensures var outcome := Outcome(EmptyContents(cfg.binsPerBundle, cfg.labelSize), data, start, cfg);
            outcome.Ok? ==> outcome.value == 1 || outcome.value == -1
  {
    if DataError(data, start, cfg) == None {
      FreshAccepts(data, start, cfg);
    }
  }

  lemma LargestInEmpty(numBins: nat, start: nat, n: nat)
    requires start + n <= numBins && n > 0
    ensures LargestAfter(EmptyContents(numBins, 0).items, start, n) == 1
  {
  }

  /** The contents after one worker went over its list, and the exception that ended it early. */
  function InsertRun(cs: seq<Contents>, tasks: seq<Task>, index: nat,
                     cfg: Config): (r: (seq<Contents>, Option<WorkerError>))
    requires AllSized(cs, cfg) && ConfigOk(cfg)
    ensures AllSized(r.0, cfg)
  {
    if tasks == [] then (cs, None)
    else InsertStep(InsertRun(cs, tasks[..|tasks| - 1], index, cfg), tasks[|tasks| - 1], index, cfg)
  }

  function InsertStep(before: (seq<Contents>, Option<WorkerError>), task: Task, index: nat, cfg: Config):
    (r: (seq<Contents>, Option<WorkerError>))
    requires AllSized(before.0, cfg) && ConfigOk(cfg)
    ensures AllSized(r.0, cfg)
  {
    var start := BinIdx(task.cuckooIdx, cfg);
    if before.1.Some? || BundleIdx(task.cuckooIdx, cfg) != index then before
    else if DataError(task.data, start, cfg).Some? then (before.0, DataError(task.data, start, cfg))
    else (InsertOne(before.0, task.data, start, cfg), None)
  }

  /** The bundle that takes the data, fresh or not, does not reject it. */
  lemma ChosenTakes(cs: seq<Contents>, data: AlgData, start: nat, cfg: Config) returns (i: nat, chosen: Contents)
    requires AllSized(cs, cfg) && DataError(data, start, cfg) == None
    ensures i <= |cs|
    ensures (if i < |cs| then chosen == cs[i] else chosen == EmptyContents(cfg.binsPerBundle, cfg.labelSize))
    ensures InsertOne(cs, data, start, cfg)
            == (if i < |cs| then cs[i := Inserted(chosen, Parts(data), start)]
                else cs + [Inserted(chosen, Parts(data), start)])
    ensures cfg.labelSize > 0 ==> AllAbsent(chosen.items, Parts(data), start)
    ensures 0 < LargestAfter(chosen.items, start, |Parts(data)|) <= Cap(cfg)
  {
    var place := Place(cs, data, start, cfg);
    PlaceIsLastFit(cs, |cs|, data, start, cfg);
    if place.Some? {
      i, chosen := place.value, cs[place.value];
    } else {
      i, chosen := |cs|, EmptyContents(cfg.binsPerBundle, cfg.labelSize);
      FreshAccepts(data, start, cfg);
    }
  }

  lemma InsertOneSound(cs: seq<Contents>, data: AlgData, start: nat, cfg: Config)
    requires AllSized(cs, cfg) && AllSound(cs, cfg) && DataError(data, start, cfg) == None
    requires PartsInField(Parts(data), cfg.p)
    ensures AllSound(InsertOne(cs, data, start, cfg), cfg)
  {
    EmptySound(cfg.binsPerBundle, cfg.labelSize, cfg.p);
    var i, chosen := ChosenTakes(cs, data, start, cfg);
    InsertedSound(chosen, Parts(data), start, cfg.binsPerBundle, cfg.labelSize, cfg.p);
    assert IsSound(Inserted(chosen, Parts(data), start), cfg);
  }

  /** Insertion keeps labeled bins free of repeats and every label bin aligned with its item bin. */
  lemma {:induction false} InsertionSound(cs: seq<Contents>, tasks: seq<Task>, index: nat, cfg: Config)
    requires AllSized(cs, cfg) && AllSound(cs, cfg) && ConfigOk(cfg) && TasksInField(tasks, cfg.p)
    ensures AllSound(InsertRun(cs, tasks, index, cfg).0, cfg)
  {
    if tasks != [] {
      var front, t := tasks[..|tasks| - 1], tasks[|tasks| - 1];
      InsertionSound(cs, front, index, cfg);
      var before, start := InsertRun(cs, front, index, cfg), BinIdx(t.cuckooIdx, cfg);
      if before.1 == None && BundleIdx(t.cuckooIdx, cfg) == index && DataError(t.data, start, cfg) == None {
        InsertOneSound(before.0, t.data, start, cfg);
      }
    }
  }

  // ---------- Conservation ----------

  /** The copies of x that bin b holds, over the first n bundles of an index. */
  function Copies(cs: seq<Contents>, n: nat, b: nat, x: nat): nat
    requires n <= |cs|
  {
    if n == 0 then 0 else Copies(cs, n - 1, b, x) + InBin(cs[n - 1], b, x)
  }

  function InBin(c: Contents, b: nat, x: nat): nat {
    if b < |c.items| then multiset(c.items[b])[x] else 0
  }

  /** The multiplicity of x in the union of bin b over all bundles of an index. */
  function Total(cs: seq<Contents>, b: nat, x: nat): nat {
    Copies(cs, |cs|, b, x)
  }

  lemma {:induction false} CopiesAgree(cs: seq<Contents>, ds: seq<Contents>, n: nat, b: nat, x: nat)
    requires n <= |cs| && n <= |ds| && forall i :: 0 <= i < n ==> cs[i] == ds[i]
    ensures Copies(cs, n, b, x) == Copies(ds, n, b, x)
  {
    if n > 0 {
      CopiesAgree(cs, ds, n - 1, b, x);
    }
  }

  lemma {:induction false} CopiesUpdate(cs: seq<Contents>, n: nat, i: nat, c: Contents, b: nat, x: nat)
    requires i < n <= |cs|
    ensures InBin(cs[i], b, x) <= Copies(cs, n, b, x)
    ensures Copies(cs[i := c], n, b, x) == Copies(cs, n, b, x) - InBin(cs[i], b, x) + InBin(c, b, x)
  {
    if i == n - 1 {
      CopiesAgree(cs[i := c], cs, i, b, x);
    } else {
      CopiesUpdate(cs, n - 1, i, c, b, x);
    }
  }

  lemma InsertOneConserves(cs: seq<Contents>, data: AlgData, start: nat, cfg: Config, b: nat, x: nat)
    requires AllSized(cs, cfg) && DataError(data, start, cfg) == None && b < cfg.binsPerBundle
    ensures Total(InsertOne(cs, data, start, cfg), b, x) == Total(cs, b, x) + Given(Parts(data), start, b)[x]
  {
    var i, chosen := ChosenTakes(cs, data, start, cfg);
    InsertedCounts(chosen.items, Parts(data), start, b);
    var d := Inserted(chosen, Parts(data), start);
    if i < |cs| {
      CopiesUpdate(cs, |cs|, i, d, b, x);
    } else {
      CopiesAgree(cs + [d], cs, |cs|, b, x);
    }
  }

  /** How often the tasks send x to bin b of one bundle index. */
  function Sent(tasks: seq<Task>, index: nat, cfg: Config, b: nat, x: nat): nat
    requires ConfigOk(cfg)
  {
    if tasks == [] then 0
    else
      var t := tasks[|tasks| - 1];
      Sent(tasks[..|tasks| - 1], index, cfg, b, x)
      + (if BundleIdx(t.cuckooIdx, cfg) == index then Given(Parts(t.data), BinIdx(t.cuckooIdx, cfg), b)[x] else 0)
  }

  /** Per bin, the bundles of an index gain exactly the parts sent there. */
  lemma {:induction false} InsertionConserves(cs: seq<Contents>, tasks: seq<Task>, index: nat, cfg: Config, b: nat,
                                              x: nat)
    requires AllSized(cs, cfg) && ConfigOk(cfg) && b < cfg.binsPerBundle
    requires InsertRun(cs, tasks, index, cfg).1 == None
    ensures Total(InsertRun(cs, tasks, index, cfg).0, b, x) == Total(cs, b, x) + Sent(tasks, index, cfg, b, x)
  {
    if tasks != [] {
      var front, t := tasks[..|tasks| - 1], tasks[|tasks| - 1];
      InsertionConserves(cs, front, index, cfg, b, x);
      if BundleIdx(t.cuckooIdx, cfg) == index {
        InsertOneConserves(InsertRun(cs, front, index, cfg).0, t.data, BinIdx(t.cuckooIdx, cfg), cfg, b, x);
      }
    }
  }

  /** A worker ends with an exception exactly when a task of its bundle index is malformed. */
  lemma {:induction false} InsertionFailsIff(cs: seq<Contents>, tasks: seq<Task>, index: nat, cfg: Config)
    requires AllSized(cs, cfg) && ConfigOk(cfg)
    ensures InsertRun(cs, tasks, index, cfg).1.Some? <==>
            exists k :: 0 <= k < |tasks| && BundleIdx(tasks[k].cuckooIdx, cfg) == index
                        && DataError(tasks[k].data, BinIdx(tasks[k].cuckooIdx, cfg), cfg).Some?
  {
    if tasks != [] {
      var front := tasks[..|tasks| - 1];
      InsertionFailsIff(cs, front, index, cfg);
      assert forall k :: 0 <= k < |front| ==> front[k] == tasks[k];
      if InsertRun(cs, front, index, cfg).1.Some? {
        var k :| 0 <= k < |front| && BundleIdx(front[k].cuckooIdx, cfg) == index
                 && DataError(front[k].data, BinIdx(front[k].cuckooIdx, cfg), cfg).Some?;
        assert tasks[k] == front[k];
      }
    }
  }

  // ---------- Bin sizes ----------

  /** The size that insertion allows for a bin. */
  function BinCap(maxBinSize: nat): nat {
    if maxBinSize > 1 then maxBinSize - 1 else 1
  }

  function Cap(cfg: Config): nat {
    BinCap(cfg.maxBinSize)
  }

  predicate Capped(cs: seq<Contents>, cap: nat) {
    forall i :: 0 <= i < |cs| ==> BinsCapped(cs[i].items, cap)
  }

  predicate BinsCapped(items: seq<seq<nat>>, cap: nat) {
    forall b :: 0 <= b < |items| ==> |items[b]| <= cap
  }

  lemma InsertedCapped(items: seq<seq<nat>>, parts: seq<ItemLabel>, start: nat, cap: nat)
    requires BinsCapped(items, cap) && start + |parts| <= |items| && LargestAfter(items, start, |parts|) <= cap
    ensures BinsCapped(InsertedItems(items, parts, start), cap)
  {
    forall b | 0 <= b < |items| ensures |InsertedItems(items, parts, start)[b]| <= cap {
      InsertedCounts(items, parts, start, b);
      if Touched(start, |parts|, b) {
        assert |items[b]| < LargestAfter(items, start, |parts|);
      }
    }
  }

  lemma CappedUpdate(cs: seq<Contents>, i: nat, c: Contents, cap: nat)
    requires Capped(cs, cap) && BinsCapped(c.items, cap) && i <= |cs|
    ensures Capped(if i < |cs| then cs[i := c] else cs + [c], cap)
  {
  }

  lemma InsertOneCapped(cs: seq<Contents>, data: AlgData, start: nat, cfg: Config)
    requires AllSized(cs, cfg) && DataError(data, start, cfg) == None && Capped(cs, Cap(cfg))
    ensures Capped(InsertOne(cs, data, start, cfg), Cap(cfg))
  {
    var i, chosen := ChosenTakes(cs, data, start, cfg);
    assert BinsCapped(chosen.items, Cap(cfg));
    InsertedCapped(chosen.items, Parts(data), start, Cap(cfg));
    CappedUpdate(cs, i, Inserted(chosen, Parts(data), start), Cap(cfg));
  }

  /** Starting from no bundles, no bin ever holds more than max(1, max_bin_size - 1) items. */
  lemma {:induction false} InsertionCapped(cs: seq<Contents>, tasks: seq<Task>, index: nat, cfg: Config)
    requires AllSized(cs, cfg) && ConfigOk(cfg) && Capped(cs, Cap(cfg))
    ensures Capped(InsertRun(cs, tasks, index, cfg).0, Cap(cfg))
  {
    if tasks != [] {
      var front, t := tasks[..|tasks| - 1], tasks[|tasks| - 1];
      InsertionCapped(cs, front, index, cfg);
      var before, start := InsertRun(cs, front, index, cfg), BinIdx(t.cuckooIdx, cfg);
      if before.1 == None && BundleIdx(t.cuckooIdx, cfg) == index && DataError(t.data, start, cfg) == None {
        InsertOneCapped(before.0, t.data, start, cfg);
      }
    }
  }

  // ---------- Inserted items stay together, with their labels ----------

  /** Bundle i holds every part of the item in its own bin, and finds the item's label parts for them. */
  predicate StoredBy(cs: seq<Contents>, i: nat, parts: seq<ItemLabel>, at: nat) {
    i < |cs| && StoresLabels(cs[i], parts, at)
  }

  lemma InsertOneStores(cs: seq<Contents>, data: AlgData, start: nat, cfg: Config)
    requires AllSized(cs, cfg) && AllSound(cs, cfg) && DataError(data, start, cfg) == None
    requires PartsInField(Parts(data), cfg.p)
    ensures exists i :: StoredBy(InsertOne(cs, data, start, cfg), i, Parts(data), start)
  {
    EmptySound(cfg.binsPerBundle, cfg.labelSize, cfg.p);
    var i, chosen := ChosenTakes(cs, data, start, cfg);
    assert i < |cs| ==> IsSound(cs[i], cfg);
    InsertedStores(chosen, Parts(data), start, cfg.binsPerBundle, cfg.labelSize, cfg.p);
    assert StoredBy(InsertOne(cs, data, start, cfg), i, Parts(data), start);
  }

  lemma InsertOneKeepsStored(cs: seq<Contents>, data: AlgData, start: nat, cfg: Config, i: nat, kept: seq<ItemLabel>,
                             at: nat)
    requires AllSized(cs, cfg) && DataError(data, start, cfg) == None && StoredBy(cs, i, kept, at)
    ensures StoredBy(InsertOne(cs, data, start, cfg), i, kept, at)
  {
    if Place(cs, data, start, cfg) == Some(i) {
      StoredSurvivesInsertion(cs[i], Parts(data), start, kept, at);
    }
  }

  /** What is stored stays stored in the same bundle, whatever is inserted later. */
  lemma {:induction false} InsertionKeepsStored(cs: seq<Contents>, tasks: seq<Task>, index: nat, cfg: Config, i: nat,
                                                kept: seq<ItemLabel>, at: nat)
    requires AllSized(cs, cfg) && ConfigOk(cfg) && StoredBy(cs, i, kept, at)
    ensures StoredBy(InsertRun(cs, tasks, index, cfg).0, i, kept, at)
  {
    if tasks != [] {
      var front, t := tasks[..|tasks| - 1], tasks[|tasks| - 1];
      InsertionKeepsStored(cs, front, index, cfg, i, kept, at);
      var before, start := InsertRun(cs, front, index, cfg), BinIdx(t.cuckooIdx, cfg);
      if before.1 == None && BundleIdx(t.cuckooIdx, cfg) == index && DataError(t.data, start, cfg) == None {
        InsertOneKeepsStored(before.0, t.data, start, cfg, i, kept, at);
      }
    }
  }

  /** After a run, each task's item is complete in one bundle and has its label there. */
  lemma {:induction false} InsertedIsStored(cs: seq<Contents>, tasks: seq<Task>, index: nat, cfg: Config, k: nat)
    requires AllSized(cs, cfg) && AllSound(cs, cfg) && ConfigOk(cfg) && TasksInField(tasks, cfg.p)
    requires InsertRun(cs, tasks, index, cfg).1 == None
    requires k < |tasks| && BundleIdx(tasks[k].cuckooIdx, cfg) == index
    ensures exists i :: StoredBy(InsertRun(cs, tasks, index, cfg).0, i, Parts(tasks[k].data),
                                 BinIdx(tasks[k].cuckooIdx, cfg))
  {
    var n := |tasks| - 1;
    var before, t := InsertRun(cs, tasks[..n], index, cfg), tasks[n];
    if k == n {
      InsertionSound(cs, tasks[..n], index, cfg);
      InsertOneStores(before.0, t.data, BinIdx(t.cuckooIdx, cfg), cfg);
    } else {
      InsertedIsStored(cs, tasks[..n], index, cfg, k);
      var parts, at := Parts(tasks[k].data), BinIdx(tasks[k].cuckooIdx, cfg);
      var i :| StoredBy(before.0, i, parts, at);
      if BundleIdx(t.cuckooIdx, cfg) == index {
        InsertOneKeepsStored(before.0, t.data, BinIdx(t.cuckooIdx, cfg), cfg, i, parts, at);
      }
      assert StoredBy(InsertRun(cs, tasks, index, cfg).0, i, parts, at);
    }
  }

  // ---------- Insertion or assignment ----------

  /**
   One bundle with overwriting on: it is asked to overwrite and, if it cannot, to insert. None means that it
   does neither; unlabeled data that it holds changes nothing.
   */
  function AssignTo(c: Contents, data: AlgData, start: nat, cfg: Config): (r: Result<Option<Contents>, BundleError>)
    requires Sized(c, cfg)
    ensures r.Ok? && r.value.Some? ==> Sized(r.value.value, cfg)
  {
    var overwritten := OverwriteOutcome(data, c, cfg.labelSize, cfg.binsPerBundle, start, false);
    if overwritten.Err? then Err(overwritten.error)
    else if overwritten.value then Ok(Some(if data.AlgItemLabel? then Overwritten(c, Parts(data), start) else c))
    else
      var largest := Outcome(c, data, start, cfg);
      if largest.Err? then Err(largest.error)
      else if 0 < largest.value < cfg.maxBinSize then Ok(Some(Inserted(c, Parts(data), start)))
      else Ok(None)
  }

  /** The bundle neither holds the data nor has room for it. */
  predicate PassesOver(c: Contents, data: AlgData, start: nat, cfg: Config)
    requires Sized(c, cfg)
  {
    && OverwriteOutcome(data, c, cfg.labelSize, cfg.binsPerBundle, start, false) == Ok(false)
    && Outcome(c, data, start, cfg).Ok? && !Fits(c, data, start, cfg)
  }

  /** The bundle that decides: the last one below n that holds the data, has room for it, or rejects it. */
  function AssignPlace(cs: seq<Contents>, n: nat, data: AlgData, start: nat, cfg: Config): (r: Option<nat>)
    requires AllSized(cs, cfg) && n <= |cs|
    ensures r.Some? ==> r.value < n
  {
    if n == 0 then None
    else if PassesOver(cs[n - 1], data, start, cfg) then AssignPlace(cs, n - 1, data, start, cfg)
    else Some(n - 1)
  }

  lemma PassesOverIff(c: Contents, data: AlgData, start: nat, cfg: Config)
    requires Sized(c, cfg)
    ensures PassesOver(c, data, start, cfg) <==> AssignTo(c, data, start, cfg) == Ok(None)
  {
  }

  lemma AssignPlaceNext(cs: seq<Contents>, i: nat, data: AlgData, start: nat, cfg: Config)
    requires AllSized(cs, cfg) && i < |cs|
    ensures AssignPlace(cs, i + 1, data, start, cfg)
            == if AssignTo(cs[i], data, start, cfg) == Ok(None) then AssignPlace(cs, i, data, start, cfg) else Some(i)
  {
    PassesOverIff(cs[i], data, start, cfg);
  }

  /** No bundle from lo on and below hi does anything with the data. */
  predicate NoneTakes(cs: seq<Contents>, lo: nat, hi: nat, data: AlgData, start: nat, cfg: Config)
    requires AllSized(cs, cfg) && hi <= |cs|
  {
    forall j :: lo <= j < hi ==> AssignTo(cs[j], data, start, cfg) == Ok(None)
  }

  lemma NoneTakesNext(cs: seq<Contents>, lo: nat, hi: nat, data: AlgData, start: nat, cfg: Config)
    requires AllSized(cs, cfg) && 0 < hi <= |cs| && NoneTakes(cs, lo, hi - 1, data, start, cfg)
    requires AssignTo(cs[hi - 1], data, start, cfg) == Ok(None)
    ensures NoneTakes(cs, lo, hi, data, start, cfg)
  {
    forall j | lo <= j < hi ensures AssignTo(cs[j], data, start, cfg) == Ok(None) {
      if j == hi - 1 {
        assert cs[j] == cs[hi - 1];
      }
    }
  }

  /** It decides, and no later bundle does; None means that all pass the data over. */
  lemma {:induction false} AssignPlaceIsLast(cs: seq<Contents>, n: nat, data: AlgData, start: nat, cfg: Config)
    requires AllSized(cs, cfg) && n <= |cs|
    ensures var r := AssignPlace(cs, n, data, start, cfg);
            && (r.Some? ==> AssignTo(cs[r.value], data, start, cfg) != Ok(None))
            && NoneTakes(cs, if r.Some? then r.value + 1 else 0, n, data, start, cfg)
  {
    if n > 0 {
      AssignPlaceNext(cs, n - 1, data, start, cfg);
      if AssignTo(cs[n - 1], data, start, cfg) == Ok(None) {
        AssignPlaceIsLast(cs, n - 1, data, start, cfg);
        var r := AssignPlace(cs, n - 1, data, start, cfg);
        NoneTakesNext(cs, if r.Some? then r.value + 1 else 0, n, data, start, cfg);
      }
    }
  }

  /** The worker's loop with overwriting on; unlike an insertion it never adds a bundle. */
  function AssignOne(cs: seq<Contents>, data: AlgData, start: nat, cfg: Config): (r: Result<seq<Contents>, WorkerError>)
    requires AllSized(cs, cfg)
    ensures r.Ok? ==> AllSized(r.value, cfg) && |r.value| == |cs|
  {
    var place := AssignPlace(cs, |cs|, data, start, cfg);
    if place.None? then Err(NothingToOverwrite)
    else match AssignTo(cs[place.value], data, start, cfg)
         case Err(error) => Err(BundleFailed(error))
         case Ok(None) => Err(NothingToOverwrite)
         case Ok(Some(c)) => Ok(cs[place.value := c])
  }

  /** The bundle holds all parts of data that it can overwrite. */
  predicate CanOverwrite(c: Contents, data: AlgData, start: nat, cfg: Config) {
    && HoldsEach(c, Items(Parts(data)), start)
    && (data.AlgItemLabel? ==> LabelsHaveSize(Parts(data), cfg.labelSize))
  }

  /** The bundle overwrites the data, or takes a copy of it. */
  predicate Takes(c: Contents, data: AlgData, start: nat, cfg: Config) {
    CanOverwrite(c, data, start, cfg) || (WellFormed(data, cfg.labelSize) && RoomFor(c, data, start, cfg))
  }

  /** Labels of a wrong size are always rejected, other data of the wrong form unless it is there already. */
  predicate Rejects(c: Contents, data: AlgData, start: nat, cfg: Config) {
    Parts(data) != [] && !CanOverwrite(c, data, start, cfg) && !WellFormed(data, cfg.labelSize)
  }

  /** What a bundle that takes the data becomes. */
  function Changed(c: Contents, data: AlgData, start: nat, cfg: Config): Contents
    requires Sized(c, cfg) && Takes(c, data, start, cfg)
  {
    if !CanOverwrite(c, data, start, cfg) then Inserted(c, Parts(data), start)
    else if data.AlgItemLabel? then Overwritten(c, Parts(data), start)
    else c
  }

  lemma AssignToIff(c: Contents, data: AlgData, start: nat, cfg: Config)
    requires Sized(c, cfg)
    ensures AssignTo(c, data, start, cfg).Err? <==> Rejects(c, data, start, cfg)
    ensures Takes(c, data, start, cfg) ==>
              AssignTo(c, data, start, cfg) == Ok(Some(Changed(c, data, start, cfg)))
    ensures AssignTo(c, data, start, cfg) == Ok(None)
            <==> !Takes(c, data, start, cfg) && !Rejects(c, data, start, cfg)
  {
    InsertOutcomeIff(data, c, cfg.labelSize, cfg.binsPerBundle, start, cfg.maxBinSize);
    OverwriteOutcomeIff(data, c, cfg.labelSize, cfg.binsPerBundle, start);
  }

  /** Going from the back, bundle i takes the data and no later one takes or rejects it. */
  predicate IsLastTaker(cs: seq<Contents>, i: nat, data: AlgData, start: nat, cfg: Config) {
    && i < |cs| && Takes(cs[i], data, start, cfg)
    && forall j :: i < j < |cs| ==> !Takes(cs[j], data, start, cfg) && !Rejects(cs[j], data, start, cfg)
  }

  lemma LastTakerDecides(cs: seq<Contents>, i: nat, data: AlgData, start: nat, cfg: Config)
    requires AllSized(cs, cfg) && IsLastTaker(cs, i, data, start, cfg)
    ensures AssignOne(cs, data, start, cfg) == Ok(cs[i := Changed(cs[i], data, start, cfg)])
  {
    AssignPlaceIsLast(cs, |cs|, data, start, cfg);
    AssignToIff(cs[i], data, start, cfg);
    var place := AssignPlace(cs, |cs|, data, start, cfg);
    if place.Some? {
      AssignToIff(cs[place.value], data, start, cfg);
    }
    assert AssignTo(cs[i], data, start, cfg) != Ok(None);
    assert place == Some(i);
  }

  /** An assignment succeeds exactly when some bundle takes the data before one rejects it, and changes that bundle. */
  lemma AssignmentSucceedsIff(cs: seq<Contents>, data: AlgData, start: nat, cfg: Config)
    requires AllSized(cs, cfg)
    ensures AssignOne(cs, data, start, cfg).Ok? <==> exists i: nat :: IsLastTaker(cs, i, data, start, cfg)
    ensures forall i: nat :: IsLastTaker(cs, i, data, start, cfg) ==>
              AssignOne(cs, data, start, cfg) == Ok(cs[i := Changed(cs[i], data, start, cfg)])
  {
    forall i: nat | IsLastTaker(cs, i, data, start, cfg)
      ensures AssignOne(cs, data, start, cfg) == Ok(cs[i := Changed(cs[i], data, start, cfg)])
    {
      LastTakerDecides(cs, i, data, start, cfg);
    }
    if AssignOne(cs, data, start, cfg).Ok? {
      var i := AssignPlace(cs, |cs|, data, start, cfg).value;
      PlaceIsTaker(cs, i, data, start, cfg);
    }
  }

  lemma PlaceIsTaker(cs: seq<Contents>, i: nat, data: AlgData, start: nat, cfg: Config)
    requires AllSized(cs, cfg) && AssignPlace(cs, |cs|, data, start, cfg) == Some(i)
    requires AssignOne(cs, data, start, cfg).Ok?
    ensures IsLastTaker(cs, i, data, start, cfg)
  {
    AssignPlaceIsLast(cs, |cs|, data, start, cfg);
    AssignToIff(cs[i], data, start, cfg);
    forall j | i < j < |cs| ensures !Takes(cs[j], data, start, cfg) && !Rejects(cs[j], data, start, cfg) {
      AssignToIff(cs[j], data, start, cfg);
    }
  }

  function AssignStep(before: (seq<Contents>, Option<WorkerError>), task: Task, index: nat, cfg: Config):
    (r: (seq<Contents>, Option<WorkerError>))
    requires AllSized(before.0, cfg) && ConfigOk(cfg)
    ensures AllSized(r.0, cfg)
  {
    if before.1.Some? || BundleIdx(task.cuckooIdx, cfg) != index then before
    else
      var r := AssignOne(before.0, task.data, BinIdx(task.cuckooIdx, cfg), cfg);
      if r.Err? then (before.0, Some(r.error)) else (r.value, None)
  }

  /** The worker with overwriting on. */
  function AssignRun(cs: seq<Contents>, tasks: seq<Task>, index: nat,
                     cfg: Config): (r: (seq<Contents>, Option<WorkerError>))
    requires AllSized(cs, cfg) && ConfigOk(cfg)
    ensures AllSized(r.0, cfg)
  {
    if tasks == [] then (cs, None)
    else AssignStep(AssignRun(cs, tasks[..|tasks| - 1], index, cfg), tasks[|tasks| - 1], index, cfg)
  }

  ghost predicate NobodyTakes(cs: seq<Contents>, task: Task, index: nat, cfg: Config)
    requires ConfigOk(cfg)
  {
    && BundleIdx(task.cuckooIdx, cfg) == index
    && !exists i: nat :: IsLastTaker(cs, i, task.data, BinIdx(task.cuckooIdx, cfg), cfg)
  }

  /** No bundle that the tasks before task k leave takes its item. */
  ghost predicate StuckAt(cs: seq<Contents>, tasks: seq<Task>, k: nat, index: nat, cfg: Config)
    requires AllSized(cs, cfg) && ConfigOk(cfg) && k < |tasks|
  {
    NobodyTakes(AssignRun(cs, tasks[..k], index, cfg).0, tasks[k], index, cfg)
  }

  lemma AssignStepFailsIff(before: seq<Contents>, task: Task, index: nat, cfg: Config)
    requires AllSized(before, cfg) && ConfigOk(cfg)
    ensures AssignStep((before, None), task, index, cfg).1.Some? <==> NobodyTakes(before, task, index, cfg)
  {
    AssignmentSucceedsIff(before, task.data, BinIdx(task.cuckooIdx, cfg), cfg);
  }

  /** A run with overwriting on ends with an exception exactly when it comes to an item that no bundle takes. */
  lemma {:induction false} AssignmentFailsIff(cs: seq<Contents>, tasks: seq<Task>, index: nat, cfg: Config)
    requires AllSized(cs, cfg) && ConfigOk(cfg)
    ensures AssignRun(cs, tasks, index, cfg).1.Some? <==>
            exists k :: 0 <= k < |tasks| && StuckAt(cs, tasks, k, index, cfg)
  {
    if tasks != [] {
      var n := |tasks| - 1;
      var front, before := tasks[..n], AssignRun(cs, tasks[..n], index, cfg);
      AssignmentFailsIff(cs, front, index, cfg);
      forall k | 0 <= k < n ensures StuckAt(cs, tasks, k, index, cfg) <==> StuckAt(cs, front, k, index, cfg) {
        assert front[..k] == tasks[..k];
      }
      if before.1 == None {
        AssignStepFailsIff(before.0, tasks[n], index, cfg);
        assert AssignRun(cs, tasks, index, cfg).1.Some? <==> StuckAt(cs, tasks, n, index, cfg);
      } else {
        var k :| 0 <= k < n && StuckAt(cs, front, k, index, cfg);
        assert StuckAt(cs, tasks, k, index, cfg);
      }
    }
  }

  /** One bundle has the data's labels afterwards, every bundle is sound, and no other bundle changed. */
  ghost predicate AssignedWell(cs: seq<Contents>, after: seq<Contents>, i: nat, data: AlgData, start: nat,
                               cfg: Config) {
    && i < |cs| == |after| && AllSound(after, cfg)
    && (forall j :: 0 <= j < |cs| && j != i ==> after[j] == cs[j])
    && (data.AlgItemLabel? ==> StoresLabels(after[i], Parts(data), start))
  }

  /** The bundle has the data's labels and is sound. */
  ghost predicate HasData(c: Contents, data: AlgData, start: nat, cfg: Config) {
    IsSound(c, cfg) && (data.AlgItemLabel? ==> StoresLabels(c, Parts(data), start))
  }

  lemma OverwriteStores(c: Contents, data: AlgData, start: nat, cfg: Config)
    requires Sized(c, cfg) && IsSound(c, cfg) && PartsInField(Parts(data), cfg.p) && data.AlgItemLabel?
    requires OverwriteOutcome(data, c, cfg.labelSize, cfg.binsPerBundle, start, false) == Ok(true)
    ensures HasData(Overwritten(c, Parts(data), start), data, start, cfg)
  {
    OverwrittenSound(c, Parts(data), start, cfg.binsPerBundle, cfg.labelSize, cfg.p);
    OverwrittenStores(c, Parts(data), start, cfg.binsPerBundle, cfg.labelSize, cfg.p);
  }

  lemma InsertStores(c: Contents, data: AlgData, start: nat, cfg: Config)
    requires Sized(c, cfg) && IsSound(c, cfg) && PartsInField(Parts(data), cfg.p) && Fits(c, data, start, cfg)
    ensures HasData(Inserted(c, Parts(data), start), data, start, cfg)
  {
    InsertedSound(c, Parts(data), start, cfg.binsPerBundle, cfg.labelSize, cfg.p);
    InsertedStores(c, Parts(data), start, cfg.binsPerBundle, cfg.labelSize, cfg.p);
  }

  lemma AssignToStores(c: Contents, data: AlgData, start: nat, cfg: Config)
    requires Sized(c, cfg) && IsSound(c, cfg) && PartsInField(Parts(data), cfg.p)
    requires AssignTo(c, data, start, cfg).Ok? && AssignTo(c, data, start, cfg).value.Some?
    ensures HasData(AssignTo(c, data, start, cfg).value.value, data, start, cfg)
  {
    if OverwriteOutcome(data, c, cfg.labelSize, cfg.binsPerBundle, start, false) != Ok(true) {
      InsertStores(c, data, start, cfg);
    } else if data.AlgItemLabel? {
      OverwriteStores(c, data, start, cfg);
    }
  }

  /** A successful assignment leaves the new labels in exactly one changed bundle. */
  lemma AssignmentStores(cs: seq<Contents>, data: AlgData, start: nat, cfg: Config) returns (i: nat)
    requires AllSized(cs, cfg) && AllSound(cs, cfg) && PartsInField(Parts(data), cfg.p)
    requires AssignOne(cs, data, start, cfg).Ok?
    ensures AssignedWell(cs, AssignOne(cs, data, start, cfg).value, i, data, start, cfg)
  {
    i := AssignPlace(cs, |cs|, data, start, cfg).value;
    assert Sized(cs[i], cfg) && IsSound(cs[i], cfg);
    AssignToStores(cs[i], data, start, cfg);
  }

  /** Assignment keeps every bundle sound over a whole run. */
  lemma {:induction false} AssignmentSound(cs: seq<Contents>, tasks: seq<Task>, index: nat, cfg: Config)
    requires AllSized(cs, cfg) && AllSound(cs, cfg) && ConfigOk(cfg) && TasksInField(tasks, cfg.p)
    ensures AllSound(AssignRun(cs, tasks, index, cfg).0, cfg)
  {
    if tasks != [] {
      var front, t := tasks[..|tasks| - 1], tasks[|tasks| - 1];
      AssignmentSound(cs, front, index, cfg);
      var before, start := AssignRun(cs, front, index, cfg), BinIdx(t.cuckooIdx, cfg);
      if before.1 == None && BundleIdx(t.cuckooIdx, cfg) == index && AssignOne(before.0, t.data, start, cfg).Ok? {
        var i := AssignmentStores(before.0, t.data, start, cfg);
        assert AssignedWell(before.0, AssignOne(before.0, t.data, start, cfg).value, i, t.data, start, cfg);
      }
    }
  }

  /** Other items keep their labels while the worker runs with overwriting on. */
  lemma AssignOneKeepsStored(cs: seq<Contents>, data: AlgData, start: nat, cfg: Config, i: nat, kept: seq<ItemLabel>,
                             at: nat)
    requires AllSized(cs, cfg) && StoredBy(cs, i, kept, at)
    requires Apart(Items(Parts(data)), start, Items(kept), at) && AssignOne(cs, data, start, cfg).Ok?
    ensures StoredBy(AssignOne(cs, data, start, cfg).value, i, kept, at)
  {
    if AssignPlace(cs, |cs|, data, start, cfg) == Some(i) {
      AssignToKeepsStored(cs[i], data, start, cfg, kept, at);
    }
  }

  lemma AssignToKeepsStored(c: Contents, data: AlgData, start: nat, cfg: Config, kept: seq<ItemLabel>, at: nat)
    requires Sized(c, cfg) && StoresLabels(c, kept, at) && Apart(Items(Parts(data)), start, Items(kept), at)
    requires AssignTo(c, data, start, cfg).Ok? && AssignTo(c, data, start, cfg).value.Some?
    ensures StoresLabels(AssignTo(c, data, start, cfg).value.value, kept, at)
  {
    if OverwriteOutcome(data, c, cfg.labelSize, cfg.binsPerBundle, start, false) != Ok(true) {
      StoredSurvivesInsertion(c, Parts(data), start, kept, at);
    } else if data.AlgItemLabel? {
      StoredSurvivesOverwrite(c, Parts(data), start, kept, at);
    }
  }

  ghost predicate AssignedApart(task: Task, index: nat, cfg: Config, kept: seq<ItemLabel>, at: nat)
    requires ConfigOk(cfg)
  {
    BundleIdx(task.cuckooIdx, cfg) == index ==>
      Apart(Items(Parts(task.data)), BinIdx(task.cuckooIdx, cfg), Items(kept), at)
  }

  lemma AssignStepKeepsStored(before: (seq<Contents>, Option<WorkerError>), task: Task, index: nat, cfg: Config,
                              i: nat, kept: seq<ItemLabel>, at: nat)
    requires AllSized(before.0, cfg) && ConfigOk(cfg) && StoredBy(before.0, i, kept, at)
    requires AssignedApart(task, index, cfg, kept, at)
    ensures StoredBy(AssignStep(before, task, index, cfg).0, i, kept, at)
  {
    var start := BinIdx(task.cuckooIdx, cfg);
    if before.1 == None && BundleIdx(task.cuckooIdx, cfg) == index && AssignOne(before.0, task.data, start, cfg).Ok? {
      AssignOneKeepsStored(before.0, task.data, start, cfg, i, kept, at);
    }
  }

  lemma {:induction false} AssignmentKeepsStored(cs: seq<Contents>, tasks: seq<Task>, index: nat, cfg: Config, i: nat,
                                                 kept: seq<ItemLabel>, at: nat)
    requires AllSized(cs, cfg) && ConfigOk(cfg) && StoredBy(cs, i, kept, at)
    requires forall k :: 0 <= k < |tasks| ==> AssignedApart(tasks[k], index, cfg, kept, at)
    ensures StoredBy(AssignRun(cs, tasks, index, cfg).0, i, kept, at)
  {
    if tasks != [] {
      var front, t := tasks[..|tasks| - 1], tasks[|tasks| - 1];
      AssignmentKeepsStored(cs, front, index, cfg, i, kept, at);
      assert AssignedApart(tasks[|tasks| - 1], index, cfg, kept, at);
      AssignStepKeepsStored(AssignRun(cs, front, index, cfg), t, index, cfg, i, kept, at);
    }
  }

  // ---------- Removal ----------

  /** The first bundle that holds every part. */
  function FindHolder(cs: seq<Contents>, items: seq<nat>, start: nat, cfg: Config): (r: Option<nat>)
    requires AllSized(cs, cfg)
    ensures r.Some? ==> r.value < |cs| && Holder(cs[r.value], items, start, cfg)
    ensures forall j :: 0 <= j < (if r.Some? then r.value else |cs|) ==> !Holder(cs[j], items, start, cfg)
  {
    FindHolderFrom(cs, items, start, cfg, 0)
  }

  function FindHolderFrom(cs: seq<Contents>, items: seq<nat>, start: nat, cfg: Config, i: nat): (r: Option<nat>)
    requires AllSized(cs, cfg) && i <= |cs|
    ensures r.Some? ==> i <= r.value < |cs| && Holder(cs[r.value], items, start, cfg)
    ensures forall j :: i <= j < (if r.Some? then r.value else |cs|) ==> !Holder(cs[j], items, start, cfg)
    decreases |cs| - i
  {
    if i == |cs| then None
    else if Holder(cs[i], items, start, cfg) then Some(i)
    else FindHolderFrom(cs, items, start, cfg, i + 1)
  }

  predicate Holder(c: Contents, items: seq<nat>, start: nat, cfg: Config)
    requires |c.items| == cfg.binsPerBundle
  {
    FindOutcome(items, c, cfg.binsPerBundle, start, false) == Ok(true)
  }

  predicate IsEmpty(c: Contents) {
    forall b :: 0 <= b < |c.items| ==> c.items[b] == []
  }

  /** The bundles among the first n that are not empty. */
  function NonEmpty(cs: seq<Contents>, n: nat): (r: seq<Contents>)
    requires n <= |cs|
    ensures forall i :: 0 <= i < |r| ==> r[i] in cs && !IsEmpty(r[i])
  {
    if n == 0 then []
    else if IsEmpty(cs[n - 1]) then NonEmpty(cs, n - 1)
    else NonEmpty(cs, n - 1) + [cs[n - 1]]
  }

  function DropEmpty(cs: seq<Contents>): (r: seq<Contents>)
    ensures forall i :: 0 <= i < |r| ==> r[i] in cs && !IsEmpty(r[i])
  {
    NonEmpty(cs, |cs|)
  }

  /** The bundles after a removal, whether or not something was found; empty ones are dropped. */
  function RemoveOne(cs: seq<Contents>, items: seq<nat>, start: nat, cfg: Config): (r: seq<Contents>)
    requires AllSized(cs, cfg)
    ensures AllSized(r, cfg)
  {
    var holder := FindHolder(cs, items, start, cfg);
    if holder.None? then DropEmpty(cs)
    else DropEmpty(cs[holder.value := Removed(cs[holder.value], items, start)])
  }

  function RemoveRun(cs: seq<Contents>, tasks: seq<RemoveTask>, index: nat,
                     cfg: Config): (r: (seq<Contents>, Option<WorkerError>))
    requires AllSized(cs, cfg) && ConfigOk(cfg)
    ensures AllSized(r.0, cfg)
  {
    if tasks == [] then (cs, None)
    else
      RemoveStep(RemoveRun(cs, tasks[..|tasks| - 1], index, cfg), tasks[|tasks| - 1], index, cfg)
  }

  function RemoveStep(before: (seq<Contents>, Option<WorkerError>), task: RemoveTask, index: nat, cfg: Config):
    (r: (seq<Contents>, Option<WorkerError>))
    requires AllSized(before.0, cfg) && ConfigOk(cfg)
    ensures AllSized(r.0, cfg)
  {
    var start := BinIdx(task.cuckooIdx, cfg);
    if before.1.Some? || BundleIdx(task.cuckooIdx, cfg) != index then before
    else (RemoveOne(before.0, task.items, start, cfg),
          if FindHolder(before.0, task.items, start, cfg).Some? then None else Some(NothingToRemove))
  }

  lemma HolderIff(c: Contents, items: seq<nat>, start: nat, cfg: Config)
    requires Sized(c, cfg)
    ensures Holder(c, items, start, cfg) <==> HoldsEach(c, items, start)
  {
  }

  /** kept are the bundles of cs that hold an item, in their order; from says where they were. */
  ghost predicate NonEmptyOnes(kept: seq<Contents>, from: seq<nat>, cs: seq<Contents>) {
    && |from| == |kept|
    && (forall h :: 0 <= h < |from| ==> from[h] < |cs| && kept[h] == cs[from[h]] && !IsEmpty(kept[h]))
    && (forall g, h :: 0 <= g < h < |from| ==> from[g] < from[h])
    && forall i :: 0 <= i < |cs| && !IsEmpty(cs[i]) ==> i in from
  }

  lemma {:induction false} NonEmptyInOrder(cs: seq<Contents>, n: nat) returns (from: seq<nat>)
    requires n <= |cs|
    ensures NonEmptyOnes(NonEmpty(cs, n), from, cs[..n])
  {
    if n == 0 {
      return [];
    }
    from := NonEmptyInOrder(cs, n - 1);
    assert cs[..n] == cs[..n - 1] + [cs[n - 1]];
    OneMoreBundle(NonEmpty(cs, n - 1), from, cs[..n - 1], cs[n - 1]);
    if !IsEmpty(cs[n - 1]) {
      from := from + [n - 1];
    }
  }

  lemma OneMoreBundle(kept: seq<Contents>, from: seq<nat>, cs: seq<Contents>, c: Contents)
    requires NonEmptyOnes(kept, from, cs)
    ensures if IsEmpty(c) then NonEmptyOnes(kept, from, cs + [c])
            else NonEmptyOnes(kept + [c], from + [|cs|], cs + [c])
  {
    var all := cs + [c];
    assert all[|cs|] == c && forall i :: 0 <= i < |cs| ==> all[i] == cs[i];
    assert (from + [|cs|])[|from|] == |cs| && forall i :: i in from ==> i in from + [|cs|];
  }

  /** Bundle i holds each part, and no earlier one does. */
  predicate IsFirstHolder(cs: seq<Contents>, i: nat, items: seq<nat>, start: nat) {
    i < |cs| && HoldsEach(cs[i], items, start) && forall j :: 0 <= j < i ==> !HoldsEach(cs[j], items, start)
  }

  /** The first holder alone loses the parts, the empty bundles go, and the others keep their order. */
  lemma FirstHolderLoses(cs: seq<Contents>, items: seq<nat>, start: nat, cfg: Config) returns (from: seq<nat>)
    requires AllSized(cs, cfg)
    ensures forall i: nat :: IsFirstHolder(cs, i, items, start) ==>
              NonEmptyOnes(RemoveOne(cs, items, start, cfg), from, cs[i := Removed(cs[i], items, start)])
    ensures (forall i :: 0 <= i < |cs| ==> !HoldsEach(cs[i], items, start)) ==>
              NonEmptyOnes(RemoveOne(cs, items, start, cfg), from, cs)
  {
    FindHolderIff(cs, items, start, cfg);
    var holder := FindHolder(cs, items, start, cfg);
    var mid := if holder.None? then cs else cs[holder.value := Removed(cs[holder.value], items, start)];
    from := NonEmptyInOrder(mid, |mid|);
    assert mid[..|mid|] == mid;
  }

  lemma FindHolderIff(cs: seq<Contents>, items: seq<nat>, start: nat, cfg: Config)
    requires AllSized(cs, cfg)
    ensures forall i: nat :: IsFirstHolder(cs, i, items, start) ==> FindHolder(cs, items, start, cfg) == Some(i)
    ensures (forall i :: 0 <= i < |cs| ==> !HoldsEach(cs[i], items, start)) ==>
              FindHolder(cs, items, start, cfg) == None
  {
    var holder := FindHolder(cs, items, start, cfg);
    if holder.Some? {
      HolderIff(cs[holder.value], items, start, cfg);
    }
    forall i: nat | IsFirstHolder(cs, i, items, start) ensures holder == Some(i) {
      HolderIff(cs[i], items, start, cfg);
    }
  }

  /** No bundle holds all parts of the task's item. */
  predicate NobodyHolds(cs: seq<Contents>, task: RemoveTask, index: nat, cfg: Config)
    requires ConfigOk(cfg)
  {
    && BundleIdx(task.cuckooIdx, cfg) == index
    && forall i :: 0 <= i < |cs| ==> !HoldsEach(cs[i], task.items, BinIdx(task.cuckooIdx, cfg))
  }

  /** A run of removals ends with an exception exactly when it comes to an item that no bundle holds. */
  lemma {:induction false} RemovalFailsIff(cs: seq<Contents>, tasks: seq<RemoveTask>, index: nat, cfg: Config)
    requires AllSized(cs, cfg) && ConfigOk(cfg)
    ensures RemoveRun(cs, tasks, index, cfg).1.Some? <==>
            exists k :: 0 <= k < |tasks| && NobodyHolds(RemoveRun(cs, tasks[..k], index, cfg).0, tasks[k], index, cfg)
  {
    if tasks != [] {
      var n := |tasks| - 1;
      var front, before := tasks[..n], RemoveRun(cs, tasks[..n], index, cfg);
      RemovalFailsIff(cs, front, index, cfg);
      forall i | 0 <= i < |before.0|
        ensures Holder(before.0[i], tasks[n].items, BinIdx(tasks[n].cuckooIdx, cfg), cfg)
                <==> HoldsEach(before.0[i], tasks[n].items, BinIdx(tasks[n].cuckooIdx, cfg))
      {
        HolderIff(before.0[i], tasks[n].items, BinIdx(tasks[n].cuckooIdx, cfg), cfg);
      }
      assert forall k :: 0 <= k <= n ==> front[..k] == tasks[..k];
      if before.1.Some? {
        var k :| 0 <= k < n && NobodyHolds(RemoveRun(cs, front[..k], index, cfg).0, front[k], index, cfg);
        assert NobodyHolds(RemoveRun(cs, tasks[..k], index, cfg).0, tasks[k], index, cfg);
      } else {
        forall k | 0 <= k < n ensures !NobodyHolds(RemoveRun(cs, tasks[..k], index, cfg).0, tasks[k], index, cfg) {
          assert front[k] == tasks[k];
        }
      }
    }
  }

  /** Removing an item that some bundle stores succeeds, and takes one copy of each part away. */
  lemma StoredCanBeRemoved(cs: seq<Contents>, i: nat, parts: seq<ItemLabel>, task: RemoveTask, index: nat, cfg: Config)
    requires AllSized(cs, cfg) && ConfigOk(cfg) && BundleIdx(task.cuckooIdx, cfg) == index && parts != []
    requires StoredBy(cs, i, parts, BinIdx(task.cuckooIdx, cfg)) && task.items == Items(parts)
    ensures RemoveRun(cs, [task], index, cfg).1 == None
    ensures forall k :: 0 <= k < |parts| ==>
              var b := BinIdx(task.cuckooIdx, cfg) + k;
              b < cfg.binsPerBundle
              && Total(RemoveRun(cs, [task], index, cfg).0, b, parts[k].item) == Total(cs, b, parts[k].item) - 1
  {
    var start := BinIdx(task.cuckooIdx, cfg);
    assert [task][..0] == [];
    assert HoldsEach(cs[i], task.items, start);
    RemovalFailsIff(cs, [task], index, cfg);
    forall k | 0 <= k < |parts|
      ensures var b := start + k;
              b < cfg.binsPerBundle
              && Total(RemoveRun(cs, [task], index, cfg).0, b, parts[k].item) == Total(cs, b, parts[k].item) - 1
    {
      RemoveOneConserves(cs, task.items, start, cfg, start + k, parts[k].item);
      assert Taken(task.items, start, start + k)[parts[k].item] == 1;
    }
  }

  lemma {:induction false} NonEmptyConserves(cs: seq<Contents>, n: nat, b: nat, x: nat)
    requires n <= |cs|
    ensures Total(NonEmpty(cs, n), b, x) == Copies(cs, n, b, x)
  {
    if n > 0 {
      var rest := NonEmpty(cs, n - 1);
      NonEmptyConserves(cs, n - 1, b, x);
      CopiesAgree(rest + [cs[n - 1]], rest, |rest|, b, x);
    }
  }

  lemma RemoveOneConserves(cs: seq<Contents>, items: seq<nat>, start: nat, cfg: Config, b: nat, x: nat)
    requires AllSized(cs, cfg) && FindHolder(cs, items, start, cfg).Some? && b < cfg.binsPerBundle
    ensures Total(RemoveOne(cs, items, start, cfg), b, x) == Total(cs, b, x) - Taken(items, start, b)[x]
  {
    var i := FindHolder(cs, items, start, cfg).value;
    RemovedCounts(cs[i].items, items, start, b);
    CopiesUpdate(cs, |cs|, i, Removed(cs[i], items, start), b, x);
    NonEmptyConserves(cs[i := Removed(cs[i], items, start)], |cs|, b, x);
  }

  /** How often the tasks take x from bin b of one bundle index. */
  function Withdrawn(tasks: seq<RemoveTask>, index: nat, cfg: Config, b: nat, x: nat): nat
    requires ConfigOk(cfg)
  {
    if tasks == [] then 0
    else
      var t := tasks[|tasks| - 1];
      Withdrawn(tasks[..|tasks| - 1], index, cfg, b, x)
      + (if BundleIdx(t.cuckooIdx, cfg) == index then Taken(t.items, BinIdx(t.cuckooIdx, cfg), b)[x] else 0)
  }

  /** A successful removal takes exactly one copy of each part, and there was one to take. */
  lemma {:induction false} RemovalConserves(cs: seq<Contents>, tasks: seq<RemoveTask>, index: nat, cfg: Config, b: nat,
                                            x: nat)
    requires AllSized(cs, cfg) && ConfigOk(cfg) && b < cfg.binsPerBundle
    requires RemoveRun(cs, tasks, index, cfg).1 == None
    ensures Total(RemoveRun(cs, tasks, index, cfg).0, b, x) + Withdrawn(tasks, index, cfg, b, x) == Total(cs, b, x)
  {
    if tasks != [] {
      var front, t := tasks[..|tasks| - 1], tasks[|tasks| - 1];
      RemovalConserves(cs, front, index, cfg, b, x);
      if BundleIdx(t.cuckooIdx, cfg) == index {
        RemoveOneConserves(RemoveRun(cs, front, index, cfg).0, t.items, BinIdx(t.cuckooIdx, cfg), cfg, b, x);
      }
    }
  }

  lemma RemoveOneSound(cs: seq<Contents>, items: seq<nat>, start: nat, cfg: Config)
    requires AllSized(cs, cfg) && AllSound(cs, cfg)
    ensures AllSound(RemoveOne(cs, items, start, cfg), cfg)
  {
    var holder := FindHolder(cs, items, start, cfg);
    var mid := cs;
    if holder.Some? {
      assert IsSound(cs[holder.value], cfg);
      RemovedSound(cs[holder.value], items, start, cfg.binsPerBundle, cfg.labelSize, cfg.p);
      mid := cs[holder.value := Removed(cs[holder.value], items, start)];
    }
    assert AllSound(mid, cfg);
    assert RemoveOne(cs, items, start, cfg) == DropEmpty(mid);
  }

  /** Removal keeps every bundle sound. */
  lemma {:induction false} RemovalSound(cs: seq<Contents>, tasks: seq<RemoveTask>, index: nat, cfg: Config)
    requires AllSized(cs, cfg) && AllSound(cs, cfg) && ConfigOk(cfg)
    ensures AllSound(RemoveRun(cs, tasks, index, cfg).0, cfg)
  {
    if tasks != [] {
      var front, t := tasks[..|tasks| - 1], tasks[|tasks| - 1];
      RemovalSound(cs, front, index, cfg);
      RemoveOneSound(RemoveRun(cs, front, index, cfg).0, t.items, BinIdx(t.cuckooIdx, cfg), cfg);
    }
  }

  // ---------- Removal keeps other items ----------

  lemma {:induction false} NonEmptyStays(cs: seq<Contents>, n: nat, i: nat)
    requires i < n <= |cs| && !IsEmpty(cs[i])
    ensures exists j :: 0 <= j < |NonEmpty(cs, n)| && NonEmpty(cs, n)[j] == cs[i]
  {
    if i == n - 1 {
      assert NonEmpty(cs, n)[|NonEmpty(cs, n - 1)|] == cs[i];
    } else {
      NonEmptyStays(cs, n - 1, i);
      var j :| 0 <= j < |NonEmpty(cs, n - 1)| && NonEmpty(cs, n - 1)[j] == cs[i];
      assert NonEmpty(cs, n)[j] == cs[i];
    }
  }

  lemma RemoveOneKeepsStored(cs: seq<Contents>, items: seq<nat>, start: nat, cfg: Config, i: nat, kept: seq<ItemLabel>,
                             at: nat)
    requires AllSized(cs, cfg) && StoredBy(cs, i, kept, at) && kept != [] && Apart(items, start, Items(kept), at)
    ensures exists j :: StoredBy(RemoveOne(cs, items, start, cfg), j, kept, at)
  {
    var holder, mid := FindHolder(cs, items, start, cfg), cs;
    if holder.Some? {
      mid := cs[holder.value := Removed(cs[holder.value], items, start)];
      if holder.value == i {
        StoredSurvivesRemoval(cs[i], items, start, kept, at);
      }
    }
    assert StoresLabels(mid[i], kept, at) && kept[0].item in mid[i].items[at];
    NonEmptyStays(mid, |mid|, i);
    var j :| 0 <= j < |NonEmpty(mid, |mid|)| && NonEmpty(mid, |mid|)[j] == mid[i];
    assert StoredBy(RemoveOne(cs, items, start, cfg), j, kept, at);
  }

  /** The parts of the task differ from those kept wherever they meet in a bin of the index. */
  ghost predicate TaskApart(task: RemoveTask, index: nat, cfg: Config, kept: seq<ItemLabel>, at: nat)
    requires ConfigOk(cfg)
  {
    BundleIdx(task.cuckooIdx, cfg) == index ==> Apart(task.items, BinIdx(task.cuckooIdx, cfg), Items(kept), at)
  }

  lemma RemoveStepKeepsStored(before: (seq<Contents>, Option<WorkerError>), task: RemoveTask, index: nat, cfg: Config,
                              i: nat, kept: seq<ItemLabel>, at: nat)
    requires AllSized(before.0, cfg) && ConfigOk(cfg) && StoredBy(before.0, i, kept, at) && kept != []
    requires TaskApart(task, index, cfg, kept, at)
    ensures exists j :: StoredBy(RemoveStep(before, task, index, cfg).0, j, kept, at)
  {
    if before.1 == None && BundleIdx(task.cuckooIdx, cfg) == index {
      var start := BinIdx(task.cuckooIdx, cfg);
      RemoveOneKeepsStored(before.0, task.items, start, cfg, i, kept, at);
      var j :| StoredBy(RemoveOne(before.0, task.items, start, cfg), j, kept, at);
      assert StoredBy(RemoveStep(before, task, index, cfg).0, j, kept, at);
    } else {
      assert StoredBy(RemoveStep(before, task, index, cfg).0, i, kept, at);
    }
  }

  /** What is stored stays stored in some bundle while other items are removed. */
  lemma {:induction false} RemovalKeepsStored(cs: seq<Contents>, tasks: seq<RemoveTask>, index: nat, cfg: Config,
                                              i: nat, kept: seq<ItemLabel>, at: nat)
    requires AllSized(cs, cfg) && ConfigOk(cfg) && StoredBy(cs, i, kept, at) && kept != []
    requires forall k :: 0 <= k < |tasks| ==> TaskApart(tasks[k], index, cfg, kept, at)
    ensures exists j :: StoredBy(RemoveRun(cs, tasks, index, cfg).0, j, kept, at)
  {
    if tasks == [] {
      assert StoredBy(RemoveRun(cs, tasks, index, cfg).0, i, kept, at);
    } else {
      var front, t := tasks[..|tasks| - 1], tasks[|tasks| - 1];
      assert forall k :: 0 <= k < |front| ==> front[k] == tasks[k];
      RemovalKeepsStored(cs, front, index, cfg, i, kept, at);
      var before := RemoveRun(cs, front, index, cfg);
      var j :| StoredBy(before.0, j, kept, at);
      assert TaskApart(tasks[|tasks| - 1], index, cfg, kept, at);
      RemoveStepKeepsStored(before, t, index, cfg, j, kept, at);
      var j2 :| StoredBy(RemoveStep(before, t, index, cfg).0, j2, kept, at);
      assert StoredBy(RemoveRun(cs, tasks, index, cfg).0, j2, kept, at);
    }
  }

  /** After a removal no empty bundle is left behind. */
  lemma NoEmptyBundleLeft(cs: seq<Contents>, items: seq<nat>, start: nat, cfg: Config)
    requires AllSized(cs, cfg)
    ensures forall i :: 0 <= i < |RemoveOne(cs, items, start, cfg)| ==> !IsEmpty(RemoveOne(cs, items, start, cfg)[i])
  {
  }

  // ---------- Bin sizes under overwriting and removal ----------

  /** Overwriting changes no items, and an insertion in its place respects the same limit. */
  lemma AssignOneCapped(cs: seq<Contents>, data: AlgData, start: nat, cfg: Config)
    requires AllSized(cs, cfg) && Capped(cs, Cap(cfg)) && AssignOne(cs, data, start, cfg).Ok?
    ensures Capped(AssignOne(cs, data, start, cfg).value, Cap(cfg))
  {
    var i := AssignPlace(cs, |cs|, data, start, cfg).value;
    if OverwriteOutcome(data, cs[i], cfg.labelSize, cfg.binsPerBundle, start, false) != Ok(true) {
      InsertedCapped(cs[i].items, Parts(data), start, Cap(cfg));
    }
    CappedUpdate(cs, i, AssignTo(cs[i], data, start, cfg).value.value, Cap(cfg));
  }

  lemma {:induction false} AssignmentCapped(cs: seq<Contents>, tasks: seq<Task>, index: nat, cfg: Config)
    requires AllSized(cs, cfg) && ConfigOk(cfg) && Capped(cs, Cap(cfg))
    ensures Capped(AssignRun(cs, tasks, index, cfg).0, Cap(cfg))
  {
    if tasks != [] {
      var front, t := tasks[..|tasks| - 1], tasks[|tasks| - 1];
      AssignmentCapped(cs, front, index, cfg);
      var before, start := AssignRun(cs, front, index, cfg), BinIdx(t.cuckooIdx, cfg);
      if before.1 == None && BundleIdx(t.cuckooIdx, cfg) == index && AssignOne(before.0, t.data, start, cfg).Ok? {
        AssignOneCapped(before.0, t.data, start, cfg);
      }
    }
  }

  lemma RemovedCapped(c: Contents, items: seq<nat>, start: nat, cap: nat)
    requires BinsCapped(c.items, cap)
    ensures BinsCapped(Removed(c, items, start).items, cap)
  {
  }

  lemma {:induction false} RemovalCapped(cs: seq<Contents>, tasks: seq<RemoveTask>, index: nat, cfg: Config)
    requires AllSized(cs, cfg) && ConfigOk(cfg) && Capped(cs, Cap(cfg))
    ensures Capped(RemoveRun(cs, tasks, index, cfg).0, Cap(cfg))
  {
    if tasks != [] {
      var front, t := tasks[..|tasks| - 1], tasks[|tasks| - 1];
      RemovalCapped(cs, front, index, cfg);
      var before, start := RemoveRun(cs, front, index, cfg).0, BinIdx(t.cuckooIdx, cfg);
      var holder, mid := FindHolder(before, t.items, start, cfg), before;
      if holder.Some? {
        RemovedCapped(before[holder.value], t.items, start, Cap(cfg));
        mid := before[holder.value := Removed(before[holder.value], t.items, start)];
      }
      assert Capped(mid, Cap(cfg)) && RemoveOne(before, t.items, start, cfg) == DropEmpty(mid);
    }
  }

  // ---------- Overwritten items stay together ----------

  lemma AssignStepStores(before: (seq<Contents>, Option<WorkerError>), task: Task, index: nat, cfg: Config)
    returns (i: nat)
    requires AllSized(before.0, cfg) && AllSound(before.0, cfg) && ConfigOk(cfg)
    requires BundleIdx(task.cuckooIdx, cfg) == index && PartsInField(Parts(task.data), cfg.p) && task.data.AlgItemLabel?
    requires AssignStep(before, task, index, cfg).1 == None
    ensures StoredBy(AssignStep(before, task, index, cfg).0, i, Parts(task.data), BinIdx(task.cuckooIdx, cfg))
  {
    i := AssignmentStores(before.0, task.data, BinIdx(task.cuckooIdx, cfg), cfg);
  }

  /** After a run with overwriting on, each task's item has its new label, unless a later task touches its parts. */
  lemma {:induction false} AssignedIsStored(cs: seq<Contents>, tasks: seq<Task>, index: nat, cfg: Config, k: nat)
    requires AllSized(cs, cfg) && AllSound(cs, cfg) && ConfigOk(cfg) && TasksInField(tasks, cfg.p)
    requires AssignRun(cs, tasks, index, cfg).1 == None
    requires k < |tasks| && BundleIdx(tasks[k].cuckooIdx, cfg) == index && tasks[k].data.AlgItemLabel?
    requires forall j :: k < j < |tasks| ==>
               AssignedApart(tasks[j], index, cfg, Parts(tasks[k].data), BinIdx(tasks[k].cuckooIdx, cfg))
    ensures exists i :: StoredBy(AssignRun(cs, tasks, index, cfg).0, i, Parts(tasks[k].data),
                                 BinIdx(tasks[k].cuckooIdx, cfg))
  {
    var n := |tasks| - 1;
    var before, t := AssignRun(cs, tasks[..n], index, cfg), tasks[n];
    var after := AssignStep(before, t, index, cfg);
    assert AssignRun(cs, tasks, index, cfg) == after;
    if k == n {
      AssignmentSound(cs, tasks[..n], index, cfg);
      var i := AssignStepStores(before, t, index, cfg);
      assert StoredBy(after.0, i, Parts(tasks[k].data), BinIdx(tasks[k].cuckooIdx, cfg));
    } else {
      var parts, at := Parts(tasks[k].data), BinIdx(tasks[k].cuckooIdx, cfg);
      AssignedIsStored(cs, tasks[..n], index, cfg, k);
      var i :| StoredBy(before.0, i, parts, at);
      assert AssignedApart(tasks[n], index, cfg, parts, at);
      AssignStepKeepsStored(before, t, index, cfg, i, parts, at);
      assert StoredBy(after.0, i, parts, at);
    }
  }
}
