/**
 When a bundle can hold all parts of an item by accident.

 A bundle is asked bin by bin, so it seems to hold an item as soon as each part of the item lies in its
 own bin, whichever items these parts came with. That cannot mislead anyone about an item one of whose
 parts is shared with no other item at the same location; without such a part it can.
 */
module SharedParts {
  import opened Wrappers
  import opened ModArith
  import opened Bits
  import opened DbEncoding
  import opened BinContents
  import opened BinBundles
  import opened BundleSets
  import opened Preprocess
  import opened EndToEnd

  // ---------- Counting copies ----------

  /** Two bundles that hold x in the same bin make two copies of it. */
  lemma {:induction false} TwoHolders(cs: seq<Contents>, n: nat, i: nat, j: nat, b: nat, x: nat)
    requires i < j < n <= |cs| && InBin(cs[i], b, x) > 0 && InBin(cs[j], b, x) > 0
    ensures Copies(cs, n, b, x) >= 2
  {
    if j == n - 1 {
      OneHolder(cs, n - 1, i, b, x);
    } else {
      TwoHolders(cs, n - 1, i, j, b, x);
    }
  }

  lemma {:induction false} OneHolder(cs: seq<Contents>, n: nat, i: nat, b: nat, x: nat)
    requires i < n <= |cs| && InBin(cs[i], b, x) > 0
    ensures Copies(cs, n, b, x) >= 1
  {
    if i < n - 1 {
      OneHolder(cs, n - 1, i, b, x);
    }
  }

  /** A part that lies in a bin was sent there, and one that lies in it in two bundles was sent there twice. */
  lemma HeldMeansSent(tasks: seq<Task>, index: nat, cfg: Config, b: nat, x: nat, i: nat, j: nat)
    requires ConfigOk(cfg) && b < cfg.binsPerBundle && InsertRun([], tasks, index, cfg).1 == None
    requires var cs := InsertRun([], tasks, index, cfg).0;
             i <= j < |cs| && b < |cs[i].items| && b < |cs[j].items| && x in cs[i].items[b] && x in cs[j].items[b]
    ensures Sent(tasks, index, cfg, b, x) >= if i < j then 2 else 1
  {
    var cs := InsertRun([], tasks, index, cfg).0;
    InsertionConserves([], tasks, index, cfg, b, x);
    if i < j {
      TwoHolders(cs, |cs|, i, j, b, x);
    } else {
      OneHolder(cs, |cs|, i, b, x);
    }
  }

  lemma {:induction false} SentConcat(first: seq<Task>, second: seq<Task>, index: nat, cfg: Config, b: nat, x: nat)
    requires ConfigOk(cfg)
    ensures Sent(first + second, index, cfg, b, x) == Sent(first, index, cfg, b, x) + Sent(second, index, cfg, b, x)
  {
    if second == [] {
      assert first + second == first;
    } else {
      var n := |second| - 1;
      assert (first + second)[..|first| + n] == first + second[..n];
      SentConcat(first, second[..n], index, cfg, b, x);
    }
  }

  // ---------- What preprocessing sends ----------

  function Part(item: seq<Byte>, k: nat, params: Params): nat
    requires ParamsOk(params) && k < FeltsPerItem(params)
  {
    Pack(item, params.itemBitCount, BitsPerFelt(params.m))[k]
  }

  /** The bin of part k at a block. */
  function PartBin(block: nat, k: nat, f: nat): nat {
    MulNonNeg(block, f);
    block * f + k
  }

  lemma BlockOfBin(block: nat, other: nat, k: nat, f: nat)
    requires k < f
    ensures Touched(PartBin(other, 0, f), f, PartBin(block, k, f)) <==> other == block
  {
    if other < block {
      MulMonotone(f, other + 1, block);
    } else if block < other {
      MulMonotone(f, block + 1, other);
    }
  }

  lemma TaskPlace(e: Entry, location: nat, params: Params, cfg: Config)
    requires ParamsOk(params) && ConfigOk(cfg) && cfg.binsPerBundle == params.itemsPerBundle * FeltsPerItem(params)
    ensures var (t, n) := (TaskFor(e, location, params), params.itemsPerBundle);
            && BundleIdx(t.cuckooIdx, cfg) == location / n
            && BinIdx(t.cuckooIdx, cfg) == PartBin(location % n, 0, FeltsPerItem(params))
            && |Parts(t.data)| == FeltsPerItem(params)
            && forall k :: 0 <= k < FeltsPerItem(params) ==> Parts(t.data)[k].item == Part(e.item, k, params)
  {
    FeltsPerItemPositive(params);
    UnpackLocation(location, FeltsPerItem(params), params.itemsPerBundle);
  }

  lemma SamePlace(location: nat, at: nat, index: nat, block: nat, n: nat)
    requires n > 0 && IsPlace(at, index, block, n)
    ensures location == at <==> location / n == index && location % n == block
  {
    DivModUnique(location, location / n, location % n, n);
    DivModUnique(at, index, block, n);
  }

  lemma SentSingle(t: Task, index: nat, cfg: Config, b: nat, x: nat)
    requires ConfigOk(cfg)
    ensures Sent([t], index, cfg, b, x)
            == if BundleIdx(t.cuckooIdx, cfg) == index then Given(Parts(t.data), BinIdx(t.cuckooIdx, cfg), b)[x] else 0
  {
    assert [t][..0] == [];
  }

  /** A task of an entry reaches the bin of part k at a location exactly when it is the task for that location. */
  lemma SentByTask(e: Entry, location: nat, params: Params, cfg: Config, at: nat, index: nat, block: nat, k: nat,
                   x: nat)
    requires ParamsOk(params) && ConfigOk(cfg) && cfg.binsPerBundle == params.itemsPerBundle * FeltsPerItem(params)
    requires k < FeltsPerItem(params) && IsPlace(at, index, block, params.itemsPerBundle)
    ensures Sent([TaskFor(e, location, params)], index, cfg, PartBin(block, k, FeltsPerItem(params)), x)
            == if location == at && Part(e.item, k, params) == x then 1 else 0
  {
    var f, other := FeltsPerItem(params), location % params.itemsPerBundle;
    var t, b := TaskFor(e, location, params), PartBin(block, k, f);
    TaskPlace(e, location, params, cfg);
    SamePlace(location, at, index, block, params.itemsPerBundle);
    BlockOfBin(block, other, k, f);
    SentSingle(t, index, cfg, b, x);
    if other == block {
      assert b - PartBin(other, 0, f) == k;
    }
  }

  predicate DistinctLocations(locations: seq<nat>) {
    forall g, h :: 0 <= g < h < |locations| ==> locations[g] != locations[h]
  }

  lemma {:induction false} SentByEntry(e: Entry, locations: seq<nat>, params: Params, cfg: Config, at: nat, index: nat,
                                       block: nat, k: nat, x: nat)
    requires ParamsOk(params) && ConfigOk(cfg) && cfg.binsPerBundle == params.itemsPerBundle * FeltsPerItem(params)
    requires k < FeltsPerItem(params) && IsPlace(at, index, block, params.itemsPerBundle)
    requires DistinctLocations(locations)
    ensures Sent(EntryTasks(e, locations, params), index, cfg, PartBin(block, k, FeltsPerItem(params)), x)
            == if at in locations && Part(e.item, k, params) == x then 1 else 0
  {
    if locations != [] {
      var n := |locations| - 1;
      var front, last := locations[..n], locations[n];
      assert locations == front + [last];
      assert EntryTasks(e, locations, params) == EntryTasks(e, front, params) + [TaskFor(e, last, params)];
      SentByEntry(e, front, params, cfg, at, index, block, k, x);
      SentConcat(EntryTasks(e, front, params), [TaskFor(e, last, params)], index, cfg,
                 PartBin(block, k, FeltsPerItem(params)), x);
      SentByTask(e, last, params, cfg, at, index, block, k, x);
    }
  }

  /** No other item of the data has the same part k at this location. */
  ghost predicate UnsharedPart(data: seq<Entry>, locationsOf: seq<Byte> -> seq<nat>, params: Params, item: seq<Byte>,
                               at: nat, k: nat)
    requires ParamsOk(params) && k < FeltsPerItem(params)
  {
    forall a :: 0 <= a < |data| && at in locationsOf(data[a].item)
                && Part(data[a].item, k, params) == Part(item, k, params)
                ==> data[a].item == item
  }

  /** Then the part is sent to its bin by the item's own task alone. */
  lemma {:induction false} UnsharedPartSentOnce(data: seq<Entry>, locationsOf: seq<Byte> -> seq<nat>, params: Params,
                                                cfg: Config, item: seq<Byte>, at: nat, index: nat, block: nat, k: nat)
    requires ParamsOk(params) && ConfigOk(cfg) && cfg.binsPerBundle == params.itemsPerBundle * FeltsPerItem(params)
    requires k < FeltsPerItem(params) && IsPlace(at, index, block, params.itemsPerBundle)
    requires DistinctItems(data) && UnsharedPart(data, locationsOf, params, item, at, k)
    requires forall a :: 0 <= a < |data| ==> DistinctLocations(locationsOf(data[a].item))
    ensures Sent(TasksOf(data, locationsOf, params), index, cfg, PartBin(block, k, FeltsPerItem(params)),
                 Part(item, k, params))
            <= if HasItem(data, item) && at in locationsOf(item) then 1 else 0
  {
    if data != [] {
      var n := |data| - 1;
      var front, e := data[..n], data[n];
      assert data == front + [e];
      HasItemAppend(front, e);
      UnsharedPartSentOnce(front, locationsOf, params, cfg, item, at, index, block, k);
      SentByEntry(e, locationsOf(e.item), params, cfg, at, index, block, k, Part(item, k, params));
      SentConcat(TasksOf(front, locationsOf, params), EntryTasks(e, locationsOf(e.item), params), index, cfg,
                 PartBin(block, k, FeltsPerItem(params)), Part(item, k, params));
      if at in locationsOf(e.item) && Part(e.item, k, params) == Part(item, k, params) {
        assert data[n].item == item;
        assert !HasItem(front, item);
      }
    }
  }

  // ---------- Whom a bundle holds ----------

  /** Some part of the item is its own at this location. */
  ghost predicate HasUnsharedPart(data: seq<Entry>, locationsOf: seq<Byte> -> seq<nat>, params: Params, item: seq<Byte>,
                                  at: nat)
    requires ParamsOk(params)
  {
    exists k :: 0 <= k < FeltsPerItem(params) && UnsharedPart(data, locationsOf, params, item, at, k)
  }

  /** An item with a part of its own is held by at most one bundle, and only if it is in the data. */
  lemma UnsharedPartDecides(data: seq<Entry>, locationsOf: seq<Byte> -> seq<nat>, params: Params, cfg: Config,
                            labelByteCount: nat, item: seq<Byte>, at: nat, index: nat, block: nat, i: nat, j: nat)
    requires ParamsOk(params) && ConfigFits(cfg, params, labelByteCount) && LabelsFit(data, params, labelByteCount)
    requires IsPlace(at, index, block, params.itemsPerBundle) && DistinctItems(data)
    requires forall a :: 0 <= a < |data| ==> DistinctLocations(locationsOf(data[a].item))
    requires HasUnsharedPart(data, locationsOf, params, item, at)
    requires var cs := Built(data, locationsOf, params, cfg, index);
             i <= j < |cs| && HoldsItem(cs[i], item, block, params) && HoldsItem(cs[j], item, block, params)
    ensures i == j && HasItem(data, item) && at in locationsOf(item)
  {
    FeltsPerItemPositive(params);
    var f, tasks := FeltsPerItem(params), TasksOf(data, locationsOf, params);
    var k :| 0 <= k < f && UnsharedPart(data, locationsOf, params, item, at, k);
    TasksArePreprocessed(data, locationsOf, params);
    PreprocessedNeverFails(tasks, data, locationsOf, params, cfg, labelByteCount, [], index);
    UnsharedPartSentOnce(data, locationsOf, params, cfg, item, at, index, block, k);
    var cs := Built(data, locationsOf, params, cfg, index);
    HeldPart(cs[i], item, block, k, params, cfg);
    HeldPart(cs[j], item, block, k, params, cfg);
    HeldMeansSent(tasks, index, cfg, PartBin(block, k, f), Part(item, k, params), i, j);
  }

  /** A bundle that holds an item has each of its parts in the part's own bin. */
  lemma HeldPart(c: Contents, item: seq<Byte>, block: nat, k: nat, params: Params, cfg: Config)
    requires ParamsOk(params) && k < FeltsPerItem(params) && block < params.itemsPerBundle
    requires cfg.binsPerBundle == params.itemsPerBundle * FeltsPerItem(params) && HoldsItem(c, item, block, params)
    ensures var b := PartBin(block, k, FeltsPerItem(params));
            b < cfg.binsPerBundle && b < |c.items| && Part(item, k, params) in c.items[b]
  {
    BlockFits(block, FeltsPerItem(params), params.itemsPerBundle);
  }

  // ---------- Without such a part ----------

  /** The parts of a task's item. */
  predicate PairTask(task: Task, x: nat, y: nat) {
    && task.cuckooIdx == 0 && task.data.AlgItemLabel? && LabelsHaveSize(Parts(task.data), 1)
    && |Parts(task.data)| == 2 && Parts(task.data)[0].item == x && Parts(task.data)[1].item == y
  }

  lemma PairStep(cs: seq<Contents>, task: Task, x: nat, y: nat, cfg: Config)
    requires ConfigOk(cfg) && cfg.binsPerBundle == 2 && cfg.labelSize == 1 && AllSized(cs, cfg) && PairTask(task, x, y)
    ensures DataError(task.data, 0, cfg) == None
    ensures InsertStep((cs, None), task, 0, cfg) == (InsertOne(cs, task.data, 0, cfg), None)
  {
    DivModUnique(0, 0, 0, 2);
  }

  lemma PairItems(c: Contents, task: Task, x: nat, y: nat)
    requires |c.items| == 2 && |c.labels| == 1 && PairTask(task, x, y)
    ensures Inserted(c, Parts(task.data), 0).items == [c.items[0] + [x], c.items[1] + [y]]
  {
  }

  /** A pair goes into a new bundle when the only one holds its first part. */
  lemma PairSplits(cs: seq<Contents>, task: Task, x: nat, y: nat, cfg: Config)
    requires ConfigOk(cfg) && cfg.binsPerBundle == 2 && cfg.labelSize == 1 && AllSized(cs, cfg) && PairTask(task, x, y)
    requires |cs| == 0 || (|cs| == 1 && x in cs[0].items[0])
    ensures var r := InsertOne(cs, task.data, 0, cfg);
            |r| == |cs| + 1 && r[..|cs|] == cs && r[|cs|].items == [[x], [y]]
  {
    PairStep(cs, task, x, y, cfg);
    if |cs| == 1 {
      assert Parts(task.data)[0].item in cs[0].items[0 + 0];
      assert !AllAbsent(cs[0].items, Parts(task.data), 0);
      assert PlaceBelow(cs, 0, task.data, 0, cfg) == None;
    }
    var empty := EmptyContents(2, 1);
    PairItems(empty, task, x, y);
    assert empty.items[0] + [x] == [x] && empty.items[1] + [y] == [y];
  }

  /** A pair whose parts are new to the last bundle goes there, while there is room. */
  lemma PairJoins(cs: seq<Contents>, task: Task, x: nat, y: nat, a: nat, b: nat, cfg: Config)
    requires ConfigOk(cfg) && cfg.binsPerBundle == 2 && cfg.labelSize == 1 && AllSized(cs, cfg) && PairTask(task, x, y)
    requires cfg.maxBinSize > 2 && cs != [] && cs[|cs| - 1].items == [[a], [b]] && x != a && y != b
    ensures var r := InsertOne(cs, task.data, 0, cfg);
            |r| == |cs| && r[..|cs| - 1] == cs[..|cs| - 1] && r[|cs| - 1].items == [[a, x], [b, y]]
  {
    var last := cs[|cs| - 1];
    PairStep(cs, task, x, y, cfg);
    assert AllAbsent(last.items, Parts(task.data), 0);
    assert LargestAfter(last.items, 0, 2) == 2 by {
      assert LargestAfter(last.items, 0, 1) == 2;
    }
    assert Fits(last, task.data, 0, cfg);
    PairItems(last, task, x, y);
    assert last.items[0] + [x] == [a, x] && last.items[1] + [y] == [b, y];
  }

  /** Two labeled items with the parts (x, v) and (u, y): one bundle then holds (x, y). */
  lemma PartsMix(tasks: seq<Task>, cfg: Config, x: nat, y: nat, u: nat, v: nat)
    requires ConfigOk(cfg) && cfg.binsPerBundle == 2 && cfg.labelSize == 1 && cfg.maxBinSize > 2 && u != x && v != y
    requires |tasks| == 2 && PairTask(tasks[0], x, v) && PairTask(tasks[1], u, y)
    ensures var r := InsertRun([], tasks, 0, cfg);
            r.1 == None && |r.0| == 1 && r.0[0].items == [[x, u], [v, y]]
  {
    assert tasks[..1] == [tasks[0]] && tasks[..1][..0] == [];
    PairStep([], tasks[0], x, v, cfg);
    PairSplits([], tasks[0], x, v, cfg);
    var one := InsertOne([], tasks[0].data, 0, cfg);
    assert InsertRun([], tasks[..1], 0, cfg) == (one, None);
    PairStep(one, tasks[1], u, y, cfg);
    PairJoins(one, tasks[1], u, y, x, v, cfg);
  }

  /**
   Three labeled items with the parts (x, y), (x, v) and (u, y): the first part splits the first two, the third
   joins the second, and then both bundles hold (x, y).
   */
  lemma PartsMeet(tasks: seq<Task>, cfg: Config, x: nat, y: nat, u: nat, v: nat)
    requires ConfigOk(cfg) && cfg.binsPerBundle == 2 && cfg.labelSize == 1 && cfg.maxBinSize > 2 && u != x && v != y
    requires |tasks| == 3 && PairTask(tasks[0], x, y) && PairTask(tasks[1], x, v) && PairTask(tasks[2], u, y)
    ensures var r := InsertRun([], tasks, 0, cfg);
            r.1 == None && |r.0| == 2 && r.0[0].items == [[x], [y]] && r.0[1].items == [[x, u], [v, y]]
  {
    assert tasks[..1] == [tasks[0]] && tasks[..1][..0] == [] && tasks[..2][..1] == tasks[..1];
    PairStep([], tasks[0], x, y, cfg);
    PairSplits([], tasks[0], x, y, cfg);
    var one := InsertOne([], tasks[0].data, 0, cfg);
    assert InsertRun([], tasks[..1], 0, cfg) == (one, None);
    PairStep(one, tasks[1], x, v, cfg);
    PairSplits(one, tasks[1], x, v, cfg);
    var two := InsertOne(one, tasks[1].data, 0, cfg);
    assert InsertRun([], tasks[..2], 0, cfg) == (two, None);
    PairStep(two, tasks[2], u, y, cfg);
    PairJoins(two, tasks[2], u, y, x, v, cfg);
    assert two[0] == two[..1][0];
  }

  // ---------- A failing input ----------

  /** Two four-bit parts in one byte. */
  function PairByte(lo: seq<bool>, hi: seq<bool>): Byte
    requires |lo| == |hi| == 4
  {
    lo + hi
  }

  const ONE := [true, false, false, false]
  const TWO := [false, true, false, false]
  const FOUR := [false, false, true, false]
  const EIGHT := [false, false, false, true]

  /** The smallest parameters: prime 17, items of one byte, two elements for an item, one item for a bundle. */
  const SMALL := Params(17, 8, 1, true)

  /** One byte of label makes one label component. */
  const SMALL_DB := Config(17, 1, 3, 0, 2)

  lemma SmallParams()
    ensures ParamsOk(SMALL) && BitsPerFelt(17) == 4 && FeltsPerItem(SMALL) == 2 && ConfigFits(SMALL_DB, SMALL, 1)
  {
    assert BitCount(17) == 1 + BitCount(8) == 2 + BitCount(4) == 3 + BitCount(2) == 4 + BitCount(1) == 5 + BitCount(0);
  }

  lemma PairParts(lo: seq<bool>, hi: seq<bool>)
    requires |lo| == |hi| == 4
    ensures Pack([PairByte(lo, hi)], 8, 4) == [ValueOf(lo), ValueOf(hi)]
  {
    var data := [PairByte(lo, hi)];
    assert NumFelts(8, 4) == 2 && ChunkSize(8, 4, 0) == 4 && ChunkSize(8, 4, 1) == 4;
    PairSlice(lo, hi, 0, lo);
    PairSlice(lo, hi, 4, hi);
    assert Pack(data, 8, 4)[0] == Chunk(data, 8, 4, 0) && Pack(data, 8, 4)[1] == Chunk(data, 8, 4, 1);
  }

  lemma PairSlice(lo: seq<bool>, hi: seq<bool>, off: nat, half: seq<bool>)
    requires |lo| == |hi| == 4 && ((off == 0 && half == lo) || (off == 4 && half == hi))
    ensures BitSlice([PairByte(lo, hi)], off, 4) == half
  {
    var data := [PairByte(lo, hi)];
    forall i | 0 <= i < 4 ensures BitAt(data, off + i) == half[i] {
      BitAtByte(data, 0, off + i);
      assert data[0][off + i] == (lo + hi)[off + i];
    }
  }

  lemma PairValues()
    ensures ValueOf(ONE) == 1 && ValueOf(TWO) == 2 && ValueOf(FOUR) == 4 && ValueOf(EIGHT) == 8
  {
    assert ValueOf([]) == 0 && ValueOf([false]) == 0 && ValueOf([true]) == 1;
    assert ONE[1..] == [false, false, false] && ONE[1..][1..] == [false, false] && ONE[1..][1..][1..] == [false];
    assert TWO[1..] == [true, false, false] && TWO[1..][1..] == [false, false];
    assert FOUR[1..] == [false, true, false] && FOUR[1..][1..] == [true, false];
    assert EIGHT[1..] == [false, false, true] && EIGHT[1..][1..] == [false, true] && EIGHT[1..][1..][1..] == [true];
  }

  const FIRST_BYTE: seq<Byte> := [PairByte(ONE, TWO)]
  const SAME_LOW: seq<Byte> := [PairByte(ONE, EIGHT)]
  const SAME_HIGH: seq<Byte> := [PairByte(FOUR, TWO)]
  const NO_LABEL: seq<Byte> := [[false, false, false, false, false, false, false, false]]

  function OnlyLocation(item: seq<Byte>): seq<nat> {
    [0]
  }

  lemma PairEntry(lo: seq<bool>, hi: seq<bool>)
    requires |lo| == |hi| == 4 && ParamsOk(SMALL) && BitsPerFelt(17) == 4 && FeltsPerItem(SMALL) == 2
    ensures PairTask(TaskFor(Entry([PairByte(lo, hi)], NO_LABEL), 0, SMALL), ValueOf(lo), ValueOf(hi))
  {
    PairParts(lo, hi);
    assert NumFelts(8, 4) == 2 && EncodedLabelSize(1, 4, 2) == 1;
  }

  lemma {:induction false} TasksAtOnlyLocation(data: seq<Entry>)
    requires ParamsOk(SMALL)
    ensures |TasksOf(data, OnlyLocation, SMALL)| == |data|
    ensures forall a :: 0 <= a < |data| ==> TasksOf(data, OnlyLocation, SMALL)[a] == TaskFor(data[a], 0, SMALL)
  {
    if data != [] {
      TasksAtOnlyLocation(data[..|data| - 1]);
    }
  }

  lemma FirstIsHeld(c: Contents)
    requires ParamsOk(SMALL) && BitsPerFelt(17) == 4 && FeltsPerItem(SMALL) == 2
    requires |c.items| == 2 && 1 in c.items[0] && 2 in c.items[1]
    ensures HoldsItem(c, FIRST_BYTE, 0, SMALL)
  {
    PairParts(ONE, TWO);
    PairValues();
    assert Pack(FIRST_BYTE, SMALL.itemBitCount, BitsPerFelt(SMALL.m)) == [1, 2];
  }

  lemma EntryPair(lo: seq<bool>, hi: seq<bool>, x: nat, y: nat)
    requires |lo| == |hi| == 4 && ValueOf(lo) == x && ValueOf(hi) == y
    ensures ParamsOk(SMALL) && PairTask(TaskFor(Entry([PairByte(lo, hi)], NO_LABEL), 0, SMALL), x, y)
  {
    SmallParams();
    PairEntry(lo, hi);
  }

  /** Entries with the parts (1, 2), (1, 8) and (4, 2). */
  lemma EntriesMeet(e1: Entry, e2: Entry, e3: Entry)
    requires ParamsOk(SMALL) && PairTask(TaskFor(e1, 0, SMALL), 1, 2)
    requires PairTask(TaskFor(e2, 0, SMALL), 1, 8) && PairTask(TaskFor(e3, 0, SMALL), 4, 2)
    ensures var cs := Built([e1, e2, e3], OnlyLocation, SMALL, SMALL_DB, 0);
            |cs| == 2 && HoldsItem(cs[0], FIRST_BYTE, 0, SMALL) && HoldsItem(cs[1], FIRST_BYTE, 0, SMALL)
  {
    var data := [e1, e2, e3];
    SmallParams();
    TasksAtOnlyLocation(data);
    PartsMeet(TasksOf(data, OnlyLocation, SMALL), SMALL_DB, 1, 2, 4, 8);
    var cs := Built(data, OnlyLocation, SMALL, SMALL_DB, 0);
    FirstIsHeld(cs[0]);
    FirstIsHeld(cs[1]);
  }

  lemma EntriesMix(e1: Entry, e2: Entry)
    requires ParamsOk(SMALL) && PairTask(TaskFor(e1, 0, SMALL), 1, 8) && PairTask(TaskFor(e2, 0, SMALL), 4, 2)
    ensures var cs := Built([e1, e2], OnlyLocation, SMALL, SMALL_DB, 0);
            |cs| == 1 && HoldsItem(cs[0], FIRST_BYTE, 0, SMALL)
  {
    var data := [e1, e2];
    SmallParams();
    TasksAtOnlyLocation(data);
    PartsMix(TasksOf(data, OnlyLocation, SMALL), SMALL_DB, 1, 2, 4, 8);
    FirstIsHeld(Built(data, OnlyLocation, SMALL, SMALL_DB, 0)[0]);
  }

  const FIRST := Entry(FIRST_BYTE, NO_LABEL)
  const WITH_SAME_LOW := Entry(SAME_LOW, NO_LABEL)
  const WITH_SAME_HIGH := Entry(SAME_HIGH, NO_LABEL)

  lemma ExampleEntries()
    ensures ParamsOk(SMALL) && ConfigFits(SMALL_DB, SMALL, 1)
    ensures PairTask(TaskFor(FIRST, 0, SMALL), 1, 2) && PairTask(TaskFor(WITH_SAME_LOW, 0, SMALL), 1, 8)
    ensures PairTask(TaskFor(WITH_SAME_HIGH, 0, SMALL), 4, 2)
    ensures FIRST.item != WITH_SAME_LOW.item && FIRST.item != WITH_SAME_HIGH.item
    ensures WITH_SAME_LOW.item != WITH_SAME_HIGH.item
  {
    SmallParams();
    PairValues();
    EntryPair(ONE, TWO, 1, 2);
    EntryPair(ONE, EIGHT, 1, 8);
    EntryPair(FOUR, TWO, 4, 2);
    BytesDiffer();
  }

  /** Three distinct labeled items after which two bundles hold the first: valid data on which the receiver throws. */
  lemma CoincidenceExample()
    ensures ParamsOk(SMALL) && ConfigFits(SMALL_DB, SMALL, 1)
    ensures DistinctItems([FIRST, WITH_SAME_LOW, WITH_SAME_HIGH])
    ensures var cs := Built([FIRST, WITH_SAME_LOW, WITH_SAME_HIGH], OnlyLocation, SMALL, SMALL_DB, 0);
            |cs| == 2 && HoldsItem(cs[0], FIRST.item, 0, SMALL) && HoldsItem(cs[1], FIRST.item, 0, SMALL)
  {
    ExampleEntries();
    EntriesMeet(FIRST, WITH_SAME_LOW, WITH_SAME_HIGH);
  }

  /** Two labeled items after which a bundle holds a third one, which is not in the data. */
  lemma FalseMatchExample()
    ensures ParamsOk(SMALL) && ConfigFits(SMALL_DB, SMALL, 1)
    ensures DistinctItems([WITH_SAME_LOW, WITH_SAME_HIGH]) && !HasItem([WITH_SAME_LOW, WITH_SAME_HIGH], FIRST.item)
    ensures var cs := Built([WITH_SAME_LOW, WITH_SAME_HIGH], OnlyLocation, SMALL, SMALL_DB, 0);
            |cs| == 1 && HoldsItem(cs[0], FIRST.item, 0, SMALL)
  {
    ExampleEntries();
    EntriesMix(WITH_SAME_LOW, WITH_SAME_HIGH);
  }

  lemma BytesDiffer()
    ensures FIRST_BYTE != SAME_LOW && FIRST_BYTE != SAME_HIGH && SAME_LOW != SAME_HIGH
  {
    assert FIRST_BYTE[0][0] && SAME_LOW[0][0] && !SAME_HIGH[0][0];
    assert FIRST_BYTE[0][5] && !SAME_LOW[0][5];
  }
}
