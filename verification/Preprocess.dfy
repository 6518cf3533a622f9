/**
 Turning items, with or without labels, into the tasks of the insert workers
 (sender/apsi/sender_db.cpp). The cuckoo hash functions are an arbitrary function from an item to its
 locations.
 */
module Preprocess {
  import opened Wrappers
  import opened ModArith
  import opened Bits
  import opened DbEncoding
  import opened BinContents
  import opened BinBundles
  import opened BundleSets

  /** A hashed item and, in labeled mode, its encrypted label. */
  datatype Entry = Entry(item: seq<Byte>, encLabel: seq<Byte>)

  /** The database parameters: prime, bits of an item, and how many items fit a bundle. */
  datatype Params = Params(m: nat, itemBitCount: nat, itemsPerBundle: nat, labeled: bool)

  predicate ParamsOk(params: Params) {
    && IsSealModulus(params.m) && params.m > 0 && params.itemBitCount > 0 && params.itemsPerBundle > 0
    && params.itemBitCount == FeltsPerItem(params) * BitsPerFelt(params.m)
  }

  function FeltsPerItem(params: Params): nat
    requires IsSealModulus(params.m) && params.m > 0
  {
    NumFelts(params.itemBitCount, BitsPerFelt(params.m))
  }

  lemma FeltsPerItemPositive(params: Params)
    requires ParamsOk(params)
    ensures FeltsPerItem(params) > 0 && BitsPerFelt(params.m) > 0
  {
    NumFeltsBounds(params.itemBitCount, BitsPerFelt(params.m));
  }

  predicate EntryOk(e: Entry, params: Params) {
    params.itemBitCount <= 8 * |e.item|
  }

  /** The task carries the packed item, and in labeled mode the packed label, to the location's first bin. */
  predicate IsTaskOf(task: Task, e: Entry, location: nat, params: Params)
    requires ParamsOk(params)
  {
    && task.cuckooIdx == location * FeltsPerItem(params)
    && if params.labeled
       then task.data.AlgItemLabel?
            && IsAlgItemLabel(task.data.itemLabels, e.item, params.itemBitCount, e.encLabel, BitsPerFelt(params.m))
       else task.data == AlgItem(Pack(e.item, params.itemBitCount, BitsPerFelt(params.m)))
  }

  /** Task t is that of some entry below n at one of its locations. */
  predicate ComesFrom(task: Task, data: seq<Entry>, n: nat, locationsOf: seq<Byte> -> seq<nat>, params: Params)
    requires ParamsOk(params) && n <= |data|
  {
    exists a, h :: 0 <= a < n && 0 <= h < |locationsOf(data[a].item)|
                   && IsTaskOf(task, data[a], locationsOf(data[a].item)[h], params)
  }

  /** Some task sends the entry to the location. */
  predicate SentTo(tasks: seq<Task>, e: Entry, location: nat, params: Params)
    requires ParamsOk(params)
  {
    exists t :: 0 <= t < |tasks| && IsTaskOf(tasks[t], e, location, params)
  }

  /** The tasks are exactly those of the first n entries, each at each of its locations. */
  ghost predicate IsPreprocessed(tasks: seq<Task>, data: seq<Entry>, n: nat, locationsOf: seq<Byte> -> seq<nat>,
                                 params: Params)
    requires ParamsOk(params) && n <= |data|
  {
    && (forall t :: 0 <= t < |tasks| ==> ComesFrom(tasks[t], data, n, locationsOf, params))
    && forall a, h :: 0 <= a < n && 0 <= h < |locationsOf(data[a].item)| ==>
                        SentTo(tasks, data[a], locationsOf(data[a].item)[h], params)
  }

  /** The task for an entry at a location. */
  function TaskFor(e: Entry, location: nat, params: Params): (task: Task)
    requires ParamsOk(params)
    ensures IsTaskOf(task, e, location, params)
  {
    FeltsPerItemPositive(params);
    MulNonNeg(location, FeltsPerItem(params));
    Task(AlgDataOf(e, params), location * FeltsPerItem(params))
  }

  function AlgDataOf(e: Entry, params: Params): AlgData
    requires ParamsOk(params)
  {
    FeltsPerItemPositive(params);
    if params.labeled then AlgItemLabel(AlgItemLabelOf(e.item, params.itemBitCount, e.encLabel, BitsPerFelt(params.m)))
    else AlgItem(Pack(e.item, params.itemBitCount, BitsPerFelt(params.m)))
  }

  /** One task for each location, in their order. */
  function EntryTasks(e: Entry, locations: seq<nat>, params: Params): seq<Task>
    requires ParamsOk(params)
  {
    seq(|locations|, h requires 0 <= h < |locations| => TaskFor(e, locations[h], params))
  }

  /** One task for each entry and each of its locations, and nothing else. */
  function TasksOf(data: seq<Entry>, locationsOf: seq<Byte> -> seq<nat>, params: Params): seq<Task>
    requires ParamsOk(params)
  {
    if data == [] then []
    else
      var e := data[|data| - 1];
      TasksOf(data[..|data| - 1], locationsOf, params) + EntryTasks(e, locationsOf(e.item), params)
  }

  /** algebraize_item or algebraize_item_label. */
  method AlgebraizeEntry(e: Entry, params: Params) returns (data: AlgData)
    requires ParamsOk(params) && EntryOk(e, params)
    ensures data == AlgDataOf(e, params)
  {
    FeltsPerItemPositive(params);
    if params.labeled {
      var parts := AlgebraizeItemLabel(e.item, e.encLabel, params.itemBitCount, params.m);
      AlgItemLabelUnique(parts.value, e.item, params.itemBitCount, e.encLabel, BitsPerFelt(params.m));
      data := AlgItemLabel(parts.value);
    } else {
      var felts := BitsToFieldElts(e.item, params.itemBitCount, params.m);
      data := AlgItem(felts.value);
    }
  }

  /** preprocess_labeled_data and preprocess_unlabeled_data: one task for each location of each entry. */
  method PreprocessData(data: seq<Entry>, locationsOf: seq<Byte> -> seq<nat>, params: Params) returns (tasks: seq<Task>)
    requires ParamsOk(params) && forall a :: 0 <= a < |data| ==> EntryOk(data[a], params)
    ensures tasks == TasksOf(data, locationsOf, params)
  {
    var binsPerItem := FeltsPerItem(params);
    tasks := [];
    for a := 0 to |data|
      invariant tasks == TasksOf(data[..a], locationsOf, params)
    {
      var alg := AlgebraizeEntry(data[a], params);
      var locations := locationsOf(data[a].item);
      ghost var before := tasks;
      for h := 0 to |locations|
        invariant tasks == before + EntryTasks(data[a], locations, params)[..h]
      {
        tasks := tasks + [Task(alg, locations[h] * binsPerItem)];
        assert EntryTasks(data[a], locations, params)[h] == tasks[|tasks| - 1];
      }
      assert data[..a + 1][..a] == data[..a];
    }
    assert data[..|data|] == data;
  }

  /** Every task comes from an entry and one of its locations, and each of these has a task. */
  lemma {:induction false} TasksArePreprocessed(data: seq<Entry>, locationsOf: seq<Byte> -> seq<nat>, params: Params)
    requires ParamsOk(params)
    ensures IsPreprocessed(TasksOf(data, locationsOf, params), data, |data|, locationsOf, params)
  {
    if data != [] {
      var n := |data| - 1;
      var front, e := data[..n], data[n];
      TasksArePreprocessed(front, locationsOf, params);
      var before, more := TasksOf(front, locationsOf, params), EntryTasks(e, locationsOf(e.item), params);
      forall t | 0 <= t < |before + more| ensures ComesFrom((before + more)[t], data, n + 1, locationsOf, params) {
        if t < |before| {
          assert ComesFrom(before[t], front, n, locationsOf, params);
          var a, h :| 0 <= a < n && 0 <= h < |locationsOf(front[a].item)|
                      && IsTaskOf(before[t], front[a], locationsOf(front[a].item)[h], params);
          assert IsTaskOf((before + more)[t], data[a], locationsOf(data[a].item)[h], params);
        } else {
          assert IsTaskOf(more[t - |before|], data[n], locationsOf(data[n].item)[t - |before|], params);
        }
      }
      forall a, h | 0 <= a < n + 1 && 0 <= h < |locationsOf(data[a].item)|
        ensures SentTo(before + more, data[a], locationsOf(data[a].item)[h], params)
      {
        if a < n {
          assert front[a] == data[a] && SentTo(before, front[a], locationsOf(front[a].item)[h], params);
          var t :| 0 <= t < |before| && IsTaskOf(before[t], data[a], locationsOf(data[a].item)[h], params);
          assert (before + more)[t] == before[t];
        } else {
          assert (before + more)[|before| + h] == more[h];
        }
      }
    }
  }

  // ---------- New and known items ----------

  predicate HasItem(data: seq<Entry>, item: seq<Byte>) {
    exists a :: 0 <= a < |data| && data[a].item == item
  }

  /** The entries that remove_if keeps: the first for each item that is not known yet. */
  function NewEntries(data: seq<Entry>, known: set<seq<Byte>>): (r: seq<Entry>)
    ensures |r| <= |data|
  {
    if data == [] then []
    else
      var front, e := data[..|data| - 1], data[|data| - 1];
      NewEntries(front, known) + (if e.item in known || HasItem(front, e.item) then [] else [e])
  }

  /** Entry a of the data is the first one for its item, and the item is not known. */
  predicate IsFirst(data: seq<Entry>, known: set<seq<Byte>>, a: nat) {
    a < |data| && data[a].item !in known && forall c :: 0 <= c < a ==> data[c].item != data[a].item
  }

  /** Exactly the first entries of unknown items are kept, in their order. */
  ghost predicate KeptInOrder(kept: seq<Entry>, from: seq<nat>, data: seq<Entry>, known: set<seq<Byte>>) {
    && |from| == |kept|
    && (forall i :: 0 <= i < |from| ==> IsFirst(data, known, from[i]) && kept[i] == data[from[i]])
    && (forall i, j :: 0 <= i < j < |from| ==> from[i] < from[j])
    && forall a :: IsFirst(data, known, a) ==> a in from
  }

  lemma FirstInFront(front: seq<Entry>, e: Entry, known: set<seq<Byte>>, a: nat)
    requires a <= |front|
    ensures IsFirst(front + [e], known, a)
            <==> if a < |front| then IsFirst(front, known, a) else e.item !in known && !HasItem(front, e.item)
  {
    var data := front + [e];
    assert forall c :: 0 <= c < |front| ==> data[c] == front[c];
  }

  lemma KeptNext(kept: seq<Entry>, from: seq<nat>, front: seq<Entry>, e: Entry, known: set<seq<Byte>>)
    requires KeptInOrder(kept, from, front, known)
    ensures if e.item in known || HasItem(front, e.item) then KeptInOrder(kept, from, front + [e], known)
            else KeptInOrder(kept + [e], from + [|front|], front + [e], known)
  {
    var data, n := front + [e], |front|;
    FirstInFront(front, e, known, n);
    forall i | 0 <= i < |from| ensures IsFirst(data, known, from[i]) && kept[i] == data[from[i]] {
      FirstInFront(front, e, known, from[i]);
    }
    forall a | IsFirst(data, known, a) ensures a in from || (a == n && IsFirst(data, known, n)) {
      FirstInFront(front, e, known, a);
    }
    if IsFirst(data, known, n) {
      assert (from + [n])[|from|] == n;
    }
  }

  lemma {:induction false} FirstEntriesAreKept(data: seq<Entry>, known: set<seq<Byte>>) returns (from: seq<nat>)
    ensures KeptInOrder(NewEntries(data, known), from, data, known)
  {
    if data == [] {
      return [];
    }
    var front, e := data[..|data| - 1], data[|data| - 1];
    assert data == front + [e];
    from := FirstEntriesAreKept(front, known);
    KeptNext(NewEntries(front, known), from, front, e, known);
    if e.item in known || HasItem(front, e.item) {
      assert NewEntries(data, known) == NewEntries(front, known);
    } else {
      from := from + [|front|];
    }
  }

  predicate DistinctItems(data: seq<Entry>) {
    forall a, c :: 0 <= a < c < |data| ==> data[a].item != data[c].item
  }

  /** The loop of insert_or_assign over the hashed items that are already there. */
  method KeepNewEntries(data: seq<Entry>, hashedItems: set<seq<Byte>>)
    returns (newData: seq<Entry>, hashed: set<seq<Byte>>)
    ensures newData == NewEntries(data, hashedItems)
    ensures forall item :: item in hashed <==> item in hashedItems || HasItem(data, item)
  {
    newData, hashed := [], hashedItems;
    for a := 0 to |data|
      invariant newData == NewEntries(data[..a], hashedItems)
      invariant forall item :: item in hashed <==> item in hashedItems || HasItem(data[..a], item)
    {
      var e := data[a];
      assert data[..a + 1] == data[..a] + [e];
      HasItemAppend(data[..a], e);
      if e.item !in hashed {
        hashed := hashed + {e.item};
        newData := newData + [e];
      }
    }
    assert data[..|data|] == data;
  }

  lemma HasItemAppend(data: seq<Entry>, e: Entry)
    ensures forall item :: HasItem(data + [e], item) <==> HasItem(data, item) || item == e.item
  {
    forall item ensures HasItem(data + [e], item) <==> HasItem(data, item) || item == e.item {
      assert (data + [e])[|data|] == e;
      if HasItem(data, item) {
        var a :| 0 <= a < |data| && data[a].item == item;
        assert (data + [e])[a].item == item;
      }
    }
  }

  /** Nothing is dropped from an empty database's first data exactly when no item is listed twice. */
  lemma {:induction false} AllNewIffDistinct(data: seq<Entry>)
    ensures |NewEntries(data, {})| == |data| <==> DistinctItems(data)
    ensures DistinctItems(data) ==> NewEntries(data, {}) == data
  {
    if data != [] {
      var n := |data| - 1;
      var front, e := data[..n], data[n];
      AllNewIffDistinct(front);
      assert data == front + [e];
      if DistinctItems(data) {
        assert DistinctItems(front) && !HasItem(front, e.item);
      }
      if DistinctItems(front) && !HasItem(front, e.item) {
        assert DistinctItems(data);
      }
    }
  }

  /** What is kept lists every item once, and every item that is not known. */
  lemma {:induction false} NewEntriesRight(data: seq<Entry>, known: set<seq<Byte>>)
    ensures DistinctItems(NewEntries(data, known))
    ensures forall item :: HasItem(NewEntries(data, known), item) <==> HasItem(data, item) && item !in known
    ensures forall a :: 0 <= a < |NewEntries(data, known)| ==> NewEntries(data, known)[a] in data
  {
    if data != [] {
      var n := |data| - 1;
      var front, e := data[..n], data[n];
      NewEntriesRight(front, known);
      var kept := NewEntries(front, known);
      assert data == front + [e];
      HasItemAppend(front, e);
      HasItemAppend(kept, e);
      if e.item in known || HasItem(front, e.item) {
        assert NewEntries(data, known) == kept;
      } else {
        assert NewEntries(data, known) == kept + [e];
        forall a | 0 <= a < |kept| ensures kept[a].item != e.item {
          assert HasItem(kept, kept[a].item);
        }
      }
    }
  }

  // ---------- The tasks are well-formed ----------

  /** The configuration of the bundles belongs to the parameters; all labels have the database's size. */
  predicate ConfigFits(cfg: Config, params: Params, labelByteCount: nat)
    requires ParamsOk(params)
  {
    && ConfigOk(cfg) && cfg.p == params.m && cfg.binsPerBundle == params.itemsPerBundle * FeltsPerItem(params)
    && cfg.labelSize == (if params.labeled then ComputeLabelSize(labelByteCount, params.itemBitCount) else 0)
    && (params.labeled ==> labelByteCount > 0)
  }

  predicate LabelsFit(data: seq<Entry>, params: Params, labelByteCount: nat) {
    params.labeled ==> forall a :: 0 <= a < |data| ==> |data[a].encLabel| == labelByteCount
  }

  /** Every bundle of a matching configuration accepts the form of the task. */
  lemma TaskIsWellFormed(task: Task, e: Entry, location: nat, params: Params, cfg: Config, labelByteCount: nat)
    requires ParamsOk(params) && IsTaskOf(task, e, location, params) && ConfigFits(cfg, params, labelByteCount)
    requires params.labeled ==> |e.encLabel| == labelByteCount
    ensures DataError(task.data, BinIdx(task.cuckooIdx, cfg), cfg) == None && PartsInField(Parts(task.data), params.m)
    ensures |Parts(task.data)| == FeltsPerItem(params)
    ensures forall k :: 0 <= k < FeltsPerItem(params) ==>
              Parts(task.data)[k].item == Pack(e.item, params.itemBitCount, BitsPerFelt(params.m))[k]
  {
    FeltsPerItemPositive(params);
    var b, f := BitsPerFelt(params.m), FeltsPerItem(params);
    UnpackLocation(location, f, params.itemsPerBundle);
    if params.labeled {
      AlgItemLabelInField(task.data.itemLabels, e.item, params.itemBitCount, e.encLabel, params.m);
      LabelSizeMatches(labelByteCount, b, f);
      LabelSizePositive(labelByteCount, params.itemBitCount);
    } else {
      forall k | 0 <= k < f ensures Pack(e.item, params.itemBitCount, b)[k] < params.m {
        PackBelowModulus(e.item, params.itemBitCount, params.m, k);
      }
    }
  }

  lemma LabelSizePositive(labelByteCount: nat, itemBitCount: nat)
    requires labelByteCount > 0 && itemBitCount > 0
    ensures ComputeLabelSize(labelByteCount, itemBitCount) > 0
  {
    var x := labelByteCount * 8 - 1;
    DivModUnique(x + itemBitCount, x / itemBitCount + 1, x % itemBitCount, itemBitCount);
  }

  lemma TasksAreWellFormed(tasks: seq<Task>, data: seq<Entry>, locationsOf: seq<Byte> -> seq<nat>, params: Params,
                           cfg: Config, labelByteCount: nat)
    requires ParamsOk(params) && IsPreprocessed(tasks, data, |data|, locationsOf, params)
    requires ConfigFits(cfg, params, labelByteCount) && LabelsFit(data, params, labelByteCount)
    ensures TasksInField(tasks, cfg.p)
    ensures forall t :: 0 <= t < |tasks| ==> DataError(tasks[t].data, BinIdx(tasks[t].cuckooIdx, cfg), cfg) == None
  {
    forall t | 0 <= t < |tasks|
      ensures PartsInField(Parts(tasks[t].data), cfg.p)
      ensures DataError(tasks[t].data, BinIdx(tasks[t].cuckooIdx, cfg), cfg) == None
    {
      assert ComesFrom(tasks[t], data, |data|, locationsOf, params);
      var a, h :| 0 <= a < |data| && 0 <= h < |locationsOf(data[a].item)|
                  && IsTaskOf(tasks[t], data[a], locationsOf(data[a].item)[h], params);
      TaskIsWellFormed(tasks[t], data[a], locationsOf(data[a].item)[h], params, cfg, labelByteCount);
    }
  }

  /** Preprocessed data never makes an insert worker fail. */
  lemma PreprocessedNeverFails(tasks: seq<Task>, data: seq<Entry>, locationsOf: seq<Byte> -> seq<nat>, params: Params,
                               cfg: Config, labelByteCount: nat, cs: seq<Contents>, index: nat)
    requires ParamsOk(params) && IsPreprocessed(tasks, data, |data|, locationsOf, params)
    requires ConfigFits(cfg, params, labelByteCount) && LabelsFit(data, params, labelByteCount) && AllSized(cs, cfg)
    ensures InsertRun(cs, tasks, index, cfg).1 == None
  {
    TasksAreWellFormed(tasks, data, locationsOf, params, cfg, labelByteCount);
    InsertionFailsIff(cs, tasks, index, cfg);
  }
}
