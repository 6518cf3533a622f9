/**
 The whole protocol over all bundle indices: from the data of a new database and the receiver's cuckoo
 table to the receiver's match records.
 */
module Protocol {
  import opened Wrappers
  import opened ModArith
  import opened Bits
  import opened DbEncoding
  import opened BinContents
  import opened BinBundles
  import opened BundleSets
  import opened SenderDB
  import opened Preprocess
  import opened PowersDags
  import opened FairSchedules
  import opened Receiver
  import opened EndToEnd
  import opened SharedParts

  datatype ProtocolError = InsertFailed(cause: WorkerError) | QueryRefused | TwoMatches

  /** A bundle and its bundle index. */
  datatype Located = Located(index: nat, contents: Contents)

  // ---------- The new database ----------

  function AtIndex(cs: seq<Contents>, index: nat): seq<Located> {
    seq(|cs|, i requires 0 <= i < |cs| => Located(index, cs[i]))
  }

  /** All bundles of the indices below n, as the insert workers leave them. */
  function Database(data: seq<Entry>, locationsOf: seq<Byte> -> seq<nat>, params: Params, cfg: Config, n: nat):
    seq<Located>
    requires ParamsOk(params) && ConfigOk(cfg)
  {
    if n == 0 then []
    else Database(data, locationsOf, params, cfg, n - 1) + AtIndex(Built(data, locationsOf, params, cfg, n - 1), n - 1)
  }

  lemma DatabaseAt(data: seq<Entry>, locationsOf: seq<Byte> -> seq<nat>, params: Params, cfg: Config, n: nat, i: nat)
    requires ParamsOk(params) && ConfigOk(cfg) && i < |Database(data, locationsOf, params, cfg, n)|
    ensures n > 0
    ensures var before, last := Database(data, locationsOf, params, cfg, n - 1),
                                Built(data, locationsOf, params, cfg, n - 1);
            && |Database(data, locationsOf, params, cfg, n)| == |before| + |last|
            && Database(data, locationsOf, params, cfg, n)[i]
               == if i < |before| then before[i] else Located(n - 1, last[i - |before|])
  {
  }

  /** Each bundle is one of its index, and two of the same index are different ones, in order. */
  lemma {:induction false} DatabaseOrigin(data: seq<Entry>, locationsOf: seq<Byte> -> seq<nat>, params: Params,
                                          cfg: Config, n: nat, i: nat, j: nat)
    returns (w: nat, v: nat, p: nat, q: nat)
    requires ParamsOk(params) && ConfigOk(cfg) && i < j < |Database(data, locationsOf, params, cfg, n)|
    ensures w < n && v < n && p < |Built(data, locationsOf, params, cfg, w)|
    ensures q < |Built(data, locationsOf, params, cfg, v)| && (w == v ==> p < q)
    ensures Database(data, locationsOf, params, cfg, n)[i] == Located(w, Built(data, locationsOf, params, cfg, w)[p])
    ensures Database(data, locationsOf, params, cfg, n)[j] == Located(v, Built(data, locationsOf, params, cfg, v)[q])
  {
    var before := Database(data, locationsOf, params, cfg, n - 1);
    DatabaseAt(data, locationsOf, params, cfg, n, i);
    DatabaseAt(data, locationsOf, params, cfg, n, j);
    if j < |before| {
      w, v, p, q := DatabaseOrigin(data, locationsOf, params, cfg, n - 1, i, j);
    } else {
      v, q := n - 1, j - |before|;
      if i < |before| {
        w, p := BundleOrigin(data, locationsOf, params, cfg, n - 1, i);
      } else {
        w, p := n - 1, i - |before|;
      }
    }
  }

  lemma {:induction false} BundleOrigin(data: seq<Entry>, locationsOf: seq<Byte> -> seq<nat>, params: Params,
                                        cfg: Config, n: nat, i: nat)
    returns (w: nat, p: nat)
    requires ParamsOk(params) && ConfigOk(cfg) && i < |Database(data, locationsOf, params, cfg, n)|
    ensures w < n && p < |Built(data, locationsOf, params, cfg, w)|
    ensures Database(data, locationsOf, params, cfg, n)[i] == Located(w, Built(data, locationsOf, params, cfg, w)[p])
  {
    var before := Database(data, locationsOf, params, cfg, n - 1);
    DatabaseAt(data, locationsOf, params, cfg, n, i);
    if i < |before| {
      w, p := BundleOrigin(data, locationsOf, params, cfg, n - 1, i);
    } else {
      w, p := n - 1, i - |before|;
    }
  }

  /** Insert workers in any interleaving, on an empty database, leave exactly these bundles. */
  lemma AnyDispatchBuilds(run: seq<Dispatch>, schedule: seq<nat>, data: seq<Entry>, locationsOf: seq<Byte> -> seq<nat>,
                          params: Params, cfg: Config, w: nat)
    requires ParamsOk(params) && ConfigOk(cfg)
    requires IsRun(run, schedule, TasksOf(data, locationsOf, params), false, cfg)
    requires Done(run[|schedule|], TasksOf(data, locationsOf, params), cfg)
    requires w < |run[0].sets| && run[0].sets[w] == []
    ensures w < |run[|schedule|].sets| && run[|schedule|].sets[w] == Built(data, locationsOf, params, cfg, w)
  {
    var tasks, first, last := TasksOf(data, locationsOf, params), run[0], run[|schedule|];
    RunKeepsSeparate(run, schedule, tasks, false, cfg, |schedule|);
    assert OwnPart(last, first, w, tasks, false, cfg);
    assert tasks[..|tasks|] == tasks;
    if w !in Indices(tasks, cfg) {
      forall k | 0 <= k < |tasks| ensures BundleIdx(tasks[k].cuckooIdx, cfg) != w {
        assert BundleIdx(tasks[k].cuckooIdx, cfg) in Indices(tasks, cfg);
      }
      IdleWorker([], tasks, w, false, cfg);
    } else if last.errors[w].Some? {
      WorkerRunStops([], tasks, last.next[w], w, false, cfg);
    }
  }

  // ---------- Insertion into an empty database ----------

  /** With overwriting on, the first task of a worker without bundles fails. */
  lemma {:induction false} NothingToAssign(tasks: seq<Task>, w: nat, cfg: Config)
    requires ConfigOk(cfg)
    ensures AssignRun([], tasks, w, cfg)
            == ([], if w in Indices(tasks, cfg) then Some(NothingToOverwrite) else None)
  {
    if tasks != [] {
      var n := |tasks| - 1;
      var front := tasks[..n];
      NothingToAssign(front, w, cfg);
      assert AssignOne([], tasks[n].data, BinIdx(tasks[n].cuckooIdx, cfg), cfg) == Err(NothingToOverwrite);
      assert forall k :: 0 <= k < n ==> front[k] == tasks[k];
      if w in Indices(front, cfg) {
        var k :| 0 <= k < n && BundleIdx(front[k].cuckooIdx, cfg) == w;
        assert BundleIdx(tasks[k].cuckooIdx, cfg) == w;
      }
      assert w in Indices(tasks, cfg) <==> w in Indices(front, cfg) || BundleIdx(tasks[n].cuckooIdx, cfg) == w;
    }
  }

  /** dispatch_insert_or_assign with overwriting on, and all bundle sets empty: the first exception in index order. */
  method AssignToEmpty(tasks: seq<Task>, cfg: Config, indexCount: nat) returns (error: Option<WorkerError>)
    requires ConfigOk(cfg) && IsPrime(cfg.p) && TasksInField(tasks, cfg.p)
    requires forall w :: w in Indices(tasks, cfg) ==> w < indexCount
    ensures error == if tasks == [] then None else Some(NothingToOverwrite)
  {
    assert tasks != [] ==> BundleIdx(tasks[0].cuckooIdx, cfg) in Indices(tasks, cfg);
    for w := 0 to indexCount
      invariant forall v :: 0 <= v < w ==> v !in Indices(tasks, cfg)
    {
      NothingToAssign(tasks, w, cfg);
      var db := new BundleSet(cfg);
      error := db.InsertOrAssignWorker(tasks, w, true);
      if error.Some? {
        return error;
      }
    }
    return None;
  }

  /** The cuckoo locations of an item: some, without repetition, inside the table. */
  ghost predicate LocationsOk(locationsOf: seq<Byte> -> seq<nat>, size: nat) {
    forall item :: LocationsIn(locationsOf(item), size)
  }

  predicate LocationsIn(locations: seq<nat>, size: nat) {
    locations != [] && DistinctLocations(locations) && forall h :: 0 <= h < |locations| ==> locations[h] < size
  }

  /**
   insert_or_assign on an empty database, up to the dispatch of the new items. The entries that remove_if
   does not keep have unspecified values afterwards; tail stands for them. In labeled mode they are
   assigned first, and that fails as there is nothing to overwrite.
   */
  method SplitNewData(data: seq<Entry>, tail: seq<Entry>, locationsOf: seq<Byte> -> seq<nat>, params: Params,
                      cfg: Config, indexCount: nat)
    returns (r: Result<seq<Task>, WorkerError>)
    requires ParamsOk(params) && IsPrime(params.m) && ConfigOk(cfg) && cfg.p == params.m
    requires cfg.binsPerBundle == params.itemsPerBundle * FeltsPerItem(params)
    requires LocationsOk(locationsOf, indexCount * params.itemsPerBundle)
    requires |tail| == |data| - |NewEntries(data, {})|
    requires forall a :: 0 <= a < |data| ==> EntryOk(data[a], params)
    requires forall a :: 0 <= a < |tail| ==> EntryOk(tail[a], params)
    ensures r.Err? <==> params.labeled && !DistinctItems(data)
    ensures r.Ok? ==> r.value == TasksOf(NewEntries(data, {}), locationsOf, params)
  {
    var newData, hashed := KeepNewEntries(data, {});
    AllNewIffDistinct(data);
    if params.labeled && |newData| < |data| {
      var existing := PreprocessData(tail, locationsOf, params);
      TailTasks(tail, locationsOf, params, cfg, indexCount);
      var error := AssignToEmpty(existing, cfg, indexCount);
      return Err(error.value);
    }
    NewEntriesRight(data, {});
    var tasks := PreprocessData(newData, locationsOf, params);
    return Ok(tasks);
  }

  lemma TailTasks(tail: seq<Entry>, locationsOf: seq<Byte> -> seq<nat>, params: Params, cfg: Config, indexCount: nat)
    requires ParamsOk(params) && IsPrime(params.m) && ConfigOk(cfg) && cfg.p == params.m && tail != []
    requires cfg.binsPerBundle == params.itemsPerBundle * FeltsPerItem(params)
    requires LocationsOk(locationsOf, indexCount * params.itemsPerBundle)
    ensures TasksOf(tail, locationsOf, params) != [] && TasksInField(TasksOf(tail, locationsOf, params), cfg.p)
    ensures forall w :: w in Indices(TasksOf(tail, locationsOf, params), cfg) ==> w < indexCount
  {
    var tasks, n := TasksOf(tail, locationsOf, params), |tail|;
    TasksArePreprocessed(tail, locationsOf, params);
    assert LocationsIn(locationsOf(tail[0].item), indexCount * params.itemsPerBundle);
    assert SentTo(tasks, tail[0], locationsOf(tail[0].item)[0], params);
    forall t | 0 <= t < |tasks|
      ensures PartsInField(Parts(tasks[t].data), cfg.p) && BundleIdx(tasks[t].cuckooIdx, cfg) < indexCount
    {
      assert ComesFrom(tasks[t], tail, n, locationsOf, params);
      var a, h :| 0 <= a < n && 0 <= h < |locationsOf(tail[a].item)|
                  && IsTaskOf(tasks[t], tail[a], locationsOf(tail[a].item)[h], params);
      assert LocationsIn(locationsOf(tail[a].item), indexCount * params.itemsPerBundle);
      TaskInside(tasks[t], tail[a], locationsOf(tail[a].item)[h], params, cfg, indexCount);
    }
  }

  lemma TaskInside(task: Task, e: Entry, location: nat, params: Params, cfg: Config, indexCount: nat)
    requires ParamsOk(params) && ConfigOk(cfg) && cfg.p == params.m && IsTaskOf(task, e, location, params)
    requires cfg.binsPerBundle == params.itemsPerBundle * FeltsPerItem(params)
    requires location < indexCount * params.itemsPerBundle
    ensures PartsInField(Parts(task.data), cfg.p) && BundleIdx(task.cuckooIdx, cfg) < indexCount
  {
    FeltsPerItemPositive(params);
    var n := params.itemsPerBundle;
    UnpackLocation(location, FeltsPerItem(params), n);
    DivModUnique(location, location / n, location % n, n);
    if location / n >= indexCount {
      MulMonotone(n, indexCount, location / n);
    }
    if params.labeled {
      AlgItemLabelInField(task.data.itemLabels, e.item, params.itemBitCount, e.encLabel, params.m);
    } else {
      forall k | 0 <= k < FeltsPerItem(params)
        ensures Pack(e.item, params.itemBitCount, BitsPerFelt(params.m))[k] < params.m
      {
        PackBelowModulus(e.item, params.itemBitCount, params.m, k);
      }
    }
  }

  // ---------- What the receiver is told ----------

  /** A bundle anywhere in the database holds the receiver's item. */
  predicate Held(b: Located, item: nat, table: seq<seq<Byte>>, itemOf: map<nat, nat>, params: Params)
    requires ParamsOk(params)
  {
    HeldFor(b.contents, item, b.index, table, itemOf, params)
  }

  predicate HeldBySome(db: seq<Located>, item: nat, table: seq<seq<Byte>>, itemOf: map<nat, nat>, params: Params)
    requires ParamsOk(params)
  {
    exists i :: 0 <= i < |db| && Held(db[i], item, table, itemOf, params)
  }

  predicate HeldByTwo(db: seq<Located>, item: nat, table: seq<seq<Byte>>, itemOf: map<nat, nat>, params: Params)
    requires ParamsOk(params)
  {
    exists i, j :: 0 <= i < j < |db| && Held(db[i], item, table, itemOf, params)
                   && Held(db[j], item, table, itemOf, params)
  }

  /** Every entry that the receiver asked about at one of its locations is matched, with its label. */
  ghost predicate AllMatched(mrs: seq<MatchRecord>, data: seq<Entry>, locationsOf: seq<Byte> -> seq<nat>,
                             table: seq<seq<Byte>>, itemOf: map<nat, nat>, params: Params)
  {
    forall a, h {:trigger locationsOf(data[a].item)[h]} :: 0 <= a < |data| && 0 <= h < |locationsOf(data[a].item)| ==>
      MatchedAt(mrs, data[a], locationsOf(data[a].item)[h], table, itemOf, params)
  }

  /** If the receiver asked about the entry's item at the location, its record says so. */
  predicate MatchedAt(mrs: seq<MatchRecord>, e: Entry, location: nat, table: seq<seq<Byte>>, itemOf: map<nat, nat>,
                      params: Params)
  {
    location < |table| && table[location] == e.item && location in itemOf && itemOf[location] < |mrs|
    ==> RecordsEntry(mrs[itemOf[location]], e, params)
  }

  /** A match means that some bundle holds the item, and the other way round. */
  ghost predicate MatchesAreHeld(mrs: seq<MatchRecord>, db: seq<Located>, table: seq<seq<Byte>>, itemOf: map<nat, nat>,
                                 params: Params)
    requires ParamsOk(params)
  {
    forall item :: 0 <= item < |mrs| ==> (mrs[item].found <==> HeldBySome(db, item, table, itemOf, params))
  }

  /** An item is matched exactly when it is in the data. */
  ghost predicate MatchesAreExact(mrs: seq<MatchRecord>, data: seq<Entry>, table: seq<seq<Byte>>, itemOf: map<nat, nat>)
  {
    forall t :: t in itemOf && t < |table| && itemOf[t] < |mrs| ==> (mrs[itemOf[t]].found <==> HasItem(data, table[t]))
  }

  // ---------- One bundle index ----------

  /** The records of the parts of one index: part i marks exactly the items that bundle i holds. */
  ghost predicate IndexRecorded(records: seq<seq<MatchRecord>>, cs: seq<Contents>, index: nat, table: seq<seq<Byte>>,
                                itemOf: map<nat, nat>, itemCount: nat, params: Params)
    requires ParamsOk(params)
  {
    && |records| == |cs|
    && (forall i :: 0 <= i < |cs| ==> |records[i]| == itemCount)
    && forall i, item :: 0 <= i < |cs| && 0 <= item < itemCount ==>
         (MarkedBy(records, i, item, itemCount) <==> HeldFor(cs[i], item, index, table, itemOf, params))
  }

  /** Both sides for one bundle index; None is a refused powers DAG. */
  method RunIndex(params: Params, cfg: Config, labelByteCount: nat, nonceByteCount: nat, ghost data: seq<Entry>,
                  tasks: seq<Task>, ghost locationsOf: seq<Byte> -> seq<nat>, index: nat, strip: bool,
                  table: seq<seq<Byte>>, sources: seq<nat>, workerCount: nat, schedule: nat -> nat,
                  itemOf: map<nat, nat>, itemCount: nat)
    returns (records: Option<seq<seq<MatchRecord>>>)
    requires ParamsOk(params) && IsPrime(params.m) && ConfigFits(cfg, params, labelByteCount) && Evaluable(cfg)
    requires LabelsFit(data, params, labelByteCount) && tasks == TasksOf(data, locationsOf, params)
    requires params.labeled ==> nonceByteCount < labelByteCount
    requires (index + 1) * params.itemsPerBundle <= |table|
    requires forall i :: 0 <= i < |table| ==> params.itemBitCount <= 8 * |table[i]|
    requires StrictlyIncreasing(sources) && workerCount > 0 && Fair(schedule, workerCount)
    requires Injective(itemOf) && forall t :: t in itemOf ==> itemOf[t] < itemCount
    ensures records.Some? <==> QueryPowersOk(sources, cfg)
    ensures records.Some? ==>
              && IndexRecorded(records.value, Built(data, locationsOf, params, cfg, index), index, table, itemOf,
                               itemCount, params)
              && AllRecorded(records.value, data, locationsOf, index, table, itemOf, params)
  {
    var targets, store, x, nodes, loaded, steps :=
      QueryPowers(params, cfg, index, table, sources, workerCount, schedule);
    if store.None? {
      return None;
    }
    var answers := InsertThenQuery(params, cfg, labelByteCount, data, tasks, locationsOf, index, strip, store.value,
                                   targets, table, x, nodes, sources, loaded, workerCount,
                                   Stretch(schedule, 0, steps), 0);
    var parts := ProcessAnswers(answers, params, cfg, labelByteCount, nonceByteCount, data, locationsOf, index, table,
                                itemOf, itemCount);
    ghost var cs := Built(data, locationsOf, params, cfg, index);
    RoomForBundle(index, params.itemsPerBundle, |table|);
    forall i, item | 0 <= i < |cs| && 0 <= item < itemCount
      ensures MarkedBy(parts, i, item, itemCount) <==> HeldFor(cs[i], item, index, table, itemOf, params)
    {
      assert PartProcessed(parts[i], answers[i], params, labelByteCount, nonceByteCount, index, itemOf, itemCount);
      PartMarksHeld(parts[i], answers, cs, i, params, labelByteCount, nonceByteCount, index, table, itemOf, itemCount,
                    item);
    }
    forall i | 0 <= i < |cs| ensures |parts[i]| == itemCount {
      assert PartProcessed(parts[i], answers[i], params, labelByteCount, nonceByteCount, index, itemOf, itemCount);
    }
    return Some(parts);
  }

  lemma RoomForBundle(index: nat, n: nat, size: nat)
    requires (index + 1) * n <= size
    ensures BundleStart(index, n) + n <= size
  {
  }

  // ---------- All bundle indices ----------

  /** Part i marks exactly the items that bundle i of the database holds. */
  ghost predicate PartsRecorded(parts: seq<seq<MatchRecord>>, db: seq<Located>, table: seq<seq<Byte>>,
                                itemOf: map<nat, nat>, itemCount: nat, params: Params)
    requires ParamsOk(params)
  {
    && |parts| == |db|
    && (forall i :: 0 <= i < |db| ==> |parts[i]| == itemCount)
    && forall i, item :: 0 <= i < |db| && 0 <= item < itemCount ==>
         (MarkedBy(parts, i, item, itemCount) <==> Held(db[i], item, table, itemOf, params))
  }

  lemma PartsAppend(parts: seq<seq<MatchRecord>>, more: seq<seq<MatchRecord>>, db: seq<Located>, cs: seq<Contents>,
                    index: nat, table: seq<seq<Byte>>, itemOf: map<nat, nat>, itemCount: nat, params: Params)
    requires ParamsOk(params) && PartsRecorded(parts, db, table, itemOf, itemCount, params)
    requires IndexRecorded(more, cs, index, table, itemOf, itemCount, params)
    ensures PartsRecorded(parts + more, db + AtIndex(cs, index), table, itemOf, itemCount, params)
  {
    var all, after := parts + more, db + AtIndex(cs, index);
    forall i, item | 0 <= i < |after| && 0 <= item < itemCount
      ensures MarkedBy(all, i, item, itemCount) <==> Held(after[i], item, table, itemOf, params)
    {
      if i < |db| {
        assert MarkedBy(all, i, item, itemCount) <==> MarkedBy(parts, i, item, itemCount);
      } else {
        var q := i - |db|;
        assert MarkedBy(all, i, item, itemCount) <==> MarkedBy(more, q, item, itemCount);
        assert after[i] == Located(index, cs[q]);
      }
    }
  }

  /** The entries at locations of the indices below n are recorded. */
  ghost predicate RecordedBelow(parts: seq<seq<MatchRecord>>, data: seq<Entry>, locationsOf: seq<Byte> -> seq<nat>,
                                n: nat, table: seq<seq<Byte>>, itemOf: map<nat, nat>, params: Params)
  {
    forall a, h {:trigger locationsOf(data[a].item)[h]} :: 0 <= a < |data| && 0 <= h < |locationsOf(data[a].item)| ==>
      RecordedAt(parts, data[a], locationsOf(data[a].item)[h], n, table, itemOf, params)
  }

  predicate RecordedAt(parts: seq<seq<MatchRecord>>, e: Entry, location: nat, n: nat, table: seq<seq<Byte>>,
                       itemOf: map<nat, nat>, params: Params)
  {
    location < n * params.itemsPerBundle && location < |table| && table[location] == e.item && location in itemOf
    ==> RecordedInSome(parts, e, itemOf[location], params)
  }

  lemma RecordedNext(parts: seq<seq<MatchRecord>>, more: seq<seq<MatchRecord>>, data: seq<Entry>,
                     locationsOf: seq<Byte> -> seq<nat>, n: nat, table: seq<seq<Byte>>, itemOf: map<nat, nat>,
                     params: Params)
    requires ParamsOk(params) && RecordedBelow(parts, data, locationsOf, n, table, itemOf, params)
    requires AllRecorded(more, data, locationsOf, n, table, itemOf, params)
    ensures RecordedBelow(parts + more, data, locationsOf, n + 1, table, itemOf, params)
  {
    var next, all := n + 1, parts + more;
    forall a, h | 0 <= a < |data| && 0 <= h < |locationsOf(data[a].item)|
      ensures RecordedAt(all, data[a], locationsOf(data[a].item)[h], next, table, itemOf, params)
    {
      var location := locationsOf(data[a].item)[h];
      assert RecordedAt(parts, data[a], location, n, table, itemOf, params);
      if location < next * params.itemsPerBundle && location < |table| && table[location] == data[a].item
         && location in itemOf {
        var item := itemOf[location];
        if location < n * params.itemsPerBundle {
          var i :| 0 <= i < |parts| && item < |parts[i]| && RecordsEntry(parts[i][item], data[a], params);
          assert all[i] == parts[i];
        } else {
          NextPlace(location, n, params.itemsPerBundle);
          assert IsPlace(locationsOf(data[a].item)[h], n, location - n * params.itemsPerBundle, params.itemsPerBundle);
          var i :| 0 <= i < |more| && item < |more[i]| && RecordsEntry(more[i][item], data[a], params);
          assert all[|parts| + i] == more[i];
        }
      }
    }
  }

  lemma NextPlace(location: nat, index: nat, n: nat)
    requires index * n <= location < (index + 1) * n
    ensures IsPlace(location, index, location - index * n, n)
  {
    MulDist(n, index, 1);
  }

  // ---------- Merging ----------

  lemma TwiceMarked(parts: seq<seq<MatchRecord>>, db: seq<Located>, item: nat, table: seq<seq<Byte>>,
                    itemOf: map<nat, nat>, itemCount: nat, params: Params)
    requires ParamsOk(params) && PartsRecorded(parts, db, table, itemOf, itemCount, params) && item < itemCount
    ensures MarkedTwice(parts, |parts|, item, itemCount) <==> HeldByTwo(db, item, table, itemOf, params)
  {
    if MarkedTwice(parts, |parts|, item, itemCount) {
      var i, j :| 0 <= i < j < |parts| && MarkedBy(parts, i, item, itemCount) && MarkedBy(parts, j, item, itemCount);
      assert Held(db[i], item, table, itemOf, params) && Held(db[j], item, table, itemOf, params);
    }
    if HeldByTwo(db, item, table, itemOf, params) {
      var i, j :| 0 <= i < j < |db| && Held(db[i], item, table, itemOf, params)
                  && Held(db[j], item, table, itemOf, params);
      assert MarkedBy(parts, i, item, itemCount) && MarkedBy(parts, j, item, itemCount);
    }
  }

  lemma OnceMarked(parts: seq<seq<MatchRecord>>, db: seq<Located>, item: nat, table: seq<seq<Byte>>,
                   itemOf: map<nat, nat>, itemCount: nat, params: Params)
    requires ParamsOk(params) && PartsRecorded(parts, db, table, itemOf, itemCount, params) && item < itemCount
    ensures MarkedBelow(parts, |parts|, item, itemCount) <==> HeldBySome(db, item, table, itemOf, params)
  {
    if MarkedBelow(parts, |parts|, item, itemCount) {
      var i :| 0 <= i < |parts| && MarkedBy(parts, i, item, itemCount);
      assert Held(db[i], item, table, itemOf, params);
    }
    if HeldBySome(db, item, table, itemOf, params) {
      var i :| 0 <= i < |db| && Held(db[i], item, table, itemOf, params);
      assert MarkedBy(parts, i, item, itemCount);
    }
  }

  /** The record of the only part that marks the item says what was recorded. */
  lemma MergedIsRecorded(mr: MatchRecord, parts: seq<seq<MatchRecord>>, e: Entry, item: nat, itemCount: nat,
                         params: Params)
    requires RecordedInSome(parts, e, item, params) && item < itemCount
    requires forall i :: 0 <= i < |parts| ==> |parts[i]| == itemCount
    requires MergedRecord(mr, parts, |parts|, item, itemCount)
    ensures RecordsEntry(mr, e, params)
  {
    var i :| 0 <= i < |parts| && item < |parts[i]| && RecordsEntry(parts[i][item], e, params);
    assert MarkedBy(parts, i, item, itemCount);
  }

  /** The exception exactly when two bundles hold an item; otherwise right matches with right labels, and no others. */
  ghost predicate MatchesRight(r: Result<seq<MatchRecord>, MatchError>, db: seq<Located>, data: seq<Entry>,
                               locationsOf: seq<Byte> -> seq<nat>, table: seq<seq<Byte>>, itemOf: map<nat, nat>,
                               itemCount: nat, params: Params)
    requires ParamsOk(params)
  {
    && (r.Err? <==> exists item :: 0 <= item < itemCount && HeldByTwo(db, item, table, itemOf, params))
    && (r.Ok? ==> |r.value| == itemCount && MatchesAreHeld(r.value, db, table, itemOf, params)
                  && AllMatched(r.value, data, locationsOf, table, itemOf, params))
  }

  /** process_result on all parts: it throws exactly when two bundles hold an item. */
  method MergeParts(parts: seq<seq<MatchRecord>>, itemCount: nat, ghost db: seq<Located>, ghost data: seq<Entry>,
                    ghost locationsOf: seq<Byte> -> seq<nat>, ghost n: nat, ghost table: seq<seq<Byte>>,
                    ghost itemOf: map<nat, nat>, ghost params: Params)
    returns (r: Result<seq<MatchRecord>, MatchError>)
    requires ParamsOk(params) && PartsRecorded(parts, db, table, itemOf, itemCount, params)
    requires RecordedBelow(parts, data, locationsOf, n, table, itemOf, params) && |table| == n * params.itemsPerBundle
    ensures MatchesRight(r, db, data, locationsOf, table, itemOf, itemCount, params)
  {
    forall item | 0 <= item < itemCount
      ensures MarkedTwice(parts, |parts|, item, itemCount) <==> HeldByTwo(db, item, table, itemOf, params)
      ensures MarkedBelow(parts, |parts|, item, itemCount) <==> HeldBySome(db, item, table, itemOf, params)
    {
      TwiceMarked(parts, db, item, table, itemOf, itemCount, params);
      OnceMarked(parts, db, item, table, itemOf, itemCount, params);
    }
    r := MergeRecords(parts, itemCount);
    if r.Ok? {
      assert forall item :: 0 <= item < itemCount ==>
               MergedRecord(r.value[item], parts, |parts|, item, itemCount);
      forall a, h | 0 <= a < |data| && 0 <= h < |locationsOf(data[a].item)|
        ensures MatchedAt(r.value, data[a], locationsOf(data[a].item)[h], table, itemOf, params)
      {
        var location := locationsOf(data[a].item)[h];
        assert RecordedAt(parts, data[a], location, n, table, itemOf, params);
        if location < |table| && table[location] == data[a].item && location in itemOf && itemOf[location] < itemCount {
          MergedIsRecorded(r.value[itemOf[location]], parts, data[a], itemOf[location], itemCount, params);
        }
      }
    }
  }

  // ---------- When every match is right ----------

  /** Every item the receiver asks about has a part that no other item of the data shares at its location. */
  ghost predicate AllUnshared(data: seq<Entry>, locationsOf: seq<Byte> -> seq<nat>, params: Params,
                              table: seq<seq<Byte>>, itemOf: map<nat, nat>)
    requires ParamsOk(params)
  {
    forall t :: t in itemOf && t < |table| ==> HasUnsharedPart(data, locationsOf, params, table[t], t)
  }

  /** Where a bundle holds the receiver's item. */
  lemma HeldPlace(b: Located, item: nat, table: seq<seq<Byte>>, itemOf: map<nat, nat>, params: Params)
    returns (t: nat, block: nat)
    requires ParamsOk(params) && Held(b, item, table, itemOf, params)
    ensures t in itemOf && itemOf[t] == item && t < |table| && IsPlace(t, b.index, block, params.itemsPerBundle)
    ensures HoldsItem(b.contents, table[t], block, params)
  {
    block :| 0 <= block < params.itemsPerBundle
             && HeldAt(b.contents, item, block, b.index, table, itemOf, params);
    t := block + BundleStart(b.index, params.itemsPerBundle);
  }

  /** Then a bundle that holds an item shows that the item is in the data. */
  lemma HeldIsInData(data: seq<Entry>, locationsOf: seq<Byte> -> seq<nat>, params: Params, cfg: Config,
                     labelByteCount: nat, n: nat, table: seq<seq<Byte>>, itemOf: map<nat, nat>, t: nat)
    requires ParamsOk(params) && ConfigFits(cfg, params, labelByteCount) && LabelsFit(data, params, labelByteCount)
    requires DistinctItems(data) && LocationsOk(locationsOf, n * params.itemsPerBundle) && Injective(itemOf)
    requires AllUnshared(data, locationsOf, params, table, itemOf) && t in itemOf && t < |table|
    requires HeldBySome(Database(data, locationsOf, params, cfg, n), itemOf[t], table, itemOf, params)
    ensures HasItem(data, table[t])
  {
    var db := Database(data, locationsOf, params, cfg, n);
    var i :| 0 <= i < |db| && Held(db[i], itemOf[t], table, itemOf, params);
    var w, p := BundleOrigin(data, locationsOf, params, cfg, n, i);
    var other, block := HeldPlace(db[i], itemOf[t], table, itemOf, params);
    EntriesPlaced(data, locationsOf, n * params.itemsPerBundle);
    UnsharedPartDecides(data, locationsOf, params, cfg, labelByteCount, table[t], t, w, block, p, p);
  }

  lemma EntriesPlaced(data: seq<Entry>, locationsOf: seq<Byte> -> seq<nat>, size: nat)
    requires LocationsOk(locationsOf, size)
    ensures forall a :: 0 <= a < |data| ==> DistinctLocations(locationsOf(data[a].item))
  {
    forall a | 0 <= a < |data| ensures DistinctLocations(locationsOf(data[a].item)) {
      assert LocationsIn(locationsOf(data[a].item), size);
    }
  }

  /** And no two bundles hold an item. */
  lemma NeverHeldByTwo(data: seq<Entry>, locationsOf: seq<Byte> -> seq<nat>, params: Params, cfg: Config,
                       labelByteCount: nat, n: nat, table: seq<seq<Byte>>, itemOf: map<nat, nat>, item: nat)
    requires ParamsOk(params) && ConfigFits(cfg, params, labelByteCount) && LabelsFit(data, params, labelByteCount)
    requires DistinctItems(data) && LocationsOk(locationsOf, n * params.itemsPerBundle) && Injective(itemOf)
    requires AllUnshared(data, locationsOf, params, table, itemOf)
    ensures !HeldByTwo(Database(data, locationsOf, params, cfg, n), item, table, itemOf, params)
  {
    var db, ipb := Database(data, locationsOf, params, cfg, n), params.itemsPerBundle;
    if HeldByTwo(db, item, table, itemOf, params) {
      var i, j :| 0 <= i < j < |db| && Held(db[i], item, table, itemOf, params)
                  && Held(db[j], item, table, itemOf, params);
      var w, v, p, q := DatabaseOrigin(data, locationsOf, params, cfg, n, i, j);
      var t, b1 := HeldPlace(db[i], item, table, itemOf, params);
      var u, b2 := HeldPlace(db[j], item, table, itemOf, params);
      assert t == u;
      SamePlace(t, t, w, b1, ipb);
      SamePlace(t, t, v, b2, ipb);
      EntriesPlaced(data, locationsOf, n * ipb);
      UnsharedPartDecides(data, locationsOf, params, cfg, labelByteCount, table[t], t, w, b1, p, q);
    }
  }

  /** What holds for the first entry of each item holds for all entries, unless they differ in their labels. */
  lemma MatchedForAll(mrs: seq<MatchRecord>, data: seq<Entry>, locationsOf: seq<Byte> -> seq<nat>,
                      table: seq<seq<Byte>>, itemOf: map<nat, nat>, params: Params)
    requires AllMatched(mrs, NewEntries(data, {}), locationsOf, table, itemOf, params)
    requires params.labeled ==> DistinctItems(data)
    ensures AllMatched(mrs, data, locationsOf, table, itemOf, params)
  {
    var newData := NewEntries(data, {});
    AllNewIffDistinct(data);
    NewEntriesRight(data, {});
    forall a, h | 0 <= a < |data| && 0 <= h < |locationsOf(data[a].item)|
      ensures MatchedAt(mrs, data[a], locationsOf(data[a].item)[h], table, itemOf, params)
    {
      assert HasItem(data, data[a].item) && HasItem(newData, data[a].item);
      if params.labeled {
        assert newData[a] == data[a];
        assert MatchedAt(mrs, newData[a], locationsOf(newData[a].item)[h], table, itemOf, params);
      } else {
        var c :| 0 <= c < |newData| && newData[c].item == data[a].item;
        assert MatchedAt(mrs, newData[c], locationsOf(newData[c].item)[h], table, itemOf, params);
      }
    }
  }

  // ---------- The whole protocol ----------

  /** The parameters of both sides and the database's configuration belong together. */
  ghost predicate Consistent(params: Params, cfg: Config, labelByteCount: nat, nonceByteCount: nat) {
    && ParamsOk(params) && IsPrime(params.m) && ConfigFits(cfg, params, labelByteCount) && Evaluable(cfg)
    && (params.labeled ==> nonceByteCount < labelByteCount)
  }

  /** The receiver's cuckoo table, and the translation from its locations to the receiver's items. */
  ghost predicate TableOk(table: seq<seq<Byte>>, itemOf: map<nat, nat>, itemCount: nat,
                          locationsOf: seq<Byte> -> seq<nat>, params: Params)
  {
    && (forall i :: 0 <= i < |table| ==> params.itemBitCount <= 8 * |table[i]|)
    && Injective(itemOf)
    && forall t :: t in itemOf ==> itemOf[t] < itemCount && t < |table| && t in locationsOf(table[t])
  }

  /** The data can be inserted: in labeled mode no item may be listed twice. */
  predicate Insertable(data: seq<Entry>, params: Params) {
    params.labeled ==> DistinctItems(data)
  }

  /**
   From the sender's data and the receiver's table to the match records, with nothing assumed about the
   query, the powers or the results, for stripped and unstripped databases and under fair schedules of the
   sender's threads. Every failure has its exact condition, and if each queried item has a part that no
   other item of the data shares at its location, then the matches are exactly the common items.
   */
  method RunProtocol(params: Params, cfg: Config, labelByteCount: nat, nonceByteCount: nat, data: seq<Entry>,
                     tail: seq<Entry>, locationsOf: seq<Byte> -> seq<nat>, indexCount: nat, strip: bool,
                     table: seq<seq<Byte>>, sources: seq<nat>, workerCount: nat, schedules: nat -> (nat -> nat),
                     itemOf: map<nat, nat>, itemCount: nat)
    returns (r: Result<seq<MatchRecord>, ProtocolError>)
    requires Consistent(params, cfg, labelByteCount, nonceByteCount) && LabelsFit(data, params, labelByteCount)
    requires forall a :: 0 <= a < |data| ==> EntryOk(data[a], params)
    requires |tail| == |data| - |NewEntries(data, {})| && forall a :: 0 <= a < |tail| ==> EntryOk(tail[a], params)
    requires indexCount > 0 && |table| == indexCount * params.itemsPerBundle && LocationsOk(locationsOf, |table|)
    requires TableOk(table, itemOf, itemCount, locationsOf, params)
    requires StrictlyIncreasing(sources) && workerCount > 0 && forall w :: Fair(schedules(w), workerCount)
    ensures r.Err? && r.error.InsertFailed? <==> !Insertable(data, params)
    ensures r == Err(QueryRefused) <==> Insertable(data, params) && !QueryPowersOk(sources, cfg)
    ensures Insertable(data, params) && QueryPowersOk(sources, cfg) ==>
              MatchesRight(if r.Ok? then Ok(r.value) else Err(DuplicateMatch),
                           Database(NewEntries(data, {}), locationsOf, params, cfg, indexCount), data, locationsOf,
                           table, itemOf, itemCount, params)
    ensures Insertable(data, params) && QueryPowersOk(sources, cfg)
            && AllUnshared(NewEntries(data, {}), locationsOf, params, table, itemOf) ==>
              r.Ok? && MatchesAreExact(r.value, data, table, itemOf)
  {
    var split := SplitNewData(data, tail, locationsOf, params, cfg, indexCount);
    if split.Err? {
      return Err(InsertFailed(split.error));
    }
    ghost var newData := NewEntries(data, {});
    NewEntriesRight(data, {});
    var parts := RunAllIndices(params, cfg, labelByteCount, nonceByteCount, newData, split.value, locationsOf,
                               indexCount, strip, table, sources, workerCount, schedules, itemOf, itemCount);
    if parts.None? {
      return Err(QueryRefused);
    }
    ghost var db := Database(newData, locationsOf, params, cfg, indexCount);
    var merged := MergeParts(parts.value, itemCount, db, newData, locationsOf, indexCount, table, itemOf, params);
    RightForAll(merged, db, data, locationsOf, table, itemOf, itemCount, params);
    if AllUnshared(newData, locationsOf, params, table, itemOf) {
      UnsharedMeansExact(merged, data, locationsOf, params, cfg, labelByteCount, indexCount, table, itemOf, itemCount);
    }
    if merged.Err? {
      return Err(TwoMatches);
    }
    return Ok(merged.value);
  }

  lemma RightForAll(r: Result<seq<MatchRecord>, MatchError>, db: seq<Located>, data: seq<Entry>,
                    locationsOf: seq<Byte> -> seq<nat>, table: seq<seq<Byte>>, itemOf: map<nat, nat>, itemCount: nat,
                    params: Params)
    requires ParamsOk(params) && Insertable(data, params)
    requires MatchesRight(r, db, NewEntries(data, {}), locationsOf, table, itemOf, itemCount, params)
    ensures MatchesRight(r, db, data, locationsOf, table, itemOf, itemCount, params)
  {
    if r.Ok? {
      MatchedForAll(r.value, data, locationsOf, table, itemOf, params);
    }
  }

  lemma UnsharedMeansExact(r: Result<seq<MatchRecord>, MatchError>, data: seq<Entry>,
                           locationsOf: seq<Byte> -> seq<nat>, params: Params, cfg: Config, labelByteCount: nat, n: nat,
                           table: seq<seq<Byte>>, itemOf: map<nat, nat>, itemCount: nat)
    requires ParamsOk(params) && ConfigFits(cfg, params, labelByteCount) && LabelsFit(data, params, labelByteCount)
    requires LocationsOk(locationsOf, n * params.itemsPerBundle)
    requires TableOk(table, itemOf, itemCount, locationsOf, params)
    requires AllUnshared(NewEntries(data, {}), locationsOf, params, table, itemOf)
    requires MatchesRight(r, Database(NewEntries(data, {}), locationsOf, params, cfg, n), data, locationsOf, table,
                          itemOf, itemCount, params)
    ensures r.Ok? && MatchesAreExact(r.value, data, table, itemOf)
  {
    var db := Database(NewEntries(data, {}), locationsOf, params, cfg, n);
    NewEntriesRight(data, {});
    if item :| 0 <= item < itemCount && HeldByTwo(db, item, table, itemOf, params) {
      NeverHeldByTwo(NewEntries(data, {}), locationsOf, params, cfg, labelByteCount, n, table, itemOf, item);
    }
    ExactMatches(r.value, data, locationsOf, params, cfg, labelByteCount, n, table, itemOf);
  }

  lemma ExactMatches(mrs: seq<MatchRecord>, data: seq<Entry>, locationsOf: seq<Byte> -> seq<nat>, params: Params,
                     cfg: Config, labelByteCount: nat, n: nat, table: seq<seq<Byte>>, itemOf: map<nat, nat>)
    requires ParamsOk(params) && ConfigFits(cfg, params, labelByteCount) && LabelsFit(data, params, labelByteCount)
    requires LocationsOk(locationsOf, n * params.itemsPerBundle) && TableOk(table, itemOf, |mrs|, locationsOf, params)
    requires AllUnshared(NewEntries(data, {}), locationsOf, params, table, itemOf)
    requires MatchesAreHeld(mrs, Database(NewEntries(data, {}), locationsOf, params, cfg, n), table, itemOf, params)
    requires AllMatched(mrs, data, locationsOf, table, itemOf, params)
    ensures MatchesAreExact(mrs, data, table, itemOf)
  {
    var newData := NewEntries(data, {});
    NewEntriesRight(data, {});
    forall t | t in itemOf && t < |table| && itemOf[t] < |mrs|
      ensures mrs[itemOf[t]].found <==> HasItem(data, table[t])
    {
      if mrs[itemOf[t]].found {
        HeldIsInData(newData, locationsOf, params, cfg, labelByteCount, n, table, itemOf, t);
      }
      if HasItem(data, table[t]) {
        var a :| 0 <= a < |data| && data[a].item == table[t];
        var h :| 0 <= h < |locationsOf(table[t])| && locationsOf(table[t])[h] == t;
        assert MatchedAt(mrs, data[a], locationsOf(data[a].item)[h], table, itemOf, params);
      }
    }
  }

  /** All bundle indices in turn; None is a refused powers DAG. */
  method RunAllIndices(params: Params, cfg: Config, labelByteCount: nat, nonceByteCount: nat, ghost data: seq<Entry>,
                       tasks: seq<Task>, ghost locationsOf: seq<Byte> -> seq<nat>, indexCount: nat, strip: bool,
                       table: seq<seq<Byte>>, sources: seq<nat>, workerCount: nat, schedules: nat -> (nat -> nat),
                       itemOf: map<nat, nat>, itemCount: nat)
    returns (parts: Option<seq<seq<MatchRecord>>>)
    requires Consistent(params, cfg, labelByteCount, nonceByteCount) && LabelsFit(data, params, labelByteCount)
    requires tasks == TasksOf(data, locationsOf, params) && indexCount > 0
    requires |table| == indexCount * params.itemsPerBundle && TableOk(table, itemOf, itemCount, locationsOf, params)
    requires StrictlyIncreasing(sources) && workerCount > 0 && forall w :: Fair(schedules(w), workerCount)
    ensures parts.Some? <==> QueryPowersOk(sources, cfg)
    ensures parts.Some? ==>
              && PartsRecorded(parts.value, Database(data, locationsOf, params, cfg, indexCount), table, itemOf,
                               itemCount, params)
              && RecordedBelow(parts.value, data, locationsOf, indexCount, table, itemOf, params)
  {
    var all: seq<seq<MatchRecord>> := [];
    for w := 0 to indexCount
      invariant w > 0 ==> QueryPowersOk(sources, cfg)
      invariant PartsRecorded(all, Database(data, locationsOf, params, cfg, w), table, itemOf, itemCount, params)
      invariant RecordedBelow(all, data, locationsOf, w, table, itemOf, params)
    {
      MulMonotone(params.itemsPerBundle, w + 1, indexCount);
      var records := RunIndex(params, cfg, labelByteCount, nonceByteCount, data, tasks, locationsOf, w, strip, table,
                              sources, workerCount, schedules(w), itemOf, itemCount);
      if records.None? {
        return None;
      }
      PartsAppend(all, records.value, Database(data, locationsOf, params, cfg, w),
                  Built(data, locationsOf, params, cfg, w), w, table, itemOf, itemCount, params);
      RecordedNext(all, records.value, data, locationsOf, w, table, itemOf, params);
      all := all + records.value;
    }
    return Some(all);
  }

  // ---------- Without an unshared part ----------

  lemma HeldHere(cs: seq<Contents>, i: nat, item: seq<Byte>, params: Params)
    requires ParamsOk(params) && i < |cs| && HoldsItem(cs[i], item, 0, params)
    ensures Held(AtIndex(cs, 0)[i], 0, [item], map[0 := 0], params)
  {
    assert HeldAt(cs[i], 0, 0, 0, [item], map[0 := 0], params);
  }

  /** The smallest parameters meet all conditions of the protocol; the receiver asks about the first item only. */
  ghost predicate SmallRunOk(data: seq<Entry>) {
    && Consistent(SMALL, SMALL_DB, 1, 0) && QueryPowersOk([1], SMALL_DB) && LocationsOk(OnlyLocation, 1)
    && TableOk([FIRST.item], map[0 := 0], 1, OnlyLocation, SMALL)
    && LabelsFit(data, SMALL, 1) && Insertable(data, SMALL)
  }

  lemma SmallIsOk(data: seq<Entry>)
    requires DistinctItems(data) && LabelsFit(data, SMALL, 1)
    ensures SmallRunOk(data)
  {
    SmallParams();
  }

  lemma OneIndex(data: seq<Entry>)
    requires ParamsOk(SMALL) && ConfigOk(SMALL_DB)
    ensures Database(data, OnlyLocation, SMALL, SMALL_DB, 1)
            == AtIndex(Built(data, OnlyLocation, SMALL, SMALL_DB, 0), 0)
  {
    assert Database(data, OnlyLocation, SMALL, SMALL_DB, 0) == [];
  }

  /** Three distinct items, one of which the receiver asks about, and the receiver throws. */
  lemma ThrowingExample()
    ensures var data := [FIRST, WITH_SAME_LOW, WITH_SAME_HIGH];
            SmallRunOk(data) && HeldByTwo(Database(data, OnlyLocation, SMALL, SMALL_DB, 1), 0, [FIRST.item],
                                          map[0 := 0], SMALL)
  {
    CoincidenceExample();
    var data := [FIRST, WITH_SAME_LOW, WITH_SAME_HIGH];
    var cs := Built(data, OnlyLocation, SMALL, SMALL_DB, 0);
    SmallIsOk(data);
    OneIndex(data);
    HeldHere(cs, 0, FIRST.item, SMALL);
    HeldHere(cs, 1, FIRST.item, SMALL);
  }

  /** Two items, neither of which the receiver asks about, and it is told of a match. */
  lemma FalseMatchIsTold()
    ensures var data := [WITH_SAME_LOW, WITH_SAME_HIGH];
            && SmallRunOk(data) && !HasItem(data, FIRST.item)
            && HeldBySome(Database(data, OnlyLocation, SMALL, SMALL_DB, 1), 0, [FIRST.item], map[0 := 0], SMALL)
  {
    FalseMatchExample();
    var data := [WITH_SAME_LOW, WITH_SAME_HIGH];
    SmallIsOk(data);
    OneIndex(data);
    HeldHere(Built(data, OnlyLocation, SMALL, SMALL_DB, 0), 0, FIRST.item, SMALL);
  }
}
