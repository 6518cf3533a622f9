/**
 The bundles of one index over a whole history of insertions, overwrites and removals: every entry that is
 still stored is found by a query with its current label, and by a look-up of its label.
 */
module Histories {
  import opened Wrappers
  import opened ModArith
  import opened Bits
  import opened DbEncoding
  import opened BinContents
  import opened BinBundles
  import opened BundleSets
  import opened SenderDB
  import opened Preprocess
  import opened Seal
  import opened Sender
  import opened Receiver
  import opened EndToEnd
  import opened SharedParts

  // ---------- Histories ----------

  /** One run of a worker of the index. */
  datatype WorkerTask =
    | InsertNew(tasks: seq<Task>)
    | Assign(tasks: seq<Task>)
    | Withdraw(removals: seq<RemoveTask>)

  predicate RunInField(run: WorkerTask, p: nat) {
    !run.Withdraw? ==> TasksInField(run.tasks, p)
  }

  function RunOutcome(cs: seq<Contents>, run: WorkerTask, index: nat, cfg: Config):
    (r: (seq<Contents>, Option<WorkerError>))
    requires AllSized(cs, cfg) && ConfigOk(cfg)
    ensures AllSized(r.0, cfg)
  {
    match run
    case InsertNew(tasks) => InsertRun(cs, tasks, index, cfg)
    case Assign(tasks) => AssignRun(cs, tasks, index, cfg)
    case Withdraw(removals) => RemoveRun(cs, removals, index, cfg)
  }

  /** The contents after all runs; an exception ends its own run only. */
  function After(cs: seq<Contents>, runs: seq<WorkerTask>, index: nat, cfg: Config): (r: seq<Contents>)
    requires AllSized(cs, cfg) && ConfigOk(cfg)
    ensures AllSized(r, cfg)
  {
    if runs == [] then cs else RunOutcome(After(cs, runs[..|runs| - 1], index, cfg), runs[|runs| - 1], index, cfg).0
  }

  /** No history breaks the bundles or makes a bin too large for the computed powers. */
  lemma {:induction false} HistoryKeeps(cs: seq<Contents>, runs: seq<WorkerTask>, index: nat, cfg: Config)
    requires AllSized(cs, cfg) && AllSound(cs, cfg) && ConfigOk(cfg) && Capped(cs, Cap(cfg))
    requires forall r :: 0 <= r < |runs| ==> RunInField(runs[r], cfg.p)
    ensures AllSound(After(cs, runs, index, cfg), cfg) && Capped(After(cs, runs, index, cfg), Cap(cfg))
  {
    if runs != [] {
      var n := |runs| - 1;
      HistoryKeeps(cs, runs[..n], index, cfg);
      var before := After(cs, runs[..n], index, cfg);
      match runs[n]
      case InsertNew(tasks) =>
        InsertionSound(before, tasks, index, cfg);
        InsertionCapped(before, tasks, index, cfg);
      case Assign(tasks) =>
        AssignmentSound(before, tasks, index, cfg);
        AssignmentCapped(before, tasks, index, cfg);
      case Withdraw(removals) =>
        RemovalSound(before, removals, index, cfg);
        RemovalCapped(before, removals, index, cfg);
    }
  }

  /** The workers themselves. */
  method PerformRuns(db: BundleSet, runs: seq<WorkerTask>, index: nat)
    requires db.Valid() && forall r :: 0 <= r < |runs| ==> RunInField(runs[r], db.cfg.p)
    modifies db, db.bundles
    ensures db.Valid() && AllSized(old(db.All()), db.cfg) && db.All() == After(old(db.All()), runs, index, db.cfg)
    ensures forall i :: 0 <= i < |db.bundles| ==> db.bundles[i] in old(db.bundles) || fresh(db.bundles[i])
  {
    db.ValidSized();
    ghost var was := db.All();
    for r := 0 to |runs|
      invariant db.Valid() && db.All() == After(was, runs[..r], index, db.cfg)
      invariant forall i :: 0 <= i < |db.bundles| ==> db.bundles[i] in old(db.bundles) || fresh(db.bundles[i])
    {
      assert runs[..r + 1][..r] == runs[..r];
      PerformRun(db, runs[r], index);
    }
    assert runs[..|runs|] == runs;
  }

  method PerformRun(db: BundleSet, run: WorkerTask, index: nat)
    requires db.Valid() && RunInField(run, db.cfg.p)
    modifies db, db.bundles
    ensures db.Valid() && AllSized(old(db.All()), db.cfg) && db.All() == RunOutcome(old(db.All()), run, index, db.cfg).0
    ensures forall i :: 0 <= i < |db.bundles| ==> db.bundles[i] in old(db.bundles) || fresh(db.bundles[i])
  {
    match run {
      case InsertNew(tasks) => var error := db.InsertOrAssignWorker(tasks, index, false);
      case Assign(tasks) => var error := db.InsertOrAssignWorker(tasks, index, true);
      case Withdraw(removals) => var error := db.RemoveWorker(removals, index);
    }
  }

  // ---------- What stays stored ----------

  /** The run touches none of the parts; an insertion never does harm. */
  ghost predicate Undisturbed(run: WorkerTask, index: nat, cfg: Config, kept: seq<ItemLabel>, at: nat)
    requires ConfigOk(cfg)
  {
    match run
    case InsertNew(tasks) => true
    case Assign(tasks) => forall k :: 0 <= k < |tasks| ==> AssignedApart(tasks[k], index, cfg, kept, at)
    case Withdraw(removals) => forall k :: 0 <= k < |removals| ==> TaskApart(removals[k], index, cfg, kept, at)
  }

  lemma OutcomeKeepsStored(cs: seq<Contents>, run: WorkerTask, index: nat, cfg: Config, i: nat, kept: seq<ItemLabel>,
                           at: nat)
    returns (j: nat)
    requires AllSized(cs, cfg) && ConfigOk(cfg) && StoredBy(cs, i, kept, at) && kept != []
    requires Undisturbed(run, index, cfg, kept, at)
    ensures StoredBy(RunOutcome(cs, run, index, cfg).0, j, kept, at)
  {
    j := i;
    match run
    case InsertNew(tasks) => InsertionKeepsStored(cs, tasks, index, cfg, i, kept, at);
    case Assign(tasks) => AssignmentKeepsStored(cs, tasks, index, cfg, i, kept, at);
    case Withdraw(removals) =>
      RemovalKeepsStored(cs, removals, index, cfg, i, kept, at);
      j :| StoredBy(RemoveRun(cs, removals, index, cfg).0, j, kept, at);
  }

  lemma {:induction false} HistoryKeepsStored(cs: seq<Contents>, runs: seq<WorkerTask>, r: nat, index: nat, cfg: Config,
                                              i: nat, kept: seq<ItemLabel>, at: nat)
    returns (j: nat)
    requires AllSized(cs, cfg) && ConfigOk(cfg) && r <= |runs| && kept != []
    requires StoredBy(After(cs, runs[..r], index, cfg), i, kept, at)
    requires forall q :: r <= q < |runs| ==> Undisturbed(runs[q], index, cfg, kept, at)
    ensures StoredBy(After(cs, runs, index, cfg), j, kept, at)
    decreases |runs|
  {
    if r == |runs| {
      assert runs[..r] == runs;
      return i;
    }
    var n := |runs| - 1;
    assert runs[..n][..r] == runs[..r];
    var mid := HistoryKeepsStored(cs, runs[..n], r, index, cfg, i, kept, at);
    j := OutcomeKeepsStored(After(cs, runs[..n], index, cfg), runs[n], index, cfg, mid, kept, at);
  }

  /**
   Run r sends the entry to the location, ends without an exception, and nothing that is done later, in the
   same run or afterwards, touches its parts.
   */
  ghost predicate SentAndKept(cs: seq<Contents>, runs: seq<WorkerTask>, r: nat, k: nat, e: Entry, location: nat,
                              index: nat, cfg: Config, params: Params)
    requires AllSized(cs, cfg) && ConfigOk(cfg) && ParamsOk(params)
  {
    var task := TaskFor(e, location, params);
    var at := BinIdx(task.cuckooIdx, cfg);
    && r < |runs| && RunOutcome(After(cs, runs[..r], index, cfg), runs[r], index, cfg).1 == None
    && !runs[r].Withdraw? && k < |runs[r].tasks| && runs[r].tasks[k] == task
    && (runs[r].Assign? ==> params.labeled)
    && (forall j :: runs[r].Assign? && k < j < |runs[r].tasks| ==>
          AssignedApart(runs[r].tasks[j], index, cfg, Parts(task.data), at))
    && forall q :: r < q < |runs| ==> Undisturbed(runs[q], index, cfg, Parts(task.data), at)
  }

  /** Such an entry is stored at the end, with the label of that run. */
  lemma SentIsStored(cs: seq<Contents>, runs: seq<WorkerTask>, r: nat, k: nat, e: Entry, location: nat, index: nat,
                     cfg: Config, params: Params)
    returns (i: nat)
    requires AllSized(cs, cfg) && AllSound(cs, cfg) && ConfigOk(cfg) && Capped(cs, Cap(cfg)) && ParamsOk(params)
    requires forall q :: 0 <= q < |runs| ==> RunInField(runs[q], cfg.p)
    requires SentAndKept(cs, runs, r, k, e, location, index, cfg, params)
    requires BundleIdx(TaskFor(e, location, params).cuckooIdx, cfg) == index
    ensures StoredBy(After(cs, runs, index, cfg), i, Parts(AlgDataOf(e, params)),
                     BinIdx(TaskFor(e, location, params).cuckooIdx, cfg))
  {
    FeltsPerItemPositive(params);
    var task := TaskFor(e, location, params);
    var parts, at := Parts(task.data), BinIdx(task.cuckooIdx, cfg);
    HistoryKeeps(cs, runs[..r], index, cfg);
    var before := After(cs, runs[..r], index, cfg);
    if runs[r].InsertNew? {
      InsertedIsStored(before, runs[r].tasks, index, cfg, k);
    } else {
      AssignedIsStored(before, runs[r].tasks, index, cfg, k);
    }
    var first :| StoredBy(RunOutcome(before, runs[r], index, cfg).0, first, parts, at);
    assert runs[..r + 1][..r] == runs[..r];
    i := HistoryKeepsStored(cs, runs, r + 1, index, cfg, first, parts, at);
  }

  // ---------- Queries after a history ----------

  /** Bundle i stores the entry's parts and label parts in the bins of the block. */
  predicate StoredAt(cs: seq<Contents>, i: nat, e: Entry, block: nat, params: Params)
    requires ParamsOk(params)
  {
    StoredBy(cs, i, Parts(AlgDataOf(e, params)), PartBin(block, 0, FeltsPerItem(params)))
  }

  /** Every bundle that stores an entry the receiver asks about answers with zeros and the entry's label. */
  ghost predicate StoredAreFound(answers: seq<Answer>, cs: seq<Contents>, index: nat, table: seq<seq<Byte>>,
                                 params: Params)
    requires ParamsOk(params) && |answers| == |cs|
  {
    forall i, e, block {:trigger StoredAt(cs, i, e, block, params)} ::
      0 <= i < |cs| && 0 <= block < params.itemsPerBundle && StoredAt(cs, i, e, block, params)
      && AskedAt(e, block, index, table, params)
      ==> FoundAt(answers[i], e, block, params)
  }

  predicate AskedAt(e: Entry, block: nat, index: nat, table: seq<seq<Byte>>, params: Params) {
    var location := block + BundleStart(index, params.itemsPerBundle);
    location < |table| && table[location] == e.item
  }

  lemma StoredAreAnswered(answers: seq<Answer>, cs: seq<Contents>, index: nat, table: seq<seq<Byte>>, x: seq<nat>,
                          params: Params, cfg: Config, labelByteCount: nat)
    requires ParamsOk(params) && ConfigFits(cfg, params, labelByteCount) && AllSized(cs, cfg)
    requires AnsweredBy(answers, cs, x) && QueryOf(x, table, index, params)
    ensures StoredAreFound(answers, cs, index, table, params)
  {
    forall i, e, block | 0 <= i < |cs| && 0 <= block < params.itemsPerBundle && StoredAt(cs, i, e, block, params)
                         && AskedAt(e, block, index, table, params)
      ensures FoundAt(answers[i], e, block, params)
    {
      var location := block + BundleStart(index, params.itemsPerBundle);
      OneIsAnswered(answers[i], cs, i, e, location, index, block, table, x, params, cfg, labelByteCount);
    }
  }

  lemma OneIsAnswered(answer: Answer, cs: seq<Contents>, i: nat, e: Entry, location: nat, index: nat, block: nat,
                      table: seq<seq<Byte>>, x: seq<nat>, params: Params, cfg: Config, labelByteCount: nat)
    requires ParamsOk(params) && ConfigFits(cfg, params, labelByteCount) && i < |cs| && Sized(cs[i], cfg)
    requires IsPlace(location, index, block, params.itemsPerBundle) && StoredAt(cs, i, e, block, params)
    requires location < |table| && table[location] == e.item && QueryOf(x, table, index, params)
    requires AnswersAll(answer, cs[i], x)
    ensures FoundAt(answer, e, block, params)
  {
    FeltsPerItemPositive(params);
    if params.labeled {
      LabelSizePositive(labelByteCount, params.itemBitCount);
    }
    LaidOutIsQueried(x, table, location, index, block, params);
    TaskPlace(e, location, params, cfg);
    StoredIsFound(cs[i], Parts(AlgDataOf(e, params)), TaskFor(e, location, params), e, location, block, answer, x,
                  params);
  }

  /** Entries that some run sent to a location the receiver asks about, and that nothing touched later, are found. */
  ghost predicate KeptAreFound(answers: seq<Answer>, cs: seq<Contents>, runs: seq<WorkerTask>, index: nat, cfg: Config,
                               table: seq<seq<Byte>>, params: Params)
    requires AllSized(cs, cfg) && ConfigOk(cfg) && ParamsOk(params)
  {
    forall r: nat, k: nat, e: Entry, location: nat, block: nat
           {:trigger SentAndKept(cs, runs, r, k, e, location, index, cfg, params),
                                              IsPlace(location, index, block, params.itemsPerBundle)} ::
      SentAndKept(cs, runs, r, k, e, location, index, cfg, params)
      && IsPlace(location, index, block, params.itemsPerBundle) && location < |table| && table[location] == e.item
      ==> FoundInSome(answers, e, block, params)
  }

  lemma KeptAreAnswered(answers: seq<Answer>, cs: seq<Contents>, runs: seq<WorkerTask>, index: nat, cfg: Config,
                        table: seq<seq<Byte>>, params: Params, labelByteCount: nat)
    requires AllSized(cs, cfg) && AllSound(cs, cfg) && ConfigOk(cfg) && Capped(cs, Cap(cfg)) && ParamsOk(params)
    requires ConfigFits(cfg, params, labelByteCount) && forall q :: 0 <= q < |runs| ==> RunInField(runs[q], cfg.p)
    requires |answers| == |After(cs, runs, index, cfg)|
    requires StoredAreFound(answers, After(cs, runs, index, cfg), index, table, params)
    ensures KeptAreFound(answers, cs, runs, index, cfg, table, params)
  {
    forall r: nat, k: nat, e: Entry, location: nat, block: nat |
      SentAndKept(cs, runs, r, k, e, location, index, cfg, params)
      && IsPlace(location, index, block, params.itemsPerBundle) && location < |table| && table[location] == e.item
      ensures FoundInSome(answers, e, block, params)
    {
      KeptIsAnswered(answers, cs, runs, r, k, e, location, index, block, cfg, table, params, labelByteCount);
    }
  }

  lemma KeptIsAnswered(answers: seq<Answer>, cs: seq<Contents>, runs: seq<WorkerTask>, r: nat, k: nat, e: Entry,
                       location: nat, index: nat, block: nat, cfg: Config, table: seq<seq<Byte>>, params: Params,
                       labelByteCount: nat)
    requires AllSized(cs, cfg) && AllSound(cs, cfg) && ConfigOk(cfg) && Capped(cs, Cap(cfg)) && ParamsOk(params)
    requires ConfigFits(cfg, params, labelByteCount) && forall q :: 0 <= q < |runs| ==> RunInField(runs[q], cfg.p)
    requires |answers| == |After(cs, runs, index, cfg)|
    requires StoredAreFound(answers, After(cs, runs, index, cfg), index, table, params)
    requires SentAndKept(cs, runs, r, k, e, location, index, cfg, params)
    requires IsPlace(location, index, block, params.itemsPerBundle) && location < |table| && table[location] == e.item
    ensures FoundInSome(answers, e, block, params)
  {
    TaskPlace(e, location, params, cfg);
    SamePlace(location, location, index, block, params.itemsPerBundle);
    var i := SentIsStored(cs, runs, r, k, e, location, index, cfg, params);
    assert StoredAt(After(cs, runs, index, cfg), i, e, block, params) && AskedAt(e, block, index, table, params);
    assert FoundAt(answers[i], e, block, params);
  }

  /** The caches are generated, and the database is queried. */
  method QueryStored(db: BundleSet, ghost index: nat, store: map<nat, Ciphertext>, targets: seq<nat>,
                     ghost params: Params, ghost labelByteCount: nat, ghost table: seq<seq<Byte>>, ghost x: seq<nat>)
    returns (answers: seq<Answer>)
    requires db.Valid() && AllSized(db.All(), db.cfg) && Capped(db.All(), Cap(db.cfg)) && Evaluable(db.cfg)
    requires TargetsRight(targets, db.cfg) && ParamsOk(params) && ConfigFits(db.cfg, params, labelByteCount)
    requires QueryOf(x, table, index, params)
    requires forall t :: t in targets ==> t in store && HoldsPower(store[t], x, t, db.cfg.p)
    modifies db.bundles
    ensures db.Valid() && db.All() == old(db.All())
    ensures |answers| == |db.All()| && StoredAreFound(answers, db.All(), index, table, params)
  {
    ghost var cs := db.All();
    db.GenerateCaches();
    answers := QueryBundles(db, cs, store, targets, x);
    StoredAreAnswered(answers, cs, index, table, x, params, db.cfg, labelByteCount);
  }

  /** A database is changed in any way, its caches are generated, and it is queried. */
  method QueryAfterRuns(db: BundleSet, runs: seq<WorkerTask>, index: nat, store: map<nat, Ciphertext>,
                        targets: seq<nat>, ghost params: Params, ghost labelByteCount: nat, ghost table: seq<seq<Byte>>,
                        ghost x: seq<nat>)
    returns (answers: seq<Answer>)
    requires db.Valid() && Capped(db.All(), Cap(db.cfg)) && Evaluable(db.cfg) && TargetsRight(targets, db.cfg)
    requires ParamsOk(params) && ConfigFits(db.cfg, params, labelByteCount)
    requires forall r :: 0 <= r < |runs| ==> RunInField(runs[r], db.cfg.p)
    requires QueryOf(x, table, index, params)
    requires forall t :: t in targets ==> t in store && HoldsPower(store[t], x, t, db.cfg.p)
    modifies db, db.bundles
    ensures db.Valid() && AllSized(old(db.All()), db.cfg) && db.All() == After(old(db.All()), runs, index, db.cfg)
    ensures |answers| == |db.All()| && StoredAreFound(answers, db.All(), index, table, params)
    ensures KeptAreFound(answers, old(db.All()), runs, index, db.cfg, table, params)
  {
    db.ValidSized();
    ghost var was := db.All();
    HistoryKeeps(was, runs, index, db.cfg);
    PerformRuns(db, runs, index);
    answers := QueryStored(db, index, store, targets, params, labelByteCount, table, x);
    KeptAreAnswered(answers, was, runs, index, db.cfg, table, params, labelByteCount);
  }

  // ---------- Looking up a label ----------

  /** The bytes are those of the label of every entry that a bundle stores for the item. */
  ghost predicate IsStoredLabel(bytes: seq<Byte>, c: Contents, item: seq<Byte>, at: nat, labelByteCount: nat,
                                params: Params)
    requires ParamsOk(params)
  {
    forall e: Entry {:trigger AlgDataOf(e, params)} ::
      e.item == item && |e.encLabel| == labelByteCount && StoresLabels(c, Parts(AlgDataOf(e, params)), at)
      ==> bytes == e.encLabel
  }

  function Felts(item: seq<Byte>, params: Params): seq<nat>
    requires ParamsOk(params)
  {
    Pack(item, params.itemBitCount, BitsPerFelt(params.m))
  }

  /** Bundle i stores the entry, and no other copy of its part k lies in the same bin of any bundle. */
  predicate LabelDue(cs: seq<Contents>, i: nat, e: Entry, location: nat, k: nat, params: Params)
    requires ParamsOk(params)
  {
    var block := location % params.itemsPerBundle;
    && i < |cs| && k < FeltsPerItem(params) && StoredAt(cs, i, e, block, params)
    && Total(cs, PartBin(block, k, FeltsPerItem(params)), Part(e.item, k, params)) <= 1
  }

  /** The label beside the first bundle that holds all parts of the item, or None if there is no such bundle. */
  ghost predicate FromHolder(r: Option<seq<Byte>>, cs: seq<Contents>, item: seq<Byte>, location: nat, params: Params,
                             cfg: Config, labelByteCount: nat)
    requires ParamsOk(params) && AllSized(cs, cfg)
  {
    var at := PartBin(location % params.itemsPerBundle, 0, FeltsPerItem(params));
    var holder := FindHolder(cs, Felts(item, params), at, cfg);
    && (r.Some? <==> holder.Some?)
    && (r.Some? ==> IsStoredLabel(r.value, cs[holder.value], item, at, labelByteCount, params))
  }

  /**
   get_label at one of the item's locations, up to decryption; None is the exception. It returns the label
   beside the first bundle that holds all parts, which is the item's own whenever some part of it occurs
   only once in its bin.
   */
  method GetLabel(db: BundleSet, item: seq<Byte>, location: nat, params: Params, labelByteCount: nat)
    returns (r: Option<seq<Byte>>)
    requires db.Valid() && ParamsOk(params) && params.labeled && ConfigFits(db.cfg, params, labelByteCount)
    requires params.itemBitCount <= 8 * |item|
    ensures AllSized(db.All(), db.cfg)
    ensures FromHolder(r, db.All(), item, location, params, db.cfg, labelByteCount)
    ensures forall i: nat, e: Entry, k: nat {:trigger LabelDue(db.All(), i, e, location, k, params)} ::
              e.item == item && |e.encLabel| == labelByteCount && LabelDue(db.All(), i, e, location, k, params)
              ==> r == Some(e.encLabel)
  {
    db.ValidSized();
    ghost var cs := db.All();
    var felts, binIdx := PreprocessItem(item, location, params, db.cfg);
    r := SearchLabel(db, cs, item, felts, binIdx, params, labelByteCount);
    DueIsReturned(r, cs, item, location, params, db.cfg, labelByteCount);
  }

  /** preprocess_unlabeled_data and unpack_cuckoo_idx for one location. */
  method PreprocessItem(item: seq<Byte>, location: nat, params: Params, cfg: Config)
    returns (felts: seq<nat>, binIdx: nat)
    requires ParamsOk(params) && ConfigOk(cfg) && cfg.binsPerBundle == params.itemsPerBundle * FeltsPerItem(params)
    requires params.itemBitCount <= 8 * |item|
    ensures felts == Felts(item, params)
    ensures binIdx == PartBin(location % params.itemsPerBundle, 0, FeltsPerItem(params))
  {
    FeltsPerItemPositive(params);
    var f := FeltsPerItem(params);
    var r := BitsToFieldElts(item, params.itemBitCount, params.m);
    UnpackLocation(location, f, params.itemsPerBundle);
    var (bin, bundleIdx) := UnpackCuckooIdx(location * f, cfg.binsPerBundle);
    return r.value, bin;
  }

  lemma DueIsReturned(r: Option<seq<Byte>>, cs: seq<Contents>, item: seq<Byte>, location: nat, params: Params,
                      cfg: Config, labelByteCount: nat)
    requires ParamsOk(params) && AllSized(cs, cfg) && cfg.binsPerBundle == params.itemsPerBundle * FeltsPerItem(params)
    requires FromHolder(r, cs, item, location, params, cfg, labelByteCount)
    ensures forall i: nat, e: Entry, k: nat {:trigger LabelDue(cs, i, e, location, k, params)} ::
              e.item == item && |e.encLabel| == labelByteCount && LabelDue(cs, i, e, location, k, params)
              ==> r == Some(e.encLabel)
  {
    forall i: nat, e: Entry, k: nat | e.item == item && |e.encLabel| == labelByteCount
                                      && LabelDue(cs, i, e, location, k, params)
      ensures r == Some(e.encLabel)
    {
      OnlyHolder(cs, i, e, location % params.itemsPerBundle, k, params, cfg);
    }
  }

  /** The loop over the bundles. */
  method SearchLabel(db: BundleSet, ghost cs: seq<Contents>, ghost item: seq<Byte>, felts: seq<nat>, at: nat,
                     params: Params, labelByteCount: nat)
    returns (r: Option<seq<Byte>>)
    requires db.Valid() && ParamsOk(params) && params.labeled && ConfigFits(db.cfg, params, labelByteCount)
    requires felts == Felts(item, params) && db.All() == cs && AllSized(cs, db.cfg)
    ensures var holder := FindHolder(cs, felts, at, db.cfg);
            && (r.Some? <==> holder.Some?)
            && (r.Some? ==> IsStoredLabel(r.value, cs[holder.value], item, at, labelByteCount, params))
  {
    for i := 0 to |db.bundles|
      invariant FindHolder(cs, felts, at, db.cfg) == FindHolderFrom(cs, felts, at, db.cfg, i)
    {
      r := LabelInBundle(db, i, cs[i], item, felts, at, params, labelByteCount);
      if r.Some? {
        return;
      }
    }
    r := None;
  }

  method LabelInBundle(db: BundleSet, i: nat, ghost c: Contents, ghost item: seq<Byte>, felts: seq<nat>, at: nat,
                       params: Params, labelByteCount: nat)
    returns (r: Option<seq<Byte>>)
    requires db.Valid() && ParamsOk(params) && params.labeled && ConfigFits(db.cfg, params, labelByteCount)
    requires felts == Felts(item, params) && i < |db.bundles| && db.All()[i] == c && Sized(c, db.cfg)
    ensures r.Some? <==> Holder(c, felts, at, db.cfg)
    ensures r.Some? ==> IsStoredLabel(r.value, c, item, at, labelByteCount, params)
  {
    assert db.Member(db.bundles[i]);
    var labels := db.bundles[i].TryGetMultiLabel(felts, at);
    if labels.value.None? {
      return None;
    }
    var bytes := DecodeLabel(labels.value.value, c, item, at, labelByteCount, params, db.cfg);
    return Some(bytes);
  }

  /** dealgebraize_label and the cut to the effective length. */
  method DecodeLabel(labels: seq<nat>, ghost c: Contents, ghost item: seq<Byte>, ghost at: nat, labelByteCount: nat,
                     params: Params, ghost cfg: Config)
    returns (bytes: seq<Byte>)
    requires ParamsOk(params) && params.labeled && ConfigFits(cfg, params, labelByteCount) && Sized(c, cfg)
    requires |labels| == FeltsPerItem(params) * |c.labels|
    requires forall k, l :: 0 <= k < FeltsPerItem(params) && 0 <= l < |c.labels| ==>
               HasLabel(c, Felts(item, params), at, k, l, LabelAt(labels, FeltsPerItem(params), l, k))
    ensures |bytes| == labelByteCount && IsStoredLabel(bytes, c, item, at, labelByteCount, params)
  {
    FeltsPerItemPositive(params);
    var b, f := BitsPerFelt(params.m), FeltsPerItem(params);
    LabelSizePositive(labelByteCount, params.itemBitCount);
    LabelSizeMatches(labelByteCount, b, f);
    PaddedIsLongEnough(labelByteCount, b, f);
    LabelBitCount(f, b, |c.labels|);
    var decoded := FieldEltsToBits(labels, |labels| * b, params.m);
    assert labelByteCount <= |decoded.value|;
    bytes := decoded.value[..labelByteCount];
    forall e: Entry | e.item == item && |e.encLabel| == labelByteCount
                      && StoresLabels(c, Parts(AlgDataOf(e, params)), at)
      ensures bytes == e.encLabel
    {
      var parts := Parts(AlgDataOf(e, params));
      assert Items(parts) == Felts(item, params);
      LabelRoundTrip(c, parts, at, params.m, item, params.itemBitCount, e.encLabel, labels, decoded.value);
    }
  }

  /** The first bundle that holds all parts is the one that stores the entry, if one part occurs only once there. */
  lemma OnlyHolder(cs: seq<Contents>, i: nat, e: Entry, block: nat, k: nat, params: Params, cfg: Config)
    requires ParamsOk(params) && AllSized(cs, cfg) && i < |cs| && k < FeltsPerItem(params)
    requires StoredAt(cs, i, e, block, params)
    requires Total(cs, PartBin(block, k, FeltsPerItem(params)), Part(e.item, k, params)) <= 1
    ensures FindHolder(cs, Felts(e.item, params), PartBin(block, 0, FeltsPerItem(params)), cfg) == Some(i)
  {
    var b, x := PartBin(block, k, FeltsPerItem(params)), Part(e.item, k, params);
    assert Total(cs, b, x) <= 1;
    StoredIsHeld(cs, i, e, block, params);
    PlaceOfPart(e.item, block, k, params);
    OnlyHolderOf(cs, i, Felts(e.item, params), PartBin(block, 0, FeltsPerItem(params)), k, b, x, cfg);
  }

  lemma PlaceOfPart(item: seq<Byte>, block: nat, k: nat, params: Params)
    requires ParamsOk(params) && k < FeltsPerItem(params)
    ensures |Felts(item, params)| == FeltsPerItem(params) && Felts(item, params)[k] == Part(item, k, params)
    ensures PartBin(block, k, FeltsPerItem(params)) == PartBin(block, 0, FeltsPerItem(params)) + k
  {
    FeltsPerItemPositive(params);
  }

  lemma StoredIsHeld(cs: seq<Contents>, i: nat, e: Entry, block: nat, params: Params)
    requires ParamsOk(params) && i < |cs| && StoredAt(cs, i, e, block, params)
    ensures HoldsEach(cs[i], Felts(e.item, params), PartBin(block, 0, FeltsPerItem(params)))
  {
    FeltsPerItemPositive(params);
    var parts, felts := Parts(AlgDataOf(e, params)), Felts(e.item, params);
    assert |parts| == |felts| && forall q :: 0 <= q < |felts| ==> parts[q].item == felts[q];
  }

  lemma OnlyHolderOf(cs: seq<Contents>, i: nat, felts: seq<nat>, at: nat, k: nat, b: nat, x: nat, cfg: Config)
    requires AllSized(cs, cfg) && i < |cs| && HoldsEach(cs[i], felts, at) && k < |felts|
    requires b == at + k && x == felts[k] && Total(cs, b, x) <= 1
    ensures FindHolder(cs, felts, at, cfg) == Some(i)
  {
    forall j | 0 <= j < i ensures !HoldsEach(cs[j], felts, at) {
      if HoldsEach(cs[j], felts, at) {
        HeldTwice(cs, j, i, b, x);
      }
    }
    assert IsFirstHolder(cs, i, felts, at);
    FindHolderIff(cs, felts, at, cfg);
  }

  lemma HeldTwice(cs: seq<Contents>, j: nat, i: nat, b: nat, x: nat)
    requires j < i < |cs| && b < |cs[i].items| && b < |cs[j].items| && x in cs[i].items[b] && x in cs[j].items[b]
    ensures Total(cs, b, x) >= 2
  {
    TwoHolders(cs, |cs|, j, i, b, x);
  }

  /** In a new database that is so for every entry with a part that no other item shares at the location. */
  lemma UnsharedLabelIsFound(data: seq<Entry>, locationsOf: seq<Byte> -> seq<nat>, params: Params, cfg: Config,
                             labelByteCount: nat, a: nat, h: nat, index: nat, block: nat)
    returns (i: nat)
    requires ParamsOk(params) && IsPrime(params.m) && ConfigFits(cfg, params, labelByteCount)
    requires LabelsFit(data, params, labelByteCount) && DistinctItems(data) && a < |data|
    requires forall c :: 0 <= c < |data| ==> DistinctLocations(locationsOf(data[c].item))
    requires h < |locationsOf(data[a].item)|
    requires IsPlace(locationsOf(data[a].item)[h], index, block, params.itemsPerBundle)
    requires HasUnsharedPart(data, locationsOf, params, data[a].item, locationsOf(data[a].item)[h])
    ensures var cs := Built(data, locationsOf, params, cfg, index);
            && AllSized(cs, cfg) && StoredAt(cs, i, data[a], block, params)
            && FindHolder(cs, Felts(data[a].item, params), PartBin(block, 0, FeltsPerItem(params)), cfg) == Some(i)
  {
    FeltsPerItemPositive(params);
    var f, e, location := FeltsPerItem(params), data[a], locationsOf(data[a].item)[h];
    var tasks, cs := TasksOf(data, locationsOf, params), Built(data, locationsOf, params, cfg, index);
    i := SentToIndex(data, locationsOf, params, cfg, labelByteCount, a, h, index, block);
    var k :| 0 <= k < f && UnsharedPart(data, locationsOf, params, e.item, location, k);
    UnsharedPartSentOnce(data, locationsOf, params, cfg, e.item, location, index, block, k);
    BlockFits(block, f, params.itemsPerBundle);
    TasksArePreprocessed(data, locationsOf, params);
    PreprocessedNeverFails(tasks, data, locationsOf, params, cfg, labelByteCount, [], index);
    InsertionConserves([], tasks, index, cfg, PartBin(block, k, f), Part(e.item, k, params));
    OnlyHolder(cs, i, e, block, k, params, cfg);
  }

  lemma SentToIndex(data: seq<Entry>, locationsOf: seq<Byte> -> seq<nat>, params: Params, cfg: Config,
                    labelByteCount: nat, a: nat, h: nat, index: nat, block: nat)
    returns (i: nat)
    requires ParamsOk(params) && IsPrime(params.m) && ConfigFits(cfg, params, labelByteCount)
    requires LabelsFit(data, params, labelByteCount) && a < |data| && h < |locationsOf(data[a].item)|
    requires IsPlace(locationsOf(data[a].item)[h], index, block, params.itemsPerBundle)
    ensures i < |Built(data, locationsOf, params, cfg, index)|
    ensures StoredAt(Built(data, locationsOf, params, cfg, index), i, data[a], block, params)
  {
    var tasks, location, e := TasksOf(data, locationsOf, params), locationsOf(data[a].item)[h], data[a];
    TasksArePreprocessed(data, locationsOf, params);
    TasksAreWellFormed(tasks, data, locationsOf, params, cfg, labelByteCount);
    PreprocessedNeverFails(tasks, data, locationsOf, params, cfg, labelByteCount, [], index);
    assert SentTo(tasks, e, location, params);
    var t :| 0 <= t < |tasks| && IsTaskOf(tasks[t], e, location, params);
    TaskIsTaskFor(tasks[t], e, location, params);
    TaskPlace(e, location, params, cfg);
    SamePlace(location, location, index, block, params.itemsPerBundle);
    InsertedIsStored([], tasks, index, cfg, t);
    i :| StoredBy(InsertRun([], tasks, index, cfg).0, i, Parts(tasks[t].data), BinIdx(tasks[t].cuckooIdx, cfg));
  }

  lemma TaskIsTaskFor(task: Task, e: Entry, location: nat, params: Params)
    requires ParamsOk(params) && IsTaskOf(task, e, location, params)
    ensures task == TaskFor(e, location, params)
  {
    FeltsPerItemPositive(params);
    if params.labeled {
      AlgItemLabelUnique(task.data.itemLabels, e.item, params.itemBitCount, e.encLabel, BitsPerFelt(params.m));
    }
  }
}
