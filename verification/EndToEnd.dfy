/**
 From the sender's insertion to the receiver's match: preprocessing, bins, polynomials, query powers,
 evaluation, layout and zero detection put together.
 */
module EndToEnd {
  import opened Wrappers
  import opened ModArith
  import opened Interpolate
  import opened Seal
  import opened BatchedPolyn
  import opened PowersDags
  import opened PowersScheduler
  import opened FairSchedules
  import opened Sender
  import opened Bits
  import opened DbEncoding
  import opened BinContents
  import opened BinBundles
  import opened BundleSets
  import opened SenderDB
  import opened Preprocess
  import opened Receiver

  // ---------- One bundle answers a query ----------

  /** Slot vectors of one result package, as the receiver decrypts them. */
  datatype Answer = Answer(psi: seq<nat>, labels: seq<seq<nat>>)

  /** Slot by slot, zero says that the query value is in the bin. */
  predicate Answers(psi: seq<nat>, items: seq<seq<nat>>, x: seq<nat>) {
    |psi| == |x| == |items| && forall s :: 0 <= s < |x| ==> (psi[s] == 0 <==> x[s] in items[s])
  }

  /** In every slot whose query value is in the bin, the label part beside it. */
  predicate LabelAnswers(slots: seq<nat>, items: seq<seq<nat>>, bins: seq<seq<nat>>, x: seq<nat>) {
    && |slots| == |x| == |items| == |bins|
    && forall s {:trigger slots[s]} :: 0 <= s < |x| && x[s] in items[s] ==>
         IndexOf(items[s], x[s]) < |bins[s]| && slots[s] == bins[s][IndexOf(items[s], x[s])]
  }

  predicate AnswersAll(answer: Answer, c: Contents, x: seq<nat>) {
    && Answers(answer.psi, c.items, x) && |answer.labels| == |c.labels|
    && forall l :: 0 <= l < |c.labels| ==> LabelAnswers(answer.labels[l], c.items, c.labels[l], x)
  }

  /** Every power that an evaluator may read is there, in the form it expects. */
  ghost predicate PowersReady(powers: seq<Ciphertext>, x: seq<nat>, lowDegree: nat, maxBinSize: nat, p: nat)
    requires p > 0
  {
    && |powers| == maxBinSize + 1
    && forall d {:trigger powers[d]} :: 1 <= d <= maxBinSize && InPowersSet(lowDegree, maxBinSize, d) ==>
         IsPower(powers, x, d, p) && powers[d].ntt == PowerInNtt(lowDegree, d)
  }

  /** Batched polynomials are as long as their longest polynomial. */
  lemma BatchLength(coeffs: seq<Plaintext>, polyns: seq<seq<nat>>, lowDegree: nat, cap: nat)
    requires IsBatch(coeffs, polyns, lowDegree) && forall s :: 0 <= s < |polyns| ==> |polyns[s]| <= cap + 1
    ensures |coeffs| <= cap + 1
  {
    if |coeffs| > 1 {
      var s :| 0 <= s < |polyns| && |polyns[s]| == |coeffs|;
    }
  }

  /** The degrees that the insertion worker allows stay within the powers the sender computes. */
  lemma BatchFits(cache: Cache, c: Contents, p: nat, lowDegree: nat, cap: nat)
    requires p > 1 && SameShape(c) && CacheMatches(cache, c, p, lowDegree) && BinsCapped(c.items, cap)
    ensures |cache.batchedMatching| <= cap + 1
    ensures forall l :: 0 <= l < |c.labels| ==> |cache.batchedInterp[l]| <= cap + 1
  {
    forall s | 0 <= s < |cache.matching| ensures |cache.matching[s]| <= cap + 1 {
      assert cache.matching[s] == RootsPolyn(c.items[s], p);
    }
    BatchLength(cache.batchedMatching, cache.matching, lowDegree, cap);
    forall l | 0 <= l < |c.labels| ensures |cache.batchedInterp[l]| <= cap + 1 {
      assert InterpBuilt(cache.interp[l], c.items, c.labels[l], p);
      forall s | 0 <= s < |cache.interp[l]| ensures |cache.interp[l][s]| <= cap + 1 {
        assert Interpolates(cache.interp[l][s], c.items[s], c.labels[l][s], p);
      }
      BatchLength(cache.batchedInterp[l], cache.interp[l], lowDegree, cap);
    }
  }

  /**
   What a bundle must be like to be queried, stripped or not; a low degree of 1 is only safe for short
   polynomials.
   */
  ghost predicate Queryable(bundle: BinBundle, x: seq<nat>)
    reads bundle
  {
    && bundle.Valid() && bundle.maxBinSize >= 1
    && BinsCapped(bundle.Served().items, BinCap(bundle.maxBinSize))
    && (bundle.psLowDegree != 1 || bundle.maxBinSize <= 2)
    && |x| == bundle.numBins && InField(x, bundle.p)
  }

  /** ProcessBinBundleCache: the matching result and one result for each label component. */
  method ProcessBundle(bundle: BinBundle, powers: seq<Ciphertext>, ghost x: seq<nat>)
    returns (r: Result<Answer, BundleError>)
    requires Queryable(bundle, x) && PowersReady(powers, x, bundle.psLowDegree, bundle.maxBinSize, bundle.p)
    ensures r.Err? <==> bundle.cacheInvalid
    ensures r.Ok? ==> AnswersAll(r.value, bundle.Served(), x)
  {
    var handed := bundle.GetCache();
    if handed.Err? {
      return Err(handed.error);
    }
    var cache := handed.value;
    ghost var c := bundle.Served();
    ghost var matching, interp :|
      CacheMatches(cache.(matching := matching, interp := interp), c, bundle.p, bundle.psLowDegree);
    var answer := Evaluate(cache, matching, interp, c, powers, bundle.psLowDegree, bundle.maxBinSize, bundle.numBins,
                           bundle.labelSize, bundle.p, x);
    return Ok(answer);
  }

  /** The evaluation of one cache; the coefficient lists themselves are not needed. */
  method Evaluate(cache: Cache, ghost matching: seq<seq<nat>>, ghost interp: seq<seq<seq<nat>>>, ghost c: Contents,
                  powers: seq<Ciphertext>, lowDegree: nat, maxBinSize: nat, ghost numBins: nat, ghost labelSize: nat,
                  p: nat, ghost x: seq<nat>)
    returns (answer: Answer)
    requires IsPrime(p) && Sound(c, numBins, labelSize, p) && SameShape(c)
    requires CacheMatches(cache.(matching := matching, interp := interp), c, p, lowDegree)
    requires maxBinSize >= 1 && lowDegree <= maxBinSize && BinsCapped(c.items, BinCap(maxBinSize))
    requires (lowDegree != 1 || maxBinSize <= 2) && |x| == numBins && InField(x, p)
    requires PowersReady(powers, x, lowDegree, maxBinSize, p)
    ensures AnswersAll(answer, c, x)
  {
    ghost var full := cache.(matching := matching, interp := interp);
    BatchFits(full, c, p, lowDegree, BinCap(maxBinSize));
    FreshCacheServes(full, c, numBins, labelSize, p, lowDegree);
    var result := ProcessPolyn(cache.batchedMatching, powers, lowDegree, maxBinSize, p, matching, x);
    MatchingIsAnswer(result.value.slots, matching, c.items, x, p);
    var labels: seq<seq<nat>> := [];
    for l := 0 to |cache.batchedInterp|
      invariant |labels| == l
      invariant forall i :: 0 <= i < l ==> LabelAnswers(labels[i], c.items, c.labels[i], x)
    {
      var part := ProcessPolyn(cache.batchedInterp[l], powers, lowDegree, maxBinSize, p, interp[l], x);
      assert InterpServes(full.interp[l], c.items, c.labels[l], p);
      InterpIsAnswer(part.value.slots, interp[l], c.items, c.labels[l], x, p);
      labels := labels + [part.value.slots];
    }
    return Answer(result.value.slots, labels);
  }

  lemma MatchingIsAnswer(slots: seq<nat>, polyns: seq<seq<nat>>, items: seq<seq<nat>>, x: seq<nat>, p: nat)
    requires p > 1 && |slots| == |x| == |items| == |polyns| && InField(x, p)
    requires forall s :: 0 <= s < |items| ==> MatchingServes(polyns[s], items[s], p)
    requires forall s :: 0 <= s < |x| ==> slots[s] == Polynomials.Eval(polyns[s], x[s]) % p
    ensures Answers(slots, items, x)
  {
    forall s | 0 <= s < |x| ensures slots[s] == 0 <==> x[s] in items[s] {
      assert MatchingServes(polyns[s], items[s], p);
    }
  }

  lemma InterpIsAnswer(slots: seq<nat>, polyns: seq<seq<nat>>, items: seq<seq<nat>>, bins: seq<seq<nat>>, x: seq<nat>,
                       p: nat)
    requires p > 1 && |slots| == |x| == |items| && InterpServes(polyns, items, bins, p)
    requires forall s :: 0 <= s < |x| ==> slots[s] == Polynomials.Eval(polyns[s], x[s]) % p
    ensures LabelAnswers(slots, items, bins, x)
  {
  }

  /** The same from the powers that ComputePowers leaves behind, in coefficient form. */
  method AnswerQuery(bundle: BinBundle, store: map<nat, Ciphertext>, targets: seq<nat>, ghost x: seq<nat>)
    returns (r: Result<Answer, BundleError>)
    requires Queryable(bundle, x) && StrictlyIncreasing(targets)
    requires forall t :: t in targets <==> InPowersSet(bundle.psLowDegree, bundle.maxBinSize, t)
    requires forall t :: t in targets ==> t in store && HoldsPower(store[t], x, t, bundle.p)
    ensures r.Err? <==> bundle.cacheInvalid
    ensures r.Ok? ==> AnswersAll(r.value, bundle.Served(), x)
  {
    var prepared := TransformPowers(store, targets, bundle.psLowDegree);
    var powers := seq(bundle.maxBinSize + 1, d requires 0 <= d <= bundle.maxBinSize =>
      if d in prepared then prepared[d] else Ciphertext([], false));
    forall d | 1 <= d <= bundle.maxBinSize && InPowersSet(bundle.psLowDegree, bundle.maxBinSize, d)
      ensures IsPower(powers, x, d, bundle.p) && powers[d].ntt == PowerInNtt(bundle.psLowDegree, d)
    {
      assert d in targets && d in prepared && HoldsPower(store[d], x, d, bundle.p);
    }
    r := ProcessBundle(bundle, powers, x);
  }

  // ---------- All bundles of one index ----------

  /** The powers are what any schedule of the powers DAG leaves once one of its workers has returned. */
  ghost predicate LeftBySchedule(store: map<nat, Ciphertext>, dag: map<nat, PowersNode>, targets: seq<nat>,
                                 sources: seq<nat>, loaded: map<nat, Ciphertext>, x: seq<nat>, p: nat, workerCount: nat,
                                 schedule: seq<nat>, w: nat)
    requires p > 0
  {
    && QueryLoaded(PowersPlan(dag, targets, p), sources, loaded, x, p)
    && (var m := Run(PowersPlan(dag, targets, p),
                     PowersScheduler.Initial(PowersPlan(dag, targets, p), loaded, workerCount), schedule);
        w < |m.workers| && m.workers[w].pc.Returned? && store == m.store)
  }

  /** The database has been built with a low degree for which the evaluators are sound. */
  predicate Evaluable(cfg: Config) {
    cfg.maxBinSize >= 1 && (cfg.psLowDegree != 1 || cfg.maxBinSize <= 2)
  }

  /** The target powers of the database's evaluation. */
  ghost predicate TargetsRight(targets: seq<nat>, cfg: Config) {
    StrictlyIncreasing(targets) && forall t :: t in targets <==> InPowersSet(cfg.psLowDegree, cfg.maxBinSize, t)
  }

  /** Answer i is that of bundle i. */
  ghost predicate AnsweredBy(answers: seq<Answer>, cs: seq<Contents>, x: seq<nat>) {
    |answers| == |cs| && forall i :: 0 <= i < |cs| ==> AnswersAll(answers[i], cs[i], x)
  }

  /** RunQuery on the bundles of one index, stripped or not, with the computed powers. */
  method QueryBundles(db: BundleSet, ghost cs: seq<Contents>, store: map<nat, Ciphertext>, targets: seq<nat>,
                      ghost x: seq<nat>)
    returns (answers: seq<Answer>)
    requires db.Serving(cs) && Evaluable(db.cfg) && Capped(cs, Cap(db.cfg)) && TargetsRight(targets, db.cfg)
    requires |x| == db.cfg.binsPerBundle && InField(x, db.cfg.p)
    requires forall t :: t in targets ==> t in store && HoldsPower(store[t], x, t, db.cfg.p)
    ensures AnsweredBy(answers, cs, x)
  {
    answers := [];
    for i := 0 to |db.bundles|
      invariant AnsweredBy(answers, cs[..i], x)
    {
      assert db.ServesAt(db.bundles[i], cs[i]) && BinsCapped(cs[i].items, Cap(db.cfg));
      var r := AnswerQuery(db.bundles[i], store, targets, x);
      answers := answers + [r.value];
    }
    assert cs[..|db.bundles|] == cs;
  }

  // ---------- Blocks ----------

  predicate QueriedAt(x: seq<nat>, item: seq<Byte>, block: nat, params: Params)
    requires ParamsOk(params)
  {
    var f := FeltsPerItem(params);
    && |x| == params.itemsPerBundle * f
    && forall k :: 0 <= k < f ==> SlotAt(x, block, f, k) == Pack(item, params.itemBitCount, BitsPerFelt(params.m))[k]
  }

  /** Every packed part of the item is in its own bin of the block. */
  predicate HoldsItem(c: Contents, item: seq<Byte>, block: nat, params: Params)
    requires ParamsOk(params)
  {
    var f, packed := FeltsPerItem(params), Pack(item, params.itemBitCount, BitsPerFelt(params.m));
    block * f + f <= |c.items| && forall k :: 0 <= k < f ==> packed[k] in c.items[block * f + k]
  }

  /** A block of a bundle's answer is zero exactly when the bundle holds every part of the queried item. */
  lemma ZeroBlockIffHeld(psi: seq<nat>, c: Contents, x: seq<nat>, item: seq<Byte>, block: nat, params: Params)
    requires ParamsOk(params) && Answers(psi, c.items, x) && QueriedAt(x, item, block, params)
    requires block < params.itemsPerBundle
    ensures ZeroBlock(psi, block, FeltsPerItem(params)) <==> HoldsItem(c, item, block, params)
  {
    var f := FeltsPerItem(params);
    SlotBlockInside(block, f, params.itemsPerBundle);
    forall k | 0 <= k < f
      ensures SlotAt(psi, block, f, k) == 0 <==>
              Pack(item, params.itemBitCount, BitsPerFelt(params.m))[k] in c.items[block * f + k]
    {
      assert SlotAt(x, block, f, k) == x[block * f + k] && SlotAt(psi, block, f, k) == psi[block * f + k];
    }
  }

  /** The bundle index of a location of the receiver's table, and the block inside the bundle. */
  predicate IsPlace(location: nat, index: nat, block: nat, itemsPerBundle: nat) {
    block < itemsPerBundle && location == block + BundleStart(index, itemsPerBundle)
  }

  /** The place is what the sender computes from its cuckoo index and the receiver from the block. */
  lemma PlaceIsUnique(location: nat, itemsPerBundle: nat, f: nat, index: nat, block: nat)
    requires itemsPerBundle > 0 && f > 0 && IsPlace(location, index, block, itemsPerBundle)
    ensures itemsPerBundle * f > 0
    ensures UnpackCuckooIdx(location * f, itemsPerBundle * f) == (block * f, index)
    ensures index == location / itemsPerBundle && block == location % itemsPerBundle
  {
    DivModUnique(location, index, block, itemsPerBundle);
    UnpackLocation(location, f, itemsPerBundle);
  }

  /** The answer has zeros in the whole block, and in labeled mode the label's elements. */
  predicate FoundAt(answer: Answer, e: Entry, block: nat, params: Params)
    requires ParamsOk(params)
  {
    FeltsPerItemPositive(params);
    var f := FeltsPerItem(params);
    && ZeroBlock(answer.psi, block, f)
    && (params.labeled ==> LabelFelts(answer.labels, block, f) == PaddedLabel(e.encLabel, BitsPerFelt(params.m), f))
  }

  /** A bundle that stores an entry answers its query with zeros and with the entry's label. */
  lemma StoredIsFound(c: Contents, parts: seq<ItemLabel>, task: Task, e: Entry, location: nat, block: nat,
                      answer: Answer, x: seq<nat>, params: Params)
    requires ParamsOk(params) && IsTaskOf(task, e, location, params) && parts == Parts(task.data)
    requires block < params.itemsPerBundle && StoresLabels(c, parts, block * FeltsPerItem(params))
    requires params.labeled ==> |c.labels| > 0
    requires |parts| == FeltsPerItem(params) && forall k :: 0 <= k < |parts| ==>
               parts[k].item == Pack(e.item, params.itemBitCount, BitsPerFelt(params.m))[k]
    requires AnswersAll(answer, c, x) && QueriedAt(x, e.item, block, params)
    ensures FoundAt(answer, e, block, params)
  {
    FeltsPerItemPositive(params);
    var f, b := FeltsPerItem(params), BitsPerFelt(params.m);
    ZeroBlockIffHeld(answer.psi, c, x, e.item, block, params);
    if params.labeled {
      assert |parts[0].felts| == |c.labels|;
      var felts := LabelFelts(answer.labels, block, f);
      forall k, l | 0 <= k < f && 0 <= l < |c.labels|
        ensures LabelAt(felts, f, l, k) == LabelAt(PaddedLabel(e.encLabel, b, f), f, l, k)
      {
        LabelFeltsAt(answer.labels, block, f, l, k);
        SlotBlockInside(block, f, params.itemsPerBundle);
        LabelSlotAnswers(c, parts, block * f, answer.labels[l], x, k, l);
      }
      ReadBackIsPadded(felts, e.encLabel, b, f);
    }
  }

  /** One slot of a label result holds the stored label part. */
  lemma LabelSlotAnswers(c: Contents, parts: seq<ItemLabel>, at: nat, slots: seq<nat>, x: seq<nat>, k: nat, l: nat)
    requires StoresLabels(c, parts, at) && k < |parts| && l < |c.labels| && at + k < |x|
    requires LabelAnswers(slots, c.items, c.labels[l], x) && x[at + k] == parts[k].item
    ensures slots[at + k] == parts[k].felts[l]
  {
    assert HasLabel(c, Items(parts), at, k, l, parts[k].felts[l]);
  }

  // ---------- The sender's side ----------

  /** Every entry that has a location in the queried bundle, with the same item in the table there, is found. */
  ghost predicate AllFound(answers: seq<Answer>, data: seq<Entry>, locationsOf: seq<Byte> -> seq<nat>, index: nat,
                           table: seq<seq<Byte>>, params: Params)
    requires ParamsOk(params)
  {
    forall a, h, block {:trigger IsPlace(locationsOf(data[a].item)[h], index, block, params.itemsPerBundle)} ::
      0 <= a < |data| && 0 <= h < |locationsOf(data[a].item)|
      && IsPlace(locationsOf(data[a].item)[h], index, block, params.itemsPerBundle)
      && locationsOf(data[a].item)[h] < |table| && table[locationsOf(data[a].item)[h]] == data[a].item
      ==> FoundInSome(answers, data[a], block, params)
  }

  predicate FoundInSome(answers: seq<Answer>, e: Entry, block: nat, params: Params)
    requires ParamsOk(params)
  {
    exists i :: 0 <= i < |answers| && FoundAt(answers[i], e, block, params)
  }

  /** A zero block of bundle i's answer means that this bundle holds every part of the item in the table. */
  ghost predicate NothingElseFound(answers: seq<Answer>, cs: seq<Contents>, index: nat, table: seq<seq<Byte>>,
                                   params: Params)
    requires ParamsOk(params) && |answers| == |cs|
  {
    forall i, block {:trigger ZeroBlock(answers[i].psi, block, FeltsPerItem(params))} ::
      0 <= i < |answers| && 0 <= block < params.itemsPerBundle
      && block + BundleStart(index, params.itemsPerBundle) < |table|
      ==> (ZeroBlock(answers[i].psi, block, FeltsPerItem(params))
           <==> HoldsItem(cs[i], table[block + BundleStart(index, params.itemsPerBundle)], block, params))
  }

  /** The queried slots are those of the receiver's table at this bundle index. */
  predicate QueryOf(x: seq<nat>, table: seq<seq<Byte>>, index: nat, params: Params)
    requires ParamsOk(params)
  {
    && (index + 1) * params.itemsPerBundle <= |table| && InField(x, params.m)
    && IsLayout(x, BundleItems(table, index, params.itemsPerBundle), params.itemBitCount, BitsPerFelt(params.m))
  }

  lemma LaidOutIsQueried(x: seq<nat>, table: seq<seq<Byte>>, location: nat, index: nat, block: nat, params: Params)
    requires ParamsOk(params) && QueryOf(x, table, index, params) && location < |table|
    requires IsPlace(location, index, block, params.itemsPerBundle)
    ensures QueriedAt(x, table[location], block, params)
  {
    assert BundleItems(table, index, params.itemsPerBundle)[block] == table[location];
  }

  /** After the insert worker of an index, whatever each bundle then answers, every entry placed there is found. */
  lemma InsertedIsFound(tasks: seq<Task>, data: seq<Entry>, locationsOf: seq<Byte> -> seq<nat>, params: Params,
                        cfg: Config, labelByteCount: nat, index: nat, table: seq<seq<Byte>>, x: seq<nat>,
                        answers: seq<Answer>)
    requires ParamsOk(params) && IsPreprocessed(tasks, data, |data|, locationsOf, params)
    requires ConfigFits(cfg, params, labelByteCount) && LabelsFit(data, params, labelByteCount)
    requires QueryOf(x, table, index, params) && AnsweredBy(answers, InsertRun([], tasks, index, cfg).0, x)
    ensures AllFound(answers, data, locationsOf, index, table, params)
  {
    forall a, h, block | 0 <= a < |data| && 0 <= h < |locationsOf(data[a].item)|
                         && IsPlace(locationsOf(data[a].item)[h], index, block, params.itemsPerBundle)
                         && locationsOf(data[a].item)[h] < |table|
                         && table[locationsOf(data[a].item)[h]] == data[a].item
      ensures FoundInSome(answers, data[a], block, params)
    {
      assert SentTo(tasks, data[a], locationsOf(data[a].item)[h], params);
      var t :| 0 <= t < |tasks| && IsTaskOf(tasks[t], data[a], locationsOf(data[a].item)[h], params);
      LaidOutIsQueried(x, table, locationsOf(data[a].item)[h], index, block, params);
      PreprocessedNeverFails(tasks, data, locationsOf, params, cfg, labelByteCount, [], index);
      TasksAreWellFormed(tasks, data, locationsOf, params, cfg, labelByteCount);
      OneIsFound(tasks, t, data[a], locationsOf(data[a].item)[h], params, cfg, labelByteCount, index, block, x,
                 answers);
    }
  }

  lemma OneIsFound(tasks: seq<Task>, t: nat, e: Entry, location: nat, params: Params, cfg: Config, labelByteCount: nat,
                   index: nat, block: nat, x: seq<nat>, answers: seq<Answer>)
    requires ParamsOk(params) && t < |tasks| && IsTaskOf(tasks[t], e, location, params)
    requires ConfigFits(cfg, params, labelByteCount) && (params.labeled ==> |e.encLabel| == labelByteCount)
    requires IsPlace(location, index, block, params.itemsPerBundle) && QueriedAt(x, e.item, block, params)
    requires TasksInField(tasks, cfg.p) && InsertRun([], tasks, index, cfg).1 == None
    requires AnsweredBy(answers, InsertRun([], tasks, index, cfg).0, x)
    ensures FoundInSome(answers, e, block, params)
  {
    FeltsPerItemPositive(params);
    PlaceIsUnique(location, params.itemsPerBundle, FeltsPerItem(params), index, block);
    TaskIsWellFormed(tasks[t], e, location, params, cfg, labelByteCount);
    InsertedIsStored([], tasks, index, cfg, t);
    var cs := InsertRun([], tasks, index, cfg).0;
    var i :| StoredBy(cs, i, Parts(tasks[t].data), block * FeltsPerItem(params));
    HolderAnswers(cs, i, tasks[t], e, location, params, cfg, labelByteCount, block, x, answers);
  }

  /** The bundle that stores the entry is the one whose answer shows it. */
  lemma HolderAnswers(cs: seq<Contents>, i: nat, task: Task, e: Entry, location: nat, params: Params, cfg: Config,
                      labelByteCount: nat, block: nat, x: seq<nat>, answers: seq<Answer>)
    requires ParamsOk(params) && IsTaskOf(task, e, location, params) && AllSized(cs, cfg)
    requires ConfigFits(cfg, params, labelByteCount) && block < params.itemsPerBundle
    requires QueriedAt(x, e.item, block, params)
    requires |Parts(task.data)| == FeltsPerItem(params) && forall k :: 0 <= k < FeltsPerItem(params) ==>
               Parts(task.data)[k].item == Pack(e.item, params.itemBitCount, BitsPerFelt(params.m))[k]
    requires StoredBy(cs, i, Parts(task.data), block * FeltsPerItem(params)) && AnsweredBy(answers, cs, x)
    ensures FoundInSome(answers, e, block, params)
  {
    if params.labeled {
      LabelSizePositive(labelByteCount, params.itemBitCount);
    }
    assert Sized(cs[i], cfg);
    StoredIsFound(cs[i], Parts(task.data), task, e, location, block, answers[i], x, params);
    assert FoundAt(answers[i], e, block, params);
  }

  lemma ZeroMeansHeld(answers: seq<Answer>, cs: seq<Contents>, index: nat, table: seq<seq<Byte>>, x: seq<nat>,
                      params: Params)
    requires ParamsOk(params) && QueryOf(x, table, index, params) && AnsweredBy(answers, cs, x)
    ensures NothingElseFound(answers, cs, index, table, params)
  {
    forall i, block | 0 <= i < |answers| && 0 <= block < params.itemsPerBundle
                      && block + BundleStart(index, params.itemsPerBundle) < |table|
      ensures ZeroBlock(answers[i].psi, block, FeltsPerItem(params))
              <==> HoldsItem(cs[i], table[block + BundleStart(index, params.itemsPerBundle)], block, params)
    {
      var location := block + BundleStart(index, params.itemsPerBundle);
      assert IsPlace(location, index, block, params.itemsPerBundle) && AnswersAll(answers[i], cs[i], x);
      LaidOutIsQueried(x, table, location, index, block, params);
      ZeroBlockIffHeld(answers[i].psi, cs[i], x, table[location], block, params);
    }
  }

  /** The contents of the bundles that the insert worker of an index makes of the data. */
  function Built(data: seq<Entry>, locationsOf: seq<Byte> -> seq<nat>, params: Params, cfg: Config, index: nat):
    seq<Contents>
    requires ParamsOk(params) && ConfigOk(cfg)
  {
    InsertRun([], TasksOf(data, locationsOf, params), index, cfg).0
  }

  /** One bundle index of a new database: insert worker, caches and, if wanted, stripping. The worker never fails. */
  method BuildIndex(params: Params, cfg: Config, labelByteCount: nat, ghost data: seq<Entry>, tasks: seq<Task>,
                    ghost locationsOf: seq<Byte> -> seq<nat>, index: nat, strip: bool)
    returns (db: BundleSet)
    requires ParamsOk(params) && IsPrime(params.m) && ConfigFits(cfg, params, labelByteCount)
    requires LabelsFit(data, params, labelByteCount) && tasks == TasksOf(data, locationsOf, params)
    ensures fresh(db) && db.cfg == cfg && db.Serving(Built(data, locationsOf, params, cfg, index))
    ensures strip ==> forall i :: 0 <= i < |db.bundles| ==> db.bundles[i].Value() == Contents([], [])
  {
    TasksArePreprocessed(data, locationsOf, params);
    TasksAreWellFormed(tasks, data, locationsOf, params, cfg, labelByteCount);
    db := new BundleSet(cfg);
    var error := db.InsertOrAssignWorker(tasks, index, false);
    PreprocessedNeverFails(tasks, data, locationsOf, params, cfg, labelByteCount, [], index);
    assert error == None;
    db.GenerateCaches();
    if strip {
      db.Strip();
    }
  }

  /**
   The sender from its data to its answers for one bundle index, evaluated on powers that any schedule of
   ComputePowers may have left, by a stripped or an unstripped database. Every entry with a location that
   the receiver's table uses for the same item is found, with its label; and a zero block is never an accident.
   */
  method InsertThenQuery(params: Params, cfg: Config, labelByteCount: nat, ghost data: seq<Entry>, tasks: seq<Task>,
                         ghost locationsOf: seq<Byte> -> seq<nat>, index: nat, strip: bool, store: map<nat, Ciphertext>,
                         targets: seq<nat>, ghost table: seq<seq<Byte>>, ghost x: seq<nat>,
                         ghost dag: map<nat, PowersNode>, ghost sources: seq<nat>, ghost loaded: map<nat, Ciphertext>,
                         ghost workerCount: nat, ghost schedule: seq<nat>, ghost w: nat)
    returns (answers: seq<Answer>)
    requires ParamsOk(params) && IsPrime(params.m) && ConfigFits(cfg, params, labelByteCount) && Evaluable(cfg)
    requires LabelsFit(data, params, labelByteCount) && tasks == TasksOf(data, locationsOf, params)
    requires TargetsRight(targets, cfg) && QueryOf(x, table, index, params)
    requires LeftBySchedule(store, dag, targets, sources, loaded, x, params.m, workerCount, schedule, w)
    ensures |answers| == |Built(data, locationsOf, params, cfg, index)|
    ensures AllFound(answers, data, locationsOf, index, table, params)
    ensures NothingElseFound(answers, Built(data, locationsOf, params, cfg, index), index, table, params)
    ensures CoversAllBlocks(answers, params, cfg)
  {
    ghost var cs := Built(data, locationsOf, params, cfg, index);
    var db := BuildIndex(params, cfg, labelByteCount, data, tasks, locationsOf, index, strip);
    InsertionCapped([], tasks, index, cfg);
    StoreHoldsPowers(store, dag, targets, sources, loaded, x, params.m, workerCount, schedule, w);
    answers := QueryBundles(db, cs, store, targets, x);
    TasksArePreprocessed(data, locationsOf, params);
    InsertedIsFound(tasks, data, locationsOf, params, cfg, labelByteCount, index, table, x, answers);
    ZeroMeansHeld(answers, cs, index, table, x, params);
    AnswersCover(answers, cs, x, params, cfg);
  }

  /** The powers the query needs are those any schedule leaves. */
  lemma StoreHoldsPowers(store: map<nat, Ciphertext>, dag: map<nat, PowersNode>, targets: seq<nat>, sources: seq<nat>,
                         loaded: map<nat, Ciphertext>, x: seq<nat>, p: nat, workerCount: nat, schedule: seq<nat>,
                         w: nat)
    requires p > 0 && LeftBySchedule(store, dag, targets, sources, loaded, x, p, workerCount, schedule, w)
    ensures forall t :: t in targets ==> t in store && HoldsPower(store[t], x, t, p)
  {
    PowersAreComputed(dag, targets, sources, loaded, x, p, workerCount, schedule, w);
  }

  /** The answers are long enough for the receiver, and have one vector for each label component. */
  predicate CoversAllBlocks(answers: seq<Answer>, params: Params, cfg: Config)
    requires ParamsOk(params)
  {
    forall i :: 0 <= i < |answers| ==> AnswerCovers(answers[i], params, cfg)
  }

  predicate AnswerCovers(answer: Answer, params: Params, cfg: Config)
    requires ParamsOk(params)
  {
    && |answer.psi| == params.itemsPerBundle * FeltsPerItem(params) && |answer.labels| == cfg.labelSize
    && forall l :: 0 <= l < |answer.labels| ==> |answer.labels[l]| == params.itemsPerBundle * FeltsPerItem(params)
  }

  lemma AnswersCover(answers: seq<Answer>, cs: seq<Contents>, x: seq<nat>, params: Params, cfg: Config)
    requires ParamsOk(params) && AnsweredBy(answers, cs, x) && AllSized(cs, cfg)
    requires |x| == params.itemsPerBundle * FeltsPerItem(params)
    ensures CoversAllBlocks(answers, params, cfg)
  {
    forall i | 0 <= i < |answers| ensures AnswerCovers(answers[i], params, cfg) {
      assert AnswersAll(answers[i], cs[i], x) && Sized(cs[i], cfg);
    }
  }

  // ---------- The receiver's side ----------

  /** The result package as it arrives: label sizes are only sent along in labeled mode. */
  function PlainResultOf(answer: Answer, params: Params, labelByteCount: nat, nonceByteCount: nat): PlainResult
    requires params.labeled ==> nonceByteCount <= labelByteCount
  {
    if params.labeled then PlainResult(answer.psi, answer.labels, labelByteCount - nonceByteCount, nonceByteCount)
    else PlainResult(answer.psi, answer.labels, 0, nonceByteCount)
  }

  /** What a record must say for an entry: found, and in labeled mode with exactly the entry's label. */
  predicate RecordsEntry(mr: MatchRecord, e: Entry, params: Params) {
    mr.found && mr.encLabel == if params.labeled then Some(e.encLabel) else None
  }

  /** A found block becomes a record with the entry's label. */
  lemma FoundIsRecorded(answer: Answer, e: Entry, location: nat, index: nat, block: nat, params: Params, cfg: Config,
                        labelByteCount: nat, nonceByteCount: nat, itemOf: map<nat, nat>, itemCount: nat,
                        mrs: seq<MatchRecord>)
    requires ParamsOk(params) && ConfigFits(cfg, params, labelByteCount)
    requires params.labeled ==> nonceByteCount < labelByteCount
    requires params.labeled ==> |e.encLabel| == labelByteCount
    requires AnswerCovers(answer, params, cfg) && FoundAt(answer, e, block, params)
    requires IsPlace(location, index, block, params.itemsPerBundle)
    requires Injective(itemOf) && location in itemOf && itemOf[location] < itemCount == |mrs|
    requires FeltsPerItem(params) > 0 && BitsPerFelt(params.m) > 0
    requires var part := PlainResultOf(answer, params, labelByteCount, nonceByteCount);
             RecordsBelow(mrs, params.itemsPerBundle, part, FeltsPerItem(params), BitsPerFelt(params.m),
                          BundleStart(index, params.itemsPerBundle), itemOf,
                          LabelOf(part, params.itemBitCount, itemCount, itemCount))
    ensures RecordsEntry(mrs[itemOf[location]], e, params)
  {
    var part := PlainResultOf(answer, params, labelByteCount, nonceByteCount);
    var f, b, start := FeltsPerItem(params), BitsPerFelt(params.m), BundleStart(index, params.itemsPerBundle);
    var item := itemOf[location];
    var expected := LabelOf(part, params.itemBitCount, itemCount, itemCount);
    assert Reports(part.psi, block, f, start, itemOf, item);
    assert RecordRight(mrs[item], item, params.itemsPerBundle, part, f, b, start, itemOf, expected);
    if params.labeled {
      PaddedIsLongEnough(labelByteCount, b, f);
      LabelSizeMatches(labelByteCount, b, f);
      assert expected == LabelBytes(labelByteCount - nonceByteCount, labelByteCount);
      var other :| 0 <= other < params.itemsPerBundle && Reports(part.psi, other, f, start, itemOf, item)
                   && IsBlockLabel(mrs[item].encLabel.value, part.labelResult, other, f, b, labelByteCount);
      assert other + start == block + start;
      TruncatedLabel(e.encLabel, b, f, mrs[item].encLabel.value);
    }
  }

  /** Some result part records the entry for the receiver's item. */
  predicate RecordedInSome(records: seq<seq<MatchRecord>>, e: Entry, item: nat, params: Params) {
    exists i :: 0 <= i < |records| && item < |records[i]| && RecordsEntry(records[i][item], e, params)
  }

  /** Every entry that the receiver asked about at one of its locations is recorded, with its label. */
  ghost predicate AllRecorded(records: seq<seq<MatchRecord>>, data: seq<Entry>, locationsOf: seq<Byte> -> seq<nat>,
                              index: nat, table: seq<seq<Byte>>, itemOf: map<nat, nat>, params: Params)
  {
    forall a, h, block {:trigger IsPlace(locationsOf(data[a].item)[h], index, block, params.itemsPerBundle)} ::
      0 <= a < |data| && 0 <= h < |locationsOf(data[a].item)|
      && IsPlace(locationsOf(data[a].item)[h], index, block, params.itemsPerBundle)
      && locationsOf(data[a].item)[h] < |table| && table[locationsOf(data[a].item)[h]] == data[a].item
      && locationsOf(data[a].item)[h] in itemOf
      ==> RecordedInSome(records, data[a], itemOf[locationsOf(data[a].item)[h]], params)
  }

  /** The receiver's processing of all result parts of a bundle index: no exception, and nobody is missed. */
  method ProcessAnswers(answers: seq<Answer>, params: Params, cfg: Config, labelByteCount: nat, nonceByteCount: nat,
                        ghost data: seq<Entry>, ghost locationsOf: seq<Byte> -> seq<nat>, index: nat,
                        ghost table: seq<seq<Byte>>, itemOf: map<nat, nat>, itemCount: nat)
    returns (records: seq<seq<MatchRecord>>)
    requires ParamsOk(params) && ConfigFits(cfg, params, labelByteCount)
    requires params.labeled ==> nonceByteCount < labelByteCount
    requires LabelsFit(data, params, labelByteCount) && CoversAllBlocks(answers, params, cfg)
    requires Injective(itemOf) && forall t :: t in itemOf ==> itemOf[t] < itemCount
    requires AllFound(answers, data, locationsOf, index, table, params)
    ensures |records| == |answers| && AllRecorded(records, data, locationsOf, index, table, itemOf, params)
    ensures forall j :: 0 <= j < |answers| ==>
              PartProcessed(records[j], answers[j], params, labelByteCount, nonceByteCount, index, itemOf, itemCount)
  {
    FeltsPerItemPositive(params);
    records := [];
    for i := 0 to |answers|
      invariant |records| == i
      invariant forall j :: 0 <= j < i ==>
                  PartProcessed(records[j], answers[j], params, labelByteCount, nonceByteCount, index, itemOf,
                                itemCount)
    {
      assert AnswerCovers(answers[i], params, cfg);
      var part := PlainResultOf(answers[i], params, labelByteCount, nonceByteCount);
      var r := ProcessResultPart(part, index, params.itemsPerBundle, FeltsPerItem(params),
                                 params.itemBitCount, params.m, itemOf, itemCount, itemCount);
      records := records + [r.value];
    }
    EveryoneIsRecorded(answers, records, params, cfg, labelByteCount, nonceByteCount, data, locationsOf, index, table,
                       itemOf, itemCount);
  }

  ghost predicate PartProcessed(mrs: seq<MatchRecord>, answer: Answer, params: Params, labelByteCount: nat,
                                nonceByteCount: nat, index: nat, itemOf: map<nat, nat>, itemCount: nat)
    requires ParamsOk(params) && (params.labeled ==> nonceByteCount <= labelByteCount)
  {
    FeltsPerItemPositive(params);
    var part := PlainResultOf(answer, params, labelByteCount, nonceByteCount);
    && |mrs| == itemCount
    && RecordsBelow(mrs, params.itemsPerBundle, part, FeltsPerItem(params), BitsPerFelt(params.m),
                    BundleStart(index, params.itemsPerBundle), itemOf,
                    LabelOf(part, params.itemBitCount, itemCount, itemCount))
  }

  lemma EveryoneIsRecorded(answers: seq<Answer>, records: seq<seq<MatchRecord>>, params: Params, cfg: Config,
                           labelByteCount: nat, nonceByteCount: nat, data: seq<Entry>,
                           locationsOf: seq<Byte> -> seq<nat>, index: nat, table: seq<seq<Byte>>, itemOf: map<nat, nat>,
                           itemCount: nat)
    requires ParamsOk(params) && ConfigFits(cfg, params, labelByteCount)
    requires params.labeled ==> nonceByteCount < labelByteCount
    requires LabelsFit(data, params, labelByteCount) && CoversAllBlocks(answers, params, cfg)
    requires Injective(itemOf) && forall t :: t in itemOf ==> itemOf[t] < itemCount
    requires AllFound(answers, data, locationsOf, index, table, params) && |records| == |answers|
    requires forall j :: 0 <= j < |answers| ==>
               PartProcessed(records[j], answers[j], params, labelByteCount, nonceByteCount, index, itemOf, itemCount)
    ensures AllRecorded(records, data, locationsOf, index, table, itemOf, params)
  {
    FeltsPerItemPositive(params);
    forall a, h, block | 0 <= a < |data| && 0 <= h < |locationsOf(data[a].item)|
                         && IsPlace(locationsOf(data[a].item)[h], index, block, params.itemsPerBundle)
                         && locationsOf(data[a].item)[h] < |table|
                         && table[locationsOf(data[a].item)[h]] == data[a].item
                         && locationsOf(data[a].item)[h] in itemOf
      ensures RecordedInSome(records, data[a], itemOf[locationsOf(data[a].item)[h]], params)
    {
      assert FoundInSome(answers, data[a], block, params);
      var i :| 0 <= i < |answers| && FoundAt(answers[i], data[a], block, params);
      assert AnswerCovers(answers[i], params, cfg);
      assert PartProcessed(records[i], answers[i], params, labelByteCount, nonceByteCount, index, itemOf, itemCount);
      FoundIsRecorded(answers[i], data[a], locationsOf(data[a].item)[h], index, block, params, cfg, labelByteCount,
                      nonceByteCount, itemOf, itemCount, records[i]);
    }
  }

  // ---------- All parts together ----------

  /** The receiver's item is in its table at a block of this bundle index where the bundle holds all its parts. */
  predicate HeldFor(c: Contents, item: nat, index: nat, table: seq<seq<Byte>>, itemOf: map<nat, nat>, params: Params)
    requires ParamsOk(params)
  {
    exists block :: 0 <= block < params.itemsPerBundle && HeldAt(c, item, block, index, table, itemOf, params)
  }

  predicate HeldAt(c: Contents, item: nat, block: nat, index: nat, table: seq<seq<Byte>>, itemOf: map<nat, nat>,
                   params: Params)
    requires ParamsOk(params)
  {
    var location := block + BundleStart(index, params.itemsPerBundle);
    location in itemOf && itemOf[location] == item && location < |table| && HoldsItem(c, table[location], block, params)
  }

  /** One part marks an item exactly when its bundle holds it. */
  lemma PartMarksHeld(mrs: seq<MatchRecord>, answers: seq<Answer>, cs: seq<Contents>, i: nat, params: Params,
                      labelByteCount: nat, nonceByteCount: nat, index: nat, table: seq<seq<Byte>>,
                      itemOf: map<nat, nat>, itemCount: nat, item: nat)
    requires ParamsOk(params) && (params.labeled ==> nonceByteCount <= labelByteCount) && item < itemCount
    requires |answers| == |cs| && i < |cs| && NothingElseFound(answers, cs, index, table, params)
    requires PartProcessed(mrs, answers[i], params, labelByteCount, nonceByteCount, index, itemOf, itemCount)
    requires BundleStart(index, params.itemsPerBundle) + params.itemsPerBundle <= |table|
    ensures mrs[item].found <==> HeldFor(cs[i], item, index, table, itemOf, params)
  {
    FeltsPerItemPositive(params);
    var f, start, n := FeltsPerItem(params), BundleStart(index, params.itemsPerBundle), params.itemsPerBundle;
    var part := PlainResultOf(answers[i], params, labelByteCount, nonceByteCount);
    assert RecordRight(mrs[item], item, n, part, f, BitsPerFelt(params.m), start, itemOf,
                       LabelOf(part, params.itemBitCount, itemCount, itemCount));
    forall block | 0 <= block < n
      ensures Reports(part.psi, block, f, start, itemOf, item)
              <==> HeldAt(cs[i], item, block, index, table, itemOf, params)
    {
      assert part.psi == answers[i].psi;
      assert ZeroBlock(answers[i].psi, block, f) <==> HoldsItem(cs[i], table[block + start], block, params);
    }
  }

  // ---------- The query itself ----------

  /** What reset_powers_dag asks of the query powers. */
  predicate QueryPowersOk(sources: seq<nat>, cfg: Config) {
    && cfg.psLowDegree <= cfg.maxBinSize && cfg.maxBinSize > 0 && 1 in sources
    && forall s :: s in sources ==> InPowersSet(cfg.psLowDegree, cfg.maxBinSize, s)
  }

  /** create_query for one bundle index: layout, powers DAG, and the powers at its source nodes. */
  method CreateQuery(params: Params, cfg: Config, index: nat, table: seq<seq<Byte>>, sources: seq<nat>)
    returns (received: Option<map<nat, seq<nat>>>, targets: seq<nat>, nodes: map<nat, PowersNode>, x: seq<nat>)
    requires ParamsOk(params) && params.m > 1 && StrictlyIncreasing(sources)
    requires (index + 1) * params.itemsPerBundle <= |table|
    requires forall i :: 0 <= i < |table| ==> params.itemBitCount <= 8 * |table[i]|
    ensures QueryOf(x, table, index, params) && (received.Some? <==> QueryPowersOk(sources, cfg))
    ensures received.Some? ==> TargetsRight(targets, cfg) && DagSound(nodes, sources, targets)
    ensures received.Some? ==> forall s :: s in sources <==> s in received.value
    ensures received.Some? ==> forall s :: s in received.value ==> IsVectorPower(received.value[s], x, s, params.m)
  {
    received, targets, nodes := None, [], map[];
    x := LayoutBundle(table, index, params.itemsPerBundle, params.itemBitCount, params.m);
    var dag := new PowersDag();
    var ok := ResetPowersDag(dag, sources, cfg.psLowDegree, cfg.maxBinSize);
    if ok {
      targets, nodes := dag.targetPowers, dag.nodes;
      FreshSourceNodes(nodes, sources, targets);
      var sourceNodes := dag.SourceNodes();
      received := ComputePlaintextPowers(x, sourceNodes, params.m);
    }
  }

  /**
   The receiver creates the query; the sender loads its powers and lets any number of threads compute
   the others under any fair schedule. None is a refused powers DAG.
   */
  method QueryPowers(params: Params, cfg: Config, index: nat, table: seq<seq<Byte>>, sources: seq<nat>,
                     workerCount: nat, schedule: nat -> nat)
    returns (targets: seq<nat>, store: Option<map<nat, Ciphertext>>, x: seq<nat>, ghost nodes: map<nat, PowersNode>,
             ghost loaded: map<nat, Ciphertext>, ghost steps: nat)
    requires ParamsOk(params) && params.m > 1 && StrictlyIncreasing(sources) && workerCount > 0
    requires Fair(schedule, workerCount)
    requires (index + 1) * params.itemsPerBundle <= |table|
    requires forall i :: 0 <= i < |table| ==> params.itemBitCount <= 8 * |table[i]|
    ensures QueryOf(x, table, index, params) && (store.Some? <==> QueryPowersOk(sources, cfg))
    ensures store.Some? ==> && TargetsRight(targets, cfg)
                            && LeftBySchedule(store.value, nodes, targets, sources, loaded, x, params.m, workerCount,
                                              Stretch(schedule, 0, steps), 0)
  {
    var received, dag;
    store, loaded, steps := None, map[], 0;
    received, targets, dag, x := CreateQuery(params, cfg, index, table, sources);
    nodes := dag;
    if received.None? {
      return;
    }
    assert 1 in targets && 0 !in targets;
    var start := LoadPowers(received.value, cfg.maxBinSize, x, params.m);
    loaded := start;
    SoundPlan(dag, targets, sources, start, params.m);
    var m;
    m, steps := ParallelApply(PowersPlan(dag, targets, params.m), sources, start, workerCount, schedule);
    store := Some(m.store);
  }

  lemma SoundPlan(nodes: map<nat, PowersNode>, targets: seq<nat>, sources: seq<nat>, loaded: map<nat, Ciphertext>,
                  p: nat)
    requires p > 0 && DagSound(nodes, sources, targets) && StrictlyIncreasing(targets) && 0 !in targets && targets != []
    requires forall t :: t in targets ==> t in loaded
    ensures Setup(PowersPlan(nodes, targets, p), sources, loaded)
  {
    forall t | t in targets ensures t in nodes {
      assert NodeSound(nodes, sources, targets, t);
    }
  }
}
