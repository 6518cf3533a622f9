/**
 The insert and remove workers of the sender database (sender/apsi/sender_db.cpp). A BundleSet is the
 vector of BinBundles at one bundle index; the dispatchers start one worker for each bundle index in
 the data, and the workers run in any interleaving.
 */
module SenderDB {
  import opened Wrappers
  import opened ModArith
  import opened BinContents
  import opened BinBundles
  import opened BundleSets

  class BundleSet {
    const cfg: Config
    var bundles: seq<BinBundle>

    constructor (cfg: Config)
      requires ConfigOk(cfg) && IsPrime(cfg.p)
      ensures Valid() && this.cfg == cfg && All() == []
    {
      this.cfg := cfg;
      bundles := [];
    }

    ghost predicate Member(b: BinBundle)
      reads b
    {
      && b.Valid() && !b.stripped
      && b.p == cfg.p && b.labelSize == cfg.labelSize && b.numBins == cfg.binsPerBundle
      && b.maxBinSize == cfg.maxBinSize && b.psLowDegree == cfg.psLowDegree
    }

    /** Every bundle is one of this index, with its parameters, and no object occurs twice. */
    ghost predicate Valid()
      reads this, bundles
    {
      && ConfigOk(cfg) && IsPrime(cfg.p)
      && (forall i {:trigger Member(bundles[i])} :: 0 <= i < |bundles| ==> Member(bundles[i]))
      && forall i, j :: 0 <= i < j < |bundles| ==> bundles[i] != bundles[j]
    }

    /** The contents of the bundles, in order. */
    function All(): (r: seq<Contents>)
      reads this, bundles
      ensures |r| == |bundles| && forall i :: 0 <= i < |r| ==> r[i] == bundles[i].Value()
    {
      seq(|bundles|, i requires 0 <= i < |bundles| reads this, bundles => bundles[i].Value())
    }

    lemma ValidSized()
      requires Valid()
      ensures AllSized(All(), cfg) && AllSound(All(), cfg)
    {
      forall i | 0 <= i < |bundles| ensures Sized(All()[i], cfg) && IsSound(All()[i], cfg) {
        assert Member(bundles[i]);
      }
    }

    /** A dry run decides whether the bundle takes the data; only then is it inserted. */
    method TryInsertInto(b: BinBundle, data: AlgData, start: nat) returns (r: Result<bool, BundleError>)
      requires ConfigOk(cfg) && Member(b) && PartsInField(Parts(data), cfg.p)
      modifies b
      ensures Member(b) && Sized(old(b.Value()), cfg)
      ensures r.Err? <==> Outcome(old(b.Value()), data, start, cfg).Err?
      ensures r.Err? ==> Outcome(old(b.Value()), data, start, cfg) == Err(r.error)
      ensures r.Err? ==> DataError(data, start, cfg) == Some(BundleFailed(r.error))
      ensures r.Ok? ==> r.value == Fits(old(b.Value()), data, start, cfg)
      ensures r == Ok(true) ==> DataError(data, start, cfg) == None
      ensures b.Value() == if r == Ok(true) then Inserted(old(b.Value()), Parts(data), start) else old(b.Value())
    {
      var largest := b.MultiInsert(data, start, true);
      if largest.Err? {
        return Err(largest.error);
      }
      if 0 < largest.value < cfg.maxBinSize {
        var done := b.MultiInsert(data, start, false);
        return Ok(true);
      }
      return Ok(false);
    }

    method TryInsertAt(i: nat, data: AlgData, start: nat, ghost was: seq<Contents>)
      returns (r: Result<bool, BundleError>)
      requires Valid() && All() == was && AllSized(was, cfg) && i < |was| && PartsInField(Parts(data), cfg.p)
      modifies bundles[i]
      ensures Valid()
      ensures r.Err? ==> DataError(data, start, cfg) == Some(BundleFailed(r.error))
      ensures r.Ok? ==> PlaceBelow(was, i + 1, data, start, cfg)
                        == if r.value then Some(i) else PlaceBelow(was, i, data, start, cfg)
      ensures r == Ok(true) ==> DataError(data, start, cfg) == None
      ensures All() == if r == Ok(true) then was[i := Inserted(was[i], Parts(data), start)] else was
    {
      assert Member(bundles[i]);
      r := TryInsertInto(bundles[i], data, start);
      assert forall j :: 0 <= j < |bundles| ==> Member(bundles[j]);
    }

    /** First fit from the back. */
    method InsertExisting(data: AlgData, start: nat, ghost was: seq<Contents>) returns (r: Result<bool, BundleError>)
      requires Valid() && All() == was && AllSized(was, cfg) && PartsInField(Parts(data), cfg.p)
      modifies bundles
      ensures Valid()
      ensures r.Err? ==> DataError(data, start, cfg) == Some(BundleFailed(r.error))
      ensures r == Ok(true) ==> DataError(data, start, cfg) == None && All() == InsertOne(was, data, start, cfg)
      ensures r != Ok(true) ==> All() == was
      ensures r == Ok(false) ==> Place(was, data, start, cfg) == None
    {
      for i := |bundles| downto 0
        invariant Valid() && All() == was
        invariant Place(was, data, start, cfg) == PlaceBelow(was, i, data, start, cfg)
      {
        r := TryInsertAt(i, data, start, was);
        if r == Ok(true) {
          PlacedAt(was, data, start, cfg, i);
          return r;
        }
        if r.Err? {
          return r;
        }
      }
      return Ok(false);
    }

    /** A fresh bundle is added when no bundle has room. */
    method InsertData(data: AlgData, start: nat) returns (error: Option<WorkerError>)
      requires Valid() && PartsInField(Parts(data), cfg.p)
      modifies this, bundles
      ensures Valid()
      ensures AllSized(old(All()), cfg) && error == DataError(data, start, cfg)
      ensures All() == if error.None? then InsertOne(old(All()), data, start, cfg) else old(All())
      ensures forall i :: 0 <= i < |bundles| ==> bundles[i] in old(bundles) || fresh(bundles[i])
    {
      ValidSized();
      var written := InsertExisting(data, start, All());
      if written.Err? {
        return Some(BundleFailed(written.error));
      }
      if written.value {
        return None;
      }
      error := InsertFresh(data, start);
    }

    method InsertFresh(data: AlgData, start: nat) returns (error: Option<WorkerError>)
      requires Valid() && PartsInField(Parts(data), cfg.p)
      modifies this
      ensures Valid() && error == DataError(data, start, cfg)
      ensures All() == if error.None?
                       then old(All())
                            + [Inserted(EmptyContents(cfg.binsPerBundle, cfg.labelSize), Parts(data), start)]
                       else old(All())
      ensures error.Some? ==> bundles == old(bundles)
      ensures error.None? ==>
                |bundles| == |old(bundles)| + 1 && bundles[..|old(bundles)|] == old(bundles)
                  && fresh(bundles[|old(bundles)|])
    {
      var bundle;
      bundle, error := NewBundleWith(data, start);
      if error.None? {
        bundles := bundles + [bundle];
      }
    }

    /** A new bundle that holds the data, or the reason why it rejects it. */
    method NewBundleWith(data: AlgData, start: nat) returns (bundle: BinBundle, error: Option<WorkerError>)
      requires ConfigOk(cfg) && IsPrime(cfg.p) && PartsInField(Parts(data), cfg.p)
      ensures fresh(bundle) && Member(bundle) && error == DataError(data, start, cfg)
      ensures error.None? ==>
                bundle.Value() == Inserted(EmptyContents(cfg.binsPerBundle, cfg.labelSize), Parts(data), start)
    {
      bundle := new BinBundle(cfg.p, cfg.labelSize, cfg.maxBinSize, cfg.psLowDegree, cfg.binsPerBundle, false);
      FreshOutcome(data, start, cfg);
      var res := bundle.MultiInsert(data, start, false);
      if res.Err? {
        return bundle, Some(BundleFailed(res.error));
      }
      if res.value < 0 {
        return bundle, Some(FreshBundleRejects);
      }
      return bundle, None;
    }

    /** The bundle is asked to overwrite and, if it does not hold the data, to insert. */
    method TryAssignInto(b: BinBundle, data: AlgData, start: nat) returns (r: Result<bool, BundleError>)
      requires ConfigOk(cfg) && Member(b) && PartsInField(Parts(data), cfg.p)
      modifies b
      ensures Member(b) && Sized(old(b.Value()), cfg)
      ensures AssignTo(old(b.Value()), data, start, cfg)
              == if r.Err? then Err(r.error) else if r.value then Ok(Some(b.Value())) else Ok(None)
      ensures r != Ok(true) ==> b.Value() == old(b.Value())
    {
      var overwritten := b.TryMultiOverwrite(data, start);
      if overwritten != Ok(false) {
        return overwritten;
      }
      r := TryInsertInto(b, data, start);
    }

    /** What bundle i did with the data: it may reject it, take it, or pass it over. */
    ghost predicate AssignedAt(was: seq<Contents>, i: nat, r: Result<bool, BundleError>, data: AlgData, start: nat)
      requires AllSized(was, cfg) && i < |was|
      reads this, bundles
    {
      && |bundles| == |was| && All() == (if r == Ok(true) then was[i := All()[i]] else was)
      && AssignTo(was[i], data, start, cfg)
         == if r.Err? then Err(r.error) else if r.value then Ok(Some(All()[i])) else Ok(None)
    }

    method TryAssignAt(i: nat, data: AlgData, start: nat, ghost was: seq<Contents>, ghost place: Option<nat>)
      returns (r: Result<bool, BundleError>)
      requires Valid() && All() == was && AllSized(was, cfg) && i < |was| && PartsInField(Parts(data), cfg.p)
      requires place == AssignPlace(was, i + 1, data, start, cfg)
      modifies bundles[i]
      ensures Valid() && AssignedAt(was, i, r, data, start)
      ensures place == if r == Ok(false) then AssignPlace(was, i, data, start, cfg) else Some(i)
    {
      AssignPlaceNext(was, i, data, start, cfg);
      assert Member(bundles[i]);
      r := TryAssignInto(bundles[i], data, start);
      assert forall j :: 0 <= j < |bundles| ==> Member(bundles[j]);
    }

    /** From the back, until some bundle overwrites, takes or rejects the data. */
    method AssignExisting(data: AlgData, start: nat, ghost was: seq<Contents>, ghost place: Option<nat>)
      returns (r: Result<bool, BundleError>)
      requires Valid() && All() == was && AllSized(was, cfg) && PartsInField(Parts(data), cfg.p)
      requires place == AssignPlace(was, |was|, data, start, cfg)
      modifies bundles
      ensures Valid() && (place.None? <==> r == Ok(false))
      ensures if place.Some? then AssignedAt(was, place.value, r, data, start) else All() == was
    {
      for i := |bundles| downto 0
        invariant Valid() && All() == was && place == AssignPlace(was, i, data, start, cfg)
      {
        r := TryAssignAt(i, data, start, was, place);
        if r != Ok(false) {
          return r;
        }
      }
      return Ok(false);
    }

    /** Overwriting never makes a new bundle: data that no bundle takes is an exception. */
    method AssignData(data: AlgData, start: nat) returns (error: Option<WorkerError>)
      requires Valid() && PartsInField(Parts(data), cfg.p)
      modifies bundles
      ensures Valid() && AllSized(old(All()), cfg)
      ensures var r := AssignOne(old(All()), data, start, cfg);
              if r.Ok? then error == None && All() == r.value else error == Some(r.error) && All() == old(All())
    {
      ValidSized();
      var written := AssignExisting(data, start, All(), AssignPlace(All(), |All()|, data, start, cfg));
      if written.Err? {
        return Some(BundleFailed(written.error));
      }
      return if written.value then None else Some(NothingToOverwrite);
    }

    /** One task: nothing to do if it belongs to another bundle index. */
    method InsertOrAssign(task: Task, index: nat, overwrite: bool) returns (error: Option<WorkerError>)
      requires Valid() && PartsInField(Parts(task.data), cfg.p)
      modifies this, bundles
      ensures Valid() && AllSized(old(All()), cfg)
      ensures (All(), error) == WorkerOne((old(All()), None), task, index, overwrite, cfg)
      ensures forall i :: 0 <= i < |bundles| ==> bundles[i] in old(bundles) || fresh(bundles[i])
    {
      ValidSized();
      var (binIdx, bundleIdx) := UnpackCuckooIdx(task.cuckooIdx, cfg.binsPerBundle);
      if bundleIdx != index {
        return None;
      }
      if overwrite {
        error := AssignData(task.data, binIdx);
      } else {
        error := InsertData(task.data, binIdx);
      }
    }

    /** Goes over all the data and inserts, or with overwrite assigns, what belongs to this bundle index. */
    method InsertOrAssignWorker(tasks: seq<Task>, index: nat, overwrite: bool) returns (error: Option<WorkerError>)
      requires Valid() && TasksInField(tasks, cfg.p)
      modifies this, bundles
      ensures Valid() && AllSized(old(All()), cfg)
      ensures (All(), error) == WorkerRun(old(All()), tasks, index, overwrite, cfg)
      ensures forall i :: 0 <= i < |bundles| ==> bundles[i] in old(bundles) || fresh(bundles[i])
    {
      ValidSized();
      ghost var was := All();
      for k := 0 to |tasks|
        invariant Valid() && (All(), None) == WorkerRun(was, tasks[..k], index, overwrite, cfg)
        invariant forall i :: 0 <= i < |bundles| ==> bundles[i] in old(bundles) || fresh(bundles[i])
      {
        assert tasks[..k + 1][..k] == tasks[..k];
        error := InsertOrAssign(tasks[k], index, overwrite);
        if error.Some? {
          WorkerRunStops(was, tasks, k + 1, index, overwrite, cfg);
          return error;
        }
      }
      assert tasks[..|tasks|] == tasks;
      return None;
    }

    method TryRemoveAt(i: nat, items: seq<nat>, start: nat) returns (removed: bool)
      requires Valid() && i < |bundles|
      modifies bundles[i]
      ensures Valid() && Sized(old(All())[i], cfg) && removed == Holder(old(All())[i], items, start, cfg)
      ensures All() == if removed then old(All())[i := Removed(old(All())[i], items, start)] else old(All())
    {
      assert Member(bundles[i]);
      var r := bundles[i].TryMultiRemove(items, start);
      assert forall j :: 0 <= j < |bundles| ==> Member(bundles[j]);
      return r.value;
    }

    /** Removes the parts from the first bundle that holds them all, then drops empty bundles. */
    method RemoveData(items: seq<nat>, start: nat) returns (removed: bool)
      requires Valid()
      modifies this, bundles
      ensures Valid() && AllSized(old(All()), cfg)
      ensures removed <==> FindHolder(old(All()), items, start, cfg).Some?
      ensures All() == RemoveOne(old(All()), items, start, cfg)
      ensures forall i :: 0 <= i < |bundles| ==> bundles[i] in old(bundles)
    {
      ValidSized();
      ghost var was := All();
      removed := false;
      for i := 0 to |bundles|
        invariant bundles == old(bundles) && Valid() && !removed
        invariant All() == was && FindHolder(was, items, start, cfg) == FindHolderFrom(was, items, start, cfg, i)
      {
        removed := TryRemoveAt(i, items, start);
        if removed {
          break;
        }
      }
      DropEmptyBundles();
    }

    method DropEmptyBundles()
      requires Valid()
      modifies this`bundles
      ensures Valid() && All() == DropEmpty(old(All()))
      ensures forall i :: 0 <= i < |bundles| ==> bundles[i] in old(bundles)
    {
      forall i | 0 <= i < |bundles| ensures bundles[i].Valid() {
        assert Member(bundles[i]);
      }
      var kept, rest, from := NonEmptyBundles(bundles, All());
      forall i | 0 <= i < |kept| ensures Member(kept[i]) && kept[i] in bundles && kept[i].Value() == rest[i] {
        assert Member(bundles[from[i]]) && All()[from[i]] == bundles[from[i]].Value();
      }
      bundles := kept;
    }

    // ---------- Serving queries ----------

    /** The bundle is one of this index, and its cache answers for the given contents. */
    ghost predicate ServesAt(b: BinBundle, c: Contents)
      reads b
    {
      && b.Valid() && !b.cacheInvalid && b.Served() == c
      && b.p == cfg.p && b.labelSize == cfg.labelSize && b.numBins == cfg.binsPerBundle
      && b.maxBinSize == cfg.maxBinSize && b.psLowDegree == cfg.psLowDegree
    }

    /** All caches are fresh, of stripped bundles or not. */
    ghost predicate Serving(cs: seq<Contents>)
      reads this, bundles
    {
      && ConfigOk(cfg) && IsPrime(cfg.p) && |cs| == |bundles|
      && forall i {:trigger ServesAt(bundles[i], cs[i])} :: 0 <= i < |bundles| ==> ServesAt(bundles[i], cs[i])
    }

    /** generate_caches for this bundle index. */
    method GenerateCaches()
      requires Valid()
      modifies bundles
      ensures Valid() && All() == old(All()) && Serving(All())
    {
      ghost var was := All();
      for i := 0 to |bundles|
        invariant Valid() && All() == was
        invariant forall j {:trigger ServesAt(bundles[j], was[j])} :: 0 <= j < i ==> ServesAt(bundles[j], was[j])
      {
        assert Member(bundles[i]);
        bundles[i].RegenCache();
        assert ServesAt(bundles[i], was[i]);
        assert forall j :: 0 <= j < |bundles| ==> Member(bundles[j]);
      }
    }

    /** strip for this bundle index: the data goes, and the caches still answer for it. */
    method Strip()
      requires Valid()
      modifies bundles
      ensures Serving(old(All()))
      ensures forall i :: 0 <= i < |bundles| ==> bundles[i].stripped && bundles[i].Value() == Contents([], [])
    {
      ghost var was := All();
      for i := 0 to |bundles|
        invariant forall j {:trigger ServesAt(bundles[j], was[j])} :: 0 <= j < i ==> ServesAt(bundles[j], was[j])
        invariant forall j :: 0 <= j < i ==> bundles[j].stripped && bundles[j].Value() == Contents([], [])
        invariant forall j {:trigger Member(bundles[j])} :: i <= j < |bundles| ==>
                    Member(bundles[j]) && bundles[j].Value() == was[j]
      {
        assert Member(bundles[i]);
        bundles[i].Strip();
        assert ServesAt(bundles[i], was[i]);
      }
    }

    method RemoveOrSkip(task: RemoveTask, index: nat) returns (error: Option<WorkerError>)
      requires Valid()
      modifies this, bundles
      ensures Valid() && AllSized(old(All()), cfg)
      ensures (All(), error) == RemoveStep((old(All()), None), task, index, cfg)
      ensures forall i :: 0 <= i < |bundles| ==> bundles[i] in old(bundles)
    {
      ValidSized();
      var (binIdx, bundleIdx) := UnpackCuckooIdx(task.cuckooIdx, cfg.binsPerBundle);
      if bundleIdx != index {
        return None;
      }
      var removed := RemoveData(task.items, binIdx);
      return if removed then None else Some(NothingToRemove);
    }

    /** Goes over all the data and removes what belongs to this bundle index. */
    method RemoveWorker(tasks: seq<RemoveTask>, index: nat) returns (error: Option<WorkerError>)
      requires Valid()
      modifies this, bundles
      ensures Valid() && AllSized(old(All()), cfg)
      ensures (All(), error) == RemoveRun(old(All()), tasks, index, cfg)
      ensures forall i :: 0 <= i < |bundles| ==> bundles[i] in old(bundles)
    {
      ValidSized();
      ghost var was := All();
      for k := 0 to |tasks|
        invariant Valid() && (All(), None) == RemoveRun(was, tasks[..k], index, cfg)
        invariant forall i :: 0 <= i < |bundles| ==> bundles[i] in old(bundles)
      {
        assert tasks[..k + 1][..k] == tasks[..k];
        error := RemoveOrSkip(tasks[k], index);
        if error.Some? {
          RemoveRunStops(was, tasks, k + 1, index, cfg);
          return error;
        }
      }
      assert tasks[..|tasks|] == tasks;
      return None;
    }
  }

  /** The elements of all, and beside them those of was, at the increasing positions from below j. */
  ghost predicate Picked<S, T>(kept: seq<S>, rest: seq<T>, all: seq<S>, was: seq<T>, from: seq<nat>, j: nat) {
    && |from| == |kept| == |rest| && j <= |all| == |was|
    && (forall i :: 0 <= i < |from| ==> from[i] < j && kept[i] == all[from[i]] && rest[i] == was[from[i]])
    && forall h, i :: 0 <= h < i < |from| ==> from[h] < from[i]
  }

  lemma PickedOne<S, T>(kept: seq<S>, rest: seq<T>, all: seq<S>, was: seq<T>, from: seq<nat>, j: nat)
    requires Picked(kept, rest, all, was, from, j) && j < |all|
    ensures Picked(kept + [all[j]], rest + [was[j]], all, was, from + [j], j + 1)
  {
  }

  /** The bundles that hold an item, in order; from says where they were. */
  method NonEmptyBundles(bundles: seq<BinBundle>, ghost was: seq<Contents>)
    returns (kept: seq<BinBundle>, ghost rest: seq<Contents>, ghost from: seq<nat>)
    requires |was| == |bundles|
    requires forall i :: 0 <= i < |bundles| ==> bundles[i].Valid() && bundles[i].Value() == was[i]
    ensures rest == DropEmpty(was) && Picked(kept, rest, bundles, was, from, |was|)
  {
    kept, rest, from := [], [], [];
    for j := 0 to |bundles|
      invariant rest == NonEmpty(was, j) && Picked(kept, rest, bundles, was, from, j)
    {
      var e := bundles[j].Empty();
      if !e {
        PickedOne(kept, rest, bundles, was, from, j);
        kept, rest, from := kept + [bundles[j]], rest + [was[j]], from + [j];
      }
    }
  }

  /** One worker, with or without overwriting. */
  function WorkerRun(cs: seq<Contents>, tasks: seq<Task>, index: nat, overwrite: bool, cfg: Config):
    (seq<Contents>, Option<WorkerError>)
    requires AllSized(cs, cfg) && ConfigOk(cfg)
  {
    if overwrite then AssignRun(cs, tasks, index, cfg) else InsertRun(cs, tasks, index, cfg)
  }

  lemma WorkerRunStops(cs: seq<Contents>, tasks: seq<Task>, k: nat, index: nat, overwrite: bool, cfg: Config)
    requires AllSized(cs, cfg) && ConfigOk(cfg) && k <= |tasks|
    requires WorkerRun(cs, tasks[..k], index, overwrite, cfg).1.Some?
    ensures WorkerRun(cs, tasks, index, overwrite, cfg) == WorkerRun(cs, tasks[..k], index, overwrite, cfg)
  {
    if overwrite {
      AssignRunStops(cs, tasks, k, index, cfg);
    } else {
      InsertRunStops(cs, tasks, k, index, cfg);
    }
  }

  lemma {:induction false} AssignRunStops(cs: seq<Contents>, tasks: seq<Task>, k: nat, index: nat, cfg: Config)
    requires AllSized(cs, cfg) && ConfigOk(cfg) && k <= |tasks| && AssignRun(cs, tasks[..k], index, cfg).1.Some?
    ensures AssignRun(cs, tasks, index, cfg) == AssignRun(cs, tasks[..k], index, cfg)
  {
    if k == |tasks| {
      assert tasks[..k] == tasks;
    } else {
      assert tasks[..|tasks| - 1][..k] == tasks[..k];
      AssignRunStops(cs, tasks[..|tasks| - 1], k, index, cfg);
    }
  }

  lemma {:induction false} InsertRunStops(cs: seq<Contents>, tasks: seq<Task>, k: nat, index: nat, cfg: Config)
    requires AllSized(cs, cfg) && ConfigOk(cfg) && k <= |tasks| && InsertRun(cs, tasks[..k], index, cfg).1.Some?
    ensures InsertRun(cs, tasks, index, cfg) == InsertRun(cs, tasks[..k], index, cfg)
  {
    if k == |tasks| {
      assert tasks[..k] == tasks;
    } else {
      assert tasks[..|tasks| - 1][..k] == tasks[..k];
      InsertRunStops(cs, tasks[..|tasks| - 1], k, index, cfg);
    }
  }

  lemma {:induction false} RemoveRunStops(cs: seq<Contents>, tasks: seq<RemoveTask>, k: nat, index: nat, cfg: Config)
    requires AllSized(cs, cfg) && ConfigOk(cfg) && k <= |tasks| && RemoveRun(cs, tasks[..k], index, cfg).1.Some?
    ensures RemoveRun(cs, tasks, index, cfg) == RemoveRun(cs, tasks[..k], index, cfg)
  {
    if k == |tasks| {
      assert tasks[..k] == tasks;
    } else {
      assert tasks[..|tasks| - 1][..k] == tasks[..k];
      RemoveRunStops(cs, tasks[..|tasks| - 1], k, index, cfg);
    }
  }

  /** One worker's treatment of one task. */
  function WorkerOne(before: (seq<Contents>, Option<WorkerError>), task: Task, index: nat, overwrite: bool,
                     cfg: Config):
    (r: (seq<Contents>, Option<WorkerError>))
    requires AllSized(before.0, cfg) && ConfigOk(cfg)
    ensures AllSized(r.0, cfg)
  {
    if overwrite then AssignStep(before, task, index, cfg) else InsertStep(before, task, index, cfg)
  }

  // ---------- Dispatching one worker for each bundle index ----------

  /** The bundle indices that occur in the data. */
  function Indices(tasks: seq<Task>, cfg: Config): set<nat>
    requires ConfigOk(cfg)
  {
    set k | 0 <= k < |tasks| :: BundleIdx(tasks[k].cuckooIdx, cfg)
  }

  /** The bundle sets, and for the worker of each index its position in the data and its exception. */
  datatype Dispatch = Dispatch(sets: seq<seq<Contents>>, next: seq<nat>, errors: seq<Option<WorkerError>>)

  ghost predicate WellFormed(s: Dispatch, cfg: Config) {
    && |s.next| == |s.sets| == |s.errors|
    && forall w :: 0 <= w < |s.sets| ==> AllSized(s.sets[w], cfg)
  }

  ghost predicate Initial(s: Dispatch, cfg: Config) {
    WellFormed(s, cfg) && forall w :: 0 <= w < |s.sets| ==> s.next[w] == 0 && s.errors[w] == None
  }

  /** Worker w handles its next task. */
  ghost predicate WorkerStep(s: Dispatch, t: Dispatch, w: nat, tasks: seq<Task>, overwrite: bool, cfg: Config)
    requires ConfigOk(cfg)
  {
    && WellFormed(s, cfg) && w < |s.sets| && w in Indices(tasks, cfg)
    && s.next[w] < |tasks| && s.errors[w] == None
    && (var r := WorkerOne((s.sets[w], None), tasks[s.next[w]], w, overwrite, cfg);
        t == Dispatch(s.sets[w := r.0], s.next[w := s.next[w] + 1], s.errors[w := r.1]))
  }

  ghost predicate Done(s: Dispatch, tasks: seq<Task>, cfg: Config)
    requires ConfigOk(cfg)
  {
    && |s.next| == |s.sets| == |s.errors|
    && forall w :: 0 <= w < |s.sets| && w in Indices(tasks, cfg) ==> s.next[w] == |tasks| || s.errors[w].Some?
  }

  ghost predicate NoErrors(s: Dispatch) {
    forall w :: 0 <= w < |s.errors| ==> s.errors[w] == None
  }

  /** An interleaving: at each point some worker takes a step. */
  ghost predicate IsRun(run: seq<Dispatch>, schedule: seq<nat>, tasks: seq<Task>, overwrite: bool, cfg: Config)
    requires ConfigOk(cfg)
  {
    && |run| == |schedule| + 1 && Initial(run[0], cfg)
    && forall k :: 0 <= k < |schedule| ==> WorkerStep(run[k], run[k + 1], schedule[k], tasks, overwrite, cfg)
  }

  /** Each worker has done its own part of the data, whatever the others did. */
  ghost predicate Separate(s: Dispatch, start: Dispatch, tasks: seq<Task>, overwrite: bool, cfg: Config)
    requires ConfigOk(cfg)
  {
    && WellFormed(s, cfg) && WellFormed(start, cfg) && |s.sets| == |start.sets|
    && forall w :: 0 <= w < |s.sets| ==> OwnPart(s, start, w, tasks, overwrite, cfg)
  }

  ghost predicate OwnPart(s: Dispatch, start: Dispatch, w: nat, tasks: seq<Task>, overwrite: bool, cfg: Config)
    requires ConfigOk(cfg) && WellFormed(s, cfg) && WellFormed(start, cfg) && w < |s.sets| == |start.sets|
  {
    && s.next[w] <= |tasks|
    && (s.sets[w], s.errors[w]) == WorkerRun(start.sets[w], tasks[..s.next[w]], w, overwrite, cfg)
    && (w !in Indices(tasks, cfg) ==> s.sets[w] == start.sets[w] && s.errors[w] == None)
  }

  lemma StepKeepsSeparate(s: Dispatch, t: Dispatch, start: Dispatch, w: nat, tasks: seq<Task>, overwrite: bool,
                          cfg: Config)
    requires ConfigOk(cfg) && Separate(s, start, tasks, overwrite, cfg) && WorkerStep(s, t, w, tasks, overwrite, cfg)
    ensures Separate(t, start, tasks, overwrite, cfg)
  {
    assert OwnPart(s, start, w, tasks, overwrite, cfg);
    var k := s.next[w];
    assert tasks[..k + 1][..k] == tasks[..k];
    forall v | 0 <= v < |t.sets| ensures AllSized(t.sets[v], cfg) {
    }
    forall v | 0 <= v < |t.sets| ensures OwnPart(t, start, v, tasks, overwrite, cfg) {
      assert OwnPart(s, start, v, tasks, overwrite, cfg);
    }
  }

  lemma {:induction false} RunKeepsSeparate(run: seq<Dispatch>, schedule: seq<nat>, tasks: seq<Task>, overwrite: bool,
                                            cfg: Config, k: nat)
    requires ConfigOk(cfg) && IsRun(run, schedule, tasks, overwrite, cfg) && k < |run|
    ensures Separate(run[k], run[0], tasks, overwrite, cfg)
  {
    if k == 0 {
      forall w | 0 <= w < |run[0].sets| ensures OwnPart(run[0], run[0], w, tasks, overwrite, cfg) {
        assert tasks[..0] == [];
      }
    } else {
      RunKeepsSeparate(run, schedule, tasks, overwrite, cfg, k - 1);
      StepKeepsSeparate(run[k - 1], run[k], run[0], schedule[k - 1], tasks, overwrite, cfg);
    }
  }

  /** One thread that goes over the data once and sends each item to its bundle set. */
  function SequentialPass(sets: seq<seq<Contents>>, tasks: seq<Task>, overwrite: bool,
                          cfg: Config): (r: seq<seq<Contents>>)
    requires ConfigOk(cfg) && SetsSized(sets, cfg)
    ensures |r| == |sets| && SetsSized(r, cfg)
  {
    if tasks == [] then sets
    else
      var before := SequentialPass(sets, tasks[..|tasks| - 1], overwrite, cfg);
      var t := tasks[|tasks| - 1];
      var w := BundleIdx(t.cuckooIdx, cfg);
      if w < |before| then before[w := WorkerOne((before[w], None), t, w, overwrite, cfg).0] else before
  }

  predicate SetsSized(sets: seq<seq<Contents>>, cfg: Config) {
    forall w :: 0 <= w < |sets| ==> AllSized(sets[w], cfg)
  }

  lemma {:induction false} SequentialIsSeparate(sets: seq<seq<Contents>>, tasks: seq<Task>, overwrite: bool,
                                                cfg: Config, w: nat)
    requires ConfigOk(cfg) && SetsSized(sets, cfg) && w < |sets|
    requires WorkerRun(sets[w], tasks, w, overwrite, cfg).1 == None
    ensures SequentialPass(sets, tasks, overwrite, cfg)[w] == WorkerRun(sets[w], tasks, w, overwrite, cfg).0
  {
    if tasks != [] {
      SequentialIsSeparate(sets, tasks[..|tasks| - 1], overwrite, cfg, w);
    }
  }

  /** A worker whose index does not occur would change nothing. */
  lemma {:induction false} IdleWorker(cs: seq<Contents>, tasks: seq<Task>, w: nat, overwrite: bool, cfg: Config)
    requires ConfigOk(cfg) && AllSized(cs, cfg)
    requires forall k :: 0 <= k < |tasks| ==> BundleIdx(tasks[k].cuckooIdx, cfg) != w
    ensures WorkerRun(cs, tasks, w, overwrite, cfg) == (cs, None)
  {
    if tasks != [] {
      IdleWorker(cs, tasks[..|tasks| - 1], w, overwrite, cfg);
    }
  }

  /** Workers in any interleaving leave the same bundles as one sequential pass. */
  lemma EveryInterleavingIsSequential(run: seq<Dispatch>, schedule: seq<nat>, tasks: seq<Task>, overwrite: bool,
                                      cfg: Config)
    requires ConfigOk(cfg) && IsRun(run, schedule, tasks, overwrite, cfg)
    requires Done(run[|schedule|], tasks, cfg) && NoErrors(run[|schedule|])
    ensures SetsSized(run[0].sets, cfg) && run[|schedule|].sets == SequentialPass(run[0].sets, tasks, overwrite, cfg)
  {
    var first, last := run[0], run[|schedule|];
    RunKeepsSeparate(run, schedule, tasks, overwrite, cfg, |schedule|);
    forall w | 0 <= w < |first.sets| ensures last.sets[w] == SequentialPass(first.sets, tasks, overwrite, cfg)[w] {
      assert OwnPart(last, first, w, tasks, overwrite, cfg);
      if w in Indices(tasks, cfg) {
        assert tasks[..|tasks|] == tasks;
      } else {
        forall k | 0 <= k < |tasks| ensures BundleIdx(tasks[k].cuckooIdx, cfg) != w {
          assert BundleIdx(tasks[k].cuckooIdx, cfg) in Indices(tasks, cfg);
        }
        IdleWorker(first.sets[w], tasks, w, overwrite, cfg);
      }
      SequentialIsSeparate(first.sets, tasks, overwrite, cfg, w);
    }
  }

  /** A worker fails in one interleaving exactly when its own data is malformed. */
  lemma FailureIsOwn(run: seq<Dispatch>, schedule: seq<nat>, tasks: seq<Task>, overwrite: bool, cfg: Config, w: nat)
    requires ConfigOk(cfg) && IsRun(run, schedule, tasks, overwrite, cfg) && w < |run[0].sets|
    requires w in Indices(tasks, cfg)
    requires Done(run[|schedule|], tasks, cfg)
    ensures w < |run[|schedule|].errors|
    ensures run[|schedule|].errors[w] == WorkerRun(run[0].sets[w], tasks, w, overwrite, cfg).1
  {
    var first, last := run[0], run[|schedule|];
    RunKeepsSeparate(run, schedule, tasks, overwrite, cfg, |schedule|);
    assert OwnPart(last, first, w, tasks, overwrite, cfg);
    assert tasks[..|tasks|] == tasks;
    if last.errors[w].Some? {
      WorkerRunStops(first.sets[w], tasks, last.next[w], w, overwrite, cfg);
    }
  }
}
