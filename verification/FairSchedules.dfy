/**
 Every fair schedule of the scheduler's workers lets all of them return.

 A worker may be made to give a node back because it looked at a parent too early, and may then find
 the node taken whenever it comes by again. What rules out that this goes on for ever is the first
 node that is not computed. Its parents are computed, so an owner that looks at them from now on
 calls the function; an owner that looked too early gives the node back once; and while nobody owns
 it, one particular worker comes nearer to it with every step of its own.
 */
module FairSchedules {
  import opened PowersScheduler

  predicate AllReturned<V>(m: Machine<V>) {
    forall w :: 0 <= w < |m.workers| ==> m.workers[w].pc.Returned?
  }

  // ---------- The measure ----------

  /** Steps of one worker until it leaves the node it is at, or claims it. */
  function Trip<V>(pc: Pc<V>, n: nat): nat {
    match pc
    case CheckDone(seen) => (if seen <= n then n - seen else 0) + 8
    case TryClaim => 7
    case _ => Rank(pc)
  }

  /** Steps of one worker until it returns, once every node is computed. */
  function Tail<V>(pc: Pc<V>, n: nat): nat {
    match pc
    case Returned => 0
    case CheckDone(seen) => (if seen <= n then n - seen else 0) + 1
    case _ => n + 2
  }

  function TailSum<V>(workers: seq<Worker<V>>, n: nat): nat {
    if workers == [] then 0 else Tail(workers[0].pc, n) + TailSum(workers[1..], n)
  }

  /** An owner that has seen a parent before it was computed, and will give the node back. */
  predicate Late<V>(pc: Pc<V>) {
    pc.Release? || (pc.CheckSecond? && !pc.firstComputed)
  }

  /** What is still to happen to a node whose parents are computed. */
  function Stage<V>(m: Machine<V>, node: nat, c: nat): nat
    requires node < |m.states| && c < |m.workers|
  {
    if !m.states[node].Computing? then 1 else if Late(m.workers[c].pc) then 2 else 0
  }

  /** Steps that worker c needs for the next stage of the node. */
  function Wait<V>(m: Machine<V>, node: nat, c: nat): nat
    requires node < |m.states| && c < |m.workers| && m.workers[c].idx < |m.states|
  {
    if m.states[node].Computing? then Rank(m.workers[c].pc)
    else Distance(m.workers[c].idx, node, |m.states|) * (|m.states| + 9) + Trip(m.workers[c].pc, |m.states|)
  }

  /** No wait is as long as this. */
  function Width(n: nat): nat {
    n * (n + 9) + 7
  }

  /** The rounds that are enough for a machine with some nodes left, in a stage, with some wait. */
  function Weight(n: nat, workers: nat, left: nat, stage: nat, wait: nat): nat {
    workers * (n + 2) + left * (3 * Width(n)) + stage * Width(n) + wait
  }

  function Potential<V>(m: Machine<V>, c: nat): nat
    requires c < |m.workers| && m.workers[c].idx < |m.states|
  {
    if Unfinished(m.states) then
      var node := FirstLeft(m.states);
      Weight(|m.states|, |m.workers|, UncomputedCount(m.states), Stage(m, node, c), Wait(m, node, c))
    else TailSum(m.workers, |m.states|)
  }

  /** The worker whose next step brings the measure down. */
  ghost predicate Chosen<V>(m: Machine<V>, c: nat) {
    && c < |m.workers|
    && if Unfinished(m.states) then
         var node := FirstLeft(m.states);
         if m.states[node].Computing? then m.workers[c].Owns() && m.workers[c].idx == node else c == 0
       else !m.workers[c].pc.Returned?
  }

  // ---------- Arithmetic of the measure ----------

  lemma WaitBelowWidth<V>(m: Machine<V>, node: nat, c: nat)
    requires node < |m.states| && c < |m.workers| && m.workers[c].idx < |m.states|
    ensures Wait(m, node, c) < Width(|m.states|)
  {
    var n, idx := |m.states|, m.workers[c].idx;
    var far := Distance(idx, node, n);
    assert far <= n - 1;
    ProductMonotone(far, n - 1, n + 9);
    assert (n - 1) * (n + 9) == n * (n + 9) - (n + 9);
  }

  lemma ProductMonotone(a: nat, b: nat, k: nat)
    requires a <= b
    ensures a * k <= b * k
  {
  }

  /** Fewer nodes left outweigh the stage and the wait; an earlier stage outweighs the wait. */
  lemma WeightDrops(n: nat, workers: nat, left: nat, stage: nat, wait: nat, left': nat, stage': nat, wait': nat)
    requires stage' <= 2 && wait' < Width(n)
    requires left' < left || (left' == left && (stage' < stage || (stage' == stage && wait' < wait)))
    ensures Weight(n, workers, left', stage', wait') < Weight(n, workers, left, stage, wait)
  {
    var width := Width(n);
    if left' < left {
      ProductMonotone(left' + 1, left, 3 * width);
      assert (left' + 1) * (3 * width) == left' * (3 * width) + 3 * width;
      ProductMonotone(stage', 2, width);
    } else if stage' < stage {
      ProductMonotone(stage' + 1, stage, width);
      assert (stage' + 1) * width == stage' * width + width;
    }
  }

  lemma NearerMeansLessWait(far: nat, far': nat, trip: nat, trip': nat, n: nat)
    requires trip' <= n + 8 && (far' < far || (far' == far && trip' < trip))
    ensures far' * (n + 9) + trip' < far * (n + 9) + trip
  {
    if far' < far {
      ProductMonotone(far' + 1, far, n + 9);
      assert (far' + 1) * (n + 9) == far' * (n + 9) + n + 9;
    }
  }

  lemma {:induction false} TailSumUpdate<V>(workers: seq<Worker<V>>, w: nat, me: Worker<V>, n: nat)
    requires w < |workers|
    ensures TailSum(workers[w := me], n) + Tail(workers[w].pc, n) == TailSum(workers, n) + Tail(me.pc, n)
  {
    var next := workers[w := me];
    if w == 0 {
      assert next[1..] == workers[1..];
    } else {
      TailSumUpdate(workers[1..], w - 1, me, n);
      assert next[1..] == workers[1..][w - 1 := me];
    }
  }

  lemma {:induction false} TailSumBound<V>(workers: seq<Worker<V>>, n: nat)
    ensures TailSum(workers, n) <= |workers| * (n + 2)
  {
    if workers != [] {
      TailSumBound(workers[1..], n);
      assert |workers| * (n + 2) == (|workers| - 1) * (n + 2) + n + 2;
    }
  }

  lemma {:induction false} CountBound(states: seq<NodeState>)
    ensures UncomputedCount(states) <= |states|
  {
    if states != [] {
      CountBound(states[1..]);
    }
  }

  /** What is left depends only on which nodes are computed. */
  lemma {:induction false} SameLeft(states: seq<NodeState>, next: seq<NodeState>)
    requires |next| == |states| && forall i :: 0 <= i < |states| ==> next[i].Computed? == states[i].Computed?
    ensures UncomputedCount(next) == UncomputedCount(states)
    ensures Unfinished(next) == Unfinished(states)
    ensures Unfinished(states) ==> FirstLeft(next) == FirstLeft(states)
  {
    if states != [] {
      SameLeft(states[1..], next[1..]);
    }
    if Unfinished(states) {
      var i := FirstLeft(states);
      assert !next[i].Computed?;
      assert Unfinished(next);
      var j := FirstLeft(next);
      assert i <= j && j <= i;
    } else {
      assert forall i :: 0 <= i < |next| ==> next[i].Computed? == states[i].Computed?;
    }
  }

  lemma ChosenExists<V>(plan: Plan<V>, sources: seq<nat>, loaded: map<nat, V>, m: Machine<V>) returns (c: nat)
    requires Setup(plan, sources, loaded) && Inv(plan, sources, loaded, m) && !AllReturned(m)
    ensures Chosen(m, c)
  {
    c := 0;
    if Unfinished(m.states) {
      var node := FirstLeft(m.states);
      if m.states[node].Computing? {
        assert NodeInv(plan, sources, loaded, m, node) && Owned(m, node);
        c :| 0 <= c < |m.workers| && m.workers[c].Owns() && m.workers[c].idx == node;
      }
    } else {
      c :| 0 <= c < |m.workers| && !m.workers[c].pc.Returned?;
    }
  }

  lemma PotentialBound<V>(plan: Plan<V>, m: Machine<V>, c: nat)
    requires Shaped(plan, m) && c < |m.workers|
    ensures Potential(m, c) < Weight(|m.states|, |m.workers|, |m.states|, 3, 0)
  {
    var n := |m.states|;
    if Unfinished(m.states) {
      var node := FirstLeft(m.states);
      CountBound(m.states);
      WaitBelowWidth(m, node, c);
      WeightDrops(n, |m.workers|, n, 3, 0, UncomputedCount(m.states), Stage(m, node, c), Wait(m, node, c));
    } else {
      TailSumBound(m.workers, n);
    }
  }

  // ---------- One step ----------

  /** What a step does to the measure: the chosen worker brings it down, and no other raises it. */
  ghost predicate Progress<V>(m: Machine<V>, c: nat, n: Machine<V>, d: nat, strict: bool)
    requires c < |m.workers| && m.workers[c].idx < |m.states|
    requires d < |n.workers| && n.workers[d].idx < |n.states|
  {
    && Potential(n, d) <= Potential(m, c)
    && (strict || d != c ==> Potential(n, d) < Potential(m, c))
  }

  /** With fewer nodes left the measure is lower, whatever the stage and the wait. */
  lemma FewerLeft<V>(plan: Plan<V>, m: Machine<V>, c: nat, n: Machine<V>, d: nat)
    requires Shaped(plan, m) && Shaped(plan, n) && |m.workers| == |n.workers| && c < |m.workers| && d < |n.workers|
    requires Unfinished(m.states) && UncomputedCount(n.states) < UncomputedCount(m.states)
    ensures Potential(n, d) < Potential(m, c)
  {
    var node := FirstLeft(m.states);
    var left, stage, wait := UncomputedCount(m.states), Stage(m, node, c), Wait(m, node, c);
    if Unfinished(n.states) {
      var next := FirstLeft(n.states);
      WaitBelowWidth(n, next, d);
      WeightDrops(|m.states|, |m.workers|, left, stage, wait, UncomputedCount(n.states), Stage(n, next, d),
                  Wait(n, next, d));
    } else {
      TailSumBound(n.workers, |n.states|);
      WeightDrops(|m.states|, |m.workers|, left, stage, wait, 0, 0, 0);
    }
  }

  lemma PublishProgress<V>(plan: Plan<V>, sources: seq<nat>, loaded: map<nat, V>, m: Machine<V>, w: nat, c: nat, d: nat)
    requires Setup(plan, sources, loaded) && Inv(plan, sources, loaded, m) && Chosen(m, c) && w < |m.workers|
    requires m.workers[w].pc.Publish? && d < |m.workers|
    ensures Potential(Step(plan, m, w), d) < Potential(m, c)
  {
    var n, i := Step(plan, m, w), m.workers[w].idx;
    assert WorkerInv(plan, sources, loaded, m, w);
    assert n.states == m.states[i := Computed] && Unfinished(m.states);
    CountDrops(m.states, i);
    FewerLeft(plan, m, c, n, d);
  }

  /** A step that computes nothing leaves the same nodes to be computed. */
  lemma NothingComputed<V>(plan: Plan<V>, sources: seq<nat>, loaded: map<nat, V>, m: Machine<V>, w: nat)
    requires Setup(plan, sources, loaded) && Inv(plan, sources, loaded, m) && w < |m.workers|
    requires !m.workers[w].pc.Publish?
    ensures var n := Step(plan, m, w);
            && UncomputedCount(n.states) == UncomputedCount(m.states) && Unfinished(n.states) == Unfinished(m.states)
            && (Unfinished(m.states) ==> FirstLeft(n.states) == FirstLeft(m.states))
  {
    assert WorkerInv(plan, sources, loaded, m, w);
    SameLeft(m.states, Step(plan, m, w).states);
  }

  /** Stage and wait decide the measure when a step computes nothing. */
  lemma StageProgress<V>(plan: Plan<V>, sources: seq<nat>, loaded: map<nat, V>, m: Machine<V>, w: nat, c: nat, d: nat)
    requires Setup(plan, sources, loaded) && Inv(plan, sources, loaded, m) && w < |m.workers|
    requires Unfinished(m.states) && !m.workers[w].pc.Publish? && c < |m.workers| && d < |m.workers|
    requires var (n, node) := (Step(plan, m, w), FirstLeft(m.states));
             || Stage(n, node, d) < Stage(m, node, c)
             || (Stage(n, node, d) == Stage(m, node, c) && Wait(n, node, d) < Wait(m, node, c))
    ensures Potential(Step(plan, m, w), d) < Potential(m, c)
  {
    var n, node := Step(plan, m, w), FirstLeft(m.states);
    NothingComputed(plan, sources, loaded, m, w);
    WaitBelowWidth(n, node, d);
    WeightDrops(|m.states|, |m.workers|, UncomputedCount(m.states), Stage(m, node, c), Wait(m, node, c),
                UncomputedCount(n.states), Stage(n, node, d), Wait(n, node, d));
  }

  /** The owner of the first node left: it calls the function, or gives the node back once. */
  lemma OwnerProgress<V>(plan: Plan<V>, sources: seq<nat>, loaded: map<nat, V>, m: Machine<V>, c: nat)
    requires Setup(plan, sources, loaded) && Inv(plan, sources, loaded, m) && Chosen(m, c)
    requires Unfinished(m.states) && m.states[FirstLeft(m.states)].Computing? && !m.workers[c].pc.Publish?
    ensures var (n, node) := (Step(plan, m, c), FirstLeft(m.states));
            if m.workers[c].pc.Release? then n.states[node].Uncomputed?
            else && n.states[node].Computing? && n.workers[c].Owns() && n.workers[c].idx == node
                 && Stage(n, node, c) <= Stage(m, node, c) && Wait(n, node, c) < Wait(m, node, c)
  {
    var node := FirstLeft(m.states);
    assert WorkerInv(plan, sources, loaded, m, c);
    LowerParents(plan, sources, m, node);
    DrainStep(plan, sources, loaded, m, c);
    if !plan.Node(node).IsSource() {
      ParentPositions(plan, sources, m, node);
    }
    StepKeepsInv(plan, sources, loaded, m, c);
    assert WorkerInv(plan, sources, loaded, Step(plan, m, c), c);
  }

  /** A worker that owns another node comes to its end and moves on. */
  lemma BusyWalker<V>(plan: Plan<V>, sources: seq<nat>, loaded: map<nat, V>, m: Machine<V>, w: nat)
    requires Setup(plan, sources, loaded) && Inv(plan, sources, loaded, m) && w < |m.workers|
    requires m.workers[w].Owns()
    ensures var (me, next) := (m.workers[w], Step(plan, m, w).workers[w]);
            if me.pc.Release? || me.pc.Publish? then next == Advance(plan, me.idx)
            else next.idx == me.idx && Trip(next.pc, |m.states|) < Trip(me.pc, |m.states|)
  {
    DrainStep(plan, sources, loaded, m, w);
    StepKeepsInv(plan, sources, loaded, m, w);
    assert WorkerInv(plan, sources, loaded, m, w) && WorkerInv(plan, sources, loaded, Step(plan, m, w), w);
  }

  /** A worker that owns nothing scans, claims its node, or moves on. */
  lemma FreeWalker<V>(plan: Plan<V>, sources: seq<nat>, loaded: map<nat, V>, m: Machine<V>, w: nat)
    requires Setup(plan, sources, loaded) && Inv(plan, sources, loaded, m) && w < |m.workers|
    requires Unfinished(m.states) && !m.workers[w].Owns()
    ensures var (me, next) := (m.workers[w], Step(plan, m, w).workers[w]);
            if me.pc.TryClaim? && !m.states[me.idx].Uncomputed? then next == Advance(plan, me.idx)
            else next.idx == me.idx && Trip(next.pc, |m.states|) < Trip(me.pc, |m.states|)
  {
    assert WorkerInv(plan, sources, loaded, m, w);
  }

  /** Either of the two brings a worker nearer to a node that nobody owns. */
  lemma WaitShrinks<V>(plan: Plan<V>, m: Machine<V>, n: Machine<V>, node: nat, w: nat)
    requires Shaped(plan, m) && Shaped(plan, n) && w < |m.workers| == |n.workers| && node < |m.states|
    requires !m.states[node].Computing? && !n.states[node].Computing?
    requires var (me, next) := (m.workers[w], n.workers[w]);
             || (next.idx == me.idx && Trip(next.pc, |m.states|) < Trip(me.pc, |m.states|))
             || (me.idx != node && next == Advance(plan, me.idx))
    ensures Wait(n, node, w) < Wait(m, node, w)
  {
    var me, next, size := m.workers[w], n.workers[w], |m.states|;
    if next.idx != me.idx || Trip(next.pc, size) >= Trip(me.pc, size) {
      AdvanceCloser(me.idx, node, size);
    }
    NearerMeansLessWait(Distance(me.idx, node, size), Distance(next.idx, node, size),
                        Trip(me.pc, size), Trip(next.pc, size), size);
  }

  /** A step claims a node nobody owns, or leaves it as it is. */
  lemma UnownedStays<V>(plan: Plan<V>, sources: seq<nat>, loaded: map<nat, V>, m: Machine<V>, w: nat, node: nat)
    requires Setup(plan, sources, loaded) && Inv(plan, sources, loaded, m) && w < |m.workers|
    requires node < |m.states| && m.states[node].Uncomputed?
    ensures var n := Step(plan, m, w);
            if m.workers[w].pc.TryClaim? && m.workers[w].idx == node
            then n.states[node].Computing? && n.workers[w].pc.Inspect? && n.workers[w].idx == node
            else n.states[node].Uncomputed? && (m.workers[w].Owns() ==> m.workers[w].idx != node)
  {
    assert WorkerInv(plan, sources, loaded, m, w);
  }

  /** While nobody owns the first node left, worker 0 comes nearer to it or claims it. */
  lemma WalkerProgress<V>(plan: Plan<V>, sources: seq<nat>, loaded: map<nat, V>, m: Machine<V>)
    requires Setup(plan, sources, loaded) && Inv(plan, sources, loaded, m) && |m.workers| > 0
    requires Unfinished(m.states) && m.states[FirstLeft(m.states)].Uncomputed? && !m.workers[0].pc.Publish?
    ensures var (n, node) := (Step(plan, m, 0), FirstLeft(m.states));
            if n.states[node].Computing? then n.workers[0].pc.Inspect? && n.workers[0].idx == node
            else n.states[node].Uncomputed? && Wait(n, node, 0) < Wait(m, node, 0)
  {
    var n, node := Step(plan, m, 0), FirstLeft(m.states);
    UnownedStays(plan, sources, loaded, m, 0, node);
    if !n.states[node].Computing? {
      if m.workers[0].Owns() {
        BusyWalker(plan, sources, loaded, m, 0);
      } else {
        FreeWalker(plan, sources, loaded, m, 0);
      }
      WaitShrinks(plan, m, n, node, 0);
    }
  }

  /** A step of another worker: it may claim the node, and changes nothing else that counts. */
  lemma OtherProgress<V>(plan: Plan<V>, sources: seq<nat>, loaded: map<nat, V>, m: Machine<V>, w: nat, c: nat)
    requires Setup(plan, sources, loaded) && Inv(plan, sources, loaded, m) && Chosen(m, c) && w < |m.workers|
    requires Unfinished(m.states) && w != c && !m.workers[w].pc.Publish?
    ensures var (n, node) := (Step(plan, m, w), FirstLeft(m.states));
            && n.workers[c] == m.workers[c]
            && (|| n.states[node] == m.states[node]
                || (m.states[node].Uncomputed? && n.states[node].Computing? && n.workers[w].pc.Inspect?
                    && n.workers[w].idx == node))
  {
    assert WorkerInv(plan, sources, loaded, m, w);
    if m.workers[w].Owns() && m.workers[c].Owns() {
      OwnerUnique(m, w, c);
    }
  }

  /** While nodes are left. */
  lemma UnfinishedProgress<V>(plan: Plan<V>, sources: seq<nat>, loaded: map<nat, V>, m: Machine<V>, w: nat, c: nat)
    returns (d: nat)
    requires Setup(plan, sources, loaded) && Inv(plan, sources, loaded, m) && Chosen(m, c) && w < |m.workers|
    requires Unfinished(m.states) && !m.workers[w].pc.Publish?
    ensures Chosen(Step(plan, m, w), d) && Progress(m, c, Step(plan, m, w), d, w == c)
  {
    var n, node := Step(plan, m, w), FirstLeft(m.states);
    NothingComputed(plan, sources, loaded, m, w);
    d := c;
    if w != c {
      OtherProgress(plan, sources, loaded, m, w, c);
      if n.states[node] != m.states[node] {
        d := w;
        StageProgress(plan, sources, loaded, m, w, c, d);
      }
    } else if m.states[node].Computing? {
      OwnerProgress(plan, sources, loaded, m, c);
      if m.workers[c].pc.Release? {
        d := 0;
      }
      StageProgress(plan, sources, loaded, m, w, c, d);
    } else {
      WalkerProgress(plan, sources, loaded, m);
      StageProgress(plan, sources, loaded, m, w, c, d);
    }
  }

  /** When every node is computed, every step of a worker brings it nearer to its return. */
  lemma FinishedProgress<V>(plan: Plan<V>, sources: seq<nat>, loaded: map<nat, V>, m: Machine<V>, w: nat)
    requires Setup(plan, sources, loaded) && Inv(plan, sources, loaded, m) && w < |m.workers| && !Unfinished(m.states)
    ensures var n := Step(plan, m, w);
            && n.states == m.states && OthersSame(m, n, w)
            && if m.workers[w].pc.Returned? then n == m
               else TailSum(n.workers, |n.states|) < TailSum(m.workers, |m.states|)
  {
    assert WorkerInv(plan, sources, loaded, m, w);
    var n := Step(plan, m, w);
    if !m.workers[w].pc.Returned? {
      assert n.workers == m.workers[w := n.workers[w]];
      TailSumUpdate(m.workers, w, n.workers[w], |m.states|);
    }
  }

  /** Every step keeps the measure or brings it down, and the chosen worker's step brings it down. */
  lemma StepProgress<V>(plan: Plan<V>, sources: seq<nat>, loaded: map<nat, V>, m: Machine<V>, w: nat, c: nat)
    returns (d: nat)
    requires Setup(plan, sources, loaded) && Inv(plan, sources, loaded, m) && Chosen(m, c) && w < |m.workers|
    ensures var n := Step(plan, m, w);
            AllReturned(n) || (Chosen(n, d) && Progress(m, c, n, d, w == c))
  {
    var n := Step(plan, m, w);
    d := c;
    StepKeepsInv(plan, sources, loaded, m, w);
    if AllReturned(n) {
      return;
    }
    if m.workers[w].pc.Publish? {
      assert WorkerInv(plan, sources, loaded, m, w);
      d := ChosenExists(plan, sources, loaded, n);
      PublishProgress(plan, sources, loaded, m, w, c, d);
    } else if Unfinished(m.states) {
      d := UnfinishedProgress(plan, sources, loaded, m, w, c);
    } else {
      FinishedProgress(plan, sources, loaded, m, w);
      if n.workers[c].pc.Returned? {
        d := ChosenExists(plan, sources, loaded, n);
      }
    }
  }

  // ---------- Rounds ----------

  /** A stretch of a schedule in which every worker takes a step. */
  predicate Round(segment: seq<nat>, workerCount: nat) {
    forall w :: 0 <= w < workerCount ==> w in segment
  }

  function Flatten(rounds: seq<seq<nat>>): seq<nat> {
    if rounds == [] then [] else rounds[0] + Flatten(rounds[1..])
  }

  lemma {:induction false} ReturnedStays<V>(plan: Plan<V>, m: Machine<V>, schedule: seq<nat>)
    requires Shaped(plan, m) && AllReturned(m)
    ensures Run(plan, m, schedule) == m
    decreases |schedule|
  {
    if schedule != [] {
      ReturnedStays(plan, m, schedule[1..]);
    }
  }

  /** A stretch of a schedule never raises the measure, and lowers it when the chosen worker takes part. */
  lemma {:induction false} SegmentProgress<V>(plan: Plan<V>, sources: seq<nat>, loaded: map<nat, V>, m: Machine<V>,
                                              segment: seq<nat>, c: nat)
    returns (d: nat)
    requires Setup(plan, sources, loaded) && Inv(plan, sources, loaded, m) && Chosen(m, c)
    ensures var n := Run(plan, m, segment);
            && Inv(plan, sources, loaded, n)
            && (AllReturned(n) || (Chosen(n, d) && Progress(m, c, n, d, c in segment)))
    decreases |segment|
  {
    d := c;
    if segment == [] {
      return;
    }
    if segment[0] >= |m.workers| {
      d := SegmentProgress(plan, sources, loaded, m, segment[1..], c);
      return;
    }
    var n := Step(plan, m, segment[0]);
    StepKeepsInv(plan, sources, loaded, m, segment[0]);
    var e := StepProgress(plan, sources, loaded, m, segment[0], c);
    if AllReturned(n) {
      ReturnedStays(plan, n, segment[1..]);
      return;
    }
    d := SegmentProgress(plan, sources, loaded, n, segment[1..], e);
  }

  /** As many rounds as the measure says are enough. */
  lemma {:induction false} RoundsReturn<V>(plan: Plan<V>, sources: seq<nat>, loaded: map<nat, V>, m: Machine<V>,
                                           rounds: seq<seq<nat>>, c: nat)
    requires Setup(plan, sources, loaded) && Inv(plan, sources, loaded, m) && Chosen(m, c)
    requires forall k :: 0 <= k < |rounds| ==> Round(rounds[k], |m.workers|)
    requires Potential(m, c) < |rounds|
    ensures AllReturned(Run(plan, m, Flatten(rounds)))
    decreases |rounds|
  {
    var n := Run(plan, m, rounds[0]);
    var d := SegmentProgress(plan, sources, loaded, m, rounds[0], c);
    RunConcat(plan, m, rounds[0], Flatten(rounds[1..]));
    if AllReturned(n) {
      ReturnedStays(plan, n, Flatten(rounds[1..]));
    } else {
      RoundsReturn(plan, sources, loaded, n, rounds[1..], d);
    }
  }

  /** A number of rounds that depends only on the numbers of nodes and workers. */
  function EnoughRounds(nodes: nat, workerCount: nat): nat {
    Weight(nodes, workerCount, nodes, 3, 0)
  }

  /** Whatever happened before, after that many rounds every worker has returned. */
  lemma BoundedRoundsReturn<V>(plan: Plan<V>, sources: seq<nat>, loaded: map<nat, V>, workerCount: nat, past: seq<nat>,
                               rounds: seq<seq<nat>>)
    requires Setup(plan, sources, loaded)
    requires forall k :: 0 <= k < |rounds| ==> Round(rounds[k], workerCount)
    requires |rounds| >= EnoughRounds(|plan.targets|, workerCount)
    ensures AllReturned(Run(plan, Initial(plan, loaded, workerCount), past + Flatten(rounds)))
  {
    var m0 := Initial(plan, loaded, workerCount);
    InitialInv(plan, sources, loaded, workerCount);
    RunKeepsInv(plan, sources, loaded, m0, past);
    RunConcat(plan, m0, past, Flatten(rounds));
    var m := Run(plan, m0, past);
    if AllReturned(m) {
      ReturnedStays(plan, m, Flatten(rounds));
    } else {
      var c := ChosenExists(plan, sources, loaded, m);
      PotentialBound(plan, m, c);
      RoundsReturn(plan, sources, loaded, m, rounds, c);
    }
  }

  // ---------- Infinite schedules ----------

  ghost predicate StepsAgain(schedule: nat -> nat, w: nat, from: nat) {
    exists t: nat :: from <= t && schedule(t) == w
  }

  /** Every worker takes infinitely many steps. */
  ghost predicate Fair(schedule: nat -> nat, workerCount: nat) {
    forall w: nat, from: nat :: w < workerCount ==> StepsAgain(schedule, w, from)
  }

  function Stretch(schedule: nat -> nat, from: nat, to: nat): (s: seq<nat>)
    requires from <= to
    ensures |s| == to - from && forall k :: 0 <= k < |s| ==> s[k] == schedule(from + k)
  {
    seq(to - from, k requires 0 <= k < to - from => schedule(from + k))
  }

  lemma StretchConcat(schedule: nat -> nat, a: nat, b: nat, c: nat)
    requires a <= b <= c
    ensures Stretch(schedule, a, b) + Stretch(schedule, b, c) == Stretch(schedule, a, c)
  {
  }

  /** A fair schedule goes on with another round. */
  lemma {:induction false} NextRound(schedule: nat -> nat, workerCount: nat, count: nat, from: nat) returns (to: nat)
    requires Fair(schedule, workerCount) && count <= workerCount
    ensures from <= to && Round(Stretch(schedule, from, to), count)
    decreases count
  {
    if count == 0 {
      return from;
    }
    var mid := NextRound(schedule, workerCount, count - 1, from);
    assert StepsAgain(schedule, count - 1, mid);
    var t: nat :| mid <= t && schedule(t) == count - 1;
    to := t + 1;
    var s := Stretch(schedule, from, to);
    forall w | 0 <= w < count ensures w in s {
      if w == count - 1 {
        assert s[t - from] == w;
      } else {
        var before := Stretch(schedule, from, mid);
        assert w in before;
        var k :| 0 <= k < |before| && before[k] == w;
        assert s[k] == w;
      }
    }
  }

  /** A fair schedule starts with any number of rounds. */
  lemma {:induction false} ManyRounds(schedule: nat -> nat, workerCount: nat, count: nat, from: nat)
    returns (rounds: seq<seq<nat>>, to: nat)
    requires Fair(schedule, workerCount)
    ensures |rounds| == count && forall k :: 0 <= k < |rounds| ==> Round(rounds[k], workerCount)
    ensures from <= to && Flatten(rounds) == Stretch(schedule, from, to)
    decreases count
  {
    if count == 0 {
      return [], from;
    }
    var mid := NextRound(schedule, workerCount, workerCount, from);
    var rest, end := ManyRounds(schedule, workerCount, count - 1, mid);
    rounds, to := [Stretch(schedule, from, mid)] + rest, end;
    assert rounds[1..] == rest;
    StretchConcat(schedule, from, mid, to);
  }

  /** Every fair schedule lets all workers return: from some moment on, all of them have. */
  lemma FairScheduleReturns<V>(plan: Plan<V>, sources: seq<nat>, loaded: map<nat, V>, workerCount: nat,
                               schedule: nat -> nat)
    returns (moment: nat)
    requires Setup(plan, sources, loaded) && Fair(schedule, workerCount)
    ensures forall t :: moment <= t ==>
              AllReturned(Run(plan, Initial(plan, loaded, workerCount), Stretch(schedule, 0, t)))
  {
    var m0 := Initial(plan, loaded, workerCount);
    var rounds, to := ManyRounds(schedule, workerCount, EnoughRounds(|plan.targets|, workerCount), 0);
    BoundedRoundsReturn(plan, sources, loaded, workerCount, [], rounds);
    assert [] + Flatten(rounds) == Stretch(schedule, 0, to);
    forall t | to <= t ensures AllReturned(Run(plan, m0, Stretch(schedule, 0, t))) {
      StretchConcat(schedule, 0, to, t);
      RunConcat(plan, m0, Stretch(schedule, 0, to), Stretch(schedule, to, t));
      ReturnedStays(plan, Run(plan, m0, Stretch(schedule, 0, to)), Stretch(schedule, to, t));
    }
    moment := to;
  }

  lemma RunOne<V>(plan: Plan<V>, m: Machine<V>, w: nat)
    requires Shaped(plan, m)
    ensures Run(plan, m, [w]) == if w < |m.workers| then Step(plan, m, w) else m
  {
    var n := if w < |m.workers| then Step(plan, m, w) else m;
    assert Run(plan, m, [w]) == Run(plan, n, []);
  }

  lemma OneMoreStep<V>(plan: Plan<V>, m0: Machine<V>, schedule: nat -> nat, steps: nat)
    requires Shaped(plan, m0)
    ensures var (m, w) := (Run(plan, m0, Stretch(schedule, 0, steps)), schedule(steps));
            Run(plan, m0, Stretch(schedule, 0, steps + 1)) == if w < |m.workers| then Step(plan, m, w) else m
  {
    var before, w := Stretch(schedule, 0, steps), schedule(steps);
    assert Stretch(schedule, 0, steps + 1) == before + [w];
    RunConcat(plan, m0, before, [w]);
    RunOne(plan, Run(plan, m0, before), w);
  }

  /** parallel_apply as a whole: it joins its threads, and under a fair schedule this ends. */
  method ParallelApply<V>(plan: Plan<V>, ghost sources: seq<nat>, loaded: map<nat, V>, workerCount: nat,
                          schedule: nat -> nat)
    returns (m: Machine<V>, ghost steps: nat)
    requires Setup(plan, sources, loaded) && Fair(schedule, workerCount)
    ensures Shaped(plan, m) && |m.workers| == workerCount && AllReturned(m)
    ensures m == Run(plan, Initial(plan, loaded, workerCount), Stretch(schedule, 0, steps))
  {
    ghost var m0 := Initial(plan, loaded, workerCount);
    ghost var moment := FairScheduleReturns(plan, sources, loaded, workerCount, schedule);
    m := Initial(plan, loaded, workerCount);
    var t := 0;
    while !AllReturned(m)
      invariant Shaped(plan, m) && |m.workers| == workerCount && m == Run(plan, m0, Stretch(schedule, 0, t))
      decreases moment as int - t
    {
      OneMoreStep(plan, m0, schedule, t);
      if schedule(t) < |m.workers| {
        m := Step(plan, m, schedule(t));
      }
      t := t + 1;
    }
    steps := t;
  }
}
