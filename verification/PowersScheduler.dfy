/**
 The lock-free scheduler that runs a PowersDag on any number of threads
 (PowersDag::parallel_apply in common/apsi/powers.h).

 The machine has one program counter per worker. Every atomic load or compare-and-swap of the
 source is one step, the scan for completion reads one entry at a time, and a call of the user's
 function reads its inputs and writes its output in separate steps. A schedule is any sequence of
 worker numbers, so a statement about every schedule covers every interleaving.
 */
module PowersScheduler {
  import opened Wrappers
  import opened PowersDags

  datatype NodeState = Uncomputed | Computing | Computed

  datatype Pc<V> =
    | CheckDone(seen: nat)             // all_of has found the entries below seen computed
    | TryClaim                         // about to swap Uncomputed for Computing
    | Inspect                          // owns the node: is it a source?
    | CheckFirst                       // about to load the first parent's state
    | CheckSecond(firstComputed: bool) // about to load the second parent's state
    | Release                          // about to swap Computing for Uncomputed
    | Apply                            // about to call the function
    | Applying(value: V)               // the function has read its inputs
    | Publish                          // about to swap Computing for Computed
    | Returned
    | Failed                           // "PowersDag is in an invalid state"

  datatype Worker<V> = Worker(pc: Pc<V>, idx: nat) {
    predicate Owns() {
      pc.Inspect? || pc.CheckFirst? || pc.CheckSecond? || pc.Release? || pc.Apply? || pc.Applying? || pc.Publish?
    }

    predicate HasCalled() {
      pc.Applying? || pc.Publish?
    }

    predicate ParentsReady() {
      pc.Apply? || pc.Applying? || pc.Publish?
    }
  }

  /** Shared memory, the workers, the function's data by power, and the order of the calls. */
  datatype Machine<V> = Machine(states: seq<NodeState>, workers: seq<Worker<V>>, store: map<nat, V>, calls: seq<nat>)

  /** The configured DAG and the function applied to the parents of a non-source node. */
  datatype Plan<!V> = Plan(targets: seq<nat>, nodes: map<nat, PowersNode>, combine: (V, V) -> V) {
    predicate WellFormed() {
      targets != [] && forall t :: t in targets ==> t in nodes
    }

    ghost predicate Valid(sources: seq<nat>) {
      && targets != [] && StrictlyIncreasing(targets) && 0 !in targets
      && (forall t :: t in targets ==> t in nodes)
      && DagSound(nodes, sources, targets)
    }

    function Node(i: nat): PowersNode
      requires WellFormed() && i < |targets|
    {
      nodes[targets[i]]
    }
  }

  /** std::find: the first position of a power. */
  function Find(s: seq<nat>, x: nat): (r: Option<nat>)
    ensures r.Some? ==> r.value < |s| && s[r.value] == x
    ensures r.None? ==> x !in s
  {
    if s == [] then None
    else if s[0] == x then Some(0)
    else match Find(s[1..], x)
         case None => None
         case Some(i) => Some(i + 1)
  }

  predicate Shaped<V>(plan: Plan<V>, m: Machine<V>) {
    && plan.WellFormed()
    && |m.states| == |plan.targets|
    && (forall w :: 0 <= w < |m.workers| ==> m.workers[w].idx < |plan.targets|)
    && forall t :: t in plan.targets ==> t in m.store
  }

  function Initial<V>(plan: Plan<V>, store: map<nat, V>, workerCount: nat): Machine<V> {
    Machine(seq(|plan.targets|, _ => Uncomputed), seq(workerCount, _ => Worker(CheckDone(0), 0)), store, [])
  }

  // ---------- One step of one worker ----------

  /** The next node, and back to the completion scan. */
  function Advance<V>(plan: Plan<V>, idx: nat): Worker<V>
    requires plan.targets != []
  {
    Worker(CheckDone(0), (idx + 1) % |plan.targets|)
  }

  function Swap(states: seq<NodeState>, i: nat, expected: NodeState, desired: NodeState): seq<NodeState>
    requires i < |states|
  {
    if states[i] == expected then states[i := desired] else states
  }

  function SetPc<V>(m: Machine<V>, w: nat, pc: Pc<V>): Machine<V>
    requires w < |m.workers|
  {
    m.(workers := m.workers[w := m.workers[w].(pc := pc)])
  }

  /** What the function will write for a node, given what it reads now. */
  function Output<V>(plan: Plan<V>, m: Machine<V>, i: nat): V
    requires Shaped(plan, m) && i < |plan.targets|
    requires plan.Node(i).IsSource() || (plan.Node(i).parents.0 in m.store && plan.Node(i).parents.1 in m.store)
  {
    var node := plan.Node(i);
    if node.IsSource() then m.store[plan.targets[i]]
    else plan.combine(m.store[node.parents.0], m.store[node.parents.1])
  }

  function Step<V>(plan: Plan<V>, m: Machine<V>, w: nat): (n: Machine<V>)
    requires Shaped(plan, m) && w < |m.workers|
    ensures Shaped(plan, n) && |n.workers| == |m.workers|
  {
    var me := m.workers[w];
    var i := me.idx;
    var node := plan.Node(i);
    match me.pc
    case CheckDone(k) =>
      if k >= |m.states| then SetPc(m, w, Returned)
      else if m.states[k].Computed? then SetPc(m, w, CheckDone(k + 1))
      else SetPc(m, w, TryClaim)
    case TryClaim =>
      if m.states[i].Uncomputed? then SetPc(m, w, Inspect).(states := m.states[i := Computing])
      else m.(workers := m.workers[w := Advance(plan, i)])
    case Inspect =>
      if node.IsSource() then SetPc(m, w, Apply) else SetPc(m, w, CheckFirst)
    case CheckFirst =>
      (match (Find(plan.targets, node.parents.0), Find(plan.targets, node.parents.1))
       case (Some(p1), Some(_)) => SetPc(m, w, CheckSecond(m.states[p1].Computed?))
       case _ => SetPc(m, w, Failed))
    case CheckSecond(firstComputed) =>
      (match Find(plan.targets, node.parents.1)
       case Some(p2) => SetPc(m, w, if firstComputed && m.states[p2].Computed? then Apply else Release)
       case None => SetPc(m, w, Failed))
    case Release =>
      m.(states := Swap(m.states, i, Computing, Uncomputed), workers := m.workers[w := Advance(plan, i)])
    case Apply =>
      if node.IsSource() || (node.parents.0 in m.store && node.parents.1 in m.store)
      then SetPc(m, w, Applying(Output(plan, m, i))).(calls := m.calls + [i])
      else SetPc(m, w, Failed)
    case Applying(value) =>
      SetPc(m, w, Publish).(store := if node.IsSource() then m.store else m.store[plan.targets[i] := value])
    case Publish =>
      m.(states := Swap(m.states, i, Computing, Computed), workers := m.workers[w := Advance(plan, i)])
    case Returned => m
    case Failed => m
  }

  // ---------- The invariant ----------

  /** The value every schedule must produce for a target power. */
  function Expected<V>(plan: Plan<V>, sources: seq<nat>, loaded: map<nat, V>, power: nat): V
    requires plan.Valid(sources) && power in plan.targets && forall t :: t in plan.targets ==> t in loaded
    decreases power
  {
    assert NodeSound(plan.nodes, sources, plan.targets, power);
    if power in sources then loaded[power]
    else
      var (s1, s2) := plan.nodes[power].parents;
      plan.combine(Expected(plan, sources, loaded, s1), Expected(plan, sources, loaded, s2))
  }

  /** Everything fixed during a run. */
  ghost predicate Setup<V>(plan: Plan<V>, sources: seq<nat>, loaded: map<nat, V>) {
    plan.Valid(sources) && forall t :: t in plan.targets ==> t in loaded
  }

  /** The parents of the node at index i are computed (trivially so for a source). */
  ghost predicate ParentsComputed<V>(plan: Plan<V>, m: Machine<V>, i: nat)
    requires Shaped(plan, m) && i < |plan.targets|
  {
    plan.Node(i).IsSource() ||
    forall j :: 0 <= j < |plan.targets|
                && (plan.targets[j] == plan.Node(i).parents.0 || plan.targets[j] == plan.Node(i).parents.1)
                ==> m.states[j].Computed?
  }

  ghost predicate WorkerInv<V>(plan: Plan<V>, sources: seq<nat>, loaded: map<nat, V>, m: Machine<V>, w: nat)
    requires Setup(plan, sources, loaded) && Shaped(plan, m) && w < |m.workers|
  {
    var me := m.workers[w];
    var power := plan.targets[me.idx];
    && !me.pc.Failed?
    && (me.Owns() ==> m.states[me.idx].Computing?)
    && (me.pc.CheckDone? ==> me.pc.seen <= |m.states| && forall j :: 0 <= j < me.pc.seen ==> m.states[j].Computed?)
    && (me.pc.Returned? ==> forall j :: 0 <= j < |m.states| ==> m.states[j].Computed?)
    && ((me.pc.CheckFirst? || me.pc.CheckSecond? || me.pc.Release?) ==> !plan.Node(me.idx).IsSource())
    && (me.pc.CheckSecond? && me.pc.firstComputed ==>
          forall j :: 0 <= j < |m.states| && plan.targets[j] == plan.Node(me.idx).parents.0 ==> m.states[j].Computed?)
    && (me.ParentsReady() ==> ParentsComputed(plan, m, me.idx))
    && (me.pc.Applying? ==> me.pc.value == Expected(plan, sources, loaded, power))
    && (me.pc.Publish? ==> m.store[power] == Expected(plan, sources, loaded, power))
  }

  ghost predicate SoleOwner<V>(m: Machine<V>) {
    forall v, w :: 0 <= v < w < |m.workers| && m.workers[v].Owns() && m.workers[w].Owns()
                   ==> m.workers[v].idx != m.workers[w].idx
  }

  /** The function has been called for node i: it is computed, or its owner is inside the call. */
  ghost predicate Called<V>(m: Machine<V>, i: nat)
    requires i < |m.states|
  {
    m.states[i].Computed? || exists w :: 0 <= w < |m.workers| && m.workers[w].HasCalled() && m.workers[w].idx == i
  }

  ghost predicate Owned<V>(m: Machine<V>, i: nat) {
    exists w :: 0 <= w < |m.workers| && m.workers[w].Owns() && m.workers[w].idx == i
  }

  ghost predicate NodeInv<V>(plan: Plan<V>, sources: seq<nat>, loaded: map<nat, V>, m: Machine<V>, i: nat)
    requires Setup(plan, sources, loaded) && Shaped(plan, m) && i < |m.states|
  {
    var power := plan.targets[i];
    && (m.states[i].Computing? ==> Owned(m, i))
    && (i in m.calls <==> Called(m, i))
    && (m.states[i].Computed? || power in sources ==> m.store[power] == Expected(plan, sources, loaded, power))
  }

  /** No node is called twice, and its parents were called before it. */
  ghost predicate CallOrder<V>(plan: Plan<V>, calls: seq<nat>)
    requires plan.WellFormed()
  {
    && (forall k :: 0 <= k < |calls| ==> calls[k] < |plan.targets|)
    && (forall k, l :: 0 <= k < l < |calls| ==> calls[k] != calls[l])
    && forall k, j :: 0 <= k < |calls| && 0 <= j < |plan.targets| && !plan.Node(calls[k]).IsSource()
                      && (plan.targets[j] == plan.Node(calls[k]).parents.0
                          || plan.targets[j] == plan.Node(calls[k]).parents.1)
                      ==> j in calls[..k]
  }

  /** The scheduler's invariant. */
  ghost predicate Inv<V>(plan: Plan<V>, sources: seq<nat>, loaded: map<nat, V>, m: Machine<V>)
    requires Setup(plan, sources, loaded)
  {
    && Shaped(plan, m)
    && (forall w :: 0 <= w < |m.workers| ==> WorkerInv(plan, sources, loaded, m, w))
    && SoleOwner(m)
    && (forall i :: 0 <= i < |m.states| ==> NodeInv(plan, sources, loaded, m, i))
    && CallOrder(plan, m.calls)
  }

  // ---------- Every step keeps the invariant ----------

  /** A node's ownership and call status depend only on the workers that own it. */
  lemma OwnershipFrame<V>(m: Machine<V>, n: Machine<V>, w: nat, i: nat)
    requires w < |m.workers| == |n.workers| && i < |m.states| == |n.states|
    requires forall v :: 0 <= v < |m.workers| && v != w ==> n.workers[v] == m.workers[v]
    requires m.workers[w].Owns() && m.workers[w].idx == i <==> n.workers[w].Owns() && n.workers[w].idx == i
    requires m.workers[w].HasCalled() && m.workers[w].idx == i <==> n.workers[w].HasCalled() && n.workers[w].idx == i
    requires m.states[i] == n.states[i]
    ensures Owned(m, i) == Owned(n, i) && Called(m, i) == Called(n, i)
  {
    if Owned(m, i) {
      var v :| 0 <= v < |m.workers| && m.workers[v].Owns() && m.workers[v].idx == i;
      assert n.workers[v].Owns() && n.workers[v].idx == i;
    }
    if Owned(n, i) {
      var v :| 0 <= v < |n.workers| && n.workers[v].Owns() && n.workers[v].idx == i;
      assert m.workers[v].Owns() && m.workers[v].idx == i;
    }
    if exists v :: 0 <= v < |m.workers| && m.workers[v].HasCalled() && m.workers[v].idx == i {
      var v :| 0 <= v < |m.workers| && m.workers[v].HasCalled() && m.workers[v].idx == i;
      assert n.workers[v].HasCalled() && n.workers[v].idx == i;
    }
    if exists v :: 0 <= v < |n.workers| && n.workers[v].HasCalled() && n.workers[v].idx == i {
      var v :| 0 <= v < |n.workers| && n.workers[v].HasCalled() && n.workers[v].idx == i;
      assert m.workers[v].HasCalled() && m.workers[v].idx == i;
    }
  }

  /** Two workers never own the same node. */
  lemma OwnerUnique<V>(m: Machine<V>, v: nat, w: nat)
    requires SoleOwner(m) && v < |m.workers| && w < |m.workers| && v != w
    requires m.workers[v].Owns() && m.workers[w].Owns()
    ensures m.workers[v].idx != m.workers[w].idx
  {
  }

  lemma NotCalled<V>(m: Machine<V>, c: nat)
    requires c < |m.states| && !m.states[c].Computed?
    requires forall v :: 0 <= v < |m.workers| ==> !(m.workers[v].HasCalled() && m.workers[v].idx == c)
    ensures !Called(m, c)
  {
  }

  /** Steps that touch no shared memory. */
  lemma LocalStep<V>(plan: Plan<V>, sources: seq<nat>, loaded: map<nat, V>, m: Machine<V>, w: nat, me: Worker<V>)
    requires Setup(plan, sources, loaded) && Inv(plan, sources, loaded, m) && w < |m.workers|
    requires me.idx < |plan.targets| && me.Owns() == m.workers[w].Owns() && !me.HasCalled() && !m.workers[w].HasCalled()
    requires me.Owns() ==> me.idx == m.workers[w].idx
    requires WorkerInv(plan, sources, loaded, m.(workers := m.workers[w := me]), w)
    ensures Inv(plan, sources, loaded, m.(workers := m.workers[w := me]))
  {
    var n := m.(workers := m.workers[w := me]);
    forall v | 0 <= v < |n.workers| ensures WorkerInv(plan, sources, loaded, n, v) {
      if v != w { assert WorkerInv(plan, sources, loaded, m, v); }
    }
    forall i | 0 <= i < |n.states| ensures NodeInv(plan, sources, loaded, n, i) {
      assert NodeInv(plan, sources, loaded, m, i);
      OwnershipFrame(m, n, w, i);
    }
  }

  /** A successful swap of Uncomputed for Computing. */
  lemma ClaimStep<V>(plan: Plan<V>, sources: seq<nat>, loaded: map<nat, V>, m: Machine<V>, w: nat)
    requires Setup(plan, sources, loaded) && Inv(plan, sources, loaded, m) && w < |m.workers|
    requires m.workers[w].pc.TryClaim? && m.states[m.workers[w].idx].Uncomputed?
    ensures Inv(plan, sources, loaded, Step(plan, m, w))
  {
    var n, c := Step(plan, m, w), m.workers[w].idx;
    forall v | 0 <= v < |n.workers| ensures WorkerInv(plan, sources, loaded, n, v) {
      assert WorkerInv(plan, sources, loaded, m, v);
    }
    forall i | 0 <= i < |n.states| ensures NodeInv(plan, sources, loaded, n, i) {
      assert NodeInv(plan, sources, loaded, m, i);
      if i != c {
        OwnershipFrame(m, n, w, i);
      } else {
        assert n.workers[w].Owns() && n.workers[w].idx == i;
        forall v | 0 <= v < |m.workers| ensures !(m.workers[v].HasCalled() && m.workers[v].idx == i) {
          assert WorkerInv(plan, sources, loaded, m, v);
        }
        NotCalled(m, c);
        NotCalled(n, c);
      }
    }
    forall v | 0 <= v < |n.workers| && v != w && n.workers[v].Owns() ensures n.workers[v].idx != c {
      assert WorkerInv(plan, sources, loaded, m, v);
    }
  }

  /** Giving a node back, computed or not. */
  lemma HandBackStep<V>(plan: Plan<V>, sources: seq<nat>, loaded: map<nat, V>, m: Machine<V>, w: nat)
    requires Setup(plan, sources, loaded) && Inv(plan, sources, loaded, m) && w < |m.workers|
    requires m.workers[w].pc.Release? || m.workers[w].pc.Publish?
    ensures Inv(plan, sources, loaded, Step(plan, m, w))
  {
    var n, c := Step(plan, m, w), m.workers[w].idx;
    assert WorkerInv(plan, sources, loaded, m, w);
    forall v | 0 <= v < |n.workers| ensures WorkerInv(plan, sources, loaded, n, v) {
      assert WorkerInv(plan, sources, loaded, m, v);
      if v != w && m.workers[v].Owns() {
        OwnerUnique(m, v, w);
      }
    }
    forall i | 0 <= i < |n.states| ensures NodeInv(plan, sources, loaded, n, i) {
      assert NodeInv(plan, sources, loaded, m, i);
      if i != c {
        OwnershipFrame(m, n, w, i);
      } else if m.workers[w].pc.Publish? {
        assert m.workers[w].HasCalled() && m.workers[w].idx == i;
      } else {
        NotCalled(m, c);
        NotCalled(n, c);
      }
    }
  }

  /** The call begins: its inputs are read, and it is recorded after the calls of its parents. */
  lemma ApplyStep<V>(plan: Plan<V>, sources: seq<nat>, loaded: map<nat, V>, m: Machine<V>, w: nat)
    requires Setup(plan, sources, loaded) && Inv(plan, sources, loaded, m) && w < |m.workers|
    requires m.workers[w].pc.Apply?
    ensures Inv(plan, sources, loaded, Step(plan, m, w))
  {
    var n, c := Step(plan, m, w), m.workers[w].idx;
    var power := plan.targets[c];
    assert WorkerInv(plan, sources, loaded, m, w) && NodeInv(plan, sources, loaded, m, c);
    assert NodeSound(plan.nodes, sources, plan.targets, power);
    if !plan.Node(c).IsSource() {
      ReadyParents(plan, sources, loaded, m, c);
    }
    NotCalled(m, c);
    forall v | 0 <= v < |n.workers| ensures WorkerInv(plan, sources, loaded, n, v) {
      assert WorkerInv(plan, sources, loaded, m, v);
    }
    forall i | 0 <= i < |n.states| ensures NodeInv(plan, sources, loaded, n, i) {
      assert NodeInv(plan, sources, loaded, m, i);
      if i != c {
        OwnershipFrame(m, n, w, i);
      } else {
        assert n.workers[w].HasCalled() && n.workers[w].Owns() && n.workers[w].idx == i;
      }
    }
    forall j | 0 <= j < |plan.targets| && !plan.Node(c).IsSource()
               && (plan.targets[j] == plan.Node(c).parents.0 || plan.targets[j] == plan.Node(c).parents.1)
      ensures j in m.calls
    {
      assert NodeInv(plan, sources, loaded, m, j);
    }
    ExtendOrder(plan, m.calls, c);
  }

  lemma ExtendOrder<V>(plan: Plan<V>, calls: seq<nat>, c: nat)
    requires plan.WellFormed() && CallOrder(plan, calls) && c < |plan.targets| && c !in calls
    requires plan.Node(c).IsSource() ||
             forall j :: 0 <= j < |plan.targets|
                         && (plan.targets[j] == plan.Node(c).parents.0 || plan.targets[j] == plan.Node(c).parents.1)
                         ==> j in calls
    ensures CallOrder(plan, calls + [c])
  {
    var next := calls + [c];
    forall k, j | 0 <= k < |next| && 0 <= j < |plan.targets| && !plan.Node(next[k]).IsSource()
                  && (plan.targets[j] == plan.Node(next[k]).parents.0
                      || plan.targets[j] == plan.Node(next[k]).parents.1)
      ensures j in next[..k]
    {
      if k < |calls| {
        assert next[k] == calls[k] && next[..k] == calls[..k];
      } else {
        assert next[..k] == calls;
      }
    }
  }

  /** A node whose parents are computed reads their final values. */
  lemma ReadyParents<V>(plan: Plan<V>, sources: seq<nat>, loaded: map<nat, V>, m: Machine<V>, c: nat)
    requires Setup(plan, sources, loaded) && Inv(plan, sources, loaded, m) && c < |plan.targets|
    requires !plan.Node(c).IsSource() && ParentsComputed(plan, m, c)
    ensures plan.Node(c).parents.0 in m.store && plan.Node(c).parents.1 in m.store
    ensures Output(plan, m, c) == Expected(plan, sources, loaded, plan.targets[c])
  {
    var power := plan.targets[c];
    assert NodeSound(plan.nodes, sources, plan.targets, power);
    var (s1, s2) := plan.nodes[power].parents;
    var j1 :| 0 <= j1 < |plan.targets| && plan.targets[j1] == s1;
    var j2 :| 0 <= j2 < |plan.targets| && plan.targets[j2] == s2;
    assert NodeInv(plan, sources, loaded, m, j1) && NodeInv(plan, sources, loaded, m, j2);
  }

  /** The call ends: its output is written to the node's own slot. */
  lemma WriteStep<V>(plan: Plan<V>, sources: seq<nat>, loaded: map<nat, V>, m: Machine<V>, w: nat)
    requires Setup(plan, sources, loaded) && Inv(plan, sources, loaded, m) && w < |m.workers|
    requires m.workers[w].pc.Applying?
    ensures Inv(plan, sources, loaded, Step(plan, m, w))
  {
    var n, c := Step(plan, m, w), m.workers[w].idx;
    assert WorkerInv(plan, sources, loaded, m, w) && NodeInv(plan, sources, loaded, m, c);
    assert NodeSound(plan.nodes, sources, plan.targets, plan.targets[c]);
    forall v | 0 <= v < |n.workers| ensures WorkerInv(plan, sources, loaded, n, v) {
      assert WorkerInv(plan, sources, loaded, m, v);
      if v != w && m.workers[v].Owns() {
        OwnerUnique(m, v, w);
      }
    }
    forall i | 0 <= i < |n.states| ensures NodeInv(plan, sources, loaded, n, i) {
      assert NodeInv(plan, sources, loaded, m, i);
      OwnershipFrame(m, n, w, i);
    }
  }

  lemma StepKeepsInv<V>(plan: Plan<V>, sources: seq<nat>, loaded: map<nat, V>, m: Machine<V>, w: nat)
    requires Setup(plan, sources, loaded) && Inv(plan, sources, loaded, m) && w < |m.workers|
    ensures Inv(plan, sources, loaded, Step(plan, m, w))
  {
    var me := m.workers[w];
    assert WorkerInv(plan, sources, loaded, m, w);
    assert NodeSound(plan.nodes, sources, plan.targets, plan.targets[me.idx]);
    match me.pc
    case TryClaim =>
      if m.states[me.idx].Uncomputed? {
        ClaimStep(plan, sources, loaded, m, w);
      } else {
        LocalStep(plan, sources, loaded, m, w, Advance(plan, me.idx));
      }
    case Release => HandBackStep(plan, sources, loaded, m, w);
    case Publish => HandBackStep(plan, sources, loaded, m, w);
    case Apply => ApplyStep(plan, sources, loaded, m, w);
    case Applying(_) => WriteStep(plan, sources, loaded, m, w);
    case Returned =>
    case Failed =>
    case _ =>
      LocalStep(plan, sources, loaded, m, w, Step(plan, m, w).workers[w]);
  }

  // ---------- Whole runs ----------

  /** Workers take their steps in the order a schedule gives; numbers of no worker are skipped. */
  function Run<V>(plan: Plan<V>, m: Machine<V>, schedule: seq<nat>): Machine<V>
    requires Shaped(plan, m)
    ensures Shaped(plan, Run(plan, m, schedule)) && |Run(plan, m, schedule).workers| == |m.workers|
    decreases |schedule|
  {
    if schedule == [] then m
    else Run(plan, if schedule[0] < |m.workers| then Step(plan, m, schedule[0]) else m, schedule[1..])
  }

  lemma {:induction false} RunConcat<V>(plan: Plan<V>, m: Machine<V>, first: seq<nat>, second: seq<nat>)
    requires Shaped(plan, m)
    ensures Run(plan, m, first + second) == Run(plan, Run(plan, m, first), second)
    decreases |first|
  {
    if first == [] {
      assert first + second == second;
    } else {
      assert (first + second)[1..] == first[1..] + second;
      RunConcat(plan, if first[0] < |m.workers| then Step(plan, m, first[0]) else m, first[1..], second);
    }
  }

  lemma {:induction false} RunKeepsInv<V>(plan: Plan<V>, sources: seq<nat>, loaded: map<nat, V>, m: Machine<V>,
                                          schedule: seq<nat>)
    requires Setup(plan, sources, loaded) && Inv(plan, sources, loaded, m)
    ensures Inv(plan, sources, loaded, Run(plan, m, schedule))
    decreases |schedule|
  {
    if schedule != [] {
      if schedule[0] < |m.workers| {
        StepKeepsInv(plan, sources, loaded, m, schedule[0]);
      }
      RunKeepsInv(plan, sources, loaded, if schedule[0] < |m.workers| then Step(plan, m, schedule[0]) else m,
                  schedule[1..]);
    }
  }

  lemma InitialInv<V>(plan: Plan<V>, sources: seq<nat>, loaded: map<nat, V>, workerCount: nat)
    requires Setup(plan, sources, loaded)
    ensures Inv(plan, sources, loaded, Initial(plan, loaded, workerCount))
  {
    var m := Initial(plan, loaded, workerCount);
    forall i | 0 <= i < |m.states| ensures NodeInv(plan, sources, loaded, m, i) {
      NotCalled(m, i);
    }
  }

  ghost predicate AllComputed<V>(m: Machine<V>) {
    forall i :: 0 <= i < |m.states| ==> m.states[i].Computed?
  }

  /** What the caller of parallel_apply can rely on in any reachable state. */
  ghost predicate Safe<V>(plan: Plan<V>, sources: seq<nat>, loaded: map<nat, V>, m: Machine<V>)
    requires Setup(plan, sources, loaded) && Shaped(plan, m)
  {
    // no two workers own a node, no node is called twice or before its parents, no exception is thrown
    && SoleOwner(m) && CallOrder(plan, m.calls)
    && (forall w :: 0 <= w < |m.workers| ==> !m.workers[w].pc.Failed?)
    // a call in progress has both parents computed
    && (forall w :: 0 <= w < |m.workers| && m.workers[w].HasCalled() ==> ParentsComputed(plan, m, m.workers[w].idx))
    // a computed node was called, and its value is final
    && (forall i :: 0 <= i < |m.states| && m.states[i].Computed? ==>
          i in m.calls && m.store[plan.targets[i]] == Expected(plan, sources, loaded, plan.targets[i]))
    // a worker returns only when everything is computed
    && (forall w :: 0 <= w < |m.workers| && m.workers[w].pc.Returned? ==> AllComputed(m))
  }

  lemma InvIsSafe<V>(plan: Plan<V>, sources: seq<nat>, loaded: map<nat, V>, m: Machine<V>)
    requires Setup(plan, sources, loaded) && Inv(plan, sources, loaded, m)
    ensures Safe(plan, sources, loaded, m)
  {
    forall w | 0 <= w < |m.workers|
      ensures !m.workers[w].pc.Failed?
      ensures m.workers[w].HasCalled() ==> ParentsComputed(plan, m, m.workers[w].idx)
      ensures m.workers[w].pc.Returned? ==> AllComputed(m)
    {
      assert WorkerInv(plan, sources, loaded, m, w);
    }
    forall i | 0 <= i < |m.states| && m.states[i].Computed?
      ensures i in m.calls && m.store[plan.targets[i]] == Expected(plan, sources, loaded, plan.targets[i])
    {
      assert NodeInv(plan, sources, loaded, m, i) && Called(m, i);
    }
  }

  /** Every interleaving of any number of workers is safe. */
  lemma EveryScheduleIsSafe<V>(plan: Plan<V>, sources: seq<nat>, loaded: map<nat, V>, workerCount: nat,
                               schedule: seq<nat>)
    requires Setup(plan, sources, loaded)
    ensures Safe(plan, sources, loaded, Run(plan, Initial(plan, loaded, workerCount), schedule))
  {
    InitialInv(plan, sources, loaded, workerCount);
    RunKeepsInv(plan, sources, loaded, Initial(plan, loaded, workerCount), schedule);
    InvIsSafe(plan, sources, loaded, Run(plan, Initial(plan, loaded, workerCount), schedule));
  }

  /** When some worker has returned, every node was called (once, by Safe) and every value is final. */
  lemma ReturnMeansDone<V>(plan: Plan<V>, sources: seq<nat>, loaded: map<nat, V>, m: Machine<V>, w: nat)
    requires Setup(plan, sources, loaded) && Shaped(plan, m) && Safe(plan, sources, loaded, m)
    requires w < |m.workers| && m.workers[w].pc.Returned?
    ensures forall i :: 0 <= i < |plan.targets| ==> i in m.calls
    ensures forall t :: t in plan.targets ==> m.store[t] == Expected(plan, sources, loaded, t)
  {
    assert AllComputed(m);
    forall t | t in plan.targets ensures m.store[t] == Expected(plan, sources, loaded, t) {
      var i :| 0 <= i < |plan.targets| && plan.targets[i] == t;
      assert m.states[i].Computed?;
    }
    forall i | 0 <= i < |plan.targets| ensures i in m.calls {
      assert m.states[i].Computed?;
    }
  }

  /** A computed node stays computed, whatever runs afterwards. */
  lemma {:induction false} ComputedIsStable<V>(plan: Plan<V>, m: Machine<V>, schedule: seq<nat>, i: nat)
    requires Shaped(plan, m) && i < |m.states| && m.states[i].Computed?
    ensures Run(plan, m, schedule).states[i].Computed?
    decreases |schedule|
  {
    if schedule != [] {
      var n := if schedule[0] < |m.workers| then Step(plan, m, schedule[0]) else m;
      assert n.states[i].Computed?;
      ComputedIsStable(plan, n, schedule[1..], i);
    }
  }

  // ---------- Progress ----------

  ghost predicate Quiet<V>(m: Machine<V>) {
    forall w :: 0 <= w < |m.workers| ==> !m.workers[w].Owns()
  }

  /** While nothing is being computed and something is left to do, some node can be computed next. */
  lemma RunnableNodeExists<V>(plan: Plan<V>, sources: seq<nat>, loaded: map<nat, V>, m: Machine<V>) returns (i: nat)
    requires Setup(plan, sources, loaded) && Inv(plan, sources, loaded, m)
    requires !AllComputed(m) && forall j :: 0 <= j < |m.states| ==> !m.states[j].Computing?
    ensures i < |m.states| && m.states[i].Uncomputed? && ParentsComputed(plan, m, i)
    ensures forall j :: 0 <= j < i ==> m.states[j].Computed?
  {
    i := 0;
    while m.states[i].Computed?
      invariant i < |m.states| && forall j :: 0 <= j < i ==> m.states[j].Computed?
      decreases |m.states| - i
    {
      i := i + 1;
    }
    LowerParents(plan, sources, m, i);
  }

  /** Parents come earlier in the list of targets than their child. */
  lemma LowerParents<V>(plan: Plan<V>, sources: seq<nat>, m: Machine<V>, i: nat)
    requires plan.Valid(sources) && Shaped(plan, m) && i < |m.states|
    requires forall j :: 0 <= j < i ==> m.states[j].Computed?
    ensures ParentsComputed(plan, m, i)
  {
    assert NodeSound(plan.nodes, sources, plan.targets, plan.targets[i]);
    if !plan.Node(i).IsSource() {
      assert forall j :: i < j < |plan.targets| ==> plan.targets[i] < plan.targets[j];
      forall j | 0 <= j < |plan.targets|
        && (plan.targets[j] == plan.Node(i).parents.0 || plan.targets[j] == plan.Node(i).parents.1)
        ensures m.states[j].Computed?
      {
        assert plan.targets[j] < plan.targets[i];
      }
    }
  }

  ghost predicate OthersSame<V>(m: Machine<V>, n: Machine<V>, w: nat) {
    |n.workers| == |m.workers| && forall v :: 0 <= v < |m.workers| && v != w ==> n.workers[v] == m.workers[v]
  }

  /** n is reached from m by steps of worker w alone. */
  ghost predicate Reaches<V>(plan: Plan<V>, m: Machine<V>, w: nat, n: Machine<V>)
    requires Shaped(plan, m)
  {
    exists steps: nat :: Run(plan, m, Repeat(w, steps)) == n
  }

  function Repeat(w: nat, steps: nat): seq<nat> {
    if steps == 0 then [] else [w] + Repeat(w, steps - 1)
  }

  lemma {:induction false} RepeatAdd(w: nat, a: nat, b: nat)
    ensures Repeat(w, a + b) == Repeat(w, a) + Repeat(w, b)
  {
    if a > 0 {
      RepeatAdd(w, a - 1, b);
    }
  }

  lemma ReachesItself<V>(plan: Plan<V>, m: Machine<V>, w: nat)
    requires Shaped(plan, m)
    ensures Reaches(plan, m, w, m)
  {
    assert Run(plan, m, Repeat(w, 0)) == m;
  }

  lemma ReachesStep<V>(plan: Plan<V>, m: Machine<V>, w: nat)
    requires Shaped(plan, m) && w < |m.workers|
    ensures Reaches(plan, m, w, Step(plan, m, w))
  {
    assert Repeat(w, 1) == [w];
    assert Run(plan, m, Repeat(w, 1)) == Run(plan, Step(plan, m, w), []);
  }

  lemma ReachesTwice<V>(plan: Plan<V>, m: Machine<V>, w: nat, n: Machine<V>, r: Machine<V>)
    requires Shaped(plan, m) && Shaped(plan, n) && Reaches(plan, m, w, n) && Reaches(plan, n, w, r)
    ensures Reaches(plan, m, w, r)
  {
    var a: nat :| Run(plan, m, Repeat(w, a)) == n;
    var b: nat :| Run(plan, n, Repeat(w, b)) == r;
    RepeatAdd(w, a, b);
    RunConcat(plan, m, Repeat(w, a), Repeat(w, b));
    assert Run(plan, m, Repeat(w, a + b)) == r;
  }

  lemma ReachesByRun<V>(plan: Plan<V>, m: Machine<V>, w: nat, n: Machine<V>) returns (schedule: seq<nat>)
    requires Shaped(plan, m) && Reaches(plan, m, w, n)
    ensures Run(plan, m, schedule) == n && forall k :: 0 <= k < |schedule| ==> schedule[k] == w
  {
    var steps: nat :| Run(plan, m, Repeat(w, steps)) == n;
    RepeatIsConstant(w, steps);
    return Repeat(w, steps);
  }

  lemma {:induction false} RepeatIsConstant(w: nat, steps: nat)
    ensures forall k :: 0 <= k < |Repeat(w, steps)| ==> Repeat(w, steps)[k] == w
  {
    if steps > 0 {
      RepeatIsConstant(w, steps - 1);
    }
  }

  lemma ReachesKeepsInv<V>(plan: Plan<V>, sources: seq<nat>, loaded: map<nat, V>, m: Machine<V>, w: nat, n: Machine<V>)
    requires Setup(plan, sources, loaded) && Inv(plan, sources, loaded, m) && Reaches(plan, m, w, n)
    ensures Inv(plan, sources, loaded, n)
  {
    var schedule := ReachesByRun(plan, m, w, n);
    RunKeepsInv(plan, sources, loaded, m, schedule);
  }

  // ---------- The loop body of a worker that is left alone ----------

  /** The completion scan ends in a claim or in the return. */
  lemma {:induction false} ScanEnds<V>(plan: Plan<V>, m: Machine<V>, w: nat)
    requires Shaped(plan, m) && w < |m.workers| && m.workers[w].pc.CheckDone?
    requires forall j :: 0 <= j < m.workers[w].pc.seen && j < |m.states| ==> m.states[j].Computed?
    ensures Reaches(plan, m, w, SetPc(m, w, if AllComputed(m) then Returned else TryClaim))
    decreases |m.states| - m.workers[w].pc.seen
  {
    var k, n := m.workers[w].pc.seen, Step(plan, m, w);
    ReachesStep(plan, m, w);
    if k < |m.states| && m.states[k].Computed? {
      ScanEnds(plan, n, w);
      assert AllComputed(n) == AllComputed(m);
      var end := SetPc(m, w, if AllComputed(m) then Returned else TryClaim);
      assert end == SetPc(n, w, if AllComputed(n) then Returned else TryClaim);
      ReachesTwice(plan, m, w, n, end);
    } else {
      assert AllComputed(m) <==> k >= |m.states|;
    }
  }

  lemma TwoSteps<V>(plan: Plan<V>, m: Machine<V>, w: nat, n: Machine<V>, r: Machine<V>)
    requires Shaped(plan, m) && w < |m.workers| && n == Step(plan, m, w) && r == Step(plan, n, w)
    ensures Reaches(plan, m, w, r)
  {
    ReachesStep(plan, m, w);
    ReachesStep(plan, n, w);
    ReachesTwice(plan, m, w, n, r);
  }

  /** From the start of a call to the next node. */
  lemma CallEnds<V>(plan: Plan<V>, n: Machine<V>, w: nat) returns (r: Machine<V>)
    requires Shaped(plan, n) && w < |n.workers| && n.workers[w].pc.Apply? && n.states[n.workers[w].idx].Computing?
    requires var node := plan.Node(n.workers[w].idx);
             node.IsSource() || (node.parents.0 in n.store && node.parents.1 in n.store)
    ensures Shaped(plan, r) && Reaches(plan, n, w, r)
    ensures r.workers == n.workers[w := Advance(plan, n.workers[w].idx)]
    ensures r.states == n.states[n.workers[w].idx := Computed] && r.calls == n.calls + [n.workers[w].idx]
  {
    var n1 := Step(plan, n, w);
    var n2 := Step(plan, n1, w);
    TwoSteps(plan, n, w, n1, n2);
    r := Step(plan, n2, w);
    ReachesStep(plan, n2, w);
    ReachesTwice(plan, n, w, n2, r);
  }

  /** Both look-ups of parents succeed, and a node is not its own parent. */
  lemma ParentPositions<V>(plan: Plan<V>, sources: seq<nat>, m: Machine<V>, i: nat)
    requires plan.Valid(sources) && Shaped(plan, m) && i < |m.states| && !plan.Node(i).IsSource()
    ensures var (f, g) := (Find(plan.targets, plan.Node(i).parents.0), Find(plan.targets, plan.Node(i).parents.1));
            && f.Some? && g.Some? && f.value != i && g.value != i
            && (ParentsComputed(plan, m, i) <==> m.states[f.value].Computed? && m.states[g.value].Computed?)
            && plan.Node(i).parents.0 in m.store && plan.Node(i).parents.1 in m.store
  {
    assert NodeSound(plan.nodes, sources, plan.targets, plan.targets[i]);
    var f, g := Find(plan.targets, plan.Node(i).parents.0).value, Find(plan.targets, plan.Node(i).parents.1).value;
    forall j | 0 <= j < |plan.targets| && (plan.targets[j] == plan.targets[f] || plan.targets[j] == plan.targets[g])
      ensures j == f || j == g
    {
      assert j < f ==> plan.targets[j] < plan.targets[f];
      assert j > f ==> plan.targets[j] > plan.targets[f];
      assert j < g ==> plan.targets[j] < plan.targets[g];
      assert j > g ==> plan.targets[j] > plan.targets[g];
    }
  }

  /** The owner of a claimed node calls the function or gives the node back, as its parents decide. */
  lemma ClaimedDecides<V>(plan: Plan<V>, sources: seq<nat>, n: Machine<V>, w: nat) returns (r: Machine<V>)
    requires plan.Valid(sources) && Shaped(plan, n) && w < |n.workers| && n.workers[w].pc.Inspect?
    requires n.states[n.workers[w].idx].Computing?
    ensures Shaped(plan, r) && Reaches(plan, n, w, r) && r.states == n.states && r.calls == n.calls
    ensures r == SetPc(n, w, if ParentsComputed(plan, n, n.workers[w].idx) then Apply else Release)
  {
    var i := n.workers[w].idx;
    var n1 := Step(plan, n, w);
    if plan.Node(i).IsSource() {
      ReachesStep(plan, n, w);
      return n1;
    }
    ParentPositions(plan, sources, n, i);
    var n2 := Step(plan, n1, w);
    r := Step(plan, n2, w);
    TwoSteps(plan, n, w, n1, n2);
    ReachesStep(plan, n2, w);
    ReachesTwice(plan, n, w, n2, r);
  }

  /** One pass through the loop body, when no other worker owns the node. */
  lemma ClaimEnds<V>(plan: Plan<V>, sources: seq<nat>, m: Machine<V>, w: nat) returns (r: Machine<V>)
    requires plan.Valid(sources) && Shaped(plan, m) && w < |m.workers| && m.workers[w].pc.TryClaim?
    requires !m.states[m.workers[w].idx].Computing?
    ensures Shaped(plan, r) && Reaches(plan, m, w, r)
    ensures r.workers == m.workers[w := Advance(plan, m.workers[w].idx)]
    ensures var i := m.workers[w].idx;
            if m.states[i].Uncomputed? && ParentsComputed(plan, m, i)
            then r.states == m.states[i := Computed] && r.calls == m.calls + [i]
            else r.states == m.states && r.calls == m.calls
  {
    var i := m.workers[w].idx;
    var n := Step(plan, m, w);
    ReachesStep(plan, m, w);
    if m.states[i].Computed? {
      return n;
    }
    SameParents(plan, sources, m, n, i);
    r := ClaimedEnds(plan, sources, n, w);
    ReachesTwice(plan, m, w, n, r);
  }

  /** The same from the moment the node is claimed. */
  lemma ClaimedEnds<V>(plan: Plan<V>, sources: seq<nat>, n: Machine<V>, w: nat) returns (r: Machine<V>)
    requires plan.Valid(sources) && Shaped(plan, n) && w < |n.workers| && n.workers[w].pc.Inspect?
    requires n.states[n.workers[w].idx].Computing?
    ensures Shaped(plan, r) && Reaches(plan, n, w, r)
    ensures r.workers == n.workers[w := Advance(plan, n.workers[w].idx)]
    ensures var i := n.workers[w].idx;
            if ParentsComputed(plan, n, i) then r.states == n.states[i := Computed] && r.calls == n.calls + [i]
            else r.states == n.states[i := Uncomputed] && r.calls == n.calls
  {
    var d := ClaimedDecides(plan, sources, n, w);
    if ParentsComputed(plan, n, n.workers[w].idx) {
      if !plan.Node(n.workers[w].idx).IsSource() { ParentPositions(plan, sources, d, n.workers[w].idx); }
      r := CallEnds(plan, d, w);
    } else {
      r := Step(plan, d, w);
      ReachesStep(plan, d, w);
    }
    ReachesTwice(plan, n, w, d, r);
  }

  /** Claiming a node does not change whether its parents are computed. */
  lemma SameParents<V>(plan: Plan<V>, sources: seq<nat>, m: Machine<V>, n: Machine<V>, i: nat)
    requires plan.Valid(sources) && Shaped(plan, m) && Shaped(plan, n) && i < |m.states|
    requires n.states == m.states[i := Computing]
    ensures ParentsComputed(plan, n, i) == ParentsComputed(plan, m, i)
  {
    if !plan.Node(i).IsSource() {
      ParentPositions(plan, sources, m, i);
      ParentPositions(plan, sources, n, i);
    }
  }

  // ---------- From any state to the end ----------

  /** How far a position is from a later one, going round. */
  function Distance(idx: nat, goal: nat, n: nat): nat
    requires idx < n && goal < n
  {
    if idx <= goal then goal - idx else n - idx + goal
  }

  /** Going to the next node shortens the way to any other one. */
  lemma AdvanceCloser(idx: nat, goal: nat, n: nat)
    requires idx < n && goal < n && idx != goal
    ensures Distance((idx + 1) % n, goal, n) < Distance(idx, goal, n)
  {
    if idx + 1 == n {
      assert (idx + 1) % n == 0;
    } else {
      assert (idx + 1) % n == idx + 1;
    }
  }

  function UncomputedCount(states: seq<NodeState>): nat {
    if states == [] then 0 else (if states[0].Computed? then 0 else 1) + UncomputedCount(states[1..])
  }

  lemma {:induction false} CountDrops(states: seq<NodeState>, i: nat)
    requires i < |states| && !states[i].Computed?
    ensures UncomputedCount(states[i := Computed]) == UncomputedCount(states) - 1
  {
    var next := states[i := Computed];
    if i == 0 {
      assert next[1..] == states[1..];
    } else {
      CountDrops(states[1..], i - 1);
      assert next[1..] == states[1..][i - 1 := Computed];
    }
  }

  predicate Unfinished(states: seq<NodeState>) {
    exists j :: 0 <= j < |states| && !states[j].Computed?
  }

  /** The first node that is not computed. */
  function FirstLeft(states: seq<NodeState>): (i: nat)
    requires Unfinished(states)
    ensures i < |states| && !states[i].Computed? && forall j :: 0 <= j < i ==> states[j].Computed?
  {
    if !states[0].Computed? then 0
    else
      assert Unfinished(states[1..]) by {
        var j :| 0 <= j < |states| && !states[j].Computed?;
        assert states[1..][j - 1] == states[j];
      }
      1 + FirstLeft(states[1..])
  }

  function RoundMeasure(states: seq<NodeState>, idx: nat): nat
    requires idx < |states|
  {
    if Unfinished(states) then Distance(idx, FirstLeft(states), |states|) else 0
  }

  /** While work is left a scan leads to a claim; afterwards a failed claim leads to the last scan. */
  function Phase<V>(m: Machine<V>, w: nat): nat
    requires w < |m.workers|
  {
    if m.workers[w].pc.Returned? then 0
    else if Unfinished(m.states) == m.workers[w].pc.CheckDone? then 2 else 1
  }

  /** The measure that a worker running alone brings down. */
  ghost predicate Closer<V>(m: Machine<V>, n: Machine<V>, w: nat)
    requires w < |m.workers| == |n.workers|
    requires m.workers[w].idx < |m.states| && n.workers[w].idx < |n.states|
  {
    || UncomputedCount(n.states) < UncomputedCount(m.states)
    || (n.states == m.states
        && (|| RoundMeasure(m.states, n.workers[w].idx) < RoundMeasure(m.states, m.workers[w].idx)
            || (n.workers[w].idx == m.workers[w].idx && Phase(n, w) < Phase(m, w))))
  }

  lemma QuietMeansNothingComputing<V>(plan: Plan<V>, sources: seq<nat>, loaded: map<nat, V>, m: Machine<V>)
    requires Setup(plan, sources, loaded) && Inv(plan, sources, loaded, m) && Quiet(m)
    ensures forall i :: 0 <= i < |m.states| ==> !m.states[i].Computing?
  {
    forall i | 0 <= i < |m.states| ensures !m.states[i].Computing? {
      assert NodeInv(plan, sources, loaded, m, i);
    }
  }

  /** One pass through the loop body computes a node or moves towards one that can be computed. */
  lemma RoundProgress<V>(plan: Plan<V>, sources: seq<nat>, loaded: map<nat, V>, m: Machine<V>, w: nat)
    returns (n: Machine<V>)
    requires Setup(plan, sources, loaded) && Inv(plan, sources, loaded, m) && Quiet(m) && w < |m.workers|
    requires m.workers[w].pc.TryClaim?
    ensures Shaped(plan, n) && Reaches(plan, m, w, n) && n.workers == m.workers[w := Advance(plan, m.workers[w].idx)]
    ensures if Unfinished(m.states) then Closer(m, n, w) else n.states == m.states
  {
    var i := m.workers[w].idx;
    QuietMeansNothingComputing(plan, sources, loaded, m);
    n := ClaimEnds(plan, sources, m, w);
    if Unfinished(m.states) {
      var goal := FirstLeft(m.states);
      LowerParents(plan, sources, m, goal);
      if m.states[i].Uncomputed? && ParentsComputed(plan, m, i) {
        CountDrops(m.states, i);
      } else {
        AdvanceCloser(i, goal, |m.states|);
      }
    }
  }

  /** From a quiet state, any worker left alone returns. */
  lemma {:induction false} SoloFinishes<V>(plan: Plan<V>, sources: seq<nat>, loaded: map<nat, V>, m: Machine<V>, w: nat)
    returns (r: Machine<V>)
    requires Setup(plan, sources, loaded) && Inv(plan, sources, loaded, m) && Quiet(m) && w < |m.workers|
    ensures Shaped(plan, r) && Reaches(plan, m, w, r) && OthersSame(m, r, w) && r.workers[w].pc.Returned?
    decreases UncomputedCount(m.states), RoundMeasure(m.states, m.workers[w].idx), Phase(m, w), 1
  {
    assert WorkerInv(plan, sources, loaded, m, w);
    if m.workers[w].pc.Returned? {
      ReachesItself(plan, m, w);
      return m;
    }
    var n;
    if m.workers[w].pc.CheckDone? {
      ScanEnds(plan, m, w);
      n := SetPc(m, w, if AllComputed(m) then Returned else TryClaim);
      if AllComputed(m) {
        return n;
      }
    } else if Unfinished(m.states) {
      n := RoundProgress(plan, sources, loaded, m, w);
    } else {
      n := RoundProgress(plan, sources, loaded, m, w);
      AllDoneMeasure(m, n, w);
    }
    r := SoloRest(plan, sources, loaded, m, w, n);
  }

  lemma AllDoneMeasure<V>(m: Machine<V>, n: Machine<V>, w: nat)
    requires w < |m.workers| == |n.workers| && n.states == m.states && !Unfinished(m.states)
    requires m.workers[w].pc.TryClaim? && n.workers[w].pc.CheckDone?
    requires m.workers[w].idx < |m.states| && n.workers[w].idx < |n.states|
    ensures RoundMeasure(n.states, n.workers[w].idx) == RoundMeasure(m.states, m.workers[w].idx)
    ensures Phase(n, w) < Phase(m, w)
  {
  }

  lemma {:induction false} SoloRest<V>(plan: Plan<V>, sources: seq<nat>, loaded: map<nat, V>, m: Machine<V>, w: nat,
                                       n: Machine<V>)
    returns (r: Machine<V>)
    requires Setup(plan, sources, loaded) && Inv(plan, sources, loaded, m) && Quiet(m) && w < |m.workers|
    requires Shaped(plan, n) && Reaches(plan, m, w, n) && OthersSame(m, n, w) && !n.workers[w].Owns()
    requires || Closer(m, n, w)
             || (n.states == m.states && Phase(n, w) < Phase(m, w)
                 && RoundMeasure(n.states, n.workers[w].idx) == RoundMeasure(m.states, m.workers[w].idx))
    ensures Shaped(plan, r) && Reaches(plan, m, w, r) && OthersSame(m, r, w) && r.workers[w].pc.Returned?
    decreases UncomputedCount(m.states), RoundMeasure(m.states, m.workers[w].idx), Phase(m, w), 0
  {
    ReachesKeepsInv(plan, sources, loaded, m, w, n);
    r := SoloFinishes(plan, sources, loaded, n, w);
    ReachesTwice(plan, m, w, n, r);
  }

  function Rank<V>(pc: Pc<V>): nat {
    match pc
    case Inspect => 6
    case CheckFirst => 5
    case CheckSecond(_) => 4
    case Apply => 3
    case Applying(_) => 2
    case Release => 1
    case Publish => 1
    case _ => 0
  }

  lemma DrainStep<V>(plan: Plan<V>, sources: seq<nat>, loaded: map<nat, V>, m: Machine<V>, w: nat)
    requires Setup(plan, sources, loaded) && Inv(plan, sources, loaded, m) && w < |m.workers| && m.workers[w].Owns()
    ensures Rank(Step(plan, m, w).workers[w].pc) < Rank(m.workers[w].pc)
    ensures OthersSame(m, Step(plan, m, w), w)
  {
    assert WorkerInv(plan, sources, loaded, m, w);
    assert NodeSound(plan.nodes, sources, plan.targets, plan.targets[m.workers[w].idx]);
    if m.workers[w].pc.CheckFirst? || m.workers[w].pc.CheckSecond? {
      ParentPositions(plan, sources, m, m.workers[w].idx);
    }
  }

  /** An owner that keeps running gives its node back. */
  lemma {:induction false} Drain<V>(plan: Plan<V>, sources: seq<nat>, loaded: map<nat, V>, m: Machine<V>, w: nat)
    returns (r: Machine<V>)
    requires Setup(plan, sources, loaded) && Inv(plan, sources, loaded, m) && w < |m.workers|
    ensures Inv(plan, sources, loaded, r) && Reaches(plan, m, w, r) && OthersSame(m, r, w) && !r.workers[w].Owns()
    decreases Rank(m.workers[w].pc)
  {
    if !m.workers[w].Owns() {
      ReachesItself(plan, m, w);
      return m;
    }
    var n := Step(plan, m, w);
    StepKeepsInv(plan, sources, loaded, m, w);
    DrainStep(plan, sources, loaded, m, w);
    ReachesStep(plan, m, w);
    r := Drain(plan, sources, loaded, n, w);
    ReachesTwice(plan, m, w, n, r);
  }

  /** Appends a solo run to a schedule. */
  lemma ExtendRun<V>(plan: Plan<V>, m: Machine<V>, before: seq<nat>, w: nat, r: Machine<V>) returns (schedule: seq<nat>)
    requires Shaped(plan, m) && Reaches(plan, Run(plan, m, before), w, r)
    ensures Run(plan, m, schedule) == r
  {
    var solo := ReachesByRun(plan, Run(plan, m, before), w, r);
    RunConcat(plan, m, before, solo);
    return before + solo;
  }

  /** All owners below some number give their nodes back. */
  lemma {:induction false} DrainAll<V>(plan: Plan<V>, sources: seq<nat>, loaded: map<nat, V>, m: Machine<V>, count: nat)
    returns (schedule: seq<nat>, r: Machine<V>)
    requires Setup(plan, sources, loaded) && Inv(plan, sources, loaded, m) && count <= |m.workers|
    ensures Run(plan, m, schedule) == r && Inv(plan, sources, loaded, r) && |r.workers| == |m.workers|
    ensures forall w :: 0 <= w < count ==> !r.workers[w].Owns()
    decreases count
  {
    if count == 0 {
      return [], m;
    }
    var before, n := DrainAll(plan, sources, loaded, m, count - 1);
    r := Drain(plan, sources, loaded, n, count - 1);
    schedule := ExtendRun(plan, m, before, count - 1, r);
  }

  /** All workers below some number return. */
  lemma {:induction false} FinishAll<V>(plan: Plan<V>, sources: seq<nat>, loaded: map<nat, V>, m: Machine<V>,
                                        count: nat)
    returns (schedule: seq<nat>, r: Machine<V>)
    requires Setup(plan, sources, loaded) && Inv(plan, sources, loaded, m) && Quiet(m) && count <= |m.workers|
    ensures Run(plan, m, schedule) == r && Inv(plan, sources, loaded, r) && Quiet(r) && |r.workers| == |m.workers|
    ensures forall w :: 0 <= w < count ==> r.workers[w].pc.Returned?
    decreases count
  {
    if count == 0 {
      return [], m;
    }
    var before, n := FinishAll(plan, sources, loaded, m, count - 1);
    r := SoloFinishes(plan, sources, loaded, n, count - 1);
    ReachesKeepsInv(plan, sources, loaded, n, count - 1, r);
    schedule := ExtendRun(plan, m, before, count - 1, r);
  }

  /** No interleaving leads into a dead end: from every reachable state some schedule lets all workers return. */
  lemma NoDeadEnd<V>(plan: Plan<V>, sources: seq<nat>, loaded: map<nat, V>, workerCount: nat, past: seq<nat>)
    returns (future: seq<nat>)
    requires Setup(plan, sources, loaded)
    ensures var n := Run(plan, Initial(plan, loaded, workerCount), past + future);
            |n.workers| == workerCount && forall w :: 0 <= w < workerCount ==> n.workers[w].pc.Returned?
  {
    var m0 := Initial(plan, loaded, workerCount);
    InitialInv(plan, sources, loaded, workerCount);
    RunKeepsInv(plan, sources, loaded, m0, past);
    var m := Run(plan, m0, past);
    var drain, n := DrainAll(plan, sources, loaded, m, workerCount);
    var finish, r := FinishAll(plan, sources, loaded, n, workerCount);
    future := drain + finish;
    RunConcat(plan, m, drain, finish);
    RunConcat(plan, m0, past, future);
  }

  // ---------- One worker alone ----------

  /** The state of a lone worker after its first k nodes. */
  ghost predicate PassedUpTo<V>(plan: Plan<V>, m: Machine<V>, k: nat) {
    && Shaped(plan, m) && k <= |m.states|
    && m.workers == [Worker(CheckDone(0), k % |plan.targets|)]
    && (forall i :: 0 <= i < |m.states| ==> m.states[i] == if i < k then Computed else Uncomputed)
    && m.calls == seq(k, i => i)
  }

  lemma PassedOneMore<V>(plan: Plan<V>, m: Machine<V>, n: Machine<V>, k: nat)
    requires PassedUpTo(plan, m, k) && k < |m.states| && Shaped(plan, n)
    requires n.workers == m.workers[0 := Advance(plan, k)] && n.states == m.states[k := Computed]
    requires n.calls == m.calls + [k]
    ensures PassedUpTo(plan, n, k + 1)
  {
    assert seq(k + 1, i => i) == seq(k, i => i) + [k];
  }

  lemma ClaimNext<V>(plan: Plan<V>, sources: seq<nat>, m: Machine<V>, n: Machine<V>, k: nat) returns (r: Machine<V>)
    requires plan.Valid(sources) && PassedUpTo(plan, m, k) && k < |m.states| && k % |plan.targets| == k
    requires Shaped(plan, n) && n == SetPc(m, 0, TryClaim)
    ensures PassedUpTo(plan, r, k + 1) && Reaches(plan, n, 0, r)
  {
    LowerParents(plan, sources, n, k);
    r := ClaimEnds(plan, sources, n, 0);
    PassedOneMore(plan, m, r, k);
  }

  lemma NextNode<V>(plan: Plan<V>, sources: seq<nat>, m: Machine<V>, k: nat) returns (r: Machine<V>)
    requires plan.Valid(sources) && PassedUpTo(plan, m, k) && k < |m.states|
    ensures PassedUpTo(plan, r, k + 1) && Reaches(plan, m, 0, r)
  {
    ScanEnds(plan, m, 0);
    assert !m.states[k].Computed? && k % |plan.targets| == k;
    var n := SetPc(m, 0, TryClaim);
    r := ClaimNext(plan, sources, m, n, k);
    ReachesTwice(plan, m, 0, n, r);
  }

  /** A lone worker visits the nodes once, in ascending order, and returns after the last one. */
  lemma {:induction false} SinglePass<V>(plan: Plan<V>, sources: seq<nat>, m: Machine<V>, k: nat)
    returns (r: Machine<V>)
    requires plan.Valid(sources) && PassedUpTo(plan, m, k)
    ensures Reaches(plan, m, 0, r) && |r.workers| == 1 && r.workers[0].pc.Returned?
    ensures r.calls == seq(|plan.targets|, i => i)
    decreases |plan.targets| - k
  {
    if k == |m.states| {
      ScanEnds(plan, m, 0);
      assert AllComputed(m);
      return SetPc(m, 0, Returned);
    }
    var n := NextNode(plan, sources, m, k);
    r := SinglePass(plan, sources, n, k + 1);
    ReachesTwice(plan, m, 0, n, r);
  }

  lemma SingleWorkerAscends<V>(plan: Plan<V>, sources: seq<nat>, loaded: map<nat, V>) returns (schedule: seq<nat>)
    requires Setup(plan, sources, loaded)
    ensures var n := Run(plan, Initial(plan, loaded, 1), schedule);
            |n.workers| == 1 && n.workers[0].pc.Returned? && n.calls == seq(|plan.targets|, i => i)
  {
    var m := Initial(plan, loaded, 1);
    assert m.workers == [Worker(CheckDone(0), 0)];
    var r := SinglePass(plan, sources, m, 0);
    schedule := ReachesByRun(plan, m, 0, r);
  }
}
