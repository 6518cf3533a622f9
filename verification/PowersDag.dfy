/**
 The DAG of query powers (common/apsi/powers.cpp, and create_powers_set of common/apsi/util/utils.cpp).

 A std::set<uint32_t>, which the source only walks in ascending order, is a strictly increasing
 sequence here.
 */
module PowersDags {
  import opened Wrappers
  import opened ModArith

  datatype PowersNode = PowersNode(power: nat, depth: nat, parents: (nat, nat)) {
    predicate IsSource() {
      parents == (0, 0)
    }
  }

  predicate StrictlyIncreasing(s: seq<nat>) {
    forall i, j :: 0 <= i < j < |s| ==> s[i] < s[j]
  }

  function Max(a: nat, b: nat): (m: nat)
    ensures m >= a && m >= b && (m == a || m == b)
  {
    if a < b then b else a
  }

  // ---------- Addition trees: the independent meaning of depth ----------

  /** A way of computing a power: leaves are given, an inner node multiplies two computed powers. */
  datatype AdditionTree = Leaf(power: nat) | Sum(left: AdditionTree, right: AdditionTree) {
    function Value(): nat {
      match this
      case Leaf(p) => p
      case Sum(l, r) => l.Value() + r.Value()
    }

    function Depth(): nat {
      match this
      case Leaf(_) => 0
      case Sum(l, r) => 1 + Max(l.Depth(), r.Depth())
    }

    /** Leaves are sources and every inner node, the root included, computes a target. */
    predicate Uses(sources: seq<nat>, targets: seq<nat>) {
      match this
      case Leaf(p) => p in sources
      case Sum(l, r) => Value() in targets && l.Uses(sources, targets) && r.Uses(sources, targets)
    }
  }

  /** Some tree for this power has the given depth, and no tree is shallower. */
  ghost predicate OptimalDepth(power: nat, depth: nat, sources: seq<nat>, targets: seq<nat>) {
    && (exists t: AdditionTree :: t.Uses(sources, targets) && t.Value() == power && t.Depth() == depth)
    && forall t: AdditionTree :: t.Uses(sources, targets) && t.Value() == power ==> depth <= t.Depth()
  }

  /** Two targets that sum to the power. */
  ghost predicate Splits(targets: seq<nat>, power: nat, s1: nat, s2: nat) {
    s1 in targets && s2 in targets && s1 + s2 == power
  }

  ghost predicate HasSplit(targets: seq<nat>, power: nat) {
    exists s1: nat, s2: nat :: Splits(targets, power, s1, s2)
  }

  /** Every target that is not a source is the sum of two targets. */
  ghost predicate Decomposable(sources: seq<nat>, targets: seq<nat>) {
    forall t {:trigger HasSplit(targets, t)} :: t in targets && t !in sources ==> HasSplit(targets, t)
  }

  predicate ConfigurableFrom(sources: seq<nat>, targets: seq<nat>) {
    && 0 !in sources && 1 in sources
    && 0 !in targets && 1 in targets
    && forall s :: s in sources ==> s in targets
  }

  // ---------- What a configured table of nodes must satisfy ----------

  /** A node is a source of depth 0, or it joins two table entries one level below it. */
  ghost predicate NodeSound(nodes: map<nat, PowersNode>, sources: seq<nat>, targets: seq<nat>, t: nat) {
    && t in nodes && nodes[t].power == t
    && (t in sources ==> nodes[t] == PowersNode(t, 0, (0, 0)))
    && (t !in sources ==>
          var (s1, s2) := nodes[t].parents;
          && s1 >= 1 && s2 >= 1 && Splits(targets, t, s1, s2)
          && s1 in nodes && s2 in nodes
          && nodes[t].depth == 1 + Max(nodes[s1].depth, nodes[s2].depth))
  }

  ghost predicate DagSound(nodes: map<nat, PowersNode>, sources: seq<nat>, targets: seq<nat>) {
    forall t {:trigger NodeSound(nodes, sources, targets, t)} :: t in targets ==> NodeSound(nodes, sources, targets, t)
  }

  ghost predicate DagOptimal(nodes: map<nat, PowersNode>, sources: seq<nat>, targets: seq<nat>) {
    forall t :: t in targets ==> t in nodes && OptimalDepth(t, nodes[t].depth, sources, targets)
  }

  /** The largest depth over the first nodes. */
  ghost predicate DepthIs(nodes: map<nat, PowersNode>, powers: seq<nat>, upto: nat, depth: nat)
    requires upto <= |powers|
  {
    && (forall k :: 0 <= k < upto ==> powers[k] in nodes && nodes[powers[k]].depth <= depth)
    && (depth == 0 || exists k :: 0 <= k < upto && powers[k] in nodes && nodes[powers[k]].depth == depth)
  }

  // ---------- The dynamic program ----------

  /** The depth a first parent would give, when its partner is a target as well. */
  ghost predicate NoBetterThan(nodes: map<nat, PowersNode>, targets: seq<nat>, power: nat, first: nat, depth: nat) {
    first < power && power - first in targets ==>
      && first in nodes && power - first in nodes
      && depth <= 1 + Max(nodes[first].depth, nodes[power - first].depth)
  }

  /** The chosen parents are the fallback, or two targets that account for the depth. */
  ghost predicate SplitFor(nodes: map<nat, PowersNode>, targets: seq<nat>, power: nat, depth: nat, s1: nat, s2: nat) {
    || (depth == power - 1 && s1 == power - 1 && s2 == 1)
    || (s1 >= 1 && s2 >= 1 && Splits(targets, power, s1, s2) && s1 in nodes && s2 in nodes
        && depth == 1 + Max(nodes[s1].depth, nodes[s2].depth))
  }

  /** What the scan over the first parents before index upto has established about one power. */
  ghost predicate BestSplit(nodes: map<nat, PowersNode>, targets: seq<nat>, power: nat, upto: nat, depth: nat, s1: nat,
                            s2: nat)
    requires upto <= |targets|
  {
    && (forall k :: 0 <= k < upto ==> NoBetterThan(nodes, targets, power, targets[k], depth))
    && SplitFor(nodes, targets, power, depth, s1, s2)
  }

  lemma BestOfAll(nodes: map<nat, PowersNode>, targets: seq<nat>, power: nat, depth: nat, s1: nat, s2: nat, a: nat,
                  b: nat)
    requires BestSplit(nodes, targets, power, |targets|, depth, s1, s2)
    requires Splits(targets, power, a, b) && b >= 1
    ensures a in nodes && b in nodes && depth <= 1 + Max(nodes[a].depth, nodes[b].depth)
  {
    var k :| 0 <= k < |targets| && targets[k] == a;
    assert NoBetterThan(nodes, targets, power, targets[k], depth);
  }

  ghost predicate NodeDone(nodes: map<nat, PowersNode>, sources: seq<nat>, targets: seq<nat>, t: nat) {
    && t in nodes && nodes[t].power == t && nodes[t].depth <= t - 1
    && (t !in sources ==>
          && !nodes[t].IsSource() && nodes[t].parents.0 >= 1 && nodes[t].parents.1 >= 1
          && BestSplit(nodes, targets, t, |targets|, nodes[t].depth, nodes[t].parents.0, nodes[t].parents.1))
  }

  /** The state of the table once the targets before index upto are processed. */
  ghost predicate ConfiguredFor(nodes: map<nat, PowersNode>, sources: seq<nat>, targets: seq<nat>, upto: nat)
    requires upto <= |targets|
  {
    && (forall s :: s in sources ==> s in nodes && nodes[s] == PowersNode(s, 0, (0, 0)))
    && forall k :: 0 <= k < upto ==> NodeDone(nodes, sources, targets, targets[k])
  }

  lemma AllDone(nodes: map<nat, PowersNode>, sources: seq<nat>, targets: seq<nat>, t: nat)
    requires ConfiguredFor(nodes, sources, targets, |targets|) && t in targets
    ensures NodeDone(nodes, sources, targets, t)
  {
    var k :| 0 <= k < |targets| && targets[k] == t;
    assert NodeDone(nodes, sources, targets, targets[k]);
  }

  lemma KeepBestSplit(before: map<nat, PowersNode>, nodes: map<nat, PowersNode>, targets: seq<nat>, power: nat, t: nat,
                      d: nat, s1: nat, s2: nat)
    requires 0 !in targets && t <= power && BestSplit(before, targets, t, |targets|, d, s1, s2)
    requires power in nodes && nodes == before[power := nodes[power]]
    ensures BestSplit(nodes, targets, t, |targets|, d, s1, s2)
  {
    forall k | 0 <= k < |targets| ensures NoBetterThan(nodes, targets, t, targets[k], d) {
      assert NoBetterThan(before, targets, t, targets[k], d);
      assert targets[k] != 0;
    }
  }

  lemma ExtendConfigured(before: map<nat, PowersNode>, nodes: map<nat, PowersNode>, sources: seq<nat>,
                         targets: seq<nat>, i: nat, d: nat, s1: nat, s2: nat)
    requires i < |targets| && StrictlyIncreasing(targets) && 0 !in targets
    requires ConfiguredFor(before, sources, targets, i)
    requires targets[i] !in sources && targets[i] >= 2 && s1 >= 1 && s2 >= 1 && d <= targets[i] - 1
    requires BestSplit(before, targets, targets[i], |targets|, d, s1, s2)
    requires nodes == before[targets[i] := PowersNode(targets[i], d, (s1, s2))]
    ensures ConfiguredFor(nodes, sources, targets, i + 1)
  {
    forall k | 0 <= k <= i ensures NodeDone(nodes, sources, targets, targets[k]) {
      var t := targets[k];
      if k < i {
        assert NodeDone(before, sources, targets, t);
        if t !in sources {
          KeepBestSplit(before, nodes, targets, targets[i], t, nodes[t].depth, nodes[t].parents.0, nodes[t].parents.1);
        }
      } else {
        KeepBestSplit(before, nodes, targets, t, t, d, s1, s2);
      }
    }
  }

  /** The fallback parents (t - 1, 1) are only kept when they are the best split. */
  lemma SoundAt(nodes: map<nat, PowersNode>, sources: seq<nat>, targets: seq<nat>, t: nat, a: nat, b: nat)
    requires ConfigurableFrom(sources, targets) && t !in sources && Splits(targets, t, a, b) && a <= b
    requires NodeDone(nodes, sources, targets, t) && NodeDone(nodes, sources, targets, a)
    requires NodeDone(nodes, sources, targets, b)
    ensures NodeSound(nodes, sources, targets, t)
  {
    var (s1, s2) := nodes[t].parents;
    assert a != 0;
    BestOfAll(nodes, targets, t, nodes[t].depth, s1, s2, a, b);
    if !Splits(targets, t, s1, s2) {
      assert b == t - 1 && a == 1;
      assert Splits(targets, t, s1, s2);
    }
  }

  lemma SoundFromBest(nodes: map<nat, PowersNode>, sources: seq<nat>, targets: seq<nat>)
    requires ConfigurableFrom(sources, targets) && Decomposable(sources, targets)
    requires ConfiguredFor(nodes, sources, targets, |targets|)
    ensures DagSound(nodes, sources, targets)
  {
    forall t | t in targets ensures NodeSound(nodes, sources, targets, t) {
      AllDone(nodes, sources, targets, t);
      if t !in sources {
        assert HasSplit(targets, t);
        var a: nat, b: nat :| Splits(targets, t, a, b);
        AllDone(nodes, sources, targets, a);
        AllDone(nodes, sources, targets, b);
        if a <= b {
          SoundAt(nodes, sources, targets, t, a, b);
        } else {
          SoundAt(nodes, sources, targets, t, b, a);
        }
      }
    }
  }

  lemma {:induction false} NoShallowerTree(nodes: map<nat, PowersNode>, sources: seq<nat>, targets: seq<nat>,
                                           tree: AdditionTree)
    requires ConfigurableFrom(sources, targets)
    requires ConfiguredFor(nodes, sources, targets, |targets|)
    requires tree.Uses(sources, targets)
    ensures tree.Value() in targets && tree.Value() in nodes && nodes[tree.Value()].depth <= tree.Depth()
    decreases tree
  {
    match tree
    case Leaf(p) =>
      AllDone(nodes, sources, targets, p);
    case Sum(l, r) =>
      NoShallowerTree(nodes, sources, targets, l);
      NoShallowerTree(nodes, sources, targets, r);
      var t := tree.Value();
      assert l.Value() != 0 && r.Value() != 0;
      assert Splits(targets, t, l.Value(), r.Value());
      AllDone(nodes, sources, targets, t);
      if t !in sources {
        var (s1, s2) := nodes[t].parents;
        BestOfAll(nodes, targets, t, nodes[t].depth, s1, s2, l.Value(), r.Value());
      }
  }

  lemma {:induction false} TreeExists(nodes: map<nat, PowersNode>, sources: seq<nat>, targets: seq<nat>, t: nat)
    returns (tree: AdditionTree)
    requires DagSound(nodes, sources, targets) && t in targets && 0 !in targets
    ensures t in nodes && tree.Uses(sources, targets) && tree.Value() == t && tree.Depth() == nodes[t].depth
    decreases t
  {
    assert NodeSound(nodes, sources, targets, t);
    if t in sources {
      tree := Leaf(t);
    } else {
      var (s1, s2) := nodes[t].parents;
      var l := TreeExists(nodes, sources, targets, s1);
      var r := TreeExists(nodes, sources, targets, s2);
      tree := Sum(l, r);
    }
  }

  lemma OptimalFromBest(nodes: map<nat, PowersNode>, sources: seq<nat>, targets: seq<nat>)
    requires ConfigurableFrom(sources, targets) && DagSound(nodes, sources, targets)
    requires ConfiguredFor(nodes, sources, targets, |targets|)
    ensures DagOptimal(nodes, sources, targets)
  {
    forall t | t in targets ensures t in nodes && OptimalDepth(t, nodes[t].depth, sources, targets) {
      assert NodeSound(nodes, sources, targets, t);
      var tree := TreeExists(nodes, sources, targets, t);
      forall other: AdditionTree | other.Uses(sources, targets) && other.Value() == t
        ensures nodes[t].depth <= other.Depth()
      {
        NoShallowerTree(nodes, sources, targets, other);
      }
    }
  }

  lemma SoundIsDecomposable(nodes: map<nat, PowersNode>, sources: seq<nat>, targets: seq<nat>)
    requires DagSound(nodes, sources, targets)
    ensures Decomposable(sources, targets)
  {
    forall t | t in targets && t !in sources ensures HasSplit(targets, t) {
      assert NodeSound(nodes, sources, targets, t);
      var (s1, s2) := nodes[t].parents;
      assert Splits(targets, t, s1, s2);
    }
  }

  lemma LowerTargetsPresent(nodes: map<nat, PowersNode>, sources: seq<nat>, targets: seq<nat>, i: nat)
    requires StrictlyIncreasing(targets) && i < |targets| && ConfiguredFor(nodes, sources, targets, i)
    ensures forall t :: t in targets && t < targets[i] ==> t in nodes
  {
    forall t | t in targets && t < targets[i] ensures t in nodes {
      var k :| 0 <= k < |targets| && targets[k] == t;
      assert k < i && NodeDone(nodes, sources, targets, targets[k]);
    }
  }

  lemma ExtendDepth(before: map<nat, PowersNode>, nodes: map<nat, PowersNode>, targets: seq<nat>, i: nat, depth: nat,
                    d: nat)
    requires StrictlyIncreasing(targets) && i < |targets| && DepthIs(before, targets, i, depth)
    requires targets[i] in nodes && nodes[targets[i]].depth == d && nodes == before[targets[i] := nodes[targets[i]]]
    ensures DepthIs(nodes, targets, i + 1, Max(depth, d))
  {
    if depth > d {
      var k :| 0 <= k < i && targets[k] in before && before[targets[k]].depth == depth;
      assert targets[k] in nodes && nodes[targets[k]].depth == depth;
    } else {
      assert nodes[targets[i]].depth == Max(depth, d);
    }
  }

  lemma SourceDone(nodes: map<nat, PowersNode>, sources: seq<nat>, targets: seq<nat>, i: nat)
    requires i < |targets| && targets[i] in sources && targets[i] > 0 && ConfiguredFor(nodes, sources, targets, i)
    ensures ConfiguredFor(nodes, sources, targets, i + 1)
  {
    forall k | 0 <= k <= i ensures NodeDone(nodes, sources, targets, targets[k]) {
      assert k == i ==> targets[k] in sources;
    }
  }

  lemma SourceDepth(nodes: map<nat, PowersNode>, targets: seq<nat>, i: nat, depth: nat)
    requires i < |targets| && targets[i] in nodes && nodes[targets[i]].depth == 0 && DepthIs(nodes, targets, i, depth)
    ensures DepthIs(nodes, targets, i + 1, depth)
  {
    if depth > 0 {
      var k :| 0 <= k < i && targets[k] in nodes && nodes[targets[k]].depth == depth;
      assert targets[k] in nodes && nodes[targets[k]].depth == depth;
    }
  }

  /** A full table is sound exactly when every target splits, and then its depths are optimal. */
  lemma ConfigureOutcome(nodes: map<nat, PowersNode>, sources: seq<nat>, targets: seq<nat>)
    requires ConfigurableFrom(sources, targets) && ConfiguredFor(nodes, sources, targets, |targets|)
    ensures Decomposable(sources, targets) <==> DagSound(nodes, sources, targets)
    ensures Decomposable(sources, targets) ==> DagOptimal(nodes, sources, targets)
    ensures forall t :: t in targets ==> t in nodes && (nodes[t].IsSource() <==> t in sources)
  {
    if Decomposable(sources, targets) {
      SoundFromBest(nodes, sources, targets);
      OptimalFromBest(nodes, sources, targets);
    } else if DagSound(nodes, sources, targets) {
      SoundIsDecomposable(nodes, sources, targets);
    }
    forall t | t in targets ensures t in nodes && (nodes[t].IsSource() <==> t in sources) {
      AllDone(nodes, sources, targets, t);
    }
  }

  /** The entries without parents: the new sources, and stale ones from an earlier configuration. */
  ghost predicate SourcesAre(nodes: map<nat, PowersNode>, before: map<nat, PowersNode>, sources: seq<nat>,
                             targets: seq<nat>) {
    forall t :: t in nodes && nodes[t].IsSource() <==>
                t in sources || (t !in targets && t in before && before[t].IsSource())
  }

  class PowersDag {
    var nodes: map<nat, PowersNode>
    var configured: bool
    var targetPowers: seq<nat>
    var depth: nat
    var sourceCount: nat

    constructor ()
      ensures nodes == map[] && !configured
    {
      nodes, configured, targetPowers, depth, sourceCount := map[], false, [], 0, 0;
    }

    /** As in the source, the node table itself is not cleared. */
    method Reset()
      modifies this
      ensures nodes == old(nodes) && !configured && targetPowers == [] && depth == 0 && sourceCount == 0
    {
      targetPowers, depth, sourceCount, configured := [], 0, 0, false;
    }

    /** A power's best pair of parents: the inner loop of configure. */
    method FindParents(power: nat, targets: seq<nat>) returns (d: nat, s1: nat, s2: nat)
      requires StrictlyIncreasing(targets) && 0 !in targets && power >= 2
      requires forall t :: t in targets && t < power ==> t in nodes
      ensures d <= power - 1 && s1 >= 1 && s2 >= 1 && BestSplit(nodes, targets, power, |targets|, d, s1, s2)
    {
      d, s1, s2 := power - 1, power - 1, 1;
      var i := 0;
      while i < |targets| && targets[i] < power
        invariant 0 <= i <= |targets|
        invariant d <= power - 1 && s1 >= 1 && s2 >= 1
        invariant BestSplit(nodes, targets, power, i, d, s1, s2)
      {
        var first := targets[i];
        assert first in targets && first != 0;
        var second := power - first;
        ghost var before := d;
        if second in targets {
          assert second != 0;
          var newDepth := Max(nodes[first].depth, nodes[second].depth) + 1;
          if newDepth < d {
            d, s1, s2 := newDepth, first, second;
            assert Splits(targets, power, first, second);
          }
        }
        forall k | 0 <= k <= i ensures NoBetterThan(nodes, targets, power, targets[k], d) {
          assert k < i ==> NoBetterThan(nodes, targets, power, targets[k], before);
        }
        i := i + 1;
      }
      forall k | 0 <= k < |targets| ensures NoBetterThan(nodes, targets, power, targets[k], d) {
        assert k > i ==> targets[k] > targets[i];
      }
    }

    /** Inserts the source nodes. */
    method LoadSources(sources: seq<nat>)
      modifies this`nodes
      ensures forall t :: t in nodes <==> t in old(nodes) || t in sources
      ensures forall t :: t in sources ==> nodes[t] == PowersNode(t, 0, (0, 0))
      ensures forall t :: t in old(nodes) && t !in sources ==> nodes[t] == old(nodes)[t]
    {
      for i := 0 to |sources|
        invariant forall t :: t in nodes <==> t in old(nodes) || t in sources[..i]
        invariant forall t :: t in sources[..i] ==> nodes[t] == PowersNode(t, 0, (0, 0))
        invariant forall t :: t in old(nodes) && t !in sources[..i] ==> nodes[t] == old(nodes)[t]
      {
        assert sources[..i + 1] == sources[..i] + [sources[i]];
        nodes := nodes[sources[i] := PowersNode(sources[i], 0, (0, 0))];
      }
      assert sources[..|sources|] == sources;
    }

    /** Adds a node for every other target, in ascending order. */
    method AddTargets(sources: seq<nat>, targets: seq<nat>) returns (currDepth: nat)
      requires StrictlyIncreasing(targets) && ConfigurableFrom(sources, targets)
      requires ConfiguredFor(nodes, sources, targets, 0)
      modifies this`nodes
      ensures ConfiguredFor(nodes, sources, targets, |targets|)
      ensures forall t :: t in nodes <==> t in old(nodes) || t in targets
      ensures forall t :: t in old(nodes) && t !in targets ==> nodes[t] == old(nodes)[t]
      ensures DepthIs(nodes, targets, |targets|, currDepth)
    {
      currDepth := 0;
      for i := 0 to |targets|
        invariant ConfiguredFor(nodes, sources, targets, i)
        invariant forall t :: t in nodes ==> t in old(nodes) || t in targets
        invariant forall t :: t in old(nodes) ==> t in nodes && (t !in targets ==> nodes[t] == old(nodes)[t])
        invariant DepthIs(nodes, targets, i, currDepth)
      {
        currDepth := AddTarget(sources, targets, i, currDepth);
      }
      forall t | t in targets ensures t in nodes {
        AllDone(nodes, sources, targets, t);
      }
    }

    /** One round of that loop. */
    method AddTarget(sources: seq<nat>, targets: seq<nat>, i: nat, currDepth: nat) returns (newDepth: nat)
      requires StrictlyIncreasing(targets) && ConfigurableFrom(sources, targets) && i < |targets|
      requires ConfiguredFor(nodes, sources, targets, i) && DepthIs(nodes, targets, i, currDepth)
      modifies this`nodes
      ensures ConfiguredFor(nodes, sources, targets, i + 1) && DepthIs(nodes, targets, i + 1, newDepth)
      ensures if targets[i] in sources then nodes == old(nodes)
              else targets[i] in nodes && nodes == old(nodes)[targets[i] := nodes[targets[i]]]
    {
      var power := targets[i];
      newDepth := currDepth;
      assert power in targets && power != 0;
      if power !in sources {
        LowerTargetsPresent(nodes, sources, targets, i);
        var d, s1, s2 := FindParents(power, targets);
        ghost var before := nodes;
        nodes := nodes[power := PowersNode(power, d, (s1, s2))];
        newDepth := Max(currDepth, d);
        ExtendConfigured(before, nodes, sources, targets, i, d, s1, s2);
        ExtendDepth(before, nodes, targets, i, currDepth, d);
      } else {
        SourceDone(nodes, sources, targets, i);
        SourceDepth(nodes, targets, i, currDepth);
      }
    }

    method Configure(sources: seq<nat>, targets: seq<nat>) returns (ok: bool)
      requires StrictlyIncreasing(sources) && StrictlyIncreasing(targets)
      modifies this
      ensures ok == configured == ConfigurableFrom(sources, targets)
      ensures ok ==> targetPowers == targets && sourceCount == |sources|
      ensures ok ==> (Decomposable(sources, targets) <==> DagSound(nodes, sources, targets))
      ensures ok && Decomposable(sources, targets) ==> DagOptimal(nodes, sources, targets)
      ensures ok ==> DepthIs(nodes, targets, |targets|, depth)
      ensures ok ==> SourcesAre(nodes, old(nodes), sources, targets)
      ensures !ok ==> nodes == old(nodes)
    {
      Reset();
      if 0 in sources || 1 !in sources {
        return false;
      }
      if 0 in targets || 1 !in targets {
        return false;
      }
      if exists s :: s in sources && s !in targets {
        return false;
      }
      depth := BuildNodes(sources, targets);
      configured, targetPowers, sourceCount := true, targets, |sources|;
      return true;
    }

    method BuildNodes(sources: seq<nat>, targets: seq<nat>) returns (currDepth: nat)
      requires StrictlyIncreasing(targets) && ConfigurableFrom(sources, targets)
      modifies this`nodes
      ensures Decomposable(sources, targets) <==> DagSound(nodes, sources, targets)
      ensures Decomposable(sources, targets) ==> DagOptimal(nodes, sources, targets)
      ensures DepthIs(nodes, targets, |targets|, currDepth)
      ensures SourcesAre(nodes, old(nodes), sources, targets)
    {
      LoadSources(sources);
      currDepth := AddTargets(sources, targets);
      ConfigureOutcome(nodes, sources, targets);
    }

    /** Exactly the entries of the node table without parents. */
    method SourceNodes() returns (r: set<PowersNode>)
      requires configured
      ensures r == set t | t in nodes && nodes[t].IsSource() :: nodes[t]
    {
      r := set t | t in nodes && nodes[t].IsSource() :: nodes[t];
    }
  }

  // ---------- The target set of Paterson-Stockmeyer evaluation ----------

  predicate InPowersSet(lowDegree: nat, targetDegree: nat, power: nat) {
    if lowDegree > 0 then 1 <= power <= lowDegree || (0 < power <= targetDegree && power % (lowDegree + 1) == 0)
    else 1 <= power <= targetDegree
  }

  datatype PowersSetError = LowDegreeTooBig | TargetDegreeZero

  method CreatePowersSet(lowDegree: nat, targetDegree: nat) returns (r: Result<seq<nat>, PowersSetError>)
    ensures r == Err(LowDegreeTooBig) <==> lowDegree > targetDegree
    ensures r == Err(TargetDegreeZero) <==> lowDegree == targetDegree == 0
    ensures r.Ok? <==> lowDegree <= targetDegree && targetDegree > 0
    ensures r.Ok? ==> StrictlyIncreasing(r.value) &&
                      forall t :: t in r.value <==> InPowersSet(lowDegree, targetDegree, t)
  {
    if lowDegree > targetDegree {
      return Err(LowDegreeTooBig);
    }
    if targetDegree == 0 {
      return Err(TargetDegreeZero);
    }
    var result: seq<nat> := [];
    if lowDegree > 0 {
      for power := 1 to lowDegree + 1
        invariant StrictlyIncreasing(result)
        invariant forall t :: t in result <==> 1 <= t < power
      {
        AppendIncreasing(result, power);
        result := result + [power];
      }
      result := AddHighPowers(result, lowDegree + 1, targetDegree);
    } else {
      for power := 1 to targetDegree + 1
        invariant StrictlyIncreasing(result)
        invariant forall t :: t in result <==> 1 <= t < power
      {
        AppendIncreasing(result, power);
        result := result + [power];
      }
    }
    return Ok(result);
  }

  /** The multiples of high up to the target degree, after the powers below high. */
  method AddHighPowers(low: seq<nat>, high: nat, targetDegree: nat) returns (result: seq<nat>)
    requires high > 1 && high - 1 <= targetDegree
    requires StrictlyIncreasing(low) && forall t :: t in low <==> 1 <= t < high
    ensures StrictlyIncreasing(result)
    ensures forall t :: t in result <==> 1 <= t < high || (0 < t <= targetDegree && t % high == 0)
  {
    var last := (targetDegree / high) * high;
    result := low;
    var power := high;
    ghost var k := 1;
    while power <= last
      invariant power == k * high && k >= 1
      invariant StrictlyIncreasing(result)
      invariant forall t :: t in result <==> 1 <= t < high || (0 < t < power && t % high == 0)
      invariant forall t :: t in result ==> t <= targetDegree
      decreases last + high - power
    {
      NextMultiple(k, high);
      AppendIncreasing(result, power);
      assert (targetDegree / high) * high <= targetDegree;
      result := result + [power];
      power, k := power + high, k + 1;
    }
    LastMultiple(k, high, targetDegree);
  }

  lemma AppendIncreasing(s: seq<nat>, x: nat)
    requires StrictlyIncreasing(s) && forall t :: t in s ==> t < x
    ensures StrictlyIncreasing(s + [x])
  {
    assert forall i :: 0 <= i < |s| ==> s[i] in s;
  }

  lemma NextMultiple(k: nat, m: nat)
    requires m > 0
    ensures (k + 1) * m == k * m + m
    ensures forall t :: k * m <= t < k * m + m ==> (t % m == 0 <==> t == k * m)
  {
    forall t | k * m <= t < k * m + m ensures t % m == 0 <==> t == k * m {
      DivModUnique(t, k, t - k * m, m);
    }
  }

  lemma LastMultiple(k: nat, m: nat, n: nat)
    requires m > 0 && k * m > (n / m) * m
    ensures forall t :: 0 < t <= n && t % m == 0 ==> t < k * m
  {
    forall t | 0 < t <= n && t % m == 0 ensures t < k * m {
      QuotientMonotone(t, n, m);
    }
  }

  lemma QuotientMonotone(t: nat, n: nat, m: nat)
    requires m > 0 && t <= n && t % m == 0
    ensures t <= (n / m) * m
  {
    var gap := t / m - n / m;
    assert gap * m == (t / m) * m - (n / m) * m;
    if gap >= 1 {
      MulAtLeast(gap, m);
    } else {
      MulNonNeg(-gap, m);
    }
  }

  /** Whatever the sources, the target sets the protocol uses have no power without two parents. */
  lemma PowersSetDecomposable(lowDegree: nat, targetDegree: nat, sources: seq<nat>, targets: seq<nat>)
    requires forall t :: t in targets <==> InPowersSet(lowDegree, targetDegree, t)
    requires 1 in sources
    ensures Decomposable(sources, targets)
  {
    forall t | t in targets && t !in sources ensures HasSplit(targets, t) {
      var high := lowDegree + 1;
      if lowDegree == 0 || t <= high {
        assert InPowersSet(lowDegree, targetDegree, t - 1) && InPowersSet(lowDegree, targetDegree, 1);
        assert Splits(targets, t, t - 1, 1);
      } else {
        DivModUnique(t - high, t / high - 1, 0, high);
        DivModUnique(high, 1, 0, high);
        assert InPowersSet(lowDegree, targetDegree, t - high) && InPowersSet(lowDegree, targetDegree, high);
        assert Splits(targets, t, t - high, high);
      }
    }
  }

  /** Receiver::reset_powers_dag: the configuration the protocol uses is sound and depth-optimal. */
  method ResetPowersDag(dag: PowersDag, sources: seq<nat>, lowDegree: nat, maxItemsPerBin: nat) returns (ok: bool)
    requires StrictlyIncreasing(sources)
    modifies dag
    ensures ok <==> && lowDegree <= maxItemsPerBin && maxItemsPerBin > 0 && 1 in sources
                    && forall s :: s in sources ==> InPowersSet(lowDegree, maxItemsPerBin, s)
    ensures ok ==> && dag.configured && StrictlyIncreasing(dag.targetPowers)
                   && (forall t :: t in dag.targetPowers <==> InPowersSet(lowDegree, maxItemsPerBin, t))
                   && DagSound(dag.nodes, sources, dag.targetPowers)
                   && DagOptimal(dag.nodes, sources, dag.targetPowers)
                   && DepthIs(dag.nodes, dag.targetPowers, |dag.targetPowers|, dag.depth)
    ensures ok ==> SourcesAre(dag.nodes, old(dag.nodes), sources, dag.targetPowers)
    ensures ok ==> forall s :: s in sources ==> s in dag.targetPowers
  {
    var targets := CreatePowersSet(lowDegree, maxItemsPerBin);
    if targets.Err? {
      return false;
    }
    assert 1 in targets.value && 0 !in targets.value;
    ok := dag.Configure(sources, targets.value);
    if ok {
      PowersSetDecomposable(lowDegree, maxItemsPerBin, sources, targets.value);
    }
  }

  function PowersIn(nodes: set<PowersNode>): set<nat> {
    set node | node in nodes :: node.power
  }

  /** What source_nodes lists on an object that was never configured before are the sources. */
  lemma FreshSourceNodes(nodes: map<nat, PowersNode>, sources: seq<nat>, targets: seq<nat>)
    requires SourcesAre(nodes, map[], sources, targets) && DagSound(nodes, sources, targets)
    requires forall s :: s in sources ==> s in targets
    ensures PowersIn(set t | t in nodes && nodes[t].IsSource() :: nodes[t]) == set s | s in sources
  {
    var found := set t | t in nodes && nodes[t].IsSource() :: nodes[t];
    forall s | s in sources ensures s in PowersIn(found) {
      assert NodeSound(nodes, sources, targets, s);
      assert nodes[s] in found && nodes[s].power == s;
    }
    forall power | power in PowersIn(found) ensures power in sources {
      var t :| t in nodes && nodes[t].IsSource() && nodes[t].power == power;
      assert t in sources && NodeSound(nodes, sources, targets, t);
    }
  }

  /** A target set outside the protocol can leave a node whose parent is not a target. */
  lemma UndecomposableExample()
    ensures ConfigurableFrom([1], [1, 4]) && !Decomposable([1], [1, 4])
  {
    assert 4 in [1, 4] && 4 !in [1] && (Decomposable([1], [1, 4]) ==> HasSplit([1, 4], 4));
    forall s1: nat, s2: nat ensures !Splits([1, 4], 4, s1, s2) {
    }
  }
}
