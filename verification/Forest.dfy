/** Containment as a rooted forest: what the ownership and cycle checks amount to together. */
module Forest {
  import opened Graph

  ghost predicate SingleParent<V(!new)>(e: Edges<V>) {
    forall a, b, c :: (a, c) in e && (b, c) in e ==> a == b
  }

  ghost predicate IsRoot<V(!new)>(e: Edges<V>, v: V) {
    forall a :: (a, v) !in e
  }

  /** `chain` follows parents upward from its first vertex. */
  ghost predicate Climbs<V>(e: Edges<V>, chain: seq<V>, v: V) {
    |chain| > 0 && chain[0] == v && forall k :: 0 <= k < |chain| - 1 ==> (chain[k + 1], chain[k]) in e
  }

  /** Climbing from `v` ends at a parentless vertex after fewer than `bound` steps. */
  ghost predicate ReachesRoot<V(!new)>(e: Edges<V>, v: V, bound: nat) {
    exists chain :: Climbs(e, chain, v) && |chain| <= bound && IsRoot(e, chain[|chain| - 1])
  }

  ghost predicate RootedForest<V(!new)>(e: Edges<V>, nodes: set<V>) {
    SingleParent(e) && forall v :: v in nodes ==> ReachesRoot(e, v, |nodes|)
  }

  lemma ClimbReaches<V(!new)>(e: Edges<V>, chain: seq<V>, v: V, i: nat, j: nat)
    requires Climbs(e, chain, v) && i <= j < |chain|
    ensures Reaches(e, chain[j], chain[i])
  {
    var k := i;
    ReachSelf(e, chain[i]);
    while k < j
      invariant i <= k <= j && Reaches(e, chain[k], chain[i])
    {
      ReachEdge(e, chain[k + 1], chain[k]);
      ReachTrans(e, chain[k + 1], chain[k], chain[i]);
      k := k + 1;
    }
  }

  /** Without cycles a climb never meets a vertex twice, so it is no longer than the graph. */
  lemma ClimbBounded<V(!new)>(e: Edges<V>, chain: seq<V>, v: V, nodes: set<V>)
    requires Climbs(e, chain, v) && v in nodes
    requires forall a, b :: (a, b) in e ==> a in nodes && b in nodes
    requires forall w :: !OnCycle(e, w)
    ensures |chain| <= |nodes|
  {
    forall i, j | 0 <= i < j < |chain| ensures chain[i] != chain[j] {
      if chain[i] == chain[j] {
        CycleByEdge(e, chain[i + 1]);
        ClimbReaches(e, chain, v, i + 1, j);
      }
    }
    forall k | 0 <= k < |chain| ensures chain[k] in nodes {
      if k > 0 { assert (chain[k - 1 + 1], chain[k - 1]) in e; }
    }
    DistinctWithin(chain, nodes);
  }

  lemma {:induction false} DistinctWithin<V>(s: seq<V>, nodes: set<V>)
    requires forall i, j :: 0 <= i < j < |s| ==> s[i] != s[j]
    requires forall k :: 0 <= k < |s| ==> s[k] in nodes
    ensures |s| <= |nodes|
  {
    if s != [] {
      var last := s[|s| - 1];
      DistinctWithin(s[..|s| - 1], nodes - {last});
    }
  }

  lemma ClimbToRoot<V(!new)>(e: Edges<V>, v: V, nodes: set<V>)
    requires v in nodes
    requires forall a, b :: (a, b) in e ==> a in nodes && b in nodes
    requires forall w :: !OnCycle(e, w)
    ensures ReachesRoot(e, v, |nodes|)
  {
    var chain := [v];
    ClimbBounded(e, chain, v, nodes);
    while !IsRoot(e, chain[|chain| - 1])
      invariant Climbs(e, chain, v) && |chain| <= |nodes|
      decreases |nodes| - |chain|
    {
      var a :| (a, chain[|chain| - 1]) in e;
      chain := chain + [a];
      ClimbBounded(e, chain, v, nodes);
    }
  }

  /** On a cycle with single parents, climbing stays on the cycle. */
  lemma CycleNeverEnds<V(!new)>(e: Edges<V>, chain: seq<V>, v: V)
    requires SingleParent(e) && OnCycle(e, v) && Climbs(e, chain, v)
    ensures OnCycle(e, chain[|chain| - 1]) && !IsRoot(e, chain[|chain| - 1])
  {
    var k := 0;
    var a := CyclePredecessor(e, v);
    while k < |chain| - 1
      invariant 0 <= k < |chain| && OnCycle(e, chain[k]) && !IsRoot(e, chain[k])
    {
      a := CyclePredecessor(e, chain[k]);
      assert (chain[k + 1], chain[k]) in e;
      k := k + 1;
      a := CyclePredecessor(e, chain[k]);
    }
  }

  lemma CyclePredecessor<V(!new)>(e: Edges<V>, v: V) returns (a: V)
    requires OnCycle(e, v)
    ensures (a, v) in e && OnCycle(e, a)
  {
    var p :| Joins(e, p, v, v) && |p| >= 2;
    a := p[|p| - 2];
    assert (p[|p| - 2], p[|p| - 1]) in e;
    assert Joins(e, p[..|p| - 1], v, a);
    CycleByEdge(e, a);
  }

  /** A containment relation is a rooted forest if and only if every node has one parent at most
      and no node is on a cycle. */
  lemma ForestIff<V(!new)>(e: Edges<V>, nodes: set<V>)
    requires forall a, b :: (a, b) in e ==> a in nodes && b in nodes
    ensures RootedForest(e, nodes) <==> SingleParent(e) && forall v :: !OnCycle(e, v)
  {
    if SingleParent(e) && forall v :: !OnCycle(e, v) {
      forall v | v in nodes ensures ReachesRoot(e, v, |nodes|) {
        ClimbToRoot(e, v, nodes);
      }
    }
    if RootedForest(e, nodes) {
      forall v ensures !OnCycle(e, v) {
        if OnCycle(e, v) {
          var a := CyclePredecessor(e, v);
          var chain :| Climbs(e, chain, v) && |chain| <= |nodes| && IsRoot(e, chain[|chain| - 1]);
          CycleNeverEnds(e, chain, v);
        }
      }
    }
  }
}
