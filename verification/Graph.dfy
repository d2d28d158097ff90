/** Finite directed graphs as sets of edges, with reachability along explicit paths. */
module Graph {

  type Edges<V(==)> = set<(V, V)>

  ghost predicate IsPath<V>(e: Edges<V>, p: seq<V>) {
    |p| > 0 && forall i :: 0 <= i < |p| - 1 ==> (p[i], p[i + 1]) in e
  }

  ghost predicate Joins<V>(e: Edges<V>, p: seq<V>, u: V, v: V) {
    IsPath(e, p) && p[0] == u && p[|p| - 1] == v
  }

  /** A path, possibly of no edges, leads from `u` to `v`. */
  ghost predicate Reaches<V(!new)>(e: Edges<V>, u: V, v: V) {
    exists p :: Joins(e, p, u, v)
  }

  /** `u` and `v` lie in one strongly connected component. */
  ghost predicate Connected<V(!new)>(e: Edges<V>, u: V, v: V) {
    Reaches(e, u, v) && Reaches(e, v, u)
  }

  /** `v` lies on a directed cycle of at least one edge. */
  ghost predicate OnCycle<V(!new)>(e: Edges<V>, v: V) {
    exists p :: Joins(e, p, v, v) && |p| >= 2
  }

  lemma ReachSelf<V(!new)>(e: Edges<V>, u: V)
    ensures Reaches(e, u, u)
  {
    assert Joins(e, [u], u, u);
  }

  lemma ReachEdge<V(!new)>(e: Edges<V>, u: V, v: V)
    requires (u, v) in e
    ensures Reaches(e, u, v)
  {
    assert Joins(e, [u, v], u, v);
  }

  lemma ReachTrans<V(!new)>(e: Edges<V>, u: V, v: V, w: V)
    requires Reaches(e, u, v) && Reaches(e, v, w)
    ensures Reaches(e, u, w)
  {
    var p :| Joins(e, p, u, v);
    var q :| Joins(e, q, v, w);
    var r := p + q[1..];
    forall i | 0 <= i < |r| - 1 ensures (r[i], r[i + 1]) in e {
      if i >= |p| - 1 { assert (q[i - |p| + 1], q[i - |p| + 2]) in e; }
    }
    assert Joins(e, r, u, w);
  }

  lemma ConnectedTrans<V(!new)>(e: Edges<V>, u: V, v: V, w: V)
    requires Connected(e, u, v) && Connected(e, v, w)
    ensures Connected(e, u, w)
  {
    ReachTrans(e, u, v, w);
    ReachTrans(e, w, v, u);
  }

  /** A set closed under the edges cannot be left. */
  lemma ClosedSet<V(!new)>(e: Edges<V>, s: set<V>, u: V, v: V)
    requires u in s && Reaches(e, u, v)
    requires forall a, b :: a in s && (a, b) in e ==> b in s
    ensures v in s
  {
    var p :| Joins(e, p, u, v);
    var k := 0;
    while k < |p| - 1
      invariant 0 <= k < |p| && p[k] in s
    {
      assert (p[k], p[k + 1]) in e;
      k := k + 1;
    }
  }

  /** A vertex is on a cycle exactly when one of its edges leads back to it. */
  lemma CycleByEdge<V(!new)>(e: Edges<V>, v: V)
    ensures OnCycle(e, v) <==> exists w :: (v, w) in e && Reaches(e, w, v)
  {
    if OnCycle(e, v) {
      var p :| Joins(e, p, v, v) && |p| >= 2;
      assert (p[0], p[1]) in e;
      forall i | 0 <= i < |p[1..]| - 1 ensures (p[1..][i], p[1..][i + 1]) in e {
        assert (p[i + 1], p[i + 2]) in e;
      }
      assert Joins(e, p[1..], p[1], v);
    }
    if w :| (v, w) in e && Reaches(e, w, v) {
      var q :| Joins(e, q, w, v);
      var p := [v] + q;
      forall i | 0 <= i < |p| - 1 ensures (p[i], p[i + 1]) in e {
        if i > 0 { assert (q[i - 1], q[i]) in e; }
      }
      assert Joins(e, p, v, v);
    }
  }

  /** Two different vertices of one component are both on a cycle. */
  lemma ConnectedPairOnCycle<V(!new)>(e: Edges<V>, u: V, v: V)
    requires u != v && Connected(e, u, v)
    ensures OnCycle(e, u)
  {
    var p :| Joins(e, p, u, v);
    assert (p[0], p[1]) in e;
    forall i | 0 <= i < |p[1..]| - 1 ensures (p[1..][i], p[1..][i + 1]) in e {
      assert (p[i + 1], p[i + 2]) in e;
    }
    assert Joins(e, p[1..], p[1], v);
    ReachTrans(e, p[1], v, u);
    CycleByEdge(e, u);
  }

  /** A map that sends edges to edges sends cycles to cycles. */
  lemma CycleMaps<V(!new), W(!new)>(e: Edges<V>, f: Edges<W>, h: V -> W, v: V)
    requires forall a, b :: (a, b) in e ==> (h(a), h(b)) in f
    requires OnCycle(e, v)
    ensures OnCycle(f, h(v))
  {
    var p :| Joins(e, p, v, v) && |p| >= 2;
    var q := seq(|p|, i requires 0 <= i < |p| => h(p[i]));
    forall i | 0 <= i < |q| - 1 ensures (q[i], q[i + 1]) in f {
      assert (p[i], p[i + 1]) in e;
    }
    assert Joins(f, q, h(v), h(v));
  }
}
