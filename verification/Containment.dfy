/** The iterative Kosaraju traversal that finds containment cycles
    (`crates/kr0ki-behavior/src/validation.rs`). */
module Containment {
  import opened Graph
  import opened Ordering

  /** Adjacency vectors: `g[u]` lists the targets of vertex `u`, repeats included. */
  type Adjacency = g: seq<seq<nat>> | forall u, k :: 0 <= u < |g| && 0 <= k < |g[u]| ==> g[u][k] < |g|

  ghost function EdgesOf(g: Adjacency): Edges<nat> {
    set u, v | 0 <= u < |g| && v in g[u] :: (u, v)
  }

  ghost predicate Distinct<T>(s: seq<T>) {
    forall i, j :: 0 <= i < j < |s| ==> s[i] != s[j]
  }

  /** `s` lists each vertex of a graph of `n` vertices exactly once. */
  ghost predicate Permutation(s: seq<nat>, n: nat) {
    && |s| == n
    && Distinct(s)
    && (forall v: nat :: v in s <==> v < n)
  }

  /** What the second pass needs of the finishing order: whoever reaches `finished[i]` has a
      vertex of its own component that finished no earlier. */
  ghost predicate LateComponents(e: Edges<nat>, finished: seq<nat>) {
    forall i: nat, x: nat :: i < |finished| && Reaches(e, x, finished[i]) ==> HasLate(e, finished, i, x)
  }

  ghost predicate HasLate(e: Edges<nat>, finished: seq<nat>, i: nat, x: nat)
    requires i <= |finished|
  {
    exists y: nat :: y !in finished[..i] && Connected(e, x, y)
  }

  // ---------------------------------------------------------------- counting

  function EdgeCount(g: seq<seq<nat>>): nat {
    if g == [] then 0 else EdgeCount(g[..|g| - 1]) + |g[|g| - 1]|
  }

  ghost predicate InRange(s: seq<nat>, n: nat) {
    forall k :: 0 <= k < |s| ==> s[k] < n
  }

  ghost function Degrees(g: seq<seq<nat>>, s: seq<nat>): nat
    requires InRange(s, |g|)
  {
    if s == [] then 0 else |g[s[0]]| + Degrees(g, s[1..])
  }

  lemma {:induction false} DegreesConcat(g: seq<seq<nat>>, s: seq<nat>, t: seq<nat>)
    requires InRange(s, |g|) && InRange(t, |g|)
    ensures Degrees(g, s + t) == Degrees(g, s) + Degrees(g, t)
  {
    if s == [] {
      assert s + t == t;
    } else {
      DegreesConcat(g, s[1..], t);
      assert (s + t)[1..] == s[1..] + t;
    }
  }

  lemma {:induction false} DegreesPrefix(g: seq<seq<nat>>, s: seq<nat>)
    requires |g| > 0 && InRange(s, |g| - 1)
    ensures Degrees(g, s) == Degrees(g[..|g| - 1], s)
  {
    if s != [] { DegreesPrefix(g, s[1..]); }
  }

  lemma RemoveAt(s: seq<nat>, k: nat, n: nat) returns (t: seq<nat>)
    requires Distinct(s) && InRange(s, n + 1) && k < |s| && s[k] == n
    ensures t == s[..k] + s[k + 1..] && s == s[..k] + [n] + s[k + 1..]
    ensures Distinct(t) && InRange(t, n) && |t| == |s| - 1
    ensures forall v :: v in t ==> v in s
  {
    t := s[..k] + s[k + 1..];
    forall i | 0 <= i < |t| ensures t[i] < n && t[i] == s[if i < k then i else i + 1] {}
  }

  /** `n` distinct vertices below `n` are all of them. */
  lemma {:induction false} Pigeonhole(s: seq<nat>, n: nat)
    requires Distinct(s) && InRange(s, n)
    ensures |s| <= n
    ensures |s| == n ==> forall v: nat :: v < n ==> v in s
  {
    assert s == [] || s[0] < n;
    if n > 0 {
      if k :| 0 <= k < |s| && s[k] == n - 1 {
        var t := RemoveAt(s, k, n - 1);
        Pigeonhole(t, n - 1);
      } else {
        Pigeonhole(s, n - 1);
      }
    }
  }

  /** Distinct vertices have no more edges than the graph; all of them have exactly as many. */
  lemma {:induction false} DegreesBound(g: seq<seq<nat>>, s: seq<nat>)
    requires Distinct(s) && InRange(s, |g|)
    ensures Degrees(g, s) <= EdgeCount(g)
    ensures |s| == |g| ==> Degrees(g, s) == EdgeCount(g)
  {
    if g != [] {
      var m := |g| - 1;
      if k :| 0 <= k < |s| && s[k] == m {
        var t := RemoveAt(s, k, m);
        DegreesConcat(g, s[..k] + [m], s[k + 1..]);
        DegreesConcat(g, s[..k], [m]);
        DegreesConcat(g, s[..k], s[k + 1..]);
        DegreesPrefix(g, t);
        DegreesBound(g[..m], t);
      } else {
        Pigeonhole(s, m);
        DegreesPrefix(g, s);
        DegreesBound(g[..m], s);
      }
    }
  }

  // ---------------------------------------------------------------- first pass

  /** One entry of the explicit DFS stack: a vertex and how many of its edges were taken. */
  type Frame = (nat, nat)

  ghost function Nodes(stack: seq<Frame>): (s: seq<nat>)
    ensures |s| == |stack| && forall k :: 0 <= k < |s| ==> s[k] == stack[k].0
  {
    seq(|stack|, k requires 0 <= k < |stack| => stack[k].0)
  }

  ghost function Taken(stack: seq<Frame>): nat {
    if stack == [] then 0 else Taken(stack[..|stack| - 1]) + stack[|stack| - 1].1
  }

  /** The shape of the DFS state: which vertices are unseen, on the stack, or finished. */
  ghost predicate DfsShape(g: Adjacency, visited: seq<bool>, stack: seq<Frame>, finished: seq<nat>) {
    && |visited| == |g|
    && (forall k :: 0 <= k < |stack| ==> stack[k].0 < |g| && stack[k].1 <= |g[stack[k].0]|)
    && Distinct(finished + Nodes(stack))
    && InRange(finished, |g|)
    && (forall v: nat :: v in finished + Nodes(stack) <==> v < |g| && visited[v])
    && (forall v, c :: v in finished && v < |g| && c in g[v] ==> visited[c])
    && (forall k, j :: 0 <= k < |stack| && 0 <= j < stack[k].1 ==> visited[g[stack[k].0][j]])
  }

  /** Reachability facts of the DFS state: the stack is a chain, and a finished vertex that
      still reaches the stack is in the component of a vertex on the stack. */
  ghost predicate DfsReach(g: Adjacency, stack: seq<Frame>, finished: seq<nat>) {
    var e := EdgesOf(g);
    && (forall i, j :: 0 <= i <= j < |stack| ==> Reaches(e, stack[i].0, stack[j].0))
    && (forall x: nat, k :: x in finished && 0 <= k < |stack| && Reaches(e, x, stack[k].0)
          ==> MeetsStack(e, stack, x))
    && LateComponents(e, finished)
  }

  ghost predicate MeetsStack(e: Edges<nat>, stack: seq<Frame>, x: nat) {
    exists m :: 0 <= m < |stack| && Connected(e, x, stack[m].0)
  }

  /** Leaving the finished vertices means passing through the stack. */
  lemma LeaveFinished(g: Adjacency, visited: seq<bool>, stack: seq<Frame>, finished: seq<nat>, x: nat, u: nat)
    requires DfsShape(g, visited, stack, finished)
    requires x in finished && u !in finished && Reaches(EdgesOf(g), x, u)
    ensures exists k :: 0 <= k < |stack| && Reaches(EdgesOf(g), x, stack[k].0)
  {
    var e := EdgesOf(g);
    if forall k :: 0 <= k < |stack| ==> !Reaches(e, x, stack[k].0) {
      var s := set y | y in finished && Reaches(e, x, y);
      ReachSelf(e, x);
      forall a, b | a in s && (a, b) in e ensures b in s {
        ReachEdge(e, a, b);
        ReachTrans(e, x, a, b);
        assert visited[b];
        assert b in finished + Nodes(stack);
      }
      ClosedSet(e, s, x, u);
    }
  }

  lemma PushKeeps(g: Adjacency, visited: seq<bool>, stack: seq<Frame>, finished: seq<nat>, child: nat)
    requires DfsShape(g, visited, stack, finished) && DfsReach(g, stack, finished)
    requires child < |g| && !visited[child]
    requires stack != [] ==> (stack[|stack| - 1].0, child) in EdgesOf(g)
    ensures DfsShape(g, visited[child := true], stack + [(child, 0)], finished)
    ensures DfsReach(g, stack + [(child, 0)], finished)
  {
    var e := EdgesOf(g);
    var stack' := stack + [(child, 0)];
    assert child !in finished + Nodes(stack);
    assert finished + Nodes(stack') == (finished + Nodes(stack)) + [child];
    ReachSelf(e, child);
    forall i | 0 <= i < |stack| ensures Reaches(e, stack[i].0, child) {
      ReachEdge(e, stack[|stack| - 1].0, child);
      ReachTrans(e, stack[i].0, stack[|stack| - 1].0, child);
    }
    forall x: nat, k | x in finished && 0 <= k < |stack'| && Reaches(e, x, stack'[k].0)
      ensures MeetsStack(e, stack', x)
    {
      if k == |stack| { LeaveFinished(g, visited, stack, finished, x, child); }
      assert MeetsStack(e, stack, x);
      var m :| 0 <= m < |stack| && Connected(e, x, stack[m].0);
      assert stack'[m] == stack[m];
    }
  }

  /** Moving a frame past an edge to a seen vertex keeps the invariant. */
  lemma AdvanceKeeps(g: Adjacency, visited: seq<bool>, stack: seq<Frame>, finished: seq<nat>, top: nat)
    requires DfsShape(g, visited, stack, finished) && DfsReach(g, stack, finished)
    requires top < |stack| && stack[top].1 < |g[stack[top].0]| && visited[g[stack[top].0][stack[top].1]]
    ensures var stack' := stack[top := (stack[top].0, stack[top].1 + 1)];
            DfsShape(g, visited, stack', finished) && DfsReach(g, stack', finished)
  {
    var stack' := stack[top := (stack[top].0, stack[top].1 + 1)];
    assert Nodes(stack') == Nodes(stack);
    var e := EdgesOf(g);
    assert forall k :: 0 <= k < |stack| ==> stack'[k].0 == stack[k].0;
    forall x: nat, k | x in finished && 0 <= k < |stack'| && Reaches(e, x, stack'[k].0)
      ensures MeetsStack(e, stack', x)
    {
      assert MeetsStack(e, stack, x);
      var m :| 0 <= m < |stack| && Connected(e, x, stack[m].0);
      assert stack'[m].0 == stack[m].0;
    }
  }

  /** One step along an edge: the frame moves on and an unseen child is pushed. */
  lemma TakeEdge(g: Adjacency, visited: seq<bool>, below: seq<Frame>, node: nat, next: nat, finished: seq<nat>)
    requires node < |g| && next < |g[node]| && |visited| == |g|
    requires DfsShape(g, visited, below + [(node, next)], finished)
    requires DfsReach(g, below + [(node, next)], finished)
    ensures var child := g[node][next];
            var stack' := below + [(node, next + 1)] + if visited[child] then [] else [(child, 0)];
            DfsShape(g, visited[child := true], stack', finished) && DfsReach(g, stack', finished)
  {
    var child := g[node][next];
    var stack := below + [(node, next)];
    assert (node, child) in EdgesOf(g);
    hide *;
    assert stack[|below|] == (node, next);
    if visited[child] {
      AdvanceKeeps(g, visited, stack, finished, |below|);
      assert visited[child := true] == visited;
      assert stack[|below| := (node, next + 1)] == below + [(node, next + 1)] + [];
    } else {
      PushKeeps(g, visited, stack, finished, child);
      TakeNewEdge(g, visited[child := true], below, node, next, finished, child);
    }
  }

  lemma TakeNewEdge(g: Adjacency, visited: seq<bool>, below: seq<Frame>, node: nat, next: nat, finished: seq<nat>,
                    child: nat)
    requires node < |g| && next < |g[node]| && |visited| == |g| && g[node][next] == child && visited[child]
    requires DfsShape(g, visited, below + [(node, next)] + [(child, 0)], finished)
    requires DfsReach(g, below + [(node, next)] + [(child, 0)], finished)
    ensures var stack' := below + [(node, next + 1)] + [(child, 0)];
            DfsShape(g, visited, stack', finished) && DfsReach(g, stack', finished)
  {
    hide *;
    var stack := below + [(node, next)] + [(child, 0)];
    assert stack[|below|] == (node, next);
    AdvanceKeeps(g, visited, stack, finished, |below|);
    assert stack[|below| := (node, next + 1)] == below + [(node, next + 1)] + [(child, 0)];
  }

  lemma FinishShape(g: Adjacency, visited: seq<bool>, stack: seq<Frame>, finished: seq<nat>)
    requires DfsShape(g, visited, stack, finished)
    requires stack != [] && stack[|stack| - 1].1 == |g[stack[|stack| - 1].0]|
    ensures DfsShape(g, visited, stack[..|stack| - 1], finished + [stack[|stack| - 1].0])
  {
    var node := stack[|stack| - 1].0;
    var rest := stack[..|stack| - 1];
    var before, after := finished + Nodes(stack), (finished + [node]) + Nodes(rest);
    var n := |finished|;
    assert Nodes(stack) == Nodes(rest) + [node];
    forall i, j | 0 <= i < j < |after| ensures after[i] != after[j] {
      assert forall k :: 0 <= k < |after| ==>
        after[k] == before[if k < n then k else if k == n then |before| - 1 else k - 1];
    }
    forall v: nat ensures v in after <==> v in before {
      assert v in Nodes(stack) <==> v in Nodes(rest) || v == node;
    }
    forall v, c | v in finished + [node] && v < |g| && c in g[v] ensures visited[c] {
      if v == node {
        var j :| 0 <= j < |g[node]| && g[node][j] == c;
      }
    }
  }

  lemma OffStack(g: Adjacency, visited: seq<bool>, stack: seq<Frame>, finished: seq<nat>, m: nat)
    requires DfsShape(g, visited, stack, finished) && m < |stack|
    ensures stack[m].0 !in finished
  {
    var all := finished + Nodes(stack);
    assert all[|finished| + m] == stack[m].0;
    assert forall k :: 0 <= k < |finished| ==> all[k] == finished[k];
  }

  /** When the top of the stack finishes, its edges all lead to seen vertices, and every vertex
      reaching it is in the component of something not yet finished. */
  lemma FinishReach(g: Adjacency, visited: seq<bool>, stack: seq<Frame>, finished: seq<nat>)
    requires DfsShape(g, visited, stack, finished) && DfsReach(g, stack, finished)
    requires stack != []
    ensures DfsReach(g, stack[..|stack| - 1], finished + [stack[|stack| - 1].0])
  {
    var e := EdgesOf(g);
    var top := |stack| - 1;
    var node := stack[top].0;
    var rest := stack[..top];
    var finished' := finished + [node];
    ReachSelf(e, node);
    forall x: nat, k | x in finished' && 0 <= k < |rest| && Reaches(e, x, rest[k].0)
      ensures MeetsStack(e, rest, x)
    {
      assert Reaches(e, stack[k].0, stack[top].0);
      if x == node {
        assert Connected(e, x, rest[k].0);
      } else {
        assert MeetsStack(e, stack, x);
        var m :| 0 <= m < |stack| && Connected(e, x, stack[m].0);
        if m == top {
          ReachTrans(e, rest[k].0, node, x);
          assert Connected(e, x, rest[k].0);
        } else {
          assert rest[m] == stack[m];
        }
      }
    }
    forall i: nat, x: nat | i < |finished'| && Reaches(e, x, finished'[i]) ensures HasLate(e, finished', i, x) {
      if i < |finished| {
        assert HasLate(e, finished, i, x);
        assert finished'[..i] == finished[..i];
      } else {
        assert finished'[..i] == finished;
        ReachSelf(e, x);
        if x in finished {
          assert MeetsStack(e, stack, x);
          var m :| 0 <= m < |stack| && Connected(e, x, stack[m].0);
          OffStack(g, visited, stack, finished, m);
          assert Connected(e, x, stack[m].0);
        }
      }
    }
  }

  lemma DfsBounded(g: Adjacency, visited: seq<bool>, stack: seq<Frame>, finished: seq<nat>)
    requires DfsShape(g, visited, stack, finished)
    ensures InRange(finished, |g|) && |visited| == |g|
    ensures forall k :: 0 <= k < |stack| ==> stack[k].0 < |g| && stack[k].1 <= |g[stack[k].0]|
    ensures |finished| + |stack| <= |g|
    ensures Degrees(g, finished) + Taken(stack) <= EdgeCount(g)
  {
    var all := finished + Nodes(stack);
    forall k | 0 <= k < |all| ensures all[k] < |g| {
      assert all[k] in all;
    }
    Pigeonhole(all, |g|);
    DegreesBound(g, all);
    DegreesConcat(g, finished, Nodes(stack));
    TakenBound(g, stack);
  }

  lemma {:induction false} TakenBound(g: Adjacency, stack: seq<Frame>)
    requires forall k :: 0 <= k < |stack| ==> stack[k].0 < |g| && stack[k].1 <= |g[stack[k].0]|
    ensures Taken(stack) <= Degrees(g, Nodes(stack))
  {
    if stack != [] {
      var rest, node := stack[..|stack| - 1], stack[|stack| - 1].0;
      assert Nodes(stack) == Nodes(rest) + [node];
      TakenBound(g, rest);
      DegreesConcat(g, Nodes(rest), [node]);
    }
  }

  /** First pass: depth-first over `forward`, recording the order in which vertices finish.
      The inner loop body runs once per vertex and once per edge, and no more. */
  method FinishOrder(forward: Adjacency, visited: array<bool>) returns (finished: seq<nat>, ghost steps: nat)
    requires visited.Length == |forward| && forall v :: 0 <= v < |forward| ==> !visited[v]
    modifies visited
    ensures Permutation(finished, |forward|)
    ensures LateComponents(EdgesOf(forward), finished)
    ensures steps == |forward| + EdgeCount(forward)
  {
    hide DfsShape, DfsReach, Permutation, LateComponents;
    finished, steps := [], 0;
    NothingSeen(forward, visited[..]);
    for start := 0 to |forward|
      invariant DfsShape(forward, visited[..], [], finished) && DfsReach(forward, [], finished)
      invariant InRange(finished, |forward|) && visited.Length == |forward|
      invariant forall v :: 0 <= v < start ==> visited[v]
      invariant steps == |finished| + Degrees(forward, finished)
    {
      if visited[start] { continue; }
      PushKeeps(forward, visited[..], [], finished, start);
      ghost var unseen := visited[..];
      visited[start] := true;
      assert visited[..] == unseen[start := true];
      var pending: seq<Frame> := [(start, 0)];
      assert [] + [(start, 0)] == pending;
      ghost var more;
      finished, more := Explore(forward, visited, finished, pending);
      steps := steps + more;
    }
    AllFinished(forward, visited[..], finished);
  }

  /** The inner loop of the first pass. */
  method Explore(forward: Adjacency, visited: array<bool>, finished0: seq<nat>, pending0: seq<Frame>)
    returns (finished: seq<nat>, ghost steps: nat)
    requires InRange(finished0, |forward|)
    requires DfsShape(forward, visited[..], pending0, finished0) && DfsReach(forward, pending0, finished0)
    modifies visited
    ensures DfsShape(forward, visited[..], [], finished) && DfsReach(forward, [], finished)
    ensures InRange(finished, |forward|)
    ensures forall v :: 0 <= v < visited.Length && old(visited[v]) ==> visited[v]
    ensures |finished0| + Degrees(forward, finished0) + Taken(pending0) + steps
            == |finished| + Degrees(forward, finished)
  {
    hide DfsShape, DfsReach;
    ghost var start := visited[..];
    finished, steps := finished0, 0;
    var pending: seq<Frame> := pending0;
    DfsBounded(forward, visited[..], pending, finished);
    ghost var already := |finished0| + Degrees(forward, finished0) + Taken(pending0);
    while pending != []
      invariant DfsShape(forward, visited[..], pending, finished) && DfsReach(forward, pending, finished)
      invariant InRange(finished, |forward|) && visited.Length == |forward|
      invariant forall v :: 0 <= v < visited.Length && start[v] ==> visited[v]
      invariant already + steps == |finished| + Degrees(forward, finished) + Taken(pending)
      decreases |forward| + EdgeCount(forward) - already - steps
    {
      ghost var seen := visited[..];
      ghost var below: seq<Frame> := pending[..|pending| - 1];
      var (node, next) := pending[|pending| - 1];
      assert pending == below + [(node, next)];
      TakenPush(below, (node, next));
      DfsBounded(forward, seen, pending, finished);
      if next < |forward[node]| {
        var child := forward[node][next];
        TakeEdge(forward, seen, below, node, next, finished);
        pending := pending[..|pending| - 1] + [(node, next + 1)];
        TakenPush(below, (node, next + 1));
        if !visited[child] {
          visited[child] := true;
          TakenPush(pending, (child, 0));
          pending := pending + [(child, 0)];
        }
        assert visited[..] == seen[child := true];
        assert pending == below + [(node, next + 1)] + if seen[child] then [] else [(child, 0)];
      } else {
        FinishShape(forward, seen, pending, finished);
        FinishReach(forward, seen, pending, finished);
        DegreesConcat(forward, finished, [node]);
        finished := finished + [node];
        pending := pending[..|pending| - 1];
      }
      steps := steps + 1;
      DfsBounded(forward, visited[..], pending, finished);
    }
  }

  lemma TakenPush(stack: seq<Frame>, f: Frame)
    ensures Taken(stack + [f]) == Taken(stack) + f.1
  {
    assert (stack + [f])[..|stack|] == stack;
  }

  lemma NothingSeen(g: Adjacency, visited: seq<bool>)
    requires |visited| == |g| && forall v :: 0 <= v < |g| ==> !visited[v]
    ensures DfsShape(g, visited, [], []) && DfsReach(g, [], [])
  {
  }

  lemma AllFinished(g: Adjacency, visited: seq<bool>, finished: seq<nat>)
    requires DfsShape(g, visited, [], finished) && forall v :: 0 <= v < |g| ==> visited[v]
    requires DfsReach(g, [], finished)
    ensures Permutation(finished, |g|) && LateComponents(EdgesOf(g), finished)
    ensures InRange(finished, |g|) && Degrees(g, finished) == EdgeCount(g)
  {
    assert finished + Nodes([]) == finished;
    assert forall v: nat :: v in finished <==> v < |g|;
    Pigeonhole(finished, |g|);
    CoversAll(finished, |g|);
    DegreesBound(g, finished);
  }

  lemma {:induction false} CoversAll(s: seq<nat>, n: nat)
    requires forall v: nat :: v < n ==> v in s
    ensures |s| >= n
  {
    if n > 0 {
      var m: nat := n - 1;
      assert m in s;
      var k :| 0 <= k < |s| && s[k] == m;
      var t := s[..k] + s[k + 1..];
      assert s == s[..k] + [m] + s[k + 1..];
      forall v: nat | v < m ensures v in t { assert v in s; }
      CoversAll(t, m);
    }
  }

  // ---------------------------------------------------------------- second pass

  /** The second pass after the vertices finished at `i` and later: `done` holds their whole
      components, and is what is marked visited. */
  ghost predicate Collected(g: Adjacency, finished: seq<nat>, i: nat, visited: seq<bool>, done: set<nat>) {
    && |visited| == |g|
    && (forall v: nat :: v in done <==> v < |g| && visited[v])
    && (forall j :: i <= j < |finished| ==> finished[j] in done)
    && (forall x: nat, y: nat :: x in done && y < |g| && Connected(EdgesOf(g), x, y) ==> y in done)
  }

  /** An unvisited vertex that reaches the latest unvisited finisher is in its component. */
  lemma ReachingIsConnected(g: Adjacency, finished: seq<nat>, i: nat, visited: seq<bool>, done: set<nat>, x: nat)
    requires Permutation(finished, |g|) && LateComponents(EdgesOf(g), finished)
    requires i < |finished| && Collected(g, finished, i + 1, visited, done)
    requires x < |g| && x !in done && Reaches(EdgesOf(g), x, finished[i])
    ensures Connected(EdgesOf(g), x, finished[i])
  {
    var e := EdgesOf(g);
    assert HasLate(e, finished, i, x);
    var y: nat :| y !in finished[..i] && Connected(e, x, y);
    if y >= |g| {
      OutsideGraph(g, x, y);
    } else {
      assert forall k :: 0 <= k < i ==> finished[k] in finished[..i];
      assert y in finished;
      var j :| 0 <= j < |finished| && finished[j] == y;
      assert j > i ==> y in done;
    }
  }

  lemma OutsideGraph(g: Adjacency, x: nat, y: nat)
    requires x < |g| && Reaches(EdgesOf(g), x, y)
    ensures y < |g|
  {
    var s := set v, w | 0 <= v < |g| && w in g[v] :: w;
    var inside := s + {x};
    forall a, b | a in inside && (a, b) in EdgesOf(g) ensures b in inside {}
    ClosedSet(EdgesOf(g), inside, x, y);
    if y in s {
      var v, w :| 0 <= v < |g| && w in g[v] && w == y;
      var k :| 0 <= k < |g[v]| && g[v][k] == w;
    }
  }

  /** The order of the components: if `u` reaches `v` but not the other way round, some vertex of
      `u`'s component finished after every vertex of `v`'s. */
  lemma SourceComponentFinishesLater(g: Adjacency, finished: seq<nat>, u: nat, v: nat)
    requires Permutation(finished, |g|) && LateComponents(EdgesOf(g), finished)
    requires u < |g| && v < |g| && Reaches(EdgesOf(g), u, v) && !Reaches(EdgesOf(g), v, u)
    ensures exists k :: 0 <= k < |finished| && Connected(EdgesOf(g), u, finished[k])
                        && forall j :: 0 <= j < |finished| && Connected(EdgesOf(g), v, finished[j]) ==> j < k
  {
    var e := EdgesOf(g);
    ReachSelf(e, v);
    assert v in finished;
    var own :| 0 <= own < |finished| && finished[own] == v;
    var i := LastOfComponent(g, finished, v, |finished|);
    ReachTrans(e, u, v, finished[i]);
    assert HasLate(e, finished, i, u);
    PrefixMembers(finished, i);
    var y: nat :| y !in finished[..i] && Connected(e, u, y);
    OutsideGraph(g, u, y);
    assert y in finished;
    var k :| 0 <= k < |finished| && finished[k] == y;
    if k == i {
      ReachTrans(e, v, y, u);
      assert false;
    }
  }

  lemma PrefixMembers(s: seq<nat>, i: nat)
    requires i <= |s|
    ensures forall k :: 0 <= k < i ==> s[k] in s[..i]
  {
    forall k | 0 <= k < i ensures s[k] in s[..i] { assert s[..i][k] == s[k]; }
  }

  /** The last finisher of a component among the first `n`. */
  lemma {:induction false} LastOfComponent(g: Adjacency, finished: seq<nat>, v: nat, n: nat) returns (i: nat)
    requires n <= |finished| && exists j :: 0 <= j < n && Connected(EdgesOf(g), v, finished[j])
    ensures i < n && Connected(EdgesOf(g), v, finished[i])
    ensures forall j :: 0 <= j < n && Connected(EdgesOf(g), v, finished[j]) ==> j <= i
    decreases n
  {
    i := n - 1;
    if !Connected(EdgesOf(g), v, finished[n - 1]) { i := LastOfComponent(g, finished, v, n - 1); }
  }

  /** The search for one component: everything found so far is new and in `start`'s component. */
  ghost predicate Collecting(g: Adjacency, visited: seq<bool>, done: set<nat>, start: nat, component: seq<nat>,
                             pending: seq<nat>) {
    && |visited| == |g|
    && Distinct(component + pending)
    && InRange(component, |g|) && InRange(pending, |g|)
    && (forall v: nat :: v in component + pending <==> v < |g| && visited[v] && v !in done)
    && (forall v :: v in component + pending ==> Connected(EdgesOf(g), v, start))
    && start in component + pending
  }

  lemma PopNode(g: Adjacency, visited: seq<bool>, done: set<nat>, start: nat, component: seq<nat>, pending: seq<nat>)
    requires Collecting(g, visited, done, start, component, pending) && pending != []
    ensures var node := pending[|pending| - 1];
            node !in component &&
            Collecting(g, visited, done, start, component + [node], pending[..|pending| - 1])
    ensures |component| < |g|
  {
    MoveLast(component, pending);
    var before := component + pending;
    forall k | 0 <= k < |before| ensures before[k] < |g| { assert before[k] in before; }
    Pigeonhole(before, |g|);
  }

  /** Moving the last element of one list to the end of another keeps what the two hold. */
  lemma MoveLast(component: seq<nat>, pending: seq<nat>)
    requires pending != [] && Distinct(component + pending)
    ensures var node, rest := pending[|pending| - 1], pending[..|pending| - 1];
            && node !in component && Distinct((component + [node]) + rest)
            && forall v: nat :: v in component + pending <==> v in (component + [node]) + rest
  {
    var node, n := pending[|pending| - 1], |component|;
    var before, after := component + pending, (component + [node]) + pending[..|pending| - 1];
    assert before[|before| - 1] == node;
    assert forall k :: 0 <= k < n ==> before[k] == component[k];
    assert forall k :: 0 <= k < |after| ==>
      after[k] == before[if k < n then k else if k == n then |before| - 1 else k - 1];
    assert forall k :: 0 <= k < |before| ==>
      before[k] == after[if k < n then k else if k == |before| - 1 then n else k + 1];
  }

  lemma VisitParent(g: Adjacency, finished: seq<nat>, i: nat, visited0: seq<bool>, visited: seq<bool>, done: set<nat>,
                    component: seq<nat>, pending: seq<nat>, node: nat, p: nat)
    requires Permutation(finished, |g|) && LateComponents(EdgesOf(g), finished)
    requires i < |finished| && Collected(g, finished, i + 1, visited0, done)
    requires Collecting(g, visited, done, finished[i], component, pending)
    requires node in component && (p, node) in EdgesOf(g) && !visited[p]
    requires forall v :: 0 <= v < |g| && visited0[v] ==> visited[v]
    ensures Collecting(g, visited[p := true], done, finished[i], component, pending + [p])
  {
    var e := EdgesOf(g);
    ReachEdge(e, p, node);
    assert node in component + pending;
    ReachTrans(e, p, node, finished[i]);
    ReachingIsConnected(g, finished, i, visited0, done, p);
    assert component + (pending + [p]) == (component + pending) + [p];
    assert p !in component + pending;
  }

  /** Once no parent is left to visit, the component is complete. */
  lemma ComponentComplete(g: Adjacency, finished: seq<nat>, i: nat, visited0: seq<bool>, visited: seq<bool>,
                          done: set<nat>, start: nat, component: seq<nat>)
    requires i <= |finished| && Collected(g, finished, i, visited0, done) && start !in done
    requires Collecting(g, visited, done, start, component, [])
    requires forall v :: 0 <= v < |g| && visited0[v] ==> visited[v]
    requires ParentsSeen(g, visited, component)
    ensures forall v: nat :: v in component <==> v < |g| && Connected(EdgesOf(g), v, start)
  {
    var e := EdgesOf(g);
    assert component + [] == component;
    forall v: nat | v < |g| && Connected(e, v, start) ensures v in component {
      if v !in component {
        var s := set x | x in component && Reaches(e, v, x);
        forall a, b | b in s && (a, b) in e && Reaches(e, v, a) ensures a in s {
          if a !in component {
            assert a in done;
            ReachEdge(e, a, b);
            ReachTrans(e, a, b, start);
            ReachTrans(e, start, v, a);
            assert Connected(e, a, start);
          }
        }
        BackwardTo(e, s, v, start);
      }
    }
  }

  /** Walking a path from `v` backward from a member of `s` stays in `s`. */
  lemma BackwardTo(e: Edges<nat>, s: set<nat>, v: nat, start: nat)
    requires start in s && Reaches(e, v, start)
    requires forall a, b :: b in s && (a, b) in e && Reaches(e, v, a) ==> a in s
    ensures v in s
  {
    var p :| Joins(e, p, v, start);
    var k := |p| - 1;
    while k > 0
      invariant 0 <= k < |p| && p[k] in s
    {
      k := k - 1;
      assert (p[k], p[k + 1]) in e;
      assert Joins(e, p[..k + 1], v, p[k]);
    }
  }

  ghost predicate IsReverse(forward: Adjacency, reverse: Adjacency) {
    && |reverse| == |forward|
    && (forall u: nat, v: nat :: v < |reverse| && u in reverse[v] <==> (u, v) in EdgesOf(forward))
  }

  /** The inner loops of the second pass gather exactly one strongly connected component. */
  method CollectComponent(ghost forward: Adjacency, reverse: Adjacency, visited: array<bool>, start: nat,
                          ghost finished: seq<nat>, ghost i: nat, ghost done: set<nat>)
    returns (component: seq<nat>)
    requires IsReverse(forward, reverse)
    requires Permutation(finished, |forward|) && LateComponents(EdgesOf(forward), finished)
    requires i < |finished| && finished[i] == start && start < |forward|
    requires Collected(forward, finished, i + 1, visited[..], done) && !visited[start]
    modifies visited
    ensures Distinct(component) && component != [] && component[0] == start
    ensures forall v: nat :: v in component <==> v < |forward| && Connected(EdgesOf(forward), v, start)
    ensures forall v :: 0 <= v < visited.Length ==> (visited[v] <==> old(visited[v]) || v in component)
  {
    ghost var visited0 := visited[..];
    visited[start] := true;
    var pending: seq<nat> := [start];
    component := [];
    StartCollecting(forward, finished, i, visited0, done);
    assert visited[..] == visited0[start := true];
    while pending != []
      invariant Collecting(forward, visited[..], done, start, component, pending)
      invariant forall v :: 0 <= v < |forward| && visited0[v] ==> visited[v]
      invariant ParentsSeen(forward, visited[..], component)
      invariant if component == [] then pending == [start] else component[0] == start
      decreases |forward| - |component|
    {
      hide *;
      var node := pending[|pending| - 1];
      PopNode(forward, visited[..], done, start, component, pending);
      pending := pending[..|pending| - 1];
      component := component + [node];
      pending := VisitParents(forward, reverse, visited, finished, i, visited0, done, component, node, pending);
    }
    ComponentComplete(forward, finished, i + 1, visited0, visited[..], done, start, component);
    assert component + [] == component;
  }

  ghost predicate ParentsSeen(g: Adjacency, visited: seq<bool>, component: seq<nat>) {
    |visited| == |g| && forall x: nat, p: nat :: x in component && (p, x) in EdgesOf(g) ==> p < |g| && visited[p]
  }

  lemma StartCollecting(g: Adjacency, finished: seq<nat>, i: nat, visited: seq<bool>, done: set<nat>)
    requires i < |finished| && finished[i] < |g|
    requires Collected(g, finished, i + 1, visited, done) && !visited[finished[i]]
    ensures Collecting(g, visited[finished[i] := true], done, finished[i], [], [finished[i]])
    ensures ParentsSeen(g, visited[finished[i] := true], [])
  {
    ReachSelf(EdgesOf(g), finished[i]);
    assert [] + [finished[i]] == [finished[i]];
  }

  /** Push every unseen parent of the vertex just added to the component. */
  method VisitParents(ghost forward: Adjacency, reverse: Adjacency, visited: array<bool>, ghost finished: seq<nat>,
                      ghost i: nat, ghost visited0: seq<bool>, ghost done: set<nat>, ghost component: seq<nat>,
                        node: nat, pending0: seq<nat>)
    returns (pending: seq<nat>)
    requires IsReverse(forward, reverse)
    requires Permutation(finished, |forward|) && LateComponents(EdgesOf(forward), finished)
    requires i < |finished| && Collected(forward, finished, i + 1, visited0, done)
    requires component != [] && component[|component| - 1] == node < |forward| && visited.Length == |forward|
    requires Collecting(forward, visited[..], done, finished[i], component, pending0)
    requires forall v :: 0 <= v < |forward| && visited0[v] ==> visited[v]
    requires ParentsSeen(forward, visited[..], component[..|component| - 1])
    modifies visited
    ensures Collecting(forward, visited[..], done, finished[i], component, pending)
    ensures forall v :: 0 <= v < |forward| && visited0[v] ==> visited[v]
    ensures ParentsSeen(forward, visited[..], component)
  {
    pending := pending0;
    ghost var before := visited[..];
    for k := 0 to |reverse[node]|
      invariant Collecting(forward, visited[..], done, finished[i], component, pending)
      invariant forall v :: 0 <= v < |forward| && before[v] ==> visited[v]
      invariant forall j :: 0 <= j < k ==> visited[reverse[node][j]]
    {
      var parent := reverse[node][k];
      assert parent in reverse[node];
      assert (parent, node) in EdgesOf(forward);
      if !visited[parent] {
        hide *;
        VisitParent(forward, finished, i, visited0, visited[..], done, component, pending, node, parent);
        ghost var seen := visited[..];
        visited[parent] := true;
        assert visited[..] == seen[parent := true];
        pending := pending + [parent];
      }
    }
    forall x: nat, p: nat | x in component && (p, x) in EdgesOf(forward) ensures p < |forward| && visited[p] {
      if x == node {
        assert p in reverse[node];
        var j :| 0 <= j < |reverse[node]| && reverse[node][j] == p;
      } else {
        assert x in component[..|component| - 1];
      }
    }
  }

  /** A component of the graph carries cycles when it has two vertices or a self-loop, and then
      every vertex of it is on one. */
  lemma ComponentCyclic(g: Adjacency, start: nat, component: seq<nat>)
    requires start < |g| && Distinct(component) && component != [] && component[0] == start
    requires forall v: nat :: v in component <==> v < |g| && Connected(EdgesOf(g), v, start)
    ensures forall v :: v in component ==> (OnCycle(EdgesOf(g), v) <==> |component| > 1 || start in g[start])
  {
    hide Reaches, OnCycle;
    var e := EdgesOf(g);
    ReachSelf(e, start);
    forall v | v in component ensures OnCycle(e, v) <==> |component| > 1 || start in g[start] {
      CycleByEdge(e, v);
      if |component| > 1 {
        var u := if v == start then component[1] else component[0];
        assert u in component && u != v;
        ConnectedTrans(e, v, start, u);
        ConnectedPairOnCycle(e, v, u);
      } else {
        assert v == component[0];
        if w: nat :| (v, w) in e && Reaches(e, w, v) {
          ReachEdge(e, v, w);
          OutsideGraph(g, v, w);
          assert w in component;
        }
      }
    }
  }

  lemma CollectedGrows(g: Adjacency, finished: seq<nat>, i: nat, visited0: seq<bool>, visited: seq<bool>,
                       done: set<nat>, component: seq<nat>)
    requires i < |finished| && finished[i] < |g| && Collected(g, finished, i + 1, visited0, done)
    requires |visited| == |visited0|
    requires forall v: nat :: v in component <==> v < |g| && Connected(EdgesOf(g), v, finished[i])
    requires forall v :: 0 <= v < |visited| ==> (visited[v] <==> visited0[v] || v in component)
    ensures Collected(g, finished, i, visited, done + set v | v in component)
  {
    var e := EdgesOf(g);
    ReachSelf(e, finished[i]);
    forall x: nat, y: nat | x in component && y < |g| && Connected(e, x, y) ensures y in component {
      ConnectedTrans(e, y, x, finished[i]);
    }
  }

  /** Second pass: over `reverse`, latest finisher first, keeping the cyclic components. */
  method CyclicVertices(forward: Adjacency, reverse: Adjacency, visited: array<bool>, finished: seq<nat>)
    returns (cyclic: seq<nat>)
    requires IsReverse(forward, reverse)
    requires Permutation(finished, |forward|) && LateComponents(EdgesOf(forward), finished)
    requires visited.Length == |forward| && forall v :: 0 <= v < |forward| ==> !visited[v]
    modifies visited
    ensures Distinct(cyclic)
    ensures forall v: nat :: v in cyclic <==> v < |forward| && OnCycle(EdgesOf(forward), v)
  {
    hide Connected, OnCycle, Reaches;
    cyclic := [];
    ghost var done: set<nat> := {};
    for i := |finished| downto 0
      invariant visited.Length == |forward| && Collected(forward, finished, i, visited[..], done)
      invariant Distinct(cyclic)
      invariant forall v: nat :: v in cyclic <==> v in done && OnCycle(EdgesOf(forward), v)
    {
      var start := finished[i];
      assert start in finished;
      if visited[start] { continue; }
      ghost var visited0 := visited[..];
      var component := CollectComponent(forward, reverse, visited, start, finished, i, done);
      CollectedGrows(forward, finished, i, visited0, visited[..], done, component);
      ComponentCyclic(forward, start, component);
      ghost var cyclic0 := cyclic;
      if |component| > 1 || start in forward[start] {
        NewComponent(forward, visited0, done, component, start);
        assert forall v: nat :: v in cyclic + component <==> v in cyclic || v in component;
        DisjointConcat(cyclic, component);
        cyclic := cyclic + component;
      }
      done := done + set v | v in component;
    }
    forall v: nat | v < |forward| ensures v in done {
      assert v in finished;
      var j :| 0 <= j < |finished| && finished[j] == v;
    }
  }

  lemma DisjointConcat<T>(s: seq<T>, t: seq<T>)
    requires Distinct(s) && Distinct(t) && forall v :: v in t ==> v !in s
    ensures Distinct(s + t)
  {
    forall i, j | 0 <= i < j < |s + t| ensures (s + t)[i] != (s + t)[j] {
      if i < |s| && |s| <= j { assert t[j - |s|] in t; }
    }
  }

  lemma NewComponent(g: Adjacency, visited: seq<bool>, done: set<nat>, component: seq<nat>, start: nat)
    requires start < |g| && |visited| == |g| && !visited[start]
    requires forall v: nat :: v in done <==> v < |g| && visited[v]
    requires forall x: nat, y: nat :: x in done && y < |g| && Connected(EdgesOf(g), x, y) ==> y in done
    requires forall v: nat :: v in component <==> v < |g| && Connected(EdgesOf(g), v, start)
    ensures forall v :: v in component ==> v !in done
  {
  }

  // ---------------------------------------------------------------- the whole function

  type Containment = map<string, seq<string>>

  /** Every containment edge, parent to child. */
  ghost function ContainsEdges(contains: Containment): Edges<string> {
    set from, to | from in contains && to in contains[from] :: (from, to)
  }

  function Ids(contains: Containment): set<string> {
    contains.Keys + set from, to | from in contains && to in contains[from] :: to
  }

  ghost predicate IsIndex(ids: seq<string>, index: map<string, nat>) {
    && (forall i :: 0 <= i < |ids| ==> ids[i] in index && index[ids[i]] == i)
    && (forall id :: id in index ==> index[id] < |ids| && ids[index[id]] == id)
  }

  /** Edges of `forward` for the parents in `seen`, and for the first `j` children of `from`. */
  ghost predicate Mirrors(contains: Containment, ids: seq<string>, seen: set<string>, from: string, j: nat,
                          forward: seq<seq<nat>>, reverse: seq<seq<nat>>)
    requires from in contains ==> j <= |contains[from]|
  {
    && |forward| == |ids| && |reverse| == |ids|
    && (forall u, v :: 0 <= u < |ids| && v in forward[u] ==> v < |ids|)
    && (forall u, v :: 0 <= v < |ids| && u in reverse[v] ==> u < |ids|)
    && (forall u, v :: 0 <= u < |ids| && 0 <= v < |ids| ==>
          (v in forward[u] <==> Linked(contains, ids, seen, from, j, u, v)))
    && (forall u, v :: 0 <= u < |ids| && 0 <= v < |ids| ==>
          (u in reverse[v] <==> Linked(contains, ids, seen, from, j, u, v)))
  }

  ghost predicate Linked(contains: Containment, ids: seq<string>, seen: set<string>, from: string, j: nat, u: nat,
                         v: nat)
    requires u < |ids| && v < |ids|
    requires from in contains ==> j <= |contains[from]|
  {
    || (ids[u] in seen && ids[u] in contains && ids[v] in contains[ids[u]])
    || (ids[u] == from && from in contains && ids[v] in contains[from][..j])
  }

  lemma LinkEdge(contains: Containment, ids: seq<string>, seen: set<string>, from: string, j: nat,
                 forward: seq<seq<nat>>, reverse: seq<seq<nat>>, u: nat, v: nat)
    requires from in contains && j < |contains[from]|
    requires Distinct(ids) && u < |ids| && v < |ids| && ids[u] == from && ids[v] == contains[from][j]
    requires Mirrors(contains, ids, seen, from, j, forward, reverse)
    ensures Mirrors(contains, ids, seen, from, j + 1, forward[u := forward[u] + [v]], reverse[v := reverse[v] + [u]])
  {
    assert contains[from][..j + 1] == contains[from][..j] + [contains[from][j]];
    forall a, b | 0 <= a < |ids| && 0 <= b < |ids|
      ensures Linked(contains, ids, seen, from, j + 1, a, b)
              <==> Linked(contains, ids, seen, from, j, a, b) || (a == u && b == v) {}
  }

  lemma NextParent(contains: Containment, ids: seq<string>, seen: set<string>, from: string,
                   forward: seq<seq<nat>>, reverse: seq<seq<nat>>)
    requires from in contains
    requires Mirrors(contains, ids, seen, from, |contains[from]|, forward, reverse)
    ensures Mirrors(contains, ids, seen + {from}, "", 0, forward, reverse)
  {
    assert contains[from][..|contains[from]|] == contains[from];
    forall a, b | 0 <= a < |ids| && 0 <= b < |ids|
      ensures Linked(contains, ids, seen + {from}, "", 0, a, b)
              <==> Linked(contains, ids, seen, from, |contains[from]|, a, b) {}
  }

  lemma Mirrored(contains: Containment, ids: seq<string>, forward: seq<seq<nat>>, reverse: seq<seq<nat>>)
    requires Mirrors(contains, ids, contains.Keys, "", 0, forward, reverse)
    ensures forall u, k :: 0 <= u < |forward| && 0 <= k < |forward[u]| ==> forward[u][k] < |forward|
    ensures forall v, k :: 0 <= v < |reverse| && 0 <= k < |reverse[v]| ==> reverse[v][k] < |reverse|
    ensures IsReverse(forward, reverse)
    ensures forall u, v :: 0 <= u < |ids| && 0 <= v < |ids| ==>
              ((u, v) in EdgesOf(forward) <==> (ids[u], ids[v]) in ContainsEdges(contains))
  {
    forall u, k | 0 <= u < |forward| && 0 <= k < |forward[u]| ensures forward[u][k] < |forward| {
      assert forward[u][k] in forward[u];
    }
    forall v, k | 0 <= v < |reverse| && 0 <= k < |reverse[v]| ensures reverse[v][k] < |reverse| {
      assert reverse[v][k] in reverse[v];
    }
  }

  /** Forward and reverse adjacency vectors over the sorted vertex ids. */
  method BuildAdjacency(contains: Containment) returns (ids: seq<string>, forward: Adjacency, reverse: Adjacency)
    ensures ids == InOrder(Ids(contains)) && |forward| == |ids|
    ensures IsReverse(forward, reverse)
    ensures forall u, v :: 0 <= u < |ids| && 0 <= v < |ids| ==>
              ((u, v) in EdgesOf(forward) <==> (ids[u], ids[v]) in ContainsEdges(contains))
  {
    hide *;
    ids := InOrder(Ids(contains));
    var index := BuildIndex(ids);
    var out := new seq<nat>[|ids|](_ => []);
    var into := new seq<nat>[|ids|](_ => []);
    var parents := InOrder(contains.Keys);
    ghost var seen: set<string> := {};
    NothingMirrored(contains, ids, out[..], into[..]);
    DistinctIds(ids);
    for p := 0 to |parents|
      invariant seen == set k | 0 <= k < p :: parents[k]
      invariant out.Length == |ids| && into.Length == |ids|
      invariant Mirrors(contains, ids, seen, "", 0, out[..], into[..])
    {
      var from := parents[p];
      assert from in parents;
      ParentListed(contains, from);
      var targets := contains[from];
      var u := index[from];
      SwitchParent(contains, ids, seen, from, out[..], into[..]);
      for j := 0 to |targets|
        invariant Mirrors(contains, ids, seen, from, j, out[..], into[..])
      {
        ChildListed(contains, from, j);
        var v := index[targets[j]];
        ghost var before, behind := out[..], into[..];
        LinkEdge(contains, ids, seen, from, j, before, behind, u, v);
        out[u] := out[u] + [v];
        into[v] := into[v] + [u];
        assert out[..] == before[u := before[u] + [v]];
        assert into[..] == behind[v := behind[v] + [u]];
      }
      NextParent(contains, ids, seen, from, out[..], into[..]);
      seen := seen + {from};
    }
    assert seen == contains.Keys by {
      forall k | k in contains.Keys ensures k in seen { assert k in parents; }
    }
    Mirrored(contains, ids, out[..], into[..]);
    forward, reverse := out[..], into[..];
  }

  method BuildIndex(ids: seq<string>) returns (index: map<string, nat>)
    requires StrictlySorted(ids, StrKey)
    ensures forall id :: id in ids <==> id in index
    ensures forall id :: id in index ==> index[id] < |ids| && ids[index[id]] == id
  {
    index := map[];
    for i := 0 to |ids|
      invariant forall k :: 0 <= k < i ==> ids[k] in index
      invariant forall id :: id in index ==> index[id] < i && ids[index[id]] == id
    {
      index := index[ids[i] := i];
    }
  }

  lemma DistinctIds(ids: seq<string>)
    requires StrictlySorted(ids, StrKey)
    ensures Distinct(ids)
  {
  }

  lemma ParentListed(contains: Containment, from: string)
    requires from in contains
    ensures from in InOrder(Ids(contains))
  {
  }

  lemma ChildListed(contains: Containment, from: string, j: nat)
    requires from in contains && j < |contains[from]|
    ensures contains[from][j] in InOrder(Ids(contains))
  {
    assert contains[from][j] in contains[from];
    assert contains[from][j] in Ids(contains);
  }

  lemma NothingMirrored(contains: Containment, ids: seq<string>, forward: seq<seq<nat>>, reverse: seq<seq<nat>>)
    requires |forward| == |ids| == |reverse|
    requires forall k :: 0 <= k < |ids| ==> forward[k] == [] && reverse[k] == []
    ensures Mirrors(contains, ids, {}, "", 0, forward, reverse)
  {
  }

  lemma SwitchParent(contains: Containment, ids: seq<string>, seen: set<string>, from: string,
                     forward: seq<seq<nat>>, reverse: seq<seq<nat>>)
    requires Mirrors(contains, ids, seen, "", 0, forward, reverse)
    ensures Mirrors(contains, ids, seen, from, 0, forward, reverse)
  {
    forall a, b | 0 <= a < |ids| && 0 <= b < |ids|
      ensures Linked(contains, ids, seen, from, 0, a, b) <==> Linked(contains, ids, seen, "", 0, a, b) {}
  }

  ghost function NameOf(ids: seq<string>, v: nat): string {
    if v < |ids| then ids[v] else ""
  }

  ghost function PositionOf(ids: seq<string>, id: string): (v: nat)
    ensures id in ids ==> v < |ids| && ids[v] == id
  {
    if id in ids then var v: nat :| v < |ids| && ids[v] == id; v else 0
  }

  ghost predicate SameEdges(contains: Containment, ids: seq<string>, g: Adjacency) {
    && ids == InOrder(Ids(contains)) && |g| == |ids|
    && (forall u, v :: 0 <= u < |ids| && 0 <= v < |ids| ==>
          ((u, v) in EdgesOf(g) <==> (ids[u], ids[v]) in ContainsEdges(contains)))
  }

  lemma EdgesToNames(contains: Containment, ids: seq<string>, g: Adjacency)
    requires SameEdges(contains, ids, g)
    ensures forall a: nat, b: nat :: (a, b) in EdgesOf(g) ==>
            (NameOf(ids, a), NameOf(ids, b)) in ContainsEdges(contains)
  {
    forall a: nat, b: nat | (a, b) in EdgesOf(g) ensures (NameOf(ids, a), NameOf(ids, b)) in ContainsEdges(contains) {
      var k :| 0 <= k < |g[a]| && g[a][k] == b;
    }
  }

  lemma EdgesToPositions(contains: Containment, ids: seq<string>, g: Adjacency)
    requires SameEdges(contains, ids, g)
    ensures forall a, b :: (a, b) in ContainsEdges(contains) ==>
              a in ids && (PositionOf(ids, a), PositionOf(ids, b)) in EdgesOf(g)
  {
    forall a, b | (a, b) in ContainsEdges(contains)
      ensures a in ids && (PositionOf(ids, a), PositionOf(ids, b)) in EdgesOf(g)
    {
      assert a in Ids(contains) && b in Ids(contains);
      assert a in ids && b in ids;
    }
  }

  lemma CycleToName(contains: Containment, ids: seq<string>, g: Adjacency, v: nat)
    requires SameEdges(contains, ids, g) && OnCycle(EdgesOf(g), v)
    ensures OnCycle(ContainsEdges(contains), NameOf(ids, v))
    ensures v < |ids| ==> OnCycle(ContainsEdges(contains), ids[v])
  {
    EdgesToNames(contains, ids, g);
    assert v < |ids| ==> NameOf(ids, v) == ids[v];
    hide *;
    CycleMaps(EdgesOf(g), ContainsEdges(contains), (a: nat) => NameOf(ids, a), v);
  }

  lemma CycleToPosition(contains: Containment, ids: seq<string>, g: Adjacency, id: string)
    requires SameEdges(contains, ids, g) && OnCycle(ContainsEdges(contains), id)
    ensures id in ids && OnCycle(EdgesOf(g), PositionOf(ids, id)) && PositionOf(ids, id) < |g|
  {
    EdgesToPositions(contains, ids, g);
    assert |ids| == |g|;
    hide *;
    CycleByEdge(ContainsEdges(contains), id);
    CycleMaps(ContainsEdges(contains), EdgesOf(g), a => PositionOf(ids, a), id);
  }

  /** The vertices of containment cycles, each exactly once. */
  method ContainmentCycles(contains: Containment) returns (cyclic: seq<string>)
    ensures Distinct(cyclic)
    ensures forall id :: id in cyclic <==> OnCycle(ContainsEdges(contains), id)
  {
    hide OnCycle, EdgesOf, Ids, InOrder;
    var ids, forward, reverse := BuildAdjacency(contains);
    var visited := new bool[|ids|](_ => false);
    var finished, _ := FinishOrder(forward, visited);
    forall v | 0 <= v < visited.Length { visited[v] := false; }
    var vertices := CyclicVertices(forward, reverse, visited, finished);
    cyclic := NamesOf(contains, ids, forward, vertices);
  }

  method NamesOf(contains: Containment, ids: seq<string>, ghost g: Adjacency, vertices: seq<nat>)
    returns (cyclic: seq<string>)
    requires SameEdges(contains, ids, g) && Distinct(vertices) && |ids| == |g|
    requires forall v: nat :: v in vertices <==> v < |g| && OnCycle(EdgesOf(g), v)
    ensures Distinct(cyclic)
    ensures forall id :: id in cyclic <==> OnCycle(ContainsEdges(contains), id)
  {
    cyclic := [];
    for k := 0 to |vertices|
      invariant |cyclic| == k
      invariant forall j :: 0 <= j < k ==> vertices[j] < |ids| && cyclic[j] == ids[vertices[j]]
    {
      assert vertices[k] in vertices;
      cyclic := cyclic + [ids[vertices[k]]];
    }
    DistinctNames(ids, vertices, cyclic);
    hide *;
    forall id ensures id in cyclic <==> OnCycle(ContainsEdges(contains), id) {
      CyclicName(contains, ids, g, vertices, cyclic, id);
    }
  }

  ghost predicate Renamed(ids: seq<string>, vertices: seq<nat>, cyclic: seq<string>) {
    |cyclic| == |vertices| && forall k :: 0 <= k < |vertices| ==> vertices[k] < |ids| && cyclic[k] == ids[vertices[k]]
  }

  lemma DistinctNames(ids: seq<string>, vertices: seq<nat>, cyclic: seq<string>)
    requires StrictlySorted(ids, StrKey) && Distinct(vertices) && Renamed(ids, vertices, cyclic)
    ensures Distinct(cyclic)
  {
    DistinctIds(ids);
  }

  lemma CyclicName(contains: Containment, ids: seq<string>, g: Adjacency, vertices: seq<nat>, cyclic: seq<string>,
                   id: string)
    requires SameEdges(contains, ids, g) && Renamed(ids, vertices, cyclic)
    requires forall v: nat :: v in vertices <==> v < |g| && OnCycle(EdgesOf(g), v)
    ensures id in cyclic <==> OnCycle(ContainsEdges(contains), id)
  {
    if OnCycle(ContainsEdges(contains), id) {
      CycleToPosition(contains, ids, g, id);
      var v := PositionOf(ids, id);
      hide *;
      assert v in vertices;
      FindName(ids, vertices, cyclic, v);
    } else if id in cyclic {
      var k :| 0 <= k < |cyclic| && cyclic[k] == id;
      var v := vertices[k];
      hide *;
      assert v in vertices;
      CycleToName(contains, ids, g, v);
    }
  }

  lemma FindName(ids: seq<string>, vertices: seq<nat>, cyclic: seq<string>, v: nat)
    requires v in vertices && v < |ids| && Renamed(ids, vertices, cyclic)
    ensures ids[v] in cyclic
  {
    var k :| 0 <= k < |vertices| && vertices[k] == v;
    assert cyclic[k] == ids[v];
  }
}
