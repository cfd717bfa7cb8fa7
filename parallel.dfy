/**
 * The graph traversal of src/parallel.c: a recursive depth-first walk that
 * claims each node once through a three-state visitation array and adds the
 * node's payload to a shared accumulator when the node is completed.
 *
 * The traversal runs inside one pool task, so it is one sequential recursion;
 * the graph mutex is left out.
 */
module Parallel {

  /** Visitation state of one node: NOT_VISITED, PROCESSING, DONE. */
  datatype State = NotVisited | Processing | Done

  /** A node as the graph loader hands it over: its id, payload and adjacency list. */
  datatype Node = Node(id: nat, info: int, neighbours: seq<nat>)

  /** Every neighbour index names a node of the graph. */
  predicate WellFormed(nodes: seq<Node>)
  {
    forall i, k :: 0 <= i < |nodes| && 0 <= k < |nodes[i].neighbours| ==> nodes[i].neighbours[k] < |nodes|
  }

  // ---------------------------------------------------------------------------
  // Reachability

  /** p is a non-empty walk along the edges of the graph. */
  ghost predicate IsPath(nodes: seq<Node>, p: seq<nat>)
  {
    && |p| > 0
    && (forall k :: 0 <= k < |p| ==> p[k] < |nodes|)
    && (forall k :: 0 <= k < |p| - 1 ==> p[k + 1] in nodes[p[k]].neighbours)
  }

  ghost predicate Reachable(nodes: seq<Node>, source: nat, target: nat)
  {
    exists p :: IsPath(nodes, p) && p[0] == source && p[|p| - 1] == target
  }

  /** The nodes reachable from root, root included. */
  ghost function ReachableFrom(nodes: seq<Node>, root: nat): set<nat>
  {
    set i | 0 <= i < |nodes| && Reachable(nodes, root, i)
  }

  /** target is reachable from source along a path that stays inside allowed. */
  ghost predicate ReachableVia(nodes: seq<Node>, allowed: set<nat>, source: nat, target: nat)
  {
    exists p :: IsPath(nodes, p) && (forall k :: 0 <= k < |p| ==> p[k] in allowed) && p[0] == source && p[|p| - 1] == target
  }

  /** A path inside allowed is a path, and stays a path inside any larger set. */
  lemma ReachableViaWiden(nodes: seq<Node>, allowed: set<nat>, wider: set<nat>, source: nat, target: nat)
    requires allowed <= wider
    requires ReachableVia(nodes, allowed, source, target)
    ensures ReachableVia(nodes, wider, source, target)
    ensures Reachable(nodes, source, target)
  {
    var p :| IsPath(nodes, p) && (forall k :: 0 <= k < |p| ==> p[k] in allowed) && p[0] == source && p[|p| - 1] == target;
    assert forall k :: 0 <= k < |p| ==> p[k] in wider;
  }

  /** Every allowed node is reachable from itself by the one-node path. */
  lemma ReachableSelf(nodes: seq<Node>, allowed: set<nat>, i: nat)
    requires i < |nodes| && i in allowed
    ensures ReachableVia(nodes, allowed, i, i)
  {
    assert IsPath(nodes, [i]);
  }

  /** Whatever a neighbour reaches inside allowed, an allowed node reaches too. */
  lemma ReachableThroughNeighbour(nodes: seq<Node>, allowed: set<nat>, i: nat, k: nat, target: nat)
    requires i < |nodes| && i in allowed && k < |nodes[i].neighbours|
    requires ReachableVia(nodes, allowed, nodes[i].neighbours[k], target)
    ensures ReachableVia(nodes, allowed, i, target)
  {
    var p :| IsPath(nodes, p) && (forall k :: 0 <= k < |p| ==> p[k] in allowed) && p[0] == nodes[i].neighbours[k] && p[|p| - 1] == target;
    var q := [i] + p;
    assert forall j :: 1 <= j < |q| ==> q[j] == p[j - 1];
    assert IsPath(nodes, q);
    assert forall j :: 0 <= j < |q| ==> q[j] in allowed;
  }

  /** A set that holds root and is closed under edges holds every node reachable from root. */
  lemma {:induction false} ReachableWithinClosed(nodes: seq<Node>, root: nat, s: set<nat>)
    requires root in s
    requires forall i, k :: i in s && 0 <= i < |nodes| && 0 <= k < |nodes[i].neighbours| ==> nodes[i].neighbours[k] in s
    ensures ReachableFrom(nodes, root) <= s
  {
    forall t | t in ReachableFrom(nodes, root)
      ensures t in s
    {
      var p :| IsPath(nodes, p) && p[0] == root && p[|p| - 1] == t;
      PathWithinClosed(nodes, p, s, |p| - 1);
    }
  }

  lemma {:induction false} PathWithinClosed(nodes: seq<Node>, p: seq<nat>, s: set<nat>, k: nat)
    requires IsPath(nodes, p) && p[0] in s && k < |p|
    requires forall i, k :: i in s && 0 <= i < |nodes| && 0 <= k < |nodes[i].neighbours| ==> nodes[i].neighbours[k] in s
    ensures p[k] in s
  {
    if k > 0 {
      PathWithinClosed(nodes, p, s, k - 1);
      var n := nodes[p[k - 1]].neighbours;
      assert p[(k - 1) + 1] in n;
      var j :| 0 <= j < |n| && n[j] == p[k];
    }
  }

  // ---------------------------------------------------------------------------
  // Payload sums

  /** Sum of the payloads of the nodes below n that lie in s. */
  function SumInfo(nodes: seq<Node>, s: set<nat>, n: nat): int
    requires n <= |nodes|
  {
    if n == 0 then 0
    else SumInfo(nodes, s, n - 1) + (if n - 1 in s then nodes[n - 1].info else 0)
  }

  /** Sum of the payloads of the nodes in s, each counted once. */
  function TotalInfo(nodes: seq<Node>, s: set<nat>): int
  {
    SumInfo(nodes, s, |nodes|)
  }

  lemma {:induction false} SumInfoEmpty(nodes: seq<Node>, n: nat)
    requires n <= |nodes|
    ensures SumInfo(nodes, {}, n) == 0
  {
    if n > 0 { SumInfoEmpty(nodes, n - 1); }
  }

  /** Adding one node not yet in s adds its payload once; adding one already in s adds nothing. */
  lemma {:induction false} SumInfoInsert(nodes: seq<Node>, s: set<nat>, x: nat, n: nat)
    requires n <= |nodes|
    ensures SumInfo(nodes, s + {x}, n) == SumInfo(nodes, s, n) + (if x < n && x !in s then nodes[x].info else 0)
  {
    if n > 0 { SumInfoInsert(nodes, s, x, n - 1); }
  }

  /** The sum over a disjoint union is the sum of the sums. */
  lemma {:induction false} SumInfoUnion(nodes: seq<Node>, a: set<nat>, b: set<nat>, n: nat)
    requires n <= |nodes| && a !! b
    ensures SumInfo(nodes, a + b, n) == SumInfo(nodes, a, n) + SumInfo(nodes, b, n)
  {
    if n > 0 { SumInfoUnion(nodes, a, b, n - 1); }
  }

  // ---------------------------------------------------------------------------
  // Visitation states

  /** States only move forward: an entry either keeps its state or goes from NOT_VISITED straight to DONE. */
  predicate Advances(before: seq<State>, after: seq<State>)
  {
    && |before| == |after|
    && forall i :: 0 <= i < |before| ==> before[i] == after[i] || (before[i] == NotVisited && after[i] == Done)
  }

  /** The nodes that went from NOT_VISITED to DONE: those whose payload was added. */
  function Settled(before: seq<State>, after: seq<State>): set<nat>
    requires |before| == |after|
  {
    set i | 0 <= i < |before| && before[i] == NotVisited && after[i] == Done
  }

  function NotVisitedSet(v: seq<State>): set<nat>
  {
    set i | 0 <= i < |v| && v[i] == NotVisited
  }

  /** Every node of s has no NOT_VISITED neighbour in v. */
  ghost predicate ClosedOn(nodes: seq<Node>, v: seq<State>, s: set<nat>)
  {
    forall i, k :: i in s && 0 <= i < |nodes| && 0 <= k < |nodes[i].neighbours| ==>
      nodes[i].neighbours[k] < |v| && v[nodes[i].neighbours[k]] != NotVisited
  }

  lemma SettledCompose(a: seq<State>, b: seq<State>, c: seq<State>)
    requires Advances(a, b) && Advances(b, c)
    ensures Advances(a, c)
    ensures Settled(a, c) == Settled(a, b) + Settled(b, c)
    ensures Settled(a, b) !! Settled(b, c)
  {
  }

  /** From an all-NOT_VISITED start the nodes settled by an advance that completed root, stayed reachable
      from it and left no settled node with a NOT_VISITED neighbour are exactly those reachable from root. */
  lemma {:induction false} SettledIsReachable(nodes: seq<Node>, v0: seq<State>, v: seq<State>, root: nat)
    requires |v0| == |nodes| && root < |nodes|
    requires forall i :: 0 <= i < |v0| ==> v0[i] == NotVisited
    requires Advances(v0, v) && v[root] == Done
    requires forall i :: i in Settled(v0, v) ==> Reachable(nodes, root, i)
    requires ClosedOn(nodes, v, Settled(v0, v))
    ensures Settled(v0, v) == ReachableFrom(nodes, root)
  {
    var s := Settled(v0, v);
    forall i, k | i in s && 0 <= i < |nodes| && 0 <= k < |nodes[i].neighbours|
      ensures nodes[i].neighbours[k] in s
    {
      var j := nodes[i].neighbours[k];
      assert v[j] != NotVisited;
    }
    ReachableWithinClosed(nodes, root, s);
  }

  // ---------------------------------------------------------------------------
  // The traversal

  /** The graph with its visitation array and the global accumulator sum. */
  class GraphTraversal {
    const nodes: seq<Node>
    const visited: array<State>
    var sum: int

    ghost predicate Valid()
      reads this
    {
      WellFormed(nodes) && visited.Length == |nodes|
    }

    /** The state the loader and the program's globals start with: every node NOT_VISITED, sum zero. */
    constructor (nodes: seq<Node>)
      requires WellFormed(nodes)
      ensures Valid() && this.nodes == nodes && fresh(visited)
      ensures forall i :: 0 <= i < visited.Length ==> visited[i] == NotVisited
      ensures sum == 0
    {
      this.nodes := nodes;
      visited := new State[|nodes|](_ => NotVisited);
      sum := 0;
    }

    /** process_node: claim idx if NOT_VISITED, visit its neighbours, then complete it and add its payload. */
    method ProcessNode(idx: nat)
      requires Valid() && idx < |nodes|
      modifies this, visited
      ensures Advances(old(visited[..]), visited[..])
      ensures old(visited[idx]) != NotVisited ==> visited[..] == old(visited[..]) && sum == old(sum)
      ensures old(visited[idx]) == NotVisited ==> visited[idx] == Done
      ensures sum == old(sum) + TotalInfo(nodes, Settled(old(visited[..]), visited[..]))
      ensures forall i :: i in Settled(old(visited[..]), visited[..]) ==>
        ReachableVia(nodes, NotVisitedSet(old(visited[..])), idx, i)
      ensures ClosedOn(nodes, visited[..], Settled(old(visited[..]), visited[..]))
      decreases NotVisitedSet(visited[..])
    {
      ghost var start := visited[..];
      if visited[idx] == NotVisited {
        visited[idx] := Processing;
        ghost var claimed := visited[..];
        ghost var sumClaimed := sum;
        assert Settled(claimed, claimed) == {};
        assert idx in NotVisitedSet(start) - NotVisitedSet(claimed);
        SumInfoEmpty(nodes, |nodes|);
        var node := nodes[idx];
        for i := 0 to |node.neighbours|
          invariant Advances(claimed, visited[..])
          invariant NotVisitedSet(visited[..]) <= NotVisitedSet(claimed) < NotVisitedSet(start)
          invariant sum == sumClaimed + TotalInfo(nodes, Settled(claimed, visited[..]))
          invariant forall j :: j in Settled(claimed, visited[..]) ==> ReachableVia(nodes, NotVisitedSet(start), idx, j)
          invariant ClosedOn(nodes, visited[..], Settled(claimed, visited[..]))
          invariant forall k :: 0 <= k < i ==> visited[node.neighbours[k]] != NotVisited
        {
          ghost var before := visited[..];
          ghost var sumBefore := sum;
          ProcessNode(node.neighbours[i]);
          SettledCompose(claimed, before, visited[..]);
          SumInfoUnion(nodes, Settled(claimed, before), Settled(before, visited[..]), |nodes|);
          forall j | j in Settled(before, visited[..])
            ensures ReachableVia(nodes, NotVisitedSet(start), idx, j)
          {
            ReachableViaWiden(nodes, NotVisitedSet(before), NotVisitedSet(start), node.neighbours[i], j);
            ReachableThroughNeighbour(nodes, NotVisitedSet(start), idx, i, j);
          }
        }
        ghost var finished := visited[..];
        visited[idx] := Done;
        sum := sum + node.info;
        assert Settled(start, visited[..]) == Settled(claimed, finished) + {idx};
        SumInfoInsert(nodes, Settled(claimed, finished), idx, |nodes|);
        ReachableSelf(nodes, NotVisitedSet(start), idx);
      } else {
        assert Settled(start, start) == {};
        SumInfoEmpty(nodes, |nodes|);
      }
    }

    /** graph_task: run the traversal from the node its argument names. */
    method GraphTask(idx: nat)
      requires Valid() && idx < |nodes|
      modifies this, visited
      ensures Advances(old(visited[..]), visited[..])
      ensures sum == old(sum) + TotalInfo(nodes, Settled(old(visited[..]), visited[..]))
      ensures (forall i :: 0 <= i < visited.Length ==> old(visited[i]) == NotVisited) ==>
        && sum == old(sum) + TotalInfo(nodes, ReachableFrom(nodes, idx))
        && (forall i :: 0 <= i < visited.Length ==> visited[i] != Processing)
        && (forall i :: 0 <= i < visited.Length ==> (visited[i] == Done <==> Reachable(nodes, idx, i)))
    {
      ghost var start := visited[..];
      ProcessNode(idx);
      if forall i :: 0 <= i < visited.Length ==> start[i] == NotVisited {
        forall i | i in Settled(start, visited[..])
          ensures Reachable(nodes, idx, i)
        {
          ReachableViaWiden(nodes, NotVisitedSet(start), NotVisitedSet(start), idx, i);
        }
        SettledIsReachable(nodes, start, visited[..], idx);
        forall i | 0 <= i < visited.Length
          ensures visited[i] == Done <==> Reachable(nodes, idx, i)
        {
          assert i in Settled(start, visited[..]) <==> visited[i] == Done;
        }
      }
    }
  }

  // ---------------------------------------------------------------------------
  // Worked graphs

  /** The diamond 0 -> {1, 2}, 1 -> {3}, 2 -> {3} with payloads 1, 2, 3, 4. */
  function DiamondGraph(): seq<Node>
  {
    [Node(0, 1, [1, 2]), Node(1, 2, [3]), Node(2, 3, [3]), Node(3, 4, [])]
  }

  lemma DiamondReachable()
    ensures ReachableFrom(DiamondGraph(), 0) == {0, 1, 2, 3}
  {
    var g := DiamondGraph();
    assert IsPath(g, [0]) && IsPath(g, [0, 1]) && IsPath(g, [0, 2]) && IsPath(g, [0, 1, 3]);
  }

  /** On the diamond the walk from node 0 counts node 3 once despite its two incoming paths. */
  method DiamondSum() returns (total: int)
    ensures total == 10
  {
    var g := DiamondGraph();
    var t := new GraphTraversal(g);
    var root := g[0].id;
    assert root == 0;
    t.GraphTask(root);
    DiamondReachable();
    assert SumInfo(g, {0, 1, 2, 3}, 2) == 3;
    total := t.sum;
  }

  /** The cycle 0 -> 1 -> 2 -> 0 plus a node 3 that points into it. */
  function CycleGraph(): seq<Node>
  {
    [Node(0, 1, [1]), Node(1, 2, [2]), Node(2, 3, [0]), Node(3, 100, [0])]
  }

  lemma CycleReachable()
    ensures ReachableFrom(CycleGraph(), 0) == {0, 1, 2}
  {
    var g := CycleGraph();
    assert IsPath(g, [0]) && IsPath(g, [0, 1]) && IsPath(g, [0, 1, 2]);
    forall i, k | i in {0, 1, 2} && 0 <= i < |g| && 0 <= k < |g[i].neighbours|
      ensures g[i].neighbours[k] in {0, 1, 2}
    {
    }
    ReachableWithinClosed(g, 0, {0, 1, 2});
  }

  /** On the cycle the walk from 0 ends, counts each node of the cycle once and leaves node 3 NOT_VISITED. */
  method CycleSum() returns (total: int, untouched: State)
    ensures total == 6
    ensures untouched == NotVisited
  {
    var g := CycleGraph();
    var t := new GraphTraversal(g);
    var root := g[0].id;
    assert root == 0;
    t.GraphTask(root);
    CycleReachable();
    assert SumInfo(g, {0, 1, 2}, 2) == 3;
    assert SumInfo(g, {0, 1, 2}, 4) == 6;
    total := t.sum;
    untouched := t.visited[3];
  }
}
