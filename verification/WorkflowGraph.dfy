/** Workflow definitions: nodes, dependency edges and the adjacency lists built from them. */
module WorkflowGraph {
  import opened Types
  import opened SortedVec

  datatype Edge = Edge(source: U64, target: U64)

  datatype Def = Def(
    nodes: seq<U64>, edges: seq<Edge>,
    predecessors: seq<seq<U64>>, successors: seq<seq<U64>>,
    nodeToIndex: seq<(Id, nat)>)
  {
    function NodeIndex(n: U64): Option<nat> {
      Get(nodeToIndex, n)
    }
  }

  ghost predicate Increasing(s: seq<U64>) {
    forall i, j :: 0 <= i < j < |s| ==> s[i] < s[j]
  }

  /** The sources of the edges into n, in edge order. */
  function Sources(edges: seq<Edge>, n: U64): seq<U64> {
    if edges == [] then []
    else
      var e := edges[|edges| - 1];
      Sources(edges[..|edges| - 1], n) + if e.target == n then [e.source] else []
  }

  function Targets(edges: seq<Edge>, n: U64): seq<U64> {
    if edges == [] then []
    else
      var e := edges[|edges| - 1];
      Targets(edges[..|edges| - 1], n) + if e.source == n then [e.target] else []
  }

  predicate EndpointsIn(nodes: seq<U64>, edges: seq<Edge>) {
    forall i :: 0 <= i < |edges| ==> edges[i].source in nodes && edges[i].target in nodes
  }

  function IndexPairs(nodes: seq<U64>): seq<(Id, nat)> {
    seq(|nodes|, i requires 0 <= i < |nodes| => (nodes[i], i))
  }

  /** The adjacency lists are the edge list filtered by node, and the index finds every node. */
  ghost predicate WellFormed(d: Def) {
    Increasing(d.nodes) && EndpointsIn(d.nodes, d.edges)
    && d.nodeToIndex == IndexPairs(d.nodes)
    && Adjacent(d.nodes, d.edges, d.predecessors, d.successors)
  }

  lemma IndexFinds(d: Def, n: U64)
    requires Increasing(d.nodes) && d.nodeToIndex == IndexPairs(d.nodes)
    ensures Sorted(d.nodeToIndex)
    ensures d.NodeIndex(n).Some? <==> n in d.nodes
    ensures d.NodeIndex(n).Some? ==> d.NodeIndex(n).value < |d.nodes| && d.nodes[d.NodeIndex(n).value] == n
  {
    if n in d.nodes {
      var i :| 0 <= i < |d.nodes| && d.nodes[i] == n;
      GetAt(d.nodeToIndex, i);
    }
  }

  lemma {:induction false} SourcesMeaning(edges: seq<Edge>, n: U64, m: U64)
    ensures m in Sources(edges, n) <==> Edge(m, n) in edges
  {
    if edges != [] {
      SourcesMeaning(edges[..|edges| - 1], n, m);
      assert edges == edges[..|edges| - 1] + [edges[|edges| - 1]];
    }
  }

  lemma {:induction false} TargetsMeaning(edges: seq<Edge>, n: U64, m: U64)
    ensures m in Targets(edges, n) <==> Edge(n, m) in edges
  {
    if edges != [] {
      TargetsMeaning(edges[..|edges| - 1], n, m);
      assert edges == edges[..|edges| - 1] + [edges[|edges| - 1]];
    }
  }

  // ---- Sorting and deduplicating the node list ----

  function InsertUnique(s: seq<U64>, n: U64): (r: seq<U64>)
    requires Increasing(s)
    ensures Increasing(r)
    ensures forall m :: m in r <==> m in s || m == n
  {
    if s == [] then [n]
    else
      var init, last := s[..|s| - 1], s[|s| - 1];
      assert s == init + [last];
      if last < n then s + [n]
      else if last == n then s
      else
        var rest := InsertUnique(init, n);
        assert forall i :: 0 <= i < |rest| ==> rest[i] in init || rest[i] == n;
        rest + [last]
  }

  function SortedUnique(s: seq<U64>): (r: seq<U64>)
    ensures Increasing(r)
    ensures forall m :: m in r <==> m in s
  {
    if s == [] then [] else InsertUnique(SortedUnique(s[..|s| - 1]), s[|s| - 1])
  }

  // ---- The code ----

  method NodeIndexOf(nodeToIndex: seq<(Id, nat)>, n: U64) returns (idx: Option<nat>)
    requires Sorted(nodeToIndex)
    ensures idx == Get(nodeToIndex, n)
  {
    var found, pos := BinarySearch(nodeToIndex, n);
    idx := if found then Some(nodeToIndex[pos].1) else None;
  }

  ghost predicate Adjacent(nodes: seq<U64>, edges: seq<Edge>, predecessors: seq<seq<U64>>, successors: seq<seq<U64>>) {
    |predecessors| == |nodes| && |successors| == |nodes|
    && (forall i :: 0 <= i < |nodes| ==> predecessors[i] == Sources(edges, nodes[i]))
    && (forall i :: 0 <= i < |nodes| ==> successors[i] == Targets(edges, nodes[i]))
  }

  lemma AddingEdge(nodes: seq<U64>, edges: seq<Edge>, e: Edge, predecessors: seq<seq<U64>>,
                   successors: seq<seq<U64>>, src: nat, tgt: nat)
    requires Increasing(nodes) && Adjacent(nodes, edges, predecessors, successors)
    requires src < |nodes| && nodes[src] == e.source && tgt < |nodes| && nodes[tgt] == e.target
    ensures Adjacent(nodes, edges + [e],
              predecessors[tgt := predecessors[tgt] + [e.source]], successors[src := successors[src] + [e.target]])
  {
  }

  method BuildAdjacency(nodes: seq<U64>, edges: seq<Edge>) returns (d: Def)
    requires Increasing(nodes) && EndpointsIn(nodes, edges)
    ensures WellFormed(d) && d.nodes == nodes && d.edges == edges
  {
    var predecessors: seq<seq<U64>> := seq(|nodes|, _ => []);
    var successors: seq<seq<U64>> := seq(|nodes|, _ => []);
    d := Def(nodes, edges, predecessors, successors, IndexPairs(nodes));
    for k := 0 to |edges|
      invariant Adjacent(nodes, edges[..k], predecessors, successors)
    {
      var e := edges[k];
      IndexFinds(d, e.source);
      IndexFinds(d, e.target);
      var src := NodeIndexOf(d.nodeToIndex, e.source);
      var tgt := NodeIndexOf(d.nodeToIndex, e.target);
      if src.Some? && tgt.Some? {
        AddingEdge(nodes, edges[..k], e, predecessors, successors, src.value, tgt.value);
        predecessors := predecessors[tgt.value := predecessors[tgt.value] + [e.source]];
        successors := successors[src.value := successors[src.value] + [e.target]];
      }
      assert edges[..k + 1] == edges[..k] + [e];
    }
    assert edges[..|edges|] == edges;
    d := d.(predecessors := predecessors, successors := successors);
  }

  /** The first endpoint, edge by edge and source first, that is not a node. */
  function FirstMissing(nodes: seq<U64>, edges: seq<Edge>): Option<U64> {
    if edges == [] then None
    else if edges[0].source !in nodes then Some(edges[0].source)
    else if edges[0].target !in nodes then Some(edges[0].target)
    else FirstMissing(nodes, edges[1..])
  }

  lemma {:induction false} NothingMissing(nodes: seq<U64>, edges: seq<Edge>)
    ensures FirstMissing(nodes, edges) == None <==> EndpointsIn(nodes, edges)
  {
    if edges != [] {
      NothingMissing(nodes, edges[1..]);
      assert edges == [edges[0]] + edges[1..];
    }
  }

  method Validated(nodes: seq<U64>, edges: seq<Edge>) returns (r: Result<Def, U64>)
    ensures r.Ok? <==> EndpointsIn(nodes, edges)
    ensures r.Err? ==> Some(r.error) == FirstMissing(nodes, edges)
    ensures r.Ok? ==> WellFormed(r.value) && r.value.edges == edges
    ensures r.Ok? ==> forall n :: n in r.value.nodes <==> n in nodes
  {
    var sorted := SortedUnique(nodes);
    NothingMissing(nodes, edges);
    for k := 0 to |edges|
      invariant FirstMissing(nodes, edges[k..]) == FirstMissing(nodes, edges)
    {
      assert edges[k..][1..] == edges[k + 1..];
      if edges[k].source !in sorted {
        return Err(edges[k].source);
      }
      if edges[k].target !in sorted {
        return Err(edges[k].target);
      }
    }
    var d := BuildAdjacency(sorted, edges);
    r := Ok(d);
  }

  // ---- Cycles ----

  /** Consecutive nodes of the path are joined by edges. */
  ghost predicate IsPath(d: Def, path: seq<U64>) {
    forall i :: 0 <= i < |path| - 1 ==> Edge(path[i], path[i + 1]) in d.edges
  }

  ghost predicate IsCycle(d: Def, path: seq<U64>) {
    |path| >= 2 && IsPath(d, path) && path[0] == path[|path| - 1]
  }

  ghost predicate Acyclic(d: Def) {
    forall path: seq<U64> :: !IsCycle(d, path)
  }

  /** Every member waits for another member. */
  ghost predicate Deadlocked(d: Def, ids: set<U64>) {
    ids != {} && forall n: U64 :: n in ids ==> n in d.nodes && HasSourceIn(d, ids, n)
  }

  ghost predicate HasSourceIn(d: Def, ids: set<U64>, n: U64) {
    exists m: U64 :: m in ids && Edge(m, n) in d.edges
  }

  lemma CycleDeadlocks(d: Def, path: seq<U64>)
    requires WellFormed(d) && IsCycle(d, path)
    ensures Deadlocked(d, set n | n in path)
  {
    var ids := set n | n in path;
    assert path[0] in ids;
    forall n: U64 | n in ids
      ensures n in d.nodes && HasSourceIn(d, ids, n)
    {
      var i :| 0 <= i < |path| && path[i] == n;
      var j := if i == 0 then |path| - 2 else i - 1;
      assert path[j] in ids && Edge(path[j], path[j + 1]) in d.edges;
    }
  }

  /** A walk of any length that goes backwards inside a deadlocked set. */
  lemma {:induction false} BackWalk(d: Def, ids: set<U64>, n: U64, k: nat) returns (path: seq<U64>)
    requires Deadlocked(d, ids) && n in ids
    ensures |path| == k + 1 && IsPath(d, path) && forall i :: 0 <= i < |path| ==> path[i] in ids
    decreases k
  {
    path := [n];
    if k > 0 {
      path := BackWalk(d, ids, n, k - 1);
      assert HasSourceIn(d, ids, path[0]);
      var m: U64 :| m in ids && Edge(m, path[0]) in d.edges;
      path := [m] + path;
    }
  }

  lemma {:induction false} Pigeonhole(s: seq<U64>, ids: set<U64>) returns (i: nat, j: nat)
    requires |s| > |ids| && forall k :: 0 <= k < |s| ==> s[k] in ids
    ensures i < j < |s| && s[i] == s[j]
    decreases |s|
  {
    var last := |s| - 1;
    if k: nat :| k < last && s[k] == s[last] {
      i, j := k, last;
    } else {
      assert s[last] in ids;
      i, j := Pigeonhole(s[..last], ids - {s[last]});
    }
  }

  lemma DeadlockHasCycle(d: Def, ids: set<U64>) returns (path: seq<U64>)
    requires Deadlocked(d, ids)
    ensures IsCycle(d, path)
  {
    var n :| n in ids;
    var walk := BackWalk(d, ids, n, |ids|);
    var i, j := Pigeonhole(walk, ids);
    path := walk[i..j + 1];
    forall k | 0 <= k < |path| - 1
      ensures Edge(path[k], path[k + 1]) in d.edges
    {
      assert Edge(walk[i + k], walk[i + k + 1]) in d.edges;
    }
  }
}
