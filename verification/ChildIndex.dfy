/** Breadth-first search over the children index, and why it finds exactly the reachable ids. */
module ChildIndex {
  import opened Types
  import opened SortedVec
  import opened CapTable

  /** x is n child steps below the root. */
  ghost predicate ReachIn(index: ChildrenIndex, root: CapId, x: CapId, n: nat)
    decreases n
  {
    if n == 0 then x == root
    else exists p: CapId :: ReachIn(index, root, p, n - 1) && x in ChildrenOf(index, p)
  }

  ghost predicate Reach(index: ChildrenIndex, root: CapId, x: CapId) {
    exists n: nat :: ReachIn(index, root, x, n)
  }

  ghost predicate Closed(index: ChildrenIndex, ids: set<CapId>) {
    forall p: CapId, c: CapId {:trigger c in ChildrenOf(index, p)} ::
      p in ids && c in ChildrenOf(index, p) ==> c in ids
  }

  ghost predicate NoDuplicates<T>(s: seq<T>) {
    forall i, j :: 0 <= i < j < |s| ==> s[i] != s[j]
  }

  lemma ReachRoot(index: ChildrenIndex, root: CapId)
    ensures Reach(index, root, root)
  {
    assert ReachIn(index, root, root, 0);
  }

  lemma ReachChild(index: ChildrenIndex, root: CapId, p: CapId, c: CapId)
    requires Reach(index, root, p) && c in ChildrenOf(index, p)
    ensures Reach(index, root, c)
  {
    var n: nat :| ReachIn(index, root, p, n);
    assert ReachIn(index, root, c, n + 1);
  }

  lemma LastStep(index: ChildrenIndex, root: CapId, x: CapId, n: nat) returns (p: CapId)
    requires n > 0 && ReachIn(index, root, x, n)
    ensures ReachIn(index, root, p, n - 1) && x in ChildrenOf(index, p)
  {
    p :| ReachIn(index, root, p, n - 1) && x in ChildrenOf(index, p);
  }

  lemma {:induction false} ClosedHoldsReach(index: ChildrenIndex, root: CapId, ids: set<CapId>, x: CapId, n: nat)
    requires root in ids && Closed(index, ids) && ReachIn(index, root, x, n)
    ensures x in ids
    decreases n
  {
    if n > 0 {
      var p := LastStep(index, root, x, n);
      ClosedHoldsReach(index, root, ids, p, n - 1);
    }
  }

  /** Every id the index mentions, and the root: the search never leaves this finite set. */
  ghost function Universe(index: ChildrenIndex, root: CapId): set<CapId> {
    {root} + set i, j | 0 <= i < |index| && 0 <= j < |index[i].1| :: index[i].1[j]
  }

  ghost predicate Sound(index: ChildrenIndex, root: CapId, queue: seq<CapId>) {
    forall x: CapId :: x in queue ==> Reach(index, root, x) && x in Universe(index, root)
  }

  /** The children of everything in `ids` are waiting in the queue. */
  ghost predicate Expanded(index: ChildrenIndex, ids: set<CapId>, queue: seq<CapId>) {
    forall p: CapId, c: CapId {:trigger c in ChildrenOf(index, p)} ::
      p in ids && c in ChildrenOf(index, p) ==> c in queue
  }

  lemma SoundAfterExpanding(index: ChildrenIndex, root: CapId, queue: seq<CapId>, id: CapId)
    requires Sound(index, root, queue) && id in queue
    ensures Sound(index, root, queue + ChildrenOf(index, id))
  {
    forall c: CapId | c in ChildrenOf(index, id)
      ensures Reach(index, root, c) && c in Universe(index, root)
    {
      ReachChild(index, root, id, c);
      assert exists j :: 0 <= j < |ChildrenOf(index, id)| && ChildrenOf(index, id)[j] == c;
    }
  }

  lemma ExpandedAfterExpanding(index: ChildrenIndex, ids: set<CapId>, queue: seq<CapId>, id: CapId)
    requires Expanded(index, ids, queue)
    ensures Expanded(index, ids + {id}, queue + ChildrenOf(index, id))
  {
  }

  lemma ClosedIsExact(index: ChildrenIndex, root: CapId, ids: set<CapId>, queue: seq<CapId>)
    requires root in ids && Sound(index, root, queue) && Expanded(index, ids, queue)
    requires forall x :: x in queue <==> x in ids
    ensures forall x: CapId :: x in ids <==> Reach(index, root, x)
  {
    forall x: CapId | Reach(index, root, x)
      ensures x in ids
    {
      var n: nat :| ReachIn(index, root, x, n);
      ClosedHoldsReach(index, root, ids, x, n);
    }
  }

  /** The first `head` entries of the queue are handled: each distinct id among them collected once. */
  ghost predicate Handled(queue: seq<CapId>, head: nat, visited: set<CapId>, collected: seq<CapId>) {
    head <= |queue| &&
    NoDuplicates(collected) &&
    (forall x: CapId :: x in collected <==> x in visited) &&
    (forall x: CapId :: x in queue[..head] <==> x in visited)
  }

  lemma HandledNext(queue: seq<CapId>, head: nat, visited: set<CapId>, collected: seq<CapId>, more: seq<CapId>)
    requires Handled(queue, head, visited, collected) && head < |queue|
    ensures queue[head] in visited ==> Handled(queue, head + 1, visited, collected)
    ensures queue[head] !in visited ==>
      Handled(queue + more, head + 1, visited + {queue[head]}, collected + [queue[head]])
  {
    assert queue[..head + 1] == queue[..head] + [queue[head]];
    assert (queue + more)[..head + 1] == queue[..head + 1];
  }

  method GetChildren(index: ChildrenIndex, parent: CapId) returns (children: seq<CapId>)
    requires Sorted(index)
    ensures children == ChildrenOf(index, parent)
  {
    var found, pos := BinarySearch(index, parent);
    children := if found then index[pos].1 else [];
  }

  /** On any sorted index, cyclic or not, the search ends with each reachable id exactly once. */
  method CollectDescendants(index: ChildrenIndex, root: CapId) returns (collected: seq<CapId>)
    requires Sorted(index)
    ensures NoDuplicates(collected)
    ensures forall x: CapId :: x in collected <==> Reach(index, root, x)
  {
    var queue: seq<CapId> := [root];
    var head := 0;
    var visited: set<CapId> := {};
    collected := [];
    ReachRoot(index, root);
    ghost var universe := Universe(index, root);
    while head < |queue|
      invariant 0 < |queue| && queue[0] == root
      invariant Handled(queue, head, visited, collected)
      invariant Sound(index, root, queue)
      invariant Expanded(index, visited, queue)
      invariant visited <= universe
      decreases universe - visited, |queue| - head
    {
      var id := queue[head];
      HandledNext(queue, head, visited, collected, ChildrenOf(index, id));
      head := head + 1;
      if id in visited {
        continue;
      }
      var children := GetChildren(index, id);
      SoundAfterExpanding(index, root, queue, id);
      ExpandedAfterExpanding(index, visited, queue, id);
      visited := visited + {id};
      collected := collected + [id];
      queue := queue + children;
    }
    assert queue[..head] == queue && queue[0] in queue;
    ClosedIsExact(index, root, visited, queue);
  }
}
