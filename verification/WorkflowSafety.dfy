/** What every run of a workflow keeps, how long it can be, and when it can finish. */
module WorkflowSafety {
  import opened Types
  import opened SortedVec
  import opened WorkflowGraph
  import opened Workflow

  // ---- One event moves one node ----

  /** The moves there are, and what each does to the retries left. */
  ghost predicate Moved(w: Instance, w': Instance, i: nat, to: NodeState) {
    i < |w.states| && |w.retries| == |w.states|
    && w'.def == w.def && w'.timeoutAt == w.timeoutAt && w'.states == w.states[i := to]
    && match w.states[i]
       case Pending => to == Active && w'.retries == w.retries
       case Active =>
         if to == Pending then w.retries[i] > 0 && w'.retries == w.retries[i := w.retries[i] - 1]
         else w'.retries == w.retries && to != Active
       case _ => false
  }

  lemma EventMoves(w: Instance, e: Event) returns (i: nat, to: NodeState)
    requires w.Shaped() && w.Accepts(e)
    ensures Moved(w, w.After(e), i, to) && w.def.nodes[i] == e.node
    ensures w.states[i] == if e.Start? then Pending else Active
    ensures e.Start? ==> to == Active
    ensures e.Complete? ==> to == Completed
  {
    IndexFinds(w.def, e.node);
    i := w.def.NodeIndex(e.node).value;
    to := w.After(e).states[i];
  }

  lemma RefusedKeeps(w: Instance, e: Event)
    requires w.Shaped() && !w.Accepts(e)
    ensures w.After(e).states == w.states && w.After(e).retries == w.retries
    ensures w.After(e).status == w.status || e.Timeout?
  {
  }

  lemma StateAt(w: Instance, i: nat)
    requires w.Shaped() && i < |w.states|
    ensures w.StateOf(w.def.nodes[i]) == w.states[i]
  {
    IndexFinds(w.def, w.def.nodes[i]);
    GetAt(w.def.nodeToIndex, i);
  }

  lemma StatesAfter(w: Instance, w': Instance, i: nat, to: NodeState, n: U64)
    requires w.Shaped() && w'.Shaped() && Moved(w, w', i, to)
    ensures w'.StateOf(n) == if n == w.def.nodes[i] then to else w.StateOf(n)
  {
    IndexFinds(w.def, n);
    StateAt(w', i);
  }

  lemma SameStates(w: Instance, w': Instance, n: U64)
    requires w.Shaped() && w'.Shaped() && w'.def == w.def && w'.states == w.states
    ensures w'.StateOf(n) == w.StateOf(n)
  {
  }

  // ---- Dependency order ----

  /** Whatever has left Pending had every source completed. */
  ghost predicate DepsDone(w: Instance)
    requires w.Shaped()
  {
    forall e: Edge :: e in w.def.edges && w.StateOf(e.target) != Pending ==> w.StateOf(e.source) == Completed
  }

  ghost predicate SourcesDone(w: Instance, n: U64)
    requires w.Shaped()
  {
    forall m: U64 :: Edge(m, n) in w.def.edges ==> w.StateOf(m) == Completed
  }

  lemma StartNeedsSources(w: Instance, n: U64)
    requires w.Shaped() && n in w.def.nodes
    ensures w.Accepts(Start(n)) <==> w.StateOf(n) == Pending && SourcesDone(w, n)
  {
    IndexFinds(w.def, n);
    var i := w.def.NodeIndex(n).value;
    UnsatisfiedMeaning(w, w.def.predecessors[i]);
    forall m: U64
      ensures m in w.def.predecessors[i] <==> Edge(m, n) in w.def.edges
    {
      SourcesMeaning(w.def.edges, n, m);
    }
  }

  lemma MoveKeepsDepsDone(w: Instance, w': Instance, i: nat, to: NodeState)
    requires w.Shaped() && w'.Shaped() && DepsDone(w) && Moved(w, w', i, to)
    requires w.states[i] == Pending ==> SourcesDone(w, w.def.nodes[i])
    ensures DepsDone(w')
  {
    StateAt(w, i);
    forall e: Edge | e in w'.def.edges && w'.StateOf(e.target) != Pending
      ensures w'.StateOf(e.source) == Completed
    {
      StatesAfter(w, w', i, to, e.target);
      StatesAfter(w, w', i, to, e.source);
    }
  }

  lemma AfterKeepsDepsDone(w: Instance, e: Event)
    requires w.Shaped() && DepsDone(w)
    ensures DepsDone(w.After(e))
  {
    if w.Accepts(e) {
      var i, to := EventMoves(w, e);
      StartNeedsSources(w, e.node);
      StateAt(w, i);
      MoveKeepsDepsDone(w, w.After(e), i, to);
    } else {
      RefusedKeeps(w, e);
      forall n: U64
        ensures w.After(e).StateOf(n) == w.StateOf(n)
      {
        SameStates(w, w.After(e), n);
      }
    }
  }

  ghost predicate AllPending(w: Instance, ids: set<U64>)
    requires w.Shaped()
  {
    forall n: U64 :: n in ids ==> w.StateOf(n) == Pending
  }

  lemma DeadlockRefusesStart(w: Instance, n: U64, ids: set<U64>)
    requires w.Shaped() && Deadlocked(w.def, ids) && AllPending(w, ids) && n in ids
    ensures !w.Accepts(Start(n))
  {
    StartNeedsSources(w, n);
    assert HasSourceIn(w.def, ids, n);
    var m: U64 :| m in ids && Edge(m, n) in w.def.edges;
    assert w.StateOf(m) == Pending;
  }

  lemma OthersStayPending(w: Instance, w': Instance, i: nat, to: NodeState, ids: set<U64>)
    requires w.Shaped() && w'.Shaped() && Moved(w, w', i, to)
    requires AllPending(w, ids) && w.def.nodes[i] !in ids
    ensures AllPending(w', ids)
  {
  }

  lemma AcceptedIsOutside(w: Instance, e: Event, ids: set<U64>)
    requires w.Shaped() && Deadlocked(w.def, ids) && AllPending(w, ids) && w.Accepts(e)
    ensures e.node !in ids
  {
    var i, to := EventMoves(w, e);
    StateAt(w, i);
    if e.node in ids {
      DeadlockRefusesStart(w, e.node, ids);
      assert false;
    }
  }

  lemma DeadlockRefusesAll(w: Instance, e: Event, ids: set<U64>)
    requires w.Shaped() && Deadlocked(w.def, ids) && AllPending(w, ids)
    ensures AllPending(w.After(e), ids)
  {
    if w.Accepts(e) {
      AcceptedIsOutside(w, e, ids);
      var i, to := EventMoves(w, e);
      OthersStayPending(w, w.After(e), i, to, ids);
    } else {
      RefusedKeeps(w, e);
    }
  }

  /** A deadlocked set, a cycle for one, stays Pending whatever happens around it. */
  lemma {:induction false} DeadlockStaysPending(w: Instance, events: seq<Event>, ids: set<U64>)
    requires w.Shaped() && Deadlocked(w.def, ids) && AllPending(w, ids)
    ensures AllPending(Run(w, events), ids)
    decreases |events|
  {
    if events != [] {
      DeadlockRefusesAll(w, events[0], ids);
      DeadlockStaysPending(w.After(events[0]), events[1..], ids);
    }
  }

  /** No node on a cycle ever leaves Pending. */
  lemma CycleStaysPending(d: Def, timeoutAt: Time, maxRetries: U64, events: seq<Event>, path: seq<U64>, i: nat)
    requires WellFormed(d) && IsCycle(d, path) && i < |path|
    ensures Instance.New(d, timeoutAt, maxRetries).Shaped()
    ensures Run(Instance.New(d, timeoutAt, maxRetries), events).StateOf(path[i]) == Pending
  {
    var ids := set n | n in path;
    CycleDeadlocks(d, path);
    NewIsPending(d, timeoutAt, maxRetries);
    DeadlockStaysPending(Instance.New(d, timeoutAt, maxRetries), events, ids);
    assert path[i] in ids;
  }

  /** On any path into a node that has left Pending, everything before that node is completed. */
  lemma {:induction false} PathIsCompleted(w: Instance, path: seq<U64>, i: nat)
    requires w.Shaped() && DepsDone(w) && IsPath(w.def, path) && i + 1 < |path|
    requires w.StateOf(path[|path| - 1]) != Pending
    ensures w.StateOf(path[i]) == Completed
    decreases |path| - i
  {
    if i + 2 < |path| {
      PathIsCompleted(w, path, i + 1);
    }
    SourceIsDone(w, path[i], path[i + 1]);
  }

  lemma SourceIsDone(w: Instance, m: U64, n: U64)
    requires w.Shaped() && DepsDone(w) && Edge(m, n) in w.def.edges && w.StateOf(n) != Pending
    ensures w.StateOf(m) == Completed
  {
  }

  // ---- Counters, recounted ----

  function Count(states: seq<NodeState>, s: NodeState): nat {
    if states == [] then 0
    else Count(states[..|states| - 1], s) + if states[|states| - 1] == s then 1 else 0
  }

  lemma {:induction false} CountUpdate(states: seq<NodeState>, i: nat, to: NodeState, s: NodeState)
    requires i < |states|
    ensures Count(states[i := to], s) + (if states[i] == s then 1 else 0)
         == Count(states, s) + (if to == s then 1 else 0)
  {
    var last := |states| - 1;
    if i < last {
      CountUpdate(states[..last], i, to, s);
      assert states[i := to][..last] == states[..last][i := to];
    } else {
      assert states[i := to][..last] == states[..last];
    }
  }

  lemma {:induction false} CountBounds(states: seq<NodeState>, s: NodeState)
    ensures Count(states, s) <= |states|
    ensures Count(states, s) == 0 <==> forall i :: 0 <= i < |states| ==> states[i] != s
    ensures Count(states, s) == |states| <==> forall i :: 0 <= i < |states| ==> states[i] == s
  {
    if states != [] {
      CountBounds(states[..|states| - 1], s);
    }
  }

  function Sum(retries: seq<U16>): nat {
    if retries == [] then 0 else Sum(retries[..|retries| - 1]) + retries[|retries| - 1]
  }

  lemma {:induction false} SumUpdate(retries: seq<U16>, i: nat, r: U16)
    requires i < |retries|
    ensures Sum(retries[i := r]) + retries[i] == Sum(retries) + r
  {
    var last := |retries| - 1;
    if i < last {
      SumUpdate(retries[..last], i, r);
      assert retries[i := r][..last] == retries[..last][i := r];
    } else {
      assert retries[i := r][..last] == retries[..last];
    }
  }

  ghost predicate CountsTrue(w: Instance) {
    w.pendingCt == Count(w.states, Pending)
    && w.activeCt == Count(w.states, Active)
    && w.failedCt == Count(w.states, Failed)
  }

  lemma CounterFollows(states: seq<NodeState>, i: nat, to: NodeState, s: NodeState, ct: U32, ct': U32)
    requires |states| <= U32_MAX && i < |states| && states[i] != to && ct == Count(states, s)
    requires ct' == if states[i] == s then Dec32(ct) else if to == s then Inc32(ct) else ct
    ensures ct' == Count(states[i := to], s)
  {
    CountUpdate(states, i, to, s);
    CountBounds(states[i := to], s);
  }

  lemma TransitionKeepsCounts(w: Instance, i: nat, to: NodeState)
    requires |w.states| <= U32_MAX && CountsTrue(w) && i < |w.states| && w.states[i] != to
    ensures CountsTrue(w.Transition(i, to))
  {
    var w' := w.Transition(i, to);
    CounterFollows(w.states, i, to, Pending, w.pendingCt, w'.pendingCt);
    CounterFollows(w.states, i, to, Active, w.activeCt, w'.activeCt);
    CounterFollows(w.states, i, to, Failed, w.failedCt, w'.failedCt);
  }

  lemma AfterKeepsCounts(w: Instance, e: Event)
    requires w.Shaped() && |w.def.nodes| <= U32_MAX && CountsTrue(w)
    ensures CountsTrue(w.After(e))
  {
    if w.Accepts(e) {
      IndexFinds(w.def, e.node);
      var i := w.def.NodeIndex(e.node).value;
      TransitionKeepsCounts(w, i, w.After(e).states[i]);
    }
  }

  // ---- The status ----

  ghost predicate Holds(w: Instance, s: NodeState) {
    exists i :: 0 <= i < |w.states| && w.states[i] == s
  }

  ghost predicate Only(w: Instance, s: NodeState) {
    forall i :: 0 <= i < |w.states| ==> w.states[i] == s
  }

  /** Success only when all is completed, and Failure as soon as a node has failed for good. */
  ghost predicate StatusTrue(w: Instance) {
    (w.status == SystemState.Success ==> Only(w, Completed))
    && (Holds(w, Failed) ==> w.status == SystemState.Failure)
  }

  lemma TerminalMeans(w: Instance)
    requires CountsTrue(w)
    ensures w.IsTerminal() <==> !Holds(w, Pending) && !Holds(w, Active)
    ensures w.failedCt > 0 <==> Holds(w, Failed)
    ensures w.IsTerminal() && w.failedCt == 0 <==> Only(w, Completed)
  {
    CountBounds(w.states, Pending);
    CountBounds(w.states, Active);
    CountBounds(w.states, Failed);
  }

  /** What an accepted move does to the status. */
  lemma StatusAfter(w: Instance, e: Event, i: nat, to: NodeState)
    requires w.Shaped() && w.Accepts(e) && CountsTrue(w.After(e))
    requires Moved(w, w.After(e), i, to) && w.def.nodes[i] == e.node
    ensures var w' := w.After(e);
      w'.status ==
        if to == Failed || (e.Complete? && w'.IsTerminal() && w'.failedCt > 0) then SystemState.Failure
        else if e.Complete? && w'.IsTerminal() then SystemState.Success
        else w.status
  {
    IndexFinds(w.def, e.node);
    GetAt(w.def.nodeToIndex, i);
    assert w.def.NodeIndex(e.node) == Some(i);
    assert w.After(e).states[i] == to;
  }

  lemma AfterKeepsStatus(w: Instance, e: Event)
    requires w.Shaped() && StatusTrue(w) && CountsTrue(w.After(e))
    ensures StatusTrue(w.After(e))
  {
    if w.Accepts(e) {
      var i, to := EventMoves(w, e);
      StatusAfter(w, e, i, to);
      TerminalMeans(w.After(e));
      MovedHolds(w, w.After(e), i, to);
    } else {
      RefusedKeeps(w, e);
    }
  }

  lemma MovedHolds(w: Instance, w': Instance, i: nat, to: NodeState)
    requires Moved(w, w', i, to)
    ensures !Only(w, Completed)
    ensures Holds(w', Failed) <==> to == Failed || Holds(w, Failed)
  {
    assert w'.states[i] == to;
    if Holds(w, Failed) {
      var j :| 0 <= j < |w.states| && w.states[j] == Failed;
      assert w'.states[j] == Failed;
    }
  }

  // ---- The invariant of runs ----

  ghost predicate Inv(w: Instance) {
    w.Shaped() && |w.def.nodes| <= U32_MAX && DepsDone(w) && CountsTrue(w) && StatusTrue(w)
  }

  lemma NewIsPending(d: Def, timeoutAt: Time, maxRetries: U64)
    requires WellFormed(d)
    ensures Instance.New(d, timeoutAt, maxRetries).Shaped()
    ensures forall n: U64 :: Instance.New(d, timeoutAt, maxRetries).StateOf(n) == Pending
  {
  }

  lemma NewInv(d: Def, timeoutAt: Time, maxRetries: U64)
    requires WellFormed(d) && |d.nodes| <= U32_MAX
    ensures Inv(Instance.New(d, timeoutAt, maxRetries))
  {
    var w := Instance.New(d, timeoutAt, maxRetries);
    NewIsPending(d, timeoutAt, maxRetries);
    CountBounds(w.states, Pending);
    CountBounds(w.states, Active);
    CountBounds(w.states, Failed);
  }

  lemma AfterKeepsInv(w: Instance, e: Event)
    requires Inv(w)
    ensures Inv(w.After(e))
  {
    AfterKeepsDepsDone(w, e);
    AfterKeepsCounts(w, e);
    AfterKeepsStatus(w, e);
  }

  /** In every reachable instance the counters, the statuses and the dependency order are true. */
  lemma {:induction false} RunKeepsInv(w: Instance, events: seq<Event>)
    requires Inv(w)
    ensures Inv(Run(w, events))
    decreases |events|
  {
    if events != [] {
      AfterKeepsInv(w, events[0]);
      RunKeepsInv(w.After(events[0]), events[1..]);
    }
  }

  // ---- How long a run can be ----

  ghost function Potential(w: Instance): nat {
    2 * Count(w.states, Pending) + Count(w.states, Active) + 2 * Sum(w.retries)
  }

  ghost function Weight(w: Instance, now: Time): nat {
    (if w.timeoutAt > now then w.timeoutAt - now else 0)
    + 1000 * Count(w.states, Pending) + 100 * Count(w.states, Active) + 1000 * Sum(w.retries)
  }

  lemma MoveCosts(w: Instance, w': Instance, i: nat, to: NodeState, now: Time)
    requires Moved(w, w', i, to)
    ensures Potential(w') + 1 == Potential(w)
    ensures Weight(w', now) + (if w.states[i] == Pending then 900 else 100) == Weight(w, now)
  {
    CountUpdate(w.states, i, to, Pending);
    CountUpdate(w.states, i, to, Active);
    if w.states[i] == Active && to == Pending {
      SumUpdate(w.retries, i, w.retries[i] - 1);
    }
  }

  /** How many of the events are accepted as moves of a node. */
  ghost function Accepted(w: Instance, events: seq<Event>): nat
    requires w.Shaped()
    decreases |events|
  {
    if events == [] then 0
    else (if w.Accepts(events[0]) then 1 else 0) + Accepted(w.After(events[0]), events[1..])
  }

  lemma EventSpends(w: Instance, e: Event)
    requires w.Shaped()
    ensures Potential(w.After(e)) + (if w.Accepts(e) then 1 else 0) == Potential(w)
  {
    if w.Accepts(e) {
      var i, to := EventMoves(w, e);
      MoveCosts(w, w.After(e), i, to, 0);
    } else {
      RefusedKeeps(w, e);
    }
  }

  lemma {:induction false} AcceptedSpendPotential(w: Instance, events: seq<Event>)
    requires w.Shaped()
    ensures Accepted(w, events) + Potential(Run(w, events)) == Potential(w)
    decreases |events|
  {
    if events != [] {
      EventSpends(w, events[0]);
      AcceptedSpendPotential(w.After(events[0]), events[1..]);
    }
  }

  lemma {:induction false} SumUniform(retries: seq<U16>, r: U16)
    requires forall i :: 0 <= i < |retries| ==> retries[i] == r
    ensures Sum(retries) == |retries| * r
  {
    if retries != [] {
      SumUniform(retries[..|retries| - 1], r);
      assert |retries| * r == (|retries| - 1) * r + r;
    }
  }

  /** Retries are granted per node, at most 65535 of them. */
  function PerNode(maxRetries: U64): nat {
    if maxRetries > 65535 then 65535 else maxRetries
  }

  lemma NewPotential(d: Def, timeoutAt: Time, maxRetries: U64)
    ensures Potential(Instance.New(d, timeoutAt, maxRetries)) == 2 * |d.nodes| + 2 * (|d.nodes| * PerNode(maxRetries))
  {
    var w := Instance.New(d, timeoutAt, maxRetries);
    CountBounds(w.states, Pending);
    CountBounds(w.states, Active);
    SumUniform(w.retries, PerNode(maxRetries));
  }

  /** No run of a fresh instance moves nodes more than 2n(1 + min(maxRetries, 65535)) times. */
  lemma RunLengthBound(d: Def, timeoutAt: Time, maxRetries: U64, events: seq<Event>)
    requires WellFormed(d)
    ensures Accepted(Instance.New(d, timeoutAt, maxRetries), events)
      <= 2 * |d.nodes| + 2 * (|d.nodes| * PerNode(maxRetries))
  {
    AcceptedSpendPotential(Instance.New(d, timeoutAt, maxRetries), events);
    NewPotential(d, timeoutAt, maxRetries);
  }

  // ---- The measure the code computes ----

  lemma {:induction false} SatSumIsSum(retries: seq<U16>)
    ensures SatSum(retries) == if Sum(retries) <= U64_MAX then Sum(retries) else U64_MAX
  {
    if retries != [] {
      SatSumIsSum(retries[..|retries| - 1]);
    }
  }

  /** Saturation at every step of the sum is saturation once, at the end. */
  lemma MeasureSaturates(w: Instance, now: Time)
    requires CountsTrue(w)
    ensures Measure(w, now) == if Weight(w, now) <= U64_MAX then Weight(w, now) else U64_MAX
  {
    SatSumIsSum(w.retries);
  }

  /** What an event takes off the weight if it is accepted. */
  function Cost(e: Event): nat {
    if e.Start? then 900 else 100
  }

  /** Each accepted event takes just its cost off the weight; the measure follows unless it saturates. */
  lemma MeasureDrops(w: Instance, e: Event, now: Time)
    requires Inv(w) && w.Accepts(e)
    ensures Weight(w, now) == Weight(w.After(e), now) + Cost(e)
    ensures Measure(w.After(e), now) < Measure(w, now) <==> Weight(w, now) < U64_MAX + Cost(e)
    ensures Weight(w, now) <= U64_MAX ==> Measure(w, now) == Measure(w.After(e), now) + Cost(e)
  {
    var i, to := EventMoves(w, e);
    MoveCosts(w, w.After(e), i, to, now);
    AfterKeepsCounts(w, e);
    MeasureSaturates(w, now);
    MeasureSaturates(w.After(e), now);
  }

  function SingleNode(n: U64): Def {
    Def([n], [], [[]], [[]], [(n, 0)])
  }

  lemma SingleNodeStarts(n: U64, timeoutAt: Time, maxRetries: U64)
    ensures WellFormed(SingleNode(n))
    ensures Inv(Instance.New(SingleNode(n), timeoutAt, maxRetries))
    ensures Instance.New(SingleNode(n), timeoutAt, maxRetries).Accepts(Start(n))
  {
    var w := Instance.New(SingleNode(n), timeoutAt, maxRetries);
    assert SingleNode(n).nodeToIndex == IndexPairs([n]);
    assert Sources([], n) == [] && Targets([], n) == [];
    NewInv(SingleNode(n), timeoutAt, maxRetries);
    NewIsPending(SingleNode(n), timeoutAt, maxRetries);
    StartNeedsSources(w, n);
  }

  /** With the timeout at the end of time the measure is at its maximum, and a start does not lower it. */
  lemma MeasureCanStall(n: U64)
    ensures var w := Instance.New(SingleNode(n), U64_MAX, 0);
      w.Shaped() && w.Accepts(Start(n)) && Measure(w.After(Start(n)), 0) == Measure(w, 0) == U64_MAX
  {
  }

  // ---- Progress, and when a workflow can finish ----

  ghost predicate NoneFailed(w: Instance)
    requires w.Shaped()
  {
    forall n: U64 :: n in w.def.nodes ==> w.StateOf(n) != Failed
  }

  ghost predicate AllCompleted(w: Instance)
    requires w.Shaped()
  {
    forall n: U64 :: n in w.def.nodes ==> w.StateOf(n) == Completed
  }

  lemma CompleteNeedsActive(w: Instance, n: U64)
    requires w.Shaped() && n in w.def.nodes
    ensures w.Accepts(Complete(n)) <==> w.StateOf(n) == Active
  {
  }

  lemma FreeOfSources(w: Instance, n: U64, pending: set<U64>)
    requires w.Shaped() && NoneFailed(w) && !HasSourceIn(w.def, pending, n)
    requires forall m: U64 :: m in w.def.nodes ==> w.StateOf(m) != Active && (w.StateOf(m) == Pending ==> m in pending)
    ensures SourcesDone(w, n)
  {
  }

  /** On an acyclic definition a run without failures is never stuck before the end. */
  lemma Progress(w: Instance) returns (e: Event)
    requires w.Shaped() && Acyclic(w.def) && NoneFailed(w) && !AllCompleted(w)
    ensures w.Accepts(e) && (e.Start? || e.Complete?)
  {
    if n: U64 :| n in w.def.nodes && w.StateOf(n) == Active {
      CompleteNeedsActive(w, n);
      return Complete(n);
    }
    var pending := set n | n in w.def.nodes && w.StateOf(n) == Pending;
    var n: U64 :| n in w.def.nodes && w.StateOf(n) != Completed;
    assert n in pending;
    var first := FirstOf(w.def, pending);
    FreeOfSources(w, first, pending);
    StartNeedsSources(w, first);
    e := Start(first);
  }

  /** In an acyclic graph some member of any set of nodes waits for no other member. */
  lemma FirstOf(d: Def, ids: set<U64>) returns (n: U64)
    requires Acyclic(d) && ids != {} && forall m: U64 :: m in ids ==> m in d.nodes
    ensures n in ids && !HasSourceIn(d, ids, n)
  {
    if m: U64 :| m in ids && !HasSourceIn(d, ids, m) {
      n := m;
    } else {
      var path := DeadlockHasCycle(d, ids);
      assert false;
    }
  }

  lemma MoveKeepsNoneFailed(w: Instance, w': Instance, i: nat, to: NodeState)
    requires w.Shaped() && w'.Shaped() && NoneFailed(w) && Moved(w, w', i, to) && to != Failed
    ensures NoneFailed(w')
  {
  }

  lemma {:induction false} Schedule(w: Instance) returns (events: seq<Event>)
    requires w.Shaped() && Acyclic(w.def) && NoneFailed(w)
    ensures AllCompleted(Run(w, events))
    decreases Potential(w)
  {
    if AllCompleted(w) {
      return [];
    }
    var e := Progress(w);
    var i, to := EventMoves(w, e);
    MoveKeepsNoneFailed(w, w.After(e), i, to);
    EventSpends(w, e);
    var rest := Schedule(w.After(e));
    events := [e] + rest;
    assert events[1..] == rest;
  }

  ghost predicate Completable(w: Instance)
    requires w.Shaped()
  {
    exists events: seq<Event> :: AllCompleted(Run(w, events))
  }

  /** Some run completes every node exactly when the definition has no cycle. */
  lemma CompletableIffAcyclic(d: Def, timeoutAt: Time, maxRetries: U64)
    requires WellFormed(d)
    ensures Completable(Instance.New(d, timeoutAt, maxRetries)) <==> Acyclic(d)
  {
    var w := Instance.New(d, timeoutAt, maxRetries);
    NewIsPending(d, timeoutAt, maxRetries);
    if Acyclic(d) {
      var events := Schedule(w);
    } else {
      var path: seq<U64> :| IsCycle(d, path);
      forall events: seq<Event>
        ensures !AllCompleted(Run(w, events))
      {
        CycleStaysPending(d, timeoutAt, maxRetries, events, path, 0);
        assert Edge(path[0], path[1]) in d.edges && path[0] in d.nodes;
      }
    }
  }

  // ---- The status is not final ----

  /** n is the one node left to complete. */
  ghost predicate LastActive(w: Instance, n: U64)
    requires w.Shaped()
  {
    n in w.def.nodes && w.StateOf(n) == Active
    && forall m: U64 :: m in w.def.nodes && m != n ==> w.StateOf(m) == Completed
  }

  lemma CompletionIsLast(w: Instance, n: U64)
    requires w.Shaped() && w.Accepts(Complete(n))
    ensures Only(w.After(Complete(n)), Completed) <==> LastActive(w, n)
  {
    var i, to := EventMoves(w, Complete(n));
    var w' := w.After(Complete(n));
    StateAt(w, i);
    forall j: nat | j < |w.states|
      ensures w'.states[j] == (if w.def.nodes[j] == n then Completed else w.StateOf(w.def.nodes[j]))
    {
      StateAt(w', j);
      StatesAfter(w, w', i, to, w.def.nodes[j]);
    }
  }

  /** A Failure is overwritten exactly by the completion of the one active node when all others are completed. */
  lemma FailureIsOverwritten(w: Instance, e: Event)
    requires Inv(w) && w.status == SystemState.Failure
    ensures w.After(e).status == SystemState.Success <==> e.Complete? && LastActive(w, e.node)
  {
    AfterKeepsCounts(w, e);
    TerminalMeans(w.After(e));
    if e.Complete? && e.node in w.def.nodes {
      CompleteNeedsActive(w, e.node);
    }
    if w.Accepts(e) {
      var i, to := EventMoves(w, e);
      StatusAfter(w, e, i, to);
      if e.Complete? {
        CompletionIsLast(w, e.node);
      }
    } else {
      RefusedKeeps(w, e);
    }
  }

  /** So a timeout is not final: a workflow of one node times out while it runs, and ends in Success. */
  lemma TimeoutIsOverwritten(n: U64, timeoutAt: Time, maxRetries: U64)
    ensures WellFormed(SingleNode(n))
    ensures var w := Instance.New(SingleNode(n), timeoutAt, maxRetries);
      Run(w, [Start(n), Timeout]).status == SystemState.Failure
      && Run(w, [Start(n), Timeout, Complete(n)]).status == SystemState.Success
  {
    var w := Instance.New(SingleNode(n), timeoutAt, maxRetries);
    SingleNodeStarts(n, timeoutAt, maxRetries);
    var w1 := w.After(Start(n));
    var w2 := w1.After(Timeout);
    assert [Start(n), Timeout][1..] == [Timeout] && [Timeout][1..] == [];
    assert [Start(n), Timeout, Complete(n)][1..] == [Timeout, Complete(n)];
    assert [Timeout, Complete(n)][1..] == [Complete(n)] && [Complete(n)][1..] == [];
    assert Run(w, [Start(n), Timeout]) == Run(w1, [Timeout]) == w2;
    assert Run(w, [Start(n), Timeout, Complete(n)]) == Run(w2, [Complete(n)]) == w2.After(Complete(n));
    AfterKeepsInv(w, Start(n));
    AfterKeepsInv(w1, Timeout);
    var i, to := EventMoves(w, Start(n));
    StateAt(w2, 0);
    FailureIsOverwritten(w2, Complete(n));
  }
}
