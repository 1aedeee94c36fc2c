/** How often a node may fail, and what every event makes of the status. */
module WorkflowRetries {
  import opened Types
  import opened WorkflowGraph
  import opened Workflow
  import opened WorkflowSafety

  function RetriesOf(w: Instance, n: U64): U16
    requires w.Shaped() && n in w.def.nodes
  {
    IndexFinds(w.def, n);
    w.retries[w.def.NodeIndex(n).value]
  }

  /** How many failures of n the run accepts. */
  ghost function Fails(w: Instance, events: seq<Event>, n: U64): nat
    requires w.Shaped()
    decreases |events|
  {
    if events == [] then 0
    else (if events[0] == Fail(n) && w.Accepts(events[0]) then 1 else 0) + Fails(w.After(events[0]), events[1..], n)
  }

  // ---- One failure ----

  lemma OnlyMoved(w: Instance, e: Event, m: U64)
    requires w.Shaped() && w.Accepts(e) && m in w.def.nodes && m != e.node
    ensures w.After(e).StateOf(m) == w.StateOf(m) && RetriesOf(w.After(e), m) == RetriesOf(w, m)
  {
    IndexFinds(w.def, m);
    IndexFinds(w.def, e.node);
  }

  /**
   An accepted failure uses up a retry and sends the node back to Pending while there are retries, and
   only then; else the node fails, and the workflow with it. No other node is touched.
   */
  lemma FailUsesRetry(w: Instance, n: U64)
    requires w.Shaped() && w.Accepts(Fail(n))
    ensures n in w.def.nodes && w.StateOf(n) == Active
    ensures var w' := w.After(Fail(n));
      (if RetriesOf(w, n) > 0 then
         w'.StateOf(n) == Pending && RetriesOf(w', n) == RetriesOf(w, n) - 1 && w'.status == w.status
       else
         w'.StateOf(n) == Failed && RetriesOf(w', n) == 0 && w'.status == SystemState.Failure)
      && forall m: U64 :: m in w.def.nodes && m != n ==>
           w'.StateOf(m) == w.StateOf(m) && RetriesOf(w', m) == RetriesOf(w, m)
  {
    IndexFinds(w.def, n);
    forall m: U64 | m in w.def.nodes && m != n
      ensures w.After(Fail(n)).StateOf(m) == w.StateOf(m) && RetriesOf(w.After(Fail(n)), m) == RetriesOf(w, m)
    {
      OnlyMoved(w, Fail(n), m);
    }
  }

  /** A start or a completion uses up none. */
  lemma OthersUseNoRetry(w: Instance, e: Event, n: U64)
    requires w.Shaped() && w.Accepts(e) && !e.Fail? && n in w.def.nodes
    ensures RetriesOf(w.After(e), n) == RetriesOf(w, n)
    ensures w.StateOf(n) == Failed <==> w.After(e).StateOf(n) == Failed
  {
    IndexFinds(w.def, n);
    IndexFinds(w.def, e.node);
    if n != e.node {
      OnlyMoved(w, e, n);
    }
  }

  // ---- Whole runs ----

  /** Failures so far and retries left make up what was granted; one more failure makes the node Failed. */
  ghost predicate Balanced(w: Instance, n: U64, granted: nat, failures: nat)
    requires w.Shaped() && n in w.def.nodes
  {
    failures + RetriesOf(w, n) == granted + (if w.StateOf(n) == Failed then 1 else 0)
    && (w.StateOf(n) == Failed ==> RetriesOf(w, n) == 0)
  }

  lemma EventBalances(w: Instance, e: Event, n: U64, granted: nat, failures: nat)
    requires w.Shaped() && n in w.def.nodes && Balanced(w, n, granted, failures)
    ensures Balanced(w.After(e), n, granted, failures + if e == Fail(n) && w.Accepts(e) then 1 else 0)
  {
    IndexFinds(w.def, n);
    if w.Accepts(e) {
      if e == Fail(n) {
        FailUsesRetry(w, n);
      } else if e.Fail? {
        OnlyMoved(w, e, n);
      } else {
        OthersUseNoRetry(w, e, n);
      }
    } else {
      RefusedKeeps(w, e);
    }
  }

  lemma {:induction false} RunBalances(w: Instance, events: seq<Event>, n: U64, granted: nat, failures: nat)
    requires w.Shaped() && n in w.def.nodes && Balanced(w, n, granted, failures)
    ensures Balanced(Run(w, events), n, granted, failures + Fails(w, events, n))
    decreases |events|
  {
    if events != [] {
      var more := if events[0] == Fail(n) && w.Accepts(events[0]) then 1 else 0;
      EventBalances(w, events[0], n, granted, failures);
      RunBalances(w.After(events[0]), events[1..], n, granted, failures + more);
    }
  }

  lemma NewBalances(d: Def, timeoutAt: Time, maxRetries: U64, n: U64)
    requires WellFormed(d) && n in d.nodes
    ensures var w := Instance.New(d, timeoutAt, maxRetries);
      w.Shaped() && w.status == SystemState.Running
      && RetriesOf(w, n) == PerNode(maxRetries) && Balanced(w, n, PerNode(maxRetries), 0)
  {
    NewIsPending(d, timeoutAt, maxRetries);
    IndexFinds(d, n);
  }

  /**
   In any run of a fresh instance the k-th accepted failure of a node is final if and only if k is one
   more than its retries, min(maxRetries, 65535). Each earlier one sends it back to Pending.
   */
  lemma FailsAreRetriedExactly(d: Def, timeoutAt: Time, maxRetries: U64, events: seq<Event>, n: U64)
    requires WellFormed(d) && Instance.New(d, timeoutAt, maxRetries).Shaped()
    requires Run(Instance.New(d, timeoutAt, maxRetries), events).Accepts(Fail(n))
    ensures n in d.nodes
    ensures var w0 := Instance.New(d, timeoutAt, maxRetries);
      var w := Run(w0, events);
      var w' := w.After(Fail(n));
      var k := Fails(w0, events, n) + 1;
      k <= 1 + PerNode(maxRetries)
      && (w'.StateOf(n) == Failed <==> k == 1 + PerNode(maxRetries))
      && (k <= PerNode(maxRetries) ==>
            w'.StateOf(n) == Pending && w'.status == w.status && RetriesOf(w', n) == PerNode(maxRetries) - k
            && forall m: U64 :: m in d.nodes && m != n ==>
                 w'.StateOf(m) == w.StateOf(m) && RetriesOf(w', m) == RetriesOf(w, m))
  {
    var w0 := Instance.New(d, timeoutAt, maxRetries);
    FailUsesRetry(Run(w0, events), n);
    NewBalances(d, timeoutAt, maxRetries, n);
    RunBalances(w0, events, n, PerNode(maxRetries), 0);
  }

  // ---- The status after every event ----

  /** Nothing but n is pending or active. */
  ghost predicate OnlyLeft(w: Instance, n: U64)
    requires w.Shaped()
  {
    forall m: U64 :: m in w.def.nodes && m != n ==> w.StateOf(m) == Completed || w.StateOf(m) == Failed
  }

  ghost predicate SomeFailed(w: Instance)
    requires w.Shaped()
  {
    exists m: U64 :: m in w.def.nodes && w.StateOf(m) == Failed
  }

  /** The status an event leads to, told from the instance before it. */
  ghost function StatusFor(w: Instance, e: Event): Status
    requires w.Shaped()
  {
    match e
    case Timeout => SystemState.Failure
    case Start(_) => w.status
    case Fail(n) =>
      if n in w.def.nodes && w.StateOf(n) == Active && RetriesOf(w, n) == 0 then SystemState.Failure else w.status
    case Complete(n) =>
      if n in w.def.nodes && w.StateOf(n) == Active && OnlyLeft(w, n) then
        if SomeFailed(w) then SystemState.Failure else SystemState.Success
      else w.status
  }

  /** The states after n completes, node by node. */
  ghost predicate CompletesOnly(w: Instance, w': Instance, n: U64)
    requires w.Shaped()
  {
    |w'.states| == |w.states|
    && forall j: nat :: j < |w.states| ==>
         w'.states[j] == if w.def.nodes[j] == n then Completed else w.StateOf(w.def.nodes[j])
  }

  lemma CompletionMeans(w: Instance, n: U64)
    requires w.Shaped() && w.Accepts(Complete(n))
    ensures CompletesOnly(w, w.After(Complete(n)), n) && n in w.def.nodes && w.StateOf(n) == Active
  {
    var i, to := EventMoves(w, Complete(n));
    var w' := w.After(Complete(n));
    StateAt(w, i);
    forall j: nat | j < |w.states|
      ensures w'.states[j] == if w.def.nodes[j] == n then Completed else w.StateOf(w.def.nodes[j])
    {
      StateAt(w', j);
      StatesAfter(w, w', i, to, w.def.nodes[j]);
    }
  }

  lemma StaysAs(w: Instance, w': Instance, n: U64, m: U64) returns (j: nat)
    requires w.Shaped() && CompletesOnly(w, w', n) && m in w.def.nodes && m != n
    ensures j < |w'.states| && w'.states[j] == w.StateOf(m)
  {
    j :| j < |w.def.nodes| && w.def.nodes[j] == m;
  }

  lemma EndsExactly(w: Instance, w': Instance, n: U64)
    requires w.Shaped() && CompletesOnly(w, w', n)
    ensures !Holds(w', Pending) && !Holds(w', Active) <==> OnlyLeft(w, n)
  {
    if !Holds(w', Pending) && !Holds(w', Active) {
      forall m: U64 | m in w.def.nodes && m != n
        ensures w.StateOf(m) == Completed || w.StateOf(m) == Failed
      {
        var j := StaysAs(w, w', n, m);
      }
    }
    if OnlyLeft(w, n) {
      forall j: nat | j < |w.states|
        ensures w'.states[j] == Completed || w'.states[j] == Failed
      {
        assert w.def.nodes[j] in w.def.nodes;
      }
    }
  }

  lemma FailureSeenExactly(w: Instance, w': Instance, n: U64)
    requires w.Shaped() && CompletesOnly(w, w', n) && w.StateOf(n) != Failed
    ensures Holds(w', Failed) <==> SomeFailed(w)
  {
    if Holds(w', Failed) {
      var j: nat :| j < |w.states| && w'.states[j] == Failed;
      assert w.def.nodes[j] in w.def.nodes;
    }
    if SomeFailed(w) {
      var m: U64 :| m in w.def.nodes && w.StateOf(m) == Failed;
      var j := StaysAs(w, w', n, m);
    }
  }

  /** Every event leads to just that status. */
  lemma StatusExactly(w: Instance, e: Event)
    requires Inv(w)
    ensures w.After(e).status == StatusFor(w, e)
  {
    if e.Timeout? || e.node !in w.def.nodes {
      RefusedKeeps(w, e);
    } else if e.Fail? {
      if w.Accepts(e) {
        FailUsesRetry(w, e.node);
      }
      FailNeedsActive(w, e.node);
    } else if e.Complete? {
      CompleteNeedsActive(w, e.node);
      if w.Accepts(e) {
        CompletionMeans(w, e.node);
        EndsExactly(w, w.After(e), e.node);
        FailureSeenExactly(w, w.After(e), e.node);
        AfterKeepsCounts(w, e);
        TerminalMeans(w.After(e));
        var i, to := EventMoves(w, e);
        StatusAfter(w, e, i, to);
      }
    }
  }

  lemma FailNeedsActive(w: Instance, n: U64)
    requires w.Shaped() && n in w.def.nodes
    ensures w.Accepts(Fail(n)) <==> w.StateOf(n) == Active
  {
  }

  // ---- What a refused start reports ----

  lemma {:induction false} UnsatisfiedExactly(w: Instance, preds: seq<U64>, p: U64)
    requires w.Shaped()
    ensures p in w.Unsatisfied(preds) <==> p in preds && w.StateOf(p) != Completed
  {
    if preds != [] {
      UnsatisfiedExactly(w, preds[..|preds| - 1], p);
      assert preds == preds[..|preds| - 1] + [preds[|preds| - 1]];
    }
  }

  /** A completion or failure is refused for an unknown node, or one that is not active. */
  lemma MoveRefusal(w: Instance, e: Event)
    requires w.Shaped() && (e.Complete? || e.Fail?) && w.Handle(e).Err?
    ensures w.Handle(e).error ==
      if e.node !in w.def.nodes then NodeNotFound(e.node)
      else InvalidTransition(e.node, w.StateOf(e.node), if e.Complete? then Completed else Failed)
    ensures e.node in w.def.nodes ==> w.StateOf(e.node) != Active
  {
    IndexFinds(w.def, e.node);
  }

  /** The error of a start names why it was refused: no such node, not pending, or exactly the sources still open. */
  lemma StartRefusal(w: Instance, n: U64)
    requires w.Shaped() && w.Handle(Start(n)).Err?
    ensures match w.Handle(Start(n)).error
      case NodeNotFound(m) => m == n && n !in w.def.nodes
      case InvalidTransition(m, from, to) =>
        m == n && n in w.def.nodes && from == w.StateOf(n) != Pending && to == Active
      case DependenciesNotSatisfied(m, deps) =>
        m == n && n in w.def.nodes && w.StateOf(n) == Pending && deps != []
        && forall p: U64 :: p in deps <==> Edge(p, n) in w.def.edges && w.StateOf(p) != Completed
  {
    IndexFinds(w.def, n);
    if n in w.def.nodes {
      var i := w.def.NodeIndex(n).value;
      forall p: U64
        ensures p in w.Unsatisfied(w.def.predecessors[i])
          <==> Edge(p, n) in w.def.edges && w.StateOf(p) != Completed
      {
        UnsatisfiedExactly(w, w.def.predecessors[i], p);
        SourcesMeaning(w.def.edges, n, p);
      }
    }
  }
}
