/** Workflow instances: node states, retries, aggregate counters, and the transitions on them. */
module Workflow {
  import opened Types
  import opened WorkflowGraph
  import SystemState

  datatype NodeState = Pending | Active | Completed | Failed

  type Status = SystemState.WorkflowStatus

  datatype WorkflowError =
    | NodeNotFound(node: U64)
    | InvalidTransition(node: U64, from: NodeState, to: NodeState)
    | DependenciesNotSatisfied(node: U64, deps: seq<U64>)

  /** Wrapping and saturating 32-bit steps of the counters. */
  function Inc32(n: U32): U32 {
    (n + 1) % (U32_MAX + 1)
  }

  function Dec32(n: U32): U32 {
    if n == 0 then 0 else n - 1
  }

  datatype Event = Start(node: U64) | Complete(node: U64) | Fail(node: U64) | Timeout

  datatype Instance = Instance(
    def: Def, status: Status, states: seq<NodeState>, retries: seq<U16>, timeoutAt: Time,
    pendingCt: U32, activeCt: U32, failedCt: U32)
  {
    static function New(def: Def, timeoutAt: Time, maxRetries: U64): Instance {
      var n := |def.nodes|;
      var perNode: U16 := if maxRetries > U16_MAX then U16_MAX else maxRetries;
      Instance(def, SystemState.Running, seq(n, _ => Pending), seq(n, _ => perNode), timeoutAt,
               n % (U32_MAX + 1), 0, 0)
    }

    /** What every instance made from a validated definition keeps of its shape. */
    ghost predicate Shaped() {
      WellFormed(def) && |states| == |def.nodes| && |retries| == |def.nodes|
    }

    function StateOf(n: U64): NodeState
      requires Shaped()
    {
      IndexFinds(def, n);
      match def.NodeIndex(n) case Some(i) => states[i] case None => Pending
    }

    function IsTerminal(): bool {
      pendingCt == 0 && activeCt == 0
    }

    function Unsatisfied(preds: seq<U64>): seq<U64>
      requires Shaped()
    {
      if preds == [] then []
      else
        var last := preds[|preds| - 1];
        Unsatisfied(preds[..|preds| - 1]) + if StateOf(last) == Completed then [] else [last]
    }

    /** Move one node, keeping the three counters in step. */
    function Transition(i: nat, to: NodeState): (r: Instance)
      requires i < |states|
      ensures r.def == def && r.states == states[i := to] && r.retries == retries
    {
      var w := match states[i]
        case Pending => this.(pendingCt := Dec32(pendingCt))
        case Active => this.(activeCt := Dec32(activeCt))
        case Failed => this.(failedCt := Dec32(failedCt))
        case Completed => this;
      var w' := match to
        case Pending => w.(pendingCt := Inc32(w.pendingCt))
        case Active => w.(activeCt := Inc32(w.activeCt))
        case Failed => w.(failedCt := Inc32(w.failedCt))
        case Completed => w;
      w'.(states := states[i := to])
    }

    function UpdateStatus(): Instance {
      if !IsTerminal() then this
      else this.(status := if failedCt > 0 then SystemState.Failure else SystemState.Success)
    }

    function StartNode(n: U64): (r: Result<Instance, WorkflowError>)
      requires Shaped()
      ensures r.Ok? ==> r.value.Shaped() && r.value.def == def
    {
      IndexFinds(def, n);
      match def.NodeIndex(n)
      case None => Err(NodeNotFound(n))
      case Some(i) =>
        if states[i] != Pending then Err(InvalidTransition(n, states[i], Active))
        else
          var waiting := Unsatisfied(def.predecessors[i]);
          if waiting != [] then Err(DependenciesNotSatisfied(n, waiting)) else Ok(Transition(i, Active))
    }

    function CompleteNode(n: U64): (r: Result<Instance, WorkflowError>)
      requires Shaped()
      ensures r.Ok? ==> r.value.Shaped() && r.value.def == def
    {
      IndexFinds(def, n);
      match def.NodeIndex(n)
      case None => Err(NodeNotFound(n))
      case Some(i) =>
        if states[i] != Active then Err(InvalidTransition(n, states[i], Completed))
        else Ok(Transition(i, Completed).UpdateStatus())
    }

    function FailNode(n: U64): (r: Result<Instance, WorkflowError>)
      requires Shaped()
      ensures r.Ok? ==> r.value.Shaped() && r.value.def == def
    {
      IndexFinds(def, n);
      match def.NodeIndex(n)
      case None => Err(NodeNotFound(n))
      case Some(i) =>
        if states[i] != Active then Err(InvalidTransition(n, states[i], Failed))
        else if retries[i] > 0 then Ok(Transition(i, Pending).(retries := retries[i := retries[i] - 1]))
        else Ok(Transition(i, Failed).(status := SystemState.Failure))
    }

    function ApplyTimeout(): Instance {
      this.(status := SystemState.Failure)
    }

    function Handle(e: Event): (r: Result<Instance, WorkflowError>)
      requires Shaped()
      ensures r.Ok? ==> r.value.Shaped() && r.value.def == def
    {
      match e
      case Start(n) => StartNode(n)
      case Complete(n) => CompleteNode(n)
      case Fail(n) => FailNode(n)
      case Timeout => Ok(ApplyTimeout())
    }

    /** The instance after an event, unchanged if the event is refused. */
    function After(e: Event): (w: Instance)
      requires Shaped()
      ensures w.Shaped() && w.def == def
    {
      match Handle(e) case Ok(w) => w case Err(_) => this
    }

    /** Whether the event is a move of a node that the instance accepts. */
    predicate Accepts(e: Event)
      requires Shaped()
    {
      !e.Timeout? && Handle(e).Ok?
    }
  }

  ghost function Run(w: Instance, events: seq<Event>): (w': Instance)
    requires w.Shaped()
    ensures w'.Shaped() && w'.def == w.def
    decreases |events|
  {
    if events == [] then w else Run(w.After(events[0]), events[1..])
  }

  lemma {:induction false} UnsatisfiedMeaning(w: Instance, preds: seq<U64>)
    requires w.Shaped()
    ensures w.Unsatisfied(preds) == [] <==> forall p :: p in preds ==> w.StateOf(p) == Completed
  {
    if preds != [] {
      UnsatisfiedMeaning(w, preds[..|preds| - 1]);
      assert preds == preds[..|preds| - 1] + [preds[|preds| - 1]];
    }
  }

  lemma PredecessorsAreNodes(d: Def, i: nat, p: U64)
    requires WellFormed(d) && i < |d.nodes| && p in d.predecessors[i]
    ensures p in d.nodes
  {
    SourcesMeaning(d.edges, d.nodes[i], p);
  }

  // ---- The measure ----

  function SatSum(retries: seq<U16>): U64 {
    if retries == [] then 0 else SaturatingAdd(SatSum(retries[..|retries| - 1]), retries[|retries| - 1])
  }

  function Measure(w: Instance, now: Time): U64 {
    var timeLeft := if w.timeoutAt > now then w.timeoutAt - now else 0;
    var pending := SaturatingAdd(timeLeft, SaturatingMul(w.pendingCt, 1000));
    var nodes := SaturatingAdd(pending, SaturatingMul(w.activeCt, 100));
    SaturatingAdd(nodes, SaturatingMul(SatSum(w.retries), 1000))
  }

  // ---- The object that is updated in place ----

  class WorkflowInstance {
    const def: Def
    var status: Status
    var nodeStates: seq<NodeState>
    var retries: seq<U16>
    const timeoutAt: Time
    var pendingCt: U32
    var activeCt: U32
    var failedCt: U32

    ghost function View(): Instance
      reads this
    {
      Instance(def, status, nodeStates, retries, timeoutAt, pendingCt, activeCt, failedCt)
    }

    constructor (def: Def, timeoutAt: Time, maxRetries: U64)
      ensures View() == Instance.New(def, timeoutAt, maxRetries)
    {
      var n := |def.nodes|;
      var retryVal: U16 := if maxRetries > U16_MAX then U16_MAX else maxRetries;
      this.def, this.timeoutAt := def, timeoutAt;
      status := SystemState.Running;
      nodeStates, retries := seq(n, _ => Pending), seq(n, _ => retryVal);
      pendingCt, activeCt, failedCt := n % (U32_MAX + 1), 0, 0;
    }

    method RequireNode(n: U64) returns (idx: Option<nat>)
      requires View().Shaped()
      ensures idx == def.NodeIndex(n)
      ensures idx.Some? <==> n in def.nodes
      ensures idx.Some? ==> idx.value < |nodeStates| && def.nodes[idx.value] == n
    {
      IndexFinds(def, n);
      idx := NodeIndexOf(def.nodeToIndex, n);
    }

    method DependenciesSatisfied(idx: nat) returns (satisfied: bool)
      requires View().Shaped() && idx < |def.nodes|
      ensures satisfied <==> View().Unsatisfied(def.predecessors[idx]) == []
    {
      var preds := def.predecessors[idx];
      UnsatisfiedMeaning(View(), preds);
      for j := 0 to |preds|
        invariant forall k :: 0 <= k < j ==> View().StateOf(preds[k]) == Completed
      {
        var pi := RequireNode(preds[j]);
        if pi.Some? && nodeStates[pi.value] != Completed {
          assert preds[j] in preds;
          return false;
        }
        PredecessorsAreNodes(def, idx, preds[j]);
      }
      satisfied := true;
    }

    /** The predecessors that have not completed, in edge order. */
    method CollectUnsatisfied(idx: nat) returns (unsatisfied: seq<U64>)
      requires View().Shaped() && idx < |def.nodes|
      ensures unsatisfied == View().Unsatisfied(def.predecessors[idx])
    {
      var preds := def.predecessors[idx];
      unsatisfied := [];
      for j := 0 to |preds|
        invariant unsatisfied == View().Unsatisfied(preds[..j])
      {
        var pi := RequireNode(preds[j]);
        if pi.None? || nodeStates[pi.value] != Completed {
          unsatisfied := unsatisfied + [preds[j]];
        }
        assert preds[..j + 1][..j] == preds[..j];
      }
      assert preds[..|preds|] == preds;
    }

    method Transition(idx: nat, newState: NodeState)
      requires idx < |nodeStates|
      modifies this`nodeStates, this`pendingCt, this`activeCt, this`failedCt
      ensures View() == old(View()).Transition(idx, newState)
    {
      match nodeStates[idx] {
        case Pending => pendingCt := if pendingCt == 0 then 0 else pendingCt - 1;
        case Active => activeCt := if activeCt == 0 then 0 else activeCt - 1;
        case Failed => failedCt := if failedCt == 0 then 0 else failedCt - 1;
        case Completed =>
      }
      match newState {
        case Pending => pendingCt := (pendingCt + 1) % (U32_MAX + 1);
        case Active => activeCt := (activeCt + 1) % (U32_MAX + 1);
        case Failed => failedCt := (failedCt + 1) % (U32_MAX + 1);
        case Completed =>
      }
      nodeStates := nodeStates[idx := newState];
    }

    method StartNode(n: U64) returns (e: Option<WorkflowError>)
      requires View().Shaped()
      modifies this
      ensures match old(View()).Handle(Start(n))
              case Ok(w) => View() == w && e == None
              case Err(err) => View() == old(View()) && e == Some(err)
    {
      var idx := RequireNode(n);
      if idx.None? {
        return Some(NodeNotFound(n));
      }
      var state := nodeStates[idx.value];
      if state != Pending {
        return Some(InvalidTransition(n, state, Active));
      }
      var satisfied := DependenciesSatisfied(idx.value);
      if !satisfied {
        var unsatisfied := CollectUnsatisfied(idx.value);
        return Some(DependenciesNotSatisfied(n, unsatisfied));
      }
      Transition(idx.value, Active);
      e := None;
    }

    method CompleteNode(n: U64) returns (e: Option<WorkflowError>)
      requires View().Shaped()
      modifies this
      ensures match old(View()).Handle(Complete(n))
              case Ok(w) => View() == w && e == None
              case Err(err) => View() == old(View()) && e == Some(err)
    {
      var idx := RequireNode(n);
      if idx.None? {
        return Some(NodeNotFound(n));
      }
      var state := nodeStates[idx.value];
      if state != Active {
        return Some(InvalidTransition(n, state, Completed));
      }
      Transition(idx.value, Completed);
      if pendingCt == 0 && activeCt == 0 {
        if failedCt > 0 {
          status := SystemState.Failure;
        } else {
          status := SystemState.Success;
        }
      }
      e := None;
    }

    method FailNode(n: U64) returns (e: Option<WorkflowError>)
      requires View().Shaped()
      modifies this
      ensures match old(View()).Handle(Fail(n))
              case Ok(w) => View() == w && e == None
              case Err(err) => View() == old(View()) && e == Some(err)
    {
      var idx := RequireNode(n);
      if idx.None? {
        return Some(NodeNotFound(n));
      }
      var state := nodeStates[idx.value];
      if state != Active {
        return Some(InvalidTransition(n, state, Failed));
      }
      if retries[idx.value] > 0 {
        Transition(idx.value, Pending);
        retries := retries[idx.value := retries[idx.value] - 1];
      } else {
        Transition(idx.value, Failed);
        status := SystemState.Failure;
      }
      e := None;
    }

    method ApplyTimeout()
      modifies this`status
      ensures View() == old(View()).ApplyTimeout()
    {
      status := SystemState.Failure;
    }
  }
}
