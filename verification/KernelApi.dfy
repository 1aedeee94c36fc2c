/** The kernel's operations as transitions of the state, and histories of them. */
module KernelApi {
  import opened Types
  import opened Capabilities
  import opened CapTable
  import opened Resources
  import opened Actors
  import opened SystemState
  import opened Steps
  import opened Simulation

  /** The public operations, and the two on keys that kernel code reserves to itself. */
  datatype ApiOp =
    | RegisterPlugin(pid: PluginId, level: SecurityLevel, memSize: Size)
    | InsertCapRaw(cap: Capability, target: PluginId)
    | Delegate(parent: CapId, to: PluginId, rights: Rights)
    | RevokeCap(id: CapId)
    | Alloc(owner: PluginId)
    | FreeAddr(addr: MemAddr)
    | TickClock
    | RunStep(step: Step)
    | RunCopying(step: Step)
    | RotateKey(key: Key)
    | ClearPreviousKey

  function Register(s: State, pid: PluginId, level: SecurityLevel, memSize: Size): (State, bool) {
    match s.InsertPlugin(pid, PluginState.Empty(level, memSize))
    case Ok(s') => (s', true)
    case Err(_) => (s, false)
  }

  function InsertRaw(s: State, cap: Capability, target: PluginId): (State, Result<(), KernelError>) {
    match s.ApplyCapDelegate(cap, target)
    case Ok(s') => (s', Ok(()))
    case Err(e) => (s, Err(e))
  }

  ghost function RevokeById(s: State, id: CapId): (State, Result<(), KernelError>) {
    if s.Caps().Present(id) then (RevokeInPlace(s, id), Ok(())) else (s, Err(CapNotFound(id)))
  }

  /** The copying execution replaces the state on success only. */
  function StepCopying(s: State, step: Step): State {
    match ExecuteStep(s, step) case Ok(s') => s' case Err(_) => s
  }

  /** The state after one operation, whether or not it succeeded. */
  ghost function Apply(s: State, op: ApiOp): State {
    match op
    case RegisterPlugin(pid, level, memSize) => Register(s, pid, level, memSize).0
    case InsertCapRaw(cap, target) => InsertRaw(s, cap, target).0
    case Delegate(parent, to, rights) => s.DelegateCap(parent, to, rights).0
    case RevokeCap(id) => RevokeById(s, id).0
    case Alloc(owner) => s.ApplyAlloc(owner)
    case FreeAddr(addr) => FreeInPlace(s, addr).0
    case TickClock => (match s.Tick() case Ok(s') => s' case Err(_) => s)
    case RunStep(step) => StepInPlace(s, step).0
    case RunCopying(step) => StepCopying(s, step)
    case RotateKey(key) => s.WithKeys(s.kernel.keys.AfterRotate(key))
    case ClearPreviousKey => s.WithKeys(s.kernel.keys.Cleared())
  }

  ghost function Run(s: State, ops: seq<ApiOp>): State
    decreases |ops|
  {
    if ops == [] then s else Run(Apply(s, ops[0]), ops[1..])
  }

  predicate TargetsFreed(m: Meta, cap: Capability) {
    cap.target <= U64_MAX && m.IsFreed(cap.target)
  }

  /**
   A raw insertion is of a root, valid only off the freed addresses, or it collides; and a copying
   step does what the in-place step does.
   */
  ghost predicate SoundOp(s: State, op: ApiOp) {
    match op
    case InsertCapRaw(cap, _) =>
      s.Caps().Present(cap.id) || (cap.parent == None && (cap.valid ==> !TargetsFreed(s.meta, cap)))
    case RunCopying(step) => !FormsPart(s, step)
    case _ => true
  }

  /** A history whose every operation is sound where it happens. */
  ghost predicate SoundHistory(s: State, ops: seq<ApiOp>)
    decreases |ops|
  {
    ops == [] || (SoundOp(s, ops[0]) && SoundHistory(Apply(s, ops[0]), ops[1..]))
  }

  /** A raw insertion collides, or uses an id that the counter has passed, with a parent before it if any. */
  ghost predicate OrderedOp(s: State, op: ApiOp) {
    op.InsertCapRaw? ==>
      s.Caps().Present(op.cap.id)
      || (op.cap.id < s.kernel.nextCapId && (op.cap.parent.Some? ==> op.cap.parent.value < op.cap.id))
  }

  ghost predicate OrderedHistory(s: State, ops: seq<ApiOp>)
    decreases |ops|
  {
    ops == [] || (OrderedOp(s, ops[0]) && OrderedHistory(Apply(s, ops[0]), ops[1..]))
  }
}
