/** The whole kernel state, and the operations on it in their copying form. */
module SystemState {
  import opened Types
  import opened Capabilities
  import opened Crypto
  import opened Keys
  import opened CapTable
  import opened PagedMemory
  import opened Resources
  import opened Actors

  datatype Decision = Permit | Deny | Indeterminate

  datatype Action = Action(subject: PluginId, target: ResourceId, rights: Rights, kind: string)

  datatype PolicyContext = PolicyContext(now: Time, callOrigin: Option<PluginId>)

  datatype Policy = DenyAll | PermitAll | Custom(decision: Decision)
  {
    function Eval(action: Action, ctx: PolicyContext): Decision {
      match this case DenyAll => Deny case PermitAll => Permit case Custom(d) => d
    }
  }

  datatype WorkflowStatus = Running | Success | Failure

  datatype PluginState = PluginState(
    level: SecurityLevel, memory: Mem, heldCaps: set<CapId>,
    memoryQuota: U64, memoryUsed: U64, capQuota: U64, ipcQueueLimit: U64)
  {
    static function Empty(level: SecurityLevel, memSize: Size): PluginState {
      var quota := U64_MAX / 2;
      PluginState(level, Mem(map[], memSize), {}, quota, 0, quota, quota)
    }

    /** Fails on overflow as well as on the quota. */
    predicate CanAllocMemory(size: U64) {
      memoryUsed + size <= U64_MAX && memoryUsed + size <= memoryQuota
    }

    function GrantCap(id: CapId): PluginState {
      this.(heldCaps := heldCaps + {id})
    }
  }

  datatype KernelState = KernelState(
    keys: KeyState, policy: Policy, revocation: Table, now: Time, nextCapId: CapId)

  datatype StateError =
    | DanglingCapability(addr: MemAddr)
    | ResourceNotFound(rid: MemAddr)
    | PluginExists(pid: PluginId)
    | TimeOverflow

  datatype ApiError =
    | KernelFailed(kernel: KernelError)
    | CapabilityFailed(cap: CapabilityError)
    | Aborted

  datatype State = State(
    kernel: KernelState,
    plugins: map<PluginId, PluginState>,
    actors: map<ActorId, Actor>,
    resources: map<ResourceId, SecurityLevel>,
    workflows: map<WorkflowId, WorkflowStatus>,
    meta: Meta)
  {
    function Caps(): Table {
      kernel.revocation
    }

    function PluginLevel(pid: PluginId): Option<SecurityLevel> {
      if pid in plugins then Some(plugins[pid].level) else None
    }

    predicate PluginHolds(pid: PluginId, id: CapId) {
      pid in plugins && id in plugins[pid].heldCaps
    }

    function WithCaps(t: Table): State {
      this.(kernel := kernel.(revocation := t))
    }

    function WithPlugin(pid: PluginId, p: PluginState): State {
      this.(plugins := plugins[pid := p])
    }

    function WithActor(aid: ActorId, a: Actor): State {
      this.(actors := actors[aid := a])
    }

    function ApplyAlloc(owner: PluginId): State {
      this.(meta := meta.Alloc(meta.NextAddr(), owner))
    }

    /** Refuses while a valid capability still targets the address. */
    function ApplyFree(addr: MemAddr): Result<State, StateError> {
      if Caps().AnyValidTargeting(addr) then Err(DanglingCapability(addr))
      else Ok(this.(meta := meta.Free(addr)))
    }

    function ApplyCapRevoke(id: CapId): State {
      WithCaps(Caps().RevokeTransitive(id))
    }

    function ApplyCapDelegate(cap: Capability, target: PluginId): Result<State, KernelError> {
      match Caps().InsertCap(cap)
      case Err(e) => Err(e)
      case Ok(t) =>
        var s := WithCaps(t);
        Ok(if target in plugins then s.WithPlugin(target, plugins[target].GrantCap(cap.id)) else s)
    }

    function InsertPlugin(pid: PluginId, p: PluginState): Result<State, StateError> {
      if pid in plugins then Err(PluginExists(pid)) else Ok(WithPlugin(pid, p))
    }

    function Tick(): Result<State, StateError> {
      if kernel.now == U64_MAX then Err(TimeOverflow)
      else Ok(this.(kernel := kernel.(now := kernel.now + 1)))
    }

    function WithNextCapId(id: CapId): State {
      this.(kernel := kernel.(nextCapId := id))
    }

    function WithKeys(keys: KeyState): State {
      this.(kernel := kernel.(keys := keys))
    }

    /** The sealed record of a child that is about to be minted under the next id. */
    function NewChild(parentId: CapId, parentTarget: ResourceId, holder: PluginId, rights: Rights)
      : (r: Result<Capability, ApiError>)
      ensures r.Ok? <==> parentId != U128_MAX && holder != 0 && rights != {}
      ensures r.Ok? ==> Serializable(r.value.GetPayload())
      ensures r.Ok? ==> Crypto.VerifySeal(kernel.keys.current, r.value.GetPayload(), r.value.signature)
      ensures r.Ok? ==>
        r.value.id == kernel.nextCapId && r.value.holder == holder && r.value.target == parentTarget
        && r.value.rights == rights && r.value.parent == Some(parentId)
        && r.value.epoch == kernel.keys.epoch && r.value.valid
    {
      var payload := Payload(holder, parentTarget, rights, Some(parentId), kernel.keys.epoch);
      if !Serializable(payload) then Err(Aborted)
      else
        match Capability.New(kernel.nextCapId, payload, Seal(kernel.keys.current, payload))
        case Err(e) => Err(CapabilityFailed(e))
        case Ok(child) => Ok(child)
    }

    /**
     Kernel minting under a parent already found valid. The id counter moves first, so it also moves
     on an abort in the seal, on an invalid holder and on a collision.
     */
    function MintChild(parentId: CapId, parentTarget: ResourceId, holder: PluginId, rights: Rights)
      : (State, Result<CapId, ApiError>)
    {
      if kernel.nextCapId == U128_MAX then (this, Err(KernelFailed(CapIdExhausted)))
      else
        var s := WithNextCapId(kernel.nextCapId + 1);
        match NewChild(parentId, parentTarget, holder, rights)
        case Err(e) => (s, Err(e))
        case Ok(child) =>
          match s.ApplyCapDelegate(child, holder)
          case Err(e) => (s, Err(KernelFailed(e)))
          case Ok(s') => (s', Ok(kernel.nextCapId))
    }

    function DelegateCap(parentId: CapId, target: PluginId, requested: Rights): (State, Result<CapId, ApiError>) {
      match Caps().Lookup(parentId)
      case None => (this, Err(KernelFailed(CapNotFound(parentId))))
      case Some(parent) =>
        var rights := requested * parent.rights;
        if !parent.valid then (this, Err(CapabilityFailed(CapabilityError.Revoked)))
        else if rights == {} then (this, Err(CapabilityFailed(EmptyRights)))
        else MintChild(parentId, parent.target, target, rights)
    }

    /** Every plugin but the active one is as it was. */
    predicate PreservesIsolation(other: State, active: PluginId) {
      forall pid :: pid in plugins && pid != active ==> pid in other.plugins && other.plugins[pid] == plugins[pid]
    }

    /** Freed addresses stay freed. */
    predicate TemporalSafety(other: State) {
      meta.freed <= other.meta.freed
    }
  }

  function InitialState(): State {
    State(KernelState(KeyState(seq(32, _ => 0), 0, None, None), DenyAll, EMPTY_TABLE, 0, 0),
          map[], map[], map[], map[], EMPTY_META)
  }

  // ---- What an observer at a level can see ----

  predicate LowLeft(l: SecurityLevel, s: State, t: State) {
    (forall pid :: pid in s.plugins && s.plugins[pid].level.Rank() <= l.Rank() ==>
        pid in t.plugins && t.plugins[pid] == s.plugins[pid])
    && (forall rid :: rid in s.resources && s.resources[rid].Rank() <= l.Rank() ==>
        rid in t.resources && t.resources[rid] == s.resources[rid])
  }

  predicate LowEquivalent(l: SecurityLevel, s: State, t: State) {
    LowLeft(l, s, t) && LowLeft(l, t, s)
  }
}
