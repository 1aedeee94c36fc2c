/**
 The step relation: authorisation, the host functions, kernel operations, and one step of the state
 machine in its copying form.
 */
module Steps {
  import opened Types
  import opened Capabilities
  import opened CapTable
  import opened PagedMemory
  import opened Actors
  import opened SystemState

  // ---- Requests ----

  type Region = (MemAddr, Size)

  datatype HostFunction = CapCall | CapSend | KernelAlloc | MemFree | CapRevoke | Declassify | ThreadOperation

  datatype HostCall = HostCall(
    caller: PluginId, function_: HostFunction, args: seq<U64>, reads_: seq<Region>, writes: seq<Region>)

  datatype HostResult = HostResult(newCaps: seq<Capability>, newMsgs: seq<Message>)

  datatype PluginInternal = PluginInternal(reads_: seq<Region>, writes: seq<Region>, consumeMailbox: bool)

  datatype KernelOp =
    | RouteOne(dst: ActorId)
    | WorkflowTick(wid: WorkflowId)
    | TimeTick
    | UnblockSend(dst: ActorId)
    | ThreadSwitch

  /** The witness a host-call step carries: the capability as it was, the action and its context. */
  datatype Authorized = Authorized(cap: Capability, action: Action, ctx: PolicyContext)

  datatype Step =
    | PluginStep(pid: PluginId, pi: PluginInternal)
    | Host(hc: HostCall, auth: Authorized, result: HostResult)
    | Kernel(op: KernelOp)
    | Free(caller: PluginId, addr: MemAddr)
    | RevokeCap(caller: PluginId, capId: CapId)
  {
    function Subject(): Option<PluginId> {
      match this
      case PluginStep(pid, _) => Some(pid)
      case Host(hc, _, _) => Some(hc.caller)
      case Kernel(_) => None
      case Free(caller, _) => Some(caller)
      case RevokeCap(caller, _) => Some(caller)
    }

    function Level(s: State): SecurityLevel {
      match Subject()
      case None => Secret
      case Some(pid) => match s.PluginLevel(pid) case Some(level) => level case None => Public
    }

    predicate IsDeclassify() {
      Host? && hc.function_ == HostFunction.Declassify
    }
  }

  datatype AuthorizationError =
    | HolderMismatch(expected: PluginId, actual: PluginId)
    | TargetMismatch(want: ResourceId, got: ResourceId)
    | InsufficientRights
    | CapabilityNotHeld(id: CapId)
    | PolicyDenied
    | NotInTable(id: CapId)
    | RevokedInChain(id: CapId)
    | ResourceNotLive(addr: MemAddr)
    | BibaViolation

  datatype StepError =
    | PluginNotFound(pid: PluginId)
    | ActorNotFound(aid: ActorId)
    | AddressAlreadyFreed(addr: MemAddr)
    | CapabilityTargetsAddress(cap: CapId, addr: MemAddr)
    | CapabilityNotFound(cap: CapId)
    | AuthorizationFailed(auth: AuthorizationError)
    | MismatchedHostCall
    | Blocked(pid: PluginId, on: Option<ActorId>)
    | ReadOutOfBounds(region: Region)
    | WriteOutOfBounds(region: Region)
    | MailboxEmpty
    | NoValidCapability
    | NoMessageToSend
    | SourceMismatch
    | MailboxFull
    | InvalidSecurityLevel(value: U64)
    | CannotClassifyUp
    | NoAddress
    | NoCapabilityId
    | FreeFailed(source: StateError)
    | NotImplemented
    | QuotaExceeded(requested: U64, used: U64, quota: U64)
    | NoPendingMessages(dst: ActorId)
    | MailboxAtCapacity(dst: ActorId)
    | WorkflowNotFound(wid: WorkflowId)
    | WorkflowNotRunning(wid: WorkflowId)
    | CounterOverflow
    | StateFailed(state: StateError)

  type Check = Option<StepError>

  // ---- Authorisation ----

  function RequiredAction(hc: HostCall): Result<Action, StepError> {
    match hc.function_
    case CapCall =>
      if hc.args == [] then Err(NoCapabilityId)
      else Ok(Action(hc.caller, hc.args[0], {Right.Read}, "cap_call"))
    case KernelAlloc => Ok(Action(hc.caller, 0, {Right.Create}, "kernel_alloc"))
    case MemFree =>
      if hc.args == [] then Err(NoAddress)
      else Ok(Action(hc.caller, hc.args[0], {Right.Delete}, "mem_free"))
    case CapRevoke =>
      if hc.args == [] then Err(NoCapabilityId)
      else Ok(Action(hc.caller, hc.args[0], {Right.Revoke}, "cap_revoke"))
    case Declassify => Ok(Action(hc.caller, 0, {Right.Declassify}, "declassify"))
    case CapSend => Ok(Action(hc.caller, 0, {Right.Send}, "cap_send"))
    case ThreadOperation => Err(NotImplemented)
  }

  function Truncate(rid: ResourceId): MemAddr {
    rid % (U64_MAX + 1)
  }

  function LevelOrPublic(s: State, pid: PluginId): SecurityLevel {
    match s.PluginLevel(pid) case Some(level) => level case None => Public
  }

  function ResourceIntegrity(s: State, addr: MemAddr): SecurityLevel {
    if s.meta.IsAllocated(addr) then LevelOrPublic(s, s.meta.resources[addr].owner) else Public
  }

  predicate BibaWriteOk(s: State, action: Action) {
    Right.Write in action.rights ==>
      LevelOrPublic(s, action.subject).Rank() >= ResourceIntegrity(s, Truncate(action.target)).Rank()
  }

  function CheckCapability(s: State, a: Authorized): Option<AuthorizationError> {
    if a.cap.holder != a.action.subject then Some(HolderMismatch(a.action.subject, a.cap.holder))
    else if a.cap.target != a.action.target then Some(TargetMismatch(a.action.target, a.cap.target))
    else if !(a.action.rights <= a.cap.rights) then Some(InsufficientRights)
    else if !s.PluginHolds(a.action.subject, a.cap.id) then Some(CapabilityNotHeld(a.cap.id))
    else None
  }

  /** The table is consulted for the capability and for one parent; nothing further up is looked at. */
  function CheckValidity(s: State, a: Authorized): Option<AuthorizationError> {
    match s.Caps().Lookup(a.cap.id)
    case None => Some(NotInTable(a.cap.id))
    case Some(cap) =>
      if !cap.valid then Some(RevokedInChain(a.cap.id))
      else if a.cap.parent.Some? && !s.Caps().IsValid(a.cap.parent.value)
      then Some(RevokedInChain(a.cap.parent.value))
      else None
  }

  function Validate(s: State, a: Authorized): Option<AuthorizationError> {
    if CheckCapability(s, a).Some? then CheckCapability(s, a)
    else if s.kernel.policy.Eval(a.action, a.ctx) != Permit then Some(PolicyDenied)
    else if CheckValidity(s, a).Some? then CheckValidity(s, a)
    else if !s.meta.IsLive(Truncate(a.action.target)) then Some(ResourceNotLive(Truncate(a.action.target)))
    else if !(a.action.rights <= a.cap.rights) then Some(InsufficientRights)
    else if !BibaWriteOk(s, a.action) then Some(BibaViolation)
    else None
  }

  /** The public validator: a witness for any capability record the caller brings, valid or made up. */
  function ValidateAtomic(s: State, cap: Capability, action: Action, ctx: PolicyContext)
    : Result<Authorized, AuthorizationError>
  {
    match Validate(s, Authorized(cap, action, ctx))
    case Some(e) => Err(e)
    case None => Ok(Authorized(cap, action, ctx))
  }

  /** Build a host-call step on a capability of the table: bind the action to the call and validate at once. */
  function HostCallAtomic(s: State, hc: HostCall, capId: CapId, ctx: PolicyContext, result: HostResult)
    : Result<Step, StepError>
  {
    match s.Caps().Lookup(capId)
    case None => Err(CapabilityNotFound(capId))
    case Some(cap) =>
      match RequiredAction(hc)
      case Err(e) => Err(e)
      case Ok(action) =>
        if cap.holder != hc.caller then Err(AuthorizationFailed(HolderMismatch(hc.caller, cap.holder)))
        else
          match ValidateAtomic(s, cap, action, ctx)
          case Err(e) => Err(AuthorizationFailed(e))
          case Ok(auth) => Ok(Host(hc, auth, result))
  }

  // ---- Preconditions ----

  function FirstOutOfBounds(mem: Mem, regions: seq<Region>): Option<Region> {
    if regions == [] then None
    else if !mem.AddrInBounds(regions[0].0, regions[0].1) then Some(regions[0])
    else FirstOutOfBounds(mem, regions[1..])
  }

  /** Each write is re-checked for one byte, whatever its declared size. */
  function FirstUnwritable(mem: Mem, regions: seq<Region>): Option<Region> {
    if regions == [] then None
    else if !mem.AddrInBounds(regions[0].0, 1) then Some((regions[0].0, 1))
    else FirstUnwritable(mem, regions[1..])
  }

  function CheckInternal(s: State, pid: PluginId, pi: PluginInternal): Check {
    if pid !in s.plugins then Some(PluginNotFound(pid))
    else
      var mem := s.plugins[pid].memory;
      if pid in s.actors && s.actors[pid].IsBlocked() then Some(Blocked(pid, s.actors[pid].blockedOn))
      else if FirstOutOfBounds(mem, pi.reads_).Some? then Some(ReadOutOfBounds(FirstOutOfBounds(mem, pi.reads_).value))
      else if FirstOutOfBounds(mem, pi.writes).Some? then Some(WriteOutOfBounds(FirstOutOfBounds(mem, pi.writes).value))
      else if pi.consumeMailbox && pid in s.actors && !s.actors[pid].CanReceive() then Some(MailboxEmpty)
      else if FirstUnwritable(mem, pi.writes).Some? then Some(WriteOutOfBounds(FirstUnwritable(mem, pi.writes).value))
      else None
  }

  function CheckHostCall(s: State, hc: HostCall, auth: Authorized): Check {
    if auth.action.subject != hc.caller then
      Some(AuthorizationFailed(HolderMismatch(auth.action.subject, hc.caller)))
    else
      match RequiredAction(hc)
      case Err(e) => Some(e)
      case Ok(derived) =>
        if derived != auth.action then Some(MismatchedHostCall)
        else if Validate(s, auth).Some? then Some(AuthorizationFailed(Validate(s, auth).value))
        else if hc.caller !in s.plugins then Some(PluginNotFound(hc.caller))
        else
          var mem := s.plugins[hc.caller].memory;
          var badRead, badWrite := FirstOutOfBounds(mem, hc.reads_), FirstOutOfBounds(mem, hc.writes);
          if badRead.Some? then Some(ReadOutOfBounds(badRead.value))
          else if badWrite.Some? then Some(WriteOutOfBounds(badWrite.value))
          else None
  }

  function CheckMessages(s: State, caller: PluginId, msgs: seq<Message>): Check {
    if msgs == [] then None
    else
      var msg := msgs[0];
      if msg.src != caller then Some(SourceMismatch)
      else if msg.dst !in s.actors then Some(ActorNotFound(msg.dst))
      else if |s.actors[msg.dst].mailbox| >= s.actors[msg.dst].capacity then Some(MailboxFull)
      else CheckMessages(s, caller, msgs[1..])
  }

  /** The first valid capability, in table order, that targets the address. */
  function FirstTargeting(caps: CapVec, addr: MemAddr): Option<CapId> {
    if caps == [] then None
    else if caps[0].1.valid && caps[0].1.target == addr then Some(caps[0].0)
    else FirstTargeting(caps[1..], addr)
  }

  function CheckFree(s: State, addr: MemAddr): Check {
    if addr in s.meta.freed then Some(AddressAlreadyFreed(addr))
    else
      match FirstTargeting(s.Caps().caps, addr)
      case Some(cap) => Some(CapabilityTargetsAddress(cap, addr))
      case None => None
  }

  function LevelOf(value: U64): Option<SecurityLevel> {
    if value == 0 then Some(Public) else if value == 1 then Some(SecurityLevel.Internal)
    else if value == 2 then Some(Confidential) else if value == 3 then Some(Secret)
    else None
  }

  function ArgOrZero(hc: HostCall): U64 {
    if hc.args == [] then 0 else hc.args[0]
  }

  function CheckHostFunction(s: State, hc: HostCall, result: HostResult): Check {
    match hc.function_
    case CapCall =>
      if hc.caller !in s.plugins then Some(PluginNotFound(hc.caller))
      else if exists id | id in s.plugins[hc.caller].heldCaps :: s.Caps().IsValid(id) then None
      else Some(NoValidCapability)
    case CapSend =>
      if result.newMsgs == [] then Some(NoMessageToSend) else CheckMessages(s, hc.caller, result.newMsgs)
    case KernelAlloc =>
      if hc.caller !in s.plugins then Some(PluginNotFound(hc.caller))
      else
        var p, size := s.plugins[hc.caller], ArgOrZero(hc);
        if p.CanAllocMemory(size) then None else Some(QuotaExceeded(size, p.memoryUsed, p.memoryQuota))
    case MemFree =>
      if hc.args == [] then Some(NoAddress) else CheckFree(s, hc.args[0])
    case CapRevoke =>
      if hc.args == [] then Some(NoCapabilityId)
      else if !s.Caps().Present(hc.args[0]) then Some(CapabilityNotFound(hc.args[0]))
      else None
    case Declassify =>
      (match LevelOf(ArgOrZero(hc))
       case None => Some(InvalidSecurityLevel(ArgOrZero(hc)))
       case Some(level) =>
         if hc.caller !in s.plugins then Some(PluginNotFound(hc.caller))
         else if level.Rank() > s.plugins[hc.caller].level.Rank() then Some(CannotClassifyUp)
         else None)
    case ThreadOperation => Some(NotImplemented)
  }

  function CheckKernelOp(s: State, op: KernelOp): Check {
    match op
    case RouteOne(dst) =>
      if dst !in s.actors then Some(ActorNotFound(dst))
      else if s.actors[dst].pending == [] then Some(NoPendingMessages(dst))
      else if |s.actors[dst].mailbox| >= s.actors[dst].capacity then Some(MailboxAtCapacity(dst))
      else None
    case WorkflowTick(wid) =>
      if wid !in s.workflows then Some(WorkflowNotFound(wid))
      else if s.workflows[wid] != Running then Some(WorkflowNotRunning(wid))
      else None
    case TimeTick => if s.kernel.now == U64_MAX then Some(StepError.CounterOverflow) else None
    case UnblockSend(dst) => if dst !in s.actors then Some(ActorNotFound(dst)) else None
    case ThreadSwitch => Some(NotImplemented)
  }

  /** Everything that can stop a step before it touches the state. */
  function CheckStep(s: State, step: Step): Check {
    match step
    case PluginStep(pid, pi) => CheckInternal(s, pid, pi)
    case Host(hc, auth, result) =>
      (match CheckHostCall(s, hc, auth)
       case Some(e) => Some(e)
       case None => CheckHostFunction(s, hc, result))
    case Kernel(op) => CheckKernelOp(s, op)
    case Free(_, addr) => CheckFree(s, addr)
    case RevokeCap(_, capId) => if s.Caps().Present(capId) then None else Some(CapabilityNotFound(capId))
  }

  // ---- Effects ----

  function AllocEffect(s: State, hc: HostCall): State
    requires hc.caller in s.plugins
  {
    var p := s.plugins[hc.caller];
    s.ApplyAlloc(hc.caller).WithPlugin(hc.caller, p.(memoryUsed := SaturatingAdd(p.memoryUsed, ArgOrZero(hc))))
  }

  function HostEffect(s: State, hc: HostCall): State {
    match hc.function_
    case KernelAlloc => if hc.caller in s.plugins then AllocEffect(s, hc) else s
    case MemFree =>
      if hc.args == [] then s
      else (match s.ApplyFree(hc.args[0]) case Ok(s') => s' case Err(_) => s)
    case CapRevoke => if hc.args == [] then s else s.ApplyCapRevoke(hc.args[0])
    case Declassify =>
      (match LevelOf(ArgOrZero(hc))
       case Some(level) =>
         if hc.caller in s.plugins then s.WithPlugin(hc.caller, s.plugins[hc.caller].(level := level)) else s
       case None => s)
    case _ => s
  }

  function InternalEffect(s: State, pid: PluginId, pi: PluginInternal): State {
    if pi.consumeMailbox && pid in s.actors then s.WithActor(pid, s.actors[pid].Consume().0) else s
  }

  function KernelEffect(s: State, op: KernelOp): State {
    match op
    case RouteOne(dst) => if dst in s.actors then s.WithActor(dst, s.actors[dst].Deliver()) else s
    case TimeTick => (match s.Tick() case Ok(s') => s' case Err(_) => s)
    case UnblockSend(dst) => if dst in s.actors then s.WithActor(dst, s.actors[dst].Unblock()) else s
    case _ => s
  }

  function StepEffect(s: State, step: Step): State {
    match step
    case PluginStep(pid, pi) => InternalEffect(s, pid, pi)
    case Host(hc, _, _) => HostEffect(s, hc)
    case Kernel(op) => KernelEffect(s, op)
    case Free(_, addr) => (match s.ApplyFree(addr) case Ok(s') => s' case Err(_) => s)
    case RevokeCap(_, capId) => s.ApplyCapRevoke(capId)
  }

  /** One step in copying form: either an error, or a new state. */
  function ExecuteStep(s: State, step: Step): Result<State, StepError> {
    match CheckStep(s, step)
    case Some(e) => Err(e)
    case None => Ok(StepEffect(s, step))
  }

  function ExecuteAll(s: State, steps: seq<Step>): Result<State, StepError>
    decreases |steps|
  {
    if steps == [] then Ok(s)
    else
      match ExecuteStep(s, steps[0])
      case Err(e) => Err(e)
      case Ok(s') => ExecuteAll(s', steps[1..])
  }

  lemma {:induction false} FirstTargetingFinds(caps: CapVec, addr: MemAddr)
    ensures FirstTargeting(caps, addr).Some?
        <==> exists i :: 0 <= i < |caps| && caps[i].1.valid && caps[i].1.target == addr
  {
    if caps != [] {
      FirstTargetingFinds(caps[1..], addr);
      if i: nat :| 0 <= i < |caps| && caps[i].1.valid && caps[i].1.target == addr {
        assert i > 0 ==> caps[1..][i - 1] == caps[i];
      }
      assert forall i :: 0 <= i < |caps[1..]| ==> caps[1..][i] == caps[i + 1];
    }
  }

  /** So the guard inside ApplyFree never fires after CheckFree has passed. */
  lemma CheckedFreeApplies(s: State, addr: MemAddr)
    requires CheckFree(s, addr) == None
    ensures s.ApplyFree(addr).Ok?
  {
    FirstTargetingFinds(s.Caps().caps, addr);
  }

  lemma NaiveRevokeKeepsLayout(t: Table, id: CapId)
    requires Layout(t)
    ensures Layout(t.RevokeTransitive(id))
  {
  }

  lemma StepKeepsLayout(s: State, step: Step)
    requires Layout(s.Caps())
    ensures Layout(StepEffect(s, step).Caps())
  {
    match step
    case RevokeCap(_, capId) => NaiveRevokeKeepsLayout(s.Caps(), capId);
    case Host(hc, _, _) =>
      if hc.function_.CapRevoke? && hc.args != [] {
        NaiveRevokeKeepsLayout(s.Caps(), hc.args[0]);
      } else {
        assert HostEffect(s, hc).Caps() == s.Caps();
      }
    case _ => assert StepEffect(s, step).Caps() == s.Caps();
  }
}
