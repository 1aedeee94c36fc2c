/** The policy, the clock and the plugins' records along any history whatever. */
module KernelRecords {
  import opened Types
  import opened Capabilities
  import opened CapTable
  import opened Actors
  import opened SystemState
  import opened Steps
  import opened Simulation
  import opened KernelApi
  import opened KernelSafety
  import opened Noninterference
  import opened StepChecks
  import opened StepOutcomes

  // ---- The policy ----

  lemma HostKeepsPolicy(s: State, hc: HostCall)
    ensures HostInPlace(s, hc).0.kernel.policy == s.kernel.policy
    ensures HostEffect(s, hc).kernel.policy == s.kernel.policy
  {
  }

  lemma StepKeepsPolicy(s: State, step: Step)
    ensures StepInPlace(s, step).0.kernel.policy == s.kernel.policy
    ensures StepCopying(s, step).kernel.policy == s.kernel.policy
  {
    match step
    case Host(hc, _, _) => HostKeepsPolicy(s, hc);
    case _ =>
  }

  lemma MintKeepsPolicy(s: State, parent: CapId, to: PluginId, rights: Rights)
    ensures s.DelegateCap(parent, to, rights).0.kernel.policy == s.kernel.policy
    ensures s.DelegateCap(parent, to, rights).0.kernel.now == s.kernel.now
  {
  }

  lemma ApplyKeepsPolicy(s: State, op: ApiOp)
    ensures Apply(s, op).kernel.policy == s.kernel.policy
  {
    match op
    case Delegate(parent, to, rights) => MintKeepsPolicy(s, parent, to, rights);
    case RunStep(step) => StepKeepsPolicy(s, step);
    case RunCopying(step) => StepKeepsPolicy(s, step);
    case _ =>
  }

  lemma {:induction false} RunKeepsPolicy(s: State, ops: seq<ApiOp>)
    ensures Run(s, ops).kernel.policy == s.kernel.policy
    decreases |ops|
  {
    if ops != [] {
      ApplyKeepsPolicy(s, ops[0]);
      RunKeepsPolicy(Apply(s, ops[0]), ops[1..]);
    }
  }

  /** No operation sets the policy, and it denies everything at first: in the kernel as built no host call ever runs. */
  lemma NoHostCallRuns(ops: seq<ApiOp>, step: Step)
    requires step.Host?
    ensures var s := Run(InitialState(), ops);
      ExecuteStep(s, step).Err? && StepInPlace(s, step).1.Some? && StepInPlace(s, step).0 == s
  {
    RunKeepsPolicy(InitialState(), ops);
    HostCallAuthorised(Run(InitialState(), ops), step.hc, step.auth);
  }

  // ---- The clock ----

  /** How many ticks a history asks for, as an operation or as a step in either form. */
  function Ticks(ops: seq<ApiOp>): nat {
    if ops == [] then 0
    else (if IsTick(ops[0]) then 1 else 0) + Ticks(ops[1..])
  }

  predicate IsTick(op: ApiOp) {
    op == TickClock || op == RunStep(Kernel(TimeTick)) || op == RunCopying(Kernel(TimeTick))
  }

  lemma HostKeepsClock(s: State, hc: HostCall)
    ensures HostInPlace(s, hc).0.kernel.now == s.kernel.now
    ensures HostEffect(s, hc).kernel.now == s.kernel.now
  {
  }

  lemma StepKeepsClock(s: State, step: Step)
    requires step != Kernel(TimeTick)
    ensures StepInPlace(s, step).0.kernel.now == s.kernel.now
    ensures StepCopying(s, step).kernel.now == s.kernel.now
  {
    match step
    case Host(hc, _, _) => HostKeepsClock(s, hc);
    case _ =>
  }

  lemma ApplyTicks(s: State, op: ApiOp)
    ensures Apply(s, op).kernel.now == if IsTick(op) && s.kernel.now < U64_MAX then s.kernel.now + 1 else s.kernel.now
  {
    match op
    case Delegate(parent, to, rights) => MintKeepsPolicy(s, parent, to, rights);
    case RunStep(step) => if step != Kernel(TimeTick) { StepKeepsClock(s, step); }
    case RunCopying(step) => if step != Kernel(TimeTick) { StepKeepsClock(s, step); }
    case _ =>
  }

  /** The clock counts them and stops at the last 64-bit instant. */
  lemma {:induction false} ClockCountsTicks(s: State, ops: seq<ApiOp>)
    ensures Run(s, ops).kernel.now == Min(s.kernel.now + Ticks(ops), U64_MAX)
    decreases |ops|
  {
    if ops != [] {
      var s1 := Apply(s, ops[0]);
      ApplyTicks(s, ops[0]);
      assert s1.kernel.now == Min(s.kernel.now + (if IsTick(ops[0]) then 1 else 0), U64_MAX);
      ClockCountsTicks(s1, ops[1..]);
    }
  }

  // ---- The table's epoch ----

  lemma MintKeepsTableEpoch(s: State, parent: CapId, to: PluginId, rights: Rights)
    ensures s.DelegateCap(parent, to, rights).0.Caps().epoch == s.Caps().epoch
  {
  }

  lemma HostKeepsTableEpoch(s: State, hc: HostCall)
    ensures HostInPlace(s, hc).0.Caps().epoch == s.Caps().epoch
    ensures HostEffect(s, hc).Caps().epoch == s.Caps().epoch
  {
  }

  lemma StepKeepsTableEpoch(s: State, step: Step)
    ensures StepInPlace(s, step).0.Caps().epoch == s.Caps().epoch
    ensures StepCopying(s, step).Caps().epoch == s.Caps().epoch
  {
    match step
    case Host(hc, _, _) => HostKeepsTableEpoch(s, hc);
    case _ =>
  }

  lemma ApplyKeepsTableEpoch(s: State, op: ApiOp)
    ensures Apply(s, op).Caps().epoch == s.Caps().epoch
  {
    match op
    case Delegate(parent, to, rights) => MintKeepsTableEpoch(s, parent, to, rights);
    case RunStep(step) => StepKeepsTableEpoch(s, step);
    case RunCopying(step) => StepKeepsTableEpoch(s, step);
    case _ =>
  }

  /** Neither insertion nor revocation nor a rotation of keys ever moves it. */
  lemma {:induction false} RunKeepsTableEpoch(s: State, ops: seq<ApiOp>)
    ensures Run(s, ops).Caps().epoch == s.Caps().epoch
    decreases |ops|
  {
    if ops != [] {
      ApplyKeepsTableEpoch(s, ops[0]);
      RunKeepsTableEpoch(Apply(s, ops[0]), ops[1..]);
    }
  }

  // ---- Freed addresses ----

  function AddressFreed(step: Step): Option<MemAddr> {
    match step
    case Free(_, addr) => Some(addr)
    case Host(hc, _, _) => if hc.function_.MemFree? && hc.args != [] then Some(hc.args[0]) else None
    case _ => None
  }

  /** The address an operation frees, if it gets to. */
  ghost function Frees(s: State, op: ApiOp): Option<MemAddr> {
    match op
    case FreeAddr(addr) => if s.meta.IsLive(addr) && !Targeted(s.Caps(), addr) then Some(addr) else None
    case RunStep(step) => if StepInPlace(s, step).1 == None then AddressFreed(step) else None
    case RunCopying(step) => if CheckStep(s, step) == None then AddressFreed(step) else None
    case _ => None
  }

  lemma HostFreesExactly(s: State, hc: HostCall)
    requires HostInPlace(s, hc).1 == None
    ensures HostInPlace(s, hc).0.meta.freed ==
      if hc.function_.MemFree? && hc.args != [] then s.meta.freed + {hc.args[0]} else s.meta.freed
  {
  }

  lemma StepFreesExactly(s: State, step: Step)
    requires StepInPlace(s, step).1 == None
    ensures StepInPlace(s, step).0.meta.freed == s.meta.freed + Freshly(AddressFreed(step))
  {
    match step
    case Host(hc, _, _) => HostFreesExactly(s, hc);
    case _ =>
  }

  lemma CopyingFreesExactly(s: State, step: Step)
    requires CheckStep(s, step) == None
    ensures StepCopying(s, step).meta.freed == s.meta.freed + Freshly(AddressFreed(step))
  {
    LedgerAfterStep(s, step);
  }

  function Freshly(addr: Option<MemAddr>): set<MemAddr> {
    match addr case Some(a) => {a} case None => {}
  }

  /** An operation frees that address and no other. */
  lemma ApplyFreesExactly(s: State, op: ApiOp)
    requires Layout(s.Caps())
    ensures Apply(s, op).meta.freed == s.meta.freed + Freshly(Frees(s, op))
  {
    match op
    case FreeAddr(addr) => FreeOutcome(s, addr);
    case Delegate(parent, to, rights) => MintKeepsLedger(s, parent, to, rights);
    case RunStep(step) =>
      if StepInPlace(s, step).1 == None {
        StepFreesExactly(s, step);
      } else {
        FailureChangesNothing(s, step);
      }
    case RunCopying(step) => if CheckStep(s, step) == None { CopyingFreesExactly(s, step); }
    case _ =>
  }

  /** The i-th operation frees addr. */
  ghost predicate FreedAt(s: State, ops: seq<ApiOp>, i: nat, addr: MemAddr) {
    i < |ops| && Frees(Run(s, ops[..i]), ops[i]) == Some(addr)
  }

  lemma FreedLater(s: State, ops: seq<ApiOp>, j: nat, addr: MemAddr)
    requires ops != [] && FreedAt(Apply(s, ops[0]), ops[1..], j, addr)
    ensures FreedAt(s, ops, j + 1, addr)
  {
    assert ops[..j + 1][1..] == ops[1..][..j];
  }

  /** Whatever a history leaves freed was freed before it or by one of its operations. */
  lemma {:induction false} RunFrees(s: State, ops: seq<ApiOp>, addr: MemAddr) returns (i: nat)
    requires Layout(s.Caps()) && !s.meta.IsFreed(addr) && Run(s, ops).meta.IsFreed(addr)
    ensures FreedAt(s, ops, i, addr)
    decreases |ops|
  {
    ApplyFreesExactly(s, ops[0]);
    if Apply(s, ops[0]).meta.IsFreed(addr) {
      assert ops[..0] == [];
      i := 0;
    } else {
      ApplyExtends(s, ops[0]);
      var j := RunFrees(Apply(s, ops[0]), ops[1..], addr);
      FreedLater(s, ops, j, addr);
      i := j + 1;
    }
  }

  // ---- Records of plugins ----

  /** Whom an operation grants which capability, if it succeeds in that. */
  function Granted(s: State, op: ApiOp): Option<(PluginId, CapId)> {
    match op
    case Delegate(parent, to, rights) =>
      if s.DelegateCap(parent, to, rights).1.Ok? then Some((to, s.kernel.nextCapId)) else None
    case InsertCapRaw(cap, target) => if s.Caps().Present(cap.id) then None else Some((target, cap.id))
    case _ => None
  }

  function HeldAfter(held: set<CapId>, granted: Option<(PluginId, CapId)>, pid: PluginId): set<CapId> {
    if granted.Some? && granted.value.0 == pid then held + {granted.value.1} else held
  }

  /** A record as it is when the plugin is registered: nothing held, nothing used, memory all zero. */
  predicate Registered(p: PluginState, level: SecurityLevel, memSize: Size) {
    p.level == level && p.memory.bounds == memSize && p.memory.pages == map[] && p.heldCaps == {}
    && p.memoryUsed == 0 && p.memoryQuota == p.capQuota == p.ipcQueueLimit == 0x7FFF_FFFF_FFFF_FFFF
  }

  /** What no operation changes in a record, and which way the rest can go. */
  predicate Continues(p: PluginState, q: PluginState) {
    q.memory == p.memory && q.memoryQuota == p.memoryQuota && q.capQuota == p.capQuota
    && q.ipcQueueLimit == p.ipcQueueLimit
    && q.level.Rank() <= p.level.Rank() && q.memoryUsed >= p.memoryUsed && q.heldCaps >= p.heldCaps
  }

  type Records = map<PluginId, PluginState>

  /** The records after an operation: the old ones continue, and hold just what they were granted. */
  ghost predicate Follow(before: Records, after: Records, granted: Option<(PluginId, CapId)>) {
    forall pid :: pid in before ==>
      pid in after && Continues(before[pid], after[pid])
      && after[pid].heldCaps == HeldAfter(before[pid].heldCaps, granted, pid)
  }

  lemma GrantFollows(s: State, cap: Capability, target: PluginId)
    ensures var s' := InsertRaw(s, cap, target).0;
      Follow(s.plugins, s'.plugins, Granted(s, InsertCapRaw(cap, target))) && s'.plugins.Keys == s.plugins.Keys
  {
  }

  /** Granting adds the one id to the one record, and changes no other field of it. */
  lemma GrantExactly(s: State, cap: Capability, target: PluginId)
    ensures InsertRaw(s, cap, target).0.plugins ==
      if s.Caps().Present(cap.id) || target !in s.plugins then s.plugins
      else s.plugins[target := s.plugins[target].(heldCaps := s.plugins[target].heldCaps + {cap.id})]
  {
  }

  lemma DelegationFollows(s: State, parent: CapId, to: PluginId, rights: Rights)
    ensures var s' := s.DelegateCap(parent, to, rights).0;
      Follow(s.plugins, s'.plugins, Granted(s, ApiOp.Delegate(parent, to, rights))) && s'.plugins.Keys == s.plugins.Keys
  {
    if s.DelegateCap(parent, to, rights).1.Ok? {
      DelegationGrants(s, parent, to, rights);
    } else {
      RefusedDelegationGrantsNothing(s, parent, to, rights);
    }
  }

  lemma RefusedDelegationGrantsNothing(s: State, parent: CapId, to: PluginId, rights: Rights)
    requires s.DelegateCap(parent, to, rights).1.Err?
    ensures s.DelegateCap(parent, to, rights).0.plugins == s.plugins
  {
  }

  lemma SubjectContinues(s: State, step: Step)
    requires CheckStep(s, step) == None && step.Subject().Some? && step.Subject().value in s.plugins
    ensures var p := s.plugins[step.Subject().value];
      Continues(p, SubjectUpdate(step, p)) && SubjectUpdate(step, p).heldCaps == p.heldCaps
  {
  }

  lemma EffectFollows(s: State, step: Step)
    requires CheckStep(s, step) == None
    ensures Follow(s.plugins, StepEffect(s, step).plugins, None)
    ensures StepEffect(s, step).plugins.Keys == s.plugins.Keys
  {
    StepTouchesSubjectOnly(s, step);
    if step.Subject().Some? && step.Subject().value in s.plugins {
      SubjectContinues(s, step);
    }
  }

  lemma StepFollows(s: State, step: Step)
    ensures Follow(s.plugins, StepInPlace(s, step).0.plugins, None)
    ensures StepInPlace(s, step).0.plugins.Keys == s.plugins.Keys
  {
    InPlaceTouches(s, step);
    if StepInPlace(s, step).1 == None {
      EffectFollows(s, step);
    }
  }

  lemma CopyingFollows(s: State, step: Step)
    ensures Follow(s.plugins, StepCopying(s, step).plugins, None)
    ensures StepCopying(s, step).plugins.Keys == s.plugins.Keys
  {
    if CheckStep(s, step) == None {
      EffectFollows(s, step);
    }
  }

  lemma RegistrationFollows(s: State, pid: PluginId, level: SecurityLevel, memSize: Size)
    ensures var after := Register(s, pid, level, memSize).0.plugins;
      Follow(s.plugins, after, None) && after.Keys == s.plugins.Keys + {pid}
      && (pid !in s.plugins ==> Registered(after[pid], level, memSize))
  {
  }

  lemma ApplyFollows(s: State, op: ApiOp)
    ensures Follow(s.plugins, Apply(s, op).plugins, Granted(s, op))
    ensures Apply(s, op).plugins.Keys == if op.RegisterPlugin? then s.plugins.Keys + {op.pid} else s.plugins.Keys
    ensures op.RegisterPlugin? && op.pid !in s.plugins ==>
      Registered(Apply(s, op).plugins[op.pid], op.level, op.memSize)
  {
    match op
    case RegisterPlugin(pid, level, memSize) => RegistrationFollows(s, pid, level, memSize);
    case Delegate(parent, to, rights) => DelegationFollows(s, parent, to, rights);
    case InsertCapRaw(cap, target) => GrantFollows(s, cap, target);
    case RunStep(step) => StepFollows(s, step);
    case RunCopying(step) => CopyingFollows(s, step);
    case _ => assert Apply(s, op).plugins == s.plugins;
  }

  /** No history removes a plugin, moves its bounds or quotas, raises its level, refunds it, or takes a held id away. */
  lemma {:induction false} RunContinues(s: State, ops: seq<ApiOp>, pid: PluginId)
    requires pid in s.plugins
    ensures pid in Run(s, ops).plugins && Continues(s.plugins[pid], Run(s, ops).plugins[pid])
    decreases |ops|
  {
    if ops != [] {
      ApplyFollows(s, ops[0]);
      RunContinues(Apply(s, ops[0]), ops[1..], pid);
    }
  }

  /** The i-th operation grants id to pid. */
  ghost predicate GrantedAt(s: State, ops: seq<ApiOp>, i: nat, pid: PluginId, id: CapId) {
    i < |ops| && Granted(Run(s, ops[..i]), ops[i]) == Some((pid, id))
  }

  lemma GrantedLater(s: State, ops: seq<ApiOp>, j: nat, pid: PluginId, id: CapId)
    requires ops != [] && GrantedAt(Apply(s, ops[0]), ops[1..], j, pid, id)
    ensures GrantedAt(s, ops, j + 1, pid, id)
  {
    assert ops[..j + 1][1..] == ops[1..][..j];
  }

  /** Whatever a plugin holds that it did not hold before, a delegation or raw insertion of that id to it granted. */
  lemma {:induction false} RunGrants(s: State, ops: seq<ApiOp>, pid: PluginId, id: CapId) returns (i: nat)
    requires !s.PluginHolds(pid, id) && Run(s, ops).PluginHolds(pid, id)
    ensures GrantedAt(s, ops, i, pid, id)
    decreases |ops|
  {
    var s1 := Apply(s, ops[0]);
    ApplyFollows(s, ops[0]);
    if s1.PluginHolds(pid, id) {
      assert ops[..0] == [];
      i := 0;
    } else {
      var j := RunGrants(s1, ops[1..], pid, id);
      GrantedLater(s, ops, j, pid, id);
      i := j + 1;
    }
  }

  /** And whatever was granted to a registered plugin is held from then on. */
  lemma GrantIsKept(s: State, op: ApiOp, ops: seq<ApiOp>)
    requires Granted(s, op).Some? && Granted(s, op).value.0 in s.plugins
    ensures Run(Apply(s, op), ops).PluginHolds(Granted(s, op).value.0, Granted(s, op).value.1)
  {
    ApplyFollows(s, op);
    RunContinues(Apply(s, op), ops, Granted(s, op).value.0);
  }
}
