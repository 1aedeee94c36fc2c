/** Exactly when a step runs, and exactly what it leaves behind, in both forms. */
module StepOutcomes {
  import opened Types
  import opened SortedVec
  import opened CapTable
  import opened PagedMemory
  import opened ChildIndex
  import opened Revocation
  import opened Resources
  import opened Actors
  import opened SystemState
  import opened Steps
  import opened Simulation
  import opened KernelApi
  import opened StepChecks
  import opened Noninterference

  // ---- When ----

  /** Some valid capability of the table is on the address. */
  ghost predicate Targeted(t: Table, addr: ResourceId) {
    exists id: CapId :: t.IsValid(id) && t.Lookup(id).value.target == addr
  }

  lemma TargetedMeaning(t: Table, addr: ResourceId)
    requires Sorted(t.caps)
    ensures t.AnyValidTargeting(addr) <==> Targeted(t, addr)
  {
    if i :| 0 <= i < |t.caps| && t.caps[i].1.valid && t.caps[i].1.target == addr {
      GetAt(t.caps, i);
      assert t.IsValid(t.caps[i].0);
    }
    if id: CapId :| t.IsValid(id) && t.Lookup(id).value.target == addr {
      assert t.caps[LowerBound(t.caps, id)].1 == t.Lookup(id).value;
    }
  }

  /** A message may be sent when it is the caller's own and the mailbox it is for has room. */
  predicate MaySend(s: State, caller: PluginId, msg: Message) {
    msg.src == caller && msg.dst in s.actors && |s.actors[msg.dst].mailbox| < s.actors[msg.dst].capacity
  }

  /** The first argument, and 0 for a call without any. */
  function FirstArg(hc: HostCall): U64 {
    if |hc.args| > 0 then hc.args[0] else 0
  }

  /** What each host function asks of the state, beyond authorisation. */
  ghost predicate FunctionAllowed(s: State, hc: HostCall, result: HostResult) {
    match hc.function_
    case CapCall => hc.caller in s.plugins && exists id: CapId :: s.PluginHolds(hc.caller, id) && s.Caps().IsValid(id)
    case CapSend => result.newMsgs != [] && forall msg :: msg in result.newMsgs ==> MaySend(s, hc.caller, msg)
    case KernelAlloc =>
      hc.caller in s.plugins
      && s.plugins[hc.caller].memoryUsed + FirstArg(hc) <= s.plugins[hc.caller].memoryQuota
    case MemFree => hc.args != [] && !s.meta.IsFreed(hc.args[0]) && !Targeted(s.Caps(), hc.args[0])
    case CapRevoke => hc.args != [] && s.Caps().Present(hc.args[0])
    case Declassify => hc.caller in s.plugins && FirstArg(hc) <= s.plugins[hc.caller].level.Rank()
    case ThreadOperation => false
  }

  /** The wire value of a level is its rank; there are no others. */
  lemma LevelMeaning(value: U64)
    ensures LevelOf(value).Some? <==> value <= 3
    ensures LevelOf(value).Some? ==> LevelOf(value).value.Rank() == value
  {
  }

  lemma FreeAllowed(s: State, addr: MemAddr)
    requires Sorted(s.Caps().caps)
    ensures CheckFree(s, addr) == None <==> !s.meta.IsFreed(addr) && !Targeted(s.Caps(), addr)
  {
    FirstTargetingFinds(s.Caps().caps, addr);
    TargetedMeaning(s.Caps(), addr);
  }

  lemma HostFunctionAllowed(s: State, hc: HostCall, result: HostResult)
    requires Sorted(s.Caps().caps)
    ensures CheckHostFunction(s, hc, result) == None <==> FunctionAllowed(s, hc, result)
  {
    match hc.function_
    case CapSend => SendAllowed(s, hc.caller, result.newMsgs);
    case MemFree => if hc.args != [] { FreeAllowed(s, hc.args[0]); }
    case Declassify => LevelMeaning(FirstArg(hc));
    case _ =>
  }

  /** What a step of each kind asks of the state. */
  ghost predicate Allows(s: State, step: Step) {
    match step
    case PluginStep(pid, pi) =>
      pid in s.plugins
      && (pid in s.actors ==> s.actors[pid].blockedOn == None && (pi.consumeMailbox ==> s.actors[pid].mailbox != []))
      && AllInside(s.plugins[pid].memory, pi.reads_)
      && AllInside(s.plugins[pid].memory, pi.writes)
      && forall i :: 0 <= i < |pi.writes| ==> pi.writes[i].0 < s.plugins[pid].memory.bounds
    case Host(hc, auth, result) =>
      FitsCall(hc, auth.action) && Stands(s, auth)
      && AllInside(s.plugins[hc.caller].memory, hc.reads_)
      && AllInside(s.plugins[hc.caller].memory, hc.writes)
      && FunctionAllowed(s, hc, result)
    case Kernel(RouteOne(dst)) =>
      dst in s.actors && s.actors[dst].pending != [] && |s.actors[dst].mailbox| < s.actors[dst].capacity
    case Kernel(WorkflowTick(wid)) => wid in s.workflows && s.workflows[wid] == Running
    case Kernel(TimeTick) => s.kernel.now < U64_MAX
    case Kernel(UnblockSend(dst)) => dst in s.actors
    case Kernel(ThreadSwitch) => false
    case Free(_, addr) => !s.meta.IsFreed(addr) && !Targeted(s.Caps(), addr)
    case RevokeCap(_, capId) => s.Caps().Present(capId)
  }

  /**
   The copying form runs a step exactly in the states that allow it; the in-place form, moreover, only
   if it frees no dead address directly.
   */
  lemma StepRunsExactly(s: State, step: Step)
    requires Layout(s.Caps()) && IndexExact(s.Caps())
    ensures ExecuteStep(s, step).Ok? <==> Allows(s, step)
    ensures StepInPlace(s, step).1 == None <==> Allows(s, step) && !FreesDead(s, step)
  {
    InPlaceSimulates(s, step);
    match step
    case PluginStep(pid, pi) => PluginStepAllowed(s, pid, pi);
    case Host(hc, auth, result) =>
      HostCallAuthorised(s, hc, auth);
      HostFunctionAllowed(s, hc, result);
    case Free(_, addr) => FreeAllowed(s, addr);
    case _ =>
  }

  /** The public free works exactly on live addresses that no valid capability targets, and says which is missing. */
  lemma FreeOutcome(s: State, addr: MemAddr)
    requires Sorted(s.Caps().caps)
    ensures FreeInPlace(s, addr).1 ==
      if Targeted(s.Caps(), addr) then Some(DanglingCapability(addr))
      else if !s.meta.IsLive(addr) then Some(ResourceNotFound(addr))
      else None
    ensures FreeInPlace(s, addr).1 == None ==>
      FreeInPlace(s, addr).0
        == s.(meta := Meta(s.meta.resources[addr := Freed], s.meta.freed + {addr}))
    ensures FreeInPlace(s, addr).1 != None ==> FreeInPlace(s, addr).0 == s
  {
    TargetedMeaning(s.Caps(), addr);
  }

  // ---- What a refusal reports ----

  /** The error of the validator names a check that fails. */
  predicate WitnessErrorTrue(s: State, a: Authorized, e: AuthorizationError) {
    match e
    case HolderMismatch(want, got) => want == a.action.subject && got == a.cap.holder && want != got
    case TargetMismatch(want, got) => want == a.action.target && got == a.cap.target && want != got
    case InsufficientRights => exists r :: r in a.action.rights && r !in a.cap.rights
    case CapabilityNotHeld(id) => id == a.cap.id && !s.PluginHolds(a.action.subject, id)
    case PolicyDenied => !Permits(s.kernel.policy)
    case NotInTable(id) => id == a.cap.id && !s.Caps().Present(id)
    case RevokedInChain(id) => (id == a.cap.id || a.cap.parent == Some(id)) && !s.Caps().IsValid(id)
    case ResourceNotLive(addr) => addr == a.action.target % 0x1_0000_0000_0000_0000 && !s.meta.IsLive(addr)
    case BibaViolation =>
      var addr := a.action.target % 0x1_0000_0000_0000_0000;
      a.action.subject in s.plugins && s.meta.IsLive(addr) && !IntegrityAllows(s, a.action, addr)
  }

  lemma WitnessErrorIsTrue(s: State, a: Authorized)
    requires Validate(s, a).Some?
    ensures WitnessErrorTrue(s, a, Validate(s, a).value)
  {
  }

  /** The region reported is one of those asked for, and it leaves the memory. */
  predicate Outside(s: State, pid: PluginId, regions: seq<Region>, region: Region) {
    pid in s.plugins && region in regions && !s.plugins[pid].memory.AddrInBounds(region.0, region.1)
  }

  lemma {:induction false} FirstOutsideIsOne(mem: Mem, regions: seq<Region>)
    requires FirstOutOfBounds(mem, regions).Some?
    ensures FirstOutOfBounds(mem, regions).value in regions
    ensures !mem.AddrInBounds(FirstOutOfBounds(mem, regions).value.0, FirstOutOfBounds(mem, regions).value.1)
  {
    if mem.AddrInBounds(regions[0].0, regions[0].1) {
      FirstOutsideIsOne(mem, regions[1..]);
    }
  }

  predicate InternalErrorTrue(s: State, pid: PluginId, pi: PluginInternal, e: StepError) {
    match e
    case PluginNotFound(q) => q == pid && pid !in s.plugins
    case Blocked(q, on) => q == pid && pid in s.actors && on == s.actors[pid].blockedOn != None
    case ReadOutOfBounds(region) => Outside(s, pid, pi.reads_, region)
    case WriteOutOfBounds(region) =>
      Outside(s, pid, pi.writes, region)
      || (pid in s.plugins && region.1 == 1 && region.0 >= s.plugins[pid].memory.bounds)
    case MailboxEmpty => pi.consumeMailbox && pid in s.actors && s.actors[pid].mailbox == []
    case _ => false
  }

  lemma {:induction false} FirstUnwritableIsOne(mem: Mem, regions: seq<Region>)
    requires FirstUnwritable(mem, regions).Some?
    ensures FirstUnwritable(mem, regions).value.1 == 1 && FirstUnwritable(mem, regions).value.0 >= mem.bounds
  {
    if mem.AddrInBounds(regions[0].0, 1) {
      FirstUnwritableIsOne(mem, regions[1..]);
    }
  }

  lemma InternalErrorIsTrue(s: State, pid: PluginId, pi: PluginInternal)
    requires CheckInternal(s, pid, pi).Some?
    ensures InternalErrorTrue(s, pid, pi, CheckInternal(s, pid, pi).value)
  {
    if pid in s.plugins {
      var mem := s.plugins[pid].memory;
      if FirstOutOfBounds(mem, pi.reads_).Some? { FirstOutsideIsOne(mem, pi.reads_); }
      if FirstOutOfBounds(mem, pi.writes).Some? { FirstOutsideIsOne(mem, pi.writes); }
      if FirstUnwritable(mem, pi.writes).Some? { FirstUnwritableIsOne(mem, pi.writes); }
    }
  }

  predicate HostCallErrorTrue(s: State, hc: HostCall, auth: Authorized, e: StepError) {
    match e
    case AuthorizationFailed(cause) =>
      WitnessErrorTrue(s, auth, cause)
      || (cause == HolderMismatch(auth.action.subject, hc.caller) && auth.action.subject != hc.caller)
    case NoCapabilityId => (hc.function_.CapCall? || hc.function_.CapRevoke?) && hc.args == []
    case NoAddress => hc.function_.MemFree? && hc.args == []
    case NotImplemented => hc.function_.ThreadOperation?
    case MismatchedHostCall => !FitsCall(hc, auth.action)
    case ReadOutOfBounds(region) => Outside(s, hc.caller, hc.reads_, region)
    case WriteOutOfBounds(region) => Outside(s, hc.caller, hc.writes, region)
    case _ => false
  }

  lemma HostCallErrorIsTrue(s: State, hc: HostCall, auth: Authorized)
    requires CheckHostCall(s, hc, auth).Some?
    ensures HostCallErrorTrue(s, hc, auth, CheckHostCall(s, hc, auth).value)
  {
    if Validate(s, auth).Some? {
      WitnessErrorIsTrue(s, auth);
    } else if hc.caller in s.plugins {
      var mem := s.plugins[hc.caller].memory;
      if FirstOutOfBounds(mem, hc.reads_).Some? { FirstOutsideIsOne(mem, hc.reads_); }
      if FirstOutOfBounds(mem, hc.writes).Some? { FirstOutsideIsOne(mem, hc.writes); }
    }
  }

  ghost predicate FreeErrorTrue(s: State, addr: MemAddr, e: StepError) {
    match e
    case AddressAlreadyFreed(a) => a == addr && s.meta.IsFreed(addr)
    case CapabilityTargetsAddress(id, a) =>
      a == addr && s.Caps().IsValid(id) && s.Caps().Lookup(id).value.target == addr
    case _ => false
  }

  lemma {:induction false} FirstTargetingIsOne(caps: CapVec, addr: MemAddr) returns (i: nat)
    requires FirstTargeting(caps, addr).Some?
    ensures i < |caps| && FirstTargeting(caps, addr) == Some(caps[i].0) && caps[i].1.valid && caps[i].1.target == addr
  {
    if caps[0].1.valid && caps[0].1.target == addr {
      i := 0;
    } else {
      var j := FirstTargetingIsOne(caps[1..], addr);
      i := j + 1;
    }
  }

  lemma FreeErrorIsTrue(s: State, addr: MemAddr)
    requires Sorted(s.Caps().caps) && CheckFree(s, addr).Some?
    ensures FreeErrorTrue(s, addr, CheckFree(s, addr).value)
  {
    if !s.meta.IsFreed(addr) {
      var i := FirstTargetingIsOne(s.Caps().caps, addr);
      GetAt(s.Caps().caps, i);
    }
  }

  ghost predicate FunctionErrorTrue(s: State, hc: HostCall, result: HostResult, e: StepError) {
    match hc.function_
    case CapCall =>
      (e == PluginNotFound(hc.caller) && hc.caller !in s.plugins)
      || (e == NoValidCapability && forall id: CapId :: s.PluginHolds(hc.caller, id) ==> !s.Caps().IsValid(id))
    case CapSend =>
      (e == NoMessageToSend && result.newMsgs == [])
      || exists msg :: msg in result.newMsgs && MessageErrorTrue(s, hc.caller, msg, e)
    case KernelAlloc =>
      if hc.caller !in s.plugins then e == PluginNotFound(hc.caller)
      else
        var p := s.plugins[hc.caller];
        e == QuotaExceeded(FirstArg(hc), p.memoryUsed, p.memoryQuota)
        && p.memoryUsed + FirstArg(hc) > p.memoryQuota
    case MemFree => (e == NoAddress && hc.args == []) || (hc.args != [] && FreeErrorTrue(s, hc.args[0], e))
    case CapRevoke =>
      (e == NoCapabilityId && hc.args == [])
      || (hc.args != [] && e == CapabilityNotFound(hc.args[0]) && !s.Caps().Present(hc.args[0]))
    case Declassify =>
      (e == InvalidSecurityLevel(FirstArg(hc)) && FirstArg(hc) > 3)
      || (e == PluginNotFound(hc.caller) && hc.caller !in s.plugins)
      || (e == CannotClassifyUp && hc.caller in s.plugins && FirstArg(hc) > s.plugins[hc.caller].level.Rank())
    case ThreadOperation => e == NotImplemented
  }

  predicate MessageErrorTrue(s: State, caller: PluginId, msg: Message, e: StepError) {
    match e
    case SourceMismatch => msg.src != caller
    case ActorNotFound(aid) => aid == msg.dst && aid !in s.actors
    case MailboxFull => msg.dst in s.actors && |s.actors[msg.dst].mailbox| >= s.actors[msg.dst].capacity
    case _ => false
  }

  lemma {:induction false} MessageErrorIsTrue(s: State, caller: PluginId, msgs: seq<Message>)
    requires CheckMessages(s, caller, msgs).Some?
    ensures exists msg :: msg in msgs && MessageErrorTrue(s, caller, msg, CheckMessages(s, caller, msgs).value)
  {
    assert msgs[0] in msgs;
    if !MessageErrorTrue(s, caller, msgs[0], CheckMessages(s, caller, msgs).value) {
      MessageErrorIsTrue(s, caller, msgs[1..]);
    }
  }

  lemma FunctionErrorIsTrue(s: State, hc: HostCall, result: HostResult)
    requires Sorted(s.Caps().caps) && CheckHostFunction(s, hc, result).Some?
    ensures FunctionErrorTrue(s, hc, result, CheckHostFunction(s, hc, result).value)
  {
    match hc.function_
    case CapSend => if result.newMsgs != [] { MessageErrorIsTrue(s, hc.caller, result.newMsgs); }
    case MemFree => if hc.args != [] { FreeErrorIsTrue(s, hc.args[0]); }
    case Declassify => LevelMeaning(FirstArg(hc));
    case _ =>
  }

  predicate KernelErrorTrue(s: State, op: KernelOp, e: StepError) {
    match op
    case RouteOne(dst) =>
      if dst !in s.actors then e == ActorNotFound(dst)
      else if s.actors[dst].pending == [] then e == NoPendingMessages(dst)
      else e == MailboxAtCapacity(dst) && |s.actors[dst].mailbox| >= s.actors[dst].capacity
    case WorkflowTick(wid) =>
      if wid !in s.workflows then e == WorkflowNotFound(wid)
      else e == WorkflowNotRunning(wid) && s.workflows[wid] != Running
    case TimeTick => e == StepError.CounterOverflow && s.kernel.now == U64_MAX
    case UnblockSend(dst) => e == ActorNotFound(dst) && dst !in s.actors
    case ThreadSwitch => e == NotImplemented
  }

  ghost predicate ErrorTrue(s: State, step: Step, e: StepError) {
    match step
    case PluginStep(pid, pi) => InternalErrorTrue(s, pid, pi, e)
    case Host(hc, auth, result) =>
      HostCallErrorTrue(s, hc, auth, e)
      || (CheckHostCall(s, hc, auth) == None && FunctionErrorTrue(s, hc, result, e))
    case Kernel(op) => KernelErrorTrue(s, op, e)
    case Free(_, addr) => FreeErrorTrue(s, addr, e)
    case RevokeCap(_, capId) => e == CapabilityNotFound(capId) && !s.Caps().Present(capId)
  }

  /** Whatever error a step is refused with is true of the state it was refused in. */
  lemma ErrorIsTrue(s: State, step: Step)
    requires Sorted(s.Caps().caps) && ExecuteStep(s, step).Err?
    ensures ErrorTrue(s, step, ExecuteStep(s, step).error)
  {
    match step
    case PluginStep(pid, pi) => InternalErrorIsTrue(s, pid, pi);
    case Host(hc, auth, result) =>
      if CheckHostCall(s, hc, auth).Some? {
        HostCallErrorIsTrue(s, hc, auth);
      } else {
        FunctionErrorIsTrue(s, hc, result);
      }
    case Free(_, addr) => FreeErrorIsTrue(s, addr);
    case _ =>
  }

  // ---- What: actors ----

  /** What a step that runs makes of the actor aid. */
  function ActorAfter(step: Step, aid: ActorId, a: Actor): Actor {
    match step
    case PluginStep(pid, pi) =>
      if pid == aid && pi.consumeMailbox && a.mailbox != [] then a.(mailbox := a.mailbox[1..]) else a
    case Kernel(RouteOne(dst)) =>
      if dst == aid && a.pending != [] then a.(pending := a.pending[1..], mailbox := a.mailbox + [a.pending[0]]) else a
    case Kernel(UnblockSend(dst)) => if dst == aid then a.(blockedOn := None) else a
    case _ => a
  }

  lemma HostLeavesActors(s: State, hc: HostCall)
    ensures HostEffect(s, hc).actors == s.actors
  {
  }

  /** Routing moves the first pending message to the mailbox, consuming takes the first, unblocking unblocks. */
  lemma ActorsAfterStep(s: State, step: Step)
    requires CheckStep(s, step) == None
    ensures StepEffect(s, step).actors.Keys == s.actors.Keys
    ensures forall aid :: aid in s.actors ==> StepEffect(s, step).actors[aid] == ActorAfter(step, aid, s.actors[aid])
  {
    match step
    case Host(hc, _, _) => HostLeavesActors(s, hc);
    case Kernel(op) => KernelActors(s, op);
    case _ =>
  }

  lemma KernelActors(s: State, op: KernelOp)
    requires CheckKernelOp(s, op) == None
    ensures KernelEffect(s, op).actors.Keys == s.actors.Keys
    ensures forall aid :: aid in s.actors ==>
      KernelEffect(s, op).actors[aid] == ActorAfter(Kernel(op), aid, s.actors[aid])
  {
  }

  // ---- What: plugins, the clock, and the rest ----

  /** What a step that runs makes of the record of the plugin pid. */
  function PluginAfter(step: Step, pid: PluginId, p: PluginState): (r: PluginState)
    requires step.IsDeclassify() ==> LevelOf(FirstArg(step.hc)).Some?
  {
    if !step.Host? || step.hc.caller != pid then p
    else if step.hc.function_.KernelAlloc? && p.memoryUsed + FirstArg(step.hc) <= U64_MAX then
      p.(memoryUsed := p.memoryUsed + FirstArg(step.hc))
    else if step.IsDeclassify() then p.(level := LevelOf(FirstArg(step.hc)).value)
    else p
  }

  /** Allocation charges its caller, declassification sets its caller's level; no other record changes. */
  lemma PluginsAfterStep(s: State, step: Step)
    requires CheckStep(s, step) == None
    ensures step.IsDeclassify() ==> LevelOf(FirstArg(step.hc)).Some?
    ensures StepEffect(s, step).plugins.Keys == s.plugins.Keys
    ensures forall pid :: pid in s.plugins ==>
      StepEffect(s, step).plugins[pid] == PluginAfter(step, pid, s.plugins[pid])
  {
    StepTouchesSubjectOnly(s, step);
  }

  lemma HostKeepsRest(s: State, hc: HostCall)
    ensures HostEffect(s, hc).kernel.(revocation := s.Caps()) == s.kernel
    ensures HostEffect(s, hc).workflows == s.workflows && HostEffect(s, hc).resources == s.resources
  {
  }

  /** Of the rest, only a time tick moves the clock. */
  lemma RestAfterStep(s: State, step: Step)
    requires CheckStep(s, step) == None
    ensures var s' := StepEffect(s, step);
      s'.kernel.(revocation := s.Caps()) ==
        (if step == Kernel(TimeTick) then s.kernel.(now := s.kernel.now + 1) else s.kernel)
      && s'.workflows == s.workflows && s'.resources == s.resources
  {
    match step
    case Host(hc, _, _) => HostKeepsRest(s, hc);
    case _ =>
  }

  // ---- What: resources ----

  /** A kernel allocation takes the next address for its caller; a free frees its address; nothing else is touched. */
  ghost predicate LedgerAfter(m: Meta, m': Meta, step: Step) {
    if step.Host? && step.hc.function_.KernelAlloc? then
      m'.freed == m.freed && m'.resources == m.resources[m.NextAddr() := Allocated(step.hc.caller)]
    else if step.Host? && step.hc.function_.MemFree? && step.hc.args != [] then
      m'.freed == m.freed + {step.hc.args[0]} && m'.resources == m.resources
    else if step.Free? then
      m'.freed == m.freed + {step.addr} && m'.resources == m.resources
    else m' == m
  }

  lemma HostLedgerAfter(s: State, hc: HostCall, auth: Authorized, result: HostResult)
    requires CheckStep(s, Host(hc, auth, result)) == None
    ensures LedgerAfter(s.meta, HostEffect(s, hc).meta, Host(hc, auth, result))
  {
    if hc.function_.MemFree? {
      CheckedFreeApplies(s, hc.args[0]);
    }
  }

  lemma LedgerAfterStep(s: State, step: Step)
    requires CheckStep(s, step) == None
    ensures LedgerAfter(s.meta, StepEffect(s, step).meta, step)
  {
    match step
    case Host(hc, auth, result) => HostLedgerAfter(s, hc, auth, result);
    case Free(_, addr) => CheckedFreeApplies(s, addr);
    case _ =>
  }

  // ---- What: the table ----

  /** The table of the in-place form: a revoking step invalidates just what is reachable from its root. */
  lemma TableAfterStep(s: State, step: Step, id: CapId)
    requires Coherent(s.Caps()) && StepInPlace(s, step).1 == None
    ensures var t' := StepInPlace(s, step).0.Caps();
      t'.Lookup(id) == match s.Caps().Lookup(id)
        case None => None
        case Some(cap) =>
          Some(if RevokedRoot(step).Some? && Reach(s.Caps().index, RevokedRoot(step).value, id)
               then cap.(valid := false) else cap)
  {
    StepPrunes(s, step);
    if RevokedRoot(step).Some? {
      GetMarked(s.Caps(), Reachable(s.Caps(), RevokedRoot(step).value), id);
    }
  }

  lemma HostMatches(s: State, hc: HostCall)
    requires HostInPlace(s, hc).1 == None
    ensures var t := HostEffect(s, hc);
      HostInPlace(s, hc).0.(meta := t.meta).WithCaps(t.Caps()) == t
  {
    if hc.function_.MemFree? && hc.args != [] {
      FreeMatches(s, hc.args[0]);
    } else if !hc.function_.CapRevoke? || hc.args == [] {
      assert HostInPlace(s, hc).0 == HostEffect(s, hc);
      SamePutBack(HostEffect(s, hc));
    }
  }

  lemma SamePutBack(s: State)
    ensures s.(meta := s.meta).WithCaps(s.Caps()) == s
  {
  }

  lemma FreeMatches(s: State, addr: MemAddr)
    requires FreeInPlace(s, addr).1 == None
    ensures s.ApplyFree(addr).Ok?
    ensures var t := s.ApplyFree(addr).value;
      FreeInPlace(s, addr).0.(meta := t.meta).WithCaps(t.Caps()) == t
  {
  }

  /** In everything but the table and the ledger the in-place form leaves what the copying form leaves. */
  lemma InPlaceMatches(s: State, step: Step)
    requires StepInPlace(s, step).1 == None
    ensures var t := StepEffect(s, step);
      StepInPlace(s, step).0.(meta := t.meta).WithCaps(t.Caps()) == t
  {
    match step
    case Host(hc, _, _) => HostMatches(s, hc);
    case Free(_, addr) => FreeMatches(s, addr);
    case _ =>
  }

  // ---- Routing ----

  /** k routing steps to one actor, in one form or the other. */
  function Routes(dst: ActorId, k: nat, copying: bool): seq<ApiOp> {
    seq(k, _ => if copying then RunCopying(Kernel(RouteOne(dst))) else RunStep(Kernel(RouteOne(dst))))
  }

  lemma RouteDelivers(s: State, dst: ActorId)
    requires dst in s.actors
    ensures StepInPlace(s, Kernel(RouteOne(dst))).0 == StepCopying(s, Kernel(RouteOne(dst)))
    ensures StepCopying(s, Kernel(RouteOne(dst))) == s.(actors := s.actors[dst := s.actors[dst].Deliver()])
  {
    if CheckStep(s, Kernel(RouteOne(dst))).Some? {
      assert s.actors[dst].Deliver() == s.actors[dst];
      assert s.actors[dst := s.actors[dst]] == s.actors;
    }
  }

  /** They make k deliveries to it and change nothing else. */
  lemma {:induction false} RoutesDeliver(s: State, dst: ActorId, k: nat, copying: bool)
    requires dst in s.actors
    ensures Run(s, Routes(dst, k, copying)) == s.(actors := s.actors[dst := Delivered(s.actors[dst], k)])
    decreases k
  {
    var ops := Routes(dst, k, copying);
    if k == 0 {
      assert s.actors[dst := s.actors[dst]] == s.actors;
    } else {
      RouteDelivers(s, dst);
      var s1 := s.(actors := s.actors[dst := s.actors[dst].Deliver()]);
      assert Apply(s, ops[0]) == s1;
      assert ops[1..] == Routes(dst, k - 1, copying);
      RoutesDeliver(s1, dst, k - 1, copying);
    }
  }

  /** So k routing steps move exactly as many messages, in order, as there are and as the mailbox has room for. */
  lemma RoutesMove(s: State, dst: ActorId, k: nat, copying: bool)
    requires dst in s.actors
    ensures var a := s.actors[dst];
      var n := Min(k, Min(|a.pending|, Room(a)));
      Run(s, Routes(dst, k, copying))
        == s.(actors := s.actors[dst := a.(pending := a.pending[n..], mailbox := a.mailbox + a.pending[..n])])
  {
    RoutesDeliver(s, dst, k, copying);
    DeliveriesMove(s.actors[dst], k);
  }
}
