/** What the checks in front of a step admit, stated without the order in which they are made. */
module StepChecks {
  import opened Types
  import opened Capabilities
  import opened CapTable
  import opened PagedMemory
  import opened Resources
  import opened Actors
  import opened SystemState
  import opened Steps
  import opened Simulation
  import opened KernelApi
  import opened KernelSafety
  import opened Witnesses
  import opened Noninterference

  // ---- Regions, plugins and messages ----

  /** Every byte of every region lies in the memory. */
  ghost predicate AllInside(mem: Mem, regions: seq<Region>) {
    forall i :: 0 <= i < |regions| ==> Inside(mem.bounds, regions[i].0, regions[i].1)
  }

  lemma {:induction false} RegionsMeaning(mem: Mem, regions: seq<Region>)
    ensures FirstOutOfBounds(mem, regions) == None <==> AllInside(mem, regions)
    ensures FirstUnwritable(mem, regions) == None
      <==> forall i :: 0 <= i < |regions| ==> regions[i].0 < mem.bounds
  {
    if regions != [] {
      BoundsMeaning(mem, regions[0].0, regions[0].1);
      RegionsMeaning(mem, regions[1..]);
      assert forall i :: 0 < i < |regions| ==> regions[i] == regions[1..][i - 1];
    }
  }

  /** A plugin may compute when it exists, is not blocked, stays in its memory, and has mail if it wants some. */
  lemma PluginStepAllowed(s: State, pid: PluginId, pi: PluginInternal)
    ensures CheckInternal(s, pid, pi) == None <==>
      pid in s.plugins
      && (pid in s.actors ==> s.actors[pid].blockedOn == None && (pi.consumeMailbox ==> s.actors[pid].mailbox != []))
      && AllInside(s.plugins[pid].memory, pi.reads_)
      && AllInside(s.plugins[pid].memory, pi.writes)
      && forall i :: 0 <= i < |pi.writes| ==> pi.writes[i].0 < s.plugins[pid].memory.bounds
  {
    if pid in s.plugins {
      RegionsMeaning(s.plugins[pid].memory, pi.reads_);
      RegionsMeaning(s.plugins[pid].memory, pi.writes);
    }
  }

  /** A send goes through when every message is the caller's own and every mailbox addressed has room. */
  lemma {:induction false} SendAllowed(s: State, caller: PluginId, msgs: seq<Message>)
    ensures CheckMessages(s, caller, msgs) == None <==>
      forall msg :: msg in msgs ==>
        msg.src == caller && msg.dst in s.actors && |s.actors[msg.dst].mailbox| < s.actors[msg.dst].capacity
  {
    if msgs != [] {
      SendAllowed(s, caller, msgs[1..]);
      assert msgs == [msgs[0]] + msgs[1..];
    }
  }

  // ---- What each host function asks for ----

  /** The right each host function is meant to need. */
  function RightFor(f: HostFunction): Right
    requires !f.ThreadOperation?
  {
    match f
    case CapCall => Right.Read
    case CapSend => Right.Send
    case KernelAlloc => Right.Create
    case MemFree => Right.Delete
    case CapRevoke => Right.Revoke
    case Declassify => Right.Declassify
  }

  /** And the resource it is needed on: the first argument where the call names one, else resource 0. */
  predicate NamesTarget(f: HostFunction) {
    f.CapCall? || f.MemFree? || f.CapRevoke?
  }

  /** The target a call names, and resource 0 when it names none. */
  function TargetOf(hc: HostCall): ResourceId
    requires NamesTarget(hc.function_) ==> hc.args != []
  {
    if NamesTarget(hc.function_) then hc.args[0] else 0
  }

  function KindOf(f: HostFunction): string
    requires !f.ThreadOperation?
  {
    match f
    case CapCall => "cap_call"
    case CapSend => "cap_send"
    case KernelAlloc => "kernel_alloc"
    case MemFree => "mem_free"
    case CapRevoke => "cap_revoke"
    case Declassify => "declassify"
  }

  /** The action a call stands for. */
  function ActionFor(hc: HostCall): Action
    requires !hc.function_.ThreadOperation? && (NamesTarget(hc.function_) ==> hc.args != [])
  {
    Action(hc.caller, TargetOf(hc), {RightFor(hc.function_)}, KindOf(hc.function_))
  }

  /** The action is the caller's, on the target the call names, with the one right the function needs. */
  predicate FitsCall(hc: HostCall, action: Action) {
    !hc.function_.ThreadOperation?
    && (NamesTarget(hc.function_) ==> hc.args != [])
    && action == ActionFor(hc)
  }

  // ---- Authorisation ----

  predicate Permits(policy: Policy) {
    policy == PermitAll || policy == Custom(Permit)
  }

  /** The record in the witness names the subject and the target, and covers the rights. */
  predicate RecordCovers(cap: Capability, action: Action) {
    cap.holder == action.subject && cap.target == action.target
    && forall r :: r in action.rights ==> r in cap.rights
  }

  /** The table holds the named capability valid, and the named parent too. */
  predicate TableConfirms(t: Table, cap: Capability) {
    t.IsValid(cap.id) && (cap.parent.Some? ==> t.IsValid(cap.parent.value))
  }

  /** Writing asks for a level no lower than that of the owner; plugins that are not registered count as public. */
  predicate IntegrityAllows(s: State, action: Action, addr: MemAddr)
    requires s.meta.IsLive(addr) && action.subject in s.plugins
  {
    Right.Write in action.rights ==>
      var owner := s.meta.resources[addr].owner;
      owner in s.plugins ==> s.plugins[owner].level.Rank() <= s.plugins[action.subject].level.Rank()
  }

  /** All that a witness is checked for, in no particular order. */
  predicate Stands(s: State, a: Authorized) {
    var addr := a.action.target % 0x1_0000_0000_0000_0000;
    RecordCovers(a.cap, a.action)
    && a.action.subject in s.plugins && a.cap.id in s.plugins[a.action.subject].heldCaps
    && Permits(s.kernel.policy)
    && TableConfirms(s.Caps(), a.cap)
    && s.meta.IsLive(addr)
    && IntegrityAllows(s, a.action, addr)
  }

  /** The validator issues a witness if and only if it stands. */
  lemma WitnessIssuedExactly(s: State, cap: Capability, action: Action, ctx: PolicyContext)
    ensures ValidateAtomic(s, cap, action, ctx).Ok? <==> Stands(s, Authorized(cap, action, ctx))
    ensures ValidateAtomic(s, cap, action, ctx).Ok? ==>
      ValidateAtomic(s, cap, action, ctx).value == Authorized(cap, action, ctx)
  {
  }

  /** A host call is authorised if and only if its action fits it, its witness stands, and its regions are in bounds. */
  lemma HostCallAuthorised(s: State, hc: HostCall, auth: Authorized)
    ensures CheckHostCall(s, hc, auth) == None <==>
      FitsCall(hc, auth.action) && Stands(s, auth)
      && AllInside(s.plugins[hc.caller].memory, hc.reads_)
      && AllInside(s.plugins[hc.caller].memory, hc.writes)
  {
    WitnessIssuedExactly(s, auth.cap, auth.action, auth.ctx);
    if hc.caller in s.plugins {
      RegionsMeaning(s.plugins[hc.caller].memory, hc.reads_);
      RegionsMeaning(s.plugins[hc.caller].memory, hc.writes);
    }
  }

  /** A step is built on a capability of the table exactly if its record makes a witness for the call that stands. */
  lemma HostCallBuiltExactly(s: State, hc: HostCall, capId: CapId, ctx: PolicyContext, result: HostResult)
    ensures HostCallAtomic(s, hc, capId, ctx, result).Ok? <==>
      s.Caps().Present(capId) && !hc.function_.ThreadOperation? && (NamesTarget(hc.function_) ==> hc.args != [])
      && Stands(s, Authorized(s.Caps().Lookup(capId).value, ActionFor(hc), ctx))
    ensures HostCallAtomic(s, hc, capId, ctx, result).Ok? ==>
      HostCallAtomic(s, hc, capId, ctx, result).value
        == Host(hc, Authorized(s.Caps().Lookup(capId).value, ActionFor(hc), ctx), result)
  {
    if s.Caps().Present(capId) && RequiredAction(hc).Ok? {
      WitnessIssuedExactly(s, s.Caps().Lookup(capId).value, RequiredAction(hc).value, ctx);
    }
  }

  // ---- Witnesses ----

  /** A witness passes where it was made: only a region out of bounds can stop the call there. */
  lemma FreshWitnessPasses(s: State, step: Step, capId: CapId)
    requires KeysMatch(s.Caps()) && BuiltFrom(s, step, capId)
    ensures step.hc.caller in s.plugins
    ensures CheckHostCall(s, step.hc, step.auth) == None <==>
      AllInside(s.plugins[step.hc.caller].memory, step.hc.reads_)
      && AllInside(s.plugins[step.hc.caller].memory, step.hc.writes)
  {
    WitnessIsFromTable(s, step, capId);
    RegionsMeaning(s.plugins[step.hc.caller].memory, step.hc.reads_);
    RegionsMeaning(s.plugins[step.hc.caller].memory, step.hc.writes);
  }

  lemma ValidityOfLaterCap(s: State, auth: Authorized)
    requires ValidParents(s.Caps()) && s.Caps().Present(auth.cap.id)
    requires s.Caps().ParentOf(auth.cap.id) == auth.cap.parent
    ensures CheckValidity(s, auth) == None <==> s.Caps().IsValid(auth.cap.id)
  {
  }

  /** Looking at the parent adds nothing: in every later state validity of the capability itself decides. */
  lemma ParentCheckIsImplied(s0: State, ops: seq<ApiOp>, step: Step, capId: CapId)
    requires Inv(s0) && BuiltFrom(s0, step, capId) && AllAllowed(s0, ops)
    ensures CheckValidity(Run(s0, ops), step.auth) == None <==> Run(s0, ops).Caps().IsValid(capId)
  {
    WitnessStaysTrue(s0, ops, step, capId);
    RunKeepsInv(s0, ops);
    ValidityOfLaterCap(Run(s0, ops), step.auth);
  }

  lemma ActionNamesTarget(s: State, hc: HostCall, auth: Authorized)
    requires CheckHostCall(s, hc, auth) == None
    ensures !hc.function_.ThreadOperation? && (NamesTarget(hc.function_) ==> hc.args != [])
    ensures auth.action.target == TargetOf(hc) && auth.action.rights == {RightFor(hc.function_)}
  {
  }

  /** A host call that runs has its right on the whole chain exactly if the record in the table grants it. */
  lemma HostCallRightExactly(s: State, step: Step)
    requires Inv(s) && step.Host? && CheckStep(s, step) == None
    ensures !step.hc.function_.ThreadOperation? && (NamesTarget(step.hc.function_) ==> step.hc.args != [])
    ensures s.Caps().IsValid(step.auth.cap.id)
    ensures WholeChainGrants(s.Caps(), step.auth.cap.id, TargetOf(step.hc), {RightFor(step.hc.function_)})
      <==> s.Caps().Lookup(step.auth.cap.id).value.target == TargetOf(step.hc)
           && RightFor(step.hc.function_) in s.Caps().Lookup(step.auth.cap.id).value.rights
  {
    ActionNamesTarget(s, step.hc, step.auth);
    HostCallGrantsExactly(s, step);
  }

  lemma HostCallNeedsItsRight(s0: State, ops: seq<ApiOp>, step: Step, capId: CapId)
    requires Inv(s0) && BuiltFrom(s0, step, capId) && AllAllowed(s0, ops)
    requires CheckStep(Run(s0, ops), step) == None
    ensures !step.hc.function_.ThreadOperation? && (NamesTarget(step.hc.function_) ==> step.hc.args != [])
    ensures WholeChainGrants(Run(s0, ops).Caps(), capId, TargetOf(step.hc), {RightFor(step.hc.function_)})
  {
    ActionNamesTarget(Run(s0, ops), step.hc, step.auth);
    HostCallNeedsWholeChain(s0, ops, step, capId);
  }

  // ---- Bounds over histories ----

  /** No plugin is over its memory quota, no mailbox over its capacity. */
  ghost predicate WithinBounds(s: State) {
    (forall pid :: pid in s.plugins ==> s.plugins[pid].memoryUsed <= s.plugins[pid].memoryQuota)
    && (forall aid :: aid in s.actors ==> |s.actors[aid].mailbox| <= s.actors[aid].capacity)
  }

  lemma InPlaceTouches(s: State, step: Step)
    ensures StepInPlace(s, step).0.plugins
         == if StepInPlace(s, step).1 == None then StepEffect(s, step).plugins else s.plugins
    ensures StepInPlace(s, step).0.actors
         == if StepInPlace(s, step).1 == None then StepEffect(s, step).actors else s.actors
  {
    match step
    case Free(_, _) => StepTouchesSubjectOnly(s, step);
    case Host(hc, _, _) => HostTouchesActors(s, hc);
    case _ =>
  }

  lemma HostTouchesActors(s: State, hc: HostCall)
    ensures HostInPlace(s, hc).0.actors == s.actors == HostEffect(s, hc).actors
    ensures HostInPlace(s, hc).1 == None ==> HostInPlace(s, hc).0.plugins == HostEffect(s, hc).plugins
    ensures HostInPlace(s, hc).1 != None ==> HostInPlace(s, hc).0 == s
  {
  }

  lemma CopyingStaysWithinBounds(s: State, step: Step)
    requires WithinBounds(s)
    ensures WithinBounds(StepCopying(s, step))
  {
    if CheckStep(s, step) == None {
      StepTouchesSubjectOnly(s, step);
      ActorsStayWithinBounds(s, step);
      if step.Host? && step.hc.function_.KernelAlloc? {
        assert s.plugins[step.hc.caller].CanAllocMemory(ArgOrZero(step.hc));
      }
    }
  }

  lemma StepStaysWithinBounds(s: State, step: Step)
    requires WithinBounds(s)
    ensures WithinBounds(StepInPlace(s, step).0)
  {
    InPlaceTouches(s, step);
    CopyingStaysWithinBounds(s, step);
  }

  lemma ActorsStayWithinBounds(s: State, step: Step)
    requires forall aid :: aid in s.actors ==> |s.actors[aid].mailbox| <= s.actors[aid].capacity
    ensures forall aid :: aid in StepEffect(s, step).actors ==>
      |StepEffect(s, step).actors[aid].mailbox| <= StepEffect(s, step).actors[aid].capacity
  {
    match step
    case Host(hc, _, _) => HostTouchesActors(s, hc);
    case _ =>
  }

  lemma RawTouches(s: State, cap: Capability, target: PluginId)
    requires WithinBounds(s)
    ensures WithinBounds(InsertRaw(s, cap, target).0)
  {
  }

  lemma MintTouches(s: State, parent: CapId, target: ResourceId, to: PluginId, rights: Rights)
    requires WithinBounds(s)
    ensures WithinBounds(s.MintChild(parent, target, to, rights).0)
  {
    if s.kernel.nextCapId != U128_MAX {
      var child := s.NewChild(parent, target, to, rights);
      if child.Ok? {
        RawTouches(s.WithNextCapId(s.kernel.nextCapId + 1), child.value, to);
      }
    }
  }

  lemma ApplyStaysWithinBounds(s: State, op: ApiOp)
    requires WithinBounds(s)
    ensures WithinBounds(Apply(s, op))
  {
    match op
    case RunStep(step) => StepStaysWithinBounds(s, step);
    case RunCopying(step) => CopyingStaysWithinBounds(s, step);
    case Delegate(parent, to, rights) =>
      if s.Caps().Present(parent) {
        var cap := s.Caps().Lookup(parent).value;
        MintTouches(s, parent, cap.target, to, rights * cap.rights);
      }
    case InsertCapRaw(cap, target) => RawTouches(s, cap, target);
    case _ =>
  }

  lemma {:induction false} RunStaysWithinBounds(s: State, ops: seq<ApiOp>)
    requires WithinBounds(s)
    ensures WithinBounds(Run(s, ops))
    decreases |ops|
  {
    if ops != [] {
      ApplyStaysWithinBounds(s, ops[0]);
      RunStaysWithinBounds(Apply(s, ops[0]), ops[1..]);
    }
  }

  /** An allocation that goes through charges its size to the caller exactly, and its address is live. */
  lemma AllocationCharges(s: State, step: Step)
    requires MetaInv(s.meta) && |s.meta.resources| <= U64_MAX
    requires step.Host? && step.hc.function_.KernelAlloc? && ExecuteStep(s, step).Ok?
    ensures var s' := ExecuteStep(s, step).value; var pid := step.hc.caller;
      pid in s.plugins && pid in s'.plugins
      && s'.plugins[pid].memoryUsed == s.plugins[pid].memoryUsed + ArgOrZero(step.hc) <= s.plugins[pid].memoryQuota
      && !s.meta.IsLive(s.meta.NextAddr()) && s'.meta.IsLive(s.meta.NextAddr())
  {
  }

  /** A step that goes through never raises a plugin's level. */
  lemma LevelsNeverRise(s: State, step: Step, pid: PluginId)
    requires ExecuteStep(s, step).Ok? && pid in s.plugins
    ensures pid in ExecuteStep(s, step).value.plugins
    ensures ExecuteStep(s, step).value.plugins[pid].level.Rank() <= s.plugins[pid].level.Rank()
  {
    StepTouchesSubjectOnly(s, step);
  }

  // ---- Delegation and freeing, end to end ----

  /** A successful delegation grants the new id to its holder, beside all that it held. */
  lemma DelegationGrants(s: State, parent: CapId, to: PluginId, rights: Rights)
    requires s.DelegateCap(parent, to, rights).1.Ok?
    ensures var (s', r) := s.DelegateCap(parent, to, rights);
      s'.plugins ==
        (if to in s.plugins then s.plugins[to := s.plugins[to].(heldCaps := s.plugins[to].heldCaps + {r.value})]
         else s.plugins)
  {
  }

  lemma DelegationMints(s: State, parent: CapId, to: PluginId, rights: Rights)
    requires Layout(s.Caps()) && s.DelegateCap(parent, to, rights).1.Ok?
    ensures s.Caps().IsValid(parent)
    ensures var (s', r) := s.DelegateCap(parent, to, rights);
      var cap := s.Caps().Lookup(parent).value;
      var child := s.NewChild(parent, cap.target, to, rights * cap.rights);
      child.Ok? && r == Ok(child.value.id) && !s.Caps().Present(child.value.id)
      && Adds(s.Caps(), s'.Caps(), child.value)
  {
    var cap := s.Caps().Lookup(parent).value;
    var child := s.NewChild(parent, cap.target, to, rights * cap.rights).value;
    InsertingMoves(s.WithNextCapId(s.kernel.nextCapId + 1), child, to);
    forall q: CapId
      ensures s.DelegateCap(parent, to, rights).0.Caps().Lookup(q)
           == if q == child.id then Some(child) else s.Caps().Lookup(q)
    {
      LookupAfterInsert(s.Caps(), child, q);
    }
  }

  /**
   A successful delegation adds just one capability: fresh, valid, confined, and held by its holder
   beside all that it held; and it changes nothing else.
   */
  lemma DelegationResult(s: State, parent: CapId, to: PluginId, rights: Rights)
    requires Layout(s.Caps()) && s.DelegateCap(parent, to, rights).1.Ok?
    ensures var (s', r) := s.DelegateCap(parent, to, rights);
      var id := r.value;
      !s.Caps().Present(id) && s'.Caps().IsValid(id) && s'.Caps().ParentOf(id) == Some(parent)
      && s'.Caps().Lookup(id).value.holder == to
      && s'.Caps().Lookup(id).value.rights == rights * s.Caps().Lookup(parent).value.rights != {}
      && s'.Caps().Lookup(id).value.target == s.Caps().Lookup(parent).value.target
      && (forall q: CapId :: q != id ==> s'.Caps().Lookup(q) == s.Caps().Lookup(q))
      && (to in s.plugins ==>
            s'.plugins == s.plugins[to := s.plugins[to].(heldCaps := s.plugins[to].heldCaps + {id})]
            && s'.PluginHolds(to, id))
      && s.PreservesIsolation(s', to)
  {
    DelegationMints(s, parent, to, rights);
    DelegationGrants(s, parent, to, rights);
  }

  /** What a delegation needs: of the parent, the rights and the holder, and that the counter gives a free id. */
  predicate MayDelegate(s: State, parent: CapId, to: PluginId, rights: Rights) {
    s.Caps().IsValid(parent) && rights * s.Caps().Lookup(parent).value.rights != {} && to != 0
    && parent < U128_MAX && s.kernel.nextCapId < U128_MAX && !s.Caps().Present(s.kernel.nextCapId)
  }

  /**
   In every state a delegation succeeds exactly then, with the counter's id. The counter moves by one
   also when it fails late, which is once the parent, the rights and the counter itself were in order;
   a failed delegation changes nothing else.
   */
  lemma DelegationOutcome(s: State, parent: CapId, to: PluginId, rights: Rights)
    ensures var (s', r) := s.DelegateCap(parent, to, rights);
      (r.Ok? <==> MayDelegate(s, parent, to, rights))
      && (r.Ok? ==> r.value == s.kernel.nextCapId && s'.kernel.nextCapId == s.kernel.nextCapId + 1)
      && (r.Err? ==>
            s' == if s.Caps().IsValid(parent) && rights * s.Caps().Lookup(parent).value.rights != {}
                     && s.kernel.nextCapId < U128_MAX
                  then s.(kernel := s.kernel.(nextCapId := s.kernel.nextCapId + 1)) else s)
  {
  }

  /** The error of a delegation is true of the state it was refused in. */
  predicate DelegationErrorTrue(s: State, parent: CapId, to: PluginId, rights: Rights, e: ApiError) {
    match e
    case KernelFailed(CapNotFound(id)) => id == parent && !s.Caps().Present(parent)
    case CapabilityFailed(Revoked) => s.Caps().Present(parent) && !s.Caps().IsValid(parent)
    case CapabilityFailed(EmptyRights) =>
      s.Caps().Present(parent) && rights * s.Caps().Lookup(parent).value.rights == {}
    case CapabilityFailed(InvalidHolder) => to == 0
    case KernelFailed(CapIdExhausted) => s.kernel.nextCapId == U128_MAX
    case KernelFailed(CapIdCollision(id)) => id == s.kernel.nextCapId && s.Caps().Present(id)
    case Aborted => parent == U128_MAX
    case _ => false
  }

  lemma DelegationErrorIsTrue(s: State, parent: CapId, to: PluginId, rights: Rights)
    requires s.DelegateCap(parent, to, rights).1.Err?
    ensures DelegationErrorTrue(s, parent, to, rights, s.DelegateCap(parent, to, rights).1.error)
  {
  }

  /** An address that was freed once is refused after every history. */
  lemma NeverFreedTwice(s: State, addr: MemAddr, ops: seq<ApiOp>)
    requires FreeInPlace(s, addr).1 == None
    ensures var s' := Run(FreeInPlace(s, addr).0, ops);
      FreeInPlace(s', addr).1.Some? && !s'.meta.IsLive(addr) && CheckFree(s', addr) == Some(AddressAlreadyFreed(addr))
  {
    RunKeepsFreed(FreeInPlace(s, addr).0, ops);
  }
}
