/**
 One step in its in-place form, and the simulation between the two forms. They differ in how they
 revoke (children index against parent walk) and in how they free (status check against none).
 */
module Simulation {
  import opened Types
  import opened Capabilities
  import opened CapTable
  import opened Descent
  import opened Revocation
  import opened Resources
  import opened Actors
  import opened SystemState
  import opened Steps

  ghost function RevokeInPlace(s: State, id: CapId): State {
    s.WithCaps(RevokeReachable(s.Caps(), id))
  }

  function FreeInPlace(s: State, addr: MemAddr): (State, Option<StateError>) {
    if s.Caps().AnyValidTargeting(addr) then (s, Some(DanglingCapability(addr)))
    else
      match s.meta.FreeInPlace(addr)
      case Ok(m) => (s.(meta := m), None)
      case Err(_) => (s, Some(ResourceNotFound(addr)))
  }

  ghost function HostInPlace(s: State, hc: HostCall): (State, Check) {
    if hc.function_.MemFree? && hc.args != [] then
      match FreeInPlace(s, hc.args[0])
      case (s', None) => (s', None)
      case (_, Some(e)) => (s, Some(FreeFailed(e)))
    else if hc.function_.CapRevoke? && hc.args != [] then (RevokeInPlace(s, hc.args[0]), None)
    else (HostEffect(s, hc), None)
  }

  /** The state and the outcome after one in-place step. */
  ghost function StepInPlace(s: State, step: Step): (State, Check) {
    match CheckStep(s, step)
    case Some(e) => (s, Some(e))
    case None =>
      match step
      case Free(_, addr) =>
        (match FreeInPlace(s, addr)
         case (s', None) => (s', None)
         case (_, Some(e)) => (s, Some(StateFailed(e))))
      case RevokeCap(_, capId) => (RevokeInPlace(s, capId), None)
      case Host(hc, _, _) => HostInPlace(s, hc)
      case _ => (StepEffect(s, step), None)
  }

  /** Equal but for the ledger of resources, and the ledgers answer every question alike. */
  ghost predicate ObsEq(s: State, t: State) {
    s.(meta := t.meta) == t && SameLedger(s.meta, t.meta)
  }

  /** The id a step revokes, if it revokes one. */
  function RevokedRoot(step: Step): Option<CapId> {
    match step
    case RevokeCap(_, capId) => Some(capId)
    case Host(hc, _, _) => if hc.function_.CapRevoke? && hc.args != [] then Some(hc.args[0]) else None
    case _ => None
  }

  /** A direct free of an address that is not live: the copying form accepts it, the other refuses. */
  predicate FreesDead(s: State, step: Step) {
    step.Free? && !s.meta.IsLive(step.addr)
  }

  /** A revocation whose naive form misses a valid capability. */
  ghost predicate RevokesPastFuel(s: State, step: Step) {
    RevokedRoot(step).Some? && PastFuel(s.Caps(), RevokedRoot(step).value)
  }

  /** The steps on which the two forms part. */
  ghost predicate FormsPart(s: State, step: Step) {
    CheckStep(s, step) == None && (FreesDead(s, step) || RevokesPastFuel(s, step))
  }

  lemma HostFreeTargetsLive(s: State, hc: HostCall, auth: Authorized)
    requires CheckHostCall(s, hc, auth) == None && hc.function_.MemFree?
    ensures hc.args != [] && s.meta.IsLive(hc.args[0])
  {
  }

  /** A failing in-place step changes nothing, in any state. */
  lemma FailureChangesNothing(s: State, step: Step)
    ensures StepInPlace(s, step).1.Some? ==> StepInPlace(s, step).0 == s
  {
  }

  lemma RevocationsAgreeExactly(s: State, id: CapId)
    requires Layout(s.Caps()) && IndexExact(s.Caps())
    ensures ObsEq(RevokeInPlace(s, id), s.ApplyCapRevoke(id)) <==> !PastFuel(s.Caps(), id)
  {
    FastEqualsNaiveExactly(s.Caps(), id);
  }

  lemma FreesAgree(s: State, addr: MemAddr)
    requires CheckFree(s, addr) == None
    ensures s.ApplyFree(addr).Ok?
    ensures if s.meta.IsLive(addr)
      then FreeInPlace(s, addr).1 == None && ObsEq(FreeInPlace(s, addr).0, s.ApplyFree(addr).value)
      else FreeInPlace(s, addr) == (s, Some(ResourceNotFound(addr)))
  {
    CheckedFreeApplies(s, addr);
    FreeFormsAgree(s.meta, addr);
  }

  lemma HostSimulates(s: State, hc: HostCall, auth: Authorized, result: HostResult)
    requires Layout(s.Caps()) && IndexExact(s.Caps())
    requires CheckStep(s, Host(hc, auth, result)) == None
    ensures HostInPlace(s, hc).1 == None
    ensures ObsEq(HostInPlace(s, hc).0, HostEffect(s, hc)) <==> !RevokesPastFuel(s, Host(hc, auth, result))
  {
    match hc.function_
    case MemFree =>
      HostFreeTargetsLive(s, hc, auth);
      FreesAgree(s, hc.args[0]);
    case CapRevoke => RevocationsAgreeExactly(s, hc.args[0]);
    case _ =>
  }

  /**
   In-place execution against copying execution, one step on any table with an exact index. Errors are
   the same. On success the results are observably equal but for two kinds of step: a direct free of a
   dead address, which the in-place form refuses, and a revocation past fuel, which in copying form
   leaves capabilities valid that the in-place form revokes.
   */
  lemma InPlaceSimulates(s: State, step: Step)
    requires Layout(s.Caps()) && IndexExact(s.Caps())
    ensures var (s', e) := StepInPlace(s, step);
      match ExecuteStep(s, step)
      case Err(e') => e == Some(e') && s' == s
      case Ok(t) =>
        if FreesDead(s, step) then e.Some? && s' == s
        else e == None && (ObsEq(s', t) <==> !RevokesPastFuel(s, step))
  {
    if CheckStep(s, step) == None {
      match step
      case Free(_, addr) => FreesAgree(s, addr);
      case RevokeCap(_, capId) => RevocationsAgreeExactly(s, capId);
      case Host(hc, auth, result) => HostSimulates(s, hc, auth, result);
      case _ => assert StepInPlace(s, step) == (StepEffect(s, step), None);
    }
  }

  /** With parents before children only the dead free is left. */
  lemma InPlaceSimulatesOrdered(s: State, step: Step)
    requires Layout(s.Caps()) && IndexExact(s.Caps()) && ParentLt(s.Caps())
    ensures var (s', e) := StepInPlace(s, step);
      match ExecuteStep(s, step)
      case Err(e') => e == Some(e') && s' == s
      case Ok(t) => if FreesDead(s, step) then e.Some? && s' == s else e == None && ObsEq(s', t)
  {
    InPlaceSimulates(s, step);
    if RevokedRoot(step).Some? {
      OrderIsWithinFuel(s.Caps(), RevokedRoot(step).value);
    }
  }

  // ---- Lifting to lists of steps ----

  lemma ChecksIgnoreLedger(s: State, t: State, step: Step)
    requires ObsEq(s, t)
    ensures CheckStep(s, step) == CheckStep(t, step)
  {
    match step
    case Host(hc, auth, result) =>
      if auth.action.subject == hc.caller && RequiredAction(hc) == Ok(auth.action) {
        assert Right.Write !in auth.action.rights;
        assert Validate(s, auth) == Validate(t, auth);
      }
      assert CheckHostCall(s, hc, auth) == CheckHostCall(t, hc, auth);
      MessagesIgnoreLedger(s, t, hc.caller, result.newMsgs);
      assert CheckHostFunction(s, hc, result) == CheckHostFunction(t, hc, result);
    case _ =>
  }

  lemma MessagesIgnoreLedger(s: State, t: State, caller: PluginId, msgs: seq<Message>)
    requires s.actors == t.actors
    ensures CheckMessages(s, caller, msgs) == CheckMessages(t, caller, msgs)
  {
  }

  lemma HostEffectsIgnoreLedger(s: State, t: State, hc: HostCall)
    requires ObsEq(s, t)
    ensures ObsEq(HostEffect(s, hc), HostEffect(t, hc))
  {
    match hc.function_
    case KernelAlloc => LedgersStaySame(s.meta, t.meta, hc.caller, 0);
    case MemFree => if hc.args != [] { FreesIgnoreLedger(s, t, hc.args[0]); }
    case _ =>
  }

  lemma FreesIgnoreLedger(s: State, t: State, addr: MemAddr)
    requires ObsEq(s, t)
    ensures s.ApplyFree(addr).Ok? <==> t.ApplyFree(addr).Ok?
    ensures s.ApplyFree(addr).Ok? ==> ObsEq(s.ApplyFree(addr).value, t.ApplyFree(addr).value)
  {
    LedgersStaySame(s.meta, t.meta, 0, addr);
  }

  lemma KernelEffectsIgnoreLedger(s: State, t: State, op: KernelOp)
    requires ObsEq(s, t)
    ensures ObsEq(KernelEffect(s, op), KernelEffect(t, op))
  {
  }

  lemma EffectsIgnoreLedger(s: State, t: State, step: Step)
    requires ObsEq(s, t)
    ensures ObsEq(StepEffect(s, step), StepEffect(t, step))
  {
    match step
    case Free(_, addr) => FreesIgnoreLedger(s, t, addr);
    case Kernel(op) => KernelEffectsIgnoreLedger(s, t, op);
    case Host(hc, _, _) => HostEffectsIgnoreLedger(s, t, hc);
    case _ =>
  }

  /** All that a step can do to the table. */
  lemma StepPrunes(s: State, step: Step)
    ensures StepInPlace(s, step).0.Caps() ==
      if CheckStep(s, step) == None && RevokedRoot(step).Some? then RevokeReachable(s.Caps(), RevokedRoot(step).value)
      else s.Caps()
  {
  }

  lemma StepKeepsCoherent(s: State, step: Step)
    requires Coherent(s.Caps())
    ensures Coherent(StepInPlace(s, step).0.Caps())
    ensures forall id: CapId :: StepInPlace(s, step).0.Caps().ParentOf(id) == s.Caps().ParentOf(id)
  {
    StepPrunes(s, step);
    if RevokedRoot(step).Some? {
      RevokeKeepsCoherent(s.Caps(), RevokedRoot(step).value);
    }
  }

  /** The in-place run of a list of steps, up to the first error. */
  ghost function RunInPlace(s: State, steps: seq<Step>): (State, Check)
    decreases |steps|
  {
    if steps == [] then (s, None)
    else
      match StepInPlace(s, steps[0])
      case (_, Some(e)) => (s, Some(e))
      case (s', None) => RunInPlace(s', steps[1..])
  }

  /** The two forms, started at s and t, stay observably equal or stop at the same error. */
  ghost predicate Lockstep(s: State, t: State, steps: seq<Step>)
    decreases |steps|
  {
    steps == [] ||
    match ExecuteStep(t, steps[0])
    case Err(e) => StepInPlace(s, steps[0]).1 == Some(e)
    case Ok(t') =>
      var (s', e) := StepInPlace(s, steps[0]);
      e == None && ObsEq(s', t') && Lockstep(s', t', steps[1..])
  }

  /** No step that the in-place run comes to frees a dead address past the checks. */
  ghost predicate FreesOnlyLive(s: State, steps: seq<Step>)
    decreases |steps|
  {
    steps == [] || (
      (CheckStep(s, steps[0]) == None ==> !FreesDead(s, steps[0]))
      && (StepInPlace(s, steps[0]).1 == None ==> FreesOnlyLive(StepInPlace(s, steps[0]).0, steps[1..])))
  }

  /** And none revokes past fuel. */
  ghost predicate RevokesWithinFuel(s: State, steps: seq<Step>)
    decreases |steps|
  {
    steps == [] || (
      (CheckStep(s, steps[0]) == None ==> !RevokesPastFuel(s, steps[0]))
      && (StepInPlace(s, steps[0]).1 == None ==> RevokesWithinFuel(StepInPlace(s, steps[0]).0, steps[1..])))
  }

  /** One step from observably equal states. */
  lemma StepsAgree(s: State, t: State, step: Step)
    requires Layout(s.Caps()) && IndexExact(s.Caps()) && ObsEq(s, t)
    ensures match ExecuteStep(t, step)
      case Err(e) => StepInPlace(s, step) == (s, Some(e)) && CheckStep(s, step) == Some(e)
      case Ok(t') =>
        CheckStep(s, step) == None
        && if FreesDead(s, step) then StepInPlace(s, step).1.Some?
           else StepInPlace(s, step).1 == None
                && (ObsEq(StepInPlace(s, step).0, t') <==> !RevokesPastFuel(s, step))
  {
    ChecksIgnoreLedger(s, t, step);
    EffectsIgnoreLedger(s, t, step);
    InPlaceSimulates(s, step);
  }

  /** Lists of steps run in lockstep exactly when no step reached frees a dead address or revokes past fuel. */
  lemma {:induction false} RunsAgreeExactly(s: State, t: State, steps: seq<Step>)
    requires Coherent(s.Caps()) && ObsEq(s, t)
    ensures Lockstep(s, t, steps) <==> FreesOnlyLive(s, steps) && RevokesWithinFuel(s, steps)
    decreases |steps|
  {
    if steps != [] {
      StepsAgree(s, t, steps[0]);
      if ExecuteStep(t, steps[0]).Ok? && !FreesDead(s, steps[0]) && !RevokesPastFuel(s, steps[0]) {
        StepKeepsCoherent(s, steps[0]);
        RunsAgreeExactly(StepInPlace(s, steps[0]).0, ExecuteStep(t, steps[0]).value, steps[1..]);
      }
    }
  }

  lemma {:induction false} LockstepEnds(s: State, t: State, steps: seq<Step>)
    requires Lockstep(s, t, steps) && ObsEq(s, t)
    ensures match ExecuteAll(t, steps)
            case Ok(t') => RunInPlace(s, steps).1 == None && ObsEq(RunInPlace(s, steps).0, t')
            case Err(e) => RunInPlace(s, steps).1 == Some(e)
    decreases |steps|
  {
    if steps != [] && ExecuteStep(t, steps[0]).Ok? {
      LockstepEnds(StepInPlace(s, steps[0]).0, ExecuteStep(t, steps[0]).value, steps[1..]);
    }
  }

  /** In lockstep the two runs end observably equal or with the same error. */
  lemma RunsAgree(s: State, t: State, steps: seq<Step>)
    requires Coherent(s.Caps()) && ObsEq(s, t) && FreesOnlyLive(s, steps) && RevokesWithinFuel(s, steps)
    ensures match ExecuteAll(t, steps)
            case Ok(t') => RunInPlace(s, steps).1 == None && ObsEq(RunInPlace(s, steps).0, t')
            case Err(e) => RunInPlace(s, steps).1 == Some(e)
  {
    RunsAgreeExactly(s, t, steps);
    LockstepEnds(s, t, steps);
  }

  /** An in-place run that succeeds never came to a dead free. */
  lemma {:induction false} SuccessFreesOnlyLive(s: State, steps: seq<Step>)
    requires Coherent(s.Caps()) && RunInPlace(s, steps).1 == None
    ensures FreesOnlyLive(s, steps)
    decreases |steps|
  {
    if steps != [] {
      StepsAgree(s, s, steps[0]);
      StepKeepsCoherent(s, steps[0]);
      SuccessFreesOnlyLive(StepInPlace(s, steps[0]).0, steps[1..]);
    }
  }

  /** So a successful in-place run is matched throughout by the copying run exactly when it revokes within fuel. */
  lemma InPlaceSuccessIsReal(s: State, steps: seq<Step>)
    requires Coherent(s.Caps()) && RunInPlace(s, steps).1 == None
    ensures Lockstep(s, s, steps) <==> RevokesWithinFuel(s, steps)
    ensures RevokesWithinFuel(s, steps) ==>
      ExecuteAll(s, steps).Ok? && ObsEq(RunInPlace(s, steps).0, ExecuteAll(s, steps).value)
  {
    SuccessFreesOnlyLive(s, steps);
    RunsAgreeExactly(s, s, steps);
    if RevokesWithinFuel(s, steps) {
      RunsAgree(s, s, steps);
    }
  }

  // ---- Tables with parents before children ----

  ghost predicate Minted(t: Table) {
    Coherent(t) && ParentLt(t)
  }

  /** There no list of steps revokes past fuel. */
  lemma {:induction false} MintedRevokesWithinFuel(s: State, steps: seq<Step>)
    requires Minted(s.Caps())
    ensures RevokesWithinFuel(s, steps)
    decreases |steps|
  {
    if steps != [] {
      StepKeepsCoherent(s, steps[0]);
      if RevokedRoot(steps[0]).Some? {
        OrderIsWithinFuel(s.Caps(), RevokedRoot(steps[0]).value);
      }
      MintedRevokesWithinFuel(StepInPlace(s, steps[0]).0, steps[1..]);
    }
  }

  /** So there every successful in-place run is matched by the copying one. */
  lemma MintedSuccessIsReal(s: State, steps: seq<Step>)
    requires Minted(s.Caps()) && RunInPlace(s, steps).1 == None
    ensures ExecuteAll(s, steps).Ok?
    ensures ObsEq(RunInPlace(s, steps).0, ExecuteAll(s, steps).value)
  {
    MintedRevokesWithinFuel(s, steps);
    InPlaceSuccessIsReal(s, steps);
  }

  // ---- The first exception, concretely ----

  /** On the empty kernel the copying form frees address 7, the in-place form refuses. */
  lemma CopyingFreeAcceptsDead()
    ensures var s, step := InitialState(), Step.Free(1, 7);
      ExecuteStep(s, step).Ok? && StepInPlace(s, step).1 == Some(StateFailed(ResourceNotFound(7)))
  {
  }
}
