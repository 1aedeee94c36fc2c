/** What an authorisation witness proves: about a step made from the table, and about any step at all. */
module Witnesses {
  import opened Types
  import opened SortedVec
  import opened Capabilities
  import opened CapTable
  import opened Descent
  import opened Resources
  import opened Actors
  import opened SystemState
  import opened Steps
  import opened Simulation
  import opened KernelApi
  import opened KernelSafety

  // ---- Revocation reaches every witness ----

  /** Whatever witness a host call carries for an id at or below a, it fails after every history since a was revoked. */
  lemma RevokedWitnessFails(s0: State, a: CapId, ops: seq<ApiOp>, step: Step)
    requires Coherent(s0.Caps()) && s0.Caps().Present(a)
    requires step.Host? && InSubtree(s0.Caps(), step.auth.cap.id, a)
    ensures var s := Run(Apply(s0, ApiOp.RevokeCap(a)), ops);
      ExecuteStep(s, step).Err? && StepInPlace(s, step).1.Some? && StepInPlace(s, step).0 == s
  {
    RevokedStaysRevoked(s0, a, ops, step.auth.cap.id);
    assert CheckValidity(Run(Apply(s0, ApiOp.RevokeCap(a)), ops), step.auth).Some?;
  }

  // ---- The chain behind a witness ----

  /** Every capability from id up to its root is valid, has the target, and grants the rights. */
  ghost predicate WholeChainGrants(t: Table, id: CapId, target: ResourceId, rights: Rights) {
    forall n: nat :: Up(t, id, n).Some? ==>
      var k := Up(t, id, n).value;
      t.IsValid(k) && t.Lookup(k).value.target == target && rights <= t.Lookup(k).value.rights
  }

  lemma {:induction false} ChainIsConfined(t: Table, id: CapId, n: nat)
    requires Confined(t) && ParentsPresent(t) && t.Present(id) && Up(t, id, n).Some?
    ensures t.Present(Up(t, id, n).value)
    ensures ConfinedBy(t.Lookup(id).value, t.Lookup(Up(t, id, n).value).value)
    decreases n
  {
    if n > 0 {
      UpStep(t, id, n);
      ChainIsConfined(t, t.ParentOf(id).value, n - 1);
    }
  }

  lemma ChainGrantsExactly(t: Table, id: CapId, target: ResourceId, rights: Rights)
    requires Confined(t) && ParentsPresent(t) && ValidParents(t)
    ensures WholeChainGrants(t, id, target, rights) <==>
      t.IsValid(id) && t.Lookup(id).value.target == target && rights <= t.Lookup(id).value.rights
  {
    if WholeChainGrants(t, id, target, rights) {
      assert Up(t, id, 0) == Some(id);
    } else if t.IsValid(id) {
      forall n: nat | Up(t, id, n).Some?
        ensures t.IsValid(Up(t, id, n).value)
        ensures ConfinedBy(t.Lookup(id).value, t.Lookup(Up(t, id, n).value).value)
      {
        ValidChain(t, id, n);
        ChainIsConfined(t, id, n);
      }
    }
  }

  /**
   Whatever witness it carries, a host call that passes its checks names a valid capability; and the
   whole chain up to its root grants what is asked exactly when the table's record of it does. The
   checks compare the action with the record in the witness, not with the table's.
   */
  lemma HostCallGrantsExactly(s: State, step: Step)
    requires Inv(s) && step.Host? && CheckStep(s, step) == None
    ensures var id, action := step.auth.cap.id, step.auth.action;
      s.Caps().IsValid(id)
      && (WholeChainGrants(s.Caps(), id, action.target, action.rights) <==>
            s.Caps().Lookup(id).value.target == action.target && action.rights <= s.Caps().Lookup(id).value.rights)
  {
    ChainGrantsExactly(s.Caps(), step.auth.cap.id, step.auth.action.target, step.auth.action.rights);
  }

  /**
   A free through a host call that is authorised runs exactly when no valid capability targets the
   address; so when it runs, the capability named by its witness is on some other resource.
   */
  lemma HostFreeRunsExactly(s: State, step: Step)
    requires step.Host? && step.hc.function_.MemFree? && CheckHostCall(s, step.hc, step.auth) == None
    ensures step.hc.args != []
    ensures CheckStep(s, step) == None <==> !s.Caps().AnyValidTargeting(step.hc.args[0])
    ensures s.Caps().IsValid(step.auth.cap.id)
    ensures CheckStep(s, step) == None ==> s.Caps().Lookup(step.auth.cap.id).value.target != step.auth.action.target
  {
    HostFreeTargetsLive(s, step.hc, step.auth);
    FirstTargetingFinds(s.Caps().caps, step.hc.args[0]);
    ValidTargetIsTargeted(s.Caps(), step.auth.cap.id);
  }

  // ---- Witnesses made from the table ----

  /** A host-call step built in state s for the capability capId of the table. */
  ghost predicate BuiltFrom(s: State, step: Step, capId: CapId) {
    step.Host? && HostCallAtomic(s, step.hc, capId, step.auth.ctx, step.result) == Ok(step)
  }

  lemma WitnessIsFromTable(s: State, step: Step, capId: CapId)
    requires KeysMatch(s.Caps()) && BuiltFrom(s, step, capId)
    ensures s.Caps().Lookup(capId) == Some(step.auth.cap) && step.auth.cap.id == capId
    ensures s.Caps().IsValid(capId)
    ensures CheckCapability(s, step.auth) == None
  {
  }

  /** After every history the table still agrees with the record in such a witness. */
  lemma WitnessStaysTrue(s0: State, ops: seq<ApiOp>, step: Step, capId: CapId)
    requires Coherent(s0.Caps()) && BuiltFrom(s0, step, capId)
    ensures var t := Run(s0, ops).Caps();
      step.auth.cap.id == capId
      && t.Present(capId) && SameButRevoked(step.auth.cap, t.Lookup(capId).value)
      && t.Lookup(capId).value.target == step.auth.action.target
      && step.auth.action.rights <= t.Lookup(capId).value.rights
  {
    WitnessIsFromTable(s0, step, capId);
    RunExtends(s0, ops);
  }

  /** So such a step can run only while the whole chain up to the root is valid and grants what is asked. */
  lemma HostCallNeedsWholeChain(s0: State, ops: seq<ApiOp>, step: Step, capId: CapId)
    requires Inv(s0) && BuiltFrom(s0, step, capId) && AllAllowed(s0, ops)
    requires CheckStep(Run(s0, ops), step) == None
    ensures WholeChainGrants(Run(s0, ops).Caps(), capId, step.auth.action.target, step.auth.action.rights)
  {
    RunKeepsInv(s0, ops);
    WitnessStaysTrue(s0, ops, step, capId);
    HostCallGrantsExactly(Run(s0, ops), step);
  }

  /** And no free built like that ever runs: it needs a valid capability on the address, and demands there is none. */
  lemma HostFreeNeverRuns(s0: State, ops: seq<ApiOp>, step: Step, capId: CapId)
    requires Coherent(s0.Caps()) && BuiltFrom(s0, step, capId)
    requires step.hc.function_.MemFree?
    ensures CheckStep(Run(s0, ops), step).Some?
  {
    WitnessStaysTrue(s0, ops, step, capId);
    if CheckStep(Run(s0, ops), step) == None {
      HostFreeRunsExactly(Run(s0, ops), step);
      assert false;
    }
  }

  // ---- Witnesses made up by the caller ----

  /** The empty kernel under a policy that permits everything. */
  function Permissive(): State {
    InitialState().(kernel := InitialState().kernel.(policy := PermitAll))
  }

  /** Plugin 1, the live address 0, and a capability 5 of plugin 1 that grants reading resource 9 and nothing else. */
  function UnrelatedCapOps(signature: Tag): seq<ApiOp> {
    [RegisterPlugin(1, Public, 0), Alloc(1), InsertCapRaw(UnrelatedCap(signature), 1)]
  }

  function UnrelatedCap(signature: Tag): Capability {
    Capability(5, 1, 9, {Right.Read}, None, 0, true, signature)
  }

  /** A record that reuses id 5 and claims the right to delete resource 0. */
  function ForgedStep(signature: Tag, ctx: PolicyContext): Step {
    Host(HostCall(1, HostFunction.MemFree, [0], [], []),
         Authorized(Capability(5, 1, 0, {Right.Delete}, None, 0, true, signature),
                    Action(1, 0, {Right.Delete}, "mem_free"), ctx),
         HostResult([], []))
  }

  lemma RunOfThree(s: State, a: ApiOp, b: ApiOp, c: ApiOp)
    ensures Run(s, [a, b, c]) == Apply(Apply(Apply(s, a), b), c)
    ensures SoundHistory(s, [a, b, c])
      <==> SoundOp(s, a) && SoundOp(Apply(s, a), b) && SoundOp(Apply(Apply(s, a), b), c)
  {
    assert [a, b, c][1..] == [b, c] && [b, c][1..] == [c] && [c][1..] == [];
    var s2 := Apply(Apply(s, a), b);
    assert Run(s2, [c]) == Run(Apply(s2, c), []);
    assert SoundHistory(s2, [c]) <==> SoundOp(s2, c);
  }

  lemma FirstRootInserted(s: State, cap: Capability, holder: PluginId)
    requires s.Caps() == EMPTY_TABLE && cap.parent == None && holder in s.plugins
    ensures var s' := InsertRaw(s, cap, holder).0;
      s'.Caps() == Table([(cap.id, cap)], 0, []) && s'.PluginHolds(holder, cap.id)
      && s'.meta == s.meta && s'.kernel.policy == s.kernel.policy
  {
    assert s.Caps().InsertCap(cap).value.caps == [(cap.id, cap)];
  }

  lemma PluginAndAddress(s: State)
    requires s.plugins == map[] && s.meta == EMPTY_META
    ensures var s' := Apply(Apply(s, RegisterPlugin(1, Public, 0)), Alloc(1));
      s'.kernel == s.kernel && 1 in s'.plugins && s'.meta == Meta(map[0 := Allocated(1)], {})
  {
    assert Apply(s, RegisterPlugin(1, Public, 0)).meta == EMPTY_META;
  }

  lemma UnrelatedCapRuns(signature: Tag)
    ensures SoundHistory(Permissive(), UnrelatedCapOps(signature))
    ensures var s := Run(Permissive(), UnrelatedCapOps(signature));
      s.Caps() == Table([(5, UnrelatedCap(signature))], 0, []) && s.kernel.policy == PermitAll
      && s.PluginHolds(1, 5) && s.meta == Meta(map[0 := Allocated(1)], {})
  {
    var op0, op1, op2 := RegisterPlugin(1, Public, 0), Alloc(1), InsertCapRaw(UnrelatedCap(signature), 1);
    RunOfThree(Permissive(), op0, op1, op2);
    PluginAndAddress(Permissive());
    FirstRootInserted(Apply(Apply(Permissive(), op0), op1), UnrelatedCap(signature), 1);
  }

  /**
   The public validator accepts such a record, and the free built on it runs: what holds of witnesses
   made from the table fails of witnesses in general, a few operations after the empty kernel.
   */
  lemma ForgedWitnessPasses(signature: Tag, forged: Tag, ctx: PolicyContext)
    ensures var s, step := Run(Permissive(), UnrelatedCapOps(signature)), ForgedStep(forged, ctx);
      Inv(s)
      && ValidateAtomic(s, step.auth.cap, step.auth.action, ctx) == Ok(step.auth)
      && CheckStep(s, step) == None
      && s.meta.IsLive(0) && StepInPlace(s, step).0.meta.IsFreed(0)
      && !WholeChainGrants(s.Caps(), 5, step.auth.action.target, step.auth.action.rights)
  {
    var s, step := Run(Permissive(), UnrelatedCapOps(signature)), ForgedStep(forged, ctx);
    UnrelatedCapRuns(signature);
    InitialInv();
    assert Inv(Permissive());
    SoundIsAllowed(Permissive(), UnrelatedCapOps(signature));
    RunKeepsInv(Permissive(), UnrelatedCapOps(signature));
    GetAt(s.Caps().caps, 0);
    assert s.Caps().Lookup(5) == Some(UnrelatedCap(signature));
    assert Validate(s, step.auth) == None;
    assert !s.Caps().AnyValidTargeting(0);
    HostFreeRunsExactly(s, step);
    FailureOrFreed(s, step);
    ChainGrantsExactly(s.Caps(), 5, 0, {Right.Delete});
  }

  lemma FailureOrFreed(s: State, step: Step)
    requires step.Host? && step.hc.function_.MemFree? && CheckStep(s, step) == None
    ensures step.hc.args != [] && StepInPlace(s, step).0.meta.IsFreed(step.hc.args[0])
  {
    HostFreeTargetsLive(s, step.hc, step.auth);
    FreesAgree(s, step.hc.args[0]);
  }
}
