/** What every history of kernel operations keeps, exactly when it keeps it, and what it can never undo. */
module KernelSafety {
  import opened Types
  import opened Capabilities
  import opened Keys
  import opened CapTable
  import opened Descent
  import opened Revocation
  import opened Resources
  import opened SystemState
  import opened Steps
  import opened Simulation
  import opened KernelApi

  // ---- Invariants ----

  /** A delegated capability has its parent's target and no right its parent lacks. */
  ghost predicate Confined(t: Table) {
    forall id: CapId :: t.ParentOf(id).Some? && t.Present(t.ParentOf(id).value) ==>
      ConfinedBy(t.Lookup(id).value, t.Lookup(t.ParentOf(id).value).value)
  }

  predicate ConfinedBy(child: Capability, parent: Capability) {
    child.target == parent.target && child.rights <= parent.rights
  }

  /** No valid capability targets a freed address. */
  ghost predicate NoDangling(s: State) {
    forall id: CapId :: s.Caps().IsValid(id) ==> !TargetsFreed(s.meta, s.Caps().Lookup(id).value)
  }

  ghost predicate Inv(s: State) {
    Coherent(s.Caps()) && Confined(s.Caps()) && MetaInv(s.meta) && NoDangling(s)
  }

  lemma InitialInv()
    ensures Inv(InitialState()) && Ordered(InitialState().Caps(), 0)
  {
    assert forall id: CapId :: !InitialState().Caps().Present(id);
    assert forall p: CapId :: ChildrenOf(InitialState().Caps().index, p) == [];
  }

  // ---- The three things an operation can do to the table ----

  datatype Change = Same | Grown(cap: Capability) | Pruned(root: CapId)

  ghost function After(t: Table, c: Change): Table {
    match c
    case Same => t
    case Grown(cap) => (match t.InsertCap(cap) case Ok(t') => t' case Err(_) => t)
    case Pruned(root) => RevokeReachable(t, root)
  }

  /** A new id, and either a root or a confined child of a valid capability. */
  ghost predicate LegalGrowth(t: Table, cap: Capability) {
    !t.Present(cap.id)
    && (cap.parent.Some? ==>
          t.IsValid(cap.parent.value) && ConfinedBy(cap, t.Lookup(cap.parent.value).value))
  }

  /** Sealed with the current key, in the current epoch. */
  ghost predicate SealedBy(k: KeyState, cap: Capability) {
    Crypto.Serializable(cap.GetPayload()) && cap.epoch == k.epoch
    && cap.signature == Crypto.Seal(k.current, cap.GetPayload())
  }

  lemma InsertingMoves(s: State, cap: Capability, target: PluginId)
    ensures var r := s.ApplyCapDelegate(cap, target);
      if s.Caps().Present(cap.id) then r == Err(CapIdCollision(cap.id))
      else r.Ok? && r.value.Caps() == After(s.Caps(), Grown(cap)) && r.value.meta == s.meta
           && r.value.kernel.nextCapId == s.kernel.nextCapId
  {
  }

  lemma ClassifyMint(s: State, parent: CapId, target: ResourceId, to: PluginId, rights: Rights) returns (c: Change)
    ensures var s' := s.MintChild(parent, target, to, rights).0;
      s'.Caps() == After(s.Caps(), c) && s'.meta == s.meta && !c.Pruned?
      && s.kernel.nextCapId <= s'.kernel.nextCapId
      && (c.Grown? ==>
            !s.Caps().Present(c.cap.id) && c.cap.id == s.kernel.nextCapId < s'.kernel.nextCapId
            && c.cap.parent == Some(parent) && c.cap.target == target && c.cap.rights == rights
            && SealedBy(s.kernel.keys, c.cap))
  {
    c := Same;
    if s.kernel.nextCapId == U128_MAX {
      return;
    }
    var s1 := s.WithNextCapId(s.kernel.nextCapId + 1);
    var r := s.NewChild(parent, target, to, rights);
    if r.Err? {
      assert s.MintChild(parent, target, to, rights).0 == s1;
      return;
    }
    InsertingMoves(s1, r.value, to);
    if s.Caps().Present(s.kernel.nextCapId) {
      assert s.MintChild(parent, target, to, rights).0 == s1;
    } else {
      assert s.MintChild(parent, target, to, rights).0 == s1.ApplyCapDelegate(r.value, to).value;
      c := Grown(r.value);
    }
  }

  lemma ClassifyDelegate(s: State, parent: CapId, to: PluginId, rights: Rights) returns (c: Change)
    ensures var s' := s.DelegateCap(parent, to, rights).0;
      s'.Caps() == After(s.Caps(), c) && s'.meta == s.meta && !c.Pruned?
      && s.kernel.nextCapId <= s'.kernel.nextCapId
      && (c.Grown? ==>
            LegalGrowth(s.Caps(), c.cap) && c.cap.parent.Some? && SealedBy(s.kernel.keys, c.cap)
            && c.cap.id == s.kernel.nextCapId < s'.kernel.nextCapId)
  {
    c := Same;
    if s.Caps().IsValid(parent) {
      var cap := s.Caps().Lookup(parent).value;
      if rights * cap.rights != {} {
        c := ClassifyMint(s, parent, cap.target, to, rights * cap.rights);
      }
    }
  }

  lemma ClassifyHost(s: State, hc: HostCall) returns (c: Change)
    ensures var s' := HostInPlace(s, hc).0;
      s'.Caps() == After(s.Caps(), c) && !c.Grown?
      && s'.kernel.nextCapId == s.kernel.nextCapId
  {
    c := if hc.function_.CapRevoke? && hc.args != [] then Pruned(hc.args[0]) else Same;
  }

  lemma ClassifyStep(s: State, step: Step) returns (c: Change)
    ensures var s' := StepInPlace(s, step).0;
      s'.Caps() == After(s.Caps(), c) && !c.Grown?
      && s'.kernel.nextCapId == s.kernel.nextCapId
  {
    c := Same;
    if CheckStep(s, step) == None {
      match step
      case RevokeCap(_, capId) => c := Pruned(capId);
      case Host(hc, _, _) => c := ClassifyHost(s, hc);
      case _ =>
    }
  }

  /** A sound copying step is the in-place step, up to the ledger. */
  lemma CopyingIsInPlace(s: State, step: Step)
    requires Layout(s.Caps()) && IndexExact(s.Caps()) && !FormsPart(s, step)
    ensures ObsEq(StepInPlace(s, step).0, StepCopying(s, step))
  {
    InPlaceSimulates(s, step);
  }

  lemma Classify(s: State, op: ApiOp) returns (c: Change)
    requires Layout(s.Caps()) && IndexExact(s.Caps()) && SoundOp(s, op)
    ensures Apply(s, op).Caps() == After(s.Caps(), c)
    ensures s.kernel.nextCapId <= Apply(s, op).kernel.nextCapId
    ensures c.Grown? ==> LegalGrowth(s.Caps(), c.cap) && Apply(s, op).meta == s.meta
    ensures c.Grown? ==>
      if c.cap.parent.Some? then
        op.Delegate? && c.cap.id == s.kernel.nextCapId < Apply(s, op).kernel.nextCapId
        && SealedBy(s.kernel.keys, c.cap)
      else op.InsertCapRaw? && op.cap == c.cap
    ensures op.InsertCapRaw? ==> c == if s.Caps().Present(op.cap.id) then Same else Grown(op.cap)
  {
    c := Same;
    match op
    case Delegate(parent, to, rights) => c := ClassifyDelegate(s, parent, to, rights);
    case InsertCapRaw(cap, target) =>
      InsertingMoves(s, cap, target);
      if !s.Caps().Present(cap.id) { c := Grown(cap); }
    case RevokeCap(id) => if s.Caps().Present(id) { c := Pruned(id); }
    case RunStep(step) => c := ClassifyStep(s, step);
    case RunCopying(step) =>
      c := ClassifyStep(s, step);
      CopyingIsInPlace(s, step);
    case _ =>
  }

  lemma ChangeKeepsCoherent(t: Table, c: Change)
    requires Coherent(t) && (c.Grown? ==> LegalGrowth(t, c.cap))
    ensures Coherent(After(t, c)) && Extends(t, After(t, c))
    ensures forall id: CapId :: After(t, c).Present(id) ==> t.Present(id) || (c.Grown? && id == c.cap.id)
    ensures c.Grown? ==> Adds(t, After(t, c), c.cap)
  {
    match c
    case Same =>
    case Grown(cap) => InsertKeepsCoherent(t, cap);
    case Pruned(root) => RevokeKeepsCoherent(t, root);
  }

  lemma ChangeKeepsConfined(t: Table, c: Change)
    requires Coherent(t) && Confined(t) && (c.Grown? ==> LegalGrowth(t, c.cap))
    ensures Confined(After(t, c))
  {
    ChangeKeepsCoherent(t, c);
    var t' := After(t, c);
    forall id: CapId | t'.ParentOf(id).Some? && t'.Present(t'.ParentOf(id).value)
      ensures ConfinedBy(t'.Lookup(id).value, t'.Lookup(t'.ParentOf(id).value).value)
    {
      if t.Present(id) {
        assert SameButRevoked(t.Lookup(id).value, t'.Lookup(id).value);
        assert t.ParentOf(id) == t'.ParentOf(id);
      }
    }
  }

  // ---- The resource ledger ----

  ghost predicate LedgerMove(s: State, s': State) {
    MetaInv(s'.meta) && s.TemporalSafety(s')
    && forall a: MemAddr :: s'.meta.IsFreed(a) && !s.meta.IsFreed(a) ==>
         !s.Caps().AnyValidTargeting(a) && s'.Caps() == s.Caps()
  }

  lemma HostLedger(s: State, hc: HostCall)
    requires MetaInv(s.meta)
    ensures LedgerMove(s, HostInPlace(s, hc).0)
  {
    match hc.function_
    case MemFree => if hc.args != [] { FreeLedger(s, hc.args[0]); }
    case KernelAlloc => AllocKeepsInv(s.meta, hc.caller);
    case _ =>
  }

  lemma StepLedger(s: State, step: Step)
    requires MetaInv(s.meta)
    ensures LedgerMove(s, StepInPlace(s, step).0)
  {
    match step
    case Free(_, addr) => FreeLedger(s, addr);
    case Host(hc, _, _) => HostLedger(s, hc);
    case _ =>
  }

  lemma LedgerMoveOnto(s: State, s': State, t: State)
    requires LedgerMove(s, s') && ObsEq(s', t)
    ensures LedgerMove(s, t)
  {
    SameLedgerKeepsInv(s'.meta, t.meta);
  }

  lemma CopyingLedger(s: State, step: Step)
    requires Layout(s.Caps()) && IndexExact(s.Caps()) && MetaInv(s.meta) && !FormsPart(s, step)
    ensures LedgerMove(s, StepCopying(s, step))
  {
    CopyingIsInPlace(s, step);
    StepLedger(s, step);
    LedgerMoveOnto(s, StepInPlace(s, step).0, StepCopying(s, step));
  }

  lemma LedgerKeeps(s: State, op: ApiOp)
    requires Layout(s.Caps()) && IndexExact(s.Caps()) && MetaInv(s.meta) && SoundOp(s, op)
    ensures LedgerMove(s, Apply(s, op))
  {
    match op
    case Alloc(owner) => AllocKeepsInv(s.meta, owner);
    case FreeAddr(addr) => FreeLedger(s, addr);
    case RunStep(step) => StepLedger(s, step);
    case RunCopying(step) => CopyingLedger(s, step);
    case Delegate(parent, to, rights) => var _ := ClassifyDelegate(s, parent, to, rights);
    case _ =>
  }

  lemma FreeLedger(s: State, addr: MemAddr)
    requires MetaInv(s.meta)
    ensures var (s', e) := FreeInPlace(s, addr);
      MetaInv(s'.meta) && s'.Caps() == s.Caps()
      && s'.meta.freed == (if e == None then s.meta.freed + {addr} else s.meta.freed)
      && (e == None ==> s.meta.IsLive(addr) && !s.Caps().AnyValidTargeting(addr))
  {
  }

  lemma ValidTargetIsTargeted(t: Table, id: CapId)
    requires t.IsValid(id)
    ensures t.AnyValidTargeting(t.Lookup(id).value.target)
  {
  }

  // ---- One sound operation ----

  lemma {:induction false} ApplyKeepsNoDangling(s: State, op: ApiOp, c: Change)
    requires Inv(s) && SoundOp(s, op)
    requires Apply(s, op).Caps() == After(s.Caps(), c)
    requires c.Grown? ==> LegalGrowth(s.Caps(), c.cap) && Apply(s, op).meta == s.meta
    requires c.Grown? && c.cap.parent.None? ==> op.InsertCapRaw? && op.cap == c.cap
    ensures NoDangling(Apply(s, op))
  {
    var s' := Apply(s, op);
    ChangeKeepsCoherent(s.Caps(), c);
    LedgerKeeps(s, op);
    forall id: CapId | s'.Caps().IsValid(id)
      ensures !TargetsFreed(s'.meta, s'.Caps().Lookup(id).value)
    {
      if s.Caps().Present(id) {
        assert SameButRevoked(s.Caps().Lookup(id).value, s'.Caps().Lookup(id).value);
        assert s.Caps().IsValid(id);
        ValidTargetIsTargeted(s.Caps(), id);
      } else {
        assert s'.Caps().Lookup(id) == Some(c.cap);
        if c.cap.parent.Some? {
          assert s.Caps().IsValid(c.cap.parent.value);
        }
      }
    }
  }

  lemma ApplyKeepsInv(s: State, op: ApiOp)
    requires Inv(s) && SoundOp(s, op)
    ensures Inv(Apply(s, op))
  {
    var c := Classify(s, op);
    ChangeKeepsCoherent(s.Caps(), c);
    ChangeKeepsConfined(s.Caps(), c);
    LedgerKeeps(s, op);
    ApplyKeepsNoDangling(s, op, c);
  }

  // ---- Raw insertion ----

  /** A parent other than itself is present, confines it, and is valid if it is; and it dangles only if revoked. */
  predicate RawAllowed(s: State, cap: Capability) {
    (cap.parent.Some? && cap.parent.value != cap.id ==>
       s.Caps().Present(cap.parent.value)
       && (cap.valid ==> s.Caps().IsValid(cap.parent.value))
       && ConfinedBy(cap, s.Caps().Lookup(cap.parent.value).value))
    && (cap.valid ==> !TargetsFreed(s.meta, cap))
  }

  lemma AddsParentsExactly(t: Table, t': Table, cap: Capability)
    requires Adds(t, t', cap) && !t.Present(cap.id)
    requires ParentsPresent(t) && ValidParents(t) && Confined(t)
    ensures ParentsPresent(t') && ValidParents(t') && Confined(t') <==>
      (cap.parent.Some? && cap.parent.value != cap.id ==>
         t.Present(cap.parent.value) && (cap.valid ==> t.IsValid(cap.parent.value))
         && ConfinedBy(cap, t.Lookup(cap.parent.value).value))
  {
    assert t'.ParentOf(cap.id) == cap.parent && t'.IsValid(cap.id) == cap.valid;
    forall q: CapId | q != cap.id
      ensures t'.ParentOf(q) == t.ParentOf(q) && t'.IsValid(q) == t.IsValid(q) && t'.Present(q) == t.Present(q)
    {
    }
  }

  lemma AddsNoDanglingExactly(s: State, s': State, cap: Capability)
    requires Adds(s.Caps(), s'.Caps(), cap) && !s.Caps().Present(cap.id)
    requires NoDangling(s) && s'.meta == s.meta
    ensures NoDangling(s') <==> (cap.valid ==> !TargetsFreed(s.meta, cap))
  {
  }

  /** Raw insertion under a new id keeps the invariants if and only if the caller made these checks. */
  lemma RawInsertKeepsInvExactly(s: State, cap: Capability, target: PluginId)
    requires Inv(s) && !s.Caps().Present(cap.id)
    ensures Inv(InsertRaw(s, cap, target).0) <==> RawAllowed(s, cap)
  {
    var t, s' := s.Caps(), InsertRaw(s, cap, target).0;
    InsertingMoves(s, cap, target);
    InsertKeepsLayout(t, cap);
    forall q: CapId
      ensures s'.Caps().Lookup(q) == if q == cap.id then Some(cap) else t.Lookup(q)
    {
      LookupAfterInsert(t, cap, q);
    }
    InsertKeepsIndex(t, cap);
    assert KeysMatch(s'.Caps());
    AddsParentsExactly(t, s'.Caps(), cap);
    AddsNoDanglingExactly(s, s', cap);
  }

  // ---- Exactly when an operation keeps the invariant ----

  /** What a caller must see to: the checks above on a raw insertion that does not collide, no parting copying step. */
  ghost predicate Allowed(s: State, op: ApiOp) {
    match op
    case InsertCapRaw(cap, _) => s.Caps().Present(cap.id) || RawAllowed(s, cap)
    case RunCopying(step) => !FormsPart(s, step)
    case _ => true
  }

  lemma DeadFreeBreaksLedger(s: State, step: Step)
    requires MetaInv(s.meta) && CheckStep(s, step) == None && FreesDead(s, step)
    ensures !MetaInv(StepCopying(s, step).meta)
  {
    CheckedFreeApplies(s, step.addr);
    assert step.addr !in s.meta.resources;
    assert step.addr in StepCopying(s, step).meta.freed;
  }

  lemma PastFuelBreaksTable(s: State, step: Step)
    requires Coherent(s.Caps()) && CheckStep(s, step) == None && RevokesPastFuel(s, step)
    ensures !Coherent(StepCopying(s, step).Caps())
  {
    NaiveKeepsCoherentExactly(s.Caps(), RevokedRoot(step).value);
  }

  /** A copying step keeps the invariant exactly when it does what the in-place step does. */
  lemma CopyingKeepsInvExactly(s: State, step: Step)
    requires Inv(s)
    ensures Inv(StepCopying(s, step)) <==> !FormsPart(s, step)
  {
    if FormsPart(s, step) {
      if FreesDead(s, step) {
        DeadFreeBreaksLedger(s, step);
      } else {
        PastFuelBreaksTable(s, step);
      }
    } else {
      ApplyKeepsInv(s, RunCopying(step));
    }
  }

  lemma ApplyKeepsInvExactly(s: State, op: ApiOp)
    requires Inv(s)
    ensures Inv(Apply(s, op)) <==> Allowed(s, op)
  {
    match op
    case InsertCapRaw(cap, target) =>
      if s.Caps().Present(cap.id) {
        InsertingMoves(s, cap, target);
      } else {
        RawInsertKeepsInvExactly(s, cap, target);
      }
    case RunCopying(step) => CopyingKeepsInvExactly(s, step);
    case _ => ApplyKeepsInv(s, op);
  }

  ghost predicate AlwaysInv(s: State, ops: seq<ApiOp>)
    decreases |ops|
  {
    Inv(s) && (ops == [] || AlwaysInv(Apply(s, ops[0]), ops[1..]))
  }

  ghost predicate AllAllowed(s: State, ops: seq<ApiOp>)
    decreases |ops|
  {
    ops == [] || (Allowed(s, ops[0]) && AllAllowed(Apply(s, ops[0]), ops[1..]))
  }

  /** A history keeps the invariant at every step exactly when each operation was allowed where it happened. */
  lemma {:induction false} HistoryKeepsInvExactly(s: State, ops: seq<ApiOp>)
    requires Inv(s)
    ensures AlwaysInv(s, ops) <==> AllAllowed(s, ops)
    decreases |ops|
  {
    if ops != [] {
      ApplyKeepsInvExactly(s, ops[0]);
      if Allowed(s, ops[0]) {
        HistoryKeepsInvExactly(Apply(s, ops[0]), ops[1..]);
      }
    }
  }

  /** So after any allowed history from a state where it holds, the empty kernel for one, it holds again. */
  lemma {:induction false} RunKeepsInv(s: State, ops: seq<ApiOp>)
    requires Inv(s) && AllAllowed(s, ops)
    ensures Inv(Run(s, ops))
    decreases |ops|
  {
    if ops != [] {
      ApplyKeepsInvExactly(s, ops[0]);
      RunKeepsInv(Apply(s, ops[0]), ops[1..]);
    }
  }

  lemma {:induction false} SoundIsAllowed(s: State, ops: seq<ApiOp>)
    requires SoundHistory(s, ops)
    ensures AllAllowed(s, ops)
    decreases |ops|
  {
    if ops != [] {
      SoundIsAllowed(Apply(s, ops[0]), ops[1..]);
    }
  }

  /** After an allowed history no state has a valid capability on a freed address, and no allocation reuses one. */
  lemma NoDanglingCapability(ops: seq<ApiOp>, id: CapId)
    requires AllAllowed(InitialState(), ops)
    ensures var s := Run(InitialState(), ops);
      (s.Caps().IsValid(id) && s.Caps().Lookup(id).value.target <= U64_MAX ==>
         !s.meta.IsFreed(s.Caps().Lookup(id).value.target))
      && (|s.meta.resources| <= U64_MAX ==> !s.meta.IsFreed(s.meta.NextAddr()) && !s.meta.IsLive(s.meta.NextAddr()))
      && forall a: MemAddr :: a < |s.meta.resources| <==> (s.meta.IsLive(a) != s.meta.IsFreed(a))
  {
    InitialInv();
    RunKeepsInv(InitialState(), ops);
    var m := Run(InitialState(), ops).meta;
    AllocKeepsInv(m, 0);
    forall a: MemAddr
      ensures a < |m.resources| <==> (m.IsLive(a) != m.IsFreed(a))
    {
      Partition(m, a);
    }
  }

  /** On the empty kernel a copying free of address 0 succeeds, and the next allocation returns that address. */
  lemma CopyingFreeSpoilsAllocation(caller: PluginId, owner: PluginId)
    ensures ExecuteStep(InitialState(), Step.Free(caller, 0)).Ok?
    ensures var s := Run(InitialState(), [RunCopying(Step.Free(caller, 0))]);
      s.meta.NextAddr() == 0 && s.meta.IsFreed(0) && !Apply(s, Alloc(owner)).meta.IsLive(0) && !Inv(s)
  {
  }

  // ---- What every history keeps, allowed or not ----

  lemma GrowthExtends(t: Table, cap: Capability)
    requires Layout(t)
    ensures Layout(After(t, Grown(cap))) && Extends(t, After(t, Grown(cap)))
  {
    if !t.Present(cap.id) {
      InsertKeepsLayout(t, cap);
      forall q: CapId
        ensures After(t, Grown(cap)).Lookup(q) == if q == cap.id then Some(cap) else t.Lookup(q)
      {
        LookupAfterInsert(t, cap, q);
      }
    }
  }

  lemma PruningExtends(t: Table, root: CapId)
    requires Layout(t)
    ensures Layout(RevokeReachable(t, root)) && Extends(t, RevokeReachable(t, root))
  {
    GetMarked(t, Reachable(t, root), 0);
    forall q: CapId | t.Present(q)
      ensures RevokeReachable(t, root).Present(q)
      ensures SameButRevoked(t.Lookup(q).value, RevokeReachable(t, root).Lookup(q).value)
    {
      GetMarked(t, Reachable(t, root), q);
    }
  }

  lemma ChangeExtends(t: Table, c: Change)
    requires Layout(t)
    ensures Layout(After(t, c)) && Extends(t, After(t, c))
  {
    match c
    case Same =>
    case Grown(cap) => GrowthExtends(t, cap);
    case Pruned(root) => PruningExtends(t, root);
  }

  lemma NaivePruningExtends(t: Table, root: CapId)
    requires Layout(t)
    ensures Layout(t.RevokeTransitive(root)) && Extends(t, t.RevokeTransitive(root))
  {
    NaiveRevokeKeepsLayout(t, root);
    NaiveExtends(t, root);
  }

  lemma CopyingExtends(s: State, step: Step)
    requires Layout(s.Caps())
    ensures Layout(StepCopying(s, step).Caps()) && Extends(s.Caps(), StepCopying(s, step).Caps())
  {
    if CheckStep(s, step) == None {
      match step
      case RevokeCap(_, capId) => NaivePruningExtends(s.Caps(), capId);
      case Host(hc, _, _) => HostCopyingExtends(s, hc);
      case _ => assert StepEffect(s, step).Caps() == s.Caps();
    }
  }

  lemma HostCopyingExtends(s: State, hc: HostCall)
    requires Layout(s.Caps())
    ensures Layout(HostEffect(s, hc).Caps()) && Extends(s.Caps(), HostEffect(s, hc).Caps())
  {
    if hc.function_.CapRevoke? && hc.args != [] {
      NaivePruningExtends(s.Caps(), hc.args[0]);
    } else {
      assert HostEffect(s, hc).Caps() == s.Caps();
    }
  }

  lemma ApplyExtends(s: State, op: ApiOp)
    requires Layout(s.Caps())
    ensures Layout(Apply(s, op).Caps()) && Extends(s.Caps(), Apply(s, op).Caps())
  {
    match op
    case Delegate(parent, to, rights) =>
      var c := ClassifyDelegate(s, parent, to, rights);
      ChangeExtends(s.Caps(), c);
    case InsertCapRaw(cap, target) =>
      InsertingMoves(s, cap, target);
      GrowthExtends(s.Caps(), cap);
    case RevokeCap(id) => PruningExtends(s.Caps(), id);
    case RunStep(step) =>
      var c := ClassifyStep(s, step);
      ChangeExtends(s.Caps(), c);
    case RunCopying(step) => CopyingExtends(s, step);
    case _ => assert Apply(s, op).Caps() == s.Caps();
  }

  /** No operation at all removes a capability, changes one but by revoking it, or brings one back. */
  lemma {:induction false} RunExtends(s: State, ops: seq<ApiOp>)
    requires Layout(s.Caps())
    ensures Layout(Run(s, ops).Caps()) && Extends(s.Caps(), Run(s, ops).Caps())
    decreases |ops|
  {
    if ops != [] {
      ApplyExtends(s, ops[0]);
      RunExtends(Apply(s, ops[0]), ops[1..]);
      ExtendsTransitive(s.Caps(), Apply(s, ops[0]).Caps(), Run(s, ops).Caps());
    }
  }

  lemma MintKeepsLedger(s: State, parent: CapId, to: PluginId, rights: Rights)
    ensures s.DelegateCap(parent, to, rights).0.meta == s.meta
  {
  }

  lemma HostKeepsFreed(s: State, hc: HostCall)
    ensures s.TemporalSafety(HostInPlace(s, hc).0) && s.TemporalSafety(HostEffect(s, hc))
  {
  }

  lemma StepKeepsFreed(s: State, step: Step)
    ensures s.TemporalSafety(StepInPlace(s, step).0) && s.TemporalSafety(StepEffect(s, step))
  {
    match step
    case Host(hc, _, _) => HostKeepsFreed(s, hc);
    case _ =>
  }

  lemma ApplyKeepsFreed(s: State, op: ApiOp)
    ensures s.TemporalSafety(Apply(s, op))
  {
    match op
    case Delegate(parent, to, rights) => MintKeepsLedger(s, parent, to, rights);
    case RunStep(step) => StepKeepsFreed(s, step);
    case RunCopying(step) => StepKeepsFreed(s, step);
    case _ =>
  }

  /** And none takes a freed address back. */
  lemma {:induction false} RunKeepsFreed(s: State, ops: seq<ApiOp>)
    ensures s.TemporalSafety(Run(s, ops))
    decreases |ops|
  {
    if ops != [] {
      ApplyKeepsFreed(s, ops[0]);
      RunKeepsFreed(Apply(s, ops[0]), ops[1..]);
    }
  }

  // ---- Revocation is complete and permanent ----

  /** Everything below a was in the table already. */
  ghost predicate NothingNewBelow(t0: Table, t: Table, a: CapId) {
    forall id: CapId :: t.Present(id) && InSubtree(t, id, a) ==> t0.Present(id)
  }

  lemma ChangeAddsNothingBelow(t0: Table, t: Table, c: Change, a: CapId)
    requires Coherent(t) && (c.Grown? ==> LegalGrowth(t, c.cap))
    requires t.Present(a) && !t.IsValid(a) && NothingNewBelow(t0, t, a)
    ensures NothingNewBelow(t0, After(t, c), a)
  {
    ChangeKeepsCoherent(t, c);
    var t' := After(t, c);
    forall id: CapId | t'.Present(id) && InSubtree(t', id, a)
      ensures t0.Present(id)
    {
      if t.Present(id) {
        DescentIsStable(t, t', id, a);
      } else {
        assert t'.Lookup(id) == Some(c.cap);
        DescendsStep(t', id, a);
        var p := c.cap.parent.value;
        DescentIsStable(t, t', p, a);
        DeadSubtree(t, a, p);
        assert false;
      }
    }
  }

  lemma {:induction false} RunAddsNothingBelow(t0: Table, s: State, ops: seq<ApiOp>, a: CapId)
    requires Inv(s) && SoundHistory(s, ops)
    requires s.Caps().Present(a) && !s.Caps().IsValid(a) && NothingNewBelow(t0, s.Caps(), a)
    ensures NothingNewBelow(t0, Run(s, ops).Caps(), a)
    decreases |ops|
  {
    if ops != [] {
      var c := Classify(s, ops[0]);
      ChangeAddsNothingBelow(t0, s.Caps(), c, a);
      ApplyKeepsInv(s, ops[0]);
      ApplyExtends(s, ops[0]);
      RunAddsNothingBelow(t0, Apply(s, ops[0]), ops[1..], a);
    }
  }

  /** Whatever was at or below a when it was revoked stays there, invalid, after every history, allowed or not. */
  lemma RevokedStaysRevoked(s: State, a: CapId, ops: seq<ApiOp>, id: CapId)
    requires Coherent(s.Caps()) && s.Caps().Present(a) && InSubtree(s.Caps(), id, a)
    ensures var t := Run(Apply(s, ApiOp.RevokeCap(a)), ops).Caps();
      t.Present(id) && InSubtree(t, id, a) && !t.IsValid(id)
  {
    var s1 := Apply(s, ApiOp.RevokeCap(a));
    var s2 := Run(s1, ops);
    RevokeKeepsCoherent(s.Caps(), a);
    ReachIsDescent(s.Caps(), a, id);
    DescendsStep(s.Caps(), id, a);
    RunExtends(s1, ops);
    ExtendsTransitive(s.Caps(), s1.Caps(), s2.Caps());
    DescentIsStable(s.Caps(), s2.Caps(), id, a);
    assert !s1.Caps().IsValid(id);
  }

  /**
   After an allowed history what was at or below a is there, and what is there now is invalid; and if
   the raw insertions were of roots, it was in the table when a was revoked.
   */
  lemma RevocationIsPermanent(s: State, a: CapId, ops: seq<ApiOp>, id: CapId)
    requires Inv(s) && s.Caps().Present(a) && AllAllowed(Apply(s, ApiOp.RevokeCap(a)), ops)
    ensures var s1 := Apply(s, ApiOp.RevokeCap(a));
      var t := Run(s1, ops).Caps();
      (s.Caps().Present(id) && InSubtree(s.Caps(), id, a) ==> t.Present(id) && InSubtree(t, id, a))
      && (t.Present(id) && InSubtree(t, id, a) ==>
            !t.IsValid(id) && (SoundHistory(s1, ops) ==> s.Caps().Present(id)))
  {
    var s1 := Apply(s, ApiOp.RevokeCap(a));
    var t := Run(s1, ops).Caps();
    ApplyKeepsInv(s, ApiOp.RevokeCap(a));
    RunKeepsInv(s1, ops);
    RevokedStaysRevoked(s, a, ops, a);
    RevokedStaysRevoked(s, a, [], a);
    if InSubtree(t, id, a) {
      DeadSubtree(t, a, id);
    }
    if InSubtree(s.Caps(), id, a) {
      RevokedStaysRevoked(s, a, ops, id);
    }
    if SoundHistory(s1, ops) {
      RevokeKeepsCoherent(s.Caps(), a);
      assert NothingNewBelow(s.Caps(), s1.Caps(), a);
      RunAddsNothingBelow(s.Caps(), s1, ops, a);
    }
  }
}
