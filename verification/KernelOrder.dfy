/** Ids below the counter and parents before children: when they hold, and what is lost when they do not. */
module KernelOrder {
  import opened Types
  import opened SortedVec
  import opened Capabilities
  import opened CapTable
  import opened Revocation
  import opened SystemState
  import opened Steps
  import opened Simulation
  import opened KernelApi
  import opened KernelSafety

  // ---- Exactly when they are kept ----

  /** A new capability keeps parents before children exactly when its own parent comes before it. */
  lemma GrowthKeepsParentLtExactly(t: Table, cap: Capability)
    requires Coherent(t) && ParentLt(t) && !t.Present(cap.id)
    requires Adds(t, t.InsertCap(cap).value, cap)
    ensures ParentLt(t.InsertCap(cap).value) <==> (cap.parent.Some? ==> cap.parent.value < cap.id)
  {
    var t' := t.InsertCap(cap).value;
    assert t'.ParentOf(cap.id) == cap.parent;
    assert forall q: CapId :: q != cap.id ==> t'.ParentOf(q) == t.ParentOf(q);
  }

  lemma GrowthKeepsOrderedExactly(t: Table, cap: Capability, next: CapId)
    requires Coherent(t) && Ordered(t, next) && !t.Present(cap.id)
    ensures t.InsertCap(cap).Ok?
    ensures Ordered(t.InsertCap(cap).value, next)
      <==> cap.id < next && (cap.parent.Some? ==> cap.parent.value < cap.id)
  {
    var t' := t.InsertCap(cap).value;
    forall q: CapId
      ensures t'.Lookup(q) == if q == cap.id then Some(cap) else t.Lookup(q)
    {
      LookupAfterInsert(t, cap, q);
    }
    GrowthKeepsParentLtExactly(t, cap);
    assert t'.Present(cap.id);
    assert forall q: CapId :: q != cap.id ==> (t'.Present(q) <==> t.Present(q));
  }

  /** Raw insertion of any capability under a new id. */
  lemma RawInsertKeepsOrderedExactly(s: State, cap: Capability, target: PluginId)
    requires Coherent(s.Caps()) && Ordered(s.Caps(), s.kernel.nextCapId) && !s.Caps().Present(cap.id)
    ensures var s' := InsertRaw(s, cap, target).0;
      Ordered(s'.Caps(), s'.kernel.nextCapId)
      <==> cap.id < s.kernel.nextCapId && (cap.parent.Some? ==> cap.parent.value < cap.id)
  {
    InsertingMoves(s, cap, target);
    GrowthKeepsOrderedExactly(s.Caps(), cap, s.kernel.nextCapId);
  }

  lemma OrderedUpTo(t: Table, next: CapId, next': CapId)
    requires Ordered(t, next) && next <= next'
    ensures Ordered(t, next')
  {
  }

  lemma PruningKeepsOrdered(t: Table, root: CapId, next: CapId)
    requires Coherent(t) && Ordered(t, next)
    ensures Ordered(RevokeReachable(t, root), next)
  {
    RevokeKeepsCoherent(t, root);
  }

  lemma SoundKeepsOrdered(s: State, op: ApiOp)
    requires Inv(s) && SoundOp(s, op) && !op.InsertCapRaw? && Ordered(s.Caps(), s.kernel.nextCapId)
    ensures Ordered(Apply(s, op).Caps(), Apply(s, op).kernel.nextCapId)
  {
    var next := Apply(s, op).kernel.nextCapId;
    var c := Classify(s, op);
    match c
    case Same => OrderedUpTo(s.Caps(), s.kernel.nextCapId, next);
    case Pruned(root) =>
      PruningKeepsOrdered(s.Caps(), root, s.kernel.nextCapId);
      OrderedUpTo(RevokeReachable(s.Caps(), root), s.kernel.nextCapId, next);
    case Grown(cap) =>
      OrderedUpTo(s.Caps(), s.kernel.nextCapId, next);
      GrowthKeepsOrderedExactly(s.Caps(), cap, next);
  }

  /** Of all allowed operations only a raw insertion can break the order. */
  lemma ApplyKeepsOrderedExactly(s: State, op: ApiOp)
    requires Inv(s) && Allowed(s, op) && Ordered(s.Caps(), s.kernel.nextCapId)
    ensures Ordered(Apply(s, op).Caps(), Apply(s, op).kernel.nextCapId) <==> OrderedOp(s, op)
  {
    if op.InsertCapRaw? {
      InsertingMoves(s, op.cap, op.target);
      if !s.Caps().Present(op.cap.id) {
        RawInsertKeepsOrderedExactly(s, op.cap, op.target);
      }
    } else {
      SoundKeepsOrdered(s, op);
    }
  }

  ghost predicate AlwaysOrdered(s: State, ops: seq<ApiOp>)
    decreases |ops|
  {
    Ordered(s.Caps(), s.kernel.nextCapId) && (ops == [] || AlwaysOrdered(Apply(s, ops[0]), ops[1..]))
  }

  /** An allowed history keeps the order throughout exactly when each of its raw insertions does. */
  lemma {:induction false} HistoryKeepsOrderedExactly(s: State, ops: seq<ApiOp>)
    requires Inv(s) && AllAllowed(s, ops) && Ordered(s.Caps(), s.kernel.nextCapId)
    ensures AlwaysOrdered(s, ops) <==> OrderedHistory(s, ops)
    decreases |ops|
  {
    if ops != [] {
      ApplyKeepsInvExactly(s, ops[0]);
      ApplyKeepsOrderedExactly(s, ops[0]);
      if Ordered(Apply(s, ops[0]).Caps(), Apply(s, ops[0]).kernel.nextCapId) {
        HistoryKeepsOrderedExactly(Apply(s, ops[0]), ops[1..]);
      }
    }
  }

  /** On such histories both revocations agree at the end, whatever is revoked. */
  lemma {:induction false} RunKeepsOrdered(s: State, ops: seq<ApiOp>)
    requires Inv(s) && AllAllowed(s, ops)
    requires Ordered(s.Caps(), s.kernel.nextCapId) && OrderedHistory(s, ops)
    ensures Minted(Run(s, ops).Caps())
    ensures Ordered(Run(s, ops).Caps(), Run(s, ops).kernel.nextCapId)
    ensures forall root: CapId :: RevokeReachable(Run(s, ops).Caps(), root) == Run(s, ops).Caps().RevokeTransitive(root)
    decreases |ops|
  {
    if ops == [] {
      forall root: CapId
        ensures RevokeReachable(s.Caps(), root) == s.Caps().RevokeTransitive(root)
      {
        FastEqualsNaive(s.Caps(), root);
      }
    } else {
      ApplyKeepsInvExactly(s, ops[0]);
      ApplyKeepsOrderedExactly(s, ops[0]);
      RunKeepsOrdered(Apply(s, ops[0]), ops[1..]);
    }
  }

  // ---- With the order kept ----

  /** The id counter never collides, and the seal of a child never aborts. */
  lemma MintingSucceeds(s: State, parent: CapId, to: PluginId, rights: Rights)
    requires Inv(s) && Ordered(s.Caps(), s.kernel.nextCapId)
    ensures var r := s.DelegateCap(parent, to, rights).1;
      r.Ok? <==> s.Caps().IsValid(parent) && rights * s.Caps().Lookup(parent).value.rights != {}
                 && s.kernel.nextCapId < U128_MAX && to != 0
  {
    assert !s.Caps().Present(s.kernel.nextCapId);
  }

  /** The first root of an empty kernel takes id 0; one colliding delegation then moves the counter past it. */
  lemma BootstrapReachesOrder(root: Capability, holder: PluginId, to: PluginId)
    requires root.id == 0 && root.parent == None && root.valid && root.rights != {} && to != 0
    ensures var ops := [InsertCapRaw(root, holder), ApiOp.Delegate(0, to, root.rights)];
      var s := Run(InitialState(), ops);
      SoundHistory(InitialState(), ops) && s.Caps().IsValid(0) && s.kernel.nextCapId == 1
      && Ordered(s.Caps(), s.kernel.nextCapId)
  {
    var op0, op1 := InsertCapRaw(root, holder), ApiOp.Delegate(0, to, root.rights);
    var ops := [op0, op1];
    var s1 := Apply(InitialState(), op0);
    InitialInv();
    assert ops[1..] == [op1] && ops[1..][1..] == [];
    assert Run(InitialState(), ops) == Run(s1, [op1]) == Apply(s1, op1);
    InsertKeepsCoherent(InitialState().Caps(), root);
    assert forall id: CapId :: s1.Caps().Present(id) <==> id == 0;
    assert s1.Caps().Lookup(0) == Some(root) && root.rights * root.rights == root.rights;
  }

  // ---- With the order lost ----

  /** A root inserted at id 100 of the empty kernel, and one delegation from it. */
  function HighRootOps(root: Capability, holder: PluginId, to: PluginId, rights: Rights): seq<ApiOp> {
    [InsertCapRaw(root, holder), ApiOp.Delegate(100, to, rights)]
  }

  lemma HighRootRuns(root: Capability, holder: PluginId, to: PluginId, rights: Rights) returns (child: Capability)
    requires root.id == 100 && root.parent == None && root.valid && rights * root.rights != {} && to != 0
    ensures SoundHistory(InitialState(), HighRootOps(root, holder, to, rights))
    ensures child.id == 0 && child.parent == Some(100) && child.valid
    ensures Run(InitialState(), HighRootOps(root, holder, to, rights)).Caps() == HighRootTable(root, child)
  {
    var op0, op1 := InsertCapRaw(root, holder), ApiOp.Delegate(100, to, rights);
    var ops := HighRootOps(root, holder, to, rights);
    var s1 := Apply(InitialState(), op0);
    assert ops[1..] == [op1] && ops[1..][1..] == [];
    assert Run(InitialState(), ops) == Run(s1, [op1]) == Apply(s1, op1);
    assert SoundHistory(s1, [op1]);
    assert s1.Caps() == Table([(100, root)], 0, []);
    child := s1.NewChild(100, root.target, to, rights * root.rights).value;
    GetAt(s1.Caps().caps, 0);
    assert s1.Caps().InsertCap(child).value == HighRootTable(root, child);
  }

  /** So the documented order is lost in a state that the kernel reaches: id 0 is valid below 100. */
  lemma HighRootIsReached(root: Capability, holder: PluginId, to: PluginId, rights: Rights)
    requires root.id == 100 && root.parent == None && root.valid && rights * root.rights != {} && to != 0
    ensures var s := Run(InitialState(), HighRootOps(root, holder, to, rights));
      SoundHistory(InitialState(), HighRootOps(root, holder, to, rights)) && Inv(s)
      && s.Caps().IsValid(0) && s.Caps().ParentOf(0) == Some(100) && !ParentLt(s.Caps())
  {
    var ops := HighRootOps(root, holder, to, rights);
    var child := HighRootRuns(root, holder, to, rights);
    InitialInv();
    SoundIsAllowed(InitialState(), ops);
    RunKeepsInv(InitialState(), ops);
    HighRootLookups(root, child, 0);
  }

  /** There a step that revokes 100 leaves 0 valid in copying form, and revokes it in place. */
  lemma HighRootPartsForms(root: Capability, holder: PluginId, to: PluginId, rights: Rights, caller: PluginId)
    requires root.id == 100 && root.parent == None && root.valid && rights * root.rights != {} && to != 0
    ensures var s := Run(InitialState(), HighRootOps(root, holder, to, rights));
      var step := Step.RevokeCap(caller, 100);
      StepCopying(s, step).Caps().IsValid(0) && !StepInPlace(s, step).0.Caps().IsValid(0)
      && FormsPart(s, step) && !Inv(StepCopying(s, step)) && Inv(StepInPlace(s, step).0)
  {
    var s := Run(InitialState(), HighRootOps(root, holder, to, rights));
    var step := Step.RevokeCap(caller, 100);
    var child := HighRootRuns(root, holder, to, rights);
    HighRootIsReached(root, holder, to, rights);
    HighRootLookups(root, child, 100);
    NaiveMissesChildOfHighRoot(root, child);
    assert CheckStep(s, step) == None;
    InPlaceSimulates(s, step);
    CopyingKeepsInvExactly(s, step);
    ApplyKeepsInv(s, RunStep(step));
  }
}
