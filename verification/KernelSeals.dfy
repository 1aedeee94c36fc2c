/** Which seals the kernel still accepts after a history that also rotates and clears keys. */
module KernelSeals {
  import opened Types
  import opened Capabilities
  import opened Keys
  import opened CapTable
  import opened SystemState
  import opened Steps
  import opened Simulation
  import opened KernelApi
  import opened KernelSafety

  ghost predicate SealAccepted(s: State, cap: Capability) {
    Crypto.Serializable(cap.GetPayload())
    && s.kernel.keys.VerifyWithEpoch(cap.GetPayload(), cap.signature, cap.epoch)
  }

  // ---- Keys along a history ----

  function KeyOpsOf(op: ApiOp): seq<KeyOp> {
    match op
    case RotateKey(key) => [Rotate(key)]
    case ClearPreviousKey => [ClearPrevious]
    case _ => []
  }

  /** The key operations of a history, in order. */
  function KeyOps(ops: seq<ApiOp>): seq<KeyOp> {
    if ops == [] then [] else KeyOpsOf(ops[0]) + KeyOps(ops[1..])
  }

  lemma MintLeavesKeys(s: State, parent: CapId, to: PluginId, rights: Rights)
    ensures s.DelegateCap(parent, to, rights).0.kernel.keys == s.kernel.keys
  {
  }

  lemma HostLeavesKeys(s: State, hc: HostCall)
    ensures HostInPlace(s, hc).0.kernel.keys == s.kernel.keys
    ensures HostEffect(s, hc).kernel.keys == s.kernel.keys
  {
  }

  lemma StepLeavesKeys(s: State, step: Step)
    ensures StepInPlace(s, step).0.kernel.keys == s.kernel.keys
    ensures StepEffect(s, step).kernel.keys == s.kernel.keys
  {
    match step
    case Host(hc, _, _) => HostLeavesKeys(s, hc);
    case _ =>
  }

  lemma ApplyMovesKeys(s: State, op: ApiOp)
    ensures Apply(s, op).kernel.keys == match op
      case RotateKey(key) => s.kernel.keys.AfterRotate(key)
      case ClearPreviousKey => s.kernel.keys.Cleared()
      case _ => s.kernel.keys
  {
    match op
    case Delegate(parent, to, rights) => MintLeavesKeys(s, parent, to, rights);
    case RunStep(step) => StepLeavesKeys(s, step);
    case RunCopying(step) => StepLeavesKeys(s, step);
    case _ =>
  }

  /** A history that rotates no more often than epochs are left takes the keys where its key operations do. */
  lemma {:induction false} RunReplaysKeys(s: State, ops: seq<ApiOp>)
    requires s.kernel.keys.epoch + Rotations(KeyOps(ops)) <= U64_MAX
    ensures Replay(s.kernel.keys, KeyOps(ops)) == Some(Run(s, ops).kernel.keys)
    decreases |ops|
  {
    if ops != [] {
      ApplyMovesKeys(s, ops[0]);
      if KeyOpsOf(ops[0]) == [] {
        assert KeyOps(ops) == KeyOps(ops[1..]);
      } else {
        ReplayCons(s.kernel.keys, KeyOpsOf(ops[0])[0], KeyOps(ops[1..]));
        assert KeyOpsOf(ops[0]) == [KeyOpsOf(ops[0])[0]];
      }
      RunReplaysKeys(Apply(s, ops[0]), ops[1..]);
    }
  }

  // ---- What becomes of a seal ----

  /** A capability sealed now is accepted after exactly the histories that stay within its grace period. */
  lemma SealSurvivesExactly(s: State, ops: seq<ApiOp>, id: CapId)
    requires Layout(s.Caps()) && KeyInv(s.kernel.keys)
    requires s.kernel.keys.epoch + Rotations(KeyOps(ops)) <= U64_MAX
    requires s.Caps().Present(id) && SealedBy(s.kernel.keys, s.Caps().Lookup(id).value)
    ensures Run(s, ops).Caps().Present(id)
    ensures SealAccepted(Run(s, ops), Run(s, ops).Caps().Lookup(id).value) <==> WithinGrace(KeyOps(ops))
  {
    RunExtends(s, ops);
    RunReplaysKeys(s, ops);
    var cap, cap' := s.Caps().Lookup(id).value, Run(s, ops).Caps().Lookup(id).value;
    assert SameButRevoked(cap, cap') && cap'.GetPayload() == cap.GetPayload();
    GracePeriod(s.kernel.keys, KeyOps(ops), cap.GetPayload());
  }

  /** A new delegated capability is the work of a delegation, and sealed by the keys of that moment. */
  lemma NewChildIsDelegated(s: State, op: ApiOp, id: CapId)
    requires Inv(s) && SoundOp(s, op) && !s.Caps().Present(id)
    requires Apply(s, op).Caps().ParentOf(id).Some?
    ensures op.Delegate? && SealedBy(Apply(s, op).kernel.keys, Apply(s, op).Caps().Lookup(id).value)
  {
    var c := Classify(s, op);
    ChangeKeepsCoherent(s.Caps(), c);
    ApplyMovesKeys(s, op);
    assert c.Grown? && id == c.cap.id && Apply(s, op).Caps().Lookup(id) == Some(c.cap);
  }

  /** The i-th operation is the delegation that mints id. */
  ghost predicate MintedAt(s: State, ops: seq<ApiOp>, id: CapId, i: nat) {
    i < |ops| && ops[i].Delegate?
    && !Run(s, ops[..i]).Caps().Present(id) && Run(s, ops[..i + 1]).Caps().Present(id)
  }

  lemma MintedFirst(s: State, ops: seq<ApiOp>, id: CapId)
    requires ops != [] && ops[0].Delegate? && !s.Caps().Present(id) && Apply(s, ops[0]).Caps().Present(id)
    ensures MintedAt(s, ops, id, 0)
  {
    assert ops[..1][1..] == [] && ops[..1][0] == ops[0];
    assert Run(s, ops[..1]) == Run(Apply(s, ops[0]), []);
  }

  lemma MintedLater(s: State, ops: seq<ApiOp>, id: CapId, j: nat)
    requires ops != [] && MintedAt(Apply(s, ops[0]), ops[1..], id, j)
    ensures MintedAt(s, ops, id, j + 1)
  {
    assert ops[..j + 1][1..] == ops[1..][..j];
    assert ops[..j + 2][1..] == ops[1..][..j + 1];
  }

  lemma FirstSealSurvivesExactly(s: State, ops: seq<ApiOp>, id: CapId)
    requires Inv(s) && SoundHistory(s, ops) && ops != [] && KeyInv(Apply(s, ops[0]).kernel.keys)
    requires Apply(s, ops[0]).kernel.keys.epoch + Rotations(KeyOps(ops[1..])) <= U64_MAX
    requires !s.Caps().Present(id) && Apply(s, ops[0]).Caps().Present(id) && Run(s, ops).Caps().ParentOf(id).Some?
    ensures ops[0].Delegate?
    ensures Run(s, ops).Caps().Present(id)
    ensures SealAccepted(Run(s, ops), Run(s, ops).Caps().Lookup(id).value) <==> WithinGrace(KeyOps(ops[1..]))
  {
    var s1 := Apply(s, ops[0]);
    ApplyKeepsInv(s, ops[0]);
    RunExtends(s1, ops[1..]);
    assert SameButRevoked(s1.Caps().Lookup(id).value, Run(s, ops).Caps().Lookup(id).value);
    NewChildIsDelegated(s, ops[0], id);
    SealSurvivesExactly(s1, ops[1..], id);
  }

  /**
   Every delegated capability that a history adds was minted by one of its delegations, and is still
   accepted at the end exactly if the key operations after that delegation stay within its grace period.
   */
  lemma {:induction false} DelegatedSealExactly(s: State, ops: seq<ApiOp>, id: CapId) returns (i: nat)
    requires Inv(s) && SoundHistory(s, ops) && KeyInv(s.kernel.keys)
    requires s.kernel.keys.epoch + Rotations(KeyOps(ops)) <= U64_MAX
    requires !s.Caps().Present(id) && Run(s, ops).Caps().ParentOf(id).Some?
    ensures MintedAt(s, ops, id, i)
    ensures SealAccepted(Run(s, ops), Run(s, ops).Caps().Lookup(id).value) <==> WithinGrace(KeyOps(ops[i + 1..]))
    decreases |ops|
  {
    var s1 := Apply(s, ops[0]);
    FirstKeyStep(s, ops);
    if s1.Caps().Present(id) {
      FirstSealSurvivesExactly(s, ops, id);
      MintedFirst(s, ops, id);
      i := 0;
    } else {
      ApplyKeepsInv(s, ops[0]);
      var j := DelegatedSealExactly(s1, ops[1..], id);
      MintedLater(s, ops, id, j);
      i := j + 1;
      assert ops[i + 1..] == ops[1..][j + 1..];
    }
  }

  lemma FirstKeyStep(s: State, ops: seq<ApiOp>)
    requires ops != [] && KeyInv(s.kernel.keys)
    requires s.kernel.keys.epoch + Rotations(KeyOps(ops)) <= U64_MAX
    ensures KeyInv(Apply(s, ops[0]).kernel.keys)
    ensures Apply(s, ops[0]).kernel.keys.epoch + Rotations(KeyOps(ops[1..])) <= U64_MAX
  {
    ApplyMovesKeys(s, ops[0]);
    if KeyOpsOf(ops[0]) == [] {
      assert KeyOps(ops) == KeyOps(ops[1..]);
    } else {
      ReplayCons(s.kernel.keys, KeyOpsOf(ops[0])[0], KeyOps(ops[1..]));
      assert KeyOpsOf(ops[0]) == [KeyOpsOf(ops[0])[0]];
    }
  }

  /** In particular, while no key operation happens every delegated capability is accepted. */
  lemma RunKeepsSealed(ops: seq<ApiOp>, id: CapId)
    requires SoundHistory(InitialState(), ops) && KeyOps(ops) == []
    requires Run(InitialState(), ops).Caps().ParentOf(id).Some?
    ensures SealAccepted(Run(InitialState(), ops), Run(InitialState(), ops).Caps().Lookup(id).value)
  {
    InitialInv();
    var i := DelegatedSealExactly(InitialState(), ops, id);
    NoKeyOpsLater(ops, i + 1);
  }

  lemma {:induction false} NoKeyOpsLater(ops: seq<ApiOp>, i: nat)
    requires i <= |ops| && KeyOps(ops) == []
    ensures KeyOps(ops[i..]) == []
  {
    if i > 0 {
      NoKeyOpsLater(ops[1..], i - 1);
      assert ops[1..][i - 1..] == ops[i..];
    }
  }
}
