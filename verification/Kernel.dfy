/** The public kernel object. */
module KernelObject {
  import opened Types
  import opened SortedVec
  import opened Capabilities
  import opened Crypto
  import opened CapTable
  import opened SystemState
  import opened Steps
  import opened KernelApi
  import opened Machine

  class Kernel {
    const state: LiveState

    ghost function View(): State
      reads state, state.revocation, state.ledger
    {
      state.View()
    }

    ghost predicate Valid()
      reads state, state.revocation, state.ledger
    {
      state.Valid()
    }

    constructor ()
      ensures Valid() && View() == InitialState()
      ensures fresh(state) && fresh(state.revocation) && fresh(state.ledger)
    {
      state := new LiveState();
    }

    /** The copying execution: the state is replaced on success and untouched on failure. */
    method Execute(step: Step) returns (e: Check)
      requires Valid()
      modifies state, state.revocation, state.ledger
      ensures Valid()
      ensures match ExecuteStep(old(View()), step)
              case Ok(s) => View() == s && e == None
              case Err(err) => View() == old(View()) && e == Some(err)
    {
      var r := ExecuteStep(state.View(), step);
      match r {
        case Err(err) => e := Some(err);
        case Ok(s) =>
          StepKeepsLayout(state.View(), step);
          state.Store(s);
          e := None;
      }
    }

    method MintChild(parentId: CapId, parentTarget: ResourceId, holder: PluginId, rights: Rights)
      returns (r: Result<CapId, ApiError>)
      requires Valid()
      modifies state, state.revocation
      ensures Valid()
      ensures (View(), r) == old(View()).MintChild(parentId, parentTarget, holder, rights)
    {
      if state.nextCapId == U128_MAX {
        return Err(KernelFailed(CapIdExhausted));
      }
      var id := state.nextCapId;
      state.nextCapId := id + 1;
      var payload := Payload(holder, parentTarget, rights, Some(parentId), state.keys.epoch);
      if parentId == U128_MAX {
        return Err(Aborted);
      }
      var child := Capability.New(id, payload, Seal(state.keys.current, payload));
      if child.Err? {
        return Err(CapabilityFailed(child.error));
      }
      var inserted := state.ApplyCapDelegateMut(child.value, holder);
      r := if inserted.Err? then Err(KernelFailed(inserted.error)) else Ok(id);
    }

    method DelegateCap(parentId: CapId, target: PluginId, requested: Rights) returns (r: Result<CapId, ApiError>)
      requires Valid()
      modifies state, state.revocation
      ensures Valid()
      ensures (View(), r) == old(View()).DelegateCap(parentId, target, requested)
    {
      var found, pos := BinarySearch(state.revocation.caps, parentId);
      if !found {
        return Err(KernelFailed(CapNotFound(parentId)));
      }
      var parent := state.revocation.caps[pos].1;
      if !parent.valid {
        return Err(CapabilityFailed(CapabilityError.Revoked));
      }
      var childRights := requested * parent.rights;
      if childRights == {} {
        return Err(CapabilityFailed(EmptyRights));
      }
      r := MintChild(parentId, parent.target, target, childRights);
    }

    /** One operation; the state afterwards is the one Apply gives. */
    method Perform(op: ApiOp)
      requires Valid()
      modifies state, state.revocation, state.ledger
      ensures Valid() && View() == Apply(old(View()), op)
    {
      match op {
        case RegisterPlugin(pid, level, memSize) =>
          var _ := state.InsertPlugin(pid, PluginState.Empty(level, memSize));
        case InsertCapRaw(cap, target) =>
          var _ := state.ApplyCapDelegateMut(cap, target);
        case Delegate(parent, to, rights) =>
          var _ := DelegateCap(parent, to, rights);
        case RevokeCap(id) =>
          var _ := state.ApplyCapRevokeMut(id);
        case Alloc(owner) =>
          var _ := state.ApplyAllocMut(owner);
        case FreeAddr(addr) =>
          var _ := state.ApplyFreeMut(addr);
        case TickClock =>
          var _ := state.TickMut();
        case RunStep(step) =>
          var _ := state.ExecuteMut(step);
        case RunCopying(step) =>
          var _ := Execute(step);
        case RotateKey(key) =>
          state.RotateKeyMut(key);
        case ClearPreviousKey =>
          state.keys := state.keys.Cleared();
      }
    }

    method PerformAll(ops: seq<ApiOp>)
      requires Valid()
      modifies state, state.revocation, state.ledger
      ensures Valid() && View() == Run(old(View()), ops)
    {
      var i := 0;
      while i < |ops|
        invariant 0 <= i <= |ops| && Valid()
        invariant Run(View(), ops[i..]) == Run(old(View()), ops)
      {
        Perform(ops[i]);
        assert ops[i..][1..] == ops[i + 1..];
        i := i + 1;
      }
    }
  }
}
