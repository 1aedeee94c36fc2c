/** The kernel that mutates its state in place: every method against the transition it performs. */
module Machine {
  import opened Types
  import opened SortedVec
  import opened Capabilities
  import opened Keys
  import opened CapTable
  import opened Revocation
  import opened Resources
  import opened Actors
  import opened SystemState
  import opened Steps
  import opened Simulation
  import opened KernelApi

  class LiveState {
    const revocation: RevocationState
    const ledger: MetaState
    var keys: KeyState
    var policy: Policy
    var now: Time
    var nextCapId: CapId
    var plugins: map<PluginId, PluginState>
    var actors: map<ActorId, Actor>
    var resources: map<ResourceId, SecurityLevel>
    var workflows: map<WorkflowId, WorkflowStatus>

    /** What the validation code sees: the same state, read only. */
    function View(): State
      reads this, revocation, ledger
    {
      State(
        KernelState(keys, policy, Table(revocation.caps, revocation.epoch, revocation.index), now, nextCapId),
        plugins, actors, resources, workflows, Meta(ledger.resources, ledger.freed))
    }

    ghost predicate Valid()
      reads this, revocation, ledger
    {
      Layout(View().Caps())
    }

    constructor ()
      ensures Valid() && fresh(revocation) && fresh(ledger)
      ensures View() == InitialState()
    {
      revocation := new RevocationState();
      ledger := new MetaState();
      keys, policy := KeyState(seq(32, _ => 0), 0, None, None), DenyAll;
      now, nextCapId := 0, 0;
      plugins, actors, resources, workflows := map[], map[], map[], map[];
    }

    method ApplyAllocMut(owner: PluginId) returns (addr: MemAddr)
      modifies ledger
      ensures addr == old(View()).meta.NextAddr()
      ensures View() == old(View()).ApplyAlloc(owner)
    {
      addr := |ledger.resources| % (U64_MAX + 1);
      ledger.AllocMut(addr, owner);
    }

    method ApplyFreeMut(addr: MemAddr) returns (e: Option<StateError>)
      modifies ledger
      ensures (View(), e) == FreeInPlace(old(View()), addr)
    {
      if View().Caps().AnyValidTargeting(addr) {
        return Some(DanglingCapability(addr));
      }
      var r := ledger.FreeMut(addr);
      match r {
        case Ok(_) => e := None;
        case Err(_) => e := Some(ResourceNotFound(addr));
      }
    }

    method ApplyCapRevokeMut(id: CapId) returns (r: Result<(), KernelError>)
      requires Valid()
      modifies revocation`caps
      ensures Valid()
      ensures (View(), r) == RevokeById(old(View()), id)
    {
      assert revocation.View() == View().Caps();
      r := revocation.RevokeTransitiveFastMut(id);
    }

    method ApplyCapDelegateMut(cap: Capability, target: PluginId) returns (r: Result<(), KernelError>)
      requires Valid()
      modifies this`plugins, revocation
      ensures Valid()
      ensures (View(), r) == InsertRaw(old(View()), cap, target)
    {
      assert revocation.View() == View().Caps();
      r := revocation.InsertMut(cap);
      if r.Err? {
        return;
      }
      if target in plugins {
        plugins := plugins[target := plugins[target].GrantCap(cap.id)];
      }
    }

    method TickMut() returns (e: Option<StateError>)
      modifies this`now
      ensures match old(View()).Tick()
              case Ok(s) => View() == s && e == None
              case Err(err) => View() == old(View()) && e == Some(err)
    {
      if now == U64_MAX {
        return Some(TimeOverflow);
      }
      now := now + 1;
      e := None;
    }

    method RotateKeyMut(newKey: Key)
      modifies this`keys
      ensures View() == old(View()).WithKeys(old(keys).AfterRotate(newKey))
    {
      keys := keys.AfterRotate(newKey);
    }

    method InsertPlugin(pid: PluginId, p: PluginState) returns (e: Option<StateError>)
      modifies this`plugins
      ensures match old(View()).InsertPlugin(pid, p)
              case Ok(s) => View() == s && e == None
              case Err(err) => View() == old(View()) && e == Some(err)
    {
      if pid in plugins {
        return Some(PluginExists(pid));
      }
      plugins := plugins[pid := p];
      e := None;
    }

    /** Replace the whole state, as the copying execution does on success. */
    method Store(s: State)
      requires Layout(s.Caps())
      modifies this, revocation, ledger
      ensures Valid() && View() == s
    {
      keys, policy, now, nextCapId := s.kernel.keys, s.kernel.policy, s.kernel.now, s.kernel.nextCapId;
      revocation.caps, revocation.epoch, revocation.index := s.Caps().caps, s.Caps().epoch, s.Caps().index;
      plugins, actors, resources, workflows := s.plugins, s.actors, s.resources, s.workflows;
      ledger.resources, ledger.freed := s.meta.resources, s.meta.freed;
    }

    // ---- The five kinds of step ----

    method PluginInternalMut(pid: PluginId, pi: PluginInternal) returns (e: Check)
      modifies this`actors
      ensures (View(), e) == StepInPlace(old(View()), PluginStep(pid, pi))
    {
      e := CheckInternal(View(), pid, pi);
      if e.Some? {
        return;
      }
      if pi.consumeMailbox && pid in actors {
        actors := actors[pid := actors[pid].Consume().0];
      }
    }

    method KernelOpMut(op: KernelOp) returns (e: Check)
      modifies this`actors, this`now
      ensures (View(), e) == StepInPlace(old(View()), Kernel(op))
    {
      match op {
        case RouteOne(dst) =>
          if dst !in actors {
            return Some(ActorNotFound(dst));
          }
          if actors[dst].pending == [] {
            return Some(NoPendingMessages(dst));
          }
          if |actors[dst].mailbox| >= actors[dst].capacity {
            return Some(MailboxAtCapacity(dst));
          }
          actors := actors[dst := actors[dst].Deliver()];
        case WorkflowTick(wid) =>
          if wid !in workflows {
            return Some(WorkflowNotFound(wid));
          }
          if workflows[wid] != Running {
            return Some(WorkflowNotRunning(wid));
          }
        case TimeTick =>
          var overflow := TickMut();
          if overflow.Some? {
            return Some(StepError.CounterOverflow);
          }
        case UnblockSend(dst) =>
          if dst !in actors {
            return Some(ActorNotFound(dst));
          }
          actors := actors[dst := actors[dst].Unblock()];
        case ThreadSwitch =>
          return Some(NotImplemented);
      }
      e := None;
    }

    method MemFreeMut(caller: PluginId, addr: MemAddr) returns (e: Check)
      modifies ledger
      ensures (View(), e) == StepInPlace(old(View()), Step.Free(caller, addr))
    {
      if addr in ledger.freed {
        return Some(AddressAlreadyFreed(addr));
      }
      var targeting := FirstTargeting(revocation.caps, addr);
      if targeting.Some? {
        return Some(CapabilityTargetsAddress(targeting.value, addr));
      }
      var failed := ApplyFreeMut(addr);
      e := if failed.Some? then Some(StateFailed(failed.value)) else None;
    }

    method CapRevokeMut(caller: PluginId, capId: CapId) returns (e: Check)
      requires Valid()
      modifies revocation`caps
      ensures Valid()
      ensures (View(), e) == StepInPlace(old(View()), Step.RevokeCap(caller, capId))
    {
      var present, _ := BinarySearch(revocation.caps, capId);
      if !present {
        return Some(CapabilityNotFound(capId));
      }
      var r := ApplyCapRevokeMut(capId);
      e := None;
    }

    method KernelAllocMut(hc: HostCall) returns (e: Check)
      requires hc.function_.KernelAlloc?
      modifies this`plugins, ledger
      ensures e == CheckHostFunction(old(View()), hc, HostResult([], []))
      ensures View() == if e == None then HostEffect(old(View()), hc) else old(View())
    {
      var size := if hc.args == [] then 0 else hc.args[0];
      if hc.caller !in plugins {
        return Some(PluginNotFound(hc.caller));
      }
      var p := plugins[hc.caller];
      if !p.CanAllocMemory(size) {
        return Some(QuotaExceeded(size, p.memoryUsed, p.memoryQuota));
      }
      var _ := ApplyAllocMut(hc.caller);
      plugins := plugins[hc.caller := p.(memoryUsed := SaturatingAdd(p.memoryUsed, size))];
      e := None;
    }

    method DeclassifyMut(hc: HostCall) returns (e: Check)
      requires hc.function_.Declassify?
      modifies this`plugins
      ensures e == CheckHostFunction(old(View()), hc, HostResult([], []))
      ensures View() == if e == None then HostEffect(old(View()), hc) else old(View())
    {
      var level := LevelOf(if hc.args == [] then 0 else hc.args[0]);
      if level.None? {
        return Some(InvalidSecurityLevel(if hc.args == [] then 0 else hc.args[0]));
      }
      if hc.caller !in plugins {
        return Some(PluginNotFound(hc.caller));
      }
      if level.value.Rank() > plugins[hc.caller].level.Rank() {
        return Some(CannotClassifyUp);
      }
      plugins := plugins[hc.caller := plugins[hc.caller].(level := level.value)];
      e := None;
    }

    /** Authorisation and bounds are checked against the current state, then the host function runs. */
    method HostCallMut(hc: HostCall, auth: Authorized, result: HostResult) returns (e: Check)
      requires Valid()
      modifies this`plugins, revocation`caps, ledger
      ensures Valid()
      ensures (View(), e) == StepInPlace(old(View()), Host(hc, auth, result))
    {
      e := CheckHostCall(View(), hc, auth);
      if e.Some? {
        return;
      }
      match hc.function_ {
        case KernelAlloc =>
          e := KernelAllocMut(hc);
        case Declassify =>
          e := DeclassifyMut(hc);
        case MemFree =>
          if hc.args == [] {
            return Some(NoAddress);
          }
          e := MemFreeMut(hc.caller, hc.args[0]);
          if e.Some? && e.value.StateFailed? {
            e := Some(FreeFailed(e.value.state));
          }
        case CapRevoke =>
          if hc.args == [] {
            return Some(NoCapabilityId);
          }
          e := CapRevokeMut(hc.caller, hc.args[0]);
        case _ =>
          e := CheckHostFunction(View(), hc, result);
      }
    }

    /** One in-place step. */
    method ExecuteMut(step: Step) returns (e: Check)
      requires Valid()
      modifies this, revocation, ledger
      ensures Valid()
      ensures (View(), e) == StepInPlace(old(View()), step)
    {
      match step {
        case PluginStep(pid, pi) => e := PluginInternalMut(pid, pi);
        case Host(hc, auth, result) => e := HostCallMut(hc, auth, result);
        case Kernel(op) => e := KernelOpMut(op);
        case Free(caller, addr) => e := MemFreeMut(caller, addr);
        case RevokeCap(caller, capId) => e := CapRevokeMut(caller, capId);
      }
    }
  }
}
