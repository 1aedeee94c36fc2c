# Lion kernel: a verified model

Lion is a capability microkernel written as a deterministic state machine. Plugins hold capabilities
to resources; the kernel mints, delegates and revokes them, allocates and frees addresses, routes
messages between actors and executes steps under authorisation. Most operations exist twice, once
returning a new state and once changing the state in place, and several plain structures have a fast
index beside them. This project models that machine in Dafny and proves what it keeps over whole
histories, and that its two forms and its fast paths agree with their plain counterparts.

`dafny verify dfyconfig.toml` checks everything.

## Layout

- `Types`, `SortedVec`, `Capabilities`: machine integers, sorted association vectors, capability records.
- `CapTable`, `Descent`, `ChildIndex`, `Revocation`: the capability table, the parent relation, the
  breadth-first search over the children index, and the two revocations.
- `Crypto`, `Keys`: the 64-byte payload image, seals, key rotation with a grace period.
- `PagedMemory`, `Resources`, `Actors`: 4 KiB pages as a flat memory, resource lifecycles, message queues.
- `SystemState`, `Steps`, `StepChecks`, `StepOutcomes`: the whole state, one step in copying form, exactly
  when a step is authorised and runs, what an error means, and what a step leaves behind.
- `Simulation`, `KernelApi`, `Machine`, `Kernel`: the in-place transitions, histories of public
  operations, and the objects whose methods perform them.
- `KernelSafety`, `KernelOrder`, `KernelSeals`, `KernelRecords`, `Witnesses`: what histories keep and exactly
  when, the order of ids, seals under key rotation, policy, clock and plugin records, and what an
  authorisation witness proves.
- `Noninterference`: isolation of a step, purging.
- `WorkflowGraph`, `Workflow`, `WorkflowSafety`, `WorkflowRetries`: workflow definitions, instances, progress
  and termination, retries and statuses.

Code that changes things in place is modelled by classes. Each of their methods is proved against a
function of the old state (or against the property itself), and the theorems are about those functions.
A history is a sequence of operations of the kernel object, with steps executed in either form, and of
the key rotations and clearings that kernel code reserves to itself. What holds of every history is
stated without conditions. The invariants hold throughout a history exactly when each operation was
allowed where it happened, which restricts only raw insertions and copying steps. A sound history also
inserts nothing raw but roots.

## Where the code and its documentation differ

The model follows the code.

- The two executions of a step are documented as equivalent (crates/lion-core/src/step/mod.rs:445-448).
  They part on two kinds of step. A direct free in copying form also accepts an address that is not live;
  the next allocation may then return a freed address (`CopyingFreeAcceptsDead`,
  `CopyingFreeSpoilsAllocation`). A revocation in copying form walks up from each capability with its id
  as fuel and misses what hangs deeper than that (`HighRootPartsForms`). `InPlaceSimulates` and
  `RunsAgreeExactly` show that there is nothing else, and `ApplyKeepsInvExactly` that just these copying
  steps break the invariants.
- Ids below the counter and parents before children are documented as invariants
  (crates/lion-core/src/state/kernel.rs:249-255, 742-746). They are kept exactly by the raw insertions
  that use ids the counter has passed (`HistoryKeepsOrderedExactly`); a root at 100 and one delegation
  from it lose them (`HighRootIsReached`). The other invariants survive, and in-place revocation needs
  only those.
- A witness is documented as proof of authorisation (crates/lion-core/src/step/authorization.rs:176-200).
  Validation compares the action with the record the caller brings and asks the table only about its id,
  so it proves what it should exactly when the table's own record has that target and those rights
  (`HostCallGrantsExactly`). Steps built from the table do; a made-up record need not
  (`ForgedWitnessPasses`).
- The in-place execution is documented as possibly leaving partial mutations behind on failure
  (crates/lion-core/src/kernel.rs:75-80). It never does: every failing step leaves the state as it was
  (`FailureChangesNothing`).
- The measure is documented to decrease on each workflow step (crates/lion-core/src/state/workflow.rs:740-744).
  It does exactly when it does not saturate (`MeasureDrops`, `MeasureCanStall`).
- A failed workflow status is not final: completing the last node after a timeout turns it into Success
  (`FailureIsOverwritten`, `TimeoutIsOverwritten`).
- The revocation epoch is documented as tracking revocations (crates/lion-core/src/state/kernel.rs:264-267).
  No operation moves it (`RunKeepsTableEpoch`).
- A capability send checks its messages and enqueues none of them, and the policy of a new kernel denies
  everything and cannot be set through its operations (`NoHostCallRuns`).
- A plugin's writes are checked and never applied, and no host function asks for the write right, so the
  integrity check on writes never decides anything on that path.

## Model

| member | source | states |
|---|---|---|
| `SortedVec.BinarySearch` | crates/lion-core/src/state/kernel.rs:291-308 | on a sorted vector the search ends at the first key not below the one sought, and says whether it is there |
| `SortedVec.GetInserted` | crates/lion-core/src/state/kernel.rs:472-500 | inserting at the search position adds one binding and changes no other lookup |
| `CapTable.ChildrenAfterAdd` | crates/lion-core/src/state/kernel.rs:579-588 | adding a child appends it to its parent's list, creates the list if need be, and leaves every other list alone |
| `CapTable.InsertKeepsCoherent` | crates/lion-core/src/state/kernel.rs:249-255 | inserting a root, or a child of a valid capability, under a new id keeps the documented table invariants and every old capability |
| `Descent.FuelExact` | crates/lion-core/src/state/kernel.rs:390-408 | the fuelled walk says yes exactly when the ancestor is at most `fuel` parents away, on any table |
| `Descent.FuelIsAdequate` | crates/lion-core/src/state/kernel.rs:385-387 | when parents precede children, fuel equal to the id decides ancestry exactly |
| `Descent.ValidChain` | crates/lion-core/src/state/kernel.rs:254 | everything above a valid capability is valid |
| `ChildIndex.GetChildren` | crates/lion-core/src/state/kernel.rs:563-571 | the children found by binary search are the parent's list, empty when it has none |
| `ChildIndex.CollectDescendants` | crates/lion-core/src/state/kernel.rs:537-558 | on any sorted index, cyclic ones included, the search terminates and returns each id reachable from the root exactly once, and no other |
| `Revocation.ReachIsDescent` | crates/lion-core/src/state/kernel.rs:253-255 | when the index inverts the parent relation, reachable through the index means equal to or descended from the root |
| `Revocation.FastEqualsNaive` | crates/lion-core/src/state/kernel.rs:422-441 | in a table with parents before children the index-driven revocation equals the naive one for every id, present or not |
| `Revocation.FastEqualsNaiveExactly` | crates/lion-core/src/state/kernel.rs:385-441 | on any table with an exact index the two agree if and only if no valid capability hangs further below the root than its own id |
| `Revocation.NaiveKeepsCoherentExactly` | crates/lion-core/src/state/kernel.rs:422-441 | the naive revocation keeps the table invariants if and only if it agrees with the fast one: a capability it misses stays valid under a revoked ancestor |
| `Revocation.RevokeKeepsCoherent` | crates/lion-core/src/state/kernel.rs:630-645 | revocation keeps the table invariants, changes no parent and no id, and invalidates exactly the reachable ids |
| `Revocation.RevokeTransitiveFast` | crates/lion-core/src/state/kernel.rs:600-623 | the copying fast revocation marks exactly the ids reachable from the root |
| `Revocation.RevocationState.AddChildToIndex` | crates/lion-core/src/state/kernel.rs:579-588 | the in-place index update is the specified one |
| `Revocation.RevocationState.InsertMut` | crates/lion-core/src/state/kernel.rs:507-524 | in-place insertion agrees with the copying one, error included, and keeps both vectors sorted |
| `Revocation.RevocationState.RevokeTransitiveFastMut` | crates/lion-core/src/state/kernel.rs:630-645 | fails and changes nothing for an absent id; otherwise exactly the reachable ids are revoked and the index is untouched |
| `Crypto.BitMeansRight` | crates/lion-core/src/types/rights.rs:123-125 | bit i of the rights bitmap is set exactly when the i-th right is granted |
| `Crypto.BitmapMeaning` | crates/lion-core/src/types/rights.rs:41-54 | for each of the ten rights, the bit its number names in the 16-bit bitmap says whether it is granted |
| `Crypto.PayloadLayout` | crates/lion-core/src/crypto.rs:57-88 | bytes 0-15 hold the holder, 16-31 the target, 32-39 the epoch, 40-55 0 for no parent and the parent plus one otherwise, 56-63 the rights bitmap |
| `Crypto.LEBytes` | crates/lion-core/src/crypto.rs:66-88 | each number is little-endian: byte i has weight 256 to the i |
| `Crypto.PayloadRoundTrip` | crates/lion-core/src/crypto.rs:66-88 | a decoder inverts the 64-byte image of every payload that can be serialised |
| `Crypto.SerializedInjective` | crates/lion-core/src/crypto.rs:57-64 | two payloads have the same image exactly when they are equal, so no parent and parent 0 are told apart |
| `Crypto.SealBindsBytes` | crates/lion-core/src/crypto.rs:22-47 | a seal verifies for a key and payload exactly when both computed the MAC over the same key and bytes |
| `Crypto.SerializePayload` | crates/lion-core/src/crypto.rs:66-88 | the buffer is filled with the specified image, and the abort happens exactly on the one parent id without a code |
| `Keys.GracePeriod` | crates/lion-core/src/state/kernel.rs:93-195 | after any history of rotations and clearings a seal verifies if and only if there was no rotation since, or a single one with nothing cleared after it |
| `Keys.AcceptedExactly` | crates/lion-core/src/state/kernel.rs:148-186 | after any history of a ring that began without a previous key, a tag is accepted if and only if it is a MAC over the payload itself under the current key, or under the old one while that is kept, and the epoch claimed is no older than the oldest key kept; bytes of other origin never are |
| `Keys.History` | crates/lion-core/src/state/kernel.rs:32-58 | the previous epoch is absent or one less than the current, and the kept key is the one in force before the last rotation |
| `Keys.AbortsOnlyOnOverflow` | crates/lion-core/src/state/kernel.rs:93-104 | a history aborts exactly when it rotates past the last epoch |
| `Keys.KeyRing.Rotate` | crates/lion-core/src/state/kernel.rs:93-104 | the in-place rotation equals the copying one; on the abort the key fields are already overwritten |
| `Keys.KeyRing.ClearPrevious` | crates/lion-core/src/state/kernel.rs:192-195 | the previous key and its epoch are forgotten, nothing else changes |
| `PagedMemory.LinearMemory.WriteMut` | crates/lion-core/src/state/memory.rs:110-118 | one byte changes, its page is allocated, nothing else |
| `PagedMemory.BoundsMeaning` | crates/lion-core/src/state/memory.rs:79-85 | the bounds test passes if and only if every byte of the range is below the bound and an empty range starts no later than it, for all 64-bit operands |
| `PagedMemory.LinearMemory.WriteRangeMut` | crates/lion-core/src/state/memory.rs:192-211 | exactly the bytes addr..addr+len change, to the data; exactly the touched pages are allocated; no 64-bit step overflows |
| `PagedMemory.LinearMemory.WriteRangeChecked` | crates/lion-core/src/state/memory.rs:180-189 | stores the data if every byte of the range is below the bound, and else fails and changes nothing |
| `PagedMemory.LinearMemory.ReadRange` | crates/lion-core/src/state/memory.rs:148-171 | succeeds if and only if every byte of the range is below the bound; then returns the flat memory byte by byte, zero where nothing was written |
| `PagedMemory.WriteThenRead` | crates/lion-core/src/state/memory.rs:60-63 | reading a range just written returns the data, across any number of pages |
| `PagedMemory.StoredIsUnique` | crates/lion-core/src/state/memory.rs:54-66 | the contract of a write determines the resulting memory completely, pages included |
| `Resources.Partition` | crates/lion-core/src/state/memory.rs:323-328 | live and freed addresses split 0..n-1 between them |
| `Resources.AllocKeepsInv` | crates/lion-core/src/state/state.rs:277-295 | allocation keeps the ledger dense; below 2^64 resources the address is neither live nor freed before, and live after |
| `Resources.FreeFormsAgree` | crates/lion-core/src/state/memory.rs:350-388 | the in-place free succeeds exactly on live addresses, and then leaves the same ledger as the copying free |
| `Resources.FreeErrors` | crates/lion-core/src/state/memory.rs:374-388 | a refused in-place free says double free for an address handed out before and not allocated for any other |
| `Resources.MetaState.FreeMut` | crates/lion-core/src/state/memory.rs:374-388 | the in-place free, with its three errors, leaving the ledger alone on each |
| `Actors.FifoConservation` | crates/lion-core/src/state/actor.rs:189-288 | over any interleaving, consumed, mailbox and pending concatenate to what was there and what was enqueued, in order; the mailbox never outgrows its capacity |
| `Actors.DeliveriesMove` | crates/lion-core/src/state/actor.rs:212-237 | k deliveries move exactly min(k, pending, room) messages from the front of pending to the back of the mailbox, and change nothing else |
| `Actors.RoundsDrain` | crates/lion-core/src/state/actor.rs:212-283 | with a positive capacity, as many rounds of one delivery and one consumption as there are messages empty both queues, everything consumed in order |
| `Actors.BlockedByLast` | crates/lion-core/src/state/actor.rs:290-324 | after any interleaving the last block or unblock decides whether and on whom the actor is blocked; the message waiting to be sent is untouched |
| `Actors.ActorRuntime.EnqueuePendingMut` | crates/lion-core/src/state/actor.rs:202-204 | agrees with the copying form |
| `Actors.ActorRuntime.SetBlockedMut` | crates/lion-core/src/state/actor.rs:304-306 | agrees with the copying form |
| `Actors.ActorRuntime.UnblockMut` | crates/lion-core/src/state/actor.rs:322-324 | agrees with the copying form |
| `Actors.ActorRuntime.DeliverMut` | crates/lion-core/src/state/actor.rs:244-256 | agrees with the copying delivery and reports empty, delivered or full |
| `Actors.ActorRuntime.ConsumeMut` | crates/lion-core/src/state/actor.rs:286-288 | agrees with the copying consumption, message included |
| `SystemState.State.NewChild` | crates/lion-core/src/kernel.rs:168-186 | a child is made exactly when the parent id can be sealed, the holder is not 0 and rights remain; it carries the given fields, the next id, and a seal of the current key |
| `Steps.FirstTargetingFinds` | crates/lion-core/src/step/mod.rs:538-545 | the scan finds a capability exactly when some valid one targets the address |
| `Steps.CheckedFreeApplies` | crates/lion-core/src/state/state.rs:308-319 | the guard inside the free never fires after the step's own checks passed |
| `Simulation.InPlaceSimulates` | crates/lion-core/src/step/mod.rs:435-457 | one step on any table with an exact index: the same errors with the state untouched; on success observably equal results if and only if the step neither frees a dead address directly, which the in-place form refuses, nor revokes an id below which a valid capability hangs deeper than its own id |
| `Simulation.InPlaceSimulatesOrdered` | crates/lion-core/src/step/mod.rs:435-457 | with parents before children only the dead free remains an exception |
| `Simulation.FailureChangesNothing` | crates/lion-core/src/kernel.rs:75-87 | a failing in-place step leaves every state as it was |
| `Simulation.RunsAgreeExactly` | crates/lion-core/src/step/mod.rs:435-457 | lists of steps run in lockstep in both forms if and only if the in-place run comes to no dead free and no such revocation |
| `Simulation.HostFreeTargetsLive` | crates/lion-core/src/step/authorization.rs:398-405 | a free through a host call passes authorisation only for a live address, so that exception never concerns it |
| `Simulation.RunsAgree` | crates/lion-core/src/step/mod.rs:435-457 | such lists end in observably equal states or with the same error |
| `Simulation.InPlaceSuccessIsReal` | crates/lion-core/src/step/mod.rs:435-457 | a successful in-place run of a list is matched step by step by the copying run if and only if no revocation in it goes past fuel, and then ends observably equal |
| `Simulation.MintedSuccessIsReal` | crates/lion-core/src/step/mod.rs:435-457 | with parents before children every successful in-place run is so matched |
| `Simulation.CopyingFreeAcceptsDead` | crates/lion-core/src/state/state.rs:308-331 | the exception is real: on the empty kernel the copying form frees an address never allocated |
| `Machine.LiveState.ApplyAllocMut` | crates/lion-core/src/state/state.rs:291-295 | in-place allocation equals the copying one and returns the address used |
| `Machine.LiveState.ApplyFreeMut` | crates/lion-core/src/state/state.rs:338-363 | refused while a valid capability targets the address or when it is not live; otherwise the ledger records it |
| `Machine.LiveState.ApplyCapRevokeMut` | crates/lion-core/src/state/state.rs:413-417 | the whole state after an in-place revocation, and the error for an absent id |
| `Machine.LiveState.ApplyCapDelegateMut` | crates/lion-core/src/state/state.rs:462-473 | in-place insertion and grant equal the copying ones |
| `Machine.LiveState.PluginInternalMut` | crates/lion-core/src/step/mod.rs:563-594 | the in-place plugin step performs the specified transition |
| `Machine.LiveState.KernelOpMut` | crates/lion-core/src/step/kernel_op.rs:89-271 | the in-place kernel operations perform the specified transitions |
| `Machine.LiveState.MemFreeMut` | crates/lion-core/src/step/mod.rs:632-648 | the in-place direct free performs the specified transition |
| `Machine.LiveState.CapRevokeMut` | crates/lion-core/src/step/mod.rs:650-658 | the in-place direct revocation performs the specified transition |
| `Machine.LiveState.KernelAllocMut` | crates/lion-core/src/step/host_call.rs:804-829 | quota check, allocation and charge, as in the copying form |
| `Machine.LiveState.DeclassifyMut` | crates/lion-core/src/step/host_call.rs:884-913 | level check and lowering, as in the copying form |
| `Machine.LiveState.HostCallMut` | crates/lion-core/src/step/mod.rs:596-626 | validation on the current state, then the host function in place, as specified |
| `Machine.LiveState.ExecuteMut` | crates/lion-core/src/step/mod.rs:449-457 | one in-place step of any of the five kinds; a failed step leaves the state as it was |
| `KernelObject.Kernel.Execute` | crates/lion-core/src/kernel.rs:69-73 | the state is replaced on success and untouched on failure |
| `KernelObject.Kernel.DelegateCap` | crates/lion-core/src/kernel.rs:146-188 | every outcome of kernel minting, including the counter that moves on late failures |
| `KernelObject.Kernel.Perform` | crates/lion-core/src/kernel.rs:56-231 | each operation, public or on the keys, leaves the state its transition gives |
| `KernelObject.Kernel.PerformAll` | crates/lion-core/src/kernel.rs:28-231 | any sequence of operations, both executions of steps among them, leaves the state its history gives |
| `KernelSafety.RawInsertKeepsInvExactly` | crates/lion-core/src/kernel.rs:195-202 | raw insertion under a new id keeps the invariants if and only if a parent other than itself is present, confines it and is valid if it is, and it does not put a valid capability on a freed address |
| `KernelSafety.CopyingKeepsInvExactly` | crates/lion-core/src/kernel.rs:69-73 | a copying step keeps the invariants if and only if it fails, or neither frees a dead address nor revokes past fuel |
| `KernelSafety.ApplyKeepsInvExactly` | crates/lion-core/src/kernel.rs:56-231 | any operation keeps the invariants if and only if it is allowed: for a raw insertion the checks of RawInsertKeepsInvExactly unless it collides, for a copying step the condition of CopyingKeepsInvExactly, for all others nothing |
| `KernelSafety.HistoryKeepsInvExactly` | crates/lion-core/src/kernel.rs:28-231 | a history keeps the invariants at every step if and only if each operation was allowed where it happened |
| `KernelSafety.RunKeepsInv` | crates/lion-core/src/state/kernel.rs:249-255 | after every allowed history, whatever ids its roots take, the table is sorted, keyed, closed under parents, valid only below valid, exactly indexed and confined, the ledger is consistent, and no valid capability is on a freed address |
| `KernelSafety.RunExtends` | crates/lion-core/src/state/kernel.rs:507-524 | no history whatever removes a capability, changes one but by revoking it, or brings one back |
| `KernelSafety.RunKeepsFreed` | crates/lion-core/src/state/state.rs:490-499 | and none takes a freed address back |
| `KernelSafety.NoDanglingCapability` | crates/lion-core/src/state/state.rs:300-307 | after every allowed history of the empty kernel: no valid capability targets a freed address, no allocation reuses a freed or live one, live and freed partition the addresses |
| `KernelSafety.CopyingFreeSpoilsAllocation` | crates/lion-core/src/state/state.rs:308-331 | without that condition it fails: a copying free of address 0 on the empty kernel succeeds, and the next allocation returns the freed address |
| `KernelOrder.GrowthKeepsParentLtExactly` | crates/lion-core/src/state/kernel.rs:249-255 | a new capability keeps parents before children if and only if its own parent, if any, has the smaller id |
| `KernelOrder.RawInsertKeepsOrderedExactly` | crates/lion-core/src/kernel.rs:195-202 | raw insertion under a new id keeps ids below the counter and parents before children if and only if the counter has passed its id and its parent comes before it |
| `KernelOrder.HistoryKeepsOrderedExactly` | crates/lion-core/src/state/kernel.rs:742-746 | an allowed history keeps that order at every step if and only if each raw insertion in it collides or meets this |
| `KernelOrder.RunKeepsOrdered` | crates/lion-core/src/state/kernel.rs:742-746 | at the end of such a history ids are below the counter, parents before children, and both revocations agree on every id |
| `KernelOrder.MintingSucceeds` | crates/lion-core/src/kernel.rs:146-188 | in such states delegation succeeds exactly when the parent is valid, rights remain, the holder is not 0 and the counter is not exhausted: no collision, no abort |
| `KernelOrder.BootstrapReachesOrder` | crates/lion-core/src/kernel.rs:199-202 | a kernel whose first root takes id 0 reaches such a state by one colliding delegation |
| `KernelOrder.HighRootIsReached` | crates/lion-core/src/kernel.rs:328-357 | inserting a root at 100 into the empty kernel and delegating from it is a sound history that ends with id 0 valid under parent 100 |
| `KernelOrder.HighRootPartsForms` | crates/lion-core/src/kernel.rs:328-357 | in that reached state revoking 100 leaves 0 valid in copying form and breaks the invariants, and in place revokes 0 and keeps them |
| `KernelSeals.SealSurvivesExactly` | crates/lion-core/src/state/kernel.rs:829-832 | a capability sealed under the current key is accepted after a history of any operations, key rotations and clearings included, if and only if its key operations stay within the grace period |
| `KernelSeals.DelegatedSealExactly` | crates/lion-core/src/state/kernel.rs:829-832 | every delegated capability that a sound history adds was minted by one of its delegations, and is accepted at the end if and only if the key operations after that one stay within the grace period |
| `KernelSeals.RunKeepsSealed` | crates/lion-core/src/state/kernel.rs:829-832 | while no key operation happens every delegated capability is accepted |
| `KernelSafety.RevokedStaysRevoked` | crates/lion-core/src/kernel.rs:204-215 | what was at or below an id when it was revoked is there and invalid after any history whatever, copying steps and raw insertions included |
| `KernelSafety.RevocationIsPermanent` | crates/lion-core/src/kernel.rs:204-215 | after an allowed history whatever is below a revoked id is invalid, and if raw insertions were of roots it was there before |
| `Witnesses.RevokedWitnessFails` | crates/lion-core/src/step/mod.rs:496-526 | a host-call step with any witness, made from the table or not, for an id at or below a revoked one fails after any history, in both forms, changing nothing |
| `Witnesses.HostCallGrantsExactly` | crates/lion-core/src/step/authorization.rs:374-395 | whatever witness it carries, a host call that passes its checks names a valid capability, and the whole chain up to the root is valid and grants what is asked if and only if the record in the table, not the one in the witness, has that target and those rights |
| `Witnesses.HostCallNeedsWholeChain` | crates/lion-core/src/step/mod.rs:371-395 | so a step built earlier from the table runs only while every capability up to the root is valid, has the target and grants the rights, though one parent is inspected |
| `Witnesses.HostFreeRunsExactly` | crates/lion-core/src/step/host_call.rs:651-679 | an authorised free through a host call runs if and only if no valid capability targets the address, so when it runs the capability its witness names is on another resource |
| `Witnesses.HostFreeNeverRuns` | crates/lion-core/src/step/host_call.rs:651-679 | so a free whose step was built from the table never runs, after any history |
| `Witnesses.ForgedWitnessPasses` | crates/lion-core/src/step/authorization.rs:258-282 | with the public validator it can: three operations after the empty kernel, under a policy that permits everything, a made-up record reusing a held id is accepted and frees an address that capability has nothing to do with |
| `StepChecks.PluginStepAllowed` | crates/lion-core/src/step/plugin_internal.rs:98-138 | a plugin may compute if and only if it exists, is not blocked, stays in bounds, and has mail if it consumes |
| `StepChecks.SendAllowed` | crates/lion-core/src/step/host_call.rs:583-610 | a send passes if and only if every message is the caller's own and every mailbox addressed has room |
| `StepChecks.WitnessIssuedExactly` | crates/lion-core/src/step/authorization.rs:258-282 | the validator issues a witness if and only if the record names subject and target and covers the rights, the subject holds the id, the policy permits, the table has the id valid and a named parent too, the target cut to 64 bits is live, and a write right comes with a level no lower than the owner's |
| `StepChecks.HostCallAuthorised` | crates/lion-core/src/step/mod.rs:496-526 | a host call is authorised if and only if its action is the caller's, of the right, target and kind the function needs, its witness would be issued now, and its regions lie in the caller's memory |
| `StepChecks.HostCallBuiltExactly` | crates/lion-core/src/step/mod.rs:371-395 | a step is built on a capability of the table if and only if that capability exists and makes a witness that stands for the action the call derives; the step carries just those |
| `StepChecks.FreshWitnessPasses` | crates/lion-core/src/step/mod.rs:366-395 | in the state it was built for, a host call can be stopped only by a region out of bounds |
| `StepChecks.ParentCheckIsImplied` | crates/lion-core/src/step/authorization.rs:387-393 | in every later state the parent check follows from the validity of the capability itself |
| `StepChecks.HostCallRightExactly` | crates/lion-core/src/step/host_call.rs:340-424 | a host call that runs, with any witness, has on its whole chain the one right its function needs, on the target its arguments name, if and only if the record in the table grants it |
| `StepChecks.HostCallNeedsItsRight` | crates/lion-core/src/step/host_call.rs:340-424 | so a step built from the table always has it |
| `StepChecks.RunStaysWithinBounds` | crates/lion-core/src/step/host_call.rs:619-646 | no history takes a plugin over its memory quota or a mailbox over its capacity |
| `StepChecks.AllocationCharges` | crates/lion-core/src/step/host_call.rs:619-646 | an allocation charges exactly its size, within the quota, and its address becomes live |
| `StepChecks.LevelsNeverRise` | crates/lion-core/src/step/host_call.rs:707-740 | no step raises a plugin's level |
| `StepChecks.DelegationResult` | crates/lion-core/src/kernel.rs:126-188 | a delegation adds just one capability: new, valid, child of the parent, same target, intersected rights, held by its holder beside all it held; no other field of any plugin changes |
| `StepChecks.DelegationOutcome` | crates/lion-core/src/kernel.rs:146-188 | in every state a delegation succeeds if and only if the parent is valid and can be sealed, rights remain, the holder is not 0 and the counter gives a free id; a failed one changes nothing but the counter, and that by one exactly when it failed late |
| `StepChecks.DelegationErrorIsTrue` | crates/lion-core/src/kernel.rs:136-145 | the error of a delegation is true of the state it was refused in |
| `StepOutcomes.StepRunsExactly` | crates/lion-core/src/step/mod.rs:435-457 | each form runs a step of any kind if and only if the stated order-free condition on the state holds, the in-place form moreover only if it frees no dead address |
| `StepOutcomes.HostFunctionAllowed` | crates/lion-core/src/step/host_call.rs:548-740 | what each host function asks beyond authorisation, exactly: the quota, a free address no valid capability targets, a present id, a level no higher than the caller's |
| `StepOutcomes.LevelMeaning` | crates/lion-core/src/step/host_call.rs:709-720 | the wire value of a level is its rank, and only 0 to 3 are accepted |
| `StepOutcomes.FreeOutcome` | crates/lion-core/src/state/state.rs:338-363 | the public free works exactly on live addresses that no valid capability targets, says which is missing, and marks the address freed |
| `StepOutcomes.ErrorIsTrue` | crates/lion-core/src/step/mod.rs:240-266 | whatever error a step is refused with is true of the state it was refused in, with the ids, regions and levels it names |
| `StepOutcomes.ActorsAfterStep` | crates/lion-core/src/step/kernel_op.rs:106-224 | a step that runs routes the first pending message to its actor, consumes the first of the mailbox, or unblocks; no other actor or field changes |
| `StepOutcomes.PluginsAfterStep` | crates/lion-core/src/step/host_call.rs:619-740 | a step that runs charges an allocation to its caller or sets its caller's level to the rank asked for; no other record or field changes |
| `StepOutcomes.RestAfterStep` | crates/lion-core/src/step/kernel_op.rs:152-157 | of clock, keys, policy, counter, workflows and resource records only the clock moves, by one, on a time tick |
| `StepOutcomes.LedgerAfterStep` | crates/lion-core/src/state/state.rs:277-331 | an allocation records the next address for its caller, a free its address; no other step touches the ledger |
| `StepOutcomes.TableAfterStep` | crates/lion-core/src/step/mod.rs:650-658 | an in-place step that revokes invalidates just what is reachable from its root; no other step touches the table |
| `StepOutcomes.InPlaceMatches` | crates/lion-core/src/step/mod.rs:435-457 | in everything but table and ledger both forms leave the same state, on any table |
| `StepOutcomes.RoutesMove` | crates/lion-core/src/step/kernel_op.rs:106-130 | k routing steps in either form move exactly min(k, pending, room) messages in order and change nothing else in the state |
| `KernelRecords.RunKeepsPolicy` | crates/lion-core/src/kernel.rs:28-231 | no operation sets the policy |
| `KernelRecords.NoHostCallRuns` | crates/lion-core/src/step/authorization.rs:363-371 | the kernel as built denies everything, so after any history of it every host call fails in both forms and changes nothing |
| `KernelRecords.ClockCountsTicks` | crates/lion-core/src/state/state.rs:515-519 | over any history the clock counts the ticks asked for, as operations or steps, and stops at the last 64-bit instant |
| `KernelRecords.RunKeepsTableEpoch` | crates/lion-core/src/state/kernel.rs:264-267 | no operation moves the revocation epoch, documented as tracking revocations |
| `KernelRecords.ApplyFreesExactly` | crates/lion-core/src/state/state.rs:338-363 | a public free adds its address to the freed ones exactly if it is live and no valid capability targets it, a step that runs the address it frees; no other operation frees anything |
| `KernelRecords.RunFrees` | crates/lion-core/src/state/state.rs:490-499 | whatever is freed at the end of a history was freed before it or by one of its operations |
| `KernelRecords.GrantExactly` | crates/lion-core/src/state/state.rs:462-473 | raw insertion adds the one id to the holdings of the target, beside all it held, and changes no other field of any plugin |
| `KernelRecords.ApplyFollows` | crates/lion-core/src/state/plugin.rs:102-117 | an operation changes holdings only by what it grants, and a record appears only by registration, with the given level and bounds, zero memory, nothing held or used, and the default quotas |
| `KernelRecords.RunContinues` | crates/lion-core/src/state/state.rs:558-565 | no history removes or replaces a plugin, moves its bounds or quotas, raises its level, lowers its use, or takes a held id away |
| `KernelRecords.RunGrants` | crates/lion-core/src/state/plugin.rs:154-180 | whatever a plugin comes to hold was granted to it by a delegation or raw insertion of that id |
| `KernelRecords.GrantIsKept` | crates/lion-core/src/state/plugin.rs:154-180 | and whatever is granted to a registered plugin is held after any history |
| `StepChecks.NeverFreedTwice` | crates/lion-core/src/state/memory.rs:374-388 | an address once freed is refused after any history |
| `Noninterference.StepTouchesSubjectOnly` | crates/lion-core/src/state/state.rs:478-499 | a step changes no plugin but its subject, no resource record, and unfrees nothing |
| `Noninterference.IsolationExactly` | crates/lion-core/src/state/state.rs:478-488 | isolation holds if and only if every record but the active plugin's is found again unchanged |
| `Noninterference.StepPreservesIsolation` | crates/lion-core/src/state/state.rs:478-488 | every step preserves isolation for its subject |
| `Noninterference.LowEquivalenceRelation` | crates/lion-core/src/state/state.rs:701-747 | low-equivalence is reflexive, symmetric and transitive |
| `Noninterference.LowEquivalentExactly` | crates/lion-core/src/state/state.rs:701-747 | two states are low-equivalent if and only if the plugins and resource records no higher than the level are the same in both |
| `Noninterference.AboveExactly` | crates/lion-core/src/step/mod.rs:403-418 | kernel steps are secret, the steps of a registered plugin as high as it is, those of any other public |
| `Noninterference.HighStepInvisibleExactly` | crates/lion-core/src/step/mod.rs:412-431 | a step from above an observer's level is invisible to it if and only if it is not a declassification into its view |
| `Noninterference.PurgingIsInvisible` | crates/lion-core/src/state/state.rs:740-747 | leaving out every step from above the level, when both runs succeed, gives low-equivalent ends, provided no step leaks by declassifying |
| `Noninterference.DeclassifyFreeNeverLeaks` | crates/lion-core/src/step/mod.rs:420-431 | declassify-free lists meet that proviso |
| `WorkflowGraph.SourcesMeaning` | crates/lion-core/src/state/workflow.rs:192-194 | the predecessors of a node are exactly the sources of its incoming edges |
| `WorkflowGraph.TargetsMeaning` | crates/lion-core/src/state/workflow.rs:196-198 | the successors of a node are exactly the targets of its outgoing edges |
| `WorkflowGraph.BuildAdjacency` | crates/lion-core/src/state/workflow.rs:211-232 | the adjacency lists are the edge list filtered by node, in edge order, and the index finds every node |
| `WorkflowGraph.Validated` | crates/lion-core/src/state/workflow.rs:258-281 | fails exactly when an endpoint is not a node, naming the first; otherwise the definition is well formed over the same nodes and edges |
| `WorkflowGraph.DeadlockHasCycle` | crates/lion-core/src/state/workflow.rs:178-180 | a nonempty set of nodes each waiting for another contains a cycle |
| `Workflow.WorkflowInstance.DependenciesSatisfied` | crates/lion-core/src/state/workflow.rs:576-594 | answers yes exactly when no predecessor is left uncompleted |
| `Workflow.WorkflowInstance.Transition` | crates/lion-core/src/state/workflow.rs:597-626 | moves one node and the counters with it |
| `Workflow.WorkflowInstance.StartNode` | crates/lion-core/src/state/workflow.rs:634-669 | performs the specified transition, or the specified error with its list of dependencies and no change |
| `Workflow.WorkflowInstance.CompleteNode` | crates/lion-core/src/state/workflow.rs:676-690 | performs the specified transition and status update, or the error and no change |
| `Workflow.WorkflowInstance.FailNode` | crates/lion-core/src/state/workflow.rs:698-722 | retries while retries are left, else fails node and workflow, or the error and no change |
| `WorkflowSafety.StartNeedsSources` | crates/lion-core/src/state/workflow.rs:628-669 | a node starts if and only if it is pending and all its sources are completed |
| `WorkflowSafety.NewInv` | crates/lion-core/src/state/workflow.rs:433-453 | a fresh instance of a validated definition with fewer than 2^32 nodes satisfies the invariant |
| `WorkflowSafety.RunKeepsInv` | crates/lion-core/src/state/workflow.rs:411-427 | in every reachable instance the counters equal recounts, whatever left Pending has its sources completed, Success means all completed, and a failed node means Failure |
| `WorkflowSafety.PathIsCompleted` | crates/lion-core/src/state/workflow.rs:141-157 | everything before a node that has left Pending, on any path into it, is completed |
| `WorkflowSafety.CycleStaysPending` | crates/lion-core/src/state/workflow.rs:178-180 | no node on a cycle ever leaves Pending |
| `WorkflowSafety.AcceptedSpendPotential` | crates/lion-core/src/state/workflow.rs:634-722 | each accepted start, completion or failure spends exactly one unit of 2*pending + active + 2*retries |
| `WorkflowSafety.RunLengthBound` | crates/lion-core/src/state/workflow.rs:433-453 | so no run accepts more than 2n(1 + min(max_retries, 65535)) of them |
| `WorkflowRetries.FailUsesRetry` | crates/lion-core/src/state/workflow.rs:698-722 | an accepted failure uses up one retry and sends the node back to Pending, status untouched, or with none left fails node and workflow; no other node is touched |
| `WorkflowRetries.FailsAreRetriedExactly` | crates/lion-core/src/state/workflow.rs:698-722 | in any run of a fresh instance the k-th accepted failure of a node is final if and only if k is 1 + min(max_retries, 65535) |
| `WorkflowRetries.StatusExactly` | crates/lion-core/src/state/workflow.rs:676-738 | the status after every event, from the instance before it: Failure on a timeout, on a failure without retries and on the last completion if a node failed; Success on the last completion otherwise; else unchanged |
| `WorkflowRetries.StartRefusal` | crates/lion-core/src/state/workflow.rs:634-669 | a refused start names an unknown node, a node not pending, or exactly the sources not completed |
| `WorkflowRetries.MoveRefusal` | crates/lion-core/src/state/workflow.rs:676-722 | a refused completion or failure names an unknown node, or the state that is not active |
| `WorkflowSafety.MeasureSaturates` | crates/lion-core/src/state/workflow.rs:745-763 | the saturating measure is the exact weight cut once at the end |
| `WorkflowSafety.MeasureDrops` | crates/lion-core/src/state/workflow.rs:740-763 | each accepted event takes exactly 900 or 100 off the weight, and the measure strictly decreases if and only if the weight before it is below the 64-bit maximum plus that amount |
| `WorkflowSafety.MeasureCanStall` | crates/lion-core/src/state/workflow.rs:740-763 | one node and a timeout at the last instant: the start is accepted and the measure stays the same |
| `WorkflowSafety.Progress` | crates/lion-core/src/state/workflow.rs:628-690 | on an acyclic definition, with no failed node and not all completed, some start or completion succeeds |
| `WorkflowSafety.CompletableIffAcyclic` | crates/lion-core/src/state/workflow.rs:178-180 | some run completes every node if and only if the definition has no cycle |
| `WorkflowSafety.FailureIsOverwritten` | crates/lion-core/src/state/workflow.rs:725-738 | a Failure turns into Success exactly on the completion of an active node when every other node is completed |
| `WorkflowSafety.TimeoutIsOverwritten` | crates/lion-core/src/state/workflow.rs:725-738 | so a timeout is not final: a one-node workflow times out while active and ends in Success |

## Left out

- HMAC-SHA256 and constant-time comparison: a MAC is represented by the key and payload it was computed from.
- Threads, the scheduler, thread host functions and `ThreadSwitch`: they only return "not implemented", and are one constructor each here.
- Plugins, actors, resource records and workflows are maps, and the held capabilities and freed addresses sets: their sorted-vector layout is modelled only for the capability table and its index.
- The sort of the ids collected for a fast revocation: membership in the list is tested directly.
- The single-capability revocation and the in-place variant of the naive one: no step uses them, and the first leaves valid children under an invalid parent.
- Actors and key state inside the live state are values that its methods replace; the in-place actor and key objects are modelled beside it, so their aliasing inside the state is not.
- Workflow instances inside the state are reduced to their status, the only part a workflow tick reads.
- Workflow definitions built without validation: with duplicate node ids the result of the index search is unspecified.
- A key rotation past the last epoch aborts; what the kernel does after an abort is left out, so the results on seals are stated for histories that rotate no more often than epochs are left.
- StepChecks.AllocationCharges: stated for fewer than 2^64 resources, which the 64-bit length of the map implies.
- Resources.AllocKeepsInv: its fresh-address part likewise.
- Noninterference.PurgingIsInvisible: termination-insensitive, as the project states it: both runs are taken to succeed.
- Overflow of 32-bit workflow counters aborts in debug builds and wraps in release builds; the model wraps, and the invariant is stated for fewer than 2^32 nodes, where neither happens.
- The kernel-state core with its plugin and resource metadata, event logs, hashes, formatting and serialisation for transport: they repeat the structures above or have no behaviour to prove.
