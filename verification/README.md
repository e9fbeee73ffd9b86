# Aegis microkernel: verified mechanism cores

Aegis is a capability-first ARM64 teaching microkernel. This project models the
state machines it is built from and proves what they guarantee over every run:
the LeaseTree capability system, synchronous rendezvous IPC, the round-robin
scheduler with its context switch, the physical frame allocator, and the live
runtime that composes capabilities and IPC.

Each mechanism comes in three layers.

- A value model (`CapabilityModel`, `IpcModel`, `SchedulerModel`, `FrameModel`,
  `RuntimeModel`): the state as a datatype, each operation as a function to the
  new state and a result, error paths and their partial updates included, and
  runs as sequences of operations. The theorems about reachable states and whole
  runs are stated here.
- A class that updates arrays in place as the kernel does (`Capability.dfy`,
  `Ipc.dfy`, `Scheduler.dfy`, `FrameAllocator.dfy`, `Runtime.dfy`, and `Core` in
  `ContextSwitch.dfy`), whose methods are proved to compute the functions of the
  value model. Where the specification is simpler than the code, the proof is
  where the work is: `Revoke` is specified by the derivation relation and
  implemented by a walk over a table it is killing nodes in; `Allocate` is
  specified as a search from index 0 and implemented as a circular search from a
  hint over a bitmap; the endpoint queues are sequences implemented as ring
  buffers.

- A reference machine for the four mechanisms that shares none of the kernel's
  representation, and a theorem that after every run from the initial state each
  operation answers as the reference does, errors and counts included.
  `LeaseTree`: leases that name the slot they were let from, with rights compared
  one bit at a time, and no nodes, generations or references. `IpcDesk`: endpoints
  that queue whole messages, and no thread states; a thread may act when it stands
  in no queue and waits for no reply. `SchedulerRoster`: a growing list of tasks
  with unbounded charge counts, and no ring. `FramePool`: a set of free page
  addresses, and no indices, bitmap or hint. `IpcMail` tells what a thread finds in
  its inbox from the operations and their answers alone.

`dafny verify dfyconfig.toml` checks everything.

Conventions. The table sizes are parameters of any value. A node index is stored
in 16 bits, so the node table has at most 65536 entries. Generations wrap at 16
bits; tick counters and frame addresses wrap at 64 bits, as the release profile
compiles them. Rights are an 8-bit vector. Names differ from the source only in
case, except `obj` for a capability's object and `tag` for a message label.

Where documents and code disagree, the model follows the code. The architecture
notes say that a rendezvous makes both threads runnable; a caller stays blocked
until the reply. They say that generation counters keep stale references from
becoming valid again; `StaleStaysStale` states the exact bound,
`StaleBoundIsReached` that it is reached, and `StampRun` why the wrap-around is
harmless for every stored reference.

Four properties one might expect are false of the code, and are stated exactly.

- A caller waiting for a reply is not always known to its server:
  `SecondCallForgetsFirst` is the counterexample, `NamedExactly` the condition.
- A frame address does not always lead back to its frame, because `new` accepts a
  region that runs past the end of the 64-bit address space: `WrappedRegionFails`
  is the counterexample, `RegionRoundTrip` the condition on the arguments of
  `new`, and `WrappedFrameIsLost` the consequence.
- A user step does not always belong to a task: after a timer interrupt that finds
  nothing runnable the interrupted program continues while no task is current.
  `StrandedStepIsLost` is the counterexample, `UserStepsOwnedExactly` the
  condition, and `IdleForEver` the consequence.
- The tick counters do not always add up to the busy schedule calls, because each
  wraps at 64 bits: `TicksWrap` is the counterexample, `TicksAddUp` the condition.

## Model

| member | source | states |
|---|---|---|
| `CapabilityModel.RunInv` | src/capability.rs:77-124 | every run of create_root, mint and revoke, failing steps included, keeps: slots name distinct live nodes of matching generation, every live node sits in a slot, parents are live with GRANT, the same object and at least the child's rights, and parent links are acyclic although indices are reused |
| `CapabilityModel.StepEffect` | src/capability.rs:93-165 | every operation changes nothing, fills exactly one dead node under an attenuating live parent, or removes exactly one whole subtree |
| `CapabilityModel.FirstDead` | src/capability.rs:205-210 | the node chosen by allocate is the lowest dead one, and there is none only when all are live |
| `CapabilityModel.DescendsUnfold` | src/capability.rs:221-241 | descent from a node is being the node or descent from its parent, in both directions |
| `CapabilityTheorems.ChainLength` | src/capability.rs:221-241 | a derivation chain of n links visits n + 1 distinct nodes, so n is below the table size and the depth cut-off of the ancestor walk never fires |
| `CapabilityTheorems.NoCycle` | src/capability.rs:221-241 | no live node is its own ancestor |
| `CapabilityTheorems.ReachableForest` | src/capability.rs:199-241 | in every reachable state live parents are live with matching generation, there is no cycle, chains are shorter than the table, and every live node descends from a live root |
| `CapabilityTheorems.ReachableSlotsMatchNodes` | src/capability.rs:93-165 | in every reachable state there are as many occupied slots as live nodes |
| `CapabilityTheorems.NeverStale` | src/capability.rs:107-197 | after any run no public operation reports Stale |
| `CapabilityTheorems.RevokeCounts` | src/capability.rs:145-164 | revocation removes exactly the reported number of nodes and the same number of slots, at least one |
| `CapabilityTheorems.RevokeExact` | src/capability.rs:140-165 | a held reference stays current, and stays in its slot, if and only if it does not descend from the revoked one |
| `CapabilityTheorems.RevokeKeepsDerivations` | src/capability.rs:141-165 | after a revocation exactly the derivations of surviving nodes remain, at the same distances |
| `CapabilityTheorems.RunDerived` | src/capability.rs:93-165 | in every run that creates no root inside the task set and mints nothing into it from outside, whatever happens outside, each capability held inside has a lineage, held inside throughout, to one held inside at the start and still held |
| `CapabilityTheorems.Confinement` | src/capability.rs:106-124 | authority confinement: that ancestor has the same object and at least the rights, every ancestor on the way carries GRANT, and nothing outside the set can change this |
| `CapabilityTheorems.LineageNarrows` | src/capability.rs:106-124 | along a lineage of any length the object is kept and rights only shrink |
| `CapabilityTheorems.Provenance` | src/capability.rs:93-124 | every live node's object and rights trace to a successful create_root of the run for the same object with at least those rights |
| `CapabilityTheorems.RunGeneration` | src/capability.rs:148-149 | a node's generation is its old one advanced, with wrap-around, once per kill in the run |
| `CapabilityTheorems.StaleStaysStale` | src/capability.rs:188-197 | a reference resolves again only if its node is live and was killed a multiple of 65536 times since; after 1 to 65535 kills it is always stale |
| `CapabilityTheorems.StaleBoundIsReached` | src/capability.rs:148-149 | the bound is tight: after 65536 rounds of revoking and recreating, a reference taken at the start resolves again |
| `CapabilityTheorems.StampRun` | src/capability.rs:147-163 | with unbounded kill counts beside the wrapping generations: in every reachable state each slot and each live parent link holds a reference made since the last kill of its node, so none survives a wrap-around |
| `CapabilityTheorems.StampCountsKills` | src/capability.rs:147-150 | those counts are the numbers of kills in the run |
| `LeaseTree.ContainsIsCovers` | src/capability.rs:32-34 | the mask test holds iff each of the eight rights, read by shifting, that is requested is also possessed |
| `LeaseTree.GrantIsOneRight` | src/capability.rs:24-34 | containing GRANT is possessing right number 2 |
| `LeaseTree.DescendsIsLet` | src/capability.rs:221-241 | descent between nodes over n generation-checked links is letting between the slots that hold them over n sublets, in both directions |
| `LeaseTree.StepAgrees` | src/capability.rs:93-165 | from matching states each operation gives the answer of the lease table and leads to matching states |
| `LeaseTree.LeaseTreeAnswers` | src/capability.rs:93-165 | after any run every create_root, mint, revoke and resolve answers as the lease table: each error in its order, OutOfNodes iff there are as many leases as nodes, the number of leases a revocation ends, object and rights of a resolve |
| `LeaseTree.RevokeSucceedsExactly` | src/capability.rs:140-165 | revoke succeeds iff the slot is occupied, and otherwise reports which of bad task, bad slot and empty slot it is |
| `LeaseTree.ReachableRevokeSucceedsExactly` | src/capability.rs:140-165 | the same after any run from the empty system |
| `LeaseTree.ResolveSucceedsExactly` | src/capability.rs:126-138 | after any run resolve succeeds iff the slot is occupied and the node it names has each required right |
| `LeaseTree.MintSucceedsExactly` | src/capability.rs:107-124 | after any run minting from an occupied slot into a free one succeeds iff some node is dead and the source has GRANT and each requested right |
| `Capability.CapabilitySystem.constructor` | src/capability.rs:86-91 | the new system is the empty state and satisfies the invariant |
| `Capability.CapabilitySystem.CreateRoot` | src/capability.rs:93-104 | the in-place method takes the state to the modelled one, with the same result, and keeps the invariant |
| `Capability.CapabilitySystem.Mint` | src/capability.rs:107-124 | the same for mint, with its order of checks |
| `Capability.CapabilitySystem.Resolve` | src/capability.rs:126-138 | the same for resolve |
| `Capability.CapabilitySystem.Lookup` | src/capability.rs:177-186 | cap_at reports a bad task, a bad slot, an empty slot or the stored reference |
| `Capability.CapabilitySystem.CheckFree` | src/capability.rs:167-175 | check_destination reports a bad task, a bad slot or an occupied slot |
| `Capability.CapabilitySystem.Dereference` | src/capability.rs:188-197 | resolve_ref succeeds exactly for a live node of matching generation |
| `Capability.CapabilitySystem.Allocate` | src/capability.rs:199-219 | fills the lowest dead node, keeps its generation, fails exactly when all nodes are live |
| `Capability.CapabilitySystem.IsDescendantOrSelf` | src/capability.rs:221-241 | the walk over a table in which other nodes have already been killed answers descent in the table before revocation, and the cut-off never decides |
| `Capability.CapabilitySystem.KillSubtree` | src/capability.rs:145-152 | the mutating loop kills exactly the subtree of the target in the pre-state and counts it |
| `Capability.CapabilitySystem.ClearSlots` | src/capability.rs:154-163 | the second loop empties exactly the slots that name killed nodes |
| `Capability.CapabilitySystem.Revoke` | src/capability.rs:140-165 | revoke kills exactly the descendants-or-self, leaves every other node and slot unchanged, and returns their number |
| `IpcTheorems.RunCoherent` | src/ipc.rs:124-212 | in every reachable state a thread is in the sender (receiver) queue of an endpoint, once, iff it is Sending (Receiving) there, no endpoint has both queues non-empty, reply targets are blocked on their server, and waiting for replies is acyclic |
| `IpcTheorems.NeverQueueFull` | src/ipc.rs:60-68 | no run ever reports QueueFull or pairs a thread with itself |
| `IpcTheorems.ReplyCoherent` | src/ipc.rs:197-212 | reply succeeds exactly for a runnable server with a recorded target: the second check never fails |
| `IpcTheorems.NoWaitCycle` | src/ipc.rs:160-165 | in every reachable state no circle of threads waits for one another's replies, and following servers from any thread ends in fewer steps than there are threads at one that waits for no reply |
| `IpcHistories.FifoPairing` | src/ipc.rs:124-195 | in every run and interleaving the k-th accepted send or call on an endpoint meets the k-th accepted receive with exactly its message, and the surplus side is what is queued, in order |
| `IpcHistories.NamedOnce` | src/ipc.rs:197-208 | no caller is the reply target of two servers |
| `IpcHistories.OrphanForever` | src/ipc.rs:197-212 | a caller whose server has forgotten it stays blocked in every continuation |
| `IpcHistories.StepNamed` | src/ipc.rs:160-162 | one operation keeps every waiting caller named iff it does not hand a call to a thread that owes a reply |
| `IpcHistories.NamedExactly` | src/ipc.rs:182-185 | over a whole run every waiting caller is still named by its server iff no step handed a call to a thread that owed a reply |
| `IpcHistories.RepliesFirstNamed` | src/ipc.rs:174-195 | if receive is only invoked by threads holding no reply target, every waiting caller is always named |
| `IpcHistories.SecondCallForgetsFirst` | src/ipc.rs:182-185 | a concrete run in which a server forgets its first caller, which then waits in every continuation |
| `IpcHistories.ReplyLedger` | src/ipc.rs:148-212 | conservation: in every run the calls handed to a server are those it answered, plus those lost to a later hand-over, plus the one it still owes |
| `IpcHistories.TargetIsLastCaller` | src/ipc.rs:162-185 | in every run the recorded reply target of a server is the caller of the last call handed to it |
| `IpcHistories.ReplyGoesToLastCaller` | src/ipc.rs:197-212 | in every run a successful reply goes to exactly that caller, which was blocked on this server, wakes it and leaves it the reply |
| `IpcMail.OutgoingIsLastOffer` | src/ipc.rs:140-171 | in every run a blocked sender keeps the message of its last accepted send or call |
| `IpcMail.InboxIsMail` | src/ipc.rs:124-216 | in every run an inbox holds what the operations and answers say was passed to the thread last, and nothing after a take |
| `IpcMail.TakeGivesMail` | src/ipc.rs:214-216 | in every run take_message returns that message, every field of it, and nothing if none was passed since the last take |
| `IpcDesk.IdleIsRunnable` | src/ipc.rs:222-229 | a thread is runnable iff it stands in no queue and waits for no reply |
| `IpcDesk.StepAgrees` | src/ipc.rs:124-216 | from matching states each operation gives the answer of the desk and leads to matching states |
| `IpcDesk.DeskAnswers` | src/ipc.rs:124-216 | after any run every send, call, receive, reply and take_message answers as the desk: each error in its order, the peer, the message |
| `IpcEquivalence.StepAlike` | src/ipc.rs:124-216 | states that agree except on the outgoing message and call mark of non-sending threads give every operation the same answer and stay so |
| `IpcEquivalence.EitherOrder` | src/ipc.rs:124-195 | sender first and receiver first, for send and for call, reach such states, with matching peers |
| `IpcEquivalence.OrderIsInvisible` | src/ipc.rs:124-195 | no continuation of any length can tell which side came first |
| `IpcMachine.Queue.Push` | src/ipc.rs:60-68 | the ring buffer appends, or reports QueueFull exactly when full |
| `IpcMachine.Queue.Pop` | src/ipc.rs:70-78 | the ring buffer removes the oldest entry, or returns nothing when empty |
| `IpcMachine.RendezvousIpc.constructor` | src/ipc.rs:117-122 | all threads runnable, all queues empty and in separate storage |
| `IpcMachine.RendezvousIpc.Send` | src/ipc.rs:124-146 | the in-place method takes the state to the modelled one on every path, including the call mark left by a bad endpoint |
| `IpcMachine.RendezvousIpc.Call` | src/ipc.rs:148-172 | the same for call |
| `IpcMachine.RendezvousIpc.Receive` | src/ipc.rs:174-195 | the same for receive |
| `IpcMachine.RendezvousIpc.Reply` | src/ipc.rs:197-212 | the same for reply, which spends the target before its second check |
| `IpcMachine.RendezvousIpc.TakeMessage` | src/ipc.rs:214-216 | empties the inbox and returns what was in it |
| `IpcMachine.RendezvousIpc.CheckRunnable` | src/ipc.rs:222-229 | ensure_runnable tells an unknown thread from one that is not runnable |
| `SchedulerModel.Pick` | src/scheduler.rs:94-105 | the chosen task is runnable and no runnable task lies before it in the ring; none is chosen only if none is runnable |
| `SchedulerTheorems.BoundedWaiting` | src/scheduler.rs:88-125 | whatever operations are interleaved, a task that stays runnable is chosen within as many schedule calls as there are task slots, and no other task is chosen twice before it |
| `SchedulerTheorems.UndisturbedStays` | src/scheduler.rs:110-125 | a runnable task that is neither blocked nor faulted stays runnable through any run |
| `SchedulerTheorems.WokenIsChosen` | src/scheduler.rs:88-121 | any used task, blocked or faulted before, that is woken and then neither blocked nor faulted is chosen within as many schedule calls as there are task slots |
| `SchedulerTheorems.AsleepIsNotChosen` | src/scheduler.rs:88-125 | after a block or a fault a task is not chosen, whatever else happens, until it is woken |
| `SchedulerTheorems.FairTurns` | src/scheduler.rs:88-108 | over any run in which two tasks stay runnable the numbers of ticks charged to them differ by at most one, and by how much is decided by their ring order before and after |
| `SchedulerTheorems.TickGrowth` | src/scheduler.rs:88-93 | over any run segment the counter of a task in use grows, with 64-bit wrap-around, by exactly the charges made to it |
| `SchedulerTheorems.TicksAreCharges` | src/scheduler.rs:74-93 | a task's counter is the number of its charges since boot, with 64-bit wrap-around |
| `SchedulerTheorems.TicksAddUp` | src/scheduler.rs:88-93 | all counters together equal the number of schedule calls made while the current task was runnable if and only if no single counter has wrapped, that is, no task was charged 2^64 times |
| `SchedulerTheorems.TicksWrap` | src/scheduler.rs:88-93 | a run from boot in which they do not: after 2^64 charges to the only task its counter reads zero while 2^64 busy schedule calls were made |
| `SchedulerRoster.PickIsNext` | src/scheduler.rs:94-105 | the search of the ring finds the lowest runnable task above the current one, or else the lowest runnable task |
| `SchedulerRoster.StepAgrees` | src/scheduler.rs:74-166 | from matching states each operation gives the answer of the roster and leads to matching states |
| `SchedulerRoster.RosterAnswers` | src/scheduler.rs:74-166 | after any run every operation answers as the roster: new tasks are numbered in order, BadTask iff the task was never spawned, a switch names the task that was current and the next one; and each task has the state, the context and the ticks the roster has for it |
| `SchedulerMachine.Scheduler.Spawn` | src/scheduler.rs:74-86 | takes the lowest unused slot, or fails when there is none |
| `SchedulerMachine.Scheduler.Search` | src/scheduler.rs:95-105 | the circular loop finds the first runnable task from the start position |
| `SchedulerMachine.Scheduler.Schedule` | src/scheduler.rs:88-108 | charges the current task when runnable, then switches to the first runnable task after it, or idles |
| `SchedulerMachine.Scheduler.SetState` | src/scheduler.rs:159-166 | block and fault on an unused or unknown task fail and change nothing |
| `SchedulerMachine.Scheduler.Wake` | src/scheduler.rs:114-121 | wake makes any used task runnable |
| `SchedulerMachine.Scheduler.SaveContext` | src/scheduler.rs:146-157 | replaces the context of a used task only |
| `SchedulerMachine.Scheduler.Context` | src/scheduler.rs:139-144 | the saved context of a used task |
| `ContextSwitch.TimerIsQuiet` | src/main.rs:262-297 | a timer switch changes no task's context, even when nothing is left to run |
| `ContextSwitch.RefinesPrivateCpus` | src/main.rs:262-297 | every run of user steps, timer interrupts, spawns, blocks, wakes and faults on the one register file is, for the tasks' contexts, a run of a machine in which each task has registers of its own; user steps taken while no task is current change no task's context |
| `ContextSwitch.UserStepsOwnedExactly` | src/main.rs:274-297 | starting with a current task, every user step counts for the task whose program executes it if and only if no user code runs after a timer interrupt that found no runnable task |
| `ContextSwitch.RefinesOwnedCpus` | src/main.rs:262-297 | such runs are runs of private CPUs in which every user step is a step of its own task |
| `ContextSwitch.RunnableRefinesOwnedCpus` | src/main.rs:262-297 | as long as some task stays runnable no timer interrupt comes up empty and this refinement holds |
| `ContextSwitch.CurrentIsExecuting` | src/main.rs:274-285 | the scheduler's current task is the one executing until a timer interrupt finds nothing runnable, and none ever after |
| `ContextSwitch.IdleForEver` | src/main.rs:274-276 | once no task is current none ever is: nothing is resumed, even after a wake, and no context changes, in every continuation |
| `ContextSwitch.StrandedStepIsLost` | src/main.rs:283-285 | a run from the boot state in which both tasks are blocked, the interrupted program keeps executing after the timer, and what it computes reaches no context, then or later |
| `ContextSwitch.TimerBoundedWaiting` | src/main.rs:274-285 | with a current task, a task that stays runnable is resumed within as many timer interrupts as there are task slots and no other twice before it; from an idle machine it never is |
| `ContextSwitch.ResumesWhereInterrupted` | src/main.rs:274-295 | a task that runs again finds the 31 registers, SP, ELR, SPSR and TTBR0 it was interrupted with, whatever ran meanwhile |
| `ContextSwitch.SwitchesExactly` | src/main.rs:274-285 | the switch succeeds iff a task is current and some task is runnable, and its answer is the task that was current and the task that now is |
| `ContextSwitch.MachineRunsScheduler` | src/main.rs:262-297 | in every run of the machine the scheduler is where its own operations, one or two per event, take it |
| `ContextSwitch.Core.ScheduleLowerFrame` | src/main.rs:262-297 | the save, schedule and restore sequence on the exception frame and system registers takes the machine to the modelled state |
| `ContextSwitch.InitializeLiveScheduler` | src/main.rs:190-217 | both tasks get the expected ids and are runnable, and the first is chosen: the assertions at boot hold |
| `FrameModel.HintAgrees` | src/memory.rs:48-60 | after any run a search from the hint finds what a search from index 0 finds |
| `FrameModel.LowestFree` | src/memory.rs:49-51 | the frame found is the lowest free one, and none is found only when all are used |
| `FrameModel.FirstFit` | src/memory.rs:48-60 | the frame whose address is returned was free and every frame below it was used |
| `FrameModel.ReachableFirstFit` | src/memory.rs:48-60 | the same after any run of allocations, reservations and frees |
| `FrameModel.AllocateConserves` | src/memory.rs:48-60 | allocation fails iff nothing is available and otherwise takes exactly one frame |
| `FrameModel.ReserveConserves` | src/memory.rs:62-75 | reservation lowers `available` by the frames of the range that were free; a failing one changes nothing |
| `FrameModel.FreeConserves` | src/memory.rs:77-87 | a successful free raises `available` by one; a failing one changes nothing |
| `FrameModel.ReserveSucceedsExactly` | src/memory.rs:62-75 | reserve succeeds iff the start is aligned and in the region and the range ends within it; Unaligned iff the start is unaligned, OutOfRange otherwise |
| `FrameModel.FreeSucceedsExactly` | src/memory.rs:77-87 | free succeeds iff the address is that of a used frame, OutOfRange iff it is unaligned or outside the region, DoubleFree otherwise |
| `FrameModel.AddressRoundTrip` | src/memory.rs:54-56 | a frame's address leads back to the frame iff it does not wrap around 64 bits, and is out of range otherwise |
| `FrameModel.RegionRoundTrip` | src/memory.rs:28-46 | every frame of a region can be named by its address if and only if base plus size is at most 2^64 |
| `FrameModel.WrappedRegionFails` | src/memory.rs:28-60 | a two-frame region that `new` accepts, whose second frame is handed out at address 0 and cannot be freed |
| `FrameModel.WrappedFrameIsLost` | src/memory.rs:77-105 | a used frame whose address wraps stays used in every continuation |
| `FrameModel.IndexRoundTrip` | src/memory.rs:95-105 | every address that names a frame is that frame's address |
| `FrameModel.NoDoubleHandout` | src/memory.rs:48-87 | in any run a frame that was in use, by allocation or reservation, is handed out again only after a successful free of its address |
| `FrameModel.TakenIsUsed` | src/memory.rs:48-75 | a successful allocation puts exactly one free frame in use and returns its address; a successful reservation puts exactly the frames of its range in use |
| `FrameModel.FreeUndoesAllocate` | src/memory.rs:77-87 | freeing a just-allocated frame succeeds iff its address does not wrap; it then restores the used set and the next allocation returns the same frame |
| `FramePool.StepAgrees` | src/memory.rs:48-87 | from matching states each operation gives the answer of the pool and leads to matching states |
| `FramePool.PoolAnswers` | src/memory.rs:48-93 | after any run allocate returns the lowest free page address cut to 64 bits, reserve and free answer as the pool of free addresses does, and available is its size |
| `Bits.WithBitAt` | src/memory.rs:111-118 | writing one bit of a word changes that bit and no other |
| `Bits.MarkOne` | src/memory.rs:107-118 | writing one bit of the bitmap changes that bit and no other, across all words |
| `FrameAllocatorMachine.NewAllocator` | src/memory.rs:28-46 | the alignment and size errors, and otherwise an allocator with every frame free and every padding bit set |
| `FrameAllocatorMachine.FrameAllocator.FindFree` | src/memory.rs:49-51 | the circular search from the hint over the bitmap finds the lowest free frame |
| `FrameAllocatorMachine.FrameAllocator.Allocate` | src/memory.rs:48-60 | refines the plain search from index 0 and keeps the padding bits set |
| `FrameAllocatorMachine.FrameAllocator.Reserve` | src/memory.rs:62-75 | refines adding the range to the used set, with its errors |
| `FrameAllocatorMachine.FrameAllocator.Free` | src/memory.rs:77-87 | refines removing the frame, detects double frees and pulls the hint back |
| `FrameAllocatorMachine.FrameAllocator.CountAvailable` | src/memory.rs:89-93 | counts the free frames |
| `FrameAllocatorMachine.FrameAllocator.ToIndex` | src/memory.rs:95-105 | rejects unaligned addresses and addresses outside the region |
| `Syscall.AuthorizationIsTyped` | src/syscall.rs:49-83 | each authorization succeeds exactly for a capability of its own type with the required rights |
| `Syscall.AuthorizationErrors` | src/syscall.rs:49-83 | after any run a failing authorization reports a bad task, a bad slot, an empty slot or missing rights, decided by what the slot holds and never Stale, or a wrong object type exactly when the slot grants an object of another type |
| `Syscall.AuthorityComesFromRoots` | src/syscall.rs:49-83 | after any run, whatever a slot authorizes was created by a successful create_root of the same object carrying the required rights |
| `Syscall.SandboxGainsNothing` | src/syscall.rs:49-83 | tasks that could not use an object before a run that creates no root inside their set and mints nothing into it from outside cannot use it after |
| `RuntimeModel.BootstrapGrants` | src/runtime.rs:60-86 | bootstrap succeeds and builds exactly the two derivation trees of the demo |
| `RuntimeModel.RendezvousDelivers` | src/runtime.rs:99-109 | the byte the app passes is the byte the console finds |
| `RuntimeModel.RevokeKillsTwo` | src/runtime.rs:122 | revoking root's endpoint kills exactly two nodes |
| `RuntimeModel.StepFollows` | src/runtime.rs:88-124 | the runtime answers and moves as a three-phase protocol |
| `RuntimeModel.NoIpcError` | src/runtime.rs:88-124 | no sequence of calls surfaces an IPC error |
| `RuntimeModel.ReleasedOnce` | src/runtime.rs:88-124 | in every sequence of calls a released byte is that of the one successful app call, comes with 2 revoked nodes, is the only one, and every later app call fails with EmptySlot |
| `RuntimeMachine.Runtime.Bootstrap` | src/runtime.rs:60-86 | the in-place method follows the model, early returns included |
| `RuntimeMachine.Runtime.AppCall` | src/runtime.rs:88-112 | the same for app_call |
| `RuntimeMachine.Runtime.ConsoleReplyAndRevoke` | src/runtime.rs:114-124 | the same for console_reply_and_revoke |
| `RuntimeMachine.EndpointFor` | src/syscall.rs:49-59 | authorize_endpoint on the live tables |
| `RuntimeMachine.MmioFor` | src/syscall.rs:73-83 | authorize_mmio on the live tables |

## Left out

- `src/interrupt.rs`, `src/boot.S`, `src/vectors.S`, `src/user.S`, `linker.ld`: device registers, assembly and memory layout.
- UART output, self-tests, the panic handler and exception reports in `src/main.rs`.
- `lower_sync_dispatch`: it redirects SP and ELR to fixed labels outside the scheduler; runs of the context-switch model do not contain it.
- `src/paging.rs`: page-descriptor bits and the address-space mapping list are not modelled.
- `Syscall::try_from` and the error conversions: single-branch tables.
- Capability transfer during IPC: messages carry `capability_slot`, but no code acts on it.
- Node tables of more than 65536 entries: their indices do not fit the 16-bit reference.
- Overflow checks of the debug profile: additions wrap as in the release profile.
- `Rights::union`, the READ and CONTROL constants, and the accessors `state`, `runtime_ticks` and `current` are not modelled.
- The global cells and atomics: the kernel is single-core, so the owned state is modelled directly.
