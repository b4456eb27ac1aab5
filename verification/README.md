# Twan: verified models of its locks, allocators, timers, queues and cross-processor protocols

Twan is a separation kernel: a real-time kernel and the hypervisor Twanvisor below it. This project models
the algorithms of it that carry the hardest invariants, and proves what they promise. `dafny verify
dfyconfig.toml` checks everything.

Code that runs concurrently is modelled as a step machine over any number of threads, processors or vcpus:
an atomic operation, or a section under a lock, is one step, and every interleaving of steps is a run. What
is proved holds in every state that a run can reach. Code that runs under one lock is modelled as classes
whose methods follow the source statement by statement, specified by functions and predicates about which
the main lemmas speak.

| file | what it models |
|---|---|
| `RwLock.dfy` | the phase-fair reader/writer lock, first with unbounded counters, then with the 32-bit words that encode them |
| `McsLock.dfy` | the MCS queue lock, plain and paravirtual, with the hypervisor's pause and kick |
| `TlbShootdown.dfy` | the TLB shootdown between physical processors |
| `InterruptDelivery.dfy` | pending interrupts, the injection decision at VM entry, window exits and EOIs |
| `Subscription.dfy` | subscriptions to external vectors and the dispatch queue |
| `Teardown.dfy` | termination of a partition's vcpus and its counting |
| `IpiMailbox.dfy` | the kernel's cross-processor calls |
| `Bits.dfy`, `Bmp256.dfy`, `Seqs.dfy`, `Links.dfy`, `Dq.dfy` | machine words and their bit scans, 256-bit sets, linked lists, the intrusive deque |
| `TlsfClasses.dfy`, `FreeLists.dfy`, `TlsfBlocks.dfy`, `TlsfHeap.dfy`, `TlsfRejection.dfy` | the two-level segregated-fit allocator |
| `BuddyTree.dfy`, `BuddyArena.dfy` | the buddy allocator |
| `DeltaChain.dfy`, `VirtualTimers.dfy` | the delta chain, and virtual timers multiplexed onto the VMX-preemption timer |
| `RunQueue.dfy` | the mixed-criticality run queue with aging |

Where the code does not do what one would expect of it, the model follows the code, shows the input and
gives the exact condition:

- the reader/writer lock excludes if and only if fewer than 2^24 readers and at most 2^32 writers are inside
  at once (`RwLock.ExclusionExactly`);
- the buddy arena claims memory it was not given unless the trimmed size is a power of two
  (`BuddyArena.Arena.Init`, `BuddyArena.ThreePagesOverclaimed`);
- a TLSF request fails although a large enough block is free when a smaller block comes first in the class
  that the request rounds up to (`TlsfHeap.Heap.Alloc`, `TlsfRejection.RejectedDespiteRoom`), and a TLSF heap whose
  end is not a multiple of four is not tiled (`TlsfHeap.Heap.Init`);
- the TLSF size map is monotone on the sizes up to a bound if and only if the bound is at most the ceiling of
  its last class (`TlsfClasses.MonotoneExactly`);
- a vector whose injection a VM exit cuts short is pending again with its level still in service; the level
  stays in service, and the vector undeliverable, exactly until the vcpu's own end of interrupt for that level,
  whatever is injected or ended at other levels and on other vcpus (`InterruptDelivery.RependedWaitsForEoi`,
  `InterruptDelivery.StuckUntilEnd`, `InterruptDelivery.FreedByItsEnd`);
- a timer inserted with zero ticks makes the tick that fires it count for nobody else
  (`DeltaChain.FiresIffNoneWasted`);
- a priority that comes to the top of the aging set has its 2 h + 1 turns if and only if the count has not passed
  2 h by then; otherwise it stays until the count has wrapped around (`RunQueue.LeavesInTurn`,
  `RunQueue.TurnsOvershot`);
- a partition is finalised more than once if and only if a teardown call that terminated nobody adds its zero
  after all vcpus have been counted (`Teardown.FinalisedOnceExactly`, `Teardown.FinalisedTwice`).

Assumptions taken from the code's own callers: a TLSF struct is zeroed before it is initialised and its heap
is below 2^32 bytes; frees name live blocks; an alignment asked for is positive; addresses do not wrap; a
partition has at least one vcpu, none of them told to terminate, as its creation checks; a task's priority
and criticality do not change while it is queued; fewer than 2^24 readers and at most 2^32 writers are
inside a reader/writer lock at once.

## Model

| member | source | states |
|---|---|---|
| RwLock.StepInv | src/subsys/sync/rwlock.c:15-44 | with unbounded counters, every step keeps tickets distinct and in turn, the drain target equal to the departures still due plus those counted, and the open phase tied to the one writer that opened it |
| RwLock.Refines | src/subsys/sync/rwlock.c:15-44 | one step of the 32-bit words is one step of the unbounded lock, encoded, as long as fewer than 2^24 readers and at most 2^32 writers are inside |
| RwLock.RunRefines | src/subsys/sync/rwlock.c:15-44 | so every admissible run of the words is a run of the unbounded lock |
| RwLock.Exclusion | src/subsys/sync/rwlock.c:15-44 | a writer in its critical section excludes every reader and every other writer, in every reachable state of any number of threads, with wrapping counters |
| RwLock.PhaseFairness | src/subsys/sync/rwlock.c:15-38 | while a reader spins at most one write phase completes, and the phase bits it waits on never come back unseen once they have changed |
| RwLock.NoDeadlock | src/subsys/sync/rwlock.c:15-44 | in every reachable state with a thread inside, some thread has a step that is neither a failed poll nor a new arrival |
| RwLock.ReaderLimitIsExact | src/subsys/sync/rwlock.c:15-38 | with k readers inside, a late writer gets in if and only if k is a multiple of 2^24 |
| RwLock.ExclusionLostAtLimit | src/subsys/sync/rwlock.c:15-38 | 2^24 readers and a writer are in their critical sections together |
| RwLock.ExclusionExactly | src/subsys/sync/rwlock.c:15-44 | with at most R readers and W writers inside, at least one of each allowed, all runs of any number of threads are exclusive if and only if R < 2^24 and W <= 2^32 |
| McsLock.StepInv | src/subsys/sync/mcslock.c:17-133 | every step keeps the queue of tail exchanges, the links, the flags and the pause state in agreement |
| McsLock.MutualExclusion | src/subsys/sync/mcslock.c:17-133 | at most one thread is between acquiring and handing over |
| McsLock.Fifo | src/subsys/sync/mcslock.c:17-41 | the lock is acquired in the order in which the tail was exchanged |
| McsLock.NodeLifetime | src/subsys/sync/mcslock.c:48-133 | a step touches another thread's node only if that thread is its direct neighbour in the queue and has not left its unlock |
| McsLock.SuccessorCanLink | src/subsys/sync/mcslock.c:27-41 | an unlocker waiting for its next pointer has a successor that has stored it or can store it |
| McsLock.Progress | src/subsys/sync/mcslock.c:48-133 | no lost wake-up: while anyone queues, some thread has a step that is not a failed poll, also when the new owner sleeps in the hypervisor |
| McsLock.PauseSleeps | src/subsys/sync/mcslock.c:77-83 | a waiter that gives up spinning is asleep two steps later, unless a kick has come before, which the attempt uses up |
| McsLock.SleepsUntilKicked | src/subsys/twanvisor/vemulate/vemulate_utils.c:665-686 | asleep, it takes no step of its own, and wakes by the first kick of its processor and by nothing else |
| McsLock.KickKept | src/subsys/twanvisor/vemulate/vemulate_utils.c:665-686 | a kick of a processor that does not sleep is kept until its next attempt to sleep |
| McsLock.UnlockAdvances | src/subsys/sync/mcslock.c:101-133 | an unlock returns: each own step but a look for a link not stored yet brings it nearer, nobody else's sets it back; a linked successor is the second in the queue and gets the lock at once |
| McsLock.AloneInAndOut | src/subsys/sync/mcslock.c:48-133 | without contention a thread is in with two steps and out with two, and leaves the lock as it was |
| TlbShootdown.StepInv | src/subsys/twanvisor/vemulate/vemulate_utils.c:287-354 | every step of every shootdown, entry and exit, with announcements before, between and after the flush and the VM entry, keeps the invariant that a vcpu with an unflushed announcement has its flush flag set, is flushing on its way in, or is not in the guest |
| TlbShootdown.ShootdownSafety | src/subsys/twanvisor/vemulate/vemulate_utils.c:287-354 | once a shootdown has returned, every vcpu of the partition that executes guest code has flushed since it was told |
| TlbShootdown.FlaggedGuestHasIpi | src/subsys/twanvisor/vportal/venter.c:33-72 | a vcpu in guest mode with its flush flag set has an interrupt in flight |
| TlbShootdown.WaitMakesProgress | src/subsys/twanvisor/visr/visr_index.c:99-158 | a processor that a shootdown waits for always has an enabled step of its own towards the acknowledgement |
| TlbShootdown.AwaitMoves | src/subsys/twanvisor/vemulate/vemulate_utils.c:347-353 | the second pass moves past a processor as soon as it has acknowledged, and ends with the last |
| TlbShootdown.WorkStep | src/subsys/twanvisor/vemulate/vemulate_utils.c:287-354 | every step of a call that does not spin, and every step of a processor it waits in, leaves less work for the call, and no step of anybody adds to it |
| TlbShootdown.ShootdownReturns | src/subsys/twanvisor/vemulate/vemulate_utils.c:287-354 | no run takes as many of these steps as there is work, at most 6 for each vcpu and processor and 2 more, without the call having returned under its number and partition |
| TlbShootdown.StartedReturns | src/subsys/twanvisor/vemulate/vemulate_utils.c:287-354 | so every shootdown started returns for the partition it was started for |
| TlbShootdown.UsefulEnabled | src/subsys/twanvisor/visr/visr_index.c:126-158 | while a call lasts and its vcpu is current, such a step is enabled |
| TlbShootdown.NeverWaitsForItself | src/subsys/twanvisor/visr/visr_index.c:137-142 | a call never spins for its own processor, for which the test of the ack queue would never say yes |
| TlbShootdown.IpisExactly | src/subsys/twanvisor/vemulate/vemulate_utils.c:329-335 | a processor has its interrupt exactly from an announcement to a vcpu that runs on it unflagged until it takes it |
| TlbShootdown.EntersUnflagged | src/subsys/twanvisor/vportal/venter.c:33-72 | a scheduled vcpu leaves the locked section of its entry unflagged, with a flush due exactly if it was flagged and has a VPID |
| TlbShootdown.LaunchesFlushed | src/subsys/twanvisor/vportal/venter.c:33-72 | it is in the guest two steps later, flushed if that was due or the entry itself flushes |
| TlbShootdown.LeavesAcknowledged | src/subsys/twanvisor/visr/visr_index.c:126-135 | it leaves the guest with everyone acknowledged who waited for that |
| TlbShootdown.ReadyAgain | src/subsys/twanvisor/vsched/vsched.c:43-60 | and is ready again, otherwise as it was, when its processor gives it up |
| InterruptDelivery.HighestDecides | src/subsys/twanvisor/vportal/venter.c:102-157 | testing only the highest pending vector decides whether any is deliverable |
| InterruptDelivery.EntryDecision | src/subsys/twanvisor/vportal/venter.c:88-198 | an entry injects at most one event; what stays deliverable has a window exit armed; a vector leaves the pending set only by injection, as the highest one, and goes into service |
| InterruptDelivery.EntryEager | src/subsys/twanvisor/vportal/venter.c:88-198 | an entry that can inject does, and one that neither injects nor arms a window has nothing to deliver |
| InterruptDelivery.WindowsArmed | src/subsys/twanvisor/vportal/venter.c:133-198 | which window exit an entry leaves armed, in terms of what waits and what blocks it, and that none is armed when nothing waits |
| InterruptDelivery.SendCovers | src/subsys/twanvisor/vemulate/vemulate_utils.c:183-231 | the injector's test sends an interrupt whenever the new vector would otherwise be unnoticed |
| InterruptDelivery.StepInv | src/subsys/twanvisor/vportal/venter.c:88-198 | every step of injectors, entries, exits, EOIs and level changes keeps all deliverable interrupts covered |
| InterruptDelivery.NoLostInterrupt | src/subsys/twanvisor/vemulate/vemulate_utils.c:183-231 | in guest mode, a pending NMI or any pending vector above the in-service and current levels has an interrupt in flight or a window exit armed |
| InterruptDelivery.PendingLeavesByInjection | src/subsys/twanvisor/vportal/venter.c:88-198 | a step takes a vector out of the pending set if and only if it injects it, once, and injects nothing that is not pending |
| InterruptDelivery.NmiLeavesByInjection | src/subsys/twanvisor/vportal/venter.c:133-147 | a pending NMI goes away if and only if one is injected, once |
| InterruptDelivery.SentIsPending | src/subsys/twanvisor/vemulate/vemulate_utils.c:72-78 | what is sent, a vector or an NMI, is pending; nothing else of the delivery data, the other vcpus or the injections changes |
| InterruptDelivery.SentIsInjected | src/subsys/twanvisor/vemulate/vemulate_utils.c:183-231 | over every run, what was waiting or has been sent since has been injected or still waits, and nothing is injected more often than it was sent |
| InterruptDelivery.IpiExactly | src/subsys/twanvisor/vemulate/vemulate_utils.c:208-227 | the processor's interrupt is there exactly from a sending that a running vcpu would not notice otherwise until it is taken |
| InterruptDelivery.ForcedExit | src/subsys/twanvisor/vportal/venter.c:33-72 | an interrupt in flight takes the vcpu out of the guest and to its next entry with nothing lost |
| InterruptDelivery.ForcedEntryInjects | src/subsys/twanvisor/vportal/venter.c:88-198 | that entry, if nothing in the guest blocks it, injects the highest pending vector |
| InterruptDelivery.DeliveryKept | src/subsys/twanvisor/vportal/vcalls.c:386-407 | nothing but senders, entries, ends of interrupt and writes of the level changes the delivery data, and a level written is the current one |
| InterruptDelivery.QuietRound | src/subsys/twanvisor/vportal/venter.c:88-198 | a vcpu with nothing to deliver goes into the guest without an event and out again to the very same state |
| InterruptDelivery.RependedWaitsForEoi | include/subsys/twanvisor/vemulate/vemulate_utils.h:535-568 | a vector set pending again after its injection was cut short is not deliverable, and is again after the next end of interrupt, which also restores the levels in service before the injection |
| InterruptDelivery.LevelLeavesByItsEnd | src/subsys/twanvisor/vportal/vcalls.c:386-407 | a step takes a level of a vcpu out of service if and only if it is that vcpu's own end of interrupt and the level is its highest in service |
| InterruptDelivery.StuckUntilEnd | src/subsys/twanvisor/vportal/vcalls.c:386-407 | a level stays in service throughout a run if and only if no step of the run is its vcpu's end of interrupt for it, and until then no vector of the level is deliverable; other levels and other vcpus may end theirs |
| InterruptDelivery.FreedByItsEnd | src/subsys/twanvisor/vportal/vcalls.c:386-407 | right after that end of interrupt a vector of the level is deliverable if and only if the vcpu's current level lets it through |
| Subscription.StepInv | src/subsys/twanvisor/vportal/vcalls.c:12-76 | subscribing, unsubscribing, permission changes, dispatch, entries and terminations of other vcpus, also during an entry, keep every subscribed vcpu queued, pending or about to be queued again |
| Subscription.NeverDropsOut | src/subsys/twanvisor/vportal/venter.c:200-217 | whenever the processor can take an external interrupt, each subscribed vcpu is in the dispatch queue or has the vector pending |
| Subscription.DispatchReachesSubscribers | src/subsys/twanvisor/visr/visr_dispatcher.c:72-100 | after a dispatch every subscriber has the vector pending, and no other vcpu is touched |
| Subscription.QueueExact | src/subsys/twanvisor/vemulate/vemulate_utils.c:562-581 | a queued vcpu is queued once, subscribed and permitted |
| Subscription.SubscribedAsAsked | src/subsys/twanvisor/vportal/vcalls.c:12-76 | over every run a vcpu is permitted and subscribed exactly as its calls say: a permitted subscription counts until it is ended or the permission withdrawn |
| Subscription.LastWord | src/subsys/twanvisor/vportal/vcalls.c:12-76 | after a permitted subscription the vcpu is subscribed and queued or pending; after its end, a withdrawn permission or termination it is not queued |
| Subscription.PendingExactly | src/subsys/twanvisor/visr/visr_dispatcher.c:72-100 | the vector becomes pending by being sent or dispatched and stays so exactly until it is injected |
| Subscription.QueuedExactly | src/subsys/twanvisor/vportal/vcalls.c:12-76 | exactly when a vcpu leaves the dispatch queue and when it comes into it |
| Subscription.OrderKept | src/subsys/twanvisor/visr/visr_dispatcher.c:72-100 | a dispatch empties the queue; any other step takes at most one vcpu out of it or appends one |
| Subscription.EntryEnds | src/subsys/twanvisor/vportal/venter.c:200-217 | an entry without the vector changes nothing; one with it ends with the vector not pending and the vcpu queued exactly if subscribed |
| Teardown.StepInv | src/subsys/twanvisor/vportal/vrecovery.c:181-286 | every step of teardown calls, which may start at any time, failing vcpus and recovering vcpus keeps the count balanced, self-termination confined to current vcpus, every vcpu that a walk has passed told to terminate, and every told vcpu terminated or current, with its interrupt when it is in the guest |
| Teardown.WalkTellsAll | src/subsys/twanvisor/vportal/vrecovery.c:325-367 | a walk that is over has told every vcpu of the partition to terminate, and nothing takes that back |
| Teardown.ToldLeaves | src/subsys/twanvisor/vportal/venter.c:33-43 | no step puts a told vcpu into the guest, into the run queue or to sleep, and in the guest it has the interrupt that makes it leave |
| Teardown.WorkStep | src/subsys/twanvisor/vportal/vrecovery.c:181-410 | once all have been told, every step but a new call is work done |
| Teardown.TeardownCompletes | src/subsys/twanvisor/vportal/vrecovery.c:313-410 | after one walk is over, every run long enough, beyond new calls and the work they bring, ends with all vcpus terminated and the partition finalised |
| Teardown.TeardownNeverStuck | src/subsys/twanvisor/vportal/vrecovery.c:313-410 | until then a step other than a new call is enabled, without any vcpu failing |
| Teardown.CallMovesOn | src/subsys/twanvisor/vportal/vrecovery.c:313-383 | a call's walk is over after one step of its own for each vcpu and one more, whatever others do |
| Teardown.UntoldComesRound | src/subsys/twanvisor/vsched/vsched.c:43-112 | a vcpu that has not been told goes from the run queue into the guest and back, also through a sleep, to the very same state |
| Teardown.Conservation | src/subsys/twanvisor/vportal/vrecovery.c:313-410 | num_terminated plus the counts not yet added equals the number of terminated vcpus |
| Teardown.TerminatedOnce | src/subsys/twanvisor/vportal/vrecovery.c:181-286 | a vcpu is set to terminated only when it is not, and never leaves that state |
| Teardown.FinalisingWaits | src/subsys/twanvisor/vportal/vrecovery.c:275-286 | nobody finalises the teardown while a vcpu is live |
| Teardown.OneTerminatorFinalises | src/subsys/twanvisor/vportal/vrecovery.c:377-410 | of those that terminated a vcpu at most one finalises, and exactly one once everything is added |
| Teardown.IdleTeardown | src/subsys/twanvisor/vportal/vrecovery.c:377-382 | a call that terminated nobody finalises if and only if all vcpus were counted before |
| Teardown.FinalisationsOfRun | src/subsys/twanvisor/vportal/vrecovery.c:181-286 | over every run, the number of finalisations is one for the total being reached and one for each call that terminated nobody and adds afterwards |
| Teardown.FinalisedOnceExactly | src/subsys/twanvisor/vportal/vrecovery.c:377-410 | a run from the start finalises more than once if and only if it has such a call; failing and recovering vcpus never cause it |
| Teardown.FinalisedTwice | src/subsys/twanvisor/vportal/vrecovery.c:377-382 | a reachable state in which two calls have finalised |
| IpiMailbox.StepInv | src/kernel/kapi.c:60-108 | every step of senders, handlers and interrupts keeps each mailbox accounted for, consistently filled and noticed |
| IpiMailbox.AtMostOnce | src/kernel/isr/isr_dispatcher.c:147-176 | the calls run from a mailbox are a prefix of the calls posted to it, with their own function and argument, and at most two are on the way |
| IpiMailbox.NeverLost | src/kernel/isr/isr_dispatcher.c:147-176 | while a posted call has not run, the handler has it in hand, or its box is locked and the handler will reach it in this scan or in the one that an interrupt, sent or about to be sent, starts; and the step towards it is enabled |
| IpiMailbox.RankStep | src/kernel/isr/isr_dispatcher.c:147-176 | every step of the target lowers a bound linear in the number of processors or runs a call from the box, and no step of anybody else raises the bound |
| IpiMailbox.RunsWithin | src/kernel/isr/isr_dispatcher.c:147-176 | so in every run in which the target takes as many steps as the bound for the k-th posted call, that call has run |
| IpiMailbox.EveryCallRuns | src/kernel/isr/isr_dispatcher.c:147-176 | after twice the bound of the target's steps every call posted before has run, the k-th posted as the k-th run |
| IpiMailbox.NeverOverwritten | src/kernel/kapi.c:74-84 | a mailbox is written only while it is unlocked and nobody reads it |
| IpiMailbox.WaitMeansDone | src/kernel/kapi.c:104-105 | a waiting call returns only after its function, and all posted before it, have completed |
| IpiMailbox.ReturnMeansDone | src/kernel/kapi.c:60-108 | the step that returns from a call finds it posted last, and, if the call waits, run with all posted before; if it does not, its interrupt sent |
| IpiMailbox.AskedStep | src/kernel/kapi.c:60-108 | from its beginning to its return a call keeps its target, function, argument and wait flag; it is posted, once, between locking the box and the interrupt |
| IpiMailbox.CallReturns | src/kernel/kapi.c:60-108 | no run takes as many useful steps as there is work left for a call, linear in the number of processors, without the call having been posted next to its box and, if it waits, having run |
| IpiMailbox.BegunReturns | src/kernel/kapi.c:60-108 | so for every call from its beginning on |
| IpiMailbox.SenderNeverStuck | src/kernel/isr/isr_dispatcher.c:31-63 | a sender can step, or spins on a locked box whose target can |
| IpiMailbox.IrqExactly | src/kernel/kapi.c:84-102 | an interrupt is pending exactly from its sending, or a spurious cause, until it is taken |
| IpiMailbox.HistoryGrows | src/kernel/isr/isr_dispatcher.c:13-65 | along every run, what was posted and what was run only grows |
| Bits.Ffs32 | include/std.h:136-162 | returns the lowest set bit, -1 for zero |
| Bits.Fls32 | include/std.h:103-134 | returns the highest set bit, -1 for zero |
| Bits.Fls64 | include/std.h:164-200 | returns the highest set bit, -1 for zero |
| Bmp256.Fls | include/lib/dsa/bmp256.h:72-87 | returns the greatest member of the 256-bit set, -1 when it is empty |
| Bmp256.SetAtBits | include/lib/dsa/bmp256.h:35-41 | adds exactly one member |
| Bmp256.UnsetAtBits | include/lib/dsa/bmp256.h:43-49 | removes exactly one member |
| Bmp256.AndBits | include/lib/dsa/bmp256.h:11-17 | intersects |
| Bmp256.UnsetAboveBits | include/lib/dsa/bmp256.h:99-114 | keeps exactly the members up to the bit, in all four words and at word ends |
| Dq.Deque.Insert | include/lib/dsa/dq.h:93-108 | relinking puts the node between its neighbours in the sequence |
| Dq.Deque.PushBack | include/lib/dsa/dq.h:34-45 | appends to the sequence |
| Dq.Deque.PushFront | include/lib/dsa/dq.h:21-32 | prepends to the sequence |
| Dq.Deque.Dequeue | include/lib/dsa/dq.h:55-69 | takes the node out of the sequence wherever it is and clears its links |
| Dq.Deque.PopFront | include/lib/dsa/dq.h:76-91 | takes the first node |
| Dq.Deque.IsQueued | include/lib/dsa/dq.h:110-113 | the test on the node's own links and the front is exactly membership |
| Dq.Deque.Clear | include/lib/dsa/dq.h:120-135 | unlinks every node |
| TlsfClasses.Map | src/lib/tlsf_alloc.c:3-29 | computes the class of a size by the highest bit and the five bits below it, rounded up |
| TlsfClasses.ClassIsLeast | src/lib/tlsf_alloc.c:3-29 | a size is at most the ceiling of exactly the classes from its own upwards |
| TlsfClasses.Monotone | src/lib/tlsf_alloc.c:3-29 | the map is monotone up to the ceiling of the last class |
| TlsfClasses.HeldDown | src/lib/tlsf_alloc.c:26-28 | the ceiling of the last class is in that class, and the next size in a lower one |
| TlsfClasses.MonotoneExactly | src/lib/tlsf_alloc.c:3-29 | for every bound, the map is monotone on the sizes up to it if and only if the bound is at most the ceiling of the last class |
| TlsfClasses.HigherIsEnough | src/lib/tlsf_alloc.c:284-290 | for every request up to TLSF_MAX_ALLOC, a block of a strictly greater class is larger than the request |
| TlsfClasses.EnoughIsHigher | src/lib/tlsf_alloc.c:80-108 | a block that holds the request is in the request's class or a greater one |
| FreeLists.Lists.constructor | src/lib/tlsf_alloc.c:218-253 | a zeroed struct has empty lists and exact bitmaps |
| FreeLists.Lists.Insert | src/lib/tlsf_alloc.c:61-78 | puts the block first in its list; links, heads and both bitmap levels stay exact |
| FreeLists.Lists.Remove | src/lib/tlsf_alloc.c:31-59 | takes the block out of its list wherever it is; links, heads and both bitmap levels stay exact |
| FreeLists.Lists.Search | src/lib/tlsf_alloc.c:80-108 | finds the first block of the least non-empty class at or above the request's, and nothing exactly when there is none |
| TlsfBlocks.PackReads | include/lib/tlsf_alloc.h:54-73 | the macros read size and flags from the packed word |
| TlsfBlocks.PackFlags | include/lib/tlsf_alloc.h:75-85 | setting or clearing a flag leaves the rest of the word |
| TlsfBlocks.PackSize | include/lib/tlsf_alloc.h:65-67 | storing a size keeps both flags and drops the remainder by four |
| TlsfBlocks.SizePacks | include/lib/tlsf_alloc.h:54-67 | in a heap whose end is a multiple of four every size leaves the flag bits free |
| TlsfBlocks.ExactTiling | src/lib/tlsf_alloc.c:110-187 | headers and sizes tile the heap: every byte is in exactly one block and no block sticks out |
| TlsfBlocks.MarkTiled | src/lib/tlsf_alloc.c:169-187 | changing a free bit with the bit after it keeps every boundary field exact |
| TlsfBlocks.SplitTiled | src/lib/tlsf_alloc.c:297-321 | so does cutting a block |
| TlsfBlocks.AbsorbTiled | src/lib/tlsf_alloc.c:110-167 | so does joining two blocks |
| TlsfBlocks.AbsorbUndoesSplit | src/lib/tlsf_alloc.c:110-167 | joining the parts of a cut block restores every header |
| TlsfHeap.Heap.Init | src/lib/tlsf_alloc.c:218-253 | fails exactly for a null or too small heap; the heap is exactly tiled if and only if its end is a multiple of four and the memory under the header holds no previous-free bit, and then the whole invariant holds |
| TlsfHeap.Heap.Alloc | src/lib/tlsf_alloc.c:265-326 | keeps the whole invariant; fails exactly for a bad size, without room, or when the first block of the request's own class is too small; otherwise gives the first block of the least class, aligned and large enough, cut to the padded size exactly when the rest makes a block, which is free then; exactly that block's bytes are no longer free, and no other allocated block changes |
| TlsfHeap.PaddedIsLeast | src/lib/tlsf_alloc.c:265-276 | the padded size is the least multiple of eight that holds the request and a minimal block |
| TlsfHeap.Heap.SearchOutcome | src/lib/tlsf_alloc.c:278-290 | a too small block can only come from the request's own class, and an empty search means that no free block is large enough |
| TlsfHeap.Heap.Free | src/lib/tlsf_alloc.c:328-359 | keeps the whole invariant, with both neighbours joined; exactly the freed block is no longer allocated and exactly its bytes become free; addresses outside the heap are ignored |
| TlsfHeap.Heap.MergeNext | src/lib/tlsf_alloc.c:140-167 | the freed block takes in a free block after it, which leaves its list |
| TlsfHeap.Heap.MergePrev | src/lib/tlsf_alloc.c:110-138 | it joins a free block before it; then no two neighbours are free |
| TlsfHeap.Heap.LiveApart | src/lib/tlsf_alloc.c:265-326 | allocated blocks lie in the heap and do not overlap |
| TlsfHeap.Heap.AllocThenFree | src/lib/tlsf_alloc.c:265-359 | freeing what was just allocated restores every header |
| TlsfHeap.Heap.AllocAligned | src/lib/tlsf_alloc.c:424-484 | keeps the whole invariant; the pointer is a multiple of the alignment, tag and payload lie inside one newly allocated block, all other allocated blocks are as before; the padding goes back: exactly that block's bytes are no longer free, it starts less than a header and a minimal block before the tag and ends as near as an allocation's block; releasing it would restore every header even after its padding was carved off |
| TlsfHeap.Heap.FreeAligned | src/lib/tlsf_alloc.c:486-501 | releases exactly the block named by the tag |
| TlsfHeap.Heap.AllocAlignedThenFree | src/lib/tlsf_alloc.c:424-501 | freeing what was just allocated with an alignment restores every header |
| TlsfHeap.FreeUndoesTake | src/lib/tlsf_alloc.c:265-359 | giving a block out, cut or whole, and releasing it is the identity on headers |
| TlsfHeap.FreeUndoesCarving | src/lib/tlsf_alloc.c:449-478 | releasing what is left of a block after its padding was released is releasing the block |
| TlsfHeap.GivesNewlyLive | src/lib/tlsf_alloc.c:265-326 | in a tiled heap, when one block becomes allocated and all others stay, exactly its bytes are no longer free |
| TlsfRejection.RejectedDespiteRoom | src/lib/tlsf_alloc.c:284-290 | initialisation, two allocations and a release lead to a valid heap in which an allocation fails although a free block is large enough, for every request whose class also holds a smaller size |
| TlsfRejection.Rejected528 | src/lib/tlsf_alloc.c:284-290 | such a run: 528 bytes are refused for a free block of 520 beside one of 4096 |
| TlsfHeap.RoundUpMasks | include/compiler.h:54 | masking off the low bits rounds up to a multiple of the power of two |
| BuddyTree.SplitPartition | src/lib/buddy_alloc.c:70-83 | replacing a block by its halves keeps every page covered exactly once |
| BuddyTree.MergePartition | src/lib/buddy_alloc.c:99-119 | replacing two halves by their parent does, too |
| BuddyTree.RunIsFree | src/lib/buddy_alloc.c:40-65 | without free buddies, an aligned run of unallocated pages lies in one free block |
| BuddyTree.Completeness | src/lib/buddy_alloc.c:40-65 | a free block of at least the order exists if and only if an aligned run of that many unallocated pages does |
| BuddyTree.MergeUndoesSplit | src/lib/buddy_alloc.c:40-120 | merging upwards from a split-off block undoes the splitting |
| BuddyTree.RoundTrip | src/lib/buddy_alloc.c:40-120 | so allocating and freeing restores the free set |
| BuddyArena.Arena.TreeBitInjective | include/lib/buddy_alloc.h:89-93 | different blocks have different bits in the tree bitmap |
| BuddyArena.Arena.AddrRoundTrip | include/lib/buddy_alloc.h:123-133 | address to index undoes index to address |
| BuddyArena.Arena.FindBlockAtOrder | include/lib/buddy_alloc.h:145-161 | finds the lowest free block of an order, -1 exactly without one |
| BuddyArena.Arena.UpdateOrder | include/lib/buddy_alloc.h:163-169 | the order's bit says whether a free block of it is left |
| BuddyArena.Arena.OrderCanAlloc | include/lib/buddy_alloc.h:171-183 | true exactly when an allocation of the order would succeed |
| BuddyArena.Arena.Alloc | src/lib/buddy_alloc.c:40-87 | free and allocated blocks partition the arena, no two buddies are free and the order bitmap is exact before and after; fails only if no aligned run of that size is unallocated |
| BuddyArena.Arena.Free | src/lib/buddy_alloc.c:89-120 | keeps the same invariant; exactly the freed block is no longer allocated, merged upwards as far as its buddies are free |
| BuddyArena.Arena.AllocThenFree | src/lib/buddy_alloc.c:40-120 | a successful allocation and the release of its address restore both bitmaps bit for bit |
| BuddyArena.Arena.Init | src/lib/buddy_alloc.c:4-38 | one free block; it stays inside the memory given if and only if the trimmed size is a power of two |
| BuddyArena.ThreePagesOverclaimed | src/lib/buddy_alloc.c:33-36 | three pages are an instance where it does not |
| BuddyArena.Log2 | include/std.h:84-101 | the least power of two not below the size |
| BuddyArena.GetOrder | include/lib/buddy_alloc.h:32-42 | the least order whose block holds that many pages |
| DeltaChain.Chain.Insert | include/lib/dsa/delta_chain.h:33-66 | the new timer is due after its ticks, behind those due at the same time; all other due times are unchanged |
| DeltaChain.Chain.Dequeue | include/lib/dsa/delta_chain.h:97-106 | removes one timer; all other due times are unchanged |
| DeltaChain.Chain.Advance | include/lib/dsa/delta_chain.h:68-83 | fires exactly the timers that are due, in order |
| DeltaChain.Chain.Tick | include/lib/dsa/delta_chain.h:85-95 | one unit passes for all timers exactly when the front timer is not already due |
| DeltaChain.InsertKeepsDue | include/lib/dsa/delta_chain.h:33-66 | inserting into deltas is inserting into due times |
| DeltaChain.RemoveKeepsDue | include/lib/dsa/delta_chain.h:97-106 | handing the delta to the node behind is removing from due times |
| DeltaChain.FiresExactly | include/lib/dsa/delta_chain.h:33-106 | in every run, a timer inserted with t ticks and not touched again fires on the t-th later tick and on no other |
| DeltaChain.AbsentNeverFires | include/lib/dsa/delta_chain.h:33-106 | a timer that is not queued never fires |
| DeltaChain.TiesInOrder | include/lib/dsa/delta_chain.h:33-66 | a timer stands behind all timers due at the same tick |
| DeltaChain.OrderKept | include/lib/dsa/delta_chain.h:33-106 | one operation keeps the order of two timers that it leaves queued, and fires them in it |
| DeltaChain.TiesFireInOrder | include/lib/dsa/delta_chain.h:33-106 | in every run, of two timers due at the same tick the one that stands first fires first on it |
| DeltaChain.InsertionOrder | include/lib/dsa/delta_chain.h:33-106 | so a timer inserted when another has as many ticks left fires on the same tick, after it, whatever happens to the others |
| DeltaChain.RunRefines | include/lib/dsa/delta_chain.h:33-106 | every run over the deltas is the run over due times that it stands for, in what is left and in what fires on each tick |
| DeltaChain.NeverEarly | include/lib/dsa/delta_chain.h:85-95 | no timer fires early, also with zero-tick insertions |
| DeltaChain.FiresIffNoneWasted | include/lib/dsa/delta_chain.h:85-95 | with zero-tick insertions, a timer fires on time if and only if no tick before was spent on a timer already due |
| DeltaChain.ZeroTickDelays | include/lib/dsa/delta_chain.h:85-95 | such a run |
| VirtualTimers.VcpuTimers.Arm | src/subsys/twanvisor/vportal/vcalls.c:170-235 | adds one countdown and leaves all others, with the value written to the hardware below 2^32; bad or armed timers are refused without effect |
| VirtualTimers.VcpuTimers.Disarm | src/subsys/twanvisor/vportal/vcalls.c:237-295 | removes one countdown and leaves all others, also when it was the one in the hardware |
| VirtualTimers.VcpuTimers.Preempt | src/subsys/twanvisor/vportal/vexit.c:673-722 | fires the timer armed first of those with nothing left, exactly as many guest ticks after it was armed or last fired as it was armed with; a periodic one starts over, a one-shot one is disarmed, all others are unchanged |
| VirtualTimers.VcpuTimers.Countdown | src/subsys/twanvisor/vportal/vexit.c:673-722 | a tick of the hardware timer, which runs in guest mode only, brings every armed timer one tick nearer |
| VirtualTimers.VcpuTimers.ExpiryIsExact | src/subsys/twanvisor/vportal/vexit.c:673-722 | the hardware timer is active at zero if and only if some armed timer has nothing left |
| RunQueue.Queue.Push | src/kernel/sched/sched_dsa.c:43-54 | appends to the arrival sequence; every bin stays exactly its part of it, with exact bitmaps |
| RunQueue.Queue.PushBin | include/lib/dsa/priorityq.h:48-54 | brings one bin up to date |
| RunQueue.Queue.Dequeue | src/kernel/sched/sched_dsa.c:56-70 | takes a task out of the arrival sequence and of all its bins, also under a mask |
| RunQueue.Queue.DequeueBin | include/lib/dsa/priorityq.h:56-65 | brings one bin up to date and clears the bit of an emptied priority |
| RunQueue.Queue.GetBin | src/kernel/sched/sched_dsa.c:13-41 | the bin of the criticality level if its bitmap has a member, else bin 0, with the highest priority |
| RunQueue.Queue.Pop | src/kernel/sched/sched_dsa.c:72-87 | takes the oldest task of the highest priority at or above the criticality level, or of all tasks if there is none; fails exactly on an empty queue |
| RunQueue.Queue.Age | src/kernel/sched/sched_dsa.c:97-122 | drops the priorities above the last, retires the highest after its turns, and starts over when exhausted |
| RunQueue.RoundCuts | src/kernel/sched/sched_dsa.c:97-122 | a round starts the aging set over exactly when nothing between 1 and the last priority is left; otherwise what is above the last leaves, and the highest of the rest exactly at the end of its turns |
| RunQueue.TurnsOfPriority | src/kernel/sched/sched_dsa.c:108-121 | the highest priority h stays for exactly the turns it has left, 2 h + 1 from a zero count, and the count starts over with the last of them |
| RunQueue.LeavesInTurn | src/kernel/sched/sched_dsa.c:108-121 | it leaves within 2 h + 1 rounds if and only if the count had not passed 2 h when it came to the top |
| RunQueue.TurnsOvershot | src/kernel/sched/sched_dsa.c:103-121 | which it can have: after four rounds from the start priority 1 is on top with count 4 and stays for 2^32 - 1 rounds |
| RunQueue.Queue.PopAge | src/kernel/sched/sched_dsa.c:124-157 | takes the oldest task of the highest priority that the aging set allows, or of all in the bin; every bitmap is exact again afterwards, and one round of aging has passed |
| RunQueue.Queue.HighestPriority | src/kernel/sched/sched_dsa.c:161-176 | the priority of the task that a pop would take |
| RunQueue.FrontPicks | include/lib/dsa/priorityq.h:67-74 | the first node of the highest bit is the oldest task of the highest allowed priority |
| RunQueue.Unmasked | src/kernel/sched/sched_dsa.c:150-156 | the saved bitmap, less the priority whose last task was taken, is exact |

## Left out

- The AVL tree and the flat priority queue built on it, and everything that waits in them.
- `__tlsf_realloc` and `__tlsf_try_carve`: they do not keep the boundary bits exact.
- A bound on starvation under aging over all priorities: the turns of one priority are bounded as `RunQueue.TurnsOfPriority` says, and overshot as `RunQueue.TurnsOvershot` says.
- Unwinding of partition routes, and the rest of finalisation after it has been decided.
- `__mcs_trylock`, `bmp512`, priority inheritance of recursive mutexes.
- Weak memory ordering: steps are sequentially consistent.
- VMCS setup, emulation of instructions and devices, paging, boot and hardware access; VM entry, VM exit and the flush of a TLB context are single steps.
- Cross-processor calls sent from inside the function of another such call, or from an interrupt handler that interrupts a sender: a processor has one sender, which is not re-entered.
- The vscheduler's own queues: a ready vcpu may be scheduled at any time.
- Argument and permission checks of hypercalls that only return an error.
- Bitmaps of the buddy arena are arrays of booleans, without their packing into bytes.
- The repair of a stale order bit inside the search of `__buddy_alloc`, and its test of a buddy index against the number of blocks: with an exact order bitmap the first is never reached, and the second never fails.
- The delta chain, the run queue's deques and the dispatch queue are sequences; their links are modelled once, for the deque, in `Dq.dfy`.
- The rate at which the VMX-preemption timer counts, and interrupts that the host takes while a vcpu is in root mode beyond those of the protocols above.
- Headers of the TLSF heap keep size and flags in separate fields; `TlsfBlocks.PackReads`, `PackFlags` and `PackSize` tie them to the packed word. The previous contents of memory under a new header are a parameter.
