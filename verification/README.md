# Course OS verification model

A Dafny model of the state machines at the core of the Course OS guest kernel, of its two guest program
loaders, of the terminal input pump of the frontend and of the rootfs dependency collector, with proofs of what
they are for. Code that updates fixed arrays in place is modelled as classes over arrays, with the source's
loops; each method is proved against a specification function on values, and the properties are lemmas about
those functions over every input, every step and every run.

| component | modules |
|---|---|
| copy-on-write process table | `CourseProcessTypes`, `CourseProcessSpec`, `CourseProcessAccounting`, `CourseProcessRuns`, `CourseProcessPrivate`, `CourseProcessRefinement`, `CourseProcessEffects`, `CourseProcess` |
| offline scheduler | `SchedulerModel`, `SchedulerMakespan`, `SchedulerPolicies`, `SchedulerRoundRobin`, `SchedulerRuns`, `SchedulerTurns`, `CourseScheduler` |
| online scheduler | `ProcessStates`, `OnlineModel`, `OnlineRuns`, `OnlineHistory`, `OnlineFairness`, `OnlineChoice`, `OnlineScheduler` |
| RAM file system | `FsNames`, `FsModel`, `FsTree`, `FsPaths`, `FsOperations`, `FsIndex`, `FsRefinement`, `FsCapacity`, `FsRuns`, `CourseFs` |
| file descriptors | `FdModel`, `FdRuns`, `FdLifetime`, `CourseFd` |
| ELF load plan | `LittleEndian`, `ElfModel`, `ElfPlans`, `ElfBytes`, `ElfLoader` |
| segment loading | `ExecModel`, `ExecPlans`, `ExecSuccess`, `ExecAccess`, `UserSpace`, `ExecLoader` |
| initial stack | `StackModel`, `StackReader`, `StackBuilder` |
| physical pages | `PmmModel`, `Pmm` |
| terminal input pump | `PumpModel`, `PumpEvents`, `InputPump` |
| rootfs dependencies | `AssetModel`, `AssetClosure`, `AssetCollector` |
| clock replacement | `ClockModel`, `CourseMemory` |
| semaphore and mutex | `SyncModel`, `SyncOutcomes`, `CourseSync` |

`Common`, `Sums` and `Sets` hold what they share. `dafny verify dfyconfig.toml` checks the whole project.

The usual shape is a pair: a specification function on values (`Spec.Fork`, `OnlineModel.Tick`,
`FsOperations.Write`, `ExecModel.ExecLoad`, `PumpModel.Take`) and a method of a class whose new state and result
equal it. The lemmas then relate the function to an independent description: private pages per process, a map
from paths to files, a flat copy, a set of lent pages, a second-chance queue, a reader of the stack. What a single call, turn or tick does is also told on the
states before and after it, without those functions (`CourseProcessEffects`, `SchedulerTurns`, `OnlineChoice`,
`ElfBytes`, `FdLifetime`, `PumpEvents`, `SyncOutcomes`).

## Where the code falls short of what is said about it

Each of these is stated as an exact condition on the inputs, as an input that shows the failure, or both.

- Process table: a refcount counts references that are gone once a spawn or fork takes the slot of a process
  that was set DEAD by `set_state`, or mapped to after its death, while it still held a page. At the end of a
  run the counts are exact if and only if that never happened (`CountsExactIff`), a page so lost stays lost
  (`LostForever`), and `leak_free` reports true all the same (`ReachableAccounting`, `DeadByStateLeaks`).
- Online round robin: when a slice expires and nobody else is READY, the running process is dropped and stays
  RUNNING without ever being credited again (`TickAloneIff`, `SingleProcessStrands`); `configure` forgets a
  running process (`ConfigureAloneIff`, `ConfigureForgets`).
- Descriptors: absolute paths of 96 characters and more are cut without an error, so an open reaches the file
  named by the first 95 characters (`OpenedPath`, `LongNamesOnePath`,
  `OnePathOneFile`, `LongNamesMeet`).
- Segment loading: rounding a segment size near 2^64 up to pages wraps around, and the load reports success
  with the segment missing (`LoadedIff`, `WrappedSegmentVanishes`).
- Page allocator: with a physical limit that is not page-aligned, an address in the last partial page passes
  the check of `pmm_free_page` (`CheckExact`); its bit lies outside the bitmap when the bitmap has none to spare
  (`ChecksInBitmapIff`, `NoBitToSpare`).
- Dependencies: an optional library that turns out to be required after the cursor has passed it keeps its own
  dependencies out (`FullClosureIff`, `UpgradeLost`).
- Mutex: a waiter whose process is gone is still made the owner, and stays it (`HandedToTheGone`).
- Semaphore and mutex: a wake-up makes a waiter READY even when it has ended since it queued (`PostSoundIff`,
  `UnlockSoundIff`, `PostRevivesKilled`).

The code and its comments disagree in two places, and the model follows the code: the comment on
`enqueue_waiter` (myCPU/guest/kernel/course_sync.c:30) says a pid that waits already is refused, but only a full
array is; `LINUX_COMPAT_AUXV_COUNT` is 12, but with an interpreter the stack gets 13 pairs.

## Model

| member | source | states |
|---|---|---|
| CourseProcessRefinement.RunRefines | myCPU/guest/kernel/course_process.c:208-671 | COW isolation: every run of spawn, fork, exec, exit, wait, kill, set_state, map, read, write and store faults over shared reference-counted pages gives the results, and leaves the contents, of a table in which each process owns private pages; no hypothesis on the calls |
| CourseProcessRefinement.BootRunRefines | myCPU/guest/kernel/course_process.c:253-671 | the same from the empty table on |
| CourseProcessRefinement.StepRefines | myCPU/guest/kernel/course_process.c:208-671 | one call on the shared table is one call on private pages, with the same result |
| CourseProcessRefinement.WriteIsolation | myCPU/guest/kernel/course_process.c:607-656 | a successful store changes exactly one byte of one page of one process; a failed store changes nothing; every other read, of any process, is as before |
| CourseProcessRefinement.WriteView | myCPU/guest/kernel/course_process.c:632-656 | a store succeeds exactly when the page counts one reference or a page and an id are left, and then overwrites one byte of that process's contents |
| CourseProcessRefinement.DuplicateView | myCPU/guest/kernel/course_process.c:208-251 | making a page private is invisible: every process sees the contents it saw |
| CourseProcessRefinement.DuplicateOutcome | myCPU/guest/kernel/course_process.c:208-251 | making a page private succeeds exactly when the page counts one reference, or a page slot and an id are left; afterwards the reference is writable; on failure nothing changed |
| CourseProcessRefinement.ForkRefines | myCPU/guest/kernel/course_process.c:296-360 | fork copies the parent's page contents to the child |
| CourseProcessRefinement.ForkView | myCPU/guest/kernel/course_process.c:296-360 | after a fork parent and child show the parent's contents, and nobody else's changed |
| CourseProcessRefinement.ExecRefines | myCPU/guest/kernel/course_process.c:518-557 | exec empties the pages of one process and installs the loader's entry point and stack pointer; a failed load changes nothing |
| CourseProcessRefinement.SpawnRefines | myCPU/guest/kernel/course_process.c:277-294 | spawn gives a process without pages |
| CourseProcessRefinement.MapRefines | myCPU/guest/kernel/course_process.c:579-605 | map gives one process one page filled with one byte, exactly when the slot is unmapped and a page and an id are left |
| CourseProcessRefinement.WaitRefines | myCPU/guest/kernel/course_process.c:453-496 | wait and waitpid on the shared table are wait and waitpid on private pages |
| CourseProcessRefinement.StoreFaultRefines | myCPU/guest/kernel/course_process.c:658-671 | handling a store fault is invisible |
| CourseProcessRuns.ReachableAccounting | myCPU/guest/kernel/course_process.c:150-205 | in every state of every run: leak_free, no count below the number of references, a writable reference is the only one and its page counts one, faults equal copies, and used pages are mapped minus saved plus copied minus released |
| CourseProcessRuns.CountsExactIff | myCPU/guest/kernel/course_process.c:97-111 | at the end of a run from boot every refcount equals the number of references if and only if no spawn or fork of the run took a slot that still held a page |
| CourseProcessRuns.LostForever | myCPU/guest/kernel/course_process.c:176-188 | a page that counts a reference too many stays in use, counting too many, through every run |
| CourseProcessRuns.AdmissibleRunExact | myCPU/guest/kernel/course_process.c:362-373 | a run in which no page-holding process is set DEAD and nothing is mapped for a DEAD pid takes no such slot, so its counts are exact |
| CourseProcessRuns.StepKeepsInv | myCPU/guest/kernel/course_process.c:150-671 | every call keeps the accounting; only taking a slot that still holds a page moves the difference between a count and its references, and never down |
| CourseProcessRuns.AdmissibleIff | myCPU/guest/kernel/course_process.c:362-373 | dead processes stay without pages through a call exactly when it sets no page-holding process DEAD and maps nothing for a DEAD pid, or fails |
| CourseProcessRuns.SpawnExcessIff | myCPU/guest/kernel/course_process.c:97-111 | taking a slot keeps exact counts exactly when the slot's last owner left no page behind |
| CourseProcessRuns.SpawnKeepsInv | myCPU/guest/kernel/course_process.c:277-294 | whatever slot is reused, no reference that stays loses its page and no count falls short |
| CourseProcessRuns.SpawnLeaks | myCPU/guest/kernel/course_process.c:97-111 | reusing a slot that still holds a page leaves that page counting too many |
| CourseProcessRuns.DeadByStateLeaks | myCPU/guest/kernel/course_process.c:362-373 | map, set_state(DEAD), spawn: a refcount is wrong for good while leak_free stays true |
| CourseProcessRuns.NeverReused | myCPU/guest/kernel/course_process.c:150-173 | over every run, pids and page ids once handed out never come into use again |
| CourseProcessAccounting.ShareKeepsInv | myCPU/guest/kernel/course_process.c:329-357 | sharing one page at fork keeps the accounting and every difference between a count and its references and takes write permission from both |
| CourseProcessAccounting.DropRefKeepsInv | myCPU/guest/kernel/course_process.c:176-205 | dropping one reference keeps the accounting and every difference between a count and its references, and frees the page with its last reference |
| CourseProcessAccounting.DuplicateKeepsInv | myCPU/guest/kernel/course_process.c:208-251 | copy on write keeps the accounting and every difference between a count and its references |
| CourseProcessAccounting.MapKeepsInv | myCPU/guest/kernel/course_process.c:579-605 | mapping a fresh page keeps the accounting and every difference between a count and its references |
| CourseProcessEffects.WaitReapsFirst | myCPU/guest/kernel/course_process.c:475-496 | wait reaps the zombie child in the lowest slot: it reports that slot's exit code, makes it DEAD without pages and changes no other slot; it fails, changing nothing, exactly when there is no zombie child |
| CourseProcessEffects.WaitPidOutcome | myCPU/guest/kernel/course_process.c:453-473 | waitpid reaps the zombie child of the caller with this pid, and fails, changing nothing, exactly when there is none |
| CourseProcessEffects.ForkShares | myCPU/guest/kernel/course_process.c:329-357 | after a fork every page of the parent is one page of parent and child, under the old id, which neither may write; mapped and saved count each of them once |
| CourseProcessEffects.MapOwns | myCPU/guest/kernel/course_process.c:579-605 | a new mapping is writable, stands for a page with the next id, and is counted once |
| CourseProcessEffects.WriteOwns | myCPU/guest/kernel/course_process.c:632-656 | a store that goes through takes a new page, under the next id, and counts a fault and a copy, exactly when some page with its id counts more than one reference; the reference is writable from then on |
| CourseProcessEffects.StoreFaultOwns | myCPU/guest/kernel/course_process.c:658-671 | handling a store fault does the same |
| CourseProcessEffects.StatsMove | myCPU/guest/kernel/course_process.c:150-671 | every call moves mapped, saved, faults and copied by exactly what it maps, shares and copies; the peak never falls and stands at the old peak or at the count of some page in use |
| CourseProcessEffects.BootStats | myCPU/guest/kernel/course_process.c:673-733 | over every run from boot the statistics are the totals of what its calls map, share and copy, and the pages released are those mapped or copied, less those saved and those in use |
| CourseProcessEffects.FailedChangesNothing | myCPU/guest/kernel/course_process.c:253-671 | a call that fails leaves the whole table as it was |
| CourseProcess.ProcessTable.FindProcess | myCPU/guest/kernel/course_process.c:735-749 | first used slot with the pid, never for pid 0 |
| CourseProcess.ProcessTable.FindCowPage | myCPU/guest/kernel/course_process.c:114-129 | first used page with the id |
| CourseProcess.ProcessTable.AllocCowPage | myCPU/guest/kernel/course_process.c:150-173 | first free page slot with the next id, none when ids are exhausted |
| CourseProcess.ProcessTable.ReleaseCowPageRef | myCPU/guest/kernel/course_process.c:176-188 | one reference less, the page freed at zero |
| CourseProcess.ProcessTable.ReleaseProcessUserPages | myCPU/guest/kernel/course_process.c:191-205 | all pages of one process released |
| CourseProcess.ProcessTable.DuplicateCowPage | myCPU/guest/kernel/course_process.c:208-251 | the whole new table is the copy-on-write step of the specification |
| CourseProcess.ProcessTable.Spawn | myCPU/guest/kernel/course_process.c:277-294 | the whole new table and result of spawn |
| CourseProcess.ProcessTable.Fork | myCPU/guest/kernel/course_process.c:296-360 | the whole new table and result of fork |
| CourseProcess.ProcessTable.SetState | myCPU/guest/kernel/course_process.c:362-373 | one state changes, or failure |
| CourseProcess.ProcessTable.Exit | myCPU/guest/kernel/course_process.c:410-423 | exit code and ZOMBIE, unless dead |
| CourseProcess.ProcessTable.Kill | myCPU/guest/kernel/course_process.c:425-451 | exit code and ZOMBIE by signal |
| CourseProcess.ProcessTable.WaitPid | myCPU/guest/kernel/course_process.c:453-473 | reaps exactly a zombie child of the caller |
| CourseProcess.ProcessTable.Wait | myCPU/guest/kernel/course_process.c:475-496 | the whole new table and status: the zombie child in the lowest slot is reaped (WaitReapsFirst) |
| CourseProcess.ProcessTable.ExecImage | myCPU/guest/kernel/course_process.c:518-557 | pages released and image set, only if the loader succeeded |
| CourseProcess.ProcessTable.MapUserPage | myCPU/guest/kernel/course_process.c:579-605 | a filled page in an unmapped slot |
| CourseProcess.ProcessTable.ReadUserByte | myCPU/guest/kernel/course_process.c:607-630 | the byte, when mapped and in range |
| CourseProcess.ProcessTable.WriteUserByte | myCPU/guest/kernel/course_process.c:632-656 | copy on write, then the byte |
| CourseProcess.ProcessTable.HandleCowStoreFault | myCPU/guest/kernel/course_process.c:658-671 | copy on write for a faulting store |
| CourseProcess.ProcessTable.CowStatsSnapshot | myCPU/guest/kernel/course_process.c:673-733 | the statistics and the leak check |
| SchedulerRuns.PolicyIndependentMakespan | myCPU/guest/kernel/course_scheduler.c:161-282 | FCFS, RR and CFS-lite all end at the same time: the largest completion is the maximum over i of arrival_i plus the bursts arriving at or after it; completion is at least arrival plus burst, so the wait subtraction cannot underflow |
| SchedulerRuns.FcfsRecurrence | myCPU/guest/kernel/course_scheduler.c:64-83 | FCFS completes each entry at max(previous completion, arrival) + burst, in the order of arrival, pid and table position |
| SchedulerRuns.RrQueueExact | myCPU/guest/kernel/course_scheduler.c:116-158 | between turns the round-robin queue holds exactly the discovered unfinished entries, each once, and never overflows its eight places |
| SchedulerRuns.RrBoundedWait | myCPU/guest/kernel/course_scheduler.c:189-243 | the entry at place p of the queue runs in exactly the (p+1)-st turn, so after at most n - 1 other slices |
| SchedulerRuns.SliceCounts | myCPU/guest/kernel/course_scheduler.c:189-282 | context switches are the sum of the burst-by-slice ceilings, the cost is the sum of the bursts, RR preemptions are switches less entries, and CFS-lite vruntime ends at the burst |
| SchedulerRuns.CfsFairness | myCPU/guest/kernel/course_scheduler.c:86-108 | an unfinished entry is at most one slice of vruntime behind any that arrived no earlier |
| SchedulerRuns.ClockWithinMakespan | myCPU/guest/kernel/course_scheduler.c:161-282 | the clock never passes the makespan |
| SchedulerRuns.NextArrivalExists | myCPU/guest/kernel/course_scheduler.c:46-61 | with work left and nothing ready there is a next arrival, at most the makespan |
| SchedulerRuns.MakespanWithin | myCPU/guest/kernel/course_scheduler.c:46-61 | the makespan is at most the last arrival plus all bursts, so inputs with that sum below 2^32 - 1 never meet the sentinel |
| SchedulerMakespan.ExecuteKeepsBusy | myCPU/guest/kernel/course_scheduler.c:161-282 | no policy leaves the processor idle while work has arrived, and no run of work overshoots the makespan |
| SchedulerRoundRobin.RrStepKeeps | myCPU/guest/kernel/course_scheduler.c:189-243 | a round-robin turn keeps the queue exact |
| SchedulerPolicies.CfsStepKeeps | myCPU/guest/kernel/course_scheduler.c:246-282 | a CFS-lite turn keeps entries within one slice of each other |
| SchedulerPolicies.FcfsStepKeeps | myCPU/guest/kernel/course_scheduler.c:161-186 | an FCFS turn keeps the completion recurrence |
| SchedulerTurns.RrTurnOrder | myCPU/guest/kernel/course_scheduler.c:203-240 | a round-robin turn starts now or, with nobody waiting, at the next arrival; the line is the queue and then the newcomers in table order; its head runs for the smaller of slice and remaining work; the queue afterwards is the rest of the line, then those who arrived during the slice in table order, then the head if it has work left |
| SchedulerTurns.RrRunOrder | myCPU/guest/kernel/course_scheduler.c:203-240 | every turn of every round-robin run has this form |
| SchedulerTurns.FcfsTurn | myCPU/guest/kernel/course_scheduler.c:161-186 | an FCFS turn runs the first to arrive of those who wait, by pid and table position on ties, to its end; with nobody waiting only the clock moves, to the next arrival |
| SchedulerTurns.CfsTurn | myCPU/guest/kernel/course_scheduler.c:246-282 | a CFS-lite turn runs the one of least vruntime, then first to arrive, for at most one slice, and adds what it ran to its vruntime |
| CourseScheduler.Scheduler.AddTask | myCPU/guest/kernel/course_scheduler.c:340-361 | appended unless pid or burst is 0 or the table is full |
| CourseScheduler.Scheduler.PickFcfs | myCPU/guest/kernel/course_scheduler.c:64-83 | the ready entry first by arrival, pid and position |
| CourseScheduler.Scheduler.PickCfsLite | myCPU/guest/kernel/course_scheduler.c:86-108 | the ready entry with least vruntime |
| CourseScheduler.Scheduler.NextArrivalTime | myCPU/guest/kernel/course_scheduler.c:46-61 | the earliest arrival of unfinished work after now |
| CourseScheduler.Scheduler.RrEnqueueArrivals | myCPU/guest/kernel/course_scheduler.c:131-146 | all newly arrived entries join the queue in table order |
| CourseScheduler.Scheduler.RrPop | myCPU/guest/kernel/course_scheduler.c:149-158 | the head of the queue leaves |
| CourseScheduler.Scheduler.RunFcfs | myCPU/guest/kernel/course_scheduler.c:161-186 | terminates with a complete FCFS trace |
| CourseScheduler.Scheduler.RunRr | myCPU/guest/kernel/course_scheduler.c:189-243 | terminates with a complete RR trace, whose turns are as RrRunOrder says; refuses slice 0 |
| CourseScheduler.Scheduler.RunCfsLite | myCPU/guest/kernel/course_scheduler.c:246-282 | terminates with a complete CFS-lite trace, refuses slice 0 |
| CourseScheduler.Scheduler.UpdateWaitTurnaround | myCPU/guest/kernel/course_scheduler.c:285-305 | 32-bit totals and averages of turnaround and wait |
| CourseScheduler.Scheduler.Run | myCPU/guest/kernel/course_scheduler.c:363-410 | refused exactly for an empty table or slice 0; otherwise the final table is the end of a complete trace and completes at the makespan, with 32-bit totals |
| OnlineRuns.TickEffect | myCPU/guest/kernel/course_scheduler.c:802-825 | a configured scheduler never fails a tick; the tick goes to the process it leaves RUNNING and current, or is idle, and idle only when none was READY |
| OnlineHistory.HistoryConserves | myCPU/guest/kernel/course_scheduler.c:738-825 | over every history of ticks, reconfigurations, new processes and process states changed from outside: the ticks counted are the ticks there were, each was idle or credited, and vruntime equals run ticks |
| OnlineHistory.HistoryTicks | myCPU/guest/kernel/course_scheduler.c:802-825 | in every such history no tick fails, and each is credited to the slot it leaves current, whose process is RUNNING, or is idle because none was READY |
| OnlineHistory.ConfigureKeeps | myCPU/guest/kernel/course_scheduler.c:738-754 | configuring moves no slot and no tick count |
| OnlineRuns.RunConserves | myCPU/guest/kernel/course_scheduler.c:802-825 | consecutive ticks keep policy and slots and the balance of ticks |
| OnlineRuns.TickAloneIff | myCPU/guest/kernel/course_scheduler.c:612-707 | at most one process stays RUNNING across a tick if and only if round robin does not drop the running process |
| OnlineRuns.RunAlone | myCPU/guest/kernel/course_scheduler.c:612-707 | under FCFS and CFS-lite, with only ticks changing states, at most one process is ever RUNNING |
| OnlineRuns.CfsOnlineFairness | myCPU/guest/kernel/course_scheduler.c:589-609 | CFS-lite: run ticks of always-runnable processes differ by at most one |
| OnlineFairness.CfsPairFairness | myCPU/guest/kernel/course_scheduler.c:589-609 | CFS-lite: two slots within one credited tick of each other stay so while both stay live, whatever states the other processes are given from outside |
| OnlineFairness.CfsFairFromStart | myCPU/guest/kernel/course_scheduler.c:589-609 | from initialization, registrations and a switch to CFS-lite on, run ticks of slots that stay live differ by at most one at every moment |
| OnlineFairness.OnlineRrBoundedWait | myCPU/guest/kernel/course_scheduler.c:565-586 | round robin: a process that is READY and left READY is credited within slots times slice ticks, whatever happens to the others |
| OnlineFairness.RrTickNearer | myCPU/guest/kernel/course_scheduler.c:676-707 | each round-robin tick credits a READY slot or brings it nearer to its turn |
| OnlineRuns.DropStrands | myCPU/guest/kernel/course_scheduler.c:676-707 | round robin with an expired slice and nobody else READY drops the process while it stays RUNNING |
| OnlineRuns.StrandedForever | myCPU/guest/kernel/course_scheduler.c:565-586 | after a drop every tick is idle and the dropped process is never credited again |
| OnlineRuns.SingleProcessStrands | myCPU/guest/kernel/course_scheduler.c:676-707 | the smallest case: one process, slice 1, gets the first tick and no other |
| OnlineRuns.ConfigureAloneIff | myCPU/guest/kernel/course_scheduler.c:738-754 | configure keeps at most one RUNNING exactly when none was RUNNING before it |
| OnlineRuns.ConfigureForgets | myCPU/guest/kernel/course_scheduler.c:738-754 | the smallest case: configure forgets the running process |
| OnlineRuns.AddKeeps | myCPU/guest/kernel/course_scheduler.c:770-800 | registering a process keeps the scheduler sound and the books balanced |
| OnlineRuns.SelectEffect | myCPU/guest/kernel/course_scheduler.c:612-651 | selecting makes the chosen process RUNNING, the old one READY, and moves no other |
| OnlineRuns.PickRrFindsReady | myCPU/guest/kernel/course_scheduler.c:565-586 | the ring search misses no READY process |
| OnlineChoice.TickChoice | myCPU/guest/kernel/course_scheduler.c:552-707 | a tick goes to the running process while that may keep it (always under FCFS, while its slice lasts under round robin, unless a READY process has run less under CFS-lite); else to the READY slot the policy owes it to: the lowest, the first round the ring after the current one, or the least served with the smaller pid on ties; else to nobody. Process states, current pid, slice, switches, costs and preemptions are stated for each case |
| OnlineChoice.ConfigureOutcome | myCPU/guest/kernel/course_scheduler.c:738-754 | configuring is refused exactly for slice 0 under the two policies that need one; otherwise the policy is in force, nobody is current and the counters go on |
| OnlineChoice.AddOutcome | myCPU/guest/kernel/course_scheduler.c:770-800 | a process is registered, at the back and with nothing run, exactly when its pid is known and not ended, not listed, and a place is left |
| OnlineScheduler.OnlineScheduler.Configure | myCPU/guest/kernel/course_scheduler.c:738-754 | refuses slice 0 but for FCFS, forgets the current process |
| OnlineScheduler.OnlineScheduler.AddProcess | myCPU/guest/kernel/course_scheduler.c:770-800 | registered unless unknown, finished, listed already or no place is left |
| OnlineScheduler.OnlineScheduler.PickFcfs | myCPU/guest/kernel/course_scheduler.c:552-562 | the lowest READY slot, none only if there is none |
| OnlineScheduler.OnlineScheduler.PickRoundRobin | myCPU/guest/kernel/course_scheduler.c:565-586 | first READY slot after the previous one |
| OnlineScheduler.OnlineScheduler.PickCfsLite | myCPU/guest/kernel/course_scheduler.c:589-609 | least vruntime among candidates |
| OnlineScheduler.OnlineScheduler.SelectSlot | myCPU/guest/kernel/course_scheduler.c:612-651 | the whole new scheduler and process states of a selection |
| OnlineScheduler.OnlineScheduler.PrepareCurrent | myCPU/guest/kernel/course_scheduler.c:676-707 | keep, preempt by slice or vruntime, or pick anew |
| OnlineScheduler.OnlineScheduler.Tick | myCPU/guest/kernel/course_scheduler.c:802-825 | the whole new scheduler and process states of a timer tick |
| ProcessStates.SetStateMaps | myCPU/guest/kernel/course_process.c:362-373 | setting a state in the table moves the state of that pid and no other |
| FsRuns.RunRefines | myCPU/guest/kernel/course_fs.c:441-578 | every run of create, rmdir, unlink, write, read, size and lookup refines a map from component paths to directories and byte sequences, with the same answers; the map alone says when there is room |
| FsRuns.StepRefines | myCPU/guest/kernel/course_fs.c:441-578 | one call is that call on the tree of names, with the same answer; a create needs a tree of fewer than 160 paths |
| FsCapacity.RoomIff | myCPU/guest/kernel/course_fs.c:96-105 | a node is free exactly when the tree holds fewer paths than there are nodes: paths and used nodes correspond one to one |
| FsRuns.EmptyView | myCPU/guest/kernel/course_fs.c:383-427 | after mkfs only the root exists, whatever bytes the storage holds |
| FsRefinement.CreateRefines | myCPU/guest/kernel/course_fs.c:441-480 | create adds exactly the named path, empty, when its parent directory exists, the name is new and short enough and a node is free |
| FsRefinement.RmdirRefines | myCPU/guest/kernel/course_fs.c:486-498 | rmdir removes exactly the named path, an empty directory other than the root |
| FsRefinement.UnlinkRefines | myCPU/guest/kernel/course_fs.c:500-511 | unlink removes exactly the named file |
| FsRefinement.WriteRefines | myCPU/guest/kernel/course_fs.c:513-539 | a write overlays the bytes in one file, holes read as zeros, and touches no other file; it fails for directories, missing files and beyond 64 KiB |
| FsRefinement.ReadRefines | myCPU/guest/kernel/course_fs.c:541-578 | a read gives exactly the requested bytes of the file or fails; size and lookup agree with the tree |
| FsRefinement.StoreRowOverlays | myCPU/guest/kernel/course_fs.c:523-536 | bytes left in a reused slot by a deleted file are never seen |
| FsRefinement.ChildrenInView | myCPU/guest/kernel/course_fs.c:108-117 | the search for children agrees with the tree of names |
| FsTree.NamesUnique | myCPU/guest/kernel/course_fs.c:246-273 | a directory never has two children of one name |
| FsTree.PathsUnique | myCPU/guest/kernel/course_fs.c:441-511 | parent links form a tree rooted at node 0: no two paths lead to one node |
| FsTree.HasChildrenIff | myCPU/guest/kernel/course_fs.c:108-117 | node_has_children agrees with the index being nonempty |
| FsTree.InsertKeepsInv | myCPU/guest/kernel/course_fs.c:246-273 | inserting keeps tree, sorted exact indexes and leaf tables |
| FsTree.RemoveKeepsInv | myCPU/guest/kernel/course_fs.c:276-300 | removing keeps them too, and the slot may be reused |
| FsTree.InsertLookup | myCPU/guest/kernel/course_fs.c:246-273 | after an insertion exactly one more path leads somewhere |
| FsTree.RemoveLookup | myCPU/guest/kernel/course_fs.c:276-300 | after a removal exactly one path fewer leads somewhere |
| FsTree.EmptyInv | myCPU/guest/kernel/course_fs.c:383-427 | the file system after mkfs satisfies the invariant |
| FsPaths.ResolveReports | myCPU/guest/kernel/course_fs.c:329-381 | path resolution reports the node at the path's components, its parent directory and last component, for every absolute path with any slashes |
| FsIndex.LeavesPartition | myCPU/guest/kernel/course_fs.c:189-221 | the leaves cut the index into consecutive runs of at most four |
| FsIndex.BitsIsLog | myCPU/guest/kernel/course_fs.c:120-186 | the bound on leaf comparisons is the floor of the binary logarithm plus one |
| FsIndex.IndexFits | myCPU/guest/kernel/course_fs.c:246-273 | an index has room whenever a node is free, so the insertion failure branch is never taken |
| FsNames.LessIff | myCPU/guest/kernel/course_fs.c:24-43 | a name sorts before another exactly when it is a proper beginning of it or has the smaller character at the first difference |
| FsNames.SplitJoined | myCPU/guest/kernel/course_fs.c:303-326 | the components of a path are the names it was put together from, whatever the number of slashes between, before and behind them |
| FsNames.JoinedSplit | myCPU/guest/kernel/course_fs.c:303-326 | every path is its components with slashes between them |
| CourseFs.FileSystem.FindChild | myCPU/guest/kernel/course_fs.c:120-186 | the two-level search finds what a linear scan finds, in at most floor(log2 leaves) + 1 + 3 comparisons |
| CourseFs.FileSystem.FindLeaf | myCPU/guest/kernel/course_fs.c:144-160 | a leaf that must hold the name if any does |
| CourseFs.FileSystem.FindInLeaf | myCPU/guest/kernel/course_fs.c:166-185 | the scan's answer, in at most three comparisons |
| CourseFs.FileSystem.RebuildChildBtree | myCPU/guest/kernel/course_fs.c:189-221 | leaf tables rebuilt from the index |
| CourseFs.FileSystem.InsertChildIndex | myCPU/guest/kernel/course_fs.c:246-273 | the child at its sorted place |
| CourseFs.FileSystem.RemoveChildIndex | myCPU/guest/kernel/course_fs.c:276-300 | the child cut out |
| CourseFs.FileSystem.AllocNode | myCPU/guest/kernel/course_fs.c:96-105 | first unused node |
| CourseFs.FileSystem.NodeHasChildren | myCPU/guest/kernel/course_fs.c:108-117 | some used node has this parent |
| CourseFs.FileSystem.ResolvePath | myCPU/guest/kernel/course_fs.c:329-381 | node, parent and last component |
| CourseFs.FileSystem.Create | myCPU/guest/kernel/course_fs.c:441-480 | the whole new file system and result of create |
| CourseFs.FileSystem.Rmdir | myCPU/guest/kernel/course_fs.c:486-498 | the whole new file system and result of rmdir |
| CourseFs.FileSystem.Unlink | myCPU/guest/kernel/course_fs.c:500-511 | the whole new file system and result of unlink |
| CourseFs.FileSystem.Write | myCPU/guest/kernel/course_fs.c:513-539 | the whole new file system, every storage byte included, and result of write |
| CourseFs.FileSystem.Read | myCPU/guest/kernel/course_fs.c:541-562 | the requested bytes or failure |
| CourseFs.FileSystem.Size | myCPU/guest/kernel/course_fs.c:568-578 | the size of a file |
| CourseFs.FileSystem.Lookup | myCPU/guest/kernel/course_fs.c:564-566 | whether the path exists |
| CourseFs.NextComponent | myCPU/guest/kernel/course_fs.c:303-326 | the next path component, repeated slashes skipped |
| CourseFs.CompareNames | myCPU/guest/kernel/course_fs.c:24-43 | byte-wise comparison |
| FdRuns.Isolation | myCPU/guest/kernel/course_fd.c:140-286 | whatever else happens on other descriptors and other files, the holder of a descriptor gets the replies, and leaves the contents and offset, that its own calls give on the file alone |
| FdRuns.CopyRoundTrip | myCPU/guest/kernel/course_fd.c:140-286 | bytes written in chunks to a new file come back, after a seek to 0, from reads in chunks of any sizes, with other work interleaved |
| FdRuns.ReadsConcatenate | myCPU/guest/kernel/course_fd.c:198-227 | reads of any sizes deliver one contiguous stretch of the file, to its end if they ask for enough |
| FdRuns.WritesConcatenate | myCPU/guest/kernel/course_fd.c:251-270 | writes of any sizes leave what one write of all their bytes leaves |
| FdRuns.OpenOutcome | myCPU/guest/kernel/course_fd.c:140-182 | exactly when an open succeeds, which descriptor it gives, and what it does to the tree of names |
| FdRuns.DescriptorIndependent | myCPU/guest/kernel/course_fd.c:67-73 | a descriptor in use changes only by its own calls |
| FdModel.OwnStep | myCPU/guest/kernel/course_fd.c:198-286 | a read, write or seek through a descriptor is that call on its file alone |
| FdModel.ForeignStep | myCPU/guest/kernel/course_fd.c:140-298 | calls on other descriptors and other files leave a descriptor's file and offset alone |
| FdModel.ResolvedAbsolute | myCPU/guest/kernel/course_fd.c:105-117 | an absolute path resolves to itself exactly when it is shorter than the 96-byte buffer; a longer one is cut to 95 characters without an error |
| FdModel.ResolvedRelative | myCPU/guest/kernel/course_fd.c:119-138 | a relative path is never cut: it stands below the directory or is refused |
| FdModel.LongNamesCollide | myCPU/guest/kernel/course_fd.c:105-117 | two long absolute names resolve alike exactly when they agree on 95 characters |
| FdRuns.OpenedPath | myCPU/guest/kernel/course_fd.c:140-182 | an opened descriptor stands for the absolute path it was asked for exactly when that fits the buffer, and otherwise for its first 95 characters |
| FdRuns.LongNamesOnePath | myCPU/guest/kernel/course_fd.c:140-182 | opening two long names gives two descriptors on one path exactly when the names agree on 95 characters |
| FdRuns.OnePathOneFile | myCPU/guest/kernel/course_fd.c:198-270 | what is written through one of two descriptors on one path is there for the other |
| FdRuns.LongNamesMeet | myCPU/guest/kernel/course_fd.c:105-182 | a concrete case: 94 slashes and x1, then 94 slashes and x2, open one new file named x |
| FdRuns.StdioStays | myCPU/guest/kernel/course_fd.c:80-103 | from the initial table, over every run of calls, descriptors 0 to 2 are the standard streams |
| FdModel.StepKeepsValid | myCPU/guest/kernel/course_fd.c:140-298 | every call keeps stdio at 0 to 2, paths within the buffer and an absolute directory |
| FdLifetime.CloseEffect | myCPU/guest/kernel/course_fd.c:184-196 | close answers Done exactly for a descriptor in use from 3 on, which is unused afterwards; no other descriptor, no file and not the directory changes; otherwise BAD_FD and nothing changes |
| FdLifetime.AfterClose | myCPU/guest/kernel/course_fd.c:67-73 | after a close, reads, writes, seeks and closes of the descriptor answer BAD_FD through every run in which no open hands it out again |
| FdLifetime.ReopenAfterClose | myCPU/guest/kernel/course_fd.c:52-64 | right after a close an open never lacks a slot, and one that succeeds gives the lowest free descriptor, at most the closed one |
| FdLifetime.ChdirEffect | myCPU/guest/kernel/course_fd.c:288-298 | chdir succeeds exactly when the path resolves to a node of the tree; the directory then is the resolved path, and nothing else changes |
| FdLifetime.RelativeAfterChdir | myCPU/guest/kernel/course_fd.c:119-138 | after a chdir to an absolute directory a relative name stands for the name below it |
| FdLifetime.StdioRefuses | myCPU/guest/kernel/course_fd.c:198-286 | what the standard streams answer to reads, writes, seeks and closes |
| FdLifetime.ProcStretch | myCPU/guest/kernel/course_fd.c:228-246 | reads of any sizes through a proc descriptor deliver one contiguous stretch of its text, to its end if they ask for enough |
| FdLifetime.OpenErrors | myCPU/guest/kernel/course_fd.c:140-182 | which error an open answers: no path, no slot, writing to a proc node, no such file |
| FdLifetime.UnknownRefused | myCPU/guest/kernel/course_fd.c:67-73 | a number that is no descriptor, or one not in use, answers BAD_FD to every call and nothing changes |
| FdLifetime.FileGone | myCPU/guest/kernel/course_fd.c:198-286 | a descriptor whose file was removed answers reads and writes NO_SUCH_FILE, or PERMISSION_DENIED as its mode says, changes no file, and may still be moved |
| CourseFd.FdTable.ResolvePath | myCPU/guest/kernel/course_fd.c:105-138 | the resolved path or refusal |
| CourseFd.FdTable.FindFreeFd | myCPU/guest/kernel/course_fd.c:52-64 | lowest free descriptor from 3 on |
| CourseFd.FdTable.Open | myCPU/guest/kernel/course_fd.c:140-182 | the whole new table and file system, and the reply |
| CourseFd.FdTable.Close | myCPU/guest/kernel/course_fd.c:184-196 | the whole new table and the reply: the descriptor is free again (CloseEffect), 0 to 2 and unused ones are refused |
| CourseFd.FdTable.Read | myCPU/guest/kernel/course_fd.c:198-249 | the bytes at the offset, as many as there are, and the offset moved |
| CourseFd.FdTable.Write | myCPU/guest/kernel/course_fd.c:251-270 | the file written at the offset and the offset moved |
| CourseFd.FdTable.Seek | myCPU/guest/kernel/course_fd.c:272-286 | the offset set |
| CourseFd.FdTable.SetCwd | myCPU/guest/kernel/course_fd.c:288-298 | the directory set if the path exists |
| ElfPlans.AcceptedIff | myCPU/guest/kernel/linux_compat_loader.c:192-412 | an image gets a plan exactly when its header, every entry of its table and the number of its segments are in order, and the plan is the one its headers describe (in bytes: HeaderAcceptedIff, PlanHeader, PlanSegments, PlanInterp, PlanPhdr) |
| ElfPlans.AcceptedPlan | myCPU/guest/kernel/linux_compat_loader.c:288-411 | an accepted plan: 1 to 8 segments, the PT_LOAD entries in order, each inside the image; entry and interpreter path in range; the program-header address comes from PT_PHDR or points into a segment that carries the table |
| ElfPlans.PhdrProvenance | myCPU/guest/kernel/linux_compat_loader.c:304-363 | a nonzero program-header address is what some PT_PHDR says, or the place of the table's own bytes in a PT_LOAD segment |
| ElfPlans.TableAccepted | myCPU/guest/kernel/linux_compat_loader.c:294-387 | reading the table accepts exactly the tables whose entries are all sound and hold at most eight segments |
| ElfBytes.HeaderAcceptedIff | myCPU/guest/kernel/linux_compat_loader.c:212-287 | the first 64 bytes are in order exactly when magic, class, byte order, machine 243, type 2 or 3, entry size, table range and entry address are, each read off the image bytes |
| ElfBytes.PlanHeader | myCPU/guest/kernel/linux_compat_loader.c:238-292 | type, load bias, entry, header count, stack top and counts of an accepted plan, read off the image bytes |
| ElfBytes.PlanSegments | myCPU/guest/kernel/linux_compat_loader.c:294-346 | segment i of an accepted plan is the i-th PT_LOAD entry in table order: with the entry at position a its address is the word at a + 16 plus the bias, its memory size the word at a + 40, file size at a + 32, offset at a + 8, and flags the 4 bytes at a + 4 |
| ElfBytes.PlanInterp | myCPU/guest/kernel/linux_compat_loader.c:364-386 | the interpreter of an accepted plan is the NUL-terminated path the last PT_INTERP entry's file bytes begin with; none without such an entry |
| ElfBytes.PlanPhdr | myCPU/guest/kernel/linux_compat_loader.c:304-363 | the program-header address of an accepted plan: what the last PT_PHDR says; without one, where the first PT_LOAD whose file bytes hold the table puts it; 0 if there is neither |
| ElfBytes.HeaderFault | myCPU/guest/kernel/linux_compat_loader.c:212-287 | a bad header is refused for the first check that fails, each read off the image bytes |
| ElfBytes.RefusedFor | myCPU/guest/kernel/linux_compat_loader.c:294-398 | with a header in order an image is refused for its first entry that is not in order, with the error for what is wrong with its bytes, or for having no PT_LOAD entry |
| ElfLoader.BuildLoadPlan | myCPU/guest/kernel/linux_compat_loader.c:192-412 | the plan, complete or partial, and the verdict for every image; all reads inside the image |
| ElfLoader.ReadTable | myCPU/guest/kernel/linux_compat_loader.c:294-387 | the table read entry by entry, stopping at the first error |
| ElfLoader.CopyInterpPath | myCPU/guest/kernel/linux_compat_loader.c:164-190 | the NUL-terminated path of 1 to 127 bytes, or failure |
| ElfLoader.AddU64 | myCPU/guest/kernel/linux_compat_loader.c:57-67 | addition that reports a wrap-around |
| ElfLoader.RangeInImage | myCPU/guest/kernel/linux_compat_loader.c:70-77 | the range lies inside the image, without wrap-around |
| ElfLoader.RangeContains | myCPU/guest/kernel/linux_compat_loader.c:80-91 | one range contains the other, without wrap-around |
| LittleEndian.ReadU16 | myCPU/guest/kernel/linux_compat_loader.c:32-35 | two bytes, lowest first |
| LittleEndian.ReadU32 | myCPU/guest/kernel/linux_compat_loader.c:38-43 | four bytes, lowest first |
| LittleEndian.ReadU64 | myCPU/guest/kernel/linux_compat_loader.c:46-54 | eight bytes, lowest first |
| LittleEndian.LeToLe | myCPU/guest/kernel/linux_compat_exec.c:212-218 | a word written little-endian reads back |
| LittleEndian.WordBytes | myCPU/guest/kernel/linux_compat_exec.c:212-218 | the eight bytes of a word |
| ExecPlans.SegmentsFlat | myCPU/guest/kernel/linux_compat_exec.c:269-328 | after a load every address shows the flat image of the one segment whose pages cover it (file bytes, then zeros), or what it showed before; no two segments share a page |
| ExecPlans.ChunksFlat | myCPU/guest/kernel/linux_compat_exec.c:285-327 | the 2 MiB chunk loop equals one flat copy of the segment |
| ExecPlans.LoadedIff | myCPU/guest/kernel/linux_compat_exec.c:269-328 | after a successful load, image[offset + k] stands at vaddr + k for k < filesz and 0 for the rest of memsz, exactly when rounding the size up to pages does not wrap around |
| ExecPlans.WrappedSegmentVanishes | myCPU/guest/kernel/linux_compat_exec.c:271-285 | a segment of 2^64 - 1 bytes at 0x1001 loads successfully with nothing mapped |
| ExecPlans.PhdrVisible | myCPU/guest/kernel/linux_compat_loader.c:347-362 | after loading, a program-header address derived from PT_LOAD shows the table's own bytes |
| ExecSuccess.LoadsIff | myCPU/guest/kernel/linux_compat_exec.c:269-328 | a plan loads exactly when its segments are in order, their pages are free user pages apart from one another, and their chunks fit the region table |
| ExecSuccess.ChunksLoadIff | myCPU/guest/kernel/linux_compat_exec.c:285-327 | the chunk loop goes through exactly when the pages are free and region slots are left |
| ExecSuccess.FailureSays | myCPU/guest/kernel/linux_compat_exec.c:270-287 | a segment is blamed only when one is ill formed, and a mapping only when the segments up to the one it was for are well formed; if all load, all are well formed |
| ExecAccess.SegmentsAccess | myCPU/guest/kernel/linux_compat_exec.c:153-166 | after a load the pages of each segment may be read, written and executed exactly as flag bits 4, 2 and 1 say, and the access elsewhere is as before |
| ExecLoader.FillChunk | myCPU/guest/kernel/linux_compat_exec.c:289-325 | a chunk shows a flat piece of the segment |
| ExecLoader.LoadSegment | myCPU/guest/kernel/linux_compat_exec.c:270-327 | the whole new address space of one segment's chunk loop |
| ExecLoader.Load | myCPU/guest/kernel/linux_compat_exec.c:253-335 | the whole new address space, partial on failure, the verdict and the entry point |
| UserSpace.WriteObjectBytes | myCPU/guest/kernel/linux_compat_exec.c:179-209 | the page loop replaces exactly the bytes it is given |
| StackReader.StackRoundTrip | myCPU/guest/kernel/linux_compat_exec.c:337-501 | a program that reads its stack by the calling convention finds argc and pointers to NUL-terminated copies of each argument, an empty environment and the auxiliary vector up to AT_NULL; the stack pointer is 16-byte aligned |
| StackReader.StartReadable | myCPU/guest/kernel/linux_compat_exec.c:366-500 | whenever the builder succeeds, the program reads argc, argv, an empty environment and the auxiliary vector, given in the numbers of the Linux ABI, from the region below stack_top, and AT_RANDOM leads to the 16 bytes 0x5a + 17 i modulo 256 below the strings |
| StackReader.StackOkIff | myCPU/guest/kernel/linux_compat_exec.c:337-496 | the stack is built exactly when at most 16 arguments are given, its 32 KiB can be mapped, an interpreter that is asked for has a base and an entry, and strings, random bytes and frame fit |
| StackReader.StackRefusals | myCPU/guest/kernel/linux_compat_exec.c:350-496 | which error a refusal gives: too many arguments, mapping refused, strings too large, no room for the random bytes, interpreter missing, frame too large, in this order |
| StackReader.PartsShown | myCPU/guest/kernel/linux_compat_exec.c:380-489 | frame, random bytes and strings lie one above the other inside the stack |
| StackBuilder.BuildStack | myCPU/guest/kernel/linux_compat_exec.c:337-501 | the verdict for every plan and argv, and on success the stack pointer and every byte of the stack region |
| StackBuilder.FillStack | myCPU/guest/kernel/linux_compat_exec.c:380-496 | the stack filled from the top down, or the error that stops it |
| StackBuilder.PushStrings | myCPU/guest/kernel/linux_compat_exec.c:381-395 | all argument strings with their addresses, exactly when they fit |
| StackBuilder.PushU64 | myCPU/guest/kernel/linux_compat_exec.c:234-251 | one word below the cursor, or refusal |
| StackBuilder.AuxValues | myCPU/guest/kernel/linux_compat_exec.c:419-452 | the auxiliary vector in order |
| PmmModel.RunRefines | myCPU/guest/kernel/pmm.c:87-134 | over every run the hinted bitmap allocator answers as a first-fit allocator over a set: a page is lent once at a time, always the lowest free one, and free plus held pages are all |
| PmmModel.AllocIsFirstFit | myCPU/guest/kernel/pmm.c:87-109 | alloc gives the lowest free page, fails only when none is free, and keeps every page below the hint used |
| PmmModel.ReleaseKeeps | myCPU/guest/kernel/pmm.c:111-134 | freeing keeps hint and count right; a page that is not used is refused |
| PmmModel.StepRefines | myCPU/guest/kernel/pmm.c:87-134 | one request is that request on the set of lent pages |
| PmmModel.CheckExact | myCPU/guest/kernel/pmm.c:115-123 | every address that passes the check belongs to a managed page exactly when the managed range ends on a page boundary |
| PmmModel.TailPasses | myCPU/guest/kernel/pmm.c:115-123 | a concrete case: the address of a last partial page passes the check |
| Pmm.BitsUpdate | myCPU/guest/kernel/pmm.c:27-40 | changing one byte of the bitmap in one bit changes the bit of one page |
| Pmm.PageAllocator.constructor | myCPU/guest/kernel/pmm.c:42-85 | the bitmap has a bit for every managed page and lies below the managed range; all pages are free; with early memory untouched by an earlier takeover, exactly the whole pages behind the bitmap are managed |
| Pmm.TakeMemory | myCPU/guest/kernel/pmm.c:43-78 | how early memory is divided into bitmap and managed pages, and how many pages that leaves |
| Pmm.PagesLeft | myCPU/guest/kernel/pmm.c:43-73 | the bitmap costs at most one page more than it fills, so two pages of room leave one to manage |
| Pmm.PageAllocator.FindFree | myCPU/guest/kernel/pmm.c:94-99 | the circular search from the hint |
| Pmm.PageAllocator.AllocPage | myCPU/guest/kernel/pmm.c:87-109 | the page's address and the whole new allocator |
| Pmm.PageAllocator.FreePage | myCPU/guest/kernel/pmm.c:111-134 | exactly the addresses of used pages are taken back; double frees and an address in a last partial page are refused |
| Pmm.PageAllocator.ChecksInBitmapIff | myCPU/guest/kernel/pmm.c:115-124 | every address that passes the check has its bit in the bitmap exactly when the range ends on a page boundary or the bitmap has a bit to spare |
| Pmm.NoBitToSpare | myCPU/guest/kernel/pmm.c:43-73 | a concrete case: eight pages and a byte, a bitmap of one byte, and an accepted address with its bit outside it |
| Pmm.PageAllocator.PageBitSet | myCPU/guest/kernel/pmm.c:33-35 | one bit set, the others kept |
| Pmm.PageAllocator.PageBitClear | myCPU/guest/kernel/pmm.c:38-40 | one bit cleared, the others kept |
| Pmm.EarlyMemory.Alloc | myCPU/guest/kernel/memory.c:52-66 | an aligned block above everything given out before and below the limit; refused exactly when it does not fit or the alignment is no power of two |
| Pmm.EarlyMemory.Finalize | myCPU/guest/kernel/memory.c:76-86 | the next page boundary becomes cursor and limit |
| PumpModel.Protocol | frontend/app/terminal_input_pump.js:27-95 | over every interleaving of enqueue, reset, microtask and answer, callbacks into the pump included: one request in flight at most; batches sent since the last reset, then the queue, are the text typed since; all sent batches but the one in flight were delivered, in order, and none from before the reset; queued text has a flush to come; pending is exact |
| PumpModel.StepKeeps | frontend/app/terminal_input_pump.js:27-95 | every step keeps the protocol invariant |
| PumpModel.Drains | frontend/app/terminal_input_pump.js:38-79 | no lost wake-up: once the scheduled flush and the answers come in, everything typed since the last reset is sent and delivered, in order, and the pump is at rest |
| PumpModel.SettleKeeps | frontend/app/terminal_input_pump.js:50-62 | an answer is delivered unless stale, and the flush goes on |
| PumpEvents.AnswerDelivered | frontend/app/terminal_input_pump.js:50-62 | an answer of the current generation is delivered first, once, with its own outcome and batch; a stale one is not delivered |
| PumpEvents.OnlyAnswersDeliver | frontend/app/terminal_input_pump.js:75-94 | no other step delivers anything |
| PumpEvents.RunTold | frontend/app/terminal_input_pump.js:27-33 | over every run each announcement of the pending flag changes what the one before it said, and the last one is how things stand |
| InputPump.TerminalInputPump.ChangePending | frontend/app/terminal_input_pump.js:27-33 | pending changes and is announced only when different |
| InputPump.TerminalInputPump.FlushQueue | frontend/app/terminal_input_pump.js:43-64 | from the loop test to the next await |
| InputPump.TerminalInputPump.EnqueueText | frontend/app/terminal_input_pump.js:82-89 | text queued, flush scheduled once |
| InputPump.TerminalInputPump.ResetPump | frontend/app/terminal_input_pump.js:90-94 | generation advanced, queue emptied |
| InputPump.TerminalInputPump.RunMicrotask | frontend/app/terminal_input_pump.js:75-78 | the scheduled flush starts, or leaves at once |
| InputPump.TerminalInputPump.Answered | frontend/app/terminal_input_pump.js:50-64 | delivery, callbacks, then the flush goes on |
| AssetCollector.Collect | myCPU/tools/linux_compat_rootfs_asset.py:382-478 | each path has one record; the required paths are the least set that holds the required listed ones and is closed under the needs of all but the late ones, which is what chains of needs reach; terminates on cycles; fails exactly when a required path cannot be read or a path so reached lacks a library; and is the full closure exactly when what reached late paths need is reached without them |
| AssetCollector.Work | myCPU/tools/linux_compat_rootfs_asset.py:464-477 | the growing worklist computes the least closed set |
| AssetCollector.AddRecord | myCPU/tools/linux_compat_rootfs_asset.py:405-447 | one record a path, required marks added, required paths must be readable |
| AssetClosure.NothingLate | myCPU/tools/linux_compat_rootfs_asset.py:449-451 | without optional lists nothing is late, so the collection is the full closure |
| AssetClosure.FullClosureIff | myCPU/tools/linux_compat_rootfs_asset.py:464-477 | with optional lists the collection is the closure under all needs exactly when whatever a reached late path needs is reached through other paths, a condition on the lists and the source tree alone |
| AssetClosure.LeastIsReached | myCPU/tools/linux_compat_rootfs_asset.py:464-477 | the least closed set is what chains of needs reach from the roots |
| AssetClosure.CompleteIff | myCPU/tools/linux_compat_rootfs_asset.py:471-477 | some closed set has all its libraries exactly when everything reached has |
| AssetClosure.UpgradeLost | myCPU/tools/linux_compat_rootfs_asset.py:413-414 | an optional library found to be required after the cursor has passed it: its own dependency is not collected |
| AssetClosure.WorkDone | myCPU/tools/linux_compat_rootfs_asset.py:464-478 | when the cursor reaches the end, the required set is least and complete |
| AssetModel.AddEffect | myCPU/tools/linux_compat_rootfs_asset.py:405-447 | adding a path adds one record, of the entry's kind and mark, or a required mark, and nothing else |
| AssetModel.AddNeededEffect | myCPU/tools/linux_compat_rootfs_asset.py:470-477 | expanding a record adds exactly the libraries it needs, or fails when one cannot be found |
| ClockModel.RunKeeps | myCPU/guest/kernel/course_memory.c:117-144 | after every run of touches no page is resident twice, the last touched page is resident, and pages in use are faults less reclaims |
| ClockModel.ReplacementIsSecondChance | myCPU/guest/kernel/course_memory.c:48-67 | replacement in full memory is second chance on the queue of frames from the hand on |
| ClockModel.TouchEffect | myCPU/guest/kernel/course_memory.c:117-144 | the touched page is resident afterwards; at most one other page leaves, only on a fault without a free frame, and it is the first clear frame from the hand (the hand's own if all were referenced) |
| ClockModel.SweepWithin | myCPU/guest/kernel/course_memory.c:48-67 | the sweep looks at exactly the referenced frames before the first clear one and at that one, at most n + 1, and stops there, so the fallback is never taken; if all were referenced it stops where it started |
| ClockModel.SweepLooks | myCPU/guest/kernel/course_memory.c:54-64 | the number of frames looked at, and that the loop stops at a clear frame, from any point of the sweep |
| ClockModel.SweepIsSecondChance | myCPU/guest/kernel/course_memory.c:48-67 | the sweep leaves the ring of frames as second chance leaves its queue |
| ClockModel.TouchOneFrame | myCPU/guest/kernel/course_memory.c:117-144 | a touch that needs no replacement changes one frame: the page's own, referenced from then on and dirty if it was or if this is a write, or the first empty one, where the page is loaded |
| CourseMemory.PagedMemory.CountUsedFrames | myCPU/guest/kernel/course_memory.c:9-20 | resident frames counted |
| CourseMemory.PagedMemory.FindResidentFrame | myCPU/guest/kernel/course_memory.c:23-33 | the frame that holds the page |
| CourseMemory.PagedMemory.FindFreeFrame | myCPU/guest/kernel/course_memory.c:36-46 | first free frame |
| CourseMemory.PagedMemory.ClockSelectVictim | myCPU/guest/kernel/course_memory.c:49-67 | frames, hand and victim of the sweep, in at most n + 1 looks, the victim's bit clear |
| CourseMemory.PagedMemory.TouchPage | myCPU/guest/kernel/course_memory.c:117-144 | the whole new memory state of a touch |
| SyncModel.SemConservation | myCPU/guest/kernel/course_sync.c:72-115 | over every run: initial value plus posts equal value plus immediate entries plus wake-ups; pids are woken in the order they queued; nobody waits while the value is positive; entries never outnumber initial value plus posts |
| SyncModel.NobodyFails | myCPU/guest/kernel/course_sync.c:72-115 | when blocked processes do not call and nobody else changes states, no wait or post ever fails, each waiter is queued once and BLOCKED, whoever left the queue is READY, and other states are unchanged |
| SyncModel.NobodyFailsLocking | myCPU/guest/kernel/course_sync.c:128-175 | the same for a mutex: no lock fails, an unlock only for somebody who is not the owner |
| SyncModel.PlaceLeft | myCPU/guest/kernel/course_sync.c:31-41 | a caller that is not blocked finds a place, since there are as many places as processes |
| SyncModel.Fifo | myCPU/guest/kernel/course_sync.c:128-175 | no overtaking: the waiter at place j owns the mutex after exactly j + 1 unlocks by an owner |
| SyncModel.StepOwner | myCPU/guest/kernel/course_sync.c:128-175 | ownership moves only by taking a free mutex or by the owner handing it to the head of the queue |
| SyncModel.MutexSafe | myCPU/guest/kernel/course_sync.c:117-175 | in every reachable state a nonempty queue has an owner, and it fits its array |
| SyncModel.OwnerStays | myCPU/guest/kernel/course_sync.c:152-175 | unless it unlocks itself, an owner keeps the mutex through any run, and those who wait go on waiting |
| SyncModel.HandedToTheGone | myCPU/guest/kernel/course_sync.c:163-170 | a waiter whose process is gone is handed the mutex all the same, the unlock reports an error, and while nobody unlocks as that pid it stays the owner through any run |
| SyncModel.PostSoundIff | myCPU/guest/kernel/course_sync.c:97-115 | a post changes none but a blocked process exactly when the head of the queue is blocked still, READY or gone, and brings an ended process back exactly when the head has ended |
| SyncModel.UnlockSoundIff | myCPU/guest/kernel/course_sync.c:163-170 | the same of an unlock by the owner |
| SyncModel.PostRevivesKilled | myCPU/guest/kernel/course_sync.c:103-111 | a concrete case: a process waits, is killed, and the next post makes it READY |
| SyncOutcomes.WaitOutcome | myCPU/guest/kernel/course_sync.c:72-95 | a wait goes through while the value is positive; else the caller queues at the back and blocks, unless the queue is full; an unknown or dead caller is refused |
| SyncOutcomes.PostOutcome | myCPU/guest/kernel/course_sync.c:97-115 | a post makes the head of the queue READY and nobody else, or raises the value when nobody waits |
| SyncOutcomes.LockOutcome | myCPU/guest/kernel/course_sync.c:128-150 | a lock takes a free mutex; else the caller queues at the back and blocks, unless the queue is full |
| SyncOutcomes.UnlockOutcome | myCPU/guest/kernel/course_sync.c:152-175 | an unlock by anybody but the owner is refused, and counted if there is an owner; the owner's frees the mutex or hands it to the head of the queue |
| SyncOutcomes.MisuseCounted | myCPU/guest/kernel/course_sync.c:152-160 | over every run the misuse counter counts the unlocks of an owned mutex by somebody else |
| CourseSync.PopWaiter | myCPU/guest/kernel/course_sync.c:44-58 | the head leaves, the shifted array holds the others in order |
| CourseSync.EnqueueWaiter | myCPU/guest/kernel/course_sync.c:31-41 | the pid joins at the back unless the array is full |
| CourseSync.CourseSemaphore.Wait | myCPU/guest/kernel/course_sync.c:72-95 | the whole new semaphore and process states, and the result |
| CourseSync.CourseSemaphore.Post | myCPU/guest/kernel/course_sync.c:97-115 | the whole new semaphore and process states, and the result |
| CourseSync.CourseMutex.LockFor | myCPU/guest/kernel/course_sync.c:128-150 | the whole new mutex and process states, and the result |
| CourseSync.CourseMutex.UnlockFor | myCPU/guest/kernel/course_sync.c:152-175 | the whole new mutex and process states, and the result |

## Left out

- CourseScheduler.Scheduler.Run: as RunFcfs, RunRr and RunCfsLite, needs the makespan of the table below 2^32 - 1, because that value is the sentinel for "no next arrival"; `MakespanWithin` turns it into a bound on the inputs. The count of runs by policy is not kept.
- CourseProcessRuns.ReachableAccounting: the 32-bit statistics are natural numbers; pids and page ids do wrap, and a counter that has wrapped is exhausted as in the code.
- CourseProcess.ProcessTable.ExecImage: what the loader made of the image (entry point, stack pointer or failure) is an argument; names, argv, crash records and ABI tags of a process are not modelled.
- OnlineScheduler.OnlineScheduler.Tick: the scheduler is bound to its process table from the start; a tick without one, and binding another one later, are not modelled.
- OnlineHistory.HistoryConserves: the scheduler's ticks, idle ticks, run ticks, vruntime and slice counters are natural numbers; the code's 32-bit counters keep the balance modulo 2^32 only.
- OnlineRuns.CfsOnlineFairness: holds of the code as long as no vruntime has wrapped around at 2^32; the model's vruntime does not wrap.
- OnlineFairness.CfsPairFairness: the same, and for CfsFairFromStart.
- ClockModel.RunKeeps: the fault and reclaim counters are natural numbers; the code's 32-bit counters keep the balance modulo 2^32 only.
- CourseProcessEffects.BootStats: the totals are natural numbers; the code's 32-bit statistics are these modulo 2^32.
- SyncOutcomes.MisuseCounted: likewise for the misuse counter.
- SyncModel.SemConservation: the semaphore's value is an integer without bound; the code's int32 value overflows when posts without waiters take it past 2^31 - 1.
- OnlineRuns.RunAlone: covers FCFS and CFS-lite while only ticks change states; `TickAloneIff` gives the exact condition for round robin.
- CourseFs.FileSystem.Create: the rollback after a failed index insertion has no counterpart, since `IndexFits` shows the insertion cannot fail.
- CourseFs.FileSystem.Read: the output buffer is the returned sequence; aliasing of buffers with the storage is not modelled.
- CourseFd.FdTable.Read: the text of a proc node is an argument at each read; how procfs forms it is not modelled.
- FdRuns.CopyRoundTrip: needs the file to stay within the 64 KiB a node can hold.
- ElfLoader.BuildLoadPlan: the diagnostic texts are one verdict value each; the trace record is not modelled.
- ExecLoader.Load: the address space is abstract (zero-filled regions that never overlap, whose pages always resolve; 48 region slots); images end at least one page below 2^64. Page tables, and rebasing an interpreter's plan, are not part of this model.
- ExecPlans.PhdrVisible: the address taken from a PT_PHDR entry is not checked by the loader, so only derived addresses are covered, for segments whose sizes do not wrap around.
- StackBuilder.BuildStack: after a failure past the mapping the region is there, but which of its bytes were written is not stated.
- Pmm.PageAllocator.FreePage: for a managed range that ends on a page boundary or a bitmap with a bit to spare; `ChecksInBitmapIff` shows that exactly otherwise some address makes the code read past the bitmap, which has no meaning in the model.
- InputPump.TerminalInputPump.Answered: callbacks do not throw; response callbacks may call the pump, while sendInput and the pending callback do not.
- AssetCollector.Collect: the source tree is a finite map from readable paths to needed names and from names to paths; path normalisation, the discovery of target tools and of compiler plugins, and the emitted C source are not modelled. The lists are one sequence of entries.
- Null pointers: every pointer argument is there.
- kmalloc and kfree in myCPU/guest/kernel/course_memory.c: a free list of eight blocks, easy beside the rest.
- listdir and the counters of opens, closes and seeks in myCPU/guest/kernel/course_fs.c: text formatting and plain counting.
- directory_paths_for in myCPU/tools/linux_compat_rootfs_asset.py: a set of parent directories.
- brk, mmap and mremap in myCPU/guest/kernel/linux_compat_vm.c: they rest on page tables that are not part of this model.
- Entering user mode in myCPU/guest/kernel/linux_compat_exec.c: trap frames and floating-point state.
- Devices, the shell, procfs text, the other frontend modules and the simulator itself.
