# Ceryx in Dafny

This project models the hard core of the Ceryx kernel, a small single-CPU x86_64 kernel, and proves
properties of the model.  `dafny verify dfyconfig.toml` checks all of it.

Code that changes state step by step is written as methods and classes whose fields follow the kernel's own
(`Scheduler`, `Processes`, `Pipes`, `FdTables`, `RamFile`, `FileTree`, `Cpio`, `Dirents`, `Switching`, `Heap`,
`ZoneCarver`).  Each method is proved against a function on values in the module beside it (`MlfqModel`,
`LifecycleModel`, `PipeModel`, `DescriptorCounts`, `RamFileModel`, `TreeModel`, `CpioModel`, `DirentModel`,
`SwitchModel`, `HeapModel`, `ZoneModel`), and the results about whole runs are lemmas about those functions.
`ArchiveTree` and `ArchiveFiles` are about whole archives.  `MlfqEffects`, `LifecycleEffects` and `PipeEffects`
say what one step leaves, in terms of the lists and records before it.
`CompilerRt` is arithmetic and stands alone.

The main results:

* **Scheduler.**  Under any interleaving of ticks, yields, blocks, wakes, new threads, exits and reaper steps
  every thread is in at most one place, and a queued thread is on the CPU within 100 + 20 + 5k ticks when k
  threads are ahead of it once it is on the top level. Threads are conserved if and only if no Yield is issued
  by a thread that an earlier reschedule left in state Ready; a run of two Yields shows how such a thread is
  lost. A lost thread never runs again, and the reaper's own loop loses the reaper when it is alone, after
  which no thread is freed. A thread that runs until its quantum is used up goes down one level, with 10 or 20
  ticks; woken threads keep their level.
* **Processes.**  In every run from boot no destroyed address space is loaded or owned by a live thread,
  scheduling and waitpid find every process they look for, no waitpid re-check fails and every exit status is
  collected at most once, as 256 times the low eight bits of what the process exited with; a parent blocked in
  waitpid gets the CPU within the scheduler's bound. Three places do read freed processes: a run reads one if
  and only if a process exits or calls getppid after its parent was reaped, or the reaper frees a thread after
  its process was reaped; a run from boot shows each.
* **128-bit arithmetic.**  All paths of the division meet n = q·d + r with r < d, the signed forms truncate
  toward zero, and multiplication is the product modulo 2^128.
* **Pipes.**  Under every interleaving a pipe is a FIFO, each writer's bytes stay in order and nobody sleeps
  who could proceed; a reader sleeps exactly when the buffer is empty and a writer is left. Reader and writer
  counts equal the numbers of live descriptions with the read and the write bit after any sequence of pipe,
  open, close, dup, dup2, fcntl, fork, exit and reap calls.
* **Files.**  Reads clip exactly when offset and length do not wrap; writes are splices exactly when they
  start on a page boundary or in a page not yet there, and succeed exactly when there are frames for the
  absent pages. Paths resolve as the fold of lookups over their components. Archives decode to what was
  encoded; loading one keeps every path, and which entries become files is worked out exactly from the archive
  and the tree before: no file in the way, nothing at the path, room for all paths added so far. Repeated
  directory listings give every child exactly once, with buffers of any size, if and only if record lengths
  fit their sixteen bits.
* **Machine and layout.**  A thread resumes with the registers, stack and return address it left; a forked
  child reaches user mode with its parent's frame and rax = 0; boot zones partition usable memory; the heap is
  exactly its pages if and only if the brk request rounds up without wrapping.

A step of the scheduler or of a process is one system call or interrupt: both run with interrupts masked on a
single CPU.  A step of a pipe runs from taking the lock, or waking up, to waiting or returning.  Addresses of
new objects and failures of memory allocation are parameters, so every statement holds for all of them.

## Model

| member | source | states |
|---|---|---|
| `MlfqModel.BoostByLevel` | arch/x86_64/proc/Scheduler.cpp:64-74 | promoting the lower queues one level after the other gives the boost: every queued thread on level 0 in order, with a full quantum |
| `MlfqModel.PromoteFromHead` | arch/x86_64/proc/Scheduler.cpp:66-72 | moving the head of a queue to level 0 repeatedly is promoting the whole queue |
| `MlfqModel.EnqueueResets` | arch/x86_64/proc/Scheduler.cpp:39-44 | requeueing resets the quantum: what was left of it does not matter |
| `MlfqModel.InvShape` | arch/x86_64/proc/Scheduler.cpp:35-43 | the run invariant implies that every queued, waiting and current thread is a known one |
| `MlfqInvariants.ScheduleKeeps` | arch/x86_64/proc/Scheduler.cpp:235-256 | picking the best thread and switching keeps single residence |
| `MlfqInvariants.BoostKeeps` | arch/x86_64/proc/Scheduler.cpp:64-74 | a boost keeps every thread in one place with level and quantum in step |
| `MlfqInvariants.TickKeeps` | arch/x86_64/proc/Scheduler.cpp:127-165 | a tick keeps single residence, levels and 1 <= ticks <= quantum |
| `MlfqInvariants.YieldKeeps` | arch/x86_64/proc/Scheduler.cpp:169-184 | a yield keeps them, and what it does to the caller's places |
| `MlfqInvariants.BlockKeeps` | arch/x86_64/proc/Scheduler.cpp:188-198 | a block keeps them, Blocked iff on the wait list |
| `MlfqInvariants.WakeFromKeeps` | arch/x86_64/proc/Scheduler.cpp:200-220 | a wake of one or of all keeps them |
| `MlfqInvariants.AddKeeps` | arch/x86_64/proc/Scheduler.cpp:113-123 | a new thread enters exactly one queue |
| `MlfqInvariants.TerminateKeeps` | arch/x86_64/proc/Reaper.cpp:19-26 | an exiting thread leaves the CPU, is Terminated and goes to the end of the dead list; all other places stay |
| `MlfqInvariants.CollectKeeps` | arch/x86_64/proc/Reaper.cpp:32-37 | the drain empties the dead list, and every thread of it is on the reaper's private list |
| `MlfqInvariants.FreeKeeps` | arch/x86_64/proc/Reaper.cpp:39-47 | a deleted thread is in no place any more |
| `MlfqInvariants.StepKeeps` | arch/x86_64/proc/Scheduler.cpp:113-256 | every step keeps the invariant; it keeps conservation iff it is not a Yield by a worker in state Ready |
| `MlfqRuns.BootInv` | arch/x86_64/proc/Scheduler.cpp:91-111 | the state after Start satisfies invariant and conservation |
| `MlfqRuns.RunKeeps` | arch/x86_64/proc/Scheduler.cpp:113-256 | every run keeps single residence; threads are conserved iff no step of the run is such a Yield |
| `MlfqRuns.YieldReturnsToCaller` | arch/x86_64/proc/Scheduler.cpp:169-184 | a Yield returns to its caller iff every other queued thread is on a lower level, and then leaves it Ready and on no queue |
| `MlfqRuns.TwoYieldsLoseAThread` | arch/x86_64/proc/Scheduler.cpp:175-183 | a run of four steps after which a thread is nowhere |
| `MlfqRuns.LostForever` | arch/x86_64/proc/Scheduler.cpp:113-256 | a thread in no place is never current again in any run |
| `MlfqRuns.LostReaperFreesNothing` | arch/x86_64/proc/Reaper.cpp:28-52 | once the reaper is lost no run drains or frees a thread |
| `MlfqRuns.ReaperLosesItself` | arch/x86_64/proc/Reaper.cpp:28-52 | after boot, a tick and two turns of the reaper's loop (drain, yield) the reaper is in no place, and stays so in every continuation |
| `MlfqRuns.TopStep` | arch/x86_64/proc/Scheduler.cpp:127-184 | each step lowers, by its cost, the remaining ticks ahead of a thread on level 0 |
| `MlfqRuns.TopWait` | arch/x86_64/proc/Scheduler.cpp:47-55 | a run that never gives a thread on level 0 the CPU has fewer ticks than the quanta ahead of it |
| `MlfqRuns.LowWait` | arch/x86_64/proc/Scheduler.cpp:133-138 | a thread on a lower level reaches level 0 within the ticks to the next boost, and then waits less than 20 + 5k ticks |
| `MlfqRuns.StarvedRunIsShort` | arch/x86_64/proc/Scheduler.cpp:127-165 | a run that never gives a queued thread the CPU has fewer than (ticks to boost, if it is below level 0) + 20 + 5k ticks, k threads being ahead of it when it first is on level 0 |
| `MlfqRuns.BoundedWaiting` | arch/x86_64/proc/Scheduler.cpp:47-74 | a queued thread becomes current in every run of at least 120 + 5k ticks, or 20 + 5k from level 0, k threads being ahead of it when it first is on level 0 |
| `MlfqRuns.FewThreadsAhead` | arch/x86_64/proc/Scheduler.cpp:47-74 | when at most n other threads exist in every state of a run, at most n are ever ahead |
| `MlfqStatus.TickStatus` | arch/x86_64/proc/Scheduler.cpp:127-165 | a tick changes no thread's status as blocked, terminated or active |
| `MlfqStatus.BlockStatus` | arch/x86_64/proc/Scheduler.cpp:188-198 | a block changes exactly the caller's status |
| `MlfqStatus.WakeOneStatus` | arch/x86_64/proc/Scheduler.cpp:200-220 | a wake of one activates exactly the first sleeper on the channel, and changes nothing if there is none |
| `MlfqStatus.WakeAllStatus` | arch/x86_64/proc/Scheduler.cpp:200-220 | a wake of all activates exactly the sleepers on the channel |
| `MlfqStatus.TerminateStatus` | arch/x86_64/proc/Reaper.cpp:19-26 | an exit changes exactly the caller's status |
| `MlfqEffects.SchedulePicks` | arch/x86_64/proc/Scheduler.cpp:235-256 | the first thread of the best non-empty level leaves its queue and runs, the idle thread if there is none, and nothing else changes |
| `MlfqEffects.TickBegins` | arch/x86_64/proc/Scheduler.cpp:127-138 | the 64-bit counter advances; at multiples of 100 all queued threads are on level 0 in their order, those from below with five ticks, and no other record changes |
| `MlfqEffects.TickCharges` | arch/x86_64/proc/Scheduler.cpp:140-164 | a tick that leaves the running thread some quantum takes exactly one tick off it |
| `MlfqEffects.TickDemotes` | arch/x86_64/proc/Scheduler.cpp:144-156 | a tick that uses up the quantum leaves the thread Ready and last on the level below, with 10 or 20 ticks, and the first in line runs |
| `MlfqEffects.DemotedThread` | arch/x86_64/proc/Scheduler.cpp:144-156 | without a boost: level 1 with 10 ticks after level 0, else level 2 with 20; last in that queue, or still running iff nobody is queued on that level or above |
| `MlfqEffects.QuantumRunsOut` | arch/x86_64/proc/Scheduler.cpp:127-165 | over a run of as many ticks as it has left, none of them a boost, the running thread goes down one level |
| `MlfqEffects.TickFromIdle` | arch/x86_64/proc/Scheduler.cpp:159-164 | from the idle thread a tick gives the CPU to the first in line, if any |
| `MlfqEffects.YieldEffect` | arch/x86_64/proc/Scheduler.cpp:169-184 | a Running thread goes last on its own level with that level's ticks; from another state nothing is filed; then the first in line runs |
| `MlfqEffects.BlockEffect` | arch/x86_64/proc/Scheduler.cpp:188-198 | the thread keeps level and ticks, is Blocked on the channel and last on the wait list; then the first in line runs |
| `MlfqEffects.TerminateEffect` | arch/x86_64/proc/Reaper.cpp:19-26 | the thread is Terminated and last on the dead list; then the first in line runs |
| `MlfqEffects.AddEffect` | arch/x86_64/proc/Scheduler.cpp:113-123 | a new thread is Ready and last on its level with 5, 10 or 20 ticks |
| `MlfqEffects.WakeOneEffect` | arch/x86_64/proc/Scheduler.cpp:200-220 | the first sleeper on the channel leaves the wait list and goes last on the level it blocked on, with that level's ticks |
| `MlfqEffects.WakeAllEffect` | arch/x86_64/proc/Scheduler.cpp:200-220 | all sleepers on the channel leave the wait list, in order, each to the end of its own level; nothing else changes |
| `Scheduler.Scheduler.PopBest` | arch/x86_64/proc/Scheduler.cpp:47-55 | removes and returns the head of the best non-empty level |
| `Scheduler.Scheduler.Empty` | arch/x86_64/proc/Scheduler.cpp:57-61 | true iff no level has a thread |
| `Scheduler.Scheduler.ScheduleLocked` | arch/x86_64/proc/Scheduler.cpp:235-250 | computes Schedule, with no state change when next is prev |
| `Scheduler.Scheduler.BoostAll` | arch/x86_64/proc/Scheduler.cpp:64-74 | the in-place loops compute Boost |
| `Scheduler.Scheduler.AddThread` | arch/x86_64/proc/Scheduler.cpp:113-123 | computes AddThread on the whole state |
| `Scheduler.Scheduler.Tick` | arch/x86_64/proc/Scheduler.cpp:127-165 | computes Tick on the whole state, the wrap of the 64-bit counter included; `MlfqEffects.TickCharges`, `TickDemotes` and `TickFromIdle` say what that is |
| `Scheduler.Scheduler.Charge` | arch/x86_64/proc/Scheduler.cpp:140-164 | computes the charge of the current thread, demotion by one level and reschedule |
| `Scheduler.Scheduler.Yield` | arch/x86_64/proc/Scheduler.cpp:169-184 | computes Yield on the whole state |
| `Scheduler.Scheduler.Block` | arch/x86_64/proc/Scheduler.cpp:188-198 | computes Block on the whole state |
| `Scheduler.Scheduler.Wake` | arch/x86_64/proc/Scheduler.cpp:200-220 | the wait-list loop computes Wake of one or all |
| `Scheduler.Scheduler.Terminate` | arch/x86_64/proc/Reaper.cpp:19-26 | computes Terminate on the whole state |
| `Scheduler.Scheduler.Collect` | arch/x86_64/proc/Reaper.cpp:32-37 | the drain loop computes Collect |
| `Scheduler.Scheduler.Free` | arch/x86_64/proc/Reaper.cpp:40-46 | takes the first drained thread off the list and deletes it; what is read in between is in `Processes.Processes.FreeThread` |
| `Lifecycle.ForkKeeps` | arch/x86_64/proc/Process.cpp:93-152 | fork keeps the kernel invariant, and changes nothing when no pid or no memory is left |
| `Lifecycle.ExecFailureIsNoOp` | arch/x86_64/cpu/SyscallDispatch.cpp:173-210 | a failed execve leaves the whole kernel state unchanged |
| `Lifecycle.ExecSuccess` | arch/x86_64/cpu/SyscallDispatch.cpp:173-210 | a successful one replaces and loads exactly the caller's address space and destroys only the old one |
| `Lifecycle.ExitKeeps` | arch/x86_64/proc/Process.cpp:156-174 | exit, with the read of the parent it logs, keeps the kernel invariant |
| `Lifecycle.WaitPidKeeps` | arch/x86_64/cpu/SyscallDispatch.cpp:344-382 | waitpid up to its block or return keeps the kernel invariant |
| `Lifecycle.ResumeCollects` | arch/x86_64/cpu/SyscallDispatch.cpp:369-381 | the re-check after Block never fails, and the child awaited is collected: bits 8 to 15 of the answer are the low eight bits of its exit status, the bits below are zero |
| `Lifecycle.ReapKeeps` | arch/x86_64/proc/Process.cpp:176-183 | reaping a zombie keeps the invariant and reports the low eight bits of its exit status in bits 8 to 15 |
| `Lifecycle.StepSafe` | arch/x86_64/cpu/SyscallDispatch.cpp:330-382 | every scheduler, process and reaper step keeps the kernel invariant |
| `LifecycleRuns.RunSafe` | arch/x86_64/cpu/SyscallDispatch.cpp:330-382 | so does every run |
| `LifecycleRuns.AddressSpaceLifetime` | arch/x86_64/proc/Scheduler.cpp:252-272 | after any run from boot CR3 is the root of the current process or the kernel's, it is live, every live thread's process is allocated and owns a live address space, and no switch or waitpid reached for a process that was not there |
| `LifecycleRuns.StepDangles` | arch/x86_64/proc/Process.cpp:156-174 | a step reads a freed process iff it is an exit or a getppid of a process whose parent was reaped, or a free of a thread whose process was reaped |
| `LifecycleRuns.FreedProcessReadIff` | arch/x86_64/proc/Reaper.cpp:39-47 | a run from boot reads a freed process iff it contains such a step |
| `DanglingRuns.ExitReadsFreedParent` | arch/x86_64/proc/Process.cpp:167-168 | a run of nine steps from boot in which an exit reads its freed parent |
| `DanglingRuns.GetppidReadsFreedParent` | arch/x86_64/cpu/SyscallDispatch.cpp:383-388 | a run of nine steps from boot in which getppid reads the freed parent |
| `DanglingRuns.ReaperReadsFreedProcess` | arch/x86_64/proc/Reaper.cpp:43-45 | a run of nine steps from boot in which the reaper reads the freed process of a thread |
| `LifecycleRuns.StatusesCollectedOnce` | arch/x86_64/cpu/SyscallDispatch.cpp:344-382 | after any run from boot no re-check failed, no status was collected twice, each collected one is 256 times the low eight bits of what the process exited with, and no exited process is forgotten |
| `LifecycleRuns.ExitReadiesTheWaiter` | arch/x86_64/proc/Process.cpp:156-174 | exit makes the thread waiting for this process ready and changes no other thread's status |
| `LifecycleRuns.StepProjects` | arch/x86_64/proc/Process.cpp:156-174 | the scheduler steps inside one kernel step take the scheduler from its state before to its state after |
| `LifecycleRuns.RunProjects` | arch/x86_64/proc/Scheduler.cpp:113-256 | every kernel run contains a scheduler run with the same scheduler states |
| `LifecycleRuns.ExitedChildRunsParent` | arch/x86_64/proc/Process.cpp:170-173 | after its child exits the waiting parent is current within 120 + 5n ticks of any kernel run, n threads being ahead of it when it first is on level 0 |
| `LifecycleModel.FindsFirst` | arch/x86_64/proc/Process.cpp:198-214 | the child found is the first that matches, and none is found only if none matches |
| `LifecycleEffects.ExitEffect` | arch/x86_64/proc/Process.cpp:156-174 | exit records the status in a zombie that keeps pid and address space; its thread is Terminated and last on the dead list, and another one runs |
| `LifecycleEffects.WithoutIs` | arch/x86_64/proc/Process.cpp:216-218 | unlinking a child takes exactly that node out of the list |
| `LifecycleEffects.ReapEffect` | arch/x86_64/proc/Process.cpp:176-183 | a reap takes exactly the child out of list and table, frees its address space and its pid unless that is 0 or 1, and reports its status |
| `LifecycleEffects.WaitPidAnswers` | arch/x86_64/cpu/SyscallDispatch.cpp:344-381 | with a first matching child: a zombie is collected at once, otherwise WNOHANG is told so and nothing changes, or the caller is Blocked on that child, last on the wait list |
| `LifecycleEffects.WaitPidNoChild` | arch/x86_64/cpu/SyscallDispatch.cpp:352-360 | with no matching child the caller is told so and nothing changes |
| `LifecycleEffects.RecheckFailsIff` | arch/x86_64/cpu/SyscallDispatch.cpp:367-371 | the re-check after Block fails iff the child is no zombie, and then nothing is reaped |
| `LifecycleEffects.SwitchFaultsIff` | arch/x86_64/proc/Scheduler.cpp:261-272 | a switch faults iff the next thread's process or its address space is gone |
| `LifecycleEffects.FreeFaultsIff` | arch/x86_64/proc/Process.cpp:176-183 | a reap faults iff the child's space is gone or loaded, and a failing execve iff the root it puts back is not live |
| `Processes.Processes.SwitchSpace` | arch/x86_64/proc/Scheduler.cpp:261-272 | loads the next thread's root iff it differs |
| `Processes.Processes.FindChild` | arch/x86_64/proc/Process.cpp:198-214 | returns the first child with the pid, or any child for pid 0 |
| `Processes.Processes.RemoveChild` | arch/x86_64/proc/Process.cpp:216-218 | removes exactly that child |
| `Processes.Processes.Reap` | arch/x86_64/proc/Process.cpp:176-183 | computes Reap on the whole state, and reports 256 times the low eight bits of the exit status |
| `Processes.Processes.BecomeZombie` | arch/x86_64/proc/Process.cpp:163-168 | marks the zombie, and records whether the parent that is logged had been freed |
| `Processes.Processes.Exit` | arch/x86_64/proc/Process.cpp:156-174 | computes Exit on the whole state |
| `Processes.Processes.GetParentPid` | arch/x86_64/cpu/SyscallDispatch.cpp:383-388 | the parent's pid, or 0 without a parent; records whether the parent that is read had been freed |
| `Processes.Processes.FreeThread` | arch/x86_64/proc/Reaper.cpp:39-47 | computes FreeThread: records whether the process that is logged had been freed, and deletes the thread |
| `Processes.Processes.WaitPid` | arch/x86_64/cpu/SyscallDispatch.cpp:344-369 | computes WaitPid on the whole state |
| `Processes.Processes.WaitResume` | arch/x86_64/cpu/SyscallDispatch.cpp:369-381 | computes WaitResume on the whole state: reports 256 times the low eight bits of a zombie's exit status, or that the re-check failed |
| `Processes.Processes.Load` | include/ceryx/proc/ElfLoader.hpp:99-181 | every return path of the loader restores CR3; it succeeds iff all segments and the stack can be mapped |
| `Processes.Processes.Exec` | arch/x86_64/cpu/SyscallDispatch.cpp:173-210 | computes Exec, keeps the invariant, and changes nothing on failure |
| `Processes.Processes.Fork` | arch/x86_64/proc/Process.cpp:93-152 | computes Fork on the whole state; every return for lack of pid or memory undoes what was made; unlinking the child leaves the list as before fork, linked or not |
| `Processes.Processes.AllocatePid` | arch/x86_64/proc/Process.cpp:31-37 | takes the lowest free pid, or none if all 32768 are in use |
| `CompilerRt.JoinHalves` | lib/compiler_rt.cpp:58-64 | splitting and joining 64-bit halves are inverse |
| `CompilerRt.Divq` | lib/compiler_rt.cpp:97-103 | the architectural contract: the high half is below the divisor, so the quotient fits 64 bits |
| `CompilerRt.DivideBy64` | lib/compiler_rt.cpp:85-131 | the three paths for a 64-bit divisor give quotient and remainder |
| `CompilerRt.DivideLong` | lib/compiler_rt.cpp:108-131 | two divisions of halves give the 128-bit quotient and remainder |
| `CompilerRt.Clz` | lib/compiler_rt.cpp:142-142 | the number of leading zeros brings the top bit to place 63 |
| `CompilerRt.Normalised` | lib/compiler_rt.cpp:140-146 | shifting the divisor by its leading zeros loses no bit and brings its top bit to place 127 |
| `CompilerRt.SubtractBit` | lib/compiler_rt.cpp:148-157 | one turn of the loop takes a division by twice the shifted divisor to one by the shifted divisor |
| `CompilerRt.ShiftSubtract` | lib/compiler_rt.cpp:133-161 | the loop ends with quotient and remainder, without 128-bit overflow |
| `CompilerRt.UDivMod128` | lib/compiler_rt.cpp:78-161 | n = q·d + r and r < d for all n and all d > 0 |
| `CompilerRt.TruncMeaning` | lib/compiler_rt.cpp:187-210 | truncating quotient and remainder satisfy n = q·d + r, with r smaller than d in magnitude and of the dividend's sign |
| `CompilerRt.TruncUnique` | lib/compiler_rt.cpp:187-210 | and are the only such pair |
| `CompilerRt.DivTi3` | lib/compiler_rt.cpp:187-196 | the signed quotient truncated toward zero, wrapped to 128 bits, for all operands |
| `CompilerRt.ModTi3` | lib/compiler_rt.cpp:200-210 | the remainder with the dividend's sign, for all operands |
| `CompilerRt.ProductOfBits` | lib/compiler_rt.cpp:227-242 | the signed product modulo 2^128 is that of the bit patterns |
| `CompilerRt.SignedBits` | lib/compiler_rt.cpp:227-242 | bit patterns and signed values correspond one to one |
| `CompilerRt.WrapIs` | lib/compiler_rt.cpp:227-242 | the wrapped value is the one signed 128-bit value congruent to x modulo 2^128 |
| `CompilerRt.MulTi3` | lib/compiler_rt.cpp:227-242 | the signed 128-bit value congruent to the product modulo 2^128 |
| `PipeProtocol.ReadKeeps` | include/ceryx/fs/pipe/Pipe.hpp:22-43 | a reader's step keeps the protocol invariant |
| `PipeProtocol.WriteOnKeeps` | include/ceryx/fs/pipe/Pipe.hpp:56-71 | so does a writer's |
| `PipeProtocol.EndsKeep` | include/ceryx/fs/pipe/Pipe.hpp:76-86 | so do opening and closing ends |
| `PipeProtocol.StepKeeps` | include/ceryx/fs/pipe/Pipe.hpp:22-86 | so does every step |
| `PipeProtocol.RunKeeps` | include/ceryx/fs/pipe/Pipe.hpp:22-86 | and every run |
| `PipeProtocol.PipeIsFifo` | include/ceryx/fs/pipe/Pipe.hpp:22-86 | after any run: bytes pushed = bytes delivered ++ buffer, size <= capacity, each writer's bytes in order, reader and writer never both asleep without a notification |
| `PipeProtocol.WhoCanProceedIsNotified` | include/ceryx/fs/pipe/Pipe.hpp:25-69 | a sleeper that could proceed has been notified |
| `PipeEffects.ReadEffect` | include/ceryx/fs/pipe/Pipe.hpp:22-43 | a read sleeps iff the buffer is empty and a writer is left; otherwise it returns the first bytes, none only for size 0 or at the end of the file, and notifies the writers iff it took any |
| `PipeEffects.WriteOnEffect` | include/ceryx/fs/pipe/Pipe.hpp:56-71 | a writer puts in as much as fits, sleeps iff some bytes and a reader are left, and notifies the readers iff it put any in |
| `PipeEffects.WriteEffect` | include/ceryx/fs/pipe/Pipe.hpp:45-51 | a write without a reader changes nothing |
| `PipeEffects.CloseEffect` | include/ceryx/fs/pipe/Pipe.hpp:77-86 | closing an end lowers its count, and the last one notifies exactly the other side |
| `Pipes.SharedPipe.Read` | include/ceryx/fs/pipe/Pipe.hpp:22-43 | the pop loop returns the first bytes of the buffer, at most the size asked for, and computes Read; the caller sleeps iff the buffer was empty and a writer is left |
| `Pipes.SharedPipe.Fill` | include/ceryx/fs/pipe/Pipe.hpp:62-68 | the push loop appends as many bytes as fit |
| `Pipes.SharedPipe.WriteOn` | include/ceryx/fs/pipe/Pipe.hpp:56-71 | the writer's loops compute WriteOn, from lock or wake-up to wait or return; the caller sleeps iff its bytes do not all fit and a reader is left |
| `Pipes.SharedPipe.Write` | include/ceryx/fs/pipe/Pipe.hpp:45-72 | computes Write; complete iff there is a reader and room for all bytes |
| `Pipes.SharedPipe.DecrementReaders` | include/ceryx/fs/pipe/Pipe.hpp:77-80 | computes CloseReader, waking writers at zero |
| `Pipes.SharedPipe.DecrementWriters` | include/ceryx/fs/pipe/Pipe.hpp:83-86 | computes CloseWriter, waking readers at zero |
| `DescriptorCounts.SetFlagsKeepsEnds` | arch/x86_64/cpu/SyscallDispatch.cpp:757-760 | F_SETFL keeps the low two bits and takes all others from the argument |
| `DescriptorCounts.CreateCounts` | include/ceryx/fs/FileDescription.hpp:22-26 | a new description with its ends opened keeps counts equal to references |
| `DescriptorCounts.DestroyCounts` | include/ceryx/fs/FileDescription.hpp:28-33 | so does destroying the last reference with its ends closed |
| `DescriptorCounts.OpenEnds` | include/ceryx/fs/pipe/PipeVnode.hpp:42-46 | no end count underflows on close |
| `DescriptorCounts.CountsAreReferences` | include/ceryx/fs/pipe/PipeVnode.hpp:36-46 | existing descriptions are exactly those referred to, and end counts are the numbers of them with each bit |
| `DescriptorCounts.EndClosedIff` | include/ceryx/fs/pipe/Pipe.hpp:25-28 | a count is zero iff no slot and no sleeping call refers to a description with that end open |
| `DescriptorCounts.LowestFree` | arch/x86_64/proc/Process.cpp:225-236 | the least free descriptor |
| `DescriptorCounts.PutOpens` | arch/x86_64/proc/Process.cpp:233-235 | a placed descriptor is added to the open descriptors and nothing else changes |
| `FdTables.AtLowestIs` | arch/x86_64/proc/Process.cpp:222-239 | placing at the lowest gap: that descriptor, ENOMEM if the table cannot grow to it, EMFILE if it is not below 1024 |
| `FdTables.GapExists` | arch/x86_64/proc/Process.cpp:222-239 | the lowest free descriptor is the first gap in the open ones |
| `FdTables.OnlyLowBits` | arch/x86_64/cpu/SyscallDispatch.cpp:475-493 | a call depends on the low 32 bits of its descriptor registers only, and on those unchanged |
| `FdTables.PlacedOpens` | arch/x86_64/cpu/SyscallDispatch.cpp:225-237 | a pipe call opens the two lowest free descriptors, or the open descriptors are as before |
| `FdTables.Kernel.Drop` | include/ceryx/fs/FileDescription.hpp:28-33 | the last reference closes its ends; counts stay equal to references |
| `FdTables.Kernel.Describe` | include/ceryx/fs/FileDescription.hpp:22-26 | a new description opens its ends; counts stay equal to references |
| `FdTables.Kernel.AllocateFd` | arch/x86_64/proc/Process.cpp:222-239 | the lowest free descriptor, or EMFILE or ENOMEM with tables unchanged |
| `FdTables.Kernel.AllocateFdAt` | arch/x86_64/proc/Process.cpp:241-256 | replaces exactly that descriptor, or EBADF or ENOMEM with tables unchanged |
| `FdTables.Kernel.GetFd` | arch/x86_64/proc/Process.cpp:258-261 | a new reference iff the descriptor is open |
| `FdTables.Kernel.FreeFd` | arch/x86_64/proc/Process.cpp:263-266 | clears exactly that slot |
| `FdTables.Kernel.SysPipe` | arch/x86_64/cpu/SyscallDispatch.cpp:211-241 | success: the two lowest free descriptors, the lower with flags 1 the read end only, the other with flags 2 the write end only, one reader and one writer; failure: every open-descriptor map as before and no end open |
| `FdTables.Kernel.SysOpen` | arch/x86_64/cpu/SyscallDispatch.cpp:430-438 | the new description at the lowest free descriptor, or tables unchanged |
| `FdTables.Kernel.SysDup` | arch/x86_64/cpu/SyscallDispatch.cpp:475-482 | the same description at the lowest free descriptor, or an error with tables unchanged |
| `FdTables.Kernel.SysDup2` | arch/x86_64/cpu/SyscallDispatch.cpp:483-493 | the same description at the target, equal descriptors returned unchecked, or an error with tables unchanged |
| `FdTables.Kernel.SysDupFd` | arch/x86_64/cpu/SyscallDispatch.cpp:736-748 | the lowest usable descriptor from the minimum on, EMFILE iff there is none |
| `FdTables.Kernel.SysSetFl` | arch/x86_64/cpu/SyscallDispatch.cpp:757-760 | changes only the flags of that description; end counts unchanged |
| `FdTables.Kernel.SysFork` | arch/x86_64/proc/Process.cpp:113-149 | the child's table is the parent's, or nothing changed |
| `FdTables.Kernel.SysExit` | arch/x86_64/proc/Process.cpp:156-161 | every descriptor closed, table empty, counts equal to references |
| `FdTables.Kernel.Perform` | arch/x86_64/cpu/SyscallDispatch.cpp:475-493 | each call, its descriptors cut to 32 bits, has its stated effect on the tables and keeps the counts |
| `FdTables.Run` | include/ceryx/fs/pipe/PipeVnode.hpp:36-46 | after every call of any sequence of calls by any processes end counts equal the numbers of referenced descriptions with each bit |
| `RamFileModel.ReadClipsIff` | include/ceryx/fs/ramfs/RamFs.hpp:98-128 | at or beyond the end nothing is read; inside, a read is the slice clipped to the size, with holes zero, iff offset plus length does not wrap |
| `RamFileModel.WriteSplices` | include/ceryx/fs/ramfs/RamFs.hpp:130-171 | a write that starts at a page boundary or in an absent page is a splice, touches no memory outside the file, and sets the size to the maximum; without memory a prefix is written and the size stays |
| `RamFileModel.CopyReach` | include/ceryx/fs/ramfs/RamFs.hpp:138-167 | the copy gets to the end iff the absent pages it touches are at most the frames left, otherwise to the start of the first absent page without a frame |
| `RamFileModel.WriteSucceedsIff` | include/ceryx/fs/ramfs/RamFs.hpp:145-147 | a write succeeds iff the absent pages it touches are at most the frames left, otherwise it is ENOMEM |
| `RamFileModel.WriteRefused` | include/ceryx/fs/ramfs/RamFs.hpp:131-131 | EISDIR, and no change, iff the node is not a regular file |
| `RamFileModel.WriteMisses` | include/ceryx/fs/ramfs/RamFs.hpp:144-165 | a write that starts inside a present page leaves the byte at its start unchanged |
| `RamFileModel.SpliceIff` | include/ceryx/fs/ramfs/RamFs.hpp:130-171 | writes at an offset are splices for all data iff there is nothing to write or they start well |
| `RamFileModel.ReadBack` | include/ceryx/fs/ramfs/RamFs.hpp:98-171 | reading back what a well-started write wrote gives the data |
| `RamFile.RamNode.Read` | include/ceryx/fs/ramfs/RamFs.hpp:98-128 | the page loop returns exactly the specified bytes; EISDIR for other nodes |
| `RamFile.RamNode.Write` | include/ceryx/fs/ramfs/RamFs.hpp:130-171 | the page loop computes Write on the whole state |
| `RamFile.RamNode.WriteChunk` | include/ceryx/fs/ramfs/RamFs.hpp:144-165 | one page: allocate, zero and insert if absent, then copy to where the code copies |
| `TreeModel.SplitJoins` | include/ceryx/fs/Vfs.hpp:27-37 | joining the parts of a path gives the path, and no part has a slash |
| `TreeModel.JoinSplits` | include/ceryx/fs/Vfs.hpp:27-37 | splitting joined parts gives the parts |
| `TreeModel.SearchFinds` | include/ceryx/fs/ramfs/RamFs.hpp:173-181 | lookup finds a child with the name, or there is none |
| `TreeModel.CreateKeeps` | include/ceryx/fs/ramfs/RamFs.hpp:185-200 | create adds one node the name then leads to and keeps sibling names unique; EEXIST iff the name exists; errors change nothing |
| `TreeModel.MkdirKeeps` | include/ceryx/fs/ramfs/RamFs.hpp:202-217 | mkdir adds one directory the name then leads to, or returns the existing child or an error and changes nothing; sibling names stay unique |
| `TreeModel.Answers` | include/ceryx/fs/ramfs/RamFs.hpp:173-217 | what lookup, create and mkdir answer on a directory with and without such a child, and on what is no directory |
| `TreeModel.ModeTypes` | include/ceryx/fs/CpioLoader.hpp:111-113 | type 4 in bits 12 to 15 of the mode is a directory and 8 a regular file |
| `TreeModel.ResolveGrows` | include/ceryx/fs/Vfs.hpp:16-53 | a path that resolves keeps its node when the tree grows |
| `TreeModel.Walk` | include/ceryx/fs/CpioLoader.hpp:84-104 | after the walk the directory path resolves to the directory reached |
| `TreeModel.EntryKeeps` | include/ceryx/fs/CpioLoader.hpp:76-119 | an entry keeps names unique and every node, its data and every path that resolved |
| `TreeModel.EntryResolves` | include/ceryx/fs/CpioLoader.hpp:76-119 | a new file holds the entry's data, and its path resolves to it iff its leaf is not "." |
| `TreeModel.WalkIff` | include/ceryx/fs/CpioLoader.hpp:84-104 | the walk reaches a directory iff nothing but directories is in the way and there is room for the missing ones, and uses exactly that room |
| `TreeModel.PassableIff` | include/ceryx/fs/CpioLoader.hpp:95-103 | nothing but directories is in the way iff every prefix that resolves resolves to a directory |
| `TreeModel.MakesFileIff` | include/ceryx/fs/CpioLoader.hpp:76-119 | an entry makes a file iff it is a regular file's, its directories are there or can be made, and the name is free |
| `FileTree.Tree.Lookup` | include/ceryx/fs/ramfs/RamFs.hpp:173-181 | the loop over children computes Lookup |
| `FileTree.Tree.Create` | include/ceryx/fs/ramfs/RamFs.hpp:185-200 | computes Create on the whole tree |
| `FileTree.Tree.Mkdir` | include/ceryx/fs/ramfs/RamFs.hpp:202-217 | computes Mkdir on the whole tree |
| `FileTree.Tree.PathToVnode` | include/ceryx/fs/Vfs.hpp:16-53 | the loop over the path is the fold of Lookup over the non-empty, non-"." components |
| `FileTree.Tree.CreateEntry` | include/ceryx/fs/CpioLoader.hpp:76-119 | computes CreateEntry on the whole tree |
| `CpioModel.ParseInvertsPrint` | include/ceryx/fs/CpioLoader.hpp:62-74 | parsing inverts hexadecimal printing, each digit in either case |
| `CpioModel.TrailerMatch` | include/ceryx/fs/CpioLoader.hpp:45-47 | the trailer test succeeds iff the entry's name starts with the trailer's |
| `CpioModel.Spelled` | include/ceryx/fs/CpioLoader.hpp:36-46 | the magic number spells "070701" and the trailer's name "TRAILER!!!" |
| `CpioModel.DecodeEnds` | include/ceryx/fs/CpioLoader.hpp:35-37 | decoding ends at the end of the archive and at a header without "070701"; a header cut short is read beyond the archive |
| `CpioModel.FrameIs` | include/ceryx/fs/CpioLoader.hpp:41-56 | the mode, name and file sizes are the fields at 14, 94 and 54, and data and next header are at the next multiples of four |
| `CpioModel.TurnIs` | include/ceryx/fs/CpioLoader.hpp:39-58 | a whole header: the trailer ends the loop, parts beyond the archive are read beyond it, otherwise name, mode and data of the entry |
| `CpioModel.DecodeInvertsEncode` | include/ceryx/fs/CpioLoader.hpp:31-59 | an archive at a multiple of four decodes to its entries in order, up to the first named like the trailer, and nothing beyond it is read |
| `CpioModel.AllEntriesIff` | include/ceryx/fs/CpioLoader.hpp:46-47 | all entries come back iff no name starts like the trailer's |
| `CpioModel.PopulatedPaths` | include/ceryx/fs/CpioLoader.hpp:31-119 | in the finished tree every regular entry for which a file could be made at its turn is where its path leads, with its data; `ArchiveFiles.MadeIff` says exactly which |
| `CpioModel.PopulationKeepsPaths` | include/ceryx/fs/CpioLoader.hpp:31-119 | every path that led anywhere before loading leads to the same node |
| `ArchiveTree.OnePath` | include/ceryx/fs/Vfs.hpp:16-53 | only one path leads to a node |
| `ArchiveTree.ForestKept` | include/ceryx/fs/ramfs/RamFs.hpp:185-217 | create and mkdir list every node in at most one directory |
| `ArchiveTree.AddedResolves` | include/ceryx/fs/ramfs/RamFs.hpp:185-217 | with a new node exactly one more path resolves |
| `ArchiveTree.WalkGains` | include/ceryx/fs/CpioLoader.hpp:84-104 | a walk with nothing in its way and room adds exactly the prefixes that did not resolve, as directories, one node each |
| `ArchiveTree.WalkBlocked` | include/ceryx/fs/CpioLoader.hpp:95-103 | a walk with a file in its way makes nothing |
| `ArchiveTree.WalkShort` | include/ceryx/fs/CpioLoader.hpp:95-103 | a walk short of room uses it up |
| `ArchiveTree.EntryGains` | include/ceryx/fs/CpioLoader.hpp:76-119 | an entry adds exactly the prefixes of its path that did not resolve, and nothing else resolves anew |
| `ArchiveFiles.PassableAfter` | include/ceryx/fs/CpioLoader.hpp:95-103 | a file is in the way in a grown tree iff one was before or a new one is |
| `ArchiveFiles.NewPathIff` | include/ceryx/fs/CpioLoader.hpp:76-119 | the paths added by the first k entries are those that did not resolve and are prefixes of an entry with no file in its way |
| `ArchiveFiles.AfterSettled` | include/ceryx/fs/CpioLoader.hpp:31-119 | after any number of entries the tree has gained exactly those paths, or the room is used up |
| `ArchiveFiles.MadeIff` | include/ceryx/fs/CpioLoader.hpp:31-119 | an entry becomes a file iff the archive and the tree before loading say so: regular, last part not empty, no file in its way, nothing at its path, room for all paths added up to it |
| `ArchiveFiles.AllMadeIff` | include/ceryx/fs/CpioLoader.hpp:31-119 | all regular entries become files iff each is clear of the tree and of all entries before it |
| `ArchiveFiles.FilesLoad` | include/ceryx/fs/CpioLoader.hpp:31-119 | from archive to tree: the encoding decodes to its entries, and every one that makes a file is where its path leads, with its data |
| `Cpio.ReadHex` | include/ceryx/fs/CpioLoader.hpp:62-74 | the digit loop computes the parsed number |
| `Cpio.Populate` | include/ceryx/fs/CpioLoader.hpp:31-59 | the header loop adds exactly the decoded entries to the tree and ends as decoding ends |
| `DirentModel.FillLists` | include/ceryx/fs/ramfs/RamFs.hpp:275-296 | the records written are the children from the cookie on, and the walk ends exactly at the bytes written with the next cookie |
| `DirentModel.FillStops` | include/ceryx/fs/ramfs/RamFs.hpp:283-283 | filling stops only at the last child or at a record that does not fit |
| `DirentModel.LEDigit` | include/ceryx/fs/ramfs/RamFs.hpp:286-288 | byte i of a field counts 256 to the power of i |
| `DirentModel.KernelFaithful` | include/ceryx/fs/ramfs/RamFs.hpp:280-295 | records read back, whatever the later records, iff inode numbers and indices fit 64 bits, names hold no NUL and lengths fit sixteen bits |
| `DirentModel.ZeroIff` | include/ceryx/fs/ramfs/RamFs.hpp:275-298 | a call returns zero iff no child is left or the next record does not fit the buffer |
| `DirentModel.EachChildOnce` | arch/x86_64/cpu/SyscallDispatch.cpp:672-701 | after any number of calls exactly the children before the cookie have been listed, once and in order |
| `DirentModel.GetdentsEnumerates` | arch/x86_64/cpu/SyscallDispatch.cpp:672-701 | the same for the kernel's records over a growing directory and buffers of any size; zero is returned iff all children were listed or the next record does not fit, otherwise the cookie advances |
| `DirentModel.ZeroMeansAll` | arch/x86_64/cpu/SyscallDispatch.cpp:672-701 | with room for every record, zero is returned iff all children were listed |
| `DirentModel.RecordWalkIff` | arch/x86_64/cpu/SyscallDispatch.cpp:689-697 | the walk over a record ends right in every buffer iff its length fits sixteen bits |
| `DirentModel.LongNameGoesAstray` | arch/x86_64/cpu/SyscallDispatch.cpp:689-697 | a longer record is walked wrongly in a buffer it just fits |
| `DirentModel.LongNameHangs` | include/ceryx/fs/ramfs/RamFs.hpp:288-288 | on a record whose length is a multiple of 65536 the walk never ends |
| `Dirents.Iterate` | include/ceryx/fs/ramfs/RamFs.hpp:246-299 | the loop writes exactly the specified buffer |
| `Dirents.Description.GetDents` | arch/x86_64/cpu/SyscallDispatch.cpp:672-701 | bytes, buffer and new cookie of one call |
| `SwitchModel.SwitchSuspends` | arch/x86_64/proc/Switch.asm:14-22 | a switch leaves the caller's registers, return address and stack on its own stack |
| `SwitchModel.SwitchResumes` | arch/x86_64/proc/Switch.asm:25-35 | a switch to a suspended thread restores them |
| `SwitchModel.StepOk` | arch/x86_64/proc/Switch.asm:9-35 | every step keeps stacks disjoint and every saved stack pointer inside its stack |
| `SwitchModel.StepKeeps` | arch/x86_64/proc/Switch.asm:9-35 | no step of another thread disturbs a suspended thread |
| `SwitchModel.SwitchRoundTrip` | arch/x86_64/proc/Switch.asm:9-35 | after any run a resumed thread finds its callee-saved registers, stack pointer, stack and return address |
| `SwitchModel.NewThreadStarts` | arch/x86_64/proc/Thread.cpp:36-51 | a new thread first runs at the trampoline with entry point, argument and itself in registers |
| `SwitchModel.UserThreadStarts` | arch/x86_64/proc/Thread.cpp:53-68 | a user thread first runs at the user trampoline with its instruction and stack pointers in registers |
| `SwitchModel.ForkedChildStarts` | arch/x86_64/proc/Thread.cpp:70-122 | a forked child reaches user mode with the parent's whole frame except rax = 0 |
| `Switching.Processor.SwitchContext` | arch/x86_64/proc/Switch.asm:9-35 | the pushes and pops compute SwitchTo and save the stack pointer |
| `Switching.Processor.ForkReturn` | arch/x86_64/proc/Switch.asm:107-128 | the pops and iretq read the whole frame |
| `Switching.Thread.InitializeStack` | arch/x86_64/proc/Thread.cpp:36-51 | pushes the switch frame for the trampoline |
| `Switching.Thread.InitializeUserStack` | arch/x86_64/proc/Thread.cpp:53-68 | pushes the switch frame for user mode |
| `Switching.Thread.InitializeForkStack` | arch/x86_64/proc/Thread.cpp:70-122 | pushes the interrupt frame and the switch frame |
| `HeapModel.SegmentMapsIff` | include/ceryx/proc/ElfLoader.hpp:107-128 | what is mapped for a segment is exactly the pages it covers iff its size rounds up without wrapping |
| `HeapModel.LoadedHeapIff` | include/ceryx/proc/ElfLoader.hpp:102-187 | the heap starts empty, just above every loaded page, iff each segment whose size wraps maps nothing or lies below the highest end |
| `HeapModel.HeapBaseIs` | include/ceryx/proc/ElfLoader.hpp:152-186 | the heap begins at the first page boundary at or above the highest segment end, and no higher |
| `HeapModel.LoadableIff` | include/ceryx/proc/ElfLoader.hpp:107-128 | a segment can be loaded iff its biased address is not in the null page, its mapping ends inside user space and memory suffices |
| `HeapModel.BrkKeepsIff` | arch/x86_64/cpu/SyscallDispatch.cpp:131-172 | after a request the mapped pages are exactly the loaded ones and those up to the end of the heap iff it rounds up without wrapping |
| `HeapModel.BrkAnswers` | arch/x86_64/cpu/SyscallDispatch.cpp:131-172 | the end moves to the request, or nothing changes when it is zero, too low or cannot be mapped |
| `HeapModel.BrkRunKeeps` | arch/x86_64/cpu/SyscallDispatch.cpp:131-172 | for every sequence of requests the heap pages are exactly those of the heap, each mapped once, none a loaded page |
| `Heap.Program.Brk` | arch/x86_64/cpu/SyscallDispatch.cpp:131-172 | computes Brk on the whole state and answers the end |
| `Heap.Program.Load` | include/ceryx/proc/ElfLoader.hpp:102-187 | the loop maps exactly the segments' pages and returns the highest end rounded up; it succeeds iff every segment is loadable |
| `Heap.RunProgram` | arch/x86_64/cpu/SyscallDispatch.cpp:131-172 | a program loads iff every segment can be loaded, and its heap is then exact after any requests that do not wrap |
| `ZoneModel.ChunksCover` | arch/x86_64/mm/MemoryManager.cpp:122-135 | the chunks of a run of pages cover each of its pages once, nothing else, and are at most 4 GiB |
| `ZoneModel.ChunksAreFull` | arch/x86_64/mm/MemoryManager.cpp:122-135 | the chunks follow one another, and all but the last are exactly 4 GiB |
| `ZoneModel.ZonesPartition` | arch/x86_64/mm/MemoryManager.cpp:104-137 | page by page, zones and descriptor array together are the usable memory |
| `ZoneModel.UsablesCount` | arch/x86_64/mm/MemoryManager.cpp:104-108 | in a map without overlaps a page is in one usable entry or in none |
| `ZoneModel.UsableBelowTotal` | arch/x86_64/mm/MemoryManager.cpp:31-53 | every usable page has a descriptor |
| `ZoneModel.TotalIsHighest` | arch/x86_64/mm/MemoryManager.cpp:31-53 | the page total is the end of the highest usable or reclaimable entry, or zero without one |
| `ZoneModel.ZonesCarve` | arch/x86_64/mm/MemoryManager.cpp:104-137 | zones are disjoint, at most 4 GiB, below the page total, clear of the descriptor array and together exactly the rest |
| `ZoneCarver.CountPages` | arch/x86_64/mm/MemoryManager.cpp:31-53 | the number of pages up to the highest usable or reclaimable address |
| `ZoneCarver.FindBest` | arch/x86_64/mm/MemoryManager.cpp:58-70 | the first of the largest usable entries with room for the descriptor array, or there is none |
| `ZoneCarver.Split` | arch/x86_64/mm/MemoryManager.cpp:122-135 | the splitting loop terminates and gives exactly the chunks |
| `ZoneCarver.Carve` | arch/x86_64/mm/MemoryManager.cpp:30-137 | the registered zones have all the properties above, and the kernel stops iff no usable entry can hold the array |

## Where code and comments differ

The model follows the code.

* lib/compiler_rt.cpp describes a loop for a high half above a 64-bit divisor; the code does two `divq`.
* include/ceryx/fs/ramfs/RamFs.hpp:240-245 says that a record's name immediately follows the 19 bytes of
  fields; the code puts it after the padded header, at byte 24.
* include/ceryx/fs/ramfs/RamFs.hpp:162 adds the offset within the page to an address that, for a page already
  present, has it already; see `SpliceIff`.
* arch/x86_64/proc/Scheduler.cpp:247 returns without setting the state back to Running; see
  `TwoYieldsLoseAThread` and `ReaperLosesItself`.
* arch/x86_64/proc/Process.cpp:168, arch/x86_64/cpu/SyscallDispatch.cpp:386-387 and
  arch/x86_64/proc/Reaper.cpp:45 read processes that may have been freed; see `FreedProcessReadIff`.

## Left out

- The conversion of arguments at the system call entry, but for descriptors: waitpid's negative pids are pid 0, any child, and the type byte of a directory record is given.
- Library types of FoundationKit (lists, bitmap, ring buffer, page tables, buddy allocator, reference counts, mutexes) appear only by their contracts: sequences, sets and counts.
- Spin locks, other CPUs and the hand-off of a lock across a context switch: only one CPU runs, and a step is atomic.
- Threads made by clone and group exit: each process has one thread, and the idle thread never blocks.
- The bodies of the two trampolines after their first instruction: they move registers set up by the switch.
- Signals, rt_sigreturn, sockets, ioctl, stat, uname, clocks, mmap and munmap, and the entry paths in assembly: they would only add easy members.
- Framebuffer, console, port I/O, interrupt controller, descriptor tables and boot requests: hardware.
- Pseudo file systems under /dev and /proc, and `Mknod`: trivial behaviour.
- The text of log lines; the two that read another process through a pointer are modelled for that read.
- Processes.Processes.GetParentPid: what it answers after reading a parent that was freed is left open; that it reads one is recorded.
- Removal of a node that is not in a list, which fork does with the child when its descriptor table cannot be allocated (arch/x86_64/proc/Process.cpp:114-118): taken to leave the list alone.
- The return value -EPIPE as a number of bytes: a failed write is an outcome of its own.
- Heap exhaustion in `new` for descriptions and vnodes, where the code ignores a null result; table growth, forks, pages, mappings and directory nodes can fail in the model.
- The fallback to pid 0 when the first processes are created and no pid is free: creation and fork fail instead.
- Mapping of user stacks and other regions next to the heap: a mapping that clashes with one is a mapping that fails.
- The read of a header outside the buffer during the walk over directory records: the model counts it with the walks that never end; records that fit sixteen bits exclude both.
- Lifetime of names, which the kernel keeps as views into the archive: names are values.
- Heap.Program.Load: takes it that no mapping reaches beyond the end of user space; zeroing and reading of segment contents are not modelled.
- DirentModel.GetdentsEnumerates: takes names without NUL and record lengths below 65536; `KernelFaithful` and `RecordWalkIff` show that this is needed.
- RamFileModel.WriteSplices: takes offset and length that do not wrap, and frames from the allocator that are not in use.
