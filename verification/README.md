# OS/161 process lifecycle and open-file bookkeeping, in Dafny

This project models the process-management core of an OS/161 kernel extended
with `fork`, `waitpid`, `_exit`, `getpid`/`getppid` and a two-level open-file
table. The kernel is one immutable value, `KernelState.Kernel`, which holds:

- the pid registry (`proc_table[PID_MAX]`, the scan hint `last` and the
  counter `numproc`);
- the system-wide `system_file_table[SYSTEM_OPEN_MAX]` of `struct openfile`
  (a vnode and a reference count);
- the descriptor entries (`struct process_table`: offset, flags and a link to
  an openfile). These are kept in a map keyed by entry id, so that a slot of a
  parent and the same slot of its forked child can name the *same* entry,
  which is how the source shares offsets across fork;
- the next unused entry id.

Every system call is one atomic transition on this value. Locks are not
modelled. Blocking in `proc_wait` (`cv_wait` while `exited == 0`) is an
outcome of its own (`Blocked` / `WaitBlocked`) that leaves the state
unchanged. The transition completes only once the target has exited.

The kernel invariant `KernelState.Inv` holds when all of these hold:

- every registered process is stored under its own pid;
- slot 0 is never used and slot 1 holds the kernel process, which has no
  parent;
- `numproc` is one more than the number of occupied slots;
- every descriptor table has `OPEN_MAX` slots with the standard streams
  present;
- `cnt_open` counts the slots used from fd 3 on;
- no vnode is held by two openfiles, and a free openfile has a NULL vnode and
  count 0;
- every openfile's `refcount` equals the number of descriptor slots, over all
  processes, linked to it.

Boot establishes the invariant. Every operation preserves it. The last clause
is the one that the source's failure paths break; see "## Findings".

Modules follow the source's structure:

| module | contents |
|---|---|
| `Limits`, `Errors` | constants and error numbers |
| `SlotArray` | the circular first-fit scan shared by the pid table and descriptor tables |
| `WaitStatus` | `_MKWAIT_EXIT` on a 32-bit `int` |
| `FdTable` | per-process descriptor slots |
| `OpenFiles` | the system file table and descriptor entries |
| `Process` | `struct proc` |
| `PidRegistry` | `pid_assign`, `pid_remove`, `get_proc` |
| `Links` | counting the slots linked to an openfile |
| `KernelState` | invariant, boot, `proc_create`, `proc_destroy` |
| `FileOps` | `assing_fd`, `remove_fd` |
| `Lifecycle` | `sys__exit`, `proc_wait`, `sys_waitpid`, `sys_getpid`, `sys_getppid` |
| `Fork` | `sys_fork` |

Constants:

- PID_MAX = 32767 and OPEN_MAX = 128, the OS/161 values from kern/limits.h
  (not part of this model);
- SYSTEM_OPEN_MAX = 10 * OPEN_MAX;
- the first allocatable descriptor is 3;
- the kernel process has pid 1, and user pids are handed out from 2.

Where the code cannot mean what it says, because it does not compile or
indexes out of bounds, the model follows the evident intent. Each such place
is listed under "## Left out" or "## Findings".

## Model

| member | source | states |
|---|---|---|
| SlotArray.Probe | proc/proc.c:378-398 | The circular scan over [lo, hi) from the hint stops at the first empty slot, and every slot probed before it is occupied; when it gives up, all probed slots were occupied and the hint has advanced by the probe count |
| SlotArray.ProbeComplete | proc/proc.c:378-398 | A scan of at least hi - lo probes fails exactly when every slot of the range is occupied |
| PidRegistry.PidAssign | proc/proc.c:360-404 | The first call (no kernel process yet) gives pid 1 and sets the hint to 2. Afterwards: -1 exactly when every pid in [2, PID_MAX) is taken, with table and counter unchanged; otherwise a previously NULL slot in [2, PID_MAX) now holds the process under that pid, no other slot changes, and the counter goes up by one; a free slot at the hint is taken first. The hint moves to the slot after the claimed pid (wrapping to 2), or past every probed slot when the scan fails; registry validity is kept |
| PidRegistry.PidAssignIsFirstFit | proc/proc.c:378-398 | The pid handed out is the first free slot in circular order from the hint |
| PidRegistry.PidRemove | proc/proc.c:406-415 | Exactly slot `pid` becomes NULL, the counter drops by one, the hint becomes `pid`, and registry validity is kept |
| PidRegistry.PidReusedAfterRemove | proc/proc.c:406-415 | A `pid_assign` right after `pid_remove(pid)` hands out `pid` again |
| PidRegistry.PidRemoveUndoesPidAssign | proc/proc.c:378-415 | Removing a freshly assigned pid restores the table and the counter |
| PidRegistry.GetProc | proc/proc.c:417-427 | NULL exactly for a pid outside [0, PID_MAX) or an empty slot; a process found under `pid` carries that pid |
| PidRegistry.NumprocBound | proc/proc.c:364 | `numproc <= PID_MAX` always holds, and `numproc` reaches PID_MAX exactly when no pid is free |
| PidRegistry.PidsDistinct | proc/proc.c:380-382 | Registered processes have pairwise distinct pids |
| PidRegistry.AdvanceAsWrittenOverruns | proc/proc.c:384-386 | The hint as written reaches PID_MAX after the last slot is claimed; the corrected hint wraps to 2 |
| PidRegistry.BootstrapAsWrittenLosesKernel | proc/proc.c:367-373 | The bootstrap as written leaves slot 1 NULL, so the registry is invalid and `get_proc(1)` fails; the corrected bootstrap stores the kernel process under pid 1 |
| WaitStatus.ExitStatusRoundTrip | syscall/proc_syscalls.c:37 | An exit code that fits the 30 payload bits is recovered by `_WVAL` from the encoded status, and `_WWHAT` tags it as a normal exit |
| FdTable.InitialSlots | proc/proc.c:89-95 | A new table has OPEN_MAX slots, slots 0-2 hold the three standard-stream entries, and no slot from 3 on is counted |
| FdTable.OpenCountFull | include/proc.h:53-55 | The count of used slots from 3 on is at most OPEN_MAX - 3, and it reaches that bound exactly when no slot from 3 on is free |
| FdTable.FreeFd | proc/proc.c:447-464 | The slot found is the first free one of [3, OPEN_MAX) in circular order from the hint (every slot probed before it is used), so a free slot at the hint is taken; nothing is found exactly when every slot from 3 on is used |
| FdTable.ScanAsWrittenSkipsFirstFd | proc/proc.c:460-463 | Once the hint is past 3, the scan as written never probes slot 3 again |
| FdTable.OnlyFirstFdFree | proc/proc.c:451-464 | With only slot 3 free and the hint past it, the scan as written misses it on every probe, while the corrected scan returns 3 |
| FdTable.OpenGuardAsWrittenAdmitsFullTable | proc/proc.c:435-439 | A table with every slot from 3 on used still passes the `cnt_open < OPEN_MAX` guard, and no free slot exists for the scan to find |
| OpenFiles.InitialFiles | include/proc.h:16 | The system table has SYSTEM_OPEN_MAX entries, all free; it is well formed and no entry counts as live towards the ENFILE limit |
| OpenFiles.IndexOf | proc/proc.c:467-470 | The match is the lowest entry holding the vnode; none is found exactly when no entry holds it |
| OpenFiles.FirstFree | proc/proc.c:487-490 | The entry is the lowest one with a NULL vnode; none is found exactly when every entry is in use |
| OpenFiles.Acquire | proc/proc.c:467-501 | An openfile already holding the vnode gains one reference. Otherwise the lowest free openfile is claimed with count 1, and this fails only when none is free. No other openfile changes |
| OpenFiles.AcquireWf | proc/proc.c:467-501 | Resolving a vnode keeps the table well formed (no duplicate vnodes, free entries with count 0) |
| OpenFiles.ReleaseHandle | proc/proc.c:511-524 | Above 1 the count drops by one and the vnode is kept; at 1 the openfile is freed; well-formedness is kept |
| OpenFiles.BumpAll | syscall/proc_syscalls.c:129-145 | Every openfile keeps its vnode and gains exactly one reference per slot linked to it |
| OpenFiles.ReleaseAll | proc/proc.c:509-524 | Every openfile loses exactly one reference per slot linked to it, stays well formed, and is unchanged when no slot links to it |
| OpenFiles.ReleaseAllUndoesBumpAll | syscall/proc_syscalls.c:138-143 | Giving back the references the fork loop added restores the system table exactly |
| Process.NewProc | proc/proc.c:49-95 | A fresh process has no threads, slots 0-2 pre-filled and the rest NULL, `last_fd` 3, `cnt_open` 0, is not exited, and has no parent (-1) |
| Process.RemThreadUndoesAddThread | proc/proc.c:255-297 | `proc_remthread` undoes `proc_addthread`: the record, thread count included, is back to what it was |
| Process.Exit | syscall/proc_syscalls.c:33-39 | The thread leaves, the process is marked exited, the stored status is `_MKWAIT_EXIT(code)` on a 32-bit `int`, which decodes to the code when the code is in range, and nothing else of the record changes |
| KernelState.Boot | proc/proc.c:198-205 | Starting from the initial state (empty registry, free file table, no entries), after boot only slot 1 is used, and it holds the kernel process with pid 1 and the given name; the hint is 2 and `numproc` is 2 |
| KernelState.BootInv | proc/proc.c:198-205 | Boot establishes the kernel invariant |
| KernelState.ProcCreate | proc/proc.c:32-98 | Fails (NULL, reported as ENOMEM) exactly on an allocation failure or a full pid table, and then changes no slot, count or openfile. On success a fresh record sits in a previously NULL slot in [2, PID_MAX) under its pid, `numproc` is one higher, and three standard-stream entries are added |
| KernelState.ProcCreateInv | proc/proc.c:32-98 | Process creation preserves the kernel invariant, including exact reference counts |
| KernelState.ProcDestroy | proc/proc.c:106-193 | Requires the process to be neither the kernel process nor holding threads, and every openfile to hold at least the references the process's slots link to it (the invariant gives this, `KernelState.InvDestroyable`). Its pid slot is freed and the hint points at it; each openfile loses exactly the references the process's slots held, and other openfiles are unchanged |
| KernelState.ProcDestroyInv | proc/proc.c:106-193 | Destroying a process preserves the kernel invariant |
| KernelState.ProcDestroyAsWrittenLeaks | proc/proc.c:184-193 | Destroying as written a process linked to an openfile leaves that openfile's count above its number of links, which breaks the invariant; the corrected destroy keeps them equal |
| FileOps.AssignFd | proc/proc.c:429-507 | EMFILE exactly when no slot from 3 on is free, which is exactly when `cnt_open` has reached OPEN_MAX - 3. ENFILE exactly when a slot is free but SYSTEM_OPEN_MAX openfiles are live. An error changes nothing. On success the fd is the first free slot of [3, OPEN_MAX) in circular order from the hint, and `cnt_open` goes up by one. The new entry has offset 0, the flags, and a link to the openfile of the vnode, which gains a reference; a vnode not yet open claims the lowest free openfile with count 1 |
| FileOps.AssignFdInv | proc/proc.c:429-507 | Opening preserves the kernel invariant: the single new link matches the single new reference |
| FileOps.AssignFdAsWrittenUnlinked | proc/proc.c:499-506 | Opening a new vnode as written leaves an openfile with count 1 and no linked slot, which breaks the invariant; the corrected open gives count 1 with one link |
| FileOps.RemoveFd | proc/proc.c:509-528 | EBADF with no change exactly for an fd outside [3, OPEN_MAX) or an empty slot. Otherwise the slot becomes NULL, `cnt_open` drops by one and `last_fd` becomes fd. The linked openfile's count drops by one (at 1 it is freed), and every other openfile is unchanged |
| FileOps.RemoveFdInv | proc/proc.c:509-528 | Closing preserves the kernel invariant |
| FileOps.RemoveFdUndoesAssignFd | proc/proc.c:429-528 | Closing the descriptor just opened restores the system table exactly, along with the process's slots and `cnt_open` |
| FileOps.SameVnodeSharesOpenfile | proc/proc.c:467-486 | Two opens of one vnode, by one process or two, create two distinct descriptor entries (the second open leaves the first entry, offset included, unchanged) linked to the same openfile, which gains two references |
| Lifecycle.SysExit | syscall/proc_syscalls.c:27-44 | Requires a thread. The process is marked exited with one thread fewer and the status `_MKWAIT_EXIT(code)`, which decodes to the code for codes in [-2^29, 2^29); its slots and parent are kept, no other process or openfile changes, and the invariant holds |
| Lifecycle.ProcWait | proc/proc.c:345-358 | Blocks exactly while the target has not exited. Otherwise it returns the stored status and destroys the target: its pid slot is freed, `numproc` drops by one, and the invariant holds |
| Lifecycle.SysWaitpid | syscall/proc_syscalls.c:47-81 | ESRCH exactly for a pid outside [0, PID_MAX) or an empty slot; ECHILD exactly when the caller is not the recorded parent; both change nothing. It blocks exactly while the caller's child runs. Otherwise the child is reaped and its pid returned; the status is copied exactly when the caller is not the kernel process and the pointer is non-NULL; EFAULT exactly when that copy fails. The invariant holds |
| Lifecycle.SysGetpid | syscall/proc_syscalls.c:83-85 | Returns the caller's own pid, under which the registry finds the caller |
| Lifecycle.SysGetppid | syscall/proc_syscalls.c:89-91 | The kernel process reports -1 (no parent); the value for a forked child, the forking caller's pid, is pinned by `Fork.ForkedChildIds` |
| Lifecycle.ExitThenWaitDeliversStatus | syscall/proc_syscalls.c:27-81 | A child that exits with a code and is then waited for by its parent is reaped, and the parent receives a status that decodes to that code |
| Lifecycle.WaitBlocksUntilExit | proc/proc.c:349-352 | Waiting on a running child blocks; once the child exits, the same wait returns the child's pid |
| Lifecycle.SecondWaitFails | syscall/proc_syscalls.c:57-62 | After a completed wait, a second wait on the same pid gets ESRCH |
| Lifecycle.OnlyParentReaps | syscall/proc_syscalls.c:64-67 | A caller that is not the recorded parent gets ECHILD and nothing changes; the kernel process is never reaped |
| Lifecycle.ReapedPidReused | proc/proc.c:406-415 | The pid a completed wait freed is the one the next process creation hands out |
| Fork.AliasSlotsCopies | syscall/proc_syscalls.c:129-145 | For a fresh child, the loop leaves the child's slots equal to the parent's |
| Fork.DupFiles | syscall/proc_syscalls.c:129-148 | Every openfile keeps its vnode and gains one reference per parent slot linked to it; only the child's record changes in the registry |
| Fork.DupFilesInv | syscall/proc_syscalls.c:129-145 | The loop preserves the invariant, and the child ends with exactly the parent's slots |
| Fork.SysFork | syscall/proc_syscalls.c:103-175 | ENPROC exactly when no pid is free; ENOMEM exactly when a collaborator fails. On success the child is new, has the caller's name, slots (the same entries, so offsets are shared), `cnt_open` and hint, one thread, and the caller as parent; no other process changes, `numproc` is one higher, and every openfile gains one reference per caller slot linked to it |
| Fork.SysForkInv | syscall/proc_syscalls.c:103-175 | Fork preserves the kernel invariant on every path |
| Fork.ForkFailureRollsBack | syscall/proc_syscalls.c:111-170 | A failed fork leaves the pid table, `numproc` and the system file table exactly as they were |
| Fork.DestroyFreshChild | syscall/proc_syscalls.c:122-127 | Destroying the child right after its creation restores the pid table, the count and the file table |
| Fork.DestroyAliasedChild | syscall/proc_syscalls.c:151-170 | Destroying the child after the descriptor loop, with its references given back, restores the pid table, the count and the file table |
| Fork.SysForkAsWritten | syscall/proc_syscalls.c:103-175 | The as-written fork returns what the corrected one returns, and reaches the same state except on the trapframe and `thread_fork` failure paths |
| Fork.DestroyAliasedChildAsWritten | syscall/proc_syscalls.c:151-170 | Destroying the child as written after the loop frees the pid but keeps every reference the loop added |
| Fork.ForkFailureAsWrittenLeaks | syscall/proc_syscalls.c:151-170 | A fork as written that fails at the trapframe or `thread_fork` leaves the caller's openfiles with more references than links, which breaks the invariant |
| Fork.ForkedChildIds | syscall/proc_syscalls.c:158 | A fork with a free pid and no failing collaborator succeeds, and in the child it created `getpid` reports the child's pid and `getppid` the caller's |

## Left out

- Locks, condition variables, spinlocks and `splhigh`. Every call is one
  atomic transition, and `cv_wait`/`cv_broadcast` become the blocked outcome
  of a wait. The lock-name mix-ups therefore have no counterpart:
  `system_file_lock` for the declared `system_table_lock`
  (proc/proc.c:29, 466), `lock_release(system_table)` (proc/proc.c:476), and
  the check of `cv` instead of `lock` after `lock_create` (proc/proc.c:69).
- Address spaces (`as_copy`, `as_destroy`, `proc_setas`), `p_cwd` with
  `VOP_INCREF`/`VOP_DECREF`, trapframe copying, `thread_fork` and
  `enter_forked_process`. These are collaborators; fork sees only whether
  each call succeeds (`Fork.ForkFaults`).
- `kmalloc`/`kstrdup`/`cv_create`/`lock_create` failures in `proc_create` are
  one flag (`allocFails`). The unchecked `kmalloc` of the standard-stream
  entries and of new descriptor entries is taken to succeed.
- Freeing descriptor entries (`kfree` in `remove_fd` and in fork's loop).
  Entries stay in the map under their id; an entry that no slot names any
  more is unreachable and changes no count.
- `sys_execv`, its argument-copy helpers, and the console I/O of
  syscall/file_syscall.c.
- `get_numproc` is read directly as `numproc`. The source declares the
  counter as `nproc` (proc/proc.c:25) but uses `numproc`; they are taken to
  be one variable, starting at 1.
- `last_file` (proc/proc.c:447-448; syscall/proc_syscalls.c:148) is read as
  the declared field `last_fd`.
- `system_count` (proc/proc.c:441) is undeclared in the source. It is
  modelled as the number of live openfiles (`OpenFiles.LiveHandles`).
- The test `system_file_table > SYSTEM_OPEN_MAX` (proc/proc.c:492) compares
  an array with an int. It is modelled as "no free openfile", which returns
  ENFILE. After the system-count check this case cannot happen.
- `remove_fd` has no range or NULL check (proc/proc.c:509-511), and on the
  standard streams it would follow a NULL `ref`. The model refuses any fd
  outside [3, OPEN_MAX) or any empty slot with EBADF, and changes nothing.
  `remove_fd` falls off the end without a return value; the model returns 0.
- `sys_fork` reports the child's pid through `*child_pid` and returns 0. The
  model returns the child's pid as the result. The child's own return of 0
  happens inside `enter_forked_process`, which is not part of this model.
- The `status` field is never initialised by `proc_create`; the model starts
  it at 0. Only statuses stored by `_exit` are ever delivered.
- The standard-stream entries `proc_create` allocates get only `ref` (NULL)
  and `offset` (0) set (proc/proc.c:90-95); their `flag` is left as `kmalloc`
  returned it. The model sets it to 0. Nothing reads that flag.
- Lifecycle.SysWaitpid: requires that an exited target has no thread left,
  which is the assertion `proc_destroy` makes (proc/proc.c:184). The
  `p->pid != pid` test (syscall/proc_syscalls.c:59) never fires under the
  invariant, so ESRCH is stated only in terms of the pid range and the slot.
  The `options` argument is ignored, as in the source.
- Lifecycle.SysGetppid: states only that the kernel process has no parent
  (-1). That a parent differs from its child is not stated, because a
  parent's pid can be freed and reused while the child lives.
- Process.Exit and Lifecycle.SysExit: the stored status is stated exactly
  as `_MKWAIT_EXIT(code)`, but the code is recovered from it only for codes in
  [-2^29, 2^29). `_MKWAIT_EXIT` shifts into a 32-bit `int`, which is
  modelled with explicit wrap-around, so larger codes lose their high bits.
  `_MKWAIT_EXIT` and the wait-status macros come from kern/wait.h, which is
  not part of this model.
- The corrected `proc_destroy` gives back the descriptor references the
  process holds. As written it gives back nothing (see "## Findings"), so
  reaping a process that has open files leaves their openfiles forever
  counted.

## Findings

| source | as written | input that shows it | evidently intended | confidence | as-written member | corrected member |
|---|---|---|---|---|---|---|
| proc/proc.c:384-386 | After a claim, the hint wraps only when `last > PID_MAX` | Claiming pid PID_MAX-1 leaves `last == PID_MAX`, and the next `pid_assign` reads `proc_table[PID_MAX]` out of bounds | Wrap when `last >= PID_MAX`, as on the miss path at lines 394-396 | high; not executed | PidRegistry.AdvanceAsWrittenOverruns | PidRegistry.PidAssign |
| proc/proc.c:367-373 | Bootstrap stores `kproc` into slot 1 while `kproc` is still NULL | From the initial registry, slot 1 stays NULL while `numproc` becomes 2, so `get_proc(1)` finds nothing | Store the process being created (`p`) in slot 1 | high; not executed | PidRegistry.BootstrapAsWrittenLosesKernel | PidRegistry.PidAssign |
| proc/proc.c:460-463 | On reaching the last slot, the scan sets `i = 3` and the loop increment moves on to 4 | Only slot 3 free and `last_fd` > 3: no number of probes finds it, and the loop never ends | A circular scan over [3, OPEN_MAX) that also probes slot 3 | high; not executed | FdTable.OnlyFirstFdFree | FdTable.FreeFd |
| proc/proc.c:435-439 | EMFILE only when `cnt_open >= OPEN_MAX` | Slots 3..OPEN_MAX-1 all used: `cnt_open == OPEN_MAX - 3` passes the guard, and the scan finds no slot | EMFILE when no slot from 3 on is free (`cnt_open >= OPEN_MAX - 3`) | high; not executed | FdTable.OpenGuardAsWrittenAdmitsFullTable | FileOps.AssignFd |
| proc/proc.c:499-506 | For a vnode not yet open, the new entry's `ref` is never assigned | Opening any vnode no openfile holds: the openfile gets count 1 with no linked slot, and closing the new fd follows an unset pointer | Set `ref = &system_file_table[system_index_free]` | high; not executed | FileOps.AssignFdAsWrittenUnlinked | FileOps.AssignFd |
| proc/proc.c:184-193 | `proc_destroy` never drops the references its descriptor slots hold | Reaping a child that still has a file open: the openfile's count stays above its number of links and can never reach 0 | Drop one reference per linked slot, as `remove_fd` does | medium; not executed | KernelState.ProcDestroyAsWrittenLeaks | KernelState.ProcDestroy |
| syscall/proc_syscalls.c:151-170 | After the descriptor loop, the trapframe and `thread_fork` failure paths call `proc_destroy` without undoing the loop's refcount increments | A caller with one open file whose fork fails in `thread_fork`: that openfile keeps one extra reference, and the fork is not rolled back | Give back every reference the loop added, so a failed fork leaves the file table as it was | high; not executed | Fork.ForkFailureAsWrittenLeaks | Fork.ForkFailureRollsBack |
