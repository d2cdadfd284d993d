/**
 The exit/wait state machine of a process: running, then exited (flag set,
 encoded status stored) by `sys__exit`, then reaped by its parent through
 `sys_waitpid` / `proc_wait`, which destroys it and frees its pid. Blocking
 on the condition variable is an outcome of its own: the call can complete
 only once the target has exited.
 */
module Lifecycle {
  import opened Errors
  import opened Limits
  import opened SlotArray
  import opened FdTable
  import opened OpenFiles
  import opened Process
  import opened PidRegistry
  import opened Links
  import opened WaitStatus
  import opened KernelState

  /** `sys__exit(code)` called by a thread of `pid`: the thread leaves, the
      process is marked exited with the encoded status and everything else
      stays as it was. The invariant is kept. */
  function SysExit(k: Kernel, pid: int, code: int): (r: Kernel)
    requires Inv(k) && Live(k, pid) && ProcOf(k, pid).numthreads > 0
    ensures Inv(r) && Live(r, pid)
    ensures ProcOf(r, pid).exited && ProcOf(r, pid).numthreads == ProcOf(k, pid).numthreads - 1
    ensures ProcOf(r, pid).status == MkWaitExit(code)
    ensures -0x2000_0000 <= code < 0x2000_0000 ==>
              WWhat(ProcOf(r, pid).status) == WEXITED && WVal(ProcOf(r, pid).status) == code
    ensures ProcOf(r, pid).fds == ProcOf(k, pid).fds && ProcOf(r, pid).ppid == ProcOf(k, pid).ppid
    ensures forall i :: 0 <= i < PID_MAX && i != pid ==> r.reg.table[i] == k.reg.table[i]
    ensures r.files == k.files && r.entries == k.entries && r.reg.numproc == k.reg.numproc
  {
    var p := Exit(ProcOf(k, pid), code);
    UpdateProcInv(k, pid, p);
    UpdateProc(k, pid, p)
  }

  /** What `proc_wait` does: it keeps waiting while the target has not
      exited, and otherwise yields the state after destroying the target
      together with the status the target stored. */
  datatype Reaping = Blocked | Reaped(k: Kernel, status: int)

  /** `proc_wait(p)`. The source asserts in `proc_destroy` that the target is
      not the kernel process and has no thread left once it has exited. */
  function ProcWait(k: Kernel, pid: int): (r: Reaping)
    requires Inv(k) && FIRST_USER_PID <= pid < PID_MAX && Live(k, pid)
    requires ProcOf(k, pid).exited ==> ProcOf(k, pid).numthreads == 0
    ensures r.Blocked? <==> !ProcOf(k, pid).exited
    ensures r.Reaped? ==>
              && r.status == ProcOf(k, pid).status
              && Inv(r.k) && !Live(r.k, pid)
              && r.k.reg.table == k.reg.table[pid := None] && r.k.reg.numproc == k.reg.numproc - 1
              && r.k.reg.last == pid
  {
    if !ProcOf(k, pid).exited then Blocked
    else
      ProcDestroyInv(k, pid);
      Reaped(ProcDestroy(k, pid), ProcOf(k, pid).status)
  }

  /** The outcome of `sys_waitpid`: blocked, or returned with the new state,
      the result (the pid or an error) and the value copied to the user's
      status pointer, if any. */
  datatype WaitOutcome = WaitBlocked | WaitDone(k: Kernel, ret: Result<int>, copied: Option<int>)

  /** `sys_waitpid(pid, status, options)` called by the process `caller`.
      ESRCH for a pid outside [0, PID_MAX) or with no process; ECHILD when
      the caller is not the target's parent; blocked while the target runs.
      Otherwise the target is reaped and the pid returned; the status is
      copied out only for a caller other than the kernel process and a
      non-NULL pointer (`statusPtr`), and a failing copy (`copyFails`)
      turns the result into EFAULT after the target is already gone. The
      options are ignored. The source asserts in `proc_destroy` that an
      exited target has no thread left. */
  function SysWaitpid(k: Kernel, caller: int, pid: int, statusPtr: bool, copyFails: bool): (w: WaitOutcome)
    requires Inv(k) && Live(k, caller)
    requires Live(k, pid) && ProcOf(k, pid).exited ==> ProcOf(k, pid).numthreads == 0
    ensures w.WaitDone? && w.ret == Err(ESRCH) <==> pid < 0 || pid >= PID_MAX || k.reg.table[pid].None?
    ensures w.WaitDone? && w.ret == Err(ECHILD) <==> Live(k, pid) && ProcOf(k, pid).ppid != caller
    ensures w.WaitBlocked? <==> Live(k, pid) && ProcOf(k, pid).ppid == caller && !ProcOf(k, pid).exited
    ensures w.WaitDone? && (w.ret == Err(ESRCH) || w.ret == Err(ECHILD)) ==> w.k == k && w.copied.None?
    ensures w.WaitDone? && w.ret.Ok? ==> w.ret.value == pid
    ensures w.WaitDone? && w.ret != Err(ESRCH) && w.ret != Err(ECHILD) ==>
              && FIRST_USER_PID <= pid < PID_MAX && Live(k, pid) && ProcOf(k, pid).exited
              && w.k.reg.table == k.reg.table[pid := None] && w.k.reg.numproc == k.reg.numproc - 1
              && w.k.reg.last == pid
              && (w.ret.Ok? || w.ret == Err(EFAULT))
              && (w.ret == Err(EFAULT) <==> caller > KERNEL_PID && statusPtr && copyFails)
              && (w.copied.Some? <==> w.ret.Ok? && caller > KERNEL_PID && statusPtr)
              && (w.copied.Some? ==> w.copied.value == ProcOf(k, pid).status)
    ensures w.WaitDone? ==> Inv(w.k)
  {
    if pid < 0 || pid >= PID_MAX || k.reg.table[pid].None? || ProcOf(k, pid).pid != pid then
      WaitDone(k, Err(ESRCH), None)
    else if ProcOf(k, caller).pid != ProcOf(k, pid).ppid then
      WaitDone(k, Err(ECHILD), None)
    else
      match ProcWait(k, pid)
      case Blocked => WaitBlocked
      case Reaped(k', status) =>
        if caller > KERNEL_PID && statusPtr then
          if copyFails then WaitDone(k', Err(EFAULT), None) else WaitDone(k', Ok(pid), Some(status))
        else WaitDone(k', Ok(pid), None)
  }

  /** `sys_getpid()`: the caller's own pid. */
  function SysGetpid(k: Kernel, caller: int): (r: int)
    requires Inv(k) && Live(k, caller)
    ensures r == caller
    ensures GetProc(k.reg, r) == Some(ProcOf(k, caller))
  {
    ProcOf(k, caller).pid
  }

  /** `sys_getppid()`: the pid recorded as the caller's parent; the kernel
      process has none (-1). */
  function SysGetppid(k: Kernel, caller: int): (r: int)
    requires Inv(k) && Live(k, caller)
    ensures caller == KERNEL_PID ==> r == -1
  {
    ProcOf(k, caller).ppid
  }

  /** A child that exits with `code` and is then waited for by its parent
      is reaped, and the parent receives a status that decodes as a normal
      exit with that code. */
  lemma ExitThenWaitDeliversStatus(k: Kernel, caller: int, child: int, code: int)
    requires Inv(k) && Live(k, caller) && Live(k, child) && caller != child
    requires ProcOf(k, child).ppid == caller && ProcOf(k, child).numthreads == 1
    requires caller > KERNEL_PID && -0x2000_0000 <= code < 0x2000_0000
    ensures var k1 := SysExit(k, child, code);
            && Live(k1, caller)
            && var w := SysWaitpid(k1, caller, child, true, false);
               && w.WaitDone? && w.ret == Ok(child) && w.copied.Some?
               && WWhat(w.copied.value) == WEXITED && WVal(w.copied.value) == code
               && !Live(w.k, child)
  {
  }

  /** Waiting before the child exits blocks and changes nothing; once the
      child has exited the same call completes. */
  lemma WaitBlocksUntilExit(k: Kernel, caller: int, child: int, code: int, statusPtr: bool)
    requires Inv(k) && Live(k, caller) && Live(k, child) && caller != child
    requires ProcOf(k, child).ppid == caller && !ProcOf(k, child).exited && ProcOf(k, child).numthreads == 1
    ensures SysWaitpid(k, caller, child, statusPtr, false).WaitBlocked?
    ensures Live(SysExit(k, child, code), caller)
    ensures SysWaitpid(SysExit(k, child, code), caller, child, statusPtr, false).WaitDone?
    ensures SysWaitpid(SysExit(k, child, code), caller, child, statusPtr, false).ret == Ok(child)
  {
  }

  /** A pid is reaped at most once: after a completed wait, waiting on the
      same pid again reports ESRCH. */
  lemma SecondWaitFails(k: Kernel, caller: int, pid: int, statusPtr: bool, copyFails: bool, statusPtr2: bool, copyFails2: bool)
    requires Inv(k) && Live(k, caller) && caller != pid
    requires Live(k, pid) && ProcOf(k, pid).exited ==> ProcOf(k, pid).numthreads == 0
    requires SysWaitpid(k, caller, pid, statusPtr, copyFails).WaitDone?
    requires SysWaitpid(k, caller, pid, statusPtr, copyFails).ret !in {Err(ESRCH), Err(ECHILD)}
    ensures var k' := SysWaitpid(k, caller, pid, statusPtr, copyFails).k;
            && Live(k', caller)
            && SysWaitpid(k', caller, pid, statusPtr2, copyFails2) == WaitDone(k', Err(ESRCH), None)
  {
  }

  /** Only the recorded parent can reap a process: any other caller gets
      ECHILD. In particular the kernel process, which has no parent, is
      never reaped. */
  lemma OnlyParentReaps(k: Kernel, caller: int, pid: int, statusPtr: bool, copyFails: bool)
    requires Inv(k) && Live(k, caller) && Live(k, pid)
    requires ProcOf(k, pid).exited ==> ProcOf(k, pid).numthreads == 0
    requires pid == KERNEL_PID || ProcOf(k, pid).ppid != caller
    ensures SysWaitpid(k, caller, pid, statusPtr, copyFails) == WaitDone(k, Err(ECHILD), None)
  {
  }

  /** The pid freed by a completed wait is the one the next process
      creation hands out. */
  lemma ReapedPidReused(k: Kernel, caller: int, pid: int, statusPtr: bool, copyFails: bool, name: string)
    requires Inv(k) && Live(k, caller)
    requires Live(k, pid) && ProcOf(k, pid).exited ==> ProcOf(k, pid).numthreads == 0
    requires SysWaitpid(k, caller, pid, statusPtr, copyFails).WaitDone?
    requires SysWaitpid(k, caller, pid, statusPtr, copyFails).ret !in {Err(ESRCH), Err(ECHILD)}
    ensures ProcCreate(SysWaitpid(k, caller, pid, statusPtr, copyFails).k, name, false).ret == Ok(pid)
  {
  }
}
