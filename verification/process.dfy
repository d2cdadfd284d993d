/**
 The process control block (`struct proc` with its OPT_SHELL fields) and the
 operations that touch only one process: the fresh record `proc_create`
 builds, the thread counter, and the exit transition of `sys__exit`.
 */
module Process {
  import opened Errors
  import opened Limits
  import opened FdTable
  import opened WaitStatus

  /** `struct proc`: name, thread count, descriptor slots with their hint
      and counter, exit status and flag, own pid and parent pid. */
  datatype Proc = Proc(
    name: string,
    numthreads: nat,
    fds: Slots,
    lastFd: int,
    cntOpen: int,
    status: int,
    pid: int,
    ppid: int,
    exited: bool)

  /** The record `proc_create` builds before `pid_assign` gives it a pid: no
      threads, the standard streams pre-filled with the entries `std`..`std`+2,
      `last_fd` 3, `cnt_open` 0, not exited, no parent. The status is not set
      by the source; the model starts it at 0. */
  function NewProc(name: string, std: EntryId): (p: Proc)
    ensures p.name == name && p.numthreads == 0
    ensures |p.fds| == OPEN_MAX && forall f :: 0 <= f < FIRST_FD ==> p.fds[f] == Some(std + f)
    ensures forall f :: FIRST_FD <= f < OPEN_MAX ==> p.fds[f].None?
    ensures p.cntOpen == OpenCount(p.fds) == 0 && p.lastFd == FIRST_FD
    ensures !p.exited && p.ppid == -1
  {
    Proc(name, 0, InitialSlots(std), FIRST_FD, 0, 0, -1, -1, false)
  }

  /** `proc_addthread`: one more thread belongs to the process. */
  function AddThread(p: Proc): (r: Proc)
    ensures r.numthreads == p.numthreads + 1
    ensures r.(numthreads := p.numthreads) == p
  {
    p.(numthreads := p.numthreads + 1)
  }

  /** `proc_remthread`: one thread leaves; the source asserts there was one. */
  function RemThread(p: Proc): (r: Proc)
    requires p.numthreads > 0
    ensures r.numthreads == p.numthreads - 1
    ensures r.(numthreads := p.numthreads) == p
  {
    p.(numthreads := p.numthreads - 1)
  }

  /** Removing a thread undoes adding one. */
  lemma RemThreadUndoesAddThread(p: Proc)
    ensures RemThread(AddThread(p)) == p
  {
  }

  /** `sys__exit(code)` on the calling process: its thread leaves, the
      process is marked exited and the encoded status is stored. Nothing
      else of the record changes. */
  function Exit(p: Proc, code: int): (r: Proc)
    requires p.numthreads > 0
    ensures r.exited && r.numthreads == p.numthreads - 1 && r.status == MkWaitExit(code)
    ensures -0x2000_0000 <= code < 0x2000_0000 ==> WWhat(r.status) == WEXITED && WVal(r.status) == code
    ensures r.(numthreads := p.numthreads, status := p.status, exited := p.exited) == p
  {
    ExitStatusRoundTrip(code);
    RemThread(p).(exited := true, status := MkWaitExit(code))
  }
}
