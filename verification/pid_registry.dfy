/**
 The pid registry of proc/proc.c: the slot table `proc_table[PID_MAX]`, the
 scan hint `last` and the counter `numproc`, with `pid_assign`,
 `pid_remove` and `get_proc`.

 The counter starts at 1 before any process exists and the kernel
 process's registration adds 1 more, so it always equals one plus the number
 of occupied slots: slot 0, never handed out, counts as taken.
 */
module PidRegistry {
  import opened Errors
  import opened Limits
  import opened SlotArray
  import opened Process

  datatype Registry = Registry(table: seq<Option<Proc>>, last: int, numproc: int)

  /** The registry before the kernel process exists: all slots NULL,
      `last` = 1, `numproc` = 1. */
  function Initial(): (r: Registry)
    ensures |r.table| == PID_MAX && r.table[KERNEL_PID].None?
  {
    Registry(seq(PID_MAX, i => None), 1, 1)
  }

  /** The registry after boot: slot 0 unused, slot 1 the kernel process,
      the hint inside the scanned range [2, PID_MAX), the counter one above
      the occupied slots, and every registered process stored under its own
      pid. */
  ghost predicate Valid(r: Registry)
  {
    && |r.table| == PID_MAX
    && r.table[0].None?
    && r.table[KERNEL_PID].Some?
    && FIRST_USER_PID <= r.last < PID_MAX
    && r.numproc == 1 + Occupied(r.table)
    && forall i :: 0 <= i < PID_MAX && r.table[i].Some? ==> r.table[i].value.pid == i
  }

  /** The hint after claiming `pid`: the next slot, wrapping back to 2. */
  function Advance(pid: int): (next: int)
    requires FIRST_USER_PID <= pid < PID_MAX
    ensures FIRST_USER_PID <= next < PID_MAX
  {
    Next(FIRST_USER_PID, PID_MAX, pid)
  }

  /** The hint after a claim as written: the wrap test is `last > PID_MAX`. */
  function AdvanceAsWritten(pid: int): int
  {
    if pid + 1 > PID_MAX then FIRST_USER_PID else pid + 1
  }

  /** Claiming the last slot leaves the hint as written at PID_MAX, one past
      the table, so the next `pid_assign` reads `proc_table[PID_MAX]`; the
      corrected hint wraps to 2. */
  lemma AdvanceAsWrittenOverruns()
    ensures AdvanceAsWritten(PID_MAX - 1) == PID_MAX
    ensures Advance(PID_MAX - 1) == FIRST_USER_PID
  {
  }

  /** Result of `pid_assign`: the new registry and the pid stored into the
      process (-1 on failure). */
  datatype Assigned = Assigned(reg: Registry, pid: int)

  /** The slots `pid_assign`'s scan may hand out are all taken. */
  ghost predicate Full(r: Registry)
    requires |r.table| == PID_MAX
  {
    forall q :: FIRST_USER_PID <= q < PID_MAX ==> r.table[q].Some?
  }

  /** `pid_assign(p)`. While the kernel process is not registered, `p` is it
      and gets pid 1. Otherwise up to PID_MAX slots are probed circularly over
      [2, PID_MAX) from the hint; the first NULL one is claimed, the hint
      moves past it and the counter goes up; if every probe hits a taken
      slot, the pid is -1 and only the hint has moved. */
  function PidAssign(r: Registry, p: Proc): (a: Assigned)
    requires Valid(r) || r == Initial()
    ensures Valid(a.reg)
    ensures r.table[KERNEL_PID].None? ==> a.pid == KERNEL_PID && a.reg.last == FIRST_USER_PID
    ensures r.table[KERNEL_PID].Some? ==> (a.pid == -1 <==> Full(r))
    ensures r.table[KERNEL_PID].Some? && a.pid != -1 ==> FIRST_USER_PID <= a.pid < PID_MAX
    ensures a.pid != -1 ==>
              && 0 <= a.pid < PID_MAX && r.table[a.pid].None?
              && a.reg.table == r.table[a.pid := Some(p.(pid := a.pid))]
              && a.reg.numproc == r.numproc + 1
    ensures a.pid == -1 ==> a.reg.table == r.table && a.reg.numproc == r.numproc
    ensures r.table[KERNEL_PID].Some? && a.pid != -1 ==> a.reg.last == Advance(a.pid)
    ensures r.table[KERNEL_PID].Some? && a.pid == -1 ==> a.reg.last == At(FIRST_USER_PID, PID_MAX, r.last, PID_MAX)
    ensures Valid(r) && r.table[r.last].None? ==> a.pid == r.last
  {
    if r.table[KERNEL_PID].None? then
      var t := r.table[KERNEL_PID := Some(p.(pid := KERNEL_PID))];
      OccupiedEmpty(r.table);
      OccupiedSet(r.table, KERNEL_PID, Some(p.(pid := KERNEL_PID)));
      Assigned(Registry(t, FIRST_USER_PID, r.numproc + 1), KERNEL_PID)
    else
      ProbeComplete(r.table, FIRST_USER_PID, PID_MAX, r.last, PID_MAX);
      match Probe(r.table, FIRST_USER_PID, PID_MAX, r.last, PID_MAX)
      case Found(pid, _) =>
        OccupiedSet(r.table, pid, Some(p.(pid := pid)));
        Assigned(Registry(r.table[pid := Some(p.(pid := pid))], Advance(pid), r.numproc + 1), pid)
      case Exhausted(hint) =>
        Assigned(r.(last := hint), -1)
  }

  /** The pid handed out is the first free slot in circular order from the
      hint: every slot probed before it was taken. */
  lemma PidAssignIsFirstFit(r: Registry, p: Proc)
    requires Valid(r) && !Full(r)
    ensures exists k :: 0 <= k < PID_MAX && At(FIRST_USER_PID, PID_MAX, r.last, k) == PidAssign(r, p).pid
                        && forall q :: 0 <= q < k ==> r.table[At(FIRST_USER_PID, PID_MAX, r.last, q)].Some?
  {
    assert PidAssign(r, p).pid != -1;
    var s := Probe(r.table, FIRST_USER_PID, PID_MAX, r.last, PID_MAX);
    assert s.Found?;
    assert At(FIRST_USER_PID, PID_MAX, r.last, s.probes) == PidAssign(r, p).pid;
  }

  /** The bootstrap as written: `proc_table[1] = kproc` runs while `kproc` is
      still NULL, so slot 1 stays NULL although the counter is bumped. */
  function BootstrapAsWritten(r: Registry, p: Proc): (a: Assigned)
    requires |r.table| == PID_MAX
    ensures a.pid == KERNEL_PID && |a.reg.table| == PID_MAX && a.reg.table[KERNEL_PID].None?
    ensures a.reg.numproc == r.numproc + 1
  {
    Assigned(Registry(r.table[KERNEL_PID := None], FIRST_USER_PID, r.numproc + 1), KERNEL_PID)
  }

  /** From the initial registry the bootstrap as written yields a registry
      whose slot 1 is NULL, so the kernel process cannot be looked up and the
      counter says 2 with no slot occupied; the corrected bootstrap registers
      the kernel process under pid 1. */
  lemma BootstrapAsWrittenLosesKernel(p: Proc)
    ensures BootstrapAsWritten(Initial(), p).reg.table[KERNEL_PID].None?
    ensures !Valid(BootstrapAsWritten(Initial(), p).reg)
    ensures GetProc(BootstrapAsWritten(Initial(), p).reg, KERNEL_PID).None?
    ensures PidAssign(Initial(), p).reg.table[KERNEL_PID] == Some(p.(pid := KERNEL_PID))
  {
  }

  /** `pid_remove(p)`: slot `pid` becomes NULL, the counter goes down and the
      hint points at the freed slot. The kernel process is never removed and
      the slot must be in use (the source asserts both in `proc_destroy`). */
  function PidRemove(r: Registry, pid: int): (r': Registry)
    requires Valid(r) && FIRST_USER_PID <= pid < PID_MAX && r.table[pid].Some?
    ensures Valid(r')
    ensures r'.table == r.table[pid := None] && r'.numproc == r.numproc - 1
    ensures r'.last == pid
  {
    OccupiedSet(r.table, pid, None);
    Registry(r.table[pid := None], pid, r.numproc - 1)
  }

  /** A freed pid is the next one handed out. */
  lemma PidReusedAfterRemove(r: Registry, pid: int, p: Proc)
    requires Valid(r) && FIRST_USER_PID <= pid < PID_MAX && r.table[pid].Some?
    ensures PidAssign(PidRemove(r, pid), p).pid == pid
  {
    var r' := PidRemove(r, pid);
    assert Probe(r'.table, FIRST_USER_PID, PID_MAX, r'.last, PID_MAX) == Found(pid, 0);
  }

  /** Removing a freshly assigned pid restores the table and the counter. */
  lemma PidRemoveUndoesPidAssign(r: Registry, p: Proc)
    requires Valid(r) && !Full(r)
    ensures PidRemove(PidAssign(r, p).reg, PidAssign(r, p).pid).table == r.table
    ensures PidRemove(PidAssign(r, p).reg, PidAssign(r, p).pid).numproc == r.numproc
  {
    var a := PidAssign(r, p);
    assert a.reg.table[a.pid := None] == r.table;
  }

  /** `get_proc(pid)`: NULL for a pid outside [0, PID_MAX), otherwise the
      slot. A process found under `pid` carries that pid. */
  function GetProc(r: Registry, pid: int): (o: Option<Proc>)
    requires |r.table| == PID_MAX
    ensures o.None? <==> pid < 0 || pid >= PID_MAX || r.table[pid].None?
    ensures Valid(r) && o.Some? ==> o.value.pid == pid
  {
    if pid < 0 || pid >= PID_MAX then None else r.table[pid]
  }

  /** The counter never exceeds PID_MAX (the assertion at the top of
      `pid_assign`), and it reaches PID_MAX exactly when no pid is free. */
  lemma NumprocBound(r: Registry)
    requires Valid(r)
    ensures r.numproc <= PID_MAX
    ensures r.numproc >= PID_MAX <==> Full(r)
  {
    var t := r.table[1..];
    assert Occupied(r.table) == Occupied(t);
    OccupiedFull(t);
    assert forall q :: 1 <= q < PID_MAX ==> r.table[q] == t[q - 1];
  }

  /** Registered processes have pairwise distinct pids. */
  lemma PidsDistinct(r: Registry, i: int, j: int)
    requires Valid(r) && 0 <= i < PID_MAX && 0 <= j < PID_MAX
    requires r.table[i].Some? && r.table[j].Some? && i != j
    ensures r.table[i].value.pid != r.table[j].value.pid
  {
  }
}
