/**
 The whole kernel state this core manages, as one value: the pid registry
 holding every process, the system file table, the descriptor entries (by
 id, so that slots of different processes can share one entry) and the next
 free entry id. Every system call is one atomic transition on it; locks are
 not modelled.

 This module holds the invariant, boot, `proc_create` and `proc_destroy`.
 */
module KernelState {
  import opened Errors
  import opened Limits
  import opened SlotArray
  import opened FdTable
  import opened OpenFiles
  import opened Process
  import opened PidRegistry
  import opened Links

  datatype Kernel = Kernel(reg: Registry, files: seq<OpenFile>, entries: Entries, nextEntry: nat)

  /** A transition's new state and what the call returns. */
  datatype Step<T> = Step(k: Kernel, ret: Result<T>)

  /** A registered process's descriptor table is well formed: OPEN_MAX
      slots, the standard streams present, the hint in [3, OPEN_MAX),
      `cnt_open` counting the occupied slots from 3 on, and every slot naming
      an existing entry with an id below `nextEntry`. */
  ghost predicate ProcWf(p: Proc, entries: Entries, nextEntry: nat)
  {
    && |p.fds| == OPEN_MAX
    && (forall f :: 0 <= f < FIRST_FD ==> p.fds[f].Some?)
    && FIRST_FD <= p.lastFd < OPEN_MAX
    && p.cntOpen == OpenCount(p.fds)
    && (forall f :: 0 <= f < OPEN_MAX && p.fds[f].Some? ==> p.fds[f].value in entries)
    && IdsBelow(p.fds, nextEntry)
  }

  /** Every openfile's `refcount` equals the number of descriptor slots, over
      all registered processes, linked to it. */
  ghost predicate RefcountsExact(k: Kernel)
    requires |k.files| == SYSTEM_OPEN_MAX
  {
    forall j :: 0 <= j < SYSTEM_OPEN_MAX ==> k.files[j].refcount == Holders(k.reg.table, k.entries, j)
  }

  /** The kernel invariant: a valid registry, a well-formed file table,
      entry links inside the table and entry ids below `nextEntry`, every
      registered descriptor table well formed, the kernel process without a
      parent, and every reference count exact. */
  ghost predicate Inv(k: Kernel)
  {
    && Valid(k.reg)
    && FilesWf(k.files)
    && RefsInRange(k.entries)
    && (forall x :: x in k.entries ==> x < k.nextEntry)
    && (forall i :: 0 <= i < PID_MAX && k.reg.table[i].Some? ==> ProcWf(k.reg.table[i].value, k.entries, k.nextEntry))
    && k.reg.table[KERNEL_PID].value.ppid == -1
    && RefcountsExact(k)
  }

  /** An openfile whose count differs from the number of slots linked to it
      breaks the invariant. */
  lemma MiscountBreaksInv(k: Kernel, j: int)
    requires 0 <= j < SYSTEM_OPEN_MAX && |k.files| == SYSTEM_OPEN_MAX
    requires k.files[j].refcount != Holders(k.reg.table, k.entries, j)
    ensures !Inv(k)
  {
  }

  /** `pid` names a registered process. */
  predicate Live(k: Kernel, pid: int)
  {
    0 <= pid < |k.reg.table| && k.reg.table[pid].Some?
  }

  function ProcOf(k: Kernel, pid: int): Proc
    requires Live(k, pid)
  {
    k.reg.table[pid].value
  }

  lemma InvIdsBelow(k: Kernel)
    requires Inv(k)
    ensures TableIdsBelow(k.reg.table, k.nextEntry)
  {
  }

  /** Three standard-stream entries stored under `e`, `e`+1 and `e`+2. */
  function StdEntries(entries: Entries, e: EntryId): (r: Entries)
    ensures e in r && e + 1 in r && e + 2 in r
    ensures r[e] == r[e + 1] == r[e + 2] == StdDescriptor()
    ensures forall x :: x in entries ==> x in r
    ensures forall x :: x in r && x != e && x != e + 1 && x != e + 2 ==> x in entries && r[x] == entries[x]
  {
    entries[e := StdDescriptor()][e + 1 := StdDescriptor()][e + 2 := StdDescriptor()]
  }

  /** The state before boot: no process, a free file table, no entries. */
  function InitialKernel(): (k: Kernel)
    ensures k.reg == Initial() && |k.files| == SYSTEM_OPEN_MAX && k.entries == map[] && k.nextEntry == 0
  {
    Kernel(Initial(), InitialFiles(), map[], 0)
  }

  /** `proc_bootstrap`: `proc_create("[kernel]")` on the initial state. The
      kernel process is registered under pid 1 with only its standard
      streams. */
  function Boot(name: string): (k: Kernel)
    ensures |k.reg.table| == PID_MAX
    ensures Live(k, KERNEL_PID) && ProcOf(k, KERNEL_PID).pid == KERNEL_PID && ProcOf(k, KERNEL_PID).name == name
    ensures forall i :: 0 <= i < PID_MAX && i != KERNEL_PID ==> k.reg.table[i].None?
    ensures k.reg.last == FIRST_USER_PID && k.reg.numproc == 2
  {
    var k0 := InitialKernel();
    var a := PidAssign(k0.reg, NewProc(name, k0.nextEntry));
    Kernel(a.reg, k0.files, StdEntries(k0.entries, k0.nextEntry), k0.nextEntry + FIRST_FD)
  }

  /** Boot establishes the invariant. */
  lemma BootInv(name: string)
    ensures Inv(Boot(name))
  {
    var k := Boot(name);
    var p := ProcOf(k, KERNEL_PID);
    assert ProcWf(p, k.entries, k.nextEntry);
    forall j | 0 <= j < SYSTEM_OPEN_MAX
      ensures k.files[j].refcount == Holders(k.reg.table, k.entries, j)
    {
      var t0: seq<Option<Proc>> := seq(PID_MAX, i => None);
      HoldersEmpty(t0, k.entries, j);
      assert k.reg.table == t0[KERNEL_PID := Some(p)];
      SlotRefsUnlinked(p.fds, k.entries, j);
      HoldersSet(t0, KERNEL_PID, Some(p), k.entries, j);
    }
  }

  /** `proc_create(name)`. An allocation failure (`allocFails`) returns NULL
      with nothing changed; so does a full pid table, after which only the
      scan hint has moved. Otherwise a fresh record with three new
      standard-stream entries is registered under the pid `pid_assign`
      handed out. NULL is reported as ENOMEM. */
  function ProcCreate(k: Kernel, name: string, allocFails: bool): (s: Step<int>)
    requires Inv(k)
    ensures s.ret.Err? <==> allocFails || Full(k.reg)
    ensures s.ret.Err? ==> s.ret.err == ENOMEM && s.k.reg.table == k.reg.table
                           && s.k.reg.numproc == k.reg.numproc && s.k.files == k.files
    ensures s.ret.Ok? ==>
              && FIRST_USER_PID <= s.ret.value < PID_MAX && k.reg.table[s.ret.value].None?
              && s.k.reg.table == k.reg.table[s.ret.value := Some(NewProc(name, k.nextEntry).(pid := s.ret.value))]
              && s.k.reg.numproc == k.reg.numproc + 1 && s.k.files == k.files
    ensures s.ret.Err? ==> s.k.entries == k.entries && s.k.nextEntry == k.nextEntry
    ensures s.ret.Ok? ==> s.k.entries == StdEntries(k.entries, k.nextEntry) && s.k.nextEntry == k.nextEntry + FIRST_FD
    ensures Valid(s.k.reg)
  {
    if allocFails then Step(k, Err(ENOMEM))
    else
      var e := k.nextEntry;
      var a := PidAssign(k.reg, NewProc(name, e));
      if a.pid == -1 then Step(k.(reg := a.reg), Err(ENOMEM))
      else Step(Registered(k, a), Ok(a.pid))
  }

  /** Storing the standard-stream entries under unused ids changes no links. */
  lemma StdEntriesLinks(table: seq<Option<Proc>>, entries: Entries, e: EntryId, j: nat)
    requires TableIdsBelow(table, e)
    ensures Holders(table, StdEntries(entries, e), j) == Holders(table, entries, j)
  {
    var e0 := entries[e := StdDescriptor()];
    var e1 := e0[e + 1 := StdDescriptor()];
    HoldersFresh(table, entries, e, StdDescriptor(), j);
    HoldersFresh(table, e0, e + 1, StdDescriptor(), j);
    HoldersFresh(table, e1, e + 2, StdDescriptor(), j);
  }

  /** The same for the slots of one process. */
  lemma StdEntriesSlotRefs(fds: Slots, entries: Entries, e: EntryId, j: nat)
    requires IdsBelow(fds, e)
    ensures SlotRefs(fds, StdEntries(entries, e), j) == SlotRefs(fds, entries, j)
  {
    var e0 := entries[e := StdDescriptor()];
    var e1 := e0[e + 1 := StdDescriptor()];
    SlotRefsFresh(fds, entries, e, StdDescriptor(), j);
    SlotRefsFresh(fds, e0, e + 1, StdDescriptor(), j);
    SlotRefsFresh(fds, e1, e + 2, StdDescriptor(), j);
  }

  /** A fresh record links to no openfile. */
  lemma NewProcUnlinked(name: string, e: EntryId, pid: int, entries: Entries, j: nat)
    ensures SlotRefs(NewProc(name, e).(pid := pid).fds, StdEntries(entries, e), j) == 0
  {
    var p := NewProc(name, e).(pid := pid);
    SlotRefsUnlinked(p.fds, StdEntries(entries, e), j);
  }

  /** The state `proc_create` produces once `pid_assign` succeeded. */
  function Registered(k: Kernel, a: Assigned): Kernel
  {
    Kernel(a.reg, k.files, StdEntries(k.entries, k.nextEntry), k.nextEntry + FIRST_FD)
  }

  /** A descriptor table stays well formed when entries are only added and
      the id bound only grows. */
  lemma ProcWfGrows(p: Proc, entries: Entries, n: nat, entries': Entries, n': nat)
    requires ProcWf(p, entries, n)
    requires forall x :: x in entries ==> x in entries'
    requires n <= n'
    ensures ProcWf(p, entries', n')
  {
  }

  /** The fresh record with its standard-stream entries is well formed. */
  lemma NewProcWf(name: string, e: EntryId, pid: int, entries: Entries)
    ensures ProcWf(NewProc(name, e).(pid := pid), StdEntries(entries, e), e + FIRST_FD)
  {
  }

  /** Registering a fresh record keeps every descriptor table well formed. */
  lemma RegisteredProcsWf(k: Kernel, name: string, a: Assigned)
    requires Inv(k) && a == PidAssign(k.reg, NewProc(name, k.nextEntry)) && a.pid != -1
    ensures forall i :: 0 <= i < PID_MAX && a.reg.table[i].Some? ==>
              ProcWf(a.reg.table[i].value, Registered(k, a).entries, Registered(k, a).nextEntry)
  {
    var k' := Registered(k, a);
    forall i | 0 <= i < PID_MAX && a.reg.table[i].Some?
      ensures ProcWf(a.reg.table[i].value, k'.entries, k'.nextEntry)
    {
      if i == a.pid {
        NewProcWf(name, k.nextEntry, a.pid, k.entries);
      } else {
        ProcWfGrows(k.reg.table[i].value, k.entries, k.nextEntry, k'.entries, k'.nextEntry);
      }
    }
  }

  /** Registering a fresh record changes no openfile's links. */
  lemma RegisteredLinks(k: Kernel, name: string, a: Assigned)
    requires Inv(k) && a == PidAssign(k.reg, NewProc(name, k.nextEntry)) && a.pid != -1
    ensures RefcountsExact(Registered(k, a))
  {
    var e := k.nextEntry;
    var k' := Registered(k, a);
    var p := NewProc(name, e).(pid := a.pid);
    InvIdsBelow(k);
    forall j | 0 <= j < SYSTEM_OPEN_MAX
      ensures k'.files[j].refcount == Holders(k'.reg.table, k'.entries, j)
    {
      StdEntriesLinks(k.reg.table, k.entries, e, j);
      NewProcUnlinked(name, e, a.pid, k.entries, j);
      HoldersSet(k.reg.table, a.pid, Some(p), k'.entries, j);
    }
  }

  /** `proc_create` keeps the invariant. */
  lemma ProcCreateInv(k: Kernel, name: string, allocFails: bool)
    requires Inv(k)
    ensures Inv(ProcCreate(k, name, allocFails).k)
  {
    if !allocFails {
      var a := PidAssign(k.reg, NewProc(name, k.nextEntry));
      if a.pid != -1 {
        RegisteredProcsWf(k, name, a);
        RegisteredLinks(k, name, a);
        assert ProcCreate(k, name, allocFails).k == Registered(k, a);
      }
    }
  }

  /** The descriptor references of a registered process are all counted, so
      every openfile can give them back. */
  lemma Releasable(k: Kernel, pid: int)
    requires Inv(k) && Live(k, pid)
    ensures forall j :: 0 <= j < SYSTEM_OPEN_MAX ==>
              HandleWf(k.files[j]) && k.files[j].refcount >= SlotRefs(ProcOf(k, pid).fds, k.entries, j)
  {
    WeightBounded(k.reg.table, pid, k.entries);
  }

  /** What `proc_destroy` relies on: a valid registry, `pid` a registered
      user process (not the kernel process) with no thread left, as the
      source asserts, and every reference its descriptor slots hold counted
      by a well-formed openfile. */
  ghost predicate Destroyable(k: Kernel, pid: int)
  {
    && Valid(k.reg) && FIRST_USER_PID <= pid < PID_MAX && Live(k, pid)
    && ProcOf(k, pid).numthreads == 0
    && |k.files| == SYSTEM_OPEN_MAX && RefsInRange(k.entries)
    && forall j :: 0 <= j < SYSTEM_OPEN_MAX ==>
         HandleWf(k.files[j]) && k.files[j].refcount >= SlotRefs(ProcOf(k, pid).fds, k.entries, j)
  }

  /** Under the invariant, every user process without threads can be
      destroyed. */
  lemma InvDestroyable(k: Kernel, pid: int)
    requires Inv(k) && FIRST_USER_PID <= pid < PID_MAX && Live(k, pid)
    requires ProcOf(k, pid).numthreads == 0
    ensures Destroyable(k, pid)
  {
    Releasable(k, pid);
  }

  /** `proc_destroy(p)` with the descriptor references given back: every
      slot of the process linked to an openfile drops its reference (freeing
      the openfile at the last one), then `pid_remove` frees the pid. */
  function ProcDestroy(k: Kernel, pid: int): (r: Kernel)
    requires Destroyable(k, pid)
    ensures r.reg.table == k.reg.table[pid := None] && r.reg.numproc == k.reg.numproc - 1
    ensures r.reg.last == pid
    ensures |r.files| == SYSTEM_OPEN_MAX
    ensures forall j :: 0 <= j < SYSTEM_OPEN_MAX ==>
              r.files[j].refcount == k.files[j].refcount - SlotRefs(ProcOf(k, pid).fds, k.entries, j)
    ensures forall j :: 0 <= j < SYSTEM_OPEN_MAX && SlotRefs(ProcOf(k, pid).fds, k.entries, j) == 0 ==>
              r.files[j] == k.files[j]
    ensures r.entries == k.entries && r.nextEntry == k.nextEntry
  {
    Kernel(PidRemove(k.reg, pid), ReleaseAll(k.files, k.entries, ProcOf(k, pid).fds), k.entries, k.nextEntry)
  }

  /** Destroying a process keeps the invariant. */
  lemma ProcDestroyInv(k: Kernel, pid: int)
    requires Inv(k) && FIRST_USER_PID <= pid < PID_MAX && Live(k, pid)
    requires ProcOf(k, pid).numthreads == 0
    ensures Destroyable(k, pid)
    ensures Inv(ProcDestroy(k, pid))
  {
    Releasable(k, pid);
    var r := ProcDestroy(k, pid);
    assert FilesWf(r.files) by {
      forall a, b | 0 <= a < b < SYSTEM_OPEN_MAX && r.files[a].vn.Some?
        ensures r.files[a].vn != r.files[b].vn
      {
        assert r.files[a].refcount > 0;
        assert r.files[b].vn.Some? ==> r.files[b].refcount > 0;
      }
    }
    forall j | 0 <= j < SYSTEM_OPEN_MAX
      ensures r.files[j].refcount == Holders(r.reg.table, r.entries, j)
    {
      HoldersSet(k.reg.table, pid, None, k.entries, j);
    }
  }

  /** `proc_destroy(p)` as written: only the pid is freed; the descriptor
      references the process holds are never given back. */
  function ProcDestroyAsWritten(k: Kernel, pid: int): (r: Kernel)
    requires Valid(k.reg) && FIRST_USER_PID <= pid < PID_MAX && Live(k, pid)
    requires ProcOf(k, pid).numthreads == 0
    ensures r.reg.table == k.reg.table[pid := None] && r.files == k.files
  {
    k.(reg := PidRemove(k.reg, pid))
  }

  /** Destroying as written a process that holds a link to the openfile at
      `j` leaves that openfile's count above the number of slots linked to
      it: the count can no longer reach 0 and the openfile is never freed.
      The corrected destroy keeps the two equal. */
  lemma ProcDestroyAsWrittenLeaks(k: Kernel, pid: int, j: int)
    requires Inv(k) && FIRST_USER_PID <= pid < PID_MAX && Live(k, pid)
    requires ProcOf(k, pid).numthreads == 0
    requires 0 <= j < SYSTEM_OPEN_MAX && SlotRefs(ProcOf(k, pid).fds, k.entries, j) > 0
    ensures ProcDestroyAsWritten(k, pid).files[j].refcount > Holders(ProcDestroyAsWritten(k, pid).reg.table, k.entries, j)
    ensures !Inv(ProcDestroyAsWritten(k, pid))
    ensures Destroyable(k, pid) && ProcDestroy(k, pid).files[j].refcount == Holders(ProcDestroy(k, pid).reg.table, k.entries, j)
  {
    HoldersSet(k.reg.table, pid, None, k.entries, j);
    MiscountBreaksInv(ProcDestroyAsWritten(k, pid), j);
    ProcDestroyInv(k, pid);
  }

  /** The state with the registered process `pid` replaced by `p`. */
  function UpdateProc(k: Kernel, pid: int, p: Proc): (r: Kernel)
    requires Live(k, pid)
    ensures r.reg.table == k.reg.table[pid := Some(p)]
    ensures r.files == k.files && r.entries == k.entries && r.nextEntry == k.nextEntry
    ensures r.reg.numproc == k.reg.numproc && r.reg.last == k.reg.last
  {
    k.(reg := k.reg.(table := k.reg.table[pid := Some(p)]))
  }

  /** Replacing a process by one with the same pid and the same descriptor
      slots and table fields keeps the invariant, provided the kernel
      process keeps having no parent. */
  lemma UpdateProcInv(k: Kernel, pid: int, p: Proc)
    requires Inv(k) && Live(k, pid)
    requires p.pid == pid && p.fds == ProcOf(k, pid).fds
    requires p.lastFd == ProcOf(k, pid).lastFd && p.cntOpen == ProcOf(k, pid).cntOpen
    requires pid == KERNEL_PID ==> p.ppid == -1
    ensures Inv(UpdateProc(k, pid, p))
  {
    var r := UpdateProc(k, pid, p);
    OccupiedSet(k.reg.table, pid, Some(p));
    forall j | 0 <= j < SYSTEM_OPEN_MAX
      ensures r.files[j].refcount == Holders(r.reg.table, r.entries, j)
    {
      HoldersSet(k.reg.table, pid, Some(p), k.entries, j);
    }
  }
}
