/**
 The bookkeeping of `sys_fork`: the process-count check, the creation of the
 child, the descriptor loop that makes the child's slots name the parent's
 entries and adds a reference to each linked openfile, the parent pid, and
 the failure paths. Address spaces, trapframes and the new thread appear
 only as the success or failure of the calls that handle them.
 */
module Fork {
  import opened Errors
  import opened Limits
  import opened SlotArray
  import opened FdTable
  import opened OpenFiles
  import opened Process
  import opened PidRegistry
  import opened Links
  import opened KernelState
  import opened Lifecycle

  /** Which of the calls `sys_fork` depends on fail: the child's creation
      (`proc_create_runprogram`), `as_copy`, the trapframe allocation and
      `thread_fork`. */
  datatype ForkFaults = ForkFaults(createFails: bool, asCopyFails: bool, trapframeFails: bool, threadForkFails: bool)

  /** The descriptor loop of `sys_fork`: every slot the parent uses is
      replaced in the child by the parent's entry (the child's own entry in
      that slot is dropped); a slot the parent does not use keeps the
      child's own. */
  function AliasSlots(own: Slots, parent: Slots): (r: Slots)
    requires |own| == |parent| == OPEN_MAX
    ensures |r| == OPEN_MAX
    ensures forall f :: 0 <= f < OPEN_MAX && parent[f].Some? ==> r[f] == parent[f]
    ensures forall f :: 0 <= f < OPEN_MAX && parent[f].None? ==> r[f] == own[f]
  {
    seq(OPEN_MAX, f requires 0 <= f < OPEN_MAX => if parent[f].Some? then parent[f] else own[f])
  }

  /** For a fresh child, whose only used slots are the standard streams, and
      a parent whose standard streams are present, the loop leaves the child
      with exactly the parent's slots. */
  lemma AliasSlotsCopies(own: Slots, parent: Slots)
    requires |own| == |parent| == OPEN_MAX
    requires forall f :: FIRST_FD <= f < OPEN_MAX ==> own[f].None?
    requires forall f :: 0 <= f < FIRST_FD ==> parent[f].Some?
    ensures AliasSlots(own, parent) == parent
  {
  }

  /** The child after the loop: the parent's slots aliased, and `cnt_open`
      and the hint copied from the parent. */
  function Inherit(child: Proc, parent: Proc): (c: Proc)
    requires |child.fds| == |parent.fds| == OPEN_MAX
    ensures c.cntOpen == parent.cntOpen && c.lastFd == parent.lastFd
    ensures c.(fds := child.fds, cntOpen := child.cntOpen, lastFd := child.lastFd) == child
  {
    child.(fds := AliasSlots(child.fds, parent.fds), cntOpen := parent.cntOpen, lastFd := parent.lastFd)
  }

  /** The state after the loop: the child inherited the parent's
      descriptors and every openfile gained one reference per parent slot
      linked to it. */
  function DupFiles(k: Kernel, parent: int, child: int): (r: Kernel)
    requires Live(k, parent) && Live(k, child)
    requires |ProcOf(k, parent).fds| == OPEN_MAX && |ProcOf(k, child).fds| == OPEN_MAX
    requires |k.files| == SYSTEM_OPEN_MAX && RefsInRange(k.entries)
    ensures r.entries == k.entries && r.nextEntry == k.nextEntry && |r.files| == SYSTEM_OPEN_MAX
    ensures forall j :: 0 <= j < SYSTEM_OPEN_MAX ==>
              r.files[j].vn == k.files[j].vn
              && r.files[j].refcount == k.files[j].refcount + SlotRefs(ProcOf(k, parent).fds, k.entries, j)
    ensures r.reg == k.reg.(table := k.reg.table[child := Some(Inherit(ProcOf(k, child), ProcOf(k, parent)))])
  {
    var pp := ProcOf(k, parent);
    Kernel(k.reg.(table := k.reg.table[child := Some(Inherit(ProcOf(k, child), pp))]),
           BumpAll(k.files, k.entries, pp.fds), k.entries, k.nextEntry)
  }

  /** A child that is still fresh: no thread yet, no descriptor beyond the
      standard streams and no link to any openfile. */
  ghost predicate Fresh(k: Kernel, child: int)
    requires Live(k, child)
  {
    && ProcOf(k, child).numthreads == 0
    && |ProcOf(k, child).fds| == OPEN_MAX
    && (forall f :: FIRST_FD <= f < OPEN_MAX ==> ProcOf(k, child).fds[f].None?)
    && forall j: nat :: SlotRefs(ProcOf(k, child).fds, k.entries, j) == 0
  }

  /** The descriptor loop keeps the invariant: each link the child gains is
      matched by the reference the loop adds. */
  lemma DupFilesInv(k: Kernel, parent: int, child: int)
    requires Inv(k) && Live(k, parent) && Live(k, child) && parent != child && child != KERNEL_PID
    requires Fresh(k, child)
    ensures Inv(DupFiles(k, parent, child))
    ensures ProcOf(DupFiles(k, parent, child), child).fds == ProcOf(k, parent).fds
  {
    var r := DupFiles(k, parent, child);
    var pp := ProcOf(k, parent);
    var c := Inherit(ProcOf(k, child), pp);
    AliasSlotsCopies(ProcOf(k, child).fds, pp.fds);
    OccupiedSet(k.reg.table, child, Some(c));
    WeightBounded(k.reg.table, parent, k.entries);
    forall i | 0 <= i < PID_MAX && r.reg.table[i].Some?
      ensures ProcWf(r.reg.table[i].value, r.entries, r.nextEntry)
    {
      assert ProcWf(k.reg.table[if i == child then parent else i].value, k.entries, k.nextEntry);
    }
    forall j | 0 <= j < SYSTEM_OPEN_MAX
      ensures r.files[j].refcount == Holders(r.reg.table, r.entries, j)
    {
      HoldersSet(k.reg.table, child, Some(c), k.entries, j);
    }
    assert FilesWf(r.files) by {
      forall j | 0 <= j < SYSTEM_OPEN_MAX
        ensures HandleWf(r.files[j])
      {
        assert HandleWf(k.files[j]);
      }
    }
  }

  /** The child after `thread_fork` attached its thread, with the caller
      recorded as its parent. */
  function Spawn(k: Kernel, parent: int, child: int): (r: Kernel)
    requires Live(k, child)
    ensures r.reg.table == k.reg.table[child := Some(AddThread(ProcOf(k, child)).(ppid := parent))]
    ensures r.files == k.files && r.entries == k.entries && r.reg.numproc == k.reg.numproc
  {
    UpdateProc(k, child, AddThread(ProcOf(k, child)).(ppid := parent))
  }

  /** After the descriptor loop the fresh child can be destroyed, and its
      slots are exactly the caller's. */
  lemma AliasedDestroyable(ck: Kernel, caller: int, child: int)
    requires Inv(ck) && Live(ck, caller) && Live(ck, child) && caller != child
    requires FIRST_USER_PID <= child < PID_MAX && Fresh(ck, child)
    ensures var d := DupFiles(ck, caller, child);
            Destroyable(d, child) && ProcOf(d, child).fds == ProcOf(ck, caller).fds
  {
    DupFilesInv(ck, caller, child);
    InvDestroyable(DupFiles(ck, caller, child), child);
  }

  /** What `sys_fork` does once the fresh child `child` exists in `ck`: the
      address-space copy, the descriptor loop, the trapframe and the new
      thread, with the child destroyed when one of them fails. */
  function AfterCreate(ck: Kernel, caller: int, child: int, f: ForkFaults, release: bool): Step<int>
    requires Inv(ck) && Live(ck, caller) && Live(ck, child) && caller != child
    requires FIRST_USER_PID <= child < PID_MAX && Fresh(ck, child)
  {
    InvDestroyable(ck, child);
    if f.asCopyFails then Step(ProcDestroy(ck, child), Err(ENOMEM))
    else
      var d := DupFiles(ck, caller, child);
      AliasedDestroyable(ck, caller, child);
      if f.trapframeFails || f.threadForkFails then
        Step(if release then ProcDestroy(d, child) else ProcDestroyAsWritten(d, child), Err(ENOMEM))
      else Step(Spawn(d, caller, child), Ok(child))
  }

  /** `sys_fork` called by `caller`, with the given failures of its
      collaborators. ENPROC when `numproc` has reached PID_MAX; ENOMEM when
      the child cannot be created, or after destroying the half-built child
      when the address-space copy, the trapframe allocation or `thread_fork`
      fails. On success the child's pid is returned. `release` chooses
      whether destroying the child after its descriptors were aliased gives
      back the references the loop added. */
  function ForkWith(k: Kernel, caller: int, f: ForkFaults, release: bool): (s: Step<int>)
    requires Inv(k) && Live(k, caller)
  {
    if k.reg.numproc >= PID_MAX then Step(k, Err(ENPROC))
    else
      var name := ProcOf(k, caller).name;
      var c := ProcCreate(k, name, f.createFails);
      match c.ret
      case Err(_) => Step(c.k, Err(ENOMEM))
      case Ok(child) =>
        ProcCreateInv(k, name, f.createFails);
        ChildFresh(k, name, f.createFails);
        AfterCreate(c.k, caller, child, f, release)
  }

  /** The child `proc_create` registers is fresh. */
  lemma ChildFresh(k: Kernel, name: string, allocFails: bool)
    requires Inv(k)
    ensures var c := ProcCreate(k, name, allocFails);
            c.ret.Ok? ==> Live(c.k, c.ret.value) && Fresh(c.k, c.ret.value)
  {
    var c := ProcCreate(k, name, allocFails);
    if c.ret.Ok? {
      forall j: nat
        ensures SlotRefs(ProcOf(c.k, c.ret.value).fds, c.k.entries, j) == 0
      {
        NewProcUnlinked(name, k.nextEntry, c.ret.value, k.entries, j);
      }
    }
  }

  /** What a successful fork leaves behind in `r`, compared with the state
      `k` it started from: the child `child` is a copy of the caller's
      descriptor state with the caller as parent, nothing else in the table
      changed, and every openfile gained one reference per caller slot
      linked to it. */
  ghost predicate ChildOf(k: Kernel, caller: int, r: Kernel, child: int)
    requires Inv(k) && Live(k, caller)
  {
    && FIRST_USER_PID <= child < PID_MAX && k.reg.table[child].None? && Live(r, child)
    && ChildRecord(k, caller, r, child) && OthersKept(k, r, child) && FilesShared(k, caller, r)
  }

  /** The child's record: its own pid, the caller as parent, the caller's
      name, descriptor slots, count and hint, one thread, not exited. */
  ghost predicate ChildRecord(k: Kernel, caller: int, r: Kernel, child: int)
    requires Live(k, caller) && Live(r, child)
  {
    var pp := ProcOf(k, caller);
    var c := ProcOf(r, child);
    && c.pid == child && c.ppid == caller && c.name == pp.name
    && c.fds == pp.fds && c.cntOpen == pp.cntOpen && c.lastFd == pp.lastFd
    && c.numthreads == 1 && !c.exited
  }

  /** Every other pid slot is as it was and the count went up by one. */
  ghost predicate OthersKept(k: Kernel, r: Kernel, child: int)
    requires |k.reg.table| == PID_MAX
  {
    && |r.reg.table| == PID_MAX && (forall i :: 0 <= i < PID_MAX && i != child ==> r.reg.table[i] == k.reg.table[i])
    && r.reg.numproc == k.reg.numproc + 1
  }

  /** Every openfile kept its vnode and gained one reference per caller slot
      linked to it; every existing entry is unchanged. */
  ghost predicate FilesShared(k: Kernel, caller: int, r: Kernel)
    requires Live(k, caller) && |k.files| == SYSTEM_OPEN_MAX
  {
    var pp := ProcOf(k, caller);
    && |r.files| == SYSTEM_OPEN_MAX
    && (forall j :: 0 <= j < SYSTEM_OPEN_MAX ==>
          r.files[j].vn == k.files[j].vn
          && r.files[j].refcount == k.files[j].refcount + SlotRefs(pp.fds, k.entries, j))
    && (forall x :: x in k.entries ==> x in r.entries && r.entries[x] == k.entries[x])
  }

  /** The state `proc_create` left for the child `child` of `caller`. */
  ghost predicate Created(k: Kernel, ck: Kernel, caller: int, child: int)
    requires Live(k, caller)
  {
    && FIRST_USER_PID <= child < PID_MAX && |k.reg.table| == PID_MAX && k.reg.table[child].None?
    && Inv(ck) && ck.reg.table == k.reg.table[child := Some(NewProc(ProcOf(k, caller).name, k.nextEntry).(pid := child))]
    && ck.reg.numproc == k.reg.numproc + 1 && ck.files == k.files
    && ck.entries == StdEntries(k.entries, k.nextEntry)
    && Fresh(ck, child)
  }

  /** Past the process-count check and a successful `proc_create`, fork is
      what it does to the created child. */
  lemma ForkCreates(k: Kernel, caller: int, f: ForkFaults, release: bool)
    requires Inv(k) && Live(k, caller) && k.reg.numproc < PID_MAX && !f.createFails
    ensures var c := ProcCreate(k, ProcOf(k, caller).name, false);
            && c.ret.Ok? && Live(k, caller) && Created(k, c.k, caller, c.ret.value)
            && ForkWith(k, caller, f, release) == AfterCreate(c.k, caller, c.ret.value, f, release)
  {
    var name := ProcOf(k, caller).name;
    NumprocBound(k.reg);
    ProcCreateInv(k, name, false);
    ChildFresh(k, name, false);
  }

  lemma SpawnedRecord(k: Kernel, ck: Kernel, caller: int, child: int)
    requires Inv(k) && Live(k, caller) && Created(k, ck, caller, child)
    ensures Live(Spawn(DupFiles(ck, caller, child), caller, child), child)
    ensures ChildRecord(k, caller, Spawn(DupFiles(ck, caller, child), caller, child), child)
  {
    var pp := ProcOf(k, caller);
    assert ProcOf(ck, caller) == pp;
    DupFilesInv(ck, caller, child);
  }

  lemma SpawnedOthers(k: Kernel, ck: Kernel, caller: int, child: int)
    requires Inv(k) && Live(k, caller) && Created(k, ck, caller, child)
    ensures OthersKept(k, Spawn(DupFiles(ck, caller, child), caller, child), child)
  {
  }

  lemma SpawnedFiles(k: Kernel, ck: Kernel, caller: int, child: int)
    requires Inv(k) && Live(k, caller) && Created(k, ck, caller, child)
    ensures FilesShared(k, caller, Spawn(DupFiles(ck, caller, child), caller, child))
  {
    var pp := ProcOf(k, caller);
    assert ProcOf(ck, caller) == pp;
    InvIdsBelow(k);
    assert IdsBelow(pp.fds, k.nextEntry);
    forall j | 0 <= j < SYSTEM_OPEN_MAX
      ensures SlotRefs(pp.fds, ck.entries, j) == SlotRefs(pp.fds, k.entries, j)
    {
      StdEntriesSlotRefs(pp.fds, k.entries, k.nextEntry, j);
    }
  }

  /** A fork that succeeds yields a child of the caller. */
  lemma ForkSuccess(k: Kernel, caller: int, f: ForkFaults)
    requires Inv(k) && Live(k, caller)
    ensures var s := ForkWith(k, caller, f, true);
            s.ret.Ok? ==> ChildOf(k, caller, s.k, s.ret.value)
  {
    if k.reg.numproc < PID_MAX && !f.createFails && !f.asCopyFails && !f.trapframeFails && !f.threadForkFails {
      ForkCreates(k, caller, f, true);
      var c := ProcCreate(k, ProcOf(k, caller).name, false);
      SpawnedRecord(k, c.k, caller, c.ret.value);
      SpawnedOthers(k, c.k, caller, c.ret.value);
      SpawnedFiles(k, c.k, caller, c.ret.value);
    }
  }

  /** Why a fork fails. */
  lemma ForkFailure(k: Kernel, caller: int, f: ForkFaults)
    requires Inv(k) && Live(k, caller)
    ensures var s := ForkWith(k, caller, f, true);
            && (s.ret == Err(ENPROC) <==> Full(k.reg))
            && (s.ret == Err(ENOMEM) <==>
                  !Full(k.reg) && (f.createFails || f.asCopyFails || f.trapframeFails || f.threadForkFails))
            && (s.ret.Err? ==> s.ret.err == ENPROC || s.ret.err == ENOMEM)
  {
    NumprocBound(k.reg);
  }

  /** `sys_fork` with a `proc_destroy` that gives back the descriptor
      references of the destroyed child. ENPROC exactly when no pid is free;
      ENOMEM exactly when one of the collaborators fails, so the pid
      exhaustion inside `proc_create` is never what makes fork fail. On
      success the child holds the parent's name and descriptor slots (the
      same entries, so offsets are shared), `cnt_open` and hint, has one
      thread and the caller as parent; every openfile gained one reference
      per parent slot linked to it, and the parent is untouched. */
  function SysFork(k: Kernel, caller: int, f: ForkFaults): (s: Step<int>)
    requires Inv(k) && Live(k, caller)
    ensures s.ret == Err(ENPROC) <==> Full(k.reg)
    ensures s.ret == Err(ENOMEM) <==>
              !Full(k.reg) && (f.createFails || f.asCopyFails || f.trapframeFails || f.threadForkFails)
    ensures s.ret.Err? ==> s.ret.err == ENPROC || s.ret.err == ENOMEM
    ensures s.ret.Ok? ==>
              var child := s.ret.value;
              var pp := ProcOf(k, caller);
              && FIRST_USER_PID <= child < PID_MAX && k.reg.table[child].None? && Live(s.k, child)
              && ProcOf(s.k, child).pid == child && ProcOf(s.k, child).ppid == caller
              && ProcOf(s.k, child).name == pp.name
              && ProcOf(s.k, child).fds == pp.fds
              && ProcOf(s.k, child).cntOpen == pp.cntOpen && ProcOf(s.k, child).lastFd == pp.lastFd
              && ProcOf(s.k, child).numthreads == 1 && !ProcOf(s.k, child).exited
              && |s.k.reg.table| == PID_MAX && (forall i :: 0 <= i < PID_MAX && i != child ==> s.k.reg.table[i] == k.reg.table[i])
              && s.k.reg.numproc == k.reg.numproc + 1
              && |s.k.files| == SYSTEM_OPEN_MAX
              && (forall j :: 0 <= j < SYSTEM_OPEN_MAX ==>
                    s.k.files[j].vn == k.files[j].vn
                    && s.k.files[j].refcount == k.files[j].refcount + SlotRefs(pp.fds, k.entries, j))
              && (forall x :: x in k.entries ==> x in s.k.entries && s.k.entries[x] == k.entries[x])
  {
    ForkSuccess(k, caller, f);
    ForkFailure(k, caller, f);
    ForkWith(k, caller, f, true)
  }

  /** The steps after creation keep the invariant, whichever way they end. */
  lemma AfterCreateInv(ck: Kernel, caller: int, child: int, f: ForkFaults)
    requires Inv(ck) && Live(ck, caller) && Live(ck, child) && caller != child
    requires FIRST_USER_PID <= child < PID_MAX && Fresh(ck, child)
    ensures Inv(AfterCreate(ck, caller, child, f, true).k)
  {
    if f.asCopyFails {
      ProcDestroyInv(ck, child);
    } else {
      DupFilesInv(ck, caller, child);
      var d := DupFiles(ck, caller, child);
      if f.trapframeFails || f.threadForkFails {
        ProcDestroyInv(d, child);
      } else {
        UpdateProcInv(d, child, AddThread(ProcOf(d, child)).(ppid := caller));
      }
    }
  }

  /** `sys_fork` keeps the invariant, whichever way it ends. */
  lemma SysForkInv(k: Kernel, caller: int, f: ForkFaults)
    requires Inv(k) && Live(k, caller)
    ensures Inv(SysFork(k, caller, f).k)
  {
    if k.reg.numproc < PID_MAX {
      if f.createFails {
        ProcCreateInv(k, ProcOf(k, caller).name, true);
      } else {
        var name := ProcOf(k, caller).name;
        var c := ProcCreate(k, name, false);
        ProcCreateInv(k, name, false);
        if c.ret.Ok? {
          ForkCreates(k, caller, f, true);
          AfterCreateInv(c.k, caller, c.ret.value, f);
        }
      }
    }
  }

  /** Filling an empty pid slot twice and then clearing it gives back the
      table it started from. */
  lemma ClearRefilled(t: seq<Option<Proc>>, i: int, a: Option<Proc>, b: Option<Proc>)
    requires 0 <= i < |t| && t[i].None?
    ensures t[i := a][i := b][i := None] == t
  {
  }

  /** Destroying the child right after `proc_create` gives back the pid
      table, the count and the file table exactly. */
  lemma DestroyFreshChild(k: Kernel, ck: Kernel, caller: int, child: int)
    requires Inv(k) && Live(k, caller) && Created(k, ck, caller, child)
    ensures var r := ProcDestroy(ck, child);
            r.reg.table == k.reg.table && r.reg.numproc == k.reg.numproc && r.files == k.files
  {
    assert ck.reg.table[child := None] == k.reg.table;
  }

  /** After the descriptor loop, giving back the child's references leaves
      the file table as it was before the loop. */
  lemma DestroyAliasedFiles(ck: Kernel, caller: int, child: int)
    requires Inv(ck) && Live(ck, caller) && Live(ck, child) && caller != child
    requires FIRST_USER_PID <= child < PID_MAX && Fresh(ck, child)
    ensures var d := DupFiles(ck, caller, child);
            Destroyable(d, child) && ProcDestroy(d, child).files == ck.files
  {
    AliasedDestroyable(ck, caller, child);
    var d := DupFiles(ck, caller, child);
    var fds := ProcOf(ck, caller).fds;
    Releasable(ck, caller);
    ReleaseAllUndoesBumpAll(ck.files, ck.entries, fds);
    assert ProcDestroy(d, child).files == ReleaseAll(d.files, d.entries, ProcOf(d, child).fds);
  }

  /** Destroying the child after the descriptor loop, with the references
      given back, restores the pid table, the count and the file table. */
  lemma DestroyAliasedChild(k: Kernel, ck: Kernel, caller: int, child: int)
    requires Inv(k) && Live(k, caller) && Created(k, ck, caller, child)
    ensures var d := DupFiles(ck, caller, child);
            && Destroyable(d, child)
            && var r := ProcDestroy(d, child);
               r.reg.table == k.reg.table && r.reg.numproc == k.reg.numproc && r.files == k.files
  {
    DestroyAliasedFiles(ck, caller, child);
    ClearRefilled(k.reg.table, child, ck.reg.table[child], Some(Inherit(ProcOf(ck, child), ProcOf(ck, caller))));
  }

  /** Every failed fork leaves the pid table, the process count and the
      file table as they were: the half-built child is gone and every
      reference the descriptor loop added is given back. */
  lemma ForkFailureRollsBack(k: Kernel, caller: int, f: ForkFaults)
    requires Inv(k) && Live(k, caller)
    requires SysFork(k, caller, f).ret.Err?
    ensures var s := SysFork(k, caller, f);
            s.k.reg.table == k.reg.table && s.k.reg.numproc == k.reg.numproc && s.k.files == k.files
  {
    if k.reg.numproc < PID_MAX && !f.createFails {
      ForkCreates(k, caller, f, true);
      var c := ProcCreate(k, ProcOf(k, caller).name, false);
      if f.asCopyFails {
        DestroyFreshChild(k, c.k, caller, c.ret.value);
      } else {
        DestroyAliasedChild(k, c.k, caller, c.ret.value);
      }
    }
  }

  /** `sys_fork` as written: `proc_destroy` on a failure path after the
      descriptor loop does not give back the references the loop added. */
  function SysForkAsWritten(k: Kernel, caller: int, f: ForkFaults): (s: Step<int>)
    requires Inv(k) && Live(k, caller)
    ensures s.ret == SysFork(k, caller, f).ret
    ensures s.ret.Ok? || f.asCopyFails || !(f.trapframeFails || f.threadForkFails) ==> s == SysFork(k, caller, f)
  {
    ForkWith(k, caller, f, false)
  }

  /** Destroying the child as written after the descriptor loop keeps the
      bumped file table. */
  lemma DestroyAliasedKeepsBump(ck: Kernel, caller: int, child: int)
    requires Inv(ck) && Live(ck, caller) && Live(ck, child) && caller != child
    requires FIRST_USER_PID <= child < PID_MAX && Fresh(ck, child)
    ensures var d := DupFiles(ck, caller, child);
            && Destroyable(d, child)
            && var r := ProcDestroyAsWritten(d, child);
            && r.reg.table == d.reg.table[child := None]
            && r.entries == ck.entries
            && r.files == BumpAll(ck.files, ck.entries, ProcOf(ck, caller).fds)
  {
    AliasedDestroyable(ck, caller, child);
  }

  /** After the descriptor loop, destroying the child as written leaves
      every openfile the caller links to with the references the loop added,
      while the pid table is back to what it was. */
  lemma DestroyAliasedChildAsWritten(k: Kernel, ck: Kernel, caller: int, child: int, j: int)
    requires Inv(k) && Live(k, caller) && Created(k, ck, caller, child)
    requires 0 <= j < SYSTEM_OPEN_MAX
    ensures var d := DupFiles(ck, caller, child);
            && Destroyable(d, child)
            && var r := ProcDestroyAsWritten(d, child);
            && r.reg.table == k.reg.table
            && r.files[j].refcount == k.files[j].refcount + SlotRefs(ProcOf(k, caller).fds, k.entries, j)
            && Holders(r.reg.table, r.entries, j) == k.files[j].refcount
  {
    var pp := ProcOf(k, caller);
    assert ProcOf(ck, caller) == pp;
    DestroyAliasedKeepsBump(ck, caller, child);
    ClearRefilled(k.reg.table, child, ck.reg.table[child], Some(Inherit(ProcOf(ck, child), ProcOf(ck, caller))));
    InvIdsBelow(k);
    assert IdsBelow(pp.fds, k.nextEntry);
    StdEntriesSlotRefs(pp.fds, k.entries, k.nextEntry, j);
    StdEntriesLinks(k.reg.table, k.entries, k.nextEntry, j);
  }

  /** Past `proc_create`, a fork as written that fails after the descriptor
      loop ends with ENOMEM and the bumped counts of the caller's openfiles. */
  lemma AfterCreateAsWrittenFails(k: Kernel, ck: Kernel, caller: int, child: int, f: ForkFaults, j: int)
    requires Inv(k) && Live(k, caller) && Created(k, ck, caller, child)
    requires !f.asCopyFails && (f.trapframeFails || f.threadForkFails)
    requires 0 <= j < SYSTEM_OPEN_MAX
    ensures var s := AfterCreate(ck, caller, child, f, false);
            && s.ret == Err(ENOMEM) && s.k.reg.table == k.reg.table
            && s.k.files[j].refcount == k.files[j].refcount + SlotRefs(ProcOf(k, caller).fds, k.entries, j)
            && Holders(s.k.reg.table, s.k.entries, j) == k.files[j].refcount
  {
    DestroyAliasedChildAsWritten(k, ck, caller, child, j);
  }

  /** A fork as written that fails in the trapframe allocation or in
      `thread_fork`, from a caller holding a link to the openfile at `j`,
      leaves that openfile with more references than linked slots, so it is
      never freed. The corrected fork restores it (ForkFailureRollsBack). */
  lemma ForkFailureAsWrittenLeaks(k: Kernel, caller: int, f: ForkFaults, j: int)
    requires Inv(k) && Live(k, caller) && !Full(k.reg)
    requires !f.createFails && !f.asCopyFails && (f.trapframeFails || f.threadForkFails)
    requires 0 <= j < SYSTEM_OPEN_MAX && SlotRefs(ProcOf(k, caller).fds, k.entries, j) > 0
    ensures var s := SysForkAsWritten(k, caller, f);
            && s.ret == Err(ENOMEM) && s.k.reg.table == k.reg.table
            && s.k.files[j].refcount == k.files[j].refcount + SlotRefs(ProcOf(k, caller).fds, k.entries, j)
            && s.k.files[j].refcount > Holders(s.k.reg.table, s.k.entries, j)
            && !Inv(s.k)
  {
    NumprocBound(k.reg);
    ForkCreates(k, caller, f, false);
    var c := ProcCreate(k, ProcOf(k, caller).name, false);
    AfterCreateAsWrittenFails(k, c.k, caller, c.ret.value, f, j);
    MiscountBreaksInv(SysForkAsWritten(k, caller, f).k, j);
  }

  /** A fork with no failing collaborator and a free pid succeeds, and in
      the child it creates `getpid` reports the child's pid and
      `getppid` the caller's. */
  lemma ForkedChildIds(k: Kernel, caller: int, f: ForkFaults)
    requires Inv(k) && Live(k, caller) && !Full(k.reg) && f == ForkFaults(false, false, false, false)
    ensures SysFork(k, caller, f).ret.Ok?
    ensures Inv(SysFork(k, caller, f).k) && Live(SysFork(k, caller, f).k, SysFork(k, caller, f).ret.value)
    ensures var s := SysFork(k, caller, f);
            SysGetpid(s.k, s.ret.value) == s.ret.value && SysGetppid(s.k, s.ret.value) == caller
  {
    SysForkInv(k, caller, f);
  }
}
