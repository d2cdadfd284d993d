/**
 Opening and closing descriptors: `assing_fd` (find a free slot, resolve the
 vnode in the system file table, install a new descriptor entry) and
 `remove_fd` (drop the reference, free the slot). Both are transitions of the
 whole kernel state and keep its invariant.
 */
module FileOps {
  import opened Errors
  import opened Limits
  import opened SlotArray
  import opened FdTable
  import opened OpenFiles
  import opened Process
  import opened PidRegistry
  import opened Links
  import opened KernelState

  /** The process after its free slot `fd` received the entry `e`: one more
      open descriptor, and the hint at the slot just used. */
  function Installed(p: Proc, fd: int, e: EntryId): (r: Proc)
    requires |p.fds| == OPEN_MAX && FIRST_FD <= fd < OPEN_MAX
    ensures |r.fds| == OPEN_MAX && r.fds[fd] == Some(e) && r.lastFd == fd && r.cntOpen == p.cntOpen + 1
    ensures forall f :: 0 <= f < OPEN_MAX && f != fd ==> r.fds[f] == p.fds[f]
  {
    p.(fds := p.fds[fd := Some(e)], cntOpen := p.cntOpen + 1, lastFd := fd)
  }

  /** The state after `assing_fd` installed descriptor `fd` of `pid`, linked
      through the new entry to the openfile `acq` resolved. */
  function Opened(k: Kernel, pid: int, fd: int, acq: Acquired, oflag: int): Kernel
    requires Live(k, pid) && |ProcOf(k, pid).fds| == OPEN_MAX && FIRST_FD <= fd < OPEN_MAX
  {
    var e := k.nextEntry;
    Kernel(k.reg.(table := k.reg.table[pid := Some(Installed(ProcOf(k, pid), fd, e))]),
           acq.files, k.entries[e := NewDescriptor(oflag, acq.handle)], e + 1)
  }

  /** `assing_fd(proc, vnode, oflag)`. EMFILE when the process has no free
      slot among FIRST_FD .. OPEN_MAX-1, ENFILE when the system table holds
      SYSTEM_OPEN_MAX live openfiles; nothing changes on either error.
      Otherwise the first free slot from the hint is filled with a new entry
      (offset 0, the flags) linked to the openfile holding the vnode, which
      gains a reference, or else to the lowest free openfile, claimed with
      one reference. */
  function AssignFd(k: Kernel, pid: int, v: Vnode, oflag: int): (s: Step<int>)
    requires Inv(k) && Live(k, pid)
    ensures s.ret.Err? ==> s.k == k && (s.ret.err == EMFILE || s.ret.err == ENFILE)
    ensures s.ret == Err(EMFILE) <==> forall f :: FIRST_FD <= f < OPEN_MAX ==> ProcOf(k, pid).fds[f].Some?
    ensures s.ret == Err(EMFILE) <==> ProcOf(k, pid).cntOpen >= OPEN_MAX - FIRST_FD
    ensures s.ret == Err(ENFILE) <==>
              && (exists f :: FIRST_FD <= f < OPEN_MAX && ProcOf(k, pid).fds[f].None?)
              && LiveHandles(k.files) >= SYSTEM_OPEN_MAX
    ensures s.ret.Ok? ==>
              var p := ProcOf(k, pid);
              var fd := s.ret.value;
              var e := k.nextEntry;
              && FIRST_FD <= fd < OPEN_MAX && p.fds[fd].None?
              && (p.fds[ScanStart(p.lastFd)].None? ==> fd == ScanStart(p.lastFd))
              && FirstFit(p.fds, FIRST_FD, OPEN_MAX, ScanStart(p.lastFd), fd)
              && s.k.reg == k.reg.(table := k.reg.table[pid := Some(Installed(p, fd, e))])
              && s.k.nextEntry == e + 1
              && e in s.k.entries && s.k.entries == k.entries[e := s.k.entries[e]]
              && s.k.entries[e].offset == 0 && s.k.entries[e].flag == oflag && s.k.entries[e].ref.Some?
              && var h := s.k.entries[e].ref.value;
                 && 0 <= h < SYSTEM_OPEN_MAX && |s.k.files| == SYSTEM_OPEN_MAX && s.k.files[h].vn == Some(v)
                 && (forall j :: 0 <= j < SYSTEM_OPEN_MAX && j != h ==> s.k.files[j] == k.files[j])
                 && ((exists j :: 0 <= j < SYSTEM_OPEN_MAX && k.files[j].vn == Some(v)) ==>
                       k.files[h].vn == Some(v) && s.k.files[h].refcount == k.files[h].refcount + 1)
                 && ((forall j :: 0 <= j < SYSTEM_OPEN_MAX ==> k.files[j].vn != Some(v)) ==>
                       && k.files[h].vn.None? && s.k.files[h] == OpenFile(Some(v), 1)
                       && forall j :: 0 <= j < h ==> k.files[j].vn.Some?)
  {
    var p := ProcOf(k, pid);
    OpenCountFull(p.fds);
    match FreeFd(p.fds, p.lastFd)
    case None => Step(k, Err(EMFILE))
    case Some(fd) =>
      if LiveHandles(k.files) >= SYSTEM_OPEN_MAX then Step(k, Err(ENFILE))
      else
        FreeHandleExists(k.files);
        match Acquire(k.files, v)
        case None => Step(k, Err(ENFILE))
        case Some(acq) => Step(Opened(k, pid, fd, acq, oflag), Ok(fd))
  }

  /** Installing a new entry `d` under the fresh id `e` into the free slot
      `fd` adds one link to the openfile `d` names and none to any other. */
  lemma InstallLinks(k: Kernel, pid: int, fd: int, d: DescEntry, j: nat)
    requires Inv(k) && Live(k, pid) && FIRST_FD <= fd < OPEN_MAX && ProcOf(k, pid).fds[fd].None?
    ensures Holders(k.reg.table[pid := Some(Installed(ProcOf(k, pid), fd, k.nextEntry))], k.entries[k.nextEntry := d], j)
            == Holders(k.reg.table, k.entries, j) + (if d.ref == Some(j) then 1 else 0)
  {
    var e := k.nextEntry;
    var entries := k.entries[e := d];
    var p := ProcOf(k, pid);
    InvIdsBelow(k);
    assert IdsBelow(p.fds, e);
    HoldersFresh(k.reg.table, k.entries, e, d, j);
    SlotRefsFresh(p.fds, k.entries, e, d, j);
    SlotRefsSet(p.fds, fd, Some(e), entries, j);
    HoldersSet(k.reg.table, pid, Some(Installed(p, fd, e)), entries, j);
  }

  /** Every registered descriptor table stays well formed after an install. */
  lemma OpenedProcsWf(k: Kernel, pid: int, fd: int, acq: Acquired, oflag: int)
    requires Inv(k) && Live(k, pid) && FIRST_FD <= fd < OPEN_MAX && ProcOf(k, pid).fds[fd].None?
    ensures var k' := Opened(k, pid, fd, acq, oflag);
            forall i :: 0 <= i < PID_MAX && k'.reg.table[i].Some? ==> ProcWf(k'.reg.table[i].value, k'.entries, k'.nextEntry)
  {
    var k' := Opened(k, pid, fd, acq, oflag);
    var p := ProcOf(k, pid);
    OpenCountSet(p.fds, fd, Some(k.nextEntry));
    forall i | 0 <= i < PID_MAX && k'.reg.table[i].Some?
      ensures ProcWf(k'.reg.table[i].value, k'.entries, k'.nextEntry)
    {
      assert ProcWf(k.reg.table[i].value, k.entries, k.nextEntry);
    }
  }

  /** Installing into a free slot the entry linked to the openfile that
      `Acquire` resolved keeps the invariant. */
  lemma OpenedInv(k: Kernel, pid: int, fd: int, v: Vnode, oflag: int)
    requires Inv(k) && Live(k, pid) && FIRST_FD <= fd < OPEN_MAX && ProcOf(k, pid).fds[fd].None?
    requires Acquire(k.files, v).Some?
    ensures Inv(Opened(k, pid, fd, Acquire(k.files, v).value, oflag))
  {
    var acq := Acquire(k.files, v).value;
    var k' := Opened(k, pid, fd, acq, oflag);
    OccupiedSet(k.reg.table, pid, Some(Installed(ProcOf(k, pid), fd, k.nextEntry)));
    AcquireWf(k.files, v);
    OpenedProcsWf(k, pid, fd, acq, oflag);
    forall j | 0 <= j < SYSTEM_OPEN_MAX
      ensures k'.files[j].refcount == Holders(k'.reg.table, k'.entries, j)
    {
      InstallLinks(k, pid, fd, NewDescriptor(oflag, acq.handle), j);
    }
  }

  /** `assing_fd` keeps the invariant. */
  lemma AssignFdInv(k: Kernel, pid: int, v: Vnode, oflag: int)
    requires Inv(k) && Live(k, pid)
    ensures Inv(AssignFd(k, pid, v, oflag).k)
  {
    var s := AssignFd(k, pid, v, oflag);
    if s.ret.Ok? {
      assert s.k == Opened(k, pid, s.ret.value, Acquire(k.files, v).value, oflag);
      OpenedInv(k, pid, s.ret.value, v, oflag);
    }
  }

  /** `assing_fd` as written: for a vnode no openfile holds yet, the new
      entry's `ref` is never assigned. */
  function AssignFdAsWritten(k: Kernel, pid: int, v: Vnode, oflag: int): (s: Step<int>)
    requires Inv(k) && Live(k, pid)
    ensures s.ret == AssignFd(k, pid, v, oflag).ret && s.k.files == AssignFd(k, pid, v, oflag).k.files
  {
    var s := AssignFd(k, pid, v, oflag);
    if s.ret.Ok? && forall j :: 0 <= j < SYSTEM_OPEN_MAX ==> k.files[j].vn != Some(v) then
      var h := s.k.entries[k.nextEntry].ref.value;
      Step(s.k.(entries := s.k.entries[k.nextEntry := NewDescriptorAsWritten(oflag, h)]), s.ret)
    else s
  }

  /** Opening a vnode not yet open, as written, leaves the openfile it
      claimed with a count of 1 while no descriptor slot is linked to it: the
      count can never drop back to 0 and `remove_fd` on the new descriptor
      dereferences a NULL `ref`. The corrected open links exactly one slot. */
  lemma AssignFdAsWrittenUnlinked(k: Kernel, pid: int, v: Vnode, oflag: int)
    requires Inv(k) && Live(k, pid)
    requires forall j :: 0 <= j < SYSTEM_OPEN_MAX ==> k.files[j].vn != Some(v)
    requires AssignFd(k, pid, v, oflag).ret.Ok?
    ensures var s := AssignFd(k, pid, v, oflag);
            var w := AssignFdAsWritten(k, pid, v, oflag);
            var h := s.k.entries[k.nextEntry].ref.value;
            && w.k.files[h].refcount == 1 && Holders(w.k.reg.table, w.k.entries, h) == 0
            && w.k.entries[k.nextEntry].ref.None?
            && !Inv(w.k)
            && s.k.files[h].refcount == 1 && Holders(s.k.reg.table, s.k.entries, h) == 1
  {
    var s := AssignFd(k, pid, v, oflag);
    var h := s.k.entries[k.nextEntry].ref.value;
    var fd := s.ret.value;
    assert k.files[h].refcount == 0;
    InstallLinks(k, pid, fd, NewDescriptor(oflag, h), h);
    InstallLinks(k, pid, fd, NewDescriptorAsWritten(oflag, h), h);
    var w := AssignFdAsWritten(k, pid, v, oflag);
    assert w.k.entries == k.entries[k.nextEntry := NewDescriptorAsWritten(oflag, h)];
    MiscountBreaksInv(w.k, h);
  }

  /** The process after `remove_fd` emptied its slot `fd`: one descriptor
      fewer and the hint at the freed slot. */
  function Removed(p: Proc, fd: int): (r: Proc)
    requires |p.fds| == OPEN_MAX && FIRST_FD <= fd < OPEN_MAX
    ensures |r.fds| == OPEN_MAX && r.fds[fd].None? && r.lastFd == fd && r.cntOpen == p.cntOpen - 1
    ensures forall f :: 0 <= f < OPEN_MAX && f != fd ==> r.fds[f] == p.fds[f]
  {
    p.(fds := p.fds[fd := None], cntOpen := p.cntOpen - 1, lastFd := fd)
  }

  /** `remove_fd(p, fd)` on a descriptor in use: its openfile drops one
      reference (and is freed at the last one), the slot becomes NULL,
      `cnt_open` goes down and the hint moves to `fd`. Any other `fd` is
      refused with EBADF and nothing changes. */
  function RemoveFd(k: Kernel, pid: int, fd: int): (s: Step<int>)
    requires Inv(k) && Live(k, pid)
    ensures s.ret.Err? <==> fd < FIRST_FD || fd >= OPEN_MAX || ProcOf(k, pid).fds[fd].None?
    ensures s.ret.Err? ==> s.ret.err == EBADF && s.k == k
    ensures s.ret.Ok? ==>
              && s.k.reg == k.reg.(table := k.reg.table[pid := Some(Removed(ProcOf(k, pid), fd))])
              && s.k.entries == k.entries && s.k.nextEntry == k.nextEntry && |s.k.files| == SYSTEM_OPEN_MAX
    ensures s.ret.Ok? ==>
              match LinkOf(ProcOf(k, pid).fds[fd], k.entries)
              case None => s.k.files == k.files
              case Some(j) =>
                && 0 <= j < SYSTEM_OPEN_MAX && k.files[j].refcount >= 1
                && (k.files[j].refcount > 1 ==> s.k.files[j] == k.files[j].(refcount := k.files[j].refcount - 1))
                && (k.files[j].refcount == 1 ==> s.k.files[j] == OpenFile(None, 0))
                && forall l :: 0 <= l < SYSTEM_OPEN_MAX && l != j ==> s.k.files[l] == k.files[l]
  {
    var p := ProcOf(k, pid);
    if fd < FIRST_FD || fd >= OPEN_MAX || p.fds[fd].None? then Step(k, Err(EBADF))
    else
      var files :=
        (match LinkOf(p.fds[fd], k.entries)
         case Some(j) =>
           WeightBounded(k.reg.table, pid, k.entries);
           SlotRefsSet(p.fds, fd, p.fds[fd], k.entries, j);
           k.files[j := ReleaseHandle(k.files[j])]
         case None => k.files);
      Step(Kernel(k.reg.(table := k.reg.table[pid := Some(Removed(p, fd))]), files, k.entries, k.nextEntry), Ok(0))
  }

  /** Emptying slot `fd` drops exactly the one link it held. */
  lemma RemoveLinks(k: Kernel, pid: int, fd: int, j: nat)
    requires Inv(k) && Live(k, pid) && FIRST_FD <= fd < OPEN_MAX
    ensures Holders(k.reg.table[pid := Some(Removed(ProcOf(k, pid), fd))], k.entries, j)
            == Holders(k.reg.table, k.entries, j) - (if Refers(ProcOf(k, pid).fds[fd], k.entries, j) then 1 else 0)
  {
    var p := ProcOf(k, pid);
    SlotRefsSet(p.fds, fd, None, k.entries, j);
    HoldersSet(k.reg.table, pid, Some(Removed(p, fd)), k.entries, j);
  }

  /** `remove_fd` keeps the invariant. */
  lemma RemoveFdInv(k: Kernel, pid: int, fd: int)
    requires Inv(k) && Live(k, pid)
    ensures Inv(RemoveFd(k, pid, fd).k)
  {
    var s := RemoveFd(k, pid, fd);
    if s.ret.Ok? {
      var p := ProcOf(k, pid);
      OccupiedSet(k.reg.table, pid, Some(Removed(p, fd)));
      OpenCountSet(p.fds, fd, None);
      forall i | 0 <= i < PID_MAX && s.k.reg.table[i].Some?
        ensures ProcWf(s.k.reg.table[i].value, s.k.entries, s.k.nextEntry)
      {
        assert ProcWf(k.reg.table[i].value, k.entries, k.nextEntry);
      }
      forall j | 0 <= j < SYSTEM_OPEN_MAX
        ensures s.k.files[j].refcount == Holders(s.k.reg.table, s.k.entries, j)
      {
        RemoveLinks(k, pid, fd, j);
      }
      assert FilesWf(s.k.files) by {
        forall a, b | 0 <= a < b < SYSTEM_OPEN_MAX && s.k.files[a].vn.Some?
          ensures s.k.files[a].vn != s.k.files[b].vn
        {
          assert s.k.files[a].vn == k.files[a].vn;
          assert s.k.files[b].vn.Some? ==> s.k.files[b].vn == k.files[b].vn;
        }
      }
    }
  }

  /** Closing the descriptor just opened gives the system file table back
      exactly as it was and restores the process's slots and count. */
  lemma RemoveFdUndoesAssignFd(k: Kernel, pid: int, v: Vnode, oflag: int)
    requires Inv(k) && Live(k, pid)
    requires AssignFd(k, pid, v, oflag).ret.Ok?
    ensures var s := AssignFd(k, pid, v, oflag);
            && Inv(s.k)
            && var r := RemoveFd(s.k, pid, s.ret.value);
            && r.ret.Ok?
            && r.k.files == k.files
            && ProcOf(r.k, pid).fds == ProcOf(k, pid).fds
            && ProcOf(r.k, pid).cntOpen == ProcOf(k, pid).cntOpen
  {
    var s := AssignFd(k, pid, v, oflag);
    AssignFdInv(k, pid, v, oflag);
    var fd := s.ret.value;
    var r := RemoveFd(s.k, pid, fd);
    var h := s.k.entries[k.nextEntry].ref.value;
    assert LinkOf(ProcOf(s.k, pid).fds[fd], s.k.entries) == Some(h);
    assert k.files[h].vn.Some? ==> k.files[h].refcount >= 1;
    assert r.k.files == k.files;
    assert ProcOf(r.k, pid).fds == ProcOf(k, pid).fds;
  }

  /** Two opens of the same vnode, by one process or by two, create two
      distinct descriptor entries (each with its own offset, the first left
      as it was by the second open) linked to one openfile, which then holds
      two more references than before. */
  lemma SameVnodeSharesOpenfile(k: Kernel, pid1: int, pid2: int, v: Vnode, o1: int, o2: int)
    requires Inv(k) && Live(k, pid1) && Live(k, pid2)
    requires AssignFd(k, pid1, v, o1).ret.Ok?
    ensures Inv(AssignFd(k, pid1, v, o1).k) && Live(AssignFd(k, pid1, v, o1).k, pid2)
    ensures var s1 := AssignFd(k, pid1, v, o1);
            var s2 := AssignFd(s1.k, pid2, v, o2);
            var h := s1.k.entries[k.nextEntry].ref.value;
            s2.ret.Ok? ==>
              && s1.k.nextEntry == k.nextEntry + 1
              && k.nextEntry in s2.k.entries && s2.k.entries[k.nextEntry] == s1.k.entries[k.nextEntry]
              && s2.k.entries[s1.k.nextEntry].ref == Some(h)
              && s2.k.files[h].vn == Some(v)
              && s2.k.files[h].refcount == k.files[h].refcount + 2
  {
    AssignFdInv(k, pid1, v, o1);
    var s1 := AssignFd(k, pid1, v, o1);
    var s2 := AssignFd(s1.k, pid2, v, o2);
    var h := s1.k.entries[k.nextEntry].ref.value;
    if s2.ret.Ok? {
      var h2 := s2.k.entries[s1.k.nextEntry].ref.value;
      assert s1.k.files[h].vn == Some(v);
      assert s1.k.files[h2].vn == Some(v);
      assert h2 == h;
    }
  }
}
