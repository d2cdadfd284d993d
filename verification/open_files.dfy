/**
 The system-wide `system_file_table[SYSTEM_OPEN_MAX]` of `struct openfile`
 (one entry per distinct open vnode, reference-counted) and the descriptor
 entries (`struct process_table`: offset, flag and a link to an openfile)
 that per-process slots name.
 */
module OpenFiles {
  import opened Errors
  import opened Limits
  import opened SlotArray
  import opened FdTable

  /** Opaque identity of a vnode; NULL is represented by `None`. */
  type Vnode = nat

  /** `struct openfile`: a vnode and the number of descriptor slots linked to it. */
  datatype OpenFile = OpenFile(vn: Option<Vnode>, refcount: int)

  /** `struct process_table`: a descriptor entry with its own offset and open
      flags and the index of the openfile it is linked to (`None` for the
      standard streams, whose `ref` is NULL). */
  datatype DescEntry = DescEntry(offset: int, flag: int, ref: Option<nat>)

  type Entries = map<EntryId, DescEntry>

  /** The zero-initialised global table: every entry free. It is well
      formed and no entry counts towards the SYSTEM_OPEN_MAX limit. */
  function InitialFiles(): (files: seq<OpenFile>)
    ensures |files| == SYSTEM_OPEN_MAX
    ensures forall j :: 0 <= j < |files| ==> files[j] == OpenFile(None, 0)
    ensures FilesWf(files) && LiveHandles(files) == 0
  {
    var files := seq(SYSTEM_OPEN_MAX, j => OpenFile(None, 0));
    OccupiedEmpty(Vnodes(files));
    files
  }

  /** A free entry has a NULL vnode and count 0; a live one a positive count. */
  ghost predicate HandleWf(f: OpenFile)
  {
    f.refcount >= 0 && (f.vn.None? <==> f.refcount == 0)
  }

  /** The table has its fixed size, every entry is well formed and no vnode
      is held by two entries (the table deduplicates by vnode). */
  ghost predicate FilesWf(files: seq<OpenFile>)
  {
    && |files| == SYSTEM_OPEN_MAX
    && (forall j :: 0 <= j < |files| ==> HandleWf(files[j]))
    && (forall a, b :: 0 <= a < b < |files| && files[a].vn.Some? ==> files[a].vn != files[b].vn)
  }

  /** Every descriptor entry's link names an index of the table. */
  ghost predicate RefsInRange(entries: Entries)
  {
    forall e :: e in entries && entries[e].ref.Some? ==> 0 <= entries[e].ref.value < SYSTEM_OPEN_MAX
  }

  /** The vnode column of the table, as a slot array. */
  function Vnodes(files: seq<OpenFile>): (s: seq<Option<Vnode>>)
    ensures |s| == |files| && forall j :: 0 <= j < |s| ==> s[j] == files[j].vn
  {
    seq(|files|, j requires 0 <= j < |files| => files[j].vn)
  }

  /** The number of live entries, the system-wide open count the ENFILE
      check compares with SYSTEM_OPEN_MAX. */
  function LiveHandles(files: seq<OpenFile>): nat
  {
    Occupied(Vnodes(files))
  }

  /** While some entry is not live, there is a free one. */
  lemma FreeHandleExists(files: seq<OpenFile>)
    requires LiveHandles(files) < |files|
    ensures exists j :: 0 <= j < |files| && files[j].vn.None?
  {
    OccupiedFull(Vnodes(files));
  }

  /** The lowest index at or after `j` whose entry holds `v`. */
  function IndexOf(files: seq<OpenFile>, v: Vnode, j: nat): (r: Option<nat>)
    requires j <= |files|
    ensures r.Some? ==> j <= r.value < |files| && files[r.value].vn == Some(v)
    ensures r.Some? ==> forall l :: j <= l < r.value ==> files[l].vn != Some(v)
    ensures r.None? <==> forall l :: j <= l < |files| ==> files[l].vn != Some(v)
    decreases |files| - j
  {
    if j == |files| then None
    else if files[j].vn == Some(v) then Some(j)
    else IndexOf(files, v, j + 1)
  }

  /** The lowest index at or after `j` whose entry is free. */
  function FirstFree(files: seq<OpenFile>, j: nat): (r: Option<nat>)
    requires j <= |files|
    ensures r.Some? ==> j <= r.value < |files| && files[r.value].vn.None?
    ensures r.Some? ==> forall l :: j <= l < r.value ==> files[l].vn.Some?
    ensures r.None? <==> forall l :: j <= l < |files| ==> files[l].vn.Some?
    decreases |files| - j
  {
    if j == |files| then None
    else if files[j].vn.None? then Some(j)
    else FirstFree(files, j + 1)
  }

  /** The table after a vnode was resolved, and the index it resolved to. */
  datatype Acquired = Acquired(files: seq<OpenFile>, handle: nat)

  /** The search of `assing_fd` in the system table: an entry already holding
      `v` gains one reference; otherwise the lowest free entry is claimed
      with a count of 1; with neither, there is nothing to link to. */
  function Acquire(files: seq<OpenFile>, v: Vnode): (r: Option<Acquired>)
    ensures r.Some? ==> 0 <= r.value.handle < |files| && |r.value.files| == |files|
    ensures r.Some? ==> r.value.files[r.value.handle].vn == Some(v)
    ensures r.Some? ==> forall j :: 0 <= j < |files| && j != r.value.handle ==> r.value.files[j] == files[j]
    ensures (exists j :: 0 <= j < |files| && files[j].vn == Some(v)) ==>
              r.Some? && files[r.value.handle].vn == Some(v)
              && r.value.files[r.value.handle].refcount == files[r.value.handle].refcount + 1
    ensures (forall j :: 0 <= j < |files| ==> files[j].vn != Some(v)) ==>
              (r.None? <==> forall j :: 0 <= j < |files| ==> files[j].vn.Some?)
    ensures (forall j :: 0 <= j < |files| ==> files[j].vn != Some(v)) && r.Some? ==>
              files[r.value.handle].vn.None? && r.value.files[r.value.handle] == OpenFile(Some(v), 1)
              && forall j :: 0 <= j < r.value.handle ==> files[j].vn.Some?
  {
    match IndexOf(files, v, 0)
    case Some(j) => Some(Acquired(files[j := files[j].(refcount := files[j].refcount + 1)], j))
    case None =>
      match FirstFree(files, 0)
      case Some(j) => Some(Acquired(files[j := OpenFile(Some(v), 1)], j))
      case None => None
  }

  /** Acquiring keeps the table well formed when the entry it links to gains
      exactly the one new reference. */
  lemma AcquireWf(files: seq<OpenFile>, v: Vnode)
    requires FilesWf(files)
    ensures Acquire(files, v).Some? ==> FilesWf(Acquire(files, v).value.files)
  {
  }

  /** Dropping one reference to an entry, as `remove_fd` does: above 1 the
      count goes down; at exactly 1 the entry is freed (count 0, vnode
      cleared); a count of 0 is left alone. */
  function ReleaseHandle(f: OpenFile): (r: OpenFile)
    ensures f.refcount > 0 ==> r.refcount == f.refcount - 1
    ensures f.refcount <= 0 ==> r == f
    ensures r.refcount > 0 ==> r.vn == f.vn
    ensures HandleWf(f) ==> HandleWf(r)
  {
    if f.refcount > 1 then f.(refcount := f.refcount - 1)
    else if f.refcount == 1 then OpenFile(None, 0)
    else f
  }

  /** Slot `s` names a descriptor entry linked to the openfile at `j`. */
  predicate Refers(s: Option<EntryId>, entries: Entries, j: nat)
  {
    s.Some? && s.value in entries && entries[s.value].ref == Some(j)
  }

  /** The number of slots of `fds` linked to the openfile at `j`. */
  function SlotRefs(fds: Slots, entries: Entries, j: nat): nat
  {
    if |fds| == 0 then 0 else (if Refers(fds[0], entries, j) then 1 else 0) + SlotRefs(fds[1..], entries, j)
  }

  /** The openfile slot `s` is linked to, when it is linked to one. */
  function LinkOf(s: Option<EntryId>, entries: Entries): (r: Option<nat>)
    ensures forall j: nat :: Refers(s, entries, j) <==> r == Some(j)
  {
    if s.Some? && s.value in entries then entries[s.value].ref else None
  }

  /** The loop of `sys_fork` over the parent's slots: every slot linked to an
      openfile adds one reference to it. */
  function BumpAll(files: seq<OpenFile>, entries: Entries, fds: Slots): (r: seq<OpenFile>)
    requires |files| == SYSTEM_OPEN_MAX && RefsInRange(entries)
    ensures |r| == |files|
    ensures forall j :: 0 <= j < |files| ==> r[j].vn == files[j].vn
    ensures forall j :: 0 <= j < |files| ==> r[j].refcount == files[j].refcount + SlotRefs(fds, entries, j)
    decreases |fds|
  {
    if |fds| == 0 then files
    else
      var bumped :=
        match LinkOf(fds[0], entries)
        case Some(j) => files[j := files[j].(refcount := files[j].refcount + 1)]
        case None => files;
      BumpAll(bumped, entries, fds[1..])
  }

  /** Every slot linked to an openfile drops its reference to it, as closing
      each descriptor one after another would. */
  function ReleaseAll(files: seq<OpenFile>, entries: Entries, fds: Slots): (r: seq<OpenFile>)
    requires |files| == SYSTEM_OPEN_MAX && RefsInRange(entries)
    requires forall j :: 0 <= j < |files| ==> HandleWf(files[j]) && files[j].refcount >= SlotRefs(fds, entries, j)
    ensures |r| == |files|
    ensures forall j :: 0 <= j < |files| ==> HandleWf(r[j])
    ensures forall j :: 0 <= j < |files| ==> r[j].refcount == files[j].refcount - SlotRefs(fds, entries, j)
    ensures forall j :: 0 <= j < |files| && r[j].refcount > 0 ==> r[j].vn == files[j].vn
    ensures forall j :: 0 <= j < |files| && SlotRefs(fds, entries, j) == 0 ==> r[j] == files[j]
    decreases |fds|
  {
    if |fds| == 0 then files
    else
      var released :=
        match LinkOf(fds[0], entries)
        case Some(j) => files[j := ReleaseHandle(files[j])]
        case None => files;
      assert forall j :: 0 <= j < |files| ==>
        SlotRefs(fds, entries, j) == (if LinkOf(fds[0], entries) == Some(j) then 1 else 0) + SlotRefs(fds[1..], entries, j);
      ReleaseAll(released, entries, fds[1..])
  }

  /** Releasing the references a bump added gives the table back, provided
      every openfile the slots link to is live. */
  lemma ReleaseAllUndoesBumpAll(files: seq<OpenFile>, entries: Entries, fds: Slots)
    requires |files| == SYSTEM_OPEN_MAX && RefsInRange(entries)
    requires forall j :: 0 <= j < |files| ==> HandleWf(files[j])
    requires forall j :: 0 <= j < |files| && SlotRefs(fds, entries, j) > 0 ==> files[j].vn.Some?
    ensures var bumped := BumpAll(files, entries, fds);
            (forall j :: 0 <= j < |files| ==> HandleWf(bumped[j]) && bumped[j].refcount >= SlotRefs(fds, entries, j))
            && ReleaseAll(bumped, entries, fds) == files
  {
    var bumped := BumpAll(files, entries, fds);
    var r := ReleaseAll(bumped, entries, fds);
    forall j | 0 <= j < |files|
      ensures r[j] == files[j]
    {
      assert HandleWf(r[j]);
    }
  }

  /** The descriptor entry `assing_fd` installs: offset 0, the open flags,
      linked to the openfile it resolved. */
  function NewDescriptor(oflag: int, handle: nat): (d: DescEntry)
    ensures d.offset == 0 && d.flag == oflag && d.ref == Some(handle)
  {
    DescEntry(0, oflag, Some(handle))
  }

  /** The entry as written for a vnode not yet open: `ref` is never
      assigned (modelled as NULL). */
  function NewDescriptorAsWritten(oflag: int, handle: nat): (d: DescEntry)
    ensures d.offset == 0 && d.flag == oflag
  {
    DescEntry(0, oflag, None)
  }

  /** The entry `proc_create` installs for a standard stream. */
  function StdDescriptor(): (d: DescEntry)
    ensures d.offset == 0 && d.ref.None?
  {
    DescEntry(0, 0, None)
  }
}
