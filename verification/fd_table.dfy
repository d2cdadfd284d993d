/**
 The per-process descriptor array `process_file_table[OPEN_MAX]` of
 include/proc.h: each slot is NULL or names a descriptor entry by its id, so
 that two slots (of one process or of a parent and its forked child) can name
 the same entry. Slots 0-2 are the standard streams; `cnt_open` counts the
 occupied slots from FIRST_FD on and `last_fd` is the scan hint.
 */
module FdTable {
  import opened Errors
  import opened Limits
  import opened SlotArray

  /** Identity of a descriptor entry (`struct process_table *`). */
  type EntryId = nat

  type Slots = seq<Option<EntryId>>

  /** The number of descriptor slots `cnt_open` is meant to track: the
      occupied ones among FIRST_FD .. OPEN_MAX-1. */
  function OpenCount(fds: Slots): nat
    requires |fds| == OPEN_MAX
  {
    Occupied(fds[FIRST_FD..])
  }

  /** Filling or emptying one slot at or after FIRST_FD moves the count by one. */
  lemma OpenCountSet(fds: Slots, fd: int, v: Option<EntryId>)
    requires |fds| == OPEN_MAX && FIRST_FD <= fd < OPEN_MAX
    ensures OpenCount(fds[fd := v]) == OpenCount(fds) - (if fds[fd].Some? then 1 else 0) + (if v.Some? then 1 else 0)
  {
    assert fds[fd := v][FIRST_FD..] == fds[FIRST_FD..][fd - FIRST_FD := v];
    OccupiedSet(fds[FIRST_FD..], fd - FIRST_FD, v);
  }

  /** The count reaches its maximum OPEN_MAX - FIRST_FD exactly when no slot
      at or after FIRST_FD is free. */
  lemma OpenCountFull(fds: Slots)
    requires |fds| == OPEN_MAX
    ensures OpenCount(fds) <= OPEN_MAX - FIRST_FD
    ensures OpenCount(fds) == OPEN_MAX - FIRST_FD <==> forall f :: FIRST_FD <= f < OPEN_MAX ==> fds[f].Some?
  {
    OccupiedFull(fds[FIRST_FD..]);
    assert forall f :: FIRST_FD <= f < OPEN_MAX ==> fds[f] == fds[FIRST_FD..][f - FIRST_FD];
  }

  /** The table `proc_create` installs: the three standard streams are
      pre-filled with the entries `std`, `std`+1, `std`+2 and every other slot
      is NULL. */
  function InitialSlots(std: EntryId): (fds: Slots)
    ensures |fds| == OPEN_MAX
    ensures forall f :: 0 <= f < FIRST_FD ==> fds[f] == Some(std + f)
    ensures OpenCount(fds) == 0
  {
    var t: Slots := seq(OPEN_MAX, f => if f < FIRST_FD then Some(std + f) else None);
    var tail := t[FIRST_FD..];
    assert forall i :: 0 <= i < |tail| ==> tail[i] == t[i + FIRST_FD] && tail[i].None?;
    OccupiedEmpty(tail);
    t
  }

  /** Where the descriptor scan starts: the hint, or FIRST_FD when the hint
      has run off the end of the array. */
  function ScanStart(lastFd: int): (x: int)
    requires FIRST_FD <= lastFd
    ensures FIRST_FD <= x < OPEN_MAX
  {
    if lastFd >= OPEN_MAX then FIRST_FD else lastFd
  }

  /** The free descriptor the allocation scan picks: the first empty slot of
      [FIRST_FD, OPEN_MAX) in circular order from the hint. */
  function FreeFd(fds: Slots, lastFd: int): (r: Option<int>)
    requires |fds| == OPEN_MAX && FIRST_FD <= lastFd
    ensures r.Some? ==> FIRST_FD <= r.value < OPEN_MAX && fds[r.value].None?
    ensures r.None? <==> forall f :: FIRST_FD <= f < OPEN_MAX ==> fds[f].Some?
    ensures r.Some? && fds[ScanStart(lastFd)].None? ==> r.value == ScanStart(lastFd)
    ensures r.Some? ==> FirstFit(fds, FIRST_FD, OPEN_MAX, ScanStart(lastFd), r.value)
  {
    var x := ScanStart(lastFd);
    ProbeComplete(fds, FIRST_FD, OPEN_MAX, x, OPEN_MAX - FIRST_FD);
    match Probe(fds, FIRST_FD, OPEN_MAX, x, OPEN_MAX - FIRST_FD)
    case Found(fd, _) => Some(fd)
    case Exhausted(_) => None
  }

  /** The step of the scan as written: after the last slot the loop sets
      i = 3 and its increment then moves on to 4. */
  function NextFdAsWritten(i: int): (j: int)
    requires FIRST_FD <= i < OPEN_MAX
    ensures FIRST_FD < j < OPEN_MAX
  {
    if i == OPEN_MAX - 1 then FIRST_FD + 1 else i + 1
  }

  /** The k-th slot the scan as written probes from `start`. */
  function ProbeAsWritten(start: int, k: nat): (i: int)
    requires FIRST_FD <= start < OPEN_MAX
    ensures FIRST_FD <= i < OPEN_MAX
    decreases k
  {
    if k == 0 then start else ProbeAsWritten(NextFdAsWritten(start), k - 1)
  }

  /** Once the hint is past FIRST_FD, the scan as written never probes slot
      FIRST_FD again, however long it runs. */
  lemma {:induction false} ScanAsWrittenSkipsFirstFd(start: int, k: nat)
    requires FIRST_FD < start < OPEN_MAX
    ensures ProbeAsWritten(start, k) != FIRST_FD
    decreases k
  {
    if k > 0 {
      ScanAsWrittenSkipsFirstFd(NextFdAsWritten(start), k - 1);
    }
  }

  /** The counterexample: a table whose only free slot is FIRST_FD, with the
      hint past it. The scan as written finds nothing on any number of probes
      (the source loops forever), whereas FreeFd returns FIRST_FD. */
  lemma OnlyFirstFdFree(fds: Slots, lastFd: int)
    requires |fds| == OPEN_MAX && FIRST_FD < lastFd < OPEN_MAX
    requires fds[FIRST_FD].None?
    requires forall f :: FIRST_FD < f < OPEN_MAX ==> fds[f].Some?
    ensures forall k: nat :: fds[ProbeAsWritten(lastFd, k)].Some?
    ensures FreeFd(fds, lastFd) == Some(FIRST_FD)
  {
    forall k: nat
      ensures fds[ProbeAsWritten(lastFd, k)].Some?
    {
      ScanAsWrittenSkipsFirstFd(lastFd, k);
    }
  }

  /** The guard of `assing_fd` as written: it only refuses when `cnt_open`
      has reached OPEN_MAX. */
  function OpenGuardAsWritten(cntOpen: int): bool
  {
    cntOpen < OPEN_MAX
  }

  /** Because slots 0-2 are not counted, `cnt_open` never exceeds
      OPEN_MAX - FIRST_FD: a full table passes the guard as written and the
      scan then has no free slot to find. */
  lemma OpenGuardAsWrittenAdmitsFullTable(fds: Slots)
    requires |fds| == OPEN_MAX
    requires forall f :: FIRST_FD <= f < OPEN_MAX ==> fds[f].Some?
    ensures OpenGuardAsWritten(OpenCount(fds))
    ensures forall lastFd :: FIRST_FD <= lastFd ==> FreeFd(fds, lastFd).None?
  {
    OpenCountFull(fds);
  }
}
