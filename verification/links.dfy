/**
 How many descriptor slots, over all registered processes, are linked to one
 entry of the system file table. The kernel invariant requires every entry's
 `refcount` to equal this number; the lemmas here say how it moves when one
 process or one slot changes.
 */
module Links {
  import opened Errors
  import opened FdTable
  import opened OpenFiles
  import opened Process

  /** Slots of the process in `o` (none when the slot is NULL) linked to `j`. */
  function Weight(o: Option<Proc>, entries: Entries, j: nat): nat
  {
    if o.Some? then SlotRefs(o.value.fds, entries, j) else 0
  }

  /** Slots of all processes in `table` linked to the openfile at `j`. */
  function Holders(table: seq<Option<Proc>>, entries: Entries, j: nat): nat
  {
    if |table| == 0 then 0 else Weight(table[0], entries, j) + Holders(table[1..], entries, j)
  }

  /** Replacing one process changes the total by the difference of the two
      processes' links; one process never holds more than the total. */
  lemma {:induction false} HoldersSet(table: seq<Option<Proc>>, i: int, o: Option<Proc>, entries: Entries, j: nat)
    requires 0 <= i < |table|
    ensures Weight(table[i], entries, j) <= Holders(table, entries, j)
    ensures Holders(table[i := o], entries, j)
            == Holders(table, entries, j) - Weight(table[i], entries, j) + Weight(o, entries, j)
  {
    if i > 0 {
      assert table[i := o][1..] == table[1..][i - 1 := o];
      HoldersSet(table[1..], i - 1, o, entries, j);
    }
  }

  /** Every process's share of the links to every openfile is at most the
      total. */
  lemma WeightBounded(table: seq<Option<Proc>>, i: int, entries: Entries)
    requires 0 <= i < |table|
    ensures forall j: nat :: Weight(table[i], entries, j) <= Holders(table, entries, j)
  {
    forall j: nat
      ensures Weight(table[i], entries, j) <= Holders(table, entries, j)
    {
      HoldersSet(table, i, table[i], entries, j);
    }
  }

  /** Storing into one descriptor slot changes the process's links by what
      left and what came in. */
  lemma {:induction false} SlotRefsSet(fds: Slots, f: int, s: Option<EntryId>, entries: Entries, j: nat)
    requires 0 <= f < |fds|
    ensures SlotRefs(fds[f := s], entries, j)
            == SlotRefs(fds, entries, j) - (if Refers(fds[f], entries, j) then 1 else 0) + (if Refers(s, entries, j) then 1 else 0)
    ensures Refers(fds[f], entries, j) ==> SlotRefs(fds, entries, j) >= 1
  {
    if f > 0 {
      assert fds[f := s][1..] == fds[1..][f - 1 := s];
      SlotRefsSet(fds[1..], f - 1, s, entries, j);
    }
  }

  /** Every slot id of `fds` is below `n`. */
  predicate IdsBelow(fds: Slots, n: nat)
  {
    forall f :: 0 <= f < |fds| && fds[f].Some? ==> fds[f].value < n
  }

  /** Every slot id of every registered process is below `n`. */
  ghost predicate TableIdsBelow(table: seq<Option<Proc>>, n: nat)
  {
    forall i :: 0 <= i < |table| && table[i].Some? ==> IdsBelow(table[i].value.fds, n)
  }

  /** A descriptor entry stored under an id no slot uses changes no links. */
  lemma {:induction false} SlotRefsFresh(fds: Slots, entries: Entries, e: EntryId, d: DescEntry, j: nat)
    requires IdsBelow(fds, e)
    ensures SlotRefs(fds, entries[e := d], j) == SlotRefs(fds, entries, j)
  {
    if |fds| > 0 {
      assert Refers(fds[0], entries[e := d], j) == Refers(fds[0], entries, j);
      SlotRefsFresh(fds[1..], entries, e, d, j);
    }
  }

  /** The same for all processes of the table. */
  lemma {:induction false} HoldersFresh(table: seq<Option<Proc>>, entries: Entries, e: EntryId, d: DescEntry, j: nat)
    requires TableIdsBelow(table, e)
    ensures Holders(table, entries[e := d], j) == Holders(table, entries, j)
  {
    if |table| > 0 {
      if table[0].Some? {
        SlotRefsFresh(table[0].value.fds, entries, e, d, j);
      }
      assert TableIdsBelow(table[1..], e) by {
        forall i | 0 <= i < |table| - 1 && table[1..][i].Some?
          ensures IdsBelow(table[1..][i].value.fds, e)
        {
          assert table[1..][i] == table[i + 1];
        }
      }
      HoldersFresh(table[1..], entries, e, d, j);
    }
  }

  /** Slots none of which is linked to `j` contribute nothing to it. */
  lemma {:induction false} SlotRefsUnlinked(fds: Slots, entries: Entries, j: nat)
    requires forall f :: 0 <= f < |fds| ==> !Refers(fds[f], entries, j)
    ensures SlotRefs(fds, entries, j) == 0
  {
    if |fds| > 0 {
      assert forall f :: 0 <= f < |fds| - 1 ==> fds[1..][f] == fds[f + 1];
      SlotRefsUnlinked(fds[1..], entries, j);
    }
  }

  /** An empty table holds nothing. */
  lemma {:induction false} HoldersEmpty(table: seq<Option<Proc>>, entries: Entries, j: nat)
    requires forall i :: 0 <= i < |table| ==> table[i].None?
    ensures Holders(table, entries, j) == 0
  {
    if |table| > 0 {
      assert forall i :: 0 <= i < |table| - 1 ==> table[1..][i] == table[i + 1];
      HoldersEmpty(table[1..], entries, j);
    }
  }
}
