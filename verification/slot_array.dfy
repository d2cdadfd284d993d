/**
 Fixed-capacity slot arrays, the shape shared by the pid table and every
 descriptor table: a slot is empty (`None`, the source's NULL) or occupied,
 allocation is a circular first-fit scan over a sub-range [lo, hi) that starts
 at a hint, and a counter tracks how many slots are occupied.
 */
module SlotArray {
  import opened Errors

  /** The slot probed after `x` by a circular scan of [lo, hi). */
  function Next(lo: int, hi: int, x: int): (y: int)
    requires lo <= x < hi
    ensures lo <= y < hi
  {
    if x + 1 >= hi then lo else x + 1
  }

  /** The slot probed `k` steps after `x`. */
  function At(lo: int, hi: int, x: int, k: nat): (y: int)
    requires lo <= x < hi
    ensures lo <= y < hi
    decreases k
  {
    if k == 0 then x else At(lo, hi, Next(lo, hi, x), k - 1)
  }

  /** How many steps a scan starting at `x` needs to reach `y`. */
  function Dist(lo: int, hi: int, x: int, y: int): nat
    requires lo <= x < hi && lo <= y < hi
  {
    if y >= x then y - x else (hi - x) + (y - lo)
  }

  /** A scan starting anywhere in [lo, hi) reaches every slot of the range
      within hi - lo steps. */
  lemma {:induction false} Reaches(lo: int, hi: int, x: int, y: int)
    requires lo <= x < hi && lo <= y < hi
    ensures Dist(lo, hi, x, y) < hi - lo
    ensures At(lo, hi, x, Dist(lo, hi, x, y)) == y
    decreases Dist(lo, hi, x, y)
  {
    if x != y {
      var n := Next(lo, hi, x);
      assert Dist(lo, hi, n, y) == Dist(lo, hi, x, y) - 1;
      Reaches(lo, hi, n, y);
    }
  }

  /** Outcome of a bounded circular scan: the first empty slot and the number
      of occupied slots probed before it, or the position the hint reached
      after every probe failed. */
  datatype Scan = Found(slot: int, probes: nat) | Exhausted(next: int)

  /** Probes at most `n` slots of [lo, hi) circularly from `x` and stops at
      the first empty one. */
  function Probe<X>(s: seq<Option<X>>, lo: int, hi: int, x: int, n: nat): (r: Scan)
    requires 0 <= lo <= x < hi <= |s|
    ensures r.Found? ==> r.probes < n && r.slot == At(lo, hi, x, r.probes) && s[r.slot].None?
    ensures r.Found? ==> forall q :: 0 <= q < r.probes ==> s[At(lo, hi, x, q)].Some?
    ensures r.Exhausted? ==> r.next == At(lo, hi, x, n)
    ensures r.Exhausted? ==> forall q :: 0 <= q < n ==> s[At(lo, hi, x, q)].Some?
    decreases n
  {
    if n == 0 then Exhausted(x)
    else if s[x].None? then Found(x, 0)
    else
      var rest := Probe(s, lo, hi, Next(lo, hi, x), n - 1);
      assert forall q :: 1 <= q <= n ==> At(lo, hi, x, q) == At(lo, hi, Next(lo, hi, x), q - 1);
      match rest
      case Found(y, m) => Found(y, m + 1)
      case Exhausted(z) => Exhausted(z)
  }

  /** A scan of at least hi - lo probes fails exactly when every slot of
      [lo, hi) is occupied. */
  lemma ProbeComplete<X>(s: seq<Option<X>>, lo: int, hi: int, x: int, n: nat)
    requires 0 <= lo <= x < hi <= |s| && n >= hi - lo
    ensures Probe(s, lo, hi, x, n).Exhausted? <==> forall y :: lo <= y < hi ==> s[y].Some?
  {
    if Probe(s, lo, hi, x, n).Exhausted? {
      forall y | lo <= y < hi
        ensures s[y].Some?
      {
        Reaches(lo, hi, x, y);
      }
    }
  }

  /** `y` is the first empty slot a circular scan of [lo, hi) from `x`
      meets: it is empty and every slot probed before it is occupied. */
  ghost predicate FirstFit<X>(s: seq<Option<X>>, lo: int, hi: int, x: int, y: int)
    requires 0 <= lo <= x < hi <= |s|
  {
    exists n: nat :: n < hi - lo && At(lo, hi, x, n) == y && s[y].None?
      && forall q :: 0 <= q < n ==> s[At(lo, hi, x, q)].Some?
  }

  /** Number of occupied slots. */
  function Occupied<X>(s: seq<Option<X>>): (c: nat)
    ensures c <= |s|
  {
    if |s| == 0 then 0 else (if s[0].Some? then 1 else 0) + Occupied(s[1..])
  }

  /** Storing into one slot changes the count by what left and what came in. */
  lemma {:induction false} OccupiedSet<X>(s: seq<Option<X>>, i: int, v: Option<X>)
    requires 0 <= i < |s|
    ensures Occupied(s[i := v]) == Occupied(s) - (if s[i].Some? then 1 else 0) + (if v.Some? then 1 else 0)
  {
    if i > 0 {
      assert s[i := v][1..] == s[1..][i - 1 := v];
      OccupiedSet(s[1..], i - 1, v);
    }
  }

  /** The count equals the capacity exactly when every slot is occupied. */
  lemma {:induction false} OccupiedFull<X>(s: seq<Option<X>>)
    ensures Occupied(s) == |s| <==> forall i :: 0 <= i < |s| ==> s[i].Some?
  {
    if |s| > 0 {
      OccupiedFull(s[1..]);
      if Occupied(s) == |s| {
        forall i | 0 <= i < |s|
          ensures s[i].Some?
        {
          if i > 0 {
            assert s[i] == s[1..][i - 1];
          }
        }
      }
      if forall i :: 0 <= i < |s| ==> s[i].Some? {
        assert forall i :: 0 <= i < |s| - 1 ==> s[1..][i] == s[i + 1];
      }
    }
  }

  /** An array with no occupied slot counts zero. */
  lemma {:induction false} OccupiedEmpty<X>(s: seq<Option<X>>)
    requires forall i :: 0 <= i < |s| ==> s[i].None?
    ensures Occupied(s) == 0
  {
    if |s| > 0 {
      assert forall i :: 0 <= i < |s| - 1 ==> s[1..][i] == s[i + 1];
      OccupiedEmpty(s[1..]);
    }
  }
}
