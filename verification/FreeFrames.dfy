/** Counting the free page entries of sys/memory/phy_page.c, and what an operation that searches them
    (find_free_page_entry) may take. used_by is 0 for a free frame. */
module FreeFrames {
  /** How many of the first n frames are free. */
  ghost function FreeBelow(u: seq<nat>, n: nat): nat
    requires n <= |u|
  {
    if n == 0 then 0 else FreeBelow(u, n - 1) + (if u[n - 1] == 0 then 1 else 0)
  }

  ghost function FreeCount(u: seq<nat>): nat {
    FreeBelow(u, |u|)
  }

  /** An operation takes at most `most` frames. It fails only when it needs one more and none is free:
      `most` free frames are enough. */
  ghost predicate Took(u: seq<nat>, u': seq<nat>, ok: bool, most: int) {
    && FreeCount(u') + most >= FreeCount(u) + (if ok then 0 else 1)
    && (!ok ==> FreeCount(u') == 0)
  }

  lemma {:induction false} NoneFreeBelow(u: seq<nat>, n: nat)
    requires n <= |u|
    ensures FreeBelow(u, n) == 0 <==> forall f :: 0 <= f < n ==> u[f] != 0
  {
    if n > 0 { NoneFreeBelow(u, n - 1); }
  }

  /** No frame is free exactly if no page entry is marked free. */
  lemma NoneFree(u: seq<nat>)
    ensures FreeCount(u) == 0 <==> forall f :: 0 <= f < |u| ==> u[f] != 0
  {
    NoneFreeBelow(u, |u|);
  }

  lemma {:induction false} FreeBelowSet(u: seq<nat>, f: nat, v: nat, n: nat)
    requires f < |u| && n <= |u|
    ensures FreeBelow(u[f := v], n) == FreeBelow(u, n) + if f < n then (if v == 0 then 1 else 0) - (if u[f] == 0 then 1 else 0) else 0
  {
    if n > 0 { FreeBelowSet(u, f, v, n - 1); }
  }

  lemma FrameTaken(u: seq<nat>, f: nat, v: nat)
    requires f < |u| && u[f] == 0 && v != 0
    ensures FreeCount(u[f := v]) == FreeCount(u) - 1
  {
    FreeBelowSet(u, f, v, |u|);
  }

  lemma FrameGivenBack(u: seq<nat>, f: nat)
    requires f < |u|
    ensures FreeCount(u[f := 0]) >= FreeCount(u)
  {
    FreeBelowSet(u, f, 0, |u|);
  }

  /** FreeCount is the number of free frames. */
  lemma {:induction false} FreeBelowIsSize(u: seq<nat>, n: nat)
    requires n <= |u|
    ensures FreeBelow(u, n) == |set f | 0 <= f < n && u[f] == 0|
  {
    if n > 0 {
      FreeBelowIsSize(u, n - 1);
      var below := set f | 0 <= f < n - 1 && u[f] == 0;
      assert (set f | 0 <= f < n && u[f] == 0) == if u[n - 1] == 0 then below + {n - 1} else below;
    }
  }

  /** find_free_page_entry: the first free entry, or |u|. */
  method FindFree(u: seq<nat>) returns (f: nat)
    ensures f <= |u| && (f < |u| ==> u[f] == 0) && forall g :: 0 <= g < f ==> u[g] != 0
  {
    f := 0;
    while f < |u| && u[f] != 0
      invariant f <= |u| && forall g :: 0 <= g < f ==> u[g] != 0
    {
      f := f + 1;
    }
  }
}
