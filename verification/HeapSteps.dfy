/** The steps of sys/memory/kmalloc.c on raw memory: scanning, linking, coalescing, splitting,
    freeing. Each method is tied to a predicate over the memories and views before and after. */
module HeapSteps {
  import opened Words
  import opened HeapModel

  /** Every block that starts in [a, e) is free. */
  ghost predicate FreeRun(m: seq<Word>, v: View, a: int, e: int) {
    forall s :: s in v.starts && a <= s < e ==> 0 <= s < |m| && IsFree(m, s)
  }

  ghost predicate LiveRun(m: seq<Word>, v: View, a: int, e: int) {
    forall s :: s in v.starts && a <= s < e ==> 0 <= s < |m| && !IsFree(m, s)
  }

  /** The members of s that are not strictly inside (a, e). */
  ghost function Outside(s: set<int>, a: int, e: int): set<int> {
    set t | t in s && (t <= a || t >= e)
  }

  lemma StepBack(m: seq<Word>, v: View, s: int) returns (q: int)
    requires Tiled(m, v) && s in v.starts && s != v.lo
    ensures 0 < s < |m| && q == s - 2 * m[s - 1].BlockSize()
    ensures q in v.starts && 0 < q < |m| && End(m, q) == s
    ensures SameTag(m[q], m[s - 1]) && m[s - 1].BlockSize() != 0 && m[s - 1].Alloc() <= 1
    ensures forall t :: t in v.starts && q < t ==> s <= t
  {
    assert Block(m, v, s);
    q := s - 2 * m[s - 1].BlockSize();
    assert Block(m, v, q);
    forall t | t in v.starts && q < t
      ensures s <= t
    {
      assert Apart(m, q, t);
    }
  }

  lemma StepAhead(m: seq<Word>, v: View, s: int)
    requires Tiled(m, v) && s in v.starts
    ensures 0 < s && s + 4 <= End(m, s) <= v.hi < |m| && m[s].BlockSize() != 0 && m[s].Alloc() <= 1
    ensures End(m, s) == v.hi || End(m, s) in v.starts
    ensures SameTag(m[s], m[End(m, s) - 1])
    ensures forall t :: t in v.starts && s < t ==> End(m, s) <= t
  {
    assert Block(m, v, s);
    forall t | t in v.starts && s < t
      ensures End(m, s) <= t
    {
      assert Apart(m, s, t);
    }
  }

  /** sf_coalescing, first loop: the first block of the run of free blocks that ends with header. */
  method FirstOfRun(mem: array<Word>, ghost v: View, header: int, onlyForward: bool) returns (a: int, complaints: int)
    requires Tiled(mem[..], v) && header in v.starts && IsFree(mem[..], header)
    ensures a in v.starts && a <= header && FreeRun(mem[..], v, a, header + 1)
    ensures if onlyForward then a == header else a == v.lo || mem[a - 1].Alloc() == 1
    ensures complaints == 0
  {
    ghost var m := mem[..];
    a, complaints := header, 0;
    while mem[a - 1].Alloc() == 0 && mem[a - 1].BlockSize() != 0 && !onlyForward
      invariant a in v.starts && 0 < a <= header && FreeRun(m, v, a, header + 1)
      invariant onlyForward ==> a == header
      invariant complaints == 0
      decreases a
    {
      var q := StepBack(m, v, a);
      a := a - 2 * mem[a - 1].BlockSize();
      complaints := complaints + if mem[a].Alloc() != 0 then 1 else 0;
    }
    if a != v.lo { var q := StepBack(m, v, a); }
  }

  /** sf_coalescing, second loop: the last block of the run of free blocks that begins with header,
      and the index e just past it. */
  method LastOfRun(mem: array<Word>, ghost v: View, header: int) returns (last: int, e: int, complaints: int)
    requires Tiled(mem[..], v) && header in v.starts && IsFree(mem[..], header)
    ensures last in v.starts && header <= last < mem.Length && End(mem[..], last) == e <= v.hi
    ensures FreeRun(mem[..], v, header, e)
    ensures e == v.hi || (e in v.starts && mem[e].Alloc() == 1)
    ensures complaints == 0
  {
    ghost var m := mem[..];
    ghost var l := header;
    StepAhead(m, v, header);
    var nextFooter := header + 2 * mem[header].BlockSize() - 1;
    complaints := 0;
    while mem[nextFooter + 1].Alloc() == 0 && mem[nextFooter + 1].BlockSize() != 0
      invariant l in v.starts && header <= l && End(m, l) == nextFooter + 1 <= v.hi
      invariant nextFooter + 1 == v.hi || nextFooter + 1 in v.starts
      invariant FreeRun(m, v, header, nextFooter + 1)
      invariant complaints == 0
      decreases v.hi - nextFooter
    {
      l := nextFooter + 1;
      StepAhead(m, v, l);
      nextFooter := nextFooter + 2 * mem[nextFooter + 1].BlockSize();
      complaints := complaints + if mem[nextFooter].Alloc() != 0 then 1 else 0;
    }
    StepAhead(m, v, l);
    if nextFooter + 1 != v.hi { StepAhead(m, v, nextFooter + 1); }
    last, e := nextFooter - 2 * mem[nextFooter].BlockSize() + 1, nextFooter + 1;
  }

  /** sf_free_of, first scan: the nearest free block below header, or 0. */
  method PreviousFree(mem: array<Word>, ghost v: View, header: int) returns (p: int, complaints: int)
    requires Tiled(mem[..], v) && header in v.starts
    ensures p == 0 || (p in v.starts && 0 < p < header && mem[p].Alloc() == 0)
    ensures LiveRun(mem[..], v, p + 1, header)
    ensures complaints == 0
  {
    ghost var m := mem[..];
    var prevHeader := header;
    p, complaints := 0, 0;
    while mem[prevHeader - 1].Alloc() == 1 && mem[prevHeader - 1].BlockSize() != 0
      invariant prevHeader in v.starts && 0 < prevHeader <= header
      invariant LiveRun(m, v, prevHeader, header)
      invariant complaints == 0
      decreases prevHeader
    {
      var q := StepBack(m, v, prevHeader);
      prevHeader := prevHeader - 2 * mem[prevHeader - 1].BlockSize();
      complaints := complaints + if mem[prevHeader].Alloc() == 0 then 1 else 0;
    }
    if prevHeader != v.lo { var q := StepBack(m, v, prevHeader); }
    if mem[prevHeader - 1].BlockSize() != 0 {
      p := prevHeader - 2 * mem[prevHeader - 1].BlockSize();
    }
  }

  /** sf_free_of, second scan: the nearest free block above header, or 0. */
  method NextFree(mem: array<Word>, ghost v: View, header: int) returns (n: int, complaints: int)
    requires Tiled(mem[..], v) && header in v.starts
    ensures n == 0 || (n in v.starts && header < n < mem.Length && mem[n].Alloc() == 0)
    ensures LiveRun(mem[..], v, header + 1, if n == 0 then v.hi else n)
    ensures complaints == 0
  {
    ghost var m := mem[..];
    StepAhead(m, v, header);
    var nextFooter := header + 2 * mem[header].BlockSize() - 1;
    n, complaints := 0, 0;
    while mem[nextFooter + 1].Alloc() == 1 && mem[nextFooter + 1].BlockSize() != 0
      invariant header <= nextFooter < v.hi
      invariant nextFooter + 1 == v.hi || nextFooter + 1 in v.starts
      invariant LiveRun(m, v, header + 1, nextFooter + 1)
      invariant complaints == 0
      decreases v.hi - nextFooter
    {
      StepAhead(m, v, nextFooter + 1);
      nextFooter := nextFooter + 2 * mem[nextFooter + 1].BlockSize();
      complaints := complaints + if mem[nextFooter].Alloc() == 0 then 1 else 0;
    }
    if nextFooter + 1 != v.hi { StepAhead(m, v, nextFooter + 1); }
    if mem[nextFooter + 1].BlockSize() != 0 {
      var f := nextFooter + 2 * mem[nextFooter + 1].BlockSize();
      n := f - 2 * mem[f].BlockSize() + 1;
    }
  }

  /** A free block x that ends at e, linked between p and n, with its neighbours linked back. */
  ghost predicate PutFree(m: seq<Word>, x: int, e: int, p: int, n: int)
  {
    && 0 < x && x + 4 <= e <= |m| && (e - x) % 2 == 0 && e - x < 0x2000_0000
    && m[x] == Tag(0, (e - x) / 2, 0) && m[e - 1] == m[x]
    && Next(m, x) == n && Prev(m, x) == p
    && (p != 0 ==> 0 < p < |m| - 2 && Next(m, p) == x)
    && (n != 0 ==> 0 < n < |m| - 2 && Prev(m, n) == x)
  }

  /** Live blocks stay blocks and keep every word. */
  ghost predicate LiveKept(m: seq<Word>, v: View, m': seq<Word>, v': View) {
    forall s {:trigger SameBlock(m, m', s)} :: s in v.starts && 0 <= s < |m| && !IsFree(m, s) ==> s in v'.starts && SameBlock(m, m', s)
  }

  /** The written words of a step that puts one free block x in a region [a, e). */
  ghost predicate OnlyRegion(m: seq<Word>, m': seq<Word>, a: int, e: int, p: int, n: int) {
    && |m| == |m'|
    && (forall i :: 0 <= i < |m| && !(a <= i < e) && i != Slot(p, 1, a) && i != Slot(n, 2, a) ==> m'[i] == m[i])
  }

  lemma RunExtent(m: seq<Word>, v: View, a: int, last: int, e: int)
    requires Tiled(m, v) && a in v.starts && last in v.starts && a <= last < |m| && End(m, last) == e
    ensures 0 < a && a + 4 <= e <= v.hi < |m| && (e - a) % 2 == 0
    ensures e == v.hi || e in v.starts
    ensures forall t :: t in v.starts && last < t ==> e <= t
  {
    StepAhead(m, v, last);
    assert Block(m, v, a);
    if e != v.hi { assert Block(m, v, e); }
    OddGap(a, e);
    if a < last { assert Apart(m, a, last); }
  }

  lemma OddGap(a: int, e: int)
    requires a % 2 == 1 && e % 2 == 1
    ensures (e - a) % 2 == 0
  {
  }

  lemma RunNeighbours(m: seq<Word>, v: View, a: int, last: int, e: int)
    requires WellFormed(m, v) && a in v.starts && last in v.starts && a <= last
    requires 0 < a && last < |m| - 2 && End(m, last) == e && IsFree(m, a) && IsFree(m, last)
    ensures Below(FreeBlocks(m, v), a, Prev(m, a)) && Above(FreeBlocks(m, v), e - 1, Next(m, last))
    ensures Prev(m, a) == 0 || 0 < Prev(m, a) <= a - 4
    ensures Next(m, last) == 0 || e <= Next(m, last) < v.hi - 2
  {
    var F := FreeBlocks(m, v);
    RunExtent(m, v, last, last, e);
    assert a in F && last in F;
    assert Linked(m, F, a) && Linked(m, F, last);
    if Prev(m, a) != 0 { Disjoint(m, v, Prev(m, a), a); }
    if Next(m, last) != 0 { Disjoint(m, v, Next(m, last), last); }
  }

  /** The run of free blocks [a, e), last of which is `last`, merged into one. */
  lemma MergeRun(m: seq<Word>, v: View, m': seq<Word>, v': View, a: int, last: int, e: int)
    requires WellFormed(m, v) && a in v.starts && last in v.starts && a <= last
    requires 0 < a && last < |m| - 2 && End(m, last) == e && FreeRun(m, v, a, e)
    requires OnlyRegion(m, m', a, e, Prev(m, a), Next(m, last))
    requires PutFree(m', a, e, Prev(m, a), Next(m, last))
    requires v'.lo == v.lo && v'.hi == v.hi && v'.head == if Prev(m, a) == 0 then a else v.head
    requires forall s :: s in v'.starts <==> s in v.starts && (s <= a || s >= e)
    ensures Rebuilding(m, v, m', v', a, e, e, a, Prev(m, a), Next(m, last))
  {
    RunExtent(m, v, last, last, e);
    RunExtent(m, v, a, last, e);
    RunNeighbours(m, v, a, last, e);
    assert Block(m, v, a);
  }

  /** What sf_coalescing does, from its header argument to its result a. */
  ghost predicate Merged(m: seq<Word>, v: View, m': seq<Word>, v': View, header: int, onlyForward: bool, a: int, e: int) {
    && |m'| == |m| && WellFormed(m, v) && WellFormed(m', v') && LiveKept(m, v, m', v') && NoNewLive(m, v, m', v', -1)
    && 0 < a <= header < |m| && a < |m'|
    && a in v.starts && header in v.starts && FreeRun(m, v, a, e)
    && a in v'.starts && IsFree(m', a) && End(m', a) == e
    && End(m, header) <= e
    && (e == v.hi || (e in v.starts && 0 <= e < |m| && m[e].Alloc() == 1))
    && (if onlyForward then a == header else a == v.lo || m[a - 1].Alloc() == 1)
    && v'.lo == v.lo && v'.hi == v.hi
    && (forall s :: s in v'.starts <==> s in v.starts && (s <= a || s >= e))
    && (forall i :: a + 2 < i < e - 1 ==> m'[i] == m[i])
    && (SpacedBut(m, v, header) ==> Coalesced(m', v', if onlyForward then header else 0))
  }

  /** No two free blocks are adjacent, except that header may be next to others. */
  ghost predicate SpacedBut(m: seq<Word>, v: View, header: int) {
    forall s {:trigger Separated(m, v, s, header)} :: s in v.starts && s != header ==> Separated(m, v, s, header)
  }

  lemma SpacedWeaken(m: seq<Word>, v: View, x: int)
    requires Tiled(m, v) && Coalesced(m, v, 0)
    ensures Coalesced(m, v, x) && SpacedBut(m, v, x)
  {
    forall s | s in v.starts
      ensures Separated(m, v, s, x)
    {
      StepAhead(m, v, s);
      assert Separated(m, v, s, 0);
    }
  }

  /** The scans of sf_coalescing found the run [a, e) around header. */
  ghost predicate RunFound(m: seq<Word>, v: View, header: int, onlyForward: bool, a: int, last: int, e: int) {
    && WellFormed(m, v)
    && 0 < a <= header <= last < |m| - 2 && End(m, last) == e
    && a in v.starts && header in v.starts && last in v.starts && FreeRun(m, v, a, e)
    && End(m, header) <= e && last < e
    && (e == v.hi || (e in v.starts && 0 <= e < |m| && m[e].Alloc() == 1))
    && (if onlyForward then a == header else a == v.lo || m[a - 1].Alloc() == 1)
  }

  lemma RunReady(m: seq<Word>, v: View, header: int, onlyForward: bool, a: int, last: int, e: int)
    requires RunFound(m, v, header, onlyForward, a, last, e)
    ensures 0 < a && a + 4 <= e <= |m| && (e - a) % 2 == 0
    ensures Prev(m, a) == 0 || 0 < Prev(m, a) <= a - 4
    ensures Next(m, last) == 0 || e <= Next(m, last) < |m| - 2
  {
    RunExtent(m, v, a, last, e);
    RunNeighbours(m, v, a, last, e);
  }

  lemma RunSpaced(m: seq<Word>, v: View, header: int, onlyForward: bool, a: int, last: int, e: int)
    requires RunFound(m, v, header, onlyForward, a, last, e) && SpacedBut(m, v, header)
    ensures Spaced(m, v, a, e, e, a)
  {
    forall s | s in v.starts && (s < a || s >= e)
      ensures Separated(m, v, s, a)
    {
      assert Separated(m, v, s, header);
      StepAhead(m, v, s);
      if a < header { assert End(m, s) <= a || header < End(m, s); }
    }
  }

  lemma MergeCoalesced(m: seq<Word>, v: View, m': seq<Word>, v': View, header: int, onlyForward: bool, a: int, last: int, e: int)
    requires RunFound(m, v, header, onlyForward, a, last, e)
    requires Rebuilding(m, v, m', v', a, e, e, a, Prev(m, a), Next(m, last))
    ensures SpacedBut(m, v, header) ==> Coalesced(m', v', if onlyForward then header else 0)
  {
    if SpacedBut(m, v, header) {
      RunSpaced(m, v, header, onlyForward, a, last, e);
      RebuildCoalesced(m, v, m', v', a, e, e, a, Prev(m, a), Next(m, last));
    }
  }

  lemma Merge(m: seq<Word>, v: View, m': seq<Word>, v': View, header: int, onlyForward: bool, a: int, last: int, e: int)
    requires RunFound(m, v, header, onlyForward, a, last, e)
    requires OnlyRegion(m, m', a, e, Prev(m, a), Next(m, last))
    requires PutFree(m', a, e, Prev(m, a), Next(m, last))
    requires forall i :: a + 2 < i < e - 1 ==> m'[i] == m[i]
    requires v' == View(v.lo, v.hi, Outside(v.starts, a, e), if Prev(m, a) == 0 then a else v.head)
    ensures Merged(m, v, m', v', header, onlyForward, a, e)
  {
    MergeRun(m, v, m', v', a, last, e);
    Rebuild(m, v, m', v', a, e, e, a, Prev(m, a), Next(m, last));
    forall s | s in v'.starts && 0 <= s < |m| && !IsFree(m', s)
      ensures s in v.starts && !IsFree(m, s)
    {
      OutsideTag(m, v, m', v', a, e, e, a, Prev(m, a), Next(m, last), s);
    }
    MergeCoalesced(m, v, m', v', header, onlyForward, a, last, e);
  }

  method FindRun(mem: array<Word>, ghost v: View, header: int, onlyForward: bool) returns (a: int, last: int, e: int, complaints: int)
    requires WellFormed(mem[..], v) && header in v.starts && IsFree(mem[..], header)
    ensures RunFound(mem[..], v, header, onlyForward, a, last, e)
    ensures complaints == 0
  {
    var c;
    a, complaints := FirstOfRun(mem, v, header, onlyForward);
    last, e, c := LastOfRun(mem, v, header);
    complaints := complaints + c;
    Disjoint(mem[..], v, last, header);
    Disjoint(mem[..], v, last, a);
  }

  method StoreLink(mem: array<Word>, i: int, target: int)
    requires 0 <= i < mem.Length && 0 <= target < WORD_LIMIT
    modifies mem
    ensures mem[i].Value() == target
    ensures forall j :: 0 <= j < mem.Length && j != i ==> mem[j] == old(mem[j])
  {
    mem[i] := Raw(target);
  }

  /** Tags and links of a free block [x, e) between the free blocks p and n (0: none). */
  method WriteFree(mem: array<Word>, x: int, e: int, p: int, n: int)
    requires 0 < x && x + 4 <= e <= mem.Length <= WINDOW && (e - x) % 2 == 0
    requires p == 0 || 0 < p < p + 4 <= x
    requires n == 0 || e <= n < mem.Length - 2
    modifies mem
    ensures PutFree(mem[..], x, e, p, n)
    ensures OnlyRegion(old(mem[..]), mem[..], x, e, p, n)
    ensures forall i :: x + 2 < i < e - 1 ==> mem[i] == old(mem[i])
  {
    StoreLink(mem, x + 1, n);
    StoreLink(mem, x + 2, p);
    if n != 0 { StoreLink(mem, n + 2, x); }
    if p != 0 { StoreLink(mem, p + 1, x); }
    var tag := Tag(0, (e - x) / 2, 0);
    mem[x] := tag;
    mem[e - 1] := tag;
  }

  /** Words of a block for a request: whole 16-byte units, and the two tags. */
  function RealWords(size: nat): nat {
    (size + 15) / 16 * 2 + 2
  }

  lemma RealWordsFit(size: nat)
    ensures RealWords(size) % 2 == 0 && size <= 8 * (RealWords(size) - 2) < size + 16
    ensures size > 0 ==> RealWords(size) >= 4
  {
  }

  /** Words taken from a free block of n words: a rest of fewer than four words is not split off. */
  function Taken(n: int, size: nat): int {
    if n - 4 < RealWords(size) then n else RealWords(size)
  }

  /** What sf_allocate does to the free block h: it becomes live, with the exact words it needs. */
  ghost predicate Allocated(m: seq<Word>, v: View, m': seq<Word>, v': View, h: int, words: int, size: nat) {
    && |m'| == |m| && WellFormed(m, v) && WellFormed(m', v') && LiveKept(m, v, m', v')
    && 0 < h < |m| && h in v.starts && h in v'.starts
    && m'[h].Alloc() == 1 && m'[h].Requested() == size && Len(m', h) == words
    && v'.lo == v.lo && v'.hi == v.hi
    && NoNewLive(m, v, m', v', h)
    && End(m', h) <= |m| && (forall i :: h < i < End(m', h) - 1 ==> m'[i] == m[i])
    && (Coalesced(m, v, h) ==> Coalesced(m', v', 0))
  }

  /** Blocks live after a step were live before it, except h. */
  ghost predicate NoNewLive(m: seq<Word>, v: View, m': seq<Word>, v': View, h: int) {
    forall s {:trigger s in v'.starts} :: s in v'.starts && s != h && 0 <= s < |m'| && !IsFree(m', s) ==>
        s in v.starts && 0 <= s < |m| && !IsFree(m, s)
  }

  lemma BlockReplaced(m: seq<Word>, v: View, m': seq<Word>, v': View, h: int, y: int, e: int, x: int, p: int, n: int)
    requires Rebuilding(m, v, m', v', h, y, e, x, p, n) && 0 < h < |m| && End(m, h) == e
    ensures WellFormed(m', v')
    ensures IsFree(m, h) ==> LiveKept(m, v, m', v')
    ensures y == e || x == y ==> NoNewLive(m, v, m', v', h)
  {
    StepAhead(m, v, h);
    Rebuild(m, v, m', v', h, y, e, x, p, n);
    forall s | s in v'.starts && s != h && s != y && 0 <= s < |m'| && !IsFree(m', s)
      ensures s in v.starts && !IsFree(m, s)
    {
      OutsideTag(m, v, m', v', h, y, e, x, p, n, s);
    }
    if y == e && e in v.starts {
      OutsideTag(m, v, m', v', h, y, e, x, p, n, e);
    }
  }

  lemma AllocateCoalesced(m: seq<Word>, v: View, m': seq<Word>, v': View, h: int, y: int, e: int, x: int, p: int, n: int)
    requires Rebuilding(m, v, m', v', h, y, e, x, p, n) && 0 < h < |m| && End(m, h) == e
    requires Coalesced(m, v, h) && IsFree(m, h) && x != h
    ensures Coalesced(m', v', 0)
  {
    StepAhead(m, v, h);
    assert Separated(m, v, h, h);
    assert Spaced(m, v, h, y, e, x);
    RebuildCoalesced(m, v, m', v', h, y, e, x, p, n);
  }

  lemma AllocateStep(m: seq<Word>, v: View, m': seq<Word>, v': View, h: int, y: int, e: int, size: nat)
    requires WellFormed(m, v) && h in v.starts && 0 < h < |m| - 2 && IsFree(m, h) && End(m, h) == e
    requires size < 0x1_0000_0000
    requires Rebuilding(m, v, m', v', h, y, e, if y < e then y else 0, Prev(m, h), Next(m, h))
    requires m'[h].Alloc() == 1 && m'[h].Requested() == size
    requires forall i :: h < i < y - 1 ==> m'[i] == m[i]
    ensures Allocated(m, v, m', v', h, y - h, size)
  {
    var x := if y < e then y else 0;
    BlockReplaced(m, v, m', v', h, y, e, x, Prev(m, h), Next(m, h));
    if Coalesced(m, v, h) {
      AllocateCoalesced(m, v, m', v', h, y, e, x, Prev(m, h), Next(m, h));
    }
  }

  /** Both tags of a live block of the given even number of words. */
  method WriteLive(mem: array<Word>, h: int, words: int, size: nat, atFooter: nat)
    requires 0 <= h && h + 4 <= h + words <= mem.Length <= WINDOW && words % 2 == 0
    requires size < 0x1_0000_0000 && atFooter < 0x1_0000_0000
    requires size <= 8 * (words - 2)
    modifies mem
    ensures Stands(mem[..], h, h + words) || h % 2 == 0
    ensures mem[h].Alloc() == 1 && mem[h].Requested() == size
    ensures forall i :: 0 <= i < mem.Length && i != h && i != h + words - 1 ==> mem[i] == old(mem[i])
  {
    mem[h] := Tag(1, words / 2, size);
    mem[h + words - 1] := Tag(1, words / 2, atFooter);
  }

  /** Links p and n to each other. */
  method Unlink(mem: array<Word>, p: int, n: int)
    requires mem.Length <= WINDOW && (p == 0 || 0 < p < mem.Length - 2) && (n == 0 || 0 < n < mem.Length - 2)
    requires p == 0 || n == 0 || p + 4 <= n
    modifies mem
    ensures p != 0 ==> mem[p + 1] == Raw(n)
    ensures n != 0 ==> mem[n + 2] == Raw(p)
    ensures forall i :: 0 <= i < mem.Length && (p == 0 || i != p + 1) && (n == 0 || i != n + 2) ==> mem[i] == old(mem[i])
  {
    if n != 0 { mem[n + 2] := Raw(p); }
    if p != 0 { mem[p + 1] := Raw(n); }
  }

  lemma TakeAllRebuilding(m: seq<Word>, v: View, m1: seq<Word>, m': seq<Word>, v': View, h: int, e: int, p: int, n: int)
    requires WellFormed(m, v) && h in v.starts && 0 < h < |m| - 2 && IsFree(m, h) && End(m, h) == e
    requires p == Prev(m, h) && n == Next(m, h)
    requires |m| == |m1| == |m'|
    requires Stands(m1, h, e) && m1[h].Alloc() == 1
    requires forall i :: 0 <= i < |m| && i != h && i != e - 1 ==> m1[i] == m[i]
    requires p != 0 ==> 0 < p < |m| - 2 && Next(m', p) == n
    requires n != 0 ==> 0 < n < |m| - 2 && Prev(m', n) == p
    requires forall i :: 0 <= i < |m| && (p == 0 || i != p + 1) && (n == 0 || i != n + 2) ==> m'[i] == m1[i]
    requires v' == v.(head := if p == 0 then n else v.head)
    ensures Rebuilding(m, v, m', v', h, e, e, 0, p, n)
    ensures m'[h] == m1[h] && (forall i :: h < i < e - 1 ==> m'[i] == m[i])
  {
    RunExtent(m, v, h, h, e);
    RunNeighbours(m, v, h, h, e);
  }

  lemma TakeSomeRebuilding(m: seq<Word>, v: View, m1: seq<Word>, m': seq<Word>, v': View, h: int, y: int, e: int, p: int, n: int)
    requires WellFormed(m, v) && h in v.starts && 0 < h < |m| - 2 && IsFree(m, h) && End(m, h) == e
    requires p == Prev(m, h) && n == Next(m, h)
    requires |m| == |m1| == |m'| && h + 4 <= y <= e - 4
    requires Stands(m1, h, y) && m1[h].Alloc() == 1
    requires forall i :: 0 <= i < |m| && i != h && i != y - 1 ==> m1[i] == m[i]
    requires PutFree(m', y, e, p, n) && OnlyRegion(m1, m', y, e, p, n)
    requires v' == View(v.lo, v.hi, v.starts + {y}, if p == 0 then y else v.head)
    ensures Rebuilding(m, v, m', v', h, y, e, y, p, n)
    ensures m'[h] == m1[h] && (forall i :: h < i < y - 1 ==> m'[i] == m[i])
  {
    RunExtent(m, v, h, h, e);
    RunNeighbours(m, v, h, h, e);
    StepAhead(m, v, h);
  }

  /** sf_allocate's writes when the whole block is taken. */
  lemma TakeAll(m: seq<Word>, v: View, m1: seq<Word>, m': seq<Word>, v': View, h: int, e: int, p: int, n: int, size: nat)
    requires WellFormed(m, v) && h in v.starts && 0 < h < |m| - 2 && IsFree(m, h) && End(m, h) == e
    requires p == Prev(m, h) && n == Next(m, h)
    requires |m| == |m1| == |m'| && size < 0x1_0000_0000
    requires Stands(m1, h, e) && m1[h].Alloc() == 1 && m1[h].Requested() == size
    requires forall i :: 0 <= i < |m| && i != h && i != e - 1 ==> m1[i] == m[i]
    requires p != 0 ==> 0 < p < |m| - 2 && Next(m', p) == n
    requires n != 0 ==> 0 < n < |m| - 2 && Prev(m', n) == p
    requires forall i :: 0 <= i < |m| && (p == 0 || i != p + 1) && (n == 0 || i != n + 2) ==> m'[i] == m1[i]
    requires v' == v.(head := if p == 0 then n else v.head)
    ensures Allocated(m, v, m', v', h, e - h, size)
  {
    TakeAllRebuilding(m, v, m1, m', v', h, e, p, n);
    AllocateStep(m, v, m', v', h, e, e, size);
  }

  /** sf_allocate's writes when the block is split at y. */
  lemma TakeSome(m: seq<Word>, v: View, m1: seq<Word>, m': seq<Word>, v': View, h: int, words: int, y: int, e: int, p: int, n: int, size: nat)
    requires WellFormed(m, v) && h in v.starts && 0 < h < |m| - 2 && IsFree(m, h) && End(m, h) == e
    requires p == Prev(m, h) && n == Next(m, h)
    requires |m| == |m1| == |m'| && y == h + words && h + 4 <= y <= e - 4 && size < 0x1_0000_0000
    requires Stands(m1, h, y) && m1[h].Alloc() == 1 && m1[h].Requested() == size
    requires forall i :: 0 <= i < |m| && i != h && i != y - 1 ==> m1[i] == m[i]
    requires PutFree(m', y, e, p, n) && OnlyRegion(m1, m', y, e, p, n)
    requires v' == View(v.lo, v.hi, v.starts + {y}, if p == 0 then y else v.head)
    ensures Allocated(m, v, m', v', h, words, size)
  {
    TakeSomeRebuilding(m, v, m1, m', v', h, y, e, p, n);
    AllocateStep(m, v, m', v', h, y, e, size);
  }

  /** A free block in its list: its extent, its alignment and its neighbours. */
  lemma FreeBlockFacts(m: seq<Word>, v: View, h: int)
    requires WellFormed(m, v) && h in v.starts && 0 <= h < |m| && IsFree(m, h)
    ensures h % 2 == 1 && h + 4 <= End(m, h) <= v.hi < |m|
    ensures Prev(m, h) == 0 || 0 < Prev(m, h) <= h - 4
    ensures Next(m, h) == 0 || End(m, h) <= Next(m, h) < |m| - 2
    ensures Prev(m, h) == 0 ==> v.head == h
  {
    assert Block(m, v, h);
    RunNeighbours(m, v, h, h, End(m, h));
    assert h in FreeBlocks(m, v);
  }

  /** The live block h has both tags marked free and is not yet in the list. */
  ghost predicate Marked(m: seq<Word>, v: View, m1: seq<Word>, h: int) {
    && |m1| == |m| && WellFormed(m, v) && h in v.starts && 0 < h < |m| && !IsFree(m, h)
    && h + 4 <= End(m, h) <= |m|
    && m1[h] == Tag(0, m[h].BlockSize(), 0) && m1[End(m, h) - 1] == m1[h]
    && (forall i :: 0 <= i < |m| && i != h && i != End(m, h) - 1 ==> m1[i] == m[i])
  }

  lemma MarkedTags(m: seq<Word>, v: View, m1: seq<Word>, h: int, s: int)
    requires Marked(m, v, m1, h) && s in v.starts && s != h
    ensures 0 <= s < |m| && Untouched(m, m1, s)
  {
    Disjoint(m, v, s, h);
  }

  lemma MarkedTiles(m: seq<Word>, v: View, m1: seq<Word>, h: int)
    requires Marked(m, v, m1, h)
    ensures Tiled(m1, v)
  {
    var e := End(m, h);
    StepAhead(m, v, h);
    assert Block(m, v, h);
    forall s | s in v.starts && (s < h || s >= e)
      ensures 0 <= s < |m| && Untouched(m, m1, s)
    {
      MarkedTags(m, v, m1, h, s);
    }
    Retile(m, v, m1, v, h, e, e);
  }

  /** The neighbours found by the scans of sf_free_of are those of the free list. */
  lemma ScannedNeighbours(m: seq<Word>, v: View, m1: seq<Word>, h: int, p: int, n: int)
    requires Marked(m, v, m1, h)
    requires p == 0 || (p in v.starts && 0 < p < h && IsFree(m1, p))
    requires n == 0 || (n in v.starts && h < n < |m| && IsFree(m1, n))
    requires LiveRun(m1, v, p + 1, h) && LiveRun(m1, v, h + 1, if n == 0 then v.hi else n)
    ensures Below(FreeBlocks(m, v), h, p) && Above(FreeBlocks(m, v), End(m, h) - 1, n)
    ensures p == 0 || p + 4 <= h
    ensures n == 0 || End(m, h) <= n < v.hi - 2
  {
    if p != 0 { MarkedTags(m, v, m1, h, p); Disjoint(m, v, p, h); }
    if n != 0 { MarkedTags(m, v, m1, h, n); Disjoint(m, v, n, h); }
    forall t | t in FreeBlocks(m, v)
      ensures t < h ==> t <= p
      ensures t > End(m, h) - 1 ==> 0 != n <= t
    {
      MarkedTags(m, v, m1, h, t);
    }
  }

  /** What sf_free_of does to the live block h before it coalesces. */
  ghost predicate Freed(m: seq<Word>, v: View, m': seq<Word>, v': View, h: int) {
    && |m'| == |m| && WellFormed(m, v) && WellFormed(m', v')
    && 0 < h < |m| && h in v.starts && !IsFree(m, h) && IsFree(m', h) && End(m', h) == End(m, h)
    && v'.lo == v.lo && v'.hi == v.hi && v'.starts == v.starts
    && OthersKept(m, v, m', v', h) && NoNewLive(m, v, m', v', h)
    && End(m, h) <= |m| && (forall i :: h + 2 < i < End(m, h) - 1 ==> m'[i] == m[i])
    && (Coalesced(m, v, 0) ==> SpacedBut(m', v', h))
  }

  /** Live blocks other than h stay blocks and keep every word. */
  ghost predicate OthersKept(m: seq<Word>, v: View, m': seq<Word>, v': View, h: int) {
    forall s {:trigger SameBlock(m, m', s)} :: s in v.starts && s != h && 0 <= s < |m| && !IsFree(m, s) ==> s in v'.starts && SameBlock(m, m', s)
  }

  lemma FreeRebuilding(m: seq<Word>, v: View, m1: seq<Word>, m': seq<Word>, v': View, h: int, p: int, n: int)
    requires Marked(m, v, m1, h)
    requires Below(FreeBlocks(m, v), h, p) && Above(FreeBlocks(m, v), End(m, h) - 1, n)
    requires PutFree(m', h, End(m, h), p, n) && OnlyRegion(m1, m', h, End(m, h), p, n)
    requires v' == v.(head := if p == 0 then h else v.head)
    ensures Rebuilding(m, v, m', v', h, End(m, h), End(m, h), h, p, n)
  {
    StepAhead(m, v, h);
    assert Block(m, v, h);
  }

  lemma FreeSpaced(m: seq<Word>, v: View, m': seq<Word>, v': View, h: int, p: int, n: int)
    requires 0 < h < |m| && End(m, h) > h
    requires Rebuilding(m, v, m', v', h, End(m, h), End(m, h), h, p, n) && Coalesced(m, v, 0)
    ensures SpacedBut(m', v', h)
  {
    var e := End(m, h);
    StepAhead(m, v, h);
    forall s | s in v'.starts && s != h
      ensures Separated(m', v', s, h)
    {
      OutsideTag(m, v, m', v', h, e, e, h, p, n, s);
      assert Separated(m, v, s, 0);
      var t := End(m, s);
      if t != v.hi && t != h { OutsideTag(m, v, m', v', h, e, e, h, p, n, t); }
    }
  }

  lemma FreeStep(m: seq<Word>, v: View, m1: seq<Word>, m': seq<Word>, v': View, h: int, p: int, n: int)
    requires Marked(m, v, m1, h)
    requires Below(FreeBlocks(m, v), h, p) && Above(FreeBlocks(m, v), End(m, h) - 1, n)
    requires PutFree(m', h, End(m, h), p, n) && OnlyRegion(m1, m', h, End(m, h), p, n)
    requires forall i :: h + 2 < i < End(m, h) - 1 ==> m'[i] == m1[i]
    requires v' == v.(head := if p == 0 then h else v.head)
    ensures Freed(m, v, m', v', h)
  {
    var e := End(m, h);
    FreeRebuilding(m, v, m1, m', v', h, p, n);
    BlockReplaced(m, v, m', v', h, e, e, h, p, n);
    StepAhead(m, v, h);
    Rebuild(m, v, m', v', h, e, e, h, p, n);
    if Coalesced(m, v, 0) { FreeSpaced(m, v, m', v', h, p, n); }
    assert v'.starts == v.starts;
  }

  /** sf_allocate, when the whole block is taken; head is freelist_head. */
  method TakeWhole(mem: array<Word>, ghost v: View, head: int, h: int, size: nat) returns (head': int)
    requires mem.Length <= WINDOW && WellFormed(mem[..], v) && v.head == head && h in v.starts && IsFree(mem[..], h)
    requires size < 0x1_0000_0000 && size <= Capacity(mem[..], h)
    modifies mem
    ensures Allocated(old(mem[..]), v, mem[..], v.(head := head'), h, old(Len(mem[..], h)), size)
  {
    ghost var m := mem[..];
    FreeBlockFacts(m, v, h);
    var words := 2 * mem[h].BlockSize();
    var prevFree, nextFree := mem[h + 2].Value(), mem[h + 1].Value();
    WriteLive(mem, h, words, size, 0);
    ghost var m1 := mem[..];
    Unlink(mem, prevFree, nextFree);
    head' := if prevFree == 0 then nextFree else head;
    TakeAll(m, v, m1, mem[..], v.(head := head'), h, h + words, prevFree, nextFree, size);
  }

  /** sf_allocate, when the rest of the block stays free. */
  method TakeFront(mem: array<Word>, ghost v: View, head: int, h: int, words: int, size: nat) returns (head': int)
    requires mem.Length <= WINDOW && WellFormed(mem[..], v) && v.head == head && h in v.starts && IsFree(mem[..], h)
    requires size < 0x1_0000_0000 && size <= 8 * (words - 2)
    requires 4 <= words <= Len(mem[..], h) - 4 && words % 2 == 0
    modifies mem
    ensures Allocated(old(mem[..]), v, mem[..], View(v.lo, v.hi, v.starts + {h + words}, head'), h, words, size)
  {
    ghost var m := mem[..];
    FreeBlockFacts(m, v, h);
    var rest, e := h + words, h + 2 * mem[h].BlockSize();
    var prevFree, nextFree := mem[h + 2].Value(), mem[h + 1].Value();
    EvenGap(mem[h].BlockSize(), words, h);
    WriteLive(mem, h, words, size, 0);
    ghost var m1 := mem[..];
    WriteFree(mem, rest, e, prevFree, nextFree);
    head' := if prevFree == 0 then rest else head;
    ghost var v' := View(v.lo, v.hi, v.starts + {rest}, head');
    TakeSome(m, v, m1, mem[..], v', h, words, rest, e, prevFree, nextFree, size);
  }

  lemma EvenGap(b: int, words: int, h: int)
    requires words % 2 == 0
    ensures (h + 2 * b - (h + words)) % 2 == 0
  {
  }

  /** sf_free_of up to its call of sf_coalescing; head is freelist_head. */
  method PutBack(mem: array<Word>, ghost v: View, head: int, h: int) returns (head': int, complaints: int)
    requires mem.Length <= WINDOW && WellFormed(mem[..], v) && v.head == head && h in v.starts && mem[h].Alloc() == 1
    modifies mem
    ensures Freed(old(mem[..]), v, mem[..], v.(head := head'), h)
    ensures complaints == 0
  {
    ghost var m := mem[..];
    StepAhead(m, v, h);
    var e := h + 2 * mem[h].BlockSize();
    mem[h] := Tag(0, mem[h].BlockSize(), 0);
    mem[e - 1] := Tag(0, mem[e - 1].BlockSize(), 0);
    ghost var m1 := mem[..];
    MarkedTiles(m, v, m1, h);
    var p, n, c;
    p, complaints := PreviousFree(mem, v, h);
    n, c := NextFree(mem, v, h);
    complaints := complaints + c;
    ScannedNeighbours(m, v, m1, h, p, n);
    WriteFree(mem, h, e, p, n);
    head' := if p == 0 then h else head;
    FreeStep(m, v, m1, mem[..], v.(head := head'), h, p, n);
  }

  /** sf_coalescing: one free block [a, e) in place of the run of free blocks around header. */
  method MergeAround(mem: array<Word>, ghost v: View, head: int, header: int, onlyForward: bool)
    returns (a: int, e: int, head': int, complaints: int)
    requires mem.Length <= WINDOW && WellFormed(mem[..], v) && v.head == head && header in v.starts && mem[header].Alloc() == 0
    modifies mem
    ensures Merged(old(mem[..]), v, mem[..], View(v.lo, v.hi, Outside(v.starts, a, e), head'), header, onlyForward, a, e)
    ensures complaints == 0
  {
    ghost var m := mem[..];
    var last;
    a, last, e, complaints := FindRun(mem, v, header, onlyForward);
    RunReady(m, v, header, onlyForward, a, last, e);
    var prevPt, nextPt := mem[a + 2].Value(), mem[last + 1].Value();
    WriteFree(mem, a, e, prevPt, nextPt);
    head' := if prevPt == 0 then a else head;
    ghost var v' := View(v.lo, v.hi, Outside(v.starts, a, e), head');
    Merge(m, v, mem[..], v', header, onlyForward, a, last, e);
  }
}
