/** The kernel heap of sys/memory/kmalloc.c over the words of the kernel-break window. */
module KernelHeap {
  import opened Bytes
  import opened Words
  import opened HeapModel
  import opened HeapSteps
  import opened HeapPayload

  const MAX_REQUEST := 0x1_0000_0000  // checkSizeValidity's limit, 4 << 30

  /** The largest request whose size computation stays within a 32-bit int. */
  const INT_SAFE := 0x7FFF_FFE0

  ghost predicate Quiet(m: seq<Word>, v: View, m': seq<Word>, v': View) {
    |m'| == |m| && LiveKept(m, v, m', v') && NoNewLive(m, v, m', v', -1)
  }

  lemma QuietSelf(m: seq<Word>, v: View)
    requires Tiled(m, v)
    ensures Quiet(m, v, m, v)
  {
    forall s | s in v.starts
      ensures SameBlock(m, m, s)
    {
      StepAhead(m, v, s);
    }
  }

  lemma QuietThen(m: seq<Word>, v: View, m1: seq<Word>, v1: View, m2: seq<Word>, v2: View, h: int)
    requires |m| == |m1| == |m2|
    requires Quiet(m, v, m1, v1) && LiveKept(m1, v1, m2, v2) && NoNewLive(m1, v1, m2, v2, h)
    ensures LiveKept(m, v, m2, v2) && NoNewLive(m, v, m2, v2, h)
  {
    forall s | s in v.starts && 0 <= s < |m| && !IsFree(m, s)
      ensures s in v2.starts && SameBlock(m, m2, s)
    {
      assert SameBlock(m, m1, s);
      assert SameBlock(m1, m2, s);
    }
  }

  predicate SizeAccepted(size: nat) {
    0 < size <= MAX_REQUEST
  }

  /** sf_malloc computes the bytes it needs in an int: among the sizes that checkSizeValidity lets
      through, the computation is exact for precisely those up to INT_SAFE. */
  lemma SizeNeededExact(size: nat)
    requires SizeAccepted(size)
    ensures ToInt(8 * RealWords(size)) == 8 * RealWords(size) <==> size <= INT_SAFE
  {
  }

  /** A request of 4 GB passes checkSizeValidity and then looks for 16 bytes only. */
  lemma SizeNeededWraps()
    ensures SizeAccepted(0x1_0000_0000) && ToInt(8 * RealWords(0x1_0000_0000)) == 16
  {
  }

  /** The block h is newly handed out for a request of `size` bytes: big enough, by less than 32
      bytes of slack, not live before; all blocks live before are live and untouched, and nothing
      else is live. */
  ghost predicate Provided(m: seq<Word>, v: View, m': seq<Word>, v': View, h: int, size: nat) {
    && |m'| == |m| && 0 < h < |m'| && h in v'.starts
    && m'[h].Alloc() == 1 && m'[h].Requested() == size
    && size <= Capacity(m', h) < size + 32
    && !(h in v.starts && !IsFree(m, h))
    && LiveKept(m, v, m', v') && NoNewLive(m, v, m', v', h)
  }

  lemma ProvidedBy(m: seq<Word>, v: View, m1: seq<Word>, v1: View, m2: seq<Word>, v2: View, h: int, size: nat)
    requires Quiet(m, v, m1, v1) && 0 < h < |m1|
    requires IsFree(m1, h) && RealWords(size) <= Len(m1, h)
    requires Allocated(m1, v1, m2, v2, h, Taken(Len(m1, h), size), size)
    ensures Provided(m, v, m2, v2, h, size)
  {
    QuietThen(m, v, m1, v1, m2, v2, h);
    RealWordsFit(size);
    assert h in v.starts && !IsFree(m, h) ==> SameBlock(m, m1, h);
  }

  ghost predicate SomeFits(m: seq<Word>, v: View, need: int) {
    exists t :: t in v.starts && 0 <= t < |m| && IsFree(m, t) && need <= Len(m, t)
  }

  /** h is the lowest free block of at least `need` words. */
  ghost predicate FirstFit(m: seq<Word>, v: View, need: int, h: int) {
    && h in v.starts && 0 <= h < |m| && IsFree(m, h) && need <= Len(m, h)
    && forall t {:trigger t in v.starts} :: t in v.starts && 0 <= t < h && IsFree(m, t) ==> Len(m, t) < need
  }

  lemma NoneFits(m: seq<Word>, v: View, need: int)
    requires forall t :: t in FreeBlocks(m, v) ==> 8 * Len(m, t) < 8 * need
    ensures !SomeFits(m, v, need)
  {
  }

  lemma FoundFirst(m: seq<Word>, v: View, need: int, h: int)
    requires h in FreeBlocks(m, v) && 8 * Len(m, h) >= 8 * need
    requires forall t :: t in FreeBlocks(m, v) && t < h ==> 8 * Len(m, t) < 8 * need
    ensures FirstFit(m, v, need, h)
  {
    forall t | t in v.starts && 0 <= t < h && IsFree(m, t)
      ensures Len(m, t) < need
    {
      assert t in FreeBlocks(m, v);
    }
  }

  /** A free block at the end of the heap is one of the free blocks. */
  lemma TailIsFree(m: seq<Word>, v: View, need: int)
    requires WellFormed(m, v) && 0 < need && !SomeFits(m, v, need)
    ensures TailFree(m, v.hi + 1) < need
  {
    var t := LastBlock(m, v);
    StepAhead(m, v, t);
  }

  /** Block h is live no more; all other live blocks are untouched, and nothing else is live. */
  ghost predicate Released(m: seq<Word>, v: View, m': seq<Word>, v': View, h: int) {
    && |m'| == |m| && 0 < h < |m|
    && !(h in v'.starts && !IsFree(m', h))
    && OthersKept(m, v, m', v', h) && NoNewLive(m, v, m', v', -1)
  }

  lemma ReleasedBy(m: seq<Word>, v: View, m1: seq<Word>, v1: View, m2: seq<Word>, v2: View, h: int, onlyForward: bool, a: int, e: int)
    requires Freed(m, v, m1, v1, h) && Merged(m1, v1, m2, v2, h, onlyForward, a, e)
    ensures Released(m, v, m2, v2, h)
  {
    forall s | s in v.starts && s != h && 0 <= s < |m| && !IsFree(m, s)
      ensures s in v2.starts && SameBlock(m, m2, s)
    {
      assert SameBlock(m, m1, s);
      assert SameBlock(m1, m2, s);
    }
  }

  /** h, freed in place, now reaches over a free block right after it; its old payload after the two
      link words is untouched. */
  ghost predicate ForwardGrown(m: seq<Word>, v: View, m': seq<Word>, h: int) {
    && |m'| == |m| && 0 < h < |m| && End(m, h) <= End(m', h) && End(m, h) <= |m|
    && (End(m, h) != v.hi ==> 0 <= End(m, h) < |m| && (IsFree(m, End(m, h)) ==> End(m, End(m, h)) <= End(m', h)))
    && (forall i :: h + 2 < i < End(m, h) - 1 ==> m'[i] == m[i])
  }

  /** When only coalescing forward, h grows over a free block right after it. */
  lemma ForwardRoom(m: seq<Word>, v: View, m1: seq<Word>, v1: View, m2: seq<Word>, v2: View, h: int, e: int)
    requires Freed(m, v, m1, v1, h) && Merged(m1, v1, m2, v2, h, true, h, e)
    ensures ForwardGrown(m, v, m2, h)
  {
    StepAhead(m, v, h);
    var t := End(m, h);
    if t != v.hi && IsFree(m, t) {
      StepAhead(m, v, t);
    }
  }

  /** A new block behind the aligned pointer r, with all requested bytes zero. */
  ghost predicate Zeroed(m: seq<Word>, v: View, m': seq<Word>, v': View, r: int, size: nat) {
    && r % 2 == 0 && Provided(m, v, m', v', r - 1, size)
    && forall k: nat {:trigger ByteAt(m', r, k)} :: k < size ==> r + k / 8 < |m'| && ByteAt(m', r, k) == 0
  }

  /** The live block h has become, or moved to, h', which has room for `size` bytes, with less than 32
      bytes of slack, and holds the first bytes of h; all other live blocks are untouched and nothing else is live. */
  ghost predicate Reallocated(m: seq<Word>, v: View, m': seq<Word>, v': View, h: int, h': int, size: nat) {
    && |m'| == |m| && 0 < h < |m| && 0 < h' < |m'| && h' in v'.starts
    && m'[h'].Alloc() == 1 && m'[h'].Requested() == size && size <= Capacity(m', h') < size + 32
    && OthersKept(m, v, m', v', h) && NoNewLive(m, v, m', v', h')
    && (h' != h ==> !(h in v'.starts && !IsFree(m', h)) && !(h' in v.starts && !IsFree(m, h')))
    && SameBytes(m, h + 1, m', h' + 1, Min(m[h].Requested(), size))
  }

  lemma SameWordsSameBytes(m: seq<Word>, m': seq<Word>, p: int, words: int, n: nat)
    requires |m'| == |m| && 0 <= p <= p + words <= |m| && n <= 8 * words
    requires forall i :: p <= i < p + words ==> m'[i] == m[i]
    ensures SameBytes(m, p, m', p, n)
  {
  }

  lemma LiveToOthers(m: seq<Word>, v: View, m': seq<Word>, v': View, h: int)
    requires LiveKept(m, v, m', v')
    ensures OthersKept(m, v, m', v', h)
  {
    forall s | s in v.starts && s != h && 0 <= s < |m| && !IsFree(m, s)
      ensures s in v'.starts && SameBlock(m, m', s)
    {
      assert SameBlock(m, m', s);
    }
  }

  lemma OthersThen(m: seq<Word>, v: View, m1: seq<Word>, v1: View, m2: seq<Word>, v2: View, h: int, g: int)
    requires |m| == |m1| == |m2| && OthersKept(m, v, m1, v1, h)
    requires g == h || !(g in v.starts && 0 <= g < |m| && !IsFree(m, g))
    requires OthersKept(m1, v1, m2, v2, g)
    ensures OthersKept(m, v, m2, v2, h)
  {
    forall s | s in v.starts && s != h && 0 <= s < |m| && !IsFree(m, s)
      ensures s in v2.starts && SameBlock(m, m2, s)
    {
      assert SameBlock(m, m1, s);
      assert SameBlock(m1, m2, s);
    }
  }

  /** Branch 1.1 of sf_realloc: freed forward into m1, allocated again in m2, links restored in m3. */
  ghost predicate ThreeSteps(m: seq<Word>, v: View, m1: seq<Word>, v1: View, m2: seq<Word>, v2: View, m3: seq<Word>, h: int, size: nat) {
    && WellFormed(m, v) && 0 < h && h + 2 < |m| && h in v.starts && !IsFree(m, h)
    && Released(m, v, m1, v1, h) && ForwardGrown(m, v, m1, h)
    && Len(m, h) < RealWords(size) <= Len(m1, h)
    && Allocated(m1, v1, m2, v2, h, Taken(Len(m1, h), size), size)
    && |m3| == |m2| && m3[h + 1] == m[h + 1] && m3[h + 2] == m[h + 2]
    && (forall i :: 0 <= i < |m2| && i != h + 1 && i != h + 2 ==> m3[i] == m2[i])
  }

  lemma GrownOthers(m: seq<Word>, v: View, m1: seq<Word>, v1: View, m2: seq<Word>, v2: View, m3: seq<Word>, h: int, size: nat)
    requires ThreeSteps(m, v, m1, v1, m2, v2, m3, h, size)
    ensures OthersKept(m, v, m3, v2, h)
    ensures NoNewLive(m, v, m3, v2, h)
    ensures WellFormed(m3, v2) && (Coalesced(m1, v1, h) ==> Coalesced(m3, v2, 0))
  {
    StepAhead(m2, v2, h);
    RealWordsFit(size);
    LiveToOthers(m1, v1, m2, v2, h);
    OthersThen(m, v, m1, v1, m2, v2, h, h);
    PayloadWritten(m2, v2, m3, h);
    OthersThen(m, v, m2, v2, m3, v2, h, h);
  }

  lemma GrownBytes(m: seq<Word>, v: View, m1: seq<Word>, v1: View, m2: seq<Word>, v2: View, m3: seq<Word>, h: int, size: nat)
    requires ThreeSteps(m, v, m1, v1, m2, v2, m3, h, size)
    ensures SameBytes(m, h + 1, m3, h + 1, Min(m[h].Requested(), size))
  {
    assert Block(m, v, h);
    SameWordsSameBytes(m, m3, h + 1, Len(m, h) - 2, Min(m[h].Requested(), size));
  }

  lemma GrownRoom(m: seq<Word>, v: View, m1: seq<Word>, v1: View, m2: seq<Word>, v2: View, m3: seq<Word>, h: int, size: nat)
    requires ThreeSteps(m, v, m1, v1, m2, v2, m3, h, size)
    ensures h in v2.starts && m3[h].Alloc() == 1 && m3[h].Requested() == size && size <= Capacity(m3, h) < size + 32
  {
    Slack(Len(m3, h), size);
  }

  lemma GrownInPlace(m: seq<Word>, v: View, m1: seq<Word>, v1: View, m2: seq<Word>, v2: View, m3: seq<Word>, h: int, size: nat)
    requires ThreeSteps(m, v, m1, v1, m2, v2, m3, h, size)
    ensures Reallocated(m, v, m3, v2, h, h, size)
    ensures WellFormed(m3, v2) && (Coalesced(m1, v1, h) ==> Coalesced(m3, v2, 0))
  {
    GrownOthers(m, v, m1, v1, m2, v2, m3, h, size);
    GrownBytes(m, v, m1, v1, m2, v2, m3, h, size);
    GrownRoom(m, v, m1, v1, m2, v2, m3, h, size);
  }

  /** Two live blocks do not share a word, tags included. */
  lemma LiveApart(m: seq<Word>, v: View, s: int, t: int)
    requires Tiled(m, v) && s in v.starts && t in v.starts && s != t
    ensures 0 < s < |m| && 0 < t < |m|
    ensures End(m, s) <= t || End(m, t) <= s
  {
    Disjoint(m, v, s, t);
  }

  /** The requested bytes of block h are now in block g as well; nothing else has changed. */
  ghost predicate Copied(m: seq<Word>, m': seq<Word>, h: int, g: int) {
    && |m'| == |m| && 0 < h < |m| && 0 < g < |m|
    && (forall i :: 0 <= i < |m| && !(g < i < End(m, g) - 1) ==> m'[i] == m[i])
    && SameBytes(m, h + 1, m', g + 1, m[h].Requested())
  }

  /** The payload of block h is now at the aligned pointer r, for a request of the given size. */
  ghost predicate Resized(m: seq<Word>, v: View, m': seq<Word>, v': View, h: int, r: int, size: nat) {
    r % 2 == 0 && Reallocated(m, v, m', v', h, r - 1, size)
  }

  /** A block that stays where it is. */
  lemma StaysPut(m: seq<Word>, v: View, m': seq<Word>, v': View, h: int, r: int, size: nat)
    requires WellFormed(m, v) && h in v.starts && Reallocated(m, v, m', v', h, h, size) && r == h + 1
    ensures Resized(m, v, m', v', h, r, size)
  {
    assert Block(m, v, h);
  }

  /** Branch 1.2 of sf_realloc: a new block g in m1, bytes copied in m2, h released in m3. */
  ghost predicate MoveSteps(m: seq<Word>, v: View, m1: seq<Word>, v1: View, m2: seq<Word>, m3: seq<Word>, v3: View, h: int, g: int, size: nat) {
    && h in v.starts && 0 < h < |m| && m[h].Alloc() == 1 && WellFormed(m1, v1)
    && Provided(m, v, m1, v1, g, size) && h < |m1| && m1[h] == m[h] && Copied(m1, m2, h, g)
    && Released(m2, v1, m3, v3, h)
    && m[h].Requested() <= size
  }

  lemma MovedSource(m: seq<Word>, v: View, m1: seq<Word>, v1: View, h: int, g: int, size: nat)
    requires h in v.starts && 0 < h < |m| && m[h].Alloc() == 1 && WellFormed(m1, v1)
    requires Provided(m, v, m1, v1, g, size)
    ensures h in v1.starts && SameBlock(m, m1, h) && m1[h] == m[h] && h != g
  {
    assert SameBlock(m, m1, h);
  }

  lemma MovedOthers(m: seq<Word>, v: View, m1: seq<Word>, v1: View, m2: seq<Word>, m3: seq<Word>, v3: View, h: int, g: int, size: nat)
    requires MoveSteps(m, v, m1, v1, m2, m3, v3, h, g, size)
    ensures OthersKept(m, v, m3, v3, h) && NoNewLive(m, v, m3, v3, g)
    ensures g in v3.starts && SameBlock(m2, m3, g) && m3[g] == m1[g]
  {
    MovedSource(m, v, m1, v1, h, g, size);
    PayloadWritten(m1, v1, m2, g);
    LiveToOthers(m, v, m1, v1, h);
    OthersThen(m, v, m1, v1, m2, v1, h, g);
    OthersThen(m, v, m2, v1, m3, v3, h, h);
    assert SameBlock(m2, m3, g);
  }

  lemma MovedBytes(m: seq<Word>, v: View, m1: seq<Word>, v1: View, m2: seq<Word>, m3: seq<Word>, v3: View, h: int, g: int, size: nat)
    requires MoveSteps(m, v, m1, v1, m2, m3, v3, h, g, size)
    requires SameBlock(m2, m3, g) && m2[g] == m1[g]
    requires SameBlock(m, m1, h) && m[h].Requested() <= Capacity(m, h)
    ensures SameBytes(m, h + 1, m3, g + 1, m[h].Requested())
  {
  }

  lemma Moved(m: seq<Word>, v: View, m1: seq<Word>, v1: View, m2: seq<Word>, m3: seq<Word>, v3: View, h: int, g: int, size: nat)
    requires MoveSteps(m, v, m1, v1, m2, m3, v3, h, g, size) && WellFormed(m, v)
    ensures Reallocated(m, v, m3, v3, h, g, size)
  {
    assert Block(m, v, h);
    StepAhead(m1, v1, g);
    MovedSource(m, v, m1, v1, h, g, size);
    MovedOthers(m, v, m1, v1, m2, m3, v3, h, g, size);
    MovedBytes(m, v, m1, v1, m2, m3, v3, h, g, size);
  }

  lemma BiggerThanBlock(words: int, size: nat)
    requires words < RealWords(size) && words % 2 == 0 && words >= 4
    ensures 8 * (words - 2) < size
  {
  }

  /** sf_malloc's search: the first free block, in list order, of at least the given bytes; last is
      the block before it, or the last of the list if there is none. */
  method FindFit(mem: array<Word>, ghost F: set<int>, head: int, bytes: int) returns (cursor: int, last: int, complaints: int)
    requires FreeList(mem[..], F, head)
    requires forall t :: t in F ==> 0 <= t < mem.Length && IsFree(mem[..], t)
    ensures cursor != 0 ==> cursor in F && 8 * Len(mem[..], cursor) >= bytes
    ensures forall t :: t in F && (cursor == 0 || t < cursor) ==> 8 * Len(mem[..], t) < bytes
    ensures last == 0 || (last in F && (cursor == 0 || last < cursor))
    ensures forall t :: t in F && (cursor == 0 || t < cursor) ==> t <= last
    ensures complaints == 0
  {
    ghost var m := mem[..];
    cursor, last, complaints := head, 0, 0;
    ghost var limit := mem.Length;
    while cursor != 0
      invariant cursor == 0 || cursor in F
      invariant last == 0 || (last in F && (cursor == 0 || last < cursor))
      invariant forall t :: t in F && (cursor == 0 || t < cursor) ==> t <= last
      invariant forall t :: t in F && (cursor == 0 || t < cursor) ==> 8 * Len(m, t) < bytes
      invariant complaints == 0
      decreases if cursor == 0 then 0 else 1 + limit - cursor
    {
      complaints := complaints + if mem[cursor].Alloc() == 1 then 1 else 0;
      if 16 * mem[cursor].BlockSize() >= bytes { break; }
      assert Linked(m, F, cursor);
      last := cursor;
      cursor := mem[cursor + 1].Value();
    }
  }

  /** The words of the free block at the end of the heap, or 0. */
  function TailFree(m: seq<Word>, brk: int): int
    requires 2 <= brk <= |m|
  {
    if m[brk - 2].Alloc() == 0 then 2 * m[brk - 2].BlockSize() else 0
  }

  /** `pages` is the least number of pages that covers `missing` words. */
  ghost predicate LeastPages(pages: int, missing: int) {
    512 * (pages - 1) < missing <= 512 * pages
  }

  lemma WholePages(brk: int, pages: int)
    requires brk % 512 == 0
    ensures (brk + 512 * pages) % 512 == 0 && brk % 2 == 0 && (brk + 512 * pages) % 2 == 0
  {
    var q := brk / 512;
    WholePage(q);
    WholePage(q + pages);
    assert brk == 512 * q && brk + 512 * pages == 512 * (q + pages);
  }

  lemma WholePage(k: int)
    ensures (512 * k) % 512 == 0 && (512 * k) % 2 == 0
  {
    var n := 512 * k;
    var q, h := n / 512, n / 2;
    assert n == 512 * q + n % 512 && k == q;
    assert n == 2 * h + n % 2 && h == 256 * k;
  }

  /** The words still missing for a block of `need` words; the first page also holds the prologue
      and the epilogue. */
  function Missing(m: seq<Word>, initialized: bool, brk: int, need: int): int
    requires 2 <= brk <= |m|
  {
    if initialized then need - TailFree(m, brk) else need + 2
  }

  /** How many pages a request for a block of `need` words takes: none if a free block fits, and
      otherwise the fewest that make room. It halts exactly if these do not fit below `limit`. */
  ghost predicate Supplied(m: seq<Word>, v: View, initialized: bool, brk: int, limit: int, need: int, pages: int, halted: bool)
    requires 2 <= brk <= |m|
  {
    if SomeFits(m, v, need) then pages == 0 && !halted
    else LeastPages(pages, Missing(m, initialized, brk, need)) && (halted <==> brk + 512 * pages > limit)
  }

  /** The heap has no room for a block of `need` words, and the pages it would take do not fit below
      `limit`. */
  ghost predicate NoRoom(m: seq<Word>, v: View, initialized: bool, brk: int, limit: int, need: int)
    requires 2 <= brk <= |m|
  {
    !SomeFits(m, v, need) && brk + 512 * ((Missing(m, initialized, brk, need) + 511) / 512) > limit
  }

  lemma SuppliedOrNoRoom(m: seq<Word>, v: View, initialized: bool, brk: int, limit: int, need: int, pages: int, halted: bool)
    requires 2 <= brk <= |m| && Supplied(m, v, initialized, brk, limit, need, pages, halted)
    ensures halted <==> NoRoom(m, v, initialized, brk, limit, need)
  {
  }

  /** Block h can be made `need` words long where it is, if necessary with the free block after it. */
  ghost predicate RoomAt(m: seq<Word>, h: int, need: int)
    requires 0 <= h < |m|
  {
    || need <= Len(m, h)
    || (End(m, h) < |m| && IsFree(m, End(m, h)) && need <= Len(m, h) + Len(m, End(m, h)) - 2)
  }

  /** The same for a block that is resized: it stays where it is exactly if there is room, and then
      takes no page. */
  ghost predicate Resupplied(m: seq<Word>, v: View, brk: int, limit: int, h: int, need: int, r: int, pages: int, halted: bool)
    requires 2 <= brk <= |m| && 0 <= h < |m|
  {
    if RoomAt(m, h, need) then r == h + 1 && pages == 0 && !halted
    else r != h + 1 && Supplied(m, v, true, brk, limit, need, pages, halted)
  }

  /** sf_initializeFreeBlock before it coalesces, on a heap that already has blocks: the old
      epilogue at start - 1 becomes the header of the new free block. */
  method AppendFree(mem: array<Word>, ghost v: View, head: int, start: int, last: int, brk: int) returns (head': int)
    requires mem.Length <= WINDOW && WellFormed(mem[..], v) && v.head == head && v.hi == start - 1
    requires Below(FreeBlocks(mem[..], v), v.hi, last)
    requires start + 512 <= brk <= mem.Length && brk % 2 == 0
    modifies mem
    ensures Grown(old(mem[..]), v, mem[..], View(v.lo, brk - 1, v.starts + {start - 1}, head'))
  {
    ghost var m := mem[..];
    if last != 0 { Disjoint(m, v, last, last); }
    OddGap(start - 1, brk - 1);
    WriteFree(mem, start - 1, brk - 1, last, 0);
    ghost var m1 := mem[..];
    mem[brk - 1] := ZERO;
    head' := if last == 0 then start - 1 else head;
    AppendStep(m, v, m1, mem[..], head', start, last, brk);
  }

  lemma AppendStep(m: seq<Word>, v: View, m1: seq<Word>, m': seq<Word>, head': int, start: int, last: int, brk: int)
    requires WellFormed(m, v) && v.hi == start - 1 && Below(FreeBlocks(m, v), v.hi, last)
    requires start + 512 <= brk <= |m| && brk % 2 == 0 && (last != 0 ==> last + 4 <= v.hi)
    requires PutFree(m1, start - 1, brk - 1, last, 0) && OnlyRegion(m, m1, start - 1, brk - 1, last, 0)
    requires m' == m1[brk - 1 := ZERO] && head' == if last == 0 then start - 1 else v.head
    ensures Grown(m, v, m', View(v.lo, brk - 1, v.starts + {start - 1}, head'))
  {
    GrowStep(m, v, m', View(v.lo, brk - 1, v.starts + {start - 1}, head'), last);
  }

  /** What the first, non-coalescing part of a growth does. */
  ghost predicate Grown(m: seq<Word>, v: View, m': seq<Word>, v': View) {
    && WellFormed(m, v) && WellFormed(m', v') && Quiet(m, v, m', v')
    && v.hi in v'.starts && 0 < v.hi < |m'| && IsFree(m', v.hi) && End(m', v.hi) == v'.hi
    && v'.lo == v.lo && m'[v.hi - 1].Alloc() == m[v.hi - 1].Alloc()
    && (forall s :: s in v'.starts <==> s in v.starts || s == v.hi)
    && (Coalesced(m, v, 0) ==> SpacedBut(m', v', v.hi))
  }

  lemma GrowStep(m: seq<Word>, v: View, m': seq<Word>, v': View, last: int)
    requires Growing(m, v, m', v', last)
    ensures Grown(m, v, m', v')
  {
    Grow(m, v, m', v', last);
    forall s | s in v'.starts && 0 <= s < |m'| && !IsFree(m', s)
      ensures s in v.starts && !IsFree(m, s)
    {
      GrowTag(m, v, m', v', last, s);
    }
    var t := LastBlock(m, v);
    GrowTag(m, v, m', v', last, t);
  }

  /** The block that coalescing leaves at the end includes a free block at the old end. */
  lemma TailJoined(m: seq<Word>, v: View, m1: seq<Word>, v1: View, m2: seq<Word>, v2: View, a: int, e: int)
    requires Grown(m, v, m1, v1) && Merged(m1, v1, m2, v2, v.hi, false, a, e)
    ensures a <= v.hi - TailFree(m, v.hi + 1)
  {
    var t := LastBlock(m, v);
    StepAhead(m, v, t);
    if IsFree(m, t) {
      Disjoint(m, v, t, v.lo);
      if a != v.hi { Disjoint(m, v, t, a); }
    }
  }

  /** sf_initializeFreeBlock before it coalesces, on the very first pages [start, brk): prologue,
      one free block, epilogue. */
  method FirstFree(mem: array<Word>, start: int, brk: int)
    requires mem.Length <= WINDOW && 512 <= start && start + 512 <= brk <= mem.Length && start % 2 == 0 && brk % 2 == 0
    modifies mem
    ensures WellFormed(mem[..], View(start + 1, brk - 1, {start + 1}, start + 1))
    ensures Coalesced(mem[..], View(start + 1, brk - 1, {start + 1}, start + 1), 0)
    ensures mem[start + 1].Alloc() == 0 && End(mem[..], start + 1) == brk - 1
  {
    OddGap(start + 1, brk - 1);
    WriteFree(mem, start + 1, brk - 1, 0, 0);
    mem[start], mem[brk - 1] := ZERO, ZERO;
    FirstPage(mem[..], View(start + 1, brk - 1, {start + 1}, start + 1));
  }

  lemma MoveReady(m: seq<Word>, v: View, m1: seq<Word>, v1: View, h: int, g: int, size: nat)
    requires WellFormed(m, v) && h in v.starts && 0 < h < |m| && m[h].Alloc() == 1 && WellFormed(m1, v1)
    requires Provided(m, v, m1, v1, g, size) && Len(m, h) < RealWords(size)
    ensures h in v1.starts && m1[h] == m[h] && h != g
    ensures m[h].Requested() <= size <= Capacity(m1, g)
  {
    assert Block(m, v, h);
    BiggerThanBlock(Len(m, h), size);
    MovedSource(m, v, m1, v1, h, g, size);
  }

  /** memcpy of the requested bytes of live block h into live block g. */
  method CopyPayload(mem: array<Word>, ghost v: View, g: int, h: int)
    requires WellFormed(mem[..], v) && Coalesced(mem[..], v, 0) && g != h
    requires g in v.starts && h in v.starts && 0 < g < mem.Length && 0 < h < mem.Length
    requires mem[g].Alloc() == 1 && mem[h].Alloc() == 1 && mem[h].Requested() <= Capacity(mem[..], g)
    modifies mem
    ensures Copied(old(mem[..]), mem[..], h, g)
    ensures WellFormed(mem[..], v) && Coalesced(mem[..], v, 0) && mem[h] == old(mem[h])
  {
    ghost var m := mem[..];
    LiveApart(m, v, g, h);
    StepAhead(m, v, g);
    StepAhead(m, v, h);
    assert Block(m, v, h);
    CopyBytes(mem, g + 1, h + 1, mem[h].Requested());
    PayloadWritten(m, v, mem[..], g);
  }

  /** Branch 2 of sf_realloc: the same block under a new requested size. */
  method Relabel(mem: array<Word>, ghost v: View, h: int, size: nat)
    requires mem.Length <= WINDOW && WellFormed(mem[..], v) && h in v.starts && 0 < h < mem.Length && mem[h].Alloc() == 1
    requires 0 < size <= INT_SAFE && RealWords(size) <= Len(mem[..], h) < RealWords(size) + 4
    modifies mem
    ensures WellFormed(mem[..], v) && (old(Coalesced(mem[..], v, 0)) ==> Coalesced(mem[..], v, 0))
    ensures Reallocated(old(mem[..]), v, mem[..], v, h, h, size)
  {
    ghost var m := mem[..];
    StepAhead(m, v, h);
    var footer := h + 2 * mem[h].BlockSize() - 1;
    mem[h] := Tag(1, mem[h].BlockSize(), size);
    mem[footer] := Tag(1, mem[footer].BlockSize(), size);
    Relabelled(m, v, mem[..], h, footer, size);
  }

  /** A block with room for the request and less than four words more. */
  lemma Slack(words: int, size: nat)
    requires words % 2 == 0 && RealWords(size) <= words < RealWords(size) + 4
    ensures size <= 8 * (words - 2) < size + 32
  {
    RealWordsFit(size);
  }

  lemma Relabelled(m: seq<Word>, v: View, m': seq<Word>, h: int, footer: int, size: nat)
    requires WellFormed(m, v) && h in v.starts && 0 < h < |m| && m[h].Alloc() == 1 && footer == End(m, h) - 1 && h < footer < |m|
    requires RealWords(size) <= Len(m, h) < RealWords(size) + 4 && size < 0x1_0000_0000
    requires m' == m[h := Tag(1, m[h].BlockSize(), size)][footer := Tag(1, m[footer].BlockSize(), size)]
    ensures WellFormed(m', v) && (Coalesced(m, v, 0) ==> Coalesced(m', v, 0)) && Reallocated(m, v, m', v, h, h, size)
  {
    StepAhead(m, v, h);
    assert Block(m, v, h);
    Slack(Len(m, h), size);
    assert v.starts + {} == v.starts;
    Rewrite(m, v, m', v, h, End(m, h));
    SameWordsSameBytes(m, m', h + 1, Len(m, h) - 2, Min(m[h].Requested(), size));
  }

  /** The tail of block h from h + words on is a live block of its own. */
  ghost predicate SplitOff(m: seq<Word>, v: View, m1: seq<Word>, v1: View, h: int, words: int, size: nat) {
    && 0 < h < |m| && h + words < |m| && 4 <= words && Len(m, h) >= words
    && Rewritten(m, v, m1, v1, h, h + words) && h + words < End(m, h)
    && m1[h].Alloc() == 1 && m1[h].Requested() == size && Len(m1, h) == words == RealWords(size) && size <= 8 * (words - 2) < size + 16
    && (forall i :: h < i < h + words - 1 ==> m1[i] == m[i])
  }

  /** The tags of two live blocks [h, h + words) and [h + words, e). */
  method WriteTwo(mem: array<Word>, h: int, words: int, e: int, size: nat)
    requires 0 < h && h % 2 == 1 && 4 <= words && words % 2 == 0 && h + words + 4 <= e <= mem.Length <= WINDOW && e % 2 == 1
    requires size <= 8 * (words - 2) && size < 0x1_0000_0000
    modifies mem
    ensures Stands(mem[..], h, h + words) && Stands(mem[..], h + words, e)
    ensures mem[h].Alloc() == 1 == mem[h + words].Alloc() && mem[h].Requested() == size
    ensures forall i :: 0 <= i < mem.Length && i != h && i != h + words - 1 && i != h + words && i != e - 1 ==> mem[i] == old(mem[i])
  {
    WriteLive(mem, h, words, size, size);
    WriteLive(mem, h + words, e - (h + words), 0, 0);
  }

  /** Two live blocks in the place of one. */
  lemma SplitMade(m: seq<Word>, v: View, m1: seq<Word>, v1: View, h: int, words: int, e: int, size: nat)
    requires WellFormed(m, v) && Coalesced(m, v, 0) && h in v.starts && 0 < h < |m| == |m1| && !IsFree(m, h) && e == End(m, h) <= |m|
    requires v1 == v.(starts := v.starts + {h + words}) && 4 <= words <= e - h - 4 && words % 2 == 0 && words == RealWords(size)
    requires Stands(m1, h, h + words) && Stands(m1, h + words, e)
    requires m1[h].Alloc() == 1 == m1[h + words].Alloc() && m1[h].Requested() == size
    requires forall i :: 0 <= i < |m| && i != h && i != h + words - 1 && i != h + words && i != e - 1 ==> m1[i] == m[i]
    ensures WellFormed(m1, v1) && Coalesced(m1, v1, 0) && SplitOff(m, v, m1, v1, h, words, size)
  {
    StepAhead(m, v, h);
    RealWordsFit(size);
    assert Rewritten(m, v, m1, v1, h, h + words);
    Rewrite(m, v, m1, v1, h, h + words);
  }

  /** Branch 3 of sf_realloc up to its call of sf_free: the tail becomes a live block of its own. */
  method SplitLive(mem: array<Word>, ghost v: View, h: int, words: int, size: nat)
    requires mem.Length <= WINDOW && WellFormed(mem[..], v) && Coalesced(mem[..], v, 0)
    requires h in v.starts && 0 < h < mem.Length && mem[h].Alloc() == 1
    requires 4 <= words <= Len(mem[..], h) - 4 && words == RealWords(size) && size < 0x1_0000_0000
    modifies mem
    ensures SplitOff(old(mem[..]), v, mem[..], v.(starts := v.starts + {h + words}), h, words, size)
    ensures WellFormed(mem[..], v.(starts := v.starts + {h + words})) && Coalesced(mem[..], v.(starts := v.starts + {h + words}), 0)
    ensures h + words < mem.Length && mem[h + words].Alloc() == 1
  {
    ghost var m := mem[..];
    StepAhead(m, v, h);
    assert Block(m, v, h);
    var e := h + 2 * mem[h].BlockSize();
    RealWordsFit(size);
    EvenGap(mem[h].BlockSize(), words, h);
    WriteTwo(mem, h, words, e, size);
    SplitMade(m, v, mem[..], v.(starts := v.starts + {h + words}), h, words, e, size);
  }

  lemma Shrunk(m: seq<Word>, v: View, m1: seq<Word>, v1: View, m2: seq<Word>, v2: View, h: int, words: int, size: nat)
    requires SplitOff(m, v, m1, v1, h, words, size) && Released(m1, v1, m2, v2, h + words)
    ensures Reallocated(m, v, m2, v2, h, h, size) && Len(m2, h) == RealWords(size)
  {
    Rewrite(m, v, m1, v1, h, h + words);
    StepAhead(m, v, h);
    assert h + words !in v.starts;
    OthersThen(m, v, m1, v1, m2, v2, h, h + words);
    assert SameBlock(m1, m2, h);
    SameWordsSameBytes(m, m2, h + 1, words - 2, Min(m[h].Requested(), size));
  }

  /** A request that leaves four words or more of block h gives them back: behind the exact words of
      the request there is one free block that reaches at least to the old end of h. */
  ghost predicate GivesBack(m: seq<Word>, m': seq<Word>, v': View, h: int, size: nat) {
    && 0 <= h < |m| && |m'| == |m|
    && (RealWords(size) <= Len(m, h) - 4 ==>
          && Len(m', h) == RealWords(size) && End(m', h) < |m'|
          && End(m', h) in v'.starts && IsFree(m', End(m', h)) && End(m, h) <= End(m', End(m', h)))
  }

  /** What is cut off a live block that stays is free, and in one piece. */
  lemma CutIsFree(m: seq<Word>, v: View, m': seq<Word>, v': View, h: int, size: nat)
    requires WellFormed(m, v) && WellFormed(m', v') && Coalesced(m', v', 0) && h in v.starts
    requires Reallocated(m, v, m', v', h, h, size) && v'.hi == v.hi && (RealWords(size) <= Len(m, h) - 4 ==> Len(m', h) == RealWords(size))
    ensures GivesBack(m, m', v', h, size)
  {
    StepAhead(m, v, h);
    StepAhead(m', v', h);
    RealWordsFit(size);
    if RealWords(size) <= Len(m, h) - 4 {
      var t := End(m', h);
      NotLiveInside(m, v, m', v', h, t);
      StepAhead(m', v', t);
      assert Separated(m', v', t, 0);
      var u := End(m', t);
      if u < End(m, h) { NotLiveInside(m, v, m', v', h, u); }
    }
  }

  lemma NotLiveInside(m: seq<Word>, v: View, m': seq<Word>, v': View, h: int, t: int)
    requires Tiled(m, v) && h in v.starts && |m'| == |m| && NoNewLive(m, v, m', v', h) && t in v'.starts && 0 < h < t < |m| && t < End(m, h)
    ensures IsFree(m', t)
  {
    StepAhead(m, v, h);
  }

  lemma ProvidedZeroed(m: seq<Word>, v: View, m1: seq<Word>, v1: View, m2: seq<Word>, h: int, size: nat)
    requires Provided(m, v, m1, v1, h, size) && |m2| == |m1| && m2[h] == m1[h]
    requires OthersKept(m1, v1, m2, v1, h) && NoNewLive(m1, v1, m2, v1, -1)
    ensures Provided(m, v, m2, v1, h, size)
  {
    forall s | s in v.starts && 0 <= s < |m| && !IsFree(m, s)
      ensures s in v1.starts && SameBlock(m, m2, s)
    {
      assert SameBlock(m, m1, s);
      assert SameBlock(m1, m2, s);
    }
  }

  class Heap {
    const mem: array<Word>
    var brk: int                    // sbrk(0), in words
    var heapStart: int
    var freelistHead: int
    var firstPageInitialized: bool
    var complaints: int             // consistency complaints printed so far
    ghost var starts: set<int>

    ghost function V(): View
      reads this
    {
      View(heapStart, brk - 1, starts, freelistHead)
    }

    ghost predicate Inner()
      reads this, mem
    {
      brk <= mem.Length <= WINDOW && WellFormed(mem[..], V())
    }

    /** sf_coalescing. */
    method Coalesce(header: int, onlyForward: bool) returns (a: int)
      requires Inner() && header in starts && mem[header].Alloc() == 0
      modifies mem, `freelistHead, `complaints, `starts
      ensures 0 < a < mem.Length
      ensures Merged(old(mem[..]), old(V()), mem[..], V(), header, onlyForward, a, End(mem[..], a))
      ensures complaints == old(complaints)
    {
      var c, e;
      a, e, freelistHead, c := MergeAround(mem, V(), freelistHead, header, onlyForward);
      complaints := complaints + c;
      starts := Outside(starts, a, e);
    }

    /** sf_allocate: the free block h becomes live; what it does not need stays free. */
    method Allocate(h: int, size: nat)
      requires Inner() && h in starts && mem[h].Alloc() == 0
      requires 0 < size < 0x1_0000_0000 && RealWords(size) <= Len(mem[..], h)
      modifies mem, `freelistHead, `complaints, `starts
      ensures Allocated(old(mem[..]), old(V()), mem[..], V(), h, Taken(old(Len(mem[..], h)), size), size)
      ensures complaints == old(complaints)
    {
      FreeBlockFacts(mem[..], V(), h);
      RealWordsFit(size);
      var available, needed := 2 * mem[h].BlockSize(), RealWords(size);
      complaints := complaints + (if h % 2 != 1 then 1 else 0) + (if available < needed then 1 else 0)
        + (if mem[h + 2].Value() == 0 && h != freelistHead then 1 else 0);
      if available - 4 < needed {
        freelistHead := TakeWhole(mem, V(), freelistHead, h, size);
      } else {
        freelistHead := TakeFront(mem, V(), freelistHead, h, needed, size);
        starts := starts + {h + needed};
      }
    }

    /** sf_free_of up to its call of sf_coalescing. */
    method InsertFree(h: int)
      requires Inner() && h in starts && mem[h].Alloc() == 1
      modifies mem, `freelistHead, `complaints
      ensures Freed(old(mem[..]), old(V()), mem[..], V(), h)
      ensures complaints == old(complaints)
    {
      var c;
      freelistHead, c := PutBack(mem, V(), freelistHead, h);
      complaints := complaints + c;
    }

    /** The heap before its first request: the kernel break is 4 MB into the window. */
    constructor (words: nat)
      requires 0x8_0000 <= words <= WINDOW
      ensures Valid() && !firstPageInitialized && complaints == 0 && fresh(mem)
      ensures mem.Length == words && brk == 0x8_0000
    {
      mem := new Word[words](_ => ZERO);
      brk, heapStart, freelistHead := 0x8_0000, 0, 0;
      firstPageInitialized, complaints, starts := false, 0, {};
    }

    /** What holds between two public operations. */
    ghost predicate Valid()
      reads this, mem
    {
      && 512 <= brk <= mem.Length <= WINDOW && brk % 512 == 0
      && (if firstPageInitialized then WellFormed(mem[..], V()) && Coalesced(mem[..], V(), 0)
          else starts == {} && freelistHead == 0 && heapStart == 0)
    }

    /** sf_getMoreSpace: asks for the fewest pages that, with a free block at the end of the heap,
        make room for `bytes`. The system halts when the window is exhausted. */
    method GetMoreSpace(bytes: int, ghost need: int) returns (halted: bool, start: int, pages: int)
      requires 512 <= brk <= mem.Length && brk % 512 == 0 && 0 < need && bytes == 8 * need
      requires firstPageInitialized ==> TailFree(mem[..], brk) < need
      modifies `brk
      ensures LeastPages(pages, Missing(mem[..], firstPageInitialized, old(brk), need)) && start == old(brk)
      ensures halted == (start + 512 * pages > mem.Length)
      ensures brk == if halted then start else start + 512 * pages
    {
      var size := bytes;
      if firstPageInitialized {
        if mem[brk - 2].Alloc() == 0 {
          size := size - 16 * mem[brk - 2].BlockSize();
        }
      } else {
        size := size + 16;
      }
      start, pages := brk, (size + 4095) / 4096;
      halted := brk + 512 * pages > mem.Length;
      if !halted {
        brk := brk + 512 * pages;
      }
    }

    /** sf_initializeFreeBlock on later pages [start, brk): they become one free block, joined to a
        free block at the old end. */
    method InitializeMore(start: int, last: int, ghost v: View) returns (a: int)
      requires 512 <= start && start + 512 <= brk <= mem.Length <= WINDOW && brk % 2 == 0
      requires v == View(heapStart, start - 1, starts, freelistHead)
      requires WellFormed(mem[..], v) && Coalesced(mem[..], v, 0) && Below(FreeBlocks(mem[..], v), v.hi, last)
      modifies mem, `freelistHead, `complaints, `starts
      ensures Ready(a) && a <= start - 1 - old(TailFree(mem[..], start))
      ensures Quiet(old(mem[..]), v, mem[..], V())
      ensures complaints == old(complaints)
    {
      ghost var m := mem[..];
      freelistHead := AppendFree(mem, v, freelistHead, start, last, brk);
      starts := starts + {start - 1};
      ghost var m1, v1 := mem[..], V();
      a := Coalesce(start - 1, false);
      ghost var m2, v2 := mem[..], V();
      QuietThen(m, v, m1, v1, m2, v2, -1);
      TailJoined(m, v, m1, v1, m2, v2, a, End(m2, a));
      StepAhead(m2, v2, a);
    }

    /** sf_initializeFreeBlock on the first pages [start, brk). */
    method InitializeFirst(start: int) returns (a: int)
      requires 512 <= start && start + 512 <= brk <= mem.Length <= WINDOW && start % 2 == 0 && brk % 2 == 0
      requires starts == {}
      modifies mem, `freelistHead, `heapStart, `complaints, `starts
      ensures Ready(a) && a == start + 1
      ensures Quiet(old(mem[..]), old(V()), mem[..], V())
      ensures complaints == old(complaints)
    {
      heapStart := start + 1;
      FirstFree(mem, start, brk);
      freelistHead := start + 1;
      starts := {start + 1};
      ghost var m1, v1 := mem[..], V();
      a := Coalesce(start + 1, false);
      StepAhead(mem[..], V(), a);
    }

    /** A coalesced heap whose last block a is free and reaches the epilogue. */
    ghost predicate Ready(a: int)
      reads this, mem
    {
      && brk <= mem.Length && WellFormed(mem[..], V()) && Coalesced(mem[..], V(), 0)
      && a in starts && 0 < a < mem.Length && mem[a].Alloc() == 0 && End(mem[..], a) == brk - 1
    }

    /** sf_malloc's own call of sf_coalescing after a growth. */
    method CoalesceTail(a: int) returns (b: int)
      requires Ready(a) && mem.Length <= WINDOW
      modifies mem, `freelistHead, `complaints, `starts
      ensures Ready(b) && b <= a
      ensures Quiet(old(mem[..]), old(V()), mem[..], V())
      ensures complaints == old(complaints)
    {
      ghost var m, v := mem[..], V();
      b := Coalesce(a, false);
      SpacedWeaken(m, v, a);
      StepAhead(mem[..], V(), b);
    }

    /** The new pages [start, brk) as a free block at the end of a coalesced heap. */
    method Adopt(start: int, last: int, ghost v: View) returns (a: int)
      requires 512 <= start && start + 512 <= brk <= mem.Length <= WINDOW && start % 2 == 0 && brk % 2 == 0
      requires v == View(heapStart, start - 1, starts, freelistHead)
      requires if firstPageInitialized
        then WellFormed(mem[..], v) && Coalesced(mem[..], v, 0) && Below(FreeBlocks(mem[..], v), v.hi, last)
        else starts == {}
      modifies mem, `freelistHead, `heapStart, `complaints, `starts
      ensures Ready(a)
      ensures a <= if firstPageInitialized then start - 1 - old(TailFree(mem[..], start)) else start + 1
      ensures Quiet(old(mem[..]), v, mem[..], V())
      ensures complaints == old(complaints)
    {
      ghost var m := mem[..];
      if firstPageInitialized {
        a := InitializeMore(start, last, v);
      } else {
        a := InitializeFirst(start);
      }
      ghost var m1, v1 := mem[..], V();
      a := CoalesceTail(a);
      QuietThen(m, v, m1, v1, mem[..], V(), -1);
    }

    /** sf_malloc's second half when no free block fits: more pages, one free block at the end. */
    method Extend(bytes: int, last: int, ghost need: int) returns (halted: bool, a: int, pages: int)
      requires Valid() && 0 < need && bytes == 8 * need
      requires firstPageInitialized ==> Below(FreeBlocks(mem[..], V()), brk - 1, last) && TailFree(mem[..], brk) < need
      modifies mem, this
      ensures LeastPages(pages, Missing(old(mem[..]), old(firstPageInitialized), old(brk), need))
      ensures halted == (old(brk) + 512 * pages > mem.Length)
      ensures halted ==> mem[..] == old(mem[..]) && V() == old(V()) && firstPageInitialized == old(firstPageInitialized)
      ensures !halted ==> firstPageInitialized && Ready(a) && need <= Len(mem[..], a)
      ensures !halted ==> brk == old(brk) + 512 * pages && brk % 512 == 0
      ensures !halted ==> Quiet(old(mem[..]), old(V()), mem[..], V())
      ensures complaints == old(complaints)
    {
      ghost var v := V();
      var start;
      halted, start, pages := GetMoreSpace(bytes, need);
      if halted {
        a := 0;
      } else {
        WholePages(start, pages);
        a := Adopt(start, last, v);
        firstPageInitialized := true;
      }
    }

    /** sf_malloc up to its call of sf_allocate: a free block with room for `need` words, if
        necessary on new pages. */
    method Locate(bytes: int, ghost need: int) returns (halted: bool, h: int, pages: int)
      requires Valid() && 0 < need && bytes == 8 * need
      modifies mem, this
      ensures halted ==> mem[..] == old(mem[..]) && V() == old(V()) && firstPageInitialized == old(firstPageInitialized)
      ensures !halted ==> firstPageInitialized && Valid() && Quiet(old(mem[..]), old(V()), mem[..], V())
      ensures !halted ==> h in starts && 0 < h < mem.Length && mem[h].Alloc() == 0 && need <= Len(mem[..], h)
      ensures brk == old(brk) + if halted then 0 else 512 * pages
      ensures Supplied(old(mem[..]), old(V()), old(firstPageInitialized), old(brk), mem.Length, need, pages, halted)
      ensures old(SomeFits(mem[..], V(), need)) ==> FirstFit(old(mem[..]), old(V()), need, h)
      ensures complaints == old(complaints)
    {
      ghost var m, v := mem[..], V();
      var last, c;
      halted, pages := false, 0;
      h, last, c := FindFit(mem, FreeBlocks(m, v), freelistHead, bytes);
      complaints := complaints + c;
      if h == 0 {
        NoneFits(m, v, need);
        if firstPageInitialized { TailIsFree(m, v, need); }
        halted, h, pages := Extend(bytes, last, need);
      } else {
        assert h in FreeBlocks(m, v);
        FoundFirst(m, v, need, h);
        QuietSelf(m, v);
      }
    }

    /** sf_malloc. */
    method Malloc(size: nat) returns (halted: bool, r: int, pages: int)
      requires Valid() && (SizeAccepted(size) ==> size <= INT_SAFE)
      modifies mem, this
      ensures Valid() && complaints == old(complaints)
      ensures SizeAccepted(size) ==> (r == 0 <==> halted)
      ensures !SizeAccepted(size) ==> !halted && r == 0
      ensures !halted && r == 0 <==> size == 0 || size > 0x1_0000_0000
      ensures r == 0 ==> mem[..] == old(mem[..]) && V() == old(V()) && firstPageInitialized == old(firstPageInitialized)
      ensures r != 0 ==> r % 2 == 0 && Provided(old(mem[..]), old(V()), mem[..], V(), r - 1, size)
      ensures r != 0 ==> brk == old(brk) + 512 * pages
      ensures SizeAccepted(size) ==>
          Supplied(old(mem[..]), old(V()), old(firstPageInitialized), old(brk), mem.Length, RealWords(size), pages, halted)
      ensures SizeAccepted(size) && old(SomeFits(mem[..], V(), RealWords(size))) ==> FirstFit(old(mem[..]), old(V()), RealWords(size), r - 1)
    {
      ghost var m, v := mem[..], V();
      halted, r, pages := false, 0, 0;
      if !SizeAccepted(size) { return; }
      SizeNeededExact(size);
      RealWordsFit(size);
      var cursor;
      halted, cursor, pages := Locate(ToInt(8 * RealWords(size)), RealWords(size));
      if halted { return; }
      Take(cursor, size, m, v);
      r := cursor + 1;
    }

    /** The call of sf_allocate in sf_malloc; m and v are the heap before the request. */
    method Take(h: int, size: nat, ghost m: seq<Word>, ghost v: View)
      requires Valid() && firstPageInitialized && Quiet(m, v, mem[..], V())
      requires h in starts && 0 < h < mem.Length && mem[h].Alloc() == 0
      requires 0 < size < 0x1_0000_0000 && RealWords(size) <= Len(mem[..], h)
      modifies mem, `freelistHead, `complaints, `starts
      ensures Valid() && complaints == old(complaints) && h % 2 == 1
      ensures Provided(m, v, mem[..], V(), h, size)
    {
      ghost var m1, v1 := mem[..], V();
      SpacedWeaken(m1, v1, h);
      FreeBlockFacts(m1, v1, h);
      Allocate(h, size);
      ProvidedBy(m, v, m1, v1, mem[..], V(), h, size);
    }

    ghost predicate Live(h: int)
      reads this, mem
    {
      h in starts && 0 <= h < mem.Length && mem[h].Alloc() == 1
    }

    /** The tests of checkPtrValidity that look at the pointer alone. */
    predicate Rejected(ptr: int)
      reads this
    {
      ptr > brk || ptr < heapStart || ptr % 2 != 0
    }

    method CheckPtrValidity(ptr: int) returns (ok: bool)
      requires Valid() && (Rejected(ptr) || Live(ptr - 1))
      ensures ok == !Rejected(ptr) && (ok ==> Live(ptr - 1))
      ensures Live(ptr - 1) ==> ok
    {
      if Live(ptr - 1) {
        StepAhead(mem[..], V(), ptr - 1);
        assert Block(mem[..], V(), ptr - 1);
      }
      if ptr > brk || ptr < heapStart { return false; }
      if ptr % 2 != 0 { return false; }
      var footer := ptr - 1 + 2 * mem[ptr - 1].BlockSize() - 1;
      if footer > brk || footer < heapStart || footer < ptr { return false; }
      var atHeader, atFooter := mem[ptr - 1].BlockSize(), mem[footer].BlockSize();
      if atHeader != atFooter && atFooter > 1 { return false; }
      return true;
    }

    /** sf_free_of on a live pointer. */
    method FreeLive(h: int, onlyForward: bool)
      requires Inner() && Coalesced(mem[..], V(), 0) && Live(h)
      modifies mem, `freelistHead, `complaints, `starts
      ensures brk <= mem.Length && WellFormed(mem[..], V())
      ensures Released(old(mem[..]), old(V()), mem[..], V(), h)
      ensures Coalesced(mem[..], V(), if onlyForward then h else 0)
      ensures onlyForward ==> h in starts && mem[h].Alloc() == 0 && 0 < h < mem.Length
      ensures onlyForward ==> ForwardGrown(old(mem[..]), old(V()), mem[..], h)
      ensures complaints == old(complaints)
    {
      ghost var m, v := mem[..], V();
      InsertFree(h);
      ghost var m1, v1 := mem[..], V();
      var a := Coalesce(h, onlyForward);
      ghost var m2, v2 := mem[..], V();
      ReleasedBy(m, v, m1, v1, m2, v2, h, onlyForward, a, End(m2, a));
      if onlyForward {
        ForwardRoom(m, v, m1, v1, m2, v2, h, End(m2, a));
      }
    }

    /** sf_free. */
    method Free(ptr: int)
      requires Valid() && (Rejected(ptr) || Live(ptr - 1))
      modifies mem, `freelistHead, `complaints, `starts
      ensures Valid() && complaints == old(complaints)
      ensures Rejected(ptr) ==> mem[..] == old(mem[..]) && V() == old(V())
      ensures !Rejected(ptr) ==> Released(old(mem[..]), old(V()), mem[..], V(), ptr - 1)
    {
      var ok := CheckPtrValidity(ptr);
      if ok {
        FreeLive(ptr - 1, false);
      }
    }

    /** Branch 1.1 of sf_realloc: the block takes what it needs of the free block after it. */
    method GrowInPlace(h: int, size: nat) returns (r: int)
      requires Valid() && firstPageInitialized && Live(h)
      requires 0 < size <= INT_SAFE && Len(mem[..], h) < RealWords(size)
      requires 0 < h && End(mem[..], h) < mem.Length && mem[End(mem[..], h)].Alloc() == 0
      requires RealWords(size) <= Len(mem[..], h) + Len(mem[..], End(mem[..], h)) - 2
      modifies mem, `freelistHead, `complaints, `starts
      ensures Valid() && complaints == old(complaints) && r == h + 1
      ensures Resized(old(mem[..]), old(V()), mem[..], V(), h, r, size)
    {
      ghost var m, v := mem[..], V();
      StepAhead(m, v, h);
      var dataInNext, dataInPrev := mem[h + 1], mem[h + 2];
      FreeLive(h, true);
      ghost var m1, v1 := mem[..], V();
      Allocate(h, size);
      ghost var m2, v2 := mem[..], V();
      mem[h + 2] := dataInPrev;
      mem[h + 1] := dataInNext;
      GrownInPlace(m, v, m1, v1, m2, v2, mem[..], h, size);
      r := h + 1;
      StaysPut(m, v, mem[..], V(), h, r, size);
    }

    /** sf_free on the payload of a live block. */
    method FreeAt(h: int, ghost m: seq<Word>, ghost v: View)
      requires Valid() && firstPageInitialized && Live(h) && m == mem[..] && v == V()
      modifies mem, `freelistHead, `complaints, `starts
      ensures Valid() && complaints == old(complaints) && Released(m, v, mem[..], V(), h)
    {
      assert Block(m, v, h);
      Free(h + 1);
    }

    /** The copy and the free of branch 1.2 of sf_realloc; mid is the memory between the two. */
    method Transfer(h: int, g: int) returns (ghost mid: seq<Word>)
      requires Valid() && firstPageInitialized && Live(h) && Live(g) && h != g
      requires 0 < g && 0 < h && mem[h].Requested() <= Capacity(mem[..], g)
      modifies mem, `freelistHead, `complaints, `starts
      ensures Valid() && complaints == old(complaints)
      ensures Copied(old(mem[..]), mid, h, g)
      ensures Released(mid, old(V()), mem[..], V(), h)
    {
      ghost var v := V();
      CopyPayload(mem, v, g, h);
      mid := mem[..];
      FreeAt(h, mid, v);
    }

    /** Branch 1.2 of sf_realloc: a new block, the requested bytes copied, the old block freed. */
    method MoveElsewhere(h: int, size: nat) returns (halted: bool, r: int, pages: int)
      requires Valid() && firstPageInitialized && Live(h) && 0 < h
      requires 0 < size <= INT_SAFE && Len(mem[..], h) < RealWords(size)
      modifies mem, this
      ensures Valid() && complaints == old(complaints)
      ensures r == 0 <==> halted
      ensures halted ==> mem[..] == old(mem[..]) && V() == old(V()) && firstPageInitialized == old(firstPageInitialized)
      ensures !halted ==> Resized(old(mem[..]), old(V()), mem[..], V(), h, r, size) && brk == old(brk) + 512 * pages
      ensures r != h + 1 && Supplied(old(mem[..]), old(V()), true, old(brk), mem.Length, RealWords(size), pages, halted)
    {
      ghost var m, v := mem[..], V();
      halted, r, pages := Malloc(size);
      if halted { return; }
      ghost var m1, v1 := mem[..], V();
      MoveReady(m, v, m1, v1, h, r - 1, size);
      ghost var m2 := Transfer(h, r - 1);
      Moved(m, v, m1, v1, m2, mem[..], V(), h, r - 1, size);
    }

    /** Branch 3 of sf_realloc: the tail of the block is split off and freed. */
    method Shrink(h: int, size: nat)
      requires Valid() && firstPageInitialized && Live(h) && 0 < h
      requires 0 < size <= INT_SAFE && RealWords(size) <= Len(mem[..], h) - 4
      modifies mem, `freelistHead, `complaints, `starts
      ensures Valid() && complaints == old(complaints)
      ensures Reallocated(old(mem[..]), old(V()), mem[..], V(), h, h, size)
      ensures GivesBack(old(mem[..]), mem[..], V(), h, size) && Len(mem[..], h) == RealWords(size)
    {
      ghost var m, v := mem[..], V();
      var words := SplitBlock(h, size);
      ghost var m1, v1 := mem[..], V();
      FreeAt(h + words, m1, v1);
      Shrunk(m, v, m1, v1, mem[..], V(), h, words, size);
      CutIsFree(m, v, mem[..], V(), h, size);
    }

    /** Branch 3 up to its call of sf_free. */
    method SplitBlock(h: int, size: nat) returns (words: int)
      requires Valid() && firstPageInitialized && Live(h) && 0 < h
      requires 0 < size <= INT_SAFE && RealWords(size) <= Len(mem[..], h) - 4
      modifies mem, `starts
      ensures Valid() && Live(h + words)
      ensures SplitOff(old(mem[..]), old(V()), mem[..], V(), h, words, size)
    {
      ghost var m, v := mem[..], V();
      RealWordsFit(size);
      words := RealWords(size);
      SplitLive(mem, v, h, words, size);
      starts := starts + {h + words};
      assert V() == v.(starts := starts);
    }

    /** Branch 1 of sf_realloc: the block must grow. */
    method Expand(h: int, size: nat) returns (halted: bool, r: int, pages: int)
      requires Valid() && firstPageInitialized && Live(h) && 0 < h
      requires 0 < size <= INT_SAFE && Len(mem[..], h) < RealWords(size)
      modifies mem, this
      ensures Valid() && complaints == old(complaints)
      ensures r == 0 <==> halted
      ensures halted ==> mem[..] == old(mem[..]) && V() == old(V()) && firstPageInitialized == old(firstPageInitialized)
      ensures !halted ==> Resized(old(mem[..]), old(V()), mem[..], V(), h, r, size) && brk == old(brk) + 512 * pages
      ensures Resupplied(old(mem[..]), old(V()), old(brk), mem.Length, h, RealWords(size), r, pages, halted)
    {
      var fits := NextSuffices(h, size);
      if fits {
        halted, pages := false, 0;
        r := GrowInPlace(h, size);
      } else {
        halted, r, pages := MoveElsewhere(h, size);
      }
    }

    /** Whether the block after a live block makes up for what it lacks. */
    method NextSuffices(h: int, size: nat) returns (fits: bool)
      requires Valid() && firstPageInitialized && Live(h) && 0 < h && Len(mem[..], h) < RealWords(size)
      ensures 0 < End(mem[..], h) < mem.Length
      ensures fits <==> mem[End(mem[..], h)].Alloc() == 0 && RealWords(size) <= Len(mem[..], h) + Len(mem[..], End(mem[..], h)) - 2
      ensures fits <==> RoomAt(mem[..], h, RealWords(size))
    {
      StepAhead(mem[..], V(), h);
      assert Block(mem[..], V(), h);
      var next := h + 2 * mem[h].BlockSize();
      var totalAvailSize := 16 * mem[h].BlockSize();
      if mem[next].Alloc() == 0 {
        totalAvailSize := totalAvailSize + 16 * mem[next].BlockSize() - 16;
      }
      fits := totalAvailSize >= 8 * RealWords(size);
    }

    /** sf_realloc. */
    method Realloc(ptr: int, size: nat) returns (halted: bool, r: int, pages: int)
      requires Valid() && (SizeAccepted(size) ==> size <= INT_SAFE) && (Rejected(ptr) || Live(ptr - 1))
      modifies mem, this
      ensures Valid() && complaints == old(complaints)
      ensures !SizeAccepted(size) || old(Rejected(ptr)) ==> !halted && r == 0
      ensures SizeAccepted(size) && !old(Rejected(ptr)) ==> (r == 0 <==> halted)
      ensures !halted && r == 0 <==> size == 0 || size > 0x1_0000_0000 || old(Rejected(ptr))
      ensures r == 0 ==> mem[..] == old(mem[..]) && V() == old(V()) && firstPageInitialized == old(firstPageInitialized)
      ensures r != 0 ==> Resized(old(mem[..]), old(V()), mem[..], V(), ptr - 1, r, size) && brk == old(brk) + 512 * pages
      ensures r == ptr != 0 ==> GivesBack(old(mem[..]), mem[..], V(), ptr - 1, size)
      ensures SizeAccepted(size) && !old(Rejected(ptr)) ==>
          Resupplied(old(mem[..]), old(V()), old(brk), mem.Length, ptr - 1, RealWords(size), r, pages, halted)
    {
      halted, r, pages := false, 0, 0;
      if !SizeAccepted(size) { return; }
      var ok := CheckPtrValidity(ptr);
      if !ok { return; }
      complaints := complaints + if ptr % 2 != 0 then 1 else 0;
      halted, r, pages := Resize(ptr - 1, size);
    }

    /** The three branches of sf_realloc, for a live block. */
    method Resize(h: int, size: nat) returns (halted: bool, r: int, pages: int)
      requires Valid() && Live(h) && 0 < size <= INT_SAFE
      modifies mem, this
      ensures Valid() && complaints == old(complaints)
      ensures r == 0 <==> halted
      ensures halted ==> mem[..] == old(mem[..]) && V() == old(V()) && firstPageInitialized == old(firstPageInitialized)
      ensures !halted ==> Resized(old(mem[..]), old(V()), mem[..], V(), h, r, size) && brk == old(brk) + 512 * pages
      ensures r == h + 1 ==> GivesBack(old(mem[..]), mem[..], V(), h, size)
      ensures Resupplied(old(mem[..]), old(V()), old(brk), mem.Length, h, RealWords(size), r, pages, halted)
    {
      ghost var m, v := mem[..], V();
      StepAhead(m, v, h);
      var originalRealSize, newRealSize := 16 * mem[h].BlockSize(), 8 * RealWords(size);
      halted, pages := false, 0;
      if newRealSize > originalRealSize {
        halted, r, pages := Expand(h, size);
      } else {
        if newRealSize > (if originalRealSize > 32 then originalRealSize else 32) - 32 {
          Relabel(mem, v, h, size);
        } else {
          Shrink(h, size);
        }
        r := h + 1;
        StaysPut(m, v, mem[..], V(), h, r, size);
      }
    }

    /** sf_calloc; the product is taken modulo 2^64. */
    method Calloc(nmemb: nat, size: nat) returns (halted: bool, r: int, pages: int)
      requires Valid() && (SizeAccepted(nmemb * size % WORD_LIMIT) ==> nmemb * size % WORD_LIMIT <= INT_SAFE)
      modifies mem, this
      ensures Valid() && complaints == old(complaints)
      ensures SizeAccepted(nmemb * size % WORD_LIMIT) ==> (r == 0 <==> halted)
      ensures !SizeAccepted(nmemb * size % WORD_LIMIT) ==> !halted && r == 0
      ensures r == 0 ==> mem[..] == old(mem[..]) && V() == old(V()) && firstPageInitialized == old(firstPageInitialized)
      ensures r != 0 ==> Zeroed(old(mem[..]), old(V()), mem[..], V(), r, nmemb * size % WORD_LIMIT) && brk == old(brk) + 512 * pages
      ensures SizeAccepted(nmemb * size % WORD_LIMIT) ==>
          Supplied(old(mem[..]), old(V()), old(firstPageInitialized), old(brk), mem.Length, RealWords(nmemb * size % WORD_LIMIT), pages, halted)
      ensures SizeAccepted(nmemb * size % WORD_LIMIT) && old(SomeFits(mem[..], V(), RealWords(nmemb * size % WORD_LIMIT))) ==>
          FirstFit(old(mem[..]), old(V()), RealWords(nmemb * size % WORD_LIMIT), r - 1)
    {
      var total: nat := nmemb * size % WORD_LIMIT;
      halted, r, pages := CallocBytes(total);
    }

    /** sf_calloc for a product that is known. */
    method CallocBytes(total: nat) returns (halted: bool, r: int, pages: int)
      requires Valid() && (SizeAccepted(total) ==> total <= INT_SAFE)
      modifies mem, this
      ensures Valid() && complaints == old(complaints)
      ensures SizeAccepted(total) ==> (r == 0 <==> halted)
      ensures !SizeAccepted(total) ==> !halted && r == 0
      ensures r == 0 ==> mem[..] == old(mem[..]) && V() == old(V()) && firstPageInitialized == old(firstPageInitialized)
      ensures r != 0 ==> Zeroed(old(mem[..]), old(V()), mem[..], V(), r, total) && brk == old(brk) + 512 * pages
      ensures SizeAccepted(total) ==>
          Supplied(old(mem[..]), old(V()), old(firstPageInitialized), old(brk), mem.Length, RealWords(total), pages, halted)
      ensures SizeAccepted(total) && old(SomeFits(mem[..], V(), RealWords(total))) ==> FirstFit(old(mem[..]), old(V()), RealWords(total), r - 1)
    {
      ghost var m, v := mem[..], V();
      halted, r, pages := Malloc(total);
      if r != 0 {
        ghost var m1, v1 := mem[..], V();
        StepAhead(m1, v1, r - 1);
        ZeroBytes(mem, r, total);
        PayloadWritten(m1, v1, mem[..], r - 1);
        ProvidedZeroed(m, v, m1, v1, mem[..], r - 1, total);
      }
    }
  }
}
