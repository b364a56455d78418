/** What sys/memory/kmalloc.c keeps in memory: boundary tags, the tiling of the heap by blocks
    and the free list threaded through the free blocks. Addresses are word indices counted from
    the base of the kernel-break window; index 0 plays NULL. */
module HeapModel {
  import opened Words

  /** lo: first header; hi: epilogue; starts: headers of all blocks; head: freelist_head. */
  datatype View = View(lo: int, hi: int, starts: set<int>, head: int)

  const WINDOW := 0x800_0000  // words in the 1 GB window

  function Len(m: seq<Word>, s: int): int
    requires 0 <= s < |m|
  {
    2 * m[s].BlockSize()
  }

  function End(m: seq<Word>, s: int): int
    requires 0 <= s < |m|
  {
    s + Len(m, s)
  }

  predicate IsFree(m: seq<Word>, s: int)
    requires 0 <= s < |m|
  {
    m[s].Alloc() == 0
  }

  /** Bytes a caller may use in block s. */
  function Capacity(m: seq<Word>, s: int): int
    requires 0 <= s < |m|
  {
    8 * (Len(m, s) - 2)
  }

  ghost predicate SameTag(a: Word, b: Word) {
    a.Tag? && b.Tag? && a.Alloc() == b.Alloc() && a.BlockSize() == b.BlockSize()
  }

  /** A single block: even length of at least four words, matching tags at both ends, and a
      neighbour (or a boundary of the heap) exactly where its tags say. */
  ghost predicate Block(m: seq<Word>, v: View, s: int) {
    && 0 < v.lo <= s < v.hi < |m|
    && s % 2 == 1
    && m[s].Alloc() <= 1
    && m[s].BlockSize() >= 2
    && End(m, s) <= v.hi
    && SameTag(m[s], m[End(m, s) - 1])
    && (End(m, s) == v.hi || End(m, s) in v.starts)
    && (s == v.lo || HasPredecessor(m, v, s))
    && (m[s].Alloc() == 1 ==> m[s].Requested() <= Capacity(m, s))
  }

  /** The footer just below s leads back to the header of the block that ends at s. */
  ghost predicate HasPredecessor(m: seq<Word>, v: View, s: int)
    requires 0 < s < |m|
  {
    var p := s - 2 * m[s - 1].BlockSize();
    p in v.starts && 0 <= p && End(m, p) == s
  }

  ghost predicate Apart(m: seq<Word>, s: int, t: int) {
    0 <= s < |m| && End(m, s) <= t
  }

  ghost predicate Tiled(m: seq<Word>, v: View) {
    && |m| <= WINDOW
    && 0 < v.lo < v.hi < |m| && v.lo % 2 == 1 && v.hi % 2 == 1
    && v.lo in v.starts
    && m[v.lo - 1] == ZERO && m[v.hi] == ZERO
    && (forall s {:trigger Block(m, v, s)} :: s in v.starts ==> Block(m, v, s))
    && (forall s :: s in v.starts ==> v.lo <= s < v.hi)
    && (forall s, t {:trigger Apart(m, s, t)} :: s in v.starts && t in v.starts && s < t ==> Apart(m, s, t))
  }

  /** Header and footer words of block s are untouched. */
  ghost predicate Untouched(m: seq<Word>, m': seq<Word>, s: int)
    requires 0 <= s < |m| == |m'|
  {
    m'[s] == m[s] && (0 <= End(m, s) - 1 < |m| ==> m'[End(m, s) - 1] == m[End(m, s) - 1])
  }

  /** One block inside [a, e), self-consistent, whatever surrounds it. */
  ghost predicate Stands(m: seq<Word>, s: int, e: int) {
    && 0 <= s < |m| && s % 2 == 1
    && m[s].Alloc() <= 1 && m[s].BlockSize() >= 2
    && End(m, s) == e <= |m|
    && SameTag(m[s], m[e - 1])
    && (m[s].Alloc() == 1 ==> m[s].Requested() <= Capacity(m, s))
  }

  /** Every change the allocator makes to the tiling is of this kind: the blocks that filled
      [a, e) are replaced by one block, or by two that meet at y, and all else keeps its tags. */
  ghost predicate Retiling(m: seq<Word>, v: View, m': seq<Word>, v': View, a: int, y: int, e: int) {
    && Tiled(m, v) && |m'| == |m|
    && v'.lo == v.lo && v'.hi == v.hi
    && a in v.starts && a < y <= e && (e == v.hi || e in v.starts)
    && (forall s :: s in v'.starts <==> (s in v.starts && (s <= a || s >= e)) || s == y < e)
    && m'[v.lo - 1] == ZERO && m'[v.hi] == ZERO
    && (forall s {:trigger Untouched(m, m', s)} :: s in v.starts && (s < a || s >= e) ==> 0 <= s < |m| && Untouched(m, m', s))
    && Stands(m', a, y)
    && (y < e ==> Stands(m', y, e))
  }

  lemma RetiledPredecessor(m: seq<Word>, v: View, m': seq<Word>, v': View, a: int, y: int, e: int, s: int)
    requires Retiling(m, v, m', v', a, y, e)
    requires s in v.starts && (s <= a || s > e) && s != v.lo
    ensures HasPredecessor(m', v', s)
  {
    assert Block(m, v, s);
    var p := s - 2 * m[s - 1].BlockSize();
    assert Block(m, v, p) && End(m, p) == s;
    assert a <= p < e && e in v.starts ==> Apart(m, p, e);
    assert Untouched(m, m', p);
  }

  lemma RetiledOuter(m: seq<Word>, v: View, m': seq<Word>, v': View, a: int, y: int, e: int, s: int)
    requires Retiling(m, v, m', v', a, y, e)
    requires s in v.starts && (s < a || s >= e)
    ensures Block(m', v', s)
  {
    assert Block(m, v, s) && Untouched(m, m', s);
    assert s < a ==> Apart(m, s, a);
    if s == e {
      assert HasPredecessor(m', v', s) by {
        assert m'[s - 1].BlockSize() == if y < e then m'[y].BlockSize() else m'[a].BlockSize();
      }
    } else if s != v.lo {
      RetiledPredecessor(m, v, m', v', a, y, e, s);
    }
  }

  lemma RetiledInner(m: seq<Word>, v: View, m': seq<Word>, v': View, a: int, y: int, e: int)
    requires Retiling(m, v, m', v', a, y, e)
    ensures Block(m', v', a)
    ensures y < e ==> Block(m', v', y)
  {
    if a != v.lo {
      RetiledPredecessor(m, v, m', v', a, y, e, a);
    }
  }

  lemma RetiledApart(m: seq<Word>, v: View, m': seq<Word>, v': View, a: int, y: int, e: int, s: int, t: int)
    requires Retiling(m, v, m', v', a, y, e)
    requires s in v'.starts && t in v'.starts && s < t
    ensures Apart(m', s, t)
  {
    if s < a || s >= e {
      assert Block(m, v, s) && Untouched(m, m', s);
      assert s < a ==> Apart(m, s, a);
      assert t in v.starts ==> Apart(m, s, t);
    }
  }

  lemma Retile(m: seq<Word>, v: View, m': seq<Word>, v': View, a: int, y: int, e: int)
    requires Retiling(m, v, m', v', a, y, e)
    ensures Tiled(m', v')
  {
    forall s | s in v'.starts
      ensures Block(m', v', s)
    {
      if s < a || s >= e {
        RetiledOuter(m, v, m', v', a, y, e, s);
      } else {
        RetiledInner(m, v, m', v', a, y, e);
      }
    }
    forall s, t | s in v'.starts && t in v'.starts && s < t
      ensures Apart(m', s, t)
    {
      RetiledApart(m, v, m', v', a, y, e, s, t);
    }
  }

  // ----- The free list -----

  ghost function FreeBlocks(m: seq<Word>, v: View): set<int> {
    set s | s in v.starts && 0 <= s < |m| && IsFree(m, s)
  }

  function Next(m: seq<Word>, s: int): int
    requires 0 <= s < |m| - 2
  {
    m[s + 1].Value()
  }

  function Prev(m: seq<Word>, s: int): int
    requires 0 <= s < |m| - 2
  {
    m[s + 2].Value()
  }

  /** n is the least member of F above s, or 0 if there is none. */
  ghost predicate Above(F: set<int>, s: int, n: int) {
    && (n == 0 || (n in F && n > s))
    && (forall t :: t in F && t > s ==> 0 != n <= t)
  }

  /** p is the greatest member of F below s, or 0 if there is none. */
  ghost predicate Below(F: set<int>, s: int, p: int) {
    && (p == 0 || (p in F && p < s))
    && (forall t :: t in F && t < s ==> t <= p)
  }

  ghost predicate Linked(m: seq<Word>, F: set<int>, s: int) {
    && 0 < s < |m| - 2
    && Above(F, s, Next(m, s))
    && Below(F, s, Prev(m, s))
  }

  /** A doubly linked list from head that holds exactly F in increasing address order. */
  ghost predicate FreeList(m: seq<Word>, F: set<int>, head: int) {
    && (forall s :: s in F ==> s > 0)
    && (forall s {:trigger Linked(m, F, s)} :: s in F ==> Linked(m, F, s))
    && Above(F, 0, head)
  }

  /** Every change the allocator makes to the list is of this kind: the members strictly between
      p and n (0: the list's ends) are replaced by y alone, or by nothing when y is 0. */
  ghost predicate Relinking(m: seq<Word>, F: set<int>, head: int, m': seq<Word>, F': set<int>, head': int,
                            p: int, y: int, n: int) {
    && |m'| == |m| && FreeList(m, F, head)
    && (p == 0 || p in F) && (n == 0 || n in F) && (n == 0 || p < n)
    && (y == 0 || (p < y < |m| - 2 && (n == 0 || y < n)))
    && (forall s :: s in F' <==> (s in F && (s <= p || (n != 0 && s >= n))) || (s == y && y != 0))
    && head' == (if p != 0 then head else if y != 0 then y else n)
    && (forall s {:trigger Relinked(m, m', p, y, n, s)} :: s in F && s != y && (s <= p || (n != 0 && s >= n)) ==> Relinked(m, m', p, y, n, s))
    && (y != 0 ==> Next(m', y) == n && Prev(m', y) == p)
  }

  ghost predicate Relinked(m: seq<Word>, m': seq<Word>, p: int, y: int, n: int, s: int) {
    && 0 < s < |m| - 2 && |m| == |m'|
    && Next(m', s) == (if s != p then Next(m, s) else if y != 0 then y else n)
    && Prev(m', s) == (if s != n then Prev(m, s) else if y != 0 then y else p)
  }

  lemma Relink(m: seq<Word>, F: set<int>, head: int, m': seq<Word>, F': set<int>, head': int, p: int, y: int, n: int)
    requires Relinking(m, F, head, m', F', head', p, y, n)
    ensures FreeList(m', F', head')
  {
    forall s | s in F'
      ensures Linked(m', F', s)
    {
      if s != y {
        assert Linked(m, F, s) && Relinked(m, m', p, y, n, s);
      }
    }
  }

  // ----- The heap between two public operations -----

  ghost predicate Coalesced(m: seq<Word>, v: View, except: int) {
    forall s {:trigger Separated(m, v, s, except)} :: s in v.starts ==> Separated(m, v, s, except)
  }

  /** A free block is not followed by another one, unless that one starts at `except`. */
  ghost predicate Separated(m: seq<Word>, v: View, s: int, except: int) {
    && 0 <= s < |m|
    && (IsFree(m, s) && End(m, s) != v.hi && End(m, s) != except ==> 0 <= End(m, s) < |m| && !IsFree(m, End(m, s)))
  }

  ghost predicate WellFormed(m: seq<Word>, v: View) {
    && Tiled(m, v)
    && FreeList(m, FreeBlocks(m, v), v.head)
  }

  /** The words of block s, tags included, are the same in both memories. */
  ghost predicate SameBlock(m: seq<Word>, m': seq<Word>, s: int) {
    && |m| == |m'| && 0 <= s < |m| && End(m, s) <= |m| && m'[s] == m[s]
    && (forall i :: s <= i < End(m, s) ==> m'[i] == m[i])
  }

  /** Where the link towards a new list member goes: word k of block p, or nowhere new (d). */
  function Slot(p: int, k: int, d: int): int {
    if p == 0 then d else p + k
  }

  /** The master step of every operation: the blocks in [a, e) give way to one block [a, e), or to
      two blocks [a, y) and [y, e), of which x (0: none) is free; p and n are the free blocks
      around the region. Nothing outside the region is written but p's next and n's prev link. */
  ghost predicate Rebuilding(m: seq<Word>, v: View, m': seq<Word>, v': View, a: int, y: int, e: int, x: int, p: int, n: int) {
    && WellFormed(m, v) && |m'| == |m|
    && a in v.starts && a < y <= e && (e == v.hi || e in v.starts)
    && Below(FreeBlocks(m, v), a, p) && Above(FreeBlocks(m, v), e - 1, n)
    && v'.lo == v.lo && v'.hi == v.hi
    && (forall s :: s in v'.starts <==> (s in v.starts && (s <= a || s >= e)) || s == y < e)
    && (forall i :: 0 <= i < |m| && !(a <= i < e) && i != Slot(p, 1, a) && i != Slot(n, 2, a) ==> m'[i] == m[i])
    && Stands(m', a, y)
    && (y < e ==> Stands(m', y, e))
    && (x == 0 || x == a || x == y < e)
    && (IsFree(m', a) <==> x == a)
    && (y < e ==> (IsFree(m', y) <==> x == y))
    && v'.head == (if p != 0 then v.head else if x != 0 then x else n)
    && (p != 0 ==> 0 < p < |m| - 2 && Next(m', p) == if x != 0 then x else n)
    && (n != 0 ==> 0 < n < |m| - 2 && Prev(m', n) == if x != 0 then x else p)
    && (x != 0 ==> x < |m| - 2 && Next(m', x) == n && Prev(m', x) == p)
  }

  lemma Disjoint(m: seq<Word>, v: View, s: int, t: int)
    requires Tiled(m, v) && s in v.starts && t in v.starts
    ensures 0 < s < v.hi < |m| && 0 < t < v.hi
    ensures s + 4 <= End(m, s) <= v.hi && t + 4 <= End(m, t) <= v.hi
    ensures s < t ==> End(m, s) <= t
    ensures t < s ==> End(m, t) <= s
  {
    assert Block(m, v, s) && Block(m, v, t);
    assert s < t ==> Apart(m, s, t);
    assert t < s ==> Apart(m, t, s);
  }

  /** Block s outside the region keeps every word except possibly one link. */
  lemma OutsideKept(m: seq<Word>, v: View, m': seq<Word>, v': View, a: int, y: int, e: int, x: int, p: int, n: int, s: int)
    requires Rebuilding(m, v, m', v', a, y, e, x, p, n)
    requires s in v.starts && (s < a || s >= e)
    ensures 0 < s < |m| - 2 && End(m, s) <= |m|
    ensures Untouched(m, m', s)
    ensures forall i :: s <= i < End(m, s) && !(s == p && i == s + 1) && !(s == n && i == s + 2) ==> m'[i] == m[i]
  {
    Disjoint(m, v, s, a);
    if e in v.starts { Disjoint(m, v, s, e); }
    if p != 0 { Disjoint(m, v, s, p); }
    if n != 0 { Disjoint(m, v, s, n); }
  }

  lemma OutsideTag(m: seq<Word>, v: View, m': seq<Word>, v': View, a: int, y: int, e: int, x: int, p: int, n: int, s: int)
    requires Rebuilding(m, v, m', v', a, y, e, x, p, n)
    requires s in v.starts && (s < a || s >= e)
    ensures 0 < s < |m| && End(m', s) == End(m, s) && m'[s].Alloc() == m[s].Alloc()
    ensures End(m, s) == v.hi || End(m, s) in v.starts
    ensures s < End(m, s) <= a || e <= s
  {
    OutsideKept(m, v, m', v', a, y, e, x, p, n, s);
    Disjoint(m, v, s, a);
    assert Block(m, v, s);
  }

  lemma RebuildTiles(m: seq<Word>, v: View, m': seq<Word>, v': View, a: int, y: int, e: int, x: int, p: int, n: int)
    requires Rebuilding(m, v, m', v', a, y, e, x, p, n)
    ensures Tiled(m', v')
  {
    forall s | s in v.starts && (s < a || s >= e)
      ensures 0 <= s < |m| && Untouched(m, m', s)
    {
      OutsideKept(m, v, m', v', a, y, e, x, p, n, s);
    }
    Disjoint(m, v, a, a);
    if p != 0 { Disjoint(m, v, p, a); }
    if n != 0 { Disjoint(m, v, n, a); }
    Retile(m, v, m', v', a, y, e);
  }

  lemma RebuildFreeBlocks(m: seq<Word>, v: View, m': seq<Word>, v': View, a: int, y: int, e: int, x: int, p: int, n: int, s: int)
    requires Rebuilding(m, v, m', v', a, y, e, x, p, n)
    ensures s in FreeBlocks(m', v') <==> (s in FreeBlocks(m, v) && (s <= p || (n != 0 && s >= n))) || (s == x && x != 0)
  {
    var F := FreeBlocks(m, v);
    if s in v.starts && (s < a || s >= e) {
      OutsideTag(m, v, m', v', a, y, e, x, p, n, s);
      assert s in F <==> IsFree(m, s);
      assert s in v'.starts;
      assert s in FreeBlocks(m', v') <==> IsFree(m', s);
      assert s in F && s < a ==> s <= p;
      assert s in F && s >= e ==> 0 != n <= s;
    } else {
      Disjoint(m, v, a, a);
      assert s in FreeBlocks(m', v') <==> s == x != 0;
      assert s in F ==> s > p;
    }
  }

  lemma OutsideRelinked(m: seq<Word>, v: View, m': seq<Word>, v': View, a: int, y: int, e: int, x: int, p: int, n: int, s: int)
    requires Rebuilding(m, v, m', v', a, y, e, x, p, n)
    requires s in v.starts && (s <= p || (n != 0 && s >= n))
    ensures Relinked(m, m', p, x, n, s)
  {
    OutsideKept(m, v, m', v', a, y, e, x, p, n, s);
    Disjoint(m, v, s, s);
  }

  lemma RebuildLinks(m: seq<Word>, v: View, m': seq<Word>, v': View, a: int, y: int, e: int, x: int, p: int, n: int)
    requires Rebuilding(m, v, m', v', a, y, e, x, p, n)
    ensures FreeList(m', FreeBlocks(m', v'), v'.head)
  {
    var F, F' := FreeBlocks(m, v), FreeBlocks(m', v');
    forall s
      ensures s in F' <==> (s in F && (s <= p || (n != 0 && s >= n))) || (s == x && x != 0)
    {
      RebuildFreeBlocks(m, v, m', v', a, y, e, x, p, n, s);
    }
    forall s | s in F && s != x && (s <= p || (n != 0 && s >= n))
      ensures Relinked(m, m', p, x, n, s)
    {
      OutsideRelinked(m, v, m', v', a, y, e, x, p, n, s);
    }
    Relink(m, F, v.head, m', F', v'.head, p, x, n);
  }

  lemma Rebuild(m: seq<Word>, v: View, m': seq<Word>, v': View, a: int, y: int, e: int, x: int, p: int, n: int)
    requires Rebuilding(m, v, m', v', a, y, e, x, p, n)
    ensures WellFormed(m', v')
    ensures forall s {:trigger SameBlock(m, m', s)} :: s in v.starts && (s < a || s >= e) && 0 <= s < |m| && !IsFree(m, s) ==> SameBlock(m, m', s)
  {
    RebuildTiles(m, v, m', v', a, y, e, x, p, n);
    RebuildLinks(m, v, m', v', a, y, e, x, p, n);
    forall s | s in v.starts && (s < a || s >= e) && 0 <= s < |m| && !IsFree(m, s)
      ensures SameBlock(m, m', s)
    {
      OutsideKept(m, v, m', v', a, y, e, x, p, n, s);
    }
  }

  /** What precedes a step for it to leave no two free blocks adjacent. */
  ghost predicate Spaced(m: seq<Word>, v: View, a: int, y: int, e: int, x: int) {
    && (forall s {:trigger Separated(m, v, s, a)} :: s in v.starts && (s < a || s >= e) ==> Separated(m, v, s, a))
    && (x == 0 || (x == a && y < e) || e == v.hi || (0 <= e < |m| && !IsFree(m, e)))
  }

  lemma SeparatedOutside(m: seq<Word>, v: View, m': seq<Word>, v': View, a: int, y: int, e: int, x: int, p: int, n: int, s: int)
    requires Rebuilding(m, v, m', v', a, y, e, x, p, n) && Spaced(m, v, a, y, e, x)
    requires s in v.starts && (s < a || s >= e)
    ensures Separated(m', v', s, a)
  {
    OutsideTag(m, v, m', v', a, y, e, x, p, n, s);
    assert Separated(m, v, s, a);
    var t := End(m, s);
    if t != v.hi && t != a {
      OutsideTag(m, v, m', v', a, y, e, x, p, n, t);
    }
  }

  lemma SeparatedInside(m: seq<Word>, v: View, m': seq<Word>, v': View, a: int, y: int, e: int, x: int, p: int, n: int)
    requires Rebuilding(m, v, m', v', a, y, e, x, p, n) && Spaced(m, v, a, y, e, x)
    ensures Separated(m', v', a, a) && Separated(m', v', a, 0)
    ensures y < e ==> Separated(m', v', y, a) && Separated(m', v', y, 0)
  {
  }

  /** The block below a, when a is not a new free block or that block is not free. */
  lemma SeparatedBelow(m: seq<Word>, v: View, m': seq<Word>, v': View, a: int, y: int, e: int, x: int, p: int, n: int, s: int)
    requires Rebuilding(m, v, m', v', a, y, e, x, p, n)
    requires x != a || a == v.lo || (0 < a < |m| && m[a - 1].Alloc() == 1)
    requires s in v.starts && (s < a || s >= e) && Separated(m', v', s, a)
    ensures Separated(m', v', s, 0)
  {
    OutsideTag(m, v, m', v', a, y, e, x, p, n, s);
    assert Block(m, v, s);
  }

  /** Adjacent free blocks after a step: only a new free block right after an old one. */
  lemma RebuildCoalesced(m: seq<Word>, v: View, m': seq<Word>, v': View, a: int, y: int, e: int, x: int, p: int, n: int)
    requires Rebuilding(m, v, m', v', a, y, e, x, p, n) && Spaced(m, v, a, y, e, x)
    ensures Coalesced(m', v', a)
    ensures x != a || a == v.lo || (0 < a < |m| && m[a - 1].Alloc() == 1) ==> Coalesced(m', v', 0)
  {
    SeparatedInside(m, v, m', v', a, y, e, x, p, n);
    forall s | s in v'.starts
      ensures Separated(m', v', s, a)
      ensures x != a || a == v.lo || (0 < a < |m| && m[a - 1].Alloc() == 1) ==> Separated(m', v', s, 0)
    {
      if s < a || s >= e {
        SeparatedOutside(m, v, m', v', a, y, e, x, p, n, s);
        if x != a || a == v.lo || (0 < a < |m| && m[a - 1].Alloc() == 1) {
          SeparatedBelow(m, v, m', v', a, y, e, x, p, n, s);
        }
      }
    }
  }

  // ----- Growth -----

  /** The old epilogue becomes the header of one free block that reaches to the new epilogue. */
  ghost predicate Growing(m: seq<Word>, v: View, m': seq<Word>, v': View, p: int) {
    && WellFormed(m, v) && |m'| == |m|
    && v'.lo == v.lo && v.hi < v'.hi < |m| && v'.hi % 2 == 1
    && (forall s :: s in v'.starts <==> s in v.starts || s == v.hi)
    && Stands(m', v.hi, v'.hi) && IsFree(m', v.hi) && m'[v'.hi] == ZERO
    && Below(FreeBlocks(m, v), v.hi, p)
    && (forall i :: 0 <= i < v.hi && i != Slot(p, 1, v.hi) ==> m'[i] == m[i])
    && v'.head == (if p != 0 then v.head else v.hi)
    && (p != 0 ==> 0 < p < |m| - 2 && Next(m', p) == v.hi)
    && Next(m', v.hi) == 0 && Prev(m', v.hi) == p
  }

  lemma GrowKept(m: seq<Word>, v: View, m': seq<Word>, v': View, p: int, s: int)
    requires Growing(m, v, m', v', p) && s in v.starts
    ensures 0 < s < |m| - 2 && End(m, s) <= v.hi
    ensures Untouched(m, m', s)
    ensures forall i :: s <= i < End(m, s) && !(s == p && i == s + 1) ==> m'[i] == m[i]
  {
    Disjoint(m, v, s, s);
    if p != 0 { Disjoint(m, v, s, p); }
  }

  lemma GrowTag(m: seq<Word>, v: View, m': seq<Word>, v': View, p: int, s: int)
    requires Growing(m, v, m', v', p) && s in v.starts
    ensures Block(m, v, s) && Untouched(m, m', s)
  {
    assert Block(m, v, s);
    GrowKept(m, v, m', v', p, s);
  }

  lemma GrowPredecessor(m: seq<Word>, v: View, m': seq<Word>, v': View, p: int, s: int, q: int)
    requires Growing(m, v, m', v', p) && 0 < s <= v.hi
    requires q in v.starts && 0 <= q < |m| && End(m, q) == s
    ensures HasPredecessor(m', v', s)
  {
    GrowTag(m, v, m', v', p, q);
    assert m'[s - 1].BlockSize() == m[q].BlockSize() == m'[q].BlockSize();
  }

  lemma GrowFindPredecessor(m: seq<Word>, v: View, m': seq<Word>, v': View, p: int, s: int)
    requires Growing(m, v, m', v', p) && s in v'.starts && s != v.lo
    ensures 0 < s < |m| && HasPredecessor(m', v', s)
  {
    if s == v.hi {
      var t := LastBlock(m, v);
      GrowPredecessor(m, v, m', v', p, s, t);
    } else {
      assert Block(m, v, s);
      GrowPredecessor(m, v, m', v', p, s, s - 2 * m[s - 1].BlockSize());
    }
  }

  lemma GrowBlock(m: seq<Word>, v: View, m': seq<Word>, v': View, p: int, s: int)
    requires Growing(m, v, m', v', p) && s in v'.starts
    ensures Block(m', v', s)
  {
    if s != v.lo { GrowFindPredecessor(m, v, m', v', p, s); }
    if s != v.hi { GrowTag(m, v, m', v', p, s); }
  }

  /** The tiling reaches the epilogue: some block ends there. */
  lemma LastBlock(m: seq<Word>, v: View) returns (t: int)
    requires Tiled(m, v)
    ensures t in v.starts && 0 <= t < |m| && End(m, t) == v.hi
  {
    t := v.lo;
    while 0 <= t < |m| && End(m, t) != v.hi
      invariant t in v.starts && v.lo <= t < v.hi
      decreases v.hi - t
    {
      assert Block(m, v, t);
      t := End(m, t);
    }
  }

  lemma GrowTiles(m: seq<Word>, v: View, m': seq<Word>, v': View, p: int)
    requires Growing(m, v, m', v', p)
    ensures Tiled(m', v')
  {
    forall s | s in v'.starts
      ensures Block(m', v', s)
    {
      GrowBlock(m, v, m', v', p, s);
    }
    forall s, t | s in v'.starts && t in v'.starts && s < t
      ensures Apart(m', s, t)
    {
      if s != v.hi {
        GrowKept(m, v, m', v', p, s);
        assert t in v.starts ==> Apart(m, s, t);
      }
    }
    if p != 0 { Disjoint(m, v, p, v.lo); }
  }

  lemma GrowRelinked(m: seq<Word>, v: View, m': seq<Word>, v': View, p: int, s: int)
    requires Growing(m, v, m', v', p) && s in v.starts && s <= p
    ensures Relinked(m, m', p, v.hi, 0, s)
  {
    GrowKept(m, v, m', v', p, s);
    Disjoint(m, v, s, s);
  }

  lemma GrowFreeBlocks(m: seq<Word>, v: View, m': seq<Word>, v': View, p: int, s: int)
    requires Growing(m, v, m', v', p)
    ensures s in FreeBlocks(m', v') <==> (s in FreeBlocks(m, v) && s <= p) || s == v.hi
  {
    if s in v.starts {
      GrowTag(m, v, m', v', p, s);
      assert s in FreeBlocks(m, v) ==> s <= p;
    }
  }

  lemma GrowLinks(m: seq<Word>, v: View, m': seq<Word>, v': View, p: int)
    requires Growing(m, v, m', v', p)
    ensures FreeList(m', FreeBlocks(m', v'), v'.head)
  {
    var F, F' := FreeBlocks(m, v), FreeBlocks(m', v');
    forall s
      ensures s in F' <==> (s in F && s <= p) || s == v.hi
    {
      GrowFreeBlocks(m, v, m', v', p, s);
    }
    forall s | s in F && s <= p
      ensures Relinked(m, m', p, v.hi, 0, s)
    {
      GrowRelinked(m, v, m', v', p, s);
    }
    Relink(m, F, v.head, m', F', v'.head, p, v.hi, 0);
  }

  lemma Grow(m: seq<Word>, v: View, m': seq<Word>, v': View, p: int)
    requires Growing(m, v, m', v', p)
    ensures WellFormed(m', v')
    ensures forall s {:trigger SameBlock(m, m', s)} :: s in v.starts && 0 <= s < |m| && !IsFree(m, s) ==> SameBlock(m, m', s)
    ensures Coalesced(m, v, 0) ==> Coalesced(m', v', v.hi)
  {
    GrowTiles(m, v, m', v', p);
    GrowLinks(m, v, m', v', p);
    forall s | s in v.starts
      ensures 0 <= s < |m| && !IsFree(m, s) ==> SameBlock(m, m', s)
    {
      GrowKept(m, v, m', v', p, s);
    }
    if Coalesced(m, v, 0) {
      forall s | s in v'.starts
        ensures Separated(m', v', s, v.hi)
      {
        GrowSeparated(m, v, m', v', p, s);
      }
    }
  }

  lemma GrowSeparated(m: seq<Word>, v: View, m': seq<Word>, v': View, p: int, s: int)
    requires Growing(m, v, m', v', p) && Coalesced(m, v, 0) && s in v'.starts
    ensures Separated(m', v', s, v.hi)
  {
    if s != v.hi {
      GrowKept(m, v, m', v', p, s);
      assert Block(m, v, s) && Separated(m, v, s, 0);
      if End(m, s) != v.hi {
        GrowKept(m, v, m', v', p, End(m, s));
      }
    }
  }

  /** A heap of one free block. */
  lemma FirstPage(m: seq<Word>, v: View)
    requires |m| <= WINDOW && 0 < v.lo < v.hi < |m| && v.hi % 2 == 1
    requires v.starts == {v.lo} && v.head == v.lo
    requires m[v.lo - 1] == ZERO && m[v.hi] == ZERO
    requires Stands(m, v.lo, v.hi) && IsFree(m, v.lo)
    requires Next(m, v.lo) == 0 && Prev(m, v.lo) == 0
    ensures WellFormed(m, v) && Coalesced(m, v, 0)
  {
    assert FreeBlocks(m, v) == {v.lo};
    assert Block(m, v, v.lo);
    assert Linked(m, {v.lo}, v.lo);
  }

  // ----- What well-formedness means -----

  /** Every word between prologue and epilogue belongs to exactly one block. */
  lemma TiledExactly(m: seq<Word>, v: View, i: int)
    requires Tiled(m, v) && v.lo <= i < v.hi
    ensures exists s :: s in v.starts && 0 <= s <= i < |m| && i < End(m, s)
    ensures forall s, t :: s in v.starts && t in v.starts && 0 <= s <= i && 0 <= t <= i && i < End(m, s) && i < End(m, t) ==> s == t
  {
    var s := v.lo;
    while i >= End(m, s)
      invariant s in v.starts && v.lo <= s <= i
      decreases i - s
    {
      assert Block(m, v, s);
      s := End(m, s);
    }
    forall s, t | s in v.starts && t in v.starts && 0 <= s <= i && 0 <= t <= i && i < End(m, s) && i < End(m, t)
      ensures s == t
    {
      Disjoint(m, v, s, t);
    }
  }

  /** The blocks met by following `next` from s. */
  ghost function Chain(m: seq<Word>, s: int): seq<int>
    decreases if s == 0 then 0 else |m| - s
  {
    if 0 < s < |m| - 2 && (Next(m, s) == 0 || s < Next(m, s) < |m|) then [s] + Chain(m, Next(m, s)) else []
  }

  ghost predicate Increasing(c: seq<int>) {
    forall i, j :: 0 <= i < j < |c| ==> c[i] < c[j]
  }

  /** The previous link of every later member leads back to the member before it. */
  ghost predicate GoesBack(m: seq<Word>, c: seq<int>) {
    forall i :: 0 <= i < |c| ==> 0 <= c[i] < |m| - 2 && (0 < i ==> Prev(m, c[i]) == c[i - 1])
  }

  lemma InFront(s: int, rest: seq<int>)
    requires Increasing(rest) && forall t :: t in rest ==> s < t
    ensures Increasing([s] + rest) && forall t :: t in [s] + rest <==> t == s || t in rest
  {
    assert forall i :: 0 <= i < |rest| ==> rest[i] in rest;
  }

  /** Following `next` from s visits exactly the free blocks from s on, in address order. */
  lemma {:induction false} ChainFrom(m: seq<Word>, F: set<int>, head: int, s: int)
    requires FreeList(m, F, head) && (s == 0 || s in F)
    ensures Increasing(Chain(m, s))
    ensures forall t :: t in Chain(m, s) <==> s != 0 && t in F && t >= s
    decreases if s == 0 then 0 else |m| - s
  {
    if s != 0 {
      assert Linked(m, F, s);
      var n := Next(m, s);
      if n != 0 { assert Linked(m, F, n); }
      ChainFrom(m, F, head, n);
      InFront(s, Chain(m, n));
    }
  }

  lemma {:induction false} ChainGoesBack(m: seq<Word>, F: set<int>, head: int, s: int)
    requires FreeList(m, F, head) && s in F
    ensures |Chain(m, s)| > 0 && Chain(m, s)[0] == s && GoesBack(m, Chain(m, s))
    decreases |m| - s
  {
    assert Linked(m, F, s);
    var n := Next(m, s);
    if n != 0 {
      assert Linked(m, F, n) && Prev(m, n) == s;
      ChainGoesBack(m, F, head, n);
    }
  }

  /** The list from freelist_head holds exactly the free blocks, in increasing address order, and the
      previous links lead the same way back to a 0. */
  lemma FreeListIsOrdered(m: seq<Word>, v: View)
    requires WellFormed(m, v)
    ensures Increasing(Chain(m, v.head)) && GoesBack(m, Chain(m, v.head))
    ensures v.head != 0 ==> |Chain(m, v.head)| > 0 && Chain(m, v.head)[0] == v.head && Prev(m, v.head) == 0
    ensures forall t :: t in Chain(m, v.head) <==> t in v.starts && 0 <= t < |m| && IsFree(m, t)
  {
    var F := FreeBlocks(m, v);
    ChainFrom(m, F, v.head, v.head);
    if v.head != 0 {
      assert Linked(m, F, v.head);
      ChainGoesBack(m, F, v.head, v.head);
    }
    assert forall t :: t in F ==> 0 < t && 0 != v.head <= t;
    assert forall t :: t in F <==> t in v.starts && 0 <= t < |m| && IsFree(m, t);
  }
}
