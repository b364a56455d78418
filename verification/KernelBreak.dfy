/** The kernel break of sys/memory/phy_page.c. The break is not stored anywhere: _kbrk searches a page
    directory and its last page table for the first absent entry. */
module KernelBreak {
  import opened FreeFrames

  /** A page-directory or page-table entry: present, and the frame it points to. */
  datatype Entry = Entry(p: bool, frame: nat)

  const ABSENT := Entry(false, 0)

  /** KBRK_BASE_ADDRESS. */
  const BASE := 0xFFFF_FFFF_8000_0000

  function ZeroPage(): (z: seq<Entry>)
    ensures |z| == 512 && forall i :: 0 <= i < 512 ==> z[i] == ABSENT
  {
    seq(512, _ => ABSENT)
  }

  /** The number of pages below entry j of table i. */
  function Index(i: nat, j: nat): int {
    (i - 2) * 512 + j
  }

  /** The address of the page after n pages. */
  function Break(n: nat): nat {
    0xFFFF_FFFF_8040_0000 + n * 4096
  }

  /** Frames and page entries as the kernel sees them, and the frame of the page directory. */
  datatype Memory = Memory(frames: seq<seq<Entry>>, usedBy: seq<nat>, pd: nat)

  ghost predicate Shaped(m: Memory) {
    && |m.usedBy| == |m.frames| && m.pd < |m.frames| && m.usedBy[m.pd] != 0
    && forall f :: 0 <= f < |m.frames| ==> |m.frames[f]| == 512
  }

  ghost predicate IsTable(m: Memory, i: nat) {
    2 <= i < 512 && m.pd < |m.frames| && |m.frames[m.pd]| == 512 && m.frames[m.pd][i].p
  }

  ghost function Table(m: Memory, i: nat): nat
    requires IsTable(m, i)
  {
    m.frames[m.pd][i].frame
  }

  /** Table i is a frame of its own and its present entries are the pages from Index(i, 0) on. */
  ghost predicate TableOk(m: Memory, pages: seq<nat>, i: nat) {
    && IsTable(m, i) && Table(m, i) < |m.frames| == |m.usedBy| && |m.frames[Table(m, i)]| == 512
    && m.usedBy[Table(m, i)] != 0 && Table(m, i) != m.pd && Table(m, i) !in pages
    && (forall j :: 0 <= j < 512 ==> (m.frames[Table(m, i)][j].p <==> Index(i, j) < |pages|))
    && (forall j :: 0 <= j < 512 && Index(i, j) < |pages| ==> m.frames[Table(m, i)][j].frame == pages[Index(i, j)])
  }

  /** No present entry of the directory points at frame f. */
  ghost predicate NoTable(m: Memory, f: nat) {
    && m.pd < |m.frames| && |m.frames[m.pd]| == 512
    && forall i {:trigger m.frames[m.pd][i]} :: 2 <= i < 512 && m.frames[m.pd][i].p ==> m.frames[m.pd][i].frame != f
  }

  /** The two-level table holds the given frames, in order and without gaps. */
  ghost predicate Holds(m: Memory, pages: seq<nat>) {
    && Shaped(m) && |pages| <= 510 * 512
    && (forall i {:trigger TableOk(m, pages, i)} {:trigger m.frames[m.pd][i]} :: 2 <= i < 512 ==>
          (m.frames[m.pd][i].p <==> Index(i, 0) < |pages|) && (m.frames[m.pd][i].p ==> TableOk(m, pages, i)))
    && (forall i, k {:trigger m.frames[m.pd][i], m.frames[m.pd][k]} :: 2 <= i < k < 512 && m.frames[m.pd][i].p && m.frames[m.pd][k].p ==>
          m.frames[m.pd][i].frame != m.frames[m.pd][k].frame)
    && m.pd !in pages
    && (forall k :: 0 <= k < |pages| ==> pages[k] < |m.frames| && m.usedBy[pages[k]] != 0)
    && (forall k, l :: 0 <= k < l < |pages| ==> pages[k] != pages[l])
  }

  /** A free frame is taken and zeroed. */
  ghost predicate Taken(m: Memory, m': Memory, f: nat) {
    && Shaped(m) && f < |m.usedBy| && m.usedBy[f] == 0
    && m' == Memory(m.frames[f := ZeroPage()], m.usedBy[f := 2], m.pd)
  }

  ghost predicate Mapped(m: Memory, m': Memory, t: nat, j: nat, f: nat) {
    && Shaped(m) && t < |m.frames| && j < 512 && m'.usedBy == m.usedBy && m'.pd == m.pd
    && m'.frames == m.frames[t := m.frames[t][j := Entry(true, f)]]
  }

  /** The frame is in no table and behind no page yet. */
  lemma TakenHolds(m: Memory, m': Memory, pages: seq<nat>, f: nat)
    requires Holds(m, pages) && Taken(m, m', f)
    ensures Holds(m', pages) && f !in pages && f != m.pd
    ensures NoTable(m', f)
    ensures m'.frames[m.pd] == m.frames[m.pd]
  {
  }

  /** A page joins below the last table. */
  lemma PageMapped(m: Memory, m': Memory, pages: seq<nat>, i: nat, j: nat, f: nat)
    requires Holds(m, pages) && 2 <= i < 512 && j < 512 && IsTable(m, i) && Index(i, j) == |pages|
    requires f !in pages && f < |m.frames| && m.usedBy[f] != 0 && f != m.pd
    requires NoTable(m, f)
    requires Mapped(m, m', Table(m, i), j, f)
    ensures Holds(m', pages + [f])
  {
  }

  /** A new, empty table joins after the last one, and at once gets its first page. */
  lemma TableMapped(m: Memory, m1: Memory, m': Memory, pages: seq<nat>, i: nat, t: nat, f: nat)
    requires Holds(m, pages) && 2 <= i < 512 && Index(i, 0) == |pages| && t < |m.frames| && f < |m.frames| && t != f
    requires f !in pages && m.usedBy[f] != 0 && f != m.pd && t !in pages && m.usedBy[t] != 0 && t != m.pd && m.frames[t] == ZeroPage()
    requires NoTable(m, f) && NoTable(m, t)
    requires Mapped(m, m1, m.pd, i, t) && Mapped(m1, m', t, 0, f)
    ensures Holds(m', pages + [f])
  {
  }

  /** Where the searches end, from the number of pages: the table before the first absent one, and
      the first absent entry of that table. */
  lemma SearchEnds(m: Memory, pages: seq<nat>, i: nat, j: nat)
    requires Holds(m, pages) && 2 <= i < 511 && j <= 512 && IsTable(m, i) && !IsTable(m, i + 1)
    requires Table(m, i) < |m.frames| && |m.frames[Table(m, i)]| == 512
    requires forall l :: 0 <= l < j ==> m.frames[Table(m, i)][l].p
    requires j == 512 || !m.frames[Table(m, i)][j].p
    ensures Index(i, j) == |pages| && |pages| <= 509 * 512
  {
    assert TableOk(m, pages, i);
    assert m.frames[m.pd][i + 1].p <==> Index(i + 1, 0) < |pages|;
    if j > 0 { assert m.frames[Table(m, i)][j - 1].p; }
  }

  /** What a call that maps one page does: one more page, zeroed; the others keep frame and contents. */
  ghost predicate OneMore(m: Memory, pages: seq<nat>, m': Memory, pages': seq<nat>) {
    && |pages'| == |pages| + 1 && pages'[..|pages|] == pages && Holds(m', pages')
    && m'.frames[pages'[|pages|]] == ZeroPage()
    && |m.frames| == |m'.frames| == |m.usedBy|
    && (forall f :: 0 <= f < |m.frames| && f in pages ==> m'.frames[f] == m.frames[f])
  }

  /** n more pages, all zeroed; the pages from before keep their frames and contents. */
  ghost predicate Extended(m: Memory, pages: seq<nat>, m': Memory, pages': seq<nat>, n: nat) {
    && |pages'| == |pages| + n && pages'[..|pages|] == pages && Holds(m', pages')
    && (forall k :: |pages| <= k < |pages'| ==> m'.frames[pages'[k]] == ZeroPage())
    && |m.frames| == |m'.frames|
    && (forall f :: 0 <= f < |m.frames| && f in pages ==> m'.frames[f] == m.frames[f])
  }

  lemma OneExtends(m: Memory, pages: seq<nat>, m': Memory, pages': seq<nat>)
    requires OneMore(m, pages, m', pages')
    ensures Extended(m, pages, m', pages', 1)
  {
  }

  lemma ExtendsTwice(m: Memory, pages: seq<nat>, m1: Memory, pages1: seq<nat>, m2: Memory, pages2: seq<nat>, n: nat)
    requires Extended(m, pages, m1, pages1, n) && OneMore(m1, pages1, m2, pages2)
    ensures Extended(m, pages, m2, pages2, n + 1)
  {
  }

  lemma TwoTaken(m: Memory, m1: Memory, m2: Memory, pages: seq<nat>, f: nat, t: nat)
    requires Holds(m, pages) && Taken(m, m1, f) && Taken(m1, m2, t) && Holds(m1, pages) && Holds(m2, pages)
    ensures f != t && m2.frames[f] == ZeroPage() && m2.frames[t] == ZeroPage()
    ensures NoTable(m2, f) && NoTable(m2, t)
  {
  }

  lemma TableJoins(m: Memory, m1: Memory, m2: Memory, m3: Memory, m4: Memory, pages: seq<nat>, i: nat, t: nat, f: nat)
    requires Holds(m, pages) && Taken(m, m1, f) && Taken(m1, m2, t) && 2 <= i < 512 && Index(i, 0) == |pages|
    requires Mapped(m2, m3, m.pd, i, t) && Mapped(m3, m4, t, 0, f)
    ensures OneMore(m, pages, m4, pages + [f])
  {
    TakenHolds(m, m1, pages, f);
    TakenHolds(m1, m2, pages, t);
    TwoTaken(m, m1, m2, pages, f, t);
    TableMapped(m2, m3, m4, pages, i, t, f);
  }

  datatype Outcome = Address(va: nat) | Halted | OutOfMemory

  /** The number of pages mapped when kbrk calls _kbrk for the last time. */
  function LastCount(n: nat, size: nat): int {
    if size == 0 then n else n + size / 4096 - 1
  }

  class KernelSpace {
    var m: Memory
    ghost var pages: seq<nat>   // the frames of the mapped pages, in order of their addresses

    ghost predicate Valid()
      reads this
    {
      Holds(m, pages)
    }

    /** A directory without tables from entry 2 on. */
    constructor (m: Memory)
      requires Shaped(m) && forall i :: 2 <= i < 512 ==> !m.frames[m.pd][i].p
      ensures Valid() && pages == [] && this.m == m
    {
      this.m := m;
      pages := [];
    }

    /** get_phy_page for one page. */
    method GetPage() returns (ok: bool, f: nat)
      requires Valid()
      modifies `m
      ensures Took(old(m).usedBy, m.usedBy, ok, 1)
      ensures ok ==> Taken(old(m), m, f) && Valid()
      ensures !ok ==> m == old(m)
    {
      f := FindFree(m.usedBy);
      ok := f < |m.usedBy|;
      NoneFree(m.usedBy);
      if ok {
        FrameTaken(m.usedBy, f, 2);
        m := Memory(m.frames[f := ZeroPage()], m.usedBy[f := 2], m.pd);
        TakenHolds(old(m), m, pages, f);
      }
    }

    /** move_kbrk below an existing table. */
    method AddEntry(i: nat, j: nat) returns (ok: bool)
      requires Valid() && 2 <= i < 512 && j < 512 && IsTable(m, i) && Index(i, j) == |pages|
      modifies this
      ensures Took(old(m).usedBy, m.usedBy, ok, 1)
      ensures ok ==> OneMore(old(m), old(pages), m, pages)
    {
      ghost var m0 := m;
      assert TableOk(m, pages, i);
      var f;
      ok, f := GetPage();
      if !ok { return; }
      TakenHolds(m0, m, pages, f);
      ghost var m1 := m;
      assert TableOk(m, pages, i);
      var t := m.frames[m.pd][i].frame;
      m := m.(frames := m.frames[t := m.frames[t][j := Entry(true, f)]]);
      PageMapped(m1, m, pages, i, j, f);
      pages := pages + [f];
    }

    /** move_kbrk with a new table. */
    method AddTable(i: nat) returns (ok: bool)
      requires Valid() && 2 <= i < 512 && Index(i, 0) == |pages|
      modifies this
      ensures Took(old(m).usedBy, m.usedBy, ok, 2)
      ensures ok ==> OneMore(old(m), old(pages), m, pages)
    {
      ghost var m0 := m;
      var f, t;
      ok, f := GetPage();
      if !ok { return; }
      ghost var m1 := m;
      ok, t := GetPage();
      if !ok { return; }
      ghost var m2 := m;
      m := m.(frames := m.frames[m.pd := m.frames[m.pd][i := Entry(true, t)]]);
      ghost var m3 := m;
      m := m.(frames := m.frames[t := m.frames[t][0 := Entry(true, f)]]);
      TableJoins(m0, m1, m2, m3, m, pages, i, t, f);
      pages := pages + [f];
    }

    /** _kbrk: the break is a counter of pages. */
    method KbrkPage(size: nat) returns (r: Outcome)
      requires Valid()
      modifies this
      ensures Took(old(m).usedBy, m.usedBy, !r.OutOfMemory?, 2)
      ensures r.Halted? <==> size > 4096 || |old(pages)| > 509 * 512
      ensures r.Address? ==> r.va == Break(|old(pages)|) && Valid()
      ensures r.Address? && size > 0 ==> OneMore(old(m), old(pages), m, pages)
      ensures r.Halted? || size == 0 ==> m == old(m) && pages == old(pages) && !r.OutOfMemory?
    {
      if size > 4096 { return Halted; }
      var i := 2;
      while i < 512
        invariant 2 <= i <= 512 && m == old(m) && pages == old(pages)
        invariant i > 2 ==> IsTable(m, i - 1)
      {
        if !m.frames[m.pd][i].p {
          if i == 2 {
            assert Index(2, 0) == |pages|;
            var ok := true;
            if size > 0 { ok := AddTable(2); }
            return if ok then Address(BASE + 0x40_0000) else OutOfMemory;
          }
          r := Locate(i - 1, size);
          return;
        }
        i := i + 1;
      }
      assert TableOk(m, pages, 511);
      return Halted;
    }

    /** The second search of _kbrk, in the last table. */
    method Locate(i: nat, size: nat) returns (r: Outcome)
      requires Valid() && 2 <= i < 511 && IsTable(m, i) && !IsTable(m, i + 1)
      modifies this
      ensures Took(old(m).usedBy, m.usedBy, !r.OutOfMemory?, 2)
      ensures !r.Halted? && |old(pages)| <= 509 * 512
      ensures r.Address? ==> r.va == Break(|old(pages)|) && Valid()
      ensures r.Address? && size > 0 ==> OneMore(old(m), old(pages), m, pages)
      ensures size == 0 ==> m == old(m) && pages == old(pages) && r.Address?
    {
      assert TableOk(m, pages, i);
      var t, j, ok := m.frames[m.pd][i].frame, 0, true;
      while j < 512
        invariant j <= 512 && m == old(m) && pages == old(pages)
        invariant forall l :: 0 <= l < j ==> m.frames[t][l].p
      {
        if !m.frames[t][j].p {
          SearchEnds(m, pages, i, j);
          if size > 0 { ok := AddEntry(i, j); }
          return if ok then Address(BASE + i * 0x20_0000 + j * 0x1000) else OutOfMemory;
        }
        j := j + 1;
      }
      SearchEnds(m, pages, i, 512);
      if size > 0 { ok := AddTable(i + 1); }
      return if ok then Address(BASE + (i + 1) * 0x20_0000) else OutOfMemory;
    }

    /** kbrk: one contiguous range of new zeroed pages, starting at the old break. */
    method Kbrk(size: nat) returns (r: Outcome)
      requires Valid()
      modifies this
      ensures Took(old(m).usedBy, m.usedBy, !r.OutOfMemory?, 2 * (size / 4096))
      ensures r.Halted? ==> size % 4096 != 0 || LastCount(|old(pages)|, size) > 509 * 512
      ensures r.Address? ==> size % 4096 == 0 && r.va == Break(|old(pages)|) && Extended(old(m), old(pages), m, pages, size / 4096)
      ensures size % 4096 != 0 || LastCount(|old(pages)|, size) > 509 * 512 ==> !r.Address?
    {
      if size % 4096 != 0 { return Halted; }
      if size == 0 {
        r := KbrkPage(0);
        return;
      }
      ghost var m0, pages0 := m, pages;
      r := KbrkPage(4096);
      if r.Address? { OneExtends(m0, pages0, m, pages); }
      ghost var done, total := 1, size / 4096;
      var left := size - 4096;
      while r.Address? && left > 0
        invariant 1 <= done <= total && left == 4096 * (total - done)
        invariant r.Address? ==> Extended(m0, pages0, m, pages, done) && |pages0| + done <= 509 * 512 + 1 && r.va == Break(|pages0|)
        invariant r.Halted? ==> |pages0| + done - 1 > 509 * 512
        invariant Took(m0.usedBy, m.usedBy, !r.OutOfMemory?, 2 * done)
      {
        ghost var m1, pages1 := m, pages;
        var s := KbrkPage(4096);
        if s.Address? { ExtendsTwice(m0, pages0, m1, pages1, m, pages, done); } else { r := s; }
        left, done := left - 4096, done + 1;
      }
    }
  }
}
