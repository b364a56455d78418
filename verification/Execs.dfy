/** sys_exec on a program in the archive: replace_process builds the new address space with blank pages
    for the bytes that the sections have in the file, and sys_exec then writes the sections through the
    addresses of the process itself. */
module Execs {
  import opened Bytes
  import opened FreeFrames
  import opened PageTables
  import opened PageBytes
  import opened AddressModel
  import opened AddressSteps
  import opened AddressSpaces
  import opened Programs
  import Tarfs
  import Loader

  /** How exec ends: with the new program, without a free frame, at an assertion, or with a write to a
      page that is not there. */
  datatype ExecOutcome = Executed | NoFrames | Stopped | NoPage

  /** A section whose zero bytes, if any, are in the page of its last byte in the file. */
  ghost predicate Whole(s: Loader.Section) {
    s.size == s.memSize || (0 < s.size && forall k: nat {:trigger Boundary(s, k)} :: s.size <= k < s.memSize ==> !Boundary(s, k))
  }

  /** Byte k of the section starts a page. */
  ghost predicate Boundary(s: Loader.Section, k: nat) {
    (s.memoryOffset + k) % PAGE == 0
  }

  /** The same, by the pages of the two ends. */
  lemma WholeByPages(s: Loader.Section)
    requires s.size <= s.memSize
    ensures Whole(s) <==>
      s.size == s.memSize || (0 < s.size && Loader.Base(s.memoryOffset + s.memSize - 1) == Loader.Base(s.memoryOffset + s.size - 1))
  {
    if 0 < s.size < s.memSize {
      var last, end := s.memoryOffset + s.size - 1, s.memoryOffset + s.memSize - 1;
      Loader.BaseOrder(last, end);
      if Loader.Base(end) == Loader.Base(last) {
        forall k: nat | s.size <= k < s.memSize
          ensures !Boundary(s, k)
        {
          NoBoundary(last, s.memoryOffset + k, end);
        }
      } else {
        BoundaryBetween(last, end);
        assert Boundary(s, Loader.Base(end) - s.memoryOffset);
      }
    }
  }

  lemma NoBoundary(last: nat, va: nat, end: nat)
    requires last < va <= end && Loader.Base(end) == Loader.Base(last)
    ensures va % PAGE != 0
  {
    Loader.BaseOrder(last, va);
    Loader.BaseOrder(va, end);
  }

  lemma BoundaryBetween(last: nat, end: nat)
    requires last < end && Loader.Base(end) != Loader.Base(last)
    ensures last < Loader.Base(end) <= end && Loader.Base(end) % PAGE == 0
  {
    Loader.BaseOrder(last, end);
    if Loader.Base(end) <= last { Loader.BaseOrder(Loader.Base(end), last); }
  }

  ghost predicate AllWhole(sections: seq<Loader.Section>, n: nat)
    requires n <= |sections|
  {
    forall i {:trigger sections[i]} :: 0 <= i < n ==> Whole(sections[i])
  }

  // ----- The stack pages -----

  /** How many pages replace_process adds for an initial stack of the given size. */
  function StackCount(size: nat): nat {
    (size + 0xFFF) / 0x1000
  }

  /** An address in the k-th stack page: process_initial_rsp - 16 - 4096 * k. */
  function StackAddress(k: nat): int {
    RSP0_BASE - 16 - 0x1000 * k
  }

  ghost predicate StackPagesAre(pages: seq<seq<nat>>, n: nat) {
    && |pages| == n && 0x1000 * n <= RSP0_BASE
    && forall k {:trigger pages[k]} :: 0 <= k < n ==> 0 <= StackAddress(k) && pages[k] == PageOf(StackAddress(k))
  }

  /** Where the k-th stack page is. */
  lemma StackPlace(a: nat, k: nat)
    requires a < USER_END && 0x1000 * (k + 1) <= RSP0_BASE
    ensures 0 <= StackAddress(k) < USER_END && UserPage(PageOf(StackAddress(k)))
    ensures PageOf(a) == PageOf(StackAddress(k)) <==> RSP0_BASE - 0x1000 * (k + 1) <= a < RSP0_BASE - 0x1000 * k
  {
    UserAddress(StackAddress(k));
    SamePages(a, StackAddress(k));
    SameBase(a, StackAddress(k));
    StackIndex(a, k);
  }

  lemma StackIndex(a: nat, k: nat)
    requires 0x1000 * (k + 1) <= RSP0_BASE
    ensures a / 0x1000 == StackAddress(k) / 0x1000 <==> RSP0_BASE - 0x1000 * (k + 1) <= a < RSP0_BASE - 0x1000 * k
  {
    assert RSP0_BASE == 0x1000 * (RSP0_BASE / 0x1000);
    var q := RSP0_BASE / 0x1000 - 1 - k;
    assert StackAddress(k) == 0x1000 * q + 0xFF0;
    assert StackAddress(k) / 0x1000 == q;
    assert a / 0x1000 == q <==> 0x1000 * q <= a < 0x1000 * q + 0x1000;
  }

  lemma StackPagesNext(pages: seq<seq<nat>>, k: nat)
    requires StackPagesAre(pages, k) && 0x1000 * (k + 1) <= RSP0_BASE
    ensures 0 <= StackAddress(k) && StackPagesAre(pages + [PageOf(StackAddress(k))], k + 1)
  {
    assert 0 <= StackAddress(k);
    var more := pages + [PageOf(StackAddress(k))];
    forall l | 0 <= l < k + 1
      ensures 0 <= StackAddress(l) && more[l] == PageOf(StackAddress(l))
    {
      if l < k { assert more[l] == pages[l]; }
    }
  }

  /** The pages, from the top down. */
  method StackPageList(size: nat) returns (pages: seq<seq<nat>>)
    requires size + 0x1000 <= RSP0_BASE
    ensures StackPagesAre(pages, StackCount(size))
  {
    pages := [];
    var counter := 0;
    ghost var k: nat := 0;
    while counter < size
      invariant counter == 0x1000 * k && StackPagesAre(pages, k) && k <= StackCount(size)
    {
      assert RSP0_BASE - 16 - counter == StackAddress(k) >= 0;
      StackPagesNext(pages, k);
      pages := pages + [PageOf(RSP0_BASE - 16 - counter)];
      counter, k := counter + 0x1000, k + 1;
    }
  }

  lemma StackPagesDiffer(pages: seq<seq<nat>>, n: nat)
    requires StackPagesAre(pages, n)
    ensures RSP0 !in pages && forall i :: 0 <= i < n ==> UserPage(pages[i])
    ensures forall i, j :: 0 <= i < j < n ==> pages[i] != pages[j]
  {
    StackPages();
    forall i | 0 <= i < n
      ensures UserPage(pages[i]) && pages[i] != RSP0
    {
      StackPlace(RSP0_BASE, i);
      assert pages[i] == PageOf(StackAddress(i));
    }
    forall i, j | 0 <= i < j < n
      ensures pages[i] != pages[j]
    {
      StackPlace(StackAddress(i), j);
      assert pages[i] == PageOf(StackAddress(i)) && pages[j] == PageOf(StackAddress(j));
    }
  }

  /** Which addresses the stack pages cover. */
  lemma StackCovers(pages: seq<seq<nat>>, n: nat, a: nat)
    requires StackPagesAre(pages, n) && a < USER_END
    ensures PageOf(a) in pages <==> RSP0_BASE - 0x1000 * n <= a < RSP0_BASE
  {
    forall k | 0 <= k < n
      ensures PageOf(a) == pages[k] <==> RSP0_BASE - 0x1000 * (k + 1) <= a < RSP0_BASE - 0x1000 * k
    {
      StackPlace(a, k);
      assert pages[k] == PageOf(StackAddress(k));
    }
    if RSP0_BASE - 0x1000 * n <= a < RSP0_BASE {
      var k := (RSP0_BASE - 1 - a) / 0x1000;
      assert 0x1000 * k <= RSP0_BASE - 1 - a < 0x1000 * (k + 1);
      assert 0 <= k < n && pages[k] == PageOf(a);
    }
  }

  /** The processes but pid. */
  ghost function Without(b: Book, pid: nat): Book {
    b.(alive := b.alive - {pid})
  }

  /** After the first part of replace_process: the stacks alone. */
  lemma StacksOnly(s0: Sys, b0: Book, s: Sys, b: Book, pid: nat, p: Program, pages: seq<seq<nat>>, n: nat, rsp0: seq<Cell>)
    requires Settled(s, b) && Fresh(s0, b0, s, b, pid, Mapped(rsp0), pages) && pid in b0.alive && StackPagesAre(pages, n)
    requires Loader.AllLoadable(p.data, p.sections) && p.ground == Ground(RSP0_BASE - 0x1000 * n, rsp0, []) && |rsp0| == 512
    ensures Alone(s, b, pid, s0, Without(b0, pid)) && Programs.Loaded(s, pid, p, 0)
  {
    assert ProcessOk(s, b, pid);
    assert b.alive == Without(b0, pid).alive + {pid};
    forall a: nat | a < USER_END
      ensures ByteAt(s, pid, a) == Start(p.ground, a)
    {
      UserAddress(a);
      StackAddresses(a);
      StackCovers(pages, n, a);
      ZeroPage(a % PAGE);
    }
  }

  // ----- Blank pages -----

  /** Every page below the stack is writable. */
  ghost predicate AllWritable(s: Sys, pid: nat, floor: nat) {
    forall a: nat {:trigger Writable(s, pid, a)} :: a < floor <= RSP0_BASE && ByteAt(s, pid, a).Present? ==> Writable(s, pid, a)
  }

  lemma NoneToWrite(s: Sys, pid: nat, p: Program)
    requires Programs.Loaded(s, pid, p, 0) && p.ground.blank == []
    ensures AllWritable(s, pid, p.ground.floor)
  {
    forall a: nat | a < p.ground.floor <= RSP0_BASE
      ensures ByteAt(s, pid, a) == Loader.Absent
    {
      assert ByteAt(s, pid, a) == Start(p.ground, a);
    }
  }

  lemma PageMadeWritable(s: Sys, s': Sys, pid: nat, va: nat, frame: nat, floor: nat)
    requires AllWritable(s, pid, floor) && PageAdded(s, s', pid, va) && Behind(s', pid, va, frame) && StayWritable(s, s', pid) && va < USER_END
    ensures AllWritable(s', pid, floor)
  {
    forall a: nat | a < floor <= RSP0_BASE && ByteAt(s', pid, a).Present?
      ensures Writable(s', pid, a)
    {
      assert ByteAt(s', pid, a) == Loader.InNewPage(ByteAt(s, pid, a), va, a);
      if Loader.SamePage(a, va) { SamePages(a, va); } else { assert Writable(s, pid, a); }
    }
  }

  ghost function Zeros(n: nat): (z: seq<byte>)
    ensures |z| == n && forall j :: 0 <= j < n ==> z[j] == 0
  {
    seq(n, _ => 0)
  }

  /** A zeroed page is a page with zeros written to it. */
  lemma PageIsZeros(s: Sys, s': Sys, pid: nat, va: nat, n: nat)
    requires PageAdded(s, s', pid, va) && n <= PAGE - va % PAGE
    ensures ChunkAdded(s, s', pid, va, Zeros(n))
  {
    forall a: nat | a < USER_END
      ensures ByteAt(s', pid, a) == Loader.Stored(Loader.InNewPage(ByteAt(s, pid, a), va, a), va, Zeros(n), a)
    {
      Loader.InChunk(a, va, n);
    }
  }

  /** What replace_process has done for the first k bytes of section n. */
  ghost predicate Blanking(st: Sys, bk: Book, used: seq<nat>, pid: nat, s: Loader.Section, k: nat, frame: nat, ok: bool,
                           u: seq<nat>, p: Program, n: nat, s0: Sys, b0: Book) {
    Loading(st, bk, used, pid, s, k, frame, ok, u, p, n, s0, b0) && (ok ==> AllWritable(st, pid, p.ground.floor))
  }

  /** A new page where the next bytes of section n will go. */
  method PlaceBlank(ker: Kernel, pid: nat, va: nat, ghost s: Loader.Section, ghost k: nat, ghost k': nat, ghost frame0: nat, ghost u: seq<nat>,
                    ghost p: Program, ghost n: nat, ghost s0: Sys, ghost b0: Book)
      returns (ok: bool, ghost frame: nat)
    requires Loadable(p) && n < |p.sections| && s == p.sections[n] && s.size == 0 && va == s.memoryOffset + k && (k == 0 || va % PAGE == 0)
    requires k < k' <= s.memSize && k' <= k + PAGE - va % PAGE
    requires Blanking(ker.S(), ker.book, ker.usedBy, pid, s, k, frame0, true, u, p, n, s0, b0)
    modifies ker
    ensures Blanking(ker.S(), ker.book, ker.usedBy, pid, s, k', frame, ok, u, p, n, s0, b0)
  {
    ghost var st, u1 := ker.S(), ker.usedBy;
    BlankAbsent(st, pid, p, n, k, va);
    var f;
    ok, f := Programs.NewPage(ker, pid, va, s0, b0);
    frame := f;
    BlankPlaced(st, ker.S(), ker.book, u1, ker.usedBy, pid, s, k, k', va, frame, ok, u, p, n, s0, b0);
  }

  lemma BlankAbsent(st: Sys, pid: nat, p: Program, n: nat, k: nat, va: nat)
    requires Loadable(p) && Filled(st, pid, p, n, k) && k < p.sections[n].memSize && va == p.sections[n].memoryOffset + k && (k == 0 || va % PAGE == 0)
    ensures va < USER_END && ByteAt(st, pid, va) == Loader.Absent
  {
    NextAbsent(st, pid, p, n, k);
  }

  lemma BlankPlaced(st: Sys, st1: Sys, bk: Book, used: seq<nat>, used1: seq<nat>, pid: nat, s: Loader.Section, k: nat, k': nat, va: nat, frame: nat, ok: bool,
                    u: seq<nat>, p: Program, n: nat, s0: Sys, b0: Book)
    requires Loadable(p) && n < |p.sections| && s == p.sections[n] && s.size == 0 && va == s.memoryOffset + k && (k == 0 || va % PAGE == 0)
    requires k < k' <= s.memSize && k' <= k + PAGE - va % PAGE && va < USER_END
    requires Filled(st, pid, p, n, k) && Spent(u, used, true, s, k) && AllWritable(st, pid, p.ground.floor) && Took(used, used1, ok, 4)
    requires ok ==> Alone(st1, bk, pid, s0, b0) && PageAdded(st, st1, pid, va) && Behind(st1, pid, va, frame) && StayWritable(st, st1, pid)
    ensures Blanking(st1, bk, used1, pid, s, k', frame, ok, u, p, n, s0, b0)
  {
    if ok {
      PageIsZeros(st, st1, pid, va, k' - k);
      PageMadeWritable(st, st1, pid, va, frame, p.ground.floor);
    }
    assert Loader.Loadable(p.data, p.sections[n]);
    ChunkLoaded(st, st1, bk, used, used1, pid, s, k, k', va, Zeros(k' - k), frame, ok, u, p, n, s0, b0);
  }

  /** Byte k of the section is at va, and starts a page unless it is the first or there is none left. */
  ghost predicate ChunkStarts(s: Loader.Section, k: nat, va: nat, remain: nat) {
    k + remain == s.size && va == s.memoryOffset + k && (k == 0 || remain == 0 || va % PAGE == 0)
  }

  method BlankChunk(ker: Kernel, pid: nat, s: Loader.Section, va: nat, remain: nat, ghost k: nat, ghost frame: nat, ghost u: seq<nat>,
                    ghost p: Program, ghost n: nat, ghost s0: Sys, ghost b0: Book)
      returns (ok: bool, va': nat, remain': nat, ghost k': nat, ghost frame': nat)
    requires Loadable(p) && n < |p.sections| && p.sections[n] == Blank(s) && ChunkStarts(s, k, va, remain) && remain != 0
    requires Blanking(ker.S(), ker.book, ker.usedBy, pid, p.sections[n], k, frame, true, u, p, n, s0, b0)
    modifies ker
    ensures remain' < remain && ChunkStarts(s, k', va', remain')
    ensures Blanking(ker.S(), ker.book, ker.usedBy, pid, p.sections[n], k', frame', ok, u, p, n, s0, b0)
  {
    var toRead := Loader.Min3(PAGE, PAGE - va % PAGE, remain);
    Loader.NextChunk(va, toRead, remain);
    k' := k + toRead;
    ok, frame' := PlaceBlank(ker, pid, va, p.sections[n], k, k', frame, u, p, n, s0, b0);
    va', remain' := va + toRead, remain - toRead;
  }

  /** The loop of replace_process over the file's part of section n. */
  method BlankSection(ker: Kernel, pid: nat, s: Loader.Section, ghost u: seq<nat>, ghost p: Program, ghost n: nat, ghost s0: Sys, ghost b0: Book)
      returns (ok: bool, ghost k: nat, ghost frame: nat)
    requires Loadable(p) && n < |p.sections| && p.sections[n] == Blank(s)
    requires Blanking(ker.S(), ker.book, ker.usedBy, pid, p.sections[n], 0, 0, true, u, p, n, s0, b0)
    modifies ker
    ensures k <= s.size && (ok ==> k == s.size)
    ensures Blanking(ker.S(), ker.book, ker.usedBy, pid, p.sections[n], k, frame, ok, u, p, n, s0, b0)
  {
    k, frame := 0, 0;
    var va, remain := s.memoryOffset, s.size;
    ok := true;
    while ok && remain != 0
      invariant ChunkStarts(s, k, va, remain)
      invariant Blanking(ker.S(), ker.book, ker.usedBy, pid, p.sections[n], k, frame, ok, u, p, n, s0, b0)
      decreases remain
    {
      ok, va, remain, k, frame := BlankChunk(ker, pid, s, va, remain, k, frame, u, p, n, s0, b0);
    }
  }

  lemma BlankBegins(st: Sys, bk: Book, used: seq<nat>, pid: nat, p: Program, n: nat, s0: Sys, b0: Book)
    requires n < |p.sections| && Alone(st, bk, pid, s0, b0) && Programs.Loaded(st, pid, p, n) && AllWritable(st, pid, p.ground.floor)
    ensures Blanking(st, bk, used, pid, p.sections[n], 0, 0, true, used, p, n, s0, b0)
  {
    SectionBegins(st, pid, p, n);
  }

  lemma BlankEnds(st: Sys, bk: Book, used: seq<nat>, used1: seq<nat>, pid: nat, u: seq<nat>, p: Program, n: nat, k: nat, frame: nat, ok: bool, s0: Sys, b0: Book)
    requires n < |p.sections| && SpentOn(u, used, true, p, n) && k <= p.sections[n].memSize && (ok ==> k == p.sections[n].memSize)
    requires Blanking(st, bk, used1, pid, p.sections[n], k, frame, ok, used, p, n, s0, b0)
    ensures BlankedSoFar(st, bk, used1, pid, u, p, n + 1, ok, s0, b0)
  {
    SpentLess(used, used1, ok, p.sections[n], k, p.sections[n].memSize);
    SpentSection(u, used, used1, ok, p, n);
    if ok { SectionEnds(st, pid, p, n); }
  }

  ghost predicate BlankedSoFar(s: Sys, b: Book, used: seq<nat>, pid: nat, u: seq<nat>, p: Program, n: nat, ok: bool, s0: Sys, b0: Book) {
    && n <= |p.sections| && SpentOn(u, used, ok, p, n)
    && (ok ==> Alone(s, b, pid, s0, b0) && Programs.Loaded(s, pid, p, n) && AllWritable(s, pid, p.ground.floor))
  }

  method BlankNext(ker: Kernel, pid: nat, sections: seq<Loader.Section>, i: nat, ghost u: seq<nat>, ghost p: Program, ghost s0: Sys, ghost b0: Book)
      returns (ok: bool, i': nat)
    requires Loadable(p) && i < |sections| && p.sections == Blanks(sections)
    requires BlankedSoFar(ker.S(), ker.book, ker.usedBy, pid, u, p, i, true, s0, b0)
    modifies ker
    ensures i' == i + 1 && BlankedSoFar(ker.S(), ker.book, ker.usedBy, pid, u, p, i', ok, s0, b0)
  {
    ghost var u1 := ker.usedBy;
    BlankBegins(ker.S(), ker.book, u1, pid, p, i, s0, b0);
    ghost var k, frame;
    ok, k, frame := BlankSection(ker, pid, sections[i], u1, p, i, s0, b0);
    i' := i + 1;
    BlankEnds(ker.S(), ker.book, u1, ker.usedBy, pid, u, p, i, k, frame, ok, s0, b0);
  }

  /** replace_process's loop over the sections. */
  method BlankSections(ker: Kernel, pid: nat, sections: seq<Loader.Section>, ghost p: Program, ghost s0: Sys, ghost b0: Book) returns (ok: bool)
    requires Loadable(p) && p.sections == Blanks(sections)
    requires Alone(ker.S(), ker.book, pid, s0, b0) && Programs.Loaded(ker.S(), pid, p, 0)
    modifies ker
    ensures SpentOn(old(ker.usedBy), ker.usedBy, ok, p, |sections|)
    ensures ok ==> Alone(ker.S(), ker.book, pid, s0, b0) && Programs.Loaded(ker.S(), pid, p, |sections|) && AllWritable(ker.S(), pid, p.ground.floor)
  {
    ghost var u := ker.usedBy;
    NoneToWrite(ker.S(), pid, p);
    var i: nat := 0;
    ok := true;
    while ok && i < |sections|
      invariant i <= |sections| && BlankedSoFar(ker.S(), ker.book, ker.usedBy, pid, u, p, i, ok, s0, b0)
    {
      ok, i := BlankNext(ker, pid, sections, i, u, p, s0, b0);
    }
    SpentAll(u, ker.usedBy, ok, p, i);
  }

  // ----- The contents -----

  /** A program whose sections have blank pages. */
  ghost predicate Laid(p: Program) {
    && Loader.AllLoadable(p.data, p.sections) && Loader.PageDisjoint(p.sections)
    && BelowStack(p.sections, p.ground.floor) && p.ground.blank == p.sections
  }

  /** The blank pages are the ground on which the contents are written. */
  lemma GroundLaid(s: Sys, pid: nat, blank: Program, p: Program)
    requires Programs.Loaded(s, pid, blank, |blank.sections|) && blank.data == [] && blank.sections == Blanks(p.sections) && blank.ground.blank == []
    requires Loader.AllLoadable(p.data, p.sections) && p.ground == blank.ground.(blank := p.sections)
    ensures Programs.Loaded(s, pid, p, 0)
  {
    forall a: nat | a < USER_END
      ensures ByteAt(s, pid, a) == Start(p.ground, a)
    {
      assert Start(blank.ground, a) == Stacks(blank.ground, a) == Stacks(p.ground, a);
    }
  }

  /** In the pages of a section's bytes in the file there were zeros before, whatever was written for
      sections before it. */
  lemma ZerosUnder(p: Program, n: nat, a: nat)
    requires Laid(p) && n < |p.sections| && Loader.Touched(a, p.sections[n], p.sections[n].size)
    ensures Loader.Images(Start(p.ground, a), p.data, p.sections, n, a) == Loader.Present(0)
  {
    var sec := p.sections[n];
    TouchedMore(a, sec, sec.size, sec.memSize);
    forall i | 0 <= i < |p.sections| && i != n
      ensures !Loader.InSection(a, p.sections[i])
    {
      assert Loader.InSection(a, p.sections[n]);
    }
    Loader.OutsideSections(Start(p.ground, a), p.data, p.sections, n, a);
    BlankUnder(Stacks(p.ground, a), p.sections, |p.sections|, n, a);
  }

  lemma TouchedMore(a: nat, s: Loader.Section, k: nat, l: nat)
    requires k <= l && Loader.Touched(a, s, k)
    ensures Loader.Touched(a, s, l)
  {
    Loader.BaseOrder(s.memoryOffset + k - 1, s.memoryOffset + l - 1);
  }

  lemma {:induction false} BlankUnder(was: Loader.Slot, sections: seq<Loader.Section>, m: nat, n: nat, a: nat)
    requires n < m <= |sections| && Loader.Touched(a, sections[n], sections[n].size)
    ensures Loader.Images(was, [], Blanks(sections), m, a) == Loader.Present(0)
  {
    var blank := Blanks(sections)[m - 1];
    if n < m - 1 { BlankUnder(was, sections, m - 1, n, a); }
  }

  /** The next bytes of section n, over zeros. */
  lemma WantOver(p: Program, n: nat, k: nat, k': nat, va: nat, bytes: seq<byte>, a: nat)
    requires Laid(p) && ChunkOk(p, n, k, bytes) && k' == k + |bytes| <= p.sections[n].size && va == p.sections[n].memoryOffset + k
    ensures Loader.Stored(Want(p, n, k, a), va, bytes, a) == Want(p, n, k', a)
  {
    var sec := p.sections[n];
    if Loader.Touched(a, sec, k') {
      TouchedMore(a, sec, k', sec.size);
      ZerosUnder(p, n, a);
    }
    Loader.ChunkOverZeros(Loader.Images(Start(p.ground, a), p.data, p.sections, n, a), p.data, sec, k, bytes, va, a);
  }

  /** Where bytes from the file will go there is a page. */
  lemma WantPresent(p: Program, n: nat, k: nat, va: nat)
    requires Laid(p) && n < |p.sections| && k < p.sections[n].size && va == p.sections[n].memoryOffset + k
    ensures Want(p, n, k, va).Present?
  {
    var sec := p.sections[n];
    Loader.BytesTouched(va, sec, sec.size);
    ZerosUnder(p, n, va);
    assert Loader.Loadable(p.data, p.sections[n]);
  }

  /** A zero byte of section n, in the page of the byte before it. */
  lemma WantZero(p: Program, n: nat, k: nat, k': nat, va: nat, a: nat)
    requires Laid(p) && n < |p.sections| && p.sections[n].size <= k < p.sections[n].memSize && 0 < k && k' == k + 1
    requires va == p.sections[n].memoryOffset + k && va % PAGE != 0
    ensures Loader.Stored(Want(p, n, k, a), va, [0], a) == Want(p, n, k', a)
    ensures Want(p, n, k, va).Present?
  {
    var sec := p.sections[n];
    var was := Loader.Images(Start(p.ground, a), p.data, p.sections, n, a);
    assert Loader.Loadable(p.data, p.sections[n]);
    Loader.ByteInImage(was, p.data, sec, k, a);
    assert [Loader.ByteOf(p.data, sec, k)] == [0];
    Loader.NextTouched(sec, k, 1, va);
  }

  /** The first k bytes of section n are written; every page is writable. */
  ghost predicate Writing(st: Sys, bk: Book, pid: nat, p: Program, n: nat, k: nat, s0: Sys, b0: Book) {
    Alone(st, bk, pid, s0, b0) && Filled(st, pid, p, n, k) && AllWritable(st, pid, p.ground.floor)
  }

  lemma BytesWritten(st: Sys, st': Sys, bk: Book, bk': Book, pid: nat, p: Program, n: nat, k: nat, k': nat, va: nat, bytes: seq<byte>, s0: Sys, b0: Book)
    requires Laid(p) && Writing(st, bk, pid, p, n, k, s0, b0) && Alone(st', bk', pid, s0, b0)
    requires BytesAdded(st, st', pid, va, bytes) && StayWritable(st, st', pid) && va < USER_END && ByteAt(st, pid, va).Present? && va % PAGE + |bytes| <= PAGE
    requires forall a: nat {:trigger Want(p, n, k', a)} :: a < USER_END ==> Loader.Stored(Want(p, n, k, a), va, bytes, a) == Want(p, n, k', a)
    requires forall a: nat :: va <= a < va + |bytes| ==> Loader.SamePage(a, va)
    ensures Writing(st', bk', pid, p, n, k', s0, b0)
  {
    forall a: nat | a < USER_END
      ensures ByteAt(st', pid, a) == Want(p, n, k', a)
    {
      assert ByteAt(st, pid, a) == Want(p, n, k, a);
    }
    forall a: nat | a < p.ground.floor <= RSP0_BASE && ByteAt(st', pid, a).Present?
      ensures Writable(st', pid, a)
    {
      assert ByteAt(st', pid, a) == Loader.Stored(ByteAt(st, pid, a), va, bytes, a);
      if va <= a < va + |bytes| { PresentTogether(st, pid, va, a); }
      assert Writable(st, pid, a);
    }
  }

  /** Either all bytes of a page are there or none. */
  lemma PresentTogether(s: Sys, pid: nat, va: nat, a: nat)
    requires va < USER_END && a < USER_END && Loader.SamePage(a, va) && ByteAt(s, pid, va).Present?
    ensures ByteAt(s, pid, a).Present?
  {
    SamePages(a, va);
  }

  /** A write through the address of the process. */
  method WriteThrough(ker: Kernel, pid: nat, va: nat, bytes: seq<byte>, ghost p: Program, ghost n: nat, ghost k: nat, ghost k': nat, ghost s0: Sys, ghost b0: Book)
    requires Laid(p) && Writing(ker.S(), ker.book, pid, p, n, k, s0, b0)
    requires va < p.ground.floor && va % PAGE + |bytes| <= PAGE && ByteAt(ker.S(), pid, va).Present?
    requires forall a: nat {:trigger Want(p, n, k', a)} :: a < USER_END ==> Loader.Stored(Want(p, n, k, a), va, bytes, a) == Want(p, n, k', a)
    modifies ker
    ensures ker.usedBy == old(ker.usedBy) && Writing(ker.S(), ker.book, pid, p, n, k', s0, b0)
  {
    ghost var st, bk := ker.S(), ker.book;
    assert Writable(st, pid, va);
    UserAddress(va);
    FaultingPage(st, bk, pid, PageOf(va));
    var frame := Walk(ker.mem, ker.procs[pid].cr3, PageOf(va), 0).frame;
    WriteChunk(ker, pid, va, frame, bytes, s0, b0);
    forall a: nat | va <= a < va + |bytes|
      ensures Loader.SamePage(a, va)
    {
      Loader.InChunk(a, va, |bytes|);
    }
    BytesWritten(st, ker.S(), bk, ker.book, pid, p, n, k, k', va, bytes, s0, b0);
  }

  /** The next bytes of section n from the file. */
  method WriteNext(ker: Kernel, pid: nat, b: seq<byte>, path: seq<byte>, s: Loader.Section, k: nat, remain: nat,
                   ghost files: seq<Tarfs.File>, ghost p: Program, ghost n: nat, ghost s0: Sys, ghost b0: Book) returns (k': nat)
    requires FileData(b, path, files, p.data) && Laid(p) && n < |p.sections| && s == p.sections[n]
    requires k + remain == s.size && remain > 0 && Writing(ker.S(), ker.book, pid, p, n, k, s0, b0)
    modifies ker
    ensures ker.usedBy == old(ker.usedBy) && k < k' <= s.size && Writing(ker.S(), ker.book, pid, p, n, k', s0, b0)
  {
    var bytes := NextBytes(b, path, s, k, remain, files, p, n);
    k' := k + |bytes|;
    var va := s.memoryOffset + k;
    AllWantOver(ker.S(), pid, p, n, k, k', va, bytes);
    WriteThrough(ker, pid, va, bytes, p, n, k, k', s0, b0);
  }

  lemma AllWantOver(st: Sys, pid: nat, p: Program, n: nat, k: nat, k': nat, va: nat, bytes: seq<byte>)
    requires Laid(p) && ChunkOk(p, n, k, bytes) && k' == k + |bytes| <= p.sections[n].size && va == p.sections[n].memoryOffset + k && Filled(st, pid, p, n, k)
    ensures va < p.ground.floor && va % PAGE + |bytes| <= PAGE && ByteAt(st, pid, va).Present?
    ensures forall a: nat {:trigger Want(p, n, k', a)} :: a < USER_END ==> Loader.Stored(Want(p, n, k, a), va, bytes, a) == Want(p, n, k', a)
  {
    assert p.sections[n].memoryOffset + p.sections[n].memSize <= p.ground.floor;
    assert Loader.Loadable(p.data, p.sections[n]);
    forall a: nat | a < USER_END
      ensures Loader.Stored(Want(p, n, k, a), va, bytes, a) == Want(p, n, k', a)
    {
      WantOver(p, n, k, k', va, bytes, a);
    }
    WantPresent(p, n, k, va);
    assert ByteAt(st, pid, va) == Want(p, n, k, va);
  }

  /** The loop of sys_exec over the file's part of section n. */
  method WriteFilePart(ker: Kernel, pid: nat, b: seq<byte>, path: seq<byte>, s: Loader.Section,
                       ghost files: seq<Tarfs.File>, ghost p: Program, ghost n: nat, ghost s0: Sys, ghost b0: Book)
    requires FileData(b, path, files, p.data) && Laid(p) && n < |p.sections| && s == p.sections[n]
    requires Writing(ker.S(), ker.book, pid, p, n, 0, s0, b0)
    modifies ker
    ensures ker.usedBy == old(ker.usedBy) && Writing(ker.S(), ker.book, pid, p, n, s.size, s0, b0)
  {
    var k: nat := 0;
    while k < s.size
      invariant k <= s.size && ker.usedBy == old(ker.usedBy) && Writing(ker.S(), ker.book, pid, p, n, k, s0, b0)
    {
      k := WriteNext(ker, pid, b, path, s, k, s.size - k, files, p, n, s0, b0);
    }
  }

  /** A zero byte behind the bytes from the file. */
  method WriteZero(ker: Kernel, pid: nat, s: Loader.Section, k: nat, ghost p: Program, ghost n: nat, ghost s0: Sys, ghost b0: Book)
      returns (r: ExecOutcome, k': nat)
    requires Laid(p) && n < |p.sections| && s == p.sections[n] && s.size <= k < s.memSize && Writing(ker.S(), ker.book, pid, p, n, k, s0, b0)
    modifies ker
    ensures k' == k + 1 && (r == Stopped <==> Boundary(s, k)) && (r == NoPage <==> k == 0 && !Boundary(s, k)) && r != NoFrames
    ensures r == Executed ==> ker.usedBy == old(ker.usedBy) && Writing(ker.S(), ker.book, pid, p, n, k', s0, b0)
  {
    k' := k + 1;
    var va := s.memoryOffset + k;
    if va % PAGE == 0 { return Stopped, k'; }
    if k == 0 { return NoPage, k'; }
    ghost var st := ker.S();
    assert s.memoryOffset + s.memSize <= p.ground.floor;
    forall a: nat | a < USER_END
      ensures Loader.Stored(Want(p, n, k, a), va, [0], a) == Want(p, n, k', a)
    {
      WantZero(p, n, k, k', va, a);
    }
    WantZero(p, n, k, k', va, va);
    assert ByteAt(st, pid, va) == Want(p, n, k, va);
    WriteThrough(ker, pid, va, [0], p, n, k, k', s0, b0);
    r := Executed;
  }

  /** Both loops of sys_exec for section n. */
  method WriteSection(ker: Kernel, pid: nat, b: seq<byte>, path: seq<byte>, s: Loader.Section,
                      ghost files: seq<Tarfs.File>, ghost p: Program, ghost n: nat, ghost s0: Sys, ghost b0: Book) returns (r: ExecOutcome, ghost k': nat)
    requires FileData(b, path, files, p.data) && Laid(p) && n < |p.sections| && s == p.sections[n]
    requires Writing(ker.S(), ker.book, pid, p, n, 0, s0, b0)
    modifies ker
    ensures ZeroedTo(s, k', r) && (r == Executed ==> k' == s.memSize)
    ensures r == Executed ==> ker.usedBy == old(ker.usedBy) && Writing(ker.S(), ker.book, pid, p, n, k', s0, b0)
  {
    assert Loader.Loadable(p.data, p.sections[n]);
    WriteFilePart(ker, pid, b, path, s, files, p, n, s0, b0);
    ghost var u := ker.usedBy;
    r := Executed;
    var k: nat := s.size;
    while r == Executed && k < s.memSize
      invariant ZeroedTo(s, k, r)
      invariant r == Executed ==> ker.usedBy == u && Writing(ker.S(), ker.book, pid, p, n, k, s0, b0)
      decreases s.memSize - k
    {
      ghost var k0 := k;
      r, k := WriteZero(ker, pid, s, k, p, n, s0, b0);
      ZeroedNext(s, k0, k, r);
    }
    k' := k;
  }

  /** What the zero bytes up to k say about the section, or the end of the loop at the last of them. */
  ghost predicate ZeroedTo(s: Loader.Section, k: nat, r: ExecOutcome) {
    && s.size <= k <= s.memSize && r != NoFrames
    && (r == Executed ==> (k > s.size ==> s.size > 0) && forall l: nat {:trigger Boundary(s, l)} :: s.size <= l < k ==> !Boundary(s, l))
    && (r == Stopped ==> !Whole(s) && !Loader.Pageless(s))
    && (r == NoPage ==> !Whole(s) && Loader.Pageless(s))
  }

  /** Which sections can be written. */
  lemma ZeroedAll(s: Loader.Section, k: nat, r: ExecOutcome)
    requires ZeroedTo(s, k, r) && (r == Executed ==> k == s.memSize)
    ensures (r == Executed <==> Whole(s)) && (r == NoPage <==> Loader.Pageless(s))
  {
  }

  lemma ZeroedNext(s: Loader.Section, k: nat, k': nat, r: ExecOutcome)
    requires ZeroedTo(s, k, Executed) && k < s.memSize && k' == k + 1 && r != NoFrames
    requires (r == Stopped <==> Boundary(s, k)) && (r == NoPage <==> k == 0 && !Boundary(s, k))
    ensures ZeroedTo(s, k', r)
  {
  }

  /** All sections so far are whole, and written; or the first that is not has stopped exec. */
  ghost predicate WrittenSoFar(s: Sys, b: Book, used: seq<nat>, pid: nat, u: seq<nat>, p: Program, n: nat, r: ExecOutcome, s0: Sys, b0: Book) {
    && n <= |p.sections| && r != NoFrames && (r == Executed <==> AllWhole(p.sections, n))
    && (r == Executed ==> used == u && Alone(s, b, pid, s0, b0) && Programs.Loaded(s, pid, p, n) && AllWritable(s, pid, p.ground.floor))
  }

  method WriteNextSection(ker: Kernel, pid: nat, b: seq<byte>, path: seq<byte>, sections: seq<Loader.Section>, i: nat, ghost u: seq<nat>,
                          ghost files: seq<Tarfs.File>, ghost p: Program, ghost s0: Sys, ghost b0: Book) returns (r: ExecOutcome, i': nat)
    requires FileData(b, path, files, p.data) && Laid(p) && sections == p.sections && i < |sections|
    requires WrittenSoFar(ker.S(), ker.book, ker.usedBy, pid, u, p, i, Executed, s0, b0)
    modifies ker
    ensures i' == i + 1 && WrittenSoFar(ker.S(), ker.book, ker.usedBy, pid, u, p, i', r, s0, b0)
  {
    SectionBegins(ker.S(), pid, p, i);
    ghost var k;
    r, k := WriteSection(ker, pid, b, path, sections[i], files, p, i, s0, b0);
    i' := i + 1;
    WriteEnds(ker.S(), ker.book, ker.usedBy, pid, u, p, i, k, r, s0, b0);
  }

  lemma WriteEnds(st: Sys, bk: Book, used: seq<nat>, pid: nat, u: seq<nat>, p: Program, n: nat, k: nat, r: ExecOutcome, s0: Sys, b0: Book)
    requires n < |p.sections| && AllWhole(p.sections, n) && ZeroedTo(p.sections[n], k, r) && (r == Executed ==> k == p.sections[n].memSize)
    requires r == Executed ==> used == u && Writing(st, bk, pid, p, n, k, s0, b0)
    ensures WrittenSoFar(st, bk, used, pid, u, p, n + 1, r, s0, b0)
  {
    ZeroedAll(p.sections[n], k, r);
    if r == Executed { SectionEnds(st, pid, p, n); }
  }

  /** sys_exec's loop over the sections. */
  method WriteSections(ker: Kernel, pid: nat, b: seq<byte>, path: seq<byte>, sections: seq<Loader.Section>, ghost u: seq<nat>,
                       ghost files: seq<Tarfs.File>, ghost p: Program, ghost s0: Sys, ghost b0: Book) returns (r: ExecOutcome, ghost n: nat)
    requires FileData(b, path, files, p.data) && Laid(p) && sections == p.sections
    requires WrittenSoFar(ker.S(), ker.book, ker.usedBy, pid, u, p, 0, Executed, s0, b0)
    modifies ker
    ensures WrittenSoFar(ker.S(), ker.book, ker.usedBy, pid, u, p, n, r, s0, b0) && (r == Executed ==> n == |sections|)
  {
    var i: nat := 0;
    r := Executed;
    while r == Executed && i < |sections|
      invariant WrittenSoFar(ker.S(), ker.book, ker.usedBy, pid, u, p, i, r, s0, b0)
      decreases |sections| - i
    {
      r, i := WriteNextSection(ker, pid, b, path, sections, i, u, files, p, s0, b0);
    }
    n := i;
  }

  lemma WrittenAll(st: Sys, bk: Book, used: seq<nat>, pid: nat, u: seq<nat>, p: Program, p0: Program, n: nat, r: ExecOutcome, s0: Sys, b0: Book)
    requires Laid(p) && WrittenSoFar(st, bk, used, pid, u, p, n, r, s0, b0) && (r == Executed ==> n == |p.sections|)
    requires p0 == p.(ground := p.ground.(blank := []))
    ensures r != NoFrames && (r == Executed <==> AllWhole(p.sections, |p.sections|))
    ensures r == Executed ==> used == u && Alone(st, bk, pid, s0, b0) && InPlace(st, pid, p0)
  {
    if r == Executed { AllWritten(st, pid, p, p0); }
  }

  /** Outside the sections there is the stack and nothing else. */
  lemma AllWritten(s: Sys, pid: nat, p: Program, p0: Program)
    requires Laid(p) && Programs.Loaded(s, pid, p, |p.sections|) && p0 == p.(ground := p.ground.(blank := []))
    ensures InPlace(s, pid, p0)
  {
    forall i, a: nat | 0 <= i < |p.sections| && Loader.InBytes(a, p.sections[i], p.sections[i].memSize)
      ensures ByteAt(s, pid, a) == Loader.Present(Loader.ByteOf(p.data, p.sections[i], a - p.sections[i].memoryOffset))
    {
      InsideWritten(s, pid, p, i, a);
    }
    forall a: nat | a < USER_END && forall i :: 0 <= i < |p.sections| ==> !Loader.InSection(a, p.sections[i])
      ensures ByteAt(s, pid, a) == Start(p0.ground, a)
    {
      OutsideWritten(s, pid, p, p0, a);
    }
  }

  lemma InsideWritten(s: Sys, pid: nat, p: Program, i: nat, a: nat)
    requires Laid(p) && Programs.Loaded(s, pid, p, |p.sections|) && i < |p.sections| && Loader.InBytes(a, p.sections[i], p.sections[i].memSize)
    ensures Loader.Loadable(p.data, p.sections[i]) && ByteAt(s, pid, a) == Loader.Present(Loader.ByteOf(p.data, p.sections[i], a - p.sections[i].memoryOffset))
  {
    assert p.sections[i].memoryOffset + p.sections[i].memSize <= p.ground.floor;
    Loader.InsideSection(Start(p.ground, a), p.data, p.sections, |p.sections|, i, a);
  }

  lemma OutsideWritten(s: Sys, pid: nat, p: Program, p0: Program, a: nat)
    requires Laid(p) && Programs.Loaded(s, pid, p, |p.sections|) && p0 == p.(ground := p.ground.(blank := []))
    requires a < USER_END && forall i :: 0 <= i < |p.sections| ==> !Loader.InSection(a, p.sections[i])
    ensures ByteAt(s, pid, a) == Start(p0.ground, a)
  {
    Loader.OutsideSections(Start(p.ground, a), p.data, p.sections, |p.sections|, a);
    OutsideBlanks(p, a);
    assert Start(p0.ground, a) == Stacks(p0.ground, a) == Stacks(p.ground, a);
  }

  lemma OutsideBlanks(p: Program, a: nat)
    requires Laid(p) && forall i :: 0 <= i < |p.sections| ==> !Loader.InSection(a, p.sections[i])
    ensures Start(p.ground, a) == Stacks(p.ground, a)
  {
    forall i | 0 <= i < |p.sections|
      ensures !Loader.InSection(a, Blanks(p.sections)[i])
    {
      assert Loader.Loadable(p.data, p.sections[i]) && !Loader.InSection(a, p.sections[i]);
      if Loader.Touched(a, p.sections[i], p.sections[i].size) { TouchedMore(a, p.sections[i], p.sections[i].size, p.sections[i].memSize); }
    }
    Loader.OutsideSections(Stacks(p.ground, a), [], Blanks(p.sections), |p.sections|, a);
  }

  // ----- exec -----

  /** replace_process for the given sections and size of the initial stack. */
  method ReplaceProcess(ker: Kernel, pid: nat, sections: seq<Loader.Section>, stackSize: nat, ghost blank: Program) returns (ok: bool)
    requires ker.Valid() && pid in ker.book.alive && pid in ker.procs && stackSize + 0x1000 <= RSP0_BASE
    requires Loadable(blank) && blank.sections == Blanks(sections) && |blank.ground.rsp0| == 512
    requires blank.ground == Ground(RSP0_BASE - 0x1000 * StackCount(stackSize), blank.ground.rsp0, []) && View(ker.S(), pid, RSP0) == Mapped(blank.ground.rsp0)
    modifies ker
    ensures Took(old(ker.usedBy), ker.usedBy, ok, 5 + 4 * StackCount(stackSize) + 4 * Loader.PageTotal(blank.sections, |sections|))
    ensures ok ==> Alone(ker.S(), ker.book, pid, old(ker.S()), Without(old(ker.book), pid)) && Programs.Loaded(ker.S(), pid, blank, |sections|)
    ensures ok ==> AllWritable(ker.S(), pid, blank.ground.floor)
  {
    ghost var s0, b0 := ker.S(), ker.book;
    Loader.TotalGrows(blank.sections, 0, |sections|);
    var pages := StackPageList(stackSize);
    StackPagesDiffer(pages, StackCount(stackSize));
    ok := ker.Replace(pid, pages);
    if ok {
      StacksOnly(s0, b0, ker.S(), ker.book, pid, blank, pages, StackCount(stackSize), blank.ground.rsp0);
      ok := BlankSections(ker, pid, sections, blank, s0, Without(b0, pid));
    }
  }

  /** The contents on the blank pages. */
  method WriteProgram(ker: Kernel, pid: nat, b: seq<byte>, path: seq<byte>, sections: seq<Loader.Section>,
                      ghost files: seq<Tarfs.File>, ghost blank: Program, ghost p0: Program, ghost s0: Sys, ghost b0: Book) returns (r: ExecOutcome)
    requires FileData(b, path, files, p0.data) && Loadable(p0) && sections == p0.sections && blank == Program([], Blanks(p0.sections), p0.ground)
    requires Alone(ker.S(), ker.book, pid, s0, b0) && Programs.Loaded(ker.S(), pid, blank, |sections|) && AllWritable(ker.S(), pid, p0.ground.floor)
    modifies ker
    ensures r != NoFrames && (r == Executed <==> AllWhole(sections, |sections|))
    ensures r == Executed ==> ker.usedBy == old(ker.usedBy) && Alone(ker.S(), ker.book, pid, s0, b0) && InPlace(ker.S(), pid, p0)
  {
    ghost var u, p, n := ker.usedBy, p0.(ground := p0.ground.(blank := p0.sections)), 0;
    GroundLaid(ker.S(), pid, blank, p);
    r, n := WriteSections(ker, pid, b, path, sections, u, files, p, s0, b0);
    WrittenAll(ker.S(), ker.book, ker.usedBy, pid, u, p, p0, n, r, s0, b0);
  }

  /** sys_exec with the sections given. */
  method ExecSections(ker: Kernel, pid: nat, b: seq<byte>, path: seq<byte>, sections: seq<Loader.Section>, stackSize: nat,
                      ghost files: seq<Tarfs.File>, ghost p0: Program) returns (r: ExecOutcome)
    requires ker.Valid() && pid in ker.book.alive && pid in ker.procs && stackSize + 0x1000 <= RSP0_BASE
    requires FileData(b, path, files, p0.data) && Loadable(p0) && sections == p0.sections
    requires p0.ground == Ground(RSP0_BASE - 0x1000 * StackCount(stackSize), p0.ground.rsp0, []) && View(ker.S(), pid, RSP0) == Mapped(p0.ground.rsp0)
    modifies ker
    ensures r == NoFrames || (r == Executed <==> AllWhole(p0.sections, |p0.sections|))
    ensures r == NoFrames || r == Executed ==>
      Took(old(ker.usedBy), ker.usedBy, r == Executed, 5 + 4 * StackCount(stackSize) + 4 * Loader.PageTotal(Blanks(p0.sections), |p0.sections|))
    ensures r == Executed ==> Alone(ker.S(), ker.book, pid, old(ker.S()), Without(old(ker.book), pid)) && InPlace(ker.S(), pid, p0)
  {
    ghost var s0, b0 := ker.S(), ker.book;
    ghost var blank := Program([], Blanks(p0.sections), p0.ground);
    BlankLoadable(p0, blank);
    FaultingPage(s0, b0, pid, RSP0);
    var ok := ReplaceProcess(ker, pid, sections, stackSize, blank);
    r := NoFrames;
    if ok {
      r := WriteProgram(ker, pid, b, path, sections, files, blank, p0, s0, Without(b0, pid));
    }
  }

  /** sys_exec on the program at `path` in the archive. If every section is whole, the process reads the
      program's sections through its new page tables, zeroed stack pages and its old rsp0 stack, and nothing
      else; every other process reads what it read before. If a section is not whole, the kernel does not
      get that far. p0.ground is the stack that is built. */
  method ExecProgram(ker: Kernel, pid: nat, b: seq<byte>, path: seq<byte>, stackSize: nat, ghost files: seq<Tarfs.File>, ghost p0: Program, ghost headersAt: nat)
      returns (r: ExecOutcome, heapStart: nat)
    requires ker.Valid() && pid in ker.book.alive && pid in ker.procs && stackSize + 0x1000 <= RSP0_BASE
    requires FileData(b, path, files, p0.data) && Loader.Elf(p0.data, headersAt, p0.sections) && p0.sections != [] && Loadable(p0)
    requires p0.ground == Ground(RSP0_BASE - 0x1000 * StackCount(stackSize), p0.ground.rsp0, []) && View(ker.S(), pid, RSP0) == Mapped(p0.ground.rsp0)
    modifies ker
    ensures r == NoFrames || (r == Executed <==> AllWhole(p0.sections, |p0.sections|))
    ensures r == NoFrames || r == Executed ==>
      Took(old(ker.usedBy), ker.usedBy, r == Executed, 5 + 4 * StackCount(stackSize) + 4 * Loader.PageTotal(Blanks(p0.sections), |p0.sections|))
    ensures r == Executed ==> ker.Valid() && ker.book.alive == old(ker.book.alive) && InPlace(ker.S(), pid, p0)
    ensures r == Executed ==> OthersSee(old(ker.S()), old(ker.book), ker.S(), pid)
    ensures HeapAt(p0.sections, heapStart)
  {
    ghost var s0, b0 := ker.S(), ker.book;
    var sections;
    sections, heapStart := ReadProgram(b, path, files, p0, headersAt);
    r := ExecSections(ker, pid, b, path, sections, stackSize, files, p0);
    if r == Executed { AloneAgain(s0, b0, ker.S(), ker.book, pid); }
  }

  lemma AloneAgain(s0: Sys, b0: Book, s: Sys, b: Book, pid: nat)
    requires Alone(s, b, pid, s0, Without(b0, pid)) && pid in b0.alive
    ensures b.alive == b0.alive && OthersSee(s0, b0, s, pid)
  {
  }

  lemma BlankLoadable(p: Program, blank: Program)
    requires Loadable(p) && blank == Program([], Blanks(p.sections), p.ground)
    ensures Loadable(blank)
  {
    forall i | 0 <= i < |p.sections|
      ensures Loader.Loadable(p.data, p.sections[i]) && blank.sections[i].memoryOffset + blank.sections[i].memSize <= p.ground.floor
    {
    }
    forall i, j, a: nat | 0 <= i < j < |p.sections|
      ensures !(Loader.InSection(a, blank.sections[i]) && Loader.InSection(a, blank.sections[j]))
    {
      var s, t := p.sections[i], p.sections[j];
      if Loader.InSection(a, blank.sections[i]) && Loader.InSection(a, blank.sections[j]) {
        assert Loader.Touched(a, s, s.size) && Loader.Touched(a, t, t.size);
        assert s.size <= s.memSize && t.size <= t.memSize;
        TouchedMore(a, s, s.size, s.memSize);
        TouchedMore(a, t, t.size, t.memSize);
        assert Loader.InSection(a, p.sections[i]) && Loader.InSection(a, p.sections[j]);
      }
    }
  }
}
