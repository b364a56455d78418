/** spawn_process with the contents of the program: its sections are read from the archive, put into
    new pages and read back through the page tables of the new process. The flat memory of Loader is
    what the tables show. */
module Programs {
  import opened Bytes
  import opened FreeFrames
  import opened PageTables
  import opened PageBytes
  import opened AddressModel
  import opened AddressSteps
  import opened AddressSpaces
  import Tarfs
  import Loader

  /** The end of the user part of an address space: PML4 indices up to 509. */
  const USER_END := 510 * 0x80_0000_0000

  /** The page of the rsp0 stack and, below it, the first page of the stack (in 48 bits). */
  const RSP0_BASE := USER_END - 0x1000
  const STACK_BASE := USER_END - 0x2000

  const STACK_PAGE: seq<nat> := [509, 511, 511, 510]

  // ----- What the tables show -----

  /** What process pid reads at address a, through its page tables. */
  ghost function ByteAt(s: Sys, pid: nat, a: nat): Loader.Slot {
    var v := View(s, pid, PageOf(a));
    if v.Mapped? && |v.words| == 512 then Loader.Present(PageByte(v.words, a % PAGE)) else Loader.Absent
  }

  lemma UserAddress(a: nat)
    requires a < USER_END
    ensures UserPage(PageOf(a))
  {
    PageOfShifts(a);
    assert a / 0x80_0000_0000 < 510;
  }

  lemma SamePages(a: nat, va: nat)
    requires a < USER_END && va < USER_END
    ensures PageOf(a) == PageOf(va) <==> Loader.SamePage(a, va)
  {
    PageOfInjective(a, va);
    SameBase(a, va);
  }

  lemma SameBase(a: nat, va: nat)
    ensures Loader.SamePage(a, va) <==> a / 0x1000 == va / 0x1000
  {
    assert Loader.Base(va) == 0x1000 * (va / 0x1000);
  }

  /** Other views of the same process stay. */
  ghost predicate OtherPagesKept(s: Sys, s': Sys, pid: nat, vp: seq<nat>) {
    forall w {:trigger View(s', pid, w)} :: UserPage(w) && w != vp ==> View(s', pid, w) == View(s, pid, w)
  }

  /** Between two states process pid got a new zeroed page behind va. */
  ghost predicate PageAdded(s: Sys, s': Sys, pid: nat, va: nat) {
    forall a: nat {:trigger ByteAt(s', pid, a)} :: a < USER_END ==> ByteAt(s', pid, a) == Loader.InNewPage(ByteAt(s, pid, a), va, a)
  }

  /** Between two states bytes were written to the memory of pid, from va on. */
  ghost predicate BytesAdded(s: Sys, s': Sys, pid: nat, va: nat, bytes: seq<byte>) {
    forall a: nat {:trigger ByteAt(s', pid, a)} :: a < USER_END ==> ByteAt(s', pid, a) == Loader.Stored(ByteAt(s, pid, a), va, bytes, a)
  }

  /** Both, one after the other. */
  ghost predicate ChunkAdded(s: Sys, s': Sys, pid: nat, va: nat, bytes: seq<byte>) {
    forall a: nat {:trigger ByteAt(s', pid, a)} :: a < USER_END ==>
      ByteAt(s', pid, a) == Loader.Stored(Loader.InNewPage(ByteAt(s, pid, a), va, a), va, bytes, a)
  }

  lemma PageThenBytes(s: Sys, s1: Sys, s2: Sys, pid: nat, va: nat, bytes: seq<byte>)
    requires PageAdded(s, s1, pid, va) && BytesAdded(s1, s2, pid, va, bytes)
    ensures ChunkAdded(s, s2, pid, va, bytes)
  {
    forall a: nat | a < USER_END
      ensures ByteAt(s2, pid, a) == Loader.Stored(Loader.InNewPage(ByteAt(s, pid, a), va, a), va, bytes, a)
    {
      assert ByteAt(s1, pid, a) == Loader.InNewPage(ByteAt(s, pid, a), va, a);
    }
  }

  /** A new zeroed page in the tables is a new zeroed page in flat memory. */
  lemma PageShown(s: Sys, s': Sys, pid: nat, va: nat)
    requires va < USER_END && View(s', pid, PageOf(va)) == Mapped(ZeroFrame()) && OtherPagesKept(s, s', pid, PageOf(va))
    ensures PageAdded(s, s', pid, va)
  {
    forall a: nat | a < USER_END
      ensures ByteAt(s', pid, a) == Loader.InNewPage(ByteAt(s, pid, a), va, a)
    {
      SamePages(a, va);
      UserAddress(a);
      ZeroPage(a % PAGE);
    }
  }

  /** Bytes written into the frame behind a page are written in flat memory. */
  lemma BytesShown(s: Sys, s': Sys, pid: nat, va: nat, words: seq<Cell>, words': seq<Cell>, bytes: seq<byte>)
    requires va < USER_END && va % PAGE + |bytes| <= PAGE && |words| == 512 && |words'| == 512
    requires View(s, pid, PageOf(va)) == Mapped(words) && View(s', pid, PageOf(va)) == Mapped(words')
    requires OtherPagesKept(s, s', pid, PageOf(va))
    requires forall j {:trigger PageByte(words', j)} :: 0 <= j < PAGE ==>
      PageByte(words', j) == if va % PAGE <= j < va % PAGE + |bytes| then bytes[j - va % PAGE] else PageByte(words, j)
    ensures BytesAdded(s, s', pid, va, bytes)
  {
    forall a: nat | a < USER_END
      ensures ByteAt(s', pid, a) == Loader.Stored(ByteAt(s, pid, a), va, bytes, a)
    {
      ByteShown(s, s', pid, va, words, words', bytes, a);
    }
  }

  lemma ByteShown(s: Sys, s': Sys, pid: nat, va: nat, words: seq<Cell>, words': seq<Cell>, bytes: seq<byte>, a: nat)
    requires va < USER_END && a < USER_END && va % PAGE + |bytes| <= PAGE && |words| == 512 && |words'| == 512
    requires View(s, pid, PageOf(va)) == Mapped(words) && View(s', pid, PageOf(va)) == Mapped(words')
    requires OtherPagesKept(s, s', pid, PageOf(va))
    requires forall j {:trigger PageByte(words', j)} :: 0 <= j < PAGE ==>
      PageByte(words', j) == if va % PAGE <= j < va % PAGE + |bytes| then bytes[j - va % PAGE] else PageByte(words, j)
    ensures ByteAt(s', pid, a) == Loader.Stored(ByteAt(s, pid, a), va, bytes, a)
  {
    SamePages(a, va);
    ChunkPlace(a, va, |bytes|);
    if Loader.SamePage(a, va) {
      var j := a % PAGE;
      assert ByteAt(s, pid, a) == Loader.Present(PageByte(words, j));
      assert ByteAt(s', pid, a) == Loader.Present(PageByte(words', j));
      StoredInPage(words, words', va % PAGE, bytes, j, va, a);
    } else {
      UserAddress(a);
      assert View(s', pid, PageOf(a)) == View(s, pid, PageOf(a));
    }
  }

  /** The same byte, by its place in the page and by its address. */
  lemma StoredInPage(words: seq<Cell>, words': seq<Cell>, at: nat, bytes: seq<byte>, j: nat, va: nat, a: nat)
    requires |words| == 512 && |words'| == 512 && j < PAGE
    requires PageByte(words', j) == if at <= j < at + |bytes| then bytes[j - at] else PageByte(words, j)
    ensures a - va == j - at ==> Loader.Present(PageByte(words', j)) == Loader.Stored(Loader.Present(PageByte(words, j)), va, bytes, a)
  {
  }

  /** Where an address lies in a chunk that does not cross a page boundary. */
  lemma ChunkPlace(a: nat, va: nat, n: nat)
    requires va % PAGE + n <= PAGE
    ensures va <= a < va + n ==> Loader.SamePage(a, va)
    ensures Loader.SamePage(a, va) ==> a - va == a % PAGE - va % PAGE
  {
    assert Loader.SamePage(a, va) ==> Loader.Base(a) == Loader.Base(va);
  }

  // ----- The kernel while it loads a program -----

  /** Processes that were there before read what they read before. */
  ghost predicate OthersSee(s0: Sys, b0: Book, s: Sys, pid: nat) {
    forall q, w {:trigger View(s, q, w)} :: q in b0.alive && q != pid && UserPage(w) ==> View(s, q, w) == View(s0, q, w)
  }

  /** Process pid is new since (s0, b0), and nobody else has noticed. */
  ghost predicate Alone(s: Sys, b: Book, pid: nat, s0: Sys, b0: Book) {
    && Settled(s, b) && pid in s.procs && pid !in b0.alive && b.alive == b0.alive + {pid} && OthersSee(s0, b0, s, pid)
  }

  /** The page of va is mapped to this frame and writable. */
  ghost predicate Behind(s: Sys, pid: nat, va: nat, frame: nat) {
    && pid in s.procs && frame < |s.mem|
    && var e := Walk(s.mem, s.procs[pid].cr3, PageOf(va), 0); e.p && e.rw && e.frame == frame
  }

  /** An address that reads as absent is in a page that is not mapped. */
  lemma AbsentPage(s: Sys, b: Book, pid: nat, va: nat)
    requires Inv(s, b, {}) && pid in b.alive && pid in s.procs && va < USER_END && ByteAt(s, pid, va) == Loader.Absent
    ensures UserPage(PageOf(va)) && (pid, PageOf(va)) !in b.at
  {
    UserAddress(va);
    FaultingPage(s, b, pid, PageOf(va));
  }

  /** The page of a is mapped and writable. */
  ghost predicate Writable(s: Sys, pid: nat, a: nat) {
    && pid in s.procs
    && var e := Walk(s.mem, s.procs[pid].cr3, PageOf(a), 0); e.p && e.rw
  }

  ghost predicate StayWritable(s: Sys, s': Sys, pid: nat) {
    forall a: nat {:trigger Writable(s', pid, a)} :: a < USER_END && Writable(s, pid, a) ==> Writable(s', pid, a)
  }

  lemma StillWritable(s: Sys, b: Book, s': Sys, pid: nat, va: nat)
    requires pid in b.alive && va < USER_END && SameBut(s, b, s', pid, PageOf(va)) && Writable(s', pid, va)
    ensures StayWritable(s, s', pid)
  {
    forall a: nat | a < USER_END && Writable(s, pid, a)
      ensures Writable(s', pid, a)
    {
      UserAddress(a);
      if PageOf(a) != PageOf(va) { assert SameWalk(s, s', pid, PageOf(a)); }
    }
  }

  /** add_page_for_process. */
  method NewPage(ker: Kernel, pid: nat, va: nat, ghost s0: Sys, ghost b0: Book) returns (ok: bool, frame: nat)
    requires Alone(ker.S(), ker.book, pid, s0, b0) && va < USER_END && ByteAt(ker.S(), pid, va) == Loader.Absent
    modifies ker
    ensures Took(old(ker.usedBy), ker.usedBy, ok, 4)
    ensures ok ==> Alone(ker.S(), ker.book, pid, s0, b0) && PageAdded(old(ker.S()), ker.S(), pid, va) && Behind(ker.S(), pid, va, frame)
    ensures ok ==> StayWritable(old(ker.S()), ker.S(), pid)
  {
    ghost var s, b := ker.S(), ker.book;
    AbsentPage(s, b, pid, va);
    ok, frame := ker.GrowSpace(pid, PageOf(va));
    if ok {
      PageShown(s, ker.S(), pid, va);
      StillWritable(s, b, ker.S(), pid, va);
    }
  }

  /** A copy into the frame of a page, through the kernel's own address for it. */
  method WriteChunk(ker: Kernel, pid: nat, va: nat, frame: nat, bytes: seq<byte>, ghost s0: Sys, ghost b0: Book)
    requires Alone(ker.S(), ker.book, pid, s0, b0) && va < USER_END && Behind(ker.S(), pid, va, frame) && va % PAGE + |bytes| <= PAGE
    modifies ker
    ensures ker.usedBy == old(ker.usedBy) && Alone(ker.S(), ker.book, pid, s0, b0) && Behind(ker.S(), pid, va, frame)
    ensures BytesAdded(old(ker.S()), ker.S(), pid, va, bytes) && StayWritable(old(ker.S()), ker.S(), pid)
  {
    UserAddress(va);
    ghost var s := ker.S();
    FaultingPage(s, ker.book, pid, PageOf(va));
    var words := PutPageBytes(ker.mem[frame], va % PAGE, bytes);
    ker.mem := ker.mem[frame := words];
    PageWritesAreIsolated(s, ker.book, ker.S(), {}, pid, PageOf(va), words);
    BytesShown(s, ker.S(), pid, va, s.mem[frame], words, bytes);
    WriteStaysWritable(s, ker.book, ker.S(), pid, va, words);
  }

  lemma WriteStaysWritable(s: Sys, b: Book, s': Sys, pid: nat, va: nat, words: seq<Cell>)
    requires Inv(s, b, {}) && pid in b.alive && pid in s.procs && UserPage(PageOf(va)) && |words| == 512
    requires Walk(s.mem, s.procs[pid].cr3, PageOf(va), 0).p && Walk(s.mem, s.procs[pid].cr3, PageOf(va), 0).rw
    requires var f := Walk(s.mem, s.procs[pid].cr3, PageOf(va), 0).frame; f < |s.mem| && s' == s.(mem := s.mem[f := words])
    ensures StayWritable(s, s', pid)
  {
    forall a: nat | a < USER_END && Writable(s, pid, a)
      ensures Writable(s', pid, a)
    {
      UserAddress(a);
      WritesKeepWalks(s, b, s', {}, pid, PageOf(va), words, PageOf(a));
    }
  }

  lemma BehindSame(s: Sys, pid: nat, va: nat, page: nat, frame: nat)
    requires Behind(s, pid, page, frame) && va < USER_END && page < USER_END && Loader.SamePage(va, page)
    ensures Behind(s, pid, va, frame)
  {
    SamePages(va, page);
  }

  /** A new page at va, and the given bytes in it. */
  method PageWithBytes(ker: Kernel, pid: nat, va: nat, bytes: seq<byte>, ghost s: Sys, ghost u: seq<nat>, ghost s0: Sys, ghost b0: Book)
      returns (ok: bool, frame: nat)
    requires s == ker.S() && u == ker.usedBy
    requires Alone(s, ker.book, pid, s0, b0) && va < USER_END && ByteAt(s, pid, va) == Loader.Absent && va % PAGE + |bytes| <= PAGE
    modifies ker
    ensures Took(u, ker.usedBy, ok, 4)
    ensures ok ==> Alone(ker.S(), ker.book, pid, s0, b0) && Behind(ker.S(), pid, va, frame) && ChunkAdded(s, ker.S(), pid, va, bytes)
  {
    ok, frame := NewPage(ker, pid, va, s0, b0);
    if ok {
      ghost var s1 := ker.S();
      WriteChunk(ker, pid, va, frame, bytes, s0, b0);
      PageThenBytes(s, s1, ker.S(), pid, va, bytes);
    }
  }

  // ----- One section -----

  /** What is in memory before the program: zeroed stack pages from `floor` on, the rsp0 stack, and blank
      pages for the bytes in the file of some sections. */
  datatype Ground = Ground(floor: nat, rsp0: seq<Cell>, blank: seq<Loader.Section>)

  /** The stack pages alone. */
  ghost function Stacks(g: Ground, a: nat): Loader.Slot {
    if a >= RSP0_BASE then (if |g.rsp0| == 512 then Loader.Present(PageByte(g.rsp0, a % PAGE)) else Loader.Absent)
    else if a >= g.floor then Loader.Present(0) else Loader.Absent
  }

  /** A section of zeros in the place of the bytes that a section has in the file. */
  ghost function Blank(s: Loader.Section): Loader.Section {
    s.(size := 0, memSize := s.size)
  }

  ghost function Blanks(sections: seq<Loader.Section>): (r: seq<Loader.Section>)
    ensures |r| == |sections| && (forall i {:trigger r[i]} :: 0 <= i < |r| ==> r[i] == Blank(sections[i])) && Loader.AllLoadable([], r)
  {
    seq(|sections|, i requires 0 <= i < |sections| => Blank(sections[i]))
  }

  ghost function Start(g: Ground, a: nat): Loader.Slot {
    Loader.Images(Stacks(g, a), [], Blanks(g.blank), |g.blank|, a)
  }

  /** The program to load: the file's bytes, its sections, and what is there before. */
  datatype Program = Program(data: seq<byte>, sections: seq<Loader.Section>, ground: Ground)

  /** Sections that can be loaded into fresh pages below the stack. */
  ghost predicate Loadable(p: Program) {
    && Loader.AllLoadable(p.data, p.sections) && Loader.PageDisjoint(p.sections)
    && BelowStack(p.sections, p.ground.floor) && p.ground.blank == []
  }

  ghost predicate BelowStack(sections: seq<Loader.Section>, floor: nat) {
    && floor <= RSP0_BASE
    && forall i {:trigger sections[i]} :: 0 <= i < |sections| ==> sections[i].memoryOffset + sections[i].memSize <= floor
  }

  /** What is at address a when n sections and the first k bytes of the next are loaded. */
  ghost function Want(p: Program, n: nat, k: nat, a: nat): Loader.Slot
    requires Loader.AllLoadable(p.data, p.sections) && n < |p.sections|
  {
    Loader.Image(Loader.Images(Start(p.ground, a), p.data, p.sections, n, a), p.data, p.sections[n], k, a)
  }

  ghost predicate Filled(s: Sys, pid: nat, p: Program, n: nat, k: nat) {
    && Loader.AllLoadable(p.data, p.sections) && n < |p.sections|
    && forall a: nat {:trigger ByteAt(s, pid, a)} :: a < USER_END ==> ByteAt(s, pid, a) == Want(p, n, k, a)
  }

  /** A byte that starts a page is absent before it is loaded. */
  lemma NextAbsent(s: Sys, pid: nat, p: Program, n: nat, k: nat)
    requires Loadable(p) && Filled(s, pid, p, n, k) && k < p.sections[n].memSize
    requires k == 0 || (p.sections[n].memoryOffset + k) % PAGE == 0
    ensures p.sections[n].memoryOffset + p.sections[n].memSize <= p.ground.floor <= RSP0_BASE
    ensures ByteAt(s, pid, p.sections[n].memoryOffset + k) == Loader.Absent
  {
    var sec := p.sections[n];
    var va := sec.memoryOffset + k;
    Loader.BytesTouched(va, sec, sec.memSize);
    forall i | 0 <= i < n
      ensures !Loader.InSection(va, p.sections[i])
    {
      assert Loader.InSection(va, p.sections[n]);
    }
    Loader.OutsideSections(Start(p.ground, va), p.data, p.sections, n, va);
    Loader.NextIsFree(p.data, sec, k);
  }

  /** The next bytes of section n, as many as fit into a page. */
  ghost predicate ChunkOk(p: Program, n: nat, k: nat, bytes: seq<byte>) {
    && Loader.AllLoadable(p.data, p.sections) && n < |p.sections| && 0 < |bytes| <= p.sections[n].memSize - k
    && |bytes| <= PAGE - (p.sections[n].memoryOffset + k) % PAGE
    && forall j :: 0 <= j < |bytes| ==> bytes[j] == Loader.ByteOf(p.data, p.sections[n], k + j)
  }

  lemma WantChunk(p: Program, n: nat, k: nat, k': nat, va: nat, bytes: seq<byte>, a: nat)
    requires ChunkOk(p, n, k, bytes) && k' == k + |bytes| && va == p.sections[n].memoryOffset + k && (k == 0 || va % PAGE == 0)
    ensures Loader.Stored(Loader.InNewPage(Want(p, n, k, a), va, a), va, bytes, a) == Want(p, n, k', a)
  {
    Loader.ChunkInImage(Loader.Images(Start(p.ground, a), p.data, p.sections, n, a), p.data, p.sections[n], k, bytes, a);
  }

  lemma ChunkDone(s: Sys, s': Sys, pid: nat, p: Program, n: nat, k: nat, k': nat, va: nat, bytes: seq<byte>)
    requires Filled(s, pid, p, n, k) && ChunkOk(p, n, k, bytes) && k' == k + |bytes|
    requires va == p.sections[n].memoryOffset + k && (k == 0 || va % PAGE == 0) && ChunkAdded(s, s', pid, va, bytes)
    ensures Filled(s', pid, p, n, k')
  {
    forall a: nat | a < USER_END
      ensures ByteAt(s', pid, a) == Want(p, n, k', a)
    {
      assert ByteAt(s, pid, a) == Want(p, n, k, a);
      WantChunk(p, n, k, k', va, bytes, a);
    }
  }

  lemma ByteDone(s: Sys, s': Sys, pid: nat, p: Program, n: nat, k: nat, k': nat, va: nat, x: byte)
    requires Filled(s, pid, p, n, k) && 0 < k < p.sections[n].memSize && k' == k + 1
    requires va == p.sections[n].memoryOffset + k && va % PAGE != 0 && x == Loader.ByteOf(p.data, p.sections[n], k) && BytesAdded(s, s', pid, va, [x])
    ensures Filled(s', pid, p, n, k')
  {
    forall a: nat | a < USER_END
      ensures ByteAt(s', pid, a) == Want(p, n, k', a)
    {
      assert ByteAt(s, pid, a) == Want(p, n, k, a);
      Loader.ByteInImage(Loader.Images(Start(p.ground, a), p.data, p.sections, n, a), p.data, p.sections[n], k, a);
    }
  }

  /** Four frames at most for each page of the first k bytes of a section. */
  ghost predicate Spent(u: seq<nat>, u': seq<nat>, ok: bool, s: Loader.Section, k: nat) {
    Took(u, u', ok, 4 * Loader.PageSpan(s.memoryOffset, k))
  }

  lemma SpentChunk(u: seq<nat>, u1: seq<nat>, u2: seq<nat>, ok: bool, s: Loader.Section, k: nat, k': nat, va: nat)
    requires Spent(u, u1, true, s, k) && va == s.memoryOffset + k && k < k' <= k + PAGE - va % PAGE
    requires Took(u1, u2, ok, if k == 0 || va % PAGE == 0 then 4 else 0)
    ensures Spent(u, u2, ok, s, k')
  {
    Loader.SpanOfChunk(s.memoryOffset, k, k' - k);
  }

  lemma SpentLess(u: seq<nat>, u': seq<nat>, ok: bool, s: Loader.Section, k: nat, l: nat)
    requires Spent(u, u', ok, s, k) && k <= l
    ensures Spent(u, u', ok, s, l)
  {
    Loader.SpanGrows(s.memoryOffset, k, l);
  }

  /** The frame of the page that holds byte k - 1 of the section. */
  ghost predicate LastPage(st: Sys, pid: nat, s: Loader.Section, k: nat, frame: nat) {
    0 < k && s.memoryOffset + k <= USER_END && Behind(st, pid, s.memoryOffset + k - 1, frame)
  }

  lemma LastPageMade(st: Sys, pid: nat, s: Loader.Section, k: nat, k': nat, va: nat, frame: nat)
    requires va == s.memoryOffset + k && k < k' <= k + PAGE - va % PAGE && Behind(st, pid, va, frame) && s.memoryOffset + k' <= USER_END
    ensures LastPage(st, pid, s, k', frame)
  {
    Loader.InChunk(s.memoryOffset + k' - 1, va, k' - k);
    BehindSame(st, pid, s.memoryOffset + k' - 1, va, frame);
  }

  lemma LastPageNext(st: Sys, pid: nat, s: Loader.Section, k: nat, frame: nat)
    requires LastPage(st, pid, s, k, frame) && s.memoryOffset + k < USER_END && (s.memoryOffset + k) % PAGE != 0
    ensures Behind(st, pid, s.memoryOffset + k, frame)
  {
    NextInPage(s.memoryOffset + k, s.memoryOffset + k - 1);
    BehindSame(st, pid, s.memoryOffset + k, s.memoryOffset + k - 1, frame);
  }

  /** The first k bytes of section n are in place, the last of them in the given frame; or the memory
      ran out on the way. */
  ghost predicate Loading(st: Sys, bk: Book, used: seq<nat>, pid: nat, s: Loader.Section, k: nat, frame: nat, ok: bool,
                          u: seq<nat>, p: Program, n: nat, s0: Sys, b0: Book) {
    && Spent(u, used, ok, s, k)
    && (ok ==> Alone(st, bk, pid, s0, b0) && Filled(st, pid, p, n, k) && (k > 0 ==> LastPage(st, pid, s, k, frame)))
  }

  lemma ChunkLoaded(st: Sys, st1: Sys, bk: Book, used: seq<nat>, used1: seq<nat>, pid: nat, s: Loader.Section, k: nat, k': nat, va: nat, bytes: seq<byte>, frame: nat, ok: bool,
                    u: seq<nat>, p: Program, n: nat, s0: Sys, b0: Book)
    requires Loadable(p) && ChunkOk(p, n, k, bytes) && s == p.sections[n] && va == s.memoryOffset + k && (k == 0 || va % PAGE == 0)
    requires Filled(st, pid, p, n, k) && Spent(u, used, true, s, k) && Took(used, used1, ok, 4) && k' == k + |bytes|
    requires ok ==> Alone(st1, bk, pid, s0, b0) && Behind(st1, pid, va, frame) && ChunkAdded(st, st1, pid, va, bytes)
    ensures Loading(st1, bk, used1, pid, s, k', frame, ok, u, p, n, s0, b0)
  {
    if ok {
      ChunkDone(st, st1, pid, p, n, k, k', va, bytes);
      assert s.memoryOffset + s.memSize <= p.ground.floor;
      LastPageMade(st1, pid, s, k, k', va, frame);
    }
    SpentChunk(u, used, used1, ok, s, k, k', va);
  }

  /** A new page with the next bytes of section n. */
  method PlaceChunk(ker: Kernel, pid: nat, s: Loader.Section, k: nat, ghost k': nat, bytes: seq<byte>, ghost frame0: nat, ghost u: seq<nat>, ghost p: Program, ghost n: nat, ghost s0: Sys, ghost b0: Book)
      returns (ok: bool, frame: nat)
    requires Loadable(p) && ChunkOk(p, n, k, bytes) && k' == k + |bytes| && s == p.sections[n] && (k == 0 || (s.memoryOffset + k) % PAGE == 0)
    requires Loading(ker.S(), ker.book, ker.usedBy, pid, s, k, frame0, true, u, p, n, s0, b0)
    modifies ker
    ensures Loading(ker.S(), ker.book, ker.usedBy, pid, s, k', frame, ok, u, p, n, s0, b0)
  {
    ghost var st, u1 := ker.S(), ker.usedBy;
    NextAbsent(st, pid, p, n, k);
    var va := s.memoryOffset + k;
    ok, frame := PageWithBytes(ker, pid, va, bytes, st, u1, s0, b0);
    ChunkLoaded(st, ker.S(), ker.book, u1, ker.usedBy, pid, s, k, k', va, bytes, frame, ok, u, p, n, s0, b0);
  }

  lemma NextInPage(va: nat, page: nat)
    requires va > 0 && va % PAGE != 0 && Loader.SamePage(va - 1, page)
    ensures Loader.SamePage(va, page)
  {
    SameBase(va - 1, page);
    SameBase(va, page);
    assert (va - 1) / 0x1000 == va / 0x1000;
  }

  lemma ByteLoaded(st: Sys, st1: Sys, bk: Book, used: seq<nat>, pid: nat, s: Loader.Section, k: nat, k': nat, va: nat, frame: nat,
                   u: seq<nat>, p: Program, n: nat, s0: Sys, b0: Book)
    requires Loadable(p) && n < |p.sections| && s == p.sections[n] && s.size <= k < s.memSize && 0 < k && k' == k + 1 && va == s.memoryOffset + k && va % PAGE != 0
    requires Filled(st, pid, p, n, k) && Spent(u, used, true, s, k)
    requires Alone(st1, bk, pid, s0, b0) && Behind(st1, pid, va, frame) && BytesAdded(st, st1, pid, va, [0])
    ensures Loading(st1, bk, used, pid, s, k', frame, true, u, p, n, s0, b0)
  {
    assert s.memoryOffset + s.memSize <= p.ground.floor;
    SpentChunk(u, used, used, true, s, k, k', va);
    ByteDone(st, st1, pid, p, n, k, k', va, 0);
    LastPageMade(st1, pid, s, k, k', va, frame);
  }

  /** A zero byte in the page of the byte before it. */
  method PlaceByte(ker: Kernel, pid: nat, s: Loader.Section, k: nat, ghost k': nat, frame: nat, ghost u: seq<nat>, ghost p: Program, ghost n: nat,
                   ghost s0: Sys, ghost b0: Book)
    requires Loadable(p) && n < |p.sections| && s == p.sections[n] && s.size <= k < s.memSize && (s.memoryOffset + k) % PAGE != 0
    requires 0 < k && k' == k + 1 && Loading(ker.S(), ker.book, ker.usedBy, pid, s, k, frame, true, u, p, n, s0, b0)
    modifies ker
    ensures Loading(ker.S(), ker.book, ker.usedBy, pid, s, k', frame, true, u, p, n, s0, b0)
  {
    ghost var st, u1 := ker.S(), ker.usedBy;
    assert s.memoryOffset + s.memSize <= p.ground.floor;
    LastPageNext(st, pid, s, k, frame);
    var va := s.memoryOffset + k;
    WriteChunk(ker, pid, va, frame, [0], s0, b0);
    ByteLoaded(st, ker.S(), ker.book, u1, pid, s, k, k', va, frame, u, p, n, s0, b0);
  }

  /** The bytes of file `path` in the archive b. */
  ghost predicate FileData(b: seq<byte>, path: seq<byte>, files: seq<Tarfs.File>, data: seq<byte>) {
    && Tarfs.Archive(b, 0, files) && path != [] && Tarfs.Lookup(files, path[1..]) != -1
    && data == files[Tarfs.Lookup(files, path[1..])].data
  }

  /** How many bytes of section n the next page takes from the file, and which. */
  method NextBytes(b: seq<byte>, path: seq<byte>, s: Loader.Section, k: nat, remain: nat, ghost files: seq<Tarfs.File>, ghost p: Program, ghost n: nat)
      returns (bytes: seq<byte>)
    requires FileData(b, path, files, p.data) && Loader.AllLoadable(p.data, p.sections) && n < |p.sections| && s == p.sections[n]
    requires k + remain == s.size && remain > 0
    ensures ChunkOk(p, n, k, bytes) && |bytes| <= remain && (|bytes| == remain || (s.memoryOffset + (k + |bytes|)) % PAGE == 0)
  {
    var va := s.memoryOffset + k;
    var l := Loader.Min3(PAGE, PAGE - va % PAGE, remain);
    Loader.NextChunk(va, l, remain);
    bytes := Loader.ReadChunk(b, path, s, k, l, files, p.data);
  }

  /** One turn of the loop over the file's part of section n. */
  method LoadChunk(ker: Kernel, pid: nat, b: seq<byte>, path: seq<byte>, s: Loader.Section, k: nat, remain: nat, ghost frame0: nat, ghost u: seq<nat>,
                   ghost files: seq<Tarfs.File>, ghost p: Program, ghost n: nat, ghost s0: Sys, ghost b0: Book)
      returns (ok: bool, k': nat, frame: nat)
    requires FileData(b, path, files, p.data) && Loadable(p) && n < |p.sections| && s == p.sections[n]
    requires k + remain == s.size && remain > 0 && (k == 0 || (s.memoryOffset + k) % PAGE == 0)
    requires Loading(ker.S(), ker.book, ker.usedBy, pid, s, k, frame0, true, u, p, n, s0, b0)
    modifies ker
    ensures k < k' <= s.size && (k' == s.size || (s.memoryOffset + k') % PAGE == 0)
    ensures Loading(ker.S(), ker.book, ker.usedBy, pid, s, k', frame, ok, u, p, n, s0, b0)
  {
    var bytes := NextBytes(b, path, s, k, remain, files, p, n);
    k' := k + |bytes|;
    ok, frame := PlaceChunk(ker, pid, s, k, k', bytes, frame0, u, p, n, s0, b0);
  }

  /** The loop over the file's part of section n. */
  method LoadFilePart(ker: Kernel, pid: nat, b: seq<byte>, path: seq<byte>, s: Loader.Section, ghost u: seq<nat>, ghost files: seq<Tarfs.File>, ghost p: Program, ghost n: nat,
                      ghost s0: Sys, ghost b0: Book)
      returns (ok: bool, ghost k': nat, frame: nat)
    requires FileData(b, path, files, p.data) && Loadable(p) && n < |p.sections| && s == p.sections[n]
    requires Loading(ker.S(), ker.book, ker.usedBy, pid, s, 0, 0, true, u, p, n, s0, b0)
    modifies ker
    ensures k' <= s.size && (ok ==> k' == s.size) && Loading(ker.S(), ker.book, ker.usedBy, pid, s, k', frame, ok, u, p, n, s0, b0)
  {
    var k: nat, remain: nat := 0, s.size;
    ok, frame := true, 0;
    while ok && remain != 0
      invariant k + remain == s.size && (k == 0 || k == s.size || (s.memoryOffset + k) % PAGE == 0)
      invariant Loading(ker.S(), ker.book, ker.usedBy, pid, s, k, frame, ok, u, p, n, s0, b0)
      decreases remain
    {
      ok, k, frame := LoadChunk(ker, pid, b, path, s, k, remain, frame, u, files, p, n, s0, b0);
      remain := s.size - k;
    }
    k' := k;
  }

  /** How loading ends: in full, without a free frame, or with a write through a NULL page. */
  datatype Outcome = Done | OutOfFrames | NullWrite

  /** One turn of the loop over the rest of section n; `paged` says whether there is a page yet. */
  method LoadZero(ker: Kernel, pid: nat, s: Loader.Section, k: nat, ghost k': nat, paged: bool, frame: nat, ghost u: seq<nat>, ghost p: Program, ghost n: nat,
                  ghost s0: Sys, ghost b0: Book)
      returns (r: Outcome, frame': nat)
    requires Loadable(p) && n < |p.sections| && s == p.sections[n] && s.size <= k < s.memSize && (paged <==> 0 < k)
    requires k' == k + 1 && Loading(ker.S(), ker.book, ker.usedBy, pid, s, k, frame, true, u, p, n, s0, b0)
    modifies ker
    ensures r == NullWrite <==> k == 0 && s.memoryOffset % PAGE != 0
    ensures r != NullWrite ==> Loading(ker.S(), ker.book, ker.usedBy, pid, s, k', frame', r == Done, u, p, n, s0, b0)
  {
    r, frame' := Done, frame;
    if (s.memoryOffset + k) % PAGE == 0 {
      var ok;
      ok, frame' := PlaceChunk(ker, pid, s, k, k', [0], frame, u, p, n, s0, b0);
      if !ok { r := OutOfFrames; }
    } else if !paged {
      r := NullWrite;
    } else {
      PlaceByte(ker, pid, s, k, k', frame, u, p, n, s0, b0);
    }
  }

  /** The loop over the rest of section n: zero bytes, in a new page where one starts. */
  method LoadZeros(ker: Kernel, pid: nat, s: Loader.Section, frame0: nat, ghost u: seq<nat>, ghost p: Program, ghost n: nat,
                   ghost s0: Sys, ghost b0: Book)
      returns (r: Outcome, ghost k: nat, frame: nat)
    requires Loadable(p) && n < |p.sections| && s == p.sections[n] && s.size <= s.memSize
    requires Loading(ker.S(), ker.book, ker.usedBy, pid, s, s.size, frame0, true, u, p, n, s0, b0)
    modifies ker
    ensures r == NullWrite <==> Loader.Pageless(s)
    ensures s.size <= k <= s.memSize && (r == Done ==> k == s.memSize)
    ensures r != NullWrite ==> Loading(ker.S(), ker.book, ker.usedBy, pid, s, k, frame, r == Done, u, p, n, s0, b0)
  {
    var j, paged := s.size, s.size > 0;
    k, frame, r := s.size, frame0, Done;
    while r == Done && j < s.memSize
      invariant s.size <= k == j <= s.memSize && (r == NullWrite ==> Loader.Pageless(s))
      invariant r == Done ==> (paged <==> j > 0) && (j > s.size ==> !Loader.Pageless(s))
      invariant r == OutOfFrames ==> !Loader.Pageless(s)
      invariant r != NullWrite ==> Loading(ker.S(), ker.book, ker.usedBy, pid, s, k, frame, r == Done, u, p, n, s0, b0)
    {
      k := j + 1;
      r, frame := LoadZero(ker, pid, s, j, k, paged, frame, u, p, n, s0, b0);
      j, paged := j + 1, true;
    }
  }

  /** The inner loops of spawn_process, for section n. */
  method LoadSection(ker: Kernel, pid: nat, b: seq<byte>, path: seq<byte>, s: Loader.Section, ghost files: seq<Tarfs.File>, ghost p: Program, ghost n: nat,
                     ghost s0: Sys, ghost b0: Book)
      returns (r: Outcome)
    requires FileData(b, path, files, p.data) && Loadable(p) && n < |p.sections| && s == p.sections[n]
    requires Alone(ker.S(), ker.book, pid, s0, b0) && Filled(ker.S(), pid, p, n, 0)
    modifies ker
    ensures r == NullWrite <==> Loader.Pageless(s)
    ensures r != NullWrite ==> Spent(old(ker.usedBy), ker.usedBy, r == Done, s, s.memSize)
    ensures r == Done ==> Alone(ker.S(), ker.book, pid, s0, b0) && Filled(ker.S(), pid, p, n, s.memSize)
  {
    ghost var u := ker.usedBy;
    assert Loader.Loadable(p.data, p.sections[n]);
    var frame;
    var ok;
    ghost var k;
    ok, k, frame := LoadFilePart(ker, pid, b, path, s, u, files, p, n, s0, b0);
    if ok {
      r, k, frame := LoadZeros(ker, pid, s, frame, u, p, n, s0, b0);
    } else {
      r := OutOfFrames;
    }
    if r != NullWrite { SpentLess(u, ker.usedBy, r == Done, s, k, s.memSize); }
  }

  // ----- The whole program -----

  /** The first n sections are in memory. */
  ghost predicate Loaded(s: Sys, pid: nat, p: Program, n: nat) {
    && Loader.AllLoadable(p.data, p.sections) && n <= |p.sections|
    && forall a: nat {:trigger ByteAt(s, pid, a)} :: a < USER_END ==> ByteAt(s, pid, a) == Loader.Images(Start(p.ground, a), p.data, p.sections, n, a)
  }

  lemma SectionBegins(s: Sys, pid: nat, p: Program, n: nat)
    requires Loaded(s, pid, p, n) && n < |p.sections|
    ensures Filled(s, pid, p, n, 0)
  {
  }

  lemma SectionEnds(s: Sys, pid: nat, p: Program, n: nat)
    requires n < |p.sections| && Filled(s, pid, p, n, p.sections[n].memSize)
    ensures Loaded(s, pid, p, n + 1)
  {
  }

  /** Every byte of every section, read through the page tables, is the file's or zero; outside the
      pages of the sections there is the stack and nothing else. */
  ghost predicate InPlace(s: Sys, pid: nat, p: Program) {
    && Loader.AllLoadable(p.data, p.sections)
    && (forall i, a: nat {:trigger Loader.InBytes(a, p.sections[i], p.sections[i].memSize)} ::
          0 <= i < |p.sections| && Loader.InBytes(a, p.sections[i], p.sections[i].memSize) ==>
          ByteAt(s, pid, a) == Loader.Present(Loader.ByteOf(p.data, p.sections[i], a - p.sections[i].memoryOffset)))
    && (forall a: nat {:trigger ByteAt(s, pid, a)} :: a < USER_END && (forall i :: 0 <= i < |p.sections| ==> !Loader.InSection(a, p.sections[i])) ==>
          ByteAt(s, pid, a) == Start(p.ground, a))
  }

  lemma AllInPlace(s: Sys, pid: nat, p: Program)
    requires Loadable(p) && Loaded(s, pid, p, |p.sections|)
    ensures InPlace(s, pid, p)
  {
    forall i, a: nat | 0 <= i < |p.sections| && Loader.InBytes(a, p.sections[i], p.sections[i].memSize)
      ensures ByteAt(s, pid, a) == Loader.Present(Loader.ByteOf(p.data, p.sections[i], a - p.sections[i].memoryOffset))
    {
      Loader.InsideSection(Start(p.ground, a), p.data, p.sections, |p.sections|, i, a);
      assert p.sections[i].memoryOffset + p.sections[i].memSize <= p.ground.floor;
    }
    forall a: nat | a < USER_END && forall i :: 0 <= i < |p.sections| ==> !Loader.InSection(a, p.sections[i])
      ensures ByteAt(s, pid, a) == Start(p.ground, a)
    {
      Loader.OutsideSections(Start(p.ground, a), p.data, p.sections, |p.sections|, a);
    }
  }

  /** Frames for the first n sections. */
  ghost predicate SpentOn(u: seq<nat>, u': seq<nat>, ok: bool, p: Program, n: nat) {
    n <= |p.sections| && Took(u, u', ok, 4 * Loader.PageTotal(p.sections, n))
  }

  lemma SpentSection(u: seq<nat>, u1: seq<nat>, u2: seq<nat>, ok: bool, p: Program, n: nat)
    requires SpentOn(u, u1, true, p, n) && n < |p.sections| && Spent(u1, u2, ok, p.sections[n], p.sections[n].memSize)
    ensures SpentOn(u, u2, ok, p, n + 1)
  {
  }

  lemma SpentAll(u: seq<nat>, u': seq<nat>, ok: bool, p: Program, n: nat)
    requires SpentOn(u, u', ok, p, n)
    ensures SpentOn(u, u', ok, p, |p.sections|)
  {
    Loader.TotalGrows(p.sections, n, |p.sections|);
  }

  /** One turn of spawn_process's loop over the sections. */
  method LoadNext(ker: Kernel, pid: nat, b: seq<byte>, path: seq<byte>, sections: seq<Loader.Section>, i: nat, ghost u: seq<nat>,
                  ghost files: seq<Tarfs.File>, ghost p: Program, ghost s0: Sys, ghost b0: Book)
      returns (r: Outcome, i': nat)
    requires FileData(b, path, files, p.data) && Loadable(p) && sections == p.sections && i < |sections|
    requires LoadedSoFar(ker.S(), ker.book, ker.usedBy, pid, u, p, i, Done, s0, b0)
    modifies ker
    ensures i' == i + 1 && LoadedSoFar(ker.S(), ker.book, ker.usedBy, pid, u, p, i', r, s0, b0)
  {
    ghost var u1 := ker.usedBy;
    SectionBegins(ker.S(), pid, p, i);
    r := LoadSection(ker, pid, b, path, sections[i], files, p, i, s0, b0);
    i' := i + 1;
    if r == Done { SectionEnds(ker.S(), pid, p, i); }
    if r != NullWrite { SpentSection(u, u1, ker.usedBy, r == Done, p, i); }
  }

  /** After n sections, or when loading ended with the last of them: no section so far is pageless,
      unless there was a NULL write. */
  ghost predicate LoadedSoFar(s: Sys, b: Book, used: seq<nat>, pid: nat, u: seq<nat>, p: Program, n: nat, r: Outcome, s0: Sys, b0: Book) {
    && n <= |p.sections| && (r == NullWrite <==> !AllPaged(p.sections, n))
    && (r != NullWrite ==> SpentOn(u, used, r == Done, p, n))
    && (r == Done ==> Alone(s, b, pid, s0, b0) && Loaded(s, pid, p, n))
  }

  ghost predicate AllPaged(sections: seq<Loader.Section>, n: nat)
    requires n <= |sections|
  {
    forall i {:trigger sections[i]} :: 0 <= i < n ==> !Loader.Pageless(sections[i])
  }

  /** spawn_process's loop over the sections. */
  method LoadSections(ker: Kernel, pid: nat, b: seq<byte>, path: seq<byte>, sections: seq<Loader.Section>, ghost files: seq<Tarfs.File>, ghost p: Program,
                      ghost s0: Sys, ghost b0: Book)
      returns (r: Outcome)
    requires FileData(b, path, files, p.data) && Loadable(p) && sections == p.sections
    requires Alone(ker.S(), ker.book, pid, s0, b0) && Loaded(ker.S(), pid, p, 0)
    modifies ker
    ensures r == Done ==> AllPaged(sections, |sections|)
    ensures r == NullWrite ==> !AllPaged(sections, |sections|)
    ensures r != NullWrite ==> SpentOn(old(ker.usedBy), ker.usedBy, r == Done, p, |sections|)
    ensures r == Done ==> Alone(ker.S(), ker.book, pid, s0, b0) && Loaded(ker.S(), pid, p, |sections|)
  {
    ghost var u := ker.usedBy;
    var i: nat := 0;
    r := Done;
    while r == Done && i < |sections|
      invariant i <= |sections| && LoadedSoFar(ker.S(), ker.book, ker.usedBy, pid, u, p, i, r, s0, b0)
    {
      r, i := LoadNext(ker, pid, b, path, sections, i, u, files, p, s0, b0);
    }
    if r != NullWrite { SpentAll(u, ker.usedBy, r == Done, p, i); }
  }

  /** heap_start: the end of the highest section, rounded up, and three more pages. */
  method HeapStart(sections: seq<Loader.Section>) returns (start: nat)
    requires sections != []
    ensures start % PAGE == 0
    ensures forall i :: 0 <= i < |sections| ==> Loader.PagesEnd(sections[i]) + 3 * PAGE <= start
    ensures exists i :: 0 <= i < |sections| && Loader.PagesEnd(sections[i]) + 3 * PAGE == start
  {
    var i, height := 0, 0;
    ghost var top := 0;
    while i < |sections|
      invariant i <= |sections| && 0 <= top < |sections| && (i == 0 ==> height == 0 == top)
      invariant forall j :: 0 <= j < i ==> sections[j].memoryOffset + sections[j].memSize <= height
      invariant i > 0 ==> height == sections[top].memoryOffset + sections[top].memSize
    {
      if sections[i].memoryOffset + sections[i].memSize > height {
        height := sections[i].memoryOffset + sections[i].memSize;
        top := i;
      }
      i := i + 1;
    }
    start := ((height - 1) / PAGE + 4) * PAGE;
    assert start == Loader.RoundUp(height) + 3 * PAGE;
    forall j | 0 <= j < |sections|
      ensures Loader.PagesEnd(sections[j]) + 3 * PAGE <= start
    {
      Loader.RoundUpOrder(sections[j].memoryOffset + sections[j].memSize, height);
    }
    assert Loader.PagesEnd(sections[top]) + 3 * PAGE == start;
  }

  lemma StackPages()
    ensures PageOf(RSP0_BASE) == RSP0 && PageOf(STACK_BASE) == STACK_PAGE
  {
    assert RSP0_BASE / 0x1000 == ((509 * 512 + 511) * 512 + 511) * 512 + 511;
    Composed(509, 511, 511, 511);
    assert STACK_BASE / 0x1000 == ((509 * 512 + 511) * 512 + 511) * 512 + 510;
    Composed(509, 511, 511, 510);
  }

  lemma NextIndex(n: nat, k: nat, d: nat)
    requires d < 512
    ensures Indices(n * 512 + d, k + 1) == Indices(n, k) + [d]
  {
    LowIndex(n, d);
  }

  lemma Composed(a: nat, b: nat, c: nat, d: nat)
    requires a < 512 && b < 512 && c < 512 && d < 512
    ensures Indices(((a * 512 + b) * 512 + c) * 512 + d, 4) == [a, b, c, d]
  {
    var n: nat := a * 512 + b;
    var l: nat := n * 512 + c;
    NextIndex(0, 0, a);
    NextIndex(a, 1, b);
    NextIndex(n, 2, c);
    NextIndex(l, 3, d);
    assert Indices(0, 0) == [];
  }

  lemma LowIndex(n: nat, d: nat)
    requires d < 512
    ensures (n * 512 + d) / 512 == n && (n * 512 + d) % 512 == d
  {
  }

  /** The first two pages of a new process. */
  lemma StackAddresses(a: nat)
    requires a < USER_END
    ensures PageOf(a) == RSP0 <==> RSP0_BASE <= a
    ensures PageOf(a) == STACK_PAGE <==> STACK_BASE <= a < RSP0_BASE
  {
    StackPages();
    SamePages(a, RSP0_BASE);
    SamePages(a, STACK_BASE);
    assert Loader.Base(RSP0_BASE) == RSP0_BASE && Loader.Base(STACK_BASE) == STACK_BASE;
  }

  /** After the first part of spawn_process. */
  lemma Started(s0: Sys, b0: Book, s: Sys, b: Book, pid: nat, p: Program)
    requires Settled(s, b) && Fresh(s0, b0, s, b, pid, Mapped(ZeroFrame()), [STACK_PAGE]) && pid !in b0.alive && Loader.AllLoadable(p.data, p.sections)
    requires p.ground == Ground(STACK_BASE, ZeroFrame(), [])
    ensures Alone(s, b, pid, s0, b0) && Loaded(s, pid, p, 0)
  {
    assert ProcessOk(s, b, pid);
    forall a: nat | a < USER_END
      ensures ByteAt(s, pid, a) == Start(p.ground, a)
    {
      UserAddress(a);
      StackAddresses(a);
      ZeroPage(a % PAGE);
    }
  }

  /** The sections of the program, and where its heap starts. */
  method ReadProgram(b: seq<byte>, path: seq<byte>, ghost files: seq<Tarfs.File>, ghost p: Program, ghost headersAt: nat)
      returns (sections: seq<Loader.Section>, heapStart: nat)
    requires FileData(b, path, files, p.data) && Loader.Elf(p.data, headersAt, p.sections) && p.sections != []
    ensures sections == p.sections && HeapAt(p.sections, heapStart)
  {
    sections := Loader.ReadElf(b, path, files);
    heapStart := HeapStart(sections);
  }

  /** The heap starts on a page boundary, exactly three whole pages above the highest section page. */
  ghost predicate HeapAt(sections: seq<Loader.Section>, start: nat) {
    && start % PAGE == 0
    && (forall i {:trigger sections[i]} :: 0 <= i < |sections| ==> Loader.PagesEnd(sections[i]) + 3 * PAGE <= start)
    && (exists i {:trigger sections[i]} :: 0 <= i < |sections| && Loader.PagesEnd(sections[i]) + 3 * PAGE == start)
  }

  /** spawn_process with the sections given. */
  method SpawnSections(ker: Kernel, b: seq<byte>, path: seq<byte>, sections: seq<Loader.Section>, ghost files: seq<Tarfs.File>, ghost p: Program)
      returns (r: Outcome, pid: nat)
    requires ker.Valid()
    requires FileData(b, path, files, p.data) && Loadable(p) && sections == p.sections && p.ground == Ground(STACK_BASE, ZeroFrame(), [])
    modifies ker
    ensures r == Done ==> AllPaged(sections, |sections|)
    ensures r == NullWrite ==> !AllPaged(sections, |sections|)
    ensures r != NullWrite ==> Took(old(ker.usedBy), ker.usedBy, r == Done, 10 + 4 * Loader.PageTotal(p.sections, |p.sections|))
    ensures pid == old(ker.nextPid) && pid !in old(ker.procs) && pid !in old(ker.book.alive)
    ensures r == Done ==> Alone(ker.S(), ker.book, pid, old(ker.S()), old(ker.book)) && Loaded(ker.S(), pid, p, |sections|)
  {
    ghost var s0, b0 := ker.S(), ker.book;
    Loader.TotalGrows(p.sections, 0, |p.sections|);
    var ok;
    ok, pid := ker.Spawn([STACK_PAGE]);
    r := OutOfFrames;
    if ok {
      Started(s0, b0, ker.S(), ker.book, pid, p);
      r := LoadSections(ker, pid, b, path, sections, files, p, s0, b0);
    }
  }

  /** spawn_process on the program at `path` in the archive: the sections of its ELF file are in the
      memory of the new process, read through its page tables; every other process reads what it read
      before. The process has a number that no process has had. The kernel writes through a NULL page
      only if some section is pageless, and comes to the end only if none is. */
  method SpawnProgram(ker: Kernel, b: seq<byte>, path: seq<byte>, ghost files: seq<Tarfs.File>, ghost p: Program, ghost headersAt: nat)
      returns (r: Outcome, pid: nat, heapStart: nat)
    requires ker.Valid()
    requires FileData(b, path, files, p.data) && Loader.Elf(p.data, headersAt, p.sections) && p.sections != [] && Loadable(p)
    requires p.ground == Ground(STACK_BASE, ZeroFrame(), [])
    modifies ker
    ensures r == Done ==> AllPaged(p.sections, |p.sections|)
    ensures r == NullWrite ==> !AllPaged(p.sections, |p.sections|)
    ensures r != NullWrite ==> Took(old(ker.usedBy), ker.usedBy, r == Done, 10 + 4 * Loader.PageTotal(p.sections, |p.sections|))
    ensures pid == old(ker.nextPid) && pid !in old(ker.procs) && pid !in old(ker.book.alive)
    ensures r == Done ==> ker.Valid() && ker.book.alive == old(ker.book.alive) + {pid} && InPlace(ker.S(), pid, p)
    ensures r == Done ==> OthersSee(old(ker.S()), old(ker.book), ker.S(), pid)
    ensures HeapAt(p.sections, heapStart)
  {
    var sections;
    sections, heapStart := ReadProgram(b, path, files, p, headersAt);
    r, pid := SpawnSections(ker, b, path, sections, files, p);
    if r == Done { AllInPlace(ker.S(), pid, p); }
  }
}
