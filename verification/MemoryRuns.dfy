/** Whole runs of processes over their memory. The kernel with its page tables, shared frames and
    write faults is compared with a machine on which every process has a memory of its own. */
module MemoryRuns {
  import opened FreeFrames
  import opened PageTables
  import opened AddressModel
  import opened AddressSteps
  import opened AddressSpaces

  /** The pages of one process. */
  type Private = map<seq<nat>, seq<Cell>>

  /** The simple machine: a memory for every process, and the number of the next one. */
  datatype Machine = Machine(memories: map<nat, Private>, next: nat)

  /** What happens: a process is made with zeroed pages, copied, given another program's pages or taken
      down; it stores a word; or it touches an address where no page is (a page fault with the bounds of
      its heap and its stack pointer). */
  datatype Op =
    | Spawn(pages: seq<seq<nat>>)
    | Fork(parent: nat)
    | Exec(pid: nat, pages: seq<seq<nat>>)
    | Cleanup(pid: nat)
    | Store(pid: nat, page: seq<nat>, word: nat, value: Cell)
    | Touch(pid: nat, addr: nat, error: nat, heapStart: nat, heapBreak: nat, rsp: nat)

  /** Different user pages beside the rsp0 stack. */
  ghost predicate PageList(pages: seq<seq<nat>>) {
    && RSP0 !in pages && (forall i :: 0 <= i < |pages| ==> UserPage(pages[i]))
    && (forall i, j :: 0 <= i < j < |pages| ==> pages[i] != pages[j])
  }

  ghost predicate Legal(m: Machine, op: Op) {
    match op
    case Spawn(pages) => PageList(pages)
    case Fork(parent) => parent in m.memories
    case Exec(pid, pages) => pid in m.memories && PageList(pages)
    case Cleanup(pid) => pid in m.memories
    case Store(pid, page, word, _) => pid in m.memories && page in m.memories[pid] && word < |m.memories[pid][page]|
    case Touch(pid, addr, error, _, _, _) =>
      pid in m.memories && UserPage(PageOf(addr)) && PageOf(addr) !in m.memories[pid] && (error == 4 || error == 6)
  }

  ghost function Zeroed(pages: seq<seq<nat>>): Private {
    map w | w in pages :: ZeroFrame()
  }

  /** The rsp0 stack alone. */
  ghost function StackOf(memory: Private): Private {
    map w | w in memory && w == RSP0 :: memory[w]
  }

  /** One step of the simple machine. No step but Fork relates two memories, and Fork copies. */
  ghost function After(m: Machine, op: Op): Machine {
    if !Legal(m, op) then m else
    match op
    case Spawn(pages) => Machine(m.memories[m.next := Zeroed(pages)[RSP0 := ZeroFrame()]], m.next + 1)
    case Fork(parent) => Machine(m.memories[m.next := m.memories[parent][RSP0 := ZeroFrame()]], m.next + 1)
    case Exec(pid, pages) => m.(memories := m.memories[pid := Zeroed(pages) + StackOf(m.memories[pid])])
    case Cleanup(pid) => m.(memories := m.memories - {pid})
    case Store(pid, page, word, value) =>
      m.(memories := m.memories[pid := m.memories[pid][page := m.memories[pid][page][word := value]]])
    case Touch(pid, addr, error, heapStart, heapBreak, rsp) =>
      if heapStart <= addr < heapBreak || (addr <= 0xFFFF_FEFF_FFFF_F000 && (rsp - 0x4000) % 0x1_0000_0000_0000_0000 <= addr)
      then m.(memories := m.memories[pid := m.memories[pid][PageOf(addr) := ZeroFrame()]])
      else m
  }

  /** What process q finds in page w. */
  ghost function Seen(m: Machine, q: nat, w: seq<nat>): Contents {
    if q in m.memories && w in m.memories[q] then Mapped(m.memories[q][w]) else Unmapped
  }

  /** The kernel shows every process the memory it has on the simple machine. */
  ghost predicate Shows(s: Sys, b: Book, m: Machine) {
    && m.memories.Keys == b.alive && m.next == s.nextPid
    && (forall q, w {:trigger View(s, q, w)} :: q in b.alive && UserPage(w) ==> View(s, q, w) == Seen(m, q, w))
    && (forall q, w {:trigger w in m.memories[q]} :: q in m.memories && w in m.memories[q] ==> UserPage(w))
  }

  // ----- Steps -----

  lemma SpawnShows(s: Sys, b: Book, s': Sys, b': Book, m: Machine, pages: seq<seq<nat>>)
    requires Shows(s, b, m) && PageList(pages) && m.next !in b.alive && s'.nextPid == s.nextPid + 1
    requires Fresh(s, b, s', b', m.next, Mapped(ZeroFrame()), pages)
    ensures Shows(s', b', After(m, Spawn(pages)))
  {
    assert UserPage(RSP0);
    var m' := After(m, Spawn(pages));
    assert forall q :: q in m'.memories <==> q in b'.alive;
  }

  lemma ForkShows(s: Sys, b: Book, s': Sys, b': Book, m: Machine, parent: nat)
    requires Shows(s, b, m) && parent in b.alive && m.next !in b.alive && s'.nextPid == s.nextPid + 1
    requires Forked(s, b, s', b', parent, m.next)
    ensures Shows(s', b', After(m, Fork(parent)))
  {
    assert UserPage(RSP0);
    var m' := After(m, Fork(parent));
    forall w | UserPage(w)
      ensures View(s', m.next, w) == Seen(m', m.next, w)
    {
      assert View(s, parent, w) == Seen(m, parent, w);
    }
  }

  lemma ExecShows(s: Sys, b: Book, s': Sys, b': Book, m: Machine, pid: nat, pages: seq<seq<nat>>)
    requires Shows(s, b, m) && PageList(pages) && pid in b.alive && s'.nextPid == s.nextPid
    requires Fresh(s, b, s', b', pid, View(s, pid, RSP0), pages)
    ensures Shows(s', b', After(m, Exec(pid, pages)))
  {
    assert UserPage(RSP0);
    var m' := After(m, Exec(pid, pages));
    assert forall q :: q in m'.memories <==> q in b'.alive;
    assert View(s, pid, RSP0) == Seen(m, pid, RSP0);
    forall w | UserPage(w)
      ensures View(s', pid, w) == Seen(m', pid, w)
    {
      ExecSeen(m, pid, pages, w);
    }
  }

  lemma ExecSeen(m: Machine, pid: nat, pages: seq<seq<nat>>, w: seq<nat>)
    requires pid in m.memories && PageList(pages)
    ensures Seen(After(m, Exec(pid, pages)), pid, w) ==
      if w == RSP0 then Seen(m, pid, RSP0) else if w in pages then Mapped(ZeroFrame()) else Unmapped
  {
  }

  lemma CleanupShows(s: Sys, b: Book, s': Sys, b': Book, m: Machine, pid: nat)
    requires Shows(s, b, m) && pid in b.alive && b'.alive == b.alive - {pid} && s'.nextPid == s.nextPid
    requires Apart(s, b, s', b', pid)
    ensures Shows(s', b', After(m, Cleanup(pid)))
  {
  }

  /** One page of one process gets other contents. */
  lemma PageShows(s: Sys, b: Book, s': Sys, b': Book, m: Machine, m': Machine, pid: nat, vp: seq<nat>, words: seq<Cell>)
    requires Shows(s, b, m) && pid in b.alive && b'.alive == b.alive && s'.nextPid == s.nextPid && UserPage(vp)
    requires View(s', pid, vp) == Mapped(words)
    requires forall q, w {:trigger View(s', q, w)} :: q in b.alive && UserPage(w) && (q, w) != (pid, vp) ==> View(s', q, w) == View(s, q, w)
    requires m' == m.(memories := m.memories[pid := m.memories[pid][vp := words]])
    ensures Shows(s', b', m')
  {
  }

  /** A process with a memory is in the kernel's list. */
  lemma Known(s: Sys, b: Book, m: Machine, pid: nat)
    requires Settled(s, b) && Shows(s, b, m) && pid in m.memories
    ensures pid in b.alive && pid in s.procs
  {
    assert ProcessOk(s, b, pid);
  }

  /** The kernel takes the same step as the simple machine, or runs out of frames. */
  method Perform(ker: Kernel, op: Op, ghost m: Machine) returns (ok: bool, ghost m': Machine)
    requires ker.Valid() && Shows(ker.S(), ker.book, m) && Legal(m, op)
    modifies ker
    ensures m' == After(m, op)
    ensures ok ==> ker.Valid() && Shows(ker.S(), ker.book, m')
    ensures !ok ==> FreeCount(ker.usedBy) == 0
  {
    m' := After(m, op);
    match op
    case Spawn(pages) => ok := PerformSpawn(ker, pages, m);
    case Fork(parent) => ok := PerformFork(ker, parent, m);
    case Exec(pid, pages) => ok := PerformExec(ker, pid, pages, m);
    case Cleanup(pid) =>
      ghost var s, b := ker.S(), ker.book;
      Known(s, b, m, pid);
      ker.Cleanup(pid);
      CleanupShows(s, b, ker.S(), ker.book, m, pid);
      ok := true;
    case Store(pid, page, word, value) => ok := PerformStore(ker, pid, page, word, value, m);
    case Touch(pid, addr, error, heapStart, heapBreak, rsp) => ok := PerformTouch(ker, pid, addr, error, heapStart, heapBreak, rsp, m);
  }

  method PerformSpawn(ker: Kernel, pages: seq<seq<nat>>, ghost m: Machine) returns (ok: bool)
    requires ker.Valid() && Shows(ker.S(), ker.book, m) && PageList(pages)
    modifies ker
    ensures ok ==> ker.Valid() && Shows(ker.S(), ker.book, After(m, Spawn(pages)))
    ensures !ok ==> FreeCount(ker.usedBy) == 0
  {
    ghost var s, b := ker.S(), ker.book;
    var pid;
    ok, pid := ker.Spawn(pages);
    if ok { SpawnShows(s, b, ker.S(), ker.book, m, pages); }
  }

  method PerformFork(ker: Kernel, parent: nat, ghost m: Machine) returns (ok: bool)
    requires ker.Valid() && Shows(ker.S(), ker.book, m) && parent in m.memories
    modifies ker
    ensures ok ==> ker.Valid() && Shows(ker.S(), ker.book, After(m, Fork(parent)))
    ensures !ok ==> FreeCount(ker.usedBy) == 0
  {
    ghost var s, b := ker.S(), ker.book;
    Known(s, b, m, parent);
    var child;
    ok, child := ker.Fork(parent);
    if ok { ForkShows(s, b, ker.S(), ker.book, m, parent); }
  }

  method PerformExec(ker: Kernel, pid: nat, pages: seq<seq<nat>>, ghost m: Machine) returns (ok: bool)
    requires ker.Valid() && Shows(ker.S(), ker.book, m) && pid in m.memories && PageList(pages)
    modifies ker
    ensures ok ==> ker.Valid() && Shows(ker.S(), ker.book, After(m, Exec(pid, pages)))
    ensures !ok ==> FreeCount(ker.usedBy) == 0
  {
    ghost var s, b := ker.S(), ker.book;
    Known(s, b, m, pid);
    ok := ker.Replace(pid, pages);
    if ok { ExecShows(s, b, ker.S(), ker.book, m, pid, pages); }
  }

  method PerformStore(ker: Kernel, pid: nat, page: seq<nat>, word: nat, value: Cell, ghost m: Machine) returns (ok: bool)
    requires ker.Valid() && Shows(ker.S(), ker.book, m) && Legal(m, Store(pid, page, word, value))
    modifies ker
    ensures ok ==> ker.Valid() && Shows(ker.S(), ker.book, After(m, Store(pid, page, word, value)))
    ensures !ok ==> FreeCount(ker.usedBy) == 0
  {
    ghost var s, b := ker.S(), ker.book;
    Known(s, b, m, pid);
    assert View(s, pid, page) == Seen(m, pid, page);
    FaultingPage(s, b, pid, page);
    ok := ker.Store(pid, page, word, value);
    if ok {
      PageShows(s, b, ker.S(), ker.book, m, After(m, Store(pid, page, word, value)), pid, page, m.memories[pid][page][word := value]);
    }
  }

  method PerformTouch(ker: Kernel, pid: nat, addr: nat, error: nat, heapStart: nat, heapBreak: nat, rsp: nat, ghost m: Machine) returns (ok: bool)
    requires ker.Valid() && Shows(ker.S(), ker.book, m) && Legal(m, Touch(pid, addr, error, heapStart, heapBreak, rsp))
    modifies ker
    ensures ok ==> ker.Valid() && Shows(ker.S(), ker.book, After(m, Touch(pid, addr, error, heapStart, heapBreak, rsp)))
    ensures !ok ==> FreeCount(ker.usedBy) == 0
  {
    ghost var s, b := ker.S(), ker.book;
    Known(s, b, m, pid);
    assert View(s, pid, PageOf(addr)) == Seen(m, pid, PageOf(addr));
    FaultingPage(s, b, pid, PageOf(addr));
    var outcome, rsp';
    ok, outcome, rsp' := ker.PageFault(pid, addr, error, heapStart, heapBreak, rsp);
    if ok && outcome != Denied {
      PageShows(s, b, ker.S(), ker.book, m, After(m, Touch(pid, addr, error, heapStart, heapBreak, rsp)), pid, PageOf(addr), ZeroFrame());
    }
  }

  // ----- Runs -----

  /** The simple machine after the first n operations. */
  ghost function AfterAll(m: Machine, ops: seq<Op>, n: nat): Machine
    requires n <= |ops|
  {
    if n == 0 then m else After(AfterAll(m, ops, n - 1), ops[n - 1])
  }

  ghost predicate LegalAt(m: Machine, ops: seq<Op>, k: nat) {
    k < |ops| && Legal(AfterAll(m, ops, k), ops[k])
  }

  ghost predicate AllLegal(m: Machine, ops: seq<Op>) {
    forall k: nat {:trigger LegalAt(m, ops, k)} :: k < |ops| ==> LegalAt(m, ops, k)
  }

  /** The kernel has kept up with the simple machine for n operations, or has just run out of frames. */
  ghost predicate Going(s: Sys, b: Book, used: seq<nat>, m: Machine, ops: seq<Op>, n: nat, ok: bool) {
    && n <= |ops|
    && (if ok then Settled(s, b) && Shows(s, b, AfterAll(m, ops, n)) else n < |ops| && FreeCount(used) == 0)
  }

  method Turn(ker: Kernel, ops: seq<Op>, n: nat, ghost m: Machine) returns (ok: bool, n': nat)
    requires n < |ops| && AllLegal(m, ops) && Going(ker.S(), ker.book, ker.usedBy, m, ops, n, true)
    modifies ker
    ensures n' == (if ok then n + 1 else n) && Going(ker.S(), ker.book, ker.usedBy, m, ops, n', ok)
  {
    ghost var now := AfterAll(m, ops, n);
    assert LegalAt(m, ops, n);
    ghost var next;
    ok, next := Perform(ker, ops[n], now);
    n' := if ok then n + 1 else n;
    NextStep(m, ops, n, now, next);
  }

  /** Over every run, whatever is shared behind the tables, each process sees what it would see with a
      memory of its own. A run stops early only when no frame is free. */
  method Run(ker: Kernel, ops: seq<Op>, ghost m: Machine) returns (done: nat)
    requires ker.Valid() && Shows(ker.S(), ker.book, m) && AllLegal(m, ops)
    modifies ker
    ensures done <= |ops|
    ensures done == |ops| ==> ker.Valid() && Shows(ker.S(), ker.book, AfterAll(m, ops, |ops|))
    ensures done < |ops| ==> FreeCount(ker.usedBy) == 0
  {
    done := 0;
    var ok := true;
    while ok && done < |ops|
      invariant Going(ker.S(), ker.book, ker.usedBy, m, ops, done, ok)
      decreases |ops| - done, ok
    {
      ok, done := Turn(ker, ops, done, m);
    }
  }

  /** A run from boot: process 0 with page vp; its child 1, which stores a word; the child of that, 2;
      then 1 is taken down. In the end 0 still sees zeros, and 2 sees the word. */
  method Family(frames: Memory, usedBy: seq<nat>, basePd: nat, mallocPd: nat, vp: seq<nat>, word: nat, value: Cell)
      returns (ker: Kernel, done: nat)
    requires |usedBy| == |frames| && forall f :: 0 <= f < |frames| ==> |frames[f]| == 512 && usedBy[f] != 3
    requires UserPage(vp) && vp != RSP0 && word < 512
    ensures fresh(ker)
    ensures done < 5 ==> FreeCount(ker.usedBy) == 0
    ensures done >= 5 ==> ker.Valid() && ker.book.alive == {0, 2}
    ensures done >= 5 ==> View(ker.S(), 0, vp) == Mapped(ZeroFrame()) && View(ker.S(), 2, vp) == Mapped(ZeroFrame()[word := value])
  {
    ker := new Kernel(frames, usedBy, basePd, mallocPd);
    ghost var m := Machine(map[], 0);
    var ops := [Spawn([vp]), Fork(0), Store(1, vp, word, value), Fork(1), Cleanup(1)];
    FamilySteps(m, ops, vp, word, value);
    done := Run(ker, ops, m);
  }

  lemma FamilySteps(m: Machine, ops: seq<Op>, vp: seq<nat>, word: nat, value: Cell)
    requires m == Machine(map[], 0) && UserPage(vp) && vp != RSP0 && word < 512
    requires ops == [Spawn([vp]), Fork(0), Store(1, vp, word, value), Fork(1), Cleanup(1)]
    ensures AllLegal(m, ops)
    ensures var memories := AfterAll(m, ops, 5).memories;
      && memories.Keys == {0, 2} && vp in memories[0] && vp in memories[2]
      && memories[0][vp] == ZeroFrame() && memories[2][vp] == ZeroFrame()[word := value]
  {
    var first: Private := map[vp := ZeroFrame(), RSP0 := ZeroFrame()];
    var second: Private := map[vp := ZeroFrame()[word := value], RSP0 := ZeroFrame()];
    var m1, m2, m3 := Machine(map[0 := first], 1), Machine(map[0 := first, 1 := first], 2), Machine(map[0 := first, 1 := second], 2);
    var m4, m5 := Machine(map[0 := first, 1 := second, 2 := second], 3), Machine(map[0 := first, 2 := second], 3);
    SpawnStep(m, m1, vp, first);
    NextStep(m, ops, 0, m, m1);
    ForkStep(m1, m2, 0, first);
    NextStep(m, ops, 1, m1, m2);
    StoreStep(m2, m3, vp, word, value, first, second);
    NextStep(m, ops, 2, m2, m3);
    ForkStep(m3, m4, 1, second);
    NextStep(m, ops, 3, m3, m4);
    assert After(m4, Cleanup(1)) == m5;
    NextStep(m, ops, 4, m4, m5);
  }

  lemma NextStep(m: Machine, ops: seq<Op>, k: nat, now: Machine, then_: Machine)
    requires k < |ops| && AfterAll(m, ops, k) == now && After(now, ops[k]) == then_
    ensures AfterAll(m, ops, k + 1) == then_
  {
  }

  lemma SpawnStep(m: Machine, m1: Machine, vp: seq<nat>, first: Private)
    requires m == Machine(map[], 0) && m1 == Machine(map[0 := first], 1) && UserPage(vp) && vp != RSP0
    requires first == map[vp := ZeroFrame(), RSP0 := ZeroFrame()]
    ensures Legal(m, Spawn([vp])) && After(m, Spawn([vp])) == m1
  {
    assert Zeroed([vp])[RSP0 := ZeroFrame()] == first;
  }

  lemma ForkStep(m: Machine, m': Machine, parent: nat, memory: Private)
    requires parent in m.memories && m.memories[parent] == memory && RSP0 in memory && memory[RSP0] == ZeroFrame()
    requires m' == Machine(m.memories[m.next := memory], m.next + 1)
    ensures After(m, Fork(parent)) == m'
  {
    assert memory[RSP0 := ZeroFrame()] == memory;
  }

  lemma StoreStep(m: Machine, m': Machine, vp: seq<nat>, word: nat, value: Cell, first: Private, second: Private)
    requires m == Machine(map[0 := first, 1 := first], 2) && m' == Machine(map[0 := first, 1 := second], 2)
    requires word < 512 && vp != RSP0 && first == map[vp := ZeroFrame(), RSP0 := ZeroFrame()]
    requires second == map[vp := ZeroFrame()[word := value], RSP0 := ZeroFrame()]
    ensures Legal(m, Store(1, vp, word, value)) && After(m, Store(1, vp, word, value)) == m'
  {
    assert first[vp := ZeroFrame()[word := value]] == second;
  }

  /** A run from boot: a process with its first stack page pushes into the page below, and finds it there,
      zeroed but for the word it stores; the heap, which is empty, plays no part. */
  method StackGrowth(frames: Memory, usedBy: seq<nat>, basePd: nat, mallocPd: nat, heap: nat, value: Cell) returns (ker: Kernel, done: nat)
    requires |usedBy| == |frames| && forall f :: 0 <= f < |frames| ==> |frames[f]| == 512 && usedBy[f] != 3
    ensures fresh(ker)
    ensures done < 3 ==> FreeCount(ker.usedBy) == 0
    ensures done >= 3 ==> ker.Valid() && 0 in ker.book.alive
    ensures done >= 3 ==> View(ker.S(), 0, PageOf(0xFFFF_FEFF_FFFF_EFF0)) == Mapped(ZeroFrame())
    ensures done >= 3 ==> View(ker.S(), 0, PageOf(0xFFFF_FEFF_FFFF_DFF8)) == Mapped(ZeroFrame()[511 := value])
  {
    ker := new Kernel(frames, usedBy, basePd, mallocPd);
    ghost var m := Machine(map[], 0);
    var top, below := [509, 511, 511, 510], [509, 511, 511, 509];
    var ops := [Spawn([top]), Touch(0, 0xFFFF_FEFF_FFFF_DFF8, 6, heap, heap, 0xFFFF_FEFF_FFFF_F000), Store(0, below, 511, value)];
    StackPages();
    StackSteps(m, ops, top, below, heap, value);
    done := Run(ker, ops, m);
  }

  /** The rsp0 stack is right above the top of the stack. */
  lemma StackPages()
    ensures PageOf(0xFFFF_FEFF_FFFF_F000) == RSP0
    ensures PageOf(0xFFFF_FEFF_FFFF_EFF0) == [509, 511, 511, 510] && PageOf(0xFFFF_FEFF_FFFF_DFF8) == [509, 511, 511, 509]
  {
    PageOfShifts(0xFFFF_FEFF_FFFF_F000);
    PageOfShifts(0xFFFF_FEFF_FFFF_EFF0);
    PageOfShifts(0xFFFF_FEFF_FFFF_DFF8);
  }

  lemma StackSteps(m: Machine, ops: seq<Op>, top: seq<nat>, below: seq<nat>, heap: nat, value: Cell)
    requires m == Machine(map[], 0) && top == [509, 511, 511, 510] && below == [509, 511, 511, 509]
    requires ops == [Spawn([top]), Touch(0, 0xFFFF_FEFF_FFFF_DFF8, 6, heap, heap, 0xFFFF_FEFF_FFFF_F000), Store(0, below, 511, value)]
    ensures AllLegal(m, ops)
    ensures var memories := AfterAll(m, ops, 3).memories;
      0 in memories && top in memories[0] && below in memories[0] && memories[0][top] == ZeroFrame() && memories[0][below] == ZeroFrame()[511 := value]
  {
    var first: Private := map[top := ZeroFrame(), RSP0 := ZeroFrame()];
    var second, third := first[below := ZeroFrame()], first[below := ZeroFrame()[511 := value]];
    var m1, m2, m3 := Machine(map[0 := first], 1), Machine(map[0 := second], 1), Machine(map[0 := third], 1);
    assert UserPage(top) && UserPage(below);
    SpawnStep(m, m1, top, first);
    NextStep(m, ops, 0, m, m1);
    StackPages();
    TouchStep(m1, m2, heap, below, first, second);
    NextStep(m, ops, 1, m1, m2);
    assert second[below := ZeroFrame()[511 := value]] == third;
    assert After(m2, Store(0, below, 511, value)) == m3;
    NextStep(m, ops, 2, m2, m3);
  }

  lemma TouchStep(m: Machine, m': Machine, heap: nat, below: seq<nat>, first: Private, second: Private)
    requires m == Machine(map[0 := first], 1) && m' == Machine(map[0 := second], 1) && below !in first && second == first[below := ZeroFrame()]
    requires below == PageOf(0xFFFF_FEFF_FFFF_DFF8) && UserPage(below)
    ensures var op := Touch(0, 0xFFFF_FEFF_FFFF_DFF8, 6, heap, heap, 0xFFFF_FEFF_FFFF_F000); Legal(m, op) && After(m, op) == m'
  {
  }
}
