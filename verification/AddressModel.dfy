/** The bookkeeping of sys/thread/kthread.c and sys/memory/phy_page.c around the page tables: page
    entries with their chains of use records, and the m_map list of every process. */
module AddressModel {
  import opened PageTables

  /** An m_map; `id` is its address. kind 1: page table, 2: accessible page, 3: PML4, 4: rsp0 stack. */
  datatype MMap = MMap(id: nat, kind: nat, frame: nat, page: seq<nat>, rw: bool)

  datatype Process = Process(cr3: nat, maps: seq<MMap>)

  /** usedBy and records are the page entries' fields; records[f] lists the m_maps of frame f. The
      pool is the frames that programs may use: those not taken by the kernel at boot. nextPid is the
      number for the next process, id_count. basePd and mallocPd are the frames of the page directories
      of the kernel's image and of its heap. */
  datatype Sys = Sys(mem: Memory, usedBy: seq<nat>, records: seq<seq<nat>>, procs: map<nat, Process>, nextMap: nat,
                     nextPid: nat, pool: set<nat>, basePd: nat, mallocPd: nat)

  /** What the fields above stand for. owner: tables and where they hang; home: all live m_maps;
      held: the process of each; at: the m_map of each accessible page; alive: processes with an
      address space (neither being built nor being taken down). */
  datatype Book = Book(owner: map<nat, Place>, home: map<nat, MMap>, held: map<nat, nat>,
                       at: map<(nat, seq<nat>), nat>, alive: set<nat>)

  ghost predicate Distinct(r: seq<nat>) {
    forall i, j :: 0 <= i < j < |r| ==> r[i] != r[j]
  }

  ghost predicate DistinctIds(maps: seq<MMap>) {
    forall i, j :: 0 <= i < j < |maps| ==> maps[i].id != maps[j].id
  }

  ghost predicate Shaped(s: Sys) {
    && |s.usedBy| == |s.mem| == |s.records|
    && (forall f :: 0 <= f < |s.mem| ==> |s.mem[f]| == 512)
    && (forall f :: f in s.pool ==> f < |s.mem|)
  }

  /** A page entry in use by programs has a record for every m_map of its frame, once each, and no
      other record. */
  ghost predicate FrameOk(s: Sys, b: Book, f: nat) {
    && f < |s.usedBy| && f < |s.records|
    && (f in s.pool <==> s.usedBy[f] == 0 || s.usedBy[f] == 3)
    && (s.usedBy[f] == 3 ==>
          && s.records[f] != [] && Distinct(s.records[f])
          && (forall id :: id in s.records[f] ==> id in b.home && b.home[id].frame == f))
  }

  ghost predicate MapOk(s: Sys, b: Book, id: nat) {
    && id in b.home && b.home[id].id == id && id < s.nextMap && 1 <= b.home[id].kind <= 4
    && (b.home[id].kind == 2 ==> b.home[id].rw)
    && b.home[id].frame < |s.usedBy| == |s.records|
    && s.usedBy[b.home[id].frame] == 3 && id in s.records[b.home[id].frame]
    && (b.home[id].kind == 4 ==> |s.records[b.home[id].frame]| == 1)
    && id in b.held && b.held[id] < s.nextPid
    && (b.held[id] in b.alive ==> b.held[id] in s.procs && b.home[id] in s.procs[b.held[id]].maps)
  }

  ghost predicate ProcessOk(s: Sys, b: Book, pid: nat) {
    && pid in s.procs
    && DistinctIds(s.procs[pid].maps) && |s.procs[pid].maps| > 0 && s.procs[pid].maps[0].kind == 3
    && (forall i {:trigger s.procs[pid].maps[i]} :: 0 <= i < |s.procs[pid].maps| ==> ListedOk(b, pid, s.procs[pid].maps[i]))
    && s.procs[pid].cr3 in b.owner && b.owner[s.procs[pid].cr3] == Place(pid, [])
    && (forall t :: t in b.owner && b.owner[t] == Place(pid, []) ==> t == s.procs[pid].cr3)
    && KernelOk(s, b, pid)
  }

  /** The kernel's part of a space: entry 510 of the PML4 is the direct map, and entry 511 leads to a table
      with the directory of the kernel's image at 511, that of its heap at 510, and nothing else. */
  ghost predicate KernelOk(s: Sys, b: Book, pid: nat) {
    && pid in s.procs
    && var root := s.procs[pid].cr3;
    && var top := At(s.mem, root, 511);
    && root in b.owner && b.owner[root] == Place(pid, []) && top.frame in b.owner && b.owner[top.frame] == Place(pid, [511])
    && top == Cell(true, true, true, top.frame, 0) && At(s.mem, root, 510) == Cell(true, true, false, 0, 0)
    && At(s.mem, top.frame, 511) == Cell(true, true, false, s.basePd, 0)
    && At(s.mem, top.frame, 510) == Cell(true, true, false, s.mallocPd, 0)
    && (forall i: nat :: i < 510 ==> !At(s.mem, top.frame, i).p)
  }

  /** Entries for the kernel's addresses stay what they are. */
  ghost predicate KernelEntriesKept(mem: Memory, owner: map<nat, Place>, mem': Memory) {
    forall t, i: nat {:trigger At(mem', t, i)} :: t in owner && !UserPath(owner[t].path + [i]) ==> At(mem', t, i) == At(mem, t, i)
  }

  lemma KernelKept(s: Sys, b: Book, s': Sys, b': Book, pid: nat)
    requires KernelOk(s, b, pid) && KernelEntriesKept(s.mem, b.owner, s'.mem) && s'.basePd == s.basePd && s'.mallocPd == s.mallocPd
    requires pid in s'.procs && s'.procs[pid].cr3 == s.procs[pid].cr3
    requires forall t :: t in b.owner && b.owner[t].space == pid ==> t in b'.owner && b'.owner[t] == b.owner[t]
    ensures KernelOk(s', b', pid)
  {
    var root := s.procs[pid].cr3;
    var top := At(s.mem, root, 511).frame;
    assert forall i: nat :: [511] + [i] == [511, i];
    assert [] + [510] == [510] && [] + [511] == [511];
    assert At(s'.mem, root, 511) == At(s.mem, root, 511) && At(s'.mem, root, 510) == At(s.mem, root, 510);
    assert forall i: nat :: At(s'.mem, top, i) == At(s.mem, top, i);
  }

  ghost predicate ListedOk(b: Book, pid: nat, m: MMap) {
    m.id in b.home && b.home[m.id] == m && m.id in b.held && b.held[m.id] == pid
  }

  /** A table frame has one record, of an m_map of its process. */
  ghost predicate TableOk(s: Sys, b: Book, t: nat) {
    && t in b.owner && t < |s.usedBy| == |s.records| && s.usedBy[t] == 3
    && |s.records[t]| == 1 && s.records[t][0] in b.home && s.records[t][0] in b.held
    && (b.home[s.records[t][0]].kind == 1 || b.home[s.records[t][0]].kind == 3)
    && b.held[s.records[t][0]] == b.owner[t].space && b.owner[t].space in b.alive
  }

  /** The page of the rsp0 stack, 0xFFFFFEFFFFFFF000. */
  const RSP0: seq<nat> := [509, 511, 511, 511]

  /** An accessible page: its table entry points at the frame of its m_map, and is writable only if
      that frame has no other record. */
  ghost predicate PageOk(s: Sys, b: Book, pid: nat, vp: seq<nat>) {
    && (pid, vp) in b.at && pid in b.alive && pid in s.procs && UserPage(vp)
    && var id := b.at[(pid, vp)];
    && id in b.home && id in b.held && b.held[id] == pid
    && b.home[id].page == vp && (b.home[id].kind == 2 || (b.home[id].kind == 4 && vp == RSP0))
    && b.home[id].frame < |s.records|
    && var e := Walk(s.mem, s.procs[pid].cr3, vp, 0);
    && e.p && e.us && e.frame == b.home[id].frame
    && (e.rw || b.home[id].kind == 4 ==> |s.records[e.frame]| == 1)
    && (b.home[id].kind == 4 ==> e.rw)
  }

  /** A live m_map of a live process is where it should be, unless it is still to be hung (in X). */
  ghost predicate Hung(b: Book, X: set<nat>, id: nat) {
    id in b.home && id in b.held && b.held[id] in b.alive && id !in X ==>
      if b.home[id].kind == 1 || b.home[id].kind == 3
      then b.home[id].frame in b.owner && b.owner[b.home[id].frame].space == b.held[id]
      else (b.held[id], b.home[id].page) in b.at && b.at[(b.held[id], b.home[id].page)] == id
  }

  ghost predicate Covered(s: Sys, b: Book, pid: nat, vp: seq<nat>) {
    pid in b.alive && pid in s.procs && UserPage(vp) && Walk(s.mem, s.procs[pid].cr3, vp, 0).p ==> (pid, vp) in b.at
  }

  /** Reference counting alone. */
  ghost predicate Counted(s: Sys, b: Book) {
    && Shaped(s)
    && (forall f {:trigger FrameOk(s, b, f)} :: 0 <= f < |s.mem| ==> FrameOk(s, b, f))
    && (forall id {:trigger MapOk(s, b, id)} :: id in b.home ==> MapOk(s, b, id))
    && (forall q {:trigger q in s.procs} :: q in s.procs ==> q < s.nextPid)
  }

  ghost predicate Spaces(s: Sys, b: Book, X: set<nat>) {
    && Trees(s.mem, b.owner)
    && (forall pid {:trigger ProcessOk(s, b, pid)} :: pid in b.alive ==> ProcessOk(s, b, pid))
    && (forall t {:trigger TableOk(s, b, t)} :: t in b.owner ==> TableOk(s, b, t))
    && (forall pid, vp {:trigger PageOk(s, b, pid, vp)} :: (pid, vp) in b.at ==> PageOk(s, b, pid, vp))
    && (forall id {:trigger Hung(b, X, id)} :: Hung(b, X, id))
    && (forall pid, vp {:trigger Covered(s, b, pid, vp)} :: Covered(s, b, pid, vp))
  }

  ghost predicate Inv(s: Sys, b: Book, X: set<nat>) {
    Counted(s, b) && Spaces(s, b, X)
  }

  /** What process pid reads in page vp: the contents of the frame behind it, if it is mapped. */
  datatype Contents = Unmapped | Mapped(words: seq<Cell>)

  ghost function View(s: Sys, pid: nat, vp: seq<nat>): Contents
    requires |vp| == 4
  {
    if pid !in s.procs then Unmapped else
    var e := Walk(s.mem, s.procs[pid].cr3, vp, 0);
    if e.p && e.frame < |s.mem| then Mapped(s.mem[e.frame]) else Unmapped
  }

  // ----- A new m_map on a new frame -----

  /** get_phy_page_for_program, and the m_map at the end of its list. The caller hangs it later. */
  ghost predicate NewPage(s: Sys, b: Book, s': Sys, b': Book, pid: nat, m: MMap) {
    && m.id == s.nextMap && m.frame < |s.usedBy| && s.usedBy[m.frame] == 0 && 1 <= m.kind <= 4 && (m.kind == 2 ==> m.rw)
    && Shaped(s)
    && s'.mem == s.mem[m.frame := ZeroFrame()]
    && s'.usedBy == s.usedBy[m.frame := 3]
    && m.frame < |s.records| && s'.records == s.records[m.frame := [m.id]]
    && s'.nextMap == s.nextMap + 1 && s'.pool == s.pool && pid < s.nextPid == s'.nextPid
    && s'.basePd == s.basePd && s'.mallocPd == s.mallocPd
    && s'.procs.Keys == s.procs.Keys + {pid}
    && (forall q :: q in s.procs && q != pid ==> s'.procs[q] == s.procs[q])
    && (pid in b.alive ==> pid in s.procs && s'.procs[pid] == s.procs[pid].(maps := s.procs[pid].maps + [m]))
    && b' == b.(home := b.home[m.id := m], held := b.held[m.id := pid])
  }

  lemma NewPageFresh(s: Sys, b: Book, s': Sys, b': Book, X: set<nat>, pid: nat, m: MMap, id: nat)
    requires Inv(s, b, X) && NewPage(s, b, s', b', pid, m) && id in b.home
    ensures id != m.id && b.home[id].frame != m.frame
  {
    assert MapOk(s, b, id);
  }

  lemma NewPageCounted(s: Sys, b: Book, s': Sys, b': Book, X: set<nat>, pid: nat, m: MMap)
    requires Inv(s, b, X) && NewPage(s, b, s', b', pid, m)
    ensures Counted(s', b')
  {
    forall f | 0 <= f < |s'.mem|
      ensures FrameOk(s', b', f)
    {
      assert FrameOk(s, b, f);
      forall id | s'.usedBy[f] == 3 && id in s'.records[f]
        ensures id in b'.home && b'.home[id].frame == f
      {
        if f != m.frame { NewPageFresh(s, b, s', b', X, pid, m, id); }
      }
    }
    forall id | id in b'.home
      ensures MapOk(s', b', id)
    {
      if id != m.id {
        assert MapOk(s, b, id);
        NewPageFresh(s, b, s', b', X, pid, m, id);
      }
    }
  }

  /** The new frame is not a table, so every walk stays as it was. */
  lemma NewPageWalk(s: Sys, b: Book, s': Sys, b': Book, X: set<nat>, pid: nat, m: MMap, q: nat, vp: seq<nat>)
    requires Inv(s, b, X) && NewPage(s, b, s', b', pid, m) && q in b.alive && UserPage(vp)
    ensures q in s.procs && q in s'.procs && s'.procs[q].cr3 == s.procs[q].cr3
    ensures Walk(s'.mem, s.procs[q].cr3, vp, 0) == Walk(s.mem, s.procs[q].cr3, vp, 0)
  {
    assert ProcessOk(s, b, q);
    assert TableOk(s, b, m.frame) || m.frame !in b.owner;
    WalkInTables(s.mem, b.owner, s.procs[q].cr3, vp, 0, s'.mem);
  }

  lemma NewPageProcess(s: Sys, b: Book, s': Sys, b': Book, X: set<nat>, pid: nat, m: MMap, q: nat)
    requires Inv(s, b, X) && NewPage(s, b, s', b', pid, m) && q in b.alive
    ensures ProcessOk(s', b', q)
  {
    assert ProcessOk(s, b, q);
    forall i | 0 <= i < |s.procs[q].maps|
      ensures s.procs[q].maps[i].id != m.id && ListedOk(b', q, s.procs[q].maps[i])
    {
      assert ListedOk(b, q, s.procs[q].maps[i]);
      NewPageFresh(s, b, s', b', X, pid, m, s.procs[q].maps[i].id);
    }
    assert TableOk(s, b, m.frame) || m.frame !in b.owner;
    KernelKept(s, b, s', b', q);
  }

  lemma NewPagePage(s: Sys, b: Book, s': Sys, b': Book, X: set<nat>, pid: nat, m: MMap, q: nat, vp: seq<nat>)
    requires Inv(s, b, X) && NewPage(s, b, s', b', pid, m) && (q, vp) in b.at
    ensures PageOk(s', b', q, vp)
  {
    assert PageOk(s, b, q, vp);
    NewPageWalk(s, b, s', b', X, pid, m, q, vp);
    NewPageFresh(s, b, s', b', X, pid, m, b.at[(q, vp)]);
  }

  lemma NewPageSpaces(s: Sys, b: Book, s': Sys, b': Book, X: set<nat>, pid: nat, m: MMap)
    requires Inv(s, b, X) && NewPage(s, b, s', b', pid, m)
    ensures Spaces(s', b', X + {m.id})
  {
    assert TableOk(s, b, m.frame) || m.frame !in b.owner;
    TreesInTables(s.mem, b.owner, s'.mem);
    forall q | q in b'.alive
      ensures ProcessOk(s', b', q)
    {
      NewPageProcess(s, b, s', b', X, pid, m, q);
    }
    forall t | t in b'.owner
      ensures TableOk(s', b', t)
    {
      assert TableOk(s, b, t);
      NewPageFresh(s, b, s', b', X, pid, m, s.records[t][0]);
    }
    forall q, vp | (q, vp) in b'.at
      ensures PageOk(s', b', q, vp)
    {
      NewPagePage(s, b, s', b', X, pid, m, q, vp);
    }
    forall id
      ensures Hung(b', X + {m.id}, id)
    {
      assert Hung(b, X, id);
    }
    forall q, vp
      ensures Covered(s', b', q, vp)
    {
      assert Covered(s, b, q, vp);
      if q in b.alive && UserPage(vp) { NewPageWalk(s, b, s', b', X, pid, m, q, vp); }
    }
  }

  /** Allocation breaks nothing; the new m_map waits to be hung, and no page looks different. */
  lemma NewPageStep(s: Sys, b: Book, s': Sys, b': Book, X: set<nat>, pid: nat, m: MMap)
    requires Inv(s, b, X) && NewPage(s, b, s', b', pid, m)
    ensures Inv(s', b', X + {m.id})
    ensures forall q, vp :: q in b.alive && UserPage(vp) ==> View(s', q, vp) == View(s, q, vp)
  {
    NewPageCounted(s, b, s', b', X, pid, m);
    NewPageSpaces(s, b, s', b', X, pid, m);
    forall q, vp | q in b.alive && UserPage(vp)
      ensures View(s', q, vp) == View(s, q, vp)
    {
      NewPageWalk(s, b, s', b', X, pid, m, q, vp);
      assert Covered(s, b, q, vp);
      if (q, vp) in b.at {
        assert PageOk(s, b, q, vp);
        NewPageFresh(s, b, s', b', X, pid, m, b.at[(q, vp)]);
      }
    }
  }
}
