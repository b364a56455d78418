/** The remaining steps on address spaces: hanging tables and pages, sharing, protecting, writing,
    dropping and taking down. Each keeps the invariant of AddressModel and says which page views
    it changes. */
module AddressSteps {
  import opened PageTables
  import opened AddressModel

  /** The frame behind an accessible page is no table. */
  lemma DataIsNoTable(s: Sys, b: Book, X: set<nat>, q: nat, vp: seq<nat>)
    requires Inv(s, b, X) && (q, vp) in b.at
    ensures b.at[(q, vp)] in b.home && b.home[b.at[(q, vp)]].frame !in b.owner
    ensures b.home[b.at[(q, vp)]].frame < |s.mem|
  {
    assert PageOk(s, b, q, vp);
    var id := b.at[(q, vp)];
    assert MapOk(s, b, id);
    var f := b.home[id].frame;
    assert f in b.owner ==> TableOk(s, b, f);
  }

  // ----- Hanging a new table -----

  ghost predicate HangTable(s: Sys, b: Book, s': Sys, b': Book, X: set<nat>, id: nat, T: nat, I: nat) {
    && id in X && id in b.home && b.home[id].kind == 1 && id in b.held && b.held[id] in b.alive
    && b.home[id].frame < |s.records| && s.records[b.home[id].frame] == [id]
    && T in b.owner && b.owner[T].space == b.held[id]
    && Attaching(s.mem, b.owner, s'.mem, b'.owner, T, I, b.home[id].frame)
    && s' == s.(mem := s'.mem) && b' == b.(owner := b'.owner)
  }

  lemma HangTableWalk(s: Sys, b: Book, s': Sys, b': Book, X: set<nat>, id: nat, T: nat, I: nat, q: nat, vp: seq<nat>)
    requires Inv(s, b, X) && HangTable(s, b, s', b', X, id, T, I) && q in b.alive && UserPage(vp)
    ensures q in s.procs && Walk(s'.mem, s.procs[q].cr3, vp, 0) == Walk(s.mem, s.procs[q].cr3, vp, 0)
  {
    assert ProcessOk(s, b, q);
    AttachWalk(s.mem, b.owner, s'.mem, b'.owner, T, I, b.home[id].frame, s.procs[q].cr3, vp, 0);
  }

  lemma HangTableStep(s: Sys, b: Book, s': Sys, b': Book, X: set<nat>, id: nat, T: nat, I: nat)
    requires Inv(s, b, X) && HangTable(s, b, s', b', X, id, T, I)
    ensures Inv(s', b', X - {id})
    ensures forall q, vp :: q in b.alive && UserPage(vp) ==> View(s', q, vp) == View(s, q, vp)
  {
    var f := b.home[id].frame;
    HangTableCounted(s, b, s', b', X, id, T, I);
    AttachTrees(s.mem, b.owner, s'.mem, b'.owner, T, I, f);
    forall q | q in b'.alive
      ensures ProcessOk(s', b', q)
    {
      HangTableProcess(s, b, s', b', X, id, T, I, q);
    }
    forall t | t in b'.owner
      ensures TableOk(s', b', t)
    {
      HangTableTables(s, b, s', b', X, id, T, I, t);
    }
    HangTablePages(s, b, s', b', X, id, T, I);
    forall x
      ensures Hung(b', X - {id}, x)
    {
      HangTableHung(s, b, s', b', X, id, T, I, x);
    }
  }

  lemma HangTableProcess(s: Sys, b: Book, s': Sys, b': Book, X: set<nat>, id: nat, T: nat, I: nat, q: nat)
    requires Inv(s, b, X) && HangTable(s, b, s', b', X, id, T, I) && q in b.alive
    ensures ProcessOk(s', b', q)
  {
    assert ProcessOk(s, b, q);
    KernelKept(s, b, s', b', q);
  }

  lemma HangTableTables(s: Sys, b: Book, s': Sys, b': Book, X: set<nat>, id: nat, T: nat, I: nat, t: nat)
    requires Inv(s, b, X) && HangTable(s, b, s', b', X, id, T, I) && t in b'.owner
    ensures TableOk(s', b', t)
  {
    assert MapOk(s, b, id);
    if t != b.home[id].frame { assert TableOk(s, b, t); }
  }

  lemma HangTableHung(s: Sys, b: Book, s': Sys, b': Book, X: set<nat>, id: nat, T: nat, I: nat, x: nat)
    requires Inv(s, b, X) && HangTable(s, b, s', b', X, id, T, I)
    ensures Hung(b', X - {id}, x)
  {
    assert Hung(b, X, x);
  }

  lemma HangTableCounted(s: Sys, b: Book, s': Sys, b': Book, X: set<nat>, id: nat, T: nat, I: nat)
    requires Inv(s, b, X) && HangTable(s, b, s', b', X, id, T, I)
    ensures Counted(s', b')
  {
    forall f | 0 <= f < |s'.mem|
      ensures FrameOk(s', b', f)
    {
      assert FrameOk(s, b, f);
    }
    forall x | x in b'.home
      ensures MapOk(s', b', x)
    {
      assert MapOk(s, b, x);
    }
  }

  lemma HangTablePages(s: Sys, b: Book, s': Sys, b': Book, X: set<nat>, id: nat, T: nat, I: nat)
    requires Inv(s, b, X) && HangTable(s, b, s', b', X, id, T, I)
    ensures forall q, vp {:trigger PageOk(s', b', q, vp)} :: (q, vp) in b'.at ==> PageOk(s', b', q, vp)
    ensures forall q, vp {:trigger Covered(s', b', q, vp)} :: Covered(s', b', q, vp)
    ensures forall q, vp :: q in b.alive && UserPage(vp) ==> View(s', q, vp) == View(s, q, vp)
  {
    forall q, vp | (q, vp) in b'.at
      ensures PageOk(s', b', q, vp)
    {
      assert PageOk(s, b, q, vp);
      HangTableWalk(s, b, s', b', X, id, T, I, q, vp);
    }
    forall q, vp
      ensures Covered(s', b', q, vp)
      ensures q in b.alive && UserPage(vp) ==> View(s', q, vp) == View(s, q, vp)
    {
      assert Covered(s, b, q, vp);
      if q in b.alive && UserPage(vp) {
        HangTableWalk(s, b, s', b', X, id, T, I, q, vp);
        if (q, vp) in b.at {
          assert PageOk(s, b, q, vp);
          DataIsNoTable(s, b, X, q, vp);
        }
      }
    }
  }

  // ----- Setting the table entry of a page -----

  /** The last entry on the way to vp becomes c. */
  ghost predicate SetEntry(s: Sys, b: Book, s': Sys, pid: nat, vp: seq<nat>, leaf: nat, c: Cell) {
    && pid in b.alive && pid in s.procs && UserPage(vp)
    && PathTo(s.mem, b.owner, s.procs[pid].cr3, vp, leaf)
    && leaf < |s.mem| && |s.mem[leaf]| == 512
    && s' == s.(mem := s.mem[leaf := s.mem[leaf][vp[3] := c]])
  }

  lemma SetEntryWalk(s: Sys, b: Book, s': Sys, X: set<nat>, pid: nat, vp: seq<nat>, leaf: nat, c: Cell, q: nat, w: seq<nat>)
    requires Inv(s, b, X) && SetEntry(s, b, s', pid, vp, leaf, c) && q in b.alive && UserPage(w)
    ensures q in s.procs
    ensures Walk(s'.mem, s.procs[q].cr3, w, 0) == if q == pid && w == vp then c else Walk(s.mem, s.procs[q].cr3, w, 0)
  {
    assert ProcessOk(s, b, q) && ProcessOk(s, b, pid);
    LeafWalk(s.mem, b.owner, s'.mem, s.procs[pid].cr3, vp, leaf, s.procs[q].cr3, w);
  }

  lemma SetEntryCounted(s: Sys, b: Book, s': Sys, b': Book, X: set<nat>, pid: nat, vp: seq<nat>, leaf: nat, c: Cell)
    requires Inv(s, b, X) && SetEntry(s, b, s', pid, vp, leaf, c)
    requires b'.home == b.home && b'.held == b.held && b'.alive == b.alive && b'.owner == b.owner
    ensures Counted(s', b')
  {
    forall f | 0 <= f < |s'.mem|
      ensures FrameOk(s', b', f)
    {
      assert FrameOk(s, b, f);
    }
    forall x | x in b'.home
      ensures MapOk(s', b', x)
    {
      assert MapOk(s, b, x);
    }
  }

  lemma SetEntryTables(s: Sys, b: Book, s': Sys, b': Book, X: set<nat>, pid: nat, vp: seq<nat>, leaf: nat, c: Cell)
    requires Inv(s, b, X) && SetEntry(s, b, s', pid, vp, leaf, c)
    requires b'.home == b.home && b'.held == b.held && b'.alive == b.alive && b'.owner == b.owner
    ensures Trees(s'.mem, b'.owner)
    ensures forall q {:trigger ProcessOk(s', b', q)} :: q in b'.alive ==> ProcessOk(s', b', q)
    ensures forall t {:trigger TableOk(s', b', t)} :: t in b'.owner ==> TableOk(s', b', t)
  {
    LeafTrees(s.mem, b.owner, s'.mem, leaf, vp[3]);
    assert forall i: nat :: (vp[..3] + [i])[0] == vp[0];
    forall q | q in b'.alive
      ensures ProcessOk(s', b', q)
    {
      assert ProcessOk(s, b, q);
      KernelKept(s, b, s', b', q);
    }
    forall t | t in b'.owner
      ensures TableOk(s', b', t)
    {
      assert TableOk(s, b, t);
    }
  }

  /** Other pages keep their entries and their contents. */
  lemma SetEntryOthers(s: Sys, b: Book, s': Sys, b': Book, X: set<nat>, pid: nat, vp: seq<nat>, leaf: nat, c: Cell, q: nat, w: seq<nat>)
    requires Inv(s, b, X) && SetEntry(s, b, s', pid, vp, leaf, c) && (q, w) != (pid, vp)
    requires b'.home == b.home && b'.held == b.held && b'.alive == b.alive && b'.owner == b.owner
    requires (q, w) in b'.at <==> (q, w) in b.at
    requires (q, w) in b.at ==> b'.at[(q, w)] == b.at[(q, w)]
    ensures (q, w) in b'.at ==> PageOk(s', b', q, w)
    ensures Covered(s', b', q, w)
    ensures q in b.alive && UserPage(w) ==> View(s', q, w) == View(s, q, w)
  {
    assert Covered(s, b, q, w);
    if (q, w) in b.at {
      assert PageOk(s, b, q, w);
      DataIsNoTable(s, b, X, q, w);
    }
    if q in b.alive && UserPage(w) {
      SetEntryWalk(s, b, s', X, pid, vp, leaf, c, q, w);
    }
  }

  /** m_map id of page vp is hung; one that was there before waits to be dropped. */
  ghost predicate HangPage(s: Sys, b: Book, s': Sys, b': Book, X: set<nat>, pid: nat, vp: seq<nat>, leaf: nat, c: Cell, id: nat) {
    && SetEntry(s, b, s', pid, vp, leaf, c)
    && id in X && id in b.home && id in b.held && b.held[id] == pid && b.home[id].page == vp
    && (b.home[id].kind == 2 || (b.home[id].kind == 4 && vp == RSP0))
    && b.home[id].frame < |s.records|
    && c.p && c.us && c.frame == b.home[id].frame && (c.rw || b.home[id].kind == 4 ==> |s.records[c.frame]| == 1)
    && (b.home[id].kind == 4 ==> c.rw)
    && b' == b.(at := b.at[(pid, vp) := id])
  }

  ghost function Replaced(b: Book, pid: nat, vp: seq<nat>): set<nat> {
    if (pid, vp) in b.at then {b.at[(pid, vp)]} else {}
  }

  lemma HangPageHung(s: Sys, b: Book, s': Sys, b': Book, X: set<nat>, pid: nat, vp: seq<nat>, leaf: nat, c: Cell, id: nat, x: nat)
    requires Inv(s, b, X) && HangPage(s, b, s', b', X, pid, vp, leaf, c, id)
    ensures Hung(b', X - {id} + Replaced(b, pid, vp), x)
  {
    assert Hung(b, X, x);
  }

  lemma HangPageStep(s: Sys, b: Book, s': Sys, b': Book, X: set<nat>, pid: nat, vp: seq<nat>, leaf: nat, c: Cell, id: nat)
    requires Inv(s, b, X) && HangPage(s, b, s', b', X, pid, vp, leaf, c, id)
    ensures Inv(s', b', X - {id} + Replaced(b, pid, vp))
    ensures c.frame < |s.mem| && View(s', pid, vp) == Mapped(s.mem[c.frame])
    ensures forall q, w :: q in b.alive && UserPage(w) && (q, w) != (pid, vp) ==> View(s', q, w) == View(s, q, w)
  {
    SetEntryCounted(s, b, s', b', X, pid, vp, leaf, c);
    SetEntryTables(s, b, s', b', X, pid, vp, leaf, c);
    forall q, w
      ensures (q, w) in b'.at ==> PageOk(s', b', q, w)
      ensures Covered(s', b', q, w)
      ensures q in b.alive && UserPage(w) && (q, w) != (pid, vp) ==> View(s', q, w) == View(s, q, w)
    {
      if (q, w) == (pid, vp) {
        SetEntryWalk(s, b, s', X, pid, vp, leaf, c, pid, vp);
      } else {
        SetEntryOthers(s, b, s', b', X, pid, vp, leaf, c, q, w);
      }
    }
    forall x
      ensures Hung(b', X - {id} + Replaced(b, pid, vp), x)
    {
      HangPageHung(s, b, s', b', X, pid, vp, leaf, c, id, x);
    }
    SetEntryWalk(s, b, s', X, pid, vp, leaf, c, pid, vp);
    assert MapOk(s, b, id);
    assert c.frame in b.owner ==> TableOk(s, b, c.frame);
  }

  /** set_pte_rw on an accessible page: no translation and no contents change. */
  lemma ProtectStep(s: Sys, b: Book, s': Sys, X: set<nat>, pid: nat, vp: seq<nat>, leaf: nat, c: Cell)
    requires Inv(s, b, X) && SetEntry(s, b, s', pid, vp, leaf, c) && (pid, vp) in b.at
    requires c == Walk(s.mem, s.procs[pid].cr3, vp, 0).(rw := false) && b.at[(pid, vp)] in b.home && b.home[b.at[(pid, vp)]].kind == 2
    ensures Inv(s', b, X)
    ensures forall q, w :: q in b.alive && UserPage(w) ==> View(s', q, w) == View(s, q, w)
  {
    SetEntryCounted(s, b, s', b, X, pid, vp, leaf, c);
    SetEntryTables(s, b, s', b, X, pid, vp, leaf, c);
    assert PageOk(s, b, pid, vp);
    DataIsNoTable(s, b, X, pid, vp);
    SetEntryWalk(s, b, s', X, pid, vp, leaf, c, pid, vp);
    forall q, w
      ensures (q, w) in b.at ==> PageOk(s', b, q, w)
      ensures Covered(s', b, q, w)
      ensures q in b.alive && UserPage(w) ==> View(s', q, w) == View(s, q, w)
    {
      if (q, w) != (pid, vp) {
        SetEntryOthers(s, b, s', b, X, pid, vp, leaf, c, q, w);
      }
    }
    forall x
      ensures Hung(b, X, x)
    {
    }
  }

  // ----- Sharing a frame -----

  /** No table entry lets anyone write to frame f, and f is an ordinary page of some process. */
  ghost predicate Shareable(s: Sys, b: Book, f: nat) {
    && f < |s.usedBy| == |s.records| && s.usedBy[f] == 3 && f !in b.owner
    && (forall id :: id in b.home && b.home[id].frame == f ==> b.home[id].kind != 4)
    && (forall q, w {:trigger (q, w) in b.at} :: (q, w) in b.at && b.at[(q, w)] in b.home && b.home[b.at[(q, w)]].frame == f && q in s.procs && |w| == 4 ==>
          !Walk(s.mem, s.procs[q].cr3, w, 0).rw && b.home[b.at[(q, w)]].kind != 4)
  }

  /** dup_page_for_program, and the m_map at the end of its list; the caller hangs it later. */
  ghost predicate SharePage(s: Sys, b: Book, s': Sys, b': Book, pid: nat, m: MMap) {
    && m.id == s.nextMap && m.kind == 2 && m.rw && Shaped(s) && Shareable(s, b, m.frame)
    && s' == s.(records := s.records[m.frame := s.records[m.frame] + [m.id]], nextMap := s.nextMap + 1,
                procs := s'.procs)
    && pid in b.alive && pid in s.procs
    && s'.procs == s.procs[pid := s.procs[pid].(maps := s.procs[pid].maps + [m])]
    && b' == b.(home := b.home[m.id := m], held := b.held[m.id := pid])
  }

  lemma ShareCounted(s: Sys, b: Book, s': Sys, b': Book, X: set<nat>, pid: nat, m: MMap)
    requires Inv(s, b, X) && SharePage(s, b, s', b', pid, m)
    ensures Counted(s', b')
  {
    assert m.id in b.home ==> MapOk(s, b, m.id);
    forall f | 0 <= f < |s'.mem|
      ensures FrameOk(s', b', f)
    {
      assert FrameOk(s, b, f);
    }
    forall id | id in b'.home
      ensures MapOk(s', b', id)
    {
      if id != m.id { assert MapOk(s, b, id); }
    }
  }

  lemma ShareProcess(s: Sys, b: Book, s': Sys, b': Book, X: set<nat>, pid: nat, m: MMap, q: nat)
    requires Inv(s, b, X) && SharePage(s, b, s', b', pid, m) && q in b.alive
    ensures ProcessOk(s', b', q)
  {
    assert ProcessOk(s, b, q);
    assert m.id in b.home ==> MapOk(s, b, m.id);
    forall i | 0 <= i < |s.procs[q].maps|
      ensures s.procs[q].maps[i].id != m.id && ListedOk(b', q, s.procs[q].maps[i])
    {
      assert ListedOk(b, q, s.procs[q].maps[i]);
    }
    KernelKept(s, b, s', b', q);
  }

  lemma SharePages(s: Sys, b: Book, s': Sys, b': Book, X: set<nat>, pid: nat, m: MMap, q: nat, vp: seq<nat>)
    requires Inv(s, b, X) && SharePage(s, b, s', b', pid, m)
    ensures (q, vp) in b'.at ==> PageOk(s', b', q, vp)
    ensures Covered(s', b', q, vp)
    ensures q in b.alive && UserPage(vp) ==> View(s', q, vp) == View(s, q, vp)
  {
    assert Covered(s, b, q, vp);
    if (q, vp) in b.at { assert PageOk(s, b, q, vp) && MapOk(s, b, b.at[(q, vp)]); }
    if q in b.alive { assert ProcessOk(s, b, q); }
  }

  lemma ShareStep(s: Sys, b: Book, s': Sys, b': Book, X: set<nat>, pid: nat, m: MMap)
    requires Inv(s, b, X) && SharePage(s, b, s', b', pid, m)
    ensures Inv(s', b', X + {m.id})
    ensures forall q, vp :: q in b.alive && UserPage(vp) ==> View(s', q, vp) == View(s, q, vp)
  {
    ShareCounted(s, b, s', b', X, pid, m);
    assert m.id in b.home ==> MapOk(s, b, m.id);
    forall q | q in b'.alive
      ensures ProcessOk(s', b', q)
    {
      ShareProcess(s, b, s', b', X, pid, m, q);
    }
    forall t | t in b'.owner
      ensures TableOk(s', b', t)
    {
      assert TableOk(s, b, t);
    }
    forall q, vp
      ensures (q, vp) in b'.at ==> PageOk(s', b', q, vp)
      ensures Covered(s', b', q, vp)
      ensures q in b.alive && UserPage(vp) ==> View(s', q, vp) == View(s, q, vp)
    {
      SharePages(s, b, s', b', X, pid, m, q, vp);
    }
    forall x
      ensures Hung(b', X + {m.id}, x)
    {
      assert Hung(b, X, x);
    }
  }

  // ----- Writing data -----

  /** The contents of frame f, which is no table, change. */
  ghost predicate DataWrite(s: Sys, b: Book, s': Sys, f: nat) {
    && f < |s.mem| && f !in b.owner && |s'.mem| == |s.mem| && |s'.mem[f]| == 512
    && s' == s.(mem := s.mem[f := s'.mem[f]])
  }

  lemma DataWriteWalk(s: Sys, b: Book, s': Sys, X: set<nat>, f: nat, q: nat, vp: seq<nat>)
    requires Inv(s, b, X) && DataWrite(s, b, s', f) && q in b.alive && UserPage(vp)
    ensures q in s.procs && Walk(s'.mem, s.procs[q].cr3, vp, 0) == Walk(s.mem, s.procs[q].cr3, vp, 0)
  {
    assert ProcessOk(s, b, q);
    WalkInTables(s.mem, b.owner, s.procs[q].cr3, vp, 0, s'.mem);
  }

  lemma DataWriteCounted(s: Sys, b: Book, s': Sys, X: set<nat>, f: nat)
    requires Inv(s, b, X) && DataWrite(s, b, s', f)
    ensures Counted(s', b)
  {
    forall g | 0 <= g < |s'.mem|
      ensures FrameOk(s', b, g)
    {
      assert FrameOk(s, b, g);
    }
    forall x | x in b.home
      ensures MapOk(s', b, x)
    {
      assert MapOk(s, b, x);
    }
  }

  /** Only pages whose m_map has a record at f can look different afterwards. */
  lemma DataWriteStep(s: Sys, b: Book, s': Sys, X: set<nat>, f: nat)
    requires Inv(s, b, X) && DataWrite(s, b, s', f)
    ensures Inv(s', b, X)
    ensures forall q, vp :: q in b.alive && UserPage(vp) && !((q, vp) in b.at && b.at[(q, vp)] in s.records[f]) ==> View(s', q, vp) == View(s, q, vp)
    ensures forall q, vp :: (q, vp) in b.at && b.at[(q, vp)] in s.records[f] && |vp| == 4 ==> View(s', q, vp) == Mapped(s'.mem[f]) || s.usedBy[f] != 3
  {
    DataWriteCounted(s, b, s', X, f);
    TreesInTables(s.mem, b.owner, s'.mem);
    forall q | q in b.alive
      ensures ProcessOk(s', b, q)
    {
      assert ProcessOk(s, b, q);
      KernelKept(s, b, s', b, q);
    }
    forall t | t in b.owner
      ensures TableOk(s', b, t)
    {
      assert TableOk(s, b, t);
    }
    forall q, vp
      ensures (q, vp) in b.at ==> PageOk(s', b, q, vp)
      ensures Covered(s', b, q, vp)
      ensures q in b.alive && UserPage(vp) && !((q, vp) in b.at && b.at[(q, vp)] in s.records[f]) ==> View(s', q, vp) == View(s, q, vp)
      ensures (q, vp) in b.at && b.at[(q, vp)] in s.records[f] && |vp| == 4 ==> View(s', q, vp) == Mapped(s'.mem[f]) || s.usedBy[f] != 3
    {
      DataWritePage(s, b, s', X, f, q, vp);
    }
    forall x
      ensures Hung(b, X, x)
    {
    }
  }

  lemma DataWritePage(s: Sys, b: Book, s': Sys, X: set<nat>, f: nat, q: nat, vp: seq<nat>)
    requires Inv(s, b, X) && DataWrite(s, b, s', f)
    ensures (q, vp) in b.at ==> PageOk(s', b, q, vp)
    ensures Covered(s', b, q, vp)
    ensures q in b.alive && UserPage(vp) && !((q, vp) in b.at && b.at[(q, vp)] in s.records[f]) ==> View(s', q, vp) == View(s, q, vp)
    ensures (q, vp) in b.at && b.at[(q, vp)] in s.records[f] && |vp| == 4 ==> View(s', q, vp) == Mapped(s'.mem[f]) || s.usedBy[f] != 3
  {
    assert Covered(s, b, q, vp);
    if (q, vp) in b.at {
      assert PageOk(s, b, q, vp) && MapOk(s, b, b.at[(q, vp)]);
      assert FrameOk(s, b, f);
      DataWriteWalk(s, b, s', X, f, q, vp);
    } else if q in b.alive && UserPage(vp) {
      DataWriteWalk(s, b, s', X, f, q, vp);
    }
  }

  // ----- Dropping an m_map -----

  ghost predicate WithoutRecord(r: seq<nat>, r': seq<nat>, id: nat) {
    && |r'| == |r| - 1 && Distinct(r')
    && (forall x :: x in r' <==> x in r && x != id)
  }

  ghost predicate WithoutMap(maps: seq<MMap>, maps': seq<MMap>, id: nat) {
    && DistinctIds(maps')
    && (forall m :: m in maps' <==> m in maps && m.id != id)
  }

  /** free_page_for_program: the record goes, and with the last record the page becomes free. */
  ghost predicate DropRecord(s: Sys, s': Sys, f: nat, id: nat) {
    && f < |s.usedBy| == |s.records|
    && s'.mem == s.mem && s'.nextMap == s.nextMap && s'.nextPid == s.nextPid && s'.pool == s.pool
    && s'.basePd == s.basePd && s'.mallocPd == s.mallocPd
    && (if s.records[f] == [id] then s'.usedBy == s.usedBy[f := 0] && s'.records == s.records
        else s'.usedBy == s.usedBy && |s'.records| == |s.records| && WithoutRecord(s.records[f], s'.records[f], id)
             && s'.records == s.records[f := s'.records[f]])
  }

  /** An m_map that is not hung goes: its record, and its place in the list of a live process. */
  ghost predicate DropMap(s: Sys, b: Book, s': Sys, b': Book, X: set<nat>, id: nat) {
    && id in b.home && id in b.held && b.home[id].frame !in b.owner
    && !((b.held[id], b.home[id].page) in b.at && b.at[(b.held[id], b.home[id].page)] == id)
    && DropRecord(s, s', b.home[id].frame, id)
    && (if b.held[id] in b.alive then
          && b.held[id] in s.procs && s'.procs.Keys == s.procs.Keys
          && WithoutMap(s.procs[b.held[id]].maps, s'.procs[b.held[id]].maps, id)
          && s'.procs[b.held[id]].maps != [] && s.procs[b.held[id]].maps != [] && s'.procs[b.held[id]].maps[0] == s.procs[b.held[id]].maps[0]
          && s'.procs == s.procs[b.held[id] := s.procs[b.held[id]].(maps := s'.procs[b.held[id]].maps)]
        else s'.procs == s.procs)
    && b' == b.(home := b.home - {id}, held := b.held - {id})
  }

  lemma DropCounted(s: Sys, b: Book, s': Sys, b': Book, X: set<nat>, id: nat)
    requires Inv(s, b, X) && DropMap(s, b, s', b', X, id)
    ensures Counted(s', b')
  {
    assert MapOk(s, b, id);
    forall f | 0 <= f < |s'.mem|
      ensures FrameOk(s', b', f)
    {
      assert FrameOk(s, b, f);
    }
    forall x | x in b'.home
      ensures MapOk(s', b', x)
    {
      assert MapOk(s, b, x);
      assert FrameOk(s, b, b.home[x].frame);
    }
  }

  lemma DropProcess(s: Sys, b: Book, s': Sys, b': Book, X: set<nat>, id: nat, q: nat)
    requires Inv(s, b, X) && DropMap(s, b, s', b', X, id) && q in b.alive
    ensures ProcessOk(s', b', q)
  {
    assert ProcessOk(s, b, q);
    forall i | 0 <= i < |s'.procs[q].maps|
      ensures ListedOk(b', q, s'.procs[q].maps[i])
    {
      var m := s'.procs[q].maps[i];
      assert m in s'.procs[q].maps;
      assert m in s.procs[q].maps;
      var j :| 0 <= j < |s.procs[q].maps| && s.procs[q].maps[j] == m;
      assert ListedOk(b, q, s.procs[q].maps[j]);
    }
    KernelKept(s, b, s', b', q);
  }

  lemma DropPage(s: Sys, b: Book, s': Sys, b': Book, X: set<nat>, id: nat, q: nat, vp: seq<nat>)
    requires Inv(s, b, X) && DropMap(s, b, s', b', X, id)
    ensures (q, vp) in b'.at ==> PageOk(s', b', q, vp)
    ensures Covered(s', b', q, vp)
    ensures q in b.alive && UserPage(vp) ==> View(s', q, vp) == View(s, q, vp)
  {
    assert Covered(s, b, q, vp);
    if q in b.alive { assert ProcessOk(s, b, q); }
    if (q, vp) in b.at {
      assert PageOk(s, b, q, vp) && MapOk(s, b, b.at[(q, vp)]) && MapOk(s, b, id);
      assert FrameOk(s, b, b.home[id].frame);
    }
  }

  lemma DropStep(s: Sys, b: Book, s': Sys, b': Book, X: set<nat>, id: nat)
    requires Inv(s, b, X) && DropMap(s, b, s', b', X, id)
    ensures Inv(s', b', X - {id})
    ensures forall q, vp :: q in b.alive && UserPage(vp) ==> View(s', q, vp) == View(s, q, vp)
  {
    DropCounted(s, b, s', b', X, id);
    forall q | q in b'.alive
      ensures ProcessOk(s', b', q)
    {
      DropProcess(s, b, s', b', X, id, q);
    }
    forall t | t in b'.owner
      ensures TableOk(s', b', t)
    {
      assert TableOk(s, b, t) && MapOk(s, b, s.records[t][0]) && FrameOk(s, b, t);
    }
    forall q, vp
      ensures (q, vp) in b'.at ==> PageOk(s', b', q, vp)
      ensures Covered(s', b', q, vp)
      ensures q in b.alive && UserPage(vp) ==> View(s', q, vp) == View(s, q, vp)
    {
      DropPage(s, b, s', b', X, id, q, vp);
    }
    forall x
      ensures Hung(b', X - {id}, x)
    {
      assert Hung(b, X, x);
    }
  }

  // ----- Taking a space down -----

  /** The process loses its address space; its m_maps keep their records until they are dropped. */
  ghost function Retired(b: Book, pid: nat): Book {
    Book(map t | t in b.owner && b.owner[t].space != pid :: b.owner[t], b.home, b.held,
         map k | k in b.at && k.0 != pid :: b.at[k], b.alive - {pid})
  }

  lemma RetireTrees(s: Sys, b: Book, X: set<nat>, pid: nat)
    requires Inv(s, b, X)
    ensures Trees(s.mem, Retired(b, pid).owner)
  {
    var b' := Retired(b, pid);
    forall t | t in b'.owner
      ensures Node(s.mem, b'.owner, t)
    {
      assert Node(s.mem, b.owner, t);
      forall i: nat | i < 512 && s.mem[t][i].p && UserPath(b'.owner[t].path + [i]) && |b'.owner[t].path| < 3
        ensures Under(b'.owner, b'.owner[t], i, s.mem[t][i].frame) && s.mem[t][i].us && s.mem[t][i].rw
      {
        assert Under(b.owner, b.owner[t], i, s.mem[t][i].frame);
      }
    }
  }

  lemma RetireStep(s: Sys, b: Book, X: set<nat>, pid: nat)
    requires Inv(s, b, X)
    ensures Inv(s, Retired(b, pid), X)
  {
    var b' := Retired(b, pid);
    RetireTrees(s, b, X, pid);
    forall f | 0 <= f < |s.mem|
      ensures FrameOk(s, b', f)
    {
      assert FrameOk(s, b, f);
    }
    forall x | x in b'.home
      ensures MapOk(s, b', x)
    {
      assert MapOk(s, b, x);
    }
    forall q | q in b'.alive
      ensures ProcessOk(s, b', q)
    {
      assert ProcessOk(s, b, q);
      KernelKept(s, b, s, b', q);
    }
    forall t | t in b'.owner
      ensures TableOk(s, b', t)
    {
      assert TableOk(s, b, t);
    }
    forall q: nat, vp: seq<nat>
      ensures (q, vp) in b'.at ==> PageOk(s, b', q, vp)
      ensures Covered(s, b', q, vp)
    {
      assert Covered(s, b, q, vp);
      if (q, vp) in b'.at { assert PageOk(s, b, q, vp); }
    }
    forall x
      ensures Hung(b', X, x)
    {
      assert Hung(b, X, x);
    }
  }

  // ----- Setting a space up -----

  /** `kept` lists exactly the m_maps that pid, which has no space, still holds. */
  ghost predicate Leftover(b: Book, X: set<nat>, pid: nat, kept: seq<MMap>) {
    && pid !in b.alive && DistinctIds(kept)
    && (forall i {:trigger kept[i]} :: 0 <= i < |kept| ==> ListedOk(b, pid, kept[i]) && kept[i].id in X)
    && (forall id :: id in b.home && id in b.held && b.held[id] == pid ==> b.home[id] in kept)
  }

  lemma InsertMap(pre: seq<MMap>, post: seq<MMap>, m: MMap)
    requires DistinctIds(pre + post) && forall x :: x in pre + post ==> x.id != m.id
    ensures DistinctIds(pre + [m] + post) && forall x :: x in pre + [m] + post <==> x == m || x in pre + post
  {
    var kept, kept' := pre + post, pre + [m] + post;
    forall i | 0 <= i < |kept'| && i != |pre|
      ensures kept'[i] == kept[if i < |pre| then i else i - 1] && kept'[i] in kept
    {
    }
  }

  lemma LeftoverInsert(b: Book, X: set<nat>, b': Book, pid: nat, pre: seq<MMap>, post: seq<MMap>, m: MMap)
    requires Leftover(b, X, pid, pre + post) && m.id !in b.home
    requires b' == b.(home := b.home[m.id := m], held := b.held[m.id := pid])
    ensures Leftover(b', X + {m.id}, pid, pre + [m] + post)
  {
    var kept := pre + post;
    forall x | x in kept
      ensures ListedOk(b, pid, x) && x.id in X && x.id != m.id
    {
      var i :| 0 <= i < |kept| && kept[i] == x;
    }
    InsertMap(pre, post, m);
    forall x | x in pre + [m] + post
      ensures ListedOk(b', pid, x) && x.id in X + {m.id}
    {
      assert x != m ==> ListedOk(b, pid, x);
    }
  }

  /** A process without a space gets one: PML4 frame f with no user entry yet, frame g below its
      last entry with the kernel's two directories, and the list of all m_maps it holds. */
  ghost predicate Enliven(s: Sys, b: Book, s': Sys, b': Book, X: set<nat>, pid: nat, f: nat, g: nat, maps: seq<MMap>) {
    && pid !in b.alive && f != g && f !in b.owner && g !in b.owner && f < |s.mem| && g < |s.mem|
    && f < |s.records| && g < |s.records|
    && Leftover(b, X, pid, maps)
    && |maps| >= 2 && maps[0].kind == 3 && maps[0].frame == f && maps[1].kind == 1 && maps[1].frame == g
    && |s.records[f]| == 1 && |s.records[g]| == 1
    && |s'.mem| == |s.mem| && |s'.mem[f]| == 512 && |s'.mem[g]| == 512
    && s'.mem == s.mem[f := s'.mem[f]][g := s'.mem[g]]
    && (forall i :: 0 <= i <= 509 ==> !s'.mem[f][i].p && !s'.mem[g][i].p)
    && s'.mem[f][511] == Cell(true, true, true, g, 0) && s'.mem[f][510] == Cell(true, true, false, 0, 0)
    && s'.mem[g][511] == Cell(true, true, false, s.basePd, 0) && s'.mem[g][510] == Cell(true, true, false, s.mallocPd, 0)
    && s' == s.(mem := s'.mem, procs := s.procs[pid := Process(f, maps)])
    && b' == b.(owner := b.owner[f := Place(pid, [])][g := Place(pid, [511])], alive := b.alive + {pid})
  }

  lemma EnlivenWalk(s: Sys, b: Book, s': Sys, b': Book, X: set<nat>, pid: nat, f: nat, g: nat, maps: seq<MMap>, q: nat, vp: seq<nat>)
    requires Inv(s, b, X) && Enliven(s, b, s', b', X, pid, f, g, maps) && q in b'.alive && UserPage(vp)
    ensures q in s'.procs
    ensures q == pid ==> Walk(s'.mem, s'.procs[q].cr3, vp, 0) == EMPTY
    ensures q != pid ==> q in s.procs && s'.procs[q] == s.procs[q] && Walk(s'.mem, s.procs[q].cr3, vp, 0) == Walk(s.mem, s.procs[q].cr3, vp, 0)
  {
    if q != pid {
      assert ProcessOk(s, b, q);
      WalkInTables(s.mem, b.owner, s.procs[q].cr3, vp, 0, s'.mem);
    }
  }

  lemma EnlivenTrees(s: Sys, b: Book, s': Sys, b': Book, X: set<nat>, pid: nat, f: nat, g: nat, maps: seq<MMap>)
    requires Inv(s, b, X) && Enliven(s, b, s', b', X, pid, f, g, maps)
    ensures Trees(s'.mem, b'.owner)
  {
    forall t | t in b'.owner
      ensures Node(s'.mem, b'.owner, t)
    {
      if t != f && t != g {
        assert Node(s.mem, b.owner, t);
        assert b'.owner[t] == b.owner[t];
        forall i: nat | i < 512 && s'.mem[t][i].p && UserPath(b'.owner[t].path + [i]) && |b'.owner[t].path| < 3
          ensures Under(b'.owner, b'.owner[t], i, s'.mem[t][i].frame) && s'.mem[t][i].us && s'.mem[t][i].rw
        {
          assert Under(b.owner, b.owner[t], i, s.mem[t][i].frame);
        }
      }
    }
  }

  lemma EnlivenTable(s: Sys, b: Book, s': Sys, b': Book, X: set<nat>, pid: nat, f: nat, g: nat, maps: seq<MMap>, t: nat)
    requires Inv(s, b, X) && Enliven(s, b, s', b', X, pid, f, g, maps) && t in b'.owner
    ensures TableOk(s', b', t)
  {
    if t == f {
      assert ListedOk(b, pid, maps[0]) && MapOk(s, b, maps[0].id);
    } else if t == g {
      assert ListedOk(b, pid, maps[1]) && MapOk(s, b, maps[1].id);
    } else {
      assert TableOk(s, b, t);
    }
  }

  lemma EnlivenHung(s: Sys, b: Book, s': Sys, b': Book, X: set<nat>, pid: nat, f: nat, g: nat, maps: seq<MMap>, x: nat)
    requires Inv(s, b, X) && Enliven(s, b, s', b', X, pid, f, g, maps)
    ensures Hung(b', X - {maps[0].id, maps[1].id}, x)
  {
    assert Hung(b, X, x);
    assert ListedOk(b, pid, maps[0]) && ListedOk(b, pid, maps[1]);
    if x in b.home && x in b.held && b.held[x] == pid {
      var i :| 0 <= i < |maps| && maps[i] == b.home[x];
      assert ListedOk(b, pid, maps[i]);
      assert MapOk(s, b, x);
    }
  }

  lemma EnlivenPage(s: Sys, b: Book, s': Sys, b': Book, X: set<nat>, pid: nat, f: nat, g: nat, maps: seq<MMap>, q: nat, vp: seq<nat>)
    requires Inv(s, b, X) && Enliven(s, b, s', b', X, pid, f, g, maps)
    ensures (q, vp) in b'.at ==> PageOk(s', b', q, vp)
    ensures Covered(s', b', q, vp)
  {
    assert Covered(s, b, q, vp);
    if (q, vp) in b.at {
      assert PageOk(s, b, q, vp) && MapOk(s, b, b.at[(q, vp)]);
      EnlivenWalk(s, b, s', b', X, pid, f, g, maps, q, vp);
    } else if q in b'.alive && UserPage(vp) {
      EnlivenWalk(s, b, s', b', X, pid, f, g, maps, q, vp);
    }
  }

  /** An m_map that has its frame to itself shares it with no m_map of another process. */
  lemma OwnFrame(s: Sys, b: Book, pid: nat, m: MMap, id: nat)
    requires MapOk(s, b, id) && MapOk(s, b, m.id) && ListedOk(b, pid, m) && |s.records[m.frame]| == 1 && b.held[id] != pid
    ensures b.home[id].frame != m.frame
  {
  }

  lemma EnlivenView(s: Sys, b: Book, s': Sys, b': Book, X: set<nat>, pid: nat, f: nat, g: nat, maps: seq<MMap>, q: nat, vp: seq<nat>)
    requires Inv(s, b, X) && Enliven(s, b, s', b', X, pid, f, g, maps) && q in b.alive && UserPage(vp)
    ensures View(s', q, vp) == View(s, q, vp)
  {
    assert Covered(s, b, q, vp);
    EnlivenWalk(s, b, s', b', X, pid, f, g, maps, q, vp);
    if (q, vp) in b.at {
      assert PageOk(s, b, q, vp) && MapOk(s, b, b.at[(q, vp)]);
      assert ListedOk(b, pid, maps[0]) && MapOk(s, b, maps[0].id);
      OwnFrame(s, b, pid, maps[0], b.at[(q, vp)]);
      assert ListedOk(b, pid, maps[1]) && MapOk(s, b, maps[1].id);
      OwnFrame(s, b, pid, maps[1], b.at[(q, vp)]);
    }
  }

  lemma EnlivenCounted(s: Sys, b: Book, s': Sys, b': Book, X: set<nat>, pid: nat, f: nat, g: nat, maps: seq<MMap>)
    requires Inv(s, b, X) && Enliven(s, b, s', b', X, pid, f, g, maps)
    ensures Counted(s', b')
  {
    forall h | 0 <= h < |s'.mem|
      ensures FrameOk(s', b', h)
    {
      assert FrameOk(s, b, h);
    }
    forall x | x in b'.home
      ensures MapOk(s', b', x)
    {
      assert MapOk(s, b, x);
    }
  }

  lemma EnlivenProcess(s: Sys, b: Book, s': Sys, b': Book, X: set<nat>, pid: nat, f: nat, g: nat, maps: seq<MMap>, q: nat)
    requires Inv(s, b, X) && Enliven(s, b, s', b', X, pid, f, g, maps) && q in b'.alive
    ensures ProcessOk(s', b', q)
  {
    if q != pid {
      assert ProcessOk(s, b, q);
      KernelKept(s, b, s', b', q);
    } else {
      assert forall t :: t in b.owner && b.owner[t] == Place(pid, []) ==> TableOk(s, b, t);
      EnlivenKernel(s, b, s', b', X, pid, f, g, maps);
    }
  }

  lemma EnlivenKernel(s: Sys, b: Book, s': Sys, b': Book, X: set<nat>, pid: nat, f: nat, g: nat, maps: seq<MMap>)
    requires Enliven(s, b, s', b', X, pid, f, g, maps)
    ensures KernelOk(s', b', pid)
  {
  }

  lemma EnlivenStep(s: Sys, b: Book, s': Sys, b': Book, X: set<nat>, pid: nat, f: nat, g: nat, maps: seq<MMap>)
    requires Inv(s, b, X) && Enliven(s, b, s', b', X, pid, f, g, maps)
    ensures Inv(s', b', X - {maps[0].id, maps[1].id})
    ensures forall q, vp :: q in b.alive && UserPage(vp) ==> View(s', q, vp) == View(s, q, vp)
  {
    EnlivenCounted(s, b, s', b', X, pid, f, g, maps);
    EnlivenTrees(s, b, s', b', X, pid, f, g, maps);
    forall q | q in b'.alive
      ensures ProcessOk(s', b', q)
    {
      EnlivenProcess(s, b, s', b', X, pid, f, g, maps, q);
    }
    forall t | t in b'.owner
      ensures TableOk(s', b', t)
    {
      EnlivenTable(s, b, s', b', X, pid, f, g, maps, t);
    }
    forall q: nat, vp: seq<nat>
      ensures (q, vp) in b'.at ==> PageOk(s', b', q, vp)
      ensures Covered(s', b', q, vp)
      ensures q in b.alive && UserPage(vp) ==> View(s', q, vp) == View(s, q, vp)
    {
      EnlivenPage(s, b, s', b', X, pid, f, g, maps, q, vp);
      if q in b.alive && UserPage(vp) { EnlivenView(s, b, s', b', X, pid, f, g, maps, q, vp); }
    }
    forall x
      ensures Hung(b', X - {maps[0].id, maps[1].id}, x)
    {
      EnlivenHung(s, b, s', b', X, pid, f, g, maps, x);
    }
  }

  // ----- Isolation -----

  /** In every state, writing to the frame behind a writable entry changes the view of that page of
      that process and no other view, and no translation. */
  lemma PageWritesAreIsolated(s: Sys, b: Book, s': Sys, X: set<nat>, pid: nat, vp: seq<nat>, words: seq<Cell>)
    requires Inv(s, b, X) && pid in b.alive && pid in s.procs && UserPage(vp) && |words| == 512
    requires Walk(s.mem, s.procs[pid].cr3, vp, 0).p && Walk(s.mem, s.procs[pid].cr3, vp, 0).rw
    requires var f := Walk(s.mem, s.procs[pid].cr3, vp, 0).frame; f < |s.mem| && s' == s.(mem := s.mem[f := words])
    ensures Inv(s', b, X)
    ensures forall q, w {:trigger View(s', q, w)} :: q in b.alive && UserPage(w) && (q, w) != (pid, vp) ==> View(s', q, w) == View(s, q, w)
    ensures View(s', pid, vp) == Mapped(words)
    ensures Walk(s'.mem, s'.procs[pid].cr3, vp, 0) == Walk(s.mem, s.procs[pid].cr3, vp, 0)
  {
    assert Covered(s, b, pid, vp) && PageOk(s, b, pid, vp);
    var f, id := Walk(s.mem, s.procs[pid].cr3, vp, 0).frame, b.at[(pid, vp)];
    DataIsNoTable(s, b, X, pid, vp);
    DataWriteStep(s, b, s', X, f);
    assert MapOk(s, b, id) && s.records[f] == [id];
    forall q, w | q in b.alive && UserPage(w) && (q, w) != (pid, vp)
      ensures View(s', q, w) == View(s, q, w)
    {
      if (q, w) in b.at { assert PageOk(s, b, q, w); }
    }
    DataWriteWalk(s, b, s', X, f, pid, vp);
  }

  lemma WritesKeepWalks(s: Sys, b: Book, s': Sys, X: set<nat>, pid: nat, vp: seq<nat>, words: seq<Cell>, w: seq<nat>)
    requires Inv(s, b, X) && pid in b.alive && pid in s.procs && UserPage(vp) && UserPage(w) && |words| == 512
    requires Walk(s.mem, s.procs[pid].cr3, vp, 0).p && Walk(s.mem, s.procs[pid].cr3, vp, 0).rw
    requires var f := Walk(s.mem, s.procs[pid].cr3, vp, 0).frame; f < |s.mem| && s' == s.(mem := s.mem[f := words])
    ensures Walk(s'.mem, s'.procs[pid].cr3, w, 0) == Walk(s.mem, s.procs[pid].cr3, w, 0)
  {
    assert Covered(s, b, pid, vp) && PageOk(s, b, pid, vp);
    DataIsNoTable(s, b, X, pid, vp);
    DataWriteWalk(s, b, s', X, Walk(s.mem, s.procs[pid].cr3, vp, 0).frame, pid, w);
  }

  /** A user write of one word through a writable entry. */
  lemma WritesAreIsolated(s: Sys, b: Book, s': Sys, X: set<nat>, pid: nat, vp: seq<nat>, i: nat, c: Cell)
    requires Inv(s, b, X) && pid in b.alive && pid in s.procs && UserPage(vp) && i < 512
    requires Walk(s.mem, s.procs[pid].cr3, vp, 0).p && Walk(s.mem, s.procs[pid].cr3, vp, 0).rw
    requires var f := Walk(s.mem, s.procs[pid].cr3, vp, 0).frame;
      f < |s.mem| && |s.mem[f]| == 512 && s' == s.(mem := s.mem[f := s.mem[f][i := c]])
    ensures Inv(s', b, X)
    ensures forall q, w :: q in b.alive && UserPage(w) && (q, w) != (pid, vp) ==> View(s', q, w) == View(s, q, w)
    ensures View(s, pid, vp).Mapped? && View(s', pid, vp) == Mapped(View(s, pid, vp).words[i := c])
  {
    PageWritesAreIsolated(s, b, s', X, pid, vp, s.mem[Walk(s.mem, s.procs[pid].cr3, vp, 0).frame][i := c]);
  }
}
