/** The operations of sys/thread/kthread.c and sys/memory/phy_page.c on address spaces. A page entry
    is known by its frame number. A search that finds no free page makes the operation fail (ok is
    false): the kernel would then dereference NULL. */
module AddressSpaces {
  import opened PageTables
  import opened FreeFrames
  import opened AddressModel
  import opened AddressSteps

  /** What an operation on pid's space leaves alone: other processes, earlier m_maps and their
      records, and the contents of every page in use. */
  ghost predicate Grows(s: Sys, b: Book, s': Sys, b': Book, pid: nat) {
    && b'.alive == b.alive && pid in s.procs && s'.procs.Keys == s.procs.Keys
    && (forall q {:trigger s'.procs[q]} :: q in s.procs && q != pid ==> s'.procs[q] == s.procs[q])
    && s'.procs[pid].cr3 == s.procs[pid].cr3 && s.procs[pid].maps <= s'.procs[pid].maps
    && (forall id {:trigger id in b'.home} {:trigger b'.home[id]} :: id in b.home ==> id in b'.home && b'.home[id] == b.home[id])
    && (forall id {:trigger id in b'.held} {:trigger b'.held[id]} :: id in b.home && id in b.held ==> id in b'.held && b'.held[id] == b.held[id])
    && |s'.mem| == |s.mem| == |s.usedBy| == |s.records| == |s'.usedBy| == |s'.records|
    && (forall f {:trigger s'.usedBy[f]} {:trigger s'.records[f]} :: 0 <= f < |s.mem| && s.usedBy[f] == 3 ==> s'.usedBy[f] == 3 && s'.records[f] == s.records[f])
    && (forall f {:trigger s'.mem[f]} {:trigger f in b'.owner} :: 0 <= f < |s.mem| && s.usedBy[f] == 3 && f !in b.owner ==> f !in b'.owner && s'.mem[f] == s.mem[f])
    && (forall t {:trigger t in b'.owner} {:trigger b'.owner[t]} :: t in b.owner ==> t in b'.owner && b'.owner[t] == b.owner[t])
  }

  /** Present entries of tables stay what they are. */
  ghost predicate EntriesKept(mem: Memory, owner: map<nat, Place>, mem': Memory) {
    forall u, j: nat {:trigger At(mem', u, j)} :: u in owner && At(mem, u, j).p ==> At(mem', u, j) == At(mem, u, j)
  }

  ghost predicate SameWalk(s: Sys, s': Sys, q: nat, vp: seq<nat>) {
    && q in s.procs && q in s'.procs && |vp| == 4
    && Walk(s'.mem, s'.procs[q].cr3, vp, 0) == Walk(s.mem, s.procs[q].cr3, vp, 0)
  }

  /** Every translation, writability included, is as before. */
  ghost predicate SameWalks(s: Sys, b: Book, s': Sys) {
    forall q, vp {:trigger SameWalk(s, s', q, vp)} :: q in b.alive && UserPage(vp) ==> SameWalk(s, s', q, vp)
  }

  ghost predicate SameViews(s: Sys, b: Book, s': Sys) {
    forall q, vp {:trigger View(s', q, vp)} :: q in b.alive && UserPage(vp) ==> View(s', q, vp) == View(s, q, vp)
  }

  lemma NewPageGrows(s: Sys, b: Book, s': Sys, b': Book, X: set<nat>, pid: nat, m: MMap)
    requires Inv(s, b, X) && NewPage(s, b, s', b', pid, m) && pid in b.alive
    ensures Grows(s, b, s', b', pid) && SameWalks(s, b, s') && SameViews(s, b, s')
    ensures m.frame !in b'.owner && s'.records[m.frame] == [m.id] && s'.mem[m.frame] == ZeroFrame()
    ensures m.id !in b.home
  {
    NewPageStep(s, b, s', b', X, pid, m);
    assert ProcessOk(s, b, pid);
    assert TableOk(s, b, m.frame) || m.frame !in b.owner;
    assert m.id in b.home ==> MapOk(s, b, m.id);
    forall q, vp | q in b.alive && UserPage(vp)
      ensures SameWalk(s, s', q, vp)
    {
      NewPageWalk(s, b, s', b', X, pid, m, q, vp);
    }
  }

  lemma GrowsTwice(s: Sys, b: Book, s1: Sys, b1: Book, s2: Sys, b2: Book, pid: nat)
    requires Grows(s, b, s1, b1, pid) && Grows(s1, b1, s2, b2, pid)
    ensures Grows(s, b, s2, b2, pid)
    ensures SameWalks(s, b, s1) && SameWalks(s1, b1, s2) ==> SameWalks(s, b, s2)
    ensures SameViews(s, b, s1) && SameViews(s1, b1, s2) ==> SameViews(s, b, s2)
  {
    if SameWalks(s, b, s1) && SameWalks(s1, b1, s2) {
      forall q, vp | q in b.alive && UserPage(vp)
        ensures SameWalk(s, s2, q, vp)
      {
        assert SameWalk(s, s1, q, vp) && SameWalk(s1, s2, q, vp);
      }
    }
    if SameViews(s, b, s1) && SameViews(s1, b1, s2) {
      forall q, vp | q in b.alive && UserPage(vp)
        ensures View(s2, q, vp) == View(s, q, vp)
      {
        assert View(s1, q, vp) == View(s, q, vp);
      }
    }
  }

  /** The frame of a new m_map becomes a table: seen from before the m_map, only growth. */
  lemma TableAdded(s: Sys, b: Book, s1: Sys, b1: Book, s2: Sys, b2: Book, X: set<nat>, pid: nat, m: MMap, T: nat, I: nat)
    requires Inv(s, b, X) && pid in b.alive && NewPage(s, b, s1, b1, pid, m)
    requires Inv(s1, b1, X + {m.id}) && HangTable(s1, b1, s2, b2, X + {m.id}, m.id, T, I) && T in b.owner
    ensures Grows(s, b, s2, b2, pid) && SameWalks(s, b, s2) && SameViews(s, b, s2)
  {
    NewPageGrows(s, b, s1, b1, X, pid, m);
    HangTableStep(s1, b1, s2, b2, X + {m.id}, m.id, T, I);
    forall q, vp | q in b.alive && UserPage(vp)
      ensures SameWalk(s, s2, q, vp)
    {
      HangTableWalk(s1, b1, s2, b2, X + {m.id}, m.id, T, I, q, vp);
      assert SameWalk(s, s1, q, vp);
    }
    forall q, vp | q in b.alive && UserPage(vp)
      ensures View(s2, q, vp) == View(s, q, vp)
    {
      assert View(s1, q, vp) == View(s, q, vp);
    }
  }

  lemma TableMade(s: Sys, b: Book, s1: Sys, b1: Book, s2: Sys, b2: Book, X: set<nat>, pid: nat, m: MMap, T: nat, I: nat)
    requires Inv(s, b, X) && pid in b.alive && NewPage(s, b, s1, b1, pid, m)
    requires Inv(s1, b1, X + {m.id}) && HangTable(s1, b1, s2, b2, X + {m.id}, m.id, T, I) && T in b.owner
    ensures Inv(s2, b2, X) && Grows(s, b, s2, b2, pid) && SameWalks(s, b, s2) && SameViews(s, b, s2)
  {
    TableAdded(s, b, s1, b1, s2, b2, X, pid, m, T, I);
    HangTableStep(s1, b1, s2, b2, X + {m.id}, m.id, T, I);
    InvWeaken(s2, b2, X + {m.id} - {m.id}, X);
  }

  lemma GrowsSelf(s: Sys, b: Book, X: set<nat>, pid: nat)
    requires Inv(s, b, X) && pid in b.alive
    ensures Grows(s, b, s, b, pid) && SameWalks(s, b, s) && SameViews(s, b, s)
  {
    assert ProcessOk(s, b, pid);
    forall q, vp | q in b.alive && UserPage(vp)
      ensures SameWalk(s, s, q, vp)
    {
      assert ProcessOk(s, b, q);
    }
  }

  lemma InvWeaken(s: Sys, b: Book, X: set<nat>, Y: set<nat>)
    requires Inv(s, b, X) && X <= Y
    ensures Inv(s, b, Y)
  {
    forall x
      ensures Hung(b, Y, x)
    {
      assert Hung(b, X, x);
    }
  }

  /** Every translation and every page of every process is as before, except page vp of pid. */
  ghost predicate SameBut(s: Sys, b: Book, s': Sys, pid: nat, vp: seq<nat>) {
    forall q, w {:trigger SameWalk(s, s', q, w)} {:trigger View(s', q, w)} :: q in b.alive && UserPage(w) && (q, w) != (pid, vp) ==>
        SameWalk(s, s', q, w) && View(s', q, w) == View(s, q, w)
  }

  /** More tables below pid's PML4, and nothing else. */
  ghost predicate MoreTables(s: Sys, b: Book, s': Sys, b': Book, pid: nat) {
    && Grows(s, b, s', b', pid) && SameWalks(s, b, s') && SameViews(s, b, s')
    && b'.at == b.at && EntriesKept(s.mem, b.owner, s'.mem)
  }

  lemma MoreTablesTwice(s: Sys, b: Book, s1: Sys, b1: Book, s2: Sys, b2: Book, pid: nat)
    requires MoreTables(s, b, s1, b1, pid) && MoreTables(s1, b1, s2, b2, pid)
    ensures MoreTables(s, b, s2, b2, pid)
  {
    GrowsTwice(s, b, s1, b1, s2, b2, pid);
    forall u, j: nat | u in b.owner && At(s.mem, u, j).p
      ensures At(s2.mem, u, j) == At(s.mem, u, j)
    {
      assert At(s1.mem, u, j) == At(s.mem, u, j);
    }
  }

  /** Entry i of table T leads to table t. */
  ghost predicate Leads(s: Sys, b: Book, pid: nat, T: nat, path: seq<nat>, i: nat, t: nat) {
    && T in b.owner && b.owner[T] == Place(pid, path)
    && At(s.mem, T, i).p && At(s.mem, T, i).frame == t && t in b.owner && b.owner[t] == Place(pid, path + [i])
  }

  lemma LeadsKept(s: Sys, b: Book, s': Sys, b': Book, pid: nat, T: nat, path: seq<nat>, i: nat, t: nat)
    requires MoreTables(s, b, s', b', pid) && Leads(s, b, pid, T, path, i, t)
    ensures Leads(s', b', pid, T, path, i, t)
  {
    assert At(s'.mem, T, i) == At(s.mem, T, i);
  }

  lemma PathMade(s: Sys, b: Book, X: set<nat>, pid: nat, vp: seq<nat>, root: nat, t1: nat, t2: nat, leaf: nat)
    requires Inv(s, b, X) && pid in b.alive && UserPage(vp) && pid in s.procs && s.procs[pid].cr3 == root
    requires Leads(s, b, pid, root, [], vp[0], t1)
    requires Leads(s, b, pid, t1, [vp[0]], vp[1], t2)
    requires Leads(s, b, pid, t2, [vp[0], vp[1]], vp[2], leaf)
    ensures PathTo(s.mem, b.owner, root, vp, leaf) && leaf < |s.mem| && |s.mem[leaf]| == 512
  {
    assert [vp[0], vp[1]] + [vp[2]] == vp[..3];
    assert Node(s.mem, b.owner, leaf);
  }

  lemma PathEnsured(s: Sys, b: Book, s1: Sys, b1: Book, s2: Sys, b2: Book, X: set<nat>, pid: nat, vp: seq<nat>, t1: nat, t2: nat, leaf: nat)
    requires pid in b.alive && UserPage(vp) && MoreTables(s, b, s1, b1, pid) && MoreTables(s1, b1, s2, b2, pid) && Inv(s2, b2, X)
    requires Leads(s1, b1, pid, s.procs[pid].cr3, [], vp[0], t1) && Leads(s1, b1, pid, t1, [vp[0]], vp[1], t2)
    requires Leads(s2, b2, pid, t2, [vp[0], vp[1]], vp[2], leaf)
    ensures MoreTables(s, b, s2, b2, pid) && pid in s2.procs && PathTo(s2.mem, b2.owner, s2.procs[pid].cr3, vp, leaf)
    ensures leaf < |s2.mem| && |s2.mem[leaf]| == 512
  {
    LeadsKept(s1, b1, s2, b2, pid, s.procs[pid].cr3, [], vp[0], t1);
    LeadsKept(s1, b1, s2, b2, pid, t1, [vp[0]], vp[1], t2);
    MoreTablesTwice(s, b, s1, b1, s2, b2, pid);
    PathMade(s2, b2, X, pid, vp, s.procs[pid].cr3, t1, t2, leaf);
  }

  lemma HangPageGrows(s: Sys, b: Book, s1: Sys, b1: Book, s2: Sys, b2: Book, X: set<nat>, pid: nat, vp: seq<nat>, leaf: nat, c: Cell, id: nat)
    requires Grows(s, b, s1, b1, pid) && SameWalks(s, b, s1) && SameViews(s, b, s1)
    requires Inv(s1, b1, X) && HangPage(s1, b1, s2, b2, X, pid, vp, leaf, c, id)
    ensures Grows(s, b, s2, b2, pid) && SameBut(s, b, s2, pid, vp)
    ensures pid in s2.procs && Walk(s2.mem, s2.procs[pid].cr3, vp, 0) == c
  {
    HangPageStep(s1, b1, s2, b2, X, pid, vp, leaf, c, id);
    SetEntryWalk(s1, b1, s2, X, pid, vp, leaf, c, pid, vp);
    forall q, w | q in b.alive && UserPage(w) && (q, w) != (pid, vp)
      ensures SameWalk(s, s2, q, w) && View(s2, q, w) == View(s, q, w)
    {
      assert SameWalk(s, s1, q, w) && View(s1, q, w) == View(s, q, w);
      SetEntryWalk(s1, b1, s2, X, pid, vp, leaf, c, q, w);
    }
    assert leaf in b.owner ==> TableOk(s1, b1, leaf);
  }

  /** Page vp of pid is now behind the new m_map m, on a zeroed frame; all else is as before. */
  ghost predicate PagePlaced(s: Sys, b: Book, s': Sys, b': Book, pid: nat, vp: seq<nat>, m: MMap) {
    && |vp| == 4 && Grows(s, b, s', b', pid) && SameBut(s, b, s', pid, vp)
    && b'.at == b.at[(pid, vp) := m.id]
    && m.id in b'.home && b'.home[m.id] == m && m.id !in b.home
    && View(s', pid, vp) == Mapped(ZeroFrame())
    && Walk(s'.mem, s'.procs[pid].cr3, vp, 0).rw == m.rw && Walk(s'.mem, s'.procs[pid].cr3, vp, 0).frame == m.frame
    && m.frame < |s.usedBy| && s.usedBy[m.frame] != 3 && m.frame < |s'.records| && s'.records[m.frame] == [m.id]
    && m.frame !in b'.owner && s'.usedBy[m.frame] == 3
  }

  lemma StackHung(s: Sys, b: Book, s1: Sys, b1: Book, s2: Sys, b2: Book, X: set<nat>, pid: nat, leaf: nat, c: Cell, m: MMap)
    requires MoreTables(s, b, s1, b1, pid) && Inv(s1, b1, X) && HangPage(s1, b1, s2, b2, X, pid, RSP0, leaf, c, m.id)
    requires (pid, RSP0) !in b.at
    ensures Inv(s2, b2, X - {m.id}) && Grows(s, b, s2, b2, pid) && SameBut(s, b, s2, pid, RSP0)
    ensures c.frame < |s1.mem| && View(s2, pid, RSP0) == Mapped(s1.mem[c.frame])
  {
    HangPageStep(s1, b1, s2, b2, X, pid, RSP0, leaf, c, m.id);
    HangPageGrows(s, b, s1, b1, s2, b2, X, pid, RSP0, leaf, c, m.id);
    assert X - {m.id} + Replaced(b1, pid, RSP0) == X - {m.id};
  }

  lemma NewPageHung(s: Sys, b: Book, s1: Sys, b1: Book, s2: Sys, b2: Book, X: set<nat>, pid: nat, vp: seq<nat>, leaf: nat, c: Cell, m: MMap)
    requires Inv(s, b, X) && NewPage(s, b, s1, b1, pid, m) && Inv(s1, b1, X + {m.id}) && m.id !in b.home && m.frame !in b1.owner && c.rw == m.rw
    requires Grows(s, b, s1, b1, pid) && SameWalks(s, b, s1) && SameViews(s, b, s1)
    requires HangPage(s1, b1, s2, b2, X + {m.id}, pid, vp, leaf, c, m.id)
    ensures Inv(s2, b2, X + Replaced(b, pid, vp)) && PagePlaced(s, b, s2, b2, pid, vp, m)
  {
    HangPageStep(s1, b1, s2, b2, X + {m.id}, pid, vp, leaf, c, m.id);
    HangPageGrows(s, b, s1, b1, s2, b2, X + {m.id}, pid, vp, leaf, c, m.id);
    InvWeaken(s2, b2, X + {m.id} - {m.id} + Replaced(b1, pid, vp), X + Replaced(b, pid, vp));
  }

  lemma PlacedLater(s: Sys, b: Book, s1: Sys, b1: Book, s2: Sys, b2: Book, pid: nat, vp: seq<nat>, m: MMap)
    requires MoreTables(s, b, s1, b1, pid) && PagePlaced(s1, b1, s2, b2, pid, vp, m)
    ensures PagePlaced(s, b, s2, b2, pid, vp, m)
  {
    GrowsTwice(s, b, s1, b1, s2, b2, pid);
    forall q, w | q in b.alive && UserPage(w) && (q, w) != (pid, vp)
      ensures SameWalk(s, s2, q, w) && View(s2, q, w) == View(s, q, w)
    {
      assert SameWalk(s, s1, q, w) && View(s1, q, w) == View(s, q, w);
      assert SameWalk(s1, s2, q, w);
    }
  }

  /** A path of tables does not notice a new frame that is no table. */
  lemma PathOverNewPage(s: Sys, b: Book, s': Sys, b': Book, X: set<nat>, pid: nat, m: MMap, vp: seq<nat>, leaf: nat)
    requires Inv(s, b, X) && NewPage(s, b, s', b', pid, m) && pid in b.alive && UserPage(vp)
    requires pid in s.procs && PathTo(s.mem, b.owner, s.procs[pid].cr3, vp, leaf)
    ensures pid in s'.procs && PathTo(s'.mem, b'.owner, s'.procs[pid].cr3, vp, leaf)
    ensures leaf != m.frame && leaf < |s'.mem| && |s'.mem[leaf]| == 512
  {
    assert TableOk(s, b, m.frame) || m.frame !in b.owner;
    var root := s.procs[pid].cr3;
    assert Node(s.mem, b.owner, root);
    var t1 := s.mem[root][vp[0]].frame;
    assert Under(b.owner, b.owner[root], vp[0], t1) && Node(s.mem, b.owner, t1);
    var t2 := s.mem[t1][vp[1]].frame;
    assert Under(b.owner, b.owner[t1], vp[1], t2) && Node(s.mem, b.owner, t2);
    assert Node(s.mem, b.owner, leaf);
  }

  lemma ProtectOthers(s: Sys, b: Book, s': Sys, X: set<nat>, pid: nat, vp: seq<nat>, leaf: nat, c: Cell)
    requires Inv(s, b, X) && SetEntry(s, b, s', pid, vp, leaf, c) && (pid, vp) in b.at
    requires c == Walk(s.mem, s.procs[pid].cr3, vp, 0).(rw := false) && b.at[(pid, vp)] in b.home && b.home[b.at[(pid, vp)]].kind == 2
    ensures SameBut(s, b, s', pid, vp) && View(s', pid, vp) == View(s, pid, vp)
    ensures Walk(s'.mem, s.procs[pid].cr3, vp, 0) == c
    ensures Grows(s, b, s', b, pid)
  {
    ProtectStep(s, b, s', X, pid, vp, leaf, c);
    SetEntryWalk(s, b, s', X, pid, vp, leaf, c, pid, vp);
    forall q, w | q in b.alive && UserPage(w) && (q, w) != (pid, vp)
      ensures SameWalk(s, s', q, w) && View(s', q, w) == View(s, q, w)
    {
      SetEntryWalk(s, b, s', X, pid, vp, leaf, c, q, w);
    }
  }

  ghost predicate SamePage(s: Sys, s': Sys, f: nat) {
    f < |s.mem| && f < |s'.mem| && s'.mem[f] == s.mem[f]
  }

  /** The frame of a page of kind 2 or 4 is no table. */
  lemma PageFrame(s: Sys, b: Book, X: set<nat>, id: nat)
    requires Inv(s, b, X) && id in b.home && b.home[id].kind % 2 == 0
    ensures b.home[id].frame < |s.mem| && b.home[id].frame !in b.owner
  {
    assert MapOk(s, b, id);
    assert b.home[id].frame in b.owner ==> TableOk(s, b, b.home[id].frame);
  }

  /** Page vp of pid now shares the frame of m, read-only; nothing else looks different. */
  ghost predicate PageShared(s: Sys, b: Book, s': Sys, b': Book, pid: nat, vp: seq<nat>, m: MMap) {
    && |vp| == 4 && SharesGrow(s, b, s', b', pid) && SameBut(s, b, s', pid, vp)
    && b'.at == b.at[(pid, vp) := m.id]
    && m.id in b'.home && b'.home[m.id] == m && m.id !in b.home
    && m.frame < |s.mem| && View(s', pid, vp) == Mapped(s.mem[m.frame])
  }

  /** Like Grows, except that records may be added to frames in use. */
  ghost predicate SharesGrow(s: Sys, b: Book, s': Sys, b': Book, pid: nat) {
    && b'.alive == b.alive && pid in s.procs && s'.procs.Keys == s.procs.Keys
    && (forall q :: q in s.procs && q != pid ==> s'.procs[q] == s.procs[q])
    && s'.procs[pid].cr3 == s.procs[pid].cr3
    && (forall id :: id in b.home ==> id in b'.home && b'.home[id] == b.home[id])
    && (forall id :: id in b.home && id in b.held ==> id in b'.held && b'.held[id] == b.held[id])
    && (forall id {:trigger id in b'.home} :: id in b.home && b.home[id].kind % 2 == 0 ==> SamePage(s, s', b.home[id].frame))
  }

  lemma SharedPlaced(s: Sys, b: Book, s1: Sys, b1: Book, s2: Sys, b2: Book, X: set<nat>, pid: nat, vp: seq<nat>, leaf: nat, c: Cell, m: MMap)
    requires Inv(s, b, X) && SharePage(s, b, s1, b1, pid, m)
    requires Inv(s1, b1, X + {m.id}) && HangPage(s1, b1, s2, b2, X + {m.id}, pid, vp, leaf, c, m.id)
    ensures PageShared(s, b, s2, b2, pid, vp, m)
  {
    ShareStep(s, b, s1, b1, X, pid, m);
    HangPageStep(s1, b1, s2, b2, X + {m.id}, pid, vp, leaf, c, m.id);
    assert m.id in b.home ==> MapOk(s, b, m.id);
    forall q, w | q in b.alive && UserPage(w) && (q, w) != (pid, vp)
      ensures SameWalk(s, s2, q, w) && View(s2, q, w) == View(s, q, w)
    {
      assert ProcessOk(s, b, q);
      SetEntryWalk(s1, b1, s2, X + {m.id}, pid, vp, leaf, c, q, w);
      assert View(s1, q, w) == View(s, q, w);
    }
    forall id | id in b.home && b.home[id].kind % 2 == 0
      ensures SamePage(s, s2, b.home[id].frame)
    {
      PageFrame(s, b, X, id);
    }
  }

  lemma ShareableKept(s: Sys, b: Book, s': Sys, b': Book, X: set<nat>, pid: nat, f: nat)
    requires Inv(s, b, X) && Inv(s', b', X) && MoreTables(s, b, s', b', pid) && Shareable(s, b, f)
    ensures Shareable(s', b', f)
  {
    forall id | id in b'.home && b'.home[id].frame == f
      ensures b'.home[id].kind != 4
    {
      assert MapOk(s', b', id) && FrameOk(s, b, f);
    }
    forall q, w | (q, w) in b'.at && b'.at[(q, w)] in b'.home && b'.home[b'.at[(q, w)]].frame == f && q in s'.procs && |w| == 4
      ensures !Walk(s'.mem, s'.procs[q].cr3, w, 0).rw && b'.home[b'.at[(q, w)]].kind != 4
    {
      assert PageOk(s, b, q, w);
      assert SameWalk(s, s', q, w);
    }
  }

  lemma SharedLater(s: Sys, b: Book, s1: Sys, b1: Book, s2: Sys, b2: Book, X: set<nat>, pid: nat, vp: seq<nat>, m: MMap)
    requires Inv(s, b, X) && MoreTables(s, b, s1, b1, pid) && PageShared(s1, b1, s2, b2, pid, vp, m)
    requires m.frame < |s.usedBy| && s.usedBy[m.frame] == 3 && m.frame !in b.owner
    ensures PageShared(s, b, s2, b2, pid, vp, m)
  {
    forall q, w | q in b.alive && UserPage(w) && (q, w) != (pid, vp)
      ensures SameWalk(s, s2, q, w) && View(s2, q, w) == View(s, q, w)
    {
      assert SameWalk(s, s1, q, w) && View(s1, q, w) == View(s, q, w);
      assert SameWalk(s1, s2, q, w);
    }
    forall id | id in b.home && b.home[id].kind % 2 == 0
      ensures SamePage(s, s2, b.home[id].frame)
    {
      assert MapOk(s, b, id);
      PageFrame(s, b, X, id);
      assert id in b1.home && b1.home[id] == b.home[id];
      assert SamePage(s1, s2, b.home[id].frame);
    }
  }

  /** Once its own entry is read-only, the frame of an ordinary page may be shared. */
  lemma ProtectedIsShareable(s: Sys, b: Book, X: set<nat>, pid: nat, vp: seq<nat>)
    requires Inv(s, b, X) && (pid, vp) in b.at && pid in s.procs && |vp| == 4
    requires !Walk(s.mem, s.procs[pid].cr3, vp, 0).rw
    requires b.at[(pid, vp)] in b.home && b.home[b.at[(pid, vp)]].kind == 2
    ensures Shareable(s, b, b.home[b.at[(pid, vp)]].frame)
  {
    var id := b.at[(pid, vp)];
    var f := b.home[id].frame;
    assert PageOk(s, b, pid, vp) && MapOk(s, b, id);
    DataIsNoTable(s, b, X, pid, vp);
    forall x | x in b.home && b.home[x].frame == f
      ensures b.home[x].kind != 4
    {
      assert MapOk(s, b, x);
    }
    forall q, w | (q, w) in b.at && b.at[(q, w)] in b.home && b.home[b.at[(q, w)]].frame == f && q in s.procs && |w| == 4
      ensures !Walk(s.mem, s.procs[q].cr3, w, 0).rw && b.home[b.at[(q, w)]].kind != 4
    {
      assert PageOk(s, b, q, w) && MapOk(s, b, b.at[(q, w)]);
      assert id in s.records[f] && b.at[(q, w)] in s.records[f];
    }
  }

  /** Everything but pid's own space is as before: other processes with their pages, all m_maps, and
      the contents of every page in use. */
  ghost predicate Beside(s: Sys, b: Book, s': Sys, b': Book, pid: nat) {
    && (forall q {:trigger q in b'.alive} :: q in b.alive && q != pid ==> q in b'.alive && q in s.procs && q in s'.procs && s'.procs[q] == s.procs[q])
    && (forall q, w {:trigger View(s', q, w)} :: q in b.alive && q != pid && UserPage(w) ==> View(s', q, w) == View(s, q, w))
    && (forall q, w {:trigger (q, w) in b'.at} :: q != pid ==> ((q, w) in b'.at <==> (q, w) in b.at))
    && (forall q, w {:trigger (q, w) in b'.at} :: q != pid && (q, w) in b.at && (q, w) in b'.at ==> b'.at[(q, w)] == b.at[(q, w)])
    && (forall id {:trigger id in b'.home} :: id in b.home && id in b.held ==>
          id in b'.home && b'.home[id] == b.home[id] && id in b'.held && b'.held[id] == b.held[id])
    && (forall id {:trigger id in b'.home} :: id in b.home && id in b.held && b.home[id].kind % 2 == 0 ==> SamePage(s, s', b.home[id].frame))
  }

  lemma BesideTwice(s: Sys, b: Book, s1: Sys, b1: Book, s2: Sys, b2: Book, pid: nat)
    requires Beside(s, b, s1, b1, pid) && Beside(s1, b1, s2, b2, pid)
    ensures Beside(s, b, s2, b2, pid)
  {
    forall q, w | q in b.alive && q != pid && UserPage(w)
      ensures View(s2, q, w) == View(s, q, w)
    {
      assert q in b1.alive && View(s1, q, w) == View(s, q, w);
    }
    forall q | q in b.alive && q != pid
      ensures q in b2.alive && q in s.procs && q in s2.procs && s2.procs[q] == s.procs[q]
    {
      assert q in b1.alive;
    }
    forall q, w | q != pid
      ensures (q, w) in b2.at <==> (q, w) in b.at
      ensures (q, w) in b.at && (q, w) in b2.at ==> b2.at[(q, w)] == b.at[(q, w)]
    {
      assert (q, w) in b1.at <==> (q, w) in b.at;
    }
    forall id | id in b.home && id in b.held
      ensures id in b2.home && b2.home[id] == b.home[id] && id in b2.held && b2.held[id] == b.held[id]
      ensures b.home[id].kind % 2 == 0 ==> SamePage(s, s2, b.home[id].frame)
    {
      assert id in b1.home && id in b1.held && b1.home[id] == b.home[id];
      assert id in b2.home;
      assert b.home[id].kind % 2 == 0 ==> SamePage(s, s1, b.home[id].frame) && SamePage(s1, s2, b.home[id].frame);
    }
  }

  lemma NewPageBeside(s: Sys, b: Book, s': Sys, b': Book, X: set<nat>, pid: nat, m: MMap)
    requires Inv(s, b, X) && NewPage(s, b, s', b', pid, m)
    ensures Beside(s, b, s', b', pid)
  {
    NewPageStep(s, b, s', b', X, pid, m);
    assert m.id in b.home ==> MapOk(s, b, m.id);
    forall q | q in b.alive
      ensures q in s.procs
    {
      assert ProcessOk(s, b, q);
    }
    forall id | id in b.home
      ensures id != m.id && SamePage(s, s', b.home[id].frame)
    {
      assert MapOk(s, b, id);
      NewPageFresh(s, b, s', b', X, pid, m, id);
    }
  }

  /** pid has a new, empty address space, with the given m_maps besides the two of its PML4. */
  ghost predicate Built(s: Sys, b: Book, s': Sys, b': Book, pid: nat, kept: seq<MMap>) {
    && Beside(s, b, s', b', pid) && b'.alive == b.alive + {pid} && b'.at == b.at
    && pid in s'.procs && |s'.procs[pid].maps| == 2 + |kept| && s'.procs[pid].maps[2..] == kept
    && (forall w {:trigger View(s', pid, w)} :: UserPage(w) ==> View(s', pid, w) == Unmapped)
    && (forall w {:trigger (pid, w) in b'.at} :: (pid, w) !in b'.at)
  }

  lemma EnlivenBuilt(s: Sys, b: Book, s': Sys, b': Book, X: set<nat>, pid: nat, f: nat, g: nat, maps: seq<MMap>)
    requires Inv(s, b, X) && Enliven(s, b, s', b', X, pid, f, g, maps)
    ensures Built(s, b, s', b', pid, maps[2..])
  {
    EnlivenStep(s, b, s', b', X, pid, f, g, maps);
    forall w | UserPage(w)
      ensures View(s', pid, w) == Unmapped
    {
      EnlivenWalk(s, b, s', b', X, pid, f, g, maps, pid, w);
    }
    forall w
      ensures (pid, w) !in b'.at
    {
      assert (pid, w) in b.at ==> PageOk(s, b, pid, w);
    }
    forall q | q in b.alive
      ensures q in s.procs
    {
      assert ProcessOk(s, b, q);
    }
    forall id | id in b.home && b.home[id].kind % 2 == 0
      ensures SamePage(s, s', b.home[id].frame)
    {
      EnlivenPageFrame(s, b, s', b', X, pid, f, g, maps, id);
    }
  }

  lemma SpaceBuilt(s: Sys, b: Book, s2: Sys, b2: Book, s': Sys, b': Book, X: set<nat>, pid: nat, m3: MMap, m1: MMap, kept: seq<MMap>)
    requires Inv(s2, b2, X + {m3.id} + {m1.id}) && Beside(s, b, s2, b2, pid) && b2.alive == b.alive && b2.at == b.at
    requires Enliven(s2, b2, s', b', X + {m3.id} + {m1.id}, pid, m3.frame, m1.frame, [m3] + [m1] + kept)
    ensures Inv(s', b', X) && Built(s, b, s', b', pid, kept)
  {
    var X2 := X + {m3.id} + {m1.id};
    EnlivenStep(s2, b2, s', b', X2, pid, m3.frame, m1.frame, [m3] + [m1] + kept);
    EnlivenBuilt(s2, b2, s', b', X2, pid, m3.frame, m1.frame, [m3] + [m1] + kept);
    assert ([m3] + [m1] + kept)[2..] == kept;
    BesideTwice(s, b, s2, b2, s', b', pid);
    InvWeaken(s', b', X2 - {m3.id, m1.id}, X);
  }

  lemma EnlivenPageFrame(s: Sys, b: Book, s': Sys, b': Book, X: set<nat>, pid: nat, f: nat, g: nat, maps: seq<MMap>, id: nat)
    requires Inv(s, b, X) && Enliven(s, b, s', b', X, pid, f, g, maps) && id in b.home && b.home[id].kind % 2 == 0
    ensures SamePage(s, s', b.home[id].frame)
  {
    assert ListedOk(b, pid, maps[0]) && MapOk(s, b, maps[0].id);
    assert ListedOk(b, pid, maps[1]) && MapOk(s, b, maps[1].id);
    assert MapOk(s, b, id);
  }

  lemma FirstLeftover(b: Book, X: set<nat>, b1: Book, pid: nat, m: MMap, kept: seq<MMap>)
    requires Leftover(b, X, pid, kept)
    requires m.id !in b.home && b1 == b.(home := b.home[m.id := m], held := b.held[m.id := pid])
    ensures Leftover(b1, X + {m.id}, pid, [m] + kept)
  {
    assert [] + kept == kept && [] + [m] + kept == [m] + kept;
    LeftoverInsert(b, X, b1, pid, [], kept, m);
  }

  /** The two new m_maps of a space, and those kept, are all that pid holds. */
  lemma SpaceReady(b: Book, X: set<nat>, b1: Book, b2: Book, pid: nat, m3: MMap, m1: MMap, kept: seq<MMap>)
    requires Leftover(b, X, pid, kept)
    requires m3.id !in b.home && b1 == b.(home := b.home[m3.id := m3], held := b.held[m3.id := pid])
    requires m1.id !in b1.home && b2 == b1.(home := b1.home[m1.id := m1], held := b1.held[m1.id := pid])
    ensures Leftover(b2, X + {m3.id} + {m1.id}, pid, [m3] + [m1] + kept)
  {
    FirstLeftover(b, X, b1, pid, m3, kept);
    LeftoverInsert(b1, X + {m3.id}, b2, pid, [m3], kept, m1);
  }

  /** The two zeroed frames for the top of a new space, with their m_maps in front of those kept. */
  ghost predicate TopMade(s: Sys, b: Book, s': Sys, b': Book, X: set<nat>, pid: nat, kept: seq<MMap>, m3: MMap, m1: MMap) {
    && Leftover(b', X + {m3.id} + {m1.id}, pid, [m3] + [m1] + kept)
    && Beside(s, b, s', b', pid) && b'.alive == b.alive && b'.at == b.at
    && m3.kind == 3 && m1.kind == 1 && m3.frame != m1.frame && m3.frame !in b'.owner && m1.frame !in b'.owner
    && m3.frame < |s'.mem| && m1.frame < |s'.mem| && s'.mem[m3.frame] == ZeroFrame() && s'.mem[m1.frame] == ZeroFrame()
    && m3.frame < |s'.records| && m1.frame < |s'.records| && |s'.records[m3.frame]| == 1 && |s'.records[m1.frame]| == 1
  }

  lemma TopIsMade(s: Sys, b: Book, s1: Sys, b1: Book, s2: Sys, b2: Book, X: set<nat>, pid: nat, kept: seq<MMap>, m3: MMap, m1: MMap)
    requires Inv(s, b, X) && Leftover(b, X, pid, kept) && Inv(s1, b1, X + {m3.id})
    requires NewPage(s, b, s1, b1, pid, m3) && NewPage(s1, b1, s2, b2, pid, m1) && m3.id !in b.home && m1.id !in b1.home
    requires m3.kind == 3 && m1.kind == 1 && m3.frame !in b1.owner && m1.frame !in b2.owner
    ensures TopMade(s, b, s2, b2, X, pid, kept, m3, m1)
  {
    NewPageBeside(s, b, s1, b1, X, pid, m3);
    NewPageBeside(s1, b1, s2, b2, X + {m3.id}, pid, m1);
    NewPageFresh(s1, b1, s2, b2, X + {m3.id}, pid, m1, m3.id);
    BesideTwice(s, b, s1, b1, s2, b2, pid);
    SpaceReady(b, X, b1, b2, pid, m3, m1, kept);
  }

  ghost predicate Stacked(b: Book, pid: nat) {
    (pid, RSP0) in b.at && b.at[(pid, RSP0)] in b.home && b.home[b.at[(pid, RSP0)]].kind == 4
  }

  /** fork_process after the first i m_maps of the parent: the child has exactly their accessible
      pages, with the parent's contents, and nothing else looks different to anyone. */
  ghost predicate Forking(s0: Sys, b0: Book, s: Sys, b: Book, parent: nat, child: nat, i: nat) {
    && Inv(s, b, {}) && parent in s0.procs && i <= |s0.procs[parent].maps|
    && b.alive == b0.alive + {child} && child !in b0.alive
    && Beside(s0, b0, s, b, child)
    && Stacked(b, child) && View(s, child, RSP0) == Mapped(ZeroFrame())
    && (forall j {:trigger Copied(s0, s, b, parent, child, s0.procs[parent].maps[j].page)} :: 0 <= j < i && s0.procs[parent].maps[j].kind == 2 ==>
          Copied(s0, s, b, parent, child, s0.procs[parent].maps[j].page))
    && (forall w {:trigger (child, w) in b.at} :: (child, w) in b.at && w != RSP0 ==> FromParent(s0, parent, w, i))
  }

  ghost predicate Copied(s0: Sys, s: Sys, b: Book, parent: nat, child: nat, w: seq<nat>) {
    (child, w) in b.at && |w| == 4 && View(s, child, w) == View(s0, parent, w)
  }

  ghost predicate FromParent(s0: Sys, parent: nat, w: seq<nat>, i: nat) {
    parent in s0.procs && exists j :: 0 <= j < i && j < |s0.procs[parent].maps| && s0.procs[parent].maps[j].kind == 2 && s0.procs[parent].maps[j].page == w
  }

  /** An accessible page in the list of a process is the one its tables show. */
  lemma ListedPage(s: Sys, b: Book, pid: nat, i: nat)
    requires Inv(s, b, {}) && pid in b.alive && pid in s.procs && i < |s.procs[pid].maps| && s.procs[pid].maps[i].kind == 2
    ensures var m := s.procs[pid].maps[i];
      && (pid, m.page) in b.at && b.at[(pid, m.page)] == m.id && m.id in b.home && b.home[m.id] == m
      && UserPage(m.page) && m.frame < |s.mem| && View(s, pid, m.page) == Mapped(s.mem[m.frame])
  {
    var m := s.procs[pid].maps[i];
    assert ProcessOk(s, b, pid);
    assert ListedOk(b, pid, m);
    assert Hung(b, {}, m.id);
    assert PageOk(s, b, pid, m.page);
    assert MapOk(s, b, m.id);
  }

  /** The next page of the parent is not in the child yet. */
  lemma NotYetCopied(s0: Sys, b0: Book, s: Sys, b: Book, parent: nat, child: nat, i: nat)
    requires Inv(s0, b0, {}) && Stacked(b0, parent) && parent in b0.alive && Forking(s0, b0, s, b, parent, child, i)
    requires i < |s0.procs[parent].maps| && s0.procs[parent].maps[i].kind == 2
    ensures (child, s0.procs[parent].maps[i].page) !in b.at
  {
    var maps := s0.procs[parent].maps;
    ListedPage(s0, b0, parent, i);
    assert ProcessOk(s0, b0, parent);
    if (child, maps[i].page) in b.at && maps[i].page != RSP0 {
      assert FromParent(s0, parent, maps[i].page, i);
      var j :| 0 <= j < i && maps[j].kind == 2 && maps[j].page == maps[i].page;
      ListedPage(s0, b0, parent, j);
    }
  }

  /** Changing the writability of one entry of pid leaves everything beside any other process. */
  lemma ProtectBeside(s: Sys, b: Book, s': Sys, X: set<nat>, pid: nat, vp: seq<nat>, q: nat)
    requires Inv(s, b, X) && Grows(s, b, s', b, pid) && s'.procs == s.procs && |vp| == 4
    requires SameBut(s, b, s', pid, vp) && View(s', pid, vp) == View(s, pid, vp)
    ensures Beside(s, b, s', b, q)
  {
    forall r | r in b.alive
      ensures r in s.procs
    {
      assert ProcessOk(s, b, r);
    }
    forall id | id in b.home && b.home[id].kind % 2 == 0
      ensures SamePage(s, s', b.home[id].frame)
    {
      assert MapOk(s, b, id);
      PageFrame(s, b, X, id);
    }
  }

  lemma SharedBeside(s: Sys, b: Book, s': Sys, b': Book, X: set<nat>, pid: nat, vp: seq<nat>, m: MMap)
    requires Inv(s, b, X) && PageShared(s, b, s', b', pid, vp, m)
    ensures Beside(s, b, s', b', pid)
  {
    forall r | r in b.alive
      ensures r in s.procs
    {
      assert ProcessOk(s, b, r);
    }
  }

  lemma ForkTurnChild(s0: Sys, b0: Book, s: Sys, b: Book, s1: Sys, s2: Sys, b2: Book, parent: nat, child: nat, i: nat, m': MMap, j: nat)
    requires Inv(s0, b0, {}) && parent in b0.alive && Forking(s0, b0, s, b, parent, child, i)
    requires i < |s0.procs[parent].maps| && s0.procs[parent].maps[i].kind == 2
    requires j <= i && s0.procs[parent].maps[j].kind == 2
    requires (child, s0.procs[parent].maps[i].page) !in b.at
    requires Beside(s0, b0, s1, b, child) && Inv(s, b, {})
    requires forall w :: UserPage(w) ==> View(s1, child, w) == View(s, child, w)
    requires PageShared(s1, b, s2, b2, child, s0.procs[parent].maps[i].page, m') && m'.frame == s0.procs[parent].maps[i].frame
    ensures Copied(s0, s2, b2, parent, child, s0.procs[parent].maps[j].page)
  {
    var maps := s0.procs[parent].maps;
    ListedPage(s0, b0, parent, j);
    if j == i {
      assert ProcessOk(s0, b0, parent);
      assert ListedOk(b0, parent, maps[i]);
      assert maps[i].id in b.home && SamePage(s0, s1, maps[i].frame);
    } else {
      assert Copied(s0, s, b, parent, child, maps[j].page);
      assert View(s2, child, maps[j].page) == View(s1, child, maps[j].page);
    }
  }

  /** One turn of fork_process's loop: parent's entry made read-only in s1, frame shared in s2. */
  lemma ForkTurn(s0: Sys, b0: Book, s: Sys, b: Book, s1: Sys, s2: Sys, b2: Book, parent: nat, child: nat, i: nat, m': MMap)
    requires Inv(s0, b0, {}) && parent in b0.alive && Forking(s0, b0, s, b, parent, child, i)
    requires i < |s0.procs[parent].maps| && s0.procs[parent].maps[i].kind == 2
    requires (child, s0.procs[parent].maps[i].page) !in b.at
    requires Beside(s0, b0, s1, b, child)
    requires forall w :: UserPage(w) ==> View(s1, child, w) == View(s, child, w)
    requires PageShared(s1, b, s2, b2, child, s0.procs[parent].maps[i].page, m') && m'.frame == s0.procs[parent].maps[i].frame
    requires Inv(s2, b2, {}) && Beside(s0, b0, s2, b2, child)
    ensures Forking(s0, b0, s2, b2, parent, child, i + 1)
  {
    var maps := s0.procs[parent].maps;
    forall j | 0 <= j < i + 1 && maps[j].kind == 2
      ensures Copied(s0, s2, b2, parent, child, maps[j].page)
    {
      ForkTurnChild(s0, b0, s, b, s1, s2, b2, parent, child, i, m', j);
    }
    forall w | (child, w) in b2.at && w != RSP0
      ensures FromParent(s0, parent, w, i + 1)
    {
      ForkTurnPages(s0, b0, s, b, b2, parent, child, i, m', w);
    }
    ForkTurnStack(s, b, s1, s2, b2, child, s0.procs[parent].maps[i].page, m');
  }

  lemma ForkTurnPages(s0: Sys, b0: Book, s: Sys, b: Book, b2: Book, parent: nat, child: nat, i: nat, m': MMap, w: seq<nat>)
    requires Forking(s0, b0, s, b, parent, child, i) && i < |s0.procs[parent].maps| && s0.procs[parent].maps[i].kind == 2
    requires b2.at == b.at[(child, s0.procs[parent].maps[i].page) := m'.id] && (child, w) in b2.at && w != RSP0
    ensures FromParent(s0, parent, w, i + 1)
  {
    if w != s0.procs[parent].maps[i].page { assert FromParent(s0, parent, w, i); }
  }

  lemma ForkTurnStack(s: Sys, b: Book, s1: Sys, s2: Sys, b2: Book, child: nat, vp: seq<nat>, m': MMap)
    requires Stacked(b, child) && child in b.alive && View(s, child, RSP0) == Mapped(ZeroFrame()) && (child, vp) !in b.at
    requires forall w :: UserPage(w) ==> View(s1, child, w) == View(s, child, w)
    requires PageShared(s1, b, s2, b2, child, vp, m')
    ensures Stacked(b2, child) && View(s2, child, RSP0) == Mapped(ZeroFrame())
  {
    assert UserPage(RSP0) && View(s2, child, RSP0) == View(s1, child, RSP0);
  }

  /** pid is a new process whose only page is its zeroed rsp0 stack. */
  ghost predicate Started(s: Sys, b: Book, s': Sys, b': Book, pid: nat) {
    && Inv(s', b', {}) && Beside(s, b, s', b', pid) && b'.alive == b.alive + {pid} && pid in s'.procs
    && Stacked(b', pid) && View(s', pid, RSP0) == Mapped(ZeroFrame())
    && (forall w {:trigger (pid, w) in b'.at} :: (pid, w) in b'.at ==> w == RSP0)
  }

  lemma StartedBy(s0: Sys, b0: Book, s1: Sys, b1: Book, s: Sys, b: Book, pid: nat, m: MMap)
    requires Inv(s0, b0, {}) && pid !in b0.alive && Built(s0, b0, s1, b1, pid, [])
    requires Inv(s1, b1, {}) && Inv(s, b, {}) && PagePlaced(s1, b1, s, b, pid, RSP0, m) && m.kind == 4
    ensures Started(s0, b0, s, b, pid)
  {
    PlacedBeside(s1, b1, s, b, {}, pid, RSP0, m);
    BesideTwice(s0, b0, s1, b1, s, b, pid);
    assert forall w :: (pid, w) in b.at ==> (pid, w) in b1.at || w == RSP0;
  }

  lemma StartedForking(s0: Sys, b0: Book, s: Sys, b: Book, parent: nat, child: nat)
    requires Inv(s0, b0, {}) && parent in b0.alive && parent in s0.procs && child !in b0.alive && Started(s0, b0, s, b, child)
    ensures Forking(s0, b0, s, b, parent, child, 0)
  {
  }

  lemma UnknownBeside(s: Sys, b: Book, s': Sys, pid: nat)
    requires Inv(s, b, {}) && pid !in b.alive && pid < s'.nextPid && s.nextPid <= s'.nextPid
    requires s' == s.(procs := s.procs[pid := Process(0, [])], nextPid := s'.nextPid)
    ensures Beside(s, b, s', b, pid)
  {
    UnknownProcess(s, b, s', {}, pid, Process(0, []));
    forall r | r in b.alive
      ensures r in s.procs
    {
      assert ProcessOk(s, b, r);
    }
    forall id | id in b.home
      ensures SamePage(s, s', b.home[id].frame)
    {
      assert MapOk(s, b, id);
    }
  }

  lemma PlacedBeside(s: Sys, b: Book, s': Sys, b': Book, X: set<nat>, pid: nat, vp: seq<nat>, m: MMap)
    requires Inv(s, b, X) && PagePlaced(s, b, s', b', pid, vp, m)
    ensures Beside(s, b, s', b', pid)
  {
    forall r | r in b.alive
      ensures r in s.procs
    {
      assert ProcessOk(s, b, r);
    }
    forall id | id in b.home && b.home[id].kind % 2 == 0
      ensures SamePage(s, s', b.home[id].frame)
    {
      assert MapOk(s, b, id);
      PageFrame(s, b, X, id);
    }
  }

  /** After a fork the child reads in each page what the parent read there, except that it has its
      own zeroed rsp0 stack; every process that was there before reads what it read before. */
  ghost predicate Forked(s: Sys, b: Book, s': Sys, b': Book, parent: nat, child: nat) {
    && b'.alive == b.alive + {child}
    && (forall q, w {:trigger View(s', q, w)} :: q in b.alive && UserPage(w) ==> View(s', q, w) == View(s, q, w))
    && (forall w {:trigger View(s', child, w)} :: UserPage(w) ==>
          View(s', child, w) == if w == RSP0 then Mapped(ZeroFrame()) else View(s, parent, w))
  }

  lemma ForkDone(s0: Sys, b0: Book, s: Sys, b: Book, parent: nat, child: nat)
    requires Inv(s0, b0, {}) && parent in b0.alive && parent in s0.procs && Stacked(b0, parent)
    requires Forking(s0, b0, s, b, parent, child, |s0.procs[parent].maps|)
    ensures Forked(s0, b0, s, b, parent, child)
  {
    forall w | UserPage(w)
      ensures View(s, child, w) == if w == RSP0 then Mapped(ZeroFrame()) else View(s0, parent, w)
    {
      ForkDonePage(s0, b0, s, b, parent, child, w);
    }
  }

  lemma ForkDonePage(s0: Sys, b0: Book, s: Sys, b: Book, parent: nat, child: nat, w: seq<nat>)
    requires Inv(s0, b0, {}) && parent in b0.alive && parent in s0.procs && Stacked(b0, parent)
    requires Forking(s0, b0, s, b, parent, child, |s0.procs[parent].maps|) && UserPage(w)
    ensures View(s, child, w) == if w == RSP0 then Mapped(ZeroFrame()) else View(s0, parent, w)
  {
    var maps := s0.procs[parent].maps;
    assert Covered(s0, b0, parent, w) && Covered(s, b, child, w);
    assert ProcessOk(s, b, child) && ProcessOk(s0, b0, parent);
    if w != RSP0 && (parent, w) in b0.at {
      var id := b0.at[(parent, w)];
      assert PageOk(s0, b0, parent, w) && MapOk(s0, b0, id);
      var j :| 0 <= j < |maps| && maps[j] == b0.home[id];
      assert Copied(s0, s, b, parent, child, maps[j].page);
    } else if w != RSP0 && (child, w) in b.at {
      assert FromParent(s0, parent, w, |maps|);
      var j :| 0 <= j < |maps| && maps[j].kind == 2 && maps[j].page == w;
      ListedPage(s0, b0, parent, j);
    }
  }

  /** Every process keeps its rsp0 stack. */
  lemma StackedKept(s: Sys, b: Book, s': Sys, b': Book, pid: nat)
    requires Beside(s, b, s', b', pid) && Inv(s, b, {})
    requires forall q :: q in b.alive ==> Stacked(b, q)
    requires Stacked(b', pid) && b'.alive == b.alive + {pid}
    ensures forall q :: q in b'.alive ==> Stacked(b', q)
  {
    forall q | q in b'.alive && q != pid
      ensures Stacked(b', q)
    {
      assert Stacked(b, q);
      assert PageOk(s, b, q, RSP0);
      assert (q, RSP0) in b'.at && b.at[(q, RSP0)] in b'.home;
    }
  }

  lemma ForkSkip(s0: Sys, b0: Book, s: Sys, b: Book, parent: nat, child: nat, i: nat)
    requires Forking(s0, b0, s, b, parent, child, i) && i < |s0.procs[parent].maps| && s0.procs[parent].maps[i].kind != 2
    ensures Forking(s0, b0, s, b, parent, child, i + 1)
  {
    forall w | (child, w) in b.at && w != RSP0
      ensures FromParent(s0, parent, w, i + 1)
    {
      assert FromParent(s0, parent, w, i);
    }
  }

  lemma ForkingProcesses(s0: Sys, b0: Book, s: Sys, b: Book, parent: nat, child: nat, i: nat)
    requires Forking(s0, b0, s, b, parent, child, i) && parent in b0.alive
    ensures parent in s.procs && child in s.procs
  {
    assert ProcessOk(s, b, parent) && ProcessOk(s, b, child);
  }

  /** The next number belongs to no process and no m_map. */
  lemma NewNumber(s: Sys, b: Book, X: set<nat>)
    requires Inv(s, b, X)
    ensures s.nextPid !in s.procs && s.nextPid !in b.alive && Leftover(b, X, s.nextPid, [])
  {
    assert s.nextPid in b.alive ==> ProcessOk(s, b, s.nextPid);
    forall id | id in b.home && id in b.held
      ensures b.held[id] != s.nextPid
    {
      assert MapOk(s, b, id);
    }
  }

  lemma UnknownOthers(s: Sys, b: Book, s': Sys, X: set<nat>, pid: nat, proc: Process, q: nat)
    requires Inv(s, b, X) && pid !in b.alive && s' == s.(procs := s.procs[pid := proc], nextPid := s'.nextPid) && q in b.alive
    ensures ProcessOk(s', b, q)
  {
    assert ProcessOk(s, b, q);
    KernelKept(s, b, s', b, q);
  }

  /** The structure of a process without a space matters to nobody. */
  lemma UnknownProcess(s: Sys, b: Book, s': Sys, X: set<nat>, pid: nat, proc: Process)
    requires Inv(s, b, X) && pid !in b.alive && pid < s'.nextPid && s.nextPid <= s'.nextPid
    requires s' == s.(procs := s.procs[pid := proc], nextPid := s'.nextPid)
    ensures Inv(s', b, X)
    ensures forall q, w {:trigger View(s', q, w)} :: q in b.alive && UserPage(w) ==> View(s', q, w) == View(s, q, w)
  {
    forall f | 0 <= f < |s'.mem|
      ensures FrameOk(s', b, f)
    {
      assert FrameOk(s, b, f);
    }
    forall x | x in b.home
      ensures MapOk(s', b, x)
    {
      assert MapOk(s, b, x);
    }
    forall q | q in b.alive
      ensures ProcessOk(s', b, q)
    {
      UnknownOthers(s, b, s', X, pid, proc, q);
    }
    forall t | t in b.owner
      ensures TableOk(s', b, t)
    {
      assert TableOk(s, b, t);
    }
    forall q: nat, vp: seq<nat>
      ensures (q, vp) in b.at ==> PageOk(s', b, q, vp)
      ensures Covered(s', b, q, vp)
    {
      assert Covered(s, b, q, vp);
      if (q, vp) in b.at { assert PageOk(s, b, q, vp); }
    }
    forall q, w | q in b.alive && UserPage(w)
      ensures View(s', q, w) == View(s, q, w)
    {
      assert ProcessOk(s, b, q);
    }
  }

  /** Removing the one occurrence of id, at position k, from a chain of records. */
  lemma RecordRemoved(r: seq<nat>, k: nat, id: nat)
    requires k < |r| && r[k] == id && Distinct(r)
    ensures WithoutRecord(r, r[..k] + r[k + 1..], id)
  {
    var r' := r[..k] + r[k + 1..];
    assert forall i :: 0 <= i < |r'| ==> r'[i] == r[if i < k then i else i + 1];
    forall x
      ensures x in r' <==> x in r && x != id
    {
      if x in r && x != id {
        var i :| 0 <= i < |r| && r[i] == x;
        assert r'[if i < k then i else i - 1] == x;
      }
    }
  }

  lemma MapRemoved(maps: seq<MMap>, k: nat)
    requires k < |maps| && DistinctIds(maps)
    ensures WithoutMap(maps, maps[..k] + maps[k + 1..], maps[k].id)
  {
    var maps' := maps[..k] + maps[k + 1..];
    assert forall i :: 0 <= i < |maps'| ==> maps'[i] == maps[if i < k then i else i + 1];
    forall m
      ensures m in maps' <==> m in maps && m.id != maps[k].id
    {
      if m in maps && m.id != maps[k].id {
        var i :| 0 <= i < |maps| && maps[i] == m;
        assert maps'[if i < k then i else i - 1] == m;
      }
    }
  }

  /** The chain of records of a frame without m_map id: free_page_for_program's list surgery. */
  method RemoveRecord(r0: seq<nat>, id: nat) returns (r: seq<nat>)
    requires Distinct(r0) && id in r0 && |r0| > 1
    ensures WithoutRecord(r0, r, id)
  {
    ghost var k :| 0 <= k < |r0| && r0[k] == id;
    RecordRemoved(r0, k, id);
    if r0[0] == id {
      assert r0[..0] + r0[1..] == r0[1..];
      return r0[1..];
    }
    r := r0;
    var i, found := 0, false;
    while i + 1 < |r|
      invariant 0 <= i < |r|
      invariant !found ==> r == r0 && i < k
      invariant found ==> r == r0[..k] + r0[k + 1..] && id !in r
      decreases |r| - i
    {
      if r[i + 1] == id {
        r := r[..i + 1] + r[i + 2..];
        found := true;
      } else {
        i := i + 1;
      }
    }
  }

  /** Only page vp of pid is behind its m_map. */
  lemma NotBehind(s: Sys, b: Book, X: set<nat>, pid: nat, vp: seq<nat>, m: MMap, q: nat, w: seq<nat>)
    requires Inv(s, b, X) && (pid, vp) in b.at && b.at[(pid, vp)] == m.id && (q, w) != (pid, vp)
    ensures !((q, w) in b.at && b.at[(q, w)] == m.id)
  {
    assert PageOk(s, b, pid, vp);
    if (q, w) in b.at { assert PageOk(s, b, q, w); }
  }

  /** check_and_handle_rw_page_fault: a private copy in s2 of what the page showed in s. */
  lemma CopyMade(s: Sys, b: Book, s1: Sys, b1: Book, s2: Sys, X: set<nat>, pid: nat, vp: seq<nat>, m: MMap, f: nat)
    requires Inv(s, b, {}) && (pid, vp) in b.at && b.at[(pid, vp)] in b.home && b.home[b.at[(pid, vp)]].frame == f
    requires Inv(s1, b1, X) && PagePlaced(s, b, s1, b1, pid, vp, m) && f < |s1.mem| && m.frame < |s1.mem|
    requires s2 == s1.(mem := s1.mem[m.frame := s1.mem[f]])
    ensures Inv(s2, b1, X)
    ensures forall q, w {:trigger View(s2, q, w)} :: q in b.alive && UserPage(w) ==> View(s2, q, w) == View(s, q, w)
    ensures pid in s2.procs && Walk(s2.mem, s2.procs[pid].cr3, vp, 0).rw == m.rw
  {
    var old_ := b.at[(pid, vp)];
    assert PageOk(s, b, pid, vp) && MapOk(s, b, old_);
    DataIsNoTable(s, b, {}, pid, vp);
    assert s1.mem[f] == s.mem[f];
    assert |s1.mem[f]| == 512;
    DataWriteStep(s1, b1, s2, X, m.frame);
    assert PageOk(s1, b1, pid, vp);
    DataWriteWalk(s1, b1, s2, X, m.frame, pid, vp);
    forall q, w | q in b.alive && UserPage(w) && (q, w) != (pid, vp)
      ensures View(s2, q, w) == View(s, q, w)
    {
      assert View(s1, q, w) == View(s, q, w);
      NotBehind(s1, b1, X, pid, vp, m, q, w);
    }
  }

  /** After the old m_map is dropped, everything but writability is as it was. */
  lemma CopyOnly(s: Sys, b: Book, s1: Sys, s2: Sys, b1: Book, s3: Sys, b3: Book, pid: nat, vp: seq<nat>, m: MMap, id: nat)
    requires Inv(s2, b1, {id}) && DropMap(s2, b1, s3, b3, {id}, id) && PagePlaced(s, b, s1, b1, pid, vp, m)
    requires forall q, w {:trigger View(s2, q, w)} :: q in b.alive && UserPage(w) ==> View(s2, q, w) == View(s, q, w)
    requires pid in b.alive && pid in s2.procs && UserPage(vp)
    ensures Inv(s3, b3, {})
    ensures SameViews(s, b, s3) && OthersStay(b, b3, pid, vp, id)
    ensures pid in s3.procs && Walk(s3.mem, s3.procs[pid].cr3, vp, 0) == Walk(s2.mem, s2.procs[pid].cr3, vp, 0)
  {
    DropStep(s2, b1, s3, b3, {id}, id);
    assert {id} - {id} == {};
    assert ProcessOk(s2, b1, pid) && ProcessOk(s3, b3, pid);
    forall q, w | q in b.alive && UserPage(w)
      ensures View(s3, q, w) == View(s, q, w)
    {
      assert View(s2, q, w) == View(s, q, w);
    }
  }

  /** Pages other than vp of pid are behind their old m_maps, which are all still there but id. */
  ghost predicate OthersStay(b: Book, b': Book, pid: nat, vp: seq<nat>, id: nat) {
    && b'.alive == b.alive
    && (forall q, w {:trigger (q, w) in b'.at} :: (q, w) in b.at && (q, w) != (pid, vp) ==> (q, w) in b'.at && b'.at[(q, w)] == b.at[(q, w)])
    && (forall x :: x in b.home && x != id ==> x in b'.home && b'.home[x] == b.home[x])
  }

  lemma StacksKept(b: Book, b': Book, pid: nat, vp: seq<nat>, id: nat)
    requires forall q :: q in b.alive ==> Stacked(b, q)
    requires OthersStay(b, b', pid, vp, id) && id in b.home && b.home[id].kind == 2
    requires (pid, vp) in b.at && b.at[(pid, vp)] == id
    ensures forall q :: q in b'.alive ==> Stacked(b', q)
  {
    forall q | q in b'.alive
      ensures Stacked(b', q)
    {
      assert Stacked(b, q);
      assert (q, RSP0) in b'.at;
    }
  }

  /** A page that is not in the list of a process is not an ordinary page of it. */
  lemma NotListed(s: Sys, b: Book, pid: nat, vp: seq<nat>)
    requires Inv(s, b, {}) && pid in b.alive && pid in s.procs
    requires forall j :: 0 <= j < |s.procs[pid].maps| ==> !(s.procs[pid].maps[j].kind == 2 && s.procs[pid].maps[j].page == vp)
    ensures !((pid, vp) in b.at && b.at[(pid, vp)] in b.home && b.home[b.at[(pid, vp)]].kind == 2)
  {
    if (pid, vp) in b.at {
      assert PageOk(s, b, pid, vp) && MapOk(s, b, b.at[(pid, vp)]);
      var j :| 0 <= j < |s.procs[pid].maps| && s.procs[pid].maps[j] == b.home[b.at[(pid, vp)]];
    }
  }

  /** The first of the m_maps left over is dropped. */
  lemma LeftoverDrop(s: Sys, b: Book, s': Sys, b': Book, X: set<nat>, pid: nat, pre: seq<MMap>, m: MMap, post: seq<MMap>)
    requires Inv(s, b, X) && Leftover(b, X, pid, pre + [m] + post) && DropMap(s, b, s', b', X, m.id)
    ensures Leftover(b', X, pid, pre + post)
  {
    var l, l' := pre + [m] + post, pre + post;
    forall i | 0 <= i < |l'|
      ensures ListedOk(b', pid, l'[i]) && l'[i].id in X && l'[i].id != m.id && l'[i] == l[if i < |pre| then i else i + 1]
    {
      assert ListedOk(b, pid, l[if i < |pre| then i else i + 1]);
      assert l[|pre|] == m;
    }
    forall id | id in b'.home && id in b'.held && b'.held[id] == pid
      ensures b'.home[id] in l'
    {
      assert b.home[id] in l;
      var i :| 0 <= i < |l| && l[i] == b.home[id];
      assert MapOk(s, b, id);
      assert l[|pre|] == m && i != |pre|;
      assert l'[if i < |pre| then i else i - 1] == l[i];
    }
  }

  /** A leftover m_map can be dropped: its frame is no table and it is not hung. */
  lemma LeftoverLoose(s: Sys, b: Book, X: set<nat>, pid: nat, m: MMap)
    requires Inv(s, b, X) && pid !in b.alive && ListedOk(b, pid, m)
    ensures m.frame < |s.usedBy| == |s.records| && s.usedBy[m.frame] == 3 && m.frame !in b.owner
    ensures Distinct(s.records[m.frame]) && m.id in s.records[m.frame]
    ensures (pid, m.page) !in b.at
  {
    assert MapOk(s, b, m.id) && FrameOk(s, b, m.frame);
    assert m.frame in b.owner ==> TableOk(s, b, m.frame);
    assert (pid, m.page) in b.at ==> PageOk(s, b, pid, m.page);
  }

  /** A process that loses its space keeps its m_maps for the time being. */
  lemma RetiredLeftover(s: Sys, b: Book, pid: nat)
    requires Inv(s, b, {}) && pid in b.alive && pid in s.procs
    ensures Inv(s, Retired(b, pid), Ids(s.procs[pid].maps)) && Leftover(Retired(b, pid), Ids(s.procs[pid].maps), pid, s.procs[pid].maps)
  {
    var maps, b' := s.procs[pid].maps, Retired(b, pid);
    assert ProcessOk(s, b, pid);
    RetireStep(s, b, {}, pid);
    InvWeaken(s, b', {}, Ids(maps));
    forall i | 0 <= i < |maps|
      ensures ListedOk(b', pid, maps[i]) && maps[i].id in Ids(maps)
    {
      assert ListedOk(b, pid, maps[i]);
      assert maps[i] in maps;
    }
    forall id | id in b'.home && id in b'.held && b'.held[id] == pid
      ensures b'.home[id] in maps
    {
      assert MapOk(s, b, id);
    }
  }

  ghost function Ids(maps: seq<MMap>): set<nat> {
    set m | m in maps :: m.id
  }

  /** The processes other than pid, their pages and what they read are as before. */
  ghost predicate Apart(s: Sys, b: Book, s': Sys, b': Book, pid: nat) {
    && (forall q {:trigger q in b'.alive} :: q != pid ==> (q in b'.alive <==> q in b.alive))
    && (forall q, w {:trigger View(s', q, w)} :: q in b.alive && q != pid && UserPage(w) ==> View(s', q, w) == View(s, q, w))
    && (forall q, w {:trigger (q, w) in b'.at} :: q != pid ==> ((q, w) in b'.at <==> (q, w) in b.at))
    && (forall q, w {:trigger (q, w) in b'.at} :: q != pid && (q, w) in b.at && (q, w) in b'.at ==> b'.at[(q, w)] == b.at[(q, w)])
    && (forall id {:trigger id in b'.home} :: id in b.home && id in b.held && b.held[id] != pid ==>
          id in b'.home && b'.home[id] == b.home[id] && id in b'.held && b'.held[id] == b.held[id])
    && s'.procs.Keys == s.procs.Keys && (forall q {:trigger s'.procs[q]} :: q in s.procs && q != pid ==> s'.procs[q] == s.procs[q])
  }

  lemma ApartTwice(s: Sys, b: Book, s1: Sys, b1: Book, s2: Sys, b2: Book, pid: nat)
    requires Apart(s, b, s1, b1, pid) && Apart(s1, b1, s2, b2, pid)
    ensures Apart(s, b, s2, b2, pid)
  {
    forall q, w | q in b.alive && q != pid && UserPage(w)
      ensures View(s2, q, w) == View(s, q, w)
    {
      assert q in b1.alive && View(s1, q, w) == View(s, q, w);
    }
    forall q | q != pid
      ensures q in b2.alive <==> q in b.alive
    {
      assert q in b1.alive <==> q in b.alive;
    }
    forall q, w | q != pid
      ensures (q, w) in b2.at <==> (q, w) in b.at
      ensures (q, w) in b.at && (q, w) in b2.at ==> b2.at[(q, w)] == b.at[(q, w)]
    {
      assert (q, w) in b1.at <==> (q, w) in b.at;
    }
    forall id | id in b.home && id in b.held && b.held[id] != pid
      ensures id in b2.home && b2.home[id] == b.home[id] && id in b2.held && b2.held[id] == b.held[id]
    {
      assert id in b1.home;
    }
    forall q | q in s.procs && q != pid
      ensures s2.procs[q] == s.procs[q]
    {
      assert s1.procs[q] == s.procs[q];
    }
  }

  lemma DropApart(s: Sys, b: Book, s': Sys, b': Book, X: set<nat>, pid: nat, id: nat)
    requires Inv(s, b, X) && DropMap(s, b, s', b', X, id) && pid !in b.alive && b.held[id] == pid
    ensures Apart(s, b, s', b', pid)
  {
    DropStep(s, b, s', b', X, id);
  }

  lemma InvShrink(s: Sys, b: Book, X: set<nat>, Y: set<nat>)
    requires Inv(s, b, X) && forall x :: x in X && x !in Y ==> x !in b.home
    ensures Inv(s, b, Y)
  {
    forall x
      ensures Hung(b, Y, x)
    {
      assert Hung(b, X, x);
    }
  }

  /** The m_maps that replace_process keeps, or none. */
  ghost function KeptMaps(maps: seq<MMap>, keepStack: bool): seq<MMap> {
    if maps == [] then [] else
    KeptMaps(maps[..|maps| - 1], keepStack) + (if keepStack && maps[|maps| - 1].kind == 4 then [maps[|maps| - 1]] else [])
  }

  /** The first i m_maps are dealt with. */
  ghost predicate KeptSoFar(maps: seq<MMap>, keepStack: bool, i: nat, kept: seq<MMap>, left: seq<MMap>) {
    i <= |maps| && kept == KeptMaps(maps[..i], keepStack) && left == kept + maps[i..]
  }

  lemma KeptNext(maps: seq<MMap>, keepStack: bool, i: nat, kept: seq<MMap>, left: seq<MMap>)
    requires KeptSoFar(maps, keepStack, i, kept, left) && i < |maps|
    ensures left == kept + [maps[i]] + maps[i + 1..]
    ensures if keepStack && maps[i].kind == 4 then KeptSoFar(maps, keepStack, i + 1, kept + [maps[i]], left)
            else KeptSoFar(maps, keepStack, i + 1, kept, kept + maps[i + 1..])
  {
    assert maps[..i + 1][..i] == maps[..i];
    assert kept + [maps[i]] + maps[i + 1..] == kept + maps[i..];
    assert kept + [] == kept;
  }

  lemma KeptAll(maps: seq<MMap>, keepStack: bool, kept: seq<MMap>, left: seq<MMap>)
    requires KeptSoFar(maps, keepStack, |maps|, kept, left)
    ensures kept == KeptMaps(maps, keepStack) && left == kept
  {
    assert maps[..|maps|] == maps && maps[|maps|..] == [] && kept + [] == kept;
  }

  /** Among the m_maps of a process with an rsp0 stack, exactly one is of that kind. */
  lemma {:induction false} NoStackKept(maps: seq<MMap>)
    requires forall j :: 0 <= j < |maps| ==> maps[j].kind != 4
    ensures KeptMaps(maps, true) == []
  {
    if maps != [] { NoStackKept(maps[..|maps| - 1]); }
  }

  lemma {:induction false} OneStackKept(maps: seq<MMap>, i: nat)
    requires i < |maps| && maps[i].kind == 4
    requires forall j :: 0 <= j < |maps| && j != i ==> maps[j].kind != 4
    ensures KeptMaps(maps, true) == [maps[i]]
  {
    if i == |maps| - 1 {
      NoStackKept(maps[..i]);
    } else {
      OneStackKept(maps[..|maps| - 1], i);
    }
  }

  lemma {:induction false} NothingKept(maps: seq<MMap>)
    ensures KeptMaps(maps, false) == []
  {
    if maps != [] { NothingKept(maps[..|maps| - 1]); }
  }

  lemma RetiredApart(s: Sys, b: Book, pid: nat)
    requires Inv(s, b, {})
    ensures Apart(s, b, s, Retired(b, pid), pid)
  {
  }

  /** While a process without a space gives its pages back, down to the m_maps in `left`. */
  ghost predicate Freeing(s0: Sys, b0: Book, s: Sys, b: Book, X: set<nat>, pid: nat, left: seq<MMap>) {
    && Inv(s, b, X) && Leftover(b, X, pid, left) && Apart(s0, b0, s, b, pid)
    && b.alive == b0.alive && b.at == b0.at && s.mem == s0.mem && s.procs == s0.procs
    && (forall id {:trigger id in b.home} :: id in b.home && id in b.held ==> id in b0.home && id in b0.held && b.home[id] == b0.home[id] && b.held[id] == b0.held[id])
  }

  lemma FreeingBegun(s: Sys, b: Book, X: set<nat>, pid: nat, maps: seq<MMap>)
    requires Inv(s, b, X) && Leftover(b, X, pid, maps)
    ensures Freeing(s, b, s, b, X, pid, maps)
  {
  }

  lemma CleanedUp(s: Sys, b: Book, s': Sys, b': Book, pid: nat, maps: seq<MMap>)
    requires Inv(s, b, {}) && pid in b.alive && pid in s.procs && maps == s.procs[pid].maps
    requires Freeing(s, Retired(b, pid), s', b', Ids(maps), pid, [])
    ensures Inv(s', b', {}) && Apart(s, b, s', b', pid)
  {
    RetiredApart(s, b, pid);
    ApartTwice(s, b, s, Retired(b, pid), s', b', pid);
    assert ProcessOk(s, b, pid);
    forall x | x in Ids(maps)
      ensures x !in b'.home
    {
      var m :| m in maps && m.id == x;
      var i :| 0 <= i < |maps| && maps[i] == m;
      assert ListedOk(b, pid, maps[i]);
      assert x in b'.home ==> MapOk(s', b', x);
    }
    InvShrink(s', b', Ids(maps), {});
  }

  lemma ApartStacks(s: Sys, b: Book, s': Sys, b': Book, pid: nat)
    requires Inv(s, b, {}) && Apart(s, b, s', b', pid) && b'.alive <= b.alive + {pid}
    requires forall q :: q in b.alive ==> Stacked(b, q)
    ensures forall q :: q in b'.alive && q != pid ==> Stacked(b', q)
  {
    forall q | q in b'.alive && q != pid
      ensures Stacked(b', q)
    {
      assert Stacked(b, q);
      assert PageOk(s, b, q, RSP0);
      assert (q, RSP0) in b'.at && b.at[(q, RSP0)] in b'.home;
    }
  }

  /** The only m_map of kind 4 of a process is that of its rsp0 stack. */
  lemma OnlyStack(s: Sys, b: Book, pid: nat)
    requires Inv(s, b, {}) && pid in b.alive && pid in s.procs && Stacked(b, pid)
    ensures KeptMaps(s.procs[pid].maps, true) == [b.home[b.at[(pid, RSP0)]]]
  {
    var maps, id := s.procs[pid].maps, b.at[(pid, RSP0)];
    assert ProcessOk(s, b, pid) && PageOk(s, b, pid, RSP0) && MapOk(s, b, id);
    var i :| 0 <= i < |maps| && maps[i] == b.home[id];
    forall j | 0 <= j < |maps| && j != i
      ensures maps[j].kind != 4
    {
      assert ListedOk(b, pid, maps[j]) && Hung(b, {}, maps[j].id) && MapOk(s, b, maps[j].id);
      assert maps[j].kind == 4 ==> PageOk(s, b, pid, maps[j].page);
    }
    OneStackKept(maps, i);
  }

  /** Giving back all pages but the stack's leaves exactly the stack's m_map, still on its frame. */
  lemma StackKept(s: Sys, b: Book, s': Sys, b': Book, X: set<nat>, pid: nat, kept: seq<MMap>)
    requires Inv(s, b, {}) && pid in b.alive && pid in s.procs && Stacked(b, pid)
    requires kept == KeptMaps(s.procs[pid].maps, true) && Freeing(s, Retired(b, pid), s', b', X, pid, kept)
    ensures |kept| == 1 && kept[0].kind == 4 && kept[0].page == RSP0 && ListedOk(b', pid, kept[0])
    ensures kept[0].frame < |s'.mem| && View(s, pid, RSP0) == Mapped(s'.mem[kept[0].frame])
  {
    OnlyStack(s, b, pid);
    assert PageOk(s, b, pid, RSP0) && MapOk(s, b, b.at[(pid, RSP0)]);
    assert ListedOk(b', pid, kept[0]);
  }

  /** Exactly the given pages of pid are new; they are zeroed. */
  ghost predicate Loaded(s: Sys, b: Book, s': Sys, b': Book, pid: nat, pages: seq<seq<nat>>) {
    && Inv(s', b', {}) && Beside(s, b, s', b', pid) && b'.alive == b.alive && pid in s'.procs
    && (forall w {:trigger (pid, w) in b'.at} :: (pid, w) in b'.at <==> (pid, w) in b.at || w in pages)
    && (forall w {:trigger (pid, w) in b'.at} :: (pid, w) in b.at && w !in pages && (pid, w) in b'.at ==> b'.at[(pid, w)] == b.at[(pid, w)])
    && (forall w {:trigger View(s', pid, w)} :: UserPage(w) ==>
          View(s', pid, w) == if w in pages then Mapped(ZeroFrame()) else View(s, pid, w))
  }

  lemma LoadedNone(s: Sys, b: Book, pid: nat)
    requires Inv(s, b, {}) && pid in b.alive && pid in s.procs
    ensures Loaded(s, b, s, b, pid, [])
  {
    BesideSelf(s, b, {}, pid);
  }

  lemma BesideSelf(s: Sys, b: Book, X: set<nat>, pid: nat)
    requires Inv(s, b, X)
    ensures Beside(s, b, s, b, pid)
  {
    forall q | q in b.alive
      ensures q in s.procs
    {
      assert ProcessOk(s, b, q);
    }
    forall id | id in b.home
      ensures SamePage(s, s, b.home[id].frame)
    {
      assert MapOk(s, b, id);
    }
  }

  lemma LoadedOne(s0: Sys, b0: Book, s: Sys, b: Book, s': Sys, b': Book, pid: nat, pages: seq<seq<nat>>, vp: seq<nat>, m: MMap)
    requires Loaded(s0, b0, s, b, pid, pages) && Inv(s', b', {}) && PagePlaced(s, b, s', b', pid, vp, m)
    requires pid in b.alive && UserPage(vp)
    ensures Loaded(s0, b0, s', b', pid, pages + [vp])
  {
    PlacedBeside(s, b, s', b', {}, pid, vp, m);
    BesideTwice(s0, b0, s, b, s', b', pid);
    forall w | UserPage(w)
      ensures View(s', pid, w) == if w in pages + [vp] then Mapped(ZeroFrame()) else View(s0, pid, w)
    {
      if w != vp { assert View(s', pid, w) == View(s, pid, w); }
    }
    forall w
      ensures (pid, w) in b'.at <==> (pid, w) in b0.at || w in pages + [vp]
      ensures (pid, w) in b0.at && w !in pages + [vp] && (pid, w) in b'.at ==> b'.at[(pid, w)] == b0.at[(pid, w)]
    {
      assert (pid, w) in b.at <==> (pid, w) in b0.at || w in pages;
    }
  }

  /** pid has its rsp0 stack and exactly the given pages, zeroed; every other process reads what it
      read before. */
  ghost predicate Fresh(s: Sys, b: Book, s': Sys, b': Book, pid: nat, stack: Contents, pages: seq<seq<nat>>) {
    && Inv(s', b', {}) && pid in b'.alive && Stacked(b', pid)
    && (forall q {:trigger q in b'.alive} :: q != pid ==> (q in b'.alive <==> q in b.alive))
    && (forall q, w {:trigger View(s', q, w)} :: q in b.alive && q != pid && UserPage(w) ==> View(s', q, w) == View(s, q, w))
    && (forall w {:trigger View(s', pid, w)} :: UserPage(w) ==>
          View(s', pid, w) == if w == RSP0 then stack else if w in pages then Mapped(ZeroFrame()) else Unmapped)
  }

  lemma FreshLoaded(s0: Sys, b0: Book, s: Sys, b: Book, s': Sys, b': Book, pid: nat, stack: Contents, pages: seq<seq<nat>>)
    requires Fresh(s0, b0, s, b, pid, stack, []) && Loaded(s, b, s', b', pid, pages) && RSP0 !in pages
    ensures Fresh(s0, b0, s', b', pid, stack, pages)
  {
    assert (pid, RSP0) in b'.at;
    assert PageOk(s, b, pid, RSP0) && MapOk(s, b, b.at[(pid, RSP0)]);
    assert b.at[(pid, RSP0)] in b'.home;
    forall q, w | q in b0.alive && q != pid && UserPage(w)
      ensures View(s', q, w) == View(s0, q, w)
    {
      assert q in b.alive && View(s, q, w) == View(s0, q, w);
    }
    forall w | UserPage(w)
      ensures View(s', pid, w) == if w == RSP0 then stack else if w in pages then Mapped(ZeroFrame()) else Unmapped
    {
      assert View(s, pid, w) == if w == RSP0 then stack else Unmapped;
    }
  }

  lemma LoadedStacks(s: Sys, b: Book, s': Sys, b': Book, pid: nat, pages: seq<seq<nat>>)
    requires Inv(s, b, {}) && Loaded(s, b, s', b', pid, pages) && RSP0 !in pages
    requires forall q :: q in b.alive ==> Stacked(b, q)
    ensures forall q :: q in b'.alive ==> Stacked(b', q)
  {
    forall q | q in b'.alive
      ensures Stacked(b', q)
    {
      assert Stacked(b, q);
      assert PageOk(s, b, q, RSP0);
      assert (q, RSP0) in b'.at && b.at[(q, RSP0)] in b'.home;
    }
  }

  lemma StartedFresh(s0: Sys, b0: Book, s: Sys, b: Book, pid: nat)
    requires pid !in b0.alive && Started(s0, b0, s, b, pid)
    ensures Fresh(s0, b0, s, b, pid, Mapped(ZeroFrame()), [])
  {
    assert ProcessOk(s, b, pid);
    forall w | UserPage(w)
      ensures View(s, pid, w) == if w == RSP0 then Mapped(ZeroFrame()) else Unmapped
    {
      assert Covered(s, b, pid, w);
      assert w != RSP0 ==> (pid, w) !in b.at;
    }
  }

  /** What processes other than pid can notice: nothing. */
  ghost predicate Undisturbed(s: Sys, b: Book, s': Sys, b': Book, pid: nat) {
    && (forall q {:trigger q in b'.alive} :: q != pid ==> (q in b'.alive <==> q in b.alive))
    && (forall q, w {:trigger View(s', q, w)} :: q in b.alive && q != pid && UserPage(w) ==> View(s', q, w) == View(s, q, w))
    && (forall q {:trigger Stacked(b', q)} :: q in b.alive && q != pid && Stacked(b, q) ==> Stacked(b', q))
  }

  lemma UndisturbedTwice(s: Sys, b: Book, s1: Sys, b1: Book, s2: Sys, b2: Book, pid: nat)
    requires Undisturbed(s, b, s1, b1, pid) && Undisturbed(s1, b1, s2, b2, pid)
    ensures Undisturbed(s, b, s2, b2, pid)
  {
    forall q, w | q in b.alive && q != pid && UserPage(w)
      ensures View(s2, q, w) == View(s, q, w)
    {
      assert q in b1.alive && View(s1, q, w) == View(s, q, w);
    }
    forall q | q in b.alive && q != pid && Stacked(b, q)
      ensures Stacked(b2, q)
    {
      assert q in b1.alive && Stacked(b1, q);
    }
    forall q | q != pid
      ensures q in b2.alive <==> q in b.alive
    {
      assert q in b1.alive <==> q in b.alive;
    }
  }

  lemma ApartUndisturbed(s: Sys, b: Book, s': Sys, b': Book, X: set<nat>, pid: nat)
    requires Inv(s, b, X) && Apart(s, b, s', b', pid)
    ensures Undisturbed(s, b, s', b', pid)
  {
    forall q | q in b.alive && q != pid && Stacked(b, q)
      ensures Stacked(b', q)
    {
      assert PageOk(s, b, q, RSP0);
      assert (q, RSP0) in b'.at && b.at[(q, RSP0)] in b'.home;
    }
  }

  lemma BuiltUndisturbed(s: Sys, b: Book, s': Sys, b': Book, X: set<nat>, pid: nat, kept: seq<MMap>)
    requires Inv(s, b, X) && Built(s, b, s', b', pid, kept)
    ensures Undisturbed(s, b, s', b', pid)
  {
    forall q | q in b.alive && q != pid && Stacked(b, q)
      ensures Stacked(b', q)
    {
      assert PageOk(s, b, q, RSP0);
      assert b.at[(q, RSP0)] in b'.home;
    }
  }

  lemma MappedUndisturbed(s: Sys, b: Book, s': Sys, b': Book, pid: nat, vp: seq<nat>, id: nat)
    requires Grows(s, b, s', b', pid) && SameBut(s, b, s', pid, vp) && b'.at == b.at[(pid, vp) := id]
    ensures Undisturbed(s, b, s', b', pid)
  {
  }

  /** replace_process up to the program's pages: the old space is gone but for the rsp0 stack. */
  lemma StackOnly(s0: Sys, b0: Book, s2: Sys, b2: Book, s3: Sys, b3: Book, pid: nat, m: MMap, kept: seq<MMap>)
    requires Undisturbed(s0, b0, s2, b2, pid) && pid in b2.alive
    requires forall w {:trigger View(s2, pid, w)} :: UserPage(w) ==> View(s2, pid, w) == Unmapped
    requires Grows(s2, b2, s3, b3, pid) && SameBut(s2, b2, s3, pid, RSP0) && b3.at == b2.at[(pid, RSP0) := m.id]
    requires Inv(s3, b3, {}) && View(s3, pid, RSP0) == View(s0, pid, RSP0) && m.id in b3.home && b3.home[m.id].kind == 4
    ensures Fresh(s0, b0, s3, b3, pid, View(s0, pid, RSP0), [])
  {
    MappedUndisturbed(s2, b2, s3, b3, pid, RSP0, m.id);
    UndisturbedTwice(s0, b0, s2, b2, s3, b3, pid);
    forall w | UserPage(w)
      ensures View(s3, pid, w) == if w == RSP0 then View(s0, pid, RSP0) else Unmapped
    {
      if w != RSP0 { assert View(s3, pid, w) == View(s2, pid, w); }
    }
  }

  /** Of the m_maps of pid, only the kept one is still there. */
  lemma OnlyKeptWaits(s: Sys, b: Book, s1: Sys, b1: Book, X: set<nat>, pid: nat, kept: seq<MMap>)
    requires Inv(s, b, {}) && pid in b.alive && pid in s.procs && X == Ids(s.procs[pid].maps)
    requires Freeing(s, Retired(b, pid), s1, b1, X, pid, kept) && |kept| == 1
    ensures Inv(s1, b1, {kept[0].id}) && Leftover(b1, {kept[0].id}, pid, kept)
  {
    var maps := s.procs[pid].maps;
    assert ProcessOk(s, b, pid);
    assert ListedOk(b1, pid, kept[0]);
    forall x | x in X && x !in {kept[0].id}
      ensures x !in b1.home
    {
      var m :| m in maps && m.id == x;
      var i :| 0 <= i < |maps| && maps[i] == m;
      assert ListedOk(b, pid, maps[i]);
      assert x in b1.home ==> MapOk(s1, b1, x);
    }
    InvShrink(s1, b1, X, {kept[0].id});
  }

  lemma Vacated(s: Sys, b: Book, s': Sys, b': Book, X: set<nat>, pid: nat, kept: seq<MMap>)
    requires Inv(s, b, {}) && pid in b.alive && pid in s.procs && Stacked(b, pid) && X == Ids(s.procs[pid].maps)
    requires kept == KeptMaps(s.procs[pid].maps, true) && Freeing(s, Retired(b, pid), s', b', X, pid, kept)
    ensures |kept| == 1 && kept == [kept[0]] && kept[0].kind == 4 && kept[0].page == RSP0
    ensures kept[0].frame < |s'.mem| && View(s, pid, RSP0) == Mapped(s'.mem[kept[0].frame])
    ensures Inv(s', b', {kept[0].id}) && Leftover(b', {kept[0].id}, pid, kept) && Undisturbed(s, b, s', b', pid)
  {
    StackKept(s, b, s', b', X, pid, kept);
    OnlyKeptWaits(s, b, s', b', X, pid, kept);
    RetiredApart(s, b, pid);
    ApartTwice(s, b, s, Retired(b, pid), s', b', pid);
    ApartUndisturbed(s, b, s', b', {}, pid);
  }

  lemma NoPagesYet(s0: Sys, b0: Book, s: Sys, b: Book, pid: nat, stack: Contents)
    requires Fresh(s0, b0, s, b, pid, stack, [])
    ensures forall w :: (pid, w) in b.at ==> w == RSP0
  {
    forall w | (pid, w) in b.at
      ensures w == RSP0
    {
      assert PageOk(s, b, pid, w) && MapOk(s, b, b.at[(pid, w)]);
      assert View(s, pid, w).Mapped?;
    }
  }

  datatype FaultOutcome = PageCopied | GrownHeap | GrownStack | Denied

  /** process_initial_rsp. */
  const INITIAL_RSP := 0xFFFF_FEFF_FFFF_F000

  /** A page is present exactly if it is listed; one that is not writable has an m_map of kind 2. User
      code may read every page that is present, and write to it if its last entry says so. */
  lemma FaultingPage(s: Sys, b: Book, pid: nat, vp: seq<nat>)
    requires Inv(s, b, {}) && pid in b.alive && pid in s.procs && UserPage(vp)
    ensures Walk(s.mem, s.procs[pid].cr3, vp, 0).p <==> (pid, vp) in b.at
    ensures Walk(s.mem, s.procs[pid].cr3, vp, 0).p ==> b.at[(pid, vp)] in b.home && (!Walk(s.mem, s.procs[pid].cr3, vp, 0).rw ==> b.home[b.at[(pid, vp)]].kind == 2)
    ensures Walk(s.mem, s.procs[pid].cr3, vp, 0).p <==> View(s, pid, vp).Mapped?
    ensures Permits(s.mem, s.procs[pid].cr3, vp, 0, false) <==> Walk(s.mem, s.procs[pid].cr3, vp, 0).p
    ensures Permits(s.mem, s.procs[pid].cr3, vp, 0, true) <==> Walk(s.mem, s.procs[pid].cr3, vp, 0).p && Walk(s.mem, s.procs[pid].cr3, vp, 0).rw
  {
    assert Covered(s, b, pid, vp);
    assert ProcessOk(s, b, pid);
    LastEntryDecides(s.mem, b.owner, s.procs[pid].cr3, vp, 0, false);
    LastEntryDecides(s.mem, b.owner, s.procs[pid].cr3, vp, 0, true);
    if (pid, vp) in b.at {
      assert PageOk(s, b, pid, vp);
      assert MapOk(s, b, b.at[(pid, vp)]);
    }
  }

  // ----- In every state -----

  /** A process has at most one accessible m_map per page; the table entry of that page points at its
      frame; and if the entry is writable the frame has no other use record. */
  lemma OneMapPerPage(s: Sys, b: Book, pid: nat, i: nat, j: nat)
    requires Inv(s, b, {}) && pid in b.alive && pid in s.procs && i < |s.procs[pid].maps| && j < |s.procs[pid].maps|
    requires s.procs[pid].maps[i].kind == 2 && s.procs[pid].maps[j].kind == 2
    ensures s.procs[pid].maps[i].page == s.procs[pid].maps[j].page ==> i == j
    ensures var m := s.procs[pid].maps[i];
      && UserPage(m.page)
      && var e := Walk(s.mem, s.procs[pid].cr3, m.page, 0);
      e.p && e.us && e.frame == m.frame && m.frame < |s.records| && (e.rw ==> s.records[m.frame] == [m.id])
  {
    ListedPage(s, b, pid, i);
    ListedPage(s, b, pid, j);
    var m := s.procs[pid].maps[i];
    assert ProcessOk(s, b, pid) && PageOk(s, b, pid, m.page) && MapOk(s, b, m.id);
  }

  // ----- The kernel's addresses -----

  /** Page w of the kernel's part of process q's space: below PML4 entry 510 the direct map, below entry 511
      the directory of the kernel's image at 511 and that of its heap at 510. */
  ghost predicate SeesKernel(mem: Memory, procs: map<nat, Process>, q: nat, w: seq<nat>, basePd: nat, mallocPd: nat) {
    && q in procs && |w| == 4
    && Walk(mem, procs[q].cr3, w, 0) ==
         if w[0] == 510 then Walk(mem, 0, w, 1)
         else if w[1] == 511 then Walk(mem, basePd, w, 2)
         else if w[1] == 510 then Walk(mem, mallocPd, w, 2)
         else EMPTY
  }

  /** Every process sees the kernel through the same directories. */
  ghost predicate KernelSeen(mem: Memory, procs: map<nat, Process>, alive: set<nat>, basePd: nat, mallocPd: nat) {
    forall q, w {:trigger SeesKernel(mem, procs, q, w, basePd, mallocPd)} :: q in alive && IsPage(w) && w[0] >= 510 ==>
        SeesKernel(mem, procs, q, w, basePd, mallocPd)
  }

  lemma KernelIsSeen(s: Sys, b: Book, X: set<nat>)
    requires Inv(s, b, X)
    ensures KernelSeen(s.mem, s.procs, b.alive, s.basePd, s.mallocPd)
  {
    forall q, w | q in b.alive && IsPage(w) && w[0] >= 510
      ensures SeesKernel(s.mem, s.procs, q, w, s.basePd, s.mallocPd)
    {
      assert ProcessOk(s, b, q) && KernelOk(s, b, q);
      WalkOfSteps(s.mem, s.procs[q].cr3, w);
    }
  }

  /** In every state, an address of the kernel has the same translation in all processes. */
  lemma KernelTranslation(s: Sys, b: Book, X: set<nat>, p: nat, q: nat, va: nat)
    requires Inv(s, b, X) && p in b.alive && q in b.alive && p in s.procs && q in s.procs && !UserPage(PageOf(va))
    ensures TranslateCr3(s.mem, s.procs[p].cr3, va) == TranslateCr3(s.mem, s.procs[q].cr3, va)
  {
    KernelIsSeen(s, b, X);
    var w := PageOf(va);
    assert SeesKernel(s.mem, s.procs, p, w, s.basePd, s.mallocPd) && SeesKernel(s.mem, s.procs, q, w, s.basePd, s.mallocPd);
  }

  /** The kernel's text at 0xFFFFFFFFC0200000 is below the directory of its image, and its heap at
      0xFFFFFFFF80400000 below that of the heap. */
  lemma KernelAddresses(s: Sys, b: Book, X: set<nat>, q: nat, va: nat)
    requires Inv(s, b, X) && q in b.alive && q in s.procs
    ensures 0xFFFF_FFFF_C020_0000 <= va < 0x1_0000_0000_0000_0000 ==>
              Walk(s.mem, s.procs[q].cr3, PageOf(va), 0) == Walk(s.mem, s.basePd, PageOf(va), 2)
    ensures 0xFFFF_FFFF_8040_0000 <= va < 0xFFFF_FFFF_C000_0000 ==>
              Walk(s.mem, s.procs[q].cr3, PageOf(va), 0) == Walk(s.mem, s.mallocPd, PageOf(va), 2)
  {
    KernelIsSeen(s, b, X);
    KernelIndices(va);
    var w := PageOf(va);
    assert w[0] >= 510 ==> SeesKernel(s.mem, s.procs, q, w, s.basePd, s.mallocPd);
  }

  // ----- Translation -----

  /** In every state translate_cr3 reads the flat map from pages to m_maps. */
  lemma TranslationIsFlat(s: Sys, b: Book, X: set<nat>, pid: nat, va: nat)
    requires Inv(s, b, X) && pid in b.alive && pid in s.procs && UserPage(PageOf(va))
    ensures TranslateCr3(s.mem, s.procs[pid].cr3, va) ==
            if (pid, PageOf(va)) in b.at && b.at[(pid, PageOf(va))] in b.home
            then b.home[b.at[(pid, PageOf(va))]].frame * 4096 + va % 4096 else 0
  {
    assert Covered(s, b, pid, PageOf(va));
    if (pid, PageOf(va)) in b.at { assert PageOk(s, b, pid, PageOf(va)); }
  }

  /** add_page_for_process and dup_page_for_process change the translation of one page of one
      process, to the new m_map's frame. */
  lemma TranslationUpdated(s: Sys, b: Book, s': Sys, b': Book, X: set<nat>, pid: nat, vp: seq<nat>, m: MMap, q: nat, va: nat)
    requires Inv(s', b', X) && (PagePlaced(s, b, s', b', pid, vp, m) || PageShared(s, b, s', b', pid, vp, m)) && m.page == vp
    requires pid in b.alive && UserPage(vp) && q in b.alive && q in s.procs && UserPage(PageOf(va))
    ensures q in s'.procs && TranslateCr3(s'.mem, s'.procs[q].cr3, va) ==
            if q == pid && PageOf(va) == vp then m.frame * 4096 + va % 4096 else TranslateCr3(s.mem, s.procs[q].cr3, va)
  {
    if q == pid && PageOf(va) == vp {
      assert (pid, vp) in b'.at && PageOk(s', b', pid, vp);
    } else {
      assert SameWalk(s, s', q, PageOf(va));
    }
  }

  // ----- Conservation -----

  ghost function FreePool(s: Sys): set<nat> {
    set f | 0 <= f < |s.usedBy| && s.usedBy[f] == 0
  }

  /** The frames that some live m_map refers to. */
  ghost function ReferredFrames(b: Book): set<nat> {
    set id | id in b.home :: b.home[id].frame
  }

  /** Between any two operations the pool is split exactly into free frames and frames that some
      m_map refers to, and the records of a frame in use are exactly its m_maps, once each. */
  lemma FramesConserved(s: Sys, b: Book, X: set<nat>)
    requires Inv(s, b, X)
    ensures FreePool(s) !! ReferredFrames(b) && FreePool(s) + ReferredFrames(b) == s.pool
    ensures |FreePool(s)| + |ReferredFrames(b)| == |s.pool| && |FreePool(s)| == FreeCount(s.usedBy)
    ensures forall f, id :: 0 <= f < |s.usedBy| && s.usedBy[f] == 3 ==>
              f < |s.records| && multiset(s.records[f])[id] == if id in b.home && b.home[id].frame == f then 1 else 0
  {
    forall f: nat | f in s.pool
      ensures f in FreePool(s) || f in ReferredFrames(b)
    {
      assert FrameOk(s, b, f);
      if s.usedBy[f] == 3 {
        var id := s.records[f][0];
        assert id in s.records[f] && b.home[id].frame == f;
      }
    }
    forall f: nat | f in FreePool(s)
      ensures f in s.pool
    {
      assert FrameOk(s, b, f);
    }
    forall f: nat | f in ReferredFrames(b)
      ensures f in s.pool && f !in FreePool(s)
    {
      var id :| id in b.home && b.home[id].frame == f;
      assert MapOk(s, b, id);
      assert FrameOk(s, b, f);
    }
    assert FreePool(s) + ReferredFrames(b) == s.pool;
    FreeBelowIsSize(s.usedBy, |s.usedBy|);
    forall f, id | 0 <= f < |s.usedBy| && s.usedBy[f] == 3
      ensures multiset(s.records[f])[id] == if id in b.home && b.home[id].frame == f then 1 else 0
    {
      assert FrameOk(s, b, f);
      if id in b.home && b.home[id].frame == f { assert MapOk(s, b, id); }
      CountDistinct(s.records[f], id);
    }
  }

  lemma {:induction false} CountDistinct(r: seq<nat>, id: nat)
    requires Distinct(r)
    ensures multiset(r)[id] == if id in r then 1 else 0
  {
    if r != [] {
      var n := |r| - 1;
      assert r == r[..n] + [r[n]];
      CountDistinct(r[..n], id);
    }
  }

  /** What holds between two operations: the invariant, and an rsp0 stack for every process. */
  ghost predicate Settled(s: Sys, b: Book) {
    Inv(s, b, {}) && forall pid :: pid in b.alive ==> Stacked(b, pid)
  }

  /** At most three tables for each of n pages. */
  ghost predicate TookPages(u: seq<nat>, u': seq<nat>, n: nat) {
    Took(u, u', true, 3 * n)
  }

  class Kernel {
    var mem: Memory
    var usedBy: seq<nat>
    var records: seq<seq<nat>>
    var procs: map<nat, Process>
    var nextMap: nat
    var nextPid: nat            // id_count
    ghost var book: Book
    ghost const pool: set<nat>  // the frames programs may use
    const kernelBasePd: nat     // frame of the page directory for the kernel image
    const kernelMallocPd: nat   // frame of the page directory for the kernel heap

    ghost function S(): Sys
      reads this
    {
      Sys(mem, usedBy, records, procs, nextMap, nextPid, pool, kernelBasePd, kernelMallocPd)
    }

    ghost predicate Valid()
      reads this
    {
      Settled(S(), book)
    }

    /** The state after boot: no process; a frame is free, or taken by the kernel for good. */
    constructor (frames: Memory, usedBy: seq<nat>, basePd: nat, mallocPd: nat)
      requires |usedBy| == |frames| && forall f :: 0 <= f < |frames| ==> |frames[f]| == 512 && usedBy[f] != 3
      ensures Valid() && mem == frames && this.usedBy == usedBy && procs == map[] && book.alive == {} && nextPid == 0
      ensures pool == set f | 0 <= f < |usedBy| && usedBy[f] == 0
      ensures kernelBasePd == basePd && kernelMallocPd == mallocPd
    {
      mem, procs, nextMap, nextPid := frames, map[], 0, 0;
      this.usedBy := usedBy;
      records := seq(|usedBy|, f => []);
      book := Book(map[], map[], map[], map[], {});
      pool := set f | 0 <= f < |usedBy| && usedBy[f] == 0;
      kernelBasePd, kernelMallocPd := basePd, mallocPd;
    }

    /** find_free_page_entry. */
    method FindFreePage() returns (ok: bool, f: nat)
      ensures ok ==> f < |usedBy| && usedBy[f] == 0 && forall g :: 0 <= g < f ==> usedBy[g] != 0
      ensures !ok ==> forall g :: 0 <= g < |usedBy| ==> usedBy[g] != 0
    {
      f := FindFree(usedBy);
      ok := f < |usedBy|;
    }

    /** add_new_m_map_for_process, with get_phy_page_for_program. */
    method AddNewMap(pid: nat, kind: nat, rw: bool, page: seq<nat>, ghost X: set<nat>) returns (ok: bool, m: MMap)
      requires Inv(S(), book, X) && pid in book.alive && 1 <= kind <= 4 && (kind == 2 ==> rw)
      modifies this
      ensures nextPid == old(nextPid)
      ensures Took(old(usedBy), usedBy, ok, 1)
      ensures ok ==> NewPage(old(S()), old(book), S(), book, pid, m) && Inv(S(), book, X + {m.id})
      ensures ok ==> Grows(old(S()), old(book), S(), book, pid) && SameWalks(old(S()), old(book), S()) && SameViews(old(S()), old(book), S())
      ensures ok ==> m == MMap(m.id, kind, m.frame, page, rw) && m.frame !in book.owner && m.id !in old(book.home)
    {
      ghost var s, b := S(), book;
      var f;
      ok, f := FindFreePage();
      m := MMap(nextMap, kind, f, page, rw);
      if ok {
        assert ProcessOk(s, b, pid);
        FrameTaken(usedBy, f, 3);
        usedBy := usedBy[f := 3];
        records := records[f := [m.id]];
        mem := mem[f := ZeroFrame()];
        procs := procs[pid := procs[pid].(maps := procs[pid].maps + [m])];
        nextMap := nextMap + 1;
        book := book.(home := book.home[m.id := m], held := book.held[m.id := pid]);
        NewPageStep(s, b, S(), book, X, pid, m);
        NewPageGrows(s, b, S(), book, X, pid, m);
      } else {
        NoneFree(usedBy);
      }
    }

    /** A new table below the absent entry i of table T. */
    method MakeTable(pid: nat, T: nat, i: nat, ghost X: set<nat>) returns (ok: bool, t: nat)
      requires Inv(S(), book, X) && pid in book.alive && i < 512 && T < |mem| && |mem[T]| == 512 && !mem[T][i].p
      requires T in book.owner && book.owner[T].space == pid && |book.owner[T].path| < 3 && UserPath(book.owner[T].path + [i])
      modifies this
      ensures nextPid == old(nextPid)
      ensures Took(old(usedBy), usedBy, ok, 1)
      ensures ok ==> Inv(S(), book, X) && book.at == old(book.at) && T < |mem| && |mem[T]| == 512
      ensures ok ==> Grows(old(S()), old(book), S(), book, pid) && SameWalks(old(S()), old(book), S()) && SameViews(old(S()), old(book), S())
      ensures ok ==> mem[T][i].p && mem[T][i].frame == t && t in book.owner && book.owner[t] == Place(pid, old(book.owner[T].path) + [i])
      ensures ok ==> EntriesKept(old(mem), old(book.owner), mem)
    {
      ghost var s, b := S(), book;
      var m;
      ok, m := AddNewMap(pid, 1, false, [], X);
      t := m.frame;
      if ok {
        ghost var s1, b1 := S(), book;
        mem := mem[T := mem[T][i := Cell(true, true, true, t, mem[T][i].rest)]];
        book := book.(owner := book.owner[t := Place(pid, book.owner[T].path + [i])]);
        TableMade(s, b, s1, b1, S(), book, X, pid, m, T, i);
      }
    }

    /** One level of add_page_for_process: the table below entry i of table T, made if absent. */
    method EnsureTable(pid: nat, T: nat, i: nat, ghost X: set<nat>) returns (ok: bool, t: nat)
      requires Inv(S(), book, X) && pid in book.alive && i < 512
      requires T in book.owner && book.owner[T].space == pid && |book.owner[T].path| < 3 && UserPath(book.owner[T].path + [i])
      modifies this
      ensures nextPid == old(nextPid)
      ensures Took(old(usedBy), usedBy, ok, 1)
      ensures ok ==> Inv(S(), book, X) && MoreTables(old(S()), old(book), S(), book, pid)
      ensures ok ==> Leads(S(), book, pid, T, old(book.owner[T].path), i, t)
    {
      assert Node(mem, book.owner, T);
      if mem[T][i].p {
        assert Under(book.owner, book.owner[T], i, mem[T][i].frame);
        GrowsSelf(S(), book, X, pid);
        ok, t := true, mem[T][i].frame;
      } else {
        ok, t := MakeTable(pid, T, i, X);
      }
    }

    /** The tables at the first two levels on the way to vp, made if absent. */
    method EnsureUpper(pid: nat, vp: seq<nat>, ghost X: set<nat>) returns (ok: bool, t1: nat, t2: nat)
      requires Inv(S(), book, X) && pid in book.alive && UserPage(vp) && pid in procs
      modifies this
      ensures nextPid == old(nextPid)
      ensures Took(old(usedBy), usedBy, ok, 2)
      ensures ok ==> Inv(S(), book, X) && MoreTables(old(S()), old(book), S(), book, pid)
      ensures ok ==> Leads(S(), book, pid, old(procs[pid].cr3), [], vp[0], t1)
      ensures ok ==> Leads(S(), book, pid, t1, [vp[0]], vp[1], t2)
    {
      ghost var s, b := S(), book;
      assert ProcessOk(s, b, pid);
      var root := procs[pid].cr3;
      t2 := 0;
      ok, t1 := EnsureTable(pid, root, vp[0], X);
      if !ok { return; }
      ghost var s1, b1 := S(), book;
      ok, t2 := EnsureTable(pid, t1, vp[1], X);
      if !ok { return; }
      LeadsKept(s1, b1, S(), book, pid, root, [], vp[0], t1);
      MoreTablesTwice(s, b, s1, b1, S(), book, pid);
    }

    /** The upper three levels of add_page_for_process: the lowest table on the way to vp. */
    method EnsurePath(pid: nat, vp: seq<nat>, ghost X: set<nat>) returns (ok: bool, leaf: nat)
      requires Inv(S(), book, X) && pid in book.alive && UserPage(vp) && pid in procs
      modifies this
      ensures nextPid == old(nextPid)
      ensures Took(old(usedBy), usedBy, ok, 3)
      ensures ok ==> Inv(S(), book, X) && MoreTables(old(S()), old(book), S(), book, pid)
      ensures ok ==> pid in procs && PathTo(mem, book.owner, procs[pid].cr3, vp, leaf)
      ensures ok ==> leaf < |mem| && |mem[leaf]| == 512
    {
      ghost var s, b := S(), book;
      var t1, t2 := 0, 0;
      leaf := 0;
      ok, t1, t2 := EnsureUpper(pid, vp, X);
      if !ok { return; }
      ghost var s1, b1 := S(), book;
      ok, leaf := EnsureTable(pid, t2, vp[2], X);
      if !ok { return; }
      PathEnsured(s, b, s1, b1, S(), book, X, pid, vp, t1, t2, leaf);
    }

    /** The last level of add_page_for_process: a new zeroed frame behind page vp. */
    method PlaceNewPage(pid: nat, vp: seq<nat>, leaf: nat, rw: bool, kind: nat, ghost X: set<nat>) returns (ok: bool, m: MMap)
      requires Inv(S(), book, X) && pid in book.alive && UserPage(vp) && (kind == 2 || (kind == 4 && vp == RSP0)) && rw
      requires pid in procs && PathTo(mem, book.owner, procs[pid].cr3, vp, leaf)
      modifies this
      ensures nextPid == old(nextPid)
      ensures Took(old(usedBy), usedBy, ok, 1)
      ensures ok ==> Inv(S(), book, X + Replaced(old(book), pid, vp)) && PagePlaced(old(S()), old(book), S(), book, pid, vp, m)
      ensures ok ==> m == MMap(m.id, kind, m.frame, vp, rw)
    {
      ghost var s, b := S(), book;
      ok, m := AddNewMap(pid, kind, rw, vp, X);
      if !ok { return; }
      ghost var s1, b1 := S(), book;
      PathOverNewPage(s, b, s1, b1, X, pid, m, vp, leaf);
      HangNew(pid, vp, leaf, m, X, s, b, s1, b1);
    }

    /** The table entry for the new frame. */
    method HangNew(pid: nat, vp: seq<nat>, leaf: nat, m: MMap, ghost X: set<nat>, ghost s: Sys, ghost b: Book, ghost s1: Sys, ghost b1: Book)
      requires s1 == S() && b1 == book && Inv(s, b, X) && NewPage(s, b, s1, b1, pid, m) && Inv(s1, b1, X + {m.id})
      requires m.id !in b.home && m.frame !in b1.owner && Grows(s, b, s1, b1, pid) && SameWalks(s, b, s1) && SameViews(s, b, s1)
      requires pid in b1.alive && UserPage(vp) && pid in s1.procs && PathTo(s1.mem, b1.owner, s1.procs[pid].cr3, vp, leaf)
      requires leaf < |mem| && |mem[leaf]| == 512 && m.page == vp && m.rw && (m.kind == 2 || (m.kind == 4 && vp == RSP0))
      modifies `mem, `book
      ensures Inv(S(), book, X + Replaced(b, pid, vp)) && PagePlaced(s, b, S(), book, pid, vp, m)
    {
      var c := Cell(true, m.rw, true, m.frame, mem[leaf][vp[3]].rest);
      mem := mem[leaf := mem[leaf][vp[3] := c]];
      book := book.(at := book.at[(pid, vp) := m.id]);
      NewPageHung(s, b, s1, b1, S(), book, X, pid, vp, leaf, c, m);
    }

    /** add_page_for_process. */
    method AddPage(pid: nat, vp: seq<nat>, rw: bool, kind: nat, ghost X: set<nat>) returns (ok: bool, m: MMap)
      requires Inv(S(), book, X) && pid in book.alive && UserPage(vp) && (kind == 2 || (kind == 4 && vp == RSP0)) && rw && pid in procs
      modifies this
      ensures nextPid == old(nextPid)
      ensures Took(old(usedBy), usedBy, ok, 4)
      ensures ok ==> Inv(S(), book, X + Replaced(old(book), pid, vp)) && PagePlaced(old(S()), old(book), S(), book, pid, vp, m)
      ensures ok ==> m == MMap(m.id, kind, m.frame, vp, rw)
    {
      ghost var s, b := S(), book;
      var leaf;
      m := MMap(0, kind, 0, vp, rw);
      ok, leaf := EnsurePath(pid, vp, X);
      if ok {
        ghost var s1, b1 := S(), book;
        ok, m := PlaceNewPage(pid, vp, leaf, rw, kind, X);
        if ok { PlacedLater(s, b, s1, b1, S(), book, pid, vp, m); }
      }
    }

    /** set_pte_rw with rw 0. */
    method ProtectPage(cr3: nat, vp: seq<nat>, ghost pid: nat, ghost X: set<nat>) returns (found: bool)
      requires Inv(S(), book, X) && pid in book.alive && pid in procs && procs[pid].cr3 == cr3 && UserPage(vp)
      requires (pid, vp) in book.at && book.at[(pid, vp)] in book.home ==> book.home[book.at[(pid, vp)]].kind == 2
      modifies `mem
      ensures found <==> (pid, vp) in book.at
      ensures Inv(S(), book, X) && Grows(old(S()), book, S(), book, pid)
      ensures SameBut(old(S()), book, S(), pid, vp) && View(S(), pid, vp) == View(old(S()), pid, vp)
      ensures Walk(mem, cr3, vp, 0) == if found then Walk(old(mem), cr3, vp, 0).(rw := false) else Walk(old(mem), cr3, vp, 0)
    {
      ghost var s := S();
      WalkOfSteps(mem, cr3, vp);
      assert ProcessOk(s, book, pid) && Covered(s, book, pid, vp);
      assert (pid, vp) in book.at ==> PageOk(s, book, pid, vp);
      var pdp := At(mem, cr3, vp[0]);
      var pd := At(mem, pdp.frame, vp[1]);
      var pt := At(mem, pd.frame, vp[2]);
      var pte := At(mem, pt.frame, vp[3]);
      if !pdp.p || !pd.p || !pt.p || !pte.p {
        GrowsSelf(s, book, X, pid);
        return false;
      }
      PathOfWalk(mem, book.owner, cr3, vp);
      var c := pte.(rw := false);
      mem := mem[pt.frame := mem[pt.frame][vp[3] := c]];
      ProtectStep(s, book, S(), X, pid, vp, pt.frame, c);
      ProtectOthers(s, book, S(), X, pid, vp, pt.frame, c);
      return true;
    }

    /** dup_new_m_map_for_process, with dup_page_for_program. */
    method DupNewMap(pid: nat, rw: bool, vp: seq<nat>, frame: nat, ghost X: set<nat>) returns (m: MMap)
      requires Inv(S(), book, X) && pid in book.alive && pid in procs && Shareable(S(), book, frame) && rw
      modifies this
      ensures nextPid == old(nextPid)
      ensures usedBy == old(usedBy)
      ensures SharePage(old(S()), old(book), S(), book, pid, m) && Inv(S(), book, X + {m.id})
      ensures m == MMap(m.id, 2, frame, vp, rw)
    {
      ghost var s, b := S(), book;
      m := MMap(nextMap, 2, frame, vp, rw);
      records := records[frame := records[frame] + [m.id]];
      procs := procs[pid := procs[pid].(maps := procs[pid].maps + [m])];
      nextMap := nextMap + 1;
      book := book.(home := book.home[m.id := m], held := book.held[m.id := pid]);
      ShareStep(s, b, S(), book, X, pid, m);
    }

    /** The last level of dup_page_for_process, on a page that is not mapped yet. */
    method PlaceShared(pid: nat, vp: seq<nat>, leaf: nat, rw: bool, frame: nat, ghost X: set<nat>) returns (m: MMap)
      requires Inv(S(), book, X) && pid in book.alive && UserPage(vp) && Shareable(S(), book, frame) && rw
      requires pid in procs && PathTo(mem, book.owner, procs[pid].cr3, vp, leaf) && (pid, vp) !in book.at
      modifies this
      ensures nextPid == old(nextPid)
      ensures usedBy == old(usedBy)
      ensures Inv(S(), book, X) && PageShared(old(S()), old(book), S(), book, pid, vp, m)
      ensures m == MMap(m.id, 2, frame, vp, rw)
    {
      ghost var s, b := S(), book;
      m := DupNewMap(pid, rw, vp, frame, X);
      ghost var s1, b1 := S(), book;
      assert Node(mem, b1.owner, leaf);
      var c := Cell(true, false, true, frame, mem[leaf][vp[3]].rest);
      mem := mem[leaf := mem[leaf][vp[3] := c]];
      book := book.(at := book.at[(pid, vp) := m.id]);
      HangPageStep(s1, b1, S(), book, X + {m.id}, pid, vp, leaf, c, m.id);
      SharedPlaced(s, b, s1, b1, S(), book, X, pid, vp, leaf, c, m);
      InvWeaken(S(), book, X + {m.id} - {m.id} + Replaced(b1, pid, vp), X);
    }

    /** dup_page_for_process; on a page that is mapped already it changes nothing but tables. */
    method DupPage(pid: nat, vp: seq<nat>, rw: bool, frame: nat, ghost X: set<nat>) returns (ok: bool, m: MMap)
      requires Inv(S(), book, X) && pid in book.alive && UserPage(vp) && Shareable(S(), book, frame) && pid in procs && rw
      modifies this
      ensures nextPid == old(nextPid)
      ensures Took(old(usedBy), usedBy, ok, 3)
      ensures ok ==> Inv(S(), book, X)
      ensures ok && (pid, vp) !in old(book.at) ==> PageShared(old(S()), old(book), S(), book, pid, vp, m) && m == MMap(m.id, 2, frame, vp, rw)
      ensures ok && (pid, vp) in old(book.at) ==> MoreTables(old(S()), old(book), S(), book, pid)
    {
      ghost var s, b := S(), book;
      var leaf;
      m := MMap(0, 2, frame, vp, rw);
      ok, leaf := EnsurePath(pid, vp, X);
      if !ok { return; }
      ghost var s1, b1 := S(), book;
      WalkAlong(mem, book.owner, procs[pid].cr3, vp, leaf);
      assert Covered(s1, b1, pid, vp);
      assert (pid, vp) in book.at ==> PageOk(s1, b1, pid, vp);
      if !mem[leaf][vp[3]].p {
        ShareableKept(s, b, s1, b1, X, pid, frame);
        m := PlaceShared(pid, vp, leaf, rw, frame, X);
        SharedLater(s, b, s1, b1, S(), book, X, pid, vp, m);
      }
    }

    /** An m_map on a new frame for a process that has no space yet. */
    method NewTableMap(pid: nat, kind: nat, ghost X: set<nat>) returns (ok: bool, m: MMap)
      requires Inv(S(), book, X) && pid !in book.alive && pid in procs && (kind == 1 || kind == 3)
      modifies this
      ensures nextPid == old(nextPid)
      ensures Took(old(usedBy), usedBy, ok, 1)
      ensures ok ==> NewPage(old(S()), old(book), S(), book, pid, m) && procs == old(procs)
      ensures ok ==> Inv(S(), book, X + {m.id}) && SameViews(old(S()), old(book), S())
      ensures ok ==> m == MMap(m.id, kind, m.frame, [], false) && m.frame !in book.owner && m.id !in old(book.home)
      ensures !ok ==> S() == old(S()) && book == old(book)
    {
      ghost var s, b := S(), book;
      var f;
      ok, f := FindFreePage();
      m := MMap(nextMap, kind, f, [], false);
      if ok {
        FrameTaken(usedBy, f, 3);
        usedBy := usedBy[f := 3];
        records := records[f := [m.id]];
        mem := mem[f := ZeroFrame()];
        nextMap := nextMap + 1;
        book := book.(home := book.home[m.id := m], held := book.held[m.id := pid]);
        NewPageStep(s, b, S(), book, X, pid, m);
        assert TableOk(s, b, f) || f !in b.owner;
        assert m.id in b.home ==> MapOk(s, b, m.id);
      } else {
        NoneFree(usedBy);
      }
    }

    /** Both m_maps and frames for the top of a new space. */
    method NewTop(pid: nat, kept: seq<MMap>, ghost X: set<nat>) returns (ok: bool, m3: MMap, m1: MMap)
      requires Inv(S(), book, X) && Leftover(book, X, pid, kept) && pid in procs
      modifies this
      ensures nextPid == old(nextPid)
      ensures Took(old(usedBy), usedBy, ok, 2)
      ensures ok ==> Inv(S(), book, X + {m3.id} + {m1.id}) && TopMade(old(S()), old(book), S(), book, X, pid, kept, m3, m1)
    {
      ghost var s, b := S(), book;
      m1 := MMap(0, 1, 0, [], false);
      ok, m3 := NewTableMap(pid, 3, X);
      if !ok { return; }
      ghost var s1, b1 := S(), book;
      ok, m1 := NewTableMap(pid, 1, X + {m3.id});
      if !ok { return; }
      TopIsMade(s, b, s1, b1, S(), book, X, pid, kept, m3, m1);
    }

    /** The start of spawn_process, fork_process and replace_process: PML4 and PDP frames, the
        direct map at 510, the kernel's directories below 511. */
    method BuildSpace(pid: nat, kept: seq<MMap>, ghost X: set<nat>) returns (ok: bool)
      requires Inv(S(), book, X) && Leftover(book, X, pid, kept) && pid in procs
      modifies this
      ensures nextPid == old(nextPid)
      ensures Took(old(usedBy), usedBy, ok, 2)
      ensures ok ==> Inv(S(), book, X) && Built(old(S()), old(book), S(), book, pid, kept)
      ensures ok ==> KernelSeen(mem, procs, book.alive, kernelBasePd, kernelMallocPd)
    {
      ghost var s, b := S(), book;
      var m3, m1;
      ok, m3, m1 := NewTop(pid, kept, X);
      if !ok { return; }
      ghost var s2, b2 := S(), book;
      var f, g := m3.frame, m1.frame;
      var pml4 := mem[f][511 := Cell(true, true, true, g, 0)][510 := Cell(true, true, false, 0, 0)];
      var pdp := mem[g][511 := Cell(true, true, false, kernelBasePd, 0)][510 := Cell(true, true, false, kernelMallocPd, 0)];
      mem := mem[f := pml4][g := pdp];
      procs := procs[pid := Process(f, [m3] + [m1] + kept)];
      book := book.(owner := book.owner[f := Place(pid, [])][g := Place(pid, [511])], alive := book.alive + {pid});
      SpaceBuilt(s, b, s2, b2, S(), book, X, pid, m3, m1, kept);
      KernelIsSeen(S(), book, X);
    }

    /** One turn of fork_process's loop, for an accessible page of the parent. */
    method ForkPage(parent: nat, child: nat, m: MMap, ghost s0: Sys, ghost b0: Book, ghost i: nat) returns (ok: bool)
      requires Inv(s0, b0, {}) && parent in b0.alive && parent in s0.procs && Stacked(b0, parent)
      requires Forking(s0, b0, S(), book, parent, child, i)
      requires i < |s0.procs[parent].maps| && m == s0.procs[parent].maps[i] && m.kind == 2
      requires parent in procs && child in procs
      modifies this
      ensures nextPid == old(nextPid)
      ensures Took(old(usedBy), usedBy, ok, 3)
      ensures ok ==> Forking(s0, b0, S(), book, parent, child, i + 1)
    {
      ghost var s, b := S(), book;
      NotYetCopied(s0, b0, s, b, parent, child, i);
      ListedPage(s0, b0, parent, i);
      assert parent in b.alive && procs[parent] == s0.procs[parent];
      ListedPage(s, b, parent, i);
      assert MapOk(s, b, m.id);
      var found := ProtectPage(procs[parent].cr3, m.page, parent, {});
      ghost var s1 := S();
      ProtectBeside(s, b, s1, {}, parent, m.page, child);
      BesideTwice(s0, b0, s, b, s1, b, child);
      ProtectedIsShareable(s1, b, {}, parent, m.page);
      var m';
      ok, m' := DupPage(child, m.page, m.rw, m.frame, {});
      if !ok { return; }
      SharedBeside(s1, b, S(), book, {}, child, m.page, m');
      BesideTwice(s0, b0, s1, b, S(), book, child);
      ForkTurn(s0, b0, s, b, s1, S(), book, parent, child, i, m');
    }

    /** A new process with an empty space. */
    method EmptySpace() returns (ok: bool, pid: nat)
      requires Inv(S(), book, {})
      modifies this
      ensures nextPid == old(nextPid) + 1
      ensures Took(old(usedBy), usedBy, ok, 2) && pid == old(nextPid) && pid !in old(procs) && pid !in old(book.alive)
      ensures ok ==> Inv(S(), book, {}) && Built(old(S()), old(book), S(), book, pid, [])
    {
      ghost var s0, b0 := S(), book;
      NewNumber(s0, b0, {});
      pid := nextPid;
      nextPid := nextPid + 1;
      procs := procs[pid := Process(0, [])];
      ghost var s1 := S();
      UnknownProcess(s0, b0, s1, {}, pid, Process(0, []));
      UnknownBeside(s0, b0, s1, pid);
      ok := BuildSpace(pid, [], {});
      if !ok { return; }
      BesideTwice(s0, b0, s1, b0, S(), book, pid);
    }

    /** A new process with an empty space and an rsp0 stack: how spawn_process and fork_process
        begin. */
    method NewSpace() returns (ok: bool, pid: nat)
      requires Inv(S(), book, {})
      modifies this
      ensures nextPid == old(nextPid) + 1
      ensures Took(old(usedBy), usedBy, ok, 6) && pid == old(nextPid) && pid !in old(procs) && pid !in old(book.alive)
      ensures ok ==> Started(old(S()), old(book), S(), book, pid)
    {
      ghost var s0, b0 := S(), book;
      ok, pid := EmptySpace();
      if !ok { return; }
      ghost var s2, b2 := S(), book;
      var m;
      ok, m := AddPage(pid, RSP0, true, 4, {});
      if !ok { return; }
      assert (pid, RSP0) !in b2.at;
      assert {} + Replaced(b2, pid, RSP0) == {};
      StartedBy(s0, b0, s2, b2, S(), book, pid, m);
    }

    /** One turn of fork_process's loop. */
    method ForkMap(parent: nat, child: nat, maps: seq<MMap>, i: nat, ghost s0: Sys, ghost b0: Book, ghost u: seq<nat>) returns (ok: bool)
      requires Inv(s0, b0, {}) && parent in b0.alive && parent in s0.procs && Stacked(b0, parent)
      requires Forking(s0, b0, S(), book, parent, child, i) && TookPages(u, usedBy, i)
      requires maps == s0.procs[parent].maps && i < |maps|
      modifies this
      ensures nextPid == old(nextPid)
      ensures ok ==> TookPages(u, usedBy, i + 1)
      ensures !ok ==> Took(u, usedBy, false, 3 * |maps|)
      ensures ok ==> Forking(s0, b0, S(), book, parent, child, i + 1)
    {
      ok := true;
      if maps[i].kind == 2 {
        ForkingProcesses(s0, b0, S(), book, parent, child, i);
        ok := ForkPage(parent, child, maps[i], s0, b0, i);
      } else {
        ForkSkip(s0, b0, S(), book, parent, child, i);
      }
    }

    /** fork_process's loop over the parent's m_maps. */
    method ForkPages(parent: nat, child: nat, maps: seq<MMap>, ghost s0: Sys, ghost b0: Book) returns (ok: bool)
      requires Inv(s0, b0, {}) && parent in b0.alive && parent in s0.procs && Stacked(b0, parent)
      requires Forking(s0, b0, S(), book, parent, child, 0) && maps == s0.procs[parent].maps
      modifies this
      ensures nextPid == old(nextPid)
      ensures Took(old(usedBy), usedBy, ok, 3 * |maps|)
      ensures ok ==> Forking(s0, b0, S(), book, parent, child, |maps|)
    {
      ghost var u := usedBy;
      var i := 0;
      ok := true;
      while ok && i < |maps|
        invariant 0 <= i <= |maps| && nextPid == old(nextPid)
        invariant ok ==> Forking(s0, b0, S(), book, parent, child, i) && TookPages(u, usedBy, i)
        invariant !ok ==> Took(u, usedBy, false, 3 * |maps|)
      {
        ok := ForkMap(parent, child, maps, i, s0, b0, u);
        i := i + 1;
      }
    }

    /** fork_process, as far as address spaces go. The child has a number that no process has had. */
    method Fork(parent: nat) returns (ok: bool, child: nat)
      requires Valid() && parent in book.alive && parent in procs
      modifies this
      ensures nextPid == old(nextPid) + 1
      ensures Took(old(usedBy), usedBy, ok, 6 + 3 * |old(procs)[parent].maps|)
      ensures child == old(nextPid) && child !in old(procs) && child !in old(book.alive)
      ensures ok ==> Valid() && Forked(old(S()), old(book), S(), book, parent, child)
      ensures ok ==> KernelSeen(mem, procs, book.alive, kernelBasePd, kernelMallocPd)
    {
      ghost var s0, b0 := S(), book;
      assert ProcessOk(s0, b0, parent);
      ok, child := NewSpace();
      if !ok { return; }
      StartedForking(s0, b0, S(), book, parent, child);
      assert ProcessOk(S(), book, parent) && parent in book.alive;
      ok := ForkPages(parent, child, procs[parent].maps, s0, b0);
      if !ok { return; }
      ForkDone(s0, b0, S(), book, parent, child);
      StackedKept(s0, b0, S(), book, child);
      KernelIsSeen(S(), book, {});
    }

    /** free_page_for_program. */
    method FreePage(f: nat, id: nat)
      requires f < |usedBy| == |records| && usedBy[f] == 3 && Distinct(records[f]) && id in records[f]
      modifies `usedBy, `records
      ensures FreeCount(usedBy) >= FreeCount(old(usedBy))
      ensures DropRecord(old(S()), S(), f, id)
    {
      var r := records[f];
      if r[0] == id && |r| == 1 {
        FrameGivenBack(usedBy, f);
        usedBy := usedBy[f := 0];
      } else {
        assert r != [id];
        var r' := RemoveRecord(r, id);
        records := records[f := r'];
      }
    }

    /** An m_map of a live process that is no longer hung goes, with its record. */
    method DropListed(pid: nat, k: nat, ghost X: set<nat>)
      requires Inv(S(), book, X) && pid in book.alive && pid in procs && 0 < k < |procs[pid].maps|
      requires procs[pid].maps[k].kind == 2
      requires (pid, procs[pid].maps[k].page) in book.at ==> book.at[(pid, procs[pid].maps[k].page)] != procs[pid].maps[k].id
      modifies this
      ensures nextPid == old(nextPid)
      ensures FreeCount(usedBy) >= FreeCount(old(usedBy))
      ensures DropMap(old(S()), old(book), S(), book, X, old(procs[pid].maps[k].id))
    {
      ghost var s, b := S(), book;
      var curr := procs[pid].maps[k];
      assert ProcessOk(s, b, pid);
      assert ListedOk(b, pid, curr);
      assert MapOk(s, b, curr.id) && FrameOk(s, b, curr.frame);
      PageFrame(s, b, X, curr.id);
      FreePage(curr.frame, curr.id);
      MapRemoved(procs[pid].maps, k);
      procs := procs[pid := procs[pid].(maps := procs[pid].maps[..k] + procs[pid].maps[k + 1..])];
      book := book.(home := book.home - {curr.id}, held := book.held - {curr.id});
    }

    /** The handling of a write fault on m_map number k of the list. */
    method CopyOnWrite(pid: nat, vp: seq<nat>, k: nat) returns (ok: bool)
      requires Inv(S(), book, {}) && pid in book.alive && pid in procs && 0 < k < |procs[pid].maps| && UserPage(vp)
      requires procs[pid].maps[k].kind == 2 && procs[pid].maps[k].page == vp
      modifies this
      ensures nextPid == old(nextPid)
      ensures Took(old(usedBy), usedBy, ok, 4)
      ensures ok ==> Inv(S(), book, {}) && SameViews(old(S()), old(book), S())
      ensures ok ==> pid in procs && Walk(mem, procs[pid].cr3, vp, 0).rw
      ensures ok ==> OthersStay(old(book), book, pid, vp, old(procs[pid].maps[k].id))
    {
      ghost var s, b := S(), book;
      var curr := procs[pid].maps[k];
      ListedPage(s, b, pid, k);
      var m;
      ok, m := AddPage(pid, vp, true, 2, {});
      if !ok { return; }
      ghost var s1, b1 := S(), book;
      assert {} + Replaced(b, pid, vp) == {curr.id};
      PageFrame(s1, b1, {curr.id}, curr.id);
      CopyFrame(curr.frame, m, pid, vp, {curr.id}, s, b);
      ghost var s2 := S();
      DropListed(pid, k, {curr.id});
      CopyOnly(s, b, s1, s2, b1, S(), book, pid, vp, m, curr.id);
    }

    /** The memcpy of a write fault, from the shared frame f to the new frame of m. */
    method CopyFrame(f: nat, m: MMap, ghost pid: nat, ghost vp: seq<nat>, ghost X: set<nat>, ghost s: Sys, ghost b: Book)
      requires Inv(s, b, {}) && (pid, vp) in b.at && b.at[(pid, vp)] in b.home && b.home[b.at[(pid, vp)]].frame == f
      requires Inv(S(), book, X) && PagePlaced(s, b, S(), book, pid, vp, m) && f < |mem|
      modifies `mem
      ensures Inv(S(), book, X) && pid in procs && Walk(mem, procs[pid].cr3, vp, 0).rw == m.rw
      ensures forall q, w {:trigger View(S(), q, w)} :: q in b.alive && UserPage(w) ==> View(S(), q, w) == View(s, q, w)
    {
      ghost var s1 := S();
      mem := mem[m.frame := mem[f]];
      CopyMade(s, b, s1, book, S(), X, pid, vp, m, f);
    }

    /** check_and_handle_rw_page_fault. */
    method RwPageFault(pid: nat, vp: seq<nat>) returns (ok: bool, handled: bool)
      requires Valid() && pid in book.alive && pid in procs && UserPage(vp)
      modifies this
      ensures nextPid == old(nextPid)
      ensures Took(old(usedBy), usedBy, ok, 4)
      ensures handled <==> old((pid, vp) in book.at && book.at[(pid, vp)] in book.home && book.home[book.at[(pid, vp)]].kind == 2)
      ensures ok ==> Valid() && SameViews(old(S()), old(book), S()) && book.alive == old(book.alive)
      ensures ok && handled ==> pid in procs && Walk(mem, procs[pid].cr3, vp, 0).rw
      ensures !handled ==> ok && S() == old(S()) && book == old(book)
    {
      ghost var s, b := S(), book;
      assert ProcessOk(s, b, pid);
      var maps := procs[pid].maps;
      var k := 1;
      while k < |maps|
        invariant S() == s && book == b && maps == s.procs[pid].maps
        invariant 1 <= k <= |maps|
        invariant forall j :: 0 <= j < k ==> !(maps[j].kind == 2 && maps[j].page == vp)
      {
        var m := maps[k];
        if m.kind == 2 && m.page == vp {
          ListedPage(s, b, pid, k);
          assert MapOk(s, b, m.id);
          if m.rw {
            handled := true;
            ok := CopyOnWrite(pid, vp, k);
            if ok { StacksKept(b, book, pid, vp, m.id); }
            return;
          }
        }
        k := k + 1;
      }
      ok, handled := true, false;
      NotListed(s, b, pid, vp);
    }

    /** The frame of an m_map of a process without a space loses that record. */
    method DropLoose(pid: nat, m: MMap, ghost X: set<nat>)
      requires Inv(S(), book, X) && pid !in book.alive && ListedOk(book, pid, m)
      modifies this
      ensures nextPid == old(nextPid)
      ensures FreeCount(usedBy) >= FreeCount(old(usedBy))
      ensures DropMap(old(S()), old(book), S(), book, X, m.id) && Inv(S(), book, X)
      ensures Apart(old(S()), old(book), S(), book, pid) && book.alive == old(book.alive) && procs == old(procs)
    {
      ghost var s, b := S(), book;
      LeftoverLoose(s, b, X, pid, m);
      FreePage(m.frame, m.id);
      book := book.(home := book.home - {m.id}, held := book.held - {m.id});
      DropStep(s, b, S(), book, X, m.id);
      DropApart(s, b, S(), book, X, pid, m.id);
      InvWeaken(S(), book, X - {m.id}, X);
    }

    /** One turn of the loops that give pages back. */
    method FreeOne(pid: nat, m: MMap, ghost left: seq<MMap>, ghost kept: seq<MMap>, ghost rest: seq<MMap>, ghost left': seq<MMap>,
                   ghost X: set<nat>, ghost s0: Sys, ghost b0: Book)
      requires Freeing(s0, b0, S(), book, X, pid, left) && left == kept + [m] + rest && left' == kept + rest
      modifies this
      ensures nextPid == old(nextPid)
      ensures FreeCount(usedBy) >= FreeCount(old(usedBy))
      ensures Freeing(s0, b0, S(), book, X, pid, left')
    {
      ghost var s, b := S(), book;
      assert left[|kept|] == m;
      DropLoose(pid, m, X);
      LeftoverDrop(s, b, S(), book, X, pid, kept, m, rest);
      ApartTwice(s0, b0, s, b, S(), book, pid);
    }

    /** The loops of process_cleanup and replace_process that give the pages back. */
    method FreeMaps(pid: nat, maps: seq<MMap>, keepStack: bool, ghost X: set<nat>) returns (kept: seq<MMap>)
      requires Inv(S(), book, X) && Leftover(book, X, pid, maps)
      modifies this
      ensures nextPid == old(nextPid)
      ensures FreeCount(usedBy) >= FreeCount(old(usedBy))
      ensures Freeing(old(S()), old(book), S(), book, X, pid, kept) && kept == KeptMaps(maps, keepStack)
    {
      ghost var s0, b0, left := S(), book, maps;
      FreeingBegun(s0, b0, X, pid, maps);
      kept := [];
      var i := 0;
      while i < |maps|
        invariant 0 <= i <= |maps| && nextPid == old(nextPid)
        invariant KeptSoFar(maps, keepStack, i, kept, left)
        invariant Freeing(s0, b0, S(), book, X, pid, left)
        invariant FreeCount(usedBy) >= FreeCount(old(usedBy))
      {
        KeptNext(maps, keepStack, i, kept, left);
        if keepStack && maps[i].kind == 4 {
          kept := kept + [maps[i]];
        } else {
          FreeOne(pid, maps[i], left, kept, maps[i + 1..], kept + maps[i + 1..], X, s0, b0);
          left := kept + maps[i + 1..];
        }
        i := i + 1;
      }
      KeptAll(maps, keepStack, kept, left);
    }

    /** process_cleanup, as far as memory goes. */
    method Cleanup(pid: nat)
      requires Valid() && pid in book.alive && pid in procs
      modifies this
      ensures nextPid == old(nextPid)
      ensures FreeCount(usedBy) >= FreeCount(old(usedBy))
      ensures Valid() && book.alive == old(book.alive) - {pid}
      ensures Apart(old(S()), old(book), S(), book, pid)
      ensures forall id :: id in book.home && id in book.held ==> book.held[id] != pid
      ensures procs == old(procs)[pid := old(procs)[pid].(maps := [])]
    {
      ghost var s, b := S(), book;
      var maps := procs[pid].maps;
      book := Retired(book, pid);
      RetiredLeftover(s, b, pid);
      var kept := FreeMaps(pid, maps, false, Ids(maps));
      NothingKept(maps);
      CleanedUp(s, b, S(), book, pid, maps);
      ApartStacks(s, b, S(), book, pid);
      ghost var s1 := S();
      procs := procs[pid := procs[pid].(maps := [])];
      UnknownProcess(s1, book, S(), {}, pid, procs[pid]);
      ApartTwice(s, b, s1, book, S(), book, pid);
    }

    /** map_page_for_process for the kept rsp0 stack. */
    method MapStack(pid: nat, m: MMap, ghost X: set<nat>) returns (ok: bool)
      requires Inv(S(), book, X) && pid in book.alive && pid in procs && (pid, RSP0) !in book.at
      requires m.id in X && ListedOk(book, pid, m) && m.kind == 4 && m.page == RSP0
      modifies this
      ensures nextPid == old(nextPid)
      ensures Took(old(usedBy), usedBy, ok, 3)
      ensures ok ==> Inv(S(), book, X - {m.id}) && Grows(old(S()), old(book), S(), book, pid) && SameBut(old(S()), old(book), S(), pid, RSP0)
      ensures ok ==> m.frame < |old(mem)| && View(S(), pid, RSP0) == Mapped(old(mem)[m.frame]) && book.at == old(book.at)[(pid, RSP0) := m.id]
    {
      ghost var s, b := S(), book;
      assert MapOk(s, b, m.id);
      PageFrame(s, b, X, m.id);
      var leaf;
      ok, leaf := EnsurePath(pid, RSP0, X);
      if !ok { return; }
      ghost var s1, b1 := S(), book;
      var c := Cell(true, true, true, m.frame, mem[leaf][RSP0[3]].rest);
      mem := mem[leaf := mem[leaf][RSP0[3] := c]];
      book := book.(at := book.at[(pid, RSP0) := m.id]);
      StackHung(s, b, s1, b1, S(), book, X, pid, leaf, c, m);
    }

    /** add_page_for_process for a list of different pages that are not mapped yet. */
    method AddPages(pid: nat, pages: seq<seq<nat>>) returns (ok: bool)
      requires Inv(S(), book, {}) && pid in book.alive && pid in procs
      requires forall i :: 0 <= i < |pages| ==> UserPage(pages[i]) && (pid, pages[i]) !in book.at
      requires forall i, j :: 0 <= i < j < |pages| ==> pages[i] != pages[j]
      modifies this
      ensures nextPid == old(nextPid)
      ensures Took(old(usedBy), usedBy, ok, 4 * |pages|)
      ensures ok ==> Loaded(old(S()), old(book), S(), book, pid, pages)
    {
      ghost var s0, b0, u := S(), book, usedBy;
      LoadedNone(s0, b0, pid);
      var i := 0;
      ok := true;
      assert pages[..0] == [];
      while ok && i < |pages|
        invariant 0 <= i <= |pages| && nextPid == old(nextPid)
        invariant ok ==> Loaded(s0, b0, S(), book, pid, pages[..i]) && Took(u, usedBy, true, 4 * i)
        invariant !ok ==> Took(u, usedBy, false, 4 * |pages|)
      {
        ok := AddNext(pid, pages[i], pages[..i], s0, b0);
        assert pages[..i] + [pages[i]] == pages[..i + 1];
        i := i + 1;
      }
      assert pages[..|pages|] == pages;
    }

    method AddNext(pid: nat, vp: seq<nat>, ghost pages: seq<seq<nat>>, ghost s0: Sys, ghost b0: Book) returns (ok: bool)
      requires Loaded(s0, b0, S(), book, pid, pages) && pid in book.alive && UserPage(vp) && vp !in pages && (pid, vp) !in b0.at
      modifies this
      ensures nextPid == old(nextPid)
      ensures Took(old(usedBy), usedBy, ok, 4)
      ensures ok ==> Loaded(s0, b0, S(), book, pid, pages + [vp]) && pid in book.alive && book.alive == old(book.alive)
    {
      ghost var s, b := S(), book;
      var m;
      ok, m := AddPage(pid, vp, true, 2, {});
      if !ok { return; }
      assert {} + Replaced(b, pid, vp) == {};
      LoadedOne(s0, b0, s, b, S(), book, pid, pages, vp, m);
    }

    /** spawn_process, as far as address spaces go: an rsp0 stack, a stack page and the pages of the
        program's segments. The process has a number that no process has had. */
    method Spawn(pages: seq<seq<nat>>) returns (ok: bool, pid: nat)
      requires Valid() && RSP0 !in pages
      requires forall i :: 0 <= i < |pages| ==> UserPage(pages[i])
      requires forall i, j :: 0 <= i < j < |pages| ==> pages[i] != pages[j]
      modifies this
      ensures nextPid == old(nextPid) + 1
      ensures Took(old(usedBy), usedBy, ok, 6 + 4 * |pages|)
      ensures pid == old(nextPid) && pid !in old(procs) && pid !in old(book.alive)
      ensures ok ==> Valid() && Fresh(old(S()), old(book), S(), book, pid, Mapped(ZeroFrame()), pages)
      ensures ok ==> KernelSeen(mem, procs, book.alive, kernelBasePd, kernelMallocPd)
    {
      ghost var s0, b0 := S(), book;
      ok, pid := NewSpace();
      if !ok { return; }
      ghost var s1, b1 := S(), book;
      StartedFresh(s0, b0, s1, b1, pid);
      ok := AddPages(pid, pages);
      if !ok { return; }
      FreshLoaded(s0, b0, s1, b1, S(), book, pid, Mapped(ZeroFrame()), pages);
      BesideTwice(s0, b0, s1, b1, S(), book, pid);
      StackedKept(s0, b0, S(), book, pid);
      KernelIsSeen(S(), book, {});
    }

    /** replace_process's first loops: the process gives everything back but its rsp0 stack. */
    method Vacate(pid: nat) returns (m: MMap)
      requires Valid() && pid in book.alive && pid in procs
      modifies this
      ensures nextPid == old(nextPid)
      ensures FreeCount(usedBy) >= FreeCount(old(usedBy))
      ensures Inv(S(), book, {m.id}) && Leftover(book, {m.id}, pid, [m]) && Undisturbed(old(S()), old(book), S(), book, pid)
      ensures m.kind == 4 && m.page == RSP0 && m.frame < |mem| && View(old(S()), pid, RSP0) == Mapped(mem[m.frame])
      ensures pid in procs
    {
      ghost var s, b := S(), book;
      var maps := procs[pid].maps;
      assert Stacked(b, pid);
      book := Retired(book, pid);
      RetiredLeftover(s, b, pid);
      ghost var X := Ids(maps);
      var kept := FreeMaps(pid, maps, true, X);
      Vacated(s, b, S(), book, X, pid, kept);
      m := kept[0];
    }

    /** The empty space that replace_process then builds. */
    method Evacuate(pid: nat) returns (ok: bool, m: MMap)
      requires Valid() && pid in book.alive && pid in procs
      modifies this
      ensures nextPid == old(nextPid)
      ensures Took(old(usedBy), usedBy, ok, 2)
      ensures ok ==> Inv(S(), book, {m.id}) && pid in book.alive && pid in procs && Undisturbed(old(S()), old(book), S(), book, pid)
      ensures ok ==> ListedOk(book, pid, m) && m.kind == 4 && m.page == RSP0 && m.frame < |mem|
      ensures ok ==> View(old(S()), pid, RSP0) == Mapped(mem[m.frame])
      ensures ok ==> (pid, RSP0) !in book.at && forall w {:trigger View(S(), pid, w)} :: UserPage(w) ==> View(S(), pid, w) == Unmapped
    {
      ghost var s, b := S(), book;
      m := Vacate(pid);
      ghost var s1, b1 := S(), book;
      ok := BuildSpace(pid, [m], {m.id});
      if !ok { return; }
      BuiltUndisturbed(s1, b1, S(), book, {m.id}, pid, [m]);
      UndisturbedTwice(s, b, s1, b1, S(), book, pid);
      assert ListedOk(b1, pid, [m][0]);
      assert m.id in book.home && SamePage(s1, S(), m.frame);
    }

    /** replace_process up to the program's pages. */
    method Rebase(pid: nat) returns (ok: bool)
      requires Valid() && pid in book.alive && pid in procs
      modifies this
      ensures nextPid == old(nextPid)
      ensures Took(old(usedBy), usedBy, ok, 5)
      ensures ok ==> pid in procs && Fresh(old(S()), old(book), S(), book, pid, View(old(S()), pid, RSP0), [])
      ensures ok ==> forall q :: q in book.alive ==> Stacked(book, q)
    {
      ghost var s0, b0 := S(), book;
      var m;
      ok, m := Evacuate(pid);
      if !ok { return; }
      ghost var s2, b2 := S(), book;
      ok := MapStack(pid, m, {m.id});
      if !ok { return; }
      assert {m.id} - {m.id} == {};
      StackOnly(s0, b0, s2, b2, S(), book, pid, m, [m]);
      MappedUndisturbed(s2, b2, S(), book, pid, RSP0, m.id);
      UndisturbedTwice(s0, b0, s2, b2, S(), book, pid);
    }

    /** replace_process, as far as address spaces go. */
    method Replace(pid: nat, pages: seq<seq<nat>>) returns (ok: bool)
      requires Valid() && pid in book.alive && pid in procs && RSP0 !in pages
      requires forall i :: 0 <= i < |pages| ==> UserPage(pages[i])
      requires forall i, j :: 0 <= i < j < |pages| ==> pages[i] != pages[j]
      modifies this
      ensures nextPid == old(nextPid)
      ensures Took(old(usedBy), usedBy, ok, 5 + 4 * |pages|)
      ensures ok ==> Valid() && Fresh(old(S()), old(book), S(), book, pid, View(old(S()), pid, RSP0), pages)
      ensures ok ==> KernelSeen(mem, procs, book.alive, kernelBasePd, kernelMallocPd)
    {
      ghost var s0, b0 := S(), book;
      ok := Rebase(pid);
      if !ok { return; }
      ghost var s3, b3 := S(), book;
      NoPagesYet(s0, b0, s3, b3, pid, View(s0, pid, RSP0));
      ok := AddPages(pid, pages);
      if !ok { return; }
      FreshLoaded(s0, b0, s3, b3, S(), book, pid, View(s0, pid, RSP0), pages);
      LoadedStacks(s3, b3, S(), book, pid, pages);
      KernelIsSeen(S(), book, {});
    }

    /** add_page_for_process between two operations, on a page that is not mapped. */
    method GrowSpace(pid: nat, vp: seq<nat>) returns (ok: bool, frame: nat)
      requires Valid() && pid in book.alive && pid in procs && UserPage(vp) && (pid, vp) !in book.at
      modifies this
      ensures nextPid == old(nextPid)
      ensures Took(old(usedBy), usedBy, ok, 4)
      ensures ok ==> Valid() && book.alive == old(book.alive) && pid in procs
      ensures ok ==> var e := Walk(mem, procs[pid].cr3, vp, 0); e.p && e.rw && e.frame == frame && frame < |mem|
      ensures ok ==> View(S(), pid, vp) == Mapped(ZeroFrame()) && SameBut(old(S()), old(book), S(), pid, vp)
    {
      ghost var s, b := S(), book;
      assert Stacked(b, pid);
      var m;
      ok, m := AddPage(pid, vp, true, 2, {});
      frame := m.frame;
      if !ok { return; }
      assert {} + Replaced(b, pid, vp) == {};
      LoadedNone(s, b, pid);
      LoadedOne(s, b, s, b, S(), book, pid, [], vp, m);
      LoadedStacks(s, b, S(), book, pid, [] + [vp]);
      assert PageOk(S(), book, pid, vp);
    }

    /** The page-fault branch of the kernel task handler. The hardware raises error 7 for a write to a
        present page that is not writable and errors 4 and 6 for a page that is not present; user code
        may read every page that is present (FaultingPage), so there is no error 5. The stack grows if the
        address is not above its top and not more than 16 KB below rsp_current, in 64 bits. Unless
        Denied, user code may read and write the page afterwards; after Denied the process is signalled
        or terminated. */
    method PageFault(pid: nat, addr: nat, error: nat, heapStart: nat, heapBreak: nat, rspCurrent: nat)
      returns (ok: bool, outcome: FaultOutcome, rsp: nat)
      requires Valid() && pid in book.alive && pid in procs && UserPage(PageOf(addr))
      requires var e := Walk(mem, procs[pid].cr3, PageOf(addr), 0);
        if e.p then error == 7 && !e.rw else error == 4 || error == 6
      modifies this
      ensures nextPid == old(nextPid)
      ensures Took(old(usedBy), usedBy, ok, 4)
      ensures outcome == PageCopied <==> error == 7
      ensures outcome == GrownHeap <==> error != 7 && heapStart <= addr < heapBreak
      ensures outcome == GrownStack <==>
                (&& error != 7 && !(heapStart <= addr < heapBreak)
                 && addr <= 0xFFFF_FEFF_FFFF_F000 && (rspCurrent - 0x4000) % 0x1_0000_0000_0000_0000 <= addr)
      ensures rsp == if outcome == GrownStack then addr else rspCurrent
      ensures ok ==> Valid() && book.alive == old(book.alive) && pid in procs
      ensures ok && outcome != Denied ==> Permits(mem, procs[pid].cr3, PageOf(addr), 0, true)
      ensures ok && (outcome == GrownHeap || outcome == GrownStack) ==> View(S(), pid, PageOf(addr)) == Mapped(ZeroFrame())
      ensures ok ==> forall q, w {:trigger View(S(), q, w)} :: q in book.alive && UserPage(w) && View(old(S()), q, w).Mapped? ==>
                       View(S(), q, w) == View(old(S()), q, w)
      ensures ok ==> SameBut(old(S()), old(book), S(), pid, PageOf(addr)) || SameViews(old(S()), old(book), S())
      ensures outcome == Denied ==> ok && S() == old(S()) && book == old(book)
    {
      ghost var s, b := S(), book;
      var vp := PageOf(addr);
      rsp := rspCurrent;
      FaultingPage(s, b, pid, vp);
      var handled := false;
      ok := true;
      if error == 7 || error == 5 {
        ok, handled := RwPageFault(pid, vp);
      }
      if handled {
        outcome := PageCopied;
        if ok { assert ProcessOk(S(), book, pid); }
      } else if heapStart <= addr < heapBreak {
        outcome := GrownHeap;
        var frame;
        ok, frame := GrowSpace(pid, vp);
      } else if addr <= INITIAL_RSP && addr >= (rspCurrent - 0x4000) % 0x1_0000_0000_0000_0000 {
        outcome := GrownStack;
        var frame;
        ok, frame := GrowSpace(pid, vp);
        rsp := addr;
      } else {
        outcome := Denied;
      }
      if ok { FaultingPage(S(), book, pid, vp); }
    }

    /** A user-mode store to word i of a mapped page: if the entry is not writable, the write fault
        comes first. Memory behaves as if every process had pages of its own. */
    method Store(pid: nat, vp: seq<nat>, i: nat, c: Cell) returns (ok: bool)
      requires Valid() && pid in book.alive && pid in procs && UserPage(vp) && i < 512 && View(S(), pid, vp).Mapped?
      modifies this
      ensures nextPid == old(nextPid)
      ensures Took(old(usedBy), usedBy, ok, 4)
      ensures ok ==> Valid() && book.alive == old(book.alive)
      ensures ok ==> i < |View(old(S()), pid, vp).words| && View(S(), pid, vp) == Mapped(View(old(S()), pid, vp).words[i := c])
      ensures ok ==> forall q, w {:trigger View(S(), q, w)} :: q in book.alive && UserPage(w) && (q, w) != (pid, vp) ==>
                       View(S(), q, w) == View(old(S()), q, w)
    {
      ghost var s, b := S(), book;
      ok := true;
      WalkOfSteps(mem, procs[pid].cr3, vp);
      FaultingPage(s, b, pid, vp);
      if !Walk(mem, procs[pid].cr3, vp, 0).rw {
        var handled;
        ok, handled := RwPageFault(pid, vp);
        if !ok { return; }
        assert ProcessOk(S(), book, pid);
      }
      ghost var s1 := S();
      assert View(s1, pid, vp) == View(s, pid, vp);
      var f := Walk(mem, procs[pid].cr3, vp, 0).frame;
      assert f < |mem| && |mem[f]| == 512;
      mem := mem[f := mem[f][i := c]];
      WritesAreIsolated(s1, book, S(), {}, pid, vp, i, c);
    }
  }
}
