/** Four-level page tables in physical frames (sys/memory/phy_page.c, sys/thread/kthread.c) and the
    flat map they stand for. The format is that of section 5.3 of the AMD64 Architecture
    Programmer's Manual, Volume 2. */
module PageTables {

  /** A 64-bit word of a frame, in the fields of include/sys/memory/phy_page.h that matter here. */
  datatype Cell = Cell(p: bool, rw: bool, us: bool, frame: nat, rest: nat)

  const EMPTY := Cell(false, false, false, 0, 0)

  type Memory = seq<seq<Cell>>

  /** A virtual page: the four 9-bit indices of its address, the PML4 index first. */
  ghost predicate IsPage(vp: seq<nat>) {
    |vp| == 4 && forall k :: 0 <= k < 4 ==> vp[k] < 512
  }

  /** Pages below the kernel's two PML4 entries. */
  ghost predicate UserPage(vp: seq<nat>) {
    IsPage(vp) && vp[0] <= 509
  }

  function At(mem: Memory, t: nat, i: nat): Cell {
    if t < |mem| && i < |mem[t]| then mem[t][i] else EMPTY
  }

  /** The walk from table t at depth k: the last entry on the way to vp, or EMPTY if it is cut short. */
  function Walk(mem: Memory, t: nat, vp: seq<nat>, k: nat): Cell
    requires k < |vp| == 4
    decreases 4 - k
  {
    var e := At(mem, t, vp[k]);
    if k == 3 then e
    else if e.p then Walk(mem, e.frame, vp, k + 1)
    else EMPTY
  }

  /** Where a table frame hangs: in which process's space, by which indices. */
  datatype Place = Place(space: nat, path: seq<nat>)

  ghost predicate UserPath(path: seq<nat>) {
    |path| > 0 ==> path[0] <= 509
  }

  /** One table: it hangs where `owner` says, and so do all tables below it; what is below its entries is
      decided by the tables there, since the entries themselves let user code read and write. */
  ghost predicate Node(mem: Memory, owner: map<nat, Place>, t: nat) {
    && t in owner && t < |mem| && |mem[t]| == 512
    && |owner[t].path| <= 3
    && (|owner[t].path| < 3 ==>
          forall i: nat {:trigger mem[t][i]} :: i < 512 && mem[t][i].p && UserPath(owner[t].path + [i]) ==>
            Under(owner, owner[t], i, mem[t][i].frame) && mem[t][i].us && mem[t][i].rw)
  }

  ghost predicate Under(owner: map<nat, Place>, place: Place, i: nat, t: nat) {
    t in owner && owner[t] == Place(place.space, place.path + [i])
  }

  /** The tables form trees: no table is reached by two paths. */
  ghost predicate Trees(mem: Memory, owner: map<nat, Place>) {
    forall t {:trigger Node(mem, owner, t)} :: t in owner ==> Node(mem, owner, t)
  }

  /** mem' is mem with one word changed. */
  ghost predicate OneWord(mem: Memory, mem': Memory, T: nat, I: nat) {
    && |mem'| == |mem| && T < |mem| && |mem'[T]| == |mem[T]|
    && (forall f :: 0 <= f < |mem| && f != T ==> mem'[f] == mem[f])
    && (forall i :: 0 <= i < |mem[T]| && i != I ==> mem'[T][i] == mem[T][i])
  }

  /** The walk to vp in the given space passes through entry I of the table at this place. */
  ghost predicate Passes(place: Place, I: nat, space: nat, vp: seq<nat>) {
    place.space == space && place.path + [I] <= vp
  }

  /** A change of one word is seen only by walks that pass through it. */
  lemma {:induction false} WalkUnaffected(mem: Memory, owner: map<nat, Place>, t: nat, vp: seq<nat>, k: nat, mem': Memory, T: nat, I: nat)
    requires Trees(mem, owner) && UserPage(vp) && k < 4 && t in owner && owner[t].path == vp[..k]
    requires OneWord(mem, mem', T, I)
    requires T in owner ==> !Passes(owner[T], I, owner[t].space, vp)
    ensures Walk(mem', t, vp, k) == Walk(mem, t, vp, k)
    decreases 4 - k
  {
    assert Node(mem, owner, t);
    assert vp[..k] + [vp[k]] == vp[..k + 1];
    assert At(mem', t, vp[k]) == At(mem, t, vp[k]);
    var e := At(mem, t, vp[k]);
    if k < 3 && e.p {
      assert mem[t][vp[k]] == e;
      assert Under(owner, owner[t], vp[k], e.frame);
      WalkUnaffected(mem, owner, e.frame, vp, k + 1, mem', T, I);
    }
  }

  /** Frames that are no tables do not matter to any walk. */
  lemma {:induction false} WalkInTables(mem: Memory, owner: map<nat, Place>, t: nat, vp: seq<nat>, k: nat, mem': Memory)
    requires Trees(mem, owner) && UserPage(vp) && k < 4 && t in owner && owner[t].path == vp[..k]
    requires |mem'| == |mem| && forall f :: f in owner && f < |mem| ==> mem'[f] == mem[f]
    ensures Walk(mem', t, vp, k) == Walk(mem, t, vp, k)
    decreases 4 - k
  {
    assert Node(mem, owner, t);
    assert vp[..k] + [vp[k]] == vp[..k + 1];
    var e := At(mem, t, vp[k]);
    if k < 3 && e.p {
      assert mem[t][vp[k]] == e;
      assert Under(owner, owner[t], vp[k], e.frame);
      WalkInTables(mem, owner, e.frame, vp, k + 1, mem');
    }
  }

  lemma TreesInTables(mem: Memory, owner: map<nat, Place>, mem': Memory)
    requires Trees(mem, owner)
    requires |mem'| == |mem| && forall f :: f in owner && f < |mem| ==> mem'[f] == mem[f]
    ensures Trees(mem', owner)
  {
    forall t | t in owner
      ensures Node(mem', owner, t)
    {
      assert Node(mem, owner, t);
    }
  }

  /** A frame of 512 zero words. */
  function ZeroFrame(): (z: seq<Cell>)
    ensures |z| == 512 && forall i :: 0 <= i < 512 ==> z[i] == EMPTY
  {
    seq(512, _ => EMPTY)
  }

  /** A zeroed frame f, not a table so far, is hung under entry I of table T. */
  ghost predicate Attaching(mem: Memory, owner: map<nat, Place>, mem': Memory, owner': map<nat, Place>, T: nat, I: nat, f: nat) {
    && Trees(mem, owner) && T in owner && |owner[T].path| < 3 && I < 512 && T < |mem| && UserPath(owner[T].path + [I])
    && f !in owner && f < |mem| && mem[f] == ZeroFrame()
    && OneWord(mem, mem', T, I) && |mem[T]| == 512
    && !mem[T][I].p && mem'[T][I].p && mem'[T][I].us && mem'[T][I].rw && mem'[T][I].frame == f
    && owner' == owner[f := Place(owner[T].space, owner[T].path + [I])]
  }

  lemma AttachTrees(mem: Memory, owner: map<nat, Place>, mem': Memory, owner': map<nat, Place>, T: nat, I: nat, f: nat)
    requires Attaching(mem, owner, mem', owner', T, I, f)
    ensures Trees(mem', owner')
  {
    forall t | t in owner'
      ensures Node(mem', owner', t)
    {
      if t != f {
        assert Node(mem, owner, t);
        forall i: nat | i < 512 && mem'[t][i].p && UserPath(owner'[t].path + [i]) && |owner'[t].path| < 3
          ensures Under(owner', owner'[t], i, mem'[t][i].frame) && mem'[t][i].us && mem'[t][i].rw
        {
          if !(t == T && i == I) { assert mem[t][i] == mem'[t][i]; }
        }
      }
    }
  }

  /** A new, empty table changes no translation. */
  lemma {:induction false} AttachWalk(mem: Memory, owner: map<nat, Place>, mem': Memory, owner': map<nat, Place>, T: nat, I: nat, f: nat,
                    t: nat, vp: seq<nat>, k: nat)
    requires Attaching(mem, owner, mem', owner', T, I, f)
    requires UserPage(vp) && k < 4 && t in owner && owner[t].path == vp[..k]
    ensures Walk(mem', t, vp, k) == Walk(mem, t, vp, k)
    decreases 4 - k
  {
    assert Node(mem, owner, t);
    assert vp[..k] + [vp[k]] == vp[..k + 1];
    var e := At(mem, t, vp[k]);
    if t == T && vp[k] == I {
      assert Walk(mem', f, vp, k + 1) == EMPTY;
    } else {
      assert At(mem', t, vp[k]) == e;
      if k < 3 && e.p {
        assert mem[t][vp[k]] == e;
        assert Under(owner, owner[t], vp[k], e.frame);
        AttachWalk(mem, owner, mem', owner', T, I, f, e.frame, vp, k + 1);
      }
    }
  }

  /** A change in a table at the lowest level keeps the trees. */
  lemma LeafTrees(mem: Memory, owner: map<nat, Place>, mem': Memory, T: nat, I: nat)
    requires Trees(mem, owner) && T in owner && |owner[T].path| == 3 && OneWord(mem, mem', T, I)
    ensures Trees(mem', owner)
  {
    forall t | t in owner
      ensures Node(mem', owner, t)
    {
      assert Node(mem, owner, t);
    }
  }

  /** The tables on the way to vp are all there, the last one being `leaf`. */
  ghost predicate PathTo(mem: Memory, owner: map<nat, Place>, root: nat, vp: seq<nat>, leaf: nat) {
    && IsPage(vp) && root in owner && owner[root].path == [] && leaf in owner
    && owner[leaf] == Place(owner[root].space, vp[..3])
    && At(mem, root, vp[0]).p
    && At(mem, At(mem, root, vp[0]).frame, vp[1]).p
    && At(mem, At(mem, At(mem, root, vp[0]).frame, vp[1]).frame, vp[2]).p
    && At(mem, At(mem, At(mem, root, vp[0]).frame, vp[1]).frame, vp[2]).frame == leaf
  }

  lemma WalkAlong(mem: Memory, owner: map<nat, Place>, root: nat, vp: seq<nat>, leaf: nat)
    requires PathTo(mem, owner, root, vp, leaf)
    ensures Walk(mem, root, vp, 0) == At(mem, leaf, vp[3])
  {
  }

  lemma PathKept(mem: Memory, owner: map<nat, Place>, mem': Memory, root: nat, vp: seq<nat>, leaf: nat)
    requires Trees(mem, owner) && UserPage(vp) && PathTo(mem, owner, root, vp, leaf)
    requires OneWord(mem, mem', leaf, vp[3])
    ensures PathTo(mem', owner, root, vp, leaf)
  {
    assert Node(mem, owner, root);
    var t1 := mem[root][vp[0]].frame;
    assert Under(owner, owner[root], vp[0], t1) && Node(mem, owner, t1);
    var t2 := mem[t1][vp[1]].frame;
    assert Under(owner, owner[t1], vp[1], t2) && Node(mem, owner, t2);
  }

  /** Writing the last entry on the way to vp sets the translation of vp and of no other page. */
  lemma LeafWalk(mem: Memory, owner: map<nat, Place>, mem': Memory, root: nat, vp: seq<nat>, leaf: nat, r: nat, w: seq<nat>)
    requires Trees(mem, owner) && UserPage(vp) && PathTo(mem, owner, root, vp, leaf)
    requires OneWord(mem, mem', leaf, vp[3])
    requires UserPage(w) && r in owner && owner[r].path == []
    requires owner[r].space == owner[root].space ==> r == root
    ensures Walk(mem', r, w, 0) == if r == root && w == vp then At(mem', leaf, vp[3]) else Walk(mem, r, w, 0)
  {
    if r == root && w == vp {
      PathKept(mem, owner, mem', root, vp, leaf);
      WalkAlong(mem', owner, root, vp, leaf);
    } else {
      assert vp[..3] + [vp[3]] == vp;
      WalkUnaffected(mem, owner, r, w, 0, mem', leaf, vp[3]);
    }
  }

  function LeafTable(mem: Memory, root: nat, vp: seq<nat>): nat
    requires |vp| == 4
  {
    At(mem, At(mem, At(mem, root, vp[0]).frame, vp[1]).frame, vp[2]).frame
  }

  /** A page that translates has its tables in place. */
  lemma PathOfWalk(mem: Memory, owner: map<nat, Place>, root: nat, vp: seq<nat>)
    requires Trees(mem, owner) && UserPage(vp) && root in owner && owner[root].path == []
    requires Walk(mem, root, vp, 0).p
    ensures PathTo(mem, owner, root, vp, LeafTable(mem, root, vp))
    ensures LeafTable(mem, root, vp) < |mem| && |mem[LeafTable(mem, root, vp)]| == 512
    ensures Walk(mem, root, vp, 0) == mem[LeafTable(mem, root, vp)][vp[3]]
  {
    assert Node(mem, owner, root);
    assert mem[root][vp[0]].p;
    var t1 := mem[root][vp[0]].frame;
    assert Under(owner, owner[root], vp[0], t1) && Node(mem, owner, t1);
    assert mem[t1][vp[1]].p;
    var t2 := mem[t1][vp[1]].frame;
    assert Under(owner, owner[t1], vp[1], t2) && Node(mem, owner, t2);
    assert Walk(mem, t2, vp, 2) == Walk(mem, root, vp, 0);
    assert mem[t2][vp[2]].p;
    var t3 := mem[t2][vp[2]].frame;
    assert Under(owner, owner[t2], vp[2], t3) && Node(mem, owner, t3);
    assert [vp[0], vp[1], vp[2]] == vp[..3];
  }

  /** The four tests of translate_cr3 and set_pte_rw, one per level. */
  lemma WalkOfSteps(mem: Memory, root: nat, vp: seq<nat>)
    requires |vp| == 4
    ensures var pdp := At(mem, root, vp[0]);
            var pd := At(mem, pdp.frame, vp[1]);
            var pt := At(mem, pd.frame, vp[2]);
            Walk(mem, root, vp, 0) == if pdp.p && pd.p && pt.p then At(mem, pt.frame, vp[3]) else EMPTY
  {
  }

  // ----- What user code may do -----

  /** The hardware lets user code read vp, or write to it: every entry on the way is present, has its user
      bit and, for a write, its write bit. */
  ghost predicate Permits(mem: Memory, t: nat, vp: seq<nat>, k: nat, write: bool)
    requires k < |vp| == 4
    decreases 4 - k
  {
    var e := At(mem, t, vp[k]);
    e.p && e.us && (write ==> e.rw) && (k < 3 ==> Permits(mem, e.frame, vp, k + 1, write))
  }

  /** In a tree of user tables the last entry alone decides. */
  lemma {:induction false} LastEntryDecides(mem: Memory, owner: map<nat, Place>, t: nat, vp: seq<nat>, k: nat, write: bool)
    requires Trees(mem, owner) && UserPage(vp) && k < 4 && t in owner && owner[t].path == vp[..k]
    ensures Permits(mem, t, vp, k, write) <==> var e := Walk(mem, t, vp, k); e.p && e.us && (write ==> e.rw)
    decreases 4 - k
  {
    assert Node(mem, owner, t);
    assert vp[..k] + [vp[k]] == vp[..k + 1];
    var e := At(mem, t, vp[k]);
    if k < 3 && e.p {
      assert mem[t][vp[k]] == e;
      assert Under(owner, owner[t], vp[k], e.frame);
      LastEntryDecides(mem, owner, e.frame, vp, k + 1, write);
    }
  }

  // ----- Addresses -----

  /** The k lowest groups of nine bits of n, the highest first. */
  function Indices(n: nat, k: nat): (r: seq<nat>)
    ensures |r| == k && forall j :: 0 <= j < k ==> r[j] < 512
  {
    if k == 0 then [] else Indices(n / 512, k - 1) + [n % 512]
  }

  /** The page of a virtual address: its four 9-bit indices above the 12-bit offset. */
  function PageOf(va: nat): (vp: seq<nat>)
    ensures IsPage(vp)
  {
    Indices(va / 0x1000, 4)
  }

  /** The indices as the kernel extracts them: shifts by 39, 30, 21 and 12 bits. */
  lemma PageOfShifts(va: nat)
    ensures PageOf(va) == [va / 0x80_0000_0000 % 512, va / 0x4000_0000 % 512, va / 0x20_0000 % 512, va / 0x1000 % 512]
  {
    var n := va / 0x1000;
    Shifts(va);
    assert Indices(n / 512 / 512 / 512, 1) == [n / 512 / 512 / 512 % 512];
    assert Indices(n / 512 / 512, 2) == [n / 512 / 512 / 512 % 512, n / 512 / 512 % 512];
    assert Indices(n / 512, 3) == [n / 512 / 512 / 512 % 512, n / 512 / 512 % 512, n / 512 % 512];
  }

  /** The top gigabyte is behind entries 511 and 511, the one below it behind entries 511 and 510. */
  lemma KernelIndices(va: nat)
    ensures 0xFFFF_FFFF_C000_0000 <= va < 0x1_0000_0000_0000_0000 ==> PageOf(va)[0] == 511 && PageOf(va)[1] == 511
    ensures 0xFFFF_FFFF_8000_0000 <= va < 0xFFFF_FFFF_C000_0000 ==> PageOf(va)[0] == 511 && PageOf(va)[1] == 510
  {
    PageOfShifts(va);
    Shifts(va);
    var gigabyte := va / 0x4000_0000;
    assert 0xFFFF_FFFF_C000_0000 <= va < 0x1_0000_0000_0000_0000 ==> gigabyte == 0x3_FFFF_FFFF;
    assert 0xFFFF_FFFF_8000_0000 <= va < 0xFFFF_FFFF_C000_0000 ==> gigabyte == 0x3_FFFF_FFFE;
  }

  lemma Shifts(va: nat)
    ensures va / 0x1000 / 512 == va / 0x20_0000 && va / 0x20_0000 / 512 == va / 0x4000_0000
    ensures va / 0x4000_0000 / 512 == va / 0x80_0000_0000
  {
  }

  /** translate_cr3: the physical address behind a virtual one, or 0. */
  function TranslateCr3(mem: Memory, pml4: nat, va: nat): nat {
    var e := Walk(mem, pml4, PageOf(va), 0);
    if e.p then e.frame * 4096 + va % 4096 else 0
  }

  function Pow512(k: nat): (p: nat)
    ensures p > 0
  {
    if k == 0 then 1 else 512 * Pow512(k - 1)
  }

  lemma {:induction false} IndicesInjective(a: nat, b: nat, k: nat)
    requires a < Pow512(k) && b < Pow512(k)
    ensures Indices(a, k) == Indices(b, k) <==> a == b
  {
    if k > 0 {
      var x, y := Indices(a / 512, k - 1), Indices(b / 512, k - 1);
      IndicesInjective(a / 512, b / 512, k - 1);
      if Indices(a, k) == Indices(b, k) {
        assert x == Indices(a, k)[..k - 1] && y == Indices(b, k)[..k - 1];
        assert a % 512 == Indices(a, k)[k - 1] && b % 512 == Indices(b, k)[k - 1];
      }
    }
  }

  /** Within 48 bits, the four indices identify the 4096-byte page of an address. */
  lemma PageOfInjective(va: nat, vb: nat)
    requires va < 0x1_0000_0000_0000 && vb < 0x1_0000_0000_0000
    ensures PageOf(va) == PageOf(vb) <==> va / 0x1000 == vb / 0x1000
  {
    assert Pow512(2) == 512 * (512 * Pow512(0)) && Pow512(4) == 512 * (512 * Pow512(2));
    IndicesInjective(va / 0x1000, vb / 0x1000, 4);
  }
}
