/** Descriptor tables and the open counts of file table entries: sys_pipe, sys_dup and sys_close of
    sys/idt.c, and the descriptor loops of fork_process and process_cleanup. */
module Descriptors {
  import opened Bytes
  import opened Pipes

  const FD_SIZE := 16
  const EMFILE := 24
  const EBADF := 9

  /** One process of the process list. fds[i] is the file table entry behind descriptor i; 0 if the
      descriptor is closed. */
  datatype Proc = Proc(fds: seq<nat>, cleaned: bool, terminated: bool)

  /** A file table entry: the read end of a pipe holds the ring and the number of the write end it is
      filled from, the write end the number of the read end it goes to. Entry 0 stands for no entry. */
  datatype Entry = Nothing | ReadEnd(pipe: PipeEnd, inFrom: nat) | WriteEnd(outTo: nat)

  /** What sys_dup does: it returns a number, or it reads the word behind the end of open_fd. */
  datatype DupResult = Returned(ret: int) | OutsideTable

  /** How many of the descriptors are for entry e. */
  ghost function Count(fds: seq<nat>, e: nat): nat {
    if fds == [] then 0 else (if fds[0] == e then 1 else 0) + Count(fds[1..], e)
  }

  /** The descriptors for e of a process that has not been cleaned up. */
  ghost function Held(p: Proc, e: nat): nat {
    if p.cleaned then 0 else Count(p.fds, e)
  }

  /** The number of live descriptors for e. */
  ghost function Live(procs: seq<Proc>, e: nat): nat {
    if procs == [] then 0 else Held(procs[0], e) + Live(procs[1..], e)
  }

  lemma {:induction false} CountUpdate(fds: seq<nat>, k: nat, x: nat, e: nat)
    requires k < |fds|
    ensures Count(fds[k := x], e) == Count(fds, e) - (if fds[k] == e then 1 else 0) + (if x == e then 1 else 0)
  {
    if k == 0 {
      assert fds[0 := x][1..] == fds[1..];
    } else {
      assert fds[k := x][1..] == fds[1..][k - 1 := x];
      CountUpdate(fds[1..], k - 1, x, e);
    }
  }

  lemma {:induction false} CountNone(fds: seq<nat>, e: nat)
    ensures Count(fds, e) == 0 <==> e !in fds
  {
    if fds != [] { CountNone(fds[1..], e); }
  }

  lemma {:induction false} LiveUpdate(procs: seq<Proc>, i: nat, p: Proc, e: nat)
    requires i < |procs|
    ensures Live(procs[i := p], e) == Live(procs, e) - Held(procs[i], e) + Held(p, e)
  {
    if i == 0 {
      assert procs[0 := p][1..] == procs[1..];
    } else {
      assert procs[i := p][1..] == procs[1..][i - 1 := p];
      LiveUpdate(procs[1..], i - 1, p, e);
    }
  }

  lemma {:induction false} LiveRemove(procs: seq<Proc>, i: nat, e: nat)
    requires i < |procs|
    ensures Live(procs[..i] + procs[i + 1..], e) == Live(procs, e) - Held(procs[i], e)
  {
    if i == 0 {
      assert procs[..0] + procs[1..] == procs[1..];
    } else {
      assert (procs[..i] + procs[i + 1..])[1..] == procs[1..][..i - 1] + procs[1..][i..];
      LiveRemove(procs[1..], i - 1, e);
    }
  }

  lemma {:induction false} LiveAppend(procs: seq<Proc>, p: Proc, e: nat)
    ensures Live(procs + [p], e) == Live(procs, e) + Held(p, e)
  {
    if procs == [] {
      assert ([] + [p])[1..] == [];
    } else {
      assert (procs + [p])[1..] == procs[1..] + [p];
      LiveAppend(procs[1..], p, e);
    }
  }

  /** There is a live descriptor for e exactly if a process that is not cleaned up has one. */
  lemma {:induction false} LiveNone(procs: seq<Proc>, e: nat)
    ensures Live(procs, e) == 0 <==> Unheld(procs, e)
  {
    if procs != [] {
      CountNone(procs[0].fds, e);
      LiveNone(procs[1..], e);
      assert Unheld(procs, e) <==> (procs[0].cleaned || e !in procs[0].fds) && Unheld(procs[1..], e) by {
        assert forall i :: 0 <= i < |procs[1..]| ==> procs[1..][i] == procs[i + 1];
        assert forall i :: 1 <= i < |procs| ==> procs[i] == procs[1..][i - 1];
      }
    }
  }

  ghost predicate Unheld(procs: seq<Proc>, e: nat) {
    forall i :: 0 <= i < |procs| && !procs[i].cleaned ==> e !in procs[i].fds
  }

  ghost predicate ProcOk(n: nat, p: Proc) {
    |p.fds| == FD_SIZE && forall k :: 0 <= k < FD_SIZE ==> p.fds[k] < n
  }

  ghost predicate Entries(n: nat, procs: seq<Proc>) {
    forall i {:trigger procs[i]} :: 0 <= i < |procs| ==> ProcOk(n, procs[i])
  }

  /** Every open count is the number of live descriptors plus the references that no descriptor stands
      for: the kernel's own to its terminals, and those lost with processes that were reaped before
      they were cleaned up. */
  ghost predicate Balanced(counts: seq<int>, procs: seq<Proc>, lost: seq<nat>) {
    |lost| == |counts| && forall e {:trigger counts[e]} :: 1 <= e < |counts| ==> counts[e] == Live(procs, e) + lost[e]
  }

  /** counts with d added for entry e; entry 0 stands for no entry. */
  ghost function Adjust(counts: seq<int>, e: nat, d: int): (r: seq<int>)
    requires e < |counts|
    ensures |r| == |counts|
  {
    if e == 0 then counts else counts[e := counts[e] + d]
  }

  function SetSlot(procs: seq<Proc>, i: nat, k: nat, e: nat): (r: seq<Proc>)
    requires i < |procs| && k < |procs[i].fds|
    ensures |r| == |procs| && r[i].cleaned == procs[i].cleaned
  {
    procs[i := procs[i].(fds := procs[i].fds[k := e])]
  }

  /** One slot of a live table changes to entry e'. */
  lemma SlotChanged(counts: seq<int>, procs: seq<Proc>, lost: seq<nat>, i: nat, k: nat, e': nat)
    requires 1 <= |counts| && Balanced(counts, procs, lost) && Entries(|counts|, procs) && i < |procs| && !procs[i].cleaned
    requires k < FD_SIZE && e' < |counts|
    ensures k < |procs[i].fds| && procs[i].fds[k] < |counts|
    ensures Balanced(Adjust(Adjust(counts, procs[i].fds[k], -1), e', 1), SetSlot(procs, i, k, e'), lost)
    ensures Entries(|counts|, SetSlot(procs, i, k, e'))
  {
    var p' := procs[i].(fds := procs[i].fds[k := e']);
    assert ProcOk(|counts|, procs[i]);
    assert ProcOk(|counts|, p');
    var counts' := Adjust(Adjust(counts, procs[i].fds[k], -1), e', 1);
    forall e | 1 <= e < |counts|
      ensures counts'[e] == Live(SetSlot(procs, i, k, e'), e) + lost[e]
    {
      LiveUpdate(procs, i, p', e);
      CountUpdate(procs[i].fds, k, e', e);
      assert counts[e] == Live(procs, e) + lost[e];
    }
  }

  lemma {:induction false} LiveBound(procs: seq<Proc>, n: nat, e: nat)
    requires Entries(n, procs) && e >= n
    ensures Live(procs, e) == 0
  {
    forall i | 0 <= i < |procs| && !procs[i].cleaned
      ensures e !in procs[i].fds
    {
      assert ProcOk(n, procs[i]);
    }
    LiveNone(procs, e);
  }

  lemma EntriesAdded(counts: seq<int>, procs: seq<Proc>, lost: seq<nat>, d: nat)
    requires 1 <= |counts| && Balanced(counts, procs, lost) && Entries(|counts|, procs)
    ensures Balanced(counts + [d, d], procs, lost + [d, d]) && Entries(|counts| + 2, procs)
  {
    LiveBound(procs, |counts|, |counts|);
    LiveBound(procs, |counts|, |counts| + 1);
    forall i | 0 <= i < |procs|
      ensures ProcOk(|counts| + 2, procs[i])
    {
      assert ProcOk(|counts|, procs[i]);
    }
  }

  /** Two new entries with one descriptor each. */
  lemma PipeMade(counts: seq<int>, procs: seq<Proc>, lost: seq<nat>, i: nat, k: nat, l: nat)
    requires 1 <= |counts| && Balanced(counts, procs, lost) && Entries(|counts|, procs) && i < |procs| && !procs[i].cleaned
    requires k < FD_SIZE && l < FD_SIZE && k != l && |procs[i].fds| == FD_SIZE && procs[i].fds[k] == 0 && procs[i].fds[l] == 0
    ensures var procs' := SetSlot(SetSlot(procs, i, k, |counts|), i, l, |counts| + 1);
            Balanced(counts + [1, 1], procs', lost + [0, 0]) && Entries(|counts| + 2, procs')
  {
    var e, c1 := |counts|, counts + [0, 0];
    EntriesAdded(counts, procs, lost, 0);
    SlotChanged(c1, procs, lost + [0, 0], i, k, e);
    SlotChanged(c1[e := 1], SetSlot(procs, i, k, e), lost + [0, 0], i, l, e + 1);
    assert c1[e := 1][e + 1 := 1] == counts + [1, 1];
  }

  /** A process without descriptors joins the list. */
  lemma ChildBegun(counts: seq<int>, procs: seq<Proc>, lost: seq<nat>, child: Proc)
    requires 1 <= |counts| && Balanced(counts, procs, lost) && Entries(|counts|, procs)
    requires |child.fds| == FD_SIZE && forall k :: 0 <= k < FD_SIZE ==> child.fds[k] == 0
    ensures Balanced(counts, procs + [child], lost) && Entries(|counts|, procs + [child])
  {
    forall e | 1 <= e < |counts|
      ensures Live(procs + [child], e) == Live(procs, e)
    {
      LiveAppend(procs, child, e);
      CountNone(child.fds, e);
    }
  }

  /** A process with the first three descriptors open joins the list. */
  lemma ProcessStarted(counts: seq<int>, procs: seq<Proc>, lost: seq<nat>, stdin: nat, stdout: nat)
    requires Balanced(counts, procs, lost) && Entries(|counts|, procs) && 1 <= stdin < |counts| && 1 <= stdout < |counts|
    ensures var procs' := procs + [Proc([stdin, stdout, stdout] + seq(FD_SIZE - 3, _ => 0), false, false)];
            Balanced(Adjust(Adjust(counts, stdin, 1), stdout, 2), procs', lost) && Entries(|counts|, procs')
  {
    var n, none := |procs|, Proc(seq(FD_SIZE, _ => 0), false, false);
    ChildBegun(counts, procs, lost, none);
    var l0 := procs + [none];
    SlotChanged(counts, l0, lost, n, 0, stdin);
    var l1, c1 := SetSlot(l0, n, 0, stdin), Adjust(counts, stdin, 1);
    SlotChanged(c1, l1, lost, n, 1, stdout);
    var l2, c2 := SetSlot(l1, n, 1, stdout), Adjust(c1, stdout, 1);
    SlotChanged(c2, l2, lost, n, 2, stdout);
    var l3 := SetSlot(l2, n, 2, stdout);
    assert l3[n].fds == [stdin, stdout, stdout] + seq(FD_SIZE - 3, _ => 0);
    assert l3 == procs + [l3[n]];
    assert Adjust(c2, stdout, 1) == Adjust(c1, stdout, 2);
  }

  /** A table without open descriptors counts as little as that of a process cleaned up. */
  lemma Cleaned(counts: seq<int>, procs: seq<Proc>, lost: seq<nat>, i: nat, left: Proc)
    requires i < |procs| && Balanced(counts, procs[i := left], lost)
    requires |left.fds| == FD_SIZE && forall k :: 0 <= k < FD_SIZE ==> left.fds[k] == 0
    ensures Balanced(counts, procs[i := procs[i].(cleaned := true)], lost)
  {
    var procs' := procs[i := procs[i].(cleaned := true)];
    forall e | 1 <= e < |counts|
      ensures counts[e] == Live(procs', e) + lost[e]
    {
      LiveUpdate(procs, i, left, e);
      LiveUpdate(procs, i, procs[i].(cleaned := true), e);
      CountNone(left.fds, e);
    }
  }

  lemma ExitKeeps(counts: seq<int>, procs: seq<Proc>, lost: seq<nat>, i: nat)
    requires i < |procs| && Balanced(counts, procs, lost)
    ensures Balanced(counts, procs[i := procs[i].(terminated := true)], lost)
  {
    forall e | 1 <= e < |counts|
      ensures Live(procs[i := procs[i].(terminated := true)], e) == Live(procs, e)
    {
      LiveUpdate(procs, i, procs[i].(terminated := true), e);
    }
  }

  ghost function LostWith(lost: seq<nat>, gone: seq<Proc>): (r: seq<nat>)
    ensures |r| == |lost| && forall e :: 0 <= e < |lost| ==> r[e] == lost[e] + Live(gone, e)
  {
    seq(|lost|, e requires 0 <= e < |lost| => lost[e] + Live(gone, e))
  }

  lemma Reaped(counts: seq<int>, procs: seq<Proc>, lost: seq<nat>, i: nat, lost': seq<nat>)
    requires Balanced(counts, procs, lost) && i < |procs| && |lost'| == |lost|
    requires forall e :: 1 <= e < |lost| ==> lost'[e] == lost[e] + Live([procs[i]], e)
    ensures Balanced(counts, procs[..i] + procs[i + 1..], lost')
  {
    forall e | 1 <= e < |counts|
      ensures counts[e] == Live(procs[..i] + procs[i + 1..], e) + lost'[e]
    {
      LiveRemove(procs, i, e);
      assert Live([procs[i]], e) == Held(procs[i], e) + Live([], e);
    }
  }

  /** The entries at r and w are the two ends of one pipe. */
  ghost predicate Joined(entries: seq<Entry>, r: nat, w: nat) {
    r < |entries| && w < |entries| && entries[r].ReadEnd? && entries[r].inFrom == w && entries[w] == WriteEnd(r)
  }

  /** Ends come in pairs, and every pair has a ring of its own. */
  ghost predicate Paired(entries: seq<Entry>) {
    && 0 < |entries| && entries[0] == Nothing
    && (forall e {:trigger entries[e]} :: 0 <= e < |entries| && entries[e].ReadEnd? ==> Joined(entries, e, entries[e].inFrom))
    && (forall e {:trigger entries[e]} :: 0 <= e < |entries| && entries[e].WriteEnd? ==> Joined(entries, entries[e].outTo, e))
    && (forall e, e' {:trigger entries[e], entries[e']} :: 0 <= e < e' < |entries| && entries[e].ReadEnd? && entries[e'].ReadEnd? ==>
          entries[e].pipe != entries[e'].pipe && entries[e].pipe.buffer != entries[e'].pipe.buffer)
  }

  /** A new pair at the end of the table. */
  ghost predicate PairAdded(entries: seq<Entry>, entries': seq<Entry>) {
    && |entries'| == |entries| + 2 && entries == entries'[..|entries|]
    && Joined(entries', |entries|, |entries| + 1)
  }

  class FileTable {
    var entries: seq<Entry>
    var counts: seq<int>
    var procs: seq<Proc>
    ghost var lost: seq<nat>

    ghost predicate Valid()
      reads this, Rings()
    {
      1 <= |counts| && Entries(|counts|, procs) && Balanced(counts, procs, lost) && Piped()
    }

    /** The pipes behind the entries. */
    ghost function Rings(): set<object>
      reads `entries
    {
      (set e | 0 <= e < |entries| && entries[e].ReadEnd? :: entries[e].pipe as object) +
      (set e | 0 <= e < |entries| && entries[e].ReadEnd? :: entries[e].pipe.buffer as object)
    }

    ghost predicate Piped()
      reads this, Rings()
    {
      && |entries| == |counts| && Paired(entries)
      && forall e {:trigger entries[e]} :: 0 <= e < |entries| && entries[e].ReadEnd? ==> entries[e].pipe.Valid()
    }

    constructor ()
      ensures Valid() && procs == [] && counts == [0] && lost == [0] && entries == [Nothing]
    {
      entries, counts, procs, lost := [Nothing], [0], [], [0];
    }

    /** generate_entry_pair. */
    method NewPair()
      requires Piped()
      modifies `entries, `counts
      ensures Piped() && PairAdded(old(entries), entries) && counts == old(counts) + [1, 1]
      ensures fresh(entries[|old(entries)|].pipe) && fresh(entries[|old(entries)|].pipe.buffer)
      ensures entries[|old(entries)|].pipe.Unused()
    {
      var n := |entries|;
      var pipe := new PipeEnd();
      entries := entries + [ReadEnd(pipe, n + 1), WriteEnd(n)];
      counts := counts + [1, 1];
    }

    /** The entry pair of a terminal, which the kernel keeps for itself. */
    method NewTerminal() returns (readEnd: nat, writeEnd: nat)
      requires Valid()
      modifies this
      ensures Valid() && procs == old(procs) && counts == old(counts) + [1, 1] && lost == old(lost) + [1, 1]
      ensures readEnd == |old(counts)| && writeEnd == readEnd + 1 && PairAdded(old(entries), entries)
    {
      readEnd, writeEnd := |counts|, |counts| + 1;
      EntriesAdded(counts, procs, lost, 1);
      NewPair();
      lost := lost + [1, 1];
    }

    /** The descriptors of spawn_process: 0 for the terminal's input, 1 and 2 for its output. */
    method Spawn(stdin: nat, stdout: nat)
      requires Valid() && 1 <= stdin < |counts| && 1 <= stdout < |counts|
      modifies `counts, `procs
      ensures Valid() && lost == old(lost)
      ensures procs == old(procs) + [Proc([stdin, stdout, stdout] + seq(FD_SIZE - 3, _ => 0), false, false)]
      ensures counts == Adjust(Adjust(old(counts), stdin, 1), stdout, 2)
    {
      ProcessStarted(counts, procs, lost, stdin, stdout);
      counts := counts[stdin := counts[stdin] + 1];
      counts := counts[stdout := counts[stdout] + 2];
      procs := procs + [Proc([stdin, stdout, stdout] + seq(FD_SIZE - 3, _ => 0), false, false)];
    }

    /** sys_close and, with file_close, the first half of sys_dup. */
    method Close(i: nat, fd: nat) returns (ret: int)
      requires Valid() && i < |procs| && !procs[i].cleaned
      modifies `counts, `procs
      ensures Valid()
      ensures ret == if fd >= FD_SIZE then -EMFILE else 0
      ensures fd >= FD_SIZE ==> procs == old(procs) && counts == old(counts)
      ensures fd < FD_SIZE ==> procs == SetSlot(old(procs), i, fd, 0)
      ensures fd < FD_SIZE ==> counts == Adjust(old(counts), old(procs)[i].fds[fd], -1)
    {
      if fd >= FD_SIZE { return -EMFILE; }
      var e := procs[i].fds[fd];
      SlotChanged(counts, procs, lost, i, fd, 0);
      if e != 0 {
        counts := counts[e := counts[e] - 1];
        procs := SetSlot(procs, i, fd, 0);
      } else {
        assert procs[i].fds[fd := 0] == procs[i].fds;
        assert SetSlot(procs, i, fd, 0) == procs;
      }
      return 0;
    }

    /** sys_dup. The test of the numbers lets FD_SIZE through, which is no index of the table. newfd is
        closed first, so that oldfd == newfd closes the descriptor and fails. */
    method Dup(i: nat, oldfd: nat, newfd: nat) returns (r: DupResult)
      requires Valid() && i < |procs| && !procs[i].cleaned
      modifies `counts, `procs
      ensures Valid()
      ensures r.OutsideTable? <==> oldfd <= FD_SIZE && newfd <= FD_SIZE && (oldfd == FD_SIZE || newfd == FD_SIZE)
      ensures oldfd < FD_SIZE && newfd < FD_SIZE ==> r == Returned(if oldfd != newfd && old(procs)[i].fds[oldfd] != 0 then 0 else -1)
      ensures oldfd > FD_SIZE || newfd > FD_SIZE ==> r == Returned(-1)
      ensures oldfd > FD_SIZE || newfd >= FD_SIZE ==> procs == old(procs) && counts == old(counts)
      ensures oldfd <= FD_SIZE && newfd < FD_SIZE ==>
                var e := if oldfd == newfd || oldfd == FD_SIZE then 0 else old(procs)[i].fds[oldfd];
                && procs == SetSlot(old(procs), i, newfd, e)
                && counts == Adjust(Adjust(old(counts), old(procs)[i].fds[newfd], -1), e, 1)
    {
      if oldfd > FD_SIZE || newfd > FD_SIZE { return Returned(-1); }
      if newfd == FD_SIZE { return OutsideTable; }
      var _ := Close(i, newfd);
      if oldfd == FD_SIZE { return OutsideTable; }
      var e := procs[i].fds[oldfd];
      if e == 0 { return Returned(-1); }
      SlotChanged(counts, procs, lost, i, newfd, e);
      counts := counts[e := counts[e] + 1];
      assert procs[i].fds[newfd := e] == old(procs)[i].fds[newfd := e];
      procs := SetSlot(procs, i, newfd, e);
      return Returned(0);
    }

    /** The first closed descriptor other than `except`. */
    method FreeSlot(i: nat, except: nat) returns (k: nat)
      requires i < |procs| && |procs[i].fds| == FD_SIZE && except <= FD_SIZE
      ensures k <= FD_SIZE && (k < FD_SIZE ==> procs[i].fds[k] == 0 && k != except)
      ensures forall j :: 0 <= j < k && j != except ==> procs[i].fds[j] != 0
    {
      k := 0;
      while k < FD_SIZE && (procs[i].fds[k] != 0 || k == except)
        invariant k <= FD_SIZE && forall j :: 0 <= j < k && j != except ==> procs[i].fds[j] != 0
      {
        k := k + 1;
      }
    }

    /** The two first closed descriptors, if there are two. */
    method TwoFree(i: nat) returns (outfd: nat, infd: nat)
      requires i < |procs| && |procs[i].fds| == FD_SIZE
      ensures infd <= FD_SIZE && (infd < FD_SIZE ==> outfd < infd && procs[i].fds[outfd] == 0 == procs[i].fds[infd])
      ensures infd < FD_SIZE ==> forall k :: 0 <= k < infd && k != outfd ==> procs[i].fds[k] != 0
      ensures infd == FD_SIZE <==> forall j, k :: 0 <= j < k < FD_SIZE ==> procs[i].fds[j] != 0 || procs[i].fds[k] != 0
    {
      infd := FD_SIZE;
      outfd := FreeSlot(i, FD_SIZE);
      if outfd < FD_SIZE { infd := FreeSlot(i, outfd); }
    }

    /** sys_pipe: two new entries, each behind a descriptor of its own. */
    method Pipe(i: nat) returns (ret: int, outfd: nat, infd: nat)
      requires Valid() && i < |procs| && !procs[i].cleaned
      modifies this
      ensures Valid() && lost == if ret == 0 then old(lost) + [0, 0] else old(lost)
      ensures if ret == 0 then PairAdded(old(entries), entries) && entries[|old(entries)|].pipe.Unused() else entries == old(entries)
      ensures ret == 0 ==> fresh(entries[|old(entries)|].pipe) && fresh(entries[|old(entries)|].pipe.buffer)
      ensures ret == 0 || ret == -EMFILE
      ensures ret == -EMFILE ==> procs == old(procs) && counts == old(counts)
      ensures ret == -EMFILE <==> forall j, k :: 0 <= j < k < FD_SIZE ==> old(procs)[i].fds[j] != 0 || old(procs)[i].fds[k] != 0
      ensures ret == 0 ==> outfd < infd < FD_SIZE && old(procs)[i].fds[outfd] == 0 == old(procs)[i].fds[infd]
      ensures ret == 0 ==> forall k :: 0 <= k < infd && k != outfd ==> old(procs)[i].fds[k] != 0
      ensures ret == 0 ==> counts == old(counts) + [1, 1]
      ensures ret == 0 ==> procs == SetSlot(SetSlot(old(procs), i, outfd, |old(counts)|), i, infd, |old(counts)| + 1)
    {
      outfd, infd := TwoFree(i);
      if infd == FD_SIZE { return -EMFILE, outfd, infd; }
      var e := |counts|;
      PipeMade(counts, procs, lost, i, outfd, infd);
      NewPair();
      procs := SetSlot(SetSlot(procs, i, outfd, e), i, infd, e + 1);
      lost := lost + [0, 0];
      ret := 0;
    }

    /** The descriptors of fork_process: the child gets a copy of each. */
    method Fork(i: nat)
      requires Valid() && i < |procs| && !procs[i].cleaned
      modifies `counts, `procs
      ensures Valid() && procs == old(procs) + [Proc(old(procs)[i].fds, false, false)]
      ensures |counts| == |old(counts)| && forall e :: 1 <= e < |counts| ==> counts[e] == old(counts)[e] + Count(old(procs)[i].fds, e)
      ensures |counts| > 0 && counts[0] == old(counts)[0]
    {
      var parent, child := procs[i], Proc(seq(FD_SIZE, _ => 0), false, false);
      ChildBegun(counts, procs, lost, child);
      var k := 0;
      while k < FD_SIZE
        invariant k <= FD_SIZE && procs == old(procs) && |counts| == |old(counts)| && |counts| > 0 && counts[0] == old(counts)[0]
        invariant Balanced(counts, procs + [child], lost) && Entries(|counts|, procs + [child]) && child == Proc(child.fds, false, false) && |child.fds| == FD_SIZE
        invariant forall j :: 0 <= j < FD_SIZE ==> child.fds[j] == if j < k then parent.fds[j] else 0
      {
        assert ProcOk(|counts|, parent);
        var e := parent.fds[k];
        SlotChanged(counts, procs + [child], lost, |procs|, k, e);
        assert SetSlot(procs + [child], |procs|, k, e) == procs + [child.(fds := child.fds[k := e])];
        if e != 0 {
          counts := counts[e := counts[e] + 1];
          child := child.(fds := child.fds[k := e]);
        } else {
          assert child.fds[k := 0] == child.fds;
        }
        k := k + 1;
      }
      assert child.fds == parent.fds;
      forall e | 1 <= e < |counts|
        ensures counts[e] == old(counts)[e] + Count(parent.fds, e)
      {
        LiveAppend(procs, child, e);
        assert old(counts)[e] == Live(procs, e) + lost[e];
      }
      procs := procs + [child];
    }

    /** The descriptors of process_cleanup: all are closed, though the table keeps its pointers. */
    method Cleanup(i: nat)
      requires Valid() && i < |procs| && !procs[i].cleaned
      modifies `counts, `procs
      ensures Valid() && procs == old(procs)[i := old(procs)[i].(cleaned := true)]
      ensures |counts| == |old(counts)| && forall e :: 1 <= e < |counts| ==> counts[e] == old(counts)[e] - Count(old(procs)[i].fds, e)
      ensures |counts| > 0 && counts[0] == old(counts)[0]
    {
      var k := 0;
      ghost var open := procs;
      while k < FD_SIZE
        invariant k <= FD_SIZE && procs == old(procs) && |counts| == |old(counts)| && |counts| > 0 && counts[0] == old(counts)[0] && |open| == |procs|
        invariant open == procs[i := open[i]] && !open[i].cleaned && |open[i].fds| == FD_SIZE
        invariant Balanced(counts, open, lost) && Entries(|counts|, open)
        invariant forall j :: 0 <= j < FD_SIZE ==> open[i].fds[j] == if j < k then 0 else procs[i].fds[j]
      {
        assert ProcOk(|counts|, procs[i]);
        var e := procs[i].fds[k];
        SlotChanged(counts, open, lost, i, k, 0);
        open := SetSlot(open, i, k, 0);
        if e != 0 { counts := counts[e := counts[e] - 1]; }
        k := k + 1;
      }
      Cleaned(counts, procs, lost, i, open[i]);
      forall e | 1 <= e < |counts|
        ensures counts[e] == old(counts)[e] - Count(procs[i].fds, e)
      {
        LiveUpdate(procs, i, procs[i].(cleaned := true), e);
        assert old(counts)[e] == Live(procs, e) + lost[e];
      }
      assert ProcOk(|counts|, procs[i]);
      procs := procs[i := procs[i].(cleaned := true)];
    }

    /** sys_exit: the descriptors stay open until the process is cleaned up. */
    method Exit(i: nat)
      requires Valid() && i < |procs| && !procs[i].cleaned
      modifies `procs
      ensures Valid() && procs == old(procs)[i := old(procs)[i].(terminated := true)]
    {
      assert ProcOk(|counts|, procs[i]);
      ExitKeeps(counts, procs, lost, i);
      procs := procs[i := procs[i].(terminated := true)];
    }

    /** sys_wait takes a terminated process off the list, and the whole list if it is the first one.
        Descriptors of processes that leave without a cleanup stay counted for good. */
    method Reap(i: nat)
      requires Valid() && i < |procs| && procs[i].terminated
      modifies `procs, `lost
      ensures Valid() && procs == if i == 0 then [] else old(procs)[..i] + old(procs)[i + 1..]
      ensures |lost| == |old(lost)|
      ensures forall e :: 1 <= e < |lost| ==> lost[e] == old(lost)[e] + if i == 0 then Live(old(procs), e) else Held(old(procs)[i], e)
    {
      ghost var gone := if i == 0 then procs else [procs[i]];
      ghost var lost' := LostWith(lost, gone);
      if i == 0 {
        procs := [];
      } else {
        Reaped(counts, procs, lost, i, lost');
        procs := procs[..i] + procs[i + 1..];
      }
      lost := lost';
    }

    /** The ring that a read or a write through descriptor fd works on. */
    ghost function Ring(i: nat, fd: nat): (pipes: set<object>)
      reads `entries, `procs
      ensures pipes <= Rings()
    {
      if i < |procs| && fd < |procs[i].fds| && procs[i].fds[fd] < |entries| then
        var f := entries[procs[i].fds[fd]];
        if f.ReadEnd? then {f.pipe, f.pipe.buffer}
        else if f.WriteEnd? && f.outTo < |entries| && entries[f.outTo].ReadEnd? then
          {entries[f.outTo].pipe, entries[f.outTo].pipe.buffer}
        else {}
      else {}
    }

    /** One turn of sys_read on a pipe. -1 is end of file: every process has closed the write end of
        this pipe, and everything written to it has been read. */
    method Read(i: nat, fd: nat, size: nat) returns (r: int, out: seq<bv8>)
      requires Valid() && i < |procs| && !procs[i].cleaned
      modifies Ring(i, fd)
      ensures Valid()
      ensures r == -EMFILE <==> fd >= FD_SIZE
      ensures r == -EBADF <==> fd < FD_SIZE && !entries[procs[i].fds[fd]].ReadEnd?
      ensures r == -EMFILE || r == -EBADF ==> unchanged(Ring(i, fd))
      ensures fd < FD_SIZE && entries[procs[i].fds[fd]].ReadEnd? ==>
                var pipe, w := entries[procs[i].fds[fd]].pipe, entries[procs[i].fds[fd]].inFrom;
                && (r == -1 <==> Unheld(procs, w) && lost[w] == 0 && pipe.p != 0 && old(pipe.Contents()) == [])
                && (r == -1 && !pipe.overrun ==> pipe.accepted == pipe.delivered == old(pipe.delivered))
                && (r != -1 ==> r == |out| && pipe.delivered == old(pipe.delivered) + out)
                && (r != -1 ==> (FifoRead(old(pipe.Contents()), size, out, pipe.Contents()) <==> pipe.p != 0 || size <= |old(pipe.Contents())|))
                && (pipe.overrun <==> old(pipe.overrun) || (r != -1 && pipe.p == 0 && size > |old(pipe.Contents())|))
                && pipe.p == old(pipe.p)
    {
      if fd >= FD_SIZE { return -EMFILE, []; }
      var f := entries[procs[i].fds[fd]];
      if !f.ReadEnd? { return -EBADF, []; }
      LiveNone(procs, f.inFrom);
      r, out := f.pipe.Read(counts[f.inFrom], size);
    }

    /** sys_write on a pipe: the bytes join the ring of the read end. */
    method Write(i: nat, fd: nat, data: seq<bv8>, onHold: set<nat>) returns (r: int, onHold': set<nat>)
      requires Valid() && i < |procs| && !procs[i].cleaned
      modifies Ring(i, fd)
      ensures Valid()
      ensures r == -EMFILE <==> fd >= FD_SIZE
      ensures r == -EBADF <==> fd < FD_SIZE && !entries[procs[i].fds[fd]].WriteEnd?
      ensures r == -EMFILE || r == -EBADF ==> unchanged(Ring(i, fd)) && onHold' == onHold
      ensures fd < FD_SIZE && entries[procs[i].fds[fd]].WriteEnd? ==>
                var pipe := entries[entries[procs[i].fds[fd]].outTo].pipe;
                && r == Min(|data|, SIZE - 1 - |old(pipe.Contents())|)
                && pipe.Contents() == old(pipe.Contents()) + data[..r] && pipe.c == old(pipe.c)
                && pipe.accepted == old(pipe.accepted) + data[..r]
                && onHold' == if r == |data| then onHold - (set w | w in old(pipe.waiters)) else onHold
    {
      onHold' := onHold;
      if fd >= FD_SIZE { return -EMFILE, onHold'; }
      var f := entries[procs[i].fds[fd]];
      if !f.WriteEnd? { return -EBADF, onHold'; }
      r, onHold' := entries[f.outTo].pipe.Write(data, onHold);
    }
  }

  /** A child that terminates and is waited for before it is cleaned up: the terminal's output stays
      counted twice more than there are descriptors and references of the kernel for it. */
  method LostDescriptors() returns (files: FileTable, out: nat)
    ensures files.Valid() && |files.procs| == 1 && 1 <= out < |files.counts|
    ensures files.counts[out] == Live(files.procs, out) + 3
  {
    files := new FileTable();
    var stdin, stdout := files.NewTerminal();
    out := stdout;
    files.Spawn(stdin, stdout);
    files.Fork(0);
    files.Exit(1);
    files.Reap(1);
    TerminalCount(stdin, stdout);
  }

  /** A new process has two descriptors for the terminal's output. */
  lemma TerminalCount(stdin: nat, stdout: nat)
    requires stdin != stdout && stdout != 0
    ensures Count([stdin, stdout, stdout] + seq(FD_SIZE - 3, _ => 0), stdout) == 2
  {
    var rest := seq(FD_SIZE - 3, _ => 0);
    CountNone(rest, stdout);
    var fds := [stdin, stdout, stdout] + rest;
    assert fds[1..] == [stdout, stdout] + rest && fds[1..][1..] == [stdout] + rest && fds[1..][1..][1..] == rest;
    assert Count(fds, stdout) == Count(fds[1..], stdout);
    assert Count(fds[1..], stdout) == 1 + Count(fds[1..][1..], stdout);
    assert Count(fds[1..][1..], stdout) == 1 + Count(rest, stdout);
  }

  /** Descriptor table with the two ends of a pipe, entries r and r + 1, at outfd and infd alone. */
  ghost predicate HasEnds(p: Proc, outfd: nat, infd: nat, r: nat) {
    && !p.cleaned && |p.fds| == FD_SIZE && outfd < FD_SIZE && infd < FD_SIZE && outfd != infd && p.fds[outfd] == r
    && (forall k :: 0 <= k < FD_SIZE ==> (p.fds[k] == r + 1 <==> k == infd))
  }

  /** A parent with a pipe, and its child. */
  method PipeAndFork() returns (files: FileTable, outfd: nat, infd: nat, ghost r: nat)
    ensures outfd == 3 && infd == 4
    ensures fresh(files) && files.Valid() && |files.procs| == 2 && HasEnds(files.procs[0], outfd, infd, r) && HasEnds(files.procs[1], outfd, infd, r)
    ensures Joined(files.entries, r, r + 1) && r + 1 < |files.lost| && files.lost[r + 1] == 0
    ensures files.entries[r].pipe.Unused() && fresh(files.entries[r].pipe) && fresh(files.entries[r].pipe.buffer)
  {
    files := FirstProcess();
    r := |files.counts|;
    ghost var fds := files.procs[0].fds;
    assert ProcOk(r, files.procs[0]) && fds[3] == 0 == fds[4];
    var ret;
    ret, outfd, infd := files.Pipe(0);
    EndsPlaced(fds, files.procs[0], outfd, infd, r);
    files.Fork(0);
  }

  /** A process with its terminal and no other descriptor. */
  method FirstProcess() returns (files: FileTable)
    ensures fresh(files) && files.Valid() && |files.procs| == 1 && !files.procs[0].cleaned && |files.procs[0].fds| == FD_SIZE
    ensures (forall k {:trigger files.procs[0].fds[k]} :: 3 <= k < 16 ==> files.procs[0].fds[k] == 0) && forall k {:trigger files.procs[0].fds[k]} :: 0 <= k < 3 ==> files.procs[0].fds[k] != 0
  {
    files := new FileTable();
    var stdin, stdout := files.NewTerminal();
    files.Spawn(stdin, stdout);
  }

  lemma EndsPlaced(fds: seq<nat>, p: Proc, outfd: nat, infd: nat, r: nat)
    requires |fds| == FD_SIZE && (forall k :: 0 <= k < FD_SIZE ==> fds[k] < r) && outfd < infd < FD_SIZE
    requires !p.cleaned && p.fds == fds[outfd := r][infd := r + 1]
    ensures HasEnds(p, outfd, infd, r)
  {
  }

  /** The child writes, and the parent reads what was written. */
  method Exchange(files: FileTable, outfd: nat, infd: nat, ghost r: nat, data: seq<bv8>) returns (read: seq<bv8>)
    requires files.Valid() && |files.procs| == 2 && HasEnds(files.procs[0], outfd, infd, r) && HasEnds(files.procs[1], outfd, infd, r)
    requires Joined(files.entries, r, r + 1) && files.entries[r].pipe.Unused() && 0 < |data| < SIZE - 1
    modifies files.entries[r].pipe, files.entries[r].pipe.buffer
    ensures files.Valid() && read == data && files.entries[r].pipe.Contents() == [] && files.entries[r].pipe.p != 0
  {
    ghost var pipe := files.entries[r].pipe;
    var _, _ := files.Write(1, infd, data, {});
    assert data[..|data|] == data && pipe.Contents() == data;
    var ret;
    ret, read := files.Read(0, outfd, |data|);
  }

  /** Both close the write end, and the parent finds the end of the file. */
  method HangUp(files: FileTable, outfd: nat, infd: nat, ghost r: nat) returns (end: int)
    requires files.Valid() && |files.procs| == 2 && HasEnds(files.procs[0], outfd, infd, r) && HasEnds(files.procs[1], outfd, infd, r)
    requires Joined(files.entries, r, r + 1) && r + 1 < |files.lost| && files.lost[r + 1] == 0
    requires files.entries[r].pipe.Contents() == [] && files.entries[r].pipe.p != 0
    modifies files, files.entries[r].pipe, files.entries[r].pipe.buffer
    ensures end == -1
  {
    var _ := files.Close(0, infd);
    var _ := files.Close(1, infd);
    assert Unheld(files.procs, r + 1);
    var rest;
    end, rest := files.Read(0, outfd, 1);
  }

  /** A pipe from a child to its parent, from the first byte to the end of the file. The first pipe of a
      new process is read at 3 and written at 4. */
  method PipeBetween(data: seq<bv8>) returns (outfd: nat, infd: nat, read: seq<bv8>, end: int)
    requires 0 < |data| < SIZE - 1
    ensures outfd == 3 && infd == 4 && read == data && end == -1
  {
    var files;
    ghost var r;
    files, outfd, infd, r := PipeAndFork();
    read := Exchange(files, outfd, infd, r, data);
    end := HangUp(files, outfd, infd, r);
  }

  /** Descriptor 16 is refused with EMFILE, 24, and a closed descriptor below it with EBADF, 9. */
  method BadDescriptors(data: seq<bv8>) returns (r16: int, w16: int, r15: int, w15: int)
    ensures r16 == w16 == -24 && r15 == w15 == -9
  {
    var files := FirstProcess();
    var out, hold;
    r16, out := files.Read(0, 16, 1);
    w16, hold := files.Write(0, 16, data, {});
    r15, out := files.Read(0, 15, 1);
    w15, hold := files.Write(0, 15, data, {});
  }

  /** Descriptor 16 passes the test of sys_dup in every process. */
  method DupPastTheTable() returns (r: DupResult)
    ensures r == OutsideTable
  {
    var files := new FileTable();
    var stdin, stdout := files.NewTerminal();
    files.Spawn(stdin, stdout);
    r := files.Dup(0, 1, FD_SIZE);
  }
}
