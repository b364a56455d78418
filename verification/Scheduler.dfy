/** The round-robin scheduler of sys/thread/kthread.c. The process list is a sequence; processes are
    known by their place in it. The current process is on the list. */
module Scheduler {
  /** parent is a place in the list, or -1; waitFor is the id the process waits for, -1 for any. */
  datatype Proc = Proc(id: int, parent: int, waitFor: int, onHold: bool, terminated: bool, cleaned: bool)

  predicate Runnable(p: Proc) {
    !p.onHold && !p.terminated
  }

  /** The process k places after c, going round. */
  function Ring(c: nat, k: nat, n: nat): (r: nat)
    requires c < n && k <= n
    ensures r < n
    ensures k == n ==> r == c
    ensures 0 < k < n ==> r != c
  {
    if c + k < n then c + k else c + k - n
  }

  /** How many places p is after c; n for c itself. */
  function Distance(c: nat, p: nat, n: nat): (k: nat)
    requires c < n && p < n
    ensures 1 <= k <= n && Ring(c, k, n) == p
  {
    if p > c then p - c else p + n - c
  }

  /** Cleaned by the search: passed over, terminated, and not cleaned before. */
  ghost predicate Cleans(procs: seq<Proc>, procs': seq<Proc>, i: nat) {
    i < |procs| == |procs'| && procs[i].terminated && !procs[i].cleaned && procs'[i].cleaned
  }

  /** Nothing but cleaned and on_hold changes. */
  ghost predicate SameButFlags(p: Proc, p': Proc) {
    p' == p.(onHold := p'.onHold, cleaned := p'.cleaned)
  }

  /** What the search has done to the list after passing the first k - 1 places after c. */
  ghost predicate Passed(procs: seq<Proc>, procs': seq<Proc>, c: nat, k: nat) {
    && |procs'| == |procs| && c < |procs| && 1 <= k <= |procs|
    && (forall i {:trigger procs'[i]} :: 0 <= i < |procs| ==> SameButFlags(procs[i], procs'[i]))
    && (forall i {:trigger procs'[i]} :: 0 <= i < |procs| ==>
          (procs'[i].cleaned <==> procs[i].cleaned || (procs[i].terminated && Distance(c, i, |procs|) < k)))
    && (forall i {:trigger procs'[i]} :: 0 <= i < |procs| ==>
          (procs'[i].onHold <==> procs[i].onHold && !Woken(procs, procs', i)))
    && (forall i {:trigger procs[i]} :: 0 <= i < |procs| && Distance(c, i, |procs|) < k ==> !Runnable(procs[i]))
  }

  /** Process i waits for some child that was cleaned, or for any, and is woken by it. */
  ghost predicate Woken(procs: seq<Proc>, procs': seq<Proc>, i: nat) {
    exists j: nat {:trigger Cleans(procs, procs', j)} ::
      Cleans(procs, procs', j) && procs[j].parent == i < |procs| && (procs[i].waitFor == procs[j].id || procs[i].waitFor == -1)
  }

  /** What one call of process_schedule decides: the first process after c that can run, or c. */
  ghost predicate Chosen(procs: seq<Proc>, c: nat, c': nat) {
    && c < |procs| && c' < |procs|
    && forall i {:trigger procs[i]} :: 0 <= i < |procs| && Distance(c, i, |procs|) < Distance(c, c', |procs|) ==> !Runnable(procs[i])
  }

  class Table {
    var procs: seq<Proc>
    var current: nat
    ghost var cleanups: seq<nat>   // how often each process has been cleaned up

    ghost predicate Valid()
      reads this
    {
      && current < |procs| && |cleanups| == |procs|
      && (forall i {:trigger cleanups[i]} :: 0 <= i < |procs| ==> cleanups[i] == if procs[i].cleaned then 1 else 0)
    }

    /** process_cleanup, as far as the process list goes. */
    method Cleanup(i: nat)
      requires Valid() && i < |procs| && !procs[i].cleaned
      modifies `procs, `cleanups
      ensures Valid() && |procs| == |old(procs)|
      ensures cleanups == old(cleanups)[i := old(cleanups)[i] + 1]
      ensures forall j {:trigger procs[j]} :: 0 <= j < |procs| ==>
                SameButFlags(old(procs)[j], procs[j]) && (procs[j].cleaned <==> old(procs)[j].cleaned || j == i)
      ensures forall j {:trigger procs[j]} :: 0 <= j < |procs| ==>
                if old(procs)[i].parent == j && (old(procs)[j].waitFor == old(procs)[i].id || old(procs)[j].waitFor == -1)
                then !procs[j].onHold
                else procs[j].onHold == old(procs)[j].onHold
    {
      var p := procs[i];
      if 0 <= p.parent < |procs| && (procs[p.parent].waitFor == p.id || procs[p.parent].waitFor == -1) {
        procs := procs[p.parent := procs[p.parent].(onHold := false)];
      }
      procs := procs[i := procs[i].(cleaned := true)];
      cleanups := cleanups[i := cleanups[i] + 1];
    }

    /** The search goes past a process that cannot run. */
    method PassOver(next: nat, ghost procs0: seq<Proc>, ghost k: nat)
      requires Valid() && Passed(procs0, procs, current, k) && k < |procs| && next == Ring(current, k, |procs|) && !Runnable(procs[next])
      modifies `procs, `cleanups
      ensures Valid() && |procs| == |old(procs)| && Passed(procs0, procs, current, k + 1)
    {
      ghost var before := procs;
      if procs[next].terminated && !procs[next].cleaned {
        Cleanup(next);
      }
      PassedNext(procs0, before, procs, current, k, next);
    }

    /** process_schedule. `k` is how many places the search went. */
    method Schedule() returns (halted: bool, ghost k: nat)
      requires Valid()
      modifies this
      ensures Valid() && |procs| == |old(procs)|
      ensures Passed(old(procs), procs, old(current), k)
      ensures k < |procs| ==> Runnable(procs[Ring(old(current), k, |procs|)])
      ensures !halted ==> current == Ring(old(current), k, |procs|) && Chosen(old(procs), old(current), current)
      ensures halted <==> k == |procs| && procs[old(current)].onHold
      ensures halted ==> current == old(current)
      ensures forall i :: 0 <= i < |procs| ==> cleanups[i] <= 1
    {
      var next := if current + 1 < |procs| then current + 1 else 0;
      ghost var procs0 := procs;
      k := 1;
      PassedNone(procs, current);
      while true
        invariant Valid() && |procs| == |procs0| && current == old(current)
        invariant Passed(procs0, procs, current, k) && next == Ring(current, k, |procs|)
        decreases |procs| - k
      {
        if next == current { break; }
        if !(procs[next].onHold || procs[next].terminated) { break; }
        PassOver(next, procs0, k);
        next := if next + 1 < |procs| then next + 1 else 0;
        k := k + 1;
      }
      if procs[next].onHold { return true, k; }
      halted := false;
      current := next;
    }
  }

  lemma PassedNone(procs: seq<Proc>, c: nat)
    requires c < |procs|
    ensures Passed(procs, procs, c, 1)
  {
  }

  lemma PassedNext(procs: seq<Proc>, procs1: seq<Proc>, procs2: seq<Proc>, c: nat, k: nat, next: nat)
    requires Passed(procs, procs1, c, k) && k < |procs| && next == Ring(c, k, |procs|) && !Runnable(procs1[next])
    requires |procs2| == |procs1|
    requires if procs1[next].terminated && !procs1[next].cleaned
      then forall j {:trigger procs2[j]} :: 0 <= j < |procs| ==>
             && SameButFlags(procs1[j], procs2[j]) && (procs2[j].cleaned <==> procs1[j].cleaned || j == next)
             && (if procs1[next].parent == j && (procs1[j].waitFor == procs1[next].id || procs1[j].waitFor == -1)
                 then !procs2[j].onHold
                 else procs2[j].onHold == procs1[j].onHold)
      else procs2 == procs1
    ensures Passed(procs, procs2, c, k + 1)
  {
    var n := |procs|;
    assert forall i :: 0 <= i < n && Distance(c, i, n) == k ==> i == next;
    assert SameButFlags(procs[next], procs1[next]);
    var cleans := procs1[next].terminated && !procs1[next].cleaned;
    forall j: nat
      ensures Cleans(procs, procs2, j) <==> Cleans(procs, procs1, j) || (cleans && j == next)
    {
      if j < n { assert SameButFlags(procs[j], procs1[j]); }
    }
    forall i | 0 <= i < n
      ensures Woken(procs, procs2, i) <==>
                (|| Woken(procs, procs1, i)
                 || (cleans && procs[next].parent == i && (procs[i].waitFor == procs[next].id || procs[i].waitFor == -1)))
    {
      if Woken(procs, procs1, i) {
        var j: nat :| Cleans(procs, procs1, j) && procs[j].parent == i && (procs[i].waitFor == procs[j].id || procs[i].waitFor == -1);
        assert Cleans(procs, procs2, j);
      }
      if cleans { assert Cleans(procs, procs2, next); }
    }
    forall i | 0 <= i < n
      ensures procs2[i].onHold <==> procs[i].onHold && !Woken(procs, procs2, i)
    {
      assert SameButFlags(procs[i], procs1[i]);
    }
  }

  // ----- Waiting -----

  /** The search wakes a parent that waits for a child it passes, or for any child: if the child has
      terminated and was not cleaned before, the parent can run afterwards. */
  lemma ParentWoken(procs: seq<Proc>, procs': seq<Proc>, c: nat, k: nat, child: nat)
    requires Passed(procs, procs', c, k) && child < |procs| && Distance(c, child, |procs|) < k
    requires procs[child].terminated && !procs[child].cleaned && 0 <= procs[child].parent < |procs|
    requires !procs[procs[child].parent].terminated && procs[procs[child].parent].waitFor in {procs[child].id, -1}
    ensures Runnable(procs'[procs[child].parent])
  {
    assert Cleans(procs, procs', child);
    assert SameButFlags(procs[procs[child].parent], procs'[procs[child].parent]);
  }

  /** wait(-1) of a process whose only child has terminated: the process goes on, and the child has been
      cleaned up. */
  method WaitForAny(parentId: int, childId: int) returns (halted: bool, table: Table)
    ensures !halted && |table.procs| == 2 && table.current == 0 && Runnable(table.procs[0]) && table.procs[1].cleaned
  {
    table := new Table;
    var parent := Proc(parentId, -1, -1, true, false, false);
    var child := Proc(childId, 0, 0, false, true, false);
    table.procs, table.current, table.cleanups := [parent, child], 0, [0, 0];
    ghost var before, k := table.procs, 0;
    halted, k := table.Schedule();
    assert k == 2 by {
      assert Distance(0, 1, 2) == 1;
      assert SameButFlags(before[1], table.procs[1]);
    }
    ParentWoken(before, table.procs, 0, k, 1);
  }

  // ----- Fairness -----

  /** A run of the scheduler over a list of fixed length: before call t the list is lists[t] and the
      current process is at[t]. Between calls the flags may change in any way. */
  ghost predicate Runs(lists: seq<seq<Proc>>, at: seq<nat>, n: nat) {
    && |at| == |lists| + 1
    && (forall t {:trigger lists[t]} :: 0 <= t < |lists| ==> |lists[t]| == n && Chosen(lists[t], at[t], at[t + 1]))
  }

  /** Each call brings the turn of a runnable process nearer, unless it comes. */
  lemma Nearer(procs: seq<Proc>, c: nat, c': nat, p: nat)
    requires Chosen(procs, c, c') && p < |procs| && Runnable(procs[p]) && c' != p
    ensures Distance(c', p, |procs|) < Distance(c, p, |procs|)
  {
  }

  lemma {:induction false} TurnComes(lists: seq<seq<Proc>>, at: seq<nat>, n: nat, p: nat, t: nat)
    requires Runs(lists, at, n) && p < n && t <= |lists| && at[t] < n
    requires forall u {:trigger lists[u]} :: 0 <= u < |lists| ==> Runnable(lists[u][p])
    requires |lists| - t >= Distance(at[t], p, n)
    ensures exists u :: t < u <= t + Distance(at[t], p, n) && u < |at| && at[u] == p
    decreases |lists| - t
  {
    assert Chosen(lists[t], at[t], at[t + 1]) && Runnable(lists[t][p]);
    if at[t + 1] != p {
      Nearer(lists[t], at[t], at[t + 1], p);
      TurnComes(lists, at, n, p, t + 1);
    }
  }

  /** A process that stays runnable is chosen within as many calls as there are processes. */
  lemma Fairness(lists: seq<seq<Proc>>, at: seq<nat>, n: nat, p: nat)
    requires Runs(lists, at, n) && p < n && |lists| >= n && at[0] < n
    requires forall u {:trigger lists[u]} :: 0 <= u < |lists| ==> Runnable(lists[u][p])
    ensures exists u :: 1 <= u <= n && u < |at| && at[u] == p
  {
    TurnComes(lists, at, n, p, 0);
  }
}
