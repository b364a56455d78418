/** Pipes of sys/disk/file_system.c: a ring of BUFFER_SIZE bytes with a producer and a consumer
    cursor, held by the read end. */
module Pipes {
  import opened Bytes

  const SIZE := 2048

  /** The cursor after i. */
  function Next(i: nat): nat {
    if i + 1 == SIZE then 0 else i + 1
  }

  /** How many bytes are queued between the cursors: the consumer cursor is on the last byte read, the
      producer cursor on the next byte to write. */
  function Queued(p: nat, c: nat): (n: int)
    requires p < SIZE && c < SIZE
    ensures 0 <= n < SIZE
    ensures n == SIZE - 1 <==> p == c
    ensures p > 0 ==> (n == 0 <==> p - 1 == c)
    ensures p == 0 ==> (n == 0 <==> c == SIZE - 1)
  {
    if p > c then p - 1 - c else p - 1 - c + SIZE
  }

  /** The k-th byte after cursor c. */
  function After(buffer: seq<bv8>, c: nat, k: nat): bv8
    requires |buffer| == SIZE
  {
    buffer[(c + 1 + k) % SIZE]
  }

  function Queue(buffer: seq<bv8>, p: nat, c: nat): (q: seq<bv8>)
    requires |buffer| == SIZE && p < SIZE && c < SIZE
    ensures |q| == Queued(p, c)
  {
    Ahead(buffer, c, Queued(p, c))
  }

  /** The n bytes after cursor c, going round as often as needed. */
  function Ahead(buffer: seq<bv8>, c: nat, n: nat): (q: seq<bv8>)
    requires |buffer| == SIZE
    ensures |q| == n
  {
    seq(n, k requires 0 <= k => After(buffer, c, k))
  }

  lemma Wrap(c: nat, k: nat)
    requires c < SIZE && k < SIZE
    ensures (c + 1 + k) % SIZE == if c + 1 + k < SIZE then c + 1 + k else c + 1 + k - SIZE
  {
  }

  lemma NextIsModular(c: nat, k: nat)
    ensures Next((c + k) % SIZE) == (c + k + 1) % SIZE
  {
  }

  /** A byte written at the producer cursor joins the end of the queue. */
  lemma Append(buffer: seq<bv8>, p: nat, c: nat, x: bv8)
    requires |buffer| == SIZE && p < SIZE && c < SIZE && p != c
    ensures Next(p) < SIZE && Queue(buffer[p := x], Next(p), c) == Queue(buffer, p, c) + [x]
  {
    var n := Queued(p, c);
    assert Queued(Next(p), c) == n + 1;
    forall k | 0 <= k <= n
      ensures After(buffer[p := x], c, k) == (Queue(buffer, p, c) + [x])[k]
    {
      Wrap(c, k);
    }
  }

  /** Moving the consumer cursor over j queued bytes drops them from the front. */
  lemma Drop(buffer: seq<bv8>, p: nat, c: nat, j: nat)
    requires |buffer| == SIZE && p < SIZE && c < SIZE && j <= Queued(p, c)
    ensures Queue(buffer, p, (c + j) % SIZE) == Queue(buffer, p, c)[j..]
  {
    var c' := (c + j) % SIZE;
    if j > 0 { Wrap(c, j - 1); }
    assert Queued(p, c') == Queued(p, c) - j;
    forall k | 0 <= k < Queued(p, c) - j
      ensures After(buffer, c', k) == After(buffer, c, j + k)
    {
      Wrap(c', k);
      Wrap(c, j + k);
    }
  }

  lemma AtEnd(p: nat, c: nat, j: nat)
    requires 0 < p < SIZE && c < SIZE && j <= Queued(p, c)
    ensures j == Queued(p, c) <==> (c + j) % SIZE == p - 1
  {
    if j > 0 { Wrap(c, j - 1); }
  }

  /** The oldest bytes, as many as were asked for and are queued; the others stay queued. */
  ghost predicate FifoRead(q: seq<bv8>, size: nat, out: seq<bv8>, q': seq<bv8>) {
    out == q[..Min(size, |q|)] && q == out + q'
  }

  /** Cursor c moved on by n. */
  function Moved(c: nat, n: nat): (c': nat)
    ensures c' < SIZE
  {
    (c + n) % SIZE
  }

  lemma HistoryKept(accepted: seq<bv8>, delivered: seq<bv8>, q: seq<bv8>, out: seq<bv8>, q': seq<bv8>)
    requires accepted == delivered + q && q == out + q'
    ensures accepted == (delivered + out) + q'
  {
  }

  lemma FetchIsFifo(buffer: seq<bv8>, p: nat, c: nat, size: nat, out: seq<bv8>)
    requires |buffer| == SIZE && p < SIZE && c < SIZE
    requires out == Ahead(buffer, c, if p == 0 then size else Min(size, Queued(p, c)))
    ensures FifoRead(Queue(buffer, p, c), size, out, Queue(buffer, p, Moved(c, |out|))) <==> p != 0 || size <= Queued(p, c)
  {
    if p != 0 || size <= Queued(p, c) {
      Drop(buffer, p, c, |out|);
      assert out == Queue(buffer, p, c)[..|out|];
    }
  }

  /** The read end of a pipe. `accepted` and `delivered` are all bytes written and all bytes read so
      far; `overrun` records whether a read has ever gone past the end of the queue. */
  class PipeEnd {
    const buffer: array<bv8>
    var p: nat
    var c: nat
    var waiters: seq<nat>
    ghost var accepted: seq<bv8>
    ghost var delivered: seq<bv8>
    ghost var overrun: bool

    ghost predicate Valid()
      reads this, buffer
    {
      && buffer.Length == SIZE && p < SIZE && c < SIZE
      && (!overrun ==> accepted == delivered + Contents())
    }

    ghost function Contents(): (q: seq<bv8>)
      requires buffer.Length == SIZE && p < SIZE && c < SIZE
      reads this, buffer
    {
      Queue(buffer[..], p, c)
    }

    /** Nothing written, nothing read. */
    ghost predicate Unused()
      reads this, buffer
    {
      Valid() && p == 1 && c == 0 && Contents() == [] && waiters == [] && !overrun && accepted == [] && delivered == []
    }

    /** generate_entry_pair. */
    constructor ()
      ensures Unused() && fresh(buffer)
    {
      buffer := new bv8[SIZE];
      p, c, waiters := 1, 0, [];
      accepted, delivered, overrun := [], [], false;
    }

    /** One turn of file_write's loop. */
    method Put(x: bv8)
      requires Valid() && p != c
      modifies `p, `accepted, buffer
      ensures Valid() && Contents() == old(Contents()) + [x] && accepted == old(accepted) + [x]
    {
      Append(buffer[..], p, c, x);
      ghost var q := Contents();
      assert buffer[..][p := x] == buffer[..p] + [x] + buffer[p + 1..];
      buffer[p] := x;
      p := p + 1;
      if p == SIZE { p := 0; }
      accepted := accepted + [x];
      assert Contents() == q + [x];
    }

    /** The pipe case of file_write. onHold is the set of processes whose on_hold flag is set. The
        longest prefix that fits is queued; only a write that fits as a whole wakes the readers. */
    method Write(data: seq<bv8>, onHold: set<nat>) returns (count: nat, onHold': set<nat>)
      requires Valid()
      modifies this, buffer
      ensures Valid() && overrun == old(overrun) && delivered == old(delivered)
      ensures count == Min(|data|, SIZE - 1 - |old(Contents())|)
      ensures Contents() == old(Contents()) + data[..count] && accepted == old(accepted) + data[..count]
      ensures waiters == if count == |data| then [] else old(waiters)
      ensures onHold' == if count == |data| then onHold - (set w | w in old(waiters)) else onHold
      ensures c == old(c)
    {
      onHold' := onHold;
      count := 0;
      assert data[..0] == [];
      while count < |data|
        invariant count <= |data| && Valid() && overrun == old(overrun) && delivered == old(delivered) && c == old(c) && waiters == old(waiters)
        invariant Contents() == old(Contents()) + data[..count] && accepted == old(accepted) + data[..count]
      {
        if p == c { return; }
        Put(data[count]);
        assert data[..count + 1] == data[..count] + [data[count]];
        count := count + 1;
      }
      var i := 0;
      while i < |waiters|
        invariant i <= |waiters| && waiters == old(waiters) && Valid()
        invariant onHold' == onHold - (set w | w in waiters[..i])
      {
        onHold' := onHold' - {waiters[i]};
        assert waiters[..i + 1] == waiters[..i] + [waiters[i]];
        i := i + 1;
      }
      assert waiters[..i] == waiters;
      waiters := [];
    }

    /** The pipe case of file_read; `writers` is the open count of the write end. The result is the
        oldest bytes in order exactly if the producer cursor is not 0 or no more is asked for than is
        queued: at cursor 0 the test for the end of the queue never holds. */
    method Read(writers: int, size: nat) returns (r: int, out: seq<bv8>)
      requires Valid()
      modifies this
      ensures Valid() && accepted == old(accepted) && waiters == old(waiters) && p == old(p)
      ensures r == -1 <==> writers <= 0 && p != 0 && old(Contents()) == []
      ensures r == -1 ==> out == [] && c == old(c) && overrun == old(overrun) && delivered == old(delivered)
      ensures r != -1 ==> r == |out| && delivered == old(delivered) + out
      ensures r != -1 ==> (FifoRead(old(Contents()), size, out, Contents()) <==> p != 0 || size <= |old(Contents())|)
      ensures r != -1 ==> overrun == (old(overrun) || (p == 0 && size > |old(Contents())|))
      ensures r != -1 && p == 0 && size > |old(Contents())| ==>
                out == Ahead(buffer[..], old(c), size) && c == Moved(old(c), size)
    {
      if writers <= 0 && p - 1 == c { return -1, []; }
      ghost var q := Contents();
      out := Fetch(size);
      FetchIsFifo(buffer[..], p, old(c), size, out);
      if p == 0 && size > |q| { overrun := true; }
      if !overrun { HistoryKept(accepted, delivered, q, out, Contents()); }
      delivered := delivered + out;
      r := |out|;
    }

    /** The loop of file_read. */
    method Fetch(size: nat) returns (out: seq<bv8>)
      requires buffer.Length == SIZE && p < SIZE && c < SIZE
      modifies `c
      ensures |out| == (if p == 0 then size else Min(size, |old(Contents())|))
      ensures out == Ahead(buffer[..], old(c), |out|) && c == Moved(old(c), |out|)
    {
      out := [];
      while p - 1 != c && |out| < size
        invariant |out| <= size && c == (old(c) + |out|) % SIZE
        invariant p != 0 ==> |out| <= Queued(p, old(c))
        invariant out == Ahead(buffer[..], old(c), |out|)
        decreases size - |out|
      {
        if p != 0 { AtEnd(p, old(c), |out|); }
        NextIsModular(old(c), |out|);
        c := c + 1;
        if c == SIZE { c := 0; }
        out := out + [buffer[c]];
      }
      if p != 0 && p - 1 == c { AtEnd(p, old(c), |out|); }
    }

    /** How sys_read goes to sleep when file_read has returned 0. */
    method Wait(pid: nat, onHold: set<nat>) returns (onHold': set<nat>)
      requires Valid()
      modifies `waiters
      ensures Valid() && waiters == old(waiters) + [pid] && onHold' == onHold + {pid}
    {
      waiters := waiters + [pid];
      onHold' := onHold + {pid};
    }
  }

  /** Everything written has been read, yet the next read hands out a byte, and then 2047 more: the
      producer cursor is 0. */
  method ReadPastTheEnd() returns (queued: nat, r: int, then_: nat)
    ensures queued == 0 && r == 1 && then_ == 2047
  {
    var pipe := new PipeEnd();
    var n, _ := pipe.Write(seq(SIZE - 1, i => 0), {});
    assert |pipe.Contents()| == SIZE - 1 && pipe.p == 0;
    var _, out := pipe.Read(1, SIZE - 1);
    queued := Queued(pipe.p, pipe.c);
    assert |pipe.Contents()| == 0;
    r, out := pipe.Read(1, 1);
    then_ := Queued(pipe.p, pipe.c);
  }

  /** A reader sleeps on an empty pipe; a write larger than the ring queues 2047 bytes and leaves it
      asleep, and so does every later write of at least one byte. */
  method LostWakeup(pid: nat, more: seq<bv8>) returns (first: nat, second: nat, onHold: set<nat>)
    requires more != []
    ensures first == 2047 && second == 0 && pid in onHold
  {
    var pipe := new PipeEnd();
    onHold := pipe.Wait(pid, {});
    first, onHold := pipe.Write(seq(SIZE, i => 0), onHold);
    second, onHold := pipe.Write(more, onHold);
  }
}
