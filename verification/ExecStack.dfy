/** The initial stack of an executed program: the builder in sys_exec (sys/idt.c), which fills a byte
    buffer and relocates its pointers, and the reader in crt/crt1.c. The layout is that of section
    3.4.1 of the System V AMD64 ABI: argc, argv, NULL, envp, NULL, strings. */
module ExecStack {
  import opened Bytes

  const LIMIT := 0x1_0000_0000_0000_0000

  lemma WordRange()
    ensures Pow256(8) == LIMIT
  {
    assert Pow256(2) == 0x1_0000 && Pow256(4) == 256 * (256 * Pow256(2));
    assert Pow256(6) == 256 * (256 * Pow256(4));
  }

  function WordAt(b: seq<byte>, i: nat): nat
    requires 8 * i + 8 <= |b|
  {
    FromLe(b[8 * i..8 * i + 8])
  }

  /** The first n words of b. */
  function Words(b: seq<byte>, n: nat): (w: seq<nat>)
    requires 8 * n <= |b|
    ensures |w| == n
  {
    seq(n, i requires 0 <= i < n => WordAt(b, i))
  }

  /** Words depend on their bytes only. */
  lemma WordsSame(b: seq<byte>, b': seq<byte>, n: nat)
    requires |b| == |b'| && 8 * n <= |b| && forall x :: 0 <= x < 8 * n ==> b'[x] == b[x]
    ensures Words(b', n) == Words(b, n)
  {
    forall i | 0 <= i < n
      ensures WordAt(b', i) == WordAt(b, i)
    {
      assert b'[8 * i..8 * i + 8] == b[8 * i..8 * i + 8];
    }
  }

  lemma WordsSet(b: seq<byte>, b': seq<byte>, n: nat, k: nat, v: nat)
    requires k < n && 8 * n <= |b| && v < LIMIT && b' == b[..8 * k] + Le(v, 8) + b[8 * k + 8..]
    ensures Words(b', n) == Words(b, n)[k := v]
  {
    WordRange();
    LeRoundTrip(v, 8);
    assert b'[8 * k..8 * k + 8] == Le(v, 8);
    forall i | 0 <= i < n && i != k
      ensures WordAt(b', i) == WordAt(b, i)
    {
      SameWord(b, b', Le(v, 8), k, i);
    }
  }

  lemma SameWord(b: seq<byte>, b': seq<byte>, s: seq<byte>, k: nat, i: nat)
    requires 8 * i + 8 <= |b| && 8 * k + 8 <= |b| && i != k && |s| == 8 && b' == b[..8 * k] + s + b[8 * k + 8..]
    ensures WordAt(b', i) == WordAt(b, i)
  {
    if i < k {
      assert b'[8 * i..8 * i + 8] == b[8 * i..8 * i + 8];
    } else {
      assert 8 * k + 8 <= 8 * i;
      assert b'[8 * i..8 * i + 8] == b[8 * i..8 * i + 8];
    }
  }

  /** memcpy into the buffer. */
  method PutBytes(a: array<byte>, at: nat, s: seq<byte>)
    requires at + |s| <= a.Length
    modifies a
    ensures a[..] == old(a[..])[..at] + s + old(a[..])[at + |s|..]
  {
    ghost var was := a[..];
    var k := 0;
    while k < |s|
      invariant k <= |s| && a[..] == was[..at] + s[..k] + was[at + k..]
    {
      a[at + k] := s[k];
      assert s[..k + 1] == s[..k] + [s[k]];
      k := k + 1;
    }
    assert s[..k] == s;
  }

  /** A 64-bit store to word k. */
  method PutWord(a: array<byte>, k: nat, v: nat, ghost n: nat)
    requires k < n && 8 * n <= a.Length && v < LIMIT
    modifies a
    ensures Words(a[..], n) == Words(old(a[..]), n)[k := v]
    ensures forall x :: 8 * n <= x < a.Length ==> a[x] == old(a[x])
  {
    ghost var was := a[..];
    PutBytes(a, 8 * k, Le(v, 8));
    WordsSet(was, a[..], n, k, v);
  }

  // ----- Strings -----

  ghost predicate AllPlain(strs: seq<seq<byte>>) {
    forall i {:trigger strs[i]} :: 0 <= i < |strs| ==> Plain(strs[i])
  }

  /** The strings one after another, each with its terminator. */
  function Flat(strs: seq<seq<byte>>): seq<byte> {
    if strs == [] then [] else Flat(strs[..|strs| - 1]) + strs[|strs| - 1] + [0]
  }

  /** Where each of the strings starts if the first starts at `from`. */
  function Starts(from: nat, strs: seq<seq<byte>>): (r: seq<nat>)
    ensures |r| == |strs|
  {
    seq(|strs|, i requires 0 <= i < |strs| => from + |Flat(strs[..i])|)
  }

  lemma {:induction false} FlatPrefix(strs: seq<seq<byte>>, i: nat)
    requires i < |strs|
    ensures Flat(strs[..i + 1]) == Flat(strs[..i]) + strs[i] + [0]
    ensures Flat(strs[..i + 1]) <= Flat(strs)
    decreases |strs|
  {
    assert strs[..i + 1][..i] == strs[..i];
    if i + 1 < |strs| {
      var front := strs[..|strs| - 1];
      FlatPrefix(front, i);
      assert front[..i + 1] == strs[..i + 1];
    } else {
      assert strs[..i + 1] == strs;
    }
  }

  // ----- The builder -----

  /** The words of a run of pointers, and the rest as before. */
  ghost function Patched(w: seq<nat>, i: nat, run: seq<nat>): (r: seq<nat>)
    requires i + |run| <= |w|
    ensures |r| == |w|
  {
    w[..i] + run + w[i + |run|..]
  }

  lemma PatchOne(w: seq<nat>, i: nat, run: seq<nat>, v: nat)
    requires i + |run| < |w|
    ensures Patched(w, i, run)[i + |run| := v] == Patched(w, i, run + [v])
  {
  }

  lemma StartsNext(from: nat, strs: seq<seq<byte>>, k: nat)
    requires k < |strs|
    ensures Starts(from, strs[..k + 1]) == Starts(from, strs[..k]) + [from + |Flat(strs[..k])|]
  {
    assert forall i :: 0 <= i <= k ==> strs[..k + 1][..i] == strs[..i];
    assert forall i :: 0 <= i < k ==> strs[..k][..i] == strs[..i];
  }

  /** n words at the start of b, and the text behind them up to cur. */
  ghost predicate Filled(b: seq<byte>, n: nat, w: seq<nat>, cur: nat, text: seq<byte>) {
    8 * n <= cur <= |b| && Words(b, n) == w && b[8 * n..cur] == text
  }

  /** A store to word k, below the text. */
  method SetWord(a: array<byte>, k: nat, v: nat, ghost n: nat, ghost w: seq<nat>, ghost cur: nat, ghost text: seq<byte>)
    requires k < n && v < LIMIT && Filled(a[..], n, w, cur, text)
    modifies a
    ensures k < |w| && Filled(a[..], n, w[k := v], cur, text)
  {
    ghost var b := a[..];
    PutWord(a, k, v, n);
    assert a[..][8 * n..cur] == b[8 * n..cur];
  }

  /** One string: its bytes at cur and its place in word i. */
  method PlaceOne(a: array<byte>, s: seq<byte>, i: nat, cur: nat, n: nat, ghost w: seq<nat>, ghost text: seq<byte>)
    requires i < n && Filled(a[..], n, w, cur, text) && cur + |s| + 1 <= a.Length < LIMIT
    modifies a
    ensures i < |w| && Filled(a[..], n, w[i := cur], cur + |s| + 1, text + (s + [0]))
  {
    ghost var was := a[..];
    PutBytes(a, cur, s + [0]);
    WordsSame(was, a[..], n);
    assert a[..][8 * n..cur + |s| + 1] == was[8 * n..cur] + (s + [0]);
    SetWord(a, i, cur, n, w, cur + |s| + 1, text + (s + [0]));
  }

  /** After k strings. */
  ghost predicate Placed(b: seq<byte>, n: nat, w: seq<nat>, text: seq<byte>, strs: seq<seq<byte>>, i: nat, from: nat, k: nat) {
    && k <= |strs| && i + |strs| <= |w|
    && Filled(b, n, Patched(w, i, Starts(from, strs[..k])), from + |Flat(strs[..k])|, text + Flat(strs[..k]))
  }

  lemma PlacedNext(b: seq<byte>, n: nat, w: seq<nat>, text: seq<byte>, strs: seq<seq<byte>>, i: nat, from: nat, k: nat)
    requires k < |strs| && i + |strs| <= |w|
    requires var cur := from + |Flat(strs[..k])|;
      Filled(b, n, Patched(w, i, Starts(from, strs[..k]))[i + k := cur], cur + |strs[k]| + 1, text + Flat(strs[..k]) + (strs[k] + [0]))
    ensures Placed(b, n, w, text, strs, i, from, k + 1)
  {
    FlatPrefix(strs, k);
    StartsNext(from, strs, k);
    PatchOne(w, i, Starts(from, strs[..k]), from + |Flat(strs[..k])|);
    assert text + Flat(strs[..k]) + (strs[k] + [0]) == text + Flat(strs[..k + 1]);
  }

  method PlaceNext(a: array<byte>, strs: seq<seq<byte>>, i: nat, ghost from: nat, n: nat, k: nat, cur: nat, ghost w: seq<nat>, ghost text: seq<byte>)
      returns (cur': nat, k': nat)
    requires k < |strs| && i + |strs| <= n && from + |Flat(strs)| <= a.Length < LIMIT && cur == from + |Flat(strs[..k])|
    requires Placed(a[..], n, w, text, strs, i, from, k)
    modifies a
    ensures k' == k + 1 && Placed(a[..], n, w, text, strs, i, from, k') && cur' == from + |Flat(strs[..k'])|
  {
    FlatPrefix(strs, k);
    PlaceOne(a, strs[k], i + k, cur, n, Patched(w, i, Starts(from, strs[..k])), text + Flat(strs[..k]));
    PlacedNext(a[..], n, w, text, strs, i, from, k);
    cur', k' := cur + |strs[k]| + 1, k + 1;
  }

  lemma PlacedNone(b: seq<byte>, n: nat, w: seq<nat>, text: seq<byte>, strs: seq<seq<byte>>, i: nat, from: nat)
    requires i + |strs| <= n && Filled(b, n, w, from, text)
    ensures Flat(strs[..0]) == [] && Placed(b, n, w, text, strs, i, from, 0)
  {
    assert strs[..0] == [] && Starts(from, []) == [] && text + [] == text && Patched(w, i, []) == w;
  }

  lemma PlacedAll(b: seq<byte>, n: nat, w: seq<nat>, text: seq<byte>, strs: seq<seq<byte>>, i: nat, from: nat, cur: nat)
    requires Placed(b, n, w, text, strs, i, from, |strs|) && cur == from + |Flat(strs[..|strs|])|
    ensures cur == from + |Flat(strs)| && Filled(b, n, Patched(w, i, Starts(from, strs)), cur, text + Flat(strs))
  {
    assert strs[..|strs|] == strs;
  }

  /** Each of the two loops of sys_exec that write strings and their places. */
  method Place(a: array<byte>, strs: seq<seq<byte>>, i: nat, from: nat, n: nat, ghost w: seq<nat>, ghost text: seq<byte>) returns (cur: nat)
    requires i + |strs| <= n && Filled(a[..], n, w, from, text) && from + |Flat(strs)| <= a.Length < LIMIT
    modifies a
    ensures cur == from + |Flat(strs)| && i + |strs| <= |w|
    ensures Filled(a[..], n, Patched(w, i, Starts(from, strs)), cur, text + Flat(strs))
  {
    cur := from;
    var k: nat := 0;
    PlacedNone(a[..], n, w, text, strs, i, from);
    while k < |strs|
      invariant k <= |strs| && cur == from + |Flat(strs[..k])|
      invariant Placed(a[..], n, w, text, strs, i, from, k)
    {
      cur, k := PlaceNext(a, strs, i, from, n, k, cur, w, text);
    }
    PlacedAll(a[..], n, w, text, strs, i, from, cur);
  }

  function StartOf(from: nat, strs: seq<seq<byte>>, k: nat): nat
    requires k <= |strs|
  {
    from + |Flat(strs[..k])|
  }

  /** A run of pointers from word i on, to strings that start at `from` in memory at rsp, and NULL. */
  ghost predicate RunAt(w: seq<nat>, i: nat, from: nat, strs: seq<seq<byte>>, rsp: nat) {
    && i + |strs| < |w| && w[i + |strs|] == 0
    && forall j {:trigger w[j]} :: i <= j < i + |strs| ==> w[j] == StartOf(from, strs, j - i) + rsp
  }

  /** The pointer area: argc, argv, NULL, envp, NULL. Before relocation rsp is 0. */
  ghost predicate Pointers(w: seq<nat>, argv: seq<seq<byte>>, envp: seq<seq<byte>>, rsp: nat) {
    && |w| == |argv| + |envp| + 3 && w[0] == |argv|
    && RunAt(w, 1, 8 * |w|, argv, rsp) && RunAt(w, |argv| + 2, 8 * |w| + |Flat(argv)|, envp, rsp)
  }

  /** The first two loops: the size of the buffer. */
  method Size(strs: seq<seq<byte>>, from: nat) returns (size: nat)
    ensures size == from + 8 * |strs| + |Flat(strs)|
  {
    size := from;
    var k := 0;
    while k < |strs|
      invariant k <= |strs| && size == from + 8 * k + |Flat(strs[..k])|
    {
      FlatPrefix(strs, k);
      size := size + 9;
      size := size + |strs[k]|;
      k := k + 1;
    }
    assert strs[..k] == strs;
  }

  /** What the buffer holds: the pointer area and then the strings. */
  ghost predicate Holds(b: seq<byte>, argv: seq<seq<byte>>, envp: seq<seq<byte>>, rsp: nat) {
    var n := |argv| + |envp| + 3;
    && 8 * n <= |b| && Pointers(Words(b, n), argv, envp, rsp)
    && Filled(b, n, Words(b, n), 8 * n + |Flat(argv)| + |Flat(envp)|, Flat(argv) + Flat(envp))
  }

  /** sys_exec up to the call that replaces the process; eight bytes of the buffer stay unused. */
  method Build(argv: seq<seq<byte>>, envp: seq<seq<byte>>) returns (a: array<byte>)
    requires 8 * (|argv| + |envp| + 4) + |Flat(argv)| + |Flat(envp)| < LIMIT
    ensures fresh(a) && a.Length == 8 * (|argv| + |envp| + 4) + |Flat(argv)| + |Flat(envp)|
    ensures Holds(a[..], argv, envp, 0)
  {
    var n := |argv| + |envp| + 3;
    var size := Size(argv, 32);
    size := Size(envp, size);
    a := new byte[size](_ => 0);
    var cur;
    ghost var w;
    cur, w := FillArgs(a, argv, n);
    FillEnv(a, argv, envp, n, cur, w);
  }

  /** argc, the pointers of argv with their strings, and NULL. */
  method FillArgs(a: array<byte>, argv: seq<seq<byte>>, n: nat) returns (cur: nat, ghost w: seq<nat>)
    requires |argv| + 2 < n && 8 * n + |Flat(argv)| <= a.Length < LIMIT
    modifies a
    ensures cur == 8 * n + |Flat(argv)|
    ensures Filled(a[..], n, w, cur, Flat(argv)) && w[0] == |argv| && RunAt(w, 1, 8 * n, argv, 0)
  {
    assert a[..][8 * n..8 * n] == [];
    ghost var w0 := Words(a[..], n);
    SetWord(a, 0, |argv|, n, w0, 8 * n, []);
    ghost var w1 := w0[0 := |argv|];
    cur := Place(a, argv, 1, 8 * n, n, w1, []);
    ghost var w2 := Patched(w1, 1, Starts(8 * n, argv));
    assert [] + Flat(argv) == Flat(argv);
    SetWord(a, |argv| + 1, 0, n, w2, cur, Flat(argv));
    w := w2[|argv| + 1 := 0];
  }

  /** The pointers of envp with their strings, and NULL. */
  method FillEnv(a: array<byte>, argv: seq<seq<byte>>, envp: seq<seq<byte>>, n: nat, from: nat, ghost w: seq<nat>)
    requires n == |argv| + |envp| + 3 && 8 * n + |Flat(argv)| + |Flat(envp)| <= a.Length < LIMIT
    requires from == 8 * n + |Flat(argv)| && Filled(a[..], n, w, from, Flat(argv)) && w[0] == |argv| && RunAt(w, 1, 8 * n, argv, 0)
    modifies a
    ensures Holds(a[..], argv, envp, 0)
  {
    var cur := Place(a, envp, |argv| + 2, from, n, w, Flat(argv));
    ghost var w3 := Patched(w, |argv| + 2, Starts(from, envp));
    SetWord(a, |argv| + 2 + |envp|, 0, n, w3, cur, Flat(argv) + Flat(envp));
    PointersBuilt(argv, envp, w, w3, w3[|argv| + 2 + |envp| := 0]);
  }

  lemma PointersBuilt(argv: seq<seq<byte>>, envp: seq<seq<byte>>, w: seq<nat>, w3: seq<nat>, w4: seq<nat>)
    requires |w| == |argv| + |envp| + 3 && w[0] == |argv| && RunAt(w, 1, 8 * |w|, argv, 0)
    requires w3 == Patched(w, |argv| + 2, Starts(8 * |w| + |Flat(argv)|, envp)) && w4 == w3[|argv| + 2 + |envp| := 0]
    ensures Pointers(w4, argv, envp, 0)
  {
    forall j | 0 <= j < |argv| + 2
      ensures w4[j] == w[j]
    {
    }
  }

  // ----- Relocation -----

  /** Words c0 to c0 + m are higher by rsp, the others the same. */
  ghost predicate ShiftedBy(w: seq<nat>, w': seq<nat>, c0: nat, m: nat, rsp: nat) {
    |w'| == |w| && forall j {:trigger w'[j]} :: 0 <= j < |w| ==> w'[j] == if c0 <= j < c0 + m then w[j] + rsp else w[j]
  }

  /** Each of the two loops that make pointers absolute: up to the first zero word. */
  method ShiftRun(a: array<byte>, c0: nat, rsp: nat, ghost n: nat, ghost w: seq<nat>, ghost m: nat, ghost cur: nat, ghost text: seq<byte>)
      returns (c: nat, ghost w': seq<nat>)
    requires Filled(a[..], n, w, cur, text) && c0 + m < |w| && w[c0 + m] == 0
    requires forall j :: c0 <= j < c0 + m ==> 0 < w[j] && w[j] + rsp < LIMIT
    modifies a
    ensures c == c0 + m && ShiftedBy(w, w', c0, m, rsp) && Filled(a[..], n, w', cur, text)
  {
    c := c0;
    w' := w;
    while WordAt(a[..], c) != 0
      invariant c0 <= c <= c0 + m && Filled(a[..], n, w', cur, text) && ShiftedBy(w, w', c0, c - c0, rsp)
      decreases c0 + m - c
    {
      assert WordAt(a[..], c) == w'[c] == w[c];
      var v := WordAt(a[..], c);
      SetWord(a, c, v + rsp, n, w', cur, text);
      w' := w'[c := v + rsp];
      c := c + 1;
    }
    assert WordAt(a[..], c) == w'[c] == w[c];
  }

  lemma {:induction false} StartsBound(from: nat, strs: seq<seq<byte>>, k: nat)
    requires k < |strs|
    ensures from <= StartOf(from, strs, k) < from + |Flat(strs)|
  {
    FlatPrefix(strs, k);
  }

  lemma RunBound(w: seq<nat>, i: nat, from: nat, strs: seq<seq<byte>>)
    requires RunAt(w, i, from, strs, 0)
    ensures forall j {:trigger w[j]} :: i <= j < i + |strs| ==> from <= w[j] < from + |Flat(strs)|
  {
    forall j | i <= j < i + |strs|
      ensures from <= w[j] < from + |Flat(strs)|
    {
      StartsBound(from, strs, j - i);
    }
  }

  /** Relocating both runs. */
  lemma BothShifted(w: seq<nat>, w1: seq<nat>, w2: seq<nat>, argv: seq<seq<byte>>, envp: seq<seq<byte>>, rsp: nat)
    requires Pointers(w, argv, envp, 0) && ShiftedBy(w, w1, 1, |argv|, rsp) && ShiftedBy(w1, w2, |argv| + 2, |envp|, rsp)
    ensures Pointers(w2, argv, envp, rsp)
  {
    forall j | 0 <= j < |w|
      ensures w2[j] == if 1 <= j < 1 + |argv| || |argv| + 2 <= j < |argv| + 2 + |envp| then w[j] + rsp else w[j]
    {
      assert w1[j] == if 1 <= j < 1 + |argv| then w[j] + rsp else w[j];
    }
  }

  /** Both loops. */
  method ShiftRuns(a: array<byte>, rsp: nat, ghost n: nat, ghost w: seq<nat>, ghost m: nat, ghost l: nat, ghost cur: nat, ghost text: seq<byte>)
      returns (ghost w1: seq<nat>, ghost w2: seq<nat>)
    requires Filled(a[..], n, w, cur, text) && m + l + 2 < |w| && w[1 + m] == 0 && w[m + 2 + l] == 0
    requires forall j :: 1 <= j < 1 + m || m + 2 <= j < m + 2 + l ==> 0 < w[j] && w[j] + rsp < LIMIT
    modifies a
    ensures ShiftedBy(w, w1, 1, m, rsp) && ShiftedBy(w1, w2, m + 2, l, rsp) && Filled(a[..], n, w2, cur, text)
  {
    var c;
    c, w1 := ShiftRun(a, 1, rsp, n, w, m, cur, text);
    c := c + 1;
    c, w2 := ShiftRun(a, c, rsp, n, w1, l, cur, text);
  }

  /** The copy onto the user stack at rsp, with its pointers made absolute. */
  method Relocate(a: array<byte>, rsp: nat, ghost argv: seq<seq<byte>>, ghost envp: seq<seq<byte>>)
    requires Holds(a[..], argv, envp, 0) && rsp + a.Length <= LIMIT
    modifies a
    ensures Holds(a[..], argv, envp, rsp)
  {
    ghost var n := |argv| + |envp| + 3;
    ghost var w := Words(a[..], n);
    ghost var cur, text := 8 * n + |Flat(argv)| + |Flat(envp)|, Flat(argv) + Flat(envp);
    ghost var w2 := ShiftPointers(a, rsp, n, w, argv, envp, cur, text);
  }

  method ShiftPointers(a: array<byte>, rsp: nat, ghost n: nat, ghost w: seq<nat>, ghost argv: seq<seq<byte>>, ghost envp: seq<seq<byte>>,
                       ghost cur: nat, ghost text: seq<byte>)
      returns (ghost w2: seq<nat>)
    requires Filled(a[..], n, w, cur, text) && Pointers(w, argv, envp, 0) && rsp + cur <= LIMIT
    requires 8 * |w| + |Flat(argv)| + |Flat(envp)| <= cur
    modifies a
    ensures Filled(a[..], n, w2, cur, text) && Pointers(w2, argv, envp, rsp)
  {
    ReadyToShift(w, argv, envp, rsp, cur);
    ghost var w1;
    w1, w2 := ShiftRuns(a, rsp, n, w, |argv|, |envp|, cur, text);
    BothShifted(w, w1, w2, argv, envp, rsp);
  }

  lemma ReadyToShift(w: seq<nat>, argv: seq<seq<byte>>, envp: seq<seq<byte>>, rsp: nat, length: nat)
    requires Pointers(w, argv, envp, 0) && 8 * |w| + |Flat(argv)| + |Flat(envp)| <= length && rsp + length <= LIMIT
    ensures w[1 + |argv|] == 0 && w[|argv| + 2 + |envp|] == 0
    ensures forall j :: 1 <= j < 1 + |argv| || |argv| + 2 <= j < |argv| + 2 + |envp| ==> 0 < w[j] && w[j] + rsp < LIMIT
  {
    RunBound(w, 1, 8 * |w|, argv);
    RunBound(w, |argv| + 2, 8 * |w| + |Flat(argv)|, envp);
  }

  // ----- The reader -----

  /** The strings behind the pointers from word i up to the first NULL, in memory that starts at rsp. */
  function ReadList(b: seq<byte>, rsp: nat, i: nat): (r: seq<seq<byte>>)
    decreases |b| - i
  {
    if 8 * i + 8 > |b| || WordAt(b, i) < rsp || WordAt(b, i) == 0 then []
    else [CString(b, WordAt(b, i) - rsp)] + ReadList(b, rsp, i + 1)
  }

  /** argc as crt1 reads it: the low 32 bits. */
  function ReadArgc(b: seq<byte>): nat
    requires |b| >= 8
  {
    WordAt(b, 0) % 0x1_0000_0000
  }

  /** From word i on there are pointers to the given strings, and NULL. */
  ghost predicate PointsTo(b: seq<byte>, rsp: nat, i: nat, strs: seq<seq<byte>>)
    decreases |strs|
  {
    && 8 * i + 8 <= |b|
    && if strs == [] then WordAt(b, i) == 0
       else WordAt(b, i) >= rsp && CString(b, WordAt(b, i) - rsp) == strs[0] && PointsTo(b, rsp, i + 1, strs[1..])
  }

  lemma {:induction false} ListRead(b: seq<byte>, rsp: nat, i: nat, strs: seq<seq<byte>>)
    requires PointsTo(b, rsp, i, strs) && rsp > 0
    ensures ReadList(b, rsp, i) == strs
    decreases |strs|
  {
    if strs != [] { ListRead(b, rsp, i + 1, strs[1..]); }
  }

  lemma {:induction false} RunPoints(b: seq<byte>, rsp: nat, n: nat, i: nat, from: nat, strs: seq<seq<byte>>, k: nat)
    requires 8 * n <= |b| && RunAt(Words(b, n), i, from, strs, rsp) && k <= |strs| && StringsAt(b, from, strs)
    ensures PointsTo(b, rsp, i + k, strs[k..])
    decreases |strs| - k
  {
    WordOfRun(b, rsp, n, i, from, strs, k);
    if k < |strs| {
      RunPoints(b, rsp, n, i, from, strs, k + 1);
      assert strs[k..][0] == strs[k] && strs[k..][1..] == strs[k + 1..];
      assert i + k + 1 == i + (k + 1);
    }
  }

  ghost predicate StringsAt(b: seq<byte>, from: nat, strs: seq<seq<byte>>) {
    forall k {:trigger StartOf(from, strs, k)} :: 0 <= k < |strs| ==> CString(b, StartOf(from, strs, k)) == strs[k]
  }

  lemma StringsRead(b: seq<byte>, from: nat, strs: seq<seq<byte>>)
    requires AllPlain(strs) && from + |Flat(strs)| <= |b| && b[from..from + |Flat(strs)|] == Flat(strs)
    ensures StringsAt(b, from, strs)
  {
    forall k | 0 <= k < |strs|
      ensures CString(b, StartOf(from, strs, k)) == strs[k]
    {
      StringRead(b, from, strs, k);
    }
  }

  lemma WordOfRun(b: seq<byte>, rsp: nat, n: nat, i: nat, from: nat, strs: seq<seq<byte>>, k: nat)
    requires 8 * n <= |b| && RunAt(Words(b, n), i, from, strs, rsp) && k <= |strs|
    ensures 8 * (i + k) + 8 <= |b| && WordAt(b, i + k) == if k < |strs| then StartOf(from, strs, k) + rsp else 0
  {
    assert WordAt(b, i + k) == Words(b, n)[i + k];
  }

  lemma StringRead(b: seq<byte>, from: nat, strs: seq<seq<byte>>, k: nat)
    requires k < |strs| && AllPlain(strs) && from + |Flat(strs)| <= |b| && b[from..from + |Flat(strs)|] == Flat(strs)
    ensures CString(b, StartOf(from, strs, k)) == strs[k]
  {
    FlatPrefix(strs, k);
    StringInside(b, from, Flat(strs), Flat(strs[..k]), strs[k]);
    CStringIs(b, StartOf(from, strs, k), strs[k]);
  }

  lemma StringInside(b: seq<byte>, from: nat, whole: seq<byte>, f: seq<byte>, s: seq<byte>)
    requires from + |whole| <= |b| && b[from..from + |whole|] == whole && f + s + [0] <= whole
    ensures from + |f| + |s| < |b| && b[from + |f|..from + |f| + |s|] == s && b[from + |f| + |s|] == 0
  {
    var p := f + s + [0];
    forall x | 0 <= x < |p|
      ensures b[from + x] == p[x]
    {
      assert b[from + x] == b[from..from + |whole|][x] == whole[..|p|][x];
    }
    assert b[from + |f| + |s|] == p[|f| + |s|];
    forall x | 0 <= x < |s|
      ensures b[from + |f| + x] == s[x]
    {
      assert b[from + (|f| + x)] == p[|f| + x];
    }
  }

  /** What crt1 finds on the stack is what sys_exec was given. */
  lemma ReaderInvertsBuilder(b: seq<byte>, argv: seq<seq<byte>>, envp: seq<seq<byte>>, rsp: nat)
    requires Holds(b, argv, envp, rsp) && AllPlain(argv) && AllPlain(envp) && rsp > 0 && |argv| < 0x8000_0000
    ensures ReadArgc(b) == |argv|
    ensures ReadList(b, rsp, 1) == argv
    ensures ReadList(b, rsp, ReadArgc(b) + 2) == envp
  {
    assert WordAt(b, 0) == Words(b, |argv| + |envp| + 3)[0];
    ReadsArgv(b, argv, envp, rsp);
    ReadsEnv(b, argv, envp, rsp);
  }

  /** A run of pointers with its strings reads as the strings. */
  lemma RunRead(b: seq<byte>, rsp: nat, n: nat, i: nat, from: nat, strs: seq<seq<byte>>)
    requires 8 * n <= |b| && RunAt(Words(b, n), i, from, strs, rsp) && AllPlain(strs) && rsp > 0
    requires from + |Flat(strs)| <= |b| && b[from..from + |Flat(strs)|] == Flat(strs)
    ensures ReadList(b, rsp, i) == strs
  {
    StringsRead(b, from, strs);
    RunPoints(b, rsp, n, i, from, strs, 0);
    assert strs[0..] == strs;
    ListRead(b, rsp, i, strs);
  }

  lemma ReadsArgv(b: seq<byte>, argv: seq<seq<byte>>, envp: seq<seq<byte>>, rsp: nat)
    requires Holds(b, argv, envp, rsp) && AllPlain(argv) && rsp > 0
    ensures ReadList(b, rsp, 1) == argv
  {
    var n := |argv| + |envp| + 3;
    TextParts(b, 8 * n, Flat(argv), Flat(envp));
    RunRead(b, rsp, n, 1, 8 * n, argv);
  }

  lemma ReadsEnv(b: seq<byte>, argv: seq<seq<byte>>, envp: seq<seq<byte>>, rsp: nat)
    requires Holds(b, argv, envp, rsp) && AllPlain(envp) && rsp > 0
    ensures ReadList(b, rsp, |argv| + 2) == envp
  {
    var n := |argv| + |envp| + 3;
    TextParts(b, 8 * n, Flat(argv), Flat(envp));
    RunRead(b, rsp, n, |argv| + 2, 8 * n + |Flat(argv)|, envp);
  }

  lemma TextParts(b: seq<byte>, from: nat, s: seq<byte>, t: seq<byte>)
    requires from + |s| + |t| <= |b| && b[from..from + |s| + |t|] == s + t
    ensures b[from..from + |s|] == s && b[from + |s|..from + |s| + |t|] == t
  {
    assert b[from..from + |s| + |t|][..|s|] == b[from..from + |s|];
    assert b[from..from + |s| + |t|][|s|..] == b[from + |s|..from + |s| + |t|];
  }

  /** The whole way of sys_exec's arguments: built, copied to rsp, relocated, and read by crt1. */
  method Exec(argv: seq<seq<byte>>, envp: seq<seq<byte>>, rsp: nat) returns (a: array<byte>)
    requires AllPlain(argv) && AllPlain(envp) && |argv| < 0x8000_0000 && rsp > 0
    requires rsp + 8 * (|argv| + |envp| + 4) + |Flat(argv)| + |Flat(envp)| <= LIMIT
    ensures fresh(a) && a.Length == 8 * (|argv| + |envp| + 4) + |Flat(argv)| + |Flat(envp)|
    ensures ReadArgc(a[..]) == |argv| && ReadList(a[..], rsp, 1) == argv && ReadList(a[..], rsp, |argv| + 2) == envp
  {
    a := Build(argv, envp);
    Relocate(a, rsp, argv, envp);
    ReaderInvertsBuilder(a[..], argv, envp, rsp);
  }
}
