/** Whole runs of a client of the kernel heap. The client keeps pointers in variables; the heap with its
    tags, lists, splits and merges is compared with a store in which every variable has bytes of its own. */
module HeapRuns {
  import opened Bytes
  import opened Words
  import opened HeapModel
  import opened HeapSteps
  import opened HeapPayload
  import opened KernelHeap

  /** A byte of a block: known from what was written, or any. */
  datatype Content = Known(b: byte) | Any

  /** What every variable stands for. */
  type Store = map<nat, seq<Content>>

  datatype Op =
    | Malloc(x: nat, size: nat)
    | Calloc(x: nat, size: nat)
    | Realloc(x: nat, size: nat)
    | Free(x: nat)
    | Poke(x: nat, at: nat, b: byte)

  predicate Sized(size: nat) {
    SizeAccepted(size) && size <= INT_SAFE
  }

  ghost predicate Legal(store: Store, op: Op) {
    match op
    case Malloc(x, size) => x !in store && Sized(size)
    case Calloc(x, size) => x !in store && Sized(size)
    case Realloc(x, size) => x in store && Sized(size)
    case Free(x) => x in store
    case Poke(x, at, b) => x in store && at < |store[x]|
  }

  ghost function Fill(n: nat, c: Content): seq<Content> {
    seq(n, _ => c)
  }

  /** The first bytes of what was there, and any behind them. */
  ghost function Resize(bytes: seq<Content>, n: nat): (r: seq<Content>)
    ensures |r| == n
  {
    if n <= |bytes| then bytes[..n] else bytes + Fill(n - |bytes|, Any)
  }

  /** One step of the simple store. No step relates two variables. */
  ghost function After(store: Store, op: Op): Store {
    if !Legal(store, op) then store else
    match op
    case Malloc(x, size) => store[x := Fill(size, Any)]
    case Calloc(x, size) => store[x := Fill(size, Known(0))]
    case Realloc(x, size) => store[x := Resize(store[x], size)]
    case Free(x) => store - {x}
    case Poke(x, at, b) => store[x := store[x][at := Known(b)]]
  }

  /** p is the pointer of a live block. */
  ghost predicate LiveAt(m: seq<Word>, v: View, p: int) {
    p - 1 in v.starts && 0 <= p - 1 < |m| && !IsFree(m, p - 1)
  }

  ghost predicate ByteIs(m: seq<Word>, p: int, k: nat, c: Content) {
    0 <= p && p + k / 8 < |m| && (c.Known? ==> ByteAt(m, p, k) == c.b)
  }

  /** The block behind p was asked for with this size, and has these bytes. */
  ghost predicate Has(m: seq<Word>, p: int, bytes: seq<Content>) {
    && 0 < p <= |m| && m[p - 1].Requested() == |bytes|
    && forall k: nat {:trigger bytes[k]} :: k < |bytes| ==> ByteIs(m, p, k, bytes[k])
  }

  /** The live blocks are those of the variables, one each, with their bytes. */
  ghost predicate Shows(m: seq<Word>, v: View, ptrs: map<nat, int>, store: Store) {
    && ptrs.Keys == store.Keys
    && (forall x {:trigger ptrs[x]} :: x in ptrs ==> LiveAt(m, v, ptrs[x]) && Has(m, ptrs[x], store[x]))
    && (forall x, y {:trigger ptrs[x], ptrs[y]} :: x in ptrs && y in ptrs && ptrs[x] == ptrs[y] ==> x == y)
    && (forall p {:trigger LiveAt(m, v, p)} :: LiveAt(m, v, p) ==> p in ptrs.Values)
  }

  /** The bytes of two variables do not share a word. */
  lemma NoOverlap(m: seq<Word>, v: View, ptrs: map<nat, int>, store: Store, x: nat, y: nat, j: nat, k: nat)
    requires WellFormed(m, v) && Shows(m, v, ptrs, store) && x in ptrs && y in ptrs && x != y && j < |store[x]| && k < |store[y]|
    ensures ptrs[x] + j / 8 != ptrs[y] + k / 8
  {
    var p, q := ptrs[x], ptrs[y];
    assert p != q;
    LiveApart(m, v, p - 1, q - 1);
    InBlock(m, v, p, j, |store[x]|);
    InBlock(m, v, q, k, |store[y]|);
  }

  /** Requested bytes lie in the payload. */
  lemma InBlock(m: seq<Word>, v: View, p: int, k: nat, n: nat)
    requires WellFormed(m, v) && LiveAt(m, v, p) && m[p - 1].Requested() == n && k < n
    ensures 0 < p <= p + k / 8 < End(m, p - 1) - 1 <= |m|
  {
    StepAhead(m, v, p - 1);
    assert Block(m, v, p - 1);
  }

  /** A block whose words stay keeps its bytes. */
  lemma HasKept(m: seq<Word>, v: View, m': seq<Word>, p: int, bytes: seq<Content>)
    requires WellFormed(m, v) && LiveAt(m, v, p) && Has(m, p, bytes) && SameBlock(m, m', p - 1)
    ensures Has(m', p, bytes)
  {
    forall k: nat | k < |bytes|
      ensures ByteIs(m', p, k, bytes[k])
    {
      InBlock(m, v, p, k, |bytes|);
      assert ByteIs(m, p, k, bytes[k]);
    }
  }

  /** Every block but h that was live is live, and has its bytes. */
  lemma OneKept(m: seq<Word>, v: View, m': seq<Word>, v': View, h: int, p: int, bytes: seq<Content>)
    requires WellFormed(m, v) && LiveAt(m, v, p) && Has(m, p, bytes) && OthersKept(m, v, m', v', h) && p - 1 != h
    ensures LiveAt(m', v', p) && Has(m', p, bytes)
  {
    assert SameBlock(m, m', p - 1);
    HasKept(m, v, m', p, bytes);
  }

  /** A block that is live was live before, unless it is h. */
  lemma WasLive(m: seq<Word>, v: View, m': seq<Word>, v': View, h: int, p: int)
    requires NoNewLive(m, v, m', v', h) && LiveAt(m', v', p) && p - 1 != h
    ensures LiveAt(m, v, p)
  {
  }

  /** The same for variables. */
  lemma VarKept(m: seq<Word>, v: View, m': seq<Word>, v': View, ptrs: map<nat, int>, store: Store, x: nat, y: nat)
    requires WellFormed(m, v) && Shows(m, v, ptrs, store) && x in ptrs && y in ptrs && x != y && OthersKept(m, v, m', v', ptrs[x] - 1)
    ensures LiveAt(m', v', ptrs[y]) && Has(m', ptrs[y], store[y])
  {
    assert ptrs[y] != ptrs[x];
    OneKept(m, v, m', v', ptrs[x] - 1, ptrs[y], store[y]);
  }

  /** A live block that is not x's is another variable's. */
  lemma OtherVar(m: seq<Word>, v: View, m': seq<Word>, v': View, ptrs: map<nat, int>, store: Store, x: nat, h: int, q: int) returns (y: nat)
    requires Shows(m, v, ptrs, store) && NoNewLive(m, v, m', v', h) && LiveAt(m', v', q) && q - 1 != h && (x in ptrs ==> ptrs[x] != q)
    ensures y in ptrs && y != x && ptrs[y] == q
  {
    WasLive(m, v, m', v', h, q);
    y :| y in ptrs && ptrs[y] == q;
  }

  /** A new block for variable x, beside the old ones. */
  lemma NewShows(m: seq<Word>, v: View, m': seq<Word>, v': View, ptrs: map<nat, int>, store: Store, x: nat, p: int, bytes: seq<Content>)
    requires (ptrs != map[] ==> WellFormed(m, v)) && Shows(m, v, ptrs, store) && x !in ptrs && Provided(m, v, m', v', p - 1, |bytes|) && Has(m', p, bytes)
    ensures Shows(m', v', ptrs[x := p], store[x := bytes])
  {
    forall y | y in ptrs
      ensures LiveAt(m', v', ptrs[y]) && Has(m', ptrs[y], store[y]) && ptrs[y] != p
    {
      LiveToOthers(m, v, m', v', p - 1);
      OneKept(m, v, m', v', p - 1, ptrs[y], store[y]);
    }
    forall q | LiveAt(m', v', q)
      ensures q in ptrs[x := p].Values
    {
      if q == p {
        assert ptrs[x := p][x] == p;
      } else {
        var y := OtherVar(m, v, m', v', ptrs, store, x, p - 1, q);
        assert ptrs[x := p][y] == q;
      }
    }
  }

  lemma FreedShows(m: seq<Word>, v: View, m': seq<Word>, v': View, ptrs: map<nat, int>, store: Store, x: nat)
    requires WellFormed(m, v) && Shows(m, v, ptrs, store) && x in ptrs && Released(m, v, m', v', ptrs[x] - 1)
    ensures Shows(m', v', ptrs - {x}, store - {x})
  {
    var rest := ptrs - {x};
    forall y | y in rest
      ensures LiveAt(m', v', rest[y]) && Has(m', rest[y], store[y])
    {
      VarKept(m, v, m', v', ptrs, store, x, y);
    }
    forall q | LiveAt(m', v', q)
      ensures q in rest.Values
    {
      var y := OtherVar(m, v, m', v', ptrs, store, x, -1, q);
      assert rest[y] == q;
    }
  }

  lemma ResizedShows(m: seq<Word>, v: View, m': seq<Word>, v': View, ptrs: map<nat, int>, store: Store, x: nat, p: int, size: nat)
    requires WellFormed(m, v) && WellFormed(m', v') && Shows(m, v, ptrs, store) && x in ptrs && Resized(m, v, m', v', ptrs[x] - 1, p, size)
    ensures Shows(m', v', ptrs[x := p], store[x := Resize(store[x], size)])
  {
    forall y | y in ptrs && y != x
      ensures LiveAt(m', v', ptrs[y]) && Has(m', ptrs[y], store[y]) && ptrs[y] != p
    {
      VarKept(m, v, m', v', ptrs, store, x, y);
    }
    MovedHas(m, v, m', v', ptrs[x], p, store[x], size);
    forall q | LiveAt(m', v', q)
      ensures q in ptrs[x := p].Values
    {
      if q == p {
        assert ptrs[x := p][x] == p;
      } else {
        var y := OtherVar(m, v, m', v', ptrs, store, x, p - 1, q);
        assert ptrs[x := p][y] == q;
      }
    }
  }

  lemma MovedHas(m: seq<Word>, v: View, m': seq<Word>, v': View, p: int, p': int, bytes: seq<Content>, size: nat)
    requires WellFormed(m', v') && Has(m, p, bytes) && Resized(m, v, m', v', p - 1, p', size)
    ensures LiveAt(m', v', p') && Has(m', p', Resize(bytes, size))
  {
    var r := Resize(bytes, size);
    forall k: nat | k < size
      ensures ByteIs(m', p', k, r[k])
    {
      InBlock(m', v', p', k, size);
      if k < |bytes| { assert ByteIs(m, p, k, bytes[k]); }
    }
  }

  lemma PokedWord(m: seq<Word>, v: View, m': seq<Word>, p: int, at: nat, n: nat)
    requires WellFormed(m, v) && LiveAt(m, v, p) && m[p - 1].Requested() == n && at < n && p + at / 8 < |m| == |m'| && m' == m[p + at / 8 := m'[p + at / 8]]
    ensures WellFormed(m', v) && (Coalesced(m, v, 0) ==> Coalesced(m', v, 0))
    ensures LiveAt(m', v, p) && OthersKept(m, v, m', v, p - 1) && NoNewLive(m, v, m', v, -1)
  {
    InBlock(m, v, p, at, n);
    PayloadWritten(m, v, m', p - 1);
  }

  lemma PokedShows(m: seq<Word>, v: View, m': seq<Word>, ptrs: map<nat, int>, store: Store, x: nat, at: nat, b: byte)
    requires WellFormed(m, v) && Shows(m, v, ptrs, store) && x in ptrs && at < |store[x]| && ptrs[x] + at / 8 < |m|
    requires m' == m[ptrs[x] + at / 8 := SetByte(m[ptrs[x] + at / 8], at % 8, b)]
    ensures WellFormed(m', v) && (Coalesced(m, v, 0) ==> Coalesced(m', v, 0))
    ensures Shows(m', v, ptrs, store[x := store[x][at := Known(b)]])
  {
    var p := ptrs[x];
    PokedWord(m, v, m', p, at, |store[x]|);
    forall y | y in ptrs && y != x
      ensures LiveAt(m', v, ptrs[y]) && Has(m', ptrs[y], store[y])
    {
      VarKept(m, v, m', v, ptrs, store, x, y);
    }
    PokedHas(m, m', p, store[x], at, b);
    forall q | LiveAt(m', v, q)
      ensures q in ptrs.Values
    {
      WasLive(m, v, m', v, -1, q);
    }
  }

  lemma PokedHas(m: seq<Word>, m': seq<Word>, p: int, bytes: seq<Content>, at: nat, b: byte)
    requires Has(m, p, bytes) && at < |bytes| && p + at / 8 < |m| && m' == m[p + at / 8 := SetByte(m[p + at / 8], at % 8, b)]
    ensures Has(m', p, bytes[at := Known(b)])
  {
    var now := bytes[at := Known(b)];
    forall k: nat | k < |now|
      ensures ByteIs(m', p, k, now[k])
    {
      assert ByteIs(m, p, k, bytes[k]);
      if k / 8 == at / 8 {
        SetByteIsLocal(m[p + at / 8], at % 8, b, k % 8);
        assert k % 8 == at % 8 ==> k == at;
      }
    }
  }

  /** A block whose bytes are all the same, or any. */
  lemma FilledHas(m: seq<Word>, v: View, p: int, n: nat, c: Content)
    requires WellFormed(m, v) && LiveAt(m, v, p) && m[p - 1].Requested() == n
    requires c.Known? ==> forall k: nat :: k < n ==> p + k / 8 < |m| && ByteAt(m, p, k) == c.b
    ensures Has(m, p, Fill(n, c))
  {
    forall k: nat | k < n
      ensures ByteIs(m, p, k, c)
    {
      InBlock(m, v, p, k, n);
    }
    StepAhead(m, v, p - 1);
  }

  // ----- Steps -----

  /** The request cannot be met. */
  ghost predicate Exhausted(heap: Heap, size: nat)
    reads heap, heap.mem
  {
    heap.Valid() && NoRoom(heap.mem[..], heap.V(), heap.firstPageInitialized, heap.brk, heap.mem.Length, RealWords(size))
  }

  method DoMalloc(heap: Heap, x: nat, size: nat, ptrs: map<nat, int>, ghost store: Store) returns (halted: bool, ptrs': map<nat, int>)
    requires heap.Valid() && Shows(heap.mem[..], heap.V(), ptrs, store) && x !in ptrs && Sized(size)
    modifies heap, heap.mem
    ensures heap.Valid() && heap.complaints == old(heap.complaints)
    ensures halted ==> Exhausted(heap, size)
    ensures !halted ==> Shows(heap.mem[..], heap.V(), ptrs', store[x := Fill(size, Any)])
  {
    ghost var m, v, brk, first := heap.mem[..], heap.V(), heap.brk, heap.firstPageInitialized;
    var r, pages;
    halted, r, pages := heap.Malloc(size);
    SuppliedOrNoRoom(m, v, first, brk, heap.mem.Length, RealWords(size), pages, halted);
    ptrs' := ptrs[x := r];
    if !halted {
      FilledHas(heap.mem[..], heap.V(), r, size, Any);
      NewShows(m, v, heap.mem[..], heap.V(), ptrs, store, x, r, Fill(size, Any));
    }
  }

  /** sf_calloc(size, 1). */
  method DoCalloc(heap: Heap, x: nat, size: nat, ptrs: map<nat, int>, ghost store: Store) returns (halted: bool, ptrs': map<nat, int>)
    requires heap.Valid() && Shows(heap.mem[..], heap.V(), ptrs, store) && x !in ptrs && Sized(size)
    modifies heap, heap.mem
    ensures heap.Valid() && heap.complaints == old(heap.complaints)
    ensures halted ==> Exhausted(heap, size)
    ensures !halted ==> Shows(heap.mem[..], heap.V(), ptrs', store[x := Fill(size, Known(0))])
  {
    ghost var m, v, brk, first := heap.mem[..], heap.V(), heap.brk, heap.firstPageInitialized;
    assert size * 1 % WORD_LIMIT == size;
    var r, pages;
    halted, r, pages := heap.Calloc(size, 1);
    SuppliedOrNoRoom(m, v, first, brk, heap.mem.Length, RealWords(size), pages, halted);
    ptrs' := ptrs[x := r];
    if !halted {
      assert Zeroed(m, v, heap.mem[..], heap.V(), r, size);
      FilledHas(heap.mem[..], heap.V(), r, size, Known(0));
      NewShows(m, v, heap.mem[..], heap.V(), ptrs, store, x, r, Fill(size, Known(0)));
    }
  }

  /** A pointer of the client passes the tests of the kernel. */
  lemma PointerOk(m: seq<Word>, v: View, ptrs: map<nat, int>, store: Store, x: nat)
    requires Shows(m, v, ptrs, store) && x in ptrs && WellFormed(m, v)
    ensures LiveAt(m, v, ptrs[x]) && m[ptrs[x] - 1].Alloc() == 1 && ptrs[x] % 2 == 0 && v.lo < ptrs[x] <= v.hi
  {
    HeaderOk(m, v, ptrs[x] - 1);
  }

  lemma HeaderOk(m: seq<Word>, v: View, h: int)
    requires WellFormed(m, v) && h in v.starts && 0 <= h < |m| && !IsFree(m, h)
    ensures m[h].Alloc() == 1 && h % 2 == 1 && v.lo <= h < v.hi
  {
    StepAhead(m, v, h);
    assert Block(m, v, h);
  }

  method DoRealloc(heap: Heap, x: nat, size: nat, ptrs: map<nat, int>, ghost store: Store) returns (halted: bool, ptrs': map<nat, int>)
    requires heap.Valid() && Shows(heap.mem[..], heap.V(), ptrs, store) && x in ptrs && Sized(size)
    modifies heap, heap.mem
    ensures heap.Valid() && heap.complaints == old(heap.complaints)
    ensures halted ==> Exhausted(heap, size)
    ensures !halted ==> Shows(heap.mem[..], heap.V(), ptrs', store[x := Resize(store[x], size)])
  {
    ghost var m, v, brk := heap.mem[..], heap.V(), heap.brk;
    PointerOk(m, v, ptrs, store, x);
    var r, pages;
    halted, r, pages := heap.Realloc(ptrs[x], size);
    if halted { SuppliedOrNoRoom(m, v, true, brk, heap.mem.Length, RealWords(size), pages, halted); }
    ptrs' := ptrs[x := r];
    if !halted { ResizedShows(m, v, heap.mem[..], heap.V(), ptrs, store, x, r, size); }
  }

  method DoFree(heap: Heap, x: nat, ptrs: map<nat, int>, ghost store: Store) returns (ptrs': map<nat, int>)
    requires heap.Valid() && Shows(heap.mem[..], heap.V(), ptrs, store) && x in ptrs
    modifies heap, heap.mem
    ensures heap.Valid() && heap.complaints == old(heap.complaints)
    ensures Shows(heap.mem[..], heap.V(), ptrs', store - {x})
  {
    ghost var m, v := heap.mem[..], heap.V();
    PointerOk(m, v, ptrs, store, x);
    heap.Free(ptrs[x]);
    ptrs' := ptrs - {x};
    FreedShows(m, v, heap.mem[..], heap.V(), ptrs, store, x);
  }

  /** The client writes a byte of a block of its own. */
  method DoPoke(heap: Heap, x: nat, at: nat, b: byte, ptrs: map<nat, int>, ghost store: Store)
    requires heap.Valid() && Shows(heap.mem[..], heap.V(), ptrs, store) && x in ptrs && at < |store[x]|
    modifies heap.mem
    ensures heap.Valid() && Shows(heap.mem[..], heap.V(), ptrs, store[x := store[x][at := Known(b)]])
  {
    ghost var m, v := heap.mem[..], heap.V();
    PointerOk(m, v, ptrs, store, x);
    InBlock(m, v, ptrs[x], at, |store[x]|);
    var i := ptrs[x] + at / 8;
    heap.mem[i] := SetByte(heap.mem[i], at % 8, b);
    assert heap.mem[..] == m[i := heap.mem[i]];
    PokedShows(m, v, heap.mem[..], ptrs, store, x, at, b);
  }

  /** The heap takes the same step as the simple store, or runs out of its window and halts. */
  method Perform(heap: Heap, op: Op, ptrs: map<nat, int>, ghost store: Store) returns (halted: bool, ptrs': map<nat, int>)
    requires heap.Valid() && Shows(heap.mem[..], heap.V(), ptrs, store) && Legal(store, op)
    modifies heap, heap.mem
    ensures heap.Valid() && heap.complaints == old(heap.complaints)
    ensures halted ==> (op.Malloc? || op.Calloc? || op.Realloc?) && Exhausted(heap, op.size)
    ensures !halted ==> Shows(heap.mem[..], heap.V(), ptrs', After(store, op))
  {
    halted, ptrs' := false, ptrs;
    match op
    case Malloc(x, size) => halted, ptrs' := DoMalloc(heap, x, size, ptrs, store);
    case Calloc(x, size) => halted, ptrs' := DoCalloc(heap, x, size, ptrs, store);
    case Realloc(x, size) => halted, ptrs' := DoRealloc(heap, x, size, ptrs, store);
    case Free(x) => ptrs' := DoFree(heap, x, ptrs, store);
    case Poke(x, at, b) => DoPoke(heap, x, at, b, ptrs, store);
  }

  // ----- Runs -----

  ghost function AfterAll(store: Store, ops: seq<Op>, n: nat): Store
    requires n <= |ops|
  {
    if n == 0 then store else After(AfterAll(store, ops, n - 1), ops[n - 1])
  }

  ghost predicate LegalAt(store: Store, ops: seq<Op>, k: nat) {
    k < |ops| && Legal(AfterAll(store, ops, k), ops[k])
  }

  ghost predicate AllLegal(store: Store, ops: seq<Op>) {
    forall k: nat {:trigger LegalAt(store, ops, k)} :: k < |ops| ==> LegalAt(store, ops, k)
  }

  /** The heap has kept up with the simple store for n operations, unless it has halted. */
  ghost predicate Going(m: seq<Word>, v: View, ptrs: map<nat, int>, store: Store, ops: seq<Op>, n: nat, halted: bool) {
    n <= |ops| && (!halted ==> Shows(m, v, ptrs, AfterAll(store, ops, n)))
  }

  /** Operation n - 1 asked for more than there is. */
  ghost predicate AskedTooMuch(heap: Heap, ops: seq<Op>, n: nat)
    reads heap, heap.mem
  {
    0 < n <= |ops| && (ops[n - 1].Malloc? || ops[n - 1].Calloc? || ops[n - 1].Realloc?) && Exhausted(heap, ops[n - 1].size)
  }

  lemma NextStep(store: Store, ops: seq<Op>, n: nat, now: Store)
    requires n < |ops| && now == AfterAll(store, ops, n)
    ensures AfterAll(store, ops, n + 1) == After(now, ops[n])
  {
  }

  method Turn(heap: Heap, ops: seq<Op>, n: nat, ptrs: map<nat, int>, ghost store: Store) returns (halted: bool, n': nat, ptrs': map<nat, int>)
    requires heap.Valid() && n < |ops| && AllLegal(store, ops) && Going(heap.mem[..], heap.V(), ptrs, store, ops, n, false)
    modifies heap, heap.mem
    ensures heap.Valid() && heap.complaints == old(heap.complaints)
    ensures n' == n + 1 && Going(heap.mem[..], heap.V(), ptrs', store, ops, n', halted) && (halted ==> AskedTooMuch(heap, ops, n'))
  {
    ghost var now := AfterAll(store, ops, n);
    assert LegalAt(store, ops, n);
    NextStep(store, ops, n, now);
    halted, ptrs' := Perform(heap, ops[n], ptrs, now);
    n' := n + 1;
  }

  /** Over every run of requests and writes, every variable has the bytes it would have with a store of
      its own, and the allocator makes no complaint. It halts only on a request that no free block and no
      page of the window can meet. */
  method Run(heap: Heap, ops: seq<Op>, ptrs0: map<nat, int>, ghost store: Store) returns (halted: bool, n: nat, ptrs: map<nat, int>)
    requires heap.Valid() && Shows(heap.mem[..], heap.V(), ptrs0, store) && AllLegal(store, ops)
    modifies heap, heap.mem
    ensures heap.Valid() && heap.complaints == old(heap.complaints)
    ensures halted ==> AskedTooMuch(heap, ops, n)
    ensures !halted ==> Shows(heap.mem[..], heap.V(), ptrs, AfterAll(store, ops, |ops|))
  {
    ghost var c := heap.complaints;
    halted, n, ptrs := false, 0, ptrs0;
    while !halted && n < |ops|
      invariant heap.Valid() && heap.complaints == c && Going(heap.mem[..], heap.V(), ptrs, store, ops, n, halted)
      invariant halted ==> AskedTooMuch(heap, ops, n)
      decreases |ops| - n
    {
      halted, n, ptrs := Turn(heap, ops, n, ptrs, store);
    }
  }

  /** A heap before its first request shows the empty store. */
  lemma EmptyShows(m: seq<Word>, v: View)
    requires v.starts == {}
    ensures Shows(m, v, map[], map[])
  {
  }

  /** A run from the first request: byte 5 of a block is still there after the block next to it was
      handed out, and the block itself was moved to a larger place. */
  method KeptByte(words: nat, b: byte) returns (halted: bool, found: byte)
    requires 0x8_0000 <= words <= WINDOW
    ensures !halted ==> found == b
  {
    var heap := new Heap(words);
    EmptyShows(heap.mem[..], heap.V());
    var ops := [Malloc(0, 100), Poke(0, 5, b), Malloc(1, 200), Realloc(0, 5000), Free(1)];
    ghost var store := KeptSteps(ops, b);
    var n, ptrs;
    halted, n, ptrs := Run(heap, ops, map[], map[]);
    if halted { return true, 0; }
    assert ByteIs(heap.mem[..], ptrs[0], 5, store[0][5]);
    found := ByteOf(heap.mem[ptrs[0]], 5);
  }

  lemma KeptSteps(ops: seq<Op>, b: byte) returns (store: Store)
    requires ops == [Malloc(0, 100), Poke(0, 5, b), Malloc(1, 200), Realloc(0, 5000), Free(1)]
    ensures AllLegal(map[], ops) && store == AfterAll(map[], ops, 5) && 0 in store && |store[0]| == 5000 && store[0][5] == Known(b)
  {
    var s1: Store := map[0 := Fill(100, Any)];
    var s2: Store := s1[0 := s1[0][5 := Known(b)]];
    var s3: Store := s2[1 := Fill(200, Any)];
    var s4: Store := s3[0 := Resize(s3[0], 5000)];
    store := s4 - {1};
    assert AfterAll(map[], ops, 0) == map[];
    NextStep(map[], ops, 0, map[]);
    NextStep(map[], ops, 1, s1);
    NextStep(map[], ops, 2, s2);
    NextStep(map[], ops, 3, s3);
    NextStep(map[], ops, 4, s4);
    assert forall k: nat :: k < 5 ==> LegalAt(map[], ops, k);
  }

  /** What a shrinking realloc gives back is there for the next request: on a new heap, 3000 bytes are
      taken out of a block of 4000 that was cut to 16, and no page is taken for them. */
  method TakenFromTheRest(words: nat) returns (halted: bool, p: int, r: int, pages: int)
    requires 0x8_0000 <= words <= WINDOW
    ensures !halted ==> p != 0 && r != 0 && pages == 0
  {
    var heap := new Heap(words);
    p, r, pages := 0, 0, 0;
    halted, p, pages := heap.Malloc(4000);
    if halted { return; }
    ghost var h := p - 1;
    RealWordsOf(4000, 502);
    RealWordsOf(3000, 378);
    RealWordsOf(16, 4);
    HeaderOk(heap.mem[..], heap.V(), h);
    var q;
    halted, q, pages := heap.Realloc(p, 16);
    assert q == p && End(heap.mem[..], h) + 498 <= End(heap.mem[..], End(heap.mem[..], h));
    assert SomeFits(heap.mem[..], heap.V(), 378);
    halted, r, pages := heap.Malloc(3000);
  }

  lemma RealWordsOf(size: nat, words: nat)
    requires words % 2 == 0 && size <= 8 * (words - 2) < size + 16
    ensures RealWords(size) == words
  {
    RealWordsFit(size);
  }
}
