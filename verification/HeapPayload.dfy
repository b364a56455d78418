/** Payloads of live blocks: what their owners may write without disturbing the heap, and the byte
    copies that sf_realloc and sf_calloc make in them. */
module HeapPayload {
  import opened Bytes
  import opened Words
  import opened HeapModel
  import opened HeapSteps

  /** Words inside the live block h change, and it stays one live block or becomes two. */
  ghost predicate Rewritten(m: seq<Word>, v: View, m': seq<Word>, v': View, h: int, y: int) {
    && |m'| == |m| && WellFormed(m, v) && h in v.starts && 0 < h < |m| && !IsFree(m, h)
    && h < y <= End(m, h) <= |m|
    && v' == v.(starts := v.starts + if y < End(m, h) then {y} else {})
    && (forall i :: 0 <= i < |m| && !(h <= i < End(m, h)) ==> m'[i] == m[i])
    && Stands(m', h, y) && !IsFree(m', h)
    && (y < End(m, h) ==> Stands(m', y, End(m, h)) && !IsFree(m', y))
  }

  lemma RewrittenOthers(m: seq<Word>, v: View, m': seq<Word>, v': View, h: int, y: int, s: int)
    requires Rewritten(m, v, m', v', h, y) && s in v.starts && s != h
    ensures 0 < s < |m| - 2 && Untouched(m, m', s) && SameBlock(m, m', s)
    ensures s + 4 <= End(m, s) && (s < h || s >= End(m, h))
  {
    Disjoint(m, v, s, h);
  }

  lemma RewrittenTiles(m: seq<Word>, v: View, m': seq<Word>, v': View, h: int, y: int)
    requires Rewritten(m, v, m', v', h, y)
    ensures Tiled(m', v')
  {
    var e := End(m, h);
    StepAhead(m, v, h);
    forall s | s in v.starts && (s < h || s >= e)
      ensures 0 <= s < |m| && Untouched(m, m', s)
    {
      RewrittenOthers(m, v, m', v', h, y, s);
    }
    Retile(m, v, m', v', h, y, e);
  }

  lemma RewrittenFree(m: seq<Word>, v: View, m': seq<Word>, v': View, h: int, y: int)
    requires Rewritten(m, v, m', v', h, y)
    ensures FreeBlocks(m', v') == FreeBlocks(m, v)
  {
    forall s
      ensures s in FreeBlocks(m', v') <==> s in FreeBlocks(m, v)
    {
      if s in v.starts && s != h {
        RewrittenOthers(m, v, m', v', h, y, s);
        assert s in v'.starts;
      }
    }
  }

  lemma RewrittenLinks(m: seq<Word>, v: View, m': seq<Word>, v': View, h: int, y: int)
    requires Rewritten(m, v, m', v', h, y)
    ensures FreeList(m', FreeBlocks(m', v'), v'.head)
  {
    RewrittenFree(m, v, m', v', h, y);
    var F := FreeBlocks(m, v);
    forall s | s in F
      ensures Linked(m', F, s)
    {
      assert Linked(m, F, s);
      RewrittenOthers(m, v, m', v', h, y, s);
    }
  }

  lemma RewrittenSpaced(m: seq<Word>, v: View, m': seq<Word>, v': View, h: int, y: int, s: int)
    requires Rewritten(m, v, m', v', h, y) && Coalesced(m, v, 0) && s in v'.starts
    ensures Separated(m', v', s, 0)
  {
    if s in v.starts && s != h {
      assert Separated(m, v, s, 0);
      StepAhead(m, v, s);
      RewrittenOthers(m, v, m', v', h, y, s);
      var t := End(m, s);
      if t != v.hi && t != h { RewrittenOthers(m, v, m', v', h, y, t); }
    }
  }

  /** The heap stays well formed, and no other live block changes, whatever is written into a live
      block that keeps its tags in order. */
  lemma Rewrite(m: seq<Word>, v: View, m': seq<Word>, v': View, h: int, y: int)
    requires Rewritten(m, v, m', v', h, y)
    ensures WellFormed(m', v') && OthersKept(m, v, m', v', h) && NoNewLive(m, v, m', v', y)
    ensures y == End(m, h) ==> NoNewLive(m, v, m', v', -1)
    ensures Coalesced(m, v, 0) ==> Coalesced(m', v', 0)
  {
    RewrittenTiles(m, v, m', v', h, y);
    RewrittenLinks(m, v, m', v', h, y);
    forall s | s in v.starts && s != h
      ensures SameBlock(m, m', s)
    {
      RewrittenOthers(m, v, m', v', h, y, s);
    }
    forall s | s in v'.starts && (s != y || y == End(m, h)) && 0 <= s < |m'| && !IsFree(m', s)
      ensures s in v.starts && !IsFree(m, s)
    {
      if s != h { RewrittenOthers(m, v, m', v', h, y, s); }
    }
    if Coalesced(m, v, 0) {
      forall s | s in v'.starts
        ensures Separated(m', v', s, 0)
      {
        RewrittenSpaced(m, v, m', v', h, y, s);
      }
    }
  }

  /** Writes to the payload of a live block alone. */
  lemma PayloadWritten(m: seq<Word>, v: View, m': seq<Word>, h: int)
    requires |m'| == |m| && WellFormed(m, v) && h in v.starts && 0 < h < |m| && !IsFree(m, h)
    requires forall i :: 0 <= i < |m| && !(h < i < End(m, h) - 1) ==> m'[i] == m[i]
    ensures WellFormed(m', v) && OthersKept(m, v, m', v, h) && NoNewLive(m, v, m', v, -1)
    ensures Coalesced(m, v, 0) ==> Coalesced(m', v, 0)
  {
    StepAhead(m, v, h);
    assert Block(m, v, h);
    assert v.starts + {} == v.starts;
    Rewrite(m, v, m', v, h, End(m, h));
  }

  // ----- Bytes -----

  /** Byte k of the memory that starts at word p. */
  function ByteAt(m: seq<Word>, p: int, k: nat): byte
    requires 0 <= p && p + k / 8 < |m|
  {
    ByteOf(m[p + k / 8], k % 8)
  }

  /** The first n bytes at q in m' are those at p in m. */
  ghost predicate SameBytes(m: seq<Word>, p: int, m': seq<Word>, q: int, n: nat) {
    && 0 <= p && 0 <= q
    && (forall k: nat :: k < n ==> p + k / 8 < |m| && q + k / 8 < |m'| && ByteAt(m', q, k) == ByteAt(m, p, k))
  }

  /** One byte stored at k leaves the bytes before it alone. */
  lemma EarlierByte(m: seq<Word>, m': seq<Word>, p: int, k: nat, b: byte, j: nat)
    requires |m'| == |m| && 0 <= p && p + k / 8 < |m| && j <= k
    requires m' == m[p + k / 8 := SetByte(m[p + k / 8], k % 8, b)]
    ensures p + j / 8 < |m| && ByteAt(m', p, j) == if j == k then b else ByteAt(m, p, j)
  {
    assert j == 8 * (j / 8) + j % 8 && k == 8 * (k / 8) + k % 8;
    SetByteIsLocal(m[p + k / 8], k % 8, b, j % 8);
  }

  /** memcpy between two word-aligned areas that do not overlap. */
  method CopyBytes(mem: array<Word>, dst: int, src: int, n: nat)
    requires 0 <= dst && dst + (n + 7) / 8 <= mem.Length && 0 <= src && src + (n + 7) / 8 <= mem.Length
    requires dst + (n + 7) / 8 <= src || src + (n + 7) / 8 <= dst
    modifies mem
    ensures SameBytes(old(mem[..]), src, mem[..], dst, n)
    ensures forall i :: 0 <= i < mem.Length && !(dst <= i < dst + (n + 7) / 8) ==> mem[i] == old(mem[i])
  {
    ghost var m := mem[..];
    var k := 0;
    while k < n
      invariant 0 <= k <= n
      invariant forall i :: 0 <= i < mem.Length && !(dst <= i < dst + (n + 7) / 8) ==> mem[i] == m[i]
      invariant SameBytes(m, src, mem[..], dst, k)
    {
      WithinWords(k, n);
      ghost var m1 := mem[..];
      var b := ByteOf(mem[src + k / 8], k % 8);
      mem[dst + k / 8] := SetByte(mem[dst + k / 8], k % 8, b);
      forall j: nat | j < k + 1
        ensures src + j / 8 < |m| && dst + j / 8 < mem.Length && ByteAt(mem[..], dst, j) == ByteAt(m, src, j)
      {
        EarlierByte(m1, mem[..], dst, k, b, j);
      }
      k := k + 1;
    }
  }

  lemma WithinWords(k: nat, n: nat)
    requires k < n
    ensures k / 8 < (n + 7) / 8
  {
  }

  /** memset to zero of the first n bytes at a word-aligned address. */
  method ZeroBytes(mem: array<Word>, dst: int, n: nat)
    requires 0 <= dst && dst + (n + 7) / 8 <= mem.Length
    modifies mem
    ensures forall k: nat :: k < n ==> dst + k / 8 < mem.Length && ByteAt(mem[..], dst, k) == 0
    ensures forall i :: 0 <= i < mem.Length && !(dst <= i < dst + (n + 7) / 8) ==> mem[i] == old(mem[i])
  {
    ghost var m := mem[..];
    var k := 0;
    while k < n
      invariant 0 <= k <= n
      invariant forall i :: 0 <= i < mem.Length && !(dst <= i < dst + (n + 7) / 8) ==> mem[i] == m[i]
      invariant forall j: nat :: j < k ==> dst + j / 8 < mem.Length && ByteAt(mem[..], dst, j) == 0
    {
      WithinWords(k, n);
      ghost var m1 := mem[..];
      mem[dst + k / 8] := SetByte(mem[dst + k / 8], k % 8, 0);
      forall j: nat | j < k + 1
        ensures dst + j / 8 < mem.Length && ByteAt(mem[..], dst, j) == 0
      {
        EarlierByte(m1, mem[..], dst, k, 0, j);
      }
      k := k + 1;
    }
  }
}
