/** A 64-bit memory word. The allocator writes words either as boundary tags with three bit fields
    (include/sys/memory/kmalloc.h) or as one number, a pointer or eight data bytes; whichever way a
    word was written, it can be read both ways. */
module Words {
  import opened Bytes

  const WORD_LIMIT := 0x1_0000_0000_0000_0000

  datatype AnyWord =
    | Tag(a: nat, b: nat, r: nat)
    | Raw(v: nat)
  {
    /** The 4-bit alloc field. */
    function Alloc(): nat {
      if Tag? then a else v % 0x10
    }

    /** The 28-bit block_size field, in units of 16 bytes. */
    function BlockSize(): nat {
      if Tag? then b else v / 0x10 % 0x1000_0000
    }

    /** The 32-bit requested_size field. */
    function Requested(): nat {
      if Tag? then r else v / 0x1_0000_0000
    }

    /** The word as one number. */
    function Value(): nat {
      if Tag? then a + 0x10 * b + 0x1_0000_0000 * r else v
    }
  }

  type Word = w: AnyWord |
      if w.Tag? then w.a < 0x10 && w.b < 0x1000_0000 && w.r < 0x1_0000_0000 else w.v < WORD_LIMIT
    witness Tag(0, 0, 0)

  const ZERO: Word := Tag(0, 0, 0)

  /** Both ways of writing a word describe the same 64 bits. */
  lemma TwoReadings(w: Word)
    ensures w.Value() < WORD_LIMIT
    ensures Raw(w.Value()).Alloc() == w.Alloc()
    ensures Raw(w.Value()).BlockSize() == w.BlockSize()
    ensures Raw(w.Value()).Requested() == w.Requested()
  {
  }

  function ByteOf(w: Word, k: nat): byte
    requires k < 8
  {
    Digit(w.Value(), k)
  }

  function SetByte(w: Word, k: nat, b: byte): (r: Word)
    requires k < 8
  {
    SetDigitBounded(w.Value(), k, b, 8);
    assert Pow256(8) == 256 * 256 * 256 * Pow256(5) == WORD_LIMIT;
    Raw(SetDigit(w.Value(), k, b))
  }

  /** Storing a byte changes that byte of the word and no other. */
  lemma SetByteIsLocal(w: Word, k: nat, b: byte, j: nat)
    requires k < 8 && j < 8
    ensures ByteOf(SetByte(w, k, b), j) == if j == k then b else ByteOf(w, j)
  {
    SetDigitIsLocal(w.Value(), k, b, j);
  }
}
