/** The bytes of a page. A frame is a sequence of 64-bit words in the fields of a table entry; bit 0 is
    P, bit 1 RW, bit 2 US, bits 12 to 51 the frame number. */
module PageBytes {
  import opened Bytes
  import opened PageTables

  /** A word as a number. */
  function CellValue(c: Cell): nat {
    (if c.p then 1 else 0) + (if c.rw then 2 else 0) + (if c.us then 4 else 0)
    + 8 * (c.rest % 512) + 0x1000 * c.frame + 0x10_0000_0000_0000 * (c.rest / 512)
  }

  function CellOf(v: nat): Cell {
    Cell(v % 2 == 1, v / 2 % 2 == 1, v / 4 % 2 == 1, v / 0x1000 % 0x100_0000_0000, v / 8 % 512 + 512 * (v / 0x10_0000_0000_0000))
  }

  lemma Split(v: nat, a: nat, b: nat)
    requires a > 0 && b > 0
    ensures v / a == v / a % b + b * (v / a / b)
  {
  }

  lemma Quotients(v: nat)
    ensures v / 2 / 2 == v / 4 && v / 4 / 2 == v / 8
  {
  }

  lemma LargeQuotients(v: nat)
    ensures v / 8 / 512 == v / 0x1000 && v / 0x1000 / 0x100_0000_0000 == v / 0x10_0000_0000_0000
  {
  }

  /** A number written into a word is read back. */
  lemma CellRoundTrip(v: nat)
    ensures CellValue(CellOf(v)) == v
  {
    Split(v, 1, 2);
    Split(v, 2, 2);
    Split(v, 4, 2);
    Split(v, 8, 512);
    Split(v, 0x1000, 0x100_0000_0000);
    Quotients(v);
    LargeQuotients(v);
    RestParts(v / 8 % 512, v / 0x10_0000_0000_0000);
  }

  /** The entry of a table or page of user code is its frame's address plus 7, that of a page without write
      permission plus 5, and that of one of the kernel's tables plus 3. */
  lemma EntryValues(frame: nat)
    ensures CellValue(Cell(true, true, true, frame, 0)) == 4096 * frame + 7
    ensures CellValue(Cell(true, false, true, frame, 0)) == 4096 * frame + 5
    ensures CellValue(Cell(true, true, false, frame, 0)) == 4096 * frame + 3
  {
  }

  lemma RestParts(lo: nat, hi: nat)
    requires lo < 512
    ensures (lo + 512 * hi) % 512 == lo && (lo + 512 * hi) / 512 == hi
  {
  }

  /** Byte `at` of a page. */
  function PageByte(words: seq<Cell>, at: nat): byte
    requires |words| == 512 && at < PAGE
  {
    Digit(CellValue(words[at / 8]), at % 8)
  }

  function SetPageByte(words: seq<Cell>, at: nat, b: byte): (r: seq<Cell>)
    requires |words| == 512 && at < PAGE
    ensures |r| == 512
  {
    words[at / 8 := CellOf(SetDigit(CellValue(words[at / 8]), at % 8, b))]
  }

  lemma SetPageByteIsLocal(words: seq<Cell>, at: nat, b: byte, j: nat)
    requires |words| == 512 && at < PAGE && j < PAGE
    ensures PageByte(SetPageByte(words, at, b), j) == if j == at then b else PageByte(words, j)
  {
    var v := SetDigit(CellValue(words[at / 8]), at % 8, b);
    CellRoundTrip(v);
    if j / 8 == at / 8 {
      SetDigitIsLocal(CellValue(words[at / 8]), at % 8, b, j % 8);
      assert j % 8 == at % 8 ==> j == at;
    }
  }

  lemma {:induction false} ZeroDigit(k: nat)
    ensures Digit(0, k) == 0
  {
    if k > 0 { ZeroDigit(k - 1); }
  }

  lemma ZeroPage(at: nat)
    requires at < PAGE
    ensures PageByte(ZeroFrame(), at) == 0
  {
    ZeroDigit(at % 8);
  }

  /** memcpy into a frame. */
  method PutPageBytes(words0: seq<Cell>, at: nat, s: seq<byte>) returns (words: seq<Cell>)
    requires |words0| == 512 && at + |s| <= PAGE
    ensures |words| == 512
    ensures forall j :: 0 <= j < PAGE ==> PageByte(words, j) == if at <= j < at + |s| then s[j - at] else PageByte(words0, j)
  {
    words := words0;
    var k := 0;
    while k < |s|
      invariant k <= |s| && |words| == 512
      invariant forall j :: 0 <= j < PAGE ==> PageByte(words, j) == if at <= j < at + k then s[j - at] else PageByte(words0, j)
    {
      ghost var before := words;
      words := SetPageByte(words, at + k, s[k]);
      forall j | 0 <= j < PAGE
        ensures PageByte(words, j) == if j == at + k then s[k] else PageByte(before, j)
      {
        SetPageByteIsLocal(before, at + k, s[k], j);
      }
      k := k + 1;
    }
  }
}
