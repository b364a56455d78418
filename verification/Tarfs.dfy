/** Reading files from the ustar archive linked into the kernel: sys/tarfs.c. */
module Tarfs {
  import opened Bytes

  /** Offset of the size field in a header, and the size of a header. */
  const SIZE_AT := 124
  const HEADER := 512

  // ----- Octal numbers -----

  ghost predicate Octal(s: seq<byte>) {
    forall i :: 0 <= i < |s| ==> '0' as int <= s[i] <= '7' as int
  }

  /** The value of an octal number, most significant digit first. */
  function OctValue(s: seq<byte>): int {
    if s == [] then 0 else 8 * OctValue(s[..|s| - 1]) + (s[|s| - 1] - '0' as int)
  }

  function Pow2(n: nat): nat {
    if n == 0 then 1 else 2 * Pow2(n - 1)
  }

  lemma Pow8Next(n: nat)
    ensures Pow2(3 * (n + 1)) == 8 * Pow2(3 * n)
  {
    var k := 3 * n + 3;
    assert Pow2(k) == 2 * Pow2(k - 1) && Pow2(k - 1) == 2 * Pow2(k - 2) && Pow2(k - 2) == 2 * Pow2(k - 3);
  }

  /** The first digit counts as much as its own value times a power of eight. */
  lemma {:induction false} OctCons(c: byte, s: seq<byte>)
    ensures OctValue([c] + s) == (c - '0' as int) * Pow2(3 * |s|) + OctValue(s)
  {
    if s == [] {
      assert [c] + s == [c] && [c][..0] == [];
    } else {
      var n := |s| - 1;
      OctCons(c, s[..n]);
      assert ([c] + s)[..|[c] + s| - 1] == [c] + s[..n];
      Pow8Next(n);
      EightTimes(c - '0' as int, Pow2(3 * n));
    }
  }

  lemma EightTimes(x: int, y: int)
    ensures 8 * (x * y) == x * (8 * y)
  {
  }

  lemma OctFront(s: seq<byte>, k: nat)
    requires k < |s|
    ensures OctValue(s[k..]) == (s[k] - '0' as int) * Pow2(3 * (|s| - k - 1)) + OctValue(s[k + 1..])
  {
    OctCons(s[k], s[k + 1..]);
    assert s[k..] == [s[k]] + s[k + 1..];
  }

  lemma {:induction false} CStringFacts(b: seq<byte>, at: nat)
    requires at <= |b|
    ensures var n := |CString(b, at)|;
            at + n <= |b| && CString(b, at) == b[at..at + n] && (at + n < |b| ==> b[at + n] == 0) && Plain(CString(b, at))
    decreases |b| - at
  {
    if at < |b| && b[at] != 0 {
      CStringFacts(b, at + 1);
      var n := |CString(b, at + 1)|;
      assert b[at..at + 1 + n] == [b[at]] + b[at + 1..at + 1 + n];
    }
  }

  method StrLen(b: seq<byte>, at: nat) returns (len: nat)
    requires at + |CString(b, at)| < |b|
    ensures len == |CString(b, at)|
  {
    CStringFacts(b, at);
    ghost var s := CString(b, at);
    len := 0;
    while b[at + len] != 0
      invariant len <= |s|
      decreases |s| - len
    {
      len := len + 1;
    }
    assert forall k :: 0 <= k < |s| ==> b[at + k] == s[k] != 0;
  }

  /** A digit shifted by 3 * i bits, as an `int`: 32 bits, and of the shift count the processor uses the
      low five bits. */
  function Shifted(d: int, i: nat): int {
    ToInt(d * Pow2(3 * i % 32))
  }

  /** The sum that read_oct computes. */
  function ShiftSum(s: seq<byte>): int {
    if s == [] then 0 else Shifted(s[0] - '0' as int, |s| - 1) + ShiftSum(s[1..])
  }

  lemma {:induction false} Pow2Grows(a: nat, b: nat)
    requires a <= b
    ensures Pow2(a) <= Pow2(b)
    decreases b
  {
    if a < b { Pow2Grows(a, b - 1); }
  }

  lemma Powers()
    ensures Pow2(27) == 0x800_0000 && Pow2(30) == 0x4000_0000 && Pow2(31) == 0x8000_0000 && Pow2(33) == 0x2_0000_0000
  {
    assert Pow2(8) == 0x100 by { assert Pow2(4) == 0x10; }
    assert Pow2(16) == 0x1_0000 by { assert Pow2(12) == 0x1000; }
    assert Pow2(24) == 0x100_0000 by { assert Pow2(20) == 0x10_0000; }
    assert Pow2(27) == 2 * (2 * (2 * Pow2(24)));
    assert Pow2(30) == 2 * (2 * (2 * Pow2(27)));
    assert Pow2(33) == 2 * (2 * (2 * Pow2(30)));
    assert Pow2(31) == 2 * Pow2(30);
  }

  lemma IntBelow(x: int)
    requires x >= 0
    ensures ToInt(x) <= x && (ToInt(x) == x <==> x < 0x8000_0000)
  {
  }

  lemma Product(d: int, x: int, y: int)
    requires 0 <= d <= 7 && x <= y
    ensures d * x <= d * y && (d > 0 && x < y ==> d * x < d * y) && (0 <= x ==> 0 <= d * x <= 7 * x)
  {
  }

  /** One digit comes out right exactly if what it stands for is below 2^31; otherwise too small. */
  lemma DigitExact(d: int, i: nat)
    requires 0 <= d <= 7
    ensures 0 <= d * Pow2(3 * i) && Shifted(d, i) <= d * Pow2(3 * i) && (Shifted(d, i) == d * Pow2(3 * i) <==> d * Pow2(3 * i) < 0x8000_0000)
  {
    if i <= 10 { SmallShift(d, 3 * i, 3 * i % 32); } else { LargeShift(d, 3 * i, 3 * i % 32); }
  }

  lemma SmallShift(d: int, n: nat, x: nat)
    requires 0 <= d <= 7 && x == n
    ensures 0 <= d * Pow2(n) && ToInt(d * Pow2(x)) <= d * Pow2(n) && (ToInt(d * Pow2(x)) == d * Pow2(n) <==> d * Pow2(n) < 0x8000_0000)
  {
    Product(d, 0, Pow2(n));
    IntBelow(d * Pow2(n));
  }

  /** A shift count of 33 or more is cut to 31 or less. */
  lemma LargeShift(d: int, n: nat, x: nat)
    requires 0 <= d <= 7 && n >= 33 && x <= 31
    ensures 0 <= d * Pow2(n) && ToInt(d * Pow2(x)) <= d * Pow2(n) && (ToInt(d * Pow2(x)) == d * Pow2(n) <==> d * Pow2(n) < 0x8000_0000)
  {
    Product(d, 0, Pow2(n));
    Powers();
    Pow2Grows(33, n);
    Pow2Grows(x, 31);
    LargeProduct(d, Pow2(x), Pow2(n));
  }

  lemma LargeProduct(d: int, x: nat, n: nat)
    requires 0 <= d <= 7 && x <= 0x8000_0000 && n >= 0x2_0000_0000
    ensures ToInt(d * x) <= d * n && (ToInt(d * x) == d * n <==> d * n < 0x8000_0000)
  {
    if d > 0 {
      Product(d, 0, x);
      Product(d, x, n);
      AtLeast(d, n);
      IntBelow(d * x);
    }
  }

  lemma AtLeast(d: int, n: nat)
    requires d >= 1
    ensures d * n >= n
  {
  }

  lemma {:induction false} OctBound(s: seq<byte>)
    requires Octal(s)
    ensures 0 <= OctValue(s) < Pow2(3 * |s|)
  {
    if s != [] {
      OctBound(s[..|s| - 1]);
      Pow8Next(|s| - 1);
    }
  }

  /** read_oct gives the value of an octal number exactly if that value is below 2^31; otherwise less. */
  lemma {:induction false} OctExact(s: seq<byte>)
    requires Octal(s)
    ensures ShiftSum(s) <= OctValue(s)
    ensures ShiftSum(s) == OctValue(s) <==> OctValue(s) < 0x8000_0000
  {
    if s != [] {
      var d, i, rest := s[0] - '0' as int, |s| - 1, s[1..];
      OctFront(s, 0);
      assert s[0..] == s;
      OctExact(rest);
      OctBound(rest);
      DigitExact(d, i);
      TopDigit(d, i, OctValue(rest));
    }
  }

  lemma TopPart(d: int, p: nat, rest: int)
    requires 0 <= d <= 7 && 0 <= rest < p && (p <= 0x800_0000 || p == 0x4000_0000 || p >= 0x2_0000_0000)
    ensures d * p + rest < 0x8000_0000 <==> d * p < 0x8000_0000 && rest < 0x8000_0000
  {
    Product(d, p, p);
    if p >= 0x2_0000_0000 && d > 0 { AtLeast(d, p); }
  }

  /** A sum below 2^31 is one whose parts are below 2^31, given that they do not share digits. */
  lemma TopDigit(d: int, i: nat, rest: int)
    requires 0 <= d <= 7 && 0 <= rest < Pow2(3 * i)
    ensures d * Pow2(3 * i) + rest < 0x8000_0000 <==> d * Pow2(3 * i) < 0x8000_0000 && rest < 0x8000_0000
  {
    Powers();
    if i <= 9 {
      Pow2Grows(3 * i, 27);
    } else if i >= 11 {
      Pow2Grows(33, 3 * i);
    }
    TopPart(d, Pow2(3 * i), rest);
  }

  /** A '2' as the eleventh digit from the right already comes out negative. */
  lemma OctOverflows()
    ensures Shifted(2, 10) == -0x8000_0000 && 2 * Pow2(30) == 0x8000_0000
  {
    Powers();
    assert 3 * 10 % 32 == 30;
    assert ToInt(0x8000_0000) == -0x8000_0000;
  }

  /** read_oct: the digits are added up from the last one backwards, each shifted by three bits more. */
  method ReadOct(b: seq<byte>, at: nat) returns (v: int)
    requires at + |CString(b, at)| < |b|
    ensures v == ShiftSum(CString(b, at))
    ensures Octal(CString(b, at)) ==> (v == OctValue(CString(b, at)) <==> OctValue(CString(b, at)) < 0x8000_0000)
  {
    var len := StrLen(b, at);
    ghost var s := CString(b, at);
    CStringFacts(b, at);
    v := 0;
    var k: int, index := len - 1, 0;
    assert s[len..] == [];
    while k >= 0
      invariant -1 <= k < len == |s| && v == ShiftSum(s[k + 1..]) && index == len - 1 - k
    {
      assert b[at + k] == s[k];
      assert s[k..][0] == s[k] && s[k..][1..] == s[k + 1..];
      v := v + Shifted(b[at + k] - '0' as int, index);
      index := index + 1;
      k := k - 1;
    }
    assert s[0..] == s;
    if Octal(s) { OctExact(s); }
  }

  // ----- The archive -----

  /** A file of the archive: its name and its contents. */
  datatype File = File(name: seq<byte>, data: seq<byte>)

  lemma WholeBlocks(k: int)
    ensures k * 512 % 512 == 0
  {
    var n := k * 512;
    var q := n / 512;
    assert n == 512 * q + n % 512 && k == q;
  }

  /** The contents rounded up to whole blocks of 512 bytes. */
  function Padded(size: int): (n: int)
    requires size >= 0
    ensures n >= size && n % 512 == 0 && n - size < 512
  {
    var k := (size - 1) / HEADER + 1;
    WholeBlocks(k);
    k * HEADER
  }

  /** From pos on, b holds the given files: a header with name and size, the contents, padding; then
      the end of the archive or a header with an empty name. */
  ghost predicate Archive(b: seq<byte>, pos: nat, files: seq<File>)
    decreases |files|
  {
    if files == [] then pos >= |b| || b[pos] == 0
    else FileAt(b, pos, files[0]) && Archive(b, pos + 512 + Padded(|files[0].data|), files[1..])
  }

  ghost predicate FileAt(b: seq<byte>, pos: nat, f: File) {
    && pos + 512 + Padded(|f.data|) <= |b|
    && f.name != [] && CString(b, pos) == f.name
    && pos + 124 + |CString(b, pos + 124)| < |b| && OctValue(CString(b, pos + 124)) == |f.data|
    && Octal(CString(b, pos + 124)) && |f.data| < 0x8000_0000
    && b[pos + 512..pos + 512 + |f.data|] == f.data
  }

  lemma ArchiveNext(b: seq<byte>, pos: nat, files: seq<File>, k: nat)
    requires k <= |files| && Archive(b, pos, files[k..]) && pos < |b|
    ensures b[pos] == 0 <==> k == |files|
    ensures k < |files| ==> FileAt(b, pos, files[k]) && Archive(b, pos + HEADER + Padded(|files[k].data|), files[k + 1..])
  {
  }

  /** The first file of that name. */
  ghost function Lookup(files: seq<File>, name: seq<byte>): (r: int)
    ensures -1 <= r < |files|
    ensures r >= 0 ==> files[r].name == name && forall i :: 0 <= i < r ==> files[i].name != name
    ensures r == -1 ==> forall i :: 0 <= i < |files| ==> files[i].name != name
  {
    if files == [] then -1
    else if files[0].name == name then 0
    else var r := Lookup(files[1..], name);
         assert forall i :: 1 <= i < |files| ==> files[i] == files[1..][i - 1];
         if r == -1 then -1 else r + 1
  }

  /** The size field of a header. */
  method FileSize(b: seq<byte>, pos: nat, ghost f: File) returns (size: int)
    requires FileAt(b, pos, f)
    ensures size == |f.data|
  {
    size := ReadOct(b, pos + SIZE_AT);
  }

  /** From one header to the next. */
  method SkipFile(b: seq<byte>, cursor: nat, size: int, ghost files: seq<File>, ghost k: nat) returns (cursor': nat, ghost k': nat)
    requires k < |files| && Archive(b, cursor, files[k..]) && cursor < |b| && b[cursor] != 0 && size == |files[k].data|
    ensures k' == k + 1 && Archive(b, cursor', files[k'..])
  {
    ArchiveNext(b, cursor, files, k);
    cursor', k' := cursor + HEADER + Padded(size), k + 1;
  }

  /** The loop over the headers that tarfs_read, tarfs_find_offset and tarfs_file_info share. */
  method Find(b: seq<byte>, name: seq<byte>, ghost files: seq<File>) returns (pos: int, size: int)
    requires Archive(b, 0, files)
    ensures pos == -1 <==> Lookup(files, name) == -1
    ensures pos != -1 ==> 0 <= pos && 0 <= size && pos + size <= |b|
    ensures pos != -1 ==> b[pos..pos + size] == files[Lookup(files, name)].data
  {
    var cursor: nat, found := 0, false;
    ghost var k := 0;
    size := 0;
    assert files[0..] == files;
    while !found && cursor < |b| && b[cursor] != 0
      invariant 0 <= k <= |files| && Archive(b, cursor, files[k..])
      invariant forall i :: 0 <= i < k ==> files[i].name != name
      invariant found ==> k < |files| && files[k].name == name && FileAt(b, cursor, files[k]) && size == |files[k].data|
      decreases |files| - k, !found
    {
      ArchiveNext(b, cursor, files, k);
      size := FileSize(b, cursor, files[k]);
      found := CString(b, cursor) == name;
      if !found {
        cursor, k := SkipFile(b, cursor, size, files, k);
      }
    }
    if !found { ArchiveDone(b, cursor, files, k); }
    pos := if found then cursor + HEADER else -1;
  }

  lemma ArchiveDone(b: seq<byte>, pos: nat, files: seq<File>, k: nat)
    requires k <= |files| && Archive(b, pos, files[k..]) && (pos >= |b| || b[pos] == 0)
    ensures k == |files|
  {
    if pos < |b| { ArchiveNext(b, pos, files, k); }
  }

  /** tarfs_read: up to size bytes from offset on, -1 if there are none; the path starts with a slash. */
  method Read(b: seq<byte>, path: seq<byte>, size: int, offset: nat, ghost files: seq<File>) returns (r: int, out: seq<byte>)
    requires Archive(b, 0, files) && path != []
    ensures var i := Lookup(files, path[1..]);
            if i == -1 || size <= 0 || offset >= |files[i].data| then r == -1 && out == []
            else r == |out| && r == (if |files[i].data| - offset > size then size else |files[i].data| - offset)
                 && out == files[i].data[offset..offset + r]
  {
    var pos, length := Find(b, path[1..], files);
    if pos == -1 { return -1, []; }
    ghost var data := files[Lookup(files, path[1..])].data;
    assert |data| == length;
    var n := if length - offset > size then size else length - offset;
    if n <= 0 { return -1, []; }
    out := b[pos + offset..pos + offset + n];
    r := n;
    SliceOfSlice(b, pos, pos + length, offset, offset + n);
  }
}
