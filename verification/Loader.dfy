/** Loading a program: read_elf_tarfs (sys/elf64.c) turns program headers into sections, and
    spawn_process (sys/thread/kthread.c) puts them into memory. Memory is the flat memory of the new
    process: the bytes behind its mapped addresses. */
module Loader {
  import opened Bytes
  import Tarfs

  const EHDR := 0x40
  const PHDR := 0x38
  const SIGNATURE: seq<byte> := [0x7f, 0x45, 0x4c, 0x46, 0x02, 0x01, 0x01, 0, 0, 0, 0, 0, 0, 0, 0, 0]

  /** program_section. */
  datatype Section = Section(fileOffset: nat, memoryOffset: nat, size: nat, memSize: nat, entryPoint: nat)

  // ----- Headers -----

  function Field(s: seq<byte>, at: nat, n: nat): nat
    requires at + n <= |s|
  {
    FromLe(s[at..at + n])
  }

  /** A number written into a header. */
  ghost predicate Written(s: seq<byte>, at: nat, n: nat, v: nat) {
    at + n <= |s| && v < Pow256(n) && s[at..at + n] == Le(v, n)
  }

  lemma FieldRead(s: seq<byte>, at: nat, n: nat, v: nat)
    requires Written(s, at, n, v)
    ensures Field(s, at, n) == v
  {
    LeRoundTrip(v, n);
  }

  /** Program header k, as a linker writes it. */
  ghost predicate HeaderOf(s: seq<byte>, section: Section) {
    && Written(s, 8, 8, section.fileOffset) && Written(s, 16, 8, section.memoryOffset)
    && Written(s, 32, 8, section.size) && Written(s, 40, 8, section.memSize)
  }

  /** An ELF file with these program headers. */
  ghost predicate Elf(data: seq<byte>, headersAt: nat, sections: seq<Section>) {
    && |data| >= 0x40 && data[..16] == [0x7f, 0x45, 0x4c, 0x46, 0x02, 0x01, 0x01, 0, 0, 0, 0, 0, 0, 0, 0, 0]
    && Written(data[..0x40], 0x20, 8, headersAt) && Written(data[..0x40], 0x38, 2, |sections|)
    && headersAt + 0x38 * |sections| <= |data|
    && forall k {:trigger sections[k]} :: 0 <= k < |sections| ==>
         && Written(data[..0x40], 0x18, 8, sections[k].entryPoint)
         && HeaderOf(data[headersAt + 0x38 * k..headersAt + 0x38 * k + 0x38], sections[k])
  }

  /** One program header as a section. */
  function SectionOf(s: seq<byte>, entry: nat): Section
    requires |s| == PHDR
  {
    Section(Field(s, 8, 8), Field(s, 16, 8), Field(s, 32, 8), Field(s, 40, 8), entry)
  }

  lemma SectionRead(s: seq<byte>, entry: nat, section: Section)
    requires |s| == PHDR && HeaderOf(s, section) && entry == section.entryPoint
    ensures SectionOf(s, entry) == section
  {
    FieldRead(s, 8, 8, section.fileOffset);
    FieldRead(s, 16, 8, section.memoryOffset);
    FieldRead(s, 32, 8, section.size);
    FieldRead(s, 40, 8, section.memSize);
  }

  /** The first sections, read from program headers that start at `at`. */
  ghost predicate Decoded(data: seq<byte>, at: nat, entry: nat, sections: seq<Section>) {
    forall j {:trigger sections[j]} :: 0 <= j < |sections| ==>
      var o := at + PHDR * j;
      o + PHDR <= |data| && sections[j] == SectionOf(data[o..o + PHDR], entry)
  }

  /** A whole header with the right signature, and all program headers inside the file. */
  ghost predicate Readable(data: seq<byte>) {
    && |data| >= EHDR && data[..16] == SIGNATURE
    && (Field(data[..EHDR], 0x38, 2) > 0 ==> Field(data[..EHDR], 0x20, 8) + PHDR * Field(data[..EHDR], 0x38, 2) <= |data|)
  }

  /** One turn of read_elf's loop. */
  method ReadSection(b: seq<byte>, path: seq<byte>, at: nat, entry: nat, k: nat, sections: seq<Section>, ghost files: seq<Tarfs.File>, ghost data: seq<byte>)
      returns (ok: bool, sections': seq<Section>)
    requires Tarfs.Archive(b, 0, files) && path != [] && Tarfs.Lookup(files, path[1..]) != -1 && data == files[Tarfs.Lookup(files, path[1..])].data
    requires Decoded(data, at, entry, sections) && |sections| == k
    ensures ok <==> at + PHDR * k + PHDR <= |data|
    ensures ok ==> Decoded(data, at, entry, sections') && |sections'| == k + 1
  {
    var n, phdr := Tarfs.Read(b, path, PHDR, at + PHDR * k, files);
    if n < PHDR { return false, []; }
    DecodedNext(data, at, entry, sections, phdr);
    return true, sections + [SectionOf(phdr, entry)];
  }

  /** read_elf_tarfs. The empty list stands for NULL: no such file, no ELF file, or a header that is
      cut off. */
  method ReadElf(b: seq<byte>, path: seq<byte>, ghost files: seq<Tarfs.File>) returns (sections: seq<Section>)
    requires Tarfs.Archive(b, 0, files) && path != []
    ensures var i := Tarfs.Lookup(files, path[1..]);
            if i == -1 || !Readable(files[i].data) then sections == []
            else var header := files[i].data[..EHDR];
                 && |sections| == Field(header, 0x38, 2)
                 && Decoded(files[i].data, Field(header, 0x20, 8), Field(header, 0x18, 8), sections)
    ensures var i := Tarfs.Lookup(files, path[1..]);
            i != -1 ==> forall at, l :: Elf(files[i].data, at, l) ==> sections == l
  {
    ghost var i := Tarfs.Lookup(files, path[1..]);
    sections := [];
    var r, header := Tarfs.Read(b, path, EHDR, 0, files);
    if r < EHDR { return; }
    ghost var data := files[i].data;
    assert header == data[..EHDR];
    assert header[..16] == data[..16];
    if header[..16] != SIGNATURE { return; }
    var at, count, entry := Field(header, 0x20, 8), Field(header, 0x38, 2), Field(header, 0x18, 8);
    var k := 0;
    while k < count
      invariant 0 <= k <= count && |sections| == k
      invariant Decoded(data, at, entry, sections)
    {
      var ok;
      ok, sections := ReadSection(b, path, at, entry, k, sections, files, data);
      if !ok {
        NotAnElf(data, at, count, k);
        assert !Readable(data);
        return [];
      }
      k := k + 1;
    }
    assert count > 0 ==> sections[count - 1] in sections && at + PHDR * count <= |data|;
    forall at', l | Elf(data, at', l)
      ensures sections == l
    {
      ElfRead(data, at', l, sections);
    }
  }

  lemma DecodedNext(data: seq<byte>, at: nat, entry: nat, sections: seq<Section>, phdr: seq<byte>)
    requires Decoded(data, at, entry, sections) && at + PHDR * |sections| + PHDR <= |data|
    requires phdr == data[at + PHDR * |sections|..at + PHDR * |sections| + PHDR]
    ensures Decoded(data, at, entry, sections + [SectionOf(phdr, entry)])
  {
  }

  lemma NotAnElf(data: seq<byte>, at: nat, count: nat, k: nat)
    requires |data| >= EHDR && at == Field(data[..EHDR], 0x20, 8) && count == Field(data[..EHDR], 0x38, 2)
    requires k < count && at + PHDR * k + PHDR > |data|
    ensures forall at', l :: !Elf(data, at', l)
  {
    forall at', l | Elf(data, at', l)
      ensures false
    {
      FieldRead(data[..EHDR], 0x20, 8, at');
      FieldRead(data[..EHDR], 0x38, 2, |l|);
    }
  }

  lemma ElfRead(data: seq<byte>, at: nat, l: seq<Section>, sections: seq<Section>)
    requires Elf(data, at, l) && |sections| == Field(data[..EHDR], 0x38, 2)
    requires Decoded(data, Field(data[..EHDR], 0x20, 8), Field(data[..EHDR], 0x18, 8), sections)
    ensures sections == l
  {
    FieldRead(data[..EHDR], 0x20, 8, at);
    FieldRead(data[..EHDR], 0x38, 2, |l|);
    forall j | 0 <= j < |l|
      ensures sections[j] == l[j]
    {
      FieldRead(data[..EHDR], 0x18, 8, l[j].entryPoint);
      SectionRead(data[at + PHDR * j..at + PHDR * j + PHDR], l[j].entryPoint, l[j]);
    }
  }

  // ----- Memory -----

  /** What is behind an address: nothing, or a byte. */
  datatype Slot = Absent | Present(b: byte)

  /** The first address of the page of va. */
  function Base(va: nat): (a: nat)
    ensures a <= va < a + PAGE && a % PAGE == 0
  {
    va - va % PAGE
  }

  ghost predicate SamePage(a: nat, va: nat) {
    Base(va) <= a < Base(va) + PAGE
  }

  /** add_page_for_process, at address a: a new zeroed page behind va, whatever was there before. */
  ghost function InNewPage(was: Slot, va: nat, a: nat): Slot {
    if SamePage(a, va) then Present(0) else was
  }

  /** Bytes written from address `at` on, as seen at address a. */
  ghost function Stored(was: Slot, at: nat, s: seq<byte>, a: nat): Slot {
    if at <= a < at + |s| then Present(s[a - at]) else was
  }

  /** A section whose bytes, if it has any, are all in the file. */
  ghost predicate Loadable(data: seq<byte>, s: Section) {
    s.size <= s.memSize && (s.size > 0 ==> s.fileOffset + s.size <= |data|)
  }

  /** A section for which the loader writes its first zero byte before it has a page: one without
      bytes in the file that does not start on a page boundary. */
  ghost predicate Pageless(s: Section) {
    s.size == 0 < s.memSize && s.memoryOffset % PAGE != 0
  }

  /** a is in a page of the section. */
  ghost predicate InSection(a: nat, s: Section) {
    Touched(a, s, s.memSize)
  }

  ghost function ByteOf(data: seq<byte>, s: Section, k: nat): byte
    requires Loadable(data, s)
  {
    if k < s.size then data[s.fileOffset + k] else 0
  }

  /** a is in a page of the first k bytes of the section. */
  ghost predicate Touched(a: nat, s: Section, k: nat) {
    k > 0 && Base(s.memoryOffset) <= a < Base(s.memoryOffset + k - 1) + PAGE
  }

  ghost predicate InBytes(a: nat, s: Section, k: nat) {
    s.memoryOffset <= a < s.memoryOffset + k
  }

  /** Address a after the first k bytes of a section, in pages that are zero otherwise. */
  ghost function Image(was: Slot, data: seq<byte>, s: Section, k: nat, a: nat): Slot
    requires Loadable(data, s)
  {
    if InBytes(a, s, k) then Present(ByteOf(data, s, a - s.memoryOffset)) else if Touched(a, s, k) then Present(0) else was
  }

  lemma BaseStays(va: nat, n: nat)
    requires 0 < n <= PAGE - va % PAGE
    ensures Base(va + n - 1) == Base(va)
  {
  }

  lemma BaseOrder(a: nat, b: nat)
    requires a <= b
    ensures Base(a) <= Base(b)
  {
  }

  lemma BeforePage(va: nat)
    requires va > 0 && va % PAGE == 0
    ensures Base(va) == va && Base(va - 1) + PAGE == va
  {
    assert (va - 1) / PAGE == va / PAGE - 1;
  }

  lemma InChunk(a: nat, va: nat, n: nat)
    requires n <= PAGE - va % PAGE
    ensures va <= a < va + n ==> SamePage(a, va)
  {
  }

  /** The pages of k + n bytes are those of k bytes and the page of the next byte. */
  lemma NextTouched(s: Section, k: nat, n: nat, a: nat)
    requires 0 < n <= PAGE - (s.memoryOffset + k) % PAGE
    ensures Touched(a, s, k + n) <==> Touched(a, s, k) || SamePage(a, s.memoryOffset + k)
    ensures k > 0 && (s.memoryOffset + k) % PAGE == 0 && SamePage(a, s.memoryOffset + k) ==> !Touched(a, s, k) && !InBytes(a, s, k)
    ensures k > 0 && (s.memoryOffset + k) % PAGE != 0 && SamePage(a, s.memoryOffset + k) ==> Touched(a, s, k)
  {
    var va := s.memoryOffset + k;
    BaseStays(va, n);
    BaseOrder(s.memoryOffset, va);
    assert s.memoryOffset + (k + n) - 1 == va + n - 1;
    if k > 0 {
      BaseOrder(s.memoryOffset, va - 1);
      if va % PAGE == 0 { BeforePage(va); } else { assert Base(va - 1) == Base(va); }
    }
  }

  /** A new page with the next bytes of the section. */
  lemma ChunkInImage(was: Slot, data: seq<byte>, s: Section, k: nat, bytes: seq<byte>, a: nat)
    requires Loadable(data, s) && (k == 0 || (s.memoryOffset + k) % PAGE == 0)
    requires 0 < |bytes| <= s.memSize - k && |bytes| <= PAGE - (s.memoryOffset + k) % PAGE
    requires forall j :: 0 <= j < |bytes| ==> bytes[j] == ByteOf(data, s, k + j)
    ensures var va := s.memoryOffset + k;
      Stored(InNewPage(Image(was, data, s, k, a), va, a), va, bytes, a) == Image(was, data, s, k + |bytes|, a)
  {
    var va, n := s.memoryOffset + k, |bytes|;
    NextTouched(s, k, n, a);
    InChunk(a, va, n);
    if va <= a < va + n { assert bytes[a - va] == ByteOf(data, s, k + (a - va)); }
  }

  /** The next bytes of the section, in pages that hold zeros already. */
  lemma ChunkOverZeros(was: Slot, data: seq<byte>, s: Section, k: nat, bytes: seq<byte>, va: nat, a: nat)
    requires Loadable(data, s) && va == s.memoryOffset + k && 0 < |bytes| <= s.memSize - k && |bytes| <= PAGE - va % PAGE
    requires forall j :: 0 <= j < |bytes| ==> bytes[j] == ByteOf(data, s, k + j)
    requires Touched(a, s, k + |bytes|) ==> was == Present(0)
    ensures Stored(Image(was, data, s, k, a), va, bytes, a) == Image(was, data, s, k + |bytes|, a)
  {
    NextTouched(s, k, |bytes|, a);
    InChunk(a, va, |bytes|);
    if va <= a < va + |bytes| { assert bytes[a - va] == ByteOf(data, s, k + (a - va)); }
  }

  /** The next byte of the section, in the page of the byte before it. */
  lemma ByteInImage(was: Slot, data: seq<byte>, s: Section, k: nat, a: nat)
    requires Loadable(data, s) && 0 < k < s.memSize && (s.memoryOffset + k) % PAGE != 0
    ensures Stored(Image(was, data, s, k, a), s.memoryOffset + k, [ByteOf(data, s, k)], a) == Image(was, data, s, k + 1, a)
  {
    NextTouched(s, k, 1, a);
  }

  /** A byte that starts a page is absent before it is loaded. */
  lemma NextIsFree(data: seq<byte>, s: Section, k: nat)
    requires Loadable(data, s) && k < s.memSize && (k == 0 || (s.memoryOffset + k) % PAGE == 0)
    ensures Image(Absent, data, s, k, s.memoryOffset + k) == Absent
  {
    NextTouched(s, k, 1, s.memoryOffset + k);
  }

  function Min3(a: nat, b: nat, c: nat): nat {
    Min(Min(a, b), c)
  }

  lemma NextChunk(va: nat, n: nat, remain: nat)
    requires n == Min3(PAGE, PAGE - va % PAGE, remain) && remain > 0
    ensures 0 < n <= remain && n <= PAGE - va % PAGE && (n == remain || (va + n) % PAGE == 0)
  {
  }

  /** tarfs_read for n bytes of the section, all of them in the file. */
  method ReadChunk(b: seq<byte>, path: seq<byte>, s: Section, k: nat, n: nat, ghost files: seq<Tarfs.File>, ghost data: seq<byte>)
      returns (bytes: seq<byte>)
    requires Tarfs.Archive(b, 0, files) && path != [] && Tarfs.Lookup(files, path[1..]) != -1
    requires data == files[Tarfs.Lookup(files, path[1..])].data && Loadable(data, s) && 0 < n && k + n <= s.size
    ensures |bytes| == n && forall j :: 0 <= j < n ==> bytes[j] == ByteOf(data, s, k + j)
  {
    var r;
    r, bytes := Tarfs.Read(b, path, n, s.fileOffset + k, files);
  }

  /** How many pages the first k bytes from address mo on touch. */
  ghost function PageSpan(mo: nat, k: nat): int {
    if k == 0 then 0 else (Base(mo + k - 1) - Base(mo)) / PAGE + 1
  }

  lemma OnePageMore(x: int)
    ensures (x + 0x1000) / 0x1000 == x / 0x1000 + 1
  {
  }

  lemma BaseBefore(va: nat)
    requires va % PAGE != 0
    ensures Base(va - 1) == Base(va)
  {
    BaseStays(Base(va), va % PAGE);
    BaseStays(Base(va), va % PAGE + 1);
  }

  lemma SpanOfChunk(mo: nat, k: nat, n: nat)
    requires 0 < n <= PAGE - (mo + k) % PAGE
    ensures PageSpan(mo, k + n) == PageSpan(mo, k) + if k == 0 || (mo + k) % PAGE == 0 then 1 else 0
  {
    var va := mo + k;
    BaseStays(va, n);
    assert PageSpan(mo, k + n) == (Base(va) - Base(mo)) / PAGE + 1;
    if k > 0 {
      if va % PAGE == 0 {
        BeforePage(va);
        OnePageMore(Base(va - 1) - Base(mo));
      } else {
        BaseBefore(va);
      }
    }
  }

  lemma SpanGrows(mo: nat, k: nat, l: nat)
    requires k <= l
    ensures PageSpan(mo, k) <= PageSpan(mo, l)
  {
    if l > 0 {
      BaseOrder(mo, mo + l - 1);
      if k > 0 { BaseOrder(mo + k - 1, mo + l - 1); }
    }
  }

  /** The pages of the first n sections. */
  ghost function PageTotal(sections: seq<Section>, n: nat): int
    requires n <= |sections|
  {
    if n == 0 then 0 else PageTotal(sections, n - 1) + PageSpan(sections[n - 1].memoryOffset, sections[n - 1].memSize)
  }

  lemma {:induction false} TotalGrows(sections: seq<Section>, n: nat, l: nat)
    requires n <= l <= |sections|
    ensures PageTotal(sections, n) <= PageTotal(sections, l)
    decreases l
  {
    if n < l {
      TotalGrows(sections, n, l - 1);
      SpanGrows(sections[l - 1].memoryOffset, 0, sections[l - 1].memSize);
    }
  }

  /** No page belongs to two sections. */
  ghost predicate PageDisjoint(sections: seq<Section>) {
    forall i, j, a: nat {:trigger InSection(a, sections[i]), InSection(a, sections[j])} ::
      0 <= i < j < |sections| ==> !(InSection(a, sections[i]) && InSection(a, sections[j]))
  }

  ghost predicate AllLoadable(data: seq<byte>, sections: seq<Section>) {
    forall i {:trigger sections[i]} :: 0 <= i < |sections| ==> Loadable(data, sections[i])
  }

  /** Address a after the first n sections have been loaded, one after another. */
  ghost function Images(was: Slot, data: seq<byte>, sections: seq<Section>, n: nat, a: nat): Slot
    requires AllLoadable(data, sections) && n <= |sections|
  {
    if n == 0 then was
    else Image(Images(was, data, sections, n - 1, a), data, sections[n - 1], sections[n - 1].memSize, a)
  }

  lemma BytesTouched(a: nat, s: Section, k: nat)
    requires InBytes(a, s, k)
    ensures Touched(a, s, k)
  {
  }

  /** Outside the pages of the sections nothing changes. */
  lemma {:induction false} OutsideSections(was: Slot, data: seq<byte>, sections: seq<Section>, n: nat, a: nat)
    requires AllLoadable(data, sections) && n <= |sections| && forall i :: 0 <= i < n ==> !InSection(a, sections[i])
    ensures Images(was, data, sections, n, a) == was
  {
    if n > 0 {
      OutsideSections(was, data, sections, n - 1, a);
      var s := sections[n - 1];
      assert !InSection(a, s);
      if InBytes(a, s, s.memSize) { BytesTouched(a, s, s.memSize); }
    }
  }

  /** In page-disjoint sections, every byte of every section is in place at the end. */
  lemma {:induction false} InsideSection(was: Slot, data: seq<byte>, sections: seq<Section>, n: nat, i: nat, a: nat)
    requires AllLoadable(data, sections) && PageDisjoint(sections) && i < n <= |sections| && InBytes(a, sections[i], sections[i].memSize)
    ensures Loadable(data, sections[i]) && Images(was, data, sections, n, a) == Present(ByteOf(data, sections[i], a - sections[i].memoryOffset))
  {
    var s := sections[n - 1];
    BytesTouched(a, sections[i], sections[i].memSize);
    if i < n - 1 {
      InsideSection(was, data, sections, n - 1, i, a);
      assert InSection(a, sections[i]) && !InSection(a, s);
      if InBytes(a, s, s.memSize) { BytesTouched(a, s, s.memSize); }
    }
  }

  /** The end of the last page of a section. */
  ghost function PagesEnd(s: Section): int {
    RoundUp(s.memoryOffset + s.memSize)
  }

  /** The least page boundary that is not below h. */
  function RoundUp(h: nat): (r: int)
    ensures r % PAGE == 0 && h <= r < h + PAGE
  {
    var k := (h - 1) / PAGE + 1;
    WholePages(k);
    k * PAGE
  }

  lemma WholePages(k: int)
    ensures k * 0x1000 % 0x1000 == 0
  {
    var n := k * 0x1000;
    var q := n / 0x1000;
    assert n == 0x1000 * q + n % 0x1000 && k == q;
  }

  lemma RoundUpOrder(g: nat, h: nat)
    requires g <= h
    ensures RoundUp(g) <= RoundUp(h)
  {
  }
}
