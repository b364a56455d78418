/** The on-disk file system of sys/disk/file_system.c: a superblock in block 0, one list of 31 files in
    block 1, and one data block per file from block 2 on. Calls do not overlap and disk transfers
    succeed. */
module SimpleFs {
  import opened Bytes

  const BLOCK := 4096
  const ENTRIES := 31
  const PRESENT := 0x8000_0000_0000_0000
  const LOW := 0x1_0000_0000

  /** simple_fs_file_list: the text of its name field, attributes and block number. */
  datatype Entry = Entry(name: string, attr: nat, lba: nat)

  /** What is in a block: the superblock, the file list with the number of the next list, or data. */
  datatype Block = Super(size: nat, free: nat) | List(entries: seq<Entry>, next: nat) | Data(bytes: seq<byte>)

  /** Bit 63 of the attributes, which have 64 bits. */
  predicate Present(e: Entry) {
    e.attr >= PRESENT
  }

  function SizeOf(e: Entry): nat {
    e.attr % LOW
  }

  /** The attributes with another size in their low half. */
  function WithSize(attr: nat, size: nat): (r: nat) {
    attr / LOW * LOW + size % LOW
  }

  lemma SizeSet(attr: nat, size: nat)
    requires size < LOW
    ensures WithSize(attr, size) % LOW == size && (WithSize(attr, size) >= PRESENT <==> attr >= PRESENT)
  {
    assert (attr / LOW * LOW + size) / LOW == attr / LOW;
  }

  ghost predicate Listed(disk: seq<Block>) {
    |disk| > 2 && disk[1].List? && |disk[1].entries| == ENTRIES && disk[1].next == 0
  }

  /** A present entry has a block of its own below the frontier, and at most a block of contents. */
  ghost predicate EntryOk(disk: seq<Block>, free: nat, e: Entry) {
    2 <= e.lba < free <= |disk| && disk[e.lba].Data? && |disk[e.lba].bytes| == BLOCK && SizeOf(e) <= BLOCK
  }

  ghost predicate FsOk(disk: seq<Block>, free: nat) {
    && Listed(disk) && 2 <= free <= |disk|
    && (forall i {:trigger disk[1].entries[i]} :: 0 <= i < ENTRIES && Present(disk[1].entries[i]) ==> EntryOk(disk, free, disk[1].entries[i]))
    && (forall i, j {:trigger disk[1].entries[i], disk[1].entries[j]} ::
          0 <= i < j < ENTRIES && Present(disk[1].entries[i]) && Present(disk[1].entries[j]) ==>
          disk[1].entries[i].name != disk[1].entries[j].name && disk[1].entries[i].lba != disk[1].entries[j].lba)
  }

  ghost function Content(disk: seq<Block>, free: nat, e: Entry): seq<byte>
    requires EntryOk(disk, free, e)
  {
    disk[e.lba].bytes[..SizeOf(e)]
  }

  /** The files on the disk, by name. */
  ghost function Files(disk: seq<Block>, free: nat): map<string, seq<byte>>
    requires FsOk(disk, free)
  {
    map i | 0 <= i < ENTRIES && Present(disk[1].entries[i]) :: disk[1].entries[i].name := Content(disk, free, disk[1].entries[i])
  }

  lemma FileOf(disk: seq<Block>, free: nat, i: nat)
    requires FsOk(disk, free) && i < ENTRIES && Present(disk[1].entries[i])
    ensures EntryOk(disk, free, disk[1].entries[i])
    ensures disk[1].entries[i].name in Files(disk, free)
    ensures Files(disk, free)[disk[1].entries[i].name] == Content(disk, free, disk[1].entries[i])
  {
  }

  /** Every file of the list but the one at index i keeps its entry. */
  ghost predicate EntriesStay(entries: seq<Entry>, entries': seq<Entry>, i: nat) {
    && |entries'| == |entries|
    && (forall k {:trigger entries'[k]} :: 0 <= k < |entries| && k != i && Present(entries[k]) ==> entries'[k] == entries[k])
  }

  lemma EntryOf(disk: seq<Block>, free: nat, name: string) returns (i: nat)
    requires FsOk(disk, free) && name in Files(disk, free)
    ensures i < ENTRIES && Present(disk[1].entries[i]) && disk[1].entries[i].name == name
  {
    i :| 0 <= i < ENTRIES && Present(disk[1].entries[i]) && disk[1].entries[i].name == name;
  }

  // ----- Steps on the disk -----

  /** Entry k is the same file as before. */
  ghost predicate SameFile(disk: seq<Block>, free: nat, disk': seq<Block>, free': nat, k: nat)
    requires FsOk(disk, free) && FsOk(disk', free')
  {
    k < ENTRIES ==>
      var e, e' := disk[1].entries[k], disk'[1].entries[k];
      && (Present(e') <==> Present(e))
      && (Present(e) ==> EntryOk(disk, free, e) && EntryOk(disk', free', e') && e'.name == e.name && Content(disk', free', e') == Content(disk, free, e))
  }

  lemma FileLookedUp(disk: seq<Block>, free: nat, disk': seq<Block>, free': nat, i: nat, name: string)
    requires FsOk(disk, free) && FsOk(disk', free') && i < ENTRIES && Present(disk'[1].entries[i])
    requires forall k {:trigger SameFile(disk, free, disk', free', k)} :: k != i ==> SameFile(disk, free, disk', free', k)
    requires Present(disk[1].entries[i]) ==> disk[1].entries[i].name == disk'[1].entries[i].name
    requires name != disk'[1].entries[i].name
    ensures name in Files(disk', free') <==> name in Files(disk, free)
    ensures name in Files(disk', free') ==> Files(disk', free')[name] == Files(disk, free)[name]
  {
    if name in Files(disk', free') {
      var k := EntryOf(disk', free', name);
      assert SameFile(disk, free, disk', free', k);
      FileOf(disk', free', k);
      FileOf(disk, free, k);
    }
    if name in Files(disk, free) {
      var k := EntryOf(disk, free, name);
      assert SameFile(disk, free, disk', free', k);
      FileOf(disk', free', k);
    }
  }

  /** If only entry i changes, only that file does. */
  lemma OneFileChanged(disk: seq<Block>, free: nat, disk': seq<Block>, free': nat, i: nat)
    requires FsOk(disk, free) && FsOk(disk', free') && i < ENTRIES && Present(disk'[1].entries[i])
    requires forall k {:trigger SameFile(disk, free, disk', free', k)} :: k != i ==> SameFile(disk, free, disk', free', k)
    requires Present(disk[1].entries[i]) ==> disk[1].entries[i].name == disk'[1].entries[i].name
    ensures EntryOk(disk', free', disk'[1].entries[i])
    ensures Files(disk', free') == Files(disk, free)[disk'[1].entries[i].name := Content(disk', free', disk'[1].entries[i])]
  {
    var path := disk'[1].entries[i].name;
    FileOf(disk', free', i);
    var files := Files(disk, free)[path := Content(disk', free', disk'[1].entries[i])];
    forall name | name != path
      ensures name in Files(disk', free') <==> name in files
      ensures name in Files(disk', free') ==> Files(disk', free')[name] == files[name]
    {
      FileLookedUp(disk, free, disk', free', i, name);
    }
  }

  ghost predicate Creates(disk: seq<Block>, free: nat, disk': seq<Block>, i: nat, path: string) {
    && FsOk(disk, free) && i < ENTRIES && !Present(disk[1].entries[i]) && |disk'| == |disk| && free < |disk|
    && disk'[1] == List(disk[1].entries[i := Entry(path, PRESENT, free)], disk[1].next)
    && path !in Files(disk, free) && disk[free].Data? && |disk[free].bytes| == BLOCK
    && forall b :: 2 <= b < |disk| ==> disk'[b] == disk[b]
  }

  lemma CreateKeeps(disk: seq<Block>, free: nat, disk': seq<Block>, i: nat, path: string)
    requires Creates(disk, free, disk', i, path)
    ensures FsOk(disk', free + 1)
  {
  }

  lemma CreateStep(disk: seq<Block>, free: nat, disk': seq<Block>, i: nat, path: string)
    requires Creates(disk, free, disk', i, path)
    ensures FsOk(disk', free + 1) && Files(disk', free + 1) == Files(disk, free)[path := []]
  {
    CreateKeeps(disk, free, disk', i, path);
    var free' := free + 1;
    forall k: nat | k != i
      ensures SameFile(disk, free, disk', free', k)
    {
      if k < ENTRIES && Present(disk[1].entries[k]) { FileOf(disk, free, k); }
    }
    OneFileChanged(disk, free, disk', free', i);
  }

  /** bytes with data over them from offset on. */
  function Splice(bytes: seq<byte>, offset: nat, data: seq<byte>): (r: seq<byte>)
    requires offset + |data| <= |bytes|
    ensures |r| == |bytes|
  {
    bytes[..offset] + data + bytes[offset + |data|..]
  }

  /** The block of file i gets other bytes, and its entry another size. */
  ghost predicate Writes(disk: seq<Block>, free: nat, disk': seq<Block>, i: nat, bytes: seq<byte>, size: nat) {
    && FsOk(disk, free) && i < ENTRIES && Present(disk[1].entries[i]) && |bytes| == BLOCK && size <= BLOCK && |disk'| == |disk|
    && disk'[1] == List(disk[1].entries[i := disk[1].entries[i].(attr := WithSize(disk[1].entries[i].attr, size))], disk[1].next)
    && (forall b :: 2 <= b < |disk| ==> disk'[b] == if b == disk[1].entries[i].lba then Data(bytes) else disk[b])
  }

  lemma WriteKeeps(disk: seq<Block>, free: nat, disk': seq<Block>, i: nat, bytes: seq<byte>, size: nat)
    requires Writes(disk, free, disk', i, bytes, size)
    ensures FsOk(disk', free) && Present(disk'[1].entries[i]) && SizeOf(disk'[1].entries[i]) == size
  {
    var es, es' := disk[1].entries, disk'[1].entries;
    SizeSet(es[i].attr, size);
    forall k | 0 <= k < ENTRIES && Present(es'[k])
      ensures Present(es[k]) && EntryOk(disk', free, es'[k]) && es'[k].name == es[k].name && es'[k].lba == es[k].lba
    {
      FileOf(disk, free, k);
    }
  }

  lemma WriteStep(disk: seq<Block>, free: nat, disk': seq<Block>, i: nat, bytes: seq<byte>, size: nat)
    requires Writes(disk, free, disk', i, bytes, size)
    ensures FsOk(disk', free) && Files(disk', free) == Files(disk, free)[disk[1].entries[i].name := bytes[..size]]
  {
    WriteKeeps(disk, free, disk', i, bytes, size);
    FileOf(disk, free, i);
    forall k: nat | k != i
      ensures SameFile(disk, free, disk', free, k)
    {
      if k < ENTRIES && Present(disk[1].entries[k]) {
        FileOf(disk, free, k);
        assert disk[1].entries[k].lba != disk[1].entries[i].lba;
      }
    }
    OneFileChanged(disk, free, disk', free, i);
  }

  /** The file list with a new file in entry i. */
  function Added(list: Block, i: nat, path: string, lba: nat): Block
    requires list.List? && i < |list.entries|
  {
    List(list.entries[i := Entry(path, PRESENT, lba)], list.next)
  }

  /** Both block writes of create_file_in_disk. */
  lemma CreateDone(disk: seq<Block>, free: nat, disk': seq<Block>, i: nat, path: string, size: nat)
    requires FsOk(disk, free) && i < ENTRIES && !Present(disk[1].entries[i]) && free < |disk| && path !in Files(disk, free)
    requires disk[free].Data? && |disk[free].bytes| == BLOCK
    requires disk' == disk[1 := Added(disk[1], i, path, free)][0 := Super(size, free + 1)]
    ensures FsOk(disk', free + 1) && Files(disk', free + 1) == Files(disk, free)[path := []]
    ensures |disk'| == |disk| && disk'[0] == Super(size, free + 1) && forall b :: 2 <= b < |disk| ==> disk'[b] == disk[b]
  {
    CreateStep(disk, free, disk', i, path);
  }

  /** The file list with another size for entry i. */
  function Resized(list: Block, i: nat, size: nat): Block
    requires list.List? && i < |list.entries|
  {
    List(list.entries[i := list.entries[i].(attr := WithSize(list.entries[i].attr, size))], list.next)
  }

  /** Both block writes of file_write. */
  lemma WriteDone(disk: seq<Block>, free: nat, disk': seq<Block>, i: nat, bytes: seq<byte>, size: nat)
    requires FsOk(disk, free) && i < ENTRIES && Present(disk[1].entries[i]) && |bytes| == BLOCK && size <= BLOCK
    requires 2 <= disk[1].entries[i].lba < |disk|
    requires var d := disk[disk[1].entries[i].lba := Data(bytes)]; disk' == d[1 := Resized(d[1], i, size)]
    ensures FsOk(disk', free) && |disk'| == |disk| && disk'[0] == disk[0]
    ensures var e, e' := disk[1].entries[i], disk'[1].entries[i];
            Present(e') && e'.name == e.name && e'.lba == e.lba && SizeOf(e') == size
    ensures forall b :: 2 <= b < |disk| && b != disk[1].entries[i].lba ==> disk'[b] == disk[b]
    ensures Files(disk', free) == Files(disk, free)[disk[1].entries[i].name := bytes[..size]]
  {
    WriteKeeps(disk, free, disk', i, bytes, size);
    WriteStep(disk, free, disk', i, bytes, size);
  }

  // ----- Operations -----

  /** An open file on the disk with its inode: block, size, place in the list, and the offset. */
  class OpenFile {
    const base: nat
    const index: nat
    var size: nat
    var offset: nat

    constructor (base: nat, index: nat, size: nat, offset: nat)
      ensures this.base == base && this.index == index && this.size == size && this.offset == offset
    {
      this.base, this.index, this.size, this.offset := base, index, size, offset;
    }
  }

  datatype Found = Found(index: nat) | Missing

  class Disk {
    var disk: seq<Block>
    var free: nat         // disk_block_free
    const size: nat       // disk_size

    ghost predicate Valid()
      reads this
    {
      FsOk(disk, free) && forall b {:trigger disk[b]} :: free <= b < |disk| ==> disk[b].Data? && |disk[b].bytes| == BLOCK
    }

    /** The open file stands for the file called name: its inode agrees with the list. */
    ghost predicate Opened(f: OpenFile, name: string)
      reads this, f
    {
      && Valid() && f.index < ENTRIES
      && var e := disk[1].entries[f.index];
         Present(e) && e.name == name && e.lba == f.base && SizeOf(e) == f.size
    }

    /** search_file_in_disk; the list has no successor. */
    method Search(path: string) returns (r: Found)
      requires Valid()
      ensures r.Found? <==> path in Files(disk, free)
      ensures r.Found? ==> r.index < ENTRIES && Present(disk[1].entries[r.index]) && disk[1].entries[r.index].name == path
    {
      var i := 0;
      while i < ENTRIES
        invariant i <= ENTRIES
        invariant forall k :: 0 <= k < i ==> !(Present(disk[1].entries[k]) && disk[1].entries[k].name == path)
      {
        if Present(disk[1].entries[i]) && disk[1].entries[i].name == path {
          FileOf(disk, free, i);
          return Found(i);
        }
        i := i + 1;
      }
      return Missing;
    }

    /** The search of create_file_in_disk for the first absent entry, or ENTRIES. */
    method FirstAbsent() returns (i: nat)
      requires Listed(disk)
      ensures i <= ENTRIES && (i < ENTRIES ==> !Present(disk[1].entries[i])) && forall k :: 0 <= k < i ==> Present(disk[1].entries[k])
    {
      i := 0;
      while i < ENTRIES && Present(disk[1].entries[i])
        invariant i <= ENTRIES
        invariant forall k :: 0 <= k < i ==> Present(disk[1].entries[k])
      {
        i := i + 1;
      }
    }

    /** create_file_in_disk, for a name that is not there yet and a disk that is not full. On a full list
        the kernel halts. */
    method Create(path: string) returns (halted: bool)
      requires Valid() && path !in Files(disk, free) && |path| < 112 && free < |disk|
      modifies this
      ensures Valid()
      ensures halted <==> forall i :: 0 <= i < 31 ==> Present(old(disk)[1].entries[i])
      ensures halted ==> disk == old(disk) && free == old(free)
      ensures !halted ==> free == old(free) + 1 && Files(disk, free) == Files(old(disk), old(free))[path := []] && disk[0] == Super(size, free)
      ensures EntriesStay(old(disk)[1].entries, disk[1].entries, ENTRIES)
    {
      var i := FirstAbsent();
      halted := i == ENTRIES;
      if !halted {
        disk := disk[1 := Added(disk[1], i, path, free)];
        free := free + 1;
        disk := disk[0 := Super(size, free)];
        CreateDone(old(disk), old(free), disk, i, path, size);
      }
    }

    /** file_open_read and file_open_write for a path that is not in the archive. */
    method Open(path: string, write: bool) returns (found: bool, f: OpenFile?)
      requires Valid()
      ensures found <==> path in Files(disk, free)
      ensures found ==> f != null && fresh(f) && Opened(f, path) && f.size == |Files(disk, free)[path]| && f.offset == if write then f.size else 0
    {
      var r := Search(path);
      if r.Missing? { return false, null; }
      FileOf(disk, free, r.index);
      var e := disk[1].entries[r.index];
      f := new OpenFile(e.lba, r.index, SizeOf(e), if write then SizeOf(e) else 0);
      found := true;
    }

    /** The disk case of file_write: the bytes go over the block from the offset on, cut at the end of
        the block; the size grows if needed and the offset stays. */
    method Write(f: OpenFile, data: seq<byte>, ghost name: string) returns (written: nat)
      requires Opened(f, name)
      modifies this, f
      ensures Opened(f, name) && free == old(free) && disk[0] == old(disk[0]) && f.offset == Min(old(f.offset), 4096)
      ensures written == Min(|data|, 4096 - f.offset)
      ensures old(EntryOk(disk, free, disk[1].entries[f.index]))
      ensures f.size == (if old(f.size) < f.offset + written then f.offset + written else old(f.size))
      ensures Files(disk, free) ==
              Files(old(disk), old(free))[name := Splice(old(disk)[f.base].bytes, f.offset, data[..written])[..f.size]]
      ensures EntriesStay(old(disk)[1].entries, disk[1].entries, f.index)
    {
      FileOf(disk, free, f.index);
      var bytes := disk[f.base].bytes;
      if f.offset > BLOCK { f.offset := BLOCK; }
      written := if f.offset + |data| > BLOCK then BLOCK - f.offset else |data|;
      bytes := Splice(bytes, f.offset, data[..written]);
      disk := disk[f.base := Data(bytes)];
      if f.size < written + f.offset { f.size := written + f.offset; }
      disk := disk[1 := Resized(disk[1], f.index, f.size)];
      WriteDone(old(disk), free, disk, f.index, bytes, f.size);
    }

    /** file_set_offset, as sys_lseek uses it: any 64-bit number. */
    method Seek(f: OpenFile, offset: nat)
      requires offset < LIMIT
      modifies f`offset
      ensures f.offset == offset
    {
      f.offset := offset;
    }

    /** The disk case of file_read. Beyond the end of the file the unsigned difference between size and
        offset wraps: the read is what it should be exactly if it starts at or before the end or asks
        for nothing. */
    method Read(f: OpenFile, count: nat, ghost name: string) returns (r: ReadOutcome)
      requires Opened(f, name) && f.offset < LIMIT && count < LIMIT
      modifies f`offset
      ensures Opened(f, name) && name in Files(disk, free) && |Files(disk, free)[name]| == f.size
      ensures r == ProperRead(Files(disk, free)[name], old(f.offset), count) <==> old(f.offset) <= f.size || count == 0
      ensures !r.PastBlock? ==> f.offset == old(f.offset) + if r.Bytes? then |r.out| else 0
      ensures r.PastBlock? ==> f.offset == (old(f.offset) + Min(count, Left(f.size, old(f.offset)))) % LIMIT
      ensures old(f.offset) > f.size && count > 0 ==> !r.End?
      ensures r.Bytes? ==> |r.out| == Min(count, Left(f.size, old(f.offset)))
      ensures r.PastBlock? <==> count > 0 && old(f.offset) > f.size && old(f.offset) + Min(count, Left(f.size, old(f.offset))) > 4096
    {
      FileOf(disk, free, f.index);
      var toRead := Min(count, Left(f.size, f.offset));
      if toRead == 0 { return End; }
      if f.offset + toRead > BLOCK {
        f.offset := (f.offset + toRead) % LIMIT;
        return PastBlock;
      }
      if f.offset <= f.size { SliceOfSlice(disk[f.base].bytes, 0, f.size, f.offset, f.offset + toRead); }
      r := Bytes(disk[f.base].bytes[f.offset..f.offset + toRead]);
      f.offset := f.offset + toRead;
    }

    /** A fresh read open, read to the end, gives exactly the contents. */
    method ReadAll(path: string, chunk: nat) returns (found: bool, out: seq<byte>)
      requires Valid() && 0 < chunk < LIMIT
      ensures found <==> path in Files(disk, free)
      ensures found ==> out == Files(disk, free)[path]
    {
      var f;
      found, f := Open(path, false);
      out := [];
      if !found { return; }
      ghost var all := Files(disk, free)[path];
      FileOf(disk, free, f.index);
      assert all[..0] == [];
      var r := Bytes([]);
      while !r.End?
        invariant fresh(f) && Opened(f, path) && f.offset <= f.size == |all| <= BLOCK && out == all[..f.offset]
        invariant r.Bytes? || (r.End? && f.offset == f.size)
        decreases |all| - f.offset, r.Bytes?
      {
        ghost var at := f.offset;
        r := Read(f, chunk, path);
        if r.Bytes? {
          out := out + r.out;
          assert all[..f.offset] == all[..at] + all[at..f.offset];
        }
      }
      assert all[..f.offset] == all;
    }

    /** One byte beyond the end of a file that does not fill its block: the read hands out a byte that
        was never written to the file. */
    method StaleRead(path: string) returns (r: ReadOutcome)
      requires Valid() && path in Files(disk, free) && |Files(disk, free)[path]| < BLOCK - 1
      ensures r.Bytes? && |r.out| == 1
    {
      var found, f := Open(path, false);
      Seek(f, f.size + 1);
      r := Read(f, 1, path);
    }

    /** A write of one byte, at an offset inside the block. */
    method WriteOne(f: OpenFile, x: byte, ghost name: string, ghost bytes: seq<byte>) returns (written: nat)
      requires Opened(f, name) && f.offset < BLOCK && |bytes| == BLOCK && disk[f.base] == Data(bytes)
      modifies this, f
      ensures Opened(f, name) && f.offset == old(f.offset) && written == 1
      ensures f.size == if old(f.size) <= f.offset then f.offset + 1 else old(f.size)
      ensures name in Files(disk, free) && Files(disk, free)[name] == Splice(bytes, f.offset, [x])[..f.size]
    {
      written := Write(f, [x], name);
      assert [x][..1] == [x];
    }

    /** Two writes through one open file: the second goes over the first. */
    method SecondWrite(path: string, x: byte, y: byte) returns (first: nat, second: nat)
      requires Valid() && path in Files(disk, free) && |Files(disk, free)[path]| < BLOCK
      modifies this
      ensures first == 1 && second == 1 && Valid() && path in Files(disk, free)
      ensures Files(disk, free)[path] == Files(old(disk), old(free))[path] + [y]
    {
      ghost var all := Files(disk, free)[path];
      var found, f := Open(path, true);
      FileOf(disk, free, f.index);
      ghost var bytes := disk[f.base].bytes;
      first := WriteOne(f, x, path, bytes);
      FileOf(disk, free, f.index);
      ghost var now := disk[f.base].bytes;
      second := WriteOne(f, y, path, now);
      OverwriteLast(bytes, now, all, x, y);
    }

    /** Two open files side by side: each write goes to its own file. */
    method TwoWriters(a: string, b: string, x: byte, y: byte)
      requires Valid() && a != b && a in Files(disk, free) && b in Files(disk, free)
      requires |Files(disk, free)[a]| < BLOCK && |Files(disk, free)[b]| < BLOCK
      modifies this
      ensures Valid()
      ensures Files(disk, free) == Files(old(disk), old(free))[a := Files(old(disk), old(free))[a] + [x]][b := Files(old(disk), old(free))[b] + [y]]
    {
      var _, f := Open(a, true);
      var _, g := Open(b, true);
      AppendOne(f, x, a);
      AppendOne(g, y, b);
    }

    /** An open file survives the creation of another. */
    method CreateBeside(a: string, b: string, x: byte) returns (halted: bool)
      requires Valid() && a in Files(disk, free) && |Files(disk, free)[a]| < BLOCK
      requires b !in Files(disk, free) && |b| < 112 && free < |disk|
      modifies this
      ensures Valid()
      ensures !halted ==> Files(disk, free) == Files(old(disk), old(free))[b := []][a := Files(old(disk), old(free))[a] + [x]]
    {
      var _, f := Open(a, true);
      halted := Create(b);
      if !halted { AppendOne(f, x, a); }
    }

    /** One byte written at the end of a file. */
    method AppendOne(f: OpenFile, x: byte, ghost name: string)
      requires Opened(f, name) && name in Files(disk, free) && f.offset == |Files(disk, free)[name]| < BLOCK
      modifies this, f
      ensures Opened(f, name) && free == old(free) && Files(disk, free) == Files(old(disk), old(free))[name := Files(old(disk), old(free))[name] + [x]]
      ensures EntriesStay(old(disk)[1].entries, disk[1].entries, f.index)
    {
      FileOf(disk, free, f.index);
      ghost var bytes := disk[f.base].bytes;
      var _ := Write(f, [x], name);
      assert [x][..1] == [x];
      WriteAppendsIff(bytes, f.offset, f.offset, [x]);
    }
  }

  const LIMIT := 0x1_0000_0000_0000_0000

  /** What file_read does: bytes, -1, or a copy from beyond the end of the block it has read. */
  datatype ReadOutcome = Bytes(out: seq<byte>) | End | PastBlock

  /** size - offset in 64 bits. */
  function Left(size: nat, offset: nat): nat
    requires offset < LIMIT
  {
    if offset <= size then size - offset else LIMIT - (offset - size)
  }

  /** Beyond the end of the file the unsigned difference wraps around. */
  lemma LeftWraps(size: nat, offset: nat)
    requires size < LIMIT && offset < LIMIT
    ensures Left(size, offset) == (size - offset) % 0x1_0000_0000_0000_0000
  {
  }

  /** What a read should do. */
  function ProperRead(content: seq<byte>, offset: nat, count: nat): ReadOutcome {
    if count == 0 || offset >= |content| then End else Bytes(content[offset..offset + Min(count, |content| - offset)])
  }

  lemma OverwriteLast(bytes: seq<byte>, now: seq<byte>, all: seq<byte>, x: byte, y: byte)
    requires |bytes| == BLOCK && |now| == BLOCK && |all| < BLOCK && bytes[..|all|] == all
    requires now[..|all| + 1] == Splice(bytes, |all|, [x])[..|all| + 1]
    ensures Splice(now, |all|, [y])[..|all| + 1] == all + [y]
  {
    assert now[..|all|] == now[..|all| + 1][..|all|] == Splice(bytes, |all|, [x])[..|all| + 1][..|all|] == all;
  }

  /** A write appends to the contents exactly if it starts at their end, or writes nothing at or before
      it: since the offset does not move, a second write through the same open file does not append,
      unless the first wrote nothing. */
  lemma WriteAppendsIff(bytes: seq<byte>, size: nat, offset: nat, data: seq<byte>)
    requires |bytes| == BLOCK && size <= BLOCK && offset + |data| <= BLOCK
    ensures var size' := if size < offset + |data| then offset + |data| else size;
      Splice(bytes, offset, data)[..size'] == bytes[..size] + data <==> offset == size || (data == [] && offset < size)
  {
    var size' := if size < offset + |data| then offset + |data| else size;
    if offset == size {
      assert Splice(bytes, offset, data)[..size'] == bytes[..size] + data;
    } else if data == [] && offset < size {
      assert Splice(bytes, offset, data) == bytes;
    } else {
      assert |Splice(bytes, offset, data)[..size']| == size' != size + |data|;
    }
  }

  /** What a write does to the contents, if it starts at or before their end. */
  lemma WriteInContents(bytes: seq<byte>, size: nat, offset: nat, data: seq<byte>)
    requires |bytes| == BLOCK && offset <= size <= BLOCK && offset + |data| <= BLOCK
    ensures var content := bytes[..size];
            var size' := if size < offset + |data| then offset + |data| else size;
            Splice(bytes, offset, data)[..size'] ==
              content[..offset] + data + (if offset + |data| < size then content[offset + |data|..] else [])
  {
  }
}
