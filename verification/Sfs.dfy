/** The filesystem of fs/sfs.c as it runs: every access goes through the block cache, inodes, bitmap and
    directory blocks are read into a buffer, edited and written back. */
module Sfs {
  import opened Bytes
  import opened BlockCache
  import opened CStrings
  import opened SfsLayout
  import opened SfsSpec
  import opened SfsBlocks
  import opened SfsEntries
  import opened SfsFiles
  import opened SfsTree
  import opened SfsCreate
  import opened SfsUnlink
  import opened SfsRuns
  import opened SfsScan

  class FileSystem {
    const cache: Cache
    /** What the filesystem sees: the decoded block map, wherever its blocks are at the moment. */
    ghost var fs: Fs

    /** Any large enough disk can be attached; nothing is said of what it holds. */
    constructor (cache: Cache)
      requires cache.Valid() && |cache.logical| >= FS_BLOCKS
      ensures this.cache == cache && Attached() && fs == View(cache.logical)
    {
      this.cache := cache;
      fs := View(cache.logical);
    }

    ghost predicate Decodes()
      reads this, cache, cache.slots
    {
      cache.Valid() && |cache.logical| >= FS_BLOCKS && fs == View(cache.logical)
    }

    predicate OpenAttached(k: int) { true }

    /** The cache is sound and `fs` is the decoded block map, behind its key: code working on the decoded image does
        not have the bytes of the whole disk in its context. */
    ghost predicate Attached()
      reads this, cache, cache.slots
    {
      |cache.logical| >= FS_BLOCKS && forall k {:trigger OpenAttached(k)} :: OpenAttached(k) ==> Decodes()
    }

    lemma AttachedDecodes()
      ensures Attached() <==> Decodes()
    {
      assert OpenAttached(0);
    }

    ghost predicate Valid()
      reads this, cache, cache.slots
    {
      Attached() && FsOk(fs)
    }

    /** The superblock and the size of the disk are as they were. */
    twostate predicate SameSuper()
      reads this, cache
    {
      |cache.logical| == |old(cache.logical)| && (|cache.logical| > 0 ==> cache.logical[0] == old(cache.logical)[0])
    }

    // --- inodes, bitmap, data blocks ---------------------------------------

    method ReadInode(i: nat) returns (n: Inode)
      requires Attached() && i < MAX_INODES
      modifies this, cache, cache.slots
      ensures Attached() && cache.logical == old(cache.logical) && fs == old(fs)
      ensures n == fs.inodes[i]
    {
      AttachedDecodes();
      var buf := cache.Read(INODE_TABLE_START + i / INODES_PER_BLOCK);
      n := InodeAt(buf, i % INODES_PER_BLOCK);
    }

    method WriteInode(i: nat, n: Inode)
      requires Attached() && i < MAX_INODES
      modifies this, cache, cache.slots
      ensures Attached() && SameSuper()
      ensures fs == SetInode(old(fs), i, n)
    {
      AttachedDecodes();
      var blk := INODE_TABLE_START + i / INODES_PER_BLOCK;
      var buf := cache.Read(blk);
      buf := Splice(buf, 64 * (i % INODES_PER_BLOCK), InodeBytes(n));
      ViewInode(cache.logical, i, n);
      cache.Write(blk, buf);
      fs := SetInode(fs, i, n);
      AttachedDecodes();
    }

    method AllocInode() returns (i: int)
      requires Attached()
      modifies this, cache, cache.slots
      ensures Attached() && cache.logical == old(cache.logical) && fs == old(fs)
      ensures var k := FirstFreeInode(fs.inodes); i == if k < MAX_INODES then k else -1
    {
      for j := 0 to MAX_INODES
        invariant Attached() && cache.logical == old(cache.logical) && fs == old(fs)
        invariant FirstFreeInode(fs.inodes) == FirstFreeFrom(fs.inodes, j)
      {
        var n := ReadInode(j);
        if n.kind == FREE { return j; }
      }
      return -1;
    }

    method AllocBlock() returns (p: U32)
      requires Attached()
      modifies this, cache, cache.slots
      ensures Attached() && SameSuper()
      ensures fs == Alloc(old(fs)).0 && p == Alloc(old(fs)).1
    {
      AttachedDecodes();
      var bm := cache.Read(BITMAP_BLOCK);
      ghost var s := fs;
      for i := 0 to MAX_DATA_BLOCKS
        invariant Attached() && cache.logical == old(cache.logical) && fs == old(fs) &&
                  bm == cache.logical[BITMAP_BLOCK]
        invariant FirstClear(s.used) == FirstClearFrom(s.used, i)
      {
        assert s.used[i] == BitAt(bm, i);
        if !Bit(bm[i / 8], i % 8) {
          ViewBitmap(cache.logical, i, true);
          bm := bm[i / 8 := OrBit(bm[i / 8], i % 8)];
          cache.Write(BITMAP_BLOCK, bm);
          ViewData(cache.logical, i, Zeros(BLOCK_SIZE));
          cache.Write(DATA_START + i, Zeros(BLOCK_SIZE));
          fs := Alloc(s).0;
          AttachedDecodes();
          return DATA_START + i;
        }
      }
      return 0;
    }

    method FreeBlock(p: U32)
      requires Attached() && p < FS_BLOCKS
      modifies this, cache, cache.slots
      ensures Attached() && SameSuper()
      ensures fs == Release(old(fs), p)
    {
      if p < DATA_START { return; }
      AttachedDecodes();
      var i := p - DATA_START;
      var bm := cache.Read(BITMAP_BLOCK);
      ViewBitmap(cache.logical, i, false);
      bm := bm[i / 8 := AndNotBit(bm[i / 8], i % 8)];
      cache.Write(BITMAP_BLOCK, bm);
      fs := Release(fs, p);
      AttachedDecodes();
    }

    method ReadData(p: U32) returns (buf: Block)
      requires Attached() && IsDataBlock(p)
      modifies this, cache, cache.slots
      ensures Attached() && cache.logical == old(cache.logical) && fs == old(fs)
      ensures buf == DataOf(fs, p)
    {
      AttachedDecodes();
      buf := cache.Read(p);
    }

    method WriteData(p: U32, buf: Block)
      requires Attached() && IsDataBlock(p)
      modifies this, cache, cache.slots
      ensures Attached() && SameSuper()
      ensures fs == SetData(old(fs), p, buf)
    {
      AttachedDecodes();
      ViewData(cache.logical, p - DATA_START, buf);
      cache.Write(p, buf);
      fs := SetData(fs, p, buf);
      AttachedDecodes();
    }

    // --- directories -------------------------------------------------------

    /** Scanning block `b` for a name. */
    method NameInBlock(d: Inode, b: nat, name: Name, ghost slots: seq<Dirent>) returns (e: nat, buf: Block)
      requires Attached() && slots == Slots(fs, d) && BlockReadable(fs, d, b)
      modifies this, cache, cache.slots
      ensures Attached() && cache.logical == old(cache.logical) && fs == old(fs)
      ensures e <= DIRENTS_PER_BLOCK && buf == DataOf(fs, d.blocks[b]) && DIRENTS_PER_BLOCK * (b + 1) <= |slots|
      ensures FindNameFrom(slots, name, DIRENTS_PER_BLOCK * b)
              == if e < DIRENTS_PER_BLOCK then DIRENTS_PER_BLOCK * b + e
                else FindNameFrom(slots, name, DIRENTS_PER_BLOCK * (b + 1))
    {
      buf := ReadData(d.blocks[b]);
      e := EntryNamed(buf, name);
      ScanName(slots, BlockSlots(buf), DIRENTS_PER_BLOCK * b, name);
    }

    /** The scan of dir_lookup and dir_remove: entry `e` of block `b`, with that block in `buf`, or `e` = 16. */
    method FindSlot(d: Inode, name: Name, ghost slots: seq<Dirent>) returns (b: nat, e: nat, buf: Block)
      requires Attached() && Readable(fs, d) && slots == Slots(fs, d)
      modifies this, cache, cache.slots
      ensures Attached() && cache.logical == old(cache.logical) && fs == old(fs)
      ensures e <= DIRENTS_PER_BLOCK
      ensures e < DIRENTS_PER_BLOCK ==> BlockReadable(fs, d, b) && buf == DataOf(fs, d.blocks[b])
      ensures FindName(slots, name) == if e < DIRENTS_PER_BLOCK then DIRENTS_PER_BLOCK * b + e else |slots|
    {
      b, e, buf := 0, DIRENTS_PER_BLOCK, Zeros(BLOCK_SIZE);
      while b < DIRECT && d.blocks[b] != 0
        invariant Attached() && cache.logical == old(cache.logical) && fs == old(fs)
        invariant b <= Lead(d.blocks) && e == DIRENTS_PER_BLOCK
        invariant FindName(slots, name) == FindNameFrom(slots, name, DIRENTS_PER_BLOCK * b)
      {
        assert BlockReadable(fs, d, b);
        e, buf := NameInBlock(d, b, name, slots);
        if e < DIRENTS_PER_BLOCK { return; }
        b := b + 1;
      }
    }

    method DirLookup(dir: nat, name: Name) returns (ino: int)
      requires Valid() && dir < MAX_INODES
      modifies this, cache, cache.slots
      ensures Valid() && cache.logical == old(cache.logical) && fs == old(fs)
      ensures ino == Lookup(fs, dir, name)
    {
      var d := ReadInode(dir);
      if d.kind != DIR { return -1; }
      DirReadable(fs, dir);
      var b, e, buf := FindSlot(d, name, Slots(fs, d));
      if e == DIRENTS_PER_BLOCK { return -1; }
      SlotIs(fs, d, b, e);
      return WordAt(buf, 32 * e) - 1;
    }

    /** Scanning block `b` for a free slot. */
    method HoleInBlock(d: Inode, b: nat, ghost slots: seq<Dirent>) returns (e: nat, buf: Block)
      requires Attached() && slots == Slots(fs, d) && BlockReadable(fs, d, b)
      modifies this, cache, cache.slots
      ensures Attached() && cache.logical == old(cache.logical) && fs == old(fs)
      ensures e <= DIRENTS_PER_BLOCK && buf == DataOf(fs, d.blocks[b]) && DIRENTS_PER_BLOCK * (b + 1) <= |slots|
      ensures FindHoleFrom(slots, DIRENTS_PER_BLOCK * b)
              == if e < DIRENTS_PER_BLOCK then DIRENTS_PER_BLOCK * b + e
                else FindHoleFrom(slots, DIRENTS_PER_BLOCK * (b + 1))
    {
      buf := ReadData(d.blocks[b]);
      e := FreeEntry(buf);
      ScanHole(slots, BlockSlots(buf), DIRENTS_PER_BLOCK * b);
    }

    /** The scan of dir_add. */
    method FindFree(d: Inode, ghost slots: seq<Dirent>) returns (b: nat, e: nat, buf: Block)
      requires Attached() && Readable(fs, d) && slots == Slots(fs, d)
      modifies this, cache, cache.slots
      ensures Attached() && cache.logical == old(cache.logical) && fs == old(fs)
      ensures e <= DIRENTS_PER_BLOCK
      ensures e < DIRENTS_PER_BLOCK ==> BlockReadable(fs, d, b) && buf == DataOf(fs, d.blocks[b])
      ensures FindHole(slots) == if e < DIRENTS_PER_BLOCK then DIRENTS_PER_BLOCK * b + e else |slots|
    {
      b, e, buf := 0, DIRENTS_PER_BLOCK, Zeros(BLOCK_SIZE);
      while b < DIRECT && d.blocks[b] != 0
        invariant Attached() && cache.logical == old(cache.logical) && fs == old(fs)
        invariant b <= Lead(d.blocks) && e == DIRENTS_PER_BLOCK
        invariant FindHole(slots) == FindHoleFrom(slots, DIRENTS_PER_BLOCK * b)
      {
        assert BlockReadable(fs, d, b);
        e, buf := HoleInBlock(d, b, slots);
        if e < DIRENTS_PER_BLOCK { return; }
        b := b + 1;
      }
    }

    method DirAdd(dir: nat, name: Name, child: nat) returns (ok: bool)
      requires Valid() && LiveDir(fs, dir) && child < MAX_INODES
      modifies this, cache, cache.slots
      ensures Valid() && SameSuper()
      ensures AddStep(old(fs), fs, dir, name, child, ok) && Adds(old(fs), fs, dir, name, child, ok)
    {
      ghost var s := fs;
      ok := Place(dir, name, child);
      AddStepAdds(s, fs, dir, name, child, ok);
    }

    /** The body of dir_add: a free slot if there is one, else a new block. */
    method Place(dir: nat, name: Name, child: nat) returns (ok: bool)
      requires Valid() && LiveDir(fs, dir) && child < MAX_INODES
      modifies this, cache, cache.slots
      ensures Attached() && SameSuper()
      ensures AddStep(old(fs), fs, dir, name, child, ok)
    {
      ghost var s := fs;
      var d := ReadInode(dir);
      DirReadable(fs, dir);
      var b, e, buf := FindFree(d, Slots(fs, d));
      if e < DIRENTS_PER_BLOCK {
        var bytes := PutName(buf, e, child + 1, name);
        FillingAdds(fs, dir, b, e, bytes, name, child);
        WriteData(d.blocks[b], bytes);
        return true;
      }
      ghost var bytes := buf;
      ok, bytes := Extend(dir, d, name, child);
      ExtensionAdds(s, fs, dir, bytes, name, child, ok);
    }

    /** The second half of dir_add: the directory grows by one block, holding the entry alone. */
    method Extend(dir: nat, d: Inode, name: Name, child: nat) returns (ok: bool, ghost buf: Block)
      requires Attached() && dir < MAX_INODES && child < MAX_INODES && d == fs.inodes[dir]
      modifies this, cache, cache.slots
      ensures Attached() && SameSuper()
      ensures ok <==> Lead(d.blocks) < DIRECT && Alloc(old(fs)).1 != 0
      ensures !ok ==> fs == old(fs)
      ensures ok ==>
                && Edited(Zeros(BLOCK_SIZE), buf, 0, Dirent(child + 1, Stored(name)))
                && fs == SetData(SetInode(Alloc(old(fs)).0, dir, Extended(d, Alloc(old(fs)).1)), Alloc(old(fs)).1, buf)
    {
      buf := Zeros(BLOCK_SIZE);
      var b := FreePointer(d);
      if b == DIRECT { return false, buf; }
      var p := AllocBlock();
      if p == 0 { return false, buf; }
      WriteInode(dir, d.(blocks := d.blocks[b := p], size := (d.size + BLOCK_SIZE) % U32_LIMIT));
      var bytes := PutName(Zeros(BLOCK_SIZE), 0, child + 1, name);
      WriteData(p, bytes);
      return true, bytes;
    }

    method DirRemove(dir: nat, name: Name) returns (ok: bool)
      requires Valid() && dir < MAX_INODES && (LiveDir(fs, dir) || Lead(fs.inodes[dir].blocks) == 0)
      modifies this, cache, cache.slots
      ensures Attached() && SameSuper()
      ensures RemoveStep(old(fs), fs, dir, name, ok)
    {
      var d := ReadInode(dir);
      DirReadable(fs, dir);
      var b, e, buf := FindSlot(d, name, Slots(fs, d));
      if e == DIRENTS_PER_BLOCK { return false; }
      buf := ClearEntry(buf, e);
      ClearingRemoves(fs, dir, b, e, buf, name);
      WriteData(d.blocks[b], buf);
      return true;
    }

    // --- the public operations ---------------------------------------------

    /** A fresh inode of the given kind, and for a directory its two dots. */
    method MakeInode(ino: nat, dir: nat, kind: U32)
      requires Valid() && LiveDir(fs, dir) && ino < MAX_INODES && fs.inodes[ino].kind == FREE
      requires kind == FILE || kind == DIR
      modifies this, cache, cache.slots
      ensures Valid() && SameSuper() && LiveDir(fs, dir)
      ensures DotsStep(SetInode(old(fs), ino, Blank(kind)), fs, ino, dir, kind)
    {
      ghost var s := fs;
      NewInode(s, ino, kind);
      WriteInode(ino, Blank(kind));
      ghost var s1 := fs;
      if kind == DIR {
        var ok := DirAdd(ino, DOT, ino);
        ghost var m := fs;
        var ok' := DirAdd(ino, DOTDOT, dir);
        DotsStepBy(s1, m, fs, ino, dir, ok, ok');
      }
      DirSurvives(s, fs, dir, ino, kind);
    }

    method Create(dir: nat, name: Name, kind: U32) returns (r: int)
      requires Valid() && LiveDir(fs, dir) && (kind == FILE || kind == DIR)
      modifies this, cache, cache.slots
      ensures Valid() && SameSuper()
      ensures CreateStep(old(fs), dir, name, kind, fs, r)
    {
      var found := DirLookup(dir, name);
      if found >= 0 { return -1; }
      var ino := AllocInode();
      if ino < 0 { return -1; }
      ghost var s := fs;
      MakeInode(ino, dir, kind);
      ghost var s2 := fs;
      var ok := DirAdd(dir, name, ino);
      CreateStepBy(s, dir, name, kind, s2, fs, ok);
      r := if ok then ino else -1;
    }

    /** Counting through block `b`. */
    method NthInBlock(d: Inode, b: nat, index: int, seen: nat, ghost slots: seq<Dirent>) returns (e: nat, now: nat,
          buf: Block)
      requires Attached() && slots == Slots(fs, d) && BlockReadable(fs, d, b)
      requires Counted(slots, b, seen) && (index < 0 || seen <= index)
      modifies this, cache, cache.slots
      ensures Attached() && cache.logical == old(cache.logical) && fs == old(fs)
      ensures e <= DIRENTS_PER_BLOCK
      ensures e < DIRENTS_PER_BLOCK ==> NthFound(slots, index, e, buf)
      ensures e == DIRENTS_PER_BLOCK ==> Counted(slots, b + 1, now) && (index < 0 || now <= index)
    {
      buf := ReadData(d.blocks[b]);
      e, now := NthLive(buf, index, seen);
      NthInThisBlock(fs, d, b, slots, buf, index, seen, e, now);
    }

    /** The scan of sfs_readdir: the block and entry of live slot number `index`, or entry 16. */
    method FindNth(d: Inode, index: int, ghost slots: seq<Dirent>) returns (e: nat, buf: Block)
      requires Attached() && Readable(fs, d) && slots == Slots(fs, d)
      modifies this, cache, cache.slots
      ensures Attached() && cache.logical == old(cache.logical) && fs == old(fs)
      ensures e <= DIRENTS_PER_BLOCK && NthFound(slots, index, e, buf)
    {
      e, buf := DIRENTS_PER_BLOCK, Zeros(BLOCK_SIZE);
      var b: nat, seen: nat := 0, 0;
      CountedIs(slots, 0, 0);
      while b < DIRECT && d.blocks[b] != 0
        invariant Attached() && cache.logical == old(cache.logical) && fs == old(fs)
        invariant b <= Lead(d.blocks) && e == DIRENTS_PER_BLOCK
        invariant Counted(slots, b, seen) && (index < 0 || seen <= index)
      {
        assert BlockReadable(fs, d, b);
        e, seen, buf := NthInBlock(d, b, index, seen, slots);
        if e < DIRENTS_PER_BLOCK { return; }
        b := b + 1;
      }
      AllCounted(fs, d, slots, b, seen, index, buf);
    }

    /** sfs_readdir: the live slot numbered `index`, and the inode it names. */
    method Readdir(dir: nat, index: int) returns (ino: int, name: Name)
      requires Valid() && dir < MAX_INODES
      modifies this, cache, cache.slots
      ensures Valid() && cache.logical == old(cache.logical) && fs == old(fs)
      ensures var l := Listing(fs, dir);
              if 0 <= index < |l| then ino == l[index].inum1 - 1 && name == l[index].name && 0 <= ino < MAX_INODES
              else ino == -1
    {
      var d := ReadInode(dir);
      if d.kind != DIR { return -1, []; }
      DirReadable(fs, dir);
      var e, buf := FindNth(d, index, Slots(fs, d));
      NthFoundIs(Slots(fs, d), index, e, buf);
      if e == DIRENTS_PER_BLOCK { return -1, []; }
      ListedInode(fs, dir, index);
      return WordAt(buf, 32 * e) - 1, CString(buf[32 * e + 4..32 * e + 32]);
    }

    /** Giving back a file's blocks, pointer by pointer. */
    method ReleaseBlocks(blocks: seq<U32>)
      requires Attached() && OnDisk(blocks)
      modifies this, cache, cache.slots
      ensures Attached() && SameSuper()
      ensures fs == ReleaseAll(old(fs), blocks)
    {
      ghost var s := fs;
      var b := 0;
      while b < |blocks|
        invariant Attached() && SameSuper() && b <= |blocks| && OnDisk(blocks[..b])
        invariant fs == ReleaseAll(s, blocks[..b])
      {
        assert blocks[..b + 1][..b] == blocks[..b];
        if blocks[b] != 0 { FreeBlock(blocks[b]); }
        b := b + 1;
      }
      assert blocks[..b] == blocks;
    }

    /** The write loop: fresh blocks until the data or the disk runs out. */
    method StoreBlocks(start: seq<U32>, d: seq<Byte>) returns (blocks: seq<U32>, written: nat)
      requires Attached() && |start| == DIRECT && |d| <= MAX_BYTES && Lead(start) == 0 && AllZeroFrom(start, 0)
      modifies this, cache, cache.slots
      ensures Attached() && SameSuper()
      ensures (fs, blocks) == WriteBlocks(old(fs), start, d, 0)
      ensures written == Min(|d|, BLOCK_SIZE * Lead(blocks))
    {
      ghost var s := fs;
      blocks, written := start, 0;
      var b := 0;
      while written < |d|
        invariant Attached() && SameSuper() && |blocks| == DIRECT
        invariant b <= DIRECT && written == Min(|d|, BLOCK_SIZE * b)
        invariant Lead(blocks) == b && AllZeroFrom(blocks, b)
        invariant WriteBlocks(s, start, d, 0) == WriteBlocks(fs, blocks, d, b)
        decreases |d| - written
      {
        var chunk := Min(|d| - written, BLOCK_SIZE);
        var p := AllocBlock();
        if p == 0 { return; }
        var buf := Splice(Zeros(BLOCK_SIZE), 0, d[written..written + chunk]);
        assert buf == Chunk(d, b);
        WriteData(p, buf);
        LeadIs(blocks[b := p], b + 1);
        blocks := blocks[b := p];
        written := written + chunk;
        b := b + 1;
      }
    }

    /** sfs_write: overwrite a file. */
    method Write(inode: nat, data: seq<Byte>) returns (r: int)
      requires Valid() && inode < MAX_INODES
      modifies this, cache, cache.slots
      ensures Valid() && SameSuper()
      ensures OnDisk(old(fs).inodes[inode].blocks) && (fs, r) == WriteFile(old(fs), inode, data)
      ensures Wrote(old(fs), inode, data, fs, r)
    {
      ghost var s := fs;
      WriteFileWrote(s, inode, data);
      var n := ReadInode(inode);
      if n.kind != FILE { return -1; }
      ReleaseBlocks(n.blocks);
      var len := Min(|data|, MAX_BYTES);
      LeadIs(Zeroed(n.blocks), 0);
      var blocks, written := StoreBlocks(Zeroed(n.blocks), data[..len]);
      WriteInode(inode, n.(blocks := blocks, size := written));
      return written;
    }

    /** sfs_read: the first bytes of a file, block by block. */
    method Read(inode: nat, max: nat) returns (out: seq<Byte>)
      requires Valid() && inode < MAX_INODES
      modifies this, cache, cache.slots
      ensures Valid() && cache.logical == old(cache.logical) && fs == old(fs)
      ensures out == ReadFile(fs, inode, max)
    {
      var n := ReadInode(inode);
      BlocksInData(fs, inode);
      var len := Min(n.size, max);
      out := [];
      var b := 0;
      while |out| < len && b < DIRECT && n.blocks[b] != 0
        invariant Attached() && cache.logical == old(cache.logical) && fs == old(fs)
        invariant b <= Lead(n.blocks) && |out| == Min(len, BLOCK_SIZE * b)
        invariant out == BytesOf(fs, n.blocks, |out|)
        decreases DIRECT - b
      {
        var chunk := Min(len - |out|, BLOCK_SIZE);
        var buf := ReadData(n.blocks[b]);
        BytesGrow(fs, n.blocks, b, chunk);
        out := out + buf[..chunk];
        b := b + 1;
      }
    }

    /** The count of sfs_unlink: readdir until it finds nothing. */
    method CountEntries(dir: nat) returns (count: nat)
      requires Valid() && dir < MAX_INODES
      modifies this, cache, cache.slots
      ensures Valid() && cache.logical == old(cache.logical) && fs == old(fs)
      ensures count == |Listing(fs, dir)|
    {
      count := 0;
      ghost var l := Listing(fs, dir);
      var child, name := Readdir(dir, count);
      while child >= 0
        invariant Valid() && cache.logical == old(cache.logical) && fs == old(fs)
        invariant count <= |l| && (child >= 0 <==> count < |l|)
        decreases |l| - count
      {
        count := count + 1;
        child, name := Readdir(dir, count);
      }
    }

    /** sfs_unlink: a file, or a directory with nothing but its dots. */
    method Unlink(dir: nat, name: Name) returns (r: int)
      requires Valid() && dir < MAX_INODES
      modifies this, cache, cache.slots
      ensures Valid() && SameSuper()
      ensures UnlinkStep(old(fs), dir, name, fs, r)
    {
      ghost var s := fs;
      if name == DOT || name == DOTDOT { return -1; }
      var ino := DirLookup(dir, name);
      if ino < 0 { return -1; }
      LookupIs(s, dir, name);
      var n := ReadInode(ino);
      if n.kind == DIR {
        var count := CountEntries(ino);
        if count > 2 { return -1; }
      }
      FreedOk(s, ino);
      ReleaseBlocks(n.blocks);
      WriteInode(ino, Blank(FREE));
      FreedHolder(s, dir, ino);
      var ok := DirRemove(dir, name);
      r := if ok then 0 else -1;
      UnlinkStepBy(s, dir, name, ino, fs, r);
      UnlinkOk(s, dir, name, fs, r);
    }

    // --- format and mount --------------------------------------------------

    /** Writing one block outside the data area by its number. */
    method WriteRaw(blk: nat, buf: Block)
      requires Attached() && blk < DATA_START
      modifies this, cache, cache.slots
      ensures Attached()
      ensures cache.logical == old(cache.logical)[blk := buf]
    {
      AttachedDecodes();
      cache.Write(blk, buf);
      fs := View(cache.logical);
      AttachedDecodes();
    }

    /** An empty inode table and bitmap under a new superblock. */
    method ClearTables()
      requires Attached()
      modifies this, cache, cache.slots
      ensures Attached() && |cache.logical| > 0 && cache.logical[0] == SuperBlock()
      ensures fs == Fs(seq(MAX_INODES, i => Blank(FREE)), seq(MAX_DATA_BLOCKS, _ => false), old(fs).data)
    {
      AttachedDecodes();
      ghost var l := cache.logical;
      WriteRaw(0, SuperBlock());
      for b := 0 to INODE_TABLE_BLOCKS
        invariant Attached() && |cache.logical| == |l| && cache.logical[0] == SuperBlock()
        invariant forall t :: INODE_TABLE_START <= t < INODE_TABLE_START + b ==> cache.logical[t] == Zeros(BLOCK_SIZE)
        invariant cache.logical[DATA_START..] == l[DATA_START..]
      {
        WriteRaw(INODE_TABLE_START + b, Zeros(BLOCK_SIZE));
      }
      WriteRaw(BITMAP_BLOCK, Zeros(BLOCK_SIZE));
      AttachedDecodes();
      ClearedView(l, cache.logical);
    }

    method Format()
      requires Attached()
      modifies this, cache, cache.slots
      ensures Valid() && HasMagic(cache.logical) && cache.logical[0] == SuperBlock()
      ensures Formatted(old(fs).data, fs)
    {
      ghost var data := fs.data;
      ClearTables();
      WriteInode(ROOT, Blank(DIR));
      assert fs == Cleared(data);
      ClearedOk(data);
      var ok := DirAdd(ROOT, DOT, ROOT);
      ghost var m := fs;
      var ok' := DirAdd(ROOT, DOTDOT, ROOT);
      FormattedBy(data, m, fs, ok, ok');
      MagicOfSuperBlock();
    }

    /** sfs_init: a disk with the magic number is mounted as it is, sound or not, and any other is formatted. */
    method Init()
      requires Attached()
      modifies this, cache, cache.slots
      ensures Attached() && HasMagic(cache.logical)
      ensures if HasMagic(old(cache.logical)) then fs == old(fs) && cache.logical == old(cache.logical)
              else FsOk(fs) && Formatted(old(fs).data, fs)
    {
      AttachedDecodes();
      var buf := cache.Read(0);
      AttachedDecodes();
      if WordAt(buf, 0) != SFS_MAGIC { Format(); }
    }

    /** The sync that ends each command, then a reboot that loses the cache and mounts again: the same filesystem. */
    method SyncAndReboot()
      requires Valid() && HasMagic(cache.logical)
      modifies this, cache, cache.slots
      ensures Valid() && fs == old(fs) && cache.logical == old(cache.logical)
    {
      AttachedDecodes();
      cache.Sync();
      cache.Init();
      AttachedDecodes();
      Init();
    }
  }
}
