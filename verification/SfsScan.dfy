/** The loops and buffer edits of fs/sfs.c that work on one block at a time, and what they mean for the
    filesystem as a whole. */
module SfsScan {
  import opened Bytes
  import opened BlockCache
  import opened CStrings
  import opened SfsLayout
  import opened SfsSpec
  import opened SfsBlocks
  import opened SfsEntries
  import opened SfsTree
  import opened SfsCreate
  import opened SfsUnlink

  const SFS_MAGIC: U32 := 0x4A534653

  // --- scanning one directory block ----------------------------------------

  /** The sixteen slots of a block. */
  function BlockSlots(buf: Block): seq<Dirent>
  {
    seq(DIRENTS_PER_BLOCK, e requires 0 <= e < DIRENTS_PER_BLOCK => DirentAt(buf, e))
  }

  /** Block `b` of a directory is slots 16 * b on of it. */
  lemma BlockSegment(s: Fs, dir: nat, b: nat)
    requires FsOk(s) && LiveDir(s, dir) && b < Lead(s.inodes[dir].blocks)
    ensures var d := s.inodes[dir];
            && IsDataBlock(d.blocks[b])
            && Segment(Slots(s, d), BlockSlots(DataOf(s, d.blocks[b])), DIRENTS_PER_BLOCK * b)
            && SlotsOk(BlockSlots(DataOf(s, d.blocks[b])))
  {
    FsOkIs(s);
    var d := s.inodes[dir];
    var slots, bs := Slots(s, d), BlockSlots(DataOf(s, d.blocks[b]));
    assert Owns(s.inodes, dir, b, d.blocks[b]);
    assert SlotsOk(slots);
    forall e | 0 <= e < DIRENTS_PER_BLOCK ensures slots[DIRENTS_PER_BLOCK * b + e] == bs[e] {
      assert (DIRENTS_PER_BLOCK * b + e) / DIRENTS_PER_BLOCK == b &&
        (DIRENTS_PER_BLOCK * b + e) % DIRENTS_PER_BLOCK == e;
    }
  }

  predicate Segment(slots: seq<Dirent>, part: seq<Dirent>, at: nat)
  {
    at + |part| <= |slots| && forall e :: 0 <= e < |part| ==> slots[at + e] == part[e]
  }

  /** Scanning block by block finds what scanning the whole directory finds. */
  lemma ScanName(slots: seq<Dirent>, part: seq<Dirent>, at: nat, name: Name)
    requires Segment(slots, part, at)
    ensures FindNameFrom(slots, name, at)
            == if FindName(part, name) < |part| then at + FindName(part, name)
              else FindNameFrom(slots, name, at + |part|)
  {
    var k, m := FindNameFrom(slots, name, at), FindName(part, name);
    assert m < |part| ==> slots[at + m] == part[m];
    assert k < at + |part| ==> part[k - at] == slots[at + (k - at)];
  }

  lemma ScanHole(slots: seq<Dirent>, part: seq<Dirent>, at: nat)
    requires Segment(slots, part, at)
    ensures FindHoleFrom(slots, at)
            == if FindHole(part) < |part| then at + FindHole(part) else FindHoleFrom(slots, at + |part|)
  {
    var k, m := FindHoleFrom(slots, at), FindHole(part);
    assert m < |part| ==> slots[at + m] == part[m];
    assert k < at + |part| ==> part[k - at] == slots[at + (k - at)];
  }

  /** Block `b` of the directory is in the data area, holds its slots, and its names can be compared. */
  ghost predicate BlockReadable(s: Fs, d: Inode, b: nat)
  {
    && b < Lead(d.blocks) && IsDataBlock(d.blocks[b])
    && Segment(Slots(s, d), BlockSlots(DataOf(s, d.blocks[b])), DIRENTS_PER_BLOCK * b)
    && SlotsOk(BlockSlots(DataOf(s, d.blocks[b])))
  }

  ghost predicate Readable(s: Fs, d: Inode)
  {
    forall b {:trigger BlockReadable(s, d, b)} :: 0 <= b < Lead(d.blocks) ==> BlockReadable(s, d, b)
  }

  lemma DirReadable(s: Fs, dir: nat)
    requires FsOk(s) && dir < MAX_INODES && (s.inodes[dir].kind == DIR || Lead(s.inodes[dir].blocks) == 0)
    ensures Readable(s, s.inodes[dir])
  {
    forall b | 0 <= b < Lead(s.inodes[dir].blocks) ensures BlockReadable(s, s.inodes[dir], b) {
      BlockSegment(s, dir, b);
    }
  }

  /** The inner loop of dir_lookup and dir_remove. */
  method EntryNamed(buf: Block, name: Name) returns (e: nat)
    requires SlotsOk(BlockSlots(buf))
    ensures e == FindName(BlockSlots(buf), name) && e <= DIRENTS_PER_BLOCK
  {
    e := 0;
    while e < DIRENTS_PER_BLOCK
      invariant e <= DIRENTS_PER_BLOCK
      invariant FindName(BlockSlots(buf), name) == FindNameFrom(BlockSlots(buf), name, e)
    {
      assert BlockSlots(buf)[e] == DirentAt(buf, e);
      if WordAt(buf, 32 * e) != 0 {
        var c := StrCmp(buf[32 * e + 4..32 * e + 32], Buffer(name));
        if c == 0 { return; }
      }
      e := e + 1;
    }
  }

  /** The inner loop of dir_add. */
  method FreeEntry(buf: Block) returns (e: nat)
    ensures e == FindHole(BlockSlots(buf)) && e <= DIRENTS_PER_BLOCK
  {
    e := 0;
    while e < DIRENTS_PER_BLOCK
      invariant e <= DIRENTS_PER_BLOCK
      invariant FindHole(BlockSlots(buf)) == FindHoleFrom(BlockSlots(buf), e)
    {
      assert BlockSlots(buf)[e] == DirentAt(buf, e);
      if WordAt(buf, 32 * e) == 0 { return; }
      e := e + 1;
    }
  }

  /** Filling a slot of the buffer: the word, strncpy of 27 bytes, the last byte cleared. */
  method PutName(buf: Block, e: nat, inum1: U32, name: Name) returns (r: Block)
    requires e < DIRENTS_PER_BLOCK
    ensures Edited(buf, r, e, Dirent(inum1, Stored(name)))
  {
    r := Splice(buf, 32 * e, WordBytes(inum1));
    var field := StrNCpy(r[32 * e + 4..32 * e + 32], Buffer(name), NAME_MAX);
    field := field[NAME_MAX := 0];
    assert field == NameField(name);
    r := Splice(r, 32 * e + 4, field);
    PutEdits(buf, r, e, inum1, name);
  }

  method ClearEntry(buf: Block, e: nat) returns (r: Block)
    requires e < DIRENTS_PER_BLOCK
    ensures Edited(buf, r, e, DirentAt(buf, e).(inum1 := 0))
  {
    r := Splice(buf, 32 * e, WordBytes(0));
    ClearEdits(buf, r, e);
  }

  /** The loop that looks for a pointer to grow by. */
  method FreePointer(d: Inode) returns (b: nat)
    ensures b == Lead(d.blocks) && b <= DIRECT
  {
    b := 0;
    while b < DIRECT && d.blocks[b] != 0
      invariant b <= Lead(d.blocks)
    {
      b := b + 1;
    }
  }

  lemma Position(b: nat, e: nat)
    requires e < DIRENTS_PER_BLOCK
    ensures (DIRENTS_PER_BLOCK * b + e) / DIRENTS_PER_BLOCK == b && (DIRENTS_PER_BLOCK * b + e) % DIRENTS_PER_BLOCK == e
  {
  }

  lemma SlotIs(s: Fs, d: Inode, b: nat, e: nat)
    requires b < Lead(d.blocks) && e < DIRENTS_PER_BLOCK
    ensures var k := DIRENTS_PER_BLOCK * b + e;
            && k < |Slots(s, d)| && SlotBlock(d, k) == d.blocks[b] && k % DIRENTS_PER_BLOCK == e
            && Slots(s, d)[k] == DirentAt(DataOf(s, d.blocks[b]), e)
  {
    Position(b, e);
  }

  /** sector 0: the magic number and the layout's sizes, then zeros. */
  function SuperBlock(): Block
  {
    WordBytes(SFS_MAGIC) + WordBytes(MAX_INODES) + WordBytes(DATA_START) + WordBytes(MAX_DATA_BLOCKS) +
      Zeros(BLOCK_SIZE - 16)
  }

  predicate HasMagic(l: seq<Block>)
  {
    |l| > 0 && WordAt(l[0], 0) == SFS_MAGIC
  }

  lemma MagicOfSuperBlock()
    ensures WordAt(SuperBlock(), 0) == SFS_MAGIC
  {
    assert forall i :: 0 <= i < 4 ==> SuperBlock()[i] == WordBytes(SFS_MAGIC)[i];
    assert WordAt(SuperBlock(), 0) == WordAt(WordBytes(SFS_MAGIC), 0);
  }

  /** The superblock records the magic number and, in the words after it, the sizes of the layout. */
  lemma SuperBlockWords()
    ensures WordAt(SuperBlock(), 0) == 0x4A53_4653 && WordAt(SuperBlock(), 4) == 64
    ensures WordAt(SuperBlock(), 8) == 16 && WordAt(SuperBlock(), 12) == 2048
  {
    MagicOfSuperBlock();
    var b := SuperBlock();
    WordInside(b, 4, WordBytes(MAX_INODES));
    WordInside(b, 8, WordBytes(DATA_START));
    WordInside(b, 12, WordBytes(MAX_DATA_BLOCKS));
  }

  lemma WordInside(b: seq<Byte>, at: nat, w: seq<Byte>)
    requires |w| == 4 && at + 4 <= |b| && b[at..at + 4] == w
    ensures WordAt(b, at) == WordAt(w, 0)
  {
    assert b[at..at + 4][0] == b[at] && b[at..at + 4][1] == b[at + 1];
    assert b[at..at + 4][2] == b[at + 2] && b[at..at + 4][3] == b[at + 3];
  }

  lemma ZeroInode(j: nat)
    requires j < INODES_PER_BLOCK
    ensures InodeAt(Zeros(BLOCK_SIZE), j) == Blank(FREE)
  {
  }

  lemma {:induction false} ZeroBits(k: nat)
    ensures !Bit(0, k)
  {
    if k > 0 { ZeroBits(k - 1); }
  }

  lemma ClearedView(l: seq<Block>, l': seq<Block>)
    requires |l| >= FS_BLOCKS && |l'| == |l| && l'[DATA_START..] == l[DATA_START..]
    requires forall t :: INODE_TABLE_START <= t < INODE_TABLE_START + INODE_TABLE_BLOCKS ==> l'[t] == Zeros(BLOCK_SIZE)
    requires l'[BITMAP_BLOCK] == Zeros(BLOCK_SIZE)
    ensures View(l') == Fs(seq(MAX_INODES, i => Blank(FREE)), seq(MAX_DATA_BLOCKS, _ => false), View(l).data)
  {
    forall i: nat | i < MAX_INODES ensures View(l').inodes[i] == Blank(FREE) {
      assert l'[INODE_TABLE_START + i / INODES_PER_BLOCK] == Zeros(BLOCK_SIZE);
      ZeroInode(i % INODES_PER_BLOCK);
    }
    forall k: nat | k < MAX_DATA_BLOCKS ensures !View(l').used[k] {
      ZeroBits(k % 8);
    }
    forall k: nat | k < MAX_DATA_BLOCKS ensures View(l').data[k] == View(l).data[k] {
      assert l'[DATA_START..][k] == l[DATA_START..][k];
    }
  }

  /** The inode written last is what the directory's holder finds. */
  lemma FreedHolder(s: Fs, dir: nat, ino: nat)
    requires FsOk(s) && LiveDir(s, dir) && ino < MAX_INODES && OnDisk(s.inodes[ino].blocks)
    ensures FsOk(Freed(s, ino))
    ensures if ino == dir then Lead(Freed(s, ino).inodes[dir].blocks) == 0 && !LiveDir(Freed(s, ino), dir)
            else LiveDir(Freed(s, ino), dir)
  {
    FreedOk(s, ino);
    LeadIs(Blank(FREE).blocks, 0);
    if ino != dir { assert Kept(s, Freed(s, ino), dir); }
  }

  lemma UnlinkStepBy(s: Fs, dir: nat, name: Name, ino: nat, s': Fs, r: int)
    requires LiveDir(s, dir) && ino == Lookup(s, dir, name) && ino < MAX_INODES && OnDisk(s.inodes[ino].blocks)
    requires !Refuses(s, dir, name) && RemoveStep(Freed(s, ino), s', dir, name, r == 0) && (r == 0 || r == -1)
    ensures UnlinkStep(s, dir, name, s', r)
  {
    if ino == dir {
      LeadIs(Blank(FREE).blocks, 0);
      assert Slots(Freed(s, ino), Freed(s, ino).inodes[dir]) == [];
    }
  }

  lemma BlocksInData(s: Fs, i: nat)
    requires FsOk(s) && i < MAX_INODES
    ensures forall b :: 0 <= b < Lead(s.inodes[i].blocks) ==> IsDataBlock(s.inodes[i].blocks[b])
  {
    FsOkIs(s);
    forall b | 0 <= b < Lead(s.inodes[i].blocks) ensures IsDataBlock(s.inodes[i].blocks[b]) {
      assert Owns(s.inodes, i, b, s.inodes[i].blocks[b]);
    }
  }

  /** One more block's worth of bytes. */
  lemma BytesGrow(s: Fs, blocks: seq<U32>, b: nat, chunk: nat)
    requires b < |blocks| && chunk <= BLOCK_SIZE
    ensures BytesOf(s, blocks, BLOCK_SIZE * b + chunk) == BytesOf(s, blocks, BLOCK_SIZE * b) +
            DataOf(s, blocks[b])[..chunk]
  {
    forall j | 0 <= j < chunk ensures ByteAt(s, blocks, BLOCK_SIZE * b + j) == DataOf(s, blocks[b])[j] {
      ByteInBlock(s, blocks, b, j);
    }
  }

  lemma ByteInBlock(s: Fs, blocks: seq<U32>, b: nat, j: nat)
    requires b < |blocks| && j < BLOCK_SIZE
    ensures ByteAt(s, blocks, BLOCK_SIZE * b + j) == DataOf(s, blocks[b])[j]
  {
    assert (BLOCK_SIZE * b + j) / BLOCK_SIZE == b && (BLOCK_SIZE * b + j) % BLOCK_SIZE == j;
  }

  /** What readdir lists: the live slots of a directory, nothing for a file. */
  function Listing(s: Fs, dir: nat): seq<Dirent>
    requires dir < MAX_INODES
  {
    if s.inodes[dir].kind == DIR then Live(Slots(s, s.inodes[dir])) else []
  }

  lemma DotsStepBy(s1: Fs, m: Fs, s2: Fs, ino: nat, dir: nat, ok: bool, ok': bool)
    requires AddStep(s1, m, ino, DOT, ino, ok) && AddStep(m, s2, ino, DOTDOT, dir, ok')
    ensures DotsStep(s1, s2, ino, dir, DIR)
  {
  }

  lemma DirSurvives(s: Fs, s2: Fs, dir: nat, ino: nat, kind: U32)
    requires FsOk(s) && LiveDir(s, dir) && ino < MAX_INODES && s.inodes[ino].kind == FREE
    requires kind == FILE || kind == DIR
    requires DotsStep(SetInode(s, ino, Blank(kind)), s2, ino, dir, kind)
    ensures FsOk(s2) && LiveDir(s2, dir)
  {
    NewInode(s, ino, kind);
    DotsStepAdded(SetInode(s, ino, Blank(kind)), s2, ino, dir, kind);
    PreparedOk(s, s2, dir, ino, kind);
    OtherKept(s, s2, dir, ino);
  }

  lemma OtherKept(s: Fs, s2: Fs, dir: nat, ino: nat)
    requires LiveDir(s, dir) && dir != ino && OthersKeptBut(s, s2, {ino})
    ensures LiveDir(s2, dir)
  {
    assert Kept(s, s2, dir);
  }

  lemma CreateStepBy(s: Fs, dir: nat, name: Name, kind: U32, s2: Fs, s': Fs, ok: bool)
    requires dir < MAX_INODES && !Refused(s, dir, name)
    requires DotsStep(SetInode(s, FirstFreeInode(s.inodes), Blank(kind)), s2, FirstFreeInode(s.inodes), dir, kind)
    requires AddStep(s2, s', dir, name, FirstFreeInode(s.inodes), ok)
    ensures CreateStep(s, dir, name, kind, s', if ok then FirstFreeInode(s.inodes) else -1)
  {
  }

  /** The inner loop of sfs_readdir: the entry that is number `index` when `seen` came before the block, or 16. */
  method NthLive(buf: Block, index: int, seen: nat) returns (e: nat, now: nat)
    requires index < 0 || seen <= index
    ensures e <= DIRENTS_PER_BLOCK && now == seen + |LiveIn(BlockSlots(buf), e)|
    ensures if e < DIRENTS_PER_BLOCK then WordAt(buf, 32 * e) != 0 && now == index else index < 0 || now <= index
  {
    e, now := 0, seen;
    while e < DIRENTS_PER_BLOCK
      invariant e <= DIRENTS_PER_BLOCK && now == seen + |LiveIn(BlockSlots(buf), e)| && (index < 0 || now <= index)
    {
      assert BlockSlots(buf)[e] == DirentAt(buf, e);
      if WordAt(buf, 32 * e) != 0 {
        if now == index { return; }
        now := now + 1;
      }
      e := e + 1;
    }
  }

  /** The live slots up to a position within a block: those before the block, then those in it. */
  lemma {:induction false} LiveSegment(slots: seq<Dirent>, part: seq<Dirent>, at: nat, e: nat)
    requires Segment(slots, part, at) && e <= |part|
    ensures |LiveIn(slots, at + e)| == |LiveIn(slots, at)| + |LiveIn(part, e)|
  {
    if e > 0 {
      LiveSegment(slots, part, at, e - 1);
      assert slots[at + (e - 1)] == part[e - 1];
    }
  }

  /** A live slot is numbered by the live slots before it. */
  lemma {:induction false} LiveAt(slots: seq<Dirent>, k: nat, n: nat)
    requires k < n <= |slots| && slots[k].inum1 != 0
    ensures |LiveIn(slots, k)| < |LiveIn(slots, n)| && LiveIn(slots, n)[|LiveIn(slots, k)|] == slots[k]
  {
    if n > k + 1 { LiveAt(slots, k, n - 1); }
  }

  predicate SeenBefore(slots: seq<Dirent>, at: nat, seen: nat)
  {
    at <= |slots| && seen == |LiveIn(slots, at)|
  }

  predicate OpenCounted(slots: seq<Dirent>, b: nat, seen: nat, k: int) { true }

  /** `seen` live slots lie in the first `b` blocks, behind the trigger. */
  ghost predicate Counted(slots: seq<Dirent>, b: nat, seen: nat)
  {
    forall k {:trigger OpenCounted(slots, b, seen, k)} :: OpenCounted(slots, b, seen, k) ==>
      SeenBefore(slots, DIRENTS_PER_BLOCK * b, seen)
  }

  lemma CountedIs(slots: seq<Dirent>, b: nat, seen: nat)
    ensures Counted(slots, b, seen) <==> SeenBefore(slots, DIRENTS_PER_BLOCK * b, seen)
  {
    assert OpenCounted(slots, b, seen, 0);
  }

  /** What a scan for live slot number `index` comes to: the entry that holds it, or 16 if there are not so many. */
  ghost predicate NthIs(slots: seq<Dirent>, index: int, e: nat, buf: Block)
  {
    if e < DIRENTS_PER_BLOCK then 0 <= index < |Live(slots)| && DirentAt(buf, e) == Live(slots)[index]
    else e == DIRENTS_PER_BLOCK && (index < 0 || |Live(slots)| <= index)
  }

  predicate OpenNthFound(slots: seq<Dirent>, index: int, e: nat, buf: Block, k: int) { true }

  /** The same, behind the trigger. */
  ghost predicate NthFound(slots: seq<Dirent>, index: int, e: nat, buf: Block)
  {
    forall k {:trigger OpenNthFound(slots, index, e, buf, k)} :: OpenNthFound(slots, index, e, buf, k) ==>
      NthIs(slots, index, e, buf)
  }

  lemma NthFoundIs(slots: seq<Dirent>, index: int, e: nat, buf: Block)
    ensures NthFound(slots, index, e, buf) <==> NthIs(slots, index, e, buf)
  {
    assert OpenNthFound(slots, index, e, buf, 0);
  }

  lemma NthInThisBlock(s: Fs, d: Inode, b: nat, slots: seq<Dirent>, buf: Block, index: int, seen: nat, e: nat, now: nat)
    requires BlockReadable(s, d, b) && slots == Slots(s, d) && buf == DataOf(s, d.blocks[b]) && Counted(slots, b, seen)
    requires e <= DIRENTS_PER_BLOCK && now == seen + |LiveIn(BlockSlots(buf), e)|
    requires e < DIRENTS_PER_BLOCK ==> WordAt(buf, 32 * e) != 0 && now == index
    ensures e < DIRENTS_PER_BLOCK ==> NthFound(slots, index, e, buf)
    ensures e == DIRENTS_PER_BLOCK ==> Counted(slots, b + 1, now)
  {
    CountOn(slots, BlockSlots(buf), b, buf, index, seen, e, now);
  }

  lemma CountOn(slots: seq<Dirent>, part: seq<Dirent>, b: nat, buf: Block, index: int, seen: nat, e: nat, now: nat)
    requires part == BlockSlots(buf) && Segment(slots, part, DIRENTS_PER_BLOCK * b) && Counted(slots, b, seen)
    requires e <= DIRENTS_PER_BLOCK && now == seen + |LiveIn(part, e)|
    requires e < DIRENTS_PER_BLOCK ==> WordAt(buf, 32 * e) != 0 && now == index
    ensures e < DIRENTS_PER_BLOCK ==> NthFound(slots, index, e, buf)
    ensures e == DIRENTS_PER_BLOCK ==> Counted(slots, b + 1, now)
  {
    CountedIs(slots, b, seen);
    if e < DIRENTS_PER_BLOCK {
      EntryIs(buf, e);
      NthHere(slots, part, DIRENTS_PER_BLOCK * b, seen, e, index);
      NthFoundIs(slots, index, e, buf);
    } else {
      CountBlock(slots, part, DIRENTS_PER_BLOCK * b, seen, e, now);
      CountedIs(slots, b + 1, now);
    }
  }

  lemma EntryIs(buf: Block, e: nat)
    requires e < DIRENTS_PER_BLOCK
    ensures BlockSlots(buf)[e] == DirentAt(buf, e) && DirentAt(buf, e).inum1 == WordAt(buf, 32 * e)
  {
  }

  lemma NthHere(slots: seq<Dirent>, part: seq<Dirent>, at: nat, seen: nat, e: nat, index: int)
    requires Segment(slots, part, at) && SeenBefore(slots, at, seen) && e < |part| && part[e].inum1 != 0
    requires index == seen + |LiveIn(part, e)|
    ensures 0 <= index < |Live(slots)| && Live(slots)[index] == part[e]
  {
    CountBlock(slots, part, at, seen, e, index);
  }

  lemma AllCounted(s: Fs, d: Inode, slots: seq<Dirent>, b: nat, seen: nat, index: int, buf: Block)
    requires slots == Slots(s, d) && b == Lead(d.blocks) && Counted(slots, b, seen) && (index < 0 || seen <= index)
    ensures NthFound(slots, index, DIRENTS_PER_BLOCK, buf)
  {
    CountedIs(slots, b, seen);
    NthFoundIs(slots, index, DIRENTS_PER_BLOCK, buf);
    assert |slots| == DIRENTS_PER_BLOCK * b;
  }

  /** Counting on through one block. */
  lemma CountBlock(slots: seq<Dirent>, part: seq<Dirent>, at: nat, before: nat, e: nat, now: nat)
    requires Segment(slots, part, at) && SeenBefore(slots, at, before) && e <= |part|
    requires now == before + |LiveIn(part, e)|
    ensures SeenBefore(slots, at + e, now)
    ensures e < |part| && part[e].inum1 != 0 ==> now < |Live(slots)| && Live(slots)[now] == part[e]
  {
    LiveSegment(slots, part, at, e);
    if e < |part| && part[e].inum1 != 0 {
      assert slots[at + e] == part[e];
      LiveAt(slots, at + e, |slots|);
    }
  }

  lemma {:induction false} LiveFrom(slots: seq<Dirent>, n: nat, i: nat)
    requires n <= |slots| && i < |LiveIn(slots, n)|
    ensures LiveIn(slots, n)[i].inum1 != 0 && LiveIn(slots, n)[i] in slots
  {
    if i < |LiveIn(slots, n - 1)| { LiveFrom(slots, n - 1, i); }
  }

  lemma ListedInode(s: Fs, dir: nat, index: nat)
    requires FsOk(s) && dir < MAX_INODES && index < |Listing(s, dir)|
    ensures 0 < Listing(s, dir)[index].inum1 <= MAX_INODES && |Listing(s, dir)[index].name| <= NAME_MAX
  {
    FsOkIs(s);
    var slots := Slots(s, s.inodes[dir]);
    LiveFrom(slots, |slots|, index);
    assert SlotsOk(slots);
  }

  /** Filling the slot that the scan found is a step of dir_add. */
  lemma FillingAdds(s: Fs, dir: nat, b: nat, e: nat, bytes: Block, name: Name, child: nat)
    requires dir < MAX_INODES && b < Lead(s.inodes[dir].blocks) && e < DIRENTS_PER_BLOCK && child < MAX_INODES
    requires FindHole(Slots(s, s.inodes[dir])) == DIRENTS_PER_BLOCK * b + e && IsDataBlock(s.inodes[dir].blocks[b])
    requires Edited(DataOf(s, s.inodes[dir].blocks[b]), bytes, e, Dirent(child + 1, Stored(name)))
    ensures AddStep(s, SetData(s, s.inodes[dir].blocks[b], bytes), dir, name, child, true)
  {
    SlotIs(s, s.inodes[dir], b, e);
  }

  /** Taking a block, extending the inode and writing the entry add up to the other step of dir_add. */
  lemma ExtensionAdds(s: Fs, s': Fs, dir: nat, b: Block, name: Name, child: nat, ok: bool)
    requires dir < MAX_INODES && child < MAX_INODES
    requires FindHole(Slots(s, s.inodes[dir])) == |Slots(s, s.inodes[dir])|
    requires ok <==> Lead(s.inodes[dir].blocks) < DIRECT && Alloc(s).1 != 0
    requires !ok ==> s' == s
    requires ok ==> Edited(Zeros(BLOCK_SIZE), b, 0, Dirent(child + 1, Stored(name)))
    requires ok ==> s' == SetData(SetInode(Alloc(s).0, dir, Extended(s.inodes[dir], Alloc(s).1)), Alloc(s).1, b)
    ensures AddStep(s, s', dir, name, child, ok)
  {
    if ok {
      EditedZeros(Zeros(BLOCK_SIZE), b, Dirent(child + 1, Stored(name)));
      Grew(s, dir, Alloc(s).1, b);
    }
  }

  /** Clearing the slot that the scan found is a step of dir_remove. */
  lemma ClearingRemoves(s: Fs, dir: nat, b: nat, e: nat, bytes: Block, name: Name)
    requires dir < MAX_INODES && b < Lead(s.inodes[dir].blocks) && e < DIRENTS_PER_BLOCK
    requires FindName(Slots(s, s.inodes[dir]), name) == DIRENTS_PER_BLOCK * b + e
    requires IsDataBlock(s.inodes[dir].blocks[b])
    requires Edited(DataOf(s, s.inodes[dir].blocks[b]), bytes, e,
             DirentAt(DataOf(s, s.inodes[dir].blocks[b]), e).(inum1 := 0))
    ensures RemoveStep(s, SetData(s, s.inodes[dir].blocks[b], bytes), dir, name, true)
  {
    SlotIs(s, s.inodes[dir], b, e);
  }

  lemma Grew(s: Fs, dir: nat, p: U32, b: Block)
    requires dir < MAX_INODES && Lead(s.inodes[dir].blocks) < DIRECT && Alloc(s).1 == p && p != 0
    ensures SetData(SetInode(Alloc(s).0, dir, Extended(s.inodes[dir], p)), p, b) == GrowBy(s, dir, p, b)
  {
  }
}
