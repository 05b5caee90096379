/** The on-disk layout of fs/sfs.c: inodes packed eight to a block, the bitmap of data blocks,
    directory slots of 32 bytes, and how writing one of them leaves all the others alone. */
module SfsLayout {
  import opened Bytes
  import opened BlockCache
  import opened CStrings

  const DIRECT := 14
  const MAX_INODES := 64
  const INODES_PER_BLOCK := 8
  const INODE_TABLE_START := 1
  const INODE_TABLE_BLOCKS := 8
  const BITMAP_BLOCK := 9
  const DATA_START := 16
  const MAX_DATA_BLOCKS := 2048
  const DIRENTS_PER_BLOCK := 16
  const NAME_FIELD := 28
  const NAME_MAX := 27
  /** One past the last sector the filesystem touches. */
  const FS_BLOCKS := DATA_START + MAX_DATA_BLOCKS

  const FREE: U32 := 0
  const FILE: U32 := 1
  const DIR: U32 := 2

  datatype InodeRec = Inode(kind: U32, size: U32, blocks: seq<U32>)
  type Inode = n: InodeRec | |n.blocks| == DIRECT
    witness Inode(0, 0, seq(DIRECT, _ => 0))

  /** An inode of the given kind with no blocks. */
  function Blank(kind: U32): (n: Inode)
    ensures n.kind == kind && n.size == 0
    ensures forall b :: 0 <= b < DIRECT ==> n.blocks[b] == 0
  {
    Inode(kind, 0, seq(DIRECT, _ => 0))
  }

  /** A directory slot: child inode plus one (0 in a free slot), and the name up to its zero. */
  datatype Dirent = Dirent(inum1: U32, name: Name)

  /** The disk as the filesystem reads it. */
  datatype FsRec = Fs(inodes: seq<Inode>, used: seq<bool>, data: seq<Block>)
  type Fs = s: FsRec |
      |s.inodes| == MAX_INODES && |s.used| == MAX_DATA_BLOCKS && |s.data| == MAX_DATA_BLOCKS
    witness Fs(seq(MAX_INODES, _ => Blank(FREE)), seq(MAX_DATA_BLOCKS, _ => false),
      seq(MAX_DATA_BLOCKS, _ => Zeros(BLOCK_SIZE)))

  // --- inodes --------------------------------------------------------------

  /** Inode `j` of an inode-table block: sixteen words at offset 64 * j. */
  function InodeAt(b: Block, j: nat): Inode
    requires j < INODES_PER_BLOCK
  {
    Inode(WordAt(b, 64 * j), WordAt(b, 64 * j + 4),
      seq(DIRECT, w requires 0 <= w < DIRECT => WordAt(b, 64 * j + 8 + 4 * w)))
  }

  function InodeWord(n: Inode, w: nat): U32
    requires w < 16
  {
    if w == 0 then n.kind else if w == 1 then n.size else n.blocks[w - 2]
  }

  function InodeBytes(n: Inode): (r: seq<Byte>)
    ensures |r| == 64
  {
    seq(64, i requires 0 <= i < 64 => WordBytes(InodeWord(n, i / 4))[i % 4])
  }

  lemma SameWords(m: Inode, n: Inode)
    requires forall w :: 0 <= w < 16 ==> InodeWord(m, w) == InodeWord(n, w)
    ensures m == n
  {
    assert InodeWord(m, 0) == InodeWord(n, 0) && InodeWord(m, 1) == InodeWord(n, 1);
    forall b | 0 <= b < DIRECT ensures m.blocks[b] == n.blocks[b] {
      assert InodeWord(m, b + 2) == InodeWord(n, b + 2);
    }
  }

  lemma InodeWordAt(b: Block, j: nat, w: nat)
    requires j < INODES_PER_BLOCK && w < 16
    ensures InodeWord(InodeAt(b, j), w) == WordAt(b, 64 * j + 4 * w)
  {
    if w >= 2 { assert 64 * j + 8 + 4 * (w - 2) == 64 * j + 4 * w; }
  }

  lemma StoreInode(b: Block, j: nat, n: Inode, i: nat)
    requires j < INODES_PER_BLOCK && i < INODES_PER_BLOCK
    ensures InodeAt(Splice(b, 64 * j, InodeBytes(n)), i) == if i == j then n else InodeAt(b, i)
  {
    var r := Splice(b, 64 * j, InodeBytes(n));
    var expected := if i == j then n else InodeAt(b, i);
    forall w | 0 <= w < 16 ensures InodeWord(InodeAt(r, i), w) == InodeWord(expected, w) {
      InodeWordAt(r, i, w);
      InodeWordAt(b, i, w);
      if i == j { StoreInodeWord(b, j, n, w); }
    }
    SameWords(InodeAt(r, i), expected);
  }

  lemma StoreInodeWord(b: Block, j: nat, n: Inode, w: nat)
    requires j < INODES_PER_BLOCK && w < 16
    ensures WordAt(Splice(b, 64 * j, InodeBytes(n)), 64 * j + 4 * w) == InodeWord(n, w)
  {
    var r, at := Splice(b, 64 * j, InodeBytes(n)), 64 * j + 4 * w;
    var bytes := WordBytes(InodeWord(n, w));
    forall c | 0 <= c < 4 ensures r[at + c] == bytes[c] {
      assert r[at + c] == InodeBytes(n)[4 * w + c];
      assert (4 * w + c) / 4 == w && (4 * w + c) % 4 == c;
    }
    assert WordAt(r, at) == WordAt(bytes, 0);
  }

  // --- the bitmap ----------------------------------------------------------

  predicate BitAt(b: Block, k: nat)
    requires k < MAX_DATA_BLOCKS
  {
    Bit(b[k / 8], k % 8)
  }

  lemma StoreBit(b: Block, k: nat, i: nat)
    requires k < MAX_DATA_BLOCKS && i < MAX_DATA_BLOCKS
    ensures BitAt(b[k / 8 := OrBit(b[k / 8], k % 8)], i) == (i == k || BitAt(b, i))
    ensures BitAt(b[k / 8 := AndNotBit(b[k / 8], k % 8)], i) == (i != k && BitAt(b, i))
  {
  }

  // --- directory slots -----------------------------------------------------

  /** The part of a name that fits a slot. */
  function Stored(name: Name): (r: Name)
    ensures |r| <= NAME_MAX
    ensures |name| <= NAME_MAX ==> r == name
  {
    if |name| <= NAME_MAX then name else name[..NAME_MAX]
  }

  function NameField(name: Name): (f: seq<Byte>)
    ensures |f| == NAME_FIELD
  {
    Stored(name) + Zeros(NAME_FIELD - |Stored(name)|)
  }

  function DirentAt(b: Block, e: nat): Dirent
    requires e < DIRENTS_PER_BLOCK
  {
    Dirent(WordAt(b, 32 * e), CString(b[32 * e + 4..32 * e + 32]))
  }

  /** Filling slot `e`: the word, then all 28 name bytes. */
  function PutDirent(b: Block, e: nat, inum1: U32, name: Name): Block
    requires e < DIRENTS_PER_BLOCK
  {
    Splice(Splice(b, 32 * e, WordBytes(inum1)), 32 * e + 4, NameField(name))
  }

  function ClearDirent(b: Block, e: nat): Block
    requires e < DIRENTS_PER_BLOCK
  {
    Splice(b, 32 * e, WordBytes(0))
  }

  lemma StoreDirent(b: Block, e: nat, inum1: U32, name: Name, i: nat)
    requires e < DIRENTS_PER_BLOCK && i < DIRENTS_PER_BLOCK
    ensures DirentAt(PutDirent(b, e, inum1, name), i) == if i == e then Dirent(inum1, Stored(name)) else DirentAt(b, i)
  {
    var r := PutDirent(b, e, inum1, name);
    if i == e {
      assert WordAt(r, 32 * e) == WordAt(WordBytes(inum1), 0);
      assert r[32 * e + 4..32 * e + 32] == NameField(name);
      CStringOf(Stored(name), NameField(name));
    } else {
      assert r[32 * i + 4..32 * i + 32] == b[32 * i + 4..32 * i + 32];
    }
  }

  lemma EraseDirent(b: Block, e: nat, i: nat)
    requires e < DIRENTS_PER_BLOCK && i < DIRENTS_PER_BLOCK
    ensures DirentAt(ClearDirent(b, e), i) == if i == e then DirentAt(b, i).(inum1 := 0) else DirentAt(b, i)
  {
    var r := ClearDirent(b, e);
    assert r[32 * i + 4..32 * i + 32] == b[32 * i + 4..32 * i + 32];
    if i == e { assert WordAt(r, 32 * e) == WordAt(WordBytes(0), 0); }
  }

  lemma ZeroDirent(e: nat)
    requires e < DIRENTS_PER_BLOCK
    ensures DirentAt(Zeros(BLOCK_SIZE), e) == Dirent(0, [])
  {
  }

  // --- the whole disk ------------------------------------------------------

  /** The disk image decoded; sector 0 and the sectors 10 to 15 play no part. */
  function View(l: seq<Block>): Fs
    requires |l| >= FS_BLOCKS
  {
    Fs(seq(MAX_INODES, i requires 0 <= i < MAX_INODES =>
             InodeAt(l[INODE_TABLE_START + i / INODES_PER_BLOCK], i % INODES_PER_BLOCK)),
       seq(MAX_DATA_BLOCKS, k requires 0 <= k < MAX_DATA_BLOCKS => BitAt(l[BITMAP_BLOCK], k)),
       seq(MAX_DATA_BLOCKS, k requires 0 <= k < MAX_DATA_BLOCKS => l[DATA_START + k]))
  }

  lemma ViewInode(l: seq<Block>, i: nat, n: Inode)
    requires |l| >= FS_BLOCKS && i < MAX_INODES
    ensures var t := INODE_TABLE_START + i / INODES_PER_BLOCK;
            View(l[t := Splice(l[t], 64 * (i % INODES_PER_BLOCK), InodeBytes(n))])
            == View(l).(inodes := View(l).inodes[i := n])
  {
    var t := INODE_TABLE_START + i / INODES_PER_BLOCK;
    var l' := l[t := Splice(l[t], 64 * (i % INODES_PER_BLOCK), InodeBytes(n))];
    forall j: nat | j < MAX_INODES
      ensures View(l').inodes[j] == View(l).inodes[i := n][j]
    {
      StoreInode(l[t], i % INODES_PER_BLOCK, n, j % INODES_PER_BLOCK);
    }
    assert View(l').inodes == View(l).inodes[i := n];
    assert View(l').used == View(l).used && View(l').data == View(l).data;
  }

  lemma ViewBitmap(l: seq<Block>, k: nat, v: bool)
    requires |l| >= FS_BLOCKS && k < MAX_DATA_BLOCKS
    ensures var b := l[BITMAP_BLOCK];
            View(l[BITMAP_BLOCK := b[k / 8 := if v then OrBit(b[k / 8], k % 8) else AndNotBit(b[k / 8], k % 8)]])
            == View(l).(used := View(l).used[k := v])
  {
    var b := l[BITMAP_BLOCK];
    var l' := l[BITMAP_BLOCK := b[k / 8 := if v then OrBit(b[k / 8], k % 8) else AndNotBit(b[k / 8], k % 8)]];
    forall i: nat | i < MAX_DATA_BLOCKS ensures View(l').used[i] == View(l).used[k := v][i] {
      StoreBit(b, k, i);
    }
    assert View(l').used == View(l).used[k := v];
    assert View(l').inodes == View(l).inodes && View(l').data == View(l).data;
  }

  lemma ViewData(l: seq<Block>, k: nat, b: Block)
    requires |l| >= FS_BLOCKS && k < MAX_DATA_BLOCKS
    ensures View(l[DATA_START + k := b]) == View(l).(data := View(l).data[k := b])
  {
    var l' := l[DATA_START + k := b];
    assert View(l').inodes == View(l).inodes && View(l').used == View(l).used;
    assert View(l').data == View(l).data[k := b];
  }
}
