/** What each operation of fs/sfs.c does to the decoded disk. The methods of module Sfs are proved
    equal to these functions; the properties of the filesystem are proved about them. */
module SfsSpec {
  import opened Bytes
  import opened BlockCache
  import opened CStrings
  import opened SfsLayout

  const ROOT := 0
  const DOT: Name := [46]
  const DOTDOT: Name := [46, 46]
  const MAX_BYTES := DIRECT * BLOCK_SIZE

  function Min(a: int, b: int): int { if a < b then a else b }

  // --- blocks of an inode --------------------------------------------------

  /** The first zero pointer from position `b` on. */
  function LeadFrom(blocks: seq<U32>, b: nat): (n: nat)
    requires b <= |blocks|
    ensures b <= n <= |blocks|
    ensures forall c :: b <= c < n ==> blocks[c] != 0
    ensures n < |blocks| ==> blocks[n] == 0
    decreases |blocks| - b
  {
    if b == |blocks| || blocks[b] == 0 then b else LeadFrom(blocks, b + 1)
  }

  /** How many pointers come before the first zero one: the blocks every loop visits. */
  function Lead(blocks: seq<U32>): nat
  {
    LeadFrom(blocks, 0)
  }

  /** Pointers all made zero. */
  function Zeroed(blocks: seq<U32>): (r: seq<U32>)
    ensures |r| == |blocks| && forall b :: 0 <= b < |r| ==> r[b] == 0
  {
    seq(|blocks|, _ => 0)
  }

  predicate IsDataBlock(p: int)
  {
    DATA_START <= p < FS_BLOCKS
  }

  predicate OnDisk(blocks: seq<U32>)
  {
    forall b :: 0 <= b < |blocks| ==> blocks[b] < FS_BLOCKS
  }

  function DataOf(s: Fs, p: U32): Block
  {
    if IsDataBlock(p) then s.data[p - DATA_START] else Zeros(BLOCK_SIZE)
  }

  function SetData(s: Fs, p: U32, b: Block): Fs
    requires IsDataBlock(p)
  {
    s.(data := s.data[p - DATA_START := b])
  }

  function SetInode(s: Fs, i: nat, n: Inode): Fs
    requires i < MAX_INODES
  {
    s.(inodes := s.inodes[i := n])
  }

  /** Position `k` of a directory: slot k % 16 of its block k / 16. */
  function SlotAt(s: Fs, blocks: seq<U32>, k: nat): Dirent
    requires k < DIRENTS_PER_BLOCK * |blocks|
  {
    DirentAt(DataOf(s, blocks[k / DIRENTS_PER_BLOCK]), k % DIRENTS_PER_BLOCK)
  }

  /** A directory's slots in scan order. */
  function Slots(s: Fs, n: Inode): seq<Dirent>
  {
    seq(DIRENTS_PER_BLOCK * Lead(n.blocks),
        k requires 0 <= k < DIRENTS_PER_BLOCK * Lead(n.blocks) => SlotAt(s, n.blocks, k))
  }

  /** Byte `j` of an inode's blocks laid end to end. */
  function ByteAt(s: Fs, blocks: seq<U32>, j: nat): Byte
    requires j < BLOCK_SIZE * |blocks|
  {
    DataOf(s, blocks[j / BLOCK_SIZE])[j % BLOCK_SIZE]
  }

  function BytesOf(s: Fs, blocks: seq<U32>, len: nat): seq<Byte>
    requires len <= BLOCK_SIZE * |blocks|
  {
    seq(len, j requires 0 <= j < len => ByteAt(s, blocks, j))
  }

  // --- allocation ----------------------------------------------------------

  function FirstClearFrom(used: seq<bool>, i: nat): (k: nat)
    requires i <= |used|
    ensures i <= k <= |used|
    ensures forall j :: i <= j < k ==> used[j]
    ensures k < |used| ==> !used[k]
    decreases |used| - i
  {
    if i == |used| || !used[i] then i else FirstClearFrom(used, i + 1)
  }

  function FirstClear(used: seq<bool>): nat
  {
    FirstClearFrom(used, 0)
  }

  /** How many of the first `n` data blocks are free. */
  function FreeIn(used: seq<bool>, n: nat): nat
    requires n <= |used|
  {
    if n == 0 then 0 else FreeIn(used, n - 1) + if used[n - 1] then 0 else 1
  }

  /** How many data blocks are free. */
  function FreeCount(used: seq<bool>): nat
  {
    FreeIn(used, |used|)
  }

  function FirstFreeFrom(inodes: seq<Inode>, i: nat): (k: nat)
    requires i <= |inodes|
    ensures i <= k <= |inodes|
    ensures forall j :: i <= j < k ==> inodes[j].kind != FREE
    ensures k < |inodes| ==> inodes[k].kind == FREE
    decreases |inodes| - i
  {
    if i == |inodes| || inodes[i].kind == FREE then i else FirstFreeFrom(inodes, i + 1)
  }

  function FirstFreeInode(inodes: seq<Inode>): nat
  {
    FirstFreeFrom(inodes, 0)
  }

  /** The first clear bit is set and its block zeroed; pointer 0 when none is clear. */
  function Alloc(s: Fs): (r: (Fs, U32))
    ensures r.1 == 0 ==> r.0 == s
    ensures r.1 != 0 ==> IsDataBlock(r.1) && !s.used[r.1 - DATA_START]
  {
    var k := FirstClear(s.used);
    if k == MAX_DATA_BLOCKS then (s, 0)
    else (s.(used := s.used[k := true], data := s.data[k := Zeros(BLOCK_SIZE)]), DATA_START + k)
  }

  function Release(s: Fs, p: U32): Fs
    requires p < FS_BLOCKS
  {
    if p < DATA_START then s else s.(used := s.used[p - DATA_START := false])
  }

  function ReleaseAll(s: Fs, blocks: seq<U32>): Fs
    requires OnDisk(blocks)
  {
    if blocks == [] then s else Release(ReleaseAll(s, blocks[..|blocks| - 1]), blocks[|blocks| - 1])
  }

  // --- directories ---------------------------------------------------------

  function FindNameFrom(slots: seq<Dirent>, name: Name, i: nat): (k: nat)
    requires i <= |slots|
    ensures i <= k <= |slots|
    ensures forall j :: i <= j < k ==> slots[j].inum1 == 0 || slots[j].name != name
    ensures k < |slots| ==> slots[k].inum1 != 0 && slots[k].name == name
    decreases |slots| - i
  {
    if i == |slots| || (slots[i].inum1 != 0 && slots[i].name == name) then i else FindNameFrom(slots, name, i + 1)
  }

  /** The first live slot with the name. */
  function FindName(slots: seq<Dirent>, name: Name): nat
  {
    FindNameFrom(slots, name, 0)
  }

  function FindHoleFrom(slots: seq<Dirent>, i: nat): (k: nat)
    requires i <= |slots|
    ensures i <= k <= |slots|
    ensures forall j :: i <= j < k ==> slots[j].inum1 != 0
    ensures k < |slots| ==> slots[k].inum1 == 0
    decreases |slots| - i
  {
    if i == |slots| || slots[i].inum1 == 0 then i else FindHoleFrom(slots, i + 1)
  }

  /** The first free slot. */
  function FindHole(slots: seq<Dirent>): nat
  {
    FindHoleFrom(slots, 0)
  }

  /** The live ones among the first `n` slots, in scan order. */
  function LiveIn(slots: seq<Dirent>, n: nat): seq<Dirent>
    requires n <= |slots|
  {
    if n == 0 then [] else LiveIn(slots, n - 1) + if slots[n - 1].inum1 != 0 then [slots[n - 1]] else []
  }

  /** The live slots in scan order: what readdir numbers 0, 1, 2, ... */
  function Live(slots: seq<Dirent>): seq<Dirent>
  {
    LiveIn(slots, |slots|)
  }

  function Lookup(s: Fs, dir: nat, name: Name): int
    requires dir < MAX_INODES
  {
    var d := s.inodes[dir];
    var k := FindName(Slots(s, d), name);
    if d.kind != DIR || k == |Slots(s, d)| then -1 else Slots(s, d)[k].inum1 - 1
  }

  /** The block and slot number behind position `k` of a directory. */
  function SlotBlock(n: Inode, k: nat): U32
    requires k < DIRENTS_PER_BLOCK * Lead(n.blocks)
  {
    n.blocks[k / DIRENTS_PER_BLOCK]
  }

  /** A directory inode that has gained block `p`. */
  function Extended(d: Inode, p: U32): Inode
    requires Lead(d.blocks) < DIRECT
  {
    d.(blocks := d.blocks[Lead(d.blocks) := p], size := (d.size + BLOCK_SIZE) % U32_LIMIT)
  }

  /** Free block `p` becomes the next block of directory `dir`, holding `b`. */
  function GrowBy(s: Fs, dir: nat, p: U32, b: Block): Fs
    requires dir < MAX_INODES && Lead(s.inodes[dir].blocks) < DIRECT && IsDataBlock(p)
  {
    Fs(s.inodes[dir := Extended(s.inodes[dir], p)], s.used[p - DATA_START := true], s.data[p - DATA_START := b])
  }

  // --- the public operations -----------------------------------------------

  function ClearedInode(i: int): Inode
  {
    Blank(if i == ROOT then DIR else FREE)
  }

  /** A cleared inode table and bitmap, with a directory of no blocks at the root. */
  function Cleared(data: seq<Block>): Fs
    requires |data| == MAX_DATA_BLOCKS
  {
    Fs(seq(MAX_INODES, i requires 0 <= i < MAX_INODES => ClearedInode(i)), seq(MAX_DATA_BLOCKS, _ => false), data)
  }

  function Chunk(d: seq<Byte>, b: nat): Block
    requires BLOCK_SIZE * b <= |d|
  {
    var hi := Min(BLOCK_SIZE * (b + 1), |d|);
    d[BLOCK_SIZE * b..hi] + Zeros(BLOCK_SIZE * (b + 1) - hi)
  }

  /** Fresh blocks for `d` from its block `b` on, until the data or the disk runs out. */
  function WriteBlocks(s: Fs, blocks: seq<U32>, d: seq<Byte>, b: nat): (r: (Fs, seq<U32>))
    requires |blocks| == DIRECT && |d| <= MAX_BYTES
    ensures |r.1| == DIRECT
    decreases |d| - BLOCK_SIZE * b
  {
    if BLOCK_SIZE * b >= |d| then (s, blocks)
    else
      var (s1, p) := Alloc(s);
      if p == 0 then (s, blocks) else WriteBlocks(SetData(s1, p, Chunk(d, b)), blocks[b := p], d, b + 1)
  }

  function WriteFile(s: Fs, ino: nat, data: seq<Byte>): (Fs, int)
    requires ino < MAX_INODES
    requires OnDisk(s.inodes[ino].blocks)
  {
    var n := s.inodes[ino];
    if n.kind != FILE then (s, -1)
    else
      var d := data[..Min(|data|, MAX_BYTES)];
      var (s1, blocks) := WriteBlocks(ReleaseAll(s, n.blocks), Zeroed(n.blocks), d, 0);
      var written := Min(|d|, BLOCK_SIZE * Lead(blocks));
      (SetInode(s1, ino, n.(blocks := blocks, size := written)), written)
  }

  /** Block after block while bytes are wanted and a pointer is there. */
  function ReadFile(s: Fs, ino: nat, max: nat): seq<Byte>
    requires ino < MAX_INODES
  {
    var n := s.inodes[ino];
    BytesOf(s, n.blocks, Min(Min(n.size, max), BLOCK_SIZE * Lead(n.blocks)))
  }
}
