/** Overwriting and reading back a file. */
module SfsFiles {
  import opened Bytes
  import opened BlockCache
  import opened SfsLayout
  import opened SfsSpec
  import opened SfsBlocks
  import opened SfsSpace

  function BlocksFor(len: nat): nat
  {
    (len + BLOCK_SIZE - 1) / BLOCK_SIZE
  }

  predicate AllZeroFrom(blocks: seq<U32>, b: nat)
  {
    forall c :: b <= c < |blocks| ==> blocks[c] == 0
  }

  /** The write loop at block `b`: `n` is the inode it is building, the table still holds the old one. */
  ghost predicate Writing(s: Fs, ino: nat, n: Inode, d: seq<Byte>, b: nat)
  {
    && ino < MAX_INODES && |d| <= MAX_BYTES && b <= BlocksFor(|d|)
    && Accounted(s.inodes[ino := n], s.used)
    && Lead(n.blocks) == b && AllZeroFrom(n.blocks, b)
  }

  /** Later states keep the bytes of every block in use. */
  predicate UsedKept(s: Fs, s': Fs)
  {
    forall k :: 0 <= k < MAX_DATA_BLOCKS && s.used[k] ==> s'.data[k] == s.data[k]
  }

  /** Blocks `b` on of `blocks` hold their pieces of the data. */
  predicate Filled(s: Fs, blocks: seq<U32>, d: seq<Byte>, b: nat)
  {
    forall c :: b <= c < Lead(blocks) ==> BLOCK_SIZE * c <= |d| && DataOf(s, blocks[c]) == Chunk(d, c)
  }

  /** The loop stops when the data or the `limit` blocks it may use run out. */
  predicate Stopped(blocks: seq<U32>, len: nat, limit: nat)
  {
    Lead(blocks) == Min(BlocksFor(len), limit)
  }

  /** One turn of the loop. */
  lemma WriteTurn(s: Fs, ino: nat, n: Inode, d: seq<Byte>, b: nat)
    requires Writing(s, ino, n, d, b) && BLOCK_SIZE * b < |d| && Alloc(s).1 != 0
    ensures var (s1, p) := Alloc(s);
            var s2 := SetData(s1, p, Chunk(d, b));
            && Writing(s2, ino, n.(blocks := n.blocks[b := p]), d, b + 1)
            && UsedKept(s, s2) && s2.used == s.used[p - DATA_START := true]
            && FreeCount(s2.used) == FreeCount(s.used) - 1
            && s2.inodes == s.inodes
  {
    AllocCount(s);
    var (s1, p) := Alloc(s);
    var n' := n.(blocks := n.blocks[b := p]);
    LeadIs(n'.blocks, b + 1);
    Grow(s.inodes[ino := n], s.used, ino, b, p - DATA_START, n');
    assert s.inodes[ino := n][ino := n'] == s.inodes[ino := n'];
  }

  /** The whole loop from block `b` on: it takes as many blocks as the data needs or the disk has, fills
      each with its piece of the data, and disturbs no block in use. */
  lemma {:induction false} WriteBlocksOk(s: Fs, ino: nat, n: Inode, d: seq<Byte>, b: nat)
    requires Writing(s, ino, n, d, b)
    ensures var (s', blocks) := WriteBlocks(s, n.blocks, d, b);
            && s'.inodes == s.inodes
            && Stopped(blocks, |d|, b + FreeCount(s.used))
            && Writing(s', ino, n.(blocks := blocks), d, Lead(blocks))
            && blocks[..b] == n.blocks[..b]
            && UsedKept(s, s')
            && Filled(s', blocks, d, b)
    decreases DIRECT - b
  {
    AllocCount(s);
    var (s1, p) := Alloc(s);
    if BLOCK_SIZE * b < |d| && p != 0 {
      WriteTurn(s, ino, n, d, b);
      var s2 := SetData(s1, p, Chunk(d, b));
      var n' := n.(blocks := n.blocks[b := p]);
      WriteBlocksOk(s2, ino, n', d, b + 1);
      var (s', blocks) := WriteBlocks(s2, n'.blocks, d, b + 1);
      FilledMore(s2, s', n.blocks, blocks, p, d, b);
      assert forall k :: 0 <= k < MAX_DATA_BLOCKS && s.used[k] ==> s2.used[k];
    }
  }

  lemma FilledMore(s: Fs, s': Fs, before: seq<U32>, blocks: seq<U32>, p: U32, d: seq<Byte>, b: nat)
    requires b < |before| == |blocks| && IsDataBlock(p) && BLOCK_SIZE * b <= |d|
    requires blocks[..b + 1] == before[b := p][..b + 1]
    requires Filled(s', blocks, d, b + 1) && UsedKept(s, s')
    requires s.used[p - DATA_START] && DataOf(s, p) == Chunk(d, b)
    ensures blocks[..b] == before[..b] && Filled(s', blocks, d, b)
  {
    assert blocks[..b] == blocks[..b + 1][..b] == before[b := p][..b + 1][..b] == before[..b];
    assert blocks[b] == blocks[..b + 1][b] == p;
  }

  /** Releasing a file's blocks frees as many as it had. */
  lemma {:induction false} ReleaseCount(s: Fs, ino: nat, m: nat)
    requires FsOk(s) && ino < MAX_INODES && m <= DIRECT
    requires OnDisk(s.inodes[ino].blocks[..m])
    ensures FreeCount(ReleaseAll(s, s.inodes[ino].blocks[..m]).used)
            == FreeCount(s.used) + Min(m, Lead(s.inodes[ino].blocks))
  {
    var blocks := s.inodes[ino].blocks;
    if m > 0 {
      assert blocks[..m][..m - 1] == blocks[..m - 1];
      ReleaseCount(s, ino, m - 1);
      var p := blocks[m - 1];
      StillHeld(s, ino, m - 1, blocks, p);
      if p != 0 { FreeCountSet(ReleaseAll(s, blocks[..m - 1]).used, p - DATA_START, false); }
    }
  }

  /** A block is not given back by giving back the ones before it. */
  lemma StillHeld(s: Fs, ino: nat, m: nat, blocks: seq<U32>, p: U32)
    requires FsOk(s) && ino < MAX_INODES && m < DIRECT && blocks == s.inodes[ino].blocks && p == blocks[m]
    requires OnDisk(blocks[..m])
    ensures p == 0 <==> Lead(blocks) <= m
    ensures p != 0 ==> IsDataBlock(p) && ReleaseAll(s, blocks[..m]).used[p - DATA_START]
  {
    FsOkIs(s);
    assert InodeOk(s.inodes[ino]);
    if p != 0 {
      OwnedOnce(s.inodes, s.used, ino, m);
      ReleaseAllBits(s, blocks[..m]);
    }
  }

  lemma OwnedOnce(inodes: seq<Inode>, used: seq<bool>, ino: nat, m: nat)
    requires Accounted(inodes, used) && ino < MAX_INODES && m < DIRECT && inodes[ino].blocks[m] != 0
    ensures var p := inodes[ino].blocks[m];
            IsDataBlock(p) && used[p - DATA_START] && p !in inodes[ino].blocks[..m]
  {
    var p := inodes[ino].blocks[m];
    assert Owns(inodes, ino, m, p) && Owned(inodes, p);
    forall c | 0 <= c < m ensures inodes[ino].blocks[c] != p {
      assert Owns(inodes, ino, c, inodes[ino].blocks[c]);
    }
  }

  /** Dropping a file's blocks leaves the others accounted for. */
  lemma Emptied(s: Fs, ino: nat)
    requires FsOk(s) && ino < MAX_INODES
    ensures OnDisk(s.inodes[ino].blocks)
    ensures var s0 := ReleaseAll(s, s.inodes[ino].blocks);
            && s0.inodes == s.inodes && s0.data == s.data
            && Accounted(s.inodes[ino := s.inodes[ino].(blocks := Zeroed(s.inodes[ino].blocks))], s0.used)
            && FreeCount(s0.used) == FreeCount(s.used) + Lead(s.inodes[ino].blocks)
            && forall k :: 0 <= k < MAX_DATA_BLOCKS && s0.used[k] ==> s.used[k]
  {
    FsOkIs(s);
    var blocks := s.inodes[ino].blocks;
    PointersOnDisk(s, ino);
    ReleaseAllBits(s, blocks);
    assert blocks[..DIRECT] == blocks;
    ReleaseCount(s, ino, DIRECT);
    Drop(s.inodes, s.used, ino, s.inodes[ino].(blocks := Zeroed(s.inodes[ino].blocks)), ReleaseAll(s, blocks).used);
  }

  /** An inode other than `ino` keeps its bytes if blocks in use do. */
  lemma OthersKept(s: Fs, s': Fs, ino: nat, n: Inode, used: seq<bool>)
    requires ino < MAX_INODES && Accounted(s.inodes[ino := n], used)
    requires forall j :: 0 <= j < MAX_INODES && j != ino ==> s'.inodes[j] == s.inodes[j]
    requires forall k :: 0 <= k < MAX_DATA_BLOCKS && used[k] ==> s'.data[k] == s.data[k]
    ensures forall j :: 0 <= j < MAX_INODES && j != ino ==> Kept(s, s', j)
  {
    forall j, b | 0 <= j < MAX_INODES && j != ino && 0 <= b < DIRECT && s.inodes[j].blocks[b] != 0
      ensures DataOf(s', s.inodes[j].blocks[b]) == DataOf(s, s.inodes[j].blocks[b])
    {
      assert Owns(s.inodes[ino := n], j, b, s.inodes[j].blocks[b]);
    }
  }

  lemma ChunkByte(d: seq<Byte>, c: nat, i: nat)
    requires i < BLOCK_SIZE && BLOCK_SIZE * c + i < |d|
    ensures Chunk(d, c)[i] == d[BLOCK_SIZE * c + i]
  {
  }

  lemma ByteRead(s: Fs, blocks: seq<U32>, d: seq<Byte>, j: nat)
    requires j < BLOCK_SIZE * Lead(blocks) && j < |d| && Filled(s, blocks, d, 0)
    ensures ByteAt(s, blocks, j) == d[j]
  {
    var c, i := j / BLOCK_SIZE, j % BLOCK_SIZE;
    assert DataOf(s, blocks[c]) == Chunk(d, c);
    ChunkByte(d, c, i);
  }

  /** Blocks filled chunk by chunk read back as the data. */
  lemma ChunksRead(s: Fs, blocks: seq<U32>, d: seq<Byte>, len: nat)
    requires |blocks| == DIRECT && len <= |d| && len <= BLOCK_SIZE * Lead(blocks) && Filled(s, blocks, d, 0)
    ensures BytesOf(s, blocks, len) == d[..len]
  {
    forall j | 0 <= j < len ensures ByteAt(s, blocks, j) == d[j] {
      ByteRead(s, blocks, d, j);
    }
  }

  /** What the loop leaves behind, before the inode is written back. */
  lemma WriteLoop(s: Fs, s0: Fs, ino: nat, n0: Inode, d: seq<Byte>)
    requires FsOk(s) && ino < MAX_INODES && |d| <= MAX_BYTES && OnDisk(s.inodes[ino].blocks)
    requires s0 == ReleaseAll(s, s.inodes[ino].blocks)
    requires n0 == s.inodes[ino].(blocks := Zeroed(s.inodes[ino].blocks))
    ensures var (s1, blocks) := WriteBlocks(s0, n0.blocks, d, 0);
            && s1.inodes == s.inodes
            && Stopped(blocks, |d|, FreeCount(s.used) + Lead(s.inodes[ino].blocks))
            && Writing(s1, ino, n0.(blocks := blocks), d, Lead(blocks)) && Filled(s1, blocks, d, 0)
            && (forall j :: 0 <= j < MAX_INODES && j != ino ==> Kept(s, s1, j))
  {
    Emptied(s, ino);
    LeadIs(n0.blocks, 0);
    WriteBlocksOk(s0, ino, n0, d, 0);
    OthersKept(s, WriteBlocks(s0, n0.blocks, d, 0).0, ino, n0, s0.used);
  }

  /** The count sfs_write returns: all of the data, or fourteen blocks of it. A free block there always is. */
  lemma WriteReturns(s: Fs, ino: nat, data: seq<Byte>)
    requires FsOk(s) && ino < MAX_INODES && s.inodes[ino].kind == FILE
    ensures OnDisk(s.inodes[ino].blocks)
    ensures WriteFile(s, ino, data).1 == Min(|data|, MAX_BYTES)
  {
    var len := Min(|data|, MAX_BYTES);
    var n := s.inodes[ino];
    PointersOnDisk(s, ino);
    WriteLoop(s, ReleaseAll(s, n.blocks), ino, n.(blocks := Zeroed(n.blocks)), data[..len]);
    BlocksSuffice(len, FreeCount(s.used) + Lead(s.inodes[ino].blocks));
    AlwaysFree(s);
  }

  /** sfs_write on a file stores the first bytes of the data and leaves every other inode alone. */
  lemma WriteOk(s: Fs, ino: nat, data: seq<Byte>)
    requires FsOk(s) && ino < MAX_INODES && s.inodes[ino].kind == FILE
    ensures OnDisk(s.inodes[ino].blocks)
    ensures var (s', r) := WriteFile(s, ino, data);
            && 0 <= r <= |data|
            && FsOk(s')
            && (forall j :: 0 <= j < MAX_INODES && j != ino ==> Kept(s, s', j))
            && s'.inodes[ino].kind == FILE && s'.inodes[ino].size == r
            && BytesOf(s', s'.inodes[ino].blocks, r) == data[..r]
  {
    var n := s.inodes[ino];
    var d := data[..Min(|data|, MAX_BYTES)];
    PointersOnDisk(s, ino);
    WriteLoop(s, ReleaseAll(s, n.blocks), ino, n.(blocks := Zeroed(n.blocks)), d);
    var (s1, blocks) := WriteBlocks(ReleaseAll(s, n.blocks), Zeroed(n.blocks), d, 0);
    var r := Min(|d|, BLOCK_SIZE * Lead(blocks));
    Installed(s, s1, ino, blocks, d, r);
    TakeTake(data, |d|, r);
  }

  lemma TakeTake(d: seq<Byte>, n: nat, m: nat)
    requires m <= n <= |d|
    ensures d[..n][..m] == d[..m]
  {
  }

  lemma BlocksSuffice(len: nat, free: nat)
    ensures Min(len, BLOCK_SIZE * Min(BlocksFor(len), free)) == Min(len, BLOCK_SIZE * free)
  {
  }

  /** Writing the finished inode back to the table completes the file. */
  lemma Installed(s: Fs, s1: Fs, ino: nat, blocks: seq<U32>, d: seq<Byte>, r: nat)
    requires FsOk(s) && ino < MAX_INODES && s.inodes[ino].kind == FILE && |blocks| == DIRECT
    requires Writing(s1, ino, s.inodes[ino].(blocks := blocks), d, Lead(blocks)) && Filled(s1, blocks, d, 0)
    requires r == Min(|d|, BLOCK_SIZE * Lead(blocks)) && s1.inodes == s.inodes
    requires forall j :: 0 <= j < MAX_INODES && j != ino ==> Kept(s, s1, j)
    ensures var s' := SetInode(s1, ino, s.inodes[ino].(blocks := blocks, size := r));
            && FsOk(s')
            && (forall j :: 0 <= j < MAX_INODES && j != ino ==> Kept(s, s', j))
            && BytesOf(s', blocks, r) == d[..r]
  {
    var n := s.inodes[ino];
    var n' := n.(blocks := blocks, size := r);
    var s' := SetInode(s1, ino, n');
    Relabel(s.inodes[ino := n.(blocks := blocks)], s1.used, ino, n');
    assert s'.inodes == s.inodes[ino := n.(blocks := blocks)][ino := n'];
    assert InodeOk(n') by { FileSize(n', |d|, r); }
    forall j | 0 <= j < MAX_INODES && j != ino ensures Kept(s, s', j) {
      assert Kept(s, s1, j);
    }
    RestKept(s, s', ino);
    FilledSame(s1, s', blocks, d);
    ChunksRead(s', blocks, d, r);
  }

  lemma FileSize(n: Inode, len: nat, r: nat)
    requires n.kind == FILE && n.size == r && Lead(n.blocks) <= BlocksFor(len)
    requires r == Min(len, BLOCK_SIZE * Lead(n.blocks))
    requires AllZeroFrom(n.blocks, Lead(n.blocks))
    ensures InodeOk(n)
  {
  }

  lemma FilledSame(s: Fs, s': Fs, blocks: seq<U32>, d: seq<Byte>)
    requires s'.data == s.data && Filled(s, blocks, d, 0)
    ensures Filled(s', blocks, d, 0)
  {
  }

  /** What sfs_write comes to on a sound disk: it stays sound; anything but a file is turned down; a file ends up
      holding the first `r` bytes of the data, where `r` is all that fits fourteen blocks, and no other inode is
      touched. */
  ghost predicate Wrote(s: Fs, ino: nat, data: seq<Byte>, s': Fs, r: int)
    requires ino < MAX_INODES
  {
    if s.inodes[ino].kind != FILE then s' == s && r == -1
    else
      && r == Min(|data|, MAX_BYTES)
      && FsOk(s') && s'.inodes[ino].kind == FILE && s'.inodes[ino].size == r
      && (forall j {:trigger Kept(s, s', j)} :: 0 <= j < MAX_INODES && j != ino ==> Kept(s, s', j))
      && BytesOf(s', s'.inodes[ino].blocks, r) == data[..r]
  }

  lemma WriteFileWrote(s: Fs, ino: nat, data: seq<Byte>)
    requires FsOk(s) && ino < MAX_INODES
    ensures OnDisk(s.inodes[ino].blocks)
    ensures Wrote(s, ino, data, WriteFile(s, ino, data).0, WriteFile(s, ino, data).1)
  {
    PointersOnDisk(s, ino);
    if s.inodes[ino].kind == FILE {
      WriteOk(s, ino, data);
      WriteReturns(s, ino, data);
    }
  }

  /** sfs_write stores all that fits, sfs_read gives its first bytes back, up to the limit asked for, and every other
      inode has the blocks and bytes it had. */
  lemma WriteThenRead(s: Fs, ino: nat, data: seq<Byte>, max: nat)
    requires FsOk(s) && ino < MAX_INODES && s.inodes[ino].kind == FILE
    ensures OnDisk(s.inodes[ino].blocks)
    ensures var (s', r) := WriteFile(s, ino, data);
            && r == Min(|data|, MAX_BYTES)
            && ReadFile(s', ino, max) == data[..Min(r, max)]
            && (forall j {:trigger Kept(s, s', j)} :: 0 <= j < MAX_INODES && j != ino ==> Kept(s, s', j))
  {
    WriteFileWrote(s, ino, data);
    var (s', r) := WriteFile(s, ino, data);
    WroteReads(s, ino, data, s', r, max);
  }

  lemma WroteReads(s: Fs, ino: nat, data: seq<Byte>, s': Fs, r: int, max: nat)
    requires ino < MAX_INODES && s.inodes[ino].kind == FILE && Wrote(s, ino, data, s', r)
    ensures ReadFile(s', ino, max) == data[..Min(r, max)]
  {
    FsOkIs(s');
    var n := s'.inodes[ino];
    var len := Min(r, max);
    assert InodeOk(n) && r <= BLOCK_SIZE * Lead(n.blocks);
    assert BytesOf(s', n.blocks, len) == BytesOf(s', n.blocks, r)[..len];
    TakeTake(data, r, len);
  }
}
