/** Who owns which data block: in every state the filesystem can reach, the set bits of the bitmap are exactly the
    blocks that inodes name, and none is named twice. */
module SfsBlocks {
  import opened Bytes
  import opened BlockCache
  import opened SfsLayout
  import opened SfsSpec

  predicate Owns(inodes: seq<Inode>, i: int, b: int, p: int)
  {
    0 <= i < |inodes| && 0 <= b < DIRECT && inodes[i].blocks[b] == p
  }

  ghost predicate Owned(inodes: seq<Inode>, p: int)
  {
    exists i, b :: Owns(inodes, i, b, p)
  }

  ghost predicate Accounted(inodes: seq<Inode>, used: seq<bool>)
  {
    && |inodes| == MAX_INODES && |used| == MAX_DATA_BLOCKS
    && (forall i, b, p :: Owns(inodes, i, b, p) && p != 0 ==> IsDataBlock(p))
    && (forall i, b, j, c, p :: Owns(inodes, i, b, p) && Owns(inodes, j, c, p) && p != 0 ==> i == j && b == c)
    && (forall p :: IsDataBlock(p) ==> (used[p - DATA_START] <==> Owned(inodes, p)))
  }

  /** Nonzero pointers are a prefix; a free inode is all zero; sizes agree with the block count. */
  predicate InodeOk(n: Inode)
  {
    && (forall b :: Lead(n.blocks) <= b < DIRECT ==> n.blocks[b] == 0)
    && n.kind <= DIR
    && (n.kind == FREE ==> n == Blank(FREE))
    && (n.kind == FILE ==> Lead(n.blocks) == (n.size + BLOCK_SIZE - 1) / BLOCK_SIZE)
    && (n.kind == DIR ==> n.size == BLOCK_SIZE * Lead(n.blocks))
  }

  /** Live slots name an inode of the table, under a name that ends within its field. */
  predicate SlotsOk(slots: seq<Dirent>)
  {
    forall k :: 0 <= k < |slots| && slots[k].inum1 != 0 ==> slots[k].inum1 <= MAX_INODES && |slots[k].name| <= NAME_MAX
  }

  /** The key of FsOk below: always true, and named in a proof only by FsOkIs. */
  predicate OpenFsOk(s: Fs, k: int) { true }

  /** What holds of the disk in every reachable state. The statement sits behind a key that is also its trigger, so
      that a proof has it in its context only after asking for it with FsOkIs. Other large statements of the project
      are kept apart in the same way, each behind its own key. */
  ghost predicate FsOk(s: Fs)
  {
    forall k {:trigger OpenFsOk(s, k)} :: OpenFsOk(s, k) ==> FsSound(s)
  }

  lemma FsOkIs(s: Fs)
    ensures FsOk(s) <==> FsSound(s)
  {
    assert OpenFsOk(s, 0);
  }

  ghost predicate FsSound(s: Fs)
  {
    && Accounted(s.inodes, s.used)
    && (forall i {:trigger InodeOk(s.inodes[i])} :: 0 <= i < MAX_INODES ==> InodeOk(s.inodes[i]))
    && (forall i {:trigger Slots(s, s.inodes[i])} :: 0 <= i < MAX_INODES && s.inodes[i].kind == DIR ==>
         SlotsOk(Slots(s, s.inodes[i])))
  }

  // --- bookkeeping ---------------------------------------------------------

  lemma Grow(inodes: seq<Inode>, used: seq<bool>, i: nat, b: nat, k: nat, n: Inode)
    requires Accounted(inodes, used) && i < MAX_INODES && b < DIRECT && k < MAX_DATA_BLOCKS
    requires !used[k] && inodes[i].blocks[b] == 0
    requires n.blocks == inodes[i].blocks[b := DATA_START + k]
    ensures Accounted(inodes[i := n], used[k := true])
  {
    var inodes' := inodes[i := n];
    assert forall j, c, p :: Owns(inodes', j, c, p) ==>
      Owns(inodes, j, c, p) || (j == i && c == b && p == DATA_START + k);
    assert IsDataBlock(DATA_START + k) && !Owned(inodes, DATA_START + k);
    forall p | IsDataBlock(p)
      ensures used[k := true][p - DATA_START] <==> Owned(inodes', p)
    {
      if p == DATA_START + k {
        assert Owns(inodes', i, b, p);
      } else if used[p - DATA_START] {
        var j, c :| Owns(inodes, j, c, p);
        assert Owns(inodes', j, c, p);
      }
    }
  }

  lemma Drop(inodes: seq<Inode>, used: seq<bool>, i: nat, n: Inode, used': seq<bool>)
    requires Accounted(inodes, used) && i < MAX_INODES && (forall b :: 0 <= b < DIRECT ==> n.blocks[b] == 0) &&
             |used'| == MAX_DATA_BLOCKS
    requires forall k :: 0 <= k < MAX_DATA_BLOCKS ==> used'[k] == (used[k] && DATA_START + k !in inodes[i].blocks)
    ensures Accounted(inodes[i := n], used')
  {
    var inodes' := inodes[i := n];
    assert forall j, c, p :: Owns(inodes', j, c, p) && p != 0 ==> j != i && Owns(inodes, j, c, p);
    forall p | IsDataBlock(p)
      ensures used'[p - DATA_START] <==> Owned(inodes', p)
    {
      if Owned(inodes', p) {
        var j, c :| Owns(inodes', j, c, p);
        assert Owns(inodes, j, c, p);
        assert forall b :: 0 <= b < DIRECT && inodes[i].blocks[b] == p ==> Owns(inodes, i, b, p);
      }
      if used'[p - DATA_START] {
        var j, c :| Owns(inodes, j, c, p);
        assert Owns(inodes', j, c, p);
      }
    }
  }

  /** Changing an inode's kind or size moves no blocks. */
  lemma Relabel(inodes: seq<Inode>, used: seq<bool>, i: nat, n: Inode)
    requires Accounted(inodes, used) && i < MAX_INODES && n.blocks == inodes[i].blocks
    ensures Accounted(inodes[i := n], used)
  {
    var inodes' := inodes[i := n];
    assert forall j, c, p :: Owns(inodes', j, c, p) <==> Owns(inodes, j, c, p);
    forall p | IsDataBlock(p)
      ensures Owned(inodes, p) <==> Owned(inodes', p)
    {
      if Owned(inodes, p) {
        var j, c :| Owns(inodes, j, c, p);
        assert Owns(inodes', j, c, p);
      }
    }
  }

  lemma {:induction false} ReleaseAllBits(s: Fs, blocks: seq<U32>)
    requires OnDisk(blocks)
    ensures var r := ReleaseAll(s, blocks);
            r.inodes == s.inodes && r.data == s.data &&
            forall k :: 0 <= k < MAX_DATA_BLOCKS ==> r.used[k] == (s.used[k] && DATA_START + k !in blocks)
  {
    if blocks != [] {
      ReleaseAllBits(s, blocks[..|blocks| - 1]);
      assert blocks == blocks[..|blocks| - 1] + [blocks[|blocks| - 1]];
    }
  }

  lemma PointersOnDisk(s: Fs, i: nat)
    requires FsOk(s) && i < MAX_INODES
    ensures OnDisk(s.inodes[i].blocks)
  {
    FsOkIs(s);
    forall b | 0 <= b < DIRECT ensures s.inodes[i].blocks[b] < FS_BLOCKS {
      assert Owns(s.inodes, i, b, s.inodes[i].blocks[b]);
    }
  }

  lemma {:induction false} FreeInSet(used: seq<bool>, n: nat, k: nat, v: bool)
    requires k < |used| && n <= |used|
    ensures FreeIn(used[k := v], n)
            == FreeIn(used, n) + if k < n then (if used[k] then 1 else 0) - (if v then 1 else 0) else 0
  {
    if n > 0 { FreeInSet(used, n - 1, k, v); }
  }

  lemma FreeCountSet(used: seq<bool>, k: nat, v: bool)
    requires k < |used|
    ensures FreeCount(used[k := v]) == FreeCount(used) + (if used[k] then 1 else 0) - (if v then 1 else 0)
  {
    FreeInSet(used, |used|, k, v);
  }

  lemma {:induction false} FreeInZero(used: seq<bool>, n: nat)
    requires n <= |used|
    ensures FreeIn(used, n) == 0 <==> n <= FirstClear(used)
  {
    if n > 0 { FreeInZero(used, n - 1); }
  }

  /** One block fewer is free after a successful allocation; it fails exactly when none is. */
  lemma AllocCount(s: Fs)
    ensures Alloc(s).1 == 0 <==> FreeCount(s.used) == 0
    ensures Alloc(s).1 != 0 ==> FreeCount(Alloc(s).0.used) == FreeCount(s.used) - 1
  {
    FreeInZero(s.used, MAX_DATA_BLOCKS);
    var k := FirstClear(s.used);
    if k < MAX_DATA_BLOCKS { FreeCountSet(s.used, k, true); }
  }

  lemma LeadIs(blocks: seq<U32>, n: nat)
    requires n <= |blocks| && (forall b :: 0 <= b < n ==> blocks[b] != 0) && (n < |blocks| ==> blocks[n] == 0)
    ensures Lead(blocks) == n
  {
  }

  // --- frames --------------------------------------------------------------

  /** The bytes of every block in `blocks` are the same in both states. */
  predicate SameBytes(s: Fs, s': Fs, blocks: seq<U32>)
  {
    forall b :: 0 <= b < |blocks| && blocks[b] != 0 ==> DataOf(s', blocks[b]) == DataOf(s, blocks[b])
  }

  /** Inode `i` and everything stored under it is the same in both states. */
  predicate Kept(s: Fs, s': Fs, i: nat)
    requires i < MAX_INODES
  {
    s'.inodes[i] == s.inodes[i] && SameBytes(s, s', s.inodes[i].blocks)
  }

  lemma SameSlots(s: Fs, s': Fs, n: Inode)
    requires SameBytes(s, s', n.blocks)
    ensures Slots(s', n) == Slots(s, n)
  {
  }

  lemma SameContent(s: Fs, s': Fs, n: Inode, len: nat)
    requires SameBytes(s, s', n.blocks) && len <= BLOCK_SIZE * Lead(n.blocks)
    ensures BytesOf(s', n.blocks, len) == BytesOf(s, n.blocks, len)
  {
  }

  /** Writing to a block of inode `i`, or to a free one, touches no other inode. */
  lemma WriteKeeps(s: Fs, s': Fs, i: nat, p: U32)
    requires Accounted(s.inodes, s.used) && i < MAX_INODES && IsDataBlock(p)
    requires p in s.inodes[i].blocks || !s.used[p - DATA_START]
    requires forall j :: 0 <= j < MAX_INODES && j != i ==> s'.inodes[j] == s.inodes[j]
    requires forall k :: 0 <= k < MAX_DATA_BLOCKS && k != p - DATA_START ==> s'.data[k] == s.data[k]
    ensures forall j :: 0 <= j < MAX_INODES && j != i ==> Kept(s, s', j)
  {
    forall j, b | 0 <= j < MAX_INODES && j != i && 0 <= b < DIRECT && s.inodes[j].blocks[b] != 0
      ensures s.inodes[j].blocks[b] != p
    {
      assert Owns(s.inodes, j, b, s.inodes[j].blocks[b]);
      if p in s.inodes[i].blocks {
        var c :| 0 <= c < DIRECT && s.inodes[i].blocks[c] == p;
        assert Owns(s.inodes, i, c, p);
      } else {
        assert !Owned(s.inodes, p);
      }
    }
  }

  /** To re-establish FsOk after changing inode `i` alone, only `i` needs checking. */
  lemma RestKept(s: Fs, s': Fs, i: nat)
    requires FsOk(s) && i < MAX_INODES
    requires Accounted(s'.inodes, s'.used)
    requires forall j :: 0 <= j < MAX_INODES && j != i ==> Kept(s, s', j)
    requires InodeOk(s'.inodes[i])
    requires s'.inodes[i].kind == DIR ==> SlotsOk(Slots(s', s'.inodes[i]))
    ensures FsOk(s')
  {
    FsOkIs(s);
    FsOkIs(s');
    forall j | 0 <= j < MAX_INODES
      ensures InodeOk(s'.inodes[j])
      ensures s'.inodes[j].kind == DIR ==> SlotsOk(Slots(s', s'.inodes[j]))
    {
      if j != i {
        assert Kept(s, s', j);
        SameSlots(s, s', s.inodes[j]);
      }
    }
  }
}
