/** Adding and removing one directory entry, on the slots the directory's blocks hold. */
module SfsEntries {
  import opened Bytes
  import opened BlockCache
  import opened CStrings
  import opened SfsLayout
  import opened SfsSpec
  import opened SfsBlocks
  import opened SfsSpace

  function EmptySlots(n: nat): (r: seq<Dirent>)
    ensures |r| == n && forall i :: 0 <= i < n ==> r[i] == Dirent(0, [])
  {
    seq(n, _ => Dirent(0, []))
  }

  /** The entry goes into the first free slot, or opens a new block of slots. */
  function SlotsWith(slots: seq<Dirent>, name: Name, child: nat): seq<Dirent>
    requires child < MAX_INODES
  {
    var k := FindHole(slots);
    if k < |slots| then slots[k := Dirent(child + 1, Stored(name))]
    else slots + [Dirent(child + 1, Stored(name))] + EmptySlots(DIRENTS_PER_BLOCK - 1)
  }

  function SlotsWithout(slots: seq<Dirent>, name: Name): seq<Dirent>
  {
    var k := FindName(slots, name);
    if k < |slots| then slots[k := slots[k].(inum1 := 0)] else slots
  }

  /** Room for an entry: a free slot, or a pointer to grow by. A free block there always is. */
  predicate Room(slots: seq<Dirent>, lead: nat)
  {
    FindHole(slots) < |slots| || lead < DIRECT
  }

  predicate HasRoom(s: Fs, dir: nat)
    requires dir < MAX_INODES
  {
    Room(Slots(s, s.inodes[dir]), Lead(s.inodes[dir].blocks))
  }

  /** A sound step from `s` to `s'` that leaves directory `dir` with these slots and nothing else changed. */
  ghost predicate DirStep(s: Fs, s': Fs, dir: nat, slots: seq<Dirent>)
    requires dir < MAX_INODES
  {
    && FsOk(s')
    && s'.inodes[dir].kind == DIR && Slots(s', s'.inodes[dir]) == slots
    && (forall j {:trigger Kept(s, s', j)} :: 0 <= j < MAX_INODES && j != dir ==> Kept(s, s', j))
  }

  lemma BlockOfSlot(s: Fs, dir: nat, k: nat)
    requires FsOk(s) && dir < MAX_INODES && k < |Slots(s, s.inodes[dir])|
    ensures var d := s.inodes[dir];
            var p := SlotBlock(d, k);
            IsDataBlock(p) && p in d.blocks
            && forall m :: 0 <= m < |Slots(s, d)| && d.blocks[m / DIRENTS_PER_BLOCK] == p ==>
                 m / DIRENTS_PER_BLOCK == k / DIRENTS_PER_BLOCK
  {
    FsOkIs(s);
    var d := s.inodes[dir];
    assert Owns(s.inodes, dir, k / DIRENTS_PER_BLOCK, SlotBlock(d, k));
    forall m | 0 <= m < |Slots(s, d)| && d.blocks[m / DIRENTS_PER_BLOCK] == SlotBlock(d, k)
      ensures m / DIRENTS_PER_BLOCK == k / DIRENTS_PER_BLOCK
    {
      assert Owns(s.inodes, dir, m / DIRENTS_PER_BLOCK, SlotBlock(d, k));
    }
  }

  /** Block `b` is block `a` with entry `i` made `e`. */
  predicate Edited(a: Block, b: Block, i: nat, e: Dirent)
  {
    forall j :: 0 <= j < DIRENTS_PER_BLOCK ==> DirentAt(b, j) == if j == i then e else DirentAt(a, j)
  }

  lemma PutEdits(a: Block, b: Block, i: nat, inum1: U32, name: Name)
    requires i < DIRENTS_PER_BLOCK && b == PutDirent(a, i, inum1, name)
    ensures Edited(a, b, i, Dirent(inum1, Stored(name)))
  {
    forall j | 0 <= j < DIRENTS_PER_BLOCK
      ensures DirentAt(b, j) == if j == i then Dirent(inum1, Stored(name)) else DirentAt(a, j)
    {
      StoreDirent(a, i, inum1, name, j);
    }
  }

  lemma ClearEdits(a: Block, b: Block, i: nat)
    requires i < DIRENTS_PER_BLOCK && b == ClearDirent(a, i)
    ensures Edited(a, b, i, DirentAt(a, i).(inum1 := 0))
  {
    forall j | 0 <= j < DIRENTS_PER_BLOCK
      ensures DirentAt(b, j) == if j == i then DirentAt(a, i).(inum1 := 0) else DirentAt(a, j)
    {
      EraseDirent(a, i, j);
    }
  }

  /** Rewriting the block of slot `k` so that only entry `k` differs changes that one slot. */
  lemma EditSlot(s: Fs, dir: nat, k: nat, b: Block, e: Dirent)
    requires FsOk(s) && dir < MAX_INODES && s.inodes[dir].kind == DIR && k < |Slots(s, s.inodes[dir])|
    requires IsDataBlock(SlotBlock(s.inodes[dir], k))
    requires Edited(DataOf(s, SlotBlock(s.inodes[dir], k)), b, k % DIRENTS_PER_BLOCK, e)
    requires e.inum1 != 0 ==> e.inum1 <= MAX_INODES && |e.name| <= NAME_MAX
    ensures DirStep(s, SetData(s, SlotBlock(s.inodes[dir], k), b), dir, Slots(s, s.inodes[dir])[k := e])
  {
    FsOkIs(s);
    var d := s.inodes[dir];
    var p := SlotBlock(d, k);
    var s' := SetData(s, p, b);
    BlockOfSlot(s, dir, k);
    WriteKeeps(s, s', dir, p);
    forall m | 0 <= m < |Slots(s, d)|
      ensures Slots(s', d)[m] == Slots(s, d)[k := e][m]
    {
      assert m == DIRENTS_PER_BLOCK * (m / DIRENTS_PER_BLOCK) + m % DIRENTS_PER_BLOCK;
      assert Owns(s.inodes, dir, m / DIRENTS_PER_BLOCK, d.blocks[m / DIRENTS_PER_BLOCK]);
    }
    assert Slots(s', d) == Slots(s, d)[k := e];
    RestKept(s, s', dir);
  }

  lemma GrowDir(s: Fs, dir: nat, p: U32, b: Block, e: Dirent)
    requires FsOk(s) && dir < MAX_INODES && s.inodes[dir].kind == DIR && Lead(s.inodes[dir].blocks) < DIRECT
    requires IsDataBlock(p) && !s.used[p - DATA_START]
    requires OpensWith(b, e) && e.inum1 <= MAX_INODES && |e.name| <= NAME_MAX
    ensures DirStep(s, GrowBy(s, dir, p, b), dir, Slots(s, s.inodes[dir]) + [e] + EmptySlots(DIRENTS_PER_BLOCK - 1))
  {
    FsOkIs(s);
    var s' := GrowBy(s, dir, p, b);
    GrownInode(s, dir, p, s'.inodes[dir]);
    WriteKeeps(s, s', dir, p);
    NewSlots(s, s', s.inodes[dir], s'.inodes[dir], p, b, e);
    RestKept(s, s', dir);
  }

  lemma GrownInode(s: Fs, dir: nat, p: U32, d': Inode)
    requires FsOk(s) && dir < MAX_INODES && s.inodes[dir].kind == DIR && Lead(s.inodes[dir].blocks) < DIRECT
    requires IsDataBlock(p) && !s.used[p - DATA_START]
    requires d' == Extended(s.inodes[dir], p)
    ensures InodeOk(d') && Lead(d'.blocks) == Lead(s.inodes[dir].blocks) + 1
    ensures p !in s.inodes[dir].blocks
    ensures Accounted(s.inodes[dir := d'], s.used[p - DATA_START := true])
  {
    FsOkIs(s);
    var d := s.inodes[dir];
    ExtendedOk(d, p);
    Grow(s.inodes, s.used, dir, Lead(d.blocks), p - DATA_START, d');
    if p in d.blocks {
      var c :| 0 <= c < DIRECT && d.blocks[c] == p;
      assert Owns(s.inodes, dir, c, p);
    }
  }

  lemma ExtendedOk(d: Inode, p: U32)
    requires InodeOk(d) && d.kind == DIR && Lead(d.blocks) < DIRECT && p != 0
    ensures InodeOk(Extended(d, p)) && Lead(Extended(d, p).blocks) == Lead(d.blocks) + 1
  {
    LeadIs(Extended(d, p).blocks, Lead(d.blocks) + 1);
  }

  /** A block holding one entry, in its first slot. */
  predicate OpensWith(b: Block, e: Dirent)
  {
    forall i :: 0 <= i < DIRENTS_PER_BLOCK ==> DirentAt(b, i) == if i == 0 then e else Dirent(0, [])
  }

  /** A directory that gains block `b` gains its sixteen slots after the old ones. */
  lemma NewSlots(s: Fs, s': Fs, d: Inode, d': Inode, p: U32, b: Block, e: Dirent)
    requires IsDataBlock(p) && p !in d.blocks && Lead(d.blocks) < DIRECT
    requires d'.blocks == d.blocks[Lead(d.blocks) := p] && Lead(d'.blocks) == Lead(d.blocks) + 1
    requires s'.data == s.data[p - DATA_START := b] && OpensWith(b, e)
    ensures Slots(s', d') == Slots(s, d) + [e] + EmptySlots(DIRENTS_PER_BLOCK - 1)
  {
    var n := |Slots(s, d)|;
    var r := Slots(s, d) + [e] + EmptySlots(DIRENTS_PER_BLOCK - 1);
    forall m | 0 <= m < n + DIRENTS_PER_BLOCK
      ensures Slots(s', d')[m] == r[m]
    {
      if m < n {
        assert d'.blocks[m / DIRENTS_PER_BLOCK] == d.blocks[m / DIRENTS_PER_BLOCK] != p;
      } else {
        assert m / DIRENTS_PER_BLOCK == Lead(d.blocks) && m % DIRENTS_PER_BLOCK == m - n;
      }
    }
  }

  lemma EditedZeros(z: Block, b: Block, e: Dirent)
    requires z == Zeros(BLOCK_SIZE) && Edited(z, b, 0, e)
    ensures OpensWith(b, e)
  {
    forall i | 0 <= i < DIRENTS_PER_BLOCK ensures DirentAt(z, i) == Dirent(0, []) {
      ZeroDirent(i);
    }
  }

  // --- the two operations as steps -----------------------------------------

  /** Block `p` is rewritten with entry `i` made `e`. */
  predicate EditStep(s: Fs, s': Fs, p: U32, i: nat, e: Dirent)
  {
    IsDataBlock(p) && s' == SetData(s, p, DataOf(s', p)) && Edited(DataOf(s, p), DataOf(s', p), i, e)
  }

  /** Free block `p` becomes the next block of directory `dir`, with `e` as its first entry. */
  predicate GrowStep(s: Fs, s': Fs, dir: nat, p: U32, e: Dirent)
    requires dir < MAX_INODES && Lead(s.inodes[dir].blocks) < DIRECT && IsDataBlock(p)
  {
    s' == GrowBy(s, dir, p, DataOf(s', p)) && OpensWith(DataOf(s', p), e)
  }

  /** dir_add: the entry takes the first free slot, or the first slot of a new block, or nothing happens. */
  predicate AddStep(s: Fs, s': Fs, dir: nat, name: Name, child: nat, ok: bool)
  {
    dir < MAX_INODES && child < MAX_INODES &&
    var d, e := s.inodes[dir], Dirent(child + 1, Stored(name));
    var k := FindHole(Slots(s, d));
    if k < |Slots(s, d)| then ok && EditStep(s, s', SlotBlock(d, k), k % DIRENTS_PER_BLOCK, e)
    else if Lead(d.blocks) < DIRECT && Alloc(s).1 != 0 then ok && GrowStep(s, s', dir, Alloc(s).1, e)
    else !ok && s' == s
  }

  /** What dir_add comes to on a sound disk: it stays sound, the directory's slots gain the entry and no other inode
      is touched; it fails, and changes nothing, exactly when all slots of all fourteen blocks are taken. */
  ghost predicate Adds(s: Fs, s': Fs, dir: nat, name: Name, child: nat, ok: bool)
  {
    && dir < MAX_INODES && child < MAX_INODES
    && (ok <==> HasRoom(s, dir))
    && (!ok ==> s' == s)
    && DirStep(s, s', dir, if ok then SlotsWith(Slots(s, s.inodes[dir]), name, child) else Slots(s, s.inodes[dir]))
  }

  lemma AddStepAdds(s: Fs, s': Fs, dir: nat, name: Name, child: nat, ok: bool)
    requires FsOk(s) && AddStep(s, s', dir, name, child, ok) && s.inodes[dir].kind == DIR
    ensures Adds(s, s', dir, name, child, ok)
  {
    var d, e := s.inodes[dir], Dirent(child + 1, Stored(name));
    var k := FindHole(Slots(s, d));
    AlwaysFree(s);
    if k < |Slots(s, d)| {
      EditSlot(s, dir, k, DataOf(s', SlotBlock(d, k)), e);
    } else if ok {
      GrowDir(s, dir, Alloc(s).1, DataOf(s', Alloc(s).1), e);
    }
  }

  /** dir_remove: the first slot with the name is freed. */
  predicate RemoveStep(s: Fs, s': Fs, dir: nat, name: Name, ok: bool)
  {
    dir < MAX_INODES &&
    var d := s.inodes[dir];
    var k := FindName(Slots(s, d), name);
    if k < |Slots(s, d)| then
      ok && EditStep(s, s', SlotBlock(d, k), k % DIRENTS_PER_BLOCK, Slots(s, d)[k].(inum1 := 0))
    else !ok && s' == s
  }

  /** What dir_remove comes to on a sound disk: it stays sound, the slots lose the name; inodes and bitmap stay. */
  ghost predicate Removes(s: Fs, s': Fs, dir: nat, name: Name, ok: bool)
  {
    && dir < MAX_INODES
    && (ok <==> FindName(Slots(s, s.inodes[dir]), name) < |Slots(s, s.inodes[dir])|)
    && s'.inodes == s.inodes && s'.used == s.used
    && DirStep(s, s', dir, SlotsWithout(Slots(s, s.inodes[dir]), name))
  }

  lemma RemoveStepRemoves(s: Fs, s': Fs, dir: nat, name: Name, ok: bool)
    requires FsOk(s) && RemoveStep(s, s', dir, name, ok) && s.inodes[dir].kind == DIR
    ensures Removes(s, s', dir, name, ok)
  {
    var d := s.inodes[dir];
    var k := FindName(Slots(s, d), name);
    if k < |Slots(s, d)| {
      EditSlot(s, dir, k, DataOf(s', SlotBlock(d, k)), Slots(s, d)[k].(inum1 := 0));
    }
  }
}
