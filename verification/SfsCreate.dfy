/** Creating a file or a directory: exactly when it keeps the tree, and what it leaves when it does not. */
module SfsCreate {
  import opened Bytes
  import opened CStrings
  import opened SfsLayout
  import opened SfsSpec
  import opened SfsBlocks
  import opened SfsEntries
  import opened DirMap
  import opened FileTree
  import opened SfsTree
  import opened SfsRoom

  /** sfs_create turns the request down before touching the disk. */
  predicate Refused(s: Fs, dir: nat, name: Name)
    requires dir < MAX_INODES
  {
    Lookup(s, dir, name) >= 0 || FirstFreeInode(s.inodes) == MAX_INODES
  }

  /** The entries "." and ".." that a new directory gets; whether they went in is not looked at. */
  ghost predicate DotsStep(s1: Fs, s2: Fs, ino: nat, dir: nat, kind: U32)
  {
    if kind == DIR then
      exists m, ok, ok' :: AddStep(s1, m, ino, DOT, ino, ok) && AddStep(m, s2, ino, DOTDOT, dir, ok')
    else s2 == s1
  }

  /** sfs_create: the first free inode, blank but for its kind; a directory's dots; the entry in `dir`. */
  ghost predicate CreateStep(s: Fs, dir: nat, name: Name, kind: U32, s': Fs, r: int)
    requires dir < MAX_INODES
  {
    if Refused(s, dir, name) then s' == s && r == -1
    else
      exists s2, ok ::
        && DotsStep(SetInode(s, FirstFreeInode(s.inodes), Blank(kind)), s2, FirstFreeInode(s.inodes), dir, kind)
        && AddStep(s2, s', dir, name, FirstFreeInode(s.inodes), ok)
        && r == if ok then FirstFreeInode(s.inodes) else -1
  }

  /** The same step by what dir_add comes to. */
  ghost predicate DotsAdded(s1: Fs, s2: Fs, ino: nat, dir: nat, kind: U32)
  {
    if kind == DIR then
      exists m, ok, ok' :: Adds(s1, m, ino, DOT, ino, ok) && Adds(m, s2, ino, DOTDOT, dir, ok')
    else s2 == s1
  }

  lemma DotsStepAdded(s1: Fs, s2: Fs, ino: nat, dir: nat, kind: U32)
    requires FsOk(s1) && ino < MAX_INODES && s1.inodes[ino].kind == kind && DotsStep(s1, s2, ino, dir, kind)
    ensures DotsAdded(s1, s2, ino, dir, kind)
  {
    if kind == DIR {
      var m, ok, ok' :| AddStep(s1, m, ino, DOT, ino, ok) && AddStep(m, s2, ino, DOTDOT, dir, ok');
      AddStepAdds(s1, m, ino, DOT, ino, ok);
      AddStepAdds(m, s2, ino, DOTDOT, dir, ok');
    }
  }

  lemma NewInode(s: Fs, ino: nat, kind: U32)
    requires FsOk(s) && ino < MAX_INODES && s.inodes[ino].kind == FREE && (kind == FILE || kind == DIR)
    ensures var s1 := SetInode(s, ino, Blank(kind));
            && FsOk(s1) && OthersKeptBut(s, s1, {ino})
            && Lead(s1.inodes[ino].blocks) == 0 && Slots(s1, s1.inodes[ino]) == []
  {
    FsOkIs(s);
    var s1 := SetInode(s, ino, Blank(kind));
    assert InodeOk(s.inodes[ino]);
    LeadIs(Blank(kind).blocks, 0);
    Relabel(s.inodes, s.used, ino, Blank(kind));
    RestKept(s, s1, ino);
  }

  /** The two entries every directory starts with. */
  lemma DotEntries(slots: seq<Dirent>, ino: nat, dir: nat)
    requires ino < MAX_INODES && dir < MAX_INODES && slots == SlotsWith(SlotsWith([], DOT, ino), DOTDOT, dir)
    ensures Unique(slots) && DirNodeOf(Entries(slots)) == FreshNode(DIR, ino, dir)
  {
    var none: seq<Dirent> := [];
    assert Entries(none) == map[];
    SlotsWithEntries(none, DOT, ino);
    SlotsWithEntries(SlotsWith(none, DOT, ino), DOTDOT, dir);
    assert Entries(slots) == map[DOT := ino, DOTDOT := dir];
    OnlyTheDots(Entries(slots), ino, dir);
  }

  lemma OnlyTheDots(m: map<Name, nat>, ino: nat, dir: nat)
    requires m == map[DOT := ino, DOTDOT := dir]
    ensures DirNodeOf(m) == FreshNode(DIR, ino, dir)
  {
    assert m - {DOT, DOTDOT} == map[];
  }

  lemma AddDots(s: Fs, m: Fs, s2: Fs, ino: nat, dir: nat, ok: bool, ok': bool)
    requires ino < MAX_INODES && Lead(s.inodes[ino].blocks) == 0 && Slots(s, s.inodes[ino]) == []
    requires Adds(s, m, ino, DOT, ino, ok) && Adds(m, s2, ino, DOTDOT, dir, ok')
    ensures FsOk(s2) && OthersKeptBut(s, s2, {ino}) && s2.inodes[ino].kind == DIR
    ensures Slots(s2, s2.inodes[ino]) == SlotsWith(SlotsWith([], DOT, ino), DOTDOT, dir)
  {
    KeptCompose(s, m, s2, {ino}, {ino});
    assert {ino} + {ino} == {ino};
    var slots := Slots(m, m.inodes[ino]);
    assert |slots| == DIRENTS_PER_BLOCK && slots[1].inum1 == 0;
  }

  /** The new inode is complete, and nothing else has been touched. */
  ghost predicate Ready(s: Fs, s2: Fs, dir: nat, ino: nat, kind: U32)
  {
    && ino < MAX_INODES && s.inodes[ino].kind == FREE && s2.inodes[ino].kind == kind
    && FsOk(s2) && OthersKeptBut(s, s2, {ino})
    && NodeOf(s2, s2.inodes[ino]) == FreshNode(kind, ino, dir)
    && (kind == DIR ==> Unique(Slots(s2, s2.inodes[ino])))
  }

  /** Up to the last step nothing but the new inode is touched, and it is complete. */
  lemma PreparedOk(s: Fs, s2: Fs, dir: nat, ino: nat, kind: U32)
    requires FsOk(s) && dir < MAX_INODES && ino < MAX_INODES && s.inodes[ino].kind == FREE
    requires kind == FILE || kind == DIR
    requires DotsAdded(SetInode(s, ino, Blank(kind)), s2, ino, dir, kind)
    ensures Ready(s, s2, dir, ino, kind)
  {
    var s1 := SetInode(s, ino, Blank(kind));
    NewInode(s, ino, kind);
    if kind == DIR {
      var m, ok, ok' :| Adds(s1, m, ino, DOT, ino, ok) && Adds(m, s2, ino, DOTDOT, dir, ok');
      AddDots(s1, m, s2, ino, dir, ok, ok');
      PreparedDir(s, s1, s2, dir, ino);
    } else {
      assert BytesOf(s1, Blank(kind).blocks, 0) == [];
    }
  }

  lemma PreparedDir(s: Fs, s1: Fs, s2: Fs, dir: nat, ino: nat)
    requires dir < MAX_INODES && ino < MAX_INODES && s.inodes[ino].kind == FREE
    requires FsOk(s2) && OthersKeptBut(s, s1, {ino}) && OthersKeptBut(s1, s2, {ino}) && s2.inodes[ino].kind == DIR
    requires Slots(s2, s2.inodes[ino]) == SlotsWith(SlotsWith([], DOT, ino), DOTDOT, dir)
    ensures Ready(s, s2, dir, ino, DIR)
  {
    KeptCompose(s, s1, s2, {ino}, {ino});
    assert {ino} + {ino} == {ino};
    DotsNode(s2, ino, dir, Slots(s2, s2.inodes[ino]));
  }

  lemma DotsNode(s: Fs, ino: nat, dir: nat, slots: seq<Dirent>)
    requires ino < MAX_INODES && dir < MAX_INODES && s.inodes[ino].kind == DIR && slots == Slots(s, s.inodes[ino])
    requires slots == SlotsWith(SlotsWith([], DOT, ino), DOTDOT, dir)
    ensures Unique(slots) && NodeOf(s, s.inodes[ino]) == FreshNode(DIR, ino, dir)
  {
    DotEntries(slots, ino, dir);
  }

  /** The two halves of a create that is not refused, by what dir_add comes to. */
  lemma CreateHalves(s: Fs, dir: nat, name: Name, kind: U32, s': Fs, r: int) returns (s2: Fs, ok: bool)
    requires FsOk(s) && LiveDir(s, dir) && (kind == FILE || kind == DIR) && CreateStep(s, dir, name, kind, s', r)
    requires !Refused(s, dir, name)
    ensures var ino := FirstFreeInode(s.inodes);
            && DotsAdded(SetInode(s, ino, Blank(kind)), s2, ino, dir, kind) && Adds(s2, s', dir, name, ino, ok)
            && r == if ok then ino else -1
  {
    var ino := FirstFreeInode(s.inodes);
    s2, ok :| DotsStep(SetInode(s, ino, Blank(kind)), s2, ino, dir, kind) && AddStep(s2, s', dir, name, ino, ok)
              && r == if ok then ino else -1;
    NewInode(s, ino, kind);
    FirstHalf(s, SetInode(s, ino, Blank(kind)), s2, dir, ino, kind);
    AddStepAdds(s2, s', dir, name, ino, ok);
  }

  lemma FirstHalf(s: Fs, s1: Fs, s2: Fs, dir: nat, ino: nat, kind: U32)
    requires FsOk(s) && LiveDir(s, dir) && ino < MAX_INODES && s.inodes[ino].kind == FREE
    requires kind == FILE || kind == DIR
    requires s1 == SetInode(s, ino, Blank(kind)) && FsOk(s1) && DotsStep(s1, s2, ino, dir, kind)
    ensures DotsAdded(s1, s2, ino, dir, kind) && FsOk(s2) && LiveDir(s2, dir)
  {
    DotsStepAdded(s1, s2, ino, dir, kind);
    PreparedOk(s, s2, dir, ino, kind);
    StillLive(s, s2, dir, ino, kind);
  }

  lemma StillLive(s: Fs, s2: Fs, dir: nat, ino: nat, kind: U32)
    requires Ready(s, s2, dir, ino, kind) && LiveDir(s, dir)
    ensures FsOk(s2) && LiveDir(s2, dir)
  {
    assert dir != ino;
    assert Kept(s, s2, dir);
  }

  /** sfs_create leaves the disk sound, whatever directory of a sound disk it is called on and however it ends. */
  lemma CreateOk(s: Fs, dir: nat, name: Name, kind: U32, s': Fs, r: int)
    requires FsOk(s) && LiveDir(s, dir) && (kind == FILE || kind == DIR) && CreateStep(s, dir, name, kind, s', r)
    ensures FsOk(s') && LiveDir(s', dir)
  {
    if !Refused(s, dir, name) {
      var s2, ok := CreateHalves(s, dir, name, kind, s', r);
    }
  }

  function AddKid(node: Node, n: Name, c: nat): Node
    requires node.DirNode?
  {
    node.(kids := node.kids[n := c])
  }

  lemma DirNodeInsert(m: map<Name, nat>, n: Name, c: nat)
    requires n != DOT && n != DOTDOT
    ensures DirNodeOf(m[n := c]) == AddKid(DirNodeOf(m), n, c)
  {
    assert m[n := c] - {DOT, DOTDOT} == (m - {DOT, DOTDOT})[n := c];
  }

  /** No entry of the directory has the name as it will be stored. */
  predicate FreshStored(s: Fs, dir: nat, name: Name)
    requires dir < MAX_INODES
  {
    Lookup(s, dir, Stored(name)) < 0
  }

  /** The entry's step: directory `dir` gains one child. */
  lemma EntryStep(s: Fs, s2: Fs, s': Fs, dir: nat, name: Name, ino: nat)
    requires FsOk(s) && AllUnique(s) && LiveDir(s, dir) && ino < MAX_INODES && ino != dir
    requires OthersKeptBut(s, s2, {ino})
    requires DirStep(s2, s', dir, SlotsWith(Slots(s2, s2.inodes[dir]), name, ino))
    requires Lookup(s, dir, Stored(name)) < 0 && Stored(name) != DOT && Stored(name) != DOTDOT
    ensures Unique(Slots(s', s'.inodes[dir]))
    ensures NodeOf(s', s'.inodes[dir]) == AddKid(NodeOf(s, s.inodes[dir]), Stored(name), ino)
  {
    assert Kept(s, s2, dir);
    KeptNode(s, s2, dir);
    var slots := Slots(s, s.inodes[dir]);
    FindIsLookup(slots, Stored(name));
    SlotsWithEntries(slots, name, ino);
    DirNodeInsert(Entries(slots), Stored(name), ino);
  }

  lemma RoomKept(s: Fs, s2: Fs, dir: nat, ino: nat)
    requires dir < MAX_INODES && dir != ino && OthersKeptBut(s, s2, {ino})
    ensures HasRoom(s2, dir) <==> HasRoom(s, dir)
  {
    assert Kept(s, s2, dir);
    KeptNode(s, s2, dir);
  }

  /** In a tree the last dir_add of a create that is not refused goes through. */
  lemma CreateReady(s: Fs, depth: Depths, dir: nat, name: Name, kind: U32, s': Fs, r: int) returns (s2: Fs)
    requires TreeOk(s, depth) && LiveDir(s, dir) && (kind == FILE || kind == DIR)
    requires CreateStep(s, dir, name, kind, s', r) && !Refused(s, dir, name)
    ensures r == FirstFreeInode(s.inodes) && Ready(s, s2, dir, r, kind)
    ensures DirStep(s2, s', dir, SlotsWith(Slots(s2, s2.inodes[dir]), name, r))
  {
    var ino := FirstFreeInode(s.inodes);
    var ok;
    s2, ok := CreateHalves(s, dir, name, kind, s', r);
    PreparedOk(s, s2, dir, ino, kind);
    RoomKept(s, s2, dir, ino);
    TreeHasRoom(s, depth, dir);
  }

  /** A create under a fresh stored name inserts one leaf into the tree. */
  lemma CreateInserts(s: Fs, depth: Depths, dir: nat, name: Name, kind: U32, s': Fs, r: int)
    requires TreeOk(s, depth) && LiveDir(s, dir) && (kind == FILE || kind == DIR)
    requires CreateStep(s, dir, name, kind, s', r) && !Refused(s, dir, name) && FreshStored(s, dir, name)
    ensures r == FirstFreeInode(s.inodes) && Inserted(s, s', depth, dir, Stored(name), r, kind)
  {
    var s2 := CreateReady(s, depth, dir, name, kind, s', r);
    Completed(s, s2, s', depth, dir, name, r, kind);
  }

  lemma Completed(s: Fs, s2: Fs, s': Fs, depth: Depths, dir: nat, name: Name, ino: nat, kind: U32)
    requires TreeOk(s, depth) && LiveDir(s, dir) && ino < MAX_INODES && kind != FREE && Ready(s, s2, dir, ino, kind)
    requires DirStep(s2, s', dir, SlotsWith(Slots(s2, s2.inodes[dir]), name, ino))
    requires Lookup(s, dir, Stored(name)) < 0
    ensures Inserted(s, s', depth, dir, Stored(name), ino, kind)
  {
    AbsentIsReal(s, depth, dir, Stored(name));
    EntryStep(s, s2, s', dir, name, ino);
    Linked(s, s2, s', depth, dir, Stored(name), ino, kind);
  }

  /** The tree of `s'` is that of `s` with one new leaf. */
  ghost predicate Inserted(s: Fs, s': Fs, depth: Depths, dir: nat, n: Name, ino: nat, kind: U32)
  {
    && IsDir(Abs(s), dir) && dir in depth && ino !in Abs(s)
    && Abs(s') == Insert(Abs(s), dir, n, ino, FreshNode(kind, ino, dir))
    && TreeOk(s', depth[ino := depth[dir] + 1])
  }

  lemma Linked(s: Fs, s2: Fs, s': Fs, depth: Depths, dir: nat, n: Name, ino: nat, kind: U32)
    requires FsOk(s') && AllUnique(s) && IsTree(Abs(s), depth)
    requires LiveDir(s, dir) && LiveDir(s', dir) && kind != FREE && Ready(s, s2, dir, ino, kind)
    requires IsDir(Abs(s), dir) && n !in Abs(s)[dir].kids
    requires OthersKeptBut(s2, s', {dir}) && Unique(Slots(s', s'.inodes[dir]))
    requires NodeOf(s', s'.inodes[dir]) == AddKid(NodeOf(s, s.inodes[dir]), n, ino)
    ensures Inserted(s, s', depth, dir, n, ino, kind)
  {
    LinkedUnique(s, s2, s', dir, ino);
    InsertAbs(s, s2, s', dir, n, ino, FreshNode(kind, ino, dir));
    InsertIsTree(Abs(s), depth, dir, n, ino, kind);
  }

  lemma LinkedUnique(s: Fs, s2: Fs, s': Fs, dir: nat, ino: nat)
    requires AllUnique(s) && ino < MAX_INODES && dir < MAX_INODES
    requires OthersKeptBut(s, s2, {ino}) && (s2.inodes[ino].kind == DIR ==> Unique(Slots(s2, s2.inodes[ino])))
    requires OthersKeptBut(s2, s', {dir}) && Unique(Slots(s', s'.inodes[dir]))
    ensures AllUnique(s')
  {
    UniqueUpdate(s, s2, ino);
    UniqueUpdate(s2, s', dir);
  }

  lemma InsertAbs(s: Fs, s2: Fs, s': Fs, dir: nat, n: Name, ino: nat, node: Node)
    requires LiveDir(s, dir) && LiveDir(s', dir) && ino < MAX_INODES && s.inodes[ino].kind == FREE
    requires OthersKeptBut(s, s2, {ino}) && s2.inodes[ino].kind != FREE && NodeOf(s2, s2.inodes[ino]) == node
    requires OthersKeptBut(s2, s', {dir}) && NodeOf(s', s'.inodes[dir]) == AddKid(NodeOf(s, s.inodes[dir]), n, ino)
    ensures ino !in Abs(s) && IsDir(Abs(s), dir)
    ensures Abs(s') == Insert(Abs(s), dir, n, ino, node)
  {
    assert IsDir(Abs(s), dir) by { AbsAt(s, dir); }
    var t, t' := Insert(Abs(s), dir, n, ino, node), Abs(s');
    AbsAt(s, ino);
    AbsAt(s, dir);
    AbsAt(s', dir);
    forall j: nat ensures AgreeAt(t, t', j) {
      if j != dir {
        KeptAbs(s2, s', j);
        AbsAt(s2, j);
        if j != ino { KeptAbs(s, s2, j); }
      }
    }
    SameTrees(t, t');
  }

  // --- when it goes wrong --------------------------------------------------

  /** Two live slots have the name. */
  ghost predicate Twice(slots: seq<Dirent>, name: Name)
  {
    exists j, k :: j < k && LiveNamed(slots, j, name) && LiveNamed(slots, k, name)
  }

  lemma Duplicate(slots: seq<Dirent>, name: Name, child: nat)
    requires child < MAX_INODES && FindName(slots, Stored(name)) < |slots|
    ensures Twice(SlotsWith(slots, name, child), Stored(name))
  {
    var r, j, k := SlotsWith(slots, name, child), FindName(slots, Stored(name)), FindHole(slots);
    assert LiveNamed(r, j, Stored(name)) && LiveNamed(r, k, Stored(name)) && j != k;
  }

  lemma TwiceNotUnique(slots: seq<Dirent>, name: Name)
    requires Twice(slots, name)
    ensures !Unique(slots)
  {
  }

  /** A create whose stored name is taken puts that name into the directory a second time. */
  lemma CreateDuplicates(s: Fs, depth: Depths, dir: nat, name: Name, kind: U32, s': Fs, r: int)
    requires TreeOk(s, depth) && LiveDir(s, dir) && (kind == FILE || kind == DIR)
    requires CreateStep(s, dir, name, kind, s', r) && !Refused(s, dir, name) && !FreshStored(s, dir, name)
    ensures LiveDir(s', dir) && Twice(Slots(s', s'.inodes[dir]), Stored(name))
  {
    var s2 := CreateReady(s, depth, dir, name, kind, s', r);
    TwiceNamed(s, s2, s', dir, name, r);
  }

  lemma TwiceNamed(s: Fs, s2: Fs, s': Fs, dir: nat, name: Name, ino: nat)
    requires LiveDir(s, dir) && ino < MAX_INODES && ino != dir && OthersKeptBut(s, s2, {ino})
    requires DirStep(s2, s', dir, SlotsWith(Slots(s2, s2.inodes[dir]), name, ino))
    requires !FreshStored(s, dir, name)
    ensures Twice(Slots(s', s'.inodes[dir]), Stored(name))
  {
    assert Kept(s, s2, dir);
    KeptNode(s, s2, dir);
    Duplicate(Slots(s, s.inodes[dir]), name, ino);
  }

  lemma TwiceNoTree(s: Fs, dir: nat, name: Name)
    requires LiveDir(s, dir) && Twice(Slots(s, s.inodes[dir]), name)
    ensures !HasTree(s)
  {
    TwiceNotUnique(Slots(s, s.inodes[dir]), name);
    if HasTree(s) {
      var depth := TreeDepths(s);
    }
  }

  /** sfs_create keeps the tree if and only if it refuses outright or no entry has the name as it will be stored,
      which can be checked beforehand. Space is never the matter. */
  lemma CreateKeepsTreeIff(s: Fs, depth: Depths, dir: nat, name: Name, kind: U32, s': Fs, r: int)
    requires TreeOk(s, depth) && LiveDir(s, dir) && (kind == FILE || kind == DIR)
    requires CreateStep(s, dir, name, kind, s', r)
    ensures HasTree(s') <==> Refused(s, dir, name) || FreshStored(s, dir, name)
  {
    if Refused(s, dir, name) {
      HasTreeBy(s', depth);
    } else if FreshStored(s, dir, name) {
      CreateInserts(s, depth, dir, name, kind, s', r);
      HasTreeBy(s', depth[r := depth[dir] + 1]);
    } else {
      CreateDuplicates(s, depth, dir, name, kind, s', r);
      TwiceNoTree(s', dir, Stored(name));
    }
  }

  /** For a name that fits its slot, the check sfs_create makes itself rules out duplicates. */
  lemma ShortNamesAreFresh(s: Fs, dir: nat, name: Name)
    requires dir < MAX_INODES && |name| <= NAME_MAX && !Refused(s, dir, name)
    ensures FreshStored(s, dir, name)
  {
  }
}
