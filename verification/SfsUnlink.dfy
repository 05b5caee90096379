/** Unlinking: which requests are refused, and what is gone from the tree after the others. */
module SfsUnlink {
  import opened CStrings
  import opened SfsLayout
  import opened SfsSpec
  import opened SfsBlocks
  import opened SfsEntries
  import opened SfsFiles
  import opened DirMap
  import opened FileTree
  import opened SfsTree
  import opened SfsRoom

  // --- unlink --------------------------------------------------------------

  /** Inode `ino` wiped and its blocks given back. */
  function Freed(s: Fs, ino: nat): Fs
    requires ino < MAX_INODES && OnDisk(s.inodes[ino].blocks)
  {
    SetInode(ReleaseAll(s, s.inodes[ino].blocks), ino, Blank(FREE))
  }

  /** sfs_unlink refuses the dots, missing names and directories with more than two entries. */
  predicate Refuses(s: Fs, dir: nat, name: Name)
    requires dir < MAX_INODES
  {
    var ino := Lookup(s, dir, name);
    || name == DOT || name == DOTDOT || ino < 0
    || (ino < MAX_INODES && s.inodes[ino].kind == DIR && |Live(Slots(s, s.inodes[ino]))| > 2)
  }

  /** sfs_unlink: the inode's blocks are given back, the inode is wiped, and the entry goes. */
  ghost predicate UnlinkStep(s: Fs, dir: nat, name: Name, s': Fs, r: int)
    requires dir < MAX_INODES
  {
    var ino := Lookup(s, dir, name);
    if Refuses(s, dir, name) then s' == s && r == -1
    else
      && ino < MAX_INODES && OnDisk(s.inodes[ino].blocks)
      && if ino == dir then s' == Freed(s, ino) && r == -1
         else RemoveStep(Freed(s, ino), s', dir, name, r == 0) && (r == 0 || r == -1)
  }

  lemma FreedOk(s: Fs, ino: nat)
    requires FsOk(s) && ino < MAX_INODES
    ensures OnDisk(s.inodes[ino].blocks)
    ensures FsOk(Freed(s, ino)) && OthersKeptBut(s, Freed(s, ino), {ino}) && Freed(s, ino).inodes[ino] == Blank(FREE)
  {
    Emptied(s, ino);
    var s0, n0 := ReleaseAll(s, s.inodes[ino].blocks), s.inodes[ino].(blocks := Zeroed(s.inodes[ino].blocks));
    var s1 := Freed(s, ino);
    LeadIs(Blank(FREE).blocks, 0);
    Relabel(s.inodes[ino := n0], s0.used, ino, Blank(FREE));
    assert s1.inodes == s.inodes[ino := n0][ino := Blank(FREE)];
    forall j: nat | j < MAX_INODES && j != ino ensures Kept(s, s1, j) {
    }
    RestKept(s, s1, ino);
  }

  /** The second half of an unlink, by what dir_remove comes to. */
  lemma UnlinkRemoves(s: Fs, dir: nat, name: Name, s': Fs, r: int)
    requires FsOk(s) && LiveDir(s, dir) && UnlinkStep(s, dir, name, s', r)
    requires !Refuses(s, dir, name) && Lookup(s, dir, name) != dir
    ensures var ino := Lookup(s, dir, name);
            0 <= ino < MAX_INODES && OnDisk(s.inodes[ino].blocks) && Removes(Freed(s, ino), s', dir, name, r == 0)
  {
    var ino := Lookup(s, dir, name);
    FreedOk(s, ino);
    assert Kept(s, Freed(s, ino), dir);
    RemoveStepRemoves(Freed(s, ino), s', dir, name, r == 0);
  }

  /** However unlink ends, the disk stays sound. */
  lemma UnlinkOk(s: Fs, dir: nat, name: Name, s': Fs, r: int)
    requires FsOk(s) && dir < MAX_INODES && UnlinkStep(s, dir, name, s', r)
    ensures FsOk(s')
  {
    if !Refuses(s, dir, name) {
      FreedOk(s, Lookup(s, dir, name));
      if Lookup(s, dir, name) != dir { UnlinkRemoves(s, dir, name, s', r); }
    }
  }

  function DropKid(node: Node, n: Name): Node
    requires node.DirNode?
  {
    node.(kids := node.kids - {n})
  }

  lemma DirNodeRemove(m: map<Name, nat>, n: Name)
    requires n != DOT && n != DOTDOT
    ensures DirNodeOf(m - {n}) == DropKid(DirNodeOf(m), n)
  {
    assert (m - {n}) - {DOT, DOTDOT} == (m - {DOT, DOTDOT}) - {n};
  }

  /** A leaf's subtree is the leaf. */
  lemma {:induction false} LeafUnder(t: Tree, depth: Depths, c: nat, i: nat)
    requires IsTree(t, depth) && c in t && i in t && (t[c].DirNode? ==> t[c].kids == map[])
    ensures Under(t, depth, c, i) <==> i == c
    decreases depth[i]
  {
    if i != c && i != ROOT {
      IsTreeIs(t, depth);
      LeafUnder(t, depth, c, Parent(t, depth, i));
      var n :| Names(t, Parent(t, depth, i), n, i);
    }
  }

  /** The inode a name stands for, in the tree and on disk. */
  lemma LookupNames(s: Fs, depth: Depths, dir: nat, name: Name)
    requires TreeOk(s, depth) && LiveDir(s, dir) && name != DOT && name != DOTDOT
    ensures IsDir(Abs(s), dir) && Lookup(s, dir, name) < MAX_INODES
    ensures Lookup(s, dir, name) >= 0 <==> name in Abs(s)[dir].kids
    ensures name in Abs(s)[dir].kids ==>
              Lookup(s, dir, name) == Abs(s)[dir].kids[name] && Names(Abs(s), dir, name, Lookup(s, dir, name))
  {
    LookupIs(s, dir, name);
    DotsPresent(s, depth, dir);
    DirNodeGet(Entries(Slots(s, s.inodes[dir])), name);
  }

  /** unlink removes a leaf and nothing else; it refuses a directory that still has children. */
  lemma UnlinkPrunes(s: Fs, depth: Depths, dir: nat, name: Name, s': Fs, r: int)
    requires TreeOk(s, depth) && LiveDir(s, dir) && name != DOT && name != DOTDOT
    requires UnlinkStep(s, dir, name, s', r)
    requires IsDir(Abs(s), dir) && name in Abs(s)[dir].kids
    ensures var c := Abs(s)[dir].kids[name];
            c in Abs(s)
            && if IsDir(Abs(s), c) && Abs(s)[c].kids != map[] then s' == s && r == -1
               else r == 0 && Pruned(s, s', depth, dir, name)
  {
    var c := Abs(s)[dir].kids[name];
    RefusesIff(s, depth, dir, name, c);
    if !Refuses(s, dir, name) {
      UnlinkRemoves(s, dir, name, s', r);
      LeafUnlinked(s, depth, dir, name, c, s', r == 0);
    }
  }

  /** A name that stands for a child is refused exactly when the child is a directory with children. */
  lemma RefusesIff(s: Fs, depth: Depths, dir: nat, name: Name, c: nat)
    requires TreeOk(s, depth) && LiveDir(s, dir) && name != DOT && name != DOTDOT && Names(Abs(s), dir, name, c)
    ensures c in Abs(s) && c != dir && Lookup(s, dir, name) == c < MAX_INODES
    ensures Refuses(s, dir, name) <==> IsDir(Abs(s), c) && Abs(s)[c].kids != map[]
  {
    LookupNames(s, depth, dir, name);
    ParentIs(Abs(s), depth, dir, name, c);
    AbsAt(s, c);
    if LiveDir(s, c) {
      CountsChildren(s, depth, c);
      NoKids(Abs(s)[c].kids);
    }
  }

  lemma NoKids(kids: map<Name, nat>)
    ensures |kids| > 0 <==> kids != map[]
  {
  }

  lemma LeafUnlinked(s: Fs, depth: Depths, dir: nat, name: Name, c: nat, s': Fs, ok: bool)
    requires TreeOk(s, depth) && LiveDir(s, dir) && name != DOT && name != DOTDOT
    requires Names(Abs(s), dir, name, c) && (IsDir(Abs(s), c) ==> Abs(s)[c].kids == map[])
    requires c < MAX_INODES && c != dir && OnDisk(s.inodes[c].blocks) && Removes(Freed(s, c), s', dir, name, ok)
    ensures ok && Pruned(s, s', depth, dir, name)
  {
    FreedOk(s, c);
    LeafCut(s, Freed(s, c), s', depth, dir, name, c, ok);
  }

  /** The disk of `s'` holds the tree of `s` without one entry and what lay below it; every surviving inode
      has the blocks it had, and the others are wiped. */
  ghost predicate Pruned(s: Fs, s': Fs, depth: Depths, dir: nat, name: Name)
  {
    && IsTree(Abs(s), depth) && IsDir(Abs(s), dir) && name in Abs(s)[dir].kids
    && Abs(s') == Prune(Abs(s), depth, dir, name)
    && TreeOk(s', Restrict(depth, Prune(Abs(s), depth, dir, name)))
    && (forall i :: 0 <= i < MAX_INODES ==> s'.inodes[i] == if i in Abs(s) && i !in Abs(s') then Blank(FREE)
         else s.inodes[i])
  }

  lemma LeafCut(s: Fs, s1: Fs, s': Fs, depth: Depths, dir: nat, name: Name, c: nat, ok: bool)
    requires TreeOk(s, depth) && LiveDir(s, dir) && name != DOT && name != DOTDOT
    requires Names(Abs(s), dir, name, c) && (IsDir(Abs(s), c) ==> Abs(s)[c].kids == map[])
    requires c < MAX_INODES && c != dir && OthersKeptBut(s, s1, {c}) && s1.inodes[c] == Blank(FREE)
    requires Removes(s1, s', dir, name, ok)
    ensures ok && Pruned(s, s', depth, dir, name)
  {
    HolderSlots(s, s1, depth, dir, c);
    var t, slots := Abs(s), Slots(s, s.inodes[dir]);
    LeafCutNode(s', dir, slots, name, t[dir]);
    assert ok;
    LeafCutAll(s, s1, s', depth, dir, name, c, t);
  }

  lemma LeafCutAll(s: Fs, s1: Fs, s': Fs, depth: Depths, dir: nat, name: Name, c: nat, t: Tree)
    requires t == Abs(s) && IsTree(t, depth) && AllUnique(s) && FsOk(s') && dir < MAX_INODES
    requires Names(t, dir, name, c) && (IsDir(t, c) ==> t[c].kids == map[])
    requires c < MAX_INODES && c != dir && OthersKeptBut(s, s1, {c}) && s1.inodes[c] == Blank(FREE)
    requires OthersKeptBut(s1, s', {dir}) && s'.inodes == s1.inodes && s'.inodes[dir].kind == DIR
    requires NodeOf(s', s'.inodes[dir]) == DropKid(t[dir], name) && Unique(Slots(s', s'.inodes[dir]))
    ensures Pruned(s, s', depth, dir, name)
  {
    LeafCutAbs(s, s1, s', depth, dir, name, c);
    LeafCutUnique(s, s1, s', dir, c);
    ParentIs(t, depth, dir, name, c);
    LeafCutInodes(s, s1, s', c);
    PrunedBy(s, s', depth, dir, name, t);
  }

  lemma PrunedBy(s: Fs, s': Fs, depth: Depths, dir: nat, name: Name, t: Tree)
    requires t == Abs(s) && IsTree(t, depth) && IsDir(t, dir) && name in t[dir].kids
    requires Abs(s') == Prune(t, depth, dir, name) && FsOk(s') && AllUnique(s')
    requires forall i :: 0 <= i < MAX_INODES ==> s'.inodes[i] == if i in t && i !in Abs(s') then Blank(FREE)
             else s.inodes[i]
    ensures Pruned(s, s', depth, dir, name)
  {
    PruneIsTree(t, depth, dir, name);
  }

  lemma LeafCutUnique(s: Fs, s1: Fs, s': Fs, dir: nat, c: nat)
    requires AllUnique(s) && dir < MAX_INODES && c < MAX_INODES
    requires OthersKeptBut(s, s1, {c}) && s1.inodes[c].kind == FREE
    requires OthersKeptBut(s1, s', {dir}) && Unique(Slots(s', s'.inodes[dir]))
    ensures AllUnique(s')
  {
    UniqueUpdate(s, s1, c);
    UniqueUpdate(s1, s', dir);
  }

  lemma LeafCutInodes(s: Fs, s1: Fs, s': Fs, c: nat)
    requires c < MAX_INODES && OthersKeptBut(s, s1, {c}) && s1.inodes[c] == Blank(FREE) && s'.inodes == s1.inodes
    requires c in Abs(s)
    ensures forall i :: 0 <= i < MAX_INODES ==> s'.inodes[i] == if i in Abs(s) && i !in Abs(s') then Blank(FREE)
            else s.inodes[i]
  {
    forall i: nat | i < MAX_INODES
      ensures s'.inodes[i] == if i in Abs(s) && i !in Abs(s') then Blank(FREE) else s.inodes[i]
    {
      if i != c { assert Kept(s, s1, i); }
      AbsAt(s, i);
      AbsAt(s', i);
    }
  }

  lemma LeafCutNode(s': Fs, dir: nat, slots: seq<Dirent>, name: Name, node: Node)
    requires LiveDir(s', dir) && Unique(slots) && node == DirNodeOf(Entries(slots))
    requires name != DOT && name != DOTDOT && name in node.kids
    requires Slots(s', s'.inodes[dir]) == SlotsWithout(slots, name)
    ensures FindName(slots, name) < |slots|
    ensures NodeOf(s', s'.inodes[dir]) == DropKid(node, name)
    ensures Unique(Slots(s', s'.inodes[dir]))
  {
    DirNodeGet(Entries(slots), name);
    FindIsLookup(slots, name);
    SlotsWithoutNode(slots, name);
  }

  /** What the holder of the name looked like, before and after the inode was wiped. */
  lemma HolderSlots(s: Fs, s1: Fs, depth: Depths, dir: nat, c: nat)
    requires TreeOk(s, depth) && LiveDir(s, dir) && c != dir && OthersKeptBut(s, s1, {c})
    ensures Slots(s1, s1.inodes[dir]) == Slots(s, s.inodes[dir]) && Unique(Slots(s, s.inodes[dir]))
    ensures IsDir(Abs(s), dir) && Abs(s)[dir] == DirNodeOf(Entries(Slots(s, s.inodes[dir])))
  {
    assert Kept(s, s1, dir);
    KeptNode(s, s1, dir);
    DotsPresent(s, depth, dir);
  }

  lemma SlotsWithoutNode(slots: seq<Dirent>, name: Name)
    requires Unique(slots) && name != DOT && name != DOTDOT
    ensures Unique(SlotsWithout(slots, name))
    ensures DirNodeOf(Entries(SlotsWithout(slots, name))) == DropKid(DirNodeOf(Entries(slots)), name)
  {
    SlotsWithoutEntries(slots, name);
    DirNodeRemove(Entries(slots), name);
  }

  lemma LeafCutAbs(s: Fs, s1: Fs, s': Fs, depth: Depths, dir: nat, name: Name, c: nat)
    requires IsTree(Abs(s), depth) && Names(Abs(s), dir, name, c) && (IsDir(Abs(s), c) ==> Abs(s)[c].kids == map[])
    requires dir < MAX_INODES && c < MAX_INODES && c != dir && OthersKeptBut(s, s1, {c}) && s1.inodes[c].kind == FREE
    requires OthersKeptBut(s1, s', {dir}) && s'.inodes[dir].kind == DIR
    requires NodeOf(s', s'.inodes[dir]) == DropKid(Abs(s)[dir], name)
    ensures Abs(s') == Prune(Abs(s), depth, dir, name)
  {
    AbsRemove(s, s1, c);
    AbsUpdate(s1, s', dir);
    PruneLeaf(Abs(s), depth, dir, name, c);
  }

  /** Cutting off a leaf takes away one node and one entry. */
  lemma PruneLeaf(t: Tree, depth: Depths, dir: nat, name: Name, c: nat)
    requires IsTree(t, depth) && Names(t, dir, name, c) && (IsDir(t, c) ==> t[c].kids == map[])
    ensures Prune(t, depth, dir, name) == (t - {c})[dir := DropKid(t[dir], name)]
  {
    var p, q := Prune(t, depth, dir, name), (t - {c})[dir := DropKid(t[dir], name)];
    HolderOutside(t, depth, dir, name, c);
    ParentIs(t, depth, dir, name, c);
    forall j: nat ensures (j in p <==> j in q) && (j in q ==> p[j] == q[j]) {
      if j in t { LeafUnder(t, depth, c, j); }
    }
  }
}
