/** What the operations of fs/sfs.c do to the tree of files: the disk stands for a tree, and create, write
    and unlink are inserting, replacing and cutting off a leaf. */
module SfsTree {
  import opened BlockCache
  import opened CStrings
  import opened SfsLayout
  import opened SfsSpec
  import opened SfsBlocks
  import opened DirMap
  import opened FileTree

  function Get(m: map<Name, nat>, n: Name): int
  {
    if n in m then m[n] else -1
  }

  ghost function DirNodeOf(m: map<Name, nat>): (r: Node)
    ensures r.DirNode?
  {
    DirNode(Get(m, DOT), Get(m, DOTDOT), m - {DOT, DOTDOT})
  }

  /** The dots apart, the node has the map's entries. */
  lemma DirNodeGet(m: map<Name, nat>, name: Name)
    requires name != DOT && name != DOTDOT
    ensures name in DirNodeOf(m).kids <==> name in m
    ensures name in m ==> DirNodeOf(m).kids[name] == m[name]
  {
  }

  /** A map with both dots has two entries more than the node has children. */
  lemma DirNodeCount(m: map<Name, nat>)
    requires DOT in m && DOTDOT in m
    ensures |m| == 2 + |DirNodeOf(m).kids|
  {
    var kids := m - {DOT, DOTDOT};
    assert DOT != DOTDOT;
    assert m.Keys == kids.Keys + {DOT, DOTDOT};
    assert |m.Keys| == |kids.Keys| + |{DOT, DOTDOT}|;
  }

  ghost function NodeOf(s: Fs, n: Inode): (r: Node)
    ensures r.DirNode? <==> n.kind == DIR
  {
    if n.kind == DIR then DirNodeOf(Entries(Slots(s, n)))
    else FileNode(BytesOf(s, n.blocks, Min(n.size, BLOCK_SIZE * Lead(n.blocks))))
  }

  /** The tree a disk stands for: one node for each inode in use. */
  ghost function Abs(s: Fs): Tree
  {
    map i | 0 <= i < MAX_INODES && s.inodes[i].kind != FREE :: NodeOf(s, s.inodes[i])
  }

  ghost predicate AllUnique(s: Fs)
  {
    forall i {:trigger Unique(Slots(s, s.inodes[i]))} ::
      0 <= i < MAX_INODES && s.inodes[i].kind == DIR ==> Unique(Slots(s, s.inodes[i]))
  }

  ghost predicate TreeOk(s: Fs, depth: Depths)
  {
    FsOk(s) && AllUnique(s) && IsTree(Abs(s), depth)
  }

  predicate OpenHasTree(s: Fs, k: int) { true }

  /** The disk holds a tree, whatever the depths in it. */
  ghost predicate HasTree(s: Fs)
  {
    forall k {:trigger OpenHasTree(s, k)} :: OpenHasTree(s, k) ==> exists depth :: TreeOk(s, depth)
  }

  lemma HasTreeBy(s: Fs, depth: Depths)
    requires TreeOk(s, depth)
    ensures HasTree(s)
  {
  }

  lemma TreeDepths(s: Fs) returns (depth: Depths)
    requires HasTree(s)
    ensures TreeOk(s, depth)
  {
    assert OpenHasTree(s, 0);
    depth :| TreeOk(s, depth);
  }

  predicate LiveDir(s: Fs, dir: nat)
  {
    dir < MAX_INODES && s.inodes[dir].kind == DIR
  }

  // --- frames --------------------------------------------------------------

  /** Every inode but those in `x` is kept. */
  predicate OthersKeptBut(s: Fs, s': Fs, x: set<nat>)
  {
    forall j {:trigger Kept(s, s', j)} :: 0 <= j < MAX_INODES && j !in x ==> Kept(s, s', j)
  }

  lemma KeptCompose(s: Fs, s': Fs, s'': Fs, x: set<nat>, y: set<nat>)
    requires OthersKeptBut(s, s', x) && OthersKeptBut(s', s'', y)
    ensures OthersKeptBut(s, s'', x + y)
  {
    forall j | 0 <= j < MAX_INODES && j !in x + y ensures Kept(s, s'', j) {
      assert Kept(s, s', j) && Kept(s', s'', j);
    }
  }

  lemma KeptNode(s: Fs, s': Fs, i: nat)
    requires i < MAX_INODES && Kept(s, s', i)
    ensures NodeOf(s', s'.inodes[i]) == NodeOf(s, s.inodes[i])
    ensures Slots(s', s'.inodes[i]) == Slots(s, s.inodes[i])
  {
    var n := s.inodes[i];
    SameSlots(s, s', n);
    SameContent(s, s', n, Min(n.size, BLOCK_SIZE * Lead(n.blocks)));
  }

  /** Lookup on the disk is lookup in the tree. */
  lemma LookupIs(s: Fs, dir: nat, name: Name)
    requires FsOk(s) && LiveDir(s, dir)
    ensures Lookup(s, dir, name) == Get(Entries(Slots(s, s.inodes[dir])), name)
    ensures Lookup(s, dir, name) < MAX_INODES
  {
    FsOkIs(s);
    FindIsLookup(Slots(s, s.inodes[dir]), name);
  }

  /** Node `j` of the tree a disk stands for. */
  lemma AbsAt(s: Fs, j: nat)
    ensures j in Abs(s) <==> j < MAX_INODES && s.inodes[j].kind != FREE
    ensures j in Abs(s) ==> Abs(s)[j] == NodeOf(s, s.inodes[j])
  {
  }

  predicate AgreeAt(t: Tree, t': Tree, i: nat)
  {
    (i in t' <==> i in t) && (i in t ==> t'[i] == t[i])
  }

  lemma SameTrees(t: Tree, t': Tree)
    requires forall i: nat :: AgreeAt(t, t', i)
    ensures t' == t
  {
    assert forall i: nat :: i in t' <==> i in t by {
      forall i: nat ensures i in t' <==> i in t {
        assert AgreeAt(t, t', i);
      }
    }
    forall i: nat | i in t ensures t'[i] == t[i] {
      assert AgreeAt(t, t', i);
    }
  }

  lemma KeptAbs(s: Fs, s': Fs, j: nat)
    requires j < MAX_INODES ==> Kept(s, s', j)
    ensures j in Abs(s') <==> j in Abs(s)
    ensures j in Abs(s) ==> Abs(s')[j] == Abs(s)[j]
  {
    AbsAt(s, j);
    AbsAt(s', j);
    if j < MAX_INODES { KeptNode(s, s', j); }
  }

  /** Changing one inode changes one node. */
  lemma AbsUpdate(s: Fs, s': Fs, i: nat)
    requires i < MAX_INODES && OthersKeptBut(s, s', {i}) && s'.inodes[i].kind != FREE
    ensures Abs(s') == Abs(s)[i := NodeOf(s', s'.inodes[i])]
  {
    var t, t' := Abs(s)[i := NodeOf(s', s'.inodes[i])], Abs(s');
    AbsAt(s', i);
    forall j: nat ensures AgreeAt(t, t', j) {
      if j != i { KeptAbs(s, s', j); }
    }
    SameTrees(t, t');
  }

  lemma AbsRemove(s: Fs, s': Fs, i: nat)
    requires i < MAX_INODES && OthersKeptBut(s, s', {i}) && s'.inodes[i].kind == FREE
    ensures Abs(s') == Abs(s) - {i}
  {
    var t, t' := Abs(s) - {i}, Abs(s');
    AbsAt(s', i);
    forall j: nat ensures AgreeAt(t, t', j) {
      if j != i { KeptAbs(s, s', j); }
    }
    SameTrees(t, t');
  }

  lemma UniqueUpdate(s: Fs, s': Fs, i: nat)
    requires i < MAX_INODES && OthersKeptBut(s, s', {i}) && AllUnique(s)
    requires s'.inodes[i].kind == DIR ==> Unique(Slots(s', s'.inodes[i]))
    ensures AllUnique(s')
  {
    forall j: nat | j < MAX_INODES && s'.inodes[j].kind == DIR ensures Unique(Slots(s', s'.inodes[j])) {
      if j != i {
        assert Kept(s, s', j);
        KeptNode(s, s', j);
      }
    }
  }

  /** In a tree every directory has both dots, so no other entry goes by their names. */
  lemma DotsPresent(s: Fs, depth: Depths, dir: nat)
    requires TreeOk(s, depth) && LiveDir(s, dir)
    ensures var m := Entries(Slots(s, s.inodes[dir]));
            DOT in m && DOTDOT in m && IsDir(Abs(s), dir) && Abs(s)[dir] == DirNodeOf(m)
  {
    AbsAt(s, dir);
    TreeHasDots(Abs(s), depth, dir, Entries(Slots(s, s.inodes[dir])));
  }

  lemma TreeHasDots(t: Tree, depth: Depths, dir: nat, m: map<Name, nat>)
    requires IsTree(t, depth) && IsDir(t, dir) && t[dir] == DirNodeOf(m)
    ensures DOT in m && DOTDOT in m
  {
    IsTreeIs(t, depth);
    if dir != ROOT {
      var d, n :| Names(t, d, n, dir);
    }
  }

  /** A name that lookup does not find is none of the dots and no child's. */
  lemma AbsentIsReal(s: Fs, depth: Depths, dir: nat, n: Name)
    requires TreeOk(s, depth) && LiveDir(s, dir) && Lookup(s, dir, n) < 0
    ensures n != DOT && n != DOTDOT && IsDir(Abs(s), dir) && n !in Abs(s)[dir].kids
  {
    DotsPresent(s, depth, dir);
    FindIsLookup(Slots(s, s.inodes[dir]), n);
    DirNodeGet(Entries(Slots(s, s.inodes[dir])), n);
  }
}
