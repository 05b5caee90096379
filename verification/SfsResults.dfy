/** What sfs_create and sfs_unlink return, in terms of the tree and the inode table alone. */
module SfsResults {
  import opened Bytes
  import opened CStrings
  import opened SfsLayout
  import opened SfsSpec
  import opened FileTree
  import opened SfsTree
  import opened SfsCreate
  import opened SfsUnlink
  import opened Paths
  import opened Listings
  import opened Witnesses

  /** Every inode of the table is in use. */
  predicate TableFull(inodes: seq<Inode>)
  {
    forall i :: 0 <= i < |inodes| ==> inodes[i].kind != FREE
  }

  /** The directory has an entry of the name, the dots included. */
  predicate HasName(t: Tree, dir: nat, name: Name)
  {
    IsDir(t, dir) && (name in t[dir].kids || name == DOT || name == DOTDOT)
  }

  lemma LookupFinds(s: Fs, depth: Depths, dir: nat, name: Name)
    requires TreeOk(s, depth) && dir < MAX_INODES
    ensures Lookup(s, dir, name) >= 0 <==> HasName(Abs(s), dir, name)
  {
    LookupInTree(s, depth, dir, name);
    if IsDir(Abs(s), dir) { DotDotIs(Abs(s), depth, dir); }
  }

  /** sfs_create fails, changing nothing, if and only if the directory has the name already or every inode is in use.
      Otherwise it takes the first free inode, and a name that fits its slot is a new child of the directory. */
  lemma CreateResult(s: Fs, depth: Depths, dir: nat, name: Name, kind: U32, s': Fs, r: int)
    requires TreeOk(s, depth) && LiveDir(s, dir) && (kind == FILE || kind == DIR)
    requires CreateStep(s, dir, name, kind, s', r)
    ensures r == -1 <==> HasName(Abs(s), dir, name) || TableFull(s.inodes)
    ensures r == -1 ==> s' == s
    ensures r != -1 ==> FreshFirst(s.inodes, r)
    ensures r != -1 && |name| <= NAME_MAX ==> Inserted(s, s', depth, dir, name, r, kind)
  {
    RefusedIff(s, depth, dir, name);
    if !Refused(s, dir, name) { CreateSucceeds(s, depth, dir, name, kind, s', r); }
  }

  lemma RefusedIff(s: Fs, depth: Depths, dir: nat, name: Name)
    requires TreeOk(s, depth) && LiveDir(s, dir)
    ensures Refused(s, dir, name) <==> HasName(Abs(s), dir, name) || TableFull(s.inodes)
    ensures !Refused(s, dir, name) ==> FreshFirst(s.inodes, FirstFreeInode(s.inodes))
  {
    LookupFinds(s, depth, dir, name);
  }

  /** The first inode that is free. */
  predicate FreshFirst(inodes: seq<Inode>, r: int)
  {
    0 <= r < |inodes| && inodes[r].kind == FREE && forall i :: 0 <= i < r ==> inodes[i].kind != FREE
  }

  lemma CreateSucceeds(s: Fs, depth: Depths, dir: nat, name: Name, kind: U32, s': Fs, r: int)
    requires TreeOk(s, depth) && LiveDir(s, dir) && (kind == FILE || kind == DIR)
    requires CreateStep(s, dir, name, kind, s', r) && !Refused(s, dir, name)
    ensures r == FirstFreeInode(s.inodes)
    ensures |name| <= NAME_MAX ==> Inserted(s, s', depth, dir, name, r, kind)
  {
    var s2 := CreateReady(s, depth, dir, name, kind, s', r);
    if |name| <= NAME_MAX {
      ShortNamesAreFresh(s, dir, name);
      assert Stored(name) == name;
      CreateInserts(s, depth, dir, name, kind, s', r);
    }
  }

  /** The name is a child that is a file, or a directory without children. */
  predicate Removable(t: Tree, dir: nat, name: Name)
  {
    && IsDir(t, dir) && name in t[dir].kids
    && !(IsDir(t, t[dir].kids[name]) && t[t[dir].kids[name]].kids != map[])
  }

  /** sfs_unlink succeeds if and only if the name is a child that is a file or a directory without children, and then
      cuts off exactly that child. Otherwise it returns -1 and nothing changes. */
  lemma UnlinkResult(s: Fs, depth: Depths, dir: nat, name: Name, s': Fs, r: int)
    requires TreeOk(s, depth) && dir < MAX_INODES && UnlinkStep(s, dir, name, s', r)
    ensures r == 0 <==> Removable(Abs(s), dir, name)
    ensures r == 0 ==> Pruned(s, s', depth, dir, name)
    ensures r != 0 ==> r == -1 && s' == s
  {
    AbsAt(s, dir);
    if IsDir(Abs(s), dir) && name in Abs(s)[dir].kids {
      DotsAreNoKids(s, depth, dir, name);
      UnlinkPrunes(s, depth, dir, name, s', r);
    } else {
      UnlinkMisses(s, depth, dir, name, s', r);
    }
  }

  lemma UnlinkMisses(s: Fs, depth: Depths, dir: nat, name: Name, s': Fs, r: int)
    requires TreeOk(s, depth) && dir < MAX_INODES && UnlinkStep(s, dir, name, s', r)
    requires !(IsDir(Abs(s), dir) && name in Abs(s)[dir].kids)
    ensures r == -1 && s' == s
  {
    LookupFinds(s, depth, dir, name);
  }

  lemma DotsAreNoKids(s: Fs, depth: Depths, dir: nat, name: Name)
    requires TreeOk(s, depth) && IsDir(Abs(s), dir) && name in Abs(s)[dir].kids
    ensures name != DOT && name != DOTDOT
  {
    DiskNamesProper(s, depth);
    assert Names(Abs(s), dir, name, Abs(s)[dir].kids[name]);
  }

  // --- a directory just made -----------------------------------------------

  /** Creating in a directory that was created just before succeeds, as long as an inode is free. */
  lemma CreateInNewDirectory(s: Fs, depth: Depths, dir: nat, a: Name, s1: Fs, d: int, b: Name, kind: U32, s2: Fs,
        r: int)
    requires TreeOk(s, depth) && LiveDir(s, dir) && |a| <= NAME_MAX && Makes(s, dir, a, DIR, s1, d) && d != -1
    requires |b| <= NAME_MAX && b != DOT && b != DOTDOT && (kind == FILE || kind == DIR)
    requires 0 <= d < MAX_INODES && Makes(s1, d, b, kind, s2, r) && !TableFull(s1.inodes)
    ensures 0 <= r < MAX_INODES && IsDir(Abs(s2), d) && Abs(s2)[d].kids == map[b := r] && r in Abs(s2)
  {
    var depth1 := Made(s, depth, dir, a, DIR, s1, d);
    AbsAt(s1, d);
    var depth2 := Made(s1, depth1, d, b, kind, s2, r);
  }

  predicate OpenMakes(s: Fs, dir: nat, name: Name, kind: U32, s': Fs, r: int, k: int) { true }

  /** A step of sfs_create, behind its key. */
  ghost predicate Makes(s: Fs, dir: nat, name: Name, kind: U32, s': Fs, r: int)
  {
    dir < MAX_INODES && forall k {:trigger OpenMakes(s, dir, name, kind, s', r, k)} ::
      OpenMakes(s, dir, name, kind, s', r, k) ==> CreateStep(s, dir, name, kind, s', r)
  }

  lemma Made(s: Fs, depth: Depths, dir: nat, name: Name, kind: U32, s': Fs, r: int) returns (depth': Depths)
    requires TreeOk(s, depth) && LiveDir(s, dir) && (kind == FILE || kind == DIR) && |name| <= NAME_MAX
    requires Makes(s, dir, name, kind, s', r)
    requires r != -1 || (!HasName(Abs(s), dir, name) && !TableFull(s.inodes))
    ensures 0 <= r < MAX_INODES && TreeOk(s', depth') && IsDir(Abs(s), dir) && r !in Abs(s)
    ensures Abs(s') == Insert(Abs(s), dir, name, r, FreshNode(kind, r, dir))
  {
    assert OpenMakes(s, dir, name, kind, s', r, 0);
    CreateResult(s, depth, dir, name, kind, s', r);
    depth' := depth[r := depth[dir] + 1];
  }

  /** On an empty disk: `mkdir a` makes inode 1, and creating in it makes inode 2. */
  lemma FirstTwoInodes(s: Fs, depth: Depths, a: Name, s1: Fs, d: int, b: Name, kind: U32, s2: Fs, r: int)
    requires EmptyDisk(s, depth) && |a| <= NAME_MAX && a != DOT && a != DOTDOT && Makes(s, ROOT, a, DIR, s1, d)
    requires |b| <= NAME_MAX && b != DOT && b != DOTDOT && (kind == FILE || kind == DIR)
    requires d >= 0 ==> Makes(s1, d, b, kind, s2, r)
    ensures d == 1 && r == 2 && IsDir(Abs(s2), d) && Abs(s2)[d].kids == map[b := r]
  {
    var depth1 := FirstInode(s, depth, ROOT, a, DIR, s1, d, 1);
    SecondInode(s1, depth1, ROOT, d, b, kind, s2, r, 2);
  }

  lemma FirstInode(s: Fs, depth: Depths, root: nat, a: Name, kind: U32, s1: Fs, d: int, one: nat)
    returns (depth1: Depths)
    requires EmptyDisk(s, depth) && |a| <= NAME_MAX && a != DOT && a != DOTDOT && Makes(s, root, a, kind, s1, d)
    requires root == ROOT && kind == DIR && one == ROOT + 1
    ensures d == one && TreeOk(s1, depth1) && LiveDir(s1, d) && NewDir(Abs(s1), root, d)
  {
    LoneBelow(Abs(s), one);
    NotFull(s, one);
    depth1 := Made(s, depth, root, a, kind, s1, d);
    MadeFirst(s, depth, root, a, kind, s1, d, one);
    DirInserted(Abs(s), root, a, d, Abs(s1));
    AbsAt(s1, d);
  }

  lemma SecondInode(s1: Fs, depth1: Depths, root: nat, d: nat, b: Name, kind: U32, s2: Fs, r: int, two: nat)
    requires TreeOk(s1, depth1) && LiveDir(s1, d) && NewDir(Abs(s1), root, d)
    requires root == ROOT && d == ROOT + 1 && two == d + 1
    requires |b| <= NAME_MAX && b != DOT && b != DOTDOT && (kind == FILE || kind == DIR) && Makes(s1, d, b, kind, s2, r)
    ensures r == two && IsDir(Abs(s2), d) && Abs(s2)[d].kids == map[b := r]
  {
    NewDirBelow(Abs(s1), root, d, b, two);
    NotFull(s1, two);
    var depth2 := Made(s1, depth1, d, b, kind, s2, r);
    MadeFirst(s1, depth1, d, b, kind, s2, r, two);
    OnlyKid(Abs(s1), root, d, b, r, FreshNode(kind, r, d), Abs(s2));
  }

  /** The root, and one directory without children. */
  predicate NewDir(t: Tree, root: nat, d: nat)
  {
    t.Keys == {root, d} && IsDir(t, d) && t[d].kids == map[]
  }

  predicate Below(t: Tree, i: nat)
  {
    i !in t && forall k: nat :: k < i ==> k in t
  }

  lemma LoneBelow(t: Tree, one: nat)
    requires Lone(t) && one == ROOT + 1
    ensures Below(t, one)
  {
  }

  lemma NewDirBelow(t: Tree, root: nat, d: nat, b: Name, two: nat)
    requires NewDir(t, root, d) && root == ROOT && d == ROOT + 1 && two == d + 1 && b != DOT && b != DOTDOT
    ensures Below(t, two) && !HasName(t, d, b)
  {
  }

  lemma DirInserted(t: Tree, root: nat, a: Name, d: nat, t': Tree)
    requires Lone(t) && root == ROOT && d !in t && t' == Insert(t, root, a, d, FreshNode(DIR, d, root))
    ensures NewDir(t', root, d)
  {
  }

  lemma OnlyKid(t: Tree, root: nat, d: nat, b: Name, c: nat, node: Node, t': Tree)
    requires NewDir(t, root, d) && c !in t && t' == Insert(t, d, b, c, node)
    ensures IsDir(t', d) && t'[d].kids == map[b := c]
  {
  }

  lemma NotFull(s: Fs, i: nat)
    requires i < MAX_INODES && i !in Abs(s)
    ensures !TableFull(s.inodes)
  {
    AbsAt(s, i);
  }

  /** The inodes below `i` are in use and `i` is not: it is the next. */
  lemma MadeFirst(s: Fs, depth: Depths, dir: nat, name: Name, kind: U32, s': Fs, r: int, i: nat)
    requires TreeOk(s, depth) && LiveDir(s, dir) && (kind == FILE || kind == DIR) && Makes(s, dir, name, kind, s', r)
    requires r != -1 && i < MAX_INODES && Below(Abs(s), i)
    ensures r == i
  {
    assert OpenMakes(s, dir, name, kind, s', r, 0);
    CreateResult(s, depth, dir, name, kind, s', r);
    AbsAt(s, i);
    if 0 <= r < i { AbsAt(s, r); }
  }
}
