/** Inputs on which the code falls short of what one would expect of it, built up from a formatted disk. */
module Witnesses {
  import opened Bytes
  import opened BlockCache
  import opened CStrings
  import opened SfsLayout
  import opened SfsSpec
  import opened FileTree
  import opened SfsTree
  import opened SfsCreate
  import opened SfsRuns
  import opened Paths
  import opened Resolving
  import opened Listings
  import opened Shell

  predicate OpenCreates(s: Fs, name: Name, kind: U32, s': Fs, r: int, k: int) { true }

  /** sfs_create in the root, behind its key. */
  ghost predicate Creates(s: Fs, name: Name, kind: U32, s': Fs, r: int)
  {
    forall k {:trigger OpenCreates(s, name, kind, s', r, k)} ::
      OpenCreates(s, name, kind, s', r, k) ==> CreateStep(s, ROOT, name, kind, s', r)
  }

  lemma CreatesIs(s: Fs, name: Name, kind: U32, s': Fs, r: int)
    ensures Creates(s, name, kind, s', r) <==> CreateStep(s, ROOT, name, kind, s', r)
  {
    assert OpenCreates(s, name, kind, s', r, 0);
  }

  /** A tree of one directory without children. */
  predicate Lone(t: Tree)
  {
    IsDir(t, ROOT) && t[ROOT].kids == map[] && t.Keys == {ROOT}
  }

  /** A disk with an empty root. */
  ghost predicate EmptyDisk(s: Fs, depth: Depths)
  {
    TreeOk(s, depth) && LiveDir(s, ROOT) && Lone(Abs(s))
  }

  /** A formatted disk is one. */
  lemma FormattedIsEmpty(data: seq<Block>, s: Fs)
    requires Formatted(data, s)
    ensures EmptyDisk(s, map[ROOT := 0])
  {
    FormatOk(data, s);
    LoneRoot(Abs(s));
    AbsAt(s, ROOT);
  }

  lemma LoneRoot(t: Tree)
    requires t == LONE_ROOT
    ensures Lone(t)
  {
  }

  /** As long as some inode is not in the tree, there is one to allocate. */
  lemma InodeLeft(s: Fs, i: nat)
    requires i < MAX_INODES && i !in Abs(s)
    ensures FirstFreeInode(s.inodes) < MAX_INODES
  {
    AbsAt(s, i);
  }

  lemma RootLacks(s: Fs, depth: Depths, name: Name)
    requires TreeOk(s, depth) && LiveDir(s, ROOT) && Lone(Abs(s)) && name != DOT && name != DOTDOT
    ensures Lookup(s, ROOT, name) < 0
  {
    LookupInTree(s, depth, ROOT, name);
  }

  /** Creating a child in an empty root. */
  lemma FirstChild(s: Fs, depth: Depths, name: Name, kind: U32, s1: Fs, r: int)
    requires EmptyDisk(s, depth) && (kind == FILE || kind == DIR) && Creates(s, name, kind, s1, r)
    requires |name| <= NAME_MAX && name != DOT && name != DOTDOT
    ensures 0 < r < MAX_INODES && LiveDir(s1, ROOT) && ROOT in depth && TreeOk(s1, depth[r := depth[ROOT] + 1])
    ensures OneChild(Abs(s1), name, r)
  {
    NotRefused(s, depth, name);
    CreatedChild(s, depth, name, kind, s1, r);
    assert Stored(name) == name;
    InsertedOne(Abs(s), name, r, FreshNode(kind, r, ROOT));
  }

  lemma CreatedChild(s: Fs, depth: Depths, name: Name, kind: U32, s1: Fs, r: int)
    requires TreeOk(s, depth) && LiveDir(s, ROOT) && (kind == FILE || kind == DIR) && Creates(s, name, kind, s1, r)
    requires !Refused(s, ROOT, name) && FreshStored(s, ROOT, name)
    ensures 0 <= r < MAX_INODES && LiveDir(s1, ROOT) && Inserted(s, s1, depth, ROOT, Stored(name), r, kind)
  {
    CreatesIs(s, name, kind, s1, r);
    CreateOk(s, ROOT, name, kind, s1, r);
    CreateInserts(s, depth, ROOT, name, kind, s1, r);
  }

  lemma NotRefused(s: Fs, depth: Depths, name: Name)
    requires EmptyDisk(s, depth) && |name| <= NAME_MAX && name != DOT && name != DOTDOT
    ensures !Refused(s, ROOT, name) && FreshStored(s, ROOT, name)
  {
    RootLacks(s, depth, name);
    InodeLeft(s, 1);
    ShortNamesAreFresh(s, ROOT, name);
  }

  lemma InsertedOne(t: Tree, name: Name, c: nat, node: Node)
    requires Lone(t) && c !in t
    ensures OneChild(Insert(t, ROOT, name, c, node), name, c)
  {
  }

  /** The root has one child, `c`, and there is nothing else. */
  predicate OneChild(t: Tree, name: Name, c: nat)
  {
    IsDir(t, ROOT) && t[ROOT].kids == map[name := c] && t.Keys == {ROOT, c}
  }

  /** A name longer than its slot is looked up in full but stored cut to 27 bytes: with an entry of the cut name
      there already, sfs_create makes a second one, and the directory is no finite map any more. */
  lemma LongNameDuplicates(s: Fs, depth: Depths, dir: nat, name: Name, kind: U32, s': Fs, r: int)
    requires TreeOk(s, depth) && LiveDir(s, dir) && (kind == FILE || kind == DIR)
    requires CreateStep(s, dir, name, kind, s', r)
    requires Lookup(s, dir, name) < 0 <= Lookup(s, dir, Stored(name)) && FirstFreeInode(s.inodes) < MAX_INODES
    ensures LiveDir(s', dir) && Twice(Slots(s', s'.inodes[dir]), Stored(name)) && !HasTree(s')
  {
    CreateDuplicates(s, depth, dir, name, kind, s', r);
    TwiceNoTree(s', dir, Stored(name));
  }

  /** On an empty disk: a file with a name of 27 bytes, then one whose name has a byte more. */
  lemma TwoLongNames(s: Fs, depth: Depths, name: Name, long: Name, kind: U32, s1: Fs, r1: int, s2: Fs, r2: int)
    requires EmptyDisk(s, depth) && (kind == FILE || kind == DIR)
    requires |name| == NAME_MAX && |long| == |name| + 1 && long[..NAME_MAX] == name
    requires Creates(s, name, kind, s1, r1) && Creates(s1, long, kind, s2, r2)
    ensures HasTree(s1) && !HasTree(s2) && LiveDir(s2, ROOT) && Twice(Slots(s2, s2.inodes[ROOT]), name)
  {
    FirstChild(s, depth, name, kind, s1, r1);
    HasTreeBy(s1, depth[r1 := depth[ROOT] + 1]);
    SecondChild(s1, depth[r1 := depth[ROOT] + 1], name, r1, long, kind, s2, r2);
  }

  lemma SecondChild(s: Fs, depth: Depths, name: Name, c: nat, long: Name, kind: U32, s': Fs, r: int)
    requires TreeOk(s, depth) && LiveDir(s, ROOT) && OneChild(Abs(s), name, c) && (kind == FILE || kind == DIR)
    requires |name| == NAME_MAX && |long| == |name| + 1 && long[..NAME_MAX] == name && Creates(s, long, kind, s', r)
    ensures !HasTree(s') && LiveDir(s', ROOT) && Twice(Slots(s', s'.inodes[ROOT]), name)
  {
    OneByteMore(s, depth, name, c, long);
    EitherOut(Abs(s), c, 1, 2);
    AnotherInode(s, 1, 2);
    CreatesIs(s, long, kind, s', r);
    assert Stored(long) == name;
    LongNameDuplicates(s, depth, ROOT, long, kind, s', r);
  }

  lemma EitherOut(t: Tree, c: nat, i: nat, j: nat)
    requires t.Keys == {ROOT, c} && ROOT < i < j
    ensures i !in t || j !in t
  {
  }

  lemma AnotherInode(s: Fs, i: nat, j: nat)
    requires i < MAX_INODES && j < MAX_INODES && (i !in Abs(s) || j !in Abs(s))
    ensures FirstFreeInode(s.inodes) < MAX_INODES
  {
    if i in Abs(s) { InodeLeft(s, j); } else { InodeLeft(s, i); }
  }

  lemma OneByteMore(s: Fs, depth: Depths, name: Name, c: nat, long: Name)
    requires TreeOk(s, depth) && LiveDir(s, ROOT) && OneChild(Abs(s), name, c)
    requires |name| == NAME_MAX && |long| == |name| + 1 && long[..NAME_MAX] == name
    ensures Lookup(s, ROOT, long) < 0 <= Lookup(s, ROOT, Stored(long))
  {
    assert Stored(long) == name;
    LookupInTree(s, depth, ROOT, name);
    LookupInTree(s, depth, ROOT, long);
  }

  /** A directory whose name holds a slash: sfs_create accepts it, and the path that print_cwd prints for it leads
      somewhere else or nowhere. */
  lemma SlashInName(s: Fs, depth: Depths, name: Name, kind: U32, s1: Fs, dir: int, text: Name, from: nat, r: int)
    requires EmptyDisk(s, depth) && kind == DIR && Creates(s, name, kind, s1, dir)
    requires |name| <= NAME_MAX && SLASH in name
    requires dir >= 0 && ROOT in depth && Prints(s1, depth[dir := depth[ROOT] + 1], dir, text)
    requires Leads(Abs(s1), text, 0, [], if text != [] && text[0] == SLASH then ROOT else from, r)
    ensures r != dir
  {
    FirstChild(s, depth, name, kind, s1, dir);
    BadPath(Abs(s1), depth[dir := depth[ROOT] + 1], name, dir);
    PrintThenResolveIff(s1, depth[dir := depth[ROOT] + 1], dir, text, from, r);
  }

  lemma BadPath(t: Tree, depth: Depths, name: Name, c: nat)
    requires IsTree(t, depth) && OneChild(t, name, c) && SLASH in name
    ensures c in t && !GoodPath(t, depth, c)
  {
    NameInIs(t, depth, ROOT, name, c);
  }
}
