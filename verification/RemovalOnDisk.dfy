/** The recursive delete on disk images: between two removals of a child, the image is the original one with
    some subtrees of the doomed directory cut off. */
module RemovalOnDisk {
  import opened CStrings
  import opened SfsLayout
  import opened SfsSpec
  import opened SfsBlocks
  import opened FileTree
  import opened SfsTree
  import opened SfsUnlink
  import opened Removal
  import opened Listings

  /** Inodes that left the tree are wiped, the others are as they were. */
  ghost predicate Wiped(s0: Fs, s: Fs, t0: Tree, t: Tree)
  {
    forall i :: 0 <= i < MAX_INODES ==> s.inodes[i] == if i in t0 && i !in t then Blank(FREE) else s0.inodes[i]
  }

  lemma WipedTwice(s0: Fs, s: Fs, s': Fs, t0: Tree, t: Tree, t': Tree)
    requires Wiped(s0, s, t0, t) && Wiped(s, s', t, t') && t'.Keys <= t.Keys <= t0.Keys
    ensures Wiped(s0, s', t0, t')
  {
  }

  ghost predicate TrimmedDisk(s0: Fs, depth: Depths, c: nat, s: Fs, t0: Tree, t: Tree)
  {
    t0 == Abs(s0) && t == Abs(s) && Trimmed(t0, depth, c, t) && TreeOk(s, Restrict(depth, t)) && Wiped(s0, s, t0, t)
  }

  predicate OpenTrimming(s0: Fs, depth: Depths, c: nat, s: Fs, k: int) { true }

  /** The loop of rm_rec over directory `c`, behind the trigger. */
  ghost predicate Trimming(s0: Fs, depth: Depths, c: nat, s: Fs)
  {
    forall k {:trigger OpenTrimming(s0, depth, c, s, k)} :: OpenTrimming(s0, depth, c, s, k) ==>
      TrimmedDisk(s0, depth, c, s, Abs(s0), Abs(s))
  }

  lemma TrimmingIs(s0: Fs, depth: Depths, c: nat, s: Fs, t0: Tree, t: Tree)
    requires t0 == Abs(s0) && t == Abs(s)
    ensures Trimming(s0, depth, c, s) <==> TrimmedDisk(s0, depth, c, s, t0, t)
  {
    assert OpenTrimming(s0, depth, c, s, 0);
  }

  lemma TrimmingStarts(s0: Fs, depth: Depths, c: nat, t0: Tree)
    requires t0 == Abs(s0) && TreeOk(s0, depth) && IsDir(t0, c)
    ensures Trimming(s0, depth, c, s0) && Restrict(depth, t0) == depth
  {
    TrimmedStart(t0, depth, c);
    TrimmingIs(s0, depth, c, s0, t0, t0);
  }

  predicate OpenCut(s: Fs, s': Fs, depth: Depths, dir: nat, name: Name, k: int) { true }

  /** `s'` is `s` without the entry `name` of `c` and all below it. */
  ghost predicate Cut(s: Fs, s': Fs, depth: Depths, dir: nat, name: Name)
  {
    forall k {:trigger OpenCut(s, s', depth, dir, name, k)} :: OpenCut(s, s', depth, dir, name, k) ==>
      Pruned(s, s', depth, dir, name)
  }

  lemma CutIs(s: Fs, s': Fs, depth: Depths, dir: nat, name: Name)
    ensures Cut(s, s', depth, dir, name) <==> Pruned(s, s', depth, dir, name)
  {
    assert OpenCut(s, s', depth, dir, name, 0);
  }

  lemma TrimmingGoesOn(s0: Fs, depth: Depths, c: nat, s: Fs, s': Fs, name: Name, t0: Tree, t: Tree, t': Tree,
        dt: Depths)
    requires t0 == Abs(s0) && t == Abs(s) && t' == Abs(s') && t.Keys <= depth.Keys && dt == Restrict(depth, t)
    requires Trimming(s0, depth, c, s) && Cut(s, s', dt, c, name)
    ensures Trimming(s0, depth, c, s') && IsDir(t, c) && IsDir(t', c) && t'[c].kids == t[c].kids - {name}
    ensures t'.Keys <= depth.Keys && name in t[c].kids
  {
    TrimmingIs(s0, depth, c, s, t0, t);
    TrimmingIs(s0, depth, c, s', t0, t');
    CutIs(s, s', dt, c, name);
    TrimmedMore(t0, depth, c, t, name);
    RestrictTwice(depth, t, t');
    WipedTwice(s0, s, s', t0, t, t');
  }

  lemma TrimmingEnds(s0: Fs, depth: Depths, c: nat, s: Fs, s': Fs, dir: nat, name: Name, t0: Tree, t: Tree, t': Tree,
        dt: Depths)
    requires t0 == Abs(s0) && t == Abs(s) && t' == Abs(s') && t.Keys <= depth.Keys && dt == Restrict(depth, t)
    requires Trimming(s0, depth, c, s) && Cut(s, s', dt, dir, name) && Names(t0, dir, name, c)
    ensures Cut(s0, s', depth, dir, name)
  {
    TrimmingIs(s0, depth, c, s, t0, t);
    TrimmedEnd(t0, depth, dir, name, c, t);
    CutIs(s, s', dt, dir, name);
    assert t' == Prune(t, dt, dir, name) && TreeOk(s', Restrict(dt, t'));
    RestrictTwice(depth, t, t');
    WipedTwice(s0, s, s', t0, t, t');
    CutBy(s0, s', depth, dir, name, t0, t');
  }

  lemma CutBy(s0: Fs, s': Fs, depth: Depths, dir: nat, name: Name, t0: Tree, t': Tree)
    requires t0 == Abs(s0) && t' == Abs(s') && IsTree(t0, depth) && IsDir(t0, dir) && name in t0[dir].kids
    requires t' == Prune(t0, depth, dir, name) && TreeOk(s', Restrict(depth, t')) && Wiped(s0, s', t0, t')
    ensures Cut(s0, s', depth, dir, name)
  {
    CutIs(s0, s', depth, dir, name);
  }

  // --- the steps of rm_rec -------------------------------------------------

  predicate OpenSits(s: Fs, depth: Depths, k: int) { true }

  /** The tree on disk, behind the trigger: code that walks it calls the lemmas that need it. */
  ghost predicate Sits(s: Fs, depth: Depths)
  {
    forall k {:trigger OpenSits(s, depth, k)} :: OpenSits(s, depth, k) ==> TreeOk(s, depth)
  }

  lemma SitsIs(s: Fs, depth: Depths)
    ensures Sits(s, depth) <==> TreeOk(s, depth)
  {
    assert OpenSits(s, depth, 0);
  }

  ghost function Kids(s: Fs, d: nat): map<Name, nat>
  {
    if IsDir(Abs(s), d) then Abs(s)[d].kids else map[]
  }

  /** The depths of the nodes that are left. */
  ghost function LeftDepths(s: Fs, depth: Depths): Depths
  {
    if Abs(s).Keys <= depth.Keys then Restrict(depth, Abs(s)) else map[]
  }

  /** What removing the entry removes. */
  ghost function Doomed(s: Fs, depth: Depths, dir: nat, name: Name): set<nat>
  {
    if name in Kids(s, dir) && IsTree(Abs(s), depth) then Subtree(Abs(s), depth, Kids(s, dir)[name]) else {}
  }

  lemma RmFinds(s: Fs, depth: Depths, dir: nat, name: Name)
    requires Sits(s, depth) && LiveDir(s, dir) && !IsDot(name)
    ensures Lookup(s, dir, name) < MAX_INODES
    ensures Lookup(s, dir, name) >= 0 <==> name in Kids(s, dir)
    ensures name in Kids(s, dir) ==> Kids(s, dir)[name] == Lookup(s, dir, name)
  {
    SitsIs(s, depth);
    LookupInTree(s, depth, dir, name);
    ListingCovers(s, depth, dir);
  }

  lemma RmStarts(s: Fs, depth: Depths, c: nat)
    requires Sits(s, depth) && LiveDir(s, c)
    ensures Trimming(s, depth, c, s)
  {
    SitsIs(s, depth);
    AbsAt(s, c);
    TrimmingStarts(s, depth, c, Abs(s));
  }

  lemma RmReady(s0: Fs, depth: Depths, c: nat, s: Fs)
    requires Trimming(s0, depth, c, s)
    ensures Sits(s, LeftDepths(s, depth)) && LiveDir(s, c)
  {
    TrimmingIs(s0, depth, c, s, Abs(s0), Abs(s));
    AbsAt(s, c);
    SitsIs(s, Restrict(depth, Abs(s)));
  }

  lemma RmShrinks(s0: Fs, depth: Depths, dir: nat, name: Name, c: nat, s: Fs, n: Name)
    requires Trimming(s0, depth, c, s) && name in Kids(s0, dir) && Kids(s0, dir)[name] == c && n in Kids(s, c)
    ensures Doomed(s, LeftDepths(s, depth), c, n) < Doomed(s0, depth, dir, name)
  {
    TrimmingIs(s0, depth, c, s, Abs(s0), Abs(s));
    SubtreeShrinks(Abs(s0), depth, c, Abs(s), n);
  }

  lemma RmGoesOn(s0: Fs, depth: Depths, c: nat, s: Fs, s': Fs, n: Name)
    requires Trimming(s0, depth, c, s) && Cut(s, s', LeftDepths(s, depth), c, n)
    ensures Trimming(s0, depth, c, s') && Kids(s', c).Keys < Kids(s, c).Keys
  {
    TrimmingIs(s0, depth, c, s, Abs(s0), Abs(s));
    TrimmingGoesOn(s0, depth, c, s, s', n, Abs(s0), Abs(s), Abs(s'), LeftDepths(s, depth));
  }

  lemma RmHolder(s0: Fs, depth: Depths, dir: nat, name: Name, c: nat, s: Fs)
    requires Trimming(s0, depth, c, s) && name in Kids(s0, dir) && Kids(s0, dir)[name] == c
    ensures LiveDir(s, dir) && name in Kids(s, dir) && Kids(s, dir)[name] == c
  {
    TrimmingIs(s0, depth, c, s, Abs(s0), Abs(s));
    TrimmedEnd(Abs(s0), depth, dir, name, c, Abs(s));
    AbsAt(s, dir);
  }

  /** unlink removes a leaf. */
  lemma RmLeaf(s: Fs, depth: Depths, dir: nat, name: Name, s': Fs, r: int)
    requires Sits(s, depth) && LiveDir(s, dir) && !IsDot(name)
    requires name in Kids(s, dir) && Kids(s, Kids(s, dir)[name]) == map[]
    requires UnlinkStep(s, dir, name, s', r)
    ensures r == 0 && Cut(s, s', depth, dir, name)
  {
    SitsIs(s, depth);
    UnlinkPrunes(s, depth, dir, name, s', r);
    CutIs(s, s', depth, dir, name);
  }

  lemma RmEnds(s0: Fs, depth: Depths, dir: nat, name: Name, c: nat, s: Fs, s': Fs)
    requires Trimming(s0, depth, c, s) && name in Kids(s0, dir) && Kids(s0, dir)[name] == c
    requires Cut(s, s', LeftDepths(s, depth), dir, name)
    ensures Cut(s0, s', depth, dir, name)
  {
    TrimmingIs(s0, depth, c, s, Abs(s0), Abs(s));
    TrimmingEnds(s0, depth, c, s, s', dir, name, Abs(s0), Abs(s), Abs(s'), LeftDepths(s, depth));
  }

  /** Nothing but the subtree goes: the directory it was in, whatever lies outside, and the root stay. */
  lemma CutKeeps(s: Fs, s': Fs, depth: Depths, dir: nat, name: Name, i: nat)
    requires Cut(s, s', depth, dir, name)
    ensures name in Kids(s, dir) && IsTree(Abs(s), depth)
    ensures i in Abs(s') <==> i in Abs(s) && i !in Doomed(s, depth, dir, name)
    ensures i in Abs(s') && i != dir ==> Abs(s')[i] == Abs(s)[i]
    ensures IsDir(Abs(s'), dir) && Kids(s', dir) == Kids(s, dir) - {name}
  {
    CutIs(s, s', depth, dir, name);
    PruneKeeps(Abs(s), depth, dir, name, Abs(s'), i);
  }

  lemma PruneKeeps(t: Tree, depth: Depths, dir: nat, name: Name, t': Tree, i: nat)
    requires IsTree(t, depth) && IsDir(t, dir) && name in t[dir].kids && t' == Prune(t, depth, dir, name)
    ensures i in t' <==> i in t && i !in Subtree(t, depth, t[dir].kids[name])
    ensures i in t' && i != dir ==> t'[i] == t[i]
    ensures IsDir(t', dir) && t'[dir].kids == t[dir].kids - {name}
  {
    HolderOutside(t, depth, dir, name, t[dir].kids[name]);
  }

  ghost predicate OwnedIn(inodes: seq<Inode>, gone: set<nat>, p: int)
  {
    exists i, b :: Owns(inodes, i, b, p) && i in gone
  }

  lemma WipingFrees(inodes: seq<Inode>, used: seq<bool>, inodes': seq<Inode>, used': seq<bool>, gone: set<nat>, p: int)
    requires Accounted(inodes, used) && Accounted(inodes', used') && IsDataBlock(p)
    requires forall i :: 0 <= i < MAX_INODES ==> inodes'[i] == if i in gone then Blank(FREE) else inodes[i]
    ensures used'[p - DATA_START] <==> used[p - DATA_START] && !OwnedIn(inodes, gone, p)
  {
    if used'[p - DATA_START] {
      var i, b :| Owns(inodes', i, b, p);
      assert i !in gone && Owns(inodes, i, b, p);
    }
    if used[p - DATA_START] && !OwnedIn(inodes, gone, p) {
      var i, b :| Owns(inodes, i, b, p);
      assert i !in gone && Owns(inodes', i, b, p);
    }
  }

  /** Exactly the inodes of the subtree are wiped and exactly their data blocks are given back. */
  lemma CutFrees(s: Fs, s': Fs, depth: Depths, dir: nat, name: Name, i: nat, p: int)
    requires FsOk(s) && Cut(s, s', depth, dir, name) && i < MAX_INODES && IsDataBlock(p)
    ensures s'.inodes[i] == if i in Doomed(s, depth, dir, name) then Blank(FREE) else s.inodes[i]
    ensures s'.used[p - DATA_START]
            <==> s.used[p - DATA_START] && !OwnedIn(s.inodes, Doomed(s, depth, dir, name), p)
  {
    var gone := Doomed(s, depth, dir, name);
    CutWipes(s, s', depth, dir, name, gone);
    FsOkIs(s);
    FsOkIs(s');
    WipingFrees(s.inodes, s.used, s'.inodes, s'.used, gone, p);
  }

  lemma CutWipes(s: Fs, s': Fs, depth: Depths, dir: nat, name: Name, gone: set<nat>)
    requires Cut(s, s', depth, dir, name) && gone == Doomed(s, depth, dir, name)
    ensures FsOk(s')
    ensures forall j :: 0 <= j < MAX_INODES ==> s'.inodes[j] == if j in gone then Blank(FREE) else s.inodes[j]
  {
    CutIs(s, s', depth, dir, name);
    var t, t' := Abs(s), Abs(s');
    assert Wiped(s, s', t, t');
    forall j: nat | j < MAX_INODES ensures j in t && j !in t' <==> j in gone {
      PruneKeeps(t, depth, dir, name, t', j);
    }
    WipedIs(s, s', t, t', gone);
  }

  lemma WipedIs(s: Fs, s': Fs, t: Tree, t': Tree, gone: set<nat>)
    requires Wiped(s, s', t, t') && forall j: nat :: j < MAX_INODES ==> (j in t && j !in t' <==> j in gone)
    ensures forall j :: 0 <= j < MAX_INODES ==> s'.inodes[j] == if j in gone then Blank(FREE) else s.inodes[j]
  {
  }
}
