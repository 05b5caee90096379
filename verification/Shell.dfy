/** The tree walkers of kernel/shell.c, running on the filesystem: resolve, name_of, print_cwd and the
    recursive delete. */
module Shell {
  import opened CStrings
  import opened SfsLayout
  import opened SfsSpec
  import opened FileTree
  import opened SfsTree
  import opened SfsUnlink
  import opened SfsScan
  import opened Sfs
  import opened Paths
  import opened Resolving
  import opened Printing
  import opened RemovalOnDisk
  import opened Listings

  // --- what the walkers see ------------------------------------------------

  /** A walk along a path: the depths of the tree, the path, and where the walk ends. */
  datatype Walking = Walking(depth: Depths, path: Name, end: int)

  predicate OpenHeading(s: Fs, w: Walking, i: nat, comp: Name, cur: int, k: int) { true }

  /** From `cur`, with `comp` collected, the walk ends where it should; behind the trigger. */
  ghost predicate Heading(s: Fs, w: Walking, i: nat, comp: Name, cur: int)
  {
    forall k {:trigger OpenHeading(s, w, i, comp, cur, k)} :: OpenHeading(s, w, i, comp, cur, k) ==>
      TreeOk(s, w.depth) && Leads(Abs(s), w.path, i, comp, cur, w.end)
  }

  lemma HeadingIs(s: Fs, w: Walking, i: nat, comp: Name, cur: int)
    ensures Heading(s, w, i, comp, cur) <==> TreeOk(s, w.depth) && Leads(Abs(s), w.path, i, comp, cur, w.end)
  {
    assert OpenHeading(s, w, i, comp, cur, 0);
  }

  lemma HeadingStarts(s: Fs, depth: Depths, path: Name, start: nat) returns (w: Walking)
    requires Sits(s, depth)
    ensures w.path == path && Heading(s, w, 0, [], start) && Leads(Abs(s), path, 0, [], start, w.end)
  {
    SitsIs(s, depth);
    var end := PathBegins(Abs(s), path, start);
    w := Walking(depth, path, end);
    HeadingIs(s, w, 0, [], start);
  }

  lemma HeadingEnds(s: Fs, w: Walking, i: nat, comp: Name, cur: nat, next: int)
    requires cur < MAX_INODES && Heading(s, w, i, comp, cur) && next == Lookup(s, cur, comp)
    requires i <= |w.path| && (i == |w.path| || w.path[i] == SLASH) && comp != []
    ensures next < MAX_INODES && if next < 0 then w.end == -1 else Heading(s, w, i, [], next)
  {
    HeadingIs(s, w, i, comp, cur);
    HeadingIs(s, w, i, [], next);
    LookupInTree(s, w.depth, cur, comp);
    LookupIsAny(s, cur, comp);
    ComponentEnds(Abs(s), w.path, i, comp, cur, next, w.end);
  }

  lemma LookupIsAny(s: Fs, d: nat, n: Name)
    requires d < MAX_INODES
    ensures Lookup(s, d, n) >= -1
  {
  }

  lemma HeadingOn(s: Fs, w: Walking, i: nat, comp: Name, comp': Name, cur: int)
    requires Heading(s, w, i, comp, cur) && i < |w.path| && (w.path[i] == SLASH ==> comp == [])
    requires comp' == if w.path[i] == SLASH then [] else Collect(comp, w.path[i])
    ensures Heading(s, w, i + 1, comp', cur)
  {
    HeadingIs(s, w, i, comp, cur);
    HeadingIs(s, w, i + 1, comp', cur);
    PathGoesOn(Abs(s), w.path, i, comp, comp', cur, w.end);
  }

  lemma HeadingDone(s: Fs, w: Walking, cur: int)
    requires Heading(s, w, |w.path|, [], cur)
    ensures w.end == cur
  {
    HeadingIs(s, w, |w.path|, [], cur);
    PathEnds(Abs(s), w.path, cur, w.end);
  }

  /** None of the first `i` entries, the dots apart, is for `child`. */
  ghost predicate Passed(l: seq<Dirent>, i: nat, child: int)
  {
    forall j, n {:trigger Listed(l, j, n)} :: Listed(l, j, n) && j < i ==> IsDot(n) || l[j].inum1 - 1 != child
  }

  lemma NothingPassed(l: seq<Dirent>, child: int)
    ensures Passed(l, 0, child)
  {
  }

  lemma PassedMore(l: seq<Dirent>, i: nat, child: int)
    requires Passed(l, i, child) && i < |l| && (IsDot(l[i].name) || l[i].inum1 - 1 != child)
    ensures Passed(l, i + 1, child)
  {
  }

  lemma WalkerMissed(s: Fs, depth: Depths, t: Tree, dir: nat, l: seq<Dirent>, child: nat)
    requires Sits(s, depth) && t == Abs(s) && LiveDir(s, dir) && l == Listing(s, dir) && Passed(l, |l|, child)
    ensures !exists n :: Names(t, dir, n, child)
  {
    SitsIs(s, depth);
    ListingCovers(s, depth, dir);
    NobodyPassed(l, t[dir].kids, child);
  }

  lemma NobodyPassed(l: seq<Dirent>, kids: map<Name, nat>, child: nat)
    requires Covers(l, kids) && Passed(l, |l|, child)
    ensures forall n :: n in kids ==> kids[n] != child
  {
    forall n | n in kids ensures kids[n] != child {
      var i :| Listed(l, i, n);
      assert l[i].inum1 - 1 != child;
    }
  }

  lemma WalkerFound(s: Fs, depth: Depths, t: Tree, dir: nat, l: seq<Dirent>, i: nat, child: nat)
    requires Sits(s, depth) && t == Abs(s) && LiveDir(s, dir) && l == Listing(s, dir) && i < |l|
    requires !IsDot(l[i].name) && l[i].inum1 - 1 == child
    ensures Names(t, dir, l[i].name, child)
  {
    SitsIs(s, depth);
    ListingCovers(s, depth, dir);
    assert Listed(l, i, l[i].name);
  }

  /** The directory above one that is not the root, and the name it goes by there. */
  lemma WalkerClimbs(s: Fs, depth: Depths, t: Tree, cur: nat)
    requires Sits(s, depth) && t == Abs(s) && LiveDir(s, cur) && cur != ROOT
    ensures var up := Lookup(s, cur, DOTDOT);
            0 <= up && LiveDir(s, up) && IsDir(t, up) && exists n :: Names(t, up, n, cur)
  {
    SitsIs(s, depth);
    AbsAt(s, cur);
    LookupInTree(s, depth, cur, DOTDOT);
    DotDotIs(t, depth, cur);
    AbsAt(s, Parent(t, depth, cur));
  }

  lemma ClimbBegins(s: Fs, depth: Depths, cwd: nat)
    requires Sits(s, depth) && LiveDir(s, cwd)
    ensures Climbed(Abs(s), depth, cwd, cwd, [])
  {
    SitsIs(s, depth);
    AbsAt(s, cwd);
    ClimbStarts(Abs(s), depth, cwd);
  }

  /** The first `i` entries are the dots. */
  ghost predicate AllDots(l: seq<Dirent>, i: nat)
  {
    forall j, n {:trigger Listed(l, j, n)} :: Listed(l, j, n) && j < i ==> IsDot(n)
  }

  lemma NoDotsYet(l: seq<Dirent>)
    ensures AllDots(l, 0)
  {
  }

  lemma OneMoreDot(l: seq<Dirent>, i: nat)
    requires AllDots(l, i) && i < |l| && IsDot(l[i].name)
    ensures AllDots(l, i + 1)
  {
  }

  lemma OnlyDots(s: Fs, depth: Depths, dir: nat, l: seq<Dirent>)
    requires Sits(s, depth) && LiveDir(s, dir) && l == Listing(s, dir) && AllDots(l, |l|)
    ensures Kids(s, dir) == map[]
  {
    SitsIs(s, depth);
    ListingCovers(s, depth, dir);
    NoneButDots(l, Abs(s)[dir].kids);
  }

  lemma NoneButDots(l: seq<Dirent>, kids: map<Name, nat>)
    requires Covers(l, kids) && AllDots(l, |l|)
    ensures kids == map[]
  {
    assert forall n :: n in kids ==> !IsDot(n) && IsDot(n);
  }

  class ShellState {
    const fsys: FileSystem
    var cwd: nat

    /** The filesystem is sound and shows what it showed, down to the bytes of every block. */
    twostate predicate Unmoved()
      reads fsys, fsys.cache, fsys.cache.slots
    {
      fsys.Valid() && fsys.fs == old(fsys.fs) && fsys.cache.logical == old(fsys.cache.logical)
    }

    constructor (fsys: FileSystem)
      ensures this.fsys == fsys && cwd == ROOT
    {
      this.fsys := fsys;
      cwd := ROOT;
    }

    /** The lookup that ends a component: the rest of the walk starts where it leads. */
    method Descend(cur: nat, comp: Name, ghost w: Walking, ghost i: nat) returns (next: int)
      requires fsys.Valid() && cur < MAX_INODES && Heading(fsys.fs, w, i, comp, cur)
      requires i <= |w.path| && (i == |w.path| || w.path[i] == SLASH) && comp != []
      modifies fsys, fsys.cache, fsys.cache.slots
      ensures Unmoved() && next < MAX_INODES
      ensures if next < 0 then w.end == -1 else Heading(fsys.fs, w, i, [], next)
    {
      next := fsys.DirLookup(cur, comp);
      HeadingEnds(fsys.fs, w, i, comp, cur, next);
    }

    /** Byte `i` of the path, or its end: a slash or the end looks up what has been collected. */
    method AtByte(path: Name, i: nat, cur: nat, comp: Name, ghost w: Walking) returns (done: bool, r: int, comp': Name)
      requires fsys.Valid() && cur < MAX_INODES && i <= |path| && w.path == path && Heading(fsys.fs, w, i, comp, cur)
      modifies fsys, fsys.cache, fsys.cache.slots
      ensures Unmoved()
      ensures if done then r == w.end else 0 <= r < MAX_INODES && i < |path| && Heading(fsys.fs, w, i + 1, comp', r)
    {
      r, comp' := cur, comp;
      if i == |path| || path[i] == SLASH {
        if comp != [] {
          r := Descend(cur, comp, w, i);
          if r < 0 { return true, -1, []; }
        }
        comp' := [];
        if i == |path| {
          HeadingDone(fsys.fs, w, r);
          return true, r, [];
        }
        HeadingOn(fsys.fs, w, i, [], [], r);
      } else {
        comp' := Collect(comp, path[i]);
        HeadingOn(fsys.fs, w, i, comp, comp', cur);
      }
      done := false;
    }

    /** The loop of resolve. */
    method Follow(path: Name, start: nat, ghost w: Walking) returns (r: int)
      requires fsys.Valid() && start < MAX_INODES && w.path == path && Heading(fsys.fs, w, 0, [], start)
      modifies fsys, fsys.cache, fsys.cache.slots
      ensures Unmoved() && r == w.end
    {
      var cur: nat, comp: Name, i, done := start, [], 0, false;
      while true
        invariant Unmoved() && cur < MAX_INODES && i <= |path|
        invariant Heading(fsys.fs, w, i, comp, cur)
        decreases |path| - i
      {
        done, r, comp := AtByte(path, i, cur, comp, w);
        if done { return r; }
        cur, i := r, i + 1;
      }
    }

    /** resolve: an absolute path from the root, any other from the current directory. */
    method Resolve(path: Name, ghost depth: Depths) returns (r: int)
      requires fsys.Valid() && Sits(fsys.fs, depth) && cwd < MAX_INODES
      modifies fsys, fsys.cache, fsys.cache.slots
      ensures Unmoved()
      ensures Leads(Abs(fsys.fs), path, 0, [], if path != [] && path[0] == SLASH then ROOT else cwd, r)
    {
      var start := if path != [] && path[0] == SLASH then ROOT else cwd;
      ghost var w := HeadingStarts(fsys.fs, depth, path, start);
      r := Follow(path, start, w);
    }

    /** name_of: the name `child` goes by in `parent`, the dots apart. */
    method NameOf(parent: nat, child: nat, ghost depth: Depths) returns (found: bool, name: Name)
      requires fsys.Valid() && Sits(fsys.fs, depth) && LiveDir(fsys.fs, parent)
      modifies fsys, fsys.cache, fsys.cache.slots
      ensures Unmoved()
      ensures found <==> exists n :: Names(Abs(fsys.fs), parent, n, child)
      ensures found ==> Names(Abs(fsys.fs), parent, name, child)
    {
      ghost var t, l := Abs(fsys.fs), Listing(fsys.fs, parent);
      var i := 0;
      NothingPassed(l, child);
      while true
        invariant Unmoved() && i <= |l| && Passed(l, i, child)
        decreases |l| - i
      {
        var ino, nm := fsys.Readdir(parent, i);
        if ino < 0 {
          WalkerMissed(fsys.fs, depth, t, parent, l, child);
          return false, [];
        }
        if ino == child && nm != DOT && nm != DOTDOT {
          WalkerFound(fsys.fs, depth, t, parent, l, i, child);
          return true, nm;
        }
        PassedMore(l, i, child);
        i := i + 1;
      }
    }

    /** One step up: the parent of a directory and the name it goes by there. In a tree neither lookup fails. */
    method Above(cur: nat, ghost depth: Depths) returns (parent: int, name: Name)
      requires fsys.Valid() && Sits(fsys.fs, depth) && LiveDir(fsys.fs, cur) && cur != ROOT
      modifies fsys, fsys.cache, fsys.cache.slots
      ensures Unmoved()
      ensures 0 <= parent && LiveDir(fsys.fs, parent) && Names(Abs(fsys.fs), parent, name, cur)
    {
      parent := fsys.DirLookup(cur, DOTDOT);
      WalkerClimbs(fsys.fs, depth, Abs(fsys.fs), cur);
      var found;
      found, name := NameOf(parent, cur, depth);
    }

    /** The climb of print_cwd. */
    method Climb(ghost depth: Depths) returns (parts: seq<Name>, ghost top: nat)
      requires fsys.Valid() && Sits(fsys.fs, depth) && LiveDir(fsys.fs, cwd) && cwd != ROOT
      modifies fsys, fsys.cache, fsys.cache.slots
      ensures Unmoved()
      ensures Climbed(Abs(fsys.fs), depth, cwd, top, parts) && (top == ROOT || |parts| == MAX_PARTS)
    {
      ghost var t := Abs(fsys.fs);
      parts := [];
      var cur: nat := cwd;
      ClimbBegins(fsys.fs, depth, cwd);
      while cur != ROOT && |parts| < MAX_PARTS
        invariant Unmoved() && LiveDir(fsys.fs, cur)
        invariant Climbed(t, depth, cwd, cur, parts)
        decreases MAX_PARTS - |parts|
      {
        var parent, name := Above(cur, depth);
        ClimbGoesOn(t, depth, cwd, cur, parts, parent, name);
        parts := parts + [name];
        cur := parent;
      }
      top := cur;
    }
  
    /** print_cwd. */
    method PrintCwd(ghost depth: Depths) returns (text: Name)
      requires fsys.Valid() && Sits(fsys.fs, depth) && LiveDir(fsys.fs, cwd)
      modifies fsys, fsys.cache, fsys.cache.slots
      ensures Unmoved()
      ensures Prints(fsys.fs, depth, cwd, text)
    {
      if cwd == ROOT {
        RootPrints(fsys.fs, depth);
        return [SLASH];
      }
      var parts, top := Climb(depth);
      text := PrintParts(parts);
      PartsPrint(fsys.fs, depth, cwd, top, parts);
    }

    /** The scan of rm_rec for the first entry other than the dots. */
    method FirstChild(dir: nat, ghost depth: Depths) returns (found: bool, name: Name)
      requires fsys.Valid() && Sits(fsys.fs, depth) && LiveDir(fsys.fs, dir)
      modifies fsys, fsys.cache, fsys.cache.slots
      ensures Unmoved()
      ensures if found then !IsDot(name) && name in Kids(fsys.fs, dir) else Kids(fsys.fs, dir) == map[]
    {
      ghost var t, l := Abs(fsys.fs), Listing(fsys.fs, dir);
      var i := 0;
      NoDotsYet(l);
      while true
        invariant Unmoved() && i <= |l| && AllDots(l, i)
        decreases |l| - i
      {
        var ino, nm := fsys.Readdir(dir, i);
        if ino < 0 {
          OnlyDots(fsys.fs, depth, dir, l);
          return false, [];
        }
        if nm != DOT && nm != DOTDOT {
          WalkerFound(fsys.fs, depth, t, dir, l, i, ino);
          return true, nm;
        }
        OneMoreDot(l, i);
        i := i + 1;
      }
    }

    /** rm_rec: the entry goes, with the whole subtree below it and nothing else. */
    method RmRec(parent: nat, name: Name, ghost depth: Depths) returns (r: int)
      requires fsys.Valid() && Sits(fsys.fs, depth) && LiveDir(fsys.fs, parent) && !IsDot(name)
      modifies fsys, fsys.cache, fsys.cache.slots
      ensures fsys.Valid() && fsys.SameSuper()
      ensures if name in Kids(old(fsys.fs), parent) then r == 0 && Cut(old(fsys.fs), fsys.fs, depth, parent, name)
              else r == -1 && fsys.fs == old(fsys.fs)
      decreases Doomed(fsys.fs, depth, parent, name)
    {
      ghost var s0 := fsys.fs;
      RmFinds(s0, depth, parent, name);
      var ino := fsys.DirLookup(parent, name);
      if ino < 0 { return -1; }
      var node := fsys.ReadInode(ino);
      if node.kind == DIR {
        RmStarts(s0, depth, ino);
        EmptyDir(parent, name, ino, s0, depth);
        RmHolder(s0, depth, parent, name, ino, fsys.fs);
        RmReady(s0, depth, ino, fsys.fs);
        ghost var s := fsys.fs;
        r := fsys.Unlink(parent, name);
        RmLeaf(s, LeftDepths(s, depth), parent, name, fsys.fs, r);
        RmEnds(s0, depth, parent, name, ino, s, fsys.fs);
      } else {
        r := fsys.Unlink(parent, name);
        RmFile(s0, depth, parent, name, ino, fsys.fs, r);
      }
    }

    /** `rm -r` in the current directory with the sync that ends each command, and then a reboot: what is mounted is the
        filesystem without the subtree, and the current directory is still there. */
    method RmAndReboot(name: Name, ghost depth: Depths) returns (r: int)
      requires fsys.Valid() && HasMagic(fsys.cache.logical) && Sits(fsys.fs, depth) && LiveDir(fsys.fs, cwd)
      requires !IsDot(name)
      modifies fsys, fsys.cache, fsys.cache.slots
      ensures fsys.Valid() && HasMagic(fsys.cache.logical) && IsDir(Abs(fsys.fs), cwd)
      ensures if name in Kids(old(fsys.fs), cwd) then r == 0 && Cut(old(fsys.fs), fsys.fs, depth, cwd, name)
              else r == -1 && fsys.fs == old(fsys.fs)
    {
      ghost var s := fsys.fs;
      r := RmRec(cwd, name, depth);
      HolderStays(s, fsys.fs, depth, cwd, name);
      fsys.SyncAndReboot();
    }

    /** The restarting scan of rm_rec. */
    method EmptyDir(ghost parent: nat, ghost name: Name, ino: nat, ghost s0: Fs, ghost depth: Depths)
      requires fsys.Valid() && fsys.fs == s0 && name in Kids(s0, parent) && Kids(s0, parent)[name] == ino
      requires Trimming(s0, depth, ino, s0)
      modifies fsys, fsys.cache, fsys.cache.slots
      ensures fsys.Valid() && fsys.SameSuper() && Trimming(s0, depth, ino, fsys.fs) && Kids(fsys.fs, ino) == map[]
      decreases Doomed(s0, depth, parent, name), 0
    {
      while true
        invariant fsys.Valid() && fsys.SameSuper() && Trimming(s0, depth, ino, fsys.fs)
        decreases Kids(fsys.fs, ino).Keys
      {
        ghost var s := fsys.fs;
        RmReady(s0, depth, ino, s);
        var found, nm := FirstChild(ino, LeftDepths(s, depth));
        if !found { break; }
        RmShrinks(s0, depth, parent, name, ino, s, nm);
        var _ := RmRec(ino, nm, LeftDepths(s, depth));
        RmGoesOn(s0, depth, ino, s, fsys.fs, nm);
      }
    }
  }

  lemma HolderStays(s: Fs, s': Fs, depth: Depths, dir: nat, name: Name)
    requires LiveDir(s, dir) && (s' == s || Cut(s, s', depth, dir, name))
    ensures IsDir(Abs(s'), dir)
  {
    AbsAt(s, dir);
    if s' != s { CutKeeps(s, s', depth, dir, name, dir); }
  }

  lemma RmFile(s: Fs, depth: Depths, dir: nat, name: Name, c: nat, s': Fs, r: int)
    requires Sits(s, depth) && LiveDir(s, dir) && !IsDot(name)
    requires name in Kids(s, dir) && Kids(s, dir)[name] == c < MAX_INODES && s.inodes[c].kind != DIR
    requires UnlinkStep(s, dir, name, s', r)
    ensures r == 0 && Cut(s, s', depth, dir, name)
  {
    AbsAt(s, c);
    RmLeaf(s, depth, dir, name, s', r);
  }

  // --- printing and resolving ----------------------------------------------

  /** `text` is the path of `cwd`, as far as print_cwd prints it. */
  ghost predicate Prints(s: Fs, depth: Depths, cwd: nat, text: Name)
  {
    TreeOk(s, depth) && cwd in Abs(s) && text == CwdText(Abs(s), depth, cwd)
  }

  lemma RootPrints(s: Fs, depth: Depths)
    requires Sits(s, depth)
    ensures Prints(s, depth, ROOT, [SLASH])
  {
    SitsIs(s, depth);
  }

  lemma PartsPrint(s: Fs, depth: Depths, cwd: nat, top: nat, parts: seq<Name>)
    requires Sits(s, depth) && cwd != ROOT
    requires Climbed(Abs(s), depth, cwd, top, parts) && (top == ROOT || |parts| == MAX_PARTS)
    ensures Prints(s, depth, cwd, Printed(parts, |parts|))
  {
    SitsIs(s, depth);
    ClimbEnds(Abs(s), depth, cwd, top, parts);
  }

  /** What print_cwd printed for `cwd` resolves, from any directory, to `cwd` if and only if `cwd` is at most
      sixteen levels down and no name on its path is empty or holds a slash. */
  lemma PrintThenResolveIff(s: Fs, depth: Depths, cwd: nat, text: Name, from: nat, r: int)
    requires Prints(s, depth, cwd, text)
    requires Leads(Abs(s), text, 0, [], if text != [] && text[0] == SLASH then ROOT else from, r)
    ensures r == cwd <==> depth[cwd] <= MAX_PARTS && GoodPath(Abs(s), depth, cwd)
  {
    DiskNamesProper(s, depth);
    TextIsAbsolute(Abs(s), depth, cwd, text);
    PrintedLeadsIff(Abs(s), depth, cwd, text, r);
  }
}
