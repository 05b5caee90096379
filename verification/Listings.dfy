/** What readdir and lookup tell about the tree on disk. */
module Listings {
  import opened CStrings
  import opened SfsLayout
  import opened SfsSpec
  import opened DirMap
  import opened FileTree
  import opened SfsTree
  import opened SfsScan
  import opened Paths

  predicate IsDot(n: Name)
  {
    n == DOT || n == DOTDOT
  }

  predicate Listed(l: seq<Dirent>, i: int, n: Name)
  {
    0 <= i < |l| && l[i].name == n
  }

  /** The dots apart, a listing holds the children and nothing else. */
  ghost predicate Covers(l: seq<Dirent>, kids: map<Name, nat>)
  {
    && (forall i, n :: Listed(l, i, n) && !IsDot(n) ==> n in kids && kids[n] == l[i].inum1 - 1)
    && (forall n :: n in kids ==> !IsDot(n) && exists i :: Listed(l, i, n))
  }

  lemma LiveCovers(slots: seq<Dirent>)
    requires Unique(slots)
    ensures Covers(Live(slots), DirNodeOf(Entries(slots)).kids)
  {
    DenotesEntries(slots);
    LiveLists(slots, Entries(slots));
    forall n | n in Entries(slots) ensures exists i :: Listed(Live(slots), i, n) {
      EntryListed(slots, n);
    }
    ListsCovers(Live(slots), Entries(slots));
  }

  lemma ListsCovers(l: seq<Dirent>, m: map<Name, nat>)
    requires Lists(l, m) && forall n :: n in m ==> exists i :: Listed(l, i, n)
    ensures Covers(l, DirNodeOf(m).kids)
  {
  }

  lemma EntryListed(slots: seq<Dirent>, n: Name)
    requires n in Entries(slots)
    ensures exists i :: Listed(Live(slots), i, n)
  {
    FindIsLookup(slots, n);
    var k := FindName(slots, n);
    LiveAt(slots, k, |slots|);
    assert Listed(Live(slots), |LiveIn(slots, k)|, n);
  }

  lemma ListingCovers(s: Fs, depth: Depths, dir: nat)
    requires TreeOk(s, depth) && LiveDir(s, dir)
    ensures IsDir(Abs(s), dir) && Covers(Listing(s, dir), Abs(s)[dir].kids)
  {
    DotsPresent(s, depth, dir);
    LiveCovers(Slots(s, s.inodes[dir]));
  }

  /** Lookup on the disk is lookup in the tree, the dots included. */
  lemma LookupInTree(s: Fs, depth: Depths, d: nat, n: Name)
    requires TreeOk(s, depth) && d < MAX_INODES
    ensures Lookup(s, d, n) == TreeLookup(Abs(s), d, n) && Lookup(s, d, n) < MAX_INODES
  {
    AbsAt(s, d);
    if LiveDir(s, d) {
      LookupIs(s, d, n);
      DotsPresent(s, depth, d);
      GetTree(Abs(s), Entries(Slots(s, s.inodes[d])), d, n);
    }
  }

  lemma GetTree(t: Tree, m: map<Name, nat>, d: nat, n: Name)
    requires d in t && t[d] == DirNodeOf(m)
    ensures TreeLookup(t, d, n) == Get(m, n)
  {
  }

  /** The names of a tree on disk fit their slots and are not the dots. */
  lemma DiskNamesProper(s: Fs, depth: Depths)
    requires TreeOk(s, depth)
    ensures ProperNames(Abs(s))
  {
    forall d, n, c | Names(Abs(s), d, n, c) ensures |n| <= COMP_MAX && n != DOT && n != DOTDOT {
      AbsAt(s, d);
      ListingCovers(s, depth, d);
      var i :| Listed(Listing(s, d), i, n);
      ListedInode(s, d, i);
    }
  }
}
