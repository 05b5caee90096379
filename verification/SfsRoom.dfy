/** Why the directories of a tree never fill: 64 inodes have at most 64 names, and a directory has 224 slots. */
module SfsRoom {
  import opened CStrings
  import opened SfsLayout
  import opened SfsSpec
  import opened SfsEntries
  import opened DirMap
  import opened FileTree
  import opened SfsTree

  lemma LiveCount(slots: seq<Dirent>)
    requires Unique(slots)
    ensures |Live(slots)| == |Entries(slots)|
  {
    DenotesEntries(slots);
    LiveLists(slots, Entries(slots));
  }

  /** "More than two entries" is exactly "has a child". */
  lemma CountsChildren(s: Fs, depth: Depths, c: nat)
    requires TreeOk(s, depth) && LiveDir(s, c)
    ensures IsDir(Abs(s), c) && |Live(Slots(s, s.inodes[c]))| == 2 + |Abs(s)[c].kids|
  {
    var slots := Slots(s, s.inodes[c]);
    assert Unique(slots);
    DotsPresent(s, depth, c);
    LiveCount(slots);
    DirNodeCount(Entries(slots));
  }

  /** Names of different inodes below `n` are at most `n`. */
  lemma {:induction false} FewNames(kids: map<Name, nat>, n: nat)
    requires forall k :: k in kids ==> kids[k] < n
    requires forall k, m :: k in kids && m in kids && kids[k] == kids[m] ==> k == m
    ensures |kids| <= n
  {
    if n == 0 {
      assert kids == map[];
    } else if k :| k in kids && kids[k] == n - 1 {
      var rest := kids - {k};
      FewNames(rest, n - 1);
      assert kids.Keys == rest.Keys + {k};
      assert |kids.Keys| == |rest.Keys| + 1;
    } else {
      FewNames(kids, n - 1);
    }
  }

  /** No directory of a tree has more children than there are inodes. */
  lemma FewChildren(s: Fs, depth: Depths, dir: nat)
    requires TreeOk(s, depth) && IsDir(Abs(s), dir)
    ensures |Abs(s)[dir].kids| <= MAX_INODES
  {
    var t := Abs(s);
    var kids := t[dir].kids;
    forall k | k in kids ensures kids[k] < MAX_INODES {
      ParentIs(t, depth, dir, k, kids[k]);
      AbsAt(s, kids[k]);
    }
    forall k, m | k in kids && m in kids && kids[k] == kids[m] ensures k == m {
      NamedByOne(t, depth, dir, k, dir, m, kids[k]);
    }
    FewNames(kids, MAX_INODES);
  }

  lemma {:induction false} AllLive(slots: seq<Dirent>, n: nat)
    requires n <= |slots| && forall k :: 0 <= k < n ==> slots[k].inum1 != 0
    ensures |LiveIn(slots, n)| == n
  {
    if n > 0 { AllLive(slots, n - 1); }
  }

  /** dir_add on a directory of a tree never fails. */
  lemma TreeHasRoom(s: Fs, depth: Depths, dir: nat)
    requires TreeOk(s, depth) && LiveDir(s, dir)
    ensures HasRoom(s, dir)
  {
    var slots := Slots(s, s.inodes[dir]);
    CountsChildren(s, depth, dir);
    FewChildren(s, depth, dir);
    if FindHole(slots) == |slots| { AllLive(slots, |slots|); }
  }
}
