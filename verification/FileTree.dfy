/** The tree of files and directories as a value: nodes by inode number, what it means to be one tree
    hanging from the root, and what inserting a node and cutting off a subtree do to it. */
module FileTree {
  import opened Bytes
  import opened CStrings
  import opened SfsLayout
  import opened SfsSpec

  /** A directory keeps what "." and ".." name (-1 if missing) apart from its other entries. */
  datatype Node = FileNode(content: seq<Byte>) | DirNode(dot: int, dotdot: int, kids: map<Name, nat>)
  type Tree = map<nat, Node>
  type Depths = map<nat, nat>

  predicate IsDir(t: Tree, d: int)
  {
    d in t && t[d].DirNode?
  }

  /** Directory `d` holds the entry `n` for `c`. */
  predicate Names(t: Tree, d: nat, n: Name, c: nat)
  {
    IsDir(t, d) && n in t[d].kids && t[d].kids[n] == c
  }

  /** "." is the directory itself, and the root is its own parent. */
  ghost predicate DotsOk(t: Tree)
  {
    && IsDir(t, ROOT) && t[ROOT].dotdot == ROOT
    && (forall d :: IsDir(t, d) ==> t[d].dot == d)
  }

  /** Names lead one level down, to a node whose ".." (if it is a directory) leads back. */
  ghost predicate Placed(t: Tree, depth: Depths)
  {
    && depth.Keys == t.Keys && ROOT in depth && depth[ROOT] == 0
    && (forall d, n, c :: Names(t, d, n, c) ==>
          c in t && c != ROOT && depth[c] == depth[d] + 1 && (t[c].DirNode? ==> t[c].dotdot == d))
  }

  ghost predicate NamedOnce(t: Tree)
  {
    && (forall c :: c in t && c != ROOT ==> exists d, n :: Names(t, d, n, c))
    && (forall d, n, d', n', c :: Names(t, d, n, c) && Names(t, d', n', c) ==> d == d' && n == n')
  }

  /** Every node but the root is named exactly once, by a directory one level up, which its ".." names.
      Since every name leads one level down, there are no cycles and every node hangs from the root. */
  ghost predicate TreeShape(t: Tree, depth: Depths)
  {
    DotsOk(t) && Placed(t, depth) && NamedOnce(t)
  }

  predicate OpenIsTree(t: Tree, depth: Depths, k: int) { true }

  /** The same, behind the trigger: a proof that needs the shape asks for it with IsTreeIs. */
  ghost predicate IsTree(t: Tree, depth: Depths)
  {
    depth.Keys == t.Keys && ROOT in t && forall k {:trigger OpenIsTree(t, depth, k)} :: OpenIsTree(t, depth, k) ==>
      TreeShape(t, depth)
  }

  lemma IsTreeIs(t: Tree, depth: Depths)
    ensures IsTree(t, depth) <==> TreeShape(t, depth)
  {
    assert OpenIsTree(t, depth, 0);
  }

  // --- parents and subtrees ------------------------------------------------

  ghost function Parent(t: Tree, depth: Depths, c: nat): (d: nat)
    requires IsTree(t, depth) && c in t && c != ROOT
    ensures exists n :: Names(t, d, n, c)
    ensures d in t && depth[d] + 1 == depth[c]
  {
    IsTreeIs(t, depth);
    var d, n :| Names(t, d, n, c);
    d
  }

  lemma ParentIs(t: Tree, depth: Depths, d: nat, n: Name, c: nat)
    requires IsTree(t, depth) && Names(t, d, n, c)
    ensures c in t && c != ROOT && d in t && depth[c] == depth[d] + 1 && Parent(t, depth, c) == d
    ensures t[c].DirNode? ==> t[c].dotdot == d
  {
    IsTreeIs(t, depth);
  }

  lemma RootIs(t: Tree, depth: Depths)
    requires IsTree(t, depth)
    ensures IsDir(t, ROOT) && t[ROOT].dotdot == ROOT && depth[ROOT] == 0
  {
    IsTreeIs(t, depth);
  }

  /** Node `i` lies in the subtree of `top`. */
  ghost predicate Under(t: Tree, depth: Depths, top: nat, i: nat)
    requires IsTree(t, depth) && i in t
    decreases depth[i]
  {
    i == top || (i != ROOT && Under(t, depth, top, Parent(t, depth, i)))
  }

  ghost function Subtree(t: Tree, depth: Depths, top: nat): set<nat>
    requires IsTree(t, depth)
  {
    set i | i in t && Under(t, depth, top, i)
  }

  lemma {:induction false} UnderDepth(t: Tree, depth: Depths, top: nat, i: nat)
    requires IsTree(t, depth) && i in t && Under(t, depth, top, i)
    ensures top in t && depth[top] <= depth[i]
    ensures i != top ==> depth[top] < depth[i]
    decreases depth[i]
  {
    if i != top { UnderDepth(t, depth, top, Parent(t, depth, i)); }
  }

  lemma {:induction false} UnderTransitive(t: Tree, depth: Depths, a: nat, b: nat, i: nat)
    requires IsTree(t, depth) && i in t && b in t && Under(t, depth, a, b) && Under(t, depth, b, i)
    ensures Under(t, depth, a, i)
    decreases depth[i]
  {
    if i != b { UnderTransitive(t, depth, a, b, Parent(t, depth, i)); }
  }

  /** Every node hangs from the root. */
  lemma {:induction false} AllUnderRoot(t: Tree, depth: Depths, i: nat)
    requires IsTree(t, depth) && i in t
    ensures Under(t, depth, ROOT, i)
    decreases depth[i]
  {
    if i != ROOT { AllUnderRoot(t, depth, Parent(t, depth, i)); }
  }

  /** The directory holding a node is not in the node's subtree, nor is the root. */
  lemma HolderOutside(t: Tree, depth: Depths, dir: nat, name: Name, c: nat)
    requires IsTree(t, depth) && Names(t, dir, name, c)
    ensures !Under(t, depth, c, dir) && !Under(t, depth, c, ROOT)
  {
    IsTreeIs(t, depth);
    if Under(t, depth, c, dir) { UnderDepth(t, depth, c, dir); }
  }

  // --- inserting a node ----------------------------------------------------

  function FreshNode(kind: U32, ino: nat, dir: nat): Node
  {
    if kind == DIR then DirNode(ino, dir, map[]) else FileNode([])
  }

  function Insert(t: Tree, dir: nat, name: Name, ino: nat, node: Node): Tree
    requires IsDir(t, dir)
  {
    t[dir := t[dir].(kids := t[dir].kids[name := ino])][ino := node]
  }

  lemma InsertIsTree(t: Tree, depth: Depths, dir: nat, name: Name, ino: nat, kind: U32)
    requires IsTree(t, depth) && IsDir(t, dir) && name !in t[dir].kids && ino !in t
    ensures IsTree(Insert(t, dir, name, ino, FreshNode(kind, ino, dir)), depth[ino := depth[dir] + 1])
  {
    var t' := Insert(t, dir, name, ino, FreshNode(kind, ino, dir));
    forall d, n, c
      ensures Names(t', d, n, c) <==> Names(t, d, n, c) || (d == dir && n == name && c == ino)
    {
      InsertNames(t, dir, name, ino, kind, d, n, c);
    }
    Grafted(t, depth, t', depth[ino := depth[dir] + 1], dir, name, ino);
  }

  /** One leaf and one name more. */
  lemma Grafted(t: Tree, depth: Depths, t': Tree, depth': Depths, dir: nat, name: Name, ino: nat)
    requires IsTree(t, depth) && IsDir(t, dir) && ino !in t && t'.Keys == t.Keys + {ino} && IsDir(t', dir)
    requires forall d, n, c :: Names(t', d, n, c) <==> Names(t, d, n, c) || (d == dir && n == name && c == ino)
    requires forall i {:trigger t'[i]} :: i in t ==> SameFrame(t[i], t'[i])
    requires t'[ino].DirNode? ==> t'[ino].dot == ino && t'[ino].dotdot == dir
    requires depth' == depth[ino := depth[dir] + 1]
    ensures IsTree(t', depth')
  {
    IsTreeIs(t, depth);
    IsTreeIs(t', depth');
    InsertDots(t, t', ino);
    InsertPlaced(t, depth, t', depth', dir, name, ino);
    InsertNamedOnce(t, t', dir, name, ino);
  }

  /** Same kind and same dots. */
  predicate SameFrame(a: Node, b: Node)
  {
    (a.DirNode? <==> b.DirNode?) && (a.DirNode? ==> b.dot == a.dot && b.dotdot == a.dotdot)
  }

  lemma InsertNames(t: Tree, dir: nat, name: Name, ino: nat, kind: U32, d: nat, n: Name, c: nat)
    requires IsDir(t, dir) && name !in t[dir].kids && ino !in t
    ensures Names(Insert(t, dir, name, ino, FreshNode(kind, ino, dir)), d, n, c)
            <==> Names(t, d, n, c) || (d == dir && n == name && c == ino)
  {
  }

  lemma InsertDots(t: Tree, t': Tree, ino: nat)
    requires DotsOk(t) && ino !in t && t'.Keys == t.Keys + {ino}
    requires forall i {:trigger t'[i]} :: i in t ==> SameFrame(t[i], t'[i])
    requires t'[ino].DirNode? ==> t'[ino].dot == ino
    ensures DotsOk(t')
  {
  }

  lemma InsertPlaced(t: Tree, depth: Depths, t': Tree, depth': Depths, dir: nat, name: Name, ino: nat)
    requires Placed(t, depth) && dir in t && ino !in t
    requires t'.Keys == t.Keys + {ino} && depth' == depth[ino := depth[dir] + 1]
    requires forall d, n, c :: Names(t', d, n, c) <==> Names(t, d, n, c) || (d == dir && n == name && c == ino)
    requires forall i {:trigger t'[i]} :: i in t ==> SameFrame(t[i], t'[i])
    requires t'[ino].DirNode? ==> t'[ino].dotdot == dir
    ensures Placed(t', depth')
  {
  }

  lemma InsertNamedOnce(t: Tree, t': Tree, dir: nat, name: Name, ino: nat)
    requires NamedOnce(t) && t'.Keys == t.Keys + {ino} && ino !in t
    requires forall d, n, c :: Names(t, d, n, c) ==> c in t
    requires forall d, n, c :: Names(t', d, n, c) <==> Names(t, d, n, c) || (d == dir && n == name && c == ino)
    ensures NamedOnce(t')
  {
    assert Names(t', dir, name, ino);
    forall c | c in t' && c != ROOT ensures exists d, n :: Names(t', d, n, c) {
      if c != ino {
        var d, n :| Names(t, d, n, c);
        assert Names(t', d, n, c);
      }
    }
  }

  // --- keeping a part of the tree ------------------------------------------

  ghost function Restrict(depth: Depths, t: Tree): Depths
    requires t.Keys <= depth.Keys
  {
    map i | i in t :: depth[i]
  }

  /** `t'` has some of the nodes of `t`, each of the same kind and with the same dots, and the names for them. */
  ghost predicate PartOf(t: Tree, t': Tree)
  {
    && ROOT in t' && t'.Keys <= t.Keys && (forall i {:trigger t'[i]} :: i in t' ==> SameFrame(t[i], t'[i]))
    && (forall d, n, c :: Names(t', d, n, c) <==> Names(t, d, n, c) && c in t')
  }

  lemma PartIsTree(t: Tree, depth: Depths, t': Tree)
    requires IsTree(t, depth) && PartOf(t, t')
    ensures IsTree(t', Restrict(depth, t'))
  {
    IsTreeIs(t, depth);
    IsTreeIs(t', Restrict(depth, t'));
    PartDots(t, t');
    PartPlaced(t, depth, t');
    PartNamedOnce(t, t');
  }

  lemma PartDots(t: Tree, t': Tree)
    requires DotsOk(t) && PartOf(t, t')
    ensures DotsOk(t')
  {
  }

  lemma PartPlaced(t: Tree, depth: Depths, t': Tree)
    requires Placed(t, depth) && PartOf(t, t')
    ensures Placed(t', Restrict(depth, t'))
  {
    forall d, n, c | Names(t', d, n, c)
      ensures c in t' && c != ROOT && depth[c] == depth[d] + 1 && (t'[c].DirNode? ==> t'[c].dotdot == d)
    {
      assert Names(t, d, n, c);
    }
  }

  lemma PartNamedOnce(t: Tree, t': Tree)
    requires NamedOnce(t) && PartOf(t, t')
    ensures NamedOnce(t')
  {
    forall c | c in t' && c != ROOT ensures exists d, n :: Names(t', d, n, c) {
      var d, n :| Names(t, d, n, c);
      assert Names(t', d, n, c);
    }
  }

  // --- changing a file's bytes ---------------------------------------------

  lemma ReplaceLeaf(t: Tree, depth: Depths, ino: nat, content: seq<Byte>)
    requires IsTree(t, depth) && ino in t && t[ino].FileNode?
    ensures IsTree(t[ino := FileNode(content)], depth)
  {
    var t' := t[ino := FileNode(content)];
    forall d, n, c ensures Names(t', d, n, c) <==> Names(t, d, n, c) && c in t' {
      if Names(t, d, n, c) { ParentIs(t, depth, d, n, c); }
    }
    PartIsTree(t, depth, t');
    assert Restrict(depth, t') == depth;
  }

  // --- cutting off a subtree -----------------------------------------------

  /** Without the entry `name` of `dir` and everything below it. */
  ghost function Prune(t: Tree, depth: Depths, dir: nat, name: Name): Tree
    requires IsTree(t, depth) && IsDir(t, dir) && name in t[dir].kids
  {
    map i | i in t && !Under(t, depth, t[dir].kids[name], i) ::
      if i == dir then t[dir].(kids := t[dir].kids - {name}) else t[i]
  }

  lemma PruneNames(t: Tree, depth: Depths, dir: nat, name: Name, d: nat, n: Name, c: nat)
    requires IsTree(t, depth) && IsDir(t, dir) && name in t[dir].kids
    ensures var t' := Prune(t, depth, dir, name);
            Names(t', d, n, c) <==> Names(t, d, n, c) && c in t'
  {
    var top := t[dir].kids[name];
    assert Names(t, dir, name, top);
    if Names(t, d, n, c) {
      ParentIs(t, depth, d, n, c);
      NamedByOne(t, depth, d, n, dir, name, c);
    }
  }

  lemma NamedByOne(t: Tree, depth: Depths, d: nat, n: Name, d': nat, n': Name, c: nat)
    requires IsTree(t, depth) && Names(t, d, n, c)
    ensures Names(t, d', n', c) ==> d == d' && n == n'
  {
    IsTreeIs(t, depth);
  }

  lemma PruneIsTree(t: Tree, depth: Depths, dir: nat, name: Name)
    requires IsTree(t, depth) && IsDir(t, dir) && name in t[dir].kids
    ensures var t' := Prune(t, depth, dir, name); IsTree(t', Restrict(depth, t'))
  {
    var t' := Prune(t, depth, dir, name);
    HolderOutside(t, depth, dir, name, t[dir].kids[name]);
    forall d, n, c ensures Names(t', d, n, c) <==> Names(t, d, n, c) && c in t' {
      PruneNames(t, depth, dir, name, d, n, c);
    }
    PartIsTree(t, depth, t');
  }

  /** Cutting elsewhere does not change who lies under whom. */
  lemma {:induction false} PruneUnder(t: Tree, depth: Depths, dir: nat, name: Name, x: nat, i: nat)
    requires IsTree(t, depth) && IsDir(t, dir) && name in t[dir].kids
    requires i in Prune(t, depth, dir, name)
    ensures var t' := Prune(t, depth, dir, name);
            IsTree(t', Restrict(depth, t')) && (Under(t', Restrict(depth, t'), x, i) <==> Under(t, depth, x, i))
    decreases depth[i]
  {
    var t' := Prune(t, depth, dir, name);
    PruneIsTree(t, depth, dir, name);
    if i != x && i != ROOT {
      IsTreeIs(t', Restrict(depth, t'));
      var d, n :| Names(t', d, n, i);
      PruneNames(t, depth, dir, name, d, n, i);
      ParentIs(t, depth, d, n, i);
      ParentIs(t', Restrict(depth, t'), d, n, i);
      PruneUnder(t, depth, dir, name, x, d);
    }
  }
}
