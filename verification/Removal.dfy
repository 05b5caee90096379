/** Why rm_rec stops and what it removes: emptying a directory child by child leaves exactly what cutting off
    its whole subtree leaves. */
module Removal {
  import opened CStrings
  import opened FileTree

  /** `t` is `t0` after some of the subtrees hanging from directory `c` have been cut off. */
  ghost predicate Trimmed(t0: Tree, depth: Depths, c: nat, t: Tree)
  {
    && IsTree(t0, depth) && IsDir(t0, c) && t.Keys <= t0.Keys
    && IsTree(t, Restrict(depth, t)) && IsDir(t, c)
    && (forall i :: i in t && i != c ==> t[i] == t0[i])
    && (forall i :: i in t0 && !Under(t0, depth, c, i) ==> i in t)
    && (forall i {:trigger Under(t, Restrict(depth, t), c, i)} ::
          i in t ==> (Under(t, Restrict(depth, t), c, i) <==> Under(t0, depth, c, i)))
  }

  lemma TrimmedStart(t0: Tree, depth: Depths, c: nat)
    requires IsTree(t0, depth) && IsDir(t0, c)
    ensures Trimmed(t0, depth, c, t0) && Restrict(depth, t0) == depth
  {
    assert Restrict(depth, t0) == depth;
  }

  lemma RestrictTwice(depth: Depths, t: Tree, t': Tree)
    requires t.Keys <= depth.Keys && t'.Keys <= t.Keys
    ensures Restrict(Restrict(depth, t), t') == Restrict(depth, t')
  {
  }

  /** Cutting off one more child's subtree. */
  lemma TrimmedMore(t0: Tree, depth: Depths, c: nat, t: Tree, name: Name)
    requires Trimmed(t0, depth, c, t) && name in t[c].kids
    ensures var t' := Prune(t, Restrict(depth, t), c, name);
            Trimmed(t0, depth, c, t') && t'[c].kids == t[c].kids - {name}
  {
    var dt := Restrict(depth, t);
    var t', k := Prune(t, dt, c, name), t[c].kids[name];
    assert Names(t, c, name, k);
    RestrictTwice(depth, t, t');
    PruneIsTree(t, dt, c, name);
    HolderOutside(t, dt, c, name, k);
    forall i | i in t0 && !Under(t0, depth, c, i) ensures i in t' {
      ChildUnder(t, dt, c, name, k, i);
    }
    forall i | i in t' ensures Under(t', Restrict(depth, t'), c, i) <==> Under(t0, depth, c, i) {
      PruneUnder(t, dt, c, name, c, i);
      assert Under(t, dt, c, i) <==> Under(t0, depth, c, i);
    }
  }

  /** What lies under a child lies under its directory. */
  lemma ChildUnder(t: Tree, depth: Depths, c: nat, name: Name, k: nat, i: nat)
    requires IsTree(t, depth) && Names(t, c, name, k) && i in t
    ensures Under(t, depth, k, i) ==> Under(t, depth, c, i)
  {
    ParentIs(t, depth, c, name, k);
    if Under(t, depth, k, i) { UnderTransitive(t, depth, c, k, i); }
  }

  /** A child's subtree is a proper part of its directory's subtree, so that the recursion ends. */
  lemma SubtreeShrinks(t0: Tree, depth: Depths, c: nat, t: Tree, name: Name)
    requires Trimmed(t0, depth, c, t) && name in t[c].kids
    ensures Subtree(t, Restrict(depth, t), t[c].kids[name]) < Subtree(t0, depth, c)
  {
    var dt, k := Restrict(depth, t), t[c].kids[name];
    assert Names(t, c, name, k);
    HolderOutside(t, dt, c, name, k);
    forall i | i in Subtree(t, dt, k) ensures i in Subtree(t0, depth, c) {
      ChildUnder(t, dt, c, name, k, i);
      assert Under(t, dt, c, i) <==> Under(t0, depth, c, i);
    }
    assert c in Subtree(t0, depth, c) && c !in Subtree(t, dt, k);
  }

  /** Once the directory is empty, cutting it off leaves what cutting off the original subtree leaves. */
  lemma TrimmedEnd(t0: Tree, depth: Depths, dir: nat, name: Name, c: nat, t: Tree)
    requires Trimmed(t0, depth, c, t) && Names(t0, dir, name, c)
    ensures dir in t && t[dir] == t0[dir]
    ensures Prune(t, Restrict(depth, t), dir, name) == Prune(t0, depth, dir, name)
  {
    var dt := Restrict(depth, t);
    HolderOutside(t0, depth, dir, name, c);
    assert dir in t && t[dir] == t0[dir];
    var p, p0 := Prune(t, dt, dir, name), Prune(t0, depth, dir, name);
    forall i: nat ensures (i in p <==> i in p0) && (i in p0 ==> p[i] == p0[i]) {
      if i in t { assert Under(t, dt, c, i) <==> Under(t0, depth, c, i); }
    }
  }
}
