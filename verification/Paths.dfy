/** Paths in the tree: what resolving a text means, what print_cwd prints, and exactly when the one undoes
    the other. */
module Paths {
  import opened Bytes
  import opened CStrings
  import opened SfsSpec
  import opened FileTree

  const SLASH: Byte := 47
  const COMP_MAX := 31
  const MAX_PARTS := 16

  // --- walking -------------------------------------------------------------

  function TreeLookup(t: Tree, d: int, n: Name): int
  {
    if !IsDir(t, d) then -1
    else if n == DOT then t[d].dot
    else if n == DOTDOT then t[d].dotdot
    else if n in t[d].kids then t[d].kids[n]
    else -1
  }

  /** Following the first `k` components from `start`; -1 once one is missing. */
  function Walk(t: Tree, start: int, comps: seq<Name>, k: nat): int
    requires k <= |comps|
  {
    if k == 0 then start
    else
      var at := Walk(t, start, comps, k - 1);
      if at < 0 then -1 else TreeLookup(t, at, comps[k - 1])
  }

  /** The components of `path[i..]` when `comp` has been collected already: parts between slashes, empty ones
      dropped, each cut at 31 bytes. */
  function Components(path: Name, i: nat, comp: Name): seq<Name>
    requires i <= |path|
    decreases |path| - i
  {
    if i == |path| then Flush(comp)
    else if path[i] == SLASH then Flush(comp) + Components(path, i + 1, [])
    else Components(path, i + 1, Collect(comp, path[i]))
  }

  function Flush(comp: Name): seq<Name>
  {
    if comp == [] then [] else [comp]
  }

  function Collect(comp: Name, c: Byte): (r: Name)
    requires c != 0
  {
    if |comp| < COMP_MAX then comp + [c] else comp
  }

  // --- printing ------------------------------------------------------------

  ghost function NameIn(t: Tree, depth: Depths, c: nat): (n: Name)
    requires IsTree(t, depth) && c in t && c != ROOT
    ensures Names(t, Parent(t, depth, c), n, c)
  {
    var n :| Names(t, Parent(t, depth, c), n, c);
    n
  }

  lemma NameInIs(t: Tree, depth: Depths, d: nat, n: Name, c: nat)
    requires IsTree(t, depth) && Names(t, d, n, c)
    ensures c in t && c != ROOT && Parent(t, depth, c) == d && NameIn(t, depth, c) == n
  {
    ParentIs(t, depth, d, n, c);
    IsTreeIs(t, depth);
  }

  function Join(a: Name, n: Name): Name
  {
    a + [SLASH] + n
  }

  /** The last `k` components of the path to `c`, a slash before each. */
  ghost function PathText(t: Tree, depth: Depths, c: nat, k: nat): Name
    requires IsTree(t, depth) && c in t
    decreases k
  {
    if c == ROOT || k == 0 then []
    else Join(PathText(t, depth, Parent(t, depth, c), k - 1), NameIn(t, depth, c))
  }

  /** What print_cwd prints. */
  ghost function CwdText(t: Tree, depth: Depths, cwd: nat): Name
    requires IsTree(t, depth) && cwd in t
  {
    if cwd == ROOT then [SLASH] else PathText(t, depth, cwd, MAX_PARTS)
  }

  predicate GoodName(n: Name)
  {
    n != [] && SLASH !in n
  }

  /** No name on the way from the root to `c` is empty or holds a slash. */
  ghost predicate GoodPath(t: Tree, depth: Depths, c: nat)
    requires IsTree(t, depth) && c in t
    decreases depth[c]
  {
    c == ROOT || (GoodName(NameIn(t, depth, c)) && GoodPath(t, depth, Parent(t, depth, c)))
  }

  // --- components ----------------------------------------------------------

  /** A slash ends a component, wherever it stands. */
  lemma {:induction false} ComponentsJoin(a: Name, b: Name, i: nat, comp: Name)
    requires i <= |a|
    ensures Components(Join(a, b), i, comp) == Components(a, i, comp) + Components(b, 0, [])
    decreases |a| - i
  {
    var p := Join(a, b);
    if i == |a| {
      ComponentsShift(p, |a| + 1, b, 0, []);
      assert p[i] == SLASH;
    } else {
      assert p[i] == a[i];
      if a[i] == SLASH {
        ComponentsJoin(a, b, i + 1, []);
      } else {
        ComponentsJoin(a, b, i + 1, Collect(comp, a[i]));
      }
    }
  }

  lemma {:induction false} ComponentsShift(p: Name, d: nat, b: Name, i: nat, comp: Name)
    requires i <= |b| && |p| == d + |b| && forall k {:trigger b[k]} :: 0 <= k < |b| ==> p[d + k] == b[k]
    ensures Components(p, d + i, comp) == Components(b, i, comp)
    decreases |b| - i
  {
    if i < |b| {
      assert p[d + i] == b[i];
      if b[i] == SLASH {
        ComponentsShift(p, d, b, i + 1, []);
      } else {
        ComponentsShift(p, d, b, i + 1, Collect(comp, b[i]));
      }
    }
  }

  /** A good name that fits the buffer is its own only component. */
  lemma {:induction false} ComponentsOfName(n: Name, i: nat)
    requires GoodName(n) && i <= |n| <= COMP_MAX
    ensures Components(n, i, n[..i]) == [n]
    decreases |n| - i
  {
    if i < |n| {
      assert n[i] != SLASH && n[..i] + [n[i]] == n[..i + 1];
      ComponentsOfName(n, i + 1);
    } else {
      assert n[..i] == n;
    }
  }

  /** Once the buffer is full, further bytes are dropped: a longer part is looked up by its first 31 bytes. */
  lemma {:induction false} LongComponent(n: Name, i: nat)
    requires SLASH !in n && COMP_MAX <= i <= |n|
    ensures Components(n, i, n[..COMP_MAX]) == [n[..COMP_MAX]]
    decreases |n| - i
  {
    if i < |n| { LongComponent(n, i + 1); }
  }

  lemma {:induction false} CutComponent(n: Name, i: nat)
    requires SLASH !in n && i <= COMP_MAX <= |n|
    ensures Components(n, i, n[..i]) == [n[..COMP_MAX]]
    decreases COMP_MAX - i
  {
    if i < COMP_MAX {
      assert n[i] != SLASH && n[..i] + [n[i]] == n[..i + 1];
      CutComponent(n, i + 1);
    } else {
      LongComponent(n, i);
    }
  }

  /** Components are never empty and never hold a slash. */
  lemma {:induction false} ComponentsGood(path: Name, i: nat, comp: Name)
    requires i <= |path| && SLASH !in comp
    ensures AllGood(Components(path, i, comp))
    decreases |path| - i
  {
    if i < |path| {
      if path[i] == SLASH {
        ComponentsGood(path, i + 1, []);
        GoodConcat(Flush(comp), Components(path, i + 1, []));
      } else {
        ComponentsGood(path, i + 1, Collect(comp, path[i]));
      }
    }
  }

  ghost predicate AllGood(comps: seq<Name>)
  {
    forall j :: 0 <= j < |comps| ==> GoodName(comps[j])
  }

  lemma GoodConcat(a: seq<Name>, b: seq<Name>)
    requires AllGood(a) && AllGood(b)
    ensures AllGood(a + b)
  {
  }

  // --- the printed path ----------------------------------------------------

  /** Names in the tree fit the buffer that resolve collects a component in, and are not the dots. */
  ghost predicate ProperNames(t: Tree)
  {
    forall d, n, c :: Names(t, d, n, c) ==> |n| <= COMP_MAX && n != DOT && n != DOTDOT
  }

  lemma JoinAddsName(a: Name, n: Name)
    requires GoodName(n) && |n| <= COMP_MAX
    ensures Components(Join(a, n), 0, []) == Components(a, 0, []) + [n]
  {
    ComponentsJoin(a, n, 0, []);
    ComponentsOfName(n, 0);
    assert n[..0] == [];
  }

  lemma NoText()
    ensures Components([], 0, []) == []
  {
  }

  /** The printed text of a good path has one component for each level printed, the last being the name. */
  lemma {:induction false} TextComponents(t: Tree, depth: Depths, c: nat, k: nat)
    requires IsTree(t, depth) && ProperNames(t) && c in t && GoodPath(t, depth, c)
    ensures |Components(PathText(t, depth, c, k), 0, [])| == Min(k, depth[c])
    decreases k
  {
    RootIs(t, depth);
    NoText();
    if c != ROOT && k > 0 {
      var p, n := Parent(t, depth, c), NameIn(t, depth, c);
      TextComponents(t, depth, p, k - 1);
      TextStep(t, depth, c, k, p, n);
    }
  }

  lemma TextStep(t: Tree, depth: Depths, c: nat, k: nat, p: nat, n: Name)
    requires IsTree(t, depth) && ProperNames(t) && c in t && c != ROOT && k > 0 && GoodPath(t, depth, c)
    requires p == Parent(t, depth, c) && n == NameIn(t, depth, c)
    ensures Components(PathText(t, depth, c, k), 0, []) == Components(PathText(t, depth, p, k - 1), 0, []) + [n]
  {
    JoinAddsName(PathText(t, depth, p, k - 1), n);
  }

  lemma {:induction false} WalkPrefix(t: Tree, start: int, a: seq<Name>, b: seq<Name>, k: nat)
    requires k <= |a|
    ensures Walk(t, start, a + b, k) == Walk(t, start, a, k)
  {
    if k > 0 { WalkPrefix(t, start, a, b, k - 1); }
  }

  /** One component more is one lookup more. */
  lemma WalkLast(t: Tree, start: int, init: seq<Name>, n: Name)
    ensures var at := Walk(t, start, init, |init|);
            Walk(t, start, init + [n], |init| + 1) == if at < 0 then -1 else TreeLookup(t, at, n)
  {
    WalkPrefix(t, start, init, [n], |init|);
    assert (init + [n])[|init|] == n;
  }

  /** Where a text leads, from the root. */
  function Resolved(t: Tree, text: Name): int
  {
    var comps := Components(text, 0, []);
    Walk(t, ROOT, comps, |comps|)
  }

  lemma ResolvedJoin(t: Tree, a: Name, text: Name, n: Name)
    requires Components(text, 0, []) == Components(a, 0, []) + [n]
    ensures Resolved(t, text) == if Resolved(t, a) < 0 then -1 else TreeLookup(t, Resolved(t, a), n)
  {
    WalkLast(t, ROOT, Components(a, 0, []), n);
  }

  lemma ChildFound(t: Tree, p: nat, n: Name, c: nat)
    requires ProperNames(t) && Names(t, p, n, c)
    ensures TreeLookup(t, p, n) == c
  {
  }

  /** Resolving the whole printed path leads back. */
  lemma {:induction false} WalkBack(t: Tree, depth: Depths, c: nat, k: nat)
    requires IsTree(t, depth) && ProperNames(t) && c in t && GoodPath(t, depth, c) && depth[c] <= k
    ensures Resolved(t, PathText(t, depth, c, k)) == c
    decreases k
  {
    if c == ROOT {
      NoText();
    } else {
      var p, n := Parent(t, depth, c), NameIn(t, depth, c);
      WalkBack(t, depth, p, k - 1);
      WalkStep(t, depth, c, k, p, n);
    }
  }

  lemma WalkStep(t: Tree, depth: Depths, c: nat, k: nat, p: nat, n: Name)
    requires IsTree(t, depth) && ProperNames(t) && c in t && c != ROOT && k > 0 && GoodPath(t, depth, c)
    requires p == Parent(t, depth, c) && n == NameIn(t, depth, c) && Resolved(t, PathText(t, depth, p, k - 1)) == p
    ensures Resolved(t, PathText(t, depth, c, k)) == c
  {
    TextStep(t, depth, c, k, p, n);
    ResolvedJoin(t, PathText(t, depth, p, k - 1), PathText(t, depth, c, k), n);
    ChildFound(t, p, n, c);
  }

  /** Each component leads at most one level down. */
  lemma {:induction false} WalkDepth(t: Tree, depth: Depths, comps: seq<Name>, k: nat)
    requires IsTree(t, depth) && k <= |comps|
    ensures var r := Walk(t, ROOT, comps, k); r >= 0 ==> r in t && depth[r] <= k
  {
    RootIs(t, depth);
    if k > 0 {
      WalkDepth(t, depth, comps, k - 1);
      var at := Walk(t, ROOT, comps, k - 1);
      if at >= 0 { LookupDepth(t, depth, at, comps[k - 1]); }
    }
  }

  lemma DotDotIs(t: Tree, depth: Depths, d: nat)
    requires IsTree(t, depth) && IsDir(t, d)
    ensures t[d].dot == d && t[d].dotdot == if d == ROOT then ROOT else Parent(t, depth, d)
  {
    IsTreeIs(t, depth);
    if d != ROOT { ParentIs(t, depth, Parent(t, depth, d), NameIn(t, depth, d), d); }
  }

  lemma LookupDepth(t: Tree, depth: Depths, d: nat, n: Name)
    requires IsTree(t, depth) && d in t
    ensures var r := TreeLookup(t, d, n); r >= 0 ==> r in t && depth[r] <= depth[d] + 1
  {
    if IsDir(t, d) {
      RootIs(t, depth);
      DotDotIs(t, depth, d);
      if n in t[d].kids { ParentIs(t, depth, d, n, t[d].kids[n]); }
    }
  }

  /** Slash-free components only ever reach nodes whose own path is slash-free. */
  lemma {:induction false} WalkGood(t: Tree, depth: Depths, comps: seq<Name>, k: nat)
    requires IsTree(t, depth) && k <= |comps| && AllGood(comps)
    ensures var r := Walk(t, ROOT, comps, k); r >= 0 ==> r in t && GoodPath(t, depth, r)
  {
    if k > 0 {
      WalkGood(t, depth, comps, k - 1);
      var at := Walk(t, ROOT, comps, k - 1);
      if at >= 0 { LookupGood(t, depth, at, comps[k - 1]); }
    }
  }

  lemma LookupGood(t: Tree, depth: Depths, d: nat, n: Name)
    requires IsTree(t, depth) && d in t && GoodPath(t, depth, d) && GoodName(n)
    ensures var r := TreeLookup(t, d, n); r >= 0 ==> r in t && GoodPath(t, depth, r)
  {
    if IsDir(t, d) {
      DotDotIs(t, depth, d);
      if n in t[d].kids { NameInIs(t, depth, d, n, t[d].kids[n]); }
    }
  }

  /** Resolving what print_cwd prints gives the directory back if and only if it lies at most sixteen levels down
      and no name on its path is empty or holds a slash. */
  lemma PrintedPathResolvesIff(t: Tree, depth: Depths, cwd: nat)
    requires IsTree(t, depth) && ProperNames(t) && cwd in t
    ensures Resolved(t, CwdText(t, depth, cwd)) == cwd <==> depth[cwd] <= MAX_PARTS && GoodPath(t, depth, cwd)
  {
    if cwd == ROOT {
      RootText();
      RootIs(t, depth);
    } else if GoodPath(t, depth, cwd) {
      GoodTextIff(t, depth, cwd, MAX_PARTS);
    } else {
      var text := PathText(t, depth, cwd, MAX_PARTS);
      var comps := Components(text, 0, []);
      ComponentsGood(text, 0, []);
      WalkGood(t, depth, comps, |comps|);
    }
  }

  /** The last `k` components of a good path lead back if and only if they are all of it. */
  lemma GoodTextIff(t: Tree, depth: Depths, c: nat, k: nat)
    requires IsTree(t, depth) && ProperNames(t) && c in t && GoodPath(t, depth, c)
    ensures Resolved(t, PathText(t, depth, c, k)) == c <==> depth[c] <= k
  {
    if depth[c] <= k {
      WalkBack(t, depth, c, k);
    } else {
      TextComponents(t, depth, c, k);
      var comps := Components(PathText(t, depth, c, k), 0, []);
      WalkDepth(t, depth, comps, |comps|);
    }
  }

  /** The printed text is an absolute path. */
  lemma {:induction false} TextStartsAtRoot(t: Tree, depth: Depths, c: nat, k: nat)
    requires IsTree(t, depth) && c in t && c != ROOT && k > 0
    ensures |PathText(t, depth, c, k)| > 0 && PathText(t, depth, c, k)[0] == SLASH
    decreases k
  {
    var p := Parent(t, depth, c);
    if p != ROOT && k > 1 { TextStartsAtRoot(t, depth, p, k - 1); }
  }

  lemma RootText()
    ensures Components([SLASH], 0, []) == []
  {
    var text: Name := [SLASH];
    assert Components(text, 1, []) == [];
  }
}
