/** The path printer of kernel/shell.c: names collected on the way up are printed on the way down. */
module Printing {
  import opened CStrings
  import opened SfsSpec
  import opened FileTree
  import opened Paths
  import opened Resolving

  /** The first `k` parts, the last of them first, a slash before each. */
  function Printed(parts: seq<Name>, k: nat): Name
    requires k <= |parts|
  {
    if k == 0 then [] else Join([], parts[k - 1]) + Printed(parts, k - 1)
  }

  lemma SameTail(n: Name, a: Name, b: Name)
    requires a == b
    ensures Join([], n) + a == Join([], n) + b
  {
  }

  lemma {:induction false} PrintedPrefix(parts: seq<Name>, n: Name, k: nat)
    requires k <= |parts|
    ensures Printed(parts + [n], k) == Printed(parts, k)
  {
    if k > 0 {
      PrintedPrefix(parts, n, k - 1);
      assert (parts + [n])[k - 1] == parts[k - 1];
      SameTail(parts[k - 1], Printed(parts + [n], k - 1), Printed(parts, k - 1));
    }
  }

  ghost predicate Splits(t: Tree, depth: Depths, cwd: nat, cur: nat, parts: seq<Name>)
  {
    && IsTree(t, depth) && cwd in t && cur in t && |parts| <= MAX_PARTS
    && PathText(t, depth, cwd, MAX_PARTS) == PathText(t, depth, cur, MAX_PARTS - |parts|) + Printed(parts, |parts|)
  }

  predicate OpenClimbed(t: Tree, depth: Depths, cwd: nat, cur: nat, parts: seq<Name>, k: int) { true }

  /** Having climbed from `cwd` to `cur`, the path printed so far is `parts`. */
  ghost predicate Climbed(t: Tree, depth: Depths, cwd: nat, cur: nat, parts: seq<Name>)
  {
    |parts| <= MAX_PARTS && forall k {:trigger OpenClimbed(t, depth, cwd, cur, parts, k)} ::
      OpenClimbed(t, depth, cwd, cur, parts, k) ==> Splits(t, depth, cwd, cur, parts)
  }

  lemma ClimbedIs(t: Tree, depth: Depths, cwd: nat, cur: nat, parts: seq<Name>)
    ensures Climbed(t, depth, cwd, cur, parts) <==> Splits(t, depth, cwd, cur, parts)
  {
    assert OpenClimbed(t, depth, cwd, cur, parts, 0);
  }

  lemma ClimbStarts(t: Tree, depth: Depths, cwd: nat)
    requires IsTree(t, depth) && cwd in t
    ensures Climbed(t, depth, cwd, cwd, [])
  {
    NothingClimbed(t, depth, cwd, [], MAX_PARTS);
    ClimbedIs(t, depth, cwd, cwd, []);
  }

  lemma NothingClimbed(t: Tree, depth: Depths, cwd: nat, parts: seq<Name>, k: nat)
    requires IsTree(t, depth) && cwd in t && k == MAX_PARTS && |parts| == 0
    ensures Splits(t, depth, cwd, cwd, parts)
  {
    assert Printed(parts, 0) == [];
    assert PathText(t, depth, cwd, k) == PathText(t, depth, cwd, k) + [];
  }

  lemma ClimbGoesOn(t: Tree, depth: Depths, cwd: nat, cur: nat, parts: seq<Name>, up: nat, n: Name)
    requires Climbed(t, depth, cwd, cur, parts) && cur != ROOT && |parts| < MAX_PARTS && Names(t, up, n, cur)
    ensures Climbed(t, depth, cwd, up, parts + [n])
  {
    ClimbedIs(t, depth, cwd, cur, parts);
    ClimbedIs(t, depth, cwd, up, parts + [n]);
    NameInIs(t, depth, up, n, cur);
    PrintedPrefix(parts, n, |parts|);
    LastPart(PathText(t, depth, up, MAX_PARTS - |parts| - 1), n, Printed(parts, |parts|));
  }

  lemma LastPart(a: Name, n: Name, b: Name)
    ensures Join(a, n) + b == a + (Join([], n) + b)
  {
  }

  lemma ClimbEnds(t: Tree, depth: Depths, cwd: nat, cur: nat, parts: seq<Name>)
    requires Climbed(t, depth, cwd, cur, parts) && (cur == ROOT || |parts| == MAX_PARTS) && cwd != ROOT
    ensures IsTree(t, depth) && cwd in t && Printed(parts, |parts|) == CwdText(t, depth, cwd)
  {
    ClimbedIs(t, depth, cwd, cur, parts);
  }

  /** Printing the parts in reverse. */
  method PrintParts(parts: seq<Name>) returns (text: Name)
    ensures text == Printed(parts, |parts|)
  {
    text := [];
    var i: nat := |parts|;
    while i > 0
      invariant i <= |parts| && text + Printed(parts, i) == Printed(parts, |parts|)
    {
      i := i - 1;
      LastPart(text, parts[i], Printed(parts, i));
      text := Join(text, parts[i]);
    }
  }

  lemma TextIsAbsolute(t: Tree, depth: Depths, cwd: nat, text: Name)
    requires IsTree(t, depth) && cwd in t && text == CwdText(t, depth, cwd)
    ensures text != [] && text[0] == SLASH
  {
    if cwd != ROOT { TextStartsAtRoot(t, depth, cwd, MAX_PARTS); }
  }

  lemma PrintedLeadsIff(t: Tree, depth: Depths, cwd: nat, text: Name, r: int)
    requires IsTree(t, depth) && ProperNames(t) && cwd in t && text == CwdText(t, depth, cwd)
    requires Leads(t, text, 0, [], ROOT, r)
    ensures r == cwd <==> depth[cwd] <= MAX_PARTS && GoodPath(t, depth, cwd)
  {
    PrintedPathResolvesIff(t, depth, cwd);
    LeadsIs(t, text, 0, [], ROOT, r);
  }
}
