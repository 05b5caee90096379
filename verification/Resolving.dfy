/** The path parser of kernel/shell.c as a scan: at every byte of the path, the rest of the walk is settled by
    the directory reached and the component collected so far. */
module Resolving {
  import opened CStrings
  import opened FileTree
  import opened Paths

  /** Where the components lead from `start`. */
  function WalkAll(t: Tree, start: int, comps: seq<Name>): int
  {
    Walk(t, start, comps, |comps|)
  }

  /** The first component first: what resolve does, while Walk recurses from the last. */
  lemma {:induction false} WalkFirst(t: Tree, start: nat, n: Name, rest: seq<Name>, k: nat)
    requires k <= |rest| && TreeLookup(t, start, n) >= -1
    ensures Walk(t, start, [n] + rest, k + 1)
            == if TreeLookup(t, start, n) < 0 then -1 else Walk(t, TreeLookup(t, start, n), rest, k)
  {
    if k > 0 { WalkFirst(t, start, n, rest, k - 1); }
  }

  predicate OpenLeads(t: Tree, path: Name, i: nat, comp: Name, cur: int, r: int, k: int) { true }

  /** From `cur`, with `comp` collected and `path[i..]` ahead, the walk ends at `r`. */
  ghost predicate Leads(t: Tree, path: Name, i: nat, comp: Name, cur: int, r: int)
  {
    i <= |path| && forall k {:trigger OpenLeads(t, path, i, comp, cur, r, k)} ::
      OpenLeads(t, path, i, comp, cur, r, k) ==> WalkAll(t, cur, Components(path, i, comp)) == r
  }

  lemma LeadsIs(t: Tree, path: Name, i: nat, comp: Name, cur: int, r: int)
    ensures Leads(t, path, i, comp, cur, r) <==> i <= |path| && WalkAll(t, cur, Components(path, i, comp)) == r
  {
    assert OpenLeads(t, path, i, comp, cur, r, 0);
  }

  lemma PathBegins(t: Tree, path: Name, start: int) returns (r: int)
    ensures Leads(t, path, 0, [], start, r)
  {
    r := WalkAll(t, start, Components(path, 0, []));
    LeadsIs(t, path, 0, [], start, r);
  }

  /** Reaching the end of a component: look it up and go on. */
  lemma ComponentEnds(t: Tree, path: Name, i: nat, comp: Name, cur: nat, next: int, r: int)
    requires Leads(t, path, i, comp, cur, r) && next == TreeLookup(t, cur, comp) >= -1
    requires (i == |path| || path[i] == SLASH) && comp != []
    ensures if next < 0 then r == -1 else Leads(t, path, i, [], next, r)
  {
    LeadsIs(t, path, i, comp, cur, r);
    LeadsIs(t, path, i, [], next, r);
    var rest := Components(path, i, []);
    FlushFirst(path, i, comp);
    WalkFirst(t, cur, comp, rest, |rest|);
  }

  lemma FlushFirst(path: Name, i: nat, comp: Name)
    requires i <= |path| && (i == |path| || path[i] == SLASH) && comp != []
    ensures Components(path, i, comp) == [comp] + Components(path, i, [])
  {
  }

  /** Passing a slash, or collecting a byte. */
  lemma PathGoesOn(t: Tree, path: Name, i: nat, comp: Name, comp': Name, cur: int, r: int)
    requires Leads(t, path, i, comp, cur, r) && i < |path| && (path[i] == SLASH ==> comp == [])
    requires comp' == if path[i] == SLASH then [] else Collect(comp, path[i])
    ensures Leads(t, path, i + 1, comp', cur, r)
  {
    LeadsIs(t, path, i, comp, cur, r);
    LeadsIs(t, path, i + 1, comp', cur, r);
    NextByte(path, i, comp, comp');
  }

  lemma NextByte(path: Name, i: nat, comp: Name, comp': Name)
    requires i < |path| && (path[i] == SLASH ==> comp == [])
    requires comp' == if path[i] == SLASH then [] else Collect(comp, path[i])
    ensures Components(path, i, comp) == Components(path, i + 1, comp')
  {
  }

  /** At the end of the path with nothing collected, the walk has ended. */
  lemma PathEnds(t: Tree, path: Name, cur: int, r: int)
    requires Leads(t, path, |path|, [], cur, r)
    ensures r == cur
  {
    LeadsIs(t, path, |path|, [], cur, r);
    assert Components(path, |path|, []) == [];
  }
}
