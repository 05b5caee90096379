/** A directory as a finite map: its slots stand for a map from names to inodes, whatever their order
    and whatever the dead slots hold. */
module DirMap {
  import opened CStrings
  import opened SfsLayout
  import opened SfsSpec
  import opened SfsEntries

  // --- a directory as a map ------------------------------------------------

  ghost predicate Unique(slots: seq<Dirent>)
  {
    forall j, k :: 0 <= j < k < |slots| && slots[j].inum1 != 0 && slots[k].inum1 != 0 ==> slots[j].name != slots[k].name
  }

  ghost function NamesIn(slots: seq<Dirent>): set<Name>
  {
    set k | 0 <= k < |slots| && slots[k].inum1 != 0 :: slots[k].name
  }

  ghost function Entries(slots: seq<Dirent>): map<Name, nat>
  {
    map n | n in NamesIn(slots) :: slots[FindName(slots, n)].inum1 - 1
  }

  predicate LiveNamed(slots: seq<Dirent>, k: int, n: Name)
  {
    0 <= k < |slots| && slots[k].inum1 != 0 && slots[k].name == n
  }

  /** The slots hold each pair of `m` once and no other name. */
  ghost predicate Denotes(slots: seq<Dirent>, m: map<Name, nat>)
  {
    && Unique(slots)
    && (forall k, n :: LiveNamed(slots, k, n) ==> n in m && m[n] == slots[k].inum1 - 1)
    && (forall n :: n in m ==> exists k :: LiveNamed(slots, k, n))
  }

  lemma DenotesEntries(slots: seq<Dirent>)
    requires Unique(slots)
    ensures Denotes(slots, Entries(slots))
  {
    forall k, n | LiveNamed(slots, k, n)
      ensures n in Entries(slots) && Entries(slots)[n] == slots[k].inum1 - 1
    {
      assert slots[k].name in NamesIn(slots);
    }
    forall n | n in Entries(slots) ensures exists k :: LiveNamed(slots, k, n) {
      assert LiveNamed(slots, FindName(slots, n), n);
    }
  }

  lemma EntriesUnique(slots: seq<Dirent>, m: map<Name, nat>)
    requires Denotes(slots, m)
    ensures m == Entries(slots)
  {
    DenotesEntries(slots);
    forall n | n in m ensures n in Entries(slots) && Entries(slots)[n] == m[n] {
      var k :| LiveNamed(slots, k, n);
    }
    forall n | n in Entries(slots) ensures n in m {
      var k :| LiveNamed(slots, k, n);
    }
  }

  /** Lookup by scanning is lookup in the map. */
  lemma FindIsLookup(slots: seq<Dirent>, name: Name)
    ensures FindName(slots, name) < |slots| <==> name in Entries(slots)
    ensures name in Entries(slots) ==> Entries(slots)[name] == slots[FindName(slots, name)].inum1 - 1
  {
    var k := FindName(slots, name);
    if k < |slots| { assert slots[k].name in NamesIn(slots); }
  }

  lemma PutEntry(slots: seq<Dirent>, m: map<Name, nat>, k: nat, e: Dirent)
    requires Denotes(slots, m) && k < |slots| && slots[k].inum1 == 0 && e.inum1 != 0 && e.name !in m
    ensures Denotes(slots[k := e], m[e.name := e.inum1 - 1])
  {
    var slots' := slots[k := e];
    assert forall j, n :: LiveNamed(slots', j, n) && j != k ==> LiveNamed(slots, j, n);
    forall i, j | 0 <= i < j < |slots'| && slots'[i].inum1 != 0 && slots'[j].inum1 != 0
      ensures slots'[i].name != slots'[j].name
    {
      assert LiveNamed(slots', i, slots'[i].name) && LiveNamed(slots', j, slots'[j].name);
    }
    var m' := m[e.name := e.inum1 - 1];
    forall n | n in m' ensures exists j :: LiveNamed(slots', j, n) {
      if n == e.name {
        assert LiveNamed(slots', k, n);
      } else {
        var j :| LiveNamed(slots, j, n);
        assert LiveNamed(slots', j, n);
      }
    }
  }

  lemma ClearEntry(slots: seq<Dirent>, m: map<Name, nat>, k: nat, name: Name)
    requires Denotes(slots, m) && LiveNamed(slots, k, name)
    ensures Denotes(slots[k := slots[k].(inum1 := 0)], m - {name})
  {
    var slots' := slots[k := slots[k].(inum1 := 0)];
    assert forall j, n :: LiveNamed(slots', j, n) ==> LiveNamed(slots, j, n) && j != k;
    forall n | n in m - {name} ensures exists j :: LiveNamed(slots', j, n) {
      var j :| LiveNamed(slots, j, n);
      assert LiveNamed(slots', j, n);
    }
  }

  lemma AppendEmpty(slots: seq<Dirent>, m: map<Name, nat>, len: nat)
    requires Denotes(slots, m)
    ensures Denotes(slots + EmptySlots(len), m)
  {
    var slots' := slots + EmptySlots(len);
    assert forall j, n :: LiveNamed(slots', j, n) ==> LiveNamed(slots, j, n);
    forall n | n in m ensures exists j :: LiveNamed(slots', j, n) {
      var j :| LiveNamed(slots, j, n);
      assert LiveNamed(slots', j, n);
    }
  }

  /** dir_add on the slots is insertion in the map. */
  lemma SlotsWithEntries(slots: seq<Dirent>, name: Name, child: nat)
    requires Unique(slots) && child < MAX_INODES && Stored(name) !in Entries(slots)
    ensures Unique(SlotsWith(slots, name, child))
    ensures Entries(SlotsWith(slots, name, child)) == Entries(slots)[Stored(name) := child]
  {
    DenotesEntries(slots);
    SlotsWithDenotes(slots, Entries(slots), Dirent(child + 1, Stored(name)), name, child);
    EntriesUnique(SlotsWith(slots, name, child), Entries(slots)[Stored(name) := child]);
  }

  lemma SlotsWithDenotes(slots: seq<Dirent>, m: map<Name, nat>, e: Dirent, name: Name, child: nat)
    requires Denotes(slots, m) && child < MAX_INODES && e == Dirent(child + 1, Stored(name)) && e.name !in m
    ensures Denotes(SlotsWith(slots, name, child), m[e.name := child])
  {
    var k := FindHole(slots);
    if k < |slots| {
      PutEntry(slots, m, k, e);
    } else {
      var wide := slots + EmptySlots(DIRENTS_PER_BLOCK);
      AppendEmpty(slots, m, DIRENTS_PER_BLOCK);
      PutEntry(wide, m, k, e);
      assert wide[k := e] == SlotsWith(slots, name, child);
    }
  }

  /** dir_remove on the slots is deletion from the map. */
  lemma SlotsWithoutEntries(slots: seq<Dirent>, name: Name)
    requires Unique(slots)
    ensures Unique(SlotsWithout(slots, name))
    ensures Entries(SlotsWithout(slots, name)) == Entries(slots) - {name}
  {
    DenotesEntries(slots);
    FindIsLookup(slots, name);
    var k := FindName(slots, name);
    if k < |slots| {
      ClearEntry(slots, Entries(slots), k, name);
      EntriesUnique(slots[k := slots[k].(inum1 := 0)], Entries(slots) - {name});
    }
  }

  /** A listing that names each pair of `m` exactly once. */
  ghost predicate Lists(l: seq<Dirent>, m: map<Name, nat>)
  {
    && |l| == |m|
    && (forall i :: 0 <= i < |l| ==> l[i].inum1 != 0 && l[i].name in m && m[l[i].name] == l[i].inum1 - 1)
    && (forall i, j :: 0 <= i < j < |l| ==> l[i].name != l[j].name)
  }

  /** readdir over 0, 1, 2, ... yields every entry of the map exactly once, and then stops. */
  lemma {:induction false} LiveLists(slots: seq<Dirent>, m: map<Name, nat>)
    requires Denotes(slots, m)
    ensures Lists(Live(slots), m)
  {
    if slots == [] {
      assert forall n :: n in m ==> exists k :: LiveNamed(slots, k, n);
      assert m == map[];
    } else {
      var init, e := slots[..|slots| - 1], slots[|slots| - 1];
      var rest := if e.inum1 != 0 then m - {e.name} else m;
      ShorterDenotes(slots, m, rest);
      LiveLists(init, rest);
      LiveInPrefix(slots, |init|, |init|);
      if e.inum1 != 0 {
        assert LiveNamed(slots, |slots| - 1, e.name);
        ListsMore(Live(init), rest, e, m);
      }
    }
  }

  lemma {:induction false} LiveInPrefix(slots: seq<Dirent>, m: nat, n: nat)
    requires n <= m <= |slots|
    ensures LiveIn(slots[..m], n) == LiveIn(slots, n)
  {
    if n > 0 { LiveInPrefix(slots, m, n - 1); }
  }

  lemma ListsMore(l: seq<Dirent>, rest: map<Name, nat>, e: Dirent, m: map<Name, nat>)
    requires Lists(l, rest) && e.inum1 != 0 && e.name in m && m[e.name] == e.inum1 - 1 && rest == m - {e.name}
    ensures Lists(l + [e], m)
  {
    assert m.Keys == rest.Keys + {e.name} && |m| == |rest| + 1;
  }

  lemma ShorterDenotes(slots: seq<Dirent>, m: map<Name, nat>, rest: map<Name, nat>)
    requires Denotes(slots, m) && slots != []
    requires var e := slots[|slots| - 1]; rest == if e.inum1 != 0 then m - {e.name} else m
    ensures Denotes(slots[..|slots| - 1], rest)
  {
    var init, last := slots[..|slots| - 1], |slots| - 1;
    forall k, n | LiveNamed(init, k, n) ensures n in rest && rest[n] == init[k].inum1 - 1 {
      assert LiveNamed(slots, k, n);
      assert slots[last].inum1 != 0 ==> slots[k].name != slots[last].name;
    }
    forall n | n in rest ensures exists k :: LiveNamed(init, k, n) {
      var k :| LiveNamed(slots, k, n);
      assert LiveNamed(init, k, n);
    }
  }
}
