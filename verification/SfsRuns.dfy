/** Every run of the filesystem from a formatted disk. */
module SfsRuns {
  import opened Bytes
  import opened BlockCache
  import opened CStrings
  import opened SfsLayout
  import opened SfsSpec
  import opened SfsBlocks
  import opened SfsEntries
  import opened SfsFiles
  import opened DirMap
  import opened FileTree
  import opened SfsTree
  import opened SfsCreate
  import opened SfsUnlink

  // --- overwriting a file --------------------------------------------------

  /** sfs_write replaces the bytes of one leaf. */
  lemma WriteReplaces(s: Fs, depth: Depths, ino: nat, data: seq<Byte>, s': Fs, r: int)
    requires TreeOk(s, depth) && ino < MAX_INODES && s.inodes[ino].kind == FILE && Wrote(s, ino, data, s', r)
    ensures ino in Abs(s) && Abs(s') == Abs(s)[ino := FileNode(data[..r])]
    ensures TreeOk(s', depth)
  {
    WroteNode(s, ino, data, s', r);
    Replaced(s, s', depth, ino, data[..r]);
  }

  lemma WroteNode(s: Fs, ino: nat, data: seq<Byte>, s': Fs, r: int)
    requires ino < MAX_INODES && s.inodes[ino].kind == FILE && Wrote(s, ino, data, s', r)
    ensures NodeOf(s', s'.inodes[ino]) == FileNode(data[..r])
  {
    FsOkIs(s');
    var n := s'.inodes[ino];
    assert InodeOk(n);
    assert Min(n.size, BLOCK_SIZE * Lead(n.blocks)) == r;
  }

  lemma Replaced(s: Fs, s': Fs, depth: Depths, ino: nat, content: seq<Byte>)
    requires TreeOk(s, depth) && ino < MAX_INODES && s.inodes[ino].kind == FILE
    requires FsOk(s') && OthersKeptBut(s, s', {ino}) && s'.inodes[ino].kind == FILE
    requires NodeOf(s', s'.inodes[ino]) == FileNode(content)
    ensures ino in Abs(s) && Abs(s') == Abs(s)[ino := FileNode(content)]
    ensures TreeOk(s', depth)
  {
    AbsAt(s, ino);
    AbsUpdate(s, s', ino);
    UniqueUpdate(s, s', ino);
    ReplaceLeaf(Abs(s), depth, ino, content);
  }

  // --- formatting ----------------------------------------------------------

  predicate OpenFormatted(data: seq<Block>, s': Fs, k: int) { true }

  /** format, behind its key: an empty table and bitmap, the root's inode, its two dots. */
  ghost predicate Formatted(data: seq<Block>, s': Fs)
  {
    |data| == MAX_DATA_BLOCKS &&
    forall k {:trigger OpenFormatted(data, s', k)} :: OpenFormatted(data, s', k) ==>
      exists m, ok, ok' :: AddStep(Cleared(data), m, ROOT, DOT, ROOT, ok) && AddStep(m, s', ROOT, DOTDOT, ROOT, ok')
  }

  lemma FormattedBy(data: seq<Block>, m: Fs, s': Fs, ok: bool, ok': bool)
    requires |data| == MAX_DATA_BLOCKS
    requires AddStep(Cleared(data), m, ROOT, DOT, ROOT, ok) && AddStep(m, s', ROOT, DOTDOT, ROOT, ok')
    ensures Formatted(data, s')
  {
  }

  /** The two entries of a formatted root, by what dir_add comes to. */
  lemma FormatHalves(data: seq<Block>, s': Fs) returns (m: Fs, ok: bool, ok': bool)
    requires Formatted(data, s')
    ensures Adds(Cleared(data), m, ROOT, DOT, ROOT, ok) && Adds(m, s', ROOT, DOTDOT, ROOT, ok')
  {
    assert OpenFormatted(data, s', 0);
    m, ok, ok' :| AddStep(Cleared(data), m, ROOT, DOT, ROOT, ok) && AddStep(m, s', ROOT, DOTDOT, ROOT, ok');
    ClearedOk(data);
    AddStepAdds(Cleared(data), m, ROOT, DOT, ROOT, ok);
    AddStepAdds(m, s', ROOT, DOTDOT, ROOT, ok');
  }

  lemma ClearedOk(data: seq<Block>)
    requires |data| == MAX_DATA_BLOCKS
    ensures var s := Cleared(data);
            && FsOk(s) && Lead(s.inodes[ROOT].blocks) == 0 && Slots(s, s.inodes[ROOT]) == []
            && forall i :: 0 < i < MAX_INODES ==> s.inodes[i].kind == FREE
  {
    FsOkIs(Cleared(data));
    var s := Cleared(data);
    forall i: nat | i < MAX_INODES
      ensures InodeOk(s.inodes[i]) && Slots(s, s.inodes[i]) == []
    {
      LeadIs(s.inodes[i].blocks, 0);
    }
    assert forall i, b, p :: Owns(s.inodes, i, b, p) ==> p == 0;
  }

  const LONE_ROOT: Tree := map[ROOT := DirNode(ROOT, ROOT, map[])]

  /** A formatted disk holds a root directory and nothing else. */
  lemma FormatOk(data: seq<Block>, s': Fs)
    requires Formatted(data, s')
    ensures Abs(s') == LONE_ROOT && TreeOk(s', map[ROOT := 0])
  {
    ClearedOk(data);
    var m, ok, ok' := FormatHalves(data, s');
    FormattedDots(Cleared(data), m, s', ok, ok');
  }

  lemma FormattedDots(s: Fs, m: Fs, s': Fs, ok: bool, ok': bool)
    requires Lead(s.inodes[ROOT].blocks) == 0 && Slots(s, s.inodes[ROOT]) == []
    requires forall i :: 0 < i < MAX_INODES ==> s.inodes[i].kind == FREE
    requires Adds(s, m, ROOT, DOT, ROOT, ok) && Adds(m, s', ROOT, DOTDOT, ROOT, ok')
    ensures Abs(s') == LONE_ROOT && TreeOk(s', map[ROOT := 0])
  {
    AddDots(s, m, s', ROOT, ROOT, ok, ok');
    FormattedTree(s, s');
  }

  lemma FormattedTree(s: Fs, s': Fs)
    requires FsOk(s') && OthersKeptBut(s, s', {ROOT}) && s'.inodes[ROOT].kind == DIR
    requires forall i :: 0 < i < MAX_INODES ==> s.inodes[i].kind == FREE
    requires Slots(s', s'.inodes[ROOT]) == SlotsWith(SlotsWith([], DOT, ROOT), DOTDOT, ROOT)
    ensures Abs(s') == LONE_ROOT && TreeOk(s', map[ROOT := 0])
  {
    RootNode(s', Slots(s', s'.inodes[ROOT]));
    OthersFree(s, s');
    OnlyRoot(s', DirNode(ROOT, ROOT, map[]));
    LoneRootIsTree();
  }

  lemma RootNode(s: Fs, slots: seq<Dirent>)
    requires s.inodes[ROOT].kind == DIR && slots == Slots(s, s.inodes[ROOT])
    requires slots == SlotsWith(SlotsWith([], DOT, ROOT), DOTDOT, ROOT)
    ensures Unique(slots) && NodeOf(s, s.inodes[ROOT]) == DirNode(ROOT, ROOT, map[])
  {
    DotEntries(slots, ROOT, ROOT);
  }

  lemma OthersFree(s: Fs, s': Fs)
    requires OthersKeptBut(s, s', {ROOT}) && forall i :: 0 < i < MAX_INODES ==> s.inodes[i].kind == FREE
    ensures forall i :: 0 < i < MAX_INODES ==> s'.inodes[i].kind == FREE
  {
    forall i: nat | 0 < i < MAX_INODES ensures s'.inodes[i].kind == FREE {
      assert Kept(s, s', i);
    }
  }

  lemma OnlyRoot(s: Fs, node: Node)
    requires s.inodes[ROOT].kind == DIR && Unique(Slots(s, s.inodes[ROOT])) && NodeOf(s, s.inodes[ROOT]) == node
    requires forall i :: 0 < i < MAX_INODES ==> s.inodes[i].kind == FREE
    ensures Abs(s) == map[ROOT := node] && AllUnique(s)
  {
    OnlyRootUnique(s);
    var t: Tree := map[ROOT := node];
    forall i: nat ensures AgreeAt(t, Abs(s), i) {
      AbsAt(s, i);
    }
    SameTrees(t, Abs(s));
  }

  lemma OnlyRootUnique(s: Fs)
    requires Unique(Slots(s, s.inodes[ROOT])) && forall i :: 0 < i < MAX_INODES ==> s.inodes[i].kind == FREE
    ensures AllUnique(s)
  {
    forall i: nat | i < MAX_INODES && s.inodes[i].kind == DIR ensures Unique(Slots(s, s.inodes[i])) {
      assert i == ROOT;
    }
  }

  lemma LoneRootIsTree()
    ensures IsTree(LONE_ROOT, map[ROOT := 0])
  {
    assert forall d, n, c :: !Names(LONE_ROOT, d, n, c);
    IsTreeIs(LONE_ROOT, map[ROOT := 0]);
  }

  // --- runs ----------------------------------------------------------------

  datatype FsOp =
    | CreateOp(dir: nat, name: Name, kind: U32)
    | WriteOp(ino: nat, data: seq<Byte>)
    | UnlinkOp(dir: nat, name: Name)

  /** Callers name inodes of the table; what they create goes into a live directory and is of one of the two kinds. */
  predicate Legal(s: Fs, op: FsOp)
  {
    match op
    case CreateOp(dir, _, kind) => LiveDir(s, dir) && (kind == FILE || kind == DIR)
    case WriteOp(ino, _) => ino < MAX_INODES
    case UnlinkOp(dir, _) => dir < MAX_INODES
  }

  ghost predicate Step(s: Fs, op: FsOp, s': Fs, r: int)
  {
    Legal(s, op) &&
    match op
    case CreateOp(dir, name, kind) => CreateStep(s, dir, name, kind, s', r)
    case WriteOp(ino, data) => OnDisk(s.inodes[ino].blocks) && (s', r) == WriteFile(s, ino, data)
    case UnlinkOp(dir, name) => UnlinkStep(s, dir, name, s', r)
  }

  /** Creates are turned down, or no entry has the name as it will be stored. */
  predicate Fits(s: Fs, op: FsOp)
    requires Legal(s, op)
  {
    op.CreateOp? ==> Refused(s, op.dir, op.name) || FreshStored(s, op.dir, op.name)
  }

  predicate StepFits(s: Fs, op: FsOp)
  {
    Legal(s, op) && Fits(s, op)
  }

  /** A run: the state before each operation, what it returned, and the state after it. */
  datatype Trace = Trace(states: seq<Fs>, ops: seq<FsOp>, results: seq<int>)

  predicate OpenStepAt(tr: Trace, i: nat, k: int) { true }

  /** Step number `i`, behind the trigger. */
  ghost predicate StepAt(tr: Trace, i: nat)
  {
    && i + 1 < |tr.states| && i < |tr.ops| && i < |tr.results|
    && (forall k {:trigger OpenStepAt(tr, i, k)} :: OpenStepAt(tr, i, k) ==>
         Step(tr.states[i], tr.ops[i], tr.states[i + 1], tr.results[i]))
  }

  ghost predicate IsRun(tr: Trace)
  {
    |tr.states| == |tr.ops| + 1 && forall i: nat {:trigger StepAt(tr, i)} :: i < |tr.ops| ==> StepAt(tr, i)
  }

  predicate OpenFitsAt(tr: Trace, i: nat, k: int) { true }

  ghost predicate FitsAt(tr: Trace, i: nat)
  {
    StepAt(tr, i) && forall k {:trigger OpenFitsAt(tr, i, k)} :: OpenFitsAt(tr, i, k) ==>
      StepFits(tr.states[i], tr.ops[i])
  }

  ghost predicate IsFittingRun(tr: Trace)
  {
    IsRun(tr) && forall i: nat {:trigger FitsAt(tr, i)} :: i < |tr.ops| ==> FitsAt(tr, i)
  }

  lemma StepOk(s: Fs, op: FsOp, s': Fs, r: int)
    requires FsOk(s) && Step(s, op, s', r)
    ensures FsOk(s')
  {
    match op
    case CreateOp(dir, name, kind) => CreateOk(s, dir, name, kind, s', r);
    case WriteOp(ino, data) => WriteFileWrote(s, ino, data);
    case UnlinkOp(dir, name) => UnlinkOk(s, dir, name, s', r);
  }

  lemma StepTree(s: Fs, op: FsOp, s': Fs, r: int)
    requires HasTree(s) && Step(s, op, s', r) && Fits(s, op)
    ensures HasTree(s')
  {
    var depth := TreeDepths(s);
    match op
    case CreateOp(dir, name, kind) => CreateKeepsTreeIff(s, depth, dir, name, kind, s', r);
    case WriteOp(ino, data) => WriteKeepsTree(s, depth, ino, data, s', r);
    case UnlinkOp(dir, name) => UnlinkKeepsTree(s, depth, dir, name, s', r);
  }

  lemma WriteKeepsTree(s: Fs, depth: Depths, ino: nat, data: seq<Byte>, s': Fs, r: int)
    requires TreeOk(s, depth) && ino < MAX_INODES && OnDisk(s.inodes[ino].blocks) && (s', r) == WriteFile(s, ino, data)
    ensures HasTree(s')
  {
    WriteFileWrote(s, ino, data);
    if s.inodes[ino].kind == FILE { WriteReplaces(s, depth, ino, data, s', r); }
    HasTreeBy(s', depth);
  }

  lemma UnlinkKeepsTree(s: Fs, depth: Depths, dir: nat, name: Name, s': Fs, r: int)
    requires TreeOk(s, depth) && dir < MAX_INODES && UnlinkStep(s, dir, name, s', r)
    ensures HasTree(s')
  {
    if Refuses(s, dir, name) {
      HasTreeBy(s', depth);
    } else {
      LookupNames(s, depth, dir, name);
      UnlinkPrunes(s, depth, dir, name, s', r);
      HasTreeBy(s', Restrict(depth, Abs(s')));
    }
  }

  lemma NextSound(tr: Trace, i: nat)
    requires StepAt(tr, i) && FsOk(tr.states[i])
    ensures FsOk(tr.states[i + 1])
  {
    assert OpenStepAt(tr, i, 0);
    StepOk(tr.states[i], tr.ops[i], tr.states[i + 1], tr.results[i]);
  }

  lemma NextTree(tr: Trace, i: nat)
    requires FitsAt(tr, i) && HasTree(tr.states[i])
    ensures HasTree(tr.states[i + 1])
  {
    assert OpenStepAt(tr, i, 0) && OpenFitsAt(tr, i, 0);
    StepTree(tr.states[i], tr.ops[i], tr.states[i + 1], tr.results[i]);
  }

  /** In every run every state is sound: the set bits of the bitmap are exactly the blocks that inodes name, none is
      named twice, and all lie in the data area. */
  lemma {:induction false} RunsStaySound(tr: Trace, i: nat)
    requires IsRun(tr) && FsOk(tr.states[0]) && i < |tr.states|
    ensures FsOk(tr.states[i])
  {
    if i > 0 {
      RunsStaySound(tr, i - 1);
      assert StepAt(tr, i - 1);
      NextSound(tr, i - 1);
    }
  }

  /** In every run whose creates use fresh stored names, the inodes in use are one tree rooted at 0 in every state. */
  lemma {:induction false} RunsStayTrees(tr: Trace, i: nat)
    requires IsFittingRun(tr) && HasTree(tr.states[0]) && i < |tr.states|
    ensures HasTree(tr.states[i])
  {
    if i > 0 {
      RunsStayTrees(tr, i - 1);
      assert FitsAt(tr, i - 1);
      NextTree(tr, i - 1);
    }
  }

  /** No name given to sfs_create is longer than its slot. */
  predicate ShortNames(ops: seq<FsOp>)
  {
    forall i :: 0 <= i < |ops| && ops[i].CreateOp? ==> |ops[i].name| <= NAME_MAX
  }

  lemma ShortFits(tr: Trace, i: nat)
    requires StepAt(tr, i) && (tr.ops[i].CreateOp? ==> |tr.ops[i].name| <= NAME_MAX)
    ensures FitsAt(tr, i)
  {
    assert OpenStepAt(tr, i, 0);
    var s, op := tr.states[i], tr.ops[i];
    if op.CreateOp? && !Refused(s, op.dir, op.name) { ShortNamesAreFresh(s, op.dir, op.name); }
  }

  /** In particular in every run, whatever it does, whose names have at most 27 bytes. */
  lemma ShortNamesStayTrees(tr: Trace, i: nat)
    requires IsRun(tr) && ShortNames(tr.ops) && HasTree(tr.states[0]) && i < |tr.states|
    ensures HasTree(tr.states[i])
  {
    forall j: nat | j < |tr.ops| ensures FitsAt(tr, j) {
      assert StepAt(tr, j);
      ShortFits(tr, j);
    }
    RunsStayTrees(tr, i);
  }

  /** From a formatted disk, every run stays sound, and every run with names of at most 27 bytes keeps a tree. */
  lemma RunsFromFormat(data: seq<Block>, tr: Trace, i: nat)
    requires IsRun(tr) && Formatted(data, tr.states[0]) && i < |tr.states|
    ensures FsOk(tr.states[i]) && (ShortNames(tr.ops) ==> HasTree(tr.states[i]))
  {
    FormatOk(data, tr.states[0]);
    RunsStaySound(tr, i);
    if ShortNames(tr.ops) {
      HasTreeBy(tr.states[0], map[ROOT := 0]);
      ShortNamesStayTrees(tr, i);
    }
  }
}
