/** Why data blocks never run out: 64 inodes of 14 pointers each name at most 896 of the 2048 data blocks. */
module SfsSpace {
  import opened Bytes
  import opened SfsLayout
  import opened SfsSpec
  import opened SfsBlocks

  /** Everything the first `n` pointers name. */
  function PointersIn(blocks: seq<U32>, n: nat): (r: set<int>)
    requires n <= |blocks|
    ensures |r| <= n
  {
    if n == 0 then {} else PointersIn(blocks, n - 1) + {blocks[n - 1]}
  }

  lemma {:induction false} PointerIn(blocks: seq<U32>, b: nat, n: nat)
    requires b < n <= |blocks|
    ensures blocks[b] in PointersIn(blocks, n)
  {
    if b < n - 1 { PointerIn(blocks, b, n - 1); }
  }

  /** Everything the first `n` inodes name. */
  function NamedIn(inodes: seq<Inode>, n: nat): (r: set<int>)
    requires n <= |inodes|
    ensures |r| <= DIRECT * n
  {
    if n == 0 then {}
    else
      var rest, own := NamedIn(inodes, n - 1), PointersIn(inodes[n - 1].blocks, DIRECT);
      assert |rest + own| <= |rest| + |own|;
      rest + own
  }

  lemma {:induction false} OwnedIsNamed(inodes: seq<Inode>, i: nat, b: nat, p: int, n: nat)
    requires Owns(inodes, i, b, p) && i < n <= |inodes|
    ensures p in NamedIn(inodes, n)
  {
    if i < n - 1 {
      OwnedIsNamed(inodes, i, b, p, n - 1);
    } else {
      PointerIn(inodes[i].blocks, b, DIRECT);
    }
  }

  /** The data blocks among the first `n` whose bit is set. */
  function UsedIn(used: seq<bool>, n: nat): (r: set<int>)
    requires n <= |used|
    ensures |r| == n - FreeIn(used, n)
    ensures forall p :: p in r ==> DATA_START <= p < DATA_START + n && used[p - DATA_START]
  {
    if n == 0 then {} else UsedIn(used, n - 1) + if used[n - 1] then {DATA_START + n - 1} else {}
  }

  lemma Fewer(a: set<int>, b: set<int>)
    requires a <= b
    ensures |a| <= |b|
  {
    assert b == a + (b - a);
  }

  /** On every sound disk at least 1152 data blocks are free, so that alloc_block never fails. */
  lemma AlwaysFree(s: Fs)
    requires FsOk(s)
    ensures FreeCount(s.used) >= MAX_DATA_BLOCKS - MAX_INODES * DIRECT && Alloc(s).1 != 0
  {
    FsOkIs(s);
    var used, named := UsedIn(s.used, MAX_DATA_BLOCKS), NamedIn(s.inodes, MAX_INODES);
    forall p | p in used ensures p in named {
      assert IsDataBlock(p) && Owned(s.inodes, p);
      var i, b :| Owns(s.inodes, i, b, p);
      OwnedIsNamed(s.inodes, i, b, p, MAX_INODES);
    }
    Fewer(used, named);
    AllocCount(s);
  }
}
