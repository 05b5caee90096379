/** Whole runs of the kernel heap, and its accounting. */
module HeapRuns {
  import opened Bytes
  import opened HeapLayout
  import opened HeapEdits

  datatype HeapOp = MallocOp(request: U32) | FreeOp(ptr: nat)

  /** Callers free null or what they were given and have not freed yet. */
  predicate HeapStep(bs: seq<Block>, op: HeapOp, bs': seq<Block>)
  {
    match op
    case MallocOp(r) => bs' == Malloc(bs, r).0
    case FreeOp(p) => Freeable(bs, p) && bs' == Freed(bs, p)
  }

  ghost predicate HeapRun(trace: seq<seq<Block>>, ops: seq<HeapOp>)
  {
    && |trace| == |ops| + 1 && Layout(trace[0])
    && (forall i: nat {:trigger StepAt(trace, ops, i)} :: i < |ops| ==> StepAt(trace, ops, i))
  }

  predicate StepAt(trace: seq<seq<Block>>, ops: seq<HeapOp>, i: nat)
    requires i < |ops| && |trace| == |ops| + 1
  {
    HeapStep(trace[i], ops[i], trace[i + 1])
  }

  /** Each call keeps the blocks a tiling with no two free neighbours, and at least eight bytes each unless the
      request wraps. */
  lemma StepKeepsLayout(bs: seq<Block>, op: HeapOp, bs': seq<Block>)
    requires Layout(bs) && HeapStep(bs, op, bs')
    ensures Layout(bs')
    ensures Roomy(bs) && (op.MallocOp? ==> op.request <= MAX_REQUEST) ==> Roomy(bs')
  {
    match op
    case MallocOp(r) => MallocMeets(bs, r);
    case FreeOp(p) => FreeMeets(bs, p);
  }

  predicate NoWrap(ops: seq<HeapOp>)
  {
    forall j :: 0 <= j < |ops| && ops[j].MallocOp? ==> ops[j].request <= MAX_REQUEST
  }

  /** In every run the blocks tile the region with no two free neighbours, and as long as no request wraps, every
      block has at least eight bytes. */
  lemma {:induction false} RunsStayLayouts(trace: seq<seq<Block>>, ops: seq<HeapOp>, i: nat)
    requires HeapRun(trace, ops) && i <= |ops|
    ensures Layout(trace[i]) && (Roomy(trace[0]) && NoWrap(ops) ==> Roomy(trace[i]))
  {
    if i > 0 {
      RunsStayLayouts(trace, ops, i - 1);
      assert StepAt(trace, ops, i - 1);
      StepKeepsLayout(trace[i - 1], ops[i - 1], trace[i]);
    }
  }

  lemma StepKeepsLive(bs: seq<Block>, op: HeapOp, bs': seq<Block>, b: Block)
    requires Layout(bs) && HeapStep(bs, op, bs') && b in Live(bs) && op != FreeOp(b.addr + HDR)
    ensures b in Live(bs')
  {
    match op
    case MallocOp(r) => MallocMeets(bs, r);
    case FreeOp(p) => FreeMeets(bs, p);
  }

  /** An allocation is neither moved nor resized before it is freed. */
  lemma {:induction false} AllocationsStay(trace: seq<seq<Block>>, ops: seq<HeapOp>, i: nat, j: nat, b: Block)
    requires HeapRun(trace, ops) && i <= j <= |ops| && b in Live(trace[i])
    requires forall k :: i <= k < j ==> ops[k] != FreeOp(b.addr + HDR)
    ensures b in Live(trace[j])
    decreases j
  {
    if i < j {
      AllocationsStay(trace, ops, i, j - 1, b);
      RunsStayLayouts(trace, ops, j - 1);
      assert StepAt(trace, ops, j - 1);
      StepKeepsLive(trace[j - 1], ops[j - 1], trace[j], b);
    }
  }

  /** Whatever happened in between, the same allocations are the same layout again. */
  lemma SameLiveSameLayout(trace: seq<seq<Block>>, ops: seq<HeapOp>)
    requires HeapRun(trace, ops) && Live(trace[|ops|]) == Live(trace[0])
    ensures trace[|ops|] == trace[0]
  {
    RunsStayLayouts(trace, ops, |ops|);
    Canonical(trace[|ops|], trace[0]);
  }

  predicate OnlyFrees(ops: seq<HeapOp>)
  {
    forall j :: 0 <= j < |ops| ==> ops[j].FreeOp? && ops[j].ptr != 0
  }

  lemma FreeTakesOne(bs: seq<Block>, p: nat)
    requires Layout(bs) && Freeable(bs, p) && p != 0
    ensures |Live(Freed(bs, p))| == |Live(bs)| - 1
  {
    FreeMeets(bs, p);
    var bs' := Freed(bs, p);
    var b :| b in Live(bs) && FreeOf(bs, p, b, bs');
    assert Live(bs) == Live(bs') + {b};
  }

  lemma {:induction false} FreesCount(trace: seq<seq<Block>>, ops: seq<HeapOp>, i: nat)
    requires HeapRun(trace, ops) && i <= |ops| && OnlyFrees(ops)
    ensures |Live(trace[i])| == |Live(trace[0])| - i
  {
    if i > 0 {
      FreesCount(trace, ops, i - 1);
      RunsStayLayouts(trace, ops, i - 1);
      assert StepAt(trace, ops, i - 1);
      FreeTakesOne(trace[i - 1], ops[i - 1].ptr);
    }
  }

  /** Freeing every allocation, in any order, leaves the single block that kheap_init makes. */
  lemma FreeingAllRestores(trace: seq<seq<Block>>, ops: seq<HeapOp>)
    requires HeapRun(trace, ops) && |ops| == |Live(trace[0])| && OnlyFrees(ops)
    ensures trace[|ops|] == Fresh()
  {
    FreesCount(trace, ops, |ops|);
    RunsStayLayouts(trace, ops, |ops|);
    FreshLayout();
    assert Live(trace[|ops|]) == {};
    Canonical(trace[|ops|], Fresh());
  }

  // --- accounting ----------------------------------------------------------

  /** Payload bytes of the first `n` blocks that are free, or that are not. */
  function PayloadOf(bs: seq<Block>, free: bool, n: nat): (sum: nat)
    requires n <= |bs|
  {
    if n == 0 then 0
    else PayloadOf(bs, free, n - 1) + if bs[n - 1].free == free then bs[n - 1].size else 0
  }

  lemma {:induction false} PayloadUpTo(bs: seq<Block>, n: nat)
    requires Tiles(bs) && n <= |bs|
    ensures PayloadOf(bs, true, n) + PayloadOf(bs, false, n) + HDR * n
            == (if n == |bs| then HEAP_END else bs[n].addr) - HEAP_START
  {
    if n > 0 {
      PayloadUpTo(bs, n - 1);
      if n < |bs| { assert Follows(bs[n - 1], bs[n]); }
    }
  }

  /** Used and free payload and one header for each block make up the region. */
  lemma BytesConserved(bs: seq<Block>)
    requires Tiles(bs)
    ensures PayloadOf(bs, false, |bs|) + PayloadOf(bs, true, |bs|) + HDR * |bs| == HEAP_SIZE
  {
    PayloadUpTo(bs, |bs|);
  }

  /** Payload bytes of a set of blocks. */
  ghost function Total(blocks: set<Block>): nat
  {
    if blocks == {} then 0
    else
      var b :| b in blocks;
      b.size + Total(blocks - {b})
  }

  lemma {:induction false} TotalWithout(blocks: set<Block>, b: Block)
    requires b in blocks
    ensures Total(blocks) == b.size + Total(blocks - {b})
    decreases blocks
  {
    var c :| c in blocks && Total(blocks) == c.size + Total(blocks - {c});
    if c != b {
      TotalWithout(blocks - {c}, b);
      TotalWithout(blocks - {b}, c);
      assert blocks - {c} - {b} == blocks - {b} - {c};
    }
  }

  lemma TotalWith(blocks: set<Block>, b: Block)
    requires b !in blocks
    ensures Total(blocks + {b}) == Total(blocks) + b.size
  {
    TotalWithout(blocks + {b}, b);
    assert blocks + {b} - {b} == blocks;
  }

  /** The allocations among the first `n` blocks. */
  ghost function LiveIn(bs: seq<Block>, n: nat): set<Block>
    requires n <= |bs|
  {
    set i | 0 <= i < n && !bs[i].free :: bs[i]
  }

  lemma {:induction false} UsedUpTo(bs: seq<Block>, n: nat)
    requires Tiles(bs) && n <= |bs|
    ensures PayloadOf(bs, false, n) == Total(LiveIn(bs, n))
  {
    if n > 0 {
      UsedUpTo(bs, n - 1);
      var b := bs[n - 1];
      if b.free {
        assert LiveIn(bs, n) == LiveIn(bs, n - 1);
      } else {
        assert LiveIn(bs, n) == LiveIn(bs, n - 1) + {b};
        LastIsNew(bs, n - 1);
        TotalWith(LiveIn(bs, n - 1), b);
      }
    } else {
      assert LiveIn(bs, n) == {};
    }
  }

  lemma LastIsNew(bs: seq<Block>, n: nat)
    requires Tiles(bs) && n < |bs|
    ensures bs[n] !in LiveIn(bs, n)
  {
    forall i | 0 <= i < n ensures bs[i] != bs[n] {
      InOrder(bs, i, n);
    }
  }

  /** kheap_used counts the payloads of the allocations, and kheap_free the rest of the region without the headers. */
  lemma CountersMean(bs: seq<Block>)
    requires Tiles(bs)
    ensures PayloadOf(bs, false, |bs|) == Total(Live(bs))
    ensures PayloadOf(bs, true, |bs|) == HEAP_SIZE - HDR * |bs| - Total(Live(bs))
  {
    UsedUpTo(bs, |bs|);
    assert LiveIn(bs, |bs|) == Live(bs);
    BytesConserved(bs);
  }

  /** Without allocations nothing is in use, and a fresh heap is free but for its one header. */
  lemma NothingUsed(bs: seq<Block>)
    requires Layout(bs) && Live(bs) == {}
    ensures PayloadOf(bs, false, |bs|) == 0 && PayloadOf(bs, true, |bs|) == HEAP_SIZE - HDR
  {
    CountersMean(bs);
    FreshLayout();
    Canonical(bs, Fresh());
  }

  /** A successful kmalloc raises the used bytes by exactly the payload it grants. */
  lemma MallocRaisesUsed(bs: seq<Block>, r: U32)
    requires Layout(bs) && Malloc(bs, r).1 != 0
    ensures var (bs', p) := Malloc(bs, r);
            exists b :: b in Live(bs') && b.addr + HDR == p
                        && PayloadOf(bs', false, |bs'|) == PayloadOf(bs, false, |bs|) + b.size
  {
    var (bs', p) := Malloc(bs, r);
    MallocMeets(bs, r);
    var k :| MallocAt(bs, Align8(r), bs', p, k);
    var b := Block(bs[k].addr, Granted(bs[k].size, Align8(r)), false);
    FreshAllocation(bs, k, b);
    TotalWith(Live(bs), b);
    CountersMean(bs);
    CountersMean(bs');
    assert b in Live(bs');
  }

  /** kfree lowers them by exactly the payload of the block freed. */
  lemma FreeLowersUsed(bs: seq<Block>, b: Block)
    requires Layout(bs) && b in Live(bs)
    ensures Freeable(bs, b.addr + HDR)
    ensures var bs' := Freed(bs, b.addr + HDR);
            PayloadOf(bs', false, |bs'|) == PayloadOf(bs, false, |bs|) - b.size
  {
    LiveIsFreeable(bs, b);
    FreeMeets(bs, b.addr + HDR);
    var bs' := Freed(bs, b.addr + HDR);
    var c :| c in Live(bs) && FreeOf(bs, b.addr + HDR, c, bs');
    OneAt(bs, b, c);
    TotalWithout(Live(bs), b);
    CountersMean(bs);
    CountersMean(bs');
  }
}
