/** The edits that the kernel heap makes to its layout, one block at a time, and kmalloc and kfree as functions built
    from them. */
module HeapEdits {
  import opened Bytes
  import opened HeapLayout

  // --- marking, splitting, joining -----------------------------------------

  function Mark(bs: seq<Block>, k: nat, free: bool): seq<Block>
    requires k < |bs|
  {
    bs[k := bs[k].(free := free)]
  }

  lemma MarkTiles(bs: seq<Block>, k: nat, free: bool)
    requires Tiles(bs) && k < |bs|
    ensures Tiles(Mark(bs, k, free)) && (Roomy(bs) ==> Roomy(Mark(bs, k, free)))
  {
  }

  lemma MarkLive(bs: seq<Block>, k: nat)
    requires Tiles(bs) && k < |bs| && !bs[k].free
    ensures Live(Mark(bs, k, true)) == Live(bs) - {bs[k]}
  {
    var bs' := Mark(bs, k, true);
    forall b ensures b in Live(bs') <==> b in Live(bs) && b != bs[k] {
      if b in Live(bs) && b != bs[k] {
        var i :| 0 <= i < |bs| && bs[i] == b;
        assert bs'[i] == b;
      }
      if b in Live(bs') {
        var i :| 0 <= i < |bs'| && bs'[i] == b && !b.free;
        assert bs[i] == b;
        if b == bs[k] { SameAddress(bs, i, k); }
      }
    }
  }

  lemma UseLive(bs: seq<Block>, k: nat)
    requires k < |bs| && bs[k].free
    ensures Live(Mark(bs, k, false)) == Live(bs) + {Mark(bs, k, false)[k]}
    ensures Merged(bs, |bs|) ==> Merged(Mark(bs, k, false), |bs|)
  {
    var bs' := Mark(bs, k, false);
    forall b ensures b in Live(bs') <==> b in Live(bs) || b == bs'[k] {
      if b in Live(bs) {
        var i :| 0 <= i < |bs| && bs[i] == b;
        assert bs'[i] == b;
      }
      assert bs'[k] in Live(bs');
    }
  }

  /** Block `k` cut after `n` payload bytes; both parts are still free. */
  function Split(bs: seq<Block>, k: nat, n: nat): seq<Block>
    requires k < |bs| && bs[k].size >= n + HDR
  {
    bs[..k] + [Block(bs[k].addr, n, bs[k].free), Block(bs[k].addr + HDR + n, bs[k].size - n - HDR, true)] + bs[k + 1..]
  }

  lemma SplitAt(bs: seq<Block>, k: nat, n: nat, i: nat)
    requires k < |bs| && bs[k].size >= n + HDR && i < |bs| + 1
    ensures var bs' := Split(bs, k, n);
            |bs'| == |bs| + 1
            && bs'[i] == if i < k then bs[i]
                         else if i == k then Block(bs[k].addr, n, bs[k].free)
                         else if i == k + 1 then Block(bs[k].addr + HDR + n, bs[k].size - n - HDR, true)
                         else bs[i - 1]
  {
  }

  lemma SplitTiles(bs: seq<Block>, k: nat, n: nat)
    requires Tiles(bs) && k < |bs| && bs[k].size >= n + HDR && n % 4 == 0
    ensures Tiles(Split(bs, k, n))
  {
    var bs' := Split(bs, k, n);
    forall i: nat | i < |bs'| ensures bs'[i].size % 4 == 0 {
      SplitAt(bs, k, n, i);
    }
    forall i: nat, j: nat | j == i + 1 && j < |bs'| ensures Follows(bs'[i], bs'[j]) {
      SplitAt(bs, k, n, i);
      SplitAt(bs, k, n, j);
      if i > k + 1 { assert Follows(bs[i - 1], bs[i]); }
      if i < k { assert Follows(bs[i], bs[i + 1]); }
      if i == k + 1 { assert Follows(bs[k], bs[k + 1]); }
    }
    SplitAt(bs, k, n, 0);
    SplitAt(bs, k, n, |bs|);
  }

  /** Splitting a free block and using its first part. */
  lemma SplitLive(bs: seq<Block>, k: nat, n: nat)
    requires k < |bs| && bs[k].free && bs[k].size >= n + HDR
    ensures Live(Split(bs, k, n)) == Live(bs)
  {
    var bs' := Split(bs, k, n);
    forall b ensures b in Live(bs') <==> b in Live(bs) {
      if b in Live(bs) {
        var i :| 0 <= i < |bs| && bs[i] == b && !b.free;
        var j := if i < k then i else i + 1;
        SplitAt(bs, k, n, j);
        assert bs'[j] == b;
      }
      if b in Live(bs') {
        var i :| 0 <= i < |bs'| && bs'[i] == b && !b.free;
        SplitAt(bs, k, n, i);
        assert b == bs[if i < k then i else i - 1];
      }
    }
  }

  lemma SplitMerged(bs: seq<Block>, k: nat, n: nat)
    requires k < |bs| && bs[k].free && bs[k].size >= n + HDR && Merged(bs, |bs|)
    ensures var bs' := Mark(Split(bs, k, n), k, false); Merged(bs', |bs'|)
  {
    var bs' := Split(bs, k, n);
    forall i: nat, j: nat | j == i + 1 && j < |bs'| && i != k && j != k ensures !(bs'[i].free && bs'[j].free) {
      SplitAt(bs, k, n, i);
      SplitAt(bs, k, n, j);
      assert i > k ==> !(bs[i - 1].free && bs[i].free);
    }
  }

  /** Block `k` with the next one added to it. */
  function Join(bs: seq<Block>, k: nat): seq<Block>
    requires k + 1 < |bs|
  {
    bs[..k] + [bs[k].(size := bs[k].size + HDR + bs[k + 1].size)] + bs[k + 2..]
  }

  lemma JoinAt(bs: seq<Block>, k: nat, i: nat)
    requires k + 1 < |bs| && i + 1 < |bs|
    ensures var bs' := Join(bs, k);
            |bs'| == |bs| - 1
            && bs'[i] == if i < k then bs[i]
                         else if i == k then bs[k].(size := bs[k].size + HDR + bs[k + 1].size)
                         else bs[i + 1]
  {
  }

  lemma JoinTiles(bs: seq<Block>, k: nat)
    requires Tiles(bs) && k + 1 < |bs|
    ensures Tiles(Join(bs, k))
  {
    var bs' := Join(bs, k);
    assert Follows(bs[k], bs[k + 1]);
    forall i: nat | i < |bs'| ensures bs'[i].size % 4 == 0 {
      JoinAt(bs, k, i);
    }
    forall i: nat, j: nat | j == i + 1 && j < |bs'| ensures Follows(bs'[i], bs'[j]) {
      JoinAt(bs, k, i);
      JoinAt(bs, k, j);
      if i >= k { assert Follows(bs[i + 1], bs[i + 2]); } else { assert Follows(bs[i], bs[i + 1]); }
    }
    JoinAt(bs, k, 0);
    JoinAt(bs, k, |bs| - 2);
  }

  /** Merging two free neighbours changes no allocation. */
  lemma JoinLive(bs: seq<Block>, k: nat)
    requires k + 1 < |bs| && bs[k].free && bs[k + 1].free
    ensures Live(Join(bs, k)) == Live(bs)
  {
    var bs' := Join(bs, k);
    forall b ensures b in Live(bs') <==> b in Live(bs) {
      if b in Live(bs) {
        var i :| 0 <= i < |bs| && bs[i] == b && !b.free;
        var j := if i < k then i else i - 1;
        JoinAt(bs, k, j);
        assert bs'[j] == b;
      }
      if b in Live(bs') {
        var i :| 0 <= i < |bs'| && bs'[i] == b && !b.free;
        JoinAt(bs, k, i);
        assert b == bs[if i < k then i else i + 1];
      }
    }
  }

  lemma JoinMerged(bs: seq<Block>, k: nat)
    requires k + 1 < |bs| && bs[k].free && Merged(bs, k + 1)
    ensures Merged(Join(bs, k), k + 1) && (Roomy(bs) ==> Roomy(Join(bs, k)))
  {
    var bs' := Join(bs, k);
    forall i: nat | i < |bs'| ensures Roomy(bs) ==> bs'[i].size >= 8 {
      JoinAt(bs, k, i);
    }
    forall i: nat, j: nat | j == i + 1 && j < k + 1 ensures !(bs'[i].free && bs'[j].free) {
      JoinAt(bs, k, i);
      JoinAt(bs, k, j);
    }
  }

  lemma SplitRoomy(bs: seq<Block>, k: nat, n: nat)
    requires Roomy(bs) && k < |bs| && bs[k].size >= n + HDR + 8 && n >= 8
    ensures Roomy(Split(bs, k, n))
  {
    forall i: nat | i < |Split(bs, k, n)| ensures Split(bs, k, n)[i].size >= 8 {
      SplitAt(bs, k, n, i);
    }
  }

  // --- kmalloc -------------------------------------------------------------

  /** The first block from `i` on that can hold `n` bytes; the number of blocks if there is none. */
  function FirstFit(bs: seq<Block>, n: nat, i: nat): (k: nat)
    requires i <= |bs|
    ensures i <= k <= |bs|
    ensures k < |bs| ==> Fits(bs[k], n)
    ensures forall j :: i <= j < k ==> !Fits(bs[j], n)
    decreases |bs| - i
  {
    if i == |bs| || Fits(bs[i], n) then i else FirstFit(bs, n, i + 1)
  }

  /** Block `k` handed out, after splitting if the rest can hold a header and eight bytes. */
  function Carved(bs: seq<Block>, k: nat, n: nat): seq<Block>
    requires k < |bs|
  {
    Mark(if bs[k].size >= n + HDR + 8 then Split(bs, k, n) else bs, k, false)
  }

  /** kmalloc: the layout after it, and the pointer. */
  function Malloc(bs: seq<Block>, r: U32): (seq<Block>, nat)
  {
    var k := FirstFit(bs, Align8(r), 0);
    if r == 0 || k == |bs| then (bs, 0) else (Carved(bs, k, Align8(r)), bs[k].addr + HDR)
  }

  lemma CarvedOk(bs: seq<Block>, k: nat, n: nat)
    requires Layout(bs) && k < |bs| && Fits(bs[k], n) && n % 4 == 0
    ensures Layout(Carved(bs, k, n)) && (Roomy(bs) && n >= 8 ==> Roomy(Carved(bs, k, n)))
    ensures Live(Carved(bs, k, n)) == Live(bs) + {Block(bs[k].addr, Granted(bs[k].size, n), false)}
  {
    if bs[k].size >= n + HDR + 8 {
      var mid := Split(bs, k, n);
      SplitTiles(bs, k, n);
      SplitLive(bs, k, n);
      SplitMerged(bs, k, n);
      SplitAt(bs, k, n, k);
      if Roomy(bs) && n >= 8 { SplitRoomy(bs, k, n); }
      MarkTiles(mid, k, false);
      UseLive(mid, k);
    } else {
      MarkTiles(bs, k, false);
      UseLive(bs, k);
    }
  }

  /** What kmalloc does meets its specification; above all, what it leaves is a layout again. */
  lemma MallocMeets(bs: seq<Block>, r: U32)
    requires Layout(bs)
    ensures MallocStep(bs, r, Malloc(bs, r).0, Malloc(bs, r).1)
  {
    var n := Align8(r);
    var k := FirstFit(bs, n, 0);
    if r != 0 && k < |bs| {
      CarvedOk(bs, k, n);
      assert MallocAt(bs, n, Carved(bs, k, n), bs[k].addr + HDR, k);
    }
  }

  lemma MallocKeepsLayout(bs: seq<Block>, r: U32)
    requires Layout(bs)
    ensures Layout(Malloc(bs, r).0)
  {
    MallocMeets(bs, r);
  }

  // --- kfree ---------------------------------------------------------------

  /** Runs of free neighbours merged, from block `k` on. */
  function Coalesced(bs: seq<Block>, k: nat): seq<Block>
    decreases |bs| - k
  {
    if k + 1 >= |bs| then bs
    else if bs[k].free && bs[k + 1].free then Coalesced(Join(bs, k), k)
    else Coalesced(bs, k + 1)
  }

  lemma {:induction false} CoalescedOk(bs: seq<Block>, k: nat)
    requires Tiles(bs) && Merged(bs, k + 1)
    ensures Layout(Coalesced(bs, k)) && Live(Coalesced(bs, k)) == Live(bs)
    ensures Roomy(bs) ==> Roomy(Coalesced(bs, k))
    decreases |bs| - k
  {
    if k + 1 < |bs| {
      if bs[k].free && bs[k + 1].free {
        JoinTiles(bs, k);
        JoinLive(bs, k);
        JoinMerged(bs, k);
        CoalescedOk(Join(bs, k), k);
      } else {
        MergedMore(bs, k);
        CoalescedOk(bs, k + 1);
      }
    }
  }

  lemma MergedMore(bs: seq<Block>, k: nat)
    requires Merged(bs, k + 1) && (k + 1 < |bs| ==> !(bs[k].free && bs[k + 1].free))
    ensures Merged(bs, k + 2)
  {
  }

  /** The allocation at address `a`, from block `i` on; the number of blocks if there is none. */
  function LiveAt(bs: seq<Block>, a: int, i: nat): (k: nat)
    requires i <= |bs|
    ensures i <= k <= |bs|
    ensures k < |bs| ==> !bs[k].free && bs[k].addr == a
    ensures forall j :: i <= j < k ==> bs[j].free || bs[j].addr != a
    decreases |bs| - i
  {
    if i == |bs| || (!bs[i].free && bs[i].addr == a) then i else LiveAt(bs, a, i + 1)
  }

  /** Null, or a pointer that kmalloc returned and that has not been freed. */
  predicate Freeable(bs: seq<Block>, p: nat)
  {
    p == 0 || LiveAt(bs, p - HDR, 0) < |bs|
  }

  /** kfree: the block is marked and its free neighbours are merged with it. */
  function Freed(bs: seq<Block>, p: nat): seq<Block>
    requires Freeable(bs, p)
  {
    if p == 0 then bs else Coalesced(Mark(bs, LiveAt(bs, p - HDR, 0), true), 0)
  }

  lemma FreeMeets(bs: seq<Block>, p: nat)
    requires Layout(bs) && Freeable(bs, p)
    ensures FreeStep(bs, p, Freed(bs, p))
  {
    if p != 0 {
      var k := LiveAt(bs, p - HDR, 0);
      MarkTiles(bs, k, true);
      MarkLive(bs, k);
      CoalescedOk(Mark(bs, k, true), 0);
      assert bs[k] in Live(bs) && FreeOf(bs, p, bs[k], Freed(bs, p));
    }
  }

  lemma LiveIsFreeable(bs: seq<Block>, b: Block)
    requires b in Live(bs)
    ensures Freeable(bs, b.addr + HDR)
  {
    var i :| 0 <= i < |bs| && bs[i] == b && !b.free;
    assert LiveAt(bs, b.addr, 0) <= i;
  }

  /** Freeing right after allocating restores the layout exactly. */
  lemma FreedMallocIsSame(bs: seq<Block>, r: U32)
    requires Layout(bs)
    ensures Freeable(Malloc(bs, r).0, Malloc(bs, r).1) && Freed(Malloc(bs, r).0, Malloc(bs, r).1) == bs
  {
    var (bs', p) := Malloc(bs, r);
    MallocMeets(bs, r);
    if p != 0 {
      var k :| MallocAt(bs, Align8(r), bs', p, k);
      LiveIsFreeable(bs', Block(bs[k].addr, Granted(bs[k].size, Align8(r)), false));
    }
    FreeMeets(bs', p);
    FreeUndoesMalloc(bs, r, bs', p, Freed(bs', p));
  }

  /** A request one byte too large for the rounding, on a fresh heap: a pointer, but no payload behind it. */
  lemma WrappedRequest()
    ensures var (bs, p) := Malloc(Fresh(), 0xFFFF_FFF9);
            p == HEAP_START + HDR && Live(bs) == {Block(HEAP_START, 0, false)}
  {
    var bs := Fresh();
    FreshLayout();
    assert FirstFit(bs, 0, 0) == 0;
    CarvedOk(bs, 0, 0);
  }
}
