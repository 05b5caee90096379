/** The kernel heap of mem/kheap.c as it runs: headers in memory, linked by address, split and merged in place. */
module KHeap {
  import opened Bytes
  import opened HeapLayout
  import opened HeapEdits
  import opened HeapRuns

  datatype Header = Header(size: nat, free: bool, next: nat)

  const NULL := 0

  function NextOf(bs: seq<Block>, i: nat): nat
  {
    if i < |bs| then bs[i].addr else NULL
  }

  /** The header of every block is in memory and leads to the next one. */
  ghost predicate Linked(mem: map<nat, Header>, bs: seq<Block>)
  {
    forall i: nat {:trigger LinkedAt(mem, bs, i)} :: i < |bs| ==> LinkedAt(mem, bs, i)
  }

  predicate LinkedAt(mem: map<nat, Header>, bs: seq<Block>, i: nat)
    requires i < |bs|
  {
    bs[i].addr in mem && mem[bs[i].addr] == Header(bs[i].size, bs[i].free, NextOf(bs, i + 1))
  }

  // --- edits of one or two headers -----------------------------------------

  lemma MarkLinked(mem: map<nat, Header>, bs: seq<Block>, k: nat, free: bool)
    requires Tiles(bs) && Linked(mem, bs) && k < |bs|
    ensures Tiles(Mark(bs, k, free))
    ensures Linked(mem[bs[k].addr := Header(bs[k].size, free, NextOf(bs, k + 1))], Mark(bs, k, free))
  {
    assert LinkedAt(mem, bs, k);
    var bs' := Mark(bs, k, free);
    var mem' := mem[bs[k].addr := Header(bs[k].size, free, NextOf(bs, k + 1))];
    forall i: nat | i < |bs'| ensures LinkedAt(mem', bs', i) {
      assert LinkedAt(mem, bs, i);
      if i != k && bs[i].addr == bs[k].addr { SameAddress(bs, i, k); }
    }
  }

  lemma SplitLinked(mem: map<nat, Header>, bs: seq<Block>, k: nat, n: nat)
    requires Tiles(bs) && Linked(mem, bs) && k < |bs| && bs[k].size >= n + HDR && n % 4 == 0
    ensures var nb := bs[k].addr + HDR + n;
            var rest := Header(bs[k].size - n - HDR, true, NextOf(bs, k + 1));
            Linked(mem[nb := rest][bs[k].addr := Header(n, bs[k].free, nb)], Split(bs, k, n))
  {
    var bs' := Split(bs, k, n);
    SplitTiles(bs, k, n);
    SplitAt(bs, k, n, k);
    SplitAt(bs, k, n, k + 1);
    forall i: nat | i < |bs'| ensures bs'[i].addr == bs'[k].addr ==> i == k {
      if bs'[i].addr == bs'[k].addr { SameAddress(bs', i, k); }
    }
    forall i: nat | i < |bs'| ensures bs'[i].addr == bs'[k + 1].addr ==> i == k + 1 {
      if bs'[i].addr == bs'[k + 1].addr { SameAddress(bs', i, k + 1); }
    }
    var nb := bs[k].addr + HDR + n;
    var rest := Header(bs[k].size - n - HDR, true, NextOf(bs, k + 1));
    var mem' := mem[nb := rest][bs[k].addr := Header(n, bs[k].free, nb)];
    forall i: nat | i < |bs'| ensures LinkedAt(mem', bs', i) {
      if i != k + 1 { assert LinkedAt(mem, bs, if i <= k then i else i - 1); }
      SplitAt(bs, k, n, i);
      if i + 1 < |bs'| { SplitAt(bs, k, n, i + 1); }
    }
  }

  lemma JoinLinked(mem: map<nat, Header>, bs: seq<Block>, k: nat)
    requires Tiles(bs) && Linked(mem, bs) && k + 1 < |bs|
    ensures Linked(mem[bs[k].addr := Header(bs[k].size + HDR + bs[k + 1].size, bs[k].free, NextOf(bs, k + 2))],
            Join(bs, k))
  {
    var bs' := Join(bs, k);
    var mem' := mem[bs[k].addr := Header(bs[k].size + HDR + bs[k + 1].size, bs[k].free, NextOf(bs, k + 2))];
    forall i: nat | i < |bs'| ensures LinkedAt(mem', bs', i) {
      JoinAt(bs, k, i);
      if i + 1 < |bs'| { JoinAt(bs, k, i + 1); }
      var o := if i <= k then i else i + 1;
      assert LinkedAt(mem, bs, o);
      assert bs'[i].addr == bs[o].addr;
      if o != k && bs[o].addr == bs[k].addr { SameAddress(bs, o, k); }
    }
  }

  // --- the heap ------------------------------------------------------------

  class Heap {
    var mem: map<nat, Header>
    var head: nat
    /** The blocks, in the order of the list. */
    ghost var blocks: seq<Block>

    /** The list in memory is the blocks, which tile the region. */
    ghost predicate Chained()
      reads this
    {
      head == HEAP_START && Tiles(blocks) && Linked(mem, blocks)
    }

    ghost predicate Valid()
      reads this
    {
      Chained() && Layout(blocks)
    }

    /** kheap_init. */
    constructor ()
      ensures Valid() && blocks == Fresh()
    {
      head := HEAP_START;
      mem := map[HEAP_START := Header(HEAP_SIZE - HDR, true, NULL)];
      blocks := Fresh();
    }

    /** kmalloc. */
    method KMalloc(request: U32) returns (p: nat)
      requires Valid()
      modifies this
      ensures Valid() && (blocks, p) == Malloc(old(blocks), request)
      ensures MallocStep(old(blocks), request, blocks, p)
    {
      ghost var bs := blocks;
      p := HandOut(request);
      MallocMeets(bs, request);
    }

    method HandOut(request: U32) returns (p: nat)
      requires Valid()
      modifies this
      ensures Valid() && (blocks, p) == Malloc(old(blocks), request)
    {
      MallocKeepsLayout(blocks, request);
      if request == 0 { return NULL; }
      var n := Align8(request);
      var cur, k := FindFit(n);
      if cur == NULL { return NULL; }
      Take(cur, n, k);
      return cur + HDR;
    }

    /** The scan of kmalloc for the first free block that is large enough. */
    method FindFit(n: U32) returns (cur: nat, ghost k: nat)
      requires Chained()
      ensures k == FirstFit(blocks, n, 0) && cur == NextOf(blocks, k) && (k < |blocks| ==> cur != NULL)
    {
      cur, k := head, 0;
      while cur != NULL
        invariant 0 <= k <= |blocks| && cur == NextOf(blocks, k) && FirstFit(blocks, n, 0) == FirstFit(blocks, n, k)
        decreases |blocks| - k
      {
        InRegion(blocks, k);
        assert LinkedAt(mem, blocks, k);
        if mem[cur].free && n <= mem[cur].size { return; }
        cur, k := mem[cur].next, k + 1;
        if k < |blocks| { InRegion(blocks, k); }
      }
      assert k == |blocks| by { if k < |blocks| { InRegion(blocks, k); } }
    }

    /** Handing out block `k`, split first if the rest can hold a header and eight bytes. The sum is a 32-bit one. */
    method Take(cur: nat, n: U32, ghost k: nat)
      requires Chained() && k < |blocks| && cur == blocks[k].addr && Fits(blocks[k], n) && n % 8 == 0
      modifies this
      ensures Chained() && blocks == Carved(old(blocks), k, n)
    {
      InRegion(blocks, k);
      assert LinkedAt(mem, blocks, k);
      if mem[cur].size >= (n + HDR + 8) % WORD { CutOff(cur, n, k); }
      assert LinkedAt(mem, blocks, k);
      MarkLinked(mem, blocks, k, false);
      mem := mem[cur := mem[cur].(free := false)];
      blocks := Mark(blocks, k, false);
    }

    /** The split: the block keeps `n` bytes, the rest becomes a free block. */
    method CutOff(cur: nat, n: U32, ghost k: nat)
      requires Chained() && k < |blocks| && cur == blocks[k].addr && n % 8 == 0 && blocks[k].size >= n + HDR + 8
      modifies this
      ensures Chained() && blocks == Split(old(blocks), k, n) && k < |blocks| && blocks[k].addr == cur
    {
      var nb := cur + HDR + n;
      SplitTiles(blocks, k, n);
      SplitLinked(mem, blocks, k, n);
      SplitAt(blocks, k, n, k);
      assert LinkedAt(mem, blocks, k);
      mem := mem[nb := Header(mem[cur].size - n - HDR, true, mem[cur].next)][cur := Header(n, mem[cur].free, nb)];
      blocks := Split(blocks, k, n);
    }

    /** kfree of null or of the payload of a live block. */
    method KFree(p: nat)
      requires Valid() && (p == NULL || exists b :: b in Live(blocks) && b.addr + HDR == p)
      modifies this
      ensures Valid() && Freeable(old(blocks), p) && blocks == Freed(old(blocks), p)
      ensures FreeStep(old(blocks), p, blocks)
    {
      if p == NULL { return; }
      ghost var b :| b in Live(blocks) && b.addr + HDR == p;
      LiveIsFreeable(blocks, b);
      FreeMeets(blocks, p);
      var h := p - HDR;
      ghost var k := LiveAt(blocks, h, 0);
      assert LinkedAt(mem, blocks, k);
      MarkLinked(mem, blocks, k, true);
      mem := mem[h := mem[h].(free := true)];
      blocks := Mark(blocks, k, true);
      Coalesce();
    }

    /** Merging runs of free neighbours, all along the list. */
    method Coalesce()
      requires Chained()
      modifies this
      ensures Chained() && blocks == Coalesced(old(blocks), 0)
    {
      var cur := head;
      ghost var k := 0;
      while cur != NULL
        invariant Chained() && 0 <= k <= |blocks| && cur == NextOf(blocks, k)
        invariant Coalesced(old(blocks), 0) == Coalesced(blocks, k)
        decreases |blocks| - k
      {
        InRegion(blocks, k);
        MergeFrom(cur, k);
        assert LinkedAt(mem, blocks, k);
        cur, k := mem[cur].next, k + 1;
        if k < |blocks| { InRegion(blocks, k); }
      }
      assert k == |blocks| by { if k < |blocks| { InRegion(blocks, k); } }
    }

    /** Block `k` takes in the free blocks after it. */
    method MergeFrom(cur: nat, ghost k: nat)
      requires Chained() && k < |blocks| && cur == blocks[k].addr
      modifies this
      ensures Chained() && k < |blocks| <= |old(blocks)| && cur == blocks[k].addr
      ensures Coalesced(old(blocks), k) == Coalesced(blocks, k + 1)
    {
      PeekNext(k);
      while mem[cur].free && mem[cur].next != NULL && mem[mem[cur].next].free
        invariant Chained() && k < |blocks| <= |old(blocks)| && cur == blocks[k].addr
        invariant LinkedAt(mem, blocks, k) && (k + 1 < |blocks| ==>
                  LinkedAt(mem, blocks, k + 1) && blocks[k + 1].addr > 0)
        invariant Coalesced(old(blocks), k) == Coalesced(blocks, k)
        decreases |blocks|
      {
        var next := mem[mem[cur].next];
        JoinTiles(blocks, k);
        JoinLinked(mem, blocks, k);
        JoinAt(blocks, k, k);
        mem := mem[cur := Header(mem[cur].size + HDR + next.size, mem[cur].free, next.next)];
        blocks := Join(blocks, k);
        PeekNext(k);
      }
    }

    /** The header of block `k` and the one after it are in memory. */
    lemma PeekNext(k: nat)
      requires Chained() && k < |blocks|
      ensures LinkedAt(mem, blocks, k) && (k + 1 < |blocks| ==> LinkedAt(mem, blocks, k + 1) && blocks[k + 1].addr > 0)
    {
      if k + 1 < |blocks| { InRegion(blocks, k + 1); }
    }

    /** kheap_used and kheap_free: one walk each. The sums stay far below a 32-bit word. */
    method Payload(free: bool) returns (sum: nat)
      requires Valid()
      ensures sum == PayloadOf(blocks, free, |blocks|) && sum <= HEAP_SIZE
      ensures sum == if free then HEAP_SIZE - HDR * |blocks| - Total(Live(blocks)) else Total(Live(blocks))
    {
      sum := 0;
      var cur := head;
      ghost var k := 0;
      while cur != NULL
        invariant 0 <= k <= |blocks| && cur == NextOf(blocks, k) && sum == PayloadOf(blocks, free, k)
        decreases |blocks| - k
      {
        InRegion(blocks, k);
        assert LinkedAt(mem, blocks, k);
        if mem[cur].free == free { sum := sum + mem[cur].size; }
        cur, k := mem[cur].next, k + 1;
        if k < |blocks| { InRegion(blocks, k); }
      }
      assert k == |blocks| by { if k < |blocks| { InRegion(blocks, k); } }
      BytesConserved(blocks);
      CountersMean(blocks);
    }
  }
}
