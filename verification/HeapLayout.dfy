/** Layouts of the kernel heap as values: the list of blocks that tiles the region. The main result is that the
    allocated blocks determine the layout, so that a layout has no history. */
module HeapLayout {
  import opened Bytes

  const HEAP_START := 0x40_0000
  const HEAP_SIZE := 0x40_0000
  const HEAP_END := HEAP_START + HEAP_SIZE
  const HDR := 12
  const WORD := 0x1_0000_0000
  /** The largest request whose rounding does not wrap. */
  const MAX_REQUEST := 0xFFFF_FFF8

  /** Header address, payload bytes, and whether the block may be handed out. */
  datatype Block = Block(addr: nat, size: nat, free: bool)

  function End(b: Block): nat
  {
    b.addr + HDR + b.size
  }

  /** ALIGN8 on 32-bit words: above MAX_REQUEST the addition wraps. */
  function Align8(r: U32): (n: U32)
    ensures n % 8 == 0
    ensures r <= MAX_REQUEST ==> r <= n <= r + 7
    ensures r > MAX_REQUEST ==> n == 0
  {
    (r + 7) % WORD / 8 * 8
  }

  // --- well-formed layouts -------------------------------------------------

  predicate Follows(a: Block, b: Block)
  {
    b.addr == End(a)
  }

  /** The blocks cover the region without gap or overlap, in address order. */
  ghost predicate Tiles(bs: seq<Block>)
  {
    && |bs| > 0 && bs[0].addr == HEAP_START && End(bs[|bs| - 1]) == HEAP_END
    && (forall i, j {:trigger bs[i], bs[j]} :: 0 <= i && j == i + 1 && j < |bs| ==> Follows(bs[i], bs[j]))
    && (forall i :: 0 <= i < |bs| ==> bs[i].size % 4 == 0)
  }

  /** Among the first `n` blocks no two free ones are neighbours. */
  ghost predicate Merged(bs: seq<Block>, n: nat)
  {
    forall i, j {:trigger bs[i], bs[j]} :: 0 <= i && j == i + 1 && j < n && j < |bs| ==> !(bs[i].free && bs[j].free)
  }

  ghost predicate Layout(bs: seq<Block>)
  {
    Tiles(bs) && Merged(bs, |bs|)
  }

  /** No block is too small to be split off. */
  predicate Roomy(bs: seq<Block>)
  {
    forall i :: 0 <= i < |bs| ==> bs[i].size >= 8
  }

  /** The allocations. */
  ghost function Live(bs: seq<Block>): set<Block>
  {
    set i | 0 <= i < |bs| && !bs[i].free :: bs[i]
  }

  function Fresh(): (bs: seq<Block>)
  {
    [Block(HEAP_START, HEAP_SIZE - HDR, true)]
  }

  lemma FreshLayout()
    ensures Layout(Fresh()) && Roomy(Fresh()) && Live(Fresh()) == {}
  {
  }

  // --- addresses -----------------------------------------------------------

  lemma {:induction false} InOrder(bs: seq<Block>, i: nat, j: nat)
    requires Tiles(bs) && i < j < |bs|
    ensures End(bs[i]) <= bs[j].addr
    decreases j
  {
    if i + 1 < j { InOrder(bs, i, j - 1); }
    assert Follows(bs[j - 1], bs[j]);
  }

  lemma {:induction false} InRegion(bs: seq<Block>, i: nat)
    requires Tiles(bs) && i < |bs|
    ensures HEAP_START <= bs[i].addr && End(bs[i]) <= HEAP_END
    ensures i > 0 ==> HEAP_START < bs[i].addr
  {
    if i > 0 {
      InRegion(bs, i - 1);
      assert Follows(bs[i - 1], bs[i]);
    }
    if i + 1 < |bs| { InOrder(bs, i, |bs| - 1); }
  }

  /** An address belongs to one block. */
  lemma SameAddress(bs: seq<Block>, i: nat, j: nat)
    requires Tiles(bs) && i < |bs| && j < |bs| && bs[i].addr == bs[j].addr
    ensures i == j
  {
    if i < j { InOrder(bs, i, j); }
    if j < i { InOrder(bs, j, i); }
  }

  /** Payloads of different allocations do not overlap, and lie in the region. */
  lemma LiveDisjoint(bs: seq<Block>, a: Block, b: Block)
    requires Tiles(bs) && a in Live(bs) && b in Live(bs)
    ensures HEAP_START + HDR <= a.addr + HDR && a.addr + HDR + a.size <= HEAP_END
    ensures a == b || End(a) <= b.addr || End(b) <= a.addr
  {
    var i :| 0 <= i < |bs| && bs[i] == a;
    var j :| 0 <= j < |bs| && bs[j] == b;
    InRegion(bs, i);
    if i < j { InOrder(bs, i, j); }
    if j < i { InOrder(bs, j, i); }
  }

  // --- the layout is a function of the allocations -------------------------

  /** A used block of one layout is a block of any other layout with the same allocations, in the same place. */
  lemma UsedAgrees(a: seq<Block>, b: seq<Block>, i: nat, j: nat)
    requires Tiles(a) && Tiles(b) && Live(a) == Live(b)
    requires i < |a| && j < |b| && a[i].addr == b[j].addr && !a[i].free
    ensures a[i] == b[j]
  {
    assert a[i] in Live(b);
    var k :| 0 <= k < |b| && b[k] == a[i];
    SameAddress(b, j, k);
  }

  /** A free block does not reach further than the one at its address in the other layout. */
  lemma FreeNoLonger(a: seq<Block>, b: seq<Block>, i: nat, j: nat)
    requires Layout(a) && Layout(b) && Live(a) == Live(b)
    requires i < |a| && j < |b| && a[i].addr == b[j].addr && a[i].free && b[j].free
    ensures b[j].size <= a[i].size
  {
    InRegion(b, j);
    if i + 1 < |a| {
      assert Follows(a[i], a[i + 1]) && !a[i + 1].free;
      assert a[i + 1] in Live(b);
      var k :| 0 <= k < |b| && b[k] == a[i + 1];
      if k < j { InOrder(b, k, j); }
      if j < k { InOrder(b, j, k); }
    }
  }

  lemma BlockAgrees(a: seq<Block>, b: seq<Block>, i: nat, j: nat)
    requires Layout(a) && Layout(b) && Live(a) == Live(b)
    requires i < |a| && j < |b| && a[i].addr == b[j].addr
    ensures a[i] == b[j]
  {
    if !a[i].free {
      UsedAgrees(a, b, i, j);
    } else if !b[j].free {
      UsedAgrees(b, a, j, i);
    } else {
      FreeNoLonger(a, b, i, j);
      FreeNoLonger(b, a, j, i);
    }
  }

  lemma {:induction false} PrefixAgrees(a: seq<Block>, b: seq<Block>, n: nat)
    requires Layout(a) && Layout(b) && Live(a) == Live(b) && n <= |a|
    ensures n <= |b| && a[..n] == b[..n]
  {
    if n > 0 {
      PrefixAgrees(a, b, n - 1);
      if n > 1 {
        assert a[n - 2] == a[..n - 1][n - 2] && b[n - 2] == b[..n - 1][n - 2];
        assert Follows(a[n - 2], a[n - 1]);
        InRegion(a, n - 1);
        assert n <= |b|;
        assert Follows(b[n - 2], b[n - 1]);
      }
      BlockAgrees(a, b, n - 1, n - 1);
      assert a[..n] == a[..n - 1] + [a[n - 1]] && b[..n] == b[..n - 1] + [b[n - 1]];
    }
  }

  /** Two layouts with the same allocations are the same layout. */
  lemma Canonical(a: seq<Block>, b: seq<Block>)
    requires Layout(a) && Layout(b) && Live(a) == Live(b)
    ensures a == b
  {
    PrefixAgrees(a, b, |a|);
    PrefixAgrees(b, a, |b|);
    assert a == a[..|a|] && b == b[..|b|];
  }

  // --- what one call may do ------------------------------------------------

  /** Block `k` can hold `n` bytes. */
  predicate Fits(b: Block, n: nat)
  {
    b.free && n <= b.size
  }

  predicate NoneFits(bs: seq<Block>, n: nat, k: nat)
  {
    forall i :: 0 <= i < k && i < |bs| ==> !Fits(bs[i], n)
  }

  /** The payload that a block of `size` bytes gives to a request of `n` bytes. */
  function Granted(size: nat, n: nat): nat
  {
    if size >= n + HDR + 8 then n else size
  }

  /** kmalloc: nothing happens when no block can hold the rounded request; otherwise the lowest one that can is
      handed out, and since the result is a layout, its allocations say all about it. */
  ghost predicate MallocStep(bs: seq<Block>, r: U32, bs': seq<Block>, p: nat)
  {
    if p == 0 then bs' == bs && (r == 0 || NoneFits(bs, Align8(r), |bs|))
    else r != 0 && Layout(bs') && exists k :: MallocAt(bs, Align8(r), bs', p, k)
  }

  ghost predicate MallocAt(bs: seq<Block>, n: nat, bs': seq<Block>, p: nat, k: int)
  {
    && 0 <= k < |bs| && Fits(bs[k], n) && NoneFits(bs, n, k) && p == bs[k].addr + HDR
    && Live(bs') == Live(bs) + {Block(bs[k].addr, Granted(bs[k].size, n), false)}
    && (Roomy(bs) && n >= 8 ==> Roomy(bs'))
  }

  /** kfree of the pointer to a live payload. */
  ghost predicate FreeStep(bs: seq<Block>, p: nat, bs': seq<Block>)
  {
    if p == 0 then bs' == bs
    else exists b :: b in Live(bs) && FreeOf(bs, p, b, bs')
  }

  ghost predicate FreeOf(bs: seq<Block>, p: nat, b: Block, bs': seq<Block>)
  {
    p == b.addr + HDR && Layout(bs') && Live(bs') == Live(bs) - {b} && (Roomy(bs) ==> Roomy(bs'))
  }

  lemma LiveOne(bs: seq<Block>, k: nat, b: Block)
    requires Tiles(bs) && k < |bs| && b in Live(bs) && b.addr == bs[k].addr
    ensures b == bs[k]
  {
    var i :| 0 <= i < |bs| && bs[i] == b;
    SameAddress(bs, i, k);
  }

  /** A new allocation is none of the old ones. */
  lemma FreshAllocation(bs: seq<Block>, k: nat, b: Block)
    requires Tiles(bs) && k < |bs| && bs[k].free && b.addr == bs[k].addr
    ensures b !in Live(bs)
  {
    if b in Live(bs) { LiveOne(bs, k, b); }
  }

  // --- what the layout promises --------------------------------------------

  /** Freeing right after allocating restores the layout exactly. */
  lemma FreeUndoesMalloc(bs: seq<Block>, r: U32, bs': seq<Block>, p: nat, bs'': seq<Block>)
    requires Layout(bs) && MallocStep(bs, r, bs', p) && FreeStep(bs', p, bs'')
    ensures bs'' == bs
  {
    if p != 0 {
      var k :| MallocAt(bs, Align8(r), bs', p, k);
      var nb := Block(bs[k].addr, Granted(bs[k].size, Align8(r)), false);
      FreshAllocation(bs, k, nb);
      var b :| b in Live(bs') && FreeOf(bs', p, b, bs'');
      OneAt(bs', b, nb);
      assert Live(bs'') == Live(bs);
      Canonical(bs'', bs);
    }
  }

  lemma OneAt(bs: seq<Block>, a: Block, b: Block)
    requires Tiles(bs) && a in Live(bs) && b in Live(bs) && a.addr == b.addr
    ensures a == b
  {
    LiveDisjoint(bs, a, b);
  }

  lemma GrantedBounds(size: nat, n: nat, r: nat)
    requires n <= size && size % 4 == 0 && n % 8 == 0 && r <= n <= r + 7
    ensures r <= Granted(size, n) <= r + 23
  {
  }

  /** For every request that does not wrap: null exactly when no free block holds the rounded request; otherwise
      the lowest such block, whose payload holds the request and exceeds it by at most 23 bytes. */
  lemma MallocServes(bs: seq<Block>, r: U32, bs': seq<Block>, p: nat)
    requires Layout(bs) && 1 <= r <= MAX_REQUEST && MallocStep(bs, r, bs', p)
    ensures p == 0 <==> forall i :: 0 <= i < |bs| && bs[i].free ==> bs[i].size < Align8(r)
    ensures p == 0 ==> bs' == bs
    ensures p != 0 ==> exists b :: b in Live(bs') && b.addr + HDR == p && r <= b.size <= r + 23
    ensures p != 0 ==> forall i :: 0 <= i < |bs| && bs[i].addr + HDR < p ==> !Fits(bs[i], Align8(r))
  {
    if p != 0 {
      var n := Align8(r);
      var k :| MallocAt(bs, n, bs', p, k);
      assert Fits(bs[k], n);
      GrantedBounds(bs[k].size, n, r);
      assert Block(bs[k].addr, Granted(bs[k].size, n), false) in Live(bs');
      forall i | 0 <= i < |bs| && bs[i].addr + HDR < p ensures !Fits(bs[i], n) {
        if k < i { InOrder(bs, k, i); }
      }
    }
  }

  /** Above MAX_REQUEST the rounding wraps to nothing: the pointer handed out has a payload smaller than the
      request, whatever the layout. So a pointer comes with the bytes asked for exactly up to MAX_REQUEST. */
  lemma MallocServesIff(bs: seq<Block>, r: U32, bs': seq<Block>, p: nat)
    requires Layout(bs) && MallocStep(bs, r, bs', p) && p != 0
    ensures (exists b :: b in Live(bs') && b.addr + HDR == p && r <= b.size) <==> r <= MAX_REQUEST
  {
    if r <= MAX_REQUEST {
      MallocServes(bs, r, bs', p);
    } else {
      forall b | b in Live(bs') && b.addr + HDR == p ensures b.size < r {
        LiveDisjoint(bs', b, b);
      }
    }
  }
}
