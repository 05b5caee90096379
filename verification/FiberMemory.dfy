/** The fibers of kernel/green.c in memory: a ring of heap records, each with a stack of its own, and what the heap
    holds besides what it held before the first spawn. */
module FiberMemory {
  import opened Bytes
  import opened HeapLayout
  import opened Rounds

  const GTHREAD_SIZE: U32 := 20
  const GT_STACK_SIZE: U32 := 4096

  /** One gthread_t; the record's address is the fiber. `left` stands for the rest of its program: how many more times
      it yields before it returns. */
  datatype Fiber = Fiber(state: State, left: nat, stack: nat, next: nat)

  // --- the ring ------------------------------------------------------------

  /** From `i` on, each link leads to the next, the last one to the first. */
  ghost predicate Links(nodes: map<nat, Fiber>, q: seq<nat>, i: nat)
  {
    forall j: nat {:trigger LinkAt(nodes, q, j)} :: i <= j < |q| ==> LinkAt(nodes, q, j)
  }

  predicate LinkAt(nodes: map<nat, Fiber>, q: seq<nat>, j: nat)
    requires j < |q|
  {
    q[j] in nodes && nodes[q[j]].next == q[if j + 1 < |q| then j + 1 else 0]
  }

  function LeftOf(f: Fiber): int
  {
    if f.state == Dead then -1 else f.left
  }

  ghost function Lefts(nodes: map<nat, Fiber>): map<nat, int>
  {
    map t | t in nodes :: LeftOf(nodes[t])
  }

  lemma LinksRotated(nodes: map<nat, Fiber>, q: seq<nat>, k: nat)
    requires Links(nodes, q, 0) && k <= |q|
    ensures Links(nodes, Rotated(q, k), 0)
  {
    var r := Rotated(q, k);
    forall i: nat | i < |r| ensures LinkAt(nodes, r, i) {
      RotatedAt(q, k, i);
      RotatedAt(q, k, if i + 1 < |q| then i + 1 else 0);
      assert LinkAt(nodes, q, if i < |q| - k then i + k else i + k - |q|);
    }
  }

  /** Changing a fiber's state and progress changes no link. */
  lemma LinksKept(nodes: map<nat, Fiber>, q: seq<nat>, t: nat, f: Fiber)
    requires Links(nodes, q, 0) && t in nodes && f.next == nodes[t].next
    ensures Links(nodes[t := f], q, 0)
  {
    var nodes' := nodes[t := f];
    forall j: nat | j < |q| ensures LinkAt(nodes', q, j) {
      assert LinkAt(nodes, q, j);
    }
  }

  function Spawned(q: seq<nat>, t: nat): seq<nat>
  {
    if q == [] then [t] else InsertedAfter(q, 0, t)
  }

  lemma LinksSpawned(nodes: map<nat, Fiber>, q: seq<nat>, t: nat, f: Fiber)
    requires Links(nodes, q, 0) && Distinct(q) && q != [] && t !in nodes && q[0] in nodes && f.next == nodes[q[0]].next
    ensures Links(nodes[t := f][q[0] := nodes[q[0]].(next := t)], Spawned(q, t), 0)
  {
    var r, nodes' := Spawned(q, t), nodes[t := f][q[0] := nodes[q[0]].(next := t)];
    forall i: nat | i < |r| ensures LinkAt(nodes', r, i) {
      InsertedAt(q, 0, t, i);
      InsertedAt(q, 0, t, if i + 1 < |r| then i + 1 else 0);
      assert LinkAt(nodes, q, 0);
      if i > 1 { assert LinkAt(nodes, q, i - 1); }
    }
  }

  // --- the memory ----------------------------------------------------------

  predicate Uses(nodes: map<nat, Fiber>, t: nat, p: nat)
  {
    t in nodes && (p == t || p == nodes[t].stack)
  }

  /** `p` points to an allocation made since `base`. */
  ghost predicate Mine(base: seq<Block>, bs: seq<Block>, p: nat)
  {
    exists b :: b in Live(bs) && b !in Live(base) && b.addr + HDR == p
  }

  /** No address is used twice. */
  ghost predicate Unshared(nodes: map<nat, Fiber>)
  {
    && (forall t {:trigger nodes[t]} :: t in nodes ==> nodes[t].stack != t)
    && (forall t, u, p :: Uses(nodes, t, p) && Uses(nodes, u, p) ==> t == u)
  }

  ghost predicate AllMine(base: seq<Block>, bs: seq<Block>, nodes: map<nat, Fiber>)
  {
    forall t, p :: Uses(nodes, t, p) ==> Mine(base, bs, p)
  }

  /** What has been allocated since `base` is one record and one stack for each fiber, and nothing else. */
  ghost predicate Funded(base: seq<Block>, bs: seq<Block>, nodes: map<nat, Fiber>)
  {
    && Layout(base) && Layout(bs) && Live(base) <= Live(bs) && |Live(bs)| == |Live(base)| + 2 * |nodes|
    && AllMine(base, bs, nodes) && Unshared(nodes)
  }

  lemma SubsetSameSize(a: set<Block>, b: set<Block>)
    requires a <= b && |a| == |b|
    ensures a == b
  {
    assert b == a + (b - a) && |b| == |a| + |b - a|;
    assert b - a == {};
  }

  /** When no fiber is left the heap is what it was. */
  lemma NoFibersNoBlocks(base: seq<Block>, bs: seq<Block>, nodes: map<nat, Fiber>)
    requires Funded(base, bs, nodes) && nodes == map[]
    ensures bs == base
  {
    SubsetSameSize(Live(base), Live(bs));
    Canonical(bs, base);
  }

  lemma FundedStarts(base: seq<Block>)
    requires Layout(base)
    ensures Funded(base, base, map[])
  {
  }

  lemma FundedKept(base: seq<Block>, bs: seq<Block>, nodes: map<nat, Fiber>, t: nat, f: Fiber)
    requires Funded(base, bs, nodes) && t in nodes && f.stack == nodes[t].stack
    ensures Funded(base, bs, nodes[t := f])
  {
    var nodes' := nodes[t := f];
    assert nodes'.Keys == nodes.Keys;
    UsesSame(nodes, nodes');
  }

  lemma UsesSame(nodes: map<nat, Fiber>, nodes': map<nat, Fiber>)
    requires nodes'.Keys == nodes.Keys && forall t {:trigger nodes'[t]} :: t in nodes ==>
             nodes'[t].stack == nodes[t].stack
    ensures forall t, p :: Uses(nodes', t, p) <==> Uses(nodes, t, p)
    ensures |nodes'| == |nodes| && (Unshared(nodes) ==> Unshared(nodes'))
  {
    assert |nodes'.Keys| == |nodes.Keys|;
    forall t, p ensures Uses(nodes', t, p) <==> Uses(nodes, t, p) {
    }
  }

  /** A successful kmalloc adds one block at a new address. */
  lemma MallocAdds(bs: seq<Block>, r: U32, bs': seq<Block>, p: nat) returns (b: Block)
    requires Layout(bs) && MallocStep(bs, r, bs', p) && p != 0
    ensures Layout(bs') && Live(bs') == Live(bs) + {b} && b.addr + HDR == p
    ensures forall c :: c in Live(bs) ==> c.addr != b.addr
  {
    var k :| MallocAt(bs, Align8(r), bs', p, k);
    b := Block(bs[k].addr, Granted(bs[k].size, Align8(r)), false);
    forall c | c in Live(bs) ensures c.addr != b.addr {
      if c.addr == b.addr { FreshAllocation(bs, k, c); }
    }
  }

  /** kfree takes away the one block at its address. */
  lemma FreeTakes(bs: seq<Block>, p: nat, bs': seq<Block>, b: Block)
    requires Layout(bs) && FreeStep(bs, p, bs') && b in Live(bs) && b.addr + HDR == p
    ensures Layout(bs') && Live(bs') == Live(bs) - {b}
  {
    var c :| c in Live(bs) && FreeOf(bs, p, c, bs');
    OneAt(bs, b, c);
  }

  lemma FundedSpawn(base: seq<Block>, bs: seq<Block>, bs1: seq<Block>, bs2: seq<Block>, nodes: map<nat, Fiber>, t: nat,
        f: Fiber)
    requires Funded(base, bs, nodes) && t != 0 && f.stack != 0
    requires MallocStep(bs, GTHREAD_SIZE, bs1, t) && MallocStep(bs1, GT_STACK_SIZE, bs2, f.stack)
    ensures t !in nodes && Funded(base, bs2, nodes[t := f])
  {
    var a := MallocAdds(bs, GTHREAD_SIZE, bs1, t);
    var b := MallocAdds(bs1, GT_STACK_SIZE, bs2, f.stack);
    assert a in Live(bs1) && a !in Live(bs) && b !in Live(bs1);
    MineMore(base, bs, Live(bs2), bs2, nodes, t, f.stack, a, b);
    UnsharedMore(nodes, t, f);
    AllMineMore(base, bs2, nodes, t, f);
    assert nodes[t := f].Keys == nodes.Keys + {t} && |nodes[t := f]| == |nodes| + 1;
  }

  lemma MineMore(base: seq<Block>, bs: seq<Block>, live: set<Block>, bs': seq<Block>, nodes: map<nat, Fiber>, t: nat,
        st: nat, a: Block, b: Block)
    requires AllMine(base, bs, nodes) && live == Live(bs') == Live(bs) + {a} + {b} && Live(base) <= Live(bs)
    requires a.addr + HDR == t && b.addr + HDR == st && a.addr != b.addr
    requires forall c :: c in Live(bs) ==> c.addr != a.addr && c.addr != b.addr
    ensures AllMine(base, bs', nodes) && Mine(base, bs', t) && Mine(base, bs', st) && t != st
    ensures forall u, p :: Uses(nodes, u, p) ==> p != t && p != st
  {
    assert a in Live(bs') && b in Live(bs') && a !in Live(base) && b !in Live(base);
    forall u, p | Uses(nodes, u, p) ensures Mine(base, bs', p) && p != t && p != st {
      var c :| c in Live(bs) && c !in Live(base) && c.addr + HDR == p;
      assert c in Live(bs');
    }
  }

  lemma UnsharedMore(nodes: map<nat, Fiber>, t: nat, f: Fiber)
    requires Unshared(nodes) && t != f.stack && forall u, p :: Uses(nodes, u, p) ==> p != t && p != f.stack
    ensures t !in nodes && Unshared(nodes[t := f])
  {
    assert t !in nodes by { assert Uses(nodes, t, t) <==> t in nodes; }
    var nodes' := nodes[t := f];
    forall u, v, p | Uses(nodes', u, p) && Uses(nodes', v, p) ensures u == v {
      assert u != t ==> Uses(nodes, u, p);
      assert v != t ==> Uses(nodes, v, p);
    }
  }

  lemma AllMineMore(base: seq<Block>, bs: seq<Block>, nodes: map<nat, Fiber>, t: nat, f: Fiber)
    requires AllMine(base, bs, nodes) && Mine(base, bs, t) && Mine(base, bs, f.stack)
    ensures AllMine(base, bs, nodes[t := f])
  {
    var nodes' := nodes[t := f];
    forall u, p | Uses(nodes', u, p) ensures Mine(base, bs, p) {
      assert u != t ==> Uses(nodes, u, p);
    }
  }

  /** Freeing a fiber's stack and record: neither has been freed before, and the other fibers' stay. */
  lemma FundedFree(base: seq<Block>, bs: seq<Block>, bs1: seq<Block>, bs2: seq<Block>, nodes: map<nat, Fiber>, t: nat)
    requires Funded(base, bs, nodes) && t in nodes && FreeStep(bs, nodes[t].stack, bs1) && FreeStep(bs1, t, bs2)
    ensures Funded(base, bs2, nodes - {t})
  {
    var st := nodes[t].stack;
    var a, b := TwoBlocks(base, bs, nodes, t);
    FreeTakes(bs, st, bs1, b);
    FreeTakes(bs1, t, bs2, a);
    assert Live(bs2) == Live(bs) - {b} - {a} && |Live(bs2)| == |Live(bs)| - 2;
    UnsharedLess(nodes, t);
    AllMineLess(base, bs, bs2, nodes, t, a, b);
    assert (nodes - {t}).Keys == nodes.Keys - {t} && |nodes - {t}| == |nodes| - 1;
  }

  lemma TwoBlocks(base: seq<Block>, bs: seq<Block>, nodes: map<nat, Fiber>, t: nat) returns (a: Block, b: Block)
    requires AllMine(base, bs, nodes) && Unshared(nodes) && t in nodes
    ensures a in Live(bs) && a !in Live(base) && a.addr + HDR == t
    ensures b in Live(bs) && b !in Live(base) && b.addr + HDR == nodes[t].stack && a != b
  {
    assert Uses(nodes, t, t) && Uses(nodes, t, nodes[t].stack);
    assert Mine(base, bs, t) && Mine(base, bs, nodes[t].stack);
    a :| a in Live(bs) && a !in Live(base) && a.addr + HDR == t;
    b :| b in Live(bs) && b !in Live(base) && b.addr + HDR == nodes[t].stack;
  }

  lemma UnsharedLess(nodes: map<nat, Fiber>, t: nat)
    requires Unshared(nodes) && t in nodes
    ensures Unshared(nodes - {t})
  {
    var nodes' := nodes - {t};
    forall u, v, p | Uses(nodes', u, p) && Uses(nodes', v, p) ensures u == v {
      assert Uses(nodes, u, p) && Uses(nodes, v, p);
    }
  }

  lemma AllMineLess(base: seq<Block>, bs: seq<Block>, bs': seq<Block>, nodes: map<nat, Fiber>, t: nat, a: Block,
        b: Block)
    requires AllMine(base, bs, nodes) && Unshared(nodes) && t in nodes && Live(bs') == Live(bs) - {b} - {a}
    requires a.addr + HDR == t && b.addr + HDR == nodes[t].stack
    ensures AllMine(base, bs', nodes - {t})
  {
    var nodes' := nodes - {t};
    assert Uses(nodes, t, t) && Uses(nodes, t, nodes[t].stack);
    forall u, p | Uses(nodes', u, p) ensures Mine(base, bs', p) {
      assert Uses(nodes, u, p) && u != t;
      assert p != t && p != nodes[t].stack;
      var c :| c in Live(bs) && c !in Live(base) && c.addr + HDR == p;
      assert c in Live(bs');
    }
  }

  lemma CanFree(base: seq<Block>, bs: seq<Block>, nodes: map<nat, Fiber>, t: nat)
    requires Funded(base, bs, nodes) && t in nodes
    ensures exists b :: b in Live(bs) && b.addr + HDR == nodes[t].stack
  {
    var a, b := TwoBlocks(base, bs, nodes, t);
  }

  lemma CanFreeNext(base: seq<Block>, bs: seq<Block>, bs1: seq<Block>, nodes: map<nat, Fiber>, t: nat)
    requires Funded(base, bs, nodes) && t in nodes && FreeStep(bs, nodes[t].stack, bs1)
    ensures exists b :: b in Live(bs1) && b.addr + HDR == t
  {
    var a, b := TwoBlocks(base, bs, nodes, t);
    FreeTakes(bs, nodes[t].stack, bs1, b);
    assert a in Live(bs1);
  }
}
