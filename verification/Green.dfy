/** The green threads of kernel/green.c: spawning, the round-robin scheduler, and the clean-up that gives the heap
    back as it was. */
module Green {
  import opened HeapLayout
  import opened KHeap
  import opened Rounds
  import opened GreenRounds
  import opened FiberMemory

  /** Outside a resumption every fiber is ready or dead. */
  ghost predicate NoneRunning(nodes: map<nat, Fiber>)
  {
    forall t {:trigger nodes[t]} :: t in nodes ==> nodes[t].state != Running
  }

  ghost predicate Hooking(nodes: map<nat, Fiber>, q: seq<nat>)
  {
    Distinct(q) && (forall t :: t in q <==> t in nodes) && Links(nodes, q, 0) && NoneRunning(nodes)
  }

  predicate OpenHooked(nodes: map<nat, Fiber>, q: seq<nat>, k: int) { true }

  /** `q` is the ring as linked, behind the trigger. */
  ghost predicate Hooked(nodes: map<nat, Fiber>, q: seq<nat>)
  {
    forall k {:trigger OpenHooked(nodes, q, k)} :: OpenHooked(nodes, q, k) ==> Hooking(nodes, q)
  }

  lemma HookedIs(nodes: map<nat, Fiber>, q: seq<nat>)
    ensures Hooked(nodes, q) <==> Hooking(nodes, q)
  {
    assert OpenHooked(nodes, q, 0);
  }

  predicate OpenBacked(base: seq<Block>, bs: seq<Block>, nodes: map<nat, Fiber>, k: int) { true }

  ghost predicate Backed(base: seq<Block>, bs: seq<Block>, nodes: map<nat, Fiber>)
  {
    forall k {:trigger OpenBacked(base, bs, nodes, k)} :: OpenBacked(base, bs, nodes, k) ==> Funded(base, bs, nodes)
  }

  lemma BackedIs(base: seq<Block>, bs: seq<Block>, nodes: map<nat, Fiber>)
    ensures Backed(base, bs, nodes) <==> Funded(base, bs, nodes)
  {
    assert OpenBacked(base, bs, nodes, 0);
  }

  // --- steps, away from the object -----------------------------------------

  /** Following the link of the fiber at `i`. */
  lemma Onward(nodes: map<nat, Fiber>, q: seq<nat>, i: nat)
    requires Hooked(nodes, q) && i < |q|
    ensures var j := if i + 1 < |q| then i + 1 else 0;
            q[i] in nodes && q[j] in nodes && nodes[q[i]].next == q[j] && (j > 0 ==> q[j] != q[0])
    ensures Runnable(Lefts(nodes), q[i]) <==> nodes[q[i]].state == Ready
  {
    HookedIs(nodes, q);
    assert LinkAt(nodes, q, i);
  }

  ghost predicate Scanned(left: map<nat, int>, q: seq<nat>, k: nat)
  {
    k <= |q| && forall j :: 0 <= j < k ==> !Runnable(left, q[j])
  }

  lemma ScannedMore(left: map<nat, int>, q: seq<nat>, k: nat)
    requires Scanned(left, q, k) && k < |q| && !Runnable(left, q[k])
    ensures Scanned(left, q, k + 1)
  {
  }

  lemma ScanStops(left: map<nat, int>, q: seq<nat>, k: nat)
    requires Scanned(left, q, k) && (k < |q| ==> Runnable(left, q[k]))
    ensures Pick(left, q, 0) == k
  {
  }

  /** Entering the ring after the picked fiber, whose state and progress change. */
  lemma ResumedHooked(nodes: map<nat, Fiber>, q: seq<nat>, k: nat, f: Fiber)
    requires Hooked(nodes, q) && k < |q| && q[k] in nodes && f.next == nodes[q[k]].next && f.state != Running
    ensures Hooked(nodes[q[k] := f], Rotated(q, k + 1))
    ensures Rotated(q, k + 1)[0] == nodes[q[k]].next
  {
    HookedIs(nodes, q);
    HookedIs(nodes[q[k] := f], Rotated(q, k + 1));
    LinksKept(nodes, q, q[k], f);
    LinksRotated(nodes[q[k] := f], q, k + 1);
    RotatedSame(q, k + 1);
    RotatedAt(q, k + 1, 0);
    assert LinkAt(nodes, q, k);
  }

  lemma BackedKept(base: seq<Block>, bs: seq<Block>, nodes: map<nat, Fiber>, t: nat, f: Fiber)
    requires Backed(base, bs, nodes) && t in nodes && f.stack == nodes[t].stack
    ensures Backed(base, bs, nodes[t := f])
  {
    BackedIs(base, bs, nodes);
    BackedIs(base, bs, nodes[t := f]);
    FundedKept(base, bs, nodes, t, f);
  }

  /** A fiber runs to its next yield, or to its end. */
  function AfterRun(f: Fiber): Fiber
  {
    if f.left > 0 then f.(state := Ready, left := f.left - 1) else f.(state := Dead)
  }

  lemma ResumedView(nodes: map<nat, Fiber>, q: seq<nat>, k: nat, s: Fibers)
    requires s == Fibers(q, Lefts(nodes)) && k < |q| && k == Pick(s.left, q, 0) && q[k] in nodes
    ensures !Finished(s) && Resume(s) == Fibers(Rotated(q, k + 1), Lefts(nodes[q[k] := AfterRun(nodes[q[k]])]))
    ensures Picked(s) == q[k] && nodes[q[k]].state != Dead
  {
    var nodes' := nodes[q[k] := AfterRun(nodes[q[k]])];
    assert Runnable(s.left, q[k]);
    assert Lefts(nodes') == s.left[q[k] := s.left[q[k]] - 1];
  }

  lemma ViewProper(nodes: map<nat, Fiber>, q: seq<nat>)
    requires Hooked(nodes, q)
    ensures Proper(Fibers(q, Lefts(nodes)))
  {
    HookedIs(nodes, q);
  }

  lemma SpawnedHooked(nodes: map<nat, Fiber>, q: seq<nat>, t: nat, f: Fiber, nodes': map<nat, Fiber>)
    requires Hooked(nodes, q) && t !in nodes && q != [] && q[0] in nodes && f.next == nodes[q[0]].next
    requires f.state == Ready
    requires nodes' == nodes[t := f][q[0] := nodes[q[0]].(next := t)]
    ensures Hooked(nodes', Spawned(q, t)) && Lefts(nodes') == Lefts(nodes)[t := f.left] && Spawned(q, t)[0] == q[0]
  {
    HookedIs(nodes, q);
    HookedIs(nodes', Spawned(q, t));
    LinksSpawned(nodes, q, t, f);
    InsertedSame(q, 0, t);
    InsertedAt(q, 0, t, 0);
    SpawnedKeys(nodes, q, t, f, nodes');
    SpawnedLefts(nodes, q[0], t, f, nodes');
  }

  lemma SpawnedKeys(nodes: map<nat, Fiber>, q: seq<nat>, t: nat, f: Fiber, nodes': map<nat, Fiber>)
    requires q != [] && q[0] in nodes && nodes' == nodes[t := f][q[0] := nodes[q[0]].(next := t)]
    requires (forall x :: x in q <==> x in nodes) && forall x :: x in Spawned(q, t) <==> x in q || x == t
    ensures forall x :: x in Spawned(q, t) <==> x in nodes'
  {
  }

  lemma SpawnedLefts(nodes: map<nat, Fiber>, a: nat, t: nat, f: Fiber, nodes': map<nat, Fiber>)
    requires t !in nodes && a in nodes && f.state == Ready && nodes' == nodes[t := f][a := nodes[a].(next := t)]
    ensures Lefts(nodes') == Lefts(nodes)[t := f.left]
  {
  }

  lemma FirstHooked(nodes: map<nat, Fiber>, q: seq<nat>, t: nat, f: Fiber)
    requires Hooked(nodes, q) && q == [] && f.next == t && f.state == Ready
    ensures Hooked(nodes[t := f], [t]) && Lefts(nodes[t := f]) == Lefts(nodes)[t := f.left] && t !in nodes
  {
    HookedIs(nodes, q);
    HookedIs(nodes[t := f], [t]);
  }

  ghost predicate Remainder(nodes: map<nat, Fiber>, q: seq<nat>, i: nat)
  {
    i <= |q| && Distinct(q) && Links(nodes, q, i) && forall t :: t in nodes ==> exists j :: i <= j < |q| && q[j] == t
  }

  predicate OpenRest(nodes: map<nat, Fiber>, q: seq<nat>, i: nat, k: int) { true }

  /** The fibers still to be freed, those from `i` on, behind the trigger. */
  ghost predicate Rest(nodes: map<nat, Fiber>, q: seq<nat>, i: nat)
  {
    forall k {:trigger OpenRest(nodes, q, i, k)} :: OpenRest(nodes, q, i, k) ==> Remainder(nodes, q, i)
  }

  lemma RestIs(nodes: map<nat, Fiber>, q: seq<nat>, i: nat)
    ensures Rest(nodes, q, i) <==> Remainder(nodes, q, i)
  {
    assert OpenRest(nodes, q, i, 0);
  }

  lemma RestStarts(nodes: map<nat, Fiber>, q: seq<nat>)
    requires Hooked(nodes, q)
    ensures Rest(nodes, q, 0)
  {
    HookedIs(nodes, q);
    RestIs(nodes, q, 0);
  }

  lemma RestNext(nodes: map<nat, Fiber>, q: seq<nat>, i: nat)
    requires Rest(nodes, q, i) && i < |q|
    ensures var j := if i + 1 < |q| then i + 1 else 0;
            q[i] in nodes && nodes[q[i]].next == q[j] && (j > 0 ==> q[j] != q[0]) && Rest(nodes - {q[i]}, q, i + 1)
  {
    RestIs(nodes, q, i);
    assert LinkAt(nodes, q, i);
    var nodes' := nodes - {q[i]};
    RestIs(nodes', q, i + 1);
    forall j: nat | i + 1 <= j < |q| ensures LinkAt(nodes', q, j) {
      assert LinkAt(nodes, q, j);
    }
    forall t | t in nodes' ensures exists j :: i + 1 <= j < |q| && q[j] == t {
      var j :| i <= j < |q| && q[j] == t;
    }
  }

  lemma RestEnds(nodes: map<nat, Fiber>, q: seq<nat>)
    requires Rest(nodes, q, |q|)
    ensures nodes == map[]
  {
    RestIs(nodes, q, |q|);
  }

  class Scheduler {
    const heap: Heap
    var nodes: map<nat, Fiber>
    /** g_ring, where the next scan starts; 0 when there are no fibers. */
    var ring: nat
    var current: nat
    /** The ring in the order of its links, from g_ring on. */
    ghost var order: seq<nat>
    /** The heap as it was at gt_init. */
    ghost var base: seq<Block>

    ghost function View(): Fibers
      reads this
    {
      Fibers(order, Lefts(nodes))
    }

    ghost predicate Valid()
      reads this, heap
    {
      && heap.Valid() && Hooked(nodes, order) && Backed(base, heap.blocks, nodes)
      && ring == (if order == [] then 0 else order[0])
    }

    /** gt_init. */
    constructor (heap: Heap)
      requires heap.Valid()
      ensures Valid() && this.heap == heap && order == [] && base == heap.blocks
    {
      this.heap := heap;
      nodes, ring, current := map[], 0, 0;
      order, base := [], heap.blocks;
      new;
      FundedStarts(base);
      BackedIs(base, heap.blocks, nodes);
      HookedIs(nodes, order);
    }

    /** The two areas of a new fiber; if one is missing the heap is as before. */
    method AllocFiber() returns (t: nat, stack: nat)
      requires heap.Valid()
      modifies heap
      ensures heap.Valid()
      ensures t == 0 ==> heap.blocks == old(heap.blocks)
      ensures t != 0 ==> stack != 0 && TwoMallocs(old(heap.blocks), heap.blocks, t, stack)
    {
      ghost var bs := heap.blocks;
      t := heap.KMalloc(GTHREAD_SIZE);
      if t == 0 { return 0, 0; }
      ghost var bs1 := heap.blocks;
      stack := heap.KMalloc(GT_STACK_SIZE);
      if stack == 0 {
        PointerLive(bs, bs1, t);
        heap.KFree(t);
        FreeUndoesMalloc(bs, GTHREAD_SIZE, bs1, t, heap.blocks);
        return 0, 0;
      }
    }

    /** gt_spawn of a program that yields `rounds` times. If memory runs out the heap is as before. */
    method GtSpawn(rounds: nat) returns (r: int)
      requires Valid()
      modifies this, heap
      ensures Valid() && base == old(base)
      ensures r == -1 ==> View() == old(View()) && heap.blocks == old(heap.blocks)
      ensures r != -1 ==> r == 0 && exists t :: t !in old(nodes) && HasSpawned(old(View()), View(), t, rounds)
    {
      ghost var bs := heap.blocks;
      var t, stack := AllocFiber();
      if t == 0 { return -1; }
      RingStart(base, bs, nodes, order);
      var fiber := Fiber(Ready, rounds, stack, if ring == 0 then t else nodes[ring].next);
      SpawnBacked(base, bs, heap.blocks, nodes, t, fiber);
      LinkIn(t, fiber);
      return 0;
    }

    /** A new fiber goes in after g_ring, or becomes the ring. */
    method LinkIn(t: nat, fiber: Fiber)
      requires heap.Valid() && Hooked(nodes, order) && Backed(base, heap.blocks, nodes[t := fiber]) && t !in nodes
      requires ring == (if order == [] then 0 else order[0]) && (order != [] ==> ring != 0 && ring in nodes)
      requires fiber.state == Ready && fiber.next == if ring == 0 then t else nodes[ring].next
      modifies this
      ensures Valid() && base == old(base)
      ensures View() == Fibers(Spawned(old(order), t), Lefts(old(nodes))[t := fiber.left])
    {
      ghost var was := nodes;
      nodes := nodes[t := fiber];
      if ring == 0 {
        FirstHooked(was, order, t, fiber);
        ring, order := t, [t];
      } else {
        BackedKept(base, heap.blocks, nodes, ring, nodes[ring].(next := t));
        nodes := nodes[ring := nodes[ring].(next := t)];
        SpawnedHooked(was, order, t, fiber, nodes);
        order := Spawned(order, t);
      }
    }

    /** pick_next: 0 when nothing is runnable; otherwise the fiber after which the next scan starts. */
    method PickNext() returns (next: nat, ghost k: nat)
      requires Valid()
      modifies this`ring
      ensures k == Pick(View().left, order, 0)
      ensures k == |order| ==> next == 0 && ring == old(ring)
      ensures k < |order| ==> next == order[k] && next in nodes && next != 0 && ring == nodes[next].next
    {
      ghost var left := View().left;
      k := 0;
      RingStart(base, heap.blocks, nodes, order);
      if ring == 0 { return 0, 0; }
      var t := ring;
      while true
        invariant ring == old(ring) == order[0] && k < |order| && t == order[k] && Scanned(left, order, k)
        decreases |order| - k
      {
        Onward(nodes, order, k);
        if nodes[t].state == Ready {
          ScanStops(left, order, k);
          NotNull(base, heap.blocks, nodes, t);
          ring := nodes[t].next;
          return t, k;
        }
        ScannedMore(left, order, k);
        t, k := nodes[t].next, k + 1;
        if t == ring { break; }
      }
      ScanStops(left, order, k);
      return 0, k;
    }

    /** One round of gt_run's loop after the pick: the fiber runs up to its next yield, or dies. */
    method RunFiber(next: nat, ghost k: nat)
      requires heap.Valid() && Hooked(nodes, order) && Backed(base, heap.blocks, nodes)
      requires next in nodes && k < |order| && k == Pick(View().left, order, 0) && next == order[k]
      requires ring == nodes[next].next
      modifies this
      ensures Valid() && base == old(base) && !Finished(old(View())) && View() == Resume(old(View()))
      ensures Picked(old(View())) == next && nodes == old(nodes)[next := AfterRun(old(nodes)[next])]
    {
      ghost var s := View();
      ResumedView(nodes, order, k, s);
      ResumedHooked(nodes, order, k, AfterRun(nodes[next]));
      BackedKept(base, heap.blocks, nodes, next, AfterRun(nodes[next]));
      current := next;
      var f := nodes[next].(state := Running);
      f := if f.left > 0 then f.(left := f.left - 1) else f.(state := Dead);
      if f.state == Running { f := f.(state := Ready); }
      assert f == AfterRun(nodes[next]);
      nodes := nodes[next := f];
      order := Rotated(order, k + 1);
    }

    /** gt_run without the clean-up: fibers run until none is left, each resumption noted in `log`. */
    method Drive() returns (ghost trace: seq<Fibers>, ghost log: seq<nat>)
      requires Valid()
      modifies this
      ensures Valid() && base == old(base)
      ensures GreenRun(trace, log) && trace[0] == old(View()) && trace[|log|] == View() && Finished(View())
    {
      trace, log := [View()], [];
      ViewProper(nodes, order);
      ghost var all := order;
      RingSame(nodes, order, all);
      while true
        invariant Valid() && base == old(base)
        invariant GreenRun(trace, log) && trace[0] == old(View()) && trace[|log|] == View()
        invariant Rostered(nodes, all)
        decreases Remaining(View().left, all, |all|)
      {
        ghost var s := View();
        var next, k := PickNext();
        if next == 0 { break; }
        RosterKept(nodes, all, next, AfterRun(nodes[next]));
        RosterDrops(nodes, order, all, s, k);
        RunFiber(next, k);
        RunMore(trace, log, s);
        trace, log := trace + [View()], log + [next];
      }
    }

    /** free_all. */
    method FreeAll()
      requires Valid()
      modifies this, heap
      ensures Valid() && nodes == map[] && order == [] && base == old(base) && heap.blocks == base
    {
      ghost var q := order;
      RingStart(base, heap.blocks, nodes, order);
      RestStarts(nodes, q);
      if ring != 0 {
        var t := ring;
        ghost var i := 0;
        while true
          invariant heap.Valid() && Backed(base, heap.blocks, nodes) && base == old(base) && ring == old(ring) == q[0]
          invariant i < |q| && t == q[i] && Rest(nodes, q, i)
          decreases |q| - i
        {
          RestNext(nodes, q, i);
          var next := nodes[t].next;
          FreeFiber(t);
          nodes := nodes - {t};
          t, i := next, i + 1;
          if t == ring { break; }
        }
        RestEnds(nodes, q);
      }
      ring, current, order := 0, 0, [];
      AllFreed(base, heap.blocks, nodes);
    }

    /** A fiber's stack and record go back to the heap. */
    method FreeFiber(t: nat)
      requires heap.Valid() && Backed(base, heap.blocks, nodes) && t in nodes
      modifies heap
      ensures heap.Valid() && Backed(base, heap.blocks, nodes - {t})
    {
      ghost var bs := heap.blocks;
      BackedIs(base, bs, nodes);
      CanFree(base, bs, nodes, t);
      heap.KFree(nodes[t].stack);
      ghost var bs1 := heap.blocks;
      CanFreeNext(base, bs, bs1, nodes, t);
      heap.KFree(t);
      FundedFree(base, bs, bs1, heap.blocks, nodes, t);
      BackedIs(base, heap.blocks, nodes - {t});
    }

    /** gt_run: it ends, the run is fair, and the heap is what it was before the first spawn. */
    method GtRun() returns (ghost trace: seq<Fibers>, ghost log: seq<nat>)
      requires Valid()
      modifies this, heap
      ensures Valid() && nodes == map[] && base == old(base) && heap.blocks == base
      ensures GreenRun(trace, log) && trace[0] == old(View()) && Finished(trace[|log|])
    {
      trace, log := Drive();
      FreeAll();
    }
  }

  // --- helpers of the methods ----------------------------------------------

  lemma PointerLive(bs: seq<Block>, bs1: seq<Block>, t: nat)
    requires Layout(bs) && MallocStep(bs, GTHREAD_SIZE, bs1, t) && t != 0
    ensures exists b :: b in Live(bs1) && b.addr + HDR == t
  {
    var b := MallocAdds(bs, GTHREAD_SIZE, bs1, t);
    assert b in Live(bs1);
  }

  ghost predicate TwoMallocs(bs: seq<Block>, bs2: seq<Block>, t: nat, stack: nat)
  {
    exists bs1 :: MallocStep(bs, GTHREAD_SIZE, bs1, t) && MallocStep(bs1, GT_STACK_SIZE, bs2, stack)
  }

  lemma SpawnBacked(base: seq<Block>, bs: seq<Block>, bs2: seq<Block>, nodes: map<nat, Fiber>, t: nat, f: Fiber)
    requires Backed(base, bs, nodes) && t != 0 && f.stack != 0 && TwoMallocs(bs, bs2, t, f.stack)
    ensures t !in nodes && Backed(base, bs2, nodes[t := f])
  {
    BackedIs(base, bs, nodes);
    BackedIs(base, bs2, nodes[t := f]);
    var bs1 :| MallocStep(bs, GTHREAD_SIZE, bs1, t) && MallocStep(bs1, GT_STACK_SIZE, bs2, f.stack);
    FundedSpawn(base, bs, bs1, bs2, nodes, t, f);
  }

  /** The new fiber is second in the ring, or the only one, and has all its yields before it. */
  predicate HasSpawned(s: Fibers, s': Fibers, t: nat, rounds: nat)
  {
    s' == Fibers(Spawned(s.ring, t), s.left[t := rounds])
  }

  /** A fiber spawned into a ring runs right after the one the ring pointer is at. */
  lemma SpawnedRunsSecond(s: Fibers, s': Fibers, t: nat, rounds: nat)
    requires Proper(s) && t !in s.left && HasSpawned(s, s', t, rounds) && s.ring != [] && Runnable(s.left, s.ring[0])
    ensures !Finished(s') && Picked(s') == s.ring[0]
    ensures !Finished(Resume(s')) && Picked(Resume(s')) == t
  {
    InsertedAt(s.ring, 0, t, 0);
    InsertedAt(s.ring, 0, t, 1);
    assert s'.ring[0] == s.ring[0] != t;
    assert Pick(s'.left, s'.ring, 0) == 0;
    RotatedAt(s'.ring, 1, 0);
    assert Pick(Resume(s').left, Resume(s').ring, 0) == 0;
  }

  /** g_ring is null exactly when there are no fibers. */
  lemma RingStart(base: seq<Block>, bs: seq<Block>, nodes: map<nat, Fiber>, q: seq<nat>)
    requires Hooked(nodes, q) && Backed(base, bs, nodes)
    ensures q != [] ==> q[0] in nodes && q[0] != 0
    ensures q == [] ==> nodes == map[]
  {
    HookedIs(nodes, q);
    if q != [] { NotNull(base, bs, nodes, q[0]); }
  }

  lemma NotNull(base: seq<Block>, bs: seq<Block>, nodes: map<nat, Fiber>, t: nat)
    requires Backed(base, bs, nodes) && t in nodes
    ensures t != 0
  {
    BackedIs(base, bs, nodes);
    var a, b := TwoBlocks(base, bs, nodes, t);
  }

  lemma AllFreed(base: seq<Block>, bs: seq<Block>, nodes: map<nat, Fiber>)
    requires Backed(base, bs, nodes) && nodes == map[]
    ensures bs == base && Hooked(nodes, [])
  {
    BackedIs(base, bs, nodes);
    HookedIs(nodes, []);
    NoFibersNoBlocks(base, bs, nodes);
  }

  /** `all` is a fixed list of the fibers. */
  ghost predicate Rostered(nodes: map<nat, Fiber>, all: seq<nat>)
  {
    Distinct(all) && forall t :: t in all <==> t in nodes
  }

  lemma RingSame(nodes: map<nat, Fiber>, q: seq<nat>, all: seq<nat>)
    requires Hooked(nodes, q) && all == q
    ensures Rostered(nodes, all)
  {
    HookedIs(nodes, q);
  }

  lemma RosterKept(nodes: map<nat, Fiber>, all: seq<nat>, t: nat, f: Fiber)
    requires Rostered(nodes, all) && t in nodes
    ensures Rostered(nodes[t := f], all)
  {
  }

  lemma RosterDrops(nodes: map<nat, Fiber>, q: seq<nat>, all: seq<nat>, s: Fibers, k: nat)
    requires Hooked(nodes, q) && Rostered(nodes, all) && s == Fibers(q, Lefts(nodes)) && k < |q|
    requires k == Pick(s.left, q, 0)
    ensures !Finished(s) && Remaining(Resume(s).left, all, |all|) < Remaining(s.left, all, |all|)
  {
    ResumeDrops(s, all);
  }

  lemma RunMore(trace: seq<Fibers>, log: seq<nat>, s: Fibers)
    requires GreenRun(trace, log) && trace[|log|] == s && !Finished(s)
    ensures GreenRun(trace + [Resume(s)], log + [Picked(s)])
  {
    var trace', log' := trace + [Resume(s)], log + [Picked(s)];
    forall i: nat | i < |log'| ensures ResumedAt(trace', log', i) {
      if i < |log| { assert ResumedAt(trace, log, i); }
    }
  }
}
