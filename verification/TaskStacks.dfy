/** The stacks of the tasks that task_create makes are the separate stacks that the protocol needs. */
module TaskStacks {
  import opened HeapLayout
  import opened Tasks
  import opened ExecProtocol
  import opened Exec

  /** The thread has the task's stacks; the first task runs on the boot stack, which lies outside the heap. */
  predicate Mirrors(task: Task, th: Thread)
  {
    && th.tlo == task.kstack && th.top == task.top
    && if task.stack != 0 then th.lo == task.stack && th.hi == task.stack + STACK_SIZE
       else th.hi <= HEAP_START || HEAP_END <= th.lo
  }

  lemma HoldsDisjoint(bs: seq<Block>, p: nat, n: nat, q: nat, k: nat)
    requires Tiles(bs) && Holds(bs, p, n) && Holds(bs, q, k)
    ensures p != q ==> p + n <= q || q + k <= p
    ensures HEAP_START <= p && p + n <= HEAP_END
  {
    var a :| a in Live(bs) && a.addr + HDR == p && n <= a.size;
    var b :| b in Live(bs) && b.addr + HDR == q && k <= b.size;
    LiveDisjoint(bs, a, b);
  }

  /** An ordinary stack and a trap stack, of one task or of two, share no byte. */
  lemma OrdinaryAndTrap(bs: seq<Block>, tasks: map<nat, Task>, t: nat, u: nat, a: Thread, b: Thread, x: nat)
    requires Tiles(bs) && AllBacked(bs, tasks) && t in tasks && u in tasks && Mirrors(tasks[t], a)
    requires Mirrors(tasks[u], b)
    ensures !(OnOrdinary(a, x) && OnTrap(b, x))
  {
    assert Backed(bs, t, tasks[t]) && Backed(bs, u, tasks[u]);
    if tasks[u].kstack != 0 {
      HoldsDisjoint(bs, tasks[u].kstack, KSTACK_SIZE, tasks[u].kstack, KSTACK_SIZE);
      if tasks[t].stack != 0 {
        assert Uses(tasks, t, tasks[t].stack) && Uses(tasks, u, tasks[u].kstack);
        HoldsDisjoint(bs, tasks[t].stack, STACK_SIZE, tasks[u].kstack, KSTACK_SIZE);
      }
    }
  }

  lemma TrapAndTrap(bs: seq<Block>, tasks: map<nat, Task>, t: nat, u: nat, a: Thread, b: Thread, x: nat)
    requires Tiles(bs) && AllBacked(bs, tasks) && t in tasks && u in tasks && Mirrors(tasks[t], a)
    requires Mirrors(tasks[u], b)
    requires t != u
    ensures !(OnTrap(a, x) && OnTrap(b, x))
  {
    assert Backed(bs, t, tasks[t]) && Backed(bs, u, tasks[u]);
    if tasks[t].kstack != 0 && tasks[u].kstack != 0 {
      assert Uses(tasks, t, tasks[t].kstack) && Uses(tasks, u, tasks[u].kstack);
      HoldsDisjoint(bs, tasks[t].kstack, KSTACK_SIZE, tasks[u].kstack, KSTACK_SIZE);
    }
  }

  lemma OrdinaryAndOrdinary(bs: seq<Block>, tasks: map<nat, Task>, t: nat, u: nat, a: Thread, b: Thread, x: nat)
    requires Tiles(bs) && AllBacked(bs, tasks) && t in tasks && u in tasks && Mirrors(tasks[t], a)
    requires Mirrors(tasks[u], b)
    requires t != u && tasks[t].stack != 0
    ensures !(OnOrdinary(a, x) && OnOrdinary(b, x))
  {
    assert Backed(bs, t, tasks[t]) && Backed(bs, u, tasks[u]);
    HoldsDisjoint(bs, tasks[t].stack, STACK_SIZE, tasks[t].stack, STACK_SIZE);
    if tasks[u].stack != 0 {
      assert Uses(tasks, t, tasks[t].stack) && Uses(tasks, u, tasks[u].stack);
      HoldsDisjoint(bs, tasks[t].stack, STACK_SIZE, tasks[u].stack, STACK_SIZE);
    }
  }

  /** The task that task_create has just made can be spawned: its start frame fits, and its stacks share no byte with
      each other, with the boot stack, or with the stacks of any other task. */
  lemma NewTaskSpawns(bs: seq<Block>, tasks: map<nat, Task>, t: nat, threads: map<nat, Thread>, th: Thread)
    requires Tiles(bs) && AllBacked(bs, tasks) && t in tasks && tasks[t].stack != 0
    requires t !in threads && threads.Keys <= tasks.Keys
    requires forall u {:trigger threads[u]} :: u in threads ==> Mirrors(tasks[u], threads[u])
    requires Mirrors(tasks[t], th) && th.esp == th.hi - START_FRAME
    ensures StartsAt(th) && FreshStacks(threads, th)
  {
    assert Backed(bs, t, tasks[t]);
    forall x: nat ensures !(OnOrdinary(th, x) && OnTrap(th, x)) {
      OrdinaryAndTrap(bs, tasks, t, t, th, th, x);
    }
    forall u | u in threads ensures Apart(th, threads[u]) {
      TwoApart(bs, tasks, t, u, th, threads[u]);
    }
  }

  lemma TwoApart(bs: seq<Block>, tasks: map<nat, Task>, t: nat, u: nat, a: Thread, b: Thread)
    requires Tiles(bs) && AllBacked(bs, tasks) && t in tasks && u in tasks && Mirrors(tasks[t], a)
    requires Mirrors(tasks[u], b)
    requires t != u && tasks[t].stack != 0
    ensures Apart(a, b)
  {
    forall x: nat ensures !(OnStack(a, x) && OnStack(b, x)) {
      OrdinaryAndOrdinary(bs, tasks, t, u, a, b, x);
      OrdinaryAndTrap(bs, tasks, t, u, a, b, x);
      OrdinaryAndTrap(bs, tasks, u, t, b, a, x);
      TrapAndTrap(bs, tasks, t, u, a, b, x);
    }
  }
}
