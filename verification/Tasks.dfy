/** The kernel tasks of kernel/task.c as they run: records on the heap linked into a ring, an insertion after the
    head and a pointer-chasing scheduler. */
module Tasks {
  import opened Bytes
  import opened HeapLayout
  import opened Rounds

  const TASK_SIZE: U32 := 64
  const STACK_SIZE: U32 := 16384
  const KSTACK_SIZE: U32 := 8192

  /** One task_t; the record's address is the task. */
  datatype Task = Task(id: nat, state: State, next: nat, stack: nat, kstack: nat, top: nat)

  /** kstack_top_of: sixteen-byte aligned, and zero exactly when there is no stack. */
  function KstackTop(base: nat): (top: nat)
    ensures top == 0 <==> base == 0
    ensures base != 0 ==> top % 16 == 0 && base + KSTACK_SIZE - 16 < top <= base + KSTACK_SIZE
  {
    if base != 0 then (base + KSTACK_SIZE) / 16 * 16 else 0
  }

  // --- memory --------------------------------------------------------------

  /** `p` points to a live payload of at least `n` bytes. */
  ghost predicate Holds(bs: seq<Block>, p: nat, n: nat)
  {
    exists b :: b in Live(bs) && b.addr + HDR == p && n <= b.size
  }

  lemma NewPointer(bs: seq<Block>, r: U32, bs': seq<Block>, p: nat)
    requires Layout(bs) && r <= MAX_REQUEST && MallocStep(bs, r, bs', p) && p != 0
    ensures Layout(bs') && Holds(bs', p, r) && !Holds(bs, p, 0)
    ensures forall q, n :: Holds(bs, q, n) ==> Holds(bs', q, n)
  {
    MallocServes(bs, r, bs', p);
    var k :| MallocAt(bs, Align8(r), bs', p, k);
    forall b | b in Live(bs) ensures b.addr + HDR != p {
      if b.addr + HDR == p { FreshAllocation(bs, k, b); }
    }
  }

  /** The areas of one task: its record, and its stacks if it has them. */
  predicate Uses(tasks: map<nat, Task>, t: nat, p: nat)
  {
    t in tasks && p != 0 && (p == t || p == tasks[t].stack || p == tasks[t].kstack)
  }

  /** The areas of a task are live and large enough. */
  ghost predicate Backed(bs: seq<Block>, t: nat, task: Task)
  {
    && Holds(bs, t, TASK_SIZE) && task.top == KstackTop(task.kstack)
    && (task.stack != 0 ==> Holds(bs, task.stack, STACK_SIZE) && task.stack != t)
    && (task.kstack != 0 ==> Holds(bs, task.kstack, KSTACK_SIZE) && task.kstack != t && task.kstack != task.stack)
  }

  /** Every task has its areas to itself. */
  ghost predicate AllBacked(bs: seq<Block>, tasks: map<nat, Task>)
  {
    && 0 !in tasks
    && (forall t {:trigger tasks[t]} :: t in tasks ==> Backed(bs, t, tasks[t]))
    && (forall t, u, p :: Uses(tasks, t, p) && Uses(tasks, u, p) ==> t == u)
  }

  // --- links ---------------------------------------------------------------

  /** From every task its link leads to the next in `q`, from the last to the first. */
  ghost predicate Chain(tasks: map<nat, Task>, q: seq<nat>)
  {
    forall i: nat {:trigger ChainAt(tasks, q, i)} :: i < |q| ==> ChainAt(tasks, q, i)
  }

  predicate ChainAt(tasks: map<nat, Task>, q: seq<nat>, i: nat)
    requires i < |q|
  {
    q[i] in tasks && tasks[q[i]].next == q[if i + 1 < |q| then i + 1 else 0]
  }

  /** A ring can be entered anywhere. */
  lemma ChainRotated(tasks: map<nat, Task>, q: seq<nat>, k: nat)
    requires Chain(tasks, q) && k < |q|
    ensures Chain(tasks, Rotated(q, k))
  {
    var r := Rotated(q, k);
    forall i: nat | i < |r| ensures ChainAt(tasks, r, i) {
      RotatedAt(q, k, i);
      RotatedAt(q, k, if i + 1 < |q| then i + 1 else 0);
      assert ChainAt(tasks, q, if i < |q| - k then i + k else i + k - |q|);
    }
  }

  predicate SameLinks(tasks: map<nat, Task>, tasks': map<nat, Task>)
  {
    tasks'.Keys == tasks.Keys && forall t {:trigger tasks'[t]} :: t in tasks ==>
      tasks'[t] == tasks[t].(state := tasks'[t].state)
  }

  lemma ChainKept(tasks: map<nat, Task>, tasks': map<nat, Task>, q: seq<nat>)
    requires Chain(tasks, q) && SameLinks(tasks, tasks')
    ensures Chain(tasks', q)
  {
    forall i: nat | i < |q| ensures ChainAt(tasks', q, i) {
      assert ChainAt(tasks, q, i);
    }
  }

  lemma BackedKept(bs: seq<Block>, tasks: map<nat, Task>, tasks': map<nat, Task>)
    requires AllBacked(bs, tasks) && SameLinks(tasks, tasks')
    ensures AllBacked(bs, tasks')
  {
    forall t | t in tasks' ensures Backed(bs, t, tasks'[t]) {
      assert Backed(bs, t, tasks[t]);
    }
    forall t, u, p | Uses(tasks', t, p) && Uses(tasks', u, p) ensures t == u {
      assert Uses(tasks, t, p) && Uses(tasks, u, p);
    }
  }

  /** Linking a new task in after the one at `h`. */
  lemma ChainInserted(tasks: map<nat, Task>, q: seq<nat>, h: nat, t: nat, task: Task, tasks': map<nat, Task>)
    requires Chain(tasks, q) && Distinct(q) && h < |q| && t !in tasks && q[h] in tasks
    requires task.next == tasks[q[h]].next
    requires tasks' == tasks[t := task][q[h] := tasks[q[h]].(next := t)]
    ensures Chain(tasks', InsertedAfter(q, h, t))
  {
    var r := InsertedAfter(q, h, t);
    forall i: nat | i < |r| ensures ChainAt(tasks', r, i) {
      InsertedAt(q, h, t, i);
      InsertedAt(q, h, t, if i + 1 < |r| then i + 1 else 0);
      assert ChainAt(tasks, q, h);
      if i != h && i != h + 1 { assert ChainAt(tasks, q, if i < h then i else i - 1); }
    }
  }

  lemma BackedInserted(bs: seq<Block>, tasks: map<nat, Task>, bs': seq<Block>, t: nat, task: Task)
    requires AllBacked(bs, tasks) && t != 0 && Backed(bs', t, task)
    requires forall p, n :: Holds(bs, p, n) ==> Holds(bs', p, n)
    requires !Holds(bs, t, 0) && !Holds(bs, task.stack, 0) && !Holds(bs, task.kstack, 0)
    ensures AllBacked(bs', tasks[t := task]) && t !in tasks
  {
    var tasks' := tasks[t := task];
    forall u | u in tasks ensures Backed(bs', u, tasks[u]) {
      assert Backed(bs, u, tasks[u]);
    }
    UsesHolds(bs, tasks, t, t);
    forall u, v, p | Uses(tasks', u, p) && Uses(tasks', v, p) ensures u == v {
      UsesHolds(bs, tasks, u, p);
      UsesHolds(bs, tasks, v, p);
      if u != t && v != t { assert Uses(tasks, u, p) && Uses(tasks, v, p); }
    }
  }

  lemma UsesHolds(bs: seq<Block>, tasks: map<nat, Task>, t: nat, p: nat)
    requires AllBacked(bs, tasks)
    ensures Uses(tasks, t, p) ==> Holds(bs, p, 0)
  {
    if Uses(tasks, t, p) { assert Backed(bs, t, tasks[t]); }
  }

  ghost function States(tasks: map<nat, Task>): map<nat, State>
  {
    map t | t in tasks :: tasks[t].state
  }

  // --- the states of linked tasks ------------------------------------------

  function WithState(tasks: map<nat, Task>, t: nat, st: State): map<nat, Task>
    requires t in tasks
  {
    tasks[t := tasks[t].(state := st)]
  }

  lemma WithStateKeeps(tasks: map<nat, Task>, t: nat, st: State)
    requires t in tasks
    ensures SameLinks(tasks, WithState(tasks, t, st)) && States(WithState(tasks, t, st)) == States(tasks)[t := st]
  {
  }

  predicate OpenRigged(bs: seq<Block>, tasks: map<nat, Task>, s: Sched, k: int) { true }

  /** The ring as linked, with the areas behind it. */
  ghost predicate Rigged(bs: seq<Block>, tasks: map<nat, Task>, s: Sched)
  {
    |s.turn| > 0 && forall k {:trigger OpenRigged(bs, tasks, s, k)} :: OpenRigged(bs, tasks, s, k) ==>
      Wiring(bs, tasks, s)
  }

  lemma RiggedIs(bs: seq<Block>, tasks: map<nat, Task>, s: Sched)
    ensures Rigged(bs, tasks, s) <==> Wiring(bs, tasks, s)
  {
    assert OpenRigged(bs, tasks, s, 0);
  }

  ghost predicate Wiring(bs: seq<Block>, tasks: map<nat, Task>, s: Sched)
  {
    Layout(bs) && Ring(s) && s.state == States(tasks) && Chain(tasks, s.turn) && AllBacked(bs, tasks)
  }

  lemma WithStateRigged(bs: seq<Block>, tasks: map<nat, Task>, s: Sched, t: nat, st: State)
    requires Rigged(bs, tasks, s) && t in tasks
    ensures Rigged(bs, WithState(tasks, t, st), s.(state := s.state[t := st]))
  {
    var tasks' := WithState(tasks, t, st);
    RiggedIs(bs, tasks, s);
    RiggedIs(bs, tasks', s.(state := s.state[t := st]));
    WithStateKeeps(tasks, t, st);
    ChainKept(tasks, tasks', s.turn);
    BackedKept(bs, tasks, tasks');
  }

  /** Entering the ring at `k` instead. */
  lemma RotatedRigged(bs: seq<Block>, tasks: map<nat, Task>, s: Sched, k: nat)
    requires Rigged(bs, tasks, s) && k < |s.turn|
    ensures Rigged(bs, tasks, s.(turn := Rotated(s.turn, k))) && Rotated(s.turn, k)[0] == s.turn[k]
  {
    RiggedIs(bs, tasks, s);
    RiggedIs(bs, tasks, s.(turn := Rotated(s.turn, k)));
    ChainRotated(tasks, s.turn, k);
    RotatedSame(s.turn, k);
    RotatedAt(s.turn, k, 0);
  }

  lemma StepRigged(bs: seq<Block>, tasks: map<nat, Task>, s: Sched, i: nat)
    requires Rigged(bs, tasks, s) && i < |s.turn|
    ensures s.turn[i] in tasks && tasks[s.turn[i]].next == s.turn[if i + 1 < |s.turn| then i + 1 else 0]
    ensures States(tasks)[s.turn[i]] == tasks[s.turn[i]].state
  {
    RiggedIs(bs, tasks, s);
    assert ChainAt(tasks, s.turn, i);
  }

  lemma SwitchRigged(bs: seq<Block>, tasks: map<nat, Task>, s: Sched, k: nat, tasks': map<nat, Task>)
    requires Rigged(bs, tasks, s) && 0 < k < |s.turn| && k == NextAlive(s.state, s.turn, 1)
    requires s.turn[0] in tasks && s.turn[k] in tasks
    requires tasks' == WithState(WithState(tasks, s.turn[0], Descheduled(tasks[s.turn[0]].state)), s.turn[k], Running)
    ensures Rigged(bs, tasks', Switch(s))
  {
    StepRigged(bs, tasks, s, 0);
    StepRigged(bs, tasks, s, k);
    RiggedIs(bs, tasks, s);
    var mid := WithState(tasks, s.turn[0], Descheduled(tasks[s.turn[0]].state));
    WithStateRigged(bs, tasks, s, s.turn[0], Descheduled(tasks[s.turn[0]].state));
    var s1 := s.(state := s.state[s.turn[0] := Descheduled(tasks[s.turn[0]].state)]);
    WithStateRigged(bs, mid, s1, s.turn[k], Running);
    var s2 := s1.(state := s1.state[s.turn[k] := Running]);
    RotatedRigged(bs, tasks', s2, k);
    assert s2.(turn := Rotated(s.turn, k)) == Switch(s);
  }

  lemma InsertRigged(bs: seq<Block>, bs': seq<Block>, tasks: map<nat, Task>, s: Sched, h: nat, t: nat, task: Task,
        tasks': map<nat, Task>)
    requires Rigged(bs, tasks, s) && Layout(bs') && h < |s.turn| && s.turn[h] in tasks
    requires t != 0 && Backed(bs', t, task) && forall p, n :: Holds(bs, p, n) ==> Holds(bs', p, n)
    requires !Holds(bs, t, 0) && !Holds(bs, task.stack, 0) && !Holds(bs, task.kstack, 0)
    requires task.state == Ready && task.next == tasks[s.turn[h]].next
    requires tasks' == tasks[t := task][s.turn[h] := tasks[s.turn[h]].(next := t)]
    ensures t !in tasks && Rigged(bs', tasks', Create(s, h, t))
  {
    RiggedIs(bs, tasks, s);
    RiggedIs(bs', tasks', Create(s, h, t));
    BackedInserted(bs, tasks, bs', t, task);
    RelinkedBacked(bs', tasks[t := task], s.turn[h], t);
    ChainInserted(tasks, s.turn, h, t, task, tasks');
    RingInserted(s, h, t);
    InsertedStates(tasks, t, task, s.turn[h], tasks');
  }

  lemma RingInserted(s: Sched, h: nat, t: nat)
    requires Ring(s) && h < |s.turn| && t !in s.state
    ensures Ring(Create(s, h, t))
  {
    InsertedSame(s.turn, h, t);
  }

  lemma InsertedStates(tasks: map<nat, Task>, t: nat, task: Task, a: nat, tasks': map<nat, Task>)
    requires t !in tasks && a in tasks && task.state == Ready
    requires tasks' == tasks[t := task][a := tasks[a].(next := t)]
    ensures States(tasks') == States(tasks)[t := Ready]
  {
  }

  lemma RelinkedBacked(bs: seq<Block>, tasks: map<nat, Task>, t: nat, next: nat)
    requires AllBacked(bs, tasks) && t in tasks
    ensures AllBacked(bs, tasks[t := tasks[t].(next := next)])
  {
    var tasks' := tasks[t := tasks[t].(next := next)];
    forall u | u in tasks' ensures Backed(bs, u, tasks'[u]) {
      assert Backed(bs, u, tasks[u]);
    }
    forall u, v, p | Uses(tasks', u, p) && Uses(tasks', v, p) ensures u == v {
      assert Uses(tasks, u, p) && Uses(tasks, v, p);
    }
  }

  // --- counting ------------------------------------------------------------

  ghost function LiveTasks(state: map<nat, State>): set<nat>
  {
    set t | t in state && state[t] != Dead
  }

  ghost function AliveSet(state: map<nat, State>, q: seq<nat>, n: nat): set<nat>
    requires n <= |q|
  {
    if n == 0 then {} else AliveSet(state, q, n - 1) + if Alive(state, q[n - 1]) then {q[n - 1]} else {}
  }

  lemma {:induction false} CountTasks(state: map<nat, State>, q: seq<nat>, n: nat)
    requires Distinct(q) && n <= |q|
    ensures AliveIn(state, q, 0, n) == |AliveSet(state, q, n)|
  {
    if n > 0 {
      CountTasks(state, q, n - 1);
      AliveSetHas(state, q, n - 1, q[n - 1]);
    }
  }

  lemma {:induction false} AliveSetHas(state: map<nat, State>, q: seq<nat>, n: nat, t: nat)
    requires n <= |q|
    ensures t in AliveSet(state, q, n) <==> Alive(state, t) && exists i :: 0 <= i < n && q[i] == t
  {
    if n > 0 { AliveSetHas(state, q, n - 1, t); }
  }

  lemma CountIsLive(s: Sched, q: seq<nat>)
    requires Ring(s) && Distinct(q) && forall t :: t in q <==> t in s.turn
    ensures AliveIn(s.state, q, 0, |q|) == |LiveTasks(s.state)|
  {
    CountTasks(s.state, q, |q|);
    forall t ensures t in AliveSet(s.state, q, |q|) <==> t in LiveTasks(s.state) {
      AliveSetHas(s.state, q, |q|, t);
      if t in q { assert q[IndexOf(q, t)] == t; }
    }
    assert AliveSet(s.state, q, |q|) == LiveTasks(s.state);
  }
}
