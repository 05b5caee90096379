/** The scheduler of kernel/task.c: each operation is proved to be one step of the transition system of Rounds. */
module TaskSystem {
  import opened HeapLayout
  import opened KHeap
  import opened Rounds
  import opened Tasks

  class Kernel {
    const heap: Heap
    var tasks: map<nat, Task>
    var current: nat
    var head: nat
    var nextId: nat
    var schedulingOn: bool
    /** TSS.esp0: where a trap from ring 3 lands. */
    var esp0: nat
    /** The ring in the order of its links, from the current task on. */
    ghost var turn: seq<nat>

    ghost function View(): Sched
      reads this
    {
      Sched(turn, States(tasks), head)
    }

    /** The links form one ring, each task's memory is its own, and traps go to the current task's stack. */
    ghost predicate Wired()
      reads this, heap
    {
      && heap.Valid() && Rigged(heap.blocks, tasks, View()) && current == turn[0]
      && current in tasks && head in tasks && esp0 == tasks[current].top
    }

    /** Between calls there is also exactly one running task, the current one. */
    ghost predicate Valid()
      reads this, heap
    {
      Wired() && Sound(View()) && schedulingOn
    }

    /** tasking_init: the context that calls it becomes the first task. Its record must fit the heap. */
    constructor (heap: Heap)
      requires heap.Valid() && !NoneFits(heap.blocks, TASK_SIZE, |heap.blocks|)
      modifies heap
      ensures this.heap == heap && Valid() && View() == Start(current) && current != 0
      ensures tasks[current].id == 0 && nextId == 1
    {
      ghost var bs0 := heap.blocks;
      var t := heap.KMalloc(TASK_SIZE);
      ghost var bs1 := heap.blocks;
      var kstack := heap.KMalloc(KSTACK_SIZE);
      var first := Task(0, Running, t, 0, kstack, KstackTop(kstack));
      FirstRigged(bs0, bs1, heap.blocks, t, first);
      this.heap := heap;
      tasks := map[t := first];
      current, head, nextId, schedulingOn, esp0 := t, t, 1, true, first.top;
      turn := [t];
    }

    /** schedule. */
    method Schedule()
      requires Wired()
      modifies this
      ensures Wired() && schedulingOn == old(schedulingOn) && SameLinks(old(tasks), tasks)
      ensures View() == if schedulingOn then Switch(old(View())) else old(View())
    {
      if !schedulingOn { return; }
      ghost var s := View();
      var next, k := FindNext();
      if next == current { return; }
      SwitchDone(heap.blocks, tasks, s, k);
      BothKeep(tasks, current, Descheduled(tasks[current].state), next);
      tasks := WithState(tasks, current, Descheduled(tasks[current].state));
      tasks := WithState(tasks, next, Running);
      current, turn := next, Rotated(turn, k);
      esp0 := tasks[next].top;
      assert View() == Switch(s);
    }

    /** The scan of schedule: dead tasks are passed over, and it ends at the current task at the latest. */
    method FindNext() returns (next: nat, ghost k: nat)
      requires Wired()
      ensures next in tasks
      ensures if next == current then Switch(View()) == View()
              else 0 < k < |turn| && k == NextAlive(View().state, turn, 1) && next == turn[k]
    {
      ghost var s := View();
      Onward(heap.blocks, tasks, s, 0);
      next, k := tasks[current].next, 1;
      while tasks[next].state == Dead && next != current
        invariant next in tasks && Scanned(s, k) && next == s.turn[if k < |s.turn| then k else 0]
        decreases |turn| - k
      {
        Onward(heap.blocks, tasks, s, k);
        ScannedMore(s, k);
        next, k := tasks[next].next, k + 1;
      }
      ScanStops(heap.blocks, tasks, s, k, next);
    }

    /** yield. */
    method Yield()
      requires Valid()
      modifies this
      ensures Valid() && View() == Switch(old(View())) && SameLinks(old(tasks), tasks)
    {
      SwitchSound(View());
      Schedule();
    }

    /** task_exit. When no other task is left alive the machine halts in the dead one. */
    method TaskExit()
      requires Valid()
      modifies this
      ensures Wired() && schedulingOn && View() == Exit(old(View()))
      ensures OthersAlive(old(View())) ==> Valid()
    {
      ghost var s := View();
      if OthersAlive(s) { ExitSound(s); }
      StepRigged(heap.blocks, tasks, s, 0);
      WithStateRigged(heap.blocks, tasks, s, current, Dead);
      WithStateKeeps(tasks, current, Dead);
      tasks := WithState(tasks, current, Dead);
      schedulingOn := true;
      Schedule();
    }

    /** The two stacks of a new task; if one is missing the heap is as before. */
    method AllocStacks() returns (stack: nat, kstack: nat)
      requires heap.Valid()
      modifies heap
      ensures heap.Valid()
      ensures stack == 0 ==> heap.blocks == old(heap.blocks)
      ensures stack != 0 ==> NewStacks(old(heap.blocks), heap.blocks, stack, kstack)
    {
      ghost var bs := heap.blocks;
      stack := heap.KMalloc(STACK_SIZE);
      if stack == 0 { return 0, 0; }
      ghost var bs1 := heap.blocks;
      NewPointer(bs, STACK_SIZE, bs1, stack);
      kstack := heap.KMalloc(KSTACK_SIZE);
      if kstack == 0 {
        heap.KFree(stack);
        FreeUndoesMalloc(bs, STACK_SIZE, bs1, stack, heap.blocks);
        return 0, 0;
      }
      NewPointer(bs1, KSTACK_SIZE, heap.blocks, kstack);
    }

    /** The three areas of a new task; if one is missing the others are given back and the heap is as before. */
    method AllocTask() returns (t: nat, stack: nat, kstack: nat)
      requires heap.Valid()
      modifies heap
      ensures heap.Valid()
      ensures t == 0 ==> heap.blocks == old(heap.blocks)
      ensures t != 0 ==> NewAreas(old(heap.blocks), heap.blocks, t, stack, kstack)
    {
      ghost var bs := heap.blocks;
      t := heap.KMalloc(TASK_SIZE);
      if t == 0 { return 0, 0, 0; }
      ghost var bs1 := heap.blocks;
      NewPointer(bs, TASK_SIZE, bs1, t);
      stack, kstack := AllocStacks();
      if stack == 0 {
        heap.KFree(t);
        FreeUndoesMalloc(bs, TASK_SIZE, bs1, t, heap.blocks);
        return 0, 0, 0;
      }
      AreasOf(bs, bs1, heap.blocks, t, stack, kstack);
    }

    /** task_create. */
    method TaskCreate() returns (t: nat)
      requires Valid()
      modifies this, heap
      ensures Valid()
      ensures t == 0 ==> View() == old(View()) && heap.blocks == old(heap.blocks)
      ensures t != 0 ==>
                && t !in old(tasks) && head in old(turn)
                && View() == Create(old(View()), IndexOf(old(turn), head), t)
      ensures t != 0 ==> t in tasks && tasks[t].stack != 0 && AllBacked(heap.blocks, tasks)
      ensures t != 0 ==> tasks[t].id == old(nextId) && nextId == (old(nextId) + 1) % WORD
      ensures t == 0 ==> nextId == old(nextId)
    {
      ghost var s, bs := View(), heap.blocks;
      ghost var h := IndexOf(turn, head);
      var stack, kstack;
      t, stack, kstack := AllocTask();
      if t == 0 { return; }
      var task := Task(nextId, Ready, tasks[head].next, stack, kstack, KstackTop(kstack));
      CreateDone(bs, heap.blocks, tasks, s, h, t, task);
      nextId := (nextId + 1) % WORD;
      tasks := tasks[t := task];
      tasks := tasks[head := tasks[head].(next := t)];
      turn := InsertedAfter(turn, h, t);
      assert View() == Create(s, h, t);
      RiggedIs(heap.blocks, tasks, View());
    }

    /** task_count: one round from the head. */
    method TaskCount() returns (n: nat)
      requires Valid()
      ensures n == |LiveTasks(View().state)|
    {
      ghost var s := View();
      ghost var r := s.(turn := Rotated(turn, IndexOf(turn, head)));
      RotatedRigged(heap.blocks, tasks, s, IndexOf(turn, head));
      ghost var k := 0;
      n := 0;
      var t := head;
      while true
        invariant t in tasks && k < |r.turn| && t == r.turn[k] && n == AliveIn(s.state, r.turn, 0, k)
        decreases |r.turn| - k
      {
        Onward(heap.blocks, tasks, r, k);
        if tasks[t].state != Dead { n := n + 1; }
        t, k := tasks[t].next, k + 1;
        if t == head { break; }
      }
      RoundCounts(heap.blocks, tasks, s, r, k);
    }
  }

  // --- the steps, away from the object -------------------------------------

  /** Following the link of the task at `i`. */
  lemma Onward(bs: seq<Block>, tasks: map<nat, Task>, s: Sched, i: nat)
    requires Rigged(bs, tasks, s) && i < |s.turn|
    ensures var j := if i + 1 < |s.turn| then i + 1 else 0;
            s.turn[i] in tasks && s.turn[j] in tasks && tasks[s.turn[i]].next == s.turn[j]
            && (j > 0 ==> s.turn[j] != s.turn[0])
    ensures Alive(s.state, s.turn[i]) <==> tasks[s.turn[i]].state != Dead
  {
    StepRigged(bs, tasks, s, i);
    StepRigged(bs, tasks, s, if i + 1 < |s.turn| then i + 1 else 0);
    RiggedIs(bs, tasks, s);
  }

  /** The tasks passed so far are dead. */
  ghost predicate Scanned(s: Sched, k: nat)
  {
    1 <= k <= |s.turn| && forall j :: 1 <= j < k ==> !Alive(s.state, s.turn[j])
  }

  lemma ScannedMore(s: Sched, k: nat)
    requires Scanned(s, k) && k < |s.turn| && !Alive(s.state, s.turn[k])
    ensures Scanned(s, k + 1)
  {
  }

  lemma ScanStops(bs: seq<Block>, tasks: map<nat, Task>, s: Sched, k: nat, next: nat)
    requires Rigged(bs, tasks, s) && Scanned(s, k) && next == s.turn[if k < |s.turn| then k else 0] && next in tasks
    requires next == s.turn[0] || tasks[next].state != Dead
    ensures if next == s.turn[0] then Switch(s) == s else k < |s.turn| && k == NextAlive(s.state, s.turn, 1)
  {
    if k < |s.turn| {
      Onward(bs, tasks, s, k);
      RiggedIs(bs, tasks, s);
    }
  }

  lemma SwitchDone(bs: seq<Block>, tasks: map<nat, Task>, s: Sched, k: nat)
    requires Rigged(bs, tasks, s) && k < |s.turn| && k == NextAlive(s.state, s.turn, 1)
    ensures s.turn[0] in tasks && s.turn[k] in tasks && s.turn[k] != s.turn[0]
    ensures var tasks' := WithState(WithState(tasks, s.turn[0], Descheduled(tasks[s.turn[0]].state)), s.turn[k],
            Running);
            && Rigged(bs, tasks', Switch(s)) && Switch(s) == Sched(Rotated(s.turn, k), States(tasks'), s.head)
            && Rotated(s.turn, k)[0] == s.turn[k] && (s.head in tasks ==> s.head in tasks')
  {
    Onward(bs, tasks, s, 0);
    Onward(bs, tasks, s, k);
    RiggedIs(bs, tasks, s);
    var tasks' := WithState(WithState(tasks, s.turn[0], Descheduled(tasks[s.turn[0]].state)), s.turn[k], Running);
    SwitchRigged(bs, tasks, s, k, tasks');
    RiggedIs(bs, tasks', Switch(s));
    RotatedAt(s.turn, k, 0);
  }

  lemma BothKeep(tasks: map<nat, Task>, a: nat, st: State, b: nat)
    requires a in tasks && b in tasks
    ensures SameLinks(tasks, WithState(WithState(tasks, a, st), b, Running))
  {
  }

  ghost predicate NewStacks(bs: seq<Block>, bs': seq<Block>, stack: nat, kstack: nat)
  {
    && Holds(bs', stack, STACK_SIZE) && Holds(bs', kstack, KSTACK_SIZE) && !Holds(bs, stack, 0) && !Holds(bs, kstack, 0)
    && stack != kstack && stack != 0 && kstack != 0 && (forall p, n :: Holds(bs, p, n) ==> Holds(bs', p, n))
  }

  lemma AreasOf(bs: seq<Block>, bs1: seq<Block>, bs': seq<Block>, t: nat, stack: nat, kstack: nat)
    requires Holds(bs1, t, TASK_SIZE) && !Holds(bs, t, 0) && NewStacks(bs1, bs', stack, kstack)
    requires forall p, n :: Holds(bs, p, n) ==> Holds(bs1, p, n)
    ensures NewAreas(bs, bs', t, stack, kstack)
  {
    assert Holds(bs1, t, 0);
  }

  ghost predicate NewAreas(bs: seq<Block>, bs': seq<Block>, t: nat, stack: nat, kstack: nat)
  {
    && Holds(bs', t, TASK_SIZE) && Holds(bs', stack, STACK_SIZE) && Holds(bs', kstack, KSTACK_SIZE)
    && !Holds(bs, t, 0) && !Holds(bs, stack, 0) && !Holds(bs, kstack, 0)
    && t != stack && t != kstack && stack != kstack && stack != 0 && kstack != 0
    && (forall p, n :: Holds(bs, p, n) ==> Holds(bs', p, n))
  }

  lemma CreateDone(bs: seq<Block>, bs': seq<Block>, tasks: map<nat, Task>, s: Sched, h: nat, t: nat, task: Task)
    requires Rigged(bs, tasks, s) && Sound(s) && Layout(bs') && h < |s.turn| && s.turn[h] == s.head && s.head in tasks
    requires t != 0 && NewAreas(bs, bs', t, task.stack, task.kstack)
    requires task.state == Ready && task.next == tasks[s.head].next && task.top == KstackTop(task.kstack)
    ensures var tasks' := tasks[t := task][s.head := tasks[s.head].(next := t)];
            && t !in tasks && Sound(Create(s, h, t)) && Rigged(bs', tasks', Create(s, h, t))
            && Create(s, h, t) == Sched(InsertedAfter(s.turn, h, t), States(tasks'), s.head)
            && InsertedAfter(s.turn, h, t)[0] == s.turn[0]
            && (s.turn[0] in tasks ==> s.turn[0] in tasks' && tasks'[s.turn[0]].top == tasks[s.turn[0]].top)
  {
    var tasks' := tasks[t := task][s.head := tasks[s.head].(next := t)];
    InsertRigged(bs, bs', tasks, s, h, t, task, tasks');
    RiggedIs(bs, tasks, s);
    RiggedIs(bs', tasks', Create(s, h, t));
    CreateSound(s, h, t);
    InsertedAt(s.turn, h, t, 0);
  }

  lemma RoundCounts(bs: seq<Block>, tasks: map<nat, Task>, s: Sched, r: Sched, k: nat)
    requires Rigged(bs, tasks, s) && Rigged(bs, tasks, r) && s.state == r.state && k == |r.turn|
    ensures AliveIn(s.state, r.turn, 0, k) == |LiveTasks(s.state)|
  {
    RiggedIs(bs, tasks, s);
    RiggedIs(bs, tasks, r);
    CountIsLive(s, r.turn);
  }

  lemma FirstRigged(bs0: seq<Block>, bs1: seq<Block>, bs: seq<Block>, t: nat, task: Task)
    requires Layout(bs0) && MallocStep(bs0, TASK_SIZE, bs1, t) && !NoneFits(bs0, TASK_SIZE, |bs0|)
    requires MallocStep(bs1, KSTACK_SIZE, bs, task.kstack) && task.top == KstackTop(task.kstack)
    requires task.state == Running && task.next == t && task.stack == 0
    ensures t != 0 && Rigged(bs, map[t := task], Start(t)) && Sound(Start(t))
    ensures States(map[t := task]) == Start(t).state
  {
    assert Align8(TASK_SIZE) == TASK_SIZE;
    NewPointer(bs0, TASK_SIZE, bs1, t);
    FirstBacked(bs1, bs, t, task);
    OneTask(bs, t, task);
    StartSound(t);
  }

  lemma FirstBacked(bs1: seq<Block>, bs: seq<Block>, t: nat, task: Task)
    requires Layout(bs1) && Holds(bs1, t, TASK_SIZE) && MallocStep(bs1, KSTACK_SIZE, bs, task.kstack)
    requires task.top == KstackTop(task.kstack) && task.stack == 0
    ensures Layout(bs) && Backed(bs, t, task)
  {
    if task.kstack != 0 {
      NewPointer(bs1, KSTACK_SIZE, bs, task.kstack);
      assert Holds(bs1, t, 0);
    }
  }

  lemma OneTask(bs: seq<Block>, t: nat, task: Task)
    requires Layout(bs) && t != 0 && Backed(bs, t, task) && task.state == Running && task.next == t
    ensures Rigged(bs, map[t := task], Start(t)) && States(map[t := task]) == Start(t).state
  {
    RiggedIs(bs, map[t := task], Start(t));
    assert States(map[t := task]) == map[t := Running];
  }
}
