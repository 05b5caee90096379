/** The scheduler of tasks and the switching of stacks are the same schedule: whatever task the one picks is the task
    the other switches to, and the two stay in step. */
module Lockstep {
  import opened Rounds
  import opened Tasks
  import opened TaskSystem
  import opened Exec
  import Protocol = ExecProtocol

  /** Same current task, and a thread for every task that is not dead. */
  ghost predicate InStep(m: Protocol.Machine, s: Sched)
  {
    IsCurrent(s, m.current) && forall t: nat :: t in m.threads <==> Alive(s.state, t)
  }

  /** The task that schedule picks has a thread to switch to. */
  lemma NextHasThread(m: Protocol.Machine, s: Sched)
    requires Sound(s) && InStep(m, s)
    ensures Sound(Switch(s)) && Switch(s).turn[0] in m.threads
    ensures Switch(s) != s ==> Switch(s).turn[0] != m.current
  {
    SwitchSound(s);
    var k := NextAlive(s.state, s.turn, 1);
    if k < |s.turn| { SwitchToSound(s, k); }
  }

  /** schedule is the switch to the task it picks. */
  lemma SwitchInStep(m: Protocol.Machine, s: Sched, saved: Protocol.Saved, m': Protocol.Machine, out: Protocol.Outcome)
    requires Sound(s) && InStep(m, s)
    requires Sound(Switch(s)) && Protocol.Step(m, Protocol.SwitchTo(Switch(s).turn[0], saved), m', out)
    ensures InStep(m', Switch(s))
  {
    SwitchSound(s);
  }

  /** task_exit finishes the current task and switches to the task that schedule picks then. */
  lemma ExitInStep(m: Protocol.Machine, s: Sched, saved: Protocol.Saved, m': Protocol.Machine, out: Protocol.Outcome)
    requires Sound(s) && InStep(m, s) && OthersAlive(s)
    requires |Exit(s).turn| > 0 && Protocol.Step(m, Protocol.Finish(Exit(s).turn[0], saved), m', out)
    ensures Exit(s).turn[0] in m.threads && Exit(s).turn[0] != m.current && InStep(m', Exit(s))
  {
    ExitSound(s);
    assert Alive(Exit(s).state, Exit(s).turn[0]);
  }

  /** task_create spawns the thread of the new task. */
  lemma CreateInStep(m: Protocol.Machine, s: Sched, h: nat, t: nat, th: Protocol.Thread, m': Protocol.Machine,
        out: Protocol.Outcome)
    requires Sound(s) && InStep(m, s) && h < |s.turn| && t !in s.state
    requires Protocol.Step(m, Protocol.Spawn(t, th), m', out)
    ensures InStep(m', Create(s, h, t))
  {
    CreateSound(s, h, t);
    InsertedAt(s.turn, h, t, 0);
  }

  /** Every thread traps onto its task's trap stack. */
  ghost predicate SameTops(threads: map<nat, Protocol.Thread>, tasks: map<nat, Task>)
  {
    forall t {:trigger threads[t]} :: t in threads ==> t in tasks && threads[t].top == tasks[t].top
  }

  predicate OpenTogether(m: Protocol.Machine, s: Sched, tasks: map<nat, Task>, k: int) { true }

  /** The two views agree, behind the key. */
  ghost predicate Together(m: Protocol.Machine, s: Sched, tasks: map<nat, Task>)
  {
    |s.turn| > 0 && forall k {:trigger OpenTogether(m, s, tasks, k)} ::
      OpenTogether(m, s, tasks, k) ==> Sound(s) && Protocol.Inv(m) && InStep(m, s) && SameTops(m.threads, tasks)
  }

  lemma TogetherIs(m: Protocol.Machine, s: Sched, tasks: map<nat, Task>)
    ensures Together(m, s, tasks) <==> Sound(s) && Protocol.Inv(m) && InStep(m, s) && SameTops(m.threads, tasks)
  {
    assert OpenTogether(m, s, tasks, 0);
  }

  lemma TickFinds(m: Protocol.Machine, s: Sched, tasks: map<nat, Task>)
    requires Together(m, s, tasks)
    ensures m.current in m.threads && |Switch(s).turn| > 0 && Switch(s).turn[0] in m.threads
    ensures Switch(s).turn[0] == m.current ==> Switch(s) == s
  {
    TogetherIs(m, s, tasks);
    NextHasThread(m, s);
  }

  lemma TickSwitches(m: Protocol.Machine, s: Sched, tasks: map<nat, Task>, s': Sched, m': Protocol.Machine,
        tasks': map<nat, Task>, saved: Protocol.Saved, out: Protocol.Outcome)
    requires Together(m, s, tasks) && SameLinks(tasks, tasks') && s' == Switch(s) && |s'.turn| > 0
    requires Protocol.Step(m, Protocol.SwitchTo(s'.turn[0], saved), m', out)
    ensures Together(m', s', tasks')
  {
    TogetherIs(m, s, tasks);
    SwitchSound(s);
    SwitchInStep(m, s, saved, m', out);
    TopsSwitched(m, Protocol.SwitchTo(s'.turn[0], saved), m', out, tasks, tasks');
    Protocol.StepKeeps(m, Protocol.SwitchTo(s'.turn[0], saved), m', out);
    TogetherBy(m', s', tasks');
  }

  lemma TogetherBy(m: Protocol.Machine, s: Sched, tasks: map<nat, Task>)
    requires Sound(s) && Protocol.Inv(m) && InStep(m, s) && SameTops(m.threads, tasks)
    ensures Together(m, s, tasks)
  {
    TogetherIs(m, s, tasks);
  }

  lemma TopsSwitched(m: Protocol.Machine, act: Protocol.Act, m': Protocol.Machine, out: Protocol.Outcome,
        tasks: map<nat, Task>, tasks': map<nat, Task>)
    requires SameTops(m.threads, tasks) && SameLinks(tasks, tasks')
    requires act.SwitchTo? && Protocol.Step(m, act, m', out)
    ensures SameTops(m'.threads, tasks')
  {
    forall t {:trigger m'.threads[t]} | t in m'.threads ensures t in tasks' && m'.threads[t].top == tasks'[t].top {
      assert m'.threads[t].top == m.threads[t].top;
    }
  }

  lemma TickStays(m: Protocol.Machine, s: Sched, tasks: map<nat, Task>, tasks': map<nat, Task>)
    requires Together(m, s, tasks) && SameLinks(tasks, tasks')
    ensures Together(m, s, tasks')
  {
    TogetherIs(m, s, tasks);
    TogetherIs(m, s, tasks');
  }

  /** A timer tick or a yield: schedule picks the task and sets the TSS, and context_switch goes there. The two views
      agree before and after. */
  method Tick(kernel: Kernel, cpu: Cpu, saved: Protocol.Saved)
    requires kernel.Valid() && cpu.Valid() && Together(cpu.View(), kernel.View(), kernel.tasks)
    requires cpu.threads[cpu.current].mode != Protocol.User
    requires Protocol.Floor(cpu.threads[cpu.current]) + Protocol.SAVED <= cpu.threads[cpu.current].esp
    modifies kernel, cpu
    ensures kernel.Valid() && cpu.Valid() && Together(cpu.View(), kernel.View(), kernel.tasks)
    ensures kernel.View() == Switch(old(kernel.View())) && cpu.current == kernel.current
  {
    ghost var s, m, tasks := kernel.View(), cpu.View(), kernel.tasks;
    TickFinds(m, s, tasks);
    kernel.Yield();
    if kernel.current != cpu.current {
      var back := cpu.ContextSwitch(kernel.current, saved);
      TickSwitches(m, s, tasks, kernel.View(), cpu.View(), kernel.tasks, saved, Protocol.Loads(back));
    } else {
      TickStays(m, s, tasks, kernel.tasks);
    }
  }

  /** Then a trap goes to the trap stack of the task that the scheduler calls current. */
  lemma SameTrapStack(m: Protocol.Machine, s: Sched, tasks: map<nat, Task>)
    requires Together(m, s, tasks)
    ensures IsCurrent(s, m.current) && m.current in tasks && m.esp0 == tasks[m.current].top
  {
    TogetherIs(m, s, tasks);
  }
}
