/** The ring-3 protocol of kernel/exec.c as a transition system: tasks with an ordinary and a trap stack in one
    memory, a program that can be preempted at any moment, and the unwinding from SYS_EXIT back into exec_user. */
module ExecProtocol {
  /** Code addresses: just past the call of enter_user in exec_user, and the two that task_create puts on a stack. */
  const EXEC_RESUME := 1
  const TASK_EXIT := 2
  const TASK_BOOTSTRAP := 3
  /** What context_switch and enter_user keep on the stack: four registers and the return address. */
  const SAVED := 20
  /** The arguments of enter_user. */
  const ENTER_ARGS := 12
  /** What enter_user pushes below that for the iret into ring 3. */
  const IRET_FRAME := 20
  /** What the processor pushes on a trap from ring 3. */
  const TRAP_FRAME := 20
  /** The ring-3 selectors, and the top of the user window. */
  const USER_CODE := 0x1B
  const USER_DATA := 0x23
  const USER_STACK_TOP := 0xC0_0000

  /** The registers that a C function keeps for its caller, and the address it returns to. */
  datatype Regs = Regs(ebx: int, esi: int, edi: int, ebp: int)
  datatype Saved = Saved(site: int, regs: Regs)

  /** Where a program is in ring 3: what a trap pushes and iret pops. */
  datatype Context = Context(eip: int, cs: int, flags: int, esp: int, ss: int)

  /** In ring 0 on the ordinary stack, in ring 3, or in ring 0 on the trap stack. */
  datatype Mode = Kernel | User | Trap

  /** A task: `esp` is where its ring-0 stack pointer is, or was saved; [lo, hi) is its ordinary stack and
      [tlo, top) its trap stack, `top` being 0 if there is none. */
  datatype Thread = Thread(mode: Mode, esp: nat, lo: nat, hi: nat, tlo: nat, top: nat)

  /** `user` is where ring 3 is, while it is ring 3 that executes. */
  datatype Machine = Machine(
    threads: map<nat, Thread>, current: nat, esp0: nat, mem: map<nat, int>, user: Context,
    running: bool, kret: nat, exitCode: int)

  /** What a step pops from a stack to go on with, and what exec_user hands back. */
  datatype Outcome =
    | Quiet
    | Loads(saved: Saved)                // the context a switch goes on in
    | Returns(saved: Saved, code: int)   // the context leave_user goes on in, where exec_user returns the code
    | Fails                              // exec_user returns -1 at once

  datatype Act =
    | Work                               // anything ring-0 code does on the stack it is on
    | Run(to: Context)                   // the program executes in ring 3
    | TrapIn                             // an interrupt or a system call in ring 3
    | Iret                               // back to ring 3
    | SwitchTo(next: nat, saved: Saved)  // schedule, from a tick or a yield
    | Spawn(task: nat, thread: Thread)
    | Finish(heir: nat, saved: Saved)    // task_exit
    | Exec(loads: bool, entry: int, flags: nat, regs: Regs)  // exec_user; whether the file is a program, and its entry
    | SysExit(code: int)

  // --- stacks --------------------------------------------------------------

  predicate OnOrdinary(th: Thread, a: nat)
  {
    th.lo <= a < th.hi
  }

  predicate OnTrap(th: Thread, a: nat)
  {
    th.tlo <= a < th.top
  }

  predicate OnStack(th: Thread, a: nat)
  {
    OnOrdinary(th, a) || OnTrap(th, a)
  }

  function At(mem: map<nat, int>, a: nat): int
  {
    if a in mem then mem[a] else 0
  }

  /** The context whose pops start at `esp`: ebp, edi, esi, ebx, and the return address. */
  function SavedAt(mem: map<nat, int>, esp: nat): Saved
  {
    Saved(At(mem, esp + 16), Regs(At(mem, esp + 12), At(mem, esp + 8), At(mem, esp + 4), At(mem, esp)))
  }

  /** The ring-3 context that iret pops from `esp` on. */
  function FrameAt(mem: map<nat, int>, esp: nat): Context
  {
    Context(At(mem, esp), At(mem, esp + 4), At(mem, esp + 8), At(mem, esp + 12), At(mem, esp + 16))
  }

  /** The flags with the interrupt bit set, so that the program can be preempted. */
  function WithInterrupts(flags: nat): (r: nat)
    ensures r / 512 % 2 == 1 && (r == flags || (flags / 512 % 2 == 0 && r == flags + 512))
  {
    if flags / 512 % 2 == 1 then flags else flags + 512
  }

  /** A program starts at its entry point with its stack at the top of the window. */
  function Start(entry: int, flags: nat): Context
  {
    Context(entry, USER_CODE, WithInterrupts(flags), USER_STACK_TOP, USER_DATA)
  }

  /** Only addresses in [from, to) may have changed. */
  ghost predicate WritesIn(mem: map<nat, int>, mem': map<nat, int>, from: int, to: int)
  {
    forall a: nat {:trigger At(mem', a)} :: !(from <= a < to) ==> At(mem', a) == At(mem, a)
  }

  /** The stack in use, as bounds. A trap handler stays below the frame that the trap pushed. */
  function Floor(th: Thread): nat
  {
    if th.mode == Kernel then th.lo else th.tlo
  }

  function Ceiling(th: Thread): int
  {
    match th.mode
    case Kernel => th.hi
    case User => th.top
    case Trap => th.top - TRAP_FRAME
  }

  // --- the steps -----------------------------------------------------------

  /** Ring-0 code pushes, pops and writes on the stack it is on, without running over either end. */
  ghost predicate WorkStep(m: Machine, me: Thread, m': Machine, esp: nat)
  {
    && me.mode != User && Floor(me) <= esp <= Ceiling(me) && WritesIn(m.mem, m'.mem, Floor(me), Ceiling(me))
    && m' == m.(threads := m.threads[m.current := me.(esp := esp)], mem := m'.mem)
  }

  ghost predicate RunStep(m: Machine, me: Thread, to: Context, m': Machine)
  {
    me.mode == User && m' == m.(user := to)
  }

  /** The processor takes its stack pointer from the TSS, whatever task that belongs to, and pushes where ring 3 was. */
  ghost predicate TrapStep(m: Machine, me: Thread, m': Machine)
  {
    && me.mode == User && m.esp0 >= TRAP_FRAME && WritesIn(m.mem, m'.mem, m.esp0 - TRAP_FRAME, m.esp0)
    && FrameAt(m'.mem, m.esp0 - TRAP_FRAME) == m.user
    && m' == m.(threads := m.threads[m.current := me.(mode := Trap, esp := m.esp0 - TRAP_FRAME)], mem := m'.mem)
  }

  /** Once the handler has popped all it pushed, ring 3 goes on where the frame says. */
  ghost predicate IretStep(m: Machine, me: Thread, m': Machine)
  {
    && me.mode == Trap && me.esp + TRAP_FRAME == me.top
    && m' == m.(threads := m.threads[m.current := me.(mode := User)], user := FrameAt(m.mem, me.esp))
  }

  /** context_switch: the context goes on the stack in use, the TSS and the stack pointer to the next task, whose
      context is popped. */
  ghost predicate SwitchStep(m: Machine, me: Thread, next: nat, saved: Saved, m': Machine, out: Outcome)
  {
    && me.mode != User && next in m.threads && next != m.current && Floor(me) + SAVED <= me.esp
    && WritesIn(m.mem, m'.mem, me.esp - SAVED, me.esp) && SavedAt(m'.mem, me.esp - SAVED) == saved
    && var you := m.threads[next];
       && m' == m.(threads := m.threads[m.current := me.(esp := me.esp - SAVED)][next := you.(esp := you.esp + SAVED)],
                   current := next, esp0 := you.top, mem := m'.mem)
       && out == Loads(SavedAt(m'.mem, you.esp))
  }

  /** A new task starts with a context on its own ordinary stack that leads into task_bootstrap. */
  ghost predicate SpawnStep(m: Machine, t: nat, th: Thread, m': Machine)
  {
    && t !in m.threads && th.mode == Kernel && ThreadOk(th, false)
    && (forall u {:trigger m.threads[u]} :: u in m.threads ==> Apart(th, m.threads[u]))
    && SelfApart(th) && WritesIn(m.mem, m'.mem, th.lo, th.hi)
    && SavedAt(m'.mem, th.esp) == Saved(TASK_BOOTSTRAP, Regs(0, 0, 0, 0))
    && m' == m.(threads := m.threads[t := th], mem := m'.mem)
  }

  /** A finished task still saves its context, but is never switched to again. */
  ghost predicate FinishStep(m: Machine, me: Thread, heir: nat, saved: Saved, m': Machine, out: Outcome)
  {
    && me.mode == Kernel && heir in m.threads && heir != m.current && me.lo + SAVED <= me.esp
    && WritesIn(m.mem, m'.mem, me.esp - SAVED, me.esp) && SavedAt(m'.mem, me.esp - SAVED) == saved
    && var you := m.threads[heir];
       && m' == m.(threads := (m.threads - {m.current})[heir := you.(esp := you.esp + SAVED)], current := heir,
                   esp0 := you.top, mem := m'.mem)
       && out == Loads(SavedAt(m'.mem, you.esp))
  }

  /** exec_user turns a request down without touching anything. */
  predicate Refused(m: Machine, me: Thread, loads: bool)
  {
    m.running || me.top == 0 || !loads
  }

  /** enter_user: the way back and, below it, the frame that iret pops on the way into ring 3. */
  ghost predicate EnterStep(m: Machine, me: Thread, act: Act, kret: nat, m': Machine)
    requires act.Exec?
  {
    && kret == me.esp - ENTER_ARGS - SAVED && Floor(me) + IRET_FRAME <= kret
    && WritesIn(m.mem, m'.mem, kret - IRET_FRAME, me.esp)
    && SavedAt(m'.mem, kret) == Saved(EXEC_RESUME, act.regs)
    && FrameAt(m'.mem, kret - IRET_FRAME) == Start(act.entry, act.flags)
    && m' == m.(threads := m.threads[m.current := me.(mode := User, esp := kret)], esp0 := me.top, mem := m'.mem,
                user := FrameAt(m'.mem, kret - IRET_FRAME), running := true, kret := kret, exitCode := -1)
  }

  ghost predicate ExecStep(m: Machine, me: Thread, act: Act, m': Machine, out: Outcome)
    requires act.Exec?
  {
    me.mode != User &&
    if Refused(m, me, act.loads) then m' == m && out == Fails
    else out == Quiet && exists kret :: EnterStep(m, me, act, kret, m')
  }

  /** leave_user: the stack pointer goes to the saved context, wherever that is, and execution to its return address,
      where exec_user hands back the exit code. */
  ghost predicate SysExitStep(m: Machine, me: Thread, code: int, m': Machine, out: Outcome)
  {
    && me.mode == Trap && out == Returns(SavedAt(m.mem, m.kret), code)
    && var mode := if OnOrdinary(me, m.kret) then Kernel else Trap;
       m' == m.(threads := m.threads[m.current := me.(mode := mode, esp := m.kret + SAVED)], running := false,
                exitCode := code)
  }

  ghost predicate Step(m: Machine, act: Act, m': Machine, out: Outcome)
  {
    m.current in m.threads &&
    var me := m.threads[m.current];
    match act
    case Work => out == Quiet && exists esp :: WorkStep(m, me, m', esp)
    case Run(to) => out == Quiet && RunStep(m, me, to, m')
    case TrapIn => out == Quiet && TrapStep(m, me, m')
    case Iret => out == Quiet && IretStep(m, me, m')
    case SwitchTo(next, saved) => SwitchStep(m, me, next, saved, m', out)
    case Spawn(t, th) => out == Quiet && SpawnStep(m, t, th, m')
    case Finish(heir, saved) => FinishStep(m, me, heir, saved, m', out)
    case Exec(_, _, _, _) => ExecStep(m, me, act, m', out)
    case SysExit(code) => SysExitStep(m, me, code, m', out)
  }

  // --- the invariant -------------------------------------------------------

  ghost predicate Apart(a: Thread, b: Thread)
  {
    forall x: nat :: !(OnStack(a, x) && OnStack(b, x))
  }

  /** The two stacks of a task do not share a byte. */
  ghost predicate SelfApart(a: Thread)
  {
    forall x: nat :: !(OnOrdinary(a, x) && OnTrap(a, x))
  }

  /** The stack pointer is on the stack in use; a task that is not current has its context saved there. */
  predicate ThreadOk(th: Thread, current: bool)
  {
    && (th.top != 0 ==> th.tlo + TRAP_FRAME <= th.top)
    && match th.mode
       case Kernel => th.lo <= th.esp && (if current then th.esp else th.esp + SAVED) <= th.hi
       case Trap => th.tlo <= th.esp && (if current then th.esp else th.esp + SAVED) + TRAP_FRAME <= th.top
       case User => current
  }

  /** The task is executing a program, or one of its traps. */
  predicate Owns(m: Machine, t: nat)
  {
    t in m.threads && m.threads[t].mode != Kernel
  }

  /** The context that leave_user goes back to lies on the task's ordinary stack and still returns into exec_user. */
  predicate ResumeIntact(m: Machine, t: nat)
    requires t in m.threads
  {
    var th := m.threads[t];
    th.top != 0 && th.lo <= m.kret && m.kret + SAVED <= th.hi && SavedAt(m.mem, m.kret).site == EXEC_RESUME
  }

  ghost predicate Separate(threads: map<nat, Thread>)
  {
    && (forall t, u {:trigger threads[t], threads[u]} :: t in threads && u in threads && t != u ==>
         Apart(threads[t], threads[u]))
    && (forall t {:trigger threads[t]} :: t in threads ==> SelfApart(threads[t]))
  }

  /** Stacks lie apart, and traps go to the current task's trap stack. */
  ghost predicate Sane(m: Machine)
  {
    && m.current in m.threads && m.esp0 == m.threads[m.current].top && Separate(m.threads)
    && (forall t {:trigger m.threads[t]} :: t in m.threads ==> ThreadOk(m.threads[t], t == m.current))
  }

  /** One owner at most, and one exactly while g_user_running is set; the owner's way back is intact. */
  ghost predicate OwnerOk(m: Machine)
  {
    && (forall t, u :: Owns(m, t) && Owns(m, u) ==> t == u)
    && (m.running <==> exists t :: Owns(m, t))
    && (forall t :: Owns(m, t) ==> ResumeIntact(m, t))
  }

  ghost predicate Inv(m: Machine)
  {
    Sane(m) && OwnerOk(m)
  }

  // --- what a step leaves alone --------------------------------------------

  /** Same task, same stacks. */
  predicate SameStacks(a: Thread, b: Thread)
  {
    a.lo == b.lo && a.hi == b.hi && a.tlo == b.tlo && a.top == b.top
  }

  lemma SeparateKept(threads: map<nat, Thread>, threads': map<nat, Thread>)
    requires Separate(threads) && threads'.Keys <= threads.Keys
    requires forall t {:trigger threads'[t]} :: t in threads' ==> SameStacks(threads[t], threads'[t])
    ensures Separate(threads')
  {
    forall t, u | t in threads' && u in threads' && t != u ensures Apart(threads'[t], threads'[u]) {
      assert Apart(threads[t], threads[u]);
      ApartSame(threads[t], threads[u], threads'[t], threads'[u]);
    }
    forall t | t in threads' ensures SelfApart(threads'[t]) {
      assert SelfApart(threads[t]);
      SelfApartSame(threads[t], threads'[t]);
    }
  }

  lemma ApartSame(a: Thread, b: Thread, a': Thread, b': Thread)
    requires Apart(a, b) && SameStacks(a, a') && SameStacks(b, b')
    ensures Apart(a', b')
  {
    forall x: nat ensures !(OnStack(a', x) && OnStack(b', x)) {
      assert !(OnStack(a, x) && OnStack(b, x));
    }
  }

  lemma SelfApartSame(a: Thread, a': Thread)
    requires SelfApart(a) && SameStacks(a, a')
    ensures SelfApart(a')
  {
    forall x: nat ensures !(OnOrdinary(a', x) && OnTrap(a', x)) {
      assert !(OnOrdinary(a, x) && OnTrap(a, x));
    }
  }

  /** A step writes on the current task's stack in use, or, when it creates a task, on that task's stack. */
  ghost predicate Confined(m: Machine, m': Machine, act: Act)
    requires m.current in m.threads
  {
    if act.Spawn? then WritesIn(m.mem, m'.mem, act.thread.lo, act.thread.hi)
    else WritesIn(m.mem, m'.mem, Floor(m.threads[m.current]), Ceiling(m.threads[m.current]))
  }

  lemma StepConfined(m: Machine, act: Act, m': Machine, out: Outcome)
    requires Inv(m) && Step(m, act, m', out)
    ensures Confined(m, m', act)
  {
    var me := m.threads[m.current];
    assert ThreadOk(me, true);
    match act
    case TrapIn =>
      assert Owns(m, m.current);
      assert ResumeIntact(m, m.current);
    case _ =>
  }

  /** Another task's stacks, and the ordinary stack of the program's owner, keep every byte. */
  lemma StackKept(m: Machine, act: Act, m': Machine, out: Outcome, t: nat, a: nat)
    requires Inv(m) && Step(m, act, m', out) && t in m.threads
    requires if t == m.current then OnOrdinary(m.threads[t], a) && m.threads[t].mode != Kernel
             else OnStack(m.threads[t], a)
    ensures At(m'.mem, a) == At(m.mem, a)
  {
    StepConfined(m, act, m', out);
    var me, th := m.threads[m.current], m.threads[t];
    if act.Spawn? {
      assert SpawnStep(m, act.task, act.thread, m');
      assert Apart(act.thread, th);
      assert !(OnStack(act.thread, a) && OnStack(th, a));
    } else if t == m.current {
      assert SelfApart(th);
      assert !(OnOrdinary(th, a) && OnTrap(th, a));
    } else {
      assert Apart(me, th);
      assert !(OnStack(me, a) && OnStack(th, a));
    }
  }

  // --- every step keeps the invariant --------------------------------------

  predicate Transparent(act: Act)
  {
    !act.Exec? && !act.SysExit?
  }

  /** No step but exec_user and SYS_EXIT changes who owns the window. */
  lemma OwnersSame(m: Machine, act: Act, m': Machine, out: Outcome, t: nat)
    requires Inv(m) && Step(m, act, m', out) && Transparent(act)
    ensures Owns(m', t) <==> Owns(m, t)
    ensures m'.running == m.running && m'.kret == m.kret
    ensures Owns(m, t) ==> SameStacks(m.threads[t], m'.threads[t])
  {
  }

  lemma OwnerOkKept(m: Machine, act: Act, m': Machine, out: Outcome)
    requires Inv(m) && Step(m, act, m', out) && Transparent(act)
    ensures OwnerOk(m')
  {
    forall t ensures Owns(m', t) <==> Owns(m, t) {
      OwnersSame(m, act, m', out, t);
    }
    forall t | Owns(m', t) ensures ResumeIntact(m', t) {
      OwnersSame(m, act, m', out, t);
      assert ResumeIntact(m, t);
      StackKept(m, act, m', out, t, m.kret + 16);
    }
    OwnersSame(m, act, m', out, 0);
  }

  /** Changing the current task's stack pointer and mode. */
  lemma SaneHere(m: Machine, m': Machine, th: Thread)
    requires Sane(m) && SameStacks(m.threads[m.current], th) && ThreadOk(th, true)
    requires m'.threads == m.threads[m.current := th] && m'.current == m.current && m'.esp0 == th.top
    ensures Sane(m')
  {
    SeparateKept(m.threads, m'.threads);
    forall t {:trigger m'.threads[t]} | t in m'.threads ensures ThreadOk(m'.threads[t], t == m'.current) {
      assert t != m.current ==> ThreadOk(m.threads[t], false);
    }
  }

  lemma SaneSwitch(m: Machine, me: Thread, next: nat, saved: Saved, m': Machine, out: Outcome)
    requires Inv(m) && me == m.threads[m.current] && SwitchStep(m, me, next, saved, m', out)
    ensures Sane(m')
  {
    assert ThreadOk(me, true) && ThreadOk(m.threads[next], false);
    SeparateKept(m.threads, m'.threads);
    forall t {:trigger m'.threads[t]} | t in m'.threads ensures ThreadOk(m'.threads[t], t == m'.current) {
      assert ThreadOk(m.threads[t], t == m.current);
    }
  }

  lemma SaneFinish(m: Machine, me: Thread, heir: nat, saved: Saved, m': Machine, out: Outcome)
    requires Inv(m) && me == m.threads[m.current] && FinishStep(m, me, heir, saved, m', out)
    ensures Sane(m')
  {
    assert ThreadOk(m.threads[heir], false);
    SeparateKept(m.threads, m'.threads);
    forall t {:trigger m'.threads[t]} | t in m'.threads ensures ThreadOk(m'.threads[t], t == m'.current) {
      assert ThreadOk(m.threads[t], t == m.current);
    }
  }

  lemma SaneSpawn(m: Machine, t: nat, th: Thread, m': Machine)
    requires Inv(m) && SpawnStep(m, t, th, m')
    ensures Sane(m')
  {
    SeparateMore(m.threads, t, th);
    forall u {:trigger m'.threads[u]} | u in m'.threads ensures ThreadOk(m'.threads[u], u == m'.current) {
      assert u != t ==> ThreadOk(m.threads[u], u == m.current);
    }
  }

  lemma SeparateMore(threads: map<nat, Thread>, t: nat, th: Thread)
    requires Separate(threads) && t !in threads && SelfApart(th)
    requires forall u {:trigger threads[u]} :: u in threads ==> Apart(th, threads[u])
    ensures Separate(threads[t := th])
  {
    var threads' := threads[t := th];
    forall a, b | a in threads' && b in threads' && a != b ensures Apart(threads'[a], threads'[b]) {
      if a == t {
        assert Apart(th, threads[b]);
      } else if b == t {
        assert Apart(th, threads[a]);
        forall x: nat ensures !(OnStack(threads[a], x) && OnStack(th, x)) {
          assert !(OnStack(th, x) && OnStack(threads[a], x));
        }
      } else {
        assert Apart(threads[a], threads[b]);
      }
    }
  }

  lemma TransparentKeeps(m: Machine, act: Act, m': Machine, out: Outcome)
    requires Inv(m) && Step(m, act, m', out) && Transparent(act)
    ensures Inv(m')
  {
    var me := m.threads[m.current];
    assert ThreadOk(me, true);
    OwnerOkKept(m, act, m', out);
    match act
    case Work =>
      var esp :| WorkStep(m, me, m', esp);
      SaneHere(m, m', me.(esp := esp));
    case Run(to) =>
      SaneHere(m, m', me);
    case TrapIn =>
      assert Owns(m, m.current) && ResumeIntact(m, m.current);
      SaneHere(m, m', me.(mode := Trap, esp := m.esp0 - TRAP_FRAME));
    case Iret =>
      SaneHere(m, m', me.(mode := User));
    case SwitchTo(next, saved) =>
      SaneSwitch(m, me, next, saved, m', out);
    case Spawn(t, th) =>
      SaneSpawn(m, t, th, m');
    case Finish(heir, saved) =>
      SaneFinish(m, me, heir, saved, m', out);
  }

  /** exec_user goes through if and only if no program is running, its task has a trap stack and the file is a program.
      Then it was called in ring 0 on the ordinary stack, its context stays there, and ring 3 starts at the entry point
      with its stack at the top of the window. Otherwise nothing changes. */
  lemma ExecKeeps(m: Machine, act: Act, m': Machine, out: Outcome)
    requires Inv(m) && act.Exec? && Step(m, act, m', out)
    ensures Inv(m') && (out == Quiet || out == Fails)
    ensures out == Quiet <==> !m.running && m.threads[m.current].top != 0 && act.loads
    ensures out == Fails ==> m' == m
    ensures out == Quiet ==>
              && m.threads[m.current].mode == Kernel && Owns(m', m.current) && m'.current == m.current
              && m'.kret == m.threads[m.current].esp - ENTER_ARGS - SAVED
              && SavedAt(m'.mem, m'.kret) == Saved(EXEC_RESUME, act.regs)
              && m'.user == Context(act.entry, 0x1B, WithInterrupts(act.flags), 0xC0_0000, 0x23)
  {
    var me := m.threads[m.current];
    if !Refused(m, me, act.loads) {
      var kret :| EnterStep(m, me, act, kret, m');
      assert !Owns(m, m.current);
      assert ThreadOk(me, true);
      SaneHere(m, m', me.(mode := User, esp := kret));
      forall t ensures Owns(m', t) <==> t == m.current {
        assert !Owns(m, t);
      }
      assert Owns(m', m.current);
    }
  }

  /** SYS_EXIT can only come from the owner, and takes it back to its ordinary stack and into exec_user. */
  lemma SysExitKeeps(m: Machine, code: int, m': Machine, out: Outcome)
    requires Inv(m) && Step(m, SysExit(code), m', out)
    ensures Inv(m') && !m'.running
    ensures Owns(m, m.current) && m'.current == m.current
    ensures out == Returns(SavedAt(m.mem, m.kret), code) && SavedAt(m.mem, m.kret).site == EXEC_RESUME
    ensures m'.threads[m.current] == m.threads[m.current].(mode := Kernel, esp := m.kret + SAVED)
  {
    var me := m.threads[m.current];
    assert Owns(m, m.current) && ResumeIntact(m, m.current);
    assert ThreadOk(me, true);
    SaneHere(m, m', me.(mode := Kernel, esp := m.kret + SAVED));
    forall t ensures !Owns(m', t) {
      assert Owns(m, t) ==> t == m.current;
    }
  }

  lemma StepKeeps(m: Machine, act: Act, m': Machine, out: Outcome)
    requires Inv(m) && Step(m, act, m', out)
    ensures Inv(m')
  {
    match act
    case Exec(_, _, _, _) => ExecKeeps(m, act, m', out);
    case SysExit(code) => SysExitKeeps(m, code, m', out);
    case _ => TransparentKeeps(m, act, m', out);
  }

  // --- runs ----------------------------------------------------------------

  /** Any interleaving of the steps. */
  ghost predicate Run(trace: seq<Machine>, acts: seq<Act>, outs: seq<Outcome>)
  {
    && |trace| == |acts| + 1 && |outs| == |acts| && Inv(trace[0])
    && (forall i: nat {:trigger StepAt(trace, acts, outs, i)} :: i < |acts| ==> StepAt(trace, acts, outs, i))
  }

  ghost predicate StepAt(trace: seq<Machine>, acts: seq<Act>, outs: seq<Outcome>, i: nat)
    requires i < |acts| && |trace| == |acts| + 1 && |outs| == |acts|
  {
    Step(trace[i], acts[i], trace[i + 1], outs[i])
  }

  /** In every reachable state there is one owner at most, exactly while a program runs, and so on. */
  lemma {:induction false} RunsKeepInv(trace: seq<Machine>, acts: seq<Act>, outs: seq<Outcome>, i: nat)
    requires Run(trace, acts, outs) && i <= |acts|
    ensures Inv(trace[i])
  {
    if i > 0 {
      RunsKeepInv(trace, acts, outs, i - 1);
      assert StepAt(trace, acts, outs, i - 1);
      StepKeeps(trace[i - 1], acts[i - 1], trace[i], outs[i - 1]);
    }
  }

  /** The program that `t` executes in `m` is still going in `m'`, with the way back untouched. */
  ghost predicate StillGoing(m: Machine, m': Machine, t: nat)
  {
    && Owns(m, t) && Owns(m', t) && m'.kret == m.kret && m'.running && SameStacks(m.threads[t], m'.threads[t])
    && (forall a: nat {:trigger At(m'.mem, a)} :: OnOrdinary(m.threads[t], a) ==> At(m'.mem, a) == At(m.mem, a))
  }

  lemma StepGoesOn(m: Machine, act: Act, m': Machine, out: Outcome, t: nat)
    requires Inv(m) && Step(m, act, m', out) && Owns(m, t) && !act.SysExit?
    ensures StillGoing(m, m', t)
    ensures act.Exec? ==> m' == m && out == Fails
  {
    if Transparent(act) {
      OwnersSame(m, act, m', out, t);
      forall a: nat | OnOrdinary(m.threads[t], a) ensures At(m'.mem, a) == At(m.mem, a) {
        StackKept(m, act, m', out, t, a);
      }
    }
  }

  lemma GoingCompose(m: Machine, m': Machine, m'': Machine, t: nat)
    requires StillGoing(m, m', t) && StillGoing(m', m'', t)
    ensures StillGoing(m, m'', t)
  {
    forall a: nat | OnOrdinary(m.threads[t], a) ensures At(m''.mem, a) == At(m.mem, a) {
      assert OnOrdinary(m'.threads[t], a);
      assert At(m'.mem, a) == At(m.mem, a);
    }
  }

  lemma {:induction false} ProgramGoesOn(trace: seq<Machine>, acts: seq<Act>, outs: seq<Outcome>, t: nat, i: nat,
        j: nat)
    requires Run(trace, acts, outs) && i <= j <= |acts| && Owns(trace[i], t)
    requires forall k :: i <= k < j ==> !acts[k].SysExit?
    ensures StillGoing(trace[i], trace[j], t)
    decreases j
  {
    RunsKeepInv(trace, acts, outs, i);
    if i < j {
      ProgramGoesOn(trace, acts, outs, t, i, j - 1);
      RunsKeepInv(trace, acts, outs, j - 1);
      assert StepAt(trace, acts, outs, j - 1);
      StepGoesOn(trace[j - 1], acts[j - 1], trace[j], outs[j - 1], t);
      GoingCompose(trace[i], trace[j - 1], trace[j], t);
    }
  }

  /** A task calls exec_user, which goes through; however it is then preempted and whatever others do, the next
      SYS_EXIT(c) is its own: it lands back in that call of exec_user, which returns c, with the stack pointer where
      the call left it, the registers it was called with and every byte above as they were. Until then every other
      exec_user fails. */
  lemma SysExitReturnsToExec(trace: seq<Machine>, acts: seq<Act>, outs: seq<Outcome>, i: nat, j: nat)
    requires Run(trace, acts, outs) && i < j < |acts|
    requires acts[i].Exec? && outs[i] == Quiet && acts[j].SysExit?
    requires forall k :: i < k < j ==> !acts[k].SysExit?
    ensures var t := trace[i].current;
            && t in trace[i].threads && t in trace[j + 1].threads && trace[j].current == t
            && outs[j] == Returns(Saved(EXEC_RESUME, acts[i].regs), acts[j].code)
            && trace[j + 1].threads[t].mode == Kernel == trace[i].threads[t].mode
            && trace[j + 1].threads[t].esp == trace[i].threads[t].esp - ENTER_ARGS
            && forall a: nat :: trace[i].threads[t].esp <= a < trace[i].threads[t].hi ==>
                 At(trace[j + 1].mem, a) == At(trace[i].mem, a)
    ensures forall k :: i < k < j && acts[k].Exec? ==> outs[k] == Fails
  {
    var m, t := trace[i], trace[i].current;
    RunsKeepInv(trace, acts, outs, i);
    assert StepAt(trace, acts, outs, i);
    ExecKeeps(m, acts[i], trace[i + 1], outs[i]);
    assert ThreadOk(m.threads[t], true);
    ProgramGoesOn(trace, acts, outs, t, i + 1, j);
    RunsKeepInv(trace, acts, outs, j);
    assert StepAt(trace, acts, outs, j);
    SysExitKeeps(trace[j], acts[j].code, trace[j + 1], outs[j]);
    ContextHeld(trace[i + 1], trace[j], t);
    forall k | i < k < j && acts[k].Exec? ensures outs[k] == Fails {
      ProgramGoesOn(trace, acts, outs, t, i + 1, k);
      RunsKeepInv(trace, acts, outs, k);
      assert StepAt(trace, acts, outs, k);
      StepGoesOn(trace[k], acts[k], trace[k + 1], outs[k], t);
    }
    AboveKept(m, acts[i], trace[i + 1], outs[i], trace[j], t);
  }

  lemma ContextHeld(m: Machine, m': Machine, t: nat)
    requires Inv(m) && StillGoing(m, m', t)
    ensures SavedAt(m'.mem, m'.kret) == SavedAt(m.mem, m.kret)
  {
    assert ResumeIntact(m, t);
    forall a: nat | m.kret <= a < m.kret + SAVED ensures At(m'.mem, a) == At(m.mem, a) {
      assert OnOrdinary(m.threads[t], a);
    }
  }

  /** What lay above the stack pointer when exec_user was called lies there still. */
  lemma AboveKept(m: Machine, act: Act, m1: Machine, out: Outcome, m': Machine, t: nat)
    requires Inv(m) && act.Exec? && Step(m, act, m1, out) && out == Quiet && t == m.current && StillGoing(m1, m', t)
    ensures forall a: nat {:trigger At(m'.mem, a)} :: m.threads[t].esp <= a < m.threads[t].hi ==>
              At(m'.mem, a) == At(m.mem, a)
  {
    var me := m.threads[t];
    var kret :| EnterStep(m, me, act, kret, m1);
    ExecKeeps(m, act, m1, out);
    assert ThreadOk(me, true);
    forall a: nat | me.esp <= a < me.hi ensures At(m'.mem, a) == At(m.mem, a) {
      assert OnOrdinary(m1.threads[t], a);
      assert At(m1.mem, a) == At(m.mem, a);
    }
  }

  /** A task that has been switched away from finds its stacks as it left them. */
  lemma {:induction false} SleeperKept(trace: seq<Machine>, acts: seq<Act>, outs: seq<Outcome>, t: nat, i: nat, j: nat,
        a: nat)
    requires Run(trace, acts, outs) && i <= j <= |acts| && t in trace[i].threads && OnStack(trace[i].threads[t], a)
    requires forall k :: i <= k <= j ==> trace[k].current != t
    ensures t in trace[j].threads && trace[j].threads[t] == trace[i].threads[t]
    ensures At(trace[j].mem, a) == At(trace[i].mem, a)
    decreases j
  {
    if i < j {
      SleeperKept(trace, acts, outs, t, i, j - 1, a);
      RunsKeepInv(trace, acts, outs, j - 1);
      assert StepAt(trace, acts, outs, j - 1);
      StackKept(trace[j - 1], acts[j - 1], trace[j], outs[j - 1], t, a);
    }
  }

  // --- preemption is transparent -------------------------------------------

  lemma SleepingContext(trace: seq<Machine>, acts: seq<Act>, outs: seq<Outcome>, t: nat, i: nat, j: nat)
    requires Run(trace, acts, outs) && i <= j < |acts| && t in trace[i].threads
    requires forall k :: i <= k <= j ==> trace[k].current != t
    ensures t in trace[j].threads && trace[j].threads[t] == trace[i].threads[t]
    ensures SavedAt(trace[j + 1].mem, trace[i].threads[t].esp) == SavedAt(trace[i].mem, trace[i].threads[t].esp)
  {
    var th, e := trace[i].threads[t], trace[i].threads[t].esp;
    RunsKeepInv(trace, acts, outs, i);
    assert ThreadOk(th, false);
    RunsKeepInv(trace, acts, outs, j);
    assert StepAt(trace, acts, outs, j);
    SleeperKept(trace, acts, outs, t, i, j, e);
    forall a: nat | e <= a < e + SAVED ensures At(trace[j + 1].mem, a) == At(trace[i].mem, a) {
      SleeperKept(trace, acts, outs, t, i, j, a);
      StackKept(trace[j], acts[j], trace[j + 1], outs[j], t, a);
    }
  }

  /** The step goes to `t`. */
  predicate GoesTo(act: Act, t: nat)
  {
    (act.SwitchTo? && act.next == t) || (act.Finish? && act.heir == t)
  }

  /** A task that is switched away from and later back to finds the registers and the return address that it was
      switched away with, and its stack pointer where it was. */
  lemma SwitchRoundTrip(trace: seq<Machine>, acts: seq<Act>, outs: seq<Outcome>, t: nat, i: nat, j: nat)
    requires Run(trace, acts, outs) && i < j < |acts| && acts[i].SwitchTo? && trace[i].current == t
    requires GoesTo(acts[j], t) && forall k :: i < k <= j ==> trace[k].current != t
    ensures outs[j] == Loads(acts[i].saved)
    ensures t in trace[i].threads && t in trace[j + 1].threads && trace[j + 1].threads[t] == trace[i].threads[t]
  {
    RunsKeepInv(trace, acts, outs, i);
    assert StepAt(trace, acts, outs, i);
    SleepingContext(trace, acts, outs, t, i + 1, j);
    assert StepAt(trace, acts, outs, j);
  }

  /** The first switch to a new task enters task_bootstrap, with all registers zero. */
  lemma FirstSwitch(trace: seq<Machine>, acts: seq<Act>, outs: seq<Outcome>, t: nat, i: nat, j: nat)
    requires Run(trace, acts, outs) && i < j < |acts| && acts[i].Spawn? && acts[i].task == t
    requires GoesTo(acts[j], t) && forall k :: i < k <= j ==> trace[k].current != t
    ensures outs[j] == Loads(Saved(TASK_BOOTSTRAP, Regs(0, 0, 0, 0)))
  {
    assert StepAt(trace, acts, outs, i);
    SleepingContext(trace, acts, outs, t, i + 1, j);
    assert StepAt(trace, acts, outs, j);
  }

  /** The frame that the last trap of `t` pushed is as it was. */
  ghost predicate FrameHeld(m: Machine, m': Machine, t: nat)
  {
    && t in m.threads && t in m'.threads && m.threads[t].mode == Trap == m'.threads[t].mode
    && SameStacks(m.threads[t], m'.threads[t])
    && (forall a: nat {:trigger At(m'.mem, a)} ::
          m.threads[t].top - TRAP_FRAME <= a < m.threads[t].top ==> At(m'.mem, a) == At(m.mem, a))
  }

  lemma FrameStep(m: Machine, act: Act, m': Machine, out: Outcome, t: nat)
    requires Inv(m) && Step(m, act, m', out) && t in m.threads && m.threads[t].mode == Trap
    requires !act.Iret? && !act.SysExit?
    ensures FrameHeld(m, m', t)
  {
    var th := m.threads[t];
    assert Owns(m, t) && ResumeIntact(m, t) && ThreadOk(th, t == m.current);
    if act.Exec? {
      StepGoesOn(m, act, m', out, t);
    } else {
      OwnersSame(m, act, m', out, t);
      StepConfined(m, act, m', out);
      forall a: nat | th.top - TRAP_FRAME <= a < th.top ensures At(m'.mem, a) == At(m.mem, a) {
        if act.Spawn? {
          StackKeptBySpawn(m, act, m', t, a);
        } else if t != m.current {
          StackKept(m, act, m', out, t, a);
        }
      }
    }
  }

  lemma StackKeptBySpawn(m: Machine, act: Act, m': Machine, t: nat, a: nat)
    requires act.Spawn? && SpawnStep(m, act.task, act.thread, m') && t in m.threads && OnStack(m.threads[t], a)
    ensures At(m'.mem, a) == At(m.mem, a)
  {
    var th := m.threads[t];
    assert Apart(act.thread, th);
    assert !(OnStack(act.thread, a) && OnStack(th, a));
  }

  lemma {:induction false} FrameStays(trace: seq<Machine>, acts: seq<Act>, outs: seq<Outcome>, t: nat, i: nat, j: nat)
    requires Run(trace, acts, outs) && i <= j <= |acts| && t in trace[i].threads && trace[i].threads[t].mode == Trap
    requires forall k :: i <= k < j ==> !acts[k].Iret? && !acts[k].SysExit?
    ensures FrameHeld(trace[i], trace[j], t)
    decreases j
  {
    if i < j {
      FrameStays(trace, acts, outs, t, i, j - 1);
      RunsKeepInv(trace, acts, outs, j - 1);
      assert StepAt(trace, acts, outs, j - 1);
      FrameStep(trace[j - 1], acts[j - 1], trace[j], outs[j - 1], t);
      FrameCompose(trace[i], trace[j - 1], trace[j], t);
    }
  }

  lemma FrameCompose(m: Machine, m': Machine, m'': Machine, t: nat)
    requires FrameHeld(m, m', t) && FrameHeld(m', m'', t)
    ensures FrameHeld(m, m'', t)
  {
    var top := m.threads[t].top;
    forall a: nat | top - TRAP_FRAME <= a < top ensures At(m''.mem, a) == At(m.mem, a) {
      assert At(m'.mem, a) == At(m.mem, a);
    }
  }

  /** A program that is interrupted, by a tick or for a system call, and however long its task is switched away from,
      goes on in ring 3 exactly where it was. */
  lemma TrapThenIret(trace: seq<Machine>, acts: seq<Act>, outs: seq<Outcome>, i: nat, j: nat)
    requires Run(trace, acts, outs) && i < j < |acts| && acts[i].TrapIn? && acts[j].Iret?
    requires forall k :: i < k < j ==> !acts[k].Iret? && !acts[k].SysExit?
    ensures trace[j].current == trace[i].current && trace[j + 1].user == trace[i].user
  {
    var t := trace[i].current;
    RunsKeepInv(trace, acts, outs, i);
    RunsKeepInv(trace, acts, outs, i + 1);
    RunsKeepInv(trace, acts, outs, j);
    assert StepAt(trace, acts, outs, i) && StepAt(trace, acts, outs, j);
    FrameStays(trace, acts, outs, t, i + 1, j);
    assert Owns(trace[j], t) && Owns(trace[j], trace[j].current);
    TrappedFrame(trace[i], trace[i + 1], trace[j], trace[j + 1], t);
  }

  lemma TrappedFrame(m: Machine, m1: Machine, m2: Machine, m3: Machine, t: nat)
    requires Inv(m) && m.current == t && m2.current == t && t in m.threads && t in m2.threads
    requires TrapStep(m, m.threads[t], m1) && FrameHeld(m1, m2, t) && IretStep(m2, m2.threads[t], m3)
    ensures m3.user == m.user
  {
    var top := m.threads[t].top;
    forall a: nat | top - TRAP_FRAME <= a < top ensures At(m2.mem, a) == At(m1.mem, a) {
    }
  }
}
