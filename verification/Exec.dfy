/** kernel/exec.c and the context switches under it as they run: words are pushed and popped one by one, and each
    routine is proved to be one step of the protocol. */
module Exec {
  import opened ExecProtocol

  class Cpu {
    var threads: map<nat, Thread>
    var current: nat
    var esp0: nat
    var mem: map<nat, int>
    var user: Context
    var running: bool
    var kret: nat
    var exitCode: int

    function View(): Machine
      reads this
    {
      Machine(threads, current, esp0, mem, user, running, kret, exitCode)
    }

    ghost predicate Valid()
      reads this
    {
      Inv(View())
    }

    /** One task on its ordinary stack, no program yet. */
    constructor (t: nat, first: Thread)
      requires first.mode == Kernel && ThreadOk(first, true) && SelfApart(first)
      ensures Valid() && threads == map[t := first] && current == t && !running && esp0 == first.top
    {
      threads, current, esp0, mem := map[t := first], t, first.top, map[];
      user, running, kret, exitCode := Context(0, 0, 0, 0, 0), false, 0, 0;
    }

    /** Pushing words, the first one first. */
    method Push(esp: nat, words: seq<int>) returns (esp': nat)
      requires esp >= 4 * |words|
      modifies this`mem
      ensures esp' == esp - 4 * |words| && WritesIn(old(mem), mem, esp', esp)
      ensures forall i :: 0 <= i < |words| ==> At(mem, esp - 4 * (i + 1)) == words[i]
    {
      esp' := esp;
      for k := 0 to |words|
        invariant esp' == esp - 4 * k && WritesIn(old(mem), mem, esp', esp)
        invariant forall i :: 0 <= i < k ==> At(mem, esp - 4 * (i + 1)) == words[i]
      {
        ghost var was := mem;
        esp' := esp' - 4;
        mem := mem[esp' := words[k]];
        assert forall a: nat :: a != esp' ==> At(mem, a) == At(was, a);
      }
    }

    /** A context as context_switch saves it: the return address, then ebx, esi, edi and ebp. */
    method PushSaved(esp: nat, saved: Saved) returns (esp': nat)
      requires esp >= SAVED
      modifies this`mem
      ensures esp' == esp - SAVED && WritesIn(old(mem), mem, esp', esp) && SavedAt(mem, esp') == saved
    {
      var words := [saved.site, saved.regs.ebx, saved.regs.esi, saved.regs.edi, saved.regs.ebp];
      esp' := Push(esp, words);
      assert words[0] == saved.site && words[1] == saved.regs.ebx && words[2] == saved.regs.esi;
      assert words[3] == saved.regs.edi && words[4] == saved.regs.ebp;
    }

    /** A ring-3 context as a trap pushes it and iret pops it. */
    method PushFrame(esp: nat, c: Context) returns (esp': nat)
      requires esp >= IRET_FRAME
      modifies this`mem
      ensures esp' == esp - IRET_FRAME && WritesIn(old(mem), mem, esp', esp) && FrameAt(mem, esp') == c
    {
      var words := [c.ss, c.esp, c.flags, c.cs, c.eip];
      esp' := Push(esp, words);
      assert words[0] == c.ss && words[1] == c.esp && words[2] == c.flags && words[3] == c.cs && words[4] == c.eip;
    }

    /** enter_user: below its arguments the way back, and below that what iret pops on the way into ring 3. */
    method EnterUser(esp: nat, entry: int, userEsp: int, flags: nat, regs: Regs) returns (saved: nat, frame: nat)
      requires esp >= ENTER_ARGS + SAVED + IRET_FRAME
      modifies this`mem
      ensures saved == esp - ENTER_ARGS - SAVED && frame == saved - IRET_FRAME
      ensures WritesIn(old(mem), mem, frame, esp) && SavedAt(mem, saved) == Saved(EXEC_RESUME, regs)
      ensures FrameAt(mem, frame) == Context(entry, 0x1B, WithInterrupts(flags), userEsp, 0x23)
    {
      var at := Push(esp, [KRET_ADDRESS, userEsp, entry]);
      saved := PushSaved(at, Saved(EXEC_RESUME, regs));
      ghost var was := mem;
      frame := PushFrame(saved, Context(entry, USER_CODE, WithInterrupts(flags), userEsp, USER_DATA));
      assert forall a: nat :: a >= saved ==> At(mem, a) == At(was, a);
    }

    /** exec_user up to ring 3: the checks, then enter_user and the iret. */
    method ExecUser(loads: bool, entry: int, flags: nat, regs: Regs) returns (out: Outcome)
      requires Valid() && threads[current].mode != User
      requires Floor(threads[current]) + ENTER_ARGS + SAVED + IRET_FRAME <= threads[current].esp
      modifies this
      ensures Valid() && Step(old(View()), Exec(loads, entry, flags, regs), View(), out)
      ensures out == Quiet <==> !old(running) && old(threads[current].top) != 0 && loads
      ensures out == Quiet ==> SavedAt(mem, kret) == Saved(EXEC_RESUME, regs)
      ensures out == Quiet ==>
                && kret >= IRET_FRAME && user == FrameAt(mem, kret - IRET_FRAME)
                && user == Context(entry, 0x1B, WithInterrupts(flags), 0xC0_0000, 0x23)
    {
      ghost var m, act := View(), Exec(loads, entry, flags, regs);
      var me := threads[current];
      if running || me.top == 0 || !loads {
        ExecKeeps(m, act, m, Fails);
        return Fails;
      }
      esp0 := me.top;
      exitCode := -1;
      running := true;
      var frame;
      kret, frame := EnterUser(me.esp, entry, USER_STACK_TOP, flags, regs);
      user := FrameAt(mem, frame);
      threads := threads[current := me.(mode := User, esp := kret)];
      out := Quiet;
      assert EnterStep(m, me, act, kret, View());
      EnteredBy(m, act, kret, View());
    }

    /** A trap from ring 3: the processor pushes ss, esp, eflags, cs and eip where the TSS says. */
    method TrapEntry()
      requires Valid() && threads[current].mode == User
      modifies this
      ensures Valid() && Step(old(View()), TrapIn, View(), Quiet)
      ensures FrameAt(mem, threads[current].esp) == old(user)
      ensures threads[current].esp == threads[current].top - TRAP_FRAME
    {
      ghost var m := View();
      var me := threads[current];
      assert Owns(m, current) && ResumeIntact(m, current) && ThreadOk(me, true);
      var esp := PushFrame(esp0, user);
      threads := threads[current := me.(mode := Trap, esp := esp)];
      assert TrapStep(m, me, View());
      StepKeeps(m, TrapIn, View(), Quiet);
    }

    /** The iret at the end of a trap: ring 3 goes on where the frame says. */
    method Return()
      requires Valid() && threads[current].mode == Trap && threads[current].esp + TRAP_FRAME == threads[current].top
      modifies this
      ensures Valid() && Step(old(View()), Iret, View(), Quiet) && user == FrameAt(mem, old(threads[current].esp))
    {
      ghost var m := View();
      var me := threads[current];
      user := FrameAt(mem, me.esp);
      threads := threads[current := me.(mode := User)];
      assert IretStep(m, me, View());
      StepKeeps(m, Iret, View(), Quiet);
    }

    /** exec_on_exit and leave_user: the trap stack is abandoned and exec_user goes on, returning the code. */
    method ExecOnExit(code: int) returns (out: Outcome)
      requires Valid() && threads[current].mode == Trap
      modifies this
      ensures Valid() && Step(old(View()), SysExit(code), View(), out)
      ensures out == Returns(SavedAt(mem, kret), code) && out.saved.site == EXEC_RESUME
      ensures !running && threads[current].mode == Kernel
    {
      ghost var m := View();
      var me := threads[current];
      assert Owns(m, current) && ResumeIntact(m, current);
      exitCode := code;
      running := false;
      threads := threads[current := me.(mode := Kernel, esp := kret + SAVED)];
      out := Returns(SavedAt(mem, kret), exitCode);
      assert SysExitStep(m, me, code, View(), out);
      SysExitKeeps(m, code, View(), out);
    }

    /** context_switch with the part of schedule around it: the context is saved on the stack in use, the TSS and the
        stack pointer follow the next task, whose context is popped. */
    method ContextSwitch(next: nat, saved: Saved) returns (back: Saved)
      requires Valid() && threads[current].mode != User && next in threads && next != current
      requires Floor(threads[current]) + SAVED <= threads[current].esp
      modifies this
      ensures Valid() && Step(old(View()), SwitchTo(next, saved), View(), Loads(back))
      ensures current == next && esp0 == threads[next].top
      ensures old(current) in threads && SavedAt(mem, threads[old(current)].esp) == saved
      ensures threads[old(current)].esp == old(threads[current].esp) - SAVED
      ensures back == SavedAt(old(mem), old(threads[next].esp))
    {
      ghost var m := View();
      var me, you := threads[current], threads[next];
      assert ThreadOk(me, true) && ThreadOk(you, false);
      esp0 := you.top;
      var esp := PushSaved(me.esp, saved);
      threads := threads[current := me.(esp := esp)];
      current := next;
      back := SavedAt(mem, you.esp);
      threads := threads[next := you.(esp := you.esp + SAVED)];
      assert SwitchStep(m, me, next, saved, View(), Loads(back));
      StepKeeps(m, SwitchTo(next, saved), View(), Loads(back));
      ContextKept(m, SwitchTo(next, saved), next, View(), Loads(back));
    }

    /** The last part of task_create: on the new stack stand task_exit, task_bootstrap and four zero registers, so that
        the first switch to the task enters task_bootstrap. */
    method Spawn(t: nat, th: Thread)
      requires Valid() && t !in threads && th.mode == Kernel && StartsAt(th) && FreshStacks(threads, th)
      modifies this
      ensures Valid() && Step(old(View()), ExecProtocol.Spawn(t, th), View(), Quiet)
      ensures SavedAt(mem, th.esp) == Saved(TASK_BOOTSTRAP, Regs(0, 0, 0, 0)) && At(mem, th.esp + SAVED) == TASK_EXIT
    {
      ghost var m := View();
      var bottom := [TASK_EXIT];
      var esp := Push(th.hi, bottom);
      ghost var was := mem;
      assert bottom[0] == TASK_EXIT && At(mem, th.hi - 4) == TASK_EXIT;
      esp := PushSaved(esp, Saved(TASK_BOOTSTRAP, Regs(0, 0, 0, 0)));
      assert At(mem, th.hi - 4) == At(was, th.hi - 4);
      threads := threads[t := th];
      assert SpawnStep(m, t, th, View());
      StepKeeps(m, ExecProtocol.Spawn(t, th), View(), Quiet);
    }

    /** The end of task_exit: the context is saved as in any switch, but the task is left for good. */
    method Finish(heir: nat, saved: Saved) returns (back: Saved)
      requires Valid() && threads[current].mode == Kernel && heir in threads && heir != current
      requires threads[current].lo + SAVED <= threads[current].esp
      modifies this
      ensures Valid() && Step(old(View()), ExecProtocol.Finish(heir, saved), View(), Loads(back))
      ensures current == heir && esp0 == threads[heir].top && back == SavedAt(old(mem), old(threads[heir].esp))
    {
      ghost var m := View();
      var me, you := threads[current], threads[heir];
      esp0 := you.top;
      var _ := PushSaved(me.esp, saved);
      threads := threads - {current};
      current := heir;
      back := SavedAt(mem, you.esp);
      threads := threads[heir := you.(esp := you.esp + SAVED)];
      assert FinishStep(m, me, heir, saved, View(), Loads(back));
      StepKeeps(m, ExecProtocol.Finish(heir, saved), View(), Loads(back));
      ContextKept(m, ExecProtocol.Finish(heir, saved), heir, View(), Loads(back));
    }
  }

  /** The address of g_kreturn_esp. */
  const KRET_ADDRESS := 4
  const START_FRAME := 24

  /** The stack pointer of a new task: six words down from the top of its stack. */
  predicate StartsAt(th: Thread)
  {
    th.lo + START_FRAME <= th.hi && th.esp == th.hi - START_FRAME && (th.top != 0 ==> th.tlo + TRAP_FRAME <= th.top)
  }

  /** The stacks of a new task share no byte with each other or with any stack in use. */
  ghost predicate FreshStacks(threads: map<nat, Thread>, th: Thread)
  {
    SelfApart(th) && forall u {:trigger threads[u]} :: u in threads ==> Apart(th, threads[u])
  }

  lemma EnteredBy(m: Machine, act: Act, kret: nat, m': Machine)
    requires Inv(m) && act.Exec? && m.threads[m.current].mode != User && !Refused(m, m.threads[m.current], act.loads)
    requires EnterStep(m, m.threads[m.current], act, kret, m')
    ensures Inv(m') && Step(m, act, m', Quiet)
  {
    assert ExecStep(m, m.threads[m.current], act, m', Quiet);
    ExecKeeps(m, act, m', Quiet);
  }

  /** The saved context of another task is not written on. */
  lemma ContextKept(m: Machine, act: Act, t: nat, m': Machine, out: Outcome)
    requires Inv(m) && Step(m, act, m', out) && t in m.threads && t != m.current
    ensures SavedAt(m'.mem, m.threads[t].esp) == SavedAt(m.mem, m.threads[t].esp)
  {
    var e := m.threads[t].esp;
    assert ThreadOk(m.threads[t], false);
    forall a: nat | e <= a < e + SAVED ensures At(m'.mem, a) == At(m.mem, a) {
      StackKept(m, act, m', out, t, a);
    }
  }
}
