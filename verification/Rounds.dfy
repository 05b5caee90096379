/** Round-robin scheduling as a transition system: the ring of tasks seen from the current one, and how long a
    task can wait for its turn. */
module Rounds {
  datatype State = Running | Ready | Dead

  /** The ring in the order of its links, starting with the current task; `head` is where new tasks go in. */
  datatype Sched = Sched(turn: seq<nat>, state: map<nat, State>, head: nat)

  predicate Alive(state: map<nat, State>, t: nat)
  {
    t in state && state[t] != Dead
  }

  predicate IsCurrent(s: Sched, t: nat)
  {
    |s.turn| > 0 && s.turn[0] == t
  }

  ghost predicate Distinct(q: seq<nat>)
  {
    forall i, j :: 0 <= i < j < |q| ==> q[i] != q[j]
  }

  /** One cycle through all tasks. */
  ghost predicate Ring(s: Sched)
  {
    |s.turn| > 0 && Distinct(s.turn) && (forall t :: t in s.turn <==> t in s.state) && s.head in s.state
  }

  /** Exactly the current task is running. */
  ghost predicate OneRunning(s: Sched)
  {
    |s.turn| > 0 && (forall t :: t in s.state ==> (s.state[t] == Running <==> t == s.turn[0]))
  }

  ghost predicate Sound(s: Sched)
  {
    Ring(s) && OneRunning(s)
  }

  function Start(t: nat): Sched
  {
    Sched([t], map[t := Running], t)
  }

  lemma StartSound(t: nat)
    ensures Sound(Start(t))
  {
  }

  // --- the steps -----------------------------------------------------------

  /** The first task at `i` or later that is not dead; the length of the ring if there is none. */
  function NextAlive(state: map<nat, State>, q: seq<nat>, i: nat): (k: nat)
    requires i <= |q|
    ensures i <= k <= |q|
    ensures k < |q| ==> Alive(state, q[k])
    ensures forall j :: i <= j < k ==> !Alive(state, q[j])
    decreases |q| - i
  {
    if i == |q| || Alive(state, q[i]) then i else NextAlive(state, q, i + 1)
  }

  function Rotated(q: seq<nat>, k: nat): (r: seq<nat>)
    requires k <= |q|
    ensures |r| == |q|
  {
    q[k..] + q[..k]
  }

  function Descheduled(st: State): State
  {
    if st == Running then Ready else st
  }

  /** schedule: the next task round the ring that is not dead becomes current; nothing happens if there is none. */
  function Switch(s: Sched): Sched
    requires |s.turn| > 0
  {
    var k := NextAlive(s.state, s.turn, 1);
    if k == |s.turn| then s else SwitchTo(s, k)
  }

  function SwitchTo(s: Sched, k: nat): Sched
    requires 0 < k < |s.turn|
  {
    var cur := s.turn[0];
    var state := if cur in s.state then s.state[cur := Descheduled(s.state[cur])] else s.state;
    Sched(Rotated(s.turn, k), state[s.turn[k] := Running], s.head)
  }

  /** task_exit. */
  function Exit(s: Sched): Sched
    requires |s.turn| > 0
  {
    Switch(s.(state := s.state[s.turn[0] := Dead]))
  }

  function InsertedAfter(q: seq<nat>, h: nat, t: nat): seq<nat>
    requires h < |q|
  {
    q[..h + 1] + [t] + q[h + 1..]
  }

  /** task_create: the new task goes in right after the head, which is at `h`. */
  function Create(s: Sched, h: nat, t: nat): Sched
    requires h < |s.turn|
  {
    Sched(InsertedAfter(s.turn, h, t), s.state[t := Ready], s.head)
  }

  ghost function IndexOf(q: seq<nat>, t: nat): (i: nat)
    requires t in q
    ensures i < |q| && q[i] == t
  {
    var i :| 0 <= i < |q| && q[i] == t;
    i
  }

  // --- invariants ----------------------------------------------------------

  lemma RotatedAt(q: seq<nat>, k: nat, i: nat)
    requires k <= |q| && i < |q|
    ensures Rotated(q, k)[i] == q[if i < |q| - k then i + k else i + k - |q|]
  {
  }

  lemma RotatedSame(q: seq<nat>, k: nat)
    requires k <= |q| && Distinct(q)
    ensures Distinct(Rotated(q, k)) && forall t :: t in Rotated(q, k) <==> t in q
  {
    forall i: nat, j: nat | i < j < |q| ensures Rotated(q, k)[i] != Rotated(q, k)[j] {
      RotatedAt(q, k, i);
      RotatedAt(q, k, j);
    }
    assert q == q[..k] + q[k..];
  }

  lemma SwitchToSound(s: Sched, k: nat)
    requires Ring(s) && 0 < k < |s.turn| && Alive(s.state, s.turn[k])
    requires forall t :: t in s.state && s.state[t] == Running ==> t == s.turn[0]
    ensures Sound(SwitchTo(s, k)) && SwitchTo(s, k).turn[0] == s.turn[k]
    ensures forall t :: t in SwitchTo(s, k).state <==> t in s.state
    ensures forall t :: Alive(SwitchTo(s, k).state, t) <==> Alive(s.state, t)
  {
    var s' := SwitchTo(s, k);
    RotatedSame(s.turn, k);
    RotatedAt(s.turn, k, 0);
    HandOver(s.state, s.turn[0], s.turn[k], s'.state);
  }

  lemma HandOver(st: map<nat, State>, a: nat, b: nat, st': map<nat, State>)
    requires a in st && b in st && a != b && Alive(st, b) && st' == st[a := Descheduled(st[a])][b := Running]
    requires forall t :: t in st && st[t] == Running ==> t == a
    ensures forall t :: t in st' <==> t in st
    ensures forall t :: t in st' ==> (st'[t] == Running <==> t == b)
    ensures forall t :: Alive(st', t) <==> Alive(st, t)
  {
  }

  /** The dead stay dead, and in the ring. */
  ghost predicate Keeps(s: Sched, s': Sched)
  {
    s'.head == s.head && forall t :: Gone(s.state, t) ==> Gone(s'.state, t)
  }

  predicate Gone(state: map<nat, State>, t: nat)
  {
    t in state && state[t] == Dead
  }

  /** schedule keeps the ring and the single running task, and revives and kills nobody. */
  lemma SwitchSound(s: Sched)
    requires Sound(s)
    ensures Sound(Switch(s)) && Keeps(s, Switch(s))
    ensures forall t :: Alive(Switch(s).state, t) <==> Alive(s.state, t)
  {
    var k := NextAlive(s.state, s.turn, 1);
    if k < |s.turn| { SwitchToSound(s, k); }
  }

  /** Some task other than the current one is alive. */
  ghost predicate OthersAlive(s: Sched)
  {
    |s.turn| > 0 && exists t :: t != s.turn[0] && Alive(s.state, t)
  }

  /** As long as the head lives, any other task leaves a live one behind. */
  lemma HeadGuards(s: Sched)
    requires Sound(s) && Alive(s.state, s.head) && s.turn[0] != s.head
    ensures OthersAlive(s)
  {
  }

  lemma NextAfterExit(s: Sched, dead: Sched)
    requires Sound(s) && dead == s.(state := s.state[s.turn[0] := Dead])
    ensures NextAlive(dead.state, s.turn, 1) < |s.turn| <==> OthersAlive(s)
  {
    var k := NextAlive(dead.state, s.turn, 1);
    if k < |s.turn| {
      assert Alive(s.state, s.turn[k]);
    } else {
      forall t | t != s.turn[0] ensures !Alive(s.state, t) {
        if t in s.turn { assert !Alive(dead.state, s.turn[IndexOf(s.turn, t)]); }
      }
    }
  }

  /** An exiting task hands over to a live one if and only if there is another live one; otherwise it stays current. */
  lemma ExitResumesIff(s: Sched)
    requires Sound(s)
    ensures Alive(Exit(s).state, Exit(s).turn[0]) <==> OthersAlive(s)
    ensures !OthersAlive(s) ==> Exit(s).turn == s.turn
  {
    var dead := s.(state := s.state[s.turn[0] := Dead]);
    NextAfterExit(s, dead);
    KillFirst(s, dead);
  }

  /** The first task, exiting alone, stays current and dead. */
  lemma LastTaskStays(t: nat)
    ensures Exit(Start(t)).turn == [t] && Gone(Exit(Start(t)).state, t)
  {
    StartSound(t);
    ExitResumesIff(Start(t));
  }

  /** A task exits while another one lives: the ring stays, the task is dead for good and nobody else is. */
  lemma ExitSound(s: Sched)
    requires Sound(s) && OthersAlive(s)
    ensures Sound(Exit(s)) && Keeps(s, Exit(s))
    ensures forall t :: Alive(Exit(s).state, t) <==> t != s.turn[0] && Alive(s.state, t)
  {
    var dead := s.(state := s.state[s.turn[0] := Dead]);
    NextAfterExit(s, dead);
    KillFirst(s, dead);
    HandedOn(dead, NextAlive(dead.state, s.turn, 1));
  }

  lemma HandedOn(s: Sched, k: nat)
    requires Ring(s) && 0 < k < |s.turn| && Alive(s.state, s.turn[k])
    requires forall t :: t in s.state ==> s.state[t] != Running
    ensures Sound(SwitchTo(s, k)) && Keeps(s, SwitchTo(s, k))
    ensures forall t :: Alive(SwitchTo(s, k).state, t) <==> Alive(s.state, t)
  {
    SwitchToSound(s, k);
  }

  lemma KillFirst(s: Sched, dead: Sched)
    requires Sound(s) && dead == s.(state := s.state[s.turn[0] := Dead])
    ensures Ring(dead) && Keeps(s, dead) && forall t :: t in dead.state ==> dead.state[t] != Running
    ensures forall t :: Alive(dead.state, t) <==> t != s.turn[0] && Alive(s.state, t)
  {
  }

  lemma InsertedAt(q: seq<nat>, h: nat, t: nat, i: nat)
    requires h < |q| && i <= |q|
    ensures var r := InsertedAfter(q, h, t);
            |r| == |q| + 1 && r[i] == if i <= h then q[i] else if i == h + 1 then t else q[i - 1]
  {
  }

  lemma InsertedSame(q: seq<nat>, h: nat, t: nat)
    requires h < |q| && Distinct(q) && t !in q
    ensures Distinct(InsertedAfter(q, h, t)) && forall x :: x in InsertedAfter(q, h, t) <==> x in q || x == t
  {
    var r := InsertedAfter(q, h, t);
    forall i: nat, j: nat | i < j < |r| ensures r[i] != r[j] {
      InsertedAt(q, h, t, i);
      InsertedAt(q, h, t, j);
    }
    assert q == q[..h + 1] + q[h + 1..];
  }

  lemma CreateSound(s: Sched, h: nat, t: nat)
    requires Sound(s) && h < |s.turn| && t !in s.state
    ensures Sound(Create(s, h, t)) && Keeps(s, Create(s, h, t))
    ensures forall x :: Alive(Create(s, h, t).state, x) <==> x == t || Alive(s.state, x)
  {
    InsertedSame(s.turn, h, t);
    InsertedAt(s.turn, h, t, 0);
  }

  /** A task created by the head runs next. */
  lemma NewTaskIsNext(s: Sched, t: nat)
    requires Sound(s) && s.turn[0] == s.head && t !in s.state
    ensures |Create(s, 0, t).turn| > 0 && Switch(Create(s, 0, t)).turn[0] == t
  {
    var s' := Create(s, 0, t);
    CreateSound(s, 0, t);
    InsertedAt(s.turn, 0, t, 1);
    assert Alive(s'.state, s'.turn[1]);
    SwitchToSound(s', 1);
  }

  // --- how long a task waits -----------------------------------------------

  /** Live tasks among `q[i..j]`. */
  function AliveIn(state: map<nat, State>, q: seq<nat>, i: nat, j: nat): nat
    requires j <= |q|
    decreases j
  {
    if j <= i then 0 else AliveIn(state, q, i, j - 1) + if Alive(state, q[j - 1]) then 1 else 0
  }

  /** How many live tasks away `t` is: those after the current task, up to `t` itself. */
  ghost function Distance(s: Sched, t: nat): nat
    requires t in s.turn
  {
    AliveIn(s.state, s.turn, 1, IndexOf(s.turn, t) + 1)
  }

  /** Counting depends on who is where and on who is alive. */
  lemma {:induction false} AliveInSame(st: map<nat, State>, q: seq<nat>, i: nat, j: nat, st': map<nat, State>,
        q': seq<nat>, d: nat)
    requires d <= i && i <= j <= |q| && j - d <= |q'|
    requires forall x {:trigger q[x]} :: i <= x < j ==> q'[x - d] == q[x] && (Alive(st', q[x]) <==> Alive(st, q[x]))
    ensures AliveIn(st', q', i - d, j - d) == AliveIn(st, q, i, j)
    decreases j
  {
    if i < j {
      AliveInSame(st, q, i, j - 1, st', q', d);
      assert q'[j - 1 - d] == q[j - 1];
    }
  }

  lemma {:induction false} AliveInSplit(st: map<nat, State>, q: seq<nat>, i: nat, k: nat, j: nat)
    requires i <= k <= j <= |q|
    ensures AliveIn(st, q, i, j) == AliveIn(st, q, i, k) + AliveIn(st, q, k, j)
    decreases j
  {
    if k < j { AliveInSplit(st, q, i, k, j - 1); }
  }

  lemma {:induction false} NoneAlive(st: map<nat, State>, q: seq<nat>, i: nat, j: nat)
    requires i <= j <= |q| && forall x :: i <= x < j ==> !Alive(st, q[x])
    ensures AliveIn(st, q, i, j) == 0
    decreases j
  {
    if i < j { NoneAlive(st, q, i, j - 1); }
  }

  /** A live task that is not current is at least one step away. */
  lemma Waiting(s: Sched, t: nat)
    requires Ring(s) && Alive(s.state, t) && t != s.turn[0]
    ensures t in s.turn && Distance(s, t) >= 1
  {
  }

  lemma IndexIs(q: seq<nat>, t: nat, i: nat)
    requires Distinct(q) && i < |q| && q[i] == t
    ensures t in q && IndexOf(q, t) == i
  {
  }

  /** Whatever schedule switches to, every waiting task comes exactly one step nearer. */
  lemma Nearer(st: map<nat, State>, q: seq<nat>, k: nat, j: nat, st': map<nat, State>)
    requires |q| > 0 && 0 < k <= j < |q| && k == NextAlive(st, q, 1)
    requires forall x :: k <= x <= j ==> (Alive(st', q[x]) <==> Alive(st, q[x]))
    ensures AliveIn(st', Rotated(q, k), 1, j - k + 1) == AliveIn(st, q, 1, j + 1) - 1
  {
    AliveInSplit(st, q, 1, k, j + 1);
    AliveInSplit(st, q, k, k + 1, j + 1);
    NoneAlive(st, q, 1, k);
    forall x {:trigger q[x]} | k + 1 <= x < j + 1 ensures Rotated(q, k)[x - k] == q[x] {
      RotatedAt(q, k, x - k);
    }
    AliveInSame(st, q, k + 1, j + 1, st', Rotated(q, k), k);
  }

  lemma SwitchToNearer(s: Sched, k: nat, s': Sched, t: nat)
    requires |s.turn| > 0 && Distinct(s.turn) && Distinct(s'.turn) && Alive(s.state, t) && t in s.turn && t != s.turn[0]
    requires k == NextAlive(s.state, s.turn, 1) < |s.turn| && s'.turn == Rotated(s.turn, k)
    requires forall x :: x != s.turn[0] ==> (Alive(s'.state, x) <==> Alive(s.state, x))
    ensures t in s'.turn && Distance(s', t) == Distance(s, t) - 1
  {
    var j := IndexOf(s.turn, t);
    assert k <= j;
    RotatedAt(s.turn, k, j - k);
    IndexIs(s'.turn, t, j - k);
    Nearer(s.state, s.turn, k, j, s'.state);
  }

  lemma SwitchNearer(s: Sched, t: nat)
    requires Sound(s) && Alive(s.state, t) && t != s.turn[0]
    ensures t in s.turn && t in Switch(s).turn && Distance(Switch(s), t) == Distance(s, t) - 1
  {
    var k := NextAlive(s.state, s.turn, 1);
    assert Alive(s.state, s.turn[IndexOf(s.turn, t)]);
    SwitchToSound(s, k);
    SwitchToNearer(s, k, Switch(s), t);
  }

  /** An exit is no delay: it counts as a schedule. */
  lemma ExitNearer(s: Sched, t: nat)
    requires Sound(s) && Alive(s.state, t) && t != s.turn[0]
    ensures t in s.turn && t in Exit(s).turn && Distance(Exit(s), t) == Distance(s, t) - 1
  {
    var dead := s.(state := s.state[s.turn[0] := Dead]);
    DeadDistance(s, dead, t);
    ExitSound(s);
    var k := NextAlive(dead.state, s.turn, 1);
    assert Alive(dead.state, s.turn[IndexOf(s.turn, t)]);
    SwitchToNearer(dead, k, Exit(s), t);
  }

  lemma FirstNotCounted(st: map<nat, State>, q: seq<nat>, j: nat, st': map<nat, State>)
    requires j < |q| && Distinct(q) && st' == st[q[0] := Dead]
    ensures AliveIn(st', q, 1, j + 1) == AliveIn(st, q, 1, j + 1)
  {
    var first := q[0];
    assert forall x :: 1 <= x < |q| ==> q[x] != first;
    AliveInSame(st, q, 1, j + 1, st', q, 0);
  }

  /** The current task's own state is not counted. */
  lemma DeadDistance(s: Sched, dead: Sched, t: nat)
    requires Ring(s) && t in s.turn && dead == s.(state := s.state[s.turn[0] := Dead])
    ensures Distance(dead, t) == Distance(s, t)
  {
    FirstNotCounted(s.state, s.turn, IndexOf(s.turn, t), dead.state);
  }

  /** A creation before `t` in the ring puts one task in between, any other none. */
  lemma Farther(st: map<nat, State>, q: seq<nat>, h: nat, n: nat, j: nat, st': map<nat, State>, q': seq<nat>)
    requires h < |q| && 0 < j < |q| && q' == InsertedAfter(q, h, n) && Alive(st', n)
    requires forall x :: 0 <= x < |q| ==> (Alive(st', q[x]) <==> Alive(st, q[x]))
    ensures |q'| == |q| + 1
    ensures j <= h ==> q'[j] == q[j] && AliveIn(st', q', 1, j + 1) == AliveIn(st, q, 1, j + 1)
    ensures j > h ==> q'[j + 1] == q[j] && AliveIn(st', q', 1, j + 2) == AliveIn(st, q, 1, j + 1) + 1
  {
    if j <= h {
      FrontKept(st, q, h, n, j + 1, st', q');
    } else {
      AliveInSplit(st', q', 1, h + 1, j + 2);
      AliveInSplit(st', q', h + 1, h + 2, j + 2);
      AliveInSplit(st, q, 1, h + 1, j + 1);
      InsertedAt(q, h, n, h + 1);
      InsertedAt(q, h, n, j + 1);
      FrontKept(st, q, h, n, h + 1, st', q');
      BackKept(st, q, h, n, j + 1, st', q');
    }
  }

  lemma FrontKept(st: map<nat, State>, q: seq<nat>, h: nat, n: nat, j: nat, st': map<nat, State>, q': seq<nat>)
    requires h < |q| && 1 <= j <= h + 1 && q' == InsertedAfter(q, h, n)
    requires forall x :: 0 <= x < |q| ==> (Alive(st', q[x]) <==> Alive(st, q[x]))
    ensures AliveIn(st', q', 1, j) == AliveIn(st, q, 1, j) && q'[j - 1] == q[j - 1]
  {
    forall x {:trigger q[x]} | 0 <= x < j ensures q'[x - 0] == q[x] {
      InsertedAt(q, h, n, x);
    }
    AliveInSame(st, q, 1, j, st', q', 0);
  }

  lemma BackKept(st: map<nat, State>, q: seq<nat>, h: nat, n: nat, j: nat, st': map<nat, State>, q': seq<nat>)
    requires h < j <= |q| && q' == InsertedAfter(q, h, n)
    requires forall x :: 0 <= x < |q| ==> (Alive(st', q[x]) <==> Alive(st, q[x]))
    ensures AliveIn(st', q', h + 2, j + 1) == AliveIn(st, q, h + 1, j)
  {
    forall x {:trigger q'[x]} | h + 2 <= x < j + 1
      ensures q[x - 1] == q'[x] && (Alive(st, q'[x]) <==> Alive(st', q'[x]))
    {
      InsertedAt(q, h, n, x);
    }
    AliveInSame(st', q', h + 2, j + 1, st, q, 1);
  }

  lemma CreateFarther(s: Sched, h: nat, n: nat, t: nat)
    requires Distinct(s.turn) && h < |s.turn| && n !in s.turn && t in s.turn && t != s.turn[0]
    ensures var s' := Create(s, h, n);
            t in s'.turn && Distance(s', t) == Distance(s, t) + if h < IndexOf(s.turn, t) then 1 else 0
  {
    var s', j := Create(s, h, n), IndexOf(s.turn, t);
    InsertedSame(s.turn, h, n);
    OthersAsAlive(s.state, s.turn, n, s'.state);
    Farther(s.state, s.turn, h, n, j, s'.state, s'.turn);
    IndexIs(s'.turn, t, if j <= h then j else j + 1);
  }

  lemma OthersAsAlive(st: map<nat, State>, q: seq<nat>, n: nat, st': map<nat, State>)
    requires n !in q && st' == st[n := Ready]
    ensures Alive(st', n) && forall x :: 0 <= x < |q| ==> (Alive(st', q[x]) <==> Alive(st, q[x]))
  {
  }

  // --- runs ----------------------------------------------------------------

  datatype Event = Scheduled | Created(task: nat) | Exited

  ghost predicate Next(s: Sched, e: Event, s': Sched)
  {
    |s.turn| > 0 &&
    match e
    case Scheduled => s' == Switch(s)
    case Created(t) => t !in s.state && s.head in s.turn && s' == Create(s, IndexOf(s.turn, s.head), t)
    case Exited => OthersAlive(s) && s' == Exit(s)
  }

  /** A run in which the last live task does not exit; it cannot if the head never does. */
  ghost predicate Run(trace: seq<Sched>, events: seq<Event>)
  {
    && |trace| == |events| + 1 && Sound(trace[0])
    && (forall i: nat {:trigger NextAt(trace, events, i)} :: i < |events| ==> NextAt(trace, events, i))
  }

  ghost predicate NextAt(trace: seq<Sched>, events: seq<Event>, i: nat)
    requires i < |events| && |trace| == |events| + 1
  {
    Next(trace[i], events[i], trace[i + 1])
  }

  lemma NextSound(s: Sched, e: Event, s': Sched)
    requires Sound(s) && Next(s, e, s')
    ensures Sound(s') && Keeps(s, s')
    ensures forall t :: Alive(s.state, t) && t != s.turn[0] ==> Alive(s'.state, t)
  {
    match e
    case Scheduled => SwitchSound(s);
    case Created(t) => CreateSound(s, IndexOf(s.turn, s.head), t);
    case Exited => ExitSound(s);
  }

  /** Every state of a run is one ring with exactly one running task, the current one. */
  lemma {:induction false} RunsStaySound(trace: seq<Sched>, events: seq<Event>, i: nat)
    requires Run(trace, events) && i <= |events|
    ensures Sound(trace[i])
  {
    if i > 0 {
      RunsStaySound(trace, events, i - 1);
      assert NextAt(trace, events, i - 1);
      NextSound(trace[i - 1], events[i - 1], trace[i]);
    }
  }

  /** A task that is dead at some point of a run is dead from then on, and is never current again. */
  lemma {:induction false} DeadStayDead(trace: seq<Sched>, events: seq<Event>, i: nat, j: nat, t: nat)
    requires Run(trace, events) && i <= j <= |events| && Gone(trace[i].state, t)
    ensures Gone(trace[j].state, t) && !IsCurrent(trace[j], t)
    decreases j
  {
    RunsStaySound(trace, events, j);
    if i < j {
      DeadStayDead(trace, events, i, j - 1, t);
      RunsStaySound(trace, events, j - 1);
      assert NextAt(trace, events, j - 1);
      NextSound(trace[j - 1], events[j - 1], trace[j]);
    }
  }

  /** How many of the first `i` events call schedule, and how many create a task. */
  function Switches(events: seq<Event>, i: nat): nat
    requires i <= |events|
  {
    if i == 0 then 0 else Switches(events, i - 1) + if events[i - 1].Created? then 0 else 1
  }

  function Creations(events: seq<Event>, i: nat): nat
    requires i <= |events|
  {
    if i == 0 then 0 else Creations(events, i - 1) + if events[i - 1].Created? then 1 else 0
  }

  lemma NextDistance(s: Sched, e: Event, s': Sched, t: nat)
    requires Sound(s) && Next(s, e, s') && Alive(s.state, t) && t != s.turn[0]
    ensures t in s.turn && t in s'.turn && Alive(s'.state, t)
    ensures if e.Created? then Distance(s', t) <= Distance(s, t) + 1 else Distance(s', t) == Distance(s, t) - 1
  {
    NextSound(s, e, s');
    match e
    case Scheduled => SwitchNearer(s, t);
    case Created(n) => CreateFarther(s, IndexOf(s.turn, s.head), n, t);
    case Exited => ExitNearer(s, t);
  }

  /** Live, in the ring, and at most `far` away. */
  ghost predicate Within(s: Sched, t: nat, far: int)
  {
    Sound(s) && Alive(s.state, t) && t in s.turn && Distance(s, t) <= far
  }

  lemma WithinNext(s: Sched, e: Event, s': Sched, t: nat, far: int)
    requires Within(s, t, far) && Next(s, e, s') && !IsCurrent(s, t)
    ensures Within(s', t, if e.Created? then far + 1 else far - 1)
  {
    NextSound(s, e, s');
    NextDistance(s, e, s', t);
  }

  lemma {:induction false} StillWaiting(trace: seq<Sched>, events: seq<Event>, t: nat, far: int, i: nat)
    requires Run(trace, events) && Within(trace[0], t, far) && i <= |events|
    requires forall m :: 0 <= m < i ==> !IsCurrent(trace[m], t)
    ensures Within(trace[i], t, far + Creations(events, i) - Switches(events, i))
  {
    if i > 0 {
      StillWaiting(trace, events, t, far, i - 1);
      assert NextAt(trace, events, i - 1);
      WithinNext(trace[i - 1], events[i - 1], trace[i], t, far + Creations(events, i - 1) - Switches(events, i - 1));
    }
  }

  /** A live task at distance d is current within d + k calls of schedule, k being the tasks created meanwhile. */
  lemma BoundedWaiting(trace: seq<Sched>, events: seq<Event>, t: nat)
    requires Run(trace, events) && Alive(trace[0].state, t)
    ensures t in trace[0].turn
    ensures Switches(events, |events|) >= Distance(trace[0], t) + Creations(events, |events|) ==>
              exists m :: 0 <= m <= |events| && IsCurrent(trace[m], t)
  {
    assert t in trace[0].turn;
    if forall m :: 0 <= m <= |events| ==> !IsCurrent(trace[m], t) {
      StillWaiting(trace, events, t, Distance(trace[0], t), |events|);
      Waiting(trace[|events|], t);
    }
  }
}
