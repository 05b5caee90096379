/** The fiber scheduler of kernel/green.c as a transition system: the ring seen from the place where the next scan
    starts, and how often each fiber still runs. */
module GreenRounds {
  import opened Rounds

  /** `left` is how many more times a fiber will yield; -1 once it has finished. */
  datatype Fibers = Fibers(ring: seq<nat>, left: map<nat, int>)

  predicate Runnable(left: map<nat, int>, t: nat)
  {
    t in left && left[t] >= 0
  }

  ghost predicate Proper(s: Fibers)
  {
    Distinct(s.ring) && (forall t :: t in s.ring <==> t in s.left) && (forall t :: t in s.left ==> s.left[t] >= -1)
  }

  /** pick_next: the first runnable fiber; the length of the ring if there is none. */
  function Pick(left: map<nat, int>, ring: seq<nat>, i: nat): (k: nat)
    requires i <= |ring|
    ensures i <= k <= |ring|
    ensures k < |ring| ==> Runnable(left, ring[k])
    ensures forall j :: i <= j < k ==> !Runnable(left, ring[j])
    decreases |ring| - i
  {
    if i == |ring| || Runnable(left, ring[i]) then i else Pick(left, ring, i + 1)
  }

  predicate Finished(s: Fibers)
  {
    Pick(s.left, s.ring, 0) == |s.ring|
  }

  /** One resumption: the picked fiber runs to its next yield or to its end; the next scan starts after it. */
  function Resume(s: Fibers): Fibers
    requires !Finished(s)
  {
    var k := Pick(s.left, s.ring, 0);
    Fibers(Rotated(s.ring, k + 1), s.left[s.ring[k] := s.left[s.ring[k]] - 1])
  }

  function Picked(s: Fibers): nat
    requires !Finished(s)
  {
    s.ring[Pick(s.left, s.ring, 0)]
  }

  lemma ResumeProper(s: Fibers)
    requires Proper(s) && !Finished(s)
    ensures Proper(Resume(s)) && Resume(s).left.Keys == s.left.Keys && Runnable(s.left, Picked(s))
  {
    var s' := Resume(s);
    RotatedSame(s.ring, Pick(s.left, s.ring, 0) + 1);
    assert Picked(s) in s.ring;
    assert forall t :: t in s'.left <==> t in s.left;
  }

  /** A run: `log[i]` is the fiber resumed at `trace[i]`. */
  ghost predicate GreenRun(trace: seq<Fibers>, log: seq<nat>)
  {
    && |trace| == |log| + 1 && Proper(trace[0])
    && (forall i: nat {:trigger ResumedAt(trace, log, i)} :: i < |log| ==> ResumedAt(trace, log, i))
  }

  predicate ResumedAt(trace: seq<Fibers>, log: seq<nat>, i: nat)
    requires i < |log| && |trace| == |log| + 1
  {
    !Finished(trace[i]) && log[i] == Picked(trace[i]) && trace[i + 1] == Resume(trace[i])
  }

  lemma {:induction false} RunProper(trace: seq<Fibers>, log: seq<nat>, i: nat)
    requires GreenRun(trace, log) && i <= |log|
    ensures Proper(trace[i]) && trace[i].left.Keys == trace[0].left.Keys
  {
    if i > 0 {
      RunProper(trace, log, i - 1);
      assert ResumedAt(trace, log, i - 1);
      ResumeProper(trace[i - 1]);
    }
  }

  // --- how often a fiber runs ----------------------------------------------

  function Count(log: seq<nat>, t: nat, n: nat): nat
    requires n <= |log|
  {
    if n == 0 then 0 else Count(log, t, n - 1) + if log[n - 1] == t then 1 else 0
  }

  lemma {:induction false} CountIsSpent(trace: seq<Fibers>, log: seq<nat>, t: nat, i: nat)
    requires GreenRun(trace, log) && t in trace[0].left && i <= |log|
    ensures t in trace[i].left && Count(log, t, i) == trace[0].left[t] - trace[i].left[t]
  {
    RunProper(trace, log, i);
    if i > 0 {
      CountIsSpent(trace, log, t, i - 1);
      assert ResumedAt(trace, log, i - 1);
    }
  }

  /** When the scheduler finds nothing left to run, a fiber with y yields has been resumed exactly y + 1 times. */
  lemma ResumedOncePerYield(trace: seq<Fibers>, log: seq<nat>, t: nat)
    requires GreenRun(trace, log) && Finished(trace[|log|]) && Runnable(trace[0].left, t)
    ensures Count(log, t, |log|) == trace[0].left[t] + 1
  {
    var s := trace[|log|];
    RunProper(trace, log, |log|);
    CountIsSpent(trace, log, t, |log|);
    var i := IndexOf(s.ring, t);
    assert !Runnable(s.left, s.ring[i]);
  }

  // --- fairness ------------------------------------------------------------

  /** The runnable fibers among the first `n`, in order. */
  function Filter(left: map<nat, int>, ring: seq<nat>, n: nat): seq<nat>
    requires n <= |ring|
  {
    if n == 0 then [] else Filter(left, ring, n - 1) + if Runnable(left, ring[n - 1]) then [ring[n - 1]] else []
  }

  lemma {:induction false} FilterSkips(left: map<nat, int>, ring: seq<nat>, a: nat, b: nat)
    requires a <= b <= |ring| && forall x :: a <= x < b ==> !Runnable(left, ring[x])
    ensures Filter(left, ring, b) == Filter(left, ring, a)
    decreases b
  {
    if a < b { FilterSkips(left, ring, a, b - 1); }
  }

  /** The filter holds each runnable fiber of the prefix exactly once, and nothing else. */
  lemma {:induction false} FilterOnce(left: map<nat, int>, ring: seq<nat>, n: nat, t: nat)
    requires n <= |ring| && Distinct(ring)
    ensures Count(Filter(left, ring, n), t, |Filter(left, ring, n)|)
            == if Runnable(left, t) && (exists i :: 0 <= i < n && ring[i] == t) then 1 else 0
  {
    if n > 0 {
      FilterOnce(left, ring, n - 1, t);
      var f := Filter(left, ring, n - 1);
      CountPrefix(f, if Runnable(left, ring[n - 1]) then [ring[n - 1]] else [], t, |f|);
    }
  }

  lemma {:induction false} CountPrefix(a: seq<nat>, b: seq<nat>, t: nat, n: nat)
    requires n <= |a|
    ensures Count(a + b, t, n) == Count(a, t, n)
  {
    if n > 0 { CountPrefix(a, b, t, n - 1); }
  }

  /** Since the scan has swept the first `p` fibers of `from`: each runnable one among them ran once, in order, and the
      others are as they were. */
  ghost predicate Swept(from: Fibers, s: Fibers, ran: seq<nat>, p: nat)
  {
    && p < |from.ring| && s.ring == Rotated(from.ring, p) && ran == Filter(from.left, from.ring, p)
    && s.left.Keys == from.left.Keys
    && (forall x {:trigger from.ring[x]} :: p <= x < |from.ring| ==>
         (Runnable(s.left, from.ring[x]) <==> Runnable(from.left, from.ring[x])))
  }

  lemma RotatedTwice(q: seq<nat>, p: nat, k: nat)
    requires p + k <= |q|
    ensures Rotated(Rotated(q, p), k) == Rotated(q, p + k)
  {
    var r := Rotated(q, p);
    forall i: nat | i < |q| ensures Rotated(r, k)[i] == Rotated(q, p + k)[i] {
      RotatedAt(q, p + k, i);
      RotatedAt(r, k, i);
      RotatedAt(q, p, if i < |q| - k then i + k else i + k - |q|);
    }
  }

  /** Where the scan finds the next one, as long as the last of the ring is still runnable. */
  lemma SweepFinds(from: Fibers, s: Fibers, ran: seq<nat>, p: nat, k: nat)
    requires Distinct(from.ring) && Swept(from, s, ran, p) && k == Pick(s.left, s.ring, 0)
    requires Runnable(from.left, from.ring[|from.ring| - 1])
    ensures p + k < |from.ring| && s.ring[k] == from.ring[p + k] && Runnable(from.left, from.ring[p + k])
    ensures Filter(from.left, from.ring, p + k) == ran
  {
    var q, n := from.ring, |from.ring|;
    RotatedAt(q, p, n - 1 - p);
    assert Runnable(s.left, s.ring[n - 1 - p]);
    RotatedAt(q, p, k);
    forall x | p <= x < p + k ensures !Runnable(from.left, q[x]) {
      RotatedAt(q, p, x - p);
      assert !Runnable(s.left, s.ring[x - p]);
    }
    FilterSkips(from.left, q, p, p + k);
  }

  lemma SweepGoesOn(from: Fibers, s: Fibers, ran: seq<nat>, p: nat)
    requires Distinct(from.ring) && Swept(from, s, ran, p) && !Finished(s)
    requires Runnable(from.left, from.ring[|from.ring| - 1]) && Picked(s) != from.ring[|from.ring| - 1]
    ensures Swept(from, Resume(s), ran + [Picked(s)], p + Pick(s.left, s.ring, 0) + 1)
  {
    var k := Pick(s.left, s.ring, 0);
    SweepFinds(from, s, ran, p, k);
    SweepTakes(from, s, ran, p, k, Resume(s));
  }

  lemma SweepStarts(from: Fibers)
    requires |from.ring| > 0
    ensures Swept(from, from, [], 0)
  {
    assert Rotated(from.ring, 0) == from.ring;
  }

  lemma SweepTakes(from: Fibers, s: Fibers, ran: seq<nat>, p: nat, k: nat, s': Fibers)
    requires Distinct(from.ring) && Swept(from, s, ran, p) && p + k + 1 < |from.ring|
    requires from.ring[p + k] in s.left && Runnable(from.left, from.ring[p + k])
    requires Filter(from.left, from.ring, p + k) == ran
    requires s'.ring == Rotated(s.ring, k + 1) && s'.left == s.left[from.ring[p + k] := s.left[from.ring[p + k]] - 1]
    ensures Swept(from, s', ran + [from.ring[p + k]], p + k + 1)
  {
    RotatedTwice(from.ring, p, k + 1);
    RestKept(from.ring, p + k, s.left, s'.left);
    FilterTakes(from.left, from.ring, p + k);
  }

  lemma FilterTakes(left: map<nat, int>, ring: seq<nat>, n: nat)
    requires n < |ring| && Runnable(left, ring[n])
    ensures Filter(left, ring, n + 1) == Filter(left, ring, n) + [ring[n]]
  {
  }

  lemma RestKept(q: seq<nat>, k: nat, left: map<nat, int>, left': map<nat, int>)
    requires k < |q| && Distinct(q) && q[k] in left && left' == left[q[k] := left[q[k]] - 1]
    ensures forall x {:trigger q[x]} :: k < x < |q| ==> (Runnable(left', q[x]) <==> Runnable(left, q[x]))
  {
  }

  lemma {:induction false} LeftKept(trace: seq<Fibers>, log: seq<nat>, t: nat, i: nat, j: nat)
    requires GreenRun(trace, log) && t in trace[0].left && i <= j <= |log| && forall x :: i <= x < j ==> log[x] != t
    ensures t in trace[i].left && t in trace[j].left && trace[j].left[t] == trace[i].left[t]
    decreases j
  {
    RunProper(trace, log, i);
    RunProper(trace, log, j);
    if i < j {
      LeftKept(trace, log, t, i, j - 1);
      assert ResumedAt(trace, log, j - 1);
    }
  }

  /** Until the last of the ring runs, the log is the sweep. */
  lemma {:induction false} SweepUntil(trace: seq<Fibers>, log: seq<nat>, i: nat, j: nat, from: Fibers,
        t: nat)
    returns (p: nat)
    requires GreenRun(trace, log) && i <= j <= |log| && from == trace[i] && Distinct(from.ring) && |from.ring| > 0
    requires t == from.ring[|from.ring| - 1] && Runnable(from.left, t) && forall x :: i <= x < j ==> log[x] != t
    ensures Swept(from, trace[j], log[i..j], p)
    decreases j
  {
    if i == j {
      p := 0;
      SweepStarts(from);
      assert log[i..j] == [];
    } else {
      var before := SweepUntil(trace, log, i, j - 1, from, t);
      var picked, ran := log[j - 1], log[i..j - 1];
      assert log[i..j] == ran + [picked];
      p := SweepStep(trace, log, j - 1, from, ran, before, t);
    }
  }

  lemma SweepStep(trace: seq<Fibers>, log: seq<nat>, j: nat, from: Fibers, ran: seq<nat>, p: nat,
        t: nat) returns (p': nat)
    requires GreenRun(trace, log) && j < |log| && Distinct(from.ring) && Swept(from, trace[j], ran, p)
    requires Runnable(from.left, t) && t == from.ring[|from.ring| - 1] && log[j] != t
    ensures Swept(from, trace[j + 1], ran + [log[j]], p')
  {
    assert ResumedAt(trace, log, j);
    SweepGoesOn(from, trace[j], ran, p);
    p' := p + Pick(trace[j].left, trace[j].ring, 0) + 1;
  }

  /** The fiber that just ran is last in the ring. */
  lemma JustRan(s: Fibers)
    requires Proper(s) && !Finished(s)
    ensures |Resume(s).ring| > 0 && Resume(s).ring[|s.ring| - 1] == Picked(s) && |Resume(s).ring| == |s.ring|
  {
    RotatedAt(s.ring, Pick(s.left, s.ring, 0) + 1, |s.ring| - 1);
  }

  /** Between two consecutive resumptions of a fiber, exactly the other fibers that are still runnable run, each once
      and in ring order; `u` is any fiber. */
  lemma RoundRobin(trace: seq<Fibers>, log: seq<nat>, i: nat, j: nat, u: nat)
    requires GreenRun(trace, log) && i < j < |log| && log[i] == log[j]
    requires forall x :: i < x < j ==> log[x] != log[i]
    ensures var s := trace[i + 1];
            |s.ring| > 0 && log[i + 1..j] == Filter(s.left, s.ring, |s.ring| - 1)
    ensures OthersOnce(trace[i + 1], log[i + 1..j], log[i], u)
  {
    var t, s := log[i], trace[i + 1];
    LastToRun(trace, log, i, j);
    RunProper(trace, log, i + 1);
    var p := SweepUntil(trace, log, i + 1, j, s, t);
    assert ResumedAt(trace, log, j);
    SweepEnds(s, trace[j], log[i + 1..j], p);
    FilteredOnce(s, t, u);
  }

  /** A runnable fiber other than `t` is in `ran` once; `t` and the finished ones are not. */
  predicate OthersOnce(s: Fibers, ran: seq<nat>, t: nat, u: nat)
  {
    Count(ran, u, |ran|) == if Runnable(s.left, u) && u != t then 1 else 0
  }

  lemma LastToRun(trace: seq<Fibers>, log: seq<nat>, i: nat, j: nat)
    requires GreenRun(trace, log) && i < j < |log| && log[i] == log[j]
    requires forall x :: i < x < j ==> log[x] != log[i]
    ensures var s := trace[i + 1];
            |s.ring| > 0 && s.ring[|s.ring| - 1] == log[i] && Runnable(s.left, log[i])
  {
    RunProper(trace, log, i);
    assert ResumedAt(trace, log, i);
    JustRan(trace[i]);
    RunProper(trace, log, j);
    assert ResumedAt(trace, log, j);
    ResumeProper(trace[j]);
    LeftKept(trace, log, log[i], i + 1, j);
  }

  /** The last of the ring runs again once the others have been swept. */
  lemma SweepEnds(from: Fibers, s: Fibers, ran: seq<nat>, p: nat)
    requires Distinct(from.ring) && Swept(from, s, ran, p) && !Finished(s)
    requires Runnable(from.left, from.ring[|from.ring| - 1]) && Picked(s) == from.ring[|from.ring| - 1]
    ensures ran == Filter(from.left, from.ring, |from.ring| - 1)
  {
    SweepFinds(from, s, ran, p, Pick(s.left, s.ring, 0));
  }

  lemma FilteredOnce(s: Fibers, t: nat, u: nat)
    requires Proper(s) && |s.ring| > 0 && s.ring[|s.ring| - 1] == t
    ensures OthersOnce(s, Filter(s.left, s.ring, |s.ring| - 1), t, u)
  {
    var n := |s.ring| - 1;
    FilterOnce(s.left, s.ring, n, u);
    if u in s.ring { assert s.ring[IndexOf(s.ring, u)] == u; }
  }

  // --- why it ends ---------------------------------------------------------

  /** Resumptions still to come for the first `n` fibers of `all`. */
  function Remaining(left: map<nat, int>, all: seq<nat>, n: nat): nat
    requires n <= |all|
  {
    if n == 0 then 0 else Remaining(left, all, n - 1) + if Runnable(left, all[n - 1]) then left[all[n - 1]] + 1 else 0
  }

  lemma {:induction false} RemainingSame(left: map<nat, int>, left': map<nat, int>, all: seq<nat>, n: nat)
    requires n <= |all| && forall x :: 0 <= x < n ==> all[x] in left && all[x] in left' && left[all[x]] == left'[all[x]]
    ensures Remaining(left, all, n) == Remaining(left', all, n)
  {
    if n > 0 { RemainingSame(left, left', all, n - 1); }
  }

  lemma {:induction false} RemainingDrops(left: map<nat, int>, all: seq<nat>, i: nat, n: nat)
    requires i < n <= |all| && Distinct(all) && Runnable(left, all[i]) && forall x :: 0 <= x < n ==> all[x] in left
    ensures Remaining(left[all[i] := left[all[i]] - 1], all, n) == Remaining(left, all, n) - 1
  {
    var left' := left[all[i] := left[all[i]] - 1];
    if i < n - 1 {
      RemainingDrops(left, all, i, n - 1);
    } else {
      RemainingSame(left, left', all, n - 1);
    }
  }

  /** Every resumption brings the end one nearer. */
  lemma ResumeDrops(s: Fibers, all: seq<nat>)
    requires !Finished(s) && Distinct(all) && forall t :: t in all <==> t in s.left
    ensures Remaining(Resume(s).left, all, |all|) == Remaining(s.left, all, |all|) - 1
  {
    DropOf(s.left, all, Picked(s));
  }

  lemma DropOf(left: map<nat, int>, all: seq<nat>, t: nat)
    requires Distinct(all) && Runnable(left, t) && forall x :: x in all <==> x in left
    ensures Remaining(left[t := left[t] - 1], all, |all|) == Remaining(left, all, |all|) - 1
  {
    RemainingDrops(left, all, IndexOf(all, t), |all|);
  }
}
