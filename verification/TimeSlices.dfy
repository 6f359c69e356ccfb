/**
 Round robin in clock ticks, and what a critical section keeps from happening.
 */
module TimeSlices {
  import opened Lists
  import opened Bits
  import opened Threads
  import opened Scheduler

  function Ticking(n: nat): (es: seq<Event>)
    ensures |es| == n && forall i :: 0 <= i < n ==> es[i] == Tick
  {
    seq(n, _ => Tick)
  }

  lemma TickingOn(n: nat)
    requires n > 0
    ensures Ticking(n)[0] == Tick && Ticking(n)[1..] == Ticking(n - 1)
  {
  }

  /** One tick of a thread whose slice is not used up. */
  lemma OneTick(k: Kernel)
    requires Leading(k) && k.threads[k.cur].left > 0
    ensures var r, c := After(k, Tick), k.threads[k.cur];
            && Leading(r) && r.threads[r.cur].prio == c.prio && |r.threads| == |k.threads|
            && Circle(r) == (if c.left == 1 then Rotated(Circle(k)) else Circle(k))
            && r.threads[k.cur].left == (if c.left == 1 then c.slice else c.left - 1)
            && (forall t :: 0 <= t < |k.threads| ==> r.threads[t].slice == k.threads[t].slice)
            && (forall t :: 0 <= t < |k.threads| && t != k.cur ==> r.threads[t].left == k.threads[t].left)
  {
    CurSane(k);
    hide Kernel.Ok, Rotated, Scheduled, Yielded;
    TurnRotates(k, Tick);
    var r, c := After(k, Tick), k.threads[k.cur];
    forall t | 0 <= t < |k.threads|
      ensures Akin(k.threads[k.cur := c.(left := LeftAfter(c))][t], r.threads[t])
    {
    }
  }

  /**
   A slice of n ticks: the first n - 1 leave the thread running with what is left of it; the n-th,
   and none before, ends its turn and fills its slice again.  Nobody else's is touched.
   */
  lemma {:induction false} SliceLasts(k: Kernel, n: nat)
    requires Leading(k) && n <= k.threads[k.cur].left && k.threads[k.cur].left > 0
    ensures var r, c := AfterAll(k, Ticking(n)), k.threads[k.cur];
            && Leading(r) && r.threads[r.cur].prio == c.prio && |r.threads| == |k.threads|
            && Turns(k, Ticking(n)) == (if n == c.left then 1 else 0)
            && Circle(r) == (if n == c.left then Rotated(Circle(k)) else Circle(k))
            && r.threads[k.cur].left == (if n == c.left then c.slice else c.left - n)
            && (forall t :: 0 <= t < |k.threads| ==> r.threads[t].slice == k.threads[t].slice)
            && (forall t :: 0 <= t < |k.threads| && t != k.cur ==> r.threads[t].left == k.threads[t].left)
    decreases n
  {
    CurSane(k);
    hide Kernel.Ok, Rotated, After, Circle;
    if n > 0 {
      OneTick(k);
      TickingOn(n);
      if k.threads[k.cur].left > 1 {
        assert After(k, Tick).cur == k.cur by {
          assert Circle(After(k, Tick))[0] == Circle(k)[0];
        }
        SliceLasts(After(k, Tick), n - 1);
      }
    }
  }

  lemma {:induction false} AfterBoth(k: Kernel, es: seq<Event>, more: seq<Event>)
    requires k.Ok()
    ensures AfterAll(k, es + more) == AfterAll(AfterAll(k, es), more)
    ensures Turns(k, es + more) == Turns(k, es) + Turns(AfterAll(k, es), more)
    decreases |es|
  {
    hide Kernel.Ok, After, EndsTurn;
    if es == [] {
      assert es + more == more;
    } else {
      assert (es + more)[0] == es[0] && (es + more)[1..] == es[1..] + more;
      AfterBoth(After(k, es[0]), es[1..], more);
    }
  }

  /** The ticks that these threads have left together. */
  ghost function LeftSum(threads: seq<Thread>, c: seq<int>): (n: nat)
    requires forall i :: 0 <= i < |c| ==> 0 <= c[i] < |threads| && threads[c[i]].left >= 0
  {
    if c == [] then 0 else LeftSum(threads, c[..|c| - 1]) + threads[c[|c| - 1]].left
  }

  /** All threads of the circle have ticks left, and will when their slice is filled again. */
  ghost predicate Lively(k: Kernel) {
    && Leading(k) && forall i :: 0 <= i < |Circle(k)| ==>
         var t := Circle(k)[i]; k.Has(t) && 0 < k.threads[t].left && 0 < k.threads[t].slice
  }

  lemma CircleDistinct(k: Kernel)
    requires Leading(k)
    ensures Distinct(Circle(k))
  {
    assert RowOk(k.threads, k.ready[k.threads[k.cur].prio], k.threads[k.cur].prio);
  }

  /** The first `i` threads of the circle of `k` have had their turn. */
  ghost predicate HadTurns(k: Kernel, r: Kernel, i: int)
    requires Leading(k) && 0 <= i <= |Circle(k)|
  {
    var c := Circle(k);
    && Leading(r) && |r.threads| == |k.threads| && Circle(r) == c[i..] + c[..i]
    && r.threads[r.cur].prio == k.threads[k.cur].prio
    && (forall t :: 0 <= t < |k.threads| ==> r.threads[t].slice == k.threads[t].slice)
    && (forall t :: 0 <= t < |k.threads| ==> r.threads[t].left == if t in c[..i] then k.threads[t].slice else k.threads[t].left)
  }

  /** The next thread of the circle has its turn. */
  lemma OneMoreTurn(k: Kernel, r: Kernel, i: nat)
    requires Lively(k) && i < |Circle(k)| && HadTurns(k, r, i)
    ensures var t := Circle(k)[i];
            && k.Has(t) && 0 < k.threads[t].left
            && Turns(r, Ticking(k.threads[t].left)) == 1
            && HadTurns(k, AfterAll(r, Ticking(k.threads[t].left)), i + 1)
  {
    hide AfterAll, Turns, Circle, Distinct, Ticking, Rotated;
    var c := Circle(k);
    var t := c[i];
    assert r.cur == Circle(r)[0] == t;
    NotBefore(k, i);
    hide Kernel.Ok, Leading;
    SliceLasts(r, k.threads[t].left);
    assert c[..i + 1] == c[..i] + [t];
    RotateOn(c, i);
  }

  lemma RotateOn(c: seq<int>, i: nat)
    requires i < |c|
    ensures Rotated(c[i..] + c[..i]) == c[i + 1..] + c[..i + 1]
  {
    assert c[i..] == [c[i]] + c[i + 1..];
    assert c[..i + 1] == c[..i] + [c[i]];
    assert (c[i..] + c[..i])[1..] == c[i + 1..] + c[..i];
  }

  lemma NoTurnYet(k: Kernel)
    requires Leading(k)
    ensures LeftSum(k.threads, Circle(k)[..0]) == 0
    ensures Turns(k, Ticking(0)) == 0 && AfterAll(k, Ticking(0)) == k && HadTurns(k, k, 0)
  {
    hide Leading, Circle;
    var c := Circle(k);
    assert c[0..] + c[..0] == c;
  }

  lemma LeftSumOn(threads: seq<Thread>, c: seq<int>, i: nat)
    requires i < |c| && forall j :: 0 <= j < |c| ==> 0 <= c[j] < |threads| && threads[c[j]].left >= 0
    ensures LeftSum(threads, c[..i + 1]) == LeftSum(threads, c[..i]) + threads[c[i]].left
  {
    assert c[..i + 1][..i] == c[..i];
  }

  lemma TickingBoth(n: nat, m: nat)
    ensures Ticking(n + m) == Ticking(n) + Ticking(m)
  {
  }

  /**
   Round robin in ticks.  The first i threads of the circle have had their turn, one each and in
   their order, after exactly the ticks that they had left together.
   */
  lemma {:induction false} RoundInTicks(k: Kernel, i: nat)
    requires Lively(k) && i <= |Circle(k)|
    ensures var n := LeftSum(k.threads, Circle(k)[..i]);
            Turns(k, Ticking(n)) == i && HadTurns(k, AfterAll(k, Ticking(n)), i)
    decreases i
  {
    hide AfterAll, Turns, Circle, HadTurns, Ticking, LeftSum, Kernel.Ok;
    var c := Circle(k);
    if i > 0 {
      RoundInTicks(k, i - 1);
      LeftSumOn(k.threads, c, i - 1);
      var n, left := LeftSum(k.threads, c[..i - 1]), k.threads[c[i - 1]].left;
      OneMoreTurn(k, AfterAll(k, Ticking(n)), i - 1);
      TickingBoth(n, left);
      AfterBoth(k, Ticking(n), Ticking(left));
    } else {
      NoTurnYet(k);
    }
  }

  /** What these threads get in a round. */
  ghost function SliceSum(threads: seq<Thread>, c: seq<int>): (n: nat)
    requires forall i :: 0 <= i < |c| ==> 0 <= c[i] < |threads| && threads[c[i]].slice >= 0
  {
    if c == [] then 0 else SliceSum(threads, c[..|c| - 1]) + threads[c[|c| - 1]].slice
  }

  lemma {:induction false} FullSum(threads: seq<Thread>, c: seq<int>)
    requires c != [] && forall i :: 0 <= i < |c| ==> 0 <= c[i] < |threads| && threads[c[i]].left >= 0 && threads[c[i]].slice >= 0
    requires forall i :: 0 < i < |c| ==> threads[c[i]].left == threads[c[i]].slice
    ensures LeftSum(threads, c) == threads[c[0]].left + SliceSum(threads, c[1..])
  {
    var d := c[..|c| - 1];
    if d != [] {
      FullSum(threads, d);
      assert c[1..][..|c| - 2] == d[1..];
    } else {
      assert LeftSum(threads, d) == 0 == SliceSum(threads, c[1..]);
    }
  }

  /** How long a round takes: what the running thread has left and the slices of the others. */
  ghost function RoundLength(k: Kernel): (n: nat)
    requires Lively(k)
  {
    CurSane(k);
    hide Kernel.Ok, Circle;
    k.threads[k.cur].left + SliceSum(k.threads, Circle(k)[1..])
  }

  /** Each thread of the circle has a full slice, and nothing else has changed about anybody's. */
  ghost predicate Refilled(k: Kernel, r: Kernel)
    requires Leading(k)
  {
    && |r.threads| == |k.threads|
    && (forall t :: 0 <= t < |k.threads| ==> r.threads[t].slice == k.threads[t].slice)
    && (forall t :: 0 <= t < |k.threads| ==> r.threads[t].left == if t in Circle(k) then k.threads[t].slice else k.threads[t].left)
  }

  /** In a full round each of the threads runs once; then the order is as before, and every slice full again. */
  lemma FullRound(k: Kernel)
    requires Lively(k) && forall i :: 0 < i < |Circle(k)| ==> k.threads[Circle(k)[i]].left == k.threads[Circle(k)[i]].slice
    ensures var es := Ticking(RoundLength(k));
            && Turns(k, es) == |Circle(k)| && Lively(AfterAll(k, es))
            && Circle(AfterAll(k, es)) == Circle(k) && Refilled(k, AfterAll(k, es))
  {
    hide AfterAll, Turns, Circle, Ticking, SliceSum, LeftSum, Kernel.Ok, Leading;
    var c := Circle(k);
    RoundInTicks(k, |c|);
    assert c[..|c|] == c == c[|c|..] + c[..|c|];
    RoundSum(k);
    assert forall i :: 0 <= i < |c| ==> c[i] in c;
  }

  lemma RoundSum(k: Kernel)
    requires Lively(k) && forall i :: 0 < i < |Circle(k)| ==> k.threads[Circle(k)[i]].left == k.threads[Circle(k)[i]].slice
    ensures LeftSum(k.threads, Circle(k)) == RoundLength(k)
  {
    hide Circle, Kernel.Ok, Leading;
    FullSum(k.threads, Circle(k));
  }

  lemma NotBefore(k: Kernel, i: nat)
    requires Leading(k) && i < |Circle(k)|
    ensures Circle(k)[i] !in Circle(k)[..i]
  {
    hide Circle, Leading;
    CircleDistinct(k);
    var c := Circle(k);
    forall j | 0 <= j < i
      ensures c[j] != c[i]
    {
      DistinctAt(c, j, i);
    }
  }

  // ----- critical sections -----

  /** Only rt_enter_critical and rt_exit_critical count the lock, and while it is held nothing switches. */
  lemma LockedStep(k: Kernel, s: Step, idle: int)
    requires k.Ok() && Enabled(k, s, idle)
    ensures var r := Next(k, s, idle);
            && r.locks == (if s.Enters? then k.locks + 1 else if !s.Leaves? then k.locks else if k.locks <= 1 then 0 else k.locks - 1)
            && (k.locks != 0 && r.locks != 0 ==> r.cur == k.cur)
  {
    CurSane(k);
    hide Kernel.Ok, Scheduled, TimedOut, StartedUp, Exited, Yielded, Ticked, Left, SameBut, Mask,
      Suspended, Slept, Resumed, Detached, Woken, Waiting, Armed, Reprioritized;
  }

  /** Between rt_enter_critical and the last rt_exit_critical the same thread stays current. */
  lemma {:induction false} NoSwitchWhileLocked(ks: seq<Kernel>, steps: seq<Step>, idle: int, i: nat, j: nat)
    requires Run(ks, steps, idle) && i <= j <= |steps|
    requires forall n :: i <= n <= j ==> ks[n].locks > 0
    ensures ks[j].cur == ks[i].cur
    decreases j
  {
    hide Kernel.Ok, Next, Enabled, Scheduled, Outranked;
    if i < j {
      NoSwitchWhileLocked(ks, steps, idle, i, j - 1);
      RunOk(ks, steps, idle, j - 1);
      assert StepAt(ks, steps, idle, j - 1);
      LockedStep(ks[j - 1], steps[j - 1], idle);
    }
  }
}
