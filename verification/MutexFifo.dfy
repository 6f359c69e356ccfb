/**
 A run in which a mutex with the FIFO flag goes to a thread while a more urgent one waits.
 */
module MutexFifo {
  import opened Lists
  import opened Bits
  import opened Threads
  import opened Scheduler
  import opened Mutexes

  /** Thread 0, whose own priority is 20, runs and owns the mutex, for which the threads of `row` wait; no thread is ready. */
  ghost predicate Holding(s: Sys, row: seq<int>) {
    && Good(s) && s.k.cur == 0 && s.k.locks == 0 && s.k.threads[0].stat == Running
    && (forall u :: 0 <= u < |s.k.threads| ==> s.k.threads[u].stat != Ready)
    && s.mutexes == [Mutex(0, 0, 1, 20, false)] && |s.k.waits| == 1 && s.k.waits[0] == row && s.pending[0] == -1
  }

  /** The only ready thread runs next, unless the current one is as urgent. */
  lemma OnlyReady(k: Kernel, t: int)
    requires k.Ok() && k.locks == 0 && k.Has(t) && k.threads[t].stat == Ready
    requires forall u :: 0 <= u < |k.threads| && u != t ==> k.threads[u].stat != Ready
    requires k.threads[k.cur].stat == Running ==> k.threads[t].prio < k.threads[k.cur].prio
    ensures Scheduled(k).cur == t && Scheduled(k).threads[t].stat == Running
  {
    assert Outranked(k, k.threads[t].prio + 1, true);
    IdleThere(k, t);
    ScheduledRuns(k);
    hide Kernel.Ok, Scheduled;
    if k.threads[k.cur].stat == Running {
      assert Outranked(k, k.threads[k.cur].prio, !k.threads[k.cur].yielding);
    }
  }

  /** Thread `t` starts, preempts the owner and runs. */
  lemma Starting(s: Sys, row: seq<int>, t: int) returns (a: Sys)
    requires Holding(s, row) && 0 < t < |s.k.threads| && s.k.threads[t].stat == Init
    requires s.k.threads[t].initPrio < s.k.threads[0].prio
    ensures MayStep(s, Other(Starts(t)), -1) && a == MutexNext(s, Other(Starts(t)), -1)
    ensures Good(a) && a.k.cur == t && a.k.locks == 0 && a.k.threads[t].stat == Running && a.k.threads[0].stat == Ready
    ensures a.k.waits == s.k.waits && a.mutexes == s.mutexes && a.pending == s.pending && a.pending[t] == -1
    ensures var th := s.k.threads[t];
            && 0 <= th.initPrio < PRIORITIES
            && SameBut(s.k.threads[t := th.(stat := Ready, prio := th.initPrio, mask := Mask(th.initPrio))], a.k.threads)
    ensures forall u :: 0 < u < |s.k.threads| && u != t ==> a.k.threads[u].stat == s.k.threads[u].stat
  {
    a := MutexNext(s, Other(Starts(t)), -1);
    StepKeeps(s, Other(Starts(t)), -1);
    InitUninvolved(s, t);
    SaneAt(s.k, t);
    var th := s.k.threads[t];
    var th1 := th.(prio := th.initPrio, mask := Mask(th.initPrio), stat := Suspend);
    var k1 := Woken(Off(s.k, t, th1), t);
    assert a.k == Scheduled(k1);
    OnlyReady(k1, t);
    var before := s.k.threads[t := th.(stat := Ready, prio := th.initPrio, mask := Mask(th.initPrio))];
    hide Scheduled, StartedUp, Woken, Off, Mask, MutexOk, PendingOk, Restored;
    forall u | 0 <= u < |s.k.threads|
      ensures Akin(before[u], a.k.threads[u])
    {
    }
  }

  /** It wants the mutex, lends the owner its priority, and waits behind the others. */
  lemma Queueing(a: Sys, row: seq<int>, t: int) returns (b: Sys)
    requires Good(a) && a.k.cur == t && 0 < t < |a.k.threads| && a.k.threads[t].stat == Running && a.pending[t] == -1
    requires a.mutexes == [Mutex(0, 0, 1, 20, false)] && |a.k.waits| == 1 && a.k.waits[0] == row
    requires a.k.threads[t].prio < a.k.threads[0].prio
    ensures MayStep(a, Takes(0, -1), -1) && b == MutexNext(a, Takes(0, -1), -1)
    ensures Good(b) && b.k.cur == t && b.k.locks == a.k.locks && b.mutexes == a.mutexes && |b.k.waits| == 1
    ensures b.k.waits[0] == row + [t] && b.pending == a.pending[t := 0] && |b.k.threads| == |a.k.threads|
    ensures b.k.threads[0] == a.k.threads[0].(prio := a.k.threads[t].prio, mask := b.k.threads[0].mask)
    ensures b.k.threads[t].stat == Suspend && b.k.threads[t].prio == a.k.threads[t].prio
    ensures forall u :: 0 < u < |a.k.threads| && u != t ==> b.k.threads[u] == a.k.threads[u]
  {
    StepKeeps(a, Takes(0, -1), -1);
    b := MutexNext(a, Takes(0, -1), -1);
    assert MutexOk(a, 0);
    CurSane(a.k);
    hide Kernel.Ok, Mask, MutexOk, PendingOk, Restored;
    assert Inserted(row, |row|, t) == row + [t];
  }

  /** The owner runs again, now as urgent as the thread that waits. */
  lemma OwnerAgain(b: Sys, row: seq<int>, t: int) returns (c: Sys)
    requires Good(b) && b.k.cur == t && 0 < t < |b.k.threads| && b.k.locks == 0 && b.k.threads[t].stat == Suspend
    requires b.k.threads[0].stat == Ready && forall u :: 0 < u < |b.k.threads| ==> b.k.threads[u].stat != Ready
    requires b.mutexes == [Mutex(0, 0, 1, 20, false)] && |b.k.waits| == 1 && b.k.waits[0] == row && b.pending[0] == -1
    ensures MayStep(b, Other(Schedules), -1) && c == MutexNext(b, Other(Schedules), -1)
    ensures Holding(c, row) && SameBut(b.k.threads, c.k.threads) && c.pending == b.pending
    ensures forall u :: 0 < u < |b.k.threads| ==> c.k.threads[u].stat == b.k.threads[u].stat
  {
    c := MutexNext(b, Other(Schedules), -1);
    StepKeeps(b, Other(Schedules), -1);
    OnlyReady(b.k, 0);
    assert OneRunning(b.k.threads, b.k.cur) && OneRunning(c.k.threads, c.k.cur);
    hide Scheduled, Mask, MutexOk, PendingOk, Restored, ReadyOk, GroupOk, WaitsOk;
    forall u | 0 < u < |b.k.threads|
      ensures c.k.threads[u].stat == b.k.threads[u].stat
    {
      assert Akin(b.k.threads[u], c.k.threads[u]);
    }
  }

  /** A thread arrives: it starts, waits, and lends the owner its priority. */
  lemma Arriving(s: Sys, row: seq<int>, t: int) returns (a: Sys, b: Sys, c: Sys)
    requires Holding(s, row) && 0 < t < |s.k.threads| && s.k.threads[t].stat == Init
    requires s.k.threads[t].initPrio < s.k.threads[0].prio
    ensures Good(a) && Good(b)
    ensures MayStep(s, Other(Starts(t)), -1) && a == MutexNext(s, Other(Starts(t)), -1)
    ensures MayStep(a, Takes(0, -1), -1) && b == MutexNext(a, Takes(0, -1), -1)
    ensures MayStep(b, Other(Schedules), -1) && c == MutexNext(b, Other(Schedules), -1)
    ensures Holding(c, row + [t]) && |c.k.threads| == |s.k.threads|
    ensures c.k.threads[0].prio == c.k.threads[t].prio == s.k.threads[t].initPrio
    ensures forall u :: 0 < u < |s.k.threads| && u != t ==>
      var x, y := s.k.threads[u], c.k.threads[u]; y.stat == x.stat && y.prio == x.prio && y.initPrio == x.initPrio
  {
    hide MayStep, MutexNext, Kernel.Ok, Mask;
    a := Starting(s, row, t);
    b := Queueing(a, row, t);
    hide Good;
    c := OwnerAgain(b, row + [t], t);
  }

  /** Thread 0 runs, two others are initialised, and nobody has the mutex. */
  lemma FifoStart() returns (s: Sys)
    ensures AtRest(s) && s.mutexes == [Mutex(1, -1, 0, NO_PRIO, false)] && |s.k.waits| == 1 && s.k.waits[0] == []
    ensures s.k.cur == 0 && s.k.locks == 0 && |s.k.threads| == 3 && s.k.threads[0].stat == Running && s.k.threads[0].prio == 20
    ensures s.k.threads[1].stat == s.k.threads[2].stat == Init && s.k.threads[1].initPrio == 9 && s.k.threads[2].initPrio == 3
    ensures s.pending == [-1, -1, -1]
  {
    hide Kernel.Ok, Mask;
    var k := Resting([Thread(Running, false, 20, 20, Mask(20), 10, 10, EOK, false, -1),
                      Thread(Init, false, 9, 9, 0, 10, 10, EOK, false, -1),
                      Thread(Init, false, 3, 3, 0, 10, 10, EOK, false, -1)], []);
    RestingOk(k.threads, []);
    s := Sys(k, [Mutex(1, -1, 0, NO_PRIO, false)], [20, 9, 3], [-1, -1, -1]);
  }

  /** Thread 0 takes the mutex. */
  lemma FifoOwner(s: Sys) returns (r: Sys)
    requires Good(s) && s.mutexes == [Mutex(1, -1, 0, NO_PRIO, false)] && |s.k.waits| == 1 && s.k.waits[0] == []
    requires s.k.cur == 0 && s.k.locks == 0 && |s.k.threads| == 3 && s.k.threads[0].stat == Running && s.k.threads[0].prio == 20
    requires s.k.threads[1].stat == s.k.threads[2].stat == Init && s.pending == [-1, -1, -1]
    ensures MayStep(s, Takes(0, -1), -1) && r == MutexNext(s, Takes(0, -1), -1) && Holding(r, [])
    ensures r.k.threads == s.k.threads[0 := s.k.threads[0].(error := EOK)]
  {
    StepKeeps(s, Takes(0, -1), -1);
    r := MutexNext(s, Takes(0, -1), -1);
    hide Kernel.Ok, Mask, MutexOk, PendingOk, Restored;
  }

  /**
   First come first served: a run from rest to a state in which thread 0, releasing the mutex, makes
   thread 1 its owner, while thread 2, which is more urgent, goes on waiting.
   */
  lemma FifoInversion() returns (ss: seq<Sys>, steps: seq<MutexStep>)
    ensures MutexRun(ss, steps, -1) && |steps| == 7
    ensures var s := ss[7];
            && Good(s) && |s.mutexes| == 1 && !s.mutexes[0].byPrio && s.mutexes[0].owner == s.k.cur && s.mutexes[0].hold == 1
            && 0 <= s.mutexes[0].original < PRIORITIES && |s.k.threads| == 3
            && var r := ReleasedBy(s, 0);
            && r.mutexes[0].owner == 1 && r.k.waits[0] == [2] && r.k.threads[1].prio == 9 && r.k.threads[2].prio == 3
            && !Inherits(r.k.threads, 1, r.k.waits[0])
  {
    hide Kernel.Ok, Mask, MayStep, MutexNext;
    var s0 := FifoStart();
    RestIsGood(s0);
    hide Good;
    var s1 := FifoOwner(s0);
    var a1, b1, c1 := Arriving(s1, [], 1);
    var a2, b2, c2 := Arriving(c1, [1], 2);
    ss := [s0, s1, a1, b1, c1, a2, b2, c2];
    steps := [Takes(0, -1), Other(Starts(1)), Takes(0, -1), Other(Schedules), Other(Starts(2)), Takes(0, -1), Other(Schedules)];
    forall i | 0 <= i < |steps|
      ensures MutexStepAt(ss, steps, -1, i)
    {
    }
    assert [] + [1] == [1] && [1] + [2] == [1, 2];
    Inverted(c2);
  }

  lemma Inverted(s: Sys)
    requires Holding(s, [1, 2]) && |s.k.threads| == 3 && s.k.threads[1].prio == 9 && s.k.threads[2].prio == 3
    ensures Good(s)
    ensures var r := ReleasedBy(s, 0);
            && r.mutexes[0].owner == 1 && r.k.waits[0] == [2] && r.k.threads[1].prio == 9 && r.k.threads[2].prio == 3
            && !Inherits(r.k.threads, 1, r.k.waits[0])
  {
    hide Kernel.Ok, Reprioritized, Resumed, MutexOk, Restored, PendingOk;
    HandOffInherits(s, 0);
  }
}
