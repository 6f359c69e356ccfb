/**
 The scheduler and the thread operations as the kernel carries them out, field by field.
 */
module ThreadOps {
  import opened Lists
  import opened Bits
  import opened Threads
  import opened Scheduler

  class System {
    var threads: seq<Thread>
    var ready: seq<seq<int>> // rt_thread_priority_table
    var group: nat           // rt_thread_ready_priority_group
    var waits: seq<seq<int>> // the wait lists of the kernel objects
    var cur: int             // rt_current_thread
    var locks: int           // rt_scheduler_lock_nest

    ghost function Abs(): Kernel
      reads this
    {
      Kernel(threads, ready, group, waits, cur, locks)
    }

    ghost predicate Valid()
      reads this
    {
      Abs().Ok()
    }

    /** rt_system_scheduler_init, rt_thread_init of each thread, and the first thread running. */
    constructor (first: int, prios: seq<int>, slices: seq<int>, objects: nat)
      requires 0 <= first < |prios| == |slices|
      requires forall t :: 0 <= t < |prios| ==> 0 <= prios[t] < PRIORITIES && 0 <= slices[t] < TICKS
      ensures Valid() && cur == first && locks == 0 && |threads| == |prios| && |waits| == objects
      ensures forall p :: 0 <= p < PRIORITIES ==> ready[p] == []
      ensures forall t :: 0 <= t < |prios| ==> threads[t].initPrio == threads[t].prio == prios[t] && threads[t].slice == slices[t]
      ensures forall t :: 0 <= t < |prios| ==> threads[t].stat == if t == first then Running else Init
    {
      threads := seq(|prios|, t requires 0 <= t < |prios| =>
        Thread(if t == first then Running else Init, false, prios[t], prios[t], if t == first then Mask(prios[t]) else 0,
               slices[t], slices[t], EOK, false, -1));
      ready := seq(PRIORITIES, _ => []);
      group := 0;
      waits := seq(objects, _ => []);
      cur := first;
      locks := 0;
      new;
      forall p: nat
        ensures !Bit(0, p)
      {
        BitZero(p);
      }
    }

    /** rt_list_remove on the list node of a thread. */
    method Unlink(t: int)
      requires Valid() && 0 <= t < |threads|
      modifies this`threads, this`ready, this`waits
      ensures threads == old(threads)[t := old(threads)[t].(at := -1)]
      ensures var o := old(threads)[t];
              && (if o.stat == Ready then
                    0 <= o.prio < |old(ready)| && ready == old(ready)[o.prio := Del(old(ready)[o.prio], t)]
                  else ready == old(ready))
              && (if o.at != -1 then
                    0 <= o.at < |old(waits)| && waits == old(waits)[o.at := Del(old(waits)[o.at], t)]
                  else waits == old(waits))
    {
      var th := threads[t];
      assert th.Sane();
      if th.stat == Ready {
        ready := ready[th.prio := Del(ready[th.prio], t)];
      }
      if th.at != -1 {
        waits := waits[th.at := Del(waits[th.at], t)];
      }
      threads := threads[t := th.(at := -1)];
    }

    /** rt_schedule_remove_thread, after which the thread gets the record `th`. */
    method RemoveThread(t: int, th: Thread)
      requires Valid() && 0 <= t < |threads| && threads[t].stat != Init
      requires th.stat != Ready && th.at == -1 && th.Sane() && OneRunning(threads[t := th], cur)
      modifies this`threads, this`ready, this`group, this`waits
      ensures old(Valid()) && Abs() == Off(old(Abs()), t, th)
    {
      hide GroupOk, RowOk, WaitOk;
      var o := threads[t];
      assert o.Sane();
      GroupSame(group, ready, o.prio);
      Unlink(t);
      if ready[o.prio] == [] {
        group := AndNot(group, o.mask);
      }
      threads := threads[t := th];
    }

    /** The part of rt_schedule_insert_thread for a thread that is not the current one: it becomes ready, on its list and in the bitmap. */
    method Enqueue(t: int)
      requires Valid() && 0 <= t < |threads| && t != cur && threads[t].stat == Suspend && threads[t].at == -1 && !threads[t].armed
      modifies this`threads, this`ready, this`group
      ensures old(Valid()) && old(threads)[t].(stat := Ready).Sane()
      ensures Valid() && Abs() == On(old(Abs()), t, old(threads)[t].(stat := Ready))
    {
      hide RowOk, WaitOk, WaitsOk, GroupOk, Or;
      ghost var k := Abs();
      var th := threads[t];
      assert th.Sane();
      threads := threads[t := th.(stat := Ready)];
      assert On(k, t, th.(stat := Ready)).Ok();
      ready := ready[th.prio := ready[th.prio] + [t]];
      group := Or(group, th.mask);
    }

    /** rt_schedule_insert_thread */
    method InsertThread(t: int)
      requires Valid() && 0 <= t < |threads|
      requires threads[t].stat == Suspend && threads[t].at == -1 && !threads[t].armed
      modifies this`threads, this`ready, this`group
      ensures old(Valid()) && Abs() == Woken(old(Abs()), t)
    {
      hide RowOk, WaitOk;
      assert threads[t].Sane();
      if t == cur {
        threads := threads[t := threads[t].(stat := Running)];
      } else {
        Enqueue(t);
      }
    }

    /** rt_schedule */
    method Schedule()
      requires Valid()
      modifies this`threads, this`ready, this`group, this`cur
      ensures old(Valid()) && Abs() == Scheduled(old(Abs()))
    {
      hide RowOk, WaitOk, WaitsOk, GroupOk, GroupWithout;
      if locks == 0 && group != 0 {
        FirstReady(Abs());
        var highest := Ffs(group) - 1;
        var to := ready[highest][0];
        var c := threads[cur];
        assert c.Sane() && to != cur;
        var insertFrom := false;
        if c.stat == Running {
          if c.prio < highest || (c.prio == highest && !c.yielding) {
            to := cur;
          } else {
            insertFrom := true;
          }
          SetOk(Abs(), cur, c.(yielding := false));
          threads := threads[cur := c.(yielding := false)];
        }
        if to != cur {
          SwitchTo(to, insertFrom);
        }
      }
    }

    /** The rest of rt_schedule, once the thread to run next is chosen. */
    method SwitchTo(to: int, insertFrom: bool)
      requires Valid() && 0 <= to < |threads| && threads[to].stat == Ready && insertFrom == (threads[cur].stat == Running)
      modifies this`threads, this`ready, this`group, this`cur
      ensures old(Valid()) && Abs() == Switched(old(Abs()), to)
    {
      hide RowOk, WaitOk, WaitsOk, GroupOk, Or;
      ghost var k := Abs();
      var from := cur;
      assert threads[from].Sane() && threads[to].Sane();
      cur := to;
      if insertFrom {
        var f := threads[from];
        threads := threads[from := f.(stat := Ready, yielding := false)];
        ready := ready[f.prio := ready[f.prio] + [from]];
        group := Or(group, f.mask);
      }
      var g := threads[to];
      ready := ready[g.prio := Del(ready[g.prio], to)];
      if ready[g.prio] == [] {
        group := AndNot(group, g.mask);
      }
      threads := threads[to := g.(stat := Running)];
    }

    /** rt_thread_suspend */
    method SuspendThread(t: int) returns (ok: bool)
      requires Valid() && 0 <= t < |threads|
      modifies this`threads, this`ready, this`group, this`waits
      ensures old(Valid()) && Abs() == Suspended(old(Abs()), t)
      ensures ok == Active(old(threads)[t])
    {
      var th := threads[t];
      assert th.Sane();
      ok := th.stat == Ready || th.stat == Running;
      if ok {
        RemoveThread(t, th.(stat := Suspend, armed := false));
      }
    }

    /** The first section of rt_thread_resume. */
    method Detach(t: int) returns (ok: bool)
      requires Valid() && 0 <= t < |threads|
      modifies this`threads, this`ready, this`waits
      ensures old(Valid()) && Abs() == Detached(old(Abs()), t)
      ensures ok == (old(threads)[t].stat == Suspend)
    {
      hide RowOk, WaitOk, WaitsOk, GroupOk, ReadyOk, GroupWithout;
      var th := threads[t];
      assert th.Sane();
      ok := th.stat == Suspend;
      if ok {
        Unlink(t);
        threads := threads[t := threads[t].(armed := false)];
      }
    }

    /** rt_thread_resume */
    method ResumeThread(t: int) returns (ok: bool)
      requires Valid() && 0 <= t < |threads|
      modifies this`threads, this`ready, this`group, this`waits
      ensures old(Valid()) && Abs() == Resumed(old(Abs()), t)
      ensures ok == (old(threads)[t].stat == Suspend)
    {
      hide Kernel.Ok;
      ok := Detach(t);
      if ok {
        InsertThread(t);
      }
    }

    /** rt_thread_timeout, the timer of the thread having fired. */
    method Timeout(t: int)
      requires Valid() && 0 <= t < |threads| && threads[t].armed
      modifies this`threads, this`ready, this`group, this`waits, this`cur
      ensures old(Valid()) && Abs() == TimedOut(old(Abs()), t)
    {
      hide RowOk, WaitOk, WaitsOk, GroupOk, ReadyOk, GroupWithout;
      var th := threads[t];
      assert th.Sane();
      ghost var k1 := Off(Abs(), t, th.(armed := false, error := -ETIMEOUT, at := -1));
      Unlink(t);
      threads := threads[t := threads[t].(armed := false, error := -ETIMEOUT)];
      assert Abs() == k1;
      InsertThread(t);
      Schedule();
    }

    /** Starting the timer of a suspended thread. */
    method ArmTimer(t: int)
      requires Valid() && 0 <= t < |threads| && threads[t].stat == Suspend
      modifies this`threads
      ensures old(Valid()) && Abs() == Armed(old(Abs()), t)
    {
      threads := threads[t := threads[t].(armed := true)];
    }

    /** rt_thread_sleep up to the switch. */
    method Sleep()
      requires Valid() && threads[cur].stat == Running
      modifies this`threads, this`ready, this`group, this`waits
      ensures old(Valid()) && Abs() == Slept(old(Abs()))
    {
      hide RowOk, WaitOk, WaitsOk, GroupOk, ReadyOk;
      var _ := SuspendThread(cur);
      ArmTimer(cur);
    }

    /** rt_thread_control with RT_THREAD_CTRL_CHANGE_PRIORITY */
    method ChangePriority(t: int, prio: int)
      requires Valid() && 0 <= t < |threads| && 0 <= prio < PRIORITIES
      modifies this`threads, this`ready, this`group, this`waits
      ensures old(Valid()) && Abs() == Reprioritized(old(Abs()), t, prio)
    {
      hide RowOk, WaitOk, WaitsOk, GroupOk;
      var th := threads[t];
      assert th.Sane();
      if th.stat == Ready {
        RemoveThread(t, th.(stat := Suspend));
        SetOk(Abs(), t, th.(stat := Suspend, prio := prio, mask := Mask(prio)));
        threads := threads[t := th.(stat := Suspend, prio := prio, mask := Mask(prio))];
        Enqueue(t);
      } else {
        threads := threads[t := th.(prio := prio, mask := Mask(prio))];
      }
    }

    /** rt_thread_startup */
    method Startup(t: int)
      requires Valid() && 0 <= t < |threads| && threads[t].stat == Init
      modifies this`threads, this`ready, this`group, this`waits, this`cur
      ensures old(Valid()) && Abs() == StartedUp(old(Abs()), t)
    {
      hide RowOk, WaitOk, WaitsOk, GroupOk, ReadyOk;
      var th := threads[t];
      assert th.Sane();
      var th1 := th.(prio := th.initPrio, mask := Mask(th.initPrio), stat := Suspend);
      ghost var k1 := Off(Abs(), t, th1);
      threads := threads[t := th1];
      assert Abs() == k1;
      ResumedIsWoken(k1, t);
      var _ := ResumeThread(t);
      Schedule();
    }

    /** rt_thread_exit */
    method Exit()
      requires Valid() && threads[cur].stat == Running
      modifies this`threads, this`ready, this`group, this`waits, this`cur
      ensures old(Valid()) && Abs() == Exited(old(Abs()))
    {
      var th := threads[cur];
      assert th.Sane();
      RemoveThread(cur, th.(stat := Close, armed := false));
      Schedule();
    }

    /** rt_thread_yield */
    method YieldThread()
      requires Valid()
      modifies this`threads, this`ready, this`group, this`cur
      ensures old(Valid()) && Abs() == Yielded(old(Abs()))
    {
      hide RowOk, WaitOk, WaitsOk, GroupOk, ReadyOk;
      var th := threads[cur];
      assert th.Sane();
      SetOk(Abs(), cur, th.(left := th.slice, yielding := true));
      threads := threads[cur := th.(left := th.slice, yielding := true)];
      Schedule();
    }

    /** The thread part of rt_tick_increase. */
    method TickIncrease()
      requires Valid()
      modifies this`threads, this`ready, this`group, this`cur
      ensures old(Valid()) && Abs() == Ticked(old(Abs()))
    {
      hide RowOk, WaitOk, WaitsOk, GroupOk, ReadyOk;
      var th := threads[cur];
      assert th.Sane();
      ghost var k := Abs();
      threads := threads[cur := th.(left := (th.left - 1) % TICKS)];
      if threads[cur].left == 0 {
        SetOk(k, cur, th.(left := th.slice, yielding := true));
        threads := threads[cur := threads[cur].(left := th.slice, yielding := true)];
        assert threads == k.threads[cur := th.(left := th.slice, yielding := true)];
        Schedule();
      }
    }

    /** rt_enter_critical */
    method EnterCritical()
      requires Valid()
      modifies this`locks
      ensures old(Valid()) && Abs() == Entered(old(Abs()))
    {
      locks := locks + 1;
    }

    /** rt_exit_critical */
    method ExitCritical()
      requires Valid()
      modifies this`locks, this`threads, this`ready, this`group, this`cur
      ensures old(Valid()) && Abs() == Left(old(Abs()))
    {
      hide RowOk, WaitOk, WaitsOk, GroupOk, ReadyOk;
      locks := locks - 1;
      if locks <= 0 {
        locks := 0;
        Schedule();
      }
    }

    /** rt_ipc_list_suspend of the current thread. */
    method WaitOn(w: int, byPrio: bool)
      requires Valid() && 0 <= w < |waits| && threads[cur].stat == Running
      modifies this`threads, this`ready, this`group, this`waits
      ensures old(Valid()) && Abs() == Waiting(old(Abs()), w, byPrio)
    {
      hide RowOk, WaitOk, WaitsOk, GroupOk, ReadyOk, Inserted;
      ghost var k := Abs();
      WaitersThere(k, w);
      var _ := SuspendThread(cur);
      ghost var k1 := Suspended(k, k.cur);
      var t, row := cur, waits[w];
      var i := |row|;
      if byPrio {
        i := 0;
        while i < |row| && !(threads[t].prio < threads[row[i]].prio)
          invariant 0 <= i <= |row|
          invariant WaitPlace(k.threads, row, k.threads[t].prio) == i + WaitPlace(k.threads, row[i..], k.threads[t].prio)
        {
          assert row[i..][1..] == row[i + 1..];
          i := i + 1;
        }
      }
      waits := waits[w := Inserted(row, i, t)];
      threads := threads[t := threads[t].(at := w)];
    }

    /** rt_ipc_list_resume: the first waiting thread. */
    method ResumeFirst(w: int) returns (t: int)
      requires Valid() && 0 <= w < |waits| && waits[w] != []
      modifies this`threads, this`ready, this`group, this`waits
      ensures old(Valid()) && t == old(waits)[w][0] && 0 <= t < |old(threads)|
      ensures Abs() == Resumed(old(Abs()), t)
    {
      WaitersThere(Abs(), w);
      t := waits[w][0];
      var _ := ResumeThread(t);
    }

    /** What every blocking call does when it has to wait, up to and including the switch. */
    method Block(w: int, byPrio: bool, timeout: int)
      requires Valid() && 0 <= w < |waits| && threads[cur].stat == Running
      modifies this`threads, this`ready, this`group, this`waits, this`cur
      ensures old(Valid()) && Abs() == Scheduled(Blocked(old(Abs()), w, byPrio, timeout))
    {
      hide Kernel.Ok, Inserted;
      ghost var k := Abs();
      CurSane(k);
      SetError(cur, EOK);
      WaitersThere(k, w);
      SamePlace(k.threads, threads, waits[w], threads[cur].prio);
      WaitOn(w, byPrio);
      if timeout > 0 {
        ArmTimer(cur);
      }
      Schedule();
    }

    /** The same for rt_mp_alloc, which lets the latest thread wait in front. */
    method BlockFront(w: int, timeout: int)
      requires Valid() && 0 <= w < |waits| && threads[cur].stat == Running
      modifies this`threads, this`ready, this`group, this`waits, this`cur
      ensures old(Valid()) && Abs() == Scheduled(BlockedAt(old(Abs()), w, 0, timeout))
    {
      hide Kernel.Ok, Inserted;
      ghost var k := Abs();
      CurSane(k);
      SetError(cur, EOK);
      WaitFront(w);
      if timeout > 0 {
        ArmTimer(cur);
      }
      Schedule();
    }

    method WaitFront(w: int)
      requires Valid() && 0 <= w < |waits| && threads[cur].stat == Running
      modifies this`threads, this`ready, this`group, this`waits
      ensures old(Valid()) && Abs() == WaitingAt(old(Abs()), w, 0)
    {
      hide RowOk, WaitOk, WaitsOk, GroupOk, ReadyOk, Inserted;
      var _ := SuspendThread(cur);
      waits := waits[w := Inserted(waits[w], 0, cur)];
      threads := threads[cur := threads[cur].(at := w)];
    }

    method SetError(t: int, error: int)
      requires Valid() && 0 <= t < |threads|
      modifies this`threads
      ensures old(Valid()) && Abs() == WithError(old(Abs()), t, error)
    {
      threads := threads[t := threads[t].(error := error)];
    }

    /** Wake the first thread of a wait list, if there is one, and reschedule. */
    method WakeFirst(w: int)
      requires Valid() && 0 <= w < |waits|
      modifies this`threads, this`ready, this`group, this`waits, this`cur
      ensures old(Valid()) && Abs() == FirstWoken(old(Abs()), w)
    {
      hide Kernel.Ok;
      if waits[w] != [] {
        var _ := ResumeFirst(w);
        Schedule();
      }
    }
  }
}
