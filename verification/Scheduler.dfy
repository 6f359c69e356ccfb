/**
 The operations of the scheduler and of the thread state machine, each one interrupt-disabled section.
 */
module Scheduler {
  import opened Lists
  import opened Bits
  import opened Threads

  // ----- rt_schedule -----

  /** The current thread gives way to `to`; if it still runs, it goes to the end of its ready list first. */
  ghost function Switched(k: Kernel, to: int): (r: Kernel)
    requires k.Ok() && k.Has(to) && k.threads[to].stat == Ready
    ensures r.Ok() && r.cur == to && r.locks == k.locks && r.waits == k.waits
    ensures |r.threads| == |k.threads| && r.threads[to] == k.threads[to].(stat := Running)
    ensures var f := k.threads[k.cur];
            r.threads[k.cur] == if f.stat == Running then f.(stat := Ready, yielding := false) else f
    ensures forall t :: 0 <= t < |k.threads| && t != to && t != k.cur ==> r.threads[t] == k.threads[t]
  {
    SwitchedOk(k, to);
    var f, g := k.threads[k.cur], k.threads[to];
    var k1 := if f.stat != Running then k else
      k.(threads := k.threads[k.cur := f.(stat := Ready, yielding := false)],
         ready := k.ready[f.prio := k.ready[f.prio] + [k.cur]], group := Or(k.group, f.mask));
    var row := Del(k1.ready[g.prio], to);
    k1.(threads := k1.threads[to := g.(stat := Running)], cur := to,
        ready := k1.ready[g.prio := row], group := GroupWithout(k1.group, g.mask, row))
  }

  lemma SwitchedOk(k: Kernel, to: int)
    requires k.Ok() && k.Has(to) && k.threads[to].stat == Ready
    ensures var f, g := k.threads[k.cur], k.threads[to];
            0 <= f.prio < PRIORITIES && 0 <= g.prio < PRIORITIES &&
            var k1 := if f.stat != Running then k else
              k.(threads := k.threads[k.cur := f.(stat := Ready, yielding := false)],
                 ready := k.ready[f.prio := k.ready[f.prio] + [k.cur]], group := Or(k.group, f.mask));
            var row := Del(k1.ready[g.prio], to);
            k1.(threads := k1.threads[to := g.(stat := Running)], cur := to,
                ready := k1.ready[g.prio := row], group := GroupWithout(k1.group, g.mask, row)).Ok()
  {
    hide RowOk, WaitOk, Del, GroupWithout, Or;
    var f, g := k.threads[k.cur], k.threads[to];
    assert f.Sane() && g.Sane();
    var threads, ready, group := k.threads, k.ready, k.group;
    if f.stat == Running {
      var f' := f.(stat := Ready, yielding := false);
      JoinReady(threads, ready, k.cur, f');
      StayOff(threads, k.waits, k.cur, f');
      GroupGains(group, ready, f.prio, ready[f.prio] + [k.cur]);
      threads, ready, group := threads[k.cur := f'], ready[f.prio := ready[f.prio] + [k.cur]], Or(group, f.mask);
    }
    LeaveReady(threads, ready, to, g.(stat := Running));
    StayOff(threads, k.waits, to, g.(stat := Running));
    GroupLoses(group, ready, g.prio, Del(ready[g.prio], to));
  }

  /** rt_schedule with threads waiting to run: the first of the most urgent list, or the current one. */
  ghost function Scheduled(k: Kernel): (r: Kernel)
    requires k.Ok()
    ensures r.Ok() && SameBut(k.threads, r.threads) && r.locks == k.locks && r.waits == k.waits
    ensures k.locks != 0 ==> r == k
  {
    if k.locks != 0 || k.group == 0 then k else
    FirstReady(k);
    var p := Ffs(k.group) - 1;
    var c := k.threads[k.cur];
    if c.stat == Running && (c.prio < p || (c.prio == p && !c.yielding)) then
      GoesOnOk(k);
      k.(threads := k.threads[k.cur := c.(yielding := false)])
    else
      SwitchedSame(k, k.ready[p][0]);
      Switched(k, k.ready[p][0])
  }

  lemma GoesOnOk(k: Kernel)
    requires k.Ok()
    ensures var r := k.(threads := k.threads[k.cur := k.threads[k.cur].(yielding := false)]);
            r.Ok() && SameBut(k.threads, r.threads)
  {
    hide ReadyOk, WaitsOk, GroupOk;
    assert k.threads[k.cur].Sane();
    SetOk(k, k.cur, k.threads[k.cur].(yielding := false));
  }

  lemma SwitchedSame(k: Kernel, to: int)
    requires k.Ok() && k.Has(to) && k.threads[to].stat == Ready
    ensures SameBut(k.threads, Switched(k, to).threads)
  {
    hide ReadyOk, WaitsOk, GroupOk, GroupWithout;
    var r := Switched(k, to);
    hide Switched;
    forall t | 0 <= t < |k.threads|
      ensures Akin(k.threads[t], r.threads[t])
    {
      assert t != to && t != k.cur ==> r.threads[t] == k.threads[t];
    }
  }

  /** Changing a record without moving the thread. */
  lemma SetOk(k: Kernel, t: int, th: Thread)
    requires k.Ok() && k.Has(t) && th.Sane() && th.stat == k.threads[t].stat && th.at == k.threads[t].at
    requires th.stat == Ready ==> th.prio == k.threads[t].prio
    ensures k.(threads := k.threads[t := th]).Ok()
  {
    hide Distinct;
    StayOff(k.threads, k.waits, t, th);
    forall q | 0 <= q < PRIORITIES
      ensures RowOk(k.threads[t := th], k.ready[q], q)
    {
      assert RowOk(k.threads, k.ready[q], q);
    }
  }

  /** What __rt_ffs finds is the most urgent priority with a ready thread. */
  lemma FirstReady(k: Kernel)
    requires k.Ok() && k.group != 0
    ensures k.group < 0x1_0000_0000
    ensures var p := Ffs(k.group) - 1;
            && 0 <= p < PRIORITIES && k.ready[p] != []
            && k.Has(k.ready[p][0]) && k.threads[k.ready[p][0]].stat == Ready && k.threads[k.ready[p][0]].prio == p
            && forall t :: 0 <= t < |k.threads| && k.threads[t].stat == Ready ==> p <= k.threads[t].prio
  {
    hide Bit, Low;
    assert Mask(PRIORITIES) == 0x1_0000_0000 by {
      Mask32();
    }
    var p: nat := Ffs(k.group) - 1;
    LowIs(k.group);
    if p >= PRIORITIES {
      HighBits(k.group, PRIORITIES, p);
    }
    assert RowOk(k.threads, k.ready[p], p);
    assert k.ready[p][0] in k.ready[p];
    forall t | 0 <= t < |k.threads| && k.threads[t].stat == Ready
      ensures p <= k.threads[t].prio
    {
      assert t in k.ready[k.threads[t].prio];
      assert Bit(k.group, k.threads[t].prio);
    }
  }

  lemma Mask32()
    ensures Mask(32) == 0x1_0000_0000
  {
    assert Mask(8) == 2 * Mask(7) == 4 * Mask(6) == 8 * Mask(5) == 16 * Mask(4) == 256;
    assert Mask(16) == 2 * Mask(15) == 4 * Mask(14) == 8 * Mask(13) == 16 * Mask(12);
    assert Mask(12) == 2 * Mask(11) == 4 * Mask(10) == 8 * Mask(9) == 16 * Mask(8);
    assert Mask(24) == 2 * Mask(23) == 4 * Mask(22) == 8 * Mask(21) == 16 * Mask(20);
    assert Mask(20) == 2 * Mask(19) == 4 * Mask(18) == 8 * Mask(17) == 16 * Mask(16);
    assert Mask(32) == 2 * Mask(31) == 4 * Mask(30) == 8 * Mask(29) == 16 * Mask(28);
    assert Mask(28) == 2 * Mask(27) == 4 * Mask(26) == 8 * Mask(25) == 16 * Mask(24);
  }

  ghost predicate Outranked(k: Kernel, p: int, strictly: bool) {
    exists t :: 0 <= t < |k.threads| && k.threads[t].stat == Ready && (if strictly then k.threads[t].prio < p else k.threads[t].prio <= p)
  }

  /**
   After rt_schedule with the lock open, the current thread runs and no ready thread outranks it.
   A running thread is only replaced by one that outranks it, or, having asked to yield, by one of
   its own priority as well.
   */
  lemma ScheduledRuns(k: Kernel)
    requires k.Ok() && k.locks == 0 && (k.group != 0 || k.threads[k.cur].stat == Running)
    ensures var r, c := Scheduled(k), k.threads[k.cur];
            && r.threads[r.cur].stat == Running
            && !Outranked(r, r.threads[r.cur].prio, true)
            && (c.stat == Running ==> (r.cur != k.cur <==> Outranked(k, c.prio, !c.yielding)))
            && (c.stat == Running && k.group != 0 ==> !r.threads[k.cur].yielding)
            && (r.cur != k.cur ==> k.threads[r.cur].stat == Ready && r.threads[r.cur].prio == k.threads[r.cur].prio
                                   && k.ready[k.threads[r.cur].prio] != [] && k.ready[k.threads[r.cur].prio][0] == r.cur)
  {
    hide RowOk, WaitOk;
    if k.group != 0 {
      FirstReady(k);
      var p := Ffs(k.group) - 1;
      var to := k.ready[p][0];
      assert k.threads[to].stat == Ready && to != k.cur;
    } else {
      NoneReady(k);
    }
  }

  lemma NoneReady(k: Kernel)
    requires k.Ok() && k.group == 0
    ensures forall t :: 0 <= t < |k.threads| ==> k.threads[t].stat != Ready
  {
    forall t | 0 <= t < |k.threads| && k.threads[t].stat == Ready
      ensures false
    {
      var p: nat := k.threads[t].prio;
      assert t in k.ready[p];
      BitZero(p);
    }
  }

  /** A thread that is never suspended, such as the idle thread, always gives the scheduler something to run. */
  lemma IdleThere(k: Kernel, i: int)
    requires k.Ok() && k.Has(i) && (k.threads[i].stat == Ready || k.threads[i].stat == Running)
    ensures k.group != 0 || k.threads[k.cur].stat == Running
  {
    if k.group == 0 {
      NoneReady(k);
    }
  }

  // ----- suspending and resuming -----

  lemma CurSane(k: Kernel)
    requires k.Ok()
    ensures k.Has(k.cur) && k.threads[k.cur].Sane()
  {
  }

  lemma SaneAt(k: Kernel, t: int)
    requires k.Ok() && k.Has(t)
    ensures k.threads[t].Sane()
  {
  }

  /** rt_thread_suspend: refused unless the thread is ready or running; its timer is stopped. */
  ghost function Suspended(k: Kernel, t: int): (r: Kernel)
    requires k.Ok() && k.Has(t)
    ensures r.Ok() && r.cur == k.cur && r.locks == k.locks && r.waits == k.waits
    ensures !Active(k.threads[t]) ==> r == k
    ensures Active(k.threads[t]) ==> r.threads == k.threads[t := k.threads[t].(stat := Suspend, armed := false)]
  {
    var th := k.threads[t];
    assert th.Sane();
    if th.stat != Ready && th.stat != Running then k else
    Off(k, t, th.(stat := Suspend, armed := false))
  }

  /** rt_schedule_insert_thread: the current thread just goes on running. */
  ghost function Woken(k: Kernel, t: int): (r: Kernel)
    requires k.Ok() && k.Has(t) && k.threads[t].stat == Suspend && k.threads[t].at == -1 && !k.threads[t].armed
    ensures r.Ok() && r.cur == k.cur && r.locks == k.locks && r.waits == k.waits
    ensures r.threads == k.threads[t := k.threads[t].(stat := if t == k.cur then Running else Ready)]
  {
    var th := k.threads[t];
    assert th.Sane();
    if t == k.cur then
      WokenSelfOk(k);
      k.(threads := k.threads[t := th.(stat := Running)])
    else On(k, t, th.(stat := Ready))
  }

  lemma WokenSelfOk(k: Kernel)
    requires k.Ok() && k.threads[k.cur].stat == Suspend && k.threads[k.cur].at == -1 && !k.threads[k.cur].armed
    ensures k.(threads := k.threads[k.cur := k.threads[k.cur].(stat := Running)]).Ok()
  {
    hide RowOk, WaitOk;
    var th := k.threads[k.cur].(stat := Running);
    assert k.threads[k.cur].Sane();
    StayUnready(k.threads, k.ready, k.cur, th);
    StayOff(k.threads, k.waits, k.cur, th);
  }

  /** The first section of rt_thread_resume: a suspended thread leaves its wait list and its timer is stopped. */
  ghost function Detached(k: Kernel, t: int): (r: Kernel)
    requires k.Ok() && k.Has(t)
    ensures r.Ok() && r.cur == k.cur && r.locks == k.locks && |r.waits| == |k.waits|
    ensures k.threads[t].stat != Suspend ==> r == k
    ensures k.threads[t].stat == Suspend ==> r.threads == k.threads[t := k.threads[t].(armed := false, at := -1)]
    ensures var w := k.threads[t].at;
            r.waits == if k.threads[t].stat == Suspend && 0 <= w < |k.waits| then k.waits[w := Del(k.waits[w], t)] else k.waits
  {
    var th := k.threads[t];
    assert th.Sane();
    if th.stat != Suspend then k else Off(k, t, th.(armed := false, at := -1))
  }

  /** rt_thread_resume with interrupts disabled: refused unless the thread is suspended. */
  ghost function Resumed(k: Kernel, t: int): (r: Kernel)
    requires k.Ok() && k.Has(t)
    ensures r.Ok() && |r.threads| == |k.threads| && |r.waits| == |k.waits| && r.cur == k.cur && r.locks == k.locks
    ensures forall u :: 0 <= u < |k.threads| && u != t ==> r.threads[u] == k.threads[u]
    ensures k.threads[t].stat != Suspend ==> r == k
    ensures var w := k.threads[t].at;
            r.waits == if k.threads[t].stat == Suspend && 0 <= w < |k.waits| then k.waits[w := Del(k.waits[w], t)] else k.waits
    ensures k.threads[t].stat == Suspend ==>
      r.threads[t] == k.threads[t].(stat := if t == k.cur then Running else Ready, armed := false, at := -1)
  {
    var th := k.threads[t];
    assert th.Sane();
    if th.stat != Suspend then k else
    Woken(Detached(k, t), t)
  }

  /** What rt_schedule_insert_thread does to another thread than the current one, whatever state that is in. */
  ghost function Enqueued(k: Kernel, t: int): Kernel
    requires k.Ok() && k.Has(t)
  {
    var th := k.threads[t];
    SaneAt(k, t);
    k.(threads := k.threads[t := th.(stat := Ready)], ready := k.ready[th.prio := k.ready[th.prio] + [t]], group := Or(k.group, th.mask))
  }

  /**
   Between its two sections rt_thread_resume may be interrupted.  The second is then right exactly if
   it finds the thread suspended, on no wait list and without a timer, whatever has happened to it
   meanwhile.  If it was resumed and is ready, it is put on its ready list a second time; if it was
   resumed, ran and waits again, it is on a ready list and on a wait list, or has a timer running.
   */
  lemma ResumedInTheGap(k: Kernel, t: int)
    requires k.Ok() && k.Has(t) && t != k.cur && !Gone(k.threads[t])
    ensures Enqueued(k, t).Ok() <==> k.threads[t].stat == Suspend && k.threads[t].at == -1 && !k.threads[t].armed
    ensures Enqueued(k, t).Ok() ==> Enqueued(k, t) == Woken(k, t)
  {
    hide WaitsOk, GroupOk, Or;
    var th := k.threads[t];
    SaneAt(k, t);
    if th.stat == Suspend && th.at == -1 && !th.armed {
      assert Enqueued(k, t) == Woken(k, t);
    } else if th.stat == Suspend {
      assert !Enqueued(k, t).threads[t].Sane();
    } else {
      var row := k.ready[th.prio];
      var i :| 0 <= i < |row| && row[i] == t;
      var r := Enqueued(k, t);
      assert r.ready[th.prio][i] == r.ready[th.prio][|row|] == t;
      assert !RowOk(r.threads, r.ready[th.prio], th.prio);
    }
  }

  lemma ResumedIsWoken(k: Kernel, t: int)
    requires k.Ok() && k.Has(t) && k.threads[t].stat == Suspend && k.threads[t].at == -1 && !k.threads[t].armed
    ensures Resumed(k, t) == Woken(k, t)
  {
    hide RowOk, WaitOk, WaitsOk, GroupOk, ReadyOk;
    assert k.threads[t := k.threads[t]] == k.threads;
  }

  /** Starting the timer of a suspended thread. */
  ghost function Armed(k: Kernel, t: int): (r: Kernel)
    requires k.Ok() && k.Has(t) && k.threads[t].stat == Suspend
    ensures r.Ok() && r.threads == k.threads[t := k.threads[t].(armed := true)]
    ensures r.ready == k.ready && r.waits == k.waits && r.cur == k.cur && r.locks == k.locks
  {
    assert k.threads[t].Sane();
    SetOk(k, t, k.threads[t].(armed := true));
    k.(threads := k.threads[t := k.threads[t].(armed := true)])
  }

  lemma AllAkin(a: seq<Thread>)
    ensures SameBut(a, a)
  {
  }

  lemma AkinUpTo(a: seq<Thread>, b: seq<Thread>, c: seq<Thread>, t: int)
    requires SameBut(a, c) && |a| == |b| && 0 <= t < |a|
    requires a == b[t := a[t]] && Akin(b[t], a[t])
    ensures SameBut(b, c)
  {
    forall u | 0 <= u < |a|
      ensures Akin(b[u], c[u])
    {
      assert Akin(a[u], c[u]);
    }
  }

  /**
   rt_thread_timeout, called when the timer of the thread fires, which is then off.  It asserts that
   the thread is suspended: an armed timer implies it.
   */
  ghost function TimedOut(k: Kernel, t: int): (r: Kernel)
    requires k.Ok() && k.Has(t) && k.threads[t].armed
    ensures r.Ok() && |r.waits| == |k.waits| && r.locks == k.locks && (k.locks != 0 ==> r.cur == k.cur)
    ensures var th := k.threads[t];
            SameBut(k.threads[t := th.(stat := Ready, armed := false, error := -ETIMEOUT, at := -1)], r.threads)
    ensures var w := k.threads[t].at;
            r.waits == if 0 <= w < |k.waits| then k.waits[w := Del(k.waits[w], t)] else k.waits
  {
    var th := k.threads[t];
    assert th.Sane() && th.stat == Suspend;
    var k1 := Woken(Off(k, t, th.(armed := false, error := -ETIMEOUT, at := -1)), t);
    AkinUpTo(k1.threads, k.threads[t := th.(stat := Ready, armed := false, error := -ETIMEOUT, at := -1)], Scheduled(k1).threads, t);
    Scheduled(k1)
  }

  /** rt_thread_sleep up to the switch. */
  ghost function Slept(k: Kernel): (r: Kernel)
    requires k.Ok() && k.threads[k.cur].stat == Running
    ensures r.Ok() && r.locks == k.locks && r.waits == k.waits
    ensures r.threads == k.threads[k.cur := k.threads[k.cur].(stat := Suspend, armed := true)]
  {
    Armed(Suspended(k, k.cur), k.cur)
  }

  // ----- priorities, start and end -----

  /** rt_thread_control with a new priority: a ready thread moves to the end of its new list. */
  ghost function Reprioritized(k: Kernel, t: int, prio: int): (r: Kernel)
    requires k.Ok() && k.Has(t) && 0 <= prio < PRIORITIES
    ensures r.Ok() && r.waits == k.waits && r.cur == k.cur && r.locks == k.locks
    ensures r.threads == k.threads[t := k.threads[t].(prio := prio, mask := Mask(prio))]
  {
    var th := k.threads[t];
    assert th.Sane();
    if th.stat == Ready then
      assert t != k.cur;
      var k1 := Off(k, t, th.(stat := Suspend));
      On(k1, t, th.(prio := prio, mask := Mask(prio)))
    else
      SetOk(k, t, th.(prio := prio, mask := Mask(prio)));
      k.(threads := k.threads[t := th.(prio := prio, mask := Mask(prio))])
  }

  /** rt_thread_startup of a thread that is initialised and not started. */
  ghost function StartedUp(k: Kernel, t: int): (r: Kernel)
    requires k.Ok() && k.Has(t) && k.threads[t].stat == Init
    ensures r.Ok() && r.locks == k.locks && r.waits == k.waits && (k.locks != 0 ==> r.cur == k.cur)
    ensures var th := k.threads[t];
            SameBut(k.threads[t := th.(stat := Ready, prio := th.initPrio, mask := Mask(th.initPrio))], r.threads)
  {
    var th := k.threads[t];
    assert th.Sane();
    var th1 := th.(prio := th.initPrio, mask := Mask(th.initPrio), stat := Suspend);
    Scheduled(Woken(Off(k, t, th1), t))
  }

  /** rt_thread_exit of the current thread. */
  ghost function Exited(k: Kernel): (r: Kernel)
    requires k.Ok() && k.threads[k.cur].stat == Running
    ensures r.Ok() && r.locks == k.locks && r.waits == k.waits && (k.locks != 0 ==> r.cur == k.cur)
    ensures SameBut(k.threads[k.cur := k.threads[k.cur].(stat := Close, armed := false)], r.threads)
  {
    var th := k.threads[k.cur];
    assert th.Sane();
    Scheduled(Off(k, k.cur, th.(stat := Close, armed := false)))
  }

  /** rt_thread_yield */
  ghost function Yielded(k: Kernel): (r: Kernel)
    requires k.Ok()
    ensures r.Ok() && r.locks == k.locks && r.waits == k.waits && (k.locks != 0 ==> r.cur == k.cur)
    ensures SameBut(k.threads[k.cur := k.threads[k.cur].(left := k.threads[k.cur].slice)], r.threads)
  {
    var th := k.threads[k.cur];
    assert th.Sane();
    var threads := k.threads[k.cur := th.(left := th.slice, yielding := true)];
    SetOk(k, k.cur, threads[k.cur]);
    AkinUpTo(threads, k.threads[k.cur := th.(left := th.slice)], Scheduled(k.(threads := threads)).threads, k.cur);
    Scheduled(k.(threads := threads))
  }

  /** A tick takes one off the slice; what is used up is filled again, and an empty one wraps around. */
  function LeftAfter(th: Thread): int {
    if th.left == 1 then th.slice else if th.left == 0 then TICKS - 1 else th.left - 1
  }

  lemma LeftIs(th: Thread)
    requires th.Sane()
    ensures LeftAfter(th) == if (th.left - 1) % TICKS == 0 then th.slice else (th.left - 1) % TICKS
    ensures (th.left - 1) % TICKS == 0 <==> th.left == 1
  {
  }

  /** The thread part of rt_tick_increase: at the end of its time slice the thread yields. */
  ghost function Ticked(k: Kernel): (r: Kernel)
    requires k.Ok()
    ensures r.Ok() && r.locks == k.locks && r.waits == k.waits && (k.locks != 0 ==> r.cur == k.cur)
    ensures var th := k.threads[k.cur];
            SameBut(k.threads[k.cur := th.(left := LeftAfter(th))], r.threads) && (th.left != 1 ==> r.cur == k.cur)
  {
    var th := k.threads[k.cur];
    assert th.Sane();
    LeftIs(th);
    hide Kernel.Ok, SameBut, LeftAfter;
    var left := (th.left - 1) % TICKS;
    if left != 0 then
      SetOk(k, k.cur, th.(left := left));
      AllAkin(k.threads[k.cur := th.(left := left)]);
      k.(threads := k.threads[k.cur := th.(left := left)])
    else
      Yielded(k)
  }

  /** rt_enter_critical */
  ghost function Entered(k: Kernel): (r: Kernel)
    requires k.Ok()
    ensures r.Ok() && r == k.(locks := k.locks + 1)
  {
    k.(locks := k.locks + 1)
  }

  /** rt_exit_critical: the last exit schedules. */
  ghost function Left(k: Kernel): (r: Kernel)
    requires k.Ok()
    ensures r.Ok() && SameBut(k.threads, r.threads) && r.waits == k.waits
    ensures r.locks == if k.locks <= 1 then 0 else k.locks - 1
    ensures k.locks > 1 ==> r == k.(locks := k.locks - 1)
  {
    if k.locks - 1 <= 0 then Scheduled(k.(locks := 0)) else k.(locks := k.locks - 1)
  }

  // ----- wait lists -----

  /** Where a thread of the given priority goes in a wait list ordered by priority. */
  function WaitPlace(threads: seq<Thread>, row: seq<int>, prio: int): (i: int)
    requires forall j :: 0 <= j < |row| ==> 0 <= row[j] < |threads|
    ensures 0 <= i <= |row|
  {
    if row == [] || prio < threads[row[0]].prio then 0 else 1 + WaitPlace(threads, row[1..], prio)
  }

  /** The running thread is suspended and joins a wait list at place `i`. */
  ghost function WaitingAt(k: Kernel, w: int, i: int): (r: Kernel)
    requires k.Ok() && 0 <= w < |k.waits| && k.threads[k.cur].stat == Running && 0 <= i <= |k.waits[w]|
    ensures r.Ok() && r.cur == k.cur && r.locks == k.locks
    ensures r.threads == k.threads[k.cur := k.threads[k.cur].(stat := Suspend, armed := false, at := w)]
    ensures r.waits == k.waits[w := Inserted(k.waits[w], i, k.cur)]
  {
    var t, th := k.cur, k.threads[k.cur];
    assert th.Sane();
    var k1 := Suspended(k, t);
    var th1 := th.(stat := Suspend, armed := false, at := w);
    JoinedOk(k1, w, i, th1);
    k1.(threads := k1.threads[t := th1], waits := k1.waits[w := Inserted(k1.waits[w], i, t)])
  }

  /** The place of the running thread in a wait list: first come first served, or by priority. */
  ghost function PlaceOf(k: Kernel, w: int, byPrio: bool): (i: int)
    requires k.Ok() && 0 <= w < |k.waits|
    ensures 0 <= i <= |k.waits[w]|
    ensures forall j :: 0 <= j < |k.waits[w]| ==> 0 <= k.waits[w][j] < |k.threads|
    ensures i == if byPrio then WaitPlace(k.threads, k.waits[w], k.threads[k.cur].prio) else |k.waits[w]|
  {
    WaitersThere(k, w);
    if byPrio then WaitPlace(k.threads, k.waits[w], k.threads[k.cur].prio) else |k.waits[w]|
  }

  /** Only the priorities decide. */
  lemma {:induction false} SamePlace(threads: seq<Thread>, after: seq<Thread>, row: seq<int>, prio: int)
    requires |after| == |threads| && forall j :: 0 <= j < |row| ==> 0 <= row[j] < |threads|
    requires forall t :: 0 <= t < |threads| ==> after[t].prio == threads[t].prio
    ensures WaitPlace(after, row, prio) == WaitPlace(threads, row, prio)
  {
    if row != [] {
      SamePlace(threads, after, row[1..], prio);
    }
  }

  /** rt_ipc_list_suspend of the running thread. */
  ghost function Waiting(k: Kernel, w: int, byPrio: bool): (r: Kernel)
    requires k.Ok() && 0 <= w < |k.waits| && k.threads[k.cur].stat == Running
    ensures r.Ok() && r.cur == k.cur && r.locks == k.locks && |r.waits| == |k.waits|
    ensures r.threads == k.threads[k.cur := k.threads[k.cur].(stat := Suspend, armed := false, at := w)]
    ensures r.waits == k.waits[w := Inserted(k.waits[w], PlaceOf(k, w, byPrio), k.cur)]
  {
    WaitingAt(k, w, PlaceOf(k, w, byPrio))
  }

  lemma WaitersThere(k: Kernel, w: int)
    requires k.Ok() && 0 <= w < |k.waits|
    ensures forall j :: 0 <= j < |k.waits[w]| ==> 0 <= k.waits[w][j] < |k.threads|
    ensures forall t :: t in k.waits[w] ==> 0 <= t < |k.threads| && k.threads[t].at == w && k.threads[t].stat == Suspend
    ensures forall t :: 0 <= t < |k.threads| && k.threads[t].at == w ==> t in k.waits[w]
    ensures Distinct(k.waits[w])
  {
    assert WaitOk(k.threads, k.waits[w], w);
    forall t | t in k.waits[w]
      ensures 0 <= t < |k.threads| && k.threads[t].stat == Suspend
    {
      assert k.threads[t].Sane();
    }
    forall j | 0 <= j < |k.waits[w]|
      ensures 0 <= k.waits[w][j] < |k.threads|
    {
      assert k.waits[w][j] in k.waits[w];
    }
  }

  lemma JoinedOk(k: Kernel, w: int, i: int, th: Thread)
    requires k.Ok() && 0 <= w < |k.waits| && 0 <= i <= |k.waits[w]|
    requires k.threads[k.cur].stat == Suspend && k.threads[k.cur].at == -1 && th.at == w && th.stat == Suspend && th.Sane()
    ensures k.(threads := k.threads[k.cur := th], waits := k.waits[w := Inserted(k.waits[w], i, k.cur)]).Ok()
  {
    hide RowOk, WaitOk, Inserted;
    StayUnready(k.threads, k.ready, k.cur, th);
    JoinWait(k.threads, k.waits, k.cur, th, i);
  }

  /** The thread records its last error. */
  ghost function WithError(k: Kernel, t: int, error: int): (r: Kernel)
    requires k.Ok() && k.Has(t)
    ensures r.Ok() && r == k.(threads := k.threads[t := k.threads[t].(error := error)])
  {
    assert k.threads[t].Sane();
    SetOk(k, t, k.threads[t].(error := error));
    k.(threads := k.threads[t := k.threads[t].(error := error)])
  }

  /** A thread that has to wait: its error is cleared, it joins the wait list, and a positive timeout arms its timer. */
  ghost function BlockedAt(k: Kernel, w: int, i: int, timeout: int): (r: Kernel)
    requires k.Ok() && 0 <= w < |k.waits| && k.threads[k.cur].stat == Running && 0 <= i <= |k.waits[w]|
    ensures r.Ok() && |r.waits| == |k.waits| && r.cur == k.cur && r.locks == k.locks
    ensures r.threads == k.threads[k.cur := k.threads[k.cur].(stat := Suspend, error := EOK, at := w, armed := timeout > 0)]
    ensures r.waits == k.waits[w := Inserted(k.waits[w], i, k.cur)]
  {
    CurSane(k);
    var k1 := WaitingAt(WithError(k, k.cur, EOK), w, i);
    if timeout > 0 then Armed(k1, k1.cur) else k1
  }

  ghost function Blocked(k: Kernel, w: int, byPrio: bool, timeout: int): (r: Kernel)
    requires k.Ok() && 0 <= w < |k.waits| && k.threads[k.cur].stat == Running
    ensures r.Ok() && |r.waits| == |k.waits| && r.cur == k.cur && r.locks == k.locks
    ensures r.threads == k.threads[k.cur := k.threads[k.cur].(stat := Suspend, error := EOK, at := w, armed := timeout > 0)]
    ensures r.waits == k.waits[w := Inserted(k.waits[w], PlaceOf(k, w, byPrio), k.cur)]
  {
    BlockedAt(k, w, PlaceOf(k, w, byPrio), timeout)
  }

  /** The first thread of a wait list, if there is one, is resumed. */
  ghost function FirstResumed(k: Kernel, w: int): (r: Kernel)
    requires k.Ok() && 0 <= w < |k.waits|
    ensures r.Ok() && |r.threads| == |k.threads| && r.cur == k.cur && r.locks == k.locks
    ensures r.waits == k.waits[w := if k.waits[w] == [] then [] else k.waits[w][1..]]
    ensures k.waits[w] == [] ==> r == k
    ensures k.waits[w] != [] ==>
      var t := k.waits[w][0];
      k.Has(t) && k.threads[t].stat == Suspend
      && r.threads == k.threads[t := k.threads[t].(stat := if t == k.cur then Running else Ready, armed := false, at := -1)]
  {
    if k.waits[w] == [] then
      assert k.waits[w := []] == k.waits;
      k
    else
    WaitersThere(k, w);
    assert k.waits[w][0] in k.waits[w];
    Resumed(k, k.waits[w][0])
  }

  /** And if so, the processor is rescheduled. */
  ghost function FirstWoken(k: Kernel, w: int): (r: Kernel)
    requires k.Ok() && 0 <= w < |k.waits|
    ensures r.Ok() && |r.threads| == |k.threads| && r.waits == FirstResumed(k, w).waits && r.locks == k.locks
    ensures k.locks != 0 ==> r == FirstResumed(k, w)
  {
    if k.waits[w] == [] then k else Scheduled(FirstResumed(k, w))
  }

  /** A wait list ordered by priority. */
  ghost predicate ByPrio(threads: seq<Thread>, row: seq<int>) {
    && (forall j :: 0 <= j < |row| ==> 0 <= row[j] < |threads|)
    && (forall i, j :: 0 <= i < j < |row| ==> threads[row[i]].prio <= threads[row[j]].prio)
  }

  lemma {:induction false} WaitPlaceMeans(threads: seq<Thread>, row: seq<int>, prio: int)
    requires ByPrio(threads, row)
    ensures var i := WaitPlace(threads, row, prio);
            && (forall j :: 0 <= j < i ==> threads[row[j]].prio <= prio)
            && (forall j :: i <= j < |row| ==> threads[row[j]].prio > prio)
  {
    if row != [] && prio >= threads[row[0]].prio {
      WaitPlaceMeans(threads, row[1..], prio);
      var i := WaitPlace(threads, row, prio);
      forall j | 0 <= j < i
        ensures threads[row[j]].prio <= prio
      {
        assert j > 0 ==> row[j] == row[1..][j - 1];
      }
      forall j | i <= j < |row|
        ensures threads[row[j]].prio > prio
      {
        assert row[j] == row[1..][j - 1];
      }
    }
  }

  /** A thread that waits by priority keeps the wait list ordered, behind those of its own priority. */
  lemma WaitingByPrio(threads: seq<Thread>, row: seq<int>, t: int)
    requires ByPrio(threads, row) && 0 <= t < |threads|
    ensures ByPrio(threads, Inserted(row, WaitPlace(threads, row, threads[t].prio), t))
  {
    hide Inserted, WaitPlace;
    var p := WaitPlace(threads, row, threads[t].prio);
    WaitPlaceMeans(threads, row, threads[t].prio);
    var s := Inserted(row, p, t);
    forall i | 0 <= i < |s|
      ensures 0 <= s[i] < |threads|
    {
      InsertedAt(row, p, t, i);
    }
    forall i, j | 0 <= i < j < |s|
      ensures threads[s[i]].prio <= threads[s[j]].prio
    {
      InsertedAt(row, p, t, i);
      InsertedAt(row, p, t, j);
    }
  }

  /**
   Giving a waiting thread another priority does not move it: the wait list stays ordered exactly if
   the new priority fits between those of its neighbours.
   */
  lemma PriorityWhileWaiting(threads: seq<Thread>, row: seq<int>, i: nat, prio: int)
    requires ByPrio(threads, row) && Distinct(row) && i < |row|
    ensures 0 <= row[i] < |threads|
    ensures ByPrio(threads[row[i] := threads[row[i]].(prio := prio)], row) <==>
      (i > 0 ==> 0 <= row[i - 1] < |threads| && threads[row[i - 1]].prio <= prio)
      && (i + 1 < |row| ==> 0 <= row[i + 1] < |threads| && prio <= threads[row[i + 1]].prio)
  {
    var after := threads[row[i] := threads[row[i]].(prio := prio)];
    forall j | 0 <= j < |row| && j != i
      ensures after[row[j]] == threads[row[j]]
    {
      DistinctAt(row, i, j);
    }
    hide Distinct;
    if (i > 0 ==> threads[row[i - 1]].prio <= prio) && (i + 1 < |row| ==> prio <= threads[row[i + 1]].prio) {
      forall j, k | 0 <= j < k < |row|
        ensures after[row[j]].prio <= after[row[k]].prio
      {
        if k == i && j < i - 1 {
          assert threads[row[j]].prio <= threads[row[i - 1]].prio;
        }
        if j == i && k > i + 1 {
          assert threads[row[i + 1]].prio <= threads[row[k]].prio;
        }
      }
    }
  }

  /** A kernel in which thread 0 runs, none is ready, and those of `row` wait for the one object there is. */
  function Resting(threads: seq<Thread>, row: seq<int>): Kernel {
    Kernel(threads, seq(PRIORITIES, _ => []), 0, [row], 0, 0)
  }

  lemma RestingOk(threads: seq<Thread>, row: seq<int>)
    requires threads != [] && AllSane(threads) && threads[0].stat == Running && Distinct(row)
    requires forall t :: 0 < t < |threads| ==> threads[t].stat != Running && threads[t].stat != Ready
    requires forall t :: 0 <= t < |threads| ==> threads[t].at == if t in row then 0 else -1
    requires forall t :: t in row ==> 0 <= t < |threads|
    ensures Resting(threads, row).Ok()
  {
    NoneReadyOk(threads);
    hide Mask, ReadyOk, GroupOk;
    assert WaitOk(threads, row, 0);
  }

  lemma NoneReadyOk(threads: seq<Thread>)
    requires forall t :: 0 <= t < |threads| ==> threads[t].stat != Ready
    ensures ReadyOk(threads, seq(PRIORITIES, _ => [])) && GroupOk(0, seq(PRIORITIES, _ => []))
  {
    hide Mask, Bit;
    forall p: nat
      ensures !Bit(0, p)
    {
      BitZero(p);
    }
    MaskPositive();
  }

  lemma MaskPositive()
    ensures Mask(PRIORITIES) > 0
  {
  }

  /** Two threads wait by priority, and the first is made the less urgent one. */
  lemma PriorityInversion() returns (k: Kernel)
    ensures k.Ok() && k.Has(1) && |k.waits| == 1 && k.waits[0] == [1, 2] && ByPrio(k.threads, k.waits[0])
    ensures var r := Reprioritized(k, 1, 20); !ByPrio(r.threads, r.waits[0])
  {
    hide Kernel.Ok, Mask;
    k := Resting([Thread(Running, false, 5, 5, Mask(5), 10, 10, EOK, false, -1),
                  Thread(Suspend, false, 9, 9, Mask(9), 10, 10, EOK, false, 0),
                  Thread(Suspend, false, 12, 12, Mask(12), 10, 10, EOK, false, 0)], [1, 2]);
    RestingOk(k.threads, [1, 2]);
    assert Distinct([1, 2]) && ByPrio(k.threads, [1, 2]);
    PriorityWhileWaiting(k.threads, [1, 2], 0, 20);
    var r := Reprioritized(k, 1, 20);
    assert r.threads[1].prio == 20 && r.threads[2].prio == 12;
  }

  /**
   A thread that waits for a time is detached, and before the insertion it is resumed by an interrupt;
   the insertion is also wrong if by then the thread has run and waits again, as it does in `k`.
   */
  lemma ResumedTwice() returns (k: Kernel)
    ensures k.Ok() && k.Has(1) && k.threads[1].stat == Suspend && k.threads[1].at == 0
    ensures var r := Resumed(Detached(k, 1), 1); r.threads[1].stat == Ready && !Enqueued(r, 1).Ok()
    ensures !Enqueued(k, 1).Ok()
  {
    hide Kernel.Ok, Mask, Enqueued;
    k := Resting([Thread(Running, false, 5, 5, Mask(5), 10, 10, EOK, false, -1),
                  Thread(Suspend, false, 9, 9, Mask(9), 10, 10, EOK, true, 0)], [1]);
    assert Distinct([1]);
    RestingOk(k.threads, [1]);
    ResumedInTheGap(k, 1);
    ResumedInTheGap(Resumed(Detached(k, 1), 1), 1);
  }

  // ----- round robin -----

  datatype Event = Yield | Tick

  ghost function After(k: Kernel, e: Event): (r: Kernel)
    requires k.Ok()
    ensures r.Ok()
  {
    if e.Yield? then Yielded(k) else Ticked(k)
  }

  /** The current thread runs, and no ready thread outranks it. */
  ghost predicate Leading(k: Kernel) {
    && k.Ok() && k.locks == 0 && k.threads[k.cur].stat == Running && 0 <= k.threads[k.cur].prio < PRIORITIES
    && forall q :: 0 <= q < k.threads[k.cur].prio ==> k.ready[q] == []
  }

  /** The threads that share the processor, the current one first. */
  ghost function Circle(k: Kernel): (c: seq<int>)
    requires Leading(k)
    ensures |c| > 0 && c[0] == k.cur
  {
    [k.cur] + k.ready[k.threads[k.cur].prio]
  }

  /** A yield ends the turn of the current thread, and so does the last tick of its time slice. */
  ghost predicate EndsTurn(k: Kernel, e: Event)
    requires k.Ok()
  {
    e.Yield? || k.threads[k.cur].left == 1
  }

  function Rotated(s: seq<int>): (r: seq<int>)
    requires s != []
    ensures |r| == |s|
  {
    s[1..] + [s[0]]
  }

  /** The end of a turn passes the processor to the next thread of the circle. */
  lemma TurnRotates(k: Kernel, e: Event)
    requires Leading(k)
    ensures var r := After(k, e);
            && Leading(r) && r.threads[r.cur].prio == k.threads[k.cur].prio
            && Circle(r) == if EndsTurn(k, e) then Rotated(Circle(k)) else Circle(k)
  {
    hide RowOk, WaitOk, GroupWithout, Or, ReadyOk, WaitsOk, GroupOk, Switched;
    var c, p := k.threads[k.cur], k.threads[k.cur].prio;
    assert c.Sane();
    var r := After(k, e);
    if EndsTurn(k, e) {
      var c1 := c.(left := c.slice, yielding := true);
      SetOk(k, k.cur, c1);
      var k1 := k.(threads := k.threads[k.cur := c1]);
      assert r == Scheduled(k1);
      YieldingRotates(k1);
    } else {
      assert k.threads[k.cur].stat == Running;
    }
  }

  lemma YieldingRotates(k: Kernel)
    requires Leading(k) && k.threads[k.cur].yielding
    ensures var r := Scheduled(k);
            && Leading(r) && r.threads[r.cur].prio == k.threads[k.cur].prio && Circle(r) == Rotated(Circle(k))
  {
    hide RowOk, WaitOk, GroupWithout, Or, ReadyOk, WaitsOk, AllSane, Bit;
    var p := k.threads[k.cur].prio;
    if k.group != 0 {
      FirstOfCircle(k);
      if k.ready[p] != [] {
        SwitchedInRow(k, k.ready[p][0]);
      }
    } else {
      BitZero(p);
      assert k.ready[p] == [];
    }
  }

  lemma FirstOfCircle(k: Kernel)
    requires Leading(k) && k.group != 0
    ensures k.group < 0x1_0000_0000
    ensures var p, q := k.threads[k.cur].prio, Ffs(k.group) - 1;
            if k.ready[p] != [] then q == p else q > p
  {
    hide RowOk, WaitOk;
    FirstReady(k);
    var p, row := k.threads[k.cur].prio, k.ready[k.threads[k.cur].prio];
    if row != [] {
      assert row[0] in row && RowOk(k.threads, row, p);
      RowMember(k.threads, row, p, row[0]);
    }
  }

  /** Switching to the first thread of the same priority. */
  lemma SwitchedInRow(k: Kernel, to: int)
    requires k.Ok() && k.threads[k.cur].stat == Running && 0 <= k.threads[k.cur].prio < PRIORITIES
    requires var row := k.ready[k.threads[k.cur].prio]; row != [] && row[0] == to
    ensures k.Has(to) && k.threads[to].stat == Ready && k.threads[to].prio == k.threads[k.cur].prio
    ensures var r, p := Switched(k, to), k.threads[k.cur].prio; r.ready == k.ready[p := k.ready[p][1..] + [k.cur]]
  {
    hide RowOk, WaitOk, GroupWithout, Or;
    var p := k.threads[k.cur].prio;
    var row := k.ready[p];
    assert row[0] in row && RowOk(k.threads, row, p);
    RowMember(k.threads, row, p, to);
    assert Del(row + [k.cur], to) == row[1..] + [k.cur];
    assert k.ready[p := row + [k.cur]][p := row[1..] + [k.cur]] == k.ready[p := row[1..] + [k.cur]];
  }

  lemma RowMember(threads: seq<Thread>, row: seq<int>, p: int, t: int)
    requires RowOk(threads, row, p) && t in row
    ensures 0 <= t < |threads| && threads[t].stat == Ready && threads[t].prio == p
  {
  }

  ghost function AfterAll(k: Kernel, es: seq<Event>): (r: Kernel)
    requires k.Ok()
    ensures r.Ok()
    decreases |es|
  {
    if es == [] then k else AfterAll(After(k, es[0]), es[1..])
  }

  /** How many turns end in a run. */
  ghost function Turns(k: Kernel, es: seq<Event>): nat
    requires k.Ok()
    decreases |es|
  {
    if es == [] then 0 else (if EndsTurn(k, es[0]) then 1 else 0) + Turns(After(k, es[0]), es[1..])
  }

  function RotatedBy(s: seq<int>, n: nat): (r: seq<int>)
    requires s != []
    ensures |r| == |s|
    decreases n
  {
    if n == 0 then s else RotatedBy(Rotated(s), n - 1)
  }

  lemma {:induction false} RotatedByIs(s: seq<int>, n: nat)
    requires s != [] && n <= |s|
    ensures RotatedBy(s, n) == s[n..] + s[..n]
    decreases n
  {
    if n > 0 {
      RotatedByIs(Rotated(s), n - 1);
      var t := Rotated(s);
      assert t[n - 1..] == s[n..] + [s[0]];
      assert t[..n - 1] == s[1..n];
      assert s[..n] == [s[0]] + s[1..n];
      assert s[n..] + [s[0]] + s[1..n] == s[n..] + s[..n];
    } else {
      assert s[0..] + s[..0] == s;
    }
  }

  lemma {:induction false} RoundRobin(k: Kernel, es: seq<Event>)
    requires Leading(k)
    ensures Leading(AfterAll(k, es)) && Circle(AfterAll(k, es)) == RotatedBy(Circle(k), Turns(k, es))
    decreases |es|
  {
    hide After, Rotated, Circle, EndsTurn;
    if es != [] {
      TurnRotates(k, es[0]);
      RoundRobin(After(k, es[0]), es[1..]);
    }
  }

  /**
   With n threads sharing the processor, the thread that runs after i < n turns is the i-th of the
   circle, so each runs exactly once, and after n turns the circle is as before.
   */
  lemma RoundRobinFair(k: Kernel, es: seq<Event>)
    requires Leading(k) && Turns(k, es) <= |Circle(k)|
    ensures Leading(AfterAll(k, es))
    ensures Turns(k, es) < |Circle(k)| ==> AfterAll(k, es).cur == Circle(k)[Turns(k, es)]
    ensures Turns(k, es) == |Circle(k)| ==> Circle(AfterAll(k, es)) == Circle(k)
  {
    hide Turns, AfterAll;
    var n := Turns(k, es);
    RoundRobin(k, es);
    RotatedByIs(Circle(k), n);
    assert Circle(AfterAll(k, es)) == Circle(k)[n..] + Circle(k)[..n];
  }

  // ----- runs of the whole system -----

  /** A section of a thread, an interrupt, or a timer. */
  datatype Step =
    | Suspending(t: int)
    | Waits(w: int, byPrio: bool, timed: bool)
    | Sleeps
    | Resuming(t: int)
    | Detaching(t: int)
    | Inserting(t: int)
    | Expires(t: int)
    | SetPrio(t: int, prio: int)
    | Starts(t: int)
    | Exits
    | Yields
    | Ticks
    | Enters
    | Leaves
    | Schedules

  /**
   Only the current thread waits, sleeps or exits; only a running or ready thread other than `idle` is
   suspended; and the second section of a resume finds the thread as the first has left it.
   */
  ghost predicate Enabled(k: Kernel, s: Step, idle: int)
    requires k.Ok()
  {
    match s
    case Suspending(t) => k.Has(t) && t != idle
    case Waits(w, _, _) => 0 <= w < |k.waits| && k.threads[k.cur].stat == Running && k.cur != idle
    case Sleeps => k.threads[k.cur].stat == Running && k.cur != idle
    case Resuming(t) => k.Has(t)
    case Detaching(t) => k.Has(t)
    case Inserting(t) => k.Has(t) && k.threads[t].stat == Suspend && k.threads[t].at == -1 && !k.threads[t].armed
    case Expires(t) => k.Has(t) && k.threads[t].armed
    case SetPrio(t, prio) => k.Has(t) && 0 <= prio < PRIORITIES
    case Starts(t) => k.Has(t) && k.threads[t].stat == Init
    case Exits => k.threads[k.cur].stat == Running && k.cur != idle
    case _ => true
  }

  ghost function Waited(k: Kernel, w: int, byPrio: bool, timed: bool): (r: Kernel)
    requires k.Ok() && 0 <= w < |k.waits| && k.threads[k.cur].stat == Running
    ensures r.Ok() && |r.threads| == |k.threads| && |r.waits| == |k.waits|
  {
    if timed then Armed(Waiting(k, w, byPrio), k.cur) else Waiting(k, w, byPrio)
  }

  ghost function Next(k: Kernel, s: Step, idle: int): (r: Kernel)
    requires k.Ok() && Enabled(k, s, idle)
    ensures r.Ok() && |r.threads| == |k.threads| && |r.waits| == |k.waits|
  {
    hide ReadyOk, GroupOk, WaitsOk;
    match s
    case Suspending(t) => Suspended(k, t)
    case Waits(w, byPrio, timed) => Waited(k, w, byPrio, timed)
    case Sleeps => Slept(k)
    case Resuming(t) => Resumed(k, t)
    case Detaching(t) => Detached(k, t)
    case Inserting(t) => Woken(k, t)
    case Expires(t) => TimedOut(k, t)
    case SetPrio(t, prio) => Reprioritized(k, t, prio)
    case Starts(t) => StartedUp(k, t)
    case Exits => Exited(k)
    case Yields => Yielded(k)
    case Ticks => Ticked(k)
    case Enters => Entered(k)
    case Leaves => Left(k)
    case Schedules => Scheduled(k)
  }

  /** What a step makes of thread `t`, up to which of the active threads runs. */
  ghost predicate Became(k: Kernel, s: Step, t: int, b: Thread)
    requires k.Has(t)
  {
    var a := k.threads[t];
    match s
    case Suspending(u) => b == if u == t && Active(a) then a.(stat := Suspend, armed := false) else a
    case Waits(w, _, timed) => b == if t == k.cur then a.(stat := Suspend, armed := timed, at := w) else a
    case Sleeps => b == if t == k.cur then a.(stat := Suspend, armed := true) else a
    case Resuming(u) =>
      b == if u == t && a.stat == Suspend then a.(stat := if t == k.cur then Running else Ready, armed := false, at := -1) else a
    case Detaching(u) => b == if u == t && a.stat == Suspend then a.(armed := false, at := -1) else a
    case Inserting(u) => b == if u == t then a.(stat := if t == k.cur then Running else Ready) else a
    case Expires(u) => Akin(if u == t then a.(stat := Ready, armed := false, error := -ETIMEOUT, at := -1) else a, b)
    case SetPrio(u, prio) => b == if u == t && 0 <= prio then a.(prio := prio, mask := Mask(prio)) else a
    case Starts(u) => Akin(if u == t && 0 <= a.initPrio then a.(stat := Ready, prio := a.initPrio, mask := Mask(a.initPrio)) else a, b)
    case Exits => Akin(if t == k.cur then a.(stat := Close, armed := false) else a, b)
    case Yields => Akin(if t == k.cur then a.(left := a.slice) else a, b)
    case Ticks => Akin(if t == k.cur then a.(left := LeftAfter(a)) else a, b)
    case Enters => b == a
    case _ => Akin(a, b)
  }

  lemma NextThread(k: Kernel, s: Step, idle: int, t: int)
    requires k.Ok() && k.Has(t) && Enabled(k, s, idle)
    ensures Became(k, s, t, Next(k, s, idle).threads[t])
  {
    hide RowOk, WaitOk, ReadyOk, WaitsOk, GroupOk, Scheduled, TimedOut, StartedUp, Exited, Yielded, Ticked, Left, Mask,
      Suspended, Slept, Resumed, Detached, Woken, Waiting, Armed, Reprioritized;
    var r := Next(k, s, idle);
    SaneAt(k, t);
    match s
    case Expires(u) =>
      var th := k.threads[u];
      assert Akin(k.threads[u := th.(stat := Ready, armed := false, error := -ETIMEOUT, at := -1)][t], r.threads[t]);
    case Starts(u) =>
      var th := k.threads[u];
      SaneAt(k, u);
      assert Akin(k.threads[u := th.(stat := Ready, prio := th.initPrio, mask := Mask(th.initPrio))][t], r.threads[t]);
    case Exits =>
      assert Akin(k.threads[k.cur := k.threads[k.cur].(stat := Close, armed := false)][t], r.threads[t]);
    case Yields => assert Akin(k.threads[k.cur := k.threads[k.cur].(left := k.threads[k.cur].slice)][t], r.threads[t]);
    case Ticks => assert Akin(k.threads[k.cur := k.threads[k.cur].(left := LeftAfter(k.threads[k.cur]))][t], r.threads[t]);
    case Leaves => assert Akin(k.threads[t], r.threads[t]);
    case Schedules => assert Akin(k.threads[t], r.threads[t]);
    case _ =>
  }

  /** The idle thread stays active, so that there is always a thread to run. */
  lemma IdleStaysActive(k: Kernel, s: Step, idle: int)
    requires k.Ok() && k.Has(idle) && Active(k.threads[idle]) && Enabled(k, s, idle)
    ensures Active(Next(k, s, idle).threads[idle])
  {
    hide Next, Mask, ReadyOk, GroupOk, WaitsOk;
    SaneAt(k, idle);
    NextThread(k, s, idle, idle);
  }

  ghost predicate Run(ks: seq<Kernel>, steps: seq<Step>, idle: int) {
    && |ks| == |steps| + 1 && ks[0].Ok() && ks[0].Has(idle) && Active(ks[0].threads[idle])
    && forall i :: 0 <= i < |steps| ==> StepAt(ks, steps, idle, i)
  }

  ghost predicate StepAt(ks: seq<Kernel>, steps: seq<Step>, idle: int, i: int)
    requires 0 <= i < |steps| && |ks| == |steps| + 1
  {
    ks[i].Ok() ==> Enabled(ks[i], steps[i], idle) && ks[i + 1] == Next(ks[i], steps[i], idle)
  }

  /**
   In every state of every run the lists, the bitmap and the thread states agree; whenever the lock
   is open, rt_schedule finds a thread to run, and then no ready thread outranks the one that runs.
   */
  lemma {:induction false} RunOk(ks: seq<Kernel>, steps: seq<Step>, idle: int, i: nat)
    requires Run(ks, steps, idle) && i <= |steps|
    ensures ks[i].Ok() && ks[i].Has(idle) && Active(ks[i].threads[idle])
    ensures var k := ks[i];
            k.locks == 0 ==> var r := Scheduled(k); r.threads[r.cur].stat == Running && !Outranked(r, r.threads[r.cur].prio, true)
  {
    hide Kernel.Ok, Next, Enabled, Scheduled, Outranked;
    if i > 0 {
      RunOk(ks, steps, idle, i - 1);
      assert StepAt(ks, steps, idle, i - 1);
      IdleStaysActive(ks[i - 1], steps[i - 1], idle);
    }
    if ks[i].locks == 0 {
      IdleThere(ks[i], idle);
      ScheduledRuns(ks[i]);
    }
  }
}
