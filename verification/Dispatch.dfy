/**
 Which thread runs after a section, and the order in which the ready threads of a priority get to run.
 */
module Dispatch {
  import opened Lists
  import opened Bits
  import opened Threads
  import opened Scheduler

  // ----- the sections that end in rt_schedule -----

  ghost predicate Dispatches(k: Kernel, s: Step)
    requires k.Has(k.cur)
  {
    match s
    case Expires(_) => true
    case Starts(_) => true
    case Exits => true
    case Yields => true
    case Ticks => k.threads[k.cur].left == 1
    case Leaves => k.locks <= 1
    case Schedules => true
    case _ => false
  }

  /** What such a section has done when it gets to rt_schedule. */
  ghost function Rescheduling(k: Kernel, s: Step, idle: int): (r: Kernel)
    requires k.Ok() && Enabled(k, s, idle) && Dispatches(k, s)
    ensures r.Ok() && r.locks == (if s.Leaves? then 0 else k.locks) && r.cur == k.cur
  {
    SaneAt(k, k.cur);
    hide ReadyOk, WaitsOk, GroupOk, Mask;
    var c := k.threads[k.cur];
    if s.Expires? then
      SaneAt(k, s.t);
      Woken(Off(k, s.t, k.threads[s.t].(armed := false, error := -ETIMEOUT, at := -1)), s.t)
    else if s.Starts? then
      SaneAt(k, s.t);
      var th := k.threads[s.t];
      Woken(Off(k, s.t, th.(prio := th.initPrio, mask := Mask(th.initPrio), stat := Suspend)), s.t)
    else if s.Exits? then Off(k, k.cur, c.(stat := Close, armed := false))
    else if s.Leaves? then k.(locks := 0)
    else if s.Schedules? then k
    else
      SetOk(k, k.cur, c.(left := c.slice, yielding := true));
      k.(threads := k.threads[k.cur := c.(left := c.slice, yielding := true)])
  }

  lemma EndsScheduling(k: Kernel, s: Step, idle: int)
    requires k.Ok() && Enabled(k, s, idle) && Dispatches(k, s)
    ensures Next(k, s, idle) == Scheduled(Rescheduling(k, s, idle))
  {
    SaneAt(k, k.cur);
    hide Scheduled, Kernel.Ok, Off, Woken, Mask;
  }

  /**
   After each of these sections, with the lock open, the current thread runs and no ready thread
   outranks it; there is something to run because an idle thread is never suspended.
   */
  lemma Dispatched(k: Kernel, s: Step, idle: int)
    requires k.Ok() && k.Has(idle) && Active(k.threads[idle]) && Enabled(k, s, idle) && Dispatches(k, s)
    requires k.locks == 0 || s.Leaves?
    ensures var r := Next(k, s, idle);
            r.threads[r.cur].stat == Running && !Outranked(r, r.threads[r.cur].prio, true)
  {
    hide Kernel.Ok, Next, Scheduled, Outranked, Rescheduling, Dispatches, Enabled;
    IdleStaysActive(k, s, idle);
    EndsScheduling(k, s, idle);
    var k1 := Rescheduling(k, s, idle);
    assert Akin(k1.threads[idle], Next(k, s, idle).threads[idle]);
    IdleThere(k1, idle);
    ScheduledRuns(k1);
  }

  // ----- the order of a ready list -----

  ghost predicate Before(s: seq<int>, x: int, y: int) {
    exists i, j :: 0 <= i < j < |s| && s[i] == x && s[j] == y
  }

  /** What stood in list `a` stands in `b` in the same order, and what came in stands behind it. */
  ghost predicate Follows(a: seq<int>, b: seq<int>) {
    forall x, y :: Before(b, x, y) && y in a ==> Before(a, x, y)
  }

  lemma FollowsSelf(a: seq<int>)
    ensures Follows(a, a)
  {
  }

  lemma FollowsDel(a: seq<int>, t: int)
    requires Distinct(a)
    ensures Follows(a, Del(a, t))
  {
    if t in a {
      var i :| 0 <= i < |a| && a[i] == t;
      DelIs(a, t, i);
      var b := Del(a, t);
      forall x, y | Before(b, x, y)
        ensures Before(a, x, y)
      {
        var m, n :| 0 <= m < n < |b| && b[m] == x && b[n] == y;
        RemovedAt(a, i, m);
        RemovedAt(a, i, n);
      }
    } else {
      DelAbsent(a, t);
    }
  }

  lemma FollowsAdd(a: seq<int>, t: int)
    requires t !in a
    ensures Follows(a, a + [t])
  {
    var b := a + [t];
    forall x, y | Before(b, x, y) && y in a
      ensures Before(a, x, y)
    {
      var m, n :| 0 <= m < n < |b| && b[m] == x && b[n] == y;
      assert n < |a|;
    }
  }

  lemma FollowsOn(a: seq<int>, b: seq<int>, c: seq<int>)
    requires Follows(a, b) && Follows(b, c) && forall y :: y in a && y in c ==> y in b
    ensures Follows(a, c)
  {
    forall x, y | Before(c, x, y) && y in a
      ensures Before(a, x, y)
    {
      assert y in c;
      assert Before(b, x, y);
    }
  }

  lemma ReadyRow(k: Kernel, p: int)
    requires k.Ok() && 0 <= p < PRIORITIES
    ensures |k.ready| == PRIORITIES && Distinct(k.ready[p])
    ensures forall t :: t in k.ready[p] ==> k.Has(t) && k.threads[t].stat == Ready && k.threads[t].prio == p
  {
    assert RowOk(k.threads, k.ready[p], p);
  }

  /** A thread that leaves its ready list leaves the others in their order. */
  lemma OffOrder(k: Kernel, t: int, th: Thread, p: int)
    requires k.Ok() && k.Has(t) && th.stat != Ready && th.at == -1 && th.Sane() && OneRunning(k.threads[t := th], k.cur)
    requires 0 <= p < PRIORITIES
    ensures |k.ready| == |Off(k, t, th).ready| == PRIORITIES && Follows(k.ready[p], Off(k, t, th).ready[p])
    ensures forall y :: y in Off(k, t, th).ready[p] ==> y in k.ready[p]
    ensures k.threads[t].stat != Ready ==> Off(k, t, th).ready == k.ready
  {
    ReadyRow(k, p);
    FollowsDel(k.ready[p], t);
    FollowsSelf(k.ready[p]);
    DelHas(k.ready[p], t);
    SaneAt(k, t);
    hide Distinct, Follows, Del, RowOk, WaitOk;
  }

  /** One that joins stands last. */
  lemma WokenOrder(k: Kernel, t: int, p: int)
    requires k.Ok() && k.Has(t) && k.threads[t].stat == Suspend && k.threads[t].at == -1 && !k.threads[t].armed
    requires 0 <= p < PRIORITIES
    ensures |k.ready| == |Woken(k, t).ready| == PRIORITIES && Follows(k.ready[p], Woken(k, t).ready[p])
    ensures forall y :: y in k.ready[p] ==> y in Woken(k, t).ready[p]
  {
    ReadyRow(k, p);
    SaneAt(k, t);
    FollowsAdd(k.ready[p], t);
    FollowsSelf(k.ready[p]);
    hide Distinct, Follows, Del, RowOk, WaitOk;
  }

  /** A switch takes a thread off its list, after putting the running one last on its own. */
  lemma SwitchedOrder(k: Kernel, to: int, p: int)
    requires k.Ok() && k.Has(to) && k.threads[to].stat == Ready && 0 <= p < PRIORITIES
    ensures var r := Switched(k, to);
            && |k.ready| == |r.ready| == PRIORITIES && Follows(k.ready[p], r.ready[p])
            && forall y :: y in r.ready[p] && y != k.cur ==> y in k.ready[p]
  {
    ReadyRow(k, p);
    SaneAt(k, to);
    CurSane(k);
    var row := k.ready[p];
    FollowsSelf(row);
    FollowsAdd(row, k.cur);
    assert Distinct(row + [k.cur]);
    FollowsDel(row, to);
    FollowsDel(row + [k.cur], to);
    DelHas(row, to);
    DelHas(row + [k.cur], to);
    FollowsOn(row, row + [k.cur], Del(row + [k.cur], to));
    hide Distinct, Follows, Del, RowOk, WaitOk, GroupWithout;
  }

  /** rt_schedule leaves the ready lists alone or switches. */
  lemma ScheduledSwitches(k: Kernel) returns (to: int)
    requires k.Ok()
    ensures Scheduled(k).ready == k.ready || (k.Has(to) && k.threads[to].stat == Ready && Scheduled(k) == Switched(k, to))
  {
    to := k.cur;
    if k.group != 0 {
      FirstReady(k);
      to := k.ready[Ffs(k.group) - 1][0];
    }
    hide ReadyOk, GroupOk, WaitsOk, OneRunning, AllSane, Switched;
  }

  lemma ScheduledOrder(k: Kernel, p: int)
    requires k.Ok() && 0 <= p < PRIORITIES
    ensures var r := Scheduled(k);
            && |k.ready| == |r.ready| == PRIORITIES && Follows(k.ready[p], r.ready[p])
            && forall y :: y in r.ready[p] && y != k.cur ==> y in k.ready[p]
  {
    hide Kernel.Ok, Scheduled, Follows, Switched;
    ReadyRow(k, p);
    FollowsSelf(k.ready[p]);
    var to := ScheduledSwitches(k);
    if Scheduled(k).ready != k.ready {
      SwitchedOrder(k, to, p);
    }
  }

  /** What a section that ends in rt_schedule does before. */
  lemma ReschedulingOrder(k: Kernel, s: Step, idle: int, p: int)
    requires k.Ok() && Enabled(k, s, idle) && Dispatches(k, s) && 0 <= p < PRIORITIES
    ensures var r := Rescheduling(k, s, idle);
            && |k.ready| == |r.ready| == PRIORITIES && Follows(k.ready[p], r.ready[p])
            && forall y :: y in k.ready[p] ==> y in r.ready[p]
  {
    SaneAt(k, k.cur);
    ReadyRow(k, p);
    FollowsSelf(k.ready[p]);
    if s.Expires? {
      SaneAt(k, s.t);
      var th := k.threads[s.t].(armed := false, error := -ETIMEOUT, at := -1);
      OffOrder(k, s.t, th, p);
      WokenOrder(Off(k, s.t, th), s.t, p);
    } else if s.Starts? {
      SaneAt(k, s.t);
      var th := k.threads[s.t].(prio := k.threads[s.t].initPrio, mask := Mask(k.threads[s.t].initPrio), stat := Suspend);
      OffOrder(k, s.t, th, p);
      WokenOrder(Off(k, s.t, th), s.t, p);
    } else if s.Exits? {
      OffOrder(k, k.cur, k.threads[k.cur].(stat := Close, armed := false), p);
    }
    hide Follows, Off, Woken, ReadyOk, WaitsOk, GroupOk, OneRunning;
  }

  /** A new priority moves a ready thread to the end of its new list, be it the same one. */
  lemma ReprioritizedOrder(k: Kernel, t: int, prio: int, p: int)
    requires k.Ok() && k.Has(t) && 0 <= prio < PRIORITIES && 0 <= p < PRIORITIES
    ensures var r := Reprioritized(k, t, prio);
            && |k.ready| == |r.ready| == PRIORITIES
            && forall x, y :: Before(r.ready[p], x, y) && y in k.ready[p] && y != t ==> Before(k.ready[p], x, y)
  {
    SaneAt(k, t);
    ReadyRow(k, p);
    FollowsSelf(k.ready[p]);
    if k.threads[t].stat == Ready {
      var k1 := Off(k, t, k.threads[t].(stat := Suspend));
      OffOrder(k, t, k.threads[t].(stat := Suspend), p);
      ReadyRow(k1, p);
      FollowsAdd(k1.ready[p], t);
      DelHas(k.ready[p], t);
    }
    hide Off, ReadyOk, WaitsOk, GroupOk, OneRunning, Before, Distinct, Del;
  }

  /**
   Whatever happens, the ready threads of a priority keep their order and newcomers join behind them;
   only a thread that is given a priority itself moves to the end.
   */
  lemma NextOrder(k: Kernel, s: Step, idle: int, p: int, x: int, y: int)
    requires k.Ok() && Enabled(k, s, idle) && 0 <= p < PRIORITIES
    ensures |k.ready| == |Next(k, s, idle).ready| == PRIORITIES
    ensures Before(Next(k, s, idle).ready[p], x, y) && y in k.ready[p] && !(s.SetPrio? && y == s.t) ==> Before(k.ready[p], x, y)
  {
    SaneAt(k, k.cur);
    ReadyRow(k, p);
    FollowsSelf(k.ready[p]);
    if Dispatches(k, s) {
      EndsScheduling(k, s, idle);
      ReschedulingOrder(k, s, idle, p);
      ScheduledOrder(Rescheduling(k, s, idle), p);
      FollowsOn(k.ready[p], Rescheduling(k, s, idle).ready[p], Next(k, s, idle).ready[p]);
    } else if s.SetPrio? {
      ReprioritizedOrder(k, s.t, s.prio, p);
    } else if s.Waits? || s.Sleeps? {
      OffOrder(k, k.cur, k.threads[k.cur].(stat := Suspend, armed := false), p);
      WaitingOrder(k, s, idle);
    } else {
      QuietOrder(k, s, idle, p);
    }
    hide Next, Rescheduling, Before, Distinct, ReadyOk, WaitsOk, GroupOk, OneRunning;
  }

  lemma DetachedOrder(k: Kernel, t: int)
    requires k.Ok() && k.Has(t)
    ensures Detached(k, t).ready == k.ready
  {
    SaneAt(k, t);
    hide ReadyOk, WaitsOk, GroupOk, OneRunning;
  }

  lemma WaitingOrder(k: Kernel, s: Step, idle: int)
    requires k.Ok() && Enabled(k, s, idle) && (s.Waits? || s.Sleeps?)
    ensures Next(k, s, idle).ready == k.ready
  {
    SaneAt(k, k.cur);
    hide ReadyOk, WaitsOk, GroupOk, OneRunning;
  }

  /** The other sections that do not end in rt_schedule. */
  lemma QuietOrder(k: Kernel, s: Step, idle: int, p: int)
    requires k.Ok() && Enabled(k, s, idle) && 0 <= p < PRIORITIES && !Dispatches(k, s)
    requires !s.SetPrio? && !s.Waits? && !s.Sleeps?
    ensures |k.ready| == |Next(k, s, idle).ready| == PRIORITIES
    ensures Follows(k.ready[p], Next(k, s, idle).ready[p])
  {
    SaneAt(k, k.cur);
    ReadyRow(k, p);
    FollowsSelf(k.ready[p]);
    match s
    case Suspending(t) =>
      SaneAt(k, t);
      if Active(k.threads[t]) {
        OffOrder(k, t, k.threads[t].(stat := Suspend, armed := false), p);
      }
    case Resuming(t) =>
      DetachedOrder(k, t);
      if k.threads[t].stat == Suspend {
        WokenOrder(Detached(k, t), t, p);
      }
    case Detaching(t) => DetachedOrder(k, t);
    case Inserting(t) => WokenOrder(k, t, p);
    case _ =>
    hide Follows, Off, Woken, Detached, ReadyOk, WaitsOk, GroupOk, OneRunning;
  }

  /** `x` and `y` are ready with the same priority in these states, and nobody sets that of `x`. */
  ghost predicate BothReady(ks: seq<Kernel>, steps: seq<Step>, i: int, j: int, p: int, x: int, y: int)
    requires 0 <= i <= j <= |steps| && |ks| == |steps| + 1
  {
    && 0 <= p < PRIORITIES
    && (forall n :: i <= n <= j ==> |ks[n].ready| == PRIORITIES && x in ks[n].ready[p] && y in ks[n].ready[p])
    && (forall n :: i <= n < j ==> !(steps[n].SetPrio? && steps[n].t == x))
  }

  /** No overtaking: of two ready threads of the same priority, the one that stands before the other stays before it. */
  lemma {:induction false} NoOvertaking(ks: seq<Kernel>, steps: seq<Step>, idle: int, i: nat, j: nat, p: int, x: int, y: int)
    requires Run(ks, steps, idle) && i <= j <= |steps| && BothReady(ks, steps, i, j, p, x, y)
    requires x != y && Before(ks[i].ready[p], x, y)
    ensures Before(ks[j].ready[p], x, y) && ks[j].ready[p][0] != y
    decreases j
  {
    RunOk(ks, steps, idle, j);
    hide Kernel.Ok, Next, Enabled, Scheduled, Outranked;
    if i < j {
      NoOvertaking(ks, steps, idle, i, j - 1, p, x, y);
      RunOk(ks, steps, idle, j - 1);
      assert StepAt(ks, steps, idle, j - 1);
      NextOrder(ks[j - 1], steps[j - 1], idle, p, y, x);
      OneBefore(ks[j - 1].ready[p], x, y);
    }
    ReadyRow(ks[j], p);
    OneBefore(ks[j].ready[p], x, y);
  }

  /** Of two different entries exactly one stands before the other. */
  lemma OneBefore(s: seq<int>, x: int, y: int)
    requires Distinct(s) && x in s && y in s && x != y
    ensures Before(s, x, y) <==> !Before(s, y, x)
    ensures Before(s, x, y) ==> s[0] != y
  {
    var i :| 0 <= i < |s| && s[i] == x;
    var j :| 0 <= j < |s| && s[j] == y;
    assert forall m :: 0 <= m < |s| ==> (s[m] == x ==> m == i) && (s[m] == y ==> m == j);
  }
}
