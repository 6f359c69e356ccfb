/**
 A mutex object of the kernel and its two operations, field by field.
 */
module MutexOps {
  import opened Threads
  import opened Scheduler
  import opened ThreadOps
  import opened Mutexes

  class MutexObject {
    const system: System
    const list: int // its wait list
    const byPrio: bool
    var value: int
    var owner: int
    var hold: int
    var original: int

    ghost function Abs(): Mutex
      reads this
    {
      Mutex(value, owner, hold, original, byPrio)
    }

    /** rt_mutex_init */
    constructor (system: System, list: int, byPrio: bool)
      ensures this.system == system && this.list == list && Abs() == Mutex(1, -1, 0, NO_PRIO, byPrio)
    {
      this.system, this.list, this.byPrio := system, list, byPrio;
      value, owner, hold, original := 1, -1, 0, NO_PRIO;
    }

    /** rt_mutex_take, up to and including the switch if the thread has to wait. */
    method Take(time: int) returns (r: Outcome)
      requires system.Valid() && 0 <= list < |system.waits| && system.threads[system.cur].stat == Running
      requires value <= 0 ==> 0 <= owner < |system.threads|
      modifies this, system
      ensures old(system.Valid())
      ensures var t := Taken(old(system.Abs()), old(Abs()), list, time);
              && system.Abs() == (if r == Blocks then Scheduled(t.0) else t.0) && Abs() == t.1 && r == t.2
    {
      hide Kernel.Ok, Scheduled, Resumed, Reprioritized, Waiting, Armed;
      var k := system;
      ghost var k0 := k.Abs();
      assert k0.threads[k0.cur].Sane() by {
        CurSane(k0);
      }
      var thread := k.cur;
      k.SetError(thread, EOK);
      if owner == thread {
        if hold >= HOLD_MAX {
          return Returns(-EFULL);
        }
        hold := hold + 1;
      } else if value > 0 {
        value := value - 1;
        owner := thread;
        original := k.threads[thread].prio;
        if hold >= HOLD_MAX {
          return Returns(-EFULL);
        }
        hold := hold + 1;
      } else if time == 0 {
        k.SetError(thread, -ETIMEOUT);
        return Returns(-ETIMEOUT);
      } else {
        if k.threads[thread].prio < k.threads[owner].prio {
          k.ChangePriority(owner, k.threads[thread].prio);
        }
        k.WaitOn(list, byPrio);
        if time > 0 {
          k.ArmTimer(thread);
        }
        k.Schedule();
        return Blocks;
      }
      r := Returns(EOK);
    }

    /** rt_mutex_release */
    method Release() returns (r: Outcome)
      requires system.Valid() && 0 <= list < |system.waits| && 0 <= original
      requires owner == system.cur && original != system.threads[system.cur].prio ==> original < PRIORITIES
      modifies this, system
      ensures old(system.Valid())
      ensures var t := Released(old(system.Abs()), old(Abs()), list);
              && system.Abs() == (if t.3 then Scheduled(t.0) else t.0) && Abs() == t.1 && r == t.2
    {
      hide Kernel.Ok, Scheduled, Resumed, Reprioritized, Waiting, Armed;
      var k := system;
      ghost var k0 := k.Abs();
      CurSane(k0);
      if k.cur != owner {
        k.SetError(k.cur, -ERROR);
        return Returns(-ERROR);
      }
      hold := hold - 1;
      var reschedule := false;
      if hold == 0 {
        if original != k.threads[owner].prio {
          k.ChangePriority(owner, original);
        }
        if k.waits[list] != [] {
          WaitersThere(k.Abs(), list);
          var thread := k.waits[list][0];
          assert thread in k.waits[list];
          owner := thread;
          original := k.threads[thread].prio;
          hold := hold + 1;
          var _ := k.ResumeFirst(list);
          reschedule := true;
        } else {
          if value >= VALUE_MAX {
            return Returns(-EFULL);
          }
          value := value + 1;
          owner := -1;
          original := NO_PRIO;
        }
      }
      if reschedule {
        k.Schedule();
      }
      r := Returns(EOK);
    }
  }
}
