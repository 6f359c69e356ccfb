/**
 A semaphore object of the kernel and its two operations.
 */
module SemaphoreOps {
  import opened Threads
  import opened Scheduler
  import opened ThreadOps
  import opened Semaphores

  class Semaphore {
    const system: System
    const list: int // its wait list
    const byPrio: bool
    var value: int

    ghost function Abs(): Sem
      reads this
    {
      Sem(value, byPrio)
    }

    /** rt_sem_init */
    constructor (system: System, list: int, byPrio: bool, value: int)
      requires 0 <= value <= VALUE_MAX
      ensures this.system == system && this.list == list && Abs() == Sem(value, byPrio)
    {
      this.system, this.list, this.byPrio, this.value := system, list, byPrio, value;
    }

    /** rt_sem_take, up to and including the switch if the thread has to wait. */
    method Take(time: int) returns (r: Outcome)
      requires system.Valid() && 0 <= list < |system.waits|
      requires value <= 0 && time != 0 ==> system.threads[system.cur].stat == Running
      modifies this, system
      ensures old(system.Valid())
      ensures var t := Taken(old(system.Abs()), old(Abs()), list, time);
              && system.Abs() == (if r == Blocks then Scheduled(t.0) else t.0) && Abs() == t.1 && r == t.2
    {
      hide Kernel.Ok;
      if value > 0 {
        value := value - 1;
      } else if time == 0 {
        return Returns(-ETIMEOUT);
      } else {
        system.Block(list, byPrio, time);
        return Blocks;
      }
      r := Returns(EOK);
    }

    /** rt_sem_release */
    method Release() returns (r: Outcome)
      requires system.Valid() && 0 <= list < |system.waits|
      modifies this, system
      ensures old(system.Valid())
      ensures var t := Released(old(system.Abs()), old(Abs()), list);
              && system.Abs() == (if t.3 then Scheduled(t.0) else t.0) && Abs() == t.1 && r == t.2
    {
      hide Kernel.Ok;
      var reschedule := false;
      if system.waits[list] != [] {
        var _ := system.ResumeFirst(list);
        reschedule := true;
      } else {
        if value >= VALUE_MAX {
          return Returns(-EFULL);
        }
        value := value + 1;
      }
      if reschedule {
        system.Schedule();
      }
      r := Returns(EOK);
    }
  }
}
