/**
 A mailbox object of the kernel: one pass through the locked part of sending and of receiving.
 */
module MailboxOps {
  import opened Threads
  import opened Scheduler
  import opened ThreadOps
  import opened GateWaits
  import opened MailboxRuns
  import opened Mailboxes

  class Mailbox {
    const system: System
    const receivers: int // the wait list of the receivers
    const senders: int   // and of the senders
    const byPrio: bool
    const size: int
    var pool: seq<int>
    var entry: int
    var inOffset: int
    var outOffset: int

    ghost function Abs(): Box
      reads this
    {
      Box(pool, entry, inOffset, outOffset)
    }

    ghost predicate Valid()
      reads this, system
    {
      && Abs().Ok() && |pool| == size && system.Valid()
      && 0 <= receivers < |system.waits| && 0 <= senders < |system.waits|
    }

    /** rt_mb_init */
    constructor (system: System, receivers: int, senders: int, byPrio: bool, size: nat)
      requires system.Valid() && 0 <= receivers < |system.waits| && 0 <= senders < |system.waits| && size <= ENTRY_MAX
      ensures Valid() && this.system == system && this.size == size && Abs().Mail() == []
    {
      this.system, this.receivers, this.senders, this.byPrio, this.size := system, receivers, senders, byPrio, size;
      pool, entry, inOffset, outOffset := seq(size, _ => 0), 0, 0, 0;
    }

    /**
     A pass of rt_mb_send_wait: a full box sends the thread to wait, or away; otherwise the mail is
     stored last and a receiver woken.  `again` is a pass after having waited, with what is left of the time.
     */
    method Send(value: int, timeout: int, again: bool) returns (r: Outcome)
      requires Valid() && (timeout != 0 ==> system.threads[system.cur].stat == Running)
      modifies this, system
      ensures Valid() && old(Valid())
      ensures var k, i := old(system.Abs()), PlaceOf(old(system.Abs()), senders, byPrio);
              system.Abs() == Settled(k, SendEffect(old(Abs()), receivers, senders, i, timeout != 0, again), timeout)
      ensures if old(entry) == size then Abs() == old(Abs()) && r == if timeout == 0 then Returns(-EFULL) else Blocks
              else r == Returns(EOK) && Abs().Mail() == old(Abs().Mail()) + [value]
    {
      hide Kernel.Ok, Box.Ok, FirstWoken, Blocked, BlockedAt, FirstResumed, Scheduled, WithError, PlaceOf;
      if entry == size {
        CurSane(system.Abs());
        if timeout == 0 {
          if again {
            system.SetError(system.cur, EOK);
          }
          return Returns(-EFULL);
        }
        SettledQueues(system.Abs(), senders, byPrio, timeout);
        hide Settled;
        system.Block(senders, byPrio, timeout);
        return Blocks;
      }
      var ok := Post(value);
      if !ok {
        return Returns(-EFULL);
      }
      SettledCalls(system.Abs(), receivers, timeout);
      hide Settled;
      system.WakeFirst(receivers);
      r := Returns(EOK);
    }

    /** Storing the mail; the counter never overflows. */
    method Post(value: int) returns (ok: bool)
      requires Abs().Ok() && |pool| == size && entry != size
      modifies this`pool, this`inOffset, this`entry
      ensures ok && Abs().Ok() && |pool| == size && Abs().Mail() == old(Abs().Mail()) + [value]
    {
      Abs().PostedLast(value);
      pool := pool[inOffset := value];
      inOffset := inOffset + 1;
      if inOffset >= size {
        inOffset := 0;
      }
      if entry >= ENTRY_MAX {
        return false;
      }
      entry := entry + 1;
      ok := true;
    }

    /** A pass of rt_mb_recv. */
    method Recv(timeout: int, again: bool) returns (r: Outcome, mail: int)
      requires Valid() && (timeout != 0 ==> system.threads[system.cur].stat == Running)
      modifies this, system
      ensures Valid() && old(Valid())
      ensures var k, i := old(system.Abs()), PlaceOf(old(system.Abs()), receivers, byPrio);
              system.Abs() == Settled(k, RecvEffect(old(Abs()), receivers, senders, i, timeout != 0, again), timeout)
      ensures if old(entry) == 0 then Abs() == old(Abs()) && r == if timeout == 0 then Returns(-ETIMEOUT) else Blocks
              else r == Returns(EOK) && [mail] + Abs().Mail() == old(Abs().Mail())
    {
      hide Kernel.Ok, Box.Ok, FirstWoken, Blocked, BlockedAt, FirstResumed, Scheduled, WithError, PlaceOf;
      mail := 0;
      if entry == 0 {
        CurSane(system.Abs());
        if timeout == 0 {
          if again {
            system.SetError(system.cur, -ETIMEOUT);
          }
          return Returns(-ETIMEOUT), mail;
        }
        SettledQueues(system.Abs(), receivers, byPrio, timeout);
        hide Settled;
        system.Block(receivers, byPrio, timeout);
        return Blocks, mail;
      }
      mail := Fetch();
      SettledCalls(system.Abs(), senders, timeout);
      hide Settled;
      system.WakeFirst(senders);
      r := Returns(EOK);
    }

    /** Reading the oldest mail. */
    method Fetch() returns (mail: int)
      requires Abs().Ok() && |pool| == size && entry != 0
      modifies this`outOffset, this`entry
      ensures Abs().Ok() && [mail] + Abs().Mail() == old(Abs().Mail())
    {
      Abs().FetchedFirst();
      ghost var before := Abs().Mail();
      mail := pool[outOffset];
      outOffset := outOffset + 1;
      if outOffset >= size {
        outOffset := 0;
      }
      if entry > 0 {
        entry := entry - 1;
      }
      assert before == [before[0]] + before[1..];
    }
  }
}
