/**
 A message queue object of the kernel: its locked sections and the copies between them.
 */
module MsgQueueOps {
  import opened Lists
  import opened Threads
  import opened Scheduler
  import opened ThreadOps
  import opened GateWaits
  import opened MqSlots
  import opened MsgQueues

  class MessageQueue {
    const system: System
    const receivers: int // the wait list of the receivers
    const senders: int   // and of the senders
    const byPrio: bool
    const width: nat     // the size of a message
    var next: seq<int>
    var head: int
    var tail: int
    var free: int
    var entry: int
    var pool: seq<seq<int>>

    ghost var queue: seq<int>
    ghost var freed: seq<int>

    ghost function Abs(): Slots
      reads this
    {
      Slots(next, head, tail, free, entry, queue, freed)
    }

    /** `held` are the slots in the hands of threads between two sections. */
    ghost predicate Valid(held: set<int>)
      reads this
    {
      Abs().Ok(held) && |pool| == |next| && forall i :: 0 <= i < |pool| ==> |pool[i]| == width
    }

    /** The scheduler is sound and has the wait lists of the queue. */
    ghost predicate Placed()
      reads system
    {
      system.Valid() && 0 <= receivers < |system.waits| && 0 <= senders < |system.waits|
    }

    /** rt_mq_init */
    constructor (system: System, receivers: int, senders: int, byPrio: bool, width: nat, slots: nat)
      requires slots <= ENTRY_MAX
      ensures Valid({}) && this.system == system && this.receivers == receivers && this.senders == senders
      ensures this.byPrio == byPrio && this.width == width && |next| == slots
      ensures queue == [] && freed == Down(slots) && forall i :: 0 <= i < slots ==> next[i] == i - 1
    {
      this.system, this.receivers, this.senders, this.byPrio, this.width := system, receivers, senders, byPrio, width;
      next, head, tail, free, entry, queue, freed := [], NULL, NULL, NULL, 0, [], Down(slots);
      pool := seq(slots, _ => seq(width, _ => 0));
      new;
      while |next| < slots
        modifies this`next, this`free
        invariant |next| <= slots && free == |next| - 1
        invariant forall i :: 0 <= i < |next| ==> next[i] == i - 1
      {
        next := next + [free];
        free := |next| - 1;
      }
      DownChain(next, slots);
      forall i | 0 <= i < slots
        ensures Abs().Home(i, {})
      {
        assert freed[slots - 1 - i] == i;
      }
    }

    /** The section in which a sender takes a free slot; if there is none, it waits or gives up. */
    method TakeFree(timeout: int, again: bool, ghost held: set<int>) returns (slot: int, r: Outcome)
      requires Valid(held) && Placed() && (timeout != 0 ==> system.threads[system.cur].stat == Running)
      modifies this`free, this`freed, system
      ensures old(Placed()) && Placed()
      ensures var k, i := old(system.Abs()), PlaceOf(old(system.Abs()), senders, byPrio);
              system.Abs() == Settled(k, TryEffect(old(free) == NULL, senders, i, timeout != 0, again, EOK), timeout)
      ensures slot == old(free)
      ensures slot == NULL <==> old(freed) == []
      ensures slot == NULL ==> Abs() == old(Abs()) && r == if timeout == 0 then Returns(-EFULL) else Blocks
      ensures slot != NULL ==> 0 <= slot < |next| && old(freed) != [] && slot !in held
      ensures slot != NULL ==> Abs() == old(Abs()).TakeFree() && Valid(held + {slot})
    {
      hide Kernel.Ok, Blocked, BlockedAt, Scheduled, WithError, PlaceOf;
      CurSane(system.Abs());
      ChainMembers(next, free, freed);
      slot := free;
      r := Returns(EOK);
      if slot == NULL {
        if timeout == 0 {
          if again {
            system.SetError(system.cur, EOK);
          }
          return slot, Returns(-EFULL);
        }
        SettledQueues(system.Abs(), senders, byPrio, timeout);
        hide Settled;
        system.Block(senders, byPrio, timeout);
        return slot, Blocks;
      }
      TakeFreeOk(Abs(), held);
      free := next[slot];
      freed := freed[1..];
    }

    /** rt_memcpy into a slot, its link cleared first unless the message is urgent. */
    method Fill(slot: int, msg: Msg, urgent: bool, ghost held: set<int>)
      requires Valid(held) && slot in held && |msg| <= width
      modifies this`next, this`pool
      ensures Valid(held) && Holds(pool, slot, msg)
      ensures next == if urgent then old(next) else old(next)[slot := NULL]
      ensures forall s :: 0 <= s < |pool| && s != slot ==> pool[s] == old(pool)[s]
    {
      ClearOk(Abs(), held, slot);
      if !urgent {
        next := next[slot := NULL];
      }
      var k := 0;
      while k < |msg|
        modifies this`pool
        invariant 0 <= k <= |msg| && Holds(pool, slot, msg[..k]) && |pool| == |old(pool)|
        invariant forall s :: 0 <= s < |pool| ==> |pool[s]| == width
        invariant forall s :: 0 <= s < |pool| && s != slot ==> pool[s] == old(pool)[s]
      {
        assert msg[..k + 1] == msg[..k] + [msg[k]];
        pool := pool[slot := pool[slot][k := msg[k]]];
        k := k + 1;
      }
      assert msg[..k] == msg;
    }

    /** The section in which a sender links its slot and wakes a receiver. */
    method Link(slot: int, urgent: bool, ghost held: set<int>) returns (r: Outcome)
      requires Valid(held) && slot in held && (!urgent ==> next[slot] == NULL) && Placed()
      modifies this`next, this`head, this`tail, this`entry, this`queue, system
      ensures old(Placed()) && Placed() && system.Abs() == FirstWoken(old(system.Abs()), receivers)
      ensures Valid(held - {slot}) && r == Returns(EOK) && entry == old(entry) + 1
      ensures 0 <= slot < |old(next)| && (old(tail) != NULL ==> 0 <= old(tail) < |old(next)|)
      ensures Abs() == if urgent then old(Abs()).LinkFirst(slot) else old(Abs()).LinkLast(slot)
    {
      hide Kernel.Ok, Scheduled, FirstWoken, Slots.Ok, Slots.LinkFirst, Slots.LinkLast;
      var ok := Attach(slot, urgent, held);
      if !ok {
        return Returns(-EFULL);
      }
      system.WakeFirst(receivers);
      r := Returns(EOK);
    }

    /** The slot goes to the end of the queue or, if urgent, to its front; the counter never overflows. */
    method Attach(slot: int, urgent: bool, ghost held: set<int>) returns (ok: bool)
      requires Valid(held) && slot in held && (!urgent ==> next[slot] == NULL)
      modifies this`next, this`head, this`tail, this`entry, this`queue
      ensures Valid(held - {slot}) && ok && entry == old(entry) + 1
      ensures 0 <= slot < |old(next)| && (old(tail) != NULL ==> 0 <= old(tail) < |old(next)|)
      ensures Abs() == if urgent then old(Abs()).LinkFirst(slot) else old(Abs()).LinkLast(slot)
    {
      QueueShort(Abs(), held, slot);
      ChainMembers(next, head, queue);
      if urgent {
        LinkFirstOk(Abs(), held, slot);
        next := next[slot := head];
        head := slot;
        if tail == NULL {
          tail := slot;
        }
        queue := [slot] + queue;
      } else {
        LinkLastOk(Abs(), held, slot);
        if tail != NULL {
          next := next[tail := slot];
        }
        tail := slot;
        if head == NULL {
          head := slot;
        }
        queue := queue + [slot];
      }
      ok := entry < ENTRY_MAX;
      if ok {
        entry := entry + 1;
      }
    }

    /** The section in which a receiver takes the first message; if there is none, it waits or gives up. */
    method TakeFirst(timeout: int, again: bool, ghost held: set<int>) returns (slot: int, r: Outcome)
      requires Valid(held) && Placed() && (timeout != 0 ==> system.threads[system.cur].stat == Running)
      modifies this`head, this`tail, this`entry, this`queue, system
      ensures old(Placed()) && Placed()
      ensures var k, i := old(system.Abs()), PlaceOf(old(system.Abs()), receivers, byPrio);
              system.Abs() == Settled(k, TryEffect(old(entry) == 0, receivers, i, timeout != 0, again, -ETIMEOUT), timeout)
      ensures slot == NULL <==> old(entry) == 0
      ensures slot == NULL ==> Abs() == old(Abs()) && r == if timeout == 0 then Returns(-ETIMEOUT) else Blocks
      ensures slot != NULL ==> old(queue) != [] && slot == old(queue)[0] == old(head) && 0 <= slot < |next| && slot !in held
      ensures slot != NULL ==> Abs() == old(Abs()).TakeFirst() && Valid(held + {slot})
    {
      hide Kernel.Ok, Blocked, BlockedAt, Scheduled, WithError, PlaceOf;
      CurSane(system.Abs());
      r := Returns(EOK);
      if entry == 0 {
        if timeout == 0 {
          if again {
            system.SetError(system.cur, -ETIMEOUT);
          }
          return NULL, Returns(-ETIMEOUT);
        }
        SettledQueues(system.Abs(), receivers, byPrio, timeout);
        hide Settled;
        system.Block(receivers, byPrio, timeout);
        return NULL, Blocks;
      }
      TakeFirstOk(Abs(), held);
      slot := head;
      head := next[slot];
      if tail == slot {
        tail := NULL;
      }
      if entry > 0 {
        entry := entry - 1;
      }
      queue := queue[1..];
    }

    /** rt_memcpy out of a slot. */
    method Copy(slot: int, size: nat, ghost held: set<int>) returns (buffer: Msg)
      requires Valid(held) && slot in held
      ensures 0 <= slot < |pool| && buffer == pool[slot][..Min(size, width)]
    {
      buffer := [];
      var n := if size > width then width else size;
      while |buffer| < n
        invariant |buffer| <= n && buffer == pool[slot][..|buffer|]
      {
        buffer := buffer + [pool[slot][|buffer|]];
      }
    }

    /** The section in which a receiver gives its slot back and wakes a sender. */
    method GiveBack(slot: int, ghost held: set<int>)
      requires Valid(held) && slot in held && Placed()
      modifies this`next, this`free, this`freed, system
      ensures old(Placed()) && Placed() && system.Abs() == FirstWoken(old(system.Abs()), senders)
      ensures Valid(held - {slot}) && 0 <= slot < |old(next)| && Abs() == old(Abs()).GiveBack(slot)
    {
      hide Kernel.Ok, Scheduled, FirstWoken;
      GiveBackOk(Abs(), held, slot);
      next := next[slot := free];
      free := slot;
      freed := [slot] + freed;
      system.WakeFirst(senders);
    }
  }
}
