/**
 A memory pool object of the kernel.
 */
module MemPoolOps {
  import opened Threads
  import opened Scheduler
  import opened ThreadOps
  import opened GateWaits
  import opened MqSlots
  import opened MemPools
  import opened MemPoolRuns

  /** How many blocks there is room for: the pool is rounded down to words, a block up, with a word in front. */
  function BlockCount(size: int, blockSize: int): (n: nat)
    requires size > 0 && blockSize > 0
  {
    size / 4 * 4 / Stride(blockSize)
  }

  function Stride(blockSize: int): (n: int)
    requires blockSize > 0
    ensures n > 4
  {
    (blockSize + 3) / 4 * 4 + 4
  }

  /**
   rt_mp_init ends the free list at the last block.  Where it writes lies inside the pool exactly if
   there is room for a block; otherwise it lies in front of the pool.
   */
  lemma LastLink(size: int, blockSize: int)
    requires size > 0 && blockSize > 0
    ensures var at := (BlockCount(size, blockSize) - 1) * Stride(blockSize);
            && (0 <= at && at + 4 <= size <==> size / 4 * 4 >= Stride(blockSize))
            && (at < 0 <==> size / 4 * 4 < Stride(blockSize))
  {
    hide Stride;
    LastPlace(size / 4 * 4, Stride(blockSize));
  }

  lemma LastPlace(s: int, d: int)
    requires s >= 0 && d > 4
    ensures s / d >= 0
    ensures var at := (s / d - 1) * d; at < 0 <==> s < d
    ensures (s / d - 1) * d + d <= s
  {
    var q, r := s / d, s % d;
    assert s == d * q + r;
    Times(q, d);
  }

  lemma Times(q: int, d: int)
    requires d > 0
    ensures q * d == d * q && (q - 1) * d == q * d - d
    ensures if q >= 1 then q * d >= d else q * d <= 0
  {
  }

  /** A pool of eight bytes for blocks of eight: the list is ended twelve bytes in front of it. */
  lemma InFrontOfThePool()
    ensures (BlockCount(8, 8) - 1) * Stride(8) == -12
  {
    assert BlockCount(8, 8) == 0 && Stride(8) == 12;
  }

  class MemPool {
    const system: System
    const list: int // the wait list of the pool
    var header: seq<int>
    var first: int
    var count: int
    ghost var free: seq<int>

    ghost function Abs(): Blocks
      reads this
    {
      Blocks.Blocks(header, first, count, free)
    }

    /** The scheduler is sound and has the wait list of the pool. */
    ghost predicate Placed()
      reads system
    {
      system.Valid() && 0 <= list < |system.waits|
    }

    /** rt_mp_init of `size` bytes for blocks of `blockSize`, with room for at least one. */
    constructor (system: System, list: int, size: int, blockSize: int)
      requires size > 0 && blockSize > 0 && BlockCount(size, blockSize) > 0
      ensures Abs().Ok() && count == |header| == BlockCount(size, blockSize) && this.system == system && this.list == list
    {
      this.system, this.list := system, list;
      var blocks := BlockCount(size, blockSize);
      header, first, count, free := [], 0, blocks, [];
      new;
      while |header| < blocks
        modifies this`header
        invariant |header| <= blocks && forall b :: 0 <= b < |header| ==> header[b] == b + 1
      {
        header := header + [|header| + 1];
      }
      header := header[blocks - 1 := NULL];
      free := seq(blocks, b => b);
      UpChain(header, blocks, 0);
      assert free[0..] == free;
      forall b | 0 <= b < blocks
        ensures b in free
      {
        assert free[b] == b;
      }
    }

    /** A pass of rt_mp_alloc, by a thread or an interrupt: the block handed out; without one the thread waits or gives up. */
    method Alloc(time: int, thread: bool) returns (block: int, r: Outcome)
      requires Abs().Ok() && Placed() && (time != 0 ==> system.threads[system.cur].stat == Running)
      modifies this`header, this`first, this`count, this`free, system
      ensures old(Placed()) && Placed()
      ensures system.Abs() == Settled(old(system.Abs()), AllocEffect(old(count), list, time != 0, thread), time)
      ensures Abs().Ok() && (block == NULL <==> old(count) == 0)
      ensures block == NULL ==> Abs() == old(Abs()) && r == if time == 0 then Returns(-ETIMEOUT) else Outcome.Blocks
      ensures block != NULL ==> !old(Abs()).InUse(block) && forall b :: Abs().InUse(b) <==> old(Abs()).InUse(b) || b == block
      ensures block != NULL ==> |header| == |old(header)| && 0 <= block < |header| && header[block] == POOL
      ensures block != NULL ==> count == old(count) - 1 && block == old(first)
    {
      hide Kernel.Ok, BlockedAt, Scheduled, WithError;
      CurSane(system.Abs());
      r := Returns(EOK);
      if count == 0 {
        if time == 0 {
          if thread {
            system.SetError(system.cur, -ETIMEOUT);
          }
          return NULL, Returns(-ETIMEOUT);
        }
        system.BlockFront(list, time);
        return NULL, Outcome.Blocks;
      }
      Abs().AllocatedOk();
      count := count - 1;
      block := first;
      first := header[block];
      header := header[block := POOL];
      free := free[1..];
    }

    /** rt_mp_free: the block goes back, and the first waiting thread, its error cleared, is woken. */
    method Free(block: int)
      requires Abs().Ok() && Abs().InUse(block) && Placed()
      modifies this`header, this`first, this`count, this`free, system
      ensures old(Placed()) && Placed()
      ensures var k := old(system.Abs());
              if k.waits[list] == [] then system.Abs() == k
              else k.Has(k.waits[list][0]) && system.Abs() == FirstWoken(WithError(k, k.waits[list][0], EOK), list)
      ensures Abs().Ok() && count == old(count) + 1 && first == block && |header| == |old(header)|
      ensures forall b :: Abs().InUse(b) <==> old(Abs()).InUse(b) && b != block
    {
      hide Kernel.Ok, Scheduled, FirstWoken, WithError;
      Abs().FreedOk(block);
      count := count + 1;
      header := header[block := first];
      first := block;
      free := [block] + free;
      if system.waits[list] != [] {
        WaitersThere(system.Abs(), list);
        system.SetError(system.waits[list][0], EOK);
        system.WakeFirst(list);
      }
    }
  }
}
