/**
 A pool of memory blocks of one size, and the threads that wait for a block.
 */
module MemPools {
  import opened Lists
  import opened Gates
  import opened MqSlots

  /** What the header word of a block in use holds: the pool it goes back to. */
  const POOL: int := -2

  /** `header` is the first word of each block: the next free block, or the pool. `free` is the free list it forms. */
  datatype Blocks = Blocks(header: seq<int>, first: int, count: int, free: seq<int>) {

    ghost predicate Ok() {
      && Chain(header, first, free) && Distinct(free) && count == |free|
      && forall b :: 0 <= b < |header| && b !in free ==> header[b] == POOL
    }

    ghost predicate InUse(b: int) {
      0 <= b < |header| && b !in free
    }

    /** Taking the first free block. */
    ghost function Allocated(): Blocks
      requires 0 <= first < |header| && free != []
    {
      Blocks(header[first := POOL], header[first], count - 1, free[1..])
    }

    /** Giving a block back. */
    ghost function Freed(b: int): Blocks
      requires 0 <= b < |header|
    {
      Blocks(header[b := first], b, count + 1, [b] + free)
    }

    /** The block that is handed out was free; it is in use afterwards, and nothing else changes hands. */
    lemma AllocatedOk()
      requires Ok() && count != 0
      ensures free != [] && first == free[0] && 0 <= first < |header| && !InUse(first)
      ensures Allocated().Ok() && Allocated().count == count - 1
      ensures forall b :: Allocated().InUse(b) <==> InUse(b) || b == first
    {
      ChainMembers(header, first, free);
      assert free == [first] + free[1..];
      assert first in free;
      assert first !in free[1..];
      ChainFrame(header, header[first], free[1..], first, POOL);
    }

    /** A block in use knows its pool; giving it back makes it the only one to leave the hands it was in. */
    lemma FreedOk(b: int)
      requires Ok() && InUse(b)
      ensures header[b] == POOL
      ensures Freed(b).Ok() && Freed(b).count == count + 1
      ensures forall c :: Freed(b).InUse(c) <==> InUse(c) && c != b
    {
      ChainFrame(header, first, free, b, first);
      assert ([b] + free)[1..] == free;
    }
  }

  /** Where a thread is in rt_mp_alloc. */
  datatype Pc = Idle | Waiting | Woken

  datatype Mp = Mp(blocks: Blocks, gate: Gate, pcs: seq<Pc>) {

    predicate Has(t: int) {
      0 <= t < |pcs|
    }

    ghost predicate Ok() {
      && blocks.Ok() && gate.Ok() && gate.tokens == blocks.count
      && (forall t :: t in gate.waiting <==> Has(t) && pcs[t].Waiting?)
      && (forall t :: t in gate.woken <==> Has(t) && pcs[t].Woken?)
    }
  }

  /** A section of rt_mp_alloc; the latest thread to wait is the first to be woken. */
  ghost function AllocSection(s: Mp, t: int, wait: bool): Mp
    requires s.Ok() && s.Has(t) && t !in s.gate.waiting
  {
    if s.blocks.count == 0 then
      if !wait then s.(pcs := s.pcs[t := Idle], gate := s.gate.GiveUp(t))
      else s.(pcs := s.pcs[t := Waiting], gate := s.gate.Wait(t, 0))
    else
      s.blocks.AllocatedOk();
      s.(blocks := s.blocks.Allocated(), pcs := s.pcs[t := Idle], gate := s.gate.Take(t))
  }

  /** rt_mp_free, called by anybody. */
  ghost function FreeSection(s: Mp, b: int): Mp
    requires s.Ok() && s.blocks.InUse(b)
  {
    s.(blocks := s.blocks.Freed(b), gate := s.gate.Put(),
       pcs := if s.gate.waiting == [] then s.pcs else
              var u := s.gate.waiting[0];
              assert u in s.gate.waiting;
              s.pcs[u := Woken])
  }

  lemma AllocSectionOk(s: Mp, t: int, wait: bool)
    requires s.Ok() && s.Has(t) && !s.pcs[t].Waiting?
    ensures t !in s.gate.waiting && AllocSection(s, t, wait).Ok()
  {
    hide Gate.Ok, Inserted, Blocks.Ok;
    if s.blocks.count == 0 {
      InsertedMembers(s.gate.waiting, 0, t);
    } else {
      s.blocks.AllocatedOk();
    }
  }

  lemma FreeSectionOk(s: Mp, b: int)
    requires s.Ok() && s.blocks.InUse(b)
    ensures FreeSection(s, b).Ok()
  {
    hide Gate.Ok, Blocks.Ok;
    s.blocks.FreedOk(b);
    WakesFirst(s.gate);
  }

  // ----- runs -----

  datatype Step =
    | Alloc(t: int, wait: bool)
    | AllocAgain(t: int, wait: bool)
    | Free(b: int)
    | Expire(t: int)

  ghost predicate Enabled(s: Mp, st: Step) {
    match st
    case Alloc(t, _) => s.Has(t) && s.pcs[t].Idle?
    case AllocAgain(t, _) => s.Has(t) && s.pcs[t].Woken?
    case Free(b) => s.blocks.InUse(b)
    case Expire(t) => s.Has(t) && s.pcs[t].Waiting?
  }

  ghost function Next(s: Mp, st: Step): (r: Mp)
    requires s.Ok() && Enabled(s, st)
    ensures r.Ok()
  {
    match st
    case Alloc(t, wait) => AllocSectionOk(s, t, wait); AllocSection(s, t, wait)
    case AllocAgain(t, wait) => AllocSectionOk(s, t, wait); AllocSection(s, t, wait)
    case Free(b) => FreeSectionOk(s, b); FreeSection(s, b)
    case Expire(t) => s.(pcs := s.pcs[t := Idle], gate := s.gate.Expire(t))
  }

  /** rt_mp_init: the free list runs through all blocks in order. */
  ghost predicate Initial(s: Mp) {
    && s.blocks.Ok() && s.blocks.count == |s.blocks.header| && s.gate == Gate(s.blocks.count, [], {})
    && forall t :: 0 <= t < |s.pcs| ==> s.pcs[t] == Idle
  }

  ghost predicate StepAt(ss: seq<Mp>, steps: seq<Step>, i: int)
    requires 0 <= i < |steps| && |ss| == |steps| + 1
  {
    ss[i].Ok() ==> Enabled(ss[i], steps[i]) && ss[i + 1] == Next(ss[i], steps[i])
  }

  ghost predicate Run(ss: seq<Mp>, steps: seq<Step>) {
    |ss| == |steps| + 1 && Initial(ss[0]) && forall i :: 0 <= i < |steps| ==> StepAt(ss, steps, i)
  }

  ghost function Balance(ss: seq<Mp>, steps: seq<Step>, i: nat): int
    requires i <= |steps| < |ss|
  {
    if i == 0 then 0 else
    Balance(ss, steps, i - 1) + (if steps[i - 1].Free? then 1 else if Grants(ss[i - 1], steps[i - 1]) then -1 else 0)
  }

  ghost predicate Grants(s: Mp, st: Step) {
    (st.Alloc? || st.AllocAgain?) && s.blocks.count != 0
  }

  /**
   In every state of every run: while threads wait, every free block has a woken thread that will
   come for it; the count of free blocks is their number, all blocks less those granted plus those
   given back.
   */
  lemma {:induction false} RunOk(ss: seq<Mp>, steps: seq<Step>, i: nat)
    requires Run(ss, steps) && i <= |steps|
    ensures ss[i].Ok() && (ss[i].gate.waiting != [] ==> ss[i].blocks.count <= |ss[i].gate.woken|)
    ensures ss[i].blocks.count == |ss[i].blocks.free| == |ss[0].blocks.header| + Balance(ss, steps, i)
  {
    hide Chain;
    if i > 0 {
      hide Enabled;
      RunOk(ss, steps, i - 1);
      assert StepAt(ss, steps, i - 1);
    }
  }

  lemma {:induction false} UpChain(header: seq<int>, n: nat, i: nat)
    requires i < n == |header| && header[n - 1] == NULL
    requires forall b :: 0 <= b < n - 1 ==> header[b] == b + 1
    ensures Chain(header, i, seq(n, b => b)[i..])
    decreases n - i
  {
    var all := seq(n, b => b);
    if i < n - 1 {
      UpChain(header, n, i + 1);
      assert all[i..][1..] == all[i + 1..];
    } else {
      assert all[i..] == [i];
    }
  }
}
