/**
 A message queue shared by any number of threads and interrupts.  Its operations are short locked
 sections and, between them, copies that run unlocked, byte by byte; all of these interleave.
 */
module MsgQueues {
  import opened Lists
  import opened Gates
  import opened MqSlots

  type Msg = seq<int>

  /** Where a thread is in rt_mq_send_wait, rt_mq_urgent or rt_mq_recv. */
  datatype Pc =
    | Idle
    | SendWait(msg: Msg)
    | SendWoken(msg: Msg)
    | SendTaken(slot: int, msg: Msg)
    | SendCopy(slot: int, msg: Msg, urgent: bool, done: int)
    | RecvWait(size: int)
    | RecvWoken(size: int)
    | RecvCopy(slot: int, size: int, msg: Msg, got: Msg)

  /** The slot in the hands of a thread. */
  function SlotOf(pc: Pc): int {
    match pc
    case SendTaken(slot, _) => slot
    case SendCopy(slot, _, _, _) => slot
    case RecvCopy(slot, _, _, _) => slot
    case _ => NULL
  }

  /** `pool` is the bytes of each slot; `deque`, which the kernel does not store, the messages queued. */
  datatype Mq = Mq(slots: Slots, pool: seq<seq<int>>, width: int, receivers: Gate, senders: Gate, pcs: seq<Pc>, deque: seq<Msg>)
  {
    predicate Has(t: int) {
      0 <= t < |pcs|
    }

    /** The slots in the hands of threads. */
    ghost function Held(): set<int> {
      HeldBy(pcs)
    }

    /** Every slot is free, queued, or in the hands of exactly one thread; the lists are linked as they should be. */
    ghost predicate SlotsOk() {
      && slots.Ok(Held())
      && Exclusive(pcs)
      && NextCleared(slots.next, pcs)
    }

    /** Each queued slot holds its message, and so does each slot being copied, as far as the copy got. */
    ghost predicate DataOk() {
      && width >= 0 && |pool| == |slots.next| && |deque| == |slots.queue|
      && (forall s :: 0 <= s < |pool| ==> |pool[s]| == width)
      && (forall i :: 0 <= i < |deque| ==> Holds(pool, slots.queue[i], deque[i]))
      && (forall t :: 0 <= t < |pcs| ==> PcData(pool, width, pcs[t]))
    }

    ghost predicate GatesOk() {
      && receivers.Ok() && senders.Ok()
      && receivers.tokens == slots.entry && senders.tokens == |slots.freed|
      && (forall t :: t in receivers.waiting <==> Has(t) && pcs[t].RecvWait?)
      && (forall t :: t in receivers.woken <==> Has(t) && pcs[t].RecvWoken?)
      && (forall t :: t in senders.waiting <==> Has(t) && pcs[t].SendWait?)
      && (forall t :: t in senders.woken <==> Has(t) && pcs[t].SendWoken?)
    }

    ghost predicate Ok() {
      SlotsOk() && DataOk() && GatesOk()
    }
  }

  /** No slot is in the hands of two threads. */
  ghost predicate Exclusive(pcs: seq<Pc>) {
    forall t, u :: 0 <= t < u < |pcs| && SlotOf(pcs[t]) != NULL ==> SlotOf(pcs[t]) != SlotOf(pcs[u])
  }

  ghost function HeldBy(pcs: seq<Pc>): set<int> {
    set t | 0 <= t < |pcs| && SlotOf(pcs[t]) != NULL :: SlotOf(pcs[t])
  }

  /** The slot starts with the message. */
  ghost predicate Holds(pool: seq<seq<int>>, s: int, msg: Msg) {
    0 <= s < |pool| && |msg| <= |pool[s]| && pool[s][..|msg|] == msg
  }

  ghost predicate PcData(pool: seq<seq<int>>, width: int, pc: Pc) {
    match pc
    case SendWait(msg) => |msg| <= width
    case SendWoken(msg) => |msg| <= width
    case SendTaken(slot, msg) => |msg| <= width && 0 <= slot < |pool|
    case SendCopy(slot, msg, _, done) => 0 <= done <= |msg| <= width && Holds(pool, slot, msg[..done])
    case RecvCopy(slot, size, msg, got) => size > 0 && |got| <= Min(size, width) && Holds(pool, slot, msg) && Holds(pool, slot, got)
    case RecvWait(size) => size > 0
    case RecvWoken(size) => size > 0
    case Idle => true
  }

  /** A thread takes a slot into its hands, lets go of one, or keeps what it has. */
  lemma HeldChanges(pcs: seq<Pc>, t: int, pc: Pc)
    requires 0 <= t < |pcs|
    requires Exclusive(pcs)
    requires SlotOf(pc) == NULL || SlotOf(pc) == SlotOf(pcs[t]) || SlotOf(pc) !in HeldBy(pcs)
    ensures HeldBy(pcs[t := pc]) == HeldBy(pcs) - {SlotOf(pcs[t])} + (if SlotOf(pc) == NULL then {} else {SlotOf(pc)})
    ensures Exclusive(pcs[t := pc])
  {
    var p := pcs[t := pc];
    forall s | s in HeldBy(pcs) - {SlotOf(pcs[t])}
      ensures s in HeldBy(p)
    {
      var u :| 0 <= u < |pcs| && SlotOf(pcs[u]) == s;
      assert SlotOf(p[u]) == s;
    }
    forall s | s in HeldBy(p) && s != SlotOf(pc)
      ensures s in HeldBy(pcs) && s != SlotOf(pcs[t])
    {
      var u :| 0 <= u < |p| && SlotOf(p[u]) == s;
      assert u != t && SlotOf(pcs[u]) == s;
    }
    assert SlotOf(pc) != NULL ==> SlotOf(p[t]) in HeldBy(p);
    forall a, b | 0 <= a < b < |p| && SlotOf(p[a]) != NULL
      ensures SlotOf(p[a]) != SlotOf(p[b])
    {
      assert a != t ==> SlotOf(pcs[a]) in HeldBy(pcs);
      assert b != t && SlotOf(pcs[b]) != NULL ==> SlotOf(pcs[b]) in HeldBy(pcs);
    }
  }

  lemma Holding(s: Mq, t: int)
    requires s.Has(t) && SlotOf(s.pcs[t]) != NULL
    ensures SlotOf(s.pcs[t]) in s.Held()
  {
  }

  // ----- the locked sections and the copies -----

  /** The first section of a send, or the next after the sender was woken. */
  ghost function SendSection(s: Mq, t: int, msg: Msg, urgent: bool, wait: bool, i: int): Mq
    requires s.Ok() && s.Has(t) && t !in s.senders.waiting && 0 <= i <= |s.senders.waiting|
  {
    FreeTokens(s);
    if s.slots.free == NULL then
      if !wait then s.(pcs := s.pcs[t := Idle], senders := s.senders.GiveUp(t))
      else s.(pcs := s.pcs[t := SendWait(msg)], senders := s.senders.Wait(t, i))
    else
      var slot := s.slots.free;
      s.(pcs := s.pcs[t := if urgent then SendCopy(slot, msg, true, 0) else SendTaken(slot, msg)],
         slots := s.slots.TakeFree(), senders := s.senders.Take(t))
  }

  lemma FreeTokens(s: Mq)
    requires s.Ok()
    ensures s.slots.free == NULL <==> s.senders.tokens == 0
    ensures s.slots.entry >= 0
    ensures s.slots.free != NULL ==> 0 <= s.slots.free < |s.slots.next| && s.slots.freed != []
    ensures s.slots.entry != 0 ==> 0 <= s.slots.head < |s.slots.next| && s.slots.queue != [] && s.slots.head == s.slots.queue[0]
  {
    ChainMembers(s.slots.next, s.slots.free, s.slots.freed);
    ChainMembers(s.slots.next, s.slots.head, s.slots.queue);
  }

  /** Unlocked: the sender clears the link of its slot. */
  ghost function Cleared(s: Mq, t: int): Mq
    requires s.Ok() && s.Has(t) && s.pcs[t].SendTaken?
  {
    Holding(s, t);
    var slot := s.pcs[t].slot;
    s.(pcs := s.pcs[t := SendCopy(slot, s.pcs[t].msg, false, 0)],
       slots := s.slots.(next := s.slots.next[slot := NULL]))
  }

  /** Unlocked: the sender copies a byte into its slot. */
  ghost function CopiedIn(s: Mq, t: int): Mq
    requires s.Ok() && s.Has(t) && s.pcs[t].SendCopy? && s.pcs[t].done < |s.pcs[t].msg|
  {
    var pc := s.pcs[t];
    assert PcData(s.pool, s.width, pc);
    s.(pcs := s.pcs[t := pc.(done := pc.done + 1)],
       pool := s.pool[pc.slot := s.pool[pc.slot][pc.done := pc.msg[pc.done]]])
  }

  /** The last section of a send: the slot is linked and a receiver woken. */
  ghost function Linked(s: Mq, t: int): Mq
    requires s.Ok() && s.Has(t) && s.pcs[t].SendCopy? && s.pcs[t].done == |s.pcs[t].msg|
  {
    Holding(s, t);
    ChainMembers(s.slots.next, s.slots.head, s.slots.queue);
    var pc := s.pcs[t];
    var pcs := s.pcs[t := Idle];
    s.(slots := if pc.urgent then s.slots.LinkFirst(pc.slot) else s.slots.LinkLast(pc.slot),
       deque := if pc.urgent then [pc.msg] + s.deque else s.deque + [pc.msg],
       pcs := WokenReceiver(s, pcs), receivers := s.receivers.Put())
  }

  ghost function WokenReceiver(s: Mq, pcs: seq<Pc>): seq<Pc>
    requires s.Ok() && |pcs| == |s.pcs|
  {
    if s.receivers.waiting == [] then pcs else
    var u := s.receivers.waiting[0];
    assert u in s.receivers.waiting;
    pcs[u := RecvWoken(s.pcs[u].size)]
  }

  /** The first section of a receive, or the next after the receiver was woken. */
  ghost function RecvSection(s: Mq, t: int, size: int, wait: bool, i: int): Mq
    requires s.Ok() && s.Has(t) && t !in s.receivers.waiting && 0 <= i <= |s.receivers.waiting| && size > 0
  {
    if s.slots.entry == 0 then
      if !wait then s.(pcs := s.pcs[t := Idle], receivers := s.receivers.GiveUp(t))
      else s.(pcs := s.pcs[t := RecvWait(size)], receivers := s.receivers.Wait(t, i))
    else
      FreeTokens(s);
      s.(pcs := s.pcs[t := RecvCopy(s.slots.head, size, s.deque[0], [])],
         slots := s.slots.TakeFirst(), deque := s.deque[1..], receivers := s.receivers.Take(t))
  }

  /** Unlocked: the receiver copies a byte out of its slot. */
  ghost function CopiedOut(s: Mq, t: int): Mq
    requires s.Ok() && s.Has(t) && s.pcs[t].RecvCopy? && |s.pcs[t].got| < Min(s.pcs[t].size, s.width)
  {
    var pc := s.pcs[t];
    assert PcData(s.pool, s.width, pc);
    s.(pcs := s.pcs[t := pc.(got := pc.got + [s.pool[pc.slot][|pc.got|]])])
  }

  /** The last section of a receive: the slot is free again and a sender woken. */
  ghost function Finished(s: Mq, t: int): Mq
    requires s.Ok() && s.Has(t) && s.pcs[t].RecvCopy? && |s.pcs[t].got| == Min(s.pcs[t].size, s.width)
  {
    Holding(s, t);
    s.(slots := s.slots.GiveBack(s.pcs[t].slot), pcs := WokenSender(s, s.pcs[t := Idle]), senders := s.senders.Put())
  }

  ghost function WokenSender(s: Mq, pcs: seq<Pc>): seq<Pc>
    requires s.Ok() && |pcs| == |s.pcs|
  {
    if s.senders.waiting == [] then pcs else
    var u := s.senders.waiting[0];
    assert u in s.senders.waiting;
    pcs[u := SendWoken(s.pcs[u].msg)]
  }

  /** The time of a waiting thread runs out; it will return. */
  ghost function Expired(s: Mq, t: int): Mq
    requires s.Ok() && s.Has(t) && (s.pcs[t].RecvWait? || s.pcs[t].SendWait?)
  {
    if s.pcs[t].RecvWait? then s.(pcs := s.pcs[t := Idle], receivers := s.receivers.Expire(t))
    else s.(pcs := s.pcs[t := Idle], senders := s.senders.Expire(t))
  }

  // ----- the slots -----

  lemma HeldSame(pcs: seq<Pc>, t: int, pc: Pc)
    requires 0 <= t < |pcs| && SlotOf(pc) == SlotOf(pcs[t]) && Exclusive(pcs)
    ensures HeldBy(pcs[t := pc]) == HeldBy(pcs) && Exclusive(pcs[t := pc])
  {
    HeldChanges(pcs, t, pc);
    assert SlotOf(pcs[t]) != NULL ==> SlotOf(pcs[t]) in HeldBy(pcs);
    assert NULL !in HeldBy(pcs);
  }

  ghost predicate NextCleared(next: seq<int>, pcs: seq<Pc>) {
    forall t :: 0 <= t < |pcs| ==>
      (pcs[t].SendCopy? && !pcs[t].urgent ==> 0 <= pcs[t].slot < |next| && next[pcs[t].slot] == NULL)
  }

  lemma TakesFree(s: Mq, t: int, pc: Pc)
    requires s.SlotsOk() && s.Has(t) && SlotOf(s.pcs[t]) == NULL && s.slots.free != NULL
    requires SlotOf(pc) == s.slots.free && (pc.SendCopy? ==> pc.urgent)
    ensures s.slots.freed != [] && 0 <= s.slots.free < |s.slots.next|
    ensures s.(pcs := s.pcs[t := pc], slots := s.slots.TakeFree()).SlotsOk()
  {
    TakeFreeOk(s.slots, s.Held());
    HeldChanges(s.pcs, t, pc);
    assert NULL !in s.Held();
    assert s.Held() - {SlotOf(s.pcs[t])} + {s.slots.free} == s.Held() + {s.slots.free};
    hide Slots.Ok, Exclusive, HeldBy;
  }

  lemma TakesFirst(s: Mq, t: int, pc: Pc)
    requires s.SlotsOk() && s.Has(t) && SlotOf(s.pcs[t]) == NULL && s.slots.entry != 0
    requires SlotOf(pc) == s.slots.head && pc.RecvCopy?
    ensures s.slots.queue != [] && 0 <= s.slots.head < |s.slots.next| && s.slots.head == s.slots.queue[0]
    ensures s.(pcs := s.pcs[t := pc], slots := s.slots.TakeFirst()).SlotsOk()
  {
    TakeFirstOk(s.slots, s.Held());
    HeldChanges(s.pcs, t, pc);
    assert NULL !in s.Held();
    assert s.Held() - {SlotOf(s.pcs[t])} + {s.slots.head} == s.Held() + {s.slots.head};
    hide Slots.Ok, Exclusive, HeldBy;
  }

  lemma Clears(s: Mq, t: int)
    requires s.Ok() && s.Has(t) && s.pcs[t].SendTaken?
    ensures Cleared(s, t).SlotsOk()
  {
    Holding(s, t);
    var slot := s.pcs[t].slot;
    var pc := SendCopy(slot, s.pcs[t].msg, false, 0);
    ClearOk(s.slots, s.Held(), slot);
    HeldSame(s.pcs, t, pc);
    hide Slots.Ok, HeldBy, Mq.DataOk, Mq.GatesOk;
  }

  /** Letting go of a slot: the other threads' slots keep their links, unless they are linked to. */
  lemma LetsGo(s: Mq, t: int)
    requires s.SlotsOk() && s.Has(t) && SlotOf(s.pcs[t]) != NULL
    ensures HeldBy(s.pcs[t := Idle]) == s.Held() - {SlotOf(s.pcs[t])} && Exclusive(s.pcs[t := Idle])
    ensures SlotOf(s.pcs[t]) in s.Held() && 0 <= SlotOf(s.pcs[t]) < |s.slots.next|
    ensures SlotOf(s.pcs[t]) !in s.slots.queue && SlotOf(s.pcs[t]) !in s.slots.freed
    ensures forall u :: 0 <= u < |s.pcs| && u != t && SlotOf(s.pcs[u]) != NULL ==>
      SlotOf(s.pcs[u]) != SlotOf(s.pcs[t]) && SlotOf(s.pcs[u]) !in s.slots.queue
  {
    var h := SlotOf(s.pcs[t]);
    HeldChanges(s.pcs, t, Idle);
    assert h in s.Held();
    assert s.slots.Home(h, s.Held());
    forall u | 0 <= u < |s.pcs| && u != t && SlotOf(s.pcs[u]) != NULL
      ensures SlotOf(s.pcs[u]) != h && SlotOf(s.pcs[u]) !in s.slots.queue
    {
      assert SlotOf(s.pcs[u]) in s.Held();
      assert s.slots.Home(SlotOf(s.pcs[u]), s.Held());
    }
  }

  lemma Links(s: Mq, t: int)
    requires s.SlotsOk() && s.Has(t) && s.pcs[t].SendCopy? && SlotOf(s.pcs[t]) != NULL
    ensures 0 <= s.pcs[t].slot < |s.slots.next| && (s.slots.tail != NULL ==> 0 <= s.slots.tail < |s.slots.next|)
    ensures var slots := if s.pcs[t].urgent then s.slots.LinkFirst(s.pcs[t].slot) else s.slots.LinkLast(s.pcs[t].slot);
            s.(pcs := s.pcs[t := Idle], slots := slots).SlotsOk() && slots.entry == s.slots.entry + 1
  {
    var pc := s.pcs[t];
    LetsGo(s, t);
    ChainMembers(s.slots.next, s.slots.head, s.slots.queue);
    assert s.slots.tail != NULL ==> s.slots.tail in s.slots.queue;
    if pc.urgent {
      LinkFirstOk(s.slots, s.Held(), pc.slot);
    } else {
      LinkLastOk(s.slots, s.Held(), pc.slot);
    }
    hide Slots.Ok, Exclusive, HeldBy;
  }

  lemma GivesBack(s: Mq, t: int)
    requires s.SlotsOk() && s.Has(t) && s.pcs[t].RecvCopy? && SlotOf(s.pcs[t]) != NULL
    ensures 0 <= s.pcs[t].slot < |s.slots.next|
    ensures s.(pcs := s.pcs[t := Idle], slots := s.slots.GiveBack(s.pcs[t].slot)).SlotsOk()
  {
    LetsGo(s, t);
    GiveBackOk(s.slots, s.Held(), s.pcs[t].slot);
    hide Slots.Ok, Exclusive, HeldBy;
  }

  /** A thread that changes without touching a slot. */
  lemma SlotsSame(s: Mq, t: int, pc: Pc)
    requires s.SlotsOk() && s.Has(t) && SlotOf(pc) == SlotOf(s.pcs[t])
    requires pc.SendCopy? ==> s.pcs[t].SendCopy? && pc.urgent == s.pcs[t].urgent
    ensures s.(pcs := s.pcs[t := pc]).SlotsOk()
  {
    HeldSame(s.pcs, t, pc);
    hide Slots.Ok, Exclusive, HeldBy;
  }

  // ----- the steps -----

  lemma SendSectionOk(s: Mq, t: int, msg: Msg, urgent: bool, wait: bool, i: int)
    requires s.Ok() && s.Has(t) && (s.pcs[t].Idle? || s.pcs[t].SendWoken?) && |msg| <= s.width && (urgent ==> !wait)
    requires 0 <= i <= |s.senders.waiting|
    ensures t !in s.senders.waiting && SendSection(s, t, msg, urgent, wait, i).Ok()
  {
    hide Slots.Ok, Gate.Ok, Exclusive, HeldBy, Chain;
    FreeTokens(s);
    var r := SendSection(s, t, msg, urgent, wait, i);
    if s.slots.free == NULL {
      SlotsSame(s, t, r.pcs[t]);
      if wait {
        InsertedMembers(s.senders.waiting, i, t);
      }
    } else {
      TakesFree(s, t, r.pcs[t]);
    }
    hide Mq.SlotsOk, Inserted;
  }

  lemma ClearedOk(s: Mq, t: int)
    requires s.Ok() && s.Has(t) && s.pcs[t].SendTaken?
    ensures Cleared(s, t).Ok()
  {
    Clears(s, t);
    hide Slots.Ok, Gate.Ok, Exclusive, HeldBy, Chain, Mq.SlotsOk;
    assert PcData(s.pool, s.width, s.pcs[t]);
  }

  lemma CopiedInOk(s: Mq, t: int)
    requires s.Ok() && s.Has(t) && s.pcs[t].SendCopy? && s.pcs[t].done < |s.pcs[t].msg|
    ensures CopiedIn(s, t).Ok()
  {
    hide Slots.Ok, Gate.Ok, Exclusive, HeldBy, Chain;
    var pc, r := s.pcs[t], CopiedIn(s, t);
    assert PcData(s.pool, s.width, pc);
    LetsGo(s, t);
    SlotsSame(s, t, r.pcs[t]);
    hide Mq.SlotsOk, Mq.GatesOk;
    assert pc.msg[..pc.done + 1] == pc.msg[..pc.done] + [pc.msg[pc.done]];
    assert Holds(r.pool, pc.slot, pc.msg[..pc.done + 1]);
    forall u | 0 <= u < |s.pcs| && u != t
      ensures PcData(r.pool, r.width, r.pcs[u])
    {
      assert PcData(s.pool, s.width, s.pcs[u]);
    }
    forall j | 0 <= j < |s.deque|
      ensures Holds(r.pool, r.slots.queue[j], r.deque[j])
    {
      assert s.slots.queue[j] in s.slots.queue;
    }
    CopiedInGates(s, t);
  }

  lemma CopiedInGates(s: Mq, t: int)
    requires s.Ok() && s.Has(t) && s.pcs[t].SendCopy? && s.pcs[t].done < |s.pcs[t].msg|
    ensures CopiedIn(s, t).GatesOk()
  {
    hide Slots.Ok, Gate.Ok, Exclusive, HeldBy, Chain, Mq.SlotsOk;
  }

  lemma LinkedOk(s: Mq, t: int)
    requires s.Ok() && s.Has(t) && s.pcs[t].SendCopy? && s.pcs[t].done == |s.pcs[t].msg|
    ensures Linked(s, t).Ok()
  {
    hide Slots.Ok, Exclusive, HeldBy, Chain;
    var pc, r := s.pcs[t], Linked(s, t);
    assert PcData(s.pool, s.width, pc);
    assert pc.msg[..pc.done] == pc.msg;
    Links(s, t);
    var s1 := s.(pcs := s.pcs[t := Idle], slots := r.slots);
    assert s.receivers.waiting != [] ==> s.receivers.waiting[0] in s.receivers.waiting && s.receivers.waiting[0] != t;
    if s.receivers.waiting != [] {
      SlotsSame(s1, s.receivers.waiting[0], r.pcs[s.receivers.waiting[0]]);
    }
    LinkedGates(s, t);
    LinkedData(s, t);
    assert r.SlotsOk();
    hide Mq.SlotsOk, Mq.GatesOk, Mq.DataOk;
  }

  lemma LinkedData(s: Mq, t: int)
    requires s.Ok() && s.Has(t) && s.pcs[t].SendCopy? && s.pcs[t].done == |s.pcs[t].msg|
    ensures Linked(s, t).DataOk()
  {
    hide Slots.Ok, Exclusive, HeldBy, Chain, Mq.SlotsOk, Gate.Ok;
    var pc, r := s.pcs[t], Linked(s, t);
    assert PcData(s.pool, s.width, pc);
    Links(s, t);
    assert pc.msg[..pc.done] == pc.msg;
    forall u | 0 <= u < |r.pcs|
      ensures PcData(r.pool, r.width, r.pcs[u])
    {
      assert PcData(s.pool, s.width, s.pcs[u]);
    }
    forall j | 0 <= j < |r.deque|
      ensures Holds(r.pool, r.slots.queue[j], r.deque[j])
    {
      var i := if pc.urgent then j - 1 else j;
      if 0 <= i < |s.deque| {
        assert Holds(s.pool, s.slots.queue[i], s.deque[i]);
      }
    }
  }

  lemma LinkedGates(s: Mq, t: int)
    requires s.Ok() && s.Has(t) && s.pcs[t].SendCopy? && s.pcs[t].done == |s.pcs[t].msg|
    requires Linked(s, t).slots.entry == s.slots.entry + 1
    ensures Linked(s, t).GatesOk()
  {
    hide Slots.Ok, Exclusive, HeldBy, Chain, Mq.SlotsOk, Mq.DataOk;
    WakesFirst(s.receivers);
  }

  lemma RecvSectionOk(s: Mq, t: int, size: int, wait: bool, i: int)
    requires s.Ok() && s.Has(t) && (s.pcs[t].Idle? || s.pcs[t].RecvWoken?) && size > 0
    requires 0 <= i <= |s.receivers.waiting|
    ensures t !in s.receivers.waiting && RecvSection(s, t, size, wait, i).Ok()
  {
    hide Slots.Ok, Gate.Ok, Exclusive, HeldBy, Chain;
    FreeTokens(s);
    var r := RecvSection(s, t, size, wait, i);
    if s.slots.entry == 0 {
      SlotsSame(s, t, r.pcs[t]);
      if wait {
        InsertedMembers(s.receivers.waiting, i, t);
      }
    } else {
      TakesFirst(s, t, r.pcs[t]);
      assert Holds(s.pool, s.slots.queue[0], s.deque[0]);
      forall j | 0 <= j < |r.deque|
        ensures Holds(r.pool, r.slots.queue[j], r.deque[j])
      {
        assert Holds(s.pool, s.slots.queue[j + 1], s.deque[j + 1]);
      }
    }
    hide Mq.SlotsOk, Inserted;
  }

  lemma CopiedOutOk(s: Mq, t: int)
    requires s.Ok() && s.Has(t) && s.pcs[t].RecvCopy? && |s.pcs[t].got| < Min(s.pcs[t].size, s.width)
    ensures CopiedOut(s, t).Ok()
  {
    hide Slots.Ok, Gate.Ok, Exclusive, HeldBy, Chain;
    var pc, r := s.pcs[t], CopiedOut(s, t);
    assert PcData(s.pool, s.width, pc);
    SlotsSame(s, t, r.pcs[t]);
    hide Mq.SlotsOk;
    assert Holds(r.pool, pc.slot, r.pcs[t].got);
  }

  lemma FinishedOk(s: Mq, t: int)
    requires s.Ok() && s.Has(t) && s.pcs[t].RecvCopy? && |s.pcs[t].got| == Min(s.pcs[t].size, s.width)
    ensures Finished(s, t).Ok()
  {
    hide Slots.Ok, Exclusive, HeldBy, Chain;
    var pc, r := s.pcs[t], Finished(s, t);
    assert PcData(s.pool, s.width, pc);
    GivesBack(s, t);
    var s1 := s.(pcs := s.pcs[t := Idle], slots := r.slots);
    WakesFirst(s.senders);
    assert s.senders.waiting != [] ==> s.senders.waiting[0] in s.senders.waiting && s.senders.waiting[0] != t;
    if s.senders.waiting != [] {
      SlotsSame(s1, s.senders.waiting[0], r.pcs[s.senders.waiting[0]]);
    }
    FinishedRest(s, t);
    assert r.SlotsOk();
    hide Mq.SlotsOk, Mq.GatesOk, Mq.DataOk;
  }

  lemma FinishedRest(s: Mq, t: int)
    requires s.Ok() && s.Has(t) && s.pcs[t].RecvCopy? && |s.pcs[t].got| == Min(s.pcs[t].size, s.width)
    ensures Finished(s, t).DataOk() && Finished(s, t).GatesOk()
  {
    hide Slots.Ok, Exclusive, HeldBy, Chain, Mq.SlotsOk;
    var pc, r := s.pcs[t], Finished(s, t);
    WakesFirst(s.senders);
    forall u | 0 <= u < |r.pcs|
      ensures PcData(r.pool, r.width, r.pcs[u])
    {
      assert PcData(s.pool, s.width, s.pcs[u]);
    }
  }

  lemma ExpiredOk(s: Mq, t: int)
    requires s.Ok() && s.Has(t) && (s.pcs[t].RecvWait? || s.pcs[t].SendWait?)
    ensures Expired(s, t).Ok()
  {
    hide Slots.Ok, Gate.Ok, Exclusive, HeldBy, Chain, Del;
    SlotsSame(s, t, Idle);
    hide Mq.SlotsOk;
  }

  // ----- runs -----

  /** A section or a copied byte of thread `t`, or the end of its waiting time. */
  datatype Step =
    | Send(t: int, msg: Msg, urgent: bool, wait: bool, i: int)
    | SendAgain(t: int, wait: bool, i: int)
    | Clear(t: int)
    | CopyIn(t: int)
    | Link(t: int)
    | Recv(t: int, size: int, wait: bool, i: int)
    | RecvAgain(t: int, wait: bool, i: int)
    | CopyOut(t: int)
    | Finish(t: int)
    | Expire(t: int)

  /** A message longer than a slot is refused at once; an urgent send never waits. */
  ghost predicate Enabled(s: Mq, st: Step) {
    && s.Has(st.t)
    && var pc := s.pcs[st.t];
    match st
    case Send(t, msg, urgent, wait, i) => pc.Idle? && (urgent ==> !wait) && 0 <= i <= |s.senders.waiting|
    case SendAgain(t, wait, i) => pc.SendWoken? && 0 <= i <= |s.senders.waiting|
    case Clear(t) => pc.SendTaken?
    case CopyIn(t) => pc.SendCopy? && pc.done < |pc.msg|
    case Link(t) => pc.SendCopy? && pc.done == |pc.msg|
    case Recv(t, size, wait, i) => pc.Idle? && size > 0 && 0 <= i <= |s.receivers.waiting|
    case RecvAgain(t, wait, i) => pc.RecvWoken? && 0 <= i <= |s.receivers.waiting|
    case CopyOut(t) => pc.RecvCopy? && |pc.got| < Min(pc.size, s.width)
    case Finish(t) => pc.RecvCopy? && |pc.got| == Min(pc.size, s.width)
    case Expire(t) => pc.RecvWait? || pc.SendWait?
  }

  ghost function Next(s: Mq, st: Step): (r: Mq)
    requires s.Ok() && Enabled(s, st)
    ensures r.Ok()
  {
    var pc := s.pcs[st.t];
    assert PcData(s.pool, s.width, pc);
    match st
    case Send(t, msg, urgent, wait, i) =>
      if |msg| > s.width then s else
      SendSectionOk(s, t, msg, urgent, wait, i);
      SendSection(s, t, msg, urgent, wait, i)
    case SendAgain(t, wait, i) =>
      SendSectionOk(s, t, pc.msg, false, wait, i);
      SendSection(s, t, pc.msg, false, wait, i)
    case Clear(t) => ClearedOk(s, t); Cleared(s, t)
    case CopyIn(t) => CopiedInOk(s, t); CopiedIn(s, t)
    case Link(t) => LinkedOk(s, t); Linked(s, t)
    case Recv(t, size, wait, i) =>
      RecvSectionOk(s, t, size, wait, i);
      RecvSection(s, t, size, wait, i)
    case RecvAgain(t, wait, i) =>
      RecvSectionOk(s, t, pc.size, wait, i);
      RecvSection(s, t, pc.size, wait, i)
    case CopyOut(t) => CopiedOutOk(s, t); CopiedOut(s, t)
    case Finish(t) => FinishedOk(s, t); Finished(s, t)
    case Expire(t) => ExpiredOk(s, t); Expired(s, t)
  }

  /** rt_mq_init: all slots free, the last first. */
  ghost predicate Initial(s: Mq) {
    && 0 <= |s.slots.next| <= ENTRY_MAX && s.width >= 0 && |s.pool| == |s.slots.next|
    && (forall i :: 0 <= i < |s.pool| ==> |s.pool[i]| == s.width && s.slots.next[i] == i - 1)
    && s.slots.head == NULL && s.slots.tail == NULL && s.slots.entry == 0 && s.slots.queue == []
    && s.slots.free == |s.pool| - 1 && s.slots.freed == Down(|s.pool|)
    && s.receivers == Gate(0, [], {}) && s.senders == Gate(|s.pool|, [], {}) && s.deque == []
    && forall t :: 0 <= t < |s.pcs| ==> s.pcs[t] == Idle
  }

  function Down(n: nat): (r: seq<int>)
    ensures |r| == n
    ensures forall i :: 0 <= i < n ==> r[i] == n - 1 - i
  {
    seq(n, i requires 0 <= i < n => n - 1 - i)
  }

  lemma {:induction false} DownChain(next: seq<int>, n: nat)
    requires n <= |next| && forall i :: 0 <= i < |next| ==> next[i] == i - 1
    ensures Chain(next, n - 1, Down(n))
  {
    if n > 0 {
      DownChain(next, n - 1);
      assert Down(n)[1..] == Down(n - 1);
    }
  }

  lemma InitialOk(s: Mq)
    requires Initial(s)
    ensures s.Ok()
  {
    DownChain(s.slots.next, |s.pool|);
    forall i | 0 <= i < |s.slots.next|
      ensures s.slots.Home(i, s.Held())
    {
      assert s.slots.freed[|s.pool| - 1 - i] == i;
    }
    assert Distinct(s.slots.freed);
    assert s.Held() == {};
  }

  ghost predicate StepAt(ss: seq<Mq>, steps: seq<Step>, i: int)
    requires 0 <= i < |steps| && |ss| == |steps| + 1
  {
    ss[i].Ok() ==> Enabled(ss[i], steps[i]) && ss[i + 1] == Next(ss[i], steps[i])
  }

  ghost predicate Run(ss: seq<Mq>, steps: seq<Step>) {
    |ss| == |steps| + 1 && Initial(ss[0]) && forall i :: 0 <= i < |steps| ==> StepAt(ss, steps, i)
  }

  /**
   In every state of every run: each slot is in exactly one place; the count of messages is the
   length of the queue, the tail is null exactly if the head is; and while receivers or senders wait,
   every message or free slot has a woken thread that will come for it.
   */
  lemma {:induction false} RunOk(ss: seq<Mq>, steps: seq<Step>, i: nat)
    requires Run(ss, steps) && i <= |steps|
    ensures ss[i].Ok()
    ensures var s := ss[i];
            && s.slots.entry == |s.slots.queue| == |s.deque| && (s.slots.tail == NULL <==> s.slots.head == NULL)
            && (s.receivers.waiting != [] ==> s.slots.entry <= |s.receivers.woken|)
            && (s.senders.waiting != [] ==> |s.slots.freed| <= |s.senders.woken|)
  {
    if i > 0 {
      assert StepAt(ss, steps, i - 1);
      hide Next, Enabled;
      RunOk(ss, steps, i - 1);
    } else {
      InitialOk(ss[0]);
    }
    var s := ss[i];
    ChainMembers(s.slots.next, s.slots.head, s.slots.queue);
    hide Chain, Distinct, HeldBy, Exclusive;
  }

  /**
   The queue is a deque of whole messages: linking adds the message that the sender was given at the
   end or, if urgent, at the front; a receiver takes the first; nothing else changes the deque.
   */
  lemma DequeSteps(s: Mq, st: Step)
    requires s.Ok() && Enabled(s, st)
    ensures var r := Next(s, st);
            match st
            case Link(t) => r.deque == if s.pcs[t].urgent then [s.pcs[t].msg] + s.deque else s.deque + [s.pcs[t].msg]
            case Recv(t, size, wait, i) => Receives(s, r, t)
            case RecvAgain(t, wait, i) => Receives(s, r, t)
            case _ => r.deque == s.deque
  {
    FreeTokens(s);
    hide Mq.SlotsOk, Mq.GatesOk, PcData, Holds;
  }

  ghost predicate Receives(s: Mq, r: Mq, t: int)
    requires s.Has(t) && r.Has(t)
  {
    if s.slots.entry == 0 then r.deque == s.deque
    else s.deque != [] && r.deque == s.deque[1..] && r.pcs[t].RecvCopy? && r.pcs[t].msg == s.deque[0]
  }

  /** The bytes a receiver ends up with are those of the message it took, up to the shorter of the two lengths. */
  lemma BytesReceived(s: Mq, t: int)
    requires s.Ok() && s.Has(t) && s.pcs[t].RecvCopy?
    ensures var pc := s.pcs[t]; var m := Min(|pc.got|, |pc.msg|); pc.got[..m] == pc.msg[..m]
  {
    var pc := s.pcs[t];
    assert PcData(s.pool, s.width, pc);
    var m := Min(|pc.got|, |pc.msg|);
    assert pc.got[..m] == s.pool[pc.slot][..m];
    assert pc.msg[..m] == s.pool[pc.slot][..m];
  }

  // ----- whole runs, message by message -----

  ghost predicate LinkedUrgent(s: Mq, st: Step) {
    st.Link? && s.Has(st.t) && s.pcs[st.t].SendCopy? && s.pcs[st.t].urgent
  }

  /** The message, if any, that a step links. */
  ghost function LinkedMsg(s: Mq, st: Step): seq<Msg> {
    if st.Link? && s.Has(st.t) && s.pcs[st.t].SendCopy? then [s.pcs[st.t].msg] else []
  }

  /** The message, if any, that a receiver takes in a step. */
  ghost function TakenMsg(s: Mq, st: Step): seq<Msg> {
    if (st.Recv? || st.RecvAgain?) && s.slots.entry != 0 && s.deque != [] then [s.deque[0]] else []
  }

  /** The messages linked in the first `i` steps, in order. */
  ghost function Sent(ss: seq<Mq>, steps: seq<Step>, i: nat): seq<Msg>
    requires i <= |steps| < |ss|
  {
    if i == 0 then [] else Sent(ss, steps, i - 1) + LinkedMsg(ss[i - 1], steps[i - 1])
  }

  /** The messages that receivers took. */
  ghost function Received(ss: seq<Mq>, steps: seq<Step>, i: nat): seq<Msg>
    requires i <= |steps| < |ss|
  {
    if i == 0 then [] else Received(ss, steps, i - 1) + TakenMsg(ss[i - 1], steps[i - 1])
  }

  lemma OneStep(s: Mq, st: Step)
    requires s.Ok() && Enabled(s, st)
    ensures var t, l, d, d1 := TakenMsg(s, st), LinkedMsg(s, st), s.deque, Next(s, st).deque;
            if LinkedUrgent(s, st) then t == [] && d1 == l + d else t + d1 == d + l
  {
    hide Mq.SlotsOk, Mq.GatesOk, Mq.DataOk, Next;
    DequeSteps(s, st);
    var d1 := Next(s, st).deque;
    if (st.Recv? || st.RecvAgain?) && s.slots.entry != 0 {
      assert d1 == s.deque[1..];
      assert [s.deque[0]] + s.deque[1..] == s.deque == s.deque + [];
    } else if !st.Link? {
      assert d1 == s.deque;
      assert [] + d1 == s.deque + [];
    } else {
      assert [] + d1 == d1;
    }
  }

  lemma OneStepCount(s: Mq, st: Step)
    requires s.Ok() && Enabled(s, st)
    ensures multiset(TakenMsg(s, st)) + multiset(Next(s, st).deque) == multiset(s.deque) + multiset(LinkedMsg(s, st))
  {
    OneStep(s, st);
    hide Mq.Ok, Next, Enabled, LinkedUrgent, LinkedMsg, TakenMsg;
    var t, l, d, d1 := TakenMsg(s, st), LinkedMsg(s, st), s.deque, Next(s, st).deque;
    if !LinkedUrgent(s, st) {
      assert multiset(t + d1) == multiset(d + l);
    }
  }

  /** Without urgent messages, those received so far and those still queued are those sent, in order. */
  lemma {:induction false} FirstInFirstOut(ss: seq<Mq>, steps: seq<Step>, i: nat)
    requires Run(ss, steps) && i <= |steps|
    requires forall j :: 0 <= j < i ==> !LinkedUrgent(ss[j], steps[j])
    ensures Sent(ss, steps, i) == Received(ss, steps, i) + ss[i].deque
  {
    hide Mq.Ok, Next, Enabled, LinkedUrgent, LinkedMsg, TakenMsg;
    if i > 0 {
      FirstInFirstOut(ss, steps, i - 1);
      RunOk(ss, steps, i - 1);
      assert StepAt(ss, steps, i - 1);
      var s, st := ss[i - 1], steps[i - 1];
      OneStep(s, st);
      Regroup(Sent(ss, steps, i - 1), Received(ss, steps, i - 1), s.deque, ss[i].deque, TakenMsg(s, st), LinkedMsg(s, st));
    }
  }

  lemma Recount(a: seq<Msg>, b: seq<Msg>, d: seq<Msg>, d1: seq<Msg>, t: seq<Msg>, l: seq<Msg>)
    requires multiset(a) == multiset(b) + multiset(d) && multiset(t) + multiset(d1) == multiset(d) + multiset(l)
    ensures multiset(a + l) == multiset(b + t) + multiset(d1)
  {
    assert multiset(a + l) == multiset(b) + (multiset(d) + multiset(l));
    assert multiset(b + t) + multiset(d1) == multiset(b) + (multiset(t) + multiset(d1));
  }

  /** No message is lost or received twice, urgent or not. */
  lemma {:induction false} NothingLost(ss: seq<Mq>, steps: seq<Step>, i: nat)
    requires Run(ss, steps) && i <= |steps|
    ensures multiset(Sent(ss, steps, i)) == multiset(Received(ss, steps, i)) + multiset(ss[i].deque)
  {
    hide Mq.Ok, Next, Enabled, LinkedUrgent, LinkedMsg, TakenMsg;
    if i > 0 {
      NothingLost(ss, steps, i - 1);
      RunOk(ss, steps, i - 1);
      assert StepAt(ss, steps, i - 1);
      var s, st := ss[i - 1], steps[i - 1];
      OneStepCount(s, st);
      Recount(Sent(ss, steps, i - 1), Received(ss, steps, i - 1), s.deque, ss[i].deque, TakenMsg(s, st), LinkedMsg(s, st));
    }
  }
}
