/**
 Threads and the scheduler: what its operations do to the thread records, the ready lists with their
 bitmap, and the wait lists of the kernel objects.
 */
module Threads {
  import opened Lists
  import opened Bits

  const PRIORITIES: nat := 32
  const TICKS: int := 0x1_0000_0000

  const EOK: int := 0
  const ERROR: int := 1
  const ETIMEOUT: int := 2
  const EFULL: int := 3

  datatype Stat = Init | Ready | Suspend | Running | Close

  /** `at` is the wait list that the list node of the thread is on, or -1; `armed` tells whether its timer runs. */
  datatype Thread = Thread(
    stat: Stat, yielding: bool, prio: int, initPrio: int, mask: nat, slice: int, left: int,
    error: int, armed: bool, at: int)
  {
    predicate Sane() {
      && 0 <= prio < PRIORITIES && 0 <= initPrio < PRIORITIES && (stat != Init ==> mask == Mask(prio))
      && 0 <= left < TICKS && 0 <= slice < TICKS
      && (armed ==> stat == Suspend) && (at != -1 ==> stat == Suspend)
    }
  }

  /** What a section of a call leads to: the call returns a code, or the thread waits. */
  datatype Outcome = Returns(code: int) | Blocks

  predicate Gone(th: Thread) {
    th.stat == Init || th.stat == Close
  }

  predicate Active(th: Thread) {
    th.stat == Ready || th.stat == Running
  }

  /** The same threads, except for which of the active ones runs. */
  ghost predicate SameBut(before: seq<Thread>, after: seq<Thread>) {
    |before| == |after| && forall t :: 0 <= t < |before| ==> Akin(before[t], after[t])
  }

  predicate Akin(a: Thread, b: Thread) {
    b == a.(stat := b.stat, yielding := b.yielding) && (Active(a) <==> Active(b)) && (!Active(a) ==> a.stat == b.stat)
  }

  /** The entries of one ready list. */
  ghost predicate RowOk(threads: seq<Thread>, row: seq<int>, p: int) {
    Distinct(row) && forall t :: t in row ==> 0 <= t < |threads| && threads[t].stat == Ready && threads[t].prio == p
  }

  ghost predicate ReadyOk(threads: seq<Thread>, ready: seq<seq<int>>) {
    && |ready| == PRIORITIES
    && (forall p :: 0 <= p < PRIORITIES ==> RowOk(threads, ready[p], p))
    && (forall t :: 0 <= t < |threads| && threads[t].stat == Ready ==>
          0 <= threads[t].prio < PRIORITIES && t in ready[threads[t].prio])
  }

  ghost predicate GroupOk(group: nat, ready: seq<seq<int>>) {
    && |ready| == PRIORITIES && group < Mask(PRIORITIES)
    && forall p: nat :: p < PRIORITIES ==> (Bit(group, p) <==> ready[p] != [])
  }

  ghost predicate WaitOk(threads: seq<Thread>, row: seq<int>, w: int) {
    Distinct(row) && forall t :: t in row ==> 0 <= t < |threads| && threads[t].at == w
  }

  ghost predicate WaitsOk(threads: seq<Thread>, waits: seq<seq<int>>) {
    && (forall w :: 0 <= w < |waits| ==> WaitOk(threads, waits[w], w))
    && (forall t :: 0 <= t < |threads| && threads[t].at != -1 ==>
          0 <= threads[t].at < |waits| && t in waits[threads[t].at])
  }

  ghost predicate OneRunning(threads: seq<Thread>, cur: int) {
    && 0 <= cur < |threads| && threads[cur].stat != Ready && threads[cur].stat != Init
    && forall t :: 0 <= t < |threads| && threads[t].stat == Running ==> t == cur
  }

  ghost predicate AllSane(threads: seq<Thread>) {
    forall t :: 0 <= t < |threads| ==> threads[t].Sane()
  }

  datatype Kernel = Kernel(
    threads: seq<Thread>, ready: seq<seq<int>>, group: nat, waits: seq<seq<int>>, cur: int, locks: int)
  {
    predicate Has(t: int) {
      0 <= t < |threads|
    }

    /**
     Bit p of the group is set exactly if ready list p has threads; these are the ready threads of
     priority p, each once; the waiting threads are on one wait list each; the running thread is on
     no list, and only a suspended thread waits for a timer.
     */
    ghost predicate Ok() {
      && ReadyOk(threads, ready) && GroupOk(group, ready) && WaitsOk(threads, waits)
      && OneRunning(threads, cur) && AllSane(threads)
    }
  }

  // ----- one thread changes -----

  /** A thread leaves its ready list. */
  lemma LeaveReady(threads: seq<Thread>, ready: seq<seq<int>>, t: int, th: Thread)
    requires ReadyOk(threads, ready) && 0 <= t < |threads| && threads[t].stat == Ready && th.stat != Ready
    ensures var p := threads[t].prio;
            0 <= p < PRIORITIES && ReadyOk(threads[t := th], ready[p := Del(ready[p], t)])
  {
    hide Del, Distinct;
    var p := threads[t].prio;
    var r := ready[p := Del(ready[p], t)];
    DelHas(ready[p], t);
    forall q | 0 <= q < PRIORITIES
      ensures RowOk(threads[t := th], r[q], q)
    {
      assert RowOk(threads, ready[q], q);
    }
  }

  /** A thread joins the ready list of its priority, at the end. */
  lemma JoinReady(threads: seq<Thread>, ready: seq<seq<int>>, t: int, th: Thread)
    requires ReadyOk(threads, ready) && 0 <= t < |threads| && threads[t].stat != Ready
    requires th.stat == Ready && 0 <= th.prio < PRIORITIES
    ensures ReadyOk(threads[t := th], ready[th.prio := ready[th.prio] + [t]])
  {
    var p := th.prio;
    var r := ready[p := ready[p] + [t]];
    forall q | 0 <= q < PRIORITIES
      ensures RowOk(threads[t := th], r[q], q)
    {
      assert RowOk(threads, ready[q], q);
    }
  }

  /** A thread that is not ready changes. */
  lemma StayUnready(threads: seq<Thread>, ready: seq<seq<int>>, t: int, th: Thread)
    requires ReadyOk(threads, ready) && 0 <= t < |threads| && threads[t].stat != Ready && th.stat != Ready
    ensures ReadyOk(threads[t := th], ready)
  {
    hide Distinct;
    forall q | 0 <= q < PRIORITIES
      ensures RowOk(threads[t := th], ready[q], q)
    {
      assert RowOk(threads, ready[q], q);
    }
  }

  /** The bitmap after ready list p became `row`, having lost a thread. */
  function GroupWithout(group: nat, mask: nat, row: seq<int>): nat {
    if row == [] then AndNot(group, mask) else group
  }

  lemma GroupLoses(group: nat, ready: seq<seq<int>>, p: nat, row: seq<int>)
    requires GroupOk(group, ready) && p < PRIORITIES && (row == [] || ready[p] != [])
    ensures GroupOk(GroupWithout(group, Mask(p), row), ready[p := row])
  {
    hide Bit, AndNot, Mask;
    var g := GroupWithout(group, Mask(p), row);
    forall q: nat
      ensures Bit(g, q) <==> if q == p && row == [] then false else Bit(group, q)
    {
      MaskBits(p, q);
      AndNotBits(group, Mask(p), q);
    }
    forall q: nat | q >= PRIORITIES
      ensures !Bit(g, q)
    {
      HighBits(group, PRIORITIES, q);
    }
    Narrow(g, PRIORITIES);
  }

  lemma GroupGains(group: nat, ready: seq<seq<int>>, p: nat, row: seq<int>)
    requires GroupOk(group, ready) && p < PRIORITIES && row != []
    ensures GroupOk(Or(group, Mask(p)), ready[p := row])
  {
    hide Bit, Or, Mask;
    var g := Or(group, Mask(p));
    forall q: nat
      ensures Bit(g, q) <==> q == p || Bit(group, q)
    {
      MaskBits(p, q);
      OrBits(group, Mask(p), q);
    }
    forall q: nat | q >= PRIORITIES
      ensures !Bit(g, q)
    {
      HighBits(group, PRIORITIES, q);
    }
    Narrow(g, PRIORITIES);
  }

  /** Clearing the bit of an empty list changes nothing. */
  lemma GroupSame(group: nat, ready: seq<seq<int>>, p: nat)
    requires GroupOk(group, ready) && p < PRIORITIES
    ensures GroupWithout(group, Mask(p), ready[p]) == group
  {
    hide Bit, AndNot, Mask;
    var g := GroupWithout(group, Mask(p), ready[p]);
    forall q: nat
      ensures Bit(g, q) <==> Bit(group, q)
    {
      MaskBits(p, q);
      AndNotBits(group, Mask(p), q);
    }
    SameBits(g, group);
  }

  lemma LeaveWait(threads: seq<Thread>, waits: seq<seq<int>>, t: int, th: Thread)
    requires WaitsOk(threads, waits) && 0 <= t < |threads| && threads[t].at != -1 && th.at == -1
    ensures var w := threads[t].at;
            0 <= w < |waits| && WaitsOk(threads[t := th], waits[w := Del(waits[w], t)])
  {
    hide Del, Distinct;
    var w := threads[t].at;
    var r := waits[w := Del(waits[w], t)];
    DelHas(waits[w], t);
    forall q | 0 <= q < |waits|
      ensures WaitOk(threads[t := th], r[q], q)
    {
      assert WaitOk(threads, waits[q], q);
    }
  }

  lemma JoinWait(threads: seq<Thread>, waits: seq<seq<int>>, t: int, th: Thread, i: int)
    requires WaitsOk(threads, waits) && 0 <= t < |threads| && threads[t].at == -1
    requires 0 <= th.at < |waits| && 0 <= i <= |waits[th.at]|
    ensures WaitsOk(threads[t := th], waits[th.at := Inserted(waits[th.at], i, t)])
  {
    hide Inserted, Distinct;
    var w := th.at;
    var r := waits[w := Inserted(waits[w], i, t)];
    assert WaitOk(threads, waits[w], w);
    InsertedMembers(waits[w], i, t);
    forall q | 0 <= q < |waits|
      ensures WaitOk(threads[t := th], r[q], q)
    {
      assert WaitOk(threads, waits[q], q);
    }
  }

  lemma StayOff(threads: seq<Thread>, waits: seq<seq<int>>, t: int, th: Thread)
    requires WaitsOk(threads, waits) && 0 <= t < |threads| && threads[t].at == th.at
    ensures WaitsOk(threads[t := th], waits)
  {
    hide Distinct;
    forall q | 0 <= q < |waits|
      ensures WaitOk(threads[t := th], waits[q], q)
    {
      assert WaitOk(threads, waits[q], q);
    }
  }

  // ----- a thread leaves or joins a list -----

  /** Thread `t` leaves the list it is on and becomes `th`. */
  ghost function Off(k: Kernel, t: int, th: Thread): (r: Kernel)
    requires k.Ok() && k.Has(t) && th.stat != Ready && th.at == -1 && th.Sane() && OneRunning(k.threads[t := th], k.cur)
    ensures r.Ok() && r.threads == k.threads[t := th] && r.cur == k.cur && r.locks == k.locks && |r.waits| == |k.waits|
  {
    OffOk(k, t, th);
    var o := k.threads[t];
    if o.stat == Ready then
      var row := Del(k.ready[o.prio], t);
      k.(threads := k.threads[t := th], ready := k.ready[o.prio := row], group := GroupWithout(k.group, o.mask, row))
    else if o.at != -1 then
      k.(threads := k.threads[t := th], waits := k.waits[o.at := Del(k.waits[o.at], t)])
    else k.(threads := k.threads[t := th])
  }

  lemma OffOk(k: Kernel, t: int, th: Thread)
    requires k.Ok() && k.Has(t) && th.stat != Ready && th.at == -1 && th.Sane() && OneRunning(k.threads[t := th], k.cur)
    ensures var o := k.threads[t];
            var waits := if o.at != -1 then k.waits[o.at := Del(k.waits[o.at], t)] else k.waits;
            if o.stat == Ready then
              var row := Del(k.ready[o.prio], t);
              k.(threads := k.threads[t := th], ready := k.ready[o.prio := row], group := GroupWithout(k.group, o.mask, row)).Ok()
            else k.(threads := k.threads[t := th], waits := waits).Ok()
  {
    hide RowOk, WaitOk, Del, GroupWithout;
    var o := k.threads[t];
    assert o.Sane();
    if o.stat == Ready {
      LeaveReady(k.threads, k.ready, t, th);
      StayOff(k.threads, k.waits, t, th);
      GroupLoses(k.group, k.ready, o.prio, Del(k.ready[o.prio], t));
    } else {
      StayUnready(k.threads, k.ready, t, th);
      if o.at != -1 {
        LeaveWait(k.threads, k.waits, t, th);
      } else {
        StayOff(k.threads, k.waits, t, th);
      }
    }
  }

  /** Thread `t`, on no list, becomes `th`, ready. */
  ghost function On(k: Kernel, t: int, th: Thread): (r: Kernel)
    requires k.Ok() && k.Has(t) && k.threads[t].stat != Ready && k.threads[t].at == -1
    requires th.stat == Ready && th.at == -1 && th.Sane() && t != k.cur
    ensures r.Ok() && r.threads == k.threads[t := th] && r.cur == k.cur && r.locks == k.locks && r.waits == k.waits
  {
    OnOk(k, t, th);
    k.(threads := k.threads[t := th], ready := k.ready[th.prio := k.ready[th.prio] + [t]], group := Or(k.group, th.mask))
  }

  lemma OnOk(k: Kernel, t: int, th: Thread)
    requires k.Ok() && k.Has(t) && k.threads[t].stat != Ready && k.threads[t].at == -1
    requires th.stat == Ready && th.at == -1 && th.Sane() && t != k.cur
    ensures k.(threads := k.threads[t := th], ready := k.ready[th.prio := k.ready[th.prio] + [t]],
               group := Or(k.group, th.mask)).Ok()
  {
    hide RowOk, WaitOk;
    JoinReady(k.threads, k.ready, t, th);
    StayOff(k.threads, k.waits, t, th);
    GroupGains(k.group, k.ready, th.prio, k.ready[th.prio] + [t]);
  }
}
