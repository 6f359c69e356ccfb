/**
 Mutexes with priority inheritance: the sections of taking and releasing one, and what stays true
 while threads, interrupts and timers interleave.
 */
module Mutexes {
  import opened Lists
  import opened Bits
  import opened Threads
  import opened Scheduler

  const HOLD_MAX: int := 0xff
  const VALUE_MAX: int := 0xffff
  const NO_PRIO: int := 0xff

  /** `owner` is -1 if there is none; the threads that wait for mutex m are on wait list m. */
  datatype Mutex = Mutex(value: int, owner: int, hold: int, original: int, byPrio: bool)

  /** Two variables that the kernel does not store: the priority each thread was last given other than by
      inheritance, and the mutex that its unfinished rt_mutex_take is about, or -1. */
  datatype Sys = Sys(k: Kernel, mutexes: seq<Mutex>, base: seq<int>, pending: seq<int>)

  /** Lending the priority `prio` to thread `t` if it is more urgent than its own. */
  ghost function Lent(k: Kernel, t: int, prio: int): (r: Kernel)
    requires k.Ok() && k.Has(t) && 0 <= prio < PRIORITIES
    ensures r.Ok() && r.waits == k.waits && r.cur == k.cur && r.locks == k.locks
    ensures prio < k.threads[t].prio ==> r.threads == k.threads[t := k.threads[t].(prio := prio, mask := Mask(prio))]
    ensures prio >= k.threads[t].prio ==> r == k
  {
    if prio < k.threads[t].prio then Reprioritized(k, t, prio) else k
  }

  /** rt_mutex_take by the current thread, up to the switch if it has to wait. */
  ghost function Taken(k: Kernel, mu: Mutex, m: int, time: int): (r: (Kernel, Mutex, Outcome))
    requires k.Ok() && 0 <= m < |k.waits| && k.threads[k.cur].stat == Running
    requires mu.value <= 0 ==> k.Has(mu.owner)
    ensures r.0.Ok() && |r.0.threads| == |k.threads| && |r.0.waits| == |k.waits|
  {
    var k0 := WithError(k, k.cur, EOK);
    if mu.owner == k.cur then
      if mu.hold < HOLD_MAX then (k0, mu.(hold := mu.hold + 1), Returns(EOK)) else (k0, mu, Returns(-EFULL))
    else if mu.value > 0 then
      var mu1 := mu.(value := mu.value - 1, owner := k.cur, original := k.threads[k.cur].prio);
      if mu.hold < HOLD_MAX then (k0, mu1.(hold := mu.hold + 1), Returns(EOK)) else (k0, mu1, Returns(-EFULL))
    else if time == 0 then
      (WithError(k0, k.cur, -ETIMEOUT), mu, Returns(-ETIMEOUT))
    else
      assert k.threads[k.cur].Sane();
      var k2 := Waiting(Lent(k0, mu.owner, k.threads[k.cur].prio), m, mu.byPrio);
      (if time > 0 then Armed(k2, k.cur) else k2, mu, Blocks)
  }

  /** rt_mutex_release by the current thread; the flag tells whether it goes on to schedule. */
  ghost function Released(k: Kernel, mu: Mutex, m: int): (r: (Kernel, Mutex, Outcome, bool))
    requires k.Ok() && 0 <= m < |k.waits| && 0 <= mu.original
    requires mu.owner == k.cur && mu.original != k.threads[k.cur].prio ==> mu.original < PRIORITIES
    ensures r.0.Ok() && |r.0.threads| == |k.threads| && |r.0.waits| == |k.waits|
  {
    if mu.owner != k.cur then (WithError(k, k.cur, -ERROR), mu, Returns(-ERROR), false)
    else if mu.hold - 1 != 0 then (k, mu.(hold := mu.hold - 1), Returns(EOK), false)
    else
      var k1 := if mu.original != k.threads[k.cur].prio then Reprioritized(k, k.cur, mu.original) else k;
      WaitersThere(k1, m);
      if k1.waits[m] != [] then
        var t := k1.waits[m][0];
        assert t in k1.waits[m];
        (Resumed(k1, t), mu.(owner := t, original := k1.threads[t].prio, hold := 1), Returns(EOK), true)
      else if mu.value < VALUE_MAX then
        (k1, mu.(hold := 0, value := mu.value + 1, owner := -1, original := NO_PRIO), Returns(EOK), false)
      else (k1, mu.(hold := 0), Returns(-EFULL), false)
  }

  // ----- what stays true -----

  /** The owner is as urgent as each of these threads. */
  ghost predicate Inherits(threads: seq<Thread>, owner: int, row: seq<int>) {
    forall t :: t in row ==> 0 <= owner < |threads| && 0 <= t < |threads| && threads[owner].prio <= threads[t].prio
  }

  ghost predicate MutexOk(s: Sys, m: int)
    requires 0 <= m < |s.mutexes| <= |s.k.waits| && |s.base| == |s.k.threads|
  {
    var mu, row := s.mutexes[m], s.k.waits[m];
    && 0 <= mu.value <= 1 && 0 <= mu.hold <= HOLD_MAX && 0 <= mu.original
    && (mu.owner == -1 <==> mu.value == 1) && (mu.owner == -1 <==> mu.hold == 0) && (mu.owner == -1 ==> row == [] && mu.original == NO_PRIO)
    && (mu.owner != -1 ==> s.k.Has(mu.owner) && OwnerOk(s, s.k.threads[mu.owner], mu.original) && mu.original == s.base[mu.owner])
    && (mu.byPrio ==> ByPrio(s.k.threads, row) && Inherits(s.k.threads, mu.owner, row))
  }

  /** An owner waits for no mutex; its priority is that at acquisition or one that it inherited. */
  ghost predicate OwnerOk(s: Sys, th: Thread, original: int) {
    !Gone(th) && !(0 <= th.at < |s.mutexes|) && th.prio <= original < PRIORITIES
  }

  /** A thread that owns no mutex has its own priority. */
  ghost predicate Restored(s: Sys, t: int)
    requires s.k.Has(t) && |s.base| == |s.k.threads|
  {
    (forall m :: 0 <= m < |s.mutexes| ==> s.mutexes[m].owner != t) ==> s.k.threads[t].prio == s.base[t]
  }

  /**
   An unfinished rt_mutex_take: the thread still waits, or it owns the mutex and will return EOK, or
   it was told of the timeout and does not own the mutex.
   */
  ghost predicate PendingOk(s: Sys, t: int)
    requires s.k.Has(t) && |s.pending| == |s.k.threads|
  {
    var th, m := s.k.threads[t], s.pending[t];
    && -1 <= m < |s.mutexes|
    && (0 <= th.at < |s.mutexes| ==> th.at == m && th.error == EOK)
    && (m != -1 ==> !Gone(th))
    && (m != -1 && th.at != m ==> !th.armed && th.at == -1)
    && (m != -1 && th.at != m ==> if s.mutexes[m].owner == t then th.error == EOK else th.error == -ETIMEOUT)
  }

  ghost predicate Good(s: Sys) {
    && s.k.Ok() && |s.mutexes| <= |s.k.waits| && |s.base| == |s.k.threads| == |s.pending|
    && (forall m :: 0 <= m < |s.mutexes| ==> MutexOk(s, m))
    && (forall m, n :: 0 <= m < n < |s.mutexes| && s.mutexes[m].owner != -1 ==> s.mutexes[m].owner != s.mutexes[n].owner)
    && (forall t :: 0 <= t < |s.k.threads| ==> Restored(s, t) && PendingOk(s, t))
  }

  ghost predicate Sizes(s: Sys) {
    |s.mutexes| <= |s.k.waits| && |s.base| == |s.k.threads| == |s.pending|
  }

  /** A mutex of which nothing changes that matters to it. */
  lemma KeepsMutex(s: Sys, s1: Sys, n: int)
    requires Sizes(s) && Sizes(s1) && |s1.mutexes| == |s.mutexes| && |s1.k.threads| == |s.k.threads|
    requires 0 <= n < |s.mutexes| && MutexOk(s, n) && s1.mutexes[n] == s.mutexes[n] && s1.k.waits[n] == s.k.waits[n]
    requires var o := s.mutexes[n].owner;
             o != -1 ==> 0 <= o < |s.k.threads| && s1.k.threads[o].prio == s.k.threads[o].prio && s1.base[o] == s.base[o]
                         && OwnerOk(s1, s1.k.threads[o], s.mutexes[n].original)
    requires forall t :: t in s.k.waits[n] && 0 <= t < |s.k.threads| ==> s1.k.threads[t].prio == s.k.threads[t].prio
    ensures MutexOk(s1, n)
  {
    var row := s.k.waits[n];
    assert forall i :: 0 <= i < |row| ==> row[i] in row;
  }

  // ----- steps that have nothing to do with mutexes -----

  ghost predicate Uninvolved(s: Sys, t: int)
    requires s.k.Has(t)
  {
    !(0 <= s.k.threads[t].at < |s.mutexes|) && forall m :: 0 <= m < |s.mutexes| ==> s.mutexes[m].owner != t
  }

  /** What such a step may do to a thread. */
  ghost predicate CalmAt(s: Sys, k1: Kernel, base1: seq<int>, t: int)
    requires Sizes(s) && |k1.threads| == |s.k.threads| == |base1| && 0 <= t < |base1|
  {
    var a, b := s.k.threads[t], k1.threads[t];
    && (a.at == b.at || (s.pending[t] == -1 && !(0 <= a.at < |s.mutexes|) && !(0 <= b.at < |s.mutexes|)))
    && (s.pending[t] != -1 ==> b.error == a.error && (b.armed ==> a.armed || a.at == s.pending[t]))
    && (Gone(b) ==> Gone(a) || (s.pending[t] == -1 && Uninvolved(s, t)))
    && (if b.prio == a.prio then base1[t] == s.base[t] || (Uninvolved(s, t) && base1[t] == b.prio)
        else Uninvolved(s, t) && base1[t] == b.prio)
  }

  ghost predicate Calm(s: Sys, k1: Kernel, base1: seq<int>) {
    && Sizes(s) && k1.Ok() && |k1.threads| == |s.k.threads| == |base1| && |k1.waits| == |s.k.waits|
    && (forall m :: 0 <= m < |s.mutexes| ==> k1.waits[m] == s.k.waits[m])
    && (forall t :: 0 <= t < |base1| ==> CalmAt(s, k1, base1, t))
  }

  lemma WaiterOf(s: Sys, n: int, t: int)
    requires Good(s) && 0 <= n < |s.mutexes| && t in s.k.waits[n]
    ensures s.k.Has(t) && s.k.threads[t].at == n && s.k.threads[t].stat == Suspend && !Uninvolved(s, t)
    ensures forall m :: 0 <= m < |s.mutexes| ==> s.mutexes[m].owner != t
    ensures s.k.threads[t].prio == s.base[t] && s.pending[t] == n && s.k.threads[t].error == EOK
    ensures s.mutexes[n].owner != -1
  {
    WaitersThere(s.k, n);
    assert MutexOk(s, n) && Restored(s, t) && PendingOk(s, t);
    forall m | 0 <= m < |s.mutexes|
      ensures s.mutexes[m].owner != t
    {
      assert MutexOk(s, m);
    }
  }

  lemma CalmKeeps(s: Sys, k1: Kernel, base1: seq<int>)
    requires Good(s) && Calm(s, k1, base1)
    ensures Good(s.(k := k1, base := base1))
  {
    hide Kernel.Ok, ByPrio, Inherits;
    var s1 := s.(k := k1, base := base1);
    forall n | 0 <= n < |s.mutexes|
      ensures MutexOk(s1, n)
    {
      CalmKeepsMutex(s, k1, base1, n);
    }
    forall t | 0 <= t < |base1|
      ensures Restored(s1, t) && PendingOk(s1, t)
    {
      assert Restored(s, t) && PendingOk(s, t) && CalmAt(s, k1, base1, t);
    }
  }

  lemma CalmKeepsMutex(s: Sys, k1: Kernel, base1: seq<int>, n: int)
    requires Good(s) && Calm(s, k1, base1) && 0 <= n < |s.mutexes|
    ensures MutexOk(s.(k := k1, base := base1), n)
  {
    hide Kernel.Ok, ByPrio, Inherits;
    var s1 := s.(k := k1, base := base1);
    var o := s.mutexes[n].owner;
    assert MutexOk(s, n);
    if o != -1 {
      assert CalmAt(s, k1, base1, o) && !Uninvolved(s, o);
    }
    forall t | t in s.k.waits[n] && 0 <= t < |s.k.threads|
      ensures s1.k.threads[t].prio == s.k.threads[t].prio
    {
      WaiterOf(s, n, t);
      assert CalmAt(s, k1, base1, t);
    }
    KeepsMutex(s, s1, n);
  }

  // ----- taking -----

  /** Thread `t` may take a mutex: it is not in the middle of a call and owns no mutex. */
  ghost predicate Free(s: Sys, t: int) {
    Sizes(s) && s.k.Has(t) && s.k.threads[t].stat == Running && s.pending[t] == -1 && Uninvolved(s, t)
  }

  lemma ErrorKeeps(s: Sys, t: int, error: int)
    requires Good(s) && s.k.Has(t) && s.pending[t] == -1
    ensures Good(s.(k := WithError(s.k, t, error)))
  {
    hide Kernel.Ok, ByPrio, Inherits;
    var k1 := WithError(s.k, t, error);
    forall u | 0 <= u < |s.base|
      ensures CalmAt(s, k1, s.base, u)
    {
    }
    CalmKeeps(s, k1, s.base);
  }

  lemma HoldKeeps(s: Sys, m: int, hold: int)
    requires Good(s) && 0 <= m < |s.mutexes| && s.mutexes[m].owner != -1 && 1 <= hold <= HOLD_MAX
    ensures Good(s.(mutexes := s.mutexes[m := s.mutexes[m].(hold := hold)]))
  {
    hide Kernel.Ok, ByPrio, Inherits;
    var s1 := s.(mutexes := s.mutexes[m := s.mutexes[m].(hold := hold)]);
    forall n | 0 <= n < |s.mutexes|
      ensures MutexOk(s1, n)
    {
      assert MutexOk(s, n);
    }
    SameOwners(s, s1);
  }

  lemma SameOwners(s: Sys, s1: Sys)
    requires Good(s) && Sizes(s1) && |s1.mutexes| == |s.mutexes| && s1.k == s.k && s1.base == s.base && s1.pending == s.pending
    requires forall n :: 0 <= n < |s.mutexes| ==> s1.mutexes[n].owner == s.mutexes[n].owner
    ensures forall t :: 0 <= t < |s.k.threads| ==> Restored(s1, t) && PendingOk(s1, t)
  {
    forall t | 0 <= t < |s.k.threads|
      ensures Restored(s1, t) && PendingOk(s1, t)
    {
      assert Restored(s, t) && PendingOk(s, t);
      assert forall n :: 0 <= n < |s.mutexes| ==> s1.mutexes[n].owner == s.mutexes[n].owner;
      if n :| 0 <= n < |s.mutexes| && s.mutexes[n].owner == t {
        assert s1.mutexes[n].owner == t;
      }
    }
  }

  /** Acquiring a free mutex. */
  lemma AcquireKeeps(s: Sys, m: int)
    requires Good(s) && Free(s, s.k.cur) && 0 <= m < |s.mutexes| && s.mutexes[m].value > 0
    ensures var mu := s.mutexes[m].(value := 0, owner := s.k.cur, original := s.k.threads[s.k.cur].prio, hold := 1);
            Good(s.(mutexes := s.mutexes[m := mu]))
  {
    hide Kernel.Ok, ByPrio, Inherits;
    var t := s.k.cur;
    var mu := s.mutexes[m].(value := 0, owner := t, original := s.k.threads[t].prio, hold := 1);
    var s1 := s.(mutexes := s.mutexes[m := mu]);
    assert s.k.threads[t].Sane() by {
      CurSane(s.k);
    }
    assert Restored(s, t);
    forall n | 0 <= n < |s.mutexes|
      ensures MutexOk(s1, n)
    {
      assert MutexOk(s, n);
      if n == m {
        EmptyRow(s.k.threads, t, s.k.waits[m]);
      }
    }
    forall u | 0 <= u < |s.k.threads|
      ensures Restored(s1, u) && PendingOk(s1, u)
    {
      assert Restored(s, u) && PendingOk(s, u);
      if u != t && exists n :: 0 <= n < |s.mutexes| && s.mutexes[n].owner == u {
        var n :| 0 <= n < |s.mutexes| && s.mutexes[n].owner == u;
        assert MutexOk(s, m) && n != m;
        assert s1.mutexes[n].owner == u;
      }
    }
  }

  lemma EmptyRow(threads: seq<Thread>, owner: int, row: seq<int>)
    requires row == []
    ensures ByPrio(threads, row) && Inherits(threads, owner, row)
  {
  }

  /** Lending a priority to the owner of a mutex. */
  lemma LentKeeps(s: Sys, m: int, prio: int)
    requires Good(s) && 0 <= m < |s.mutexes| && s.mutexes[m].owner != -1 && 0 <= prio < PRIORITIES
    ensures s.k.Has(s.mutexes[m].owner)
    ensures Good(s.(k := Lent(s.k, s.mutexes[m].owner, prio)))
    ensures Lent(s.k, s.mutexes[m].owner, prio).threads[s.mutexes[m].owner].prio <= prio
  {
    hide Kernel.Ok, ByPrio, Inherits;
    var o := s.mutexes[m].owner;
    assert MutexOk(s, m);
    var k1 := Lent(s.k, o, prio);
    var s1 := s.(k := k1);
    if prio < s.k.threads[o].prio {
      forall n | 0 <= n < |s.mutexes|
        ensures MutexOk(s1, n)
      {
        assert MutexOk(s, n);
        OwnerNoWaiter(s, m, n);
        if n == m {
          LowerKeepsRow(s.k.threads, o, k1.threads[o], s.k.waits[m]);
        } else {
          KeepsMutex(s, s1, n);
        }
      }
      forall u | 0 <= u < |s.k.threads|
        ensures Restored(s1, u) && PendingOk(s1, u)
      {
        assert Restored(s, u) && PendingOk(s, u);
      }
    }
  }

  lemma OwnerNoWaiter(s: Sys, m: int, n: int)
    requires Good(s) && 0 <= m < |s.mutexes| && 0 <= n < |s.mutexes| && s.mutexes[m].owner != -1
    ensures s.mutexes[m].owner !in s.k.waits[n]
    ensures forall t :: t in s.k.waits[n] ==> s.k.Has(t)
  {
    forall t | t in s.k.waits[n]
      ensures s.k.Has(t) && t != s.mutexes[m].owner
    {
      WaiterOf(s, n, t);
    }
  }

  /** A more urgent owner still inherits; the row, to which it does not belong, stays ordered. */
  lemma LowerKeepsRow(threads: seq<Thread>, o: int, th: Thread, row: seq<int>)
    requires 0 <= o < |threads| && o !in row && th.prio <= threads[o].prio
    ensures ByPrio(threads, row) ==> ByPrio(threads[o := th], row)
    ensures Inherits(threads, o, row) ==> Inherits(threads[o := th], o, row)
  {
    assert forall i :: 0 <= i < |row| ==> row[i] in row;
  }

  /** The current thread starts to wait for a mutex whose owner is at least as urgent. */
  lemma WaitKeeps(s: Sys, m: int)
    requires Good(s) && Free(s, s.k.cur) && 0 <= m < |s.mutexes| && s.mutexes[m].owner != -1
    requires s.k.threads[s.k.cur].error == EOK && s.k.Has(s.mutexes[m].owner)
    requires s.k.threads[s.mutexes[m].owner].prio <= s.k.threads[s.k.cur].prio
    ensures Good(s.(k := Waiting(s.k, m, s.mutexes[m].byPrio), pending := s.pending[s.k.cur := m]))
  {
    hide Kernel.Ok, ByPrio, Inherits, Inserted, WaitPlace;
    var t, mu := s.k.cur, s.mutexes[m];
    var k1 := Waiting(s.k, m, mu.byPrio);
    var s1 := s.(k := k1, pending := s.pending[t := m]);
    assert Restored(s, t);
    forall n | 0 <= n < |s.mutexes|
      ensures MutexOk(s1, n)
    {
      assert MutexOk(s, n);
      if n == m {
        if mu.byPrio {
          WaiterJoins(s.k.threads, s.k.waits[m], mu.owner, t, k1.threads[t]);
        }
      } else {
        KeepsMutex(s, s1, n);
      }
    }
    forall u | 0 <= u < |s.k.threads|
      ensures Restored(s1, u) && PendingOk(s1, u)
    {
      assert Restored(s, u) && PendingOk(s, u);
    }
  }

  lemma WaiterJoins(threads: seq<Thread>, row: seq<int>, owner: int, t: int, th: Thread)
    requires ByPrio(threads, row) && Inherits(threads, owner, row) && 0 <= t < |threads| && 0 <= owner < |threads|
    requires th.prio == threads[t].prio && threads[owner].prio <= th.prio
    ensures var r := Inserted(row, WaitPlace(threads, row, th.prio), t);
            ByPrio(threads[t := th], r) && Inherits(threads[t := th], owner, r)
  {
    hide Inserted, WaitPlace;
    var p := WaitPlace(threads, row, th.prio);
    WaitingByPrio(threads, row, t);
    InsertedMembers(row, p, t);
  }

  lemma ArmKeeps(s: Sys, t: int)
    requires Good(s) && s.k.Has(t) && s.k.threads[t].stat == Suspend && s.pending[t] != -1 && s.k.threads[t].at == s.pending[t]
    ensures Good(s.(k := Armed(s.k, t)))
  {
    hide Kernel.Ok, ByPrio, Inherits;
    var k1 := Armed(s.k, t);
    forall u | 0 <= u < |s.base|
      ensures CalmAt(s, k1, s.base, u)
    {
    }
    CalmKeeps(s, k1, s.base);
  }

  /** rt_mutex_take keeps everything. */
  lemma TakeKeeps(s: Sys, m: int, time: int)
    requires Good(s) && 0 <= m < |s.mutexes| && s.k.threads[s.k.cur].stat == Running && s.pending[s.k.cur] == -1
    requires forall n :: 0 <= n < |s.mutexes| && n != m ==> s.mutexes[n].owner != s.k.cur
    ensures s.mutexes[m].value <= 0 ==> s.k.Has(s.mutexes[m].owner)
    ensures Good(TakenBy(s, m, time))
  {
    hide Kernel.Ok, ByPrio, Inherits, Waiting, Lent, Armed, WithError;
    var t, mu := s.k.cur, s.mutexes[m];
    assert s.mutexes[m := mu] == s.mutexes;
    assert MutexOk(s, m);
    assert s.k.threads[t].Sane() by {
      CurSane(s.k);
    }
    ErrorKeeps(s, t, EOK);
    var s0 := s.(k := WithError(s.k, t, EOK));
    if mu.owner == t {
      if mu.hold < HOLD_MAX {
        HoldKeeps(s0, m, mu.hold + 1);
      }
    } else if mu.value > 0 {
      AcquireKeeps(s0, m);
    } else if time == 0 {
      ErrorKeeps(s0, t, -ETIMEOUT);
    } else {
      LentKeeps(s0, m, s.k.threads[t].prio);
      var s2 := s0.(k := Lent(s0.k, mu.owner, s.k.threads[t].prio));
      WaitKeeps(s2, m);
      var s3 := s2.(k := Waiting(s2.k, m, mu.byPrio), pending := s2.pending[t := m]);
      if time > 0 {
        ArmKeeps(s3, t);
      }
    }
  }

  ghost function TakenBy(s: Sys, m: int, time: int): Sys
    requires s.k.Ok() && Sizes(s) && 0 <= m < |s.mutexes| && s.k.threads[s.k.cur].stat == Running
    requires s.mutexes[m].value <= 0 ==> s.k.Has(s.mutexes[m].owner)
  {
    var r := Taken(s.k, s.mutexes[m], m, time);
    s.(k := r.0, mutexes := s.mutexes[m := r.1], pending := if r.2 == Blocks then s.pending[s.k.cur := m] else s.pending)
  }

  // ----- releasing -----

  ghost function ReleasedBy(s: Sys, m: int): Sys
    requires s.k.Ok() && Sizes(s) && 0 <= m < |s.mutexes| && 0 <= s.mutexes[m].original
    requires s.mutexes[m].owner == s.k.cur && s.mutexes[m].original != s.k.threads[s.k.cur].prio ==> s.mutexes[m].original < PRIORITIES
  {
    var r := Released(s.k, s.mutexes[m], m);
    s.(k := r.0, mutexes := s.mutexes[m := r.1])
  }

  /** The owner has its own priority back and hands the mutex to nobody. */
  lemma FreedKeeps(s: Sys, m: int, k1: Kernel, mask: nat)
    requires Good(s) && 0 <= m < |s.mutexes| && s.mutexes[m].owner == s.k.cur && s.mutexes[m].hold == 1 && s.k.waits[m] == []
    requires s.pending[s.k.cur] == -1
    requires k1.Ok() && k1.waits == s.k.waits
    requires k1.threads == s.k.threads[s.k.cur := s.k.threads[s.k.cur].(prio := s.mutexes[m].original, mask := mask)]
    ensures var mu := s.mutexes[m].(hold := 0, value := 1, owner := -1, original := NO_PRIO);
            Good(s.(k := k1, mutexes := s.mutexes[m := mu]))
  {
    hide Kernel.Ok, ByPrio, Inherits;
    var t := s.k.cur;
    var mu := s.mutexes[m].(hold := 0, value := 1, owner := -1, original := NO_PRIO);
    var s1 := s.(k := k1, mutexes := s.mutexes[m := mu]);
    assert MutexOk(s, m);
    forall n | 0 <= n < |s.mutexes|
      ensures MutexOk(s1, n)
    {
      assert MutexOk(s, n);
      OwnerNoWaiter(s, m, n);
      if n == m {
        EmptyRow(k1.threads, -1, []);
      } else {
        KeepsMutex(s, s1, n);
      }
    }
    forall u | 0 <= u < |s.k.threads|
      ensures Restored(s1, u) && PendingOk(s1, u)
    {
      assert Restored(s, u) && PendingOk(s, u);
      if u != t {
        StaysRestored(s, s1, m, u);
      }
    }
  }

  lemma StaysRestored(s: Sys, s1: Sys, m: int, u: int)
    requires Sizes(s) && Sizes(s1) && s.k.Has(u) && s1.k.Has(u) && Restored(s, u)
    requires 0 <= m < |s.mutexes| && |s1.mutexes| == |s.mutexes| && u != s.mutexes[m].owner
    requires forall n :: 0 <= n < |s.mutexes| && n != m ==> s1.mutexes[n] == s.mutexes[n]
    requires s1.k.threads[u].prio == s.k.threads[u].prio && s1.base[u] == s.base[u]
    ensures Restored(s1, u)
  {
    if forall n :: 0 <= n < |s.mutexes| ==> s1.mutexes[n].owner != u {
      forall n | 0 <= n < |s.mutexes|
        ensures s.mutexes[n].owner != u
      {
        assert s1.mutexes[n].owner != u;
      }
    }
  }

  /**
   The owner has its own priority back and hands the mutex to the first thread that waits.  That
   thread is as urgent as the others if the wait list is ordered by priority.
   */
  lemma HandedKeeps(s: Sys, m: int, k1: Kernel, mask: nat)
    requires Good(s) && 0 <= m < |s.mutexes| && s.mutexes[m].owner == s.k.cur && s.mutexes[m].hold == 1 && s.k.waits[m] != []
    requires s.pending[s.k.cur] == -1 && s.k.threads[s.k.cur].stat == Running
    requires k1.Ok() && k1.waits == s.k.waits && k1.cur == s.k.cur
    requires k1.threads == s.k.threads[s.k.cur := s.k.threads[s.k.cur].(prio := s.mutexes[m].original, mask := mask)]
    ensures k1.Has(k1.waits[m][0])
    ensures var t := k1.waits[m][0];
            var mu := s.mutexes[m].(hold := 1, owner := t, original := k1.threads[t].prio);
            Good(s.(k := Resumed(k1, t), mutexes := s.mutexes[m := mu]))
  {
    hide Kernel.Ok, ByPrio, Inherits, Resumed, Del;
    var c, t, row := s.k.cur, k1.waits[m][0], s.k.waits[m];
    assert t in row;
    WaiterOf(s, m, t);
    OwnerNoWaiter(s, m, m);
    assert MutexOk(s, m);
    var mu := s.mutexes[m].(hold := 1, owner := t, original := k1.threads[t].prio);
    HandedOn(s, s.(k := Resumed(k1, t), mutexes := s.mutexes[m := mu]), m, t);
  }

  /** The state after handing mutex `m` from the current thread to the first thread `t` that waits. */
  ghost predicate Handed(s: Sys, s1: Sys, m: int, t: int)
    requires Sizes(s) && Sizes(s1) && 0 <= m < |s.mutexes| && s.k.Has(s.k.cur) && s.k.Has(t) && s1.k.Has(t)
  {
    var c, mu, row := s.k.cur, s.mutexes[m], s.k.waits[m];
    && mu.owner == c && s.pending[c] == -1 && s.k.threads[c].stat == Running && row != [] && row[0] == t && c != t
    && |s1.k.threads| == |s.k.threads| && s1.base == s.base && s1.pending == s.pending
    && s1.mutexes == s.mutexes[m := mu.(hold := 1, owner := t, original := s.k.threads[t].prio)]
    && |s1.k.waits| == |s.k.waits| && s1.k.waits == s.k.waits[m := Del(row, t)]
    && s1.k.threads[t] == s.k.threads[t].(stat := Ready, armed := false, at := -1)
    && s1.k.threads[c] == s.k.threads[c].(prio := mu.original, mask := s1.k.threads[c].mask)
    && forall u :: 0 <= u < |s.k.threads| && u != c && u != t ==> s1.k.threads[u] == s.k.threads[u]
  }

  lemma HandedOn(s: Sys, s1: Sys, m: int, t: int)
    requires Good(s) && Sizes(s1) && 0 <= m < |s.mutexes| && s.k.Has(t) && s1.k.Has(t) && s1.k.Ok() && Handed(s, s1, m, t)
    ensures Good(s1)
  {
    hide Kernel.Ok, MutexOk, Restored, PendingOk;
    forall n | 0 <= n < |s.mutexes|
      ensures MutexOk(s1, n)
    {
      if n == m {
        HandedMutex(s, s1, m, t);
      } else {
        HandedOther(s, s1, m, t, n);
      }
    }
    forall u | 0 <= u < |s.k.threads|
      ensures Restored(s1, u) && PendingOk(s1, u)
    {
      HandedThread(s, s1, m, t, u);
    }
    HandedOwners(s, s1, m, t);
  }

  lemma HandedMutex(s: Sys, s1: Sys, m: int, t: int)
    requires Good(s) && Sizes(s1) && 0 <= m < |s.mutexes| && s.k.Has(t) && s1.k.Has(t) && Handed(s, s1, m, t)
    ensures MutexOk(s1, m)
  {
    hide Kernel.Ok, ByPrio, Inherits;
    var row := s.k.waits[m];
    assert MutexOk(s, m) && t in row;
    WaiterOf(s, m, t);
    OwnerNoWaiter(s, m, m);
    CurSane(s.k);
    assert 0 <= s.k.threads[t].prio < PRIORITIES by {
      SaneAt(s.k, t);
    }
    if s.mutexes[m].byPrio {
      HeadHandsOn(s.k.threads, s1.k.threads, row);
    }
  }

  /** In an ordered wait list the first thread is as urgent as the others. */
  lemma HeadHandsOn(threads: seq<Thread>, after: seq<Thread>, row: seq<int>)
    requires ByPrio(threads, row) && row != [] && |after| == |threads|
    requires forall t :: t in row && 0 <= t < |threads| ==> after[t].prio == threads[t].prio
    ensures Del(row, row[0]) == row[1..]
    ensures ByPrio(after, Del(row, row[0])) && Inherits(after, row[0], Del(row, row[0]))
  {
    assert forall i :: 0 <= i < |row| ==> row[i] in row;
  }

  lemma HandedOther(s: Sys, s1: Sys, m: int, t: int, n: int)
    requires Good(s) && Sizes(s1) && 0 <= m < |s.mutexes| && s.k.Has(t) && s1.k.Has(t) && Handed(s, s1, m, t)
    requires 0 <= n < |s.mutexes| && n != m
    ensures MutexOk(s1, n)
  {
    hide Kernel.Ok, ByPrio, Inherits;
    assert MutexOk(s, m) && MutexOk(s, n) && t in s.k.waits[m];
    WaiterOf(s, m, t);
    OwnerNoWaiter(s, m, n);
    KeepsMutex(s, s1, n);
  }

  lemma HandedThread(s: Sys, s1: Sys, m: int, t: int, u: int)
    requires Good(s) && Sizes(s1) && 0 <= m < |s.mutexes| && s.k.Has(t) && s1.k.Has(t) && Handed(s, s1, m, t)
    requires s.k.Has(u)
    ensures Restored(s1, u) && PendingOk(s1, u)
  {
    hide Kernel.Ok, ByPrio, Inherits;
    assert MutexOk(s, m) && t in s.k.waits[m];
    WaiterOf(s, m, t);
    CurSane(s.k);
    assert Restored(s, u) && PendingOk(s, u);
    if u == t {
      assert s1.mutexes[m].owner == t;
    } else if u != s.k.cur {
      StaysRestored(s, s1, m, u);
    }
  }

  lemma HandedOwners(s: Sys, s1: Sys, m: int, t: int)
    requires Good(s) && Sizes(s1) && 0 <= m < |s.mutexes| && s.k.Has(t) && s1.k.Has(t) && Handed(s, s1, m, t)
    ensures forall a, b :: 0 <= a < b < |s.mutexes| && s1.mutexes[a].owner != -1 ==> s1.mutexes[a].owner != s1.mutexes[b].owner
  {
    assert t in s.k.waits[m];
    WaiterOf(s, m, t);
  }

  /** rt_mutex_release keeps everything. */
  lemma ReleaseKeeps(s: Sys, m: int)
    requires Good(s) && 0 <= m < |s.mutexes| && s.k.threads[s.k.cur].stat == Running && s.pending[s.k.cur] == -1
    ensures 0 <= s.mutexes[m].original
    ensures s.mutexes[m].owner == s.k.cur && s.mutexes[m].original != s.k.threads[s.k.cur].prio ==> s.mutexes[m].original < PRIORITIES
    ensures Good(ReleasedBy(s, m))
  {
    hide Kernel.Ok, ByPrio, Inherits, Resumed, Reprioritized, WithError;
    var c, mu := s.k.cur, s.mutexes[m];
    assert s.mutexes[m := mu] == s.mutexes;
    assert MutexOk(s, m);
    CurSane(s.k);
    if mu.owner != c {
      ErrorKeeps(s, c, -ERROR);
    } else if mu.hold != 1 {
      HoldKeeps(s, m, mu.hold - 1);
    } else {
      var k1 := if mu.original != s.k.threads[c].prio then Reprioritized(s.k, c, mu.original) else s.k;
      assert k1.threads == s.k.threads[c := s.k.threads[c].(prio := mu.original, mask := k1.threads[c].mask)];
      if s.k.waits[m] == [] {
        FreedKeeps(s, m, k1, k1.threads[c].mask);
      } else {
        HandedKeeps(s, m, k1, k1.threads[c].mask);
      }
    }
  }

  /**
   A release that hands the mutex to nobody does not schedule, so the thread runs on although a ready
   thread may outrank it: exactly if one outranks the priority that it gets back.
   */
  lemma ReleaseRunsOn(s: Sys, m: int)
    requires Good(s) && 0 <= m < |s.mutexes| && s.mutexes[m].owner == s.k.cur && s.mutexes[m].hold == 1 && s.k.waits[m] == []
    requires s.k.threads[s.k.cur].stat == Running
    ensures 0 <= s.mutexes[m].original < PRIORITIES
    ensures var r := Released(s.k, s.mutexes[m], m);
            && !r.3 && r.0.cur == s.k.cur && r.0.threads[s.k.cur].stat == Running
            && r.0.threads[s.k.cur].prio == s.mutexes[m].original
            && (Outranked(r.0, s.mutexes[m].original, true) <==> Outranked(s.k, s.mutexes[m].original, true))
  {
    hide Kernel.Ok, ByPrio, Inherits, Reprioritized;
    assert MutexOk(s, m);
    CurSane(s.k);
    var k1 := Released(s.k, s.mutexes[m], m).0;
    forall t | 0 <= t < |s.k.threads| && t != s.k.cur
      ensures k1.threads[t] == s.k.threads[t]
    {
    }
  }

  /** Thread 0 runs with a priority inherited from a thread since timed out; without it, ready thread 1 outranks it. */
  lemma ReleaseOutranked() returns (s: Sys)
    ensures Good(s) && |s.mutexes| == 1 && s.mutexes[0].owner == s.k.cur && s.mutexes[0].hold == 1 && s.k.waits[0] == []
    ensures s.k.threads[s.k.cur].stat == Running && !Outranked(s.k, s.k.threads[s.k.cur].prio, true)
    ensures 0 <= s.mutexes[0].original < PRIORITIES
    ensures var r := Released(s.k, s.mutexes[0], 0).0; Outranked(r, r.threads[r.cur].prio, true)
  {
    hide Kernel.Ok, Mask;
    var k := Resting([Thread(Running, false, 3, 20, Mask(3), 10, 10, EOK, false, -1),
                      Thread(Suspend, false, 9, 9, Mask(9), 10, 10, EOK, false, -1)], []);
    RestingOk(k.threads, []);
    var k1 := Woken(k, 1);
    s := Sys(k1, [Mutex(0, 0, 1, 20, true)], [20, 9], [-1, -1]);
    EmptyRow(k1.threads, 0, []);
    assert MutexOk(s, 0);
    assert s.mutexes[0].owner == 0;
    forall t | 0 <= t < 2
      ensures Restored(s, t) && PendingOk(s, t)
    {
    }
    assert k1.threads[1].stat == Ready && k1.threads[1].prio == 9;
    ReleaseRunsOn(s, 0);
  }

  /**
   Releasing undoes taking: a mutex that was free, or the thread's own, is as it was before, and so
   is everything else but the cleared error of the thread.
   */
  lemma ReleaseUndoesTake(s: Sys, m: int, time: int)
    requires Good(s) && 0 <= m < |s.mutexes| && s.k.threads[s.k.cur].stat == Running && s.pending[s.k.cur] == -1
    requires forall n :: 0 <= n < |s.mutexes| && n != m ==> s.mutexes[n].owner != s.k.cur
    requires (s.mutexes[m].owner == -1 || s.mutexes[m].owner == s.k.cur) && s.mutexes[m].hold < HOLD_MAX
    ensures s.mutexes[m].value <= 0 ==> s.k.Has(s.mutexes[m].owner)
    ensures var r := TakenBy(s, m, time);
            && Good(r) && r.mutexes[m].owner == s.k.cur == r.k.cur && 0 <= r.mutexes[m].original
            && (r.mutexes[m].original != r.k.threads[r.k.cur].prio ==> r.mutexes[m].original < PRIORITIES)
            && ReleasedBy(r, m) == s.(k := WithError(s.k, s.k.cur, EOK))
  {
    hide Kernel.Ok, ByPrio, Inherits, Resumed, Reprioritized, WithError;
    TakeKeeps(s, m, time);
    var r, mu := TakenBy(s, m, time), s.mutexes[m];
    assert MutexOk(s, m) && MutexOk(r, m);
    CurSane(s.k);
    assert s.mutexes[m := r.mutexes[m]][m := mu] == s.mutexes;
  }

  // ----- timeouts of waiting threads -----

  /** A thread whose time has run out leaves the wait list; the owner keeps what it inherited. */
  lemma TimeoutKeeps(s: Sys, t: int)
    requires Good(s) && s.k.Has(t) && s.k.threads[t].armed && 0 <= s.k.threads[t].at < |s.mutexes|
    ensures Good(s.(k := TimedOut(s.k, t)))
  {
    hide Kernel.Ok, ByPrio, Inherits, TimedOut, Del;
    var k1, m := TimedOut(s.k, t), s.k.threads[t].at;
    var s1 := s.(k := k1);
    assert PendingOk(s, t);
    WaitingAt(s, t, m);
    var th := s.k.threads[t].(stat := Ready, armed := false, error := -ETIMEOUT, at := -1);
    forall u | 0 <= u < |s.k.threads|
      ensures Akin(if u == t then th else s.k.threads[u], k1.threads[u])
    {
      assert Akin(s.k.threads[t := th][u], k1.threads[u]);
    }
    forall n | 0 <= n < |s.mutexes|
      ensures MutexOk(s1, n)
    {
      assert MutexOk(s, n);
      if n == m {
        ShorterRow(s.k.threads, k1.threads, s.mutexes[m].owner, s.k.waits[m], t);
      } else {
        KeepsMutex(s, s1, n);
      }
    }
    forall u | 0 <= u < |s.k.threads|
      ensures Restored(s1, u) && PendingOk(s1, u)
    {
      assert Restored(s, u) && PendingOk(s, u);
    }
  }

  lemma WaitingAt(s: Sys, t: int, m: int)
    requires Good(s) && s.k.Has(t) && s.k.threads[t].at == m && 0 <= m < |s.mutexes|
    ensures t in s.k.waits[m] && Distinct(s.k.waits[m]) && s.mutexes[m].owner != -1
    ensures forall n :: 0 <= n < |s.mutexes| ==> s.mutexes[n].owner != t
  {
    WaitersThere(s.k, m);
    WaiterOf(s, m, t);
  }

  lemma ShorterRow(threads: seq<Thread>, after: seq<Thread>, owner: int, row: seq<int>, t: int)
    requires |after| == |threads| && t in row && Distinct(row)
    requires forall u :: 0 <= u < |threads| ==> after[u].prio == threads[u].prio
    ensures ByPrio(threads, row) ==> ByPrio(after, Del(row, t))
    ensures Inherits(threads, owner, row) ==> Inherits(after, owner, Del(row, t))
    ensures row == [] ==> Del(row, t) == []
  {
    hide Del, Removed;
    DelHas(row, t);
    var i :| 0 <= i < |row| && row[i] == t;
    DelIs(row, t, i);
    var r := Del(row, t);
    forall a, b | ByPrio(threads, row) && 0 <= a < b < |r|
      ensures 0 <= r[a] < |after| && 0 <= r[b] < |after| && after[r[a]].prio <= after[r[b]].prio
    {
      RemovedAt(row, i, a);
      RemovedAt(row, i, b);
    }
    forall j | ByPrio(threads, row) && 0 <= j < |r|
      ensures 0 <= r[j] < |after|
    {
      RemovedAt(row, i, j);
    }
  }

  // ----- runs -----

  /** A section about a mutex, or any other of the scheduler's. */
  datatype MutexStep =
    | Takes(m: int, time: int)
    | Releases(m: int)
    | Returning
    | Other(step: Step)

  /**
   The current thread starts a call only when it is not in the middle of one; it takes a mutex only
   if it owns no other, and exits owning none.  Nobody resumes a thread that waits for a mutex or
   changes the priority of a thread that waits for one or owns one.
   */
  ghost predicate MayStep(s: Sys, st: MutexStep, idle: int)
    requires Good(s)
  {
    var c := s.k.cur;
    match st
    case Takes(m, time) =>
      && 0 <= m < |s.mutexes| && s.k.threads[c].stat == Running && s.pending[c] == -1 && c != idle
      && forall n :: 0 <= n < |s.mutexes| && n != m ==> s.mutexes[n].owner != c
    case Releases(m) => 0 <= m < |s.mutexes| && s.k.threads[c].stat == Running && s.pending[c] == -1
    case Returning => s.k.threads[c].stat == Running && s.pending[c] != -1
    case Other(step) => Enabled(s.k, step, idle) && MayOther(s, step)
  }

  ghost predicate MayOther(s: Sys, step: Step)
    requires s.k.Ok() && Sizes(s)
  {
    var c := s.k.cur;
    match step
    case Waits(w, _, _) => w >= |s.mutexes| && s.pending[c] == -1
    case Sleeps => s.pending[c] == -1
    case Exits => s.pending[c] == -1 && Uninvolved(s, c)
    case Resuming(t) => s.k.Has(t) ==> !(0 <= s.k.threads[t].at < |s.mutexes|)
    case Detaching(t) => s.k.Has(t) ==> !(0 <= s.k.threads[t].at < |s.mutexes|)
    case SetPrio(t, _) => s.k.Has(t) ==> Uninvolved(s, t)
    case _ => true
  }

  ghost function BaseAfter(s: Sys, step: Step): seq<int>
    requires Sizes(s)
  {
    match step
    case SetPrio(t, prio) => if s.k.Has(t) then s.base[t := prio] else s.base
    case Starts(t) => if s.k.Has(t) then s.base[t := s.k.threads[t].initPrio] else s.base
    case _ => s.base
  }

  ghost function MutexNext(s: Sys, st: MutexStep, idle: int): (r: Sys)
    requires Good(s) && MayStep(s, st, idle)
    ensures |r.k.threads| == |s.k.threads| && |r.mutexes| == |s.mutexes|
  {
    match st
    case Takes(m, time) =>
      TakeKeeps(s, m, time);
      TakenBy(s, m, time)
    case Releases(m) =>
      ReleaseKeeps(s, m);
      ReleasedBy(s, m)
    case Returning => s.(pending := s.pending[s.k.cur := -1])
    case Other(step) => s.(k := Next(s.k, step, idle), base := BaseAfter(s, step))
  }

  lemma ReturnKeeps(s: Sys)
    requires Good(s) && s.k.threads[s.k.cur].stat == Running && s.pending[s.k.cur] != -1
    ensures Good(s.(pending := s.pending[s.k.cur := -1]))
    ensures var m := s.pending[s.k.cur];
            0 <= m < |s.mutexes| &&
            if s.k.threads[s.k.cur].error == EOK then s.mutexes[m].owner == s.k.cur
            else s.k.threads[s.k.cur].error == -ETIMEOUT && s.mutexes[m].owner != s.k.cur
  {
    hide ByPrio, Inherits, ReadyOk, WaitsOk, GroupOk;
    var c := s.k.cur;
    var s1 := s.(pending := s.pending[c := -1]);
    assert PendingOk(s, c);
    CurSane(s.k);
    forall n | 0 <= n < |s.mutexes|
      ensures MutexOk(s1, n)
    {
      assert MutexOk(s, n);
    }
    forall u | 0 <= u < |s.k.threads|
      ensures Restored(s1, u) && PendingOk(s1, u)
    {
      assert Restored(s, u) && PendingOk(s, u);
    }
  }

  /** All other sections leave the mutexes alone, unless a thread waiting for one times out. */
  lemma OtherCalm(s: Sys, step: Step, idle: int)
    requires Good(s) && Enabled(s.k, step, idle) && MayOther(s, step)
    requires step.Expires? ==> !(0 <= s.k.threads[step.t].at < |s.mutexes|)
    ensures Calm(s, Next(s.k, step, idle), BaseAfter(s, step))
  {
    hide MutexOk;
    var k1, base1 := Next(s.k, step, idle), BaseAfter(s, step);
    forall t | 0 <= t < |s.base|
      ensures CalmAt(s, k1, base1, t)
    {
      OtherCalmAt(s, step, idle, t);
    }
    OtherWaits(s, step, idle);
  }

  lemma OtherWaits(s: Sys, step: Step, idle: int)
    requires Good(s) && Enabled(s.k, step, idle) && MayOther(s, step)
    requires step.Expires? ==> !(0 <= s.k.threads[step.t].at < |s.mutexes|)
    ensures var k1 := Next(s.k, step, idle);
            |k1.waits| == |s.k.waits| && forall m :: 0 <= m < |s.mutexes| ==> k1.waits[m] == s.k.waits[m]
  {
    hide Kernel.Ok, MutexOk, Restored, PendingOk;
  }

  lemma InitUninvolved(s: Sys, t: int)
    requires Good(s) && s.k.Has(t) && s.k.threads[t].stat == Init
    ensures Uninvolved(s, t) && s.pending[t] == -1
  {
    SaneAt(s.k, t);
    assert PendingOk(s, t);
    forall m | 0 <= m < |s.mutexes|
      ensures s.mutexes[m].owner != t
    {
      assert MutexOk(s, m);
    }
  }

  lemma OtherCalmAt(s: Sys, step: Step, idle: int, t: int)
    requires Good(s) && Enabled(s.k, step, idle) && MayOther(s, step) && s.k.Has(t)
    requires step.Expires? ==> !(0 <= s.k.threads[step.t].at < |s.mutexes|)
    ensures CalmAt(s, Next(s.k, step, idle), BaseAfter(s, step), t)
  {
    hide ReadyOk, GroupOk, WaitsOk, MutexOk, Restored, Uninvolved, Next, Mask;
    SaneAt(s.k, t);
    CurSane(s.k);
    NextThread(s.k, step, idle, t);
    assert PendingOk(s, t);
    if step.Expires? {
      SaneAt(s.k, step.t);
      assert PendingOk(s, step.t);
    } else if step.Starts? {
      SaneAt(s.k, step.t);
      InitUninvolved(s, step.t);
    }
    hide Kernel.Ok;
  }

  lemma StepKeeps(s: Sys, st: MutexStep, idle: int)
    requires Good(s) && MayStep(s, st, idle)
    ensures Good(MutexNext(s, st, idle))
  {
    hide Kernel.Ok, MutexOk, Restored, PendingOk, Calm;
    match st
    case Takes(m, time) => TakeKeeps(s, m, time);
    case Releases(m) => ReleaseKeeps(s, m);
    case Returning => ReturnKeeps(s);
    case Other(step) =>
      if step.Expires? && 0 <= s.k.threads[step.t].at < |s.mutexes| {
        TimeoutKeeps(s, step.t);
      } else {
        OtherCalm(s, step, idle);
        CalmKeeps(s, Next(s.k, step, idle), BaseAfter(s, step));
      }
  }

  ghost predicate MutexStepAt(ss: seq<Sys>, steps: seq<MutexStep>, idle: int, i: int)
    requires 0 <= i < |steps| && |ss| == |steps| + 1
  {
    Good(ss[i]) ==> MayStep(ss[i], steps[i], idle) && ss[i + 1] == MutexNext(ss[i], steps[i], idle)
  }

  /** A run from a state in which nobody owns or waits for a mutex. */
  ghost predicate MutexRun(ss: seq<Sys>, steps: seq<MutexStep>, idle: int) {
    && |ss| == |steps| + 1 && AtRest(ss[0])
    && forall i :: 0 <= i < |steps| ==> MutexStepAt(ss, steps, idle, i)
  }

  ghost predicate AtRest(s: Sys) {
    && s.k.Ok() && Sizes(s)
    && (forall m :: 0 <= m < |s.mutexes| ==>
          s.k.waits[m] == [] && s.mutexes[m] == Mutex(1, -1, 0, NO_PRIO, s.mutexes[m].byPrio))
    && (forall t :: 0 <= t < |s.k.threads| ==> s.base[t] == s.k.threads[t].prio && s.pending[t] == -1)
  }

  lemma RestIsGood(s: Sys)
    requires AtRest(s)
    ensures Good(s)
  {
    forall m | 0 <= m < |s.mutexes|
      ensures MutexOk(s, m)
    {
      EmptyRow(s.k.threads, -1, s.k.waits[m]);
    }
    forall t | 0 <= t < |s.k.threads|
      ensures Restored(s, t) && PendingOk(s, t)
    {
    }
  }

  /**
   Priority inheritance.  In every state of every run: the owner of a mutex whose waiting threads
   queue by priority is as urgent as each of them, after hand-offs and timeouts too; a thread that
   owns no mutex has the priority it was given; and at most the owner has another, a more urgent one.
   */
  lemma {:induction false} Inheritance(ss: seq<Sys>, steps: seq<MutexStep>, idle: int, i: nat)
    requires MutexRun(ss, steps, idle) && i <= |steps|
    ensures Good(ss[i])
    ensures var s := ss[i];
            && (forall m, t :: 0 <= m < |s.mutexes| && s.mutexes[m].byPrio && t in s.k.waits[m] ==>
                  s.k.Has(s.mutexes[m].owner) && s.k.Has(t) && s.k.threads[s.mutexes[m].owner].prio <= s.k.threads[t].prio)
            && (forall t :: 0 <= t < |s.base| && (forall m :: 0 <= m < |s.mutexes| ==> s.mutexes[m].owner != t) ==>
                  s.k.threads[t].prio == s.base[t])
  {
    hide Kernel.Ok, AtRest, MayStep, MutexNext, ByPrio, OwnerOk, PendingOk;
    if i > 0 {
      Inheritance(ss, steps, idle, i - 1);
      assert MutexStepAt(ss, steps, idle, i - 1);
      StepKeeps(ss[i - 1], steps[i - 1], idle);
    } else {
      RestIsGood(ss[0]);
    }
    var s := ss[i];
    forall m, t | 0 <= m < |s.mutexes| && s.mutexes[m].byPrio && t in s.k.waits[m]
      ensures s.k.Has(s.mutexes[m].owner) && s.k.Has(t) && s.k.threads[s.mutexes[m].owner].prio <= s.k.threads[t].prio
    {
      assert MutexOk(s, m);
    }
    forall t | 0 <= t < |s.base| && (forall m :: 0 <= m < |s.mutexes| ==> s.mutexes[m].owner != t)
      ensures s.k.threads[t].prio == s.base[t]
    {
      assert Restored(s, t);
    }
  }

  // ----- hand-off under either flag -----

  /**
   After a hand-off the new owner is as urgent as the threads left waiting exactly if the first
   thread of the wait list was as urgent as all of them; with the FIFO flag it need not be.
   */
  lemma HandOffInherits(s: Sys, m: int)
    requires Good(s) && 0 <= m < |s.mutexes| && s.mutexes[m].owner == s.k.cur && s.mutexes[m].hold == 1 && s.k.waits[m] != []
    ensures s.mutexes[m].original != s.k.threads[s.k.cur].prio ==> 0 <= s.mutexes[m].original < PRIORITIES
    ensures 0 <= s.mutexes[m].original
    ensures var r, row := ReleasedBy(s, m), s.k.waits[m];
            && r.mutexes[m].owner == row[0] && r.k.waits[m] == row[1..]
            && (Inherits(r.k.threads, row[0], row[1..]) <==> Inherits(s.k.threads, row[0], row))
  {
    hide Kernel.Ok, ByPrio, Resumed, Reprioritized, Inherits;
    var c, mu, row := s.k.cur, s.mutexes[m], s.k.waits[m];
    assert MutexOk(s, m) && row[0] in row;
    WaiterOf(s, m, row[0]);
    OwnerNoWaiter(s, m, m);
    WaitersThere(s.k, m);
    HeadOff(row);
    var k1 := if mu.original != s.k.threads[c].prio then Reprioritized(s.k, c, mu.original) else s.k;
    var r := ReleasedBy(s, m);
    SameUrgency(s.k.threads, r.k.threads, row);
  }

  lemma HeadOff(row: seq<int>)
    requires row != []
    ensures Del(row, row[0]) == row[1..]
  {
  }

  lemma SameUrgency(threads: seq<Thread>, after: seq<Thread>, row: seq<int>)
    requires row != [] && |after| == |threads|
    requires forall t :: t in row ==> 0 <= t < |threads| && after[t].prio == threads[t].prio
    ensures Inherits(after, row[0], row[1..]) <==> Inherits(threads, row[0], row)
  {
    assert forall t :: t in row <==> t == row[0] || t in row[1..];
  }
}
