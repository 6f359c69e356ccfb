/**
 What the callers of a mutex are told, and that at most one of them is inside at a time.
 */
module MutualExclusion {
  import opened Lists
  import opened Threads
  import opened Scheduler
  import opened Mutexes

  /** The current thread may call: it runs, is not in the middle of a call, and owns no other mutex. */
  ghost predicate MayTake(s: Sys, m: int) {
    && Good(s) && 0 <= m < |s.mutexes| && s.k.Has(s.k.cur) && s.k.threads[s.k.cur].stat == Running && s.pending[s.k.cur] == -1
    && forall n :: 0 <= n < |s.mutexes| && n != m ==> s.mutexes[n].owner != s.k.cur
  }

  ghost function TakeOutcome(s: Sys, m: int, time: int): Outcome
    requires s.k.Ok() && Sizes(s) && 0 <= m < |s.mutexes| && s.k.threads[s.k.cur].stat == Running
    requires s.mutexes[m].value <= 0 ==> s.k.Has(s.mutexes[m].owner)
  {
    Taken(s.k, s.mutexes[m], m, time).2
  }

  /**
   The answer of a take.  It is success exactly if the mutex is the caller's afterwards, held once
   more than before; a timeout exactly if another thread owns it and the caller would not wait; a
   full count exactly if the caller holds it as often as can be; and else the caller waits.
   */
  lemma TakeAnswers(s: Sys, m: int, time: int)
    requires MayTake(s, m)
    ensures s.mutexes[m].value <= 0 ==> s.k.Has(s.mutexes[m].owner)
    ensures var r, c, mu, mu1 := TakeOutcome(s, m, time), s.k.cur, s.mutexes[m], TakenBy(s, m, time).mutexes[m];
            && (r == Returns(EOK) <==> mu1.owner == c && mu1.hold == mu.hold + 1)
            && (r == Returns(EOK) <==> mu.owner == -1 || (mu.owner == c && mu.hold < HOLD_MAX))
            && (r == Returns(-EFULL) <==> mu.owner == c && mu.hold == HOLD_MAX)
            && (r == Returns(-ETIMEOUT) <==> mu.owner != -1 && mu.owner != c && time == 0)
            && (r == Blocks <==> mu.owner != -1 && mu.owner != c && time != 0)
            && (r != Returns(EOK) ==> mu1 == mu)
  {
    hide Kernel.Ok, ByPrio, Inherits, Waiting, Lent, Armed, WithError, Restored, PendingOk;
    assert MutexOk(s, m);
    CurSane(s.k);
  }

  /** A take that returns changes nothing about any thread but the caller's error, which is its answer or, for a full count, cleared. */
  lemma TakeReturns(s: Sys, m: int, time: int)
    requires MayTake(s, m)
    ensures s.mutexes[m].value <= 0 ==> s.k.Has(s.mutexes[m].owner)
    ensures var r, s1, c := TakeOutcome(s, m, time), TakenBy(s, m, time), s.k.cur;
            r != Blocks ==>
              && s1.k == s.k.(threads := s.k.threads[c := s.k.threads[c].(error := if r == Returns(-ETIMEOUT) then -ETIMEOUT else EOK)])
              && s1.base == s.base && s1.pending == s.pending
              && (s.mutexes[m].owner == -1 ==> s1.mutexes[m].original == s.base[c])
  {
    hide Kernel.Ok, ByPrio, Inherits, Waiting, Lent, Armed, PendingOk;
    assert MutexOk(s, m) && Restored(s, s.k.cur);
    CurSane(s.k);
  }

  /**
   A take that waits: the caller is suspended and stands in the wait list where the flag puts it, with
   its timer running exactly if its time is positive; the owner is as urgent as the caller or as it
   was, and no more urgent than that; nobody else is concerned.
   */
  lemma TakeWaits(s: Sys, m: int, time: int)
    requires MayTake(s, m) && s.mutexes[m].owner != -1 && s.mutexes[m].owner != s.k.cur && time != 0
    ensures s.k.Has(s.mutexes[m].owner)
    ensures var s1, c, o, mu := TakenBy(s, m, time), s.k.cur, s.mutexes[m].owner, s.mutexes[m];
            && |s1.k.threads| == |s.k.threads| && s1.k.cur == c && s1.k.locks == s.k.locks
            && s1.k.threads[c] == s.k.threads[c].(stat := Suspend, error := EOK, at := m, armed := time > 0)
            && s1.k.threads[o] == s.k.threads[o].(prio := Min(s.k.threads[o].prio, s.k.threads[c].prio), mask := s1.k.threads[o].mask)
            && (forall u :: 0 <= u < |s.k.threads| && u != c && u != o ==> s1.k.threads[u] == s.k.threads[u])
            && s1.k.waits == s.k.waits[m := Inserted(s.k.waits[m], PlaceOf(s.k, m, mu.byPrio), c)]
            && s1.mutexes == s.mutexes && s1.base == s.base && s1.pending == s.pending[c := m]
  {
    hide Kernel.Ok, ByPrio, Inherits, Waiting, Lent, Armed, Restored, PendingOk, WithError, WaitPlace;
    assert MutexOk(s, m);
    CurSane(s.k);
    var k0 := WithError(s.k, s.k.cur, EOK);
    var k2 := Lent(k0, s.mutexes[m].owner, s.k.threads[s.k.cur].prio);
    WaitersThere(s.k, m);
    assert forall u :: 0 <= u < |s.k.threads| ==> u != s.mutexes[m].owner ==> k2.threads[u].prio == s.k.threads[u].prio;
    OwnerNoWaiter(s, m, m);
    SamePlaceFor(s.k.threads, k2.threads, s.k.waits[m], s.k.threads[s.k.cur].prio);
    assert s.mutexes[m := s.mutexes[m]] == s.mutexes;
  }

  lemma {:induction false} SamePlaceFor(threads: seq<Thread>, after: seq<Thread>, row: seq<int>, prio: int)
    requires |after| == |threads| && forall j :: 0 <= j < |row| ==> 0 <= row[j] < |threads|
    requires forall t :: t in row && 0 <= t < |threads| ==> after[t].prio == threads[t].prio
    ensures WaitPlace(after, row, prio) == WaitPlace(threads, row, prio)
  {
    if row != [] {
      SamePlaceFor(threads, after, row[1..], prio);
    }
  }

  /** The release that the owner, or another thread, makes. */
  ghost predicate MayRelease(s: Sys, m: int) {
    && Good(s) && 0 <= m < |s.mutexes| && s.k.Has(s.k.cur) && s.k.threads[s.k.cur].stat == Running && s.pending[s.k.cur] == -1
  }

  ghost function ReleaseOutcome(s: Sys, m: int): Outcome
    requires s.k.Ok() && Sizes(s) && 0 <= m < |s.mutexes| && 0 <= s.mutexes[m].original
    requires s.mutexes[m].owner == s.k.cur && s.mutexes[m].original != s.k.threads[s.k.cur].prio ==> s.mutexes[m].original < PRIORITIES
  {
    Released(s.k, s.mutexes[m], m).2
  }

  /**
   The answer of a release.  It is success exactly if the caller owned the mutex, which it then holds
   once less; with the last hold it has its own priority back, and the first thread that waits, if
   any, becomes the owner and is resumed.  To anybody else it is refused and changes nothing.
   */
  lemma ReleaseAnswers(s: Sys, m: int)
    requires MayRelease(s, m)
    ensures 0 <= s.mutexes[m].original
    ensures s.mutexes[m].owner == s.k.cur && s.mutexes[m].original != s.k.threads[s.k.cur].prio ==> s.mutexes[m].original < PRIORITIES
    ensures var r, s1, c, mu := ReleaseOutcome(s, m), ReleasedBy(s, m), s.k.cur, s.mutexes[m];
            && (r == Returns(EOK) <==> mu.owner == c)
            && (Released(s.k, mu, m).3 <==> mu.owner == c && mu.hold == 1 && s.k.waits[m] != [])
            && (mu.owner != c ==> r == Returns(-ERROR) && s1.mutexes == s.mutexes && s1.k == WithError(s.k, c, -ERROR))
            && (mu.owner == c && mu.hold > 1 ==> s1.k == s.k && s1.mutexes[m] == mu.(hold := mu.hold - 1))
            && (mu.owner == c && mu.hold == 1 && s.k.waits[m] == [] ==> s1.mutexes[m] == Mutex(1, -1, 0, NO_PRIO, mu.byPrio))
            && (mu.owner == c && mu.hold == 1 ==> |s1.k.threads| == |s.k.threads| && s1.k.threads[c].prio == s.base[c])
  {
    hide Kernel.Ok, ByPrio, Inherits, Resumed, Reprioritized, WithError, Restored, PendingOk;
    var c := s.k.cur;
    assert MutexOk(s, m);
    CurSane(s.k);
    assert s.mutexes[m := s.mutexes[m]] == s.mutexes;
    if s.mutexes[m].owner == c && s.k.waits[m] != [] {
      assert s.k.waits[m][0] in s.k.waits[m];
      WaiterOf(s, m, s.k.waits[m][0]);
    }
  }

  /** The first of the threads that wait is the next owner; it is ready to return and will do so with success. */
  lemma ReleaseHandsOn(s: Sys, m: int)
    requires MayRelease(s, m) && s.mutexes[m].owner == s.k.cur && s.mutexes[m].hold == 1 && s.k.waits[m] != []
    ensures 0 <= s.mutexes[m].original
    ensures s.mutexes[m].original != s.k.threads[s.k.cur].prio ==> s.mutexes[m].original < PRIORITIES
    ensures var s1, t, mu := ReleasedBy(s, m), s.k.waits[m][0], s.mutexes[m];
            && s.k.Has(t) && t != s.k.cur && |s1.k.threads| == |s.k.threads|
            && s1.mutexes[m] == Mutex(0, t, 1, s.base[t], mu.byPrio)
            && s1.k.waits == s.k.waits[m := s.k.waits[m][1..]]
            && s1.k.threads[t] == s.k.threads[t].(stat := Ready, armed := false, at := -1)
            && s1.k.threads[t].error == EOK && s1.pending[t] == m
            && Released(s.k, mu, m).3
            && forall u :: 0 <= u < |s.k.threads| && u != t && u != s.k.cur ==> s1.k.threads[u] == s.k.threads[u]
  {
    hide Kernel.Ok, ByPrio, Inherits, Resumed, Reprioritized, WithError, Restored, PendingOk;
    assert MutexOk(s, m);
    CurSane(s.k);
    var row := s.k.waits[m];
    assert row[0] in row;
    WaiterOf(s, m, row[0]);
    HeadOff(row);
  }

  // ----- over a run -----

  /** What a section adds to the calls of thread `t` on mutex `m` that were answered with success: takes less releases. */
  ghost function Gained(s: Sys, st: MutexStep, idle: int, t: int, m: int): int
    requires Good(s) && MayStep(s, st, idle)
  {
    if s.k.cur != t then 0 else
    match st
    case Takes(n, time) =>
      TakeAnswers(s, n, time);
      if n == m && TakeOutcome(s, n, time) == Returns(EOK) then 1 else 0
    case Releases(n) =>
      ReleaseAnswers(s, n);
      if n == m && ReleaseOutcome(s, n) == Returns(EOK) then -1 else 0
    case Returning => if s.pending[t] == m && s.k.threads[t].error == EOK then 1 else 0
    case Other(_) => 0
  }

  ghost function Entries(ss: seq<Sys>, steps: seq<MutexStep>, idle: int, i: nat, t: int, m: int): int
    requires i <= |steps| && |ss| == |steps| + 1
  {
    if i == 0 then 0 else
    var s, st := ss[i - 1], steps[i - 1];
    Entries(ss, steps, idle, i - 1, t, m) + (if Good(s) && MayStep(s, st, idle) then Gained(s, st, idle, t, m) else 0)
  }

  /** How often thread `t` is inside: as often as it holds the mutex, unless it has been handed it and not returned yet. */
  ghost function Inside(s: Sys, t: int, m: int): int
    requires Good(s) && s.k.Has(t) && 0 <= m < |s.mutexes|
  {
    if s.mutexes[m].owner != t then 0 else s.mutexes[m].hold - (if s.pending[t] == m then 1 else 0)
  }

  lemma InsideStep(s: Sys, st: MutexStep, idle: int, t: int, m: int)
    requires Good(s) && MayStep(s, st, idle) && s.k.Has(t) && 0 <= m < |s.mutexes|
    ensures Good(MutexNext(s, st, idle))
    ensures Inside(MutexNext(s, st, idle), t, m) == Inside(s, t, m) + Gained(s, st, idle, t, m)
  {
    StepKeeps(s, st, idle);
    match st
    case Takes(n, time) => TakesInside(s, n, time, t, m);
    case Releases(n) => ReleasesInside(s, n, t, m);
    case Returning => ReturnKeeps(s);
    case Other(_) =>
  }

  lemma TakesInside(s: Sys, n: int, time: int, t: int, m: int)
    requires MayTake(s, n) && s.k.Has(t) && 0 <= m < |s.mutexes|
    ensures s.mutexes[n].value <= 0 ==> s.k.Has(s.mutexes[n].owner)
    ensures Good(TakenBy(s, n, time))
    ensures Inside(TakenBy(s, n, time), t, m)
            == Inside(s, t, m) + if t == s.k.cur && n == m && TakeOutcome(s, n, time) == Returns(EOK) then 1 else 0
  {
    hide Kernel.Ok, ByPrio, Inherits, Waiting, Lent, Armed, WithError, Restored, PendingOk;
    TakeKeeps(s, n, time);
    TakeAnswers(s, n, time);
    assert MutexOk(s, n) && MutexOk(s, m);
  }

  lemma ReleasesInside(s: Sys, n: int, t: int, m: int)
    requires MayRelease(s, n) && s.k.Has(t) && 0 <= m < |s.mutexes|
    ensures 0 <= s.mutexes[n].original
    ensures s.mutexes[n].owner == s.k.cur && s.mutexes[n].original != s.k.threads[s.k.cur].prio ==> s.mutexes[n].original < PRIORITIES
    ensures Good(ReleasedBy(s, n))
    ensures Inside(ReleasedBy(s, n), t, m)
            == Inside(s, t, m) - if t == s.k.cur && n == m && ReleaseOutcome(s, n) == Returns(EOK) then 1 else 0
  {
    hide Kernel.Ok, ByPrio, Inherits, Resumed, Reprioritized, WithError, Restored, PendingOk;
    ReleaseKeeps(s, n);
    ReleaseAnswers(s, n);
    assert MutexOk(s, n) && MutexOk(s, m);
    if s.mutexes[n].owner == s.k.cur && s.mutexes[n].hold == 1 && s.k.waits[n] != [] {
      ReleaseHandsOn(s, n);
    }
  }

  /**
   In every state of every run the takes of a mutex that a thread was told were successful, less its
   releases, are what the mutex accounts to it; so at most one thread is inside.
   */
  lemma {:induction false} Accounts(ss: seq<Sys>, steps: seq<MutexStep>, idle: int, i: nat, t: int, m: int)
    requires MutexRun(ss, steps, idle) && i <= |steps| && ss[0].k.Has(t) && 0 <= m < |ss[0].mutexes|
    ensures Good(ss[i]) && |ss[i].k.threads| == |ss[0].k.threads| && |ss[i].mutexes| == |ss[0].mutexes|
    ensures Entries(ss, steps, idle, i, t, m) == Inside(ss[i], t, m) >= 0
  {
    hide Kernel.Ok, MayStep, MutexNext, ByPrio, OwnerOk, PendingOk, Gained;
    if i > 0 {
      Accounts(ss, steps, idle, i - 1, t, m);
      assert MutexStepAt(ss, steps, idle, i - 1);
      InsideStep(ss[i - 1], steps[i - 1], idle, t, m);
    } else {
      RestIsGood(ss[0]);
    }
    assert MutexOk(ss[i], m);
  }

  lemma AtMostOneInside(ss: seq<Sys>, steps: seq<MutexStep>, idle: int, i: nat, t: int, u: int, m: int)
    requires MutexRun(ss, steps, idle) && i <= |steps| && ss[0].k.Has(t) && ss[0].k.Has(u) && 0 <= m < |ss[0].mutexes|
    requires Entries(ss, steps, idle, i, t, m) > 0 && Entries(ss, steps, idle, i, u, m) > 0
    ensures t == u
  {
    Accounts(ss, steps, idle, i, t, m);
    Accounts(ss, steps, idle, i, u, m);
  }
}
