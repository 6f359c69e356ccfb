/**
 An event set object of the kernel and its two operations.
 */
module EventOps {
  import opened Lists
  import opened Bits
  import opened Threads
  import opened Scheduler
  import opened ThreadOps
  import opened EventRuns
  import E = Events

  /** Resuming the threads of `gs` and telling them leads to where the whole sweep was to lead. */
  ghost predicate Ahead(k1: Kernel, info: Infos, flags: nat, gs: seq<E.Grant>, k: Kernel, info0: Infos,
                        all: (nat, seq<E.Waiter>, seq<E.Grant>))
  {
    && k1.Ok() && AllThere(k1, gs) && InfoOk(info, |k1.threads|)
    && k.Ok() && AllThere(k, all.2) && InfoOk(info0, |k.threads|)
    && flags == all.0 && AllResumed(k1, gs) == AllResumed(k, all.2) && Told(info, gs) == Told(info0, all.2)
  }

  /** The sweep has reached position `n`: what is left to do leads there. */
  ghost predicate Sweeping(k1: Kernel, list: int, flags: nat, info: Infos, n: nat, k: Kernel, info0: Infos,
                           all: (nat, seq<E.Waiter>, seq<E.Grant>), some: bool)
  {
    && 0 <= list < |k1.waits| && n <= |k1.waits[list]|
    && (forall j :: 0 <= j < |k1.waits[list]| ==> 0 <= k1.waits[list][j] < |info|)
    && var q := E.Swept(flags, WaitersOf(k1.waits[list][n..], info));
    && Ahead(k1, info, q.0, q.2, k, info0, all) && (some || q.2 != [] <==> all.2 != [])
  }

  lemma SweepTells(k: Kernel, list: int, flags: nat, info: Infos)
    requires k.Ok() && 0 <= list < |k.waits| && InfoOk(info, |k.threads|)
    ensures var row := k.waits[list];
            && (forall j :: 0 <= j < |row| ==> 0 <= row[j] < |info|)
            && var q := E.Swept(flags, WaitersOf(row, info));
            && (forall j :: 0 <= j < |q.2| ==> 0 <= q.2[j].thread < |info|)
            && Delivered(info, Told(info, q.2), row, ThreadsTold(q.2), flags, q.0)
  {
    WaitersThere(k, list);
    hide Kernel.Ok, Told, E.Swept, Delivered;
    SweepDelivers(k.waits[list], flags, info);
  }

  lemma SweepStarts(k: Kernel, list: int, flags: nat, info: Infos)
    requires k.Ok() && 0 <= list < |k.waits| && InfoOk(info, |k.threads|)
    ensures forall j :: 0 <= j < |k.waits[list]| ==> 0 <= k.waits[list][j] < |info|
    ensures Sweeping(k, list, flags, info, 0, k, info, E.Swept(flags, WaitersOf(k.waits[list], info)), false)
  {
    WaitersThere(k, list);
    hide Kernel.Ok, Told, AllResumed;
    assert k.waits[list][0..] == k.waits[list];
    GrantedThere(flags, WaitersOf(k.waits[list], info));
  }

  lemma {:induction false} GrantedThere(flags: nat, ws: seq<E.Waiter>)
    ensures forall g :: g in E.Swept(flags, ws).2 ==> exists w :: w in ws && w.thread == g.thread
    decreases |ws|
  {
    hide E.Satisfied, E.Share, E.Without;
    if ws != [] {
      GrantedThere(if E.Satisfied(flags, ws[0]) then E.Without(flags, ws[0]) else flags, ws[1..]);
      assert ws[0] in ws;
    }
  }

  /** A thread is resumed. */
  lemma SweepGoesOn(k1: Kernel, list: int, flags: nat, info: Infos, n: nat, k: Kernel, info0: Infos,
                    all: (nat, seq<E.Waiter>, seq<E.Grant>), some: bool)
    requires Sweeping(k1, list, flags, info, n, k, info0, all, some) && n < |k1.waits[list]|
    requires E.Satisfied(flags, info[k1.waits[list][n]])
    ensures var t, w := k1.waits[list][n], info[k1.waits[list][n]];
            k1.Has(t) && k1.threads[t].stat == Suspend && |Resumed(k1, t).waits[list]| == |k1.waits[list]| - 1 &&
            Sweeping(Resumed(k1, t), list, E.Without(flags, w), info[t := w.(want := E.Share(flags, w))], n, k, info0, all, true)
  {
    hide Kernel.Ok, E.Satisfied, E.Without, E.Share;
    var row, t := k1.waits[list], k1.waits[list][n];
    ResumedRow(k1, list, n);
    var w := info[t];
    var info1, g := info[t := w.(want := E.Share(flags, w))], E.Grant(t, E.Share(flags, w));
    GrantFirst(row, n, flags, info);
    var q := E.Swept(E.Without(flags, w), WaitersOf(row[n + 1..], info1));
    hide E.Swept, WaitersOf, Removed, Resumed, Told, AllResumed;
    TakesOne(k1, info, g, q.2);
    assert Ahead(Resumed(k1, t), info1, q.0, q.2, k, info0, all);
    hide Ahead;
  }

  lemma ResumedRow(k: Kernel, list: int, n: nat)
    requires k.Ok() && 0 <= list < |k.waits| && n < |k.waits[list]|
    ensures var t, row := k.waits[list][n], k.waits[list];
            && k.Has(t) && k.threads[t].stat == Suspend && Distinct(row) && (forall j :: 0 <= j < |row| ==> k.Has(row[j]))
            && var r := Resumed(k, t);
            && |r.threads| == |k.threads| && |r.waits| == |k.waits| && r.waits[list] == Removed(row, n)
            && r.waits[list][n..] == row[n + 1..] && forall j :: 0 <= j < |r.waits[list]| ==> k.Has(r.waits[list][j])
  {
    var row, t := k.waits[list], k.waits[list][n];
    WaitersThere(k, list);
    hide Kernel.Ok, Del;
    assert t in row;
    DelIs(row, t, n);
    assert forall j :: 0 <= j < |row| - 1 ==> Removed(row, n)[j] in row;
  }

  lemma TakesOne(k1: Kernel, info: Infos, g: E.Grant, gs: seq<E.Grant>)
    requires k1.Ok() && AllThere(k1, [g] + gs) && InfoOk(info, |k1.threads|)
    ensures k1.Has(g.thread) && AllThere(k1, gs) && AllThere(Resumed(k1, g.thread), gs)
    ensures AllResumed(k1, [g] + gs) == AllResumed(Resumed(k1, g.thread), gs)
    ensures Told(info, [g] + gs) == Told(info[g.thread := info[g.thread].(want := g.bits)], gs)
  {
    hide Kernel.Ok;
    assert g in [g] + gs && ([g] + gs)[1..] == gs;
    RestThere(k1, Resumed(k1, g.thread), [g] + gs);
    RestThere(k1, k1, [g] + gs);
  }

  lemma GrantFirst(row: seq<int>, n: nat, flags: nat, info: Infos)
    requires n < |row| && Distinct(row) && (forall j :: 0 <= j < |row| ==> 0 <= row[j] < |info|) && InfoOk(info, |info|)
    requires E.Satisfied(flags, info[row[n]])
    ensures var w := info[row[n]];
            var q := E.Swept(E.Without(flags, w), WaitersOf(row[n + 1..], info[row[n] := w.(want := E.Share(flags, w))]));
            E.Swept(flags, WaitersOf(row[n..], info)) == (q.0, q.1, [E.Grant(row[n], E.Share(flags, w))] + q.2)
  {
    hide E.Satisfied, E.Without, E.Share;
    var w := info[row[n]];
    assert WaitersOf(row[n..], info)[1..] == WaitersOf(row[n + 1..], info);
    assert WaitersOf(row[n + 1..], info) == WaitersOf(row[n + 1..], info[row[n] := w.(want := E.Share(flags, w))]);
  }

  lemma SweepHas(k1: Kernel, list: int, flags: nat, info: Infos, n: nat, k: Kernel, info0: Infos,
                 all: (nat, seq<E.Waiter>, seq<E.Grant>), some: bool)
    requires Sweeping(k1, list, flags, info, n, k, info0, all, some)
    ensures k1.Ok() && 0 <= list < |k1.waits| && n <= |k1.waits[list]| && InfoOk(info, |k1.threads|)
    ensures n < |k1.waits[list]| ==> k1.Has(k1.waits[list][n])
  {
    hide Kernel.Ok;
  }

  /** A thread is passed over. */
  lemma SweepPassesBy(k1: Kernel, list: int, flags: nat, info: Infos, n: nat, k: Kernel, info0: Infos,
                      all: (nat, seq<E.Waiter>, seq<E.Grant>), some: bool)
    requires Sweeping(k1, list, flags, info, n, k, info0, all, some) && n < |k1.waits[list]|
    requires !E.Satisfied(flags, info[k1.waits[list][n]])
    ensures Sweeping(k1, list, flags, info, n + 1, k, info0, all, some)
  {
    hide Kernel.Ok, E.Satisfied, AllResumed, Told;
    var row := k1.waits[list];
    assert WaitersOf(row[n..], info)[1..] == WaitersOf(row[n + 1..], info);
  }

  lemma InfoThere(info: Infos, n: int)
    requires InfoOk(info, n)
    ensures |info| == n
  {
  }

  lemma SweepEnds(k1: Kernel, list: int, flags: nat, info: Infos, n: nat, k: Kernel, info0: Infos,
                  all: (nat, seq<E.Waiter>, seq<E.Grant>), some: bool)
    requires Sweeping(k1, list, flags, info, n, k, info0, all, some) && n == |k1.waits[list]|
    ensures AllThere(k, all.2) && flags == all.0 && info == Told(info0, all.2) && k1 == AllResumed(k, all.2)
    ensures some <==> all.2 != []
  {
    hide Kernel.Ok, E.Satisfied;
    assert WaitersOf(k1.waits[list][n..], info) == [];
  }

  lemma ImmediateBits(flags: nat, w: E.Waiter)
    requires E.Satisfied(flags, w)
    ensures var (got, left) := E.Immediate(flags, w);
            && (forall p: nat :: Bit(got, p) <==> Bit(flags, p) && Bit(w.want, p))
            && (forall p: nat :: Bit(left, p) <==> Bit(flags, p) && !(w.clear && Bit(got, p)))
  {
    hide E.Satisfied, E.Immediate, Bit;
    var r := E.Immediate(flags, w);
    forall p: nat
      ensures Bit(r.0, p) <==> Bit(flags, p) && Bit(w.want, p)
      ensures Bit(r.1, p) <==> Bit(flags, p) && !(w.clear && Bit(r.0, p))
    {
      E.BitsGot(flags, w, p);
    }
  }

  class EventSet {
    const system: System
    const list: int    // its wait list
    const byPrio: bool
    var flags: nat
    var info: Infos    // event_set and event_info of the threads

    ghost predicate Valid()
      reads this, system
    {
      system.Valid() && 0 <= list < |system.waits| && InfoOk(info, |system.threads|)
    }

    /** rt_event_init */
    constructor (system: System, list: int, byPrio: bool, info: Infos)
      requires system.Valid() && 0 <= list < |system.waits| && InfoOk(info, |system.threads|)
      ensures Valid() && this.system == system && this.list == list && this.byPrio == byPrio && flags == 0 && this.info == info
    {
      this.system, this.list, this.byPrio, this.flags, this.info := system, list, byPrio, 0, info;
    }

    /** rt_event_send */
    method Send(bits: nat) returns (r: Outcome, ghost ts: seq<int>)
      requires Valid()
      modifies this, system
      ensures old(Valid()) && Valid()
      ensures r == Returns(if bits == 0 then -ERROR else EOK)
      ensures bits == 0 ==> flags == old(flags) && info == old(info) && system.Abs() == old(system.Abs())
      ensures bits != 0 ==>
        var k, row := old(system.Abs()), old(system.waits)[list];
        && (forall j :: 0 <= j < |row| ==> 0 <= row[j] < |old(info)|)
        && var q := E.Swept(Or(old(flags), bits), WaitersOf(row, old(info)));
        && AllThere(k, q.2) && flags == q.0 && info == Told(old(info), q.2)
        && system.Abs() == if q.2 == [] then AllResumed(k, q.2) else Scheduled(AllResumed(k, q.2))
      ensures bits != 0 ==> Delivered(old(info), info, old(system.waits)[list], ts, Or(old(flags), bits), flags)
    {
      hide Kernel.Ok, E.Swept, Or, Scheduled, AllResumed, AllThere, Told, WaitersOf, Delivered;
      if bits == 0 {
        return Returns(-ERROR), [];
      }
      flags := Or(flags, bits);
      var reschedule;
      reschedule, ts := ResumeSatisfied();
      if reschedule {
        system.Schedule();
      }
      r := Returns(EOK);
    }

    /** The loop over the wait list resumes each thread that what is left of the set satisfies. */
    method ResumeSatisfied() returns (reschedule: bool, ghost ts: seq<int>)
      requires Valid()
      modifies this, system
      ensures old(Valid()) && Valid()
      ensures var k, row := old(system.Abs()), old(system.waits)[list];
              && (forall j :: 0 <= j < |row| ==> 0 <= row[j] < |old(info)|)
              && var q := E.Swept(old(flags), WaitersOf(row, old(info)));
              && AllThere(k, q.2) && flags == q.0 && info == Told(old(info), q.2)
              && system.Abs() == AllResumed(k, q.2) && (reschedule <==> q.2 != [])
              && Delivered(old(info), info, row, ts, old(flags), flags)
    {
      hide Kernel.Ok, E.Satisfied, E.Share, E.Swept, AndNot, Resumed, AllResumed, AllThere, Sweeping, Told, WaitersOf, InfoOk, Delivered;
      ghost var k, info0 := system.Abs(), info;
      SweepStarts(k, list, flags, info);
      ghost var all := E.Swept(flags, WaitersOf(k.waits[list], info));
      SweepTells(k, list, flags, info);
      ts := ThreadsTold(all.2);
      reschedule := false;
      var n := 0;
      while n < |system.waits[list]|
        invariant system.Valid() && 0 <= list < |system.waits| && 0 <= n <= |system.waits[list]|
        invariant Sweeping(system.Abs(), list, flags, info, n, k, info0, all, reschedule)
        decreases |system.waits[list]| - n
      {
        SweepHas(system.Abs(), list, flags, info, n, k, info0, all, reschedule);
        var t := system.waits[list][n];
        InfoThere(info, |system.threads|);
        var w := info[t];
        if E.Satisfied(flags, w) {
          SweepGoesOn(system.Abs(), list, flags, info, n, k, info0, all, reschedule);
          var got := E.Share(flags, w);
          info := info[t := w.(want := got)];
          if w.clear {
            flags := AndNot(flags, got);
          }
          var _ := system.ResumeThread(t);
          reschedule := true;
          SweepHas(system.Abs(), list, flags, info, n, k, info0, all, reschedule);
        } else {
          SweepPassesBy(system.Abs(), list, flags, info, n, k, info0, all, reschedule);
          n := n + 1;
        }
      }
      SweepHas(system.Abs(), list, flags, info, n, k, info0, all, reschedule);
      SweepEnds(system.Abs(), list, flags, info, n, k, info0, all, reschedule);
    }

    /** rt_event_recv, up to and including the switch if the thread has to wait; then `got` is for it to read when it runs again. */
    method Recv(want: nat, both: bool, clear: bool, timeout: int) returns (r: Outcome, got: nat)
      requires Valid() && system.threads[system.cur].stat == Running
      modifies this, system
      ensures old(Valid()) && Valid() && old(system.Abs()).Has(old(system.cur))
      ensures var k, c := old(system.Abs()), old(system.cur);
              var w := E.Waiter(c, want, both, clear);
              if want == 0 then r == Returns(-ERROR) && flags == old(flags) && info == old(info) && system.Abs() == k
              else if E.Satisfied(old(flags), w) then
                && r == Returns(EOK) && (got, flags) == E.Immediate(old(flags), w)
                && info == old(info)[c := w.(want := got)] && system.Abs() == WithError(k, c, EOK)
              else if timeout == 0 then
                r == Returns(-ETIMEOUT) && flags == old(flags) && info == old(info) && system.Abs() == WithError(k, c, -ETIMEOUT)
              else
                && r == Blocks && flags == old(flags) && info == old(info)[c := w]
                && system.Abs() == Scheduled(Blocked(k, list, byPrio, timeout))
      ensures r == Returns(EOK) ==> forall p: nat :: Bit(got, p) <==> Bit(old(flags), p) && Bit(want, p)
      ensures r == Returns(EOK) ==> forall p: nat :: Bit(flags, p) <==> Bit(old(flags), p) && !(clear && Bit(got, p))
    {
      hide Kernel.Ok, E.Satisfied, Scheduled, Blocked;
      CurSane(system.Abs());
      got := 0;
      if want == 0 {
        return Returns(-ERROR), got;
      }
      var c := system.cur;
      var w := E.Waiter(c, want, both, clear);
      if E.Satisfied(flags, w) {
        ImmediateBits(flags, w);
        system.SetError(c, EOK);
        got := And(flags, want);
        info := info[c := w.(want := got)];
        if clear {
          flags := AndNot(flags, want);
        }
        return Returns(EOK), got;
      }
      if timeout == 0 {
        system.SetError(c, -ETIMEOUT);
        return Returns(-ETIMEOUT), got;
      }
      info := info[c := w];
      system.Block(list, byPrio, timeout);
      r := Blocks;
    }
  }
}
