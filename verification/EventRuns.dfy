/**
 Event sets on the scheduler: sending and receiving with the threads, the wait list and the timers of
 the kernel, and every run of them among everything else that threads do.
 */
module EventRuns {
  import opened Lists
  import opened Bits
  import opened Threads
  import opened Scheduler
  import opened GateWaits
  import E = Events

  /** What each thread last asked for, or was told when it was resumed. */
  type Infos = seq<E.Waiter>

  predicate InfoOk(info: Infos, n: int) {
    |info| == n && forall t :: 0 <= t < n ==> info[t].thread == t
  }

  /** What the threads of a wait list ask for, in order. */
  function WaitersOf(row: seq<int>, info: Infos): (ws: seq<E.Waiter>)
    requires forall j :: 0 <= j < |row| ==> 0 <= row[j] < |info|
    ensures |ws| == |row| && forall j :: 0 <= j < |row| ==> ws[j] == info[row[j]]
  {
    seq(|row|, j requires 0 <= j < |row| => info[row[j]])
  }

  function ThreadsOf(ws: seq<E.Waiter>): (row: seq<int>)
    ensures |row| == |ws| && forall j :: 0 <= j < |ws| ==> row[j] == ws[j].thread
  {
    seq(|ws|, j requires 0 <= j < |ws| => ws[j].thread)
  }

  /** The kernel after a send has resumed the threads, one by one. */
  ghost function AllResumed(k: Kernel, gs: seq<E.Grant>): (r: Kernel)
    requires k.Ok() && AllThere(k, gs)
    ensures r.Ok() && r.cur == k.cur && |r.threads| == |k.threads| && |r.waits| == |k.waits|
    decreases |gs|
  {
    hide Kernel.Ok;
    if gs == [] then k else
    RestThere(k, Resumed(k, gs[0].thread), gs);
    AllResumed(Resumed(k, gs[0].thread), gs[1..])
  }

  ghost predicate AllThere(k: Kernel, gs: seq<E.Grant>) {
    forall g :: g in gs ==> k.Has(g.thread)
  }

  lemma RestThere(k: Kernel, k1: Kernel, gs: seq<E.Grant>)
    requires AllThere(k, gs) && gs != [] && |k1.threads| == |k.threads|
    ensures AllThere(k1, gs[1..])
  {
  }

  /** And what they are told. */
  function Told(info: Infos, gs: seq<E.Grant>): (r: Infos)
    requires forall j :: 0 <= j < |gs| ==> 0 <= gs[j].thread < |info|
    ensures |r| == |info|
    ensures forall t :: 0 <= t < |info| && (forall j :: 0 <= j < |gs| ==> gs[j].thread != t) ==> r[t] == info[t]
    ensures forall t :: 0 <= t < |info| ==> r[t].thread == info[t].thread
    decreases |gs|
  {
    if gs == [] then info else
    Told(info[gs[0].thread := info[gs[0].thread].(want := gs[0].bits)], gs[1..])
  }

  function CalledAll(modes: seq<Mode>, gs: seq<E.Grant>): (r: seq<Mode>)
    requires forall j :: 0 <= j < |gs| ==> 0 <= gs[j].thread < |modes|
    ensures |r| == |modes|
    ensures forall t :: 0 <= t < |modes| ==> r[t] == if exists j :: 0 <= j < |gs| && gs[j].thread == t then Called else modes[t]
    decreases |gs|
  {
    if gs == [] then modes else
    assert forall j :: 0 <= j < |gs| - 1 ==> gs[1..][j] == gs[j + 1];
    CalledAll(modes[gs[0].thread := Called], gs[1..])
  }

  /** The sweep from position `n` resumes and calls those it grants, and the list keeps the others in their order. */
  ghost predicate SweepOk(k: Kernel, modes: seq<Mode>, list: int, row: seq<int>, flags: nat, info: Infos, n: nat)
    requires n <= |row| && forall j :: 0 <= j < |row| ==> 0 <= row[j] < |info|
  {
    var r := E.Swept(flags, WaitersOf(row[n..], info));
    && k.Ok() && AllThere(k, r.2) && |k.threads| <= |modes|
    && Joined(AllResumed(k, r.2), map[list := row[..n] + ThreadsOf(r.1)], CalledAll(modes, r.2))
  }

  lemma {:induction false} Sweep(k: Kernel, modes: seq<Mode>, list: int, row: seq<int>, flags: nat, info: Infos, n: nat)
    requires Joined(k, map[list := row], modes) && InfoOk(info, |k.threads|) && n <= |row|
    ensures forall j :: 0 <= j < |row| ==> 0 <= row[j] < |info|
    ensures SweepOk(k, modes, list, row, flags, info, n)
    decreases |row| - n
  {
    hide Kernel.Ok, Joined, E.Satisfied, E.Without, Del, WaitersOf, ThreadsOf;
    SaneRow(k, modes, list, row);
    if n == |row| {
      assert row[..n] + [] == row;
    } else {
      hide SweepOk;
      var w := info[row[n]];
      if E.Satisfied(flags, w) {
        DelIs(row, row[n], n);
        RowCallKeeps(k, modes, list, row, row[n]);
        Sweep(Resumed(k, row[n]), modes[row[n] := Called], list, Del(row, row[n]), E.Without(flags, w), info, n);
        SweepGrants(k, modes, list, row, flags, info, n);
      } else {
        Sweep(k, modes, list, row, flags, info, n + 1);
        SweepPasses(k, modes, list, row, flags, info, n);
      }
    }
  }

  lemma SweepGrants(k: Kernel, modes: seq<Mode>, list: int, row: seq<int>, flags: nat, info: Infos, n: nat)
    requires k.Ok() && |k.threads| <= |modes| && n < |row| && Distinct(row) && InfoOk(info, |k.threads|)
    requires forall j :: 0 <= j < |row| ==> 0 <= row[j] < |info|
    requires E.Satisfied(flags, info[row[n]])
    requires var row1 := Del(row, row[n]);
             && n <= |row1| && (forall j :: 0 <= j < |row1| ==> 0 <= row1[j] < |info|)
             && SweepOk(Resumed(k, row[n]), modes[row[n] := Called], list, row1, E.Without(flags, info[row[n]]), info, n)
    ensures SweepOk(k, modes, list, row, flags, info, n)
  {
    hide Kernel.Ok, Joined, E.Satisfied, E.Without, Del;
    var row1, w := Del(row, row[n]), info[row[n]];
    DelIs(row, row[n], n);
    assert row1[..n] == row[..n] && row1[n..] == row[n + 1..];
    assert WaitersOf(row[n..], info)[1..] == WaitersOf(row[n + 1..], info);
    var q := E.Swept(E.Without(flags, w), WaitersOf(row1[n..], info));
    AllStep(k, modes, E.Grant(row[n], E.Share(flags, w)), q.2);
    hide AllResumed, CalledAll;
  }

  lemma SweepPasses(k: Kernel, modes: seq<Mode>, list: int, row: seq<int>, flags: nat, info: Infos, n: nat)
    requires n < |row| && (forall j :: 0 <= j < |row| ==> 0 <= row[j] < |info|) && !E.Satisfied(flags, info[row[n]])
    requires InfoOk(info, |info|) && SweepOk(k, modes, list, row, flags, info, n + 1)
    ensures SweepOk(k, modes, list, row, flags, info, n)
  {
    hide Kernel.Ok, Joined, E.Satisfied, AllResumed, CalledAll;
    var ws := WaitersOf(row[n..], info);
    assert ws[1..] == WaitersOf(row[n + 1..], info);
    var r := E.Swept(flags, ws[1..]);
    assert row[..n + 1] + ThreadsOf(r.1) == row[..n] + ThreadsOf([ws[0]] + r.1);
  }

  lemma RowCallKeeps(k: Kernel, modes: seq<Mode>, list: int, row: seq<int>, u: int)
    requires Joined(k, map[list := row], modes) && u in row
    ensures k.Has(u) && 0 <= u < |modes| && k.Ok()
    ensures Joined(Resumed(k, u), map[list := Del(row, u)], modes[u := Called])
  {
    hide Kernel.Ok, Del;
    assert list in map[list := row];
    CallKeeps(k, map[list := row], modes, list, u);
    assert map[list := row][list := Del(row, u)] == map[list := Del(row, u)];
  }

  lemma AllStep(k: Kernel, modes: seq<Mode>, g: E.Grant, gs: seq<E.Grant>)
    requires k.Ok() && |k.threads| <= |modes| && k.Has(g.thread) && AllThere(Resumed(k, g.thread), gs)
    ensures AllThere(k, [g] + gs)
    ensures AllResumed(k, [g] + gs) == AllResumed(Resumed(k, g.thread), gs)
    ensures CalledAll(modes, [g] + gs) == CalledAll(modes[g.thread := Called], gs)
  {
    hide Kernel.Ok;
    assert ([g] + gs)[1..] == gs;
  }

  lemma SaneRow(k: Kernel, modes: seq<Mode>, list: int, row: seq<int>)
    requires Joined(k, map[list := row], modes)
    ensures 0 <= list < |k.waits| && k.waits[list] == row
    ensures Distinct(row) && (forall j :: 0 <= j < |row| ==> k.Has(row[j])) && |k.threads| <= |modes| && k.Ok()
  {
    assert list in map[list := row];
    WaitersThere(k, list);
  }

  // ----- all steps -----

  /** `modes` tells who waits and who was called; the kernel does not store it. */
  datatype Sys = Sys(k: Kernel, flags: nat, info: Infos, list: int, modes: seq<Mode>)

  /** Nobody waits whom the set satisfies. */
  ghost predicate Good(s: Sys) {
    && 0 <= s.list < |s.k.waits| && Joined(s.k, map[s.list := s.k.waits[s.list]], s.modes) && InfoOk(s.info, |s.k.threads|)
    && forall t :: t in s.k.waits[s.list] ==> 0 <= t < |s.info| && !E.Satisfied(s.flags, s.info[t])
  }

  /** rt_event_send, rt_event_recv of the current thread, and its return after having been called. */
  datatype EventStep = Sends(bits: nat) | Recvs(want: nat, all: bool, clear: bool, i: int) | Wakes

  ghost predicate MayStep(s: Sys, js: JointStep<EventStep>, idle: int)
    requires Good(s)
  {
    var c := s.k.cur;
    match js
    case Other(step) => Enabled(s.k, step, idle) && MayOther(s.k, map[s.list := s.k.waits[s.list]], s.modes, step)
    case Call(Sends(bits), _) => bits != 0
    case Call(Recvs(want, _, _, i), _) =>
      && want != 0 && 0 <= c < |s.modes| && s.modes[c] == Away && s.k.Has(c) && s.k.threads[c].stat == Running
      && 0 <= i <= |s.k.waits[s.list]|
    case Call(Wakes, _) => 0 <= c < |s.modes| && s.modes[c] == Called
  }

  ghost function SentTo(s: Sys, bits: nat): Sys
    requires Good(s)
  {
    var row := s.k.waits[s.list];
    assert forall j :: 0 <= j < |row| ==> row[j] in row;
    Sweep(s.k, s.modes, s.list, row, Or(s.flags, bits), s.info, 0);
    assert row[0..] == row;
    SaneRow(s.k, s.modes, s.list, row);
    var r := E.Swept(Or(s.flags, bits), WaitersOf(row, s.info));
    s.(k := AllResumed(s.k, r.2), flags := r.0, info := Told(s.info, r.2), modes := CalledAll(s.modes, r.2))
  }

  /** rt_event_recv: the bits at once, or nothing, or the thread waits. */
  ghost function ReceivedBy(s: Sys, want: nat, all: bool, clear: bool, time: int, i: int): Sys
    requires Good(s) && s.k.threads[s.k.cur].stat == Running && 0 <= i <= |s.k.waits[s.list]|
  {
    CurSane(s.k);
    var c := s.k.cur;
    var w := E.Waiter(c, want, all, clear);
    if E.Satisfied(s.flags, w) then
      var r := E.Immediate(s.flags, w);
      s.(k := WithError(s.k, c, EOK), flags := r.1, info := s.info[c := w.(want := r.0)])
    else if time == 0 then s.(k := WithError(s.k, c, -ETIMEOUT))
    else s.(k := BlockedAt(s.k, s.list, i, time), info := s.info[c := w], modes := s.modes[c := Queued(s.list)])
  }

  ghost function JointNext(s: Sys, js: JointStep<EventStep>, idle: int): Sys
    requires Good(s) && MayStep(s, js, idle)
  {
    match js
    case Other(step) =>
      s.(k := Next(s.k, step, idle), modes := OtherModes(s.modes, map[s.list := s.k.waits[s.list]], step))
    case Call(Sends(bits), _) => SentTo(s, bits)
    case Call(Recvs(want, all, clear, i), time) => ReceivedBy(s, want, all, clear, time, i)
    case Call(Wakes, _) => s.(modes := s.modes[s.k.cur := Away])
  }

  /** A send leaves those on the list that the sweep does not grant. */
  lemma SweptRow(s: Sys, bits: nat)
    requires Good(s)
    ensures forall j :: 0 <= j < |s.k.waits[s.list]| ==> 0 <= s.k.waits[s.list][j] < |s.info|
    ensures var r := SentTo(s, bits);
            && 0 <= s.list < |r.k.waits|
            && Joined(r.k, map[s.list := r.k.waits[s.list]], r.modes)
            && r.k.waits[s.list] == ThreadsOf(E.Swept(Or(s.flags, bits), WaitersOf(s.k.waits[s.list], s.info)).1)
  {
    hide Kernel.Ok, ModesOk, E.Satisfied, E.Swept;
    var row, flags, r := s.k.waits[s.list], Or(s.flags, bits), SentTo(s, bits);
    SaneRow(s.k, s.modes, s.list, row);
    Sweep(s.k, s.modes, s.list, row, flags, s.info, 0);
    assert row[0..] == row && row[..0] == [];
    var q := E.Swept(flags, WaitersOf(row, s.info));
    assert [] + ThreadsOf(q.1) == ThreadsOf(q.1);
    SaneRow(r.k, r.modes, s.list, ThreadsOf(q.1));
  }

  /** A send resumes exactly the threads it grants, and whoever is left waiting the set does not satisfy. */
  lemma SendKeeps(s: Sys, bits: nat)
    requires Good(s)
    ensures Good(SentTo(s, bits))
  {
    hide Kernel.Ok, Joined, E.Satisfied, E.Swept, AllResumed, CalledAll, Told;
    var row, flags, r := s.k.waits[s.list], Or(s.flags, bits), SentTo(s, bits);
    SweptRow(s, bits);
    SaneRow(s.k, s.modes, s.list, row);
    SaneRow(r.k, r.modes, s.list, r.k.waits[s.list]);
    forall t | t in r.k.waits[s.list]
      ensures 0 <= t < |r.info| && !E.Satisfied(r.flags, r.info[t])
    {
      LeftWaiting(row, flags, s.info, t);
      WaiterMode(r.k, map[s.list := r.k.waits[s.list]], r.modes, s.list, t);
      assert r.info[t] == s.info[t];
    }
  }

  /** A thread that the sweep leaves on the list is not satisfied. */
  lemma LeftWaiting(row: seq<int>, flags: nat, info: Infos, t: int)
    requires InfoOk(info, |info|) && forall j :: 0 <= j < |row| ==> 0 <= row[j] < |info|
    requires t in ThreadsOf(E.Swept(flags, WaitersOf(row, info)).1)
    ensures 0 <= t < |info| && !E.Satisfied(E.Swept(flags, WaitersOf(row, info)).0, info[t])
  {
    hide E.Satisfied, E.Swept;
    var ws := WaitersOf(row, info);
    var q := E.Swept(flags, ws);
    var i :| 0 <= i < |q.1| && q.1[i].thread == t;
    E.SweptKeeps(flags, ws, i);
    var m :| 0 <= m < |row| && ws[m] == q.1[i];
    E.NoneLeftSatisfied(flags, ws, i);
  }

  // ----- what is delivered, bit by bit -----

  /** One of the first `n` threads told had bit `p` taken out of the set for it. */
  ghost predicate TakenFor(before: Infos, after: Infos, ts: seq<int>, n: nat, p: nat)
    requires n <= |ts| && |after| == |before| && forall j :: 0 <= j < |ts| ==> 0 <= ts[j] < |before|
  {
    exists i :: 0 <= i < n && before[ts[i]].clear && Bit(after[ts[i]].want, p)
  }

  /**
   Thread ts[j] reads what it asked for that is set and was not cleared for one before it: all it
   asked for, or with the OR option at least one bit.
   */
  ghost predicate Reads(before: Infos, after: Infos, ts: seq<int>, flags: nat, j: int)
    requires 0 <= j < |ts| && |after| == |before| && forall i :: 0 <= i < |ts| ==> 0 <= ts[i] < |before|
  {
    && after[ts[j]] == before[ts[j]].(want := after[ts[j]].want) && E.Enough(before[ts[j]], after[ts[j]].want)
    && forall p: nat ::
         Bit(after[ts[j]].want, p) <==> Bit(before[ts[j]].want, p) && Bit(flags, p) && !TakenFor(before, after, ts, j, p)
  }

  /**
   A send that makes the set `flags` tells the threads `ts` of the wait list `row`, in its order, what
   each is to read; nobody else is told anything, and what is left of the set was cleared for nobody.
   */
  ghost predicate Delivered(before: Infos, after: Infos, row: seq<int>, ts: seq<int>, flags: nat, left: nat) {
    && |after| == |before| && Distinct(ts) && (forall j :: 0 <= j < |ts| ==> 0 <= ts[j] < |before|)
    && Picked(row, ts)
    && (forall j :: 0 <= j < |ts| ==> Reads(before, after, ts, flags, j))
    && (forall p: nat :: Bit(left, p) <==> Bit(flags, p) && !TakenFor(before, after, ts, |ts|, p))
    && (forall t :: 0 <= t < |before| && t !in ts ==> after[t] == before[t])
  }

  /** Some entries of a list, in its order. */
  ghost predicate Picked(row: seq<int>, ts: seq<int>) {
    exists js: seq<nat> :: E.Increasing(js, |row|) && |js| == |ts| && forall j :: 0 <= j < |js| ==> ts[j] == row[js[j]]
  }

  function ThreadsTold(gs: seq<E.Grant>): (ts: seq<int>)
    ensures |ts| == |gs| && forall j :: 0 <= j < |gs| ==> ts[j] == gs[j].thread
  {
    seq(|gs|, j requires 0 <= j < |gs| => gs[j].thread)
  }

  /** Each thread told reads what it was granted. */
  lemma {:induction false} ToldEach(info: Infos, gs: seq<E.Grant>)
    requires forall j :: 0 <= j < |gs| ==> 0 <= gs[j].thread < |info|
    requires Distinct(ThreadsTold(gs))
    ensures forall j :: 0 <= j < |gs| ==> Told(info, gs)[gs[j].thread] == info[gs[j].thread].(want := gs[j].bits)
    decreases |gs|
  {
    if gs != [] {
      var info1 := info[gs[0].thread := info[gs[0].thread].(want := gs[0].bits)];
      assert ThreadsTold(gs[1..]) == ThreadsTold(gs)[1..];
      ToldEach(info1, gs[1..]);
      var ts := ThreadsTold(gs);
      forall j | 0 <= j < |gs|
        ensures Told(info, gs)[gs[j].thread] == info[gs[j].thread].(want := gs[j].bits)
      {
        if j > 0 {
          assert gs[1..][j - 1] == gs[j] && ts[0] != ts[j];
        } else {
          assert forall i :: 0 <= i < |gs| - 1 ==> gs[1..][i].thread == ts[i + 1] != ts[0];
        }
      }
    }
  }

  lemma SweepDelivers(row: seq<int>, flags: nat, info: Infos)
    requires InfoOk(info, |info|) && Distinct(row) && forall j :: 0 <= j < |row| ==> 0 <= row[j] < |info|
    ensures var q := E.Swept(flags, WaitersOf(row, info));
            && (forall j :: 0 <= j < |q.2| ==> 0 <= q.2[j].thread < |info|)
            && Delivered(info, Told(info, q.2), row, ThreadsTold(q.2), flags, q.0)
  {
    hide E.Swept, E.Fair, Bit;
    var ws := WaitersOf(row, info);
    var q := E.Swept(flags, ws);
    var js := E.SweepIsFair(flags, ws);
    FairDelivers(row, flags, info, js, q.2, q.0);
  }

  lemma FairDelivers(row: seq<int>, flags: nat, info: Infos, js: seq<nat>, gs: seq<E.Grant>, left: nat)
    requires InfoOk(info, |info|) && Distinct(row) && forall j :: 0 <= j < |row| ==> 0 <= row[j] < |info|
    requires E.Fair(flags, WaitersOf(row, info), js, gs, left)
    ensures forall j :: 0 <= j < |gs| ==> 0 <= gs[j].thread < |info|
    ensures Delivered(info, Told(info, gs), row, ThreadsTold(gs), flags, left)
  {
    hide Bit, E.Enough, Told, TakenFor, E.Cleared, Reads;
    var ws, ts := WaitersOf(row, info), ThreadsTold(gs);
    forall j | 0 <= j < |js|
      ensures ts[j] == row[js[j]] == gs[j].thread && ws[js[j]] == info[ts[j]]
    {
      assert E.Granted(flags, ws, js, gs, j);
    }
    hide WaitersOf, ThreadsTold, E.Granted;
    DistinctPicked(row, js, ts);
    ToldEach(info, gs);
    var after := Told(info, gs);
    forall j | 0 <= j < |ts|
      ensures Reads(info, after, ts, flags, j)
    {
      GrantRead(flags, ws, js, gs, info, after, ts, j);
    }
    forall p: nat
      ensures TakenFor(info, after, ts, |ts|, p) <==> E.Cleared(ws, js, gs, |js|, p)
    {
      TakenCleared(ws, js, gs, info, after, ts, |ts|, p);
    }
  }

  /** The threads of these grants are told what they are granted. */
  ghost predicate ToldAll(ws: seq<E.Waiter>, js: seq<nat>, gs: seq<E.Grant>, info: Infos, after: Infos, ts: seq<int>) {
    && E.Increasing(js, |ws|) && |js| == |gs| == |ts| && |after| == |info|
    && forall j :: 0 <= j < |ts| ==>
         0 <= ts[j] < |info| && ws[js[j]] == info[ts[j]] && after[ts[j]] == info[ts[j]].(want := gs[j].bits)
  }

  lemma TakenCleared(ws: seq<E.Waiter>, js: seq<nat>, gs: seq<E.Grant>, info: Infos, after: Infos, ts: seq<int>, n: nat, p: nat)
    requires ToldAll(ws, js, gs, info, after, ts) && n <= |ts|
    ensures TakenFor(info, after, ts, n, p) <==> E.Cleared(ws, js, gs, n, p)
  {
    hide Bit;
  }

  lemma GrantRead(flags: nat, ws: seq<E.Waiter>, js: seq<nat>, gs: seq<E.Grant>, info: Infos, after: Infos, ts: seq<int>, j: int)
    requires ToldAll(ws, js, gs, info, after, ts) && 0 <= j < |ts| && E.Granted(flags, ws, js, gs, j)
    ensures Reads(info, after, ts, flags, j)
  {
    hide Bit, TakenFor, E.Cleared, E.Enough;
    forall p: nat
      ensures TakenFor(info, after, ts, j, p) <==> E.Cleared(ws, js, gs, j, p)
    {
      TakenCleared(ws, js, gs, info, after, ts, j, p);
    }
  }

  lemma DistinctPicked(row: seq<int>, js: seq<nat>, ts: seq<int>)
    requires Distinct(row) && E.Increasing(js, |row|) && |js| == |ts| && forall j :: 0 <= j < |js| ==> ts[j] == row[js[j]]
    ensures Distinct(ts) && Picked(row, ts)
  {
  }

  lemma GrantedOrLeft(row: seq<int>, flags: nat, info: Infos, t: int)
    requires InfoOk(info, |info|) && (forall j :: 0 <= j < |row| ==> 0 <= row[j] < |info|) && t in row
    ensures var q := E.Swept(flags, WaitersOf(row, info)); t in ThreadsOf(q.1) || t in ThreadsTold(q.2)
  {
    hide E.Swept;
    var ws := WaitersOf(row, info);
    var q := E.Swept(flags, ws);
    E.AllAccounted(flags, ws, t);
    var j :| 0 <= j < |row| && row[j] == t;
    assert ws[j] in ws;
    if w :| w in q.1 && w.thread == t {
      var i :| 0 <= i < |q.1| && q.1[i] == w;
      assert ThreadsOf(q.1)[i] == t;
    } else {
      var g :| g in q.2 && g.thread == t;
      var i :| 0 <= i < |q.2| && q.2[i] == g;
      assert ThreadsTold(q.2)[i] == t;
    }
  }

  /**
   A send resumes threads of the wait list and tells each exactly its bits; those that it leaves on
   the list are the others, and the set satisfies none of them.
   */
  lemma SendDelivers(s: Sys, bits: nat) returns (ts: seq<int>)
    requires Good(s)
    ensures var r, row := SentTo(s, bits), s.k.waits[s.list];
            && Good(r) && r.list == s.list && Delivered(s.info, r.info, row, ts, Or(s.flags, bits), r.flags)
            && (forall t :: t in row ==> (t in ts <==> t !in r.k.waits[s.list]))
            && (forall t :: t in ts ==> 0 <= t < |r.modes| && r.modes[t] == Called)
  {
    hide Kernel.Ok, E.Satisfied, E.Swept, Delivered, Bit;
    var row, flags, r := s.k.waits[s.list], Or(s.flags, bits), SentTo(s, bits);
    SaneRow(s.k, s.modes, s.list, row);
    SendKeeps(s, bits);
    SweepDelivers(row, flags, s.info);
    var q := E.Swept(flags, WaitersOf(row, s.info));
    ts := ThreadsTold(q.2);
    hide AllResumed, Told;
    forall t | t in ts
      ensures 0 <= t < |r.modes| && r.modes[t] == Called
    {
    }
    SaneRow(r.k, r.modes, s.list, r.k.waits[s.list]);
    forall t | t in row
      ensures t in ts <==> t !in r.k.waits[s.list]
    {
      if t in r.k.waits[s.list] {
        WaiterMode(r.k, map[s.list := r.k.waits[s.list]], r.modes, s.list, t);
      } else {
        GrantedOrLeft(row, flags, s.info, t);
        SweptRow(s, bits);
      }
    }
  }

  lemma RecvKeeps(s: Sys, want: nat, all: bool, clear: bool, time: int, i: int)
    requires Good(s) && 0 <= i <= |s.k.waits[s.list]| && want != 0
    requires s.k.Has(s.k.cur) && s.k.threads[s.k.cur].stat == Running && 0 <= s.k.cur < |s.modes| && s.modes[s.k.cur] == Away
    ensures Good(ReceivedBy(s, want, all, clear, time, i))
  {
    hide Kernel.Ok, ModesOk, E.Satisfied, Inserted;
    var c, rows, r := s.k.cur, map[s.list := s.k.waits[s.list]], ReceivedBy(s, want, all, clear, time, i);
    var w := E.Waiter(c, want, all, clear);
    assert s.list in rows;
    SaneRow(s.k, s.modes, s.list, s.k.waits[s.list]);
    var e := if E.Satisfied(s.flags, w) then Fails(EOK) else if time == 0 then Fails(-ETIMEOUT) else Queues(s.list, i);
    EffectKeeps(s.k, rows, s.modes, c, e, time);
    assert RowsAfter(rows, c, e) == map[s.list := r.k.waits[s.list]];
    assert s.modes[c := Away] == s.modes;
    hide Joined;
    InsertedMembers(s.k.waits[s.list], i, c);
    forall t | t in r.k.waits[s.list]
      ensures 0 <= t < |r.info| && !E.Satisfied(r.flags, r.info[t])
    {
      if t == c && t in s.k.waits[s.list] {
        WaiterMode(s.k, rows, s.modes, s.list, t);
      }
      if E.Satisfied(s.flags, w) && E.Satisfied(r.flags, r.info[t]) {
        ClearingSatisfiesNobody(s.flags, w, r.info[t]);
      }
    }
  }

  /**
   A receive that the set satisfies, in every bit asked for or with the OR option in one, gets exactly
   the bits that are set and were asked for, and clears exactly these if it is to.  One that it does
   not satisfy fails at once if it would not wait, and changes nothing but the error; else the thread
   waits, with its timer running exactly if its time is positive.
   */
  lemma RecvAnswers(s: Sys, want: nat, all: bool, clear: bool, time: int, i: int)
    requires Good(s) && 0 <= i <= |s.k.waits[s.list]| && want != 0
    requires s.k.Has(s.k.cur) && s.k.threads[s.k.cur].stat == Running && 0 <= s.k.cur < |s.modes|
    ensures var r, c := ReceivedBy(s, want, all, clear, time, i), s.k.cur;
            var th := s.k.threads[c];
            0 <= c < |s.info| == |r.info| && |r.k.threads| == |s.k.threads| &&
            if E.Satisfied(s.flags, E.Waiter(c, want, all, clear)) then
              && (forall p: nat :: Bit(r.info[c].want, p) <==> Bit(s.flags, p) && Bit(want, p))
              && (forall p: nat :: Bit(r.flags, p) <==> Bit(s.flags, p) && !(clear && Bit(want, p)))
              && r.k.threads == s.k.threads[c := th.(error := EOK)] && r.k.waits == s.k.waits && r.modes == s.modes
            else if time == 0 then
              r == s.(k := r.k) && r.k.threads == s.k.threads[c := th.(error := -ETIMEOUT)] && r.k.waits == s.k.waits
            else
              && r.flags == s.flags && r.info == s.info[c := E.Waiter(c, want, all, clear)]
              && r.k.threads == s.k.threads[c := th.(stat := Suspend, error := EOK, at := s.list, armed := time > 0)]
              && r.k.waits == s.k.waits[s.list := Inserted(s.k.waits[s.list], i, c)] && r.modes == s.modes[c := Queued(s.list)]
  {
    SaneRow(s.k, s.modes, s.list, s.k.waits[s.list]);
    CurSane(s.k);
    hide Kernel.Ok, Joined, E.Satisfied, Bit, And, AndNot;
    var w := E.Waiter(s.k.cur, want, all, clear);
    if E.Satisfied(s.flags, w) {
      forall p: nat
        ensures Bit(E.Immediate(s.flags, w).0, p) <==> Bit(s.flags, p) && Bit(want, p)
        ensures Bit(E.Immediate(s.flags, w).1, p) <==> Bit(s.flags, p) && !(clear && Bit(want, p))
      {
        E.BitsGot(s.flags, w, p);
      }
    }
    hide E.Immediate;
  }

  lemma ClearingSatisfiesNobody(flags: nat, w: E.Waiter, v: E.Waiter)
    requires E.Satisfied(flags, w) && E.Satisfied(E.Immediate(flags, w).1, v)
    ensures E.Satisfied(flags, v)
  {
    hide E.Satisfied, Bit, AndNot;
    var less := E.Immediate(flags, w).1;
    forall p: nat | Bit(less, p)
      ensures Bit(flags, p)
    {
      AndNotBits(flags, w.want, p);
    }
    E.LessSatisfies(flags, less, v);
  }

  lemma StepKeeps(s: Sys, js: JointStep<EventStep>, idle: int)
    requires Good(s) && MayStep(s, js, idle)
    ensures Good(JointNext(s, js, idle))
  {
    hide Kernel.Ok, Enabled, Next, SentTo, ReceivedBy, E.Satisfied, Del;
    var c, rows := s.k.cur, map[s.list := s.k.waits[s.list]];
    assert s.list in rows;
    match js
    case Other(step) =>
      OtherKeeps(s.k, rows, s.modes, step, idle);
      var r := JointNext(s, js, idle);
      assert OtherRows(s.modes, rows, step) == map[s.list := r.k.waits[s.list]];
      SaneRow(s.k, s.modes, s.list, s.k.waits[s.list]);
      if TimesOut(s.modes, rows, step) {
        DelHas(s.k.waits[s.list], step.t);
      }
      hide ModesOk;
    case Call(Sends(bits), _) => SendKeeps(s, bits);
    case Call(Recvs(want, all, clear, i), time) => RecvKeeps(s, want, all, clear, time, i);
    case Call(Wakes, time) =>
      EffectKeeps(s.k, rows, s.modes, c, Stays, time);
  }

  // ----- runs -----

  /** A new event set that nobody waits for. */
  ghost predicate AtRest(s: Sys) {
    && s.k.Ok() && s.flags == 0 && 0 <= s.list < |s.k.waits| && s.k.waits[s.list] == [] && InfoOk(s.info, |s.k.threads|)
    && |s.modes| >= |s.k.threads| && forall t :: 0 <= t < |s.modes| ==> s.modes[t] == Away
  }

  ghost predicate StepAt(ss: seq<Sys>, steps: seq<JointStep<EventStep>>, idle: int, i: int)
    requires 0 <= i < |steps| && |ss| == |steps| + 1
  {
    Good(ss[i]) ==> MayStep(ss[i], steps[i], idle) && ss[i + 1] == JointNext(ss[i], steps[i], idle)
  }

  ghost predicate Run(ss: seq<Sys>, steps: seq<JointStep<EventStep>>, idle: int) {
    |ss| == |steps| + 1 && AtRest(ss[0]) && forall i :: 0 <= i < |steps| ==> StepAt(ss, steps, idle, i)
  }

  /** In every state of every run, whatever else happens, nobody on the wait list is satisfied by the set. */
  lemma {:induction false} NobodyLeftWaiting(ss: seq<Sys>, steps: seq<JointStep<EventStep>>, idle: int, i: nat)
    requires Run(ss, steps, idle) && i <= |steps|
    ensures Good(ss[i])
    ensures var s := ss[i]; forall t :: t in s.k.waits[s.list] ==> 0 <= t < |s.info| && !E.Satisfied(s.flags, s.info[t])
  {
    if i > 0 {
      hide Kernel.Ok, Joined, JointNext, MayStep, E.Satisfied;
      NobodyLeftWaiting(ss, steps, idle, i - 1);
      assert StepAt(ss, steps, idle, i - 1);
      StepKeeps(ss[i - 1], steps[i - 1], idle);
    } else {
      NobodyThere(ss[0].k, ss[0].list);
      hide Kernel.Ok;
    }
  }
}
