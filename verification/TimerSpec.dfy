/**
 What the timer operations do to the full row, the deadlines and the flags: the state a caller sees.
 */
module TimerSpec {
  import opened Lists
  import opened RtList
  import opened TimerRows

  /** What a timeout function may ask of the kernel. */
  datatype Cmd =
    | Start(t: int)
    | Stop(t: int)
    | SetTime(t: int, time: int)
    | SetOneShot(t: int)
    | SetPeriodic(t: int)

  /** `due` and `now` are not wrapped; `running` is the timer whose function runs, until it is started or stopped. */
  datatype Timers = Timers(
    list: seq<int>, due: seq<int>, initTick: seq<int>, active: seq<bool>, periodic: seq<bool>,
    now: int, running: seq<int>)
  {
    ghost predicate Sized(n: int) {
      && n >= 0 && |due| == n + 1 && |initTick| == n + 1 && |active| == n + 1 && |periodic| == n + 1
      && Members(list, n) && Members(running, n) && |running| <= 1
    }

    ghost predicate InWindow(n: int)
      requires Sized(n)
    {
      forall t :: t in list ==> 1 <= t <= n && active[t] && now - 1 <= due[t] < now + HALF
    }

    ghost predicate Ok(n: int) {
      Sized(n) && Distinct(list) && Sorted(list, due) && Apart(list, running) && InWindow(n)
    }

    /** The state queries tell the truth: a timer is marked active exactly while it is listed. */
    ghost predicate Truthful(n: int)
      requires Sized(n)
    {
      forall t :: 1 <= t <= n && t !in running ==> (active[t] <==> t in list)
    }

    /** The timers due by now, in list order. */
    ghost function Expired(n: int): seq<int>
      requires Sized(n)
    {
      DueBy(list, due, now)
    }
  }

  function DueBy(list: seq<int>, due: seq<int>, now: int): seq<int>
    requires Members(list, |due| - 1)
  {
    if list == [] then [] else
    assert 1 <= list[0] <= |due| - 1 && Members(list[1..], |due| - 1);
    if due[list[0]] <= now then [list[0]] + DueBy(list[1..], due, now) else DueBy(list[1..], due, now)
  }

  /** rt_timer_start */
  ghost function Started(s: Timers, n: int, t: int): (r: Timers)
    requires s.Ok(n) && 1 <= t <= n && 0 <= s.initTick[t] < HALF
    ensures r.Ok(n) && r.now == s.now && r.initTick == s.initTick && r.periodic == s.periodic
    ensures t !in r.running && t in r.list
  {
    StartedOk(s, n, t);
    var due := s.due[t := s.now + s.initTick[t]];
    s.(list := Ins(Del(s.list, t), due, t), due := due, active := s.active[t := true], running := Del(s.running, t))
  }

  lemma ShortDistinct(s: seq<int>)
    requires |s| <= 1
    ensures Distinct(s)
  {
  }

  lemma StartedOk(s: Timers, n: int, t: int)
    requires s.Ok(n) && 1 <= t <= n && 0 <= s.initTick[t] < HALF
    ensures var due := s.due[t := s.now + s.initTick[t]];
            && Members(Del(s.list, t), n) && t in Ins(Del(s.list, t), due, t) && t !in Del(s.running, t)
            && s.(list := Ins(Del(s.list, t), due, t), due := due, active := s.active[t := true],
                  running := Del(s.running, t)).Ok(n)
  {
    hide Ins, Del, Sorted, Distinct;
    var due := s.due[t := s.now + s.initTick[t]];
    DelMembers(s.list, t, n);
    ShortDistinct(s.running);
    DelMembers(s.running, t, n);
    DelSorted(s.list, s.due, t);
    OtherDue(Del(s.list, t), s.due, t, s.now + s.initTick[t], 0);
    InsMembers(Del(s.list, t), due, t);
    InsSorted(Del(s.list, t), due, t);
  }

  /**
   Starting a timer puts it behind all timers due no later, so that equal deadlines keep the order in
   which they were started, and in front of all others; these keep their order.
   */
  lemma StartedOrder(s: Timers, n: int, t: int) returns (a: seq<int>, b: seq<int>)
    requires s.Ok(n) && 1 <= t <= n && 0 <= s.initTick[t] < HALF
    ensures var r := Started(s, n, t);
            && Del(s.list, t) == a + b && r.list == a + [t] + b && r.due[t] == s.now + s.initTick[t]
            && (forall u :: u in a ==> 1 <= u <= n && s.due[u] <= r.due[t])
            && (forall u :: u in b ==> 1 <= u <= n && s.due[u] > r.due[t])
  {
    hide Del, Ins, Place, Sorted, Distinct, Members, Apart;
    var list, due := Del(s.list, t), s.due[t := s.now + s.initTick[t]];
    DelMembers(s.list, t, n);
    DelSorted(s.list, s.due, t);
    OtherDue(list, s.due, t, due[t], 0);
    a, b := InsSplits(list, due, t);
  }

  /** rt_timer_stop: refused for a timer that is not active. */
  ghost function Stopped(s: Timers, n: int, t: int): (r: Timers)
    requires s.Ok(n) && 1 <= t <= n
    ensures r.Ok(n) && r.now == s.now && r.initTick == s.initTick && r.periodic == s.periodic
    ensures t !in r.list
  {
    StoppedOk(s, n, t);
    if !s.active[t] then s else
    s.(list := Del(s.list, t), active := s.active[t := false], running := Del(s.running, t))
  }

  lemma StoppedOk(s: Timers, n: int, t: int)
    requires s.Ok(n) && 1 <= t <= n
    ensures s.(list := Del(s.list, t), active := s.active[t := false], running := Del(s.running, t)).Ok(n)
    ensures t !in Del(s.list, t) && t !in Del(s.running, t)
    ensures !s.active[t] ==> t !in s.list
  {
    hide Del, Sorted, Distinct;
    ShortDistinct(s.running);
    DelMembers(s.list, t, n);
    DelMembers(s.running, t, n);
    DelSorted(s.list, s.due, t);
  }

  /**
   The timers of `may` may be armed while timeout functions run: their time is neither zero nor
   half the tick range.
   */
  ghost predicate Armable(s: Timers, n: int, may: set<int>)
    requires s.Ok(n)
  {
    && (forall t :: t in may ==> 1 <= t <= n && 1 <= s.initTick[t] < HALF)
    && (forall t :: (t in s.list || t in s.running) && s.periodic[t] ==> t in may)
  }

  ghost predicate CmdOk(c: Cmd, n: int, may: set<int>) {
    match c
    case Start(t) => t in may
    case Stop(t) => 1 <= t <= n
    case SetTime(t, time) => 1 <= t <= n && 0 <= time < TWO32 && (t in may ==> 1 <= time < HALF)
    case SetOneShot(t) => 1 <= t <= n
    case SetPeriodic(t) => t in may
  }

  ghost predicate CmdsOk(cmds: seq<Cmd>, n: int, may: set<int>) {
    forall i :: 0 <= i < |cmds| ==> CmdOk(cmds[i], n, may)
  }

  ghost function Obeyed(s: Timers, n: int, may: set<int>, c: Cmd): (r: Timers)
    requires s.Ok(n) && Armable(s, n, may) && CmdOk(c, n, may)
    ensures r.Ok(n) && Armable(r, n, may) && r.now == s.now
  {
    ObeyedArmable(s, n, may, c);
    match c
    case Start(t) => Started(s, n, t)
    case Stop(t) => Stopped(s, n, t)
    case SetTime(t, time) => s.(initTick := s.initTick[t := time])
    case SetOneShot(t) => s.(periodic := s.periodic[t := false])
    case SetPeriodic(t) => s.(periodic := s.periodic[t := true])
  }

  lemma ObeyedArmable(s: Timers, n: int, may: set<int>, c: Cmd)
    requires s.Ok(n) && Armable(s, n, may) && CmdOk(c, n, may)
    ensures c.Start? ==> Armable(Started(s, n, c.t), n, may)
    ensures c.Stop? ==> Armable(Stopped(s, n, c.t), n, may)
  {
    DelMembers(s.list, c.t, n);
    DelMembers(s.running, c.t, n);
    if c.Start? {
      InsMembers(Del(s.list, c.t), s.due[c.t := s.now + s.initTick[c.t]], c.t);
    }
  }

  ghost function ObeyedAll(s: Timers, n: int, may: set<int>, cmds: seq<Cmd>): (r: Timers)
    requires s.Ok(n) && Armable(s, n, may) && CmdsOk(cmds, n, may)
    ensures r.Ok(n) && Armable(r, n, may) && r.now == s.now
    decreases |cmds|
  {
    if cmds == [] then s else
    Obeyed(ObeyedAll(s, n, may, cmds[..|cmds| - 1]), n, may, cmds[|cmds| - 1])
  }

  // ----- the expired timers while timeout functions run -----

  lemma {:induction false} DueByMembers(list: seq<int>, due: seq<int>, now: int)
    requires Members(list, |due| - 1)
    ensures forall y :: y in DueBy(list, due, now) <==> y in list && 1 <= y < |due| && due[y] <= now
    ensures Distinct(list) ==> Distinct(DueBy(list, due, now))
    ensures IsSub(DueBy(list, due, now), list)
  {
    if list != [] {
      assert list == [list[0]] + list[1..];
      DueByMembers(list[1..], due, now);
      if due[list[0]] > now {
        SubLonger(DueBy(list, due, now), list);
      }
    }
  }

  lemma {:induction false} DueByDel(list: seq<int>, due: seq<int>, now: int, t: int)
    requires Members(list, |due| - 1)
    ensures Members(Del(list, t), |due| - 1)
    ensures DueBy(Del(list, t), due, now) == Del(DueBy(list, due, now), t)
  {
    if list != [] {
      if list[0] == t {
        DueByMembers(list[1..], due, now);
        if due[t] > now {
          DelAbsent(DueBy(list, due, now), t);
        }
      } else {
        DueByDel(list[1..], due, now, t);
        assert Del(list, t)[1..] == Del(list[1..], t);
      }
    }
  }

  lemma {:induction false} DueByInserted(list: seq<int>, due: seq<int>, now: int, p: int, t: int)
    requires Members(list, |due| - 1) && 0 <= p <= |list| && 1 <= t < |due| && due[t] > now
    ensures Members(Inserted(list, p, t), |due| - 1)
    ensures DueBy(Inserted(list, p, t), due, now) == DueBy(list, due, now)
  {
    var r := Inserted(list, p, t);
    if p == 0 {
      assert r[1..] == list;
    } else {
      assert r[1..] == Inserted(list[1..], p - 1, t);
      DueByInserted(list[1..], due, now, p - 1, t);
    }
  }

  lemma {:induction false} DueByOther(list: seq<int>, due: seq<int>, now: int, t: int, d: int)
    requires Members(list, |due| - 1) && 1 <= t < |due| && t !in list
    ensures DueBy(list, due[t := d], now) == DueBy(list, due, now)
  {
    if list != [] {
      DueByOther(list[1..], due, now, t, d);
    }
  }

  /** The first listed timer tells whether any timer is due. */
  lemma {:induction false} DueByFirst(list: seq<int>, due: seq<int>, now: int)
    requires Members(list, |due| - 1) && Sorted(list, due)
    ensures DueBy(list, due, now) == [] <==> list == [] || due[list[0]] > now
  {
    if list != [] && due[list[0]] > now {
      if |list| > 1 {
        DueByFirst(list[1..], due, now);
      }
    }
  }

  lemma {:induction false} SubTrans(a: seq<int>, b: seq<int>, c: seq<int>)
    requires IsSub(a, b) && IsSub(b, c)
    ensures IsSub(a, c)
  {
    if a != [] {
      if b[0] == c[0] {
        if a[0] == b[0] {
          SubTrans(a[1..], b[1..], c[1..]);
        } else {
          SubTrans(a, b[1..], c[1..]);
        }
      } else {
        SubTrans(a, b, c[1..]);
        if a[0] == c[0] {
          SubTail(a, c[1..]);
        }
      }
    }
  }

  lemma {:induction false} SubOfDel(a: seq<int>, t: int)
    ensures IsSub(Del(a, t), a)
  {
    if a != [] {
      if a[0] == t {
        SubRefl(a[1..]);
        SubLonger(a[1..], a);
      } else {
        SubOfDel(a[1..], t);
      }
    }
  }

  lemma {:induction false} SubBehind(p: seq<int>, a: seq<int>, b: seq<int>)
    requires IsSub(a, b)
    ensures IsSub(p + a, p + b)
  {
    if p == [] {
      assert p + a == a && p + b == b;
    } else {
      SubBehind(p[1..], a, b);
      assert (p + a)[1..] == p[1..] + a && (p + b)[1..] == p[1..] + b;
    }
  }

  /** A command that starts or stops `t`. */
  predicate Touches(c: Cmd, t: int) {
    (c.Start? || c.Stop?) && c.t == t
  }

  predicate Touched(cmds: seq<Cmd>, t: int) {
    exists i :: 0 <= i < |cmds| && Touches(cmds[i], t)
  }

  lemma StartedExpired(s: Timers, n: int, t: int)
    requires s.Ok(n) && 1 <= t <= n && 1 <= s.initTick[t] < HALF
    ensures Started(s, n, t).Expired(n) == Del(s.Expired(n), t)
  {
    hide Ins, Del, Sorted, Distinct, DueBy;
    var d := s.now + s.initTick[t];
    var list := Del(s.list, t);
    DelMembers(s.list, t, n);
    DueByDel(s.list, s.due, s.now, t);
    DueByOther(list, s.due, s.now, t, d);
    InsIs(list, s.due[t := d], t);
    DueByInserted(list, s.due[t := d], s.now, Place(list, s.due[t := d], d), t);
  }

  lemma InsIs(row: seq<int>, due: seq<int>, t: int)
    requires Members(row, |due| - 1) && 1 <= t < |due|
    ensures Ins(row, due, t) == Inserted(row, Place(row, due, due[t]), t)
  {
  }

  lemma StoppedExpired(s: Timers, n: int, t: int)
    requires s.Ok(n) && 1 <= t <= n
    ensures Stopped(s, n, t).Expired(n) == Del(s.Expired(n), t)
  {
    DueByDel(s.list, s.due, s.now, t);
    StoppedOk(s, n, t);
    if !s.active[t] {
      DelAbsent(s.list, t);
    }
  }

  lemma ObeyedExpired(s: Timers, n: int, may: set<int>, c: Cmd)
    requires s.Ok(n) && Armable(s, n, may) && CmdOk(c, n, may)
    ensures Obeyed(s, n, may, c).Expired(n) == if c.Start? || c.Stop? then Del(s.Expired(n), c.t) else s.Expired(n)
    ensures forall y :: 1 <= y <= n && !Touches(c, y) ==> Obeyed(s, n, may, c).due[y] == s.due[y]
    ensures Armable(Obeyed(s, n, may, c), n, may)
  {
    hide Del, Ins;
    if c.Start? {
      StartedExpired(s, n, c.t);
      DelMembers(s.running, c.t, n);
    } else if c.Stop? {
      StoppedExpired(s, n, c.t);
      DelMembers(s.running, c.t, n);
    }
  }

  /** While timeout functions run, timers leave the expired ones by being started or stopped, and none joins. */
  lemma {:induction false} ObeyedAllExpired(s: Timers, n: int, may: set<int>, cmds: seq<Cmd>)
    requires s.Ok(n) && Armable(s, n, may) && CmdsOk(cmds, n, may)
    ensures var r := ObeyedAll(s, n, may, cmds);
            && IsSub(r.Expired(n), s.Expired(n))
            && (forall y :: y in r.Expired(n) <==> y in s.Expired(n) && !Touched(cmds, y))
            && (forall y :: 1 <= y <= n && !Touched(cmds, y) ==> r.due[y] == s.due[y])
    decreases |cmds|
  {
    hide Obeyed, DueBy, Del, IsSub;
    if cmds == [] {
      SubRefl(s.Expired(n));
    } else {
      var k := |cmds| - 1;
      var c := cmds[k];
      var m := ObeyedAll(s, n, may, cmds[..k]);
      ObeyedAllExpired(s, n, may, cmds[..k]);
      ObeyedExpired(m, n, may, c);
      DueByMembers(m.list, m.due, m.now);
      SubOfDel(m.Expired(n), c.t);
      SubRefl(m.Expired(n));
      SubTrans(Obeyed(m, n, may, c).Expired(n), m.Expired(n), s.Expired(n));
      ExpiredMembers(m, n, c.t);
      TouchedLast(cmds);
    }
  }

  lemma ExpiredMembers(s: Timers, n: int, t: int)
    requires s.Ok(n)
    ensures forall y :: y in Del(s.Expired(n), t) <==> y in s.Expired(n) && y != t
    ensures forall y :: y in s.Expired(n) <==> y in s.list && 1 <= y <= n && s.due[y] <= s.now
    ensures Distinct(s.Expired(n)) && Members(s.Expired(n), n)
  {
    DueByMembers(s.list, s.due, s.now);
    var e := s.Expired(n);
    forall i | 0 <= i < |e|
      ensures 1 <= e[i] <= n
    {
      assert e[i] in e;
    }
    DelMembers(e, t, n);
  }

  lemma TouchedLast(cmds: seq<Cmd>)
    requires cmds != []
    ensures forall y :: Touched(cmds, y) <==> Touched(cmds[..|cmds| - 1], y) || Touches(cmds[|cmds| - 1], y)
  {
    var k := |cmds| - 1;
    forall y | Touched(cmds[..k], y)
      ensures Touched(cmds, y)
    {
      var i :| 0 <= i < k && Touches(cmds[..k][i], y);
      assert Touches(cmds[i], y);
    }
    forall y | Touched(cmds, y) && !Touches(cmds[k], y)
      ensures Touched(cmds[..k], y)
    {
      var i :| 0 <= i < |cmds| && Touches(cmds[i], y);
      assert Touches(cmds[..k][i], y);
    }
  }

  /** What its own timeout function does to a running timer. */
  lemma {:induction false} ObeyedAllOwn(s: Timers, n: int, may: set<int>, cmds: seq<Cmd>, t: int)
    requires s.Ok(n) && Armable(s, n, may) && CmdsOk(cmds, n, may) && t in s.running
    ensures var r := ObeyedAll(s, n, may, cmds);
            && (t in r.running ==> r.active[t] == s.active[t] && (s.active[t] ==> !Touched(cmds, t)))
            && (!Touched(cmds, t) ==> t in r.running)
    decreases |cmds|
  {
    if cmds != [] {
      var k := |cmds| - 1;
      ObeyedAllOwn(s, n, may, cmds[..k], t);
      TouchedLast(cmds);
      var m := ObeyedAll(s, n, may, cmds[..k]);
      ShortDistinct(m.running);
      DelMembers(m.running, cmds[k].t, n);
      hide Touched, Ins, Del;
    }
  }

  // ----- one timer firing -----

  /** The state in which the timeout function of the first timer is called. */
  ghost function Entered(s: Timers, n: int): (r: Timers)
    requires s.Ok(n) && s.running == [] && s.list != []
    ensures r.Ok(n) && r.now == s.now && r.running == [s.list[0]] && r.periodic == s.periodic
    ensures r.active[s.list[0]] == s.periodic[s.list[0]]
  {
    var t := s.list[0];
    DelMembers(s.list, t, n);
    DelSorted(s.list, s.due, t);
    s.(list := Del(s.list, t), active := if s.periodic[t] then s.active else s.active[t := false], running := [t])
  }

  /** Afterwards: a timer its function neither started nor stopped is off the list, and started again if periodic. */
  ghost function Left(s: Timers, n: int, t: int): (r: Timers)
    requires s.Ok(n) && 1 <= t <= n && (s.running == [] || s.running == [t])
    requires s.periodic[t] && s.running != [] ==> 0 <= s.initTick[t] < HALF
    ensures r.Ok(n) && r.now == s.now && r.running == []
  {
    if s.running == [] then s else
    var s1 := s.(running := []);
    if s.periodic[t] && s.active[t] then
      var s2 := s1.(active := s1.active[t := false]);
      assert t in s.running && t !in s.list;
      Started(s2, n, t)
    else s1
  }

  ghost function Fired(s: Timers, n: int, may: set<int>, cmds: seq<Cmd>): (r: Timers)
    requires s.Ok(n) && s.running == [] && s.list != [] && Armable(s, n, may) && CmdsOk(cmds, n, may)
    ensures r.Ok(n) && r.now == s.now && r.running == []
  {
    EnteredArmable(s, n, may);
    RunningOrNone(Entered(s, n), n, may, cmds);
    Left(ObeyedAll(Entered(s, n), n, may, cmds), n, s.list[0])
  }

  lemma EnteredArmable(s: Timers, n: int, may: set<int>)
    requires s.Ok(n) && s.running == [] && s.list != [] && Armable(s, n, may)
    ensures Armable(Entered(s, n), n, may)
  {
    DelMembers(s.list, s.list[0], n);
  }

  /** No other timer runs meanwhile. */
  lemma {:induction false} RunningOrNone(s: Timers, n: int, may: set<int>, cmds: seq<Cmd>)
    requires s.Ok(n) && Armable(s, n, may) && CmdsOk(cmds, n, may)
    ensures ObeyedAll(s, n, may, cmds).running == s.running || ObeyedAll(s, n, may, cmds).running == []
    decreases |cmds|
  {
    if cmds != [] {
      var m := ObeyedAll(s, n, may, cmds[..|cmds| - 1]);
      RunningOrNone(s, n, may, cmds[..|cmds| - 1]);
      hide Ins, Sorted, Distinct, Members, Apart;
    }
  }

  /** Firing the first expired timer: it leaves the expired ones, with those its function starts or stops; none joins. */
  lemma FiredExpired(s: Timers, n: int, may: set<int>, cmds: seq<Cmd>)
    requires s.Ok(n) && s.running == [] && s.list != [] && Armable(s, n, may) && CmdsOk(cmds, n, may)
    requires s.due[s.list[0]] <= s.now
    ensures var r, e := Fired(s, n, may, cmds), s.Expired(n);
            && Armable(r, n, may)
            && e != [] && e[0] == s.list[0] && IsSub(r.Expired(n), e[1..])
            && (forall y :: y in r.Expired(n) <==> y in e[1..] && !Touched(cmds, y))
            && (forall y :: 1 <= y <= n && y in r.Expired(n) ==> r.due[y] == s.due[y])
  {
    hide IsSub, Touched, ObeyedAll;
    var t, e := s.list[0], s.Expired(n);
    EnteredArmable(s, n, may);
    var s1 := Entered(s, n);
    RunningOrNone(s1, n, may, cmds);
    var s2 := ObeyedAll(s1, n, may, cmds);
    ObeyedAllExpired(s1, n, may, cmds);
    EnteredExpired(s, n);
    ExpiredMembers(s2, n, t);
    ExpiredMembers(s1, n, t);
    ExpiredMembers(s, n, t);
    LeftExpired(s2, n, may, t);
  }

  lemma EnteredExpired(s: Timers, n: int)
    requires s.Ok(n) && s.running == [] && s.list != [] && s.due[s.list[0]] <= s.now
    ensures s.Expired(n) != [] && s.Expired(n)[0] == s.list[0]
    ensures Entered(s, n).Expired(n) == s.Expired(n)[1..] && Entered(s, n).due == s.due
  {
    DueByDel(s.list, s.due, s.now, s.list[0]);
  }

  lemma LeftExpired(s: Timers, n: int, may: set<int>, t: int)
    requires s.Ok(n) && 1 <= t <= n && (s.running == [] || s.running == [t]) && Armable(s, n, may)
    requires t !in s.Expired(n)
    ensures var r := Left(s, n, t);
            && Armable(r, n, may) && r.Expired(n) == s.Expired(n)
            && (forall y :: 1 <= y <= n && y in r.Expired(n) ==> r.due[y] == s.due[y])
  {
    hide Ins, Del, DueBy, Sorted, Distinct;
    ExpiredMembers(s, n, t);
    if s.running != [] && s.periodic[t] && s.active[t] {
      assert t in s.running && t !in s.list;
      var s2 := s.(running := [], active := s.active[t := false]);
      StartedExpired(s2, n, t);
      DelAbsent(s.Expired(n), t);
      ObeyedArmable(s2, n, may, Start(t));
    }
  }

  /**
   A timer that its own timeout function started or stopped is not started a second time.  Any other
   is listed again exactly if it was periodic when it fired and still is, due one period from now.
   */
  lemma RearmedOnce(s: Timers, n: int, may: set<int>, cmds: seq<Cmd>)
    requires s.Ok(n) && s.running == [] && s.list != [] && Armable(s, n, may) && CmdsOk(cmds, n, may)
    ensures var t, r := s.list[0], Fired(s, n, may, cmds);
            Armable(Entered(s, n), n, may) &&
            var m := ObeyedAll(Entered(s, n), n, may, cmds);
            if Touched(cmds, t) then r == m.(running := []) else
            (t in r.list <==> s.periodic[t] && m.periodic[t]) && (t in r.list ==> r.due[t] == s.now + m.initTick[t])
  {
    hide Touched, ObeyedAll, Ins, Del, Sorted, Distinct;
    EnteredArmable(s, n, may);
    var t, s1 := s.list[0], Entered(s, n);
    assert t in s1.running;
    RunningOrNone(s1, n, may, cmds);
    ObeyedAllOwn(s1, n, may, cmds, t);
    var m := ObeyedAll(s1, n, may, cmds);
    assert m.running == [t] ==> t in m.running && t !in m.list;
  }

  lemma {:induction false} ObeyedTruthful(s: Timers, n: int, may: set<int>, cmds: seq<Cmd>)
    requires s.Ok(n) && Armable(s, n, may) && CmdsOk(cmds, n, may) && s.Truthful(n)
    ensures var r := ObeyedAll(s, n, may, cmds); r.Truthful(n)
    decreases |cmds|
  {
    if cmds != [] {
      var k := |cmds| - 1;
      var c := cmds[k];
      ObeyedTruthful(s, n, may, cmds[..k]);
      var m := ObeyedAll(s, n, may, cmds[..k]);
      DelMembers(m.list, c.t, n);
      ShortDistinct(m.running);
      DelMembers(m.running, c.t, n);
      if c.Start? {
        InsMembers(Del(m.list, c.t), m.due[c.t := m.now + m.initTick[c.t]], c.t);
      }
      hide Ins, Del, Sorted, Distinct, Members;
    }
  }

  /**
   A periodic timer whose own timeout function makes it one-shot, and neither starts nor stops it,
   stays marked active while it is on no list and never fires again.  In no other case does firing
   make the marks wrong.
   */
  lemma FiredTruthful(s: Timers, n: int, may: set<int>, cmds: seq<Cmd>)
    requires s.Ok(n) && s.running == [] && s.list != [] && Armable(s, n, may) && CmdsOk(cmds, n, may)
    requires s.Truthful(n)
    ensures var t := s.list[0];
            Armable(Entered(s, n), n, may) &&
            (Fired(s, n, may, cmds).Truthful(n) <==>
             !(s.periodic[t] && !Touched(cmds, t) && !ObeyedAll(Entered(s, n), n, may, cmds).periodic[t]))
  {
    hide Touched, ObeyedAll, Sorted, Distinct;
    EnteredArmable(s, n, may);
    var t, s1 := s.list[0], Entered(s, n);
    assert t in s.list && t in s1.running;
    RunningOrNone(s1, n, may, cmds);
    ObeyedAllOwn(s1, n, may, cmds, t);
    DelMembers(s.list, t, n);
    ObeyedTruthful(s1, n, may, cmds);
    var m := ObeyedAll(s1, n, may, cmds);
    assert m.running == [t] ==> t in m.running && t !in m.list;
    if t !in m.list {
      DelAbsent(m.list, t);
      InsMembers(Del(m.list, t), m.due[t := m.now + m.initTick[t]], t);
    }
    hide Ins, Del, Members;
  }

  /** One such timer, due after five ticks, with the period ten. */
  lemma MarkedButOff() returns (s: Timers)
    ensures s.Ok(1) && s.running == [] && s.list == [1] && s.Truthful(1) && s.due[1] <= s.now && s.periodic[1]
    ensures Armable(s, 1, {1}) && CmdsOk([SetOneShot(1)], 1, {1})
    ensures var r := Fired(s, 1, {1}, [SetOneShot(1)]); r.active[1] && 1 !in r.list
  {
    s := Timers([1], [0, 5], [0, 10], [false, true], [false, true], 5, []);
    assert s.Ok(1);
    hide Timers.InWindow, Sorted, Distinct, Members, Apart;
    var cmds := [SetOneShot(1)];
    EnteredArmable(s, 1, {1});
    assert cmds[..0] == [];
    assert Obeyed(ObeyedAll(Entered(s, 1), 1, {1}, cmds[..0]), 1, {1}, cmds[0]).periodic[1] == false;
    hide Obeyed, Entered;
    FiredTruthful(s, 1, {1}, cmds);
    RearmedOnce(s, 1, {1}, cmds);
    hide Fired;
  }

  /**
   A periodic timer whose function leaves it alone is due again at once exactly if its period is zero:
   a check then comes back to it without end.
   */
  lemma DueAgain(s: Timers, n: int)
    requires s.Ok(n) && s.running == [] && s.list != [] && s.due[s.list[0]] <= s.now
    requires s.periodic[s.list[0]] && 0 <= s.initTick[s.list[0]] < HALF
    ensures var t, r := s.list[0], Left(Entered(s, n), n, s.list[0]);
            t in r.list && 1 <= t <= n && (r.due[t] <= r.now <==> s.initTick[t] == 0)
  {
    hide Ins, Del, Sorted, Distinct;
    var t := s.list[0];
    assert t in s.list;
  }

  /** Such a timer alone: the state in which the check comes back is the state it began in. */
  lemma ComesBack(s: Timers, n: int, t: int)
    requires s.Ok(n) && s.running == [] && s.list == [t] && 1 <= t <= n
    requires s.periodic[t] && s.initTick[t] == 0 && s.due[t] == s.now && s.active[t]
    ensures Left(Entered(s, n), n, t) == s
  {
    hide Timers.InWindow, Sorted, Distinct, Apart;
    assert Del([t], t) == [];
    assert s.due[t := s.now] == s.due && s.active[t := true] == s.active;
    assert Ins([], s.due, t) == [t];
  }

  lemma RoundAndRound() returns (s: Timers)
    ensures s.Ok(1) && s.running == [] && s.list == [1] && s.due[1] == s.now && s.periodic[1] && s.initTick[1] == 0
    ensures Left(Entered(s, 1), 1, 1) == s
  {
    s := Timers([1], [0, 5], [0, 0], [false, true], [false, true], 5, []);
    assert s.Ok(1);
    hide Timers.InWindow, Sorted, Distinct, Apart, Left, Entered;
    ComesBack(s, 1, 1);
  }

  // ----- a whole check of the timers -----

  /** What the timeout functions do: `callback(k, t)` when that of `t` is the k-th to be called. */
  ghost predicate Legal(callback: (nat, int) -> seq<Cmd>, n: int, may: set<int>) {
    forall k: nat, t :: CmdsOk(callback(k, t), n, may)
  }

  /** A check, `k` timers having fired: the state it ends in and the timers that fire. */
  ghost function Checked(s: Timers, n: int, may: set<int>, callback: (nat, int) -> seq<Cmd>, k: nat): (r: (Timers, seq<int>))
    requires s.Ok(n) && s.running == [] && Armable(s, n, may) && Legal(callback, n, may)
    decreases |s.Expired(n)|
  {
    if s.list == [] || s.due[s.list[0]] > s.now then (s, []) else
    var t := s.list[0];
    assert CmdsOk(callback(k, t), n, may);
    FiredExpired(s, n, may, callback(k, t));
    SubShorter(Fired(s, n, may, callback(k, t)).Expired(n), s.Expired(n)[1..]);
    var r := Checked(Fired(s, n, may, callback(k, t)), n, may, callback, k + 1);
    (r.0, [t] + r.1)
  }

  lemma {:induction false} SubShorter(a: seq<int>, b: seq<int>)
    requires IsSub(a, b)
    ensures |a| <= |b|
  {
    if a != [] {
      SubShorter(if a[0] == b[0] then a[1..] else a, b[1..]);
    }
  }

  lemma CheckedStep(s: Timers, n: int, may: set<int>, callback: (nat, int) -> seq<Cmd>, k: nat) returns (t: int, f: Timers)
    requires s.Ok(n) && s.running == [] && Armable(s, n, may) && Legal(callback, n, may) && s.Expired(n) != []
    ensures f.Ok(n) && f.running == [] && Armable(f, n, may) && f.now == s.now && |f.Expired(n)| < |s.Expired(n)|
    ensures s.list != [] && s.list[0] == t == s.Expired(n)[0] && CmdsOk(callback(k, t), n, may)
    ensures f == Fired(s, n, may, callback(k, t)) && IsSub(f.Expired(n), s.Expired(n)[1..])
    ensures forall y :: y in f.Expired(n) <==> y in s.Expired(n)[1..] && !Touched(callback(k, t), y)
    ensures var r, g := Checked(s, n, may, callback, k), Checked(f, n, may, callback, k + 1); r == (g.0, [t] + g.1)
  {
    DueByFirst(s.list, s.due, s.now);
    t := s.list[0];
    assert CmdsOk(callback(k, t), n, may);
    FiredExpired(s, n, may, callback(k, t));
    f := Fired(s, n, may, callback(k, t));
    SubShorter(f.Expired(n), s.Expired(n)[1..]);
  }

  lemma CheckedStop(s: Timers, n: int, may: set<int>, callback: (nat, int) -> seq<Cmd>, k: nat)
    requires s.Ok(n) && s.running == [] && Armable(s, n, may) && Legal(callback, n, may) && s.Expired(n) == []
    ensures Checked(s, n, may, callback, k) == (s, [])
    ensures forall t :: t in s.list ==> 1 <= t <= n && s.now < s.due[t] < s.now + HALF
  {
    DueByFirst(s.list, s.due, s.now);
    DueByMembers(s.list, s.due, s.now);
  }

  /** At the end no listed timer is due. */
  lemma {:induction false} CheckedDone(s: Timers, n: int, may: set<int>, callback: (nat, int) -> seq<Cmd>, k: nat)
    requires s.Ok(n) && s.running == [] && Armable(s, n, may) && Legal(callback, n, may)
    ensures var r := Checked(s, n, may, callback, k).0;
            && r.Ok(n) && r.running == [] && Armable(r, n, may) && r.now == s.now
            && (forall t :: t in r.list ==> 1 <= t <= n && r.now < r.due[t] < r.now + HALF)
    decreases |s.Expired(n)|
  {
    hide IsSub, Touched, Fired, Checked, Sorted, Distinct, Armable, Legal, Timers.InWindow;
    if s.Expired(n) == [] {
      CheckedStop(s, n, may, callback, k);
    } else {
      var t, f := CheckedStep(s, n, may, callback, k);
      CheckedDone(f, n, may, callback, k + 1);
    }
  }

  /**
   The timers that fire were due when the check began and fire in list order, so by deadline and
   then in the order in which they were started, and no timer fires twice.
   */
  lemma {:induction false} CheckedOrder(s: Timers, n: int, may: set<int>, callback: (nat, int) -> seq<Cmd>, k: nat)
    requires s.Ok(n) && s.running == [] && Armable(s, n, may) && Legal(callback, n, may)
    ensures IsSub(Checked(s, n, may, callback, k).1, s.Expired(n))
    decreases |s.Expired(n)|
  {
    hide Touched, Fired, Checked, Sorted, Distinct, Armable, Legal, Timers.InWindow, DueBy;
    if s.Expired(n) == [] {
      CheckedStop(s, n, may, callback, k);
    } else {
      var t, f := CheckedStep(s, n, may, callback, k);
      CheckedOrder(f, n, may, callback, k + 1);
      SubTrans(Checked(f, n, may, callback, k + 1).1, f.Expired(n), s.Expired(n)[1..]);
    }
  }

  /** A timer that is due fires, unless a timeout function called before starts or stops it. */
  lemma {:induction false} CheckedAll(s: Timers, n: int, may: set<int>, callback: (nat, int) -> seq<Cmd>, k: nat, t: int)
    requires s.Ok(n) && s.running == [] && Armable(s, n, may) && Legal(callback, n, may) && t in s.Expired(n)
    ensures var fired := Checked(s, n, may, callback, k).1;
            t in fired || exists j :: 0 <= j < |fired| && Touched(callback(k + j, fired[j]), t)
    decreases |s.Expired(n)|
  {
    hide IsSub, Touched, Fired, Checked, Sorted, Distinct, Armable, Legal, Timers.InWindow, DueBy;
    var u, f := CheckedStep(s, n, may, callback, k);
    var fired, rest := Checked(s, n, may, callback, k).1, Checked(f, n, may, callback, k + 1).1;
    if t == u || Touched(callback(k, u), t) {
      assert fired[0] == u && Touched(callback(k + 0, fired[0]), t) == Touched(callback(k, u), t);
    } else {
      CheckedAll(f, n, may, callback, k + 1, t);
      if t !in rest {
        var j :| 0 <= j < |rest| && Touched(callback(k + 1 + j, rest[j]), t);
        assert fired[j + 1] == rest[j] && Touched(callback(k + (j + 1), fired[j + 1]), t);
      }
    }
  }

  /** On time: with no timer overdue before a tick, each timer that fires in it is due at that very tick. */
  lemma FiresOnTime(s: Timers, n: int, may: set<int>, callback: (nat, int) -> seq<Cmd>, t: int)
    requires s.Ok(n) && s.running == [] && Armable(s, n, may) && Legal(callback, n, may)
    requires forall u :: u in s.list ==> s.now < s.due[u]
    ensures var s1 := s.(now := s.now + 1);
            s1.Ok(n) && Armable(s1, n, may) &&
            (t in Checked(s1, n, may, callback, 0).1 ==> t in s.list && s.due[t] == s1.now)
  {
    var s1 := s.(now := s.now + 1);
    CheckedOrder(s1, n, may, callback, 0);
    ExpiredMembers(s1, n, t);
    var fired := Checked(s1, n, may, callback, 0).1;
    if t in fired {
      SubMember(fired, s1.Expired(n), t);
    }
  }
}
