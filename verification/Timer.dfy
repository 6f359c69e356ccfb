/**
 Kernel timers on a skip list of any number of levels.
 */
module Timer {
  import opened Lists
  import opened RtList
  import opened TimerRows
  import opened TimerLinks
  import opened TimerSpec

  /** How many rows above the last one a timer joins: one for each group of zero bits of the counter. */
  function Height(bits: int, mask: int, above: int): (h: int)
    requires bits >= 0 && mask >= 1 && above >= 0
    ensures 0 <= h <= above
    decreases above
  {
    if above == 0 || bits % (mask + 1) != 0 then 0 else 1 + Height(bits / (mask + 1), mask, above - 1)
  }

  function Pow(b: int, n: nat): int {
    if n == 0 then 1 else b * Pow(b, n - 1)
  }

  /** The height is the number of groups of zero bits that the counter ends in, as far as there are rows. */
  lemma {:induction false} HeightMeans(bits: int, mask: int, above: int) returns (rest: int)
    requires bits >= 0 && mask >= 1 && above >= 0
    ensures var h := Height(bits, mask, above);
            bits == Pow(mask + 1, h) * rest && (h < above ==> rest % (mask + 1) != 0)
    decreases above
  {
    var b, h := mask + 1, Height(bits, mask, above);
    if h == 0 {
      rest := bits;
    } else {
      var q := bits / b;
      Whole(bits, b);
      rest := HeightMeans(q, mask, above - 1);
      hide Height;
      var p := Pow(b, h - 1);
      assert Pow(b, h) == b * p;
      hide Pow;
      Regroup(b, p, rest);
    }
  }

  lemma Whole(n: int, b: int)
    requires b > 0 && n >= 0 && n % b == 0
    ensures n == b * (n / b) && n / b >= 0
  {
  }

  lemma Regroup(b: int, p: int, q: int)
    ensures b * (p * q) == b * p * q
  {
  }

  /** Only the last row lends its node to the list of the running timer. */
  function Held(l: int, levels: int, temp: seq<int>): seq<int> {
    if l == levels - 1 then temp else []
  }

  /** Listed timers are marked active, and due from the last tick on and less than half the range ahead. */
  ghost predicate Window(list: seq<int>, active: seq<bool>, due: seq<int>, now: int, n: int) {
    |active| == n + 1 && |due| == n + 1 && forall t :: t in list ==> 1 <= t <= n && active[t] && now - 1 <= due[t] < now + HALF
  }

  lemma WindowAfter(list: seq<int>, active: seq<bool>, due: seq<int>, now: int, n: int, list1: seq<int>, t: int)
    requires Window(list, active, due, now, n) && 1 <= t <= n && now <= due[t] < now + HALF
    requires forall y :: y in list1 ==> y in list || y == t
    ensures Window(list1, active[t := true], due, now, n)
  {
  }

  lemma WindowWithout(list: seq<int>, active: seq<bool>, due: seq<int>, now: int, n: int, t: int, b: bool, d: int)
    requires Window(list, active, due, now, n) && t !in list && 1 <= t <= n
    ensures Window(list, active[t := b], due[t := d], now, n)
    ensures Window(list, active[t := b], due, now, n)
  {
  }

  /** The stored ticks are the deadlines, wrapped. */
  ghost predicate Clock(timeout: seq<int>, due: seq<int>, initTick: seq<int>) {
    && |timeout| == |due| == |initTick|
    && (forall t :: 0 <= t < |due| ==> timeout[t] == Wrap(due[t]))
    && (forall t :: 0 <= t < |due| ==> 0 <= initTick[t] < TWO32)
  }

  lemma ClockAt(timeout: seq<int>, due: seq<int>, initTick: seq<int>, t: int)
    requires Clock(timeout, due, initTick) && 0 <= t < |due|
    ensures timeout[t] == Wrap(due[t]) && 0 <= initTick[t] < TWO32
  {
  }

  lemma ClockAfter(timeout: seq<int>, due: seq<int>, initTick: seq<int>, t: int, tick: int, now: int)
    requires Clock(timeout, due, initTick) && 0 <= t < |due| && tick == Wrap(now)
    ensures Clock(timeout[t := (tick + initTick[t]) % TWO32], due[t := now + initTick[t]], initTick)
  {
    WrapSum(now, initTick[t]);
  }

  class TimerList {
    const levels: int
    const mask: int
    const n: int

    var links: seq<Links>  // the rows, the full one last
    var timeout: seq<int>
    var initTick: seq<int>
    var active: seq<bool>
    var periodic: seq<bool>
    var tick: int
    var counter: int

    ghost var rows: seq<seq<int>>
    ghost var due: seq<int>  // the deadlines, not wrapped
    ghost var now: int       // the ticks since start-up, not wrapped
    ghost var temp: seq<int> // the timer whose function is running

    ghost predicate Shape()
      reads this
    {
      && levels >= 1 && (mask == 1 || mask == 3) && n >= 0
      && |links| == levels && |rows| == levels
      && |timeout| == n + 1 && |initTick| == n + 1 && |active| == n + 1 && |periodic| == n + 1 && |due| == n + 1
    }

    ghost predicate Linked()
      reads this
      requires Shape()
    {
      forall l :: 0 <= l < levels ==> RowOk(links[l], n, rows[l], Held(l, levels, temp))
    }

    ghost predicate Valid()
      reads this
    {
      && Shape() && Linked() && RowsOk(rows, due) && Window(rows[levels - 1], active, due, now, n) && |temp| <= 1
      && Clock(timeout, due, initTick) && now >= 0 && tick == Wrap(now) && 0 <= counter < TWO32
    }

    /** rt_system_timer_init, and rt_timer_init for each of the timers 1 to `n`. */
    constructor (levels: int, mask: int, n: int, tick: int, initTick: seq<int>, periodic: seq<bool>)
      requires levels >= 1 && (mask == 1 || mask == 3) && n >= 0 && 0 <= tick < TWO32
      requires |initTick| == n + 1 && |periodic| == n + 1 && forall t :: 0 <= t <= n ==> 0 <= initTick[t] < TWO32
      ensures Valid() && this.levels == levels && this.mask == mask && this.n == n
      ensures Abs() == Timers([], seq(n + 1, _ => 0), initTick, seq(n + 1, _ => false), periodic, tick, [])
    {
      var alone := Links(seq(n + 2, i => i), seq(n + 2, i => i));
      this.levels, this.mask, this.n := levels, mask, n;
      links := seq(levels, _ => alone);
      timeout, this.initTick := seq(n + 1, _ => 0), initTick;
      active, this.periodic := seq(n + 1, _ => false), periodic;
      this.tick, counter := tick, 0;
      rows, due, now, temp := seq(levels, _ => []), seq(n + 1, _ => 0), tick, [];
      new;
      hide IsRing;
      assert RowOk(alone, n, [], []) by {
        AloneRow(alone, n);
      }
    }

    /** rt_timer_next_timeout_tick */
    method NextTimeout() returns (tick: int)
      requires Valid()
      ensures Abs().list == [] ==> tick == TWO32 - 1
      ensures Abs().list != [] ==> tick == Wrap(due[Abs().list[0]])
      ensures forall t :: t in Abs().list ==> due[Abs().list[0]] <= due[t]
    {
      hide RowOk, RowsOk, Distinct;
      AbsOk();
      RowFirst(links[levels - 1], n, rows[levels - 1], temp);
      tick := TWO32 - 1;
      if !links[levels - 1].IsEmpty(0) {
        tick := timeout[links[levels - 1].next[0]];
      }
    }

    /** Take timer `t` out of every row. */
    method Unlink(t: int)
      requires Valid() && 1 <= t <= n
      modifies this`links, this`rows, this`temp
      ensures Valid()
      ensures rows == DelRows(old(rows), t) && temp == Del(old(temp), t) && t !in temp
      ensures forall l :: 0 <= l < levels ==> t !in rows[l]
    {
      hide RowOk, Del, IsSub, Sorted;
      ghost var rows0, temp0, links0 := rows, temp, links;
      AbsOk();
      var i := 0;
      while i < levels
        invariant 0 <= i <= levels && |links| == levels
        invariant forall l :: i <= l < levels ==> links[l] == links0[l]
        invariant forall l :: 0 <= l < i ==> RowOk(links[l], n, Del(rows0[l], t), Held(l, levels, Del(temp0, t)))
      {
        RowRemove(links[i], n, rows0[i], Held(i, levels, temp0), t);
        DelAbsent([], t);
        links := links[i := links[i].Remove(t)];
        i := i + 1;
      }
      rows, temp := DelRows(rows0, t), Del(temp0, t);
      ShortDistinct(temp0);
      DelMembers(temp0, t, n);
      DelRowsOk(rows0, due, t);
      DelMembers(rows0[levels - 1], t, n);
    }

    /** Scan row `l` from the node `from` for the last timer due no later than `t`. */
    method Scan(l: int, from: int, t: int, ghost k: int) returns (p: int)
      requires Valid() && 0 <= l < levels && 1 <= t <= n && now <= due[t] < now + HALF
      requires 0 <= k <= Place(rows[l], due, due[t]) && from == WithHead(0, rows[l])[k]
      ensures p == WithHead(0, rows[l])[Place(rows[l], due, due[t])]
    {
      hide IsSub, Sorted, WithHead, Place, Distinct, IsRing;
      p := from;
      ghost var row, j, held := rows[l], k, Held(l, levels, temp);
      PlaceMeans(row, due, due[t]);
      RowStep(links[l], n, row, held, j);
      while p != links[l].prev[0]
        invariant 0 <= j <= Place(row, due, due[t]) && p == WithHead(0, row)[j]
        invariant 0 <= p < |links[l].next| && |links[l].prev| > 0
        invariant links[l].next[p] == if j < |row| then row[j] else 0
        invariant p == links[l].prev[0] <==> j == |row|
        decreases |row| - j
      {
        var next := links[l].next[p];
        InLastRow(rows, due, l, next);
        WrapOrder(due[next], due[t]);
        var diff := Ahead(timeout[next], timeout[t]);
        if diff != 0 && diff < HALF {
          break;
        }
        p := next;
        j := j + 1;
        RowStep(links[l], n, row, held, j);
      }
    }

    /** Find in every row the last timer due no later than `t`, going down from the shortest row. */
    method Descend(t: int) returns (heads: seq<int>)
      requires Valid() && 1 <= t <= n && now <= due[t] < now + HALF
      ensures |heads| == levels
      ensures forall l :: 0 <= l < levels ==> heads[l] == WithHead(0, rows[l])[Place(rows[l], due, due[t])]
    {
      hide RowOk, Sorted, WithHead, Place, Distinct;
      heads := [];
      var start := 0;
      ghost var k := 0;
      assert WithHead(0, rows[0])[0] == 0;
      while |heads| < levels
        invariant |heads| <= levels
        invariant forall l :: 0 <= l < |heads| ==> heads[l] == WithHead(0, rows[l])[Place(rows[l], due, due[t])]
        invariant |heads| < levels ==>
          0 <= k <= Place(rows[|heads|], due, due[t]) && start == WithHead(0, rows[|heads|])[k]
      {
        ghost var l := |heads|;
        start := Scan(|heads|, start, t, k);
        heads := heads + [start];
        if |heads| < levels {
          if Place(rows[l], due, due[t]) > 0 {
            ghost var j := DescendAt(rows[l], rows[l + 1], due, due[t]);
            k := j + 1;
          } else {
            k := 0;
          }
        }
      }
    }

    /** What a caller sees. */
    ghost function Abs(): Timers
      reads this
      requires Shape()
    {
      Timers(rows[levels - 1], due, initTick, active, periodic, now, temp)
    }

    lemma AbsOk()
      requires Valid()
      ensures Abs().Ok(n)
    {
      assert RowOk(links[levels - 1], n, rows[levels - 1], Held(levels - 1, levels, temp));
    }

    /** A timer joins the last row, and one more row above it for each zero group of the counter. */
    method JoinRows(t: int, heads: seq<int>)
      requires Shape() && Linked() && 1 <= t <= n && t !in temp && |heads| == levels && counter >= 0
      requires forall l :: 0 <= l < levels ==> Members(rows[l], |due| - 1) && t !in rows[l]
      requires forall l :: 0 <= l < levels ==> heads[l] == WithHead(0, rows[l])[Place(rows[l], due, due[t])]
      modifies this`links
      ensures |links| == levels
      ensures var up := levels - 1 - Height(counter, mask, levels - 1);
              forall l :: 0 <= l < levels ==>
                RowOk(links[l], n, if l >= up then Ins(rows[l], due, t) else rows[l], Held(l, levels, temp))
    {
      hide RowOk, WithHead, Place, Members, Ins;
      ghost var links0 := links;
      var bits := counter;
      var l := levels - 1;
      Joined(l, t, heads[l]);
      links := links[l := links[l].InsertAfter(heads[l], t)];
      while l > 0 && bits % (mask + 1) == 0
        invariant 0 <= l < levels && |links| == levels && bits >= 0
        invariant l - Height(bits, mask, l) == levels - 1 - Height(counter, mask, levels - 1)
        invariant forall m :: 0 <= m < l ==> links[m] == links0[m]
        invariant forall m :: l <= m < levels ==> RowOk(links[m], n, Ins(rows[m], due, t), Held(m, levels, temp))
      {
        l := l - 1;
        assert links[l] == links0[l];
        Joined(l, t, heads[l]);
        links := links[l := links[l].InsertAfter(heads[l], t)];
        bits := bits / (mask + 1);
      }
    }

    lemma Joined(l: int, t: int, head: int)
      requires Shape() && 0 <= l < levels && 1 <= t <= n && t !in temp && t !in rows[l]
      requires RowOk(links[l], n, rows[l], Held(l, levels, temp)) && Members(rows[l], |due| - 1)
      requires head == WithHead(0, rows[l])[Place(rows[l], due, due[t])]
      ensures links[l].Has(head) && t < |links[l].next| && t < |links[l].prev|
      ensures RowOk(links[l].InsertAfter(head, t), n, Ins(rows[l], due, t), Held(l, levels, temp))
    {
      RowJoin(links[l], n, rows[l], Held(l, levels, temp), due, t, head);
    }

    method Link(t: int, heads: seq<int>)
      requires Valid() && 1 <= t <= n && t !in temp && |heads| == levels
      requires forall l :: 0 <= l < levels ==> t !in rows[l]
      requires forall l :: 0 <= l < levels ==> heads[l] == WithHead(0, rows[l])[Place(rows[l], due, due[t])]
      requires now <= due[t] < now + HALF
      modifies this`links, this`rows, this`counter, this`active
      ensures Valid() && active == old(active)[t := true] && counter == Wrap(old(counter) + 1)
      ensures rows == InsRows(old(rows), due, t, levels - 1 - Height(counter, mask, levels - 1))
    {
      hide RowOk, WithHead, Place, Distinct, Sorted, Members, IsSub, Ins, Window, Clock, Height;
      counter := (counter + 1) % TWO32;
      JoinRows(t, heads);
      ghost var up := levels - 1 - Height(counter, mask, levels - 1);
      InsRowsOk(rows, due, t, up);
      InsMembers(rows[levels - 1], due, t);
      WindowAfter(rows[levels - 1], active, due, now, n, Ins(rows[levels - 1], due, t), t);
      active := active[t := true];
      rows := InsRows(rows, due, t, up);
    }

    /** Set the deadline of a timer that is not listed. */
    method Aim(t: int)
      requires Valid() && 1 <= t <= n && t !in temp && forall l :: 0 <= l < levels ==> t !in rows[l]
      modifies this`timeout, this`due, this`active
      ensures Valid() && due == old(due)[t := now + initTick[t]] && active == old(active)[t := false]
    {
      hide RowOk, RowsOk, Window, Clock;
      ghost var d := now + initTick[t];
      ClockAfter(timeout, due, initTick, t, tick, now);
      WindowWithout(rows[levels - 1], active, due, now, n, t, false, d);
      OtherDueRows(rows, due, t, d);
      active := active[t := false];
      timeout := timeout[t := (tick + initTick[t]) % TWO32];
      due := due[t := d];
    }

    /** Take a timer out of every row and set its deadline. */
    method Withdraw(t: int)
      requires Valid() && 1 <= t <= n
      modifies this`links, this`timeout, this`active, this`rows, this`due, this`temp
      ensures Valid() && rows == DelRows(old(rows), t) && temp == Del(old(temp), t) && t !in temp
      ensures due == old(due)[t := now + initTick[t]] && active == old(active)[t := false]
      ensures forall l :: 0 <= l < levels ==> t !in rows[l]
    {
      hide RowOk, RowsOk, Del, Window, Clock;
      Unlink(t);
      Aim(t);
    }

    /** rt_timer_start */
    method Start(t: int)
      requires Valid() && 1 <= t <= n && initTick[t] < HALF
      modifies this`links, this`timeout, this`active, this`counter, this`rows, this`due, this`temp
      ensures Valid() && old(Abs().Ok(n)) && Abs() == Started(old(Abs()), n, t)
      ensures counter == Wrap(old(counter) + 1)
      ensures var up := levels - 1 - Height(counter, mask, levels - 1);
              rows == Restarted(old(rows), old(due), t, now + initTick[t], up)
    {
      hide RowOk, IsSub, Sorted, Distinct, Members, Del, Ins, Place, WithHead, Window, Clock, Height;
      AbsOk();
      ClockAt(timeout, due, initTick, t);
      DelRowsOk(rows, due, t);
      OtherDueRows(DelRows(rows, t), due, t, now + initTick[t]);
      Withdraw(t);
      var heads := Descend(t);
      Link(t, heads);
    }

    /** rt_timer_stop */
    method Stop(t: int) returns (ok: bool)
      requires Valid() && 1 <= t <= n
      modifies this`links, this`active, this`rows, this`temp
      ensures Valid() && old(Abs().Ok(n)) && Abs() == Stopped(old(Abs()), n, t)
      ensures ok == old(active[t])
      ensures rows == if ok then DelRows(old(rows), t) else old(rows)
    {
      hide RowOk, IsSub, Sorted, Distinct, Members, Del;
      AbsOk();
      DelRowsOk(rows, due, t);
      if !active[t] {
        return false;
      }
      Unlink(t);
      active := active[t := false];
      ok := true;
    }

    /** The timer part of rt_tick_increase, before the timers are checked. */
    method Tick()
      requires Valid() && forall t :: t in rows[levels - 1] ==> now <= due[t]
      modifies this`tick, this`now
      ensures Valid() && old(Abs().Ok(n)) && Abs() == old(Abs()).(now := old(now) + 1)
    {
      hide RowOk, IsSub, Sorted, Distinct, Members;
      AbsOk();
      WrapSum(now, 1);
      tick := (tick + 1) % TWO32;
      now := now + 1;
    }

    /** rt_timer_control: the settings take effect at the next start. */
    method Control(c: Cmd)
      requires Valid() && 1 <= c.t <= n && (c.SetTime? || c.SetOneShot? || c.SetPeriodic?)
      requires c.SetTime? ==> 0 <= c.time < TWO32
      modifies this`initTick, this`periodic
      ensures Valid() && old(Abs().Ok(n))
      ensures c.SetTime? ==> Abs() == old(Abs()).(initTick := old(initTick)[c.t := c.time])
      ensures !c.SetTime? ==> Abs() == old(Abs()).(periodic := old(periodic)[c.t := c.SetPeriodic?])
    {
      hide RowOk, IsSub, Sorted, Distinct, Members, Window;
      AbsOk();
      match c {
        case SetTime(t, time) => initTick := initTick[t := time];
        case SetOneShot(t) => periodic := periodic[t := false];
        case SetPeriodic(t) => periodic := periodic[t := true];
      }
    }

    method ObeyOne(c: Cmd, ghost may: set<int>)
      requires Valid() && CmdOk(c, n, may)
      requires (AbsOk(); Armable(Abs(), n, may))
      modifies this`links, this`timeout, this`active, this`counter, this`rows, this`due, this`temp, this`initTick, this`periodic
      ensures Valid() && Abs().Ok(n) && old(Abs().Ok(n)) && Abs() == Obeyed(old(Abs()), n, may, c)
    {
      hide RowOk, RowsOk, Started, Stopped, Window, Clock;
      AbsOk();
      match c {
        case Start(t) => Start(t);
        case Stop(t) => var _ := Stop(t);
        case _ => Control(c);
      }
    }

    /** What a timeout function does, command by command. */
    method Obey(cmds: seq<Cmd>, ghost may: set<int>)
      requires Valid() && CmdsOk(cmds, n, may)
      requires (AbsOk(); Armable(Abs(), n, may))
      modifies this`links, this`timeout, this`active, this`counter, this`rows, this`due, this`temp, this`initTick, this`periodic
      ensures Valid() && old(Abs().Ok(n)) && Abs() == ObeyedAll(old(Abs()), n, may, cmds)
    {
      hide RowOk, RowsOk, Linked, Window, Clock, Obeyed;
      AbsOk();
      ghost var s := Abs();
      var i := 0;
      assert cmds[..0] == [];
      while i < |cmds|
        invariant 0 <= i <= |cmds| && Valid() && Abs().Ok(n)
        invariant CmdsOk(cmds[..i], n, may) && Abs() == ObeyedAll(s, n, may, cmds[..i])
      {
        assert CmdOk(cmds[i], n, may);
        assert cmds[..i + 1][..i] == cmds[..i];
        ObeyOne(cmds[i], may);
        i := i + 1;
      }
      assert cmds[..i] == cmds;
    }

    /** Move the first timer from the rows to the list of the running timer. */
    method Enter() returns (t: int)
      requires Valid() && temp == [] && rows[levels - 1] != []
      modifies this`links, this`active, this`rows, this`temp
      ensures Valid() && old(Abs().Ok(n)) && t == old(rows[levels - 1][0]) && 1 <= t <= n
      ensures Abs() == Entered(old(Abs()), n)
    {
      hide RowOk, RowsOk, IsSub, Sorted, Distinct, Del, Window;
      AbsOk();
      RowFirst(links[levels - 1], n, rows[levels - 1], []);
      t := links[levels - 1].next[0];
      Unlink(t);
      WindowWithout(rows[levels - 1], active, due, now, n, t, false, 0);
      if !periodic[t] {
        active := active[t := false];
      }
      RowHold(links[levels - 1], n, rows[levels - 1], t);
      links := links[levels - 1 := links[levels - 1].InsertAfter(n + 1, t)];
      temp := [t];
    }

    /** Take the timer off the list of the running timer. */
    method Release(t: int)
      requires Valid() && 1 <= t <= n && temp == [t]
      modifies this`links, this`temp
      ensures Valid() && old(Abs().Ok(n)) && Abs() == old(Abs()).(running := []) && t !in rows[levels - 1]
    {
      hide RowOk, RowsOk, Window, IsRing, WithHead;
      AbsOk();
      assert t in temp && t !in rows[levels - 1] && Del(temp, t) == [];
      RowRemove(links[levels - 1], n, rows[levels - 1], temp, t);
      DelAbsent(rows[levels - 1], t);
      links := links[levels - 1 := links[levels - 1].Remove(t)];
      temp := [];
    }

    /** Unless its function did, take the timer off its list, and restart it if periodic. */
    method Leave(t: int)
      requires Valid() && 1 <= t <= n && (temp == [] || temp == [t])
      requires periodic[t] && temp != [] ==> 1 <= initTick[t] < HALF
      modifies this`links, this`timeout, this`active, this`counter, this`rows, this`due, this`temp
      ensures Valid() && old(Abs().Ok(n)) && Abs() == Left(old(Abs()), n, t)
    {
      hide RowOk, RowsOk, Window, Started;
      AbsOk();
      RowFirst(links[levels - 1], n, rows[levels - 1], temp);
      if links[levels - 1].IsEmpty(n + 1) {
        return;
      }
      Release(t);
      AbsOk();
      if periodic[t] && active[t] {
        WindowWithout(rows[levels - 1], active, due, now, n, t, false, 0);
        active := active[t := false];
        Start(t);
      }
    }

    /** Let the first timer of the list fire; its timeout function gives the commands `cmds`. */
    method Fire(cmds: seq<Cmd>, ghost may: set<int>)
      requires Valid() && temp == [] && rows[levels - 1] != [] && CmdsOk(cmds, n, may)
      requires (AbsOk(); Armable(Abs(), n, may))
      modifies this`links, this`timeout, this`active, this`counter, this`rows, this`due, this`temp, this`initTick, this`periodic
      ensures Valid() && old(Abs().Ok(n)) && Abs() == Fired(old(Abs()), n, may, cmds)
    {
      hide RowOk, RowsOk, Linked, Window, Clock, ObeyedAll, Left, Entered;
      AbsOk();
      ghost var s := Abs();
      EnteredArmable(s, n, may);
      var t := Enter();
      RunningOrNone(Entered(s, n), n, may, cmds);
      Obey(cmds, may);
      Leave(t);
    }

    /** rt_timer_check */
    method Check(callback: (nat, int) -> seq<Cmd>, ghost may: set<int>) returns (fired: seq<int>)
      requires Valid() && temp == [] && Legal(callback, n, may)
      requires (AbsOk(); Armable(Abs(), n, may))
      modifies this`links, this`timeout, this`active, this`counter, this`rows, this`due, this`temp, this`initTick, this`periodic
      ensures Valid() && old(Abs().Ok(n)) && (Abs(), fired) == Checked(old(Abs()), n, may, callback, 0)
      ensures forall t :: t in rows[levels - 1] ==> now < due[t]
    {
      hide RowOk, RowsOk, Linked, Window, Fired, DueBy, Checked, Legal, Armable, Sorted, Distinct, Touched, IsSub;
      AbsOk();
      ghost var s := Abs();
      fired := [];
      ghost var r := Checked(s, n, may, callback, 0);
      assert [] + r.1 == r.1;
      while true
        invariant Valid() && Abs().Ok(n) && temp == [] && Armable(Abs(), n, may)
        invariant var c := Checked(Abs(), n, may, callback, |fired|);
                  r == (c.0, fired + c.1)
        decreases |Abs().Expired(n)|
      {
        var t := Next();
        if t == 0 {
          CheckedStop(Abs(), n, may, callback, |fired|);
          break;
        }
        ghost var u, f := CheckedStep(Abs(), n, may, callback, |fired|);
        ghost var rest := Checked(f, n, may, callback, |fired| + 1).1;
        assert fired + ([t] + rest) == fired + [t] + rest;
        Fire(callback(|fired|, t), may);
        fired := fired + [t];
      }
      assert fired + [] == fired;
      CheckedDone(s, n, may, callback, 0);
    }

    /** The first timer if it is due, else 0: the condition under which the check goes on. */
    method Next() returns (t: int)
      requires Valid() && temp == []
      ensures Abs().Ok(n)
      ensures t == 0 <==> Abs().Expired(n) == []
      ensures t != 0 ==> rows[levels - 1] != [] && t == rows[levels - 1][0]
    {
      hide RowOk, RowsOk, Distinct, DueBy;
      AbsOk();
      RowFirst(links[levels - 1], n, rows[levels - 1], []);
      DueByFirst(rows[levels - 1], due, now);
      if links[levels - 1].IsEmpty(0) {
        return 0;
      }
      t := links[levels - 1].next[0];
      assert t in rows[levels - 1];
      WrapOrder(now, due[t]);
      if Ahead(tick, timeout[t]) >= HALF {
        return 0;
      }
    }
  }
}
