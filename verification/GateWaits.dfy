/**
 The gates of the kernel objects on the wait lists of the scheduler: what blocking, waking, timeouts
 and everything else that threads do mean for the threads that wait at a gate or were woken there.
 */
module GateWaits {
  import opened Lists
  import opened Bits
  import opened Threads
  import opened Scheduler
  import opened Gates

  /** A thread is not concerned, waits on a list, or was called from it and has not yet run again. */
  datatype Mode = Away | Queued(w: int) | Called

  /** A queued thread is on its list; one that was called can run and will find no error, so that it tries again. */
  ghost predicate ModeOk(k: Kernel, lists: set<int>, mode: Mode, t: int)
    requires k.Has(t)
  {
    var th := k.threads[t];
    match mode
    case Away => th.at !in lists
    case Queued(w) => w in lists && th.at == w && th.error == EOK
    case Called => th.at == -1 && th.error == EOK && !th.armed && !Gone(th)
  }

  /** The wait lists of an object, by number, with their threads. */
  type Rows = map<int, seq<int>>

  /** The kernel has these rows, and every thread is where its mode says; the modes beyond the threads are those of interrupts. */
  ghost predicate Joined(k: Kernel, rows: Rows, modes: seq<Mode>) {
    && ModesOk(k, rows.Keys, modes) && forall w :: w in rows ==> 0 <= w < |k.waits| && k.waits[w] == rows[w]
  }

  ghost predicate ModesOk(k: Kernel, lists: set<int>, modes: seq<Mode>) {
    k.Ok() && |modes| >= |k.threads| && forall t :: 0 <= t < |k.threads| ==> ModeOk(k, lists, modes[t], t)
  }

  lemma WaiterMode(k: Kernel, rows: Rows, modes: seq<Mode>, w: int, t: int)
    requires Joined(k, rows, modes) && w in rows && t in rows[w]
    ensures k.Has(t) && modes[t] == Queued(w) && k.threads[t].at == w && k.threads[t].stat == Suspend
  {
    hide Kernel.Ok;
    WaitersThere(k, w);
    assert ModeOk(k, rows.Keys, modes[t], t);
  }

  // ----- sections of calls -----

  /**
   What a locked section means for the threads: nothing, an error recorded by the caller, the caller
   waits at place `i` of a list, or the first thread of a list is called.
   */
  datatype Effect = Stays | Fails(error: int) | Queues(w: int, i: int) | Calls(w: int)

  /** The caller is the current thread or an interrupt, and only a running thread waits. */
  ghost predicate Allowed(k: Kernel, rows: Rows, modes: seq<Mode>, t: int, e: Effect) {
    && 0 <= t < |modes| && !modes[t].Queued? && (t == k.cur || |k.threads| <= t)
    && match e
       case Stays => true
       case Fails(_) => t == k.cur
       case Queues(w, i) => w in rows && 0 <= i <= |rows[w]| && t == k.cur && k.Has(t) && k.threads[t].stat == Running
       case Calls(w) => w in rows && forall u :: u in rows[w] ==> 0 <= u < |modes|
  }

  /** The kernel after such a section. */
  ghost function Affected(k: Kernel, e: Effect, time: int): (r: Kernel)
    requires k.Ok()
    requires e.Queues? || e.Calls? ==> 0 <= e.w < |k.waits|
    requires e.Queues? ==> k.threads[k.cur].stat == Running && 0 <= e.i <= |k.waits[e.w]|
    ensures r.Ok()
  {
    CurSane(k);
    match e
    case Stays => k
    case Fails(error) => WithError(k, k.cur, error)
    case Queues(w, i) => BlockedAt(k, w, i, time)
    case Calls(w) => FirstResumed(k, w)
  }

  /** And after the rt_schedule that follows when a thread waits or was called. */
  ghost function Settled(k: Kernel, e: Effect, time: int): (r: Kernel)
    requires k.Ok()
    requires e.Queues? || e.Calls? ==> 0 <= e.w < |k.waits|
    requires e.Queues? ==> k.threads[k.cur].stat == Running && 0 <= e.i <= |k.waits[e.w]|
    ensures r.Ok()
  {
    var r := Affected(k, e, time);
    if e.Queues? || (e.Calls? && k.waits[e.w] != []) then Scheduled(r) else r
  }

  /** The first thread of a list is called, if there is one. */
  lemma SettledCalls(k: Kernel, w: int, time: int)
    requires k.Ok() && 0 <= w < |k.waits|
    ensures Settled(k, Calls(w), time) == FirstWoken(k, w)
  {
    hide Kernel.Ok, Scheduled, FirstResumed;
  }

  /** The thread waits. */
  lemma SettledQueues(k: Kernel, w: int, byPrio: bool, time: int)
    requires k.Ok() && 0 <= w < |k.waits| && k.threads[k.cur].stat == Running
    ensures Settled(k, Queues(w, PlaceOf(k, w, byPrio)), time) == Scheduled(Blocked(k, w, byPrio, time))
  {
    hide Kernel.Ok, Scheduled, BlockedAt, PlaceOf;
  }

  /**
   What a section does to the threads.  One that waits is suspended with its error cleared and stands
   at its place, its timer running exactly if its time is positive; one that is called is the first of
   its list, can run, and has no timer; and nobody else is concerned.
   */
  lemma EffectMeans(k: Kernel, e: Effect, time: int)
    requires k.Ok()
    requires e.Queues? || e.Calls? ==> 0 <= e.w < |k.waits|
    requires e.Queues? ==> k.threads[k.cur].stat == Running && 0 <= e.i <= |k.waits[e.w]|
    ensures k.Has(k.cur) && (e.Calls? && k.waits[e.w] != [] ==> k.Has(k.waits[e.w][0]))
    ensures var r, c := Affected(k, e, time), k.cur;
            r.cur == c && r.locks == k.locks && |r.waits| == |k.waits| &&
            match e
            case Stays => r == k
            case Fails(error) => r == k.(threads := k.threads[c := k.threads[c].(error := error)])
            case Queues(w, i) =>
              && r.threads == k.threads[c := k.threads[c].(stat := Suspend, error := EOK, at := w, armed := time > 0)]
              && r.waits == k.waits[w := k.waits[w][..i] + [c] + k.waits[w][i..]]
            case Calls(w) =>
              if k.waits[w] == [] then r == k else
              var t := k.waits[w][0];
              && r.threads == k.threads[t := k.threads[t].(stat := if t == c then Running else Ready, armed := false, at := -1)]
              && r.waits == k.waits[w := k.waits[w][1..]]
  {
    CurSane(k);
    if e.Calls? && k.waits[e.w] != [] {
      WaitersThere(k, e.w);
      assert k.waits[e.w][0] in k.waits[e.w];
    }
    hide Kernel.Ok;
  }

  /** When a thread waits or was called, with the lock open, afterwards the current thread runs and none outranks it. */
  lemma SettledRuns(k: Kernel, e: Effect, time: int, idle: int)
    requires k.Ok() && k.locks == 0 && k.Has(idle) && Active(k.threads[idle])
    requires (e.Queues? && k.cur != idle) || e.Calls?
    requires 0 <= e.w < |k.waits| && (e.Calls? ==> k.waits[e.w] != [])
    requires e.Queues? ==> k.threads[k.cur].stat == Running && 0 <= e.i <= |k.waits[e.w]|
    ensures var r := Settled(k, e, time);
            r.Has(r.cur) && r.threads[r.cur].stat == Running && !Outranked(r, r.threads[r.cur].prio, true)
  {
    hide Kernel.Ok, Affected, Scheduled, Outranked;
    EffectMeans(k, e, time);
    var k1 := Affected(k, e, time);
    IdleThere(k1, idle);
    CurSane(k1);
    ScheduledRuns(k1);
    CurSane(Scheduled(k1));
  }

  ghost function RowsAfter(rows: Rows, t: int, e: Effect): Rows
    requires e.Queues? || e.Calls? ==> e.w in rows
    requires e.Queues? ==> 0 <= e.i <= |rows[e.w]|
  {
    match e
    case Queues(w, i) => rows[w := Inserted(rows[w], i, t)]
    case Calls(w) => rows[w := if rows[w] == [] then [] else rows[w][1..]]
    case _ => rows
  }

  ghost function ModesAfter(modes: seq<Mode>, rows: Rows, t: int, e: Effect): seq<Mode>
    requires 0 <= t < |modes| && (e.Queues? || e.Calls? ==> e.w in rows)
    requires e.Calls? && rows[e.w] != [] ==> 0 <= rows[e.w][0] < |modes|
  {
    match e
    case Queues(w, i) => modes[t := Queued(w)]
    case Calls(w) => if rows[w] == [] then modes[t := Away] else modes[t := Away][rows[w][0] := Called]
    case _ => modes[t := Away]
  }

  /** What a pass means that needs something of which there is `none`, and puts the caller on list `w` if it may wait. */
  function TryEffect(none: bool, w: int, i: int, wait: bool, again: bool, error: int): Effect {
    if !none then Stays else if wait then Queues(w, i) else if again then Fails(error) else Stays
  }

  /** A section that takes these rows and modes to those has the effect `e`. */
  ghost predicate Agrees(rows: Rows, modes: seq<Mode>, rows1: Rows, modes1: seq<Mode>, t: int, e: Effect) {
    && 0 <= t < |modes| && (e.Queues? || e.Calls? ==> e.w in rows)
    && (e.Calls? ==> forall u :: u in rows[e.w] ==> 0 <= u < |modes|)
    && (e.Calls? && rows[e.w] != [] ==> rows[e.w][0] in rows[e.w])
    && (e.Queues? ==> 0 <= e.i <= |rows[e.w]|)
    && rows1 == RowsAfter(rows, t, e) && modes1 == ModesAfter(modes, rows, t, e)
  }

  /** After a section the kernel has the rows and modes that it should. */
  lemma EffectKeeps(k: Kernel, rows: Rows, modes: seq<Mode>, t: int, e: Effect, time: int)
    requires Joined(k, rows, modes) && Allowed(k, rows, modes, t, e)
    ensures e.Calls? && rows[e.w] != [] ==> rows[e.w][0] in rows[e.w]
    ensures Joined(Affected(k, e, time), RowsAfter(rows, t, e), ModesAfter(modes, rows, t, e))
  {
    hide Kernel.Ok, Inserted;
    CurSane(k);
    var r, modes1 := Affected(k, e, time), ModesAfter(modes, rows, t, e);
    assert RowsAfter(rows, t, e).Keys == rows.Keys;
    if e.Calls? && rows[e.w] != [] {
      assert rows[e.w][0] in rows[e.w];
      WaiterMode(k, rows, modes, e.w, rows[e.w][0]);
    }
    forall u | 0 <= u < |k.threads|
      ensures ModeOk(r, rows.Keys, modes1[u], u)
    {
      assert ModeOk(k, rows.Keys, modes[u], u);
    }
  }

  /** Calling a thread of a list, whoever does it; its error is clear already. */
  lemma CallKeeps(k: Kernel, rows: Rows, modes: seq<Mode>, w: int, u: int)
    requires Joined(k, rows, modes) && w in rows && u in rows[w]
    ensures k.Has(u) && modes[u] == Queued(w) && WithError(k, u, EOK) == k
    ensures Joined(Resumed(k, u), rows[w := Del(rows[w], u)], modes[u := Called])
  {
    hide Kernel.Ok, Del;
    WaiterMode(k, rows, modes, w, u);
    var r := Resumed(k, u);
    var rows1, modes1 := rows[w := Del(rows[w], u)], modes[u := Called];
    assert rows1.Keys == rows.Keys;
    assert ModeOk(k, rows.Keys, modes[u], u);
    assert k.threads[u := k.threads[u]] == k.threads;
    forall t | 0 <= t < |k.threads|
      ensures ModeOk(r, rows.Keys, modes1[t], t)
    {
      assert ModeOk(k, rows.Keys, modes[t], t);
    }
  }

  /** The first of them, as the objects do it. */
  lemma FirstCallKeeps(k: Kernel, rows: Rows, modes: seq<Mode>, w: int)
    requires Joined(k, rows, modes) && w in rows && rows[w] != []
    ensures rows[w][0] in rows[w] && k.Has(rows[w][0]) && WithError(k, rows[w][0], EOK) == k
    ensures Joined(FirstResumed(k, w), rows[w := rows[w][1..]], modes[rows[w][0] := Called])
  {
    CallKeeps(k, rows, modes, w, rows[w][0]);
    hide Kernel.Ok, ModesOk;
  }

  /** In a joint run: a section of a call, waiting for at most `time`, or any other step of the kernel. */
  datatype JointStep<S> = Call(st: S, time: int) | Other(step: Step)

  // ----- everything else -----

  /** A thread in the middle of a call does not wait otherwise or exit, and only a section resumes who waits on a list. */
  ghost predicate MayOther(k: Kernel, rows: Rows, modes: seq<Mode>, step: Step)
    requires Joined(k, rows, modes)
  {
    CurSane(k);
    match step
    case Waits(w, _, _) => w !in rows && modes[k.cur] == Away
    case Sleeps => modes[k.cur] == Away
    case Exits => modes[k.cur] == Away
    case Resuming(t) => k.Has(t) ==> k.threads[t].at !in rows
    case Detaching(t) => k.Has(t) ==> k.threads[t].at !in rows
    case _ => true
  }

  /** A thread on one of the lists runs out of time. */
  ghost predicate TimesOut(modes: seq<Mode>, rows: Rows, step: Step) {
    step.Expires? && 0 <= step.t < |modes| && modes[step.t].Queued? && modes[step.t].w in rows
  }

  ghost function OtherRows(modes: seq<Mode>, rows: Rows, step: Step): Rows {
    if TimesOut(modes, rows, step) then rows[modes[step.t].w := Del(rows[modes[step.t].w], step.t)] else rows
  }

  ghost function OtherModes(modes: seq<Mode>, rows: Rows, step: Step): seq<Mode> {
    if TimesOut(modes, rows, step) then modes[step.t := Away] else modes
  }

  /** Any other step only takes threads off the lists whose time runs out. */
  lemma OtherKeeps(k: Kernel, rows: Rows, modes: seq<Mode>, step: Step, idle: int)
    requires Joined(k, rows, modes) && Enabled(k, step, idle) && MayOther(k, rows, modes, step)
    ensures Joined(Next(k, step, idle), OtherRows(modes, rows, step), OtherModes(modes, rows, step))
  {
    hide Kernel.Ok, Enabled, Next, Del;
    var r, rows1, modes1 := Next(k, step, idle), OtherRows(modes, rows, step), OtherModes(modes, rows, step);
    assert rows1.Keys == rows.Keys;
    forall t | 0 <= t < |k.threads|
      ensures ModeOk(r, rows.Keys, modes1[t], t)
    {
      OtherMode(k, rows, modes, step, idle, t);
    }
    forall w | w in rows
      ensures r.waits[w] == rows1[w]
    {
      OtherRow(k, rows, modes, step, idle, w);
    }
  }

  lemma OtherMode(k: Kernel, rows: Rows, modes: seq<Mode>, step: Step, idle: int, t: int)
    requires Joined(k, rows, modes) && Enabled(k, step, idle) && MayOther(k, rows, modes, step) && k.Has(t)
    ensures ModeOk(Next(k, step, idle), rows.Keys, OtherModes(modes, rows, step)[t], t)
  {
    hide ReadyOk, GroupOk, WaitsOk, Next, Mask;
    SaneAt(k, t);
    CurSane(k);
    NextThread(k, step, idle, t);
    assert ModeOk(k, rows.Keys, modes[t], t);
    if step.Expires? {
      SaneAt(k, step.t);
      assert ModeOk(k, rows.Keys, modes[step.t], step.t);
    }
    hide Kernel.Ok;
  }

  lemma OtherRow(k: Kernel, rows: Rows, modes: seq<Mode>, step: Step, idle: int, w: int)
    requires Joined(k, rows, modes) && Enabled(k, step, idle) && MayOther(k, rows, modes, step) && w in rows
    ensures Next(k, step, idle).waits[w] == OtherRows(modes, rows, step)[w]
  {
    hide ReadyOk, GroupOk, WaitsOk, RowOk, WaitOk, Scheduled, TimedOut, StartedUp, Exited, Yielded, Ticked, Left,
      Suspended, Slept, Resumed, Detached, Woken, Waiting, Armed, Reprioritized, Mask, Inserted, Del;
    CurSane(k);
    if step.Expires? {
      assert ModeOk(k, rows.Keys, modes[step.t], step.t);
    }
  }

  lemma NobodyThere(k: Kernel, w: int)
    requires k.Ok() && 0 <= w < |k.waits| && k.waits[w] == []
    ensures forall t :: 0 <= t < |k.threads| ==> k.threads[t].at != w
  {
    WaitersThere(k, w);
  }
}
