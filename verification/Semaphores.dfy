/**
 Counting semaphores: a release hands its unit straight to the first waiting thread, and only counts
 up when nobody waits.
 */
module Semaphores {
  import opened Lists
  import opened Bits
  import opened Threads
  import opened Scheduler

  const VALUE_MAX: int := 0xffff

  /** The threads that wait for semaphore m are on wait list m. */
  datatype Sem = Sem(value: int, byPrio: bool)

  /** How far a thread is with an rt_sem_take that had to wait. */
  datatype Phase = NoCall | Queued(m: int) | Granted(m: int) | Expired(m: int)

  /** The kernel does not store the phases, nor the units each semaphore began with, got and granted. */
  datatype Sys = Sys(k: Kernel, sems: seq<Sem>, phase: seq<Phase>, initial: seq<int>, released: seq<int>, granted: seq<int>)

  /** rt_sem_take by the current thread, up to the switch if it has to wait. */
  ghost function Taken(k: Kernel, sem: Sem, w: int, time: int): (r: (Kernel, Sem, Outcome))
    requires k.Ok() && 0 <= w < |k.waits|
    requires sem.value <= 0 && time != 0 ==> k.threads[k.cur].stat == Running
    ensures r.0.Ok() && |r.0.threads| == |k.threads| && |r.0.waits| == |k.waits|
  {
    if sem.value > 0 then (k, sem.(value := sem.value - 1), Returns(EOK))
    else if time == 0 then (k, sem, Returns(-ETIMEOUT))
    else (Blocked(k, w, sem.byPrio, time), sem, Blocks)
  }

  /** rt_sem_release; the flag tells whether it goes on to schedule. */
  ghost function Released(k: Kernel, sem: Sem, w: int): (r: (Kernel, Sem, Outcome, bool))
    requires k.Ok() && 0 <= w < |k.waits|
    ensures r.0.Ok() && |r.0.threads| == |k.threads| && |r.0.waits| == |k.waits|
  {
    WaitersThere(k, w);
    if k.waits[w] != [] then
      assert k.waits[w][0] in k.waits[w];
      (Resumed(k, k.waits[w][0]), sem, Returns(EOK), true)
    else if sem.value < VALUE_MAX then (k, sem.(value := sem.value + 1), Returns(EOK), false)
    else (k, sem, Returns(-EFULL), false)
  }

  // ----- what stays true -----

  ghost predicate Sizes(s: Sys) {
    && |s.sems| <= |s.k.waits| && |s.phase| == |s.k.threads|
    && |s.initial| == |s.released| == |s.granted| == |s.sems|
  }

  /** Nobody waits while units are left, and no unit is lost or made up. */
  ghost predicate SemOk(s: Sys, m: int)
    requires Sizes(s) && 0 <= m < |s.sems|
  {
    var v := s.sems[m].value;
    && 0 <= v <= VALUE_MAX && (v > 0 ==> s.k.waits[m] == [])
    && s.initial[m] + s.released[m] == v + s.granted[m]
  }

  /** A thread waits, or was granted a unit, or timed out; its error code tells the last two apart. */
  ghost predicate PhaseOk(s: Sys, t: int)
    requires Sizes(s) && s.k.Has(t)
  {
    var th := s.k.threads[t];
    match s.phase[t]
    case NoCall => !(0 <= th.at < |s.sems|)
    case Queued(m) => 0 <= m < |s.sems| && th.at == m && th.error == EOK
    case Granted(m) => 0 <= m < |s.sems| && th.at == -1 && th.error == EOK && !th.armed && !Gone(th)
    case Expired(m) => 0 <= m < |s.sems| && th.at == -1 && th.error == -ETIMEOUT && !th.armed && !Gone(th)
  }

  ghost predicate Good(s: Sys) {
    && s.k.Ok() && Sizes(s)
    && (forall m :: 0 <= m < |s.sems| ==> SemOk(s, m))
    && (forall t :: 0 <= t < |s.phase| ==> PhaseOk(s, t))
  }

  lemma WaiterPhase(s: Sys, m: int, t: int)
    requires Good(s) && 0 <= m < |s.sems| && t in s.k.waits[m]
    ensures s.k.Has(t) && s.k.threads[t].stat == Suspend && s.k.threads[t].at == m && s.phase[t] == Queued(m)
  {
    WaitersThere(s.k, m);
    assert PhaseOk(s, t);
  }

  // ----- taking and releasing -----

  ghost function TakenBy(s: Sys, m: int, time: int): Sys
    requires s.k.Ok() && Sizes(s) && 0 <= m < |s.sems|
    requires s.sems[m].value <= 0 && time != 0 ==> s.k.threads[s.k.cur].stat == Running
  {
    var r := Taken(s.k, s.sems[m], m, time);
    s.(k := r.0, sems := s.sems[m := r.1],
       phase := if r.2 == Blocks then s.phase[s.k.cur := Queued(m)] else s.phase,
       granted := if r.2 == Returns(EOK) then s.granted[m := s.granted[m] + 1] else s.granted)
  }

  lemma TakeKeeps(s: Sys, m: int, time: int)
    requires Good(s) && 0 <= m < |s.sems|
    requires s.sems[m].value <= 0 && time != 0 ==> s.k.threads[s.k.cur].stat == Running && s.phase[s.k.cur] == NoCall
    ensures Good(TakenBy(s, m, time))
  {
    hide Kernel.Ok, Blocked;
    CurSane(s.k);
    assert s.sems[m := s.sems[m]] == s.sems;
    var r := TakenBy(s, m, time);
    assert SemOk(s, m);
    forall n | 0 <= n < |s.sems|
      ensures SemOk(r, n)
    {
      assert SemOk(s, n);
    }
    forall t | 0 <= t < |s.phase|
      ensures PhaseOk(r, t)
    {
      assert PhaseOk(s, t);
    }
  }

  ghost function ReleasedBy(s: Sys, m: int): Sys
    requires Good(s) && 0 <= m < |s.sems|
  {
    var r := Released(s.k, s.sems[m], m);
    var counted := s.released[m := s.released[m] + 1];
    if r.3 then
      assert s.k.waits[m][0] in s.k.waits[m];
      WaiterPhase(s, m, s.k.waits[m][0]);
      s.(k := r.0, phase := s.phase[s.k.waits[m][0] := Granted(m)], released := counted,
         granted := s.granted[m := s.granted[m] + 1])
    else s.(k := r.0, sems := s.sems[m := r.1], released := if r.2 == Returns(EOK) then counted else s.released)
  }

  lemma ReleaseKeeps(s: Sys, m: int)
    requires Good(s) && 0 <= m < |s.sems|
    ensures Good(ReleasedBy(s, m))
  {
    hide Kernel.Ok, Resumed, Del;
    assert s.sems[m := s.sems[m]] == s.sems;
    var r := ReleasedBy(s, m);
    assert SemOk(s, m);
    if s.k.waits[m] != [] {
      assert s.k.waits[m][0] in s.k.waits[m];
      WaiterPhase(s, m, s.k.waits[m][0]);
    }
    forall n | 0 <= n < |s.sems|
      ensures SemOk(r, n)
    {
      assert SemOk(s, n);
    }
    forall t | 0 <= t < |s.phase|
      ensures PhaseOk(r, t)
    {
      assert PhaseOk(s, t);
    }
  }

  /**
   The answer of a take.  It is success exactly if there is a unit, which is then gone; a timeout
   exactly if there is none and the caller would not wait, and then nothing has changed.
   */
  lemma TakeAnswers(s: Sys, m: int, time: int)
    requires Good(s) && 0 <= m < |s.sems|
    requires s.sems[m].value <= 0 && time != 0 ==> s.k.threads[s.k.cur].stat == Running
    ensures var r, v, s1 := Taken(s.k, s.sems[m], m, time).2, s.sems[m].value, TakenBy(s, m, time);
            && (r == Returns(EOK) <==> v > 0)
            && (r == Returns(-ETIMEOUT) <==> v == 0 && time == 0)
            && (r == Blocks <==> v == 0 && time != 0)
            && (r == Returns(EOK) ==> s1.k == s.k && s1.sems[m].value == v - 1)
            && (r == Returns(-ETIMEOUT) ==> s1 == s)
  {
    hide Kernel.Ok, Blocked;
    assert SemOk(s, m);
    assert s.sems[m := s.sems[m]] == s.sems;
  }

  /**
   A take that waits: the caller is suspended and stands in the wait list where the flag puts it,
   with its timer running exactly if its time is positive; nobody else is concerned.
   */
  lemma TakeWaits(s: Sys, m: int, time: int)
    requires Good(s) && 0 <= m < |s.sems| && s.sems[m].value == 0 && time != 0 && s.k.threads[s.k.cur].stat == Running
    ensures var s1, c := TakenBy(s, m, time), s.k.cur;
            && s1.k.threads == s.k.threads[c := s.k.threads[c].(stat := Suspend, error := EOK, at := m, armed := time > 0)]
            && s1.k.waits == s.k.waits[m := Inserted(s.k.waits[m], PlaceOf(s.k, m, s.sems[m].byPrio), c)]
            && s1.sems == s.sems && s1.phase == s.phase[c := Queued(m)]
  {
    hide Kernel.Ok, Blocked;
    assert s.sems[m := s.sems[m]] == s.sems;
  }

  /**
   A release resumes the first thread that waits, with its unit granted; if nobody waits it counts
   up, and at the maximum it is refused and changes nothing.
   */
  lemma ReleaseAnswers(s: Sys, m: int)
    requires Good(s) && 0 <= m < |s.sems|
    ensures var r, v, row, s1 := Released(s.k, s.sems[m], m), s.sems[m].value, s.k.waits[m], ReleasedBy(s, m);
            && (r.2 == Returns(EOK) <==> row != [] || v < VALUE_MAX) && (r.3 <==> row != [])
            && (row == [] && v < VALUE_MAX ==> s1.k == s.k && s1.sems[m].value == v + 1)
            && (row == [] && v == VALUE_MAX ==> r.2 == Returns(-EFULL) && s1 == s)
            && (row != [] ==>
                  && s.k.Has(row[0]) && s1.sems == s.sems && s1.phase == s.phase[row[0] := Granted(m)]
                  && s1.k.waits == s.k.waits[m := row[1..]] && |s1.k.threads| == |s.k.threads|
                  && s1.k.threads[row[0]].stat == (if row[0] == s.k.cur then Running else Ready)
                  && s1.k.threads[row[0]].error == EOK && !s1.k.threads[row[0]].armed && s1.k.threads[row[0]].at == -1
                  && forall u :: 0 <= u < |s.k.threads| && u != row[0] ==> s1.k.threads[u] == s.k.threads[u])
  {
    hide Kernel.Ok, Resumed;
    var row := s.k.waits[m];
    assert SemOk(s, m);
    assert s.sems[m := s.sems[m]] == s.sems;
    if row != [] {
      assert row[0] in row;
      WaiterPhase(s, m, row[0]);
      assert PhaseOk(s, row[0]);
    }
  }

  // ----- other steps -----

  datatype SemStep =
    | Takes(m: int, time: int)
    | Releases(m: int)
    | Returning
    | Other(step: Step)

  /**
   A thread in the middle of a take does not wait otherwise or exit, interrupts may take without
   waiting, and nobody resumes a thread that waits for a semaphore.
   */
  ghost predicate MayStep(s: Sys, st: SemStep, idle: int)
    requires Good(s)
  {
    var c := s.k.cur;
    match st
    case Takes(m, time) =>
      && 0 <= m < |s.sems|
      && (s.sems[m].value <= 0 && time != 0 ==> s.k.threads[c].stat == Running && s.phase[c] == NoCall && c != idle)
    case Releases(m) => 0 <= m < |s.sems|
    case Returning => s.k.threads[c].stat == Running && s.phase[c] != NoCall
    case Other(step) => Enabled(s.k, step, idle) && MayOther(s, step)
  }

  ghost predicate MayOther(s: Sys, step: Step)
    requires s.k.Ok() && Sizes(s)
  {
    match step
    case Waits(w, _, _) => w >= |s.sems| && s.phase[s.k.cur] == NoCall
    case Sleeps => s.phase[s.k.cur] == NoCall
    case Exits => s.phase[s.k.cur] == NoCall
    case Resuming(t) => s.k.Has(t) ==> !(0 <= s.k.threads[t].at < |s.sems|)
    case Detaching(t) => s.k.Has(t) ==> !(0 <= s.k.threads[t].at < |s.sems|)
    case _ => true
  }

  ghost function PhaseAfter(s: Sys, step: Step): seq<Phase>
    requires Sizes(s)
  {
    if step.Expires? && s.k.Has(step.t) && s.phase[step.t].Queued? then s.phase[step.t := Expired(s.phase[step.t].m)]
    else s.phase
  }

  ghost function SemNext(s: Sys, st: SemStep, idle: int): (r: Sys)
    requires Good(s) && MayStep(s, st, idle)
  {
    match st
    case Takes(m, time) => TakenBy(s, m, time)
    case Releases(m) => ReleasedBy(s, m)
    case Returning => s.(phase := s.phase[s.k.cur := NoCall])
    case Other(step) => s.(k := Next(s.k, step, idle), phase := PhaseAfter(s, step))
  }

  lemma OtherPhase(s: Sys, step: Step, idle: int, t: int)
    requires Good(s) && Enabled(s.k, step, idle) && MayOther(s, step) && s.k.Has(t)
    ensures PhaseOk(s.(k := Next(s.k, step, idle), phase := PhaseAfter(s, step)), t)
  {
    hide ReadyOk, GroupOk, WaitsOk, SemOk, Next, Mask;
    SaneAt(s.k, t);
    CurSane(s.k);
    NextThread(s.k, step, idle, t);
    assert PhaseOk(s, t);
    if step.Expires? {
      SaneAt(s.k, step.t);
    }
    hide Kernel.Ok;
  }

  /** Only a timeout shortens a wait list of a semaphore, and nothing else touches one. */
  lemma OtherWaits(s: Sys, step: Step, idle: int, m: int)
    requires Good(s) && Enabled(s.k, step, idle) && MayOther(s, step) && 0 <= m < |s.sems|
    ensures s.k.waits[m] == [] ==> Next(s.k, step, idle).waits[m] == []
  {
    hide ReadyOk, GroupOk, RowOk, WaitOk, SemOk, Scheduled, TimedOut, StartedUp, Exited, Yielded, Ticked, Left,
      Suspended, Slept, Resumed, Detached, Woken, Waiting, Armed, Reprioritized, Mask, Inserted;
    CurSane(s.k);
  }

  lemma StepKeeps(s: Sys, st: SemStep, idle: int)
    requires Good(s) && MayStep(s, st, idle)
    ensures Good(SemNext(s, st, idle))
  {
    hide Kernel.Ok, Next, Enabled;
    match st
    case Takes(m, time) => TakeKeeps(s, m, time);
    case Releases(m) => ReleaseKeeps(s, m);
    case Returning =>
      CurSane(s.k);
      var r := SemNext(s, st, idle);
      assert PhaseOk(s, s.k.cur);
      forall n | 0 <= n < |s.sems|
        ensures SemOk(r, n)
      {
        assert SemOk(s, n);
      }
      forall t | 0 <= t < |s.phase|
        ensures PhaseOk(r, t)
      {
        assert PhaseOk(s, t);
      }
    case Other(step) =>
      var r := SemNext(s, st, idle);
      forall n | 0 <= n < |s.sems|
        ensures SemOk(r, n)
      {
        assert SemOk(s, n);
        OtherWaits(s, step, idle, n);
      }
      forall t | 0 <= t < |s.phase|
        ensures PhaseOk(r, t)
      {
        OtherPhase(s, step, idle, t);
      }
  }

  // ----- runs -----

  ghost predicate AtRest(s: Sys) {
    && s.k.Ok() && Sizes(s)
    && (forall m :: 0 <= m < |s.sems| ==>
          s.k.waits[m] == [] && 0 <= s.sems[m].value == s.initial[m] <= VALUE_MAX && s.released[m] == s.granted[m] == 0)
    && (forall t :: 0 <= t < |s.phase| ==> s.phase[t] == NoCall)
  }

  ghost predicate SemStepAt(ss: seq<Sys>, steps: seq<SemStep>, idle: int, i: int)
    requires 0 <= i < |steps| && |ss| == |steps| + 1
  {
    Good(ss[i]) ==> MayStep(ss[i], steps[i], idle) && ss[i + 1] == SemNext(ss[i], steps[i], idle)
  }

  ghost predicate SemRun(ss: seq<Sys>, steps: seq<SemStep>, idle: int) {
    |ss| == |steps| + 1 && AtRest(ss[0]) && forall i :: 0 <= i < |steps| ==> SemStepAt(ss, steps, idle, i)
  }

  /**
   In every state of every run: a semaphore with units left has no waiting thread; the units it
   began with and got are those left and granted; and every thread that had to wait still waits, or
   was granted a unit and will return EOK, or timed out and will return -ETIMEOUT.
   */
  lemma {:induction false} Conservation(ss: seq<Sys>, steps: seq<SemStep>, idle: int, i: nat)
    requires SemRun(ss, steps, idle) && i <= |steps|
    ensures Good(ss[i])
    ensures var s := ss[i];
            && (forall m :: 0 <= m < |s.sems| && s.sems[m].value > 0 ==> s.k.waits[m] == [])
            && (forall m :: 0 <= m < |s.sems| ==> s.initial[m] + s.released[m] == s.sems[m].value + s.granted[m])
  {
    hide Kernel.Ok, SemNext, MayStep;
    if i > 0 {
      hide AtRest;
      Conservation(ss, steps, idle, i - 1);
      assert SemStepAt(ss, steps, idle, i - 1);
      StepKeeps(ss[i - 1], steps[i - 1], idle);
    } else {
      RestIsGood(ss[0]);
    }
    var s := ss[i];
    forall m | 0 <= m < |s.sems|
      ensures s.sems[m].value > 0 ==> s.k.waits[m] == []
      ensures s.initial[m] + s.released[m] == s.sems[m].value + s.granted[m]
    {
      assert SemOk(s, m);
    }
  }

  lemma RestIsGood(s: Sys)
    requires AtRest(s)
    ensures Good(s)
  {
  }

  /** What a waiting thread returns when it runs again tells whether it was granted a unit. */
  lemma ReturnCode(s: Sys)
    requires Good(s) && s.k.threads[s.k.cur].stat == Running && s.phase[s.k.cur] != NoCall
    ensures s.phase[s.k.cur].Granted? || s.phase[s.k.cur].Expired?
    ensures s.phase[s.k.cur].Granted? <==> s.k.threads[s.k.cur].error == EOK
    ensures s.phase[s.k.cur].Expired? <==> s.k.threads[s.k.cur].error == -ETIMEOUT
  {
    CurSane(s.k);
    assert PhaseOk(s, s.k.cur);
  }
}
