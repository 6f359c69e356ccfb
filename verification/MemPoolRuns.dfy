/**
 Memory pools on the scheduler: the sections of allocating and freeing with the threads, wait lists and
 timers of the kernel, and every run of them among everything else that threads do.
 */
module MemPoolRuns {
  import opened Lists
  import opened Threads
  import opened Scheduler
  import opened Gates
  import opened GateWaits
  import M = MemPools

  /** `list` is the wait list of the pool. */
  datatype Sys = Sys(k: Kernel, mp: M.Mp, list: int)

  ghost function Modes(mp: M.Mp, list: int): (r: seq<Mode>)
    ensures |r| == |mp.pcs|
  {
    seq(|mp.pcs|, t requires 0 <= t < |mp.pcs| =>
      match mp.pcs[t] case Idle => Away case Waiting => Queued(list) case Woken => Called)
  }

  ghost function RowsOf(mp: M.Mp, list: int): Rows {
    map[list := mp.gate.waiting]
  }

  /** The protocol is as proved in MemPools, and the threads that wait in it are those on the wait list of the kernel. */
  ghost predicate Good(s: Sys) {
    s.mp.Ok() && Joined(s.k, RowsOf(s.mp, s.list), Modes(s.mp, s.list))
  }

  /** Without a free block a thread waits in front of the others or gives up, and then only a thread has an error to record. */
  function AllocEffect(count: int, list: int, wait: bool, thread: bool): Effect {
    TryEffect(count == 0, list, 0, wait, thread, -ETIMEOUT)
  }

  /** Who finds no free block and may wait is suspended in front of the threads that wait already, and so the first to be woken. */
  lemma WaitsInFront(k: Kernel, list: int, time: int, thread: bool)
    requires k.Ok() && 0 <= list < |k.waits| && k.threads[k.cur].stat == Running && time != 0
    ensures var r := Affected(k, AllocEffect(0, list, true, thread), time);
            && k.Has(k.cur) && |r.threads| == |k.threads| && |r.waits| == |k.waits|
            && r.waits[list] == [k.cur] + k.waits[list] && (r.threads[k.cur].armed <==> time > 0)
            && r.threads[k.cur].stat == Suspend && FirstResumed(r, list).waits[list] == k.waits[list]
  {
    EffectMeans(k, AllocEffect(0, list, true, thread), time);
    hide Kernel.Ok;
    assert k.waits[list][..0] + [k.cur] + k.waits[list][0..] == [k.cur] + k.waits[list];
  }

  lemma AllocAgrees(mp: M.Mp, t: int, wait: bool, thread: bool, list: int)
    requires mp.Ok() && mp.Has(t) && t !in mp.gate.waiting
    ensures var r := M.AllocSection(mp, t, wait);
            Agrees(RowsOf(mp, list), Modes(mp, list), RowsOf(r, list), Modes(r, list), t, AllocEffect(mp.blocks.count, list, wait, thread))
  {
    hide Gate.Ok, M.Blocks.Ok, Inserted;
  }

  /** Freeing calls the first thread of the wait list. */
  lemma FreeAgrees(mp: M.Mp, b: int, list: int)
    requires mp.Ok() && mp.blocks.InUse(b)
    ensures var r, row := M.FreeSection(mp, b), mp.gate.waiting;
            if row == [] then RowsOf(r, list) == RowsOf(mp, list) && Modes(r, list) == Modes(mp, list)
            else row[0] in row && mp.Has(row[0]) && RowsOf(r, list) == RowsOf(mp, list)[list := row[1..]]
                 && Modes(r, list) == Modes(mp, list)[row[0] := Called]
  {
    hide Gate.Ok, M.Blocks.Ok;
    assert mp.gate.waiting != [] ==> mp.gate.waiting[0] in mp.gate.waiting;
  }

  // ----- all steps -----

  /** Allocations are those of the current thread, or of an interrupt; timeouts are steps of the kernel. */
  ghost predicate MayStep(s: Sys, js: JointStep<M.Step>, idle: int)
    requires Good(s)
  {
    match js
    case Other(step) => Enabled(s.k, step, idle) && MayOther(s.k, RowsOf(s.mp, s.list), Modes(s.mp, s.list), step)
    case Call(st, time) =>
      && M.Enabled(s.mp, st) && !st.Expire?
      && (!st.Free? ==>
            && (time != 0 <==> st.wait)
            && Allowed(s.k, RowsOf(s.mp, s.list), Modes(s.mp, s.list), st.t, AllocEffect(s.mp.blocks.count, s.list, st.wait, st.t == s.k.cur)))
  }

  /** The step of the protocol, if it is one. */
  ghost function Section(s: Sys, js: JointStep<M.Step>): seq<M.Step> {
    match js
    case Call(st, _) => [st]
    case Other(step) => if TimesOut(Modes(s.mp, s.list), RowsOf(s.mp, s.list), step) then [M.Expire(step.t)] else []
  }

  ghost function JointNext(s: Sys, js: JointStep<M.Step>, idle: int): Sys
    requires Good(s) && MayStep(s, js, idle)
  {
    assert s.list in RowsOf(s.mp, s.list);
    match js
    case Other(step) =>
      s.(k := Next(s.k, step, idle), mp := if Section(s, js) == [] then s.mp else M.Next(s.mp, M.Expire(step.t)))
    case Call(st, time) =>
      s.(k := if st.Free? then FirstResumed(s.k, s.list)
              else Affected(s.k, AllocEffect(s.mp.blocks.count, s.list, st.wait, st.t == s.k.cur), time),
         mp := M.Next(s.mp, st))
  }

  /** Every step of the kernel is a step of the protocol or none of its concern, and their threads agree again. */
  lemma StepKeeps(s: Sys, js: JointStep<M.Step>, idle: int)
    requires Good(s) && MayStep(s, js, idle)
    ensures var r, st := JointNext(s, js, idle), Section(s, js);
            && Good(r)
            && if st == [] then r.mp == s.mp else M.Enabled(s.mp, st[0]) && r.mp == M.Next(s.mp, st[0])
  {
    hide Kernel.Ok, ModesOk, Enabled, Next, Affected, Del;
    var rows, modes := RowsOf(s.mp, s.list), Modes(s.mp, s.list);
    match js
    case Call(st, time) =>
      if st.Free? {
        FreeAgrees(s.mp, st.b, s.list);
        if rows[s.list] != [] {
          FirstCallKeeps(s.k, rows, modes, s.list);
        }
      } else {
        AllocAgrees(s.mp, st.t, st.wait, st.t == s.k.cur, s.list);
        EffectKeeps(s.k, rows, modes, st.t, AllocEffect(s.mp.blocks.count, s.list, st.wait, st.t == s.k.cur), time);
      }
    case Other(step) =>
      OtherKeeps(s.k, rows, modes, step, idle);
      if Section(s, js) != [] {
        ExpireIs(s.mp, step.t, s.list);
      }
  }

  lemma ExpireIs(mp: M.Mp, t: int, list: int)
    requires mp.Ok() && mp.Has(t) && mp.pcs[t].Waiting?
    ensures var r := M.Next(mp, M.Expire(t));
            && RowsOf(r, list) == RowsOf(mp, list)[list := Del(mp.gate.waiting, t)] && Modes(r, list) == Modes(mp, list)[t := Away]
  {
    hide Gate.Ok, M.Blocks.Ok, Del;
  }

  // ----- runs -----

  /** A new pool that nobody waits at. */
  ghost predicate AtRest(s: Sys) {
    && s.k.Ok() && M.Initial(s.mp) && |s.mp.pcs| >= |s.k.threads|
    && 0 <= s.list < |s.k.waits| && s.k.waits[s.list] == []
  }

  lemma RestIsGood(s: Sys)
    requires AtRest(s)
    ensures Good(s)
  {
    NobodyThere(s.k, s.list);
    hide Kernel.Ok;
  }

  ghost predicate StepAt(ss: seq<Sys>, steps: seq<JointStep<M.Step>>, idle: int, i: int)
    requires 0 <= i < |steps| && |ss| == |steps| + 1
  {
    Good(ss[i]) ==> MayStep(ss[i], steps[i], idle) && ss[i + 1] == JointNext(ss[i], steps[i], idle)
  }

  ghost predicate Run(ss: seq<Sys>, steps: seq<JointStep<M.Step>>, idle: int) {
    |ss| == |steps| + 1 && AtRest(ss[0]) && forall i :: 0 <= i < |steps| ==> StepAt(ss, steps, idle, i)
  }

  /**
   While threads are on the wait list, every free block has a thread that was called from it, is on no
   list, found no error and will try again.
   */
  ghost predicate NoneForgotten(s: Sys) {
    && 0 <= s.list < |s.k.waits|
    && (s.k.waits[s.list] != [] ==> s.mp.blocks.count <= |s.mp.gate.woken|)
    && (forall t :: t in s.mp.gate.woken && t < |s.k.threads| ==>
          s.k.Has(t) && s.k.threads[t].at == -1 && s.k.threads[t].error == EOK && !Gone(s.k.threads[t]))
  }

  lemma GoodForgetsNone(s: Sys)
    requires Good(s)
    ensures NoneForgotten(s)
  {
    hide Kernel.Ok, M.Blocks.Ok;
    var rows := RowsOf(s.mp, s.list);
    assert s.list in rows;
    forall t | t in s.mp.gate.woken && t < |s.k.threads|
      ensures s.k.Has(t) && s.k.threads[t].at == -1 && s.k.threads[t].error == EOK && !Gone(s.k.threads[t])
    {
      assert ModeOk(s.k, rows.Keys, Modes(s.mp, s.list)[t], t);
    }
  }

  /** In every state of every run, whatever else threads, interrupts and timers do, nobody is forgotten. */
  lemma {:induction false} NoLostWakeup(ss: seq<Sys>, steps: seq<JointStep<M.Step>>, idle: int, i: nat)
    requires Run(ss, steps, idle) && i <= |steps|
    ensures Good(ss[i]) && NoneForgotten(ss[i])
  {
    hide Kernel.Ok, Joined, JointNext, MayStep, M.Mp.Ok;
    if i > 0 {
      NoLostWakeup(ss, steps, idle, i - 1);
      assert StepAt(ss, steps, idle, i - 1);
      StepKeeps(ss[i - 1], steps[i - 1], idle);
    } else {
      RestIsGood(ss[0]);
    }
    GoodForgetsNone(ss[i]);
  }
}
