/**
 Message queues on the scheduler: the locked sections and unlocked copies with the threads, wait lists
 and timers of the kernel, and every run of them among everything else that threads do.
 */
module MsgQueueRuns {
  import opened Lists
  import opened Threads
  import opened Scheduler
  import opened Gates
  import opened GateWaits
  import opened MqSlots
  import M = MsgQueues

  /** `receivers` and `senders` are the wait lists of the queue. */
  datatype Sys = Sys(k: Kernel, mq: M.Mq, receivers: int, senders: int)

  function ModeOf(pc: M.Pc, receivers: int, senders: int): Mode {
    match pc
    case RecvWait(_) => Queued(receivers)
    case SendWait(_) => Queued(senders)
    case RecvWoken(_) => Called
    case SendWoken(_) => Called
    case _ => Away
  }

  ghost function Modes(mq: M.Mq, receivers: int, senders: int): (r: seq<Mode>)
    ensures |r| == |mq.pcs|
  {
    seq(|mq.pcs|, t requires 0 <= t < |mq.pcs| => ModeOf(mq.pcs[t], receivers, senders))
  }

  ghost function RowsOf(mq: M.Mq, receivers: int, senders: int): Rows {
    map[receivers := mq.receivers.waiting, senders := mq.senders.waiting]
  }

  /** The protocol is as proved in MsgQueues, and the threads that wait in it are those on the wait lists of the kernel. */
  ghost predicate Good(s: Sys) {
    && s.mq.Ok() && s.receivers != s.senders
    && Joined(s.k, RowsOf(s.mq, s.receivers, s.senders), Modes(s.mq, s.receivers, s.senders))
  }

  /** Without a free slot a sender waits or gives up, without a message a receiver; linking calls a receiver, finishing a sender. */
  ghost function EffectOf(mq: M.Mq, st: M.Step, receivers: int, senders: int): Effect {
    match st
    case Send(_, msg, _, wait, i) => TryEffect(|msg| <= mq.width && mq.slots.free == NULL, senders, i, wait, false, EOK)
    case SendAgain(_, wait, i) => TryEffect(mq.slots.free == NULL, senders, i, wait, true, EOK)
    case Link(_) => Calls(receivers)
    case Recv(_, _, wait, i) => TryEffect(mq.slots.entry == 0, receivers, i, wait, false, -ETIMEOUT)
    case RecvAgain(_, wait, i) => TryEffect(mq.slots.entry == 0, receivers, i, wait, true, -ETIMEOUT)
    case Finish(_) => Calls(senders)
    case _ => Stays
  }

  predicate Waits(st: M.Step) {
    (st.Send? || st.SendAgain? || st.Recv? || st.RecvAgain?) && st.wait
  }

  ghost predicate AgreesWith(mq: M.Mq, r: M.Mq, t: int, e: Effect, receivers: int, senders: int) {
    Agrees(RowsOf(mq, receivers, senders), Modes(mq, receivers, senders), RowsOf(r, receivers, senders), Modes(r, receivers, senders), t, e)
  }

  lemma SendAgrees(mq: M.Mq, t: int, msg: M.Msg, urgent: bool, wait: bool, again: bool, i: int, receivers: int, senders: int)
    requires mq.Ok() && mq.Has(t) && t !in mq.senders.waiting && 0 <= i <= |mq.senders.waiting| && receivers != senders
    ensures AgreesWith(mq, M.SendSection(mq, t, msg, urgent, wait, i), t,
                       TryEffect(mq.slots.free == NULL, senders, i, wait, again, EOK), receivers, senders)
  {
    M.FreeTokens(mq);
    hide Gate.Ok, Inserted, M.Mq.SlotsOk, M.Mq.DataOk, M.Mq.GatesOk, Slots.TakeFree;
  }

  lemma RecvAgrees(mq: M.Mq, t: int, size: int, wait: bool, again: bool, i: int, receivers: int, senders: int)
    requires mq.Ok() && mq.Has(t) && t !in mq.receivers.waiting && 0 <= i <= |mq.receivers.waiting| && size > 0
    requires receivers != senders
    ensures AgreesWith(mq, M.RecvSection(mq, t, size, wait, i), t,
                       TryEffect(mq.slots.entry == 0, receivers, i, wait, again, -ETIMEOUT), receivers, senders)
  {
    M.FreeTokens(mq);
    hide Gate.Ok, Inserted, M.Mq.SlotsOk, M.Mq.DataOk, Slots.TakeFirst;
  }

  lemma LinkAgrees(mq: M.Mq, t: int, receivers: int, senders: int)
    requires mq.Ok() && mq.Has(t) && mq.pcs[t].SendCopy? && mq.pcs[t].done == |mq.pcs[t].msg| && receivers != senders
    ensures AgreesWith(mq, M.Linked(mq, t), t, Calls(receivers), receivers, senders)
  {
    hide Gate.Ok, M.Mq.SlotsOk, M.Mq.DataOk, Slots.LinkFirst, Slots.LinkLast;
    assert mq.receivers.waiting != [] ==> mq.receivers.waiting[0] in mq.receivers.waiting;
  }

  lemma FinishAgrees(mq: M.Mq, t: int, receivers: int, senders: int)
    requires mq.Ok() && mq.Has(t) && mq.pcs[t].RecvCopy? && |mq.pcs[t].got| == Min(mq.pcs[t].size, mq.width) && receivers != senders
    ensures AgreesWith(mq, M.Finished(mq, t), t, Calls(senders), receivers, senders)
  {
    hide Gate.Ok, M.Mq.SlotsOk, M.Mq.DataOk, Slots.GiveBack;
    assert mq.senders.waiting != [] ==> mq.senders.waiting[0] in mq.senders.waiting;
  }

  /** A copied byte or a cleared link concerns nobody who waits. */
  lemma CopyAgrees(mq: M.Mq, st: M.Step, receivers: int, senders: int)
    requires mq.Ok() && M.Enabled(mq, st) && (st.Clear? || st.CopyIn? || st.CopyOut?) && receivers != senders
    ensures AgreesWith(mq, M.Next(mq, st), st.t, Stays, receivers, senders)
  {
    hide M.Mq.Ok, Gate.Ok;
  }

  /** Nor does a message that is too long. */
  lemma NothingAgrees(mq: M.Mq, t: int, receivers: int, senders: int)
    requires mq.Has(t) && mq.pcs[t].Idle?
    ensures AgreesWith(mq, mq, t, Stays, receivers, senders)
  {
  }

  lemma SectionAgrees(mq: M.Mq, st: M.Step, receivers: int, senders: int)
    requires mq.Ok() && M.Enabled(mq, st) && !st.Expire? && receivers != senders
    ensures AgreesWith(mq, M.Next(mq, st), st.t, EffectOf(mq, st, receivers, senders), receivers, senders)
  {
    var pc := mq.pcs[st.t];
    assert M.PcData(mq.pool, mq.width, pc);
    hide M.Mq.SlotsOk, M.Mq.DataOk, Gate.Ok, M.PcData, AgreesWith;
    match st
    case Send(t, msg, urgent, wait, i) =>
      if |msg| <= mq.width {
        SendAgrees(mq, t, msg, urgent, wait, false, i, receivers, senders);
      } else {
        NothingAgrees(mq, t, receivers, senders);
      }
    case SendAgain(t, wait, i) => SendAgrees(mq, t, pc.msg, false, wait, true, i, receivers, senders);
    case Recv(t, size, wait, i) => RecvAgrees(mq, t, size, wait, false, i, receivers, senders);
    case RecvAgain(t, wait, i) => RecvAgrees(mq, t, pc.size, wait, true, i, receivers, senders);
    case Link(t) => LinkAgrees(mq, t, receivers, senders);
    case Finish(t) => FinishAgrees(mq, t, receivers, senders);
    case _ => CopyAgrees(mq, st, receivers, senders);
  }

  // ----- all steps -----

  /** Calls are those of the current thread, or of an interrupt; timeouts are steps of the kernel. */
  ghost predicate MayStep(s: Sys, js: JointStep<M.Step>, idle: int)
    requires Good(s)
  {
    var rows, modes := RowsOf(s.mq, s.receivers, s.senders), Modes(s.mq, s.receivers, s.senders);
    match js
    case Other(step) => Enabled(s.k, step, idle) && MayOther(s.k, rows, modes, step)
    case Call(st, time) =>
      && M.Enabled(s.mq, st) && !st.Expire? && (time != 0 <==> Waits(st))
      && Allowed(s.k, rows, modes, st.t, EffectOf(s.mq, st, s.receivers, s.senders))
  }

  /** The step of the protocol, if it is one. */
  ghost function Section(s: Sys, js: JointStep<M.Step>): seq<M.Step> {
    match js
    case Call(st, _) => [st]
    case Other(step) =>
      if TimesOut(Modes(s.mq, s.receivers, s.senders), RowsOf(s.mq, s.receivers, s.senders), step) then [M.Expire(step.t)] else []
  }

  ghost function JointNext(s: Sys, js: JointStep<M.Step>, idle: int): Sys
    requires Good(s) && MayStep(s, js, idle)
  {
    match js
    case Other(step) =>
      s.(k := Next(s.k, step, idle), mq := if Section(s, js) == [] then s.mq else M.Next(s.mq, M.Expire(step.t)))
    case Call(st, time) => s.(k := Affected(s.k, EffectOf(s.mq, st, s.receivers, s.senders), time), mq := M.Next(s.mq, st))
  }

  /** Every step of the kernel is a step of the protocol or none of its concern, and their threads agree again. */
  lemma StepKeeps(s: Sys, js: JointStep<M.Step>, idle: int)
    requires Good(s) && MayStep(s, js, idle)
    ensures var r, st := JointNext(s, js, idle), Section(s, js);
            && Good(r)
            && if st == [] then r.mq == s.mq else M.Enabled(s.mq, st[0]) && r.mq == M.Next(s.mq, st[0])
  {
    hide Kernel.Ok, ModesOk, Enabled, Next, Affected, Del, EffectOf, M.Mq.Ok;
    var rows, modes := RowsOf(s.mq, s.receivers, s.senders), Modes(s.mq, s.receivers, s.senders);
    match js
    case Call(st, time) =>
      SectionAgrees(s.mq, st, s.receivers, s.senders);
      EffectKeeps(s.k, rows, modes, st.t, EffectOf(s.mq, st, s.receivers, s.senders), time);
    case Other(step) =>
      OtherKeeps(s.k, rows, modes, step, idle);
      if Section(s, js) != [] {
        ExpireIs(s.mq, step.t, s.receivers, s.senders);
      }
  }

  lemma ExpireIs(mq: M.Mq, t: int, receivers: int, senders: int)
    requires mq.Ok() && mq.Has(t) && (mq.pcs[t].RecvWait? || mq.pcs[t].SendWait?) && receivers != senders
    ensures var r, rows, modes := M.Next(mq, M.Expire(t)), RowsOf(mq, receivers, senders), Modes(mq, receivers, senders);
            && RowsOf(r, receivers, senders) == rows[modes[t].w := Del(rows[modes[t].w], t)]
            && Modes(r, receivers, senders) == modes[t := Away]
  {
    hide Gate.Ok, M.Mq.SlotsOk, M.Mq.DataOk, Del;
  }

  // ----- runs -----

  /** A new queue that nobody waits at. */
  ghost predicate AtRest(s: Sys) {
    && s.k.Ok() && M.Initial(s.mq) && |s.mq.pcs| >= |s.k.threads| && s.receivers != s.senders
    && 0 <= s.receivers < |s.k.waits| && 0 <= s.senders < |s.k.waits|
    && s.k.waits[s.receivers] == s.k.waits[s.senders] == []
  }

  lemma RestIsGood(s: Sys)
    requires AtRest(s)
    ensures Good(s)
  {
    NobodyThere(s.k, s.receivers);
    NobodyThere(s.k, s.senders);
    M.InitialOk(s.mq);
    hide Kernel.Ok, M.Mq.Ok;
  }

  ghost predicate StepAt(ss: seq<Sys>, steps: seq<JointStep<M.Step>>, idle: int, i: int)
    requires 0 <= i < |steps| && |ss| == |steps| + 1
  {
    Good(ss[i]) ==> MayStep(ss[i], steps[i], idle) && ss[i + 1] == JointNext(ss[i], steps[i], idle)
  }

  ghost predicate Run(ss: seq<Sys>, steps: seq<JointStep<M.Step>>, idle: int) {
    |ss| == |steps| + 1 && AtRest(ss[0]) && forall i :: 0 <= i < |steps| ==> StepAt(ss, steps, idle, i)
  }

  /** The run of the protocol that the first `i` steps amount to. */
  ghost function Protocol(ss: seq<Sys>, steps: seq<JointStep<M.Step>>, i: nat): (p: (seq<M.Mq>, seq<M.Step>))
    requires i <= |steps| < |ss|
    ensures |p.0| == |p.1| + 1
  {
    if i == 0 then ([ss[0].mq], []) else
    var p, st := Protocol(ss, steps, i - 1), Section(ss[i - 1], steps[i - 1]);
    if st == [] then p else (p.0 + [ss[i].mq], p.1 + [st[0]])
  }

  /**
   While threads are on the wait list of the receivers, every message has a thread that was called from
   it, is on no list, found no error and will try again; likewise every free slot while senders wait.
   */
  ghost predicate NoneForgotten(s: Sys) {
    && 0 <= s.receivers < |s.k.waits| && 0 <= s.senders < |s.k.waits|
    && (s.k.waits[s.receivers] != [] ==> s.mq.slots.entry <= |s.mq.receivers.woken|)
    && (s.k.waits[s.senders] != [] ==> |s.mq.slots.freed| <= |s.mq.senders.woken|)
    && (forall t :: t in s.mq.receivers.woken + s.mq.senders.woken && t < |s.k.threads| ==>
          s.k.Has(t) && s.k.threads[t].at == -1 && s.k.threads[t].error == EOK && !Gone(s.k.threads[t]))
  }

  lemma GoodForgetsNone(s: Sys)
    requires Good(s)
    ensures NoneForgotten(s)
  {
    hide Kernel.Ok, M.Mq.SlotsOk, M.Mq.DataOk;
    var rows := RowsOf(s.mq, s.receivers, s.senders);
    assert s.receivers in rows && s.senders in rows;
    forall t | t in s.mq.receivers.woken + s.mq.senders.woken && t < |s.k.threads|
      ensures s.k.Has(t) && s.k.threads[t].at == -1 && s.k.threads[t].error == EOK && !Gone(s.k.threads[t])
    {
      assert ModeOk(s.k, rows.Keys, Modes(s.mq, s.receivers, s.senders)[t], t);
    }
  }

  /**
   In every state of every run, whatever else threads, interrupts and timers do, nobody is forgotten,
   and the queue is where a run of the protocol has brought it: what is proved in MsgQueues of all of
   its runs holds here.
   */
  lemma {:induction false} NoLostWakeup(ss: seq<Sys>, steps: seq<JointStep<M.Step>>, idle: int, i: nat)
    requires Run(ss, steps, idle) && i <= |steps|
    ensures Good(ss[i]) && NoneForgotten(ss[i])
    ensures var p := Protocol(ss, steps, i); M.Run(p.0, p.1) && p.0[|p.1|] == ss[i].mq
  {
    hide Kernel.Ok, Joined, JointNext, MayStep, M.Next, M.Enabled, M.Mq.Ok;
    if i > 0 {
      NoLostWakeup(ss, steps, idle, i - 1);
      assert StepAt(ss, steps, idle, i - 1);
      StepKeeps(ss[i - 1], steps[i - 1], idle);
      var p, st := Protocol(ss, steps, i - 1), Section(ss[i - 1], steps[i - 1]);
      hide Run, AtRest, NoneForgotten;
      if st != [] {
        RunGrows(p.0, p.1, ss[i].mq, st[0]);
      }
    } else {
      RestIsGood(ss[0]);
    }
    GoodForgetsNone(ss[i]);
  }

  lemma RunGrows(ss: seq<M.Mq>, steps: seq<M.Step>, r: M.Mq, st: M.Step)
    requires M.Run(ss, steps) && ss[|steps|].Ok() && M.Enabled(ss[|steps|], st) && r == M.Next(ss[|steps|], st)
    ensures M.Run(ss + [r], steps + [st])
  {
    hide M.Next, M.Enabled, M.Mq.Ok, M.Initial;
    forall j | 0 <= j < |steps| + 1
      ensures M.StepAt(ss + [r], steps + [st], j)
    {
      if j < |steps| {
        assert M.StepAt(ss, steps, j);
      }
    }
  }

  /** Whatever happens meanwhile, no message is lost or received twice. */
  lemma EveryMessageOnce(ss: seq<Sys>, steps: seq<JointStep<M.Step>>, idle: int, i: nat)
    requires Run(ss, steps, idle) && i <= |steps|
    ensures var p := Protocol(ss, steps, i);
            multiset(M.Sent(p.0, p.1, |p.1|)) == multiset(M.Received(p.0, p.1, |p.1|)) + multiset(ss[i].mq.deque)
  {
    NoLostWakeup(ss, steps, idle, i);
    var p := Protocol(ss, steps, i);
    M.NothingLost(p.0, p.1, |p.1|);
  }
}
