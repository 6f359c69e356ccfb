/**
 Mailboxes on the scheduler: the sections of sending and receiving with the threads, wait lists and
 timers of the kernel, and every run of them among everything else that threads do.
 */
module MailboxRuns {
  import opened Lists
  import opened Threads
  import opened Scheduler
  import opened Gates
  import opened GateWaits
  import M = Mailboxes

  /**
   What a pass of rt_mb_send_wait means for the threads: to a full box the thread waits at place `i`, or
   gives up, with its error cleared if it waited before; otherwise a receiver is called.
   */
  function SendEffect(box: M.Box, receivers: int, senders: int, i: int, wait: bool, again: bool): Effect {
    if box.entry != |box.pool| then Calls(receivers) else TryEffect(true, senders, i, wait, again, EOK)
  }

  /** The same for rt_mb_recv. */
  function RecvEffect(box: M.Box, receivers: int, senders: int, i: int, wait: bool, again: bool): Effect {
    if box.entry != 0 then Calls(senders) else TryEffect(true, receivers, i, wait, again, -ETIMEOUT)
  }

  // ----- the kernel and the protocol side by side -----

  /** `receivers` and `senders` are the wait lists of the mailbox. */
  datatype Sys = Sys(k: Kernel, mb: M.Mb, receivers: int, senders: int)

  function ModeOf(pc: M.Pc, receivers: int, senders: int): Mode {
    match pc
    case RecvWait => Queued(receivers)
    case SendWait(_) => Queued(senders)
    case RecvWoken => Called
    case SendWoken(_) => Called
    case _ => Away
  }

  ghost function Modes(mb: M.Mb, receivers: int, senders: int): (r: seq<Mode>)
    ensures |r| == |mb.pcs|
  {
    seq(|mb.pcs|, t requires 0 <= t < |mb.pcs| => ModeOf(mb.pcs[t], receivers, senders))
  }

  ghost function RowsOf(mb: M.Mb, receivers: int, senders: int): Rows {
    map[receivers := mb.receivers.waiting, senders := mb.senders.waiting]
  }

  /** The protocol is as proved in Mailboxes, and the threads that wait in it are those on the wait lists of the kernel. */
  ghost predicate Good(s: Sys) {
    && s.mb.Ok() && s.receivers != s.senders
    && Joined(s.k, RowsOf(s.mb, s.receivers, s.senders), Modes(s.mb, s.receivers, s.senders))
  }

  ghost function EffectOf(mb: M.Mb, st: M.Step, receivers: int, senders: int): Effect {
    match st
    case Send(_, _, wait, i) => SendEffect(mb.box, receivers, senders, i, wait, false)
    case SendAgain(_, wait, i) => SendEffect(mb.box, receivers, senders, i, wait, true)
    case Recv(_, wait, i) => RecvEffect(mb.box, receivers, senders, i, wait, false)
    case RecvAgain(_, wait, i) => RecvEffect(mb.box, receivers, senders, i, wait, true)
    case _ => Stays
  }

  predicate Waits(st: M.Step) {
    (st.Send? || st.SendAgain? || st.Recv? || st.RecvAgain?) && st.wait
  }

  /** What a section of the protocol does to its threads is what the kernel does to them. */
  ghost predicate AgreesWith(mb: M.Mb, r: M.Mb, t: int, e: Effect, receivers: int, senders: int) {
    Agrees(RowsOf(mb, receivers, senders), Modes(mb, receivers, senders), RowsOf(r, receivers, senders), Modes(r, receivers, senders), t, e)
  }

  lemma SendAgrees(mb: M.Mb, t: int, value: int, wait: bool, again: bool, i: int, receivers: int, senders: int)
    requires mb.Ok() && mb.Has(t) && t !in mb.senders.waiting && 0 <= i <= |mb.senders.waiting| && receivers != senders
    ensures AgreesWith(mb, M.SendSection(mb, t, value, wait, i), t, SendEffect(mb.box, receivers, senders, i, wait, again), receivers, senders)
  {
    hide Gate.Ok, M.Box.Ok, Inserted;
    assert mb.receivers.waiting != [] ==> mb.receivers.waiting[0] in mb.receivers.waiting;
  }

  lemma RecvAgrees(mb: M.Mb, t: int, wait: bool, again: bool, i: int, receivers: int, senders: int)
    requires mb.Ok() && mb.Has(t) && t !in mb.receivers.waiting && 0 <= i <= |mb.receivers.waiting| && receivers != senders
    ensures AgreesWith(mb, M.RecvSection(mb, t, wait, i), t, RecvEffect(mb.box, receivers, senders, i, wait, again), receivers, senders)
  {
    hide Gate.Ok, M.Box.Ok, Inserted;
    assert mb.senders.waiting != [] ==> mb.senders.waiting[0] in mb.senders.waiting;
  }

  lemma SectionAgrees(mb: M.Mb, st: M.Step, receivers: int, senders: int)
    requires mb.Ok() && M.Enabled(mb, st) && !st.Expire? && receivers != senders
    ensures AgreesWith(mb, M.Next(mb, st), st.t, EffectOf(mb, st, receivers, senders), receivers, senders)
  {
    match st
    case Send(t, value, wait, i) =>
      SendAgrees(mb, t, value, wait, false, i, receivers, senders);
      hide AgreesWith;
    case SendAgain(t, wait, i) =>
      SendAgrees(mb, t, mb.pcs[t].value, wait, true, i, receivers, senders);
      hide AgreesWith;
    case Recv(t, wait, i) =>
      RecvAgrees(mb, t, wait, false, i, receivers, senders);
      hide AgreesWith;
    case RecvAgain(t, wait, i) =>
      RecvAgrees(mb, t, wait, true, i, receivers, senders);
      hide AgreesWith;
    case Return(_) =>
  }

  // ----- all steps -----

  /** Calls are those of the current thread, or of an interrupt; timeouts are steps of the kernel. */
  ghost predicate MayStep(s: Sys, js: JointStep<M.Step>, idle: int)
    requires Good(s)
  {
    var rows, modes := RowsOf(s.mb, s.receivers, s.senders), Modes(s.mb, s.receivers, s.senders);
    match js
    case Other(step) => Enabled(s.k, step, idle) && MayOther(s.k, rows, modes, step)
    case Call(st, time) =>
      && M.Enabled(s.mb, st) && !st.Expire? && (time != 0 <==> Waits(st))
      && Allowed(s.k, rows, modes, st.t, EffectOf(s.mb, st, s.receivers, s.senders))
  }

  /** The step of the protocol, if it is one. */
  ghost function Section(s: Sys, js: JointStep<M.Step>): seq<M.Step> {
    match js
    case Call(st, _) => [st]
    case Other(step) =>
      if TimesOut(Modes(s.mb, s.receivers, s.senders), RowsOf(s.mb, s.receivers, s.senders), step) then [M.Expire(step.t)] else []
  }

  ghost function JointNext(s: Sys, js: JointStep<M.Step>, idle: int): Sys
    requires Good(s) && MayStep(s, js, idle)
  {
    match js
    case Other(step) =>
      s.(k := Next(s.k, step, idle), mb := if Section(s, js) == [] then s.mb else M.Next(s.mb, M.Expire(step.t)))
    case Call(st, time) => s.(k := Affected(s.k, EffectOf(s.mb, st, s.receivers, s.senders), time), mb := M.Next(s.mb, st))
  }

  /** Every step of the kernel is a step of the protocol or none of its concern, and their threads agree again. */
  lemma StepKeeps(s: Sys, js: JointStep<M.Step>, idle: int)
    requires Good(s) && MayStep(s, js, idle)
    ensures var r, st := JointNext(s, js, idle), Section(s, js);
            && Good(r)
            && if st == [] then r.mb == s.mb else M.Enabled(s.mb, st[0]) && r.mb == M.Next(s.mb, st[0])
  {
    hide Kernel.Ok, ModesOk, Enabled, Next, Affected, Del, EffectOf;
    var rows, modes := RowsOf(s.mb, s.receivers, s.senders), Modes(s.mb, s.receivers, s.senders);
    match js
    case Call(st, time) =>
      SectionAgrees(s.mb, st, s.receivers, s.senders);
      EffectKeeps(s.k, rows, modes, st.t, EffectOf(s.mb, st, s.receivers, s.senders), time);
    case Other(step) =>
      OtherKeeps(s.k, rows, modes, step, idle);
      if Section(s, js) != [] {
        ExpireIs(s.mb, step.t, s.receivers, s.senders);
      }
  }

  lemma ExpireIs(mb: M.Mb, t: int, receivers: int, senders: int)
    requires mb.Ok() && mb.Has(t) && (mb.pcs[t].RecvWait? || mb.pcs[t].SendWait?) && receivers != senders
    ensures var r, rows, modes := M.Next(mb, M.Expire(t)), RowsOf(mb, receivers, senders), Modes(mb, receivers, senders);
            && RowsOf(r, receivers, senders) == rows[modes[t].w := Del(rows[modes[t].w], t)]
            && Modes(r, receivers, senders) == modes[t := Away]
  {
    hide Gate.Ok, M.Box.Ok, Del;
  }

  // ----- runs -----

  /** An empty mailbox that nobody waits at. */
  ghost predicate AtRest(s: Sys) {
    && s.k.Ok() && M.Initial(s.mb) && |s.mb.pcs| >= |s.k.threads| && s.receivers != s.senders
    && 0 <= s.receivers < |s.k.waits| && 0 <= s.senders < |s.k.waits|
    && s.k.waits[s.receivers] == s.k.waits[s.senders] == []
  }

  lemma RestIsGood(s: Sys)
    requires AtRest(s)
    ensures Good(s)
  {
    NobodyThere(s.k, s.receivers);
    NobodyThere(s.k, s.senders);
    hide Kernel.Ok;
  }

  ghost predicate StepAt(ss: seq<Sys>, steps: seq<JointStep<M.Step>>, idle: int, i: int)
    requires 0 <= i < |steps| && |ss| == |steps| + 1
  {
    Good(ss[i]) ==> MayStep(ss[i], steps[i], idle) && ss[i + 1] == JointNext(ss[i], steps[i], idle)
  }

  ghost predicate Run(ss: seq<Sys>, steps: seq<JointStep<M.Step>>, idle: int) {
    |ss| == |steps| + 1 && AtRest(ss[0]) && forall i :: 0 <= i < |steps| ==> StepAt(ss, steps, idle, i)
  }

  /** The mail that senders stored in the first `i` steps. */
  ghost function Sent(ss: seq<Sys>, steps: seq<JointStep<M.Step>>, i: nat): seq<int>
    requires i <= |steps| < |ss|
  {
    if i == 0 then [] else
    var st := Section(ss[i - 1], steps[i - 1]);
    Sent(ss, steps, i - 1) + if st == [] then [] else M.SentIn(ss[i - 1].mb, st[0])
  }

  ghost function Received(ss: seq<Sys>, steps: seq<JointStep<M.Step>>, i: nat): seq<int>
    requires i <= |steps| < |ss|
  {
    if i == 0 then [] else
    var st := Section(ss[i - 1], steps[i - 1]);
    Received(ss, steps, i - 1) + if st == [] then [] else M.ReceivedIn(ss[i - 1].mb, ss[i].mb, st[0])
  }

  /**
   While threads are on the wait list of the receivers, every mail has a thread that was called from
   it, is on no list, found no error and will try again; likewise every free place while senders wait.
   */
  ghost predicate NoneForgotten(s: Sys) {
    && 0 <= s.receivers < |s.k.waits| && 0 <= s.senders < |s.k.waits|
    && (s.k.waits[s.receivers] != [] ==> s.mb.box.entry <= |s.mb.receivers.woken|)
    && (s.k.waits[s.senders] != [] ==> |s.mb.box.pool| - s.mb.box.entry <= |s.mb.senders.woken|)
    && (forall t :: t in s.mb.receivers.woken + s.mb.senders.woken && t < |s.k.threads| ==>
          s.k.Has(t) && s.k.threads[t].at == -1 && s.k.threads[t].error == EOK && !Gone(s.k.threads[t]))
  }

  lemma GoodForgetsNone(s: Sys)
    requires Good(s)
    ensures NoneForgotten(s)
  {
    hide Kernel.Ok, M.Box.Ok;
    var rows := RowsOf(s.mb, s.receivers, s.senders);
    assert s.receivers in rows && s.senders in rows;
    forall t | t in s.mb.receivers.woken + s.mb.senders.woken && t < |s.k.threads|
      ensures s.k.Has(t) && s.k.threads[t].at == -1 && s.k.threads[t].error == EOK && !Gone(s.k.threads[t])
    {
      assert ModeOk(s.k, rows.Keys, Modes(s.mb, s.receivers, s.senders)[t], t);
    }
  }

  /**
   In every state of every run, whatever else threads, interrupts and timers do, nobody is forgotten,
   and the mail received followed by that in the box is the mail sent.
   */
  lemma {:induction false} NoLostWakeup(ss: seq<Sys>, steps: seq<JointStep<M.Step>>, idle: int, i: nat)
    requires Run(ss, steps, idle) && i <= |steps|
    ensures Good(ss[i]) && NoneForgotten(ss[i])
    ensures Sent(ss, steps, i) == Received(ss, steps, i) + ss[i].mb.box.Mail()
  {
    hide Kernel.Ok, Joined, JointNext, MayStep, M.Box.Mail, M.Next, M.Enabled, M.SentIn, M.ReceivedIn;
    if i > 0 {
      NoLostWakeup(ss, steps, idle, i - 1);
      assert StepAt(ss, steps, idle, i - 1);
      hide Run, AtRest, NoneForgotten;
      StepKeeps(ss[i - 1], steps[i - 1], idle);
      MailBalance(ss[i - 1], steps[i - 1], idle);
      var s, r, st := ss[i - 1].mb, ss[i].mb, Section(ss[i - 1], steps[i - 1]);
      if st != [] {
        Regroup(Sent(ss, steps, i - 1), Received(ss, steps, i - 1), s.box.Mail(), r.box.Mail(), M.ReceivedIn(s, r, st[0]), M.SentIn(s, st[0]));
      }
    } else {
      RestIsGood(ss[0]);
      EmptyMail(ss[0].mb);
    }
    GoodForgetsNone(ss[i]);
  }

  lemma EmptyMail(s: M.Mb)
    requires M.Initial(s)
    ensures s.box.Ok() && s.box.Mail() == []
  {
  }

  lemma MailBalance(s: Sys, js: JointStep<M.Step>, idle: int)
    requires Good(s) && MayStep(s, js, idle)
    ensures var r, st := JointNext(s, js, idle).mb, Section(s, js);
            if st == [] then r == s.mb
            else M.ReceivedIn(s.mb, r, st[0]) + r.box.Mail() == s.mb.box.Mail() + M.SentIn(s.mb, st[0])
  {
    StepKeeps(s, js, idle);
    hide Kernel.Ok, Joined, JointNext, MayStep, M.Next, M.Enabled, M.SentIn, M.ReceivedIn, M.Mb.Ok;
    if Section(s, js) != [] {
      M.OneStep(s.mb, Section(s, js)[0]);
    }
  }
}
