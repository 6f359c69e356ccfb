/**
 A mailbox: a ring of words between senders that wait for space and receivers that wait for mail.
 */
module Mailboxes {
  import opened Lists
  import opened Gates

  const ENTRY_MAX: int := 0xffff

  datatype Box = Box(pool: seq<int>, entry: int, inOffset: int, outOffset: int) {

    /** The position `i` places behind the output offset. */
    function At(i: int): int {
      if outOffset + i >= |pool| then outOffset + i - |pool| else outOffset + i
    }

    ghost predicate Ok() {
      && |pool| <= ENTRY_MAX && 0 <= entry <= |pool|
      && (if |pool| == 0 then inOffset == 0 && outOffset == 0
          else 0 <= outOffset < |pool| && inOffset == At(entry) - (if At(entry) == |pool| then |pool| else 0))
    }

    /** The mail in the box, oldest first. */
    function Mail(): (m: seq<int>)
      requires Ok()
      ensures |m| == entry && forall i :: 0 <= i < entry ==> m[i] == pool[At(i)]
    {
      seq(entry, i requires 0 <= i < entry => pool[At(i)])
    }

    /** Storing a word at the input offset. */
    function Posted(value: int): Box
      requires 0 <= inOffset < |pool|
    {
      this.(pool := pool[inOffset := value], inOffset := if inOffset + 1 >= |pool| then 0 else inOffset + 1,
            entry := if entry < ENTRY_MAX then entry + 1 else entry)
    }

    /** Moving on from the word at the output offset. */
    function Fetched(): Box {
      this.(outOffset := if outOffset + 1 >= |pool| then 0 else outOffset + 1,
            entry := if entry > 0 then entry - 1 else entry)
    }

    /** Posting puts the mail last, even when it overwrites the place of mail long fetched. */
    lemma PostedLast(value: int)
      requires Ok() && entry != |pool|
      ensures 0 <= inOffset < |pool| && entry < ENTRY_MAX
      ensures Posted(value).Ok() && Posted(value).Mail() == Mail() + [value]
    {
      var r := Posted(value);
      forall i | 0 <= i < entry
        ensures r.Mail()[i] == Mail()[i]
      {
        assert At(i) != inOffset;
      }
    }

    lemma FetchedFirst()
      requires Ok() && entry != 0
      ensures 0 <= outOffset < |pool| && Mail() != [] && Mail()[0] == pool[outOffset]
      ensures Fetched().Ok() && Fetched().Mail() == Mail()[1..]
    {
      var r := Fetched();
      forall i | 0 <= i < entry - 1
        ensures r.Mail()[i] == Mail()[i + 1]
      {
        assert r.At(i) == At(i + 1);
      }
    }
  }

  /** Where a thread is in rt_mb_send_wait or rt_mb_recv. */
  datatype Pc = Idle | SendWait(value: int) | SendWoken(value: int) | RecvWait | RecvWoken | Got(mail: int)

  datatype Mb = Mb(box: Box, receivers: Gate, senders: Gate, pcs: seq<Pc>) {

    predicate Has(t: int) {
      0 <= t < |pcs|
    }

    ghost predicate Ok() {
      && box.Ok() && receivers.Ok() && senders.Ok()
      && receivers.tokens == box.entry && senders.tokens == |box.pool| - box.entry
      && (forall t :: t in receivers.waiting <==> Has(t) && pcs[t].RecvWait?)
      && (forall t :: t in receivers.woken <==> Has(t) && pcs[t].RecvWoken?)
      && (forall t :: t in senders.waiting <==> Has(t) && pcs[t].SendWait?)
      && (forall t :: t in senders.woken <==> Has(t) && pcs[t].SendWoken?)
    }
  }

  /** A section of rt_mb_send_wait. */
  ghost function SendSection(s: Mb, t: int, value: int, wait: bool, i: int): Mb
    requires s.Ok() && s.Has(t) && t !in s.senders.waiting && 0 <= i <= |s.senders.waiting|
  {
    if s.box.entry == |s.box.pool| then
      if !wait then s.(pcs := s.pcs[t := Idle], senders := s.senders.GiveUp(t))
      else s.(pcs := s.pcs[t := SendWait(value)], senders := s.senders.Wait(t, i))
    else
      s.box.PostedLast(value);
      var pcs := s.pcs[t := Idle];
      s.(box := s.box.Posted(value), senders := s.senders.Take(t), receivers := s.receivers.Put(),
         pcs := if s.receivers.waiting == [] then pcs else
                var u := s.receivers.waiting[0];
                assert u in s.receivers.waiting;
                pcs[u := RecvWoken])
  }

  /** A section of rt_mb_recv. */
  ghost function RecvSection(s: Mb, t: int, wait: bool, i: int): Mb
    requires s.Ok() && s.Has(t) && t !in s.receivers.waiting && 0 <= i <= |s.receivers.waiting|
  {
    if s.box.entry == 0 then
      if !wait then s.(pcs := s.pcs[t := Idle], receivers := s.receivers.GiveUp(t))
      else s.(pcs := s.pcs[t := RecvWait], receivers := s.receivers.Wait(t, i))
    else
      s.box.FetchedFirst();
      var pcs := s.pcs[t := Got(s.box.pool[s.box.outOffset])];
      s.(box := s.box.Fetched(), receivers := s.receivers.Take(t), senders := s.senders.Put(),
         pcs := if s.senders.waiting == [] then pcs else
                var u := s.senders.waiting[0];
                assert u in s.senders.waiting;
                pcs[u := SendWoken(s.pcs[u].value)])
  }

  lemma SendSectionOk(s: Mb, t: int, value: int, wait: bool, i: int)
    requires s.Ok() && s.Has(t) && (s.pcs[t].Idle? || s.pcs[t].SendWoken?) && 0 <= i <= |s.senders.waiting|
    ensures t !in s.senders.waiting && SendSection(s, t, value, wait, i).Ok()
  {
    hide Gate.Ok, Inserted;
    if s.box.entry == |s.box.pool| {
      InsertedMembers(s.senders.waiting, i, t);
    } else {
      s.box.PostedLast(value);
      WakesFirst(s.receivers);
    }
    hide Box.Ok;
  }

  lemma RecvSectionOk(s: Mb, t: int, wait: bool, i: int)
    requires s.Ok() && s.Has(t) && (s.pcs[t].Idle? || s.pcs[t].RecvWoken?) && 0 <= i <= |s.receivers.waiting|
    ensures t !in s.receivers.waiting && RecvSection(s, t, wait, i).Ok()
  {
    hide Gate.Ok, Inserted;
    if s.box.entry == 0 {
      InsertedMembers(s.receivers.waiting, i, t);
    } else {
      s.box.FetchedFirst();
      WakesFirst(s.senders);
    }
    hide Box.Ok;
  }

  // ----- runs -----

  /** A section of thread `t`, its return with the mail, or the end of its waiting time. */
  datatype Step =
    | Send(t: int, value: int, wait: bool, i: int)
    | SendAgain(t: int, wait: bool, i: int)
    | Recv(t: int, wait: bool, i: int)
    | RecvAgain(t: int, wait: bool, i: int)
    | Return(t: int)
    | Expire(t: int)

  ghost predicate Enabled(s: Mb, st: Step) {
    && s.Has(st.t)
    && var pc := s.pcs[st.t];
    match st
    case Send(t, value, wait, i) => pc.Idle? && 0 <= i <= |s.senders.waiting|
    case SendAgain(t, wait, i) => pc.SendWoken? && 0 <= i <= |s.senders.waiting|
    case Recv(t, wait, i) => pc.Idle? && 0 <= i <= |s.receivers.waiting|
    case RecvAgain(t, wait, i) => pc.RecvWoken? && 0 <= i <= |s.receivers.waiting|
    case Return(t) => pc.Got?
    case Expire(t) => pc.RecvWait? || pc.SendWait?
  }

  ghost function Next(s: Mb, st: Step): (r: Mb)
    requires s.Ok() && Enabled(s, st)
    ensures r.Ok()
  {
    var t, pc := st.t, s.pcs[st.t];
    match st
    case Send(_, value, wait, i) => SendSectionOk(s, t, value, wait, i); SendSection(s, t, value, wait, i)
    case SendAgain(_, wait, i) => SendSectionOk(s, t, pc.value, wait, i); SendSection(s, t, pc.value, wait, i)
    case Recv(_, wait, i) => RecvSectionOk(s, t, wait, i); RecvSection(s, t, wait, i)
    case RecvAgain(_, wait, i) => RecvSectionOk(s, t, wait, i); RecvSection(s, t, wait, i)
    case Return(_) => s.(pcs := s.pcs[t := Idle])
    case Expire(_) =>
      if pc.RecvWait? then s.(pcs := s.pcs[t := Idle], receivers := s.receivers.Expire(t))
      else s.(pcs := s.pcs[t := Idle], senders := s.senders.Expire(t))
  }

  ghost predicate Initial(s: Mb) {
    && |s.box.pool| <= ENTRY_MAX && s.box == Box(s.box.pool, 0, 0, 0)
    && s.receivers == Gate(0, [], {}) && s.senders == Gate(|s.box.pool|, [], {})
    && forall t :: 0 <= t < |s.pcs| ==> s.pcs[t] == Idle
  }

  ghost predicate StepAt(ss: seq<Mb>, steps: seq<Step>, i: int)
    requires 0 <= i < |steps| && |ss| == |steps| + 1
  {
    ss[i].Ok() ==> Enabled(ss[i], steps[i]) && ss[i + 1] == Next(ss[i], steps[i])
  }

  ghost predicate Run(ss: seq<Mb>, steps: seq<Step>) {
    |ss| == |steps| + 1 && Initial(ss[0]) && forall i :: 0 <= i < |steps| ==> StepAt(ss, steps, i)
  }

  /** The value, if any, that a step stores. */
  ghost function SentIn(s: Mb, st: Step): seq<int> {
    if s.Has(st.t) && s.box.entry != |s.box.pool| && st.Send? then [st.value]
    else if s.Has(st.t) && s.box.entry != |s.box.pool| && st.SendAgain? && s.pcs[st.t].SendWoken? then [s.pcs[st.t].value]
    else []
  }

  /** The value, if any, that a step hands to its thread. */
  ghost function ReceivedIn(s: Mb, r: Mb, st: Step): seq<int> {
    if (st.Recv? || st.RecvAgain?) && s.box.entry != 0 && r.Has(st.t) && r.pcs[st.t].Got? then [r.pcs[st.t].mail] else []
  }

  ghost function Sent(ss: seq<Mb>, steps: seq<Step>, i: nat): seq<int>
    requires i <= |steps| < |ss|
  {
    if i == 0 then [] else Sent(ss, steps, i - 1) + SentIn(ss[i - 1], steps[i - 1])
  }

  ghost function Received(ss: seq<Mb>, steps: seq<Step>, i: nat): seq<int>
    requires i <= |steps| < |ss|
  {
    if i == 0 then [] else Received(ss, steps, i - 1) + ReceivedIn(ss[i - 1], ss[i], steps[i - 1])
  }

  lemma OneStep(s: Mb, st: Step)
    requires s.Ok() && Enabled(s, st)
    ensures ReceivedIn(s, Next(s, st), st) + Next(s, st).box.Mail() == s.box.Mail() + SentIn(s, st)
  {
    hide Gate.Ok, Box.Mail;
    var r := Next(s, st);
    if (st.Send? || st.SendAgain?) && s.box.entry != |s.box.pool| {
      s.box.PostedLast(if st.Send? then st.value else s.pcs[st.t].value);
      assert [] + r.box.Mail() == r.box.Mail();
    } else if (st.Recv? || st.RecvAgain?) && s.box.entry != 0 {
      s.box.FetchedFirst();
      assert r.pcs[st.t] == Got(s.box.pool[s.box.outOffset]);
      assert s.box.Mail() + [] == s.box.Mail() == [s.box.Mail()[0]] + s.box.Mail()[1..];
    } else {
      assert r.box == s.box;
      assert [] + r.box.Mail() == s.box.Mail() + [];
    }
  }

  /**
   In every state of every run: while receivers or senders wait, every mail or free place has a woken
   thread that will come for it; and the mail received so far, followed by that in the box, is the
   mail sent, in order.
   */
  lemma {:induction false} RunOk(ss: seq<Mb>, steps: seq<Step>, i: nat)
    requires Run(ss, steps) && i <= |steps|
    ensures ss[i].Ok()
    ensures var s := ss[i];
            && (s.receivers.waiting != [] ==> s.box.entry <= |s.receivers.woken|)
            && (s.senders.waiting != [] ==> |s.box.pool| - s.box.entry <= |s.senders.woken|)
    ensures Sent(ss, steps, i) == Received(ss, steps, i) + ss[i].box.Mail()
  {
    hide Box.Mail, Next, Enabled, SentIn, ReceivedIn, Mb.Ok, Initial;
    if i > 0 {
      RunOk(ss, steps, i - 1);
      assert StepAt(ss, steps, i - 1);
      var s, r, st := ss[i - 1], ss[i], steps[i - 1];
      OneStep(s, st);
      NobodyForgotten(s);
      NobodyForgotten(r);
      Regroup(Sent(ss, steps, i - 1), Received(ss, steps, i - 1), s.box.Mail(), r.box.Mail(), ReceivedIn(s, r, st), SentIn(s, st));
    } else {
      InitialOk(ss[0]);
    }
    NobodyForgotten(ss[i]);
  }

  lemma InitialOk(s: Mb)
    requires Initial(s)
    ensures s.Ok() && s.box.Ok() && s.box.Mail() == []
  {
  }

  lemma NobodyForgotten(s: Mb)
    requires s.Ok()
    ensures s.box.Ok()
    ensures s.receivers.waiting != [] ==> s.box.entry <= |s.receivers.woken|
    ensures s.senders.waiting != [] ==> |s.box.pool| - s.box.entry <= |s.senders.woken|
  {
  }
}
