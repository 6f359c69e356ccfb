/**
 Event sets: threads wait until all or some of the bits they ask for are set.
 */
module Events {
  import opened Bits

  /** What a thread asks for: all of `want`, or else some of it; `clear` takes the bits it gets out of the set. */
  datatype Waiter = Waiter(thread: int, want: nat, all: bool, clear: bool)

  /** A thread that was resumed, and the bits it gets. */
  datatype Grant = Grant(thread: int, bits: nat)

  predicate Satisfied(flags: nat, w: Waiter) {
    if w.all then And(flags, w.want) == w.want else And(flags, w.want) != 0
  }

  /** The bits that a satisfied thread gets. */
  function Share(flags: nat, w: Waiter): nat {
    if w.all then w.want else And(w.want, flags)
  }

  function Without(flags: nat, w: Waiter): nat {
    if w.clear then AndNot(flags, Share(flags, w)) else flags
  }

  /** The loop of rt_event_send: the waiting threads in order, each against what those before left of the set. */
  function Swept(flags: nat, ws: seq<Waiter>): (r: (nat, seq<Waiter>, seq<Grant>))
    decreases |ws|
  {
    if ws == [] then (flags, [], [])
    else if Satisfied(flags, ws[0]) then
      var r := Swept(Without(flags, ws[0]), ws[1..]);
      (r.0, r.1, [Grant(ws[0].thread, Share(flags, ws[0]))] + r.2)
    else
      var r := Swept(flags, ws[1..]);
      (r.0, [ws[0]] + r.1, r.2)
  }

  /** Taking bits out of a set satisfies nobody. */
  lemma LessSatisfies(flags: nat, less: nat, w: Waiter)
    requires forall p: nat :: Bit(less, p) ==> Bit(flags, p)
    requires Satisfied(less, w)
    ensures Satisfied(flags, w)
  {
    hide And, Bit;
    if w.all {
      forall p: nat
        ensures Bit(And(flags, w.want), p) <==> Bit(w.want, p)
      {
        AndBits(flags, w.want, p);
        AndBits(less, w.want, p);
      }
      SameBits(And(flags, w.want), w.want);
    } else if And(flags, w.want) == 0 {
      forall p: nat
        ensures Bit(And(less, w.want), p) <==> Bit(0, p)
      {
        AndBits(flags, w.want, p);
        AndBits(less, w.want, p);
        BitZero(p);
      }
      SameBits(And(less, w.want), 0);
    }
  }

  lemma {:induction false} SweptLess(flags: nat, ws: seq<Waiter>, p: nat)
    requires Bit(Swept(flags, ws).0, p)
    ensures Bit(flags, p)
    decreases |ws|
  {
    hide Bit, Share;
    if ws != [] {
      if Satisfied(flags, ws[0]) {
        SweptLess(Without(flags, ws[0]), ws[1..], p);
        AndNotBits(flags, Share(flags, ws[0]), p);
      } else {
        SweptLess(flags, ws[1..], p);
      }
    }
  }

  /**
   After a send, no thread is left waiting that the set satisfies, although threads resumed before
   may have taken bits out of it.
   */
  lemma {:induction false} NoneLeftSatisfied(flags: nat, ws: seq<Waiter>, i: nat)
    requires i < |Swept(flags, ws).1|
    ensures !Satisfied(Swept(flags, ws).0, Swept(flags, ws).1[i])
    decreases |ws|
  {
    hide Satisfied, Without, Share;
    if Satisfied(flags, ws[0]) {
      NoneLeftSatisfied(Without(flags, ws[0]), ws[1..], i);
    } else if i > 0 {
      NoneLeftSatisfied(flags, ws[1..], i - 1);
    } else {
      var r := Swept(flags, ws);
      assert r.0 == Swept(flags, ws[1..]).0;
      if Satisfied(r.0, ws[0]) {
        forall p: nat | Bit(r.0, p)
          ensures Bit(flags, p)
        {
          SweptLess(flags, ws, p);
        }
        LessSatisfies(flags, r.0, ws[0]);
      }
    }
  }

  lemma {:induction false} SweptKeeps(flags: nat, ws: seq<Waiter>, i: nat)
    requires i < |Swept(flags, ws).1|
    ensures Swept(flags, ws).1[i] in ws
    decreases |ws|
  {
    hide Satisfied, Without, Share;
    if Satisfied(flags, ws[0]) {
      SweptKeeps(Without(flags, ws[0]), ws[1..], i);
    } else if i > 0 {
      SweptKeeps(flags, ws[1..], i - 1);
    }
  }

  predicate Waits(ws: seq<Waiter>, t: int) {
    exists w :: w in ws && w.thread == t
  }

  /** Every thread is resumed or left, once, and those left keep their order. */
  lemma {:induction false} AllAccounted(flags: nat, ws: seq<Waiter>, t: int)
    ensures var r := Swept(flags, ws);
            && |r.1| + |r.2| == |ws|
            && (Waits(ws, t) <==> Waits(r.1, t) || exists g :: g in r.2 && g.thread == t)
    decreases |ws|
  {
    hide Satisfied, Without, Share;
    if ws != [] {
      var set1 := if Satisfied(flags, ws[0]) then Without(flags, ws[0]) else flags;
      AllAccounted(set1, ws[1..], t);
      var r, q := Swept(flags, ws), Swept(set1, ws[1..]);
      assert ws == [ws[0]] + ws[1..];
      if Satisfied(flags, ws[0]) {
        assert r.1 == q.1 && r.2 == [Grant(ws[0].thread, Share(flags, ws[0]))] + q.2;
        assert r.2[0].thread == ws[0].thread;
      } else {
        assert r.1 == [ws[0]] + q.1 && r.2 == q.2;
        assert r.1[0] == ws[0];
      }
    }
  }

  /** What rt_event_recv hands out at once, and the set it leaves. */
  function Immediate(flags: nat, w: Waiter): (nat, nat)
    requires Satisfied(flags, w)
  {
    (And(flags, w.want), if w.clear then AndNot(flags, w.want) else flags)
  }

  /**
   A thread gets the same bits and leaves the same set whether it finds the set satisfying or waits
   for the send that makes it so.
   */
  lemma SameEitherWay(flags: nat, w: Waiter, ws: seq<Waiter>)
    requires Satisfied(flags, w)
    ensures Immediate(flags, w) == (Share(flags, w), Without(flags, w))
    ensures var (got, left) := Immediate(flags, w);
            var r := Swept(left, ws);
            Swept(flags, [w] + ws) == (r.0, r.1, [Grant(w.thread, got)] + r.2)
  {
    assert ([w] + ws)[1..] == ws;
    hide And, AndNot, Bit;
    forall p: nat
      ensures Bit(And(flags, w.want), p) <==> Bit(Share(flags, w), p)
      ensures Bit(AndNot(flags, w.want), p) <==> Bit(AndNot(flags, Share(flags, w)), p)
    {
      AndBits(flags, w.want, p);
      AndBits(w.want, flags, p);
      AndNotBits(flags, w.want, p);
      AndNotBits(flags, Share(flags, w), p);
    }
    SameBits(And(flags, w.want), Share(flags, w));
    SameBits(AndNot(flags, w.want), AndNot(flags, Share(flags, w)));
  }

  // ----- what is delivered, bit by bit -----

  /** A thread is satisfied if every bit it asks for is set, or with the OR option if one of them is. */
  lemma SatisfiedMeans(flags: nat, w: Waiter)
    ensures w.all ==> (Satisfied(flags, w) <==> forall p: nat :: Bit(w.want, p) ==> Bit(flags, p))
    ensures !w.all ==> (Satisfied(flags, w) <==> exists p: nat :: Bit(w.want, p) && Bit(flags, p))
  {
    hide And;
    var both := And(flags, w.want);
    forall p: nat
      ensures Bit(both, p) <==> Bit(flags, p) && Bit(w.want, p)
    {
      AndBits(flags, w.want, p);
    }
    if w.all {
      if forall p: nat :: Bit(w.want, p) ==> Bit(flags, p) {
        SameBits(both, w.want);
      } else {
        var p: nat :| Bit(w.want, p) && !Bit(flags, p);
        assert !Bit(both, p);
        assert exists q: nat :: Bit(w.want, q) && !Bit(flags, q);
      }
    } else if p: nat :| Bit(w.want, p) && Bit(flags, p) {
      BitZero(p);
      assert Bit(both, p);
      assert exists q: nat :: Bit(w.want, q) && Bit(flags, q);
    } else {
      forall p: nat
        ensures Bit(both, p) <==> Bit(0, p)
      {
        BitZero(p);
      }
      SameBits(both, 0);
    }
  }

  /** The bits got, at once or by a send, are those that are set and were asked for; exactly they are cleared. */
  lemma BitsGot(flags: nat, w: Waiter, p: nat)
    requires Satisfied(flags, w)
    ensures Bit(Immediate(flags, w).0, p) <==> Bit(flags, p) && Bit(w.want, p)
    ensures Bit(Share(flags, w), p) <==> Bit(flags, p) && Bit(w.want, p)
    ensures Bit(Immediate(flags, w).1, p) <==> Bit(flags, p) && !(w.clear && Bit(w.want, p))
    ensures Bit(Without(flags, w), p) <==> Bit(flags, p) && !(w.clear && Bit(w.want, p))
  {
    hide Bit, And, AndNot;
    SatisfiedMeans(flags, w);
    AndBits(flags, w.want, p);
    AndBits(w.want, flags, p);
    AndNotBits(flags, w.want, p);
    AndNotBits(flags, Share(flags, w), p);
  }

  /** One of the first `n` granted threads took bit `p` out of the set. */
  ghost predicate Cleared(ws: seq<Waiter>, js: seq<nat>, gs: seq<Grant>, n: nat, p: nat)
    requires n <= |js| == |gs| && forall j :: 0 <= j < |js| ==> js[j] < |ws|
  {
    exists i :: 0 <= i < n && ws[js[i]].clear && Bit(gs[i].bits, p)
  }

  ghost predicate Increasing(js: seq<nat>, n: nat) {
    && (forall j :: 0 <= j < |js| ==> js[j] < n)
    && (forall i, j :: 0 <= i < j < |js| ==> js[i] < js[j])
  }

  /** Grant `j` goes to the thread at place js[j]: the bits it asked for that are set and were not cleared for one before it. */
  ghost predicate Granted(flags: nat, ws: seq<Waiter>, js: seq<nat>, gs: seq<Grant>, j: int)
    requires 0 <= j < |js| == |gs| && Increasing(js, |ws|)
  {
    && gs[j].thread == ws[js[j]].thread && Enough(ws[js[j]], gs[j].bits)
    && forall p: nat :: Bit(gs[j].bits, p) <==> Bit(ws[js[j]].want, p) && Bit(flags, p) && !Cleared(ws, js, gs, j, p)
  }

  /** What is left of the set is what was cleared for nobody. */
  ghost predicate Leaves(flags: nat, ws: seq<Waiter>, js: seq<nat>, gs: seq<Grant>, left: nat)
    requires |js| == |gs| && Increasing(js, |ws|)
  {
    forall p: nat :: Bit(left, p) <==> Bit(flags, p) && !Cleared(ws, js, gs, |js|, p)
  }

  /** The grants go to the threads at the places `js`, in their order, and to each what is due to it. */
  ghost predicate Fair(flags: nat, ws: seq<Waiter>, js: seq<nat>, gs: seq<Grant>, left: nat) {
    && Increasing(js, |ws|) && |gs| == |js|
    && (forall j :: 0 <= j < |js| ==> Granted(flags, ws, js, gs, j))
    && Leaves(flags, ws, js, gs, left)
  }

  /** All that it asked for, or with the OR option at least one bit. */
  ghost predicate Enough(w: Waiter, bits: nat) {
    if w.all then forall p: nat :: Bit(w.want, p) ==> Bit(bits, p) else exists p: nat :: Bit(bits, p)
  }

  function Later(js: seq<nat>): (r: seq<nat>)
    ensures |r| == |js| && forall j :: 0 <= j < |js| ==> r[j] == js[j] + 1
  {
    seq(|js|, j requires 0 <= j < |js| => js[j] + 1)
  }

  lemma LaterIncreasing(js: seq<nat>, n: nat)
    requires n > 0 && Increasing(js, n - 1)
    ensures Increasing(Later(js), n) && Increasing([0] + Later(js), n)
  {
  }

  /** With one more waiting thread in front, which is not granted. */
  lemma PassedOver(flags: nat, ws: seq<Waiter>, js: seq<nat>, gs: seq<Grant>, left: nat)
    requires ws != [] && Fair(flags, ws[1..], js, gs, left)
    ensures Fair(flags, ws, Later(js), gs, left)
  {
    hide Bit, Enough, Increasing, Granted, Cleared;
    LaterIncreasing(js, |ws|);
    forall j | 0 <= j < |js|
      ensures Granted(flags, ws, Later(js), gs, j)
    {
      PassedOverOne(flags, ws, js, gs, j);
    }
    forall p: nat
      ensures Cleared(ws, Later(js), gs, |js|, p) <==> Cleared(ws[1..], js, gs, |js|, p)
    {
      ClearedLater(ws, js, gs, |js|, p);
    }
  }

  lemma PassedOverOne(flags: nat, ws: seq<Waiter>, js: seq<nat>, gs: seq<Grant>, j: int)
    requires ws != [] && |js| == |gs| && 0 <= j < |js| && Increasing(js, |ws| - 1) && Increasing(Later(js), |ws|)
    requires Granted(flags, ws[1..], js, gs, j)
    ensures Granted(flags, ws, Later(js), gs, j)
  {
    hide Bit, Enough, Cleared;
    assert ws[1..][js[j]] == ws[Later(js)[j]];
    forall p: nat
      ensures Cleared(ws, Later(js), gs, j, p) <==> Cleared(ws[1..], js, gs, j, p)
    {
      ClearedLater(ws, js, gs, j, p);
    }
  }

  lemma ClearedLater(ws: seq<Waiter>, js: seq<nat>, gs: seq<Grant>, n: nat, p: nat)
    requires ws != [] && |js| == |gs| && n <= |js| && Increasing(js, |ws| - 1)
    ensures Increasing(Later(js), |ws|)
    ensures Cleared(ws, Later(js), gs, n, p) <==> Cleared(ws[1..], js, gs, n, p)
  {
    hide Bit;
    var js1 := Later(js);
    if Cleared(ws, js1, gs, n, p) {
      var i :| 0 <= i < n && ws[js1[i]].clear && Bit(gs[i].bits, p);
      assert ws[1..][js[i]] == ws[js1[i]];
    }
    if Cleared(ws[1..], js, gs, n, p) {
      var i :| 0 <= i < n && ws[1..][js[i]].clear && Bit(gs[i].bits, p);
      assert ws[1..][js[i]] == ws[js1[i]];
    }
  }

  /** With one more in front, which is. */
  lemma Placed(flags: nat, ws: seq<Waiter>, js: seq<nat>, gs: seq<Grant>, left: nat)
    requires ws != [] && Satisfied(flags, ws[0]) && Fair(Without(flags, ws[0]), ws[1..], js, gs, left)
    ensures Fair(flags, ws, [0] + Later(js), [Grant(ws[0].thread, Share(flags, ws[0]))] + gs, left)
  {
    hide Bit, Enough, Satisfied, Share, Without, Increasing, Granted, Cleared;
    var js1, gs1 := [0] + Later(js), [Grant(ws[0].thread, Share(flags, ws[0]))] + gs;
    LaterIncreasing(js, |ws|);
    PlacedFirst(flags, ws, js1, gs1);
    forall j | 0 <= j < |js1|
      ensures Granted(flags, ws, js1, gs1, j)
    {
      if j > 0 {
        PlacedOne(flags, ws, js, gs, j - 1);
      }
    }
    forall p: nat
      ensures Bit(left, p) <==> Bit(flags, p) && !Cleared(ws, js1, gs1, |js1|, p)
    {
      BitsGot(flags, ws[0], p);
      ClearedOne(ws, js, gs, gs1[0], |js|, p);
    }
  }

  lemma PlacedFirst(flags: nat, ws: seq<Waiter>, js: seq<nat>, gs: seq<Grant>)
    requires ws != [] && Satisfied(flags, ws[0]) && js != [] && js[0] == 0 && |gs| == |js| && Increasing(js, |ws|)
    requires gs[0] == Grant(ws[0].thread, Share(flags, ws[0]))
    ensures Granted(flags, ws, js, gs, 0)
  {
    hide Bit, Enough, Satisfied, Share;
    EnoughShare(flags, ws[0]);
    forall p: nat
      ensures Bit(gs[0].bits, p) <==> Bit(ws[0].want, p) && Bit(flags, p)
    {
      BitsGot(flags, ws[0], p);
    }
    NoneCleared(ws, js, gs);
    hide Cleared;
  }

  lemma PlacedOne(flags: nat, ws: seq<Waiter>, js: seq<nat>, gs: seq<Grant>, j: int)
    requires ws != [] && Satisfied(flags, ws[0]) && |js| == |gs| && 0 <= j < |js|
    requires Increasing(js, |ws| - 1) && Increasing([0] + Later(js), |ws|)
    requires Granted(Without(flags, ws[0]), ws[1..], js, gs, j)
    ensures Granted(flags, ws, [0] + Later(js), [Grant(ws[0].thread, Share(flags, ws[0]))] + gs, j + 1)
  {
    hide Bit, Enough, Satisfied, Share, Without, Cleared;
    var js1, gs1 := [0] + Later(js), [Grant(ws[0].thread, Share(flags, ws[0]))] + gs;
    assert gs1[j + 1] == gs[j] && ws[js1[j + 1]] == ws[1..][js[j]];
    forall p: nat
      ensures Bit(gs[j].bits, p) <==> Bit(ws[1..][js[j]].want, p) && Bit(flags, p) && !Cleared(ws, js1, gs1, j + 1, p)
    {
      BitsGot(flags, ws[0], p);
      ClearedOne(ws, js, gs, gs1[0], j, p);
    }
  }

  lemma NoneCleared(ws: seq<Waiter>, js: seq<nat>, gs: seq<Grant>)
    requires |gs| == |js| && forall j :: 0 <= j < |js| ==> js[j] < |ws|
    ensures forall p: nat :: !Cleared(ws, js, gs, 0, p)
  {
  }

  lemma EnoughShare(flags: nat, w: Waiter)
    requires Satisfied(flags, w)
    ensures Enough(w, Share(flags, w))
  {
    hide Bit, Satisfied, Share;
    SatisfiedMeans(flags, w);
    forall p: nat
      ensures Bit(Share(flags, w), p) <==> Bit(flags, p) && Bit(w.want, p)
    {
      BitsGot(flags, w, p);
    }
    if w.all {
      forall p: nat | Bit(w.want, p)
        ensures Bit(Share(flags, w), p)
      {
        assert Bit(flags, p);
      }
    } else {
      var p: nat :| Bit(w.want, p) && Bit(flags, p);
      assert Bit(Share(flags, w), p);
    }
  }

  lemma ClearedOne(ws: seq<Waiter>, js: seq<nat>, gs: seq<Grant>, g: Grant, n: nat, p: nat)
    requires ws != [] && |js| == |gs| && n <= |js| && Increasing(js, |ws| - 1)
    ensures Increasing([0] + Later(js), |ws|)
    ensures Cleared(ws, [0] + Later(js), [g] + gs, n + 1, p) <==> (ws[0].clear && Bit(g.bits, p)) || Cleared(ws[1..], js, gs, n, p)
  {
    LaterIncreasing(js, |ws|);
    ClearedBy(ws, [0] + Later(js), [g] + gs, ws[1..], js, gs, n, p);
  }

  lemma ClearedBy(ws: seq<Waiter>, js: seq<nat>, gs: seq<Grant>, ws1: seq<Waiter>, js1: seq<nat>, gs1: seq<Grant>, n: nat, p: nat)
    requires Increasing(js, |ws|) && Increasing(js1, |ws1|) && n < |js| == |gs| && |js1| == |gs1| == |js| - 1 && js[0] == 0
    requires forall i :: 0 < i < |js| ==> ws[js[i]] == ws1[js1[i - 1]] && gs[i] == gs1[i - 1]
    ensures Cleared(ws, js, gs, n + 1, p) <==> (ws[0].clear && Bit(gs[0].bits, p)) || Cleared(ws1, js1, gs1, n, p)
  {
    hide Bit;
    if Cleared(ws1, js1, gs1, n, p) {
      var i :| 0 <= i < n && ws1[js1[i]].clear && Bit(gs1[i].bits, p);
      var m := i + 1;
      assert ws[js[m]].clear && Bit(gs[m].bits, p);
    }
    if Cleared(ws, js, gs, n + 1, p) {
      var i :| 0 <= i < n + 1 && ws[js[i]].clear && Bit(gs[i].bits, p);
      if i > 0 {
        var m := i - 1;
        assert ws1[js1[m]].clear && Bit(gs1[m].bits, p);
      }
    }
  }

  lemma NothingIsFair(flags: nat)
    ensures Fair(flags, [], [], [], flags)
  {
    hide Bit;
    NoneCleared([], [], []);
  }

  /** The sweep of a send is fair to the threads that wait. */
  lemma {:induction false} SweepIsFair(flags: nat, ws: seq<Waiter>) returns (js: seq<nat>)
    ensures Fair(flags, ws, js, Swept(flags, ws).2, Swept(flags, ws).0)
    decreases |ws|
  {
    hide Satisfied, Share, Without, Bit, Fair;
    if ws == [] {
      js := [];
      NothingIsFair(flags);
    } else if Satisfied(flags, ws[0]) {
      var rest := SweepIsFair(Without(flags, ws[0]), ws[1..]);
      js := [0] + Later(rest);
      Placed(flags, ws, rest, Swept(Without(flags, ws[0]), ws[1..]).2, Swept(flags, ws).0);
    } else {
      var rest := SweepIsFair(flags, ws[1..]);
      js := Later(rest);
      PassedOver(flags, ws, rest, Swept(flags, ws).2, Swept(flags, ws).0);
    }
  }
}
