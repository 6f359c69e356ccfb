/**
 The wait-and-retry protocol that mailboxes, message queues and memory pools share.  A thread that
 finds no token waits; who adds a token wakes the first waiting thread, which then tries again and
 may find the token gone.
 */
module Gates {
  import opened Lists

  /** `woken` are the threads that were woken and have not yet run again. */
  datatype Gate = Gate(tokens: int, waiting: seq<int>, woken: set<int>) {

    /** No wakeup is lost: while threads wait, every token has a woken thread that will come for it. */
    ghost predicate NoneLost() {
      waiting != [] ==> tokens <= |woken|
    }

    ghost predicate Ok() {
      tokens >= 0 && Distinct(waiting) && (forall t :: t in waiting ==> t !in woken) && NoneLost()
    }

    /** Add a token and wake the first thread that waits. */
    ghost function Put(): (r: Gate)
      requires Ok()
      ensures r.Ok() && r.tokens == tokens + 1
      ensures r.waiting == if waiting == [] then [] else waiting[1..]
      ensures r.woken == if waiting == [] then woken else woken + {waiting[0]}
    {
      if waiting == [] then this.(tokens := tokens + 1) else
      PutOk();
      Gate(tokens + 1, waiting[1..], woken + {waiting[0]})
    }

    lemma PutOk()
      requires Ok() && waiting != []
      ensures Gate(tokens + 1, waiting[1..], woken + {waiting[0]}).Ok()
    {
      var t := waiting[0];
      assert t in waiting && t !in woken;
      assert |woken + {t}| == |woken| + 1;
    }

    /** Thread `t`, woken or not, takes a token. */
    ghost function Take(t: int): (r: Gate)
      requires Ok() && tokens > 0 && t !in waiting
      ensures r.Ok() && r == Gate(tokens - 1, waiting, woken - {t})
    {
      TakeOk(t);
      Gate(tokens - 1, waiting, woken - {t})
    }

    lemma TakeOk(t: int)
      requires Ok() && tokens > 0 && t !in waiting
      ensures Gate(tokens - 1, waiting, woken - {t}).Ok()
    {
      if t in woken {
        assert |woken - {t}| == |woken| - 1;
      } else {
        assert woken - {t} == woken;
      }
    }

    /** Thread `t` finds no token and waits, at place `i`. */
    ghost function Wait(t: int, i: int): (r: Gate)
      requires Ok() && tokens == 0 && t !in waiting && 0 <= i <= |waiting|
      ensures r.Ok() && r == Gate(0, Inserted(waiting, i, t), woken - {t})
    {
      InsertedMembers(waiting, i, t);
      Gate(0, Inserted(waiting, i, t), woken - {t})
    }

    /** Thread `t` finds no token and gives up. */
    ghost function GiveUp(t: int): (r: Gate)
      requires Ok() && tokens == 0 && t !in waiting
      ensures r.Ok() && r == this.(woken := woken - {t})
    {
      this.(woken := woken - {t})
    }

    /** The time of a waiting thread runs out. */
    ghost function Expire(t: int): (r: Gate)
      requires Ok() && t in waiting
      ensures r.Ok() && r == this.(waiting := Del(waiting, t))
      ensures forall u :: u in r.waiting <==> u in waiting && u != t
    {
      DelHas(waiting, t);
      this.(waiting := Del(waiting, t))
    }
  }

  /** Who is waiting and who is woken after a token was added. */
  lemma WakesFirst(g: Gate)
    requires g.Ok()
    ensures g.waiting != [] ==> g.waiting[0] in g.waiting && g.waiting[0] !in g.woken
    ensures forall u :: u in g.Put().waiting <==> u in g.waiting && u != g.waiting[0]
    ensures forall u :: u in g.Put().woken <==> u in g.woken || (g.waiting != [] && u == g.waiting[0])
  {
    if g.waiting != [] {
      assert g.waiting == [g.waiting[0]] + g.waiting[1..];
    }
  }

  /** What went in before, `a`, is what came out, `b`, and what is inside, `d`; a step takes `t` out and puts `l` in. */
  lemma Regroup<T>(a: seq<T>, b: seq<T>, d: seq<T>, d1: seq<T>, t: seq<T>, l: seq<T>)
    requires a == b + d && t + d1 == d + l
    ensures a + l == b + t + d1
  {
    assert a + l == b + (d + l);
    assert b + t + d1 == b + (t + d1);
  }
}
