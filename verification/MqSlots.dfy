/**
 The slots of a message queue: the list of free slots and the list of queued messages, which the
 short locked sections of sending and receiving relink.
 */
module MqSlots {
  import opened Lists

  const NULL: int := -1
  const ENTRY_MAX: int := 0xffff

  /** `next` is the link of each slot; `queue` and `freed` are the two lists as the links form them. */
  datatype Slots = Slots(next: seq<int>, head: int, tail: int, free: int, entry: int, queue: seq<int>, freed: seq<int>) {

    /** Every slot is queued, free, or in the hands of one thread; those are `held`. */
    ghost predicate Ok(held: set<int>) {
      && |next| <= ENTRY_MAX
      && Chain(next, head, queue) && Chain(next, free, freed)
      && tail == Last(queue) && entry == |queue|
      && Distinct(queue) && Distinct(freed)
      && (forall s :: 0 <= s < |next| ==> Home(s, held))
      && (forall s :: s in held ==> 0 <= s < |next|)
    }

    /** Slot `s` is in exactly one place. */
    ghost predicate Home(s: int, held: set<int>) {
      if s in held then s !in queue && s !in freed else (s in queue <==> s !in freed)
    }

    /** A sender takes a free slot. */
    ghost function TakeFree(): Slots
      requires free != NULL && 0 <= free < |next| && freed != []
    {
      this.(free := next[free], freed := freed[1..])
    }

    /** The sender's slot becomes the last of the queue; its link was cleared before. */
    ghost function LinkLast(s: int): Slots
      requires 0 <= s < |next| && (tail != NULL ==> 0 <= tail < |next|)
    {
      this.(next := if tail != NULL then next[tail := s] else next, tail := s,
            head := if head == NULL then s else head,
            entry := if entry < ENTRY_MAX then entry + 1 else entry, queue := queue + [s])
    }

    /** An urgent sender's slot becomes the first of the queue. */
    ghost function LinkFirst(s: int): Slots
      requires 0 <= s < |next|
    {
      this.(next := next[s := head], head := s, tail := if tail == NULL then s else tail,
            entry := if entry < ENTRY_MAX then entry + 1 else entry, queue := [s] + queue)
    }

    /** A receiver takes the first slot of the queue. */
    ghost function TakeFirst(): Slots
      requires 0 <= head < |next| && queue != []
    {
      this.(head := next[head], tail := if tail == head then NULL else tail,
            entry := if entry > 0 then entry - 1 else entry, queue := queue[1..])
    }

    /** The receiver gives its slot back. */
    ghost function GiveBack(s: int): Slots
      requires 0 <= s < |next|
    {
      this.(next := next[s := free], free := s, freed := [s] + freed)
    }
  }

  function Last(list: seq<int>): int {
    if list == [] then NULL else list[|list| - 1]
  }

  /** The links from `first` on form `list`. */
  ghost predicate Chain(next: seq<int>, first: int, list: seq<int>)
    decreases |list|
  {
    if list == [] then first == NULL else
    first == list[0] && 0 <= first < |next| && Chain(next, next[first], list[1..])
  }

  lemma {:induction false} ChainMembers(next: seq<int>, first: int, list: seq<int>)
    requires Chain(next, first, list)
    ensures forall s :: s in list ==> 0 <= s < |next|
    ensures first == NULL <==> list == []
    ensures list != [] ==> Last(list) in list && next[Last(list)] == NULL
    decreases |list|
  {
    if list != [] {
      ChainMembers(next, next[first], list[1..]);
      assert list == [first] + list[1..];
    }
  }

  /** Links of other slots do not matter. */
  lemma {:induction false} ChainFrame(next: seq<int>, first: int, list: seq<int>, s: int, v: int)
    requires Chain(next, first, list) && s !in list && 0 <= s < |next|
    ensures Chain(next[s := v], first, list)
    decreases |list|
  {
    if list != [] {
      assert first in list;
      ChainFrame(next, next[first], list[1..], s, v);
    }
  }

  lemma {:induction false} ChainAppend(next: seq<int>, first: int, list: seq<int>, s: int)
    requires Chain(next, first, list) && list != [] && Distinct(list) && s !in list && 0 <= s < |next| && next[s] == NULL
    ensures 0 <= Last(list) < |next| && Chain(next[Last(list) := s], first, list + [s])
    decreases |list|
  {
    ChainMembers(next, first, list);
    var n := next[Last(list) := s];
    if |list| == 1 {
      assert list + [s] == [first, s];
      assert Chain(n, s, [s]);
      assert (list + [s])[1..] == [s];
    } else {
      assert Last(list[1..]) == Last(list);
      assert list[0] != list[|list| - 1];
      ChainAppend(next, next[first], list[1..], s);
      assert (list + [s])[1..] == list[1..] + [s];
    }
  }

  lemma TakeFreeOk(q: Slots, held: set<int>)
    requires q.Ok(held) && q.free != NULL
    ensures q.freed != [] && q.free == q.freed[0] && 0 <= q.free < |q.next| && q.free !in held
    ensures q.TakeFree().Ok(held + {q.free})
  {
    ChainMembers(q.next, q.free, q.freed);
    var r, h := q.TakeFree(), held + {q.free};
    assert q.freed == [q.free] + q.freed[1..];
    assert q.Home(q.free, held);
    forall s | 0 <= s < |q.next|
      ensures r.Home(s, h)
    {
      assert q.Home(s, held);
    }
  }

  lemma LinkLastOk(q: Slots, held: set<int>, s: int)
    requires q.Ok(held) && s in held && q.next[s] == NULL
    ensures q.tail != NULL ==> 0 <= q.tail < |q.next|
    ensures q.LinkLast(s).Ok(held - {s}) && q.LinkLast(s).entry == q.entry + 1
  {
    ChainMembers(q.next, q.head, q.queue);
    ChainMembers(q.next, q.free, q.freed);
    QueueShort(q, held, s);
    assert q.Home(s, held);
    var r, h := q.LinkLast(s), held - {s};
    if q.queue == [] {
      assert q.queue + [s] == [s];
    } else {
      assert q.Home(q.tail, held) && q.tail in q.queue;
      ChainAppend(q.next, q.head, q.queue, s);
      ChainFrame(q.next, q.free, q.freed, q.tail, s);
    }
    forall u | 0 <= u < |q.next|
      ensures r.Home(u, h)
    {
      assert q.Home(u, held);
    }
  }

  /** With a slot outside the queue, the count of messages cannot overflow. */
  lemma QueueShort(q: Slots, held: set<int>, s: int)
    requires q.Ok(held) && s in held
    ensures q.entry < ENTRY_MAX
  {
    ChainMembers(q.next, q.head, q.queue);
    assert q.Home(s, held);
    DistinctCount(q.queue + [s], |q.next|);
  }

  lemma FirstIn(list: seq<int>)
    ensures list == [] || list[0] in list
  {
  }

  lemma {:induction false} DistinctCount(list: seq<int>, n: int)
    requires Distinct(list) && n >= 0 && forall s :: s in list ==> 0 <= s < n
    ensures |list| <= n
    decreases n
  {
    FirstIn(list);
    if n > 0 {
      if n - 1 in list {
        var i :| 0 <= i < |list| && list[i] == n - 1;
        RemovedMembers(list, i);
        DistinctCount(Removed(list, i), n - 1);
      } else {
        DistinctCount(list, n - 1);
      }
    }
  }

  lemma LinkFirstOk(q: Slots, held: set<int>, s: int)
    requires q.Ok(held) && s in held
    ensures q.LinkFirst(s).Ok(held - {s}) && q.LinkFirst(s).entry == q.entry + 1
  {
    ChainMembers(q.next, q.head, q.queue);
    QueueShort(q, held, s);
    assert q.Home(s, held);
    var r, h := q.LinkFirst(s), held - {s};
    ChainFrame(q.next, q.head, q.queue, s, q.head);
    ChainFrame(q.next, q.free, q.freed, s, q.head);
    assert r.queue[1..] == q.queue;
    forall u | 0 <= u < |q.next|
      ensures r.Home(u, h)
    {
      assert q.Home(u, held);
    }
  }

  lemma TakeFirstOk(q: Slots, held: set<int>)
    requires q.Ok(held) && q.entry != 0
    ensures q.queue != [] && q.head == q.queue[0] && 0 <= q.head < |q.next| && q.head !in held
    ensures q.TakeFirst().Ok(held + {q.head}) && q.TakeFirst().entry == q.entry - 1
  {
    ChainMembers(q.next, q.head, q.queue);
    var r, h := q.TakeFirst(), held + {q.head};
    assert q.queue == [q.head] + q.queue[1..];
    assert q.Home(q.head, held);
    if |q.queue| > 1 {
      assert q.queue[0] != q.queue[|q.queue| - 1];
      assert Last(q.queue[1..]) == Last(q.queue);
    }
    forall s | 0 <= s < |q.next|
      ensures r.Home(s, h)
    {
      assert q.Home(s, held);
    }
  }

  lemma GiveBackOk(q: Slots, held: set<int>, s: int)
    requires q.Ok(held) && s in held
    ensures q.GiveBack(s).Ok(held - {s})
  {
    assert q.Home(s, held);
    var r, h := q.GiveBack(s), held - {s};
    ChainFrame(q.next, q.head, q.queue, s, q.free);
    ChainFrame(q.next, q.free, q.freed, s, q.free);
    assert r.freed[1..] == q.freed;
    forall u | 0 <= u < |q.next|
      ensures r.Home(u, h)
    {
      assert q.Home(u, held);
    }
  }

  /** Clearing the link of a slot in the hands of a thread. */
  lemma ClearOk(q: Slots, held: set<int>, s: int)
    requires q.Ok(held) && s in held
    ensures q.(next := q.next[s := NULL]).Ok(held)
  {
    assert q.Home(s, held);
    ChainFrame(q.next, q.head, q.queue, s, NULL);
    ChainFrame(q.next, q.free, q.freed, s, NULL);
    var r := q.(next := q.next[s := NULL]);
    forall u | 0 <= u < |q.next|
      ensures r.Home(u, held)
    {
      assert q.Home(u, held);
    }
  }
}
