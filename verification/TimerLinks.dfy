/**
 One row of the skip list as linked nodes.  Node t of a row belongs to timer t, node 0 is the row's
 head, and node n+1 is the head of the list that holds a timer while its function runs.
 */
module TimerLinks {
  import opened Lists
  import opened RtList
  import opened TimerRows

  function WithHead(head: int, list: seq<int>): (r: seq<int>)
    ensures |r| == |list| + 1 && r[0] == head
    ensures forall i :: 0 <= i < |list| ==> r[i + 1] == list[i]
    ensures forall y :: y in r <==> y == head || y in list
  {
    var r := [head] + list;
    assert forall i :: 0 <= i < |list| ==> r[i + 1] == list[i];
    r
  }

  /** The row holds `list`, the list of the running timer holds `temp`, all other nodes are on no list. */
  ghost predicate RowOk(k: Links, n: int, list: seq<int>, temp: seq<int>) {
    && n >= 0 && |k.next| == n + 2
    && Members(list, n) && Members(temp, n) && Apart(list, temp)
    && IsRing(k, WithHead(0, list)) && IsRing(k, WithHead(n + 1, temp))
    && forall t :: 1 <= t <= n && t !in list && t !in temp ==> IsRing(k, [t])
  }

  lemma MembersIn(list: seq<int>, n: int)
    requires Members(list, n)
    ensures forall y :: y in list ==> 1 <= y <= n
  {
  }

  lemma RowFacts(k: Links, n: int, list: seq<int>, temp: seq<int>)
    requires RowOk(k, n, list, temp)
    ensures Distinct(list) && Distinct(temp)
    ensures Apart(WithHead(0, list), WithHead(n + 1, temp)) && Apart(WithHead(n + 1, temp), WithHead(0, list))
    ensures forall t :: 1 <= t <= n && t !in list ==> t !in WithHead(0, list)
    ensures forall t :: 1 <= t <= n && t !in temp ==> t !in WithHead(n + 1, temp)
  {
    var r, s := WithHead(0, list), WithHead(n + 1, temp);
    MembersIn(list, n);
    MembersIn(temp, n);
    hide WithHead, IsRing;
    forall i, j | 0 <= i < j < |list|
      ensures list[i] != list[j]
    {
      RingDistinct(k, r);
      DistinctAt(r, i + 1, j + 1);
    }
    forall i, j | 0 <= i < j < |temp|
      ensures temp[i] != temp[j]
    {
      RingDistinct(k, s);
      DistinctAt(s, i + 1, j + 1);
    }
  }

  lemma RingDistinct(k: Links, ring: seq<int>)
    requires IsRing(k, ring)
    ensures Distinct(ring) && |k.next| == |k.prev|
  {
  }

  lemma RemovedHead(head: int, list: seq<int>, i: int)
    requires 0 <= i < |list|
    ensures Removed(WithHead(head, list), i + 1) == WithHead(head, Removed(list, i))
  {
  }

  lemma InsertedHead(head: int, list: seq<int>, i: int, t: int)
    requires 0 <= i <= |list|
    ensures Inserted(WithHead(head, list), i + 1, t) == WithHead(head, Inserted(list, i, t))
  {
  }

  lemma RowRemoveListed(k: Links, n: int, list: seq<int>, temp: seq<int>, t: int, i: int)
    requires RowOk(k, n, list, temp) && 0 <= i < |list| && list[i] == t
    ensures k.Has(t) && RowOk(k.Remove(t), n, Removed(list, i), temp)
  {
    hide WithHead, Removed, IsRing, Distinct;
    RowFacts(k, n, list, temp);
    RemovedMembers(list, i);
    RemovedHead(0, list, i);
    MembersRemoved(list, i, n);
    var r, s := WithHead(0, list), WithHead(n + 1, temp);
    RemoveRing(k, r, i + 1);
    RemoveFrame(k, r, i + 1, s);
    forall u | 1 <= u <= n && u !in list && u !in temp
      ensures IsRing(k.Remove(t), [u])
    {
      RemoveFrame(k, r, i + 1, [u]);
    }
  }

  lemma RowRemoveHeld(k: Links, n: int, list: seq<int>, temp: seq<int>, t: int, i: int)
    requires RowOk(k, n, list, temp) && 0 <= i < |temp| && temp[i] == t
    ensures k.Has(t) && RowOk(k.Remove(t), n, list, Removed(temp, i))
  {
    hide WithHead, Removed, IsRing, Distinct;
    RowFacts(k, n, list, temp);
    RemovedMembers(temp, i);
    RemovedHead(n + 1, temp, i);
    MembersRemoved(temp, i, n);
    var r, s := WithHead(0, list), WithHead(n + 1, temp);
    RemoveRing(k, s, i + 1);
    RemoveFrame(k, s, i + 1, r);
    forall u | 1 <= u <= n && u !in list && u !in temp
      ensures IsRing(k.Remove(t), [u])
    {
      RemoveFrame(k, s, i + 1, [u]);
    }
  }

  lemma RowRemoveAlone(k: Links, n: int, list: seq<int>, temp: seq<int>, t: int)
    requires RowOk(k, n, list, temp) && 1 <= t <= n && t !in list && t !in temp
    ensures k.Has(t) && RowOk(k.Remove(t), n, list, temp)
  {
    hide WithHead, IsRing, Distinct;
    RowFacts(k, n, list, temp);
    var r, s := WithHead(0, list), WithHead(n + 1, temp);
    RemoveRing(k, [t], 0);
    RemoveFrame(k, [t], 0, r);
    RemoveFrame(k, [t], 0, s);
    forall u | 1 <= u <= n && u !in list && u !in temp && u != t
      ensures IsRing(k.Remove(t), [u])
    {
      RemoveFrame(k, [t], 0, [u]);
    }
  }

  lemma MembersRemoved(list: seq<int>, i: int, n: int)
    requires Members(list, n) && 0 <= i < |list|
    ensures Members(Removed(list, i), n)
  {
  }

  /** rt_list_remove on the node of `t`, wherever it is. */
  lemma RowRemove(k: Links, n: int, list: seq<int>, temp: seq<int>, t: int)
    requires RowOk(k, n, list, temp) && 1 <= t <= n
    ensures k.Has(t) && RowOk(k.Remove(t), n, Del(list, t), Del(temp, t))
  {
    RowFacts(k, n, list, temp);
    hide WithHead, Removed, Del, IsRing, Members;
    if t in list {
      var i :| 0 <= i < |list| && list[i] == t;
      DelIs(list, t, i);
      DelAbsent(temp, t);
      RowRemoveListed(k, n, list, temp, t, i);
    } else if t in temp {
      var i :| 0 <= i < |temp| && temp[i] == t;
      DelIs(temp, t, i);
      DelAbsent(list, t);
      RowRemoveHeld(k, n, list, temp, t, i);
    } else {
      DelAbsent(list, t);
      DelAbsent(temp, t);
      RowRemoveAlone(k, n, list, temp, t);
    }
  }

  /** rt_list_insert_after behind entry `i` of the row, for a timer on no list. */
  lemma RowInsert(k: Links, n: int, list: seq<int>, temp: seq<int>, i: int, t: int)
    requires RowOk(k, n, list, temp) && 1 <= t <= n && t !in list && t !in temp && 0 <= i <= |list|
    ensures k.Has(WithHead(0, list)[i]) && RowOk(k.InsertAfter(WithHead(0, list)[i], t), n, Inserted(list, i, t), temp)
  {
    RowFacts(k, n, list, temp);
    InsertedMembers(list, i, t);
    InsertedHead(0, list, i, t);
    var r, s := WithHead(0, list), WithHead(n + 1, temp);
    hide WithHead, Inserted, IsRing;
    MembersInserted(list, i, t, n);
    InsertAfterRing(k, r, i, t);
    InsertAfterFrame(k, r, i, t, s);
    forall u | 1 <= u <= n && u !in list && u !in temp && u != t
      ensures IsRing(k.InsertAfter(r[i], t), [u])
    {
      InsertAfterFrame(k, r, i, t, [u]);
    }
  }

  lemma MembersInserted(list: seq<int>, i: int, t: int, n: int)
    requires Members(list, n) && 1 <= t <= n && 0 <= i <= |list|
    ensures Members(Inserted(list, i, t), n)
  {
  }

  /** A timer on no list goes on the list of the running timer, which was empty. */
  lemma RowHold(k: Links, n: int, list: seq<int>, t: int)
    requires RowOk(k, n, list, []) && 1 <= t <= n && t !in list
    ensures k.Has(n + 1) && RowOk(k.InsertAfter(n + 1, t), n, list, [t])
  {
    RowFacts(k, n, list, []);
    var r, s := WithHead(0, list), WithHead(n + 1, []);
    InsertedHead(n + 1, [], 0, t);
    assert Inserted([], 0, t) == [t];
    hide WithHead, Inserted, IsRing;
    InsertAfterRing(k, s, 0, t);
    InsertAfterFrame(k, s, 0, t, r);
    forall u | 1 <= u <= n && u !in list && u != t
      ensures IsRing(k.InsertAfter(n + 1, t), [u])
    {
      InsertAfterFrame(k, s, 0, t, [u]);
    }
  }

  lemma RowFirst(k: Links, n: int, list: seq<int>, temp: seq<int>)
    requires RowOk(k, n, list, temp)
    ensures n >= 0 && |k.next| == n + 2
    ensures k.IsEmpty(0) <==> list == []
    ensures k.IsEmpty(n + 1) <==> temp == []
    ensures list != [] ==> k.next[0] == list[0]
  {
    EmptyRing(k, WithHead(0, list));
    EmptyRing(k, WithHead(n + 1, temp));
    assert LinksAt(k, WithHead(0, list), 0);
  }

  /** Stepping along the row. */
  lemma RowStep(k: Links, n: int, list: seq<int>, temp: seq<int>, i: int)
    requires RowOk(k, n, list, temp) && 0 <= i <= |list|
    ensures 0 <= WithHead(0, list)[i] < |k.next| && 0 < |k.prev|
    ensures k.next[WithHead(0, list)[i]] == if i < |list| then list[i] else 0
    ensures WithHead(0, list)[i] == k.prev[0] <==> i == |list|
  {
    var r := WithHead(0, list);
    assert LinksAt(k, r, i) && LinksAt(k, r, 0);
    RingDistinct(k, r);
    DistinctAt(r, i, |list|);
  }

  /** Inserting behind the node where the scan for the deadline of `t` stops. */
  lemma RowJoin(k: Links, n: int, row: seq<int>, temp: seq<int>, due: seq<int>, t: int, head: int)
    requires RowOk(k, n, row, temp) && 1 <= t <= n && t !in row && t !in temp && |due| == n + 1
    requires head == WithHead(0, row)[Place(row, due, due[t])]
    ensures k.Has(head) && t < |k.next| && t < |k.prev|
    ensures RowOk(k.InsertAfter(head, t), n, Ins(row, due, t), temp)
  {
    hide WithHead;
    RowInsert(k, n, row, temp, Place(row, due, due[t]), t);
  }

  /** Every node by itself: nothing is listed. */
  lemma AloneRow(k: Links, n: int)
    requires n >= 0 && |k.next| == n + 2 && |k.prev| == n + 2
    requires forall i :: 0 <= i < n + 2 ==> k.next[i] == i && k.prev[i] == i
    ensures RowOk(k, n, [], [])
  {
    assert WithHead(0, []) == [0] && WithHead(n + 1, []) == [n + 1];
  }
}
