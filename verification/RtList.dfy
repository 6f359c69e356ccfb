/**
 The kernel's intrusive doubly linked list.  List nodes are numbered; `next` and `prev` hold the two
 links of every node.  A list is a ring of nodes: its head and then its entries in order.  A node on
 no list is a ring by itself.
 */
module RtList {
  import opened Lists

  datatype Links = Links(next: seq<int>, prev: seq<int>) {

    predicate Has(n: int) {
      0 <= n < |next| && 0 <= n < |prev| && 0 <= next[n] < |prev| && 0 <= prev[n] < |next|
    }

    /** Put node `n` behind node `l`. */
    function InsertAfter(l: int, n: int): Links
      requires Has(l) && 0 <= n < |next| && 0 <= n < |prev|
    {
      var prev1 := prev[next[l] := n];
      var next1 := next[n := next[l]];
      Links(next1[l := n], prev1[n := l])
    }

    /** Put node `n` in front of node `l`. */
    function InsertBefore(l: int, n: int): Links
      requires Has(l) && 0 <= n < |next| && 0 <= n < |prev|
    {
      var next1 := next[prev[l] := n];
      var prev1 := prev[n := prev[l]];
      Links(next1[n := l], prev1[l := n])
    }

    /** Take node `n` out of its list; it points to itself afterwards. */
    function Remove(n: int): Links
      requires Has(n)
    {
      var prev1 := prev[next[n] := prev[n]];
      var next1 := next[prev[n] := next[n]];
      Links(next1[n := n], prev1[n := n])
    }

    predicate IsEmpty(l: int)
      requires 0 <= l < |next|
    {
      next[l] == l
    }
  }

  ghost predicate Within(k: Links, ring: seq<int>) {
    |k.next| == |k.prev| && forall i :: 0 <= i < |ring| ==> 0 <= ring[i] < |k.next|
  }

  ghost predicate LinksAt(k: Links, ring: seq<int>, i: int)
    requires Within(k, ring) && 0 <= i < |ring|
  {
    k.next[ring[i]] == ring[Succ(|ring|, i)] && k.prev[ring[i]] == ring[Pred(|ring|, i)]
  }

  /** `ring` is a list, its head first. */
  ghost predicate IsRing(k: Links, ring: seq<int>) {
    Within(k, ring) && Distinct(ring) && forall i :: 0 <= i < |ring| ==> LinksAt(k, ring, i)
  }

  lemma HasNode(k: Links, ring: seq<int>, i: int)
    requires IsRing(k, ring) && 0 <= i < |ring|
    ensures k.Has(ring[i])
  {
    assert LinksAt(k, ring, i);
  }

  /** Inserting behind entry `i` of a ring. */
  lemma InsertAfterRing(k: Links, ring: seq<int>, i: int, n: int)
    requires IsRing(k, ring) && 0 <= i < |ring| && n !in ring && 0 <= n < |k.next|
    ensures k.Has(ring[i])
    ensures IsRing(k.InsertAfter(ring[i], n), Inserted(ring, i + 1, n))
  {
    HasNode(k, ring, i);
    var k', t := k.InsertAfter(ring[i], n), Inserted(ring, i + 1, n);
    InsertedMembers(ring, i + 1, n);
    assert LinksAt(k, ring, i);
    forall j | 0 <= j < |t|
      ensures 0 <= t[j] < |k'.next|
    {
      assert t[j] in t;
    }
    forall j | 0 <= j < |t|
      ensures LinksAt(k', t, j)
    {
      InsertAfterAt(k, ring, i, n, j);
    }
  }

  lemma InsertAfterAt(k: Links, ring: seq<int>, i: int, n: int, j: int)
    requires IsRing(k, ring) && 0 <= i < |ring| && n !in ring && 0 <= n < |k.next| && 0 <= j <= |ring|
    requires k.Has(ring[i]) && Within(k.InsertAfter(ring[i], n), Inserted(ring, i + 1, n))
    ensures LinksAt(k.InsertAfter(ring[i], n), Inserted(ring, i + 1, n), j)
  {
    hide Inserted, Distinct;
    var m := |ring|;
    var t := Inserted(ring, i + 1, n);
    InsertedAt(ring, i + 1, n, j);
    InsertedAt(ring, i + 1, n, Succ(m + 1, j));
    InsertedAt(ring, i + 1, n, Pred(m + 1, j));
    assert LinksAt(k, ring, i) && ring[Succ(m, i)] in ring;
    if j != i + 1 {
      var o := if j <= i then j else j - 1;
      assert LinksAt(k, ring, o) && ring[o] in ring;
      DistinctAt(ring, o, i);
      DistinctAt(ring, o, Succ(m, i));
    }
  }

  /** Removing entry `i` of a ring. */
  lemma RemoveRing(k: Links, ring: seq<int>, i: int)
    requires IsRing(k, ring) && 0 <= i < |ring|
    ensures k.Has(ring[i])
    ensures IsRing(k.Remove(ring[i]), Removed(ring, i)) && IsRing(k.Remove(ring[i]), [ring[i]])
  {
    HasNode(k, ring, i);
    var k', t := k.Remove(ring[i]), Removed(ring, i);
    RemovedMembers(ring, i);
    forall j | 0 <= j < |t|
      ensures 0 <= t[j] < |k'.next|
    {
      assert t[j] in t;
    }
    forall j | 0 <= j < |t|
      ensures LinksAt(k', t, j)
    {
      RemoveAt(k, ring, i, j);
    }
    assert LinksAt(k', [ring[i]], 0);
  }

  lemma RemoveAt(k: Links, ring: seq<int>, i: int, j: int)
    requires IsRing(k, ring) && 0 <= i < |ring| && 0 <= j < |ring| - 1
    requires k.Has(ring[i]) && Within(k.Remove(ring[i]), Removed(ring, i))
    ensures LinksAt(k.Remove(ring[i]), Removed(ring, i), j)
  {
    hide Removed, Distinct;
    var m := |ring|;
    var o := if j < i then j else j + 1;
    RemovedAt(ring, i, j);
    RemovedAt(ring, i, Succ(m - 1, j));
    RemovedAt(ring, i, Pred(m - 1, j));
    assert LinksAt(k, ring, i) && LinksAt(k, ring, o);
    DistinctAt(ring, o, i);
    DistinctAt(ring, o, Succ(m, i));
    DistinctAt(ring, o, Pred(m, i));
    DistinctAt(ring, i, Succ(m, i));
    DistinctAt(ring, i, Pred(m, i));
  }

  ghost predicate Apart(s: seq<int>, t: seq<int>) {
    forall y :: y in s ==> y !in t
  }

  lemma LinkMembers(k: Links, ring: seq<int>, i: int)
    requires IsRing(k, ring) && 0 <= i < |ring|
    ensures ring[i] in ring && k.next[ring[i]] in ring && k.prev[ring[i]] in ring
  {
    assert LinksAt(k, ring, i);
  }

  /** Inserting into one ring leaves the others alone, unless they hold the node inserted. */
  lemma InsertAfterFrame(k: Links, ring: seq<int>, i: int, n: int, other: seq<int>)
    requires IsRing(k, ring) && 0 <= i < |ring| && 0 <= n < |k.next|
    requires IsRing(k, other) && Apart(ring, other) && n !in other
    ensures k.Has(ring[i]) && IsRing(k.InsertAfter(ring[i], n), other)
  {
    HasNode(k, ring, i);
    LinkMembers(k, ring, i);
    var k' := k.InsertAfter(ring[i], n);
    forall j | 0 <= j < |other|
      ensures LinksAt(k', other, j)
    {
      assert LinksAt(k, other, j) && other[j] in other;
    }
  }

  lemma RemoveFrame(k: Links, ring: seq<int>, i: int, other: seq<int>)
    requires IsRing(k, ring) && 0 <= i < |ring|
    requires IsRing(k, other) && Apart(ring, other)
    ensures k.Has(ring[i]) && IsRing(k.Remove(ring[i]), other)
  {
    HasNode(k, ring, i);
    LinkMembers(k, ring, i);
    var k' := k.Remove(ring[i]);
    forall j | 0 <= j < |other|
      ensures LinksAt(k', other, j)
    {
      assert LinksAt(k, other, j) && other[j] in other;
    }
  }

  /** Inserting in front of a node is inserting behind the node before it; before the head means at the end. */
  lemma InsertBeforeIs(k: Links, ring: seq<int>, i: int, n: int)
    requires IsRing(k, ring) && 0 <= i < |ring| && n !in ring && 0 <= n < |k.next|
    ensures k.Has(ring[i]) && k.Has(ring[Pred(|ring|, i)])
    ensures k.InsertBefore(ring[i], n) == k.InsertAfter(ring[Pred(|ring|, i)], n)
  {
    var p := Pred(|ring|, i);
    HasNode(k, ring, i);
    HasNode(k, ring, p);
    assert LinksAt(k, ring, i) && LinksAt(k, ring, p) && ring[p] in ring && ring[i] in ring;
    assert k.InsertBefore(ring[i], n).next == k.InsertAfter(ring[p], n).next;
    assert k.InsertBefore(ring[i], n).prev == k.InsertAfter(ring[p], n).prev;
  }

  /** A list is empty when its head points to itself. */
  lemma EmptyRing(k: Links, ring: seq<int>)
    requires IsRing(k, ring) && ring != []
    ensures 0 <= ring[0] < |k.next| && (k.IsEmpty(ring[0]) <==> |ring| == 1)
  {
    assert LinksAt(k, ring, 0);
  }

  /** The number of entries of the list with head `l`. */
  method Len(k: Links, l: int, ghost ring: seq<int>) returns (len: int)
    requires IsRing(k, ring) && ring != [] && ring[0] == l
    ensures len == |ring| - 1
  {
    len := 0;
    var p := l;
    assert LinksAt(k, ring, 0);
    while k.next[p] != l
      invariant 0 <= len < |ring| && p == ring[len]
      invariant 0 <= p < |k.next| && k.next[p] == ring[Succ(|ring|, len)]
      decreases |ring| - len
    {
      p := k.next[p];
      len := len + 1;
      assert LinksAt(k, ring, len);
    }
    if len + 1 < |ring| {
      DistinctAt(ring, 0, len + 1);
    }
  }
}
