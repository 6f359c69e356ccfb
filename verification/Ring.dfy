/**
 Circular doubly linked lists threaded through the words of a memory.

 An item is a header of HEADER_WORDS consecutive words.  One of these words (number `nx`) holds
 the address of the next item and another (number `px`) the address of the previous one.  The heap
 keeps two such lists through the same headers: all blocks by address, and the free blocks.
 */
module Ring {
  import opened Lists

  const HEADER_WORDS: int := 6

  /** The header at `a` lies inside a memory of `size` words. */
  ghost predicate Fits(size: int, a: int) {
    0 <= a && a + HEADER_WORDS <= size
  }

  ghost predicate Inside(size: int, items: seq<int>) {
    forall i :: 0 <= i < |items| ==> Fits(size, items[i])
  }

  /** No two headers overlap. */
  ghost predicate Apart(a: int, b: int) {
    a + HEADER_WORDS <= b || b + HEADER_WORDS <= a
  }

  ghost predicate Spaced(items: seq<int>) {
    forall i, j :: 0 <= i < j < |items| ==> Apart(items[i], items[j])
  }

  ghost predicate IsField(f: int) {
    0 <= f < HEADER_WORDS
  }

  /** The two link words of item `i` name its neighbours in `items`. */
  ghost predicate LinksAt(m: seq<int>, nx: int, px: int, items: seq<int>, i: int)
    requires IsField(nx) && IsField(px) && Inside(|m|, items)
    requires 0 <= i < |items|
  {
    && m[items[i] + nx] == items[Succ(|items|, i)]
    && m[items[i] + px] == items[Pred(|items|, i)]
  }

  /** `items`, in this order, is the circular list kept in words `nx` and `px` of the headers. */
  ghost predicate IsRing(m: seq<int>, nx: int, px: int, items: seq<int>) {
    && IsField(nx) && IsField(px) && nx != px
    && Inside(|m|, items)
    && forall i :: 0 <= i < |items| ==> LinksAt(m, nx, px, items, i)
  }

  /** The list with `x` behind its entry `k`. */
  function InsertedAfter(items: seq<int>, k: int, x: int): (s: seq<int>)
    requires 0 <= k < |items|
    ensures |s| == |items| + 1
  {
    Inserted(items, k + 1, x)
  }

  /** The memory after `x` has been linked in after the item `h`. */
  ghost function LinkAfter(m: seq<int>, nx: int, px: int, h: int, x: int): seq<int>
    requires IsField(nx) && IsField(px)
    requires Fits(|m|, h) && Fits(|m|, x) && Fits(|m|, m[h + nx])
  {
    m[x + px := h][x + nx := m[h + nx]][m[h + nx] + px := x][h + nx := x]
  }

  /** The memory after `x` has been unlinked from its neighbours. */
  ghost function Unlink(m: seq<int>, nx: int, px: int, x: int): seq<int>
    requires IsField(nx) && IsField(px)
    requires Fits(|m|, x) && Fits(|m|, m[x + nx]) && Fits(|m|, m[x + px])
  {
    m[m[x + nx] + px := m[x + px]][m[x + px] + nx := m[x + nx]]
  }

  lemma FieldsDiffer(items: seq<int>, i: int, j: int, f: int, g: int)
    requires Spaced(items) && 0 <= i < |items| && 0 <= j < |items|
    requires IsField(f) && IsField(g)
    ensures items[i] + f == items[j] + g <==> i == j && f == g
  {
    if i < j {
      assert Apart(items[i], items[j]);
    } else if j < i {
      assert Apart(items[j], items[i]);
    }
  }

  /** The links of item `i` once `x` stands after item `k`. */
  ghost predicate LinkedAt(m: seq<int>, nx: int, px: int, items: seq<int>, k: int, x: int, i: int)
    requires IsField(nx) && IsField(px) && Inside(|m|, items)
    requires 0 <= k < |items| && 0 <= i < |items|
  {
    && m[items[i] + nx] == (if i == k then x else items[Succ(|items|, i)])
    && m[items[i] + px] == (if i == Succ(|items|, k) then x else items[Pred(|items|, i)])
  }

  /** The links of item `i` once item `k` has been taken out. */
  ghost predicate UnlinkedAt(m: seq<int>, nx: int, px: int, items: seq<int>, k: int, i: int)
    requires IsField(nx) && IsField(px) && Inside(|m|, items)
    requires 0 <= k < |items| && 0 <= i < |items|
  {
    && m[items[i] + nx] == items[if i == Pred(|items|, k) then Succ(|items|, k) else Succ(|items|, i)]
    && m[items[i] + px] == items[if i == Succ(|items|, k) then Pred(|items|, k) else Pred(|items|, i)]
  }

  lemma InsertedRing(m: seq<int>, nx: int, px: int, items: seq<int>, k: int, x: int)
    requires IsField(nx) && IsField(px) && nx != px && Inside(|m|, items)
    requires 0 <= k < |items| && Fits(|m|, x)
    requires m[x + nx] == items[Succ(|items|, k)] && m[x + px] == items[k]
    requires forall i :: 0 <= i < |items| ==> LinkedAt(m, nx, px, items, k, x, i)
    ensures IsRing(m, nx, px, InsertedAfter(items, k, x))
  {
    forall i | 0 <= i <= |items|
      ensures Fits(|m|, InsertedAfter(items, k, x)[i])
    {
      InsertedAt(items, k + 1, x, i);
    }
    forall i | 0 <= i <= |items|
      ensures LinksAt(m, nx, px, InsertedAfter(items, k, x), i)
    {
      InsertedLinks(m, nx, px, items, k, x, i);
    }
  }

  lemma InsertedLinks(m: seq<int>, nx: int, px: int, items: seq<int>, k: int, x: int, i: int)
    requires IsField(nx) && IsField(px) && nx != px && Inside(|m|, items)
    requires 0 <= k < |items| && Fits(|m|, x) && 0 <= i <= |items| && Inside(|m|, InsertedAfter(items, k, x))
    requires m[x + nx] == items[Succ(|items|, k)] && m[x + px] == items[k]
    requires forall j :: 0 <= j < |items| ==> LinkedAt(m, nx, px, items, k, x, j)
    ensures LinksAt(m, nx, px, InsertedAfter(items, k, x), i)
  {
    hide Inserted;
    var n := |items|;
    InsertedAt(items, k + 1, x, i);
    InsertedAt(items, k + 1, x, Succ(n + 1, i));
    InsertedAt(items, k + 1, x, Pred(n + 1, i));
    if i != k + 1 {
      assert LinkedAt(m, nx, px, items, k, x, if i <= k then i else i - 1);
    }
  }

  lemma RemovedRing(m: seq<int>, nx: int, px: int, items: seq<int>, k: int)
    requires IsField(nx) && IsField(px) && nx != px && Inside(|m|, items)
    requires 0 <= k < |items|
    requires forall i :: 0 <= i < |items| ==> UnlinkedAt(m, nx, px, items, k, i)
    ensures IsRing(m, nx, px, Removed(items, k))
  {
    var n, items' := |items|, Removed(items, k);
    forall i | 0 <= i < n - 1
      ensures Fits(|m|, items'[i])
      ensures LinksAt(m, nx, px, items', i)
    {
      assert UnlinkedAt(m, nx, px, items, k, if i < k then i else i + 1);
    }
  }

  lemma LinkAfterWords(m: seq<int>, nx: int, px: int, items: seq<int>, k: int, x: int, i: int)
    requires IsRing(m, nx, px, items) && 0 <= k < |items| && 0 <= i < |items|
    requires Spaced(items) && Fits(|m|, x)
    requires forall j :: 0 <= j < |items| ==> Apart(items[j], x)
    ensures Fits(|m|, items[k]) && Fits(|m|, items[i]) && Fits(|m|, m[items[k] + nx])
    ensures var m' := LinkAfter(m, nx, px, items[k], x);
            && m'[x + nx] == items[Succ(|items|, k)] && m'[x + px] == items[k]
            && LinkedAt(m', nx, px, items, k, x, i)
  {
    var s := Succ(|items|, k);
    assert LinksAt(m, nx, px, items, k) && LinksAt(m, nx, px, items, i);
    assert Apart(items[i], x) && Apart(items[k], x) && Apart(items[s], x);
    FieldsDiffer(items, i, k, nx, nx);
    FieldsDiffer(items, i, s, nx, px);
    FieldsDiffer(items, i, k, px, nx);
    FieldsDiffer(items, i, s, px, px);
    FieldsDiffer(items, k, s, nx, px);
  }

  lemma LinkAfterRing(m: seq<int>, nx: int, px: int, items: seq<int>, k: int, x: int)
    requires IsRing(m, nx, px, items) && 0 <= k < |items|
    requires Spaced(items) && Fits(|m|, x)
    requires forall i :: 0 <= i < |items| ==> Apart(items[i], x)
    ensures Fits(|m|, items[k]) && Fits(|m|, m[items[k] + nx])
    ensures IsRing(LinkAfter(m, nx, px, items[k], x), nx, px, InsertedAfter(items, k, x))
  {
    LinkAfterWords(m, nx, px, items, k, x, k);
    forall i | 0 <= i < |items|
      ensures LinkedAt(LinkAfter(m, nx, px, items[k], x), nx, px, items, k, x, i)
    {
      LinkAfterWords(m, nx, px, items, k, x, i);
    }
    InsertedRing(LinkAfter(m, nx, px, items[k], x), nx, px, items, k, x);
  }

  lemma UnlinkWords(m: seq<int>, nx: int, px: int, items: seq<int>, k: int, i: int)
    requires IsRing(m, nx, px, items) && 0 <= k < |items| && 0 <= i < |items|
    requires Spaced(items)
    ensures Fits(|m|, items[i]) && Fits(|m|, items[k])
    ensures Fits(|m|, m[items[k] + nx]) && Fits(|m|, m[items[k] + px])
    ensures var m' := Unlink(m, nx, px, items[k]);
            UnlinkedAt(m', nx, px, items, k, i)
  {
    var s, p := Succ(|items|, k), Pred(|items|, k);
    assert LinksAt(m, nx, px, items, k) && LinksAt(m, nx, px, items, i);
    FieldsDiffer(items, i, p, nx, nx);
    FieldsDiffer(items, i, s, nx, px);
    FieldsDiffer(items, i, p, px, nx);
    FieldsDiffer(items, i, s, px, px);
    FieldsDiffer(items, p, s, nx, px);
    FieldsDiffer(items, k, s, nx, px);
    FieldsDiffer(items, k, s, px, px);
  }

  lemma UnlinkRing(m: seq<int>, nx: int, px: int, items: seq<int>, k: int)
    requires IsRing(m, nx, px, items) && 0 <= k < |items|
    requires Spaced(items)
    ensures Fits(|m|, items[k]) && Fits(|m|, m[items[k] + nx]) && Fits(|m|, m[items[k] + px])
    ensures IsRing(Unlink(m, nx, px, items[k]), nx, px, Removed(items, k))
  {
    UnlinkWords(m, nx, px, items, k, k);
    forall i | 0 <= i < |items|
      ensures UnlinkedAt(Unlink(m, nx, px, items[k]), nx, px, items, k, i)
    {
      UnlinkWords(m, nx, px, items, k, i);
    }
    RemovedRing(Unlink(m, nx, px, items[k]), nx, px, items, k);
  }

  // ----- what a change of links leaves alone -----

  /** Word `f` of every header in `all` is the same in both memories. */
  ghost predicate SameField(m: seq<int>, m': seq<int>, all: seq<int>, f: int)
    requires IsField(f) && Inside(|m|, all)
  {
    |m'| == |m| && forall y :: y in all ==> m'[y + f] == m[y + f]
  }

  /** Word `a` lies in none of the headers in `all`. */
  ghost predicate Outside(all: seq<int>, a: int) {
    forall y :: y in all ==> a < y || y + HEADER_WORDS <= a
  }

  /** The memories differ at most inside the headers in `all`. */
  ghost predicate SameOutside(m: seq<int>, m': seq<int>, all: seq<int>) {
    |m'| == |m| && forall a :: 0 <= a < |m| && Outside(all, a) ==> m'[a] == m[a]
  }

  lemma MembersApart(all: seq<int>, y: int, z: int)
    requires Spaced(all) && y in all && z in all
    ensures y == z || Apart(y, z)
  {
    var i :| 0 <= i < |all| && all[i] == y;
    var j :| 0 <= j < |all| && all[j] == z;
    if i < j {
      assert Apart(all[i], all[j]);
    } else if j < i {
      assert Apart(all[j], all[i]);
    }
  }

  lemma PokeFrame(m: seq<int>, all: seq<int>, x: int, f: int, v: int, g: int)
    requires Spaced(all) && Inside(|m|, all) && x in all && IsField(f) && IsField(g)
    ensures g != f ==> SameField(m, m[x + f := v], all, g)
    ensures SameOutside(m, m[x + f := v], all)
  {
    forall y | y in all && g != f
      ensures m[x + f := v][y + g] == m[y + g]
    {
      MembersApart(all, x, y);
    }
  }

  lemma LinkAfterFrame(m: seq<int>, nx: int, px: int, h: int, x: int, all: seq<int>, g: int)
    requires Spaced(all) && Inside(|m|, all)
    requires IsField(nx) && IsField(px) && IsField(g)
    requires h in all && x in all && m[h + nx] in all
    ensures g != nx && g != px ==> SameField(m, LinkAfter(m, nx, px, h, x), all, g)
    ensures SameOutside(m, LinkAfter(m, nx, px, h, x), all)
  {
    var n := m[h + nx];
    forall y | y in all && g != nx && g != px
      ensures LinkAfter(m, nx, px, h, x)[y + g] == m[y + g]
    {
      MembersApart(all, h, y);
      MembersApart(all, x, y);
      MembersApart(all, n, y);
    }
  }

  lemma UnlinkFrame(m: seq<int>, nx: int, px: int, x: int, all: seq<int>, g: int)
    requires Spaced(all) && Inside(|m|, all)
    requires IsField(nx) && IsField(px) && IsField(g)
    requires x in all && m[x + nx] in all && m[x + px] in all
    ensures g != nx && g != px ==> SameField(m, Unlink(m, nx, px, x), all, g)
    ensures SameOutside(m, Unlink(m, nx, px, x), all)
  {
    var n, p := m[x + nx], m[x + px];
    forall y | y in all && g != nx && g != px
      ensures Unlink(m, nx, px, x)[y + g] == m[y + g]
    {
      MembersApart(all, n, y);
      MembersApart(all, p, y);
    }
  }

  /** A ring only depends on its own link words. */
  lemma RingFrame(m: seq<int>, m': seq<int>, nx: int, px: int, items: seq<int>, all: seq<int>)
    requires IsRing(m, nx, px, items) && Inside(|m|, all)
    requires forall y :: y in items ==> y in all
    requires SameField(m, m', all, nx) && SameField(m, m', all, px)
    ensures IsRing(m', nx, px, items)
  {
    forall i | 0 <= i < |items|
      ensures LinksAt(m', nx, px, items, i)
    {
      assert LinksAt(m, nx, px, items, i) && items[i] in items;
    }
  }
}
