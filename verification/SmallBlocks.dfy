/**
 The blocks of the small-memory heap: headers at byte offsets, linked by offset in both directions.
 */
module SmallBlocks {
  import opened Lists

  /** The size of a block header, and the smallest payload, in bytes. */
  const HEADER: int := 12
  const MIN_SIZE: int := 12

  /** The header fields by offset; only those at the offsets of blocks matter. `end` is the header behind the last block. */
  datatype Heap = Heap(next: seq<int>, prev: seq<int>, used: seq<bool>, end: int) {

    ghost predicate Sized() {
      0 <= HEADER <= end && |next| == |prev| == |used| == end + 1
    }

    /** Block `i` of `b` reaches to block `i + 1`, and knows the one before it; nothing relies on what the end says. */
    ghost predicate LinkAt(b: seq<int>, i: int)
      requires Sized() && 0 <= i < |b| - 1 && 0 <= b[i] <= end
    {
      && next[b[i]] == b[i + 1] && b[i] + HEADER <= b[i + 1] && b[i] % 4 == 0
      && prev[b[i]] == if i == 0 then 0 else b[i - 1]
    }

    ghost predicate Tiled(b: seq<int>) {
      && Sized() && |b| >= 2 && b[0] == 0 && b[|b| - 1] == end && end % 4 == 0 && used[end]
      && Inside(b, end + 1) && Ascending(b)
      && (forall i :: 0 <= i < |b| - 1 ==> LinkAt(b, i))
    }

    ghost predicate Coalesced(b: seq<int>)
      requires Tiled(b)
    {
      forall i, j :: 0 <= i < j < |b| && j == i + 1 ==> used[b[i]] || used[b[j]]
    }

    /** `lfree` is the lowest free block, or the end. */
    ghost predicate Lowest(b: seq<int>, lfree: int)
      requires Tiled(b)
    {
      lfree in b && (lfree == end || !used[lfree]) && forall i :: 0 <= i < |b| && b[i] < lfree ==> used[b[i]]
    }
  }

  ghost predicate Inside(b: seq<int>, n: int) {
    forall i :: 0 <= i < |b| ==> 0 <= b[i] < n
  }

  ghost predicate Ascending(b: seq<int>) {
    forall i, j :: 0 <= i < j < |b| ==> b[i] < b[j]
  }

  /** The bytes of the used blocks, headers included. */
  ghost function UsedBytes(b: seq<int>, used: seq<bool>): int
    requires Inside(b, |used|)
  {
    if |b| <= 1 then 0 else (if used[b[0]] then b[1] - b[0] else 0) + UsedBytes(b[1..], used)
  }

  lemma {:induction false} UsedBytesSplit(b: seq<int>, used: seq<bool>, i: int)
    requires 0 <= i < |b| && Inside(b, |used|)
    ensures UsedBytes(b, used) == UsedBytes(b[..i + 1], used) + UsedBytes(b[i..], used)
  {
    if i == 0 {
      assert b[0..] == b;
    } else {
      UsedBytesSplit(b[1..], used, i - 1);
      assert b[1..][..i] == b[1..i + 1] == b[..i + 1][1..];
      assert b[1..][i - 1..] == b[i..];
    }
  }

  /** Only the flags of the blocks but the last matter. */
  lemma {:induction false} UsedBytesFrame(b: seq<int>, used: seq<bool>, after: seq<bool>)
    requires |used| == |after| && Inside(b, |used|)
    requires forall j :: 0 <= j < |b| - 1 ==> used[b[j]] == after[b[j]]
    ensures UsedBytes(b, used) == UsedBytes(b, after)
  {
    if |b| > 1 {
      UsedBytesFrame(b[1..], used, after);
    }
  }

  lemma UsedBytesTwo(x: int, y: int, used: seq<bool>)
    requires 0 <= x < |used| && 0 <= y < |used|
    ensures UsedBytes([x, y], used) == if used[x] then y - x else 0
  {
    assert [x, y][1..] == [y];
  }

  /** A sequence around its `i`-th step. */
  lemma UsedBytesAround(b: seq<int>, used: seq<bool>, i: int)
    requires 0 <= i < |b| - 1 && Inside(b, |used|)
    ensures UsedBytes(b, used)
         == UsedBytes(b[..i + 1], used) + (if used[b[i]] then b[i + 1] - b[i] else 0) + UsedBytes(b[i + 1..], used)
  {
    UsedBytesSplit(b, used, i);
    UsedBytesSplit(b[i..], used, 1);
    assert b[i..][..2] == [b[i], b[i + 1]];
    assert b[i..][1..] == b[i + 1..];
    UsedBytesTwo(b[i], b[i + 1], used);
  }

  /** Setting the flag of block `i`. */
  lemma UsedBytesSet(b: seq<int>, used: seq<bool>, i: int, u: bool)
    requires 0 <= i < |b| - 1 && Inside(b, |used|)
    requires Ascending(b)
    ensures UsedBytes(b, used[b[i] := u])
         == UsedBytes(b, used) + (if u then b[i + 1] - b[i] else 0) - (if used[b[i]] then b[i + 1] - b[i] else 0)
  {
    hide UsedBytes;
    var after := used[b[i] := u];
    UsedBytesAround(b, used, i);
    UsedBytesAround(b, after, i);
    UsedBytesFrame(b[..i + 1], used, after);
    UsedBytesFrame(b[i + 1..], used, after);
  }

  /** Cutting block `i` in two at `p`, the second part free. */
  lemma UsedBytesCut(b: seq<int>, used: seq<bool>, i: int, p: int)
    requires 0 <= i < |b| - 1 && 0 <= p < |used| && Inside(b, |used|)
    requires Ascending(b)
    requires b[i] < p < b[i + 1]
    ensures Inside(Inserted(b, i + 1, p), |used|)
    ensures UsedBytes(Inserted(b, i + 1, p), used[p := false])
         == UsedBytes(b, used) - (if used[b[i]] then b[i + 1] - p else 0)
  {
    hide UsedBytes;
    var c, after := Inserted(b, i + 1, p), used[p := false];
    CutOrder(b, i, p, |used|);
    UsedBytesAround(b, used, i);
    UsedBytesAround(c, after, i);
    UsedBytesAround(c[i + 1..], after, 0);
    assert c[..i + 1] == b[..i + 1] && c[i + 1..][1..] == b[i + 1..] && c[i + 1..][..1] == [p];
    UsedBytesFrame(b[..i + 1], used, after);
    UsedBytesFrame(b[i + 1..], used, after);
    UsedBytesOne(p, after);
  }

  lemma UsedBytesOne(p: int, used: seq<bool>)
    requires 0 <= p < |used|
    ensures UsedBytes([p], used) == 0
  {
  }

  /** Joining the free blocks `i` and `i + 1`. */
  lemma UsedBytesJoin(b: seq<int>, used: seq<bool>, i: int)
    requires 0 <= i < |b| - 2 && Inside(b, |used|) && Ascending(b)
    requires !used[b[i]] && !used[b[i + 1]]
    ensures Inside(Removed(b, i + 1), |used|)
    ensures UsedBytes(Removed(b, i + 1), used) == UsedBytes(b, used)
  {
    hide UsedBytes;
    var c := Removed(b, i + 1);
    JoinOrder(b, i, |used|);
    UsedBytesAround(b, used, i);
    UsedBytesAround(b[i + 1..], used, 0);
    UsedBytesAround(c, used, i);
    assert c[..i + 1] == b[..i + 1] && c[i + 1..] == b[i + 2..] == b[i + 1..][1..] && b[i + 1..][..1] == [b[i + 1]];
    UsedBytesOne(b[i + 1], used);
  }

  // ----- what cutting and joining keep -----

  /** Block `i` is cut at `p`: a header there for the rest, which is free. */
  function Cut(h: Heap, mem: int, p: int): (g: Heap)
    requires h.Sized() && 0 <= mem <= h.end && 0 <= p <= h.end && 0 <= h.next[mem] <= h.end
    ensures g.Sized() && g.end == h.end
  {
    var n := h.next[mem];
    var prev := h.prev[p := mem];
    h.(next := h.next[p := n][mem := p], used := h.used[p := false], prev := if n != h.end then prev[n := p] else prev)
  }

  lemma CutOrder(b: seq<int>, i: int, p: int, n: int)
    requires Ascending(b) && Inside(b, n) && 0 <= i < |b| - 1 && b[i] < p < b[i + 1]
    ensures var c := Inserted(b, i + 1, p);
            Ascending(c) && Inside(c, n) && c[0] == b[0] && c[|c| - 1] == b[|b| - 1] && p !in b
  {
    hide Inserted;
    var c := Inserted(b, i + 1, p);
    InsertedAt(b, i + 1, p, 0);
    InsertedAt(b, i + 1, p, |b|);
    forall j | 0 <= j < |c|
      ensures 0 <= c[j] < n
    {
      InsertedAt(b, i + 1, p, j);
    }
    forall j, k | 0 <= j < k < |c|
      ensures c[j] < c[k]
    {
      InsertedAt(b, i + 1, p, j);
      InsertedAt(b, i + 1, p, k);
    }
    forall j | 0 <= j < |b|
      ensures b[j] != p
    {
      assert j <= i ==> b[j] <= b[i];
    }
  }

  lemma JoinOrder(b: seq<int>, i: int, n: int)
    requires Ascending(b) && Inside(b, n) && 0 <= i < |b| - 2
    ensures var c := Removed(b, i + 1);
            Ascending(c) && Inside(c, n) && c[0] == b[0] && c[|c| - 1] == b[|b| - 1]
  {
    hide Removed;
    var c := Removed(b, i + 1);
    RemovedAt(b, i + 1, 0);
    RemovedAt(b, i + 1, |b| - 2);
    forall j | 0 <= j < |c|
      ensures 0 <= c[j] < n
    {
      RemovedAt(b, i + 1, j);
    }
    forall j, k | 0 <= j < k < |c|
      ensures c[j] < c[k]
    {
      RemovedAt(b, i + 1, j);
      RemovedAt(b, i + 1, k);
    }
  }

  lemma CutTiled(h: Heap, b: seq<int>, i: int, p: int)
    requires h.Tiled(b) && 0 <= i < |b| - 1 && b[i] + HEADER <= p && p + HEADER <= b[i + 1] && p % 4 == 0
    ensures 0 <= b[i] <= h.end && 0 <= p <= h.end && 0 <= h.next[b[i]] <= h.end && p !in b
    ensures Cut(h, b[i], p).Tiled(Inserted(b, i + 1, p))
  {
    hide Inserted;
    assert h.LinkAt(b, i);
    var g, c := Cut(h, b[i], p), Inserted(b, i + 1, p);
    CutOrder(b, i, p, h.end + 1);
    forall j | 0 <= j < |c| - 1
      ensures g.LinkAt(c, j)
    {
      CutLink(h, b, i, p, j);
    }
  }

  lemma CutLink(h: Heap, b: seq<int>, i: int, p: int, j: int)
    requires h.Tiled(b) && 0 <= i < |b| - 1 && b[i] + HEADER <= p && p + HEADER <= b[i + 1] && p % 4 == 0
    requires 0 <= j < |b| && h.next[b[i]] == b[i + 1]
    ensures 0 <= Inserted(b, i + 1, p)[j] <= h.end && Cut(h, b[i], p).LinkAt(Inserted(b, i + 1, p), j)
  {
    hide Inserted;
    InsertedAt(b, i + 1, p, j);
    InsertedAt(b, i + 1, p, j + 1);
    InsertedAt(b, i + 1, p, j - 1);
    assert h.LinkAt(b, i);
    if j != i + 1 {
      assert h.LinkAt(b, if j <= i then j else j - 1);
    }
  }

  /** Block `mem` swallows the one behind it. */
  function Joined(h: Heap, mem: int): (g: Heap)
    requires h.Sized() && 0 <= mem <= h.end && 0 <= h.next[mem] <= h.end && 0 <= h.next[h.next[mem]] <= h.end
    ensures g.Sized() && g.end == h.end && g.used == h.used
  {
    var n := h.next[mem];
    h.(next := h.next[mem := h.next[n]], prev := h.prev[h.next[n] := mem])
  }

  lemma JoinTiled(h: Heap, b: seq<int>, i: int)
    requires h.Tiled(b) && 0 <= i < |b| - 2
    ensures h.next[b[i]] == b[i + 1] && h.next[b[i + 1]] == b[i + 2] && 0 <= b[i + 1] <= h.end && 0 <= b[i + 2] <= h.end
    ensures Joined(h, b[i]).Tiled(Removed(b, i + 1))
  {
    hide Removed;
    assert h.LinkAt(b, i) && h.LinkAt(b, i + 1);
    var g, c := Joined(h, b[i]), Removed(b, i + 1);
    JoinOrder(b, i, h.end + 1);
    forall j | 0 <= j < |c| - 1
      ensures g.LinkAt(c, j)
    {
      JoinLink(h, b, i, j);
    }
  }

  lemma JoinLink(h: Heap, b: seq<int>, i: int, j: int)
    requires h.Tiled(b) && 0 <= i < |b| - 2 && 0 <= j < |b| - 2
    requires h.next[b[i]] == b[i + 1] && h.next[b[i + 1]] == b[i + 2]
    ensures 0 <= Removed(b, i + 1)[j] <= h.end && Joined(h, b[i]).LinkAt(Removed(b, i + 1), j)
  {
    hide Removed;
    RemovedAt(b, i + 1, j);
    RemovedAt(b, i + 1, j + 1);
    RemovedAt(b, i + 1, j - 1);
    assert h.LinkAt(b, i) && h.LinkAt(b, i + 1) && h.LinkAt(b, if j <= i then j else j + 1);
  }

  lemma SetTiled(h: Heap, b: seq<int>, i: int, u: bool)
    requires h.Tiled(b) && 0 <= i < |b| - 1
    ensures 0 <= b[i] <= h.end && h.(used := h.used[b[i] := u]).Tiled(b)
  {
    var g := h.(used := h.used[b[i] := u]);
    forall j | 0 <= j < |b| - 1
      ensures g.LinkAt(b, j)
    {
      assert h.LinkAt(b, j);
    }
  }

  // ----- the blocks in use, as their holders know them -----

  /** Where each used block ends. */
  ghost function Live(h: Heap, b: seq<int>): map<int, int>
    requires h.Sized()
  {
    map p | p in b && 0 <= p < h.end && h.used[p] :: h.next[p]
  }

  lemma CutLive(h: Heap, b: seq<int>, i: int, p: int)
    requires h.Tiled(b) && 0 <= i < |b| - 1 && b[i] + HEADER <= p && p + HEADER <= b[i + 1] && p % 4 == 0
    ensures 0 <= b[i] <= h.end && 0 <= p <= h.end && 0 <= h.next[b[i]] <= h.end
    ensures Live(Cut(h, b[i], p), Inserted(b, i + 1, p)) == if h.used[b[i]] then Live(h, b)[b[i] := p] else Live(h, b)
  {
    hide Inserted, Ascending, Inside;
    CutTiled(h, b, i, p);
    InsertedMembers(b, i + 1, p);
    assert h.LinkAt(b, i) && b[i] in b;
  }

  lemma JoinLive(h: Heap, b: seq<int>, i: int)
    requires h.Tiled(b) && 0 <= i < |b| - 2 && !h.used[b[i]] && !h.used[b[i + 1]]
    ensures 0 <= h.next[b[i]] <= h.end && 0 <= h.next[h.next[b[i]]] <= h.end
    ensures Live(Joined(h, b[i]), Removed(b, i + 1)) == Live(h, b)
  {
    JoinTiled(h, b, i);
    assert Distinct(b);
    RemovedMembers(b, i + 1);
    hide Removed;
  }

  // ----- joining free neighbours -----

  /** No two free blocks are adjacent, except perhaps at block `k`. */
  ghost predicate CoalescedBut(h: Heap, b: seq<int>, k: int)
    requires h.Tiled(b)
  {
    forall i, j :: 0 <= i < j < |b| && j == i + 1 && i != k && j != k ==> h.used[b[i]] || h.used[b[j]]
  }

  /** Block `k` swallows a free block behind it; the next one is then in use. */
  lemma JoinAhead(h: Heap, b: seq<int>, k: int)
    requires h.Tiled(b) && 0 <= k < |b| - 2 && !h.used[b[k + 1]] && CoalescedBut(h, b, k)
    ensures 0 <= h.next[b[k]] <= h.end && 0 <= h.next[h.next[b[k]]] <= h.end
    ensures Joined(h, b[k]).Tiled(Removed(b, k + 1)) && CoalescedBut(Joined(h, b[k]), Removed(b, k + 1), k)
    ensures h.used[Removed(b, k + 1)[k + 1]] && Removed(b, k + 1)[k] == b[k]
  {
    hide Removed;
    JoinTiled(h, b, k);
    RemovedAt(b, k + 1, k);
    RemovedAt(b, k + 1, k + 1);
    var c := Removed(b, k + 1);
    forall i, j | 0 <= i < j < |c| && j == i + 1 && i != k && j != k
      ensures h.used[c[i]] || h.used[c[j]]
    {
      RemovedAt(b, k + 1, i);
      RemovedAt(b, k + 1, j);
    }
  }

  /** A free block before block `k` swallows it. */
  lemma JoinBehind(h: Heap, b: seq<int>, k: int)
    requires h.Tiled(b) && 0 < k < |b| - 1 && !h.used[b[k - 1]] && h.used[b[k + 1]] && CoalescedBut(h, b, k)
    ensures 0 <= h.next[b[k - 1]] <= h.end && 0 <= h.next[h.next[b[k - 1]]] <= h.end
    ensures Joined(h, b[k - 1]).Tiled(Removed(b, k)) && Joined(h, b[k - 1]).Coalesced(Removed(b, k))
  {
    hide Removed;
    JoinTiled(h, b, k - 1);
    var c := Removed(b, k);
    forall i, j | 0 <= i < j < |c| && j == i + 1
      ensures h.used[c[i]] || h.used[c[j]]
    {
      RemovedAt(b, k, i);
      RemovedAt(b, k, j);
    }
  }

  lemma JoinLowest(h: Heap, b: seq<int>, i: int, lfree: int)
    requires h.Tiled(b) && h.Lowest(b, lfree) && 0 <= i < |b| - 2 && !h.used[b[i]] && !h.used[b[i + 1]]
    ensures lfree <= b[i] && 0 <= h.next[b[i]] <= h.end && 0 <= h.next[h.next[b[i]]] <= h.end
    ensures Joined(h, b[i]).Tiled(Removed(b, i + 1)) && Joined(h, b[i]).Lowest(Removed(b, i + 1), lfree)
  {
    hide Removed;
    JoinTiled(h, b, i);
    var c := Removed(b, i + 1);
    var f :| 0 <= f < |b| && b[f] == lfree;
    RemovedAt(b, i + 1, f);
    assert f <= i;
    assert c[f] == lfree;
    forall j | 0 <= j < |c| && c[j] < lfree
      ensures h.used[c[j]]
    {
      RemovedAt(b, i + 1, j);
    }
  }

  /** A block cut off a used one: it is free, and its neighbours may be. */
  lemma CutPairs(h: Heap, b: seq<int>, i: int, p: int)
    requires h.Tiled(b) && h.Coalesced(b) && 0 <= i < |b| - 1 && b[i] + HEADER <= p && p + HEADER <= b[i + 1] && p % 4 == 0
    ensures 0 <= b[i] <= h.end && 0 <= p <= h.end && 0 <= h.next[b[i]] <= h.end
    ensures Cut(h, b[i], p).Tiled(Inserted(b, i + 1, p)) && CoalescedBut(Cut(h, b[i], p), Inserted(b, i + 1, p), i + 1)
    ensures Inserted(b, i + 1, p)[i] == b[i] && Inserted(b, i + 1, p)[i + 1] == p && Inserted(b, i + 1, p)[i + 2] == b[i + 1]
  {
    hide Inserted;
    CutTiled(h, b, i, p);
    var g, c := Cut(h, b[i], p), Inserted(b, i + 1, p);
    InsertedAt(b, i + 1, p, i);
    InsertedAt(b, i + 1, p, i + 1);
    InsertedAt(b, i + 1, p, i + 2);
    forall j, k | 0 <= j < k < |c| && k == j + 1 && j != i + 1 && k != i + 1
      ensures g.used[c[j]] || g.used[c[k]]
    {
      InsertedAt(b, i + 1, p, j);
      InsertedAt(b, i + 1, p, k);
    }
  }

  /** With a lower free block than before, that is the lowest; otherwise nothing changes. */
  lemma CutLowest(h: Heap, b: seq<int>, i: int, p: int, lfree: int)
    requires h.Tiled(b) && h.Lowest(b, lfree) && 0 <= i < |b| - 1 && b[i] + HEADER <= p && p + HEADER <= b[i + 1] && p % 4 == 0
    ensures 0 <= b[i] <= h.end && 0 <= p <= h.end && 0 <= h.next[b[i]] <= h.end
    ensures var g, c := Cut(h, b[i], p), Inserted(b, i + 1, p);
            g.Tiled(c) && g.Lowest(c, if p < lfree then p else lfree)
  {
    CutTiled(h, b, i, p);
    InsertedMembers(b, i + 1, p);
    hide Inserted;
    var g, c := Cut(h, b[i], p), Inserted(b, i + 1, p);
    forall j | 0 <= j < |c| && c[j] < lfree && c[j] != p
      ensures g.used[c[j]]
    {
      InsertedAt(b, i + 1, p, j);
    }
  }
}
