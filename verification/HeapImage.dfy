/**
 The memory image of a heap: what the words of the pool must hold, and how the two lists through
 the block headers change.  All addresses and sizes are counted in words of four bytes.
 */
module HeapImage {
  import opened Lists
  import opened Ring
  import opened HeapLayout

  /** Addresses and sizes are 32-bit numbers of bytes. */
  const TWO32: int := 0x1_0000_0000

  const NULL: int := 0

  // the words of a block header
  const MAGIC: int := 0
  const POOL: int := 1
  const NEXT: int := 2
  const PREV: int := 3
  const NEXT_FREE: int := 4
  const PREV_FREE: int := 5

  const FREE_MAGIC: int := 0x1ea01ea0
  const USED_MAGIC: int := 0x1ea01ea1

  // the lowest bit of a magic word is the USED bit

  predicate IsUsed(w: int) {
    w % 2 == 1
  }

  function ClearUsed(w: int): int {
    if IsUsed(w) then w - 1 else w
  }

  /** A pool of `size` words at `start`; the free list's own header lies outside of it. */
  datatype Pool = Pool(start: int, size: int, header: int, id: int) {
    ghost predicate Ok(ramSize: int) {
      && 0 < start && 2 * HEADER_WORDS <= size && start + size <= ramSize && 4 * ramSize <= TWO32
      && 0 < header && Fits(ramSize, header)
      && (header + HEADER_WORDS <= start || start + size <= header)
    }

    function Tail(): int {
      start + size - HEADER_WORDS
    }
  }

  ghost predicate Ordered(blocks: seq<int>) {
    forall i, j :: 0 <= i < j < |blocks| ==> blocks[i] + HEADER_WORDS <= blocks[j]
  }

  /** Block headers from the first word of the pool to the tail header that ends it. */
  ghost predicate Tiles(p: Pool, blocks: seq<int>) {
    && |blocks| >= 2
    && blocks[0] == p.start && blocks[|blocks| - 1] == p.Tail()
    && Ordered(blocks)
  }

  ghost predicate Subset(s: seq<int>, t: seq<int>) {
    forall y :: y in s ==> y in t
  }

  function SegAt(m: seq<int>, blocks: seq<int>, i: int): Seg
    requires 0 <= i < |blocks| - 1 && 0 <= blocks[i] < |m|
  {
    Seg(blocks[i + 1] - blocks[i] - HEADER_WORDS, m[blocks[i] + MAGIC] == USED_MAGIC)
  }

  ghost function Layout(m: seq<int>, blocks: seq<int>): (s: seq<Seg>)
    requires Inside(|m|, blocks)
    ensures |s| == if |blocks| == 0 then 0 else |blocks| - 1
  {
    seq(if |blocks| == 0 then 0 else |blocks| - 1,
        i requires 0 <= i < |blocks| - 1 => assert Fits(|m|, blocks[i]); SegAt(m, blocks, i))
  }

  /** Every header carries its magic word and its pool, and the tail counts as used. */
  ghost predicate Marked(m: seq<int>, p: Pool, blocks: seq<int>)
    requires Inside(|m|, blocks)
  {
    && (forall y :: y in blocks ==> m[y + MAGIC] == FREE_MAGIC || m[y + MAGIC] == USED_MAGIC)
    && (forall y :: y in blocks ==> m[y + POOL] == p.id)
    && (p.Tail() in blocks ==> m[p.Tail() + MAGIC] == USED_MAGIC)
  }

  /** `free` is the free list's header followed by exactly the blocks not in use, each once. */
  ghost predicate ListsFree(m: seq<int>, p: Pool, blocks: seq<int>, free: seq<int>)
    requires Inside(|m|, blocks)
  {
    && |free| >= 1 && free[0] == p.header
    && Distinct(free)
    && (forall y :: y in free && y != p.header ==> y in blocks && m[y + MAGIC] == FREE_MAGIC)
    && (forall y :: y in blocks && m[y + MAGIC] == FREE_MAGIC ==> y in free)
  }

  /** The heap invariant. */
  ghost predicate WellFormed(m: seq<int>, p: Pool, blocks: seq<int>, free: seq<int>) {
    && p.Ok(|m|)
    && Tiles(p, blocks)
    && IsRing(m, NEXT, PREV, blocks)
    && IsRing(m, NEXT_FREE, PREV_FREE, free)
    && Marked(m, p, blocks)
    && ListsFree(m, p, blocks, free)
    && Coalesced(Layout(m, blocks))
  }

  // ----- both lists while they are being changed -----

  /** Two lists through the headers in `all`. */
  ghost predicate TwoRings(m: seq<int>, all: seq<int>, blocks: seq<int>, free: seq<int>) {
    && Spaced(all) && Inside(|m|, all)
    && Subset(blocks, all) && Subset(free, all)
    && Distinct(blocks) && Distinct(free)
    && IsRing(m, NEXT, PREV, blocks)
    && IsRing(m, NEXT_FREE, PREV_FREE, free)
  }

  /** A change of links only: magic words, pool words and everything outside the headers stay. */
  ghost predicate LinksOnly(m: seq<int>, m': seq<int>, all: seq<int>)
    requires Inside(|m|, all)
  {
    && SameField(m, m', all, MAGIC)
    && SameField(m, m', all, POOL)
    && SameOutside(m, m', all)
  }

  lemma DistinctSpaced(items: seq<int>, all: seq<int>)
    requires Spaced(all) && Subset(items, all) && Distinct(items)
    ensures Spaced(items)
  {
    forall i, j | 0 <= i < j < |items|
      ensures Apart(items[i], items[j])
    {
      assert items[i] in items && items[j] in items;
      MembersApart(all, items[i], items[j]);
    }
  }

  lemma NewApart(items: seq<int>, all: seq<int>, x: int)
    requires Spaced(all) && Subset(items, all) && x in all && x !in items
    ensures forall i :: 0 <= i < |items| ==> Apart(items[i], x)
  {
    forall i | 0 <= i < |items|
      ensures Apart(items[i], x)
    {
      assert items[i] in items;
      MembersApart(all, items[i], x);
    }
  }

  lemma InsertedAfterMembers(s: seq<int>, k: int, x: int)
    requires 0 <= k < |s|
    ensures forall y :: y in InsertedAfter(s, k, x) <==> y in s || y == x
    ensures Distinct(s) && x !in s ==> Distinct(InsertedAfter(s, k, x))
  {
    InsertedMembers(s, k + 1, x);
  }

  lemma InsertBlock(m: seq<int>, all: seq<int>, blocks: seq<int>, free: seq<int>, k: int, x: int)
    requires TwoRings(m, all, blocks, free)
    requires 0 <= k < |blocks| && x in all && x !in blocks
    ensures Fits(|m|, blocks[k]) && Fits(|m|, x) && Fits(|m|, m[blocks[k] + NEXT])
    ensures Apart(blocks[k], x)
    ensures TwoRings(LinkAfter(m, NEXT, PREV, blocks[k], x), all, InsertedAfter(blocks, k, x), free)
    ensures LinksOnly(m, LinkAfter(m, NEXT, PREV, blocks[k], x), all)
  {
    hide InsertedAfter, LinkAfter, Spaced;
    DistinctSpaced(blocks, all);
    NewApart(blocks, all, x);
    LinkAfterRing(m, NEXT, PREV, blocks, k, x);
    InsertedAfterMembers(blocks, k, x);
    assert LinksAt(m, NEXT, PREV, blocks, k);
    LinksAreMembers(m, NEXT, PREV, blocks, k);
    var m' := LinkAfter(m, NEXT, PREV, blocks[k], x);
    LinkAfterFrame(m, NEXT, PREV, blocks[k], x, all, MAGIC);
    LinkAfterFrame(m, NEXT, PREV, blocks[k], x, all, POOL);
    LinkAfterFrame(m, NEXT, PREV, blocks[k], x, all, NEXT_FREE);
    LinkAfterFrame(m, NEXT, PREV, blocks[k], x, all, PREV_FREE);
    RingFrame(m, m', NEXT_FREE, PREV_FREE, free, all);
  }

  lemma LinksAreMembers(m: seq<int>, nx: int, px: int, items: seq<int>, k: int)
    requires IsRing(m, nx, px, items) && 0 <= k < |items|
    ensures items[k] in items && m[items[k] + nx] in items && m[items[k] + px] in items
  {
    assert LinksAt(m, nx, px, items, k);
  }

  lemma RemoveBlock(m: seq<int>, all: seq<int>, blocks: seq<int>, free: seq<int>, k: int)
    requires TwoRings(m, all, blocks, free) && 0 <= k < |blocks|
    ensures Fits(|m|, blocks[k]) && Fits(|m|, m[blocks[k] + NEXT]) && Fits(|m|, m[blocks[k] + PREV])
    ensures blocks[k] == m[blocks[k] + NEXT] || Apart(blocks[k], m[blocks[k] + NEXT])
    ensures TwoRings(Unlink(m, NEXT, PREV, blocks[k]), all, Removed(blocks, k), free)
    ensures LinksOnly(m, Unlink(m, NEXT, PREV, blocks[k]), all)
  {
    hide Removed, Unlink, Spaced;
    DistinctSpaced(blocks, all);
    UnlinkRing(m, NEXT, PREV, blocks, k);
    RemovedMembers(blocks, k);
    LinksAreMembers(m, NEXT, PREV, blocks, k);
    MembersApart(all, blocks[k], m[blocks[k] + NEXT]);
    var m' := Unlink(m, NEXT, PREV, blocks[k]);
    UnlinkFrame(m, NEXT, PREV, blocks[k], all, MAGIC);
    UnlinkFrame(m, NEXT, PREV, blocks[k], all, POOL);
    UnlinkFrame(m, NEXT, PREV, blocks[k], all, NEXT_FREE);
    UnlinkFrame(m, NEXT, PREV, blocks[k], all, PREV_FREE);
    RingFrame(m, m', NEXT_FREE, PREV_FREE, free, all);
  }

  lemma InsertFree(m: seq<int>, all: seq<int>, blocks: seq<int>, free: seq<int>, x: int)
    requires TwoRings(m, all, blocks, free)
    requires free != [] && x in all && x !in free
    ensures Fits(|m|, free[0]) && Fits(|m|, x) && Fits(|m|, m[free[0] + NEXT_FREE])
    ensures Apart(free[0], x)
    ensures TwoRings(LinkAfter(m, NEXT_FREE, PREV_FREE, free[0], x), all, blocks, InsertedAfter(free, 0, x))
    ensures LinksOnly(m, LinkAfter(m, NEXT_FREE, PREV_FREE, free[0], x), all)
  {
    hide InsertedAfter, LinkAfter, Spaced;
    DistinctSpaced(free, all);
    NewApart(free, all, x);
    LinkAfterRing(m, NEXT_FREE, PREV_FREE, free, 0, x);
    InsertedAfterMembers(free, 0, x);
    LinksAreMembers(m, NEXT_FREE, PREV_FREE, free, 0);
    var m' := LinkAfter(m, NEXT_FREE, PREV_FREE, free[0], x);
    LinkAfterFrame(m, NEXT_FREE, PREV_FREE, free[0], x, all, MAGIC);
    LinkAfterFrame(m, NEXT_FREE, PREV_FREE, free[0], x, all, POOL);
    LinkAfterFrame(m, NEXT_FREE, PREV_FREE, free[0], x, all, NEXT);
    LinkAfterFrame(m, NEXT_FREE, PREV_FREE, free[0], x, all, PREV);
    RingFrame(m, m', NEXT, PREV, blocks, all);
  }

  lemma RemoveFree(m: seq<int>, all: seq<int>, blocks: seq<int>, free: seq<int>, k: int)
    requires TwoRings(m, all, blocks, free) && 0 <= k < |free|
    ensures Fits(|m|, free[k]) && Fits(|m|, m[free[k] + NEXT_FREE]) && Fits(|m|, m[free[k] + PREV_FREE])
    ensures free[k] == m[free[k] + NEXT_FREE] || Apart(free[k], m[free[k] + NEXT_FREE])
    ensures TwoRings(Unlink(m, NEXT_FREE, PREV_FREE, free[k]), all, blocks, Removed(free, k))
    ensures LinksOnly(m, Unlink(m, NEXT_FREE, PREV_FREE, free[k]), all)
  {
    hide Removed, Unlink, Spaced;
    DistinctSpaced(free, all);
    UnlinkRing(m, NEXT_FREE, PREV_FREE, free, k);
    RemovedMembers(free, k);
    LinksAreMembers(m, NEXT_FREE, PREV_FREE, free, k);
    MembersApart(all, free[k], m[free[k] + NEXT_FREE]);
    var m' := Unlink(m, NEXT_FREE, PREV_FREE, free[k]);
    UnlinkFrame(m, NEXT_FREE, PREV_FREE, free[k], all, MAGIC);
    UnlinkFrame(m, NEXT_FREE, PREV_FREE, free[k], all, POOL);
    UnlinkFrame(m, NEXT_FREE, PREV_FREE, free[k], all, NEXT);
    UnlinkFrame(m, NEXT_FREE, PREV_FREE, free[k], all, PREV);
    RingFrame(m, m', NEXT, PREV, blocks, all);
  }

  // ----- from the lists to the layout -----

  /** Blocks lo+1 up to hi-1 give way to the headers in `xs`. */
  function Spliced(blocks: seq<int>, lo: int, hi: int, xs: seq<int>): (s: seq<int>)
    requires 0 <= lo < hi <= |blocks|
    ensures |s| == |blocks| - (hi - lo - 1) + |xs|
  {
    blocks[..lo + 1] + xs + blocks[hi..]
  }

  lemma SplicedMembers(blocks: seq<int>, lo: int, hi: int, xs: seq<int>)
    requires 0 <= lo < hi <= |blocks| && Ordered(blocks)
    ensures forall y :: y in Spliced(blocks, lo, hi, xs) <==>
              y in xs || (y in blocks && !(blocks[lo] < y && (hi < |blocks| ==> y < blocks[hi])))
  {
    var t := Spliced(blocks, lo, hi, xs);
    forall y | y in t
      ensures y in xs || (y in blocks && !(blocks[lo] < y && (hi < |blocks| ==> y < blocks[hi])))
    {
      var i :| 0 <= i < |t| && t[i] == y;
    }
    forall y | y in xs
      ensures y in t
    {
      var i :| 0 <= i < |xs| && xs[i] == y;
      assert t[lo + 1 + i] == y;
    }
    forall y | y in blocks && !(blocks[lo] < y && (hi < |blocks| ==> y < blocks[hi]))
      ensures y in t
    {
      var i :| 0 <= i < |blocks| && blocks[i] == y;
      if i <= lo {
        assert t[i] == y;
      } else {
        assert t[i - hi + lo + 1 + |xs|] == y;
      }
    }
  }

  lemma SplicedTiles(p: Pool, blocks: seq<int>, lo: int, hi: int, xs: seq<int>)
    requires Tiles(p, blocks) && 0 <= lo < hi < |blocks|
    requires |xs| <= 1
    requires |xs| == 1 ==> blocks[lo] + HEADER_WORDS <= xs[0] && xs[0] + HEADER_WORDS <= blocks[hi]
    ensures Tiles(p, Spliced(blocks, lo, hi, xs))
  {
    var t := Spliced(blocks, lo, hi, xs);
    forall i, j | 0 <= i < j < |t|
      ensures t[i] + HEADER_WORDS <= t[j]
    {
      var d := hi - lo - 1 - |xs|;
      assert i <= lo ==> t[i] == blocks[i];
      assert j <= lo ==> t[j] == blocks[j];
      assert i > lo + |xs| ==> t[i] == blocks[i + d];
      assert j > lo + |xs| ==> t[j] == blocks[j + d];
    }
  }

  /** The words from one header to another are those of the segments between them. */
  lemma {:induction false} SpanWords(m: seq<int>, blocks: seq<int>, lo: int, hi: int)
    requires Inside(|m|, blocks) && 0 <= lo <= hi < |blocks|
    ensures AllWords(Layout(m, blocks)[lo..hi]) == blocks[hi] - blocks[lo]
    decreases hi - lo
  {
    var s := Layout(m, blocks)[lo..hi];
    if lo < hi {
      SpanWords(m, blocks, lo + 1, hi);
      assert s[1..] == Layout(m, blocks)[lo + 1..hi];
    }
  }

  lemma SplicedAt(blocks: seq<int>, lo: int, hi: int, xs: seq<int>, i: int)
    requires 0 <= lo < hi <= |blocks|
    ensures |Spliced(blocks, lo, hi, xs)| == |blocks| - (hi - lo - 1) + |xs|
    ensures 0 <= i < |blocks| - (hi - lo - 1) + |xs| ==>
      Spliced(blocks, lo, hi, xs)[i]
         == if i <= lo then blocks[i] else if i <= lo + |xs| then xs[i - lo - 1] else blocks[i - |xs| + hi - lo - 1]
  {
  }

  lemma ReplaceAt(s: seq<Seg>, lo: int, n: int, t: seq<Seg>, i: int)
    requires 0 <= lo && 0 <= n && lo + n <= |s|
    ensures |Replace(s, lo, n, t)| == |s| - n + |t|
    ensures 0 <= i < |s| - n + |t| ==>
      Replace(s, lo, n, t)[i] == if i < lo then s[i] else if i < lo + |t| then t[i - lo] else s[i - |t| + n]
  {
  }

  /** The magic words outside of a splice stay, and its own say used or free as `t` does. */
  ghost predicate SplicedMarks(m: seq<int>, m': seq<int>, blocks: seq<int>, lo: int, hi: int, xs: seq<int>,
                               t: seq<Seg>)
    requires 0 <= lo < hi < |blocks| && |xs| <= 1 && |t| == |xs| + 1
    requires Inside(|m|, blocks) && Inside(|m'|, Spliced(blocks, lo, hi, xs))
  {
    && Fits(|m'|, Spliced(blocks, lo, hi, xs)[lo])
    && t[0] == Seg((if |xs| == 1 then xs[0] else blocks[hi]) - blocks[lo] - HEADER_WORDS,
                   m'[blocks[lo] + MAGIC] == USED_MAGIC)
    && (|xs| == 1 ==> Fits(|m'|, Spliced(blocks, lo, hi, xs)[lo + 1]))
    && (|xs| == 1 ==> t[1] == Seg(blocks[hi] - xs[0] - HEADER_WORDS, m'[xs[0] + MAGIC] == USED_MAGIC))
    && (forall y :: y in blocks && (y < blocks[lo] || y >= blocks[hi]) ==> Fits(|m'|, y) && m'[y + MAGIC] == m[y + MAGIC])
  }

  lemma SplicedSeg(m: seq<int>, m': seq<int>, blocks: seq<int>, lo: int, hi: int, xs: seq<int>, t: seq<Seg>, i: int)
    requires 0 <= lo < hi < |blocks| && |xs| <= 1 && |t| == |xs| + 1 && Ordered(blocks)
    requires Inside(|m|, blocks) && Inside(|m'|, Spliced(blocks, lo, hi, xs))
    requires SplicedMarks(m, m', blocks, lo, hi, xs, t)
    requires 0 <= i < |blocks| - (hi - lo) + |xs|
    ensures |Layout(m', Spliced(blocks, lo, hi, xs))| == |blocks| - (hi - lo) + |xs|
    ensures |Replace(Layout(m, blocks), lo, hi - lo, t)| == |blocks| - (hi - lo) + |xs|
    ensures Layout(m', Spliced(blocks, lo, hi, xs))[i] == Replace(Layout(m, blocks), lo, hi - lo, t)[i]
  {
    hide Spliced, Replace, Inside;
    SplicedAt(blocks, lo, hi, xs, i);
    SplicedAt(blocks, lo, hi, xs, i + 1);
    ReplaceAt(Layout(m, blocks), lo, hi - lo, t, i);
    var d := hi - lo - 1 - |xs|;
    if i < lo {
      assert blocks[i] in blocks && blocks[i] < blocks[lo];
    } else if i > lo + |xs| {
      assert blocks[i + d] in blocks && blocks[i + d] >= blocks[hi];
    }
  }

  lemma SplicedLayout(m: seq<int>, m': seq<int>, blocks: seq<int>, lo: int, hi: int, xs: seq<int>, t: seq<Seg>)
    requires 0 <= lo < hi < |blocks| && |xs| <= 1 && |t| == |xs| + 1 && Ordered(blocks)
    requires Inside(|m|, blocks) && Inside(|m'|, Spliced(blocks, lo, hi, xs))
    requires SplicedMarks(m, m', blocks, lo, hi, xs, t)
    ensures Layout(m', Spliced(blocks, lo, hi, xs)) == Replace(Layout(m, blocks), lo, hi - lo, t)
  {
    hide Spliced, Replace, Inside, Layout, SplicedMarks, Ordered;
    var l, r := Layout(m', Spliced(blocks, lo, hi, xs)), Replace(Layout(m, blocks), lo, hi - lo, t);
    SplicedSeg(m, m', blocks, lo, hi, xs, t, lo);
    forall i | 0 <= i < |l|
      ensures l[i] == r[i]
    {
      SplicedSeg(m, m', blocks, lo, hi, xs, t, i);
    }
  }
}
