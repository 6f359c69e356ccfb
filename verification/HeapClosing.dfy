/**
 What alloc and free leave behind once both lists and the marks are in place again.
 */
module HeapClosing {
  import opened Lists
  import opened Ring
  import opened HeapLayout
  import opened HeapImage

  /** Headers `xs` added to those of a heap still do not overlap. */
  lemma Universe(m: seq<int>, p: Pool, blocks: seq<int>, free: seq<int>, lo: int, hi: int, xs: seq<int>)
    requires p.Ok(|m|) && Tiles(p, blocks) && 0 <= lo < hi < |blocks| && |xs| <= 1
    requires |xs| == 1 ==> blocks[lo] + HEADER_WORDS <= xs[0] && xs[0] + HEADER_WORDS <= blocks[hi]
    ensures var b := Spliced(blocks, lo, hi, xs);
            && Tiles(p, b) && Spaced(b + [p.header]) && Inside(|m|, b + [p.header])
            && Distinct(b) && p.header !in b
  {
    SplicedTiles(p, blocks, lo, hi, xs);
    var b := Spliced(blocks, lo, hi, xs);
    hide Spliced;
    TilesInside(m, p, b);
  }

  lemma TilesInside(m: seq<int>, p: Pool, blocks: seq<int>)
    requires p.Ok(|m|) && Tiles(p, blocks)
    ensures Spaced(blocks + [p.header]) && Inside(|m|, blocks + [p.header])
    ensures Distinct(blocks) && p.header !in blocks
    ensures forall i :: 0 <= i < |blocks| ==> p.start <= blocks[i] <= p.Tail()
  {
    forall i | 0 <= i < |blocks|
      ensures p.start <= blocks[i] <= p.Tail()
    {
      assert i > 0 ==> blocks[0] + HEADER_WORDS <= blocks[i];
      assert i < |blocks| - 1 ==> blocks[i] + HEADER_WORDS <= blocks[|blocks| - 1];
    }
  }

  /** Neither list uses the magic and pool words. */
  lemma PokeMark(m: seq<int>, all: seq<int>, blocks: seq<int>, free: seq<int>, x: int, f: int, v: int)
    requires TwoRings(m, all, blocks, free) && x in all
    requires f == MAGIC || f == POOL
    ensures Fits(|m|, x)
    ensures TwoRings(m[x + f := v], all, blocks, free)
    ensures MarksOnly(m, m[x + f := v], all, x)
  {
    hide LinksAt;
    var m' := m[x + f := v];
    PokeFrame(m, all, x, f, v, NEXT);
    PokeFrame(m, all, x, f, v, PREV);
    RingFrame(m, m', NEXT, PREV, blocks, all);
    PokeFrame(m, all, x, f, v, NEXT_FREE);
    PokeFrame(m, all, x, f, v, PREV_FREE);
    RingFrame(m, m', NEXT_FREE, PREV_FREE, free, all);
    forall y | y in all && y != x
      ensures Apart(x, y)
    {
      MembersApart(all, x, y);
    }
  }

  /** The magic and pool words of every header but `x`, and all words outside the headers, stay. */
  ghost predicate MarksOnly(m: seq<int>, m': seq<int>, all: seq<int>, x: int)
    requires Inside(|m|, all)
  {
    && SameOutside(m, m', all)
    && (forall y :: y in all && y != x ==> m'[y + MAGIC] == m[y + MAGIC])
    && (forall y :: y in all && y != x ==> m'[y + POOL] == m[y + POOL])
  }

  /** A block that has left the free list no longer needs its free links. */
  lemma PokeLink(m: seq<int>, all: seq<int>, blocks: seq<int>, free: seq<int>, x: int, f: int, v: int)
    requires TwoRings(m, all, blocks, free) && x in all && x !in free
    requires f == NEXT_FREE || f == PREV_FREE
    ensures Fits(|m|, x)
    ensures TwoRings(m[x + f := v], all, blocks, free)
    ensures LinksOnly(m, m[x + f := v], all)
  {
    hide LinksAt;
    var m' := m[x + f := v];
    PokeFrame(m, all, x, f, v, MAGIC);
    PokeFrame(m, all, x, f, v, POOL);
    PokeFrame(m, all, x, f, v, NEXT);
    PokeFrame(m, all, x, f, v, PREV);
    RingFrame(m, m', NEXT, PREV, blocks, all);
    forall y | y in all && y != x
      ensures Apart(x, y)
    {
      MembersApart(all, x, y);
    }
    RingFrame(m, m', NEXT_FREE, PREV_FREE, free, free);
  }

  /** Marks on the way through an operation: first those of `x`, then links, then those of `h`. */
  lemma MarksTrace(m0: seq<int>, m1: seq<int>, m2: seq<int>, m3: seq<int>, all: seq<int>, x: int, h: int)
    requires Inside(|m0|, all) && x in all && h in all && x != h
    requires MarksOnly(m0, m1, all, x) && LinksOnly(m1, m2, all) && MarksOnly(m2, m3, all, h)
    ensures SameOutside(m0, m3, all)
    ensures m3[x + MAGIC] == m1[x + MAGIC] && m3[x + POOL] == m1[x + POOL]
    ensures forall y :: y in all && y != x && y != h ==> m3[y + MAGIC] == m0[y + MAGIC]
    ensures forall y :: y in all && y != x && y != h ==> m3[y + POOL] == m0[y + POOL]
    ensures m2[h + POOL] == m0[h + POOL]
  {
  }

  lemma LinksThenMark(m0: seq<int>, m1: seq<int>, m2: seq<int>, all: seq<int>, h: int)
    requires Inside(|m0|, all) && h in all
    requires LinksOnly(m0, m1, all) && MarksOnly(m1, m2, all, h)
    ensures SameOutside(m0, m2, all)
    ensures forall y :: y in all && y != h ==> m2[y + MAGIC] == m0[y + MAGIC]
    ensures forall y :: y in all && y != h ==> m2[y + POOL] == m0[y + POOL]
    ensures m1[h + MAGIC] == m0[h + MAGIC] && m1[h + POOL] == m0[h + POOL]
  {
  }

  lemma MarkThenLinks(m0: seq<int>, m1: seq<int>, m2: seq<int>, all: seq<int>, h: int)
    requires Inside(|m0|, all) && h in all
    requires MarksOnly(m0, m1, all, h) && LinksOnly(m1, m2, all)
    ensures SameOutside(m0, m2, all)
    ensures forall y :: y in all && y != h ==> m2[y + MAGIC] == m0[y + MAGIC]
    ensures forall y :: y in all && y != h ==> m2[y + POOL] == m0[y + POOL]
    ensures m2[h + MAGIC] == m1[h + MAGIC] && m2[h + POOL] == m1[h + POOL]
  {
  }

  lemma LinksKeepMark(m0: seq<int>, m1: seq<int>, all: seq<int>, y: int)
    requires Inside(|m0|, all) && LinksOnly(m0, m1, all) && y in all
    ensures Fits(|m0|, y) && |m1| == |m0| && m1[y + MAGIC] == m0[y + MAGIC]
  {
  }

  lemma MarkKeepsMark(m0: seq<int>, m1: seq<int>, all: seq<int>, h: int, y: int)
    requires Inside(|m0|, all) && MarksOnly(m0, m1, all, h) && y in all && y != h
    ensures Fits(|m0|, y) && |m1| == |m0| && m1[y + MAGIC] == m0[y + MAGIC]
  {
  }

  lemma LinksSame(m: seq<int>, all: seq<int>)
    requires Inside(|m|, all)
    ensures LinksOnly(m, m, all)
  {
  }

  lemma LinksTrans(m0: seq<int>, m1: seq<int>, m2: seq<int>, all: seq<int>)
    requires Inside(|m0|, all) && LinksOnly(m0, m1, all) && LinksOnly(m1, m2, all)
    ensures LinksOnly(m0, m2, all)
  {
  }

  lemma Closing(m: seq<int>, m': seq<int>, p: Pool, blocks: seq<int>, free: seq<int>,
                lo: int, hi: int, xs: seq<int>, t: seq<Seg>, all: seq<int>, free': seq<int>)
    requires WellFormed(m, p, blocks, free) && 0 <= lo < hi < |blocks| && |xs| <= 1 && |t| == |xs| + 1
    requires |xs| == 1 ==> blocks[lo] + HEADER_WORDS <= xs[0] && xs[0] + HEADER_WORDS <= blocks[hi]
    requires |m'| == |m| && TwoRings(m', all, Spliced(blocks, lo, hi, xs), free')
    requires SplicedMarks(m, m', blocks, lo, hi, xs, t)
    requires Marked(m', p, Spliced(blocks, lo, hi, xs))
    requires ListsFree(m', p, Spliced(blocks, lo, hi, xs), free')
    requires Coalesced(Replace(Layout(m, blocks), lo, hi - lo, t))
    ensures WellFormed(m', p, Spliced(blocks, lo, hi, xs), free')
    ensures Layout(m', Spliced(blocks, lo, hi, xs)) == Replace(Layout(m, blocks), lo, hi - lo, t)
  {
    hide Spliced, Replace, Coalesced, SplicedMarks, LinksAt;
    SplicedTiles(p, blocks, lo, hi, xs);
    SplicedLayout(m, m', blocks, lo, hi, xs, t);
  }

  function SizeAt(m: seq<int>, h: int): int
    requires 0 <= h && h + NEXT < |m|
  {
    m[h + NEXT] - h - HEADER_WORDS
  }

  lemma FirstLink(m: seq<int>, free: seq<int>)
    requires IsRing(m, NEXT_FREE, PREV_FREE, free) && |free| >= 1
    ensures m[free[0] + NEXT_FREE] == if |free| > 1 then free[1] else free[0]
  {
    assert LinksAt(m, NEXT_FREE, PREV_FREE, free, 0);
  }

  lemma NextLink(m: seq<int>, free: seq<int>, k: int)
    requires IsRing(m, NEXT_FREE, PREV_FREE, free) && 1 <= k < |free|
    ensures m[free[k] + NEXT_FREE] == if k + 1 < |free| then free[k + 1] else free[0]
  {
    assert LinksAt(m, NEXT_FREE, PREV_FREE, free, k);
  }

  lemma FreeFacts(m: seq<int>, p: Pool, blocks: seq<int>, free: seq<int>)
    requires WellFormed(m, p, blocks, free)
    ensures |free| >= 1 && free[0] == p.header && Inside(|m|, free)
    ensures forall k :: 1 <= k < |free| ==> free[k] != p.header
    ensures forall k :: 1 <= k < |free| ==> free[k] in blocks && Fits(|m|, free[k]) && m[free[k] + MAGIC] == FREE_MAGIC
    ensures forall k :: 1 <= k < |free| ==> free[k] != p.Tail()
  {
    assert blocks[|blocks| - 1] in blocks;
    forall k | 1 <= k < |free|
      ensures free[k] != p.header && free[k] in blocks && m[free[k] + MAGIC] == FREE_MAGIC
    {
      assert free[0] != free[k] && free[k] in free;
    }
  }

  /** Both lists of a heap, seen over its own headers and at most one new one. */
  lemma Opening(m: seq<int>, p: Pool, blocks: seq<int>, free: seq<int>, lo: int, xs: seq<int>)
    requires WellFormed(m, p, blocks, free) && 0 <= lo < |blocks| - 1 && |xs| <= 1
    requires |xs| == 1 ==> blocks[lo] + HEADER_WORDS <= xs[0] && xs[0] + HEADER_WORDS <= blocks[lo + 1]
    ensures var all := Spliced(blocks, lo, lo + 1, xs) + [p.header];
            && TwoRings(m, all, blocks, free)
            && p.header in all && blocks[lo] in all && Subset(blocks, all)
            && (|xs| == 1 ==> xs[0] in all && xs[0] !in blocks && xs[0] !in free)
  {
    Universe(m, p, blocks, free, lo, lo + 1, xs);
    SplicedMembers(blocks, lo, lo + 1, xs);
    TilesInside(m, p, blocks);
    var b := Spliced(blocks, lo, lo + 1, xs);
    hide Spliced, LinksAt, Spaced, Coalesced;
    forall y | y in blocks
      ensures y in b && (|xs| == 1 ==> y != xs[0])
    {
      var i :| 0 <= i < |blocks| && blocks[i] == y;
    }
    FreeFacts(m, p, blocks, free);
    if |xs| == 1 {
      assert xs[0] in b;
    }
  }

  /** The free list after the used block `h` has left it and the free block `x` has joined it. */
  lemma SwapFree(m: seq<int>, m': seq<int>, p: Pool, blocks: seq<int>, free: seq<int>, k: int, x: int, blocks': seq<int>)
    requires Inside(|m|, blocks) && Inside(|m'|, blocks')
    requires ListsFree(m, p, blocks, free) && 1 <= k < |free|
    requires forall y :: y in blocks' <==> y in blocks || y == x
    requires x !in free && x != p.header && free[k] in blocks && free[k] != p.header
    requires forall y :: y in blocks ==> Fits(|m|, y) && Fits(|m'|, y)
    requires forall y :: y in blocks && y != free[k] && y != x ==> m'[y + MAGIC] == m[y + MAGIC]
    requires Fits(|m'|, x) && m'[x + MAGIC] == FREE_MAGIC && m'[free[k] + MAGIC] == USED_MAGIC
    ensures ListsFree(m', p, blocks', InsertedAfter(Removed(free, k), 0, x))
  {
    RemovedMembers(free, k);
    var f := Removed(free, k);
    assert |f| >= 1 && f[0] == free[0];
    InsertedAfterMembers(f, 0, x);
    assert InsertedAfter(f, 0, x)[0] == f[0];
    hide InsertedAfter, Removed, Inside;
  }

  /** A heap's marks after block `lo` has been marked used and its successors up to `hi` made way for the free `x`. */
  lemma UsedThenFree(m: seq<int>, m': seq<int>, p: Pool, blocks: seq<int>, lo: int, hi: int, x: int)
    requires p.Ok(|m|) && Tiles(p, blocks) && Inside(|m|, blocks) && Marked(m, p, blocks)
    requires |m'| == |m| && 0 <= lo < hi < |blocks|
    requires blocks[lo] + HEADER_WORDS <= x && x + HEADER_WORDS <= blocks[hi]
    requires Inside(|m'|, Spliced(blocks, lo, hi, [x]))
    requires Fits(|m|, x) && m'[x + MAGIC] == FREE_MAGIC && m'[x + POOL] == p.id
    requires m'[blocks[lo] + MAGIC] == USED_MAGIC && m'[blocks[lo] + POOL] == m[blocks[lo] + POOL]
    requires forall y :: y in blocks ==> Fits(|m|, y)
    requires forall y :: y in blocks && (y < blocks[lo] || y >= blocks[hi]) ==> m'[y + MAGIC] == m[y + MAGIC]
    requires forall y :: y in blocks && (y < blocks[lo] || y >= blocks[hi]) ==> m'[y + POOL] == m[y + POOL]
    ensures Marked(m', p, Spliced(blocks, lo, hi, [x]))
    ensures SplicedMarks(m, m', blocks, lo, hi, [x],
                         [Seg(x - blocks[lo] - HEADER_WORDS, true), Seg(blocks[hi] - x - HEADER_WORDS, false)])
  {
    hide Spliced;
    SplicedMembers(blocks, lo, hi, [x]);
    TilesInside(m, p, blocks);
    SplicedAt(blocks, lo, hi, [x], lo);
    SplicedAt(blocks, lo, hi, [x], lo + 1);
    assert p.Tail() in blocks && p.Tail() >= blocks[hi];
  }

  lemma WholeFacts(m: seq<int>, p: Pool, blocks: seq<int>, free: seq<int>, i: int, all: seq<int>)
    requires WellFormed(m, p, blocks, free) && TwoRings(m, all, blocks, free)
    requires 0 <= i < |blocks| - 1
    ensures blocks[i] in all && Spliced(blocks, i, i + 1, []) == blocks
    ensures forall y :: y in blocks ==> Fits(|m|, y) && y in all
    ensures forall y :: y in all ==> Fits(|m|, y)
  {
    hide LinksAt, Spaced, Coalesced;
    WholeSpliced(blocks, i);
  }

  lemma SplitFacts(m: seq<int>, p: Pool, blocks: seq<int>, free: seq<int>, i: int, k: int, x: int, all: seq<int>)
    requires WellFormed(m, p, blocks, free) && TwoRings(m, all, blocks, free)
    requires 0 <= i < |blocks| - 1 && 1 <= k < |free| && blocks[i] == free[k] && x !in free && x !in blocks
    ensures free[0] == p.header && blocks[i] != x && blocks[i] in all
    ensures |Removed(free, k)| >= 1 && Removed(free, k)[0] == p.header
    ensures x !in Removed(free, k) && blocks[i] !in Removed(free, k)
    ensures forall y :: y in blocks ==> Fits(|m|, y) && y in all
    ensures forall y :: y in all ==> Fits(|m|, y)
    ensures InsertedAfter(blocks, i, x) == Spliced(blocks, i, i + 1, [x])
  {
    hide LinksAt, Spaced, Coalesced;
    RemovedMembers(free, k);
    FreeFacts(m, p, blocks, free);
  }

  lemma SplitDone(m: seq<int>, m': seq<int>, p: Pool, blocks: seq<int>, free: seq<int>,
                  i: int, k: int, x: int, all: seq<int>, want: int)
    requires WellFormed(m, p, blocks, free)
    requires 0 <= i < |blocks| - 1 && 1 <= k < |free| && blocks[i] == free[k] && x == blocks[i] + want + HEADER_WORDS
    requires want >= 0 && Splits(blocks[i + 1] - blocks[i] - HEADER_WORDS, want)
    requires |m'| == |m| && TwoRings(m', all, InsertedAfter(blocks, i, x), InsertedAfter(Removed(free, k), 0, x))
    requires Fits(|m|, x) && x !in free && x !in blocks
    requires forall y :: y in blocks ==> Fits(|m|, y)
    requires m'[x + MAGIC] == FREE_MAGIC && m'[x + POOL] == p.id
    requires m'[blocks[i] + MAGIC] == USED_MAGIC && m'[blocks[i] + POOL] == m[blocks[i] + POOL]
    requires forall y :: y in blocks && y != blocks[i] ==> m'[y + MAGIC] == m[y + MAGIC]
    requires forall y :: y in blocks && y != blocks[i] ==> m'[y + POOL] == m[y + POOL]
    ensures WellFormed(m', p, InsertedAfter(blocks, i, x), InsertedAfter(Removed(free, k), 0, x))
    ensures Layout(m', InsertedAfter(blocks, i, x)) == AfterAlloc(Layout(m, blocks), i, want)
  {
    hide InsertedAfter, Removed, Spliced, LinksAt, Spaced, Coalesced, Subset, Distinct, Replace, AllWords, FreeWords,
         Marked, SplicedMarks;
    assert InsertedAfter(blocks, i, x) == Spliced(blocks, i, i + 1, [x]) by {
      InsertedSpliced(blocks, i, x);
    }
    InsertedAfterMembers(blocks, i, x);
    FreeFacts(m, p, blocks, free);
    var t := [Seg(want, true), Seg(blocks[i + 1] - x - HEADER_WORDS, false)];
    UsedThenFree(m, m', p, blocks, i, i + 1, x);
    AllocKeeps(Layout(m, blocks), i, want);
    SwapFree(m, m', p, blocks, free, k, x, InsertedAfter(blocks, i, x));
    Closing(m, m', p, blocks, free, i, i + 1, [x], t, all, InsertedAfter(Removed(free, k), 0, x));
  }

  lemma InsertedSpliced(blocks: seq<int>, i: int, x: int)
    requires 0 <= i < |blocks|
    ensures InsertedAfter(blocks, i, x) == Spliced(blocks, i, i + 1, [x])
  {
  }

  /** A heap's marks after block `lo` has been marked `w` and its successors up to `hi` joined to it. */
  lemma OneMark(m: seq<int>, m': seq<int>, p: Pool, blocks: seq<int>, lo: int, hi: int, w: int)
    requires p.Ok(|m|) && Tiles(p, blocks) && Inside(|m|, blocks) && Marked(m, p, blocks)
    requires |m'| == |m| && 0 <= lo < hi < |blocks|
    requires Inside(|m'|, Spliced(blocks, lo, hi, []))
    requires w == FREE_MAGIC || w == USED_MAGIC
    requires m'[blocks[lo] + MAGIC] == w && m'[blocks[lo] + POOL] == m[blocks[lo] + POOL]
    requires forall y :: y in blocks ==> Fits(|m|, y)
    requires forall y :: y in blocks && (y < blocks[lo] || y >= blocks[hi]) ==> m'[y + MAGIC] == m[y + MAGIC]
    requires forall y :: y in blocks && (y < blocks[lo] || y >= blocks[hi]) ==> m'[y + POOL] == m[y + POOL]
    ensures Marked(m', p, Spliced(blocks, lo, hi, []))
    ensures SplicedMarks(m, m', blocks, lo, hi, [], [Seg(blocks[hi] - blocks[lo] - HEADER_WORDS, w == USED_MAGIC)])
  {
    hide Spliced;
    SplicedMembers(blocks, lo, hi, []);
    TilesInside(m, p, blocks);
    SplicedAt(blocks, lo, hi, [], lo);
    assert p.Tail() in blocks && p.Tail() >= blocks[hi];
  }

  lemma WholeSpliced(blocks: seq<int>, i: int)
    requires 0 <= i < |blocks|
    ensures Spliced(blocks, i, i + 1, []) == blocks
  {
  }

  lemma WholeDone(m: seq<int>, m': seq<int>, p: Pool, blocks: seq<int>, free: seq<int>, i: int, k: int, all: seq<int>,
                  want: int)
    requires WellFormed(m, p, blocks, free)
    requires 0 <= i < |blocks| - 1 && 1 <= k < |free| && blocks[i] == free[k]
    requires !Splits(blocks[i + 1] - blocks[i] - HEADER_WORDS, want)
    requires |m'| == |m| && TwoRings(m', all, blocks, Removed(free, k))
    requires forall y :: y in blocks ==> Fits(|m|, y)
    requires m'[blocks[i] + MAGIC] == USED_MAGIC && m'[blocks[i] + POOL] == m[blocks[i] + POOL]
    requires forall y :: y in blocks && y != blocks[i] ==> m'[y + MAGIC] == m[y + MAGIC]
    requires forall y :: y in blocks && y != blocks[i] ==> m'[y + POOL] == m[y + POOL]
    ensures WellFormed(m', p, blocks, Removed(free, k))
    ensures Layout(m', blocks) == AfterAlloc(Layout(m, blocks), i, want)
  {
    hide Removed, Spliced, LinksAt, Spaced, Coalesced, Subset, Replace, AllWords, FreeWords, SplicedMarks;
    WholeSpliced(blocks, i);
    FreeFacts(m, p, blocks, free);
    var t := [Seg(blocks[i + 1] - blocks[i] - HEADER_WORDS, true)];
    OneMark(m, m', p, blocks, i, i + 1, USED_MAGIC);
    AllocKeeps(Layout(m, blocks), i, want);
    DropFree(m, m', p, blocks, free, k);
    Closing(m, m', p, blocks, free, i, i + 1, [], t, all, Removed(free, k));
  }

  lemma DropFree(m: seq<int>, m': seq<int>, p: Pool, blocks: seq<int>, free: seq<int>, k: int)
    requires Inside(|m|, blocks) && |m'| == |m|
    requires ListsFree(m, p, blocks, free) && 1 <= k < |free| && free[k] in blocks && free[k] != p.header
    requires forall y :: y in blocks ==> Fits(|m|, y)
    requires forall y :: y in blocks && y != free[k] ==> m'[y + MAGIC] == m[y + MAGIC]
    requires m'[free[k] + MAGIC] == USED_MAGIC
    ensures ListsFree(m', p, blocks, Removed(free, k))
  {
    RemovedMembers(free, k);
    assert Removed(free, k)[0] == free[0];
    hide Removed, Inside;
  }

  /** The free list after block `lo`, now free, has taken in its free neighbour behind it. */
  lemma RunFree(m: seq<int>, m': seq<int>, p: Pool, blocks: seq<int>, free: seq<int>, lo: int, hi: int, free': seq<int>)
    requires p.Ok(|m|) && Tiles(p, blocks) && Inside(|m|, blocks) && |m'| == |m|
    requires 0 <= lo < hi < |blocks| && Inside(|m|, Spliced(blocks, lo, hi, []))
    requires ListsFree(m, p, blocks, free)
    requires |free'| >= 1 && free'[0] == p.header && Distinct(free')
    requires forall y :: y in free' <==> y == blocks[lo] || (y in free && !(y in blocks && blocks[lo] < y < blocks[hi]))
    requires forall y :: y in blocks ==> Fits(|m|, y)
    requires forall y :: y in blocks && (y < blocks[lo] || y >= blocks[hi]) ==> m'[y + MAGIC] == m[y + MAGIC]
    requires m'[blocks[lo] + MAGIC] == FREE_MAGIC
    ensures ListsFree(m', p, Spliced(blocks, lo, hi, []), free')
  {
    hide Spliced, Distinct;
    SplicedMembers(blocks, lo, hi, []);
    TilesInside(m, p, blocks);
    assert p.header !in blocks;
  }

  lemma FreeDone(m: seq<int>, m': seq<int>, p: Pool, blocks: seq<int>, free: seq<int>, i: int, lo: int, hi: int,
                 all: seq<int>, free': seq<int>)
    requires WellFormed(m, p, blocks, free)
    requires 0 <= i < |blocks| - 1 && m[blocks[i] + MAGIC] == USED_MAGIC
    requires lo == (if FreeAt(Layout(m, blocks), i - 1) then i - 1 else i)
    requires hi == (if FreeAt(Layout(m, blocks), i + 1) then i + 2 else i + 1)
    requires |m'| == |m| && TwoRings(m', all, Spliced(blocks, lo, hi, []), free')
    requires forall y :: y in blocks ==> Fits(|m|, y)
    requires m'[blocks[lo] + MAGIC] == FREE_MAGIC && m'[blocks[lo] + POOL] == m[blocks[lo] + POOL]
    requires forall y :: y in blocks && y != blocks[i] ==> m'[y + MAGIC] == m[y + MAGIC]
    requires forall y :: y in blocks && y != blocks[i] ==> m'[y + POOL] == m[y + POOL]
    requires |free'| >= 1 && free'[0] == p.header && Distinct(free')
    requires forall y :: y in free' <==> y == blocks[lo] || (y in free && !(y in blocks && blocks[lo] < y < blocks[hi]))
    ensures WellFormed(m', p, Spliced(blocks, lo, hi, []), free')
    ensures Layout(m', Spliced(blocks, lo, hi, [])) == AfterFree(Layout(m, blocks), i)
  {
    hide Spliced, LinksAt, Spaced, Coalesced, Subset, Replace, AllWords, FreeWords, SplicedMarks, Distinct;
    var t := [Seg(blocks[hi] - blocks[lo] - HEADER_WORDS, false)];
    assert blocks[lo] <= blocks[i] < blocks[hi];
    OneMark(m, m', p, blocks, lo, hi, FREE_MAGIC);
    SpanWords(m, blocks, lo, hi);
    FreeKeeps(Layout(m, blocks), i);
    RunFree(m, m', p, blocks, free, lo, hi, free');
    Closing(m, m', p, blocks, free, lo, hi, [], t, all, free');
  }
}
