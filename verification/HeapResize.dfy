/**
 Growing and shrinking a block in place, the search for a free block, and the heap as a whole.
 */
module HeapResize {
  import opened Lists
  import opened Ring
  import opened HeapLayout
  import opened HeapImage
  import opened HeapClosing
  import opened HeapClients

  function MovedList(free: seq<int>, right: bool, k: int, x: int): seq<int>
    requires right ==> 0 <= k < |free|
    requires |free| >= if right then 2 else 1
  {
    InsertedAfter(if right then Removed(free, k) else free, 0, x)
  }

  lemma MovedMembers(free: seq<int>, right: bool, k: int, x: int)
    requires Distinct(free) && x !in free && |free| >= (if right then 2 else 1)
    requires right ==> 1 <= k < |free|
    ensures var f := MovedList(free, right, k, x);
            && |f| >= 1 && f[0] == free[0] && Distinct(f)
            && forall y :: y in f <==> (y in free && !(right && y == free[k])) || y == x
    ensures x !in (if right then Removed(free, k) else free)
    ensures (if right then Removed(free, k) else free)[0] == free[0]
  {
    if right {
      RemovedMembers(free, k);
    }
    InsertedAfterMembers(if right then Removed(free, k) else free, 0, x);
  }

  /** The free list after the free block behind `i`, if any, has made way for the free block `x`. */
  lemma MovedFree(m: seq<int>, m': seq<int>, p: Pool, blocks: seq<int>, free: seq<int>, i: int, right: bool, k: int, x: int)
    requires WellFormed(m, p, blocks, free) && |m'| == |m| && 0 <= i < |blocks| - 1
    requires right == FreeAt(Layout(m, blocks), i + 1) && (right ==> 1 <= k < |free| && free[k] == blocks[i + 1])
    requires |free| >= if right then 2 else 1
    requires x !in free && x != p.header && Fits(|m|, x) && m'[x + MAGIC] == FREE_MAGIC
    requires forall y :: y in blocks ==> Fits(|m|, y)
    requires Fits(|m|, blocks[i]) && m[blocks[i] + MAGIC] == USED_MAGIC && m'[blocks[i] + MAGIC] == USED_MAGIC
    requires Inside(|m|, Spliced(blocks, i, if right then i + 2 else i + 1, [x]))
    requires forall y :: y in blocks && !(right && y == blocks[i + 1]) && y != x ==> m'[y + MAGIC] == m[y + MAGIC]
    ensures ListsFree(m', p, Spliced(blocks, i, if right then i + 2 else i + 1, [x]), MovedList(free, right, k, x))
  {
    hide Spliced, MovedList, IsRing, Coalesced, Marked;
    var hi := if right then i + 2 else i + 1;
    SplicedMembers(blocks, i, hi, [x]);
    MovedMembers(free, right, k, x);
    forall y
      ensures y in blocks && blocks[i] < y < blocks[hi] <==> right && y == blocks[i + 1]
    {
      BetweenBlocks(blocks, i, hi, i, y);
    }
    TilesInside(m, p, blocks);
  }

  lemma ResizeDone(m: seq<int>, m': seq<int>, p: Pool, blocks: seq<int>, free: seq<int>, i: int, right: bool, k: int, x: int,
                   all: seq<int>)
    requires WellFormed(m, p, blocks, free) && |m'| == |m| && 0 <= i < |blocks| - 1
    requires right == FreeAt(Layout(m, blocks), i + 1) && (right ==> 1 <= k < |free| && free[k] == blocks[i + 1])
    requires |free| >= if right then 2 else 1
    requires var hi := if right then i + 2 else i + 1;
             hi < |blocks| && blocks[i] + HEADER_WORDS <= x && x + HEADER_WORDS <= blocks[hi]
    requires x !in free && x != p.header && Fits(|m|, x) && m'[x + MAGIC] == FREE_MAGIC && m'[x + POOL] == p.id
    requires forall y :: y in blocks ==> Fits(|m|, y)
    requires Layout(m, blocks)[i].used
    requires forall y :: y in blocks && !(right && y == blocks[i + 1]) && y != x ==> m'[y + MAGIC] == m[y + MAGIC]
    requires forall y :: y in blocks && !(right && y == blocks[i + 1]) && y != x ==> m'[y + POOL] == m[y + POOL]
    requires TwoRings(m', all, Spliced(blocks, i, if right then i + 2 else i + 1, [x]), MovedList(free, right, k, x))
    ensures WellFormed(m', p, Spliced(blocks, i, if right then i + 2 else i + 1, [x]), MovedList(free, right, k, x))
    ensures Layout(m', Spliced(blocks, i, if right then i + 2 else i + 1, [x]))
         == AfterResize(Layout(m, blocks), i, x - blocks[i] - HEADER_WORDS)
  {
    hide Spliced, Replace, LinksAt, Coalesced, AllWords, FreeWords, SplicedMarks, MovedList, ListsFree, Subset, Spaced, Distinct;
    var hi := if right then i + 2 else i + 1;
    UsedMagic(m, p, blocks, free, i);
    ResizeMarks(m, m', p, blocks, i, hi, x);
    SpanWords(m, blocks, i, hi);
    MovedFree(m, m', p, blocks, free, i, right, k, x);
    ResizeKeeps(Layout(m, blocks), i, x - blocks[i] - HEADER_WORDS);
    Closing(m, m', p, blocks, free, i, hi, [x],
            [Seg(x - blocks[i] - HEADER_WORDS, true), Seg(blocks[hi] - x - HEADER_WORDS, false)], all,
            MovedList(free, right, k, x));
  }

  lemma ResizeMarks(m: seq<int>, m': seq<int>, p: Pool, blocks: seq<int>, i: int, hi: int, x: int)
    requires p.Ok(|m|) && Tiles(p, blocks) && Inside(|m|, blocks) && Marked(m, p, blocks) && |m'| == |m|
    requires 0 <= i < hi < |blocks| && hi <= i + 2
    requires blocks[i] + HEADER_WORDS <= x && x + HEADER_WORDS <= blocks[hi]
    requires Fits(|m|, x) && m'[x + MAGIC] == FREE_MAGIC && m'[x + POOL] == p.id
    requires Inside(|m'|, Spliced(blocks, i, hi, [x]))
    requires m[blocks[i] + MAGIC] == USED_MAGIC
    requires forall y :: y in blocks ==> Fits(|m|, y)
    requires forall y :: y in blocks && !(hi == i + 2 && y == blocks[i + 1]) && y != x ==> m'[y + MAGIC] == m[y + MAGIC]
    requires forall y :: y in blocks && !(hi == i + 2 && y == blocks[i + 1]) && y != x ==> m'[y + POOL] == m[y + POOL]
    ensures m'[blocks[i] + MAGIC] == USED_MAGIC
    ensures Marked(m', p, Spliced(blocks, i, hi, [x]))
    ensures SplicedMarks(m, m', blocks, i, hi, [x],
                         [Seg(x - blocks[i] - HEADER_WORDS, true), Seg(blocks[hi] - x - HEADER_WORDS, false)])
  {
    hide Spliced, Marked, SplicedMarks;
    assert blocks[i] in blocks;
    UsedThenFree(m, m', p, blocks, i, hi, x);
  }

  /** Once the block behind `i` has left both lists, its room may be used for a header at `x`. */
  lemma GrowSwitch(m: seq<int>, m': seq<int>, p: Pool, blocks: seq<int>, free: seq<int>, i: int, k: int, x: int,
                   all: seq<int>, all': seq<int>)
    requires WellFormed(m, p, blocks, free) && |m'| == |m| && 0 <= i < |blocks| - 2
    requires 1 <= k < |free| && free[k] == blocks[i + 1]
    requires blocks[i] + HEADER_WORDS <= x && x + HEADER_WORDS <= blocks[i + 2] && x != blocks[i + 1]
    requires all' == Spliced(blocks, i, i + 2, [x]) + [p.header]
    requires TwoRings(m', all, Removed(blocks, i + 1), Removed(free, k))
    ensures TwoRings(m', all', Removed(blocks, i + 1), Removed(free, k))
    ensures x in all' && x !in Removed(blocks, i + 1) && x !in free && x !in Removed(free, k)
    ensures Subset(Removed(blocks, i + 1), all')
    ensures Removed(blocks, i + 1)[i] == blocks[i]
    ensures InsertedAfter(Removed(blocks, i + 1), i, x) == Spliced(blocks, i, i + 2, [x])
  {
    hide Spliced, Removed, InsertedAfter, Spaced, LinksAt, Coalesced, Marked, Inside;
    Universe(m, p, blocks, free, i, i + 2, [x]);
    TilesInside(m, p, blocks);
    GrowSeqs(blocks, i, x);
    NewHeaderFresh(m, p, blocks, free, i, i + 2, x);
    RemovedMembers(blocks, i + 1);
    RemovedMembers(free, k);
    GrowMembers(blocks, i, x, p.header);
    forall y | y in Removed(free, k)
      ensures y in all'
    {
      assert y != p.header ==> y in blocks && y in Removed(blocks, i + 1);
    }
  }

  lemma GrowSeqs(blocks: seq<int>, i: int, x: int)
    requires 0 <= i < |blocks| - 2
    ensures Removed(blocks, i + 1)[i] == blocks[i]
    ensures InsertedAfter(Removed(blocks, i + 1), i, x) == Spliced(blocks, i, i + 2, [x])
  {
  }

  lemma GrowMembers(blocks: seq<int>, i: int, x: int, header: int)
    requires 0 <= i < |blocks| - 2 && Ordered(blocks) && Distinct(blocks)
    ensures Subset(Removed(blocks, i + 1), Spliced(blocks, i, i + 2, [x]) + [header])
    ensures x in Spliced(blocks, i, i + 2, [x]) + [header] && header in Spliced(blocks, i, i + 2, [x]) + [header]
  {
    hide Spliced, Removed;
    SplicedMembers(blocks, i, i + 2, [x]);
    RemovedMembers(blocks, i + 1);
    var b := Removed(blocks, i + 1);
    forall y | y in b
      ensures y in Spliced(blocks, i, i + 2, [x])
    {
      BetweenBlocks(blocks, i, i + 2, i, y);
    }
  }

  lemma NewHeaderFresh(m: seq<int>, p: Pool, blocks: seq<int>, free: seq<int>, i: int, hi: int, x: int)
    requires WellFormed(m, p, blocks, free) && 0 <= i < hi < |blocks| && hi <= i + 2
    requires blocks[i] + HEADER_WORDS <= x && x + HEADER_WORDS <= blocks[hi]
    requires hi == i + 2 ==> x != blocks[i + 1]
    ensures x !in blocks && x !in free && x != p.header && Fits(|m|, x)
  {
    TilesInside(m, p, blocks);
    FreeFacts(m, p, blocks, free);
    hide LinksAt, Coalesced, Marked, Spaced;
    if x in blocks {
      BetweenBlocks(blocks, i, hi, i, x);
    }
  }

  /** What is known before block `i` is resized with the free block behind it taken in. */
  lemma ResizeOpening(m: seq<int>, p: Pool, blocks: seq<int>, free: seq<int>, i: int)
      returns (k: int, right: bool)
    requires WellFormed(m, p, blocks, free) && 0 <= i < |blocks| - 1
    ensures right == FreeAt(Layout(m, blocks), i + 1)
    ensures right ==> 1 <= k < |free| && free[k] == blocks[i + 1] && i + 2 < |blocks|
    ensures |free| >= (if right then 2 else 1) && free[0] == p.header
    ensures Fits(|m|, blocks[i]) && m[blocks[i] + NEXT] == blocks[i + 1]
    ensures Fits(|m|, blocks[i + 1]) && (right <==> !IsUsed(m[blocks[i + 1] + MAGIC]))
    ensures right ==> SizeAt(m, blocks[i + 1]) == blocks[i + 2] - blocks[i + 1] - HEADER_WORDS
    ensures blocks[i] < blocks[i + 1]
    ensures forall y :: y in blocks ==> Fits(|m|, y)
  {
    hide LinksAt, Coalesced, Marked, IsRing, ListsFree, Inside;
    TilesOf(m, p, blocks, free);
    InsideAll(|m|, blocks, blocks);
    Neighbours(m, p, blocks, free, i);
    FreeFacts(m, p, blocks, free);
    k, right := FreeIndex(m, p, blocks, free, i);
    if right {
      LiveAt(m, p, blocks, free, i + 1);
    }
  }

  /** The heap once block `i` has been resized, with `m2` the image when the new header is first written. */
  lemma GrowClosing(m: seq<int>, m2: seq<int>, m3: seq<int>, m': seq<int>, p: Pool, blocks: seq<int>, free: seq<int>,
                    i: int, k: int, x: int, all: seq<int>, all': seq<int>)
    requires WellFormed(m, p, blocks, free) && 0 <= i < |blocks| - 2 && Layout(m, blocks)[i].used
    requires FreeAt(Layout(m, blocks), i + 1) && 1 <= k < |free| && free[k] == blocks[i + 1]
    requires |free| >= 2
    requires blocks[i] + HEADER_WORDS <= x && x + HEADER_WORDS <= blocks[i + 2] && x != blocks[i + 1]
    requires all == Spliced(blocks, i, i + 1, []) + [p.header]
    requires all' == Spliced(blocks, i, i + 2, [x]) + [p.header]
    requires Inside(|m|, all) && Inside(|m|, all') && |m2| == |m| && |m3| == |m| && |m'| == |m|
    requires LinksOnly(m, m2, all) && MarksOnly(m2, m3, all', x) && LinksOnly(m3, m', all')
    requires Fits(|m|, x) && m3[x + MAGIC] == FREE_MAGIC && m3[x + POOL] == p.id
    requires TwoRings(m', all', Spliced(blocks, i, i + 2, [x]), MovedList(free, true, k, x))
    ensures WellFormed(m', p, Spliced(blocks, i, i + 2, [x]), MovedList(free, true, k, x))
    ensures Layout(m', Spliced(blocks, i, i + 2, [x])) == AfterResize(Layout(m, blocks), i, x - blocks[i] - HEADER_WORDS)
    ensures SameOutside(m, m', blocks + [x] + [p.header])
  {
    hide WellFormed, TwoRings, Layout, Spliced, Inside, LinksOnly, MarksOnly, SameOutside, MovedList, AfterResize, FreeAt,
         Ordered, Subset, Distinct;
    TilesOf(m, p, blocks, free);
    InsideAll(|m|, blocks, blocks);
    NewHeaderFresh(m, p, blocks, free, i, i + 2, x);
    TilesInside(m, p, blocks);
    WholeSpliced(blocks, i);
    GrowAlls(blocks, i, x, p.header);
    MarkThenLinks(m2, m3, m', all', x);
    forall y | y in blocks && y != blocks[i + 1] && y != x
      ensures m'[y + MAGIC] == m[y + MAGIC] && m'[y + POOL] == m[y + POOL]
    {
      LinksKeepMarks(m, m2, all, y);
    }
    ResizeDone(m, m', p, blocks, free, i, true, k, x, all');
    LinksKeepOutside(m, m2, all);
    SameOutsideMore(m, m2, all, blocks + [x] + [p.header]);
    SameOutsideMore(m2, m', all', blocks + [x] + [p.header]);
    SameOutsideTrans(m, m2, m', blocks + [x] + [p.header]);
  }

  lemma LinksKeepMarks(m0: seq<int>, m1: seq<int>, all: seq<int>, y: int)
    requires Inside(|m0|, all) && LinksOnly(m0, m1, all) && y in all
    ensures Fits(|m0|, y) && |m1| == |m0| && m1[y + MAGIC] == m0[y + MAGIC] && m1[y + POOL] == m0[y + POOL]
  {
  }

  lemma LinksKeepOutside(m0: seq<int>, m1: seq<int>, all: seq<int>)
    requires Inside(|m0|, all) && LinksOnly(m0, m1, all)
    ensures SameOutside(m0, m1, all)
  {
  }

  lemma SameOutsideTrans(m0: seq<int>, m1: seq<int>, m2: seq<int>, all: seq<int>)
    requires SameOutside(m0, m1, all) && SameOutside(m1, m2, all)
    ensures SameOutside(m0, m2, all)
  {
    hide Outside;
  }

  lemma GrowAlls(blocks: seq<int>, i: int, x: int, header: int)
    requires 0 <= i < |blocks| - 2 && Ordered(blocks)
    ensures Subset(Spliced(blocks, i, i + 1, []) + [header], blocks + [x] + [header])
    ensures Subset(Spliced(blocks, i, i + 2, [x]) + [header], blocks + [x] + [header])
    ensures forall y :: y in blocks ==> y in Spliced(blocks, i, i + 1, []) + [header]
    ensures forall y :: y in blocks && y != blocks[i + 1] ==> y in Spliced(blocks, i, i + 2, [x]) + [header]
    ensures x in Spliced(blocks, i, i + 2, [x]) + [header]
  {
    WholeSpliced(blocks, i);
    SplicedMembers(blocks, i, i + 2, [x]);
    hide Spliced;
    forall y | y in blocks && y != blocks[i + 1]
      ensures y in Spliced(blocks, i, i + 2, [x])
    {
      BetweenBlocks(blocks, i, i + 2, i, y);
    }
  }

  lemma ShrinkClosing(m: seq<int>, m1: seq<int>, m': seq<int>, p: Pool, blocks: seq<int>, free: seq<int>,
                      i: int, right: bool, k: int, x: int, all: seq<int>)
    requires WellFormed(m, p, blocks, free) && 0 <= i < |blocks| - 1 && Layout(m, blocks)[i].used
    requires right == FreeAt(Layout(m, blocks), i + 1) && (right ==> 1 <= k < |free| && free[k] == blocks[i + 1])
    requires |free| >= (if right then 2 else 1) && (right ==> i + 2 < |blocks|)
    requires blocks[i] + HEADER_WORDS <= x && x + HEADER_WORDS <= blocks[i + 1]
    requires all == Spliced(blocks, i, i + 1, [x]) + [p.header]
    requires Inside(|m|, all) && |m1| == |m| && |m'| == |m|
    requires MarksOnly(m, m1, all, x) && LinksOnly(m1, m', all)
    requires Fits(|m|, x) && m1[x + MAGIC] == FREE_MAGIC && m1[x + POOL] == p.id
    requires TwoRings(m', all, Spliced(blocks, i, if right then i + 2 else i + 1, [x]), MovedList(free, right, k, x))
    ensures var b := Spliced(blocks, i, if right then i + 2 else i + 1, [x]);
            && WellFormed(m', p, b, MovedList(free, right, k, x))
            && Inside(|m'|, b) && Layout(m', b) == AfterResize(Layout(m, blocks), i, x - blocks[i] - HEADER_WORDS)
    ensures SameOutside(m, m', blocks + [x] + [p.header])
  {
    hide WellFormed, TwoRings, Layout, Spliced, Inside, LinksOnly, MarksOnly, SameOutside, MovedList, AfterResize, FreeAt,
         Ordered, Subset, Distinct;
    TilesOf(m, p, blocks, free);
    InsideAll(|m|, blocks, blocks);
    NewHeaderFresh(m, p, blocks, free, i, i + 1, x);
    TilesInside(m, p, blocks);
    ShrinkAlls(blocks, i, x, p.header);
    MarkThenLinks(m, m1, m', all, x);
    assert right ==> blocks[i + 1] <= blocks[i + 2] by {
      BlockApart(p, blocks, i, i + 1);
      if right {
        BlockApart(p, blocks, i + 1, i + 2);
      }
    }
    ResizeDone(m, m', p, blocks, free, i, right, k, x, all);
    TilesOf(m', p, Spliced(blocks, i, if right then i + 2 else i + 1, [x]), MovedList(free, right, k, x));
    SameOutsideMore(m, m', all, blocks + [x] + [p.header]);
  }

  lemma ShrinkAlls(blocks: seq<int>, i: int, x: int, header: int)
    requires 0 <= i < |blocks| - 1 && Ordered(blocks)
    ensures Subset(Spliced(blocks, i, i + 1, [x]) + [header], blocks + [x] + [header])
    ensures forall y :: y in blocks ==> y in Spliced(blocks, i, i + 1, [x]) + [header]
    ensures x in Spliced(blocks, i, i + 1, [x]) + [header]
  {
    SplicedMembers(blocks, i, i + 1, [x]);
    hide Spliced;
    forall y | y in blocks
      ensures y in Spliced(blocks, i, i + 1, [x])
    {
      BetweenBlocks(blocks, i, i + 1, i, y);
    }
  }

  lemma ShrinkSeqs(blocks: seq<int>, i: int, x: int)
    requires 0 <= i < |blocks| - 1
    ensures InsertedAfter(blocks, i, x) == Spliced(blocks, i, i + 1, [x])
    ensures InsertedAfter(blocks, i, x)[i + 1] == x && InsertedAfter(blocks, i, x)[i + 2] == blocks[i + 1]
    ensures Spliced(blocks, i, i + 1, [x])[i + 1] == x && Spliced(blocks, i, i + 1, [x])[i + 2] == blocks[i + 1]
    ensures i + 2 < |blocks| ==> InsertedAfter(blocks, i, x)[i + 3] == blocks[i + 2]
    ensures i + 2 < |blocks| ==> Removed(InsertedAfter(blocks, i, x), i + 2) == Spliced(blocks, i, i + 2, [x])
    ensures i + 2 < |blocks| ==> Spliced(blocks, i, i + 2, [x])[i + 1] == x && Spliced(blocks, i, i + 2, [x])[i + 2] == blocks[i + 2]
  {
  }

  lemma RingNext(m: seq<int>, all: seq<int>, blocks: seq<int>, free: seq<int>, j: int)
    requires TwoRings(m, all, blocks, free) && 0 <= j < |blocks|
    ensures Fits(|m|, blocks[j]) && m[blocks[j] + NEXT] == blocks[Succ(|blocks|, j)]
  {
    assert LinksAt(m, NEXT, PREV, blocks, j);
  }

  lemma MovedListIs(free: seq<int>, right: bool, k: int, x: int)
    requires |free| >= (if right then 2 else 1) && (right ==> 0 <= k < |free|)
    ensures MovedList(free, right, k, x) == InsertedAfter(if right then Removed(free, k) else free, 0, x)
  {
  }

  lemma DistinctOf(m: seq<int>, p: Pool, blocks: seq<int>, free: seq<int>)
    requires WellFormed(m, p, blocks, free)
    ensures Distinct(free)
  {
  }

  /** The heap `m'`, `b`, `free'` is the heap `m`, `blocks`, `free` with block `i` resized to end at `x`. */
  ghost predicate Resized(m: seq<int>, m': seq<int>, p: Pool, blocks: seq<int>, free: seq<int>, b: seq<int>,
                          free': seq<int>, i: int, x: int) {
    && WellFormed(m, p, blocks, free) && WellFormed(m', p, b, free') && |m'| == |m|
    && 0 <= i < |blocks| - 1 && Layout(m, blocks)[i].used
    && var s := Layout(m, blocks);
       var hi := if FreeAt(s, i + 1) then i + 2 else i + 1;
       && blocks[i] + HEADER_WORDS <= x && x + HEADER_WORDS <= blocks[hi]
       && b == Spliced(blocks, i, hi, [x])
       && Layout(m', b) == AfterResize(s, i, x - blocks[i] - HEADER_WORDS)
       && SameOutside(m, m', blocks + [x] + [p.header])
  }

  lemma ResizedIs(m: seq<int>, m': seq<int>, p: Pool, blocks: seq<int>, free: seq<int>, b: seq<int>,
                  free': seq<int>, i: int, x: int)
    requires WellFormed(m, p, blocks, free) && WellFormed(m', p, b, free') && |m'| == |m|
    requires 0 <= i < |blocks| - 1 && Layout(m, blocks)[i].used
    requires blocks[i] + HEADER_WORDS <= x
    requires var hi := if FreeAt(Layout(m, blocks), i + 1) then i + 2 else i + 1;
             x + HEADER_WORDS <= blocks[hi] && b == Spliced(blocks, i, hi, [x])
    requires Layout(m', b) == AfterResize(Layout(m, blocks), i, x - blocks[i] - HEADER_WORDS)
    requires SameOutside(m, m', blocks + [x] + [p.header])
    ensures Resized(m, m', p, blocks, free, b, free', i, x)
  {
    hide WellFormed, Layout, AfterResize, SameOutside, Spliced, FreeAt;
  }

  /** What a caller sees of a block resized in place. */
  lemma ResizedBlock(m: seq<int>, m': seq<int>, p: Pool, blocks: seq<int>, free: seq<int>, b: seq<int>,
                     free': seq<int>, i: int, x: int)
    requires Resized(m, m', p, blocks, free, b, free', i, x)
    ensures Live(m', p, b, blocks[i] + HEADER_WORDS)
    ensures Fits(|m|, blocks[i]) && SizeAt(m', blocks[i]) == x - blocks[i] - HEADER_WORDS
    ensures SizeAt(m, blocks[i]) == Layout(m, blocks)[i].size
    ensures FreeWords(Layout(m', b)) == FreeWords(Layout(m, blocks)) + Layout(m, blocks)[i].size
              - (x - blocks[i] - HEADER_WORDS) - (if FreeAt(Layout(m, blocks), i + 1) then 0 else HEADER_WORDS)
  {
    hide WellFormed, SameOutside, FreeWords, Spliced, Replace, Live, AllWords, FreeAt;
    TilesOf(m, p, blocks, free);
    TilesOf(m', p, b, free');
    var s := Layout(m, blocks);
    FreeAtMeans(s, i + 1);
    var hi := if FreeAt(s, i + 1) then i + 2 else i + 1;
    var want := x - blocks[i] - HEADER_WORDS;
    var t := [Seg(want, true), Seg(AllWords(s[i..hi]) - 2 * HEADER_WORDS - want, false)];
    WellCoalesced(m, p, blocks, free);
    LiveAt(m, p, blocks, free, i);
    SplicedAt(blocks, i, hi, [x], i);
    LiveAt(m', p, b, free', i);
    ReplaceAt(s, i, hi - i, t, i);
    ResizeKeeps(s, i, want);
  }

  lemma ResizedOthers(m: seq<int>, m': seq<int>, p: Pool, blocks: seq<int>, free: seq<int>, b: seq<int>,
                      free': seq<int>, i: int, x: int)
    requires Resized(m, m', p, blocks, free, b, free', i, x)
    ensures Undisturbed(m, m', p, blocks, b, {blocks[i] + HEADER_WORDS})
  {
    hide WellFormed, SameOutside, Undisturbed, Spliced, Replace, AllWords, FreeAt;
    TilesOf(m, p, blocks, free);
    var s := Layout(m, blocks);
    FreeAtMeans(s, i + 1);
    var hi := if FreeAt(s, i + 1) then i + 2 else i + 1;
    var want := x - blocks[i] - HEADER_WORDS;
    var t := [Seg(want, true), Seg(AllWords(s[i..hi]) - 2 * HEADER_WORDS - want, false)];
    TilesOf(m', p, b, free');
    assert Layout(m', b) == Replace(s, i, hi - i, t);
    hide AfterResize, Layout;
    SpliceUndisturbed(m, m', p, blocks, free, free', i, hi, [x], t, {blocks[i] + HEADER_WORDS});
  }

  lemma ResizedWords(m: seq<int>, m': seq<int>, p: Pool, blocks: seq<int>, free: seq<int>, b: seq<int>,
                     free': seq<int>, i: int, x: int, a: int)
    requires Resized(m, m', p, blocks, free, b, free', i, x)
    requires blocks[i] + HEADER_WORDS <= a < blocks[i + 1] && a < x
    ensures 0 <= a < |m| && m'[a] == m[a]
  {
    hide WellFormed, SameOutside;
    TilesOf(m, p, blocks, free);
    OwnWords(m, m', p, blocks, i, x, a);
  }

  lemma FreeAtMeans(s: seq<Seg>, i: int)
    ensures FreeAt(s, i) <==> 0 <= i < |s| && !s[i].used
  {
  }

  lemma OwnWords(m: seq<int>, m': seq<int>, p: Pool, blocks: seq<int>, i: int, x: int, a: int)
    requires p.Ok(|m|) && Tiles(p, blocks) && 0 <= i < |blocks| - 1
    requires SameOutside(m, m', blocks + [x] + [p.header])
    requires blocks[i] + HEADER_WORDS <= a < blocks[i + 1] && a < x
    ensures 0 <= a < |m| && m'[a] == m[a]
  {
    TilesInside(m, p, blocks);
    forall y | y in blocks + [x] + [p.header]
      ensures a < y || y + HEADER_WORDS <= a
    {
      if y in blocks {
        var j :| 0 <= j < |blocks| && blocks[j] == y;
        BlockApart(p, blocks, i, j);
      }
    }
    assert Outside(blocks + [x] + [p.header], a);
  }

  /** The headers in `all` are the same in both memories. */
  ghost predicate SameHeaders(m: seq<int>, m': seq<int>, all: seq<int>)
    requires Inside(|m|, all)
  {
    && SameField(m, m', all, MAGIC) && SameField(m, m', all, POOL)
    && SameField(m, m', all, NEXT) && SameField(m, m', all, PREV)
    && SameField(m, m', all, NEXT_FREE) && SameField(m, m', all, PREV_FREE)
  }

  lemma MarksFrame(m: seq<int>, m': seq<int>, p: Pool, blocks: seq<int>, free: seq<int>)
    requires Inside(|m|, blocks) && |m'| == |m| && SameField(m, m', blocks, MAGIC) && SameField(m, m', blocks, POOL)
    requires Marked(m, p, blocks) && ListsFree(m, p, blocks, free)
    ensures Marked(m', p, blocks) && ListsFree(m', p, blocks, free)
    ensures Layout(m', blocks) == Layout(m, blocks)
  {
    hide Distinct;
    forall i | 0 <= i < |blocks| - 1
      ensures SegAt(m', blocks, i) == SegAt(m, blocks, i)
    {
      assert blocks[i] in blocks;
    }
  }

  /** A heap does not depend on the words of the payloads. */
  lemma PayloadFrame(m: seq<int>, m': seq<int>, p: Pool, blocks: seq<int>, free: seq<int>)
    requires WellFormed(m, p, blocks, free) && |m'| == |m|
    requires Inside(|m|, blocks + [p.header]) && SameHeaders(m, m', blocks + [p.header])
    ensures WellFormed(m', p, blocks, free) && Layout(m', blocks) == Layout(m, blocks)
  {
    hide LinksAt, Coalesced, Marked, ListsFree, Tiles;
    FreeFacts(m, p, blocks, free);
    assert Subset(free, blocks + [p.header]);
    RingFrame(m, m', NEXT, PREV, blocks, blocks + [p.header]);
    RingFrame(m, m', NEXT_FREE, PREV_FREE, free, blocks + [p.header]);
    MarksFrame(m, m', p, blocks, free);
  }

  /** Words written into a payload disturb nothing but that payload. */
  lemma PayloadWritten(m: seq<int>, m': seq<int>, p: Pool, blocks: seq<int>, free: seq<int>, q: int)
    requires WellFormed(m, p, blocks, free) && |m'| == |m| && Live(m, p, blocks, q)
    requires forall a :: 0 <= a < |m| && !(q <= a < q + PayloadSize(m, q)) ==> m'[a] == m[a]
    ensures WellFormed(m', p, blocks, free) && Layout(m', blocks) == Layout(m, blocks)
    ensures Live(m', p, blocks, q) && PayloadSize(m', q) == PayloadSize(m, q)
    ensures Undisturbed(m, m', p, blocks, blocks, {q})
  {
    hide WellFormed, Undisturbed, Layout, Inside, Ordered;
    TilesOf(m, p, blocks, free);
    TilesInside(m, p, blocks);
    var i := LiveIndex(m, p, blocks, q);
    LiveAt(m, p, blocks, free, i);
    forall y | y in blocks + [p.header]
      ensures y + HEADER_WORDS <= q || q + PayloadSize(m, q) <= y
    {
      HeaderOutside(m, p, blocks, i, y);
    }
    InsideAll(|m|, blocks + [p.header], blocks + [p.header]);
    assert SameHeaders(m, m', blocks + [p.header]);
    PayloadFrame(m, m', p, blocks, free);
    assert q - HEADER_WORDS in blocks + [p.header];
    OthersWritten(m, m', p, blocks, free, q);
  }

  lemma HeaderOutside(m: seq<int>, p: Pool, blocks: seq<int>, i: int, y: int)
    requires p.Ok(|m|) && Tiles(p, blocks) && 0 <= i < |blocks| - 1 && y in blocks + [p.header]
    ensures y + HEADER_WORDS <= blocks[i] + HEADER_WORDS || blocks[i + 1] <= y
  {
    TilesInside(m, p, blocks);
    if y in blocks {
      var j :| 0 <= j < |blocks| && blocks[j] == y;
      BlockApart(p, blocks, i, j);
    }
  }

  lemma OthersWritten(m: seq<int>, m': seq<int>, p: Pool, blocks: seq<int>, free: seq<int>, q: int)
    requires WellFormed(m, p, blocks, free) && WellFormed(m', p, blocks, free) && |m'| == |m|
    requires Live(m, p, blocks, q) && Inside(|m|, blocks) && Layout(m', blocks) == Layout(m, blocks)
    requires forall a :: 0 <= a < |m| && !(q <= a < q + PayloadSize(m, q)) ==> m'[a] == m[a]
    ensures Undisturbed(m, m', p, blocks, blocks, {q})
  {
    hide WellFormed, Layout, Inside, Ordered, Live;
    TilesOf(m, p, blocks, free);
    LiveFits(m, p, blocks, q);
    var i := LiveIndex(m, p, blocks, q);
    LiveAt(m, p, blocks, free, i);
    forall y | Live(m, p, blocks, y) || Live(m', p, blocks, y)
      ensures Live(m', p, blocks, y) && Live(m, p, blocks, y) && Fits(|m|, y - HEADER_WORDS)
      ensures y != q ==> SamePayload(m, m', y)
    {
      var j := if Live(m, p, blocks, y) then LiveIndex(m, p, blocks, y) else LiveIndex(m', p, blocks, y);
      LiveAt(m, p, blocks, free, j);
      LiveAt(m', p, blocks, free, j);
      if y != q {
        BlockApart(p, blocks, i, j);
        BlockApart(p, blocks, j, i);
        if j < i {
          BlockApart(p, blocks, j, i);
        } else {
          BlockApart(p, blocks, i, j);
        }
      }
    }
  }

  lemma UndisturbedTrans(m0: seq<int>, m1: seq<int>, m2: seq<int>, p: Pool, b0: seq<int>, b1: seq<int>, b2: seq<int>,
                         e0: set<int>, e1: set<int>, e: set<int>)
    requires Undisturbed(m0, m1, p, b0, b1, e0) && Undisturbed(m1, m2, p, b1, b2, e1) && e0 <= e && e1 <= e
    ensures Undisturbed(m0, m2, p, b0, b2, e)
  {
    hide Live;
    forall q | q !in e && Live(m0, p, b0, q)
      ensures Fits(|m0|, q - HEADER_WORDS) && SamePayload(m0, m2, q)
    {
      LiveFits(m0, p, b0, q);
    }
  }

  /** The test for growing in place, in the 32-bit arithmetic of the code. */
  predicate GrowFits(nextSize: int, oldSize: int, want: int) {
    (4 * nextSize + 4 * oldSize) % TWO32 > (4 * want + 4 * MIN_WORDS) % TWO32
  }

  /**
   The test means what it says, that a smallest payload is left over, exactly when adding the
   smallest payload to the request does not wrap around; when it does, the test passes whatever the
   free block behind, and the words are not there.
   */
  lemma GrowFitsExact(nextSize: int, oldSize: int, want: int)
    requires MIN_WORDS <= oldSize < want && 4 * want < TWO32 && 0 <= nextSize && 4 * nextSize + 4 * oldSize < TWO32
    ensures (GrowFits(nextSize, oldSize, want) <==> nextSize + oldSize - want > MIN_WORDS) <==> 4 * want + 4 * MIN_WORDS < TWO32
    ensures 4 * want + 4 * MIN_WORDS >= TWO32 ==> GrowFits(nextSize, oldSize, want) && nextSize + oldSize <= want + MIN_WORDS
  {
    var sum := 4 * want + 4 * MIN_WORDS;
    if sum >= TWO32 {
      assert sum % TWO32 == sum - TWO32;
    }
  }

  lemma UndisturbedMore(m: seq<int>, m': seq<int>, p: Pool, b: seq<int>, b': seq<int>, e: set<int>, e': set<int>)
    requires Undisturbed(m, m', p, b, b', e) && e <= e'
    ensures Undisturbed(m, m', p, b, b', e')
  {
    hide Live;
  }

  lemma DisturbedNot(m: seq<int>, m': seq<int>, p: Pool, b: seq<int>, b': seq<int>, e: set<int>, q: int)
    requires Undisturbed(m, m', p, b, b', e) && q !in e && Live(m, p, b, q)
    ensures Live(m', p, b', q) && Fits(|m|, q - HEADER_WORDS) && SamePayload(m, m', q)
  {
  }

  lemma PayloadsApart(m: seq<int>, p: Pool, blocks: seq<int>, free: seq<int>, q: int, r: int)
    requires WellFormed(m, p, blocks, free) && Live(m, p, blocks, q) && Live(m, p, blocks, r)
    ensures Fits(|m|, q - HEADER_WORDS) && Fits(|m|, r - HEADER_WORDS)
    ensures 0 <= q && 0 <= PayloadSize(m, q) && q + PayloadSize(m, q) <= |m|
    ensures 0 <= r && 0 <= PayloadSize(m, r) && r + PayloadSize(m, r) <= |m|
    ensures q != r ==> q + PayloadSize(m, q) <= r || r + PayloadSize(m, r) <= q
  {
    hide WellFormed, Live;
    TilesOf(m, p, blocks, free);
    LiveFits(m, p, blocks, q);
    LiveFits(m, p, blocks, r);
    var i, j := LiveIndex(m, p, blocks, q), LiveIndex(m, p, blocks, r);
    LiveAt(m, p, blocks, free, i);
    LiveAt(m, p, blocks, free, j);
    BlockApart(p, blocks, i, j);
    BlockApart(p, blocks, j, i);
  }

  ghost predicate FreeFit(m: seq<int>, p: Pool, free: seq<int>, want: int) {
    exists y :: y in free && y != p.header && Fits(|m|, y) && SizeAt(m, y) >= want
  }

  /** The payload of the first block from position `k` of the free list that can hold `want` words. */
  ghost function FirstFit(m: seq<int>, free: seq<int>, k: int, want: int): int
    requires 0 <= k && Inside(|m|, free)
    decreases |free| - k
  {
    if k >= |free| then NULL
    else assert Fits(|m|, free[k]); if SizeAt(m, free[k]) >= want then free[k] + HEADER_WORDS
    else FirstFit(m, free, k + 1, want)
  }

  lemma {:induction false} FirstFitIs(m: seq<int>, free: seq<int>, k: int, n: int, want: int)
    requires 0 <= k <= n <= |free| && Inside(|m|, free)
    requires forall j :: k <= j < n ==> Fits(|m|, free[j]) && SizeAt(m, free[j]) < want
    requires n < |free| ==> Fits(|m|, free[n]) && SizeAt(m, free[n]) >= want
    ensures FirstFit(m, free, k, want) == if n < |free| then free[n] + HEADER_WORDS else NULL
    decreases n - k
  {
    if k < n {
      FirstFitIs(m, free, k + 1, n, want);
    }
  }

  /** A heap with nothing handed out is one free block again. */
  lemma AllFreeIsWhole(m: seq<int>, p: Pool, blocks: seq<int>, free: seq<int>)
    requires WellFormed(m, p, blocks, free)
    requires forall q :: !Live(m, p, blocks, q)
    ensures blocks == [p.start, p.Tail()] && free == [p.header, p.start]
    ensures Layout(m, blocks) == [Seg(p.size - 2 * HEADER_WORDS, false)]
  {
    hide IsRing, LinksAt, Marked;
    LiveAt(m, p, blocks, free, 0);
    if |blocks| > 2 {
      LiveAt(m, p, blocks, free, 1);
    }
    assert |blocks| == 2;
    FreeFacts(m, p, blocks, free);
    UsedMagic(m, p, blocks, free, 0);
    FreeIsOne(m, p, blocks, free);
  }

  lemma FreeIsOne(m: seq<int>, p: Pool, blocks: seq<int>, free: seq<int>)
    requires WellFormed(m, p, blocks, free) && blocks == [p.start, p.Tail()]
    requires m[p.start + MAGIC] != USED_MAGIC
    ensures free == [p.header, p.start]
  {
    assert blocks[0] in blocks && blocks[1] in blocks;
    assert p.start in free;
    FreeFacts(m, p, blocks, free);
    hide IsRing, LinksAt, Coalesced;
    var k :| 0 <= k < |free| && free[k] == p.start;
    assert forall j :: 1 <= j < |free| ==> free[j] in blocks && free[j] == p.start;
    if |free| > 2 {
      FirstTwoDiffer(free);
    }
  }

  lemma FirstTwoDiffer(s: seq<int>)
    requires Distinct(s) && |s| > 2
    ensures s[1] != s[2]
  {
  }

  /** The pool is the payloads of its blocks and a header for each, the tail included. */
  lemma PoolWords(m: seq<int>, p: Pool, blocks: seq<int>, free: seq<int>)
    requires WellFormed(m, p, blocks, free)
    ensures AllWords(Layout(m, blocks)) + HEADER_WORDS == p.size
  {
    hide IsRing, Marked, ListsFree, Coalesced, AllWords;
    SpanWords(m, blocks, 0, |blocks| - 1);
    assert Layout(m, blocks)[0..|blocks| - 1] == Layout(m, blocks);
  }

  /** With one free block and the tail, nothing is handed out. */
  lemma FreshUnheld(m: seq<int>, p: Pool)
    requires p.Ok(|m|) && m[p.start + MAGIC] == FREE_MAGIC
    ensures forall q :: !Live(m, p, [p.start, p.Tail()], q)
    ensures Ample(m, p, [p.start, p.Tail()])
  {
  }

  /** A heap of one free block and the tail. */
  lemma FreshHeap(m: seq<int>, p: Pool)
    requires p.Ok(|m|)
    requires m[p.start + MAGIC] == FREE_MAGIC && m[p.start + POOL] == p.id
    requires m[p.start + NEXT] == p.Tail() && m[p.start + PREV] == p.Tail()
    requires m[p.start + NEXT_FREE] == p.header && m[p.start + PREV_FREE] == p.header
    requires m[p.Tail() + MAGIC] == USED_MAGIC && m[p.Tail() + POOL] == p.id
    requires m[p.Tail() + NEXT] == p.start && m[p.Tail() + PREV] == p.start
    requires m[p.header + NEXT_FREE] == p.start && m[p.header + PREV_FREE] == p.start
    ensures WellFormed(m, p, [p.start, p.Tail()], [p.header, p.start])
    ensures Layout(m, [p.start, p.Tail()]) == [Seg(p.size - 2 * HEADER_WORDS, false)]
    ensures FreeWords(Layout(m, [p.start, p.Tail()])) == p.size - 2 * HEADER_WORDS
  {
    hide FreeWords;
    var blocks, free := [p.start, p.Tail()], [p.header, p.start];
    assert LinksAt(m, NEXT, PREV, blocks, 0) && LinksAt(m, NEXT, PREV, blocks, 1);
    assert LinksAt(m, NEXT_FREE, PREV_FREE, free, 0) && LinksAt(m, NEXT_FREE, PREV_FREE, free, 1);
    assert Layout(m, blocks) == [SegAt(m, blocks, 0)];
    OneWords(SegAt(m, blocks, 0));
  }
}
