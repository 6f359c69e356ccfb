/**
 The heap as its callers see it: which payloads they hold, and that an operation disturbs no other.
 */
module HeapClients {
  import opened Lists
  import opened Ring
  import opened HeapLayout
  import opened HeapImage
  import opened HeapClosing

  /** `q` is the address of a payload handed out and not yet given back. */
  ghost predicate Live(m: seq<int>, p: Pool, blocks: seq<int>, q: int) {
    && q - HEADER_WORDS in blocks && q - HEADER_WORDS != p.Tail()
    && Fits(|m|, q - HEADER_WORDS) && m[q - HEADER_WORDS + MAGIC] == USED_MAGIC
  }

  function PayloadSize(m: seq<int>, q: int): int
    requires Fits(|m|, q - HEADER_WORDS)
  {
    SizeAt(m, q - HEADER_WORDS)
  }

  /** The payload at `q` has its size and every word as before. */
  ghost predicate SamePayload(m: seq<int>, m': seq<int>, q: int)
    requires Fits(|m|, q - HEADER_WORDS) && |m'| == |m|
  {
    && PayloadSize(m', q) == PayloadSize(m, q)
    && forall a :: q <= a < q + PayloadSize(m, q) && a < |m| ==> m'[a] == m[a]
  }

  /** The `n` words at `r` of one memory are those at `q` of another. */
  ghost predicate SameWords(m: seq<int>, m': seq<int>, q: int, r: int, n: int) {
    forall a :: r <= a < r + n && a < |m'| && 0 <= a && 0 <= a - r + q < |m| ==> m'[a] == m[a - r + q]
  }

  /** All payloads but those in `except` stay handed out, or not, and keep their size and words. */
  ghost predicate Undisturbed(m: seq<int>, m': seq<int>, p: Pool, blocks: seq<int>, blocks': seq<int>, except: set<int>) {
    && |m'| == |m|
    && (forall q :: q !in except ==> (Live(m', p, blocks', q) <==> Live(m, p, blocks, q)))
    && (forall q :: q !in except && Live(m, p, blocks, q) ==> SamePayload(m, m', q))
  }

  /** Every payload handed out has room for a smallest one. */
  ghost predicate Ample(m: seq<int>, p: Pool, blocks: seq<int>) {
    forall q :: Live(m, p, blocks, q) ==> Fits(|m|, q - HEADER_WORDS) && PayloadSize(m, q) >= MIN_WORDS
  }

  lemma StaysAmple(m: seq<int>, m': seq<int>, p: Pool, blocks: seq<int>, blocks': seq<int>, except: set<int>, q: int)
    requires Ample(m, p, blocks) && Undisturbed(m, m', p, blocks, blocks', except) && except <= {q}
    requires Live(m', p, blocks', q) ==> Fits(|m'|, q - HEADER_WORDS) && PayloadSize(m', q) >= MIN_WORDS
    ensures Ample(m', p, blocks')
  {
    hide Live;
    forall r | Live(m', p, blocks', r)
      ensures Fits(|m'|, r - HEADER_WORDS) && PayloadSize(m', r) >= MIN_WORDS
    {
      if r != q {
        assert r !in except && SamePayload(m, m', r);
      }
    }
  }

  lemma LiveAt(m: seq<int>, p: Pool, blocks: seq<int>, free: seq<int>, i: int)
    requires WellFormed(m, p, blocks, free) && 0 <= i < |blocks| - 1
    ensures Live(m, p, blocks, blocks[i] + HEADER_WORDS) <==> Layout(m, blocks)[i].used
    ensures Fits(|m|, blocks[i]) && SizeAt(m, blocks[i]) == Layout(m, blocks)[i].size
    ensures m[blocks[i] + NEXT] == blocks[i + 1]
  {
    assert LinksAt(m, NEXT, PREV, blocks, i);
    assert blocks[i] in blocks;
    assert blocks[i] + HEADER_WORDS <= blocks[|blocks| - 1];
  }

  ghost function IndexOf(s: seq<int>, y: int): (i: int)
    requires y in s
    ensures 0 <= i < |s| && s[i] == y
  {
    var i :| 0 <= i < |s| && s[i] == y;
    i
  }

  ghost function LiveIndex(m: seq<int>, p: Pool, blocks: seq<int>, q: int): (i: int)
    requires Live(m, p, blocks, q) && Tiles(p, blocks)
    ensures 0 <= i < |blocks| - 1 && blocks[i] == q - HEADER_WORDS
  {
    IndexOf(blocks, q - HEADER_WORDS)
  }

  lemma BlockApart(p: Pool, blocks: seq<int>, i: int, j: int)
    requires Tiles(p, blocks) && 0 <= i < |blocks| - 1 && 0 <= j < |blocks|
    ensures j <= i ==> blocks[j] <= blocks[i]
    ensures j > i ==> blocks[j] >= blocks[i + 1] >= blocks[i] + HEADER_WORDS
  {
  }

  /** The words of payload `j` lie outside all headers, the new one between `lo` and `hi` included. */
  lemma PayloadOutside(m: seq<int>, p: Pool, blocks: seq<int>, lo: int, hi: int, xs: seq<int>, j: int, a: int)
    requires p.Ok(|m|) && Tiles(p, blocks) && 0 <= lo < hi < |blocks| && |xs| <= 1
    requires |xs| == 1 ==> blocks[lo] + HEADER_WORDS <= xs[0] && xs[0] + HEADER_WORDS <= blocks[hi]
    requires 0 <= j < lo || hi <= j < |blocks| - 1
    requires blocks[j] + HEADER_WORDS <= a < blocks[j + 1]
    ensures Outside(blocks + xs + [p.header], a)
  {
    TilesInside(m, p, blocks);
    forall y | y in blocks + xs + [p.header]
      ensures a < y || y + HEADER_WORDS <= a
    {
      if y in blocks {
        var i :| 0 <= i < |blocks| && blocks[i] == y;
        BlockApart(p, blocks, j, i);
      } else if y in xs {
        BlockApart(p, blocks, j, lo);
        BlockApart(p, blocks, j, hi);
      }
    }
  }

  /** A splice leaves the blocks outside of it as they were. */
  lemma OutsideSplice(m: seq<int>, m': seq<int>, p: Pool, blocks: seq<int>, free: seq<int>, free': seq<int>,
                      lo: int, hi: int, xs: seq<int>, t: seq<Seg>, j: int)
    requires WellFormed(m, p, blocks, free) && 0 <= lo < hi < |blocks| && |xs| <= 1 && |t| == |xs| + 1
    requires |xs| == 1 ==> blocks[lo] + HEADER_WORDS <= xs[0] && xs[0] + HEADER_WORDS <= blocks[hi]
    requires |m'| == |m| && WellFormed(m', p, Spliced(blocks, lo, hi, xs), free')
    requires Layout(m', Spliced(blocks, lo, hi, xs)) == Replace(Layout(m, blocks), lo, hi - lo, t)
    requires SameOutside(m, m', blocks + xs + [p.header])
    requires 0 <= j < lo || hi <= j < |blocks| - 1
    ensures var q := blocks[j] + HEADER_WORDS;
            && (Live(m', p, Spliced(blocks, lo, hi, xs), q) <==> Live(m, p, blocks, q))
            && Fits(|m|, blocks[j]) && SamePayload(m, m', q)
  {
    hide Spliced, Replace, LinksAt, Coalesced, Marked, ListsFree, Outside;
    var d := if j < lo then j else j - (hi - lo) + 1 + |xs|;
    SplicedAt(blocks, lo, hi, xs, d);
    SplicedAt(blocks, lo, hi, xs, d + 1);
    ReplaceAt(Layout(m, blocks), lo, hi - lo, t, d);
    LiveAt(m, p, blocks, free, j);
    LiveAt(m', p, Spliced(blocks, lo, hi, xs), free', d);
    var q := blocks[j] + HEADER_WORDS;
    forall a | q <= a < q + PayloadSize(m, q) && a < |m|
      ensures m'[a] == m[a]
    {
      PayloadOutside(m, p, blocks, lo, hi, xs, j, a);
    }
  }

  lemma SpliceKeepsLive(m: seq<int>, m': seq<int>, p: Pool, blocks: seq<int>, free: seq<int>, free': seq<int>,
                        lo: int, hi: int, xs: seq<int>, t: seq<Seg>, except: set<int>, q: int)
    requires WellFormed(m, p, blocks, free) && 0 <= lo < hi < |blocks| && |xs| <= 1 && |t| == |xs| + 1
    requires |xs| == 1 ==> blocks[lo] + HEADER_WORDS <= xs[0] && xs[0] + HEADER_WORDS <= blocks[hi]
    requires |m'| == |m| && WellFormed(m', p, Spliced(blocks, lo, hi, xs), free')
    requires Layout(m', Spliced(blocks, lo, hi, xs)) == Replace(Layout(m, blocks), lo, hi - lo, t)
    requires SameOutside(m, m', blocks + xs + [p.header])
    requires forall j :: lo <= j < hi ==> !Layout(m, blocks)[j].used || blocks[j] + HEADER_WORDS in except
    requires q !in except && Live(m, p, blocks, q)
    ensures Live(m', p, Spliced(blocks, lo, hi, xs), q)
    ensures Fits(|m|, q - HEADER_WORDS) && SamePayload(m, m', q)
  {
    hide Spliced, Replace, WellFormed, SameOutside, Live, SamePayload, Ordered;
    LiveFits(m, p, blocks, q);
    TilesOf(m, p, blocks, free);
    var j := LiveIndex(m, p, blocks, q);
    LiveAt(m, p, blocks, free, j);
    OutsideSplice(m, m', p, blocks, free, free', lo, hi, xs, t, j);
  }

  lemma SpliceMakesLive(m: seq<int>, m': seq<int>, p: Pool, blocks: seq<int>, free: seq<int>, free': seq<int>,
                        lo: int, hi: int, xs: seq<int>, t: seq<Seg>, except: set<int>, q: int)
    requires WellFormed(m, p, blocks, free) && 0 <= lo < hi < |blocks| && |xs| <= 1 && |t| == |xs| + 1
    requires |xs| == 1 ==> blocks[lo] + HEADER_WORDS <= xs[0] && xs[0] + HEADER_WORDS <= blocks[hi]
    requires |m'| == |m| && WellFormed(m', p, Spliced(blocks, lo, hi, xs), free')
    requires Layout(m', Spliced(blocks, lo, hi, xs)) == Replace(Layout(m, blocks), lo, hi - lo, t)
    requires SameOutside(m, m', blocks + xs + [p.header])
    requires !t[0].used || blocks[lo] + HEADER_WORDS in except
    requires |xs| == 1 ==> !t[1].used || xs[0] + HEADER_WORDS in except
    requires q !in except && Live(m', p, Spliced(blocks, lo, hi, xs), q)
    ensures Live(m, p, blocks, q)
  {
    hide Spliced, Replace, WellFormed, SameOutside, Live, SamePayload, Ordered;
    var b := Spliced(blocks, lo, hi, xs);
    LiveFits(m', p, b, q);
    TilesOf(m', p, b, free');
    TilesOf(m, p, blocks, free);
    var d := LiveIndex(m', p, b, q);
    LiveAt(m', p, b, free', d);
    SplicedAt(blocks, lo, hi, xs, d);
    ReplaceAt(Layout(m, blocks), lo, hi - lo, t, d);
    OutsideSplice(m, m', p, blocks, free, free', lo, hi, xs, t, if d < lo then d else d + (hi - lo) - 1 - |xs|);
  }

  /** A splice whose own blocks are free before and after, except those named, disturbs nothing else. */
  lemma SpliceUndisturbed(m: seq<int>, m': seq<int>, p: Pool, blocks: seq<int>, free: seq<int>, free': seq<int>,
                          lo: int, hi: int, xs: seq<int>, t: seq<Seg>, except: set<int>)
    requires WellFormed(m, p, blocks, free) && 0 <= lo < hi < |blocks| && |xs| <= 1 && |t| == |xs| + 1
    requires |xs| == 1 ==> blocks[lo] + HEADER_WORDS <= xs[0] && xs[0] + HEADER_WORDS <= blocks[hi]
    requires |m'| == |m| && WellFormed(m', p, Spliced(blocks, lo, hi, xs), free')
    requires Layout(m', Spliced(blocks, lo, hi, xs)) == Replace(Layout(m, blocks), lo, hi - lo, t)
    requires SameOutside(m, m', blocks + xs + [p.header])
    requires forall j :: lo <= j < hi ==> !Layout(m, blocks)[j].used || blocks[j] + HEADER_WORDS in except
    requires !t[0].used || blocks[lo] + HEADER_WORDS in except
    requires |xs| == 1 ==> !t[1].used || xs[0] + HEADER_WORDS in except
    ensures Undisturbed(m, m', p, blocks, Spliced(blocks, lo, hi, xs), except)
  {
    hide Spliced, Replace, WellFormed, Layout, SameOutside, Live, SamePayload;
    forall q | q !in except && Live(m, p, blocks, q)
      ensures Live(m', p, Spliced(blocks, lo, hi, xs), q)
      ensures Fits(|m|, q - HEADER_WORDS) && SamePayload(m, m', q)
    {
      SpliceKeepsLive(m, m', p, blocks, free, free', lo, hi, xs, t, except, q);
    }
    forall q | q !in except && Live(m', p, Spliced(blocks, lo, hi, xs), q)
      ensures Live(m, p, blocks, q)
    {
      SpliceMakesLive(m, m', p, blocks, free, free', lo, hi, xs, t, except, q);
    }
  }

  lemma TilesOf(m: seq<int>, p: Pool, blocks: seq<int>, free: seq<int>)
    requires WellFormed(m, p, blocks, free)
    ensures Tiles(p, blocks) && Inside(|m|, blocks) && p.Ok(|m|)
  {
  }

  lemma WellCoalesced(m: seq<int>, p: Pool, blocks: seq<int>, free: seq<int>)
    requires WellFormed(m, p, blocks, free)
    ensures Inside(|m|, blocks) && Coalesced(Layout(m, blocks))
    ensures forall i :: 0 <= i < |blocks| - 1 ==> Layout(m, blocks)[i].size >= 0
  {
  }

  lemma LiveFits(m: seq<int>, p: Pool, blocks: seq<int>, q: int)
    requires Live(m, p, blocks, q)
    ensures Fits(|m|, q - HEADER_WORDS) && q - HEADER_WORDS in blocks && q - HEADER_WORDS != p.Tail()
    ensures m[q - HEADER_WORDS + MAGIC] == USED_MAGIC
  {
  }

  lemma IndexFacts(m: seq<int>, p: Pool, blocks: seq<int>, free: seq<int>, h: int) returns (i: int)
    requires WellFormed(m, p, blocks, free) && h in blocks && h != p.Tail()
    ensures 0 <= i < |blocks| - 1 && blocks[i] == h && i == IndexOf(blocks, h)
    ensures Fits(|m|, h) && SizeAt(m, h) == blocks[i + 1] - h - HEADER_WORDS == Layout(m, blocks)[i].size
    ensures Layout(m, blocks)[i].used <==> m[h + MAGIC] == USED_MAGIC
  {
    hide Coalesced, Marked, ListsFree, IsRing;
    i := IndexOf(blocks, h);
    LiveAt(m, p, blocks, free, i);
  }

  lemma SameOutsideMore(m: seq<int>, m': seq<int>, all: seq<int>, all': seq<int>)
    requires SameOutside(m, m', all) && Subset(all, all')
    ensures SameOutside(m, m', all')
  {
    forall a | 0 <= a < |m| && Outside(all', a)
      ensures Outside(all, a)
    {
    }
  }

  lemma NothingDisturbed(m: seq<int>, p: Pool, blocks: seq<int>, except: set<int>)
    ensures Undisturbed(m, m, p, blocks, blocks, except)
  {
  }

  /** The block headers after an allocation. */
  function AllocBlocks(blocks: seq<int>, i: int, want: int): seq<int>
    requires 0 <= i < |blocks| - 1
  {
    var x := blocks[i] + want + HEADER_WORDS;
    if Splits(blocks[i + 1] - blocks[i] - HEADER_WORDS, want) then Spliced(blocks, i, i + 1, [x]) else blocks
  }

  lemma AllocBlocksAt(blocks: seq<int>, i: int, want: int)
    requires 0 <= i < |blocks| - 1
    ensures |AllocBlocks(blocks, i, want)| > i + 1 && AllocBlocks(blocks, i, want)[i] == blocks[i]
    ensures Subset(AllocBlocks(blocks, i, want),
                   blocks + (if Splits(blocks[i + 1] - blocks[i] - HEADER_WORDS, want)
                             then [blocks[i] + want + HEADER_WORDS] else []))
  {
  }

  lemma AllocDone(m: seq<int>, m': seq<int>, p: Pool, blocks: seq<int>, free: seq<int>, free': seq<int>, i: int, want: int)
    requires WellFormed(m, p, blocks, free) && 0 <= i < |blocks| - 1 && !Layout(m, blocks)[i].used
    requires 0 <= want <= Layout(m, blocks)[i].size
    requires |m'| == |m| && WellFormed(m', p, AllocBlocks(blocks, i, want), free')
    requires Layout(m', AllocBlocks(blocks, i, want)) == AfterAlloc(Layout(m, blocks), i, want)
    requires SameOutside(m, m', AllocBlocks(blocks, i, want) + [p.header])
    ensures Live(m', p, AllocBlocks(blocks, i, want), blocks[i] + HEADER_WORDS)
    ensures !Live(m, p, blocks, blocks[i] + HEADER_WORDS)
    ensures Fits(|m|, blocks[i])
    ensures want <= SizeAt(m', blocks[i]) < want + HEADER_WORDS + MIN_WORDS
    ensures FreeWords(Layout(m', AllocBlocks(blocks, i, want)))
         == FreeWords(Layout(m, blocks)) - (if Splits(Layout(m, blocks)[i].size, want) then want + HEADER_WORDS
                                            else Layout(m, blocks)[i].size)
    ensures Undisturbed(m, m', p, blocks, AllocBlocks(blocks, i, want), {blocks[i] + HEADER_WORDS})
  {
    hide Coalesced, Marked, ListsFree, IsRing, SameOutside, Undisturbed, FreeWords, Spliced, Replace, AllocBlocks, Live,
         Subset;
    AllocKeeps(Layout(m, blocks), i, want);
    LiveAt(m, p, blocks, free, i);
    AllocBlocksAt(blocks, i, want);
    LiveAt(m', p, AllocBlocks(blocks, i, want), free', i);
    ReplaceAt(Layout(m, blocks), i, 1, [Seg(Layout(m, blocks)[i].size, true)], i);
    var x := blocks[i] + want + HEADER_WORDS;
    if Splits(Layout(m, blocks)[i].size, want) {
      var t := [Seg(want, true), Seg(Layout(m, blocks)[i].size - want - HEADER_WORDS, false)];
      ReplaceAt(Layout(m, blocks), i, 1, t, i);
      AllocUndisturbed(m, m', p, blocks, free, free', i, want, [x], t);
    } else {
      AllocUndisturbed(m, m', p, blocks, free, free', i, want, [], [Seg(Layout(m, blocks)[i].size, true)]);
    }
  }

  lemma AllocUndisturbed(m: seq<int>, m': seq<int>, p: Pool, blocks: seq<int>, free: seq<int>, free': seq<int>,
                         i: int, want: int, xs: seq<int>, t: seq<Seg>)
    requires WellFormed(m, p, blocks, free) && 0 <= i < |blocks| - 1 && !Layout(m, blocks)[i].used
    requires 0 <= want <= Layout(m, blocks)[i].size
    requires |m'| == |m| && WellFormed(m', p, AllocBlocks(blocks, i, want), free')
    requires Layout(m', AllocBlocks(blocks, i, want)) == AfterAlloc(Layout(m, blocks), i, want)
    requires SameOutside(m, m', AllocBlocks(blocks, i, want) + [p.header])
    requires xs == if Splits(Layout(m, blocks)[i].size, want) then [blocks[i] + want + HEADER_WORDS] else []
    requires |t| == |xs| + 1 && AfterAlloc(Layout(m, blocks), i, want) == Replace(Layout(m, blocks), i, 1, t)
    requires |t| == 2 ==> !t[1].used
    ensures Undisturbed(m, m', p, blocks, AllocBlocks(blocks, i, want), {blocks[i] + HEADER_WORDS})
  {
    hide Coalesced, Marked, ListsFree, IsRing, SameOutside, Undisturbed, FreeWords, Spliced, Replace, Live;
    WholeSpliced(blocks, i);
    AllocBlocksAt(blocks, i, want);
    assert Subset(AllocBlocks(blocks, i, want) + [p.header], blocks + xs + [p.header]);
    SameOutsideMore(m, m', AllocBlocks(blocks, i, want) + [p.header], blocks + xs + [p.header]);
    SpliceUndisturbed(m, m', p, blocks, free, free', i, i + 1, xs, t, {blocks[i] + HEADER_WORDS});
  }

  /** How the code tells whether the blocks beside block `i` are free. */
  lemma Neighbours(m: seq<int>, p: Pool, blocks: seq<int>, free: seq<int>, i: int)
    requires WellFormed(m, p, blocks, free) && 0 <= i < |blocks| - 1
    ensures var prev := blocks[Pred(|blocks|, i)];
            && Fits(|m|, blocks[i]) && m[blocks[i] + PREV] == prev && Fits(|m|, prev) && prev in blocks && prev != blocks[i]
            && (!IsUsed(m[prev + MAGIC]) <==> FreeAt(Layout(m, blocks), i - 1))
            && (FreeAt(Layout(m, blocks), i - 1) ==> i > 0 && prev in free && m[prev + MAGIC] == FREE_MAGIC)
    ensures var next := blocks[i + 1];
            && m[blocks[i] + NEXT] == next && Fits(|m|, next) && next in blocks && next != blocks[i]
            && (!IsUsed(m[next + MAGIC]) <==> FreeAt(Layout(m, blocks), i + 1))
            && (FreeAt(Layout(m, blocks), i + 1) ==> next in free && next != p.header)
    ensures m[blocks[i] + MAGIC] == USED_MAGIC ==> blocks[i] !in free
  {
    assert LinksAt(m, NEXT, PREV, blocks, i);
    assert blocks[i] in blocks && blocks[i + 1] in blocks && blocks[Pred(|blocks|, i)] in blocks;
    assert blocks[|blocks| - 1] in blocks;
    TilesInside(m, p, blocks);
    hide LinksAt, Coalesced;
  }

  lemma RemovedSpliced(blocks: seq<int>, lo: int, i: int)
    requires 0 <= lo <= i < |blocks|
    ensures lo < i ==> Removed(blocks, i) == Spliced(blocks, i - 1, i + 1, [])
    ensures lo + 1 == i && i + 1 < |blocks| ==> Removed(Removed(blocks, i), i) == Spliced(blocks, lo, i + 2, [])
    ensures lo == i && i + 1 < |blocks| ==> Removed(blocks, i + 1) == Spliced(blocks, lo, i + 2, [])
    ensures lo == i ==> Spliced(blocks, lo, i + 1, []) == blocks
  {
  }

  /** The free list after a block has been freed: a right neighbour leaves it, the block joins unless its left one did. */
  function FreedList(free: seq<int>, left: bool, right: bool, k: int, h: int): seq<int>
    requires right ==> 0 <= k < |free|
    requires !left ==> |free| >= if right then 2 else 1
  {
    var f := if right then Removed(free, k) else free;
    if left then f else InsertedAfter(f, 0, h)
  }

  lemma FreedListMembers(free: seq<int>, left: bool, right: bool, k: int, h: int)
    requires |free| >= (if right then 2 else 1) && Distinct(free) && h !in free
    requires right ==> 1 <= k < |free|
    ensures var f := FreedList(free, left, right, k, h);
            && |f| >= 1 && f[0] == free[0] && Distinct(f)
            && forall y :: y in f <==> (y in free && !(right && y == free[k])) || (!left && y == h)
    ensures h !in if right then Removed(free, k) else free
    ensures right ==> Removed(free, k)[0] == free[0]
  {
    var f1 := if right then Removed(free, k) else free;
    if right {
      RemovedMembers(free, k);
    }
    if !left {
      InsertedAfterMembers(f1, 0, h);
    }
  }

  lemma BetweenBlocks(blocks: seq<int>, lo: int, hi: int, i: int, y: int)
    requires Ordered(blocks) && 0 <= lo <= i < hi <= |blocks|
    requires i <= lo + 1 && hi <= i + 2
    ensures lo <= i && blocks[lo] <= blocks[i]
    ensures hi < |blocks| && y in blocks && blocks[lo] < y < blocks[hi] ==>
              (lo < i && y == blocks[i]) || (i + 1 < hi && y == blocks[i + 1])
    ensures i + 1 < hi < |blocks| ==> blocks[lo] < blocks[i + 1] < blocks[hi]
  {
    if hi < |blocks| && y in blocks && blocks[lo] < y < blocks[hi] {
      var j :| 0 <= j < |blocks| && blocks[j] == y;
    }
  }

  lemma FreedMembers(m: seq<int>, p: Pool, blocks: seq<int>, free: seq<int>, i: int, left: bool, right: bool, k: int)
    requires WellFormed(m, p, blocks, free) && 0 <= i < |blocks| - 1
    requires Fits(|m|, blocks[i]) && m[blocks[i] + MAGIC] == USED_MAGIC
    requires left == FreeAt(Layout(m, blocks), i - 1) && right == FreeAt(Layout(m, blocks), i + 1)
    requires right ==> 1 <= k < |free| && free[k] == blocks[i + 1]
    ensures |free| >= if right then 2 else 1
    ensures blocks[i] !in if right then Removed(free, k) else free
    ensures right ==> Removed(free, k)[0] == free[0]
    ensures var f := FreedList(free, left, right, k, blocks[i]);
            var lo, hi := if left then i - 1 else i, if right then i + 2 else i + 1;
            && |f| >= 1 && f[0] == p.header && Distinct(f)
            && forall y :: y in f <==> y == blocks[lo] || (y in free && !(y in blocks && blocks[lo] < y < blocks[hi]))
  {
    hide LinksAt, Coalesced, Marked, FreedList, IsRing, Removed;
    var lo, hi := if left then i - 1 else i, if right then i + 2 else i + 1;
    var h := blocks[i];
    Neighbours(m, p, blocks, free, i);
    FreedListMembers(free, left, right, k, h);
    var f := FreedList(free, left, right, k, h);
    forall y
      ensures y in f <==> y == blocks[lo] || (y in free && !(y in blocks && blocks[lo] < y < blocks[hi]))
    {
      BetweenBlocks(blocks, lo, hi, i, y);
    }
  }

  lemma FreedGap(s: seq<Seg>, i: int, lo: int, hi: int) returns (t: seq<Seg>)
    requires 0 <= i < |s|
    requires lo == (if FreeAt(s, i - 1) then i - 1 else i) && hi == (if FreeAt(s, i + 1) then i + 2 else i + 1)
    ensures 0 <= lo <= i < hi <= |s| && i <= lo + 1 && hi <= i + 2
    ensures forall j :: lo <= j < hi && j != i ==> !s[j].used
    ensures |t| == 1 && !t[0].used && AfterFree(s, i) == Replace(s, lo, hi - lo, t)
  {
    hide Replace, AllWords;
    t := [Seg(AllWords(s[lo..hi]) - HEADER_WORDS, false)];
    assert AfterFree(s, i) == Replace(s, lo, hi - lo, t);
  }

  lemma FreedUndisturbed(m: seq<int>, m': seq<int>, p: Pool, blocks: seq<int>, free: seq<int>, free': seq<int>,
                         i: int, lo: int, hi: int)
    requires WellFormed(m, p, blocks, free) && 0 <= i < |blocks| - 1
    requires lo == (if FreeAt(Layout(m, blocks), i - 1) then i - 1 else i)
    requires hi == (if FreeAt(Layout(m, blocks), i + 1) then i + 2 else i + 1)
    requires |m'| == |m| && WellFormed(m', p, Spliced(blocks, lo, hi, []), free')
    requires Layout(m', Spliced(blocks, lo, hi, [])) == AfterFree(Layout(m, blocks), i)
    requires SameOutside(m, m', blocks + [p.header])
    ensures Undisturbed(m, m', p, blocks, Spliced(blocks, lo, hi, []), {blocks[i] + HEADER_WORDS})
    ensures !Live(m', p, Spliced(blocks, lo, hi, []), blocks[i] + HEADER_WORDS)
  {
    hide WellFormed, Layout, SameOutside, Undisturbed, Spliced, Replace, Live, AfterFree, FreeAt, Tiles;
    TilesOf(m, p, blocks, free);
    var s := Layout(m, blocks);
    var t := FreedGap(s, i, lo, hi);
    assert blocks + [] + [p.header] == blocks + [p.header];
    SpliceUndisturbed(m, m', p, blocks, free, free', lo, hi, [], t, {blocks[i] + HEADER_WORDS});
    FreedNotLive(m, m', p, blocks, free', lo, hi, i, t);
  }

  lemma FreedNotLive(m: seq<int>, m': seq<int>, p: Pool, blocks: seq<int>, free': seq<int>, lo: int, hi: int, i: int,
                     t: seq<Seg>)
    requires Tiles(p, blocks) && Inside(|m|, blocks) && 0 <= lo <= i < hi < |blocks| && i <= lo + 1
    requires |t| == 1 && !t[0].used
    requires WellFormed(m', p, Spliced(blocks, lo, hi, []), free')
    requires Layout(m', Spliced(blocks, lo, hi, [])) == Replace(Layout(m, blocks), lo, hi - lo, t)
    ensures !Live(m', p, Spliced(blocks, lo, hi, []), blocks[i] + HEADER_WORDS)
  {
    hide Coalesced, Marked, ListsFree, IsRing, Spliced, Replace, Live;
    var b := Spliced(blocks, lo, hi, []);
    if Live(m', p, b, blocks[i] + HEADER_WORDS) {
      var d := LiveIndex(m', p, b, blocks[i] + HEADER_WORDS);
      LiveAt(m', p, b, free', d);
      SplicedAt(blocks, lo, hi, [], d);
      ReplaceAt(Layout(m, blocks), lo, hi - lo, t, d);
      BlockApart(p, blocks, i, if d <= lo then d else d + hi - lo - 1);
    }
  }

  /** Where the free list holds the block behind block `i`, if that one is free. */
  lemma FreeIndex(m: seq<int>, p: Pool, blocks: seq<int>, free: seq<int>, i: int) returns (k: int, right: bool)
    requires WellFormed(m, p, blocks, free) && 0 <= i < |blocks| - 1
    ensures right == FreeAt(Layout(m, blocks), i + 1)
    ensures right ==> 1 <= k < |free| && free[k] == blocks[i + 1]
  {
    hide LinksAt, Coalesced, Marked, IsRing;
    Neighbours(m, p, blocks, free, i);
    right := FreeAt(Layout(m, blocks), i + 1);
    k := 0;
    if right {
      k :| 0 <= k < |free| && free[k] == blocks[i + 1];
    }
  }

  lemma JoinedAt(blocks: seq<int>, i: int, left: bool)
    requires 0 <= i < |blocks| - 1 && (left ==> i > 0)
    ensures var b := if left then Removed(blocks, i) else blocks;
            var lo := if left then i - 1 else i;
            lo < |b| - 1 && b[lo] == blocks[lo] && b[lo + 1] == blocks[i + 1]
  {
  }

  lemma FreedListIs(free: seq<int>, left: bool, right: bool, k: int, h: int)
    requires |free| >= (if right then 2 else 1) && (right ==> 0 <= k < |free|)
    ensures var f := if right then Removed(free, k) else free;
            FreedList(free, left, right, k, h) == if left then f else InsertedAfter(f, 0, h)
  {
  }

  /** What is known before the used block `i` is put back. */
  lemma ReleaseOpening(m: seq<int>, p: Pool, blocks: seq<int>, free: seq<int>, i: int, all: seq<int>)
      returns (k: int, left: bool, right: bool)
    requires WellFormed(m, p, blocks, free) && 0 <= i < |blocks| - 1
    requires Layout(m, blocks)[i].used && all == Spliced(blocks, i, i + 1, []) + [p.header]
    ensures TwoRings(m, all, blocks, free) && Subset(blocks + [p.header], all) && Subset(all, blocks + [p.header])
    ensures Inside(|m|, all)
    ensures left == FreeAt(Layout(m, blocks), i - 1) && right == FreeAt(Layout(m, blocks), i + 1)
    ensures left ==> i > 0
    ensures right ==> 1 <= k < |free| && free[k] == blocks[i + 1]
    ensures |free| >= if right then 2 else 1
    ensures var f := if right then Removed(free, k) else free; blocks[i] !in f && f[0] == p.header
    ensures Fits(|m|, blocks[i]) && blocks[i] in all
    ensures m[blocks[i] + MAGIC] == USED_MAGIC && m[blocks[i] + NEXT] == blocks[i + 1]
    ensures forall j :: j == Pred(|blocks|, i) || j == i + 1 ==>
              blocks[j] in all && blocks[j] != blocks[i] && Fits(|m|, blocks[j])
    ensures left <==> !IsUsed(m[blocks[Pred(|blocks|, i)] + MAGIC])
    ensures right <==> !IsUsed(m[blocks[i + 1] + MAGIC])
  {
    hide WellFormed, TwoRings, Layout, Spliced, Removed, FreeAt, Inside;
    LiveAt(m, p, blocks, free, i);
    TilesOf(m, p, blocks, free);
    Opening(m, p, blocks, free, i, []);
    RingsInside(m, all, blocks, free);
    WholeFacts(m, p, blocks, free, i, all);
    Neighbours(m, p, blocks, free, i);
    FreeFacts(m, p, blocks, free);
    k, right := FreeIndex(m, p, blocks, free, i);
    left := FreeAt(Layout(m, blocks), i - 1);
    UsedMagic(m, p, blocks, free, i);
    FreedMembers(m, p, blocks, free, i, left, right, k);
  }

  lemma RingsInside(m: seq<int>, all: seq<int>, blocks: seq<int>, free: seq<int>)
    requires TwoRings(m, all, blocks, free)
    ensures Inside(|m|, all)
  {
  }

  lemma UsedMagic(m: seq<int>, p: Pool, blocks: seq<int>, free: seq<int>, i: int)
    requires WellFormed(m, p, blocks, free) && 0 <= i < |blocks| - 1
    ensures Fits(|m|, blocks[i]) && (Layout(m, blocks)[i].used <==> m[blocks[i] + MAGIC] == USED_MAGIC)
  {
  }

  /** The heap once block `i` has been put back. */
  lemma ReleaseClosing(m: seq<int>, m1: seq<int>, m': seq<int>, p: Pool, blocks: seq<int>, free: seq<int>, i: int,
                       left: bool, right: bool, k: int, all: seq<int>)
    requires WellFormed(m, p, blocks, free) && 0 <= i < |blocks| - 1 && Layout(m, blocks)[i].used
    requires left == FreeAt(Layout(m, blocks), i - 1) && right == FreeAt(Layout(m, blocks), i + 1)
    requires right ==> 1 <= k < |free| && free[k] == blocks[i + 1]
    requires |free| >= if right then 2 else 1
    requires Fits(|m|, blocks[i]) && m1 == m[blocks[i] + MAGIC := FREE_MAGIC]
    requires Subset(blocks + [p.header], all) && Subset(all, blocks + [p.header])
    requires Inside(|m|, all) && MarksOnly(m, m1, all, blocks[i]) && LinksOnly(m1, m', all)
    requires |m'| == |m|
    requires TwoRings(m', all, Spliced(blocks, if left then i - 1 else i, if right then i + 2 else i + 1, []),
                      FreedList(free, left, right, k, blocks[i]))
    ensures var b := Spliced(blocks, if left then i - 1 else i, if right then i + 2 else i + 1, []);
            && WellFormed(m', p, b, FreedList(free, left, right, k, blocks[i]))
            && Inside(|m'|, b) && Layout(m', b) == AfterFree(Layout(m, blocks), i)
    ensures SameOutside(m, m', blocks + [p.header])
  {
    hide WellFormed, TwoRings, Layout, Spliced, Removed, Inside, FreedList, LinksOnly, MarksOnly, SameOutside, Distinct,
         AfterFree;
    TilesOf(m, p, blocks, free);
    UsedMagic(m, p, blocks, free, i);
    FreedMembers(m, p, blocks, free, i, left, right, k);
    var h := blocks[i];
    var lo, hi := if left then i - 1 else i, if right then i + 2 else i + 1;
    assert h in blocks + [p.header] && blocks[lo] in blocks;
    if left {
      Neighbours(m, p, blocks, free, i);
    }
    MarkThenLinks(m, m1, m', all, h);
    InsideAll(|m|, blocks, all);
    assert Subset(blocks, all);
    FreeDone(m, m', p, blocks, free, i, lo, hi, all, FreedList(free, left, right, k, h));
    SameOutsideMore(m, m', all, blocks + [p.header]);
    TilesOf(m', p, Spliced(blocks, lo, hi, []), FreedList(free, left, right, k, h));
  }

  lemma InsideAll(size: int, items: seq<int>, all: seq<int>)
    requires Inside(size, items)
    ensures forall y :: y in items ==> Fits(size, y)
  {
  }
}
