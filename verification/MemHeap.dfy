/**
 The memory heap: alloc, free and realloc over a pool of RAM words.
 */
module MemHeap {
  import opened Lists
  import opened Ring
  import opened HeapLayout
  import opened HeapImage
  import opened HeapClosing
  import opened HeapClients
  import opened HeapResize

  /** The payload words asked for by a request of `size` bytes: rounded up to words in 32 bits, and a minimum. */
  function Request(size: int): int
    requires 0 <= size < TWO32
  {
    var w := (size + 3) % TWO32 / 4;
    if w < MIN_WORDS then MIN_WORDS else w
  }

  /** Below 2^32 the rounded request covers the size asked for exactly up to 2^32 - 4; above, it is a smallest payload. */
  lemma RequestCovers(size: int)
    requires 0 <= size < TWO32
    ensures 4 * Request(size) >= size <==> size <= TWO32 - 4
    ensures size > TWO32 - 4 ==> Request(size) == MIN_WORDS
  {
  }

  /** The words that leave the free total when `want` of a free block of `size` are handed out. */
  function Taken(size: int, want: int): int {
    if Splits(size, want) then want + HEADER_WORDS else size
  }

  /**
   The size of a payload of `size` words that stays in place when it is asked to be of `want`: exactly
   that, but for one that is cut only if more than a header and a smallest payload would come off.
   */
  function FittedSize(size: int, want: int): int {
    if want <= size <= want + HEADER_WORDS + MIN_WORDS then size else want
  }

  /**
   A free list, which begins with its header, with the block `added` in front, where searches start,
   and without the block `gone`.
   */
  function Relisted(free: seq<int>, added: seq<int>, gone: seq<int>): seq<int>
    requires free != []
  {
    [free[0]] + added + (if gone == [] then free[1..] else Del(free[1..], gone[0]))
  }

  lemma RelistedIs(f: seq<int>, k: int, x: int)
    requires Distinct(f) && 0 <= k < |f|
    ensures f == Relisted(f, [], []) && InsertedAfter(f, 0, x) == Relisted(f, [x], [])
    ensures k > 0 ==> Removed(f, k) == Relisted(f, [], [f[k]]) && InsertedAfter(Removed(f, k), 0, x) == Relisted(f, [x], [f[k]])
  {
    if k > 0 {
      DelIs(f[1..], f[k], k - 1);
      assert Removed(f, k) == [f[0]] + Removed(f[1..], k - 1);
    }
  }

  class MemHeap {
    const ram: array<int>
    const pool: Pool
    const freeList: int  // the header of the free list

    var availableSize: int
    var maxUsedSize: int

    ghost var blocks: seq<int>  // the block headers, in address order
    ghost var free: seq<int>    // the free list, its header first

    /** The words of the pool form a heap. */
    ghost predicate Sound()
      reads this, ram
    {
      freeList == pool.header && WellFormed(ram[..], pool, blocks, free)
    }

    /** They do, and the counters are right. */
    ghost predicate Valid()
      reads this, ram
    {
      && Sound()
      && availableSize == FreeWords(Layout(ram[..], blocks))
      && pool.size - availableSize <= maxUsedSize
      && Ample(ram[..], pool, blocks)
    }

    /** Write the six words of the header at `y`. */
    method WriteHeader(y: int, magic: int, next: int, prev: int, nextFree: int, prevFree: int)
      requires Fits(ram.Length, y)
      modifies ram
      ensures ram[y + MAGIC] == magic && ram[y + POOL] == pool.id
      ensures ram[y + NEXT] == next && ram[y + PREV] == prev
      ensures ram[y + NEXT_FREE] == nextFree && ram[y + PREV_FREE] == prevFree
      ensures forall a :: 0 <= a < ram.Length && !(y <= a < y + HEADER_WORDS) ==> ram[a] == old(ram[a])
    {
      ram[y + MAGIC] := magic;
      ram[y + POOL] := pool.id;
      ram[y + NEXT] := next;
      ram[y + PREV] := prev;
      ram[y + NEXT_FREE] := nextFree;
      ram[y + PREV_FREE] := prevFree;
    }

    /** A pool of `bytes` bytes, rounded down to words, becomes one free block and a tail. */
    constructor (ram: array<int>, start: int, bytes: int, header: int, id: int)
      requires Pool(start, bytes / 4, header, id).Ok(ram.Length)
      modifies ram
      ensures Valid() && this.ram == ram && pool == Pool(start, bytes / 4, header, id)
      ensures Layout(ram[..], blocks) == [Seg(bytes / 4 - 2 * HEADER_WORDS, false)]
      ensures forall q :: !Live(ram[..], pool, blocks, q)
      ensures maxUsedSize == 2 * HEADER_WORDS && availableSize == bytes / 4 - maxUsedSize
      ensures forall a | 0 <= a < ram.Length && !(start <= a < start + bytes / 4)
                         && !(header <= a < header + HEADER_WORDS) :: ram[a] == old(ram[a])
    {
      this.ram := ram;
      pool := Pool(start, bytes / 4, header, id);
      freeList := header;
      availableSize := bytes / 4 - 2 * HEADER_WORDS;
      maxUsedSize := 2 * HEADER_WORDS;
      blocks := [start, start + bytes / 4 - HEADER_WORDS];
      free := [header, start];
      new;
      hide WellFormed, Layout, FreeWords, Live, Ample;
      var tail := pool.Tail();
      WriteHeader(freeList, FREE_MAGIC, NULL, NULL, start, start);
      WriteHeader(start, FREE_MAGIC, tail, tail, freeList, freeList);
      WriteHeader(tail, USED_MAGIC, start, start, NULL, NULL);
      FreshHeap(ram[..], pool);
      FreshUnheld(ram[..], pool);
    }

    method Write(a: int, v: int)
      requires 0 <= a < ram.Length
      modifies ram
      ensures ram[..] == old(ram[..])[a := v]
    {
      ram[a] := v;
    }

    // ----- the two lists -----

    method LinkBlock(h: int, x: int, ghost all: seq<int>, ghost b: seq<int>, ghost f: seq<int>, ghost k: int)
      requires TwoRings(ram[..], all, b, f)
      requires 0 <= k < |b| && h == b[k] && x in all && x !in b
      modifies ram
      ensures TwoRings(ram[..], all, InsertedAfter(b, k, x), f)
      ensures Inside(ram.Length, all) && LinksOnly(old(ram[..]), ram[..], all)
    {
      hide IsRing, Spaced, Subset, Distinct, InsertedAfter, LinksOnly;
      InsertBlock(ram[..], all, b, f, k, x);
      Write(x + PREV, h);
      Write(x + NEXT, ram[h + NEXT]);
      Write(ram[h + NEXT] + PREV, x);
      Write(h + NEXT, x);
    }

    method UnlinkBlock(x: int, ghost all: seq<int>, ghost b: seq<int>, ghost f: seq<int>, ghost k: int)
      requires TwoRings(ram[..], all, b, f)
      requires 0 <= k < |b| && x == b[k]
      modifies ram
      ensures TwoRings(ram[..], all, Removed(b, k), f)
      ensures Inside(ram.Length, all) && LinksOnly(old(ram[..]), ram[..], all)
    {
      hide IsRing, Spaced, Subset, Distinct, Removed, LinksOnly;
      RemoveBlock(ram[..], all, b, f, k);
      Write(ram[x + NEXT] + PREV, ram[x + PREV]);
      Write(ram[x + PREV] + NEXT, ram[x + NEXT]);
    }

    method LinkFree(x: int, ghost all: seq<int>, ghost b: seq<int>, ghost f: seq<int>)
      requires TwoRings(ram[..], all, b, f)
      requires f != [] && freeList == f[0] && x in all && x !in f
      modifies ram
      ensures TwoRings(ram[..], all, b, InsertedAfter(f, 0, x))
      ensures Inside(ram.Length, all) && LinksOnly(old(ram[..]), ram[..], all)
    {
      hide IsRing, Spaced, Subset, Distinct, InsertedAfter, LinksOnly;
      ghost var m := ram[..];
      InsertFree(m, all, b, f, x);
      Write(x + NEXT_FREE, ram[freeList + NEXT_FREE]);
      Write(x + PREV_FREE, freeList);
      Write(ram[freeList + NEXT_FREE] + PREV_FREE, x);
      Write(freeList + NEXT_FREE, x);
      assert ram[..] == LinkAfter(m, NEXT_FREE, PREV_FREE, freeList, x);
    }

    method UnlinkFree(x: int, ghost all: seq<int>, ghost b: seq<int>, ghost f: seq<int>, ghost k: int)
      requires TwoRings(ram[..], all, b, f)
      requires 0 <= k < |f| && x == f[k]
      modifies ram
      ensures TwoRings(ram[..], all, b, Removed(f, k))
      ensures Inside(ram.Length, all) && LinksOnly(old(ram[..]), ram[..], all)
    {
      hide IsRing, Spaced, Subset, Distinct, Removed, LinksOnly;
      RemoveFree(ram[..], all, b, f, k);
      Write(ram[x + NEXT_FREE] + PREV_FREE, ram[x + PREV_FREE]);
      Write(ram[x + PREV_FREE] + NEXT_FREE, ram[x + NEXT_FREE]);
    }
  
    /** Give the new header `x` its magic word and its pool. */
    method MarkFree(x: int, ghost all: seq<int>, ghost b: seq<int>, ghost f: seq<int>)
      requires TwoRings(ram[..], all, b, f) && x in all
      modifies ram
      ensures TwoRings(ram[..], all, b, f)
      ensures Fits(ram.Length, x) && ram[x + MAGIC] == FREE_MAGIC && ram[x + POOL] == pool.id
      ensures Inside(ram.Length, all) && MarksOnly(old(ram[..]), ram[..], all, x)
    {
      hide IsRing, Spaced, Subset, Distinct, Outside;
      PokeMark(ram[..], all, b, f, x, MAGIC, FREE_MAGIC);
      Write(x + MAGIC, FREE_MAGIC);
      PokeMark(ram[..], all, b, f, x, POOL, pool.id);
      Write(x + POOL, pool.id);
    }

    /** Take `h` off the free list and clear its links. */
    method DetachFree(h: int, ghost all: seq<int>, ghost b: seq<int>, ghost f: seq<int>, ghost k: int)
      requires TwoRings(ram[..], all, b, f)
      requires 0 <= k < |f| && h == f[k]
      modifies ram
      ensures TwoRings(ram[..], all, b, Removed(f, k))
      ensures Inside(ram.Length, all) && LinksOnly(old(ram[..]), ram[..], all)
    {
      hide IsRing, Spaced, Removed, LinksOnly;
      RemovedMembers(f, k);
      ghost var m0 := ram[..];
      UnlinkFree(h, all, b, f, k);
      ghost var m1 := ram[..];
      PokeLink(m1, all, b, Removed(f, k), h, NEXT_FREE, NULL);
      Write(h + NEXT_FREE, NULL);
      ghost var m2 := ram[..];
      PokeLink(m2, all, b, Removed(f, k), h, PREV_FREE, NULL);
      Write(h + PREV_FREE, NULL);
      LinksTrans(m0, m1, m2, all);
      LinksTrans(m0, m2, ram[..], all);
    }

    // ----- allocation -----

    /** The first block of the free list that can hold `want` words, if there is one. */
    method FindFit(want: int) returns (h: int, freeSize: int, ghost k: int)
      requires Sound() && want > 0
      ensures 1 <= k <= |free|
      ensures forall j :: 1 <= j < k ==> Fits(ram.Length, free[j]) && SizeAt(ram[..], free[j]) < want
      ensures k < |free| ==> h == free[k] && Fits(ram.Length, h) && freeSize == SizeAt(ram[..], h) && freeSize >= want
      ensures k == |free| ==> freeSize < want
      ensures Inside(ram.Length, free)
      ensures FirstFit(ram[..], free, 1, want) == if k < |free| then h + HEADER_WORDS else NULL
    {
      hide FirstFit, Tiles, Marked, ListsFree, Coalesced, LinksAt;
      FreeFacts(ram[..], pool, blocks, free);
      freeSize := 0;
      FirstLink(ram[..], free);
      h := ram[freeList + NEXT_FREE];
      k := 1;
      while h != freeList && freeSize < want
        invariant 1 <= k <= |free|
        invariant h == if k < |free| then free[k] else freeList
        invariant forall j :: 1 <= j < k ==> Fits(ram.Length, free[j]) && SizeAt(ram[..], free[j]) < want
        invariant freeSize >= want ==> k < |free| && Fits(ram.Length, h) && freeSize == SizeAt(ram[..], h)
        decreases |free| - k, if freeSize < want then 1 else 0
      {
        NextLink(ram[..], free, k);
        freeSize := ram[h + NEXT] - h - HEADER_WORDS;
        if freeSize < want {
          h := ram[h + NEXT_FREE];
          k := k + 1;
        }
      }
      FirstFitIs(ram[..], free, 1, k, want);
    }

    /** Cut `want` words off the free block `h`; the rest becomes a free block of its own. */
    method TakeSplit(h: int, want: int, ghost i: int, ghost k: int)
      requires Sound() && 0 <= i < |blocks| - 1 && 1 <= k < |free| && h == blocks[i] && h == free[k]
      requires want >= 0 && Splits(blocks[i + 1] - h - HEADER_WORDS, want)
      modifies this`blocks, this`free, ram
      ensures WellFormed(ram[..], pool, blocks, free)
      ensures Layout(ram[..], blocks) == AfterAlloc(old(Layout(ram[..], blocks)), i, want)
      ensures blocks == Spliced(old(blocks), i, i + 1, [h + want + HEADER_WORDS])
      ensures free == Relisted(old(free), [h + want + HEADER_WORDS], [h])
      ensures SameOutside(old(ram[..]), ram[..], blocks + [freeList])
    {
      hide WellFormed, TwoRings, Spliced, InsertedAfter, Removed, Layout, FreeWords, Inside, AfterAlloc, LinksOnly, MarksOnly,
           SameOutside, Relisted;
      var x := h + want + HEADER_WORDS;
      ghost var b, f := blocks, free;
      DistinctOf(ram[..], pool, b, f);
      RelistedIs(f, k, x);
      ghost var b', f' := InsertedAfter(b, i, x), InsertedAfter(Removed(f, k), 0, x);
      ghost var all := Spliced(b, i, i + 1, [x]) + [freeList];
      ghost var m0 := ram[..];
      Opening(m0, pool, b, f, i, [x]);
      SplitFacts(m0, pool, b, f, i, k, x, all);
      MarkFree(x, all, b, f);
      ghost var m1 := ram[..];
      LinkBlock(h, x, all, b, f, i);
      ghost var m2 := ram[..];
      DetachFree(h, all, b', f, k);
      ghost var m3 := ram[..];
      LinkFree(x, all, b', Removed(f, k));
      ghost var m4 := ram[..];
      PokeMark(m4, all, b', f', h, MAGIC, USED_MAGIC);
      Write(h + MAGIC, USED_MAGIC);
      LinksTrans(m1, m2, m3, all);
      LinksTrans(m1, m3, m4, all);
      MarksTrace(m0, m1, m4, ram[..], all, x, h);
      SplitDone(m0, ram[..], pool, b, f, i, k, x, all, want);
      blocks, free := b', f';
    }
  
    /** Take the whole free block `h`. */
    method TakeWhole(h: int, ghost want: int, ghost i: int, ghost k: int)
      requires Sound() && 0 <= i < |blocks| - 1 && 1 <= k < |free| && h == blocks[i] && h == free[k]
      requires !Splits(blocks[i + 1] - h - HEADER_WORDS, want)
      modifies this`free, ram
      ensures WellFormed(ram[..], pool, blocks, free)
      ensures Layout(ram[..], blocks) == AfterAlloc(old(Layout(ram[..], blocks)), i, want)
      ensures free == Relisted(old(free), [], [h])
      ensures SameOutside(old(ram[..]), ram[..], blocks + [freeList])
    {
      hide WellFormed, TwoRings, Spliced, Removed, Layout, FreeWords, Inside, AfterAlloc, LinksOnly, MarksOnly, SameOutside, Relisted;
      ghost var f := free;
      DistinctOf(ram[..], pool, blocks, f);
      RelistedIs(f, k, h);
      ghost var all := Spliced(blocks, i, i + 1, []) + [freeList];
      ghost var m0 := ram[..];
      Opening(m0, pool, blocks, f, i, []);
      WholeFacts(m0, pool, blocks, f, i, all);
      DetachFree(h, all, blocks, f, k);
      ghost var m1 := ram[..];
      PokeMark(m1, all, blocks, Removed(f, k), h, MAGIC, USED_MAGIC);
      Write(h + MAGIC, USED_MAGIC);
      LinksThenMark(m0, m1, ram[..], all, h);
      WholeDone(m0, ram[..], pool, blocks, f, i, k, all, want);
      free := Removed(f, k);
    }
  
    /** Some block on the free list can hold `want` words. */
    ghost predicate Fit(want: int)
      reads this, ram
    {
      FreeFit(ram[..], pool, free, want)
    }

    /** The payload at `p` is handed out. */
    ghost predicate IsLive(p: int)
      reads this, ram
    {
      Live(ram[..], pool, blocks, p)
    }

    method Alloc(size: int) returns (p: int)
      requires Valid() && 0 <= size < TWO32
      modifies this, ram
      ensures Valid()
      ensures p != NULL <==> Request(size) < old(availableSize) && old(Fit(Request(size)))
      ensures p == NULL ==> ram[..] == old(ram[..]) && blocks == old(blocks) && free == old(free)
      ensures p == NULL ==> availableSize == old(availableSize) && maxUsedSize == old(maxUsedSize)
      ensures p != NULL ==> Inside(ram.Length, old(free)) && p == old(FirstFit(ram[..], free, 1, Request(size)))
      ensures p != NULL ==> p - HEADER_WORDS in old(blocks)
      ensures p != NULL ==> var i := IndexOf(old(blocks), p - HEADER_WORDS);
        i < |old(blocks)| - 1 && Layout(ram[..], blocks) == AfterAlloc(old(Layout(ram[..], blocks)), i, Request(size))
      ensures p != NULL ==> IsLive(p) && !old(IsLive(p))
      ensures p != NULL ==> Request(size) <= PayloadSize(ram[..], p) < Request(size) + HEADER_WORDS + MIN_WORDS
      ensures p != NULL ==> Fits(ram.Length, p - HEADER_WORDS)
                            && availableSize == old(availableSize) - Taken(old(SizeAt(ram[..], p - HEADER_WORDS)), Request(size))
      ensures p != NULL ==> old(free) != [] && Fits(ram.Length, p - HEADER_WORDS) && var h := p - HEADER_WORDS;
        free == Relisted(old(free), if Splits(old(SizeAt(ram[..], h)), Request(size)) then [p + Request(size)] else [], [h])
      ensures Undisturbed(old(ram[..]), ram[..], pool, old(blocks), blocks, {p})
      ensures maxUsedSize == Max(old(maxUsedSize), pool.size - availableSize)
    {
      hide WellFormed, Layout, FreeWords, Spliced, Undisturbed, SameOutside, AfterAlloc, FirstFit, Inside, Live, Relisted;
      var want := Request(size);
      p := NULL;
      if want < availableSize {
        var h, freeSize;
        ghost var k;
        h, freeSize, k := FindFit(want);
        if freeSize >= want {
          FreeFacts(ram[..], pool, blocks, free);
          ghost var i := IndexFacts(ram[..], pool, blocks, free, h);
          ghost var m, b, f := ram[..], blocks, free;
          if freeSize >= want + HEADER_WORDS + MIN_WORDS {
            TakeSplit(h, want, i, k);
            availableSize := availableSize - want - HEADER_WORDS;
          } else {
            TakeWhole(h, want, i, k);
            availableSize := availableSize - freeSize;
          }
          if pool.size - availableSize > maxUsedSize {
            maxUsedSize := pool.size - availableSize;
          }
          p := h + HEADER_WORDS;
          AllocDone(m, ram[..], pool, b, f, free, i, want);
          StaysAmple(m, ram[..], pool, b, blocks, {p}, p);
          return;
        } else {
          FreeFacts(ram[..], pool, blocks, free);
        }
      }
      NothingDisturbed(ram[..], pool, blocks, {p});
    }
  
    // ----- freeing -----

    /** Join the free block `h` to the one before it, if that is free too. */
    method JoinLeft(h: int, ghost all: seq<int>, ghost b: seq<int>, ghost f: seq<int>, ghost i: int)
        returns (h': int, joined: bool)
      requires TwoRings(ram[..], all, b, f)
      requires 0 <= i < |b| && h == b[i] && Fits(ram.Length, b[Pred(|b|, i)])
      modifies this`availableSize, ram
      ensures joined <==> !IsUsed(old(ram[b[Pred(|b|, i)] + MAGIC]))
      ensures h' == if joined then b[Pred(|b|, i)] else h
      ensures availableSize == old(availableSize) + if joined then HEADER_WORDS else 0
      ensures TwoRings(ram[..], all, if joined then Removed(b, i) else b, f)
      ensures Inside(ram.Length, all) && LinksOnly(old(ram[..]), ram[..], all)
    {
      hide Spaced, Subset, Distinct, Removed;
      assert LinksAt(ram[..], NEXT, PREV, b, i);
      h', joined := h, !IsUsed(ram[ram[h + PREV] + MAGIC]);
      if joined {
        availableSize := availableSize + HEADER_WORDS;
        h' := ram[h + PREV];
        UnlinkBlock(h, all, b, f, i);
      }
    }

    /** Join the block behind the free block `h` to it, if that is free too. */
    method JoinRight(h: int, ghost all: seq<int>, ghost b: seq<int>, ghost f: seq<int>, ghost i: int, ghost k: int)
        returns (joined: bool)
      requires TwoRings(ram[..], all, b, f)
      requires 0 <= i < |b| - 1 && h == b[i] && Fits(ram.Length, b[i + 1])
      requires !IsUsed(ram[b[i + 1] + MAGIC]) ==> 0 <= k < |f| && f[k] == b[i + 1]
      modifies ram
      ensures joined <==> !IsUsed(old(ram[b[i + 1] + MAGIC]))
      ensures TwoRings(ram[..], all, if joined then Removed(b, i + 1) else b, if joined then Removed(f, k) else f)
      ensures Inside(ram.Length, all) && LinksOnly(old(ram[..]), ram[..], all)
    {
      hide Spaced, Subset, Distinct, Removed, LinksOnly;
      assert LinksAt(ram[..], NEXT, PREV, b, i);
      joined := !IsUsed(ram[ram[h + NEXT] + MAGIC]);
      ghost var m0 := ram[..];
      if joined {
        var next := ram[h + NEXT];
        UnlinkBlock(next, all, b, f, i + 1);
        ghost var m1 := ram[..];
        UnlinkFree(next, all, Removed(b, i + 1), f, k);
        LinksTrans(m0, m1, ram[..], all);
      } else {
        LinksSame(m0, all);
      }
    }
  
    /** Join the newly free block `h` to its free neighbours and see that the free list holds the result. */
    method Join(h: int, ghost all: seq<int>, ghost b: seq<int>, ghost f: seq<int>, ghost i: int, ghost k: int,
                ghost left: bool, ghost right: bool)
      requires TwoRings(ram[..], all, b, f)
      requires 0 <= i < |b| - 1 && h == b[i] && h in all
      requires Fits(ram.Length, b[Pred(|b|, i)]) && Fits(ram.Length, b[i + 1])
      requires b[Pred(|b|, i)] in all && b[i + 1] in all && b[Pred(|b|, i)] != h
      requires left <==> !IsUsed(ram[b[Pred(|b|, i)] + MAGIC])
      requires right <==> !IsUsed(ram[b[i + 1] + MAGIC])
      requires left ==> i > 0
      requires right ==> 0 <= k < |f| && f[k] == b[i + 1]
      requires |f| >= (if right then 2 else 1)
      requires var f1 := if right then Removed(f, k) else f; h !in f1 && f1[0] == freeList
      modifies this`availableSize, ram
      ensures TwoRings(ram[..], all, Spliced(b, if left then i - 1 else i, if right then i + 2 else i + 1, []),
                       FreedList(f, left, right, k, h))
      ensures Inside(ram.Length, all) && LinksOnly(old(ram[..]), ram[..], all)
      ensures availableSize == old(availableSize) + (if left then HEADER_WORDS else 0) + (if right then HEADER_WORDS else 0)
    {
      hide TwoRings, Spliced, Removed, InsertedAfter, Inside, LinksOnly, FreedList;
      ghost var m0 := ram[..];
      ghost var lo := if left then i - 1 else i;
      ghost var b1, f1 := if left then Removed(b, i) else b, if right then Removed(f, k) else f;
      JoinedAt(b, i, left);
      var h', joined := JoinLeft(h, all, b, f, i);
      ghost var m1 := ram[..];
      LinksKeepMark(m0, m1, all, b[i + 1]);
      var joinedRight := JoinRight(h', all, b1, f, lo, k);
      if joinedRight {
        availableSize := availableSize + HEADER_WORDS;
      }
      ghost var m2 := ram[..];
      ghost var b2 := if right then Removed(b1, lo + 1) else b1;
      RemovedSpliced(b, lo, i);
      FreedListIs(f, left, right, k, h);
      LinksTrans(m0, m1, m2, all);
      if !joined {
        LinkFree(h', all, b2, f1);
        LinksTrans(m0, m2, ram[..], all);
      }
    }

    /** Put the used block `h` back. */
    method Release(h: int, ghost i: int)
      requires Sound() && 0 <= i < |blocks| - 1 && h == blocks[i] && Layout(ram[..], blocks)[i].used
      modifies this`availableSize, this`blocks, this`free, ram
      ensures WellFormed(ram[..], pool, blocks, free)
      ensures Layout(ram[..], blocks) == AfterFree(old(Layout(ram[..], blocks)), i)
      ensures var s := old(Layout(ram[..], blocks));
              && blocks == Spliced(old(blocks), if FreeAt(s, i - 1) then i - 1 else i, if FreeAt(s, i + 1) then i + 2 else i + 1, [])
              && availableSize == old(availableSize) + s[i].size
                   + (if FreeAt(s, i - 1) then HEADER_WORDS else 0) + (if FreeAt(s, i + 1) then HEADER_WORDS else 0)
              && old(free) != [] && free == Relisted(old(free), if FreeAt(s, i - 1) then [] else [h],
                                                     if FreeAt(s, i + 1) then [old(blocks)[i + 1]] else [])
      ensures SameOutside(old(ram[..]), ram[..], old(blocks) + [freeList])
    {
      hide WellFormed, TwoRings, Spliced, Removed, Layout, FreeWords, Inside, AfterFree, LinksOnly, MarksOnly,
           SameOutside, FreedList, FreeAt, Subset, Relisted;
      ghost var b, f, m0 := blocks, free, ram[..];
      TilesOf(m0, pool, b, f);
      LiveAt(m0, pool, b, f, i);
      ghost var all := Spliced(b, i, i + 1, []) + [freeList];
      ghost var k, left, right := ReleaseOpening(m0, pool, b, f, i, all);
      PokeMark(m0, all, b, f, h, MAGIC, FREE_MAGIC);
      Write(h + MAGIC, ClearUsed(ram[h + MAGIC]));
      ghost var m1 := ram[..];
      MarkKeepsMark(m0, m1, all, h, b[i + 1]);
      MarkKeepsMark(m0, m1, all, h, b[Pred(|b|, i)]);
      availableSize := availableSize + (ram[h + NEXT] - h - HEADER_WORDS);
      Join(h, all, b, f, i, k, left, right);
      blocks := Spliced(b, if left then i - 1 else i, if right then i + 2 else i + 1, []);
      free := FreedList(f, left, right, k, h);
      DistinctOf(m0, pool, b, f);
      FreedListIs(f, left, right, k, h);
      RelistedIs(f, if right then k else 0, h);
      ReleaseClosing(m0, m1, ram[..], pool, b, f, i, left, right, k, all);
    }

    method Free(ptr: int)
      requires Valid() && (ptr == NULL || IsLive(ptr))
      modifies this, ram
      ensures Valid()
      ensures ptr == NULL ==> ram[..] == old(ram[..]) && blocks == old(blocks) && free == old(free)
      ensures ptr != NULL ==> !IsLive(ptr)
      ensures ptr != NULL ==> ptr - HEADER_WORDS in old(blocks)
      ensures ptr != NULL ==> var i := IndexOf(old(blocks), ptr - HEADER_WORDS);
        && i < |old(blocks)| - 1 && Layout(ram[..], blocks) == AfterFree(old(Layout(ram[..], blocks)), i)
        && old(free) != [] && free == Relisted(old(free),
             if FreeAt(old(Layout(ram[..], blocks)), i - 1) then [] else [ptr - HEADER_WORDS],
             if FreeAt(old(Layout(ram[..], blocks)), i + 1) then [old(blocks)[i + 1]] else [])
      ensures Undisturbed(old(ram[..]), ram[..], pool, old(blocks), blocks, {ptr})
      ensures maxUsedSize == old(maxUsedSize) && availableSize >= old(availableSize)
    {
      hide WellFormed, Spliced, Layout, FreeWords, AfterFree, SameOutside, Undisturbed, Live, FreeAt, Relisted;
      if ptr == NULL {
        NothingDisturbed(ram[..], pool, blocks, {ptr});
        return;
      }
      var h := ptr - HEADER_WORDS;
      ghost var b, f, m := blocks, free, ram[..];
      LiveFits(m, pool, b, ptr);
      ghost var i := IndexFacts(m, pool, b, f, h);
      Release(h, i);
      WellCoalesced(m, pool, b, f);
      ghost var s := Layout(m, b);
      FreedUndisturbed(m, ram[..], pool, b, f, free, i,
                       if FreeAt(s, i - 1) then i - 1 else i, if FreeAt(s, i + 1) then i + 2 else i + 1);
      FreeKeeps(s, i);
      StaysAmple(m, ram[..], pool, b, blocks, {ptr}, ptr);
    }
  
    // ----- resizing -----

    /** Let the used block `h` grow into the free block behind it, whose header moves. */
    method Grow(h: int, want: int, ghost i: int)
      requires Sound() && 0 <= i < |blocks| - 2 && h == blocks[i] && Layout(ram[..], blocks)[i].used
      requires FreeAt(Layout(ram[..], blocks), i + 1)
      requires want > Layout(ram[..], blocks)[i].size
      requires h + want + 2 * HEADER_WORDS <= blocks[i + 2]
      modifies this`blocks, this`free, ram
      ensures WellFormed(ram[..], pool, blocks, free)
      ensures Layout(ram[..], blocks) == AfterResize(old(Layout(ram[..], blocks)), i, want)
      ensures blocks == Spliced(old(blocks), i, i + 2, [h + want + HEADER_WORDS])
      ensures SameOutside(old(ram[..]), ram[..], old(blocks) + [h + want + HEADER_WORDS] + [freeList])
    {
      hide WellFormed, TwoRings, Spliced, Removed, InsertedAfter, Layout, FreeWords, Inside, AfterResize, LinksOnly, MarksOnly,
           SameOutside, MovedList, FreeAt, Subset;
      ghost var b, f, m0 := blocks, free, ram[..];
      TilesOf(m0, pool, b, f);
      BlockApart(pool, b, i, i + 1);
      LiveAt(m0, pool, b, f, i);
      ghost var k, right := ResizeOpening(m0, pool, b, f, i);
      var x := h + want + HEADER_WORDS;
      ghost var all := Spliced(b, i, i + 1, []) + [freeList];
      ghost var all' := Spliced(b, i, i + 2, [x]) + [freeList];
      Opening(m0, pool, b, f, i, []);
      RingsInside(m0, all, b, f);
      var next := ram[h + NEXT];
      UnlinkFree(next, all, b, f, k);
      ghost var m1 := ram[..];
      UnlinkBlock(next, all, b, Removed(f, k), i + 1);
      ghost var m2 := ram[..];
      LinksTrans(m0, m1, m2, all);
      GrowSwitch(m0, m2, pool, b, f, i, k, x, all, all');
      MarkFree(x, all', Removed(b, i + 1), Removed(f, k));
      ghost var m3 := ram[..];
      LinkBlock(h, x, all', Removed(b, i + 1), Removed(f, k), i);
      ghost var m4 := ram[..];
      MovedListIs(f, true, k, x);
      DistinctOf(m0, pool, b, f);
      MovedMembers(f, true, k, x);
      LinkFree(x, all', Spliced(b, i, i + 2, [x]), Removed(f, k));
      LinksTrans(m3, m4, ram[..], all');
      GrowClosing(m0, m2, m3, ram[..], pool, b, f, i, k, x, all, all');
      blocks := Spliced(b, i, i + 2, [x]);
      free := MovedList(f, true, k, x);
    }

    /** Cut the end off the used block `h`; it joins the block behind it if that is free. */
    method Shrink(h: int, want: int, ghost i: int)
      requires Sound() && 0 <= i < |blocks| - 1 && h == blocks[i] && Layout(ram[..], blocks)[i].used
      requires 0 <= want && want + HEADER_WORDS <= Layout(ram[..], blocks)[i].size
      modifies this`availableSize, this`blocks, this`free, ram
      ensures WellFormed(ram[..], pool, blocks, free)
      ensures Layout(ram[..], blocks) == AfterResize(old(Layout(ram[..], blocks)), i, want)
      ensures blocks == Spliced(old(blocks), i, if FreeAt(old(Layout(ram[..], blocks)), i + 1) then i + 2 else i + 1,
                                [h + want + HEADER_WORDS])
      ensures SameOutside(old(ram[..]), ram[..], old(blocks) + [h + want + HEADER_WORDS] + [freeList])
      ensures var s := old(Layout(ram[..], blocks));
              availableSize == old(availableSize) + s[i].size - want - (if FreeAt(s, i + 1) then 0 else HEADER_WORDS)
    {
      hide WellFormed, TwoRings, Spliced, Removed, InsertedAfter, Layout, FreeWords, Inside, AfterResize, LinksOnly, MarksOnly,
           SameOutside, MovedList, FreeAt, Subset;
      ghost var b, f, m0 := blocks, free, ram[..];
      TilesOf(m0, pool, b, f);
      BlockApart(pool, b, i, i + 1);
      LiveAt(m0, pool, b, f, i);
      ghost var k, right := ResizeOpening(m0, pool, b, f, i);
      var x := h + want + HEADER_WORDS;
      ghost var all := Spliced(b, i, i + 1, [x]) + [freeList];
      Opening(m0, pool, b, f, i, [x]);
      RingsInside(m0, all, b, f);
      MarkFree(x, all, b, f);
      ghost var m1 := ram[..];
      LinkBlock(h, x, all, b, f, i);
      ghost var m2 := ram[..];
      ShrinkSeqs(b, i, x);
      MarkKeepsMark(m0, m1, all, x, b[i + 1]);
      LinksKeepMark(m1, m2, all, b[i + 1]);
      RingNext(m2, all, InsertedAfter(b, i, x), f, i + 1);
      if !IsUsed(ram[ram[x + NEXT] + MAGIC]) {
        RingNext(m2, all, InsertedAfter(b, i, x), f, i + 2);
        availableSize := availableSize - (ram[ram[x + NEXT] + NEXT] - ram[x + NEXT] - HEADER_WORDS);
      }
      var joined := JoinRight(x, all, InsertedAfter(b, i, x), f, i + 1, k);
      ghost var m3 := ram[..];
      MovedListIs(f, right, k, x);
      DistinctOf(m0, pool, b, f);
      MovedMembers(f, right, k, x);
      ghost var b' := Spliced(b, i, if right then i + 2 else i + 1, [x]);
      LinkFree(x, all, b', if right then Removed(f, k) else f);
      RingNext(ram[..], all, b', MovedList(f, right, k, x), i + 1);
      LinksTrans(m1, m2, m3, all);
      LinksTrans(m1, m3, ram[..], all);
      ShrinkClosing(m0, m1, ram[..], pool, b, f, i, right, k, x, all);
      blocks, free := b', MovedList(f, right, k, x);
      availableSize := availableSize + (ram[x + NEXT] - x - HEADER_WORDS);
    }
  
    // ----- realloc -----

    /** Copy `n` words; the two ranges do not overlap. */
    method MemCpy(dst: int, src: int, n: int)
      requires 0 <= n && 0 <= src && src + n <= ram.Length && 0 <= dst && dst + n <= ram.Length
      requires src + n <= dst || dst + n <= src
      modifies ram
      ensures forall a :: dst <= a < dst + n ==> ram[a] == old(ram[a - dst + src])
      ensures forall a :: 0 <= a < ram.Length && !(dst <= a < dst + n) ==> ram[a] == old(ram[a])
    {
      var i := 0;
      while i < n
        invariant 0 <= i <= n
        invariant forall a :: dst <= a < dst + i ==> ram[a] == old(ram[a - dst + src])
        invariant forall a :: 0 <= a < ram.Length && !(dst <= a < dst + i) ==> ram[a] == old(ram[a])
      {
        ram[dst + i] := ram[src + i];
        i := i + 1;
      }
    }

    /** The block behind the payload at `ptr` is free. */
    ghost predicate FreeBehind(ptr: int)
      requires Valid() && IsLive(ptr)
      reads this, ram
    {
      FreeAt(Layout(ram[..], blocks), LiveIndex(ram[..], pool, blocks, ptr) + 1)
    }

    /** The block behind the payload at `ptr` is free and large enough for it to grow to `want` words in place. */
    ghost predicate CanGrow(ptr: int, want: int)
      requires Valid() && IsLive(ptr)
      reads this, ram
    {
      var i := LiveIndex(ram[..], pool, blocks, ptr);
      var s := Layout(ram[..], blocks);
      FreeAt(s, i + 1) && s[i].size + s[i + 1].size - want > MIN_WORDS
    }

    /** Grow the payload at `ptr` in place and keep the accounts. */
    method GrowPayload(ptr: int, want: int)
      requires Valid() && IsLive(ptr) && CanGrow(ptr, want)
      requires want > PayloadSize(ram[..], ptr)
      modifies this, ram
      ensures Valid()
      ensures IsLive(ptr) && PayloadSize(ram[..], ptr) == want
      ensures forall a :: ptr <= a < ptr + old(PayloadSize(ram[..], ptr)) && a < ram.Length ==> ram[a] == old(ram[a])
      ensures Undisturbed(old(ram[..]), ram[..], pool, old(blocks), blocks, {ptr})
      ensures maxUsedSize == Max(old(maxUsedSize), pool.size - availableSize)
      ensures availableSize == old(availableSize) + old(PayloadSize(ram[..], ptr)) - want
    {
      hide WellFormed, Spliced, Layout, FreeWords, Inside, AfterResize, SameOutside, Undisturbed, Live, Resized;
      var h := ptr - HEADER_WORDS;
      ghost var b, f, m := blocks, free, ram[..];
      TilesOf(m, pool, b, f);
      LiveFits(m, pool, b, ptr);
      ghost var i := LiveIndex(m, pool, b, ptr);
      ghost var x := h + want + HEADER_WORDS;
      LiveAt(m, pool, b, f, i);
      LiveAt(m, pool, b, f, i + 1);
      var oldSize := ram[h + NEXT] - h - HEADER_WORDS;
      availableSize := availableSize - (want - oldSize);
      if pool.size - availableSize > maxUsedSize {
        maxUsedSize := pool.size - availableSize;
      }
      Grow(h, want, i);
      ResizedIs(m, ram[..], pool, b, f, blocks, free, i, x);
      ResizedBlock(m, ram[..], pool, b, f, blocks, free, i, x);
      ResizedOthers(m, ram[..], pool, b, f, blocks, free, i, x);
      forall a | ptr <= a < ptr + PayloadSize(m, ptr) && a < ram.Length
        ensures ram[..][a] == m[a]
      {
        ResizedWords(m, ram[..], pool, b, f, blocks, free, i, x, a);
      }
      StaysAmple(m, ram[..], pool, b, blocks, {ptr}, ptr);
    }

    /** Grow in place if that is possible. */
    method TryGrow(ptr: int, want: int) returns (grown: bool)
      requires Valid() && IsLive(ptr)
      requires want > PayloadSize(ram[..], ptr) && 4 * want < TWO32
      requires FreeBehind(ptr) ==> 4 * want + 4 * MIN_WORDS < TWO32
      modifies this, ram
      ensures Valid()
      ensures grown == old(CanGrow(ptr, want))
      ensures !grown ==> ram[..] == old(ram[..]) && blocks == old(blocks) && free == old(free)
      ensures !grown ==> availableSize == old(availableSize) && maxUsedSize == old(maxUsedSize)
      ensures grown ==> IsLive(ptr) && PayloadSize(ram[..], ptr) == want
      ensures grown ==> availableSize == old(availableSize) + old(PayloadSize(ram[..], ptr)) - want
      ensures grown ==> forall a :: ptr <= a < ptr + old(PayloadSize(ram[..], ptr)) && a < ram.Length ==> ram[a] == old(ram[a])
      ensures Undisturbed(old(ram[..]), ram[..], pool, old(blocks), blocks, {ptr})
      ensures maxUsedSize == Max(old(maxUsedSize), pool.size - availableSize)
    {
      hide WellFormed, Spliced, Layout, FreeWords, Inside, AfterResize, SameOutside, Undisturbed, Live;
      var h := ptr - HEADER_WORDS;
      ghost var b, f, m := blocks, free, ram[..];
      TilesOf(m, pool, b, f);
      LiveFits(m, pool, b, ptr);
      ghost var i := LiveIndex(m, pool, b, ptr);
      LiveAt(m, pool, b, f, i);
      WellCoalesced(m, pool, b, f);
      ghost var k, right := ResizeOpening(m, pool, b, f, i);
      var oldSize := ram[h + NEXT] - h - HEADER_WORDS;
      var next := ram[h + NEXT];
      if !IsUsed(ram[next + MAGIC]) {
        LiveAt(m, pool, b, f, i + 1);
        var nextSize := ram[next + NEXT] - next - HEADER_WORDS;
        BlockApart(pool, b, i + 1, |b| - 1);
        GrowFitsExact(nextSize, oldSize, want);
        if GrowFits(nextSize, oldSize, want) {
          GrowPayload(ptr, want);
          return true;
        }
      }
      NothingDisturbed(m, pool, b, {ptr});
      grown := false;
    }
  
    /** Shrink the payload at `ptr` in place and keep the accounts. */
    method ShrinkPayload(ptr: int, want: int)
      requires Valid() && IsLive(ptr) && MIN_WORDS <= want
      requires want + HEADER_WORDS <= PayloadSize(ram[..], ptr)
      modifies this, ram
      ensures Valid()
      ensures IsLive(ptr) && PayloadSize(ram[..], ptr) == want
      ensures forall a :: ptr <= a < ptr + want && a < ram.Length ==> ram[a] == old(ram[a])
      ensures Undisturbed(old(ram[..]), ram[..], pool, old(blocks), blocks, {ptr})
      ensures maxUsedSize == old(maxUsedSize) && availableSize >= old(availableSize)
      ensures availableSize
              == old(availableSize) + old(PayloadSize(ram[..], ptr)) - want - (if old(FreeBehind(ptr)) then 0 else HEADER_WORDS)
    {
      hide WellFormed, Spliced, Layout, FreeWords, Inside, AfterResize, SameOutside, Undisturbed, Live, Resized, FreeAt;
      var h := ptr - HEADER_WORDS;
      ghost var b, f, m := blocks, free, ram[..];
      TilesOf(m, pool, b, f);
      LiveFits(m, pool, b, ptr);
      ghost var i := LiveIndex(m, pool, b, ptr);
      ghost var x := h + want + HEADER_WORDS;
      LiveAt(m, pool, b, f, i);
      ghost var k, right := ResizeOpening(m, pool, b, f, i);
      BlockApart(pool, b, i, if right then i + 2 else i + 1);
      Shrink(h, want, i);
      ResizedIs(m, ram[..], pool, b, f, blocks, free, i, x);
      ResizedBlock(m, ram[..], pool, b, f, blocks, free, i, x);
      ResizedOthers(m, ram[..], pool, b, f, blocks, free, i, x);
      forall a | ptr <= a < ptr + want && a < ram.Length
        ensures ram[..][a] == m[a]
      {
        ResizedWords(m, ram[..], pool, b, f, blocks, free, i, x, a);
      }
      StaysAmple(m, ram[..], pool, b, blocks, {ptr}, ptr);
    }

    /** Copy the start of one payload to another. */
    method CopyPayload(dst: int, src: int, n: int)
      requires Valid() && IsLive(dst) && IsLive(src) && dst != src
      requires 0 <= n <= PayloadSize(ram[..], dst) && n <= PayloadSize(ram[..], src)
      modifies ram
      ensures Valid() && IsLive(dst) && IsLive(src)
      ensures PayloadSize(ram[..], dst) == old(PayloadSize(ram[..], dst))
      ensures forall a :: dst <= a < dst + n && a < ram.Length && 0 <= a - dst + src < ram.Length ==>
                ram[a] == old(ram[a - dst + src])
      ensures Undisturbed(old(ram[..]), ram[..], pool, old(blocks), blocks, {dst})
    {
      hide WellFormed, Layout, FreeWords, Inside, Undisturbed, Live;
      ghost var m := ram[..];
      PayloadsApart(m, pool, blocks, free, dst, src);
      MemCpy(dst, src, n);
      PayloadWritten(m, ram[..], pool, blocks, free, dst);
      DisturbedNot(m, ram[..], pool, blocks, blocks, {dst}, src);
      StaysAmple(m, ram[..], pool, blocks, blocks, {dst}, dst);
    }

    /** Copy words of another memory to the start of a payload. */
    method CopyIn(dst: int, src: array<int>, from: int, n: int)
      requires Valid() && IsLive(dst) && src != ram && 0 <= from && from + n <= src.Length
      requires 0 <= n <= PayloadSize(ram[..], dst)
      modifies ram
      ensures Valid() && IsLive(dst) && PayloadSize(ram[..], dst) == old(PayloadSize(ram[..], dst))
      ensures 0 <= dst && dst + n <= ram.Length && forall a :: dst <= a < dst + n ==> ram[a] == src[a - dst + from]
      ensures Undisturbed(old(ram[..]), ram[..], pool, old(blocks), blocks, {dst})
    {
      hide WellFormed, Layout, FreeWords, Inside, Undisturbed, Live;
      ghost var m := ram[..];
      PayloadsApart(m, pool, blocks, free, dst, dst);
      var i := 0;
      while i < n
        invariant 0 <= i <= n
        invariant forall a :: dst <= a < dst + i ==> ram[a] == src[a - dst + from]
        invariant forall a :: 0 <= a < ram.Length && !(dst <= a < dst + i) ==> ram[a] == m[a]
      {
        ram[dst + i] := src[from + i];
        i := i + 1;
      }
      PayloadWritten(m, ram[..], pool, blocks, free, dst);
      StaysAmple(m, ram[..], pool, blocks, blocks, {dst}, dst);
    }

    /** Move the payload at `ptr` to a new and larger block. */
    method MoveTo(ptr: int, want: int, oldSize: int) returns (r: int)
      requires Valid() && IsLive(ptr) && 0 <= oldSize == PayloadSize(ram[..], ptr) < want
      requires MIN_WORDS <= want && 4 * want + 4 <= TWO32
      modifies this, ram
      ensures Valid()
      ensures r != NULL <==> want < old(availableSize) && old(Fit(want))
      ensures r == NULL ==>
        ram[..] == old(ram[..]) && blocks == old(blocks) && free == old(free) && availableSize == old(availableSize)
      ensures r != NULL ==> r != ptr && IsLive(r) && !old(IsLive(r)) && !IsLive(ptr)
      ensures r != NULL ==> want <= PayloadSize(ram[..], r) < want + HEADER_WORDS + MIN_WORDS
      ensures r != NULL ==> Inside(ram.Length, old(free)) && r == old(FirstFit(ram[..], free, 1, want))
      ensures r != NULL ==>
        forall a :: r <= a < r + oldSize && a < ram.Length && 0 <= a - r + ptr < ram.Length ==> ram[a] == old(ram[a - r + ptr])
      ensures Undisturbed(old(ram[..]), ram[..], pool, old(blocks), blocks, {ptr, r})
      ensures r == NULL ==> maxUsedSize == old(maxUsedSize)
      ensures r != NULL ==> Fits(ram.Length, r - HEADER_WORDS) && maxUsedSize == Max(old(maxUsedSize),
        pool.size - (old(availableSize) - Taken(old(SizeAt(ram[..], r - HEADER_WORDS)), want)))
    {
      hide WellFormed, Layout, FreeWords, Undisturbed, Live, FreeFit, Taken, FirstFit, Inside, Relisted, AfterFree, AfterAlloc;
      ghost var m0, b0 := ram[..], blocks;
      r := Alloc(4 * want);
      if r == NULL {
        UndisturbedMore(m0, ram[..], pool, b0, blocks, {r}, {ptr, r});
        return;
      }
      ghost var m1, b1 := ram[..], blocks;
      DisturbedNot(m0, m1, pool, b0, b1, {r}, ptr);
      CopyPayload(r, ptr, oldSize);
      ghost var m2 := ram[..];
      Free(ptr);
      DisturbedNot(m2, ram[..], pool, b1, blocks, {ptr}, r);
      UndisturbedTrans(m0, m1, m2, pool, b0, b1, b1, {r}, {r}, {ptr, r});
      UndisturbedTrans(m0, m2, ram[..], pool, b0, b1, blocks, {ptr, r}, {ptr}, {ptr, r});
    }

    /**
     A request that wraps in the test for growing in place, with a free block behind, is excluded: the
     test then passes (GrowFitsExact) and the header is written past the words that are there.
     */
    method Realloc(ptr: int, newSize: int) returns (r: int)
      requires Valid() && (ptr == NULL || IsLive(ptr)) && 0 <= newSize < TWO32
      requires ptr != NULL && FreeBehind(ptr) ==> 4 * Request(newSize) + 4 * MIN_WORDS < TWO32
      modifies this, ram
      ensures Valid()
      ensures newSize == 0 ==> r == NULL && (ptr != NULL ==> !IsLive(ptr))
      ensures newSize > 0 && ptr == NULL ==>
        (r != NULL <==> Request(newSize) < old(availableSize) && old(Fit(Request(newSize))))
      ensures newSize > 0 && ptr != NULL ==>
        (r == NULL <==>
         Request(newSize) > old(PayloadSize(ram[..], ptr)) && !old(CanGrow(ptr, Request(newSize)))
         && !(Request(newSize) < old(availableSize) && old(Fit(Request(newSize)))))
      ensures newSize > 0 && r == NULL ==>
        ram[..] == old(ram[..]) && blocks == old(blocks) && free == old(free) && availableSize == old(availableSize)
      ensures r != NULL ==> IsLive(r) && PayloadSize(ram[..], r) >= Request(newSize)
      ensures newSize > 0 && ptr != NULL ==>
        (r == ptr <==> Request(newSize) <= old(PayloadSize(ram[..], ptr)) || old(CanGrow(ptr, Request(newSize))))
      ensures newSize > 0 && ptr != NULL && r == ptr ==>
        var before, after := old(PayloadSize(ram[..], ptr)), PayloadSize(ram[..], ptr);
        && after == FittedSize(before, Request(newSize))
        && availableSize == old(availableSize) + before - after - (if after < before && !old(FreeBehind(ptr)) then HEADER_WORDS else 0)
      ensures r != NULL && r != ptr ==>
        && PayloadSize(ram[..], r) < Request(newSize) + HEADER_WORDS + MIN_WORDS
        && Inside(ram.Length, old(free)) && r == old(FirstFit(ram[..], free, 1, Request(newSize)))
      ensures r != NULL && r != ptr ==> !old(IsLive(r)) && (ptr != NULL ==> !IsLive(ptr))
      ensures r != NULL && ptr != NULL ==>
        SameWords(old(ram[..]), ram[..], ptr, r, Min(Request(newSize), old(PayloadSize(ram[..], ptr))))
      ensures Undisturbed(old(ram[..]), ram[..], pool, old(blocks), blocks, {ptr, r})
      ensures r != NULL ==> Fits(ram.Length, r - HEADER_WORDS)
      ensures maxUsedSize == Max(old(maxUsedSize), pool.size - if r == NULL || r == ptr then availableSize else
        old(availableSize) - Taken(old(SizeAt(ram[..], r - HEADER_WORDS)), Request(newSize)))
    {
      hide WellFormed, Layout, FreeWords, Undisturbed, Live, CanGrow, FreeFit, Taken, FreeBehind, FirstFit, Inside,
           Relisted, AfterFree, AfterAlloc;
      if newSize == 0 {
        Free(ptr);
        UndisturbedMore(old(ram[..]), ram[..], pool, old(blocks), blocks, {ptr}, {ptr, NULL});
        return NULL;
      }
      var want := Request(newSize);
      if ptr == NULL {
        r := Alloc(4 * want);
        UndisturbedMore(old(ram[..]), ram[..], pool, old(blocks), blocks, {r}, {ptr, r});
        return;
      }
      LiveFits(ram[..], pool, blocks, ptr);
      PayloadsApart(ram[..], pool, blocks, free, ptr, ptr);
      var h := ptr - HEADER_WORDS;
      var oldSize := ram[h + NEXT] - h - HEADER_WORDS;
      if want > oldSize {
        var grown := TryGrow(ptr, want);
        if grown {
          UndisturbedMore(old(ram[..]), ram[..], pool, old(blocks), blocks, {ptr}, {ptr, ptr});
          return ptr;
        }
        r := MoveTo(ptr, want, oldSize);
        return;
      }
      if want + HEADER_WORDS + MIN_WORDS >= oldSize {
        NothingDisturbed(ram[..], pool, blocks, {ptr, ptr});
        return ptr;
      }
      ShrinkPayload(ptr, want);
      UndisturbedMore(old(ram[..]), ram[..], pool, old(blocks), blocks, {ptr}, {ptr, ptr});
      return ptr;
    }
  }

  /** A fresh heap refuses a request for all of its `words` free words, although it has a block with so much room. */
  method StrictTestRefuses(words: int) returns (p: int, room: int)
    requires words >= MIN_WORDS && 4 * (words + 4 * HEADER_WORDS) <= TWO32
    ensures p == NULL && room >= words
  {
    hide WellFormed, Layout, FreeWords, Live, Ample, FirstFit, AfterAlloc, Undisturbed, Relisted;
    var ram := new int[words + 4 * HEADER_WORDS];
    var heap := new MemHeap(ram, 2 * HEADER_WORDS, 4 * (words + 2 * HEADER_WORDS), HEADER_WORDS, 1);
    OneWords(Seg(words, false));
    var h, freeSize;
    ghost var k;
    h, freeSize, k := heap.FindFit(words);
    FreshFit(heap.ram[..], heap.pool, heap.blocks, heap.free, words);
    room := freeSize;
    p := heap.Alloc(4 * words);
  }

  lemma FreshFit(m: seq<int>, p: Pool, blocks: seq<int>, free: seq<int>, want: int)
    requires WellFormed(m, p, blocks, free) && Layout(m, blocks) == [Seg(want, false)]
    ensures |free| > 1 && free[1] == p.start && Fits(|m|, free[1]) && SizeAt(m, free[1]) == want
  {
    hide IsRing, Marked, ListsFree, Coalesced;
    assert |blocks| == 2;
    LiveAt(m, p, blocks, free, 0);
    UsedMagic(m, p, blocks, free, 0);
    FreeIsOne(m, p, blocks, free);
  }

  /** What is handed out of a fresh heap that is large enough is as long as asked, and the rest lies free behind it. */
  lemma FreshTaken(m: seq<int>, p: Pool, blocks: seq<int>, free: seq<int>, size: int, want: int, q: int)
    requires WellFormed(m, p, blocks, free) && Live(m, p, blocks, q) && Splits(size, want)
    requires Layout(m, blocks) == AfterAlloc([Seg(size, false)], 0, want)
    ensures Fits(|m|, q - HEADER_WORDS) && m[q - HEADER_WORDS + NEXT] - q == want
    ensures var y := q + want;
            && Fits(|m|, y) && m[y + MAGIC] != USED_MAGIC && m[y + NEXT] - y - HEADER_WORDS == size - want - HEADER_WORDS
    ensures Tiles(p, blocks) && FreeAt(Layout(m, blocks), LiveIndex(m, p, blocks, q) + 1)
  {
    hide WellFormed, Live;
    TilesOf(m, p, blocks, free);
    var i := LiveIndex(m, p, blocks, q);
    LiveAt(m, p, blocks, free, i);
    assert Layout(m, blocks) == [Seg(want, true), Seg(size - want - HEADER_WORDS, false)];
    LiveAt(m, p, blocks, free, 1);
    UsedMagic(m, p, blocks, free, 1);
  }

  /** Asked for 2^32 - 1 bytes, the heap hands out a block of three words. */
  method AllocWraps() returns (p: int, words: int)
    ensures p != NULL && words == 3
  {
    var heap;
    heap, p := SmallestTaken(TWO32 - 1);
    words := heap.ram[p - HEADER_WORDS + NEXT] - p;
  }

  /** The heap of 24 words after a request that rounds to three words. */
  method SmallestTaken(size: int) returns (heap: MemHeap, p: int)
    requires 0 <= size < TWO32 && Request(size) == MIN_WORDS
    ensures fresh(heap) && fresh(heap.ram) && heap.Valid() && heap.IsLive(p) && p != NULL
    ensures Layout(heap.ram[..], heap.blocks) == AfterAlloc([Seg(4 * HEADER_WORDS, false)], 0, MIN_WORDS)
    ensures Fits(heap.ram.Length, p - HEADER_WORDS) && heap.ram[p - HEADER_WORDS + NEXT] - p == MIN_WORDS
    ensures var y := p + MIN_WORDS;
            && Fits(heap.ram.Length, y) && heap.ram[y + MAGIC] != USED_MAGIC && heap.ram[y + NEXT] - y - HEADER_WORDS == 15
    ensures heap.FreeBehind(p)
  {
    hide WellFormed, Layout, FreeWords, Live, Ample, FirstFit, AfterAlloc, Undisturbed, Relisted;
    var ram := new int[8 * HEADER_WORDS];
    heap := new MemHeap(ram, 2 * HEADER_WORDS, 4 * 6 * HEADER_WORDS, HEADER_WORDS, 1);
    FreshFit(heap.ram[..], heap.pool, heap.blocks, heap.free, 4 * HEADER_WORDS);
    assert heap.free[1] in heap.free;
    assert heap.Fit(Request(size));
    p := heap.Alloc(size);
    FreshTaken(heap.ram[..], heap.pool, heap.blocks, heap.free, 4 * HEADER_WORDS, MIN_WORDS, p);
  }

  /**
   A payload of three words with a free block of fifteen behind it: asked to grow to 2^32 - 4 bytes, it
   passes the test of rt_memheap_realloc.
   */
  method GrowWraps() returns (words: int, freeBehind: bool, behind: int, passes: bool)
    ensures words == 3 && freeBehind && behind == 15 && passes
    ensures words + behind < Request(TWO32 - 4)
  {
    var heap, p := SmallestTaken(12);
    words := heap.ram[p - HEADER_WORDS + NEXT] - p;
    var y := heap.ram[p - HEADER_WORDS + NEXT];
    freeBehind := heap.ram[y + MAGIC] != USED_MAGIC;
    behind := heap.ram[y + NEXT] - y - HEADER_WORDS;
    passes := GrowFits(behind, words, Request(TWO32 - 4));
    GrowFitsExact(behind, words, Request(TWO32 - 4));
  }
}
