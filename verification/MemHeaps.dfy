/**
 Several memory heaps, each over memory of its own: allocation tries them in order, and a payload that
 outgrows its heap moves to another.
 */
module MemHeaps {
  import opened Lists
  import opened Ring
  import opened HeapLayout
  import opened HeapImage
  import opened HeapClients
  import opened HeapResize
  import opened MemHeap

  /** A payload, by heap and address. */
  datatype Ptr = Null | At(heap: int, addr: int)

  /** All there is to a heap at one moment. */
  datatype Shot = Shot(m: seq<int>, blocks: seq<int>, free: seq<int>, available: int, highest: int)

  ghost function ShotOf(h: MemHeap): Shot
    reads h, h.ram
  {
    Shot(h.ram[..], h.blocks, h.free, h.availableSize, h.maxUsedSize)
  }

  /** What MemHeap.Valid says, of a heap at one moment. */
  ghost predicate ShotOk(s: Shot, p: Pool) {
    && WellFormed(s.m, p, s.blocks, s.free)
    && s.available == FreeWords(Layout(s.m, s.blocks)) && p.size - s.available <= s.highest && Ample(s.m, p, s.blocks)
  }

  lemma ShotIs(h: MemHeap)
    ensures h.Valid() <==> ShotOk(ShotOf(h), h.pool) && h.freeList == h.pool.header
  {
    hide WellFormed, Layout, FreeWords, Ample;
  }

  /** The payload is handed out. */
  ghost predicate Held(s: Shot, p: Pool, addr: int) {
    Live(s.m, p, s.blocks, addr)
  }

  ghost function SizeIn(s: Shot, addr: int): int {
    if Fits(|s.m|, addr - HEADER_WORDS) then PayloadSize(s.m, addr) else 0
  }

  /** Every payload but those in `except` is handed out, or not, as before, and has its size and words. */
  ghost predicate Kept(s: Shot, s': Shot, p: Pool, except: set<int>) {
    Undisturbed(s.m, s'.m, p, s.blocks, s'.blocks, except)
  }

  /** The test of a heap before its search, and the search, let the request pass. */
  ghost predicate CanGive(s: Shot, p: Pool, size: int)
    requires 0 <= size < TWO32
  {
    Request(size) < s.available && FreeFit(s.m, p, s.free, Request(size))
  }

  /** The block behind is free. */
  ghost predicate FreeNext(s: Shot, p: Pool, addr: int) {
    Held(s, p, addr) && Tiles(p, s.blocks) && Inside(|s.m|, s.blocks)
    && FreeAt(Layout(s.m, s.blocks), LiveIndex(s.m, p, s.blocks, addr) + 1)
  }

  /** The payload has the size already, or the block behind has room for the rest. */
  ghost predicate CanStay(s: Shot, p: Pool, addr: int, size: int)
    requires 0 <= size < TWO32
  {
    Request(size) <= SizeIn(s, addr)
    || (FreeNext(s, p, addr)
        && var i, l := LiveIndex(s.m, p, s.blocks, addr), Layout(s.m, s.blocks);
           l[i].size + l[i + 1].size - Request(size) > MIN_WORDS)
  }

  // ----- what a call does to one heap -----

  ghost predicate Gave(s: Shot, s': Shot, p: Pool, size: int, addr: int)
    requires 0 <= size < TWO32
  {
    if addr == NULL then !CanGive(s, p, size) && s' == s
    else CanGive(s, p, size) && Held(s', p, addr) && !Held(s, p, addr) && NewSize(s', addr, size) && Kept(s, s', p, {addr})
  }

  /** A new payload has the words asked for, and none that could have stayed behind as a block. */
  ghost predicate NewSize(s: Shot, addr: int, size: int)
    requires 0 <= size < TWO32
  {
    Request(size) <= SizeIn(s, addr) < Request(size) + HEADER_WORDS + MIN_WORDS
  }

  ghost predicate Refitted(s: Shot, s': Shot, p: Pool, addr: int, size: int, a: int)
    requires 0 <= size < TWO32
  {
    if a == NULL then !CanStay(s, p, addr, size) && !CanGive(s, p, size) && s' == s
    else
      && (CanStay(s, p, addr, size) || CanGive(s, p, size))
      && Held(s', p, a) && (a == addr <==> CanStay(s, p, addr, size)) && (a != addr ==> !Held(s, p, a) && !Held(s', p, addr))
      && (if a == addr then SizeIn(s', a) == FittedSize(SizeIn(s, addr), Request(size)) else NewSize(s', a, size))
      && SameWords(s.m, s'.m, addr, a, Min(Request(size), SizeIn(s, addr))) && Kept(s, s', p, {addr, a})
  }

  ghost predicate Freed(s: Shot, s': Shot, p: Pool, addr: int) {
    !Held(s', p, addr) && Kept(s, s', p, {addr})
  }

  /** The first `n` words at `from` in the memory `m` were copied to the payload at `to`. */
  ghost predicate Copied(s: Shot, s': Shot, p: Pool, to: int, m: seq<int>, from: int, n: int) {
    Held(s', p, to) && SizeIn(s', to) == SizeIn(s, to) && SameWords(m, s'.m, from, to, n) && Kept(s, s', p, {to})
  }

  // ----- what a call does to all heaps -----

  ghost predicate LiveIn(ss: seq<Shot>, ps: seq<Pool>, q: Ptr) {
    q.At? && q.addr != NULL && 0 <= q.heap < |ss| == |ps| && Held(ss[q.heap], ps[q.heap], q.addr)
  }

  /** No heap has room for the request. */
  ghost predicate NoneGives(ss: seq<Shot>, ps: seq<Pool>, size: int)
    requires |ss| == |ps| && 0 <= size < TWO32
  {
    forall i :: 0 <= i < |ss| ==> !CanGive(ss[i], ps[i], size)
  }

  /** Heap `i` is the first that has room. */
  ghost predicate FirstToGive(ss: seq<Shot>, ps: seq<Pool>, size: int, i: int)
    requires |ss| == |ps| && 0 <= size < TWO32
  {
    0 <= i < |ss| && CanGive(ss[i], ps[i], size) && forall j :: 0 <= j < i ==> !CanGive(ss[j], ps[j], size)
  }

  /** The first heap that has room hands out the payload, and no other changes. */
  ghost predicate Given(ss: seq<Shot>, ss': seq<Shot>, ps: seq<Pool>, size: int, p: Ptr)
    requires |ss| == |ps| && 0 <= size < TWO32
  {
    if p == Null then NoneGives(ss, ps, size) && ss' == ss
    else
      && p.addr != NULL && 0 <= p.heap < |ss| == |ss'| && ss' == ss[p.heap := ss'[p.heap]]
      && Gave(ss[p.heap], ss'[p.heap], ps[p.heap], size, p.addr) && FirstToGive(ss, ps, size, p.heap)
  }

  /** The payloads of heap `i` that a call about `q` with the result `r` may change. */
  function Except(i: int, q: Ptr, r: Ptr): set<int> {
    (if q.At? && q.heap == i then {q.addr} else {}) + (if r.At? && r.heap == i then {r.addr} else {})
  }

  /** No payload of any heap but `q` and `r` changes. */
  ghost predicate AllKept(ss: seq<Shot>, ss': seq<Shot>, ps: seq<Pool>, q: Ptr, r: Ptr) {
    |ss| == |ss'| == |ps| && forall i :: 0 <= i < |ss| ==> Kept(ss[i], ss'[i], ps[i], Except(i, q, r))
  }

  /** The payload at `q` is now at `r`, of the size that it should be, with its first min(old, new) words. */
  ghost predicate Carried(ss: seq<Shot>, ss': seq<Shot>, ps: seq<Pool>, q: Ptr, size: int, r: Ptr)
    requires LiveIn(ss, ps, q) && 0 <= size < TWO32
  {
    && LiveIn(ss', ps, r)
    && (if r == q then SizeIn(ss'[q.heap], q.addr) == FittedSize(SizeIn(ss[q.heap], q.addr), Request(size))
        else NewSize(ss'[r.heap], r.addr, size))
    && (r != q ==> !LiveIn(ss, ps, r) && !LiveIn(ss', ps, q))
    && SameWords(ss[q.heap].m, ss'[r.heap].m, q.addr, r.addr, Min(Request(size), SizeIn(ss[q.heap], q.addr)))
  }

  lemma KeptSame(s: Shot, p: Pool, e: set<int>)
    ensures Kept(s, s, p, e)
  {
    NothingDisturbed(s.m, p, s.blocks, e);
  }

  lemma KeptMore(s: Shot, s': Shot, p: Pool, e: set<int>, e': set<int>)
    requires Kept(s, s', p, e) && e <= e'
    ensures Kept(s, s', p, e')
  {
    UndisturbedMore(s.m, s'.m, p, s.blocks, s'.blocks, e, e');
  }

  lemma KeptTrans(s: Shot, s1: Shot, s2: Shot, p: Pool, e: set<int>)
    requires Kept(s, s1, p, e) && Kept(s1, s2, p, e)
    ensures Kept(s, s2, p, e)
  {
    UndisturbedTrans(s.m, s1.m, s2.m, p, s.blocks, s1.blocks, s2.blocks, e, e, e);
  }

  /** A call that changes one heap, or none, disturbs nobody else. */
  lemma OneChanged(ss: seq<Shot>, ss': seq<Shot>, ps: seq<Pool>, i: int, q: Ptr, r: Ptr, e: set<int>)
    requires |ss| == |ss'| == |ps| && 0 <= i < |ss| && ss' == ss[i := ss'[i]]
    requires Kept(ss[i], ss'[i], ps[i], e) && e <= Except(i, q, r)
    ensures AllKept(ss, ss', ps, q, r)
  {
    hide Kept, Except;
    forall j | 0 <= j < |ss|
      ensures Kept(ss[j], ss'[j], ps[j], Except(j, q, r))
    {
      if j == i {
        KeptMore(ss[i], ss'[i], ps[i], e, Except(i, q, r));
      } else {
        KeptSame(ss[j], ps[j], Except(j, q, r));
      }
    }
  }

  /** What a move to another heap comes to: handed out at `r`, copied to, and given back at `q`. */
  lemma MovedOn(ss: seq<Shot>, s1: Shot, s2: Shot, s3: Shot, ps: seq<Pool>, q: Ptr, r: Ptr, size: int, n: int)
    requires |ss| == |ps| && LiveIn(ss, ps, q) && r.At? && r.addr != NULL && 0 <= r.heap < |ss| && r.heap != q.heap
    requires 0 <= size < TWO32 && n == SizeIn(ss[q.heap], q.addr) < Request(size)
    requires Gave(ss[r.heap], s1, ps[r.heap], size, r.addr)
    requires Copied(s1, s2, ps[r.heap], r.addr, ss[q.heap].m, q.addr, n)
    requires Freed(ss[q.heap], s3, ps[q.heap], q.addr)
    ensures var ss' := ss[r.heap := s2][q.heap := s3]; Carried(ss, ss', ps, q, size, r) && AllKept(ss, ss', ps, q, r)
  {
    hide Held, SizeIn, SameWords, CanGive, Kept;
    KeptTrans(ss[r.heap], s1, s2, ps[r.heap], {r.addr});
    OneChanged(ss, ss[r.heap := s2], ps, r.heap, q, r, {r.addr});
    KeptMore(ss[q.heap], s3, ps[q.heap], {q.addr}, Except(q.heap, q, r));
    hide Except;
  }

  /** rt_memheap_alloc of one heap, moment to moment. */
  method Serve(h: MemHeap, size: int) returns (a: int)
    requires h.Valid() && 0 <= size < TWO32
    modifies h, h.ram
    ensures h.Valid() && Gave(old(ShotOf(h)), ShotOf(h), h.pool, size, a)
  {
    hide Undisturbed, Live, FirstFit, FreeFit, WellFormed, Layout, FreeWords, Ample, Relisted, AfterAlloc, Taken, Inside;
    a := h.Alloc(size);
  }

  /** rt_memheap_realloc of one heap, moment to moment. */
  method Refit(h: MemHeap, addr: int, size: int) returns (a: int)
    requires h.Valid() && addr != NULL && Held(ShotOf(h), h.pool, addr) && 0 < size < TWO32
    requires FreeNext(ShotOf(h), h.pool, addr) ==> 4 * Request(size) + 4 * MIN_WORDS < TWO32
    modifies h, h.ram
    ensures h.Valid() && Refitted(old(ShotOf(h)), ShotOf(h), h.pool, addr, size, a)
  {
    StayIs(h, addr, size);
    hide Undisturbed, Live, FreeFit, WellFormed, Layout, FreeWords, Ample, CanStay, FreeNext, SameWords, FirstFit, Inside;
    a := h.Realloc(addr, size);
  }

  /** The conditions of a heap in the state that it is in. */
  lemma StayIs(h: MemHeap, addr: int, size: int)
    requires h.Valid() && Held(ShotOf(h), h.pool, addr) && 0 <= size < TWO32
    ensures FreeNext(ShotOf(h), h.pool, addr) <==> h.FreeBehind(addr)
    ensures SizeIn(ShotOf(h), addr) == PayloadSize(h.ram[..], addr)
    ensures CanStay(ShotOf(h), h.pool, addr, size) <==> Request(size) <= PayloadSize(h.ram[..], addr) || h.CanGrow(addr, Request(size))
  {
    TilesOf(h.ram[..], h.pool, h.blocks, h.free);
    LiveFits(h.ram[..], h.pool, h.blocks, addr);
    hide Live, WellFormed, Layout, FreeWords, Ample, Inside, Tiles, FreeAt;
  }

  /** rt_memcpy of the start of a payload to one of another memory. */
  method CopyOver(h: MemHeap, to: int, g: MemHeap, from: int, n: int)
    requires h.Valid() && g.Valid() && h.ram != g.ram && Held(ShotOf(h), h.pool, to) && Held(ShotOf(g), g.pool, from)
    requires 0 <= n <= SizeIn(ShotOf(h), to) && n <= SizeIn(ShotOf(g), from)
    modifies h.ram
    ensures h.Valid() && Copied(old(ShotOf(h)), ShotOf(h), h.pool, to, old(ShotOf(g)).m, from, n)
  {
    PayloadsApart(g.ram[..], g.pool, g.blocks, g.free, from, from);
    PayloadsApart(h.ram[..], h.pool, h.blocks, h.free, to, to);
    hide Undisturbed, Live, WellFormed, Layout, FreeWords, Ample;
    h.CopyIn(to, g.ram, from, n);
  }

  class Heaps {
    const heaps: seq<MemHeap> // the system heap first, then the others in the order of their registration

    /** The memories of the heaps. */
    ghost function Rams(): set<array<int>> {
      set h | h in heaps :: h.ram
    }

    ghost function Pools(): (ps: seq<Pool>)
      ensures |ps| == |heaps|
    {
      seq(|heaps|, i requires 0 <= i < |heaps| => heaps[i].pool)
    }

    ghost function Snap(): (ss: seq<Shot>)
      reads heaps, Rams()
      ensures |ss| == |heaps|
    {
      seq(|heaps|, i requires 0 <= i < |heaps| reads heaps, Rams() => ShotOf(heaps[i]))
    }

    ghost predicate Apart() {
      && (forall i, j :: 0 <= i < j < |heaps| ==> heaps[i] != heaps[j] && heaps[i].ram != heaps[j].ram)
      && (forall i :: 0 <= i < |heaps| ==> heaps[i].freeList == heaps[i].pool.header)
    }

    ghost predicate Valid()
      reads heaps, Rams()
    {
      Apart() && AllOk(Snap(), Pools())
    }

    constructor (heaps: seq<MemHeap>)
      requires forall i, j :: 0 <= i < j < |heaps| ==> heaps[i] != heaps[j] && heaps[i].ram != heaps[j].ram
      requires forall i :: 0 <= i < |heaps| ==> heaps[i].Valid()
      ensures this.heaps == heaps && Valid()
    {
      this.heaps := heaps;
      new;
      forall i | 0 <= i < |heaps|
        ensures ShotOk(ShotOf(heaps[i]), heaps[i].pool) && heaps[i].freeList == heaps[i].pool.header
      {
        ShotIs(heaps[i]);
      }
    }

    /** Only heap `i` has changed. */
    twostate lemma OnlyOne(i: int)
      requires old(Valid()) && 0 <= i < |heaps| && heaps[i].Valid()
      requires forall j :: 0 <= j < |heaps| && j != i ==> unchanged(heaps[j]) && unchanged(heaps[j].ram)
      ensures Valid() && Snap() == old(Snap())[i := Snap()[i]]
    {
      ShotIs(heaps[i]);
      hide ShotOk;
      forall j | 0 <= j < |heaps|
        ensures j != i ==> Snap()[j] == old(Snap())[j]
      {
      }
    }

    /** rt_memheap_alloc on one of the heaps. */
    method AllocIn(i: int, size: int) returns (addr: int)
      requires Valid() && 0 <= i < |heaps| && 0 <= size < TWO32
      modifies heaps[i], heaps[i].ram
      ensures Valid() && Snap() == old(Snap())[i := Snap()[i]] && Gave(old(Snap())[i], Snap()[i], heaps[i].pool, size, addr)
    {
      ShotIs(heaps[i]);
      assert Snap()[i] == ShotOf(heaps[i]);
      hide ShotOk, Gave, WellFormed, Layout, FreeWords, Ample;
      addr := Serve(heaps[i], size);
      OnlyOne(i);
    }

    /** rt_memheap_free on one of the heaps. */
    method FreeIn(i: int, addr: int)
      requires Valid() && 0 <= i < |heaps| && addr != NULL && Held(Snap()[i], heaps[i].pool, addr)
      modifies heaps[i], heaps[i].ram
      ensures Valid() && Snap() == old(Snap())[i := Snap()[i]] && Freed(old(Snap())[i], Snap()[i], heaps[i].pool, addr)
    {
      ShotIs(heaps[i]);
      assert Snap()[i] == ShotOf(heaps[i]);
      hide Undisturbed, ShotOk, Live, WellFormed, Layout, FreeWords, Ample, Relisted, AfterFree;
      heaps[i].Free(addr);
      OnlyOne(i);
    }

    /** rt_memheap_realloc on one of the heaps. */
    method ReallocIn(i: int, addr: int, size: int) returns (a: int)
      requires Valid() && 0 <= i < |heaps| && addr != NULL && Held(Snap()[i], heaps[i].pool, addr) && 0 < size < TWO32
      requires FreeNext(Snap()[i], heaps[i].pool, addr) ==> 4 * Request(size) + 4 * MIN_WORDS < TWO32
      modifies heaps[i], heaps[i].ram
      ensures Valid() && Snap() == old(Snap())[i := Snap()[i]] && Refitted(old(Snap())[i], Snap()[i], heaps[i].pool, addr, size, a)
    {
      ShotIs(heaps[i]);
      assert Snap()[i] == ShotOf(heaps[i]);
      hide ShotOk, Held, FreeNext, Refitted, WellFormed, Layout, FreeWords, Ample;
      a := Refit(heaps[i], addr, size);
      OnlyOne(i);
    }

    /** rt_memcpy of the start of a payload to one of another heap. */
    method CopyAcross(to: Ptr, from: Ptr, n: int)
      requires Valid() && LiveIn(Snap(), Pools(), to) && LiveIn(Snap(), Pools(), from) && to.heap != from.heap
      requires 0 <= n <= SizeIn(Snap()[to.heap], to.addr) && n <= SizeIn(Snap()[from.heap], from.addr)
      modifies heaps[to.heap].ram
      ensures Valid() && Snap() == old(Snap())[to.heap := Snap()[to.heap]]
      ensures Copied(old(Snap())[to.heap], Snap()[to.heap], heaps[to.heap].pool, to.addr, old(Snap())[from.heap].m, from.addr, n)
    {
      var h, g := heaps[to.heap], heaps[from.heap];
      ShotIs(h);
      ShotIs(g);
      assert Snap()[to.heap] == ShotOf(h) && Snap()[from.heap] == ShotOf(g);
      hide ShotOk, Held, SizeIn, Copied, WellFormed, Layout, FreeWords, Ample;
      CopyOver(h, to.addr, g, from.addr, n);
      OnlyOne(to.heap);
    }

    /** rt_malloc */
    method Malloc(size: int) returns (p: Ptr)
      requires Valid() && 0 <= size < TWO32
      modifies heaps, Rams()
      ensures Valid() && Given(old(Snap()), Snap(), Pools(), size, p)
    {
      hide AllOk, CanGive, Held, SizeIn, Kept;
      ghost var ss := Snap();
      var i := 0;
      while i < |heaps|
        invariant 0 <= i <= |heaps| && Valid() && Snap() == ss
        invariant forall j :: 0 <= j < i ==> !CanGive(ss[j], Pools()[j], size)
      {
        var addr := AllocIn(i, size);
        if addr != NULL {
          return At(i, addr);
        }
        i := i + 1;
      }
      p := Null;
    }

    /** The size of a payload, as the header tells it. */
    method SizeOf(q: Ptr) returns (n: int)
      requires Valid() && LiveIn(Snap(), Pools(), q)
      ensures n == SizeIn(Snap()[q.heap], q.addr) >= MIN_WORDS
    {
      var h := heaps[q.heap];
      ShotIs(h);
      assert Snap()[q.heap] == ShotOf(h);
      PayloadsApart(h.ram[..], h.pool, h.blocks, h.free, q.addr, q.addr);
      hide ShotOk, Live, WellFormed, Layout, FreeWords, Ample;
      n := h.ram[q.addr - HEADER_WORDS + NEXT] - q.addr;
    }

    /** The rest of rt_realloc when the heap of the payload can do nothing: the first other heap with room takes it. */
    method MoveOn(q: Ptr, size: int) returns (r: Ptr)
      requires Valid() && LiveIn(Snap(), Pools(), q) && 0 < size < TWO32
      requires Request(size) > SizeIn(Snap()[q.heap], q.addr) && !CanGive(Snap()[q.heap], Pools()[q.heap], size)
      modifies heaps, Rams()
      ensures Valid() && AllKept(old(Snap()), Snap(), Pools(), q, r)
      ensures r == Null <==> NoneGives(old(Snap()), Pools(), size)
      ensures r == Null ==> Snap() == old(Snap())
      ensures r != Null ==> Carried(old(Snap()), Snap(), Pools(), q, size, r)
      ensures r != Null ==> FirstToGive(old(Snap()), Pools(), size, r.heap)
    {
      hide AllOk, CanGive, Held, SizeIn, Kept, SameWords, Copied, Freed, Carried, AllKept;
      ghost var ss, ps := Snap(), Pools();
      r := Malloc(size);
      if r == Null {
        NobodyChanged(ss, ps, q, r);
        return;
      }
      ghost var s1 := Snap();
      var n := SizeOf(q);
      assert size > 4 * n; // so the payload is copied whole
      CopyAcross(r, q, n);
      ghost var s2 := Snap();
      FreeIn(q.heap, q.addr);
      MovedOn(ss, s1[r.heap], s2[r.heap], Snap()[q.heap], ps, q, r, size, n);
      assert Snap() == ss[r.heap := s2[r.heap]][q.heap := Snap()[q.heap]];
    }

    /**
     rt_realloc: the payload stays in its heap if that can keep, shrink, grow or move it, and else goes
     to the first other heap with room.  Its first min(old, new) words go along; no other payload of any
     heap changes; the call fails only if no heap can do it, and then nothing changes at all.
     */
    method Realloc(q: Ptr, size: int) returns (r: Ptr)
      requires Valid() && (q == Null || LiveIn(Snap(), Pools(), q)) && 0 <= size < TWO32
      requires q != Null && FreeNext(Snap()[q.heap], Pools()[q.heap], q.addr) ==> 4 * Request(size) + 4 * MIN_WORDS < TWO32
      modifies heaps, Rams()
      ensures Valid() && AllKept(old(Snap()), Snap(), Pools(), q, r)
      ensures q == Null ==> Given(old(Snap()), Snap(), Pools(), size, r)
      ensures q != Null && size == 0 ==> r == Null && !LiveIn(Snap(), Pools(), q)
      ensures q != Null && size > 0 ==>
        && (r == Null <==> !CanStay(old(Snap())[q.heap], Pools()[q.heap], q.addr, size) && NoneGives(old(Snap()), Pools(), size))
        && (r == Null ==> Snap() == old(Snap()))
        && (r != Null ==> Carried(old(Snap()), Snap(), Pools(), q, size, r))
        && (r == q <==> CanStay(old(Snap())[q.heap], Pools()[q.heap], q.addr, size))
        && (r != Null && r != q ==>
              if CanGive(old(Snap())[q.heap], Pools()[q.heap], size) then r.heap == q.heap
              else FirstToGive(old(Snap()), Pools(), size, r.heap))
    {
      hide AllOk, CanGive, CanStay, FreeNext, Held, SizeIn, Kept, SameWords, AllKept, Except;
      ghost var ss, ps := Snap(), Pools();
      if q == Null {
        r := Malloc(size);
        if r == Null {
          NobodyChanged(ss, ps, q, r);
        } else {
          ExceptHas(r.heap, q, r);
          OneChanged(ss, Snap(), ps, r.heap, q, r, {r.addr});
        }
        return;
      }
      r := Null;
      ExceptHas(q.heap, q, r);
      if size == 0 {
        FreeIn(q.heap, q.addr);
        OneChanged(ss, Snap(), ps, q.heap, q, r, {q.addr});
        return;
      }
      var a := ReallocIn(q.heap, q.addr, size);
      if a != NULL {
        r := At(q.heap, a);
        ExceptHas(q.heap, q, r);
        OneChanged(ss, Snap(), ps, q.heap, q, r, {q.addr, a});
        return;
      }
      assert Snap() == ss;
      StayMeans(ss[q.heap], ps[q.heap], q.addr, size);
      r := MoveOn(q, size);
    }
  }

  lemma NobodyChanged(ss: seq<Shot>, ps: seq<Pool>, q: Ptr, r: Ptr)
    requires |ss| == |ps|
    ensures AllKept(ss, ss, ps, q, r)
  {
    hide Kept, Except;
    forall i | 0 <= i < |ss|
      ensures Kept(ss[i], ss[i], ps[i], Except(i, q, r))
    {
      KeptSame(ss[i], ps[i], Except(i, q, r));
    }
  }

  lemma ExceptHas(i: int, q: Ptr, r: Ptr)
    ensures q.At? && q.heap == i ==> {q.addr} <= Except(i, q, r)
    ensures r.At? && r.heap == i ==> {r.addr} <= Except(i, q, r)
    ensures q.At? && q.heap == i && r.At? && r.heap == i ==> {q.addr, r.addr} <= Except(i, q, r)
  {
  }

  lemma StayMeans(s: Shot, p: Pool, addr: int, size: int)
    requires 0 <= size < TWO32 && !CanStay(s, p, addr, size)
    ensures Request(size) > SizeIn(s, addr)
  {
    hide SizeIn, FreeNext, Held;
  }

  ghost predicate AllOk(ss: seq<Shot>, ps: seq<Pool>) {
    |ss| == |ps| && forall i :: 0 <= i < |ss| ==> ShotOk(ss[i], ps[i])
  }
}
