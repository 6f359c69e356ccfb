/**
 The small-memory allocator: first fit from the lowest free block, over blocks linked by offset.
 */
module SmallMem {
  import opened Lists
  import opened SmallBlocks

  const NULL: int := -1

  const TWO32: int := 0x1_0000_0000

  /** RT_ALIGN to four bytes, in 32 bits */
  function Align(x: int): int
    requires 0 <= x < TWO32
  {
    (x + 3) % TWO32 / 4 * 4
  }

  /** The bytes looked for when `size` are asked for. */
  function Padded(size: int): int
    requires 0 <= size < TWO32
  {
    if Align(size) < MIN_SIZE then MIN_SIZE else Align(size)
  }

  /** The rounded size covers the size asked for exactly up to 2^32 - 4; above, it is zero. */
  lemma AlignCovers(size: int)
    requires 0 <= size < TWO32
    ensures Align(size) >= size <==> size <= TWO32 - 4
    ensures Align(size) == 0 <==> size == 0 || size > TWO32 - 4
  {
  }

  /** Block `i` is free and has room for `size` bytes. */
  ghost predicate Fits(h: Heap, b: seq<int>, i: int, size: int)
    requires h.Tiled(b)
  {
    0 <= i < |b| - 1 && 0 <= b[i] <= h.end && !h.used[b[i]] && b[i + 1] - b[i] - HEADER >= size
  }

  lemma AlignAgain(size: int)
    requires 0 <= size < TWO32
    ensures 0 <= Align(size) < TWO32 && Align(size) % 4 == 0 && Align(Align(size)) == Align(size)
    ensures Padded(Align(size)) == Padded(size) >= Align(size)
  {
  }

  /** The block the search can find: it leaves out a last block that the request would fill exactly. */
  ghost predicate Found(h: Heap, b: seq<int>, i: int, size: int)
    requires h.Tiled(b)
  {
    Fits(h, b, i, size) && b[i] != h.end - HEADER - size
  }

  /** The block at `mem` is the first of the heap that fits. */
  ghost predicate FirstFound(h: Heap, b: seq<int>, mem: int, size: int)
    requires h.Tiled(b)
  {
    exists i :: Found(h, b, i, size) && b[i] == mem && forall j :: j < i ==> !Fits(h, b, j, size)
  }

  /** The payload bytes of the blocks in `live` are as before. */
  ghost predicate Kept(live: map<int, int>, d: seq<int>, d1: seq<int>) {
    |d1| == |d| && forall m, o :: m in live && m + HEADER <= o < live[m] && 0 <= o < |d| ==> d1[o] == d[o]
  }

  /** The bytes once a header stands at `p`; what they read as is not told apart from zero. */
  function Stamped(data: seq<int>, p: int): (r: seq<int>)
    requires 0 <= p && p + HEADER <= |data|
    ensures |r| == |data| && forall o :: 0 <= o < |data| && !(p <= o < p + HEADER) ==> r[o] == data[o]
  {
    data[..p] + seq(HEADER, _ => 0) + data[p + HEADER..]
  }

  /** A payload of `size` bytes stays in place for `want`: it is as long already, or what is cut off is more than a smallest block. */
  predicate Stays(size: int, want: int) {
    want == size || want + HEADER + MIN_SIZE < size
  }

  /** What is handed out for `want` bytes: these, and nothing that could have stayed behind as a block. */
  predicate CutFor(room: int, want: int) {
    want <= room < want + HEADER + MIN_SIZE
  }

  class SmallHeap {
    const end: int
    var data: seq<int> // the bytes of the heap
    var next: seq<int>
    var prev: seq<int>
    var used: seq<bool>
    var lfree: int
    var usedMem: int
    var maxMem: int

    ghost var blocks: seq<int>

    ghost function Abs(): Heap
      reads this
    {
      Heap(next, prev, used, end)
    }

    ghost predicate Valid()
      reads this
    {
      && Abs().Tiled(blocks) && Abs().Coalesced(blocks) && Abs().Lowest(blocks, lfree)
      && usedMem == UsedBytes(blocks, used) <= maxMem && |data| == end && end + HEADER < TWO32
    }

    /** rt_system_heap_init over `size` bytes between the first header and the one at the end. */
    constructor (size: nat, data: seq<int>)
      requires size % 4 == 0 && size + 2 * HEADER < TWO32 && |data| == HEADER + size
      ensures Valid() && end == HEADER + size && blocks == [0, end] && usedMem == 0 && Live(Abs(), blocks) == map[]
      ensures Abs() == Fresh(size) && lfree == 0
    {
      end := HEADER + size;
      this.data := data;
      next, prev, used := Fresh(size).next, Fresh(size).prev, Fresh(size).used;
      lfree, usedMem, maxMem := 0, 0, 0;
      blocks := [0, HEADER + size];
      new;
      assert Abs().LinkAt(blocks, 0);
      UsedBytesTwo(0, end, used);
      assert Live(Abs(), blocks) == map[];
    }

    /** Unless the heap has no room for a smallest payload, the search of rt_malloc comes to an end. */
    predicate SearchEnds(size: int)
      requires 0 <= size < TWO32
    {
      Align(size) > end - HEADER || end - HEADER >= MIN_SIZE
    }

    /** The search of rt_malloc: the first block that fits, from the lowest free block on. */
    method Find(size: int) returns (ptr: int, ghost i: int)
      requires Valid() && MIN_SIZE <= size <= end - HEADER
      ensures ptr == NULL <==> forall j :: !Found(Abs(), blocks, j, size)
      ensures ptr != NULL ==> Found(Abs(), blocks, i, size) && ptr == blocks[i] && forall j :: j < i ==> !Fits(Abs(), blocks, j, size)
    {
      hide UsedBytes;
      ghost var h, b := Abs(), blocks;
      ptr := lfree;
      i :| 0 <= i < |b| && b[i] == lfree;
      while ptr < end - HEADER - size
        invariant 0 <= i < |b| && ptr == b[i] && forall j :: j < i ==> !Fits(h, b, j, size)
        decreases |b| - i
      {
        assert h.LinkAt(b, i);
        if !used[ptr] && next[ptr] - (ptr + HEADER) >= size {
          assert Found(h, b, i, size);
          return;
        }
        ptr := next[ptr];
        i := i + 1;
      }
      ptr := NULL;
    }

    /** Take block `i` for `size` bytes: cut off what can stand alone, or hand out all of it. */
    method TakeBlock(ptr: int, size: int, ghost i: int)
      requires Valid() && MIN_SIZE <= size && size % 4 == 0 && Fits(Abs(), blocks, i, size) && ptr == blocks[i]
      modifies this`data, this`next, this`prev, this`used, this`usedMem, this`maxMem, this`blocks
      ensures Abs().Tiled(blocks) && Abs().Coalesced(blocks) && NearlyLowest(Abs(), blocks, lfree, ptr)
      ensures usedMem == UsedBytes(blocks, used) && maxMem == if usedMem > old(maxMem) then usedMem else old(maxMem)
      ensures ptr !in Live(old(Abs()), old(blocks)) && 0 <= ptr < |next| == |old(next)|
      ensures next[ptr] == if old(next)[ptr] - ptr - HEADER >= size + HEADER + MIN_SIZE then ptr + HEADER + size else old(next)[ptr]
      ensures next[ptr] >= ptr + HEADER + size && usedMem == old(usedMem) + next[ptr] - ptr
      ensures |data| == |old(data)| && Kept(Live(old(Abs()), old(blocks)), old(data), data)
      ensures Live(Abs(), blocks) == Live(old(Abs()), old(blocks))[ptr := next[ptr]]
    {
      hide UsedBytes, Inserted, Cut, Live, NearlyLowest, Heap.Coalesced, Heap.Lowest;
      ghost var h, b := Abs(), blocks;
      assert h.LinkAt(b, i);
      var space := next[ptr] - (ptr + HEADER);
      if space >= size + HEADER + MIN_SIZE {
        var ptr2 := ptr + HEADER + size;
        SplitKeeps(h, b, i, ptr2, lfree);
        ghost var d := data;
        CutSpace(ptr, ptr2);
        OthersKept(h, b, i, d, data);
        TakenKept(h, b, i, d, data);
        used := used[ptr := true];
        blocks := Inserted(b, i + 1, ptr2);
        usedMem := usedMem + (size + HEADER);
      } else {
        WholeKeeps(h, b, i, lfree);
        used := used[ptr := true];
        usedMem := usedMem + (next[ptr] - ptr);
      }
      if maxMem < usedMem {
        maxMem := usedMem;
      }
    }

    /** Write the header of the block at `ptr2` and link it behind the one at `ptr`. */
    method CutSpace(ptr: int, ptr2: int)
      requires Abs().Sized() && 0 <= ptr <= end && 0 <= ptr2 <= end && ptr != ptr2 && 0 <= next[ptr] <= end
      requires ptr2 + HEADER <= |data|
      modifies this`data, this`next, this`prev, this`used
      ensures Abs() == Cut(old(Abs()), ptr, ptr2) && data == Stamped(old(data), ptr2)
    {
      data := Stamped(data, ptr2);
      used := used[ptr2 := false];
      next := next[ptr2 := next[ptr]];
      prev := prev[ptr2 := ptr];
      next := next[ptr := ptr2];
      if next[ptr2] != end {
        prev := prev[next[ptr2] := ptr2];
      }
    }

    /** Move on to the lowest free block after the lowest one was taken. */
    method RaiseLowest(ghost ptr: int)
      requires Abs().Tiled(blocks) && NearlyLowest(Abs(), blocks, lfree, ptr)
      modifies this`lfree
      ensures Abs().Lowest(blocks, lfree)
    {
      ghost var i :| 0 <= i < |blocks| && blocks[i] == lfree;
      while used[lfree] && lfree != end
        invariant 0 <= i < |blocks| && lfree == blocks[i] && forall j :: 0 <= j < i ==> used[blocks[j]]
        decreases |blocks| - i
      {
        assert Abs().LinkAt(blocks, i);
        lfree := next[lfree];
        i := i + 1;
      }
    }

    /**
     rt_malloc: the offset of the payload, or NULL.  It fails only if no block can be found; the block
     handed out is the first that fits, cut to size if the rest can stand alone, which nobody held; the
     blocks in use are those before and this one, and their bytes are as they were.
     */
    method Malloc(size: int) returns (payload: int)
      requires Valid() && 0 <= size < TWO32 && (size != 0 ==> SearchEnds(size))
      modifies this`data, this`next, this`prev, this`used, this`lfree, this`usedMem, this`maxMem, this`blocks
      ensures Valid() && (payload == NULL ==> unchanged(this))
      ensures payload == NULL <==>
        size == 0 || Align(size) > end - HEADER || forall j :: !Found(old(Abs()), old(blocks), j, Padded(size))
      ensures payload != NULL ==> payload % 4 == 0 && payload - HEADER !in Live(old(Abs()), old(blocks))
                                  && 0 <= payload - HEADER < |next| == |old(next)|
                                  && Live(Abs(), blocks) == Live(old(Abs()), old(blocks))[payload - HEADER := next[payload - HEADER]]
      ensures payload != NULL ==> var room := old(next)[payload - HEADER] - payload;
        && room >= Padded(size)
        && next[payload - HEADER] == payload + if room >= Padded(size) + HEADER + MIN_SIZE then Padded(size) else room
      ensures payload != NULL ==> FirstFound(old(Abs()), old(blocks), payload - HEADER, Padded(size))
      ensures Kept(Live(old(Abs()), old(blocks)), old(data), data)
      ensures payload != NULL ==> usedMem == old(usedMem) + next[payload - HEADER] - (payload - HEADER)
      ensures maxMem == if usedMem > old(maxMem) then usedMem else old(maxMem)
    {
      hide UsedBytes, Live, Heap.Coalesced, Heap.Lowest, Kept, Inside, Ascending;
      NothingDisturbed(Live(Abs(), blocks), data);
      if size == 0 {
        return NULL;
      }
      var want := Align(size);
      if want > end - HEADER {
        return NULL;
      }
      if want < MIN_SIZE {
        want := MIN_SIZE;
      }
      var ptr, i := Find(want);
      if ptr == NULL {
        return NULL;
      }
      assert Found(old(Abs()), old(blocks), i, Padded(size));
      hide Found, Fits;
      HandOut(ptr, want, i);
      payload := ptr + HEADER;
    }

    /** Take the block and move on to the lowest free one if this was it. */
    method HandOut(ptr: int, want: int, ghost i: int)
      requires Valid() && MIN_SIZE <= want && want % 4 == 0 && Fits(Abs(), blocks, i, want) && ptr == blocks[i]
      modifies this`data, this`next, this`prev, this`used, this`lfree, this`usedMem, this`maxMem, this`blocks
      ensures Valid() && ptr % 4 == 0 && ptr !in Live(old(Abs()), old(blocks)) && 0 <= ptr < |next| == |old(next)|
      ensures Live(Abs(), blocks) == Live(old(Abs()), old(blocks))[ptr := next[ptr]]
      ensures var room := old(next)[ptr] - ptr - HEADER;
              room >= want && next[ptr] == ptr + HEADER + if room >= want + HEADER + MIN_SIZE then want else room
      ensures Kept(Live(old(Abs()), old(blocks)), old(data), data)
      ensures usedMem == old(usedMem) + next[ptr] - ptr
      ensures maxMem == if usedMem > old(maxMem) then usedMem else old(maxMem)
    {
      hide UsedBytes, Live, Heap.Coalesced, NearlyLowest, Kept, Inside, Ascending;
      assert Abs().LinkAt(blocks, i);
      TakeBlock(ptr, want, i);
      if ptr == lfree {
        RaiseLowest(ptr);
      } else {
        AlreadyLowest(Abs(), blocks, lfree, ptr);
      }
    }

    /** plug_holes: the free block `k` joins with whichever neighbours are free. */
    method PlugHoles(mem: int, ghost k: int)
      requires Abs().Tiled(blocks) && CoalescedBut(Abs(), blocks, k) && Abs().Lowest(blocks, lfree)
      requires 0 <= k < |blocks| - 1 && blocks[k] == mem && 0 <= mem <= end && !used[mem]
      requires Inside(blocks, |used|)
      modifies this`next, this`prev, this`blocks
      ensures Abs().Tiled(blocks) && Abs().Coalesced(blocks) && Abs().Lowest(blocks, lfree)
      ensures Inside(old(blocks), |used|) && Inside(blocks, |used|)
      ensures UsedBytes(blocks, used) == old(UsedBytes(blocks, used)) && Live(Abs(), blocks) == Live(old(Abs()), old(blocks))
    {
      hide UsedBytes, Removed, Live, Joined, CoalescedBut, Heap.Lowest, Heap.Coalesced;
      assert Abs().LinkAt(blocks, k);
      var nmem := next[mem];
      if mem != nmem && !used[nmem] && nmem != end {
        assert Abs().LinkAt(blocks, k + 1);
        JoinsAhead(Abs(), blocks, k, lfree);
        assert lfree != nmem; // `mem` is free and lower, so the lowest free block never has to change here
        JoinNext(mem);
        blocks := Removed(blocks, k + 1);
      } else {
        EndUsed(Abs(), blocks, k);
      }
      assert Abs().LinkAt(blocks, k);
      var pmem := prev[mem];
      if pmem != mem && !used[pmem] {
        assert k > 0 && Abs().LinkAt(blocks, k - 1);
        JoinsBehind(Abs(), blocks, k, lfree);
        assert lfree != mem; // nor here
        JoinNext(pmem);
        blocks := Removed(blocks, k);
      } else {
        NothingBehind(Abs(), blocks, k);
      }
    }

    /** Link the block at `mem` past the one behind it. */
    method JoinNext(mem: int)
      requires Abs().Sized() && 0 <= mem <= end && 0 <= next[mem] <= end && 0 <= next[next[mem]] <= end
      modifies this`next, this`prev
      ensures Abs() == Joined(old(Abs()), mem)
    {
      var nmem := next[mem];
      next := next[mem := next[nmem]];
      prev := prev[next[mem] := mem];
    }

    /**
     rt_free of a payload that Malloc gave out: afterwards the blocks in use are the others, each as
     it was, and no two free blocks are adjacent; no byte changes.  NULL is ignored.
     */
    method Free(payload: int)
      requires Valid() && (payload == NULL || payload - HEADER in Live(Abs(), blocks))
      modifies this`next, this`prev, this`used, this`lfree, this`usedMem, this`blocks
      ensures Valid() && (payload == NULL ==> unchanged(this))
      ensures payload != NULL ==> Live(Abs(), blocks) == Live(old(Abs()), old(blocks)) - {payload - HEADER}
      ensures payload != NULL ==> 0 <= payload - HEADER < |old(next)|
                                  && usedMem == old(usedMem) - (old(next)[payload - HEADER] - (payload - HEADER))
    {
      hide UsedBytes, Live, Ascending, Inside;
      if payload == NULL {
        return;
      }
      var mem := payload - HEADER;
      ghost var h, b := Abs(), blocks;
      ghost var i := LiveAt(h, b, mem);
      assert h.LinkAt(b, i);
      FreedKeeps(h, b, i, lfree);
      hide Heap.Coalesced, Heap.Lowest, CoalescedBut;
      used := used[mem := false];
      if mem < lfree {
        lfree := mem;
      }
      usedMem := usedMem - (next[mem] - mem);
      assert Abs() == h.(used := h.used[mem := false]);
      NextForward(h, b, i);
      PlugHoles(mem, i);
    }

    /** The shrinking case of rt_realloc: the rest of the block is cut off, free, and joined with a free block behind. */
    method Shrink(mem: int, size: int)
      requires Valid() && mem in Live(Abs(), blocks) && 0 <= mem < |next|
      requires size > 0 && size % 4 == 0 && size + HEADER + MIN_SIZE < next[mem] - mem - HEADER
      modifies this`data, this`next, this`prev, this`used, this`lfree, this`usedMem, this`blocks
      ensures Valid() && Live(Abs(), blocks) == Live(old(Abs()), old(blocks))[mem := mem + HEADER + size]
      ensures Kept(Live(old(Abs()), old(blocks)) - {mem}, old(data), data)
      ensures forall o :: mem + HEADER <= o < mem + HEADER + size && o < |data| == |old(data)| ==> data[o] == old(data)[o]
    {
      hide UsedBytes, Live, Cut, Inserted, Kept;
      ghost var h, b := Abs(), blocks;
      ghost var i := LiveAt(h, b, mem);
      NextForward(h, b, i);
      assert h.LinkAt(b, i);
      var mem2 := mem + HEADER + size;
      usedMem := usedMem - (next[mem] - mem - HEADER - size);
      ShrinkKeeps(h, b, i, mem2, lfree);
      hide Heap.Coalesced, Heap.Lowest, CoalescedBut;
      ghost var d := data;
      CutSpace(mem, mem2);
      OthersKept(h, b, i, d, data);
      blocks := Inserted(b, i + 1, mem2);
      if mem2 < lfree {
        lfree := mem2;
      }
      PlugHoles(mem2, i + 1);
    }

    /**
     rt_realloc: NULL allocates, a size that rounds to zero frees, an address outside the heap comes back
     as it is; otherwise the block stays, shrinks in place, or is given up for another, and only if none
     can be found does the call fail and leave everything as it was.  The bytes go along, up to the
     smaller size, and those of the other blocks stay.
     */
    method Realloc(payload: int, newSize: int) returns (r: int)
      requires Valid() && 0 <= newSize < TWO32 && (Align(newSize) != 0 ==> SearchEnds(newSize))
      requires 0 <= payload < end ==> payload - HEADER in Live(Abs(), blocks)
      requires Align(newSize) == 0 ==> payload == NULL || 0 <= payload < end
      modifies this`data, this`next, this`prev, this`used, this`lfree, this`usedMem, this`maxMem, this`blocks
      ensures Valid()
      ensures var live, live1, mem := Live(old(Abs()), old(blocks)), Live(Abs(), blocks), payload - HEADER;
              var gone := if payload == NULL then {} else {mem};
              if Align(newSize) > end - HEADER then r == NULL && live1 == live
              else if Align(newSize) == 0 then r == NULL && live1 == live - gone
              else if r == NULL || payload >= end || payload < NULL then
                live1 == live && (payload >= end || payload < NULL ==> r == payload)
              else if r == payload then mem in live && live1 == live[mem := payload + Align(newSize)]
              else r - HEADER !in live && r - HEADER in live1 && CutFor(live1[r - HEADER] - r, Padded(newSize))
                   && live1 == live[r - HEADER := live1[r - HEADER]] - gone
                   && maxMem == Max(old(maxMem), old(usedMem) + live1[r - HEADER] - (r - HEADER))
                   && FirstFound(old(Abs()), old(blocks), r - HEADER, Padded(newSize))
      ensures 0 <= payload < end && 0 < Align(newSize) <= end - HEADER ==>
        var live, mem := Live(old(Abs()), old(blocks)), payload - HEADER;
        mem in live && (r == payload <==> Stays(live[mem] - payload, Align(newSize)))
      ensures r == NULL || r == payload ==> maxMem == old(maxMem)
      ensures r == NULL && 0 < Align(newSize) <= end - HEADER ==>
        forall j :: !Found(old(Abs()), old(blocks), j, Padded(newSize))
      ensures Kept(Live(old(Abs()), old(blocks)) - {payload - HEADER}, old(data), data)
      ensures 0 <= payload < end && r != NULL ==>
        var mem := payload - HEADER;
        0 <= mem < |old(next)| && SameBytes(old(data), data, payload, r, Min(old(next)[mem] - payload, Align(newSize)))
      ensures payload != NULL && Align(newSize) == 0 ==>
        0 <= payload - HEADER < |old(next)|
        && usedMem == old(usedMem) - (old(next)[payload - HEADER] - (payload - HEADER))
    {
      hide UsedBytes, Heap.Coalesced, Heap.Lowest, Live, Found, Kept, SameBytes, Align, Padded, FirstFound;
      NothingDisturbed(Live(Abs(), blocks) - {payload - HEADER}, data);
      AlignCovers(newSize);
      AlignAgain(newSize);
      var want := Align(newSize);
      if want > end - HEADER {
        return NULL;
      }
      if want == 0 {
        Free(payload);
        return NULL;
      }
      if payload == NULL {
        r := Malloc(want);
        KeptFewer(Live(old(Abs()), old(blocks)), payload - HEADER, old(data), data);
        return;
      }
      if payload < 0 || payload >= end {
        return payload;
      }
      r := Refit(payload, want);
    }

    /** The cases of rt_realloc in which the payload is in use. */
    method Refit(payload: int, want: int) returns (r: int)
      requires Valid() && 0 < want <= end - HEADER && Align(want) == want && SearchEnds(want)
      requires payload != NULL && payload - HEADER in Live(Abs(), blocks)
      modifies this`data, this`next, this`prev, this`used, this`lfree, this`usedMem, this`maxMem, this`blocks
      ensures Valid()
      ensures var live, live1, mem := Live(old(Abs()), old(blocks)), Live(Abs(), blocks), payload - HEADER;
              mem in live && (r == payload <==> Stays(live[mem] - payload, want)) &&
              if r == NULL then live1 == live && maxMem == old(maxMem) && forall j :: !Found(old(Abs()), old(blocks), j, Padded(want))
              else if r == payload then live1 == live[mem := payload + want] && maxMem == old(maxMem)
              else r - HEADER !in live && r - HEADER in live1 && CutFor(live1[r - HEADER] - r, Padded(want))
                   && live1 == live[r - HEADER := live1[r - HEADER]] - {mem}
                   && maxMem == Max(old(maxMem), old(usedMem) + live1[r - HEADER] - (r - HEADER))
                   && FirstFound(old(Abs()), old(blocks), r - HEADER, Padded(want))
      ensures Kept(Live(old(Abs()), old(blocks)) - {payload - HEADER}, old(data), data)
      ensures r != NULL ==>
        0 <= payload - HEADER < |old(next)|
        && SameBytes(old(data), data, payload, r, Min(old(next)[payload - HEADER] - payload, want))
    {
      hide UsedBytes, Heap.Coalesced, Heap.Lowest, Live, Found, Kept, CutFor, FirstFound;
      NothingDisturbed(Live(Abs(), blocks) - {payload - HEADER}, data);
      AlignAgain(want);
      var mem := payload - HEADER;
      ghost var i := LiveAt(Abs(), blocks, mem);
      NextForward(Abs(), blocks, i);
      var size := next[mem] - mem - HEADER;
      if size == want {
        assert Live(Abs(), blocks) == Live(Abs(), blocks)[mem := payload + want];
        return payload;
      }
      if want + HEADER + MIN_SIZE < size {
        Shrink(mem, want);
        return payload;
      }
      r := Move(payload, size, want);
    }

    /** The moving case of rt_realloc. */
    method Move(payload: int, size: int, want: int) returns (r: int)
      requires Valid() && 0 < want <= end - HEADER && Align(want) == want && SearchEnds(want)
      requires payload != NULL && payload - HEADER in Live(Abs(), blocks)
      requires 0 <= payload - HEADER < |next| && size == next[payload - HEADER] - payload
      modifies this`data, this`next, this`prev, this`used, this`lfree, this`usedMem, this`maxMem, this`blocks
      ensures Valid() && (r == NULL ==> unchanged(this))
      ensures r == NULL <==> forall j :: !Found(old(Abs()), old(blocks), j, Padded(want))
      ensures var live, live1 := Live(old(Abs()), old(blocks)), Live(Abs(), blocks);
              r != NULL ==> r - HEADER !in live && r - HEADER in live1 && CutFor(live1[r - HEADER] - r, Padded(want))
                            && live1 == live[r - HEADER := live1[r - HEADER]] - {payload - HEADER}
                            && maxMem == Max(old(maxMem), old(usedMem) + live1[r - HEADER] - (r - HEADER))
                            && FirstFound(old(Abs()), old(blocks), r - HEADER, Padded(want))
      ensures Kept(Live(old(Abs()), old(blocks)) - {payload - HEADER}, old(data), data)
      ensures r != NULL ==> SameBytes(old(data), data, payload, r, Min(size, want))
    {
      hide UsedBytes, Heap.Coalesced, Heap.Lowest, Heap.LinkAt, Inside, Ascending, Live, Found, Fits, Kept, SameBytes, Padded,
           Align, FirstFound;
      ghost var live, d := Live(Abs(), blocks), data;
      ghost var j := LiveAt(Abs(), blocks, payload - HEADER);
      NextForward(Abs(), blocks, j);
      AlignAgain(want);
      r := Malloc(want);
      KeptFewer(live, payload - HEADER, d, data);
      if r != NULL {
        ghost var d1, live1 := data, Live(Abs(), blocks);
        CopyPayload(r, payload, Min(size, want));
        MovedKept(live, live1, payload - HEADER, r - HEADER, d, d1, data);
        CopiedSame(live, payload, r, Min(size, want), d, d1, data);
        Free(payload);
      }
    }

    /** Copy the start of one payload to another. */
    method CopyPayload(dst: int, src: int, n: int)
      requires Valid() && dst - HEADER in Live(Abs(), blocks) && src - HEADER in Live(Abs(), blocks) && dst != src
      requires 0 <= n && dst + n <= Live(Abs(), blocks)[dst - HEADER] && src + n <= Live(Abs(), blocks)[src - HEADER]
      modifies this`data
      ensures Valid() && Abs() == old(Abs()) && SameBytes(old(data), data, src, dst, n)
      ensures Kept(Live(Abs(), blocks) - {dst - HEADER}, old(data), data)
    {
      hide UsedBytes, Heap.Coalesced, Heap.Lowest, Live, Kept;
      ghost var d := data;
      ghost var i := LiveAt(Abs(), blocks, dst - HEADER);
      ghost var j := LiveAt(Abs(), blocks, src - HEADER);
      BlocksApart(Abs(), blocks, i, j);
      MemCpy(dst, src, n);
      OthersKept(Abs(), blocks, i, d, data);
    }

    /** Copy `n` bytes; the two ranges do not overlap. */
    method MemCpy(dst: int, src: int, n: int)
      requires 0 <= n && 0 <= src && src + n <= |data| && 0 <= dst && dst + n <= |data|
      requires src + n <= dst || dst + n <= src
      modifies this`data
      ensures |data| == |old(data)| && SameBytes(old(data), data, src, dst, n)
      ensures forall o :: 0 <= o < |data| && !(dst <= o < dst + n) ==> data[o] == old(data)[o]
    {
      var i := 0;
      while i < n
        modifies this`data
        invariant 0 <= i <= n && |data| == |old(data)| && SameBytes(old(data), data, src, dst, i)
        invariant forall o :: 0 <= o < |data| && !(dst <= o < dst + i) ==> data[o] == old(data)[o]
      {
        data := data[dst + i := data[src + i]];
        i := i + 1;
      }
    }
  }

  /** The `n` bytes at `r` in `d1` are those at `p` in `d`. */
  ghost predicate SameBytes(d: seq<int>, d1: seq<int>, p: int, r: int, n: int) {
    && 0 <= p && p + n <= |d| && 0 <= r && r + n <= |d1|
    && forall o :: r <= o < r + n ==> d1[o] == d[o - r + p]
  }

  /** A fresh heap of `size` bytes: one free block and the end, which is behind itself. */
  function Fresh(size: nat): Heap {
    Heap(seq(HEADER + size + 1, _ => HEADER + size), seq(HEADER + size + 1, i => if i == 0 then 0 else HEADER + size),
         seq(HEADER + size + 1, i => i == HEADER + size), HEADER + size)
  }

  /** Where the search of rt_malloc is after `n` blocks. */
  function SearchAt(h: Heap, lfree: int, n: nat): int {
    if n == 0 then lfree else
    var p := SearchAt(h, lfree, n - 1);
    if 0 <= p < |h.next| then h.next[p] else p
  }

  /** In a heap without room for a smallest payload the search never ends: the bound wraps, and no block fits. */
  lemma {:induction false} SearchNeverEnds(size: nat, n: nat)
    requires size < MIN_SIZE
    ensures var h, p := Fresh(size), SearchAt(Fresh(size), 0, n);
            0 <= p <= h.end && p < (size - MIN_SIZE) % TWO32 && (h.used[p] || h.next[p] - (p + HEADER) < MIN_SIZE)
  {
    if n > 0 {
      SearchNeverEnds(size, n - 1);
    }
  }

  // ----- the bytes of payloads -----

  lemma NothingDisturbed(live: map<int, int>, d: seq<int>)
    ensures Kept(live, d, d)
  {
  }

  lemma KeptFewer(live: map<int, int>, m: int, d: seq<int>, d1: seq<int>)
    requires Kept(live, d, d1)
    ensures Kept(live - {m}, d, d1)
  {
  }

  lemma MovedKept(live: map<int, int>, live1: map<int, int>, m: int, r: int, d: seq<int>, d1: seq<int>, d2: seq<int>)
    requires Kept(live, d, d1) && r !in live && r in live1 && live1 == live[r := live1[r]] && Kept(live1 - {r}, d1, d2)
    ensures Kept(live - {m}, d, d2)
  {
    assert live1 - {r} == live;
  }

  lemma CopiedSame(live: map<int, int>, p: int, r: int, n: int, d: seq<int>, d1: seq<int>, d2: seq<int>)
    requires Kept(live, d, d1) && p - HEADER in live && p + n <= live[p - HEADER] && SameBytes(d1, d2, p, r, n)
    ensures SameBytes(d, d2, p, r, n)
  {
    forall o | r <= o < r + n
      ensures d2[o] == d[o - r + p]
    {
      assert d1[o - r + p] == d[o - r + p];
    }
  }

  lemma BlocksApart(h: Heap, b: seq<int>, i: int, j: int)
    requires h.Tiled(b) && 0 <= i < |b| - 1 && 0 <= j < |b| - 1 && i != j && 0 <= b[i] <= h.end && 0 <= b[j] <= h.end
    ensures h.next[b[i]] == b[i + 1] <= h.end && h.next[b[j]] == b[j + 1] <= h.end
    ensures b[i + 1] <= b[j] || b[j + 1] <= b[i]
  {
    assert h.LinkAt(b, i) && h.LinkAt(b, j);
  }

  /** A change inside block `i` keeps the bytes of the other payloads. */
  lemma OthersKept(h: Heap, b: seq<int>, i: int, d: seq<int>, d1: seq<int>)
    requires h.Tiled(b) && 0 <= i < |b| - 1 && 0 <= b[i] <= h.end && |d1| == |d|
    requires forall o :: 0 <= o < |d| && !(b[i] + HEADER <= o < b[i + 1]) ==> d1[o] == d[o]
    ensures Kept(Live(h, b) - {b[i]}, d, d1)
  {
    hide Live;
    forall m, o | m in Live(h, b) - {b[i]} && m + HEADER <= o < Live(h, b)[m] && 0 <= o < |d|
      ensures d1[o] == d[o]
    {
      var j := LiveAt(h, b, m);
      BlocksApart(h, b, i, j);
    }
  }

  lemma TakenKept(h: Heap, b: seq<int>, i: int, d: seq<int>, d1: seq<int>)
    requires h.Tiled(b) && 0 <= i < |b| - 1 && 0 <= b[i] <= h.end && !h.used[b[i]]
    requires Kept(Live(h, b) - {b[i]}, d, d1)
    ensures Kept(Live(h, b), d, d1)
  {
    var live := Live(h, b);
    assert b[i] !in live;
    forall m, o | m in live && m + HEADER <= o < live[m] && 0 <= o < |d|
      ensures d1[o] == d[o]
    {
      assert m in live - {b[i]};
    }
  }

  /** Cutting a used block: the rest may be the lowest free block, and has used blocks or free ones around it. */
  lemma ShrinkKeeps(h: Heap, b: seq<int>, i: int, p: int, lfree: int)
    requires h.Tiled(b) && h.Coalesced(b) && h.Lowest(b, lfree) && 0 <= i < |b| - 1 && 0 <= b[i] <= h.end && h.used[b[i]]
    requires b[i] + HEADER <= p && p + HEADER <= b[i + 1] && p % 4 == 0
    ensures 0 <= p <= h.end && 0 <= h.next[b[i]] <= h.end
    ensures var g, c := Cut(h, b[i], p), Inserted(b, i + 1, p);
            && g.Tiled(c) && CoalescedBut(g, c, i + 1) && g.Lowest(c, if p < lfree then p else lfree)
            && i + 1 < |c| - 1 && c[i + 1] == p && !g.used[p] && Inside(c, |g.used|)
            && UsedBytes(c, g.used) == UsedBytes(b, h.used) - (b[i + 1] - p)
            && Live(g, c) == Live(h, b)[b[i] := p]
  {
    hide UsedBytes, Inserted, Live;
    CutPairs(h, b, i, p);
    CutLowest(h, b, i, p, lfree);
    CutLive(h, b, i, p);
    UsedBytesCut(b, h.used, i, p);
    hide CoalescedBut, Heap.Lowest;
    assert h.LinkAt(b, i);
  }

  /** The search passes over a free block with room exactly if it is the last one and the request would fill it. */
  lemma SearchMisses(h: Heap, b: seq<int>, i: int, size: int)
    requires h.Tiled(b) && Fits(h, b, i, size)
    ensures Found(h, b, i, size) <==> !(i == |b| - 2 && b[i + 1] - b[i] - HEADER == size)
  {
    if i < |b| - 2 {
      assert b[i + 1] < b[|b| - 1];
    }
  }

  /** A fresh heap refuses a request for all of it. */
  method RefusesAll(size: int) returns (payload: int)
    requires size >= MIN_SIZE && size % 4 == 0 && size + 2 * HEADER < TWO32
    ensures payload == NULL
  {
    var heap := new SmallHeap(size, seq(HEADER + size, _ => 0));
    payload := heap.Malloc(size);
  }

  /** Asked for 2^32 - 1 bytes, rt_malloc hands out twelve, and asked to give them that size, rt_realloc frees them. */
  method SizesWrap() returns (payload: int, bytes: int, r: int, usedBefore: int, usedAfter: int)
    ensures payload == HEADER && bytes == 12
    ensures r == NULL && usedBefore == HEADER + 12 && usedAfter == 0
  {
    hide UsedBytes, Heap.Coalesced, Heap.Lowest, Kept, Live;
    var heap := new SmallHeap(100, seq(HEADER + 100, _ => 0));
    ghost var h := heap.Abs();
    AlignCovers(TWO32 - 1);
    assert Found(h, heap.blocks, 0, Padded(TWO32 - 1));
    payload := heap.Malloc(TWO32 - 1);
    ghost var i :| Found(h, [0, h.end], i, Padded(TWO32 - 1)) && [0, h.end][i] == payload - HEADER;
    bytes := heap.next[payload - HEADER] - payload;
    usedBefore := heap.usedMem;
    r := heap.Realloc(payload, TWO32 - 1);
    usedAfter := heap.usedMem;
  }

  lemma NextForward(h: Heap, b: seq<int>, i: int)
    requires h.Tiled(b) && 0 <= i < |b| - 1
    ensures 0 <= b[i] <= h.end && h.next[b[i]] == b[i + 1] >= b[i] + HEADER
  {
    assert h.LinkAt(b, i);
  }

  lemma LiveAt(h: Heap, b: seq<int>, mem: int) returns (i: int)
    requires h.Tiled(b) && mem in Live(h, b)
    ensures 0 <= i < |b| - 1 && b[i] == mem && 0 <= mem < h.end && h.used[mem] && Live(h, b)[mem] == h.next[mem]
  {
    i :| 0 <= i < |b| && b[i] == mem;
  }

  /** Clearing the flag of a used block. */
  lemma FreedKeeps(h: Heap, b: seq<int>, i: int, lfree: int)
    requires h.Tiled(b) && h.Coalesced(b) && h.Lowest(b, lfree) && 0 <= i < |b| - 1 && 0 <= b[i] < h.end && h.used[b[i]]
    ensures var g := h.(used := h.used[b[i] := false]);
            && g.Tiled(b) && CoalescedBut(g, b, i) && g.Lowest(b, if b[i] < lfree then b[i] else lfree)
            && UsedBytes(b, g.used) == UsedBytes(b, h.used) - (h.next[b[i]] - b[i])
            && Live(g, b) == Live(h, b) - {b[i]}
  {
    hide UsedBytes;
    assert h.LinkAt(b, i);
    SetTiled(h, b, i, false);
    UsedBytesSet(b, h.used, i, false);
    assert b[i] in b;
  }

  /** The end is in use, so a block that is not before a free one is before a used one. */
  lemma EndUsed(h: Heap, b: seq<int>, k: int)
    requires h.Tiled(b) && 0 <= k < |b| - 1 && 0 <= b[k] <= h.end && h.next[b[k]] == b[k + 1]
    requires !(b[k] != b[k + 1] && 0 <= b[k + 1] <= h.end && !h.used[b[k + 1]] && b[k + 1] != h.end)
    ensures 0 <= b[k + 1] <= h.end && h.used[b[k + 1]]
  {
  }

  lemma JoinsAhead(h: Heap, b: seq<int>, k: int, lfree: int)
    requires h.Tiled(b) && 0 <= k < |b| - 1 && 0 <= b[k + 1] < h.end && !h.used[b[k + 1]] && CoalescedBut(h, b, k)
    requires 0 <= b[k] <= h.end && !h.used[b[k]] && h.Lowest(b, lfree)
    ensures k < |b| - 2 && lfree != b[k + 1] && 0 <= h.next[b[k]] <= h.end && 0 <= h.next[h.next[b[k]]] <= h.end
    ensures var g, c := Joined(h, b[k]), Removed(b, k + 1);
            && g.Tiled(c) && CoalescedBut(g, c, k) && g.Lowest(c, lfree) && k < |c| - 1 && c[k] == b[k]
            && 0 <= c[k + 1] <= h.end && h.used[c[k + 1]]
            && Inside(b, |h.used|) && Inside(c, |h.used|) && UsedBytes(c, h.used) == UsedBytes(b, h.used)
            && Live(g, c) == Live(h, b)
  {
    hide UsedBytes, Removed, Live, Joined, CoalescedBut;
    assert k < |b| - 2;
    JoinAhead(h, b, k);
    JoinLowest(h, b, k, lfree);
    JoinLive(h, b, k);
    UsedBytesJoin(b, h.used, k);
  }

  lemma JoinsBehind(h: Heap, b: seq<int>, k: int, lfree: int)
    requires h.Tiled(b) && 0 < k < |b| - 1 && 0 <= b[k - 1] <= h.end && !h.used[b[k - 1]] && CoalescedBut(h, b, k)
    requires 0 <= b[k] <= h.end && !h.used[b[k]] && 0 <= b[k + 1] <= h.end && h.used[b[k + 1]] && h.Lowest(b, lfree)
    ensures lfree != b[k] && 0 <= h.next[b[k - 1]] <= h.end && 0 <= h.next[h.next[b[k - 1]]] <= h.end
    ensures var g, c := Joined(h, b[k - 1]), Removed(b, k);
            && g.Tiled(c) && g.Coalesced(c) && g.Lowest(c, lfree)
            && Inside(b, |h.used|) && Inside(c, |h.used|) && UsedBytes(c, h.used) == UsedBytes(b, h.used)
            && Live(g, c) == Live(h, b)
  {
    hide UsedBytes, Removed, Live, Joined, CoalescedBut;
    JoinBehind(h, b, k);
    JoinLowest(h, b, k - 1, lfree);
    JoinLive(h, b, k - 1);
    UsedBytesJoin(b, h.used, k - 1);
  }

  lemma NothingBehind(h: Heap, b: seq<int>, k: int)
    requires h.Tiled(b) && 0 <= k < |b| - 1 && CoalescedBut(h, b, k) && 0 <= b[k + 1] <= h.end && h.used[b[k + 1]]
    requires h.LinkAt(b, k)
    requires var p := h.prev[b[k]]; 0 <= p <= h.end && (p == b[k] || h.used[p])
    ensures h.Coalesced(b)
  {
  }

  /** All blocks below `lfree` are in use, and `lfree` is free unless it is the block just taken. */
  ghost predicate NearlyLowest(h: Heap, b: seq<int>, lfree: int, taken: int)
    requires h.Tiled(b)
  {
    && lfree in b && 0 <= lfree <= h.end && (lfree != taken ==> lfree == h.end || !h.used[lfree])
    && forall i :: 0 <= i < |b| && b[i] < lfree ==> h.used[b[i]]
  }

  lemma AlreadyLowest(h: Heap, b: seq<int>, lfree: int, taken: int)
    requires h.Tiled(b) && NearlyLowest(h, b, lfree, taken) && lfree != taken
    ensures h.Lowest(b, lfree)
  {
  }

  /** Setting the flag of a free block. */
  lemma WholeKeeps(h: Heap, b: seq<int>, i: int, lfree: int)
    requires h.Tiled(b) && h.Coalesced(b) && h.Lowest(b, lfree) && 0 <= i < |b| - 1 && 0 <= b[i] <= h.end && !h.used[b[i]]
    ensures var g := h.(used := h.used[b[i] := true]);
            && g.Tiled(b) && g.Coalesced(b) && NearlyLowest(g, b, lfree, b[i])
            && UsedBytes(b, g.used) == UsedBytes(b, h.used) + h.next[b[i]] - b[i]
            && b[i] !in Live(h, b) && Live(g, b) == Live(h, b)[b[i] := h.next[b[i]]]
  {
    SetFlag(h, b, i);
    hide UsedBytes;
    assert b[i] in b;
  }

  lemma SetFlag(h: Heap, b: seq<int>, i: int)
    requires h.Tiled(b) && 0 <= i < |b| - 1 && 0 <= b[i] <= h.end && !h.used[b[i]]
    ensures var g := h.(used := h.used[b[i] := true]);
            && g.Tiled(b) && UsedBytes(b, g.used) == UsedBytes(b, h.used) + h.next[b[i]] - b[i]
            && b[i] < h.end && b[i] !in Live(h, b) && Live(g, b) == Live(h, b)[b[i] := h.next[b[i]]]
  {
    hide UsedBytes;
    assert h.LinkAt(b, i);
    SetTiled(h, b, i, true);
    UsedBytesSet(b, h.used, i, true);
    assert b[i] in b;
  }

  /** Cutting a free block and setting the flag of its first part. */
  lemma SplitKeeps(h: Heap, b: seq<int>, i: int, p: int, lfree: int)
    requires h.Tiled(b) && h.Coalesced(b) && h.Lowest(b, lfree) && 0 <= i < |b| - 1 && 0 <= b[i] <= h.end && !h.used[b[i]]
    requires b[i] + HEADER <= p && p + HEADER <= b[i + 1] && p % 4 == 0
    ensures 0 <= p <= h.end && 0 <= h.next[b[i]] <= h.end
    ensures var g, c := Cut(h, b[i], p).(used := Cut(h, b[i], p).used[b[i] := true]), Inserted(b, i + 1, p);
            && g.Tiled(c) && g.Coalesced(c) && NearlyLowest(g, c, lfree, b[i])
            && UsedBytes(c, g.used) == UsedBytes(b, h.used) + p - b[i]
            && b[i] !in Live(h, b) && Live(g, c) == Live(h, b)[b[i] := p] && g.next[b[i]] == p
  {
    hide UsedBytes, Inserted, Live;
    assert h.LinkAt(b, i);
    CutPairs(h, b, i, p);
    CutLive(h, b, i, p);
    UsedBytesCut(b, h.used, i, p);
    var g, c := Cut(h, b[i], p), Inserted(b, i + 1, p);
    SetFlag(g, c, i);
    SplitLowest(h, b, i, p, lfree);
    SplitPairs(h, b, i, p);
  }

  lemma SplitLowest(h: Heap, b: seq<int>, i: int, p: int, lfree: int)
    requires h.Tiled(b) && h.Lowest(b, lfree) && 0 <= i < |b| - 1 && 0 <= b[i] <= h.end && !h.used[b[i]]
    requires b[i] + HEADER <= p && p + HEADER <= b[i + 1] && p % 4 == 0
    requires 0 <= p <= h.end && 0 <= h.next[b[i]] <= h.end
    requires Cut(h, b[i], p).(used := Cut(h, b[i], p).used[b[i] := true]).Tiled(Inserted(b, i + 1, p))
    ensures NearlyLowest(Cut(h, b[i], p).(used := Cut(h, b[i], p).used[b[i] := true]), Inserted(b, i + 1, p), lfree, b[i])
  {
    hide Inserted;
    InsertedMembers(b, i + 1, p);
    assert lfree <= b[i];
    var c := Inserted(b, i + 1, p);
    forall j | 0 <= j < |c| && c[j] < lfree
      ensures h.used[c[j]] && c[j] != p
    {
      InsertedAt(b, i + 1, p, j);
    }
  }

  /** The rest of a free block is not beside another free block. */
  lemma SplitPairs(h: Heap, b: seq<int>, i: int, p: int)
    requires h.Tiled(b) && h.Coalesced(b) && 0 <= i < |b| - 1 && 0 <= b[i] <= h.end && !h.used[b[i]]
    requires b[i] + HEADER <= p && p + HEADER <= b[i + 1] && p % 4 == 0
    requires 0 <= p <= h.end && 0 <= h.next[b[i]] <= h.end
    requires Cut(h, b[i], p).(used := Cut(h, b[i], p).used[b[i] := true]).Tiled(Inserted(b, i + 1, p))
    ensures Cut(h, b[i], p).(used := Cut(h, b[i], p).used[b[i] := true]).Coalesced(Inserted(b, i + 1, p))
  {
    hide Inserted;
    var g, c := Cut(h, b[i], p).(used := Cut(h, b[i], p).used[b[i] := true]), Inserted(b, i + 1, p);
    forall j, k | 0 <= j < k < |c| && k == j + 1
      ensures g.used[c[j]] || g.used[c[k]]
    {
      InsertedAt(b, i + 1, p, j);
      InsertedAt(b, i + 1, p, k);
    }
  }
}
