/**
 The zones of the slab heap: each is cut into chunks of one size class, and the zones with free
 chunks are listed by size class.
 */
module SlabZones {
  import opened Lists
  import opened Bits
  import opened MqSlots

  const CLASSES: int := 72
  const ZONE_HEADER: int := 36
  const RELEASE_THRESH: int := 2

  function RoundUp(n: int, m: int): int
    requires m > 0
  {
    (n + m - 1) / m * m
  }

  /** zoneindex: the size class of a request and the size of its chunks. */
  function ZoneIndex(n: int): (int, int)
    requires 0 <= n < 16384
  {
    if n < 128 then (RoundUp(n, 8) / 8 - 1, RoundUp(n, 8))
    else if n < 256 then (RoundUp(n, 16) / 16 + 7, RoundUp(n, 16))
    else if n < 512 then (RoundUp(n, 32) / 32 + 15, RoundUp(n, 32))
    else if n < 1024 then (RoundUp(n, 64) / 64 + 23, RoundUp(n, 64))
    else if n < 2048 then (RoundUp(n, 128) / 128 + 31, RoundUp(n, 128))
    else if n < 4096 then (RoundUp(n, 256) / 256 + 39, RoundUp(n, 256))
    else if n < 8192 then (RoundUp(n, 512) / 512 + 47, RoundUp(n, 512))
    else (RoundUp(n, 1024) / 1024 + 55, RoundUp(n, 1024))
  }

  /** Band k has chunks in steps of 8 * 2^k bytes. */
  function Step(k: nat): int
    requires k < 8
  {
    [8, 16, 32, 64, 128, 256, 512, 1024][k]
  }

  lemma Units(n: nat, m: nat) returns (u: nat)
    requires m > 0
    ensures RoundUp(n, m) == u * m && RoundUp(n, m) / m == u && n <= u * m < n + m
  {
    u := (n + m - 1) / m;
    assert u * m + (n + m - 1) % m == n + m - 1;
    ModIs(u * m, m, u, 0);
  }

  /** A request of `u` steps in band k, which goes from 8 to 16 steps but for the first. */
  lemma Banded(n: int) returns (k: nat, u: nat)
    requires 1 <= n < 16384
    ensures k < 8 && 1 <= u <= 16 && (k > 0 ==> u >= 8 && n >= 8 * Step(k))
    ensures n <= u * Step(k) < n + Step(k)
    ensures ZoneIndex(n) == (u - 1 + 8 * k, u * Step(k))
  {
    hide RoundUp;
    k := if n < 128 then 0 else if n < 256 then 1 else if n < 512 then 2 else if n < 1024 then 3
         else if n < 2048 then 4 else if n < 4096 then 5 else if n < 8192 then 6 else 7;
    u := Units(n, Step(k));
  }

  /** The chunk holds the request, and wastes less than eight bytes or an eighth of it. */
  lemma ZoneIndexFits(n: int)
    requires 1 <= n < 16384
    ensures var (zi, chunk) := ZoneIndex(n);
            && 0 <= zi < CLASSES && n <= chunk <= 16384 && chunk % 8 == 0
            && (chunk - n < 8 || 8 * (chunk - n) < n)
  {
    hide ZoneIndex;
    var k, u := Banded(n);
  }

  /** Requests share a class exactly if they share a chunk size. */
  lemma ZoneIndexShared(n: int, m: int)
    requires 1 <= n < 16384 && 1 <= m < 16384
    ensures ZoneIndex(n).0 == ZoneIndex(m).0 <==> ZoneIndex(n).1 == ZoneIndex(m).1
  {
    hide ZoneIndex;
    var k, u := Banded(n);
    var l, v := Banded(m);
    if k <= l {
      SameChunk(k, u, l, v);
    } else {
      SameChunk(l, v, k, u);
    }
  }

  /** Only the last size of a band is also the first of the next. */
  lemma SameChunk(k: nat, u: nat, l: nat, v: nat)
    requires k <= l < 8 && 1 <= u <= 16 && 1 <= v <= 16 && (l > 0 ==> v >= 8) && (k > 0 ==> u >= 8)
    ensures u + 8 * k == v + 8 * l <==> u * Step(k) == v * Step(l)
  {
    if k < l {
      StepGrows(k, l);
    }
  }

  lemma StepGrows(k: nat, l: nat)
    requires k < l < 8
    ensures if l == k + 1 then Step(l) == 2 * Step(k) else Step(l) >= 4 * Step(k)
  {
  }

  // ----- the layout of a zone -----

  /** (size | (size - 1)) + 1 == size << 1 */
  predicate PowerOfTwo(size: nat)
    requires size > 0
  {
    Or(size, size - 1) + 1 == 2 * size
  }

  /** Where the chunks of a zone begin. */
  function Offset(size: nat): int
    requires size > 0
  {
    if PowerOfTwo(size) then RoundUp(ZONE_HEADER, size) else RoundUp(ZONE_HEADER, 8)
  }

  function ZoneLimit(zoneSize: int): int {
    if zoneSize / 4 > 16384 then 16384 else zoneSize / 4
  }

  function ZoneMax(zoneSize: int, size: nat): int
    requires size > 0
  {
    (zoneSize - Offset(size)) / size
  }

  /** A zone has room for two chunks at least, behind its header and inside it; chunks of a power of two are aligned. */
  lemma ZoneRoom(zoneSize: int, n: int)
    requires zoneSize == 0x8000 || zoneSize == 0x10000 || zoneSize == 0x20000
    requires 1 <= n < ZoneLimit(zoneSize)
    ensures 8 <= ZoneIndex(n).1 <= ZoneLimit(zoneSize)
    ensures var size := ZoneIndex(n).1;
            && ZoneMax(zoneSize, size) >= 2 && Offset(size) >= ZONE_HEADER
            && (PowerOfTwo(size) ==> Offset(size) % size == 0)
            && (forall c: nat {:trigger c * size} :: c < ZoneMax(zoneSize, size) ==> Offset(size) + c * size + size <= zoneSize)
  {
    hide ZoneIndex, RoundUp, PowerOfTwo, ZoneMax;
    ZoneIndexFits(n);
    var size: nat := ZoneIndex(n).1;
    var k, u := Banded(n);
    if size > ZoneLimit(zoneSize) {
      LimitFits(k, u, n, zoneSize);
    }
    var v := Units(ZONE_HEADER, size);
    var w := Units(ZONE_HEADER, 8);
    Room(zoneSize, size, Offset(size));
    assert v * size % size == 0 by {
      ModIs(v * size, size, v, 0);
    }
  }

  lemma LimitFits(k: nat, u: nat, n: int, zoneSize: int)
    requires k < 8 && 1 <= u <= 16 && (k > 0 ==> u >= 8 && n >= 8 * Step(k)) && n <= u * Step(k) < n + Step(k)
    requires zoneSize == 0x8000 || zoneSize == 0x10000 || zoneSize == 0x20000
    requires 1 <= n < ZoneLimit(zoneSize)
    ensures u * Step(k) <= ZoneLimit(zoneSize)
  {
  }

  lemma Room(zoneSize: int, size: nat, off: int)
    requires 8 <= size <= zoneSize / 4 && zoneSize >= 0x8000 && off < ZONE_HEADER + size && size > 0 && off == Offset(size)
    ensures ZoneMax(zoneSize, size) >= 2
    ensures forall c: nat {:trigger c * size} :: c < ZoneMax(zoneSize, size) ==> off + c * size + size <= zoneSize
  {
    hide Offset;
    var space: nat := zoneSize - off;
    Twice(space, size);
    var m := space / size;
    forall c: nat {:trigger c * size} | c < m
      ensures off + c * size + size <= zoneSize
    {
      Within(c, m, size, space);
    }
  }

  lemma Twice(d: nat, s: nat)
    requires s > 0 && d >= 2 * s
    ensures d / s >= 2
  {
    var q := d / s;
    assert d == s * q + d % s;
    assert q == 0 ==> s * q == 0;
    assert q == 1 ==> s * q == s;
  }

  lemma Within(c: nat, m: nat, s: nat, d: nat)
    requires s > 0 && c < m == d / s
    ensures c * s + s <= d
  {
    assert d == s * m + d % s;
    Multiple(s, m - c);
    assert s * (m - c) == s * m - c * s;
  }

  // ----- zones -----

  /** In use, kept for another size class, or given back to the pages. */
  datatype Place = Active | Spare | Released

  /** `out` are the chunks in the hands of callers, which the kernel does not store. */
  datatype Zone = Zone(nfree: int, nmax: int, uindex: int, size: int, zi: int, freeChunks: seq<int>, place: Place, out: set<int>) {

    /**
     The count of free chunks is that of the chunks never used, those above `uindex`, and those on the
     free list; the others are in the hands of callers.
     */
    ghost predicate Ok() {
      && nmax >= 2 && 0 <= uindex < nmax && size > 0 && 0 <= zi < CLASSES
      && nfree == nmax - 1 - uindex + |freeChunks| && Distinct(freeChunks)
      && (forall c :: c in freeChunks ==> 0 <= c <= uindex)
      && (forall c :: c in out ==> 0 <= c <= uindex)
      && (forall c :: 0 <= c <= uindex ==> (c in out <==> c !in freeChunks))
    }
  }

  /** A chunk leaves the zone: one never used if there is any, else the first of the free list, which is then not empty. */
  function Take(z: Zone): (r: (Zone, int))
    requires z.uindex + 1 != z.nmax || z.freeChunks != []
  {
    if z.uindex + 1 != z.nmax then
      (z.(nfree := z.nfree - 1, uindex := z.uindex + 1, out := z.out + {z.uindex + 1}), z.uindex + 1)
    else
      (z.(nfree := z.nfree - 1, freeChunks := z.freeChunks[1..], out := z.out + {z.freeChunks[0]}), z.freeChunks[0])
  }

  lemma HeadAndRest(list: seq<int>)
    requires Distinct(list)
    ensures list != [] ==> Distinct(list[1..]) && forall c :: c in list[1..] <==> c in list && c != list[0]
    ensures list != [] ==> list[0] in list
  {
    if list != [] {
      assert list == [list[0]] + list[1..];
    }
  }

  lemma TakeOk(z: Zone)
    requires z.Ok() && z.nfree > 0
    ensures z.uindex + 1 != z.nmax || z.freeChunks != []
    ensures Take(z).0.Ok() && Take(z).1 !in z.out && 0 <= Take(z).1 < z.nmax
  {
    if z.uindex + 1 == z.nmax {
      HeadAndRest(z.freeChunks);
    }
  }

  function Give(z: Zone, c: int): Zone {
    z.(nfree := z.nfree + 1, freeChunks := [c] + z.freeChunks, out := z.out - {c})
  }

  lemma GiveOk(z: Zone, c: int)
    requires z.Ok() && c in z.out
    ensures Give(z, c).Ok() && z.nfree < z.nmax
    ensures Give(z, c).nfree == z.nmax <==> Give(z, c).out == {}
  {
    var r := Give(z, c);
    assert c !in z.freeChunks;
    assert forall d :: d in r.freeChunks <==> d == c || d in z.freeChunks;
    DistinctCount(r.freeChunks, z.uindex + 1);
    if d :| d in r.out {
      assert d !in r.freeChunks;
      DistinctCount([d] + r.freeChunks, z.uindex + 1);
    } else {
      assert forall d :: d !in r.out;
      forall d | 0 <= d < z.uindex + 1
        ensures d in r.freeChunks
      {
        assert d !in r.out;
      }
      AllListed(r.freeChunks, z.uindex + 1);
    }
  }

  lemma {:induction false} AllListed(list: seq<int>, n: int)
    requires Distinct(list) && n >= 0 && forall c :: 0 <= c < n ==> c in list
    ensures |list| >= n
    decreases n
  {
    if n > 0 {
      assert n - 1 in list;
      var i :| 0 <= i < |list| && list[i] == n - 1;
      RemovedMembers(list, i);
      AllListed(Removed(list, i), n - 1);
    }
  }

  // ----- the lists of zones -----

  /** Zone `z` belongs on the list of class `zi`: it serves the class and has free chunks. */
  ghost predicate Listed(zones: seq<Zone>, z: int, zi: int) {
    0 <= z < |zones| && zones[z].place == Active && zones[z].zi == zi && zones[z].nfree > 0
  }

  ghost predicate ListOk(zones: seq<Zone>, list: seq<int>, zi: int) {
    Distinct(list) && forall z :: z in list <==> Listed(zones, z, zi)
  }

  ghost predicate ArrayOk(zones: seq<Zone>, lists: seq<seq<int>>) {
    |lists| == CLASSES && forall zi :: 0 <= zi < CLASSES ==> ListOk(zones, lists[zi], zi)
  }

  ghost predicate SpareOk(zones: seq<Zone>, spare: seq<int>) {
    Distinct(spare) && forall z :: z in spare <==> 0 <= z < |zones| && zones[z].place == Spare
  }

  /** Chunks of this size belong to this class. */
  ghost predicate ClassOf(zi: int, size: int) {
    exists n :: 1 <= n < 16384 && ZoneIndex(n) == (zi, size)
  }

  ghost predicate ZoneAt(zone: Zone) {
    if zone.place == Active then zone.Ok() && ClassOf(zone.zi, zone.size) else zone.out == {}
  }

  /** A zone in use is cut into as many chunks of its class as go in. */
  ghost predicate AllCut(zones: seq<Zone>, zoneSize: int) {
    forall z :: 0 <= z < |zones| && zones[z].place == Active ==> zones[z].size > 0 && zones[z].nmax == ZoneMax(zoneSize, zones[z].size)
  }

  /** Such a zone has its chunks inside it, behind its header. */
  lemma ChunkInside(zoneSize: int, size: nat, c: int)
    requires size > 0 && 0 <= c < ZoneMax(zoneSize, size)
    ensures Offset(size) >= ZONE_HEADER && Offset(size) + c * size + size <= zoneSize
  {
    OffsetBehind(size);
    hide Offset;
    Space(zoneSize - Offset(size), size);
    Within(c, ZoneMax(zoneSize, size), size, zoneSize - Offset(size));
  }

  lemma OffsetBehind(size: nat)
    requires size > 0
    ensures Offset(size) >= ZONE_HEADER
  {
    hide PowerOfTwo;
    UpAtLeast(ZONE_HEADER, size);
    UpAtLeast(ZONE_HEADER, 8);
  }

  lemma UpAtLeast(n: int, m: int)
    requires m > 0
    ensures RoundUp(n, m) >= n
  {
    var q, r := (n + m - 1) / m, (n + m - 1) % m;
    assert n + m - 1 == m * q + r && q * m == m * q;
  }

  lemma Space(d: int, s: nat)
    requires s > 0 && d / s > 0
    ensures d >= 0
  {
  }

  ghost predicate ZonesOk(zones: seq<Zone>) {
    forall z :: 0 <= z < |zones| ==> ZoneAt(zones[z])
  }

  /** A zone changes and stays on its list, or off all lists. */
  lemma StaysListed(zones: seq<Zone>, lists: seq<seq<int>>, z: int, zone: Zone)
    requires ArrayOk(zones, lists) && 0 <= z < |zones|
    requires forall zi :: 0 <= zi < CLASSES ==> (Listed(zones, z, zi) <==> Listed(zones[z := zone], z, zi))
    ensures ArrayOk(zones[z := zone], lists)
  {
    forall zi | 0 <= zi < CLASSES
      ensures ListOk(zones[z := zone], lists[zi], zi)
    {
      assert ListOk(zones, lists[zi], zi);
      forall y
        ensures Listed(zones[z := zone], y, zi) <==> Listed(zones, y, zi)
      {
      }
    }
  }

  lemma JoinsList(zones: seq<Zone>, lists: seq<seq<int>>, z: int, zone: Zone)
    requires ArrayOk(zones, lists) && 0 <= z < |zones| && 0 <= zone.zi < CLASSES
    requires forall zi :: 0 <= zi < CLASSES ==> !Listed(zones, z, zi)
    requires Listed(zones[z := zone], z, zone.zi)
    ensures ArrayOk(zones[z := zone], lists[zone.zi := [z] + lists[zone.zi]])
  {
    var after, a := zones[z := zone], lists[zone.zi := [z] + lists[zone.zi]];
    forall zi | 0 <= zi < CLASSES
      ensures ListOk(after, a[zi], zi)
    {
      assert ListOk(zones, lists[zi], zi) && z !in lists[zi];
      forall y
        ensures y in a[zi] <==> Listed(after, y, zi)
      {
        assert y != z ==> (Listed(after, y, zi) <==> Listed(zones, y, zi));
      }
    }
  }

  lemma LeavesList(zones: seq<Zone>, lists: seq<seq<int>>, z: int, zone: Zone, zi: int)
    requires ArrayOk(zones, lists) && 0 <= z < |zones| && 0 <= zi < CLASSES && Listed(zones, z, zi)
    requires !(zone.place == Active && zone.nfree > 0)
    ensures ArrayOk(zones[z := zone], lists[zi := Del(lists[zi], z)])
  {
    hide Del;
    assert ListOk(zones, lists[zi], zi);
    DelHas(lists[zi], z);
    var a := lists[zi := Del(lists[zi], z)];
    forall i | 0 <= i < CLASSES
      ensures ListOk(zones[z := zone], a[i], i)
    {
      assert ListOk(zones, lists[i], i);
      forall y | y != z
        ensures Listed(zones[z := zone], y, i) <==> Listed(zones, y, i)
      {
      }
    }
  }

  /** What a caller holds: a chunk of a zone. */
  datatype Block = NoBlock | Block(zone: int, chunk: int)

  /** Exactly the block `b` went into the hands of a caller. */
  ghost predicate Handed(before: seq<Zone>, after: seq<Zone>, b: Block)
    requires b.Block?
  {
    && |before| <= |after| && 0 <= b.zone < |after|
    && (forall z :: 0 <= z < |before| && z != b.zone ==> after[z] == before[z])
    && |after| <= |before| + 1 && (|after| > |before| ==> b.zone == |before|)
    && after[b.zone].out == OutOf(before, b.zone) + {b.chunk} && b.chunk !in OutOf(before, b.zone)
  }

  /** The chunks of a zone in the hands of callers. */
  function OutOf(zones: seq<Zone>, z: int): set<int> {
    if 0 <= z < |zones| then zones[z].out else {}
  }

  lemma OneSize(zi: int, size: int, n: int)
    requires ClassOf(zi, size) && 1 <= n < 16384 && ZoneIndex(n).0 == zi
    ensures ZoneIndex(n).1 == size
  {
    hide ZoneIndex;
    var m :| 1 <= m < 16384 && ZoneIndex(m) == (zi, size);
    ZoneIndexShared(n, m);
  }

  /** The zone size is doubled from 32K up to 128K as long as it stays below the 1024th part of the heap. */
  method ZoneSizeFor(limit: nat) returns (size: int)
    ensures size == 0x8000 || size == 0x10000 || size == 0x20000
    ensures size == 0x8000 || size < limit / 1024
    ensures size == 0x20000 || 2 * size >= limit / 1024
  {
    size := 0x8000;
    while size < 0x20000 && size * 2 < limit / 1024
      invariant size == 0x8000 || ((size == 0x10000 || size == 0x20000) && size < limit / 1024)
      decreases 0x20000 - size
    {
      size := size * 2;
    }
  }

  class ZoneHeap {
    const zoneSize: int
    var zones: seq<Zone>
    var zoneArray: seq<seq<int>>
    var zoneFree: seq<int>

    ghost predicate Valid()
      reads this
    {
      && (zoneSize == 0x8000 || zoneSize == 0x10000 || zoneSize == 0x20000)
      && ZonesOk(zones) && AllCut(zones, zoneSize)
      && ArrayOk(zones, zoneArray) && SpareOk(zones, zoneFree) && |zoneFree| <= RELEASE_THRESH
    }

    /** rt_system_heap_init of `limit` bytes of pages, as far as zones go. */
    constructor (limit: nat)
      ensures Valid() && zones == []
      ensures zoneSize == 0x8000 || zoneSize < limit / 1024
      ensures zoneSize == 0x20000 || 2 * zoneSize >= limit / 1024
    {
      var size := ZoneSizeFor(limit);
      zoneSize := size;
      zones, zoneArray, zoneFree := [], seq(CLASSES, _ => []), [];
    }

    /**
     rt_malloc of a size below the zone limit; `pages` tells whether the page allocator has room for
     a zone.  The chunk handed out was in nobody's hands and is large enough; no other chunk changes
     hands.  It fails only if no zone of the class has a free chunk, none is spare and no pages are left.
     */
    method Malloc(n: int, pages: bool) returns (b: Block)
      requires Valid() && 1 <= n < ZoneLimit(zoneSize)
      modifies this`zones, this`zoneArray, this`zoneFree
      ensures Valid() && 0 <= ZoneIndex(n).0 < CLASSES
      ensures b == NoBlock <==> old(zoneArray)[ZoneIndex(n).0] == [] && old(zoneFree) == [] && !pages
      ensures b == NoBlock ==> unchanged(this)
      ensures b != NoBlock ==> 0 <= b.zone < |zones| && zones[b.zone].size == ZoneIndex(n).1 >= n
                               && 0 <= b.chunk < zones[b.zone].nmax && Handed(old(zones), zones, b)
      ensures |old(zoneArray)| == CLASSES && var list := old(zoneArray)[ZoneIndex(n).0] + old(zoneFree);
              b != NoBlock ==> b.zone == if list != [] then list[0] else |old(zones)|
      ensures b != NoBlock ==> zones[b.zone].place == Active
                               && (b.zone == |old(zones)| <==> old(zoneArray)[ZoneIndex(n).0] == [] && old(zoneFree) == [])
                               && (b.zone < |old(zones)| ==> old(zones)[b.zone].place != Released)
                               && (b.zone < |old(zones)| && old(zones)[b.zone].place == Active ==>
                                     zones[b.zone].size == old(zones)[b.zone].size)
    {
      ZoneIndexFits(n);
      ZoneRoom(zoneSize, n);
      hide ZoneIndex, Offset, PowerOfTwo, ZoneMax, ZonesOk, ArrayOk, SpareOk;
      var (zi, size) := ZoneIndex(n);
      if zoneArray[zi] != [] {
        b := FromList(zi, size, n);
        return;
      }
      if zoneFree == [] && !pages {
        return NoBlock;
      }
      b := FromNew(zi, size, n);
    }

    /** Take a chunk of the first zone of the class. */
    method FromList(zi: int, size: int, ghost n: int) returns (b: Block)
      requires Valid() && 1 <= n < 16384 && ZoneIndex(n) == (zi, size) && 0 <= zi < CLASSES && zoneArray[zi] != []
      modifies this`zones, this`zoneArray
      ensures Valid() && b.Block? && 0 <= b.zone < |zones| == |old(zones)| && zones[b.zone].size == size
      ensures 0 <= b.chunk < zones[b.zone].nmax && Handed(old(zones), zones, b)
      ensures zones[b.zone].place == old(zones)[b.zone].place == Active && zones[b.zone].size == old(zones)[b.zone].size
      ensures |old(zoneArray)| == CLASSES && old(zoneArray)[zi] != [] && b.zone == old(zoneArray)[zi][0]
      ensures zoneArray == if zones[b.zone].nfree == 0 then old(zoneArray)[zi := old(zoneArray)[zi][1..]] else old(zoneArray)
    {
      hide ZoneIndex, ZoneMax;
      var z := zoneArray[zi][0];
      assert ListOk(zones, zoneArray[zi], zi) && z in zoneArray[zi];
      assert Listed(zones, z, zi) && ZoneAt(zones[z]);
      TakeOk(zones[z]);
      OneSize(zi, zones[z].size, n);
      var (zone, chunk) := Take(zones[z]);
      TookOk(zones, zoneArray, zoneFree, z, zone, zi);
      if zone.nfree == 0 {
        zoneArray := zoneArray[zi := zoneArray[zi][1..]];
      }
      zones := zones[z := zone];
      b := Block(z, chunk);
    }

    /** Cut a spare zone, or a new one, into chunks and take the first. */
    method FromNew(zi: int, size: nat, ghost n: int) returns (b: Block)
      requires Valid() && 1 <= n < 16384 && ZoneIndex(n) == (zi, size) && 0 <= zi < CLASSES && size > 0
      requires ZoneMax(zoneSize, size) >= 2
      modifies this`zones, this`zoneArray, this`zoneFree
      ensures Valid() && b.Block? && 0 <= b.zone < |zones| && zones[b.zone].size == size
      ensures 0 <= b.chunk < zones[b.zone].nmax && Handed(old(zones), zones, b)
      ensures zones[b.zone].place == Active && (b.zone == |old(zones)| <==> old(zoneFree) == [])
      ensures b.zone < |old(zones)| ==> old(zones)[b.zone].place == Spare
      ensures b.chunk == 0 && b.zone == if old(zoneFree) == [] then |old(zones)| else old(zoneFree)[0]
      ensures |old(zoneArray)| == CLASSES && zoneArray == old(zoneArray)[zi := [b.zone] + old(zoneArray)[zi]]
      ensures zoneFree == if old(zoneFree) == [] then [] else old(zoneFree)[1..]
    {
      hide ZoneIndex, ZoneMax;
      var nmax := ZoneMax(zoneSize, size);
      var zone := Zone(nmax - 1, nmax, 0, size, zi, [], Active, {0});
      var z := |zones|;
      if zoneFree != [] {
        z := zoneFree[0];
        assert z in zoneFree;
        SpareLeaves(zones, zoneFree, zone);
        zoneFree := zoneFree[1..];
      } else {
        NewZone(zones, zoneArray, zoneFree);
        zones := zones + [Zone(0, 2, 0, size, zi, [], Released, {})];
        SpareSame(zones, zoneFree, z, zone);
      }
      JoinsList(zones, zoneArray, z, zone);
      zones := zones[z := zone];
      zoneArray := zoneArray[zi := [z] + zoneArray[zi]];
      b := Block(z, 0);
      assert ZoneAt(zone);
    }

    /**
     rt_free of a chunk: exactly that one leaves the hands of its caller.  A zone whose chunks are all
     free goes to the spare zones, unless it is the last of its class, and past two spare zones back
     to the page allocator.
     */
    method Free(b: Block)
      requires Valid() && b.Block? && b.chunk in OutOf(zones, b.zone)
      modifies this`zones, this`zoneArray, this`zoneFree
      ensures Valid() && |zones| == |old(zones)| && 0 <= b.zone < |zones|
      ensures zones[b.zone].out == old(zones)[b.zone].out - {b.chunk} && zones[b.zone].size == old(zones)[b.zone].size
      ensures old(zones)[b.zone].place == Active
      ensures forall z :: 0 <= z < |zones| && z != b.zone ==> zones[z] == old(zones)[z]
      ensures zones[b.zone].place != Active ==> zones[b.zone].out == {}
      ensures 0 <= old(zones)[b.zone].zi < CLASSES == |old(zoneArray)| && var list := old(zoneArray)[old(zones)[b.zone].zi];
        zones[b.zone].place ==
          if old(zones)[b.zone].out != {b.chunk} || (forall z :: z in list ==> z == b.zone) then Active
          else if |old(zoneFree)| == RELEASE_THRESH then Released else Spare
      ensures zoneFree == if zones[b.zone].place == Spare then [b.zone] + old(zoneFree) else old(zoneFree)
      ensures 0 <= old(zones)[b.zone].zi < CLASSES == |old(zoneArray)| && var zi := old(zones)[b.zone].zi;
        zoneArray == old(zoneArray)[zi :=
          if zones[b.zone].place != Active then Del(old(zoneArray)[zi], b.zone)
          else if b.zone in old(zoneArray)[zi] then old(zoneArray)[zi] else [b.zone] + old(zoneArray)[zi]]
    {
      hide ZonesOk, AllCut, ArrayOk, SpareOk, Del;
      var z := b.zone;
      var zi := PutBack(b);
      OthersListed(old(zoneArray)[zi], zoneArray[zi], z);
      if zones[z].nfree == zones[z].nmax && |zoneArray[zi]| > 1 {
        Retire(z, zi);
      }
    }

    /** Put the chunk on the list of its zone, and the zone on the list of its class if it had no free chunk. */
    method PutBack(b: Block) returns (zi: int)
      requires Valid() && b.Block? && b.chunk in OutOf(zones, b.zone)
      modifies this`zones, this`zoneArray
      ensures Valid() && 0 <= b.zone < |zones| == |old(zones)| && 0 <= zi < CLASSES && Listed(zones, b.zone, zi)
      ensures old(zones)[b.zone].place == Active && old(zones)[b.zone].zi == zi
      ensures zones == old(zones)[b.zone := Give(old(zones)[b.zone], b.chunk)]
      ensures zones[b.zone].nfree == zones[b.zone].nmax <==> zones[b.zone].out == {}
      ensures zones[b.zone].out == {} <==> old(zones)[b.zone].out == {b.chunk}
      ensures |zoneArray| == |old(zoneArray)| == CLASSES && Distinct(zoneArray[zi])
      ensures var list := old(zoneArray)[zi];
              zoneArray == old(zoneArray)[zi := if b.zone in list then list else [b.zone] + list]
    {
      var z := b.zone;
      assert ZoneAt(zones[z]);
      GiveOk(zones[z], b.chunk);
      zi := zones[z].zi;
      var zone := Give(zones[z], b.chunk);
      GaveOk(zones, zoneArray, zoneFree, z, zone);
      assert ListOk(zones, zoneArray[zi], zi);
      assert zoneArray[zi := zoneArray[zi]] == zoneArray;
      if zones[z].nfree == 0 {
        zoneArray := zoneArray[zi := [z] + zoneArray[zi]];
      }
      zones := zones[z := zone];
      hide Zone.Ok, ClassOf, ZoneMax;
      assert ListOk(zones, zoneArray[zi], zi) && Listed(zones, z, zi);
    }

    /** Take a zone without a chunk in use off its list; if that is one spare zone too many, it is released. */
    method Retire(z: int, zi: int)
      requires Valid() && 0 <= zi < CLASSES && Listed(zones, z, zi) && zones[z].out == {}
      modifies this`zones, this`zoneArray, this`zoneFree
      ensures Valid() && |old(zoneArray)| == CLASSES && zoneArray == old(zoneArray)[zi := Del(old(zoneArray)[zi], z)]
      ensures var full := |old(zoneFree)| == RELEASE_THRESH;
              && zones == old(zones)[z := old(zones)[z].(place := if full then Released else Spare)]
              && zoneFree == if full then old(zoneFree) else [z] + old(zoneFree)
    {
      hide Del, Zone.Ok, ClassOf, ZoneMax;
      var zone := zones[z];
      Retires(zones, zoneArray, zoneFree, z, zi);
      zoneArray := zoneArray[zi := Del(zoneArray[zi], z)];
      zones := zones[z := zone.(place := Spare)];
      zoneFree := [z] + zoneFree;
      if |zoneFree| > RELEASE_THRESH {
        SpareLeaves(zones, zoneFree, zone.(place := Released));
        StaysListed(zones, zoneArray, z, zone.(place := Released));
        zoneFree := zoneFree[1..];
        zones := zones[z := zone.(place := Released)];
      }
    }
  }

  /** A list that has `z`, or gets it in front, has more than one zone exactly if it had another. */
  lemma OthersListed(before: seq<int>, list: seq<int>, z: int)
    requires Distinct(list) && list == if z in before then before else [z] + before
    ensures |list| > 1 <==> exists y :: y in before && y != z
    ensures Del(list, z) == Del(before, z)
  {
    if z in before {
      if |list| > 1 {
        assert list[0] != list[1] && list[0] in before && list[1] in before;
      }
    } else {
      DelAbsent(before, z);
      if before != [] {
        assert before[0] in before;
      }
    }
  }

  lemma SpareSame(zones: seq<Zone>, spare: seq<int>, z: int, zone: Zone)
    requires SpareOk(zones, spare) && 0 <= z < |zones| && (zones[z].place == Spare <==> zone.place == Spare)
    ensures SpareOk(zones[z := zone], spare)
  {
  }

  /** The first spare zone gets another use. */
  lemma SpareLeaves(zones: seq<Zone>, spare: seq<int>, zone: Zone)
    requires SpareOk(zones, spare) && spare != [] && zone.place != Spare
    ensures 0 <= spare[0] < |zones| && zones[spare[0]].place == Spare && SpareOk(zones[spare[0] := zone], spare[1..])
  {
    HeadAndRest(spare);
  }

  lemma NewZone(zones: seq<Zone>, lists: seq<seq<int>>, spare: seq<int>)
    requires ArrayOk(zones, lists) && SpareOk(zones, spare)
    ensures forall zone: Zone {:trigger zones + [zone]} :: zone.place == Released ==>
      ArrayOk(zones + [zone], lists) && SpareOk(zones + [zone], spare)
  {
    forall zone: Zone {:trigger zones + [zone]} | zone.place == Released
      ensures ArrayOk(zones + [zone], lists) && SpareOk(zones + [zone], spare)
    {
      forall zi | 0 <= zi < CLASSES
        ensures ListOk(zones + [zone], lists[zi], zi)
      {
        assert ListOk(zones, lists[zi], zi);
        forall y
          ensures Listed(zones + [zone], y, zi) <==> Listed(zones, y, zi)
        {
        }
      }
    }
  }

  /** After a chunk was taken from the first zone of a list, which leaves the list with its last free chunk. */
  lemma TookOk(zones: seq<Zone>, lists: seq<seq<int>>, spare: seq<int>, z: int, zone: Zone, zi: int)
    requires ZonesOk(zones) && ArrayOk(zones, lists) && SpareOk(zones, spare) && Listed(zones, z, zi) && 0 <= zi < CLASSES
    requires lists[zi] != [] && lists[zi][0] == z && zone.Ok()
    requires zone.place == Active && zone.zi == zi && zone.size == zones[z].size && zone.nfree == zones[z].nfree - 1
    ensures ZonesOk(zones[z := zone]) && SpareOk(zones[z := zone], spare)
    ensures ArrayOk(zones[z := zone], if zone.nfree == 0 then lists[zi := lists[zi][1..]] else lists)
  {
    assert ZoneAt(zones[z]);
    SpareSame(zones, spare, z, zone);
    if zone.nfree == 0 {
      LeavesList(zones, lists, z, zone, zi);
      assert Del(lists[zi], z) == lists[zi][1..];
    } else {
      StaysListed(zones, lists, z, zone);
    }
  }

  lemma GaveOk(zones: seq<Zone>, lists: seq<seq<int>>, spare: seq<int>, z: int, zone: Zone)
    requires ZonesOk(zones) && ArrayOk(zones, lists) && SpareOk(zones, spare) && 0 <= z < |zones| && zones[z].place == Active
    requires zone.Ok() && zones[z].Ok()
    requires zone.place == Active && zone.zi == zones[z].zi && zone.size == zones[z].size && zone.nfree == zones[z].nfree + 1
    ensures ZonesOk(zones[z := zone]) && SpareOk(zones[z := zone], spare)
    ensures ArrayOk(zones[z := zone], if zones[z].nfree == 0 then lists[zone.zi := [z] + lists[zone.zi]] else lists)
  {
    assert ZoneAt(zones[z]);
    SpareSame(zones, spare, z, zone);
    if zones[z].nfree == 0 {
      JoinsList(zones, lists, z, zone);
    } else {
      StaysListed(zones, lists, z, zone);
    }
  }

  /** A zone without a chunk in use leaves its list for the spare zones. */
  lemma Retires(zones: seq<Zone>, lists: seq<seq<int>>, spare: seq<int>, z: int, zi: int)
    requires ZonesOk(zones) && ArrayOk(zones, lists) && SpareOk(zones, spare) && Listed(zones, z, zi) && 0 <= zi < CLASSES
    requires zones[z].out == {}
    ensures var after := zones[z := zones[z].(place := Spare)];
            ZonesOk(after) && ArrayOk(after, lists[zi := Del(lists[zi], z)]) && SpareOk(after, [z] + spare)
  {
    hide Del;
    var after := zones[z := zones[z].(place := Spare)];
    LeavesList(zones, lists, z, zones[z].(place := Spare), zi);
    assert z !in spare;
    forall y
      ensures y in [z] + spare <==> 0 <= y < |after| && after[y].place == Spare
    {
    }
  }
}
