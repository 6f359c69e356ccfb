/**
 The slab heap: zones of chunks and large allocations on the pages of the page allocator, and the table
 that tells which a page belongs to.
 */
module SlabHeap {
  import opened SlabPages
  import opened SlabZones

  const PAGE: int := 4096
  const TWO32: int := 0x1_0000_0000

  /** What the table says of a page; for a page of a zone, how many pages it is behind the zone's first. */
  datatype Usage = FreePage | Small(offset: int) | Large(count: int)

  /** The bytes from `lo` up to `hi`. */
  datatype Extent = Extent(lo: int, hi: int)

  predicate Disjoint(e: Extent, f: Extent) {
    e.hi <= f.lo || f.hi <= e.lo
  }

  /**
   `base` is the first page of each zone; the kernel knows a zone by it, so that `zoneAt` leads back.
   `larges`, which the kernel does not store, are the large allocations in use, and `out` the pages that
   the page allocator has handed out.
   */
  datatype Slab = Slab(zones: seq<Zone>, base: seq<int>, zoneAt: map<int, int>, usage: seq<Usage>, larges: map<int, int>,
                       out: set<int>, zoneSize: int)
  {
    function ZonePages(): int {
      zoneSize / PAGE
    }

    /** Zone `z` has its pages. */
    ghost predicate Kept(z: int) {
      0 <= z < |zones| && zones[z].place != Released
    }

    ghost predicate ZonePlaced(z: int)
      requires 0 <= z < |base|
    {
      && 0 <= base[z] && base[z] + ZonePages() <= |usage|
      && (forall p :: base[z] <= p < base[z] + ZonePages() ==> p in out && usage[p] == Small(p - base[z]))
      && base[z] in zoneAt && zoneAt[base[z]] == z
    }

    ghost predicate LargePlaced(b: int)
      requires b in larges
    {
      && 0 <= b && larges[b] > 0 && b + larges[b] <= |usage| && usage[b] == Large(larges[b])
      && (forall p :: b <= p < b + larges[b] ==> p in out)
    }

    /** Zones and large allocations have pages of their own. */
    ghost predicate Placed() {
      && |base| == |zones| && zoneSize % PAGE == 0 && zoneSize > 0
      && (forall z :: Kept(z) ==> ZonePlaced(z))
      && (forall b :: b in larges ==> LargePlaced(b))
      && (forall y, z :: Kept(y) && Kept(z) && y != z ==> ZonesApart(y, z))
      && (forall b, c :: b in larges && c in larges && b != c ==> LargesApart(b, c))
      && (forall z, b :: Kept(z) && b in larges ==> ZoneLargeApart(z, b))
    }

    ghost predicate ZonesApart(y: int, z: int)
      requires 0 <= y < |base| && 0 <= z < |base|
    {
      base[y] + ZonePages() <= base[z] || base[z] + ZonePages() <= base[y]
    }

    ghost predicate LargesApart(b: int, c: int)
      requires b in larges && c in larges
    {
      b + larges[b] <= c || c + larges[c] <= b
    }

    ghost predicate ZoneLargeApart(z: int, b: int)
      requires 0 <= z < |base| && b in larges
    {
      base[z] + ZonePages() <= b || b + larges[b] <= base[z]
    }

    /** The zones are as the zone allocator keeps them. */
    ghost predicate Ok() {
      Placed() && ZonesOk(zones) && AllCut(zones, zoneSize)
    }

    ghost function ChunkExtent(z: int, c: int): Extent {
      if 0 <= z < |zones| && z < |base| && zones[z].size > 0 then
        var lo := base[z] * PAGE + Offset(zones[z].size) + c * zones[z].size;
        Extent(lo, lo + zones[z].size)
      else Extent(0, 0)
    }

    ghost function LargeExtent(b: int): Extent {
      if b in larges then Extent(b * PAGE, (b + larges[b]) * PAGE) else Extent(0, 0)
    }

    /** The blocks in the hands of callers. */
    ghost function Held(): set<Extent> {
      (set z, c | 0 <= z < |zones| && c in zones[z].out :: ChunkExtent(z, c)) + (set b | b in larges :: LargeExtent(b))
    }
  }

  // ----- blocks do not overlap and lie in pages handed out -----

  /** A chunk in use lies in its zone, and the zone has its pages. */
  lemma ChunkPlaced(s: Slab, z: int, c: int)
    requires s.Ok() && 0 <= z < |s.zones| && c in s.zones[z].out
    ensures s.zones[z].place == Active && s.Kept(z) && s.zones[z].size > 0 && 0 <= c < s.zones[z].nmax
    ensures var e := s.ChunkExtent(z, c); s.base[z] * PAGE < e.lo < e.hi <= (s.base[z] + s.ZonePages()) * PAGE
  {
    assert ZoneAt(s.zones[z]);
    hide Offset, ZoneMax;
    ChunkInside(s.zoneSize, s.zones[z].size, c);
    TimesNat(c, s.zones[z].size);
  }

  lemma TimesNat(c: int, n: int)
    requires c >= 0 && n > 0
    ensures c * n >= 0
  {
  }

  lemma ChunksApart(s: Slab, z: int, c: int, d: int)
    requires s.Ok() && 0 <= z < |s.zones| && c in s.zones[z].out && d in s.zones[z].out && c != d
    ensures Disjoint(s.ChunkExtent(z, c), s.ChunkExtent(z, d))
  {
    ChunkPlaced(s, z, c);
    var n := s.zones[z].size;
    if c < d {
      TimesApart(c, d, n);
    } else {
      TimesApart(d, c, n);
    }
    hide Offset;
  }

  lemma TimesApart(c: int, d: int, n: int)
    requires c < d && n > 0
    ensures c * n + n <= d * n
  {
    TimesNat(d - c - 1, n);
    assert d * n == (d - c - 1) * n + c * n + n;
  }

  /** Different chunks, of one zone or of two, do not overlap. */
  lemma TwoChunks(s: Slab, z: int, c: int, y: int, d: int)
    requires s.Ok() && 0 <= z < |s.zones| && c in s.zones[z].out && 0 <= y < |s.zones| && d in s.zones[y].out && !(z == y && c == d)
    ensures Disjoint(s.ChunkExtent(z, c), s.ChunkExtent(y, d)) && s.ChunkExtent(z, c) != s.ChunkExtent(y, d)
  {
    ChunkPlaced(s, z, c);
    ChunkPlaced(s, y, d);
    if y == z {
      ChunksApart(s, z, c, d);
    } else {
      assert s.ZonesApart(y, z);
    }
    hide Slab.ChunkExtent;
  }

  lemma ChunkAndLarge(s: Slab, z: int, c: int, b: int)
    requires s.Ok() && 0 <= z < |s.zones| && c in s.zones[z].out && b in s.larges
    ensures Disjoint(s.ChunkExtent(z, c), s.LargeExtent(b)) && s.ChunkExtent(z, c) != s.LargeExtent(b)
  {
    ChunkPlaced(s, z, c);
    assert s.ZoneLargeApart(z, b) && s.LargePlaced(b);
    hide Slab.ChunkExtent;
  }

  lemma TwoLarges(s: Slab, b: int, c: int)
    requires s.Ok() && b in s.larges && c in s.larges && b != c
    ensures Disjoint(s.LargeExtent(b), s.LargeExtent(c)) && s.LargeExtent(b) != s.LargeExtent(c)
  {
    assert s.LargesApart(b, c) && s.LargePlaced(b) && s.LargePlaced(c);
  }

  /** No two blocks in the hands of callers overlap. */
  lemma NoOverlap(s: Slab, e: Extent, f: Extent)
    requires s.Ok() && e in s.Held() && f in s.Held() && e != f
    ensures Disjoint(e, f)
  {
    hide Slab.ChunkExtent, Slab.LargeExtent, Disjoint, Slab.Ok;
    if z, c :| 0 <= z < |s.zones| && c in s.zones[z].out && e == s.ChunkExtent(z, c) {
      if y, d :| 0 <= y < |s.zones| && d in s.zones[y].out && f == s.ChunkExtent(y, d) {
        TwoChunks(s, z, c, y, d);
      } else {
        var b :| b in s.larges && f == s.LargeExtent(b);
        ChunkAndLarge(s, z, c, b);
      }
    } else {
      var b :| b in s.larges && e == s.LargeExtent(b);
      if y, d :| 0 <= y < |s.zones| && d in s.zones[y].out && f == s.ChunkExtent(y, d) {
        ChunkAndLarge(s, y, d, b);
        Mirrored(e, f);
      } else {
        var a :| a in s.larges && f == s.LargeExtent(a);
        TwoLarges(s, b, a);
      }
    }
  }

  lemma Mirrored(e: Extent, f: Extent)
    ensures Disjoint(e, f) <==> Disjoint(f, e)
  {
  }

  /** Every byte of a block lies in a page that the page allocator has handed out. */
  lemma InPages(s: Slab, e: Extent, x: int)
    requires s.Ok() && e in s.Held() && e.lo <= x < e.hi
    ensures x / PAGE in s.out
  {
    hide Slab.ChunkExtent, Offset, AllCut, ZonesOk;
    if z, c :| 0 <= z < |s.zones| && c in s.zones[z].out && e == s.ChunkExtent(z, c) {
      ChunkPlaced(s, z, c);
      assert s.ZonePlaced(z);
    } else {
      var b :| b in s.larges && e == s.LargeExtent(b);
      assert s.LargePlaced(b);
    }
  }

  // ----- what the operations do to the pages -----

  /** The table once the `n` pages from `p` on are those of a zone. */
  function Marked(usage: seq<Usage>, p: int, n: int): (r: seq<Usage>)
    ensures |r| == |usage| && forall q :: 0 <= q < |usage| ==> r[q] == if p <= q < p + n then Small(q - p) else usage[q]
  {
    seq(|usage|, q requires 0 <= q < |usage| => if p <= q < p + n then Small(q - p) else usage[q])
  }

  /** And once they are nobody's. */
  function Unmarked(usage: seq<Usage>, p: int, n: int): (r: seq<Usage>)
    ensures |r| == |usage| && forall q :: 0 <= q < |usage| ==> r[q] == if p <= q < p + n then FreePage else usage[q]
  {
    seq(|usage|, q requires 0 <= q < |usage| => if p <= q < p + n then FreePage else usage[q])
  }

  /** Zones change, but none gets pages. */
  lemma ZonesChange(s: Slab, zones: seq<Zone>)
    requires s.Placed() && |zones| == |s.zones| && forall z :: 0 <= z < |zones| && zones[z].place != Released ==> s.Kept(z)
    ensures s.(zones := zones).Placed()
  {
    var r := s.(zones := zones);
    forall z | r.Kept(z)
      ensures r.ZonePlaced(z)
    {
      assert s.ZonePlaced(z);
    }
    forall y, z | r.Kept(y) && r.Kept(z) && y != z
      ensures r.ZonesApart(y, z)
    {
      assert s.ZonesApart(y, z);
    }
    forall b | b in r.larges
      ensures r.LargePlaced(b)
    {
      assert s.LargePlaced(b);
    }
    forall b, c | b in r.larges && c in r.larges && b != c
      ensures r.LargesApart(b, c)
    {
      assert s.LargesApart(b, c);
    }
    forall z, b | r.Kept(z) && b in r.larges
      ensures r.ZoneLargeApart(z, b)
    {
      assert s.ZoneLargeApart(z, b);
    }
  }

  /** A new zone gets the pages from `p` on, which were free. */
  ghost function WithZone(s: Slab, p: int, zones: seq<Zone>): Slab {
    s.(zones := zones, base := s.base + [p], zoneAt := s.zoneAt[p := |s.zones|],
       usage := Marked(s.usage, p, s.ZonePages()), out := s.out + Range(p, s.ZonePages()))
  }

  lemma ZoneComes(s: Slab, p: int, zones: seq<Zone>)
    requires s.Placed() && 0 <= p && p + s.ZonePages() <= |s.usage| && Range(p, s.ZonePages()) !! s.out
    requires |zones| == |s.zones| + 1 && forall z :: 0 <= z < |s.zones| && zones[z].place != Released ==> s.Kept(z)
    ensures WithZone(s, p, zones).Placed()
  {
    var r, n := WithZone(s, p, zones), s.ZonePages();
    assert n > 0;
    forall q | p <= q < p + n
      ensures q !in s.out && q in Range(p, n)
    {
    }
    forall z | r.Kept(z)
      ensures r.ZonePlaced(z)
      ensures z < |s.zones| ==> r.ZonesApart(z, |s.zones|)
    {
      if z < |s.zones| {
        assert s.ZonePlaced(z);
        ApartIfOut(s.out, s.base[z], n, p, n);
      }
    }
    forall y, z | r.Kept(y) && r.Kept(z) && y != z
      ensures r.ZonesApart(y, z)
    {
      if y < |s.zones| && z < |s.zones| {
        assert s.ZonesApart(y, z);
      }
    }
    forall b | b in r.larges
      ensures r.LargePlaced(b) && r.ZoneLargeApart(|s.zones|, b)
    {
      assert s.LargePlaced(b);
      ApartIfOut(s.out, b, s.larges[b], p, n);
    }
    forall b, c | b in r.larges && c in r.larges && b != c
      ensures r.LargesApart(b, c)
    {
      assert s.LargesApart(b, c);
    }
    forall z, b | r.Kept(z) && b in r.larges
      ensures r.ZoneLargeApart(z, b)
    {
      if z < |s.zones| {
        assert s.ZoneLargeApart(z, b);
      }
    }
  }

  /** Pages all of which are out, and pages none of which is. */
  lemma ApartIfOut(out: set<int>, a: int, n: int, p: int, m: int)
    requires n > 0 && m > 0 && (forall q :: a <= q < a + n ==> q in out) && forall q :: p <= q < p + m ==> q !in out
    ensures a + n <= p || p + m <= a
  {
    assert a <= p < a + n ==> p in out;
    assert p <= a < p + m ==> a in out;
  }

  /** A zone is given back with its pages. */
  ghost function WithoutZone(s: Slab, z: int, zones: seq<Zone>): Slab
    requires 0 <= z < |s.base|
  {
    s.(zones := zones, usage := Unmarked(s.usage, s.base[z], s.ZonePages()), out := s.out - Range(s.base[z], s.ZonePages()))
  }

  lemma ZoneGoes(s: Slab, z: int, zones: seq<Zone>)
    requires s.Placed() && s.Kept(z) && |zones| == |s.zones| && zones[z].place == Released
    requires forall y :: 0 <= y < |zones| && zones[y].place != Released ==> s.Kept(y)
    ensures WithoutZone(s, z, zones).Placed()
  {
    var r, n := WithoutZone(s, z, zones), s.ZonePages();
    assert s.ZonePlaced(z);
    forall y | r.Kept(y)
      ensures r.ZonePlaced(y)
    {
      assert s.ZonePlaced(y) && s.ZonesApart(y, z);
    }
    forall y, x | r.Kept(y) && r.Kept(x) && y != x
      ensures r.ZonesApart(y, x)
    {
      assert s.ZonesApart(y, x);
    }
    forall b | b in r.larges
      ensures r.LargePlaced(b)
    {
      assert s.LargePlaced(b) && s.ZoneLargeApart(z, b);
    }
    forall b, c | b in r.larges && c in r.larges && b != c
      ensures r.LargesApart(b, c)
    {
      assert s.LargesApart(b, c);
    }
    forall y, b | r.Kept(y) && b in r.larges
      ensures r.ZoneLargeApart(y, b)
    {
      assert s.ZoneLargeApart(y, b);
    }
  }

  /** A large allocation of `n` pages from `b` on, which were free. */
  ghost function WithLarge(s: Slab, b: int, n: int): Slab
    requires 0 <= b < |s.usage|
  {
    s.(usage := s.usage[b := Large(n)], larges := s.larges[b := n], out := s.out + Range(b, n))
  }

  lemma LargeComes(s: Slab, b: int, n: int)
    requires s.Placed() && 0 <= b && n > 0 && b + n <= |s.usage| && Range(b, n) !! s.out
    ensures b !in s.larges && WithLarge(s, b, n).Placed()
  {
    var r := WithLarge(s, b, n);
    forall q | b <= q < b + n
      ensures q !in s.out && q in Range(b, n)
    {
    }
    assert b in s.larges ==> s.LargePlaced(b) && b in s.out;
    forall z | r.Kept(z)
      ensures r.ZonePlaced(z) && r.ZoneLargeApart(z, b)
    {
      assert s.ZonePlaced(z);
      ApartIfOut(s.out, s.base[z], s.ZonePages(), b, n);
    }
    forall y, z | r.Kept(y) && r.Kept(z) && y != z
      ensures r.ZonesApart(y, z)
    {
      assert s.ZonesApart(y, z);
    }
    forall c | c in r.larges
      ensures r.LargePlaced(c)
      ensures c != b ==> r.LargesApart(c, b)
    {
      if c != b {
        assert s.LargePlaced(c);
        ApartIfOut(s.out, c, s.larges[c], b, n);
      }
    }
    forall c, d | c in r.larges && d in r.larges && c != d
      ensures r.LargesApart(c, d)
    {
      if c != b && d != b {
        assert s.LargesApart(c, d);
      }
    }
    forall z, c | r.Kept(z) && c in r.larges
      ensures r.ZoneLargeApart(z, c)
    {
      if c != b {
        assert s.ZoneLargeApart(z, c);
      }
    }
  }

  /** A large allocation is given back. */
  ghost function WithoutLarge(s: Slab, b: int): Slab
    requires b in s.larges && 0 <= b < |s.usage|
  {
    s.(usage := s.usage[b := Large(0)], larges := s.larges - {b}, out := s.out - Range(b, s.larges[b]))
  }

  lemma LargeGoes(s: Slab, b: int)
    requires s.Placed() && b in s.larges
    ensures 0 <= b < |s.usage| && WithoutLarge(s, b).Placed()
  {
    assert s.LargePlaced(b);
    var r := WithoutLarge(s, b);
    forall z | r.Kept(z)
      ensures r.ZonePlaced(z)
    {
      assert s.ZonePlaced(z) && s.ZoneLargeApart(z, b);
    }
    forall y, z | r.Kept(y) && r.Kept(z) && y != z
      ensures r.ZonesApart(y, z)
    {
      assert s.ZonesApart(y, z);
    }
    forall c | c in r.larges
      ensures r.LargePlaced(c)
    {
      assert s.LargePlaced(c) && s.LargesApart(c, b);
    }
    forall c, d | c in r.larges && d in r.larges && c != d
      ensures r.LargesApart(c, d)
    {
      assert s.LargesApart(c, d);
    }
    forall z, c | r.Kept(z) && c in r.larges
      ensures r.ZoneLargeApart(z, c)
    {
      assert s.ZoneLargeApart(z, c);
    }
  }

  // ----- what the operations do to the blocks -----

  /** Only chunk `c` of zone `z` is handed out in addition; zones keep their chunk size while chunks are in use. */
  lemma ChunkComes(s: Slab, r: Slab, z: int, c: int)
    requires r.Ok() && |s.base| == |s.zones| <= |r.zones| && |r.base| == |r.zones| && s.base <= r.base && s.larges == r.larges
    requires 0 <= z < |r.zones| && Handed(s.zones, r.zones, Block(z, c))
    requires z < |s.zones| && s.zones[z].out != {} ==> s.zones[z].size == r.zones[z].size
    ensures r.Held() == s.Held() + {r.ChunkExtent(z, c)} && r.ChunkExtent(z, c) !in s.Held()
  {
    hide Offset, Slab.Ok;
    forall y, d | 0 <= y < |s.zones| && d in s.zones[y].out
      ensures d in r.zones[y].out && s.ChunkExtent(y, d) == r.ChunkExtent(y, d) && r.ChunkExtent(y, d) != r.ChunkExtent(z, c)
    {
      TwoChunks(r, y, d, z, c);
    }
    forall b | b in s.larges
      ensures s.LargeExtent(b) == r.LargeExtent(b) != r.ChunkExtent(z, c)
    {
      ChunkAndLarge(r, z, c, b);
    }
    hide Slab.ChunkExtent, Slab.LargeExtent;
    forall e | e in r.Held()
      ensures e in s.Held() || e == r.ChunkExtent(z, c)
    {
      if y, d :| 0 <= y < |r.zones| && d in r.zones[y].out && e == r.ChunkExtent(y, d) {
        if !(y == z && d == c) {
          assert 0 <= y < |s.zones| && d in s.zones[y].out;
        }
      }
    }
    assert c in r.zones[z].out;
  }

  /** Only chunk `c` of zone `z` is given back. */
  lemma ChunkGoes(s: Slab, r: Slab, z: int, c: int)
    requires s.Ok() && |r.zones| == |s.zones| && r.base == s.base && r.larges == s.larges
    requires 0 <= z < |s.zones| && c in s.zones[z].out && r.zones[z].out == s.zones[z].out - {c} && r.zones[z].size == s.zones[z].size
    requires forall y :: 0 <= y < |s.zones| && y != z ==> r.zones[y] == s.zones[y]
    ensures r.Held() == s.Held() - {s.ChunkExtent(z, c)}
  {
    hide Offset, Slab.Ok;
    forall y, d | 0 <= y < |r.zones| && d in r.zones[y].out
      ensures d in s.zones[y].out && s.ChunkExtent(y, d) == r.ChunkExtent(y, d) != s.ChunkExtent(z, c)
    {
      TwoChunks(s, y, d, z, c);
    }
    forall b | b in s.larges
      ensures s.LargeExtent(b) == r.LargeExtent(b) != s.ChunkExtent(z, c)
    {
      ChunkAndLarge(s, z, c, b);
    }
    hide Slab.ChunkExtent, Slab.LargeExtent;
    forall e | e in s.Held() && e != s.ChunkExtent(z, c)
      ensures e in r.Held()
    {
      if y, d :| 0 <= y < |s.zones| && d in s.zones[y].out && e == s.ChunkExtent(y, d) {
        assert 0 <= y < |r.zones| && d in r.zones[y].out;
      }
    }
  }

  /** Only the large allocation at `b` comes or goes. */
  lemma LargeHeld(s: Slab, r: Slab, b: int)
    requires s.Ok() && r.zones == s.zones && r.base == s.base && b in s.larges && r.larges == s.larges - {b}
    ensures s.Held() == r.Held() + {s.LargeExtent(b)} && s.LargeExtent(b) !in r.Held()
  {
    hide Offset, Slab.Ok;
    forall y, d | 0 <= y < |s.zones| && d in s.zones[y].out
      ensures s.ChunkExtent(y, d) == r.ChunkExtent(y, d) != s.LargeExtent(b)
    {
      ChunkAndLarge(s, y, d, b);
    }
    forall c | c in r.larges
      ensures s.LargeExtent(c) == r.LargeExtent(c) != s.LargeExtent(b)
    {
      TwoLarges(s, c, b);
    }
    hide Slab.ChunkExtent, Slab.LargeExtent;
    forall e | e in s.Held()
      ensures e in r.Held() || e == s.LargeExtent(b)
    {
      if c :| c in s.larges && e == s.LargeExtent(c) {
        assert c != b ==> c in r.larges;
      }
    }
  }

  // ----- finding the owner of an address -----

  lemma OwnChunk(s: Slab, z: int, c: int)
    requires s.Ok() && 0 <= z < |s.zones| && c in s.zones[z].out
    ensures var addr, n := s.ChunkExtent(z, c).lo, s.zones[z].size;
            && n > 0 && 0 <= addr / PAGE < |s.usage| && s.usage[addr / PAGE] == Small(addr / PAGE - s.base[z])
            && s.base[z] in s.zoneAt && s.zoneAt[s.base[z]] == z && (addr - s.base[z] * PAGE - Offset(n)) / n == c
  {
    ChunkPlaced(s, z, c);
    assert s.ZonePlaced(z);
    hide Offset, ZonesOk, AllCut;
    var n := s.zones[z].size;
    assert s.ChunkExtent(z, c).lo - s.base[z] * PAGE - Offset(n) == c * n;
    Quotient(c, n);
  }

  lemma Quotient(c: int, n: int)
    requires n > 0
    ensures c * n / n == c
  {
    var q := c * n / n;
    assert c * n == n * q + c * n % n && n * q == q * n;
    if q < c {
      TimesApart(q, c, n);
    } else if c < q {
      TimesApart(c, q, n);
    }
  }

  lemma OwnLarge(s: Slab, b: int)
    requires s.Ok() && b in s.larges
    ensures var addr := s.LargeExtent(b).lo;
            addr / PAGE == b && 0 <= b < |s.usage| && s.usage[b] == Large(s.larges[b]) && s.larges[b] > 0 && b + s.larges[b] <= |s.usage|
  {
    assert s.LargePlaced(b);
  }

  /** A run of `n` free pages. */
  ghost predicate HasRun(runs: seq<Run>, n: int) {
    n > 0 && exists i :: 0 <= i < |runs| && runs[i].count >= n
  }

  /** No zone of the class has a free chunk, no zone is spare, and there are no pages for a new one. */
  ghost predicate NoChunk(zoneArray: seq<seq<int>>, zoneFree: seq<int>, zi: int, runs: seq<Run>, zonePages: int) {
    0 <= zi < |zoneArray| && zoneArray[zi] == [] && zoneFree == [] && !HasRun(runs, zonePages)
  }

  /** The pages of a large allocation, in 32 bits. */
  function PagesFor(size: int): int {
    (size + PAGE - 1) % TWO32 / PAGE
  }

  lemma PagesCover(size: int)
    requires 0 <= size < TWO32
    ensures 0 < PagesFor(size) ==> PagesFor(size) * PAGE >= size
  {
  }

  class SlabHeap {
    const pages: Pages
    const zoneHeap: ZoneHeap
    var base: seq<int>
    var zoneAt: map<int, int>
    var usage: seq<Usage>

    ghost var larges: map<int, int>

    ghost function Abs(): Slab
      reads this, pages, zoneHeap
    {
      Slab(zoneHeap.zones, base, zoneAt, usage, larges, pages.out, zoneHeap.zoneSize)
    }

    ghost predicate Valid()
      reads this, pages, zoneHeap
    {
      pages.Valid() && zoneHeap.Valid() && Abs().Placed() && |usage| == pages.total
    }

    /** rt_system_heap_init once the page allocator is set up and has handed out the pages of the table itself. */
    constructor (pages: Pages)
      requires pages.Valid()
      ensures Valid() && this.pages == pages && fresh(zoneHeap) && Abs().Held() == {}
    {
      this.pages := pages;
      var z := new ZoneHeap(pages.total * PAGE);
      zoneHeap := z;
      base, zoneAt, usage, larges := [], map[], seq(pages.total, _ => FreePage), map[];
    }

    /** The table entries of a zone. */
    method MarkZone(p: int, n: int)
      requires 0 <= p && 0 <= n && p + n <= |usage|
      modifies this`usage
      ensures usage == Marked(old(usage), p, n)
    {
      var off := 0;
      while off < n
        modifies this`usage
        invariant 0 <= off <= n && usage == Marked(old(usage), p, off)
      {
        usage := usage[p + off := Small(off)];
        off := off + 1;
      }
    }

    method UnmarkZone(p: int, n: int)
      requires 0 <= p && 0 <= n && p + n <= |usage|
      modifies this`usage
      ensures usage == Unmarked(old(usage), p, n)
    {
      var i := 0;
      while i < n
        modifies this`usage
        invariant 0 <= i <= n && usage == Unmarked(old(usage), p, i)
      {
        usage := usage[p + i := FreePage];
        i := i + 1;
      }
    }

    /**
     rt_malloc: the address of a block that nobody held and that holds the request; NULL exactly if
     there is no chunk of its class, no spare zone and no run of pages for a new one, or, for a large
     request, no run of pages.
     */
    method Malloc(size: int) returns (r: int, ghost e: Extent)
      requires Valid() && 0 <= size < TWO32
      modifies this, pages, zoneHeap
      ensures Valid()
      ensures r == NULL <==> (size == 0
        || (size >= ZoneLimit(zoneHeap.zoneSize) && !HasRun(old(pages.runs), PagesFor(size)))
        || (size < ZoneLimit(zoneHeap.zoneSize)
            && NoChunk(old(zoneHeap.zoneArray), old(zoneHeap.zoneFree), ZoneIndex(size).0, old(pages.runs), zoneHeap.zoneSize / PAGE)))
      ensures r == NULL ==> Abs().Held() == old(Abs().Held())
      ensures r != NULL ==> e.lo == r && e.hi >= r + size && e !in old(Abs().Held()) && Abs().Held() == old(Abs().Held()) + {e}
      ensures r != NULL ==> e.hi - r == if size >= ZoneLimit(zoneHeap.zoneSize) then PagesFor(size) * PAGE else ZoneIndex(size).1
    {
      hide HasRun, ZoneIndex, PagesFor;
      e := Extent(NULL, NULL);
      if size == 0 {
        return NULL, e;
      }
      if size >= ZoneLimit(zoneHeap.zoneSize) {
        r, e := MallocLarge(size);
      } else {
        r, e := MallocSmall(size);
      }
    }

    method MallocLarge(size: int) returns (r: int, ghost e: Extent)
      requires Valid() && 0 < size < TWO32
      modifies this, pages
      ensures Valid() && (r == NULL <==> !HasRun(old(pages.runs), PagesFor(size)))
      ensures r == NULL ==> Abs() == old(Abs())
      ensures r != NULL ==> e.lo == r && e.hi >= r + size && e !in old(Abs().Held()) && Abs().Held() == old(Abs().Held()) + {e}
      ensures r != NULL ==> e.hi - r == PagesFor(size) * PAGE
    {
      PagesCover(size);
      hide Slab.Placed, Pages.ListOk, PagesFor, Slab.Held, Range, ZonesOk, AllCut;
      e := Extent(NULL, NULL);
      var n := PagesFor(size);
      ghost var s := Abs();
      var b := pages.Alloc(n);
      if b == NULL {
        return NULL, e;
      }
      LargeComes(s, b, n);
      usage := usage[b := Large(n)];
      larges := larges[b := n];
      LargeHeld(Abs(), s, b);
      r := b * PAGE;
      e := Abs().LargeExtent(b);
    }

    method MallocSmall(size: int) returns (r: int, ghost e: Extent)
      requires Valid() && 0 < size < ZoneLimit(zoneHeap.zoneSize)
      modifies this, pages, zoneHeap
      ensures Valid()
      ensures r == NULL <==>
        NoChunk(old(zoneHeap.zoneArray), old(zoneHeap.zoneFree), ZoneIndex(size).0, old(pages.runs), zoneHeap.zoneSize / PAGE)
      ensures r == NULL ==> Abs() == old(Abs())
      ensures r != NULL ==> e.lo == r && e.hi >= r + size && e !in old(Abs().Held()) && Abs().Held() == old(Abs().Held()) + {e}
      ensures r != NULL ==> e.hi - r == ZoneIndex(size).1
    {
      ZoneIndexFits(size);
      ZoneRoom(zoneHeap.zoneSize, size);
      assert |zoneHeap.zoneArray| == CLASSES;
      hide Slab.Placed, Slab.Held, Pages.ListOk, ZoneIndex, ZonesOk, AllCut, ArrayOk, SpareOk, Offset, PowerOfTwo, ZoneMax, Handed,
        HasRun, Marked, Range;
      e := Extent(NULL, NULL);
      ghost var s := Abs();
      var (zi, n) := ZoneIndex(size);
      var p := NULL;
      if zoneHeap.zoneArray[zi] == [] && zoneHeap.zoneFree == [] {
        p := ZonePagesFromPages();
        if p == NULL {
          return NULL, e;
        }
      }
      var b := zoneHeap.Malloc(size, p != NULL);
      SmallComes(s, Abs(), p, b);
      r := base[b.zone] * PAGE + Offset(n) + b.chunk * n;
      e := Abs().ChunkExtent(b.zone, b.chunk);
    }

    /** rt_free of a block in use, which the table leads to: exactly that block is given back. */
    method Free(addr: int, ghost e: Extent)
      requires Valid() && (addr != NULL ==> e in Abs().Held() && e.lo == addr)
      modifies this, pages, zoneHeap
      ensures Valid()
      ensures Abs().Held() == if addr == NULL then old(Abs().Held()) else old(Abs().Held()) - {e}
    {
      if addr == NULL {
        return;
      }
      ghost var small, z, c := OwnerOf(Abs(), e);
      if small {
        OwnChunk(Abs(), z, c);
      } else {
        OwnLarge(Abs(), z);
      }
      hide Slab.Held, Slab.Placed, Slab.ChunkExtent, Slab.LargeExtent, ZonesOk, AllCut, ArrayOk, SpareOk, Pages.ListOk, Offset;
      var kup := usage[addr / PAGE];
      if kup.Large? {
        FreeLarge(addr / PAGE, kup.count);
      } else {
        FreeSmall(addr, zoneAt[addr / PAGE - kup.offset], c);
      }
    }

    method FreeLarge(b: int, n: int)
      requires Valid() && b in larges && larges[b] == n
      modifies this, pages
      ensures Valid() && Abs().Held() == old(Abs().Held()) - {old(Abs().LargeExtent(b))}
    {
      ghost var s := Abs();
      assert s.LargePlaced(b);
      LargeGoes(s, b);
      hide Slab.Held, Slab.Placed, ZonesOk, AllCut, ArrayOk, SpareOk, Pages.ListOk;
      assert Range(b, n) <= pages.out;
      usage := usage[b := Large(0)];
      larges := larges - {b};
      pages.Release(b, n);
      LargeHeld(s, Abs(), b);
    }

    method FreeSmall(addr: int, z: int, ghost c: int)
      requires Valid() && 0 <= z < |zoneHeap.zones| && c in zoneHeap.zones[z].out && |base| == |zoneHeap.zones|
      requires addr == Abs().ChunkExtent(z, c).lo
      modifies this, pages, zoneHeap
      ensures Valid() && Abs().Held() == old(Abs().Held()) - {old(Abs().ChunkExtent(z, c))}
    {
      ghost var s := Abs();
      OwnChunk(s, z, c);
      ChunkPlaced(s, z, c);
      assert s.ZonePlaced(z);
      hide Slab.Held, Slab.Placed, Slab.ChunkExtent, ZonesOk, AllCut, ArrayOk, SpareOk, Pages.ListOk, Offset, ZoneMax;
      var n := zoneHeap.zones[z].size;
      var chunk := (addr - base[z] * PAGE - Offset(n)) / n;
      zoneHeap.Free(Block(z, chunk));
      if zoneHeap.zones[z].place == Released {
        UnmarkZone(base[z], zoneHeap.zoneSize / PAGE);
        assert Range(base[z], zoneHeap.zoneSize / PAGE) <= pages.out;
        pages.Release(base[z], zoneHeap.zoneSize / PAGE);
      }
      SmallGoes(s, Abs(), z, c);
    }

    /** Pages for a new zone, with their table entries; the zone itself is still to come. */
    method ZonePagesFromPages() returns (p: int)
      requires Valid()
      modifies this, pages
      ensures pages.Valid() && zoneHeap.Valid() && |usage| == pages.total && larges == old(larges)
      ensures p == NULL <==> !HasRun(old(pages.runs), zoneHeap.zoneSize / PAGE)
      ensures p == NULL ==> Abs() == old(Abs())
      ensures p != NULL ==> 0 <= p && p + zoneHeap.zoneSize / PAGE <= |old(usage)| && Range(p, zoneHeap.zoneSize / PAGE) !! old(pages.out)
      ensures p != NULL ==> Abs() == WithZone(old(Abs()), p, zoneHeap.zones)
    {
      hide Pages.ListOk, ZonesOk, AllCut, ArrayOk, SpareOk, Range;
      p := pages.Alloc(zoneHeap.zoneSize / PAGE);
      if p != NULL {
        MarkZone(p, zoneHeap.zoneSize / PAGE);
        zoneAt := zoneAt[p := |base|];
        base := base + [p];
      }
    }
  }

  /** Which block an extent in use is: a chunk, or a large allocation. */
  lemma OwnerOf(s: Slab, e: Extent) returns (small: bool, z: int, c: int)
    requires s.Ok() && e in s.Held()
    ensures if small then 0 <= z < |s.zones| && c in s.zones[z].out && e == s.ChunkExtent(z, c) else z in s.larges && e == s.LargeExtent(z)
  {
    hide Slab.ChunkExtent, Slab.LargeExtent, Slab.Ok;
    if y, d :| 0 <= y < |s.zones| && d in s.zones[y].out && e == s.ChunkExtent(y, d) {
      small, z, c := true, y, d;
    } else {
      small, c := false, 0;
      z :| z in s.larges && e == s.LargeExtent(z);
    }
  }

  /** Once the chunk is given back, with the pages of its zone if that was released. */
  lemma SmallGoes(s: Slab, r: Slab, z: int, c: int)
    requires s.Ok() && 0 <= z < |s.zones| && c in s.zones[z].out && |r.zones| == |s.zones|
    requires r.zones[z].out == s.zones[z].out - {c} && r.zones[z].size == s.zones[z].size && s.zones[z].place == Active
    requires forall y :: 0 <= y < |s.zones| && y != z ==> r.zones[y] == s.zones[y]
    requires 0 <= z < |s.base| && r == if r.zones[z].place == Released then WithoutZone(s, z, r.zones) else s.(zones := r.zones)
    ensures r.Placed() && r.Held() == s.Held() - {s.ChunkExtent(z, c)}
  {
    if r.zones[z].place == Released {
      ZoneGoes(s, z, r.zones);
    } else {
      ZonesChange(s, r.zones);
    }
    hide Slab.Placed, Offset, ZoneMax, ZonesOk, Slab.Held;
    ChunkGoes(s, r, z, c);
  }

  /** Once the chunk is handed out, of a zone that got new pages if it is a new one. */
  lemma SmallComes(s: Slab, r: Slab, p: int, b: Block)
    requires s.Ok() && ZonesOk(r.zones) && AllCut(r.zones, r.zoneSize) && b.Block? && Handed(s.zones, r.zones, b)
    requires r.zones[b.zone].place == Active && (b.zone == |s.zones| <==> p != NULL)
    requires b.zone < |s.zones| ==>
      s.zones[b.zone].place != Released && (s.zones[b.zone].place == Active ==> r.zones[b.zone].size == s.zones[b.zone].size)
    requires if p == NULL then r == s.(zones := r.zones) else
               0 <= p && p + s.ZonePages() <= |s.usage| && Range(p, s.ZonePages()) !! s.out && r == WithZone(s, p, r.zones)
    ensures r.Placed() && |r.base| == |r.zones| && r.zones[b.zone].size > 0
    ensures r.Held() == s.Held() + {r.ChunkExtent(b.zone, b.chunk)} && r.ChunkExtent(b.zone, b.chunk) !in s.Held()
    ensures r.ChunkExtent(b.zone, b.chunk).lo > 0
  {
    if p == NULL {
      ZonesChange(s, r.zones);
    } else {
      ZoneComes(s, p, r.zones);
    }
    if b.zone < |s.zones| {
      assert ZoneAt(s.zones[b.zone]);
    }
    ChunkPlaced(r, b.zone, b.chunk);
    assert r.ZonePlaced(b.zone);
    hide Slab.ZonePlaced, Slab.LargePlaced, Offset, ZoneMax, ZonesOk, Slab.Held;
    ChunkComes(s, r, b.zone, b.chunk);
  }
}
