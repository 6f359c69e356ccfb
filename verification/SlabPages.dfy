/**
 The page allocator under the slab heap: a list of free runs of pages in address order.
 */
module SlabPages {

  const NULL: int := -1

  /** `count` free pages from page `start` on. */
  datatype Run = Run(start: int, count: int) {
    function End(): int {
      start + count
    }
  }

  /** The runs lie inside the heap in order, and pages in use separate them. */
  ghost predicate Ordered(runs: seq<Run>, total: int) {
    && (forall i :: 0 <= i < |runs| ==> 0 <= runs[i].start && runs[i].count > 0 && runs[i].End() <= total)
    && (forall i, j :: 0 <= i < j < |runs| ==> runs[i].End() < runs[j].start)
  }

  function First(runs: seq<Run>): int {
    if runs == [] then NULL else runs[0].start
  }

  /** The first page of each run holds its length and the link to the next run. */
  ghost predicate NodeAt(next: seq<int>, pages: seq<int>, runs: seq<Run>, i: int)
    requires 0 <= i < |runs|
  {
    && 0 <= runs[i].start < |next| && |pages| == |next|
    && next[runs[i].start] == First(runs[i + 1..]) && pages[runs[i].start] == runs[i].count
  }

  ghost predicate Linked(next: seq<int>, pages: seq<int>, head: int, runs: seq<Run>) {
    head == First(runs) && forall i :: 0 <= i < |runs| ==> NodeAt(next, pages, runs, i)
  }

  ghost function Range(start: int, count: int): (r: set<int>)
    ensures forall p :: p in r <==> start <= p < start + count
    decreases count
  {
    if count <= 0 then {} else {start} + Range(start + 1, count - 1)
  }

  /** All pages of the runs. */
  ghost function Covered(runs: seq<Run>): set<int> {
    if runs == [] then {} else Range(runs[0].start, runs[0].count) + Covered(runs[1..])
  }

  lemma {:induction false} CoveredAppend(a: seq<Run>, b: seq<Run>)
    ensures Covered(a + b) == Covered(a) + Covered(b)
  {
    if a == [] {
      assert a + b == b;
    } else {
      CoveredAppend(a[1..], b);
      assert (a + b)[1..] == a[1..] + b;
    }
  }

  /** The runs with those from `i` up to `j` replaced by `mid`. */
  function Spliced(runs: seq<Run>, i: int, j: int, mid: seq<Run>): (r: seq<Run>)
    requires 0 <= i <= j <= |runs|
    ensures |r| == |runs| - (j - i) + |mid|
  {
    runs[..i] + mid + runs[j..]
  }

  lemma SplicedAt(runs: seq<Run>, i: int, j: int, mid: seq<Run>, k: int)
    requires 0 <= i <= j <= |runs| && 0 <= k < |runs| - (j - i) + |mid|
    ensures Spliced(runs, i, j, mid)[k] == if k < i then runs[k] else if k < i + |mid| then mid[k - i] else runs[k - |mid| + (j - i)]
  {
  }

  lemma SplicedCovers(runs: seq<Run>, i: int, j: int, mid: seq<Run>)
    requires 0 <= i <= j <= |runs|
    ensures Covered(Spliced(runs, i, j, mid)) == Covered(runs[..i]) + Covered(mid) + Covered(runs[j..])
    ensures Covered(runs) == Covered(runs[..i]) + Covered(runs[i..j]) + Covered(runs[j..])
  {
    CoveredAppend(runs[..i] + mid, runs[j..]);
    CoveredAppend(runs[..i], mid);
    CoveredAppend(runs[..i] + runs[i..j], runs[j..]);
    CoveredAppend(runs[..i], runs[i..j]);
    assert runs == runs[..i] + runs[i..j] + runs[j..];
  }

  lemma CoveredOne(r: Run)
    ensures Covered([r]) == Range(r.start, r.count)
  {
    assert [r][1..] == [];
  }

  lemma CoveredTwo(a: Run, b: Run)
    ensures Covered([a, b]) == Range(a.start, a.count) + Range(b.start, b.count)
  {
    CoveredOne(a);
    CoveredOne(b);
    CoveredAppend([a], [b]);
    assert [a, b] == [a] + [b];
  }

  lemma {:induction false} CoveredWithin(runs: seq<Run>, lo: int, hi: int)
    requires forall i :: 0 <= i < |runs| ==> lo <= runs[i].start && runs[i].End() <= hi
    ensures forall p :: p in Covered(runs) ==> lo <= p < hi
  {
    if runs != [] {
      assert lo <= runs[0].start && runs[0].End() <= hi;
      CoveredWithin(runs[1..], lo, hi);
    }
  }

  lemma {:induction false} Covers(runs: seq<Run>, i: int, p: int)
    requires 0 <= i < |runs| && runs[i].start <= p < runs[i].End()
    ensures p in Covered(runs)
  {
    if i > 0 {
      Covers(runs[1..], i - 1, p);
    }
  }

  /** Replacing runs by one that fits between the neighbours, or by none. */
  lemma SplicedOrdered(runs: seq<Run>, i: int, j: int, mid: seq<Run>, total: int)
    requires Ordered(runs, total) && 0 <= i <= j <= |runs| && |mid| <= 1 && Ordered(mid, total)
    requires mid != [] && i > 0 ==> runs[i - 1].End() < mid[0].start
    requires mid != [] && j < |runs| ==> mid[0].End() < runs[j].start
    ensures Ordered(Spliced(runs, i, j, mid), total)
  {
    hide Spliced;
    var r := Spliced(runs, i, j, mid);
    forall k | 0 <= k < |r|
      ensures 0 <= r[k].start && r[k].count > 0 && r[k].End() <= total
    {
      SplicedAt(runs, i, j, mid, k);
    }
    forall k, l | 0 <= k < l < |r|
      ensures r[k].End() < r[l].start
    {
      SplicedAt(runs, i, j, mid, k);
      SplicedAt(runs, i, j, mid, l);
    }
  }

  /** Relinking: the run before points to the first of the new ones, which points past those replaced. */
  lemma SplicedLinked(runs: seq<Run>, i: int, j: int, mid: seq<Run>, next: seq<int>, pages: seq<int>, head: int,
                      next1: seq<int>, pages1: seq<int>, head1: int, total: int)
    requires Ordered(runs, total) && Linked(next, pages, head, runs) && 0 <= i <= j <= |runs| && |mid| <= 1
    requires |next1| == |pages1| == |next| == |pages|
    requires var v := if mid == [] then First(runs[j..]) else mid[0].start;
             if i == 0 then head1 == v
             else head1 == head && 0 <= runs[i - 1].start < |next1| && next1[runs[i - 1].start] == v
                  && pages1[runs[i - 1].start] == runs[i - 1].count
    requires mid != [] ==> 0 <= mid[0].start < |next1| && next1[mid[0].start] == First(runs[j..]) && pages1[mid[0].start] == mid[0].count
    requires forall k :: (0 <= k < i - 1 || j <= k < |runs|) && 0 <= runs[k].start < |next| ==>
      next1[runs[k].start] == next[runs[k].start] && pages1[runs[k].start] == pages[runs[k].start]
    ensures Linked(next1, pages1, head1, Spliced(runs, i, j, mid))
  {
    var r := Spliced(runs, i, j, mid);
    assert r[i + |mid|..] == runs[j..];
    forall k | 0 <= k < |r|
      ensures NodeAt(next1, pages1, r, k)
    {
      SplicedNode(runs, i, j, mid, k);
      SplicedAt(runs, i, j, mid, k);
      if k < i {
        assert NodeAt(next, pages, runs, k);
      } else if k >= i + |mid| {
        assert NodeAt(next, pages, runs, k - |mid| + (j - i));
      }
    }
  }

  lemma SplicedNode(runs: seq<Run>, i: int, j: int, mid: seq<Run>, k: int)
    requires 0 <= i <= j <= |runs| && |mid| <= 1 && 0 <= k < |runs| - (j - i) + |mid|
    ensures First(Spliced(runs, i, j, mid)[k + 1..]) ==
      if k < i - 1 then First(runs[k + 1..])
      else if k == i - 1 then (if mid == [] then First(runs[j..]) else mid[0].start)
      else if k < i + |mid| then First(runs[j..])
      else First(runs[k - |mid| + (j - i) + 1..])
  {
    hide Spliced;
    var r := Spliced(runs, i, j, mid);
    if k + 1 < |r| {
      SplicedAt(runs, i, j, mid, k + 1);
    }
  }

  // ----- the object -----

  class Pages {
    const total: int
    var next: seq<int>
    var pages: seq<int>
    var head: int

    ghost var runs: seq<Run>
    ghost var out: set<int> // the pages handed out

    ghost predicate ListOk()
      reads this
    {
      && total >= 0 && |next| == |pages| == total
      && Ordered(runs, total) && Linked(next, pages, head, runs)
    }

    /** The pages listed and those handed out are together exactly those of the heap. */
    ghost predicate Valid()
      reads this
    {
      ListOk() && Free() !! out && Free() + out == Range(0, total)
    }

    /** The pages listed. */
    ghost function Free(): set<int>
      reads this
    {
      Covered(runs)
    }

    /** rt_page_init */
    constructor (total: int)
      requires total > 0
      ensures Valid() && this.total == total && Free() == Range(0, total) && out == {}
    {
      this.total := total;
      next, pages, head := seq(total, _ => NULL), seq(total, _ => 0), NULL;
      runs, out := [], Range(0, total);
      new;
      assert Free() == {};
      Release(0, total);
    }

    /** `*prev = v`, where prev is the head of the list (NULL) or the link of a run. */
    method SetLink(prev: int, v: int)
      requires prev == NULL || 0 <= prev < |next|
      modifies this`head, this`next
      ensures head == if prev == NULL then v else old(head)
      ensures next == if prev == NULL then old(next) else old(next)[prev := v]
    {
      if prev == NULL {
        head := v;
      } else {
        next := next[prev := v];
      }
    }

    /**
     rt_page_alloc: the first run that is long enough gives its first pages.  It fails only if there
     is none; the pages handed out were free, and only they are taken from the free pages.
     */
    method Alloc(n: int) returns (b: int)
      requires Valid() && n >= 0
      modifies this`next, this`pages, this`head, this`runs, this`out
      ensures Valid()
      ensures b == NULL <==> n == 0 || forall i :: 0 <= i < |old(runs)| ==> old(runs)[i].count < n
      ensures b == NULL ==> unchanged(this)
      ensures b != NULL ==> 0 <= b && b + n <= total && Range(b, n) <= old(Free())
      ensures b != NULL ==> Free() == old(Free()) - Range(b, n) && out == old(out) + Range(b, n)
      ensures b != NULL ==> exists i :: 0 <= i < |old(runs)| && old(runs)[i].start == b && n <= old(runs)[i].count
                                        && forall k :: 0 <= k < i ==> old(runs)[k].count < n
    {
      hide Covered, Spliced;
      if n == 0 {
        return NULL;
      }
      var prev := NULL;
      b := head;
      ghost var i := 0;
      assert runs[0..] == runs;
      while b != NULL
        invariant unchanged(this)
        invariant 0 <= i <= |runs| && b == First(runs[i..])
        invariant prev == if i == 0 then NULL else runs[i - 1].start
        invariant forall k :: 0 <= k < i ==> runs[k].count < n
        decreases |runs| - i
      {
        assert NodeAt(next, pages, runs, i) && runs[i].start == b;
        if pages[b] >= n {
          TakeFrom(prev, b, n, i);
          out := out + Range(b, n);
          return;
        }
        prev := b;
        b := next[b];
        i := i + 1;
      }
    }

    /** Take the first `n` pages of run `i`. */
    method TakeFrom(prev: int, b: int, n: int, ghost i: int)
      requires ListOk() && 0 <= i < |runs| && runs[i].start == b && 0 < n <= runs[i].count
      requires prev == if i == 0 then NULL else runs[i - 1].start
      modifies this`next, this`pages, this`head, this`runs
      ensures ListOk() && 0 <= b && b + n <= total && Range(b, n) <= old(Free()) && Free() == old(Free()) - Range(b, n)
    {
      hide Covered, Spliced, Range;
      assert NodeAt(next, pages, runs, i) && (i > 0 ==> NodeAt(next, pages, runs, i - 1));
      ghost var mid := if pages[b] > n then [Run(b + n, pages[b] - n)] else [];
      TakeCovers(runs, i, n, mid, total);
      SplicedOrdered(runs, i, i + 1, mid, total);
      ghost var next0, pages0, head0, runs0 := next, pages, head, runs;
      if pages[b] > n {
        var rest := b + n;
        next := next[rest := next[b]];
        pages := pages[rest := pages[b] - n];
        SetLink(prev, rest);
      } else {
        SetLink(prev, next[b]);
      }
      runs := Spliced(runs, i, i + 1, mid);
      TakeLinked(runs0, i, n, mid, next0, pages0, head0, next, pages, head, total);
    }

    /** rt_page_free: pages in use become free, and join the free runs beside them. */
    method Release(addr: int, n: int)
      requires Valid() && n > 0 && Range(addr, n) <= out
      modifies this`next, this`pages, this`head, this`runs, this`out
      ensures Valid() && Free() == old(Free()) + Range(addr, n) && out == old(out) - Range(addr, n)
    {
      assert addr in Range(addr, n) && addr + n - 1 in Range(addr, n);
      ReleaseList(addr, n);
      out := out - Range(addr, n);
    }

    method ReleaseList(addr: int, n: int)
      requires ListOk() && 0 <= addr && n > 0 && addr + n <= total && Range(addr, n) !! Free()
      modifies this`next, this`pages, this`head, this`runs
      ensures ListOk() && Free() == old(Free()) + Range(addr, n)
    {
      hide Covered, Spliced;
      var prev := NULL;
      var b := head;
      ghost var i := 0;
      assert runs[0..] == runs;
      while b != NULL
        invariant unchanged(this)
        invariant 0 <= i <= |runs| && b == First(runs[i..])
        invariant prev == if i == 0 then NULL else runs[i - 1].start
        invariant i > 0 ==> runs[i - 1].End() < addr
        decreases |runs| - i
      {
        assert NodeAt(next, pages, runs, i) && runs[i].start == b;
        ApartFrom(runs, i, addr, n, total);
        if b + pages[b] == addr {
          if i + 1 < |runs| {
            ApartFrom(runs, i + 1, addr, n, total);
          }
          JoinBehind(b, n, i);
          return;
        }
        if b == addr + n {
          Insert(prev, addr, pages[b] + n, next[b], n, i, i + 1);
          return;
        }
        if b > addr + n {
          break;
        }
        prev := b;
        b := next[b];
        i := i + 1;
      }
      assert i < |runs| ==> runs[i].start == b;
      Insert(prev, addr, n, b, n, i, i);
    }

    /** The run at `b` grows by the `n` pages behind it, and swallows the next run if that follows at once. */
    method JoinBehind(b: int, n: int, ghost i: int)
      requires ListOk() && 0 <= i < |runs| && runs[i].start == b && n > 0
      requires runs[i].End() + n <= total && (i + 1 < |runs| ==> runs[i].End() + n <= runs[i + 1].start)
      modifies this`next, this`pages, this`runs
      ensures ListOk() && Free() == old(Free()) + old(Range(runs[i].End(), n))
    {
      hide Covered, Spliced;
      ghost var next0, pages0, runs0 := next, pages, runs;
      assert NodeAt(next, pages, runs, i);
      assert i > 0 ==> NodeAt(next, pages, runs, i - 1);
      pages := pages[b := pages[b] + n];
      ghost var j := i + 1;
      if b + pages[b] == next[b] {
        assert NodeAt(next0, pages0, runs, i + 1);
        pages := pages[b := pages[b] + pages[next[b]]];
        next := next[b := next[next[b]]];
        j := i + 2;
      }
      ghost var mid := [Run(b, pages[b])];
      JoinCovers(runs, i, j, n, mid);
      SplicedOrdered(runs, i, j, mid, total);
      runs := Spliced(runs, i, j, mid);
      SplicedLinked(runs0, i, j, mid, next0, pages0, head, next, pages, head, total);
    }

    /** A new run of `count` pages at `addr` takes the place of the runs from `i` up to `j`, with the link `after`. */
    method Insert(prev: int, addr: int, count: int, after: int, ghost n: int, ghost i: int, ghost j: int)
      requires ListOk() && 0 <= i <= j <= |runs| && j <= i + 1 && addr >= 0 && n > 0 && addr + n <= total
      requires prev == (if i == 0 then NULL else runs[i - 1].start) && after == First(runs[j..])
      requires i > 0 ==> runs[i - 1].End() < addr
      requires if j == i then count == n else runs[i].start == addr + n && count == runs[i].count + n
      requires j == i && j < |runs| ==> addr + n < runs[j].start
      modifies this`next, this`pages, this`head, this`runs
      ensures ListOk() && Free() == old(Free()) + Range(addr, n)
    {
      hide Covered, Spliced;
      ghost var next0, pages0, head0, runs0 := next, pages, head, runs;
      ghost var mid := [Run(addr, count)];
      assert i > 0 ==> NodeAt(next, pages, runs, i - 1);
      InsertCovers(runs, i, j, addr, n, mid, total);
      SplicedOrdered(runs, i, j, mid, total);
      pages := pages[addr := count];
      next := next[addr := after];
      SetLink(prev, addr);
      runs := Spliced(runs, i, j, mid);
      SplicedLinked(runs0, i, j, mid, next0, pages0, head0, next, pages, head, total);
    }
  }

  /** The runs before and behind run `i` leave its pages alone. */
  lemma Around(runs: seq<Run>, i: int, j: int, total: int)
    requires Ordered(runs, total) && 0 <= i <= j <= |runs|
    ensures i > 0 ==> forall p :: p in Covered(runs[..i]) ==> p < runs[i - 1].End()
    ensures i == 0 ==> Covered(runs[..i]) == {}
    ensures j < |runs| ==> forall p :: p in Covered(runs[j..]) ==> p >= runs[j].start
    ensures j == |runs| ==> Covered(runs[j..]) == {}
  {
    if i > 0 {
      forall k | 0 <= k < i
        ensures runs[k].End() <= runs[i - 1].End()
      {
        assert k < i - 1 ==> runs[k].End() < runs[i - 1].start;
      }
      CoveredWithin(runs[..i], 0, runs[i - 1].End());
    }
    if j < |runs| {
      forall k | j <= k < |runs|
        ensures runs[k].start >= runs[j].start
      {
        assert k > j ==> runs[j].End() < runs[k].start;
      }
      CoveredWithin(runs[j..], runs[j].start, total);
    }
  }

  /** Taking pages from the front of run `i`. */
  lemma TakeCovers(runs: seq<Run>, i: int, n: int, mid: seq<Run>, total: int)
    requires Ordered(runs, total) && 0 <= i < |runs| && 0 < n <= runs[i].count
    requires mid == if runs[i].count > n then [Run(runs[i].start + n, runs[i].count - n)] else []
    ensures Ordered(mid, total)
    ensures mid != [] && i > 0 ==> runs[i - 1].End() < mid[0].start
    ensures mid != [] && i + 1 < |runs| ==> mid[0].End() < runs[i + 1].start
    ensures Range(runs[i].start, n) <= Covered(runs)
    ensures Covered(Spliced(runs, i, i + 1, mid)) == Covered(runs) - Range(runs[i].start, n)
  {
    hide Covered, Spliced, Range;
    SplicedCovers(runs, i, i + 1, mid);
    Around(runs, i, i + 1, total);
    assert runs[i..i + 1] == [runs[i]];
    CoveredOne(runs[i]);
    if mid == [] {
      CoveredNone();
    } else {
      CoveredOne(mid[0]);
      assert mid == [mid[0]];
    }
    assert i > 0 ==> runs[i - 1].End() < runs[i].start;
    assert i + 1 < |runs| ==> runs[i].End() < runs[i + 1].start;
  }

  lemma TakeLinked(runs: seq<Run>, i: int, n: int, mid: seq<Run>, next: seq<int>, pages: seq<int>, head: int,
                   next1: seq<int>, pages1: seq<int>, head1: int, total: int)
    requires Ordered(runs, total) && Linked(next, pages, head, runs) && 0 <= i < |runs| && 0 < n <= runs[i].count
    requires |next| == |pages| == total && Ordered(mid, total)
    requires mid == if runs[i].count > n then [Run(runs[i].start + n, runs[i].count - n)] else []
    requires 0 <= runs[i].start < total && (i > 0 ==> 0 <= runs[i - 1].start < total)
    requires var rest := runs[i].start + n;
             var v := if mid == [] then First(runs[i + 1..]) else rest;
             var next2 := if mid == [] || rest >= total then next else next[rest := First(runs[i + 1..])];
             && pages1 == (if mid == [] || rest >= total then pages else pages[rest := runs[i].count - n])
             && next1 == (if i == 0 then next2 else next2[runs[i - 1].start := v]) && head1 == if i == 0 then v else head
    ensures Linked(next1, pages1, head1, Spliced(runs, i, i + 1, mid))
  {
    hide Spliced;
    assert i > 0 ==> NodeAt(next, pages, runs, i - 1);
    assert mid != [] ==> mid[0].start < total;
    SplicedLinked(runs, i, i + 1, mid, next, pages, head, next1, pages1, head1, total);
  }

  lemma CoveredNone()
    ensures Covered([]) == {}
  {
  }

  /** Pages in use are on one side of a free run. */
  lemma ApartFrom(runs: seq<Run>, i: int, addr: int, n: int, total: int)
    requires Ordered(runs, total) && 0 <= i < |runs| && n > 0 && Range(addr, n) !! Covered(runs)
    ensures runs[i].End() <= addr || addr + n <= runs[i].start
  {
    hide Covered, Range;
    var p := if runs[i].start < addr then addr else runs[i].start;
    if runs[i].End() > addr && addr + n > runs[i].start {
      Covers(runs, i, p);
    }
  }

  lemma JoinCovers(runs: seq<Run>, i: int, j: int, n: int, mid: seq<Run>)
    requires 0 <= i < j <= |runs| && j <= i + 2 && n > 0
    requires forall k :: 0 <= k < |runs| ==> runs[k].count > 0
    requires if j == i + 1 then mid == [Run(runs[i].start, runs[i].count + n)]
             else runs[i].End() + n == runs[i + 1].start && mid == [Run(runs[i].start, runs[i].count + n + runs[i + 1].count)]
    ensures Covered(Spliced(runs, i, j, mid)) == Covered(runs) + Range(runs[i].End(), n)
  {
    hide Covered, Spliced, Range;
    SplicedCovers(runs, i, j, mid);
    CoveredOne(mid[0]);
    if j == i + 1 {
      assert runs[i..j] == [runs[i]];
      CoveredOne(runs[i]);
    } else {
      assert runs[i..j] == [runs[i], runs[i + 1]];
      CoveredTwo(runs[i], runs[i + 1]);
    }
    assert Covered(mid) == Covered(runs[i..j]) + Range(runs[i].End(), n);
  }

  lemma InsertCovers(runs: seq<Run>, i: int, j: int, addr: int, n: int, mid: seq<Run>, total: int)
    requires Ordered(runs, total) && 0 <= i <= j <= |runs| && j <= i + 1 && n > 0 && addr >= 0 && addr + n <= total
    requires j == i ==> mid == [Run(addr, n)]
    requires j == i + 1 ==> runs[i].start == addr + n && mid == [Run(addr, runs[i].count + n)]
    requires j == i && j < |runs| ==> addr + n < runs[j].start
    ensures Ordered(mid, total) && (j < |runs| ==> mid[0].End() < runs[j].start)
    ensures Covered(Spliced(runs, i, j, mid)) == Covered(runs) + Range(addr, n)
  {
    hide Covered, Spliced, Range;
    SplicedCovers(runs, i, j, mid);
    CoveredOne(mid[0]);
    if j == i {
      assert runs[i..j] == [];
      CoveredNone();
    } else {
      assert runs[i..j] == [runs[i]];
      CoveredOne(runs[i]);
    }
    assert Covered(mid) == Covered(runs[i..j]) + Range(addr, n);
  }
}
