/**
 The heap seen as a sequence of segments: the payload sizes of its blocks in address order and
 whether each is in use.  Sizes are counted in words of four bytes.

 The functions give the layout after each heap operation; the lemmas say what they keep: the words
 of the pool are conserved, free segments are never adjacent, and how many free words come and go.
 */
module HeapLayout {
  import opened Ring

  /** The smallest payload a split may leave behind. */
  const MIN_WORDS: int := 3

  datatype Seg = Seg(size: int, used: bool)

  ghost predicate Coalesced(s: seq<Seg>) {
    forall i, j :: 0 <= i && j == i + 1 && j < |s| ==> s[i].used || s[j].used
  }

  /** The words in free payloads. */
  function FreeWords(s: seq<Seg>): int {
    if s == [] then 0 else (if s[0].used then 0 else s[0].size) + FreeWords(s[1..])
  }

  /** All words, one header per segment included. */
  function AllWords(s: seq<Seg>): int {
    if s == [] then 0 else HEADER_WORDS + s[0].size + AllWords(s[1..])
  }

  function Replace(s: seq<Seg>, i: int, n: int, t: seq<Seg>): (r: seq<Seg>)
    requires 0 <= i && 0 <= n && i + n <= |s|
    ensures |r| == |s| - n + |t|
  {
    s[..i] + t + s[i + n..]
  }

  /** A block is split when the rest can hold a header and a smallest payload. */
  predicate Splits(size: int, want: int) {
    size >= want + HEADER_WORDS + MIN_WORDS
  }

  function AfterAlloc(s: seq<Seg>, i: int, want: int): seq<Seg>
    requires 0 <= i < |s|
  {
    if Splits(s[i].size, want)
    then Replace(s, i, 1, [Seg(want, true), Seg(s[i].size - want - HEADER_WORDS, false)])
    else Replace(s, i, 1, [Seg(s[i].size, true)])
  }

  predicate FreeAt(s: seq<Seg>, i: int) {
    0 <= i < |s| && !s[i].used
  }

  /** Freeing segment `i` joins it with whichever neighbours are free. */
  function AfterFree(s: seq<Seg>, i: int): seq<Seg>
    requires 0 <= i < |s|
  {
    var lo := if FreeAt(s, i - 1) then i - 1 else i;
    var hi := if FreeAt(s, i + 1) then i + 2 else i + 1;
    Replace(s, lo, hi - lo, [Seg(AllWords(s[lo..hi]) - HEADER_WORDS, false)])
  }

  /** Segment `i` becomes `want` words long; the rest, with a free segment behind it, is free. */
  function AfterResize(s: seq<Seg>, i: int, want: int): seq<Seg>
    requires 0 <= i < |s|
  {
    var hi := if FreeAt(s, i + 1) then i + 2 else i + 1;
    Replace(s, i, hi - i, [Seg(want, true), Seg(AllWords(s[i..hi]) - 2 * HEADER_WORDS - want, false)])
  }

  // ----- what the operations keep -----

  lemma {:induction false} FreeWordsAppend(s: seq<Seg>, t: seq<Seg>)
    ensures FreeWords(s + t) == FreeWords(s) + FreeWords(t)
  {
    if s == [] {
      assert s + t == t;
    } else {
      FreeWordsAppend(s[1..], t);
      assert (s + t)[1..] == s[1..] + t;
    }
  }

  lemma {:induction false} AllWordsAppend(s: seq<Seg>, t: seq<Seg>)
    ensures AllWords(s + t) == AllWords(s) + AllWords(t)
  {
    if s == [] {
      assert s + t == t;
    } else {
      AllWordsAppend(s[1..], t);
      assert (s + t)[1..] == s[1..] + t;
    }
  }

  lemma ReplaceWords(s: seq<Seg>, i: int, n: int, t: seq<Seg>)
    requires 0 <= i && 0 <= n && i + n <= |s|
    ensures FreeWords(Replace(s, i, n, t)) == FreeWords(s) - FreeWords(s[i..i + n]) + FreeWords(t)
    ensures AllWords(Replace(s, i, n, t)) == AllWords(s) - AllWords(s[i..i + n]) + AllWords(t)
  {
    var a, b, c := s[..i], s[i..i + n], s[i + n..];
    assert s == a + b + c;
    FreeWordsAppend(a + b, c);
    FreeWordsAppend(a, b);
    FreeWordsAppend(a + t, c);
    FreeWordsAppend(a, t);
    AllWordsAppend(a + b, c);
    AllWordsAppend(a, b);
    AllWordsAppend(a + t, c);
    AllWordsAppend(a, t);
  }

  lemma ReplaceCoalesced(s: seq<Seg>, i: int, n: int, t: seq<Seg>)
    requires 0 <= i && 0 <= n && i + n <= |s| && t != []
    requires Coalesced(s) && Coalesced(t)
    requires i > 0 ==> s[i - 1].used || t[0].used
    requires i + n < |s| ==> t[|t| - 1].used || s[i + n].used
    ensures Coalesced(Replace(s, i, n, t))
  {
    var r := Replace(s, i, n, t);
    forall j | 0 <= j < |r| - 1
      ensures r[j].used || r[j + 1].used
    {
      if j >= i + |t| {
        var d := j - |t| + n;
        assert r[j] == s[d] && r[j + 1] == s[d + 1];
      } else if j >= i {
        assert r[j] == t[j - i];
        assert j + 1 < i + |t| ==> r[j + 1] == t[j - i + 1];
      } else {
        assert r[j] == s[j];
        assert j + 1 < i ==> r[j + 1] == s[j + 1];
      }
    }
  }

  lemma ShortCoalesced(a: Seg, b: Seg)
    ensures Coalesced([a])
    ensures a.used || b.used ==> Coalesced([a, b])
  {
  }

  lemma UsedBeside(s: seq<Seg>, i: int)
    requires Coalesced(s) && FreeAt(s, i)
    ensures i > 0 ==> s[i - 1].used
    ensures i + 1 < |s| ==> s[i + 1].used
  {
  }

  lemma OneWords(a: Seg)
    ensures FreeWords([a]) == (if a.used then 0 else a.size)
    ensures AllWords([a]) == HEADER_WORDS + a.size
  {
    assert FreeWords([a][1..]) == 0 && AllWords([a][1..]) == 0;
  }

  lemma TwoWords(a: Seg, b: Seg)
    ensures FreeWords([a, b]) == (if a.used then 0 else a.size) + (if b.used then 0 else b.size)
    ensures AllWords([a, b]) == 2 * HEADER_WORDS + a.size + b.size
  {
    OneWords(a);
    OneWords(b);
    FreeWordsAppend([a], [b]);
    AllWordsAppend([a], [b]);
  }

  lemma ThreeWords(a: Seg, b: Seg, c: Seg)
    ensures FreeWords([a, b, c])
         == (if a.used then 0 else a.size) + (if b.used then 0 else b.size) + (if c.used then 0 else c.size)
    ensures AllWords([a, b, c]) == 3 * HEADER_WORDS + a.size + b.size + c.size
  {
    OneWords(a);
    TwoWords(b, c);
    FreeWordsAppend([a], [b, c]);
    AllWordsAppend([a], [b, c]);
    assert [a] + [b, c] == [a, b, c];
  }

  /** Allocation takes its payload, and a header when it splits, out of the free words. */
  lemma AllocKeeps(s: seq<Seg>, i: int, want: int)
    requires Coalesced(s) && 0 <= i < |s| && !s[i].used
    ensures Coalesced(AfterAlloc(s, i, want))
    ensures AllWords(AfterAlloc(s, i, want)) == AllWords(s)
    ensures FreeWords(AfterAlloc(s, i, want))
         == FreeWords(s) - (if Splits(s[i].size, want) then want + HEADER_WORDS else s[i].size)
  {
    hide FreeWords, AllWords, Replace, Coalesced;
    var t := if Splits(s[i].size, want)
             then [Seg(want, true), Seg(s[i].size - want - HEADER_WORDS, false)]
             else [Seg(s[i].size, true)];
    UsedBeside(s, i);
    ShortCoalesced(t[0], if |t| == 2 then t[1] else t[0]);
    assert t == if |t| == 2 then [t[0], t[1]] else [t[0]];
    ReplaceWords(s, i, 1, t);
    ReplaceCoalesced(s, i, 1, t);
    assert s[i..i + 1] == [s[i]];
    OneWords(s[i]);
    OneWords(t[0]);
    if |t| == 2 {
      TwoWords(t[0], t[1]);
    }
  }

  /** The words of the segments that freeing segment `i` joins; only segment `i` was in use. */
  lemma JoinedWords(s: seq<Seg>, i: int, lo: int, hi: int)
    requires 0 <= i < |s| && s[i].used
    requires lo == (if FreeAt(s, i - 1) then i - 1 else i) && hi == (if FreeAt(s, i + 1) then i + 2 else i + 1)
    ensures AllWords(s[lo..hi]) - HEADER_WORDS - FreeWords(s[lo..hi])
         == s[i].size + (if lo < i then HEADER_WORDS else 0) + (if i + 1 < hi then HEADER_WORDS else 0)
  {
    hide FreeWords, AllWords;
    if hi - lo == 1 {
      assert s[lo..hi] == [s[i]];
      OneWords(s[i]);
    } else if hi - lo == 2 {
      assert s[lo..hi] == [s[lo], s[lo + 1]];
      TwoWords(s[lo], s[lo + 1]);
    } else {
      assert s[lo..hi] == [s[lo], s[lo + 1], s[lo + 2]];
      ThreeWords(s[lo], s[lo + 1], s[lo + 2]);
    }
  }

  /** Freeing gives back the payload and one header for each neighbour it joins. */
  lemma FreeKeeps(s: seq<Seg>, i: int)
    requires Coalesced(s) && 0 <= i < |s| && s[i].used
    ensures Coalesced(AfterFree(s, i))
    ensures AllWords(AfterFree(s, i)) == AllWords(s)
    ensures FreeWords(AfterFree(s, i))
         == FreeWords(s) + s[i].size
          + (if FreeAt(s, i - 1) then HEADER_WORDS else 0) + (if FreeAt(s, i + 1) then HEADER_WORDS else 0)
  {
    hide FreeWords, AllWords, Replace, Coalesced;
    var lo := if FreeAt(s, i - 1) then i - 1 else i;
    var hi := if FreeAt(s, i + 1) then i + 2 else i + 1;
    JoinedWords(s, i, lo, hi);
    var a := Seg(AllWords(s[lo..hi]) - HEADER_WORDS, false);
    OneWords(a);
    ShortCoalesced(a, a);
    if lo < i {
      UsedBeside(s, lo);
    }
    if i + 1 < hi {
      UsedBeside(s, i + 1);
    }
    ReplaceWords(s, lo, hi - lo, [a]);
    ReplaceCoalesced(s, lo, hi - lo, [a]);
  }

  /**
   Resizing in place moves words between the segment and the free segment behind it: growing takes
   them out, shrinking puts them in, less one header when there is no free segment to join.
   */
  lemma ResizeKeeps(s: seq<Seg>, i: int, want: int)
    requires Coalesced(s) && 0 <= i < |s| && s[i].used
    ensures Coalesced(AfterResize(s, i, want))
    ensures AllWords(AfterResize(s, i, want)) == AllWords(s)
    ensures FreeWords(AfterResize(s, i, want))
         == FreeWords(s) + s[i].size - want - (if FreeAt(s, i + 1) then 0 else HEADER_WORDS)
  {
    hide FreeWords, AllWords, Replace, Coalesced;
    var hi := if FreeAt(s, i + 1) then i + 2 else i + 1;
    var cut := s[i..hi];
    if hi == i + 1 {
      assert cut == [s[i]];
      OneWords(s[i]);
    } else {
      assert cut == [s[i], s[i + 1]];
      TwoWords(s[i], s[i + 1]);
    }
    var a, b := Seg(want, true), Seg(AllWords(cut) - 2 * HEADER_WORDS - want, false);
    ShortCoalesced(a, b);
    if hi > i + 1 {
      UsedBeside(s, i + 1);
    }
    ReplaceWords(s, i, hi - i, [a, b]);
    ReplaceCoalesced(s, i, hi - i, [a, b]);
    TwoWords(a, b);
  }

  // ----- whole runs -----

  /** What one call does to the layout. */
  datatype Step = Take(i: int, want: int) | Give(i: int) | Resize(i: int, want: int)

  /** A smallest payload is left on either side of a cut, as the callers of the steps see to. */
  predicate Enabled(s: seq<Seg>, step: Step) {
    && 0 <= step.i < |s| && (step.Take? <==> !s[step.i].used)
    && match step
       case Take(i, want) => MIN_WORDS <= want <= s[i].size
       case Give(i) => true
       case Resize(i, want) =>
         MIN_WORDS <= want && want + MIN_WORDS <= s[i].size + if FreeAt(s, i + 1) then s[i + 1].size else -HEADER_WORDS
  }

  /** No payload is smaller than the smallest. */
  ghost predicate Roomy(s: seq<Seg>) {
    forall i :: 0 <= i < |s| ==> s[i].size >= MIN_WORDS
  }

  lemma ReplaceRoomy(s: seq<Seg>, i: int, n: int, t: seq<Seg>)
    requires 0 <= i && 0 <= n && i + n <= |s| && Roomy(s) && Roomy(t)
    ensures Roomy(Replace(s, i, n, t))
  {
  }

  lemma StepRoomy(s: seq<Seg>, step: Step)
    requires Roomy(s) && Enabled(s, step)
    ensures Roomy(Apply(s, step))
  {
    hide AllWords, Replace;
    match step
    case Take(i, want) =>
      var t := if Splits(s[i].size, want)
               then [Seg(want, true), Seg(s[i].size - want - HEADER_WORDS, false)]
               else [Seg(s[i].size, true)];
      assert Apply(s, step) == Replace(s, i, 1, t);
      ReplaceRoomy(s, i, 1, t);
    case Give(i) =>
      var lo := if FreeAt(s, i - 1) then i - 1 else i;
      var hi := if FreeAt(s, i + 1) then i + 2 else i + 1;
      JoinedWords(s, i, lo, hi);
      assert Roomy(s[lo..hi]);
      FreeWordsRoomy(s[lo..hi]);
      hide FreeWords, FreeAt;
      assert s[i].size >= MIN_WORDS;
      assert Roomy([Seg(AllWords(s[lo..hi]) - HEADER_WORDS, false)]);
      ReplaceRoomy(s, lo, hi - lo, [Seg(AllWords(s[lo..hi]) - HEADER_WORDS, false)]);
    case Resize(i, want) =>
      var hi := if FreeAt(s, i + 1) then i + 2 else i + 1;
      CutWords(s, i, hi);
      ReplaceRoomy(s, i, hi - i, [Seg(want, true), Seg(AllWords(s[i..hi]) - 2 * HEADER_WORDS - want, false)]);
  }

  lemma {:induction false} FreeWordsRoomy(s: seq<Seg>)
    requires Roomy(s)
    ensures FreeWords(s) >= 0
  {
    if s != [] {
      FreeWordsRoomy(s[1..]);
    }
  }

  lemma CutWords(s: seq<Seg>, i: int, hi: int)
    requires 0 <= i < hi <= |s| && hi <= i + 2
    ensures AllWords(s[i..hi]) == HEADER_WORDS + s[i].size + if hi == i + 1 then 0 else HEADER_WORDS + s[i + 1].size
  {
    if hi == i + 1 {
      assert s[i..hi] == [s[i]];
      OneWords(s[i]);
    } else {
      assert s[i..hi] == [s[i], s[i + 1]];
      TwoWords(s[i], s[i + 1]);
    }
  }

  function Apply(s: seq<Seg>, step: Step): seq<Seg>
    requires Enabled(s, step)
  {
    match step
    case Take(i, want) => AfterAlloc(s, i, want)
    case Give(i) => AfterFree(s, i)
    case Resize(i, want) => AfterResize(s, i, want)
  }

  predicate EnabledRun(s: seq<Seg>, steps: seq<Step>)
    decreases |steps|
  {
    steps == [] || (Enabled(s, steps[0]) && EnabledRun(Apply(s, steps[0]), steps[1..]))
  }

  function Run(s: seq<Seg>, steps: seq<Step>): seq<Seg>
    requires EnabledRun(s, steps)
    decreases |steps|
  {
    if steps == [] then s else Run(Apply(s, steps[0]), steps[1..])
  }

  /** Over any run the words are conserved, no two free segments are adjacent, and no payload gets too small. */
  lemma {:induction false} RunKeeps(s: seq<Seg>, steps: seq<Step>)
    requires Coalesced(s) && Roomy(s) && EnabledRun(s, steps)
    ensures Coalesced(Run(s, steps)) && Roomy(Run(s, steps)) && AllWords(Run(s, steps)) == AllWords(s)
    decreases |steps|
  {
    hide Coalesced, Roomy, AllWords, AfterAlloc, AfterFree, AfterResize;
    if steps != [] {
      match steps[0] {
        case Take(i, want) => AllocKeeps(s, i, want);
        case Give(i) => FreeKeeps(s, i);
        case Resize(i, want) => ResizeKeeps(s, i, want);
      }
      StepRoomy(s, steps[0]);
      RunKeeps(Apply(s, steps[0]), steps[1..]);
    }
  }

  /** Once everything has been given back, a run ends in one free segment holding all the words. */
  lemma RunGivesBack(s: seq<Seg>, steps: seq<Step>)
    requires Coalesced(s) && Roomy(s) && EnabledRun(s, steps) && AllWords(s) > 0
    requires forall i :: 0 <= i < |Run(s, steps)| ==> !Run(s, steps)[i].used
    ensures Run(s, steps) == [Seg(AllWords(s) - HEADER_WORDS, false)]
  {
    RunKeeps(s, steps);
    var r := Run(s, steps);
    hide Run, EnabledRun;
    if |r| >= 2 {
      UsedBeside(r, 0);
    }
    assert r == [r[0]];
    OneWords(r[0]);
  }

  // ----- the test before the search -----

  lemma {:induction false} FreeWordsNat(s: seq<Seg>)
    requires forall i :: 0 <= i < |s| ==> s[i].size >= 0
    ensures FreeWords(s) >= 0
  {
    if s != [] {
      FreeWordsNat(s[1..]);
    }
  }

  lemma FreeWordsBut(s: seq<Seg>, i: int)
    requires 0 <= i < |s| && !s[i].used
    ensures FreeWords(s) == FreeWords(s[..i]) + s[i].size + FreeWords(s[i + 1..])
  {
    hide FreeWords;
    assert s == s[..i] + [s[i]] + s[i + 1..];
    FreeWordsAppend(s[..i] + [s[i]], s[i + 1..]);
    FreeWordsAppend(s[..i], [s[i]]);
    OneWords(s[i]);
  }

  /**
   A request is compared with the free words before any block is looked at, and must be smaller.
   A block that could hold it is passed over exactly when the request asks for every free word.
   */
  lemma StrictTest(s: seq<Seg>, i: int, want: int)
    requires forall j :: 0 <= j < |s| ==> s[j].size >= 0
    requires 0 <= i < |s| && !s[i].used && s[i].size >= want
    ensures !(want < FreeWords(s)) <==> want == FreeWords(s) == s[i].size
  {
    FreeWordsBut(s, i);
    FreeWordsNat(s[..i]);
    FreeWordsNat(s[i + 1..]);
  }
}
