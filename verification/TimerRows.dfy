/**
 The rows of the timer skip list as sequences of timers, ordered by deadline.

 A deadline is the tick at which a timer is due, counted from start-up without wrapping around; the
 kernel only stores its lower 32 bits.
 */
module TimerRows {
  import opened Lists

  const TWO32: int := 0x1_0000_0000

  /** Half of the largest tick value: differences below it count as lying ahead. */
  const HALF: int := 0x7fff_ffff

  function Wrap(x: int): int {
    x % TWO32
  }

  /** The 32-bit difference of two ticks. */
  function Ahead(a: int, b: int): int {
    Wrap(a - b)
  }

  /**
   Within the window the kernel keeps, comparing wrapped ticks is comparing deadlines: the
   difference is zero exactly when they are equal and below the half exactly when the first is later.
   */
  lemma WrapOrder(d: int, e: int)
    requires d - e < HALF && e - d <= TWO32 - HALF
    ensures Ahead(Wrap(d), Wrap(e)) == 0 <==> d == e
    ensures d != e ==> (Ahead(Wrap(d), Wrap(e)) < HALF <==> d > e)
  {
    var q, r := d / TWO32, e / TWO32;
    assert Wrap(d) - Wrap(e) == d - e - (q - r) * TWO32;
    WrapShift(d - e, -(q - r));
    assert Ahead(Wrap(d), Wrap(e)) == Wrap(d - e);
  }

  lemma WrapShift(x: int, k: int)
    ensures Wrap(x + k * TWO32) == Wrap(x)
  {
    var a, b := x / TWO32, (x + k * TWO32) / TWO32;
    assert x == a * TWO32 + Wrap(x);
    assert x + k * TWO32 == b * TWO32 + Wrap(x + k * TWO32);
    assert (a + k - b) * TWO32 == Wrap(x + k * TWO32) - Wrap(x);
  }

  lemma WrapSum(a: int, b: int)
    ensures Wrap(Wrap(a) + b) == Wrap(a + b)
  {
    WrapShift(a + b, -(a / TWO32));
  }

  ghost predicate Members(row: seq<int>, n: int) {
    forall i :: 0 <= i < |row| ==> 1 <= row[i] <= n
  }

  ghost predicate Sorted(row: seq<int>, due: seq<int>)
    requires Members(row, |due| - 1)
  {
    forall i, j :: 0 <= i < j < |row| ==> due[row[i]] <= due[row[j]]
  }

  /** How many timers a scan from the start of the row passes that are due by `d`. */
  function Place(row: seq<int>, due: seq<int>, d: int): (p: int)
    requires Members(row, |due| - 1)
    ensures 0 <= p <= |row|
  {
    if row == [] then 0 else
    assert 1 <= row[0] <= |due| - 1 && Members(row[1..], |due| - 1);
    if due[row[0]] > d then 0 else 1 + Place(row[1..], due, d)
  }

  lemma {:induction false} PlaceMeans(row: seq<int>, due: seq<int>, d: int)
    requires Members(row, |due| - 1)
    ensures var p := Place(row, due, d);
            && (forall i :: 0 <= i < p ==> due[row[i]] <= d)
            && (p < |row| ==> due[row[p]] > d)
            && (Sorted(row, due) ==> forall i :: p <= i < |row| ==> due[row[i]] > d)
  {
    var p := Place(row, due, d);
    if row != [] && due[row[0]] <= d {
      PlaceMeans(row[1..], due, d);
      forall i | 0 <= i < p
        ensures due[row[i]] <= d
      {
        assert i > 0 ==> row[i] == row[1..][i - 1];
      }
      assert p < |row| ==> row[p] == row[1..][p - 1];
    }
  }

  /** The row with timer `t` behind every timer due no later: a stable insertion. */
  function Ins(row: seq<int>, due: seq<int>, t: int): seq<int>
    requires Members(row, |due| - 1) && 1 <= t < |due|
  {
    Inserted(row, Place(row, due, due[t]), t)
  }

  lemma InsSplits(row: seq<int>, due: seq<int>, t: int) returns (a: seq<int>, b: seq<int>)
    requires Members(row, |due| - 1) && Sorted(row, due) && 1 <= t < |due|
    ensures row == a + b && Ins(row, due, t) == a + [t] + b
    ensures forall u :: u in a ==> u in row && 1 <= u < |due| && due[u] <= due[t]
    ensures forall u :: u in b ==> u in row && 1 <= u < |due| && due[u] > due[t]
  {
    PlaceMeans(row, due, due[t]);
    var p := Place(row, due, due[t]);
    a, b := row[..p], row[p..];
  }

  lemma DelMembers(row: seq<int>, t: int, n: int)
    requires Distinct(row) && Members(row, n)
    ensures Distinct(Del(row, t)) && Members(Del(row, t), n)
    ensures forall y :: y in Del(row, t) <==> y in row && y != t
  {
    hide Del;
    DelHas(row, t);
    forall j | 0 <= j < |Del(row, t)|
      ensures 1 <= Del(row, t)[j] <= n
    {
      assert Del(row, t)[j] in row;
    }
  }

  lemma InsMembers(row: seq<int>, due: seq<int>, t: int)
    requires Distinct(row) && Members(row, |due| - 1) && 1 <= t < |due| && t !in row
    ensures Distinct(Ins(row, due, t)) && Members(Ins(row, due, t), |due| - 1)
    ensures forall y :: y in Ins(row, due, t) <==> y in row || y == t
  {
    var p := Place(row, due, due[t]);
    InsertedMembers(row, p, t);
    hide Inserted, Place;
    forall j | 0 <= j < |Ins(row, due, t)|
      ensures 1 <= Ins(row, due, t)[j] <= |due| - 1
    {
      assert Ins(row, due, t)[j] in Ins(row, due, t);
    }
  }

  lemma DelSorted(row: seq<int>, due: seq<int>, t: int)
    requires Members(row, |due| - 1) && Distinct(row) && Sorted(row, due)
    ensures Members(Del(row, t), |due| - 1) && Sorted(Del(row, t), due)
  {
    DelMembers(row, t, |due| - 1);
    if t in row {
      var k :| 0 <= k < |row| && row[k] == t;
      DelIs(row, t, k);
      var s := Removed(row, k);
      hide Removed, Del, Distinct, Members;
      forall i, j | 0 <= i < j < |s|
        ensures due[s[i]] <= due[s[j]]
      {
        RemovedAt(row, k, i);
        RemovedAt(row, k, j);
      }
    } else {
      DelAbsent(row, t);
    }
  }

  lemma InsSorted(row: seq<int>, due: seq<int>, t: int)
    requires Members(row, |due| - 1) && Distinct(row) && Sorted(row, due) && 1 <= t < |due| && t !in row
    ensures Members(Ins(row, due, t), |due| - 1) && Sorted(Ins(row, due, t), due)
  {
    InsMembers(row, due, t);
    var p := Place(row, due, due[t]);
    PlaceMeans(row, due, due[t]);
    var s := Ins(row, due, t);
    forall i, j | 0 <= i < j < |s|
      ensures due[s[i]] <= due[s[j]]
    {
      InsertedAt(row, p, t, i);
      InsertedAt(row, p, t, j);
    }
  }

  /** A row only depends on the deadlines of its own timers. */
  lemma {:induction false} OtherDue(row: seq<int>, due: seq<int>, t: int, d: int, e: int)
    requires Members(row, |due| - 1) && 0 <= t < |due| && t !in row
    ensures Sorted(row, due) ==> Sorted(row, due[t := d])
    ensures Place(row, due[t := d], e) == Place(row, due, e)
  {
    assert forall i :: 0 <= i < |row| ==> row[i] in row;
    if row != [] {
      assert row[0] in row;
      OtherDue(row[1..], due, t, d, e);
    }
  }

  // ----- one row inside the row below -----

  /** `a` can be had from `b` by leaving entries out. */
  predicate IsSub(a: seq<int>, b: seq<int>) {
    a == [] || (b != [] && (if a[0] == b[0] then IsSub(a[1..], b[1..]) else IsSub(a, b[1..])))
  }

  lemma {:induction false} SubMember(a: seq<int>, b: seq<int>, x: int)
    requires IsSub(a, b) && x in a
    ensures x in b
  {
    if a[0] == b[0] {
      if x != a[0] {
        SubMember(a[1..], b[1..], x);
      }
    } else {
      SubMember(a, b[1..], x);
    }
  }

  /** Adding an entry in front of the longer row. */
  lemma {:induction false} SubLonger(a: seq<int>, b: seq<int>)
    requires b != [] && IsSub(a, b[1..])
    ensures IsSub(a, b)
    decreases |a| + |b|, 0
  {
    if a != [] && a[0] == b[0] {
      SubTail(a, b[1..]);
    }
  }

  lemma {:induction false} SubTail(a: seq<int>, b: seq<int>)
    requires IsSub(a, b) && a != []
    ensures IsSub(a[1..], b)
    decreases |a| + |b|, 1
  {
    if a[0] == b[0] {
      SubLonger(a[1..], b);
    } else {
      SubTail(a, b[1..]);
      SubLonger(a[1..], b);
    }
  }

  lemma {:induction false} SubRefl(a: seq<int>)
    ensures IsSub(a, a)
  {
    if a != [] {
      SubRefl(a[1..]);
    }
  }

  lemma {:induction false} SubDel(a: seq<int>, b: seq<int>, t: int)
    requires IsSub(a, b) && Distinct(a) && Distinct(b)
    ensures IsSub(Del(a, t), Del(b, t))
  {
    if a != [] {
      if a[0] == b[0] {
        SubDel(a[1..], b[1..], t);
      } else {
        SubDel(a, b[1..], t);
        if b[0] == t {
          DelAbsent(b[1..], t);
        } else {
          SubLonger(Del(a, t), Del(b, t));
        }
      }
    }
  }

  lemma {:induction false} SubInserted(a: seq<int>, b: seq<int>, i: int, t: int)
    requires IsSub(a, b) && 0 <= i <= |b|
    ensures IsSub(a, Inserted(b, i, t))
  {
    var c := Inserted(b, i, t);
    if i == 0 {
      assert c[1..] == b;
      SubLonger(a, c);
    } else {
      assert c[1..] == Inserted(b[1..], i - 1, t);
      if a != [] {
        SubInserted(if a[0] == b[0] then a[1..] else a, b[1..], i - 1, t);
      }
    }
  }

  lemma InsStep(row: seq<int>, due: seq<int>, t: int)
    requires Members(row, |due| - 1) && 1 <= t < |due|
    ensures row == [] || due[row[0]] > due[t] ==> Ins(row, due, t) == [t] + row
    ensures row != [] ==> Members(row[1..], |due| - 1)
    ensures row != [] && due[row[0]] <= due[t] ==> Ins(row, due, t) == [row[0]] + Ins(row[1..], due, t)
  {
  }

  /** Stable insertion into a row and the row below keeps one inside the other. */
  lemma {:induction false} SubIns(a: seq<int>, b: seq<int>, due: seq<int>, t: int)
    requires IsSub(a, b) && Members(a, |due| - 1) && Members(b, |due| - 1) && Sorted(b, due) && 1 <= t < |due|
    ensures IsSub(Ins(a, due, t), Ins(b, due, t))
    decreases |b|
  {
    InsStep(a, due, t);
    InsStep(b, due, t);
    hide Ins;
    if b != [] {
      if due[b[0]] > due[t] {
        if a != [] {
          SubMember(a, b, a[0]);
        }
      } else if a != [] && a[0] == b[0] {
        SubIns(a[1..], b[1..], due, t);
      } else {
        SubIns(a, b[1..], due, t);
        SubLonger(Ins(a, due, t), Ins(b, due, t));
      }
    }
  }

  // ----- all rows together -----

  ghost predicate RowsOk(rows: seq<seq<int>>, due: seq<int>) {
    && (forall l :: 0 <= l < |rows| ==> Members(rows[l], |due| - 1) && Distinct(rows[l]) && Sorted(rows[l], due))
    && (forall l, m :: 0 <= l < m < |rows| && m == l + 1 ==> IsSub(rows[l], rows[m]))
  }

  /** Every row without timer `t`. */
  ghost function DelRows(rows: seq<seq<int>>, t: int): (r: seq<seq<int>>)
    ensures |r| == |rows|
    ensures forall l :: 0 <= l < |rows| ==> r[l] == Del(rows[l], t)
  {
    seq(|rows|, l requires 0 <= l < |rows| => Del(rows[l], t))
  }

  /** The rows with timer `t` inserted into row `from` and those below it. */
  ghost function InsRows(rows: seq<seq<int>>, due: seq<int>, t: int, from: int): (r: seq<seq<int>>)
    requires 1 <= t < |due| && forall l :: 0 <= l < |rows| ==> Members(rows[l], |due| - 1)
    ensures |r| == |rows|
    ensures forall l :: 0 <= l < |rows| ==> r[l] == if l >= from then Ins(rows[l], due, t) else rows[l]
  {
    seq(|rows|, l requires 0 <= l < |rows| => if l >= from then Ins(rows[l], due, t) else rows[l])
  }

  lemma DelRowsOk(rows: seq<seq<int>>, due: seq<int>, t: int)
    requires RowsOk(rows, due)
    ensures RowsOk(DelRows(rows, t), due)
    ensures forall l :: 0 <= l < |rows| ==> t !in DelRows(rows, t)[l]
  {
    hide Del, Distinct, Sorted, Members, IsSub;
    forall l | 0 <= l < |rows|
      ensures Members(DelRows(rows, t)[l], |due| - 1) && Distinct(DelRows(rows, t)[l]) && Sorted(DelRows(rows, t)[l], due)
      ensures t !in DelRows(rows, t)[l]
    {
      DelMembers(rows[l], t, |due| - 1);
      DelSorted(rows[l], due, t);
    }
    forall l, m | 0 <= l < m < |rows| && m == l + 1
      ensures IsSub(DelRows(rows, t)[l], DelRows(rows, t)[m])
    {
      SubDel(rows[l], rows[m], t);
    }
  }

  lemma OtherDueRows(rows: seq<seq<int>>, due: seq<int>, t: int, d: int)
    requires RowsOk(rows, due) && 0 <= t < |due| && forall l :: 0 <= l < |rows| ==> t !in rows[l]
    ensures RowsOk(rows, due[t := d])
  {
    hide Distinct, Sorted, Members, IsSub;
    forall l | 0 <= l < |rows|
      ensures Sorted(rows[l], due[t := d])
    {
      OtherDue(rows[l], due, t, d, 0);
    }
  }

  lemma InsRowsOk(rows: seq<seq<int>>, due: seq<int>, t: int, from: int)
    requires RowsOk(rows, due) && 1 <= t < |due| && forall l :: 0 <= l < |rows| ==> t !in rows[l]
    ensures RowsOk(InsRows(rows, due, t, from), due)
  {
    hide Ins, Distinct, Sorted, Members, IsSub;
    var r := InsRows(rows, due, t, from);
    forall l | 0 <= l < |rows|
      ensures Members(r[l], |due| - 1) && Distinct(r[l]) && Sorted(r[l], due)
    {
      InsMembers(rows[l], due, t);
      InsSorted(rows[l], due, t);
    }
    forall l, m | 0 <= l < m < |rows| && m == l + 1
      ensures IsSub(r[l], r[m])
    {
      if l >= from {
        SubIns(rows[l], rows[m], due, t);
      } else if m >= from {
        SubInsOne(rows[l], rows[m], due, t);
      }
    }
  }

  /** The rows after starting timer `t` with the deadline `d`: it leaves all rows and joins those from `from` on. */
  ghost function Restarted(rows: seq<seq<int>>, due: seq<int>, t: int, d: int, from: int): (r: seq<seq<int>>)
    requires RowsOk(rows, due) && 1 <= t < |due|
    ensures RowsOk(r, due[t := d])
  {
    DelRowsOk(rows, due, t);
    OtherDueRows(DelRows(rows, t), due, t, d);
    InsRowsOk(DelRows(rows, t), due[t := d], t, from);
    InsRows(DelRows(rows, t), due[t := d], t, from)
  }

  lemma SubInsOne(a: seq<int>, b: seq<int>, due: seq<int>, t: int)
    requires IsSub(a, b) && Members(b, |due| - 1) && 1 <= t < |due|
    ensures IsSub(a, Ins(b, due, t))
  {
    SubInserted(a, b, Place(b, due, due[t]), t);
  }

  /** Every row is part of the last one. */
  lemma InLastRow(rows: seq<seq<int>>, due: seq<int>, l: int, t: int)
    requires RowsOk(rows, due) && 0 <= l < |rows| && t in rows[l]
    ensures t in rows[|rows| - 1]
    decreases |rows| - l
  {
    hide Distinct, Sorted, Members;
    if l < |rows| - 1 {
      SubMember(rows[l], rows[l + 1], t);
      InLastRow(rows, due, l + 1, t);
    }
  }

  /**
   The descent: having stopped behind timer `x` in one row, the scan of the row below may start
   behind `x` there, for everything before it is due no later than what is searched for.
   */
  lemma DescendAt(upper: seq<int>, lower: seq<int>, due: seq<int>, d: int) returns (j: int)
    requires Members(upper, |due| - 1) && Members(lower, |due| - 1) && Sorted(lower, due) && IsSub(upper, lower)
    requires Place(upper, due, d) > 0
    ensures 0 <= j < Place(lower, due, d) && lower[j] == upper[Place(upper, due, d) - 1]
  {
    var p := Place(upper, due, d);
    PlaceMeans(upper, due, d);
    PlaceMeans(lower, due, d);
    SubMember(upper, lower, upper[p - 1]);
    j :| 0 <= j < |lower| && lower[j] == upper[p - 1];
  }
}
