/**
 Lists as sequences: neighbours in a ring, insertion, removal, and lists without repetition.
 */
module Lists {

  function Min(a: int, b: int): int {
    if a <= b then a else b
  }

  function Max(a: int, b: int): int {
    if a < b then b else a
  }

  function Succ(n: int, i: int): int
    requires 0 <= i < n
  {
    if i + 1 == n then 0 else i + 1
  }

  function Pred(n: int, i: int): int
    requires 0 <= i < n
  {
    if i == 0 then n - 1 else i - 1
  }

  ghost predicate Distinct(s: seq<int>) {
    forall i, j :: 0 <= i < j < |s| ==> s[i] != s[j]
  }

  function Inserted(s: seq<int>, i: int, n: int): (t: seq<int>)
    requires 0 <= i <= |s|
    ensures |t| == |s| + 1
  {
    s[..i] + [n] + s[i..]
  }

  function Removed(s: seq<int>, i: int): (t: seq<int>)
    requires 0 <= i < |s|
    ensures |t| == |s| - 1
  {
    s[..i] + s[i + 1..]
  }

  lemma InsertedAt(s: seq<int>, i: int, n: int, j: int)
    requires 0 <= i <= |s|
    ensures 0 <= j <= |s| ==> Inserted(s, i, n)[j] == if j < i then s[j] else if j == i then n else s[j - 1]
  {
  }

  lemma RemovedAt(s: seq<int>, i: int, j: int)
    requires 0 <= i < |s|
    ensures 0 <= j < |s| - 1 ==> Removed(s, i)[j] == if j < i then s[j] else s[j + 1]
  {
  }

  lemma DistinctAt(s: seq<int>, i: int, j: int)
    requires Distinct(s) && 0 <= i < |s| && 0 <= j < |s|
    ensures s[i] == s[j] <==> i == j
  {
  }

  lemma InsertedMembers(s: seq<int>, i: int, n: int)
    requires 0 <= i <= |s|
    ensures forall y :: y in Inserted(s, i, n) <==> y in s || y == n
    ensures Distinct(s) && n !in s ==> Distinct(Inserted(s, i, n))
  {
    var t := Inserted(s, i, n);
    forall y | y in s
      ensures y in t
    {
      var j :| 0 <= j < |s| && s[j] == y;
      assert t[if j < i then j else j + 1] == y;
    }
    assert t[i] == n;
  }

  lemma RemovedMembers(s: seq<int>, i: int)
    requires 0 <= i < |s| && Distinct(s)
    ensures forall y :: y in Removed(s, i) <==> y in s && y != s[i]
    ensures Distinct(Removed(s, i))
  {
    var t := Removed(s, i);
    forall y | y in s && y != s[i]
      ensures y in t
    {
      var j :| 0 <= j < |s| && s[j] == y;
      assert t[if j < i then j else j - 1] == y;
    }
  }

  /** The list without entry `t`. */
  function Del(row: seq<int>, t: int): (r: seq<int>)
    ensures |r| <= |row|
  {
    if row == [] then [] else if row[0] == t then row[1..] else [row[0]] + Del(row[1..], t)
  }

  lemma {:induction false} DelAbsent(row: seq<int>, t: int)
    requires t !in row
    ensures Del(row, t) == row
  {
    if row != [] {
      DelAbsent(row[1..], t);
    }
  }

  lemma {:induction false} DelIs(row: seq<int>, t: int, i: int)
    requires Distinct(row) && 0 <= i < |row| && row[i] == t
    ensures Del(row, t) == Removed(row, i)
  {
    if i > 0 {
      DelIs(row[1..], t, i - 1);
      assert [row[0]] + Removed(row[1..], i - 1) == Removed(row, i);
    }
  }

  lemma DelHas(row: seq<int>, t: int)
    requires Distinct(row)
    ensures Distinct(Del(row, t))
    ensures forall y :: y in Del(row, t) <==> y in row && y != t
  {
    if t in row {
      var i :| 0 <= i < |row| && row[i] == t;
      DelIs(row, t, i);
      RemovedMembers(row, i);
    } else {
      DelAbsent(row, t);
    }
  }
}
