/**
 Bit sets stored in words, as natural numbers, and the search for the lowest bit set.
 */
module Bits {

  /** 1 << p */
  function Mask(p: nat): (m: nat)
    ensures m > 0
  {
    if p == 0 then 1 else 2 * Mask(p - 1)
  }

  predicate Bit(x: nat, p: nat) {
    if p == 0 then x % 2 == 1 else Bit(x / 2, p - 1)
  }

  /** x | y */
  function Or(x: nat, y: nat): nat {
    if x == 0 && y == 0 then 0 else
    2 * Or(x / 2, y / 2) + (if x % 2 == 1 || y % 2 == 1 then 1 else 0)
  }

  /** x & ~y */
  function AndNot(x: nat, y: nat): nat {
    if x == 0 then 0 else
    2 * AndNot(x / 2, y / 2) + (if x % 2 == 1 && y % 2 == 0 then 1 else 0)
  }

  /** x & y */
  function And(x: nat, y: nat): nat {
    if x == 0 then 0 else
    2 * And(x / 2, y / 2) + (if x % 2 == 1 && y % 2 == 1 then 1 else 0)
  }

  lemma {:induction false} BitZero(p: nat)
    ensures !Bit(0, p)
  {
    if p > 0 {
      BitZero(p - 1);
    }
  }

  lemma {:induction false} MaskBits(q: nat, p: nat)
    ensures Bit(Mask(q), p) <==> p == q
  {
    if q == 0 {
      if p > 0 {
        BitZero(p - 1);
      }
    } else if p > 0 {
      MaskBits(q - 1, p - 1);
    }
  }

  lemma {:induction false} OrBits(x: nat, y: nat, p: nat)
    ensures Bit(Or(x, y), p) <==> Bit(x, p) || Bit(y, p)
  {
    if x == 0 && y == 0 {
      BitZero(p);
    } else if p > 0 {
      OrBits(x / 2, y / 2, p - 1);
    }
  }

  lemma {:induction false} AndNotBits(x: nat, y: nat, p: nat)
    ensures Bit(AndNot(x, y), p) <==> Bit(x, p) && !Bit(y, p)
  {
    if x == 0 {
      BitZero(p);
    } else if p > 0 {
      AndNotBits(x / 2, y / 2, p - 1);
    }
  }

  lemma {:induction false} AndBits(x: nat, y: nat, p: nat)
    ensures Bit(And(x, y), p) <==> Bit(x, p) && Bit(y, p)
  {
    if x == 0 {
      BitZero(p);
    } else if p > 0 {
      AndBits(x / 2, y / 2, p - 1);
    }
  }

  lemma {:induction false} SameBits(x: nat, y: nat)
    requires forall p: nat :: Bit(x, p) <==> Bit(y, p)
    ensures x == y
    decreases x + y
  {
    assert Bit(x, 0) == Bit(y, 0);
    if x + y > 0 {
      forall p: nat
        ensures Bit(x / 2, p) <==> Bit(y / 2, p)
      {
        assert Bit(x, p + 1) == Bit(y, p + 1);
      }
      SameBits(x / 2, y / 2);
    }
  }

  /** A word of `w` bits has no other bits. */
  lemma {:induction false} HighBits(x: nat, w: nat, p: nat)
    requires x < Mask(w) && p >= w
    ensures !Bit(x, p)
  {
    if w == 0 {
      BitZero(p);
    } else {
      HighBits(x / 2, w - 1, p - 1);
    }
  }

  lemma {:induction false} Narrow(x: nat, w: nat)
    requires forall p: nat :: p >= w ==> !Bit(x, p)
    ensures x < Mask(w)
  {
    if w == 0 {
      BitZero(0);
      forall p: nat
        ensures Bit(x, p) <==> Bit(0, p)
      {
        BitZero(p);
      }
      SameBits(x, 0);
    } else {
      forall p: nat | p >= w - 1
        ensures !Bit(x / 2, p)
      {
        assert !Bit(x, p + 1);
      }
      Narrow(x / 2, w - 1);
    }
  }

  /** The position of the lowest bit set. */
  function Low(x: nat): (p: nat)
    requires x > 0
  {
    if x % 2 == 1 then 0 else 1 + Low(x / 2)
  }

  lemma {:induction false} LowIs(x: nat)
    requires x > 0
    ensures Bit(x, Low(x)) && forall p: nat :: p < Low(x) ==> !Bit(x, p)
  {
    if x % 2 == 0 {
      LowIs(x / 2);
    }
  }

  lemma {:induction false} LowOfPart(x: nat, w: nat)
    requires x > 0 && x % Mask(w) > 0
    ensures Low(x % Mask(w)) == Low(x)
  {
    if w > 0 {
      HalfMod(x, Mask(w - 1));
      if x % 2 == 0 {
        LowOfPart(x / 2, w - 1);
      }
    }
  }

  lemma HalfMod(x: nat, m: nat)
    requires m > 0
    ensures x % (2 * m) == 2 * (x / 2 % m) + x % 2
  {
    var q := x / 2 / m;
    assert x / 2 == m * q + x / 2 % m;
    assert x == 2 * m * q + (2 * (x / 2 % m) + x % 2);
    assert 0 <= 2 * (x / 2 % m) + x % 2 < 2 * m;
    ModIs(x, 2 * m, q, 2 * (x / 2 % m) + x % 2);
  }

  lemma ModIs(x: nat, m: nat, q: nat, r: nat)
    requires m > 0 && x == m * q + r && r < m
    ensures x % m == r && x / m == q
  {
    Multiple(m, x / m - q);
    assert m * (x / m - q) == r - x % m;
  }

  lemma Multiple(m: int, d: int)
    requires m >= 0
    ensures d >= 1 ==> m * d >= m
    ensures d <= -1 ==> m * d <= -m
  {
  }

  lemma {:induction false} LowAbove(x: nat, w: nat)
    requires x > 0 && x % Mask(w) == 0
    ensures x / Mask(w) > 0 && Low(x) == w + Low(x / Mask(w))
  {
    if w > 0 {
      HalfMod(x, Mask(w - 1));
      LowAbove(x / 2, w - 1);
      DivTwice(x, Mask(w - 1));
    }
  }

  lemma DivTwice(x: nat, m: nat)
    requires m > 0
    ensures x / 2 / m == x / (2 * m)
  {
    var q, r := x / 2 / m, x / 2 % m;
    assert x == 2 * m * q + (2 * r + x % 2);
    ModIs(x, 2 * m, q, 2 * r + x % 2);
  }

  // ----- __rt_ffs -----

  /** The table of lowest bits has sixteen rows that differ in their first entries only. */
  const ROW_STARTS: seq<nat> := [0, 4, 5, 4, 6, 4, 5, 4, 7, 4, 5, 4, 6, 4, 5, 4]
  const ROW_REST: seq<nat> := [0, 0, 1, 0, 2, 0, 1, 0, 3, 0, 1, 0, 2, 0, 1, 0]

  function LowestBitTable(b: nat): nat
    requires b < 256
  {
    if b % 16 == 0 then ROW_STARTS[b / 16] else ROW_REST[b % 16]
  }

  lemma LowSmall(b: nat)
    requires 0 < b < 16
    ensures Low(b) == ROW_REST[b]
  {
    assert Low(1) == 0;
    assert Low(2) == 1 + Low(1) && Low(4) == 1 + Low(2) && Low(8) == 1 + Low(4);
    assert Low(6) == 1 + Low(3) && Low(12) == 1 + Low(6) && Low(10) == 1 + Low(5) && Low(14) == 1 + Low(7);
  }

  lemma TableLow(b: nat)
    requires 0 < b < 256
    ensures LowestBitTable(b) == Low(b)
  {
    hide Low;
    assert Mask(4) == 2 * Mask(3) == 4 * Mask(2) == 8 * Mask(1) == 16;
    if b % 16 == 0 {
      LowAbove(b, 4);
      LowSmall(b / 16);
      RowStart(b / 16);
    } else {
      LowOfPart(b, 4);
      LowSmall(b % 16);
    }
  }

  lemma RowStart(i: nat)
    requires 0 < i < 16
    ensures ROW_STARTS[i] == 4 + ROW_REST[i]
  {
  }

  /** One more than the position of the lowest bit set of a 32-bit word, or 0. */
  function Ffs(value: nat): (r: nat)
    requires value < 0x1_0000_0000
    ensures value == 0 <==> r == 0
    ensures value > 0 ==> r == Low(value) + 1
  {
    FfsLow(value);
    if value == 0 then 0
    else if value % 256 != 0 then LowestBitTable(value % 256) + 1
    else if value / 256 % 256 != 0 then LowestBitTable(value / 256 % 256) + 9
    else if value / 0x1_0000 % 256 != 0 then LowestBitTable(value / 0x1_0000 % 256) + 17
    else LowestBitTable(value / 0x100_0000) + 25
  }

  lemma Byte(x: nat)
    requires x > 0
    ensures x % 256 != 0 ==> Low(x) == LowestBitTable(x % 256)
    ensures x % 256 == 0 ==> x / 256 > 0 && Low(x) == 8 + Low(x / 256)
  {
    assert Mask(4) == 2 * Mask(3) == 4 * Mask(2) == 8 * Mask(1) == 16;
    assert Mask(8) == 2 * Mask(7) == 4 * Mask(6) == 8 * Mask(5) == 16 * Mask(4) == 256;
    if x % 256 != 0 {
      LowOfPart(x, 8);
      TableLow(x % 256);
    } else {
      LowAbove(x, 8);
    }
  }

  lemma FfsLow(x: nat)
    requires x < 0x1_0000_0000
    ensures x > 0 && x % 256 != 0 ==> Low(x) == LowestBitTable(x % 256)
    ensures x > 0 && x % 256 == 0 && x / 256 % 256 != 0 ==> Low(x) == 8 + LowestBitTable(x / 256 % 256)
    ensures x > 0 && x % 256 == 0 && x / 256 % 256 == 0 ==>
      (if x / 0x1_0000 % 256 != 0 then Low(x) == 16 + LowestBitTable(x / 0x1_0000 % 256)
       else Low(x) == 24 + LowestBitTable(x / 0x100_0000))
  {
    hide Low, LowestBitTable;
    if x > 0 {
      Byte(x);
      if x % 256 == 0 {
        Byte(x / 256);
        if x / 256 % 256 == 0 {
          TopBytes(x / 256);
        }
      }
    }
  }

  lemma TopBytes(y: nat)
    requires 0 < y < 0x100_0000 && y % 256 == 0
    ensures if y / 0x100 % 256 != 0 then Low(y) == 8 + LowestBitTable(y / 0x100 % 256)
            else Low(y) == 16 + LowestBitTable(y / 0x1_0000)
  {
    hide Low, LowestBitTable;
    Byte(y);
    Byte(y / 256);
    if y / 256 % 256 == 0 {
      assert y / 256 / 256 == y / 0x1_0000 < 256;
      Byte(y / 0x1_0000);
    }
  }
}
