/**
 The timeout format of the DL1A distance sensor: a mantissa in the low byte and an exponent in the
 high byte of a 16-bit register.
 */
module Dl1a {
  import opened Bits

  /** dl1a_decode_timeout: the shifted mantissa is cut to 16 bits, and so is the result. */
  function Decode(r: nat): nat {
    (r % 256 * Mask(r / 256 % 256) % 0x1_0000 + 1) % 0x1_0000
  }

  /** How often halving brings a number down to a byte. */
  function Exponent(x: nat): (e: nat)
    decreases x
  {
    if x < 256 then 0 else 1 + Exponent(x / 2)
  }

  function Mantissa(x: nat): (m: nat)
    ensures m < 256
    decreases x
  {
    if x < 256 then x else Mantissa(x / 2)
  }

  /** The encoded timeout as the sensor is given it. */
  function Encoded(t: nat): nat {
    if t == 0 then 0 else Exponent(t - 1) * 256 + Mantissa(t - 1)
  }

  /** dl1a_encode_timeout, for the 16-bit timeouts it takes. */
  method Encode(t: nat) returns (r: nat)
    requires t < 0x1_0000
    ensures r == Encoded(t) && r < 0x1_0000
  {
    if t == 0 {
      return 0;
    }
    var ls: nat, ms: nat := t - 1, 0;
    ExponentSmall(t - 1);
    while ls >= 256
      invariant ms + Exponent(ls) == Exponent(t - 1) && Mantissa(ls) == Mantissa(t - 1)
      decreases ls
    {
      ls := ls / 2;
      ms := ms + 1;
    }
    r := ms * 256 + ls;
  }

  lemma ExponentSmall(x: nat)
    requires x < 0x1_0000
    ensures Exponent(x) <= 8
  {
    assert Exponent(x / 256) == 0;
    assert Exponent(x / 128) <= 1 && Exponent(x / 64) <= 2 && Exponent(x / 32) <= 3 && Exponent(x / 16) <= 4;
    assert Exponent(x / 8) <= 5 && Exponent(x / 4) <= 6 && Exponent(x / 2) <= 7;
  }

  /** The mantissa is the number shifted right by the exponent, and no bit of it is wasted. */
  lemma {:induction false} Shifted(x: nat)
    ensures Mantissa(x) * Mask(Exponent(x)) <= x < (Mantissa(x) + 1) * Mask(Exponent(x))
    decreases x
  {
    if x >= 256 {
      Shifted(x / 2);
      Twice(Mantissa(x), Exponent(x / 2));
      Twice(Mantissa(x) + 1, Exponent(x / 2));
    }
  }

  lemma Twice(m: nat, e: nat)
    ensures m * Mask(e + 1) == 2 * (m * Mask(e))
  {
  }

  lemma {:induction false} TopBit(x: nat)
    ensures Exponent(x) > 0 ==> Mantissa(x) >= 128
    decreases x
  {
    if x >= 256 {
      TopBit(x / 2);
    }
  }

  /**
   Encoding and decoding a timeout loses less than one unit of the last place, and, when there is an
   exponent, that unit is at most one 128th of the timeout.
   */
  lemma ErrorBound(t: nat)
    requires 1 <= t < 0x1_0000
    ensures Encoded(t) < 0x1_0000
    ensures var d, e := Decode(Encoded(t)), Encoded(t) / 256;
            && d <= t < d + Mask(e)
            && (e > 0 ==> Mask(e) <= (t - 1) / 128)
  {
    var x := t - 1;
    var m, e := Mantissa(x), Exponent(x);
    ExponentSmall(x);
    Shifted(x);
    TopBit(x);
    hide Exponent, Mantissa, Mask, Decode;
    assert Encoded(t) == e * 256 + m && (e * 256 + m) / 256 == e;
    OneMore(m, Mask(e));
    DecodeParts(m, e);
    if e > 0 {
      Least(m, Mask(e));
    }
  }

  lemma OneMore(m: nat, p: nat)
    ensures (m + 1) * p == m * p + p
  {
  }

  lemma DecodeParts(m: nat, e: nat)
    requires m < 256 && e <= 8 && m * Mask(e) < 0xffff
    ensures Decode(e * 256 + m) == m * Mask(e) + 1
  {
    hide Mask;
    assert (e * 256 + m) % 256 == m && (e * 256 + m) / 256 % 256 == e;
    var x: nat := m * Mask(e);
    assert x % 0x1_0000 == x;
  }

  lemma Least(m: nat, p: nat)
    requires m >= 128
    ensures 128 * p <= m * p
  {
  }

  /** Registers without waste: no exponent, or a mantissa with its top bit set that stays within 16 bits. */
  predicate Normal(r: nat) {
    r / 256 == 0 || (r / 256 <= 8 && r % 256 >= 128)
  }

  lemma {:induction false} Exact(m: nat, e: nat)
    requires m < 256 && (e > 0 ==> m >= 128)
    ensures Exponent(m * Mask(e)) == e && Mantissa(m * Mask(e)) == m
    decreases e
  {
    if e > 0 {
      Exact(m, e - 1);
      var x := m * Mask(e - 1);
      assert m * Mask(e) == 2 * x;
      Least(m, Mask(e - 1));
      assert 2 * x >= 256 && 2 * x / 2 == x;
    }
  }

  lemma MaskSmall(e: nat)
    requires e <= 8
    ensures Mask(e) <= 256
  {
    assert Mask(8) == 2 * Mask(7) == 4 * Mask(6) == 8 * Mask(5) == 16 * Mask(4) == 256;
    assert Mask(4) == 2 * Mask(3) == 4 * Mask(2) == 8 * Mask(1) == 16;
  }

  /** Decoding a register and encoding the timeout gives the register back exactly if it is a normal one. */
  lemma RoundTrip(r: nat)
    requires r < 0x1_0000
    ensures Encoded(Decode(r)) == r <==> Normal(r)
  {
    hide Mask, Encoded;
    if Normal(r) {
      NormalBack(r % 256, r / 256);
    } else {
      EncodedNormal(Decode(r));
    }
  }

  lemma NormalBack(m: nat, e: nat)
    requires m < 256 && e <= 8 && (e > 0 ==> m >= 128)
    ensures Encoded(Decode(e * 256 + m)) == e * 256 + m
  {
    hide Mask, Exponent, Mantissa;
    MaskSmall(e);
    Product(m, Mask(e), 255, 256);
    Exact(m, e);
    DecodeParts(m, e);
    hide Decode;
  }

  lemma Product(a: nat, b: nat, c: nat, d: nat)
    requires a <= c && b <= d
    ensures a * b <= c * d
  {
    assert a * b <= c * b <= c * d;
  }

  lemma EncodedNormal(t: nat)
    requires t < 0x1_0000
    ensures Normal(Encoded(t))
  {
    if t > 0 {
      hide Exponent, Mantissa;
      TopBit(t - 1);
      ExponentSmall(t - 1);
    }
  }

  /** A longer timeout never has a smaller code. */
  lemma {:induction false} Monotone(t: nat, u: nat)
    requires t <= u
    ensures Encoded(t) <= Encoded(u)
  {
    if t > 0 {
      MonotoneParts(t - 1, u - 1);
    }
  }

  lemma {:induction false} MonotoneParts(x: nat, y: nat)
    requires x <= y
    ensures Exponent(x) < Exponent(y) || (Exponent(x) == Exponent(y) && Mantissa(x) <= Mantissa(y))
    decreases x
  {
    if x >= 256 {
      MonotoneParts(x / 2, y / 2);
    }
  }
}
