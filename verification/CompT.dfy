/**
 `encode_comp_t` of `kernel/acct.c`: a number as a 13-bit fraction and a 3-bit exponent to the base 8.
 */
module CompT {

  const MAXFRACT := 8191     // 13-bit fraction
  const MANT := 8192

  function Pow8(k: nat): (p: nat)
    ensures p > 0
  {
    if k == 0 then 1 else 8 * Pow8(k - 1)
  }

  /** How often the number has to be shifted to fit the fraction. */
  function Shifts(v: nat): nat
    decreases v
  {
    if v <= MAXFRACT then 0 else 1 + Shifts(v / 8)
  }

  /** Fraction and exponent; `Code` puts them into one word. */
  datatype Comp = Comp(mant: nat, exp: nat)

  function Code(c: Comp): nat { c.exp * MANT + c.mant }

  /** How a reader takes the word apart: the lower 13 bits are the fraction. */
  function Decode(code: nat): Comp { Comp(code % 0x2000, code / 0x2000) }

  function Value(c: Comp): nat { c.mant * Pow8(c.exp) }

  /** `v` in units of `8^k`, rounded to the nearest, halves up. */
  function Rounded(v: nat, k: nat): nat { Quotient(2 * v + Pow8(k), 2 * Pow8(k)) }

  function Quotient(n: nat, d: nat): nat
    requires d > 0
  {
    n / d
  }

  /** The encoding: round in units of `8^k` for the least `k` that fits; a carry is moved to the exponent. */
  function Encode(v: nat): Comp {
    var k := Shifts(v);
    var m := Rounded(v, k);
    if m > MAXFRACT then Comp(m / 8, k + 1) else Comp(m, k)
  }

  // ---- arithmetic

  lemma MulLess(a: nat, b: nat, d: nat)
    requires a < b
    ensures (a + 1) * d <= b * d
  {
  }

  lemma DivExact(a: nat, q: nat, r: nat, d: nat)
    requires d > 0 && a == q * d + r && r < d
    ensures a / d == q
  {
    if a / d < q {
      MulLess(a / d, q, d);
      assert false;
    } else if a / d > q {
      MulLess(q, a / d, d);
      assert false;
    }
  }

  lemma DivMonotone(a: nat, b: nat, d: nat)
    requires a <= b && d > 0
    ensures a / d <= b / d
  {
    if a / d > b / d {
      MulLess(b / d, a / d, d);
      assert false;
    }
  }

  /** `q` and `r` are quotient and remainder of `v` by `8^k`. */
  predicate Split(v: nat, k: nat, q: nat, r: nat) { v == q * Pow8(k) + r && r < Pow8(k) }

  predicate RoundsUp(k: nat, r: nat) { 2 * r >= Pow8(k) }

  /** Rounding from quotient and remainder. */
  lemma RoundedIs(v: nat, k: nat, q: nat, r: nat)
    requires Split(v, k, q, r)
    ensures Rounded(v, k) == if RoundsUp(k, r) then q + 1 else q
  {
    var p := Pow8(k);
    if 2 * r >= p {
      assert 2 * v + p == (q + 1) * (2 * p) + (2 * r - p);
      DivExact(2 * v + p, q + 1, 2 * r - p, 2 * p);
    } else {
      assert 2 * v + p == q * (2 * p) + (2 * r + p);
      DivExact(2 * v + p, q, 2 * r + p, 2 * p);
    }
  }

  /** One more shift: the remainder grows by the digit shifted out, whose upper half means rounding up. */
  lemma ShiftOnce(v: nat, k: nat, q: nat, r: nat)
    requires Split(v, k, q, r)
    ensures var r' := (q % 8) * Pow8(k) + r;
            Split(v, k + 1, q / 8, r') && (q / 4 % 2 == 1 <==> RoundsUp(k + 1, r'))
  {
    var p, h, d := Pow8(k), q / 8, q % 8;
    Distribute(h, d, p);
    Digit(d, p, r);
    TopBit(q);
  }

  lemma Distribute(h: nat, d: nat, p: nat)
    ensures (8 * h + d) * p == h * (8 * p) + d * p
  {
  }

  lemma Digit(d: nat, p: nat, r: nat)
    requires d < 8 && r < p
    ensures d * p + r < 8 * p && (d >= 4 <==> 2 * (d * p + r) >= 8 * p)
  {
  }

  /** The bit tested by the loop is the upper half of the digit. */
  lemma TopBit(q: nat)
    ensures q / 4 % 2 == 1 <==> q % 8 >= 4
  {
  }

  lemma SplitZero(v: nat)
    ensures Split(v, 0, v, 0) && !RoundsUp(0, 0)
  {
  }

  lemma CodeDecode(c: Comp)
    requires c.mant <= MAXFRACT
    ensures Decode(Code(c)) == c
  {
  }

  /** The loop of `encode_comp_t`. A reader of the word gets a number within half a unit of the one encoded. */
  method EncodeCompT(value0: nat) returns (code: nat)
    ensures code == Code(Encode(value0)) && Decode(code) == Encode(value0)
    ensures var v, p := Value(Decode(code)), Pow8(Shifts(value0)); 2 * value0 <= 2 * v + p && 2 * v <= 2 * value0 + p
  {
    hide Pow8, Rounded, Split, RoundsUp, Value, Decode;
    EncodeClose(value0);
    CodeDecode(Encode(value0));
    var value: nat, exp: nat, rnd := value0, 0, false;
    ghost var r: nat := 0;
    SplitZero(value0);
    while value > MAXFRACT
      invariant Split(value0, exp, value, r) && (rnd <==> RoundsUp(exp, r))
      invariant Shifts(value0) == exp + Shifts(value)
    {
      ShiftOnce(value0, exp, value, r);
      r := (value % 8) * Pow8(exp) + r;
      rnd := value / 4 % 2 == 1;            // value & (1 << (EXPSIZE - 1))
      value := value / 8;
      exp := exp + 1;
    }
    RoundedIs(value0, exp, value, r);
    if rnd {
      value := value + 1;
      if value > MAXFRACT {
        value := value / 8;
        exp := exp + 1;
      }
    }
    code := exp * MANT + value;
  }

  // ---- what the encoding is good for

  /** Quotient and remainder by the unit of the encoding. */
  lemma {:induction false} Units(v: nat) returns (q: nat, r: nat)
    ensures Split(v, Shifts(v), q, r) && q <= MAXFRACT
    ensures Shifts(v) > 0 ==> q >= 1024
  {
    if v <= MAXFRACT {
      q, r := v, 0;
    } else {
      var q1, r1 := Units(v / 8);
      var k := Shifts(v / 8);
      q, r := q1, 8 * r1 + v % 8;
      assert v == 8 * (q1 * Pow8(k) + r1) + v % 8;
      assert 8 * (q1 * Pow8(k)) == q1 * Pow8(k + 1);
      if k == 0 { assert q1 == v / 8; }
    }
  }

  /** The value encoded is within half a unit of the number; the carry into the exponent loses nothing. */
  lemma EncodeClose(v: nat)
    ensures var k := Shifts(v);
            && Value(Encode(v)) == Rounded(v, k) * Pow8(k)
            && 2 * v <= 2 * Value(Encode(v)) + Pow8(k) && 2 * Value(Encode(v)) <= 2 * v + Pow8(k)
            && Encode(v).mant <= MAXFRACT
  {
    hide Rounded;
    var q, r := Units(v);
    var k := Shifts(v);
    RoundedIs(v, k, q, r);
    Close(v, q, r, Pow8(k), Rounded(v, k));
    assert 1024 * Pow8(k + 1) == 8192 * Pow8(k);
  }

  lemma Close(v: nat, q: nat, r: nat, p: nat, m: nat)
    requires v == q * p + r && r < p && m == if 2 * r >= p then q + 1 else q
    ensures 2 * v <= 2 * (m * p) + p && 2 * (m * p) <= 2 * v + p
  {
  }

  lemma {:induction false} ShiftsMonotone(v: nat, w: nat)
    requires v <= w
    ensures Shifts(v) <= Shifts(w)
    decreases w
  {
    if v > MAXFRACT { ShiftsMonotone(v / 8, w / 8); }
  }

  /** Larger numbers never get smaller codes. */
  lemma EncodeMonotone(v: nat, w: nat)
    requires v <= w
    ensures Code(Encode(v)) <= Code(Encode(w))
  {
    ShiftsMonotone(v, w);
    var qv, rv := Units(v);
    var qw, rw := Units(w);
    RoundedIs(v, Shifts(v), qv, rv);
    RoundedIs(w, Shifts(w), qw, rw);
    if Shifts(v) == Shifts(w) {
      DivMonotone(2 * v + Pow8(Shifts(v)), 2 * w + Pow8(Shifts(v)), 2 * Pow8(Shifts(v)));
    }
  }

  /** A code that the encoding can produce: no exponent, or a fraction that needs all its digits. */
  predicate Normal(c: Comp) {
    c.mant <= MAXFRACT && (c.exp > 0 ==> c.mant >= 1024)
  }

  lemma {:induction false} ShiftsOfValue(m: nat, e: nat)
    requires m <= MAXFRACT && (e > 0 ==> m >= 1024)
    ensures Shifts(m * Pow8(e)) == e
  {
    if e > 0 {
      var v := m * Pow8(e);
      assert v == 8 * (m * Pow8(e - 1));
      assert m * Pow8(e - 1) >= 1024 by { assert Pow8(e - 1) >= 1; }
      ShiftsOfValue(m, e - 1);
    } else {
      assert m * Pow8(0) == m;
    }
  }

  /** A number that can be represented is encoded exactly: encoding undoes decoding. */
  lemma EncodeValue(c: Comp)
    requires Normal(c)
    ensures Encode(Value(c)) == c
  {
    ShiftsOfValue(c.mant, c.exp);
    RoundedIs(Value(c), c.exp, c.mant, 0);
  }

  lemma EncodeNormal(v: nat)
    ensures Normal(Encode(v))
  {
    var q, r := Units(v);
    RoundedIs(v, Shifts(v), q, r);
  }

  lemma {:induction false} ShiftsBound(v: nat, k: nat)
    requires v < MANT * Pow8(k)
    ensures Shifts(v) <= k
    decreases k
  {
    if v > MAXFRACT && k > 0 {
      assert v < 8 * (MANT * Pow8(k - 1));
      ShiftsBound(v / 8, k - 1);
    }
  }

  /** Every 32-bit number gets an exponent of at most 7, so that the code fits 16 bits. */
  lemma EncodeFits(v: nat)
    requires v < 0x1_0000_0000
    ensures Encode(v).exp <= 7 && Code(Encode(v)) < 0x1_0000
  {
    assert Pow8(7) == 2097152 by {
      assert Pow8(1) == 8 && Pow8(2) == 64 && Pow8(3) == 512 && Pow8(4) == 4096 && Pow8(5) == 32768 && Pow8(6) == 262144;
    }
    ShiftsBound(v, 7);
    var q, r := Units(v);
    var k := Shifts(v);
    RoundedIs(v, k, q, r);
    assert k == 7 ==> q * 2097152 <= v;
  }
}
