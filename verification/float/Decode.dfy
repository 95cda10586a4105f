/** Binary64 floats (section 3.4 of IEEE 754-2019), their rounding intervals, and powers with any exponent. */
module Floats {
  import opened Powers

  ghost function Exp(base: nat, exponent: int): (power: real)
    requires base > 0
    ensures power > 0.0
  {
    PowPositive(base, if exponent < 0 then -exponent else exponent);
    if exponent >= 0 then Pow(base, exponent) as real else 1.0 / (Pow(base, -exponent) as real)
  }

  lemma ExpNext(base: nat, exponent: int)
    requires base > 0
    ensures Exp(base, exponent + 1) == base as real * Exp(base, exponent)
  {
    if exponent < 0 {
      PowPositive(base, -exponent - 1);
      Invert(base, Pow(base, -exponent - 1));
    } else {
      ProductAsReal(base, Pow(base, exponent));
    }
  }

  lemma Invert(base: nat, power: nat)
    requires base > 0 && power > 0 && base * power > 0
    ensures 1.0 / (power as real) == base as real * (1.0 / ((base * power) as real))
  {
    ProductAsReal(base, power);
  }

  lemma ProductAsReal(left: nat, right: nat)
    ensures (left * right) as real == left as real * right as real
  {}

  lemma {:induction false} ExpAdd(base: nat, exponent: int, more: nat)
    requires base > 0
    ensures Exp(base, exponent + more) == Exp(base, exponent) * (Pow(base, more) as real)
  {
    hide Exp;
    if more > 0 {
      ExpAdd(base, exponent, more - 1);
      ExpNext(base, exponent + more - 1);
      ProductAsReal(base, Pow(base, more - 1));
      RealSwap(base as real, Exp(base, exponent), Pow(base, more - 1) as real);
    } else {
      assert Pow(base, 0) as real == 1.0;
    }
  }

  lemma RealSwap(a: real, b: real, c: real)
    ensures a * (b * c) == b * (a * c)
  {}

  // ---- Decoding ----

  const IMPLICIT: nat := 0x10_0000_0000_0000
  const MANTISSAS: nat := 0x10_0000_0000_0000

  /** The bit patterns of the finite, nonzero, positive floats. */
  ghost predicate Positive(bits: nat) {
    0 < bits < 2047 * MANTISSAS
  }

  /** What the bit pattern stands for, and for the pattern of infinity the next power of two. */
  ghost function FloatValue(bits: nat): real {
    var biased, fraction := bits / MANTISSAS, bits % MANTISSAS;
    if biased == 0 then Binary(fraction, -1074) else Binary(IMPLICIT + fraction, biased - 1075)
  }

  /**
    * A float and its rounding interval, in units of two to the `exp`: the value is `mant`, and the interval reaches
    * `minus` below and `plus` above it.
    */
  datatype Decoded = Decoded(mant: nat, minus: nat, plus: nat, exp: int, inclusive: bool)

  function Decode(bits: nat): Decoded
    requires bits < 2047 * MANTISSAS
  {
    var biased, fraction := bits / MANTISSAS, bits % MANTISSAS;
    var mant := if biased == 0 then 2 * fraction else fraction + IMPLICIT;
    var exp := if biased == 0 then -1075 else biased - 1075;
    var inclusive := mant % 2 == 0;
    if biased == 0 then
      Decoded(mant, 1, 1, exp, inclusive)
    else if mant == IMPLICIT then
      // Below a power of two floats lie twice as close as above it.
      Decoded(4 * mant, 1, 2, exp - 2, inclusive)
    else
      Decoded(2 * mant, 1, 1, exp - 1, inclusive)
  }

  /** `units` of two to the `exp`. */
  ghost function Binary(units: int, exp: int): real {
    units as real * Exp(2, exp)
  }

  ghost function Decimal(digits: nat, exponent: int): real {
    digits as real * Exp(10, exponent)
  }

  ghost predicate InInterval(float: Decoded, digits: nat, exponent: int) {
    var low, high := Binary(float.mant - float.minus, float.exp), Binary(float.mant + float.plus, float.exp);
    var decimal := Decimal(digits, exponent);
    if float.inclusive then low <= decimal <= high else low < decimal < high
  }

  /** The decoded integers stay within the ranges the digit generation relies on. */
  ghost predicate Reasonable(float: Decoded) {
    && 1 <= float.minus && 1 <= float.plus <= 2 && float.minus < float.mant
    && float.mant + float.plus <= 0x40_0000_0000_0002
    && 2 * float.plus <= float.mant
    && float.mant + float.plus < 0x20_0000_0000_0000 * (float.minus + float.plus)
    && -1076 <= float.exp <= 970
  }

  lemma DecodeReasonable(bits: nat)
    requires Positive(bits)
    ensures Reasonable(Decode(bits))
  {}

  /** A binary number in the next finer unit. */
  lemma Finer(units: int, exp: int)
    ensures Binary(units, exp + 1) == Binary(2 * units, exp)
  {
    ExpNext(2, exp);
    hide Exp;
    var unit := Exp(2, exp);
    assert units as real * (2.0 * unit) == (2.0 * units as real) * unit;
  }

  lemma DecodeValue(bits: nat)
    requires Positive(bits)
    ensures Binary(Decode(bits).mant, Decode(bits).exp) == FloatValue(bits)
  {
    hide Binary;
    var fraction, exp := bits % MANTISSAS, Decode(bits).exp;
    Finer(fraction, exp);
    Finer(IMPLICIT + fraction, exp);
    Finer(2 * IMPLICIT, exp);
    Finer(IMPLICIT, exp + 1);
  }

  lemma NextFloat(bits: nat)
    requires Positive(bits)
    ensures FloatValue(bits + 1) == Binary(Decode(bits).mant + 2 * Decode(bits).plus, Decode(bits).exp)
  {
    hide Binary;
    var fraction, exp := bits % MANTISSAS, Decode(bits).exp;
    assert fraction + 1 < MANTISSAS ==>
      (bits + 1) / MANTISSAS == bits / MANTISSAS && (bits + 1) % MANTISSAS == fraction + 1;
    assert fraction + 1 == MANTISSAS ==> (bits + 1) / MANTISSAS == bits / MANTISSAS + 1 && (bits + 1) % MANTISSAS == 0;
    Finer(fraction + 1, exp);
    Finer(IMPLICIT + fraction + 1, exp);
    Finer(2 * IMPLICIT, exp);
    Finer(IMPLICIT, exp + 1);
    Finer(IMPLICIT, exp);
    Finer(2 * IMPLICIT + 2, exp);
    Finer(IMPLICIT + 1, exp + 1);
  }

  /** The float before is `minus` as far again from the interval's start, or three times that at one float. */
  lemma PreviousFloat(bits: nat)
    requires Positive(bits)
    ensures FloatValue(bits - 1)
         == Binary(Decode(bits).mant - (if bits == IMPLICIT then 4 else 2) * Decode(bits).minus, Decode(bits).exp)
  {
    hide Binary;
    var fraction, exp := bits % MANTISSAS, Decode(bits).exp;
    assert fraction > 0 ==> (bits - 1) / MANTISSAS == bits / MANTISSAS && (bits - 1) % MANTISSAS == fraction - 1;
    assert fraction == 0 ==> (bits - 1) / MANTISSAS == bits / MANTISSAS - 1 && (bits - 1) % MANTISSAS == MANTISSAS - 1;
    Finer(fraction - 1, exp);
    Finer(IMPLICIT + fraction - 1, exp);
    Finer(2 * IMPLICIT - 1, exp);
    Finer(IMPLICIT - 1, exp + 1);
    Finer(2 * IMPLICIT - 2, exp);
  }

  lemma Between(units: int, near: int, far: int, exp: int)
    ensures 2.0 * Binary(near, exp) <= Binary(units, exp) + Binary(far, exp) <==> 2 * near <= units + far
    ensures 2.0 * Binary(near, exp) >= Binary(units, exp) + Binary(far, exp) <==> 2 * near >= units + far
  {
    hide Exp;
    Scales(near as real, units as real, far as real, Exp(2, exp));
  }

  lemma Scales(near: real, units: real, far: real, unit: real)
    requires unit > 0.0
    ensures 2.0 * (near * unit) <= units * unit + far * unit <==> 2.0 * near <= units + far
    ensures 2.0 * (near * unit) >= units * unit + far * unit <==> 2.0 * near >= units + far
  {
    var excess := 2.0 * near - units - far;
    assert 2.0 * (near * unit) - (units * unit + far * unit) == excess * unit;
  }

  /** The interval ends half way to the next float. */
  lemma DecodeHigh(bits: nat)
    requires Positive(bits)
    ensures 2.0 * Binary(Decode(bits).mant + Decode(bits).plus, Decode(bits).exp)
        == FloatValue(bits) + FloatValue(bits + 1)
  {
    hide Binary, FloatValue, Decode;
    var float := Decode(bits);
    DecodeValue(bits);
    NextFloat(bits);
    Between(float.mant, float.mant + float.plus, float.mant + 2 * float.plus, float.exp);
  }

  /**
    * The interval starts half way from the float before, except for the smallest normal float: its lower neighbour is
    * as far as its upper one, but it is treated like any other power of two, and the interval starts a quarter of the
    * way down.
    */
  lemma DecodeLow(bits: nat)
    requires Positive(bits)
    ensures 2.0 * Binary(Decode(bits).mant - Decode(bits).minus, Decode(bits).exp)
        == FloatValue(bits - 1) + FloatValue(bits)
        <==> bits != IMPLICIT
    ensures FloatValue(bits - 1) + FloatValue(bits)
         <= 2.0 * Binary(Decode(bits).mant - Decode(bits).minus, Decode(bits).exp)
  {
    DecodeReasonable(bits);
    hide Binary, FloatValue, Decode;
    var float := Decode(bits);
    DecodeValue(bits);
    PreviousFloat(bits);
    Between(float.mant, float.mant - float.minus, float.mant - (if bits == IMPLICIT then 4 else 2) * float.minus,
      float.exp);
  }
}
