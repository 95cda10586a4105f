/** The shortest decimal digits of a float, generated on exact big integers. */
module ShortestDigits {
  import opened Powers
  import opened Limbs
  import opened Floats

  // ---- What the digits must be ----

  function DigitOf(c: char): (digit: nat) {
    if '0' <= c <= '9' then c as int - '0' as int else 0
  }

  ghost predicate AllDigits(text: string) {
    forall i :: 0 <= i < |text| ==> '0' <= text[i] <= '9'
  }

  /** The number decimal digits stand for. */
  ghost function Number(text: string): nat {
    if text == "" then 0 else 10 * Number(text[..|text| - 1]) + DigitOf(text[|text| - 1])
  }

  ghost function Distance(float: Decoded, digits: nat, exponent: int): real {
    var difference := Decimal(digits, exponent) - Binary(float.mant, float.exp);
    if difference < 0.0 then -difference else difference
  }

  /** No multiple of that power of ten lies in the interval. */
  ghost predicate NoneIn(float: Decoded, exponent: int) {
    forall digits: nat :: !InInterval(float, digits, exponent)
  }

  /** A decimal in the interval with no shorter one, nearest to the float among those as short, upwards in a tie. */
  ghost predicate Shortest(float: Decoded, digits: nat, exponent: int) {
    && InInterval(float, digits, exponent)
    && NoneIn(float, exponent + 1)
    && forall other: nat :: InInterval(float, other, exponent) ==>
         && Distance(float, digits, exponent) <= Distance(float, other, exponent)
         && (Distance(float, digits, exponent) == Distance(float, other, exponent) ==> other <= digits)
  }

  // ---- The state of the digit generation ----

  predicate IsBelow(left: nat, right: nat, inclusive: bool) {
    left < right || (inclusive && left == right)
  }

  /**
    * After `digits`, the float is `digits` and the fraction mant/scale, in units of ten to the `exponent`; minus/scale
    * and plus/scale are the reach of its interval.
    */
  ghost predicate AtDigit(float: Decoded, digits: nat, mant: nat, minus: nat, plus: nat, scale: nat, exponent: int) {
    var unit := Exp(10, exponent);
    && scale > 0
    && Binary(float.mant, float.exp) * scale as real == (mant + digits * scale) as real * unit
    && Binary(float.minus, float.exp) * scale as real == minus as real * unit
    && Binary(float.plus, float.exp) * scale as real == plus as real * unit
  }

  lemma FinerDigit(float: Decoded, digits: nat, mant: nat, minus: nat, plus: nat, scale: nat, exponent: int)
    requires AtDigit(float, digits, mant, minus, plus, scale, exponent)
    ensures AtDigit(float, 10 * digits, 10 * mant, 10 * minus, 10 * plus, scale, exponent - 1)
  {
    hide Exp, Binary;
    FinerUnit(mant + digits * scale, exponent);
    FinerUnit(minus, exponent);
    FinerUnit(plus, exponent);
    Regroup(mant, digits, scale);
  }

  lemma FinerUnit(number: nat, exponent: int)
    ensures (10 * number) as real * Exp(10, exponent - 1) == number as real * Exp(10, exponent)
  {
    ExpNext(10, exponent - 1);
    hide Exp;
    TenTimes(number, Exp(10, exponent - 1));
  }

  lemma TenTimes(number: nat, unit: real)
    ensures (10 * number) as real * unit == number as real * (10.0 * unit)
  {}

  lemma Regroup(mant: nat, digits: nat, scale: nat)
    ensures 10 * mant + 10 * digits * scale == 10 * (mant + digits * scale)
  {}

  lemma TakeDigit(float: Decoded, digits: nat, mant: nat, minus: nat, plus: nat, scale: nat, exponent: int, digit: nat)
    requires AtDigit(float, digits, mant, minus, plus, scale, exponent) && digit * scale <= mant
    ensures AtDigit(float, digits + digit, mant - digit * scale, minus, plus, scale, exponent)
  {
    assert (digits + digit) * scale == digits * scale + digit * scale;
  }

  /** The two tests of the digit loop say whether the digits, and the digits rounded up, lie in the interval. */
  lemma TestsMean(float: Decoded, digits: nat, mant: nat, minus: nat, plus: nat, scale: nat, exponent: int)
    requires AtDigit(float, digits, mant, minus, plus, scale, exponent) && mant < scale
    requires float.minus > 0 && float.plus > 0
    ensures Decimal(digits, exponent) <= Binary(float.mant, float.exp) < Decimal(digits + 1, exponent)
    ensures InInterval(float, digits, exponent) <==> IsBelow(mant, minus, float.inclusive)
    ensures InInterval(float, digits + 1, exponent) <==> IsBelow(scale, mant + plus, float.inclusive)
    ensures RoundsUp(float, digits, exponent) <==> scale <= 2 * mant
  {
    BinarySplits(float.mant, float.minus, float.plus, float.exp);
    BinaryPositive(float.minus, float.exp);
    BinaryPositive(float.plus, float.exp);
    StateCompares(float, digits, mant, minus, plus, scale, exponent);
    hide Exp, Binary, Decimal, AtDigit;
  }

  lemma StateCompares(float: Decoded, digits: nat, mant: nat, minus: nat, plus: nat, scale: nat, exponent: int)
    requires AtDigit(float, digits, mant, minus, plus, scale, exponent) && mant < scale
    ensures Decimal(digits, exponent) <= Binary(float.mant, float.exp) < Decimal(digits + 1, exponent)
    ensures Binary(float.mant, float.exp) - Binary(float.minus, float.exp) <= Decimal(digits, exponent) <==>
        mant <= minus
    ensures Binary(float.mant, float.exp) - Binary(float.minus, float.exp) < Decimal(digits, exponent) <==> mant < minus
    ensures Decimal(digits + 1, exponent) <= Binary(float.mant, float.exp) + Binary(float.plus, float.exp)
       <==> scale <= mant + plus
    ensures Decimal(digits + 1, exponent) < Binary(float.mant, float.exp) + Binary(float.plus, float.exp)
       <==> scale < mant + plus
    ensures RoundsUp(float, digits, exponent) <==> scale <= 2 * mant
  {
    hide Exp, Binary, Decimal, AtDigit, Between;
    StateBetween(float, digits, mant, minus, plus, scale, exponent);
    TestsInReals(Binary(float.mant, float.exp), Binary(float.minus, float.exp), Binary(float.plus, float.exp),
      Decimal(digits, exponent), Decimal(digits + 1, exponent), digits as real, mant as real, minus as real,
      plus as real, scale as real, Exp(10, exponent));
  }

  /** The float is at least half way from the digits to the digits rounded up. */
  ghost predicate RoundsUp(float: Decoded, digits: nat, exponent: int) {
    Decimal(digits + 1, exponent) - Binary(float.mant, float.exp)
      <= Binary(float.mant, float.exp) - Decimal(digits, exponent)
  }

  lemma DecimalIs(digits: nat, exponent: int)
    ensures Decimal(digits, exponent) == digits as real * Exp(10, exponent)
    ensures Decimal(digits + 1, exponent) == (digits as real + 1.0) * Exp(10, exponent)
  {}

  /** The state over the reals: `value` lies mant/scale of a unit above `low`, and `high` is one unit above `low`. */
  ghost predicate Between(value: real, below: real, above: real, low: real, high: real, digits: real, mant: real,
                          minus: real, plus: real, scale: real, unit: real) {
    && unit > 0.0 && 0.0 <= mant < scale
    && low == digits * unit && high == (digits + 1.0) * unit
    && value * scale == (mant + digits * scale) * unit
    && below * scale == minus * unit && above * scale == plus * unit
  }

  lemma StateBetween(float: Decoded, digits: nat, mant: nat, minus: nat, plus: nat, scale: nat, exponent: int)
    requires AtDigit(float, digits, mant, minus, plus, scale, exponent) && mant < scale
    ensures Between(Binary(float.mant, float.exp), Binary(float.minus, float.exp), Binary(float.plus, float.exp),
                    Decimal(digits, exponent), Decimal(digits + 1, exponent), digits as real, mant as real,
                    minus as real, plus as real, scale as real, Exp(10, exponent))
  {
    hide Exp, Binary;
    DecimalIs(digits, exponent);
    ProductAsReal(digits, scale);
  }

  lemma BinarySplits(mant: nat, minus: nat, plus: nat, exp: int)
    ensures Binary(mant - minus, exp) == Binary(mant, exp) - Binary(minus, exp)
    ensures Binary(mant + plus, exp) == Binary(mant, exp) + Binary(plus, exp)
  {
    hide Exp;
    RealDistributes(mant as real, minus as real, plus as real, Exp(2, exp));
  }

  lemma RealDistributes(a: real, b: real, c: real, unit: real)
    ensures (a - b) * unit == a * unit - b * unit
    ensures (a + c) * unit == a * unit + c * unit
  {}

  lemma BinaryPositive(units: nat, exp: int)
    requires units > 0
    ensures Binary(units, exp) > 0.0
  {
    hide Exp;
    RealPositive(units as real, Exp(2, exp));
  }

  lemma RealPositive(a: real, b: real)
    requires a > 0.0 && b > 0.0
    ensures a * b > 0.0
  {}

  lemma TestsInReals(value: real, below: real, above: real, low: real, high: real, digits: real, mant: real,
                     minus: real, plus: real, scale: real, unit: real)
    requires Between(value, below, above, low, high, digits, mant, minus, plus, scale, unit)
    ensures low <= value < high
    ensures value - below <= low <==> mant <= minus
    ensures value - below < low <==> mant < minus
    ensures high <= value + above <==> scale <= mant + plus
    ensures high < value + above <==> scale < mant + plus
    ensures high - value <= value - low <==> scale <= 2.0 * mant
  {
    var under, over := value - low, high - value;
    assert under * scale == mant * unit by {
      assert (mant + digits * scale) * unit == mant * unit + digits * unit * scale;
      assert under * scale == value * scale - digits * unit * scale;
    }
    assert over * scale == (scale - mant) * unit by {
      assert under + over == unit;
      assert (under + over) * scale == under * scale + over * scale;
    }
    SameSign(under, scale, mant, unit);
    SameSign(over, scale, scale - mant, unit);
    assert (below - under) * scale == (minus - mant) * unit;
    SameSign(below - under, scale, minus - mant, unit);
    assert (above - over) * scale == (plus - (scale - mant)) * unit;
    SameSign(above - over, scale, plus - (scale - mant), unit);
    assert (under - over) * scale == (mant - (scale - mant)) * unit;
    SameSign(under - over, scale, mant - (scale - mant), unit);
  }

  lemma SameSign(a: real, scale: real, b: real, unit: real)
    requires scale > 0.0 && unit > 0.0 && a * scale == b * unit
    ensures a > 0.0 <==> b > 0.0
    ensures a >= 0.0 <==> b >= 0.0
  {
    Sign(a, scale);
    Sign(b, unit);
  }

  lemma Sign(a: real, unit: real)
    requires unit > 0.0
    ensures a > 0.0 <==> a * unit > 0.0
    ensures a >= 0.0 <==> a * unit >= 0.0
  {}

  lemma DecimalsGrow(low: nat, high: nat, exponent: int)
    requires low <= high
    ensures Decimal(low, exponent) <= Decimal(high, exponent)
    ensures low < high ==> Decimal(low, exponent) < Decimal(high, exponent)
  {
    hide Exp;
    var difference := (high - low) as real * Exp(10, exponent);
    Sign((high - low) as real, Exp(10, exponent));
    assert Decimal(high, exponent) == Decimal(low, exponent) + difference;
  }

  /** When neither the digits nor the digits rounded up are in the interval, nothing that short is. */
  lemma NothingAround(float: Decoded, digits: nat, exponent: int)
    requires Decimal(digits, exponent) <= Binary(float.mant, float.exp) < Decimal(digits + 1, exponent)
    requires float.minus > 0 && float.plus > 0
    requires !InInterval(float, digits, exponent) && !InInterval(float, digits + 1, exponent)
    ensures NoneIn(float, exponent)
  {
    forall other: nat ensures !InInterval(float, other, exponent) {
      OneSide(float, digits, other, exponent);
    }
  }

  /** An interval around the float reaches another decimal only over its own neighbours. */
  lemma OneSide(float: Decoded, digits: nat, other: nat, exponent: int)
    requires Decimal(digits, exponent) <= Binary(float.mant, float.exp) < Decimal(digits + 1, exponent)
    requires float.minus > 0 && float.plus > 0
    ensures other <= digits && InInterval(float, other, exponent) ==> InInterval(float, digits, exponent)
    ensures digits < other && InInterval(float, other, exponent) ==> InInterval(float, digits + 1, exponent)
  {
    BinarySplits(float.mant, float.minus, float.plus, float.exp);
    BinaryPositive(float.minus, float.exp);
    BinaryPositive(float.plus, float.exp);
    if other <= digits {
      DecimalsGrow(other, digits, exponent);
    } else {
      DecimalsGrow(digits + 1, other, exponent);
    }
    hide Binary, Decimal;
  }

  /** The choice between rounding down and up. */
  lemma Chosen(float: Decoded, digits: nat, exponent: int, down: bool, up: bool, half: bool)
    requires Decimal(digits, exponent) <= Binary(float.mant, float.exp) < Decimal(digits + 1, exponent)
    requires float.minus > 0 && float.plus > 0
    requires down == InInterval(float, digits, exponent) && up == InInterval(float, digits + 1, exponent)
    requires half == RoundsUp(float, digits, exponent)
    requires (down || up) && NoneIn(float, exponent + 1)
    ensures Shortest(float, if up && (!down || half) then digits + 1 else digits, exponent)
  {
    var chosen := if up && (!down || half) then digits + 1 else digits;
    forall other: nat | InInterval(float, other, exponent)
      ensures Distance(float, chosen, exponent) <= Distance(float, other, exponent)
      ensures Distance(float, chosen, exponent) == Distance(float, other, exponent) ==> other <= chosen
    {
      OneSide(float, digits, other, exponent);
      if other <= digits {
        DecimalsGrow(other, digits, exponent);
      } else {
        DecimalsGrow(digits + 1, other, exponent);
      }
      hide Binary, Decimal, InInterval;
    }
  }

  // ---- Sizes ----

  /** Small enough to be multiplied by sixty-four without losing a limb. */
  ghost predicate Moderate(number: nat) {
    number < Pow(2, 2500)
  }

  lemma ModerateFits(number: nat, larger: nat)
    requires Moderate(number) && larger <= 64 * number
    ensures Wrapped(larger) == larger && larger < Capacity()
  {
    TwoTo32(LIMBS);
    assert Pow(2, 3) == 8;
    PowSum(2, 3, 8, 3, 8, 6, 64);
    PowAdd(2, 6, 2500);
    PowGrows(2, 2506, 32 * LIMBS);
  }

  lemma Magnitude(number: nat, bits: nat, tens: nat)
    requires number <= 0x80_0000_0000_0000 && bits <= 1076 && tens <= 324
    ensures Moderate(number * Pow(2, bits)) && Moderate(number * Pow(2, bits) * Pow(10, tens))
    ensures Moderate(number)
  {
    TwoTo55();
    PowMonotone(10, 16, tens);
    assert Pow(2, 4) == 16;
    PowOfPow(2, 4, tens);
    PowGrows(2, 4 * tens, 1296);
    PowGrows(2, bits, 1076);
    PowAdd(2, 55, 1076);
    PowAdd(2, 1131, 1296);
    PowStep(2, 2427, 2500);
    PowStep(2, 1131, 2427);
    PowStep(2, 55, 1131);
    hide Pow;
    BoundProducts(number, Pow(2, bits), Pow(10, tens), Pow(2, 55), Pow(2, 1076), Pow(2, 1296), Pow(2, 1131),
      Pow(2, 2427));
  }

  lemma BoundProducts(a: nat, b: nat, c: nat, x: nat, y: nat, z: nat, xy: nat, xyz: nat)
    requires a <= x && b <= y && c <= z && xy == x * y && xyz == xy * z
    ensures a * b <= xy && a * b * c <= xyz
  {
    MulMonotone(a, x, b, y);
    MulMonotone(a * b, xy, c, z);
  }

  lemma PowStep(base: nat, low: nat, high: nat)
    requires base > 1 && low < high
    ensures Pow(base, low) < Pow(base, high)
  {
    PowGrows(base, low, high - 1);
    PowPositive(base, high - 1);
    MulMonotone(2, base, Pow(base, high - 1), Pow(base, high - 1));
  }

  lemma TwoTo55()
    ensures Pow(2, 55) == 0x80_0000_0000_0000
  {
    assert Pow(2, 4) == 16;
    PowSum(2, 4, 16, 4, 16, 8, 256);
    PowSum(2, 8, 256, 8, 256, 16, 65536);
    PowSum(2, 16, 65536, 16, 65536, 32, 0x1_0000_0000);
    PowSum(2, 32, 0x1_0000_0000, 16, 65536, 48, 0x1_0000_0000_0000);
    assert Pow(2, 3) == 8;
    PowSum(2, 48, 0x1_0000_0000_0000, 4, 16, 52, 0x10_0000_0000_0000);
    PowSum(2, 52, 0x10_0000_0000_0000, 3, 8, 55, 0x80_0000_0000_0000);
  }

  // ---- Setting up ----

  function Part(exponent: int): (part: nat) {
    if exponent < 0 then 0 else exponent
  }

  /** `units` of two to the `exp`, as an integer over the scale of `exp` and `k`. */
  ghost function Scaled(units: nat, exp: int, k: int): nat {
    units * Pow(2, Part(exp)) * Pow(10, Part(-k))
  }

  ghost function ScaleOf(exp: int, k: int): (scale: nat)
    ensures scale > 0
  {
    PowPositive(2, Part(-exp));
    PowPositive(10, Part(k));
    MulMonotone(1, 1 * Pow(2, Part(-exp)), 1, Pow(10, Part(k)));
    1 * Pow(2, Part(-exp)) * Pow(10, Part(k))
  }

  lemma ScaledIs(units: nat, exp: int, k: int)
    ensures Binary(units, exp) * ScaleOf(exp, k) as real == Scaled(units, exp, k) as real * Exp(10, k)
  {
    hide *;
    ScaledParts(units, exp, k);
    Clears(2, exp);
    Clears(10, k);
    ScaledInReals(units, Pow(2, Part(exp)), Pow(2, Part(-exp)), Pow(10, Part(-k)), Pow(10, Part(k)), Exp(2, exp),
      Exp(10, k), Binary(units, exp), ScaleOf(exp, k), Scaled(units, exp, k));
  }

  lemma ScaledParts(units: nat, exp: int, k: int)
    ensures Binary(units, exp) == units as real * Exp(2, exp)
    ensures ScaleOf(exp, k) == 1 * Pow(2, Part(-exp)) * Pow(10, Part(k))
    ensures Scaled(units, exp, k) == units * Pow(2, Part(exp)) * Pow(10, Part(-k))
  {}

  lemma ScaledInReals(units: nat, over: nat, under: nat, tenUnder: nat, tenOver: nat, binary: real, decimal: real,
                      value: real, scale: nat, scaled: nat)
    requires binary * under as real == over as real && decimal * tenUnder as real == tenOver as real
    requires value == units as real * binary && scale == 1 * under * tenOver && scaled == units * over * tenUnder
    ensures value * scale as real == scaled as real * decimal
  {
    ProductAsReal(under, tenOver);
    ProductAsReal(units * over, tenUnder);
    ProductAsReal(units, over);
    ClearBoth(units as real, binary, under as real, over as real, decimal, tenUnder as real, tenOver as real);
  }

  lemma Clears(base: nat, exponent: int)
    requires base > 0
    ensures Exp(base, exponent) * Pow(base, Part(-exponent)) as real == Pow(base, Part(exponent)) as real
  {
    assert Pow(base, 0) == 1;
    PowPositive(base, Part(-exponent));
    if exponent < 0 {
      Undivides(Pow(base, -exponent));
    }
  }

  lemma Undivides(number: nat)
    requires number > 0
    ensures 1.0 / number as real * number as real == 1.0
  {}

  lemma ClearBoth(units: real, binary: real, under: real, over: real, decimal: real, tenUnder: real, tenOver: real)
    requires binary * under == over && decimal * tenUnder == tenOver
    ensures units * binary * (under * tenOver) == units * over * tenUnder * decimal
  {
    assert units * binary * (under * tenOver) == units * (binary * under) * tenOver;
    assert units * over * tenUnder * decimal == units * over * (decimal * tenUnder);
  }

  lemma AtStart(float: Decoded, k: int)
    ensures AtDigit(float, 0, Scaled(float.mant, float.exp, k), Scaled(float.minus, float.exp, k),
                    Scaled(float.plus, float.exp, k), ScaleOf(float.exp, k), k)
  {
    hide Scaled, ScaleOf, Binary, Exp;
    ScaledIs(float.mant, float.exp, k);
    ScaledIs(float.minus, float.exp, k);
    ScaledIs(float.plus, float.exp, k);
  }
}
