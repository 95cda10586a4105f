/** No decimal with fewer digits than the shortest in a float's interval reads back as the float. */
module FewestDigits {
  import opened Powers
  import opened Floats
  import opened ShortestDigits
  import opened DigitGeneration
  import opened ReadBack

  /**
    * The decimal reads back as the float, none with fewer than `count` digits does, wherever its point is, and of those
    * that do and end at the same power of ten none is nearer to the float.
    */
  ghost predicate FewestBack(bits: nat, digits: nat, count: nat, exponent: int)
    requires Positive(bits)
  {
    && RoundsTo(Decimal(digits, exponent), bits)
    && (forall fewer: nat, power: int {:trigger Decimal(fewer, power)} ::
          Short(fewer, count) ==> !RoundsTo(Decimal(fewer, power), bits))
    && (forall other: nat {:trigger Decimal(other, exponent)} ::
          RoundsTo(Decimal(other, exponent), bits) ==>
            Distance(Decode(bits), digits, exponent) <= Distance(Decode(bits), other, exponent))
  }

  /** A number of fewer than `count` digits. */
  predicate Short(number: nat, count: nat) {
    count > 0 && number < Pow(10, count - 1)
  }

  // ---- Decimals ----

  lemma Coarser(digits: nat, exponent: int, more: nat)
    ensures Decimal(digits, exponent + more) == Decimal(digits * Pow(10, more), exponent)
  {
    hide *;
    var product: nat := digits * Pow(10, more);
    DecimalProduct(digits, exponent + more);
    DecimalProduct(product, exponent);
    ExpProduct(exponent, more);
    NatProduct(digits, Pow(10, more));
    TimesAssociate(digits as real, Pow(10, more) as real, Exp(10, exponent), Exp(10, exponent + more),
                   product as real, Decimal(digits, exponent + more), Decimal(product, exponent));
  }

  lemma DecimalProduct(digits: nat, exponent: int)
    ensures Product(Decimal(digits, exponent), digits as real, Exp(10, exponent))
  {
    hide Exp;
  }

  lemma ExpProduct(exponent: int, more: nat)
    ensures Product(Exp(10, exponent + more), Exp(10, exponent), Pow(10, more) as real)
  {
    hide Exp, Pow;
    ExpAdd(10, exponent, more);
  }

  lemma NatProduct(left: nat, right: nat)
    ensures Product((left * right) as real, left as real, right as real)
  {
    ProductAsReal(left, right);
  }

  lemma TimesAssociate(digits: real, power: real, unit: real, larger: real, product: real, number: real, same: real)
    requires Product(larger, unit, power) && Product(number, digits, larger)
    requires Product(product, digits, power) && Product(same, product, unit)
    ensures number == same
  {}

  lemma DecimalGrows(low: nat, high: nat, exponent: int)
    ensures low <= high ==> Decimal(low, exponent) <= Decimal(high, exponent)
    ensures low < high ==> Decimal(low, exponent) < Decimal(high, exponent)
  {
    hide Exp;
    if low < high {
      GrowsInReals(low as real, high as real, Exp(10, exponent));
    }
  }

  /** With a smaller power of ten the decimal is no larger. */
  lemma FinerIsSmaller(digits: nat, exponent: int, more: nat)
    ensures Decimal(digits, exponent) <= Decimal(digits, exponent + more)
  {
    hide Decimal;
    Coarser(digits, exponent, more);
    PowPositive(10, more);
    MulMonotone(digits, digits, 1, Pow(10, more));
    DecimalGrows(digits, digits * Pow(10, more), exponent);
  }

  // ---- The interval ----

  /** A decimal between two in the interval is in the interval. */
  lemma InBetween(float: Decoded, low: nat, lowPower: int, digits: nat, exponent: int, high: nat, highPower: int)
    requires InInterval(float, low, lowPower) && InInterval(float, high, highPower)
    requires Decimal(low, lowPower) <= Decimal(digits, exponent) <= Decimal(high, highPower)
    ensures InInterval(float, digits, exponent)
  {
    hide Decimal, Binary;
  }

  lemma NothingIsOutside(float: Decoded, power: int)
    requires Reasonable(float)
    ensures !InInterval(float, 0, power)
  {
    BinaryPositive(float.mant - float.minus, float.exp);
    assert Decimal(0, power) == 0.0;
    hide Binary, Decimal;
  }

  /** Digits in the interval with no shorter ones: a decimal with fewer digits is outside. */
  lemma FewerAreOutside(float: Decoded, digits: nat, count: nat, exponent: int, fewer: nat, power: int)
    requires Reasonable(float) && InInterval(float, digits, exponent) && NoneIn(float, exponent + 1)
    requires count > 0 && Pow(10, count - 1) <= digits && Short(fewer, count)
    ensures !InInterval(float, fewer, power)
  {
    hide Binary, Decimal, InInterval, Reasonable;
    if power > exponent {
      Coarser(fewer, exponent + 1, power - exponent - 1);
      assert !InInterval(float, fewer * Pow(10, power - exponent - 1), exponent + 1);
      SameDecimal(float, fewer, power, fewer * Pow(10, power - exponent - 1), exponent + 1);
    } else if count == 1 {
      assert Pow(10, 0) == 1;
      NothingIsOutside(float, power);
    } else if InInterval(float, fewer, power) {
      var round := Pow(10, count - 2);
      assert Pow(10, count - 1) == round * Pow(10, 1) by { PowAdd(10, count - 2, 1); }
      FinerIsSmaller(fewer, power, exponent - power);
      DecimalGrows(fewer, Pow(10, count - 1), exponent);
      DecimalGrows(Pow(10, count - 1), digits, exponent);
      Coarser(round, exponent, 1);
      InBetween(float, fewer, power, round, exponent + 1, digits, exponent);
    }
  }

  lemma SameDecimal(float: Decoded, left: nat, leftPower: int, right: nat, rightPower: int)
    requires Decimal(left, leftPower) == Decimal(right, rightPower)
    ensures InInterval(float, left, leftPower) <==> InInterval(float, right, rightPower)
  {
    hide Decimal, Binary;
  }

  /** Decimals that read back as a float are in its interval, but for the smallest normal float. */
  lemma BackIsInside(bits: nat, digits: nat, exponent: int)
    requires Positive(bits) && bits != IMPLICIT && RoundsTo(Decimal(digits, exponent), bits)
    ensures InInterval(Decode(bits), digits, exponent)
  {
    DecodeParity(bits);
    DecodeHigh(bits);
    DecodeLow(bits);
    hide Binary, Decimal, FloatValue, Decode;
  }

  // ---- The smallest normal float ----

  /** The sixteen-digit decimals around it. */
  const BELOW: nat := 2225073858507201
  /** The nearest decimal of seventeen digits. */
  const NEAREST: nat := 22250738585072014

  lemma AroundSmallest()
    ensures 2 * BELOW * Pow(2, 1074) < (2 * IMPLICIT - 1) * Pow(10, 323)
    ensures (2 * IMPLICIT + 1) * Pow(10, 323) < 2 * (BELOW + 1) * Pow(2, 1074)
    ensures (4 * IMPLICIT - 1) * Pow(10, 324) <= NEAREST * Pow(2, 1076) <= (4 * IMPLICIT + 1) * Pow(10, 324)
  {
    hide Pow;
    InLowestTerms();
    TenSplits(323);
    TenSplits(324);
    PowAdd(2, 751, 323);
    PowAdd(2, 752, 324);
    PowPositive(2, 323);
    PowPositive(2, 324);
    CommonTwos(2 * BELOW, Pow(2, 751), 2 * IMPLICIT - 1, Pow(5, 323), Pow(2, 323));
    CommonTwos(2 * (BELOW + 1), Pow(2, 751), 2 * IMPLICIT + 1, Pow(5, 323), Pow(2, 323));
    CommonTwos(NEAREST, Pow(2, 752), 4 * IMPLICIT - 1, Pow(5, 324), Pow(2, 324));
    CommonTwos(NEAREST, Pow(2, 752), 4 * IMPLICIT + 1, Pow(5, 324), Pow(2, 324));
  }

  lemma InLowestTerms()
    ensures 2 * BELOW * Pow(2, 751) < (2 * IMPLICIT - 1) * Pow(5, 323)
    ensures (2 * IMPLICIT + 1) * Pow(5, 323) < 2 * (BELOW + 1) * Pow(2, 751)
    ensures (4 * IMPLICIT - 1) * Pow(5, 324) <= NEAREST * Pow(2, 752) <= (4 * IMPLICIT + 1) * Pow(5, 324)
  {
    assert Pow(2, 752) == 2 * Pow(2, 751) && Pow(5, 324) == 5 * Pow(5, 323);
    FiveTo323();
    TwoTo751();
    hide Pow;
  }

  lemma CommonTwos(left: nat, twos: nat, right: nat, fives: nat, common: nat)
    requires common > 0
    ensures left * twos < right * fives ==> left * (twos * common) < right * (common * fives)
    ensures left * twos > right * fives ==> left * (twos * common) > right * (common * fives)
    ensures left * twos <= right * fives ==> left * (twos * common) <= right * (common * fives)
    ensures left * twos >= right * fives ==> left * (twos * common) >= right * (common * fives)
  {
    MulAssociates(left, twos, common);
    MulAssociates(right, fives, common);
    assert common * fives == fives * common;
    InOrder(left * twos, right * fives, common);
  }

  lemma InOrder(left: nat, right: nat, factor: nat)
    requires factor > 0
    ensures left < right <==> left * factor < right * factor
    ensures left > right <==> left * factor > right * factor
  {
    if left < right {
      MulStrict(factor, left, right);
    } else if right < left {
      MulStrict(factor, right, left);
    }
  }

  /** A decimal and a binary number compare like their cleared integers. */
  lemma Compares(digits: nat, tens: nat, units: nat, twos: nat)
    ensures digits * Pow(2, twos) < units * Pow(10, tens) <==> Decimal(digits, 0 - tens) < Binary(units, 0 - twos)
    ensures digits * Pow(2, twos) > units * Pow(10, tens) <==> Decimal(digits, 0 - tens) > Binary(units, 0 - twos)
  {
    hide *;
    var left: nat, right: nat := digits * Pow(2, twos), units * Pow(10, tens);
    Reciprocal(10, tens);
    Reciprocal(2, twos);
    DecimalProduct(digits, 0 - tens);
    BinaryIs(units, 0 - twos);
    NatProduct(digits, Pow(2, twos));
    NatProduct(units, Pow(10, tens));
    ComparesInReals(digits as real, Exp(10, 0 - tens), Pow(10, tens) as real, units as real, Exp(2, 0 - twos),
                    Pow(2, twos) as real, left as real, right as real, Decimal(digits, 0 - tens),
                    Binary(units, 0 - twos));
  }

  lemma Reciprocal(base: nat, power: nat)
    requires base > 0
    ensures Product(1.0, Exp(base, 0 - power), Pow(base, power) as real)
  {
    ClearsProducts(base, 0 - power);
    PartIs(0 - power);
    assert Pow(base, 0) == 1;
    hide Exp, Pow, Product;
  }

  lemma ComparesInReals(digits: real, tenth: real, tens: real, units: real, half: real, twos: real, left: real,
                        right: real, decimal: real, binary: real)
    requires Product(1.0, tenth, tens) && Product(1.0, half, twos) && tenth > 0.0 && half > 0.0
    requires Product(left, digits, twos) && Product(right, units, tens)
    requires Product(decimal, digits, tenth) && Product(binary, units, half)
    ensures left < right <==> decimal < binary
    ensures left > right <==> decimal > binary
  {
    var unit := tenth * half;
    assert unit > 0.0;
    assert decimal == left * unit by {
      assert left * unit == (digits * tenth) * (half * twos);
    }
    assert binary == right * unit by {
      assert right * unit == (units * half) * (tenth * tens);
    }
    OrderedTimes(left, right, unit);
  }

  lemma OrderedTimes(left: real, right: real, unit: real)
    requires unit > 0.0
    ensures left < right <==> left * unit < right * unit
    ensures left > right <==> left * unit > right * unit
  {
    if left < right {
      GrowsInReals(left, right, unit);
    } else if right < left {
      GrowsInReals(right, left, unit);
    }
  }

  /** Twice what reads back as the smallest normal float lies between these two. */
  lemma SmallestEnds()
    ensures FloatValue(IMPLICIT - 1) + FloatValue(IMPLICIT) == Binary(2 * IMPLICIT - 1, -1074)
    ensures FloatValue(IMPLICIT) + FloatValue(IMPLICIT + 1) == Binary(2 * IMPLICIT + 1, -1074)
  {
    assert FloatValue(IMPLICIT - 1) == Binary(IMPLICIT - 1, -1074);
    assert FloatValue(IMPLICIT) == Binary(IMPLICIT, -1074);
    assert FloatValue(IMPLICIT + 1) == Binary(IMPLICIT + 1, -1074);
    hide FloatValue, Exp;
    AddsUp(IMPLICIT - 1, IMPLICIT, -1074);
    AddsUp(IMPLICIT, IMPLICIT + 1, -1074);
  }

  lemma AddsUp(left: int, right: int, exp: int)
    ensures Binary(left, exp) + Binary(right, exp) == Binary(left + right, exp)
  {
    hide Exp;
    RealDistributes(left as real, 0.0, right as real, Exp(2, exp));
  }

  lemma Twice(digits: nat, exponent: int)
    ensures Decimal(2 * digits, exponent) == 2.0 * Decimal(digits, exponent)
  {
    hide Exp;
    DoubledInReals(digits as real, Exp(10, exponent));
  }

  lemma DoubledInReals(digits: real, unit: real)
    ensures (2.0 * digits) * unit == 2.0 * (digits * unit)
  {}

  lemma BelowSmallest(number: real)
    requires number <= Decimal(BELOW, -323)
    ensures !RoundsTo(number, IMPLICIT)
  {
    AroundSmallest();
    Compares(2 * BELOW, 323, 2 * IMPLICIT - 1, 1074);
    Twice(BELOW, -323);
    SmallestEnds();
    hide Decimal, Binary, FloatValue, Pow;
  }

  lemma AboveSmallest(number: real)
    requires number >= Decimal(BELOW + 1, -323)
    ensures !RoundsTo(number, IMPLICIT)
  {
    AroundSmallest();
    Compares(2 * (BELOW + 1), 323, 2 * IMPLICIT + 1, 1074);
    Twice(BELOW + 1, -323);
    SmallestEnds();
    hide Decimal, Binary, FloatValue, Pow;
  }

  /** No multiple of that power of ten reads back as it. */
  lemma NoCoarse(digits: nat, power: int)
    requires power >= -323
    ensures !RoundsTo(Decimal(digits, power), IMPLICIT)
  {
    var multiple := digits * Pow(10, power + 323);
    Coarser(digits, -323, power + 323);
    hide RoundsTo, Decimal, Pow;
    if multiple <= BELOW {
      DecimalGrows(multiple, BELOW, -323);
      BelowSmallest(Decimal(digits, power));
    } else {
      DecimalGrows(BELOW + 1, multiple, -323);
      AboveSmallest(Decimal(digits, power));
    }
  }

  /** Nor does a smaller number of units of a smaller power. */
  lemma NoFine(digits: nat, size: nat, power: int)
    requires 15 <= size && digits < Pow(10, size) && power + size <= -308
    ensures !RoundsTo(Decimal(digits, power), IMPLICIT)
  {
    hide RoundsTo, Decimal;
    var exponent := -308 - size;
    FinerIsSmaller(digits, power, exponent - power);
    DecimalGrows(digits, Pow(10, size), exponent);
    PowAdd(10, 15, size - 15);
    Coarser(Pow(10, 15), exponent, size - 15);
    FifteenTens();
    DecimalGrows(Pow(10, 15), BELOW, -323);
    BelowSmallest(Decimal(digits, power));
  }

  lemma FifteenTens()
    ensures Pow(10, 15) <= BELOW
  {
    assert Pow(10, 3) == 1000;
    PowSum(10, 3, 1000, 3, 1000, 6, 1000000);
    PowSum(10, 6, 1000000, 6, 1000000, 12, 1000000000000);
    PowSum(10, 12, 1000000000000, 3, 1000, 15, 1000000000000000);
  }

  lemma SixteenMiss(fewer: nat, power: int)
    requires fewer < Pow(10, 16)
    ensures !RoundsTo(Decimal(fewer, power), IMPLICIT)
  {
    hide RoundsTo, Decimal, Pow;
    if power >= -323 {
      NoCoarse(fewer, power);
    } else {
      NoFine(fewer, 16, power);
    }
  }

  /** What reads back as it with up to seventeen digits ends at one power of ten only. */
  lemma OnePower(digits: nat, exponent: int)
    requires digits < Pow(10, 17) && RoundsTo(Decimal(digits, exponent), IMPLICIT)
    ensures exponent == -324
  {
    hide RoundsTo, Decimal, Pow;
    if exponent >= -323 {
      NoCoarse(digits, exponent);
    } else if exponent <= -325 {
      NoFine(digits, 17, exponent);
    }
  }

  ghost function Away(number: real, other: real): real {
    if number < other then other - number else number - other
  }

  lemma DistanceIs(float: Decoded, digits: nat, exponent: int)
    ensures Distance(float, digits, exponent) == Away(Decimal(digits, exponent), Binary(float.mant, float.exp))
  {
    hide Decimal, Binary;
  }

  lemma DecodedSmallest()
    ensures Decode(IMPLICIT) == Decoded(4 * IMPLICIT, 1, 2, -1076, true)
  {}

  /** One decimal in the interval is within a quarter of the space between floats. */
  lemma OneIsNear()
    ensures InInterval(Decode(IMPLICIT), NEAREST, -324)
    ensures Distance(Decode(IMPLICIT), NEAREST, -324) <= Binary(1, -1076)
  {
    DecodedSmallest();
    AroundSmallest();
    Compares(NEAREST, 324, 4 * IMPLICIT - 1, 1076);
    Compares(NEAREST, 324, 4 * IMPLICIT + 1, 1076);
    BinarySplits(4 * IMPLICIT, 1, 1, -1076);
    BinarySplits(4 * IMPLICIT, 1, 2, -1076);
    BinaryGrows(1, 2, -1076);
    DistanceIs(Decode(IMPLICIT), NEAREST, -324);
    hide Decimal, Binary, Distance, Decode, Pow;
  }

  /** What reads back and is not in the interval is farther away. */
  lemma OutsideIsFar(other: nat, exponent: int)
    requires RoundsTo(Decimal(other, exponent), IMPLICIT) && !InInterval(Decode(IMPLICIT), other, exponent)
    ensures Distance(Decode(IMPLICIT), other, exponent) > Binary(1, -1076)
  {
    DecodedSmallest();
    DecodeHigh(IMPLICIT);
    BinarySplits(4 * IMPLICIT, 1, 2, -1076);
    BinaryPositive(1, -1076);
    DistanceIs(Decode(IMPLICIT), other, exponent);
    hide Decimal, Binary, Distance, FloatValue, Decode;
  }

  lemma NearestOfSmallest(digits: nat, exponent: int, other: nat)
    requires digits < Pow(10, 17) && Shortest(Decode(IMPLICIT), digits, exponent)
    requires RoundsTo(Decimal(other, exponent), IMPLICIT)
    ensures Distance(Decode(IMPLICIT), digits, exponent) <= Distance(Decode(IMPLICIT), other, exponent)
  {
    hide Decimal, Binary, Distance, Decode, Pow, RoundsTo, InInterval, NoneIn;
    IntervalReadsBack(IMPLICIT, digits, exponent);
    OnePower(digits, exponent);
    OneIsNear();
    if !InInterval(Decode(IMPLICIT), other, exponent) {
      OutsideIsFar(other, exponent);
    }
  }

  // ---- All floats ----

  /** The shortest digits in the interval are the fewest that read back, and the nearest of those. */
  lemma ShortestIsFewest(bits: nat, digits: nat, count: nat, exponent: int)
    requires Positive(bits) && 1 <= count <= 17 && Pow(10, count - 1) <= digits < Pow(10, 17)
    requires Shortest(Decode(bits), digits, exponent)
    ensures FewestBack(bits, digits, count, exponent)
  {
    DecodeReasonable(bits);
    hide Decimal, Binary, Distance, Decode, Pow, RoundsTo, InInterval, NoneIn, Reasonable, Short;
    IntervalReadsBack(bits, digits, exponent);
    forall fewer: nat, power: int | Short(fewer, count) ensures !RoundsTo(Decimal(fewer, power), bits) {
      if bits == IMPLICIT {
        ShortIsSixteen(fewer, count);
        SixteenMiss(fewer, power);
      } else if RoundsTo(Decimal(fewer, power), bits) {
        BackIsInside(bits, fewer, power);
        FewerAreOutside(Decode(bits), digits, count, exponent, fewer, power);
      }
    }
    forall other: nat | RoundsTo(Decimal(other, exponent), bits)
      ensures Distance(Decode(bits), digits, exponent) <= Distance(Decode(bits), other, exponent)
    {
      if bits == IMPLICIT {
        NearestOfSmallest(digits, exponent, other);
      } else {
        BackIsInside(bits, other, exponent);
      }
    }
  }

  lemma ShortIsSixteen(number: nat, count: nat)
    requires Short(number, count) && count <= 17
    ensures number < Pow(10, 16)
  {
    PowGrows(10, count - 1, 16);
  }
}
