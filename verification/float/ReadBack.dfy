/** Reading a decimal back as the nearest float. */
module ReadBack {
  import opened Powers
  import opened Floats
  import opened ShortestDigits
  import opened DigitGeneration

  /** The float nearest to `number` is `bits`, where the even one of two equally near floats counts as nearest. */
  ghost predicate RoundsTo(number: real, bits: nat)
    requires Positive(bits)
  {
    var twice, below, above :=
      2.0 * number, FloatValue(bits - 1) + FloatValue(bits), FloatValue(bits) + FloatValue(bits + 1);
    if bits % 2 == 0 then below <= twice <= above else below < twice < above
  }

  lemma {:induction false} FloatsGrow(low: nat, high: nat)
    requires Positive(low) && low <= high && Positive(high)
    ensures FloatValue(low - 1) < FloatValue(low) <= FloatValue(high) < FloatValue(high + 1)
  {
    DecodeReasonable(high);
    DecodeValue(high);
    NextFloat(high);
    PreviousFloat(high);
    var float := Decode(high);
    hide FloatValue, Decode;
    BinaryGrows(float.mant - (if high == IMPLICIT then 4 else 2) * float.minus, float.mant, float.exp);
    BinaryGrows(float.mant, float.mant + 2 * float.plus, float.exp);
    if low < high {
      FloatsGrow(low, high - 1);
    }
  }

  lemma BinaryGrows(low: int, high: int, exp: int)
    requires low < high
    ensures Binary(low, exp) < Binary(high, exp)
  {
    hide Exp;
    GrowsInReals(low as real, high as real, Exp(2, exp));
  }

  lemma GrowsInReals(low: real, high: real, unit: real)
    requires low < high && unit > 0.0
    ensures low * unit < high * unit
  {}

  /** A decimal reads back as one float only. */
  lemma ReadsBackOnce(number: real, left: nat, right: nat)
    requires Positive(left) && Positive(right) && RoundsTo(number, left) && RoundsTo(number, right)
    ensures left == right
  {
    if left < right {
      NoTwo(number, left, right);
    } else if right < left {
      NoTwo(number, right, left);
    }
  }

  lemma NoTwo(number: real, low: nat, high: nat)
    requires Positive(low) && Positive(high) && low < high && RoundsTo(number, low)
    ensures !RoundsTo(number, high)
  {
    hide FloatValue;
    FloatsGrow(low, high);
    FloatsGrow(low + 1, high);
    if low + 1 < high {
      FloatsGrow(low + 1, high - 1);
    }
  }

  // ---- A short decimal is never half way between two subnormals ----

  lemma {:induction false} FivesAreOdd(exponent: nat)
    ensures Pow(5, exponent) % 2 == 1
  {
    if exponent > 0 {
      FivesAreOdd(exponent - 1);
    }
  }

  lemma OddTimesOdd(left: nat, right: nat)
    requires left % 2 == 1 && right % 2 == 1
    ensures left * right % 2 == 1
  {
    var l, r := left / 2, right / 2;
    assert left * right == 2 * (l * right + r) + 1 by {
      assert left * right == (2 * l + 1) * right == 2 * (l * right) + right;
    }
  }

  lemma EvenTimes(number: nat, exponent: nat)
    requires exponent > 0
    ensures number * Pow(2, exponent) % 2 == 0
  {
    assert number * Pow(2, exponent) == 2 * (number * Pow(2, exponent - 1)) by {
      MulAssociates(number, 2, Pow(2, exponent - 1));
      assert number * 2 == 2 * number;
    }
  }

  lemma HugeFives()
    ensures Pow(10, 17) < Pow(5, 1075)
  {
    PowMonotone(10, 16, 17);
    assert Pow(2, 4) == 16;
    PowOfPow(2, 4, 17);
    PowMonotone(4, 5, 1075);
    assert Pow(2, 2) == 4;
    PowOfPow(2, 2, 1075);
    PowStep(2, 68, 2150);
  }

  /** In integers: too few digits and twos against an odd number of halves. */
  lemma NotHalfwayInIntegers(digits: nat, n: nat, odd: nat)
    requires digits < Pow(10, 17) && odd % 2 == 1
    ensures digits * Pow(2, 1075) != odd * Pow(10, n)
  {
    hide *;
    FivesAreOdd(n);
    OddTimesOdd(odd, Pow(5, n));
    PowPositive(2, n);
    TenSplits(n);
    if n < 1075 {
      PowAdd(2, 1075 - n, n);
      EvenTimes(digits, 1075 - n);
      EvenNotOdd(digits * Pow(2, 1075 - n), odd * Pow(5, n));
      CommonFactor(digits, Pow(2, 1075 - n), odd, Pow(5, n), Pow(2, n), Pow(2, 1075), Pow(10, n));
    } else {
      HugeFives();
      PowGrows(5, 1075, n);
      PowGrows(2, 1075, n);
      PowPositive(2, 1075);
      TooLarge(digits, odd, Pow(5, n), Pow(2, 1075), Pow(2, n), Pow(10, n));
    }
  }

  lemma EvenNotOdd(even: nat, odd: nat)
    requires even % 2 == 0 && odd % 2 == 1
    ensures even != odd
  {}

  lemma CommonFactor(digits: nat, rest: nat, odd: nat, fives: nat, twos: nat, whole: nat, tens: nat)
    requires digits * rest != odd * fives && twos > 0 && whole == rest * twos && tens == twos * fives
    ensures digits * whole != odd * tens
  {
    MulAssociates(digits, rest, twos);
    MulAssociates(odd, fives, twos);
    assert tens == fives * twos;
    DifferentTimes(digits * rest, odd * fives, twos);
  }

  lemma DifferentTimes(left: nat, right: nat, factor: nat)
    requires left != right && factor > 0
    ensures left * factor != right * factor
  {
    if left < right {
      MulStrict(factor, left, right);
    } else {
      MulStrict(factor, right, left);
    }
  }

  lemma TooLarge(digits: nat, odd: nat, fives: nat, low: nat, high: nat, tens: nat)
    requires digits < fives && low <= high && 0 < low && odd % 2 == 1 && tens == high * fives
    ensures digits * low < odd * tens
  {
    MulStrict(low, digits, fives);
    MulMonotone(fives, fives, low, high);
    MulMonotone(1, odd, tens, tens);
    assert fives * high == high * fives;
  }

  lemma NotHalfway(digits: nat, exponent: int, odd: nat)
    requires digits < Pow(10, 17) && odd % 2 == 1
    ensures Decimal(digits, exponent) != Binary(odd, -1075)
  {
    hide *;
    if Decimal(digits, exponent) == Binary(odd, -1075) {
      HalfwayInIntegers(digits, exponent, odd);
      PartIs(exponent);
      if exponent >= 0 {
        EvenTimes(digits * Pow(10, exponent), 1075);
        EvenNotOdd(digits * Pow(10, exponent) * Pow(2, 1075), odd);
      } else {
        NotHalfwayInIntegers(digits, -exponent, odd);
      }
    }
  }

  lemma PartIs(exponent: int)
    ensures Part(exponent) == if exponent < 0 then 0 else exponent
    ensures Part(-exponent) == if exponent < 0 then -exponent else 0
    ensures Pow(10, 0) == 1
  {}

  lemma HalfwayInIntegers(digits: nat, exponent: int, odd: nat)
    requires Decimal(digits, exponent) == Binary(odd, -1075)
    ensures digits * Pow(10, Part(exponent)) * Pow(2, 1075) == odd * Pow(10, Part(-exponent))
  {
    hide *;
    ClearsProducts(10, exponent);
    ClearsProducts(2, -1075);
    SameProducts(digits, exponent, odd);
    PartIs(-1075);
    HalfwayCleared(digits, odd, Exp(10, exponent), Exp(2, -1075), Pow(10, Part(-exponent)), Pow(10, Part(exponent)),
      Pow(2, 1075), Binary(odd, -1075));
  }

  lemma SameProducts(digits: nat, exponent: int, odd: nat)
    ensures Product(Decimal(digits, exponent), digits as real, Exp(10, exponent))
    ensures Product(Binary(odd, -1075), odd as real, Exp(2, -1075))
    ensures Pow(2, 0) == 1
  {
    hide Exp;
  }

  lemma ClearsProducts(base: nat, exponent: int)
    requires base > 0
    ensures Product(Pow(base, Part(exponent)) as real, Exp(base, exponent), Pow(base, Part(-exponent)) as real)
  {
    Clears(base, exponent);
    hide Exp, Pow;
  }

  lemma HalfwayCleared(digits: nat, odd: nat, decimal: real, binary: real, under: nat, over: nat, twos: nat,
                       number: real)
    requires Product(number, digits as real, decimal) && Product(number, odd as real, binary)
    requires Product(over as real, decimal, under as real) && Product(1.0, binary, twos as real)
    ensures digits * over * twos == odd * under
  {
    ProductAsReal(digits * over, twos);
    ProductAsReal(digits, over);
    ProductAsReal(odd, under);
    HalfwayInReals(digits as real, odd as real, decimal, binary, under as real, over as real, twos as real);
  }

  lemma HalfwayInReals(digits: real, odd: real, decimal: real, binary: real, under: real, over: real, twos: real)
    requires digits * decimal == odd * binary && decimal * under == over && binary * twos == 1.0
    ensures digits * over * twos == odd * under
  {
    assert digits * over * twos == (digits * decimal) * (under * twos);
    assert odd * under == (odd * binary) * (under * twos);
  }

  // ---- The interval reads back ----

  /** Every decimal of up to seventeen digits in the interval of a float reads back as that float. */
  lemma IntervalReadsBack(bits: nat, digits: nat, exponent: int)
    requires Positive(bits) && digits < Pow(10, 17) && InInterval(Decode(bits), digits, exponent)
    ensures RoundsTo(Decimal(digits, exponent), bits)
  {
    hide Binary, Decimal, FloatValue, Decode, Pow, Exp, InInterval, RoundsTo, Even;
    DecodeParity(bits);
    DecodeHigh(bits);
    DecodeLow(bits);
    SubnormalEnds(bits, digits, exponent);
    RoundsBackWhen(bits, Decode(bits), digits, exponent);
  }

  predicate Even(bits: nat) {
    bits % 2 == 0
  }

  lemma DecodeParity(bits: nat)
    requires Positive(bits)
    ensures Decode(bits).inclusive <==> bits < IMPLICIT || Even(bits)
    ensures bits < IMPLICIT ==> Decode(bits) == Decoded(2 * bits, 1, 1, -1075, true)
  {
    var biased, fraction := bits / MANTISSAS, bits % MANTISSAS;
    assert bits == 2 * (0x8_0000_0000_0000 * biased) + fraction;
    SameParity(0x8_0000_0000_0000 * biased, fraction);
    SameParity(0x8_0000_0000_0000, fraction);
    SameParity(fraction, 0);
  }

  lemma SameParity(pairs: nat, rest: nat)
    ensures Even(2 * pairs + rest) <==> Even(rest)
  {}

  /** The ends of an odd subnormal's interval are inclusive, but no short decimal reaches them. */
  lemma SubnormalEnds(bits: nat, digits: nat, exponent: int)
    requires 0 < bits && digits < Pow(10, 17)
    ensures Decimal(digits, exponent) != Binary(2 * bits - 1, -1075)
    ensures Decimal(digits, exponent) != Binary(2 * bits + 1, -1075)
  {
    hide *;
    NotHalfway(digits, exponent, 2 * bits - 1);
    NotHalfway(digits, exponent, 2 * bits + 1);
  }

  lemma RoundsBackWhen(bits: nat, float: Decoded, digits: nat, exponent: int)
    requires Positive(bits) && InInterval(float, digits, exponent)
    requires float.inclusive <==> bits < IMPLICIT || Even(bits)
    requires bits < IMPLICIT && !Even(bits) ==>
      && Decimal(digits, exponent) != Binary(float.mant - float.minus, float.exp)
      && Decimal(digits, exponent) != Binary(float.mant + float.plus, float.exp)
    requires FloatValue(bits - 1) + FloatValue(bits) <= 2.0 * Binary(float.mant - float.minus, float.exp)
    requires 2.0 * Binary(float.mant + float.plus, float.exp) == FloatValue(bits) + FloatValue(bits + 1)
    ensures RoundsTo(Decimal(digits, exponent), bits)
  {
    hide Binary, Decimal, FloatValue;
  }
}
