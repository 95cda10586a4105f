/** Steele and White's digit generation. */
module DigitGeneration {
  import opened Powers
  import opened Limbs
  import opened BigIntegers
  import opened Floats
  import opened Scaling
  import opened ShortestDigits

  ghost predicate Ready(big: Big)
    reads big, big.limbs
  {
    big.Valid() && big.Trimmed()
  }

  ghost function ValueOf(big: Big): (value: nat)
    requires Ready(big)
    reads big, big.limbs
    ensures value < Capacity()
  {
    big.Value()
  }

  ghost predicate Apart(left: Big, right: Big) {
    left != right && left.limbs != right.limbs
  }

  /** The comparison the digit tests make: strict, unless the ends of the interval belong to it. */
  method Below(left: Big, right: Big, inclusive: bool) returns (below: bool)
    requires Ready(left) && Ready(right)
    ensures below == IsBelow(ValueOf(left), ValueOf(right), inclusive)
  {
    var order := left.CompareTo(right);
    match order
    case Less => below := true;
    case Equal => below := inclusive;
    case Greater => below := false;
  }

  method Sum(left: Big, right: Big) returns (sum: Big)
    requires Ready(left) && Ready(right) && ValueOf(left) + ValueOf(right) < Capacity()
    ensures fresh(sum) && fresh(sum.limbs) && Ready(sum) && ValueOf(sum) == ValueOf(left) + ValueOf(right)
  {
    sum := new Big.Clone(left);
    sum.Add(right);
  }

  method BelowSum(scale: Big, mant: Big, plus: Big, inclusive: bool) returns (below: bool)
    requires Ready(scale) && Ready(mant) && Ready(plus) && ValueOf(mant) + ValueOf(plus) < Capacity()
    ensures below == IsBelow(ValueOf(scale), ValueOf(mant) + ValueOf(plus), inclusive)
  {
    hide Ready, ValueOf, IsBelow, Capacity;
    var high := Sum(mant, plus);
    below := Below(scale, high, inclusive);
  }

  method TimesTen(big: Big)
    requires Ready(big) && Moderate(ValueOf(big))
    modifies big, big.limbs
    ensures Ready(big) && ValueOf(big) == 10 * old(ValueOf(big))
  {
    hide Wrapped, Capacity, Moderate;
    ModerateFits(ValueOf(big), 10 * ValueOf(big));
    big.MulSmall(10);
  }

  method Multiple(scale: Big, bits: nat, factor: nat) returns (multiple: Big)
    requires Ready(scale) && Moderate(ValueOf(scale)) && factor == Pow(2, bits) <= 8
    ensures fresh(multiple) && fresh(multiple.limbs) && Ready(multiple)
    ensures ValueOf(multiple) == factor * ValueOf(scale)
  {
    hide Wrapped, Capacity, Moderate, Pow, Big.Valid, Big.Trimmed, Big.Value;
    MultipleFits(ValueOf(scale), bits, factor);
    multiple := new Big.Clone(scale);
    multiple.ShiftLeft(bits);
  }

  lemma MultipleFits(scale: nat, bits: nat, factor: nat)
    requires Moderate(scale) && factor == Pow(2, bits) <= 8
    ensures Wrapped(scale * Pow(2, bits)) == factor * scale < Capacity()
  {
    hide Wrapped, Capacity, Moderate, Pow;
    MulMonotone(factor, 8, scale, scale);
    ModerateFits(scale, factor * scale);
    assert scale * Pow(2, bits) == factor * scale;
  }

  /** Subtracts `multiple` when it is not larger. */
  method TakeMultiple(mant: Big, multiple: Big, weight: nat) returns (taken: nat)
    requires Ready(mant) && Ready(multiple) && Apart(mant, multiple)
    modifies mant, mant.limbs
    ensures Ready(mant)
    ensures Taken(old(ValueOf(mant)), ValueOf(mant), ValueOf(multiple), weight, taken)
  {
    hide Big.Valid, Big.Trimmed, Big.Value;
    taken := 0;
    var order := mant.CompareTo(multiple);
    if order != Less {
      mant.Sub(multiple);
      taken := weight;
    }
  }

  /** Takes the next digit out of `mant` by its binary multiples of `scale`. */
  method ExtractDigit(mant: Big, scale8: Big, scale4: Big, scale2: Big, scale: Big) returns (digit: nat)
    requires Ready(mant) && Ready(scale8) && Ready(scale4) && Ready(scale2) && Ready(scale)
    requires Apart(mant, scale8) && Apart(mant, scale4) && Apart(mant, scale2) && Apart(mant, scale)
    requires ValueOf(scale8) == 8 * ValueOf(scale) && ValueOf(scale4) == 4 * ValueOf(scale)
    requires ValueOf(scale2) == 2 * ValueOf(scale) && ValueOf(mant) < 10 * ValueOf(scale)
    modifies mant, mant.limbs
    ensures Ready(mant) && digit < 10
    ensures digit * ValueOf(scale) <= old(ValueOf(mant))
    ensures ValueOf(mant) == old(ValueOf(mant)) - digit * ValueOf(scale) < ValueOf(scale)
  {
    hide Ready, ValueOf, Taken;
    ghost var v0 := ValueOf(mant);
    var eight := TakeMultiple(mant, scale8, 8);
    ghost var v1 := ValueOf(mant);
    var four := TakeMultiple(mant, scale4, 4);
    ghost var v2 := ValueOf(mant);
    var two := TakeMultiple(mant, scale2, 2);
    ghost var v3 := ValueOf(mant);
    var one := TakeMultiple(mant, scale, 1);
    digit := eight + four + two + one;
    DigitExtracted(v0, v1, v2, v3, ValueOf(mant), ValueOf(scale), eight, four, two, one, digit);
  }

  ghost predicate Taken(before: nat, after: nat, multiple: nat, weight: nat, taken: nat) {
    if multiple <= before then taken == weight && after == before - multiple else taken == 0 && after == before
  }

  lemma DigitExtracted(v0: nat, v1: nat, v2: nat, v3: nat, v4: nat, scale: nat, eight: nat, four: nat, two: nat,
                       one: nat, digit: nat)
    requires v0 < 10 * scale && digit == eight + four + two + one
    requires Taken(v0, v1, 8 * scale, 8, eight) && Taken(v1, v2, 4 * scale, 4, four)
    requires Taken(v2, v3, 2 * scale, 2, two) && Taken(v3, v4, scale, 1, one)
    ensures digit < 10 && digit * scale <= v0 && v4 == v0 - digit * scale < scale
  {
    DigitTimes(eight, four, two, one, scale);
  }

  lemma DigitTimes(eight: nat, four: nat, two: nat, one: nat, scale: nat)
    requires eight in {0, 8} && four in {0, 4} && two in {0, 2} && one in {0, 1}
    ensures (eight + four + two + one) * scale
         == (if eight == 8 then 8 * scale else 0) + (if four == 4 then 4 * scale else 0)
          + (if two == 2 then 2 * scale else 0) + (if one == 1 then scale else 0)
  {
    assert (eight + four + two + one) * scale == eight * scale + four * scale + two * scale + one * scale;
  }

  // ---- The digit loop ----

  /** The Bigs of the loop, which share nothing. */
  ghost predicate Loop(mant: Big, minus: Big, plus: Big, scale: Big)
    reads mant, mant.limbs, minus, minus.limbs, plus, plus.limbs, scale, scale.limbs
    ensures Loop(mant, minus, plus, scale) ==>
      && Ready(mant) && Ready(minus) && Ready(plus) && Ready(scale)
      && Apart(mant, scale) && Apart(minus, scale) && Apart(plus, scale)
  {
    && Ready(mant) && Ready(minus) && Ready(plus) && Ready(scale)
    && Apart(mant, minus) && Apart(mant, plus) && Apart(mant, scale)
    && Apart(minus, plus) && Apart(minus, scale) && Apart(plus, scale)
  }

  /** What holds when `count` digits are out and the next one is about to be taken. */
  ghost predicate BeforeDigit(float: Decoded, digits: nat, count: nat, k: int, mant: nat, minus: nat, plus: nat,
                              scale: nat)
  {
    && AtDigit(float, 10 * digits, mant, minus, plus, scale, k - count - 1)
    && mant < 10 * scale && minus <= 10 * scale && plus <= 10 * scale && Moderate(scale)
    && NoneIn(float, k - count)
  }

  /** What holds after it is. */
  ghost predicate AfterDigit(float: Decoded, digits: nat, count: nat, k: int, mant: nat, minus: nat, plus: nat,
                             scale: nat)
  {
    && AtDigit(float, digits, mant, minus, plus, scale, k - count)
    && mant < scale && minus <= 10 * scale && plus <= 10 * scale && Moderate(scale)
    && NoneIn(float, k - count + 1)
  }

  lemma DigitTaken(float: Decoded, digits: nat, count: nat, k: int, mant: nat, minus: nat, plus: nat, scale: nat,
                   digit: nat)
    requires BeforeDigit(float, digits, count, k, mant, minus, plus, scale)
    requires digit * scale <= mant && mant - digit * scale < scale
    ensures AfterDigit(float, 10 * digits + digit, count + 1, k, mant - digit * scale, minus, plus, scale)
  {
    hide AtDigit, NoneIn;
    TakeDigit(float, 10 * digits, mant, minus, plus, scale, k - count - 1, digit);
  }

  lemma DigitNext(float: Decoded, digits: nat, count: nat, k: int, mant: nat, minus: nat, plus: nat, scale: nat)
    requires AfterDigit(float, digits, count, k, mant, minus, plus, scale) && Reasonable(float)
    requires !IsBelow(mant, minus, float.inclusive) && !IsBelow(scale, mant + plus, float.inclusive)
    ensures BeforeDigit(float, digits, count, k, 10 * mant, 10 * minus, 10 * plus, scale)
    ensures Moderate(mant) && Moderate(minus) && Moderate(plus)
  {
    TestsMean(float, digits, mant, minus, plus, scale, k - count);
    hide AtDigit, NoneIn, InInterval, Decimal, Binary;
    NothingAround(float, digits, k - count);
    FinerDigit(float, digits, mant, minus, plus, scale, k - count);
  }

  /** Once the interval is wider than a digit, one of the tests succeeds. */
  lemma MustStop(float: Decoded, digits: nat, mant: nat, minus: nat, plus: nat, scale: nat, exponent: int)
    requires AtDigit(float, digits, mant, minus, plus, scale, exponent)
    requires Exp(10, exponent) < Binary(float.minus, float.exp) + Binary(float.plus, float.exp)
    ensures IsBelow(mant, minus, float.inclusive) || IsBelow(scale, mant + plus, float.inclusive)
  {
    hide Exp, Binary;
    Wider(Binary(float.minus, float.exp), Binary(float.plus, float.exp), minus as real, plus as real, scale as real,
      Exp(10, exponent));
  }

  lemma Wider(below: real, above: real, minus: real, plus: real, scale: real, unit: real)
    requires below * scale == minus * unit && above * scale == plus * unit
    requires 0.0 < unit < below + above && scale > 0.0
    ensures scale < minus + plus
  {
    assert (below + above) * scale == (minus + plus) * unit;
    assert (below + above - unit) * scale == (minus + plus - scale) * unit;
    SameSign(below + above - unit, scale, minus + plus - scale, unit);
  }

  /** A first digit of zero is rounded up at once. */
  ghost predicate Starts(mant: nat, minus: nat, plus: nat, scale: nat, inclusive: bool) {
    scale <= mant || (IsBelow(scale, mant + plus, inclusive) && !IsBelow(mant, minus, inclusive))
  }

  lemma FirstDigit(mant: nat, minus: nat, plus: nat, scale: nat, inclusive: bool, digit: nat)
    requires Starts(mant, minus, plus, scale, inclusive) && digit * scale <= mant && mant - digit * scale < scale
    ensures digit > 0 || (IsBelow(scale, mant - digit * scale + plus, inclusive)
        && !IsBelow(mant - digit * scale, minus, inclusive))
  {}

  lemma NumberEmpty()
    ensures Number("") == 0
  {}

  lemma NumberPush(text: string, c: char)
    ensures Number(text + [c]) == 10 * Number(text) + DigitOf(c)
  {
    assert (text + [c])[..|text|] == text;
  }

  /** The multiples of the scale that the digits are taken by. */
  ghost predicate Multiples(scale: Big, scale2: Big, scale4: Big, scale8: Big)
    reads scale, scale.limbs, scale2, scale2.limbs, scale4, scale4.limbs, scale8, scale8.limbs
  {
    && Ready(scale) && Ready(scale2) && Ready(scale4) && Ready(scale8)
    && ValueOf(scale8) == 8 * ValueOf(scale)
    && ValueOf(scale4) == 4 * ValueOf(scale)
    && ValueOf(scale2) == 2 * ValueOf(scale)
  }

  /** Whether the digits so far, or the digits so far rounded up, lie in the interval. */
  method Test(mant: Big, minus: Big, plus: Big, scale: Big, inclusive: bool) returns (down: bool, up: bool)
    requires Loop(mant, minus, plus, scale) && ValueOf(mant) + ValueOf(plus) < Capacity()
    ensures down == IsBelow(ValueOf(mant), ValueOf(minus), inclusive)
    ensures up == IsBelow(ValueOf(scale), ValueOf(mant) + ValueOf(plus), inclusive)
  {
    hide Ready, ValueOf, IsBelow, Capacity;
    down := Below(mant, minus, inclusive);
    up := BelowSum(scale, mant, plus, inclusive);
  }

  method Advance(mant: Big, minus: Big, plus: Big, scale: Big)
    requires Loop(mant, minus, plus, scale)
    requires Moderate(ValueOf(mant)) && Moderate(ValueOf(minus)) && Moderate(ValueOf(plus))
    modifies mant, mant.limbs, minus, minus.limbs, plus, plus.limbs
    ensures Loop(mant, minus, plus, scale)
    ensures ValueOf(mant) == 10 * old(ValueOf(mant))
    ensures ValueOf(minus) == 10 * old(ValueOf(minus))
    ensures ValueOf(plus) == 10 * old(ValueOf(plus))
  {
    hide Ready, ValueOf, Moderate;
    TimesTen(mant);
    TimesTen(minus);
    TimesTen(plus);
  }

  /** One round of the digit loop. */
  method OneDigit(mant: Big, minus: Big, plus: Big, scale: Big, scale2: Big, scale4: Big, scale8: Big, inclusive: bool,
                  digits: array<char>, count: nat, ghost float: Decoded, ghost k: int)
    returns (down: bool, up: bool)
    requires Loop(mant, minus, plus, scale) && Multiples(scale, scale2, scale4, scale8)
    requires Apart(mant, scale2) && Apart(mant, scale4) && Apart(mant, scale8)
    requires count < 17 && digits.Length == 18 && AllDigits(digits[..count])
    requires BeforeDigit(float, Number(digits[..count]), count, k,
                         ValueOf(mant), ValueOf(minus), ValueOf(plus), ValueOf(scale))
    requires if count == 0 then Starts(ValueOf(mant), ValueOf(minus), ValueOf(plus), ValueOf(scale), inclusive)
             else digits[0] != '0'
    modifies mant, mant.limbs, digits
    ensures Loop(mant, minus, plus, scale) && Multiples(scale, scale2, scale4, scale8)
    ensures AllDigits(digits[..count + 1])
    ensures AfterDigit(float, Number(digits[..count + 1]), count + 1, k,
                       ValueOf(mant), ValueOf(minus), ValueOf(plus), ValueOf(scale))
    ensures down == IsBelow(ValueOf(mant), ValueOf(minus), inclusive)
    ensures up == IsBelow(ValueOf(scale), ValueOf(mant) + ValueOf(plus), inclusive)
    ensures digits[0] != '0' || (count == 0 && up && !down)
  {
    hide Ready, ValueOf, BeforeDigit, AfterDigit, Starts, IsBelow, Capacity, Moderate, Number;
    ghost var before, was := ValueOf(mant), digits[..count];
    ghost var number := Number(was);
    BeforeBounds(float, number, count, k, before, ValueOf(minus), ValueOf(plus), ValueOf(scale));
    var digit := ExtractDigit(mant, scale8, scale4, scale2, scale);
    DigitTaken(float, number, count, k, before, ValueOf(minus), ValueOf(plus), ValueOf(scale), digit);
    if count < digits.Length {
      digits[count] := ('0' as int + digit) as char;
    }
    NumberPush(was, digits[count]);
    assert digits[..count + 1] == was + [digits[count]];
    AfterBounds(float, 10 * number + digit, count + 1, k, ValueOf(mant), ValueOf(minus), ValueOf(plus), ValueOf(scale));
    down, up := Test(mant, minus, plus, scale, inclusive);
    if count == 0 {
      FirstDigit(before, ValueOf(minus), ValueOf(plus), ValueOf(scale), inclusive, digit);
    }
  }

  method Generate(mant: Big, minus: Big, plus: Big, scale: Big, inclusive: bool, digits: array<char>,
                  ghost float: Decoded, ghost k: int)
    returns (count: nat, down: bool, up: bool)
    requires Loop(mant, minus, plus, scale) && digits.Length == 18
    requires Reasonable(float) && float.inclusive == inclusive
    requires BeforeDigit(float, 0, 0, k, ValueOf(mant), ValueOf(minus), ValueOf(plus), ValueOf(scale))
    requires Starts(ValueOf(mant), ValueOf(minus), ValueOf(plus), ValueOf(scale), inclusive)
    requires Exp(10, k - 17) < Binary(float.minus, float.exp) + Binary(float.plus, float.exp)
    modifies mant, mant.limbs, minus, minus.limbs, plus, plus.limbs, digits
    ensures Loop(mant, minus, plus, scale)
    ensures 1 <= count <= 17 && AllDigits(digits[..count])
    ensures AfterDigit(float, Number(digits[..count]), count, k,
                       ValueOf(mant), ValueOf(minus), ValueOf(plus), ValueOf(scale))
    ensures down == IsBelow(ValueOf(mant), ValueOf(minus), inclusive)
    ensures up == IsBelow(ValueOf(scale), ValueOf(mant) + ValueOf(plus), inclusive)
    ensures down || up
    ensures digits[0] != '0' || (count == 1 && up && !down)
  {
    hide Ready, ValueOf, BeforeDigit, AfterDigit, Starts, Reasonable, Exp, Binary, IsBelow, Number, Capacity, Pow;
    hide Moderate;
    hide Loop, Multiples;
    var scale2, scale4, scale8 := MakeMultiples(mant, minus, plus, scale, float, 0, 0, k);
    count := 0;
    NumberEmpty();
    assert digits[..0] == "";
    while true
      invariant Loop(mant, minus, plus, scale) && Multiples(scale, scale2, scale4, scale8)
      invariant count <= 16 && AllDigits(digits[..count])
      invariant BeforeDigit(float, Number(digits[..count]), count, k,
                            ValueOf(mant), ValueOf(minus), ValueOf(plus), ValueOf(scale))
      invariant if count == 0 then Starts(ValueOf(mant), ValueOf(minus), ValueOf(plus), ValueOf(scale), inclusive)
                else digits[0] != '0'
      decreases 17 - count
    {
      down, up := OneDigit(mant, minus, plus, scale, scale2, scale4, scale8, inclusive, digits, count, float, k);
      count := count + 1;
      LastDigit(float, Number(digits[..count]), count, k, ValueOf(mant), ValueOf(minus), ValueOf(plus), ValueOf(scale));
      if down || up || count >= 17 {
        break;
      }
      DigitNext(float, Number(digits[..count]), count, k, ValueOf(mant), ValueOf(minus), ValueOf(plus), ValueOf(scale));
      Advance(mant, minus, plus, scale);
    }
  }

  method MakeMultiples(mant: Big, minus: Big, plus: Big, scale: Big,
                       ghost float: Decoded, ghost number: nat, ghost count: nat, ghost k: int)
    returns (scale2: Big, scale4: Big, scale8: Big)
    requires Loop(mant, minus, plus, scale)
    requires BeforeDigit(float, number, count, k, ValueOf(mant), ValueOf(minus), ValueOf(plus), ValueOf(scale))
    ensures Multiples(scale, scale2, scale4, scale8)
    ensures fresh(scale2) && fresh(scale2.limbs) && fresh(scale4) && fresh(scale4.limbs)
    ensures fresh(scale8) && fresh(scale8.limbs)
  {
    hide Ready, ValueOf, BeforeDigit, Capacity, Pow, Moderate;
    ScaleModerate(float, number, count, k, ValueOf(mant), ValueOf(minus), ValueOf(plus), ValueOf(scale));
    SmallPowers();
    scale2 := Multiple(scale, 1, 2);
    scale4 := Multiple(scale, 2, 4);
    scale8 := Multiple(scale, 3, 8);
  }

  lemma ScaleModerate(float: Decoded, digits: nat, count: nat, k: int, mant: nat, minus: nat, plus: nat, scale: nat)
    requires BeforeDigit(float, digits, count, k, mant, minus, plus, scale)
    ensures Moderate(scale)
  {}

  lemma SmallPowers()
    ensures Pow(2, 1) == 2 && Pow(2, 2) == 4 && Pow(2, 3) == 8
  {}

  lemma BeforeBounds(float: Decoded, digits: nat, count: nat, k: int, mant: nat, minus: nat, plus: nat, scale: nat)
    requires BeforeDigit(float, digits, count, k, mant, minus, plus, scale)
    ensures mant < 10 * scale
  {}

  lemma AfterBounds(float: Decoded, digits: nat, count: nat, k: int, mant: nat, minus: nat, plus: nat, scale: nat)
    requires AfterDigit(float, digits, count, k, mant, minus, plus, scale)
    ensures mant + plus < Capacity() && mant < scale && Moderate(scale)
  {
    ModerateFits(scale, 64 * scale);
  }

  lemma LastDigit(float: Decoded, digits: nat, count: nat, k: int, mant: nat, minus: nat, plus: nat, scale: nat)
    requires AfterDigit(float, digits, count, k, mant, minus, plus, scale)
    requires Exp(10, k - 17) < Binary(float.minus, float.exp) + Binary(float.plus, float.exp)
    ensures count == 17 ==> IsBelow(mant, minus, float.inclusive) || IsBelow(scale, mant + plus, float.inclusive)
  {
    if count == 17 {
      MustStop(float, digits, mant, minus, plus, scale, k - count);
    }
  }

  // ---- The first digit's place ----

  /** The estimate in terms of the scaled integers. */
  lemma EstimateScaled(float: Decoded, mant: nat, minus: nat, plus: nat, scale: nat)
    requires Reasonable(float)
    requires AtDigit(float, 0, mant, minus, plus, scale, EstimateScalingFactor(float.mant + float.plus, float.exp))
    ensures mant + plus < 10 * scale && scale <= 2 * (mant + plus)
    ensures var k := EstimateScalingFactor(float.mant + float.plus, float.exp);
      && (scale <= mant + plus ==> Exp(10, k) <= Binary(float.mant + float.plus, float.exp))
      && Exp(10, k - 1) < Binary(float.mant + float.plus, float.exp) < Exp(10, k + 1)
  {
    EstimateWithinOne(float.mant + float.plus, float.exp);
    hide *;
    var k := EstimateScalingFactor(float.mant + float.plus, float.exp);
    BinarySplits(float.mant, float.minus, float.plus, float.exp);
    ExpNext(10, k);
    StateInReals(float, mant, minus, plus, scale, k);
    EstimateInReals(Binary(float.mant, float.exp), Binary(float.plus, float.exp), mant as real, plus as real,
      scale as real, Exp(10, k), Binary(float.mant + float.plus, float.exp), Exp(10, k + 1));
  }

  lemma StateInReals(float: Decoded, mant: nat, minus: nat, plus: nat, scale: nat, exponent: int)
    requires AtDigit(float, 0, mant, minus, plus, scale, exponent)
    ensures scale > 0
    ensures Over(Binary(float.mant, float.exp), scale as real, mant as real, Exp(10, exponent))
    ensures Over(Binary(float.minus, float.exp), scale as real, minus as real, Exp(10, exponent))
    ensures Over(Binary(float.plus, float.exp), scale as real, plus as real, Exp(10, exponent))
  {
    hide Exp, Binary;
  }

  /** `value` is `part` over `scale`, in units of `unit`. */
  ghost predicate Over(value: real, scale: real, part: real, unit: real) {
    value * scale == part * unit
  }

  ghost predicate Product(value: real, left: real, right: real) {
    value == left * right
  }

  lemma BinaryIs(units: int, exp: int)
    ensures Product(Binary(units, exp), units as real, Exp(2, exp))
  {}

  lemma EstimateInReals(value: real, above: real, mant: real, plus: real, scale: real, unit: real, high: real,
                        larger: real)
    requires Over(value, scale, mant, unit) && Over(above, scale, plus, unit)
    requires high == value + above && larger == 10.0 * unit
    requires unit > 0.0 && scale > 0.0 && high < larger && unit <= 2.0 * high
    ensures mant + plus < 10.0 * scale && scale <= 2.0 * (mant + plus)
    ensures scale <= mant + plus ==> unit <= high
  {
    var sum := mant + plus;
    assert high * scale == sum * unit;
    assert (10.0 * unit - high) * scale == (10.0 * scale - sum) * unit;
    SameSign(10.0 * unit - high, scale, 10.0 * scale - sum, unit);
    assert (2.0 * high - unit) * scale == (2.0 * sum - scale) * unit;
    SameSign(2.0 * high - unit, scale, 2.0 * sum - scale, unit);
    assert (high - unit) * scale == (sum - scale) * unit;
    SameSign(high - unit, scale, sum - scale, unit);
  }

  /** Parts of a float keep their proportions when scaled. */
  lemma KeepsOrder(float: Decoded, mant: nat, minus: nat, plus: nat, scale: nat, exponent: int)
    requires AtDigit(float, 0, mant, minus, plus, scale, exponent) && Reasonable(float)
    ensures minus < mant && 2 * plus <= mant && 0 < plus
  {
    assert float.minus < float.mant && 2 * float.plus <= float.mant && 0 < float.plus;
    hide *;
    StateInReals(float, mant, minus, plus, scale, exponent);
    BinaryIs(float.mant, float.exp);
    BinaryIs(float.minus, float.exp);
    BinaryIs(float.plus, float.exp);
    OrderInReals(float.mant as real, float.minus as real, float.plus as real, Exp(2, float.exp),
      mant as real, minus as real, plus as real, scale as real, Exp(10, exponent),
      Binary(float.mant, float.exp), Binary(float.minus, float.exp), Binary(float.plus, float.exp));
  }

  lemma OrderInReals(m: real, a: real, p: real, binary: real, mant: real, minus: real, plus: real, scale: real,
                     unit: real, value: real, below: real, above: real)
    requires binary > 0.0 && scale > 0.0 && unit > 0.0 && a < m && 2.0 * p <= m && 0.0 < p
    requires Product(value, m, binary) && Product(below, a, binary) && Product(above, p, binary)
    requires Over(value, scale, mant, unit) && Over(below, scale, minus, unit) && Over(above, scale, plus, unit)
    ensures minus < mant && 2.0 * plus <= mant && 0.0 < plus
  {
    assert value - below == (m - a) * binary;
    Sign(m - a, binary);
    assert (value - below) * scale == (mant - minus) * unit;
    SameSign(value - below, scale, mant - minus, unit);
    assert value - 2.0 * above == (m - 2.0 * p) * binary;
    Sign(m - 2.0 * p, binary);
    assert (value - 2.0 * above) * scale == (mant - 2.0 * plus) * unit;
    SameSign(value - 2.0 * above, scale, mant - 2.0 * plus, unit);
    Sign(p, binary);
    SameSign(above, scale, plus, unit);
  }

  /** Seventeen digits are finer than the interval. */
  lemma SeventeenDigits(float: Decoded, k: int)
    requires Reasonable(float) && Exp(10, k - 1) <= Binary(float.mant + float.plus, float.exp)
    ensures Exp(10, k - 17) < Binary(float.minus, float.exp) + Binary(float.plus, float.exp)
  {
    assert float.mant + float.plus < 0x20_0000_0000_0000 * (float.minus + float.plus);
    hide *;
    SixteenPlaces(k - 17);
    BinarySplits(float.minus, 0, float.plus, float.exp);
    BinaryIs(float.mant + float.plus, float.exp);
    BinaryIs(float.minus + float.plus, float.exp);
    WidthInReals((float.mant + float.plus) as real, (float.minus + float.plus) as real, Exp(2, float.exp),
      Exp(10, k - 17), Exp(10, k - 1), Binary(float.mant + float.plus, float.exp),
      Binary(float.minus + float.plus, float.exp));
  }

  lemma SixteenPlaces(exponent: int)
    ensures Product(Exp(10, exponent + 16), Exp(10, exponent), 10000000000000000.0)
  {
    TenTo16();
    ExpAdd(10, exponent, 16);
  }

  lemma TenTo16()
    ensures Pow(10, 16) == 1_0000_0000_0000_0000
  {
    assert Pow(10, 4) == 10000;
    PowSum(10, 4, 10000, 4, 10000, 8, 1_0000_0000);
    PowSum(10, 8, 1_0000_0000, 8, 1_0000_0000, 16, 1_0000_0000_0000_0000);
  }

  lemma WidthInReals(high: real, width: real, binary: real, unit: real, larger: real, highValue: real, widthValue: real)
    requires high < 9007199254740992.0 * width && binary > 0.0 && unit > 0.0
    requires Product(larger, unit, 10000000000000000.0) && larger <= highValue
    requires Product(highValue, high, binary) && Product(widthValue, width, binary)
    ensures unit < widthValue
  {
    Sign(9007199254740992.0 * width - high, binary);
    assert (9007199254740992.0 * width - high) * binary == 9007199254740992.0 * (width * binary) - high * binary;
  }

  /** The fixed estimate puts the first digit in place. */
  lemma Fixed(float: Decoded, k: int, mant: nat, minus: nat, plus: nat, scale: nat)
    requires Reasonable(float) && k == EstimateScalingFactor(float.mant + float.plus, float.exp)
    requires AtDigit(float, 0, mant, minus, plus, scale, k) && Moderate(scale)
    ensures if IsBelow(scale, mant + plus, float.inclusive) then
        && BeforeDigit(float, 0, 0, k + 1, mant, minus, plus, scale)
        && Starts(mant, minus, plus, scale, float.inclusive)
        && Exp(10, k + 1 - 17) < Binary(float.minus, float.exp) + Binary(float.plus, float.exp)
      else
        && BeforeDigit(float, 0, 0, k, 10 * mant, 10 * minus, 10 * plus, scale)
        && Starts(10 * mant, 10 * minus, 10 * plus, scale, float.inclusive)
        && Exp(10, k - 17) < Binary(float.minus, float.exp) + Binary(float.plus, float.exp)
  {
    hide AtDigit, NoneIn, InInterval, Decimal, Binary, Exp, EstimateScalingFactor, Moderate;
    EstimateScaled(float, mant, minus, plus, scale);
    KeepsOrder(float, mant, minus, plus, scale, k);
    if IsBelow(scale, mant + plus, float.inclusive) {
      SeventeenDigits(float, k + 1);
      NothingUpTo(float, k + 1);
    } else {
      SeventeenDigits(float, k);
      TestsMean(float, 0, mant, minus, plus, scale, k);
      NothingAround(float, 0, k);
      FinerDigit(float, 0, mant, minus, plus, scale, k);
    }
  }

  /** Nothing that ends at or above a power of ten lies in an interval that ends below it. */
  lemma NothingUpTo(float: Decoded, k: int)
    requires Reasonable(float) && Binary(float.mant + float.plus, float.exp) < Exp(10, k)
    ensures NoneIn(float, k)
  {
    BinarySplits(float.mant, float.minus, float.plus, float.exp);
    BinaryPositive(float.mant, float.exp);
    BinaryPositive(float.mant - float.minus, float.exp);
    BinaryPositive(float.plus, float.exp);
    hide Exp, Binary;
    assert Decimal(0, k) == 0.0 && Decimal(1, k) == Exp(10, k);
    hide Decimal;
    NothingAround(float, 0, k);
  }
}
