/** The shortest text of a float. */
module FloatText {
  import opened Powers
  import opened Limbs
  import opened BigIntegers
  import opened Floats
  import opened Scaling
  import opened ShortestDigits
  import opened DigitGeneration

  // ---- Rounding up ----

  /** Raising the last digit below nine and clearing the nines after it adds one. */
  lemma {:induction false} RaiseDigit(before: string, after: string, index: nat)
    requires index < |before| == |after| && AllDigits(before)
    requires before[index] < '9' && after[index] == (before[index] as int + 1) as char
    requires after[..index] == before[..index]
    requires forall i :: index < i < |before| ==> before[i] == '9' && after[i] == '0'
    ensures Number(after) == Number(before) + 1
  {
    var last := |before| - 1;
    if index < last {
      assert before[..last][..index] == before[..index] == after[..index] == after[..last][..index];
      RaiseDigit(before[..last], after[..last], index);
    } else {
      assert before[..last] == after[..last];
    }
  }

  /** A one and a zero for every nine is one more. */
  lemma {:induction false} RaiseNines(before: string, after: string)
    requires |after| == |before| + 1 && after[0] == '1'
    requires forall i :: 0 <= i < |before| ==> before[i] == '9' && after[i + 1] == '0'
    ensures Number(after) == Number(before) + 1
  {
    if before == "" {
      assert after[..0] == "";
    } else {
      RaiseNines(before[..|before| - 1], after[..|before|]);
    }
  }

  /** The digit at `index` is one higher, and all after it are zero. */
  ghost predicate Raised(before: string, after: string, index: nat) {
    && index < |before| == |after| && before[index] < '9'
    && after[..index] == before[..index] && after[index] == (before[index] as int + 1) as char
    && forall i :: index < i < |after| ==> after[i] == '0'
  }

  ghost predicate NinesFrom(digits: string, index: nat) {
    forall i :: index <= i < |digits| ==> digits[i] == '9'
  }

  ghost predicate OneAndZeros(digits: string) {
    digits != "" && digits[0] == '1' && forall i :: 0 < i < |digits| ==> digits[i] == '0'
  }

  lemma RaisedByOne(before: string, after: string, index: nat)
    requires Raised(before, after, index) && AllDigits(before) && NinesFrom(before, index + 1)
    ensures AllDigits(after) && Number(after) == Number(before) + 1
    ensures before[0] != '0' || |before| == 1 ==> after[0] != '0'
  {
    forall i | 0 <= i < |after| ensures '0' <= after[i] <= '9' {
      if i < index {
        assert after[i] == after[..index][i] == before[..index][i] == before[i];
      }
    }
    if index > 0 {
      assert after[0] == after[..index][0] == before[..index][0] == before[0];
    }
    hide Number;
    RaiseDigit(before, after, index);
  }

  lemma NinesByOne(before: string, after: string)
    requires NinesFrom(before, 0) && OneAndZeros(after) && |after| == |before| + 1
    ensures AllDigits(after) && Number(after) == Number(before) + 1 && after[0] != '0'
  {
    hide Number;
    forall i | 0 <= i < |before| ensures before[i] == '9' && after[i + 1] == '0' {}
    RaiseNines(before, after);
  }

  /** Rounds the last digit up, carrying through nines; the exponent of the last digit stays the same. */
  method RoundUp(digits: array<char>, count: nat, k: int) returns (newCount: nat, newK: int)
    requires digits.Length == 18 && 1 <= count <= 17 && AllDigits(digits[..count])
    modifies digits
    ensures newK - newCount == k - count
    ensures newCount == if NinesFrom(old(digits[..count]), 0) then count + 1 else count
    ensures AllDigits(digits[..newCount]) && Number(digits[..newCount]) == old(Number(digits[..count])) + 1
    ensures old(digits[0]) != '0' || count == 1 ==> digits[0] != '0'
  {
    hide Number, AllDigits;
    newCount, newK := count, k;
    ghost var before := digits[..count];
    var index: nat := count;
    while index > 0 && digits[index - 1] == '9'
      invariant index <= count && digits[..count] == before && NinesFrom(before, index)
    {
      assert before[index - 1] == digits[index - 1];
      index := index - 1;
    }
    assert before[0] == digits[0];
    if index > 0 {
      assert before[index - 1] == digits[index - 1] != '9';
      BelowNine(before, index - 1);
      RaiseAt(digits, index - 1, count);
      RaisedByOne(before, digits[..count], index - 1);
    } else {
      // Nothing but nines: the digits become a one and zeros, one digit more.
      WritePower(digits, count);
      newCount := count + 1;
      newK := k + 1;
      NinesByOne(before, digits[..newCount]);
    }
  }

  lemma BelowNine(digits: string, index: nat)
    requires AllDigits(digits) && index < |digits| && digits[index] != '9'
    ensures '0' <= digits[index] < '9'
  {}

  method RaiseAt(digits: array<char>, index: nat, count: nat)
    requires index < count <= 17 && digits.Length == 18 && '0' <= digits[index] < '9'
    modifies digits
    ensures Raised(old(digits[..count]), digits[..count], index)
  {
    var position := index;
    while position < count
      invariant index <= position <= count
      invariant digits[..index] == old(digits[..index])
      invariant position == index ==> digits[index] == old(digits[index])
      invariant position > index ==> digits[index] == (old(digits[index]) as int + 1) as char
      invariant forall i :: index < i < position ==> digits[i] == '0'
    {
      digits[position] := if position == index then (digits[position] as int + 1) as char else '0';
      position := position + 1;
    }
    assert digits[..count][..index] == digits[..index] == old(digits[..index]) == old(digits[..count])[..index];
  }

  method WritePower(digits: array<char>, count: nat)
    requires count <= 17 && digits.Length == 18
    modifies digits
    ensures OneAndZeros(digits[..count + 1])
  {
    var position: nat := 0;
    while position < count + 1
      invariant position <= count + 1
      invariant forall i :: 0 <= i < position ==> digits[i] == if i == 0 then '1' else '0'
    {
      digits[position] := if position == 0 then '1' else '0';
      position := position + 1;
    }
  }

  // ---- The scaled integers ----

  ghost function Doubled(number: nat, bits: nat): nat {
    number * Pow(2, bits)
  }

  ghost function TenFold(number: nat, tens: nat): nat {
    number * Pow(10, tens)
  }

  lemma Sizes(units: nat, bits: nat, tens: nat)
    requires units <= 0x80_0000_0000_0000 && bits <= 1076 && tens <= 324
    ensures Moderate(Doubled(units, bits)) && Moderate(TenFold(Doubled(units, bits), tens))
    ensures Doubled(units, 0) == units && TenFold(Doubled(units, bits), 0) == Doubled(units, bits)
  {
    Magnitude(units, bits, tens);
  }

  lemma ScaledInSteps(units: nat, exp: int, k: int)
    ensures Scaled(units, exp, k) == TenFold(Doubled(units, Part(exp)), Part(-k))
    ensures ScaleOf(exp, k) == TenFold(Doubled(1, Part(-exp)), Part(k))
  {}

  lemma ModerateIs(number: nat)
    requires Moderate(number)
    ensures Wrapped(number) == number
  {
    ModerateFits(number, number);
  }

  method Shift(big: Big, bits: nat)
    requires Ready(big) && Moderate(Doubled(ValueOf(big), bits))
    modifies big, big.limbs
    ensures Ready(big) && ValueOf(big) == Doubled(old(ValueOf(big)), bits)
  {
    ModerateIs(Doubled(ValueOf(big), bits));
    hide Wrapped, Capacity, Moderate, Pow;
    big.ShiftLeft(bits);
  }

  method Tens(big: Big, tens: nat)
    requires Ready(big) && Moderate(TenFold(ValueOf(big), tens))
    modifies big, big.limbs
    ensures Ready(big) && ValueOf(big) == TenFold(old(ValueOf(big)), tens)
  {
    ModerateIs(TenFold(ValueOf(big), tens));
    hide Wrapped, Capacity, Moderate, Pow;
    big.MulPow10(tens);
  }

  method FromFloat(float: Decoded) returns (mant: Big, minus: Big, plus: Big, scale: Big)
    requires Reasonable(float)
    ensures fresh(mant) && fresh(mant.limbs) && fresh(minus) && fresh(minus.limbs)
    ensures fresh(plus) && fresh(plus.limbs) && fresh(scale) && fresh(scale.limbs)
    ensures Loop(mant, minus, plus, scale)
    ensures ValueOf(mant) == float.mant && ValueOf(minus) == float.minus && ValueOf(plus) == float.plus
    ensures ValueOf(scale) == 1
  {
    hide Big.Valid, Big.Trimmed, Big.Value, Capacity;
    mant := new Big.FromU64(float.mant);
    minus := new Big.FromU64(float.minus);
    plus := new Big.FromU64(float.plus);
    scale := new Big.FromSmall(1);
  }

  /** Clears a negative binary exponent into the scale, or a positive one into the others. */
  method ScaleBinary(mant: Big, minus: Big, plus: Big, scale: Big, exp: int)
    requires Loop(mant, minus, plus, scale)
    requires Moderate(Doubled(ValueOf(mant), Part(exp))) && Moderate(Doubled(ValueOf(minus), Part(exp)))
    requires Moderate(Doubled(ValueOf(plus), Part(exp))) && Moderate(Doubled(ValueOf(scale), Part(-exp)))
    modifies mant, mant.limbs, minus, minus.limbs, plus, plus.limbs, scale, scale.limbs
    ensures Loop(mant, minus, plus, scale)
    ensures ValueOf(mant) == Doubled(old(ValueOf(mant)), Part(exp))
    ensures ValueOf(minus) == Doubled(old(ValueOf(minus)), Part(exp))
    ensures ValueOf(plus) == Doubled(old(ValueOf(plus)), Part(exp))
    ensures ValueOf(scale) == Doubled(old(ValueOf(scale)), Part(-exp))
  {
    hide Ready, ValueOf, Doubled, Moderate, Capacity;
    DoubledZero(ValueOf(mant));
    DoubledZero(ValueOf(minus));
    DoubledZero(ValueOf(plus));
    DoubledZero(ValueOf(scale));
    if exp < 0 {
      Shift(scale, -exp);
    } else {
      Shift(mant, exp);
      Shift(minus, exp);
      Shift(plus, exp);
    }
  }

  lemma DoubledZero(number: nat)
    ensures Doubled(number, 0) == number && TenFold(number, 0) == number
  {}

  /** Clears a negative estimate into the float's integers, or a positive one into the scale. */
  method ScaleDecimal(mant: Big, minus: Big, plus: Big, scale: Big, k: int)
    requires Loop(mant, minus, plus, scale)
    requires Moderate(TenFold(ValueOf(mant), Part(-k))) && Moderate(TenFold(ValueOf(minus), Part(-k)))
    requires Moderate(TenFold(ValueOf(plus), Part(-k))) && Moderate(TenFold(ValueOf(scale), Part(k)))
    modifies mant, mant.limbs, minus, minus.limbs, plus, plus.limbs, scale, scale.limbs
    ensures Loop(mant, minus, plus, scale)
    ensures ValueOf(mant) == TenFold(old(ValueOf(mant)), Part(-k))
    ensures ValueOf(minus) == TenFold(old(ValueOf(minus)), Part(-k))
    ensures ValueOf(plus) == TenFold(old(ValueOf(plus)), Part(-k))
    ensures ValueOf(scale) == TenFold(old(ValueOf(scale)), Part(k))
  {
    hide Ready, ValueOf, TenFold, Moderate, Capacity;
    DoubledZero(ValueOf(mant));
    DoubledZero(ValueOf(minus));
    DoubledZero(ValueOf(plus));
    DoubledZero(ValueOf(scale));
    if k >= 0 {
      Tens(scale, k);
    } else {
      Tens(mant, -k);
      Tens(minus, -k);
      Tens(plus, -k);
    }
  }

  /** The integers of the float and its interval over a common scale. */
  method Prepare(float: Decoded, k: int) returns (mant: Big, minus: Big, plus: Big, scale: Big)
    requires Reasonable(float) && -324 <= k <= 308
    ensures fresh(mant) && fresh(mant.limbs) && fresh(minus) && fresh(minus.limbs)
    ensures fresh(plus) && fresh(plus.limbs) && fresh(scale) && fresh(scale.limbs)
    ensures Loop(mant, minus, plus, scale) && Moderate(ValueOf(scale))
    ensures AtDigit(float, 0, ValueOf(mant), ValueOf(minus), ValueOf(plus), ValueOf(scale), k)
  {
    ScaledInSteps(float.mant, float.exp, k);
    ScaledInSteps(float.minus, float.exp, k);
    ScaledInSteps(float.plus, float.exp, k);
    Sizes(float.mant, Part(float.exp), Part(-k));
    Sizes(float.minus, Part(float.exp), Part(-k));
    Sizes(float.plus, Part(float.exp), Part(-k));
    Sizes(1, Part(-float.exp), Part(k));
    AtStart(float, k);
    hide Scaled, ScaleOf, Doubled, TenFold, Moderate, Capacity, Ready, ValueOf, AtDigit, Loop;
    mant, minus, plus, scale := FromFloat(float);
    ScaleBinary(mant, minus, plus, scale, float.exp);
    ScaleDecimal(mant, minus, plus, scale, k);
  }

  /** Fixes the estimate: afterwards the first digit is next. */
  method FixEstimate(mant: Big, minus: Big, plus: Big, scale: Big, float: Decoded, estimate: int) returns (k: int)
    requires Reasonable(float) && Loop(mant, minus, plus, scale) && Moderate(ValueOf(scale))
    requires estimate == EstimateScalingFactor(float.mant + float.plus, float.exp)
    requires AtDigit(float, 0, ValueOf(mant), ValueOf(minus), ValueOf(plus), ValueOf(scale), estimate)
    modifies mant, mant.limbs, minus, minus.limbs, plus, plus.limbs
    ensures Loop(mant, minus, plus, scale) && estimate <= k <= estimate + 1
    ensures BeforeDigit(float, 0, 0, k, ValueOf(mant), ValueOf(minus), ValueOf(plus), ValueOf(scale))
    ensures Starts(ValueOf(mant), ValueOf(minus), ValueOf(plus), ValueOf(scale), float.inclusive)
    ensures Exp(10, k - 17) < Binary(float.minus, float.exp) + Binary(float.plus, float.exp)
  {
    hide Ready, ValueOf, BeforeDigit, Starts, AtDigit, Moderate, Capacity, Exp, Binary, IsBelow, Reasonable;
    hide EstimateScalingFactor;
    ghost var m, a, p, s := ValueOf(mant), ValueOf(minus), ValueOf(plus), ValueOf(scale);
    Fixed(float, estimate, m, a, p, s);
    StartSizes(float, m, a, p, s);
    var below := BelowSum(scale, mant, plus, float.inclusive);
    if below {
      return estimate + 1;
    }
    Advance(mant, minus, plus, scale);
    k := estimate;
  }

  lemma StartSizes(float: Decoded, mant: nat, minus: nat, plus: nat, scale: nat)
    requires Reasonable(float) && Moderate(scale)
    requires AtDigit(float, 0, mant, minus, plus, scale, EstimateScalingFactor(float.mant + float.plus, float.exp))
    ensures mant + plus < Capacity()
    ensures !IsBelow(scale, mant + plus, float.inclusive) ==> Moderate(mant) && Moderate(minus) && Moderate(plus)
  {
    EstimateScaled(float, mant, minus, plus, scale);
    KeepsOrder(float, mant, minus, plus, scale, EstimateScalingFactor(float.mant + float.plus, float.exp));
    ModerateFits(scale, 64 * scale);
  }

  lemma TenfoldDecimal(digits: nat, exponent: int)
    ensures Decimal(10 * digits, exponent) == Decimal(digits, exponent + 1)
  {
    FinerUnit(digits, exponent + 1);
  }

  /** Digits that end in nine are never rounded up: one more would be a shorter decimal in the interval. */
  lemma NoNineRoundsUp(float: Decoded, text: string, exponent: int)
    requires text != "" && text[|text| - 1] == '9'
    requires InInterval(float, Number(text) + 1, exponent)
    ensures !NoneIn(float, exponent + 1)
  {
    var shorter := Number(text[..|text| - 1]) + 1;
    assert Number(text) + 1 == 10 * shorter;
    TenfoldDecimal(shorter, exponent);
    hide Binary, Decimal;
    assert InInterval(float, shorter, exponent + 1);
  }

  /** What the tests of the last round say about the choice of digits. */
  lemma LastRound(float: Decoded, digits: nat, count: nat, k: int, mant: nat, minus: nat, plus: nat, scale: nat,
                  down: bool, up: bool)
    requires Reasonable(float) && AfterDigit(float, digits, count, k, mant, minus, plus, scale)
    requires down == IsBelow(mant, minus, float.inclusive) && up == IsBelow(scale, mant + plus, float.inclusive)
    requires down || up
    ensures Shortest(float, if up && (!down || scale <= 2 * mant) then digits + 1 else digits, k - count)
    ensures NoneIn(float, k - count + 1)
  {
    TestsMean(float, digits, mant, minus, plus, scale, k - count);
    hide AtDigit, NoneIn, InInterval, Decimal, Binary, Exp, Shortest, RoundsUp;
    Chosen(float, digits, k - count, down, up, scale <= 2 * mant);
  }

  lemma RoundsProperly(float: Decoded, text: string, exponent: int)
    requires text != "" && NoneIn(float, exponent + 1) && Shortest(float, Number(text) + 1, exponent)
    ensures text[|text| - 1] != '9'
  {
    if text[|text| - 1] == '9' {
      NoNineRoundsUp(float, text, exponent);
    }
  }

  /** Whether the rest is at least one half of a digit. */
  method HalfOrMore(mant: Big, minus: Big, plus: Big, scale: Big, ghost float: Decoded, ghost digits: nat,
                    ghost count: nat, ghost k: int)
    returns (half: bool)
    requires Loop(mant, minus, plus, scale)
    requires AfterDigit(float, digits, count, k, ValueOf(mant), ValueOf(minus), ValueOf(plus), ValueOf(scale))
    modifies mant, mant.limbs
    ensures half <==> ValueOf(scale) <= 2 * old(ValueOf(mant))
  {
    hide Moderate, Capacity, AfterDigit, Wrapped;
    ghost var before := ValueOf(mant);
    AfterBounds(float, digits, count, k, before, ValueOf(minus), ValueOf(plus), ValueOf(scale));
    ModerateFits(ValueOf(scale), 2 * before);
    assert Pow(2, 1) == 2;
    hide Pow;
    mant.ShiftLeft(1);
    var order := mant.CompareTo(scale);
    half := order != Less;
  }

  /** Generates digits, and says whether they are to be rounded up. */
  method Generated(float: Decoded, digits: array<char>) returns (count: nat, k: int, raised: bool)
    requires Reasonable(float) && digits.Length == 18
    modifies digits
    ensures 1 <= count <= 17 && AllDigits(digits[..count])
    ensures Shortest(float, if raised then Number(digits[..count]) + 1 else Number(digits[..count]), k - count)
    ensures NoneIn(float, k - count + 1)
    ensures digits[0] != '0' || (count == 1 && raised)
    ensures -324 <= k <= 309
  {
    hide Ready, ValueOf, BeforeDigit, AfterDigit, Starts, AtDigit, Moderate, Capacity, Exp, Binary, IsBelow, Loop;
    hide Shortest, InInterval, Number, NoneIn;
    var estimate := EstimateScalingFactor(float.mant + float.plus, float.exp);
    EstimateWithinOne(float.mant + float.plus, float.exp);
    hide Reasonable, EstimateScalingFactor;
    var mant, minus, plus, scale := Prepare(float, estimate);
    k := FixEstimate(mant, minus, plus, scale, float, estimate);
    var down, up;
    count, down, up := Generate(mant, minus, plus, scale, float.inclusive, digits, float, k);
    LastRound(float, Number(digits[..count]), count, k, ValueOf(mant), ValueOf(minus), ValueOf(plus), ValueOf(scale),
      down, up);
    var half := HalfOrMore(mant, minus, plus, scale, float, Number(digits[..count]), count, k);
    // One more is chosen when the digits are outside the interval, or when it is at least as near.
    raised := up && (!down || half);
  }

  /**
    * The shortest digits of a finite, nonzero, positive float: the float reads 0.digits times ten to the `k`. At most
    * seventeen digits are needed, and the carry never runs off the front.
    */
  method ShortestOf(bits: nat, digits: array<char>) returns (count: nat, k: int)
    requires Positive(bits) && digits.Length == 18
    modifies digits
    ensures 1 <= count <= 17 && AllDigits(digits[..count]) && digits[0] != '0'
    ensures Shortest(Decode(bits), Number(digits[..count]), k - count)
    ensures -324 <= k <= 309
  {
    DecodeReasonable(bits);
    hide Shortest, InInterval, Number, NoneIn, Positive, Decode, Reasonable;
    var raised;
    count, k, raised := Generated(Decode(bits), digits);
    if raised {
      RoundsProperly(Decode(bits), digits[..count], k - count);
      assert digits[count - 1] != '9';
      count, k := RoundUp(digits, count, k);
    }
  }
}
