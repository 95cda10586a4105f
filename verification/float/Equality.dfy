/** When two floats are equal: as numbers, not as bit patterns. */
module FloatEquality {
  import opened Floats
  import opened ReadBack

  const FLOAT_SIGN: nat := 0x8000_0000_0000_0000
  const FLOAT_INFINITE: nat := 0x7FF0_0000_0000_0000

  type FloatBits = bits: nat | bits < 2 * FLOAT_SIGN

  /** The same pattern, or two zeros, and no NaN. */
  predicate FloatsEqual(left: FloatBits, right: FloatBits) {
    && left % FLOAT_SIGN <= FLOAT_INFINITE && right % FLOAT_SIGN <= FLOAT_INFINITE
    && (left == right || (left % FLOAT_SIGN == 0 && right % FLOAT_SIGN == 0))
  }

  datatype Number = NotANumber | Infinite(negative: bool) | Finite(value: real)

  /** What a bit pattern stands for. */
  ghost function NumberOf(bits: FloatBits): Number {
    var negative, magnitude := bits >= FLOAT_SIGN, bits % FLOAT_SIGN;
    if magnitude > FLOAT_INFINITE then NotANumber
    else if magnitude == FLOAT_INFINITE then Infinite(negative)
    else Finite(if negative then 0.0 - FloatValue(magnitude) else FloatValue(magnitude))
  }

  ghost predicate SameNumber(left: FloatBits, right: FloatBits) {
    !NumberOf(left).NotANumber? && NumberOf(left) == NumberOf(right)
  }

  lemma ZeroValue()
    ensures FloatValue(0) == 0.0
  {
    hide Exp;
  }

  lemma MagnitudesGrow(low: nat, high: nat)
    requires low < high < FLOAT_INFINITE
    ensures 0.0 <= FloatValue(low) < FloatValue(high)
  {
    hide FloatValue;
    ZeroValue();
    if low == 0 {
      FloatsGrow(1, high);
    } else {
      FloatsGrow(1, low);
      FloatsGrow(low, high - 1);
      FloatsGrow(high, high);
    }
  }

  lemma MagnitudesDiffer(left: nat, right: nat)
    requires left < FLOAT_INFINITE && right < FLOAT_INFINITE
    ensures FloatValue(left) == FloatValue(right) <==> left == right
    ensures FloatValue(left) == 0.0 - FloatValue(right) <==> left == 0 == right
  {
    hide FloatValue;
    ZeroValue();
    if left < right {
      MagnitudesGrow(left, right);
    } else if right < left {
      MagnitudesGrow(right, left);
    }
    if left > 0 {
      MagnitudesGrow(0, left);
    }
  }

  lemma SignAndMagnitude(bits: FloatBits)
    ensures bits == if bits >= FLOAT_SIGN then FLOAT_SIGN + bits % FLOAT_SIGN else bits % FLOAT_SIGN
  {}

  /** Floats compare equal exactly when they are numbers, or infinities, and the same. */
  lemma FloatsEqualByValue(left: FloatBits, right: FloatBits)
    ensures FloatsEqual(left, right) <==> SameNumber(left, right)
  {
    hide FloatValue;
    SignAndMagnitude(left);
    SignAndMagnitude(right);
    if left % FLOAT_SIGN < FLOAT_INFINITE && right % FLOAT_SIGN < FLOAT_INFINITE {
      MagnitudesDiffer(left % FLOAT_SIGN, right % FLOAT_SIGN);
      MagnitudesDiffer(right % FLOAT_SIGN, left % FLOAT_SIGN);
    }
  }
}
