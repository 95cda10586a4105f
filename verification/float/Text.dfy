/** Floats in positional notation. */
module FloatPrinting {
  import opened Powers
  import opened Floats
  import opened ShortestDigits
  import opened FloatText
  import opened ReadBack
  import opened FewestDigits

  const MAX_LEN: nat := 352

  // ---- Reading positional notation ----

  /** The position of the first point, or the length without one. */
  ghost function Point(text: string): (point: nat)
    ensures point <= |text|
    ensures point < |text| ==> text[point] == '.'
    ensures forall i :: 0 <= i < point ==> text[i] != '.'
  {
    if text == "" || text[0] == '.' then 0 else Point(text[1..]) + 1
  }

  /** The number that digits with at most one point among them stand for. */
  ghost function TextValue(text: string): real {
    var point := Point(text);
    if point == |text| then Decimal(Number(text), 0)
    else Decimal(Number(text[..point] + text[point + 1..]), point + 1 - |text|)
  }

  lemma PointIs(text: string, whole: string)
    requires AllDigits(whole)
    ensures Point(whole) == |whole|
    ensures Point(whole + "." + text) == |whole|
  {
    var joined := whole + "." + text;
    assert forall i :: 0 <= i < |whole| ==> joined[i] == whole[i];
    assert joined[|whole|] == '.';
  }

  function Zeros(count: nat): (zeros: string)
    ensures |zeros| == count && AllDigits(zeros)
    ensures forall i :: 0 <= i < count ==> zeros[i] == '0'
  {
    seq(count, i => '0')
  }

  /** Leading zeros do not count. */
  lemma {:induction false} LeadingZeros(zeros: string, text: string)
    requires forall i :: 0 <= i < |zeros| ==> zeros[i] == '0'
    ensures Number(zeros + text) == Number(text)
  {
    if text != "" {
      assert (zeros + text)[..|zeros + text| - 1] == zeros + text[..|text| - 1];
      LeadingZeros(zeros, text[..|text| - 1]);
    } else if zeros != "" {
      assert zeros + text == zeros && zeros[..|zeros| - 1] + text == zeros[..|zeros| - 1];
      LeadingZeros(zeros[..|zeros| - 1], text);
    }
  }

  /** A trailing zero is a factor of ten. */
  lemma {:induction false} TrailingZeros(text: string, zeros: string)
    requires forall i :: 0 <= i < |zeros| ==> zeros[i] == '0'
    ensures Decimal(Number(text + zeros), 0) == Decimal(Number(text), |zeros|)
  {
    if zeros == "" {
      assert text + zeros == text;
    } else {
      var last := |zeros| - 1;
      assert (text + zeros)[..|text + zeros| - 1] == text + zeros[..last];
      TrailingZeros(text, zeros[..last]);
      MoreZeros(Number(text + zeros[..last]), Number(text), last);
    }
  }

  lemma MoreZeros(left: nat, right: nat, zeros: nat)
    requires Decimal(left, 0) == Decimal(right, zeros)
    ensures Decimal(10 * left, 0) == Decimal(right, zeros + 1)
  {
    TenTimesDecimal(left, 0);
    TenfoldDecimal(right, zeros);
    TenTimesDecimal(right, zeros);
  }

  lemma TenTimesDecimal(digits: nat, exponent: int)
    ensures Decimal(10 * digits, exponent) == 10.0 * Decimal(digits, exponent)
  {
    hide Exp;
    ScaleInReals(digits as real, Exp(10, exponent));
  }

  lemma ScaleInReals(digits: real, unit: real)
    ensures (10.0 * digits) * unit == 10.0 * (digits * unit)
  {}

  lemma {:induction false} NumberBelow(text: string)
    requires AllDigits(text)
    ensures Number(text) < Pow(10, |text|)
  {
    if text != "" {
      NumberBelow(text[..|text| - 1]);
    }
  }

  /** Digits that do not begin with zero stand for a number of that many digits. */
  lemma {:induction false} NumberAtLeast(text: string)
    requires text != "" && AllDigits(text) && text[0] != '0'
    ensures Pow(10, |text| - 1) <= Number(text)
  {
    if |text| > 1 {
      NumberAtLeast(text[..|text| - 1]);
    } else {
      assert Number(text[..0]) == 0 && DigitOf(text[0]) >= 1;
    }
  }

  // ---- The layout ----

  /** 0.digits times ten to the `k`, in positional notation. */
  function Layout(digits: string, k: int): string {
    if k <= 0 then "0." + Zeros(-k) + digits
    else if k < |digits| then digits[..k] + "." + digits[k..]
    else digits + Zeros(k - |digits|)
  }

  lemma ValueWithPoint(whole: string, fraction: string)
    requires AllDigits(whole)
    ensures TextValue(whole + "." + fraction) == Decimal(Number(whole + fraction), 0 - |fraction|)
  {
    hide Decimal, Number, Point;
    var text := whole + "." + fraction;
    PointIs(fraction, whole);
    assert text[..|whole|] == whole && text[|whole| + 1..] == fraction;
  }

  lemma ValueWithoutPoint(text: string)
    requires AllDigits(text)
    ensures TextValue(text) == Decimal(Number(text), 0)
  {
    hide Decimal, Number, Point;
    PointIs("", text);
  }

  lemma FractionReads(digits: string, k: int)
    requires AllDigits(digits) && digits != "" && k <= 0
    ensures TextValue(Layout(digits, k)) == Decimal(Number(digits), k - |digits|)
  {
    hide *;
    var zeros := Zeros(-k);
    FractionLayout(digits, k);
    ValueWithPoint("0", zeros + digits);
    LeadingZeros("0", zeros + digits);
    LeadingZeros(zeros, digits);
  }

  lemma FractionLayout(digits: string, k: int)
    requires k <= 0
    ensures Layout(digits, k) == "0" + "." + (Zeros(-k) + digits) && AllDigits("0")
    ensures |Zeros(-k) + digits| == -k + |digits|
  {
    hide Zeros;
    assert "0." == "0" + ".";
  }

  lemma SplitReads(digits: string, k: int)
    requires AllDigits(digits) && 0 < k < |digits|
    ensures TextValue(Layout(digits, k)) == Decimal(Number(digits), k - |digits|)
  {
    hide Decimal, Number, TextValue, AllDigits;
    SplitDigits(digits, k);
    ValueWithPoint(digits[..k], digits[k..]);
  }

  lemma SplitDigits(digits: string, k: nat)
    requires AllDigits(digits) && k <= |digits|
    ensures AllDigits(digits[..k]) && AllDigits(digits[k..]) && digits[..k] + digits[k..] == digits
  {}

  lemma WholeReads(digits: string, k: int)
    requires AllDigits(digits) && |digits| <= k && 0 < k
    ensures TextValue(Layout(digits, k)) == Decimal(Number(digits), k - |digits|)
  {
    hide Decimal, Number, TextValue, Zeros;
    var zeros := Zeros(k - |digits|);
    ValueWithoutPoint(digits + zeros);
    TrailingZeros(digits, zeros);
  }

  /** The layout moves the point and nothing else. */
  lemma LayoutReads(digits: string, k: int)
    requires AllDigits(digits) && digits != ""
    ensures TextValue(Layout(digits, k)) == Decimal(Number(digits), k - |digits|)
  {
    hide *;
    if k <= 0 {
      FractionReads(digits, k);
    } else if k < |digits| {
      SplitReads(digits, k);
    } else {
      WholeReads(digits, k);
    }
  }

  /** A number as one writes it: no needless zero at either end, and a digit on both sides of a point. */
  ghost predicate Tidy(text: string) {
    && text != "" && '0' <= text[0] <= '9' && '0' <= text[|text| - 1] <= '9'
    && (forall i :: 0 <= i < |text| ==> '0' <= text[i] <= '9' || (text[i] == '.' && i == Point(text)))
    && (text[0] == '0' ==> |text| == 1 || text[1] == '.')
    && (Point(text) < |text| ==> text[|text| - 1] != '0')
  }

  lemma PointedIsTidy(whole: string, fraction: string)
    requires AllDigits(whole) && whole != "" && (whole[0] == '0' ==> |whole| == 1)
    requires AllDigits(fraction) && fraction != "" && fraction[|fraction| - 1] != '0'
    ensures Tidy(whole + "." + fraction)
  {
    PointIs(fraction, whole);
    var text := whole + "." + fraction;
    forall i | 0 <= i < |text| ensures '0' <= text[i] <= '9' || (text[i] == '.' && i == |whole|) {
      assert i > |whole| ==> text[i] == fraction[i - |whole| - 1];
    }
    assert text[|text| - 1] == fraction[|fraction| - 1] && text[0] == whole[0];
  }

  lemma WholeIsTidy(digits: string)
    requires AllDigits(digits) && digits != "" && digits[0] != '0'
    ensures Tidy(digits)
  {
    PointIs("", digits);
  }

  /** Digits that neither begin nor end with zero are laid out tidily. */
  lemma LayoutIsTidy(digits: string, k: int)
    requires AllDigits(digits) && digits != "" && digits[0] != '0' && digits[|digits| - 1] != '0'
    ensures Tidy(Layout(digits, k))
  {
    hide Tidy;
    if k <= 0 {
      FractionLayout(digits, k);
      PointedIsTidy("0", Zeros(-k) + digits);
    } else if k < |digits| {
      PointedIsTidy(digits[..k], digits[k..]);
    } else {
      WholeIsTidy(digits + Zeros(k - |digits|));
    }
  }

  /** The shortest digits do not end with zero. */
  lemma NoTrailingZero(float: Decoded, digits: string, exponent: int)
    requires AllDigits(digits) && digits != "" && Shortest(float, Number(digits), exponent)
    ensures digits[|digits| - 1] != '0'
  {
    hide Decimal, Distance, Binary;
    var fewer := Number(digits[..|digits| - 1]);
    TenfoldDecimal(fewer, exponent);
    assert !InInterval(float, fewer, exponent + 1);
  }

  lemma ShortestIsTidy(float: Decoded, digits: string, k: int)
    requires AllDigits(digits) && digits != "" && digits[0] != '0' && Shortest(float, Number(digits), k - |digits|)
    ensures Tidy(Layout(digits, k))
  {
    hide *;
    NoTrailingZero(float, digits, k - |digits|);
    LayoutIsTidy(digits, k);
  }

  // ---- Writing ----

  /** Copies `bytes` to the end of the text; what does not fit is dropped. */
  method Put(text: array<char>, len: nat, bytes: string) returns (newLen: nat)
    requires len <= text.Length
    modifies text
    ensures newLen == len + |bytes|
    ensures newLen <= text.Length ==> text[..newLen] == old(text[..len]) + bytes
  {
    var index := 0;
    while index < |bytes| && len + index < text.Length
      invariant index <= |bytes| && len + index <= text.Length
      invariant text[..len] == old(text[..len])
      invariant text[len..len + index] == bytes[..index]
    {
      text[len + index] := bytes[index];
      assert text[len..len + index + 1] == text[len..len + index] + [bytes[index]];
      index := index + 1;
    }
    newLen := len + |bytes|;
    if newLen <= text.Length {
      assert text[..newLen] == text[..len] + text[len..newLen];
    }
  }

  method PutZeros(text: array<char>, len: nat, count: nat) returns (newLen: nat)
    requires len + count <= text.Length
    modifies text
    ensures newLen == len + count && text[..newLen] == old(text[..len]) + Zeros(count)
  {
    newLen := len;
    var done := 0;
    while done < count
      invariant done <= count && newLen == len + done
      invariant text[..newLen] == old(text[..len]) + Zeros(done)
    {
      newLen := Put(text, newLen, "0");
      assert Zeros(done + 1) == Zeros(done) + "0";
      done := done + 1;
    }
  }

  const SIGN: nat := 0x8000_0000_0000_0000
  const INFINITE: nat := 2047 * MANTISSAS

  /** The bit pattern without its sign. */
  function Magnitudes(pattern: nat): nat {
    pattern % SIGN
  }

  /**
    * The text is a sign, for a negative float, and tidy digits that read back as the float: the shortest and nearest
    * in the interval of the float, and no fewer digits read back, wherever the point is.
    */
  ghost predicate Prints(text: string, pattern: nat) {
    var magnitude, sign := Magnitudes(pattern), if pattern < SIGN then "" else "-";
    if magnitude > INFINITE then text == "NaN"
    else if magnitude == INFINITE then text == sign + "inf"
    else if magnitude == 0 then text == sign + "0"
    else
      && |text| >= |sign| && text[..|sign|] == sign && Tidy(text[|sign|..])
      && RoundsTo(TextValue(text[|sign|..]), magnitude)
      && exists digits, k {:trigger Layout(digits, k)} ::
           && text == sign + Layout(digits, k) && AllDigits(digits)
           && 1 <= |digits| <= 17 && digits[0] != '0'
           && Shortest(Decode(magnitude), Number(digits), k - |digits|)
           && FewestBack(magnitude, Number(digits), |digits|, k - |digits|)
  }

  lemma PrintsLayout(text: string, pattern: nat, sign: string, digits: string, k: int)
    requires sign == if pattern < SIGN then "" else "-"
    requires Positive(Magnitudes(pattern)) && text == sign + Layout(digits, k)
    requires 1 <= |digits| <= 17 && AllDigits(digits) && digits[0] != '0'
    requires Shortest(Decode(Magnitudes(pattern)), Number(digits), k - |digits|)
    ensures Prints(text, pattern)
  {
    hide Layout, RoundsTo, Number, TextValue, Shortest, Decode, AllDigits, FewestBack, Tidy;
    ShortestIsTidy(Decode(Magnitudes(pattern)), digits, k);
    LayoutRoundsTo(Magnitudes(pattern), digits, k);
    DigitsAreFewest(Magnitudes(pattern), digits, k);
    assert text[|sign|..] == Layout(digits, k);
    assert text[..|sign|] == sign;
  }

  lemma DigitsAreFewest(magnitude: nat, digits: string, k: int)
    requires Positive(magnitude) && 1 <= |digits| <= 17 && AllDigits(digits) && digits[0] != '0'
    requires Shortest(Decode(magnitude), Number(digits), k - |digits|)
    ensures FewestBack(magnitude, Number(digits), |digits|, k - |digits|)
  {
    hide Number, Pow, Shortest, Decode, AllDigits, FewestBack;
    NumberBelow(digits);
    NumberAtLeast(digits);
    PowGrows(10, |digits|, 17);
    ShortestIsFewest(magnitude, Number(digits), |digits|, k - |digits|);
  }

  /** The shortest digits read back as their float, wherever the point is. */
  lemma LayoutRoundsTo(magnitude: nat, digits: string, k: int)
    requires Positive(magnitude) && 1 <= |digits| <= 17 && AllDigits(digits)
    requires Shortest(Decode(magnitude), Number(digits), k - |digits|)
    ensures RoundsTo(TextValue(Layout(digits, k)), magnitude)
  {
    hide Layout, RoundsTo, Number, TextValue, Pow, Decimal, InInterval, NoneIn, Decode, AllDigits;
    NumberBelow(digits);
    PowGrows(10, |digits|, 17);
    IntervalReadsBack(magnitude, Number(digits), k - |digits|);
    LayoutReads(digits, k);
  }

  lemma LayoutAppends(prefix: string, digits: string, k: int)
    ensures k <= 0 ==> ((prefix + "0.") + Zeros(-k)) + digits == prefix + Layout(digits, k)
    ensures 0 < k < |digits| ==> ((prefix + digits[..k]) + ".") + digits[k..] == prefix + Layout(digits, k)
    ensures 0 < k && |digits| <= k ==> (prefix + digits) + Zeros(k - |digits|) == prefix + Layout(digits, k)
  {
    hide Zeros;
    if k <= 0 {
      Associates(prefix, "0.", Zeros(-k), digits);
    } else if k < |digits| {
      Associates(prefix, digits[..k], ".", digits[k..]);
    } else {
      assert (prefix + digits) + Zeros(k - |digits|) == prefix + (digits + Zeros(k - |digits|));
    }
  }

  lemma Associates(a: string, b: string, c: string, d: string)
    ensures ((a + b) + c) + d == a + (b + c + d)
  {}

  method PutLayout(text: array<char>, len: nat, digits: string, k: int) returns (newLen: nat)
    requires text.Length == MAX_LEN && len <= 1 && 1 <= |digits| <= 17 && -324 <= k <= 309
    modifies text
    ensures newLen <= MAX_LEN && text[..newLen] == old(text[..len]) + Layout(digits, k)
  {
    hide Zeros, Layout;
    LayoutAppends(text[..len], digits, k);
    newLen := len;
    if k <= 0 {
      newLen := Put(text, newLen, "0.");
      newLen := PutZeros(text, newLen, -k);
      newLen := Put(text, newLen, digits);
    } else if k < |digits| {
      newLen := Put(text, newLen, digits[..k]);
      newLen := Put(text, newLen, ".");
      newLen := Put(text, newLen, digits[k..]);
    } else {
      newLen := Put(text, newLen, digits);
      newLen := PutZeros(text, newLen, k - |digits|);
    }
  }

  /** The text of any float; it always fits. */
  method FloatTextOf(pattern: nat, text: array<char>) returns (len: nat)
    requires pattern < 2 * SIGN && text.Length == MAX_LEN
    modifies text
    ensures len <= MAX_LEN && Prints(text[..len], pattern)
  {
    var magnitude := Magnitudes(pattern);
    len := 0;
    if magnitude > INFINITE {
      len := Put(text, len, "NaN");
      return;
    }
    if pattern >= SIGN {
      len := Put(text, len, "-");
    }
    ghost var sign := text[..len];
    if magnitude == INFINITE {
      len := Put(text, len, "inf");
      return;
    }
    if magnitude == 0 {
      len := Put(text, len, "0");
      return;
    }
    hide Prints, Layout, Shortest, Number, AllDigits, Decode;
    var digits := new char[18](i => '0');
    var count, k := ShortestOf(magnitude, digits);
    len := PutLayout(text, len, digits[..count], k);
    PrintsLayout(text[..len], pattern, sign, digits[..count], k);
  }
}
