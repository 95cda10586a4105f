/** The decimal text of Ints. */
module Decimals {
  const INT_END: int := 0x8000_0000_0000_0000

  predicate IsInt(value: int) {
    -INT_END <= value < INT_END
  }

  type Int64 = number: int | IsInt(number)

  function Digit(value: nat): char
    requires value < 10
  {
    '0' + value as char
  }

  /** The decimal digits of a number, most significant first, without leading zeros. */
  ghost function Digits(value: nat): (text: string)
    ensures text != []
  {
    if value < 10 then [Digit(value)] else Digits(value / 10) + [Digit(value % 10)]
  }

  ghost function IntText(value: int): string {
    if value < 0 then "-" + Digits(-value) else Digits(value)
  }

  /** What decimal text stands for. */
  ghost function ReadDigits(text: string): nat {
    if text == [] then 0
    else
      var last := text[|text| - 1];
      10 * ReadDigits(text[..|text| - 1]) + (if '0' <= last <= '9' then (last - '0') as nat else 0)
  }

  ghost function ReadInt(text: string): int {
    if text != [] && text[0] == '-' then 0 - ReadDigits(text[1..]) else ReadDigits(text)
  }

  lemma {:induction false} DigitsRead(value: nat)
    ensures ReadDigits(Digits(value)) == value
    ensures forall i :: 0 <= i < |Digits(value)| ==> '0' <= Digits(value)[i] <= '9'
    ensures value > 0 ==> Digits(value)[0] != '0'
  {
    if value >= 10 {
      DigitsRead(value / 10);
      var text := Digits(value);
      assert text[..|text| - 1] == Digits(value / 10);
    } else {
      assert Digits(value)[..0] == [];
    }
  }

  lemma IntReads(value: int)
    ensures ReadInt(IntText(value)) == value
  {
    if value < 0 {
      DigitsRead(-value);
      assert IntText(value)[1..] == Digits(-value);
    } else {
      DigitsRead(value);
    }
  }

  /** The length of an Int's text. */
  method IntLen(value: int) returns (len: nat)
    ensures len == |IntText(value)|
  {
    var remaining: nat := if value < 0 then 0 - value else value;
    len := if value < 0 then 2 else 1;
    while remaining >= 10
      invariant len >= 1 && |IntText(value)| == len - 1 + |Digits(remaining)|
    {
      remaining := remaining / 10;
      len := len + 1;
    }
  }

  /** Numbers below a power of ten have at most as many digits. */
  ghost predicate Fits(bound: nat, length: nat) {
    forall value: nat :: value < bound ==> |Digits(value)| <= length
  }

  lemma OneDigitMore(bound: nat, length: nat)
    requires Fits(bound, length) && length > 0
    ensures Fits(10 * bound, length + 1)
  {
    forall value: nat | value < 10 * bound ensures |Digits(value)| <= length + 1 {
      if value >= 10 {
        assert |Digits(value / 10)| <= length;
      }
    }
  }

  lemma NineteenDigits()
    ensures Fits(10_000_000_000_000_000_000, 19)
  {
    assert Fits(10, 1);
    hide Fits;
    OneDigitMore(10, 1);
    OneDigitMore(100, 2);
    OneDigitMore(1_000, 3);
    OneDigitMore(10_000, 4);
    OneDigitMore(100_000, 5);
    OneDigitMore(1_000_000, 6);
    OneDigitMore(10_000_000, 7);
    OneDigitMore(100_000_000, 8);
    OneDigitMore(1_000_000_000, 9);
    OneDigitMore(10_000_000_000, 10);
    OneDigitMore(100_000_000_000, 11);
    OneDigitMore(1_000_000_000_000, 12);
    OneDigitMore(10_000_000_000_000, 13);
    OneDigitMore(100_000_000_000_000, 14);
    OneDigitMore(1_000_000_000_000_000, 15);
    OneDigitMore(10_000_000_000_000_000, 16);
    OneDigitMore(100_000_000_000_000_000, 17);
    OneDigitMore(1_000_000_000_000_000_000, 18);
  }

  lemma LastDigit(value: nat, tail: string)
    ensures Digits(value) + tail
         == (if value >= 10 then Digits(value / 10) else []) + ([Digit(value % 10)] + tail)
  {
    var before := if value >= 10 then Digits(value / 10) else [];
    assert before + [Digit(value % 10)] + tail == before + ([Digit(value % 10)] + tail);
  }

  /** Writes an Int's text into the end of a buffer, which always has room for it. */
  method WriteInt(value: int, digits: array<char>) returns (position: nat)
    requires IsInt(value) && digits.Length == 20
    modifies digits
    ensures position <= 20 && digits[position..] == IntText(value)
  {
    hide Digits, Digit;
    var remaining: nat := if value < 0 then 0 - value else value;
    ghost var all := Digits(remaining);
    NineteenDigits();
    position := 20;
    var more := true;
    while more
      invariant 1 <= position <= 20 && |all| <= 19
      invariant all == (if more then Digits(remaining) else []) + digits[position..]
      decreases if more then remaining + 1 else 0
    {
      ghost var before := digits[position..];
      LastDigit(remaining, before);
      position := position - 1;
      digits[position] := Digit(remaining % 10);
      assert digits[position..] == [Digit(remaining % 10)] + before;
      more := remaining >= 10;
      remaining := remaining / 10;
    }
    assert digits[position..] == all;
    if value < 0 {
      position := position - 1;
      digits[position] := '-';
      assert digits[position..] == "-" + all;
    }
  }
}
