/** Base-128 varints and zigzag numbers. */
module Varints {
  import opened Powers
  import opened ImageBytes
  import opened Wrappers

  const U64: nat := 0x1_0000_0000_0000_0000
  const I64: int := 0x8000_0000_0000_0000

  /** The base-128 digits of a number, least significant first, all but the last with the top bit. */
  ghost function VarintOf(value: nat): (bytes: seq<byte>)
    ensures bytes != []
  {
    if value < 128 then [value] else [value % 128 + 128] + VarintOf(value / 128)
  }

  /** Appends a varint. */
  method WriteVarint(out: seq<byte>, value: nat) returns (r: seq<byte>)
    ensures r == out + VarintOf(value)
  {
    var rest: nat := value;
    r := out;
    while rest >= 128
      invariant r + VarintOf(rest) == out + VarintOf(value)
      decreases rest
    {
      assert VarintOf(rest) == [rest % 128 + 128] + VarintOf(rest / 128);
      assert r + VarintOf(rest) == (r + [rest % 128 + 128]) + VarintOf(rest / 128);
      r := r + [rest % 128 + 128];
      rest := rest / 128;
    }
    r := r + [rest];
  }

  function Shifted(number: nat, shift: nat): nat {
    number * Pow(2, shift)
  }

  /** What a byte adds at bit `shift` of a 64-bit word. */
  function Digit(digit: byte, shift: nat): nat {
    Shifted(digit % 128, shift) % U64
  }

  /** What a reader makes of the bytes and leaves, with `value` read so far and the next digit at bit `shift`. */
  ghost function ReadFrom(bytes: seq<byte>, shift: nat, value: nat): (r: (Option<nat>, seq<byte>))
    ensures |r.1| <= |bytes| && (r.0.Some? ==> |r.1| < |bytes|)
    decreases bytes
  {
    if bytes == [] then (None, [])
    else
      var read := value + Digit(bytes[0], shift);
      if bytes[0] < 128 then (Some(read), bytes[1..])
      else if shift + 7 > 63 then (None, bytes[1..])
      else ReadFrom(bytes[1..], shift + 7, read)
  }

  /** Every 64-bit number reads back as itself, and nothing after it is consumed. */
  lemma {:induction false} VarintReads(number: nat, rest: seq<byte>, shift: nat, value: nat)
    requires shift <= 63 && Shifted(number, shift) < U64
    ensures ReadFrom(VarintOf(number) + rest, shift, value) == (Some(value + Shifted(number, shift)), rest)
    decreases number
  {
    var bytes := VarintOf(number) + rest;
    if number < 128 {
      assert bytes[0] == number && bytes[1..] == rest;
      assert Digit(number, shift) == Shifted(number, shift);
      hide Shifted, Digit;
    } else {
      var low, high := number % 128, number / 128;
      assert bytes[0] == low + 128 && bytes[1..] == VarintOf(high) + rest;
      DigitFits(number, shift);
      hide Shifted, Digit;
      VarintReads(high, rest, shift + 7, value + Shifted(low, shift));
    }
  }

  /** A number of more than one digit is its lowest digit and the others, seven bits further up. */
  lemma DigitFits(number: nat, shift: nat)
    requires number >= 128 && Shifted(number, shift) < U64
    ensures var low, high := number % 128, number / 128;
      && Digit(low + 128, shift) == Shifted(low, shift)
      && Shifted(low, shift) + Shifted(high, shift + 7) == Shifted(number, shift)
      && Shifted(high, shift + 7) < U64 && shift + 7 <= 63
  {
    hide Pow, Shifted;
    var low, high, unit := number % 128, number / 128, Pow(2, shift);
    PowPositive(2, shift);
    ShiftedIs(number, shift);
    ShiftedIs(low, shift);
    ShiftedIs(high, shift + 7);
    NextUnit(shift);
    DigitAndRest(number, low, high, unit);
    DigitIs(low, shift);
    RoomForMore(high, shift);
  }

  lemma ShiftedIs(number: nat, shift: nat)
    ensures Shifted(number, shift) == number * Pow(2, shift)
  {}

  lemma DigitIs(low: nat, shift: nat)
    requires low < 128 && Shifted(low, shift) < U64
    ensures Digit(low + 128, shift) == Shifted(low, shift)
  {
    hide Shifted;
    SmallRemainder(Shifted(low, shift));
  }

  lemma NextUnit(shift: nat)
    ensures Pow(2, shift + 7) == 128 * Pow(2, shift)
  {
    SevenTwos();
    PowAdd(2, 7, shift);
    hide Pow;
  }

  lemma DigitAndRest(number: nat, low: nat, high: nat, unit: nat)
    requires number == low + 128 * high && unit > 0
    ensures low * unit + high * (128 * unit) == number * unit
    ensures low * unit <= number * unit && high * (128 * unit) <= number * unit
  {
    DigitSplits(low, high, unit);
  }

  lemma SmallRemainder(number: nat)
    requires number < U64
    ensures number % U64 == number
  {}

  lemma DigitSplits(low: nat, high: nat, unit: nat)
    ensures (low + 128 * high) * unit == low * unit + high * (128 * unit)
    ensures low * unit <= (low + 128 * high) * unit
  {
    MulAssociates(high, 128, unit);
    assert high * 128 == 128 * high;
    assert (low + 128 * high) * unit == low * unit + 128 * high * unit;
    MulMonotone(low, low + 128 * high, unit, unit);
  }

  lemma SevenTwos()
    ensures Pow(2, 7) == 128
  {
    assert Pow(2, 3) == 8;
    PowSum(2, 3, 8, 3, 8, 6, 64);
    PowSum(2, 6, 64, 1, 2, 7, 128);
  }

  lemma SixtyFourTwos()
    ensures Pow(2, 64) == U64
  {
    assert Pow(2, 4) == 16;
    PowSum(2, 4, 16, 4, 16, 8, 256);
    PowSum(2, 8, 256, 8, 256, 16, 65536);
    PowSum(2, 16, 65536, 16, 65536, 32, 0x1_0000_0000);
    PowSum(2, 32, 0x1_0000_0000, 32, 0x1_0000_0000, 64, U64);
  }

  /** A digit that is left has room below bit 64. */
  lemma RoomForMore(high: nat, shift: nat)
    requires high > 0 && high * (128 * Pow(2, shift)) < U64
    ensures shift + 7 <= 63
  {
    SixtyFourTwos();
    SevenTwos();
    PowAdd(2, 7, shift);
    MulMonotone(1, high, 128 * Pow(2, shift), 128 * Pow(2, shift));
    if shift + 7 >= 64 {
      PowGrows(2, 64, shift + 7);
    }
  }

  /** Every number below `bound` takes at most `length` bytes. */
  ghost predicate Short(bound: nat, length: nat) {
    forall number: nat :: number < bound ==> |VarintOf(number)| <= length
  }

  lemma OneByteMore(bound: nat, length: nat)
    requires Short(bound, length) && length > 0
    ensures Short(128 * bound, length + 1)
  {
    forall number: nat | number < 128 * bound ensures |VarintOf(number)| <= length + 1 {
      if number >= 128 {
        assert |VarintOf(number / 128)| <= length;
      }
    }
  }

  /** A 64-bit number takes at most ten bytes. */
  lemma AtMostTen(number: nat)
    requires number < U64
    ensures |VarintOf(number)| <= 10
  {
    assert Short(0x80, 1);
    hide VarintOf;
    OneByteMore(0x80, 1);
    OneByteMore(0x4000, 2);
    OneByteMore(0x20_0000, 3);
    OneByteMore(0x1000_0000, 4);
    OneByteMore(0x8_0000_0000, 5);
    OneByteMore(0x400_0000_0000, 6);
    OneByteMore(0x2_0000_0000_0000, 7);
    OneByteMore(0x100_0000_0000_0000, 8);
    OneByteMore(0x8000_0000_0000_0000, 9);
  }

  // ---- Signed numbers ----

  function ZigZag(value: int): nat {
    if value >= 0 then 2 * value else -2 * value - 1
  }

  function UnZigZag(number: nat): int {
    if number % 2 == 0 then number / 2 else -(number / 2) - 1
  }

  lemma ZigZagReads(value: int)
    requires -I64 <= value < I64
    ensures UnZigZag(ZigZag(value)) == value && ZigZag(value) < U64
  {}

  ghost function SignedOf(value: int): seq<byte> {
    VarintOf(ZigZag(value))
  }

  method WriteSigned(out: seq<byte>, value: int) returns (r: seq<byte>)
    ensures r == out + SignedOf(value)
  {
    r := WriteVarint(out, ZigZag(value));
  }

  // ---- The reader ----

  ghost function VarintAt(bytes: seq<byte>): (r: (Option<nat>, seq<byte>))
    ensures |r.1| <= |bytes| && (r.0.Some? ==> |r.1| < |bytes|)
  {
    ReadFrom(bytes, 0, 0)
  }

  ghost function SignedAt(bytes: seq<byte>): (r: (Option<int>, seq<byte>))
    ensures |r.1| <= |bytes| && (r.0.Some? ==> |r.1| < |bytes|)
  {
    var number := VarintAt(bytes);
    (if number.0.None? then None else Some(UnZigZag(number.0.value)), number.1)
  }

  lemma VarintReadsBack(number: nat, rest: seq<byte>)
    requires number < U64
    ensures VarintAt(VarintOf(number) + rest) == (Some(number), rest)
  {
    assert Pow(2, 0) == 1;
    VarintReads(number, rest, 0, 0);
  }

  lemma SignedReadsBack(value: int, rest: seq<byte>)
    requires -I64 <= value < I64
    ensures SignedAt(SignedOf(value) + rest) == (Some(value), rest)
  {
    ZigZagReads(value);
    VarintReadsBack(ZigZag(value), rest);
  }

  class Reader {
    /** The remaining bytes. */
    var bytes: seq<byte>

    constructor (bytes: seq<byte>)
      ensures this.bytes == bytes
    {
      this.bytes := bytes;
    }

    method Varint() returns (r: Option<nat>)
      modifies this
      ensures (r, bytes) == VarintAt(old(bytes))
    {
      var value: nat, shift: nat := 0, 0;
      while true
        invariant ReadFrom(bytes, shift, value) == VarintAt(old(bytes))
        decreases bytes
      {
        if bytes == [] {
          return None;
        }
        var byte := bytes[0];
        bytes := bytes[1..];
        value := value + byte % 128 * Pow(2, shift) % U64;
        if byte < 128 {
          return Some(value);
        }
        shift := shift + 7;
        if shift > 63 {
          return None;
        }
      }
    }

    method Signed() returns (r: Option<int>)
      modifies this
      ensures (r, bytes) == SignedAt(old(bytes))
    {
      var number := Varint();
      r := if number.Some? then Some(UnZigZag(number.value)) else None;
    }

    method Byte() returns (r: Option<byte>)
      modifies this
      ensures old(bytes) == [] ==> r == None && bytes == []
      ensures old(bytes) != [] ==> r == Some(old(bytes)[0]) && bytes == old(bytes)[1..]
    {
      if bytes == [] {
        return None;
      }
      r := Some(bytes[0]);
      bytes := bytes[1..];
    }
  }
}
