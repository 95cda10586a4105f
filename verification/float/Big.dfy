/** Non-negative big integers of 170 limbs, for exact decimal conversion. */
module BigIntegers {
  import opened Powers
  import opened Limbs

  datatype Ordering = Less | Equal | Greater

  function Order(left: nat, right: nat): Ordering {
    if left < right then Less else if left == right then Equal else Greater
  }

  /** The number of binary digits. */
  function BitsOf(number: nat): (bits: nat)
    ensures number < Pow(2, bits)
    ensures bits > 0 ==> Pow(2, bits - 1) <= number
  {
    if number == 0 then 0 else 1 + BitsOf(number / 2)
  }

  /** Arithmetic is modulo `Capacity()`, 2 to the 5440th: `Wrapped` is the identity below it. */
  class Big {
    const limbs: array<nat>
    var len: nat

    /** Limbs are 32-bit words, and those beyond `len` are zero. */
    ghost predicate Valid()
      reads this, limbs
    {
      && limbs.Length == LIMBS && len <= LIMBS
      && Digits(limbs[..])
      && ZeroFrom(limbs[..], len)
    }

    ghost predicate Trimmed()
      reads this, limbs
    {
      TopUsed(limbs[..], len)
    }

    /** The number this stands for. */
    ghost function Value(): (value: nat)
      requires Valid()
      reads this, limbs
      ensures value < Capacity()
    {
      ValFits(limbs[..], len);
      Val(limbs[..], len)
    }

    lemma ValueIs()
      requires Valid()
      ensures Value() == Val(limbs[..], len)
    {}

    constructor FromSmall(value: nat)
      requires value < BASE
      ensures Valid() && Trimmed() && Value() == value
      ensures fresh(limbs)
    {
      limbs := new nat[LIMBS](i => 0);
      len := 0;
      new;
      SmallFits(value);
      AddSmall(value);
    }

    constructor FromU64(value: nat)
      requires value < BASE * BASE
      ensures Valid() && Trimmed() && Value() == value
      ensures fresh(limbs)
    {
      limbs := new nat[LIMBS](i => 0);
      len := 0;
      new;
      NothingIsZero(limbs[..]);
      Build(value);
    }

    method Build(value: nat)
      requires Valid() && Value() == 0 && value < BASE * BASE
      modifies this, limbs
      ensures Valid() && Trimmed() && Value() == value
    {
      hide Wrapped, Capacity, Pow, Valid, Value, Trimmed;
      HalvesFit(value);
      AddSmall(value / BASE);
      ShiftLeft(32);
      AddSmall(value % BASE);
    }

    /** A copy with its own limbs. */
    constructor Clone(other: Big)
      requires other.Valid()
      ensures Valid() && Value() == other.Value()
      ensures other.Trimmed() ==> Trimmed()
      ensures fresh(limbs)
    {
      var copy := new nat[LIMBS](i => 0);
      var index := 0;
      while index < LIMBS
        invariant index <= LIMBS
        invariant copy[..index] == other.limbs[..index]
        invariant other.limbs[..] == old(other.limbs[..])
      {
        copy[index] := other.limbs[index];
        index := index + 1;
      }
      assert copy[..] == other.limbs[..];
      limbs := copy;
      len := other.len;
    }

    /** Makes the top limb nonzero without changing the number. */
    method Trim()
      requires Valid()
      modifies this
      ensures Valid() && Trimmed() && Value() == old(Value())
    {
      while len > 0 && limbs[len - 1] == 0
        invariant Valid() && Value() == old(Value())
        decreases len
      {
        len := len - 1;
      }
    }

    method MulSmall(factor: nat)
      requires Valid() && factor < BASE
      modifies this, limbs
      ensures Valid() && Value() == Wrapped(old(Value()) * factor)
      ensures old(Trimmed()) && factor > 0 && old(Value()) * factor < Capacity() ==> Trimmed()
    {
      hide Wrapped, Capacity, Multiplying, Val, Digits;
      ghost var before := limbs[..];
      var carry: nat, index: nat := 0, 0;
      ProductStarts(before, factor);
      while index < len
        invariant index <= len == old(len) <= LIMBS
        invariant Multiplying(before, limbs[..], index, carry, factor)
      {
        ghost var now := limbs[..];
        var product := limbs[index] * factor + carry;
        limbs[index] := product % BASE;
        ProductNext(before, now, limbs[..], index, carry, factor);
        carry := product / BASE;
        index := index + 1;
      }
      ghost var now := limbs[..];
      if carry != 0 && len < LIMBS {
        limbs[len] := carry;
        len := len + 1;
      }
      ProductEnds(before, now, limbs[..], index, carry, factor, len);
    }

    method AddSmall(value: nat)
      requires Valid() && value < BASE
      modifies this, limbs
      ensures Valid() && Trimmed() && Value() == Wrapped(old(Value()) + value)
    {
      hide *;
      CarrySmall(value);
      Trim();
    }

    /** The carry loop of AddSmall: it ends without a carry, or behind the last limb. */
    method Ripple(value: nat, ghost zeros: seq<nat>) returns (index: nat, ghost carry: nat)
      requires limbs.Length == |zeros| == LIMBS && Digits(limbs[..]) && Digits(zeros) && ZeroFrom(zeros, 0)
      requires value < BASE
      modifies limbs
      ensures Adding(old(limbs[..]), zeros, limbs[..], index, carry, value)
      ensures index <= LIMBS && (carry == 0 || index == LIMBS)
    {
      ghost var before := limbs[..];
      hide Adding, Val, Digits, ZeroFrom;
      var over: nat := value;
      index := 0;
      SumStarts(before, zeros, value);
      while over != 0 && index < LIMBS
        invariant index <= LIMBS && Adding(before, zeros, limbs[..], index, over, value)
        decreases LIMBS - index
      {
        ghost var now := limbs[..];
        var sum := limbs[index] + over;
        limbs[index] := sum % BASE;
        ZeroLimb(zeros, index);
        SumNext(before, zeros, now, limbs[..], index, over, value);
        over := sum / BASE;
        index := index + 1;
      }
      carry := over;
    }

    lemma ZeroLimb(zeros: seq<nat>, index: nat)
      requires ZeroFrom(zeros, 0) && index < |zeros|
      ensures zeros[index] == 0
    {}

    method CarrySmall(value: nat)
      requires Valid() && value < BASE
      modifies this, limbs
      ensures Valid() && Value() == Wrapped(old(Value()) + value)
    {
      hide Zeros, Wrapped, Capacity, Adding, Val, Digits, Value, ZeroFrom;
      ghost var before, zeros := limbs[..], Zeros();
      ValueIs();
      var index, carry := Ripple(value, zeros);
      len := if len < index then index else len;
      SmallSumEnds(before, zeros, limbs[..], index, carry, value, old(len), len);
      ValueIs();
    }

    /** Multiplies by a power of five, thirteen factors at a time. */
    method MulPow5(exponent: nat)
      requires Valid()
      modifies this, limbs
      ensures Valid() && Value() == Wrapped(old(Value()) * Pow(5, exponent))
      ensures old(Trimmed()) && old(Value()) * Pow(5, exponent) < Capacity() ==> Trimmed()
    {
      hide Wrapped, Capacity, Valid, Value, Trimmed, TimesFive;
      ghost var whole := old(Value());
      FivePowers();
      Scaling(whole, exponent);
      var rest: nat := exponent;
      while rest >= 13
        invariant Valid() && rest <= exponent
        invariant Value() == Wrapped(TimesFive(whole, exponent - rest))
        invariant old(Trimmed()) && TimesFive(whole, exponent) < Capacity() ==> Trimmed()
      {
        FactorNext(whole, exponent - rest, 13, exponent, 1_220_703_125);
        MulSmall(1_220_703_125);
        rest := rest - 13;
      }
      while rest > 0
        invariant Valid() && rest <= exponent
        invariant Value() == Wrapped(TimesFive(whole, exponent - rest))
        invariant old(Trimmed()) && TimesFive(whole, exponent) < Capacity() ==> Trimmed()
      {
        FactorNext(whole, exponent - rest, 1, exponent, 5);
        MulSmall(5);
        rest := rest - 1;
      }
    }

    /** Shifts left by `bits`, from the top limb down. */
    method ShiftLeft(bits: nat)
      requires Valid()
      modifies this, limbs
      ensures Valid() && Trimmed() && Value() == Wrapped(old(Value()) * Pow(2, bits))
    {
      hide Wrapped, Capacity, Shifted, Val, Digits, Pow, ShiftedLimb, LimbAt;
      var places, rest := bits / 32, bits % 32;
      if len == 0 {
        assert Val(limbs[..], 0) == 0 by { NothingIsZero(limbs[..]); }
        return;
      }
      ghost var before := limbs[..];
      var count: nat := if len + places + 1 < LIMBS then len + places + 1 else LIMBS;
      var index: nat := count;
      ShiftStarts(before, len, count, places, Pow(2, rest));
      ShiftPowers(rest);
      while index > 0
        invariant index <= count && len == old(len)
        invariant Shifted(before, limbs[..], index, count, places, Pow(2, rest))
      {
        index := index - 1;
        ghost var now := limbs[..];
        var high := if index >= places then limbs[index - places] else 0;
        var low := if index >= places + 1 then limbs[index - places - 1] else 0;
        ShiftedLimbSplits(before, now, index, count, places, rest);
        limbs[index] := if rest == 0 then high else high * Pow(2, rest) % BASE + low / Pow(2, 32 - rest);
        ShiftNext(before, now, limbs[..], index, count, places, Pow(2, rest));
      }
      ShiftEnds(before, limbs[..], len, count, places, rest);
      ShiftedLength(before, limbs[..], count, places, Pow(2, rest));
      len := count;
      Trim();
    }

    method ShiftRight1()
      requires Valid()
      modifies this, limbs
      ensures Valid() && Trimmed() && Value() == old(Value()) / 2
    {
      hide Val, Digits, Halving;
      ghost var before := limbs[..];
      var index := 0;
      HalveStarts(before);
      while index < len
        invariant index <= len == old(len)
        invariant Halving(before, limbs[..], index)
      {
        ghost var now := limbs[..];
        var above := if index + 1 < LIMBS then limbs[index + 1] else 0;
        limbs[index] := limbs[index] / 2 + above % 2 * 0x8000_0000;
        HalveNext(before, now, limbs[..], index);
        index := index + 1;
      }
      HalveEnds(before, limbs[..], len);
      Trim();
    }

    method CompareTo(other: Big) returns (order: Ordering)
      requires Valid() && Trimmed() && other.Valid() && other.Trimmed()
      ensures order == Order(Value(), other.Value())
    {
      if len != other.len {
        if len < other.len {
          LongerWins(limbs[..], len, other.limbs[..], other.len);
          return Less;
        }
        LongerWins(other.limbs[..], other.len, limbs[..], len);
        return Greater;
      }
      var index: nat := len;
      while index > 0
        invariant index <= len
        invariant forall i {:trigger limbs[i]} :: index <= i < len ==> limbs[i] == other.limbs[i]
      {
        index := index - 1;
        if limbs[index] != other.limbs[index] {
          if limbs[index] < other.limbs[index] {
            ValCompares(limbs[..], other.limbs[..], index, len);
            return Less;
          }
          ValCompares(other.limbs[..], limbs[..], index, len);
          return Greater;
        }
      }
      ValAgrees(limbs[..], other.limbs[..], len);
      return Equal;
    }

    /** The exact difference, trimmed, of a number and one no larger. */
    method Sub(other: Big)
      requires Valid() && other.Valid() && limbs != other.limbs && this != other
      requires other.Value() <= Value()
      modifies this, limbs
      ensures Valid() && Trimmed() && Value() == old(Value()) - other.Value()
    {
      hide Val, Borrowing;
      ghost var before, others := limbs[..], other.limbs[..];
      ValZeros(others, other.len, LIMBS);
      var borrow: nat, index: nat := 0, 0;
      BorrowStarts(before, others);
      while index < len
        invariant index <= len == old(len)
        invariant Borrowing(before, others, limbs[..], index, borrow)
      {
        ghost var now := limbs[..];
        var right := if index < other.len then other.limbs[index] else 0;
        assert right == others[index];
        var difference: int := limbs[index] - right - borrow;
        limbs[index] := difference % BASE;
        BorrowNext(before, others, now, limbs[..], index, borrow);
        borrow := if difference < 0 then 1 else 0;
        index := index + 1;
      }
      BorrowEnds(before, others, limbs[..], len, borrow);
      Trim();
    }

    method Add(other: Big)
      requires Valid() && other.Valid() && limbs != other.limbs && this != other
      modifies this, limbs
      ensures Valid() && Value() == Wrapped(old(Value()) + other.Value())
      ensures old(Trimmed()) && other.Trimmed() && old(Value()) + other.Value() < Capacity() ==> Trimmed()
    {
      hide Wrapped, Capacity, Val, Adding, Digits;
      ghost var before, others := limbs[..], other.limbs[..];
      var count := if len < other.len then other.len else len;
      var carry: nat, index: nat := 0, 0;
      SumStarts(before, others, 0);
      while index < count
        invariant index <= count && len == old(len)
        invariant Adding(before, others, limbs[..], index, carry, 0)
      {
        ghost var now := limbs[..];
        var right := if index < other.len then other.limbs[index] else 0;
        assert right == others[index];
        var sum := limbs[index] + right + carry;
        limbs[index] := sum % BASE;
        SumNext(before, others, now, limbs[..], index, carry, 0);
        carry := sum / BASE;
        index := index + 1;
      }
      ghost var now := limbs[..];
      len := count;
      if carry != 0 && len < LIMBS {
        limbs[len] := carry;
        len := len + 1;
      }
      SumEnds(before, old(len), others, other.len, now, limbs[..], index, carry, len);
    }

    method MulPow10(exponent: nat)
      requires Valid()
      modifies this, limbs
      ensures Valid() && Trimmed() && Value() == Wrapped(old(Value()) * Pow(10, exponent))
    {
      hide Wrapped, Capacity, Valid, Value, Trimmed, Pow;
      ghost var whole := old(Value());
      MulPow5(exponent);
      ShiftLeft(exponent);
      WrappedTwice(whole * Pow(5, exponent), Pow(2, exponent));
      TenSplits(exponent);
      MulAssociates(whole, Pow(5, exponent), Pow(2, exponent));
      assert Pow(10, exponent) == Pow(5, exponent) * Pow(2, exponent);
    }
  }

  // ---- Facts the loops rest on ----

  lemma FivePowers()
    ensures Pow(5, 1) == 5 && Pow(5, 13) == 1_220_703_125
  {
    assert Pow(5, 1) == 5;
    assert Pow(5, 3) == 125;
    PowSum(5, 3, 125, 3, 125, 6, 15625);
    PowSum(5, 6, 15625, 6, 15625, 12, 244140625);
    PowSum(5, 12, 244140625, 1, 5, 13, 1_220_703_125);
  }

  /** A product with a power of five that is built up factor by factor. */
  ghost function TimesFive(whole: nat, exponent: nat): nat {
    whole * Pow(5, exponent)
  }

  lemma FactorNext(whole: nat, done: nat, more: nat, all: nat, factor: nat)
    requires done + more <= all && factor == Pow(5, more)
    ensures Wrapped(Wrapped(TimesFive(whole, done)) * factor) == Wrapped(TimesFive(whole, done + more))
    ensures Wrapped(TimesFive(whole, done)) * factor < Capacity() || Capacity() <= TimesFive(whole, all)
  {
    hide Wrapped, Capacity;
    WrappedTwice(whole * Pow(5, done), factor);
    PowAdd(5, done, more);
    MulAssociates(whole, Pow(5, done), factor);
    PowGrows(5, done + more, all);
    MulMonotone(whole, whole, Pow(5, done + more), Pow(5, all));
    PowPositive(5, more);
    MulMonotone(TimesFive(whole, done), TimesFive(whole, done), 1, factor);
  }

  lemma Scaling(whole: nat, exponent: nat)
    ensures TimesFive(whole, 0) == whole && TimesFive(whole, exponent) == whole * Pow(5, exponent)
  {}

  lemma NothingIsZero(limbs: seq<nat>)
    ensures Val(limbs, 0) == 0
    ensures forall power: nat :: Wrapped(0 * power) == 0
  {}

  lemma ShiftStarts(limbs: seq<nat>, len: nat, count: nat, places: nat, power: nat)
    requires |limbs| == LIMBS && ZeroFrom(limbs, len) && len <= count <= LIMBS
    ensures Shifted(limbs, limbs, count, count, places, power)
  {}

  lemma ShiftedLength(before: seq<nat>, now: seq<nat>, count: nat, places: nat, power: nat)
    requires Shifted(before, now, 0, count, places, power)
    ensures ZeroFrom(now, count)
  {}

  lemma ShiftedLimbSplits(before: seq<nat>, now: seq<nat>, index: nat, count: nat, places: nat, rest: nat)
    requires Shifted(before, now, index + 1, count, places, Pow(2, rest)) && Digits(before) && rest < 32
    ensures Pow(2, 32 - rest) > 0
    ensures ShiftedLimb(now, index, places, Pow(2, rest))
         == if rest == 0 then LimbAt(now, index - places)
            else LimbAt(now, index - places) * Pow(2, rest) % BASE + LimbAt(now, index - places - 1) / Pow(2, 32 - rest)
    ensures LimbAt(now, index - places) == if index >= places then now[index - places] else 0
    ensures LimbAt(now, index - places - 1) == if index >= places + 1 then now[index - places - 1] else 0
  {
    ShiftPowers(rest);
    ShiftedLimbIs(LimbAt(now, index - places), LimbAt(now, index - places - 1), Pow(2, rest), Pow(2, 32 - rest));
    assert rest == 0 ==> Pow(2, rest) == 1;
  }

  lemma HalveStarts(limbs: seq<nat>)
    requires |limbs| == LIMBS
    ensures Halving(limbs, limbs, 0)
  {}

  lemma HalveNext(before: seq<nat>, now: seq<nat>, next: seq<nat>, index: nat)
    requires Halving(before, now, index) && index < LIMBS
    requires next == now[index := now[index] / 2 + (if index + 1 < LIMBS then now[index + 1] else 0) % 2 * 0x8000_0000]
    ensures Halving(before, next, index + 1)
  {}

  lemma BorrowStarts(limbs: seq<nat>, others: seq<nat>)
    requires |limbs| == |others| == LIMBS && Digits(limbs) && Digits(others)
    ensures Borrowing(limbs, others, limbs, 0, 0)
  {}
}
