/** Little-endian 32-bit limbs as natural numbers. */
module Limbs {
  import opened Powers

  const BASE: nat := 0x1_0000_0000
  const LIMBS: nat := 170

  /** The number the low `count` limbs stand for. */
  ghost function Val(limbs: seq<nat>, count: nat): nat
    requires count <= |limbs|
  {
    if count == 0 then 0 else Val(limbs, count - 1) + limbs[count - 1] * Pow(BASE, count - 1)
  }

  ghost predicate Digits(limbs: seq<nat>) {
    forall i :: 0 <= i < |limbs| ==> limbs[i] < BASE
  }

  /** One more than the largest number the limbs can hold. */
  ghost function Capacity(): (c: nat)
    ensures c > 0
  {
    PowPositive(BASE, LIMBS);
    Pow(BASE, LIMBS)
  }

  /** What is left of `number` in 170 limbs: its remainder modulo `Capacity()`. */
  ghost function Wrapped(number: nat): (r: nat)
    ensures r < Capacity()
    ensures number < Capacity() ==> r == number
  {
    if number < Capacity() then number else Wrapped(number - Capacity())
  }

  lemma {:induction false} WrappedIs(number: nat, rest: nat, lost: nat, capacity: nat)
    requires capacity == Capacity() && rest < capacity
    requires number == rest + lost * capacity
    ensures Wrapped(number) == rest
  {
    hide Capacity;
    if lost > 0 {
      OneLess(lost, capacity);
      WrappedIs(number - capacity, rest, lost - 1, capacity);
    }
  }

  lemma OneLess(count: nat, unit: nat)
    requires count > 0
    ensures count * unit == (count - 1) * unit + unit && (count - 1) * unit >= 0
  {}

  lemma {:induction false} WrappedLost(number: nat, capacity: nat) returns (lost: nat)
    requires capacity == Capacity()
    ensures number == Wrapped(number) + lost * capacity
  {
    if number < capacity {
      return 0;
    }
    lost := WrappedLost(number - capacity, capacity);
    assert (lost + 1) * capacity == lost * capacity + capacity;
    lost := lost + 1;
  }

  lemma WrappedTwice(number: nat, factor: nat)
    ensures Wrapped(Wrapped(number) * factor) == Wrapped(number * factor)
  {
    hide Wrapped, Capacity;
    var capacity := Capacity();
    var kept := Wrapped(number);
    var lost := WrappedLost(number, capacity);
    var again := WrappedLost(kept * factor, capacity);
    Distributes(kept, lost, capacity, factor);
    assert lost * factor * capacity + again * capacity == (lost * factor + again) * capacity;
    WrappedIs(number * factor, Wrapped(kept * factor), lost * factor + again, capacity);
  }

  lemma Distributes(kept: nat, lost: nat, capacity: nat, factor: nat)
    ensures (kept + lost * capacity) * factor == kept * factor + lost * factor * capacity
  {
    assert (lost * capacity) * factor == lost * (capacity * factor) == lost * (factor * capacity)
      == (lost * factor) * capacity by {
      MulAssociates(lost, capacity, factor);
      MulAssociates(lost, factor, capacity);
    }
  }

  lemma {:induction false} ValBelow(limbs: seq<nat>, count: nat)
    requires count <= |limbs| && Digits(limbs)
    ensures Val(limbs, count) < Pow(BASE, count)
  {
    if count > 0 {
      ValBelow(limbs, count - 1);
      PowPositive(BASE, count - 1);
      MulMonotone(limbs[count - 1], BASE - 1, Pow(BASE, count - 1), Pow(BASE, count - 1));
    }
  }

  lemma {:induction false} ValAgrees(limbs: seq<nat>, others: seq<nat>, count: nat)
    requires count <= |limbs| && count <= |others|
    requires forall i :: 0 <= i < count ==> limbs[i] == others[i]
    ensures Val(limbs, count) == Val(others, count)
  {
    if count > 0 {
      ValAgrees(limbs, others, count - 1);
    }
  }

  /** Zero limbs above `low` do not count. */
  lemma {:induction false} ValZeros(limbs: seq<nat>, low: nat, count: nat)
    requires low <= count <= |limbs|
    requires forall i :: low <= i < count ==> limbs[i] == 0
    ensures Val(limbs, count) == Val(limbs, low)
  {
    if low < count {
      ValZeros(limbs, low, count - 1);
    }
  }

  /** The limbs above `low` stand for a multiple of the place value of `low`. */
  lemma {:induction false} ValSplits(limbs: seq<nat>, low: nat, count: nat) returns (high: nat)
    requires low <= count <= |limbs|
    ensures Val(limbs, count) == Val(limbs, low) + high * Pow(BASE, low)
    ensures high == 0 ==> forall i :: low <= i < count ==> limbs[i] == 0
  {
    if low == count {
      return 0;
    }
    high := ValSplits(limbs, low, count - 1);
    var limb, place := limbs[count - 1], Pow(BASE, count - 1 - low);
    PowAdd(BASE, count - 1 - low, low);
    PowPositive(BASE, count - 1 - low);
    SplitStep(Val(limbs, low), high, Pow(BASE, low), limb, place);
    high := high + limb * place;
  }

  lemma SplitStep(low: nat, high: nat, unit: nat, limb: nat, place: nat)
    requires place > 0
    ensures low + high * unit + limb * (place * unit) == low + (high + limb * place) * unit
    ensures limb > 0 ==> limb * place > 0
  {
    MulAssociates(limb, place, unit);
  }

  /** The value is at least the place value of its top nonzero limb. */
  lemma ValAtLeast(limbs: seq<nat>, count: nat)
    requires 0 < count <= |limbs| && limbs[count - 1] > 0
    ensures Pow(BASE, count - 1) <= Val(limbs, count)
  {
    MulMonotone(1, limbs[count - 1], Pow(BASE, count - 1), Pow(BASE, count - 1));
  }

  lemma {:induction false} TwoTo32(limbs: nat)
    ensures Pow(BASE, limbs) == Pow(2, 32 * limbs)
  {
    assert Pow(2, 4) == 16;
    PowSum(2, 4, 16, 4, 16, 8, 256);
    PowSum(2, 8, 256, 8, 256, 16, 65536);
    PowSum(2, 16, 65536, 16, 65536, 32, BASE);
    PowOfPow(2, 32, limbs);
  }

  /** The limbs from `low` up to `count` add the same to both values when they agree. */
  lemma {:induction false} ValTail(limbs: seq<nat>, others: seq<nat>, low: nat, count: nat)
    requires low <= count <= |limbs| && count <= |others|
    requires forall i :: low <= i < count ==> limbs[i] == others[i]
    ensures Val(limbs, count) - Val(limbs, low) == Val(others, count) - Val(others, low)
  {
    if low < count {
      ValTail(limbs, others, low, count - 1);
    }
  }

  /** Limbs that differ first at `at`, counted from the top, compare like their limbs at `at`. */
  lemma ValCompares(limbs: seq<nat>, others: seq<nat>, at: nat, count: nat)
    requires at < count <= |limbs| && count <= |others| && Digits(limbs)
    requires forall i :: at < i < count ==> limbs[i] == others[i]
    requires limbs[at] < others[at]
    ensures Val(limbs, count) < Val(others, count)
  {
    ValTail(limbs, others, at + 1, count);
    ValBelow(limbs, at);
    HigherLimbWins(Val(limbs, at), limbs[at], Val(others, at), others[at], Pow(BASE, at));
  }

  lemma HigherLimbWins(low: nat, limb: nat, otherLow: nat, otherLimb: nat, unit: nat)
    requires low < unit && limb < otherLimb
    ensures low + limb * unit < otherLow + otherLimb * unit
  {
    MulMonotone(limb + 1, otherLimb, unit, unit);
    assert (limb + 1) * unit == limb * unit + unit;
  }

  lemma ValFits(limbs: seq<nat>, count: nat)
    requires count <= |limbs| && count <= LIMBS && Digits(limbs)
    ensures Val(limbs, count) < Capacity()
  {
    ValBelow(limbs, count);
    PowGrows(BASE, count, LIMBS);
  }

  /** A limb and the carry into it, taken apart again into a limb and the carry out of it. */
  lemma CarryStep(sum: nat, unit: nat)
    ensures sum % BASE * unit + sum / BASE * (BASE * unit) == sum * unit
  {
    MulAssociates(sum / BASE, BASE, unit);
    assert (sum % BASE + sum / BASE * BASE) * unit == sum % BASE * unit + sum / BASE * BASE * unit;
  }

  lemma CarryAtMost(limb: nat, factor: nat, carry: nat)
    requires limb < BASE && carry <= factor
    ensures (limb * factor + carry) / BASE <= factor
  {
    MulMonotone(limb, BASE - 1, factor, factor);
  }

  ghost predicate TopUsed(limbs: seq<nat>, len: nat) {
    0 < len <= |limbs| ==> limbs[len - 1] != 0
  }

  ghost predicate AgreeFrom(limbs: seq<nat>, others: seq<nat>, low: nat) {
    |limbs| == |others| && forall i :: low <= i < |limbs| ==> limbs[i] == others[i]
  }

  /** The limbs below `index` and the carry into `index` make up `total`; the others are as `before`. */
  ghost predicate Carrying(before: seq<nat>, now: seq<nat>, index: nat, carry: nat, total: nat) {
    && |now| == |before| == LIMBS && index <= LIMBS
    && Digits(now) && AgreeFrom(now, before, index)
    && Val(now, index) + carry * Pow(BASE, index) == total
  }

  lemma CarryingAt(before: seq<nat>, now: seq<nat>, index: nat, carry: nat, total: nat)
    requires Carrying(before, now, index, carry, total)
    ensures |now| == |before| == LIMBS
    ensures index < LIMBS ==> now[index] == before[index] < BASE
  {}

  lemma CarryNext(before: seq<nat>, now: seq<nat>, next: seq<nat>, index: nat, carry: nat, total: nat, extra: nat)
    requires Carrying(before, now, index, carry, total) && index < LIMBS
    requires next == now[index := (extra + carry) % BASE]
    ensures Carrying(before, next, index + 1, (extra + carry) / BASE, total + extra * Pow(BASE, index))
  {
    ValAgrees(now, next, index);
    CarryStep(extra + carry, Pow(BASE, index));
    assert (extra + carry) * Pow(BASE, index) == extra * Pow(BASE, index) + carry * Pow(BASE, index);
  }

  /** A carry of zero passes through the limbs above. */
  lemma CarryStops(before: seq<nat>, now: seq<nat>, index: nat, carry: nat, total: nat, count: nat)
    requires Carrying(before, now, index, carry, total) && index <= count <= LIMBS
    requires carry == 0 || index == LIMBS
    ensures Val(before, index) <= Val(before, count)
    ensures Carrying(before, now, count, carry, total + (Val(before, count) - Val(before, index)))
  {
    ValTail(now, before, index, count);
    ValRises(before, index, count);
  }

  lemma ValRises(limbs: seq<nat>, low: nat, count: nat)
    requires low <= count <= |limbs|
    ensures Val(limbs, low) <= Val(limbs, count)
  {
    hide Val;
    var high := ValSplits(limbs, low, count);
    MulMonotone(0, high, 0, Pow(BASE, low));
  }

  /** The last carry goes into the next limb, or is lost beyond the last one. */
  lemma CarryEnds(before: seq<nat>, now: seq<nat>, settled: seq<nat>, index: nat, carry: nat, total: nat, count: nat)
    requires Carrying(before, now, index, carry, total) && ZeroFrom(before, index) && carry < BASE
    requires if carry != 0 && index < LIMBS
             then count == index + 1 && settled == now[index := carry]
             else count == index && settled == now
    ensures count <= LIMBS && Digits(settled) && ZeroFrom(settled, count)
    ensures Val(settled, count) == Wrapped(total)
    ensures carry != 0 && index == LIMBS ==> Capacity() <= total
    ensures carry != 0 && index < LIMBS ==> settled[count - 1] != 0
    ensures carry == 0 ==> Val(settled, count) == total
  {
    ValAgrees(now, settled, index);
    ValFits(settled, count);
    if carry != 0 && index == LIMBS {
      hide Capacity, Val;
      WrappedIs(total, Val(now, index), carry, CapacityIs());
      MulMonotone(1, carry, Pow(BASE, index), Pow(BASE, index));
    }
  }

  ghost function CapacityIs(): (c: nat)
    ensures c == Capacity() == Pow(BASE, LIMBS)
  {
    Capacity()
  }

  /** The limbs below `index` and the carry are the product of the original limbs below `index`. */
  ghost predicate Multiplying(before: seq<nat>, now: seq<nat>, index: nat, carry: nat, factor: nat) {
    index <= |before| && carry <= factor && Carrying(before, now, index, carry, Val(before, index) * factor)
  }

  lemma ProductStarts(limbs: seq<nat>, factor: nat)
    requires |limbs| == LIMBS && Digits(limbs)
    ensures Multiplying(limbs, limbs, 0, 0, factor)
  {}

  lemma ProductNext(before: seq<nat>, now: seq<nat>, next: seq<nat>, index: nat, carry: nat, factor: nat)
    requires Multiplying(before, now, index, carry, factor) && index < LIMBS && Digits(before)
    requires next == now[index := (now[index] * factor + carry) % BASE]
    ensures Multiplying(before, next, index + 1, (now[index] * factor + carry) / BASE, factor)
  {
    hide Carrying;
    CarryingAt(before, now, index, carry, Val(before, index) * factor);
    CarryNext(before, now, next, index, carry, Val(before, index) * factor, now[index] * factor);
    CarryAtMost(now[index], factor, carry);
    ProductGrows(Val(before, index), now[index], Pow(BASE, index), factor);
  }

  lemma ProductGrows(prefix: nat, limb: nat, unit: nat, factor: nat)
    ensures prefix * factor + limb * factor * unit == (prefix + limb * unit) * factor
  {
    assert limb * factor * unit == limb * unit * factor;
    assert (prefix + limb * unit) * factor == prefix * factor + limb * unit * factor;
  }

  lemma ProductEnds(before: seq<nat>, now: seq<nat>, settled: seq<nat>, len: nat, carry: nat, factor: nat, count: nat)
    requires Multiplying(before, now, len, carry, factor) && ZeroFrom(before, len) && factor < BASE
    requires if carry != 0 && len < LIMBS
             then count == len + 1 && settled == now[len := carry]
             else count == len && settled == now
    ensures count <= LIMBS && |settled| == LIMBS && Digits(settled) && ZeroFrom(settled, count)
    ensures Val(settled, count) == Wrapped(Val(before, len) * factor)
    ensures len > 0 && before[len - 1] != 0 && factor > 0 && Val(before, len) * factor < Capacity()
            ==> settled[count - 1] != 0
  {
    CarryEnds(before, now, settled, len, carry, Val(before, len) * factor, count);
    if carry == 0 && len > 0 && before[len - 1] != 0 && factor > 0 {
      ValAtLeast(before, len);
      MulMonotone(Val(before, len), Val(before, len), 1, factor);
      TopIsUsed(settled, len);
    }
  }

  /** The limbs below `index` and the carry are the sum of the original limbs below `index`. */
  ghost predicate Adding(before: seq<nat>, others: seq<nat>, now: seq<nat>, index: nat, carry: nat, extra: nat) {
    && index <= |before| && index <= |others| && carry < BASE
    && Carrying(before, now, index, carry, Val(before, index) + Val(others, index) + extra)
  }

  lemma SumNext(before: seq<nat>, others: seq<nat>, now: seq<nat>, next: seq<nat>, index: nat, carry: nat, extra: nat)
    requires Adding(before, others, now, index, carry, extra) && index < LIMBS == |others|
    requires Digits(before) && Digits(others)
    requires next == now[index := (now[index] + others[index] + carry) % BASE]
    ensures Adding(before, others, next, index + 1, (now[index] + others[index] + carry) / BASE, extra)
  {
    hide Carrying;
    var total := Val(before, index) + Val(others, index) + extra;
    CarryingAt(before, now, index, carry, total);
    CarryNext(before, now, next, index, carry, total, now[index] + others[index]);
    var unit := Pow(BASE, index);
    assert (now[index] + others[index]) * unit == now[index] * unit + others[index] * unit;
  }

  lemma SumStarts(limbs: seq<nat>, others: seq<nat>, extra: nat)
    requires |limbs| == |others| == LIMBS && Digits(limbs) && Digits(others) && extra < BASE
    ensures Adding(limbs, others, limbs, 0, extra, extra)
  {}

  /** A small number is added once its carry is used up. */
  lemma SmallSumEnds(before: seq<nat>, zeros: seq<nat>, now: seq<nat>, index: nat, carry: nat, value: nat, len: nat,
                     count: nat)
    requires Adding(before, zeros, now, index, carry, value) && ZeroFrom(zeros, 0) && |zeros| == LIMBS
    requires ZeroFrom(before, len) && index <= count && len <= count <= LIMBS
    requires carry == 0 || index == LIMBS
    requires len < count ==> count == index
    ensures |now| == LIMBS && Digits(now) && ZeroFrom(now, count) && len <= |before|
    ensures Val(now, count) == Wrapped(Val(before, len) + value)
  {
    ValZeros(zeros, 0, index);
    ValZeros(before, len, count);
    CarryStops(before, now, index, carry, Val(before, index) + value, count);
    CarryEnds(before, now, now, count, carry, Val(before, count) + value, count);
  }

  /** The limbs below `index`, less the borrow from `index`, make up a difference. */
  ghost predicate Borrowing(before: seq<nat>, others: seq<nat>, now: seq<nat>, index: nat, borrow: nat) {
    && |now| == |before| == |others| == LIMBS && index <= LIMBS && borrow <= 1
    && Digits(now) && Digits(before) && Digits(others) && AgreeFrom(now, before, index)
    && Val(now, index) + Val(others, index) == Val(before, index) + borrow * Pow(BASE, index)
  }

  lemma BorrowNext(before: seq<nat>, others: seq<nat>, now: seq<nat>, next: seq<nat>, index: nat, borrow: nat)
    requires Borrowing(before, others, now, index, borrow) && index < LIMBS
    requires next == now[index := (now[index] - others[index] - borrow) % BASE]
    ensures Borrowing(before, others, next, index + 1, if now[index] - others[index] - borrow < 0 then 1 else 0)
  {
    var unit := Pow(BASE, index);
    var difference := now[index] - others[index] - borrow;
    var out := if difference < 0 then 1 else 0;
    ValAgrees(now, next, index);
    assert difference % BASE == difference + out * BASE;
    BorrowSplits(now[index], others[index], borrow, out, unit);
  }

  lemma BorrowSplits(limb: int, other: int, borrow: int, out: int, unit: int)
    ensures (limb - other - borrow + out * BASE) * unit
         == limb * unit - other * unit - borrow * unit + out * (BASE * unit)
  {}

  /** Nothing is left to borrow when the subtrahend is no larger. */
  lemma BorrowEnds(before: seq<nat>, others: seq<nat>, now: seq<nat>, len: nat, borrow: nat)
    requires Borrowing(before, others, now, len, borrow) && ZeroFrom(before, len)
    requires Val(others, LIMBS) <= Val(before, len)
    ensures Digits(now) && ZeroFrom(now, len) && Val(now, len) == Val(before, len) - Val(others, LIMBS)
  {
    var high := ValSplits(others, len, LIMBS);
    ValBelow(before, len);
    ValBelow(now, len);
    NothingBorrowed(Val(now, len), Val(others, len), Val(before, len), high, borrow, Pow(BASE, len));
  }

  lemma NothingBorrowed(difference: nat, low: nat, minuend: nat, high: nat, borrow: nat, unit: nat)
    requires difference < unit && minuend < unit && borrow <= 1
    requires low + high * unit <= minuend
    requires difference + low == minuend + borrow * unit
    ensures high * unit == 0 && borrow * unit == 0
  {
    if high > 0 {
      MulMonotone(1, high, unit, unit);
    }
  }

  lemma TopIsUsed(limbs: seq<nat>, count: nat)
    requires 0 < count <= |limbs| && Digits(limbs) && Pow(BASE, count - 1) <= Val(limbs, count)
    ensures limbs[count - 1] != 0
  {
    ValBelow(limbs, count - 1);
  }

  lemma SmallFits(number: nat)
    requires number < BASE * BASE
    ensures Wrapped(number) == number
  {
    PowGrows(BASE, 2, LIMBS);
    assert Pow(BASE, 2) == BASE * (BASE * 1);
  }

  /** A 64-bit number is put together from its halves. */
  lemma HalvesFit(number: nat)
    requires number < BASE * BASE
    ensures Wrapped(number / BASE) == number / BASE < BASE
    ensures Wrapped(number / BASE * Pow(2, 32)) + number % BASE == number == Wrapped(number)
  {
    hide Wrapped, Pow;
    TwoTo32(1);
    assert Pow(BASE, 1) == BASE by { OneFactor(BASE); }
    SmallFits(number / BASE * BASE);
    SmallFits(number / BASE);
    SmallFits(number);
  }

  lemma OneFactor(base: nat)
    ensures Pow(base, 1) == base
  {}

  ghost function Zeros(): (zeros: seq<nat>)
    ensures |zeros| == LIMBS && Digits(zeros) && ZeroFrom(zeros, 0)
  {
    seq(LIMBS, i => 0)
  }

  // ---- Shifts ----

  function LimbAt(limbs: seq<nat>, index: int): nat {
    if 0 <= index < |limbs| then limbs[index] else 0
  }

  /** Limb `index` of a number shifted by `places` limbs and then multiplied by `power` < BASE. */
  function ShiftedLimb(limbs: seq<nat>, index: nat, places: nat, power: nat): nat {
    LimbAt(limbs, index - places) * power % BASE + LimbAt(limbs, index - places - 1) * power / BASE
  }

  /** The bits a shift moves out of the low `count` limbs. */
  ghost function ShiftedOut(limbs: seq<nat>, count: nat, places: nat, power: nat): nat {
    if count == 0 then 0 else LimbAt(limbs, count - 1 - places) * power / BASE
  }

  /** The two halves of a shifted limb share no bits. */
  lemma ShiftedLimbIs(high: nat, low: nat, power: nat, inverse: nat)
    requires high < BASE && low < BASE && power > 0 && inverse > 0 && inverse * power == BASE
    ensures high * power % BASE + low * power / BASE < BASE
    ensures low * power / BASE == low / inverse
  {
    ScaledRemainder(high, inverse, power);
    ScaledRemainder(low, inverse, power);
    QuotientBelow(low, inverse, power);
    MulMonotone(high % inverse, inverse - 1, power, power);
    assert (inverse - 1) * power == BASE - power;
  }

  lemma ShiftPowers(rest: nat)
    requires rest < 32
    ensures Pow(2, rest) > 0 && Pow(2, 32 - rest) > 0
    ensures Pow(2, 32 - rest) * Pow(2, rest) == BASE
  {
    PowPositive(2, rest);
    PowPositive(2, 32 - rest);
    TwoTo32(1);
    assert Pow(BASE, 1) == BASE;
    PowAdd(2, 32 - rest, rest);
  }

  lemma ScaledRemainder(number: nat, divisor: nat, scale: nat)
    requires divisor > 0 && scale > 0
    ensures divisor * scale > 0
    ensures number * scale / (divisor * scale) == number / divisor
    ensures number * scale % (divisor * scale) == number % divisor * scale
  {
    var quotient, rest := number / divisor, number % divisor;
    assert number == rest + quotient * divisor;
    MulMonotone(1, divisor, 1, scale);
    ScaledSplit(quotient, divisor, rest, scale);
    MulMonotone(rest + 1, divisor, scale, scale);
    assert (rest + 1) * scale == rest * scale + scale;
    DivideIs(number * scale, divisor * scale, quotient, rest * scale);
  }

  lemma ScaledSplit(quotient: nat, divisor: nat, rest: nat, scale: nat)
    ensures (rest + quotient * divisor) * scale == rest * scale + quotient * (divisor * scale)
  {
    MulAssociates(quotient, divisor, scale);
  }

  lemma {:induction false} DivideIs(number: nat, divisor: nat, quotient: nat, rest: nat)
    requires rest < divisor && number == rest + quotient * divisor
    ensures number / divisor == quotient && number % divisor == rest
  {
    var q, r := number / divisor, number % divisor;
    assert number == r + q * divisor;
    if q < quotient {
      HigherLimbWins(r, q, rest, quotient, divisor);
    }
    if quotient < q {
      HigherLimbWins(rest, quotient, r, q, divisor);
    }
  }

  lemma QuotientBelow(number: nat, divisor: nat, scale: nat)
    requires divisor > 0 && number < divisor * scale
    ensures number / divisor < scale
  {
    var quotient, rest := number / divisor, number % divisor;
    assert number == rest + quotient * divisor;
    if scale <= quotient {
      MulMonotone(scale, quotient, divisor, divisor);
    }
  }

  /** Shifting limb by limb multiplies, and keeps count of the bits that leave. */
  lemma {:induction false} ShiftedVal(limbs: seq<nat>, shifted: seq<nat>, places: nat, power: nat, count: nat)
    requires count <= |limbs| == |shifted|
    requires forall i :: 0 <= i < count ==> shifted[i] == ShiftedLimb(limbs, i, places, power)
    ensures Val(shifted, count) + ShiftedOut(limbs, count, places, power) * Pow(BASE, count)
         == Val(limbs, if count <= places then 0 else count - places) * (Pow(BASE, places) * power)
  {
    if count > 0 {
      ShiftedVal(limbs, shifted, places, power, count - 1);
      if count > places {
        var at := count - 1 - places;
        PowAdd(BASE, at, places);
        ShiftStep(Val(shifted, count - 1), ShiftedOut(limbs, count - 1, places, power), limbs[at], power,
                  Pow(BASE, at), Pow(BASE, places), Val(limbs, at));
      }
    }
  }

  lemma ShiftStep(done: nat, carry: nat, limb: nat, power: nat, unit: nat, shift: nat, prefix: nat)
    requires done + carry * (unit * shift) == prefix * (shift * power)
    ensures done + (limb * power % BASE + carry) * (unit * shift) + limb * power / BASE * (BASE * (unit * shift))
         == (prefix + limb * unit) * (shift * power)
  {
    CarryStep(limb * power, unit * shift);
    assert (limb * power % BASE + carry) * (unit * shift)
      == limb * power % BASE * (unit * shift) + carry * (unit * shift);
    MulSwaps(limb, power, unit, shift);
    assert limb * power * (unit * shift) == limb * unit * (power * shift) == limb * unit * (shift * power);
    assert (prefix + limb * unit) * (shift * power) == prefix * (shift * power) + limb * unit * (shift * power);
  }

  function LowBit(limb: nat): (bit: nat)
    ensures bit < 2
  {
    limb % 2
  }

  function HalvedLimb(limb: nat, next: nat): nat {
    limb / 2 + LowBit(next) * 0x8000_0000
  }

  /** Shifting right by a bit, limb by limb, halves. */
  lemma {:induction false} HalvedVal(limbs: seq<nat>, halves: seq<nat>, count: nat)
    requires 0 < |limbs| == |halves| && count <= |limbs|
    requires forall i :: 0 <= i < count ==> halves[i] == HalvedLimb(limbs[i], LimbAt(limbs, i + 1))
    ensures 2 * Val(halves, count) + LowBit(limbs[0])
        == Val(limbs, count) + LowBit(LimbAt(limbs, count)) * Pow(BASE, count)
  {
    if count > 0 {
      HalvedVal(limbs, halves, count - 1);
      HalfStep(limbs[count - 1], LowBit(LimbAt(limbs, count)), Pow(BASE, count - 1));
    }
  }

  lemma HalfStep(limb: nat, next: nat, unit: nat)
    ensures 2 * ((limb / 2 + next * 0x8000_0000) * unit) + limb % 2 * unit == limb * unit + next * (BASE * unit)
  {
    MulAssociates(next, BASE, unit);
    assert (2 * (limb / 2) + limb % 2) * unit == limb * unit;
    assert 2 * ((limb / 2 + next * 0x8000_0000) * unit) == (2 * (limb / 2)) * unit + (next * BASE) * unit;
    assert (2 * (limb / 2)) * unit + limb % 2 * unit == (2 * (limb / 2) + limb % 2) * unit;
  }

  // ---- What the loops leave alone ----

  ghost predicate ZeroFrom(limbs: seq<nat>, low: nat) {
    forall i :: low <= i < |limbs| ==> limbs[i] == 0
  }

  ghost predicate Shifted(before: seq<nat>, now: seq<nat>, index: nat, count: nat, places: nat, power: nat) {
    && |now| == |before| == LIMBS && index <= count <= LIMBS
    && (forall i :: 0 <= i < index ==> now[i] == before[i])
    && (forall i :: index <= i < count ==> now[i] == ShiftedLimb(before, i, places, power))
    && ZeroFrom(now, count)
  }

  lemma ShiftNext(before: seq<nat>, now: seq<nat>, next: seq<nat>, index: nat, count: nat, places: nat, power: nat)
    requires Shifted(before, now, index + 1, count, places, power)
    requires next == now[index := ShiftedLimb(now, index, places, power)]
    ensures Shifted(before, next, index, count, places, power)
  {
    assert LimbAt(now, index - places) == LimbAt(before, index - places);
    assert LimbAt(now, index - places - 1) == LimbAt(before, index - places - 1);
  }

  /** A shifted number is multiplied by a power of two; what leaves the top limb is lost. */
  lemma ShiftEnds(before: seq<nat>, now: seq<nat>, len: nat, count: nat, places: nat, rest: nat)
    requires Shifted(before, now, 0, count, places, Pow(2, rest)) && rest < 32
    requires Digits(before) && ZeroFrom(before, len) && len <= LIMBS
    requires count == if len + places + 1 < LIMBS then len + places + 1 else LIMBS
    ensures Digits(now) && Val(now, count) == Wrapped(Val(before, len) * Pow(2, 32 * places + rest))
  {
    hide Val, Pow, Capacity, Wrapped, ShiftedLimb;
    var power := Pow(2, rest);
    ShiftedDigits(before, now, count, places, rest);
    ShiftedVal(before, now, places, power, count);
    TwoTo32(places);
    PowAdd(2, 32 * places, rest);
    ValFits(now, count);
    if count == len + places + 1 {
      ValZeros(before, len, len + 1);
      assert ShiftedOut(before, count, places, power) == 0;
    } else {
      ShiftWraps(before, now, len, places, power, Val(before, len) * (Pow(BASE, places) * power));
    }
  }

  lemma ShiftedDigits(before: seq<nat>, now: seq<nat>, count: nat, places: nat, rest: nat)
    requires Shifted(before, now, 0, count, places, Pow(2, rest)) && rest < 32 && Digits(before)
    ensures Digits(now)
  {
    ShiftPowers(rest);
    forall i | 0 <= i < |now| ensures now[i] < BASE {
      if i < count {
        ShiftedLimbIs(LimbAt(before, i - places), LimbAt(before, i - places - 1), Pow(2, rest), Pow(2, 32 - rest));
      }
    }
  }

  lemma ShiftWraps(before: seq<nat>, now: seq<nat>, len: nat, places: nat, power: nat,
                   product: nat)
    requires |before| == |now| == LIMBS && Digits(now) && ZeroFrom(before, len) && len <= LIMBS
    requires Val(now, LIMBS) + ShiftedOut(before, LIMBS, places, power) * Pow(BASE, LIMBS)
          == Val(before, if LIMBS <= places then 0 else LIMBS - places) * (Pow(BASE, places) * power)
    requires product == Val(before, len) * (Pow(BASE, places) * power)
    ensures Val(now, LIMBS) == Wrapped(product)
  {
    hide Capacity, Wrapped, Val, ShiftedOut, Pow;
    var kept := if LIMBS <= places then 0 else LIMBS - places;
    var out, capacity := ShiftedOut(before, LIMBS, places, power), CapacityIs();
    ValZeros(before, len, LIMBS);
    var high := ValSplits(before, kept, LIMBS);
    PowAdd(BASE, kept, places);
    PowAdd(BASE, kept + places - LIMBS, LIMBS);
    var over := Pow(BASE, kept + places - LIMBS);
    assert Pow(BASE, kept) * Pow(BASE, places) == over * capacity;
    ValFits(now, LIMBS);
    WrapStep(Val(now, LIMBS), out, capacity, Val(before, kept), high, Pow(BASE, kept), Pow(BASE, places), power, over);
    WrappedIs(product, Val(now, LIMBS), out + high * (over * power), capacity);
  }

  lemma WrapStep(done: nat, out: nat, capacity: nat, low: nat, high: nat, unit: nat, shift: nat, power: nat, over: nat)
    requires done + out * capacity == low * (shift * power) && unit * shift == over * capacity
    ensures (low + high * unit) * (shift * power) == done + (out + high * (over * power)) * capacity
  {
    MulSwaps(high, unit, shift, power);
    calc {
      high * unit * (shift * power);
      { MulAssociates(high, unit, shift * power); MulAssociates(unit, shift, power); }
      high * (unit * shift * power);
      high * (over * capacity * power);
      { MulAssociates(over, capacity, power); MulAssociates(over, power, capacity); }
      high * (over * power * capacity);
      { MulAssociates(high, over * power, capacity); }
      high * (over * power) * capacity;
    }
    assert (low + high * unit) * (shift * power) == low * (shift * power) + high * unit * (shift * power);
    assert (out + high * (over * power)) * capacity == out * capacity + high * (over * power) * capacity;
  }

  ghost predicate Halving(before: seq<nat>, now: seq<nat>, index: nat) {
    && |now| == |before| == LIMBS && index <= LIMBS && AgreeFrom(now, before, index)
    && forall i :: 0 <= i < index ==> now[i] == HalvedLimb(before[i], LimbAt(before, i + 1))
  }

  lemma HalveEnds(before: seq<nat>, now: seq<nat>, len: nat)
    requires Halving(before, now, len) && Digits(before) && ZeroFrom(before, len)
    ensures Digits(now) && ZeroFrom(now, len) && Val(now, len) == Val(before, len) / 2
  {
    hide Val, Pow, HalvedLimb;
    HalvedVal(before, now, len);
    HalfIs(Val(now, len), Val(before, len), LowBit(before[0]), LowBit(LimbAt(before, len)), Pow(BASE, len));
    HalvedDigits(before, now, len);
  }

  lemma HalvedDigits(before: seq<nat>, now: seq<nat>, len: nat)
    requires Halving(before, now, len) && Digits(before) && ZeroFrom(before, len)
    ensures Digits(now)
  {
    forall i | 0 <= i < len ensures now[i] < BASE {
      HalfLimb(before[i], LimbAt(before, i + 1));
    }
  }

  lemma HalfLimb(limb: nat, next: nat)
    requires limb < BASE
    ensures HalvedLimb(limb, next) < BASE
  {}

  lemma HalfIs(half: nat, whole: nat, low: nat, high: nat, unit: nat)
    requires 2 * half + low == whole + high * unit && low < 2 && high == 0
    ensures half == whole / 2
  {}

  /** A longer trimmed number is larger. */
  lemma LongerWins(limbs: seq<nat>, len: nat, others: seq<nat>, otherLen: nat)
    requires len < otherLen <= |others| && len <= |limbs| && Digits(limbs) && others[otherLen - 1] != 0
    ensures Val(limbs, len) < Val(others, otherLen)
  {
    ValBelow(limbs, len);
    PowGrows(BASE, len, otherLen - 1);
    ValAtLeast(others, otherLen);
  }

  /** A sum of two trimmed numbers that fits is trimmed. */
  lemma SumTrimmed(before: seq<nat>, len: nat, others: seq<nat>, otherLen: nat, settled: seq<nat>, count: nat)
    requires |before| == |others| == |settled| == LIMBS && Digits(settled)
    requires len <= LIMBS && otherLen <= LIMBS
    requires TopUsed(before, len) && TopUsed(others, otherLen)
    requires count == if len < otherLen then otherLen else len
    requires Val(settled, count) == Val(before, len) + Val(others, otherLen)
    ensures TopUsed(settled, count)
  {
    if count > 0 {
      if len < otherLen {
        ValAtLeast(others, otherLen);
      } else {
        ValAtLeast(before, len);
      }
      TopIsUsed(settled, count);
    }
  }

  lemma SumEnds(before: seq<nat>, len: nat, others: seq<nat>, otherLen: nat, now: seq<nat>, settled: seq<nat>,
                index: nat, carry: nat, count: nat)
    requires |others| == |before| == LIMBS && ZeroFrom(before, len) && ZeroFrom(others, otherLen)
    requires len <= LIMBS && otherLen <= LIMBS && index == if len < otherLen then otherLen else len
    requires Adding(before, others, now, index, carry, 0)
    requires if carry != 0 && index < LIMBS
             then count == index + 1 && settled == now[index := carry]
             else count == index && settled == now
    ensures count <= LIMBS && |settled| == LIMBS && Digits(settled) && ZeroFrom(settled, count)
    ensures Val(settled, count) == Wrapped(Val(before, len) + Val(others, otherLen))
    ensures TopUsed(before, len) && TopUsed(others, otherLen) && Val(before, len) + Val(others, otherLen) < Capacity()
            ==> TopUsed(settled, count)
  {
    hide Val, Capacity, Wrapped, Carrying, Pow;
    CarryingAt(before, now, index, carry, Val(before, index) + Val(others, index) + 0);
    ValZeros(before, len, index);
    ValZeros(others, otherLen, index);
    CarryEnds(before, now, settled, index, carry, Val(before, index) + Val(others, index) + 0, count);
    if carry == 0 && TopUsed(before, len) && TopUsed(others, otherLen) {
      SumTrimmed(before, len, others, otherLen, settled, count);
    }
  }
}
