/** The decimal magnitude of a binary number, estimated from its bit length. */
module Scaling {
  import opened Powers
  import opened BigIntegers
  import opened Floats

  /** floor(2^32 log10(2)). */
  const LOG: nat := 1_292_913_986

  /** `mant` counts the bits of the number below it, so that a power of two counts as its exponent. */
  function EstimateScalingFactor(mant: nat, exp: int): int
    requires mant > 0
  {
    (BitsOf(mant - 1) + exp) * LOG / 0x1_0000_0000
  }

  /** The integers between which 351/1166 of another lies by a 1166th are 485 and 1651. */
  lemma NoneBetween(n: nat, j: nat)
    requires 485 < n < 1651
    ensures 1166 * j != 351 * n + 1
  {
    var quotient := 146 * (n - 485) - 485 * (j - 146);
    assert 1166 * j == 351 * n + 1 ==> n - 485 == 1166 * quotient;
  }

  /** The logarithm lies between 351/1166 and 146/485, and no integer up to 1650 tells the constant from it. */
  lemma LogBounds(n: nat, j: nat)
    requires 0 < n <= 1650 && j == n * LOG / 0x1_0000_0000
    ensures 146 * n <= 485 * (j + 1) && 1166 * j <= 351 * n
  {
    assert 0 <= n * LOG - j * 0x1_0000_0000 < 0x1_0000_0000;
    assert 1166 * j <= 351 * n + 1;
    if n > 485 {
      NoneBetween(n, j);
    }
  }

  lemma PowOne(base: nat)
    ensures Pow(base, 1) == base
  {
    assert Pow(base, 0) == 1;
  }

  lemma {:induction false} PowStrict(low: nat, high: nat, exponent: nat)
    requires low < high && exponent > 0
    ensures Pow(low, exponent) < Pow(high, exponent)
  {
    if exponent == 1 {
      PowOne(low);
      PowOne(high);
    } else {
      PowStrict(low, high, exponent - 1);
      var p, q := Pow(low, exponent - 1), Pow(high, exponent - 1);
      MulMonotone(low, high, p, q - 1);
      assert high * (q - 1) == high * q - high;
    }
  }

  lemma PowsCommute(base: nat, first: nat, second: nat)
    ensures Pow(Pow(base, first), second) == Pow(Pow(base, second), first)
  {
    PowOfPow(base, first, second);
    PowOfPow(base, second, first);
    assert first * second == second * first;
  }

  /** Two to the `n` lies strictly between neighbouring powers of ten. */
  lemma BetweenPowers(n: nat, j: nat)
    requires 0 < n && 146 * n <= 485 * (j + 1) && 1166 * j <= 351 * n
    ensures Pow(10, j) < Pow(2, n) < Pow(10, j + 1)
  {
    hide Pow;
    TwoTo485();
    PowStrict(Pow(2, 485), Pow(10, 146), n);
    PowsCommute(2, 485, n);
    PowOfPow(10, 146, n);
    PowGrows(10, 146 * n, 485 * (j + 1));
    PowOfPow(10, j + 1, 485);
    assert (j + 1) * 485 == 485 * (j + 1);
    PowReflects(Pow(2, n), Pow(10, j + 1), 485);

    TenTo351();
    PowStrict(Pow(10, 351), Pow(2, 1166), n);
    PowsCommute(2, 1166, n);
    PowOfPow(10, 351, n);
    PowGrows(10, 1166 * j, 351 * n);
    PowOfPow(10, j, 1166);
    assert j * 1166 == 1166 * j;
    PowReflects(Pow(10, j), Pow(2, n), 1166);
  }

  /** The estimate is the exact decimal logarithm, rounded down, of two to the bit length. */
  lemma EstimateFloors(bits: int)
    requires -1650 <= bits <= 1650
    ensures Exp(10, bits * LOG / 0x1_0000_0000) <= Exp(2, bits) < Exp(10, bits * LOG / 0x1_0000_0000 + 1)
  {
    hide Exp, Pow;
    if bits == 0 {
      UnitPowers();
    } else if bits > 0 {
      FloorsPositive(bits, bits * LOG / 0x1_0000_0000);
    } else {
      NegativeFloor(-bits);
      FloorsNegative(-bits, -bits * LOG / 0x1_0000_0000);
    }
  }

  lemma NegativeFloor(n: int)
    requires 0 < n <= 1650
    ensures -n * LOG / 0x1_0000_0000 == -(n * LOG / 0x1_0000_0000) - 1
  {
    var j, rest := n * LOG / 0x1_0000_0000, n * LOG % 0x1_0000_0000;
    assert n * LOG == 0x1_0000_0000 * j + rest;
    assert rest == 0 ==> 0x1_0000_0000 * (146 * n - 485 * j) == 1942006 * n;
    assert rest != 0;
  }

  lemma UnitPowers()
    ensures Exp(10, 0) == Exp(2, 0) == 1.0 && Exp(10, 1) == 10.0
  {
    assert Pow(10, 0) == Pow(2, 0) == 1 && Pow(10, 1) == 10;
  }

  lemma FloorsPositive(n: int, j: int)
    requires 0 < n <= 1650 && j == n * LOG / 0x1_0000_0000
    ensures Exp(10, j) <= Exp(2, n) < Exp(10, j + 1)
  {
    hide Pow;
    LogBounds(n, j);
    BetweenPowers(n, j);
  }

  lemma FloorsNegative(n: int, j: int)
    requires 0 < n <= 1650 && j == n * LOG / 0x1_0000_0000
    ensures Exp(10, -j - 1) <= Exp(2, -n) < Exp(10, -j)
  {
    hide Exp, Pow;
    LogBounds(n, j);
    BetweenPowers(n, j);
    NegativeExp(10, j);
    NegativeExp(10, j + 1);
    NegativeExp(2, n);
    Reciprocal(Pow(10, j) as real, Pow(2, n) as real);
    Reciprocal(Pow(2, n) as real, Pow(10, j + 1) as real);
  }

  lemma NegativeExp(base: nat, exponent: int)
    requires base > 0 && exponent >= 0
    ensures Pow(base, exponent) > 0 && Exp(base, -exponent) == 1.0 / Pow(base, exponent) as real
  {
    PowPositive(base, exponent);
  }

  lemma Reciprocal(low: real, high: real)
    requires 0.0 < low < high
    ensures 1.0 / high < 1.0 / low
  {
    var p, q := 1.0 / low, 1.0 / high;
    assert p * low == 1.0 && q * high == 1.0 && q > 0.0;
    Cancels(q, p, low, high);
  }

  lemma Cancels(q: real, p: real, low: real, high: real)
    requires q > 0.0 && 0.0 < low < high && q * high == p * low
    ensures q < p
  {
    assert q * low < q * high;
    assert (p - q) * low > 0.0;
  }

  /** The estimate is at most one too low, and never too high. */
  lemma EstimateWithinOne(mant: nat, exp: int)
    requires 0 < mant <= 0x40_0000_0000_0002 && -1076 <= exp <= 970
    ensures var k := EstimateScalingFactor(mant, exp);
      && Exp(10, k - 1) < Binary(mant, exp) < Exp(10, k + 1)
      && Exp(10, k) <= 2.0 * Binary(mant, exp)
    ensures -324 <= EstimateScalingFactor(mant, exp) <= 308
  {
    hide Pow, Exp, BitsOf;
    var bits := BitsOf(mant - 1);
    FewBits(mant - 1);
    BitsBound(mant, bits);
    EstimateFloors(bits + exp);
    ExpAdd(2, exp, bits);
    var k := EstimateScalingFactor(mant, exp);
    ExpNext(10, k - 1);
    Doubling(mant as real, Pow(2, bits) as real, Exp(2, exp), Exp(10, k), Exp(10, k + 1));
  }

  lemma Doubling(mant: real, power: real, unit: real, low: real, high: real)
    requires 0.0 < mant <= power <= 2.0 * mant && unit > 0.0
    requires low <= unit * power < high && low > 0.0
    ensures low / 10.0 < mant * unit < high && low <= 2.0 * (mant * unit)
  {
    var product, bound := mant * unit, power * unit;
    RealMonotone(mant, power, unit);
    RealMonotone(power, 2.0 * mant, unit);
    assert (2.0 * mant) * unit == 2.0 * product;
    assert low <= bound <= 2.0 * product;
  }

  lemma RealMonotone(low: real, high: real, unit: real)
    requires low <= high && unit > 0.0
    ensures low * unit <= high * unit
  {}

  lemma FewBits(number: nat)
    requires number <= 0x40_0000_0000_0001
    ensures BitsOf(number) <= 55
  {
    assert Pow(2, 4) == 16;
    PowSum(2, 4, 16, 4, 16, 8, 256);
    PowSum(2, 8, 256, 8, 256, 16, 65536);
    PowSum(2, 16, 65536, 16, 65536, 32, 0x1_0000_0000);
    PowSum(2, 32, 0x1_0000_0000, 16, 65536, 48, 0x1_0000_0000_0000);
    PowSum(2, 48, 0x1_0000_0000_0000, 4, 16, 52, 0x10_0000_0000_0000);
    assert Pow(2, 3) == 8;
    PowSum(2, 52, 0x10_0000_0000_0000, 3, 8, 55, 0x80_0000_0000_0000);
    if BitsOf(number) > 55 {
      PowGrows(2, 55, BitsOf(number) - 1);
    }
  }

  lemma BitsBound(mant: nat, bits: nat)
    requires mant > 0 && bits == BitsOf(mant - 1)
    ensures mant <= Pow(2, bits) <= 2 * mant
  {
    if bits > 0 {
      assert Pow(2, bits) == 2 * Pow(2, bits - 1);
    }
  }
}
