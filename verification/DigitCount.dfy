/** Counting decimal digits: the log10 estimate from the bit length, and the division loop it replaces. */
module DigitCount {
  import opened Decimal
  import opened FixedPoint

  const POWERS_OF_10_64: seq<nat> := [
    0, 10, 100, 1000, 10000, 100000, 1000000, 10000000, 100000000, 1000000000,
    10000000000, 100000000000, 1000000000000, 10000000000000, 100000000000000,
    1000000000000000, 10000000000000000, 100000000000000000, 1000000000000000000,
    10000000000000000000]

  /** Width of the word less its leading zeros. */
  function BitLength(n: nat): nat {
    if n == 0 then 0 else 1 + BitLength(n / 2)
  }

  /** n | 1. */
  function SetLowBit(n: nat): nat {
    n - n % 2 + 1
  }

  /** bits * 1233 >> 12, an estimate of bits * log10(2). */
  function Estimate(bits: nat): nat {
    bits * 1233 / 4096
  }

  /** The estimate, corrected by one comparison with a table of powers of ten. */
  function CountDigits(n: nat, powers: seq<nat>): int
    requires Estimate(BitLength(SetLowBit(n))) < |powers|
  {
    var t := Estimate(BitLength(SetLowBit(n)));
    t - (if n < powers[t] then 1 else 0) + 1
  }

  /** A table of powers of ten whose first entry is 0. */
  ghost predicate PowerTable(powers: seq<nat>) {
    forall t :: 0 <= t < |powers| ==> powers[t] == if t == 0 then 0 else Pow10(t)
  }

  lemma Powers()
    ensures Pow10(11) == 100000000000
    ensures Pow10(12) == 1000000000000
    ensures Pow10(13) == 10000000000000
    ensures Pow10(14) == 100000000000000
    ensures Pow10(15) == 1000000000000000
    ensures Pow10(16) == 10000000000000000
    ensures Pow10(17) == 100000000000000000
    ensures Pow10(18) == 1000000000000000000
    ensures Pow10(19) == 10000000000000000000
    ensures Pow10(20) == 100000000000000000000
  {
    Pow10Table();
  }

  lemma PowersOfTwo()
    ensures Pow2(0) == 1
    ensures Pow2(3) == 8
    ensures Pow2(6) == 64
    ensures Pow2(9) == 512
    ensures Pow2(13) == 8192
    ensures Pow2(16) == 65536
    ensures Pow2(19) == 524288
    ensures Pow2(23) == 8388608
    ensures Pow2(26) == 67108864
    ensures Pow2(29) == 536870912
    ensures Pow2(33) == 8589934592
    ensures Pow2(36) == 68719476736
    ensures Pow2(39) == 549755813888
    ensures Pow2(43) == 8796093022208
    ensures Pow2(46) == 70368744177664
    ensures Pow2(49) == 562949953421312
    ensures Pow2(53) == 9007199254740992
    ensures Pow2(56) == 72057594037927936
    ensures Pow2(59) == 576460752303423488
    ensures Pow2(63) == 9223372036854775808
    ensures Pow2(64) == 18446744073709551616
  {
    assert Pow2(8) == 256;
    assert Pow2(16) == 65536;
    assert Pow2(24) == 16777216;
    assert Pow2(32) == 4294967296;
    assert Pow2(40) == 1099511627776;
    assert Pow2(48) == 281474976710656;
    assert Pow2(56) == 72057594037927936;
    assert Pow2(64) == 18446744073709551616;
  }

  lemma {:induction false} Pow2Monotone(a: nat, b: nat)
    requires a <= b
    ensures Pow2(a) <= Pow2(b)
  {
    if a < b { Pow2Monotone(a, b - 1); }
  }

  lemma {:induction false} BitLengthBounds(n: nat)
    ensures n < Pow2(BitLength(n))
    ensures n > 0 ==> BitLength(n) >= 1 && Pow2(BitLength(n) - 1) <= n
  {
    if n > 1 { BitLengthBounds(n / 2); }
  }

  lemma {:induction false} BitLengthAtMost(n: nat, w: nat)
    requires n < Pow2(w)
    ensures BitLength(n) <= w
  {
    if n > 0 { BitLengthAtMost(n / 2, w - 1); }
  }

  /** The widths that share the estimate t lie between these two. */
  function Lowest(t: nat): nat
    requires t < 20
  {
    if t == 0 then 1 else Highest(t - 1) + 1
  }

  function Highest(t: nat): nat
    requires t < 20
  {
    WIDTHS[t]
  }

  const WIDTHS: seq<nat> := [3, 6, 9, 13, 16, 19, 23, 26, 29, 33, 36, 39, 43, 46, 49, 53, 56, 59, 63, 64]

  lemma EstimateRange(bits: nat)
    requires 1 <= bits <= 64
    ensures var t := Estimate(bits);
            t < 20 && 1 <= Lowest(t) <= bits <= Highest(t)
  {
    var t := Estimate(bits);
    assert 4096 * t <= bits * 1233 < 4096 * t + 4096;
  }

  /** Every width with estimate t holds only numbers of t or t + 1 digits. */
  lemma EstimateBrackets(t: nat)
    requires t < 20
    ensures Pow2(Highest(t)) <= Pow10(t + 1)
    ensures t > 0 ==> Pow10(t - 1) <= Pow2(Lowest(t) - 1)
  {
    Powers();
    Pow10Table();
    PowersOfTwo();
    hide Pow10, Pow2;
  }

  /** The bit trick counts the decimal digits of every number of up to 64 bits, without leaving the table. */
  lemma TrickCounts(n: nat, powers: seq<nat>, width: nat)
    requires n < Pow2(width) && 1 <= width <= 64
    requires PowerTable(powers) && Estimate(width) < |powers|
    ensures Estimate(BitLength(SetLowBit(n))) < |powers|
    ensures CountDigits(n, powers) == |Digits(n)|
  {
    hide Pow2, Pow10, BitLength, Digits, Estimate, Lowest, Highest;
    var m := SetLowBit(n);
    var bits := BitLength(m);
    SetLowBitFits(n, width);
    BitLengthAtMost(m, width);
    BitLengthBounds(m);
    var t := Estimate(bits);
    EstimateMonotone(bits, width);
    EstimateRange(bits);
    EstimateBrackets(t);
    Pow2Monotone(bits, Highest(t));
    Pow2Monotone(Lowest(t) - 1, bits - 1);
    if bits >= 2 { EvenPower(bits - 1); }
    assert Pow10(1) == 10 by { Pow10Table(); }
    SmallWidths(bits);
    LengthIs(n, if n < powers[t] then t else t + 1);
  }

  lemma EstimateMonotone(a: nat, b: nat)
    requires a <= b
    ensures Estimate(a) <= Estimate(b)
  {
  }

  lemma SmallWidths(bits: nat)
    requires bits >= 1
    ensures bits == 1 ==> Estimate(bits) == 0 && Pow2(bits) == 2
  {
  }

  lemma EvenPower(k: nat)
    requires k >= 1
    ensures Pow2(k) % 2 == 0
  {
  }

  lemma SetLowBitFits(n: nat, width: nat)
    requires n < Pow2(width) && width >= 1
    ensures SetLowBit(n) < Pow2(width)
  {
    EvenPower(width);
  }

  lemma Tables()
    ensures PowerTable(POWERS_OF_10_64) && PowerTable(POWERS_OF_10_32)
    ensures |POWERS_OF_10_64| == 20 && |POWERS_OF_10_32| == 10
  {
    Powers();
    Pow10Table();
  }

  /** count_digits(uint64_t). */
  function CountDigits64(n: nat): (c: int)
    requires n < Pow2(64)
    ensures c == |Digits(n)|
  {
    Tables();
    TrickCounts(n, POWERS_OF_10_64, 64);
    CountDigits(n, POWERS_OF_10_64)
  }

  /** count_digits(uint32_t). */
  function CountDigits32(n: nat): (c: int)
    requires n < Pow2(32)
    ensures c == |Digits(n)|
  {
    Tables();
    TrickCounts(n, POWERS_OF_10_32, 32);
    CountDigits(n, POWERS_OF_10_32)
  }

  /** The fallback: four digits with every division. */
  method CountByDivision(value: nat) returns (count: nat)
    ensures count == |Digits(value)|
  {
    var n := value;
    count := 1;
    while true
      invariant count + |Digits(n)| == |Digits(value)| + 1
      decreases n
    {
      if n < 10 { return count; }
      if n < 100 { return count + 1; }
      if n < 1000 { ThreeOrFour(n); return count + 2; }
      if n < 10000 { ThreeOrFour(n); return count + 3; }
      FourDigits(n);
      n := n / 10000;
      count := count + 4;
    }
  }

  lemma ThreeOrFour(n: nat)
    requires 100 <= n < 10000
    ensures |Digits(n)| == if n < 1000 then 3 else 4
  {
    Pow10Table();
    LengthIs(n, if n < 1000 then 3 else 4);
  }

  lemma FourDigits(n: nat)
    requires n >= 10000
    ensures |Digits(n)| == |Digits(n / 10000)| + 4
  {
    assert n / 10 / 10 / 10 / 10 == n / 10000;
    assert |Digits(n)| == |Digits(n / 10)| + 1;
    assert |Digits(n / 10)| == |Digits(n / 10 / 10)| + 1;
    assert |Digits(n / 10 / 10)| == |Digits(n / 10 / 10 / 10)| + 1;
    assert |Digits(n / 10 / 10 / 10)| == |Digits(n / 10 / 10 / 10 / 10)| + 1;
  }
}
