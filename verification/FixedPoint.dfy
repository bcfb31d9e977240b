/**
 Printing a 32-bit number front to back with 4.32 fixed-point arithmetic: one multiplication by a rounded-up
 reciprocal of a power of ten, then two more digits with each multiplication by 100.
 */
module FixedPoint {
  import opened Common
  import opened Decimal

  const POWERS_OF_10_32: seq<nat> := [
    0, 10, 100, 1000, 10000, 100000, 1000000, 10000000, 100000000, 1000000000]

  function Pow2(n: nat): (p: nat)
    ensures p >= 1
  {
    if n == 0 then 1 else 2 * Pow2(n - 1)
  }

  /** n >> k. */
  function ShiftRight(n: nat, k: nat): nat {
    DivNat(n, Pow2(k));
    n / Pow2(k)
  }

  lemma MulNat(a: nat, b: nat)
    ensures a * b >= 0
  {
  }

  lemma DivNat(n: nat, m: nat)
    requires m >= 1
    ensures n / m >= 0
  {
  }

  /** Extra fraction bits carried through the first multiplication. */
  function Shift(n: nat): nat {
    n / 5 * n * 53 / 16
  }

  /** The fixed-point reciprocal of 10^n, rounded up. */
  function Reciprocal(n: nat): nat
    requires 1 <= n <= 8
  {
    Pow2(32 + Shift(n)) / POWERS_OF_10_32[n] + 1 - n / 9
  }

  /** u / 10^n with 32 fraction bits, as the formatter starts out. */
  function Start(n: nat, u: nat): nat
    requires 1 <= n <= 8
  {
    MulNat(Reciprocal(n), u);
    ShiftRight(Reciprocal(n) * u, Shift(n)) + n / 5 * 4
  }

  /** t stands for u / 10^n: not below it, and less than one unit of the last digit above it. */
  predicate Represents(t: nat, u: nat, n: nat) {
    u * TWO32 <= t * Pow10(n) < (u + 1) * TWO32
  }

  lemma Pow10Table()
    ensures Pow10(0) == 1 && Pow10(1) == 10 && Pow10(2) == 100 && Pow10(3) == 1000 && Pow10(4) == 10000
    ensures Pow10(5) == 100000 && Pow10(6) == 1000000 && Pow10(7) == 10000000 && Pow10(8) == 100000000
    ensures Pow10(9) == 1000000000 && Pow10(10) == 10000000000
  {
  }

  lemma Shifts()
    ensures Shift(1) == Shift(2) == Shift(3) == Shift(4) == 0
    ensures Shift(5) == 16 && Shift(6) == 19 && Shift(7) == 23 && Shift(8) == 26
    ensures Pow2(0) == 1 && Pow2(16) == 0x1_0000 && Pow2(19) == 0x8_0000
    ensures Pow2(23) == 0x80_0000 && Pow2(26) == 0x400_0000
    ensures Pow2(32) == TWO32 && Pow2(48) == 0x1_0000_0000_0000 && Pow2(51) == 0x8_0000_0000_0000
    ensures Pow2(55) == 0x80_0000_0000_0000 && Pow2(58) == 0x400_0000_0000_0000
  {
    assert Pow2(8) == 0x100;
    assert Pow2(16) == 0x1_0000;
    assert Pow2(24) == 0x100_0000;
    assert Pow2(32) == TWO32;
    assert Pow2(40) == 0x100_0000_0000;
    assert Pow2(48) == 0x1_0000_0000_0000;
  }

  lemma Reciprocals()
    ensures Reciprocal(1) == 429496730 && Reciprocal(2) == 42949673 && Reciprocal(3) == 4294968
    ensures Reciprocal(4) == 429497 && Reciprocal(5) == 2814749768 && Reciprocal(6) == 2251799814
    ensures Reciprocal(7) == 3602879702 && Reciprocal(8) == 2882303762
  {
    hide Pow2, Shift;
    Shifts();
  }

  lemma Start1(u: nat)
    requires u < 1000
    ensures u * TWO32 <= (429496730 * u) * 10 < (u + 1) * TWO32
  {
  }

  lemma Start2(u: nat)
    requires u < 10000
    ensures u * TWO32 <= (42949673 * u) * 100 < (u + 1) * TWO32
  {
  }

  lemma Start3(u: nat)
    requires u < 100000
    ensures u * TWO32 <= (4294968 * u) * 1000 < (u + 1) * TWO32
  {
  }

  lemma Start4(u: nat)
    requires u < 1000000
    ensures u * TWO32 <= (429497 * u) * 10000 < (u + 1) * TWO32
  {
  }

  lemma Start5(u: nat)
    requires u < 10000000
    ensures u * TWO32 <= (2814749768 * u / 0x10000 + 4) * 100000 < (u + 1) * TWO32
  {
  }

  lemma Start6(u: nat)
    requires u < 100000000
    ensures u * TWO32 <= (2251799814 * u / 0x80000 + 4) * 1000000 < (u + 1) * TWO32
  {
  }

  lemma Start7(u: nat)
    requires u < 1000000000
    ensures u * TWO32 <= (3602879702 * u / 0x800000 + 4) * 10000000 < (u + 1) * TWO32
  {
  }

  lemma Start8(u: nat)
    requires u < TWO32
    ensures u * TWO32 <= (2882303762 * u / 0x4000000 + 4) * 100000000 < (u + 1) * TWO32
  {
  }

  /** The reciprocal is good enough for every number it is used on, and the first product fits 64 bits. */
  lemma StartRepresents(n: nat, u: nat)
    requires 1 <= n <= 8 && u < Pow10(n + 2) && u < TWO32
    ensures Represents(Start(n, u), u, n)
    ensures Reciprocal(n) * u < TWO64
  {
    Pow10Table();
    Shifts();
    Reciprocals();
    hide Pow2, Pow10, Shift, Reciprocal;
    if n == 1 { Start1(u); }
    else if n == 2 { Start2(u); }
    else if n == 3 { Start3(u); }
    else if n == 4 { Start4(u); }
    else if n == 5 { Start5(u); }
    else if n == 6 { Start6(u); }
    else if n == 7 { Start7(u); }
    else { Start8(u); }
  }

  /** The integer part of t is the leading part of u, and the fraction stands for the rest. */
  lemma Front(t: nat, u: nat, p: nat) returns (r: nat)
    requires p >= 1 && u * TWO32 <= t * p < (u + 1) * TWO32
    ensures u == t / TWO32 * p + r && r < p
    ensures r * TWO32 <= t % TWO32 * p < (r + 1) * TWO32
  {
    var h, l := t / TWO32, t % TWO32;
    assert t * p == TWO32 * (h * p) + l * p by {
      assert t == TWO32 * h + l;
      Distribute(TWO32 * h, l, p);
      assert (TWO32 * h) * p == TWO32 * (h * p);
    }
    assert 0 <= l * p <= (TWO32 - 1) * p by { Below(l, TWO32 - 1, p); }
    assert h * p <= u < h * p + p;
    r := u - h * p;
  }

  lemma Distribute(a: nat, b: nat, p: nat)
    ensures (a + b) * p == a * p + b * p
  {
  }

  lemma Below(a: nat, b: nat, p: nat)
    requires a <= b
    ensures 0 <= a * p <= b * p
  {
  }

  /** The fraction of t stands for the remaining m digits, whose value is r. */
  ghost predicate Carries(t: nat, r: nat, m: nat) {
    r < Pow10(m) && r * TWO32 <= t % TWO32 * Pow10(m) < (r + 1) * TWO32
  }

  /** What one conversion step hands to the next: the digits are split, and the fraction stands for the rest. */
  lemma TakeFront(t: nat, u: nat, n: nat, k: nat) returns (r: nat)
    requires Represents(t, u, n) && u < Pow10(n + k)
    ensures t / TWO32 < Pow10(k)
    ensures Padded(u, n + k) == Padded(t / TWO32, k) + Padded(r, n)
    ensures Carries(t, r, n)
  {
    r := Front(t, u, Pow10(n));
    PaddedSplit(t / TWO32, r, k, n);
    assert Padded(u, k + n) == Padded(u, n + k);
    PowAdd(n, k);
    LeadingBound(t / TWO32, Pow10(n), Pow10(k), u);
  }

  lemma LeadingBound(h: nat, p: nat, q: nat, u: nat)
    requires h * p <= u < p * q
    ensures h < q
  {
    if h >= q { Below(q, h, p); }
  }

  lemma {:induction false} PowAdd(a: nat, b: nat)
    ensures Pow10(a + b) == Pow10(a) * Pow10(b)
  {
    if a > 0 {
      PowAdd(a - 1, b);
      Assoc(Pow10(a - 1), Pow10(b));
    }
  }

  lemma Assoc(x: nat, y: nat)
    ensures 10 * (x * y) == (10 * x) * y
  {
  }

  /** The fraction times 100 (or 10) represents the rest with two digits (one digit) fewer to come. */
  lemma NextPair(l: nat, r: nat, n: nat)
    requires r * TWO32 <= l * Pow10(n) < (r + 1) * TWO32 && n >= 1
    ensures Represents(10 * l, r, n - 1)
    ensures n >= 2 ==> Represents(100 * l, r, n - 2)
  {
    assert 10 * l * Pow10(n - 1) == l * Pow10(n) by { Shuffle(10, l, Pow10(n - 1)); }
    if n >= 2 {
      assert Pow10(n) == 100 * Pow10(n - 2);
      assert 100 * l * Pow10(n - 2) == l * Pow10(n) by { Shuffle(100, l, Pow10(n - 2)); }
    }
  }

  lemma Shuffle(c: nat, l: nat, p: nat)
    ensures c * l * p == l * (c * p)
  {
    assert c * l == l * c;
  }

  /** A formatter writing at a moving position of a buffer. */
  lemma PaddedPair(index: nat)
    requires index < 100
    ensures Padded(index, 2) == [DigitChar(index / 10), DigitChar(index % 10)]
  {
    hide Padded, DigitChar;
    LastPadded(index, 2);
    OneDigit(index / 10);
  }

  lemma OneDigit(d: nat)
    requires d < 10
    ensures Padded(d, 1) == [DigitChar(d)]
  {
    hide Padded, DigitChar;
    LastPadded(d, 1);
    NoPadding(d / 10);
  }

  class DecimalFormatter {
    const buffer: array<char>
    var pos: nat

    constructor (buffer: array<char>)
      ensures this.buffer == buffer && pos == 0
    {
      this.buffer := buffer;
      pos := 0;
    }

    /** memcpy of one table entry. */
    method WritePair(n: nat, index: nat)
      requires index < 100 && pos + n + 2 <= buffer.Length
      modifies buffer
      ensures buffer[..pos + n + 2] == old(buffer[..pos + n]) + Padded(index, 2)
      ensures forall k :: pos + n + 2 <= k < buffer.Length ==> buffer[k] == old(buffer[k])
    {
      hide Padded, DigitChar;
      PaddedPair(index);
      var a, b := TablePair(index);
      buffer[pos + n], buffer[pos + n + 1] := a, b;
      assert buffer[..pos + n + 2] == old(buffer[..pos + n]) + [a, b];
    }

    /** on<N>: the N + 1 digits of u, front to back. */
    method On(N: nat, u: nat)
      requires N <= 9 && u < Pow10(N + 1) && u < TWO32
      requires pos + N + 1 <= buffer.Length
      modifies this`pos, buffer
      ensures pos == old(pos) + N + 1
      ensures buffer[..pos] == old(buffer[..pos]) + Padded(u, N + 1)
      ensures forall k :: pos <= k < buffer.Length ==> buffer[k] == old(buffer[k])
    {
      if N == 0 {
        Pow10Table();
        buffer[pos] := '0' + u as char;
        assert Padded(u, 1) == Padded(u / 10, 0) + [DigitChar(u)];
      } else if N == 1 {
        Pow10Table();
        WritePair(0, u);
      } else {
        OnFixedPoint(N, u);
      }
      pos := pos + N + 1;
    }

    /** The fixed-point loop. */
    method OnFixedPoint(N: nat, u: nat)
      requires 2 <= N <= 9 && u < Pow10(N + 1) && u < TWO32
      requires pos + N + 1 <= buffer.Length
      modifies buffer
      ensures buffer[..pos + N + 1] == old(buffer[..pos]) + Padded(u, N + 1)
      ensures forall k :: pos + N + 1 <= k < buffer.Length ==> buffer[k] == old(buffer[k])
    {
      hide Pow10, Padded, Carries;
      ghost var pre, all := buffer[..pos], Padded(u, N + 1);
      var t;
      ghost var r, done;
      t, r, done := WriteFront(N, u);
      var i: nat := 2;
      while i < N
        invariant 2 <= i <= N + 1 && i % 2 == 0
        invariant Carries(t, r, N + 1 - i) && done + Padded(r, N + 1 - i) == all
        invariant |done| == i && buffer[..pos + i] == pre + done
        invariant forall k :: pos + N + 1 <= k < buffer.Length ==> buffer[k] == old(buffer[k])
      {
        t, r, done := WriteNext(i, t, r, N + 1 - i, pre, done, all);
        i := i + 2;
      }
      if N % 2 == 0 {
        var c := LastDigit(t, r);
        buffer[pos + N] := c;
        assert buffer[..pos + N + 1] == pre + (done + [c]);
      } else {
        NoPadding(r);
      }
    }

    /** The first pair, straight from the fixed-point number. */
    method WriteFront(N: nat, u: nat) returns (t: nat, ghost r: nat, ghost done: string)
      requires 2 <= N <= 9 && u < Pow10(N + 1) && u < TWO32
      requires pos + N + 1 <= buffer.Length
      modifies buffer
      ensures Carries(t, r, N - 1) && |done| == 2 && done + Padded(r, N - 1) == Padded(u, N + 1)
      ensures buffer[..pos + 2] == old(buffer[..pos]) + done
      ensures forall k :: pos + N + 1 <= k < buffer.Length ==> buffer[k] == old(buffer[k])
    {
      hide Pow10, Padded, Start, Represents, Reciprocal, Carries;
      Hundred();
      var n := N - 1;
      StartRepresents(n, u);
      t := Start(n, u);
      r := TakeFront(t, u, n, 2);
      done := Padded(t / TWO32, 2);
      WritePair(0, t / TWO32);
    }

    lemma Hundred()
      ensures Pow10(2) == 100 && Pow10(1) == 10
    {
      Pow10Table();
    }

    /** One turn of the loop: the next pair goes behind the digits done. */
    method WriteNext(i: nat, t: nat, ghost r: nat, ghost m: nat, ghost pre: string, ghost done: string,
        ghost all: string)
      returns (t': nat, ghost r': nat, ghost done': string)
      requires m >= 2 && Carries(t, r, m) && done + Padded(r, m) == all
      requires |done| == i && pos + i + 2 <= buffer.Length && buffer[..pos + i] == pre + done
      modifies buffer
      ensures Carries(t', r', m - 2) && done' + Padded(r', m - 2) == all
      ensures |done'| == i + 2 && buffer[..pos + i + 2] == pre + done'
      ensures forall k :: pos + i + 2 <= k < buffer.Length ==> buffer[k] == old(buffer[k])
    {
      hide Padded, Carries, Pow10;
      t', r' := NextTwo(t, r, m);
      WritePair(i, t' / TWO32);
      ghost var pair, rest := Padded(t' / TWO32, 2), Padded(r', m - 2);
      assert done + (pair + rest) == done + pair + rest;
      done' := done + pair;
      assert pre + done + pair == pre + done';
    }

    /** One more multiplication by 100 brings out two more digits. */
    method NextTwo(t: nat, ghost r: nat, ghost m: nat) returns (t': nat, ghost r': nat)
      requires m >= 2 && Carries(t, r, m)
      ensures t' == 100 * (t % TWO32) && t' < TWO64 && t' / TWO32 < 100
      ensures Padded(r, m) == Padded(t' / TWO32, 2) + Padded(r', m - 2)
      ensures Carries(t', r', m - 2)
    {
      assert Pow10(2) == 100 by { Pow10Table(); }
      hide Pow10, Padded, Represents;
      NextPair(t % TWO32, r, m);
      t' := 100 * (t % TWO32);
      r' := TakeFront(t', r, m - 2, 2);
    }

    method LastDigit(t: nat, ghost r: nat) returns (c: char)
      requires Carries(t, r, 1)
      ensures [c] == Padded(r, 1)
    {
      Pow10Table();
      assert 10 * (t % TWO32) / TWO32 == r;
      c := '0' + (10 * (t % TWO32) / TWO32) as char;
      assert Padded(r, 1) == Padded(r / 10, 0) + [DigitChar(r)];
    }

    /** lg: the number of digits of n less one, found by comparisons alone. */
    static function Lg(n: nat): nat {
      if n < 100 then
        if n < 10 then 0 else 1
      else if n < 1000000 then
        if n < 10000 then if n < 1000 then 2 else 3 else if n < 100000 then 4 else 5
      else if n < 100000000 then
        if n < 10000000 then 6 else 7
      else if n < 1000000000 then 8 else 9
    }

    static lemma LgIsLength(n: nat)
      requires n < TWO32
      ensures |Digits(n)| == Lg(n) + 1
    {
      Pow10Table();
      hide Pow10, Digits;
      LengthIs(n, Lg(n) + 1);
    }

    /** lg(u, decimal_formatter(buffer)): exactly the decimal notation of u. */
    method Format(u: nat)
      requires u < TWO32 && pos + |Digits(u)| <= buffer.Length
      modifies this`pos, buffer
      ensures pos == old(pos) + |Digits(u)|
      ensures buffer[..pos] == old(buffer[..pos]) + Digits(u)
      ensures forall k :: pos <= k < buffer.Length ==> buffer[k] == old(buffer[k])
    {
      hide Digits, Padded;
      LgIsLength(u);
      DigitsLength(u);
      PaddedIsDigits(u);
      On(Lg(u), u);
    }
  }
}
