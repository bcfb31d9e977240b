/** Decimal notation, defined digit by digit; the formatting and parsing kernels are proved against it. */
module Decimal {

  function Pow10(n: nat): (p: nat)
    ensures p >= 1
  {
    if n == 0 then 1 else 10 * Pow10(n - 1)
  }

  function DigitChar(d: nat): char
    requires d < 10
  {
    '0' + d as char
  }

  predicate IsDigit(c: char) {
    '0' <= c <= '9'
  }

  function DigitValue(c: char): (d: nat)
    requires IsDigit(c)
    ensures d < 10
  {
    (c - '0') as nat
  }

  /** The decimal notation of n, without leading zeros. */
  function Digits(n: nat): (s: string)
    ensures |s| >= 1
  {
    if n < 10 then [DigitChar(n)] else Digits(n / 10) + [DigitChar(n % 10)]
  }

  /** The last w digits of n, with leading zeros. */
  function Padded(n: nat, w: nat): (s: string)
    ensures |s| == w
  {
    if w == 0 then "" else Padded(n / 10, w - 1) + [DigitChar(n % 10)]
  }

  predicate AllDigits(s: string) {
    forall i :: 0 <= i < |s| ==> IsDigit(s[i])
  }

  /** The number a digit string denotes. */
  function Value(s: string): nat
    requires AllDigits(s)
  {
    if s == "" then 0 else 10 * Value(s[..|s| - 1]) + DigitValue(s[|s| - 1])
  }

  lemma {:induction false} DigitsDenote(n: nat)
    ensures AllDigits(Digits(n)) && Value(Digits(n)) == n
  {
    if n >= 10 {
      DigitsDenote(n / 10);
      assert Digits(n)[..|Digits(n)| - 1] == Digits(n / 10);
    } else {
      assert Digits(n)[..0] == "";
    }
  }

  /** The length of the notation, by powers of ten. */
  lemma {:induction false} DigitsLength(n: nat)
    ensures n < Pow10(|Digits(n)|)
    ensures n > 0 ==> Pow10(|Digits(n)| - 1) <= n
  {
    if n >= 10 {
      DigitsLength(n / 10);
    } else {
      assert Pow10(1) == 10;
    }
  }

  lemma {:induction false} Pow10Monotone(a: nat, b: nat)
    requires a <= b
    ensures Pow10(a) <= Pow10(b)
  {
    if a < b { Pow10Monotone(a, b - 1); }
  }

  lemma LengthIs(n: nat, len: nat)
    requires len >= 1 && n < Pow10(len) && (len == 1 || Pow10(len - 1) <= n)
    ensures |Digits(n)| == len
  {
    DigitsLength(n);
    var m := |Digits(n)|;
    if m < len { Pow10Monotone(m, len - 1); }
    if m > len {
      Pow10Monotone(len, m - 1);
    }
  }

  lemma {:induction false} PaddedIsDigits(n: nat)
    ensures Padded(n, |Digits(n)|) == Digits(n)
  {
    if n >= 10 {
      PaddedIsDigits(n / 10);
    } else {
      assert Padded(n, 1) == Padded(n / 10, 0) + [DigitChar(n % 10)];
    }
  }

  /** The number written as the digits of q and, behind them, w digits for r. */
  function Behind(q: nat, r: nat, w: nat): nat {
    Natural(q, Pow10(w));
    q * Pow10(w) + r
  }

  lemma Natural(a: nat, b: nat)
    ensures a * b >= 0
  {
  }

  lemma BehindStep(q: nat, r: nat, w: nat)
    requires w > 0 && r < Pow10(w)
    ensures Behind(q, r, w) / 10 == Behind(q, r / 10, w - 1) && Behind(q, r, w) % 10 == r % 10
    ensures r / 10 < Pow10(w - 1)
  {
    var p := Pow10(w - 1);
    assert Pow10(w) == 10 * p;
    hide Pow10;
    Shift(q, r, p);
  }

  /** Splitting a padded notation after its leading digits. */
  lemma {:induction false} BehindSplit(q: nat, r: nat, v: nat, w: nat)
    requires r < Pow10(w)
    ensures Padded(Behind(q, r, w), v + w) == Padded(q, v) + Padded(r, w)
    decreases w
  {
    if w == 0 {
      NoPadding(r);
      assert Behind(q, r, 0) == q && Padded(q, v) + "" == Padded(q, v);
    } else {
      hide Pow10, Padded, Behind, DigitChar;
      BehindStep(q, r, w);
      BehindSplit(q, r / 10, v, w - 1);
      LastPadded(Behind(q, r, w), v + w);
      LastPadded(r, w);
    }
  }

  lemma PaddedSplit(q: nat, r: nat, v: nat, w: nat)
    requires r < Pow10(w)
    ensures Padded(q * Pow10(w) + r, v + w) == Padded(q, v) + Padded(r, w)
  {
    hide Padded, Pow10;
    BehindSplit(q, r, v, w);
  }

  lemma NoPadding(n: nat)
    ensures Padded(n, 0) == ""
  {
  }

  lemma LastPadded(n: nat, w: nat)
    requires w > 0
    ensures Padded(n, w) == Padded(n / 10, w - 1) + [DigitChar(n % 10)]
  {
  }

  lemma Shift(q: nat, r: nat, p: nat)
    ensures (q * (10 * p) + r) / 10 == q * p + r / 10
    ensures (q * (10 * p) + r) % 10 == r % 10
  {
    assert q * (10 * p) == 10 * (q * p);
  }

  // ---------------------------------------------------------------- the table of digit pairs

  const FRONT_ROWS: seq<string> := [
    "00010203040506070809",
    "10111213141516171819",
    "20212223242526272829",
    "30313233343536373839",
    "40414243444546474849"]

  const BACK_ROWS: seq<string> := [
    "50515253545556575859",
    "60616263646566676869",
    "70717273747576777879",
    "80818283848586878889",
    "90919293949596979899"]

  /** The pairs of the ten numbers from 10 * t on. */
  function TableRow(t: nat): string
    requires t < 10
  {
    if t < 5 then FRONT_ROWS[t] else BACK_ROWS[t - 5]
  }

  predicate PairAt(row: string, t: nat, u: nat)
    requires t < 10 && u < 10
  {
    |row| == 20 && row[2 * u] == DigitChar(t) && row[2 * u + 1] == DigitChar(u)
  }

  lemma FrontRow(t: nat, u: nat)
    requires t < 5 && u < 10
    ensures PairAt(FRONT_ROWS[t], t, u)
  {
  }

  lemma BackRow(t: nat, u: nat)
    requires t < 5 && u < 10
    ensures PairAt(BACK_ROWS[t], t + 5, u)
  {
  }

  lemma RowPairs(t: nat, u: nat)
    requires t < 10 && u < 10
    ensures PairAt(TableRow(t), t, u)
  {
    hide PairAt;
    if t < 5 { FrontRow(t, u); } else { BackRow(t - 5, u); }
  }

  /** The first n rows, one after the other. */
  function Table(n: nat): (r: string)
    requires n <= 10
    ensures |r| == 20 * n
  {
    if n == 0 then ""
    else
      RowPairs(n - 1, 0);
      Table(n - 1) + TableRow(n - 1)
  }

  const DIGITS: string := Table(10)

  lemma {:induction false} TableAt(n: nat, t: nat, i: nat)
    requires t < n <= 10 && i < 20
    ensures |TableRow(t)| == 20 && Table(n)[20 * t + i] == TableRow(t)[i]
  {
    hide TableRow;
    RowPairs(t, 0);
    if t < n - 1 { TableAt(n - 1, t, i); }
  }

  /** Entry i of the table holds the two digits of i. */
  lemma PairTable(i: nat)
    requires i < 100
    ensures |DIGITS| == 200
    ensures DIGITS[2 * i] == DigitChar(i / 10) && DIGITS[2 * i + 1] == DigitChar(i % 10)
  {
    hide TableRow, Table, DigitChar;
    var t, u := i / 10, i % 10;
    RowPairs(t, u);
    TableAt(10, t, 2 * u);
    TableAt(10, t, 2 * u + 1);
    assert 2 * i == 20 * t + 2 * u;
  }

  /** One table entry. */
  method TablePair(index: nat) returns (tens: char, units: char)
    requires index < 100
    ensures tens == DigitChar(index / 10) && units == DigitChar(index % 10)
  {
    hide Table, DigitChar;
    PairTable(index);
    tens, units := DIGITS[index * 2], DIGITS[index * 2 + 1];
  }
}
