/** Writing an integer backwards two digits at a time, with optional thousands separators, and reading one back. */
module DecimalText {
  import opened Common
  import opened Decimal
  import opened DigitCount
  import FixedPoint

  // ---------------------------------------------------------------- grouping, as a reader sees it

  /** The digits in groups of three from the right. */
  function Grouped(digits: string, sep: string): string {
    var n := |digits|;
    if n <= 3 then digits else Grouped(digits[..n - 3], sep) + sep + digits[n - 3..]
  }

  /** The groups without what stands between them: the last three, then skip a separator, and so on. */
  function Ungrouped(text: string, sep: string): string {
    var n := |text|;
    if n <= 3 || n < 3 + |sep| then text else Ungrouped(text[..n - 3 - |sep|], sep) + text[n - 3..]
  }

  lemma {:induction false} GroupedSize(digits: string, sep: string)
    requires digits != ""
    ensures |Grouped(digits, sep)| == |digits| + |sep| * ((|digits| - 1) / 3)
  {
    var n := |digits|;
    if n > 3 {
      GroupedSize(digits[..n - 3], sep);
      assert (n - 1) / 3 == (n - 4) / 3 + 1;
      assert |sep| * ((n - 4) / 3 + 1) == |sep| * ((n - 4) / 3) + |sep|;
    }
  }

  /** The last group and the separator before it. */
  lemma LastGroup(digits: string, c: char, r: nat)
    requires |digits| > 3
    ensures var g, front := Grouped(digits, [c]), Grouped(digits[..|digits| - 3], [c]);
            && |g| == |front| + 4 && |front| >= 1 && g[0] == front[0]
            && (r < 3 ==> g[|g| - 1 - r] == digits[|digits| - 1 - r])
            && g[|front|] == c
            && (4 <= r < |g| ==> g[|g| - 1 - r] == front[|front| - 1 - (r - 4)])
  {
    var n := |digits|;
    var front, tail := Grouped(digits[..n - 3], [c]), digits[n - 3..];
    GroupedSize(digits[..n - 3], [c]);
    assert Grouped(digits, [c]) == front + [c] + tail;
    assert r < 3 ==> tail[2 - r] == digits[n - 1 - r];
  }

  /** The place r of a grouped text, counted from the right, and what stands there. */
  ghost predicate PlaceHolds(digits: string, g: string, c: char, r: nat) {
    && r < |g|
    && (g[|g| - 1 - r] == c <==> r % 4 == 3)
    && (r % 4 != 3 ==> r - r / 4 < |digits| && g[|g| - 1 - r] == digits[|digits| - 1 - (r - r / 4)])
  }

  lemma NearPlace(digits: string, c: char, r: nat)
    requires AllDigits(digits) && !IsDigit(c) && |digits| > 3 && r < 4
    ensures PlaceHolds(digits, Grouped(digits, [c]), c, r)
  {
    LastGroup(digits, c, r);
    hide Grouped;
  }

  /** Four places to the left in the text are three places to the left in the digits. */
  lemma FarPlace(digits: string, front: string, g: string, c: char, r: nat)
    requires |digits| > 3 && 4 <= r < |g| == |front| + 4
    requires g[|g| - 1 - r] == front[|front| - 1 - (r - 4)]
    requires PlaceHolds(digits[..|digits| - 3], front, c, r - 4)
    ensures PlaceHolds(digits, g, c, r)
  {
    var q := r - 4;
    assert r % 4 == q % 4 && r / 4 == q / 4 + 1;
    if q % 4 != 3 {
      assert digits[..|digits| - 3][|digits| - 4 - (q - q / 4)] == digits[|digits| - 4 - (q - q / 4)];
    }
  }

  lemma {:induction false} PlacesHold(digits: string, c: char, r: nat)
    requires AllDigits(digits) && !IsDigit(c) && digits != "" && r < |Grouped(digits, [c])|
    ensures PlaceHolds(digits, Grouped(digits, [c]), c, r) && IsDigit(Grouped(digits, [c])[0])
  {
    var n := |digits|;
    if n <= 3 {
      assert Grouped(digits, [c]) == digits;
    } else {
      LastGroup(digits, c, r);
      hide Grouped, PlaceHolds;
      PlacesHold(digits[..n - 3], c, if r >= 4 then r - 4 else 0);
      if r < 4 {
        NearPlace(digits, c, r);
      } else {
        FarPlace(digits, Grouped(digits[..n - 3], [c]), Grouped(digits, [c]), c, r);
      }
    }
  }

  /** A separator stands exactly after every third digit from the right, and never in front. */
  lemma SeparatorPlaces(digits: string, c: char, r: nat)
    requires AllDigits(digits) && !IsDigit(c) && digits != "" && r < |Grouped(digits, [c])|
    ensures var g := Grouped(digits, [c]);
            && (g[|g| - 1 - r] == c <==> r % 4 == 3)
            && IsDigit(g[0])
            && (r % 4 != 3 ==> r - r / 4 < |digits| && g[|g| - 1 - r] == digits[|digits| - 1 - (r - r / 4)])
  {
    PlacesHold(digits, c, r);
    hide Grouped;
  }

  lemma {:induction false} SeparatorsRemoved(digits: string, sep: string)
    requires digits != ""
    ensures Ungrouped(Grouped(digits, sep), sep) == digits
  {
    var n := |digits|;
    if n > 3 {
      var g := Grouped(digits[..n - 3], sep);
      var text := Grouped(digits, sep);
      GroupedSize(digits[..n - 3], sep);
      assert text[..|text| - 3 - |sep|] == g;
      assert text[|text| - 3..] == digits[n - 3..];
      SeparatorsRemoved(digits[..n - 3], sep);
    }
  }

  // ---------------------------------------------------------------- grouping, as the writer produces it

  /** What the separator functor writes after digit number k from the right. */
  function Glue(k: nat, sep: string): string {
    if k % 3 == 0 then sep else ""
  }

  /** What has been written after the last k digits, when more digits follow. */
  function Tail(digits: string, k: nat, sep: string): string
    requires k <= |digits|
  {
    if k == 0 then "" else Glue(k, sep) + ([digits[|digits| - k]] + Tail(digits, k - 1, sep))
  }

  lemma TailOfThree(digits: string, sep: string)
    requires |digits| >= 3
    ensures Tail(digits, 3, sep) == sep + digits[|digits| - 3..]
  {
    var n := |digits|;
    assert Tail(digits, 1, sep) == [digits[n - 1]];
    assert Tail(digits, 2, sep) == [digits[n - 2]] + Tail(digits, 1, sep);
    assert digits[n - 3..] == [digits[n - 3], digits[n - 2], digits[n - 1]];
  }

  function Then(a: string, b: string): string {
    a + b
  }

  lemma TailStep(digits: string, k: nat, c: string, sep: string)
    requires 1 <= k <= |digits| && c == [digits[|digits| - k]]
    ensures Tail(digits, k, sep) == Then(Glue(k, sep), Then(c, Tail(digits, k - 1, sep)))
  {
  }

  lemma ThenAssociates(a: string, b: string, c: string, d: string)
    ensures Then(a, Then(b, Then(c, d))) == Then(Then(a, Then(b, c)), d)
  {
    assert a + (b + (c + d)) == (a + (b + c)) + d;
  }

  lemma TailStart(digits: string, sep: string)
    requires |digits| >= 3
    ensures Tail(digits, 3, sep) == Then(Tail(digits[..|digits| - 3], 0, sep), Then(sep, digits[|digits| - 3..]))
  {
    TailOfThree(digits, sep);
  }

  lemma {:induction false} TailShift(digits: string, k: nat, sep: string)
    requires 3 <= k <= |digits|
    ensures var n := |digits|;
            Tail(digits, k, sep) == Then(Tail(digits[..n - 3], k - 3, sep), Then(sep, digits[n - 3..]))
  {
    var n := |digits|;
    hide Glue, Tail, Then;
    if k == 3 {
      TailStart(digits, sep);
    } else {
      var d, rest, c := digits[..n - 3], Then(sep, digits[n - 3..]), [digits[n - k]];
      assert c == [d[|d| - (k - 3)]];
      TailStep(digits, k, c, sep);
      TailStep(d, k - 3, c, sep);
      TailShift(digits, k - 1, sep);
      GlueRepeats(k, sep);
      ThenAssociates(Glue(k, sep), c, Tail(d, k - 4, sep), rest);
    }
  }

  lemma GlueRepeats(k: nat, sep: string)
    requires k >= 3
    ensures Glue(k, sep) == Glue(k - 3, sep)
  {
  }

  lemma Reassociate(a: string, b: string, c: string, d: string)
    ensures a + (b + (c + d)) == (a + (b + c)) + d
  {
  }

  lemma {:induction false} TailIsGrouped(digits: string, sep: string)
    requires digits != ""
    ensures [digits[0]] + Tail(digits, |digits| - 1, sep) == Grouped(digits, sep)
  {
    var n := |digits|;
    if n > 3 {
      TailShift(digits, n - 1, sep);
      TailIsGrouped(digits[..n - 3], sep);
    } else if n == 3 {
      assert Tail(digits, 1, sep) == [digits[2]];
      assert Tail(digits, 2, sep) == [digits[1]] + Tail(digits, 1, sep);
    } else if n == 2 {
      assert Tail(digits, 1, sep) == [digits[1]];
    }
  }

  // ---------------------------------------------------------------- the writer

  /** add_thousands_sep after one written digit; an empty separator makes it no_thousands_sep. */
  method AddSep(buffer: array<char>, at: nat, digitIndex: nat, sep: string) returns (at': nat, digitIndex': nat)
    requires at <= buffer.Length && |Glue(digitIndex + 1, sep)| <= at
    modifies buffer
    ensures digitIndex' == digitIndex + 1 && at' == at - |Glue(digitIndex', sep)|
    ensures buffer[at'..] == Glue(digitIndex', sep) + old(buffer[at..])
    ensures buffer[..at'] == old(buffer[..at'])
  {
    digitIndex' := digitIndex + 1;
    at' := at;
    if digitIndex' % 3 != 0 { return; }
    at' := at - |sep|;
    forall i | 0 <= i < |sep| { buffer[at' + i] := sep[i]; }
    assert buffer[at'..] == sep + old(buffer[at..]);
  }

  /** One digit and, after every third, the separator. */
  method WriteDigit(buffer: array<char>, at: nat, c: char, digitIndex: nat, sep: string)
    returns (at': nat, digitIndex': nat)
    requires at <= buffer.Length && |Glue(digitIndex + 1, sep)| + 1 <= at
    modifies buffer
    ensures digitIndex' == digitIndex + 1 && at' == at - 1 - |Glue(digitIndex', sep)|
    ensures buffer[at'..] == Glue(digitIndex', sep) + ([c] + old(buffer[at..]))
    ensures buffer[..at'] == old(buffer[..at'])
  {
    hide Glue;
    PutBefore(buffer, at, c);
    label Put:
    at', digitIndex' := AddSep(buffer, at - 1, digitIndex, sep);
    assert buffer[..at'] == old@Put(buffer[..at - 1])[..at'];
    assert old@Put(buffer[..at - 1])[..at'] == old(buffer[..at']);
  }

  method PutBefore(buffer: array<char>, at: nat, c: char)
    requires 1 <= at <= buffer.Length
    modifies buffer
    ensures buffer[at - 1..] == [c] + old(buffer[at..])
    ensures buffer[..at - 1] == old(buffer[..at - 1])
  {
    buffer[at - 1] := c;
  }

  /** After k written digits, v is the number whose notation is still to come. */
  ghost predicate Ahead(digits: string, v: nat, k: nat) {
    k < |digits| && Digits(v) == digits[..|digits| - k]
  }

  lemma NextDigit(digits: string, v: nat, k: nat)
    requires Ahead(digits, v, k) && v >= 10
    ensures digits[|digits| - 1 - k] == DigitChar(v % 10) && Ahead(digits, v / 10, k + 1)
  {
    var d := digits[..|digits| - k];
    assert d[..|d| - 1] == Digits(v / 10) == digits[..|digits| - k - 1];
  }

  lemma LastDigit(digits: string, v: nat, k: nat)
    requires Ahead(digits, v, k) && v < 10
    ensures k == |digits| - 1 && digits[0] == DigitChar(v)
  {
  }

  lemma {:induction false} TailSize(digits: string, k: nat, m: nat, sep: string)
    requires k <= m <= |digits|
    ensures |Tail(digits, k, sep)| <= |Tail(digits, m, sep)|
    ensures k < m ==> |Tail(digits, k + 1, sep)| <= |Tail(digits, m, sep)|
  {
    hide Glue, Tail;
    if k < m {
      TailStep(digits, m, [digits[|digits| - m]], sep);
      TailSize(digits, k, m - 1, sep);
    }
  }

  /** Where the writer stands after k digits of a text whose first character belongs at base. */
  ghost function Place(digits: string, k: nat, sep: string, base: nat): int
    requires k < |digits|
  {
    base + 1 + |Tail(digits, |digits| - 1, sep)| - |Tail(digits, k, sep)|
  }

  /** One more digit, when it is not the last. */
  method Advance(buffer: array<char>, ghost digits: string, ghost base: nat, ghost rest: string,
                 at: nat, c: char, digitIndex: nat, sep: string)
    returns (at': nat, digitIndex': nat)
    requires digitIndex + 1 < |digits| && c == digits[|digits| - 1 - digitIndex]
    requires at <= buffer.Length && at == Place(digits, digitIndex, sep, base)
    requires buffer[at..] == Tail(digits, digitIndex, sep) + rest
    modifies buffer
    ensures digitIndex' == digitIndex + 1
    ensures base < at' <= buffer.Length && at' == Place(digits, digitIndex', sep, base)
    ensures buffer[at'..] == Tail(digits, digitIndex', sep) + rest
    ensures buffer[..base] == old(buffer[..base])
  {
    hide Glue;
    TailSize(digits, digitIndex + 1, |digits| - 1, sep);
    ghost var g, t := Glue(digitIndex + 1, sep), Tail(digits, digitIndex, sep);
    Reassociate(g, [c], t, rest);
    at', digitIndex' := WriteDigit(buffer, at, c, digitIndex, sep);
    assert buffer[..base] == buffer[..at'][..base];
    assert old(buffer[..at'])[..base] == old(buffer[..base]);
  }

  /** format_decimal: the text ends at buffer[size] and starts wherever its length puts it. */
  method FormatDecimal(buffer: array<char>, value: nat, size: nat, sep: string) returns (at: nat)
    requires |Grouped(Digits(value), sep)| <= size <= buffer.Length
    modifies buffer
    ensures at == size - |Grouped(Digits(value), sep)|
    ensures buffer[at..size] == Grouped(Digits(value), sep)
    ensures buffer[..at] == old(buffer[..at]) && buffer[size..] == old(buffer[size..])
  {
    hide Grouped, Digits, Tail, Glue, Ahead, Place;
    ghost var digits, rest, front := Digits(value), buffer[size..], buffer[..];
    TailIsGrouped(digits, sep);
    ghost var base := size - |Grouped(digits, sep)|;
    StartAhead(value, sep, base);
    at := size;
    var v, k := value, 0;
    while v >= 100
      invariant k < |digits| && Ahead(digits, v, k)
      invariant base < at <= buffer.Length && at == Place(digits, k, sep, base)
      invariant buffer[at..] == Tail(digits, k, sep) + rest
      invariant buffer[..base] == front[..base]
      decreases v
    {
      var tens, units := TablePair(v % 100);
      NextTwoDigits(digits, v, k, tens, units);
      v := v / 100;
      at, k := Advance(buffer, digits, base, rest, at, units, k, sep);
      at, k := Advance(buffer, digits, base, rest, at, tens, k, sep);
    }
    if v < 10 {
      LastDigit(digits, v, k);
      at := WriteFirst(buffer, digits, base, rest, at, '0' + v as char, k, sep);
      Written(front, buffer[..], Grouped(digits, sep), at, size);
      return;
    }
    var tens, units := TablePair(v);
    NextDigit(digits, v, k);
    LastDigit(digits, v / 10, k + 1);
    at, k := Advance(buffer, digits, base, rest, at, units, k, sep);
    at := WriteFirst(buffer, digits, base, rest, at, tens, k, sep);
    Written(front, buffer[..], Grouped(digits, sep), at, size);
  }

  /** The three parts of the buffer when the text is complete. */
  lemma Written(before: string, all: string, text: string, at: nat, size: nat)
    requires at + |text| == size <= |all| == |before|
    requires all[at..] == text + before[size..] && all[..at] == before[..at]
    ensures all[at..size] == text && all[..at] == before[..at] && all[size..] == before[size..]
  {
    assert all[at..size] == all[at..][..size - at];
    assert all[size..] == all[at..][size - at..];
  }

  lemma NextTwoDigits(digits: string, v: nat, k: nat, tens: char, units: char)
    requires Ahead(digits, v, k) && v >= 100
    requires tens == DigitChar(v % 100 / 10) && units == DigitChar(v % 100 % 10)
    ensures k + 2 < |digits| && digits[|digits| - 1 - k] == units && digits[|digits| - 2 - k] == tens
    ensures Ahead(digits, v / 100, k + 2)
  {
    NextDigit(digits, v, k);
    NextDigit(digits, v / 10, k + 1);
    assert v / 10 / 10 == v / 100 && v % 100 % 10 == v % 10 && v % 100 / 10 == v / 10 % 10;
  }

  lemma StartAhead(value: nat, sep: string, base: nat)
    ensures var d := Digits(value);
            Ahead(d, value, 0) && Tail(d, 0, sep) == "" && Place(d, 0, sep, base) == base + |Grouped(d, sep)|
  {
    TailIsGrouped(Digits(value), sep);
  }

  /** The leading digit carries no separator in front of it. */
  method WriteFirst(buffer: array<char>, ghost digits: string, ghost base: nat, ghost rest: string,
                    at: nat, c: char, ghost k: nat, ghost sep: string)
    returns (at': nat)
    requires |digits| == k + 1 && c == digits[0]
    requires base < at <= buffer.Length && at == Place(digits, k, sep, base)
    requires buffer[at..] == Tail(digits, k, sep) + rest
    modifies buffer
    ensures at' == base && buffer[at'..] == Grouped(digits, sep) + rest
    ensures buffer[..base] == old(buffer[..base])
  {
    hide Tail, Grouped;
    TailIsGrouped(digits, sep);
    PutBefore(buffer, at, c);
    at' := at - 1;
    assert [c] + (Tail(digits, k, sep) + rest) == ([c] + Tail(digits, k, sep)) + rest;
  }

  /**
   The overload for plain output iterators formats into an array of digits10 + 2 characters first: 11 for 32-bit
   numbers and 21 for 64-bit ones. A grouped number fits exactly if it has no more than 9, or 16, digits.
   */
  lemma LocalArrayFits(n: nat, sep: char)
    ensures |Grouped(Digits(n), [sep])| <= 11 <==> n < Pow10(9)
    ensures |Grouped(Digits(n), [sep])| <= 21 <==> n < Pow10(16)
  {
    hide Grouped, Digits, Pow10;
    GroupedSize(Digits(n), [sep]);
    LengthAtMost(n, 9);
    LengthAtMost(n, 16);
    var d := |Digits(n)|;
    assert |[sep]| * ((d - 1) / 3) == (d - 1) / 3;
  }

  lemma LengthAtMost(n: nat, m: nat)
    requires m >= 1
    ensures |Digits(n)| <= m <==> n < Pow10(m)
  {
    assert n == 0 ==> |Digits(n)| == 1;
    hide Digits, Pow10;
    DigitsLength(n);
    var d := |Digits(n)|;
    if d <= m { Pow10Monotone(d, m); } else { Pow10Monotone(m, d - 1); }
  }

  /** on_num: the buffer size computed from the digit count is exactly what the grouped text fills. */
  method OnNum(value: nat, sep: char) returns (buffer: array<char>)
    requires value < FixedPoint.Pow2(64)
    ensures fresh(buffer) && buffer[..] == Grouped(Digits(value), [sep])
    ensures buffer.Length == |Digits(value)| + (|Digits(value)| - 1) / 3
  {
    hide Grouped, Digits;
    var numDigits := CountDigits64(value);
    var size := numDigits + (numDigits - 1) / 3;
    GroupedSize(Digits(value), [sep]);
    buffer := new char[size];
    var at := FormatDecimal(buffer, value, size, [sep]);
    assert buffer[at..size] == buffer[..];
  }

  // ---------------------------------------------------------------- reading back

  const INT_MAX: nat := 2147483647

  /** Position after the digits that start at i. */
  function RunEnd(s: string, i: nat): (j: nat)
    requires i <= |s|
    ensures i <= j <= |s| && AllDigits(s[i..j]) && (j < |s| ==> !IsDigit(s[j]))
    decreases |s| - i
  {
    if i < |s| && IsDigit(s[i]) then RunEnd(s, i + 1) else i
  }

  datatype Parsed = Number(value: nat, next: nat) | TooBig

  /** Another digit multiplies the value by ten at least. */
  lemma {:induction false} PrefixValue(s: string, k: nat)
    requires k < |s| && AllDigits(s)
    ensures Value(s) >= 10 * Value(s[..k])
  {
    var front := s[..|s| - 1];
    if k < |s| - 1 {
      PrefixValue(front, k);
      assert front[..k] == s[..k];
    }
  }

  lemma BigPrefix(s: string, start: nat, it: nat, end: nat)
    requires start <= it < end <= |s| && AllDigits(s[start..end])
    requires AllDigits(s[start..it]) && Value(s[start..it]) > INT_MAX / 10
    ensures Value(s[start..end]) > INT_MAX
  {
    hide Value;
    assert s[start..end][..it - start] == s[start..it];
    PrefixValue(s[start..end], it - start);
  }

  lemma StepValue(s: string, start: nat, it: nat, end: nat)
    requires start <= it < end <= |s| && AllDigits(s[start..end])
    ensures IsDigit(s[it]) && AllDigits(s[start..it]) && AllDigits(s[start..it + 1])
    ensures Value(s[start..it + 1]) == 10 * Value(s[start..it]) + DigitValue(s[it])
  {
    assert s[it] == s[start..end][it - start];
    assert s[start..it] == s[start..end][..it - start];
    assert s[start..it + 1] == s[start..end][..it + 1 - start];
    assert s[start..it + 1][..it - start] == s[start..it];
  }

  /** parse_nonnegative_int on 32-bit unsigned arithmetic. */
  method ParseNonnegativeInt(s: string, start: nat) returns (r: Parsed)
    requires start < |s| && IsDigit(s[start])
    ensures var n := Value(s[start..RunEnd(s, start)]);
            r == if n <= INT_MAX then Number(n, RunEnd(s, start)) else TooBig
  {
    assert Value(s[start..start]) == 0;
    hide Value;
    ghost var end := RunEnd(s, start);
    var big := INT_MAX / 10;
    var value, it := 0, start;
    assert end > start;
    while true
      invariant start <= it < end <= |s| && AllDigits(s[start..end])
      invariant AllDigits(s[start..it])
      invariant value == Value(s[start..it]) && value <= 10 * big + 9
      decreases end - it
    {
      if value > big {
        BigPrefix(s, start, it, end);
        value := INT_MAX + 1;
        break;
      }
      StepValue(s, start, it, end);
      value := (value * 10 + DigitValue(s[it])) % TWO32;
      it := it + 1;
      if !(it < |s| && IsDigit(s[it])) {
        assert it == end;
        break;
      }
    }
    if value > INT_MAX { return TooBig; }
    return Number(value, it);
  }

  lemma {:induction false} RunOfDigits(s: string, i: nat)
    requires i <= |s| && AllDigits(s[i..])
    ensures RunEnd(s, i) == |s|
    decreases |s| - i
  {
    if i < |s| {
      assert s[i..][0] == s[i] && s[i..][1..] == s[i + 1..];
      RunOfDigits(s, i + 1);
    }
  }

  /** Printing and reading back, for every number that fits an int and every larger one. */
  method RoundTrip(n: nat) returns (r: Parsed)
    requires n < FixedPoint.Pow2(64)
    ensures r == if n <= INT_MAX then Number(n, |Digits(n)|) else TooBig
  {
    hide Value;
    DigitsDenote(n);
    var size := CountDigits64(n);
    var buffer := new char[size];
    PlainText(Digits(n));
    var at := FormatDecimal(buffer, n, size, "");
    assert buffer[..] == buffer[at..size];
    RunOfDigits(buffer[..], 0);
    assert buffer[..][0..RunEnd(buffer[..], 0)] == Digits(n);
    r := ParseNonnegativeInt(buffer[..], 0);
  }

  /** Without a separator the text is the digits alone. */
  lemma {:induction false} PlainText(digits: string)
    ensures Grouped(digits, "") == digits
  {
    var n := |digits|;
    if n > 3 {
      PlainText(digits[..n - 3]);
    }
  }
}
