/** Command aliases: the words of what was typed, and templates whose placeholders stand for stretches of it. */
module AliasExpansion {
  import opened Common
  import opened Decimal

  // ---------------------------------------------------------------- words

  /** Word k starts here: the beginning of the text, or the first character after blanks. */
  predicate StartsAt(text: string, p: nat) {
    p == 0 || (p < |text| && text[p] != ' ' && text[p - 1] == ' ')
  }

  /** The word starts among the first n characters; the first word starts at 0 even of an empty text. */
  function Offsets(text: string, n: nat): (r: seq<nat>)
    ensures |r| >= 1 && r[0] == 0
  {
    if n <= 1 then [0]
    else Offsets(text, n - 1) + (if StartsAt(text, n - 1) then [n - 1] else [])
  }

  function Words(text: string): seq<nat> {
    Offsets(text, |text|)
  }

  lemma {:induction false} OffsetsAre(text: string, n: nat, p: nat)
    requires n <= |text|
    ensures p in Offsets(text, n) <==> p == 0 || (p < n && StartsAt(text, p))
  {
    if n > 1 { OffsetsAre(text, n - 1, p); }
  }

  lemma {:induction false} OffsetsIncrease(text: string, n: nat, i: nat, j: nat)
    requires n <= |text| && i < j < |Offsets(text, n)|
    ensures Offsets(text, n)[i] < Offsets(text, n)[j] < n
  {
    if n > 1 {
      var rest := Offsets(text, n - 1);
      if j < |rest| {
        OffsetsIncrease(text, n - 1, i, j);
      } else {
        assert rest[i] in rest;
        OffsetsAre(text, n - 1, rest[i]);
      }
    }
  }

  method CountArgs(text: string) returns (args: nat)
    ensures args == |Words(text)|
  {
    args := 1;
    var notBlank := true;
    for p := 0 to |text|
      invariant args == |Offsets(text, p)| && (notBlank <==> p == 0 || text[p - 1] != ' ')
    {
      if notBlank && text[p] == ' ' { notBlank := false; }
      if !notBlank && text[p] != ' ' {
        notBlank := true;
        args := args + 1;
      }
    }
  }

  /** Fills an array of as many places as CountArgs says. */
  method GetOffsets(text: string, offsets: array<nat>)
    requires offsets.Length == |Words(text)|
    modifies offsets
    ensures offsets[..] == Words(text)
  {
    offsets[0] := 0;
    var counter := 1;
    var notBlank := true;
    for p := 0 to |text|
      invariant counter == |Offsets(text, p)| <= offsets.Length && offsets[..counter] == Offsets(text, p)
      invariant notBlank <==> p == 0 || text[p - 1] != ' '
    {
      Prefixes(text, p + 1, |text|);
      if notBlank && text[p] == ' ' { notBlank := false; }
      if !notBlank && text[p] != ' ' {
        notBlank := true;
        offsets[counter] := p;
        counter := counter + 1;
      }
    }
  }

  lemma {:induction false} Prefixes(text: string, m: nat, n: nat)
    requires m <= n
    ensures Offsets(text, m) <= Offsets(text, n)
  {
    if m < n { Prefixes(text, m, n - 1); }
  }

  // ---------------------------------------------------------------- placeholders

  predicate IsSpace(c: char) {
    c in {' ', '\t', '\n', '\r', 11 as char, 12 as char}
  }

  function SkipSpace(s: string, i: nat): (r: nat)
    requires i <= |s|
    ensures i <= r <= |s|
    decreases |s| - i
  {
    if i < |s| && IsSpace(s[i]) then SkipSpace(s, i + 1) else i
  }

  function DigitsEnd(s: string, i: nat): (r: nat)
    requires i <= |s|
    ensures i <= r <= |s| && AllDigits(s[i..r])
    decreases |s| - i
  {
    if i < |s| && IsDigit(s[i]) then
      var r := DigitsEnd(s, i + 1);
      assert s[i..r] == [s[i]] + s[i + 1..r];
      r
    else i
  }

  datatype Scanned = Number(value: int, next: nat) | Nothing

  /** A decimal number the way the C library's formatted input reads it: blanks, a sign, digits. */
  function ScanInt(s: string, i: nat): (r: Scanned)
    requires i <= |s|
    ensures r.Number? ==> i < r.next <= |s|
  {
    var j := SkipSpace(s, i);
    var k := if j < |s| && s[j] in {'+', '-'} then j + 1 else j;
    var e := DigitsEnd(s, k);
    if e == k then Nothing
    else
      var v: int := Value(s[k..e]);
      Number(if j < |s| && s[j] == '-' then -v else v, e)
  }

  /** What a placeholder stands for. */
  datatype Mark = Whole | Word(arg: nat) | Span(lo: int, hi: int) | Void

  /** The last word a span may name is the last there is; a span that starts behind its end is empty. */
  function Clipped(lo: int, hi: int, args: nat): Mark {
    var top := if hi >= args then args - 1 else hi;
    if lo > top then Void else Span(lo, top)
  }

  /** The placeholder in braces that opens at i. */
  function Braced(s: string, i: nat, args: nat): Mark
    requires i < |s|
  {
    var a := ScanInt(s, i + 1);
    if a.Nothing? || a.next >= |s| then Void
    else
      var b := if s[a.next] == '-' then ScanInt(s, a.next + 1) else Nothing;
      if b.Number? then Clipped(a.value, b.value, args)
      else if s[a.next] == '}' then
        if a.value < 0 then Clipped(0, -a.value, args) else Clipped(a.value, a.value, args)
      else if s[a.next] == '-' then Clipped(a.value, args - 1, args)
      else Void
  }

  /** The placeholder whose dollar sign stands before place i. */
  function MarkAt(s: string, i: nat, args: nat): Mark {
    if i >= |s| then Void
    else if s[i] == '*' then Whole
    else if s[i] == '{' then Braced(s, i, args)
    else if IsDigit(s[i]) && DigitValue(s[i]) < args then Word(DigitValue(s[i]))
    else Void
  }

  /** Place of the first closing brace from i on, or |s|. */
  function Close(s: string, i: nat): (r: nat)
    requires i <= |s|
    ensures i <= r <= |s|
    decreases |s| - i
  {
    if i < |s| && s[i] != '}' then Close(s, i + 1) else i
  }

  function AfterMark(s: string, i: nat): (r: nat)
    ensures r > i
  {
    if i < |s| && s[i] == '{' then Close(s, i) + 1 else i + 1
  }

  // ---------------------------------------------------------------- meaning

  /** A word ends at a blank or a tab. */
  function WordEnd(text: string, i: nat): (r: nat)
    requires i <= |text|
    ensures i <= r <= |text|
    ensures forall k :: i <= k < r ==> text[k] != ' ' && text[k] != '\t'
    ensures r < |text| ==> text[r] == ' ' || text[r] == '\t'
    decreases |text| - i
  {
    if i < |text| && text[i] != ' ' && text[i] != '\t' then WordEnd(text, i + 1) else i
  }

  /** Words lo to hi with what is between them, without the blank before the next word. */
  function SpanEnd(text: string, hi: nat): (r: int)
    requires hi < |Words(text)|
    ensures 0 <= Words(text)[hi] <= r <= |text|
  {
    var offs := Words(text);
    if hi + 1 == |offs| then
      WordsInside(text, hi);
      |text|
    else
      OffsetsIncrease(text, |text|, hi, hi + 1);
      offs[hi + 1] - 1
  }

  lemma WordsInside(text: string, k: nat)
    requires k < |Words(text)|
    ensures Words(text)[k] <= |text|
  {
    if k > 0 { OffsetsIncrease(text, |text|, 0, k); }
  }

  lemma WordsOrdered(text: string, i: nat, j: nat)
    requires i <= j < |Words(text)|
    ensures Words(text)[i] <= Words(text)[j]
  {
    if i < j { OffsetsIncrease(text, |text|, i, j); }
  }

  /** The stretch of text a placeholder stands for; None where a negative number leads outside the offsets. */
  function Meaning(mark: Mark, text: string): Option<string>
    requires mark.Word? ==> mark.arg < |Words(text)|
    requires mark.Span? ==> mark.lo <= mark.hi < |Words(text)|
  {
    match mark
    case Whole => Some(text)
    case Word(k) =>
      WordsInside(text, k);
      Some(text[Words(text)[k]..WordEnd(text, Words(text)[k])])
    case Span(lo, hi) =>
      if lo < 0 then None
      else
        WordsOrdered(text, lo, hi);
        var from, to := Words(text)[lo], SpanEnd(text, hi);
        Some(text[from..to])
    case Void => Some("")
  }

  lemma MarkFits(s: string, i: nat, args: nat)
    requires args >= 1
    ensures var m := MarkAt(s, i, args);
            (m.Word? ==> m.arg < args) && (m.Span? ==> m.lo <= m.hi < args)
  {
  }

  function Joined(a: string, b: Option<string>): Option<string> {
    if b.None? then None else Some(a + b.value)
  }

  /** The template from place i on, with every placeholder replaced. */
  function Expanded(s: string, i: nat, text: string): Option<string>
    decreases |s| - i
  {
    if i >= |s| then Some("")
    else if s[i] != '$' then Joined([s[i]], Expanded(s, i + 1, text))
    else
      MarkFits(s, i + 1, |Words(text)|);
      var part := Meaning(MarkAt(s, i + 1, |Words(text)|), text);
      if part.None? then None else Joined(part.value, Expanded(s, AfterMark(s, i + 1), text))
  }

  // ---------------------------------------------------------------- expansion in a growing buffer

  /** The stretch of text that a mark makes the copying loop copy; an empty one where it leaves the bounds alone. */
  ghost predicate Bounds(mark: Mark, text: string, off1: nat, off2: nat) {
    off1 <= off2 <= |text| &&
    (mark.Word? ==> mark.arg < |Words(text)|) && (mark.Span? ==> mark.lo <= mark.hi < |Words(text)|) &&
    Meaning(mark, text) == Some(text[off1..off2])
  }

  /** A new buffer with room for the stretch and one more, the old contents, and the stretch copied behind them. */
  method Grow(out: array<char>, outpos: nat, size: nat, text: string, off1: nat, off2: nat)
    returns (out': array<char>, outpos': nat, size': nat)
    requires outpos <= out.Length && outpos <= size && off1 <= off2 <= |text|
    ensures fresh(out') && size' == size + (off2 - off1) + 1 && out'.Length == size'
    ensures outpos' == outpos + (off2 - off1)
    ensures out'[..outpos'] == out[..outpos] + text[off1..off2]
  {
    size' := size + (off2 - off1) + 1;
    out' := new char[size'];
    for k := 0 to outpos
      invariant out'[..k] == out[..k]
    {
      out'[k] := out[k];
    }
    outpos' := outpos;
    var off := off1;
    while off < off2
      invariant off1 <= off <= off2 && outpos' == outpos + (off - off1)
      invariant out'[..outpos'] == out[..outpos] + text[off1..off]
    {
      assert text[off1..off + 1] == text[off1..off] + [text[off]];
      out'[outpos'] := text[off];
      outpos', off := outpos' + 1, off + 1;
    }
  }

  /** The bounds that the placeholder at inpos sets; ok is false where the original reads before its offsets. */
  method Locate(s: string, inpos: nat, text: string, offsets: seq<nat>, old1: nat)
    returns (ok: bool, off1: nat, off2: nat)
    requires offsets == Words(text) && old1 <= |text|
    ensures var mark := MarkAt(s, inpos, |offsets|);
            && (ok <==> !(mark.Span? && mark.lo < 0))
            && (ok ==> Bounds(mark, text, off1, off2))
  {
    MarkFits(s, inpos, |offsets|);
    ok, off1, off2 := true, old1, old1;
    match MarkAt(s, inpos, |offsets|)
    case Whole =>
      off1, off2 := offsets[0], |text|;
      assert text[off1..off2] == text;
    case Span(lo, hi) =>
      if lo < 0 { return false, 0, 0; }
      WordsOrdered(text, lo, hi);
      assert SpanEnd(text, hi) >= 0;
      off1 := offsets[lo];
      off2 := if hi + 1 == |offsets| then |text| else offsets[hi + 1] - 1;
      assert off2 == SpanEnd(text, hi);
    case Word(k) =>
      WordsInside(text, k);
      off1, off2 := offsets[k], offsets[k];
      while off2 < |text| && text[off2] != ' ' && text[off2] != '\t'
        invariant off1 <= off2 <= |text| && WordEnd(text, off1) == WordEnd(text, off2)
      {
        off2 := off2 + 1;
      }
    case Void =>
      assert text[off1..off2] == "";
  }

  /** Placeholders that say nothing usable are skipped before the buffer grows. */
  predicate Skipped(s: string, i: nat, args: nat) {
    MarkAt(s, i, args).Void? && i < |s| && (s[i] == '{' || IsDigit(s[i]))
  }

  /** Every write into the buffer, the closing one included, lands inside its current allocation. */
  method ReplaceArgs(s: string, offsets: seq<nat>, text: string) returns (r: Option<string>)
    requires offsets == Words(text)
    ensures r == Expanded(s, 0, text)
  {
    hide Meaning, MarkAt, Skipped;
    var out := new char[|s| + 1];
    var size: nat, inpos: nat, outpos: nat, off2: nat := |s|, 0, 0, 0;
    JoinedTwice([], [], Expanded(s, 0, text));
    while inpos < |s|
      invariant fresh(out) && size <= out.Length && off2 <= |text|
      invariant outpos <= size && (inpos < |s| ==> outpos + (|s| - inpos) <= size)
      invariant outpos + 1 <= out.Length && (inpos < |s| ==> outpos + (|s| - inpos) + 1 <= out.Length)
      invariant Joined(out[..outpos], Expanded(s, inpos, text)) == Expanded(s, 0, text)
      decreases |s| - inpos
    {
      if s[inpos] != '$' {
        JoinedTwice(out[..outpos], [s[inpos]], Expanded(s, inpos + 1, text));
        out[outpos] := s[inpos];
        inpos, outpos := inpos + 1, outpos + 1;
        assert out[..outpos] == out[..outpos - 1] + [s[inpos - 1]];
      } else {
        var ok, off1, end := Locate(s, inpos + 1, text, offsets, off2);
        MarkFits(s, inpos + 1, |offsets|);
        NoMeaning(MarkAt(s, inpos + 1, |offsets|), text);
        if !ok {
          return None;
        }
        JoinedTwice(out[..outpos], text[off1..end], Expanded(s, AfterMark(s, inpos + 1), text));
        if Skipped(s, inpos + 1, |offsets|) {
          VoidBounds(s, inpos + 1, text, off1, end);
          assert out[..outpos] + "" == out[..outpos];
        } else {
          off2 := end;
          out, outpos, size := Grow(out, outpos, size, text, off1, off2);
        }
        inpos := AfterMark(s, inpos + 1);
      }
    }
    assert out[..outpos] + "" == out[..outpos];
    out[outpos] := 0 as char;
    r := Some(out[..outpos]);
  }

  lemma NoMeaning(mark: Mark, text: string)
    requires (mark.Word? ==> mark.arg < |Words(text)|) && (mark.Span? ==> mark.lo <= mark.hi < |Words(text)|)
    ensures Meaning(mark, text).None? <==> mark.Span? && mark.lo < 0
  {
  }

  lemma VoidBounds(s: string, i: nat, text: string, off1: nat, off2: nat)
    requires Skipped(s, i, |Words(text)|) && Bounds(MarkAt(s, i, |Words(text)|), text, off1, off2)
    ensures text[off1..off2] == ""
  {
  }

  lemma JoinedTwice(a: string, b: string, c: Option<string>)
    ensures Joined(a, Joined(b, c)) == Joined(a + b, c)
    ensures a == [] ==> Joined(a, c) == c
  {
    if c.Some? { assert a + (b + c.value) == (a + b) + c.value; }
    if c.Some? && a == [] { assert a + c.value == c.value; }
  }

  // ---------------------------------------------------------------- when an expansion is defined

  /** The placeholders of a template, for a command line of so many words. */
  function Marks(s: string, i: nat, args: nat): seq<Mark>
    decreases |s| - i
  {
    if i >= |s| then []
    else if s[i] != '$' then Marks(s, i + 1, args)
    else [MarkAt(s, i + 1, args)] + Marks(s, AfterMark(s, i + 1), args)
  }

  /** An expansion stays inside the offsets exactly if no placeholder of the template starts at a negative word. */
  lemma {:induction false} DefinedExactly(s: string, i: nat, text: string)
    ensures Expanded(s, i, text).Some? <==>
            forall m :: m in Marks(s, i, |Words(text)|) && m.Span? ==> m.lo >= 0
    decreases |s| - i
  {
    hide Meaning, MarkAt;
    if i < |s| {
      if s[i] != '$' {
        DefinedExactly(s, i + 1, text);
      } else {
        var m := MarkAt(s, i + 1, |Words(text)|);
        MarkFits(s, i + 1, |Words(text)|);
        NoMeaning(m, text);
        DefinedExactly(s, AfterMark(s, i + 1), text);
        var rest := Marks(s, AfterMark(s, i + 1), |Words(text)|);
        assert forall x :: x in [m] + rest <==> x == m || x in rest;
      }
    }
  }

  // ---------------------------------------------------------------- the documented placeholders

  lemma {:induction false} DigitsEndIs(s: string, k: nat, e: nat)
    requires k <= e <= |s| && (forall j :: k <= j < e ==> IsDigit(s[j])) && (e < |s| ==> !IsDigit(s[e]))
    ensures DigitsEnd(s, k) == e
    decreases e - k
  {
    if k < e { DigitsEndIs(s, k + 1, e); }
  }

  function Signed(n: int, minus: bool): int {
    if minus then -n else n
  }

  /** A number as written in a template. */
  function Written(n: nat, minus: bool): string {
    (if minus then "-" else "") + Digits(n)
  }

  lemma ScanParts(s: string, i: nat, e: nat, minus: bool)
    requires i < e <= |s| && (if minus then s[i] == '-' else IsDigit(s[i]))
    requires var k := if minus then i + 1 else i; k < e && DigitsEnd(s, k) == e
    ensures var k := if minus then i + 1 else i; ScanInt(s, i) == Number(Signed(Value(s[k..e]), minus), e)
  {
    hide Value, DigitsEnd;
    assert SkipSpace(s, i) == i;
  }

  /** A number written in a template is read back, with its sign. */
  lemma NumberReads(s: string, i: nat, n: nat, e: nat, minus: bool)
    requires i <= e <= |s| && s[i..e] == Written(n, minus) && (e < |s| ==> !IsDigit(s[e]))
    ensures ScanInt(s, i) == Number(Signed(n, minus), e)
    ensures i < e && forall j :: i <= j < e ==> s[j] != '}'
  {
    DigitsDenote(n);
    var k := if minus then i + 1 else i;
    hide Value, Digits, ScanInt, Written;
    WrittenDigits(s, i, n, e, minus);
    forall j | k <= j < e ensures IsDigit(s[j]) { assert s[j] == Digits(n)[j - k]; }
    DigitsEndIs(s, k, e);
    ScanParts(s, i, e, minus);
  }

  lemma WrittenDigits(s: string, i: nat, n: nat, e: nat, minus: bool)
    requires i <= e <= |s| && s[i..e] == Written(n, minus)
    ensures var k := if minus then i + 1 else i;
            k <= e && s[k..e] == Digits(n) && (minus ==> s[i] == '-')
  {
    hide Digits;
    if minus { assert s[i] == s[i..e][0] && s[i + 1..e] == s[i..e][1..]; }
  }

  lemma {:induction false} CloseIs(s: string, i: nat, e: nat)
    requires i <= e < |s| && s[e] == '}' && forall j :: i <= j < e ==> s[j] != '}'
    ensures Close(s, i) == e
    decreases e - i
  {
    if i < e { CloseIs(s, i + 1, e); }
  }

  /** ${a-b}: words a to b. With a minus sign before a it leads before the offsets. */
  lemma RangeForm(s: string, i: nat, e: nat, f: nat, a: nat, b: nat, minus: bool, args: nat)
    requires i < e < f < |s| && args >= 1
    requires s[i] == '{' && s[i + 1..e] == Written(a, minus) && s[e] == '-'
    requires s[e + 1..f] == Written(b, false) && s[f] == '}'
    ensures MarkAt(s, i, args) == Clipped(Signed(a, minus), b, args) && AfterMark(s, i) == f + 1
  {
    hide Written, ScanInt, Clipped;
    NumberReads(s, i + 1, a, e, minus);
    NumberReads(s, e + 1, b, f, false);
    CloseIs(s, i, f);
  }

  /** ${n}: word n, and ${-n}: words 0 to n. */
  lemma SingleForm(s: string, i: nat, e: nat, n: nat, minus: bool, args: nat)
    requires i < e < |s| && args >= 1
    requires s[i] == '{' && s[i + 1..e] == Written(n, minus) && s[e] == '}'
    ensures MarkAt(s, i, args) == Clipped(if minus then 0 else n, n, args) && AfterMark(s, i) == e + 1
  {
    hide Written, ScanInt, Clipped;
    NumberReads(s, i + 1, n, e, minus);
    CloseIs(s, i, e);
  }

  /** ${n-}: words n to the last. */
  lemma OpenForm(s: string, i: nat, e: nat, n: nat, args: nat)
    requires i < e && e + 1 < |s| && args >= 1
    requires s[i] == '{' && s[i + 1..e] == Written(n, false) && s[e] == '-' && s[e + 1] == '}'
    ensures MarkAt(s, i, args) == Clipped(n, args - 1, args) && AfterMark(s, i) == e + 2
  {
    hide Written, Clipped, ScanInt;
    NumberReads(s, i + 1, n, e, false);
    NoNumber(s, e + 1);
    CloseIs(s, i, e + 1);
  }

  lemma NoNumber(s: string, i: nat)
    requires i < |s| && s[i] == '}'
    ensures ScanInt(s, i) == Nothing
  {
  }

  /** A template that no command line can expand. */
  lemma NegativeWord(text: string)
    ensures Expanded("${-1-0}", 0, text) == None
  {
    var s := "${-1-0}";
    assert s[2..4] == Written(1, true) && s[5..6] == Written(0, false);
    RangeForm(s, 1, 4, 6, 1, 0, true, |Words(text)|);
    assert MarkAt(s, 1, |Words(text)|) == Span(-1, 0);
  }

  // ---------------------------------------------------------------- laws of spans

  /** A span is its two halves with the blank between them. */
  lemma SpanSplits(text: string, lo: nat, mid: nat, hi: nat)
    requires lo <= mid < hi < |Words(text)|
    ensures Meaning(Span(lo, hi), text).value ==
            Meaning(Span(lo, mid), text).value + " " + Meaning(Span(mid + 1, hi), text).value
  {
    var offs := Words(text);
    OffsetsIncrease(text, |text|, mid, mid + 1);
    assert offs[mid + 1] in offs;
    OffsetsAre(text, |text|, offs[mid + 1]);
    WordsOrdered(text, lo, mid);
    WordsOrdered(text, mid + 1, hi);
    var a, b, c := offs[lo], SpanEnd(text, mid), SpanEnd(text, hi);
    assert b == offs[mid + 1] - 1 && text[b] == ' ';
    assert text[a..c] == text[a..b] + [text[b]] + text[b + 1..c];
  }

  /** All the words from the first are the whole text. */
  lemma AllWordsAreTheText(text: string)
    ensures Meaning(Clipped(0, |Words(text)| - 1, |Words(text)|), text) == Meaning(Whole, text)
  {
    var n := |Words(text)|;
    assert Clipped(0, n - 1, n) == Span(0, n - 1);
    assert Meaning(Span(0, n - 1), text) == Some(text[0..|text|]);
    assert text[0..|text|] == text;
  }

  /** $n is the first part of ${n}: without blanks or tabs, and followed by one or by the end of the text. */
  lemma WordBeginsItsSpan(text: string, k: nat)
    requires k < |Words(text)|
    ensures Meaning(Word(k), text).value <= Meaning(Span(k, k), text).value
  {
    var offs := Words(text);
    WordsInside(text, k);
    var from, to, end := offs[k], WordEnd(text, offs[k]), SpanEnd(text, k);
    if k + 1 < |offs| {
      OffsetsIncrease(text, |text|, k, k + 1);
      assert offs[k + 1] in offs;
      OffsetsAre(text, |text|, offs[k + 1]);
      assert text[end] == ' ';
      assert to <= end;
    }
    assert text[from..end][..to - from] == text[from..to];
  }
}
