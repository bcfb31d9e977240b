/** Alias templates as they are documented: written from pieces, and what each piece stands for in the line typed. */
module AliasTemplates {
  import opened Common
  import opened Decimal
  import opened AliasExpansion

  datatype Piece =
    | Plain(chars: string)        // text without a dollar sign
    | All                         // $*
    | Arg(digit: nat)             // $0 to $9
    | Only(n: nat)                // ${n}
    | UpTo(n: nat)                // ${-n}
    | From(n: nat)                // ${n-}
    | Range(lo: nat, hi: nat)     // ${lo-hi}
    | Before(lo: nat, hi: nat)    // ${-lo-hi}
    | Stray(c: char)              // a dollar sign before any other character

  predicate Proper(p: Piece) {
    match p
    case Plain(chars) => '$' !in chars
    case Arg(digit) => digit < 10
    case Before(lo, hi) => lo > 0
    case Stray(c) => c != '*' && c != '{' && !IsDigit(c)
    case _ => true
  }

  function Spelled(p: Piece): string
    requires Proper(p)
  {
    match p
    case Plain(chars) => chars
    case All => "$*"
    case Arg(digit) => "$" + [DigitChar(digit)]
    case Only(n) => "${" + Digits(n) + "}"
    case UpTo(n) => "${" + ("-" + Digits(n)) + "}"
    case From(n) => "${" + Digits(n) + "-}"
    case Range(lo, hi) => "${" + Digits(lo) + "-" + Digits(hi) + "}"
    case Before(lo, hi) => "${" + ("-" + Digits(lo)) + "-" + Digits(hi) + "}"
    case Stray(c) => "$" + [c]
  }

  /** The words lo to hi, as far as there are any, with what is typed between them. */
  function Between(text: string, lo: nat, hi: nat): string {
    var offs := Words(text);
    var last := if hi < |offs| then hi else |offs| - 1;
    if lo > last then ""
    else
      WordsOrdered(text, lo, last);
      WordsInside(text, last);
      if last + 1 == |offs| then text[offs[lo]..]
      else
        OffsetsIncrease(text, |text|, last, last + 1);
        text[offs[lo]..offs[last + 1] - 1]
  }

  /** What a piece stands for; None where a word before the first is named. */
  function Stands(p: Piece, text: string): Option<string> {
    match p
    case Plain(chars) => Some(chars)
    case All => Some(text)
    case Arg(digit) =>
      if digit < |Words(text)| then
        WordsInside(text, digit);
        Some(text[Words(text)[digit]..WordEnd(text, Words(text)[digit])])
      else Some("")
    case Only(n) => Some(Between(text, n, n))
    case UpTo(n) => Some(Between(text, 0, n))
    case From(n) => Some(Between(text, n, |Words(text)| - 1))
    case Range(lo, hi) => Some(Between(text, lo, hi))
    case Before(_, _) => None
    case Stray(_) => Some("")
  }

  // ---------------------------------------------------------------- an expansion looks only ahead

  lemma {:induction false} SkipAhead(a: string, s: string, i: nat)
    requires i <= |s|
    ensures SkipSpace(a + s, |a| + i) == |a| + SkipSpace(s, i)
    decreases |s| - i
  {
    if i < |s| { SkipAhead(a, s, i + 1); }
  }

  lemma {:induction false} DigitsAhead(a: string, s: string, i: nat)
    requires i <= |s|
    ensures DigitsEnd(a + s, |a| + i) == |a| + DigitsEnd(s, i)
    decreases |s| - i
  {
    if i < |s| { DigitsAhead(a, s, i + 1); }
  }

  lemma {:induction false} CloseAhead(a: string, s: string, i: nat)
    requires i <= |s|
    ensures Close(a + s, |a| + i) == |a| + Close(s, i)
    decreases |s| - i
  {
    if i < |s| { CloseAhead(a, s, i + 1); }
  }

  function Shifted(r: Scanned, n: nat): Scanned {
    if r.Number? then Number(r.value, r.next + n) else Nothing
  }

  lemma ScanAhead(a: string, s: string, i: nat)
    requires i <= |s|
    ensures ScanInt(a + s, |a| + i) == Shifted(ScanInt(s, i), |a|)
  {
    hide Value, DigitsEnd, SkipSpace;
    SkipAhead(a, s, i);
    var j := SkipSpace(s, i);
    var k := if j < |s| && s[j] in {'+', '-'} then j + 1 else j;
    DigitsAhead(a, s, k);
    assert (a + s)[|a| + k..|a| + DigitsEnd(s, k)] == s[k..DigitsEnd(s, k)];
  }

  lemma MarkAhead(a: string, s: string, i: nat, args: nat)
    ensures MarkAt(a + s, |a| + i, args) == MarkAt(s, i, args)
    ensures AfterMark(a + s, |a| + i) == |a| + AfterMark(s, i)
  {
    hide ScanInt, Clipped, Close;
    if i < |s| && s[i] == '{' {
      CloseAhead(a, s, i);
      ScanAhead(a, s, i + 1);
      var n := ScanInt(s, i + 1);
      if n.Number? && n.next < |s| { ScanAhead(a, s, n.next + 1); }
    }
  }

  lemma {:induction false} ExpandedAhead(a: string, s: string, i: nat, text: string)
    ensures Expanded(a + s, |a| + i, text) == Expanded(s, i, text)
    decreases |s| - i
  {
    hide MarkAt, Meaning, AfterMark, Words, Joined;
    if i < |s| {
      if s[i] != '$' {
        ExpandedAhead(a, s, i + 1, text);
      } else {
        MarkAhead(a, s, i + 1, |Words(text)|);
        ExpandedAhead(a, s, AfterMark(s, i + 1), text);
      }
    }
  }

  // ---------------------------------------------------------------- what the pieces stand for

  lemma {:induction false} PlainStays(chars: string, rest: string, text: string)
    requires '$' !in chars
    ensures Expanded(chars + rest, 0, text) == Joined(chars, Expanded(rest, 0, text))
    decreases |chars|
  {
    hide MarkAt, Meaning, AfterMark, Words;
    if chars == "" {
      assert chars + rest == rest;
      JoinedTwice("", "", Expanded(rest, 0, text));
    } else {
      var s := chars + rest;
      assert s == chars[..1] + (chars[1..] + rest);
      ExpandedAhead(chars[..1], chars[1..] + rest, 0, text);
      PlainStays(chars[1..], rest, text);
      JoinedTwice(chars[..1], chars[1..], Expanded(rest, 0, text));
      assert chars[..1] + chars[1..] == chars && chars[..1] == [s[0]];
    }
  }

  /** A placeholder that ends where its mark does stands for what the mark means. */
  lemma MarkStands(w: string, rest: string, text: string, mark: Mark)
    requires |w| >= 1 && w[0] == '$' && mark == MarkAt(w + rest, 1, |Words(text)|) && AfterMark(w + rest, 1) == |w|
    requires (mark.Word? ==> mark.arg < |Words(text)|) && (mark.Span? ==> mark.lo <= mark.hi < |Words(text)|)
    ensures var part := Meaning(mark, text);
            Expanded(w + rest, 0, text) == if part.None? then None else Joined(part.value, Expanded(rest, 0, text))
  {
    hide MarkAt, Meaning, AfterMark, Words;
    assert (w + rest)[0] == '$';
    ExpandedAhead(w, rest, 0, text);
  }

  /** A stretch from word lo on, cut at the last word, is what is typed from word lo to word hi. */
  lemma ClippedStands(lo: nat, hi: nat, text: string)
    ensures var m := Clipped(lo, hi, |Words(text)|);
            && (m.Span? ==> m.lo <= m.hi < |Words(text)|) && !m.Word?
            && Meaning(m, text) == Some(Between(text, lo, hi))
  {
    var n := |Words(text)|;
    var last := if hi < n then hi else n - 1;
    if lo <= last {
      assert Clipped(lo, hi, n) == Span(lo, last);
      WordsOrdered(text, lo, last);
      WordsInside(text, last);
      assert Words(text)[lo] <= SpanEnd(text, last);
      if last + 1 == n { assert text[Words(text)[lo]..] == text[Words(text)[lo]..|text|]; }
    }
  }

  lemma NumberStands(p: Piece, rest: string, text: string)
    requires p.Only? || p.UpTo? || p.From?
    ensures var part := Stands(p, text);
            Expanded(Spelled(p) + rest, 0, text) ==
            if part.None? then None else Joined(part.value, Expanded(rest, 0, text))
  {
    var args, w := |Words(text)|, Spelled(p);
    assert args >= 1;
    hide Expanded, MarkAt, AfterMark, Clipped, Between, Words, Digits, Meaning;
    var s := w + rest;
    match p
    case Only(n) =>
      SignWritten(n);
      BracedNumber(s, Digits(n), n, false, args);
      ClippedStands(n, n, text);
      MarkStands(w, rest, text, Clipped(n, n, args));
    case UpTo(n) =>
      SignWritten(n);
      BracedNumber(s, "-" + Digits(n), n, true, args);
      ClippedStands(0, n, text);
      MarkStands(w, rest, text, Clipped(0, n, args));
    case From(n) =>
      SignWritten(n);
      BracedFrom(s, Digits(n), n, args);
      ClippedStands(n, args - 1, text);
      MarkStands(w, rest, text, Clipped(n, args - 1, args));
  }

  lemma RangeStands(lo: nat, minus: bool, hi: nat, rest: string, text: string)
    requires minus ==> lo > 0
    ensures var p := if minus then Before(lo, hi) else Range(lo, hi);
            Expanded(Spelled(p) + rest, 0, text) ==
            if minus then None else Joined(Between(text, lo, hi), Expanded(rest, 0, text))
  {
    SignWritten(lo);
    SignWritten(hi);
    var args, a, b := |Words(text)|, Written(lo, minus), Written(hi, false);
    var w := "${" + a + "-" + b + "}";
    assert args >= 1 && w == Spelled(if minus then Before(lo, hi) else Range(lo, hi));
    hide Expanded, MarkAt, AfterMark, Clipped, Between, Words, Written, Meaning, Spelled;
    BracedRange(w + rest, a, lo, minus, b, hi, args);
    if minus { NegativeSpan(Signed(lo, minus), hi, args, text); } else { ClippedStands(lo, hi, text); }
    MarkStands(w, rest, text, Clipped(Signed(lo, minus), hi, args));
  }

  /** The first piece of a template is replaced by what it stands for, whatever comes behind it. */
  lemma PieceStands(p: Piece, rest: string, text: string)
    requires Proper(p)
    ensures var part := Stands(p, text);
            Expanded(Spelled(p) + rest, 0, text) ==
            if part.None? then None else Joined(part.value, Expanded(rest, 0, text))
  {
    var args, w := |Words(text)|, Spelled(p);
    assert args >= 1;
    hide Expanded, MarkAt, AfterMark, Clipped, Between, Words, Digits, Meaning;
    var s := w + rest;
    match p
    case Plain(chars) => PlainStays(chars, rest, text);
    case All => OneChar(s, '*', args); MarkStands(w, rest, text, Whole); WholeMeans(text);
    case Arg(digit) =>
      OneChar(s, DigitChar(digit), args);
      if digit < args { MarkStands(w, rest, text, Word(digit)); WordMeans(text, digit); }
      else { MarkStands(w, rest, text, Void); WholeMeans(text); }
    case Stray(c) => OneChar(s, c, args); MarkStands(w, rest, text, Void); WholeMeans(text);
    case Only(_) => NumberStands(p, rest, text);
    case UpTo(_) => NumberStands(p, rest, text);
    case From(_) => NumberStands(p, rest, text);
    case Range(lo, hi) => RangeStands(lo, false, hi, rest, text);
    case Before(lo, hi) => RangeStands(lo, true, hi, rest, text);
  }

  /** $n is the n-th word, up to the first blank or tab behind its start. */
  lemma DigitStands(a: string, digit: nat, b: string, text: string, end: nat)
    requires '$' !in a && digit < 10 && digit < |Words(text)| && Words(text)[digit] <= end <= |text|
    requires forall k :: Words(text)[digit] <= k < end ==> text[k] != ' ' && text[k] != '\t'
    requires end < |text| ==> text[end] == ' ' || text[end] == '\t'
    ensures Expanded(a + "$" + [DigitChar(digit)] + b, 0, text) ==
            Joined(a + text[Words(text)[digit]..end], Expanded(b, 0, text))
  {
    assert a + "$" + [DigitChar(digit)] + b == a + (Spelled(Arg(digit)) + b);
    PlainStays(a, Spelled(Arg(digit)) + b, text);
    PieceStands(Arg(digit), b, text);
    assert WordEnd(text, Words(text)[digit]) == end;
    JoinedTwice(a, text[Words(text)[digit]..end], Expanded(b, 0, text));
    hide Expanded, Words;
  }

  lemma OneChar(s: string, c: char, args: nat)
    requires |s| >= 2 && s[1] == c && c != '{' && args >= 1
    ensures AfterMark(s, 1) == 2
    ensures MarkAt(s, 1, args) ==
            if c == '*' then Whole else if IsDigit(c) && DigitValue(c) < args then Word(DigitValue(c)) else Void
  {
  }

  lemma WholeMeans(text: string)
    ensures Meaning(Whole, text) == Some(text) && Meaning(Void, text) == Some("")
  {
  }

  lemma WordMeans(text: string, k: nat)
    requires k < |Words(text)|
    ensures Meaning(Word(k), text) == Stands(Arg(k), text)
  {
  }

  lemma NegativeSpan(lo: int, hi: nat, args: nat, text: string)
    requires lo < 0 && args == |Words(text)|
    ensures var m := Clipped(lo, hi, args);
            m.Span? && m.lo <= m.hi < args && Meaning(m, text) == None
  {
    hide Words;
  }

  lemma Inside(a: string, d: string, b: string, s: string)
    requires a + d + b <= s
    ensures a <= s && |a| + |d| <= |s| && s[|a|..|a| + |d|] == d
    ensures b != "" ==> |a| + |d| < |s| && s[|a| + |d|] == b[0]
  {
    var w := a + d + b;
    assert s[..|w|] == w && s[|a|..|a| + |d|] == w[|a|..|a| + |d|];
    if b != "" { assert s[|a| + |d|] == w[|a| + |d|]; }
  }

  lemma BracedNumber(s: string, d: string, n: nat, minus: bool, args: nat)
    requires args >= 1 && d == Written(n, minus) && "${" + d + "}" <= s
    ensures MarkAt(s, 1, args) == Clipped(if minus then 0 else n, n, args) && AfterMark(s, 1) == |d| + 3
  {
    hide Written, MarkAt, AfterMark, Clipped;
    Inside("${", d, "}", s);
    SingleForm(s, 1, 2 + |d|, n, minus, args);
  }

  lemma BracedFrom(s: string, d: string, n: nat, args: nat)
    requires args >= 1 && d == Written(n, false) && "${" + d + "-}" <= s
    ensures MarkAt(s, 1, args) == Clipped(n, args - 1, args) && AfterMark(s, 1) == |d| + 4
  {
    hide Written, MarkAt, AfterMark, Clipped;
    Inside("${", d, "-}", s);
    assert "${" + d + "-}" == "${" + d + "-" + "}";
    Inside("${", d + "-", "}", s);
    OpenForm(s, 1, 2 + |d|, n, args);
  }

  lemma BracedRange(s: string, a: string, lo: nat, minus: bool, b: string, hi: nat, args: nat)
    requires args >= 1 && a == Written(lo, minus) && b == Written(hi, false) && "${" + a + "-" + b + "}" <= s
    ensures MarkAt(s, 1, args) == Clipped(Signed(lo, minus), hi, args) && AfterMark(s, 1) == |a| + |b| + 4
  {
    hide Written, MarkAt, AfterMark, Clipped;
    assert "${" + a + "-" + b + "}" == "${" + a + ("-" + b + "}");
    Inside("${", a, "-" + b + "}", s);
    assert "${" + a + "-" + b + "}" == ("${" + a + "-") + b + "}";
    Inside("${" + a + "-", b, "}", s);
    RangeForm(s, 1, 2 + |a|, 3 + |a| + |b|, lo, hi, minus, args);
  }

  /** How a number is written with and without its sign. */
  lemma SignWritten(n: nat)
    ensures Written(n, false) == Digits(n) && Written(n, true) == "-" + Digits(n)
  {
  }

  // ---------------------------------------------------------------- whole templates

  predicate AllProper(pieces: seq<Piece>) {
    forall i :: 0 <= i < |pieces| ==> Proper(pieces[i])
  }

  function SpelledAll(pieces: seq<Piece>): string
    requires AllProper(pieces)
  {
    if pieces == [] then "" else Spelled(pieces[0]) + SpelledAll(pieces[1..])
  }

  function StandsAll(pieces: seq<Piece>, text: string): Option<string> {
    if pieces == [] then Some("")
    else
      var part := Stands(pieces[0], text);
      if part.None? then None else Joined(part.value, StandsAll(pieces[1..], text))
  }

  /** A template is expanded piece by piece. */
  lemma {:induction false} TemplateStands(pieces: seq<Piece>, text: string)
    requires AllProper(pieces)
    ensures Expanded(SpelledAll(pieces), 0, text) == StandsAll(pieces, text)
  {
    hide Spelled, Stands, Proper;
    if pieces != [] {
      PieceStands(pieces[0], SpelledAll(pieces[1..]), text);
      TemplateStands(pieces[1..], text);
    }
  }
}
