/**
 The flat file of one account: a line "key"="value" for every attribute that has a value, with C escapes. Text is
 bytes, and a C string holds no NUL.
 */
module FlatFile {
  import opened Common
  import opened AttrView

  type Pair = (string, string)

  const QUOTE := '\"'
  const BACKSLASH := '\\'

  predicate CString(s: string) {
    forall i :: 0 <= i < |s| ==> 0 < s[i] as int < 256
  }

  /** isprint in the C locale. */
  predicate Printable(c: char) {
    ' ' <= c <= '~'
  }

  // ---------------------------------------------------------------- escapes

  /** The letter that stands for a control character, and the character a letter stands for. */
  function Letter(c: char): Option<char> {
    match c as int
    case 7 => Some('a')
    case 8 => Some('b')
    case 9 => Some('t')
    case 10 => Some('n')
    case 11 => Some('v')
    case 12 => Some('f')
    case 13 => Some('r')
    case _ => None
  }

  function Meaning(c: char): Option<char> {
    match c
    case '\\' => Some(BACKSLASH)
    case '\"' => Some(QUOTE)
    case 'a' => Some(7 as char)
    case 'b' => Some(8 as char)
    case 't' => Some(9 as char)
    case 'n' => Some(10 as char)
    case 'v' => Some(11 as char)
    case 'f' => Some(12 as char)
    case 'r' => Some(13 as char)
    case _ => None
  }

  function OctalDigit(d: nat): char
    requires d < 8
  {
    '0' + d as char
  }

  function EscapeChar(c: char): string
    requires c as int < 256
  {
    if c == BACKSLASH || c == QUOTE then [BACKSLASH, c]
    else if Printable(c) then [c]
    else if Letter(c).Some? then [BACKSLASH, Letter(c).value]
    else
      var n: nat := c as int;
      [BACKSLASH, OctalDigit(n / 64), OctalDigit(n / 8 % 8), OctalDigit(n % 8)]
  }

  function Escape(s: string): (r: string)
    requires CString(s)
    ensures |s| <= |r| <= 4 * |s|
  {
    if s == [] then [] else EscapeChar(s[0]) + Escape(s[1..])
  }

  predicate IsOctal(c: char) {
    '0' <= c <= '7'
  }

  /** How many octal digits s begins with, up to the given number. */
  function OctalRun(s: string, most: nat): (r: nat)
    ensures r <= |s| && r <= most
    ensures forall i :: 0 <= i < r ==> IsOctal(s[i])
  {
    if most == 0 || s == [] || !IsOctal(s[0]) then 0 else 1 + OctalRun(s[1..], most - 1)
  }

  function OctalNum(c: char): nat
    requires IsOctal(c)
  {
    c as int - '0' as int
  }

  function OctalValue(s: string): nat
    requires forall i :: 0 <= i < |s| ==> IsOctal(s[i])
  {
    if s == [] then 0 else OctalValue(s[..|s| - 1]) * 8 + OctalNum(s[|s| - 1])
  }

  /** What the digits of an octal escape yield; a bad escape is left as it stands. */
  function OctalText(digits: string): (r: string)
    requires |digits| <= 3 && forall i :: 0 <= i < |digits| ==> IsOctal(digits[i])
    ensures |r| <= |digits| + 1
  {
    var num := OctalValue(digits);
    if |digits| < 3 || num < 1 || num > 255 then [BACKSLASH] + digits else [num as char]
  }

  /** The first character, and how many places it took. */
  function Piece(s: string): (r: (string, nat))
    requires s != []
    ensures |r.0| <= r.1 && 1 <= r.1 <= |s|
  {
    if s[0] != BACKSLASH then ([s[0]], 1)
    else if |s| > 1 && Meaning(s[1]).Some? then ([Meaning(s[1]).value], 2)
    else
      var i := OctalRun(s[1..], 3);
      (OctalText(s[1..][..i]), 1 + i)
  }

  function Unescape(s: string): (r: string)
    ensures |r| <= |s|
    decreases |s|
  {
    if s == [] then [] else Piece(s).0 + Unescape(s[Piece(s).1..])
  }

  method EscapeChars(s: string) returns (out: string)
    requires CString(s)
    ensures out == Escape(s)
  {
    out := [];
    var pos := 0;
    while pos < |s|
      invariant pos <= |s| && Escape(s) == out + Escape(s[pos..])
    {
      assert s[pos..][1..] == s[pos + 1..];
      out := out + EscapeChar(s[pos]);
      pos := pos + 1;
    }
  }

  method UnescapeChars(s: string) returns (out: string)
    ensures out == Unescape(s)
  {
    hide Piece;
    out := [];
    var pos := 0;
    assert s[0..] == s;
    while pos < |s|
      invariant pos <= |s| && Unescape(s) == out + Unescape(s[pos..])
    {
      var piece, next := NextPiece(s, pos);
      assert s[pos..][next - pos..] == s[next..];
      out := out + piece;
      pos := next;
    }
  }

  method NextPiece(s: string, pos: nat) returns (piece: string, next: nat)
    requires pos < |s|
    ensures pos < next <= |s| && Piece(s[pos..]) == (piece, next - pos)
  {
    hide Meaning, OctalText, OctalRun;
    assert s[pos..][1..] == s[pos + 1..];
    if s[pos] != BACKSLASH {
      piece, next := [s[pos]], pos + 1;
    } else if pos + 1 < |s| && Meaning(s[pos + 1]).Some? {
      piece, next := [Meaning(s[pos + 1]).value], pos + 2;
    } else {
      var i := OctalDigits(s[pos + 1..]);
      piece, next := OctalText(s[pos + 1..][..i]), pos + 1 + i;
    }
  }

  method OctalDigits(s: string) returns (i: nat)
    ensures i == OctalRun(s, 3)
  {
    i := 0;
    assert s[0..] == s;
    while i < 3 && i < |s| && IsOctal(s[i])
      invariant i <= 3 && i <= |s| && OctalRun(s, 3) == i + OctalRun(s[i..], 3 - i)
    {
      assert s[i..][1..] == s[i + 1..];
      i := i + 1;
    }
  }

  // ---------------------------------------------------------------- what escapes keep

  /** Escaped text is printable, and holds a quote only where the text does. */
  lemma EscapedChar(c: char)
    requires 0 < c as int < 256
    ensures forall i :: 0 <= i < |EscapeChar(c)| ==> Printable(EscapeChar(c)[i])
    ensures c != QUOTE ==> QUOTE !in EscapeChar(c)
    ensures EscapeChar(c)[0] == BACKSLASH || EscapeChar(c) == [c]
    ensures |EscapeChar(c)| > 1 ==> EscapeChar(c)[0] == BACKSLASH && !('A' <= EscapeChar(c)[1] <= 'Z')
  {
  }

  lemma OctalBack(n: nat)
    requires n < 512
    ensures var d := [OctalDigit(n / 64), OctalDigit(n / 8 % 8), OctalDigit(n % 8)];
            OctalRun(d, 3) == 3 && OctalValue(d) == n
  {
    var d := [OctalDigit(n / 64), OctalDigit(n / 8 % 8), OctalDigit(n % 8)];
    ThreeDigitsAre(d);
    hide OctalValue, OctalDigit;
    assert d[1..] == [d[1], d[2]] && d[1..][1..] == [d[2]] && d[1..][1..][1..] == [];
    assert OctalRun([d[2]], 1) == 1;
    assert OctalRun([d[1], d[2]], 2) == 2;
    Positional(n);
  }

  lemma Positional(n: nat)
    requires n < 512
    ensures n / 64 < 8 && OctalNum(OctalDigit(n / 64)) == n / 64 && OctalNum(OctalDigit(n / 8 % 8)) == n / 8 % 8
    ensures OctalNum(OctalDigit(n % 8)) == n % 8 && n / 64 * 64 + n / 8 % 8 * 8 + n % 8 == n
  {
  }

  lemma RunExtends(d: string, t: string)
    requires |d| == 3 && OctalRun(d, 3) == 3
    ensures OctalRun(d + t, 3) == 3
  {
    var s := d + t;
    assert s[1..][1..][1..] == t;
    assert IsOctal(d[0]) && IsOctal(d[1]) && IsOctal(d[2]);
    assert OctalRun(s[1..][1..], 1) == 1;
    assert OctalRun(s[1..], 2) == 2;
  }

  /** The escape of a character is a piece of its own, whatever follows. */
  lemma PieceOf(c: char, t: string)
    requires 0 < c as int < 256
    ensures Piece(EscapeChar(c) + t) == ([c], |EscapeChar(c)|)
  {
    if c == BACKSLASH || c == QUOTE || Printable(c) || Letter(c).Some? {
    } else {
      OctalPiece(c, t);
    }
  }

  lemma OctalPiece(c: char, t: string)
    requires 0 < c as int < 256 && !Printable(c) && Letter(c).None?
    ensures Piece(EscapeChar(c) + t) == ([c], 4)
  {
    var n: nat := c as int;
    var d := [OctalDigit(n / 64), OctalDigit(n / 8 % 8), OctalDigit(n % 8)];
    OctalBack(n);
    RunExtends(d, t);
    var s := EscapeChar(c) + t;
    assert s[1..] == d + t && (d + t)[..3] == d;
    hide OctalDigit, OctalValue, OctalRun, EscapeChar;
    assert s[1] == d[0] && IsOctal(d[0]);
  }

  lemma UnescapeStep(c: char, t: string)
    requires 0 < c as int < 256
    ensures Unescape(EscapeChar(c) + t) == [c] + Unescape(t)
  {
    PieceOf(c, t);
    hide EscapeChar, Piece;
    assert (EscapeChar(c) + t)[|EscapeChar(c)|..] == t;
  }

  /** Unescaping what was escaped yields the text, for every C string. */
  lemma {:induction false} EscapeRoundTrip(s: string)
    requires CString(s)
    ensures Unescape(Escape(s)) == s
  {
    if s != [] {
      UnescapeStep(s[0], Escape(s[1..]));
      EscapeRoundTrip(s[1..]);
    }
  }

  /** Which characters keep their form, which have a letter of their own, and that the others take three digits. */
  lemma EscapeForms(c: char)
    requires 0 < c as int < 256
    ensures EscapeChar(c) == [c] <==> ' ' <= c <= '~' && c != '\\' && c != '\"'
    ensures |EscapeChar(c)| == 2 <==> c == '\\' || c == '\"' || 7 <= c as int <= 13
    ensures |EscapeChar(c)| <= 2 || |EscapeChar(c)| == 4
    ensures EscapeChar('\n') == "\\n" && EscapeChar('\r') == "\\r" && EscapeChar('\t') == "\\t"
    ensures EscapeChar(7 as char) == "\\a" && EscapeChar(8 as char) == "\\b"
    ensures EscapeChar(11 as char) == "\\v" && EscapeChar(12 as char) == "\\f"
  {
  }

  /** A backslash that begins no escape stays, whatever follows it. */
  lemma BadEscapeStays(s: string)
    requires |s| > 0 && s[0] == '\\'
    requires |s| > 1 ==> s[1] !in {'\\', '\"', 'a', 'b', 't', 'n', 'v', 'f', 'r'}
    requires |s| > 3 && IsOctal(s[1]) && IsOctal(s[2]) && IsOctal(s[3]) ==> !(1 <= ThreeDigits(s) <= 255)
    ensures Unescape(s) == "\\" + Unescape(s[1..])
  {
    var i := OctalRun(s[1..], 3);
    hide *;
    BadPiece(s, i);
    var digits, rest := s[1..][..i], s[1..][i..];
    Cut(s, i);
    KeepDigits(digits, rest);
  }

  lemma Cut(s: string, i: nat)
    requires i < |s|
    ensures s[1..] == s[1..][..i] + s[1..][i..] && s == [s[0]] + s[1..][..i] + s[1..][i..]
  {
  }

  lemma KeepDigits(digits: string, rest: string)
    requires forall k :: 0 <= k < |digits| ==> IsOctal(digits[k])
    requires Piece([BACKSLASH] + digits + rest) == ([BACKSLASH] + digits, 1 + |digits|)
    ensures Unescape([BACKSLASH] + digits + rest) == [BACKSLASH] + Unescape(digits + rest)
  {
    DigitsStay(digits, rest);
    hide Piece, IsOctal, Unescape;
    var s := [BACKSLASH] + digits + rest;
    UnfoldPiece(s);
    assert s[1 + |digits|..] == rest;
    Reassociate([BACKSLASH], digits, Unescape(rest));
  }

  lemma Reassociate(a: string, b: string, c: string)
    ensures (a + b) + c == a + (b + c)
  {
  }

  lemma UnfoldPiece(s: string)
    requires s != []
    ensures Unescape(s) == Piece(s).0 + Unescape(s[Piece(s).1..])
  {
  }

  lemma BadPiece(s: string, i: nat)
    requires |s| > 0 && s[0] == '\\' && i == OctalRun(s[1..], 3)
    requires |s| > 1 ==> s[1] !in {'\\', '\"', 'a', 'b', 't', 'n', 'v', 'f', 'r'}
    requires |s| > 3 && IsOctal(s[1]) && IsOctal(s[2]) && IsOctal(s[3]) ==> !(1 <= ThreeDigits(s) <= 255)
    ensures i < |s| && Piece(s) == ("\\" + s[1..][..i], 1 + i)
  {
    var digits := s[1..][..i];
    if i == 3 {
      assert digits[0] == s[1] && digits[1] == s[2] && digits[2] == s[3];
      ThreeDigitsAre(digits);
    }
    hide OctalRun, OctalValue, IsOctal;
    assert OctalText(digits) == "\\" + digits;
  }

  function ThreeDigits(s: string): nat
    requires |s| > 3 && IsOctal(s[1]) && IsOctal(s[2]) && IsOctal(s[3])
  {
    OctalNum(s[1]) * 64 + OctalNum(s[2]) * 8 + OctalNum(s[3])
  }

  lemma ThreeDigitsAre(d: string)
    requires |d| == 3 && IsOctal(d[0]) && IsOctal(d[1]) && IsOctal(d[2])
    ensures OctalValue(d) == OctalNum(d[0]) * 64 + OctalNum(d[1]) * 8 + OctalNum(d[2])
  {
    assert d[..2] == [d[0], d[1]] && d[..2][..1] == [d[0]] && d[..2][..1][..0] == [];
    assert OctalValue([d[0]]) == OctalNum(d[0]);
    assert OctalValue(d[..2]) == OctalNum(d[0]) * 8 + OctalNum(d[1]);
  }

  lemma {:induction false} DigitsStay(digits: string, rest: string)
    requires forall i :: 0 <= i < |digits| ==> IsOctal(digits[i])
    ensures Unescape(digits + rest) == digits + Unescape(rest)
  {
    if digits == [] {
      assert digits + rest == rest;
    } else {
      assert digits[0] != BACKSLASH;
      hide Unescape, IsOctal;
      UnescapePlain(digits[0], digits[1..] + rest);
      assert digits + rest == [digits[0]] + (digits[1..] + rest);
      DigitsStay(digits[1..], rest);
      Reassociate([digits[0]], digits[1..], Unescape(rest));
      assert [digits[0]] + digits[1..] == digits;
    }
  }

  lemma UnescapePlain(c: char, t: string)
    requires c != BACKSLASH
    ensures Unescape([c] + t) == [c] + Unescape(t)
  {
    assert Piece([c] + t) == ([c], 1) && ([c] + t)[1..] == t;
    hide Piece;
  }

  // ---------------------------------------------------------------- one line

  function Line(p: Pair): string
    requires CString(p.0) && CString(p.1)
  {
    [QUOTE] + Escape(p.0) + [QUOTE, '=', QUOTE] + Escape(p.1) + [QUOTE]
  }

  /** Place of the first quote, or |s|. */
  function FirstQuote(s: string): (r: nat)
    ensures r <= |s|
  {
    if s == [] || s[0] == QUOTE then 0 else 1 + FirstQuote(s[1..])
  }

  predicate IsSpace(c: char) {
    c == ' ' || 9 <= c as int <= 13
  }

  function SkipSpace(s: string): (r: string)
    ensures |r| <= |s|
  {
    if s == [] || !IsSpace(s[0]) then s else SkipSpace(s[1..])
  }

  /** The value that the scan takes after the key: empty unless a quote, an equals sign and a quote come next. */
  function Value(rest: string): string {
    if rest == [] || rest[0] != QUOTE then []
    else
      var a := SkipSpace(rest[1..]);
      if a == [] || a[0] != '=' then []
      else
        var b := SkipSpace(a[1..]);
        if b == [] || b[0] != QUOTE then [] else b[1..][..FirstQuote(b[1..])]
  }

  /** What a line yields: nothing, or a key with a value. */
  function Entry(line: string): Option<Pair> {
    if |line| < 6 || line[0] != QUOTE then None
    else
      var body := line[1..];
      var m := FirstQuote(body);
      if m == 0 then None else Some((Unescape(body[..m]), Unescape(Value(body[m..]))))
  }

  /** A text as the scan gets it back: up to the first quote, with the backslash of that quote's escape. */
  function UpToQuote(s: string): string {
    if s == [] then [] else if s[0] == QUOTE then [BACKSLASH] else [s[0]] + UpToQuote(s[1..])
  }

  lemma {:induction false} IntactExactly(s: string)
    ensures UpToQuote(s) == s <==> QUOTE !in s
  {
    if s != [] && s[0] != QUOTE { IntactExactly(s[1..]); }
  }

  lemma {:induction false} ScanEscaped(s: string, t: string)
    requires CString(s)
    ensures var e := Escape(s) + [QUOTE] + t; var m := FirstQuote(e);
            && Unescape(e[..m]) == UpToQuote(s) && (m == 0 <==> s == [])
            && (QUOTE !in s ==> m == |Escape(s)|)
  {
    if s == [] {
      assert Escape(s) + [QUOTE] + t == [QUOTE] + t;
    } else {
      EscapeFirst(s);
      var c, rest := EscapeChar(s[0]), Escape(s[1..]) + [QUOTE] + t;
      if s[0] == QUOTE {
        ScanQuote(rest);
      } else {
        ScanEscaped(s[1..], t);
        ScanOn(s[0], rest);
      }
      hide EscapeChar, Escape, FirstQuote, Unescape, CString;
      assert Escape(s) + [QUOTE] + t == c + rest;
    }
  }

  lemma EscapeFirst(s: string)
    requires CString(s) && s != []
    ensures CString(s[1..]) && Escape(s) == EscapeChar(s[0]) + Escape(s[1..])
  {
  }

  lemma ScanQuote(rest: string)
    ensures var e := EscapeChar(QUOTE) + rest; FirstQuote(e) == 1 && Unescape(e[..1]) == [BACKSLASH]
  {
    var e := EscapeChar(QUOTE) + rest;
    FirstAt(e, 1);
    assert e[..1] == [BACKSLASH];
    assert e[..1][1..] == [];
  }

  lemma ScanOn(c: char, e: string)
    requires 0 < c as int < 256 && c != QUOTE
    ensures var m := FirstQuote(EscapeChar(c) + e);
            && m == |EscapeChar(c)| + FirstQuote(e) && m > 0
            && Unescape((EscapeChar(c) + e)[..m]) == [c] + Unescape(e[..FirstQuote(e)])
  {
    hide EscapeChar, FirstQuote, Unescape;
    EscapedChar(c);
    FirstBehind(EscapeChar(c), e);
    var m := FirstQuote(e);
    UnescapeStep(c, e[..m]);
    assert (EscapeChar(c) + e)[..|EscapeChar(c)| + m] == EscapeChar(c) + e[..m];
  }

  lemma {:induction false} FirstAt(s: string, n: nat)
    requires n < |s| && s[n] == QUOTE && QUOTE !in s[..n]
    ensures FirstQuote(s) == n
    decreases n
  {
    if n > 0 {
      assert s[..n][0] == s[0] && s[..n][1..] == s[1..][..n - 1];
      FirstAt(s[1..], n - 1);
    }
  }

  lemma {:induction false} FirstBehind(c: string, t: string)
    requires QUOTE !in c
    ensures FirstQuote(c + t) == |c| + FirstQuote(t)
  {
    if c == [] {
      assert c + t == t;
    } else {
      assert (c + t)[1..] == c[1..] + t;
      FirstBehind(c[1..], t);
    }
  }

  lemma ValueIs(e: string)
    ensures Value([QUOTE, '=', QUOTE] + e) == e[..FirstQuote(e)]
  {
    hide FirstQuote;
    var rest := [QUOTE, '=', QUOTE] + e;
    assert rest[1..] == ['=', QUOTE] + e && rest[1..][1..] == [QUOTE] + e && rest[1..][1..][1..] == e;
    assert SkipSpace(rest[1..]) == rest[1..] && SkipSpace(rest[1..][1..]) == rest[1..][1..];
  }

  lemma ValueReads(v: string)
    requires CString(v)
    ensures Unescape(Value([QUOTE, '=', QUOTE] + Escape(v) + [QUOTE])) == UpToQuote(v)
  {
    hide *;
    var e := Escape(v) + [QUOTE];
    ScanEscaped(v, []);
    ValueIs(e);
    assert e + [] == e;
    assert [QUOTE, '=', QUOTE] + Escape(v) + [QUOTE] == [QUOTE, '=', QUOTE] + e;
  }

  lemma Body(p: Pair)
    requires CString(p.0) && CString(p.1)
    ensures |Line(p)| >= |p.0| + 5 && Line(p)[0] == QUOTE
    ensures var body, tail := Line(p)[1..], ['=', QUOTE] + Escape(p.1) + [QUOTE];
            && body == Escape(p.0) + [QUOTE] + tail
            && body[|Escape(p.0)|..] == [QUOTE, '=', QUOTE] + Escape(p.1) + [QUOTE]
  {
    hide Escape, CString;
    var tail := ['=', QUOTE] + Escape(p.1) + [QUOTE];
    assert [QUOTE] + tail == [QUOTE, '=', QUOTE] + Escape(p.1) + [QUOTE];
    assert Line(p) == [QUOTE] + (Escape(p.0) + ([QUOTE] + tail));
  }

  lemma KeyReads(p: Pair)
    requires CString(p.0) && CString(p.1)
    ensures |Line(p)| >= |p.0| + 5 && Line(p)[0] == QUOTE
    ensures var body := Line(p)[1..]; var m := FirstQuote(body);
            && Unescape(body[..m]) == UpToQuote(p.0) && (m == 0 <==> p.0 == "")
            && (QUOTE !in p.0 ==> body[m..] == [QUOTE, '=', QUOTE] + Escape(p.1) + [QUOTE])
  {
    Body(p);
    ScanEscaped(p.0, ['=', QUOTE] + Escape(p.1) + [QUOTE]);
    hide Line, Escape, Unescape, FirstQuote, UpToQuote, CString;
  }

  /** What is written as one line comes back as this. */
  lemma LineReads(p: Pair)
    requires CString(p.0) && CString(p.1)
    ensures p.0 == "" ==> Entry(Line(p)) == None
    ensures p.0 != "" ==> Entry(Line(p)).Some? && Entry(Line(p)).value.0 == UpToQuote(p.0)
    ensures p.0 != "" && QUOTE !in p.0 ==> Entry(Line(p)) == Some((p.0, UpToQuote(p.1)))
  {
    KeyReads(p);
    IntactExactly(p.0);
    ValueReads(p.1);
    hide Line, Escape, Unescape, FirstQuote, UpToQuote, Value, CString;
  }

  /** A line holds a pair if the key is not empty and neither has a quote. */
  predicate Storable(p: Pair) {
    p.0 != "" && QUOTE !in p.0 && QUOTE !in p.1
  }

  lemma LineRoundTrip(p: Pair)
    requires CString(p.0) && CString(p.1)
    ensures Entry(Line(p)) == Some(p) <==> Storable(p)
  {
    LineReads(p);
    IntactExactly(p.0);
    IntactExactly(p.1);
    hide Entry, Line, UpToQuote;
  }

  // ---------------------------------------------------------------- the whole file

  ghost predicate AllText(ps: seq<Pair>) {
    forall i :: 0 <= i < |ps| ==> CString(ps[i].0) && CString(ps[i].1)
  }

  function Text(ps: seq<Pair>): string
    requires AllText(ps)
  {
    if ps == [] then [] else Line(ps[0]) + ['\n'] + Text(ps[1..])
  }

  /** file_get_line: no carriage returns, and a line that ends in a backslash goes on. */
  function NextLine(text: string, line: string, prev: char): (r: (string, string))
    ensures |r.1| <= |text| && (text != [] ==> |r.1| < |text|)
  {
    if text == [] then (line, [])
    else if text[0] == '\r' then NextLine(text[1..], line, prev)
    else if text[0] == '\n' then
      if line == [] || prev != BACKSLASH then (line, text[1..])
      else NextLine(text[1..], line[..|line| - 1], 0 as char)
    else NextLine(text[1..], line + [text[0]], text[0])
  }

  /** The entries of a file, in order; other lines are passed over. */
  function Entries(text: string): seq<Pair>
    decreases |text|
  {
    if text == [] then []
    else
      var (line, rest) := NextLine(text, [], 0 as char);
      EntryOf(line) + Entries(rest)
  }

  lemma {:induction false} LineComplete(body: string, rest: string, line: string, prev: char)
    requires '\r' !in body && '\n' !in body
    requires (if body == [] then prev else body[|body| - 1]) != BACKSLASH
    ensures NextLine(body + ['\n'] + rest, line, prev) == (line + body, rest)
    decreases |body|
  {
    var text := body + ['\n'] + rest;
    if body == [] {
      assert text[0] == '\n' && text[1..] == rest && line + body == line;
    } else {
      assert text[1..] == body[1..] + ['\n'] + rest;
      LineComplete(body[1..], rest, line + [body[0]], body[0]);
      assert line + [body[0]] + body[1..] == line + body;
    }
  }

  lemma {:induction false} EscapedPrintable(s: string, i: nat)
    requires CString(s) && i < |Escape(s)|
    ensures Printable(Escape(s)[i])
  {
    EscapedChar(s[0]);
    if i >= |EscapeChar(s[0])| { EscapedPrintable(s[1..], i - |EscapeChar(s[0])|); }
  }

  lemma OneLine(p: Pair)
    requires CString(p.0) && CString(p.1)
    ensures '\r' !in Line(p) && '\n' !in Line(p) && |Line(p)| > 0 && Line(p)[|Line(p)| - 1] == QUOTE
  {
    forall i: nat | i < |Escape(p.0)| ensures Printable(Escape(p.0)[i]) { EscapedPrintable(p.0, i); }
    forall i: nat | i < |Escape(p.1)| ensures Printable(Escape(p.1)[i]) { EscapedPrintable(p.1, i); }
    hide Escape;
  }

  lemma FirstLine(ps: seq<Pair>)
    requires AllText(ps) && ps != []
    ensures Text(ps) != [] && NextLine(Text(ps), [], 0 as char) == (Line(ps[0]), Text(ps[1..]))
  {
    OneLine(ps[0]);
    LineComplete(Line(ps[0]), Text(ps[1..]), [], 0 as char);
    hide Line, NextLine;
    assert [] + Line(ps[0]) == Line(ps[0]);
  }

  function EntryOf(line: string): seq<Pair> {
    match Entry(line) case Some(p) => [p] case None => []
  }

  lemma EntriesStep(ps: seq<Pair>)
    requires AllText(ps) && ps != []
    ensures Entries(Text(ps)) == EntryOf(Line(ps[0])) + Entries(Text(ps[1..]))
  {
    FirstLine(ps);
    hide Line, Entry, NextLine, Text, EntryOf;
  }

  lemma {:induction false} NoMoreEntries(ps: seq<Pair>)
    requires AllText(ps)
    ensures |Entries(Text(ps))| <= |ps|
  {
    hide Line, Entry;
    if ps != [] {
      EntriesStep(ps);
      NoMoreEntries(ps[1..]);
    }
  }

  /** A written file reads back as the pairs that went in exactly if every one of them can be stored. */
  lemma {:induction false} FileRoundTrip(ps: seq<Pair>)
    requires AllText(ps)
    ensures Entries(Text(ps)) == ps <==> forall i :: 0 <= i < |ps| ==> Storable(ps[i])
  {
    if ps != [] {
      EntriesStep(ps);
      NoMoreEntries(ps[1..]);
      FileRoundTrip(ps[1..]);
      LineRoundTrip(ps[0]);
      StorableStep(ps);
      FirstOf(EntryOf(Line(ps[0])), Entries(Text(ps[1..])), ps);
      hide Text, Entries, Line, Entry, Storable;
    }
  }

  lemma StorableStep(ps: seq<Pair>)
    requires ps != []
    ensures (forall i :: 0 <= i < |ps| ==> Storable(ps[i])) <==>
            Storable(ps[0]) && forall i :: 0 <= i < |ps[1..]| ==> Storable(ps[1..][i])
  {
    hide Storable;
    assert ps == [ps[0]] + ps[1..];
  }

  lemma FirstOf(first: seq<Pair>, rest: seq<Pair>, ps: seq<Pair>)
    requires ps != [] && |first| <= 1 && |rest| <= |ps[1..]|
    ensures first + rest == ps <==> first == [ps[0]] && rest == ps[1..]
  {
    if first + rest == ps {
      assert |first| == 1 && (first + rest)[0] == first[0] && (first + rest)[1..] == rest;
    }
  }

  /** A value with a quote comes back cut at its first one, with a backslash in its place. */
  lemma QuoteCutsValue(key: string, a: string, b: string)
    requires CString(key) && CString(a) && CString(b) && key != "" && QUOTE !in key && QUOTE !in a
    ensures CString(a + [QUOTE] + b) && Entry(Line((key, a + [QUOTE] + b))) == Some((key, a + [BACKSLASH]))
  {
    LineReads((key, a + [QUOTE] + b));
    CutAt(a, b);
    hide Entry, Line, UpToQuote;
  }

  lemma {:induction false} CutAt(a: string, b: string)
    requires QUOTE !in a
    ensures UpToQuote(a + [QUOTE] + b) == a + [BACKSLASH]
  {
    if a != [] {
      assert (a + [QUOTE] + b)[1..] == a[1..] + [QUOTE] + b;
      CutAt(a[1..], b);
    }
  }

  /** Blanks around the equals sign do not matter. */
  lemma SpacesAround(before: string, after: string, t: string)
    requires forall i :: 0 <= i < |before| ==> before[i] == ' ' || 9 <= before[i] as int <= 13
    requires forall i :: 0 <= i < |after| ==> after[i] == ' ' || 9 <= after[i] as int <= 13
    requires t != [] && !IsSpace(t[0])
    ensures Value([QUOTE] + (before + (['='] + (after + t)))) == Value([QUOTE] + (['='] + t))
  {
    var long, short := [QUOTE] + (before + (['='] + (after + t))), [QUOTE] + (['='] + t);
    assert long[1..] == before + (['='] + (after + t)) && short[1..] == ['='] + t;
    Spaces(before, ['='] + (after + t));
    Spaces([], ['='] + t);
    assert [] + (['='] + t) == ['='] + t;
    assert (['='] + (after + t))[1..] == after + t && (['='] + t)[1..] == t;
    Spaces(after, t);
    hide FirstQuote;
  }

  lemma {:induction false} Spaces(blanks: string, t: string)
    requires (forall i :: 0 <= i < |blanks| ==> IsSpace(blanks[i])) && t != [] && !IsSpace(t[0])
    ensures SkipSpace(blanks + t) == t
  {
    if blanks == [] {
      assert blanks + t == t;
    } else {
      assert (blanks + t)[1..] == blanks[1..] + t;
      Spaces(blanks[1..], t);
    }
  }

  lemma {:induction false} LineUnfold(body: string, rest: string, line: string, prev: char)
    requires '\r' !in body && '\n' !in body
    ensures NextLine(body + rest, line, prev) ==
            NextLine(rest, line + body, if body == [] then prev else body[|body| - 1])
    decreases |body|
  {
    if body == [] {
      assert body + rest == rest && line + body == line;
    } else {
      assert (body + rest)[1..] == body[1..] + rest;
      LineUnfold(body[1..], rest, line + [body[0]], body[0]);
      assert line + [body[0]] + body[1..] == line + body;
    }
  }

  /** A line that ends in a backslash goes on with the next one, without the backslash and the line break. */
  lemma LineGoesOn(a: string, b: string, rest: string)
    requires '\r' !in a && '\n' !in a && '\r' !in b && '\n' !in b
    requires b != [] ==> b[|b| - 1] != BACKSLASH
    ensures NextLine(a + [BACKSLASH] + (['\n'] + (b + ['\n'] + rest)), [], 0 as char) == (a + b, rest)
  {
    var first, second := a + [BACKSLASH], b + ['\n'] + rest;
    LineUnfold(first, ['\n'] + second, [], 0 as char);
    assert [] + first == first && first[..|first| - 1] == a;
    assert (['\n'] + second)[1..] == second;
    assert NextLine(['\n'] + second, first, BACKSLASH) == NextLine(second, a, 0 as char);
    hide NextLine;
    LineComplete(b, rest, a, 0 as char);
  }

  /** Text without its carriage returns. */
  function Stripped(s: string): (r: string)
    ensures |r| <= |s|
  {
    if s == [] then [] else (if s[0] == '\r' then [] else [s[0]]) + Stripped(s[1..])
  }

  lemma {:induction false} LineStripped(text: string, line: string, prev: char)
    ensures var (a, rest) := NextLine(text, line, prev); NextLine(Stripped(text), line, prev) == (a, Stripped(rest))
    decreases |text|
  {
    if text != [] {
      assert text[0] != '\r' ==> Stripped(text)[1..] == Stripped(text[1..]);
      if text[0] == '\r' {
        assert Stripped(text) == Stripped(text[1..]);
        LineStripped(text[1..], line, prev);
      } else if text[0] != '\n' {
        LineStripped(text[1..], line + [text[0]], text[0]);
      } else if line != [] && prev == BACKSLASH {
        LineStripped(text[1..], line[..|line| - 1], 0 as char);
      }
    }
  }

  /** Carriage returns do not matter, wherever they stand. */
  lemma {:induction false} ReturnsDropped(text: string)
    ensures Entries(Stripped(text)) == Entries(text)
    decreases |text|
  {
    if text != [] {
      LineStripped(text, [], 0 as char);
      ReturnsDropped(NextLine(text, [], 0 as char).1);
      if Stripped(text) == [] { OnlyReturns(text, [], 0 as char); }
      hide NextLine, Stripped, Entry;
    }
  }

  lemma {:induction false} OnlyReturns(text: string, line: string, prev: char)
    requires Stripped(text) == []
    ensures NextLine(text, line, prev) == (line, [])
    decreases |text|
  {
    if text != [] { OnlyReturns(text[1..], line, prev); }
  }

  /** Lines that hold an entry: six characters or more, and a quote in front of a key. */
  lemma EntryExactly(line: string)
    ensures Entry(line).Some? <==> |line| >= 6 && line[0] == '\"' && line[1] != '\"'
  {
    hide Unescape, Value;
  }

  // ---------------------------------------------------------------- an account

  /** The attributes that have a value, in list order. */
  function Valued(list: seq<Attr>): seq<Pair> {
    if list == [] then []
    else (if list[0].val.Some? then [(list[0].key, list[0].val.value)] else []) + Valued(list[1..])
  }

  const SKIPPED := "BNET\\CharacterDefaul"

  /** The test that ought to keep character defaults out of the file looks at the escaped key, so it never applies. */
  lemma NothingSkipped(key: string)
    requires CString(key)
    ensures !(|Escape(key)| >= |SKIPPED| && Escape(key)[..|SKIPPED|] == SKIPPED)
  {
    var e := Escape(key);
    if |e| >= |SKIPPED| && e[..|SKIPPED|] == SKIPPED {
      forall i: nat | i < 6 ensures e[i] == SKIPPED[i] { assert e[i] == e[..|SKIPPED|][i]; }
      AfterBackslash(key, 4);
    }
  }

  /** The first backslash of escaped text is never followed by a capital letter. */
  lemma {:induction false} AfterBackslash(s: string, i: nat)
    requires CString(s) && i + 1 < |Escape(s)|
    requires Escape(s)[i] == BACKSLASH && forall j :: 0 <= j < i ==> Escape(s)[j] != BACKSLASH
    ensures !('A' <= Escape(s)[i + 1] <= 'Z')
  {
    if i == 0 {
      EscapedChar(s[0]);
    } else {
      PlainFirst(s);
      AfterBackslash(s[1..], i - 1);
    }
  }

  /** Escaped text that does not begin with a backslash begins with a character of the text itself. */
  lemma PlainFirst(s: string)
    requires CString(s) && s != [] && Escape(s)[0] != BACKSLASH
    ensures CString(s[1..]) && Escape(s)[1..] == Escape(s[1..])
  {
    assert |EscapeChar(s[0])| > 0;
    hide EscapeChar;
    EscapedChar(s[0]);
  }

  /** plain_write_attrs: every attribute that has a value becomes a line. */
  method WriteAttrs(list: seq<Attr>) returns (text: string)
    requires AllText(Valued(list))
    ensures text == Text(Valued(list))
  {
    hide Text, Escape, AllText, Valued, CString;
    text := [];
    var i := 0;
    assert list[0..] == list;
    while i < |list|
      invariant i <= |list| && AllText(Valued(list[i..]))
      invariant Text(Valued(list)) == text + Text(Valued(list[i..]))
    {
      assert list[i..][1..] == list[i + 1..];
      ValuedFirst(list[i..]);
      if list[i].val.Some? {
        var p := (list[i].key, list[i].val.value);
        NothingSkipped(p.0);
        var key := EscapeChars(p.0);
        var val := EscapeChars(p.1);
        if |key| < |SKIPPED| || key[..|SKIPPED|] != SKIPPED {
          text := text + ([QUOTE] + key + [QUOTE, '=', QUOTE] + val + [QUOTE]) + ['\n'];
        }
      }
      i := i + 1;
    }
    NothingLeft();
    assert list[|list|..] == [];
  }

  lemma NothingLeft()
    ensures Valued([]) == [] && AllText([]) && Text([]) == ""
  {
  }

  lemma {:induction false} ValuedFirst(list: seq<Attr>)
    requires AllText(Valued(list)) && list != []
    ensures AllText(Valued(list[1..]))
    ensures list[0].val.Some? ==> CString(list[0].key) && CString(list[0].val.value)
    ensures Text(Valued(list)) ==
            (if list[0].val.Some? then Line((list[0].key, list[0].val.value)) + ['\n'] else []) +
            Text(Valued(list[1..]))
  {
    if list[0].val.Some? {
      var p := (list[0].key, list[0].val.value);
      assert Valued(list)[0] == p && Valued(list)[1..] == Valued(list[1..]);
    } else {
      assert Valued(list) == Valued(list[1..]);
    }
    hide Line, Valued, CString;
  }

  /** What a load makes of the entries: a later one replaces an earlier one of the same key. */
  function Loaded(ps: seq<Pair>): Rows {
    if ps == [] then map[]
    else
      var rest := Loaded(ps[1..]);
      var k := CanonicalKey(ps[0].0);
      if k in rest then rest else rest[k := ps[0].1]
  }

  /** Of several entries for one attribute the last counts, whatever prefix or case their keys have. */
  lemma {:induction false} LastEntryCounts(ps: seq<Pair>, n: nat)
    requires n < |ps| && forall m :: n < m < |ps| ==> CanonicalKey(ps[m].0) != CanonicalKey(ps[n].0)
    ensures Read(Loaded(ps), CanonicalKey(ps[n].0)) == Some(ps[n].1)
  {
    hide CanonicalKey;
    var k := CanonicalKey(ps[n].0);
    if n == 0 {
      forall m | 0 <= m < |ps[1..]| ensures CanonicalKey(ps[1..][m].0) != k { assert ps[1..][m] == ps[m + 1]; }
      NotLoaded(ps[1..], k);
    } else {
      LastEntryCounts(ps[1..], n - 1);
    }
  }

  lemma {:induction false} NotLoaded(ps: seq<Pair>, k: string)
    requires forall m :: 0 <= m < |ps| ==> CanonicalKey(ps[m].0) != k
    ensures k !in Loaded(ps)
  {
    hide CanonicalKey;
    if ps != [] { NotLoaded(ps[1..], k); }
  }

  lemma {:induction false} LoadedAt(list: seq<Attr>, k: string)
    requires UniqueKeys(list) && CanonicalKeys(list)
    ensures Read(Loaded(Valued(list)), k) == At(list, map[], k)
  {
    hide CanonicalKey;
    if list != [] {
      var rest, first := list[1..], Fold(list[0].key);
      LoadedAt(rest, k);
      LoadedAt(rest, first);
      FindIs(rest, first, |rest|);
      if list[0].val.Some? {
        assert Valued(list)[1..] == Valued(rest);
      } else {
        assert Valued(list) == Valued(rest);
      }
    }
  }

  /** The list with every value as the scan gets it back. */
  function CutAll(list: seq<Attr>): (r: seq<Attr>)
    ensures |r| == |list|
  {
    seq(|list|, i requires 0 <= i < |list| =>
      list[i].(val := if list[i].val.Some? then Some(UpToQuote(list[i].val.value)) else None))
  }

  predicate PlainKeys(list: seq<Attr>) {
    forall i :: 0 <= i < |list| ==> list[i].key != "" && QUOTE !in list[i].key
  }

  lemma {:induction false} EntriesAre(list: seq<Attr>)
    requires AllText(Valued(list)) && PlainKeys(list)
    ensures Entries(Text(Valued(list))) == Valued(CutAll(list))
  {
    if list != [] {
      assert CutAll(list)[1..] == CutAll(list[1..]);
      ValuedFirst(list);
      EntriesAre(list[1..]);
      if list[0].val.Some? {
        EntriesStep(Valued(list));
        LineReads((list[0].key, list[0].val.value));
        assert Valued(list)[1..] == Valued(list[1..]);
      } else {
        assert Valued(list) == Valued(list[1..]);
      }
      hide Entries, Text, Line, Entry, UpToQuote, CString;
    }
  }

  lemma ReadBack(list: seq<Attr>, k: string)
    requires UniqueKeys(list) && CanonicalKeys(list)
    ensures Read(Loaded(Valued(CutAll(list))), k) ==
            if Find(list, k) < |list| then CutAll(list)[Find(list, k)].val else None
    ensures Read(WriteAll(list), k) == if Find(list, k) < |list| then list[Find(list, k)].val else None
  {
    hide Valued, Loaded, Overlay, CanonicalKey;
    LoadedAt(CutAll(list), k);
    ReadOverlay(list, map[], k);
    SameKeysFind(list, CutAll(list), k);
  }

  predicate IntactValue(a: Attr) {
    a.val.Some? ==> QUOTE !in a.val.value
  }

  lemma CutIntact(list: seq<Attr>, i: nat)
    requires i < |list|
    ensures CutAll(list)[i].val == list[i].val <==> IntactValue(list[i])
  {
    if list[i].val.Some? { IntactExactly(list[i].val.value); }
  }

  /** An account with plain keys is read back from its file as readers saw it exactly if no value has a quote. */
  lemma FileKeepsAccount(list: seq<Attr>)
    requires UniqueKeys(list) && CanonicalKeys(list) && PlainKeys(list) && AllText(Valued(list))
    ensures Loaded(Entries(Text(Valued(list)))) == WriteAll(list) <==>
            forall i :: 0 <= i < |list| ==> IntactValue(list[i])
  {
    EntriesAre(list);
    var back := Loaded(Valued(CutAll(list)));
    if forall i :: 0 <= i < |list| ==> IntactValue(list[i]) {
      forall k ensures Read(back, k) == Read(WriteAll(list), k) {
        ReadBack(list, k);
        if Find(list, k) < |list| { CutIntact(list, Find(list, k)); }
      }
      RowsExtensional(back, WriteAll(list));
    } else {
      var i :| 0 <= i < |list| && !IntactValue(list[i]);
      CutIntact(list, i);
      FindUnique(list, i);
      ReadBack(list, Fold(list[i].key));
    }
    hide *;
  }
}
