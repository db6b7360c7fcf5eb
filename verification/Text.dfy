/** Character classes, trimming and decimal numbers, as Rust's `str` and integer formatting define them. */
module Text {
  import opened Wrappers

  predicate IsDigit(c: char) { '0' <= c <= '9' }

  predicate IsAlpha(c: char) { 'a' <= c <= 'z' || 'A' <= c <= 'Z' }

  /** `is_identifier_char`. */
  predicate IsIdentifierChar(c: char) { c == '_' || IsAlpha(c) || IsDigit(c) }

  /** `is_identifier` and the SDK's `valid_filter_segment`. */
  predicate IsIdentifier(s: string) {
    && s != [] && (s[0] == '_' || IsAlpha(s[0]))
    && forall i | 0 <= i < |s| :: IsIdentifierChar(s[i])
  }

  /** Unicode White_Space. */
  predicate IsWhitespace(c: char) {
    || '\U{0009}' <= c <= '\U{000D}' || c == ' ' || c == '\U{0085}' || c == '\U{00A0}'
    || c == '\U{1680}' || '\U{2000}' <= c <= '\U{200A}' || c == '\U{2028}' || c == '\U{2029}'
    || c == '\U{202F}' || c == '\U{205F}' || c == '\U{3000}'
  }

  function Lower(c: char): char {
    if 'A' <= c <= 'Z' then (c as int + 32) as char else c
  }

  predicate EqIgnoreCase(a: string, b: string) {
    |a| == |b| && forall i | 0 <= i < |a| :: Lower(a[i]) == Lower(b[i])
  }

  function TrimStart(s: string): string {
    if s != [] && IsWhitespace(s[0]) then TrimStart(s[1..]) else s
  }

  function TrimEnd(s: string): string {
    if s != [] && IsWhitespace(s[|s| - 1]) then TrimEnd(s[..|s| - 1]) else s
  }

  function Trim(s: string): string { TrimEnd(TrimStart(s)) }

  lemma TrimNothing(s: string)
    requires s == [] || (!IsWhitespace(s[0]) && !IsWhitespace(s[|s| - 1]))
    ensures Trim(s) == s
  {
  }

  lemma TrimLeadingSpace(s: string)
    requires s != [] && !IsWhitespace(s[0]) && !IsWhitespace(s[|s| - 1])
    ensures Trim([' '] + s) == s
  {
    assert ([' '] + s)[1..] == s;
    assert TrimStart([' '] + s) == TrimStart(s) == s;
  }

  lemma TrimTrailingSpace(s: string)
    requires s != [] && !IsWhitespace(s[0]) && !IsWhitespace(s[|s| - 1])
    ensures Trim(s + [' ']) == s
  {
    assert (s + [' '])[..|s|] == s;
    assert TrimStart(s + [' ']) == s + [' '];
    assert TrimEnd(s + [' ']) == TrimEnd(s) == s;
  }

  // ---------- the classes and trimming, in other words ----------

  /** The characters of Unicode's White_Space. */
  const WHITE_SPACE: set<char> := {
    '\t', '\n', '\U{000B}', '\U{000C}', '\r', ' ', '\U{0085}', '\U{00A0}', '\U{1680}',
    '\U{2000}', '\U{2001}', '\U{2002}', '\U{2003}', '\U{2004}', '\U{2005}', '\U{2006}', '\U{2007}',
    '\U{2008}', '\U{2009}', '\U{200A}', '\U{2028}', '\U{2029}', '\U{202F}', '\U{205F}', '\U{3000}'}

  /** The same character, or an ASCII letter in its two cases. */
  predicate SameLetter(a: char, b: char) {
    || a == b
    || ('A' <= a <= 'Z' && b as int - 'a' as int == a as int - 'A' as int)
    || ('A' <= b <= 'Z' && a as int - 'a' as int == b as int - 'A' as int)
  }

  /** Blank throughout. */
  predicate Blank(s: string) { forall i | 0 <= i < |s| :: s[i] in WHITE_SPACE }

  /** `t` is `s` without the blanks at its ends. */
  ghost predicate Trims(s: string, t: string) {
    && (exists lead, tail :: Blank(lead) && Blank(tail) && s == lead + t + tail)
    && (t != [] ==> t[0] !in WHITE_SPACE && t[|t| - 1] !in WHITE_SPACE)
  }

  predicate IsUpperLetter(c: char) {
    || c in {'A', 'B', 'C', 'D', 'E', 'F', 'G', 'H', 'I', 'J', 'K', 'L', 'M'}
    || c in {'N', 'O', 'P', 'Q', 'R', 'S', 'T', 'U', 'V', 'W', 'X', 'Y', 'Z'}
  }

  predicate IsLowerLetter(c: char) {
    || c in {'a', 'b', 'c', 'd', 'e', 'f', 'g', 'h', 'i', 'j', 'k', 'l', 'm'}
    || c in {'n', 'o', 'p', 'q', 'r', 's', 't', 'u', 'v', 'w', 'x', 'y', 'z'}
  }

  lemma UpperIsListed(c: char)
    ensures 'A' <= c <= 'Z' <==> IsUpperLetter(c)
  {
    assert c == (c as int) as char;
  }

  lemma LowerIsListed(c: char)
    ensures 'a' <= c <= 'z' <==> IsLowerLetter(c)
  {
    assert c == (c as int) as char;
  }

  lemma DigitIsListed(c: char)
    ensures IsDigit(c) <==> c in {'0', '1', '2', '3', '4', '5', '6', '7', '8', '9'}
  {
    assert c == (c as int) as char;
  }

  /** What identifiers are made of. */
  lemma IdentifierCharsAreListed(c: char)
    ensures IsIdentifierChar(c) <==> c == '_' || IsUpperLetter(c) || IsLowerLetter(c) || IsDigit(c)
  {
    hide IsUpperLetter, IsLowerLetter;
    UpperIsListed(c);
    LowerIsListed(c);
  }

  lemma WhitespaceIsListed(c: char)
    ensures IsWhitespace(c) <==> c in WHITE_SPACE
  {
    assert c == (c as int) as char;
  }

  lemma SameLetterIsLower(a: char, b: char)
    ensures Lower(a) == Lower(b) <==> SameLetter(a, b)
  {
  }

  /** Comparing without case compares letter by letter, an ASCII letter with either case of it. */
  lemma EqIgnoreCaseIsExact(a: string, b: string)
    ensures EqIgnoreCase(a, b) <==> |a| == |b| && forall i | 0 <= i < |a| :: SameLetter(a[i], b[i])
  {
    hide Lower, SameLetter;
    if |a| == |b| {
      forall i | 0 <= i < |a| ensures Lower(a[i]) == Lower(b[i]) <==> SameLetter(a[i], b[i]) {
        SameLetterIsLower(a[i], b[i]);
      }
    }
  }

  lemma {:induction false} TrimStartIs(s: string) returns (lead: string)
    ensures Blank(lead) && s == lead + TrimStart(s)
    ensures TrimStart(s) != [] ==> !IsWhitespace(TrimStart(s)[0])
  {
    hide IsWhitespace;
    if s != [] && IsWhitespace(s[0]) {
      WhitespaceIsListed(s[0]);
      var rest := TrimStartIs(s[1..]);
      lead := [s[0]] + rest;
    } else {
      lead := [];
    }
  }

  lemma {:induction false} TrimEndIs(s: string) returns (tail: string)
    ensures Blank(tail) && s == TrimEnd(s) + tail
    ensures TrimEnd(s) != [] ==> !IsWhitespace(TrimEnd(s)[|TrimEnd(s)| - 1])
  {
    hide IsWhitespace;
    if s != [] && IsWhitespace(s[|s| - 1]) {
      WhitespaceIsListed(s[|s| - 1]);
      var rest := TrimEndIs(s[..|s| - 1]);
      tail := rest + [s[|s| - 1]];
    } else {
      tail := [];
    }
  }

  lemma {:induction false} TrimStartSkips(lead: string, s: string)
    requires Blank(lead)
    ensures TrimStart(lead + s) == TrimStart(s)
  {
    hide IsWhitespace;
    if lead == [] {
      assert lead + s == s;
    } else {
      WhitespaceIsListed(lead[0]);
      assert (lead + s)[1..] == lead[1..] + s;
      TrimStartSkips(lead[1..], s);
    }
  }

  lemma {:induction false} TrimEndSkips(s: string, tail: string)
    requires Blank(tail)
    ensures TrimEnd(s + tail) == TrimEnd(s)
  {
    hide IsWhitespace;
    if tail == [] {
      assert s + tail == s;
    } else {
      var n := |tail| - 1;
      WhitespaceIsListed(tail[n]);
      assert (s + tail)[..|s| + n] == s + tail[..n];
      TrimEndSkips(s, tail[..n]);
    }
  }

  /** Trimming takes off the blanks at both ends, all of them and nothing else. */
  lemma TrimIsExact(s: string, t: string)
    ensures Trim(s) == t <==> Trims(s, t)
  {
    hide IsWhitespace, TrimStart, TrimEnd;
    if Trim(s) == t {
      var lead := TrimStartIs(s);
      var tail := TrimEndIs(TrimStart(s));
      assert s == lead + (t + tail) == lead + t + tail;
      if t != [] {
        assert TrimStart(s)[0] == t[0];
        WhitespaceIsListed(t[0]);
        WhitespaceIsListed(t[|t| - 1]);
      }
    }
    if Trims(s, t) {
      var lead, tail :| Blank(lead) && Blank(tail) && s == lead + t + tail;
      assert s == lead + (t + tail);
      TrimStartSkips(lead, t + tail);
      if t == [] { TrimBlank(tail); assert t + tail == tail; } else { TrimBare(t, tail); }
    }
  }

  lemma TrimBlank(s: string)
    requires Blank(s)
    ensures TrimEnd(TrimStart(s)) == []
  {
    hide IsWhitespace;
    TrimStartSkips(s, []);
    assert s + [] == s;
  }

  lemma TrimBare(t: string, tail: string)
    requires t != [] && t[0] !in WHITE_SPACE && t[|t| - 1] !in WHITE_SPACE && Blank(tail)
    ensures TrimEnd(TrimStart(t + tail)) == t
  {
    hide IsWhitespace;
    WhitespaceIsListed(t[0]);
    WhitespaceIsListed(t[|t| - 1]);
    TrimEndSkips(t, tail);
  }

  lemma TrimTwice(s: string)
    ensures Trim(Trim(s)) == Trim(s)
  {
    hide Trim;
    TrimIsExact(s, Trim(s));
    assert Blank([]) && Trim(s) == [] + Trim(s) + [];
    TrimIsExact(Trim(s), Trim(s));
  }

  // ---------- decimal ----------

  function DigitChar(d: nat): char
    requires d < 10
  {
    ('0' as int + d) as char
  }

  function Decimal(n: nat): (s: string)
    ensures s != [] && forall i | 0 <= i < |s| :: IsDigit(s[i])
  {
    if n < 10 then [DigitChar(n)] else Decimal(n / 10) + [DigitChar(n % 10)]
  }

  function FormatInt(n: int): string {
    if n < 0 then ['-'] + Decimal(-n) else Decimal(n)
  }

  predicate AllDigits(s: string) {
    s != [] && forall i | 0 <= i < |s| :: IsDigit(s[i])
  }

  function DigitsValue(s: string): nat
    requires forall i | 0 <= i < |s| :: IsDigit(s[i])
  {
    if s == [] then 0
    else
      assert IsDigit(s[|s| - 1]);
      10 * DigitsValue(s[..|s| - 1]) + (s[|s| - 1] as int - '0' as int)
  }

  /** An optional sign and at least one digit, of any size. */
  function ParseInt(s: string): Option<int> {
    if s != [] && s[0] == '-' then
      if AllDigits(s[1..]) then Some(0 - DigitsValue(s[1..])) else None
    else if s != [] && s[0] == '+' then
      if AllDigits(s[1..]) then Some(DigitsValue(s[1..])) else None
    else if AllDigits(s) then Some(DigitsValue(s)) else None
  }

  lemma {:induction false} DecimalValue(n: nat)
    ensures DigitsValue(Decimal(n)) == n
  {
    if n >= 10 {
      DecimalValue(n / 10);
      assert Decimal(n)[..|Decimal(n)| - 1] == Decimal(n / 10);
    } else {
      assert Decimal(n)[..0] == [];
    }
  }

  lemma DecimalInjective(m: nat, n: nat)
    requires Decimal(m) == Decimal(n)
    ensures m == n
  {
    DecimalValue(m);
    DecimalValue(n);
  }

  /** Formatting an integer and parsing it back gives the integer. */
  lemma FormatThenParse(n: int)
    ensures ParseInt(FormatInt(n)) == Some(n)
  {
    hide Decimal, DigitsValue;
    if n < 0 {
      DecimalValue(-n);
      assert FormatInt(n)[1..] == Decimal(-n);
    } else {
      DecimalValue(n);
      assert IsDigit(Decimal(n)[0]);
    }
  }
}
