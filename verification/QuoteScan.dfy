/** The quote-aware scanners of the subscription filter language (filter.rs). */
module QuoteScan {
  import opened Wrappers
  import opened Text

  // Each scanner walks the text with an `in_string` flag and skips a doubled apostrophe inside a
  // string. Here they are all proved against one definition that mentions neither: a position is
  // inside a string when an odd number of apostrophes precede it.

  const QUOTE: char := '\''

  function QuotesBefore(s: string, i: nat): nat
    requires i <= |s|
  {
    if i == 0 then 0 else QuotesBefore(s, i - 1) + if s[i - 1] == QUOTE then 1 else 0
  }

  predicate Quoted(s: string, i: nat)
    requires i <= |s|
  {
    QuotesBefore(s, i) % 2 == 1
  }

  /** Position `i` holds text of the filter expression itself. */
  predicate Outside(s: string, i: nat) {
    i < |s| && s[i] != QUOTE && !Quoted(s, i)
  }

  predicate TokenAt(s: string, i: nat, token: string) {
    i + |token| <= |s| && s[i..i + |token|] == token
  }

  /** No identifier character touches `s[i..i + n]`. */
  predicate WholeWord(s: string, i: nat, n: nat)
    requires i + n <= |s|
  {
    && !(i > 0 && IsIdentifierChar(s[i - 1]))
    && !(i + n < |s| && IsIdentifierChar(s[i + n]))
  }

  /** `starts_with_keyword_at`. */
  predicate KeywordAt(s: string, i: nat, keyword: string) {
    i + |keyword| <= |s| && EqIgnoreCase(s[i..i + |keyword|], keyword) && WholeWord(s, i, |keyword|)
  }

  /** `starts_with_field_reference`. */
  predicate FieldReferenceAt(s: string, i: nat, field: string) {
    TokenAt(s, i, field) && WholeWord(s, i, |field|)
  }

  /** `is_decimal_literal_point`. */
  predicate DecimalPointAt(s: string, i: nat)
    requires i < |s|
  {
    i > 0 && IsDigit(s[i - 1]) && i + 1 < |s| && IsDigit(s[i + 1])
  }

  // ---------- what the scanners look for ----------

  ghost predicate HasWord(s: string, word: string) {
    exists i: nat :: Outside(s, i) && KeywordAt(s, i, word)
  }

  ghost predicate HasChar(s: string, c: char) {
    exists i: nat :: Outside(s, i) && s[i] == c
  }

  ghost predicate HasPathSeparator(s: string) {
    exists i: nat :: Outside(s, i) && s[i] == '.' && !DecimalPointAt(s, i)
  }

  ghost predicate HasFieldReference(s: string, field: string) {
    exists i: nat :: Outside(s, i) && FieldReferenceAt(s, i, field)
  }

  /** Where a scanner goes from an apostrophe at `i`, and the flag it has there. */
  function AfterQuote(s: string, i: nat, inString: bool): (next: (nat, bool))
    requires i < |s| && s[i] == QUOTE && inString == Quoted(s, i)
    ensures i < next.0 <= |s| && next.0 <= i + 2 && next.1 == Quoted(s, next.0)
    ensures forall k | i <= k < next.0 :: s[k] == QUOTE
  {
    if inString && i + 1 < |s| && s[i + 1] == QUOTE then
      assert QuotesBefore(s, i + 2) == QuotesBefore(s, i) + 2;
      (i + 2, inString)
    else (i + 1, !inString)
  }

  method ContainsUnquotedWord(s: string, word: string) returns (found: bool)
    ensures found <==> HasWord(s, word)
  {
    var i, inString := 0, false;
    while i < |s|
      invariant i <= |s| && inString == Quoted(s, i)
      invariant forall k: nat | k < i && Outside(s, k) :: !KeywordAt(s, k, word)
    {
      if s[i] == QUOTE {
        var next := AfterQuote(s, i, inString);
        i, inString := next.0, next.1;
      } else {
        if !inString && KeywordAt(s, i, word) {
          return true;
        }
        i := i + 1;
      }
    }
    found := false;
  }

  method ContainsUnquotedChar(s: string, target: char) returns (found: bool)
    ensures found <==> HasChar(s, target)
  {
    var i, inString := 0, false;
    while i < |s|
      invariant i <= |s| && inString == Quoted(s, i)
      invariant forall k: nat | k < i && Outside(s, k) :: s[k] != target
    {
      if s[i] == QUOTE {
        var next := AfterQuote(s, i, inString);
        i, inString := next.0, next.1;
      } else {
        if !inString && s[i] == target {
          assert Outside(s, i);
          return true;
        }
        i := i + 1;
      }
    }
    found := false;
  }

  method ContainsUnquotedFieldPathSeparator(s: string) returns (found: bool)
    ensures found <==> HasPathSeparator(s)
  {
    var i, inString := 0, false;
    while i < |s|
      invariant i <= |s| && inString == Quoted(s, i)
      invariant forall k: nat | k < i && Outside(s, k) :: s[k] != '.' || DecimalPointAt(s, k)
    {
      if s[i] == QUOTE {
        var next := AfterQuote(s, i, inString);
        i, inString := next.0, next.1;
      } else {
        if !inString && s[i] == '.' && !DecimalPointAt(s, i) {
          assert Outside(s, i);
          return true;
        }
        i := i + 1;
      }
    }
    found := false;
  }

  method ReferencesField(s: string, field: string) returns (found: bool)
    ensures found <==> HasFieldReference(s, field)
  {
    var i, inString := 0, false;
    while i < |s|
      invariant i <= |s| && inString == Quoted(s, i)
      invariant forall k: nat | k < i && Outside(s, k) :: !FieldReferenceAt(s, k, field)
    {
      if s[i] == QUOTE {
        var next := AfterQuote(s, i, inString);
        i, inString := next.0, next.1;
      } else {
        if !inString && FieldReferenceAt(s, i, field) {
          return true;
        }
        i := i + 1;
      }
    }
    found := false;
  }

  // ---------- the first unquoted token ----------

  function FindFrom(s: string, i: nat, token: string): (found: Option<nat>)
    requires i <= |s|
    ensures found.Some? ==>
      && i <= found.value < |s| && Outside(s, found.value) && TokenAt(s, found.value, token)
      && forall k: nat | i <= k < found.value && Outside(s, k) :: !TokenAt(s, k, token)
    ensures found.None? ==> forall k: nat | i <= k && Outside(s, k) :: !TokenAt(s, k, token)
    decreases |s| - i
  {
    if i == |s| then None
    else if Outside(s, i) && TokenAt(s, i, token) then Some(i)
    else FindFrom(s, i + 1, token)
  }

  datatype ScanError = Unterminated

  /** `find_unquoted_token`. */
  function FindToken(s: string, token: string): Result<Option<nat>, ScanError> {
    var found := FindFrom(s, 0, token);
    if found.None? && Quoted(s, |s|) then Err(Unterminated) else Ok(found)
  }

  method FindUnquotedToken(s: string, token: string) returns (r: Result<Option<nat>, ScanError>)
    ensures r == FindToken(s, token)
  {
    var i, inString := 0, false;
    while i < |s|
      invariant i <= |s| && inString == Quoted(s, i)
      invariant FindFrom(s, 0, token) == FindFrom(s, i, token)
    {
      if s[i] == QUOTE {
        var next := AfterQuote(s, i, inString);
        assert FindFrom(s, i, token) == FindFrom(s, i + 1, token);
        if next.0 == i + 2 {
          assert FindFrom(s, i + 1, token) == FindFrom(s, i + 2, token);
        }
        i, inString := next.0, next.1;
      } else {
        if !inString && TokenAt(s, i, token) {
          return Ok(Some(i));
        }
        i := i + 1;
      }
    }
    r := if inString then Err(Unterminated) else Ok(None);
  }

  // ---------- clauses ----------

  const AND := "AND"

  /** An unquoted whole-word AND. */
  predicate IsCut(s: string, i: nat) {
    Outside(s, i) && KeywordAt(s, i, AND)
  }

  lemma CutIsAWord(s: string, i: nat, j: nat)
    requires IsCut(s, i) && i <= j < i + 3
    ensures IsIdentifierChar(s[j])
  {
    assert s[i..i + 3][j - i] == s[j];
    assert Lower(s[j]) == Lower(AND[j - i]);
  }

  lemma CutsApart(s: string, b: nat, c: nat)
    requires IsCut(s, b) && IsCut(s, c) && b < c
    ensures b + 3 <= c
  {
    if c < b + 3 { CutIsAWord(s, b, c - 1); }
  }

  /** The clauses of `s[start..]` when the scan has reached `i`. */
  function ClausesFrom(s: string, start: nat, i: nat): (clauses: seq<string>)
    requires start <= |s| && i <= |s|
    ensures clauses != []
    decreases |s| - i
  {
    if i == |s| then [s[start..]]
    else if IsCut(s, i) && start <= i then [s[start..i]] + ClausesFrom(s, i + 3, i + 1)
    else ClausesFrom(s, start, i + 1)
  }

  /** `split_and_clauses`. */
  function Clauses(s: string): Result<seq<string>, ScanError> {
    if Quoted(s, |s|) then Err(Unterminated) else Ok(ClausesFrom(s, 0, 0))
  }

  lemma ScanOn(s: string, start: nat, i: nat, next: nat)
    requires start <= |s| && i < next <= |s| && next <= i + 2
    requires forall k: nat | i <= k < next && start <= k :: !IsCut(s, k)
    ensures ClausesFrom(s, start, i) == ClausesFrom(s, start, next)
  {
    hide IsCut;
    assert ClausesFrom(s, start, i) == ClausesFrom(s, start, i + 1);
    if next == i + 2 { assert ClausesFrom(s, start, i + 1) == ClausesFrom(s, start, i + 2); }
  }

  /** Apostrophes are not cuts. */
  lemma ScanQuotes(s: string, start: nat, i: nat, next: nat)
    requires start <= |s| && i < next <= |s| && next <= i + 2 && forall k | i <= k < next :: s[k] == QUOTE
    ensures ClausesFrom(s, start, i) == ClausesFrom(s, start, next)
  {
    ScanOn(s, start, i, next);
  }

  lemma CutThere(s: string, i: nat)
    requires i < |s| && s[i] != QUOTE
    ensures IsCut(s, i) <==> !Quoted(s, i) && KeywordAt(s, i, AND)
    ensures Quoted(s, i + 1) == Quoted(s, i)
  {
  }

  lemma CutHere(s: string, start: nat, i: nat, before: seq<string>)
    requires start <= i && IsCut(s, i)
    ensures i + 3 <= |s|
    ensures before + ClausesFrom(s, start, i) == before + [s[start..i]] + ClausesFrom(s, i + 3, i + 1)
  {
  }

  lemma NotQuotedYet(s: string)
    ensures !Quoted(s, 0)
  {
  }

  lemma ScannedAll(s: string, start: nat)
    requires start <= |s|
    ensures ClausesFrom(s, start, |s|) == [s[start..]]
  {
  }

  method SplitAndClauses(s: string) returns (r: Result<seq<string>, ScanError>)
    ensures r == Clauses(s)
  {
    hide ClausesFrom, IsCut, KeywordAt, QuotesBefore;
    NotQuotedYet(s);
    var clauses: seq<string> := [];
    var clauseStart, i, inString := 0, 0, false;
    while i < |s|
      invariant i <= |s| && clauseStart <= |s| && inString == Quoted(s, i)
      invariant clauseStart <= i || (clauseStart >= 3 && clauseStart - 3 < i && IsCut(s, clauseStart - 3))
      invariant clauses + ClausesFrom(s, clauseStart, i) == ClausesFrom(s, 0, 0)
    {
      if s[i] == QUOTE {
        var next := AfterQuote(s, i, inString);
        ScanQuotes(s, clauseStart, i, next.0);
        i, inString := next.0, next.1;
      } else {
        CutThere(s, i);
        if !inString && KeywordAt(s, i, AND) {
          if i < clauseStart { CutsApart(s, clauseStart - 3, i); }
          CutHere(s, clauseStart, i, clauses);
          clauses := clauses + [s[clauseStart..i]];
          clauseStart := i + 3;
        } else {
          ScanOn(s, clauseStart, i, i + 1);
        }
        i := i + 1;
      }
    }
    if inString {
      return Err(Unterminated);
    }
    ScannedAll(s, clauseStart);
    r := Ok(clauses + [s[clauseStart..]]);
  }

  // ---------- what splitting means ----------

  /**
   `clauses` are the text of `s[a..]` with every unquoted whole-word AND, and nothing else,
   taken out.
   */
  ghost predicate CutInto(s: string, a: nat, clauses: seq<string>)
    decreases |clauses|
  {
    && a <= |s| && clauses != []
    && var b := a + |clauses[0]|;
       && b <= |s| && clauses[0] == s[a..b]
       && (forall j: nat | a <= j < b :: !IsCut(s, j))
       && if |clauses| == 1 then b == |s| else IsCut(s, b) && CutInto(s, b + 3, clauses[1..])
  }

  lemma CutText(s: string, i: nat)
    requires IsCut(s, i)
    ensures i + 3 <= |s| && EqIgnoreCase(s[i..i + 3], AND)
  {
  }

  /** A first clause and a cut of what follows it. */
  lemma CutOff(s: string, a: nat, first: string, rest: seq<string>)
    requires a + |first| <= |s| && first == s[a..a + |first|] && forall j: nat | a <= j < a + |first| :: !IsCut(s, j)
    requires if rest == [] then a + |first| == |s| else IsCut(s, a + |first|) && CutInto(s, a + |first| + 3, rest)
    ensures CutInto(s, a, [first] + rest)
  {
    hide IsCut;
    assert ([first] + rest)[1..] == rest;
  }

  lemma CutStarts(s: string, a: nat, clauses: seq<string>)
    requires CutInto(s, a, clauses)
    ensures clauses != [] && a + |clauses[0]| <= |s| && (forall j: nat | a <= j < a + |clauses[0]| :: !IsCut(s, j))
    ensures clauses[0] == s[a..a + |clauses[0]|]
    ensures if |clauses| == 1 then a + |clauses[0]| == |s|
            else IsCut(s, a + |clauses[0]|) && CutInto(s, a + |clauses[0]| + 3, clauses[1..])
  {
    hide IsCut;
  }

  lemma {:induction false} ClausesFromCuts(s: string, start: nat, i: nat)
    requires start <= |s| && i <= |s|
    requires forall j: nat | start <= j < i :: !IsCut(s, j)
    requires i < start ==> start >= 3 && IsCut(s, start - 3) && start - 3 < i
    ensures CutInto(s, start, ClausesFrom(s, start, i))
    decreases |s| - i
  {
    hide CutInto, IsCut;
    if i == |s| {
      assert s[start..] == s[start..|s|] && [s[start..]] + [] == [s[start..]];
      CutOff(s, start, s[start..], []);
    } else if IsCut(s, i) && start <= i {
      CutText(s, i);
      ClausesFromCuts(s, i + 3, i + 1);
      CutOff(s, start, s[start..i], ClausesFrom(s, i + 3, i + 1));
    } else {
      ClausesFromCuts(s, start, i + 1);
    }
  }

  /** `split_and_clauses` cuts exactly at the unquoted whole-word ANDs. */
  lemma SplitCutsExactly(s: string)
    requires Clauses(s).Ok?
    ensures CutInto(s, 0, Clauses(s).value)
  {
    ClausesFromCuts(s, 0, 0);
  }

  /** There is only one way to cut a text like that. */
  lemma {:induction false} CutIntoIsUnique(s: string, a: nat, xs: seq<string>, ys: seq<string>)
    requires CutInto(s, a, xs) && CutInto(s, a, ys)
    ensures xs == ys
    decreases |xs|
  {
    hide IsCut;
    FirstClauseIsUnique(s, a, xs, ys);
    FirstClauseIsUnique(s, a, ys, xs);
    if |xs| > 1 {
      CutIntoIsUnique(s, a + |xs[0]| + 3, xs[1..], ys[1..]);
      assert xs == [xs[0]] + xs[1..] && ys == [ys[0]] + ys[1..];
    }
  }

  lemma FirstClauseIsUnique(s: string, a: nat, xs: seq<string>, ys: seq<string>)
    requires CutInto(s, a, xs) && CutInto(s, a, ys)
    ensures |xs[0]| >= |ys[0]| && (|xs[0]| == |ys[0]| && |xs| > 1 ==> |ys| > 1)
  {
    hide IsCut;
    var b := a + |xs[0]|;
    assert |xs| > 1 ==> IsCut(s, b) && b + 3 <= |s|;
  }

  /** The clauses, with an AND in some spelling put back between each two. */
  ghost predicate Rejoins(clauses: seq<string>, s: string)
    decreases |clauses|
  {
    clauses != [] &&
    if |clauses| == 1 then s == clauses[0]
    else
      exists word, rest :: EqIgnoreCase(word, AND) && s == clauses[0] + word + rest && Rejoins(clauses[1..], rest)
  }

  lemma RejoinOne(clauses: seq<string>, word: string, rest: string)
    requires |clauses| > 1 && EqIgnoreCase(word, AND) && Rejoins(clauses[1..], rest)
    ensures Rejoins(clauses, clauses[0] + word + rest)
  {
    hide EqIgnoreCase;
  }

  lemma RejoinLast(clauses: seq<string>)
    requires |clauses| == 1
    ensures Rejoins(clauses, clauses[0])
  {
  }

  lemma {:induction false} CutIntoRejoins(s: string, a: nat, clauses: seq<string>)
    requires CutInto(s, a, clauses)
    ensures Rejoins(clauses, s[a..])
    decreases |clauses|
  {
    hide CutInto, IsCut, EqIgnoreCase, Rejoins;
    CutStarts(s, a, clauses);
    var b := a + |clauses[0]|;
    if |clauses| == 1 {
      assert s[a..] == s[a..b];
      RejoinLast(clauses);
    } else {
      CutText(s, b);
      CutIntoRejoins(s, b + 3, clauses[1..]);
      RejoinOne(clauses, s[b..b + 3], s[b + 3..]);
      ThreeParts(s, a, b, b + 3);
    }
  }

  lemma ThreeParts<T>(s: seq<T>, a: nat, b: nat, c: nat)
    requires a <= b <= c <= |s|
    ensures s[a..] == s[a..b] + s[b..c] + s[c..]
  {
  }

  lemma {:induction false} QuotesOfSlice(s: string, a: nat, b: nat, j: nat)
    requires a <= b <= |s| && j <= b - a
    ensures QuotesBefore(s, a + j) == QuotesBefore(s, a) + QuotesBefore(s[a..b], j)
  {
    if j > 0 {
      QuotesOfSlice(s, a, b, j - 1);
    }
  }

  lemma {:induction false} QuotesUnchanged(s: string, i: nat, j: nat)
    requires i <= j <= |s| && forall k | i <= k < j :: s[k] != QUOTE
    ensures QuotesBefore(s, j) == QuotesBefore(s, i)
  {
    if i < j {
      QuotesUnchanged(s, i, j - 1);
    }
  }

  lemma AfterCut(s: string, c: nat)
    requires IsCut(s, c)
    ensures c + 3 <= |s| && !Quoted(s, c + 3)
  {
    forall k | c <= k < c + 3 ensures s[k] != QUOTE {
      CutIsAWord(s, c, k);
    }
    QuotesUnchanged(s, c, c + 3);
  }

  /** A cut of a clause standing alone is a cut of the text. */
  lemma CutOfClause(s: string, a: nat, b: nat, j: nat)
    requires a <= b <= |s| && !Quoted(s, a)
    requires a == 0 || (a >= 3 && IsCut(s, a - 3))
    requires b == |s| || IsCut(s, b)
    requires IsCut(s[a..b], j)
    ensures IsCut(s, a + j) && a + j < b
  {
    QuotesOfSlice(s, a, b, j);
    CutIsAWord(s[a..b], j, j);
    CutIsAWord(s[a..b], j, j + 2);
    assert s[a..b][j] == s[a + j];
    SliceOfSlice(s, a, b, j, j + 3);
    if j > 0 { assert s[a..b][j - 1] == s[a + j - 1]; }
    if a + j + 3 < b { assert s[a..b][j + 3] == s[a + j + 3]; } else { assert s[a..b][j + 2] == s[b - 1]; }
  }

  lemma FirstClauseIsWhole(s: string, a: nat, b: nat)
    requires a <= b <= |s| && !Quoted(s, a) && !Quoted(s, b)
    requires a == 0 || (a >= 3 && IsCut(s, a - 3))
    requires b == |s| || IsCut(s, b)
    requires forall j: nat | a <= j < b :: !IsCut(s, j)
    ensures !Quoted(s[a..b], b - a)
    ensures !HasWord(s[a..b], AND)
  {
    QuotesOfSlice(s, a, b, b - a);
    forall j: nat | Outside(s[a..b], j) ensures !KeywordAt(s[a..b], j, AND) {
      if IsCut(s[a..b], j) { CutOfClause(s, a, b, j); }
    }
  }

  /** Clauses start and end outside a string, hold only complete strings and no unquoted AND. */
  lemma {:induction false} ClausesAreWhole(s: string, a: nat, clauses: seq<string>, k: nat)
    requires CutInto(s, a, clauses) && k < |clauses| && !Quoted(s, |s|) && !Quoted(s, a)
    requires a == 0 || (a >= 3 && IsCut(s, a - 3))
    ensures !Quoted(clauses[k], |clauses[k]|)
    ensures !HasWord(clauses[k], AND)
    decreases |clauses|
  {
    var b := a + |clauses[0]|;
    if k == 0 {
      FirstClauseIsWhole(s, a, b);
    } else {
      AfterCut(s, b);
      ClausesAreWhole(s, b + 3, clauses[1..], k - 1);
    }
  }

  // ---------- quoting complex field references ----------

  /** A rewritten text: plain characters and references to fields of the schema. */
  datatype Piece = Plain(c: char) | Reference(field: string)

  predicate IsComplex(field: string) {
    exists i | 0 <= i < |field| :: field[i] in {'.', '[', ']'}
  }

  function Doubled(text: string, c: char): string {
    if text == [] then []
    else (if text[0] == c then [c, c] else [text[0]]) + Doubled(text[1..], c)
  }

  function OriginalOf(p: Piece): string {
    match p
    case Plain(c) => [c]
    case Reference(field) => field
  }

  function RewrittenOf(p: Piece): string {
    match p
    case Plain(c) => [c]
    case Reference(field) => ['"'] + Doubled(field, '"') + ['"']
  }

  function Original(pieces: seq<Piece>): string {
    if pieces == [] then [] else Original(pieces[..|pieces| - 1]) + OriginalOf(pieces[|pieces| - 1])
  }

  function Rewritten(pieces: seq<Piece>): string {
    if pieces == [] then [] else Rewritten(pieces[..|pieces| - 1]) + RewrittenOf(pieces[|pieces| - 1])
  }

  /** `field` is the longest of `fields` that is referenced at `i`. */
  ghost predicate LongestAt(sql: string, i: nat, fields: seq<string>, field: string) {
    && field in fields && FieldReferenceAt(sql, i, field)
    && forall f | f in fields && FieldReferenceAt(sql, i, f) :: |f| <= |field|
  }

  /** Whether `pieces` end inside a string; an apostrophe in the name of a referenced field starts none. */
  predicate InString(pieces: seq<Piece>) {
    pieces != [] && InString(pieces[..|pieces| - 1]) != (pieces[|pieces| - 1] == Plain(QUOTE))
  }

  ghost predicate RightAt(sql: string, fields: seq<string>, at: nat, inString: bool, p: Piece)
    requires at < |sql|
  {
    var text := sql[at] != QUOTE && !inString;
    match p
    case Reference(field) => text && LongestAt(sql, at, fields, field)
    case Plain(c) => text ==> forall f | f in fields :: !FieldReferenceAt(sql, at, f)
  }

  /** Piece `k` is a reference exactly where an unquoted whole-word reference stands, and to the longest such field. */
  ghost predicate PieceIsRight(sql: string, fields: seq<string>, pieces: seq<Piece>, k: int)
    requires 0 <= k < |pieces|
  {
    var at := |Original(pieces[..k])|;
    at < |sql| && RightAt(sql, fields, at, InString(pieces[..k]), pieces[k])
  }

  ghost predicate AllRight(sql: string, fields: seq<string>, pieces: seq<Piece>) {
    forall k | 0 <= k < |pieces| :: PieceIsRight(sql, fields, pieces, k)
  }

  /** `pieces` account for the first `i` characters of the text and for all of `quoted`. */
  ghost predicate Accounts(sql: string, fields: seq<string>, pieces: seq<Piece>, i: nat, quoted: string) {
    && i <= |sql| && Original(pieces) == sql[..i] && Rewritten(pieces) == quoted
    && AllRight(sql, fields, pieces)
  }

  lemma AppendPiece(sql: string, fields: seq<string>, pieces: seq<Piece>, i: nat, quoted: string, p: Piece)
    requires Accounts(sql, fields, pieces, i, quoted) && i < |sql|
    requires i + |OriginalOf(p)| <= |sql| && sql[i..i + |OriginalOf(p)|] == OriginalOf(p)
    requires RightAt(sql, fields, i, InString(pieces), p)
    ensures InString(pieces + [p]) == (InString(pieces) != (p == Plain(QUOTE)))
    ensures Accounts(sql, fields, pieces + [p], i + |OriginalOf(p)|, quoted + RewrittenOf(p))
  {
    var more := pieces + [p];
    assert more[..|pieces|] == pieces;
    assert sql[..i] + OriginalOf(p) == sql[..i + |OriginalOf(p)|];
    forall k | 0 <= k < |more| ensures PieceIsRight(sql, fields, more, k) {
      if k < |pieces| {
        assert more[..k] == pieces[..k];
        assert PieceIsRight(sql, fields, pieces, k);
      }
    }
  }

  /** No name is tried before a longer one that starts with it, which sorting by length achieves. */
  predicate LongestFirst(fields: seq<string>) {
    forall i, j | 0 <= i < j < |fields| :: !(fields[i] < fields[j])
  }

  /** Of two names that stand at the same place, the shorter starts the longer. */
  lemma ShorterIsPrefix(sql: string, i: nat, f: string, g: string)
    requires TokenAt(sql, i, f) && TokenAt(sql, i, g) && |f| < |g|
    ensures f < g
  {
    SliceOfSlice(sql, i, i + |g|, 0, |f|);
  }

  /** The first of `fields` that is referenced at `i`. */
  method ReferencedField(sql: string, i: nat, fields: seq<string>) returns (found: Option<string>)
    requires LongestFirst(fields)
    ensures found.Some? ==> LongestAt(sql, i, fields, found.value)
    ensures found.None? ==> forall f | f in fields :: !FieldReferenceAt(sql, i, f)
  {
    for k := 0 to |fields|
      invariant forall m | 0 <= m < k :: !FieldReferenceAt(sql, i, fields[m])
    {
      if FieldReferenceAt(sql, i, fields[k]) {
        forall f | f in fields && FieldReferenceAt(sql, i, f) ensures |f| <= |fields[k]| {
          if |fields[k]| < |f| { ShorterIsPrefix(sql, i, fields[k], f); }
        }
        return Some(fields[k]);
      }
    }
    found := None;
  }

  lemma PlainAccounted(sql: string, fields: seq<string>, before: seq<Piece>, i: nat, quoted: string)
    requires i < |sql| && Accounts(sql, fields, before, i, quoted)
    requires sql[i] != QUOTE && !InString(before) ==> forall f | f in fields :: !FieldReferenceAt(sql, i, f)
    ensures Accounts(sql, fields, before + [Plain(sql[i])], i + 1, quoted + [sql[i]])
    ensures InString(before + [Plain(sql[i])]) == (InString(before) != (sql[i] == QUOTE))
  {
    assert sql[i..i + 1] == [sql[i]];
    AppendPiece(sql, fields, before, i, quoted, Plain(sql[i]));
  }

  /** Copy the apostrophe at `i`, or the doubled one inside a string. */
  method CopyQuote(sql: string, ghost fields: seq<string>, ghost before: seq<Piece>, i: nat, inString: bool, quoted: string)
    returns (next: nat, inString': bool, quoted': string, ghost pieces: seq<Piece>)
    requires i < |sql| && sql[i] == QUOTE && inString == InString(before)
    requires Accounts(sql, fields, before, i, quoted)
    ensures i < next <= |sql| && inString' == InString(pieces)
    ensures Accounts(sql, fields, pieces, next, quoted')
  {
    hide InString, Accounts;
    PlainAccounted(sql, fields, before, i, quoted);
    quoted', pieces := quoted + [QUOTE], before + [Plain(QUOTE)];
    next, inString' := i + 1, !inString;
    if inString && i + 1 < |sql| && sql[i + 1] == QUOTE {
      PlainAccounted(sql, fields, pieces, i + 1, quoted');
      quoted', pieces := quoted' + [QUOTE], pieces + [Plain(QUOTE)];
      next, inString' := i + 2, inString;
    }
  }

  /** Quote the field `f` referenced at `i`. */
  method CopyReference(sql: string, ghost fields: seq<string>, ghost before: seq<Piece>, i: nat, quoted: string, f: string)
    returns (next: nat, quoted': string, ghost pieces: seq<Piece>)
    requires i < |sql| && sql[i] != QUOTE && !InString(before) && LongestAt(sql, i, fields, f) && f != []
    requires Accounts(sql, fields, before, i, quoted)
    ensures i < next <= |sql| && !InString(pieces)
    ensures Accounts(sql, fields, pieces, next, quoted')
  {
    hide InString, Accounts;
    AppendPiece(sql, fields, before, i, quoted, Reference(f));
    next := i + |f|;
    quoted', pieces := quoted + RewrittenOf(Reference(f)), before + [Reference(f)];
  }

  /** Quote the field referenced at `i`, or copy the character there. */
  method CopyText(sql: string, fields: seq<string>, ghost before: seq<Piece>, i: nat, inString: bool, quoted: string)
    returns (next: nat, quoted': string, ghost pieces: seq<Piece>)
    requires i < |sql| && sql[i] != QUOTE && inString == InString(before)
    requires LongestFirst(fields) && forall f | f in fields :: IsComplex(f)
    requires Accounts(sql, fields, before, i, quoted)
    ensures i < next <= |sql| && inString == InString(pieces)
    ensures Accounts(sql, fields, pieces, next, quoted')
  {
    hide InString, Accounts;
    var field := None;
    if !inString {
      field := ReferencedField(sql, i, fields);
    }
    if field.Some? {
      next, quoted', pieces := CopyReference(sql, fields, before, i, quoted, field.value);
    } else {
      PlainAccounted(sql, fields, before, i, quoted);
      next, quoted', pieces := i + 1, quoted + [sql[i]], before + [Plain(sql[i])];
    }
  }

  /** `pieces` cut the whole text, each rightly. */
  ghost predicate Cuts(sql: string, fields: seq<string>, pieces: seq<Piece>) {
    Original(pieces) == sql && AllRight(sql, fields, pieces)
  }

  /**
   The rewrite replaces every unquoted whole-word reference to a complex field, the longest
   where several fit, by the quoted name and copies everything else, string literals included.
   There is only one way to do that.
   */
  method QuoteComplexFieldReferences(sql: string, fields: seq<string>) returns (quoted: string, ghost pieces: seq<Piece>)
    requires LongestFirst(fields) && forall f | f in fields :: IsComplex(f)
    ensures Cuts(sql, fields, pieces) && Rewritten(pieces) == quoted
    ensures forall other | Cuts(sql, fields, other) :: Rewritten(other) == quoted
  {
    quoted, pieces := [], [];
    var i, inString := 0, false;
    while i < |sql|
      invariant i <= |sql| && inString == InString(pieces)
      invariant Accounts(sql, fields, pieces, i, quoted)
    {
      if sql[i] == QUOTE {
        i, inString, quoted, pieces := CopyQuote(sql, fields, pieces, i, inString, quoted);
      } else {
        i, quoted, pieces := CopyText(sql, fields, pieces, i, inString, quoted);
      }
    }
    assert sql[..i] == sql;
    forall other | Cuts(sql, fields, other) ensures Rewritten(other) == quoted {
      CutsAreUnique(sql, fields, pieces, other);
    }
  }

  lemma {:induction false} OriginalOfPrefix(pieces: seq<Piece>, k: nat)
    requires k <= |pieces|
    ensures |Original(pieces[..k])| <= |Original(pieces)|
    ensures Original(pieces)[..|Original(pieces[..k])|] == Original(pieces[..k])
    decreases |pieces|
  {
    if k == |pieces| {
      assert pieces[..k] == pieces;
    } else {
      var init := pieces[..|pieces| - 1];
      assert init[..k] == pieces[..k];
      OriginalOfPrefix(init, k);
    }
  }

  /** What a piece of a cut stands for is the text at its place. */
  lemma PieceText(sql: string, fields: seq<string>, pieces: seq<Piece>, k: nat)
    requires Cuts(sql, fields, pieces) && k < |pieces|
    ensures var at := |Original(pieces[..k])|; var n := |OriginalOf(pieces[k])|;
      at + n <= |sql| && sql[at..at + n] == OriginalOf(pieces[k])
  {
    OriginalOfPrefix(pieces, k);
    OriginalOfPrefix(pieces, k + 1);
    assert pieces[..k + 1][..k] == pieces[..k];
    assert Original(pieces[..k + 1]) == Original(pieces[..k]) + OriginalOf(pieces[k]);
  }

  lemma PieceInPlace(sql: string, fields: seq<string>, pieces: seq<Piece>, k: nat)
    requires Cuts(sql, fields, pieces) && k < |pieces|
    ensures var at := |Original(pieces[..k])|; at < |sql| && RightAt(sql, fields, at, InString(pieces[..k]), pieces[k])
  {
    assert PieceIsRight(sql, fields, pieces, k);
  }

  lemma NextPieceAgrees(sql: string, fields: seq<string>, xs: seq<Piece>, ys: seq<Piece>, k: nat)
    requires Cuts(sql, fields, xs) && Cuts(sql, fields, ys) && k < |xs| && k < |ys| && xs[..k] == ys[..k]
    ensures xs[k] == ys[k]
  {
    hide Cuts, Original, OriginalOf, InString, RightAt;
    PieceInPlace(sql, fields, xs, k);
    PieceInPlace(sql, fields, ys, k);
    PieceText(sql, fields, xs, k);
    PieceText(sql, fields, ys, k);
    SamePiece(sql, fields, |Original(xs[..k])|, InString(xs[..k]), xs[k], ys[k]);
  }

  lemma {:induction false} CutsAgree(sql: string, fields: seq<string>, xs: seq<Piece>, ys: seq<Piece>, k: nat)
    requires Cuts(sql, fields, xs) && Cuts(sql, fields, ys) && k <= |xs| && k <= |ys|
    ensures xs[..k] == ys[..k]
  {
    if k > 0 {
      CutsAgree(sql, fields, xs, ys, k - 1);
      NextPieceAgrees(sql, fields, xs, ys, k - 1);
      assert xs[..k] == xs[..k - 1] + [xs[k - 1]] && ys[..k] == ys[..k - 1] + [ys[k - 1]];
    }
  }

  lemma SamePiece(sql: string, fields: seq<string>, at: nat, inString: bool, x: Piece, y: Piece)
    requires at < |sql| && RightAt(sql, fields, at, inString, x) && RightAt(sql, fields, at, inString, y)
    requires at + |OriginalOf(x)| <= |sql| && sql[at..at + |OriginalOf(x)|] == OriginalOf(x)
    requires at + |OriginalOf(y)| <= |sql| && sql[at..at + |OriginalOf(y)|] == OriginalOf(y)
    ensures x == y
  {
    if x.Plain? && y.Plain? {
      assert OriginalOf(x)[0] == x.c && OriginalOf(y)[0] == y.c;
    } else if x.Reference? && y.Reference? {
      assert |x.field| == |y.field|;
    }
  }

  lemma CutsAreUnique(sql: string, fields: seq<string>, xs: seq<Piece>, ys: seq<Piece>)
    requires Cuts(sql, fields, xs) && Cuts(sql, fields, ys)
    ensures xs == ys
  {
    var n := if |xs| < |ys| then |xs| else |ys|;
    CutsAgree(sql, fields, xs, ys, n);
    assert xs[..|xs|] == xs && ys[..|ys|] == ys;
    if |xs| < |ys| { PieceInPlace(sql, fields, ys, n); }
    if |ys| < |xs| { PieceInPlace(sql, fields, xs, n); }
  }

  /** The apostrophes in the names of the fields referenced. */
  function NameQuotes(pieces: seq<Piece>): nat {
    if pieces == [] then 0
    else
      var last := pieces[|pieces| - 1];
      NameQuotes(pieces[..|pieces| - 1]) + if last.Reference? then QuotesBefore(last.field, |last.field|) else 0
  }

  /**
   The rewrite sees the strings of the text, where an odd number of apostrophes precede, exactly
   when the names it has replaced so far hold an even number of apostrophes: none, usually.
   */
  lemma {:induction false} StringsAreQuoted(sql: string, fields: seq<string>, pieces: seq<Piece>, k: nat)
    requires Cuts(sql, fields, pieces) && k <= |pieces|
    ensures var at := |Original(pieces[..k])|;
      at <= |sql| && (InString(pieces[..k]) == Quoted(sql, at) <==> NameQuotes(pieces[..k]) % 2 == 0)
  {
    hide Cuts, OriginalOf, QuotesBefore;
    if k == 0 {
      assert pieces[..0] == [];
      NoQuotesYet(sql);
    } else {
      StringsAreQuoted(sql, fields, pieces, k - 1);
      PieceText(sql, fields, pieces, k - 1);
      assert pieces[..k][..k - 1] == pieces[..k - 1];
      QuotesOfPiece(sql, |Original(pieces[..k - 1])|, pieces[k - 1]);
    }
  }

  lemma NoQuotesYet(sql: string)
    ensures QuotesBefore(sql, 0) == 0
  {
  }

  lemma QuotesOfPiece(sql: string, at: nat, p: Piece)
    requires at + |OriginalOf(p)| <= |sql| && sql[at..at + |OriginalOf(p)|] == OriginalOf(p)
    ensures QuotesBefore(sql, at + |OriginalOf(p)|) == QuotesBefore(sql, at) +
      if p.Reference? then QuotesBefore(p.field, |p.field|) else if p == Plain(QUOTE) then 1 else 0
  {
    var next := at + |OriginalOf(p)|;
    match p
    case Plain(c) => assert sql[at] == sql[at..next][0] == c;
    case Reference(f) => QuotesOfSlice(sql, at, next, |f|);
  }
}
