/** The app SDK's filter printer (messaging.rs) against the gateway's compiler. */
module FilterRoundTrip {
  import opened Wrappers
  import opened Text
  import opened QuoteScan
  import opened FilterLang
  import opened FilterConjunction
  import opened FilterGrammar

  // When does the gateway read back exactly the equality the SDK wrote, or a conjunction of
  // comparisons?

  /** A JSON value; floating-point numbers carry their printed text. */
  datatype Json =
    | JString(s: string) | JBool(b: bool) | JInt(n: int) | JFloat(text: string) | JNull
    | JArray | JObject

  datatype Filter = Filter(path: string, value: Json)

  datatype SdkError = InvalidArgument

  /** `gateway_filter_literal`. */
  function GatewayLiteral(v: Json): Result<string, SdkError> {
    match v
    case JString(s) => Ok([QUOTE] + Doubled(s, QUOTE) + [QUOTE])
    case JBool(b) => Ok(if b then "true" else "false")
    case JInt(n) => Ok(FormatInt(n))
    case JFloat(text) => Ok(text)
    case JNull => Ok("null")
    case JArray => Err(InvalidArgument)
    case JObject => Err(InvalidArgument)
  }

  /** `Filter::to_gateway_filter`. */
  function ToGatewayFilter(f: Filter): Result<string, SdkError> {
    if |f.path| < 2 || f.path[..2] != "$." then Err(InvalidArgument)
    else
      var field := f.path[2..];
      var segments := SplitDots(field);
      if field == [] || exists k | 0 <= k < |segments| :: !IsIdentifier(segments[k]) then Err(InvalidArgument)
      else
        var literal := GatewayLiteral(f.value);
        if literal.Err? then literal else Ok(field + " = " + literal.value)
  }

  /**
   How a finite float prints: digits, a point between digits, an exponent, a minus sign, and
   at least one of the point and the exponent.
   */
  predicate FloatText(s: string) {
    && s != [] && LooksFloat(s)
    && forall i | 0 <= i < |s| :: IsDigit(s[i]) || s[i] in {'-', 'e'} || (s[i] == '.' && DecimalPointAt(s, i))
  }

  /** What a value the gateway's number parser can hold stands for. */
  function Meaning(build: Build, v: Json): Option<FilterValue> {
    match v
    case JString(s) => Some(Str(s))
    case JBool(b) => Some(Bool(b))
    case JInt(n) => if I64_MIN <= n <= U64_MAX then Some(Number(Integer(n))) else None
    case JFloat(text) =>
      if FloatText(text) && build.finiteFloat(text) then Some(Number(Float(text))) else None
    case JNull => Some(Null)
    case JArray => None
    case JObject => None
  }

  // ---------- doubled apostrophes ----------

  lemma {:induction false} UnescapeDoubled(s: string)
    ensures Unescaped(Doubled(s, QUOTE)) == s
  {
    if s != [] {
      UnescapeDoubled(s[1..]);
      var tail := Doubled(s[1..], QUOTE);
      if s[0] == QUOTE {
        assert Doubled(s, QUOTE)[2..] == tail;
      } else {
        assert Doubled(s, QUOTE)[1..] == tail;
      }
    }
  }

  /** After doubling, an even number of apostrophes precedes every other character. */
  lemma {:induction false} DoubledIsEven(s: string, j: nat)
    requires j <= |Doubled(s, QUOTE)|
    requires j == |Doubled(s, QUOTE)| || Doubled(s, QUOTE)[j] != QUOTE
    ensures QuotesBefore(Doubled(s, QUOTE), j) % 2 == 0
  {
    if s != [] && j > 0 {
      hide QuotesBefore;
      var head := if s[0] == QUOTE then [QUOTE, QUOTE] else [s[0]];
      var tail := Doubled(s[1..], QUOTE);
      assert Doubled(s, QUOTE) == head + tail;
      if j >= |head| {
        if j < |head + tail| { assert tail[j - |head|] == (head + tail)[j]; }
        DoubledIsEven(s[1..], j - |head|);
        QuotesOfConcat(head, tail, j - |head|);
        HeadIsEven(s[0]);
      }
    }
  }

  lemma HeadIsEven(c: char)
    ensures var head := if c == QUOTE then [QUOTE, QUOTE] else [c]; QuotesBefore(head, |head|) % 2 == 0
  {
    if c == QUOTE { assert QuotesBefore([c, c], 2) == QuotesBefore([c, c], 1) + 1 == QuotesBefore([c, c], 0) + 2; }
    else { assert QuotesBefore([c], 1) == QuotesBefore([c], 0); }
  }

  lemma QuotesAfterOpening(s: string, j: nat)
    requires j <= |Doubled(s, QUOTE)|
    ensures QuotesBefore([QUOTE] + Doubled(s, QUOTE) + [QUOTE], j + 1) == 1 + QuotesBefore(Doubled(s, QUOTE), j)
  {
    var inner := Doubled(s, QUOTE);
    var rest := inner + [QUOTE];
    assert [QUOTE] + inner + [QUOTE] == [QUOTE] + rest;
    assert QuotesBefore([QUOTE], 1) == QuotesBefore([QUOTE], 0) + 1 == 1;
    QuotesOfConcat([QUOTE], rest, j);
    QuotesOfSlice(rest, 0, |inner|, j);
    assert rest[0..|inner|] == inner;
  }

  lemma StringLiteralHidesEverything(s: string, j: nat)
    ensures !Outside([QUOTE] + Doubled(s, QUOTE) + [QUOTE], j)
  {
    var inner := Doubled(s, QUOTE);
    var lit := [QUOTE] + inner + [QUOTE];
    if 0 < j <= |inner| && lit[j] != QUOTE {
      assert inner[j - 1] == lit[j];
      DoubledIsEven(s, j - 1);
      QuotesAfterOpening(s, j - 1);
    }
  }

  lemma StringLiteralIsClosed(s: string)
    ensures var lit := [QUOTE] + Doubled(s, QUOTE) + [QUOTE]; !Quoted(lit, |lit|)
  {
    DoubledIsEven(s, |Doubled(s, QUOTE)|);
    QuotesAfterOpening(s, |Doubled(s, QUOTE)|);
  }

  // ---------- literals ----------

  predicate Plain(s: string, j: nat)
    requires j < |s|
  {
    IsIdentifierChar(s[j]) || s[j] == '-' || (s[j] == '.' && DecimalPointAt(s, j))
  }

  /** What every printed literal has in common: it is closed, trimmed, and bare outside its strings. */
  ghost predicate Clean(lit: string) {
    && lit != [] && !IsWhitespace(lit[0]) && !IsWhitespace(lit[|lit| - 1])
    && !Quoted(lit, |lit|)
    && forall j: nat | Outside(lit, j) :: Plain(lit, j)
  }

  ghost predicate Keywordless(lit: string) {
    && !HasWord(lit, "AND") && !HasWord(lit, "OR") && !HasWord(lit, "IN")
    && !HasWord(lit, "IS") && !HasWord(lit, "LIKE")
    && !HasFieldReference(lit, RESERVED_ROW_MARKER_FIELD)
  }

  lemma BareIsClosed(lit: string)
    requires QUOTE !in lit
    ensures !Quoted(lit, |lit|)
  {
    QuotesUnchanged(lit, 0, |lit|);
  }

  lemma NumberIsKeywordless(lit: string)
    requires forall i | 0 <= i < |lit| :: IsDigit(lit[i]) || lit[i] in {'-', 'e', '.'}
    ensures Keywordless(lit)
  {
    forall j: nat, word: string | word in {"AND", "OR", "IN", "IS", "LIKE"}
      ensures !KeywordAt(lit, j, word)
    {
      if KeywordAt(lit, j, word) { KeywordStart(lit, j, word); }
    }
    forall j: nat ensures !FieldReferenceAt(lit, j, RESERVED_ROW_MARKER_FIELD) {
      if FieldReferenceAt(lit, j, RESERVED_ROW_MARKER_FIELD) { ReferenceStart(lit, j, RESERVED_ROW_MARKER_FIELD); }
    }
  }

  /** Nor does one of the three literal words. */
  lemma WordIsKeywordless(lit: string)
    requires lit in {"true", "false", "null"}
    ensures Keywordless(lit)
  {
    forall j: nat, word: string | word in {"AND", "OR", "IN", "IS", "LIKE"}
      ensures !KeywordAt(lit, j, word)
    {
      if j == 0 && KeywordAt(lit, j, word) { KeywordStart(lit, j, word); }
      assert 0 < j <= |lit| ==> IsIdentifierChar(lit[j - 1]);
    }
  }

  lemma StringIsClean(s: string)
    ensures var lit := [QUOTE] + Doubled(s, QUOTE) + [QUOTE]; Clean(lit) && Keywordless(lit)
  {
    var lit := [QUOTE] + Doubled(s, QUOTE) + [QUOTE];
    forall j: nat ensures !Outside(lit, j) { StringLiteralHidesEverything(s, j); }
    StringLiteralIsClosed(s);
  }

  lemma IntegerDigits(n: int)
    ensures var lit := FormatInt(n);
      && lit != [] && (forall i | 0 <= i < |lit| :: IsDigit(lit[i]) || lit[i] == '-')
  {
  }

  lemma PrintedIsClean(build: Build, v: Json)
    requires Meaning(build, v).Some?
    ensures GatewayLiteral(v).Ok? && Clean(GatewayLiteral(v).value) && Keywordless(GatewayLiteral(v).value)
  {
    hide Clean, Keywordless, FloatText, FormatInt;
    match v
    case JString(s) => StringIsClean(s);
    case JBool(b) => WordIsClean(GatewayLiteral(v).value);
    case JNull => WordIsClean(GatewayLiteral(v).value);
    case JInt(n) => IntegerIsClean(n);
    case JFloat(text) => FloatIsClean(text);
  }

  lemma WordIsClean(lit: string)
    requires lit in {"true", "false", "null"}
    ensures Clean(lit) && Keywordless(lit)
  {
    hide Keywordless;
    BareIsClosed(lit);
    WordIsKeywordless(lit);
  }

  lemma IntegerIsClean(n: int)
    ensures Clean(FormatInt(n)) && Keywordless(FormatInt(n))
  {
    hide Keywordless, FormatInt;
    IntegerDigits(n);
    BareIsClosed(FormatInt(n));
    NumberIsKeywordless(FormatInt(n));
  }

  lemma FloatIsClean(text: string)
    requires FloatText(text)
    ensures Clean(text) && Keywordless(text)
  {
    hide Keywordless;
    BareIsClosed(text);
    NumberIsKeywordless(text);
  }

  lemma StringRoundTrip(build: Build, s: string)
    ensures LiteralValue(build, [QUOTE] + Doubled(s, QUOTE) + [QUOTE]) == Ok(Str(s))
  {
    var lit := [QUOTE] + Doubled(s, QUOTE) + [QUOTE];
    TrimNothing(lit);
    assert lit[1..|lit| - 1] == Doubled(s, QUOTE);
    UnescapeDoubled(s);
    FirstCharDiffers(lit);
  }

  lemma NumericRoundTrip(build: Build, v: Json)
    requires (v.JInt? || v.JFloat?) && Meaning(build, v).Some?
    ensures Meaning(build, v).value.Number?
    ensures Numeric(build, GatewayLiteral(v).value) == Some(Meaning(build, v).value.n)
  {
    if v.JInt? {
      IntegerDigits(v.n);
      FormatThenParse(v.n);
      assert !LooksFloat(FormatInt(v.n));
    }
  }

  lemma NumberRoundTrip(build: Build, v: Json)
    requires (v.JInt? || v.JFloat?) && Meaning(build, v).Some?
    ensures LiteralValue(build, GatewayLiteral(v).value) == Ok(Meaning(build, v).value)
  {
    var lit := GatewayLiteral(v).value;
    NumericRoundTrip(build, v);
    if v.JInt? { IntegerDigits(v.n); }
    TrimNothing(lit);
    FirstCharDiffers(lit);
  }

  /** The literal parser reads every printed value back. */
  lemma LiteralRoundTrip(build: Build, v: Json)
    requires Meaning(build, v).Some?
    ensures GatewayLiteral(v).Ok?
    ensures LiteralValue(build, GatewayLiteral(v).value) == Ok(Meaning(build, v).value)
  {
    if v.JString? {
      StringRoundTrip(build, v.s);
    } else if v.JInt? || v.JFloat? {
      NumberRoundTrip(build, v);
    } else {
      TrimNothing(GatewayLiteral(v).value);
      assert v.JNull? ==> Lower(GatewayLiteral(v).value[0]) == 'n';
    }
  }

  /** A literal that begins with none of t, f and n is not one of the three words. */
  lemma FirstCharDiffers(lit: string)
    requires lit != [] && (lit[0] == QUOTE || IsDigit(lit[0]) || lit[0] in {'-', 'e', '.'})
    ensures !EqIgnoreCase(lit, "true") && !EqIgnoreCase(lit, "false") && !EqIgnoreCase(lit, "null")
  {
    assert Lower(lit[0]) == lit[0];
  }

  // ---------- reading it back ----------

  /** A clean literal, with the space printed before it, holds no second operator. */
  lemma NoSecondOperator(lit: string)
    requires Clean(lit)
    ensures OperatorFree([' '] + lit)
  {
    var s := [' '] + lit;
    QuotesOfConcat([' '], lit, |lit|);
    assert QuotesBefore([' '], 1) == QuotesBefore([' '], 0) == 0;
    forall i: nat, k | Outside(s, i) && 0 <= k < |OPERATORS| ensures !TokenAt(s, i, OPERATORS[k].0) {
      if i > 0 {
        QuotesOfConcat([' '], lit, i - 1);
        assert Outside(lit, i - 1);
        assert Plain(lit, i - 1);
      }
      if TokenAt(s, i, OPERATORS[k].0) { TokenStart(s, i, OPERATORS[k].0); }
    }
  }

  /** A field, an operator and a literal, written with single spaces. */
  function Comparison(field: string, k: nat, lit: string): string
    requires k < |OPERATORS|
  {
    (field + [' '] + OPERATORS[k].0 + [' ']) + lit
  }

  lemma BareComparison(field: string, k: nat)
    requires IsIdentifier(field) && k < |OPERATORS|
    ensures var prefix := field + [' '] + OPERATORS[k].0 + [' ']; forall j: nat | j <= |prefix| :: QuotesBefore(prefix, j) == 0
  {
    var prefix := field + [' '] + OPERATORS[k].0 + [' '];
    OperatorTexts(k);
    forall j | 0 <= j < |prefix| ensures prefix[j] != QUOTE { if j < |field| { assert IsIdentifierChar(field[j]); } }
    forall j: nat | j <= |prefix| ensures QuotesBefore(prefix, j) == 0 { QuotesUnchanged(prefix, 0, j); }
  }

  lemma ComparisonIsClosed(field: string, k: nat, lit: string)
    requires IsIdentifier(field) && Clean(lit) && k < |OPERATORS|
    ensures var text := Comparison(field, k, lit);
      !Quoted(text, |text|) && |field| + 1 < |text| && !Quoted(text, |field| + 1)
  {
    var prefix := field + [' '] + OPERATORS[k].0 + [' '];
    var text := Comparison(field, k, lit);
    BareComparison(field, k);
    QuotesOfConcat(prefix, lit, |lit|);
    assert text[0..|prefix|] == prefix;
    QuotesOfSlice(text, 0, |prefix|, |field| + 1);
  }

  /** Each of the six operators is read as itself, whatever operators the literal's strings hold. */
  lemma OperatorIsRead(field: string, k: nat, lit: string)
    requires IsIdentifier(field) && Clean(lit) && k < |OPERATORS|
    ensures SplitFrom(Comparison(field, k, lit), 0) == Ok(Split(OPERATORS[k].1, field + [' '], [' '] + lit))
  {
    hide SplitFrom, OperatorFree, FilterGrammar.Plain;
    IdentifierIsTrimmed(field);
    FieldIsPlain(field + [' ']);
    NoSecondOperator(lit);
    SplitReads(field + [' '], k, [' '] + lit);
    assert Comparison(field, k, lit) == field + [' '] + OPERATORS[k].0 + ([' '] + lit);
  }

  /** A comparison of a field with a printed value is read back, unless it orders a boolean or null. */
  lemma ComparisonRoundTrip(build: Build, field: string, k: nat, v: Json)
    requires IsIdentifier(field) && k < |OPERATORS| && Meaning(build, v).Some?
    ensures GatewayLiteral(v).Ok?
    ensures Clause(build, Comparison(field, k, GatewayLiteral(v).value)) ==
      if OPERATORS[k].1 in {Equal, NotEqual} || v.JString? || v.JInt? || v.JFloat?
      then Ok(Predicate(field, OPERATORS[k].1, Meaning(build, v).value))
      else Err(UnsupportedSql)
  {
    hide SplitFrom, LiteralValue, Clause, Trim;
    PrintedIsClean(build, v);
    var lit := GatewayLiteral(v).value;
    OperatorIsRead(field, k, lit);
    TrimLeadingSpace(lit);
    LiteralRoundTrip(build, v);
    ClauseFromSplit(build, Comparison(field, k, lit), field, OPERATORS[k].1, lit, Meaning(build, v).value);
  }

  lemma ClauseFromSplit(build: Build, clause: string, field: string, op: ComparisonOperator, lit: string, v: FilterValue)
    requires clause != [] && SplitFrom(clause, 0) == Ok(Split(op, field + [' '], [' '] + lit))
    requires IsIdentifier(field) && Trim([' '] + lit) == lit && LiteralValue(build, lit) == Ok(v)
    ensures Clause(build, clause) == if AcceptsLiteral(op, v) then Ok(Predicate(field, op, v)) else Err(UnsupportedSql)
  {
    hide SplitFrom, LiteralValue, TrimStart, TrimEnd, Trim;
    IdentifierIsTrimmed(field);
    assert SplitDots(field) == [field];
  }

  lemma IdentifierIsTrimmed(field: string)
    requires IsIdentifier(field)
    ensures '.' !in field && Trim(field) == field && Trim(field + [' ']) == field
  {
    assert IsIdentifierChar(field[|field| - 1]) && IsIdentifierChar(field[0]);
    assert forall i | 0 <= i < |field| :: IsIdentifierChar(field[i]);
    TrimNothing(field);
    TrimTrailingSpace(field);
  }

  /** A parsed predicate always names a single identifier. */
  lemma ParsedFieldIsIdentifier(build: Build, clauses: seq<string>)
    requires ClausePredicates(build, clauses).Ok? && ClausePredicates(build, clauses).value != []
    ensures IsIdentifier(ClausePredicates(build, clauses).value[0].field)
  {
  }

  // ---------- what a comparison mentions ----------

  predicate IsEngineKeyword(field: string) {
    EqIgnoreCase(field, "OR") || EqIgnoreCase(field, "IN") || EqIgnoreCase(field, "IS") || EqIgnoreCase(field, "LIKE")
  }

  function Infix(k: nat): string
    requires k < |OPERATORS|
  {
    [' '] + OPERATORS[k].0 + [' ']
  }

  /** A text without identifier characters mentions nothing. */
  lemma Wordless(s: string, word: string)
    requires IsIdentifier(word) && forall i | 0 <= i < |s| :: !IsIdentifierChar(s[i])
    ensures !HasWord(s, word) && !HasFieldReference(s, word)
  {
    forall i: nat | Outside(s, i) ensures !KeywordAt(s, i, word) {
      if KeywordAt(s, i, word) { KeywordIsSpelled(s, i, word); SpelledChars(s, i, s[i..i + |word|]); }
    }
    forall i: nat | Outside(s, i) ensures !FieldReferenceAt(s, i, word) {
      if FieldReferenceAt(s, i, word) { SpelledChars(s, i, word); }
    }
  }

  lemma InfixChars(k: nat)
    requires k < |OPERATORS|
    ensures var s := Infix(k);
      && |s| >= 2 && s[0] == ' ' && s[|s| - 1] == ' '
      && forall i | 0 <= i < |s| :: s[i] == ' ' || IsOperatorChar(s[i])
  {
    OperatorTexts(k);
  }

  lemma InfixIsBare(k: nat)
    requires k < |OPERATORS|
    ensures Separator(Infix(k)) && !RequiresDataFusion(Infix(k)) && !HasWord(Infix(k), AND)
    ensures !HasFieldReference(Infix(k), RESERVED_ROW_MARKER_FIELD)
  {
    hide HasWord, HasFieldReference, Infix;
    var s := Infix(k);
    InfixChars(k);
    Wordless(s, "OR");
    Wordless(s, "IN");
    Wordless(s, "IS");
    Wordless(s, "LIKE");
    Wordless(s, AND);
    Wordless(s, RESERVED_ROW_MARKER_FIELD);
  }

  /** An identifier is its own only word. */
  lemma FieldIsOneWord(field: string, i: nat, w: string)
    requires IsIdentifier(field) && IsWord(w)
    ensures Spelled(field, i, w) <==> i == 0 && w == field
  {
    BareIsOutside(field, 0);
    assert field[0..|field|] == field;
    assert 0 < i <= |field| ==> IsIdentifierChar(field[i - 1]);
    assert i + |w| < |field| ==> IsIdentifierChar(field[i + |w|]);
  }

  lemma FieldHasWord(field: string, word: string)
    requires IsIdentifier(field) && IsIdentifier(word)
    ensures HasWord(field, word) <==> EqIgnoreCase(field, word)
  {
    FieldIsOneWord(field, 0, field);
    if EqIgnoreCase(field, word) { HasWordMeans(field, word, field); }
    if i: nat :| Outside(field, i) && KeywordAt(field, i, word) {
      KeywordIsSpelled(field, i, word);
      FieldIsOneWord(field, i, field[i..i + |word|]);
    }
  }

  lemma FieldReferences(field: string, name: string)
    requires IsIdentifier(field) && IsIdentifier(name)
    ensures HasFieldReference(field, name) <==> field == name
  {
    ReferenceMeans(field, name);
    FieldIsOneWord(field, 0, name);
    if i: nat :| Spelled(field, i, name) { FieldIsOneWord(field, i, name); }
  }

  lemma FieldNeedsDataFusion(field: string)
    requires IsIdentifier(field)
    ensures Closed(field) && (RequiresDataFusion(field) <==> IsEngineKeyword(field))
  {
    hide HasWord, EqIgnoreCase;
    assert forall i | 0 <= i < |field| :: IsIdentifierChar(field[i]);
    BareIsOutside(field, |field|);
    FieldHasWord(field, "OR");
    FieldHasWord(field, "IN");
    FieldHasWord(field, "IS");
    FieldHasWord(field, "LIKE");
  }

  lemma LiteralNeedsNothing(lit: string)
    requires Clean(lit) && Keywordless(lit)
    ensures !RequiresDataFusion(lit)
  {
    forall i: nat | Outside(lit, i)
      ensures lit[i] !in {'(', ')', '[', ']'} && (lit[i] == '.' ==> DecimalPointAt(lit, i))
    {
      assert Plain(lit, i);
    }
  }

  /** A comparison mentions its field, and nothing else that the compiler looks for. */
  lemma ComparisonMentions(field: string, k: nat, lit: string)
    requires IsIdentifier(field) && k < |OPERATORS| && Clean(lit) && Keywordless(lit)
    ensures var text := Comparison(field, k, lit);
      && Conjunct(text)
      && (HasWord(text, AND) <==> EqIgnoreCase(field, AND))
      && (HasFieldReference(text, RESERVED_ROW_MARKER_FIELD) <==> field == RESERVED_ROW_MARKER_FIELD)
      && (RequiresDataFusion(text) <==> IsEngineKeyword(field))
  {
    hide HasWord, HasFieldReference, RequiresDataFusion, EqIgnoreCase, IsEngineKeyword;
    assert Comparison(field, k, lit) == field + Infix(k) + lit;
    InfixIsBare(k);
    FieldNeedsDataFusion(field);
    LiteralNeedsNothing(lit);
    HasWordJoined(field, Infix(k), lit, AND);
    FieldHasWord(field, AND);
    HasReferenceJoined(field, Infix(k), lit, RESERVED_ROW_MARKER_FIELD);
    FieldReferences(field, RESERVED_ROW_MARKER_FIELD);
    NeedsDataFusionJoined(field, Infix(k), lit);
    ComparisonIsConjunct(field, k, lit);
  }

  lemma ComparisonIsConjunct(field: string, k: nat, lit: string)
    requires IsIdentifier(field) && k < |OPERATORS| && Clean(lit)
    ensures Conjunct(Comparison(field, k, lit))
  {
    ComparisonIsClosed(field, k, lit);
    var text := Comparison(field, k, lit);
    assert IsIdentifierChar(field[0]) && text[0] == field[0] && text[|text| - 1] == lit[|lit| - 1];
  }

  // ---------- the round trip ----------

  /** A field name the gateway's filter language can say, in a given build. */
  predicate Sayable(build: Build, field: string) {
    && '.' !in field
    && field != RESERVED_ROW_MARKER_FIELD
    && !EqIgnoreCase(field, AND)
    && (build.arrow || !IsEngineKeyword(field))
  }

  /** A comparison of a field with a value, by the `k`-th operator of the list. */
  datatype Condition = Condition(field: string, k: nat, value: Json)

  predicate Writable(build: Build, c: Condition) {
    && IsIdentifier(c.field) && c.k < |OPERATORS| && Meaning(build, c.value).Some?
    && AcceptsLiteral(OPERATORS[c.k].1, Meaning(build, c.value).value)
  }

  predicate AllWritable(build: Build, conditions: seq<Condition>) {
    conditions != [] && forall i | 0 <= i < |conditions| :: Writable(build, conditions[i])
  }

  function TextOf(build: Build, c: Condition): string
    requires Writable(build, c)
  {
    Comparison(c.field, c.k, GatewayLiteral(c.value).value)
  }

  function PredicateOf(build: Build, c: Condition): Predicate
    requires Writable(build, c)
  {
    Predicate(c.field, OPERATORS[c.k].1, Meaning(build, c.value).value)
  }

  function Texts(build: Build, conditions: seq<Condition>): seq<string>
    requires AllWritable(build, conditions)
  {
    seq(|conditions|, i requires 0 <= i < |conditions| => TextOf(build, conditions[i]))
  }

  function Predicates(build: Build, conditions: seq<Condition>): seq<Predicate>
    requires AllWritable(build, conditions)
  {
    seq(|conditions|, i requires 0 <= i < |conditions| => PredicateOf(build, conditions[i]))
  }

  lemma ConditionReadsBack(build: Build, c: Condition)
    requires Writable(build, c)
    ensures Clause(build, Trim(TextOf(build, c))) == Ok(PredicateOf(build, c))
  {
    hide Clause, Trim, Conjunct;
    var lit := GatewayLiteral(c.value).value;
    PrintedIsClean(build, c.value);
    ComparisonRoundTrip(build, c.field, c.k, c.value);
    ComparisonIsConjunct(c.field, c.k, lit);
    PieceTrims([], TextOf(build, c), []);
    assert [] + TextOf(build, c) + [] == TextOf(build, c);
  }

  lemma {:induction false} ConditionsReadBack(build: Build, conditions: seq<Condition>)
    requires AllWritable(build, conditions)
    ensures ClausePredicates(build, Texts(build, conditions)) == Ok(Predicates(build, conditions))
    decreases |conditions|
  {
    hide Clause, Trim, TextOf, PredicateOf, Writable;
    var texts, ps, rest := Texts(build, conditions), Predicates(build, conditions), conditions[1..];
    ConditionReadsBack(build, conditions[0]);
    if rest == [] {
      assert texts[1..] == [] && ps == [ps[0]] + [];
      assert ClausePredicates(build, texts[1..]) == Ok([]);
    } else {
      ConditionsReadBack(build, rest);
      assert texts[1..] == Texts(build, rest) && ps == [ps[0]] + Predicates(build, rest);
    }
  }

  lemma ConditionMentions(build: Build, c: Condition)
    requires Writable(build, c)
    ensures var text := TextOf(build, c);
      && Conjunct(text)
      && (HasWord(text, AND) <==> EqIgnoreCase(c.field, AND))
      && (HasFieldReference(text, RESERVED_ROW_MARKER_FIELD) <==> c.field == RESERVED_ROW_MARKER_FIELD)
      && (RequiresDataFusion(text) <==> IsEngineKeyword(c.field))
  {
    PrintedIsClean(build, c.value);
    ComparisonMentions(c.field, c.k, GatewayLiteral(c.value).value);
  }

  /** The clauses are read as the conditions exactly when no field is AND. */
  lemma ConjunctionClauses(build: Build, conditions: seq<Condition>)
    requires AllWritable(build, conditions)
    ensures LegacyPredicates(build, Joined(Texts(build, conditions))) == Ok(Predicates(build, conditions)) <==>
      forall i | 0 <= i < |conditions| :: !EqIgnoreCase(conditions[i].field, AND)
  {
    hide LegacyPredicates, TextOf, PredicateOf, Writable, Joined, Conjunct, HasWord, EqIgnoreCase;
    var texts := Texts(build, conditions);
    forall i | 0 <= i < |conditions|
      ensures Conjunct(texts[i]) && (HasWord(texts[i], AND) <==> EqIgnoreCase(conditions[i].field, AND))
    {
      ConditionMentions(build, conditions[i]);
    }
    if i :| 0 <= i < |conditions| && EqIgnoreCase(conditions[i].field, AND) {
      AndIsRefused(build, conditions, i);
    } else {
      ConjunctionParses(build, texts);
      ConditionsReadBack(build, conditions);
    }
  }

  lemma AndIsRefused(build: Build, conditions: seq<Condition>, i: nat)
    requires AllWritable(build, conditions) && i < |conditions| && EqIgnoreCase(conditions[i].field, AND)
    ensures LegacyPredicates(build, Joined(Texts(build, conditions))).Err?
  {
    hide LegacyPredicates, Joined;
    var texts := Texts(build, conditions);
    forall k | 0 <= k < |texts| ensures Closed(texts[k]) { ConditionMentions(build, conditions[k]); }
    var c := conditions[i];
    var lit := GatewayLiteral(c.value).value;
    BareComparison(c.field, c.k);
    assert texts[i][0..3] == c.field && texts[i][3] == ' ';
    BareIsOutside(c.field, 0);
    AndConjunctIsRefused(build, texts, i);
  }

  /** What compiling a trimmed text comes to, given what its scanners and its parser say. */
  lemma CompiledTrimmed(build: Build, text: string, ps: seq<Predicate>)
    requires text != [] && Trim(text) == text && ps != []
    ensures Compiled(build, text) == Ok(CompiledFilter(text, ps)) <==>
      (&& !HasFieldReference(text, RESERVED_ROW_MARKER_FIELD)
       && (build.arrow || !RequiresDataFusion(text))
       && LegacyPredicates(build, text) == Ok(ps))
  {
  }

  ghost predicate ReadsBack(build: Build, conditions: seq<Condition>, text: string)
    requires AllWritable(build, conditions)
  {
    Compiled(build, text) == Ok(CompiledFilter(text, Predicates(build, conditions)))
  }

  /**
   Comparisons joined by AND compile to exactly their predicates, in order, if and only if each
   field is neither the reserved marker, nor AND, nor, without the DataFusion engine, one of the
   keywords that engine handles.
   */
  lemma ConjunctionRoundTrips(build: Build, conditions: seq<Condition>)
    requires AllWritable(build, conditions)
    ensures ReadsBack(build, conditions, Joined(Texts(build, conditions))) <==>
      forall i | 0 <= i < |conditions| :: Sayable(build, conditions[i].field)
  {
    hide Compiled, LegacyPredicates, TextOf, PredicateOf, Joined, HasWord, HasFieldReference, RequiresDataFusion, EqIgnoreCase;
    var texts := Texts(build, conditions);
    forall i | 0 <= i < |conditions|
      ensures Conjunct(texts[i])
      ensures HasFieldReference(texts[i], RESERVED_ROW_MARKER_FIELD) <==> conditions[i].field == RESERVED_ROW_MARKER_FIELD
      ensures RequiresDataFusion(texts[i]) <==> IsEngineKeyword(conditions[i].field)
      ensures '.' !in conditions[i].field
    {
      ConditionMentions(build, conditions[i]);
      IdentifierIsTrimmed(conditions[i].field);
    }
    JoinedIsClosed(texts);
    PieceTrims([], Joined(texts), []);
    assert [] + Joined(texts) + [] == Joined(texts);
    JoinedReferences(texts);
    JoinedNeedsDataFusion(texts);
    ConjunctionClauses(build, conditions);
    CompiledTrimmed(build, Joined(texts), Predicates(build, conditions));
  }

  lemma DottedFieldIsLost(build: Build, text: string, p: Predicate)
    requires '.' in p.field
    ensures Compiled(build, text) != Ok(CompiledFilter(text, [p]))
  {
    var ps := LegacyPredicates(build, Trim(text));
    if ps.Ok? && ps.value != [] {
      ParsedFieldIsIdentifier(build, Clauses(Trim(text)).value);
      IdentifierIsTrimmed(ps.value[0].field);
    }
  }

  /**
   The gateway reads an SDK filter back as exactly the equality it was printed from if, and
   only if, its field is a single segment that is neither the reserved marker, nor AND, nor,
   without the DataFusion engine, one of the keywords that engine handles.
   */
  lemma FilterRoundTrips(build: Build, f: Filter)
    requires ToGatewayFilter(f).Ok? && Meaning(build, f.value).Some?
    ensures var field, text := f.path[2..], ToGatewayFilter(f).value;
      Compiled(build, text) == Ok(CompiledFilter(text, [Predicate(field, Equal, Meaning(build, f.value).value)]))
      <==> Sayable(build, field)
  {
    var field, text := f.path[2..], ToGatewayFilter(f).value;
    var p := Predicate(field, Equal, Meaning(build, f.value).value);
    if '.' in field {
      DottedFieldIsLost(build, text, p);
    } else {
      assert IsIdentifier(SplitDots(field)[0]);
      var c := Condition(field, 3, f.value);
      OneConditionRoundTrips(build, c, text, p);
    }
  }

  lemma OneConditionRoundTrips(build: Build, c: Condition, text: string, p: Predicate)
    requires c.k == 3 && Writable(build, c) && text == c.field + " = " + GatewayLiteral(c.value).value
    requires p == PredicateOf(build, c)
    ensures Compiled(build, text) == Ok(CompiledFilter(text, [p])) <==> Sayable(build, c.field)
  {
    hide Compiled, Sayable;
    assert c.field + " = " == c.field + [' '] + OPERATORS[3].0 + [' '];
    assert Texts(build, [c]) == [text] && Predicates(build, [c]) == [p];
    ConjunctionRoundTrips(build, [c]);
    assert [c][0] == c;
  }

  // ---------- which filters print ----------

  function Dotted(segments: seq<string>): string {
    if segments == [] then []
    else segments[0] + if |segments| == 1 then [] else ['.'] + Dotted(segments[1..])
  }

  predicate AllIdentifiers(segments: seq<string>) {
    forall k | 0 <= k < |segments| :: IsIdentifier(segments[k])
  }

  lemma {:induction false} SplitJoins(s: string)
    ensures Dotted(SplitDots(s)) == s
  {
    hide SplitDots;
    if '.' in s {
      var i := FirstDot(s);
      SplitJoins(s[i + 1..]);
      var rest := SplitDots(s[i + 1..]);
      assert ([s[..i]] + rest)[1..] == rest;
    }
  }

  lemma {:induction false} SplitPrefix(a: string, s: string)
    requires '.' !in a
    ensures SplitDots(a + (['.'] + s)) == [a] + SplitDots(s)
  {
    hide SplitDots;
    var all := a + (['.'] + s);
    DotStep(all);
    if a == [] {
      assert all[1..] == s && all[0] == '.';
    } else {
      assert all[1..] == a[1..] + (['.'] + s) && all[0] == a[0];
      SplitPrefix(a[1..], s);
      Lengthened(a, SplitDots(s));
    }
  }

  lemma Lengthened(a: string, rest: seq<string>)
    requires a != []
    ensures var segments := [a[1..]] + rest; [[a[0]] + segments[0]] + segments[1..] == [a] + rest
  {
    assert [a[0]] + a[1..] == a;
  }

  lemma {:induction false} DottedSplits(segments: seq<string>)
    requires segments != [] && AllIdentifiers(segments)
    ensures SplitDots(Dotted(segments)) == segments
    decreases |segments|
  {
    hide SplitDots;
    IdentifierIsTrimmed(segments[0]);
    if |segments| == 1 {
      assert Dotted(segments) == segments[0] + [] == segments[0];
    } else {
      DottedSplits(segments[1..]);
      SplitPrefix(segments[0], Dotted(segments[1..]));
      assert segments == [segments[0]] + segments[1..];
    }
  }

  /**
   A filter prints exactly when its path is `$.` and identifiers joined by points and its value is
   neither an array nor an object; what it prints is the path's field, compared for equality with a
   literal that denotes the value.
   */
  lemma PrintsExactly(build: Build, f: Filter)
    ensures ToGatewayFilter(f).Ok? <==>
      && !f.value.JArray? && !f.value.JObject?
      && exists segments :: segments != [] && AllIdentifiers(segments) && f.path == "$." + Dotted(segments)
    ensures ToGatewayFilter(f).Ok? && Meaning(build, f.value).Some? ==>
      exists lit :: ToGatewayFilter(f) == Ok(f.path[2..] + " = " + lit) && Denotes(build, lit, Meaning(build, f.value).value)
  {
    hide SplitDots, IsIdentifier, Denotes, Dotted;
    if |f.path| >= 2 && f.path[..2] == "$." {
      var field := f.path[2..];
      SplitJoins(field);
      if AllIdentifiers(SplitDots(field)) { assert f.path == "$." + Dotted(SplitDots(field)); }
    }
    if segments :| segments != [] && AllIdentifiers(segments) && f.path == "$." + Dotted(segments) {
      DottedSplits(segments);
      assert f.path[2..] == Dotted(segments);
      SomethingDotted(segments);
    }
    if ToGatewayFilter(f).Ok? && Meaning(build, f.value).Some? { LiteralDenotes(build, f.value); }
  }

  lemma SomethingDotted(segments: seq<string>)
    requires segments != [] && AllIdentifiers(segments)
    ensures Dotted(segments) != []
  {
  }

  lemma LiteralDenotes(build: Build, v: Json)
    requires Meaning(build, v).Some?
    ensures GatewayLiteral(v).Ok? && Denotes(build, GatewayLiteral(v).value, Meaning(build, v).value)
  {
    hide Denotes, LiteralValue, Meaning;
    PrintedIsClean(build, v);
    LiteralRoundTrip(build, v);
    var lit := GatewayLiteral(v).value;
    LiteralIsExact(build, lit, Meaning(build, v).value);
  }
}
