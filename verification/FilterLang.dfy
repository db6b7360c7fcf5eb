/** The subscription filter compiler (filter.rs), in both builds of the gateway. */
module FilterLang {
  import opened Wrappers
  import opened Text
  import opened QuoteScan

  // Clause, operator, field and literal parsing, and `CompiledFilter::compile`. Floating-point
  // literals are the one thing left to a library: whether a text with a point or an exponent is a
  // finite `f64` is answered by the build's `finiteFloat`, and such a literal is kept as its text.

  const I64_MIN: int := -0x8000_0000_0000_0000
  const I64_MAX: int := 0x7FFF_FFFF_FFFF_FFFF
  const U64_MAX: int := 0xFFFF_FFFF_FFFF_FFFF
  const RESERVED_ROW_MARKER_FIELD := "__krabka_row_marker"

  /** The `arrow` feature and the float parser the gateway was built with. */
  datatype Build = Build(arrow: bool, finiteFloat: string -> bool)

  datatype FilterCompileError = UnsupportedSql | DataFusionUnavailable

  datatype ComparisonOperator =
    | Equal | NotEqual | GreaterThan | GreaterThanOrEqual | LessThan | LessThanOrEqual

  datatype NumericValue = Integer(i: int) | Float(text: string)

  datatype FilterValue = Str(s: string) | Number(n: NumericValue) | Bool(b: bool) | Null

  datatype Predicate = Predicate(field: string, operator: ComparisonOperator, expected: FilterValue)

  datatype CompiledFilter = CompiledFilter(sql: string, predicates: seq<Predicate>)

  // ---------- literals ----------

  /** What `parse_quoted_string` reads between the outer quotes. */
  function Unescaped(inner: string): string {
    if inner == [] then []
    else if inner[0] == QUOTE && |inner| > 1 && inner[1] == QUOTE then [QUOTE] + Unescaped(inner[2..])
    else [inner[0]] + Unescaped(inner[1..])
  }

  function QuotedString(literal: string): Result<Option<string>, FilterCompileError> {
    if literal == [] || literal[0] != QUOTE then Ok(None)
    else if literal[|literal| - 1] != QUOTE || |literal| < 2 then Err(UnsupportedSql)
    else Ok(Some(Unescaped(literal[1..|literal| - 1])))
  }

  method ParseQuotedString(literal: string) returns (r: Result<Option<string>, FilterCompileError>)
    ensures r == QuotedString(literal)
  {
    if literal == [] || literal[0] != QUOTE {
      return Ok(None);
    }
    if literal[|literal| - 1] != QUOTE || |literal| < 2 {
      return Err(UnsupportedSql);
    }
    var value := Unescape(literal[1..|literal| - 1]);
    r := Ok(Some(value));
  }

  method Unescape(inner: string) returns (value: string)
    ensures value == Unescaped(inner)
  {
    value := [];
    var i := 0;
    while i < |inner|
      invariant i <= |inner| && value + Unescaped(inner[i..]) == Unescaped(inner)
    {
      if inner[i] == QUOTE && i + 1 < |inner| && inner[i + 1] == QUOTE {
        TailOfTail(inner, i, 2);
        assert Unescaped(inner[i..]) == [QUOTE] + Unescaped(inner[i + 2..]);
        value := value + [QUOTE];
        i := i + 2;
      } else {
        TailOfTail(inner, i, 1);
        assert Unescaped(inner[i..]) == [inner[i]] + Unescaped(inner[i + 1..]);
        value := value + [inner[i]];
        i := i + 1;
      }
    }
    assert Unescaped(inner[i..]) == [];
  }

  predicate LooksFloat(s: string) {
    exists i | 0 <= i < |s| :: s[i] in {'.', 'e', 'E'}
  }

  /** `NumericValue::parse`. */
  function Numeric(build: Build, s: string): Option<NumericValue> {
    if LooksFloat(s) then
      if build.finiteFloat(s) then Some(Float(s)) else None
    else
      var n := ParseInt(s);
      if n.None? then None
      else if I64_MIN <= n.value <= I64_MAX then Some(Integer(n.value))
      else if s[0] != '-' && n.value <= U64_MAX then Some(Integer(n.value))
      else None
  }

  /** `FilterValue::parse`. */
  function LiteralValue(build: Build, input: string): Result<FilterValue, FilterCompileError> {
    var literal := Trim(input);
    if EqIgnoreCase(literal, "true") then Ok(Bool(true))
    else if EqIgnoreCase(literal, "false") then Ok(Bool(false))
    else if EqIgnoreCase(literal, "null") then Ok(Null)
    else
      var quoted := QuotedString(literal);
      if quoted.Err? then Err(quoted.error)
      else if quoted.value.Some? then Ok(Str(quoted.value.value))
      else
        var n := Numeric(build, literal);
        if n.Some? then Ok(Number(n.value)) else Err(UnsupportedSql)
  }

  method ParseFilterValue(build: Build, input: string) returns (r: Result<FilterValue, FilterCompileError>)
    ensures r == LiteralValue(build, input)
  {
    var literal := Trim(input);
    if EqIgnoreCase(literal, "true") { return Ok(Bool(true)); }
    if EqIgnoreCase(literal, "false") { return Ok(Bool(false)); }
    if EqIgnoreCase(literal, "null") { return Ok(Null); }
    var quoted := ParseQuotedString(literal);
    if quoted.Err? { return Err(quoted.error); }
    if quoted.value.Some? { return Ok(Str(quoted.value.value)); }
    var n := Numeric(build, literal);
    r := if n.Some? then Ok(Number(n.value)) else Err(UnsupportedSql);
  }

  // ---------- operators ----------

  const OPERATORS: seq<(string, ComparisonOperator)> := [
    ("!=", NotEqual), (">=", GreaterThanOrEqual), ("<=", LessThanOrEqual),
    ("=", Equal), (">", GreaterThan), ("<", LessThan)]

  datatype Split = Split(operator: ComparisonOperator, field: string, literal: string)

  /** No string is left open and no operator is outside one. */
  ghost predicate OperatorFree(literal: string) {
    && !Quoted(literal, |literal|)
    && forall i: nat, k | Outside(literal, i) && 0 <= k < |OPERATORS| :: !TokenAt(literal, i, OPERATORS[k].0)
  }

  /** `ComparisonOperator::parse` from the `k`-th token on. */
  ghost function SplitFrom(clause: string, k: nat): Result<Split, FilterCompileError>
    requires k <= |OPERATORS|
    decreases |OPERATORS| - k
  {
    if k == |OPERATORS| then Err(UnsupportedSql)
    else
      match FindToken(clause, OPERATORS[k].0)
      case Err(_) => Err(UnsupportedSql)
      case Ok(None) => SplitFrom(clause, k + 1)
      case Ok(Some(i)) =>
        var literal := clause[i + |OPERATORS[k].0|..];
        if !OperatorFree(literal) then Err(UnsupportedSql)
        else Ok(Split(OPERATORS[k].1, clause[..i], literal))
  }

  method RejectExtraOperator(literal: string) returns (r: Result<(), FilterCompileError>)
    ensures r.Ok? <==> OperatorFree(literal)
    ensures r.Err? ==> r.error == UnsupportedSql
  {
    for k := 0 to |OPERATORS|
      invariant k > 0 ==> !Quoted(literal, |literal|)
      invariant forall i: nat, m | Outside(literal, i) && 0 <= m < k :: !TokenAt(literal, i, OPERATORS[m].0)
    {
      var found := FindUnquotedToken(literal, OPERATORS[k].0);
      if found.Err? || found.value.Some? {
        return Err(UnsupportedSql);
      }
    }
    r := Ok(());
  }

  method ParseComparison(clause: string) returns (r: Result<Split, FilterCompileError>)
    ensures r == SplitFrom(clause, 0)
  {
    for k := 0 to |OPERATORS|
      invariant SplitFrom(clause, 0) == SplitFrom(clause, k)
    {
      var found := FindUnquotedToken(clause, OPERATORS[k].0);
      if found.Err? {
        return Err(UnsupportedSql);
      }
      if found.value.Some? {
        var i := found.value.value;
        var literal := clause[i + |OPERATORS[k].0|..];
        var rest := RejectExtraOperator(literal);
        if rest.Err? {
          return Err(UnsupportedSql);
        }
        return Ok(Split(OPERATORS[k].1, clause[..i], literal));
      }
    }
    r := Err(UnsupportedSql);
  }

  predicate AcceptsLiteral(op: ComparisonOperator, v: FilterValue) {
    op == Equal || op == NotEqual || v.Str? || v.Number?
  }

  // ---------- field paths ----------

  function SplitDots(s: string): (segments: seq<string>)
    ensures |segments| >= 1
    ensures '.' !in s ==> segments == [s]
    ensures '.' in s ==> |segments| >= 2
  {
    if s == [] then [[]]
    else if s[0] == '.' then [[]] + SplitDots(s[1..])
    else
      var rest := SplitDots(s[1..]);
      assert s == [s[0]] + s[1..];
      [[s[0]] + rest[0]] + rest[1..]
  }

  /** `FieldPath::parse`: only a single identifier is a field the row evaluator knows. */
  function Field(build: Build, input: string): Result<string, FilterCompileError> {
    var segments := SplitDots(input);
    if exists k | 0 <= k < |segments| :: !IsIdentifier(Trim(segments[k])) then Err(UnsupportedSql)
    else if |segments| != 1 then Err(if build.arrow then UnsupportedSql else DataFusionUnavailable)
    else Ok(Trim(segments[0]))
  }

  // ---------- clauses and filters ----------

  ghost function Clause(build: Build, clause: string): Result<Predicate, FilterCompileError> {
    if clause == [] then Err(UnsupportedSql)
    else
      var split := SplitFrom(clause, 0);
      if split.Err? then Err(split.error)
      else
        var expected := LiteralValue(build, Trim(split.value.literal));
        if expected.Err? then Err(expected.error)
        else if !AcceptsLiteral(split.value.operator, expected.value) then Err(UnsupportedSql)
        else
          var field := Field(build, Trim(split.value.field));
          if field.Err? then Err(field.error)
          else Ok(Predicate(field.value, split.value.operator, expected.value))
  }

  method ParsePredicate(build: Build, clause: string) returns (r: Result<Predicate, FilterCompileError>)
    ensures r == Clause(build, clause)
  {
    if clause == [] {
      return Err(UnsupportedSql);
    }
    var split := ParseComparison(clause);
    if split.Err? {
      return Err(split.error);
    }
    var expected := ParseFilterValue(build, Trim(split.value.literal));
    if expected.Err? {
      return Err(expected.error);
    }
    if !AcceptsLiteral(split.value.operator, expected.value) {
      return Err(UnsupportedSql);
    }
    var field := Field(build, Trim(split.value.field));
    r := if field.Err? then Err(field.error)
         else Ok(Predicate(field.value, split.value.operator, expected.value));
  }

  ghost function ClausePredicates(build: Build, clauses: seq<string>): Result<seq<Predicate>, FilterCompileError> {
    if clauses == [] then Ok([])
    else
      var first := Clause(build, Trim(clauses[0]));
      if first.Err? then Err(first.error)
      else
        var rest := ClausePredicates(build, clauses[1..]);
        if rest.Err? then rest else Ok([first.value] + rest.value)
  }

  /** `parse_legacy_predicates`. */
  ghost function LegacyPredicates(build: Build, sql: string): Result<seq<Predicate>, FilterCompileError> {
    var clauses := Clauses(sql);
    if clauses.Err? then Err(UnsupportedSql) else ClausePredicates(build, clauses.value)
  }

  method ParseLegacyPredicates(build: Build, sql: string) returns (r: Result<seq<Predicate>, FilterCompileError>)
    ensures r == LegacyPredicates(build, sql)
  {
    var clauses := SplitAndClauses(sql);
    if clauses.Err? {
      return Err(UnsupportedSql);
    }
    var cs := clauses.value;
    var predicates: seq<Predicate> := [];
    assert cs[0..] == cs;
    assert Prepended([], ClausePredicates(build, cs)) == ClausePredicates(build, cs) by {
      if ClausePredicates(build, cs).Ok? {
        assert [] + ClausePredicates(build, cs).value == ClausePredicates(build, cs).value;
      }
    }
    for k := 0 to |cs|
      invariant ClausePredicates(build, cs) == Prepended(predicates, ClausePredicates(build, cs[k..]))
    {
      NextClause(build, cs, k);
      var p := ParsePredicate(build, Trim(cs[k]));
      if p.Err? {
        return Err(p.error);
      }
      PrependedTwice(predicates, p.value, ClausePredicates(build, cs[k + 1..]));
      predicates := predicates + [p.value];
    }
    assert cs[|cs|..] == [];
    assert predicates + [] == predicates;
    r := Ok(predicates);
  }

  lemma NextClause(build: Build, cs: seq<string>, k: nat)
    requires k < |cs|
    ensures var first := Clause(build, Trim(cs[k]));
      ClausePredicates(build, cs[k..]) ==
      if first.Err? then Err(first.error) else Prepended([first.value], ClausePredicates(build, cs[k + 1..]))
  {
    assert cs[k..][0] == cs[k] && cs[k..][1..] == cs[k + 1..];
  }

  ghost function Prepended(ps: seq<Predicate>, r: Result<seq<Predicate>, FilterCompileError>): Result<seq<Predicate>, FilterCompileError> {
    if r.Ok? then Ok(ps + r.value) else r
  }

  lemma PrependedTwice(ps: seq<Predicate>, p: Predicate, r: Result<seq<Predicate>, FilterCompileError>)
    ensures Prepended(ps, Prepended([p], r)) == Prepended(ps + [p], r)
  {
    if r.Ok? { assert ps + ([p] + r.value) == ps + [p] + r.value; }
  }

  /** `sql_requires_arrow_datafusion`. */
  ghost predicate RequiresDataFusion(sql: string) {
    || HasWord(sql, "OR") || HasWord(sql, "IN") || HasWord(sql, "IS") || HasWord(sql, "LIKE")
    || HasChar(sql, '(') || HasChar(sql, ')') || HasChar(sql, '[') || HasChar(sql, ']')
    || HasPathSeparator(sql)
  }

  method SqlRequiresDataFusion(sql: string) returns (b: bool)
    ensures b <==> RequiresDataFusion(sql)
  {
    b := ContainsUnquotedWord(sql, "OR");
    if !b { b := ContainsUnquotedWord(sql, "IN"); }
    if !b { b := ContainsUnquotedWord(sql, "IS"); }
    if !b { b := ContainsUnquotedWord(sql, "LIKE"); }
    if !b { b := ContainsUnquotedChar(sql, '('); }
    if !b { b := ContainsUnquotedChar(sql, ')'); }
    if !b { b := ContainsUnquotedChar(sql, '['); }
    if !b { b := ContainsUnquotedChar(sql, ']'); }
    if !b { b := ContainsUnquotedFieldPathSeparator(sql); }
  }

  /** `CompiledFilter::compile`. */
  ghost function Compiled(build: Build, text: string): Result<CompiledFilter, FilterCompileError> {
    var sql := Trim(text);
    if sql == [] then Ok(CompiledFilter([], []))
    else if HasFieldReference(sql, RESERVED_ROW_MARKER_FIELD) then Err(UnsupportedSql)
    else if !build.arrow && RequiresDataFusion(sql) then Err(DataFusionUnavailable)
    else
      match LegacyPredicates(build, sql)
      case Ok(ps) => Ok(CompiledFilter(sql, ps))
      case Err(e) =>
        if build.arrow && RequiresDataFusion(sql) then Ok(CompiledFilter(sql, [])) else Err(e)
  }

  method Compile(build: Build, text: string) returns (r: Result<CompiledFilter, FilterCompileError>)
    ensures r == Compiled(build, text)
  {
    var sql := Trim(text);
    if sql == [] {
      return Ok(CompiledFilter([], []));
    }
    var reserved := ReferencesField(sql, RESERVED_ROW_MARKER_FIELD);
    if reserved {
      return Err(UnsupportedSql);
    }
    var requires_ := SqlRequiresDataFusion(sql);
    if !build.arrow && requires_ {
      return Err(DataFusionUnavailable);
    }
    var predicates := ParseLegacyPredicates(build, sql);
    if predicates.Ok? {
      return Ok(CompiledFilter(sql, predicates.value));
    }
    r := if build.arrow && requires_ then Ok(CompiledFilter(sql, [])) else Err(predicates.error);
  }
}
