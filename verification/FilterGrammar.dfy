/** The filters the gateway compiles, and to what, in both of its builds (filter.rs). */
module FilterGrammar {
  import opened Wrappers
  import opened Text
  import opened QuoteScan
  import opened FilterLang
  import opened FilterConjunction

  // The grammar is written down apart from the compiler: what a literal denotes, what a comparison
  // is, which texts need the DataFusion engine. The compiler is then shown to accept exactly that.

  // ---------- the grammar ----------

  function Symbol(op: ComparisonOperator): string {
    match op
    case Equal => "="
    case NotEqual => "!="
    case GreaterThan => ">"
    case GreaterThanOrEqual => ">="
    case LessThan => "<"
    case LessThanOrEqual => "<="
  }

  predicate IsConstant(t: string) { EqIgnoreCase(t, "true") || EqIgnoreCase(t, "false") || EqIgnoreCase(t, "null") }

  /** What a literal without blanks around it denotes. */
  predicate Denotes(build: Build, t: string, v: FilterValue) {
    match v
    case Bool(b) => EqIgnoreCase(t, if b then "true" else "false")
    case Null => EqIgnoreCase(t, "null")
    case Str(s) => |t| >= 2 && t[0] == '\'' && t[|t| - 1] == '\'' && s == Unescaped(t[1..|t| - 1])
    case Number(Integer(n)) =>
      && !(exists i | 0 <= i < |t| :: t[i] in {'.', 'e', 'E'})
      && ParseInt(t) == Some(n) && I64_MIN <= n <= U64_MAX
    case Number(Float(text)) =>
      && text == t && (exists i | 0 <= i < |t| :: t[i] in {'.', 'e', 'E'}) && build.finiteFloat(t)
      && t[0] != '\'' && !IsConstant(t)
  }

  /** Every string is closed, and no operator stands outside one. */
  ghost predicate OneOperand(right: string) {
    Closed(right) && forall i: nat | Outside(right, i) :: right[i] !in {'=', '<', '>'}
  }

  /** `c` compares one identifier with one literal, which is a string or a number if the operator orders. */
  ghost predicate Compares(build: Build, c: string, p: Predicate, left: string, right: string) {
    && c == left + Symbol(p.operator) + right
    && IsIdentifier(p.field) && Trim(left) == p.field
    && OneOperand(right) && Denotes(build, Trim(right), p.expected)
    && (p.operator in {Equal, NotEqual} || p.expected.Str? || p.expected.Number?)
  }

  ghost predicate IsComparison(build: Build, c: string, p: Predicate) {
    exists left, right :: Compares(build, c, p, left, right)
  }

  /** Taking the unquoted ANDs out leaves one comparison for each predicate, in order. */
  ghost predicate AreComparisons(build: Build, sql: string, ps: seq<Predicate>) {
    && Closed(sql)
    && exists clauses :: CutInto(sql, 0, clauses) && |clauses| == |ps|
         && forall i | 0 <= i < |ps| :: IsComparison(build, Trim(clauses[i]), ps[i])
  }

  /** A spelling of one of the words only DataFusion understands, a bracket, or a point of a field path. */
  ghost predicate NeedsEngine(sql: string) {
    || (exists w :: Mentions(sql, w) &&
          (EqIgnoreCase(w, "OR") || EqIgnoreCase(w, "IN") || EqIgnoreCase(w, "IS") || EqIgnoreCase(w, "LIKE")))
    || (exists i: nat :: Outside(sql, i) && sql[i] in {'(', ')', '[', ']'})
    || (exists i: nat :: Outside(sql, i) && sql[i] == '.' && !BetweenDigits(sql, i))
  }

  predicate BetweenDigits(s: string, i: nat)
    requires i < |s|
  {
    0 < i < |s| - 1 && '0' <= s[i - 1] <= '9' && '0' <= s[i + 1] <= '9'
  }

  // ---------- literals ----------

  lemma NotAConstant(t: string)
    requires t != [] && (t[0] == QUOTE || t[0] == '-' || t[0] == '+' || IsDigit(t[0]))
    ensures !IsConstant(t)
  {
    assert Lower(t[0]) == t[0];
  }

  lemma IntegerStart(t: string)
    requires ParseInt(t).Some?
    ensures t != [] && (t[0] == '-' || t[0] == '+' || IsDigit(t[0]))
    ensures (ParseInt(t).value > 0 ==> t[0] != '-') && (ParseInt(t).value < 0 ==> t[0] == '-')
  {
  }

  lemma ConstantsDiffer(t: string)
    ensures !(EqIgnoreCase(t, "true") && EqIgnoreCase(t, "false"))
    ensures !(EqIgnoreCase(t, "true") && EqIgnoreCase(t, "null"))
    ensures !(EqIgnoreCase(t, "false") && EqIgnoreCase(t, "null"))
  {
    assert "true"[0] == 't' && "null"[0] == 'n';
  }

  lemma NumericIsExact(build: Build, t: string, n: NumericValue)
    requires (t != [] ==> t[0] != QUOTE) && !IsConstant(t)
    ensures Numeric(build, t) == Some(n) <==> Denotes(build, t, Number(n))
  {
    hide ParseInt, EqIgnoreCase;
    if ParseInt(t).Some? { IntegerStart(t); }
  }

  /** A literal is read as `v` exactly when it denotes `v`; every other literal is refused. */
  lemma LiteralIsExact(build: Build, t: string, v: FilterValue)
    requires Trim(t) == t
    ensures LiteralValue(build, t) == Ok(v) <==> Denotes(build, t, v)
    ensures LiteralValue(build, t).Err? ==> LiteralValue(build, t).error == UnsupportedSql
  {
    hide EqIgnoreCase, Trim, ParseInt, Unescaped, Numeric;
    ConstantsDiffer(t);
    if t != [] && t[0] == QUOTE {
      NotAConstant(t);
    }
    if v.Number? {
      if v.n.Integer? && ParseInt(t).Some? {
        IntegerStart(t);
        NotAConstant(t);
      }
      if (t != [] ==> t[0] != QUOTE) && !IsConstant(t) { NumericIsExact(build, t, v.n); }
    }
  }

  // ---------- the operator ----------

  predicate IsOperatorChar(c: char) { c in {'!', '>', '<', '='} }

  lemma OperatorTexts(k: nat)
    requires k < |OPERATORS|
    ensures var op := OPERATORS[k].0;
      && op == Symbol(OPERATORS[k].1)
      && 1 <= |op| <= 2 && IsOperatorChar(op[0]) && (|op| == 2 ==> op[1] == '=')
      && (|op| == 2 <==> k < 3) && (op[0] == '=' <==> k == 3)
      && (op[0] == '!' <==> k == 0) && (op[0] == '>' <==> k == 1 || k == 4) && (op[0] == '<' <==> k == 2 || k == 5)
  {
  }

  lemma OperatorIsListed(op: ComparisonOperator) returns (k: nat)
    ensures k < |OPERATORS| && OPERATORS[k] == (Symbol(op), op)
  {
    k := match op case NotEqual => 0 case GreaterThanOrEqual => 1 case LessThanOrEqual => 2
                  case Equal => 3 case GreaterThan => 4 case LessThan => 5;
  }

  lemma TokenStart(s: string, i: nat, token: string)
    requires TokenAt(s, i, token) && token != []
    ensures s[i] == token[0] && (|token| > 1 ==> s[i + 1] == token[1])
  {
    assert s[i..i + |token|][0] == s[i];
    if |token| > 1 { assert s[i..i + |token|][1] == s[i + 1]; }
  }

  lemma OneOperandMeans(right: string)
    ensures OneOperand(right) <==> OperatorFree(right)
  {
    if OneOperand(right) {
      forall i: nat, k | Outside(right, i) && 0 <= k < |OPERATORS| ensures !TokenAt(right, i, OPERATORS[k].0) {
        OperatorTexts(k);
        if TokenAt(right, i, OPERATORS[k].0) { SecondOperator(right, i, k); }
      }
    }
    if OperatorFree(right) {
      forall i: nat | Outside(right, i) ensures right[i] !in {'=', '<', '>'} {
        assert right[i..i + 1] == [right[i]];
        assert !TokenAt(right, i, OPERATORS[3].0) && !TokenAt(right, i, OPERATORS[4].0) && !TokenAt(right, i, OPERATORS[5].0);
      }
    }
  }

  /** Wherever an operator stands, one of the three characters stands outside strings. */
  lemma SecondOperator(right: string, i: nat, k: nat)
    requires Outside(right, i) && k < |OPERATORS| && TokenAt(right, i, OPERATORS[k].0)
    ensures !OneOperand(right)
  {
    OperatorTexts(k);
    TokenStart(right, i, OPERATORS[k].0);
    if k == 0 {
      QuotesUnchanged(right, i, i + 1);
      assert Outside(right, i + 1) && right[i + 1] == '=';
    } else {
      assert right[i] in {'=', '<', '>'};
    }
  }

  /** Nothing that could be part of a string or of an operator. */
  predicate Plain(left: string) {
    forall i | 0 <= i < |left| :: left[i] != QUOTE && !IsOperatorChar(left[i])
  }

  lemma FieldIsPlain(left: string)
    requires IsIdentifier(Trim(left))
    ensures Plain(left)
  {
    hide Trim;
    var t := Trim(left);
    TrimIsExact(left, t);
    var lead, tail :| Blank(lead) && Blank(tail) && left == lead + t + tail;
    forall i | 0 <= i < |left| ensures left[i] != QUOTE && !IsOperatorChar(left[i]) {
      if i < |lead| { assert left[i] == lead[i]; }
      else if i < |lead| + |t| { assert left[i] == t[i - |lead|] && IsIdentifierChar(t[i - |lead|]); }
      else { assert left[i] == tail[i - |lead| - |t|]; }
    }
  }

  /** Where the operator stands, and that strings are open after it exactly where they are in what follows. */
  lemma OperatorPlace(left: string, k: nat, right: string, j: nat)
    requires k < |OPERATORS| && Plain(left) && j <= |right|
    ensures var op := OPERATORS[k].0; var text := left + op + right;
      && text[..|left|] == left && text[|left| + |op|..] == right && TokenAt(text, |left|, op)
      && (forall i: nat | i <= |left| + |op| :: QuotesBefore(text, i) == 0)
      && QuotesBefore(text, |left| + |op| + j) == QuotesBefore(right, j)
      && Outside(text, |left| + |op| + j) == Outside(right, j)
      && Outside(text, |left|)
  {
    var op := OPERATORS[k].0;
    var text := left + op + right;
    OperatorTexts(k);
    var prefix := left + op;
    assert QUOTE !in prefix;
    forall i: nat | i <= |prefix| ensures QuotesBefore(text, i) == 0 {
      QuotesOfPrefix(prefix, right, i);
      BareIsOutside(prefix, i);
    }
    QuotesOfConcat(prefix, right, j);
    QuotesOfPrefix(prefix, right, |prefix|);
    assert QuotesBefore(prefix, |prefix|) == QuotesBefore(text, |prefix|) == 0;
    OutsideRight(prefix, right, j);
    assert text[|left|..|left| + |op|] == op;
    assert text[|left|] == op[0];
  }

  /** No operator begins outside strings, but in the operator's own place. */
  lemma OperatorIsAlone(left: string, k: nat, right: string, i: nat, j: nat)
    requires k < |OPERATORS| && j < |OPERATORS| && Plain(left) && OperatorFree(right)
    requires var text := left + OPERATORS[k].0 + right; Outside(text, i) && TokenAt(text, i, OPERATORS[j].0)
    ensures |left| <= i < |left| + |OPERATORS[k].0|
  {
    var op, t := OPERATORS[k].0, OPERATORS[j].0;
    var text := left + op + right;
    OperatorTexts(j);
    TokenStart(text, i, t);
    if i >= |left| + |op| {
      var m := i - |left| - |op|;
      OperatorPlace(left, k, right, m);
      TokenInRight(left + op, right, m, t);
    }
  }

  lemma TokenInRight(prefix: string, right: string, m: nat, token: string)
    ensures TokenAt(prefix + right, |prefix| + m, token) <==> TokenAt(right, m, token)
  {
    if m + |token| <= |right| { assert (prefix + right)[|prefix| + m..|prefix| + m + |token|] == right[m..m + |token|]; }
  }

  /** No operator tried earlier is found, not even as part of this one or this one as part of it. */
  lemma NoEarlierOperator(left: string, k: nat, right: string, j: nat)
    requires j < k < |OPERATORS| && Plain(left) && OperatorFree(right)
    ensures FindToken(left + OPERATORS[k].0 + right, OPERATORS[j].0) == Ok(None)
  {
    hide OperatorFree;
    var text, t := left + OPERATORS[k].0 + right, OPERATORS[j].0;
    OperatorPlace(left, k, right, |right|);
    forall i: nat | Outside(text, i) ensures !TokenAt(text, i, t) {
      if TokenAt(text, i, t) {
        OperatorIsAlone(left, k, right, i, j);
        NotThere(left, k, right, j, i);
      }
    }
    RightIsClosed(right);
    assert FindFrom(text, 0, t).None?;
  }

  lemma RightIsClosed(right: string)
    requires OperatorFree(right)
    ensures !Quoted(right, |right|) && (right != [] ==> right[0] != '=')
  {
    if right != [] && right[0] == '=' {
      assert Outside(right, 0) && right[0..1] == "=";
      assert TokenAt(right, 0, OPERATORS[3].0);
    }
  }

  lemma NotThere(left: string, k: nat, right: string, j: nat, i: nat)
    requires j < k < |OPERATORS| && OperatorFree(right) && |left| <= i < |left| + |OPERATORS[k].0|
    ensures !TokenAt(left + OPERATORS[k].0 + right, i, OPERATORS[j].0)
  {
    var op, t := OPERATORS[k].0, OPERATORS[j].0;
    var text := left + op + right;
    OperatorTexts(j);
    OperatorTexts(k);
    RightIsClosed(right);
    assert text[|left|] == op[0] && (|op| == 2 ==> text[|left| + 1] == op[1]);
    assert right != [] ==> text[|left| + |op|] == right[0];
    if TokenAt(text, i, t) { TokenStart(text, i, t); }
  }

  lemma ThisOperatorFound(left: string, k: nat, right: string)
    requires k < |OPERATORS| && Plain(left) && OperatorFree(right)
    ensures FindToken(left + OPERATORS[k].0 + right, OPERATORS[k].0) == Ok(Some(|left|))
  {
    hide OperatorFree;
    var op := OPERATORS[k].0;
    var text := left + op + right;
    OperatorPlace(left, k, right, |right|);
    var found := FindFrom(text, 0, op);
    assert found.Some? && found.value <= |left|;
    OperatorIsAlone(left, k, right, found.value, k);
  }

  /** A field, an operator and an operand split into just these. */
  lemma SplitReads(left: string, k: nat, right: string)
    requires k < |OPERATORS| && Plain(left) && OperatorFree(right)
    ensures SplitFrom(left + OPERATORS[k].0 + right, 0) == Ok(Split(OPERATORS[k].1, left, right))
  {
    hide OperatorFree, FindToken, Plain;
    var text := left + OPERATORS[k].0 + right;
    OperatorPlace(left, k, right, |right|);
    ThisOperatorFound(left, k, right);
    forall j | 0 <= j < k ensures FindToken(text, OPERATORS[j].0) == Ok(None) { NoEarlierOperator(left, k, right, j); }
    SplitsAtFirst(text, 0, k, |left|, right);
  }

  /** A clause splits at the first operator of the list that it holds. */
  lemma {:induction false} SplitsAtFirst(s: string, k: nat, m: nat, at: nat, literal: string)
    requires k <= m < |OPERATORS|
    requires forall j | k <= j < m :: FindToken(s, OPERATORS[j].0) == Ok(None)
    requires FindToken(s, OPERATORS[m].0) == Ok(Some(at)) && at + |OPERATORS[m].0| <= |s|
    requires literal == s[at + |OPERATORS[m].0|..] && OperatorFree(literal)
    ensures SplitFrom(s, k) == Ok(Split(OPERATORS[m].1, s[..at], literal))
    decreases m - k
  {
    if k < m {
      SplitsAtFirst(s, k + 1, m, at, literal);
      NextOperator(s, k);
    } else {
      ThisOperator(s, m, at, literal);
    }
  }

  lemma NextOperator(s: string, k: nat)
    requires k < |OPERATORS| && FindToken(s, OPERATORS[k].0) == Ok(None)
    ensures SplitFrom(s, k) == SplitFrom(s, k + 1)
  {
  }

  lemma ThisOperator(s: string, k: nat, at: nat, literal: string)
    requires k < |OPERATORS| && FindToken(s, OPERATORS[k].0) == Ok(Some(at))
    requires at + |OPERATORS[k].0| <= |s| && literal == s[at + |OPERATORS[k].0|..]
    requires OperatorFree(literal)
    ensures SplitFrom(s, k) == Ok(Split(OPERATORS[k].1, s[..at], literal))
  {
  }

  lemma SplitStep(s: string, k: nat)
    requires k < |OPERATORS|
    ensures var r, found := SplitFrom(s, k), FindToken(s, OPERATORS[k].0);
      if found == Ok(None) then r == SplitFrom(s, k + 1)
      else r == Err(UnsupportedSql) || (found.Ok? && ReadsAt(s, k, found.value.value, r))
  {
    hide FindToken, OperatorFree;
    if FindToken(s, OPERATORS[k].0).Ok? && FindToken(s, OPERATORS[k].0).value.Some? {
      FoundIs(s, FindToken(s, OPERATORS[k].0).value.value, OPERATORS[k].0);
    }
  }

  /** The split of `s` at its `k`-th operator, found at `i`. */
  ghost predicate ReadsAt(s: string, k: nat, i: nat, r: Result<Split, FilterCompileError>)
    requires k < |OPERATORS|
  {
    var n := i + |OPERATORS[k].0|;
    n <= |s| && r == Ok(Split(OPERATORS[k].1, s[..i], s[n..])) && OperatorFree(s[n..])
  }

  /** What a split is made of. */
  lemma {:induction false} SplitIs(s: string, k: nat)
    requires k <= |OPERATORS|
    ensures var r := SplitFrom(s, k);
      if r.Ok? then s == r.value.field + Symbol(r.value.operator) + r.value.literal && OperatorFree(r.value.literal)
      else r.error == UnsupportedSql
    decreases |OPERATORS| - k
  {
    hide SplitFrom, OperatorFree, FindToken;
    if k < |OPERATORS| {
      SplitStep(s, k);
      var found := FindToken(s, OPERATORS[k].0);
      OperatorTexts(k);
      if found == Ok(None) {
        SplitIs(s, k + 1);
      } else if found.Ok? {
        FoundIs(s, found.value.value, OPERATORS[k].0);
      }
    } else {
      NoSplit(s);
    }
  }

  lemma NoSplit(s: string)
    ensures SplitFrom(s, |OPERATORS|) == Err(UnsupportedSql)
  {
  }

  lemma FoundIs(s: string, i: nat, token: string)
    requires FindToken(s, token) == Ok(Some(i))
    ensures i + |token| <= |s| && s == s[..i] + token + s[i + |token|..]
  {
    assert TokenAt(s, i, token);
  }

  // ---------- clauses ----------

  lemma IdentifierField(build: Build, t: string)
    requires IsIdentifier(t)
    ensures Trim(t) == t && Field(build, t) == Ok(t)
  {
    assert IsIdentifierChar(t[|t| - 1]) && IsIdentifierChar(t[0]);
    assert forall i | 0 <= i < |t| :: IsIdentifierChar(t[i]);
    TrimNothing(t);
    assert '.' !in t;
    assert SplitDots(t) == [t];
  }

  lemma FieldIs(build: Build, t: string)
    requires Trim(t) == t && Field(build, t).Ok?
    ensures Field(build, t) == Ok(t) && IsIdentifier(t)
  {
    hide Trim;
    var segments := SplitDots(t);
    assert '.' !in t;
    assert segments == [t];
    assert IsIdentifier(Trim(segments[0]));
  }

  lemma ComparisonReads(build: Build, c: string, p: Predicate, left: string, right: string)
    requires Compares(build, c, p, left, right)
    ensures Clause(build, c) == Ok(p)
  {
    hide Trim, LiteralValue, Denotes, OperatorFree, SplitFrom, OneOperand, Field;
    var k := OperatorIsListed(p.operator);
    OperatorTexts(k);
    FieldIsPlain(left);
    OneOperandMeans(right);
    SplitReads(left, k, right);
    TrimTwice(right);
    LiteralIsExact(build, Trim(right), p.expected);
    IdentifierField(build, p.field);
  }

  lemma ClauseReads(build: Build, c: string)
    requires Clause(build, c).Ok?
    ensures IsComparison(build, c, Clause(build, c).value)
  {
    hide Trim, LiteralValue, Denotes, OperatorFree, SplitFrom, OneOperand, Field;
    var p := Clause(build, c).value;
    SplitIs(c, 0);
    var Split(op, left, right) := SplitFrom(c, 0).value;
    OneOperandMeans(right);
    TrimTwice(right);
    LiteralIsExact(build, Trim(right), p.expected);
    TrimTwice(left);
    FieldIs(build, Trim(left));
    assert Compares(build, c, p, left, right);
  }

  /** A clause parses to a predicate exactly when it is that comparison. */
  lemma ClauseIsExact(build: Build, c: string, p: Predicate)
    ensures Clause(build, c) == Ok(p) <==> IsComparison(build, c, p)
  {
    hide Clause, Compares;
    if Clause(build, c).Ok? { ClauseReads(build, c); }
    if left, right :| Compares(build, c, p, left, right) { ComparisonReads(build, c, p, left, right); }
  }

  lemma {:induction false} ClausesAreExact(build: Build, clauses: seq<string>, ps: seq<Predicate>)
    ensures ClausePredicates(build, clauses) == Ok(ps) <==>
      |clauses| == |ps| && forall i | 0 <= i < |ps| :: IsComparison(build, Trim(clauses[i]), ps[i])
    decreases |clauses|
  {
    hide Clause, IsComparison, Trim;
    if clauses != [] && ps != [] {
      var first := Clause(build, Trim(clauses[0]));
      ClauseIsExact(build, Trim(clauses[0]), ps[0]);
      ClausesAreExact(build, clauses[1..], ps[1..]);
      assert ps == [ps[0]] + ps[1..];
      if forall i | 0 <= i < |ps| :: |clauses| == |ps| && IsComparison(build, Trim(clauses[i]), ps[i]) {
        forall i | 0 <= i < |ps| - 1 ensures IsComparison(build, Trim(clauses[1..][i]), ps[1..][i]) {
          assert IsComparison(build, Trim(clauses[i + 1]), ps[i + 1]);
        }
      }
      if ClausePredicates(build, clauses) == Ok(ps) {
        forall i | 0 <= i < |ps| ensures IsComparison(build, Trim(clauses[i]), ps[i]) {
          if i > 0 { assert IsComparison(build, Trim(clauses[1..][i - 1]), ps[1..][i - 1]); }
        }
      }
    }
  }

  /** A filter has legacy predicates exactly when it is comparisons joined by AND. */
  lemma LegacyIsExact(build: Build, sql: string, ps: seq<Predicate>)
    ensures LegacyPredicates(build, sql) == Ok(ps) <==> AreComparisons(build, sql, ps)
  {
    hide ClausePredicates, IsComparison, CutInto, ClausesFrom;
    if Closed(sql) {
      var clauses := Clauses(sql).value;
      SplitCutsExactly(sql);
      ClausesAreExact(build, clauses, ps);
      if others :| CutInto(sql, 0, others) && |others| == |ps|
                   && forall i | 0 <= i < |ps| :: IsComparison(build, Trim(others[i]), ps[i]) {
        CutIntoIsUnique(sql, 0, clauses, others);
      }
    }
  }

  // ---------- texts that need the engine ----------

  lemma WordIsMentioned(sql: string, word: string)
    requires IsIdentifier(word)
    ensures HasWord(sql, word) <==> exists w :: Mentions(sql, w) && EqIgnoreCase(w, word)
  {
    hide EqIgnoreCase, Spelled, IsIdentifier;
    if i: nat :| Outside(sql, i) && KeywordAt(sql, i, word) {
      KeywordIsSpelled(sql, i, word);
      assert Mentions(sql, sql[i..i + |word|]);
    }
    if w :| Mentions(sql, w) && EqIgnoreCase(w, word) { HasWordMeans(sql, word, w); }
  }

  lemma EngineWords(sql: string)
    ensures (HasWord(sql, "OR") || HasWord(sql, "IN") || HasWord(sql, "IS") || HasWord(sql, "LIKE")) <==>
      exists w :: Mentions(sql, w) &&
        (EqIgnoreCase(w, "OR") || EqIgnoreCase(w, "IN") || EqIgnoreCase(w, "IS") || EqIgnoreCase(w, "LIKE"))
  {
    hide HasWord, Mentions, EqIgnoreCase;
    WordIsMentioned(sql, "OR");
    WordIsMentioned(sql, "IN");
    WordIsMentioned(sql, "IS");
    WordIsMentioned(sql, "LIKE");
  }

  lemma EngineChars(sql: string)
    ensures (HasChar(sql, '(') || HasChar(sql, ')') || HasChar(sql, '[') || HasChar(sql, ']')) <==>
      exists i: nat :: Outside(sql, i) && sql[i] in {'(', ')', '[', ']'}
    ensures HasPathSeparator(sql) <==> exists i: nat :: Outside(sql, i) && sql[i] == '.' && !BetweenDigits(sql, i)
  {
    if i: nat :| Outside(sql, i) && sql[i] in {'(', ')', '[', ']'} { assert HasChar(sql, sql[i]); }
    if i: nat :| Outside(sql, i) && sql[i] == '.' && !BetweenDigits(sql, i) { assert !DecimalPointAt(sql, i); }
    if i: nat :| Outside(sql, i) && sql[i] == '.' && !DecimalPointAt(sql, i) { assert !BetweenDigits(sql, i); }
  }

  lemma NeedsEngineMeans(sql: string)
    ensures RequiresDataFusion(sql) <==> NeedsEngine(sql)
  {
    hide HasWord, HasChar, HasPathSeparator, Mentions, EqIgnoreCase;
    EngineWords(sql);
    EngineChars(sql);
  }

  // ---------- which error ----------

  lemma DotStep(t: string)
    requires t != []
    ensures var rest := SplitDots(t[1..]);
      SplitDots(t) == if t[0] == '.' then [[]] + rest else [[t[0]] + rest[0]] + rest[1..]
  {
  }

  lemma {:induction false} FirstDot(t: string) returns (i: nat)
    requires '.' in t
    ensures i < |t| && t[i] == '.' && SplitDots(t) == [t[..i]] + SplitDots(t[i + 1..])
  {
    hide SplitDots;
    DotStep(t);
    if t[0] == '.' {
      i := 0;
    } else {
      assert t == [t[0]] + t[1..];
      var j := FirstDot(t[1..]);
      i := j + 1;
      assert t[1..][j + 1..] == t[i + 1..] && t[..i] == [t[0]] + t[1..][..j];
    }
  }

  lemma FirstSegment(t: string)
    ensures SplitDots(t)[0] <= t && (t != [] && t[0] != '.' ==> SplitDots(t)[0] != [])
  {
    if '.' in t {
      var i := FirstDot(t);
      assert SplitDots(t)[0] == t[..i];
    }
  }

  lemma SegmentStart(seg: string)
    requires IsIdentifier(Trim(seg))
    ensures seg != [] && !IsDigit(seg[0])
  {
    hide Trim;
    var t := Trim(seg);
    TrimIsExact(seg, t);
    var lead, tail :| Blank(lead) && Blank(tail) && seg == lead + t + tail;
    if lead != [] { assert seg[0] == lead[0]; } else { assert seg[0] == t[0]; }
  }

  /** A field path of identifiers has a point that is no decimal point, with no apostrophe before it. */
  lemma DottedField(build: Build, t: string) returns (i: nat)
    requires Field(build, t) == Err(DataFusionUnavailable)
    ensures 0 < i < |t| - 1 && t[i] == '.' && !BetweenDigits(t, i) && QUOTE !in t[..i]
  {
    hide Trim;
    var segments := SplitDots(t);
    assert forall k | 0 <= k < |segments| :: IsIdentifier(Trim(segments[k]));
    i := FirstDot(t);
    assert segments[0] == t[..i] && segments[1] == SplitDots(t[i + 1..])[0];
    SegmentStart(segments[0]);
    SegmentStart(segments[1]);
    FieldIsPlain(segments[0]);
    FirstSegment(t[i + 1..]);
    assert segments[1][0] == t[i + 1];
  }

  /** A point inside `c` that a field path has in it. */
  ghost predicate PathPoint(c: string, i: nat) {
    0 < i < |c| - 1 && Outside(c, i) && c[i] == '.' && !BetweenDigits(c, i)
  }

  /** A point of a part is a point of the whole, when the part begins outside strings. */
  lemma PointOfPart(s: string, at: nat, c: string, i: nat)
    requires at + |c| <= |s| && s[at..at + |c|] == c && !Quoted(s, at) && PathPoint(c, i)
    ensures PathPoint(s, at + i)
  {
    QuotesOfSlice(s, at, at + |c|, i);
    assert forall j | 0 <= j < |c| :: s[at + j] == c[j];
  }

  lemma BlankIsUnquoted(lead: string, s: string)
    requires Blank(lead) && lead <= s
    ensures !Quoted(s, |lead|)
  {
    forall k | 0 <= k < |lead| ensures s[k] != QUOTE { assert s[k] == lead[k]; }
    QuotesUnchanged(s, 0, |lead|);
  }

  lemma TrimmedPart(s: string) returns (at: nat)
    ensures at + |Trim(s)| <= |s| && s[at..at + |Trim(s)|] == Trim(s) && !Quoted(s, at)
  {
    hide Trim;
    TrimIsExact(s, Trim(s));
    var lead, tail :| Blank(lead) && Blank(tail) && s == lead + Trim(s) + tail;
    at := |lead|;
    BlankIsUnquoted(lead, s);
  }

  lemma DottedClause(build: Build, c: string) returns (i: nat)
    requires Clause(build, c) == Err(DataFusionUnavailable)
    ensures PathPoint(c, i)
  {
    hide Trim, LiteralValue, OperatorFree, SplitFrom, Field, Denotes;
    SplitIs(c, 0);
    var Split(op, left, right) := SplitFrom(c, 0).value;
    TrimTwice(right);
    LiteralIsExact(build, Trim(right), Null);
    var j := DottedField(build, Trim(left));
    var t := Trim(left);
    assert PathPoint(t, j) by { BareBefore(t, j); }
    var at := TrimmedPart(left);
    PointOfPart(left, at, t, j);
    i := at + j;
    assert c[0..|left|] == left;
    PointOfPart(c, 0, left, i);
  }

  lemma BareBefore(t: string, i: nat)
    requires i < |t| && QUOTE !in t[..i] && t[i] != QUOTE
    ensures Outside(t, i)
  {
    forall k | 0 <= k < i ensures t[k] != QUOTE { assert t[k] == t[..i][k]; }
    QuotesUnchanged(t, 0, i);
  }

  lemma {:induction false} ClauseAt(s: string, a: nat, clauses: seq<string>, k: nat) returns (at: nat)
    requires CutInto(s, a, clauses) && !Quoted(s, a) && k < |clauses|
    ensures at + |clauses[k]| <= |s| && s[at..at + |clauses[k]|] == clauses[k] && !Quoted(s, at)
    decreases |clauses|
  {
    hide IsCut, Quoted;
    CutStarts(s, a, clauses);
    if k == 0 {
      at := a;
    } else {
      AfterCut(s, a + |clauses[0]|);
      at := ClauseAt(s, a + |clauses[0]| + 3, clauses[1..], k - 1);
    }
  }

  lemma {:induction false} FailedClause(build: Build, clauses: seq<string>) returns (k: nat)
    requires ClausePredicates(build, clauses).Err?
    ensures k < |clauses| && Clause(build, Trim(clauses[k])).Err?
    ensures Clause(build, Trim(clauses[k])).error == ClausePredicates(build, clauses).error
    decreases |clauses|
  {
    hide Clause, Trim;
    if Clause(build, Trim(clauses[0])).Err? {
      k := 0;
    } else {
      var j := FailedClause(build, clauses[1..]);
      k := j + 1;
    }
  }

  lemma ClauseError(build: Build, c: string)
    requires Clause(build, c).Err?
    ensures Clause(build, c).error == UnsupportedSql || (!build.arrow && Clause(build, c).error == DataFusionUnavailable)
  {
    hide Trim, LiteralValue, OperatorFree, SplitFrom, Denotes;
    SplitIs(c, 0);
    if SplitFrom(c, 0).Ok? {
      TrimTwice(SplitFrom(c, 0).value.literal);
      LiteralIsExact(build, Trim(SplitFrom(c, 0).value.literal), Null);
    }
  }

  /** A filter that needs no engine and is no list of comparisons is refused as unsupported, in either build. */
  lemma RefusedAsUnsupported(build: Build, sql: string)
    requires LegacyPredicates(build, sql).Err? && (build.arrow || !NeedsEngine(sql))
    ensures LegacyPredicates(build, sql).error == UnsupportedSql
  {
    hide ClausePredicates, CutInto, ClausesFrom, Clause, Trim, Outside, BetweenDigits;
    if Closed(sql) {
      var clauses := Clauses(sql).value;
      SplitCutsExactly(sql);
      var k := FailedClause(build, clauses);
      ClauseError(build, Trim(clauses[k]));
      if Clause(build, Trim(clauses[k])).error == DataFusionUnavailable {
        var i := DottedClause(build, Trim(clauses[k]));
        NotQuotedYet(sql);
        var at := ClauseAt(sql, 0, clauses, k);
        var off := TrimmedPart(clauses[k]);
        PointOfPart(clauses[k], off, Trim(clauses[k]), i);
        PointOfPart(sql, at, clauses[k], off + i);
      }
    }
  }

  // ---------- the compiler, exactly ----------

  /**
   What the compiler makes of every text. Blank text is the filter that lets everything through.
   Text that names the reserved marker is refused. Text that needs the engine is refused without
   Arrow. Otherwise comparisons joined by AND compile to their predicates; with Arrow, text that
   needs the engine and is no such list compiles to itself with no predicates; the rest is refused.
   */
  lemma CompiledIsExact(build: Build, text: string)
    ensures var sql, r := Trim(text), Compiled(build, text);
      if sql == [] then r == Ok(CompiledFilter([], []))
      else if Mentions(sql, "__krabka_row_marker") then r == Err(UnsupportedSql)
      else if NeedsEngine(sql) && !build.arrow then r == Err(DataFusionUnavailable)
      else
        && (forall ps :: r == Ok(CompiledFilter(sql, ps)) <==>
              AreComparisons(build, sql, ps) || (ps == [] && NeedsEngine(sql) && !exists qs :: AreComparisons(build, sql, qs)))
        && (r == Err(UnsupportedSql) <==> !NeedsEngine(sql) && !exists qs :: AreComparisons(build, sql, qs))
        && (r.Ok? ==> r.value.sql == sql)
  {
    hide Trim, RequiresDataFusion, LegacyPredicates, AreComparisons, NeedsEngine, HasFieldReference, Mentions;
    var sql := Trim(text);
    ReferenceMeans(sql, RESERVED_ROW_MARKER_FIELD);
    NeedsEngineMeans(sql);
    forall ps ensures LegacyPredicates(build, sql) == Ok(ps) <==> AreComparisons(build, sql, ps) {
      LegacyIsExact(build, sql, ps);
    }
    if LegacyPredicates(build, sql).Err? && (build.arrow || !NeedsEngine(sql)) { RefusedAsUnsupported(build, sql); }
  }

  /** Whether a text compiles. */
  lemma AcceptedExactly(build: Build, text: string)
    ensures var sql := Trim(text);
      Compiled(build, text).Ok? <==>
      || sql == []
      || (!Mentions(sql, "__krabka_row_marker")
          && if NeedsEngine(sql) then build.arrow else exists ps :: AreComparisons(build, sql, ps))
  {
    hide Trim, Compiled, AreComparisons, NeedsEngine, Mentions;
    CompiledIsExact(build, text);
    var sql, r := Trim(text), Compiled(build, text);
    if sql != [] && !Mentions(sql, "__krabka_row_marker") && (build.arrow || !NeedsEngine(sql)) {
      if ps :| AreComparisons(build, sql, ps) {
        assert r == Ok(CompiledFilter(sql, ps));
      } else if NeedsEngine(sql) {
        assert r == Ok(CompiledFilter(sql, []));
      }
    }
  }

  // ---------- undoubling ----------

  /** Text without apostrophes is itself; a run of `n` apostrophes is half as many, rounded up; other text falls apart. */
  lemma {:induction false} UnescapedPlain(s: string)
    requires QUOTE !in s
    ensures Unescaped(s) == s
  {
    if s != [] { UnescapedPlain(s[1..]); }
  }

  lemma {:induction false} UnescapedRun(n: nat)
    ensures Unescaped(seq(n, i => QUOTE)) == seq((n + 1) / 2, i => QUOTE)
  {
    var s := seq(n, i => QUOTE);
    if n >= 2 {
      UnescapedRun(n - 2);
      assert s[2..] == seq(n - 2, i => QUOTE);
      assert seq((n + 1) / 2, i => QUOTE) == [QUOTE] + seq((n - 1) / 2, i => QUOTE);
    } else if n == 1 {
      assert s == [QUOTE] && s[1..] == [] && seq(1, i => QUOTE) == [QUOTE];
    } else {
      assert s == [] && seq(0, i => QUOTE) == [];
    }
  }

  lemma UnescapedStep(s: string)
    requires s != []
    ensures Unescaped(s) == if s[0] == QUOTE && |s| > 1 && s[1] == QUOTE then [QUOTE] + Unescaped(s[2..]) else [s[0]] + Unescaped(s[1..])
  {
  }

  lemma {:induction false} UnescapedParts(a: string, b: string)
    requires a == [] || b == [] || a[|a| - 1] != QUOTE || b[0] != QUOTE
    ensures Unescaped(a + b) == Unescaped(a) + Unescaped(b)
    decreases |a|
  {
    hide Unescaped;
    if a == [] {
      assert a + b == b;
      UnescapedPlain(a);
    } else {
      UnescapedStep(a);
      UnescapedStep(a + b);
      var n := if a[0] == QUOTE && |a| > 1 && a[1] == QUOTE then 2 else 1;
      assert (a + b)[n..] == a[n..] + b;
      UnescapedParts(a[n..], b);
    }
  }

  // ---------- strings and words ----------

  lemma {:induction false} QuotesAreCounted(s: string, i: nat)
    requires i <= |s|
    ensures QuotesBefore(s, i) == multiset(s[..i])['\'']
  {
    if i > 0 {
      QuotesAreCounted(s, i - 1);
      assert s[..i] == s[..i - 1] + [s[i - 1]];
    }
  }

  /** A position is outside strings when an even number of apostrophes precedes it and it is none itself. */
  lemma OutsideIsExact(s: string, i: nat)
    ensures Outside(s, i) <==> i < |s| && s[i] != '\'' && multiset(s[..i])['\''] % 2 == 0
  {
    if i < |s| { QuotesAreCounted(s, i); }
  }

  /** No identifier goes on across the two texts. */
  predicate Breaks(a: string, b: string) {
    a == [] || b == [] || !IsIdentifierChar(a[|a| - 1]) || !IsIdentifierChar(b[0])
  }

  /** `w` stands in the text as a whole word outside strings, between `a` and `b`. */
  predicate Between(s: string, a: string, w: string, b: string) {
    s == a + w + b && Closed(a) && Breaks(a, w) && Breaks(w, b)
  }

  lemma WordStands(s: string, i: nat, w: string)
    requires IsWord(w)
    ensures Spelled(s, i, w) <==> exists a, b :: |a| == i && Between(s, a, w, b)
  {
    if Spelled(s, i, w) {
      var a, b := s[..i], s[i + |w|..];
      assert s == a + s[i..i + |w|] + b;
      ClosedPrefix(s, i);
      assert |a| == i && Between(s, a, w, b);
    }
    if a, b :| |a| == i && Between(s, a, w, b) {
      assert s[i..i + |w|] == w && s[..i] == a;
      ClosedPrefix(s, i);
      assert s[i] == w[0] && IsIdentifierChar(w[0]) && IsIdentifierChar(w[|w| - 1]);
      if i > 0 { assert s[i - 1] == a[i - 1]; }
      if b != [] { assert s[i + |w|] == b[0]; }
    }
  }

  lemma ClosedPrefix(s: string, i: nat)
    requires i <= |s|
    ensures Closed(s[..i]) <==> !Quoted(s, i)
  {
    QuotesOfPrefix(s[..i], s[i..], i);
    assert s[..i] + s[i..] == s;
  }

  /** A word is mentioned exactly when it stands somewhere between the rest of the text. */
  lemma MentionsIsExact(s: string, w: string)
    requires IsWord(w)
    ensures Mentions(s, w) <==> exists a, b :: Between(s, a, w, b)
  {
    hide Spelled, Between;
    if i: nat :| Spelled(s, i, w) { WordStands(s, i, w); }
    if a, b :| Between(s, a, w, b) { WordStands(s, |a|, w); }
  }

  /** The text is cut exactly at a whole word AND outside strings, in any spelling. */
  lemma CutIsExact(s: string, i: nat)
    ensures IsCut(s, i) <==> exists a, w, b :: |a| == i && Between(s, a, w, b) && EqIgnoreCase(w, "AND")
  {
    hide Between, EqIgnoreCase;
    if IsCut(s, i) {
      KeywordIsSpelled(s, i, AND);
      WordStands(s, i, s[i..i + 3]);
    }
    if a, w, b :| |a| == i && Between(s, a, w, b) && EqIgnoreCase(w, "AND") {
      AndIsAWord(w);
      WordStands(s, i, w);
      SpelledAnd(s, i, w);
    }
  }

  lemma AndIsAWord(w: string)
    requires EqIgnoreCase(w, "AND")
    ensures IsWord(w) && |w| == 3
  {
    forall k | 0 <= k < |w| ensures IsIdentifierChar(w[k]) { assert Lower(w[k]) == Lower("AND"[k]); }
  }

  lemma SpelledAnd(s: string, i: nat, w: string)
    requires Spelled(s, i, w) && EqIgnoreCase(w, "AND") && |w| == 3
    ensures IsCut(s, i)
  {
    assert s[i..i + 3] == w;
  }
}
