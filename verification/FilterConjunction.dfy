/**
 What the filter compiler's scanners see of texts joined by a separator between spaces: nothing
 but what they see of the parts. Joining by AND is what its clauses are made of.
 */
module FilterConjunction {
  import opened Text
  import opened QuoteScan
  import opened FilterLang

  /** No string is left open. */
  predicate Closed(s: string) { !Quoted(s, |s|) }

  predicate Separator(sep: string) {
    |sep| >= 2 && sep[0] == ' ' && sep[|sep| - 1] == ' ' && QUOTE !in sep
  }

  // ---------- quotes ----------

  lemma QuotesOfConcat(a: string, b: string, j: nat)
    requires j <= |b|
    ensures QuotesBefore(a + b, |a| + j) == QuotesBefore(a, |a|) + QuotesBefore(b, j)
  {
    assert (a + b)[..|a|] == a;
    QuotesOfSlice(a + b, 0, |a|, |a|);
    QuotesOfSlice(a + b, |a|, |a + b|, j);
    assert (a + b)[0..|a|] == a && (a + b)[|a|..|a + b|] == b;
  }

  lemma QuotesOfPrefix(a: string, b: string, i: nat)
    requires i <= |a|
    ensures QuotesBefore(a + b, i) == QuotesBefore(a, i)
  {
    QuotesOfSlice(a + b, 0, |a|, i);
    assert (a + b)[0..|a|] == a;
  }

  lemma OutsideLeft(a: string, b: string, i: nat)
    requires i < |a|
    ensures Outside(a + b, i) == Outside(a, i)
  {
    QuotesOfPrefix(a, b, i);
  }

  lemma OutsideRight(a: string, b: string, j: nat)
    requires Closed(a)
    ensures Outside(a + b, |a| + j) == Outside(b, j)
  {
    if j < |b| { QuotesOfConcat(a, b, j); }
  }

  lemma BareIsOutside(s: string, i: nat)
    requires QUOTE !in s && i <= |s|
    ensures QuotesBefore(s, i) == 0 && (i < |s| ==> Outside(s, i))
  {
    QuotesUnchanged(s, 0, i);
  }

  /** A closed text followed by a separator is closed, and so is the whole when the rest is. */
  lemma JoinIsClosed(a: string, b: string)
    requires Closed(a)
    ensures Closed(a + b) <==> Closed(b)
  {
    QuotesOfConcat(a, b, |b|);
  }

  lemma SeparatedIsClosed(a: string, sep: string)
    requires Closed(a) && Separator(sep)
    ensures Closed(a + sep)
  {
    BareIsOutside(sep, |sep|);
    JoinIsClosed(a, sep);
  }

  // ---------- words ----------

  predicate IsWord(w: string) { w != [] && forall k | 0 <= k < |w| :: IsIdentifierChar(w[k]) }

  lemma KeywordStart(s: string, j: nat, word: string)
    requires KeywordAt(s, j, word) && word != []
    ensures Lower(s[j]) == Lower(word[0])
  {
    assert s[j..j + |word|][0] == s[j];
  }

  lemma ReferenceStart(s: string, j: nat, field: string)
    requires FieldReferenceAt(s, j, field) && field != []
    ensures s[j] == field[0]
  {
    assert s[j..j + |field|][0] == s[j];
  }

  /** The word `w` stands at `i`, outside strings and whole. */
  predicate Spelled(s: string, i: nat, w: string) {
    Outside(s, i) && FieldReferenceAt(s, i, w)
  }

  lemma SpelledChars(s: string, i: nat, w: string)
    requires IsWord(w) && FieldReferenceAt(s, i, w)
    ensures forall k | i <= k < i + |w| :: IsIdentifierChar(s[k])
  {
    forall k | i <= k < i + |w| ensures IsIdentifierChar(s[k]) { assert s[i..i + |w|][k - i] == w[k - i]; }
  }

  /** A word lies on one side of a space. */
  lemma WordOnOneSide(a: string, b: string, i: nat, w: string)
    requires IsWord(w) && FieldReferenceAt(a + b, i, w)
    requires (a != [] && a[|a| - 1] == ' ') || (b != [] && b[0] == ' ')
    ensures i + |w| <= |a| || |a| <= i
  {
    SpelledChars(a + b, i, w);
    assert a != [] ==> (a + b)[|a| - 1] == a[|a| - 1];
    assert b != [] ==> (a + b)[|a|] == b[0];
  }

  lemma SpelledLeft(a: string, b: string, i: nat, w: string)
    requires IsWord(w) && i + |w| <= |a|
    requires a[|a| - 1] == ' ' || (b != [] && b[0] == ' ')
    ensures Spelled(a + b, i, w) == Spelled(a, i, w)
  {
    OutsideLeft(a, b, i);
    assert (a + b)[i..i + |w|] == a[i..i + |w|];
    if i + |w| == |a| && FieldReferenceAt(a, i, w) { SpelledChars(a, i, w); }
  }

  lemma SpelledRight(a: string, b: string, j: nat, w: string)
    requires IsWord(w) && Closed(a)
    requires (a != [] && a[|a| - 1] == ' ') || (b != [] && b[0] == ' ')
    ensures Spelled(a + b, |a| + j, w) == Spelled(b, j, w)
  {
    OutsideRight(a, b, j);
    if j + |w| <= |b| {
      assert (a + b)[|a| + j..|a| + j + |w|] == b[j..j + |w|];
      if j == 0 && TokenAt(b, 0, w) { assert b[0..|w|][0] == b[0] == w[0]; }
    }
  }

  ghost predicate Mentions(s: string, w: string) {
    exists i: nat :: Spelled(s, i, w)
  }

  lemma MentionsEither(a: string, b: string, w: string)
    requires IsWord(w) && Closed(a)
    requires (a != [] && a[|a| - 1] == ' ') || (b != [] && b[0] == ' ')
    ensures Mentions(a + b, w) <==> Mentions(a, w) || Mentions(b, w)
  {
    hide Spelled;
    if i: nat :| Spelled(a, i, w) { InText(a, i, w); SpelledLeft(a, b, i, w); }
    if j: nat :| Spelled(b, j, w) { SpelledRight(a, b, j, w); }
    if i: nat :| Spelled(a + b, i, w) {
      InText(a + b, i, w);
      WordOnOneSide(a, b, i, w);
      if i + |w| <= |a| { SpelledLeft(a, b, i, w); } else { SpelledRight(a, b, i - |a|, w); }
    }
  }

  lemma InText(s: string, i: nat, w: string)
    requires Spelled(s, i, w)
    ensures i + |w| <= |s| && FieldReferenceAt(s, i, w)
  {
  }

  /** The words of two texts and a separator are the words of each. */
  lemma MentionsJoined(a: string, sep: string, b: string, w: string)
    requires IsWord(w) && Closed(a) && Separator(sep)
    ensures Mentions(a + sep + b, w) <==> Mentions(a, w) || Mentions(sep, w) || Mentions(b, w)
  {
    hide Mentions;
    MentionsEither(a, sep, w);
    SeparatedIsClosed(a, sep);
    MentionsEither(a + sep, b, w);
  }

  lemma KeywordIsSpelled(s: string, i: nat, word: string)
    requires IsIdentifier(word) && Outside(s, i) && KeywordAt(s, i, word)
    ensures var w := s[i..i + |word|]; IsWord(w) && EqIgnoreCase(w, word) && Spelled(s, i, w)
  {
    var w := s[i..i + |word|];
    forall k | 0 <= k < |w| ensures IsIdentifierChar(w[k]) { assert IsIdentifierChar(word[k]) && Lower(w[k]) == Lower(word[k]); }
  }

  /** A keyword is there when some spelling of it is. */
  lemma HasWordMeans(s: string, word: string, w: string)
    requires IsIdentifier(word) && EqIgnoreCase(w, word) && Mentions(s, w)
    ensures HasWord(s, word)
  {
    var i: nat :| Spelled(s, i, w);
    assert Outside(s, i) && KeywordAt(s, i, word);
  }

  lemma HasWordJoined(a: string, sep: string, b: string, word: string)
    requires IsIdentifier(word) && Closed(a) && Separator(sep)
    ensures HasWord(a + sep + b, word) <==> HasWord(a, word) || HasWord(sep, word) || HasWord(b, word)
  {
    forall s | s in [a, sep, b] && HasWord(s, word) ensures HasWord(a + sep + b, word) {
      var i: nat :| Outside(s, i) && KeywordAt(s, i, word);
      KeywordIsSpelled(s, i, word);
      MentionsJoined(a, sep, b, s[i..i + |word|]);
      HasWordMeans(a + sep + b, word, s[i..i + |word|]);
    }
    if i: nat :| Outside(a + sep + b, i) && KeywordAt(a + sep + b, i, word) {
      var w := (a + sep + b)[i..i + |word|];
      KeywordIsSpelled(a + sep + b, i, word);
      MentionsJoined(a, sep, b, w);
      forall s | s in [a, sep, b] && Mentions(s, w) ensures HasWord(s, word) { HasWordMeans(s, word, w); }
    }
  }

  lemma HasReferenceJoined(a: string, sep: string, b: string, name: string)
    requires IsIdentifier(name) && Closed(a) && Separator(sep)
    ensures HasFieldReference(a + sep + b, name) <==>
      HasFieldReference(a, name) || HasFieldReference(sep, name) || HasFieldReference(b, name)
  {
    ReferenceMeans(a, name);
    ReferenceMeans(sep, name);
    ReferenceMeans(b, name);
    ReferenceMeans(a + sep + b, name);
    MentionsJoined(a, sep, b, name);
  }

  lemma ReferenceMeans(s: string, name: string)
    ensures HasFieldReference(s, name) <==> Mentions(s, name)
  {
    if i: nat :| Outside(s, i) && FieldReferenceAt(s, i, name) { assert Spelled(s, i, name); }
    if i: nat :| Spelled(s, i, name) { assert Outside(s, i) && FieldReferenceAt(s, i, name); }
  }

  // ---------- characters ----------

  ghost predicate Separates(s: string, i: nat) {
    Outside(s, i) && s[i] == '.' && !DecimalPointAt(s, i)
  }

  lemma SeparatorMeans(s: string)
    ensures HasPathSeparator(s) <==> exists i: nat :: Separates(s, i)
  {
    if i: nat :| Outside(s, i) && s[i] == '.' && !DecimalPointAt(s, i) { assert Separates(s, i); }
    if i: nat :| Separates(s, i) { assert Outside(s, i) && s[i] == '.' && !DecimalPointAt(s, i); }
  }

  lemma SeparatesLeft(a: string, b: string, i: nat)
    requires i < |a| && (b == [] || b[0] == ' ' || a[|a| - 1] == ' ')
    ensures Separates(a + b, i) == Separates(a, i)
  {
    OutsideLeft(a, b, i);
  }

  lemma SeparatesRight(a: string, b: string, j: nat)
    requires Closed(a) && a != [] && (a[|a| - 1] == ' ' || (b != [] && b[0] == ' '))
    ensures Separates(a + b, |a| + j) == Separates(b, j)
  {
    OutsideRight(a, b, j);
  }

  lemma PathSeparatorEither(a: string, b: string)
    requires Closed(a) && a != [] && b != [] && (a[|a| - 1] == ' ' || b[0] == ' ')
    ensures HasPathSeparator(a + b) <==> HasPathSeparator(a) || HasPathSeparator(b)
  {
    SeparatorMeans(a);
    SeparatorMeans(b);
    SeparatorMeans(a + b);
    if i: nat :| Separates(a, i) { SeparatesLeft(a, b, i); }
    if j: nat :| Separates(b, j) { SeparatesRight(a, b, j); }
    if i: nat :| Separates(a + b, i) {
      if i < |a| { SeparatesLeft(a, b, i); } else { SeparatesRight(a, b, i - |a|); }
    }
  }

  lemma HasCharEither(a: string, b: string, c: char)
    requires Closed(a)
    ensures HasChar(a + b, c) <==> HasChar(a, c) || HasChar(b, c)
  {
    if i: nat :| Outside(a, i) && a[i] == c { OutsideLeft(a, b, i); assert (a + b)[i] == c; }
    if j: nat :| Outside(b, j) && b[j] == c { OutsideRight(a, b, j); assert (a + b)[|a| + j] == c; }
    if i: nat :| Outside(a + b, i) && (a + b)[i] == c {
      if i < |a| { OutsideLeft(a, b, i); } else { OutsideRight(a, b, i - |a|); assert b[i - |a|] == c; }
    }
  }

  lemma HasCharJoined(a: string, sep: string, b: string, c: char)
    requires Closed(a) && Separator(sep)
    ensures HasChar(a + sep + b, c) <==> HasChar(a, c) || HasChar(sep, c) || HasChar(b, c)
  {
    hide HasChar;
    HasCharEither(a, sep, c);
    SeparatedIsClosed(a, sep);
    HasCharEither(a + sep, b, c);
  }

  lemma PathSeparatorJoined(a: string, sep: string, b: string)
    requires Closed(a) && Separator(sep) && a != [] && b != []
    ensures HasPathSeparator(a + sep + b) <==> HasPathSeparator(a) || HasPathSeparator(sep) || HasPathSeparator(b)
  {
    hide HasPathSeparator;
    PathSeparatorEither(a, sep);
    SeparatedIsClosed(a, sep);
    PathSeparatorEither(a + sep, b);
  }

  /** Only a part can make the whole need the DataFusion engine. */
  lemma NeedsDataFusionJoined(a: string, sep: string, b: string)
    requires Closed(a) && Separator(sep) && a != [] && b != []
    ensures RequiresDataFusion(a + sep + b) <==> RequiresDataFusion(a) || RequiresDataFusion(sep) || RequiresDataFusion(b)
  {
    hide HasWord, HasChar, HasPathSeparator;
    HasWordJoined(a, sep, b, "OR");
    HasWordJoined(a, sep, b, "IN");
    HasWordJoined(a, sep, b, "IS");
    HasWordJoined(a, sep, b, "LIKE");
    HasCharJoined(a, sep, b, '(');
    HasCharJoined(a, sep, b, ')');
    HasCharJoined(a, sep, b, '[');
    HasCharJoined(a, sep, b, ']');
    PathSeparatorJoined(a, sep, b);
  }

  // ---------- conjunctions ----------

  const JOINT := " AND "

  function Joined(cs: seq<string>): string
    requires cs != []
  {
    if |cs| == 1 then cs[0] else cs[0] + JOINT + Joined(cs[1..])
  }

  /** The clauses as the splitter leaves them, with the spaces around each AND. */
  function Pieces(cs: seq<string>, lead: string): seq<string> {
    if cs == [] then []
    else if |cs| == 1 then [lead + cs[0]]
    else [lead + cs[0] + [' ']] + Pieces(cs[1..], [' '])
  }

  lemma IsCutMeans(s: string, i: nat)
    ensures IsCut(s, i) <==> i + 3 <= |s| && EqIgnoreCase(s[i..i + 3], AND) && Spelled(s, i, s[i..i + 3]) && IsWord(s[i..i + 3])
  {
    if IsCut(s, i) { KeywordIsSpelled(s, i, AND); }
  }

  /** After a space, cuts are where they are in the rest alone. */
  lemma CutShift(u: string, t: string, j: nat)
    requires u != [] && u[|u| - 1] == ' ' && Closed(u)
    ensures IsCut(u + t, |u| + j) <==> IsCut(t, j)
  {
    hide IsCut, Spelled, IsWord, EqIgnoreCase;
    IsCutMeans(u + t, |u| + j);
    IsCutMeans(t, j);
    if j + 3 <= |t| {
      assert (u + t)[|u| + j..|u| + j + 3] == t[j..j + 3];
      if IsWord(t[j..j + 3]) { SpelledRight(u, t, j, t[j..j + 3]); }
    }
  }

  lemma {:induction false} CutsShift(u: string, t: string, a: nat, clauses: seq<string>)
    requires u != [] && u[|u| - 1] == ' ' && Closed(u) && CutInto(t, a, clauses)
    ensures CutInto(u + t, |u| + a, clauses)
    decreases |clauses|
  {
    hide IsCut, Closed;
    var b := a + |clauses[0]|;
    assert (u + t)[|u| + a..|u| + b] == t[a..b];
    forall j: nat | |u| + a <= j < |u| + b ensures !IsCut(u + t, j) { CutShift(u, t, j - |u|); }
    if |clauses| > 1 {
      CutShift(u, t, b);
      CutsShift(u, t, b + 3, clauses[1..]);
    }
  }

  /** A clause without an unquoted AND is not cut. */
  lemma NoCutBefore(c: string, t: string, j: nat)
    requires !HasWord(c, AND) && Closed(c) && j <= |c|
    ensures !IsCut(c + JOINT + t, j)
  {
    var text := c + JOINT + t;
    assert text == c + (JOINT + t);
    IsCutMeans(text, j);
    assert text[|c|] == ' ';
    if j == |c| {
      SpaceIsNoCut(text, j);
    } else if IsCut(text, j) {
      var w := text[j..j + 3];
      WordOnOneSide(c, JOINT + t, j, w);
      SpelledLeft(c, JOINT + t, j, w);
      HasWordMeans(c, AND, w);
    }
  }

  lemma CutBetween(c: string, t: string)
    requires Closed(c)
    ensures IsCut(c + JOINT + t, |c| + 1)
  {
    var text := c + JOINT + t;
    assert text == c + (JOINT + t);
    assert text[|c| + 1..|c| + 4] == AND;
    assert text[|c|] == ' ' && text[|c| + 4] == ' ';
    OutsideRight(c, JOINT + t, 1);
    BareIsOutside(JOINT, 1);
    OutsideLeft(JOINT, t, 1);
  }

  predicate Conjunct(c: string) { Closed(c) && c != [] && !IsWhitespace(c[0]) && !IsWhitespace(c[|c| - 1]) }

  lemma {:induction false} JoinedIsClosed(cs: seq<string>)
    requires cs != [] && forall k | 0 <= k < |cs| :: Conjunct(cs[k])
    ensures Conjunct(Joined(cs))
  {
    hide Closed, IsWhitespace;
    if |cs| > 1 {
      JoinedIsClosed(cs[1..]);
      SeparatedIsClosed(cs[0], JOINT);
      JoinIsClosed(cs[0] + JOINT, Joined(cs[1..]));
    }
  }

  lemma {:induction false} LeadingPiece(cs: seq<string>)
    requires cs != []
    ensures var ps, qs := Pieces(cs, []), Pieces(cs, [' ']);
      |ps| == |qs| == |cs| && qs[0] == [' '] + ps[0] && qs[1..] == ps[1..]
    decreases |cs|
  {
    if |cs| > 1 {
      LeadingPiece(cs[1..]);
      assert [' '] + cs[0] + [' '] == [' '] + ([] + cs[0] + [' ']);
    } else {
      assert [' '] + cs[0] == [' '] + ([] + cs[0]);
    }
  }

  /** One more conjunct in front. */
  lemma OneMoreConjunct(c: string, t: string, ps: seq<string>)
    requires Closed(c) && !HasWord(c, AND) && CutInto(t, 0, ps)
    ensures CutInto(c + JOINT + t, 0, [c + [' ']] + ([[' '] + ps[0]] + ps[1..]))
  {
    hide IsCut, HasWord, Closed, CutInto;
    CutStarts(t, 0, ps);
    var text, tail := c + JOINT + t, [[' '] + ps[0]] + ps[1..];
    FirstConjunct(c, t);
    LaterConjuncts(c, t, ps);
    assert text[0..|c| + 1] == c + [' '];
    CutOff(text, 0, c + [' '], tail);
  }

  lemma LaterConjuncts(c: string, t: string, ps: seq<string>)
    requires Closed(c) && CutInto(t, 0, ps)
    ensures CutInto(c + JOINT + t, |c| + 4, [[' '] + ps[0]] + ps[1..])
  {
    hide IsCut, Closed, CutInto;
    var text, u := c + JOINT + t, c + JOINT;
    SeparatedIsClosed(c, JOINT);
    CutStarts(t, 0, ps);
    LaterText(c, t, |ps[0]|);
    SpaceIsNoCut(text, |c| + 4);
    forall j: nat | |c| + 4 <= j < |u| + |ps[0]| ensures !IsCut(text, j) { if j >= |u| { CutShift(u, t, j - |u|); } }
    if |ps| > 1 {
      CutShift(u, t, |ps[0]|);
      CutsShift(u, t, |ps[0]| + 3, ps[1..]);
    }
    CutOff(text, |c| + 4, [' '] + ps[0], ps[1..]);
  }

  lemma LaterText(c: string, t: string, n: nat)
    requires n <= |t|
    ensures var text := c + JOINT + t;
      text[|c| + 4] == ' ' && text[|c| + 4..|c| + 5 + n] == [' '] + t[..n]
  {
  }

  lemma SpaceIsNoCut(s: string, i: nat)
    requires i < |s| && s[i] == ' '
    ensures !IsCut(s, i)
  {
    if IsCut(s, i) { CutIsAWord(s, i, i); }
  }

  lemma FirstConjunct(c: string, t: string)
    requires Closed(c) && !HasWord(c, AND)
    ensures IsCut(c + JOINT + t, |c| + 1) && forall j: nat | j < |c| + 1 :: !IsCut(c + JOINT + t, j)
  {
    CutBetween(c, t);
    forall j: nat | j < |c| + 1 ensures !IsCut(c + JOINT + t, j) { NoCutBefore(c, t, j); }
  }

  lemma UncutIsWhole(c: string)
    requires !HasWord(c, AND)
    ensures CutInto(c, 0, [c])
  {
    assert c[0..|c|] == c;
    forall j: nat | 0 <= j < |c| ensures !IsCut(c, j) {}
  }

  /** A conjunction is cut into its conjuncts. */
  lemma {:induction false} JoinedCuts(cs: seq<string>)
    requires cs != [] && forall k | 0 <= k < |cs| :: Closed(cs[k]) && !HasWord(cs[k], AND)
    ensures CutInto(Joined(cs), 0, Pieces(cs, []))
  {
    hide Closed, HasWord, CutInto, Pieces;
    if |cs| == 1 {
      UncutIsWhole(cs[0]);
      OnePiece(cs);
    } else {
      JoinedCuts(cs[1..]);
      OneMoreConjunct(cs[0], Joined(cs[1..]), Pieces(cs[1..], []));
      MorePieces(cs);
    }
  }

  lemma OnePiece(cs: seq<string>)
    requires |cs| == 1
    ensures Pieces(cs, []) == [cs[0]]
  {
    assert [] + cs[0] == cs[0];
  }

  lemma MorePieces(cs: seq<string>)
    requires |cs| > 1
    ensures var ps := Pieces(cs[1..], []);
      ps != [] && Pieces(cs, []) == [cs[0] + [' ']] + ([[' '] + ps[0]] + ps[1..])
  {
    LeadingPiece(cs[1..]);
    var ps, qs := Pieces(cs[1..], []), Pieces(cs[1..], [' ']);
    assert qs == [[' '] + ps[0]] + ps[1..];
    assert [] + cs[0] + [' '] == cs[0] + [' '];
  }

  // ---------- reading a conjunction ----------

  lemma TrimLead(lead: string, s: string)
    requires lead in {[], [' ']}
    ensures TrimStart(lead + s) == TrimStart(s)
  {
    SpaceIsWhitespace();
    if lead == [] { assert lead + s == s; } else { assert (lead + s)[1..] == s; }
  }

  lemma TrimTail(s: string, tail: string)
    requires tail in {[], [' ']}
    ensures TrimEnd(s + tail) == TrimEnd(s)
  {
    SpaceIsWhitespace();
    if tail == [] { assert s + tail == s; } else { assert (s + tail)[..|s|] == s; }
  }

  lemma NotTrimmed(c: string, tail: string)
    requires Conjunct(c)
    ensures TrimStart(c + tail) == c + tail && TrimEnd(c) == c
  {
    hide IsWhitespace, Closed;
  }

  lemma PieceTrims(lead: string, c: string, tail: string)
    requires Conjunct(c) && lead in {[], [' ']} && tail in {[], [' ']}
    ensures Trim(lead + c + tail) == c
  {
    hide TrimStart, TrimEnd, Conjunct;
    assert lead + c + tail == lead + (c + tail);
    TrimLead(lead, c + tail);
    NotTrimmed(c, tail);
    TrimTail(c, tail);
  }

  lemma SpaceIsWhitespace()
    ensures IsWhitespace(' ')
  {
  }

  lemma {:induction false} PiecesParse(build: Build, cs: seq<string>, lead: string)
    requires (forall k | 0 <= k < |cs| :: Conjunct(cs[k])) && lead in {[], [' ']}
    ensures ClausePredicates(build, Pieces(cs, lead)) == ClausePredicates(build, cs)
  {
    hide Conjunct, Clause, Trim;
    if cs != [] {
      PieceTrims(lead, cs[0], [' ']);
      PieceTrims(lead, cs[0], []);
      PieceTrims([], cs[0], []);
      assert lead + cs[0] + [] == lead + cs[0] && [] + cs[0] + [] == cs[0];
      var ps := Pieces(cs, lead);
      if |cs| > 1 {
        PiecesParse(build, cs[1..], [' ']);
        assert ps[1..] == Pieces(cs[1..], [' ']);
      } else {
        assert ps[1..] == cs[1..] == [];
      }
    }
  }

  /** A conjunction of clauses without an AND of their own means its clauses, in order. */
  lemma ConjunctionParses(build: Build, cs: seq<string>)
    requires cs != [] && forall k | 0 <= k < |cs| :: Conjunct(cs[k]) && !HasWord(cs[k], AND)
    ensures LegacyPredicates(build, Joined(cs)) == ClausePredicates(build, cs)
  {
    hide CutInto, ClausePredicates, HasWord, ClausesFrom;
    var text := Joined(cs);
    JoinedIsClosed(cs);
    JoinedCuts(cs);
    SplitCutsExactly(text);
    CutIntoIsUnique(text, 0, Clauses(text).value, Pieces(cs, []));
    PiecesParse(build, cs, []);
  }

  lemma {:induction false} BlankIsRefused(build: Build, clauses: seq<string>, k: nat)
    requires k < |clauses| && Trim(clauses[k]) == []
    ensures ClausePredicates(build, clauses).Err?
  {
    hide Trim;
    if k > 0 { BlankIsRefused(build, clauses[1..], k - 1); }
  }

  /** Two cuts with nothing but a space between, or one at the start, leave a blank clause. */
  lemma {:induction false} BlankBetween(s: string, a: nat, clauses: seq<string>, p: nat) returns (k: nat)
    requires CutInto(s, a, clauses) && IsCut(s, p)
    requires p == a || (p >= a + 4 && IsCut(s, p - 4) && s[p - 1] == ' ')
    ensures k < |clauses| && Trim(clauses[k]) == []
    decreases |clauses|
  {
    hide CutInto, IsCut, Trim;
    CutStarts(s, a, clauses);
    CutText(s, p);
    var b := a + |clauses[0]|;
    if p == a {
      TrimsToNothing();
      k := 0;
    } else {
      CutText(s, p - 4);
      assert |clauses| > 1 && b <= p - 4;
      if b == p - 4 {
        CutStarts(s, p - 1, clauses[1..]);
        SpaceIsNoCut(s, p - 1);
        assert s[p - 1..p] == [' '];
        TrimsToNothing();
        k := 1;
      } else {
        CutsApart(s, b, p - 4);
        k := BlankBetween(s, b + 3, clauses[1..], p);
        k := k + 1;
      }
    }
  }

  lemma TrimsToNothing()
    ensures Trim([]) == [] && Trim([' ']) == []
  {
    assert TrimStart([' ']) == TrimStart([]) == [];
  }

  /** A conjunct that starts with an AND is cut there, just after the AND before it. */
  lemma {:induction false} AndConjunctIsCut(cs: seq<string>, i: nat) returns (p: nat)
    requires i < |cs| && (forall k | 0 <= k < |cs| :: Closed(cs[k])) && IsCut(cs[i], 0)
    ensures IsCut(Joined(cs), p)
    ensures p == 0 || (p >= 4 && IsCut(Joined(cs), p - 4) && Joined(cs)[p - 1] == ' ')
    decreases |cs|
  {
    hide IsCut, Closed;
    p := 0;
    if |cs| > 1 {
      var c, t := cs[0], Joined(cs[1..]);
      if i == 0 {
        CutStays(c, t);
      } else {
        var q := AndConjunctIsCut(cs[1..], i - 1);
        p := |c| + 5 + q;
        SeparatedIsClosed(c, JOINT);
        CutShift(c + JOINT, t, q);
        CutText(t, q);
        if q == 0 {
          CutBetween(c, t);
        } else {
          CutShift(c + JOINT, t, q - 4);
        }
      }
    }
  }

  lemma CutStays(c: string, t: string)
    requires IsCut(c, 0)
    ensures IsCut(c + JOINT + t, 0)
  {
    var text := c + JOINT + t;
    assert text == c + (JOINT + t);
    IsCutMeans(c, 0);
    assert text[0..3] == c[0..3];
    SpelledLeft(c, JOINT + t, 0, c[0..3]);
    IsCutMeans(text, 0);
  }

  /** A conjunction with a conjunct that starts with AND is refused. */
  lemma AndConjunctIsRefused(build: Build, cs: seq<string>, i: nat)
    requires i < |cs| && (forall k | 0 <= k < |cs| :: Closed(cs[k])) && IsCut(cs[i], 0)
    ensures LegacyPredicates(build, Joined(cs)).Err?
  {
    hide IsCut, CutInto, ClausePredicates, ClausesFrom;
    var text := Joined(cs);
    if Clauses(text).Ok? {
      var p := AndConjunctIsCut(cs, i);
      SplitCutsExactly(text);
      var k := BlankBetween(text, 0, Clauses(text).value, p);
      BlankIsRefused(build, Clauses(text).value, k);
    }
  }

  // ---------- what a conjunction mentions ----------

  lemma JointIsBare()
    ensures Separator(JOINT) && !RequiresDataFusion(JOINT) && !HasFieldReference(JOINT, RESERVED_ROW_MARKER_FIELD)
  {
    forall i: nat, word: string | word in {"OR", "IN", "IS", "LIKE"} ensures !KeywordAt(JOINT, i, word) {
      assert 0 < i <= 5 ==> i == 1 || i == 5 || IsIdentifierChar(JOINT[i - 1]);
      if KeywordAt(JOINT, i, word) { KeywordStart(JOINT, i, word); }
    }
    assert forall i: nat | i < |JOINT| :: JOINT[i] !in {'(', ')', '[', ']', '.'};
  }

  lemma {:induction false} JoinedNeedsDataFusion(cs: seq<string>)
    requires cs != [] && forall k | 0 <= k < |cs| :: Closed(cs[k]) && cs[k] != []
    ensures Joined(cs) != []
    ensures RequiresDataFusion(Joined(cs)) <==> exists k | 0 <= k < |cs| :: RequiresDataFusion(cs[k])
  {
    hide Closed, RequiresDataFusion;
    if |cs| > 1 {
      var rest := cs[1..];
      JoinedNeedsDataFusion(rest);
      JointIsBare();
      NeedsDataFusionJoined(cs[0], JOINT, Joined(rest));
      if k :| 0 <= k < |rest| && RequiresDataFusion(rest[k]) { assert RequiresDataFusion(cs[k + 1]); }
      if k :| 0 <= k < |cs| && RequiresDataFusion(cs[k]) { assert k > 0 ==> rest[k - 1] == cs[k]; }
    }
  }

  lemma {:induction false} JoinedReferences(cs: seq<string>)
    requires cs != [] && forall k | 0 <= k < |cs| :: Closed(cs[k])
    ensures HasFieldReference(Joined(cs), RESERVED_ROW_MARKER_FIELD) <==>
      exists k | 0 <= k < |cs| :: HasFieldReference(cs[k], RESERVED_ROW_MARKER_FIELD)
  {
    hide Closed, HasFieldReference;
    var name := RESERVED_ROW_MARKER_FIELD;
    if |cs| > 1 {
      var rest := cs[1..];
      JoinedReferences(rest);
      JointIsBare();
      HasReferenceJoined(cs[0], JOINT, Joined(rest), name);
      if k :| 0 <= k < |rest| && HasFieldReference(rest[k], name) { assert HasFieldReference(cs[k + 1], name); }
      if k :| 0 <= k < |cs| && HasFieldReference(cs[k], name) { assert k > 0 ==> rest[k - 1] == cs[k]; }
    }
  }
}
