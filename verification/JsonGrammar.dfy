/** The language the C++ SDK's JSON parser accepts, and what each text of it means (json.cc). */
module JsonGrammar {
  import opened Wrappers
  import opened Json

  // A `Layout` is a document written out: what stands between the tokens, and how each character of a
  // string is spelled. Nothing here is said with the parser's own functions.

  datatype Layout =
    | Word(word: string)
    | Numeral(text: string)
    | Quoted(pieces: seq<string>)                  // one piece per character
    | Bracketed(gap: string, items: seq<Placed>)   // the gap of an array without items
    | Braced(gap: string, members: seq<Member>)

  datatype Placed = Placed(before: string, layout: Layout, after: string)

  datatype Member = Member(before: string, key: seq<string>, after: string, value: Placed)

  /** Nothing but tabs, line feeds, vertical tabs, form feeds, carriage returns and spaces. */
  predicate Blank(gap: string) {
    forall i | 0 <= i < |gap| :: gap[i] in {'\t', '\n', '\U{000B}', '\U{000C}', '\r', ' '}
  }

  /** The character a piece of a string stands for. */
  function Spelled(piece: string): Option<char> {
    if |piece| == 1 && piece[0] != '"' && piece[0] != '\\' then Some(piece[0])
    else if piece == "\\\"" then Some('"')
    else if piece == "\\\\" then Some('\\')
    else if piece == "\\/" then Some('/')
    else if piece == "\\b" then Some('\U{0008}')
    else if piece == "\\f" then Some('\U{000C}')
    else if piece == "\\n" then Some('\U{000A}')
    else if piece == "\\r" then Some('\U{000D}')
    else if piece == "\\t" then Some('\U{0009}')
    else None
  }

  predicate Spelling(pieces: seq<string>) {
    forall i | 0 <= i < |pieces| :: Spelled(pieces[i]).Some?
  }

  predicate AllDigits(t: string) {
    forall i | 0 <= i < |t| :: '0' <= t[i] <= '9'
  }

  /** A sign, digits, and a point with digits; each may be missing, though not all of them. */
  predicate NumeralAt(t: string, sign: nat, point: nat) {
    && t != [] && sign <= point <= |t|
    && (sign == 0 || t[..sign] == "-") && AllDigits(t[sign..point])
    && (point == |t| || (t[point] == '.' && AllDigits(t[point + 1..])))
  }

  ghost predicate IsNumeral(t: string) {
    exists sign: nat, point: nat :: NumeralAt(t, sign, point)
  }

  // ---------- the text of a layout ----------

  function Joined(pieces: seq<string>): string {
    if pieces == [] then [] else pieces[0] + Joined(pieces[1..])
  }

  function QuotedText(pieces: seq<string>): string { ['"'] + Joined(pieces) + ['"'] }

  function Text(l: Layout): string
    decreases l
  {
    match l
    case Word(word) => word
    case Numeral(text) => text
    case Quoted(pieces) => QuotedText(pieces)
    case Bracketed(gap, items) => ['['] + (if items == [] then gap else ItemsText(items)) + [']']
    case Braced(gap, members) => ['{'] + (if members == [] then gap else MembersText(members)) + ['}']
  }

  function PlacedText(p: Placed): string
    decreases p
  {
    p.before + Text(p.layout) + p.after
  }

  function MemberText(m: Member): string
    decreases m
  {
    m.before + QuotedText(m.key) + m.after + [':'] + PlacedText(m.value)
  }

  function ItemsText(items: seq<Placed>): string
    requires items != []
    decreases items
  {
    PlacedText(items[0]) + if |items| == 1 then [] else [','] + ItemsText(items[1..])
  }

  function MembersText(members: seq<Member>): string
    requires members != []
    decreases members
  {
    MemberText(members[0]) + if |members| == 1 then [] else [','] + MembersText(members[1..])
  }

  // ---------- which layouts are documents ----------

  ghost predicate Legal(fromChars: FromChars, l: Layout)
    decreases l
  {
    match l
    case Word(word) => word == "null" || word == "true" || word == "false"
    case Numeral(text) => IsNumeral(text) && fromChars(text).Some?
    case Quoted(pieces) => Spelling(pieces)
    case Bracketed(gap, items) =>
      Blank(gap) && (items != [] ==> gap == "") && forall i | 0 <= i < |items| :: LegalItem(fromChars, items[i])
    case Braced(gap, members) =>
      Blank(gap) && (members != [] ==> gap == "") && forall i | 0 <= i < |members| :: LegalMember(fromChars, members[i])
  }

  ghost predicate LegalItem(fromChars: FromChars, p: Placed)
    decreases p
  {
    Blank(p.before) && Blank(p.after) && Legal(fromChars, p.layout)
  }

  ghost predicate LegalMember(fromChars: FromChars, m: Member)
    decreases m
  {
    Blank(m.before) && Spelling(m.key) && Blank(m.after) && LegalItem(fromChars, m.value)
  }

  // ---------- what a layout means ----------

  // Only legal layouts mean anything; for others the functions below give something of the right type.

  function Letters(pieces: seq<string>): string {
    if pieces == [] then []
    else (if Spelled(pieces[0]).Some? then [Spelled(pieces[0]).value] else []) + Letters(pieces[1..])
  }

  function Meaning(fromChars: FromChars, l: Layout): Value
    decreases l
  {
    match l
    case Word(word) => if word == "null" then Null else Bool(word == "true")
    case Numeral(text) => if fromChars(text).Some? then Number(fromChars(text).value) else Null
    case Quoted(pieces) => Str(Letters(pieces))
    case Bracketed(_, items) => Array(ItemMeanings(fromChars, items))
    case Braced(_, members) => Object(Members(fromChars, [], members))
  }

  function ItemMeanings(fromChars: FromChars, items: seq<Placed>): seq<Value>
    decreases items
  {
    if items == [] then [] else [Meaning(fromChars, items[0].layout)] + ItemMeanings(fromChars, items[1..])
  }

  /** A key given twice keeps its first value. */
  function Members(fromChars: FromChars, before: seq<Entry>, members: seq<Member>): seq<Entry>
    decreases members
  {
    if members == [] then before
    else
      var m := members[0];
      Members(fromChars, Emplace(before, Letters(m.key), Meaning(fromChars, m.value.layout)), members[1..])
  }

  // ---------- white space ----------

  lemma SpaceIsBlank(c: char)
    ensures IsSpace(c) <==> c in {'\t', '\n', '\U{000B}', '\U{000C}', '\r', ' '}
  {
    var n := c as int;
    assert c == n as char;
  }

  lemma {:induction false} SkipsGap(gap: string, s: string)
    requires Blank(gap)
    ensures SkipSpace(gap + s) == SkipSpace(s)
  {
    if gap == [] {
      assert gap + s == s;
    } else {
      SpaceIsBlank(gap[0]);
      assert (gap + s)[1..] == gap[1..] + s;
      SkipsGap(gap[1..], s);
    }
  }

  lemma {:induction false} SkippedIsGap(s: string) returns (gap: string)
    ensures Blank(gap) && s == gap + SkipSpace(s)
    ensures SkipSpace(s) == [] || !IsSpace(SkipSpace(s)[0])
  {
    if s != [] && IsSpace(s[0]) {
      SpaceIsBlank(s[0]);
      var rest := SkippedIsGap(s[1..]);
      gap := [s[0]] + rest;
    } else {
      gap := [];
    }
  }

  lemma ValueAfterGap(fromChars: FromChars, gap: string, s: string)
    requires Blank(gap)
    ensures ValueOf(fromChars, gap + s) == ValueOf(fromChars, s)
  {
    hide ObjectOf, ArrayOf, StringBody, NumberOf;
    SkipsGap(gap, s);
  }

  lemma TakeAfterGap(gap: string, s: string, c: char)
    requires Blank(gap)
    ensures TakeChar(gap + s, c) == TakeChar(s, c)
  {
    SkipsGap(gap, s);
  }

  /** What may follow a numeral: nothing that would make it longer. */
  predicate Follows(rest: string) {
    rest == [] || rest[0] in {',', ']', '}', '\t', '\n', '\U{000B}', '\U{000C}', '\r', ' '}
  }

  lemma GapFollows(gap: string, rest: string)
    requires Blank(gap) && Follows(rest)
    ensures Follows(gap + rest)
  {
    if gap != [] { assert (gap + rest)[0] == gap[0]; } else { assert gap + rest == rest; }
  }

  // ---------- strings ----------

  /** A piece is a plain character, or a backslash and the letter of an escape. */
  lemma PieceShape(piece: string)
    requires Spelled(piece).Some?
    ensures if |piece| == 1 then piece[0] != '"' && piece[0] != '\\' && Spelled(piece) == Some(piece[0])
            else |piece| == 2 && piece[0] == '\\' && Escape(piece[1]) == Spelled(piece)
  {
  }

  lemma PieceIsRead(piece: string, tail: string)
    requires Spelled(piece).Some?
    ensures StringBody(piece + tail) == Following(Spelled(piece).value, StringBody(tail))
  {
    hide Spelled, Escape;
    PieceShape(piece);
    assert (piece + tail)[|piece|..] == tail;
    assert (piece + tail)[0] == piece[0] && (|piece| == 2 ==> (piece + tail)[1] == piece[1]);
  }

  lemma {:induction false} StringIsRead(pieces: seq<string>, rest: string)
    requires Spelling(pieces)
    ensures StringBody(Joined(pieces) + ['"'] + rest) == Ok((Letters(pieces), rest))
  {
    hide Spelled;
    if pieces == [] {
      assert (Joined(pieces) + ['"'] + rest)[1..] == rest;
    } else {
      var tail := Joined(pieces[1..]) + ['"'] + rest;
      assert Joined(pieces) + ['"'] + rest == pieces[0] + tail;
      StringIsRead(pieces[1..], rest);
      PieceIsRead(pieces[0], tail);
    }
  }

  /** A piece begins every string body that is read and is not at its end. */
  lemma FirstPiece(s: string) returns (piece: string)
    requires StringBody(s).Ok? && s[0] != '"'
    ensures Spelled(piece).Some? && 0 < |piece| <= |s| && s == piece + s[|piece|..]
    ensures StringBody(s) == Following(Spelled(piece).value, StringBody(s[|piece|..]))
  {
    if s[0] == '\\' {
      piece := s[..2];
      assert s[..2] == ['\\', s[1]];
    } else {
      piece := s[..1];
    }
  }

  lemma {:induction false} PiecesOf(s: string) returns (pieces: seq<string>)
    requires StringBody(s).Ok?
    ensures Spelling(pieces) && StringBody(s).value.0 == Letters(pieces)
    ensures s == Joined(pieces) + ['"'] + StringBody(s).value.1
    decreases |s|
  {
    hide Spelled;
    if s[0] == '"' {
      pieces := [];
      assert s == [] + ['"'] + s[1..];
    } else {
      var piece := FirstPiece(s);
      var rest := PiecesOf(s[|piece|..]);
      pieces := [piece] + rest;
      assert pieces[1..] == rest;
      assert s == piece + (Joined(rest) + ['"'] + StringBody(s).value.1);
    }
  }

  // ---------- numerals ----------

  lemma {:induction false} DigitsRun(t: string)
    ensures DigitRun(t) == |t| <==> AllDigits(t)
    ensures AllDigits(t[..DigitRun(t)])
    ensures DigitRun(t) < |t| ==> !IsDigit(t[DigitRun(t)])
  {
    if t != [] && IsDigit(t[0]) {
      DigitsRun(t[1..]);
      assert t[..DigitRun(t)] == [t[0]] + t[1..][..DigitRun(t[1..])];
    }
  }

  lemma {:induction false} DigitsThen(t: string, rest: string)
    requires AllDigits(t) && (rest == [] || !IsDigit(rest[0]))
    ensures DigitRun(t + rest) == |t|
  {
    DigitRunIn(t, rest);
    DigitsRun(t);
  }

  lemma NumeralIsRun(t: string, sign: nat, point: nat)
    requires NumeralAt(t, sign, point)
    ensures t != [] && NumberLength(t) == |t| && t[0] in {'-', '.', '0', '1', '2', '3', '4', '5', '6', '7', '8', '9'}
  {
    hide DigitRun;
    assert t == t[..sign] + t[sign..point] + t[point..];
    DigitsThen(t[sign..point], t[point..]);
    assert t[sign..] == t[sign..point] + t[point..];
    assert SignedRun(t) == point;
    if point < |t| { DigitsRun(t[point + 1..]); }
  }

  lemma RunIsNumeral(s: string)
    requires NumberLength(s) > 0
    ensures IsNumeral(s[..NumberLength(s)])
  {
    hide DigitRun;
    var sign := if s[0] == '-' then 1 else 0;
    var n, point := NumberLength(s), SignedRun(s);
    DigitsRun(s[sign..]);
    assert s[sign..][..point - sign] == s[sign..point];
    var t := s[..n];
    if point < n {
      DigitsRun(s[point + 1..]);
      assert t[point + 1..] == s[point + 1..][..n - point - 1];
    }
    assert t[sign..point] == s[sign..point];
    assert NumeralAt(t, sign, point);
  }

  // ---------- every legal layout is read ----------

  lemma TextStart(fromChars: FromChars, l: Layout)
    requires Legal(fromChars, l)
    ensures Text(l) != [] && !IsSpace(Text(l)[0]) && Text(l)[0] !in {']', '}', ','}
  {
    if l.Numeral? {
      var sign: nat, point: nat :| NumeralAt(l.text, sign, point);
      NumeralIsRun(l.text, sign, point);
    }
  }

  lemma WordIsRead(fromChars: FromChars, word: string, rest: string)
    requires word == "null" || word == "true" || word == "false"
    ensures ValueOf(fromChars, word + rest) == Ok((if word == "null" then Null else Bool(word == "true"), rest))
  {
    hide *;
    var v := if word == "null" then Null else Bool(word == "true");
    WordRoundTrip(fromChars, n => "", v, rest);
    PrintedWord(n => "", v);
  }

  lemma PrintedWord(toChars: ToChars, v: Value)
    requires v.Null? || v.Bool?
    ensures Printed(toChars, v) == if v.Null? then "null" else if v.b then "true" else "false"
  {
  }

  lemma NumeralIsRead(fromChars: FromChars, t: string, rest: string)
    requires IsNumeral(t) && fromChars(t).Some? && Follows(rest)
    ensures ValueOf(fromChars, t + rest) == Ok((Number(fromChars(t).value), rest))
  {
    hide NumberLength, NumeralAt;
    var sign: nat, point: nat :| NumeralAt(t, sign, point);
    NumeralIsRun(t, sign, point);
    NumberLengthIn(t, rest);
    var s := t + rest;
    assert s[0] == t[0] && SkipSpace(s) == s && s[..|t|] == t && s[|t|..] == rest;
    WordStart(s, "null");
    WordStart(s, "true");
    WordStart(s, "false");
  }

  lemma TextIsRead(fromChars: FromChars, pieces: seq<string>, rest: string)
    requires Spelling(pieces)
    ensures ValueOf(fromChars, QuotedText(pieces) + rest) == Ok((Str(Letters(pieces)), rest))
  {
    hide StringBody, Joined, Spelling, Letters;
    var s := QuotedText(pieces) + rest;
    StringIsRead(pieces, rest);
    assert s[0] == '"' && s[1..] == Joined(pieces) + ['"'] + rest;
  }

  lemma {:induction false} ValueIsRead(fromChars: FromChars, l: Layout, rest: string)
    requires Legal(fromChars, l) && Follows(rest)
    ensures ValueOf(fromChars, Text(l) + rest) == Ok((Meaning(fromChars, l), rest))
    decreases l
  {
    hide ValueOf, Follows;
    match l
    case Word(word) => WordIsRead(fromChars, word, rest);
    case Numeral(t) => NumeralIsRead(fromChars, t, rest);
    case Quoted(pieces) => TextIsRead(fromChars, pieces, rest);
    case Bracketed(gap, items) => ArrayIsRead(fromChars, gap, items, rest);
    case Braced(gap, members) => ObjectIsRead(fromChars, gap, members, rest);
  }

  /** A value with its gaps: what is left is the gap after it. */
  lemma {:induction false} PlacedIsRead(fromChars: FromChars, p: Placed, rest: string)
    requires LegalItem(fromChars, p) && Follows(rest)
    ensures ValueOf(fromChars, PlacedText(p) + rest) == Ok((Meaning(fromChars, p.layout), p.after + rest))
    decreases p
  {
    hide ValueOf, Follows, Legal, Text, Meaning, Blank;
    GapFollows(p.after, rest);
    ValueIsRead(fromChars, p.layout, p.after + rest);
    ValueAfterGap(fromChars, p.before, Text(p.layout) + (p.after + rest));
    assert PlacedText(p) + rest == p.before + (Text(p.layout) + (p.after + rest));
  }

  // --- arrays ---

  lemma {:induction false} ArrayIsRead(fromChars: FromChars, gap: string, items: seq<Placed>, rest: string)
    requires Legal(fromChars, Bracketed(gap, items))
    ensures ValueOf(fromChars, Text(Bracketed(gap, items)) + rest) == Ok((Meaning(fromChars, Bracketed(gap, items)), rest))
    decreases items, 1
  {
    hide ValueOf, ItemsOf, ItemsText, LegalItem, ItemMeanings;
    if items == [] {
      EmptyArrayIsRead(fromChars, gap, rest);
      NoItems(fromChars);
    } else {
      var inner := ItemsText(items) + [']'] + rest;
      assert Text(Bracketed(gap, items)) + rest == ['['] + inner;
      ItemsStart(fromChars, items, [']'] + rest);
      assert ItemsText(items) + ([']'] + rest) == inner;
      ArrayOpens(fromChars, inner);
      ItemsAreRead(fromChars, [], items, rest);
      assert [] + ItemMeanings(fromChars, items) == ItemMeanings(fromChars, items);
    }
  }

  lemma NoItems(fromChars: FromChars)
    ensures ItemMeanings(fromChars, []) == []
  {
  }

  lemma EmptyArrayIsRead(fromChars: FromChars, gap: string, rest: string)
    requires Blank(gap)
    ensures ValueOf(fromChars, Text(Bracketed(gap, [])) + rest) == Ok((Array([]), rest))
  {
    hide ItemsOf, ObjectOf, StringBody, NumberOf, Blank;
    var s := Text(Bracketed(gap, [])) + rest;
    assert s[0] == '[' && s[1..] == gap + ([']'] + rest);
    TakeAfterGap(gap, [']'] + rest, ']');
    TakeIt(']', rest);
  }

  /** An array that does not close at once is read as its items, whatever space comes first. */
  lemma ArrayOpens(fromChars: FromChars, inner: string)
    requires var s := SkipSpace(inner); s != [] && s[0] != ']'
    ensures ValueOf(fromChars, ['['] + inner) == ItemsOf(fromChars, [], inner)
  {
    hide ObjectOf, StringBody, NumberOf, ItemsOf;
    assert (['['] + inner)[1..] == inner;
    ItemsAfterGap(fromChars, [], inner);
  }

  lemma ItemsAfterGap(fromChars: FromChars, before: seq<Value>, s: string)
    ensures ItemsOf(fromChars, before, SkipSpace(s)) == ItemsOf(fromChars, before, s)
  {
    hide ValueOf, TakeChar, SkipSpace;
    var gap := SkippedIsGap(s);
    ValueAfterGap(fromChars, gap, SkipSpace(s));
  }

  lemma ItemsStart(fromChars: FromChars, items: seq<Placed>, rest: string)
    requires items != [] && LegalItem(fromChars, items[0])
    ensures var s := SkipSpace(ItemsText(items) + rest); s != [] && s[0] !in {']', '}', ','}
  {
    hide Legal, Text;
    var p := items[0];
    TextStart(fromChars, p.layout);
    var tail := p.after + (if |items| == 1 then [] else [','] + ItemsText(items[1..])) + rest;
    assert ItemsText(items) + rest == p.before + (Text(p.layout) + tail);
    SkipsGap(p.before, Text(p.layout) + tail);
    assert (Text(p.layout) + tail)[0] == Text(p.layout)[0];
  }

  lemma ItemCloses(fromChars: FromChars, before: seq<Value>, s: string, v: Value, gap: string, rest: string)
    requires Blank(gap) && ValueOf(fromChars, s) == Ok((v, gap + ([']'] + rest)))
    ensures ItemsOf(fromChars, before, s) == Ok((Array(before + [v]), rest))
  {
    hide Blank;
    TakeAfterGap(gap, [']'] + rest, ']');
    TakeIt(']', rest);
  }

  lemma ItemGoesOn(fromChars: FromChars, before: seq<Value>, s: string, v: Value, gap: string, next: string)
    requires Blank(gap) && ValueOf(fromChars, s) == Ok((v, gap + ([','] + next)))
    ensures ItemsOf(fromChars, before, s) == ItemsOf(fromChars, before + [v], next)
  {
    hide Blank;
    TakeAfterGap(gap, [','] + next, ']');
    TakeOther([','] + next, ']');
    TakeIt(',', next);
  }

  lemma ItemsUnfold(items: seq<Placed>, rest: string)
    requires items != []
    ensures ItemsText(items) + [']'] + rest ==
      PlacedText(items[0]) + if |items| == 1 then [']'] + rest else [','] + (ItemsText(items[1..]) + [']'] + rest)
  {
    hide PlacedText, ItemsText;
    FirstItem(items);
    if |items| == 1 {
      Regroup(PlacedText(items[0]), [], [']'], rest);
    } else {
      Regroup(PlacedText(items[0]), [','] + ItemsText(items[1..]), [']'], rest);
      Regroup([','], ItemsText(items[1..]), [']'], rest);
    }
  }

  lemma FirstItem(items: seq<Placed>)
    requires items != []
    ensures ItemsText(items) == PlacedText(items[0]) + if |items| == 1 then [] else [','] + ItemsText(items[1..])
  {
    hide PlacedText;
  }

  lemma Regroup<T>(a: seq<T>, b: seq<T>, c: seq<T>, d: seq<T>)
    ensures (a + b) + c + d == a + (b + c + d)
    ensures b == [] ==> a + (b + c + d) == a + (c + d)
  {
  }

  lemma MeaningsUnfold(fromChars: FromChars, before: seq<Value>, items: seq<Placed>)
    requires items != []
    ensures var v := Meaning(fromChars, items[0].layout);
      before + ItemMeanings(fromChars, items) == before + [v] + ItemMeanings(fromChars, items[1..])
    ensures |items| == 1 ==> ItemMeanings(fromChars, items[1..]) == []
  {
    hide Meaning;
    var v := Meaning(fromChars, items[0].layout);
    assert ItemMeanings(fromChars, items) == [v] + ItemMeanings(fromChars, items[1..]);
  }

  lemma {:induction false} ItemsAreRead(fromChars: FromChars, before: seq<Value>, items: seq<Placed>, rest: string)
    requires items != [] && forall i | 0 <= i < |items| :: LegalItem(fromChars, items[i])
    ensures ItemsOf(fromChars, before, ItemsText(items) + [']'] + rest) == Ok((Array(before + ItemMeanings(fromChars, items)), rest))
    decreases items, 0
  {
    hide ValueOf, ItemsOf, PlacedText, Meaning, ItemsText, ItemMeanings;
    var p, v := items[0], Meaning(fromChars, items[0].layout);
    var s := ItemsText(items) + [']'] + rest;
    ItemsUnfold(items, rest);
    MeaningsUnfold(fromChars, before, items);
    assert LegalItem(fromChars, p);
    if |items| == 1 {
      PlacedIsRead(fromChars, p, [']'] + rest);
      ItemCloses(fromChars, before, s, v, p.after, rest);
      assert before + [v] + [] == before + [v];
    } else {
      var next := ItemsText(items[1..]) + [']'] + rest;
      PlacedIsRead(fromChars, p, [','] + next);
      ItemGoesOn(fromChars, before, s, v, p.after, next);
      ItemsAreRead(fromChars, before + [v], items[1..], rest);
    }
  }

  // --- objects ---

  lemma {:induction false} ObjectIsRead(fromChars: FromChars, gap: string, members: seq<Member>, rest: string)
    requires Legal(fromChars, Braced(gap, members))
    ensures ValueOf(fromChars, Text(Braced(gap, members)) + rest) == Ok((Meaning(fromChars, Braced(gap, members)), rest))
    decreases members, 1
  {
    hide ValueOf, EntriesOf, MembersText, LegalMember, Members;
    if members == [] {
      EmptyObjectIsRead(fromChars, gap, rest);
      NoMembers(fromChars);
    } else {
      var inner := MembersText(members) + ['}'] + rest;
      assert Text(Braced(gap, members)) + rest == ['{'] + inner;
      MembersStart(fromChars, members, ['}'] + rest);
      assert MembersText(members) + (['}'] + rest) == inner;
      ObjectOpens(fromChars, inner);
      MembersAreRead(fromChars, [], members, rest);
    }
  }

  lemma NoMembers(fromChars: FromChars)
    ensures Members(fromChars, [], []) == []
  {
  }

  lemma EmptyObjectIsRead(fromChars: FromChars, gap: string, rest: string)
    requires Blank(gap)
    ensures ValueOf(fromChars, Text(Braced(gap, [])) + rest) == Ok((Object([]), rest))
  {
    hide EntriesOf, ArrayOf, StringBody, NumberOf, Blank;
    var s := Text(Braced(gap, [])) + rest;
    assert s[0] == '{' && s[1..] == gap + (['}'] + rest);
    TakeAfterGap(gap, ['}'] + rest, '}');
    TakeIt('}', rest);
  }

  lemma ObjectOpens(fromChars: FromChars, inner: string)
    requires var s := SkipSpace(inner); s != [] && s[0] != '}'
    ensures ValueOf(fromChars, ['{'] + inner) == EntriesOf(fromChars, [], inner)
  {
    hide ArrayOf, StringBody, NumberOf, EntriesOf;
    assert (['{'] + inner)[1..] == inner;
    EntriesAfterGap(fromChars, [], inner);
  }

  lemma EntryAfterGap(fromChars: FromChars, gap: string, s: string)
    requires Blank(gap)
    ensures EntryOf(fromChars, gap + s) == EntryOf(fromChars, s)
  {
    hide ValueOf, StringBody, TakeChar;
    SkipsGap(gap, s);
  }

  lemma EntriesAfterGap(fromChars: FromChars, before: seq<Entry>, s: string)
    ensures EntriesOf(fromChars, before, SkipSpace(s)) == EntriesOf(fromChars, before, s)
  {
    hide EntryOf, TakeChar, SkipSpace, Emplace;
    var gap := SkippedIsGap(s);
    EntryAfterGap(fromChars, gap, SkipSpace(s));
  }

  lemma MembersStart(fromChars: FromChars, members: seq<Member>, rest: string)
    requires members != [] && LegalMember(fromChars, members[0])
    ensures var s := SkipSpace(MembersText(members) + rest); s != [] && s[0] == '"'
  {
    hide PlacedText, Joined, LegalItem;
    var m := members[0];
    var tail := m.after + [':'] + PlacedText(m.value) + (if |members| == 1 then [] else [','] + MembersText(members[1..])) + rest;
    assert MembersText(members) + rest == m.before + (QuotedText(m.key) + tail);
    SkipsGap(m.before, QuotedText(m.key) + tail);
  }

  lemma {:induction false} MemberIsRead(fromChars: FromChars, m: Member, rest: string)
    requires LegalMember(fromChars, m) && Follows(rest)
    ensures EntryOf(fromChars, MemberText(m) + rest) ==
            Ok((Entry(Letters(m.key), Meaning(fromChars, m.value.layout)), m.value.after + rest))
    decreases m
  {
    hide EntryOf, ValueOf, Follows, LegalItem, PlacedText, Meaning, Blank, Joined;
    var value := PlacedText(m.value) + rest;
    PlacedIsRead(fromChars, m.value, rest);
    var s := QuotedText(m.key) + (m.after + ([':'] + value));
    assert MemberText(m) + rest == m.before + s;
    EntryAfterGap(fromChars, m.before, s);
    EntryIsRead(fromChars, m.key, m.after, value, Meaning(fromChars, m.value.layout), m.value.after + rest);
  }

  lemma EntryIsRead(fromChars: FromChars, key: seq<string>, gap: string, value: string, v: Value, rest: string)
    requires Spelling(key) && Blank(gap) && ValueOf(fromChars, value) == Ok((v, rest))
    ensures EntryOf(fromChars, QuotedText(key) + (gap + ([':'] + value))) == Ok((Entry(Letters(key), v), rest))
  {
    hide ValueOf, StringBody, Joined, Letters, Blank, Spelling;
    var after := gap + ([':'] + value);
    var s := QuotedText(key) + after;
    assert s[0] == '"' && s[1..] == Joined(key) + ['"'] + after;
    StringIsRead(key, after);
    TakeAfterGap(gap, [':'] + value, ':');
    TakeIt(':', value);
  }

  lemma EntryCloses(fromChars: FromChars, before: seq<Entry>, s: string, e: Entry, gap: string, rest: string)
    requires Blank(gap) && EntryOf(fromChars, s) == Ok((e, gap + (['}'] + rest)))
    ensures EntriesOf(fromChars, before, s) == Ok((Object(Emplace(before, e.key, e.value)), rest))
  {
    hide Blank, Emplace;
    TakeAfterGap(gap, ['}'] + rest, '}');
    TakeIt('}', rest);
  }

  lemma EntryGoesOn(fromChars: FromChars, before: seq<Entry>, s: string, e: Entry, gap: string, next: string)
    requires Blank(gap) && EntryOf(fromChars, s) == Ok((e, gap + ([','] + next)))
    ensures EntriesOf(fromChars, before, s) == EntriesOf(fromChars, Emplace(before, e.key, e.value), next)
  {
    hide Blank, Emplace;
    TakeAfterGap(gap, [','] + next, '}');
    TakeOther([','] + next, '}');
    TakeIt(',', next);
  }

  lemma MembersUnfold(fromChars: FromChars, before: seq<Entry>, members: seq<Member>, rest: string)
    requires members != []
    ensures MembersText(members) + ['}'] + rest ==
      MemberText(members[0]) + if |members| == 1 then ['}'] + rest else [','] + (MembersText(members[1..]) + ['}'] + rest)
    ensures var m := members[0]; var all := Emplace(before, Letters(m.key), Meaning(fromChars, m.value.layout));
      && Members(fromChars, before, members) == Members(fromChars, all, members[1..])
      && (|members| == 1 ==> Members(fromChars, all, members[1..]) == all)
  {
    hide MemberText, Meaning, Letters, Emplace;
    if |members| > 1 {
      assert MembersText(members) == MemberText(members[0]) + ([','] + MembersText(members[1..]));
    }
  }

  lemma {:induction false} MembersAreRead(fromChars: FromChars, before: seq<Entry>, members: seq<Member>, rest: string)
    requires members != [] && forall i | 0 <= i < |members| :: LegalMember(fromChars, members[i])
    ensures EntriesOf(fromChars, before, MembersText(members) + ['}'] + rest) ==
            Ok((Object(Members(fromChars, before, members)), rest))
    decreases members, 0
  {
    hide EntryOf, EntriesOf, MemberText, Meaning, Letters, Emplace, MembersText, Members;
    var m := members[0];
    var e := Entry(Letters(m.key), Meaning(fromChars, m.value.layout));
    var s := MembersText(members) + ['}'] + rest;
    MembersUnfold(fromChars, before, members, rest);
    assert LegalMember(fromChars, m);
    if |members| == 1 {
      MemberIsRead(fromChars, m, ['}'] + rest);
      EntryCloses(fromChars, before, s, e, m.value.after, rest);
    } else {
      var next := MembersText(members[1..]) + ['}'] + rest;
      MemberIsRead(fromChars, m, [','] + next);
      EntryGoesOn(fromChars, before, s, e, m.value.after, next);
      MembersAreRead(fromChars, Emplace(before, e.key, e.value), members[1..], rest);
    }
  }

  // ---------- whatever is read is a legal layout ----------

  lemma TakenIs(s: string, c: char) returns (gap: string)
    ensures Blank(gap) && s == gap + (if TakeChar(s, c).0 then [c] else []) + TakeChar(s, c).1
    ensures !TakeChar(s, c).0 ==> s == gap + SkipSpace(s) && TakeChar(s, c).1 == SkipSpace(s)
  {
    hide Blank;
    gap := SkippedIsGap(s);
    var t := SkipSpace(s);
    if TakeChar(s, c).0 { assert t == [c] + t[1..]; }
  }

  lemma {:induction false} LayoutOf(fromChars: FromChars, text: string) returns (gap: string, l: Layout)
    requires ValueOf(fromChars, text).Ok?
    ensures Blank(gap) && Legal(fromChars, l) && text == gap + Text(l) + ValueOf(fromChars, text).value.1
    ensures ValueOf(fromChars, text).value.0 == Meaning(fromChars, l)
    decreases |text|, 1
  {
    hide ArrayOf, ObjectOf, StringBody, NumberOf, Blank, Legal, Text, Meaning, SkipSpace;
    gap := SkippedIsGap(text);
    var s := SkipSpace(text);
    if s[0] == '{' {
      l := ObjectLayout(fromChars, s[1..]);
      assert s == ['{'] + s[1..];
    } else if s[0] == '[' {
      l := ArrayLayout(fromChars, s[1..]);
      assert s == ['['] + s[1..];
    } else if s[0] == '"' {
      l := TextLayout(fromChars, s[1..]);
      assert s == ['"'] + s[1..];
    } else if StartsWith(s, "null") {
      l := WordLayout(fromChars, s, "null");
    } else if StartsWith(s, "true") {
      l := WordLayout(fromChars, s, "true");
    } else if StartsWith(s, "false") {
      l := WordLayout(fromChars, s, "false");
    } else {
      l := NumeralLayout(fromChars, s);
    }
  }

  lemma WordLayout(fromChars: FromChars, s: string, word: string) returns (l: Layout)
    requires StartsWith(s, word) && (word == "null" || word == "true" || word == "false")
    ensures Legal(fromChars, l) && s == Text(l) + s[|word|..]
    ensures Meaning(fromChars, l) == if word == "null" then Null else Bool(word == "true")
  {
    l := Word(word);
  }

  lemma TextLayout(fromChars: FromChars, s: string) returns (l: Layout)
    requires StringBody(s).Ok?
    ensures Legal(fromChars, l) && ['"'] + s == Text(l) + StringBody(s).value.1
    ensures Meaning(fromChars, l) == Str(StringBody(s).value.0)
  {
    hide StringBody, Joined, Letters, Spelling;
    var pieces := PiecesOf(s);
    l := Quoted(pieces);
  }

  lemma NumeralLayout(fromChars: FromChars, s: string) returns (l: Layout)
    requires NumberOf(fromChars, s).Ok?
    ensures Legal(fromChars, l) && s == Text(l) + NumberOf(fromChars, s).value.1
    ensures Meaning(fromChars, l) == NumberOf(fromChars, s).value.0
  {
    hide NumberLength, IsNumeral;
    RunIsNumeral(s);
    l := Numeral(s[..NumberLength(s)]);
  }

  /** Space put before the first item. */
  function Widened(gap: string, items: seq<Placed>): seq<Placed>
    requires items != []
  {
    [items[0].(before := gap + items[0].before)] + items[1..]
  }

  lemma WidenedItems(fromChars: FromChars, gap: string, items: seq<Placed>)
    requires items != [] && Blank(gap) && forall i | 0 <= i < |items| :: LegalItem(fromChars, items[i])
    ensures var wide := Widened(gap, items);
      && wide != [] && ItemsText(wide) == gap + ItemsText(items) && ItemMeanings(fromChars, wide) == ItemMeanings(fromChars, items)
      && forall i | 0 <= i < |wide| :: LegalItem(fromChars, wide[i])
  {
    hide Legal, Text, Meaning;
    var wide := Widened(gap, items);
    assert wide[1..] == items[1..];
    forall i | 0 <= i < |wide| ensures LegalItem(fromChars, wide[i]) {
      assert LegalItem(fromChars, items[i]);
    }
    WidenedText(gap, items);
  }

  lemma WidenedText(gap: string, items: seq<Placed>)
    requires items != []
    ensures ItemsText(Widened(gap, items)) == gap + ItemsText(items)
  {
    hide Text;
    var wide := Widened(gap, items);
    assert wide[1..] == items[1..];
    assert PlacedText(wide[0]) == gap + PlacedText(items[0]);
  }

  lemma {:induction false} ArrayLayout(fromChars: FromChars, s: string) returns (l: Layout)
    requires ArrayOf(fromChars, s).Ok?
    ensures Legal(fromChars, l) && ['['] + s == Text(l) + ArrayOf(fromChars, s).value.1
    ensures Meaning(fromChars, l) == ArrayOf(fromChars, s).value.0
    decreases |s|, 4
  {
    hide ItemsOf, Blank, TakeChar, LegalItem, ItemsText, ItemMeanings, Widened;
    var gap := TakenIs(s, ']');
    if TakeChar(s, ']').0 {
      l := Bracketed(gap, []);
      NoItems(fromChars);
    } else {
      var items := ItemsLayout(fromChars, [], TakeChar(s, ']').1);
      WidenedItems(fromChars, gap, items);
      l := Bracketed("", Widened(gap, items));
      NothingIsBlank();
      assert [] + ItemMeanings(fromChars, items) == ItemMeanings(fromChars, items);
    }
  }

  lemma NothingIsBlank()
    ensures Blank("")
  {
  }

  /** After an item comes the bracket that closes the array, or a comma and the rest of it. */
  lemma ItemStep(fromChars: FromChars, before: seq<Value>, s: string) returns (after: string, closes: bool, next: string)
    requires ItemsOf(fromChars, before, s).Ok?
    ensures ValueOf(fromChars, s).Ok? && Blank(after) && |next| < |s|
    ensures var (v, left) := ValueOf(fromChars, s).value;
      left == after + ([if closes then ']' else ','] + next)
      && ItemsOf(fromChars, before, s) ==
         if closes then Ok((Array(before + [v]), next)) else ItemsOf(fromChars, before + [v], next)
  {
    hide ValueOf, TakeChar, Blank;
    var left := ValueOf(fromChars, s).value.1;
    after := TakenIs(left, ']');
    closes, next := TakeChar(left, ']').0, TakeChar(left, ']').1;
    if !closes {
      SkippedTwice(left);
      next := TakeChar(SkipSpace(left), ',').1;
      TakenAtOnce(SkipSpace(left), ',');
    }
  }

  lemma SkippedTwice(s: string)
    ensures SkipSpace(SkipSpace(s)) == SkipSpace(s)
  {
    var gap := SkippedIsGap(s);
  }

  lemma TakenAtOnce(s: string, c: char)
    requires SkipSpace(s) == s && TakeChar(s, c).0
    ensures s == [c] + TakeChar(s, c).1
  {
  }

  lemma {:induction false} ItemsLayout(fromChars: FromChars, before: seq<Value>, s: string) returns (items: seq<Placed>)
    requires ItemsOf(fromChars, before, s).Ok?
    ensures items != [] && (forall i | 0 <= i < |items| :: LegalItem(fromChars, items[i]))
    ensures s == ItemsText(items) + [']'] + ItemsOf(fromChars, before, s).value.1
    ensures ItemsOf(fromChars, before, s).value.0 == Array(before + ItemMeanings(fromChars, items))
    decreases |s|, 2
  {
    hide ValueOf, ItemsOf, Blank, Legal, Text, Meaning, ItemsText, ItemMeanings;
    var after, closes, next := ItemStep(fromChars, before, s);
    var gap, l := LayoutOf(fromChars, s);
    var v, p := ValueOf(fromChars, s).value.0, Placed(gap, l, after);
    ItemText(p, s, [if closes then ']' else ','] + next);
    if closes {
      items := [p];
      assert before + [v] + [] == before + [v];
    } else {
      var more := ItemsLayout(fromChars, before + [v], next);
      items := [p] + more;
      assert items[1..] == more;
    }
    ItemsUnfold(items, ItemsOf(fromChars, before, s).value.1);
    MeaningsUnfold(fromChars, before, items);
  }

  lemma ItemText(p: Placed, s: string, rest: string)
    requires s == p.before + Text(p.layout) + (p.after + rest)
    ensures s == PlacedText(p) + rest
  {
    hide Text;
  }

  // --- objects ---

  function WidenedMembers(gap: string, members: seq<Member>): seq<Member>
    requires members != []
  {
    [members[0].(before := gap + members[0].before)] + members[1..]
  }

  lemma WideMembers(fromChars: FromChars, gap: string, members: seq<Member>)
    requires members != [] && Blank(gap) && forall i | 0 <= i < |members| :: LegalMember(fromChars, members[i])
    ensures var wide := WidenedMembers(gap, members);
      && wide != [] && MembersText(wide) == gap + MembersText(members) && Members(fromChars, [], wide) == Members(fromChars, [], members)
      && forall i | 0 <= i < |wide| :: LegalMember(fromChars, wide[i])
  {
    hide LegalItem, PlacedText, Meaning, Letters, Emplace, Joined, Spelling;
    var wide := WidenedMembers(gap, members);
    assert wide[1..] == members[1..];
    forall i | 0 <= i < |wide| ensures LegalMember(fromChars, wide[i]) {
      assert LegalMember(fromChars, members[i]);
    }
    assert MemberText(wide[0]) == gap + MemberText(members[0]);
  }

  lemma {:induction false} ObjectLayout(fromChars: FromChars, s: string) returns (l: Layout)
    requires ObjectOf(fromChars, s).Ok?
    ensures Legal(fromChars, l) && ['{'] + s == Text(l) + ObjectOf(fromChars, s).value.1
    ensures Meaning(fromChars, l) == ObjectOf(fromChars, s).value.0
    decreases |s|, 4
  {
    hide EntriesOf, Blank, TakeChar, LegalMember, MembersText, Members, WidenedMembers;
    var gap := TakenIs(s, '}');
    if TakeChar(s, '}').0 {
      l := Braced(gap, []);
      NoMembers(fromChars);
    } else {
      var members := EntriesLayout(fromChars, [], TakeChar(s, '}').1);
      WideMembers(fromChars, gap, members);
      l := Braced("", WidenedMembers(gap, members));
      NothingIsBlank();
    }
  }

  /** A key and its value, without the gap after them. */
  lemma {:induction false} EntryLayout(fromChars: FromChars, text: string) returns (m: Member)
    requires EntryOf(fromChars, text).Ok?
    ensures LegalMember(fromChars, m) && m.value.after == "" && text == MemberText(m) + EntryOf(fromChars, text).value.1
    ensures EntryOf(fromChars, text).value.0 == Entry(Letters(m.key), Meaning(fromChars, m.value.layout))
    decreases |text|, 2
  {
    hide ValueOf, StringBody, TakeChar, Blank, Legal, Text, Meaning, Joined, Letters, Spelling;
    var before := SkippedIsGap(text);
    var s := SkipSpace(text);
    var key := PiecesOf(s[1..]);
    var (name, left) := StringBody(s[1..]).value;
    var after := TakenIs(left, ':');
    var value := TakeChar(left, ':').1;
    var gap, l := LayoutOf(fromChars, value);
    NothingIsBlank();
    m := Member(before, key, after, Placed(gap, l, ""));
    EntryText(m, text, s, left, value, ValueOf(fromChars, value).value.1);
  }

  lemma EntryText(m: Member, text: string, s: string, left: string, value: string, rest: string)
    requires text == m.before + s && s != [] && s[0] == '"' && s[1..] == Joined(m.key) + ['"'] + left
    requires left == m.after + [':'] + value && value == m.value.before + Text(m.value.layout) + rest && m.value.after == ""
    ensures text == MemberText(m) + rest
  {
    hide Joined, Text;
    assert s == ['"'] + (Joined(m.key) + ['"'] + left);
    assert s == QuotedText(m.key) + left;
    assert value == PlacedText(m.value) + rest;
  }

  lemma EntryStep(fromChars: FromChars, before: seq<Entry>, s: string) returns (after: string, closes: bool, next: string)
    requires EntriesOf(fromChars, before, s).Ok?
    ensures EntryOf(fromChars, s).Ok? && Blank(after) && |next| < |s|
    ensures var (e, left) := EntryOf(fromChars, s).value; var all := Emplace(before, e.key, e.value);
      left == after + ([if closes then '}' else ','] + next)
      && EntriesOf(fromChars, before, s) == if closes then Ok((Object(all), next)) else EntriesOf(fromChars, all, next)
  {
    hide EntryOf, TakeChar, Blank, Emplace;
    var left := EntryOf(fromChars, s).value.1;
    after := TakenIs(left, '}');
    closes, next := TakeChar(left, '}').0, TakeChar(left, '}').1;
    if !closes {
      SkippedTwice(left);
      next := TakeChar(SkipSpace(left), ',').1;
      TakenAtOnce(SkipSpace(left), ',');
    }
  }

  lemma {:induction false} EntriesLayout(fromChars: FromChars, before: seq<Entry>, s: string) returns (members: seq<Member>)
    requires EntriesOf(fromChars, before, s).Ok?
    ensures members != [] && (forall i | 0 <= i < |members| :: LegalMember(fromChars, members[i]))
    ensures s == MembersText(members) + ['}'] + EntriesOf(fromChars, before, s).value.1
    ensures EntriesOf(fromChars, before, s).value.0 == Object(Members(fromChars, before, members))
    decreases |s|, 3
  {
    hide EntryOf, EntriesOf, Blank, Legal, Text, Meaning, MembersText, MemberText, Members, Emplace, Letters, Spelling;
    var after, closes, next := EntryStep(fromChars, before, s);
    var bare := EntryLayout(fromChars, s);
    var e := EntryOf(fromChars, s).value.0;
    var m := bare.(value := bare.value.(after := after));
    AfterMember(bare, after, [if closes then '}' else ','] + next);
    if closes {
      members := [m];
    } else {
      var more := EntriesLayout(fromChars, Emplace(before, e.key, e.value), next);
      members := [m] + more;
      assert members[1..] == more;
    }
    MembersUnfold(fromChars, before, members, EntriesOf(fromChars, before, s).value.1);
  }

  lemma AfterMember(m: Member, after: string, rest: string)
    requires m.value.after == ""
    ensures MemberText(m) + (after + rest) == MemberText(m.(value := m.value.(after := after))) + rest
  {
    hide Text, QuotedText;
  }

  // ---------- the language, exactly ----------

  /**
   What the parser accepts, exactly: a text parses to `v` if and only if it is a legal layout, with
   any white space around it, that means `v`.
   */
  lemma DocumentIsExact(fromChars: FromChars, text: string, v: Value)
    ensures Document(fromChars, text) == Ok(v) <==>
      exists p :: LegalItem(fromChars, p) && PlacedText(p) == text && Meaning(fromChars, p.layout) == v
  {
    hide Legal, Text, Meaning, ValueOf, Blank;
    if Document(fromChars, text) == Ok(v) {
      var gap, l := LayoutOf(fromChars, text);
      var left := ValueOf(fromChars, text).value.1;
      var after := SkippedIsGap(left);
      assert left == after + [] == after;
      var p := Placed(gap, l, after);
      assert LegalItem(fromChars, p) && PlacedText(p) == text && Meaning(fromChars, p.layout) == v;
    }
    if p :| LegalItem(fromChars, p) && PlacedText(p) == text && Meaning(fromChars, p.layout) == v {
      LayoutIsRead(fromChars, p);
    }
  }

  lemma LayoutIsRead(fromChars: FromChars, p: Placed)
    requires LegalItem(fromChars, p)
    ensures Document(fromChars, PlacedText(p)) == Ok(Meaning(fromChars, p.layout))
  {
    hide Legal, Text, Meaning, ValueOf, Blank;
    PlacedIsRead(fromChars, p, []);
    assert PlacedText(p) + [] == PlacedText(p);
    SkipsGap(p.after, []);
  }

  // ---------- layout does not matter ----------

  /** The same tokens with nothing between them. */
  function Bare(l: Layout): Layout
    decreases l
  {
    match l
    case Bracketed(_, items) => Bracketed("", BareItems(items))
    case Braced(_, members) => Braced("", BareMembers(members))
    case _ => l
  }

  function BareItems(items: seq<Placed>): seq<Placed>
    decreases items
  {
    if items == [] then [] else [Placed("", Bare(items[0].layout), "")] + BareItems(items[1..])
  }

  function BareMembers(members: seq<Member>): seq<Member>
    decreases members
  {
    if members == [] then []
    else [Member("", members[0].key, "", Placed("", Bare(members[0].value.layout), ""))] + BareMembers(members[1..])
  }

  lemma {:induction false} BareMeansTheSame(fromChars: FromChars, l: Layout)
    requires Legal(fromChars, l)
    ensures Legal(fromChars, Bare(l)) && Meaning(fromChars, Bare(l)) == Meaning(fromChars, l)
    decreases l
  {
    match l
    case Bracketed(_, items) => BareItemsMean(fromChars, items);
    case Braced(_, members) => BareMembersMean(fromChars, [], members);
    case _ =>
  }

  lemma {:induction false} BareItemsMean(fromChars: FromChars, items: seq<Placed>)
    requires forall i | 0 <= i < |items| :: LegalItem(fromChars, items[i])
    ensures forall i | 0 <= i < |BareItems(items)| :: LegalItem(fromChars, BareItems(items)[i])
    ensures ItemMeanings(fromChars, BareItems(items)) == ItemMeanings(fromChars, items)
    decreases items
  {
    hide Legal, Meaning, Bare;
    if items != [] {
      assert LegalItem(fromChars, items[0]);
      BareMeansTheSame(fromChars, items[0].layout);
      BareItemsMean(fromChars, items[1..]);
      assert BareItems(items)[1..] == BareItems(items[1..]);
    }
  }

  lemma {:induction false} BareMembersMean(fromChars: FromChars, before: seq<Entry>, members: seq<Member>)
    requires forall i | 0 <= i < |members| :: LegalMember(fromChars, members[i])
    ensures forall i | 0 <= i < |BareMembers(members)| :: LegalMember(fromChars, BareMembers(members)[i])
    ensures Members(fromChars, before, BareMembers(members)) == Members(fromChars, before, members)
    decreases members
  {
    hide Legal, Meaning, Bare, Letters, Emplace, Spelling;
    if members != [] {
      var m := members[0];
      assert LegalMember(fromChars, m);
      assert LegalItem(fromChars, m.value);
      BareMeansTheSame(fromChars, m.value.layout);
      BareMembersMean(fromChars, Emplace(before, Letters(m.key), Meaning(fromChars, m.value.layout)), members[1..]);
      assert BareMembers(members)[1..] == BareMembers(members[1..]);
    }
  }

  /**
   White space before or after any token changes nothing: a legal layout parses to what the same
   tokens parse to with nothing between them. So a printed value reads back however it is laid out.
   */
  lemma LayoutDoesNotMatter(fromChars: FromChars, toChars: ToChars, p: Placed, v: Value)
    requires LegalItem(fromChars, p)
    ensures Document(fromChars, PlacedText(p)) == Document(fromChars, Text(Bare(p.layout)))
    ensures WellFormed(v) && NumberFree(v) && Text(Bare(p.layout)) == Printed(toChars, v) ==>
      Document(fromChars, PlacedText(p)) == Ok(v)
  {
    hide Legal, Text, Meaning, Document, Printed, WellFormed, NumberFree, Bare;
    LayoutIsRead(fromChars, p);
    BareMeansTheSame(fromChars, p.layout);
    NothingIsBlank();
    var bare := Placed("", Bare(p.layout), "");
    LayoutIsRead(fromChars, bare);
    assert PlacedText(bare) == Text(Bare(p.layout));
    if WellFormed(v) && NumberFree(v) { DocumentRoundTrip(fromChars, toChars, v); }
  }

  // ---------- what is printed ----------

  /** A character is escaped exactly when it is a quote, a backslash, a line feed, a carriage return or a tab. */
  predicate Sparing(pieces: seq<string>) {
    forall i | 0 <= i < |pieces| ::
      Spelled(pieces[i]).Some? && (|pieces[i]| == 2 <==> Spelled(pieces[i]).value in {'"', '\\', '\n', '\r', '\t'})
  }

  /** Escapes are used sparingly throughout. */
  predicate AllSparing(l: Layout)
    decreases l
  {
    match l
    case Quoted(pieces) => Sparing(pieces)
    case Bracketed(_, items) => forall i | 0 <= i < |items| :: AllSparing(items[i].layout)
    case Braced(_, members) => forall i | 0 <= i < |members| :: Sparing(members[i].key) && AllSparing(members[i].value.layout)
    case _ => true
  }

  lemma PieceOf(c: char)
    ensures var e := EscapedChar(c); Spelled(e) == Some(c) && (|e| == 2 <==> c in {'"', '\\', '\n', '\r', '\t'})
  {
  }

  lemma {:induction false} PiecesPrinted(s: string) returns (pieces: seq<string>)
    ensures Sparing(pieces) && Joined(pieces) == EscapedChars(s) && Letters(pieces) == s && Spelling(pieces)
  {
    hide Spelled, EscapedChar;
    pieces := [];
    if s != [] {
      PieceOf(s[0]);
      var rest := PiecesPrinted(s[1..]);
      pieces := [EscapedChar(s[0])] + rest;
      assert pieces[1..] == rest;
    }
  }

  /** What a printed value must be. */
  ghost predicate Prints(fromChars: FromChars, l: Layout, v: Value, text: string) {
    Legal(fromChars, l) && Bare(l) == l && AllSparing(l) && Meaning(fromChars, l) == v && Text(l) == text
  }

  lemma {:induction false} PrintedLayout(fromChars: FromChars, toChars: ToChars, v: Value) returns (l: Layout)
    requires WellFormed(v) && NumberFree(v)
    ensures Prints(fromChars, l, v, Printed(toChars, v))
    decreases v
  {
    match v
    case Str(s) =>
      var pieces := PiecesPrinted(s);
      l := Quoted(pieces);
    case Array(items) => l := PrintedArrayLayout(fromChars, toChars, items);
    case Object(entries) => l := PrintedObjectLayout(fromChars, toChars, entries);
    case _ => l := Word(Printed(toChars, v));
  }

  ghost predicate PrintsItems(fromChars: FromChars, items: seq<Placed>, vs: seq<Value>) {
    && |items| == |vs| && BareItems(items) == items && ItemMeanings(fromChars, items) == vs
    && forall i | 0 <= i < |items| :: LegalItem(fromChars, items[i]) && AllSparing(items[i].layout)
  }

  lemma OneMoreItem(fromChars: FromChars, l: Layout, v: Value, items: seq<Placed>, vs: seq<Value>)
    requires Legal(fromChars, l) && Bare(l) == l && AllSparing(l) && Meaning(fromChars, l) == v && PrintsItems(fromChars, items, vs)
    ensures PrintsItems(fromChars, [Placed("", l, "")] + items, [v] + vs)
    ensures ItemsText([Placed("", l, "")] + items) == Text(l) + if items == [] then [] else [','] + ItemsText(items)
  {
    hide Legal, Bare, AllSparing, Meaning, Text, ItemsText;
    NothingIsBlank();
    var all := [Placed("", l, "")] + items;
    assert all[1..] == items;
    FirstItem(all);
    PlacedAlone(l);
  }

  lemma MoreItemsUnfold(toChars: ToChars, vs: seq<Value>)
    ensures MoreItems(toChars, vs) == if vs == [] then [] else [','] + (Printed(toChars, vs[0]) + MoreItems(toChars, vs[1..]))
  {
    hide Printed;
  }

  lemma {:induction false} PrintedItems(fromChars: FromChars, toChars: ToChars, vs: seq<Value>) returns (items: seq<Placed>)
    requires forall i | 0 <= i < |vs| :: WellFormed(vs[i]) && NumberFree(vs[i])
    ensures PrintsItems(fromChars, items, vs)
    ensures vs != [] ==> ItemsText(items) == Printed(toChars, vs[0]) + MoreItems(toChars, vs[1..])
    decreases vs, 0
  {
    hide Legal, Bare, AllSparing, Meaning, Text, Printed, WellFormed, NumberFree, ItemsText, MoreItems;
    items := [];
    if vs != [] {
      var l := PrintedLayout(fromChars, toChars, vs[0]);
      var rest := PrintedItems(fromChars, toChars, vs[1..]);
      OneMoreItem(fromChars, l, vs[0], rest, vs[1..]);
      MoreItemsUnfold(toChars, vs[1..]);
      assert vs == [vs[0]] + vs[1..];
      items := [Placed("", l, "")] + rest;
    }
  }

  lemma PlacedAlone(l: Layout)
    ensures PlacedText(Placed("", l, "")) == Text(l)
  {
    hide Text;
  }

  lemma {:induction false} PrintedArrayLayout(fromChars: FromChars, toChars: ToChars, vs: seq<Value>) returns (l: Layout)
    requires forall i | 0 <= i < |vs| :: WellFormed(vs[i]) && NumberFree(vs[i])
    ensures Prints(fromChars, l, Array(vs), Printed(toChars, Array(vs)))
    decreases vs, 1
  {
    hide ItemsText, LegalItem, ItemMeanings, BareItems;
    var items := PrintedItems(fromChars, toChars, vs);
    NothingIsBlank();
    l := Bracketed("", items);
  }

  ghost predicate PrintsMembers(fromChars: FromChars, members: seq<Member>, entries: seq<Entry>) {
    && |members| == |entries| && BareMembers(members) == members
    && forall i | 0 <= i < |members| :: PrintsMember(fromChars, members[i], entries[i])
  }

  ghost predicate PrintsMember(fromChars: FromChars, m: Member, e: Entry) {
    && LegalMember(fromChars, m) && Sparing(m.key) && AllSparing(m.value.layout)
    && Letters(m.key) == e.key && Meaning(fromChars, m.value.layout) == e.value
  }

  lemma OneMoreMember(fromChars: FromChars, key: seq<string>, l: Layout, e: Entry, members: seq<Member>, entries: seq<Entry>)
    requires Legal(fromChars, l) && Bare(l) == l && AllSparing(l) && Spelling(key) && Sparing(key)
    requires Letters(key) == e.key && Meaning(fromChars, l) == e.value && PrintsMembers(fromChars, members, entries)
    ensures PrintsMembers(fromChars, [Member("", key, "", Placed("", l, ""))] + members, [e] + entries)
    ensures MembersText([Member("", key, "", Placed("", l, ""))] + members) ==
      QuotedText(key) + [':'] + Text(l) + if members == [] then [] else [','] + MembersText(members)
  {
    hide Legal, Bare, AllSparing, Meaning, Text, Sparing, Letters, Spelling, QuotedText;
    NothingIsBlank();
    var m := Member("", key, "", Placed("", l, ""));
    var all := [m] + members;
    assert all[1..] == members;
    PlacedAlone(l);
    assert MemberText(m) == QuotedText(key) + [':'] + Text(l);
    assert LegalItem(fromChars, m.value);
    assert PrintsMember(fromChars, m, e);
    forall i | 0 <= i < |all| ensures PrintsMember(fromChars, all[i], ([e] + entries)[i]) {
      if i > 0 { assert PrintsMember(fromChars, members[i - 1], entries[i - 1]); }
    }
    BareStart(members, key, l);
  }

  lemma BareStart(members: seq<Member>, key: seq<string>, l: Layout)
    requires BareMembers(members) == members && Bare(l) == l
    ensures var all := [Member("", key, "", Placed("", l, ""))] + members; BareMembers(all) == all
  {
    hide Bare;
    var all := [Member("", key, "", Placed("", l, ""))] + members;
    assert all[1..] == members;
  }

  lemma MoreEntriesUnfold(toChars: ToChars, entries: seq<Entry>)
    ensures MoreEntries(toChars, entries) ==
      if entries == [] then [] else [','] + (PrintedEntry(toChars, entries[0]) + MoreEntries(toChars, entries[1..]))
  {
    hide PrintedEntry;
  }

  lemma {:induction false} PrintedMembers(fromChars: FromChars, toChars: ToChars, entries: seq<Entry>) returns (members: seq<Member>)
    requires forall i | 0 <= i < |entries| :: WellFormed(entries[i].value) && NumberFree(entries[i].value)
    ensures PrintsMembers(fromChars, members, entries)
    ensures entries != [] ==> MembersText(members) == PrintedEntry(toChars, entries[0]) + MoreEntries(toChars, entries[1..])
    decreases entries, 0
  {
    hide Legal, Bare, AllSparing, Meaning, Text, Printed, WellFormed, NumberFree, Sparing, Letters, Spelling, MembersText, MoreEntries;
    members := [];
    if entries != [] {
      var l := PrintedLayout(fromChars, toChars, entries[0].value);
      var key := PiecesPrinted(entries[0].key);
      var rest := PrintedMembers(fromChars, toChars, entries[1..]);
      OneMoreMember(fromChars, key, l, entries[0], rest, entries[1..]);
      MoreEntriesUnfold(toChars, entries[1..]);
      assert entries == [entries[0]] + entries[1..];
      members := [Member("", key, "", Placed("", l, ""))] + rest;
    }
  }

  /** Members in key order mean just their entries. */
  lemma {:induction false} OrderedMembers(fromChars: FromChars, before: seq<Entry>, members: seq<Member>, entries: seq<Entry>)
    requires Ordered(before + entries) && |members| == |entries|
    requires forall i | 0 <= i < |members| :: PrintsMember(fromChars, members[i], entries[i])
    ensures Members(fromChars, before, members) == before + entries
    decreases |members|
  {
    hide Letters, Meaning, Ordered, Emplace;
    if members == [] {
      assert before + entries == before;
    } else {
      FitsLast(before, entries);
      assert before + entries == before + [entries[0]] + entries[1..];
      assert PrintsMember(fromChars, members[0], entries[0]);
      OrderedMembers(fromChars, before + [entries[0]], members[1..], entries[1..]);
    }
  }

  lemma {:induction false} PrintedObjectLayout(fromChars: FromChars, toChars: ToChars, entries: seq<Entry>) returns (l: Layout)
    requires WellFormed(Object(entries)) && NumberFree(Object(entries))
    ensures Prints(fromChars, l, Object(entries), Printed(toChars, Object(entries)))
    decreases entries, 1
  {
    hide Printed, Prints, PrintsMembers, Members, Ordered;
    var members := PrintedMembers(fromChars, toChars, entries);
    l := Braced("", members);
    MembersPrinted(fromChars, toChars, members, entries);
  }

  lemma MembersPrinted(fromChars: FromChars, toChars: ToChars, members: seq<Member>, entries: seq<Entry>)
    requires PrintsMembers(fromChars, members, entries) && Ordered(entries)
    requires entries != [] ==> MembersText(members) == PrintedEntry(toChars, entries[0]) + MoreEntries(toChars, entries[1..])
    ensures Prints(fromChars, Braced("", members), Object(entries), Printed(toChars, Object(entries)))
  {
    hide LegalMember, MembersText, PrintedEntry, MoreEntries, Members, BareMembers, Letters, Sparing, Ordered, Meaning;
    NothingIsBlank();
    assert [] + entries == entries;
    OrderedMembers(fromChars, [], members, entries);
    forall i | 0 <= i < |members|
      ensures LegalMember(fromChars, members[i]) && Sparing(members[i].key) && AllSparing(members[i].value.layout)
    {
      assert PrintsMember(fromChars, members[i], entries[i]);
    }
    MeaningOfBraced(fromChars, members);
  }

  lemma MeaningOfBraced(fromChars: FromChars, members: seq<Member>)
    ensures Meaning(fromChars, Braced("", members)) == Object(Members(fromChars, [], members))
  {
    hide Members;
  }

  /**
   What the printer writes of a number-free value: a legal document that means the value, with
   nothing between its tokens, and no character escaped but the five that have to be.
   */
  lemma PrintedIsBare(fromChars: FromChars, toChars: ToChars, v: Value)
    requires WellFormed(v) && NumberFree(v)
    ensures exists l :: Prints(fromChars, l, v, Printed(toChars, v))
  {
    var l := PrintedLayout(fromChars, toChars, v);
  }
}
