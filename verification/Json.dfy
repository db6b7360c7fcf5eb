/** The C++ SDK's JSON parser and printer (json.cc). */
module Json {
  import opened Wrappers

  // Characters are the bytes of a `std::string`. An object is a `std::map`: its entries in increasing
  // key order, each key once. Doubles are reals, read by the library's number parser, which is a
  // parameter; how a double prints is a parameter too.

  datatype Entry = Entry(key: string, value: Value)

  datatype Value =
    | Null | Bool(b: bool) | Number(n: real) | Str(s: string)
    | Array(items: seq<Value>) | Object(entries: seq<Entry>)

  datatype ParseError = InvalidArgument

  type FromChars = string -> Option<real>

  // ---------- std::map ----------

  /** `std::string` comparison. */
  predicate Less(a: string, b: string) {
    b != [] && (a == [] || a[0] < b[0] || (a[0] == b[0] && Less(a[1..], b[1..])))
  }

  predicate Ordered(entries: seq<Entry>) {
    forall i, j | 0 <= i < j < |entries| :: Less(entries[i].key, entries[j].key)
  }

  /** `std::map::emplace`: a key that is present keeps its value. */
  function Emplace(entries: seq<Entry>, key: string, value: Value): seq<Entry> {
    if entries == [] then [Entry(key, value)]
    else if entries[0].key == key then entries
    else if Less(key, entries[0].key) then [Entry(key, value)] + entries
    else [entries[0]] + Emplace(entries[1..], key, value)
  }

  function Lookup(entries: seq<Entry>, key: string): Option<Value> {
    if entries == [] then None
    else if entries[0].key == key then Some(entries[0].value)
    else Lookup(entries[1..], key)
  }

  lemma {:induction false} LessIsTotal(a: string, b: string)
    ensures a == b || Less(a, b) || Less(b, a)
  {
    if a != [] && b != [] && a[0] == b[0] {
      LessIsTotal(a[1..], b[1..]);
      assert a == [a[0]] + a[1..] && b == [b[0]] + b[1..];
    }
  }

  lemma {:induction false} LessIsTransitive(a: string, b: string, c: string)
    requires Less(a, b) && Less(b, c)
    ensures Less(a, c)
  {
    if a != [] && a[0] == b[0] == c[0] {
      LessIsTransitive(a[1..], b[1..], c[1..]);
    }
  }

  lemma {:induction false} LessIsStrict(a: string, b: string)
    requires Less(a, b)
    ensures a != b && !Less(b, a)
  {
    if a != [] && a[0] == b[0] {
      LessIsStrict(a[1..], b[1..]);
    }
  }

  /** Where a key of the result comes from. */
  lemma {:induction false} EmplacedKey(entries: seq<Entry>, key: string, value: Value, i: nat)
    requires i < |Emplace(entries, key, value)|
    ensures var e := Emplace(entries, key, value)[i]; e == Entry(key, value) || e in entries
  {
    if entries != [] && entries[0].key != key {
      if Less(key, entries[0].key) {
      } else if i > 0 {
        EmplacedKey(entries[1..], key, value, i - 1);
        assert Emplace(entries, key, value)[i] == Emplace(entries[1..], key, value)[i - 1];
      }
    }
  }

  lemma {:induction false} EmplaceKeepsOrder(entries: seq<Entry>, key: string, value: Value)
    requires Ordered(entries)
    ensures Ordered(Emplace(entries, key, value))
  {
    if entries != [] && entries[0].key != key {
      var first := entries[0];
      if Less(key, first.key) {
        var all := [Entry(key, value)] + entries;
        forall j | 0 < j < |all| ensures Less(key, all[j].key) {
          if j > 1 { LessIsTransitive(key, first.key, entries[j - 1].key); }
        }
      } else {
        LessIsTotal(key, first.key);
        var rest := Emplace(entries[1..], key, value);
        EmplaceKeepsOrder(entries[1..], key, value);
        forall j | 0 <= j < |rest| ensures Less(first.key, rest[j].key) {
          EmplacedKey(entries[1..], key, value, j);
        }
      }
    }
  }

  lemma {:induction false} AbsentBelow(entries: seq<Entry>, key: string)
    requires forall i | 0 <= i < |entries| :: Less(key, entries[i].key)
    ensures Lookup(entries, key).None?
  {
    if entries != [] {
      LessIsStrict(key, entries[0].key);
      AbsentBelow(entries[1..], key);
    }
  }

  /** Emplacing a key adds it when it is absent and touches nothing else. */
  lemma {:induction false} EmplaceKeepsFirst(entries: seq<Entry>, key: string, value: Value, q: string)
    requires Ordered(entries)
    ensures Lookup(Emplace(entries, key, value), q) ==
      if q == key && Lookup(entries, key).None? then Some(value) else Lookup(entries, q)
  {
    if entries != [] && entries[0].key != key {
      if Less(key, entries[0].key) {
        forall i | 0 <= i < |entries| ensures Less(key, entries[i].key) {
          if i > 0 { LessIsTransitive(key, entries[0].key, entries[i].key); }
        }
        AbsentBelow(entries, key);
        assert ([Entry(key, value)] + entries)[1..] == entries;
      } else {
        EmplaceKeepsFirst(entries[1..], key, value, q);
        assert Emplace(entries, key, value)[1..] == Emplace(entries[1..], key, value);
      }
    }
  }

  lemma {:induction false} EmplaceLast(entries: seq<Entry>, key: string, value: Value)
    requires forall i | 0 <= i < |entries| :: Less(entries[i].key, key)
    ensures Emplace(entries, key, value) == entries + [Entry(key, value)]
  {
    if entries != [] {
      LessIsStrict(entries[0].key, key);
      EmplaceLast(entries[1..], key, value);
      assert entries + [Entry(key, value)] == [entries[0]] + (entries[1..] + [Entry(key, value)]);
    }
  }

  // ---------- what the parser accepts ----------

  /** `std::isspace` in the C locale. */
  predicate IsSpace(c: char) { c == ' ' || '\U{0009}' <= c <= '\U{000D}' }

  predicate IsDigit(c: char) { '0' <= c <= '9' }

  function SkipSpace(s: string): (t: string)
    ensures |t| <= |s|
  {
    if s != [] && IsSpace(s[0]) then SkipSpace(s[1..]) else s
  }

  /** `take`: whether the next character is `c`, and what is left either way. */
  function TakeChar(s: string, c: char): (r: (bool, string))
    ensures |r.1| <= |s| && (r.0 ==> |r.1| < |s|)
  {
    var t := SkipSpace(s);
    if t != [] && t[0] == c then (true, t[1..]) else (false, t)
  }

  function Escape(e: char): Option<char> {
    if e == '"' || e == '\\' || e == '/' then Some(e)
    else if e == 'b' then Some('\U{0008}')
    else if e == 'f' then Some('\U{000C}')
    else if e == 'n' then Some('\n')
    else if e == 'r' then Some('\r')
    else if e == 't' then Some('\t')
    else None
  }

  type Parsed<T> = Result<(T, string), ParseError>

  /** A string after its opening quote. */
  function StringBody(s: string): (r: Parsed<string>)
    ensures r.Ok? ==> |r.value.1| < |s|
  {
    if s == [] then Err(InvalidArgument)
    else if s[0] == '"' then Ok(("", s[1..]))
    else if s[0] != '\\' then Following(s[0], StringBody(s[1..]))
    else if |s| == 1 || Escape(s[1]).None? then Err(InvalidArgument)
    else Following(Escape(s[1]).value, StringBody(s[2..]))
  }

  function Following(c: char, r: Parsed<string>): Parsed<string> {
    if r.Ok? then Ok(([c] + r.value.0, r.value.1)) else r
  }

  function DigitRun(s: string): (n: nat)
    ensures n <= |s|
  {
    if s != [] && IsDigit(s[0]) then 1 + DigitRun(s[1..]) else 0
  }

  function SignedRun(s: string): (n: nat)
    ensures n <= |s|
  {
    if s != [] && s[0] == '-' then 1 + DigitRun(s[1..]) else DigitRun(s)
  }

  /** How much of the text `parse_number` looks at. */
  function NumberLength(s: string): (n: nat)
    ensures n <= |s|
  {
    var whole := SignedRun(s);
    if whole < |s| && s[whole] == '.' then whole + 1 + DigitRun(s[whole + 1..]) else whole
  }

  /** The library refuses an empty view whatever else it does. */
  function NumberOf(fromChars: FromChars, s: string): (r: Parsed<Value>)
    ensures r.Ok? ==> |r.value.1| < |s|
  {
    var n := NumberLength(s);
    if n == 0 || fromChars(s[..n]).None? then Err(InvalidArgument)
    else Ok((Number(fromChars(s[..n]).value), s[n..]))
  }

  predicate StartsWith(s: string, word: string) { |word| <= |s| && s[..|word|] == word }

  function ValueOf(fromChars: FromChars, text: string): (r: Parsed<Value>)
    ensures r.Ok? ==> |r.value.1| < |text|
    decreases |text|, 1
  {
    var s := SkipSpace(text);
    if s == [] then Err(InvalidArgument)
    else if s[0] == '{' then ObjectOf(fromChars, s[1..])
    else if s[0] == '[' then ArrayOf(fromChars, s[1..])
    else if s[0] == '"' then
      var str := StringBody(s[1..]);
      if str.Ok? then Ok((Str(str.value.0), str.value.1)) else Err(str.error)
    else if StartsWith(s, "null") then Ok((Null, s[4..]))
    else if StartsWith(s, "true") then Ok((Bool(true), s[4..]))
    else if StartsWith(s, "false") then Ok((Bool(false), s[5..]))
    else NumberOf(fromChars, s)
  }

  /** An array after its bracket. */
  function ArrayOf(fromChars: FromChars, s: string): (r: Parsed<Value>)
    ensures r.Ok? ==> |r.value.1| < |s|
    decreases |s|, 4
  {
    var close := TakeChar(s, ']');
    if close.0 then Ok((Array([]), close.1)) else ItemsOf(fromChars, [], close.1)
  }

  /** An object after its brace. */
  function ObjectOf(fromChars: FromChars, s: string): (r: Parsed<Value>)
    ensures r.Ok? ==> |r.value.1| < |s|
    decreases |s|, 4
  {
    var close := TakeChar(s, '}');
    if close.0 then Ok((Object([]), close.1)) else EntriesOf(fromChars, [], close.1)
  }

  /** The rest of an array that already has `items`. */
  function ItemsOf(fromChars: FromChars, items: seq<Value>, s: string): (r: Parsed<Value>)
    ensures r.Ok? ==> |r.value.1| < |s|
    decreases |s|, 2
  {
    var item := ValueOf(fromChars, s);
    if item.Err? then item
    else
      var close := TakeChar(item.value.1, ']');
      if close.0 then Ok((Array(items + [item.value.0]), close.1))
      else
        var comma := TakeChar(close.1, ',');
        if comma.0 then ItemsOf(fromChars, items + [item.value.0], comma.1) else Err(InvalidArgument)
  }

  /** One key and its value. */
  function EntryOf(fromChars: FromChars, text: string): (r: Parsed<Entry>)
    ensures r.Ok? ==> |r.value.1| < |text|
    decreases |text|, 2
  {
    var s := SkipSpace(text);
    if s == [] || s[0] != '"' then Err(InvalidArgument)
    else
      var key := StringBody(s[1..]);
      if key.Err? then Err(key.error)
      else
        var colon := TakeChar(key.value.1, ':');
        if !colon.0 then Err(InvalidArgument)
        else
          var value := ValueOf(fromChars, colon.1);
          if value.Err? then Err(value.error) else Ok((Entry(key.value.0, value.value.0), value.value.1))
  }

  /** The rest of an object that already has `entries`. */
  function EntriesOf(fromChars: FromChars, entries: seq<Entry>, s: string): (r: Parsed<Value>)
    ensures r.Ok? ==> |r.value.1| < |s|
    decreases |s|, 3
  {
    var entry := EntryOf(fromChars, s);
    if entry.Err? then Err(entry.error)
    else
      var all := Emplace(entries, entry.value.0.key, entry.value.0.value);
      var close := TakeChar(entry.value.1, '}');
      if close.0 then Ok((Object(all), close.1))
      else
        var comma := TakeChar(close.1, ',');
        if comma.0 then EntriesOf(fromChars, all, comma.1) else Err(InvalidArgument)
  }

  /** `parse`. */
  function Document(fromChars: FromChars, text: string): Result<Value, ParseError> {
    var r := ValueOf(fromChars, text);
    if r.Err? then Err(r.error)
    else if SkipSpace(r.value.1) != [] then Err(InvalidArgument)
    else Ok(r.value.0)
  }

  // ---------- what the printer writes ----------

  type ToChars = real -> string

  function EscapedChar(c: char): string {
    if c == '"' || c == '\\' then ['\\', c]
    else if c == '\n' then "\\n"
    else if c == '\r' then "\\r"
    else if c == '\t' then "\\t"
    else [c]
  }

  function EscapedChars(s: string): string {
    if s == [] then [] else EscapedChar(s[0]) + EscapedChars(s[1..])
  }

  function Escaped(s: string): string { ['"'] + EscapedChars(s) + ['"'] }

  function Printed(toChars: ToChars, v: Value): string
    decreases v
  {
    match v
    case Null => "null"
    case Bool(b) => if b then "true" else "false"
    case Number(n) => toChars(n)
    case Str(s) => Escaped(s)
    case Array(items) => ['['] + (if items == [] then [] else Printed(toChars, items[0]) + MoreItems(toChars, items[1..])) + [']']
    case Object(entries) => ['{'] + (if entries == [] then [] else PrintedEntry(toChars, entries[0]) + MoreEntries(toChars, entries[1..])) + ['}']
  }

  function PrintedEntry(toChars: ToChars, e: Entry): string
    decreases e
  {
    Escaped(e.key) + [':'] + Printed(toChars, e.value)
  }

  function MoreItems(toChars: ToChars, items: seq<Value>): string
    decreases items
  {
    if items == [] then [] else [','] + Printed(toChars, items[0]) + MoreItems(toChars, items[1..])
  }

  function MoreEntries(toChars: ToChars, entries: seq<Entry>): string
    decreases entries
  {
    if entries == [] then [] else [','] + PrintedEntry(toChars, entries[0]) + MoreEntries(toChars, entries[1..])
  }

  /** Objects are maps throughout. */
  predicate WellFormed(v: Value)
    decreases v
  {
    match v
    case Array(items) => forall i | 0 <= i < |items| :: WellFormed(items[i])
    case Object(entries) => Ordered(entries) && forall i | 0 <= i < |entries| :: WellFormed(entries[i].value)
    case _ => true
  }

  predicate NumberFree(v: Value)
    decreases v
  {
    match v
    case Number(_) => false
    case Array(items) => forall i | 0 <= i < |items| :: NumberFree(items[i])
    case Object(entries) => forall i | 0 <= i < |entries| :: NumberFree(entries[i].value)
    case _ => true
  }

  // ---------- printing, then parsing ----------

  /** One escaped character reads back as itself. */
  lemma CharRoundTrip(c: char, tail: string)
    ensures StringBody(EscapedChar(c) + tail) == Following(c, StringBody(tail))
  {
    var e := EscapedChar(c);
    assert (e + tail)[|e|..] == tail;
    assert (e + tail)[0] == e[0] && (|e| == 2 ==> (e + tail)[1] == e[1]);
  }

  lemma {:induction false} StringRoundTrip(s: string, rest: string)
    ensures StringBody(EscapedChars(s) + ['"'] + rest) == Ok((s, rest))
  {
    if s == [] {
      assert (EscapedChars(s) + ['"'] + rest)[1..] == rest;
    } else {
      var tail := EscapedChars(s[1..]) + ['"'] + rest;
      assert EscapedChars(s) + ['"'] + rest == EscapedChar(s[0]) + tail;
      StringRoundTrip(s[1..], rest);
      CharRoundTrip(s[0], tail);
      assert s == [s[0]] + s[1..];
    }
  }

  /** What no printed value begins with. */
  lemma PrintedStart(toChars: ToChars, v: Value, rest: string)
    requires NumberFree(v)
    ensures var text := Printed(toChars, v) + rest;
      && Printed(toChars, v) != [] && text[0] == Printed(toChars, v)[0]
      && SkipSpace(text) == text && text[0] !in {']', '}', ','}
  {
  }

  lemma TakeIt(c: char, rest: string)
    requires !IsSpace(c)
    ensures TakeChar([c] + rest, c) == (true, rest)
  {
    assert ([c] + rest)[1..] == rest;
  }

  lemma TakeOther(s: string, c: char)
    requires s != [] && !IsSpace(s[0]) && s[0] != c
    ensures TakeChar(s, c) == (false, s)
  {
  }

  lemma LastItem(fromChars: FromChars, before: seq<Value>, s: string, v: Value, rest: string)
    requires ValueOf(fromChars, s) == Ok((v, [']'] + rest))
    ensures ItemsOf(fromChars, before, s) == Ok((Array(before + [v]), rest))
  {
    TakeIt(']', rest);
  }

  lemma NextItem(fromChars: FromChars, before: seq<Value>, s: string, v: Value, next: string)
    requires ValueOf(fromChars, s) == Ok((v, [','] + next))
    ensures ItemsOf(fromChars, before, s) == ItemsOf(fromChars, before + [v], next)
  {
    TakeOther([','] + next, ']');
    TakeIt(',', next);
  }

  lemma LastEntry(fromChars: FromChars, before: seq<Entry>, s: string, e: Entry, rest: string)
    requires EntryOf(fromChars, s) == Ok((e, ['}'] + rest))
    ensures EntriesOf(fromChars, before, s) == Ok((Object(Emplace(before, e.key, e.value)), rest))
  {
    TakeIt('}', rest);
  }

  lemma NextEntry(fromChars: FromChars, before: seq<Entry>, s: string, e: Entry, next: string)
    requires EntryOf(fromChars, s) == Ok((e, [','] + next))
    ensures EntriesOf(fromChars, before, s) == EntriesOf(fromChars, Emplace(before, e.key, e.value), next)
  {
    TakeOther([','] + next, '}');
    TakeIt(',', next);
  }

  /** What follows an array's first item, or an object's first entry, in some text. */
  function AfterItem(toChars: ToChars, items: seq<Value>, rest: string): string {
    MoreItems(toChars, items) + [']'] + rest
  }

  function AfterEntry(toChars: ToChars, entries: seq<Entry>, rest: string): string {
    MoreEntries(toChars, entries) + ['}'] + rest
  }

  lemma AfterItemUnfolds(toChars: ToChars, items: seq<Value>, rest: string)
    ensures AfterItem(toChars, items, rest) ==
      if items == [] then [']'] + rest
      else [','] + (Printed(toChars, items[0]) + AfterItem(toChars, items[1..], rest))
  {
  }

  lemma AfterEntryUnfolds(toChars: ToChars, entries: seq<Entry>, rest: string)
    ensures AfterEntry(toChars, entries, rest) ==
      if entries == [] then ['}'] + rest
      else [','] + (PrintedEntry(toChars, entries[0]) + AfterEntry(toChars, entries[1..], rest))
  {
  }

  lemma {:induction false} ValueRoundTrip(fromChars: FromChars, toChars: ToChars, v: Value, rest: string)
    requires WellFormed(v) && NumberFree(v)
    ensures ValueOf(fromChars, Printed(toChars, v) + rest) == Ok((v, rest))
    decreases v
  {
    hide ValueOf, Printed;
    match v
    case Array(items) => ArrayRoundTrip(fromChars, toChars, items, rest);
    case Object(entries) => ObjectRoundTrip(fromChars, toChars, entries, rest);
    case Str(s) => TextRoundTrip(fromChars, toChars, s, rest);
    case _ => WordRoundTrip(fromChars, toChars, v, rest);
  }

  lemma TextRoundTrip(fromChars: FromChars, toChars: ToChars, s: string, rest: string)
    ensures ValueOf(fromChars, Printed(toChars, Str(s)) + rest) == Ok((Str(s), rest))
  {
    hide StringBody, EscapedChars;
    var text := Printed(toChars, Str(s)) + rest;
    StringRoundTrip(s, rest);
    assert text[0] == '"' && text[1..] == EscapedChars(s) + ['"'] + rest;
  }

  lemma WordRoundTrip(fromChars: FromChars, toChars: ToChars, v: Value, rest: string)
    requires v.Null? || v.Bool?
    ensures ValueOf(fromChars, Printed(toChars, v) + rest) == Ok((v, rest))
  {
    var text := Printed(toChars, v) + rest;
    match v
    case Null => assert text[..4] == "null" && text[4..] == rest;
    case Bool(b) =>
      if b { assert text[..4] == "true" && text[4..] == rest; }
      else { assert text[..5] == "false" && text[5..] == rest; }
  }

  lemma {:induction false} ArrayRoundTrip(fromChars: FromChars, toChars: ToChars, items: seq<Value>, rest: string)
    requires forall i | 0 <= i < |items| :: WellFormed(items[i]) && NumberFree(items[i])
    ensures ValueOf(fromChars, Printed(toChars, Array(items)) + rest) == Ok((Array(items), rest))
    decreases items, 1
  {
    PrintedArray(toChars, items, rest);
    hide ValueOf, Printed, ItemsOf, AfterItem;
    if items == [] {
      EmptyArray(fromChars, rest);
    } else {
      var inner := Printed(toChars, items[0]) + AfterItem(toChars, items[1..], rest);
      PrintedStart(toChars, items[0], AfterItem(toChars, items[1..], rest));
      OpenArray(fromChars, inner);
      ItemsRoundTrip(fromChars, toChars, [], items, rest);
      assert [] + items == items;
    }
  }

  lemma PrintedArray(toChars: ToChars, items: seq<Value>, rest: string)
    ensures Printed(toChars, Array(items)) + rest ==
      if items == [] then ['['] + ([']'] + rest)
      else ['['] + (Printed(toChars, items[0]) + AfterItem(toChars, items[1..], rest))
  {
  }

  lemma EmptyArray(fromChars: FromChars, rest: string)
    ensures ValueOf(fromChars, ['['] + ([']'] + rest)) == Ok((Array([]), rest))
  {
    TakeIt(']', rest);
    assert (['['] + ([']'] + rest))[1..] == [']'] + rest;
  }

  lemma OpenArray(fromChars: FromChars, inner: string)
    requires inner != [] && SkipSpace(inner) == inner && inner[0] != ']'
    ensures ValueOf(fromChars, ['['] + inner) == ItemsOf(fromChars, [], inner)
  {
    hide ItemsOf;
    assert (['['] + inner)[1..] == inner;
  }

  lemma {:induction false} ItemsRoundTrip(fromChars: FromChars, toChars: ToChars, before: seq<Value>, items: seq<Value>, rest: string)
    requires items != [] && forall i | 0 <= i < |items| :: WellFormed(items[i]) && NumberFree(items[i])
    ensures ItemsOf(fromChars, before, Printed(toChars, items[0]) + AfterItem(toChars, items[1..], rest)) ==
            Ok((Array(before + items), rest))
    decreases items, 0
  {
    hide ValueOf, ItemsOf, Printed, AfterItem;
    var first, tail := items[0], items[1..];
    var s := Printed(toChars, first) + AfterItem(toChars, tail, rest);
    ValueRoundTrip(fromChars, toChars, first, AfterItem(toChars, tail, rest));
    AfterItemUnfolds(toChars, tail, rest);
    assert before + items == before + [first] + tail;
    if tail == [] {
      LastItem(fromChars, before, s, first, rest);
      assert before + [first] + tail == before + [first];
    } else {
      NextItem(fromChars, before, s, first, Printed(toChars, tail[0]) + AfterItem(toChars, tail[1..], rest));
      ItemsRoundTrip(fromChars, toChars, before + [first], tail, rest);
    }
  }

  lemma {:induction false} ObjectRoundTrip(fromChars: FromChars, toChars: ToChars, entries: seq<Entry>, rest: string)
    requires WellFormed(Object(entries)) && NumberFree(Object(entries))
    ensures ValueOf(fromChars, Printed(toChars, Object(entries)) + rest) == Ok((Object(entries), rest))
    decreases entries, 1
  {
    PrintedObject(toChars, entries, rest);
    hide ValueOf, Printed, EntriesOf, AfterEntry;
    if entries == [] {
      EmptyObject(fromChars, rest);
    } else {
      var inner := PrintedEntry(toChars, entries[0]) + AfterEntry(toChars, entries[1..], rest);
      OpenObject(fromChars, inner);
      EntriesRoundTrip(fromChars, toChars, [], entries, rest);
      assert [] + entries == entries;
    }
  }

  lemma PrintedObject(toChars: ToChars, entries: seq<Entry>, rest: string)
    ensures Printed(toChars, Object(entries)) + rest ==
      if entries == [] then ['{'] + (['}'] + rest)
      else ['{'] + (PrintedEntry(toChars, entries[0]) + AfterEntry(toChars, entries[1..], rest))
  {
  }

  lemma EmptyObject(fromChars: FromChars, rest: string)
    ensures ValueOf(fromChars, ['{'] + (['}'] + rest)) == Ok((Object([]), rest))
  {
    TakeIt('}', rest);
    assert (['{'] + (['}'] + rest))[1..] == ['}'] + rest;
  }

  lemma OpenObject(fromChars: FromChars, inner: string)
    requires inner != [] && !IsSpace(inner[0]) && inner[0] != '}'
    ensures ValueOf(fromChars, ['{'] + inner) == EntriesOf(fromChars, [], inner)
  {
    hide EntriesOf;
    TakeOther(inner, '}');
    assert (['{'] + inner)[1..] == inner;
  }

  lemma {:induction false} EntryRoundTrip(fromChars: FromChars, toChars: ToChars, e: Entry, rest: string)
    requires WellFormed(e.value) && NumberFree(e.value)
    ensures EntryOf(fromChars, PrintedEntry(toChars, e) + rest) == Ok((e, rest))
    decreases e
  {
    hide Printed, ValueOf, StringBody, EscapedChars;
    var text := PrintedEntry(toChars, e) + rest;
    var value := Printed(toChars, e.value) + rest;
    assert text[1..] == EscapedChars(e.key) + ['"'] + ([':'] + value);
    StringRoundTrip(e.key, [':'] + value);
    TakeIt(':', value);
    ValueRoundTrip(fromChars, toChars, e.value, rest);
  }

  lemma {:induction false} EntriesRoundTrip(fromChars: FromChars, toChars: ToChars, before: seq<Entry>, entries: seq<Entry>, rest: string)
    requires entries != [] && Ordered(before + entries)
    requires forall i | 0 <= i < |entries| :: WellFormed(entries[i].value) && NumberFree(entries[i].value)
    ensures EntriesOf(fromChars, before, PrintedEntry(toChars, entries[0]) + AfterEntry(toChars, entries[1..], rest)) ==
            Ok((Object(before + entries), rest))
    decreases entries, 0
  {
    hide EntryOf, EntriesOf, PrintedEntry, AfterEntry, Emplace, Ordered;
    var first, tail := entries[0], entries[1..];
    var s := PrintedEntry(toChars, first) + AfterEntry(toChars, tail, rest);
    EntryRoundTrip(fromChars, toChars, first, AfterEntry(toChars, tail, rest));
    AfterEntryUnfolds(toChars, tail, rest);
    FitsLast(before, entries);
    assert before + entries == before + [first] + tail;
    if tail == [] {
      LastEntry(fromChars, before, s, first, rest);
      assert before + [first] + tail == before + [first];
    } else {
      NextEntry(fromChars, before, s, first, PrintedEntry(toChars, tail[0]) + AfterEntry(toChars, tail[1..], rest));
      EntriesRoundTrip(fromChars, toChars, before + [first], tail, rest);
    }
  }

  lemma FitsLast(before: seq<Entry>, entries: seq<Entry>)
    requires entries != [] && Ordered(before + entries)
    ensures Emplace(before, entries[0].key, entries[0].value) == before + [entries[0]]
  {
    forall i | 0 <= i < |before| ensures Less(before[i].key, entries[0].key) {
      assert (before + entries)[i] == before[i] && (before + entries)[|before|] == entries[0];
    }
    EmplaceLast(before, entries[0].key, entries[0].value);
  }

  /** Every number-free value parses back from its own text. */
  lemma DocumentRoundTrip(fromChars: FromChars, toChars: ToChars, v: Value)
    requires WellFormed(v) && NumberFree(v)
    ensures Document(fromChars, Printed(toChars, v)) == Ok(v)
  {
    ValueRoundTrip(fromChars, toChars, v, []);
    assert Printed(toChars, v) + [] == Printed(toChars, v);
  }

  lemma WordStart(s: string, word: string)
    requires s != [] && word != [] && s[0] != word[0]
    ensures !StartsWith(s, word)
  {
    if |word| <= |s| { assert s[..|word|][0] == s[0]; }
  }

  /**
   A number whose text begins like one reads back exactly when the text is nothing but a sign,
   digits and a point, and the library's two conversions agree on it: 1000000 prints as
   1e+06, and the exponent is refused.
   */
  lemma NumberReadsBack(fromChars: FromChars, toChars: ToChars, n: real)
    requires var t := toChars(n);
      t != [] && (IsDigit(t[0]) || t[0] == '-') && forall i | 0 <= i < |t| :: !IsSpace(t[i])
    ensures var t := toChars(n);
      Document(fromChars, Printed(toChars, Number(n))) == Ok(Number(n)) <==>
      NumberLength(t) == |t| && fromChars(t) == Some(n)
  {
    hide NumberLength;
    var t := toChars(n);
    var k := NumberLength(t);
    assert SkipSpace(t) == t;
    assert SkipSpace(t[k..]) == t[k..];
    WordStart(t, "null");
    WordStart(t, "true");
    WordStart(t, "false");
    if k == |t| { assert t[..k] == t; }
  }

  // ---------- values with numbers ----------

  /** How a finite double prints: a sign or a digit first, and nothing but digits, signs, a point and an exponent. */
  predicate NumberText(t: string) {
    && t != [] && (IsDigit(t[0]) || t[0] == '-')
    && forall i | 0 <= i < |t| :: IsDigit(t[i]) || t[i] in {'-', '+', '.', 'e'}
  }

  ghost predicate PrintsNumbers(toChars: ToChars) { forall n: real :: NumberText(toChars(n)) }

  /** Every number in the value prints without an exponent and converts back. */
  predicate NumbersReadBack(fromChars: FromChars, toChars: ToChars, v: Value)
    decreases v
  {
    match v
    case Number(n) => NumberLength(toChars(n)) == |toChars(n)| && fromChars(toChars(n)) == Some(n)
    case Array(items) => forall i | 0 <= i < |items| :: NumbersReadBack(fromChars, toChars, items[i])
    case Object(entries) => forall i | 0 <= i < |entries| :: NumbersReadBack(fromChars, toChars, entries[i].value)
    case _ => true
  }

  /** What follows a printed value in a document. */
  predicate Ends(rest: string) { rest == [] || rest[0] in {',', ']', '}'} }

  /** What is left of a number the parser gave up on: nothing takes it. */
  predicate Stuck(s: string) { s != [] && s[0] in {'-', '+', '.', 'e'} }

  /** Reading a printed value gives it back exactly when `good`; otherwise it may give another, or get stuck. */
  predicate Fits(r: Parsed<Value>, v: Value, rest: string, good: bool) {
    && (r == Ok((v, rest)) <==> good)
    && (r.Err? || r.value.1 == rest || Stuck(r.value.1))
  }

  lemma {:induction false} DigitRunIn(t: string, rest: string)
    requires rest == [] || !IsDigit(rest[0])
    ensures DigitRun(t + rest) == DigitRun(t)
    ensures DigitRun(t) < |t| ==> !IsDigit(t[DigitRun(t)])
  {
    if t == [] {
      assert t + rest == rest;
    } else {
      assert (t + rest)[1..] == t[1..] + rest;
      DigitRunIn(t[1..], rest);
    }
  }

  lemma SignedRunIn(t: string, rest: string)
    requires t != [] && (rest == [] || !IsDigit(rest[0]))
    ensures SignedRun(t + rest) == SignedRun(t)
    ensures SignedRun(t) < |t| ==> !IsDigit(t[SignedRun(t)])
  {
    assert (t + rest)[1..] == t[1..] + rest;
    DigitRunIn(t, rest);
    DigitRunIn(t[1..], rest);
  }

  /** How much of a number is looked at does not depend on what follows it, and stops at no digit. */
  lemma NumberLengthIn(t: string, rest: string)
    requires t != [] && (rest == [] || (!IsDigit(rest[0]) && rest[0] != '.'))
    ensures NumberLength(t + rest) == NumberLength(t)
    ensures NumberLength(t) < |t| ==> !IsDigit(t[NumberLength(t)])
  {
    hide SignedRun, DigitRun;
    var whole := SignedRun(t);
    SignedRunIn(t, rest);
    if whole < |t| {
      assert (t + rest)[whole + 1..] == t[whole + 1..] + rest;
      DigitRunIn(t[whole + 1..], rest);
    }
  }

  lemma NumberFits(fromChars: FromChars, toChars: ToChars, n: real, rest: string)
    requires NumberText(toChars(n)) && Ends(rest)
    ensures Fits(ValueOf(fromChars, Printed(toChars, Number(n)) + rest), Number(n), rest,
                 NumbersReadBack(fromChars, toChars, Number(n)))
  {
    hide NumberLength;
    var t := toChars(n);
    var s, k := t + rest, NumberLength(t);
    assert s[0] == t[0] && SkipSpace(s) == s;
    WordStart(s, "null");
    WordStart(s, "true");
    WordStart(s, "false");
    NumberLengthIn(t, rest);
    assert s[..k] == t[..k];
    if k == |t| { assert s[k..] == rest && t[..k] == t; } else { assert s[k..][0] == t[k]; }
  }

  lemma PrintedFirst(toChars: ToChars, v: Value, rest: string)
    requires PrintsNumbers(toChars)
    ensures var text := Printed(toChars, v) + rest;
      text != [] && !IsSpace(text[0]) && text[0] !in {']', '}', ','} && SkipSpace(text) == text
  {
    if v.Number? { assert NumberText(toChars(v.n)); }
  }

  lemma {:induction false} ValueFits(fromChars: FromChars, toChars: ToChars, v: Value, rest: string)
    requires PrintsNumbers(toChars) && WellFormed(v) && Ends(rest)
    ensures Fits(ValueOf(fromChars, Printed(toChars, v) + rest), v, rest, NumbersReadBack(fromChars, toChars, v))
    decreases v
  {
    hide ValueOf, Printed;
    match v
    case Array(items) => ArrayFits(fromChars, toChars, items, rest);
    case Object(entries) => ObjectFits(fromChars, toChars, entries, rest);
    case Str(s) => TextRoundTrip(fromChars, toChars, s, rest);
    case Number(n) => NumberFits(fromChars, toChars, n, rest);
    case _ => WordRoundTrip(fromChars, toChars, v, rest);
  }

  lemma {:induction false} ArrayFits(fromChars: FromChars, toChars: ToChars, items: seq<Value>, rest: string)
    requires PrintsNumbers(toChars) && forall i | 0 <= i < |items| :: WellFormed(items[i])
    ensures Fits(ValueOf(fromChars, Printed(toChars, Array(items)) + rest), Array(items), rest,
                 NumbersReadBack(fromChars, toChars, Array(items)))
    decreases items, 1
  {
    hide ValueOf, Printed, ItemsOf, AfterItem;
    PrintedArray(toChars, items, rest);
    if items == [] {
      EmptyArray(fromChars, rest);
    } else {
      PrintedFirst(toChars, items[0], AfterItem(toChars, items[1..], rest));
      OpenArray(fromChars, Printed(toChars, items[0]) + AfterItem(toChars, items[1..], rest));
      ItemsFit(fromChars, toChars, [], items, rest);
      assert [] + items == items;
    }
  }

  /** Reading the items of an array: as many as were printed, after those already read. */
  predicate ItemsRead(r: Parsed<Value>, before: seq<Value>, n: nat, rest: string) {
    r.Err? || (r.value.1 == rest && r.value.0.Array? && |r.value.0.items| == |before| + n && before <= r.value.0.items)
  }

  lemma {:induction false} ItemsFit(fromChars: FromChars, toChars: ToChars, before: seq<Value>, items: seq<Value>, rest: string)
    requires PrintsNumbers(toChars) && items != [] && forall i | 0 <= i < |items| :: WellFormed(items[i])
    ensures var r := ItemsOf(fromChars, before, Printed(toChars, items[0]) + AfterItem(toChars, items[1..], rest));
      && ItemsRead(r, before, |items|, rest)
      && (r == Ok((Array(before + items), rest)) <==> NumbersReadBack(fromChars, toChars, Array(items)))
    decreases items, 0
  {
    hide ValueOf, ItemsOf, Printed, AfterItem;
    var first, tail := items[0], items[1..];
    var after := AfterItem(toChars, tail, rest);
    var s := Printed(toChars, first) + after;
    AfterItemUnfolds(toChars, tail, rest);
    ValueFits(fromChars, toChars, first, after);
    var read := ValueOf(fromChars, s);
    ReadBackItems(fromChars, toChars, items);
    if read.Err? || Stuck(read.value.1) {
      ItemFails(fromChars, before, s);
    } else if tail == [] {
      LastItem(fromChars, before, s, read.value.0, rest);
      ReplacedItem(before, read.value.0, items, before + [read.value.0]);
      assert before + [read.value.0] + tail == before + [read.value.0];
    } else {
      var w := read.value.0;
      NextItem(fromChars, before, s, w, Printed(toChars, tail[0]) + AfterItem(toChars, tail[1..], rest));
      ItemsFit(fromChars, toChars, before + [w], tail, rest);
      var r := ItemsOf(fromChars, before, s);
      ReplacedItem(before, w, items, if r.Ok? then r.value.0.items else before + [w]);
    }
  }

  lemma ReadBackItems(fromChars: FromChars, toChars: ToChars, items: seq<Value>)
    requires items != []
    ensures NumbersReadBack(fromChars, toChars, Array(items)) <==>
      NumbersReadBack(fromChars, toChars, items[0]) && NumbersReadBack(fromChars, toChars, Array(items[1..]))
  {
    assert items == [items[0]] + items[1..];
  }

  lemma ItemFails(fromChars: FromChars, before: seq<Value>, s: string)
    requires ValueOf(fromChars, s).Err? || Stuck(ValueOf(fromChars, s).value.1)
    ensures ItemsOf(fromChars, before, s).Err?
  {
    if ValueOf(fromChars, s).Ok? {
      var left := ValueOf(fromChars, s).value.1;
      TakeOther(left, ']');
      TakeOther(left, ',');
    }
  }

  /** What begins with `before` and `w` goes on as `before` and `items` only if `w` is the first of them. */
  lemma ReplacedItem<T>(before: seq<T>, w: T, items: seq<T>, all: seq<T>)
    requires items != [] && before + [w] <= all
    ensures before <= all && (all == before + items ==> w == items[0])
    ensures w == items[0] ==> before + [w] + items[1..] == before + items
  {
    assert items == [items[0]] + items[1..];
    assert all[|before|] == (before + [w])[|before|] == w;
    assert all[..|before|] == (before + [w])[..|before|] == before;
  }

  lemma {:induction false} ObjectFits(fromChars: FromChars, toChars: ToChars, entries: seq<Entry>, rest: string)
    requires PrintsNumbers(toChars) && WellFormed(Object(entries))
    ensures Fits(ValueOf(fromChars, Printed(toChars, Object(entries)) + rest), Object(entries), rest,
                 NumbersReadBack(fromChars, toChars, Object(entries)))
    decreases entries, 1
  {
    hide ValueOf, Printed, EntriesOf, AfterEntry;
    PrintedObject(toChars, entries, rest);
    if entries == [] {
      EmptyObject(fromChars, rest);
    } else {
      OpenObject(fromChars, PrintedEntry(toChars, entries[0]) + AfterEntry(toChars, entries[1..], rest));
      EntriesFit(fromChars, toChars, [], entries, rest);
      assert [] + entries == entries;
    }
  }

  /** The key always reads back, and the value as it does alone. */
  lemma {:induction false} EntryFits(fromChars: FromChars, toChars: ToChars, e: Entry, rest: string)
    requires PrintsNumbers(toChars) && WellFormed(e.value) && Ends(rest)
    ensures var r := EntryOf(fromChars, PrintedEntry(toChars, e) + rest);
      && (r == Ok((e, rest)) <==> NumbersReadBack(fromChars, toChars, e.value))
      && (r.Err? || (r.value.0.key == e.key && (r.value.1 == rest || Stuck(r.value.1))))
    decreases e
  {
    hide Printed, ValueOf, StringBody, EscapedChars, NumbersReadBack;
    var text := PrintedEntry(toChars, e) + rest;
    var value := Printed(toChars, e.value) + rest;
    assert text[1..] == EscapedChars(e.key) + ['"'] + ([':'] + value);
    StringRoundTrip(e.key, [':'] + value);
    TakeIt(':', value);
    ValueFits(fromChars, toChars, e.value, rest);
  }

  predicate EntriesRead(r: Parsed<Value>, before: seq<Entry>, n: nat, rest: string) {
    r.Err? || (r.value.1 == rest && r.value.0.Object? && |r.value.0.entries| == |before| + n && before <= r.value.0.entries)
  }

  lemma {:induction false} EntriesFit(fromChars: FromChars, toChars: ToChars, before: seq<Entry>, entries: seq<Entry>, rest: string)
    requires PrintsNumbers(toChars) && entries != [] && Ordered(before + entries)
    requires forall i | 0 <= i < |entries| :: WellFormed(entries[i].value)
    ensures var r := EntriesOf(fromChars, before, PrintedEntry(toChars, entries[0]) + AfterEntry(toChars, entries[1..], rest));
      && EntriesRead(r, before, |entries|, rest)
      && (r == Ok((Object(before + entries), rest)) <==> NumbersReadBack(fromChars, toChars, Object(entries)))
    decreases entries, 0
  {
    hide EntryOf, EntriesOf, PrintedEntry, AfterEntry, Emplace, Ordered;
    var first, tail := entries[0], entries[1..];
    var after := AfterEntry(toChars, tail, rest);
    var s := PrintedEntry(toChars, first) + after;
    AfterEntryUnfolds(toChars, tail, rest);
    EntryFits(fromChars, toChars, first, after);
    var read := EntryOf(fromChars, s);
    ReadBackEntries(fromChars, toChars, entries);
    if read.Err? || Stuck(read.value.1) {
      EntryFails(fromChars, before, s);
    } else {
      var w := read.value.0;
      SameKeyFits(before, w, entries);
      if tail == [] {
        LastEntry(fromChars, before, s, w, rest);
        ReplacedItem(before, w, entries, before + [w]);
        assert before + [w] + tail == before + [w];
      } else {
        NextEntry(fromChars, before, s, w, PrintedEntry(toChars, tail[0]) + AfterEntry(toChars, tail[1..], rest));
        EntriesFit(fromChars, toChars, before + [w], tail, rest);
        var r := EntriesOf(fromChars, before, s);
        ReplacedItem(before, w, entries, if r.Ok? then r.value.0.entries else before + [w]);
      }
    }
  }

  lemma ReadBackEntries(fromChars: FromChars, toChars: ToChars, entries: seq<Entry>)
    requires entries != []
    ensures NumbersReadBack(fromChars, toChars, Object(entries)) <==>
      NumbersReadBack(fromChars, toChars, entries[0].value) && NumbersReadBack(fromChars, toChars, Object(entries[1..]))
  {
    assert entries == [entries[0]] + entries[1..];
  }

  lemma EntryFails(fromChars: FromChars, before: seq<Entry>, s: string)
    requires EntryOf(fromChars, s).Err? || Stuck(EntryOf(fromChars, s).value.1)
    ensures EntriesOf(fromChars, before, s).Err?
  {
    hide EntryOf;
    if EntryOf(fromChars, s).Ok? {
      var left := EntryOf(fromChars, s).value.1;
      TakeOther(left, '}');
      TakeOther(left, ',');
    }
  }

  /** An entry with the first key takes its place, whatever its value. */
  lemma SameKeyFits(before: seq<Entry>, w: Entry, entries: seq<Entry>)
    requires entries != [] && Ordered(before + entries) && w.key == entries[0].key
    ensures Emplace(before, w.key, w.value) == before + [w] && Ordered(before + [w] + entries[1..])
  {
    var all, replaced := before + entries, before + [w] + entries[1..];
    forall i | 0 <= i < |all| ensures |replaced| == |all| && replaced[i].key == all[i].key {}
    forall i | 0 <= i < |before| ensures Less(before[i].key, w.key) {
      assert all[i] == before[i] && all[|before|] == entries[0];
    }
    EmplaceLast(before, w.key, w.value);
  }

  /**
   A document of any depth reads back exactly when every number in it prints without an exponent
   and converts back.
   */
  lemma DocumentReadsBackExactly(fromChars: FromChars, toChars: ToChars, v: Value)
    requires PrintsNumbers(toChars) && WellFormed(v)
    ensures Document(fromChars, Printed(toChars, v)) == Ok(v) <==> NumbersReadBack(fromChars, toChars, v)
  {
    hide ValueOf, Printed, NumbersReadBack;
    ValueFits(fromChars, toChars, v, []);
    assert Printed(toChars, v) + [] == Printed(toChars, v);
  }

  // ---------- what parsing yields ----------

  lemma {:induction false} ParsedIsWellFormed(fromChars: FromChars, text: string)
    requires ValueOf(fromChars, text).Ok?
    ensures WellFormed(ValueOf(fromChars, text).value.0)
    decreases |text|, 1
  {
    var s := SkipSpace(text);
    if s[0] == '{' {
      var close := TakeChar(s[1..], '}');
      if !close.0 { EntriesAreWellFormed(fromChars, [], close.1); }
    } else if s[0] == '[' {
      var close := TakeChar(s[1..], ']');
      if !close.0 { ItemsAreWellFormed(fromChars, [], close.1); }
    }
  }

  lemma {:induction false} ItemsAreWellFormed(fromChars: FromChars, items: seq<Value>, s: string)
    requires ItemsOf(fromChars, items, s).Ok? && forall i | 0 <= i < |items| :: WellFormed(items[i])
    ensures WellFormed(ItemsOf(fromChars, items, s).value.0)
    decreases |s|, 2
  {
    ParsedIsWellFormed(fromChars, s);
    var item := ValueOf(fromChars, s).value;
    var close := TakeChar(item.1, ']');
    if !close.0 { ItemsAreWellFormed(fromChars, items + [item.0], TakeChar(close.1, ',').1); }
  }

  lemma {:induction false} EntriesAreWellFormed(fromChars: FromChars, entries: seq<Entry>, s: string)
    requires EntriesOf(fromChars, entries, s).Ok? && WellFormed(Object(entries))
    ensures WellFormed(EntriesOf(fromChars, entries, s).value.0)
    decreases |s|, 2
  {
    var entry := EntryOf(fromChars, s).value;
    var colon := TakeChar(StringBody(SkipSpace(s)[1..]).value.1, ':');
    ParsedIsWellFormed(fromChars, colon.1);
    var all := Emplace(entries, entry.0.key, entry.0.value);
    EmplaceKeepsOrder(entries, entry.0.key, entry.0.value);
    forall i | 0 <= i < |all| ensures WellFormed(all[i].value) {
      EmplacedKey(entries, entry.0.key, entry.0.value, i);
    }
    var close := TakeChar(entry.1, '}');
    if !close.0 { EntriesAreWellFormed(fromChars, all, TakeChar(close.1, ',').1); }
  }

  /** Whatever parses without numbers can be printed and parsed again to the same value. */
  lemma ParsedReparses(fromChars: FromChars, toChars: ToChars, text: string)
    requires Document(fromChars, text).Ok? && NumberFree(Document(fromChars, text).value)
    ensures Document(fromChars, Printed(toChars, Document(fromChars, text).value)) == Document(fromChars, text)
  {
    ParsedIsWellFormed(fromChars, text);
    DocumentRoundTrip(fromChars, toChars, Document(fromChars, text).value);
  }

  // ---------- the printer ----------

  method AppendEscaped(out: string, text: string) returns (out': string)
    ensures out' == out + Escaped(text)
  {
    hide EscapedChars;
    out' := out + ['"'];
    assert text[0..] == text;
    for i := 0 to |text|
      invariant out' + EscapedChars(text[i..]) == out + ['"'] + EscapedChars(text)
    {
      var c := text[i];
      EscapedNext(text, i);
      var piece := [c];
      if c == '"' || c == '\\' { piece := ['\\', c]; }
      else if c == '\n' { piece := "\\n"; }
      else if c == '\r' { piece := "\\r"; }
      else if c == '\t' { piece := "\\t"; }
      assert out' + (piece + EscapedChars(text[i + 1..])) == out' + piece + EscapedChars(text[i + 1..]);
      out' := out' + piece;
    }
    EscapedNothing(text);
    assert out' + [] == out';
    out' := out' + ['"'];
  }

  lemma EscapedNext(text: string, i: nat)
    requires i < |text|
    ensures EscapedChars(text[i..]) == EscapedChar(text[i]) + EscapedChars(text[i + 1..])
  {
    TailOfTail(text, i, 1);
  }

  lemma EscapedNothing(text: string)
    ensures EscapedChars(text[|text|..]) == []
  {
  }

  method AppendValue(toChars: ToChars, out: string, value: Value) returns (out': string)
    ensures out' == out + Printed(toChars, value)
    decreases value
  {
    match value
    case Null => out' := out + "null";
    case Bool(b) => out' := out + if b then "true" else "false";
    case Number(n) => out' := out + toChars(n);
    case Str(s) => out' := AppendEscaped(out, s);
    case Array(items) => out' := AppendArray(toChars, out, items);
    case Object(entries) => out' := AppendObject(toChars, out, entries);
  }

  method AppendArray(toChars: ToChars, out: string, items: seq<Value>) returns (out': string)
    ensures out' == out + Printed(toChars, Array(items))
    decreases items
  {
    out' := out + ['['];
    for i := 0 to |items|
      invariant out' + ItemsLeft(toChars, items, i) == out + ['['] + ItemsLeft(toChars, items, 0)
    {
      ItemsLeftUnfolds(toChars, items, i);
      var comma := if i != 0 then [','] else [];
      Regroup(out', comma, Printed(toChars, items[i]), ItemsLeft(toChars, items, i + 1));
      out' := AppendValue(toChars, out' + comma, items[i]);
    }
    assert out' + [] == out';
    out' := out' + [']'];
    assert out' == out + (['['] + ItemsLeft(toChars, items, 0) + [']']);
  }

  method AppendObject(toChars: ToChars, out: string, entries: seq<Entry>) returns (out': string)
    ensures out' == out + Printed(toChars, Object(entries))
    decreases entries
  {
    out' := out + ['{'];
    for i := 0 to |entries|
      invariant out' + EntriesLeft(toChars, entries, i) == out + ['{'] + EntriesLeft(toChars, entries, 0)
    {
      EntriesLeftUnfolds(toChars, entries, i);
      var comma := if i != 0 then [','] else [];
      Regroup(out', comma, PrintedEntry(toChars, entries[i]), EntriesLeft(toChars, entries, i + 1));
      out' := AppendEntry(toChars, out' + comma, entries[i]);
    }
    assert out' + [] == out';
    out' := out' + ['}'];
    assert out' == out + (['{'] + EntriesLeft(toChars, entries, 0) + ['}']);
  }

  method AppendEntry(toChars: ToChars, out: string, e: Entry) returns (out': string)
    ensures out' == out + PrintedEntry(toChars, e)
    decreases e
  {
    out' := AppendEscaped(out, e.key);
    out' := AppendValue(toChars, out' + [':'], e.value);
  }

  lemma Regroup(a: string, b: string, c: string, d: string)
    ensures a + (b + c + d) == a + b + c + d
  {
  }

  /** What the loop has still to print before the closing bracket when it reaches `i`. */
  ghost function ItemsLeft(toChars: ToChars, items: seq<Value>, i: nat): string
    requires i <= |items|
  {
    if i == |items| then []
    else if i == 0 then Printed(toChars, items[0]) + MoreItems(toChars, items[1..])
    else MoreItems(toChars, items[i..])
  }

  lemma ItemsLeftUnfolds(toChars: ToChars, items: seq<Value>, i: nat)
    requires i < |items|
    ensures ItemsLeft(toChars, items, i) ==
      (if i == 0 then [] else [',']) + Printed(toChars, items[i]) + ItemsLeft(toChars, items, i + 1)
  {
    assert items[i..][0] == items[i] && items[i..][1..] == items[i + 1..];
    var p := Printed(toChars, items[i]);
    assert [] + p == p && p + [] == p && [','] + p + [] == [','] + p;
  }

  ghost function EntriesLeft(toChars: ToChars, entries: seq<Entry>, i: nat): string
    requires i <= |entries|
  {
    if i == |entries| then []
    else if i == 0 then PrintedEntry(toChars, entries[0]) + MoreEntries(toChars, entries[1..])
    else MoreEntries(toChars, entries[i..])
  }

  lemma EntriesLeftUnfolds(toChars: ToChars, entries: seq<Entry>, i: nat)
    requires i < |entries|
    ensures EntriesLeft(toChars, entries, i) ==
      (if i == 0 then [] else [',']) + PrintedEntry(toChars, entries[i]) + EntriesLeft(toChars, entries, i + 1)
  {
    assert entries[i..][0] == entries[i] && entries[i..][1..] == entries[i + 1..];
    var p := PrintedEntry(toChars, entries[i]);
    assert [] + p == p && p + [] == p && [','] + p + [] == [','] + p;
  }

  method Stringify(toChars: ToChars, value: Value) returns (text: string)
    ensures text == Printed(toChars, value)
  {
    text := AppendValue(toChars, "", value);
  }

  // ---------- the parser ----------

  class Parser {
    const text: string
    var pos: nat

    constructor (text: string)
      ensures this.text == text && pos == 0
    {
      this.text := text;
      pos := 0;
    }

    ghost predicate Valid()
      reads this
    {
      pos <= |text|
    }

    /** What is left to read. */
    ghost function Left(): string
      requires Valid()
      reads this
    {
      text[pos..]
    }

    ghost predicate Reached<T>(r: Result<T, ParseError>, spec: Parsed<T>)
      requires Valid()
      reads this
    {
      if r.Ok? then spec == Ok((r.value, Left())) else spec.Err?
    }

    method SkipWs()
      requires Valid()
      modifies this
      ensures Valid() && pos >= old(pos) && Left() == SkipSpace(old(Left()))
    {
      while pos < |text| && IsSpace(text[pos])
        invariant Valid() && pos >= old(pos) && SkipSpace(Left()) == SkipSpace(old(Left()))
      {
        TailOfTail(text, pos, 1);
        pos := pos + 1;
      }
    }

    method Take(c: char) returns (taken: bool)
      requires Valid()
      modifies this
      ensures Valid() && pos >= old(pos) && (taken ==> pos > old(pos))
      ensures (taken, Left()) == TakeChar(old(Left()), c)
    {
      SkipWs();
      if pos < |text| && text[pos] == c {
        TailOfTail(text, pos, 1);
        pos := pos + 1;
        return true;
      }
      taken := false;
    }

    method ParseString() returns (r: Result<string, ParseError>)
      requires Valid() && pos < |text|
      modifies this
      ensures Valid() && pos > old(pos)
      ensures Reached(r, StringBody(old(Left())[1..]))
    {
      hide StringBody, Ahead, Following;
      var out := "";
      TailOfTail(text, pos, 1);
      pos := pos + 1;
      ghost var goal := StringBody(Left());
      AheadOfNothing(goal);
      while pos < |text|
        invariant Valid() && pos > old(pos) && goal == Ahead(out, StringBody(Left()))
      {
        ghost var here := Left();
        var c := text[pos];
        TailOfTail(text, pos, 1);
        pos := pos + 1;
        StringStep(here, out);
        if c == '"' {
          return Ok(out);
        }
        if c != '\\' {
          AheadFollowing(out, c, StringBody(Left()));
          out := out + [c];
          continue;
        }
        if pos >= |text| {
          return Err(InvalidArgument);
        }
        var e := text[pos];
        TailOfTail(text, pos - 1, 2);
        pos := pos + 1;
        if Escape(e).None? {
          return Err(InvalidArgument);
        }
        AheadFollowing(out, Escape(e).value, StringBody(Left()));
        out := out + [Escape(e).value];
      }
      StringEnds(out);
      r := Err(InvalidArgument);
    }

    method SkipDigits()
      requires Valid()
      modifies this
      ensures Valid() && pos == old(pos) + DigitRun(old(Left()))
    {
      while pos < |text| && IsDigit(text[pos])
        invariant Valid() && old(pos) <= pos && pos + DigitRun(Left()) == old(pos) + DigitRun(old(Left()))
      {
        TailOfTail(text, pos, 1);
        pos := pos + 1;
      }
    }

    method ScanNumber()
      requires Valid() && pos < |text|
      modifies this
      ensures Valid() && pos == old(pos) + NumberLength(old(Left()))
    {
      ghost var s := Left();
      if text[pos] == '-' {
        Skip(1);
      }
      SkipDigits();
      assert pos == old(pos) + SignedRun(s);
      if pos < |text| && text[pos] == '.' {
        TailOfTail(text, old(pos), SignedRun(s) + 1);
        pos := pos + 1;
        SkipDigits();
      }
    }

    method ParseNumber(fromChars: FromChars) returns (r: Result<Value, ParseError>)
      requires Valid() && pos < |text|
      modifies this
      ensures Valid() && (r.Ok? ==> pos > old(pos))
      ensures Reached(r, NumberOf(fromChars, old(Left())))
    {
      var begin := pos;
      ghost var s := Left();
      ScanNumber();
      TailOfTail(text, begin, pos - begin);
      var view := text[begin..pos];
      assert view == s[..NumberLength(s)];
      if view == "" || fromChars(view).None? {
        return Err(InvalidArgument);
      }
      r := Ok(Number(fromChars(view).value));
    }

    method ParseArray(fromChars: FromChars) returns (r: Result<Value, ParseError>)
      requires Valid() && pos < |text|
      modifies this
      ensures Valid() && (r.Ok? ==> pos > old(pos))
      ensures Reached(r, ArrayOf(fromChars, old(Left())[1..]))
      decreases |text| - pos, 0
    {
      var items: seq<Value> := [];
      ghost var goal := ArrayOf(fromChars, Left()[1..]);
      TailOfTail(text, pos, 1);
      pos := pos + 1;
      var closed := Take(']');
      if closed {
        return Ok(Array([]));
      }
      while true
        invariant Valid() && pos > old(pos) && goal == ItemsOf(fromChars, items, Left())
        decreases |text| - pos
      {
        var item := ParseValue(fromChars);
        if item.Err? {
          return Err(item.error);
        }
        items := items + [item.value];
        closed := Take(']');
        if closed {
          return Ok(Array(items));
        }
        var comma := Take(',');
        if !comma {
          return Err(InvalidArgument);
        }
      }
    }

    /** A key, its colon and its value. */
    method ParseEntry(fromChars: FromChars) returns (r: Result<Entry, ParseError>)
      requires Valid()
      modifies this
      ensures Valid() && (r.Ok? ==> pos > old(pos))
      ensures Reached(r, EntryOf(fromChars, old(Left())))
      decreases |text| - pos, 2
    {
      SkipWs();
      if pos >= |text| || text[pos] != '"' {
        return Err(InvalidArgument);
      }
      var key := ParseString();
      if key.Err? {
        return Err(key.error);
      }
      var colon := Take(':');
      if !colon {
        return Err(InvalidArgument);
      }
      var value := ParseValue(fromChars);
      if value.Err? {
        return Err(value.error);
      }
      r := Ok(Entry(key.value, value.value));
    }

    method ParseObject(fromChars: FromChars) returns (r: Result<Value, ParseError>)
      requires Valid() && pos < |text|
      modifies this
      ensures Valid() && (r.Ok? ==> pos > old(pos))
      ensures Reached(r, ObjectOf(fromChars, old(Left())[1..]))
      decreases |text| - pos, 0
    {
      var object_: seq<Entry> := [];
      ghost var goal := ObjectOf(fromChars, Left()[1..]);
      TailOfTail(text, pos, 1);
      pos := pos + 1;
      var closed := Take('}');
      if closed {
        return Ok(Object([]));
      }
      while true
        invariant Valid() && pos > old(pos) && goal == EntriesOf(fromChars, object_, Left())
        decreases |text| - pos
      {
        var entry := ParseEntry(fromChars);
        if entry.Err? {
          return Err(entry.error);
        }
        object_ := Emplace(object_, entry.value.key, entry.value.value);
        closed := Take('}');
        if closed {
          return Ok(Object(object_));
        }
        var comma := Take(',');
        if !comma {
          return Err(InvalidArgument);
        }
      }
    }

    method ParseValue(fromChars: FromChars) returns (r: Result<Value, ParseError>)
      requires Valid()
      modifies this
      ensures Valid() && (r.Ok? ==> pos > old(pos))
      ensures Reached(r, ValueOf(fromChars, old(Left())))
      decreases |text| - pos, 1
    {
      SkipWs();
      if pos >= |text| {
        return Err(InvalidArgument);
      }
      if text[pos] == '{' { r := ParseObject(fromChars); return; }
      if text[pos] == '[' { r := ParseArray(fromChars); return; }
      if text[pos] == '"' {
        var s := ParseString();
        r := if s.Ok? then Ok(Str(s.value)) else Err(s.error);
        return;
      }
      if StartsWith(text[pos..], "null") { Skip(4); return Ok(Null); }
      if StartsWith(text[pos..], "true") { Skip(4); return Ok(Bool(true)); }
      if StartsWith(text[pos..], "false") { Skip(5); return Ok(Bool(false)); }
      r := ParseNumber(fromChars);
    }

    method Skip(n: nat)
      requires Valid() && pos + n <= |text|
      modifies this
      ensures Valid() && pos == old(pos) + n && Left() == old(Left())[n..]
    {
      TailOfTail(text, pos, n);
      pos := pos + n;
    }

    method Finish() returns (r: Result<(), ParseError>)
      requires Valid()
      modifies this
      ensures Valid() && r.Ok? == (SkipSpace(old(Left())) == [])
    {
      SkipWs();
      r := if pos != |text| then Err(InvalidArgument) else Ok(());
    }
  }

  method Parse(fromChars: FromChars, text: string) returns (r: Result<Value, ParseError>)
    ensures r == Document(fromChars, text)
  {
    var parser := new Parser(text);
    assert text[0..] == text;
    var value := parser.ParseValue(fromChars);
    if value.Err? {
      assert ValueOf(fromChars, text).error == InvalidArgument;
      return Err(InvalidArgument);
    }
    var finished := parser.Finish();
    r := if finished.Ok? then Ok(value.value) else Err(InvalidArgument);
  }

  ghost function Ahead(out: string, r: Parsed<string>): Parsed<string> {
    if r.Ok? then Ok((out + r.value.0, r.value.1)) else r
  }

  lemma AheadOfNothing(r: Parsed<string>)
    ensures Ahead("", r) == r
  {
    if r.Ok? { assert "" + r.value.0 == r.value.0; }
  }

  /** What a string is, by its first character. */
  lemma StringStep(s: string, out: string)
    requires s != []
    ensures s[0] == '"' ==> Ahead(out, StringBody(s)) == Ok((out, s[1..]))
    ensures s[0] != '"' && s[0] != '\\' ==> StringBody(s) == Following(s[0], StringBody(s[1..]))
    ensures s[0] == '\\' && (|s| == 1 || Escape(s[1]).None?) ==> Ahead(out, StringBody(s)).Err?
    ensures s[0] == '\\' && |s| > 1 && Escape(s[1]).Some? ==> StringBody(s) == Following(Escape(s[1]).value, StringBody(s[2..]))
  {
    assert out + "" == out;
  }

  lemma StringEnds(out: string)
    ensures Ahead(out, StringBody("")).Err?
  {
  }

  lemma AheadFollowing(out: string, c: char, r: Parsed<string>)
    ensures Ahead(out, Following(c, r)) == Ahead(out + [c], r)
  {
    if r.Ok? { assert out + ([c] + r.value.0) == out + [c] + r.value.0; }
  }
}
