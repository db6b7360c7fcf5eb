/** CloudEvents binary and structured content modes (ce_translate.rs). */
module CloudEvents {
  import opened Wrappers
  import opened Records
  import opened Text

  // UTF-8, base64 and JSON are library codecs, kept as a record of functions that is only assumed to
  // decode what it encodes, for JSON what it has read. A structured event is a map of attributes; the
  // text around it is the JSON codec's business.

  datatype JsonValue = Null | Bool(b: bool) | Number(text: string) | Str(s: string) | Compound(text: string)

  type Event = map<string, JsonValue>

  datatype Document = Object(event: Event) | NotAnObject

  datatype Codec = Codec(
    fromUtf8: seq<Byte> -> Option<string>,
    toBytes: string -> seq<Byte>,
    fromBase64: string -> Option<seq<Byte>>,
    toBase64: seq<Byte> -> string,
    fromJson: seq<Byte> -> Option<JsonValue>,
    toJson: JsonValue -> seq<Byte>)

  /** What is encoded decodes to itself, JSON once it has been read, and a text has only its own bytes. */
  ghost predicate Lawful(lib: Codec) {
    && (forall s: string :: lib.fromUtf8(lib.toBytes(s)) == Some(s))
    && (forall b: seq<Byte> :: lib.fromUtf8(b).Some? ==> lib.toBytes(lib.fromUtf8(b).value) == b)
    && (forall b: seq<Byte> :: lib.fromBase64(lib.toBase64(b)) == Some(b))
    && (forall b: seq<Byte> :: lib.fromJson(b).Some? ==> lib.fromJson(lib.toJson(lib.fromJson(b).value)) == lib.fromJson(b))
    && lib.toBytes("") == [] && lib.toBytes("1.0") == SPEC_VERSION
  }

  datatype CeError =
    | MissingAttribute(attribute: string) | NonUtf8Attribute(name: string) | UnsupportedSpecVersion
    | MalformedJson | MalformedBase64 | ConflictingData | NonScalarAttribute(name: string)

  const CONTENT_TYPE := "content-type"
  const DATA_CONTENT_TYPE := "datacontenttype"
  const DATA := "data"
  const DATA_BASE64 := "data_base64"
  const REQUIRED_ATTRIBUTES := ["id", "source", "type", "specversion"]

  /** The bytes of the text 1.0. */
  const SPEC_VERSION: seq<Byte> := [0x31, 0x2E, 0x30]

  type Header = (string, Option<seq<Byte>>)

  // ---------- names ----------

  /** The attribute a Kafka header carries, if it carries one. */
  function Attribute(key: string): Option<string> {
    if |key| >= 3 && key[..3] == "ce_" then Some(key[3..])
    else if key == CONTENT_TYPE then Some(DATA_CONTENT_TYPE)
    else None
  }

  function HeaderKey(attribute: string): string {
    if attribute == DATA_CONTENT_TYPE then CONTENT_TYPE else "ce_" + attribute
  }

  /** The header names that cannot survive a round trip. */
  predicate Reserved(key: string) { key in {"ce_data", "ce_data_base64", "ce_datacontenttype"} }

  lemma NamesRoundTrip(key: string)
    requires Attribute(key).Some? && !Reserved(key)
    ensures HeaderKey(Attribute(key).value) == key
    ensures Attribute(key).value != DATA && Attribute(key).value != DATA_BASE64
  {
    if key != CONTENT_TYPE {
      assert key == "ce_" + key[3..];
      assert "ce_" + DATA == "ce_data" && "ce_" + DATA_BASE64 == "ce_data_base64";
      assert "ce_" + DATA_CONTENT_TYPE == "ce_datacontenttype";
    } else {
      assert key[..3] == "con";
      assert key[..3][1] == 'o' && "ce_"[1] == 'e';
    }
  }

  /** No attribute but `data` and `data_base64` is written back to a reserved name. */
  lemma NeverReserved(attribute: string)
    requires attribute != DATA && attribute != DATA_BASE64
    ensures !Reserved(HeaderKey(attribute)) && Attribute(HeaderKey(attribute)) == Some(attribute)
  {
    if attribute != DATA_CONTENT_TYPE {
      var key := "ce_" + attribute;
      assert key[3..] == attribute && key[..3] == "ce_";
      assert "ce_data"[3..] == DATA && "ce_data_base64"[3..] == DATA_BASE64 && "ce_datacontenttype"[3..] == DATA_CONTENT_TYPE;
    } else {
      assert CONTENT_TYPE[..3][1] == 'o' && "ce_"[1] == 'e';
    }
  }

  // ---------- media types ----------

  function UpToSemicolon(s: string): string {
    if s == [] || s[0] == ';' then [] else [s[0]] + UpToSemicolon(s[1..])
  }

  function Lowered(s: string): string { seq(|s|, i requires 0 <= i < |s| => Lower(s[i])) }

  function BaseMediaType(mediaType: string): string { Lowered(Trim(UpToSemicolon(mediaType))) }

  predicate IsJsonMediaType(mediaType: string) {
    var base := BaseMediaType(mediaType);
    base == "application/json" || (|base| >= 5 && base[|base| - 5..] == "+json")
  }

  // ---------- binary to structured ----------

  /** The attributes of a record's headers; the first header that is not UTF-8 is an error whatever its name. */
  function Attributes(lib: Codec, headers: seq<Header>): Result<Event, CeError> {
    if headers == [] then Ok(map[])
    else
      var n := |headers| - 1;
      var before := Attributes(lib, headers[..n]);
      var (key, value) := headers[n];
      if before.Err? || value.None? then before
      else
        var text := lib.fromUtf8(value.value);
        if text.None? then Err(NonUtf8Attribute(key))
        else if Attribute(key).None? then before
        else Ok(before.value[Attribute(key).value := Str(text.value)])
  }

  /** The value to carry as JSON, when the media type says so and it parses. */
  function JsonData(lib: Codec, event: Event, value: seq<Byte>): Option<JsonValue> {
    if DATA_CONTENT_TYPE in event && event[DATA_CONTENT_TYPE].Str? && IsJsonMediaType(event[DATA_CONTENT_TYPE].s)
    then lib.fromJson(value)
    else None
  }

  function WithData(lib: Codec, event: Event, value: seq<Byte>): Event {
    var data := JsonData(lib, event, value);
    if data.Some? then event[DATA := data.value] else event[DATA_BASE64 := Str(lib.toBase64(value))]
  }

  function Structured(lib: Codec, headers: seq<Header>, value: seq<Byte>): Result<Event, CeError> {
    var event := Attributes(lib, headers);
    if event.Err? then event else Ok(WithData(lib, event.value, value))
  }

  method StructuredFromBinary(lib: Codec, headers: seq<Header>, value: seq<Byte>) returns (r: Result<Event, CeError>)
    ensures r == Structured(lib, headers, value)
  {
    var event: Event := map[];
    for i := 0 to |headers|
      invariant Attributes(lib, headers[..i]) == Ok(event)
    {
      assert headers[..i + 1][..i] == headers[..i];
      var (key, headerValue) := headers[i];
      if headerValue.None? {
        continue;
      }
      var text := lib.fromUtf8(headerValue.value);
      if text.None? {
        ErrorStays(lib, headers, i + 1);
        return Err(NonUtf8Attribute(key));
      }
      if Attribute(key).Some? {
        event := event[Attribute(key).value := Str(text.value)];
      }
    }
    assert headers[..|headers|] == headers;
    var data := JsonData(lib, event, value);
    if data.Some? {
      event := event[DATA := data.value];
    } else {
      event := event[DATA_BASE64 := Str(lib.toBase64(value))];
    }
    r := Ok(event);
  }

  lemma {:induction false} ErrorStays(lib: Codec, headers: seq<Header>, i: nat)
    requires i <= |headers| && Attributes(lib, headers[..i]).Err?
    ensures Attributes(lib, headers) == Attributes(lib, headers[..i])
    decreases |headers|
  {
    if i == |headers| {
      assert headers[..i] == headers;
    } else {
      assert headers[..|headers| - 1][..i] == headers[..i];
      ErrorStays(lib, headers[..|headers| - 1], i);
    }
  }

  // ---------- structured to binary ----------

  function ValidateStructured(document: Document): Result<(), CeError> {
    if !document.Object? then Err(MalformedJson)
    else if DATA in document.event && DATA_BASE64 in document.event then Err(ConflictingData)
    else
      var missing := FirstMissing(document.event, 0);
      if missing.Some? then Err(MissingAttribute(missing.value))
      else if document.event["specversion"] != Str("1.0") then Err(UnsupportedSpecVersion)
      else Ok(())
  }

  predicate HasText(event: Event, attribute: string) {
    attribute in event && event[attribute].Str? && event[attribute].s != ""
  }

  function FirstMissing(event: Event, i: nat): (r: Option<string>)
    requires i <= |REQUIRED_ATTRIBUTES|
    ensures r.None? <==> forall k | i <= k < |REQUIRED_ATTRIBUTES| :: HasText(event, REQUIRED_ATTRIBUTES[k])
    ensures r.None? && i <= 3 ==> HasText(event, "specversion")
    decreases |REQUIRED_ATTRIBUTES| - i
  {
    if i == |REQUIRED_ATTRIBUTES| then None
    else if !HasText(event, REQUIRED_ATTRIBUTES[i]) then Some(REQUIRED_ATTRIBUTES[i])
    else FirstMissing(event, i + 1)
  }

  function ScalarBytes(lib: Codec, attribute: string, value: JsonValue): Result<seq<Byte>, CeError> {
    match value
    case Str(s) => Ok(lib.toBytes(s))
    case Bool(b) => Ok(lib.toBytes(if b then "true" else "false"))
    case Number(text) => Ok(lib.toBytes(text))
    case Null => Err(NonScalarAttribute(attribute))
    case Compound(_) => Err(NonScalarAttribute(attribute))
  }

  type BinaryHeader = (string, seq<Byte>)

  /** The headers of an event's attributes, in the map's own order. */
  function HeadersOf(lib: Codec, event: Event, order: seq<string>): Result<seq<BinaryHeader>, CeError>
    requires forall a | a in order :: a in event
  {
    if order == [] then Ok([])
    else
      var n := |order| - 1;
      var before := HeadersOf(lib, event, order[..n]);
      if before.Err? || order[n] == DATA || order[n] == DATA_BASE64 then before
      else
        var bytes := ScalarBytes(lib, order[n], event[order[n]]);
        if bytes.Err? then Err(bytes.error) else Ok(before.value + [(HeaderKey(order[n]), bytes.value)])
  }

  function DataOf(lib: Codec, event: Event): Result<seq<Byte>, CeError> {
    if DATA_BASE64 in event then
      if !event[DATA_BASE64].Str? then Err(MalformedBase64)
      else
        var decoded := lib.fromBase64(event[DATA_BASE64].s);
        if decoded.Some? then Ok(decoded.value) else Err(MalformedBase64)
    else if DATA in event then Ok(lib.toJson(event[DATA]))
    else Ok([])
  }

  type Binary = (seq<BinaryHeader>, seq<Byte>)

  /** `order` lists the keys of a map, each once. */
  ghost predicate Lists(order: seq<string>, event: Event) {
    && (forall a | a in order :: a in event) && (forall a | a in event :: a in order)
    && (forall i, j | 0 <= i < j < |order| :: order[i] != order[j])
  }

  ghost function BinaryOf(lib: Codec, document: Document, order: seq<string>): Result<Binary, CeError>
    requires document.Object? ==> Lists(order, document.event)
  {
    var valid := ValidateStructured(document);
    if valid.Err? then Err(valid.error)
    else
      var headers := HeadersOf(lib, document.event, order);
      if headers.Err? then Err(headers.error)
      else
        var data := DataOf(lib, document.event);
        if data.Err? then Err(data.error) else Ok((headers.value, data.value))
  }

  method BinaryFromStructured(lib: Codec, document: Document, order: seq<string>) returns (r: Result<Binary, CeError>)
    requires document.Object? ==> Lists(order, document.event)
    ensures r == BinaryOf(lib, document, order)
  {
    var valid := ValidateStructured(document);
    if valid.Err? {
      return Err(valid.error);
    }
    var headers := WriteHeaders(lib, document.event, order);
    if headers.Err? {
      return Err(headers.error);
    }
    var data := DataOf(lib, document.event);
    r := if data.Err? then Err(data.error) else Ok((headers.value, data.value));
  }

  /** The loop over the event's attributes. */
  method WriteHeaders(lib: Codec, event: Event, order: seq<string>) returns (r: Result<seq<BinaryHeader>, CeError>)
    requires forall a | a in order :: a in event
    ensures r == HeadersOf(lib, event, order)
  {
    var headers: seq<BinaryHeader> := [];
    for i := 0 to |order|
      invariant HeadersOf(lib, event, order[..i]) == Ok(headers)
    {
      assert order[..i + 1][..i] == order[..i];
      var attribute := order[i];
      if attribute == DATA || attribute == DATA_BASE64 {
        continue;
      }
      var bytes := ScalarBytes(lib, attribute, event[attribute]);
      if bytes.Err? {
        HeaderErrorStays(lib, event, order, i + 1);
        return Err(bytes.error);
      }
      headers := headers + [(HeaderKey(attribute), bytes.value)];
    }
    assert order[..|order|] == order;
    r := Ok(headers);
  }

  lemma {:induction false} HeaderErrorStays(lib: Codec, event: Event, order: seq<string>, i: nat)
    requires i <= |order| && (forall a | a in order :: a in event) && HeadersOf(lib, event, order[..i]).Err?
    ensures HeadersOf(lib, event, order) == HeadersOf(lib, event, order[..i])
    decreases |order|
  {
    if i == |order| {
      assert order[..i] == order;
    } else {
      assert order[..|order| - 1][..i] == order[..i];
      HeaderErrorStays(lib, event, order[..|order| - 1], i);
    }
  }

  // ---------- binary validation ----------

  function FirstNonUtf8(lib: Codec, headers: seq<BinaryHeader>): (r: Option<string>)
    ensures r.None? <==> forall i | 0 <= i < |headers| :: IsAttributeName(headers[i].0) ==> lib.fromUtf8(headers[i].1).Some?
  {
    if headers == [] then None
    else
      var n := |headers| - 1;
      var before := FirstNonUtf8(lib, headers[..n]);
      assert forall i | 0 <= i < n :: headers[..n][i] == headers[i];
      if before.Some? then before
      else if IsAttributeName(headers[n].0) && lib.fromUtf8(headers[n].1).None? then Some(headers[n].0)
      else None
  }

  predicate IsAttributeName(key: string) { |key| >= 3 && key[..3] == "ce_" }

  predicate Provides(headers: seq<BinaryHeader>, attribute: string) {
    exists i | 0 <= i < |headers| :: headers[i].0 == "ce_" + attribute && headers[i].1 != []
  }

  function FirstUnprovided(headers: seq<BinaryHeader>, i: nat): (r: Option<string>)
    requires i <= |REQUIRED_ATTRIBUTES|
    ensures r.None? <==> forall k | i <= k < |REQUIRED_ATTRIBUTES| :: Provides(headers, REQUIRED_ATTRIBUTES[k])
    decreases |REQUIRED_ATTRIBUTES| - i
  {
    if i == |REQUIRED_ATTRIBUTES| then None
    else if !Provides(headers, REQUIRED_ATTRIBUTES[i]) then Some(REQUIRED_ATTRIBUTES[i])
    else FirstUnprovided(headers, i + 1)
  }

  /** The value of the first header with a name. */
  function FirstValue(headers: seq<BinaryHeader>, key: string): (r: Option<seq<Byte>>)
    ensures r.Some? ==> (key, r.value) in headers
    ensures r.None? ==> forall i | 0 <= i < |headers| :: headers[i].0 != key
  {
    if headers == [] then None
    else if headers[0].0 == key then Some(headers[0].1)
    else
      var rest := FirstValue(headers[1..], key);
      assert headers == [headers[0]] + headers[1..];
      rest
  }

  function ValidateBinary(lib: Codec, headers: seq<BinaryHeader>): Result<(), CeError> {
    var bad := FirstNonUtf8(lib, headers);
    if bad.Some? then Err(NonUtf8Attribute(bad.value))
    else
      var missing := FirstUnprovided(headers, 0);
      if missing.Some? then Err(MissingAttribute(missing.value))
      else if FirstValue(headers, "ce_specversion") != Some(SPEC_VERSION) then Err(UnsupportedSpecVersion)
      else Ok(())
  }

  lemma {:induction false} FirstStaysFirst(lib: Codec, headers: seq<BinaryHeader>, i: nat)
    requires i <= |headers| && FirstNonUtf8(lib, headers[..i]).Some?
    ensures FirstNonUtf8(lib, headers) == FirstNonUtf8(lib, headers[..i])
    decreases |headers|
  {
    if i == |headers| {
      assert headers[..i] == headers;
    } else {
      assert headers[..|headers| - 1][..i] == headers[..i];
      FirstStaysFirst(lib, headers[..|headers| - 1], i);
    }
  }

  method ValidateBinaryRequired(lib: Codec, headers: seq<BinaryHeader>) returns (r: Result<(), CeError>)
    ensures r == ValidateBinary(lib, headers)
  {
    for i := 0 to |headers|
      invariant FirstNonUtf8(lib, headers[..i]).None?
    {
      assert headers[..i + 1][..i] == headers[..i];
      if IsAttributeName(headers[i].0) && lib.fromUtf8(headers[i].1).None? {
        FirstStaysFirst(lib, headers, i + 1);
        return Err(NonUtf8Attribute(headers[i].0));
      }
    }
    assert headers[..|headers|] == headers;
    for k := 0 to |REQUIRED_ATTRIBUTES|
      invariant FirstUnprovided(headers, 0) == FirstUnprovided(headers, k)
    {
      if !Provides(headers, REQUIRED_ATTRIBUTES[k]) {
        return Err(MissingAttribute(REQUIRED_ATTRIBUTES[k]));
      }
    }
    r := if FirstValue(headers, "ce_specversion") != Some(SPEC_VERSION) then Err(UnsupportedSpecVersion) else Ok(());
  }

  // ---------- what a record carries ----------

  /** The headers that carry an attribute, in record order. */
  function Carried(headers: seq<Header>): seq<BinaryHeader> {
    if headers == [] then []
    else
      var n := |headers| - 1;
      var (key, value) := headers[n];
      Carried(headers[..n]) + if value.Some? && Attribute(key).Some? then [(key, value.value)] else []
  }

  /** The last carried header of an attribute. */
  function Last(carried: seq<BinaryHeader>, a: string): (r: Option<nat>)
    ensures r.Some? ==> r.value < |carried| && Attribute(carried[r.value].0) == Some(a)
    ensures r.None? ==> forall i | 0 <= i < |carried| :: Attribute(carried[i].0) != Some(a)
  {
    if carried == [] then None
    else
      var n := |carried| - 1;
      if Attribute(carried[n].0) == Some(a) then Some(n)
      else
        assert forall i | 0 <= i < n :: carried[..n][i] == carried[i];
        Last(carried[..n], a)
  }

  ghost predicate Says(lib: Codec, event: Event, carried: seq<BinaryHeader>, a: string) {
    var i := Last(carried, a);
    && (a in event <==> i.Some?)
    && (i.Some? ==> lib.fromUtf8(carried[i.value].1).Some? && event[a] == Str(lib.fromUtf8(carried[i.value].1).value))
  }

  lemma SaysOneMore(lib: Codec, event: Event, carried: seq<BinaryHeader>, key: string, bytes: seq<Byte>, a: string)
    requires Says(lib, event, carried, a) && Attribute(key).Some? && lib.fromUtf8(bytes).Some?
    ensures Says(lib, event[Attribute(key).value := Str(lib.fromUtf8(bytes).value)], carried + [(key, bytes)], a)
  {
    var all := carried + [(key, bytes)];
    assert all[..|carried|] == carried;
    if Attribute(key).value != a { assert Last(all, a) == Last(carried, a); }
  }

  lemma {:induction false} AttributesSay(lib: Codec, headers: seq<Header>, a: string)
    requires Attributes(lib, headers).Ok?
    ensures Says(lib, Attributes(lib, headers).value, Carried(headers), a)
    decreases |headers|
  {
    if headers != [] {
      var n := |headers| - 1;
      AttributesSay(lib, headers[..n], a);
      var (key, value) := headers[n];
      if value.Some? && Attribute(key).Some? {
        SaysOneMore(lib, Attributes(lib, headers[..n]).value, Carried(headers[..n]), key, value.value, a);
      } else {
        assert Carried(headers) == Carried(headers[..n]) + [] == Carried(headers[..n]);
      }
    }
  }

  ghost predicate DistinctNames(carried: seq<BinaryHeader>) {
    forall i, j | 0 <= i < j < |carried| :: carried[i].0 != carried[j].0
  }

  predicate NoReserved(carried: seq<BinaryHeader>) {
    forall i | 0 <= i < |carried| :: !Reserved(carried[i].0)
  }

  lemma {:induction false} CarriedAreAttributes(headers: seq<Header>, i: nat)
    requires i < |Carried(headers)|
    ensures Attribute(Carried(headers)[i].0).Some?
    decreases |headers|
  {
    var n := |headers| - 1;
    if i < |Carried(headers[..n])| { CarriedAreAttributes(headers[..n], i); }
  }

  /** With distinct, unreserved names each header is its attribute's only source. */
  lemma OnlySource(headers: seq<Header>, i: nat)
    requires DistinctNames(Carried(headers)) && NoReserved(Carried(headers)) && i < |Carried(headers)|
    ensures Attribute(Carried(headers)[i].0).Some?
    ensures Last(Carried(headers), Attribute(Carried(headers)[i].0).value) == Some(i)
  {
    var carried := Carried(headers);
    CarriedAreAttributes(headers, i);
    var j := Last(carried, Attribute(carried[i].0).value);
    NamesRoundTrip(carried[i].0);
    NamesRoundTrip(carried[j.value].0);
  }

  // ---------- there and back ----------

  /** The attributes `binary_from_structured` writes as headers. */
  predicate Written(a: string) { a != DATA && a != DATA_BASE64 }

  ghost predicate AllText(event: Event, order: seq<string>) {
    forall a | a in order && Written(a) :: a in event && event[a].Str?
  }

  /** When every written attribute is text, the headers are those attributes and nothing else. */
  lemma {:induction false} HeadersAreAttributes(lib: Codec, event: Event, order: seq<string>)
    requires (forall a | a in order :: a in event) && AllText(event, order)
    ensures HeadersOf(lib, event, order).Ok?
    ensures var headers := HeadersOf(lib, event, order).value;
      && (forall a | a in order && Written(a) :: (HeaderKey(a), lib.toBytes(event[a].s)) in headers)
      && (forall h | h in headers :: IsHeaderOf(lib, event, order, h))
    decreases |order|
  {
    if order != [] {
      var n := |order| - 1;
      HeadersAreAttributes(lib, event, order[..n]);
      assert order == order[..n] + [order[n]];
      var before := HeadersOf(lib, event, order[..n]).value;
      if Written(order[n]) {
        NeverReserved(order[n]);
        var headers := HeadersOf(lib, event, order).value;
        assert headers == before + [(HeaderKey(order[n]), lib.toBytes(event[order[n]].s))];
        forall h | h in headers ensures IsHeaderOf(lib, event, order, h) {
          if h in before { assert IsHeaderOf(lib, event, order[..n], h); }
        }
      }
    }
  }

  ghost predicate IsHeaderOf(lib: Codec, event: Event, order: seq<string>, h: BinaryHeader) {
    var a := Attribute(h.0);
    && a.Some? && a.value in order && Written(a.value) && a.value in event && event[a.value].Str?
    && h == (HeaderKey(a.value), lib.toBytes(event[a.value].s))
  }

  /** The same headers, each as often, in any order. */
  ghost predicate SameHeaders(xs: seq<BinaryHeader>, ys: seq<BinaryHeader>) {
    multiset(xs) == multiset(ys)
  }

  lemma {:induction false} DistinctAreSingle(xs: seq<BinaryHeader>, h: BinaryHeader)
    requires DistinctNames(xs)
    ensures multiset(xs)[h] == if h in xs then 1 else 0
    decreases |xs|
  {
    if xs != [] {
      var n := |xs| - 1;
      assert xs == xs[..n] + [xs[n]];
      DistinctAreSingle(xs[..n], h);
    }
  }

  /** Headers with distinct names are the same as soon as each occurs in both. */
  lemma SameWhenDistinct(xs: seq<BinaryHeader>, ys: seq<BinaryHeader>)
    requires DistinctNames(xs) && DistinctNames(ys) && forall h: BinaryHeader :: h in xs <==> h in ys
    ensures SameHeaders(xs, ys)
  {
    forall h: BinaryHeader ensures multiset(xs)[h] == multiset(ys)[h] {
      DistinctAreSingle(xs, h);
      DistinctAreSingle(ys, h);
    }
  }

  lemma RepeatedIsCounted(xs: seq<BinaryHeader>, i: nat, j: nat)
    requires i < j < |xs| && xs[i] == xs[j]
    ensures multiset(xs)[xs[i]] >= 2
  {
    assert xs == xs[..j] + [xs[j]] + xs[j + 1..];
    assert xs[i] in xs[..j];
  }

  lemma DistinctStaysDistinct(xs: seq<BinaryHeader>, ys: seq<BinaryHeader>)
    requires DistinctNames(xs) && SameHeaders(xs, ys)
    ensures DistinctNames(ys)
  {
    forall i, j | 0 <= i < j < |ys| ensures ys[i].0 != ys[j].0 {
      assert ys[i] in multiset(ys) && ys[j] in multiset(ys);
      assert ys[i] in xs && ys[j] in xs;
      if ys[i] == ys[j] {
        RepeatedIsCounted(ys, i, j);
        DistinctAreSingle(xs, ys[i]);
      }
    }
  }

  lemma HeadersAreDistinct(lib: Codec, event: Event, order: seq<string>)
    requires Lists(order, event) && HeadersOf(lib, event, order).Ok?
    ensures DistinctNames(HeadersOf(lib, event, order).value)
  {
    assert order[..|order|] == order;
    DistinctUpTo(lib, event, order, |order|);
  }

  lemma {:induction false} DistinctUpTo(lib: Codec, event: Event, order: seq<string>, n: nat)
    requires Lists(order, event) && n <= |order| && HeadersOf(lib, event, order[..n]).Ok?
    ensures DistinctNames(HeadersOf(lib, event, order[..n]).value)
    ensures forall h | h in HeadersOf(lib, event, order[..n]).value :: Attribute(h.0).Some? && Attribute(h.0).value in order[..n]
    decreases n
  {
    if n > 0 {
      assert order[..n][..n - 1] == order[..n - 1] && order[..n] == order[..n - 1] + [order[n - 1]];
      DistinctUpTo(lib, event, order, n - 1);
      if Written(order[n - 1]) { NeverReserved(order[n - 1]); }
    }
  }

  /** The attributes of a record without reserved names, as seen in its structured event. */
  lemma EventAt(lib: Codec, headers: seq<Header>, value: seq<Byte>, a: string)
    requires Attributes(lib, headers).Ok? && Written(a)
    ensures var event := Structured(lib, headers, value).value;
      Says(lib, event, Carried(headers), a)
  {
    AttributesSay(lib, headers, a);
  }

  lemma UnreservedHasNoData(lib: Codec, headers: seq<Header>)
    requires Attributes(lib, headers).Ok? && NoReserved(Carried(headers))
    ensures DATA !in Attributes(lib, headers).value && DATA_BASE64 !in Attributes(lib, headers).value
  {
    var carried := Carried(headers);
    AttributesSay(lib, headers, DATA);
    AttributesSay(lib, headers, DATA_BASE64);
    forall i | 0 <= i < |carried|
      ensures Attribute(carried[i].0) != Some(DATA) && Attribute(carried[i].0) != Some(DATA_BASE64)
    {
      CarriedAreAttributes(headers, i);
      NamesRoundTrip(carried[i].0);
    }
  }

  /** Headers survive the round trip: each comes back once, and nothing else does. */
  lemma HeadersSurvive(lib: Codec, headers: seq<Header>, value: seq<Byte>, order: seq<string>)
    requires Lawful(lib) && Attributes(lib, headers).Ok?
    requires DistinctNames(Carried(headers)) && NoReserved(Carried(headers))
    requires Lists(order, Structured(lib, headers, value).value)
    ensures HeadersOf(lib, Structured(lib, headers, value).value, order).Ok?
    ensures SameHeaders(HeadersOf(lib, Structured(lib, headers, value).value, order).value, Carried(headers))
  {
    var event, carried := Structured(lib, headers, value).value, Carried(headers);
    forall a | a in order && Written(a) ensures a in event && event[a].Str? { EventAt(lib, headers, value, a); }
    HeadersAreAttributes(lib, event, order);
    var back := HeadersOf(lib, event, order).value;
    HeadersAreDistinct(lib, event, order);
    forall h: BinaryHeader ensures h in back <==> h in carried {
      if h in back {
        assert IsHeaderOf(lib, event, order, h);
        BackFromCarried(lib, headers, value, order, h);
      }
      if h in carried {
        var i :| 0 <= i < |carried| && carried[i] == h;
        CarriedComesBack(lib, headers, value, order, i);
      }
    }
    SameWhenDistinct(back, carried);
  }

  lemma BackFromCarried(lib: Codec, headers: seq<Header>, value: seq<Byte>, order: seq<string>, h: BinaryHeader)
    requires Lawful(lib) && Attributes(lib, headers).Ok? && NoReserved(Carried(headers))
    requires IsHeaderOf(lib, Structured(lib, headers, value).value, order, h)
    ensures h in Carried(headers)
  {
    var a, carried := Attribute(h.0).value, Carried(headers);
    EventAt(lib, headers, value, a);
    var i := Last(carried, a).value;
    NamesRoundTrip(carried[i].0);
    assert carried[i] == h;
  }

  lemma CarriedComesBack(lib: Codec, headers: seq<Header>, value: seq<Byte>, order: seq<string>, i: nat)
    requires Lawful(lib) && Attributes(lib, headers).Ok?
    requires DistinctNames(Carried(headers)) && NoReserved(Carried(headers)) && i < |Carried(headers)|
    requires Lists(order, Structured(lib, headers, value).value)
    ensures var event, h := Structured(lib, headers, value).value, Carried(headers)[i];
      && Attribute(h.0).Some? && Attribute(h.0).value in order && Written(Attribute(h.0).value)
      && event[Attribute(h.0).value].Str?
      && h == (HeaderKey(Attribute(h.0).value), lib.toBytes(event[Attribute(h.0).value].s))
  {
    var h := Carried(headers)[i];
    OnlySource(headers, i);
    NamesRoundTrip(h.0);
    EventAt(lib, headers, value, Attribute(h.0).value);
  }

  lemma Provided(lib: Codec, headers: seq<Header>, value: seq<Byte>, a: string)
    requires Lawful(lib) && Attributes(lib, headers).Ok? && Written(a) && a != DATA_CONTENT_TYPE
    requires DistinctNames(Carried(headers)) && NoReserved(Carried(headers)) && Provides(Carried(headers), a)
    ensures HasText(Structured(lib, headers, value).value, a)
  {
    var carried := Carried(headers);
    var i :| 0 <= i < |carried| && carried[i].0 == "ce_" + a && carried[i].1 != [];
    NeverReserved(a);
    OnlySource(headers, i);
    EventAt(lib, headers, value, a);
  }

  lemma RequiredArePlain(k: nat)
    requires k < |REQUIRED_ATTRIBUTES|
    ensures Written(REQUIRED_ATTRIBUTES[k]) && REQUIRED_ATTRIBUTES[k] != DATA_CONTENT_TYPE
  {
    assert |REQUIRED_ATTRIBUTES[0]| == 2 && |REQUIRED_ATTRIBUTES[1]| == 6;
    assert REQUIRED_ATTRIBUTES[2][0] == 't' && REQUIRED_ATTRIBUTES[3][0] == 's';
  }

  lemma StructuredIsValid(lib: Codec, headers: seq<Header>, value: seq<Byte>)
    requires Lawful(lib) && Attributes(lib, headers).Ok?
    requires DistinctNames(Carried(headers)) && NoReserved(Carried(headers))
    requires ValidateBinary(lib, Carried(headers)).Ok?
    ensures ValidateStructured(Object(Structured(lib, headers, value).value)).Ok?
  {
    var event, carried := Structured(lib, headers, value).value, Carried(headers);
    UnreservedHasNoData(lib, headers);
    forall k | 0 <= k < |REQUIRED_ATTRIBUTES| ensures HasText(event, REQUIRED_ATTRIBUTES[k]) {
      RequiredArePlain(k);
      assert Provides(carried, REQUIRED_ATTRIBUTES[k]);
      Provided(lib, headers, value, REQUIRED_ATTRIBUTES[k]);
    }
    VersionSurvives(lib, headers, value);
  }

  lemma VersionSurvives(lib: Codec, headers: seq<Header>, value: seq<Byte>)
    requires Lawful(lib) && Attributes(lib, headers).Ok?
    requires DistinctNames(Carried(headers)) && NoReserved(Carried(headers))
    requires FirstValue(Carried(headers), "ce_specversion") == Some(SPEC_VERSION)
    ensures var event := Structured(lib, headers, value).value; "specversion" in event && event["specversion"] == Str("1.0")
  {
    var carried := Carried(headers);
    var i :| 0 <= i < |carried| && carried[i] == ("ce_specversion", SPEC_VERSION);
    assert "ce_specversion"[..3] == "ce_" && "ce_specversion"[3..] == "specversion";
    OnlySource(headers, i);
    EventAt(lib, headers, value, "specversion");
    assert lib.fromUtf8(SPEC_VERSION) == lib.fromUtf8(lib.toBytes("1.0"));
  }

  /** Data comes back byte for byte, or, when it was carried as JSON, as the same JSON value. */
  lemma DataSurvives(lib: Codec, headers: seq<Header>, value: seq<Byte>)
    requires Lawful(lib) && Attributes(lib, headers).Ok? && NoReserved(Carried(headers))
    ensures var data := DataOf(lib, Structured(lib, headers, value).value);
      && data.Ok?
      && if JsonData(lib, Attributes(lib, headers).value, value).Some? then lib.fromJson(data.value) == lib.fromJson(value)
         else data.value == value
  {
    UnreservedHasNoData(lib, headers);
  }

  ghost predicate RoundTrips(lib: Codec, headers: seq<Header>, value: seq<Byte>, order: seq<string>)
    requires Structured(lib, headers, value).Ok? && Lists(order, Structured(lib, headers, value).value)
  {
    var back := BinaryOf(lib, Object(Structured(lib, headers, value).value), order);
    back.Ok? && SameHeaders(back.value.0, Carried(headers))
  }

  lemma ReservedIsLost(lib: Codec, headers: seq<Header>, value: seq<Byte>, order: seq<string>, i: nat)
    requires Structured(lib, headers, value).Ok? && Lists(order, Structured(lib, headers, value).value)
    requires i < |Carried(headers)| && Reserved(Carried(headers)[i].0)
    ensures !RoundTrips(lib, headers, value, order)
  {
    var event := Structured(lib, headers, value).value;
    var back := HeadersOf(lib, event, order);
    if back.Ok? && SameHeaders(back.value, Carried(headers)) {
      assert Carried(headers)[i] in multiset(Carried(headers));
      NoHeaderIsReserved(lib, event, order, Carried(headers)[i]);
    }
  }

  lemma {:induction false} NoHeaderIsReserved(lib: Codec, event: Event, order: seq<string>, h: BinaryHeader)
    requires (forall a | a in order :: a in event) && HeadersOf(lib, event, order).Ok? && h in HeadersOf(lib, event, order).value
    ensures !Reserved(h.0)
    decreases |order|
  {
    var n := |order| - 1;
    var before := HeadersOf(lib, event, order[..n]).value;
    if h in before {
      NoHeaderIsReserved(lib, event, order[..n], h);
    } else {
      NeverReserved(order[n]);
    }
  }

  /** Structured mode has one attribute of each name, so a repeated header is lost. */
  lemma RepeatedIsLost(lib: Codec, headers: seq<Header>, value: seq<Byte>, order: seq<string>)
    requires Structured(lib, headers, value).Ok? && Lists(order, Structured(lib, headers, value).value)
    requires RoundTrips(lib, headers, value, order)
    ensures DistinctNames(Carried(headers))
  {
    var event := Structured(lib, headers, value).value;
    HeadersAreDistinct(lib, event, order);
    DistinctStaysDistinct(HeadersOf(lib, event, order).value, Carried(headers));
  }

  /**
   A valid binary event comes back from structured mode with the same headers exactly when no
   two of its headers have the same name and none has a reserved one; and then its data comes
   back too, byte for byte or as the same JSON value.
   */
  lemma ModesRoundTrip(lib: Codec, headers: seq<Header>, value: seq<Byte>, order: seq<string>)
    requires Lawful(lib) && Structured(lib, headers, value).Ok? && Lists(order, Structured(lib, headers, value).value)
    requires ValidateBinary(lib, Carried(headers)).Ok?
    ensures RoundTrips(lib, headers, value, order) <==> DistinctNames(Carried(headers)) && NoReserved(Carried(headers))
    ensures RoundTrips(lib, headers, value, order) ==>
      var data := BinaryOf(lib, Object(Structured(lib, headers, value).value), order).value.1;
      if JsonData(lib, Attributes(lib, headers).value, value).Some? then lib.fromJson(data) == lib.fromJson(value)
      else data == value
  {
    hide SameHeaders, ValidateStructured, HeadersOf, DataOf, Carried, Attributes, WithData, JsonData;
    if !NoReserved(Carried(headers)) {
      var i :| 0 <= i < |Carried(headers)| && Reserved(Carried(headers)[i].0);
      ReservedIsLost(lib, headers, value, order, i);
    } else if !DistinctNames(Carried(headers)) {
      if RoundTrips(lib, headers, value, order) { RepeatedIsLost(lib, headers, value, order); }
    } else {
      StructuredIsValid(lib, headers, value);
      HeadersSurvive(lib, headers, value, order);
      DataSurvives(lib, headers, value);
    }
  }

  // ---------- when data is carried as JSON ----------

  /** `application/json`, or any type with the suffix `+json`, in any case. */
  predicate NamesJson(kind: string) {
    EqIgnoreCase(kind, "application/json") || (|kind| >= 5 && EqIgnoreCase(kind[|kind| - 5..], "+json"))
  }

  /** What stands before the parameters, blanks aside, names JSON. */
  ghost predicate SaysJson(mediaType: string) {
    exists base, parameters, kind ::
      && mediaType == base + parameters && ';' !in base && (parameters == [] || parameters[0] == ';')
      && Trims(base, kind) && NamesJson(kind)
  }

  ghost predicate TextSaysJson(text: Option<string>) { text.Some? && SaysJson(text.value) }

  lemma {:induction false} BaseIsBeforeSemicolon(base: string, parameters: string)
    requires ';' !in base && (parameters == [] || parameters[0] == ';')
    ensures UpToSemicolon(base + parameters) == base
  {
    if base == [] {
      assert base + parameters == parameters;
    } else {
      assert (base + parameters)[1..] == base[1..] + parameters;
      BaseIsBeforeSemicolon(base[1..], parameters);
    }
  }

  lemma {:induction false} SemicolonEndsBase(s: string) returns (parameters: string)
    ensures s == UpToSemicolon(s) + parameters && ';' !in UpToSemicolon(s) && (parameters == [] || parameters[0] == ';')
  {
    if s == [] || s[0] == ';' { parameters := s; } else { parameters := SemicolonEndsBase(s[1..]); }
  }

  lemma LoweredIs(s: string, word: string)
    requires forall i | 0 <= i < |word| :: !('A' <= word[i] <= 'Z')
    ensures Lowered(s) == word <==> EqIgnoreCase(s, word)
  {
    if EqIgnoreCase(s, word) {
      forall i | 0 <= i < |s| ensures Lowered(s)[i] == word[i] { assert Lower(s[i]) == Lower(word[i]); }
    }
  }

  lemma LoweredNamesJson(kind: string)
    ensures NamesJson(kind) <==>
      var base := Lowered(kind); base == "application/json" || (|base| >= 5 && base[|base| - 5..] == "+json")
  {
    LoweredIs(kind, "application/json");
    if |kind| >= 5 {
      LoweredIs(kind[|kind| - 5..], "+json");
      assert Lowered(kind)[|kind| - 5..] == Lowered(kind[|kind| - 5..]);
    }
  }

  /** Which media types count as JSON, whatever their case, blanks and parameters. */
  lemma JsonMediaTypesAre(mediaType: string)
    ensures IsJsonMediaType(mediaType) <==> SaysJson(mediaType)
  {
    hide Trim, Lowered, NamesJson, UpToSemicolon, Trims;
    var parameters := SemicolonEndsBase(mediaType);
    var base := UpToSemicolon(mediaType);
    TrimIsExact(base, Trim(base));
    LoweredNamesJson(Trim(base));
    if b, ps, kind :|
      && mediaType == b + ps && ';' !in b && (ps == [] || ps[0] == ';')
      && Trims(b, kind) && NamesJson(kind) {
      BaseIsBeforeSemicolon(b, ps);
      TrimIsExact(b, kind);
    }
  }

  /**
   A record's value is carried as JSON exactly when its last content-type header says JSON and the
   value parses; otherwise it is carried in base64.
   */
  lemma CarriedAsJsonExactly(lib: Codec, headers: seq<Header>, value: seq<Byte>)
    requires Attributes(lib, headers).Ok? && NoReserved(Carried(headers))
    ensures var event := Structured(lib, headers, value).value; var i := Last(Carried(headers), DATA_CONTENT_TYPE);
      var json := i.Some? && TextSaysJson(lib.fromUtf8(Carried(headers)[i.value].1)) && lib.fromJson(value).Some?;
      && (DATA in event <==> json) && (DATA_BASE64 in event <==> !json)
      && (json ==> event[DATA] == lib.fromJson(value).value)
      && (!json ==> event[DATA_BASE64] == Str(lib.toBase64(value)))
  {
    hide IsJsonMediaType, SaysJson, Attributes, Carried;
    UnreservedHasNoData(lib, headers);
    AttributesSay(lib, headers, DATA_CONTENT_TYPE);
    var event := Attributes(lib, headers).value;
    if DATA_CONTENT_TYPE in event { JsonMediaTypesAre(event[DATA_CONTENT_TYPE].s); }
  }

  // ---------- structured events, exactly ----------

  /** The text a scalar is written as. */
  predicate Writes(v: JsonValue, s: string) {
    v == Str(s) || v == Number(s) || (v == Bool(true) && s == "true") || (v == Bool(false) && s == "false")
  }

  predicate NotScalar(v: JsonValue) { v.Null? || v.Compound? }

  /** The attributes of an event become headers exactly when all are scalar; the first that is not is the error. */
  lemma {:induction false} HeadersFailExactly(lib: Codec, event: Event, order: seq<string>)
    requires forall a | a in order :: a in event
    ensures var r := HeadersOf(lib, event, order);
      && (r.Ok? <==> forall a | a in order && Written(a) :: !NotScalar(event[a]))
      && (r.Err? ==> exists i | 0 <= i < |order| :: IsFirstNotScalar(event, order, i) && r.error == NonScalarAttribute(order[i]))
    decreases |order|
  {
    hide HeaderKey;
    if order != [] {
      var n := |order| - 1;
      var init := order[..n];
      HeadersFailExactly(lib, event, init);
      assert order == init + [order[n]];
      var r := HeadersOf(lib, event, order);
      if HeadersOf(lib, event, init).Err? {
        var i :| 0 <= i < |init| && IsFirstNotScalar(event, init, i) && r.error == NonScalarAttribute(init[i]);
        assert IsFirstNotScalar(event, order, i);
      } else if r.Err? {
        assert IsFirstNotScalar(event, order, n);
      }
    }
  }

  /** The headers are the attributes' own texts, all of them and nothing else. */
  lemma {:induction false} HeadersAreWritten(lib: Codec, event: Event, order: seq<string>)
    requires (forall a | a in order :: a in event) && HeadersOf(lib, event, order).Ok?
    ensures forall a, s | a in order && Written(a) && Writes(event[a], s) ::
      (HeaderKey(a), lib.toBytes(s)) in HeadersOf(lib, event, order).value
    ensures forall h | h in HeadersOf(lib, event, order).value :: IsWritten(lib, event, order, h)
    decreases |order|
  {
    hide HeaderKey;
    if order != [] {
      var n := |order| - 1;
      var init := order[..n];
      HeadersAreWritten(lib, event, init);
      assert order == init + [order[n]];
      forall h | h in HeadersOf(lib, event, order).value ensures IsWritten(lib, event, order, h) {
        if h in HeadersOf(lib, event, init).value { assert IsWritten(lib, event, init, h); } else { LastIsWritten(lib, event, order, h); }
      }
    }
  }

  ghost predicate IsWritten(lib: Codec, event: Event, order: seq<string>, h: BinaryHeader)
    requires forall a | a in order :: a in event
  {
    exists a, s :: a in order && Written(a) && Writes(event[a], s) && h == (HeaderKey(a), lib.toBytes(s))
  }

  lemma LastIsWritten(lib: Codec, event: Event, order: seq<string>, h: BinaryHeader)
    requires (forall a | a in order :: a in event) && order != [] && HeadersOf(lib, event, order).Ok?
    requires var n := |order| - 1; h in HeadersOf(lib, event, order).value && h !in HeadersOf(lib, event, order[..n]).value
    ensures IsWritten(lib, event, order, h)
  {
    var a := order[|order| - 1];
    var v := event[a];
    var s := if v.Str? then v.s else if v.Number? then v.text else if v == Bool(true) then "true" else "false";
    assert a in order && Written(a) && Writes(v, s);
  }

  predicate IsFirstNotScalar(event: Event, order: seq<string>, i: nat)
    requires forall a | a in order :: a in event
  {
    i < |order| && Written(order[i]) && NotScalar(event[order[i]])
    && forall j | 0 <= j < i :: !(Written(order[j]) && NotScalar(event[order[j]]))
  }

  /** What structured validation asks for, and which error it gives first. */
  lemma StructuredValidityIsExact(document: Document)
    ensures var r := ValidateStructured(document);
      if document.NotAnObject? then r == Err(MalformedJson)
      else
        var e := document.event;
        if "data" in e && "data_base64" in e then r == Err(ConflictingData)
        else if !HasText(e, "id") then r == Err(MissingAttribute("id"))
        else if !HasText(e, "source") then r == Err(MissingAttribute("source"))
        else if !HasText(e, "type") then r == Err(MissingAttribute("type"))
        else if !HasText(e, "specversion") then r == Err(MissingAttribute("specversion"))
        else r == if e["specversion"].s == "1.0" then Ok(()) else Err(UnsupportedSpecVersion)
  {
    hide HasText;
    if document.Object? {
      var e := document.event;
      forall k | 0 <= k < 4 ensures FirstMissing(e, k) ==
        if HasText(e, REQUIRED_ATTRIBUTES[k]) then FirstMissing(e, k + 1) else Some(REQUIRED_ATTRIBUTES[k]) {}
      TextOfVersion(e);
    }
  }

  lemma TextOfVersion(e: Event)
    ensures HasText(e, "specversion") ==> "specversion" in e && e["specversion"].Str?
  {
  }

  /** What binary validation asks for: every `ce_` header readable, the four attributes there, version 1.0 first. */
  lemma BinaryValidityIsExact(lib: Codec, headers: seq<BinaryHeader>)
    ensures ValidateBinary(lib, headers).Ok? <==>
      && (forall i | 0 <= i < |headers| :: |headers[i].0| >= 3 && headers[i].0[..3] == "ce_" ==> lib.fromUtf8(headers[i].1).Some?)
      && Provides(headers, "id") && Provides(headers, "source") && Provides(headers, "type") && Provides(headers, "specversion")
      && (exists i | 0 <= i < |headers| :: headers[i] == ("ce_specversion", SPEC_VERSION)
            && forall j | 0 <= j < i :: headers[j].0 != "ce_specversion")
  {
    hide Provides;
    FirstValueIsExact(headers, "ce_specversion", SPEC_VERSION);
    assert (forall k | 0 <= k < |REQUIRED_ATTRIBUTES| :: Provides(headers, REQUIRED_ATTRIBUTES[k])) <==>
      (Provides(headers, REQUIRED_ATTRIBUTES[0]) && Provides(headers, REQUIRED_ATTRIBUTES[1])
       && Provides(headers, REQUIRED_ATTRIBUTES[2]) && Provides(headers, REQUIRED_ATTRIBUTES[3]));
  }

  lemma {:induction false} FirstValueIsExact(headers: seq<BinaryHeader>, key: string, value: seq<Byte>)
    ensures FirstValue(headers, key) == Some(value) <==>
      exists i | 0 <= i < |headers| :: headers[i] == (key, value) && forall j | 0 <= j < i :: headers[j].0 != key
  {
    if headers != [] && headers[0].0 != key {
      FirstValueIsExact(headers[1..], key, value);
      if i :| 0 <= i < |headers| && headers[i] == (key, value) && forall j | 0 <= j < i :: headers[j].0 != key {
        assert headers[1..][i - 1] == (key, value);
        forall j | 0 <= j < i - 1 ensures headers[1..][j].0 != key { assert headers[j + 1].0 != key; }
      }
      if i :| 0 <= i < |headers| - 1 && headers[1..][i] == (key, value) && forall j | 0 <= j < i :: headers[1..][j].0 != key {
        assert headers[i + 1] == (key, value);
        forall j | 0 <= j < i + 1 ensures headers[j].0 != key { if j > 0 { assert headers[1..][j - 1].0 != key; } }
      }
    } else if headers != [] {
      assert headers[0] == (key, headers[0].1);
    }
  }

  /** What a structured event's data comes to: decoded base64, or the JSON written out, or nothing. */
  lemma DataIsExact(lib: Codec, event: Event, bytes: seq<Byte>)
    ensures DataOf(lib, event) == Ok(bytes) <==>
      || ("data_base64" in event && event["data_base64"].Str? && lib.fromBase64(event["data_base64"].s) == Some(bytes))
      || ("data_base64" !in event && "data" in event && bytes == lib.toJson(event["data"]))
      || ("data_base64" !in event && "data" !in event && bytes == [])
    ensures DataOf(lib, event).Err? ==> DataOf(lib, event).error == MalformedBase64
  {
  }

  /** Header `i` is the first with a value that is not UTF-8. */
  predicate IsFirstUnreadable(lib: Codec, headers: seq<Header>, i: nat) {
    && i < |headers| && headers[i].1.Some? && lib.fromUtf8(headers[i].1.value).None?
    && forall j | 0 <= j < i :: headers[j].1.None? || lib.fromUtf8(headers[j].1.value).Some?
  }

  /** A record has a structured form exactly when every header value is UTF-8, attribute or not; the first that is not is the error. */
  lemma {:induction false} UnreadableExactly(lib: Codec, headers: seq<Header>, value: seq<Byte>)
    ensures var r := Structured(lib, headers, value);
      && (r.Ok? <==> forall i | 0 <= i < |headers| :: headers[i].1.None? || lib.fromUtf8(headers[i].1.value).Some?)
      && (r.Err? ==> exists i | 0 <= i < |headers| :: IsFirstUnreadable(lib, headers, i) && r.error == NonUtf8Attribute(headers[i].0))
    decreases |headers|
  {
    hide WithData, Attribute;
    if headers != [] {
      var n := |headers| - 1;
      var init := headers[..n];
      UnreadableExactly(lib, init, value);
      assert forall i | 0 <= i < n :: init[i] == headers[i];
      if Attributes(lib, init).Err? {
        var i :| 0 <= i < |init| && IsFirstUnreadable(lib, init, i) && Attributes(lib, init).error == NonUtf8Attribute(init[i].0);
        assert IsFirstUnreadable(lib, headers, i);
      } else if Attributes(lib, headers).Err? {
        assert IsFirstUnreadable(lib, headers, n);
      }
    }
  }

  /** A structured event has a binary form exactly when it is valid, its attributes are scalar and its data decodes. */
  lemma BinaryIsExact(lib: Codec, document: Document, order: seq<string>, headers: seq<BinaryHeader>, data: seq<Byte>)
    requires document.Object? ==> Lists(order, document.event)
    ensures BinaryOf(lib, document, order) == Ok((headers, data)) <==>
      && document.Object? && ValidateStructured(document).Ok?
      && HeadersOf(lib, document.event, order) == Ok(headers) && DataOf(lib, document.event) == Ok(data)
  {
    hide ValidateStructured, HeadersOf, DataOf;
    StructuredValidityIsExact(document);
  }
}
