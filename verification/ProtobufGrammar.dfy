/** The bytes the C++ SDK's protobuf reader accepts as a header message, and what they mean (transport_nghttp2.cc). */
module ProtobufGrammar {
  import opened Wrappers
  import opened Records
  import opened Protobuf

  // ---------- varints in any encoding ----------

  /** Base 128, the low digit first. */
  function Digits(bytes: seq<Byte>): nat {
    if bytes == [] then 0 else bytes[0] % 128 + 128 * Digits(bytes[1..])
  }

  /** Up to ten bytes, all but the last marked as going on; not only the shortest form. */
  predicate IsVarint(bytes: seq<Byte>) {
    && 1 <= |bytes| <= 10 && bytes[|bytes| - 1] < 128
    && forall i | 0 <= i < |bytes| - 1 :: bytes[i] >= 128
  }

  /** What 64 bits keep of a varint. */
  function Word(bytes: seq<Byte>): nat { Digits(bytes) % U64 }

  /** Every byte of the ten a varint may have goes on. */
  predicate GoesOn(s: seq<Byte>, n: nat) { n <= |s| && forall i | 0 <= i < n :: s[i] >= 128 }

  lemma Shifted(b: nat, d: nat, p: nat, k: nat, low: nat, rest: nat)
    requires low == b * p % U64 && rest + k * U64 == d * (128 * p)
    ensures low + rest + (k + b * p / U64) * U64 == (b + 128 * d) * p
  {
    assert b * p == b * p / U64 * U64 + low;
    assert d * (128 * p) == (128 * d) * p;
    assert (b + 128 * d) * p == b * p + (128 * d) * p;
    assert (k + b * p / U64) * U64 == k * U64 + b * p / U64 * U64;
  }

  /** The bytes a varint was read from, and how far its value is from theirs. */
  lemma {:induction false} VarintOf(s: seq<Byte>, g: nat) returns (n: nat, k: nat)
    requires g < 10 && VarintFrom(s, g).Ok?
    ensures 1 <= n <= 10 - g && n <= |s| && s[n - 1] < 128 && (forall i | 0 <= i < n - 1 :: s[i] >= 128)
    ensures VarintFrom(s, g).value.1 == s[n..]
    ensures VarintFrom(s, g).value.0 + k * U64 == Digits(s[..n]) * Pow128(g)
    decreases 10 - g
  {
    hide Pow128;
    PowStep(g);
    if s[0] < 128 {
      n, k := 1, s[0] % 128 * Pow128(g) / U64;
      assert s[..1] == [s[0]] && Digits([s[0]]) == s[0] % 128 + 128 * Digits([]);
      Shifted(s[0] % 128, 0, Pow128(g), 0, Group(s[0], g), 0);
    } else {
      var m, j := VarintOf(s[1..], g + 1);
      n, k := m + 1, j + s[0] % 128 * Pow128(g) / U64;
      assert s[..n][1..] == s[1..][..m] && s[1..][m..] == s[n..];
      Shifted(s[0] % 128, Digits(s[1..][..m]), Pow128(g), j, Group(s[0], g), VarintFrom(s[1..], g + 1).value.0);
    }
  }

  lemma Remainder(v: nat, k: nat, x: nat)
    requires v < U64 && v + k * U64 == x
    ensures x % U64 == v
  {
  }

  /** Any encoding of a varint is read, whatever follows, as the 64 bits it keeps. */
  lemma {:induction false} VarintReads(bytes: seq<Byte>, rest: seq<Byte>, g: nat)
    requires g < 10 && 1 <= |bytes| <= 10 - g && bytes[|bytes| - 1] < 128 && forall i | 0 <= i < |bytes| - 1 :: bytes[i] >= 128
    ensures VarintFrom(bytes + rest, g).Ok? && VarintFrom(bytes + rest, g).value.1 == rest
    decreases |bytes|
  {
    var s := bytes + rest;
    assert s[0] == bytes[0] && s[1..] == bytes[1..] + rest;
    if |bytes| > 1 {
      VarintReads(bytes[1..], rest, g + 1);
    } else {
      assert bytes[1..] + rest == rest;
    }
  }

  /** A varint is read as `v`, with `rest` left, exactly when its bytes come first and keep `v`. */
  lemma VarintIsExact(s: seq<Byte>, v: nat, rest: seq<Byte>)
    ensures VarintFrom(s, 0) == Ok((v, rest)) <==> exists bytes :: IsVarint(bytes) && s == bytes + rest && v == Word(bytes)
  {
    hide VarintFrom, Digits;
    if VarintFrom(s, 0) == Ok((v, rest)) {
      var bytes := VarintBytesOf(s);
      assert IsVarint(bytes) && s == bytes + rest && v == Word(bytes);
    }
    if bytes :| IsVarint(bytes) && s == bytes + rest && v == Word(bytes) { VarintIsRead(bytes, rest); }
  }

  lemma VarintBytesOf(s: seq<Byte>) returns (bytes: seq<Byte>)
    requires VarintFrom(s, 0).Ok?
    ensures IsVarint(bytes) && s == bytes + VarintFrom(s, 0).value.1 && VarintFrom(s, 0).value.0 == Word(bytes)
  {
    hide VarintFrom, Digits;
    var n, k := VarintOf(s, 0);
    bytes := s[..n];
    VarintEnds(s);
    VarintIsAWord(s, 0);
    Remainder(VarintFrom(s, 0).value.0, k, Digits(bytes));
  }

  lemma VarintIsRead(bytes: seq<Byte>, rest: seq<Byte>)
    requires IsVarint(bytes)
    ensures VarintFrom(bytes + rest, 0) == Ok((Word(bytes), rest))
  {
    hide VarintFrom, Digits;
    VarintReads(bytes, rest, 0);
    var found := VarintBytesOf(bytes + rest);
    assert |found| == |bytes| && found == (bytes + rest)[..|found|] == bytes;
  }

  /** Why a varint is not read: the bytes run out, or ten of them go on. */
  lemma {:induction false} VarintFailsExactly(s: seq<Byte>, g: nat)
    requires g <= 10
    ensures VarintFrom(s, g) == Err(Truncated) <==> |s| < 10 - g && GoesOn(s, |s|)
    ensures VarintFrom(s, g) == Err(TooLong) <==> GoesOn(s, 10 - g)
    ensures VarintFrom(s, g).Err? ==> VarintFrom(s, g).error in {Truncated, TooLong}
    decreases 10 - g
  {
    hide Group;
    if g < 10 && s != [] && s[0] >= 128 {
      VarintFailsExactly(s[1..], g + 1);
      forall n: nat | n < |s| ensures GoesOn(s, n + 1) <==> GoesOn(s[1..], n) { GoesOnMore(s, n); }
      assert |s| < 10 - g || !GoesOn(s[1..], 9 - g) || GoesOn(s, 10 - g);
    }
  }

  lemma GoesOnMore(s: seq<Byte>, n: nat)
    requires n < |s| && s[0] >= 128
    ensures GoesOn(s, n + 1) <==> GoesOn(s[1..], n)
  {
    if GoesOn(s[1..], n) {
      forall i | 0 <= i < n + 1 ensures s[i] >= 128 { if i > 0 { assert s[1..][i - 1] >= 128; } }
    }
  }

  // ---------- header messages ----------

  /** A field as it is written: its key, and a varint or a length with so many bytes. */
  datatype Field = IntField(key: seq<Byte>, value: seq<Byte>) | BytesField(key: seq<Byte>, length: seq<Byte>, bytes: seq<Byte>)

  function TextOf(f: Field): seq<Byte> {
    match f
    case IntField(key, value) => key + value
    case BytesField(key, length, bytes) => key + (length + bytes)
  }

  /** The low three bits of the key say which of the two it is. */
  predicate Legal(f: Field) {
    && IsVarint(f.key)
    && match f
       case IntField(key, value) => Word(key) % 8 == 0 && IsVarint(value)
       case BytesField(key, length, bytes) => Word(key) % 8 == 2 && IsVarint(length) && Word(length) == |bytes|
  }

  /** The 32 bits above them say which field it is. */
  function NumberOf(f: Field): nat { Word(f.key) / 8 % 0x1_0000_0000 }

  function Applied(h: Header, f: Field): Header {
    if f.BytesField? && NumberOf(f) == 1 then h.(name := f.bytes)
    else if f.BytesField? && NumberOf(f) == 2 then h.(value := Some(f.bytes))
    else h
  }

  function Joined(fields: seq<Field>): seq<Byte> {
    if fields == [] then [] else TextOf(fields[0]) + Joined(fields[1..])
  }

  function AllApplied(h: Header, fields: seq<Field>): Header
    decreases |fields|
  {
    if fields == [] then h else AllApplied(Applied(h, fields[0]), fields[1..])
  }

  predicate AllLegal(fields: seq<Field>) { forall i | 0 <= i < |fields| :: Legal(fields[i]) }

  lemma LengthIsRead(length: seq<Byte>, bytes: seq<Byte>, rest: seq<Byte>)
    requires IsVarint(length) && Word(length) == |bytes|
    ensures LengthDelimited((length + bytes) + rest) == Ok((bytes, rest))
  {
    hide VarintFrom, IsVarint, Word;
    assert (length + bytes) + rest == length + (bytes + rest);
    VarintIsRead(length, bytes + rest);
    assert (bytes + rest)[..|bytes|] == bytes && (bytes + rest)[|bytes|..] == rest;
  }

  lemma FieldIsRead(h: Header, f: Field, rest: seq<Byte>)
    requires Legal(f)
    ensures HeaderField(h, TextOf(f) + rest) == Ok((Applied(h, f), rest))
  {
    hide VarintFrom, IsVarint, Word, LengthDelimited;
    match f
    case IntField(key, value) =>
      assert TextOf(f) + rest == key + (value + rest);
      VarintIsRead(key, value + rest);
      VarintIsRead(value, rest);
    case BytesField(key, length, bytes) =>
      assert TextOf(f) + rest == key + ((length + bytes) + rest);
      VarintIsRead(key, (length + bytes) + rest);
      LengthIsRead(length, bytes, rest);
  }

  lemma {:induction false} FieldsAreRead(h: Header, fields: seq<Field>)
    requires AllLegal(fields)
    ensures HeaderFrom(h, Joined(fields)) == Ok(AllApplied(h, fields))
    decreases |fields|
  {
    hide HeaderField, Legal, TextOf, Applied;
    if fields != [] {
      FieldIsRead(h, fields[0], Joined(fields[1..]));
      NotEmpty(fields[0]);
      FieldsAreRead(Applied(h, fields[0]), fields[1..]);
    }
  }

  lemma NotEmpty(f: Field)
    requires Legal(f)
    ensures TextOf(f) != []
  {
  }

  lemma BytesAre(s: seq<Byte>) returns (length: seq<Byte>)
    requires LengthDelimited(s).Ok?
    ensures var (bytes, rest) := LengthDelimited(s).value;
      IsVarint(length) && Word(length) == |bytes| && s == length + bytes + rest
  {
    hide VarintFrom, IsVarint, Word;
    length := VarintBytesOf(s);
    var left := VarintFrom(s, 0).value.1;
    var n := VarintFrom(s, 0).value.0;
    assert left == left[..n] + left[n..];
  }

  lemma FieldOf(h: Header, s: seq<Byte>) returns (f: Field)
    requires HeaderField(h, s).Ok?
    ensures Legal(f) && s == TextOf(f) + HeaderField(h, s).value.1 && HeaderField(h, s).value.0 == Applied(h, f)
  {
    hide VarintFrom, IsVarint, Word, LengthDelimited;
    var key := VarintBytesOf(s);
    var rest := VarintFrom(s, 0).value.1;
    if Word(key) % 8 == 2 {
      var length := BytesAre(rest);
      f := BytesField(key, length, LengthDelimited(rest).value.0);
      assert s == key + (length + f.bytes) + HeaderField(h, s).value.1;
    } else {
      var value := VarintBytesOf(rest);
      f := IntField(key, value);
      assert s == key + value + HeaderField(h, s).value.1;
    }
  }

  lemma {:induction false} FieldsOf(h: Header, s: seq<Byte>) returns (fields: seq<Field>)
    requires HeaderFrom(h, s).Ok?
    ensures AllLegal(fields) && s == Joined(fields) && HeaderFrom(h, s).value == AllApplied(h, fields)
    decreases |s|
  {
    hide HeaderField, Legal, TextOf, Applied;
    if s == [] {
      fields := [];
    } else {
      var first := FieldOf(h, s);
      var (next, rest) := HeaderField(h, s).value;
      var more := FieldsOf(next, rest);
      fields := [first] + more;
      assert fields[1..] == more;
    }
  }

  /**
   What the reader accepts, exactly: bytes are read as these headers if and only if they are legal
   fields one after another, in any encoding of their varints, whose last name and last value, if
   the name is not empty, make up the one header. Every other field is passed over.
   */
  lemma HeadersAreExact(s: seq<Byte>, hs: seq<Header>)
    ensures Headers(s) == Ok(hs) <==>
      exists fields :: AllLegal(fields) && s == Joined(fields)
        && var h := AllApplied(Header([], None), fields); hs == if h.name == [] then [] else [h]
  {
    hide HeaderFrom, Joined, AllApplied, AllLegal;
    var none := Header([], None);
    if Headers(s) == Ok(hs) {
      var fields := FieldsOf(none, s);
      assert AllLegal(fields) && s == Joined(fields) && var h := AllApplied(none, fields); hs == if h.name == [] then [] else [h];
    }
    if fields :| AllLegal(fields) && s == Joined(fields)
                 && var h := AllApplied(none, fields); hs == if h.name == [] then [] else [h] {
      FieldsAreRead(none, fields);
    }
  }

  /** Why the first field cannot be read, when its key can: another wire type, a bad varint, or too few bytes. */
  lemma FieldFailsExactly(h: Header, key: seq<Byte>, rest: seq<Byte>)
    requires IsVarint(key)
    ensures var r := HeaderField(h, key + rest);
      && (r == Err(UnsupportedWireType) <==> Word(key) % 8 !in {0, 2})
      && (r == Err(TruncatedField) <==> Word(key) % 8 == 2 && exists length, left ::
            IsVarint(length) && rest == length + left && |left| < Word(length))
  {
    hide VarintFrom, IsVarint, Word;
    VarintIsRead(key, rest);
    VarintFailsExactly(rest, 0);
    if VarintFrom(rest, 0).Ok? {
      var length := VarintBytesOf(rest);
      var left := VarintFrom(rest, 0).value.1;
      if |left| < Word(length) { assert IsVarint(length) && rest == length + left && |left| < Word(length); }
    }
    if length, left :| IsVarint(length) && rest == length + left && |left| < Word(length) { VarintIsRead(length, left); }
  }
}
