/**
 The C++ SDK's protobuf codec (transport_nghttp2.cc): Base 128 varints, length-delimited
 fields, and the header message built from them.

 `std::uint64_t` arithmetic is modulo 2^64. The shifted groups of a varint have no bits in
 common, so joining them with `|` is addition.
 */
module Protobuf {
  import opened Wrappers
  import opened Records

  const U64: nat := 0x1_0000_0000_0000_0000
  const U32: nat := 0x1_0000_0000

  datatype DecodeError = Truncated | TooLong | TruncatedField | UnsupportedWireType

  type Decoded<T> = Result<(T, seq<Byte>), DecodeError>

  // ---------- varints ----------

  function Pow128(g: nat): (p: nat)
    ensures p > 0
  {
    if g == 0 then 1 else 128 * Pow128(g - 1)
  }

  function VarintBytes(v: nat): (bytes: seq<Byte>)
    ensures bytes != []
  {
    if v >= 128 then [v % 128 + 128] + VarintBytes(v / 128) else [v]
  }

  method AppendVarint(out: seq<Byte>, value: nat) returns (out': seq<Byte>)
    requires value < U64
    ensures out' == out + VarintBytes(value)
  {
    out' := out;
    var v := value;
    while v >= 128
      invariant out' + VarintBytes(v) == out + VarintBytes(value)
    {
      assert out' + ([v % 128 + 128] + VarintBytes(v / 128)) == out' + [v % 128 + 128] + VarintBytes(v / 128);
      out' := out' + [v % 128 + 128];
      v := v / 128;
    }
    out' := out' + [v];
  }

  /** The low seven bits of a byte, shifted into the group `g` of a 64-bit word. */
  function Group(b: Byte, g: nat): nat { b % 128 * Pow128(g) % U64 }

  /** What the groups from `g` on contribute, and what follows them. */
  function VarintFrom(s: seq<Byte>, g: nat): (r: Decoded<nat>)
    requires g <= 10
    ensures r.Ok? ==> |r.value.1| < |s|
    decreases 10 - g
  {
    if g == 10 then Err(TooLong)
    else if s == [] then Err(Truncated)
    else if s[0] < 128 then Ok((Group(s[0], g), s[1..]))
    else Plus(Group(s[0], g), VarintFrom(s[1..], g + 1))
  }

  function Plus(low: nat, r: Decoded<nat>): Decoded<nat> {
    if r.Ok? then Ok((low + r.value.0, r.value.1)) else r
  }

  lemma Pow128Values()
    ensures Pow128(9) == 0x8000_0000_0000_0000 && Pow128(10) > U64
  {
    assert Pow128(3) == 0x20_0000;
    assert Pow128(6) == 0x20_0000 * Pow128(3);
    assert Pow128(9) == 0x20_0000 * Pow128(6);
  }

  lemma Pow128Grows(g: nat, h: nat)
    requires g <= h
    ensures Pow128(g) <= Pow128(h)
  {
  }

  lemma Multiply(a: nat, b: nat, p: nat)
    requires a <= b
    ensures a * p <= b * p
  {
  }

  /** A byte of value `v` in group `g` keeps all its bits. */
  lemma GroupFits(v: nat, g: nat, b: Byte)
    requires v * Pow128(g) < U64 && b % 128 == v % 128
    ensures Group(b, g) == v % 128 * Pow128(g)
  {
    Multiply(v % 128, v, Pow128(g));
  }

  lemma SplitGroup(v: nat, g: nat)
    ensures v % 128 * Pow128(g) + v / 128 * Pow128(g + 1) == v * Pow128(g)
  {
    var p := Pow128(g);
    calc {
      v % 128 * p + v / 128 * (128 * p);
      (v % 128) * p + (v / 128 * 128) * p;
      (v % 128 + v / 128 * 128) * p;
    }
  }

  lemma {:induction false} GroupsRoundTrip(v: nat, g: nat, rest: seq<Byte>)
    requires v * Pow128(g) < U64 && g < 10
    ensures VarintFrom(VarintBytes(v) + rest, g) == Ok((v * Pow128(g), rest))
    decreases v
  {
    var s := VarintBytes(v) + rest;
    if v < 128 {
      assert s[1..] == rest;
      GroupFits(v, g, v);
    } else {
      var b := v % 128 + 128;
      SplitGroup(v, g);
      NextGroupExists(v, g);
      GroupFits(v, g, b);
      GroupsRoundTrip(v / 128, g + 1, rest);
      assert s[0] == b && s[1..] == VarintBytes(v / 128) + rest;
    }
  }

  lemma NextGroupExists(v: nat, g: nat)
    requires v >= 128 && v * Pow128(g) < U64
    ensures g + 1 < 10
  {
    if g + 1 >= 10 {
      Pow128Values();
      Pow128Grows(10, g + 1);
      Multiply(128, v, Pow128(g));
    }
  }

  lemma {:induction false} VarintLength(v: nat, k: nat)
    requires k > 0 && v < Pow128(k)
    ensures |VarintBytes(v)| <= k
  {
    if v >= 128 {
      assert Pow128(1) == 128;
      VarintLength(v / 128, k - 1);
    }
  }

  /** Reading an appended varint gives back every 64-bit value and takes its at most ten bytes. */
  lemma VarintRoundTrip(v: nat, rest: seq<Byte>)
    requires v < U64
    ensures VarintFrom(VarintBytes(v) + rest, 0) == Ok((v, rest))
    ensures 1 <= |VarintBytes(v)| <= 10
  {
    assert v * Pow128(0) == v;
    GroupsRoundTrip(v, 0, rest);
    assert v < Pow128(10) by { Pow128Values(); }
    VarintLength(v, 10);
  }

  /** The reader never makes more than 64 bits, whatever it is given. */
  lemma {:induction false} VarintIsAWord(s: seq<Byte>, g: nat)
    requires g <= 9 && VarintFrom(s, g).Ok?
    ensures VarintFrom(s, g).value.0 + Pow128(g) <= U64
  {
    Pow128Values();
    if g == 9 {
      assert s[0] < 128;
      TopGroup(s[0]);
    } else {
      Pow128Grows(g, 8);
      assert Pow128(9) == 128 * Pow128(8);
      Multiply(s[0] % 128, 127, Pow128(g));
      assert Group(s[0], g) <= 127 * Pow128(g);
      if s[0] >= 128 { VarintIsAWord(s[1..], g + 1); }
    }
  }

  /** Only one bit of the tenth byte is kept. */
  lemma TopGroup(b: Byte)
    ensures Group(b, 9) == b % 2 * 0x8000_0000_0000_0000
  {
    Pow128Values();
    var m := b % 128;
    assert m == m / 2 * 2 + m % 2;
    assert m * 0x8000_0000_0000_0000 == m / 2 * U64 + m % 2 * 0x8000_0000_0000_0000;
  }

  // ---------- fields ----------

  function KeyBytes(field: nat, wireType: nat): seq<Byte> { VarintBytes(field * 8 + wireType) }

  function IntField(field: nat, v: nat): seq<Byte> { KeyBytes(field, 0) + VarintBytes(v) }

  function BytesField(field: nat, bytes: seq<Byte>): seq<Byte> {
    KeyBytes(field, 2) + VarintBytes(|bytes|) + bytes
  }

  method AppendBytes(out: seq<Byte>, field: nat, bytes: seq<Byte>) returns (out': seq<Byte>)
    requires field < U32 && |bytes| < U64
    ensures out' == out + BytesField(field, bytes)
  {
    out' := AppendVarint(out, field * 8 + 2);
    out' := AppendVarint(out', |bytes|);
    out' := out' + bytes;
  }

  function LengthDelimited(s: seq<Byte>): (r: Decoded<seq<Byte>>)
    ensures r.Ok? ==> |r.value.1| < |s|
  {
    var size := VarintFrom(s, 0);
    if size.Err? then Err(size.error)
    else
      var (n, rest) := size.value;
      if |rest| < n then Err(TruncatedField) else Ok((rest[..n], rest[n..]))
  }

  function SkipField(wireType: nat, s: seq<Byte>): (r: Decoded<()>)
    ensures r.Ok? ==> |r.value.1| < |s|
  {
    if wireType == 0 then
      var v := VarintFrom(s, 0);
      if v.Ok? then Ok(((), v.value.1)) else Err(v.error)
    else if wireType == 2 then
      var bytes := LengthDelimited(s);
      if bytes.Ok? then Ok(((), bytes.value.1)) else Err(bytes.error)
    else Err(UnsupportedWireType)
  }

  lemma LengthDelimitedRoundTrip(bytes: seq<Byte>, rest: seq<Byte>)
    requires |bytes| < U64
    ensures LengthDelimited(VarintBytes(|bytes|) + (bytes + rest)) == Ok((bytes, rest))
  {
    VarintRoundTrip(|bytes|, bytes + rest);
    assert (bytes + rest)[..|bytes|] == bytes && (bytes + rest)[|bytes|..] == rest;
  }

  lemma KeyRoundTrip(field: nat, wireType: nat, rest: seq<Byte>)
    requires field < U32 && wireType < 8
    ensures VarintFrom(KeyBytes(field, wireType) + rest, 0) == Ok((field * 8 + wireType, rest))
    ensures (field * 8 + wireType) / 8 % U32 == field && (field * 8 + wireType) % 8 == wireType
  {
    hide VarintFrom, VarintBytes;
    VarintRoundTrip(field * 8 + wireType, rest);
    Packed(field, wireType);
  }

  lemma Packed(field: nat, wireType: nat)
    requires field < U32 && wireType < 8
    ensures (field * 8 + wireType) / 8 % U32 == field && (field * 8 + wireType) % 8 == wireType
  {
  }

  // ---------- headers ----------

  datatype Header = Header(name: seq<Byte>, value: Option<seq<Byte>>)

  function HeaderBytes(h: Header): seq<Byte> {
    BytesField(1, h.name) + if h.value.Some? then BytesField(2, h.value.value) else []
  }

  method EncodeHeader(h: Header) returns (out: seq<Byte>)
    requires |h.name| < U64 && (h.value.Some? ==> |h.value.value| < U64)
    ensures out == HeaderBytes(h)
  {
    out := AppendBytes([], 1, h.name);
    assert [] + BytesField(1, h.name) == BytesField(1, h.name);
    if h.value.Some? {
      out := AppendBytes(out, 2, h.value.value);
    }
  }

  /** One field of a header message applied to the header read so far. */
  function HeaderField(h: Header, s: seq<Byte>): (r: Decoded<Header>)
    ensures r.Ok? ==> |r.value.1| < |s|
  {
    var key := VarintFrom(s, 0);
    if key.Err? then Err(key.error)
    else
      var (k, rest) := key.value;
      var field, wireType := k / 8 % U32, k % 8;
      if (field == 1 || field == 2) && wireType == 2 then
        var bytes := LengthDelimited(rest);
        if bytes.Err? then Err(bytes.error)
        else Ok((if field == 1 then h.(name := bytes.value.0) else h.(value := Some(bytes.value.0)), bytes.value.1))
      else
        var skipped := SkipField(wireType, rest);
        if skipped.Err? then Err(skipped.error) else Ok((h, skipped.value.1))
  }

  function HeaderFrom(h: Header, s: seq<Byte>): Result<Header, DecodeError>
    decreases |s|
  {
    if s == [] then Ok(h)
    else
      var next := HeaderField(h, s);
      if next.Err? then Err(next.error) else HeaderFrom(next.value.0, next.value.1)
  }

  /** `decode_headers`. */
  function Headers(s: seq<Byte>): Result<seq<Header>, DecodeError> {
    var h := HeaderFrom(Header([], None), s);
    if h.Err? then Err(h.error) else Ok(if h.value.name == [] then [] else [h.value])
  }

  lemma BytesFieldReads(h: Header, field: nat, bytes: seq<Byte>, rest: seq<Byte>)
    requires 0 < field < U32 && |bytes| < U64
    ensures var read := if field == 1 then h.(name := bytes) else if field == 2 then h.(value := Some(bytes)) else h;
      HeaderField(h, BytesField(field, bytes) + rest) == Ok((read, rest))
  {
    var tail := VarintBytes(|bytes|) + (bytes + rest);
    assert BytesField(field, bytes) + rest == KeyBytes(field, 2) + tail;
    KeyRoundTrip(field, 2, tail);
    LengthDelimitedRoundTrip(bytes, rest);
  }

  lemma IntFieldReads(h: Header, field: nat, v: nat, rest: seq<Byte>)
    requires 0 < field < U32 && v < U64
    ensures HeaderField(h, IntField(field, v) + rest) == Ok((h, rest))
  {
    var tail := VarintBytes(v) + rest;
    assert IntField(field, v) + rest == KeyBytes(field, 0) + tail;
    KeyRoundTrip(field, 0, tail);
    VarintRoundTrip(v, rest);
  }

  lemma NextField(h: Header, s: seq<Byte>, h': Header, rest: seq<Byte>)
    requires HeaderField(h, s) == Ok((h', rest))
    ensures HeaderFrom(h, s) == HeaderFrom(h', rest)
  {
  }

  /** A header message means the same with any integer field, or a bytes field it does not know, put in front. */
  lemma UnknownFieldsAreSkipped(h: Header, field: nat, v: nat, bytes: seq<Byte>, rest: seq<Byte>)
    requires 0 < field < U32 && v < U64 && |bytes| < U64
    ensures HeaderFrom(h, IntField(field, v) + rest) == HeaderFrom(h, rest)
    ensures field > 2 ==> HeaderFrom(h, BytesField(field, bytes) + rest) == HeaderFrom(h, rest)
  {
    IntFieldReads(h, field, v, rest);
    NextField(h, IntField(field, v) + rest, h, rest);
    if field > 2 {
      BytesFieldReads(h, field, bytes, rest);
      NextField(h, BytesField(field, bytes) + rest, h, rest);
    }
  }

  /** Decoding an encoded header gives it back, its absent and its empty value kept apart. */
  lemma HeaderRoundTrip(h: Header)
    requires |h.name| < U64 && (h.value.Some? ==> |h.value.value| < U64)
    ensures Headers(HeaderBytes(h)) == Ok(if h.name == [] then [] else [h])
  {
    var empty, named := Header([], None), Header(h.name, None);
    var rest := if h.value.Some? then BytesField(2, h.value.value) else [];
    BytesFieldReads(empty, 1, h.name, rest);
    NextField(empty, HeaderBytes(h), named, rest);
    if h.value.Some? {
      BytesFieldReads(named, 2, h.value.value, []);
      assert rest + [] == rest;
      NextField(named, rest, h, []);
    }
  }

  // ---------- the reader ----------

  class FieldReader {
    const bytes: seq<Byte>
    var cursor: nat

    constructor (bytes: seq<Byte>)
      ensures this.bytes == bytes && cursor == 0
    {
      this.bytes := bytes;
      cursor := 0;
    }

    ghost predicate Valid()
      reads this
    {
      cursor <= |bytes|
    }

    ghost function Left(): seq<Byte>
      requires Valid()
      reads this
    {
      bytes[cursor..]
    }

    /** A read that agrees with its specification and, when it succeeds, has moved past what it read. */
    ghost predicate Reached<T>(r: Result<T, DecodeError>, spec: Decoded<T>)
      requires Valid()
      reads this
    {
      if r.Ok? then spec == Ok((r.value, Left())) else spec == Err(r.error)
    }

    method ReadVarint() returns (r: Result<nat, DecodeError>)
      requires Valid()
      modifies this
      ensures Valid() && Reached(r, VarintFrom(old(Left()), 0))
    {
      hide VarintFrom, Pow128;
      var value: nat, weight: nat := 0, 1;
      ghost var goal := VarintFrom(Left(), 0);
      VarintEnds(Left());
      for g := 0 to 10
        invariant Valid() && weight == Pow128(g) && value < Pow128(g)
        invariant goal == Plus(value, VarintFrom(Left(), g))
      {
        VarintStep(Left(), g, value);
        if cursor >= |bytes| {
          return Err(Truncated);
        }
        var byte := bytes[cursor];
        TailOfTail(bytes, cursor, 1);
        cursor := cursor + 1;
        value := value + byte % 128 * weight % U64;
        weight := weight * 128;
        if byte < 128 {
          return Ok(value);
        }
      }
      VarintEnds(Left());
      r := Err(TooLong);
    }

    method ReadLengthDelimited() returns (r: Result<seq<Byte>, DecodeError>)
      requires Valid()
      modifies this
      ensures Valid() && Reached(r, LengthDelimited(old(Left())))
    {
      hide VarintFrom;
      var size := ReadVarint();
      if size.Err? {
        return Err(size.error);
      }
      var n := size.value;
      if |bytes| - cursor < n {
        return Err(TruncatedField);
      }
      var start := cursor;
      TailOfTail(bytes, cursor, n);
      assert Left()[..n] == bytes[start..start + n];
      cursor := cursor + n;
      r := Ok(bytes[start..start + n]);
    }

    method Skip(wireType: nat) returns (r: Result<(), DecodeError>)
      requires Valid()
      modifies this
      ensures Valid() && Reached(r, SkipField(wireType, old(Left())))
    {
      if wireType == 0 {
        var v := ReadVarint();
        r := if v.Ok? then Ok(()) else Err(v.error);
      } else if wireType == 2 {
        var b := ReadLengthDelimited();
        r := if b.Ok? then Ok(()) else Err(b.error);
      } else {
        r := Err(UnsupportedWireType);
      }
    }
  }

  /** One byte of a varint of which `value` has been read. */
  lemma VarintStep(s: seq<Byte>, g: nat, value: nat)
    requires g < 10 && value < Pow128(g)
    ensures s == [] ==> Plus(value, VarintFrom(s, g)) == Err(Truncated)
    ensures s != [] ==>
      && value + Group(s[0], g) < Pow128(g + 1)
      && Plus(value, VarintFrom(s, g)) ==
         if s[0] < 128 then Ok((value + Group(s[0], g), s[1..])) else Plus(value + Group(s[0], g), VarintFrom(s[1..], g + 1))
    ensures Pow128(g + 1) == Pow128(g) * 128
  {
    hide Pow128, Group;
    if s != [] { GroupBelow(value, s[0], g); }
    PowStep(g);
  }

  lemma PowStep(g: nat)
    ensures Pow128(g + 1) == Pow128(g) * 128
  {
  }

  lemma VarintEnds(s: seq<Byte>)
    ensures VarintFrom(s, 10) == Err(TooLong) && Plus(0, VarintFrom(s, 0)) == VarintFrom(s, 0) && Pow128(0) == 1
  {
  }

  lemma GroupBelow(value: nat, byte: Byte, g: nat)
    requires value < Pow128(g) && g < 10
    ensures value + Group(byte, g) < Pow128(g + 1)
  {
    var p := Pow128(g);
    Multiply(byte % 128, 127, p);
    assert byte % 128 * p % U64 <= byte % 128 * p;
  }

  method DecodeHeaders(bytes: seq<Byte>) returns (r: Result<seq<Header>, DecodeError>)
    ensures r == Headers(bytes)
  {
    var reader := new FieldReader(bytes);
    var header := Header([], None);
    while reader.cursor < |reader.bytes|
      invariant reader.Valid() && fresh(reader)
      invariant HeaderFrom(Header([], None), bytes) == HeaderFrom(header, reader.Left())
      decreases |reader.bytes| - reader.cursor
    {
      var next;
      header, next := DecodeHeaderField(reader, header);
      if next.Err? {
        return Err(next.error);
      }
    }
    r := Ok(if header.name != [] then [header] else []);
  }

  method DecodeHeaderField(reader: FieldReader, header: Header) returns (header': Header, r: Result<(), DecodeError>)
    requires reader.Valid()
    modifies reader
    ensures reader.Valid()
    ensures var spec := HeaderField(header, old(reader.Left()));
      if r.Ok? then spec == Ok((header', reader.Left())) else spec == Err(r.error)
  {
    header' := header;
    var key := reader.ReadVarint();
    if key.Err? {
      return header', Err(key.error);
    }
    var field, wireType := key.value / 8 % U32, key.value % 8;
    if field == 1 && wireType == 2 {
      var value := reader.ReadLengthDelimited();
      if value.Err? {
        return header', Err(value.error);
      }
      header' := header'.(name := value.value);
      return header', Ok(());
    }
    if field == 2 && wireType == 2 {
      var value := reader.ReadLengthDelimited();
      if value.Err? {
        return header', Err(value.error);
      }
      header' := header'.(value := Some(value.value));
      return header', Ok(());
    }
    r := reader.Skip(wireType);
  }
}
