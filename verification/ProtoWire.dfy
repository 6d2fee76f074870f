/** The Protocol Buffers wire format as the hand-written reader sees it
    (`ProtoReader`), and an encoder for it. */
module ProtoWire {
  import opened Octets
  import opened Outcomes

  /** A value read from the front of some bytes, and the bytes after it. */
  datatype Parsed<+T> = Parsed(value: T, rest: Bytes)

  /** One field of a message. The payload of a fixed-width field is shorter than
      its width only at the very end of the message: skipping does not check. */
  datatype WireField =
    | VarintField(number: nat, value: nat)
    | Fixed64Field(number: nat, payload: Bytes)
    | LenField(number: nat, payload: Bytes)
    | Fixed32Field(number: nat, payload: Bytes)

  // ---- reading ---------------------------------------------------------------------

  function ReadVarint(s: Bytes): (r: Result<Parsed<nat>>)
    ensures r.Ok? ==> |r.value.rest| < |s|
  {
    if s == [] then Err("truncated protobuf varint")
    else if s[0] < 128 then Ok(Parsed(s[0], s[1..]))
    else
      var more :- ReadVarint(s[1..]);
      Ok(Parsed(s[0] - 128 + 128 * more.value, more.rest))
  }

  function ReadBytes(s: Bytes): (r: Result<Parsed<Bytes>>)
    ensures r.Ok? ==> |r.value.rest| + |r.value.value| < |s|
  {
    var length :- ReadVarint(s);
    if length.value > |length.rest| then Err("truncated protobuf bytes")
    else Ok(Parsed(length.rest[..length.value], length.rest[length.value..]))
  }

  datatype WireTag = WireTag(field: nat, wire: nat)

  /** `raw >>> 3` keeps the low 32 bits of the number. */
  function TagOf(raw: nat): WireTag {
    WireTag((raw % 0x1_0000_0000) / 8, raw % 8)
  }

  /** Bits beyond the low 32 do not count. */
  lemma TagKeepsLowBits(high: nat, field: nat, wire: nat)
    requires field < 0x2000_0000 && wire < 8
    ensures TagOf(0x1_0000_0000 * high + 8 * field + wire) == WireTag(field, wire)
  {
    var low := 8 * field + wire;
    Low32(high, low);
    Low3(field, wire);
    Low3(0x2000_0000 * high + field, wire);
    assert 8 * (0x2000_0000 * high + field) + wire == 0x1_0000_0000 * high + low;
  }

  lemma Low32(q: nat, r: nat)
    requires r < 0x1_0000_0000
    ensures (0x1_0000_0000 * q + r) % 0x1_0000_0000 == r
  {
  }

  lemma Low3(q: nat, r: nat)
    requires r < 8
    ensures (8 * q + r) / 8 == q && (8 * q + r) % 8 == r
  {
  }

  function Take(s: Bytes, width: nat): Parsed<Bytes> {
    var n := if width <= |s| then width else |s|;
    Parsed(s[..n], s[n..])
  }

  function ReadPayload(tag: WireTag, s: Bytes): (r: Result<Parsed<WireField>>)
    ensures r.Ok? ==> |r.value.rest| + (if r.value.value.VarintField? then 0 else |r.value.value.payload|) <= |s|
    ensures r.Ok? ==> r.value.value.number == tag.field && WireType(r.value.value) == tag.wire
  {
    if tag.wire == 0 then
      var v :- ReadVarint(s); Ok(Parsed(VarintField(tag.field, v.value), v.rest))
    else if tag.wire == 1 then
      var v := Take(s, 8); Ok(Parsed(Fixed64Field(tag.field, v.value), v.rest))
    else if tag.wire == 2 then
      var v :- ReadBytes(s); Ok(Parsed(LenField(tag.field, v.value), v.rest))
    else if tag.wire == 5 then
      var v := Take(s, 4); Ok(Parsed(Fixed32Field(tag.field, v.value), v.rest))
    else Err("unsupported protobuf wire type")
  }

  function ReadField(s: Bytes): (r: Result<Parsed<WireField>>)
    ensures r.Ok? ==> |r.value.rest| + FieldSize(r.value.value) <= |s|
  {
    var raw :- ReadVarint(s);
    ReadPayload(TagOf(raw.value), raw.rest)
  }

  function FieldSize(f: WireField): nat {
    1 + if f.VarintField? then 0 else |f.payload|
  }

  function Weight(fields: seq<WireField>): nat {
    if fields == [] then 0 else FieldSize(fields[0]) + Weight(fields[1..])
  }

  /** A message as the fields that can be read from it, and the error that ended
      the reading, if one did. */
  datatype Scan = Scan(fields: seq<WireField>, error: Option<string>)

  function ScanMessage(s: Bytes): (scan: Scan)
    ensures Weight(scan.fields) <= |s|
    decreases |s|
  {
    if s == [] then Scan([], None)
    else
      match ReadField(s)
      case Err(message) => Scan([], Some(message))
      case Ok(first) =>
        var rest := ScanMessage(first.rest);
        Scan([first.value] + rest.fields, rest.error)
  }

  // ---- the reader --------------------------------------------------------------------

  /** `a` reads to the same value as `b` and leaves the reader where `b` leaves off. */
  ghost predicate Matches<T>(r: Result<T>, rest: Bytes, expected: Result<Parsed<T>>) {
    match expected
    case Err(message) => r == Err(message)
    case Ok(parsed) => r == Ok(parsed.value) && rest == parsed.rest
  }

  class ProtoReader {
    const buffer: Bytes
    var offset: nat

    /** The bytes not read yet; none once a skip has passed the end. */
    ghost function Rest(): Bytes
      reads this
    {
      if offset <= |buffer| then buffer[offset..] else []
    }

    constructor (buffer: Bytes)
      ensures this.buffer == buffer && offset == 0 && Rest() == buffer
    {
      this.buffer := buffer;
      offset := 0;
    }

    method Done() returns (done: bool)
      ensures done <==> Rest() == []
    {
      done := offset >= |buffer|;
    }

    method Varint() returns (r: Result<nat>)
      modifies this
      ensures Matches(r, Rest(), ReadVarint(old(Rest())))
      ensures r.Ok? ==> offset <= |buffer|
    {
      var result: nat := 0;
      var weight: nat := 1;
      ghost var expected := ReadVarint(Rest());
      while offset < |buffer|
        invariant offset >= old(offset)
        invariant offset < |buffer| ==> Continues(expected, ReadVarint(buffer[offset..]), result, weight)
        invariant offset >= |buffer| ==> expected == Err("truncated protobuf varint")
      {
        var byte := buffer[offset];
        VarintTurn(buffer, offset, expected, result, weight);
        offset := offset + 1;
        result := result + (byte as nat) % 128 * weight;
        if byte < 128 {
          return Ok(result);
        }
        weight := weight * 128;
      }
      return Err("truncated protobuf varint");
    }

    method Tag() returns (r: Result<WireTag>)
      modifies this
      ensures match r
              case Err(message) => ReadField(old(Rest())) == Err(message)
              case Ok(tag) => ReadField(old(Rest())) == ReadPayload(tag, Rest()) && |Rest()| < |old(Rest())|
    {
      var raw :- Varint();
      return Ok(TagOf(raw));
    }

    method Bytes() returns (r: Result<Bytes>)
      modifies this
      ensures Matches(r, Rest(), ReadBytes(old(Rest())))
    {
      var length :- Varint();
      var end := offset + length;
      if end > |buffer| {
        return Err("truncated protobuf bytes");
      }
      var value := buffer[offset..end];
      assert value == Rest()[..length] && buffer[end..] == Rest()[length..];
      offset := end;
      return Ok(value);
    }

    /** The eight bytes of a little-endian double. */
    method Fixed64() returns (r: Result<Bytes>)
      modifies this
      ensures if |old(Rest())| >= 8 then r == Ok(old(Rest())[..8]) && Rest() == old(Rest())[8..]
              else r == Err("truncated protobuf fixed64")
    {
      var end := offset + 8;
      if end > |buffer| {
        return Err("truncated protobuf fixed64");
      }
      var value := buffer[offset..end];
      assert value == Rest()[..8] && buffer[end..] == Rest()[8..];
      offset := end;
      return Ok(value);
    }

    method Skip(wire: nat) returns (r: Result<()>)
      modifies this
      ensures forall field ::
                match ReadPayload(WireTag(field, wire), old(Rest()))
                case Err(message) => r == Err(message)
                case Ok(parsed) => r.Ok? && Rest() == parsed.rest
    {
      if wire == 0 {
        var _ :- Varint();
      } else if wire == 1 {
        offset := offset + 8;
      } else if wire == 2 {
        var _ :- Bytes();
      } else if wire == 5 {
        offset := offset + 4;
      } else {
        return Err("unsupported protobuf wire type");
      }
      return Ok(());
    }
  }

  lemma VarintAt(s: Bytes, i: nat)
    requires i < |s|
    ensures var here, next := ReadVarint(s[i..]), ReadVarint(s[i + 1..]);
            && (s[i] < 128 ==> here == Ok(Parsed(s[i], s[i + 1..])))
            && (s[i] >= 128 ==> match next
                                case Err(message) => here == Err(message)
                                case Ok(parsed) => here == Ok(Parsed(s[i] - 128 + 128 * parsed.value, parsed.rest)))
  {
    assert s[i..][0] == s[i] && s[i..][1..] == s[i + 1..];
  }

  /** One turn of the varint loop: the next byte is a digit of the whole. */
  lemma VarintTurn(s: Bytes, i: nat, whole: Result<Parsed<nat>>, result: nat, weight: nat)
    requires i < |s| && Continues(whole, ReadVarint(s[i..]), result, weight)
    ensures s[i] < 128 ==> Matches(Ok(result + s[i] % 128 * weight), s[i + 1..], whole)
    ensures s[i] >= 128 ==> Continues(whole, ReadVarint(s[i + 1..]), result + s[i] % 128 * weight, weight * 128)
  {
    VarintAt(s, i);
    ContinueStep(whole, ReadVarint(s[i..]), ReadVarint(s[i + 1..]), s[i], result, weight);
  }

  /** The digits read so far, with what is still to be read, make up the varint. */
  ghost predicate Continues(whole: Result<Parsed<nat>>, tail: Result<Parsed<nat>>, result: nat, weight: nat) {
    match tail
    case Err(message) => whole == Err(message)
    case Ok(parsed) => whole == Ok(Parsed(result + weight * parsed.value, parsed.rest))
  }

  lemma ContinueStep(whole: Result<Parsed<nat>>, here: Result<Parsed<nat>>, next: Result<Parsed<nat>>,
                     digit: byte, result: nat, weight: nat)
    requires Continues(whole, here, result, weight)
    requires digit < 128 ==> here.Ok? && here.value.value == digit
    requires digit >= 128 ==> match next
                              case Err(message) => here == Err(message)
                              case Ok(parsed) => here == Ok(Parsed(digit - 128 + 128 * parsed.value, parsed.rest))
    ensures digit < 128 ==> whole == Ok(Parsed(result + digit % 128 * weight, here.value.rest))
    ensures digit >= 128 ==> Continues(whole, next, result + digit % 128 * weight, weight * 128)
  {
    if digit < 128 {
      assert digit % 128 * weight == weight * digit;
    } else if next.Ok? {
      var d, v := digit - 128, next.value.value;
      assert digit % 128 == d;
      calc {
        weight * (d + 128 * v);
        weight * d + weight * (128 * v);
        d * weight + weight * 128 * v;
      }
    }
  }

  // ---- writing -----------------------------------------------------------------------

  function EncodeVarint(n: nat): Bytes {
    if n < 128 then [n] else [n % 128 + 128] + EncodeVarint(n / 128)
  }

  function WireType(f: WireField): nat {
    match f
    case VarintField(_, _) => 0
    case Fixed64Field(_, _) => 1
    case LenField(_, _) => 2
    case Fixed32Field(_, _) => 5
  }

  function EncodeField(f: WireField): Bytes {
    EncodeVarint(8 * f.number + WireType(f)) +
    match f
    case VarintField(_, value) => EncodeVarint(value)
    case LenField(_, payload) => EncodeVarint(|payload|) + payload
    case Fixed64Field(_, payload) => payload
    case Fixed32Field(_, payload) => payload
  }

  function EncodeFields(fields: seq<WireField>): Bytes {
    if fields == [] then [] else EncodeField(fields[0]) + EncodeFields(fields[1..])
  }

  /** Below this bound the reader's floating-point sum of a varint is exact. */
  const EXACT_LIMIT := 0x20_0000_0000_0000

  ghost predicate IsEncodable(f: WireField) {
    && 8 * f.number + WireType(f) < 0x1_0000_0000
    && match f
       case VarintField(_, value) => value < EXACT_LIMIT
       case LenField(_, payload) => |payload| < EXACT_LIMIT
       case Fixed64Field(_, payload) => |payload| == 8
       case Fixed32Field(_, payload) => |payload| == 4
  }

  /** The number that base-128 digits stand for, the least significant first. */
  function Base128(digits: Bytes): nat {
    if digits == [] then 0 else digits[0] % 128 + 128 * Base128(digits[1..])
  }

  /** Every digit but the last says that another follows. */
  ghost predicate IsVarint(digits: Bytes) {
    digits != [] && forall i | 0 <= i < |digits| :: digits[i] >= 128 <==> i < |digits| - 1
  }

  /** A varint is read as the number its digits stand for, also if they are more than needed. */
  lemma {:induction false} VarintExact(digits: Bytes, tail: Bytes)
    requires IsVarint(digits)
    ensures ReadVarint(digits + tail) == Ok(Parsed(Base128(digits), tail))
  {
    var s, rest := digits + tail, digits[1..];
    assert s[1..] == rest + tail && s[0] == digits[0];
    if rest == [] {
      assert rest + tail == tail && Base128(rest) == 0;
    } else {
      assert digits[0] >= 128;
      assert forall i | 0 <= i < |rest| :: rest[i] == digits[i + 1];
      VarintExact(rest, tail);
    }
  }

  /** Reading fails exactly when no byte ends the number. */
  lemma {:induction false} VarintTruncated(s: Bytes)
    ensures ReadVarint(s).Err? <==> forall b | b in s :: b >= 128
    ensures ReadVarint(s).Err? ==> ReadVarint(s) == Err("truncated protobuf varint")
  {
    if s != [] {
      assert s[0] in s;
      if s[0] >= 128 {
        VarintTruncated(s[1..]);
        assert s == [s[0]] + s[1..];
        assert forall b | b in s :: b == s[0] || b in s[1..];
        assert forall b | b in s[1..] :: b in s;
      }
    }
  }

  lemma {:induction false} VarintRoundTrip(n: nat, tail: Bytes)
    ensures ReadVarint(EncodeVarint(n) + tail) == Ok(Parsed(n, tail))
  {
    var s := EncodeVarint(n) + tail;
    if n < 128 {
      assert s[1..] == tail;
    } else {
      assert s[1..] == EncodeVarint(n / 128) + tail;
      VarintRoundTrip(n / 128, tail);
    }
  }

  /** Every encodable field is read back, whatever follows it. */
  lemma FieldRoundTrip(f: WireField, tail: Bytes)
    requires IsEncodable(f)
    ensures ReadField(EncodeField(f) + tail) == Ok(Parsed(f, tail))
  {
    var raw := 8 * f.number + WireType(f);
    assert TagOf(raw) == WireTag(f.number, WireType(f));
    match f
    case VarintField(_, value) => VarintFieldRoundTrip(f, raw, tail);
    case LenField(_, payload) => LenFieldRoundTrip(f, raw, tail);
    case Fixed64Field(_, payload) =>
      assert EncodeField(f) + tail == EncodeVarint(raw) + (payload + tail);
      VarintRoundTrip(raw, payload + tail);
    case Fixed32Field(_, payload) =>
      assert EncodeField(f) + tail == EncodeVarint(raw) + (payload + tail);
      VarintRoundTrip(raw, payload + tail);
  }

  lemma VarintFieldRoundTrip(f: WireField, raw: nat, tail: Bytes)
    requires f.VarintField? && raw == 8 * f.number && IsEncodable(f)
    requires TagOf(raw) == WireTag(f.number, 0)
    ensures ReadField(EncodeField(f) + tail) == Ok(Parsed(f, tail))
  {
    var value := EncodeVarint(f.value) + tail;
    assert EncodeField(f) + tail == EncodeVarint(raw) + value;
    VarintRoundTrip(raw, value);
    VarintRoundTrip(f.value, tail);
  }

  lemma LenFieldRoundTrip(f: WireField, raw: nat, tail: Bytes)
    requires f.LenField? && raw == 8 * f.number + 2 && IsEncodable(f)
    requires TagOf(raw) == WireTag(f.number, 2)
    ensures ReadField(EncodeField(f) + tail) == Ok(Parsed(f, tail))
  {
    var payload, length := f.payload, EncodeVarint(|f.payload|);
    assert EncodeField(f) + tail == EncodeVarint(raw) + (length + (payload + tail));
    VarintRoundTrip(raw, length + (payload + tail));
    VarintRoundTrip(|payload|, payload + tail);
    assert (payload + tail)[..|payload|] == payload && (payload + tail)[|payload|..] == tail;
  }

  // ---- well-formed messages ------------------------------------------------------------

  ghost predicate IsWhole(f: WireField) {
    (f.Fixed64Field? ==> |f.payload| == 8) && (f.Fixed32Field? ==> |f.payload| == 4)
  }

  /** The bytes are a sequence of whole fields: every varint ends, every length
      and every fixed-width value lies inside. */
  ghost predicate IsWellFormed(s: Bytes)
    decreases |s|
  {
    s == [] || (ReadField(s).Ok? && IsWhole(ReadField(s).value.value) && IsWellFormed(ReadField(s).value.rest))
  }

  lemma {:induction false} VarintIsLocal(s: Bytes, t: Bytes)
    requires ReadVarint(s).Ok?
    ensures ReadVarint(s + t) == Ok(Parsed(ReadVarint(s).value.value, ReadVarint(s).value.rest + t))
  {
    assert (s + t)[1..] == s[1..] + t;
    if s[0] >= 128 { VarintIsLocal(s[1..], t); }
  }

  lemma BytesAreLocal(u: Bytes, t: Bytes)
    requires ReadBytes(u).Ok?
    ensures ReadBytes(u + t) == Ok(Parsed(ReadBytes(u).value.value, ReadBytes(u).value.rest + t))
  {
    VarintIsLocal(u, t);
    var n, v := ReadVarint(u).value.value, ReadVarint(u).value.rest;
    assert (v + t)[..n] == v[..n] && (v + t)[n..] == v[n..] + t;
  }

  lemma TakeIsLocal(u: Bytes, t: Bytes, width: nat)
    requires width <= |u|
    ensures Take(u + t, width) == Parsed(Take(u, width).value, Take(u, width).rest + t)
  {
    assert (u + t)[..width] == u[..width] && (u + t)[width..] == u[width..] + t;
  }

  lemma FieldIsLocal(s: Bytes, t: Bytes)
    requires ReadField(s).Ok? && IsWhole(ReadField(s).value.value)
    ensures ReadField(s + t) == Ok(Parsed(ReadField(s).value.value, ReadField(s).value.rest + t))
  {
    VarintIsLocal(s, t);
    var tag, u := TagOf(ReadVarint(s).value.value), ReadVarint(s).value.rest;
    if tag.wire == 0 {
      VarintIsLocal(u, t);
    } else if tag.wire == 2 {
      BytesAreLocal(u, t);
    } else {
      TakeIsLocal(u, t, if tag.wire == 1 then 8 else 4);
    }
  }

  /** After a well-formed prefix, a message reads as the prefix's fields followed
      by the fields of the remaining bytes. */
  lemma {:induction false} ScanConcat(s: Bytes, t: Bytes)
    requires IsWellFormed(s)
    ensures ScanMessage(s).error.None?
    ensures ScanMessage(s + t) == Scan(ScanMessage(s).fields + ScanMessage(t).fields, ScanMessage(t).error)
    decreases |s|
  {
    if s == [] {
      assert s + t == t;
    } else {
      var first := ReadField(s).value;
      FieldIsLocal(s, t);
      ScanConcat(first.rest, t);
      assert [first.value] + (ScanMessage(first.rest).fields + ScanMessage(t).fields) ==
             ([first.value] + ScanMessage(first.rest).fields) + ScanMessage(t).fields;
    }
  }

  /** What the encoder writes is well-formed and is read back field by field. */
  lemma {:induction false} MessageRoundTrip(fields: seq<WireField>)
    requires forall f | f in fields :: IsEncodable(f)
    ensures IsWellFormed(EncodeFields(fields))
    ensures ScanMessage(EncodeFields(fields)) == Scan(fields, None)
  {
    if fields != [] {
      FieldRoundTrip(fields[0], EncodeFields(fields[1..]));
      MessageRoundTrip(fields[1..]);
    }
  }
}
