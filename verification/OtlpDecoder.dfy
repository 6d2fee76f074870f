/** The hand-written decoders of OTLP trace messages (`decodeAnyValue` to
    `decodeTraceRequest`). Strings are kept as their UTF-8 bytes and doubles as
    their eight bytes. */
module OtlpDecoder {
  import opened Octets
  import opened Outcomes
  import opened ProtoWire

  datatype AnyValue = AnyValue(
    stringValue: Option<Bytes>, boolValue: Option<bool>, intValue: Option<nat>, doubleValue: Option<Bytes>,
    arrayValue: ArraySlot, kvlistValue: ListSlot, bytesValue: Option<Bytes>)

  datatype ArraySlot = NoArray | Elements(values: seq<AnyValue>)

  datatype ListSlot = NoList | Entries(entries: seq<KeyValue>)

  datatype ValueSlot = NoValue | Value(value: AnyValue)

  datatype KeyValue = KeyValue(key: Option<Bytes>, value: ValueSlot)

  datatype Span = Span(parentSpanId: Option<Bytes>, name: Option<Bytes>, attributes: seq<KeyValue>)

  type ScopeSpans = seq<Span>

  type ResourceSpans = seq<ScopeSpans>

  const EMPTY_ANY := AnyValue(None, None, None, None, NoArray, NoList, None)
  const EMPTY_KEY_VALUE := KeyValue(None, NoValue)
  const EMPTY_SPAN := Span(None, None, [])

  // ---- the decoders as functions -------------------------------------------------------

  function Tail(scan: Scan): Scan
    requires scan.fields != []
  {
    Scan(scan.fields[1..], scan.error)
  }

  function Finish<T>(value: T, scan: Scan): Result<T> {
    match scan.error
    case None => Ok(value)
    case Some(message) => Err(message)
  }

  function DecodeAny(message: Bytes): Result<AnyValue>
    decreases |message|, 3
  {
    AnyFrom(EMPTY_ANY, ScanMessage(message))
  }

  function AnyFrom(value: AnyValue, scan: Scan): Result<AnyValue>
    decreases Weight(scan.fields), 2
  {
    if scan.fields == [] then Finish(value, scan)
    else
      var next :- AnyStep(value, scan.fields[0]);
      AnyFrom(next, Tail(scan))
  }

  function AnyStep(value: AnyValue, f: WireField): Result<AnyValue>
    decreases FieldSize(f), 1
  {
    match f
    case LenField(1, s) => Ok(value.(stringValue := Some(s)))
    case VarintField(2, n) => Ok(value.(boolValue := Some(n != 0)))
    case VarintField(3, n) => Ok(value.(intValue := Some(n)))
    case Fixed64Field(4, bits) =>
      if |bits| < 8 then Err("truncated protobuf fixed64") else Ok(value.(doubleValue := Some(bits)))
    case LenField(5, inner) =>
      var values :- DecodeArray(inner); Ok(value.(arrayValue := Elements(values)))
    case LenField(6, inner) =>
      var entries :- DecodeList(inner); Ok(value.(kvlistValue := Entries(entries)))
    case LenField(7, s) => Ok(value.(bytesValue := Some(s)))
    case _ => Ok(value)
  }

  function DecodeArray(message: Bytes): Result<seq<AnyValue>>
    decreases |message|, 3
  {
    ArrayFrom([], ScanMessage(message))
  }

  function ArrayFrom(values: seq<AnyValue>, scan: Scan): Result<seq<AnyValue>>
    decreases Weight(scan.fields), 2
  {
    if scan.fields == [] then Finish(values, scan)
    else
      var next :- ArrayStep(values, scan.fields[0]);
      ArrayFrom(next, Tail(scan))
  }

  function ArrayStep(values: seq<AnyValue>, f: WireField): Result<seq<AnyValue>>
    decreases FieldSize(f), 1
  {
    match f
    case LenField(1, inner) => var v :- DecodeAny(inner); Ok(values + [v])
    case _ => Ok(values)
  }

  function DecodeEntry(message: Bytes): Result<KeyValue>
    decreases |message|, 3
  {
    EntryFrom(EMPTY_KEY_VALUE, ScanMessage(message))
  }

  function EntryFrom(entry: KeyValue, scan: Scan): Result<KeyValue>
    decreases Weight(scan.fields), 2
  {
    if scan.fields == [] then Finish(entry, scan)
    else
      var next :- EntryStep(entry, scan.fields[0]);
      EntryFrom(next, Tail(scan))
  }

  function EntryStep(entry: KeyValue, f: WireField): Result<KeyValue>
    decreases FieldSize(f), 1
  {
    match f
    case LenField(1, s) => Ok(entry.(key := Some(s)))
    case LenField(2, inner) => var v :- DecodeAny(inner); Ok(entry.(value := Value(v)))
    case _ => Ok(entry)
  }

  function DecodeList(message: Bytes): Result<seq<KeyValue>>
    decreases |message|, 3
  {
    ListFrom([], ScanMessage(message))
  }

  function ListFrom(entries: seq<KeyValue>, scan: Scan): Result<seq<KeyValue>>
    decreases Weight(scan.fields), 2
  {
    if scan.fields == [] then Finish(entries, scan)
    else
      var next :- ListStep(entries, scan.fields[0]);
      ListFrom(next, Tail(scan))
  }

  function ListStep(entries: seq<KeyValue>, f: WireField): Result<seq<KeyValue>>
    decreases FieldSize(f), 1
  {
    match f
    case LenField(1, inner) => var e :- DecodeEntry(inner); Ok(entries + [e])
    case _ => Ok(entries)
  }

  /** The fields of a message, handled one after the other. */
  function Fold<T>(step: (T, WireField) -> Result<T>, value: T, scan: Scan): Result<T>
    decreases |scan.fields|
  {
    if scan.fields == [] then Finish(value, scan)
    else
      var next :- step(value, scan.fields[0]);
      Fold(step, next, Tail(scan))
  }

  function SpanStep(span: Span, f: WireField): Result<Span> {
    match f
    case LenField(4, s) => Ok(span.(parentSpanId := Some(s)))
    case LenField(5, s) => Ok(span.(name := Some(s)))
    case LenField(9, inner) => var e :- DecodeEntry(inner); Ok(span.(attributes := span.attributes + [e]))
    case _ => Ok(span)
  }

  function DecodeSpan(message: Bytes): Result<Span> {
    Fold(SpanStep, EMPTY_SPAN, ScanMessage(message))
  }

  /** Field `number` holds an embedded message, whose decoded items are appended. */
  function RepeatedStep<T>(number: nat, decode: Bytes -> Result<seq<T>>): (seq<T>, WireField) -> Result<seq<T>> {
    (items: seq<T>, f: WireField) =>
      if f.LenField? && f.number == number then
        var found :- decode(f.payload);
        Ok(items + found)
      else Ok(items)
  }

  function DecodeRepeated<T>(number: nat, decode: Bytes -> Result<seq<T>>, message: Bytes): Result<seq<T>> {
    Fold(RepeatedStep(number, decode), [], ScanMessage(message))
  }

  /** Decoding the rest `s` of a message after `items` were found. */
  function RepeatedFrom<T>(number: nat, decode: Bytes -> Result<seq<T>>, items: seq<T>, s: Bytes): Result<seq<T>> {
    Fold(RepeatedStep(number, decode), items, ScanMessage(s))
  }

  /** One turn of a decoding loop. */
  lemma RepeatedTurn<T>(number: nat, decode: Bytes -> Result<seq<T>>, items: seq<T>, s: Bytes)
    requires s != []
    ensures match ReadField(s)
            case Err(error) => RepeatedFrom(number, decode, items, s) == Err(error)
            case Ok(field) =>
              if field.value.LenField? && field.value.number == number then
                match decode(field.value.payload)
                case Err(error) => RepeatedFrom(number, decode, items, s) == Err(error)
                case Ok(found) =>
                  RepeatedFrom(number, decode, items, s) == RepeatedFrom(number, decode, items + found, field.rest)
              else
                RepeatedFrom(number, decode, items, s) == RepeatedFrom(number, decode, items, field.rest)
  {
    FoldNext(RepeatedStep(number, decode), items, s);
  }

  /** A decoder of one item, as one of a list. */
  function Single<T>(decode: Bytes -> Result<T>): Bytes -> Result<seq<T>> {
    (message: Bytes) =>
      var item :- decode(message);
      Ok([item])
  }

  lemma SingleOk<T>(decode: Bytes -> Result<T>, message: Bytes, item: T)
    requires decode(message) == Ok(item)
    ensures Single(decode)(message) == Ok([item])
  {
  }

  function DecodeScopeSpans(message: Bytes): Result<ScopeSpans> {
    DecodeRepeated(2, Single(DecodeSpan), message)
  }

  function DecodeResourceSpans(message: Bytes): Result<ResourceSpans> {
    DecodeRepeated(2, Single(DecodeScopeSpans), message)
  }

  function DecodeTrace(message: Bytes): Result<seq<ResourceSpans>> {
    DecodeRepeated(1, Single(DecodeResourceSpans), message)
  }

  lemma {:induction false} ValuesAreFolds(scan: Scan, value: AnyValue, values: seq<AnyValue>, entry: KeyValue,
      entries: seq<KeyValue>)
    ensures AnyFrom(value, scan) == Fold(AnyStep, value, scan)
    ensures ArrayFrom(values, scan) == Fold(ArrayStep, values, scan)
    ensures EntryFrom(entry, scan) == Fold(EntryStep, entry, scan)
    ensures ListFrom(entries, scan) == Fold(ListStep, entries, scan)
    decreases |scan.fields|
  {
    if scan.fields != [] {
      var f := scan.fields[0];
      ValuesAreFolds(Tail(scan),
                     if AnyStep(value, f).Ok? then AnyStep(value, f).value else value,
                     if ArrayStep(values, f).Ok? then ArrayStep(values, f).value else values,
                     if EntryStep(entry, f).Ok? then EntryStep(entry, f).value else entry,
                     if ListStep(entries, f).Ok? then ListStep(entries, f).value else entries);
    }
  }

  lemma DecodersAreFolds(message: Bytes)
    ensures DecodeAny(message) == Fold(AnyStep, EMPTY_ANY, ScanMessage(message))
    ensures DecodeArray(message) == Fold(ArrayStep, [], ScanMessage(message))
    ensures DecodeEntry(message) == Fold(EntryStep, EMPTY_KEY_VALUE, ScanMessage(message))
    ensures DecodeList(message) == Fold(ListStep, [], ScanMessage(message))
  {
    ValuesAreFolds(ScanMessage(message), EMPTY_ANY, [], EMPTY_KEY_VALUE, []);
  }

  /** One turn of a decoding loop. */
  lemma FoldNext<T>(step: (T, WireField) -> Result<T>, value: T, s: Bytes)
    requires s != []
    ensures ReadField(s).Err? ==> Fold(step, value, ScanMessage(s)) == Err(ReadField(s).message)
    ensures ReadField(s).Ok? ==>
              Fold(step, value, ScanMessage(s)) ==
              var next :- step(value, ReadField(s).value.value);
              Fold(step, next, ScanMessage(ReadField(s).value.rest))
  {
    if ReadField(s).Ok? {
      assert Tail(ScanMessage(s)) == ScanMessage(ReadField(s).value.rest);
    }
  }

  // ---- the decoders as they run --------------------------------------------------------

  method DecodeAnyValue(message: Bytes) returns (r: Result<AnyValue>)
    ensures r == DecodeAny(message)
    decreases |message|, 1
  {
    DecodersAreFolds(message);
    var reader := new ProtoReader(message);
    var value := EMPTY_ANY;
    var done := reader.Done();
    while !done
      invariant fresh(reader) && |reader.Rest()| <= |message|
      invariant done <==> reader.Rest() == []
      invariant Fold(AnyStep, value, ScanMessage(reader.Rest())) == DecodeAny(message)
      decreases |reader.Rest()|
    {
      FoldNext(AnyStep, value, reader.Rest());
      value :- ReadAnyField(reader, value);
      done := reader.Done();
    }
    return Ok(value);
  }

  /** One field of an AnyValue: the body of its decoding loop. */
  method ReadAnyField(reader: ProtoReader, before: AnyValue) returns (r: Result<AnyValue>)
    requires reader.Rest() != []
    modifies reader
    ensures match ReadField(old(reader.Rest()))
            case Err(message) => r == Err(message)
            case Ok(field) => r == AnyStep(before, field.value) && (r.Ok? ==> reader.Rest() == field.rest)
    decreases |reader.Rest()|, 0
  {
    ghost var field := ReadField(reader.Rest());
    var tag :- reader.Tag();
    var value := before;
    if tag.field == 1 && tag.wire == 2 {
      var s :- reader.Bytes();
      assert field == Ok(Parsed(LenField(1, s), reader.Rest()));
      value := value.(stringValue := Some(s));
    } else if tag.field == 2 && tag.wire == 0 {
      var n :- reader.Varint();
      assert field == Ok(Parsed(VarintField(2, n), reader.Rest()));
      value := value.(boolValue := Some(n != 0));
    } else if tag.field == 3 && tag.wire == 0 {
      var n :- reader.Varint();
      assert field == Ok(Parsed(VarintField(3, n), reader.Rest()));
      value := value.(intValue := Some(n));
    } else if tag.field == 4 && tag.wire == 1 {
      var bits :- reader.Fixed64();
      assert field == Ok(Parsed(Fixed64Field(4, bits), reader.Rest()));
      value := value.(doubleValue := Some(bits));
    } else if tag.field == 5 && tag.wire == 2 {
      var inner :- reader.Bytes();
      assert field == Ok(Parsed(LenField(5, inner), reader.Rest()));
      var values :- DecodeArrayValue(inner);
      value := value.(arrayValue := Elements(values));
    } else if tag.field == 6 && tag.wire == 2 {
      var inner :- reader.Bytes();
      assert field == Ok(Parsed(LenField(6, inner), reader.Rest()));
      var entries :- DecodeKeyValueList(inner);
      value := value.(kvlistValue := Entries(entries));
    } else if tag.field == 7 && tag.wire == 2 {
      var s :- reader.Bytes();
      assert field == Ok(Parsed(LenField(7, s), reader.Rest()));
      value := value.(bytesValue := Some(s));
    } else {
      var _ :- reader.Skip(tag.wire);
    }
    return Ok(value);
  }

  method DecodeArrayValue(message: Bytes) returns (r: Result<seq<AnyValue>>)
    ensures r == DecodeArray(message)
    decreases |message|, 1
  {
    DecodersAreFolds(message);
    var reader := new ProtoReader(message);
    var values: seq<AnyValue> := [];
    var done := reader.Done();
    while !done
      invariant fresh(reader) && |reader.Rest()| <= |message|
      invariant done <==> reader.Rest() == []
      invariant Fold(ArrayStep, values, ScanMessage(reader.Rest())) == DecodeArray(message)
      decreases |reader.Rest()|
    {
      ghost var before, field := values, ReadField(reader.Rest());
      FoldNext(ArrayStep, values, reader.Rest());
      var tag :- reader.Tag();
      if tag.field == 1 && tag.wire == 2 {
        var inner :- reader.Bytes();
        assert field == Ok(Parsed(LenField(1, inner), reader.Rest()));
        var v :- DecodeAnyValue(inner);
        values := values + [v];
      } else {
        var _ :- reader.Skip(tag.wire);
      }
      assert field.Ok? && reader.Rest() == field.value.rest && ArrayStep(before, field.value.value) == Ok(values);
      done := reader.Done();
    }
    return Ok(values);
  }

  method DecodeKeyValue(message: Bytes) returns (r: Result<KeyValue>)
    ensures r == DecodeEntry(message)
    decreases |message|, 1
  {
    DecodersAreFolds(message);
    var reader := new ProtoReader(message);
    var entry := EMPTY_KEY_VALUE;
    var done := reader.Done();
    while !done
      invariant fresh(reader) && |reader.Rest()| <= |message|
      invariant done <==> reader.Rest() == []
      invariant Fold(EntryStep, entry, ScanMessage(reader.Rest())) == DecodeEntry(message)
      decreases |reader.Rest()|
    {
      ghost var before, field := entry, ReadField(reader.Rest());
      FoldNext(EntryStep, entry, reader.Rest());
      var tag :- reader.Tag();
      if tag.field == 1 && tag.wire == 2 {
        var s :- reader.Bytes();
        assert field == Ok(Parsed(LenField(1, s), reader.Rest()));
        entry := entry.(key := Some(s));
      } else if tag.field == 2 && tag.wire == 2 {
        var inner :- reader.Bytes();
        assert field == Ok(Parsed(LenField(2, inner), reader.Rest()));
        var v :- DecodeAnyValue(inner);
        entry := entry.(value := Value(v));
      } else {
        var _ :- reader.Skip(tag.wire);
      }
      assert field.Ok? && reader.Rest() == field.value.rest && EntryStep(before, field.value.value) == Ok(entry);
      done := reader.Done();
    }
    return Ok(entry);
  }

  method DecodeKeyValueList(message: Bytes) returns (r: Result<seq<KeyValue>>)
    ensures r == DecodeList(message)
    decreases |message|, 1
  {
    DecodersAreFolds(message);
    var reader := new ProtoReader(message);
    var values: seq<KeyValue> := [];
    var done := reader.Done();
    while !done
      invariant fresh(reader) && |reader.Rest()| <= |message|
      invariant done <==> reader.Rest() == []
      invariant Fold(ListStep, values, ScanMessage(reader.Rest())) == DecodeList(message)
      decreases |reader.Rest()|
    {
      ghost var before, field := values, ReadField(reader.Rest());
      FoldNext(ListStep, values, reader.Rest());
      var tag :- reader.Tag();
      if tag.field == 1 && tag.wire == 2 {
        var inner :- reader.Bytes();
        assert field == Ok(Parsed(LenField(1, inner), reader.Rest()));
        var e :- DecodeKeyValue(inner);
        values := values + [e];
      } else {
        var _ :- reader.Skip(tag.wire);
      }
      assert field.Ok? && reader.Rest() == field.value.rest && ListStep(before, field.value.value) == Ok(values);
      done := reader.Done();
    }
    return Ok(values);
  }

  method DecodeSpanMessage(message: Bytes) returns (r: Result<Span>)
    ensures r == DecodeSpan(message)
  {
    var reader := new ProtoReader(message);
    var span := EMPTY_SPAN;
    var done := reader.Done();
    while !done
      invariant fresh(reader)
      invariant done <==> reader.Rest() == []
      invariant Fold(SpanStep, span, ScanMessage(reader.Rest())) == DecodeSpan(message)
      decreases |reader.Rest()|
    {
      ghost var before, field := span, ReadField(reader.Rest());
      FoldNext(SpanStep, span, reader.Rest());
      var tag :- reader.Tag();
      if tag.field == 4 && tag.wire == 2 {
        var s :- reader.Bytes();
        assert field == Ok(Parsed(LenField(4, s), reader.Rest()));
        span := span.(parentSpanId := Some(s));
      } else if tag.field == 5 && tag.wire == 2 {
        var s :- reader.Bytes();
        assert field == Ok(Parsed(LenField(5, s), reader.Rest()));
        span := span.(name := Some(s));
      } else if tag.field == 9 && tag.wire == 2 {
        var inner :- reader.Bytes();
        assert field == Ok(Parsed(LenField(9, inner), reader.Rest()));
        var e :- DecodeKeyValue(inner);
        span := span.(attributes := span.attributes + [e]);
      } else {
        var _ :- reader.Skip(tag.wire);
      }
      assert field.Ok? && reader.Rest() == field.value.rest && SpanStep(before, field.value.value) == Ok(span);
      done := reader.Done();
    }
    return Ok(span);
  }

  method DecodeScopeSpansMessage(message: Bytes) returns (r: Result<ScopeSpans>)
    ensures r == DecodeScopeSpans(message)
  {
    var reader := new ProtoReader(message);
    var spans: ScopeSpans := [];
    var done := reader.Done();
    while !done
      invariant fresh(reader)
      invariant done <==> reader.Rest() == []
      invariant RepeatedFrom(2, Single(DecodeSpan), spans, reader.Rest()) == DecodeScopeSpans(message)
      decreases |reader.Rest()|
    {
      ghost var field := ReadField(reader.Rest());
      RepeatedTurn(2, Single(DecodeSpan), spans, reader.Rest());
      var tag :- reader.Tag();
      if tag.field == 2 && tag.wire == 2 {
        var inner :- reader.Bytes();
        assert field == Ok(Parsed(LenField(2, inner), reader.Rest()));
        var s :- DecodeSpanMessage(inner);
        spans := spans + [s];
      } else {
        var _ :- reader.Skip(tag.wire);
      }
      assert field.Ok? && reader.Rest() == field.value.rest;
      done := reader.Done();
    }
    return Ok(spans);
  }

  method DecodeResourceSpansMessage(message: Bytes) returns (r: Result<ResourceSpans>)
    ensures r == DecodeResourceSpans(message)
  {
    var reader := new ProtoReader(message);
    var scopes: ResourceSpans := [];
    var done := reader.Done();
    while !done
      invariant fresh(reader)
      invariant done <==> reader.Rest() == []
      invariant RepeatedFrom(2, Single(DecodeScopeSpans), scopes, reader.Rest()) == DecodeResourceSpans(message)
      decreases |reader.Rest()|
    {
      ghost var field := ReadField(reader.Rest());
      RepeatedTurn(2, Single(DecodeScopeSpans), scopes, reader.Rest());
      var tag :- reader.Tag();
      if tag.field == 2 && tag.wire == 2 {
        var inner :- reader.Bytes();
        assert field == Ok(Parsed(LenField(2, inner), reader.Rest()));
        var s :- DecodeScopeSpansMessage(inner);
        scopes := scopes + [s];
      } else {
        var _ :- reader.Skip(tag.wire);
      }
      assert field.Ok? && reader.Rest() == field.value.rest;
      done := reader.Done();
    }
    return Ok(scopes);
  }

  method DecodeTraceMessage(message: Bytes) returns (r: Result<seq<ResourceSpans>>)
    ensures r == DecodeTrace(message)
  {
    var reader := new ProtoReader(message);
    var resources: seq<ResourceSpans> := [];
    var done := reader.Done();
    while !done
      invariant fresh(reader)
      invariant done <==> reader.Rest() == []
      invariant RepeatedFrom(1, Single(DecodeResourceSpans), resources, reader.Rest()) == DecodeTrace(message)
      decreases |reader.Rest()|
    {
      ghost var field := ReadField(reader.Rest());
      RepeatedTurn(1, Single(DecodeResourceSpans), resources, reader.Rest());
      var tag :- reader.Tag();
      if tag.field == 1 && tag.wire == 2 {
        var inner :- reader.Bytes();
        assert field == Ok(Parsed(LenField(1, inner), reader.Rest()));
        var s :- DecodeResourceSpansMessage(inner);
        resources := resources + [s];
      } else {
        var _ :- reader.Skip(tag.wire);
      }
      assert field.Ok? && reader.Rest() == field.value.rest;
      done := reader.Done();
    }
    return Ok(resources);
  }

  // ---- concatenated messages -------------------------------------------------------------

  /** The later of two settings of the same field. */
  function Later<T>(a: Option<T>, b: Option<T>): Option<T> {
    if b.Some? then b else a
  }

  function MergeAny(a: AnyValue, b: AnyValue): AnyValue {
    AnyValue(Later(a.stringValue, b.stringValue), Later(a.boolValue, b.boolValue), Later(a.intValue, b.intValue),
             Later(a.doubleValue, b.doubleValue), if b.arrayValue.Elements? then b.arrayValue else a.arrayValue,
             if b.kvlistValue.Entries? then b.kvlistValue else a.kvlistValue, Later(a.bytesValue, b.bytesValue))
  }

  function MergeKeyValue(a: KeyValue, b: KeyValue): KeyValue {
    KeyValue(Later(a.key, b.key), if b.value.Value? then b.value else a.value)
  }

  function MergeSpan(a: Span, b: Span): Span {
    Span(Later(a.parentSpanId, b.parentSpanId), Later(a.name, b.name), a.attributes + b.attributes)
  }

  /** Both decoded, in order, and then merged. */
  function Merged<T>(a: Result<T>, b: Result<T>, merge: (T, T) -> T): Result<T> {
    var x :- a;
    var y :- b;
    Ok(merge(x, y))
  }

  function Append<T>(a: seq<T>, b: seq<T>): seq<T> { a + b }

  /** Handling a field on top of `a` merges into `a` what handling it alone gives. */
  ghost predicate Distributes<T(!new)>(step: (T, WireField) -> Result<T>, empty: T, merge: (T, T) -> T) {
    && (forall a, f :: step(a, f) == Merged(Ok(a), step(empty, f), merge))
    && (forall a :: merge(a, empty) == a)
    && (forall a, b, c :: merge(merge(a, b), c) == merge(a, merge(b, c)))
  }

  lemma {:induction false} FoldMerges<T(!new)>(step: (T, WireField) -> Result<T>, empty: T, merge: (T, T) -> T,
      value: T, scan: Scan)
    requires Distributes(step, empty, merge)
    ensures Fold(step, value, scan) == Merged(Ok(value), Fold(step, empty, scan), merge)
    decreases |scan.fields|
  {
    if scan.fields != [] {
      var f := scan.fields[0];
      assert step(value, f) == Merged(Ok(value), step(empty, f), merge);
      if step(empty, f).Ok? {
        FoldMerges(step, empty, merge, step(value, f).value, Tail(scan));
        FoldMerges(step, empty, merge, step(empty, f).value, Tail(scan));
      }
    }
  }

  lemma {:induction false} FoldConcat<T>(step: (T, WireField) -> Result<T>, value: T, a: seq<WireField>, b: Scan)
    ensures Fold(step, value, Scan(a + b.fields, b.error)) ==
            var mid :- Fold(step, value, Scan(a, None));
            Fold(step, mid, b)
    decreases |a|
  {
    if a == [] {
      assert a + b.fields == b.fields;
    } else {
      assert (a + b.fields)[0] == a[0] && (a + b.fields)[1..] == a[1..] + b.fields;
      if step(value, a[0]).Ok? { FoldConcat(step, step(value, a[0]).value, a[1..], b); }
    }
  }

  lemma DecodeConcat<T(!new)>(step: (T, WireField) -> Result<T>, empty: T, merge: (T, T) -> T, s: Bytes, t: Bytes)
    requires Distributes(step, empty, merge) && IsWellFormed(s)
    ensures Fold(step, empty, ScanMessage(s + t)) ==
            Merged(Fold(step, empty, ScanMessage(s)), Fold(step, empty, ScanMessage(t)), merge)
  {
    ScanConcat(s, t);
    FoldConcat(step, empty, ScanMessage(s).fields, ScanMessage(t));
    var first := Fold(step, empty, ScanMessage(s));
    if first.Ok? { FoldMerges(step, empty, merge, first.value, ScanMessage(t)); }
  }

  lemma AppendLaws<T>()
    ensures forall a: seq<T> :: Append(a, []) == a
    ensures forall a: seq<T>, b: seq<T>, c: seq<T> :: Append(Append(a, b), c) == Append(a, Append(b, c))
  {
    forall a: seq<T>, b: seq<T>, c: seq<T> ensures Append(Append(a, b), c) == Append(a, Append(b, c)) {
      assert a + b + c == a + (b + c);
    }
  }

  lemma AnyDistributes()
    ensures Distributes(AnyStep, EMPTY_ANY, MergeAny)
  {
    forall a, f ensures AnyStep(a, f) == Merged(Ok(a), AnyStep(EMPTY_ANY, f), MergeAny) {
      AnyStepDistributes(a, f);
    }
    forall a, b, c ensures MergeAny(MergeAny(a, b), c) == MergeAny(a, MergeAny(b, c)) {
      MergeAnyAssociates(a, b, c);
    }
  }

  lemma AnyStepDistributes(a: AnyValue, f: WireField)
    ensures AnyStep(a, f) == Merged(Ok(a), AnyStep(EMPTY_ANY, f), MergeAny)
  {
  }

  lemma MergeAnyAssociates(a: AnyValue, b: AnyValue, c: AnyValue)
    ensures MergeAny(MergeAny(a, b), c) == MergeAny(a, MergeAny(b, c))
  {
  }

  lemma EntryDistributes()
    ensures Distributes(EntryStep, EMPTY_KEY_VALUE, MergeKeyValue)
  {
  }

  lemma SpanDistributes()
    ensures Distributes(SpanStep, EMPTY_SPAN, MergeSpan)
  {
    AppendLaws<KeyValue>();
    forall a, f ensures SpanStep(a, f) == Merged(Ok(a), SpanStep(EMPTY_SPAN, f), MergeSpan) {
      if SpanStep(EMPTY_SPAN, f).Ok? {
        assert SpanStep(a, f).value.attributes == a.attributes + SpanStep(EMPTY_SPAN, f).value.attributes;
      }
    }
    forall a, b, c ensures MergeSpan(MergeSpan(a, b), c) == MergeSpan(a, MergeSpan(b, c)) {
      assert Append(Append(a.attributes, b.attributes), c.attributes) ==
             Append(a.attributes, Append(b.attributes, c.attributes));
    }
  }

  lemma ArrayDistributes()
    ensures Distributes(ArrayStep, [], Append<AnyValue>)
  {
    AppendLaws<AnyValue>();
    forall a, f ensures ArrayStep(a, f) == Merged(Ok(a), ArrayStep([], f), Append<AnyValue>) {
      if ArrayStep([], f).Ok? { assert ArrayStep(a, f).value == a + ArrayStep([], f).value; }
    }
  }

  lemma ListDistributes()
    ensures Distributes(ListStep, [], Append<KeyValue>)
  {
    AppendLaws<KeyValue>();
    forall a, f ensures ListStep(a, f) == Merged(Ok(a), ListStep([], f), Append<KeyValue>) {
      if ListStep([], f).Ok? { assert ListStep(a, f).value == a + ListStep([], f).value; }
    }
  }

  lemma RepeatedDistributes<T(!new)>(number: nat, decode: Bytes -> Result<seq<T>>)
    ensures Distributes(RepeatedStep(number, decode), [], Append<T>)
  {
    AppendLaws<T>();
    forall a, f
      ensures RepeatedStep(number, decode)(a, f) == Merged(Ok(a), RepeatedStep(number, decode)([], f), Append<T>)
    {
      RepeatedStepDistributes(number, decode, a, f);
    }
  }

  lemma RepeatedStepDistributes<T>(number: nat, decode: Bytes -> Result<seq<T>>, a: seq<T>, f: WireField)
    ensures RepeatedStep(number, decode)(a, f) == Merged(Ok(a), RepeatedStep(number, decode)([], f), Append<T>)
  {
    if f.LenField? && f.number == number {
      if decode(f.payload).Ok? {
        assert [] + decode(f.payload).value == decode(f.payload).value;
      }
    } else {
      assert Append(a, []) == a;
    }
  }

  lemma RepeatedConcat<T(!new)>(number: nat, decode: Bytes -> Result<seq<T>>, s: Bytes, t: Bytes)
    requires IsWellFormed(s)
    ensures DecodeRepeated(number, decode, s + t)
            == Merged(DecodeRepeated(number, decode, s), DecodeRepeated(number, decode, t), Append<T>)
  {
    RepeatedDistributes(number, decode);
    DecodeConcat(RepeatedStep(number, decode), [], Append<T>, s, t);
  }

  /** Decoding a concatenation after a well-formed prefix: of a singular field the
      later setting wins, and repeated fields are appended. */
  lemma ValuesOfConcatenation(s: Bytes, t: Bytes)
    requires IsWellFormed(s)
    ensures DecodeAny(s + t) == Merged(DecodeAny(s), DecodeAny(t), MergeAny)
    ensures DecodeEntry(s + t) == Merged(DecodeEntry(s), DecodeEntry(t), MergeKeyValue)
    ensures DecodeArray(s + t) == Merged(DecodeArray(s), DecodeArray(t), Append)
    ensures DecodeList(s + t) == Merged(DecodeList(s), DecodeList(t), Append)
  {
    DecodersAreFolds(s);
    DecodersAreFolds(t);
    DecodersAreFolds(s + t);
    AnyDistributes();
    DecodeConcat(AnyStep, EMPTY_ANY, MergeAny, s, t);
    EntryDistributes();
    DecodeConcat(EntryStep, EMPTY_KEY_VALUE, MergeKeyValue, s, t);
    ArrayDistributes();
    DecodeConcat(ArrayStep, [], Append, s, t);
    ListDistributes();
    DecodeConcat(ListStep, [], Append, s, t);
  }

  lemma TraceOfConcatenation(s: Bytes, t: Bytes)
    requires IsWellFormed(s)
    ensures DecodeSpan(s + t) == Merged(DecodeSpan(s), DecodeSpan(t), MergeSpan)
    ensures DecodeScopeSpans(s + t) == Merged(DecodeScopeSpans(s), DecodeScopeSpans(t), Append)
    ensures DecodeResourceSpans(s + t) == Merged(DecodeResourceSpans(s), DecodeResourceSpans(t), Append)
    ensures DecodeTrace(s + t) == Merged(DecodeTrace(s), DecodeTrace(t), Append)
  {
    SpanDistributes();
    DecodeConcat(SpanStep, EMPTY_SPAN, MergeSpan, s, t);
    RepeatedConcat(2, Single(DecodeSpan), s, t);
    RepeatedConcat(2, Single(DecodeScopeSpans), s, t);
    RepeatedConcat(1, Single(DecodeResourceSpans), s, t);
  }
}
