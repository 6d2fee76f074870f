/**
 * The decoders of OTLP metric and log requests (scripts/qa-otel-smoke.ts): three levels of nested
 * lists, flattened into the names of the metrics or the bodies of the log records.
 */
module OtlpSignals {
  import opened JsText
  import opened Octets
  import opened Outcomes
  import opened ProtoWire
  import opened OtlpDecoder
  import opened OtlpTrace

  // ---- metrics ------------------------------------------------------------------------

  function NameStep(name: Option<Bytes>, f: WireField): Result<Option<Bytes>> {
    if f.LenField? && f.number == 1 then Ok(Some(f.payload)) else Ok(name)
  }

  function DecodeName(message: Bytes): Result<Option<Bytes>> {
    Fold(NameStep, None, ScanMessage(message))
  }

  function NameFrom(name: Option<Bytes>, s: Bytes): Result<Option<Bytes>> {
    Fold(NameStep, name, ScanMessage(s))
  }

  lemma NameTurn(name: Option<Bytes>, s: Bytes)
    requires s != []
    ensures match ReadField(s)
            case Err(error) => NameFrom(name, s) == Err(error)
            case Ok(field) =>
              NameFrom(name, s) ==
              NameFrom(if field.value.LenField? && field.value.number == 1 then Some(field.value.payload) else name,
                       field.rest)
  {
    FoldNext(NameStep, name, s);
  }

  /** A metric with a blank name is dropped. */
  function MetricsNamed(platform: Platform, name: Option<Bytes>): seq<string> {
    var trimmed := Trim(if name.Some? then platform.text(name.value) else "");
    if trimmed == "" then [] else [trimmed]
  }

  function MetricIn(platform: Platform): Bytes -> Result<seq<string>> {
    (message: Bytes) =>
      var name :- DecodeName(message);
      Ok(MetricsNamed(platform, name))
  }

  function AsList<T>(r: Result<Option<T>>): Result<seq<T>> {
    var item :- r;
    Ok(if item.Some? then [item.value] else [])
  }

  function DecodeScopeMetrics(platform: Platform, message: Bytes): Result<seq<string>> {
    DecodeRepeated(2, MetricIn(platform), message)
  }

  function ScopeMetricsIn(platform: Platform): Bytes -> Result<seq<string>> {
    (message: Bytes) => DecodeScopeMetrics(platform, message)
  }

  function DecodeResourceMetrics(platform: Platform, message: Bytes): Result<seq<string>> {
    DecodeRepeated(2, ScopeMetricsIn(platform), message)
  }

  function ResourceMetricsIn(platform: Platform): Bytes -> Result<seq<string>> {
    (message: Bytes) => DecodeResourceMetrics(platform, message)
  }

  function DecodeMetrics(platform: Platform, message: Bytes): Result<seq<string>> {
    DecodeRepeated(1, ResourceMetricsIn(platform), message)
  }

  // ---- logs ---------------------------------------------------------------------------

  function BodyStep(platform: Platform): (Normalized, WireField) -> Result<Normalized> {
    (body: Normalized, f: WireField) =>
      if f.LenField? && f.number == 5 then
        var value :- DecodeAny(f.payload);
        Ok(NormalizeOtlpValue(platform, value))
      else Ok(body)
  }

  function DecodeLog(platform: Platform, message: Bytes): Result<Normalized> {
    Fold(BodyStep(platform), Text(""), ScanMessage(message))
  }

  function LogIn(platform: Platform): Bytes -> Result<seq<Normalized>> {
    (message: Bytes) =>
      var body :- DecodeLog(platform, message);
      Ok([body])
  }

  function DecodeScopeLogs(platform: Platform, message: Bytes): Result<seq<Normalized>> {
    DecodeRepeated(2, LogIn(platform), message)
  }

  function ScopeLogsIn(platform: Platform): Bytes -> Result<seq<Normalized>> {
    (message: Bytes) => DecodeScopeLogs(platform, message)
  }

  function DecodeResourceLogs(platform: Platform, message: Bytes): Result<seq<Normalized>> {
    DecodeRepeated(2, ScopeLogsIn(platform), message)
  }

  function ResourceLogsIn(platform: Platform): Bytes -> Result<seq<Normalized>> {
    (message: Bytes) => DecodeResourceLogs(platform, message)
  }

  function DecodeLogs(platform: Platform, message: Bytes): Result<seq<Normalized>> {
    DecodeRepeated(1, ResourceLogsIn(platform), message)
  }

  // ---- the decoders as they run -------------------------------------------------------

  method DecodeMetricMessage(platform: Platform, message: Bytes) returns (r: Result<Option<string>>)
    ensures AsList(r) == MetricIn(platform)(message)
  {
    var reader := new ProtoReader(message);
    var name := "";
    ghost var raw: Option<Bytes> := None;
    var done := reader.Done();
    while !done
      invariant fresh(reader)
      invariant done <==> reader.Rest() == []
      invariant name == if raw.Some? then platform.text(raw.value) else ""
      invariant NameFrom(raw, reader.Rest()) == DecodeName(message)
      decreases |reader.Rest()|
    {
      ghost var field := ReadField(reader.Rest());
      NameTurn(raw, reader.Rest());
      var tag :- reader.Tag();
      if tag.field == 1 && tag.wire == 2 {
        var s :- reader.Bytes();
        assert field == Ok(Parsed(LenField(1, s), reader.Rest()));
        name, raw := platform.text(s), Some(s);
      } else {
        var _ :- reader.Skip(tag.wire);
      }
      assert field.Ok? && reader.Rest() == field.value.rest;
      done := reader.Done();
    }
    var normalizedName := Trim(name);
    return Ok(if normalizedName != "" then Some(normalizedName) else None);
  }

  method DecodeScopeMetricsMessage(platform: Platform, message: Bytes) returns (r: Result<seq<string>>)
    ensures r == DecodeScopeMetrics(platform, message)
  {
    var reader := new ProtoReader(message);
    var items: seq<string> := [];
    var done := reader.Done();
    while !done
      invariant fresh(reader)
      invariant done <==> reader.Rest() == []
      invariant RepeatedFrom(2, MetricIn(platform), items, reader.Rest()) == DecodeScopeMetrics(platform, message)
      decreases |reader.Rest()|
    {
      ghost var field := ReadField(reader.Rest());
      RepeatedTurn(2, MetricIn(platform), items, reader.Rest());
      var tag :- reader.Tag();
      if tag.field == 2 && tag.wire == 2 {
        var inner :- reader.Bytes();
        assert field == Ok(Parsed(LenField(2, inner), reader.Rest()));
        var found :- DecodeMetricMessage(platform, inner);
        items := items + (if found.Some? then [found.value] else []);
      } else {
        var _ :- reader.Skip(tag.wire);
      }
      assert field.Ok? && reader.Rest() == field.value.rest;
      done := reader.Done();
    }
    return Ok(items);
  }

  method DecodeResourceMetricsMessage(platform: Platform, message: Bytes) returns (r: Result<seq<string>>)
    ensures r == DecodeResourceMetrics(platform, message)
  {
    var reader := new ProtoReader(message);
    var items: seq<string> := [];
    var done := reader.Done();
    while !done
      invariant fresh(reader)
      invariant done <==> reader.Rest() == []
      invariant RepeatedFrom(2, ScopeMetricsIn(platform), items, reader.Rest()) ==
                DecodeResourceMetrics(platform, message)
      decreases |reader.Rest()|
    {
      ghost var field := ReadField(reader.Rest());
      RepeatedTurn(2, ScopeMetricsIn(platform), items, reader.Rest());
      var tag :- reader.Tag();
      if tag.field == 2 && tag.wire == 2 {
        var inner :- reader.Bytes();
        assert field == Ok(Parsed(LenField(2, inner), reader.Rest()));
        var found :- DecodeScopeMetricsMessage(platform, inner);
        items := items + found;
      } else {
        var _ :- reader.Skip(tag.wire);
      }
      assert field.Ok? && reader.Rest() == field.value.rest;
      done := reader.Done();
    }
    return Ok(items);
  }

  method DecodeMetricRequest(platform: Platform, message: Bytes) returns (r: Result<seq<string>>)
    ensures r == DecodeMetrics(platform, message)
  {
    var reader := new ProtoReader(message);
    var items: seq<string> := [];
    var done := reader.Done();
    while !done
      invariant fresh(reader)
      invariant done <==> reader.Rest() == []
      invariant RepeatedFrom(1, ResourceMetricsIn(platform), items, reader.Rest()) == DecodeMetrics(platform, message)
      decreases |reader.Rest()|
    {
      ghost var field := ReadField(reader.Rest());
      RepeatedTurn(1, ResourceMetricsIn(platform), items, reader.Rest());
      var tag :- reader.Tag();
      if tag.field == 1 && tag.wire == 2 {
        var inner :- reader.Bytes();
        assert field == Ok(Parsed(LenField(1, inner), reader.Rest()));
        var found :- DecodeResourceMetricsMessage(platform, inner);
        items := items + found;
      } else {
        var _ :- reader.Skip(tag.wire);
      }
      assert field.Ok? && reader.Rest() == field.value.rest;
      done := reader.Done();
    }
    return Ok(items);
  }

  method DecodeLogRecord(platform: Platform, message: Bytes) returns (r: Result<Normalized>)
    ensures r == DecodeLog(platform, message)
  {
    var reader := new ProtoReader(message);
    var body := Text("");
    var done := reader.Done();
    while !done
      invariant fresh(reader)
      invariant done <==> reader.Rest() == []
      invariant Fold(BodyStep(platform), body, ScanMessage(reader.Rest())) == DecodeLog(platform, message)
      decreases |reader.Rest()|
    {
      ghost var before, field := body, ReadField(reader.Rest());
      FoldNext(BodyStep(platform), body, reader.Rest());
      var tag :- reader.Tag();
      if tag.field == 5 && tag.wire == 2 {
        var inner :- reader.Bytes();
        assert field == Ok(Parsed(LenField(5, inner), reader.Rest()));
        var value :- DecodeAnyValue(inner);
        body := NormalizeOtlpValue(platform, value);
      } else {
        var _ :- reader.Skip(tag.wire);
      }
      assert field.Ok? && reader.Rest() == field.value.rest
             && BodyStep(platform)(before, field.value.value) == Ok(body);
      done := reader.Done();
    }
    return Ok(body);
  }

  method DecodeScopeLogsMessage(platform: Platform, message: Bytes) returns (r: Result<seq<Normalized>>)
    ensures r == DecodeScopeLogs(platform, message)
  {
    var reader := new ProtoReader(message);
    var items: seq<Normalized> := [];
    var done := reader.Done();
    while !done
      invariant fresh(reader)
      invariant done <==> reader.Rest() == []
      invariant RepeatedFrom(2, LogIn(platform), items, reader.Rest()) == DecodeScopeLogs(platform, message)
      decreases |reader.Rest()|
    {
      ghost var field := ReadField(reader.Rest());
      RepeatedTurn(2, LogIn(platform), items, reader.Rest());
      var tag :- reader.Tag();
      if tag.field == 2 && tag.wire == 2 {
        var inner :- reader.Bytes();
        assert field == Ok(Parsed(LenField(2, inner), reader.Rest()));
        var found :- DecodeLogRecord(platform, inner);
        items := items + [found];
      } else {
        var _ :- reader.Skip(tag.wire);
      }
      assert field.Ok? && reader.Rest() == field.value.rest;
      done := reader.Done();
    }
    return Ok(items);
  }

  method DecodeResourceLogsMessage(platform: Platform, message: Bytes) returns (r: Result<seq<Normalized>>)
    ensures r == DecodeResourceLogs(platform, message)
  {
    var reader := new ProtoReader(message);
    var items: seq<Normalized> := [];
    var done := reader.Done();
    while !done
      invariant fresh(reader)
      invariant done <==> reader.Rest() == []
      invariant RepeatedFrom(2, ScopeLogsIn(platform), items, reader.Rest()) == DecodeResourceLogs(platform, message)
      decreases |reader.Rest()|
    {
      ghost var field := ReadField(reader.Rest());
      RepeatedTurn(2, ScopeLogsIn(platform), items, reader.Rest());
      var tag :- reader.Tag();
      if tag.field == 2 && tag.wire == 2 {
        var inner :- reader.Bytes();
        assert field == Ok(Parsed(LenField(2, inner), reader.Rest()));
        var found :- DecodeScopeLogsMessage(platform, inner);
        items := items + found;
      } else {
        var _ :- reader.Skip(tag.wire);
      }
      assert field.Ok? && reader.Rest() == field.value.rest;
      done := reader.Done();
    }
    return Ok(items);
  }

  method DecodeLogRequest(platform: Platform, message: Bytes) returns (r: Result<seq<Normalized>>)
    ensures r == DecodeLogs(platform, message)
  {
    var reader := new ProtoReader(message);
    var items: seq<Normalized> := [];
    var done := reader.Done();
    while !done
      invariant fresh(reader)
      invariant done <==> reader.Rest() == []
      invariant RepeatedFrom(1, ResourceLogsIn(platform), items, reader.Rest()) == DecodeLogs(platform, message)
      decreases |reader.Rest()|
    {
      ghost var field := ReadField(reader.Rest());
      RepeatedTurn(1, ResourceLogsIn(platform), items, reader.Rest());
      var tag :- reader.Tag();
      if tag.field == 1 && tag.wire == 2 {
        var inner :- reader.Bytes();
        assert field == Ok(Parsed(LenField(1, inner), reader.Rest()));
        var found :- DecodeResourceLogsMessage(platform, inner);
        items := items + found;
      } else {
        var _ :- reader.Skip(tag.wire);
      }
      assert field.Ok? && reader.Rest() == field.value.rest;
      done := reader.Done();
    }
    return Ok(items);
  }

  // ---- concatenated messages ----------------------------------------------------------

  /** After a well-formed prefix, at every level the items of both parts follow each other. */
  lemma SignalsOfConcatenation(platform: Platform, s: Bytes, t: Bytes)
    requires IsWellFormed(s)
    ensures DecodeScopeMetrics(platform, s + t)
            == Merged(DecodeScopeMetrics(platform, s), DecodeScopeMetrics(platform, t), Append)
    ensures DecodeResourceMetrics(platform, s + t)
            == Merged(DecodeResourceMetrics(platform, s), DecodeResourceMetrics(platform, t), Append)
    ensures DecodeMetrics(platform, s + t) == Merged(DecodeMetrics(platform, s), DecodeMetrics(platform, t), Append)
    ensures DecodeScopeLogs(platform, s + t)
            == Merged(DecodeScopeLogs(platform, s), DecodeScopeLogs(platform, t), Append)
    ensures DecodeResourceLogs(platform, s + t)
            == Merged(DecodeResourceLogs(platform, s), DecodeResourceLogs(platform, t), Append)
    ensures DecodeLogs(platform, s + t) == Merged(DecodeLogs(platform, s), DecodeLogs(platform, t), Append)
  {
    RepeatedConcat(2, MetricIn(platform), s, t);
    RepeatedConcat(2, ScopeMetricsIn(platform), s, t);
    RepeatedConcat(1, ResourceMetricsIn(platform), s, t);
    RepeatedConcat(2, LogIn(platform), s, t);
    RepeatedConcat(2, ScopeLogsIn(platform), s, t);
    RepeatedConcat(1, ResourceLogsIn(platform), s, t);
  }

  /** Whether a message has a field `number` at all. */
  ghost predicate Sets(number: nat, fields: seq<WireField>) {
    exists i :: 0 <= i < |fields| && fields[i].LenField? && fields[i].number == number
  }

  lemma {:induction false} NameKept(name: Option<Bytes>, scan: Scan)
    ensures Fold(NameStep, name, scan) ==
            match Fold(NameStep, None, scan)
            case Err(error) => Err(error)
            case Ok(later) => Ok(Later(name, later))
    decreases |scan.fields|
  {
    if scan.fields != [] {
      var next := NameStep(name, scan.fields[0]).value;
      NameKept(next, Tail(scan));
      NameKept(NameStep(None, scan.fields[0]).value, Tail(scan));
    }
  }

  /** A metric's later name wins. */
  lemma NameOfConcatenation(s: Bytes, t: Bytes)
    requires IsWellFormed(s)
    ensures DecodeName(s + t) == Merged(DecodeName(s), DecodeName(t), Later<Bytes>)
  {
    ScanConcat(s, t);
    FoldConcat(NameStep, None, ScanMessage(s).fields, ScanMessage(t));
    if DecodeName(s).Ok? { NameKept(DecodeName(s).value, ScanMessage(t)); }
  }

  lemma {:induction false} BodyKept(platform: Platform, body: Normalized, scan: Scan)
    ensures Fold(BodyStep(platform), body, scan).Err? <==> Fold(BodyStep(platform), Text(""), scan).Err?
    ensures Fold(BodyStep(platform), body, scan).Err? ==>
              Fold(BodyStep(platform), body, scan) == Fold(BodyStep(platform), Text(""), scan)
    ensures Fold(BodyStep(platform), body, scan).Ok? ==>
              Fold(BodyStep(platform), body, scan).value ==
              if Sets(5, scan.fields) then Fold(BodyStep(platform), Text(""), scan).value else body
    decreases |scan.fields|
  {
    if scan.fields != [] {
      var first := scan.fields[0];
      var step := BodyStep(platform);
      SetsCons(5, scan.fields);
      if step(body, first).Ok? {
        BodyKept(platform, step(body, first).value, Tail(scan));
        BodyKept(platform, step(Text(""), first).value, Tail(scan));
      }
    }
  }

  lemma SetsCons(number: nat, fields: seq<WireField>)
    requires fields != []
    ensures Sets(number, fields) <==> (fields[0].LenField? && fields[0].number == number) || Sets(number, fields[1..])
  {
    if Sets(number, fields[1..]) {
      var i :| 0 <= i < |fields[1..]| && fields[1..][i].LenField? && fields[1..][i].number == number;
      assert fields[i + 1] == fields[1..][i];
    }
    if Sets(number, fields) {
      var i :| 0 <= i < |fields| && fields[i].LenField? && fields[i].number == number;
      assert i > 0 ==> fields[1..][i - 1] == fields[i];
    }
  }

  /** A log record's later body wins, even an empty one over a text. */
  lemma LogOfConcatenation(platform: Platform, s: Bytes, t: Bytes)
    requires IsWellFormed(s) && DecodeLog(platform, s).Ok?
    ensures DecodeLog(platform, s + t) ==
            match DecodeLog(platform, t)
            case Err(error) => Err(error)
            case Ok(body) => Ok(if Sets(5, ScanMessage(t).fields) then body else DecodeLog(platform, s).value)
  {
    ScanConcat(s, t);
    FoldConcat(BodyStep(platform), Text(""), ScanMessage(s).fields, ScanMessage(t));
    BodyKept(platform, DecodeLog(platform, s).value, ScanMessage(t));
  }
}
