/** Encoding metric and log requests, with fields the decoders do not know at any
    place, and decoding them again. */
module SignalRoundTrip {
  import opened Octets
  import opened Outcomes
  import opened ProtoWire
  import opened OtlpDecoder
  import opened Parts
  import opened OtlpTrace
  import opened OtlpRoundTrip
  import opened OtlpSignals

  // ---- metrics ---------------------------------------------------------------------------

  type Metric = seq<Part<Bytes>>
  type ScopeMetrics = seq<Part<Metric>>
  type ResourceMetrics = seq<Part<ScopeMetrics>>
  type MetricsRequest = seq<Part<ResourceMetrics>>

  function Raw(s: Bytes): Bytes { s }

  predicate IsAnyBytes(s: Bytes) { true }

  function EncodeMetric(metric: Metric): Bytes { EncodeFields(PartFields(1, Raw, metric)) }

  function EncodeScopeMetrics(scope: ScopeMetrics): Bytes { EncodeFields(PartFields(2, EncodeMetric, scope)) }

  function EncodeResourceMetrics(resource: ResourceMetrics): Bytes {
    EncodeFields(PartFields(2, EncodeScopeMetrics, resource))
  }

  function EncodeMetrics(request: MetricsRequest): Bytes { EncodeFields(PartFields(1, EncodeResourceMetrics, request)) }

  ghost predicate IsValidMetric(metric: Metric) { AreValidParts(1, Raw, IsAnyBytes, metric) }

  ghost predicate IsValidScopeMetrics(scope: ScopeMetrics) { AreValidParts(2, EncodeMetric, IsValidMetric, scope) }

  ghost predicate IsValidResourceMetrics(resource: ResourceMetrics) {
    AreValidParts(2, EncodeScopeMetrics, IsValidScopeMetrics, resource)
  }

  ghost predicate IsValidMetrics(request: MetricsRequest) {
    AreValidParts(1, EncodeResourceMetrics, IsValidResourceMetrics, request)
  }

  /** The trimmed last name, if it is not blank. */
  function NamesOfMetric(platform: Platform): Metric -> seq<string> {
    (metric: Metric) => MetricsNamed(platform, LastPart(metric))
  }

  function NamesOfScope(platform: Platform): ScopeMetrics -> seq<string> {
    (scope: ScopeMetrics) => PartItems(NamesOfMetric(platform), scope)
  }

  function NamesOfResource(platform: Platform): ResourceMetrics -> seq<string> {
    (resource: ResourceMetrics) => PartItems(NamesOfScope(platform), resource)
  }

  lemma {:induction false} NameFold(metric: Metric, name: Option<Bytes>)
    requires IsValidMetric(metric)
    ensures Fold(NameStep, name, Scan(PartFields(1, Raw, metric), None)) == Ok(Later(name, LastPart(metric)))
    decreases |metric|
  {
    if metric != [] {
      var fields := PartFields(1, Raw, metric);
      assert IsValidPart(1, Raw, IsAnyBytes, metric[0]);
      RestIsValid(1, Raw, IsAnyBytes, metric);
      assert fields[1..] == PartFields(1, Raw, metric[1..]);
      NameFold(metric[1..], if metric[0].Known? then Some(metric[0].message) else name);
    }
  }

  lemma MetricRoundTrip(platform: Platform, metric: Metric)
    requires IsValidMetric(metric)
    ensures MetricIn(platform)(EncodeMetric(metric)) == Ok(NamesOfMetric(platform)(metric))
  {
    PartsAreScanned(1, Raw, IsAnyBytes, metric);
    NameFold(metric, None);
  }

  lemma ScopeMetricsRoundTrip(platform: Platform, scope: ScopeMetrics)
    requires IsValidScopeMetrics(scope)
    ensures ScopeMetricsIn(platform)(EncodeScopeMetrics(scope)) == Ok(NamesOfScope(platform)(scope))
  {
    forall metric | IsValidMetric(metric)
      ensures MetricIn(platform)(EncodeMetric(metric)) == Ok(NamesOfMetric(platform)(metric))
    {
      MetricRoundTrip(platform, metric);
    }
    PartsRoundTrip(2, EncodeMetric, IsValidMetric, MetricIn(platform), NamesOfMetric(platform), scope);
  }

  lemma ResourceMetricsRoundTrip(platform: Platform, resource: ResourceMetrics)
    requires IsValidResourceMetrics(resource)
    ensures ResourceMetricsIn(platform)(EncodeResourceMetrics(resource)) == Ok(NamesOfResource(platform)(resource))
  {
    forall scope | IsValidScopeMetrics(scope)
      ensures ScopeMetricsIn(platform)(EncodeScopeMetrics(scope)) == Ok(NamesOfScope(platform)(scope))
    {
      ScopeMetricsRoundTrip(platform, scope);
    }
    PartsRoundTrip(2, EncodeScopeMetrics, IsValidScopeMetrics, ScopeMetricsIn(platform), NamesOfScope(platform),
        resource);
  }

  /** An encoded metrics request decodes to the names of its metrics in order,
      trimmed and without blank ones, whatever unknown fields surround them. */
  lemma MetricsRoundTrip(platform: Platform, request: MetricsRequest)
    requires IsValidMetrics(request)
    ensures DecodeMetrics(platform, EncodeMetrics(request)) == Ok(PartItems(NamesOfResource(platform), request))
  {
    forall resource | IsValidResourceMetrics(resource)
      ensures ResourceMetricsIn(platform)(EncodeResourceMetrics(resource)) == Ok(NamesOfResource(platform)(resource))
    {
      ResourceMetricsRoundTrip(platform, resource);
    }
    PartsRoundTrip(1, EncodeResourceMetrics, IsValidResourceMetrics, ResourceMetricsIn(platform),
                   NamesOfResource(platform), request);
  }

  // ---- logs ------------------------------------------------------------------------------

  type LogRecord = seq<Part<seq<AnyItem>>>
  type ScopeLogs = seq<Part<LogRecord>>
  type ResourceLogs = seq<Part<ScopeLogs>>
  type LogsRequest = seq<Part<ResourceLogs>>

  function EncodeAny(items: seq<AnyItem>): Bytes { EncodeFields(AnyFields(items)) }

  function EncodeLog(log: LogRecord): Bytes { EncodeFields(PartFields(5, EncodeAny, log)) }

  function EncodeScopeLogs(scope: ScopeLogs): Bytes { EncodeFields(PartFields(2, EncodeLog, scope)) }

  function EncodeResourceLogs(resource: ResourceLogs): Bytes { EncodeFields(PartFields(2, EncodeScopeLogs, resource)) }

  function EncodeLogs(request: LogsRequest): Bytes { EncodeFields(PartFields(1, EncodeResourceLogs, request)) }

  ghost predicate IsValidLog(log: LogRecord) { AreValidParts(5, EncodeAny, IsValidAny, log) }

  ghost predicate IsValidScopeLogs(scope: ScopeLogs) { AreValidParts(2, EncodeLog, IsValidLog, scope) }

  ghost predicate IsValidResourceLogs(resource: ResourceLogs) {
    AreValidParts(2, EncodeScopeLogs, IsValidScopeLogs, resource)
  }

  ghost predicate IsValidLogs(request: LogsRequest) {
    AreValidParts(1, EncodeResourceLogs, IsValidResourceLogs, request)
  }

  /** The last body, normalized; the empty text if there is none. */
  function BodyOf(platform: Platform, log: LogRecord, before: Normalized): Normalized {
    match LastPart(log)
    case None => before
    case Some(items) => NormalizeOtlpValue(platform, MeaningOfAny(items))
  }

  function BodiesOfLog(platform: Platform): LogRecord -> seq<Normalized> {
    (log: LogRecord) => [BodyOf(platform, log, Text(""))]
  }

  function BodiesOfScope(platform: Platform): ScopeLogs -> seq<Normalized> {
    (scope: ScopeLogs) => PartItems(BodiesOfLog(platform), scope)
  }

  function BodiesOfResource(platform: Platform): ResourceLogs -> seq<Normalized> {
    (resource: ResourceLogs) => PartItems(BodiesOfScope(platform), resource)
  }

  lemma {:induction false} BodyFold(platform: Platform, log: LogRecord, before: Normalized)
    requires IsValidLog(log)
    ensures Fold(BodyStep(platform), before, Scan(PartFields(5, EncodeAny, log), None)) ==
            Ok(BodyOf(platform, log, before))
    decreases |log|
  {
    if log != [] {
      var fields := PartFields(5, EncodeAny, log);
      assert IsValidPart(5, EncodeAny, IsValidAny, log[0]);
      RestIsValid(5, EncodeAny, IsValidAny, log);
      assert fields[1..] == PartFields(5, EncodeAny, log[1..]);
      if log[0].Known? {
        AnyRoundTrip(log[0].message);
        BodyFold(platform, log[1..], NormalizeOtlpValue(platform, MeaningOfAny(log[0].message)));
      } else {
        BodyFold(platform, log[1..], before);
      }
    }
  }

  lemma LogRoundTrip(platform: Platform, log: LogRecord)
    requires IsValidLog(log)
    ensures LogIn(platform)(EncodeLog(log)) == Ok(BodiesOfLog(platform)(log))
  {
    PartsAreScanned(5, EncodeAny, IsValidAny, log);
    BodyFold(platform, log, Text(""));
  }

  lemma ScopeLogsRoundTrip(platform: Platform, scope: ScopeLogs)
    requires IsValidScopeLogs(scope)
    ensures ScopeLogsIn(platform)(EncodeScopeLogs(scope)) == Ok(BodiesOfScope(platform)(scope))
  {
    forall log | IsValidLog(log) ensures LogIn(platform)(EncodeLog(log)) == Ok(BodiesOfLog(platform)(log)) {
      LogRoundTrip(platform, log);
    }
    PartsRoundTrip(2, EncodeLog, IsValidLog, LogIn(platform), BodiesOfLog(platform), scope);
  }

  lemma ResourceLogsRoundTrip(platform: Platform, resource: ResourceLogs)
    requires IsValidResourceLogs(resource)
    ensures ResourceLogsIn(platform)(EncodeResourceLogs(resource)) == Ok(BodiesOfResource(platform)(resource))
  {
    forall scope | IsValidScopeLogs(scope)
      ensures ScopeLogsIn(platform)(EncodeScopeLogs(scope)) == Ok(BodiesOfScope(platform)(scope))
    {
      ScopeLogsRoundTrip(platform, scope);
    }
    PartsRoundTrip(2, EncodeScopeLogs, IsValidScopeLogs, ScopeLogsIn(platform), BodiesOfScope(platform), resource);
  }

  /** An encoded logs request decodes to the bodies of its records in order,
      whatever unknown fields surround them. */
  lemma LogsRoundTrip(platform: Platform, request: LogsRequest)
    requires IsValidLogs(request)
    ensures DecodeLogs(platform, EncodeLogs(request)) == Ok(PartItems(BodiesOfResource(platform), request))
  {
    forall resource | IsValidResourceLogs(resource)
      ensures ResourceLogsIn(platform)(EncodeResourceLogs(resource)) == Ok(BodiesOfResource(platform)(resource))
    {
      ResourceLogsRoundTrip(platform, resource);
    }
    PartsRoundTrip(1, EncodeResourceLogs, IsValidResourceLogs, ResourceLogsIn(platform), BodiesOfResource(platform),
        request);
  }
}
