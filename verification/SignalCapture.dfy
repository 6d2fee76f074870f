/** What is collected from encoded metric and log requests, told from the metrics and log
    records that were sent. */
module SignalCapture {
  import opened JsText
  import opened Octets
  import opened Outcomes
  import opened Parts
  import opened OtlpTrace
  import opened OtlpRoundTrip
  import opened OtlpSignals
  import opened SignalRoundTrip

  // ---- lists of lists --------------------------------------------------------------------

  ghost predicate Distributes<U(!new), V>(f: seq<U> -> seq<V>) {
    forall a, b {:trigger f(a), f(b)} :: f(a + b) == f(a) + f(b)
  }

  lemma Distributed<U(!new), V>(f: seq<U> -> seq<V>, a: seq<U>, b: seq<U>)
    requires Distributes(f)
    ensures f(a + b) == f(a) + f(b)
  {
    assert f(a) == f(a) && f(b) == f(b);
  }

  lemma {:induction false} PartItemsConcat<T(!new), U(!new), V>(
    inner: T -> seq<U>, f: seq<U> -> seq<V>, outer: T -> seq<V>, parts: seq<Part<T>>)
    requires f([]) == [] && Distributes(f)
    requires forall t :: outer(t) == f(inner(t))
    ensures PartItems(outer, parts) == f(PartItems(inner, parts))
  {
    if parts != [] {
      PartItemsConcat(inner, f, outer, parts[1..]);
      var first, others := if parts[0].Known? then inner(parts[0].message) else [], PartItems(inner, parts[1..]);
      Distributed(f, first, others);
    }
  }

  function Itself<T>(): T -> seq<T> {
    (t: T) => [t]
  }

  /** What `f` makes of each, one after the other. */
  function Each<T, U>(f: T -> seq<U>): seq<T> -> seq<U> {
    (items: seq<T>) => EachOf(f, items)
  }

  function EachOf<T, U>(f: T -> seq<U>, items: seq<T>): seq<U> {
    if items == [] then [] else f(items[0]) + EachOf(f, items[1..])
  }

  lemma {:induction false} EachConcat<T, U>(f: T -> seq<U>, a: seq<T>, b: seq<T>)
    ensures EachOf(f, a + b) == EachOf(f, a) + EachOf(f, b)
  {
    if a == [] {
      assert a + b == b;
    } else {
      assert (a + b)[1..] == a[1..] + b;
      EachConcat(f, a[1..], b);
    }
  }

  lemma EachOne<T, U>(f: T -> seq<U>, t: T)
    ensures EachOf(f, [t]) == f(t)
  {
    assert [t][1..] == [] && EachOf(f, []) == [];
  }

  /** Three levels of lists, worked through from the inside, are one list worked through. */
  lemma ThreeLevels<T(!new), U>(
    f: T -> seq<U>, f2: seq<Part<T>> -> seq<U>, f3: seq<Part<seq<Part<T>>>> -> seq<U>,
    s2: seq<Part<T>> -> seq<T>, s3: seq<Part<seq<Part<T>>>> -> seq<T>, request: seq<Part<seq<Part<seq<Part<T>>>>>>)
    requires forall scope :: f2(scope) == PartItems(f, scope) && s2(scope) == PartItems(Itself<T>(), scope)
    requires forall resource :: f3(resource) == PartItems(f2, resource) && s3(resource) == PartItems(s2, resource)
    ensures PartItems(f3, request) == EachOf(f, PartItems(s3, request))
  {
    var each := Each(f);
    assert Distributes(each) by {
      forall a, b ensures each(a + b) == each(a) + each(b) { EachConcat(f, a, b); }
    }
    forall t ensures f(t) == each(Itself<T>()(t)) { EachOne(f, t); }
    forall scope ensures f2(scope) == each(s2(scope)) { PartItemsConcat(Itself<T>(), each, f, scope); }
    forall resource ensures f3(resource) == each(s3(resource)) { PartItemsConcat(s2, each, f2, resource); }
    PartItemsConcat(s3, each, f3, request);
  }

  ghost predicate IsLastKnown<T>(parts: seq<Part<T>>, n: nat) {
    n < |parts| && parts[n].Known? && forall m | n < m < |parts| :: !parts[m].Known?
  }

  lemma {:induction false} LastPartIsLast<T>(parts: seq<Part<T>>)
    ensures forall n: nat | IsLastKnown(parts, n) :: LastPart(parts) == Some(parts[n].message)
    ensures LastPart(parts).Some? ==> exists n: nat :: IsLastKnown(parts, n)
  {
    if parts != [] {
      var rest := parts[1..];
      LastPartIsLast(rest);
      forall n: nat | IsLastKnown(parts, n) ensures LastPart(parts) == Some(parts[n].message) {
        LastOfRest(parts, n);
      }
      if m: nat :| IsLastKnown(rest, m) {
        assert IsLastKnown(parts, m + 1);
      } else if parts[0].Known? {
        LastPartNone(rest);
        assert IsLastKnown(parts, 0);
      }
    }
  }

  lemma LastOfRest<T>(parts: seq<Part<T>>, n: nat)
    requires parts != [] && IsLastKnown(parts, n)
    ensures n > 0 ==> IsLastKnown(parts[1..], n - 1)
    ensures n == 0 ==> LastPart(parts[1..]).None?
  {
    if n == 0 { NoneKnown(parts[1..]); }
  }

  lemma {:induction false} NoneKnown<T>(parts: seq<Part<T>>)
    requires forall m | 0 <= m < |parts| :: !parts[m].Known?
    ensures LastPart(parts).None?
  {
    if parts != [] { NoneKnown(parts[1..]); }
  }

  lemma {:induction false} LastPartNone<T>(parts: seq<Part<T>>)
    requires forall m: nat :: !IsLastKnown(parts, m)
    ensures forall m | 0 <= m < |parts| :: !parts[m].Known?
  {
    if parts != [] {
      forall m: nat ensures !IsLastKnown(parts[1..], m) {
        if IsLastKnown(parts[1..], m) { assert IsLastKnown(parts, m + 1); }
      }
      LastPartNone(parts[1..]);
      assert !IsLastKnown(parts, 0);
    }
  }

  // ---- metrics ---------------------------------------------------------------------------

  function MetricsOfScope(scope: ScopeMetrics): seq<Metric> { PartItems(Itself<Metric>(), scope) }

  function MetricsOfResource(resource: ResourceMetrics): seq<Metric> { PartItems(MetricsOfScope, resource) }

  /** All metrics of a request, in the order they were sent. */
  function SentMetrics(request: MetricsRequest): seq<Metric> { PartItems(MetricsOfResource, request) }

  ghost predicate IsNamed(platform: Platform, metric: Metric) {
    exists n: nat :: IsLastKnown(metric, n) && !IsBlank(platform.text(metric[n].message))
  }

  ghost predicate HasName(platform: Platform, metric: Metric, name: string) {
    exists n: nat :: IsLastKnown(metric, n) && name == Trim(platform.text(metric[n].message))
  }

  /** The metrics whose last name is not blank. */
  ghost function Named(platform: Platform, metrics: seq<Metric>): seq<Metric> {
    if metrics == [] then []
    else (if IsNamed(platform, metrics[0]) then [metrics[0]] else []) + Named(platform, metrics[1..])
  }

  ghost predicate AreNames(platform: Platform, metrics: seq<Metric>, names: seq<string>) {
    |names| == |metrics| && forall i | 0 <= i < |metrics| :: HasName(platform, metrics[i], names[i])
  }

  lemma MetricIsNamed(platform: Platform, metric: Metric)
    ensures var names := NamesOfMetric(platform)(metric);
            if IsNamed(platform, metric) then |names| == 1 && HasName(platform, metric, names[0]) else names == []
  {
    LastPartIsLast(metric);
    TrimFacts("");
    if n: nat :| IsLastKnown(metric, n) {
      TrimFacts(platform.text(metric[n].message));
    }
  }

  lemma {:induction false} EachIsNamed(platform: Platform, metrics: seq<Metric>)
    ensures AreNames(platform, Named(platform, metrics), EachOf(NamesOfMetric(platform), metrics))
  {
    if metrics != [] {
      MetricIsNamed(platform, metrics[0]);
      EachIsNamed(platform, metrics[1..]);
    }
  }

  /** From the bytes of an encoded metrics request, with unknown fields anywhere, exactly the
      metrics with a name are collected, in order, by their last names, trimmed. */
  lemma MetricsAsSent(platform: Platform, request: MetricsRequest)
    requires IsValidMetrics(request)
    ensures DecodeMetrics(platform, EncodeMetrics(request)).Ok?
    ensures AreNames(platform, Named(platform, SentMetrics(request)),
                     DecodeMetrics(platform, EncodeMetrics(request)).value)
  {
    MetricsRoundTrip(platform, request);
    ThreeLevels(NamesOfMetric(platform), NamesOfScope(platform), NamesOfResource(platform),
                MetricsOfScope, MetricsOfResource, request);
    EachIsNamed(platform, SentMetrics(request));
  }

  // ---- logs ------------------------------------------------------------------------------

  function LogsOfScope(scope: ScopeLogs): seq<LogRecord> { PartItems(Itself<LogRecord>(), scope) }

  function LogsOfResource(resource: ResourceLogs): seq<LogRecord> { PartItems(LogsOfScope, resource) }

  /** All log records of a request, in the order they were sent. */
  function SentLogs(request: LogsRequest): seq<LogRecord> { PartItems(LogsOfResource, request) }

  /** `x` is what the last body of a record reports, or empty text. */
  ghost predicate IsBody(platform: Platform, log: LogRecord, x: Normalized) {
    && (forall n: nat, i: nat | IsLastKnown(log, n) && IsReported(log[n].message, i) ::
          x == ItemValue(platform, log[n].message[i]))
    && ((forall n: nat | IsLastKnown(log, n) :: forall i: nat :: !IsReported(log[n].message, i)) ==> x == Text(""))
  }

  ghost predicate AreBodies(platform: Platform, logs: seq<LogRecord>, bodies: seq<Normalized>) {
    |bodies| == |logs| && forall i | 0 <= i < |logs| :: IsBody(platform, logs[i], bodies[i])
  }

  lemma LogHasBody(platform: Platform, log: LogRecord)
    ensures IsBody(platform, log, BodyOf(platform, log, Text("")))
  {
    LastPartIsLast(log);
    forall n: nat, i: nat | IsLastKnown(log, n) && IsReported(log[n].message, i)
      ensures BodyOf(platform, log, Text("")) == ItemValue(platform, log[n].message[i])
    {
      NormalizationReports(platform, log[n].message, i);
    }
    if LastPart(log).Some? {
      var n: nat :| IsLastKnown(log, n);
      if forall i: nat :: !IsReported(log[n].message, i) {
        NothingReported(platform, log[n].message);
      }
    }
  }

  lemma {:induction false} EachHasBody(platform: Platform, logs: seq<LogRecord>)
    ensures AreBodies(platform, logs, EachOf(BodiesOfLog(platform), logs))
  {
    if logs != [] {
      LogHasBody(platform, logs[0]);
      EachHasBody(platform, logs[1..]);
    }
  }

  /** From the bytes of an encoded logs request, with unknown fields anywhere, every record is
      collected, in order, with what its last body reports. */
  lemma LogsAsSent(platform: Platform, request: LogsRequest)
    requires IsValidLogs(request)
    ensures DecodeLogs(platform, EncodeLogs(request)).Ok?
    ensures AreBodies(platform, SentLogs(request), DecodeLogs(platform, EncodeLogs(request)).value)
  {
    LogsRoundTrip(platform, request);
    ThreeLevels(BodiesOfLog(platform), BodiesOfScope(platform), BodiesOfResource(platform),
                LogsOfScope, LogsOfResource, request);
    EachHasBody(platform, SentLogs(request));
  }
}
