/** What the captured spans of an encoded trace request hold, told from the items of the
    spans that were sent. */
module SpanCapture {
  import opened JsText
  import opened Octets
  import opened Outcomes
  import opened ProtoWire
  import opened OtlpDecoder
  import opened Parts
  import opened OtlpTrace
  import opened OtlpRoundTrip

  // ---- the spans that were sent ----------------------------------------------------------

  function Alone(span: seq<SpanItem>): seq<seq<SpanItem>> { [span] }

  function SentInScope(scope: ScopeTree): seq<seq<SpanItem>> { PartItems(Alone, scope) }

  function SentInResource(resource: ResourceTree): seq<seq<SpanItem>> { PartItems(SentInScope, resource) }

  /** All spans of a request, in the order they were sent. */
  function SentSpans(trace: TraceTree): seq<seq<SpanItem>> { PartItems(SentInResource, trace) }

  // ---- the bytes of a field --------------------------------------------------------------

  lemma FirstByte(f: WireField, rest: seq<WireField>)
    requires f.number < 16
    ensures EncodeFields([f] + rest) != [] && EncodeFields([f] + rest)[0] == 8 * f.number + WireType(f)
  {
    assert EncodeVarint(8 * f.number + WireType(f)) == [8 * f.number + WireType(f)];
  }

  /** The tag bytes that opentelemetry-proto gives the members of a value and of an entry. */
  lemma ValueTags(item: AnyItem, entry: EntryItem)
    ensures !item.OtherAny? ==> |EncodeFields(AnyFields([item]))| > 0
    ensures !item.OtherAny? ==>
              EncodeFields(AnyFields([item]))[0] ==
              match KindOf(item)
              case StringKind => 0x0A
              case BoolKind => 0x10
              case IntKind => 0x18
              case DoubleKind => 0x21
              case ArrayKind => 0x2A
              case ListKind => 0x32
              case _ => 0x3A
    ensures !entry.OtherInEntry? ==> |EncodeFields(EntryFields([entry]))| > 0
    ensures !entry.OtherInEntry? ==> EncodeFields(EntryFields([entry]))[0] == if entry.KeyItem? then 0x0A else 0x12
  {
    if !item.OtherAny? { FirstByte(AnyField(item), []); }
    assert [item][1..] == [] && AnyFields([item]) == [AnyField(item)] + [];
    var fields := EntryFields([entry]);
    if !entry.OtherInEntry? { FirstByte(fields[0], []); }
    assert [entry][1..] == [] && EntryFields([]) == [] && fields == [fields[0]] + [];
  }

  /** The same for the fields of a span and of the messages around it. */
  lemma SpanTags(item: SpanItem, scope: Part<seq<SpanItem>>, resource: Part<ScopeTree>, trace: Part<ResourceTree>)
    ensures !item.OtherInSpan? ==> |EncodeSpan([item])| > 0
    ensures !item.OtherInSpan? ==>
              EncodeSpan([item])[0] == if item.ParentItem? then 0x22 else if item.NameItem? then 0x2A else 0x4A
    ensures scope.Known? ==> |EncodeScope([scope])| > 0 && EncodeScope([scope])[0] == 0x12
    ensures resource.Known? ==> |EncodeResource([resource])| > 0 && EncodeResource([resource])[0] == 0x12
    ensures trace.Known? ==> |EncodeTrace([trace])| > 0 && EncodeTrace([trace])[0] == 0x0A
  {
    var fields := SpanFields([item]);
    if !item.OtherInSpan? { FirstByte(fields[0], []); }
    assert [item][1..] == [] && SpanFields([]) == [] && fields == [fields[0]] + [];
    PartTag(2, EncodeSpan, scope);
    PartTag(2, EncodeScope, resource);
    PartTag(1, EncodeResource, trace);
  }

  lemma PartTag<T>(number: nat, encode: T -> Bytes, part: Part<T>)
    requires number < 16
    ensures var bytes := EncodeFields(PartFields(number, encode, [part]));
            part.Known? ==> bytes != [] && bytes[0] == 8 * number + 2
  {
    var fields := PartFields(number, encode, [part]);
    assert [part][1..] == [] && PartFields(number, encode, []) == [] && fields == [fields[0]] + [];
    if part.Known? { FirstByte(fields[0], []); }
  }

  // ---- one span --------------------------------------------------------------------------

  ghost predicate IsLastName(span: seq<SpanItem>, n: nat) {
    n < |span| && span[n].NameItem? && forall m | n < m < |span| :: !span[m].NameItem?
  }

  ghost predicate IsLastParent(span: seq<SpanItem>, n: nat) {
    n < |span| && span[n].ParentItem? && forall m | n < m < |span| :: !span[m].ParentItem?
  }

  ghost predicate IsLastKey(entry: seq<EntryItem>, n: nat) {
    n < |entry| && entry[n].KeyItem? && forall m | n < m < |entry| :: !entry[m].KeyItem?
  }

  ghost predicate IsLastValue(entry: seq<EntryItem>, n: nat) {
    n < |entry| && entry[n].ValueItem? && forall m | n < m < |entry| :: !entry[m].ValueItem?
  }

  /** The trimmed text of the last key of an entry is `k`, which is not empty. */
  ghost predicate HasName(platform: Platform, entry: seq<EntryItem>, k: string) {
    k != "" && exists n: nat :: IsLastKey(entry, n) && Trim(platform.text(entry[n].key)) == k
  }

  /** `x` is what the last value of an entry reports. */
  ghost predicate IsValueOf(platform: Platform, entry: seq<EntryItem>, x: Normalized) {
    && (forall n: nat, i: nat | IsLastValue(entry, n) && IsReported(entry[n].value, i) ::
          x == ItemValue(platform, entry[n].value[i]))
    && ((forall n: nat | IsLastValue(entry, n) :: forall i: nat :: !IsReported(entry[n].value, i)) ==> x == Text(""))
  }

  ghost predicate IsLastNamed(platform: Platform, span: seq<SpanItem>, k: string, n: nat) {
    && n < |span| && span[n].AttributeItem? && HasName(platform, span[n].attribute, k)
    && forall m | n < m < |span| :: !(span[m].AttributeItem? && HasName(platform, span[m].attribute, k))
  }

  /** Under `k` the map holds the value of the last attribute of that name, if there is one. */
  ghost predicate HoldsAttribute(platform: Platform, span: seq<SpanItem>, k: string, m: map<string, Normalized>) {
    && (k in m <==> exists n: nat :: IsLastNamed(platform, span, k, n))
    && forall n: nat | IsLastNamed(platform, span, k, n) :: k in m && IsValueOf(platform, span[n].attribute, m[k])
  }

  ghost predicate IsNamed(platform: Platform, span: seq<SpanItem>) {
    exists n: nat :: IsLastName(span, n) && !IsBlank(platform.text(span[n].name))
  }

  /** `c` is what the span that was sent shows: the trimmed text of its last name, whether
      its last parent id is there and not empty, and its attributes. */
  ghost predicate Shows(platform: Platform, span: seq<SpanItem>, c: CapturedSpan) {
    && (exists n: nat :: IsLastName(span, n) && c.name == Trim(platform.text(span[n].name)))
    && (c.parent <==> exists n: nat :: IsLastParent(span, n) && span[n].id != [])
    && (forall k :: HoldsAttribute(platform, span, k, c.attributes))
  }

  lemma LastIs<T>(items: seq<T>, p: T -> bool, n: nat)
    requires n < |items| && p(items[n]) && forall m | n < m < |items| :: !p(items[m])
    ensures LastIndex(items, p) == n
  {
    if LastIndex(items, p) < n { NoneAfterLast(items, p, n); }
  }

  lemma LastOrNone<T>(items: seq<T>, p: T -> bool)
    ensures var n := LastIndex(items, p);
            && (forall m | n < m < |items| :: !p(items[m]))
            && (n >= 0 ==> p(items[n]))
  {
    forall m | LastIndex(items, p) < m < |items| ensures !p(items[m]) { NoneAfterLast(items, p, m); }
  }

  // ---- attributes ------------------------------------------------------------------------

  lemma EntryName(platform: Platform, entry: seq<EntryItem>, k: string)
    requires k != ""
    ensures AttributeKey(platform, MeaningOfEntry(entry)) == k <==> HasName(platform, entry, k)
  {
    var p := (i: EntryItem) => i.KeyItem?;
    LastOrNone(entry, p);
    var n := LastIndex(entry, p);
    if n >= 0 { assert IsLastKey(entry, n); }
    if m: nat :| IsLastKey(entry, m) && Trim(platform.text(entry[m].key)) == k { LastIs(entry, p, m); }
  }

  lemma EntryValue(platform: Platform, entry: seq<EntryItem>)
    ensures IsValueOf(platform, entry, AttributeValue(platform, MeaningOfEntry(entry)))
  {
    var p := (i: EntryItem) => i.ValueItem?;
    var x := AttributeValue(platform, MeaningOfEntry(entry));
    LastOrNone(entry, p);
    var last := LastIndex(entry, p);
    forall n: nat, i: nat | IsLastValue(entry, n) && IsReported(entry[n].value, i)
      ensures x == ItemValue(platform, entry[n].value[i])
    {
      LastIs(entry, p, n);
      NormalizationReports(platform, entry[n].value, i);
    }
    if last >= 0 && (forall n: nat | IsLastValue(entry, n) :: forall i: nat :: !IsReported(entry[n].value, i)) {
      assert IsLastValue(entry, last);
      NothingReported(platform, entry[last].value);
    }
  }

  lemma {:induction false} AttributesAppend(items: seq<SpanItem>, last: SpanItem)
    ensures AttributesIn(items + [last]) ==
            AttributesIn(items) + if last.AttributeItem? then [MeaningOfEntry(last.attribute)] else []
  {
    var end := if last.AttributeItem? then [MeaningOfEntry(last.attribute)] else [];
    if items == [] {
      assert items + [last] == [last] && [last][1..] == [];
      assert AttributesIn([last]) == end + AttributesIn([]) == end;
    } else {
      var head := if items[0].AttributeItem? then [MeaningOfEntry(items[0].attribute)] else [];
      var others := AttributesIn(items[1..]);
      assert (items + [last])[1..] == items[1..] + [last];
      AttributesAppend(items[1..], last);
      assert AttributesIn(items + [last]) == head + (others + end) == (head + others) + end;
    }
  }

  lemma {:induction false} AttributesAreHeld(platform: Platform, span: seq<SpanItem>, k: string)
    ensures HoldsAttribute(platform, span, k, AttributesOf(platform, AttributesIn(span)))
  {
    if span != [] {
      var init, last := span[..|span| - 1], span[|span| - 1];
      AttributesAreHeld(platform, init, k);
      AttributesAppend(init, last);
      assert span == init + [last];
      OneMoreAttribute(platform, init, last, k);
    }
  }

  lemma OneMoreAttribute(platform: Platform, init: seq<SpanItem>, last: SpanItem, k: string)
    requires HoldsAttribute(platform, init, k, AttributesOf(platform, AttributesIn(init)))
    ensures HoldsAttribute(platform, init + [last], k, AttributesOf(platform, AttributesIn(init + [last])))
  {
    var span := init + [last];
    var before, after := AttributesOf(platform, AttributesIn(init)), AttributesOf(platform, AttributesIn(span));
    AttributesAppend(init, last);
    AttributesOfAppend(platform, AttributesIn(init), last);
    if last.AttributeItem? && k != "" { EntryName(platform, last.attribute, k); }
    if last.AttributeItem? && HasName(platform, last.attribute, k) {
      EntryValue(platform, last.attribute);
      LastOneNames(platform, init, last, k);
      assert IsLastNamed(platform, span, k, |init|) && span[|init|] == last;
    } else {
      OthersNameAsBefore(platform, init, last, k);
    }
  }

  lemma AttributesOfAppend(platform: Platform, attributes: seq<KeyValue>, last: SpanItem)
    ensures var before := AttributesOf(platform, attributes);
            && (!last.AttributeItem? ==> attributes + [] == attributes)
            && (last.AttributeItem? ==>
                  var entry := MeaningOfEntry(last.attribute);
                  AttributesOf(platform, attributes + [entry]) ==
                  if AttributeKey(platform, entry) == "" then before
                  else before[AttributeKey(platform, entry) := AttributeValue(platform, entry)])
  {
    if last.AttributeItem? {
      var entry := MeaningOfEntry(last.attribute);
      assert (attributes + [entry])[..|attributes|] == attributes;
    }
  }

  lemma LastOneNames(platform: Platform, init: seq<SpanItem>, last: SpanItem, k: string)
    requires last.AttributeItem? && HasName(platform, last.attribute, k)
    ensures forall n: nat :: IsLastNamed(platform, init + [last], k, n) <==> n == |init|
  {
    var span := init + [last];
    assert span[|init|] == last;
  }

  lemma OthersNameAsBefore(platform: Platform, init: seq<SpanItem>, last: SpanItem, k: string)
    requires !(last.AttributeItem? && HasName(platform, last.attribute, k))
    ensures forall n: nat :: IsLastNamed(platform, init + [last], k, n) <==> IsLastNamed(platform, init, k, n)
    ensures forall n: nat | n < |init| :: (init + [last])[n] == init[n]
  {
    var span := init + [last];
    assert span[|init|] == last;
    assert forall n: nat | n < |init| :: span[n] == init[n];
  }

  // ---- spans -----------------------------------------------------------------------------

  lemma SpanIsCaptured(platform: Platform, span: seq<SpanItem>)
    ensures var captured := CaptureSpan(platform, MeaningOfSpan(span));
            if IsNamed(platform, span) then |captured| == 1 && Shows(platform, span, captured[0]) else captured == []
  {
    var name, parent := (i: SpanItem) => i.NameItem?, (i: SpanItem) => i.ParentItem?;
    var n := LastIndex(span, name);
    LastOrNone(span, name);
    if n >= 0 {
      assert IsLastName(span, n);
      TrimFacts(platform.text(span[n].name));
    }
    if m: nat :| IsLastName(span, m) && !IsBlank(platform.text(span[m].name)) { LastIs(span, name, m); }
    ParentIsLast(span);
    forall k ensures HoldsAttribute(platform, span, k, AttributesOf(platform, AttributesIn(span))) {
      AttributesAreHeld(platform, span, k);
    }
  }

  lemma ParentIsLast(span: seq<SpanItem>)
    ensures var id := MeaningOfSpan(span).parentSpanId;
            id.Some? && id.value != [] <==> exists n: nat :: IsLastParent(span, n) && span[n].id != []
  {
    var parent := (i: SpanItem) => i.ParentItem?;
    var n := LastIndex(span, parent);
    LastOrNone(span, parent);
    if n >= 0 { assert IsLastParent(span, n); }
    if m: nat :| IsLastParent(span, m) && span[m].id != [] { LastIs(span, parent, m); }
  }

  // ---- all spans -------------------------------------------------------------------------

  /** The spans with a name that is not blank. */
  ghost function Named(platform: Platform, spans: seq<seq<SpanItem>>): seq<seq<SpanItem>> {
    if spans == [] then []
    else (if IsNamed(platform, spans[0]) then [spans[0]] else []) + Named(platform, spans[1..])
  }

  ghost predicate AllShow(platform: Platform, spans: seq<seq<SpanItem>>, captured: seq<CapturedSpan>) {
    |captured| == |spans| && forall i | 0 <= i < |spans| :: Shows(platform, spans[i], captured[i])
  }

  function Meanings(spans: seq<seq<SpanItem>>): seq<Span> {
    if spans == [] then [] else [MeaningOfSpan(spans[0])] + Meanings(spans[1..])
  }

  lemma {:induction false} MeaningsConcat(a: seq<seq<SpanItem>>, b: seq<seq<SpanItem>>)
    ensures Meanings(a + b) == Meanings(a) + Meanings(b)
  {
    if a == [] {
      assert a + b == b;
    } else {
      assert (a + b)[1..] == a[1..] + b;
      MeaningsConcat(a[1..], b);
    }
  }

  lemma {:induction false} ScopeMeanings(scope: ScopeTree)
    ensures MeaningOfScope(scope) == Meanings(SentInScope(scope))
  {
    if scope != [] {
      ScopeMeanings(scope[1..]);
      MeaningsConcat(if scope[0].Known? then [scope[0].message] else [], SentInScope(scope[1..]));
    }
  }

  lemma {:induction false} ResourceMeanings(resource: ResourceTree)
    ensures SpansInResource(resource) == Meanings(SentInResource(resource))
  {
    if resource != [] {
      ResourceMeanings(resource[1..]);
      if resource[0].Known? { ScopeMeanings(resource[0].message); }
      var first := if resource[0].Known? then SentInScope(resource[0].message) else [];
      MeaningsConcat(first, SentInResource(resource[1..]));
    }
  }

  lemma {:induction false} TraceMeanings(trace: TraceTree)
    ensures SpansInTrace(trace) == Meanings(SentSpans(trace))
  {
    if trace != [] {
      TraceMeanings(trace[1..]);
      if trace[0].Known? { ResourceMeanings(trace[0].message); }
      MeaningsConcat(if trace[0].Known? then SentInResource(trace[0].message) else [], SentSpans(trace[1..]));
    }
  }

  lemma {:induction false} EachIsCaptured(platform: Platform, spans: seq<seq<SpanItem>>)
    ensures AllShow(platform, Named(platform, spans), CaptureEach(platform, Meanings(spans)))
  {
    if spans != [] {
      SpanIsCaptured(platform, spans[0]);
      EachIsCaptured(platform, spans[1..]);
      assert Meanings(spans)[1..] == Meanings(spans[1..]);
    }
  }

  /** From the bytes of an encoded request, with unknown fields anywhere, exactly the spans
      with a name are captured, in order, each as it was sent. */
  lemma CapturedAsSent(platform: Platform, trace: TraceTree)
    requires IsValidTrace(trace)
    ensures CapturedSpans(platform, EncodeTrace(trace)).Ok?
    ensures AllShow(platform, Named(platform, SentSpans(trace)), CapturedSpans(platform, EncodeTrace(trace)).value)
  {
    CapturedSpansRoundTrip(platform, trace);
    TraceMeanings(trace);
    EachIsCaptured(platform, SentSpans(trace));
  }
}
