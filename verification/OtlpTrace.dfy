/** From the bytes of a trace request to the captured spans (`decodeTraceRequest`,
    `spanAttributes`, `normalizeOtlpValue`). */
module OtlpTrace {
  import opened JsText
  import opened Octets
  import opened Outcomes
  import opened ProtoWire
  import opened OtlpDecoder
  import opened Parts

  /** What the JavaScript platform supplies: UTF-8 decoding, and numbers as text. */
  datatype Platform = Platform(
    text: Bytes -> string,
    showInt: nat -> string,
    showDouble: Bytes -> string,
    showHex: Bytes -> string)

  datatype Normalized =
    | Text(text: string)
    | Flag(flag: bool)
    | Int(value: nat)
    | Double(bits: Bytes)
    | Texts(texts: seq<string>)

  datatype CapturedSpan = CapturedSpan(name: string, parent: bool, attributes: map<string, Normalized>)

  // ---- normalizing values --------------------------------------------------------------

  function NormalizeOtlpValue(platform: Platform, v: AnyValue): Normalized
    decreases v, 1
  {
    if v.stringValue.Some? then Text(platform.text(v.stringValue.value))
    else if v.boolValue.Some? then Flag(v.boolValue.value)
    else if v.doubleValue.Some? then Double(v.doubleValue.value)
    else if v.intValue.Some? then Int(v.intValue.value)
    else if v.arrayValue.Elements? then Texts(ElementTexts(platform, v.arrayValue.values))
    else if v.kvlistValue.Entries? then Texts(EntryTexts(platform, v.kvlistValue.entries))
    else if v.bytesValue.Some? then Text(platform.showHex(v.bytesValue.value))
    else Text("")
  }

  function ElementTexts(platform: Platform, values: seq<AnyValue>): seq<string>
    decreases values, 0
  {
    if values == [] then []
    else [Show(platform, NormalizeOtlpValue(platform, values[0]))] + ElementTexts(platform, values[1..])
  }

  function EntryTexts(platform: Platform, entries: seq<KeyValue>): seq<string>
    decreases entries, 0
  {
    if entries == [] then [] else [EntryText(platform, entries[0])] + EntryTexts(platform, entries[1..])
  }

  function EntryText(platform: Platform, entry: KeyValue): string
    decreases entry, 1
  {
    (if entry.key.Some? then platform.text(entry.key.value) else "") + "=" +
    Show(platform, SlotValue(platform, entry.value))
  }

  function SlotValue(platform: Platform, slot: ValueSlot): Normalized
    decreases slot, 0
  {
    match slot
    case NoValue => Text("")
    case Value(v) => NormalizeOtlpValue(platform, v)
  }

  /** `String(value)`. */
  function Show(platform: Platform, n: Normalized): string {
    match n
    case Text(text) => text
    case Flag(flag) => if flag then "true" else "false"
    case Int(value) => platform.showInt(value)
    case Double(bits) => platform.showDouble(bits)
    case Texts(texts) => JoinTexts(texts)
  }

  function JoinTexts(texts: seq<string>): string {
    if texts == [] then "" else if |texts| == 1 then texts[0] else texts[0] + "," + JoinTexts(texts[1..])
  }

  lemma EntryTextSays(platform: Platform, entry: KeyValue)
    ensures EntryText(platform, entry) ==
            (match entry.key case None => "" case Some(key) => platform.text(key)) + "=" +
            (match entry.value case NoValue => "" case Value(v) => Show(platform, NormalizeOtlpValue(platform, v)))
  {
    assert Show(platform, SlotValue(platform, entry.value)) ==
           match entry.value case NoValue => "" case Value(v) => Show(platform, NormalizeOtlpValue(platform, v));
  }

  /** Element by element: the text of an array's value, the key and text of a list's entry. */
  lemma {:induction false} NestedTexts(platform: Platform, values: seq<AnyValue>, entries: seq<KeyValue>)
    ensures |ElementTexts(platform, values)| == |values| && |EntryTexts(platform, entries)| == |entries|
    ensures forall i: nat | i < |values| ::
              ElementTexts(platform, values)[i] == Show(platform, NormalizeOtlpValue(platform, values[i]))
    ensures forall i: nat | i < |entries| ::
              EntryTexts(platform, entries)[i] ==
              (match entries[i].key case None => "" case Some(key) => platform.text(key)) + "=" +
              (match entries[i].value
               case NoValue => ""
               case Value(v) => Show(platform, NormalizeOtlpValue(platform, v)))
    decreases |values|, |entries|
  {
    if values != [] {
      NestedTexts(platform, values[1..], entries);
    } else if entries != [] {
      EntryTextSays(platform, entries[0]);
      NestedTexts(platform, values, entries[1..]);
    }
  }

  /** One comma between each two texts, and nothing else. */
  lemma {:induction false} JoinedTexts(a: seq<string>, b: seq<string>, x: string)
    ensures JoinTexts([]) == "" && JoinTexts([x]) == x
    ensures a != [] && b != [] ==> JoinTexts(a + b) == JoinTexts(a) + "," + JoinTexts(b)
  {
    if a != [] && b != [] {
      assert (a + b)[1..] == a[1..] + b;
      if |a| == 1 {
        assert a[1..] + b == b;
      } else {
        JoinedTexts(a[1..], b, x);
        assert a[0] + "," + (JoinTexts(a[1..]) + "," + JoinTexts(b)) == JoinTexts(a) + "," + JoinTexts(b);
      }
    }
  }

  // ---- attributes and spans ------------------------------------------------------------

  function AttributeKey(platform: Platform, attribute: KeyValue): string {
    match attribute.key
    case None => ""
    case Some(s) => Trim(platform.text(s))
  }

  function AttributeValue(platform: Platform, attribute: KeyValue): Normalized {
    SlotValue(platform, attribute.value)
  }

  /** The index of the last item that satisfies `p`, or -1: last one wins. */
  function LastIndex<T>(items: seq<T>, p: T -> bool): (i: int)
    ensures -1 <= i < |items|
    ensures i >= 0 ==> p(items[i])
  {
    if items == [] then -1
    else
      var i := LastIndex(items[1..], p);
      if i >= 0 then i + 1 else if p(items[0]) then 0 else -1
  }

  lemma {:induction false} NoneAfterLast<T>(items: seq<T>, p: T -> bool, j: nat)
    requires LastIndex(items, p) < j < |items|
    ensures !p(items[j])
  {
    if j > 0 { NoneAfterLast(items[1..], p, j - 1); }
  }

  lemma {:induction false} LastIndexAppend<T>(items: seq<T>, x: T, p: T -> bool)
    ensures LastIndex(items + [x], p) == if p(x) then |items| else LastIndex(items, p)
  {
    if items != [] {
      assert (items + [x])[1..] == items[1..] + [x];
      LastIndexAppend(items[1..], x, p);
    }
  }

  function HasKey(platform: Platform, k: string): KeyValue -> bool {
    (a: KeyValue) => AttributeKey(platform, a) == k
  }

  function LastAttribute(platform: Platform, attributes: seq<KeyValue>, k: string): (i: int)
    ensures -1 <= i < |attributes|
  {
    LastIndex(attributes, HasKey(platform, k))
  }

  method SpanAttributes(platform: Platform, span: Span) returns (attributes: map<string, Normalized>)
    ensures attributes == AttributesOf(platform, span.attributes)
  {
    attributes := map[];
    for i := 0 to |span.attributes|
      invariant attributes == AttributesOf(platform, span.attributes[..i])
    {
      assert span.attributes[..i + 1][..i] == span.attributes[..i];
      var key := AttributeKey(platform, span.attributes[i]);
      if key == "" { continue; }
      attributes := attributes[key := AttributeValue(platform, span.attributes[i])];
    }
    assert span.attributes[..|span.attributes|] == span.attributes;
  }

  function AttributesOf(platform: Platform, attributes: seq<KeyValue>): map<string, Normalized> {
    if attributes == [] then map[]
    else
      var init, last := AttributesOf(platform, attributes[..|attributes| - 1]), attributes[|attributes| - 1];
      var key := AttributeKey(platform, last);
      if key == "" then init else init[key := AttributeValue(platform, last)]
  }

  /** The value `map` should hold under `k`, when `k` last occurs at `last`. */
  ghost predicate HoldsLast(platform: Platform, attributes: seq<KeyValue>, k: string, last: int,
      m: map<string, Normalized>)
    requires last < |attributes|
  {
    if k != "" && last >= 0 then k in m && m[k] == AttributeValue(platform, attributes[last]) else k !in m
  }

  /** The attribute map holds each non-blank trimmed key once, with the value of
      the last attribute that has it. */
  lemma {:induction false} AttributesLastWins(platform: Platform, attributes: seq<KeyValue>, k: string)
    ensures HoldsLast(platform, attributes, k, LastAttribute(platform, attributes, k),
            AttributesOf(platform, attributes))
  {
    if attributes != [] {
      var n := |attributes| - 1;
      var init, last := attributes[..n], attributes[n];
      assert attributes == init + [last];
      AttributesLastWins(platform, init, k);
      LastIndexAppend(init, last, HasKey(platform, k));
    }
  }

  function SpanName(platform: Platform, span: Span): string {
    match span.name
    case None => ""
    case Some(s) => Trim(platform.text(s))
  }

  /** The captured form of a span; spans without a name are dropped. */
  function CaptureSpan(platform: Platform, span: Span): seq<CapturedSpan> {
    var name := SpanName(platform, span);
    if name == "" then []
    else [CapturedSpan(name, span.parentSpanId.Some? && span.parentSpanId.value != [],
        AttributesOf(platform, span.attributes))]
  }

  function CaptureScope(platform: Platform, spans: ScopeSpans): seq<CapturedSpan> {
    if spans == [] then [] else CaptureScope(platform, spans[..|spans| - 1]) + CaptureSpan(platform, spans[|spans| - 1])
  }

  function CaptureResource(platform: Platform, scopes: ResourceSpans): seq<CapturedSpan> {
    if scopes == [] then []
    else
      CaptureResource(platform, scopes[..|scopes| - 1]) + CaptureScope(platform, scopes[|scopes| - 1])
  }

  function CaptureAll(platform: Platform, resources: seq<ResourceSpans>): seq<CapturedSpan> {
    if resources == [] then []
    else CaptureAll(platform, resources[..|resources| - 1]) + CaptureResource(platform, resources[|resources| - 1])
  }

  /** The spans captured from a request, or the first error. */
  function CapturedSpans(platform: Platform, body: Bytes): Result<seq<CapturedSpan>> {
    var resources :- DecodeTrace(body);
    Ok(CaptureAll(platform, resources))
  }

  method DecodeTraceRequest(platform: Platform, body: Bytes) returns (r: Result<seq<CapturedSpan>>)
    ensures r == CapturedSpans(platform, body)
  {
    var resources :- DecodeTraceMessage(body);
    var spans: seq<CapturedSpan> := [];
    for i := 0 to |resources|
      invariant spans == CaptureAll(platform, resources[..i])
    {
      assert resources[..i + 1][..i] == resources[..i];
      var found := CaptureResourceSpans(platform, resources[i]);
      spans := spans + found;
    }
    assert resources[..|resources|] == resources;
    return Ok(spans);
  }

  method CaptureResourceSpans(platform: Platform, resource: ResourceSpans) returns (spans: seq<CapturedSpan>)
    ensures spans == CaptureResource(platform, resource)
  {
    spans := [];
    for i := 0 to |resource|
      invariant spans == CaptureResource(platform, resource[..i])
    {
      assert resource[..i + 1][..i] == resource[..i];
      var found := CaptureScopeSpans(platform, resource[i]);
      spans := spans + found;
    }
    assert resource[..|resource|] == resource;
  }

  method CaptureScopeSpans(platform: Platform, scope: ScopeSpans) returns (spans: seq<CapturedSpan>)
    ensures spans == CaptureScope(platform, scope)
  {
    spans := [];
    for i := 0 to |scope|
      invariant spans == CaptureScope(platform, scope[..i])
    {
      assert scope[..i + 1][..i] == scope[..i];
      var span := scope[i];
      var name := SpanName(platform, span);
      if name == "" { continue; }
      var attributes := SpanAttributes(platform, span);
      spans := spans + [CapturedSpan(name, span.parentSpanId.Some? && span.parentSpanId.value != [], attributes)];
    }
    assert scope[..|scope|] == scope;
  }

  // ---- message trees -------------------------------------------------------------------

  /** A message as its sender writes it: fields in any order and number, fields
      the decoder does not know at any place. */
  datatype AnyItem =
    | StringItem(text: Bytes)
    | BoolItem(flag: nat)
    | IntItem(number: nat)
    | DoubleItem(bits: Bytes)
    | ArrayItem(elements: seq<ArrayElement>)
    | ListItem(entries: seq<ListElement>)
    | BytesItem(bytes: Bytes)
    | OtherAny(field: WireField)

  datatype ArrayElement = ValueElement(value: seq<AnyItem>) | OtherElement(field: WireField)

  datatype ListElement = EntryElement(entry: seq<EntryItem>) | OtherEntry(field: WireField)

  datatype EntryItem = KeyItem(key: Bytes) | ValueItem(value: seq<AnyItem>) | OtherInEntry(field: WireField)

  datatype SpanItem =
    | ParentItem(id: Bytes)
    | NameItem(name: Bytes)
    | AttributeItem(attribute: seq<EntryItem>)
    | OtherInSpan(field: WireField)

  type ScopeTree = seq<Part<seq<SpanItem>>>
  type ResourceTree = seq<Part<ScopeTree>>
  type TraceTree = seq<Part<ResourceTree>>

  // ---- encoding, by the field numbers of opentelemetry-proto ---------------------------

  function AnyField(item: AnyItem): WireField
    decreases item, 0
  {
    match item
    case StringItem(s) => LenField(1, s)
    case BoolItem(n) => VarintField(2, n)
    case IntItem(n) => VarintField(3, n)
    case DoubleItem(bits) => Fixed64Field(4, bits)
    case ArrayItem(elements) => LenField(5, EncodeFields(ArrayFields(elements)))
    case ListItem(entries) => LenField(6, EncodeFields(ListFields(entries)))
    case BytesItem(s) => LenField(7, s)
    case OtherAny(f) => f
  }

  function AnyFields(items: seq<AnyItem>): seq<WireField>
    decreases items, 1
  {
    if items == [] then [] else [AnyField(items[0])] + AnyFields(items[1..])
  }

  function ArrayFields(elements: seq<ArrayElement>): seq<WireField>
    decreases elements, 1
  {
    if elements == [] then []
    else
      [match elements[0]
       case ValueElement(value) => LenField(1, EncodeFields(AnyFields(value)))
       case OtherElement(f) => f] + ArrayFields(elements[1..])
  }

  function ListFields(entries: seq<ListElement>): seq<WireField>
    decreases entries, 1
  {
    if entries == [] then []
    else
      [match entries[0]
       case EntryElement(entry) => LenField(1, EncodeFields(EntryFields(entry)))
       case OtherEntry(f) => f] + ListFields(entries[1..])
  }

  function EntryFields(items: seq<EntryItem>): seq<WireField>
    decreases items, 1
  {
    if items == [] then []
    else
      [match items[0]
       case KeyItem(s) => LenField(1, s)
       case ValueItem(value) => LenField(2, EncodeFields(AnyFields(value)))
       case OtherInEntry(f) => f] + EntryFields(items[1..])
  }

  function SpanFields(items: seq<SpanItem>): seq<WireField> {
    if items == [] then []
    else
      [match items[0]
       case ParentItem(s) => LenField(4, s)
       case NameItem(s) => LenField(5, s)
       case AttributeItem(attribute) => LenField(9, EncodeFields(EntryFields(attribute)))
       case OtherInSpan(f) => f] + SpanFields(items[1..])
  }

  function EncodeSpan(span: seq<SpanItem>): Bytes { EncodeFields(SpanFields(span)) }

  function EncodeScope(scope: ScopeTree): Bytes { EncodeFields(PartFields(2, EncodeSpan, scope)) }

  function EncodeResource(resource: ResourceTree): Bytes { EncodeFields(PartFields(2, EncodeScope, resource)) }

  function EncodeTrace(trace: TraceTree): Bytes { EncodeFields(PartFields(1, EncodeResource, trace)) }

  // ---- meaning ---------------------------------------------------------------------------

  datatype AnyKind = StringKind | BoolKind | DoubleKind | IntKind | ArrayKind | ListKind | BytesKind | OtherKind

  function KindOf(item: AnyItem): AnyKind {
    match item
    case StringItem(_) => StringKind
    case BoolItem(_) => BoolKind
    case IntItem(_) => IntKind
    case DoubleItem(_) => DoubleKind
    case ArrayItem(_) => ArrayKind
    case ListItem(_) => ListKind
    case BytesItem(_) => BytesKind
    case OtherAny(_) => OtherKind
  }

  function LastOfKind(items: seq<AnyItem>, kind: AnyKind): (i: int)
    ensures -1 <= i < |items|
    ensures i >= 0 ==> KindOf(items[i]) == kind
  {
    LastIndex(items, (item: AnyItem) => KindOf(item) == kind)
  }

  function MeaningOfAny(items: seq<AnyItem>): AnyValue
    decreases items, 1
  {
    var s, b, i, d := LastOfKind(items, StringKind), LastOfKind(items, BoolKind), LastOfKind(items, IntKind),
        LastOfKind(items, DoubleKind);
    var a, l, y := LastOfKind(items, ArrayKind), LastOfKind(items, ListKind), LastOfKind(items, BytesKind);
    AnyValue(
      if s >= 0 then Some(items[s].text) else None,
      if b >= 0 then Some(items[b].flag != 0) else None,
      if i >= 0 then Some(items[i].number) else None,
      if d >= 0 then Some(items[d].bits) else None,
      if a >= 0 then Elements(MeaningOfArray(items[a].elements)) else NoArray,
      if l >= 0 then Entries(MeaningOfList(items[l].entries)) else NoList,
      if y >= 0 then Some(items[y].bytes) else None)
  }

  function MeaningOfArray(elements: seq<ArrayElement>): seq<AnyValue>
    decreases elements, 1
  {
    if elements == [] then []
    else
      (match elements[0] case ValueElement(value) => [MeaningOfAny(value)] case OtherElement(_) => []) +
      MeaningOfArray(elements[1..])
  }

  function MeaningOfList(entries: seq<ListElement>): seq<KeyValue>
    decreases entries, 1
  {
    if entries == [] then []
    else
      (match entries[0] case EntryElement(entry) => [MeaningOfEntry(entry)] case OtherEntry(_) => []) +
      MeaningOfList(entries[1..])
  }

  function MeaningOfEntry(items: seq<EntryItem>): KeyValue
    decreases items, 1
  {
    var k, v := LastIndex(items, (i: EntryItem) => i.KeyItem?), LastIndex(items, (i: EntryItem) => i.ValueItem?);
    KeyValue(if k >= 0 then Some(items[k].key) else None,
             if v >= 0 then Value(MeaningOfAny(items[v].value)) else NoValue)
  }

  function MeaningOfSpan(items: seq<SpanItem>): Span {
    var p, n := LastIndex(items, (i: SpanItem) => i.ParentItem?), LastIndex(items, (i: SpanItem) => i.NameItem?);
    Span(if p >= 0 then Some(items[p].id) else None, if n >= 0 then Some(items[n].name) else None, AttributesIn(items))
  }

  function AttributesIn(items: seq<SpanItem>): seq<KeyValue> {
    if items == [] then []
    else (if items[0].AttributeItem? then [MeaningOfEntry(items[0].attribute)] else []) + AttributesIn(items[1..])
  }

  function OneSpan(span: seq<SpanItem>): seq<Span> { [MeaningOfSpan(span)] }

  function MeaningOfScope(scope: ScopeTree): ScopeSpans { PartItems(OneSpan, scope) }

  function OneScope(scope: ScopeTree): seq<ScopeSpans> { [MeaningOfScope(scope)] }

  function MeaningOfResource(resource: ResourceTree): ResourceSpans { PartItems(OneScope, resource) }

  function OneResource(resource: ResourceTree): seq<ResourceSpans> { [MeaningOfResource(resource)] }

  function MeaningOfTrace(trace: TraceTree): seq<ResourceSpans> { PartItems(OneResource, trace) }

  // ---- well-formed trees -----------------------------------------------------------------

  predicate IsKnownInAny(f: WireField) {
    (f.LenField? && f.number in {1, 5, 6, 7}) || (f.VarintField? && f.number in {2, 3})
        || (f.Fixed64Field? && f.number == 4)
  }

  ghost predicate IsValidAny(items: seq<AnyItem>)
    decreases items, 1
  {
    forall i | 0 <= i < |items| :: IsValidAnyItem(items[i])
  }

  ghost predicate IsValidAnyItem(item: AnyItem)
    decreases item, 0
  {
    && IsEncodable(AnyField(item))
    && (item.ArrayItem? ==> IsValidArray(item.elements))
    && (item.ListItem? ==> IsValidList(item.entries))
    && (item.OtherAny? ==> !IsKnownInAny(item.field))
  }

  ghost predicate IsValidArray(elements: seq<ArrayElement>)
    decreases elements, 1
  {
    && (forall f | f in ArrayFields(elements) :: IsEncodable(f))
    && forall i | 0 <= i < |elements| ::
         match elements[i]
         case ValueElement(value) => IsValidAny(value)
         case OtherElement(f) => !(f.LenField? && f.number == 1)
  }

  ghost predicate IsValidList(entries: seq<ListElement>)
    decreases entries, 1
  {
    && (forall f | f in ListFields(entries) :: IsEncodable(f))
    && forall i | 0 <= i < |entries| ::
         match entries[i]
         case EntryElement(entry) => IsValidEntry(entry)
         case OtherEntry(f) => !(f.LenField? && f.number == 1)
  }

  ghost predicate IsValidEntry(items: seq<EntryItem>)
    decreases items, 1
  {
    && (forall f | f in EntryFields(items) :: IsEncodable(f))
    && forall i | 0 <= i < |items| ::
         match items[i]
         case KeyItem(_) => true
         case ValueItem(value) => IsValidAny(value)
         case OtherInEntry(f) => !(f.LenField? && f.number in {1, 2})
  }

  ghost predicate IsValidSpan(items: seq<SpanItem>) {
    && (forall f | f in SpanFields(items) :: IsEncodable(f))
    && forall i | 0 <= i < |items| ::
         match items[i]
         case ParentItem(_) => true
         case NameItem(_) => true
         case AttributeItem(attribute) => IsValidEntry(attribute)
         case OtherInSpan(f) => !(f.LenField? && f.number in {4, 5, 9})
  }

  ghost predicate IsValidScope(scope: ScopeTree) { AreValidParts(2, EncodeSpan, IsValidSpan, scope) }

  ghost predicate IsValidResource(resource: ResourceTree) { AreValidParts(2, EncodeScope, IsValidScope, resource) }

  ghost predicate IsValidTrace(trace: TraceTree) { AreValidParts(1, EncodeResource, IsValidResource, trace) }
}
