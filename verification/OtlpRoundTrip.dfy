/** Encoding a trace request, with fields the decoder does not know at any place,
    and decoding it again. */
module OtlpRoundTrip {
  import opened Octets
  import opened Outcomes
  import opened ProtoWire
  import opened OtlpDecoder
  import opened Parts
  import opened OtlpTrace

  /** A message whose fields are `fields`, decoded. */
  function Decoded<T>(step: (T, WireField) -> Result<T>, empty: T, fields: seq<WireField>): Result<T> {
    Fold(step, empty, Scan(fields, None))
  }

  /** The first field handled alone, then the rest merged onto it. */
  lemma DecodedFirst<T(!new)>(step: (T, WireField) -> Result<T>, empty: T, merge: (T, T) -> T,
                              first: WireField, rest: seq<WireField>)
    requires Distributes(step, empty, merge)
    ensures Decoded(step, empty, [first] + rest) == Merged(step(empty, first), Decoded(step, empty, rest), merge)
  {
    var scan := Scan([first] + rest, None);
    assert Tail(scan) == Scan(rest, None);
    if step(empty, first).Ok? {
      FoldMerges(step, empty, merge, step(empty, first).value, Scan(rest, None));
    }
  }

  // ---- values ----------------------------------------------------------------------------

  lemma LastInCons<T>(first: T, rest: seq<T>, p: T -> bool)
    ensures LastIndex([first] + rest, p) ==
            if LastIndex(rest, p) >= 0 then LastIndex(rest, p) + 1 else if p(first) then 0 else -1
  {
    assert ([first] + rest)[1..] == rest;
  }

  lemma LastKindInCons(first: AnyItem, rest: seq<AnyItem>, kind: AnyKind)
    ensures LastOfKind([first] + rest, kind) ==
            if LastOfKind(rest, kind) >= 0 then LastOfKind(rest, kind) + 1
            else if KindOf(first) == kind then 0 else -1
  {
    LastInCons(first, rest, (item: AnyItem) => KindOf(item) == kind);
  }

  lemma MeaningOfAnyCons(first: AnyItem, rest: seq<AnyItem>)
    ensures MeaningOfAny([first] + rest) == MergeAny(MeaningOfAny([first]), MeaningOfAny(rest))
  {
    var none: seq<AnyItem> := [];
    assert [first] + none == [first];
    ScalarsInCons(first, rest, none);
    NumbersInCons(first, rest, none);
    NestedInCons(first, rest, none);
  }

  lemma ScalarsInCons(first: AnyItem, rest: seq<AnyItem>, none: seq<AnyItem>)
    requires none == []
    ensures var whole, one, others := MeaningOfAny([first] + rest), MeaningOfAny([first] + none), MeaningOfAny(rest);
            && whole.stringValue == Later(one.stringValue, others.stringValue)
            && whole.bytesValue == Later(one.bytesValue, others.bytesValue)
  {
    LastKindInCons(first, rest, StringKind); LastKindInCons(first, none, StringKind);
    LastKindInCons(first, rest, BytesKind);  LastKindInCons(first, none, BytesKind);
  }

  lemma NumbersInCons(first: AnyItem, rest: seq<AnyItem>, none: seq<AnyItem>)
    requires none == []
    ensures var whole, one, others := MeaningOfAny([first] + rest), MeaningOfAny([first] + none), MeaningOfAny(rest);
            && whole.boolValue == Later(one.boolValue, others.boolValue)
            && whole.intValue == Later(one.intValue, others.intValue)
            && whole.doubleValue == Later(one.doubleValue, others.doubleValue)
  {
    LastKindInCons(first, rest, BoolKind);   LastKindInCons(first, none, BoolKind);
    LastKindInCons(first, rest, IntKind);    LastKindInCons(first, none, IntKind);
    LastKindInCons(first, rest, DoubleKind); LastKindInCons(first, none, DoubleKind);
  }

  lemma NestedInCons(first: AnyItem, rest: seq<AnyItem>, none: seq<AnyItem>)
    requires none == []
    ensures var whole, one, others := MeaningOfAny([first] + rest), MeaningOfAny([first] + none), MeaningOfAny(rest);
            && whole.arrayValue == (if others.arrayValue.Elements? then others.arrayValue else one.arrayValue)
            && whole.kvlistValue == (if others.kvlistValue.Entries? then others.kvlistValue else one.kvlistValue)
  {
    LastKindInCons(first, rest, ArrayKind);  LastKindInCons(first, none, ArrayKind);
    LastKindInCons(first, rest, ListKind);   LastKindInCons(first, none, ListKind);
  }

  lemma {:induction false} AnyFieldsEncodable(items: seq<AnyItem>)
    requires IsValidAny(items)
    ensures forall f | f in AnyFields(items) :: IsEncodable(f)
  {
    if items != [] {
      assert IsValidAnyItem(items[0]);
      assert IsValidAny(items[1..]) by { assert forall i | 0 <= i < |items[1..]| :: items[1..][i] == items[i + 1]; }
      AnyFieldsEncodable(items[1..]);
    }
  }

  lemma KindAlone(item: AnyItem, kind: AnyKind)
    ensures LastOfKind([item], kind) == if KindOf(item) == kind then 0 else -1
  {
    var none: seq<AnyItem> := [];
    assert [item] + none == [item];
    LastKindInCons(item, none, kind);
  }

  lemma ScalarsAlone(item: AnyItem)
    ensures MeaningOfAny([item]).stringValue == if item.StringItem? then Some(item.text) else None
    ensures MeaningOfAny([item]).bytesValue == if item.BytesItem? then Some(item.bytes) else None
  {
    KindAlone(item, StringKind);
    KindAlone(item, BytesKind);
  }

  lemma NumbersAlone(item: AnyItem)
    ensures MeaningOfAny([item]).boolValue == if item.BoolItem? then Some(item.flag != 0) else None
    ensures MeaningOfAny([item]).intValue == if item.IntItem? then Some(item.number) else None
    ensures MeaningOfAny([item]).doubleValue == if item.DoubleItem? then Some(item.bits) else None
  {
    KindAlone(item, BoolKind);
    KindAlone(item, IntKind);
    KindAlone(item, DoubleKind);
  }

  lemma NestedAlone(item: AnyItem)
    ensures MeaningOfAny([item]).arrayValue ==
            if item.ArrayItem? then Elements(MeaningOfArray(item.elements)) else NoArray
    ensures MeaningOfAny([item]).kvlistValue ==
            if item.ListItem? then Entries(MeaningOfList(item.entries)) else NoList
  {
    KindAlone(item, ArrayKind);
    KindAlone(item, ListKind);
  }

  /** One item, encoded as a field and handled by the decoder. */
  lemma {:induction false} AnyItemStep(item: AnyItem)
    requires IsValidAnyItem(item)
    ensures AnyStep(EMPTY_ANY, AnyField(item)) == Ok(MeaningOfAny([item]))
    decreases item, 0
  {
    ScalarsAlone(item);
    NumbersAlone(item);
    NestedAlone(item);
    match item
    case ArrayItem(elements) => ArrayRoundTrip(elements);
    case ListItem(entries) => ListRoundTrip(entries);
    case _ =>
  }

  lemma {:induction false} AnyItemsDecode(items: seq<AnyItem>)
    requires IsValidAny(items)
    ensures Decoded(AnyStep, EMPTY_ANY, AnyFields(items)) == Ok(MeaningOfAny(items))
    decreases items, 1
  {
    if items != [] {
      assert IsValidAnyItem(items[0]);
      assert IsValidAny(items[1..]) by { assert forall i | 0 <= i < |items[1..]| :: items[1..][i] == items[i + 1]; }
      AnyItemStep(items[0]);
      AnyItemsDecode(items[1..]);
      AnyDistributes();
      DecodedFirst(AnyStep, EMPTY_ANY, MergeAny, AnyField(items[0]), AnyFields(items[1..]));
      MeaningOfAnyCons(items[0], items[1..]);
      assert items == [items[0]] + items[1..];
    }
  }

  lemma {:induction false} AnyRoundTrip(items: seq<AnyItem>)
    requires IsValidAny(items)
    ensures DecodeAny(EncodeFields(AnyFields(items))) == Ok(MeaningOfAny(items))
    decreases items, 2
  {
    AnyFieldsEncodable(items);
    MessageRoundTrip(AnyFields(items));
    AnyItemsDecode(items);
    DecodersAreFolds(EncodeFields(AnyFields(items)));
  }

  lemma {:induction false} ArrayRoundTrip(elements: seq<ArrayElement>)
    requires IsValidArray(elements)
    ensures DecodeArray(EncodeFields(ArrayFields(elements))) == Ok(MeaningOfArray(elements))
    decreases elements, 2
  {
    MessageRoundTrip(ArrayFields(elements));
    DecodersAreFolds(EncodeFields(ArrayFields(elements)));
    ArrayItemsDecode(elements);
  }

  lemma ArrayTail(elements: seq<ArrayElement>)
    requires IsValidArray(elements) && elements != []
    ensures IsValidArray(elements[1..])
    ensures elements[0].ValueElement? ==> IsValidAny(elements[0].value)
  {
    assert forall i | 0 <= i < |elements[1..]| :: elements[1..][i] == elements[i + 1];
  }

  lemma {:induction false} ArrayItemsDecode(elements: seq<ArrayElement>)
    requires IsValidArray(elements)
    ensures Decoded(ArrayStep, [], ArrayFields(elements)) == Ok(MeaningOfArray(elements))
    decreases elements, 1
  {
    if elements != [] {
      ArrayTail(elements);
      ArrayDistributes();
      ArrayItemsDecode(elements[1..]);
      var field := ArrayFields(elements)[0];
      var head := if elements[0].ValueElement? then [MeaningOfAny(elements[0].value)] else [];
      if elements[0].ValueElement? { AnyRoundTrip(elements[0].value); }
      assert ArrayStep([], field) == Ok(head) by { assert [] + head == head; }
      assert ArrayFields(elements) == [field] + ArrayFields(elements[1..]);
      DecodedFirst(ArrayStep, [], Append, field, ArrayFields(elements[1..]));
    }
  }

  lemma {:induction false} ListRoundTrip(entries: seq<ListElement>)
    requires IsValidList(entries)
    ensures DecodeList(EncodeFields(ListFields(entries))) == Ok(MeaningOfList(entries))
    decreases entries, 2
  {
    MessageRoundTrip(ListFields(entries));
    DecodersAreFolds(EncodeFields(ListFields(entries)));
    ListItemsDecode(entries);
  }

  lemma ListTail(entries: seq<ListElement>)
    requires IsValidList(entries) && entries != []
    ensures IsValidList(entries[1..])
    ensures entries[0].EntryElement? ==> IsValidEntry(entries[0].entry)
  {
    assert forall i | 0 <= i < |entries[1..]| :: entries[1..][i] == entries[i + 1];
  }

  lemma {:induction false} ListItemsDecode(entries: seq<ListElement>)
    requires IsValidList(entries)
    ensures Decoded(ListStep, [], ListFields(entries)) == Ok(MeaningOfList(entries))
    decreases entries, 1
  {
    if entries != [] {
      ListTail(entries);
      ListDistributes();
      ListItemsDecode(entries[1..]);
      var field := ListFields(entries)[0];
      var head := if entries[0].EntryElement? then [MeaningOfEntry(entries[0].entry)] else [];
      if entries[0].EntryElement? { EntryRoundTrip(entries[0].entry); }
      assert ListStep([], field) == Ok(head) by { assert [] + head == head; }
      assert ListFields(entries) == [field] + ListFields(entries[1..]);
      DecodedFirst(ListStep, [], Append, field, ListFields(entries[1..]));
    }
  }

  lemma MeaningOfEntryCons(first: EntryItem, rest: seq<EntryItem>)
    ensures MeaningOfEntry([first] + rest) == MergeKeyValue(MeaningOfEntry([first]), MeaningOfEntry(rest))
  {
    KeyInCons(first, rest);
    ValueInCons(first, rest);
  }

  lemma KeyInCons(first: EntryItem, rest: seq<EntryItem>)
    ensures MeaningOfEntry([first] + rest).key ==
            MergeKeyValue(MeaningOfEntry([first]), MeaningOfEntry(rest)).key
  {
    var none: seq<EntryItem> := [];
    assert [first] + none == [first];
    LastInCons(first, rest, (i: EntryItem) => i.KeyItem?);
    LastInCons(first, none, (i: EntryItem) => i.KeyItem?);
  }

  lemma ValueInCons(first: EntryItem, rest: seq<EntryItem>)
    ensures MeaningOfEntry([first] + rest).value ==
            MergeKeyValue(MeaningOfEntry([first]), MeaningOfEntry(rest)).value
  {
    var none: seq<EntryItem> := [];
    assert [first] + none == [first];
    LastInCons(first, rest, (i: EntryItem) => i.ValueItem?);
    LastInCons(first, none, (i: EntryItem) => i.ValueItem?);
  }

  lemma {:induction false} EntryItemsDecode(items: seq<EntryItem>)
    requires IsValidEntry(items)
    ensures Decoded(EntryStep, EMPTY_KEY_VALUE, EntryFields(items)) == Ok(MeaningOfEntry(items))
    decreases items, 1
  {
    if items != [] {
      var first, rest := items[0], items[1..];
      assert IsValidEntry(rest) by { assert forall i | 0 <= i < |rest| :: rest[i] == items[i + 1]; }
      if first.ValueItem? { AnyRoundTrip(first.value); }
      EntryItemsDecode(rest);
      EntryDistributes();
      DecodedFirst(EntryStep, EMPTY_KEY_VALUE, MergeKeyValue, EntryFields(items)[0], EntryFields(rest));
      MeaningOfEntryCons(first, rest);
      MeaningOfEntryAlone(first);
      assert items == [first] + rest;
    }
  }

  lemma MeaningOfEntryAlone(item: EntryItem)
    ensures MeaningOfEntry([item]) ==
            match item
            case KeyItem(key) => KeyValue(Some(key), NoValue)
            case ValueItem(value) => KeyValue(None, Value(MeaningOfAny(value)))
            case OtherInEntry(_) => EMPTY_KEY_VALUE
  {
    var none: seq<EntryItem> := [];
    assert [item] + none == [item];
    LastInCons(item, none, (i: EntryItem) => i.KeyItem?);
    LastInCons(item, none, (i: EntryItem) => i.ValueItem?);
  }

  lemma {:induction false} EntryRoundTrip(items: seq<EntryItem>)
    requires IsValidEntry(items)
    ensures DecodeEntry(EncodeFields(EntryFields(items))) == Ok(MeaningOfEntry(items))
    decreases items, 2
  {
    MessageRoundTrip(EntryFields(items));
    DecodersAreFolds(EncodeFields(EntryFields(items)));
    EntryItemsDecode(items);
  }

  // ---- spans and their containers ----------------------------------------------------------

  lemma MeaningOfSpanCons(first: SpanItem, rest: seq<SpanItem>)
    ensures MeaningOfSpan([first] + rest) == MergeSpan(MeaningOfSpan([first]), MeaningOfSpan(rest))
  {
    var none: seq<SpanItem> := [];
    assert [first] + none == [first];
    LastInCons(first, rest, (i: SpanItem) => i.ParentItem?); LastInCons(first, none, (i: SpanItem) => i.ParentItem?);
    LastInCons(first, rest, (i: SpanItem) => i.NameItem?);   LastInCons(first, none, (i: SpanItem) => i.NameItem?);
    assert ([first] + rest)[1..] == rest && [first][1..] == none;
    var head := if first.AttributeItem? then [MeaningOfEntry(first.attribute)] else [];
    assert AttributesIn([first]) == head + AttributesIn(none) == head;
    assert AttributesIn([first] + rest) == head + AttributesIn(rest);
  }

  lemma MeaningOfSpanAlone(item: SpanItem)
    ensures MeaningOfSpan([item]) ==
            match item
            case ParentItem(id) => Span(Some(id), None, [])
            case NameItem(name) => Span(None, Some(name), [])
            case AttributeItem(attribute) => Span(None, None, [MeaningOfEntry(attribute)])
            case OtherInSpan(_) => EMPTY_SPAN
  {
    var none: seq<SpanItem> := [];
    assert [item] + none == [item];
    LastInCons(item, none, (i: SpanItem) => i.ParentItem?);
    LastInCons(item, none, (i: SpanItem) => i.NameItem?);
    assert AttributesIn(none) == [];
  }

  lemma SpanItemStep(item: SpanItem)
    requires IsValidSpan([item])
    ensures SpanStep(EMPTY_SPAN, SpanFields([item])[0]) == Ok(MeaningOfSpan([item]))
  {
    MeaningOfSpanAlone(item);
    assert [item][0] == item;
    if item.AttributeItem? {
      EntryRoundTrip(item.attribute);
      assert [] + [MeaningOfEntry(item.attribute)] == [MeaningOfEntry(item.attribute)];
    }
  }

  lemma SpanTail(items: seq<SpanItem>)
    requires IsValidSpan(items) && items != []
    ensures IsValidSpan([items[0]]) && IsValidSpan(items[1..])
    ensures SpanFields(items) == SpanFields([items[0]]) + SpanFields(items[1..])
  {
    assert forall i | 0 <= i < |items[1..]| :: items[1..][i] == items[i + 1];
    assert SpanFields([items[0]]) == [SpanFields(items)[0]];
  }

  lemma {:induction false} SpanItemsDecode(items: seq<SpanItem>)
    requires IsValidSpan(items)
    ensures Decoded(SpanStep, EMPTY_SPAN, SpanFields(items)) == Ok(MeaningOfSpan(items))
  {
    if items != [] {
      SpanTail(items);
      SpanItemStep(items[0]);
      SpanItemsDecode(items[1..]);
      SpanDistributes();
      DecodedFirst(SpanStep, EMPTY_SPAN, MergeSpan, SpanFields([items[0]])[0], SpanFields(items[1..]));
      MeaningOfSpanCons(items[0], items[1..]);
      assert items == [items[0]] + items[1..];
    }
  }

  lemma SpanRoundTrip(items: seq<SpanItem>)
    requires IsValidSpan(items)
    ensures DecodeSpan(EncodeFields(SpanFields(items))) == Ok(MeaningOfSpan(items))
  {
    MessageRoundTrip(SpanFields(items));
    SpanItemsDecode(items);
  }

  lemma ScopeRoundTrip(scope: ScopeTree)
    requires IsValidScope(scope)
    ensures DecodeScopeSpans(EncodeScope(scope)) == Ok(MeaningOfScope(scope))
  {
    forall span | IsValidSpan(span) ensures Single(DecodeSpan)(EncodeSpan(span)) == Ok(OneSpan(span)) {
      SpanRoundTrip(span);
      SingleOk(DecodeSpan, EncodeSpan(span), MeaningOfSpan(span));
    }
    PartsRoundTrip(2, EncodeSpan, IsValidSpan, Single(DecodeSpan), OneSpan, scope);
  }

  lemma ResourceRoundTrip(resource: ResourceTree)
    requires IsValidResource(resource)
    ensures DecodeResourceSpans(EncodeResource(resource)) == Ok(MeaningOfResource(resource))
  {
    forall scope | IsValidScope(scope) ensures Single(DecodeScopeSpans)(EncodeScope(scope)) == Ok(OneScope(scope)) {
      ScopeRoundTrip(scope);
      SingleOk(DecodeScopeSpans, EncodeScope(scope), MeaningOfScope(scope));
    }
    PartsRoundTrip(2, EncodeScope, IsValidScope, Single(DecodeScopeSpans), OneScope, resource);
  }

  /** The whole request: encoded with its unknown fields and decoded, it has the
      spans of the tree, grouped and ordered as written. */
  lemma TraceRoundTrip(trace: TraceTree)
    requires IsValidTrace(trace)
    ensures IsWellFormed(EncodeTrace(trace))
    ensures DecodeTrace(EncodeTrace(trace)) == Ok(MeaningOfTrace(trace))
  {
    forall resource | IsValidResource(resource)
      ensures Single(DecodeResourceSpans)(EncodeResource(resource)) == Ok(OneResource(resource))
    {
      ResourceRoundTrip(resource);
      SingleOk(DecodeResourceSpans, EncodeResource(resource), MeaningOfResource(resource));
    }
    PartsAreScanned(1, EncodeResource, IsValidResource, trace);
    PartsRoundTrip(1, EncodeResource, IsValidResource, Single(DecodeResourceSpans), OneResource, trace);
  }

  // ---- the captured spans ------------------------------------------------------------------

  /** The spans of a request, in the order they were written. */
  function SpansInResource(resource: ResourceTree): seq<Span> { PartItems(MeaningOfScope, resource) }

  function SpansInTrace(trace: TraceTree): seq<Span> { PartItems(SpansInResource, trace) }

  /** All spans with a non-blank name, under that name trimmed. */
  function CaptureEach(platform: Platform, spans: seq<Span>): seq<CapturedSpan> {
    if spans == [] then [] else CaptureSpan(platform, spans[0]) + CaptureEach(platform, spans[1..])
  }

  lemma {:induction false} CaptureEachConcat(platform: Platform, a: seq<Span>, b: seq<Span>)
    ensures CaptureEach(platform, a + b) == CaptureEach(platform, a) + CaptureEach(platform, b)
  {
    if a == [] {
      assert a + b == b;
    } else {
      assert (a + b)[1..] == a[1..] + b;
      CaptureEachConcat(platform, a[1..], b);
    }
  }

  lemma {:induction false} CaptureScopeIsEach(platform: Platform, spans: ScopeSpans)
    ensures CaptureScope(platform, spans) == CaptureEach(platform, spans)
  {
    if spans != [] {
      var n := |spans| - 1;
      CaptureScopeIsEach(platform, spans[..n]);
      CaptureEachAppend(platform, spans[..n], spans[n]);
      FrontAndLast(spans);
    }
  }

  lemma FrontAndLast<T>(s: seq<T>)
    requires s != []
    ensures s[..|s| - 1] + [s[|s| - 1]] == s
  {
  }

  lemma CaptureEachAppend(platform: Platform, spans: seq<Span>, last: Span)
    ensures CaptureEach(platform, spans + [last]) == CaptureEach(platform, spans) + CaptureSpan(platform, last)
  {
    CaptureEachConcat(platform, spans, [last]);
    CaptureEachOne(platform, last);
  }

  lemma CaptureEachOne(platform: Platform, span: Span)
    ensures CaptureEach(platform, [span]) == CaptureSpan(platform, span)
  {
    assert [span][1..] == [];
    assert CaptureEach(platform, [span]) == CaptureSpan(platform, span) + CaptureEach(platform, []);
  }

  function Flatten<T>(parts: seq<seq<T>>): seq<T> {
    if parts == [] then [] else parts[0] + Flatten(parts[1..])
  }

  lemma {:induction false} FlattenAppend<T>(parts: seq<seq<T>>, last: seq<T>)
    ensures Flatten(parts + [last]) == Flatten(parts) + last
  {
    if parts == [] {
      assert parts + [last] == [last] && [last][1..] == [];
    } else {
      assert (parts + [last])[1..] == parts[1..] + [last];
      FlattenAppend(parts[1..], last);
    }
  }

  lemma FlattenLast<T>(parts: seq<seq<T>>)
    requires parts != []
    ensures Flatten(parts) == Flatten(parts[..|parts| - 1]) + parts[|parts| - 1]
  {
    assert parts == parts[..|parts| - 1] + [parts[|parts| - 1]];
    FlattenAppend(parts[..|parts| - 1], parts[|parts| - 1]);
  }

  lemma {:induction false} CaptureResourceIsEach(platform: Platform, scopes: ResourceSpans)
    ensures CaptureResource(platform, scopes) == CaptureEach(platform, Flatten(scopes))
  {
    if scopes != [] {
      var n := |scopes| - 1;
      CaptureResourceIsEach(platform, scopes[..n]);
      CaptureScopeIsEach(platform, scopes[n]);
      FlattenLast(scopes);
      CaptureEachConcat(platform, Flatten(scopes[..n]), scopes[n]);
    }
  }

  function FlattenAll(resources: seq<ResourceSpans>): seq<Span> {
    if resources == [] then [] else Flatten(resources[0]) + FlattenAll(resources[1..])
  }

  lemma {:induction false} FlattenAllAppend(resources: seq<ResourceSpans>, last: ResourceSpans)
    ensures FlattenAll(resources + [last]) == FlattenAll(resources) + Flatten(last)
  {
    if resources == [] {
      assert resources + [last] == [last] && [last][1..] == [];
    } else {
      assert (resources + [last])[1..] == resources[1..] + [last];
      FlattenAllAppend(resources[1..], last);
    }
  }

  lemma {:induction false} CaptureAllIsEach(platform: Platform, resources: seq<ResourceSpans>)
    ensures CaptureAll(platform, resources) == CaptureEach(platform, FlattenAll(resources))
  {
    if resources != [] {
      var init, last := resources[..|resources| - 1], resources[|resources| - 1];
      CaptureAllIsEach(platform, init);
      CaptureResourceIsEach(platform, last);
      FlattenAllLast(resources);
      CaptureEachConcat(platform, FlattenAll(init), Flatten(last));
    }
  }

  lemma FlattenAllLast(resources: seq<ResourceSpans>)
    requires resources != []
    ensures FlattenAll(resources) == FlattenAll(resources[..|resources| - 1]) + Flatten(resources[|resources| - 1])
  {
    assert resources == resources[..|resources| - 1] + [resources[|resources| - 1]];
    FlattenAllAppend(resources[..|resources| - 1], resources[|resources| - 1]);
  }

  lemma {:induction false} ResourceSpansAgree(resource: ResourceTree)
    ensures Flatten(MeaningOfResource(resource)) == SpansInResource(resource)
  {
    if resource != [] {
      var others := MeaningOfResource(resource[1..]);
      ResourceSpansAgree(resource[1..]);
      if resource[0].Known? {
        assert ([MeaningOfScope(resource[0].message)] + others)[1..] == others;
      } else {
        assert [] + others == others;
      }
    }
  }

  lemma {:induction false} TraceSpansAgree(trace: TraceTree)
    ensures FlattenAll(MeaningOfTrace(trace)) == SpansInTrace(trace)
  {
    if trace != [] {
      var others := MeaningOfTrace(trace[1..]);
      TraceSpansAgree(trace[1..]);
      if trace[0].Known? {
        ResourceSpansAgree(trace[0].message);
        assert ([MeaningOfResource(trace[0].message)] + others)[1..] == others;
      } else {
        assert [] + others == others;
      }
    }
  }

  /** Decoding an encoded request captures exactly its named spans, in order. */
  lemma CapturedSpansRoundTrip(platform: Platform, trace: TraceTree)
    requires IsValidTrace(trace)
    ensures CapturedSpans(platform, EncodeTrace(trace)) == Ok(CaptureEach(platform, SpansInTrace(trace)))
  {
    TraceRoundTrip(trace);
    CaptureAllIsEach(platform, MeaningOfTrace(trace));
    TraceSpansAgree(trace);
  }

  // ---- the oneof of AnyValue ---------------------------------------------------------------

  /** The order in which normalization looks at the members of the oneof. */
  function Rank(kind: AnyKind): nat {
    match kind
    case StringKind => 0
    case BoolKind => 1
    case DoubleKind => 2
    case IntKind => 3
    case ArrayKind => 4
    case ListKind => 5
    case BytesKind => 6
    case OtherKind => 7
  }

  /** The member normalization selects. */
  function SelectedKind(v: AnyValue): AnyKind {
    if v.stringValue.Some? then StringKind
    else if v.boolValue.Some? then BoolKind
    else if v.doubleValue.Some? then DoubleKind
    else if v.intValue.Some? then IntKind
    else if v.arrayValue.Elements? then ArrayKind
    else if v.kvlistValue.Entries? then ListKind
    else if v.bytesValue.Some? then BytesKind
    else OtherKind
  }

  lemma KindPresent(items: seq<AnyItem>, kind: AnyKind)
    ensures LastOfKind(items, kind) >= 0 <==> exists j :: 0 <= j < |items| && KindOf(items[j]) == kind
  {
    if LastOfKind(items, kind) < 0 {
      forall j | 0 <= j < |items| ensures KindOf(items[j]) != kind {
        NoneAfterLast(items, (item: AnyItem) => KindOf(item) == kind, j);
      }
    }
  }

  /** Normalization selects the present member of least rank. */
  lemma SelectedIsLeast(items: seq<AnyItem>, i: nat)
    requires i < |items|
    ensures Rank(SelectedKind(MeaningOfAny(items))) <= Rank(KindOf(items[i]))
    ensures SelectedKind(MeaningOfAny(items)) != OtherKind ==>
              exists j :: 0 <= j < |items| && KindOf(items[j]) == SelectedKind(MeaningOfAny(items))
  {
    KindPresent(items, StringKind);
    KindPresent(items, BoolKind);
    KindPresent(items, DoubleKind);
    KindPresent(items, IntKind);
    KindPresent(items, ArrayKind);
    KindPresent(items, ListKind);
    KindPresent(items, BytesKind);
  }

  /** Normalization reports the selected member, and no other. */
  lemma SelectedDecides(platform: Platform, v: AnyValue)
    ensures NormalizeOtlpValue(platform, v) ==
            match SelectedKind(v)
            case StringKind => Text(platform.text(v.stringValue.value))
            case BoolKind => Flag(v.boolValue.value)
            case DoubleKind => Double(v.doubleValue.value)
            case IntKind => Int(v.intValue.value)
            case ArrayKind => Texts(ElementTexts(platform, v.arrayValue.values))
            case ListKind => Texts(EntryTexts(platform, v.kvlistValue.entries))
            case BytesKind => Text(platform.showHex(v.bytesValue.value))
            case OtherKind => Text("")
  {
  }

  /** What one member says, were it alone. */
  function ItemValue(platform: Platform, item: AnyItem): Normalized {
    match item
    case StringItem(text) => Text(platform.text(text))
    case BoolItem(flag) => Flag(flag != 0)
    case DoubleItem(bits) => Double(bits)
    case IntItem(number) => Int(number)
    case ArrayItem(elements) => Texts(ElementTexts(platform, MeaningOfArray(elements)))
    case ListItem(entries) => Texts(EntryTexts(platform, MeaningOfList(entries)))
    case BytesItem(bytes) => Text(platform.showHex(bytes))
    case OtherAny(_) => Text("")
  }

  /** Item `i` is the last of the members that come first in the order of normalization. */
  ghost predicate IsReported(items: seq<AnyItem>, i: nat) {
    && i < |items| && KindOf(items[i]) != OtherKind
    && forall j | 0 <= j < |items| ::
         Rank(KindOf(items[i])) < Rank(KindOf(items[j])) || (KindOf(items[i]) == KindOf(items[j]) && j <= i)
  }

  lemma LastOfKindIs(items: seq<AnyItem>, i: nat)
    requires i < |items| && forall j | i < j < |items| :: KindOf(items[j]) != KindOf(items[i])
    ensures LastOfKind(items, KindOf(items[i])) == i
  {
    var kind := KindOf(items[i]);
    KindPresent(items, kind);
    if LastOfKind(items, kind) < i {
      NoneAfterLast(items, (item: AnyItem) => KindOf(item) == kind, i);
    }
  }

  /** Of all members a value was sent with, normalization reports that one. */
  lemma NormalizationReports(platform: Platform, items: seq<AnyItem>, i: nat)
    requires IsReported(items, i)
    ensures NormalizeOtlpValue(platform, MeaningOfAny(items)) == ItemValue(platform, items[i])
  {
    SelectedIsLeast(items, i);
    LastOfKindIs(items, i);
    SelectedDecides(platform, MeaningOfAny(items));
  }

  lemma NormalizationReportsNothing(platform: Platform, items: seq<AnyItem>)
    requires forall i | 0 <= i < |items| :: KindOf(items[i]) == OtherKind
    ensures NormalizeOtlpValue(platform, MeaningOfAny(items)) == Text("")
  {
    if SelectedKind(MeaningOfAny(items)) != OtherKind && items != [] {
      SelectedIsLeast(items, 0);
    }
    SelectedDecides(platform, MeaningOfAny(items));
  }

  lemma {:induction false} SomeItemIsReported(items: seq<AnyItem>, known: nat) returns (i: nat)
    requires known < |items| && KindOf(items[known]) != OtherKind
    ensures IsReported(items, i)
  {
    SelectedIsLeast(items, known);
    var kind := SelectedKind(MeaningOfAny(items));
    KindPresent(items, kind);
    i := LastOfKind(items, kind);
    forall j | 0 <= j < |items|
      ensures Rank(kind) < Rank(KindOf(items[j])) || (kind == KindOf(items[j]) && j <= i)
    {
      SelectedIsLeast(items, j);
      if j > i { NoneAfterLast(items, (item: AnyItem) => KindOf(item) == kind, j); }
    }
  }

  lemma NothingReported(platform: Platform, value: seq<AnyItem>)
    requires forall i: nat :: !IsReported(value, i)
    ensures NormalizeOtlpValue(platform, MeaningOfAny(value)) == Text("")
  {
    if known: nat :| known < |value| && KindOf(value[known]) != OtherKind {
      var i := SomeItemIsReported(value, known);
      assert false;
    }
    NormalizationReportsNothing(platform, value);
  }

  /** Protocol Buffers let the last member of a oneof win. This decoder keeps
      earlier members, so the last one is the one reported exactly when no earlier
      member comes before it in the order of normalization; otherwise the value
      reported is that of an earlier member of another kind. */
  lemma OneofLastWinsExactly(platform: Platform, items: seq<AnyItem>, last: nat)
    requires last < |items| && KindOf(items[last]) != OtherKind
    requires forall j | last < j < |items| :: KindOf(items[j]) == OtherKind
    ensures SelectedKind(MeaningOfAny(items)) == KindOf(items[last]) <==>
            forall j | 0 <= j < last :: Rank(KindOf(items[j])) >= Rank(KindOf(items[last]))
    ensures IsReported(items, last) <==>
            forall j | 0 <= j < last :: Rank(KindOf(items[j])) >= Rank(KindOf(items[last]))
    ensures IsReported(items, last) ==>
              NormalizeOtlpValue(platform, MeaningOfAny(items)) == ItemValue(platform, items[last])
    ensures !IsReported(items, last) ==>
              exists i :: 0 <= i < last && IsReported(items, i) && KindOf(items[i]) != KindOf(items[last])
                          && NormalizeOtlpValue(platform, MeaningOfAny(items)) == ItemValue(platform, items[i])
  {
    var i := SomeItemIsReported(items, last);
    NormalizationReports(platform, items, i);
    SelectedIsReported(items, i);
    assert i <= last;
    if i == last {
      assert IsReported(items, last);
    } else {
      assert Rank(KindOf(items[i])) < Rank(KindOf(items[last]));
    }
  }

  lemma SelectedIsReported(items: seq<AnyItem>, i: nat)
    requires IsReported(items, i)
    ensures SelectedKind(MeaningOfAny(items)) == KindOf(items[i])
  {
    SelectedIsLeast(items, i);
  }

  /** The same from the bytes: what the decoder and the normalization report of an
      encoded value, with unknown fields anywhere. */
  lemma EncodedValueReports(platform: Platform, items: seq<AnyItem>, i: nat)
    requires IsValidAny(items) && IsReported(items, i)
    ensures DecodeAny(EncodeFields(AnyFields(items))).Ok?
    ensures NormalizeOtlpValue(platform, DecodeAny(EncodeFields(AnyFields(items))).value)
            == ItemValue(platform, items[i])
  {
    AnyRoundTrip(items);
    NormalizationReports(platform, items, i);
  }

  /** The string "a", then the integer 7: the string is reported, not the last member. */
  lemma LaterIntegerLoses(platform: Platform)
    ensures var items := [StringItem([0x61]), IntItem(7)];
            && IsValidAny(items) && DecodeAny(EncodeFields(AnyFields(items))).Ok?
            && ItemValue(platform, items[1]) == Int(7)
            && NormalizeOtlpValue(platform, DecodeAny(EncodeFields(AnyFields(items))).value)
               == Text(platform.text([0x61])) != Int(7)
  {
    var items := [StringItem([0x61]), IntItem(7)];
    assert IsValidAnyItem(items[0]) && IsValidAnyItem(items[1]);
    assert IsReported(items, 0);
    EncodedValueReports(platform, items, 0);
  }
}
