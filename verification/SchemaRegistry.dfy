/**
 * Naming schemas by their shape (scripts/protocol-gen-swift.ts): a canonical form that forgets the
 * order of object keys, and an index from that form to a name while only one schema has it.
 */
module SchemaRegistry {
  import opened Outcomes
  import opened Sorting

  /** A schema as JSON data; an object lists its keys in the order they were written. */
  datatype Json =
    | Null
    | Bool(flag: bool)
    | Number(value: real)
    | Text(text: string)
    | Array(items: seq<Json>)
    | Object(fields: seq<Field>)

  datatype Field = Field(key: string, value: Json)

  function FieldKey(): Field -> string {
    (field: Field) => field.key
  }

  function StableJson(value: Json): Json {
    match value
    case Array(items) => Array(StableItems(items))
    case Object(fields) => Object(Sort(StableFields(fields), FieldKey()))
    case _ => value
  }

  function StableItems(items: seq<Json>): (r: seq<Json>)
    ensures |r| == |items|
    ensures forall i | 0 <= i < |items| :: r[i] == StableJson(items[i])
  {
    if items == [] then [] else [StableJson(items[0])] + StableItems(items[1..])
  }

  function StableFields(fields: seq<Field>): (r: seq<Field>)
    ensures |r| == |fields|
    ensures forall i | 0 <= i < |fields| :: r[i] == Field(fields[i].key, StableJson(fields[i].value))
  {
    if fields == [] then []
    else [Field(fields[0].key, StableJson(fields[0].value))] + StableFields(fields[1..])
  }

  /** No object has a key twice. */
  ghost predicate IsWellFormed(value: Json) {
    match value
    case Array(items) => forall i | 0 <= i < |items| :: IsWellFormed(items[i])
    case Object(fields) =>
      DistinctKeys(fields, FieldKey()) && forall i | 0 <= i < |fields| :: IsWellFormed(fields[i].value)
    case _ => true
  }

  /** Equal up to the order of object keys, at every depth. */
  ghost predicate Same(a: Json, b: Json)
    decreases a
  {
    match a
    case Array(items) =>
      b.Array? && |items| == |b.items| && forall i | 0 <= i < |items| :: Same(items[i], b.items[i])
    case Object(fields) =>
      && b.Object?
      && (forall i | 0 <= i < |fields| :: HasMatch(fields[i], b.fields))
      && (forall j | 0 <= j < |b.fields| :: IsMatched(fields, b.fields[j]))
    case _ => a == b
  }

  ghost predicate HasMatch(f: Field, others: seq<Field>)
    decreases f, 1
  {
    exists j :: 0 <= j < |others| && Matches(f, others[j])
  }

  ghost predicate IsMatched(fields: seq<Field>, g: Field)
    decreases fields
  {
    exists i :: 0 <= i < |fields| && Matches(fields[i], g)
  }

  ghost predicate Matches(f: Field, g: Field)
    decreases f, 0
  {
    f.key == g.key && Same(f.value, g.value)
  }

  // ---- equal canonical forms come from schemas that are the same ----------------------

  lemma {:induction false} SameOnceStable(a: Json, b: Json)
    requires IsWellFormed(a) && IsWellFormed(b) && StableJson(a) == StableJson(b)
    ensures Same(a, b)
    decreases a, 1
  {
    if a.Array? {
      forall i | 0 <= i < |a.items| ensures Same(a.items[i], b.items[i]) {
        assert StableItems(a.items)[i] == StableItems(b.items)[i];
        SameOnceStable(a.items[i], b.items[i]);
      }
    } else if a.Object? {
      SortedAlikeIsSameElements(StableFields(a.fields), StableFields(b.fields));
      forall i | 0 <= i < |a.fields| ensures HasMatch(a.fields[i], b.fields) {
        FieldOnceStable(a, b, i);
      }
      forall j | 0 <= j < |b.fields| ensures IsMatched(a.fields, b.fields[j]) {
        FieldBackOnceStable(a, b, j);
      }
    }
  }

  lemma {:induction false} FieldOnceStable(a: Json, b: Json, i: nat)
    requires a.Object? && b.Object? && IsWellFormed(a) && IsWellFormed(b)
    requires i < |a.fields| && StableFields(a.fields)[i] in StableFields(b.fields)
    ensures HasMatch(a.fields[i], b.fields)
    decreases a, 0
  {
    var j :| 0 <= j < |b.fields| && StableFields(b.fields)[j] == StableFields(a.fields)[i];
    SameOnceStable(a.fields[i].value, b.fields[j].value);
    assert Matches(a.fields[i], b.fields[j]);
  }

  lemma {:induction false} FieldBackOnceStable(a: Json, b: Json, j: nat)
    requires a.Object? && b.Object? && IsWellFormed(a) && IsWellFormed(b)
    requires j < |b.fields| && StableFields(b.fields)[j] in StableFields(a.fields)
    ensures IsMatched(a.fields, b.fields[j])
    decreases a, 0
  {
    var i :| 0 <= i < |a.fields| && StableFields(a.fields)[i] == StableFields(b.fields)[j];
    SameOnceStable(a.fields[i].value, b.fields[j].value);
    assert Matches(a.fields[i], b.fields[j]);
  }

  lemma SortedAlikeIsSameElements(s: seq<Field>, t: seq<Field>)
    requires Sort(s, FieldKey()) == Sort(t, FieldKey())
    ensures SameElements(s, t)
  {
    SortFacts(s, FieldKey());
    SortFacts(t, FieldKey());
  }

  lemma StableFieldsAreDistinct(fields: seq<Field>)
    requires DistinctKeys(fields, FieldKey())
    ensures DistinctKeys(StableFields(fields), FieldKey())
  {
    var stable := StableFields(fields);
    forall i, j | 0 <= i < j < |stable| ensures stable[i].key != stable[j].key {
      assert FieldKey()(fields[i]) != FieldKey()(fields[j]);
    }
  }

  // ---- schemas that are the same have equal canonical forms ---------------------------

  lemma {:induction false} StableOnceSame(a: Json, b: Json)
    requires IsWellFormed(a) && IsWellFormed(b) && Same(a, b)
    ensures StableJson(a) == StableJson(b)
    decreases a, 1, 0
  {
    if a.Array? {
      forall i | 0 <= i < |a.items| ensures StableItems(a.items)[i] == StableItems(b.items)[i] {
        StableOnceSame(a.items[i], b.items[i]);
      }
      assert StableItems(a.items) == StableItems(b.items);
    } else if a.Object? {
      FieldsOnceSame(a, b);
      StableFieldsAreDistinct(a.fields);
      StableFieldsAreDistinct(b.fields);
      SortCanonical(StableFields(a.fields), StableFields(b.fields), FieldKey());
    }
  }

  lemma {:induction false} FieldsOnceSame(a: Json, b: Json)
    requires a.Object? && b.Object? && IsWellFormed(a) && IsWellFormed(b) && Same(a, b)
    ensures SameElements(StableFields(a.fields), StableFields(b.fields))
    decreases a, 0, 1
  {
    forall x | x in StableFields(a.fields) ensures x in StableFields(b.fields) {
      var i :| 0 <= i < |a.fields| && StableFields(a.fields)[i] == x;
      FieldOnceSame(a, b, i);
    }
    forall x | x in StableFields(b.fields) ensures x in StableFields(a.fields) {
      var j :| 0 <= j < |b.fields| && StableFields(b.fields)[j] == x;
      FieldBackOnceSame(a, b, j);
    }
  }

  lemma {:induction false} FieldOnceSame(a: Json, b: Json, i: nat)
    requires a.Object? && b.Object? && IsWellFormed(a) && IsWellFormed(b)
    requires i < |a.fields| && HasMatch(a.fields[i], b.fields)
    ensures StableFields(a.fields)[i] in StableFields(b.fields)
    decreases a, 0, 0
  {
    var j :| 0 <= j < |b.fields| && Matches(a.fields[i], b.fields[j]);
    StableOnceSame(a.fields[i].value, b.fields[j].value);
    assert StableFields(b.fields)[j] == StableFields(a.fields)[i];
  }

  lemma {:induction false} FieldBackOnceSame(a: Json, b: Json, j: nat)
    requires a.Object? && b.Object? && IsWellFormed(a) && IsWellFormed(b)
    requires j < |b.fields| && IsMatched(a.fields, b.fields[j])
    ensures StableFields(b.fields)[j] in StableFields(a.fields)
    decreases a, 0, 0
  {
    var i :| 0 <= i < |a.fields| && Matches(a.fields[i], b.fields[j]);
    StableOnceSame(a.fields[i].value, b.fields[j].value);
    assert StableFields(a.fields)[i] == StableFields(b.fields)[j];
  }

  /** Two schemas share a canonical form exactly when they differ in nothing but key order. */
  lemma SignatureExact(a: Json, b: Json)
    requires IsWellFormed(a) && IsWellFormed(b)
    ensures StableJson(a) == StableJson(b) <==> Same(a, b)
  {
    if StableJson(a) == StableJson(b) { SameOnceStable(a, b); }
    if Same(a, b) { StableOnceSame(a, b); }
  }

  /** The canonical form is the schema itself up to key order, with its keys sorted. */
  lemma {:induction false} StableKeepsMeaning(a: Json)
    requires IsWellFormed(a)
    ensures IsWellFormed(StableJson(a)) && Same(a, StableJson(a))
    ensures a.Object? ==> IsSorted(StableJson(a).fields, FieldKey())
    decreases a, 1
  {
    if a.Array? {
      forall i | 0 <= i < |a.items|
        ensures IsWellFormed(StableItems(a.items)[i]) && Same(a.items[i], StableItems(a.items)[i])
      {
        StableKeepsMeaning(a.items[i]);
      }
    } else if a.Object? {
      FieldsKeepMeaning(a);
      StableFieldsAreDistinct(a.fields);
      SortKeepsMatches(a.fields, StableFields(a.fields));
    }
  }

  lemma {:induction false} FieldsKeepMeaning(a: Json)
    requires a.Object? && IsWellFormed(a)
    ensures forall i | 0 <= i < |a.fields| ::
              Matches(a.fields[i], StableFields(a.fields)[i]) && IsWellFormed(StableFields(a.fields)[i].value)
    decreases a, 0
  {
    forall i | 0 <= i < |a.fields|
      ensures Matches(a.fields[i], StableFields(a.fields)[i]) && IsWellFormed(StableFields(a.fields)[i].value)
    {
      StableKeepsMeaning(a.fields[i].value);
    }
  }

  lemma SortKeepsMatches(fields: seq<Field>, stable: seq<Field>)
    requires |stable| == |fields| && DistinctKeys(stable, FieldKey())
    requires forall i | 0 <= i < |fields| :: Matches(fields[i], stable[i]) && IsWellFormed(stable[i].value)
    ensures var sorted := Sort(stable, FieldKey());
            && IsSorted(sorted, FieldKey())
            && IsWellFormed(Object(sorted)) && Same(Object(fields), Object(sorted))
  {
    SortFacts(stable, FieldKey());
    DistinctByCount(stable, Sort(stable, FieldKey()), FieldKey());
    RearrangedMatches(fields, stable, Sort(stable, FieldKey()));
  }

  lemma RearrangedMatches(fields: seq<Field>, stable: seq<Field>, sorted: seq<Field>)
    requires |stable| == |fields| && SameElements(sorted, stable)
    requires forall i | 0 <= i < |fields| :: Matches(fields[i], stable[i]) && IsWellFormed(stable[i].value)
    ensures Same(Object(fields), Object(sorted))
    ensures forall j | 0 <= j < |sorted| :: IsWellFormed(sorted[j].value)
  {
    forall i | 0 <= i < |fields| ensures HasMatch(fields[i], sorted) {
      assert stable[i] in sorted;
      var j :| 0 <= j < |sorted| && sorted[j] == stable[i];
      assert Matches(fields[i], sorted[j]);
    }
    forall j | 0 <= j < |sorted|
      ensures IsWellFormed(sorted[j].value)
      ensures IsMatched(fields, sorted[j])
    {
      assert sorted[j] in stable;
      var i :| 0 <= i < |stable| && stable[i] == sorted[j];
      assert Matches(fields[i], sorted[j]);
    }
  }

  /** Canonical forms are fixed points. */
  lemma StableIsIdempotent(a: Json)
    requires IsWellFormed(a)
    ensures StableJson(StableJson(a)) == StableJson(a)
  {
    StableKeepsMeaning(a);
    StableOnceSame(a, StableJson(a));
  }

  // ---- the registry -------------------------------------------------------------------

  /** A schema object: its identity, and the data it holds. */
  datatype Schema = Schema(id: nat, json: Json)

  datatype Registration = Registration(name: string, schema: Schema)

  /** `JSON.stringify` of the canonical form, taken as one text per value. */
  function SchemaSignature(schema: Schema): Json {
    StableJson(schema.json)
  }

  function Count(registrations: seq<Registration>, signature: Json): nat {
    if registrations == [] then 0 else
      var n := |registrations| - 1;
      Count(registrations[..n], signature)
      + (if SchemaSignature(registrations[n].schema) == signature then 1 else 0)
  }

  ghost predicate IsCalled(registrations: seq<Registration>, signature: Json, name: string) {
    exists r :: r in registrations && SchemaSignature(r.schema) == signature && r.name == name
  }

  /** The index holds the names of the signatures registered once, and only those. */
  ghost predicate IndexesOnce(index: map<Json, string>, registrations: seq<Registration>) {
    forall signature ::
      && (signature in index <==> Count(registrations, signature) == 1)
      && (signature in index ==> IsCalled(registrations, signature, index[signature]))
  }

  ghost predicate HoldsDuplicates(duplicates: set<Json>, registrations: seq<Registration>) {
    forall signature :: signature in duplicates <==> Count(registrations, signature) > 1
  }

  /** An object has the name it was registered under last. */
  function LastName(registrations: seq<Registration>, id: nat): Option<string> {
    if registrations == [] then None else
      var n := |registrations| - 1;
      if registrations[n].schema.id == id then Some(registrations[n].name)
      else LastName(registrations[..n], id)
  }

  /** `n` is the last registration of the object `id`. */
  ghost predicate IsLastOf(registrations: seq<Registration>, id: nat, n: nat) {
    && n < |registrations| && registrations[n].schema.id == id
    && forall m | n < m < |registrations| :: registrations[m].schema.id != id
  }

  lemma {:induction false} LastNameIsLast(registrations: seq<Registration>, id: nat)
    ensures forall n: nat | IsLastOf(registrations, id, n) :: LastName(registrations, id) == Some(registrations[n].name)
    ensures LastName(registrations, id).Some? ==> exists n: nat :: IsLastOf(registrations, id, n)
  {
    if registrations != [] {
      var k := |registrations| - 1;
      var init := registrations[..k];
      LastNameIsLast(init, id);
      if registrations[k].schema.id == id {
        assert IsLastOf(registrations, id, k);
      } else {
        forall n: nat ensures IsLastOf(registrations, id, n) <==> IsLastOf(init, id, n) {
          assert forall m | 0 <= m < k :: init[m] == registrations[m];
        }
      }
    }
  }

  ghost predicate NamesObjects(names: map<nat, string>, registrations: seq<Registration>) {
    forall id: nat :: (if id in names then Some(names[id]) else None) == LastName(registrations, id)
  }

  lemma CountAppend(registrations: seq<Registration>, last: Registration, signature: Json)
    ensures Count(registrations + [last], signature)
            == Count(registrations, signature) + (if SchemaSignature(last.schema) == signature then 1 else 0)
  {
    assert (registrations + [last])[..|registrations|] == registrations;
  }

  lemma LastNameAppend(registrations: seq<Registration>, last: Registration, id: nat)
    ensures LastName(registrations + [last], id)
            == if last.schema.id == id then Some(last.name) else LastName(registrations, id)
  {
    assert (registrations + [last])[..|registrations|] == registrations;
  }

  lemma CalledAppend(registrations: seq<Registration>, last: Registration, signature: Json, name: string)
    ensures IsCalled(registrations, signature, name) ==> IsCalled(registrations + [last], signature, name)
    ensures SchemaSignature(last.schema) == signature ==> IsCalled(registrations + [last], signature, last.name)
  {
    assert last in registrations + [last];
    if IsCalled(registrations, signature, name) {
      var r :| r in registrations && SchemaSignature(r.schema) == signature && r.name == name;
      assert r in registrations + [last];
    }
  }

  // ---- the index after one more registration ------------------------------------------

  function Registered(index: map<Json, string>, duplicates: set<Json>, signature: Json, name: string)
    : map<Json, string>
  {
    if signature in duplicates then index
    else if signature in index then index - {signature}
    else index[signature := name]
  }

  lemma RegisteredIndexes(index: map<Json, string>, duplicates: set<Json>, registrations: seq<Registration>,
      last: Registration)
    requires IndexesOnce(index, registrations) && HoldsDuplicates(duplicates, registrations)
    ensures IndexesOnce(Registered(index, duplicates, SchemaSignature(last.schema), last.name), registrations + [last])
  {
    var signature := SchemaSignature(last.schema);
    var after := Registered(index, duplicates, signature, last.name);
    forall other: Json
      ensures other in after <==> Count(registrations + [last], other) == 1
      ensures other in after ==> IsCalled(registrations + [last], other, after[other])
    {
      CountAppend(registrations, last, other);
      CalledAppend(registrations, last, other, if other in index then index[other] else "");
    }
  }

  lemma RegisteredHoldsDuplicates(index: map<Json, string>, duplicates: set<Json>, registrations: seq<Registration>,
      last: Registration)
    requires IndexesOnce(index, registrations) && HoldsDuplicates(duplicates, registrations)
    ensures var signature := SchemaSignature(last.schema);
            HoldsDuplicates(if signature in index && signature !in duplicates then duplicates + {signature}
                            else duplicates,
                            registrations + [last])
  {
    var signature := SchemaSignature(last.schema);
    var after := if signature in index && signature !in duplicates then duplicates + {signature} else duplicates;
    forall other: Json ensures other in after <==> Count(registrations + [last], other) > 1 {
      CountAppend(registrations, last, other);
    }
  }

  class Registry {
    var nameByObject: map<nat, string>
    var nameBySignature: map<Json, string>
    var duplicateSignatures: set<Json>
    ghost var registrations: seq<Registration>

    ghost predicate Valid()
      reads this
    {
      && NamesObjects(nameByObject, registrations)
      && IndexesOnce(nameBySignature, registrations)
      && HoldsDuplicates(duplicateSignatures, registrations)
    }

    constructor ()
      ensures Valid() && registrations == []
    {
      nameByObject, nameBySignature, duplicateSignatures, registrations := map[], map[], {}, [];
    }

    method RegisterNamedSchema(name: string, schema: Schema)
      requires Valid()
      modifies this
      ensures Valid() && registrations == old(registrations) + [Registration(name, schema)]
    {
      ghost var last := Registration(name, schema);
      RegisteredIndexes(nameBySignature, duplicateSignatures, registrations, last);
      RegisteredHoldsDuplicates(nameBySignature, duplicateSignatures, registrations, last);
      forall id: nat ensures LastName(registrations + [last], id)
                             == if schema.id == id then Some(name) else LastName(registrations, id)
      {
        LastNameAppend(registrations, last, id);
      }
      registrations := registrations + [last];
      nameByObject := nameByObject[schema.id := name];
      var signature := SchemaSignature(schema);
      if signature in duplicateSignatures {
        return;
      }
      if signature in nameBySignature {
        nameBySignature := nameBySignature - {signature};
        duplicateSignatures := duplicateSignatures + {signature};
        return;
      }
      nameBySignature := nameBySignature[signature := name];
    }

    /** An object's own name, else, if allowed, the name of the one registered schema of its shape. */
    method NamedSchema(schema: Schema, allowStructuralFallback: bool) returns (name: Option<string>)
      requires Valid()
      ensures LastName(registrations, schema.id).Some? ==> name == LastName(registrations, schema.id)
      ensures LastName(registrations, schema.id).None? ==>
                && (name.Some? <==> allowStructuralFallback && Count(registrations, SchemaSignature(schema)) == 1)
                && (name.Some? ==> IsCalled(registrations, SchemaSignature(schema), name.value))
    {
      if schema.id in nameByObject {
        return Some(nameByObject[schema.id]);
      }
      var signature := SchemaSignature(schema);
      if allowStructuralFallback && signature in nameBySignature {
        return Some(nameBySignature[signature]);
      }
      return None;
    }
  }

  // ---- order does not matter ----------------------------------------------------------

  lemma {:induction false} CountConcat(a: seq<Registration>, b: seq<Registration>, signature: Json)
    ensures Count(a + b, signature) == Count(a, signature) + Count(b, signature)
  {
    if b == [] {
      assert a + b == a;
    } else {
      var n := |b| - 1;
      CountConcat(a, b[..n], signature);
      CountAppend(a + b[..n], b[n], signature);
      assert a + b == a + b[..n] + [b[n]];
    }
  }

  lemma {:induction false} CountIgnoresOrder(a: seq<Registration>, b: seq<Registration>, signature: Json)
    requires multiset(a) == multiset(b)
    ensures Count(a, signature) == Count(b, signature)
    decreases |a|
  {
    if a == [] {
      assert |multiset(b)| == 0;
    } else {
      var n := |a| - 1;
      assert a[n] in multiset(a);
      var k :| 0 <= k < |b| && b[k] == a[n];
      RemoveOne(a, b, k);
      CountIgnoresOrder(a[..n], b[..k] + b[k + 1..], signature);
      CountWithout(b, k, signature);
    }
  }

  lemma CountWithout(b: seq<Registration>, k: nat, signature: Json)
    requires k < |b|
    ensures Count(b, signature) == Count(b[..k] + b[k + 1..], signature)
                                   + (if SchemaSignature(b[k].schema) == signature then 1 else 0)
  {
    var x, rest := [b[k]], b[k + 1..];
    assert b == b[..k] + (x + rest);
    CountConcat(b[..k], x + rest, signature);
    CountConcat(x, rest, signature);
    CountConcat(b[..k], rest, signature);
  }

  lemma RemoveOne(a: seq<Registration>, b: seq<Registration>, k: nat)
    requires multiset(a) == multiset(b) && a != [] && k < |b| && b[k] == a[|a| - 1]
    ensures multiset(a[..|a| - 1]) == multiset(b[..k] + b[k + 1..])
  {
    var x := b[k];
    assert a == a[..|a| - 1] + [x];
    assert b == b[..k] + [x] + b[k + 1..];
    assert multiset(a[..|a| - 1]) == multiset(a) - multiset{x};
    assert multiset(b[..k] + b[k + 1..]) == multiset(b) - multiset{x};
  }

  lemma OnlyOneName(registrations: seq<Registration>, signature: Json, a: string, b: string)
    requires Count(registrations, signature) == 1
    requires IsCalled(registrations, signature, a) && IsCalled(registrations, signature, b)
    ensures a == b
  {
    var r :| r in registrations && SchemaSignature(r.schema) == signature && r.name == a;
    var s :| s in registrations && SchemaSignature(s.schema) == signature && s.name == b;
    var i :| 0 <= i < |registrations| && registrations[i] == r;
    var j :| 0 <= j < |registrations| && registrations[j] == s;
    if i < j {
      CountTwice(registrations, i, j, signature);
    } else if j < i {
      CountTwice(registrations, j, i, signature);
    }
  }

  lemma CountTwice(registrations: seq<Registration>, i: nat, j: nat, signature: Json)
    requires i < j < |registrations|
    requires SchemaSignature(registrations[i].schema) == signature == SchemaSignature(registrations[j].schema)
    ensures Count(registrations, signature) >= 2
  {
    CountPrefix(registrations, i + 1, j, signature);
    CountPrefix(registrations, j + 1, |registrations|, signature);
    assert registrations[..j + 1][..j] == registrations[..j];
    assert registrations[..i + 1][..i] == registrations[..i];
    assert registrations[..|registrations|] == registrations;
  }

  lemma {:induction false} CountPrefix(registrations: seq<Registration>, i: nat, j: nat, signature: Json)
    requires i <= j <= |registrations|
    ensures Count(registrations[..i], signature) <= Count(registrations[..j], signature)
  {
    if i < j {
      CountPrefix(registrations, i, j - 1, signature);
      assert registrations[..j][..j - 1] == registrations[..j - 1];
    }
  }

  /** Any order of the same registrations gives the same index and the same set of duplicates. */
  lemma IndexIgnoresOrder(
    a: seq<Registration>, indexA: map<Json, string>, duplicatesA: set<Json>,
    b: seq<Registration>, indexB: map<Json, string>, duplicatesB: set<Json>)
    requires multiset(a) == multiset(b)
    requires IndexesOnce(indexA, a) && HoldsDuplicates(duplicatesA, a)
    requires IndexesOnce(indexB, b) && HoldsDuplicates(duplicatesB, b)
    ensures indexA == indexB && duplicatesA == duplicatesB
  {
    forall signature ensures signature in indexA <==> signature in indexB {
      CountIgnoresOrder(a, b, signature);
    }
    forall signature ensures signature in duplicatesA <==> signature in duplicatesB {
      CountIgnoresOrder(a, b, signature);
    }
    forall signature | signature in indexA ensures indexA[signature] == indexB[signature] {
      CalledIgnoresOrder(a, b, signature, indexA[signature]);
      CountIgnoresOrder(a, b, signature);
      OnlyOneName(b, signature, indexA[signature], indexB[signature]);
    }
  }

  lemma CalledIgnoresOrder(a: seq<Registration>, b: seq<Registration>, signature: Json, name: string)
    requires multiset(a) == multiset(b) && IsCalled(a, signature, name)
    ensures IsCalled(b, signature, name)
  {
    var r :| r in a && SchemaSignature(r.schema) == signature && r.name == name;
    assert r in multiset(a);
    assert r in b;
  }

  // ---- in terms of the schemas --------------------------------------------------------

  /** How many registrations have the shape of `json`. */
  ghost function CountSame(registrations: seq<Registration>, json: Json): nat {
    if registrations == [] then 0 else
      var n := |registrations| - 1;
      CountSame(registrations[..n], json) + (if Same(registrations[n].schema.json, json) then 1 else 0)
  }

  ghost predicate AllWellFormed(registrations: seq<Registration>) {
    forall i | 0 <= i < |registrations| :: IsWellFormed(registrations[i].schema.json)
  }

  /** The index answers for a shape exactly when one registered schema has it up to key order. */
  lemma {:induction false} CountIsCountSame(registrations: seq<Registration>, schema: Schema)
    requires AllWellFormed(registrations) && IsWellFormed(schema.json)
    ensures Count(registrations, SchemaSignature(schema)) == CountSame(registrations, schema.json)
  {
    if registrations != [] {
      var n := |registrations| - 1;
      CountIsCountSame(registrations[..n], schema);
      SignatureExact(registrations[n].schema.json, schema.json);
    }
  }
}
