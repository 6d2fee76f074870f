/** Nested locale maps and their dotted-key form (`flattenTranslations`, `setNestedValue`). */
module TranslationTree {
  import opened Outcomes
  import opened OrderedMap

  datatype Tree = Leaf(text: string) | Node(entries: seq<Field>)

  /** One property of a nested locale map. */
  datatype Field = Field(key: string, value: Tree)

  type Entries = seq<Field>
  type Flat = seq<Pair<string, string>>

  // ---- property access -----------------------------------------------------

  function FieldOf(entries: Entries, key: string): Option<Tree> {
    if entries == [] then None
    else if entries[0].key == key then Some(entries[0].value)
    else FieldOf(entries[1..], key)
  }

  function SetField(entries: Entries, key: string, value: Tree): Entries {
    if entries == [] then [Field(key, value)]
    else if entries[0].key == key then [Field(key, value)] + entries[1..]
    else [entries[0]] + SetField(entries[1..], key, value)
  }

  lemma {:induction false} FieldOfSetField(entries: Entries, key: string, value: Tree, x: string)
    ensures FieldOf(SetField(entries, key, value), x) == if x == key then Some(value) else FieldOf(entries, x)
  {
    if entries != [] && entries[0].key != key {
      FieldOfSetField(entries[1..], key, value, x);
    }
  }

  lemma {:induction false} SetFieldPlain(entries: Entries, key: string, value: Tree)
    requires IsPlain(entries) && IsDotFree(key) && (value.Node? ==> IsPlain(value.entries))
    ensures IsPlain(SetField(entries, key, value))
    ensures forall f | f in SetField(entries, key, value) :: f == Field(key, value) || (f in entries && f.key != key)
  {
    SetFieldMembers(entries, key, value);
    if entries == [] {
      ConsPlain(Field(key, value), []);
    } else {
      var rest := entries[1..];
      PlainTail(entries);
      if entries[0].key == key {
        ConsPlain(Field(key, value), rest);
      } else {
        SetFieldPlain(rest, key, value);
        ConsPlain(entries[0], SetField(rest, key, value));
      }
    }
  }

  lemma PlainTail(entries: Entries)
    requires IsPlain(entries) && entries != []
    ensures IsPlain(entries[1..]) && forall f | f in entries[1..] :: f.key != entries[0].key
  {
  }

  lemma ConsPlain(first: Field, rest: Entries)
    requires IsPlain(rest) && IsDotFree(first.key) && (first.value.Node? ==> IsPlain(first.value.entries))
    requires forall f | f in rest :: f.key != first.key
    ensures IsPlain([first] + rest)
  {
    var all := [first] + rest;
    assert forall i | 0 < i < |all| :: all[i] == rest[i - 1] && all[i] in rest;
  }

  lemma {:induction false} SetFieldMembers(entries: Entries, key: string, value: Tree)
    requires IsPlain(entries)
    ensures forall f | f in SetField(entries, key, value) :: f == Field(key, value) || (f in entries && f.key != key)
  {
    if entries != [] {
      var rest := entries[1..];
      assert forall f | f in rest :: f in entries && f.key != entries[0].key;
      if entries[0].key != key {
        SetFieldMembers(rest, key, value);
      }
    }
  }

  lemma {:induction false} FieldFound(entries: Entries, key: string)
    requires FieldOf(entries, key).Some?
    ensures Field(key, FieldOf(entries, key).value) in entries
  {
    if entries[0].key != key {
      FieldFound(entries[1..], key);
    }
  }

  // ---- flattenTranslations -------------------------------------------------

  function FullKey(prefix: string, key: string): string {
    if prefix != "" then prefix + "." + key else key
  }

  function FlattenInto(entries: Entries, prefix: string, out: Flat): Flat
    decreases entries
  {
    if entries == [] then out
    else
      var full := FullKey(prefix, entries[0].key);
      match entries[0].value
      case Leaf(text) => FlattenInto(entries[1..], prefix, Put(out, full, text))
      case Node(nested) => FlattenInto(entries[1..], prefix, FlattenInto(nested, full, out))
  }

  method FlattenTranslations(entries: Entries, prefix: string, out: Flat) returns (flat: Flat)
    ensures flat == FlattenInto(entries, prefix, out)
    decreases entries
  {
    flat := out;
    for i := 0 to |entries|
      invariant FlattenInto(entries[i..], prefix, flat) == FlattenInto(entries, prefix, out)
    {
      assert entries[i..][1..] == entries[i + 1..];
      var full := FullKey(prefix, entries[i].key);
      match entries[i].value
      case Leaf(text) => flat := Put(flat, full, text);
      case Node(nested) => flat := FlattenTranslations(nested, full, flat);
    }
  }

  // ---- setNestedValue ------------------------------------------------------

  function Split(s: string): (parts: seq<string>)
    ensures parts != []
  {
    if s == "" then [""]
    else
      var rest := Split(s[1..]);
      if s[0] == '.' then [""] + rest
      else [[s[0]] + rest[0]] + rest[1..]
  }

  function SetNested(entries: Entries, parts: seq<string>, value: string): Entries
    requires parts != []
    decreases |parts|
  {
    if |parts| == 1 then SetField(entries, parts[0], Leaf(value))
    else
      var next := FieldOf(entries, parts[0]);
      var nested := if next.Some? && next.value.Node? then next.value.entries else [];
      SetField(entries, parts[0], Node(SetNested(nested, parts[1..], value)))
  }

  function Build(flat: Flat): Entries {
    if flat == [] then []
    else
      var last := flat[|flat| - 1];
      SetNested(Build(flat[..|flat| - 1]), Split(last.key), last.value)
  }

  // ---- what a tree says about a path ---------------------------------------

  ghost function Lookup(entries: Entries, path: seq<string>): Option<string>
    requires path != []
    decreases |path|
  {
    match FieldOf(entries, path[0])
    case None => None
    case Some(Leaf(text)) => if |path| == 1 then Some(text) else None
    case Some(Node(nested)) => if |path| == 1 then None else Lookup(nested, path[1..])
  }

  ghost predicate IsDotFree(s: string) {
    '.' !in s
  }

  /** Keys unique and free of dots at every level. */
  ghost predicate IsPlain(entries: Entries)
    decreases entries
  {
    && (forall i, j | 0 <= i < j < |entries| :: entries[i].key != entries[j].key)
    && forall i | 0 <= i < |entries| ::
        IsDotFree(entries[i].key) && (entries[i].value.Node? ==> IsPlain(entries[i].value.entries))
  }

  /** No empty top-level key in front of a nested map: flattening would lose it. */
  ghost predicate HasNoEmptyRoot(entries: Entries) {
    forall i | 0 <= i < |entries| :: entries[i].key == "" ==> entries[i].value.Leaf?
  }

  /** The path at which flattening below `prefix` meets the flat key `k`. */
  ghost function PathBelow(prefix: string, k: string): Option<seq<string>> {
    if prefix == "" then Some(Split(k))
    else if prefix + "." <= k then Some(Split(k[|prefix| + 1..]))
    else None
  }

  lemma {:induction false} SplitDotFree(key: string, s: string)
    requires IsDotFree(key)
    ensures Split(key) == [key]
    ensures Split(key + "." + s) == [key] + Split(s)
  {
    if key == "" {
      assert key + "." + s == "." + s;
      assert ("." + s)[1..] == s;
    } else {
      SplitDotFree(key[1..], s);
      assert (key + "." + s)[1..] == key[1..] + "." + s;
      assert [key[0]] + key[1..] == key;
    }
  }

  lemma {:induction false} SplitHead(s: string)
    ensures forall i | 0 <= i < |Split(s)| :: IsDotFree(Split(s)[i])
    ensures |Split(s)| == 1 ==> s == Split(s)[0]
    ensures |Split(s)| > 1 ==> Split(s)[0] + "." <= s && Split(s)[1..] == Split(s[|Split(s)[0]| + 1..])
  {
    if s != "" {
      SplitHead(s[1..]);
    }
  }

  lemma {:induction false} SplitInjective(s: string, t: string)
    requires Split(s) == Split(t)
    ensures s == t
    decreases |s|
  {
    SplitHead(s);
    SplitHead(t);
    if |Split(s)| > 1 {
      var n := |Split(s)[0]| + 1;
      SplitInjective(s[n..], t[n..]);
      assert s == s[..n] + s[n..] && t == t[..n] + t[n..];
    }
  }

  /** Below `key` there is what was below `prefix` and starts with `key`. */
  ghost predicate StepsInto(key: string, before: Option<seq<string>>, after: Option<seq<string>>) {
    after == match before
             case None => None
             case Some(path) => if |path| > 1 && path[0] == key then Some(path[1..]) else None
  }

  lemma PathStep(prefix: string, key: string, k: string)
    requires IsDotFree(key)
    ensures k == FullKey(prefix, key) <==> PathBelow(prefix, k) == Some([key])
    ensures FullKey(prefix, key) != "" ==>
              StepsInto(key, PathBelow(prefix, k), PathBelow(FullKey(prefix, key), k))
  {
    if prefix == "" {
      KeyStep(key, k);
    } else {
      PathStepBelow(prefix, key, k);
    }
  }

  lemma PathStepBelow(prefix: string, key: string, k: string)
    requires IsDotFree(key) && prefix != ""
    ensures k == FullKey(prefix, key) <==> PathBelow(prefix, k) == Some([key])
    ensures StepsInto(key, PathBelow(prefix, k), PathBelow(FullKey(prefix, key), k))
  {
    if prefix + "." <= k {
      var rest := k[|prefix| + 1..];
      assert k == prefix + "." + rest;
      KeyStep(key, rest);
      UnderPrefix(prefix + ".", key, rest);
    } else {
      assert prefix + "." <= prefix + "." + key + ".";
    }
  }

  lemma UnderPrefix(stem: string, key: string, rest: string)
    ensures stem + key + "." <= stem + rest <==> key + "." <= rest
    ensures key + "." <= rest ==> (stem + rest)[|stem + key| + 1..] == rest[|key| + 1..]
    ensures stem + rest == stem + key <==> rest == key
  {
    PrefixUnderHead(stem, key + ".", rest);
    assert stem + key + "." == stem + (key + ".");
    assert (stem + rest)[|stem|..] == rest && (stem + key)[|stem|..] == key;
  }

  lemma KeyStep(key: string, s: string)
    requires IsDotFree(key)
    ensures s == key <==> Split(s) == [key]
    ensures key + "." <= s <==> |Split(s)| > 1 && Split(s)[0] == key
    ensures key + "." <= s ==> Split(s[|key| + 1..]) == Split(s)[1..]
  {
    SplitDotFree(key, "");
    SplitHead(s);
    if key + "." <= s {
      SplitDotFree(key, s[|key| + 1..]);
      assert s == key + "." + s[|key| + 1..];
    }
  }

  lemma FieldPlain(entries: Entries, key: string)
    requires IsPlain(entries) && FieldOf(entries, key).Some?
    ensures FieldOf(entries, key).value.Node? ==> IsPlain(FieldOf(entries, key).value.entries)
  {
    FieldFound(entries, key);
  }

  lemma LookupSkipsHead(entries: Entries, path: seq<string>)
    requires IsPlain(entries) && entries != [] && path != []
    ensures path[0] != entries[0].key ==> Lookup(entries, path) == Lookup(entries[1..], path)
    ensures path[0] == entries[0].key ==> Lookup(entries[1..], path) == None
  {
    if FieldOf(entries[1..], entries[0].key).Some? { FieldFound(entries[1..], entries[0].key); }
  }

  /** Flattening writes, for each path that ends in a text, the dotted key of
      that path, and nothing else. */
  lemma {:induction false} FlattenGet(entries: Entries, prefix: string, out: Flat, k: string)
    requires IsPlain(entries) && (prefix == "" ==> HasNoEmptyRoot(entries))
    ensures Get(FlattenInto(entries, prefix, out), k) ==
            match PathBelow(prefix, k)
            case None => Get(out, k)
            case Some(path) => if Lookup(entries, path).Some? then Lookup(entries, path) else Get(out, k)
    decreases entries
  {
    if entries != [] {
      var key, rest := entries[0].key, entries[1..];
      var full := FullKey(prefix, key);
      PathStep(prefix, key, k);
      assert IsPlain(rest) && IsDotFree(key);
      var path := PathBelow(prefix, k);
      if path.Some? {
        LookupSkipsHead(entries, path.value);
        assert path.value == [key] <==> |path.value| == 1 && path.value[0] == key;
      }
      match entries[0].value
      case Leaf(text) =>
        GetPut(out, full, text, k);
        FlattenGet(rest, prefix, Put(out, full, text), k);
      case Node(nested) =>
        FlattenGet(nested, full, out, k);
        FlattenGet(rest, prefix, FlattenInto(nested, full, out), k);
    }
  }

  lemma {:induction false} FlattenDistinct(entries: Entries, prefix: string, out: Flat)
    requires Distinct(out)
    ensures Distinct(FlattenInto(entries, prefix, out))
    decreases entries
  {
    if entries != [] {
      var full := FullKey(prefix, entries[0].key);
      match entries[0].value
      case Leaf(text) =>
        PutAt(out, full, text);
        FlattenDistinct(entries[1..], prefix, Put(out, full, text));
      case Node(nested) =>
        FlattenDistinct(nested, full, out);
        FlattenDistinct(entries[1..], prefix, FlattenInto(nested, full, out));
    }
  }

  ghost predicate StartsWithDot(k: string) {
    k != "" && k[0] == '.'
  }

  /** A tree whose own keys have no dots never yields a key with a leading dot. */
  lemma {:induction false} FlattenNoLeadingDot(entries: Entries, prefix: string, out: Flat, k: string)
    requires IsPlain(entries) && !StartsWithDot(prefix) && StartsWithDot(k) && Get(out, k).None?
    ensures Get(FlattenInto(entries, prefix, out), k).None?
    decreases entries
  {
    if entries != [] {
      var full := FullKey(prefix, entries[0].key);
      assert IsDotFree(entries[0].key);
      assert !StartsWithDot(full);
      assert IsPlain(entries[1..]);
      match entries[0].value
      case Leaf(text) =>
        GetPut(out, full, text, k);
        FlattenNoLeadingDot(entries[1..], prefix, Put(out, full, text), k);
      case Node(nested) =>
        FlattenNoLeadingDot(nested, full, out, k);
        FlattenNoLeadingDot(entries[1..], prefix, FlattenInto(nested, full, out), k);
    }
  }

  // ---- building ------------------------------------------------------------

  /** A write makes its own path hold the value, cuts off everything above and
      below that path, and leaves all other paths alone. */
  lemma {:induction false} SetNestedLookup(entries: Entries, parts: seq<string>, value: string, q: seq<string>)
    requires parts != [] && q != []
    ensures Lookup(SetNested(entries, parts, value), q) ==
            if q == parts then Some(value)
            else if q <= parts || parts <= q then None
            else Lookup(entries, q)
    decreases |parts|
  {
    var next := FieldOf(entries, parts[0]);
    var nested := if next.Some? && next.value.Node? then next.value.entries else [];
    if |parts| == 1 {
      FieldOfSetField(entries, parts[0], Leaf(value), q[0]);
    } else {
      FieldOfSetField(entries, parts[0], Node(SetNested(nested, parts[1..], value)), q[0]);
      if q[0] == parts[0] && |q| > 1 {
        SetNestedLookup(nested, parts[1..], value, q[1..]);
        assert q == [q[0]] + q[1..] && parts == [parts[0]] + parts[1..];
        assert q <= parts <==> q[1..] <= parts[1..];
        assert parts <= q <==> parts[1..] <= q[1..];
      }
    }
  }

  lemma {:induction false} SetNestedPlain(entries: Entries, parts: seq<string>, value: string)
    requires IsPlain(entries) && parts != [] && forall i | 0 <= i < |parts| :: IsDotFree(parts[i])
    ensures IsPlain(SetNested(entries, parts, value))
    ensures forall f | f in SetNested(entries, parts, value) ::
              f in entries || (f.key == parts[0] && (|parts| == 1 ==> f.value.Leaf?))
    decreases |parts|
  {
    if |parts| == 1 {
      SetFieldPlain(entries, parts[0], Leaf(value));
    } else {
      var next := FieldOf(entries, parts[0]);
      var nested := if next.Some? && next.value.Node? then next.value.entries else [];
      if next.Some? { FieldPlain(entries, parts[0]); }
      SetNestedPlain(nested, parts[1..], value);
      SetFieldPlain(entries, parts[0], Node(SetNested(nested, parts[1..], value)));
    }
  }

  /** The condition a caller can check on the keys: none begins with a dot, and
      none continues another one after a dot. */
  ghost predicate IsRebuildable(flat: Flat) {
    && (forall i | 0 <= i < |flat| :: !StartsWithDot(flat[i].key))
    && (forall i, j | 0 <= i < |flat| && 0 <= j < |flat| :: !(flat[i].key + "." <= flat[j].key))
  }

  lemma {:induction false} PrefixPaths(a: string, b: string)
    ensures a + "." <= b <==> Split(a) < Split(b)
    decreases |a|
  {
    SplitHead(a);
    SplitHead(b);
    var head := Split(a)[0];
    KeyStep(head, b);
    if |Split(a)| > 1 {
      var a' := a[|head| + 1..];
      assert a == head + "." + a';
      assert a + "." == head + "." + (a' + ".");
      if head + "." <= b {
        var b' := b[|head| + 1..];
        assert b == head + "." + b';
        PrefixPaths(a', b');
        PrefixUnderHead([head], Split(a'), Split(b'));
        PrefixUnderHead(head + ".", a' + ".", b');
        assert Split(a) == [head] + Split(a') && Split(b) == [head] + Split(b');
      } else {
        assert !(a + "." <= b) by { assert head + "." <= a + "."; }
      }
    }
  }

  lemma PrefixUnderHead<T>(head: seq<T>, s: seq<T>, t: seq<T>)
    ensures head + s <= head + t <==> s <= t
    ensures head + s < head + t <==> s < t
  {
    assert head + s <= head + t ==> s == (head + t)[|head|..|head| + |s|];
  }

  lemma {:induction false} LookupPrefixFree(entries: Entries, p: seq<string>, q: seq<string>)
    requires p != [] && p < q && Lookup(entries, p).Some?
    ensures Lookup(entries, q).None?
    decreases |p|
  {
    if |p| > 1 && FieldOf(entries, p[0]).Some? && FieldOf(entries, p[0]).value.Node? {
      LookupPrefixFree(FieldOf(entries, p[0]).value.entries, p[1..], q[1..]);
    }
  }

  lemma {:induction false} BuildPlain(flat: Flat)
    ensures IsPlain(Build(flat))
    ensures (forall i | 0 <= i < |flat| :: !StartsWithDot(flat[i].key)) ==> HasNoEmptyRoot(Build(flat))
  {
    if flat != [] {
      var n := |flat| - 1;
      BuildPlain(flat[..n]);
      SplitHead(flat[n].key);
      SetNestedPlain(Build(flat[..n]), Split(flat[n].key), flat[n].value);
      if forall i | 0 <= i < |flat| :: !StartsWithDot(flat[i].key) {
        assert HasNoEmptyRoot(Build(flat[..n]));
        assert !StartsWithDot(flat[n].key);
      }
    }
  }

  lemma {:induction false} BuildLookup(flat: Flat, k: string)
    requires Distinct(flat) && IsRebuildable(flat)
    ensures Lookup(Build(flat), Split(k)) == Get(flat, k)
  {
    if flat != [] {
      var n := |flat| - 1;
      var init, last := flat[..n], flat[n];
      BuildLookup(init, k);
      SetNestedLookup(Build(init), Split(last.key), last.value, Split(k));
      GetLast(flat, k);
      if k != last.key {
        if Split(k) == Split(last.key) { SplitInjective(k, last.key); }
        if Get(init, k).Some? { PathsApart(flat, k); }
      }
    }
  }

  lemma GetLast(flat: Flat, k: string)
    requires Distinct(flat) && flat != []
    ensures var last := flat[|flat| - 1];
            Get(flat, k) == if k == last.key then Some(last.value) else Get(flat[..|flat| - 1], k)
  {
    var n := |flat| - 1;
    assert flat == flat[..n] + [flat[n]];
    GetAppend(flat[..n], [flat[n]], k);
    LastIsNew(flat);
    GetOne(flat[n], k);
  }

  lemma GetOne(p: Pair<string, string>, k: string)
    ensures Get([p], k) == if k == p.key then Some(p.value) else None
  {
  }

  lemma LastIsNew(flat: Flat)
    requires Distinct(flat) && flat != []
    ensures Get(flat[..|flat| - 1], flat[|flat| - 1].key).None?
  {
    var n := |flat| - 1;
    forall p | p in flat[..n] ensures p.key != flat[n].key {
      var i :| 0 <= i < n && flat[i] == p;
    }
    GetAbsent(flat[..n], flat[n].key);
  }

  lemma PathsApart(flat: Flat, k: string)
    requires Distinct(flat) && IsRebuildable(flat) && flat != [] && Get(flat[..|flat| - 1], k).Some?
    ensures !(Split(k) < Split(flat[|flat| - 1].key)) && !(Split(flat[|flat| - 1].key) < Split(k))
  {
    var n := |flat| - 1;
    var i := GetFound(flat[..n], k);
    assert flat[i].key == k;
    PrefixPaths(k, flat[n].key);
    PrefixPaths(flat[n].key, k);
  }

  /** Writing a flat map out as a nested one and reading it back keeps every
      key and invents none. */
  ghost predicate RoundTrips(flat: Flat) {
    forall k :: Get(FlattenInto(Build(flat), "", []), k) == Get(flat, k)
  }

  ghost predicate KeepsEveryKey(flat: Flat) {
    forall i | 0 <= i < |flat| :: Get(FlattenInto(Build(flat), "", []), flat[i].key).Some?
  }

  /** Flattening the map built from a flat map gives that flat map back exactly
      when the keys are rebuildable; otherwise it loses one of them. */
  lemma FlattenBuildExact(flat: Flat)
    requires Distinct(flat)
    ensures RoundTrips(flat) <==> IsRebuildable(flat)
    ensures KeepsEveryKey(flat) <==> IsRebuildable(flat)
  {
    BuildPlain(flat);
    forall i | 0 <= i < |flat| ensures Get(flat, flat[i].key).Some? { GetHere(flat, i); }
    if IsRebuildable(flat) {
      forall k ensures Get(FlattenInto(Build(flat), "", []), k) == Get(flat, k) {
        FlattenGet(Build(flat), "", [], k);
        BuildLookup(flat, k);
      }
    }
    if KeepsEveryKey(flat) {
      forall i | 0 <= i < |flat| ensures !StartsWithDot(flat[i].key) {
        if StartsWithDot(flat[i].key) { FlattenNoLeadingDot(Build(flat), "", [], flat[i].key); }
      }
      forall i, j | 0 <= i < |flat| && 0 <= j < |flat| ensures !(flat[i].key + "." <= flat[j].key) {
        KeysFromPlainTree(Build(flat), flat[i].key, flat[j].key);
      }
    }
  }

  lemma KeysFromPlainTree(entries: Entries, a: string, b: string)
    requires IsPlain(entries) && HasNoEmptyRoot(entries)
    requires Get(FlattenInto(entries, "", []), a).Some? && Get(FlattenInto(entries, "", []), b).Some?
    ensures !StartsWithDot(a) && !(a + "." <= b)
  {
    FlattenGet(entries, "", [], a);
    FlattenGet(entries, "", [], b);
    if StartsWithDot(a) { FlattenNoLeadingDot(entries, "", [], a); }
    PrefixPaths(a, b);
    if a + "." <= b { LookupPrefixFree(entries, Split(a), Split(b)); }
  }

  /** Why the root must have no empty key in front of a map: the keys of that map
      then count as keys of the root, and may be ancestors of others. */
  lemma EmptyRootCollides()
    ensures var entries := [Field("", Node([Field("a", Leaf("x"))])), Field("a", Node([Field("b", Leaf("y"))]))];
            IsPlain(entries) && !IsRebuildable(FlattenInto(entries, "", []))
  {
    var a, b := [Field("a", Leaf("x"))], [Field("b", Leaf("y"))];
    var entries := [Field("", Node(a)), Field("a", Node(b))];
    var one := [Pair("a", "x")];
    assert a[1..] == [] && b[1..] == [] && one[1..] == [];
    assert entries[1..] == [entries[1]] && entries[1..][1..] == [];
    assert FlattenInto(a, "", []) == one;
    assert FullKey("a", "b") == "a.b";
    assert FlattenInto(b, "a", one) == FlattenInto(b[1..], "a", Put(one, "a.b", "y"));
    assert Put(one, "a.b", "y") == one + [Pair("a.b", "y")];
    assert FlattenInto(entries, "", []) == FlattenInto(entries[1..], "", one) == FlattenInto(b, "a", one);
    var flat := FlattenInto(entries, "", []);
    assert flat[0].key + "." <= flat[1].key;
  }

  /** Every locale map whose own keys have no dots flattens to a rebuildable map, if
      none of its maps at the root has an empty key. */
  lemma PlainTreeIsRebuildable(entries: Entries)
    requires IsPlain(entries) && HasNoEmptyRoot(entries)
    ensures Distinct(FlattenInto(entries, "", [])) && IsRebuildable(FlattenInto(entries, "", []))
  {
    var flat := FlattenInto(entries, "", []);
    FlattenDistinct(entries, "", []);
    forall i, j | 0 <= i < |flat| && 0 <= j < |flat|
      ensures !StartsWithDot(flat[i].key) && !(flat[i].key + "." <= flat[j].key)
    {
      GetHere(flat, i);
      GetHere(flat, j);
      KeysFromPlainTree(entries, flat[i].key, flat[j].key);
    }
  }
}
