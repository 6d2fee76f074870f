/** One locale sync, as it runs (`syncLocale`): it reads the files, resolves every
    key, asks the agent for the rest, and writes the files it planned. */
module LocaleSync {
  import opened JsText
  import opened Outcomes
  import opened OrderedMap
  import opened Sorting
  import opened RpcClient
  import opened TranslationTree
  import opened TranslationBatching
  import opened BatchTranslation
  import opened SyncPlan
  import opened SyncLaws
  import opened SyncRun

  /** The files of one locale. */
  class LocaleFiles {
    var tree: Option<Entries>
    var meta: Option<Meta>
    var glossary: Option<seq<GlossaryEntry>>
    var tm: seq<TmEntry>

    ghost function View(): Disk
      reads this
    {
      Disk(tree, meta, glossary, tm)
    }

    constructor (tree: Option<Entries>, meta: Option<Meta>, glossary: Option<seq<GlossaryEntry>>, tm: seq<TmEntry>)
      ensures View() == Disk(tree, meta, glossary, tm)
    {
      this.tree, this.meta, this.glossary, this.tm := tree, meta, glossary, tm;
    }

    method Write(tree: Entries, meta: Meta, glossary: seq<GlossaryEntry>, tm: seq<TmEntry>)
      modifies this
      ensures View() == Disk(Some(tree), Some(meta), Some(glossary), tm)
    {
      this.tree, this.meta, this.glossary, this.tm := Some(tree), Some(meta), Some(glossary), tm;
    }
  }

  // ---- first pass ------------------------------------------------------------------

  ghost predicate IsNextOf(env: Env, loaded: Loaded, source: Flat, next: map<string, string>) {
    && (forall i | 0 <= i < |source| ::
          source[i].key in next <==> !DecideFor(env, loaded, loaded.tm, source[i]).Pending?)
    && (forall i | 0 <= i < |source| && source[i].key in next ::
          next[source[i].key] == FinalValue(env, loaded, map[], source[i]))
    && (forall key | key in next :: exists i :: 0 <= i < |source| && source[i].key == key)
  }

  /** The loop over all source strings. The memory it consults grows as it goes;
      the result is nevertheless decided by the memory as it was loaded. */
  method ResolveKeys(env: Env, loaded: Loaded, source: Flat)
    returns (next: map<string, string>, tm: Memory, pending: seq<Item>, reusedFallback: seq<string>)
    requires CollisionFree(env) && Distinct(source)
    ensures IsNextOf(env, loaded, source, next)
    ensures tm == PutAll(loaded.tm, Copies(env, loaded, source))
    ensures pending == PendingItems(env, loaded, source)
    ensures reusedFallback == ReusedFallbackKeys(env, loaded, source)
  {
    next, tm, pending, reusedFallback := map[], loaded.tm, [], [];
    for i := 0 to |source|
      invariant AreResolved(env, loaded, source[..i], next, tm, pending, reusedFallback)
    {
      var p := source[i];
      var textHash := env.hashText(p.value);
      var segmentCacheKey := env.cacheKey(p.key, textHash);
      var cached := Get(tm, segmentCacheKey);
      var cachedByText := Get(loaded.byText, textHash);
      var existing := Get(loaded.existing, p.key);
      var shouldRefreshFallback := p.key in loaded.previousFallback;
      ResolvedNext(env, loaded, source, i, next, tm, pending, reusedFallback);
      if cached.Some? && !(env.allowTranslate && shouldRefreshFallback) {
        next := next[p.key := cached.value.translated];
        if shouldRefreshFallback { reusedFallback := reusedFallback + [p.key]; }
      } else if cachedByText.Some? && (shouldRefreshFallback || existing.None?) {
        next := next[p.key := cachedByText.value.translated];
        var copy := cachedByText.value.(cacheKey := segmentCacheKey, segmentId := p.key, sourcePath := env.sourcePath);
        tm := Put(tm, segmentCacheKey, copy);
      } else if existing.Some? && !(env.allowTranslate && shouldRefreshFallback) {
        next := next[p.key := existing.value];
        if shouldRefreshFallback { reusedFallback := reusedFallback + [p.key]; }
      } else {
        pending := pending + [Item(segmentCacheKey, p.key, p.value, textHash)];
      }
    }
    assert source[..|source|] == source;
  }

  /** The state of the loop after `source`. */
  ghost predicate AreResolved(env: Env, loaded: Loaded, source: Flat, next: map<string, string>, tm: Memory,
                              pending: seq<Item>, reused: seq<string>)
  {
    && IsNextOf(env, loaded, source, next)
    && tm == PutAll(loaded.tm, Copies(env, loaded, source))
    && pending == PendingItems(env, loaded, source)
    && reused == ReusedFallbackKeys(env, loaded, source)
  }

  /** What one turn does to the state, by the decision for its key. */
  lemma ResolvedNext(env: Env, loaded: Loaded, source: Flat, i: nat, next: map<string, string>, tm: Memory,
                     pending: seq<Item>, reused: seq<string>)
    requires CollisionFree(env) && Distinct(source) && i < |source|
    requires AreResolved(env, loaded, source[..i], next, tm, pending, reused)
    ensures var p, d := source[i], DecideFor(env, loaded, tm, source[i]);
            AreResolved(env, loaded, source[..i + 1],
                        match d {
                          case Cached(value) => next[p.key := value]
                          case ByText(entry) => next[p.key := entry.translated]
                          case Keep(value) => next[p.key := value]
                          case Pending => next
                        },
                        if d.ByText? then Put(tm, KeyOf(env, p), CopyFor(env, d.entry, p)) else tm,
                        if d.Pending? then pending + [ItemOf(env, p)] else pending,
                        if IsReusedFallback(loaded, d, p.key) then reused + [p.key] else reused)
  {
    var p, d := source[i], DecideFor(env, loaded, loaded.tm, source[i]);
    MemorySoFar(env, loaded, source, i);
    NextExtends(env, loaded, source, i, next);
    assert source[..i + 1][..i] == source[..i];
    if d.ByText? {
      PutAllAppend(loaded.tm, Copies(env, loaded, source[..i]), KeyOf(env, p), CopyFor(env, d.entry, p));
    }
  }

  function ReusedFallbackKeys(env: Env, loaded: Loaded, source: Flat): seq<string> {
    if source == [] then []
    else
      var init, p := ReusedFallbackKeys(env, loaded, source[..|source| - 1]), source[|source| - 1];
      if IsReusedFallback(loaded, DecideFor(env, loaded, loaded.tm, p), p.key) then init + [p.key] else init
  }

  lemma MemorySoFar(env: Env, loaded: Loaded, source: Flat, i: nat)
    requires CollisionFree(env) && Distinct(source) && i < |source|
    ensures Get(PutAll(loaded.tm, Copies(env, loaded, source[..i])), KeyOf(env, source[i])) ==
            Get(loaded.tm, KeyOf(env, source[i]))
  {
    var copies := Copies(env, loaded, source[..i]);
    CopiesMembers(env, loaded, source[..i]);
    forall c | c in copies ensures c.key != KeyOf(env, source[i]) {
      var at :| 0 <= at < i && IsCopyOf(env, loaded, source[..i][at], c);
      KeysDiffer(env, source, at, i);
    }
    GetAbsent(copies, KeyOf(env, source[i]));
    GetPutAll(loaded.tm, copies, KeyOf(env, source[i]));
  }

  lemma NextExtends(env: Env, loaded: Loaded, source: Flat, i: nat, next: map<string, string>)
    requires Distinct(source) && i < |source| && IsNextOf(env, loaded, source[..i], next)
    ensures var d := DecideFor(env, loaded, loaded.tm, source[i]);
            IsNextOf(env, loaded, source[..i + 1],
                     if d.Pending? then next else next[source[i].key := FinalValue(env, loaded, map[], source[i])])
  {
    var d := DecideFor(env, loaded, loaded.tm, source[i]);
    var more := if d.Pending? then next else next[source[i].key := FinalValue(env, loaded, map[], source[i])];
    assert source[i].key !in next by {
      assert forall at | 0 <= at < i :: source[..i][at].key == source[at].key != source[i].key;
    }
    var seen := source[..i + 1];
    forall j | 0 <= j < |seen|
      ensures seen[j].key in more <==> !DecideFor(env, loaded, loaded.tm, seen[j]).Pending?
      ensures seen[j].key in more ==> more[seen[j].key] == FinalValue(env, loaded, map[], seen[j])
    {
      if j < i { assert source[..i][j] == source[j]; assert source[j].key != source[i].key; }
    }
    forall key | key in more ensures exists j :: 0 <= j < |seen| && seen[j].key == key {
      if key in next {
        var at :| 0 <= at < i && source[..i][at].key == key;
        assert seen[at].key == key;
      } else {
        assert seen[i].key == key;
      }
    }
  }

  // ---- asking the agent --------------------------------------------------------------

  /** The state after the translations of `items` were recorded. */
  ghost predicate IsRecorded(env: Env, now: string, items: seq<Item>, translated: Translations,
                             next: map<string, string>, next': map<string, string>, tm: Memory, tm': Memory)
  {
    && translated.Keys == KeysOf(items)
    && (forall key | key in translated :: !IsBlank(translated[key]))
    && next' == next + translated
    && tm' == PutAll(tm, NewEntries(env, now, items, translated))
  }

  method RecordBatch(env: Env, now: string, next: map<string, string>, tm: Memory, batch: seq<Item>,
      translated: Translations)
    returns (next': map<string, string>, tm': Memory)
    requires translated.Keys == KeysOf(batch) && forall key | key in translated :: !IsBlank(translated[key])
    requires AreDistinctItems(batch)
    ensures IsRecorded(env, now, batch, translated, next, next', tm, tm')
  {
    next', tm' := next, tm;
    ghost var recorded: Translations := map[];
    for i := 0 to |batch|
      invariant IsRecorded(env, now, batch[..i], recorded, next, next', tm, tm')
      invariant IsPartOf(recorded, translated)
    {
      var item := batch[i];
      assert item.key in KeysOf(batch);
      var value := translated[item.key];
      ghost var next1, tm1 := next', tm';
      RecordNext(env, now, batch, i, recorded, value, next, next1, tm, tm1);
      if value != "" {
        next' := next'[item.key := value];
        tm' := Put(tm', item.cacheKey, NewEntry(env, now, item, value));
      }
      PartGrows(recorded, translated, item.key);
      recorded := recorded + map[item.key := value];
    }
    assert batch[..|batch|] == batch;
    SameTranslations(env, now, batch, recorded, translated, next, next', tm, tm');
  }

  ghost predicate IsPartOf(part: Translations, whole: Translations) {
    forall key | key in part :: key in whole && part[key] == whole[key]
  }

  lemma PartGrows(part: Translations, whole: Translations, key: string)
    requires IsPartOf(part, whole) && key in whole
    ensures IsPartOf(part + map[key := whole[key]], whole)
  {
  }

  lemma SameTranslations(env: Env, now: string, batch: seq<Item>, recorded: Translations, translated: Translations,
                         next: map<string, string>, next': map<string, string>, tm: Memory, tm': Memory)
    requires IsRecorded(env, now, batch, recorded, next, next', tm, tm')
    requires translated.Keys == KeysOf(batch)
    requires IsPartOf(recorded, translated)
    ensures recorded == translated
  {
    assert recorded.Keys == translated.Keys;
  }

  lemma PrefixPlusOne(items: seq<Item>, i: nat)
    requires AreDistinctItems(items) && i < |items|
    ensures items[..i + 1] == items[..i] + [items[i]] && AreDistinctItems(items[..i] + [items[i]])
  {
    assert items[..i + 1] == items[..i] + [items[i]];
  }

  lemma RecordOne(env: Env, now: string, item: Item, value: string,
                  next: map<string, string>, tm: Memory)
    requires !IsBlank(value)
    ensures IsRecorded(env, now, [item], map[item.key := value], next, next[item.key := value],
                       tm, Put(tm, item.cacheKey, NewEntry(env, now, item, value)))
  {
    assert KeysOf([item]) == {item.key} by { assert [item][0] == item; }
    var entry := Pair(item.cacheKey, NewEntry(env, now, item, value));
    assert NewEntries(env, now, [item], map[item.key := value]) == [entry];
    assert [entry][..0] == [];
  }

  lemma {:induction false} PutAllConcat<K, V>(m: seq<Pair<K, V>>, a: seq<Pair<K, V>>, b: seq<Pair<K, V>>)
    ensures PutAll(m, a + b) == PutAll(PutAll(m, a), b)
  {
    if b == [] {
      assert a + b == a;
    } else {
      var n := |b| - 1;
      PutAllConcat(m, a, b[..n]);
      assert (a + b)[..|a + b| - 1] == a + b[..n];
    }
  }

  lemma DisjointKeys(a: seq<Item>, b: seq<Item>)
    requires AreDistinctItems(a + b)
    ensures KeysOf(a) !! KeysOf(b)
  {
    var ab := a + b;
    forall i, j | 0 <= i < |a| && 0 <= j < |b| ensures a[i].key != b[j].key {
      assert ab[i].key != ab[|a| + j].key;
    }
  }

  lemma EntriesConcat(env: Env, now: string, a: seq<Item>, b: seq<Item>, ta: Translations, tb: Translations)
    requires ta.Keys == KeysOf(a) && tb.Keys == KeysOf(b) && KeysOf(a) !! KeysOf(b)
    ensures (ta + tb).Keys == KeysOf(a + b)
    ensures NewEntries(env, now, a + b, ta + tb) == NewEntries(env, now, a, ta) + NewEntries(env, now, b, tb)
  {
    KeysOfAppend(a, b);
    forall i | 0 <= i < |a| ensures a[i].key !in tb && a[i].key in ta {
      assert a[i].key in KeysOf(a);
    }
    assert forall j | 0 <= j < |b| :: b[j].key in KeysOf(b);
  }

  lemma RecordMore(env: Env, now: string, a: seq<Item>, b: seq<Item>, ta: Translations, tb: Translations,
                   next: map<string, string>, next1: map<string, string>, next2: map<string, string>,
                   tm: Memory, tm1: Memory, tm2: Memory)
    requires AreDistinctItems(a + b)
    requires IsRecorded(env, now, a, ta, next, next1, tm, tm1) && IsRecorded(env, now, b, tb, next1, next2, tm1, tm2)
    ensures IsRecorded(env, now, a + b, ta + tb, next, next2, tm, tm2)
  {
    DisjointKeys(a, b);
    EntriesConcat(env, now, a, b, ta, tb);
    PutAllConcat(tm, NewEntries(env, now, a, ta), NewEntries(env, now, b, tb));
    SumAssociates(next, ta, tb);
  }

  lemma RecordNext(env: Env, now: string, batch: seq<Item>, i: nat, recorded: Translations, value: string,
                   next: map<string, string>, next1: map<string, string>, tm: Memory, tm1: Memory)
    requires AreDistinctItems(batch) && i < |batch| && !IsBlank(value)
    requires IsRecorded(env, now, batch[..i], recorded, next, next1, tm, tm1)
    ensures IsRecorded(env, now, batch[..i + 1], recorded + map[batch[i].key := value], next,
                       next1[batch[i].key := value], tm,
                       Put(tm1, batch[i].cacheKey, NewEntry(env, now, batch[i], value)))
  {
    var item := batch[i];
    PrefixPlusOne(batch, i);
    RecordOne(env, now, item, value, next1, tm1);
    RecordMore(env, now, batch[..i], [item], recorded, map[item.key := value], next, next1, next1[item.key := value],
               tm, tm1, Put(tm1, item.cacheKey, NewEntry(env, now, item, value)));
  }

  lemma SumAssociates<K, V>(a: map<K, V>, b: map<K, V>, c: map<K, V>)
    ensures a + b + c == a + (b + c)
  {
  }

  /** Where `batches` have led: to these translations and this many exchanges. */
  ghost predicate IsDelivered(access: ClientAccess, start: nat, batches: seq<seq<Item>>, r: Result<Translations>)
    reads access
  {
    BatchRun(r, access.attempts) == RunBatches(access.script, start, batches)
  }

  method RequestTranslations(env: Env, now: string, budget: real, access: ClientAccess,
                             next: map<string, string>, tm: Memory, pending: seq<Item>)
    returns (failure: Option<string>, translated: Translations, next': map<string, string>, tm': Memory)
    requires AreDistinctItems(pending) && access.Valid()
    modifies access
    ensures access.Valid()
    ensures IsDelivered(access, old(access.attempts), Packed(pending, budget),
                        if failure.Some? then Err(failure.value) else Ok(translated))
    ensures failure.None? ==> IsRecorded(env, now, pending, translated, next, next', tm, tm')
  {
    var batches := BuildTranslationBatches(pending, budget);
    assert Concat(batches) == pending;
    failure, translated, next', tm' := RequestBatches(env, now, access, batches, next, tm);
  }

  method RequestBatches(env: Env, now: string, access: ClientAccess, batches: seq<seq<Item>>,
                        next: map<string, string>, tm: Memory)
    returns (failure: Option<string>, translated: Translations, next': map<string, string>, tm': Memory)
    requires AreDistinctItems(Concat(batches)) && access.Valid()
    modifies access
    ensures access.Valid()
    ensures IsDelivered(access, old(access.attempts), batches,
                        if failure.Some? then Err(failure.value) else Ok(translated))
    ensures failure.None? ==> IsRecorded(env, now, Concat(batches), translated, next, next', tm, tm')
  {
    failure, translated, next', tm' := None, map[], next, tm;
    for i := 0 to |batches|
      invariant failure.None?
      invariant IsRequested(env, now, access, old(access.attempts), batches[..i], translated, next, next', tm, tm')
    {
      NextBatch(batches, i);
      failure, translated, next', tm' :=
        RequestBatch(env, now, access, batches, i, old(access.attempts), translated, next, next', tm, tm');
      if failure.Some? { return; }
    }
    assert batches[..|batches|] == batches;
  }

  /** Where `batches` have led: to these translations, all recorded, and this many exchanges. */
  ghost predicate IsRequested(env: Env, now: string, access: ClientAccess, start: nat, batches: seq<seq<Item>>,
                              translated: Translations, next: map<string, string>, next': map<string, string>,
                              tm: Memory, tm': Memory)
    reads access
  {
    && access.Valid() && IsDelivered(access, start, batches, Ok(translated))
    && IsRecorded(env, now, Concat(batches), translated, next, next', tm, tm')
  }

  /** One batch of the loop: its texts are recorded, or its error ends the loop. */
  method RequestBatch(env: Env, now: string, access: ClientAccess, batches: seq<seq<Item>>, i: nat, ghost start: nat,
                      before: Translations, ghost next: map<string, string>, next1: map<string, string>,
                      ghost tm: Memory, tm1: Memory)
    returns (failure: Option<string>, translated: Translations, next': map<string, string>, tm': Memory)
    requires i < |batches| && AreDistinctItems(Concat(batches[..i]) + batches[i]) && AreDistinctItems(batches[i])
    requires Concat(batches[..i + 1]) == Concat(batches[..i]) + batches[i]
    requires IsRequested(env, now, access, start, batches[..i], before, next, next1, tm, tm1)
    modifies access
    ensures failure.Some? ==> access.Valid() && IsDelivered(access, start, batches, Err(failure.value))
    ensures failure.None? ==> IsRequested(env, now, access, start, batches[..i + 1], translated, next, next', tm, tm')
  {
    var result := TranslateChecked(access, batches, i, before, start);
    if result.Err? { return Some(result.message), before, next1, tm1; }
    next', tm' := RecordBatch(env, now, next1, tm1, batches[i], result.value);
    RecordMore(env, now, Concat(batches[..i]), batches[i], before, result.value, next, next1, next', tm, tm1, tm');
    return None, before + result.value, next', tm';
  }

  /** `TranslateBatch` on the next batch: the texts it adds, or the error that ends the delivery. */
  method TranslateChecked(access: ClientAccess, batches: seq<seq<Item>>, i: nat, ghost translated: Translations,
                          ghost start: nat) returns (r: Result<Translations>)
    requires i < |batches| && access.Valid() && IsDelivered(access, start, batches[..i], Ok(translated))
    modifies access
    ensures access.Valid()
    ensures r.Ok? ==> IsDelivered(access, start, batches[..i + 1], Ok(translated + r.value))
    ensures r.Err? ==> IsDelivered(access, start, batches, r)
    ensures r.Ok? ==> r.value.Keys == KeysOf(batches[i]) && forall key | key in r.value :: !IsBlank(r.value[key])
  {
    ghost var before := access.attempts;
    r := TranslateBatch(access, batches[i]);
    assert batches[..i + 1][..i] == batches[..i];
    if r.Ok? {
      BatchIsComplete(access.script, before, batches[i], 0);
    } else {
      FailedDelivery(access.script, start, batches, i + 1);
    }
  }

  /** The batches after a failed one are not tried. */
  lemma {:induction false} FailedDelivery(script: Script, at: nat, batches: seq<seq<Item>>, n: nat)
    requires n <= |batches| && RunBatches(script, at, batches[..n]).result.Err?
    ensures RunBatches(script, at, batches) == RunBatches(script, at, batches[..n])
    decreases |batches| - n
  {
    if n == |batches| {
      assert batches[..n] == batches;
    } else {
      assert batches[..n + 1][..n] == batches[..n];
      FailedDelivery(script, at, batches, n + 1);
    }
  }

  lemma NextBatch(batches: seq<seq<Item>>, i: nat)
    requires AreDistinctItems(Concat(batches)) && i < |batches|
    ensures Concat(batches[..i + 1]) == Concat(batches[..i]) + batches[i]
    ensures AreDistinctItems(Concat(batches[..i]) + batches[i]) && AreDistinctItems(batches[i])
  {
    ConcatSplit(batches, i);
    ConcatIsFront(batches, i + 1);
    DistinctParts(Concat(batches), Concat(batches[..i]), batches[i]);
  }

  lemma DistinctParts(items: seq<Item>, before: seq<Item>, batch: seq<Item>)
    requires AreDistinctItems(items) && before + batch <= items
    ensures AreDistinctItems(before + batch) && AreDistinctItems(batch)
  {
    var seen := before + batch;
    assert forall j | 0 <= j < |seen| :: seen[j] == items[j];
    assert forall j | 0 <= j < |batch| :: batch[j] == seen[|before| + j];
  }

  lemma {:induction false} ConcatIsFront<T>(parts: seq<seq<T>>, k: nat)
    requires k <= |parts|
    ensures Concat(parts[..k]) <= Concat(parts)
  {
    if k == |parts| {
      assert parts[..k] == parts;
    } else {
      ConcatIsFront(parts[..|parts| - 1], k);
      assert parts[..|parts| - 1][..k] == parts[..k];
    }
  }

  // ---- reading -----------------------------------------------------------------------

  method LoadTranslationMemory(lines: seq<TmEntry>) returns (entries: Memory)
    ensures entries == LoadMemory(lines)
  {
    entries := [];
    for i := 0 to |lines|
      invariant entries == LoadMemory(lines[..i])
    {
      assert lines[..i + 1][..i] == lines[..i];
      if lines[i].cacheKey != "" && !IsBlank(lines[i].translated) {
        entries := Put(entries, lines[i].cacheKey, lines[i]);
      }
    }
    assert lines[..|lines|] == lines;
  }

  method BuildTranslationMemoryByTextHash(entries: Memory, locale: string) returns (byTextHash: Memory)
    ensures byTextHash == ByTextHash(entries, locale)
  {
    byTextHash := [];
    for i := 0 to |entries|
      invariant byTextHash == ByTextHash(entries[..i], locale)
    {
      var entry := entries[i].value;
      assert entries[..i + 1][..i] == entries[..i];
      if entry.tgtLang != locale || entry.textHash == "" || IsBlank(entry.translated) {
        continue;
      }
      byTextHash := Put(byTextHash, entry.textHash, entry);
    }
    assert entries[..|entries|] == entries;
  }

  method ReadFiles(env: Env, files: LocaleFiles) returns (loaded: Loaded)
    ensures loaded == Load(env, files.View())
  {
    var existing: Flat := [];
    if files.tree.Some? {
      existing := FlattenTranslations(files.tree.value, "", []);
    }
    var tm := LoadTranslationMemory(files.tm);
    var byText := BuildTranslationMemoryByTextHash(tm, env.locale);
    return Loaded(tm, byText, existing, if files.meta.Some? then files.meta.value.fallbackKeys else []);
  }

  // ---- the last pass -----------------------------------------------------------------

  function KeyList(items: seq<Item>): seq<string> {
    seq(|items|, i requires 0 <= i < |items| => items[i].key)
  }

  /** Keys still without a value take the source text and become fallbacks. The
      branch that would take the existing text instead is never entered. */
  method FallBackPending(env: Env, options: Options, loaded: Loaded, source: Flat, pending: seq<Item>,
                         next: map<string, string>, fallback: seq<string>)
    returns (next': map<string, string>, fallback': seq<string>)
    requires CollisionFree(env) && Distinct(source) && pending == PendingItems(env, loaded, source)
    requires env.allowTranslate ==> forall i | 0 <= i < |pending| :: pending[i].key in next
    requires !env.allowTranslate ==> forall i | 0 <= i < |pending| :: pending[i].key !in next
    ensures env.allowTranslate ==> next' == next && fallback' == fallback
    ensures !env.allowTranslate ==> fallback' == fallback + KeyList(pending)
    ensures !env.allowTranslate ==>
              && (forall key | key in next :: key in next' && next'[key] == next[key])
              && (forall i | 0 <= i < |pending| :: pending[i].key in next' && next'[pending[i].key] == pending[i].text)
  {
    PendingMembers(env, loaded, source);
    next', fallback' := next, fallback;
    for i := 0 to |pending|
      invariant env.allowTranslate ==> next' == next && fallback' == fallback
      invariant !env.allowTranslate ==> fallback' == fallback + KeyList(pending[..i])
      invariant !env.allowTranslate ==> forall key | key in next :: key in next' && next'[key] == next[key]
      invariant !env.allowTranslate ==>
                  forall j | 0 <= j < i :: pending[j].key in next' && next'[pending[j].key] == pending[j].text
      invariant !env.allowTranslate ==> forall j | i <= j < |pending| :: pending[j].key !in next'
    {
      var item := pending[i];
      if item.key in next' { continue; }
      var existing := Get(loaded.existing, item.key);
      PendingHasNoExisting(env, loaded, source, i);
      if existing.Some? && !options.force {
        assert false;
      }
      next' := next'[item.key := item.text];
      assert KeyList(pending[..i + 1]) == KeyList(pending[..i]) + [item.key];
      fallback' := fallback' + [item.key];
    }
    assert pending[..|pending|] == pending;
  }

  /** Without a provider, only keys that the existing file lacks are left pending. */
  lemma PendingHasNoExisting(env: Env, loaded: Loaded, source: Flat, i: nat)
    requires CollisionFree(env) && Distinct(source) && i < |PendingItems(env, loaded, source)|
    ensures !env.allowTranslate ==> Get(loaded.existing, PendingItems(env, loaded, source)[i].key).None?
  {
    var item := PendingItems(env, loaded, source)[i];
    PendingMembers(env, loaded, source);
    assert item in PendingItems(env, loaded, source);
    var at :| 0 <= at < |source| && IsItemOf(env, loaded, source[at], item);
  }

  /** `[...new Set(keys)]`. */
  method Unique(keys: seq<string>) returns (unique: seq<string>)
    ensures DistinctKeys(unique, SameKey) && SameElements(unique, keys)
  {
    unique := [];
    for i := 0 to |keys|
      invariant DistinctKeys(unique, SameKey) && SameElements(unique, keys[..i])
    {
      assert keys[..i + 1] == keys[..i] + [keys[i]];
      if keys[i] !in unique {
        unique := unique + [keys[i]];
      }
    }
    assert keys[..|keys|] == keys;
  }

  lemma {:induction false} ReusedMembers(env: Env, loaded: Loaded, source: Flat, key: string)
    ensures key in ReusedFallbackKeys(env, loaded, source) <==>
            exists i :: 0 <= i < |source| && IsReusedAt(env, loaded, source[i], key)
  {
    if source != [] {
      var n := |source| - 1;
      ReusedMembers(env, loaded, source[..n], key);
      assert forall i | 0 <= i < n :: source[..n][i] == source[i];
      if IsReusedAt(env, loaded, source[n], key) {}
    }
  }

  ghost predicate IsReusedAt(env: Env, loaded: Loaded, p: Pair<string, string>, key: string) {
    p.key == key && IsReusedFallback(loaded, DecideFor(env, loaded, loaded.tm, p), key)
  }

  ghost predicate IsPendingAt(env: Env, loaded: Loaded, p: Pair<string, string>, key: string) {
    p.key == key && DecideFor(env, loaded, loaded.tm, p).Pending?
  }

  lemma PendingKeys(env: Env, loaded: Loaded, source: Flat, key: string)
    requires CollisionFree(env) && Distinct(source)
    ensures key in KeyList(PendingItems(env, loaded, source)) <==>
            exists i :: 0 <= i < |source| && IsPendingAt(env, loaded, source[i], key)
  {
    var items := PendingItems(env, loaded, source);
    PendingMembers(env, loaded, source);
    if key in KeyList(items) {
      var a :| 0 <= a < |items| && items[a].key == key;
      assert items[a] in items;
      var i :| 0 <= i < |source| && IsItemOf(env, loaded, source[i], items[a]);
      assert IsPendingAt(env, loaded, source[i], key);
    }
    if i: nat :| i < |source| && IsPendingAt(env, loaded, source[i], key) {
      var a :| 0 <= a < |items| && items[a] == ItemOf(env, source[i]);
      assert KeyList(items)[a] == key;
    }
  }

  /** The two places that push fallback keys together yield the specified list. */
  lemma FallbackListsAgree(env: Env, loaded: Loaded, source: Flat, pushed: seq<string>)
    requires CollisionFree(env) && Distinct(source)
    requires pushed == ReusedFallbackKeys(env, loaded, source) +
                       if env.allowTranslate then [] else KeyList(PendingItems(env, loaded, source))
    ensures SameElements(pushed, FallbackKeys(env, loaded, source))
  {
    FallbackMembers(env, loaded, source);
    forall key ensures key in pushed <==> key in FallbackKeys(env, loaded, source) {
      ReusedMembers(env, loaded, source, key);
      PendingKeys(env, loaded, source, key);
      if i: nat :| i < |source| && source[i].key == key && IsFallback(env, loaded, source[i]) {
        assert IsPendingAt(env, loaded, source[i], key) || IsReusedAt(env, loaded, source[i], key);
      }
    }
  }

  // ---- the sync ----------------------------------------------------------------------

  ghost predicate IsFinal(env: Env, loaded: Loaded, translated: Translations, source: Flat, next: map<string, string>) {
    forall i | 0 <= i < |source| ::
      source[i].key in next && next[source[i].key] == FinalValue(env, loaded, translated, source[i])
  }

  lemma PendingKeyFinal(env: Env, loaded: Loaded, source: Flat, i: nat)
    requires CollisionFree(env) && Distinct(source) && i < |source|
    requires DecideFor(env, loaded, loaded.tm, source[i]).Pending?
    ensures exists a :: 0 <= a < |PendingItems(env, loaded, source)| &&
              PendingItems(env, loaded, source)[a] == ItemOf(env, source[i])
    ensures source[i].key in KeysOf(PendingItems(env, loaded, source))
  {
    var items := PendingItems(env, loaded, source);
    PendingMembers(env, loaded, source);
    var a :| 0 <= a < |items| && items[a] == ItemOf(env, source[i]);
    assert items[a].key in KeysOf(items);
  }

  lemma SettledKeyNotPending(env: Env, loaded: Loaded, source: Flat, i: nat)
    requires CollisionFree(env) && Distinct(source) && i < |source|
    requires !DecideFor(env, loaded, loaded.tm, source[i]).Pending?
    ensures source[i].key !in KeysOf(PendingItems(env, loaded, source))
  {
    var items := PendingItems(env, loaded, source);
    PendingMembers(env, loaded, source);
    forall a | 0 <= a < |items| ensures items[a].key != source[i].key {
      assert items[a] in items;
      var at :| 0 <= at < |source| && IsItemOf(env, loaded, source[at], items[a]);
      assert at < i ==> source[at].key != source[i].key;
      assert i < at ==> source[i].key != source[at].key;
    }
  }

  /** After the last pass every source key has its final value. */
  lemma AllKeysFinal(env: Env, loaded: Loaded, source: Flat, translated: Translations,
                     first: map<string, string>, next: map<string, string>)
    requires CollisionFree(env) && Distinct(source) && IsNextOf(env, loaded, source, first)
    requires env.allowTranslate ==>
               translated.Keys == KeysOf(PendingItems(env, loaded, source)) && next == first + translated
    requires !env.allowTranslate ==>
               && (forall key | key in first :: key in next && next[key] == first[key])
               && (forall a | 0 <= a < |PendingItems(env, loaded, source)| ::
                     var item := PendingItems(env, loaded, source)[a]; item.key in next && next[item.key] == item.text)
    ensures IsFinal(env, loaded, translated, source, next)
  {
    forall i | 0 <= i < |source|
      ensures source[i].key in next && next[source[i].key] == FinalValue(env, loaded, translated, source[i])
    {
      if DecideFor(env, loaded, loaded.tm, source[i]).Pending? {
        PendingKeyFinal(env, loaded, source, i);
      } else {
        SettledKeyFinal(env, loaded, source, translated, first, i);
      }
    }
  }

  lemma SettledKeyFinal(env: Env, loaded: Loaded, source: Flat, translated: Translations,
      first: map<string, string>, i: nat)
    requires CollisionFree(env) && Distinct(source) && IsNextOf(env, loaded, source, first) && i < |source|
    requires !DecideFor(env, loaded, loaded.tm, source[i]).Pending?
    ensures source[i].key !in KeysOf(PendingItems(env, loaded, source))
    ensures source[i].key in first && first[source[i].key] == FinalValue(env, loaded, translated, source[i])
  {
    SettledKeyNotPending(env, loaded, source, i);
    assert source[i].key in first;
  }

  lemma FirstPassDisjoint(env: Env, loaded: Loaded, source: Flat, first: map<string, string>)
    requires CollisionFree(env) && Distinct(source) && IsNextOf(env, loaded, source, first)
    ensures forall a | 0 <= a < |PendingItems(env, loaded, source)| ::
            PendingItems(env, loaded, source)[a].key !in first
  {
    var items := PendingItems(env, loaded, source);
    PendingMembers(env, loaded, source);
    forall a | 0 <= a < |items| ensures items[a].key !in first {
      assert items[a] in items;
      var at :| 0 <= at < |source| && IsItemOf(env, loaded, source[at], items[a]);
    }
  }

  method BuildNestedMap(env: Env, loaded: Loaded, source: Flat, translated: Translations, next: map<string, string>)
    returns (flat: Flat, nested: Entries)
    requires IsFinal(env, loaded, translated, source, next)
    ensures flat == FinalFlat(env, loaded, translated, source) && nested == Build(flat)
  {
    flat, nested := [], [];
    for i := 0 to |source|
      invariant flat == FinalFlat(env, loaded, translated, source)[..i] && nested == Build(flat)
    {
      var value := next[source[i].key];
      nested := SetNested(nested, Split(source[i].key), value);
      assert (flat + [Pair(source[i].key, value)])[..|flat|] == flat;
      flat := flat + [Pair(source[i].key, value)];
    }
  }

  /** What was asked of the agent, and what came of it. */
  ghost predicate IsDelivery(env: Env, access: ClientAccess, start: nat, budget: real, items: seq<Item>,
                             r: Result<Translations>)
    reads access
  {
    BatchRun(r, access.attempts) == Delivery(env, access.script, start, budget, items)
  }

  /** Asks the agent for the pending strings, if there is one and there are any. */
  method Translate(env: Env, now: string, budget: real, access: ClientAccess, first: map<string, string>,
      tm: Memory, pending: seq<Item>)
    returns (failure: Option<string>, delivered: Translations, next: map<string, string>, tm': Memory)
    requires AreDistinctItems(pending) && access.Valid()
    modifies access
    ensures access.Valid()
    ensures !env.allowTranslate || pending == [] ==> failure.None? && access.prompts == old(access.prompts)
    ensures IsDelivery(env, access, old(access.attempts), budget, pending,
                       if failure.Some? then Err(failure.value) else Ok(delivered))
    ensures !env.allowTranslate ==> delivered == map[] && next == first && tm' == tm
    ensures failure.None? ==> Covers(env, pending, delivered)
    ensures failure.None? && env.allowTranslate ==>
              delivered.Keys == KeysOf(pending) && next == first + delivered &&
              tm' == PutAll(tm, NewEntries(env, now, pending, delivered))
  {
    failure, delivered, next, tm' := None, map[], first, tm;
    if env.allowTranslate && |pending| > 0 {
      failure, delivered, next, tm' := RequestTranslations(env, now, budget, access, first, tm, pending);
      access.Record(ClientReset);
    }
    assert forall a | 0 <= a < |pending| :: pending[a].key in KeysOf(pending);
  }

  /** The keys left without a translation, as the meta file lists them. */
  method ListFallbacks(env: Env, loaded: Loaded, source: Flat, pushed: seq<string>) returns (sorted: seq<string>)
    requires CollisionFree(env) && Distinct(source)
    requires pushed == ReusedFallbackKeys(env, loaded, source) +
                       if env.allowTranslate then [] else KeyList(PendingItems(env, loaded, source))
    ensures sorted == Sort(FallbackKeys(env, loaded, source), SameKey)
  {
    var unique := Unique(pushed);
    FallbackListsAgree(env, loaded, source, pushed);
    FallbackMembers(env, loaded, source);
    SortCanonical(unique, FallbackKeys(env, loaded, source), SameKey);
    sorted := Sort(unique, SameKey);
  }

  /** From the loaded files to a value for every key. */
  method SettleKeys(env: Env, options: Options, now: string, budget: real, access: ClientAccess, loaded: Loaded,
      source: Flat)
    returns (failure: Option<string>, delivered: Translations, flat: Flat, nested: Entries, tm: Memory,
        fallback: seq<string>)
    requires CollisionFree(env) && Distinct(source) && access.Valid()
    modifies access
    ensures access.Valid()
    ensures !env.allowTranslate || PendingItems(env, loaded, source) == [] ==>
              failure.None? && access.prompts == old(access.prompts)
    ensures IsDelivery(env, access, old(access.attempts), budget, PendingItems(env, loaded, source),
                       if failure.Some? then Err(failure.value) else Ok(delivered))
    ensures failure.None? ==>
              && Covers(env, PendingItems(env, loaded, source), delivered)
              && flat == FinalFlat(env, loaded, delivered, source) && nested == Build(flat)
              && tm == FinalMemory(env, now, loaded, delivered, source)
              && fallback == Sort(FallbackKeys(env, loaded, source), SameKey)
  {
    flat, nested := [], [];
    var first, pending, next;
    first, tm, pending, fallback := ResolveKeys(env, loaded, source);
    PendingMembers(env, loaded, source);
    FirstPassDisjoint(env, loaded, source, first);
    failure, delivered, next, tm := Translate(env, now, budget, access, first, tm, pending);
    if failure.Some? { return; }
    assert forall a | 0 <= a < |pending| :: pending[a].key in KeysOf(pending);
    next, fallback := FallBackPending(env, options, loaded, source, pending, next, fallback);
    AllKeysFinal(env, loaded, source, delivered, first, next);
    flat, nested := BuildNestedMap(env, loaded, source, delivered, next);
    fallback := ListFallbacks(env, loaded, source, fallback);
  }

  method SyncLocale(env: Env, options: Options, now: string, budget: real, files: LocaleFiles, access: ClientAccess,
                    sourceTree: Entries)
    returns (r: Result<Outcome>, translated: Option<Translations>)
    requires CollisionFree(env) && access.Valid()
    modifies files, access
    ensures access.Valid()
    ensures Ending(r, translated, files.View(), access.attempts)
            == Synced(env, options, now, budget, access.script, old(access.attempts), old(files.View()),
                      FlattenInto(sourceTree, "", []))
    ensures old(access.attempts) <= access.attempts
    ensures access.prompts == old(access.prompts) + PromptsIn(access.script, old(access.attempts), access.attempts)
  {
    var source := FlattenTranslations(sourceTree, "", []);
    FlattenDistinct(sourceTree, "", []);
    var loaded := ReadFiles(env, files);
    var failure, delivered, flat, nested, tm, sortedFallbackKeys :=
      SettleKeys(env, options, now, budget, access, loaded, source);
    DeliveryCovers(env, access.script, old(access.attempts), budget, PendingItems(env, loaded, source));
    PromptsConcat(access.script, 0, old(access.attempts), access.attempts);
    if failure.Some? {
      if options.authOptional && IsProviderAuthError(failure.value) {
        return Ok(Outcome(false, if files.meta.Some? then |files.meta.value.fallbackKeys| else 0, false)), None;
      }
      return Err(failure.value), None;
    }
    if !HasParity(source, flat) {
      return Err("placeholder mismatch"), None;
    }
    var nextMeta := NextMeta(env, now, files.meta, sortedFallbackKeys, |source|);
    var glossary := if files.glossary.Some? then files.glossary.value else [];
    var nextGlossary := if glossary == [] then env.defaultGlossary else glossary;
    var outcome := WriteBack(env, options, files, nested, nextMeta, nextGlossary, RenderMemory(tm));
    return Ok(outcome), Some(delivered);
  }

  /** Writes the four files if one of them is out of date and writing was asked for. */
  method WriteBack(env: Env, options: Options, files: LocaleFiles, nested: Entries, nextMeta: Meta,
                   nextGlossary: seq<GlossaryEntry>, expectedTm: seq<TmEntry>) returns (outcome: Outcome)
    modifies files
    ensures var disk := old(files.View());
            var expected := Disk(Some(nested), Some(nextMeta), Some(nextGlossary), expectedTm);
            && outcome == Outcome(disk != expected, |nextMeta.fallbackKeys|,
                                  disk != expected && options.write && !options.checkOnly)
            && files.View() == if outcome.wrote then expected else disk
  {
    var changed := files.tree != Some(nested) || files.meta != Some(nextMeta) ||
                   files.glossary != Some(nextGlossary) || files.tm != expectedTm;
    if !changed ||
       (files.meta.Some? && files.meta.value.sourceHash == env.sourceHash
        && !options.force && !options.checkOnly && !options.write) {
      return Outcome(changed, |nextMeta.fallbackKeys|, false);
    }
    if !options.checkOnly && options.write {
      files.Write(nested, nextMeta, nextGlossary, expectedTm);
    }
    return Outcome(changed, |nextMeta.fallbackKeys|, !options.checkOnly && options.write && changed);
  }
}
