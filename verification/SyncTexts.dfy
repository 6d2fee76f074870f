/** What a finished locale sync leaves in each of its four files, told from the files
    it read and what the agent delivered. */
module SyncTexts {
  import opened JsText
  import opened Outcomes
  import opened OrderedMap
  import opened Sorting
  import opened TranslationTree
  import opened TranslationBatching
  import opened BatchTranslation
  import opened SyncPlan
  import opened SyncLaws
  import opened SyncRun

  // ---- the memory file ---------------------------------------------------------------

  predicate IsUsableLine(e: TmEntry, cacheKey: string) {
    cacheKey != "" && e.cacheKey == cacheKey && !IsBlank(e.translated)
  }

  /** The last usable line of a cache key. */
  ghost predicate IsLastLine(lines: seq<TmEntry>, cacheKey: string, n: nat) {
    && n < |lines| && IsUsableLine(lines[n], cacheKey)
    && forall m | n < m < |lines| :: !IsUsableLine(lines[m], cacheKey)
  }

  lemma {:induction false} LoadedWhenUsable(lines: seq<TmEntry>, cacheKey: string)
    ensures Get(LoadMemory(lines), cacheKey).Some? <==> exists e :: e in lines && IsUsableLine(e, cacheKey)
  {
    if lines != [] {
      var init, last := lines[..|lines| - 1], lines[|lines| - 1];
      LoadedWhenUsable(init, cacheKey);
      GetPut(LoadMemory(init), last.cacheKey, last, cacheKey);
      assert lines == init + [last];
      assert last in lines && forall e | e in lines :: e in init || e == last;
    }
  }

  /** What the memory says about a cache key stands in its last usable line. */
  lemma {:induction false} LoadedIsLastLine(lines: seq<TmEntry>, cacheKey: string, n: nat)
    requires IsLastLine(lines, cacheKey, n)
    ensures Get(LoadMemory(lines), cacheKey) == Some(lines[n])
  {
    var init, last := lines[..|lines| - 1], lines[|lines| - 1];
    GetPut(LoadMemory(init), last.cacheKey, last, cacheKey);
    if n < |init| {
      assert !IsUsableLine(last, cacheKey);
      LoadedIsLastLine(init, cacheKey, n);
    }
  }

  /** The last entry of the memory that serves a text hash. */
  ghost predicate IsLastServing(m: Memory, locale: string, hash: string, n: nat) {
    && n < |m| && ServesHash(m[n].value, locale, hash)
    && forall k | n < k < |m| :: !ServesHash(m[k].value, locale, hash)
  }

  predicate ServesHash(e: TmEntry, locale: string, hash: string) {
    e.tgtLang == locale && hash != "" && e.textHash == hash && !IsBlank(e.translated)
  }

  /** A text hash is served by the last entry that can. */
  lemma {:induction false} ServedByLast(m: Memory, locale: string, hash: string, n: nat)
    requires IsLastServing(m, locale, hash, n)
    ensures Get(ByTextHash(m, locale), hash) == Some(m[n].value)
  {
    var init, last := m[..|m| - 1], m[|m| - 1].value;
    GetPut(ByTextHash(init, locale), last.textHash, last, hash);
    if n < |init| {
      assert !ServesHash(last, locale, hash);
      ServedByLast(init, locale, hash, n);
    }
  }

  lemma {:induction false} ServedWhenOneCan(m: Memory, locale: string, hash: string)
    ensures Get(ByTextHash(m, locale), hash).Some? <==> exists p :: p in m && ServesHash(p.value, locale, hash)
  {
    if m != [] {
      var init, last := m[..|m| - 1], m[|m| - 1];
      ServedWhenOneCan(init, locale, hash);
      GetPut(ByTextHash(init, locale), last.value.textHash, last.value, hash);
      assert m == init + [last];
      assert last in m && forall p | p in m :: p in init || p == last;
    }
  }

  /** The first line that is usable for its cache key, among the first `n`. */
  ghost predicate IsFirstLine(lines: seq<TmEntry>, cacheKey: string, n: nat) {
    && n < |lines| && IsUsableLine(lines[n], cacheKey)
    && forall m | 0 <= m < n :: !IsUsableLine(lines[m], cacheKey)
  }

  /** The memory keeps its cache keys in the order of their first usable lines. */
  lemma {:induction false} LoadedInOrder(lines: seq<TmEntry>, i: nat, j: nat, a: nat, b: nat)
    requires i < j < |LoadMemory(lines)|
    requires IsFirstLine(lines, LoadMemory(lines)[i].key, a) && IsFirstLine(lines, LoadMemory(lines)[j].key, b)
    ensures a < b
  {
    var init, last := lines[..|lines| - 1], lines[|lines| - 1];
    var before := LoadMemory(init);
    PutKeepsOrder(before, last.cacheKey, last);
    FirstLineStays(init, last, i, a);
    if j < |before| {
      FirstLineStays(init, last, j, b);
      LoadedInOrder(init, i, j, a, b);
    } else {
      LoadedWhenUsable(init, last.cacheKey);
      assert forall k | 0 <= k < |init| :: lines[k] in init && !IsUsableLine(lines[k], last.cacheKey);
    }
  }

  /** A key that is loaded already has its first usable line already. */
  lemma FirstLineStays(init: seq<TmEntry>, last: TmEntry, i: nat, a: nat)
    requires i < |LoadMemory(init)| && IsFirstLine(init + [last], LoadMemory(init)[i].key, a)
    ensures IsFirstLine(init, LoadMemory(init)[i].key, a)
  {
    var m := LoadMemory(init);
    LoadMemoryOk(init);
    GetHere(m, i);
    LoadedWhenUsable(init, m[i].key);
    var e :| e in init && IsUsableLine(e, m[i].key);
    var n :| 0 <= n < |init| && init[n] == e;
    assert (init + [last])[n] == e;
    assert forall k | 0 <= k < |init| :: (init + [last])[k] == init[k];
  }

  /** A write keeps the keys where they are and adds a new one at the end. */
  lemma {:induction false} PutKeepsOrder<K, V>(m: seq<Pair<K, V>>, k: K, v: V)
    ensures var r := Put(m, k, v);
            && |m| <= |r| <= |m| + 1 && (forall i | 0 <= i < |m| :: r[i].key == m[i].key)
            && (|r| == |m| + 1 ==> r[|m|].key == k && Get(m, k).None?)
  {
    if m != [] && m[0].key != k { PutKeepsOrder(m[1..], k, v); }
  }

  // ---- the texts -----------------------------------------------------------------------

  /** What the run reads about one source string: the memory entry under its cache key,
      the one for its text, the text in the locale file, and whether it was a fallback. */
  datatype Found = Found(cached: Option<TmEntry>, byText: Option<TmEntry>, existing: Option<string>, was: bool)

  function Look(env: Env, disk: Disk, key: string, text: string): Found {
    var memory := LoadMemory(disk.tm);
    Found(Get(memory, env.cacheKey(key, env.hashText(text))),
          Get(ByTextHash(memory, env.locale), env.hashText(text)),
          if disk.tree.Some? then Get(FlattenInto(disk.tree.value, "", []), key) else None,
          disk.meta.Some? && key in disk.meta.value.fallbackKeys)
  }

  /** With a provider, a fallback of the last run is to be translated at last. */
  predicate IsRefreshed(env: Env, found: Found) {
    env.allowTranslate && found.was
  }

  predicate TakesCached(env: Env, found: Found) {
    found.cached.Some? && !IsRefreshed(env, found)
  }

  predicate TakesByText(env: Env, found: Found) {
    !TakesCached(env, found) && found.byText.Some? && (found.was || found.existing.None?)
  }

  predicate TakesExisting(env: Env, found: Found) {
    !TakesCached(env, found) && !TakesByText(env, found) && found.existing.Some? && !IsRefreshed(env, found)
  }

  predicate TakesNothing(env: Env, found: Found) {
    !TakesCached(env, found) && !TakesByText(env, found) && !TakesExisting(env, found)
  }

  /** `value` is the text that `key` is to have. */
  ghost predicate IsTextFor(env: Env, found: Found, delivered: Translations, key: string, text: string, value: string)
  {
    && (TakesCached(env, found) ==> value == found.cached.value.translated)
    && (TakesByText(env, found) ==> value == found.byText.value.translated)
    && (TakesExisting(env, found) ==> value == found.existing.value)
    && (TakesNothing(env, found) && env.allowTranslate ==> key in delivered && value == delivered[key])
    && (TakesNothing(env, found) && !env.allowTranslate ==> value == text)
  }

  /** Every source string has, at its path in the planned tree, the text of the memory
      if it is cached there, else that of another string with the same text, else that
      of the locale file, else what the agent delivered, else the source text. */
  lemma PlannedTextOf(env: Env, now: string, disk: Disk, translated: Translations, source: Flat, i: nat)
    requires CollisionFree(env) && Distinct(source) && IsRebuildable(source) && i < |source|
    requires Covers(env, PendingItems(env, Load(env, disk), source), translated)
    ensures var key, text := source[i].key, source[i].value;
            var value := Lookup(Expected(env, now, disk, translated, source).tree.value, Split(key));
            value.Some? && IsTextFor(env, Look(env, disk, key, text), translated, key, text, value.value)
  {
    var loaded := Load(env, disk);
    var flat := FinalFlat(env, loaded, translated, source);
    assert forall j | 0 <= j < |flat| :: flat[j].key == source[j].key;
    SameKeysSameShape(source, flat);
    ValueAt(env, loaded, translated, source, i);
    BuildLookup(flat, source[i].key);
    SettledOn(env, disk, translated, source, i);
  }

  lemma SettledOn(env: Env, disk: Disk, translated: Translations, source: Flat, i: nat)
    requires CollisionFree(env) && Distinct(source) && i < |source|
    requires Covers(env, PendingItems(env, Load(env, disk), source), translated)
    ensures var key, text := source[i].key, source[i].value;
            IsTextFor(env, Look(env, disk, key, text), translated, key, text,
                      FinalValue(env, Load(env, disk), translated, source[i]))
  {
    PendingIsCovered(env, Load(env, disk), translated, source, i);
    LoadedIsFound(env, disk, source[i]);
  }

  lemma LoadedIsFound(env: Env, disk: Disk, p: Pair<string, string>)
    ensures var loaded, found := Load(env, disk), Look(env, disk, p.key, p.value);
            && Get(loaded.tm, KeyOf(env, p)) == found.cached
            && Get(loaded.byText, env.hashText(p.value)) == found.byText
            && Get(loaded.existing, p.key) == found.existing && (p.key in loaded.previousFallback <==> found.was)
  {
  }

  lemma PendingIsCovered(env: Env, loaded: Loaded, translated: Translations, source: Flat, i: nat)
    requires CollisionFree(env) && Distinct(source) && i < |source|
    requires Covers(env, PendingItems(env, loaded, source), translated)
    ensures DecideFor(env, loaded, loaded.tm, source[i]).Pending? && env.allowTranslate ==> source[i].key in translated
  {
    var items := PendingItems(env, loaded, source);
    PendingMembers(env, loaded, source);
    if DecideFor(env, loaded, loaded.tm, source[i]).Pending? && env.allowTranslate {
      var a :| 0 <= a < |items| && items[a] == ItemOf(env, source[i]);
      assert IsUsable(translated, items[a].key);
    }
  }

  /** The same of every run that gets as far as the files, and of the file it leaves. */
  lemma TextOf(env: Env, options: Options, now: string, budget: real, script: Script, at: nat, disk: Disk,
               source: Flat, i: nat)
    requires CollisionFree(env) && Distinct(source) && IsRebuildable(source) && i < |source|
    requires var run := Synced(env, options, now, budget, script, at, disk, source);
             run.delivered.Some? && (run.result.value.wrote || !run.result.value.changed)
    ensures var run := Synced(env, options, now, budget, script, at, disk, source);
            var key, text := source[i].key, source[i].value;
            && run.disk.tree.Some?
            && var value := Lookup(run.disk.tree.value, Split(key));
               value.Some? && IsTextFor(env, Look(env, disk, key, text), run.delivered.value, key, text, value.value)
  {
    FinishedAsPlanned(env, options, now, budget, script, at, disk, source);
    var run := Synced(env, options, now, budget, script, at, disk, source);
    PlannedTextOf(env, now, disk, run.delivered.value, source, i);
  }

  // ---- the memory after the run --------------------------------------------------------

  /** What the memory is to say about `key`: a copy of the entry for its text, the new
      translation, or what it said before. */
  function EntryFor(env: Env, now: string, found: Found, delivered: Translations, key: string, text: string)
    : Option<TmEntry>
  {
    var hash := env.hashText(text);
    if TakesByText(env, found) then
      Some(found.byText.value.(cacheKey := env.cacheKey(key, hash), segmentId := key, sourcePath := env.sourcePath))
    else if TakesNothing(env, found) && env.allowTranslate && key in delivered then
      Some(TmEntry(
        cacheKey := env.cacheKey(key, hash), model := env.model, provider := env.provider, segmentId := key,
        sourcePath := env.sourcePath, srcLang := "en", text := text, textHash := hash, tgtLang := env.locale,
        translated := delivered[key], updatedAt := now))
    else found.cached
  }

  lemma NewEntryIs(env: Env, now: string, loaded: Loaded, source: Flat, translated: Translations, i: nat)
    requires CollisionFree(env) && Distinct(source) && i < |source| && env.allowTranslate
    requires Covers(env, PendingItems(env, loaded, source), translated)
    requires DecideFor(env, loaded, loaded.tm, source[i]).Pending? && source[i].key in translated
    ensures Get(NewEntries(env, now, PendingItems(env, loaded, source), translated), KeyOf(env, source[i])) ==
            Some(NewEntry(env, now, ItemOf(env, source[i]), translated[source[i].key]))
  {
    var items := PendingItems(env, loaded, source);
    PendingMembers(env, loaded, source);
    NewEntryAt(env, now, loaded, source, translated, i);
    var a :| 0 <= a < |items| && items[a] == ItemOf(env, source[i]);
    GetHere(NewEntries(env, now, items, translated), a);
  }

  lemma SettledMemory(env: Env, now: string, disk: Disk, translated: Translations, source: Flat, i: nat)
    requires CollisionFree(env) && Distinct(source) && i < |source|
    requires Covers(env, PendingItems(env, Load(env, disk), source), translated)
    ensures var key, text := source[i].key, source[i].value;
            Get(FinalMemory(env, now, Load(env, disk), translated, source), env.cacheKey(key, env.hashText(text)))
            == EntryFor(env, now, Look(env, disk, key, text), translated, key, text)
  {
    var loaded := Load(env, disk);
    var key := KeyOf(env, source[i]);
    LoadedIsFound(env, disk, source[i]);
    PendingIsCovered(env, loaded, translated, source, i);
    CopiesMembers(env, loaded, source);
    CopyAt(env, loaded, source, i);
    GetPutAll(loaded.tm, Copies(env, loaded, source), key);
    if env.allowTranslate {
      NewEntryAt(env, now, loaded, source, translated, i);
      GetPutAll(PutAll(loaded.tm, Copies(env, loaded, source)),
                NewEntries(env, now, PendingItems(env, loaded, source), translated), key);
      if DecideFor(env, loaded, loaded.tm, source[i]).Pending? {
        NewEntryIs(env, now, loaded, source, translated, i);
      }
    }
  }

  /** The memory file that a run plans: sorted by cache key, each once; under the key of
      every source string what `EntryFor` says, and under all others what was there. */
  lemma PlannedMemory(env: Env, now: string, disk: Disk, translated: Translations, source: Flat)
    requires CollisionFree(env) && Distinct(source)
    requires Covers(env, PendingItems(env, Load(env, disk), source), translated)
    ensures var lines := Expected(env, now, disk, translated, source).tm;
            var after := LoadMemory(lines);
            && IsSorted(lines, CacheKeyOf) && DistinctKeys(lines, CacheKeyOf)
            && (forall i | 0 <= i < |source| ::
                  Get(after, env.cacheKey(source[i].key, env.hashText(source[i].value))) ==
                  EntryFor(env, now, Look(env, disk, source[i].key, source[i].value), translated, source[i].key,
                           source[i].value))
            && (forall k | !IsKeyOfSource(env, source, k) :: Get(after, k) == Get(LoadMemory(disk.tm), k))
  {
    var loaded := Load(env, disk);
    var final := FinalMemory(env, now, loaded, translated, source);
    LoadMemoryOk(disk.tm);
    FinalMemoryOk(env, now, loaded, source, translated);
    MemoryRoundTrip(final);
    ValuesOk(final);
    SortFacts(Values(final), CacheKeyOf);
    SortCanonical(Values(final), Values(final), CacheKeyOf);
    forall i | 0 <= i < |source|
      ensures Get(final, env.cacheKey(source[i].key, env.hashText(source[i].value))) ==
              EntryFor(env, now, Look(env, disk, source[i].key, source[i].value), translated, source[i].key,
                       source[i].value)
    {
      SettledMemory(env, now, disk, translated, source, i);
    }
    forall k | !IsKeyOfSource(env, source, k) ensures Get(final, k) == Get(loaded.tm, k) {
      OtherKeysStay(env, now, loaded, translated, source, k);
    }
  }

  ghost predicate IsKeyOfSource(env: Env, source: Flat, cacheKey: string) {
    exists i :: 0 <= i < |source| && env.cacheKey(source[i].key, env.hashText(source[i].value)) == cacheKey
  }

  lemma OtherKeysStay(env: Env, now: string, loaded: Loaded, translated: Translations, source: Flat, k: string)
    requires CollisionFree(env) && Distinct(source) && !IsKeyOfSource(env, source, k)
    requires Covers(env, PendingItems(env, loaded, source), translated)
    ensures Get(FinalMemory(env, now, loaded, translated, source), k) == Get(loaded.tm, k)
  {
    var copies, items := Copies(env, loaded, source), PendingItems(env, loaded, source);
    CopiesMembers(env, loaded, source);
    PendingMembers(env, loaded, source);
    forall c | c in copies ensures c.key != k {
      var i :| 0 <= i < |source| && IsCopyOf(env, loaded, source[i], c);
    }
    GetAbsent(copies, k);
    GetPutAll(loaded.tm, copies, k);
    if env.allowTranslate {
      var entries := NewEntries(env, now, items, translated);
      forall e | e in entries ensures e.key != k {
        var a :| 0 <= a < |entries| && entries[a] == e;
        assert items[a] in items;
        var i :| 0 <= i < |source| && IsItemOf(env, loaded, source[i], items[a]);
      }
      assert Distinct(entries) by { assert forall a | 0 <= a < |items| :: entries[a].key == items[a].cacheKey; }
      GetAbsent(entries, k);
      GetPutAll(PutAll(loaded.tm, copies), entries, k);
    }
  }

  // ---- meta and glossary ---------------------------------------------------------------

  /** The meta file names the run, and keeps its date exactly when nothing else in it
      changed; provider and model are those of the last run with a provider. */
  lemma PlannedMeta(env: Env, now: string, disk: Disk, translated: Translations, source: Flat)
    requires Covers(env, PendingItems(env, Load(env, disk), source), translated)
    ensures var meta, last := Expected(env, now, disk, translated, source).meta.value, disk.meta;
            && meta.locale == env.locale && meta.sourceHash == env.sourceHash && meta.workflow == 1
            && (env.allowTranslate ==> meta.provider == env.provider && meta.model == env.model)
            && (!env.allowTranslate && last.Some? ==>
                  meta.provider == last.value.provider && meta.model == last.value.model)
            && (!env.allowTranslate && last.None? ==> meta.provider == "" && meta.model == "")
            && (if last.Some? && meta.(generatedAt := last.value.generatedAt) == last.value
                then meta == last.value else meta.generatedAt == now)
  {
  }

  /** A glossary that is there and not empty stays; otherwise the default one is written. */
  lemma PlannedGlossary(env: Env, now: string, disk: Disk, translated: Translations, source: Flat)
    requires Covers(env, PendingItems(env, Load(env, disk), source), translated)
    ensures var glossary := Expected(env, now, disk, translated, source).glossary;
            if disk.glossary.Some? && disk.glossary.value != [] then glossary == disk.glossary
            else glossary == Some(env.defaultGlossary)
  {
  }

  /** Exactly which keys are listed as fallbacks: none with a provider; without one, a cached
      key stays what it was, and of the others those that neither the memory nor a genuine
      text in the locale file serves. */
  lemma PlannedFallbacks(env: Env, now: string, disk: Disk, translated: Translations, source: Flat, i: nat)
    requires Distinct(source) && i < |source|
    requires Covers(env, PendingItems(env, Load(env, disk), source), translated)
    ensures var meta := Expected(env, now, disk, translated, source).meta.value;
            var found := Look(env, disk, source[i].key, source[i].value);
            && IsSorted(meta.fallbackKeys, SameKey) && DistinctKeys(meta.fallbackKeys, SameKey)
            && (source[i].key in meta.fallbackKeys <==>
                !env.allowTranslate && if found.cached.Some? then found.was
                                       else found.byText.None? && (found.was || found.existing.None?))
  {
    var keys := FallbackKeys(env, Load(env, disk), source);
    FallbackMembers(env, Load(env, disk), source);
    FallbackExact(env, Load(env, disk), source, i);
    LoadedIsFound(env, disk, source[i]);
    SortFacts(keys, SameKey);
    SortCanonical(keys, keys, SameKey);
  }
}
