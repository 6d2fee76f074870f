/** What holds of every locale sync: exact fallback accounting, and the fixpoint
    that a written run reaches. */
module SyncLaws {
  import opened JsText
  import opened Outcomes
  import opened OrderedMap
  import opened Sorting
  import opened TranslationTree
  import opened TranslationBatching
  import opened BatchTranslation
  import opened SyncPlan

  // ---- the lists of the first pass, key by key -------------------------------------

  lemma KeysDiffer(env: Env, source: Flat, i: nat, j: nat)
    requires CollisionFree(env) && Distinct(source) && i < |source| && j < |source| && i != j
    ensures KeyOf(env, source[i]) != KeyOf(env, source[j])
  {
    if i < j { assert source[i].key != source[j].key; } else { assert source[j].key != source[i].key; }
  }

  lemma {:induction false} CopiesMembers(env: Env, loaded: Loaded, source: Flat)
    requires CollisionFree(env) && Distinct(source)
    ensures Distinct(Copies(env, loaded, source))
    ensures forall c | c in Copies(env, loaded, source) ::
              exists i :: 0 <= i < |source| && IsCopyOf(env, loaded, source[i], c)
    ensures forall i | 0 <= i < |source| && DecideFor(env, loaded, loaded.tm, source[i]).ByText? ::
              Pair(KeyOf(env, source[i]), CopyFor(env, DecideFor(env, loaded, loaded.tm, source[i]).entry, source[i]))
                in Copies(env, loaded, source)
  {
    if source != [] {
      var n := |source| - 1;
      var init := Copies(env, loaded, source[..n]);
      CopiesMembers(env, loaded, source[..n]);
      forall c | c in init ensures c.key != KeyOf(env, source[n]) {
        var i :| 0 <= i < n && IsCopyOf(env, loaded, source[..n][i], c);
        KeysDiffer(env, source, i, n);
      }
      forall c | c in Copies(env, loaded, source)
        ensures exists i :: 0 <= i < |source| && IsCopyOf(env, loaded, source[i], c)
      {
        if c in init {
          var i :| 0 <= i < n && IsCopyOf(env, loaded, source[..n][i], c);
          assert IsCopyOf(env, loaded, source[i], c);
        } else {
          assert IsCopyOf(env, loaded, source[n], c);
        }
      }
      forall i | 0 <= i < |source| && DecideFor(env, loaded, loaded.tm, source[i]).ByText?
        ensures Pair(KeyOf(env, source[i]), CopyFor(env, DecideFor(env, loaded, loaded.tm, source[i]).entry, source[i]))
                  in Copies(env, loaded, source)
      {
        if i < n { assert source[..n][i] == source[i]; }
      }
    }
  }

  ghost predicate IsCopyOf(env: Env, loaded: Loaded, p: Pair<string, string>, c: Pair<string, TmEntry>) {
    var d := DecideFor(env, loaded, loaded.tm, p);
    d.ByText? && c == Pair(KeyOf(env, p), CopyFor(env, d.entry, p))
  }

  lemma CopyAt(env: Env, loaded: Loaded, source: Flat, i: nat)
    requires CollisionFree(env) && Distinct(source) && i < |source|
    ensures var d := DecideFor(env, loaded, loaded.tm, source[i]);
            Get(Copies(env, loaded, source), KeyOf(env, source[i])) ==
            if d.ByText? then Some(CopyFor(env, d.entry, source[i])) else None
  {
    var key := KeyOf(env, source[i]);
    var d := DecideFor(env, loaded, loaded.tm, source[i]);
    CopiesMembers(env, loaded, source);
    if d.ByText? {
      GetMember(Copies(env, loaded, source), key, CopyFor(env, d.entry, source[i]));
    } else {
      forall c | c in Copies(env, loaded, source) ensures c.key != key {
        var at :| 0 <= at < |source| && IsCopyOf(env, loaded, source[at], c);
        KeysDiffer(env, source, at, i);
      }
      GetAbsent(Copies(env, loaded, source), key);
    }
  }

  ghost function ItemOf(env: Env, p: Pair<string, string>): Item {
    Item(KeyOf(env, p), p.key, p.value, env.hashText(p.value))
  }

  ghost predicate IsItemOf(env: Env, loaded: Loaded, p: Pair<string, string>, item: Item) {
    DecideFor(env, loaded, loaded.tm, p).Pending? && item == ItemOf(env, p)
  }

  ghost predicate AreDistinctItems(items: seq<Item>) {
    forall a, b | 0 <= a < b < |items| :: items[a].key != items[b].key && items[a].cacheKey != items[b].cacheKey
  }

  lemma {:induction false} PendingMembers(env: Env, loaded: Loaded, source: Flat)
    requires CollisionFree(env) && Distinct(source)
    ensures AreDistinctItems(PendingItems(env, loaded, source))
    ensures forall item | item in PendingItems(env, loaded, source) ::
              exists i :: 0 <= i < |source| && IsItemOf(env, loaded, source[i], item)
    ensures forall i | 0 <= i < |source| && DecideFor(env, loaded, loaded.tm, source[i]).Pending? ::
              ItemOf(env, source[i]) in PendingItems(env, loaded, source)
  {
    if source != [] {
      var n := |source| - 1;
      var init, items := PendingItems(env, loaded, source[..n]), PendingItems(env, loaded, source);
      PendingMembers(env, loaded, source[..n]);
      forall item | item in init ensures item.key != source[n].key && item.cacheKey != KeyOf(env, source[n]) {
        var i :| 0 <= i < n && IsItemOf(env, loaded, source[..n][i], item);
        KeysDiffer(env, source, i, n);
      }
      forall item | item in items ensures exists i :: 0 <= i < |source| && IsItemOf(env, loaded, source[i], item) {
        if item in init {
          var i :| 0 <= i < n && IsItemOf(env, loaded, source[..n][i], item);
          assert IsItemOf(env, loaded, source[i], item);
        } else {
          assert IsItemOf(env, loaded, source[n], item);
        }
      }
      forall i | 0 <= i < |source| && DecideFor(env, loaded, loaded.tm, source[i]).Pending?
        ensures ItemOf(env, source[i]) in items
      {
        if i < n { assert source[..n][i] == source[i]; } else { assert items[|items| - 1] == ItemOf(env, source[n]); }
      }
    }
  }

  lemma NewEntryAt(env: Env, now: string, loaded: Loaded, source: Flat, translated: Translations, i: nat)
    requires CollisionFree(env) && Distinct(source) && i < |source| && env.allowTranslate
    requires Covers(env, PendingItems(env, loaded, source), translated)
    ensures Distinct(NewEntries(env, now, PendingItems(env, loaded, source), translated))
    ensures var d := DecideFor(env, loaded, loaded.tm, source[i]);
            var entry := Get(NewEntries(env, now, PendingItems(env, loaded, source), translated),
                KeyOf(env, source[i]));
            if d.Pending? then entry.Some? && source[i].key in translated
                && entry.value.translated == translated[source[i].key]
            else entry.None?
  {
    var items := PendingItems(env, loaded, source);
    var entries := NewEntries(env, now, items, translated);
    PendingMembers(env, loaded, source);
    assert forall a | 0 <= a < |items| :: entries[a].key == items[a].cacheKey;
    var key := KeyOf(env, source[i]);
    if DecideFor(env, loaded, loaded.tm, source[i]).Pending? {
      var a :| 0 <= a < |items| && items[a] == ItemOf(env, source[i]);
      GetHere(entries, a);
    } else {
      forall e | e in entries ensures e.key != key {
        var a :| 0 <= a < |entries| && entries[a] == e;
        assert items[a] in items;
        var at :| 0 <= at < |source| && IsItemOf(env, loaded, source[at], items[a]);
        KeysDiffer(env, source, at, i);
      }
      GetAbsent(entries, key);
    }
  }

  /** After the run the memory holds, under the key of each source string, the
      value the run settled on, unless that value came from the existing file or
      from the source itself. */
  lemma FinalMemoryAt(env: Env, now: string, loaded: Loaded, source: Flat, translated: Translations, i: nat)
    requires CollisionFree(env) && Distinct(source) && i < |source|
    requires Covers(env, PendingItems(env, loaded, source), translated)
    ensures var d := DecideFor(env, loaded, loaded.tm, source[i]);
            var entry := Get(FinalMemory(env, now, loaded, translated, source), KeyOf(env, source[i]));
            if d.ByText? || (d.Pending? && env.allowTranslate)
            then entry.Some? && entry.value.translated == FinalValue(env, loaded, translated, source[i])
            else entry == Get(loaded.tm, KeyOf(env, source[i]))
  {
    var key := KeyOf(env, source[i]);
    CopiesMembers(env, loaded, source);
    CopyAt(env, loaded, source, i);
    GetPutAll(loaded.tm, Copies(env, loaded, source), key);
    if env.allowTranslate {
      NewEntryAt(env, now, loaded, source, translated, i);
      GetPutAll(PutAll(loaded.tm, Copies(env, loaded, source)),
                NewEntries(env, now, PendingItems(env, loaded, source), translated), key);
    }
  }

  lemma CopiesOk(env: Env, loaded: Loaded, source: Flat)
    requires CollisionFree(env) && Distinct(source)
    requires loaded.byText == ByTextHash(loaded.tm, env.locale)
    ensures forall c | c in Copies(env, loaded, source) ::
              && c.key == c.value.cacheKey && c.key != "" && !IsBlank(c.value.translated)
              && HasText(loaded.tm, env.locale, c.value.textHash)
  {
    CopiesMembers(env, loaded, source);
    forall c | c in Copies(env, loaded, source)
      ensures && c.key == c.value.cacheKey && c.key != "" && !IsBlank(c.value.translated)
              && HasText(loaded.tm, env.locale, c.value.textHash)
    {
      var i :| 0 <= i < |source| && IsCopyOf(env, loaded, source[i], c);
      ByTextHashDomain(loaded.tm, env.locale, env.hashText(source[i].value));
    }
  }

  lemma FinalMemoryOk(env: Env, now: string, loaded: Loaded, source: Flat, translated: Translations)
    requires CollisionFree(env) && Distinct(source) && MemoryOk(loaded.tm)
    requires loaded.byText == ByTextHash(loaded.tm, env.locale)
    requires Covers(env, PendingItems(env, loaded, source), translated)
    ensures MemoryOk(FinalMemory(env, now, loaded, translated, source))
    ensures !env.allowTranslate ==>
              forall hash | HasText(FinalMemory(env, now, loaded, translated, source), env.locale, hash) ::
                HasText(loaded.tm, env.locale, hash)
  {
    var copies := Copies(env, loaded, source);
    var copied := PutAll(loaded.tm, copies);
    CopiesOk(env, loaded, source);
    PutAllMembers(loaded.tm, copies);
    if env.allowTranslate {
      var items := PendingItems(env, loaded, source);
      var entries := NewEntries(env, now, items, translated);
      PendingMembers(env, loaded, source);
      PutAllMembers(copied, entries);
      forall e | e in entries ensures e.key == e.value.cacheKey && e.key != "" && !IsBlank(e.value.translated) {
        var a :| 0 <= a < |entries| && entries[a] == e;
        assert items[a] in items;
        var at :| 0 <= at < |source| && IsItemOf(env, loaded, source[at], items[a]);
      }
    }
  }

  /** The key of `p` was served by text hash, or translated. */
  ghost predicate GainsEntry(env: Env, loaded: Loaded, p: Pair<string, string>, cacheKey: string) {
    var d := DecideFor(env, loaded, loaded.tm, p);
    KeyOf(env, p) == cacheKey && (d.ByText? || (d.Pending? && env.allowTranslate))
  }

  /** The memory changes at the keys served by text hash or translated, and nowhere else. */
  lemma MemoryGrowsOnly(env: Env, now: string, loaded: Loaded, source: Flat, translated: Translations,
                        e: Pair<string, TmEntry>)
    requires CollisionFree(env) && Distinct(source) && Distinct(loaded.tm)
    requires Covers(env, PendingItems(env, loaded, source), translated)
    requires e in FinalMemory(env, now, loaded, translated, source) && e !in loaded.tm
    ensures exists i :: 0 <= i < |source| && GainsEntry(env, loaded, source[i], e.key)
  {
    var copies := Copies(env, loaded, source);
    PutAllMembers(loaded.tm, copies);
    if e in PutAll(loaded.tm, copies) {
      CopiesMembers(env, loaded, source);
      var i :| 0 <= i < |source| && IsCopyOf(env, loaded, source[i], e);
      assert GainsEntry(env, loaded, source[i], e.key);
    } else {
      var items := PendingItems(env, loaded, source);
      var entries := NewEntries(env, now, items, translated);
      PutAllMembers(PutAll(loaded.tm, copies), entries);
      PendingMembers(env, loaded, source);
      var a :| 0 <= a < |entries| && entries[a] == e;
      assert items[a] in items;
      var i :| 0 <= i < |source| && IsItemOf(env, loaded, source[i], items[a]);
      assert GainsEntry(env, loaded, source[i], e.key);
    }
  }

  // ---- fallback accounting ---------------------------------------------------------

  lemma {:induction false} FallbackMembers(env: Env, loaded: Loaded, source: Flat)
    requires Distinct(source)
    ensures DistinctKeys(FallbackKeys(env, loaded, source), SameKey)
    ensures forall i | 0 <= i < |source| ::
              source[i].key in FallbackKeys(env, loaded, source) <==> IsFallback(env, loaded, source[i])
    ensures forall key | key in FallbackKeys(env, loaded, source) ::
              exists i :: 0 <= i < |source| && source[i].key == key
    ensures |FallbackKeys(env, loaded, source)| <= |source|
  {
    if source != [] {
      var n := |source| - 1;
      var init := FallbackKeys(env, loaded, source[..n]);
      FallbackMembers(env, loaded, source[..n]);
      forall key | key in init ensures key != source[n].key {
        var i :| 0 <= i < n && source[..n][i].key == key;
        assert source[i].key != source[n].key;
      }
      assert forall a | 0 <= a < |init| :: init[a] in init;
      forall i | 0 <= i < |source|
        ensures source[i].key in FallbackKeys(env, loaded, source) <==> IsFallback(env, loaded, source[i])
      {
        if i < n { assert source[..n][i] == source[i]; assert source[i].key != source[n].key; }
      }
      forall key | key in FallbackKeys(env, loaded, source)
        ensures exists i :: 0 <= i < |source| && source[i].key == key
      {
        if key in init {
          var i :| 0 <= i < n && source[..n][i].key == key;
          assert source[i].key == key;
        } else {
          assert source[n].key == key;
        }
      }
    }
  }

  /** Exactly which keys end as fallbacks: with a provider none; without one, a
      cached key stays what it was, and an uncached key is a fallback unless the
      memory serves its text or the existing file holds a genuine translation. */
  lemma FallbackExact(env: Env, loaded: Loaded, source: Flat, i: nat)
    requires Distinct(source) && i < |source|
    ensures var p := source[i];
            var cached := Get(loaded.tm, KeyOf(env, p)).Some?;
            var byText := Get(loaded.byText, env.hashText(p.value)).Some?;
            var existing := Get(loaded.existing, p.key).Some?;
            var was := p.key in loaded.previousFallback;
            p.key in FallbackKeys(env, loaded, source) <==>
            !env.allowTranslate && if cached then was else !byText && (was || !existing)
  {
    FallbackMembers(env, loaded, source);
  }

  /** The counts written to the meta file are exact, and a run with a provider
      leaves no fallback keys. */
  lemma MetaCountsExact(env: Env, now: string, disk: Disk, translated: Translations, source: Flat)
    requires Distinct(source)
    requires Covers(env, PendingItems(env, Load(env, disk), source), translated)
    ensures var loaded := Load(env, disk);
            var meta := Expected(env, now, disk, translated, source).meta.value;
            && meta.totalKeys == |source|
            && meta.translatedKeys + |meta.fallbackKeys| == meta.totalKeys
            && 0 <= meta.translatedKeys
            && (forall i | 0 <= i < |source| ::
                  source[i].key in meta.fallbackKeys <==> IsFallback(env, loaded, source[i]))
            && (env.allowTranslate ==> meta.fallbackKeys == [])
  {
    var loaded := Load(env, disk);
    var keys := FallbackKeys(env, loaded, source);
    FallbackMembers(env, loaded, source);
    SortFacts(keys, SameKey);
    if env.allowTranslate && keys != [] {
      assert keys[0] in keys;
      var i :| 0 <= i < |source| && source[i].key == keys[0];
      FallbackExact(env, loaded, source, i);
    }
  }

  // ---- the fixpoint ----------------------------------------------------------------

  /** One key, decided again after a written run, with what that run left behind. */
  lemma DecideAgain(cached: Option<TmEntry>, byText: Option<TmEntry>, existing: Option<string>, was: bool, allow: bool,
                    value: string, cached': Option<TmEntry>, byText': Option<TmEntry>, was': bool)
    requires var d := Decide(cached, byText, existing, was, allow);
             && (d.Cached? ==> value == d.value)
             && (d.Keep? ==> value == d.value)
             && was' == (((d.Cached? || d.Keep?) && was) || (d.Pending? && !allow))
             && (if d.ByText? || (d.Pending? && allow) then cached'.Some? && cached'.value.translated == value
                 else cached' == cached)
    requires !allow && byText'.Some? ==> byText.Some?
    ensures var d := Decide(cached, byText, existing, was, allow);
            var d' := Decide(cached', byText', Some(value), was', allow);
            && (d'.Cached? || d'.Keep?)
            && d'.value == value
            && (was' <==> (d'.Cached? || d'.Keep?) && was')
  {
  }

  /** The files of a run that completed, read back. */
  lemma LoadedAgain(env: Env, now: string, disk: Disk, translated: Translations, source: Flat)
    requires CollisionFree(env) && Distinct(source) && IsRebuildable(source)
    requires Covers(env, PendingItems(env, Load(env, disk), source), translated)
    ensures var loaded := Load(env, disk);
            var again := Load(env, Expected(env, now, disk, translated, source));
            var memory := FinalMemory(env, now, loaded, translated, source);
            && MemoryOk(memory)
            && (forall k :: Get(again.tm, k) == Get(memory, k))
            && RenderMemory(again.tm) == RenderMemory(memory)
            && (forall k :: Get(again.existing, k) == Get(FinalFlat(env, loaded, translated, source), k))
            && (forall hash | !env.allowTranslate && Get(again.byText, hash).Some? :: Get(loaded.byText, hash).Some?)
            && (forall i | 0 <= i < |source| ::
                  source[i].key in again.previousFallback <==> IsFallback(env, loaded, source[i]))
  {
    var loaded := Load(env, disk);
    var expected := Expected(env, now, disk, translated, source);
    var again := Load(env, expected);
    var memory := FinalMemory(env, now, loaded, translated, source);
    LoadMemoryOk(disk.tm);
    FinalMemoryOk(env, now, loaded, source, translated);
    MemoryRoundTrip(memory);
    var flat := FinalFlat(env, loaded, translated, source);
    assert Distinct(flat) && IsRebuildable(flat) by {
      assert forall i | 0 <= i < |flat| :: flat[i].key == source[i].key;
    }
    FlattenBuildExact(flat);
    forall hash | !env.allowTranslate && Get(again.byText, hash).Some? ensures Get(loaded.byText, hash).Some? {
      ByTextHashDomain(again.tm, env.locale, hash);
      ByTextHashDomain(loaded.tm, env.locale, hash);
      assert HasText(memory, env.locale, hash);
    }
    MetaCountsExact(env, now, disk, translated, source);
  }

  /** Read back, every key is reused: it keeps its value and its fallback status. */
  lemma KeyIsStable(env: Env, now: string, disk: Disk, translated: Translations, source: Flat,
                    translated': Translations, i: nat)
    requires CollisionFree(env) && Distinct(source) && IsRebuildable(source) && i < |source|
    requires Covers(env, PendingItems(env, Load(env, disk), source), translated)
    ensures var loaded := Load(env, disk);
            var again := Load(env, Expected(env, now, disk, translated, source));
            var d := DecideFor(env, again, again.tm, source[i]);
            && (d.Cached? || d.Keep?)
            && FinalValue(env, again, translated', source[i]) == FinalValue(env, loaded, translated, source[i])
            && (IsFallback(env, again, source[i]) <==> IsFallback(env, loaded, source[i]))
  {
    var loaded := Load(env, disk);
    var again := Load(env, Expected(env, now, disk, translated, source));
    var p, value := source[i], FinalValue(env, loaded, translated, source[i]);
    LoadedAgain(env, now, disk, translated, source);
    FinalMemoryAt(env, now, loaded, source, translated, i);
    ValueAt(env, loaded, translated, source, i);
    DecideAgain(Get(loaded.tm, KeyOf(env, p)), Get(loaded.byText, env.hashText(p.value)), Get(loaded.existing, p.key),
                p.key in loaded.previousFallback, env.allowTranslate, value,
                Get(again.tm, KeyOf(env, p)), Get(again.byText, env.hashText(p.value)),
                p.key in again.previousFallback);
  }

  lemma ValueAt(env: Env, loaded: Loaded, translated: Translations, source: Flat, i: nat)
    requires Distinct(source) && i < |source|
    ensures Get(FinalFlat(env, loaded, translated, source), source[i].key) ==
            Some(FinalValue(env, loaded, translated, source[i]))
  {
    var flat := FinalFlat(env, loaded, translated, source);
    assert Distinct(flat) by { assert forall j | 0 <= j < |flat| :: flat[j].key == source[j].key; }
    GetHere(flat, i);
  }

  lemma {:induction false} ReusedOnly(env: Env, loaded: Loaded, source: Flat)
    requires forall i | 0 <= i < |source| ::
               var d := DecideFor(env, loaded, loaded.tm, source[i]); d.Cached? || d.Keep?
    ensures PendingItems(env, loaded, source) == [] && Copies(env, loaded, source) == []
  {
    if source != [] {
      var n := |source| - 1;
      forall i | 0 <= i < n ensures
        var d := DecideFor(env, loaded, loaded.tm, source[..n][i]); d.Cached? || d.Keep?
      {
        assert source[..n][i] == source[i];
      }
      ReusedOnly(env, loaded, source[..n]);
    }
  }

  /** Every key of the second run is reused, at its value and fallback status of the first. */
  ghost predicate RepeatsKey(env: Env, loaded: Loaded, again: Loaded, translated: Translations,
                             translated': Translations, p: Pair<string, string>) {
    var d := DecideFor(env, again, again.tm, p);
    && (d.Cached? || d.Keep?)
    && FinalValue(env, again, translated', p) == FinalValue(env, loaded, translated, p)
    && (IsFallback(env, again, p) <==> IsFallback(env, loaded, p))
  }

  ghost predicate RepeatsKeys(env: Env, loaded: Loaded, again: Loaded, translated: Translations,
                              translated': Translations, source: Flat) {
    forall i | 0 <= i < |source| :: RepeatsKey(env, loaded, again, translated, translated', source[i])
  }

  lemma AllKeysStable(env: Env, now: string, disk: Disk, translated: Translations, source: Flat,
                      translated': Translations)
    requires CollisionFree(env) && Distinct(source) && IsRebuildable(source)
    requires Covers(env, PendingItems(env, Load(env, disk), source), translated)
    ensures RepeatsKeys(env, Load(env, disk), Load(env, Expected(env, now, disk, translated, source)),
                        translated, translated', source)
  {
    forall i | 0 <= i < |source|
      ensures RepeatsKey(env, Load(env, disk), Load(env, Expected(env, now, disk, translated, source)),
                         translated, translated', source[i])
    {
      KeyIsStable(env, now, disk, translated, source, translated', i);
    }
  }

  lemma SameValues(env: Env, loaded: Loaded, again: Loaded, translated: Translations, translated': Translations,
                   source: Flat)
    requires RepeatsKeys(env, loaded, again, translated, translated', source)
    ensures FinalFlat(env, again, translated', source) == FinalFlat(env, loaded, translated, source)
  {
    assert forall i | 0 <= i < |source| :: RepeatsKey(env, loaded, again, translated, translated', source[i]);
  }

  lemma SameFallbacks(env: Env, loaded: Loaded, again: Loaded, source: Flat)
    requires Distinct(source)
    requires forall i | 0 <= i < |source| :: IsFallback(env, again, source[i]) <==> IsFallback(env, loaded, source[i])
    ensures Sort(FallbackKeys(env, again, source), SameKey) == Sort(FallbackKeys(env, loaded, source), SameKey)
  {
    FallbackMembers(env, again, source);
    FallbackMembers(env, loaded, source);
    SortCanonical(FallbackKeys(env, again, source), FallbackKeys(env, loaded, source), SameKey);
  }

  lemma SecondRunReuses(env: Env, now: string, disk: Disk, translated: Translations, source: Flat,
                        now': string, translated': Translations)
    requires CollisionFree(env) && Distinct(source) && IsRebuildable(source)
    requires Covers(env, PendingItems(env, Load(env, disk), source), translated)
    ensures var loaded := Load(env, disk);
            var again := Load(env, Expected(env, now, disk, translated, source));
            && PendingItems(env, again, source) == []
            && FinalFlat(env, again, translated', source) == FinalFlat(env, loaded, translated, source)
            && FinalMemory(env, now', again, translated', source) == again.tm
            && Sort(FallbackKeys(env, again, source), SameKey) == Sort(FallbackKeys(env, loaded, source), SameKey)
  {
    var loaded := Load(env, disk);
    var again := Load(env, Expected(env, now, disk, translated, source));
    AllKeysStable(env, now, disk, translated, source, translated');
    ReusedOnly(env, again, source);
    SameValues(env, loaded, again, translated, translated', source);
    SameFallbacks(env, loaded, again, source);
  }

  /** The sync is a fixpoint: run again on the files it wrote, with the same
      source, provider and model, it asks the agent nothing, settles on the same
      values and fallback keys, and plans exactly the files that are there. */
  lemma SyncIsFixpoint(env: Env, now: string, disk: Disk, translated: Translations, source: Flat,
                       now': string, translated': Translations)
    requires CollisionFree(env) && Distinct(source) && IsRebuildable(source)
    requires Covers(env, PendingItems(env, Load(env, disk), source), translated)
    ensures var written := Expected(env, now, disk, translated, source);
            && PendingItems(env, Load(env, written), source) == []
            && FinalFlat(env, Load(env, written), translated', source) ==
               FinalFlat(env, Load(env, disk), translated, source)
            && Expected(env, now', written, translated', source) == written
  {
    SecondRunReuses(env, now, disk, translated, source, now', translated');
    LoadedAgain(env, now, disk, translated, source);
  }

  // ---- the fixpoint needs rebuildable keys -------------------------------------------

  /** A run on the files just written asks nothing and settles on the same values. */
  ghost predicate IsStableFrom(env: Env, now: string, source: Flat, disk: Disk, translated: Translations)
    requires Covers(env, PendingItems(env, Load(env, disk), source), translated)
  {
    var again := Load(env, Expected(env, now, disk, translated, source));
    && PendingItems(env, again, source) == []
    && FinalFlat(env, again, map[], source) == FinalFlat(env, Load(env, disk), translated, source)
  }

  /** A hand-written locale file that spells every dotted key at the top level. */
  ghost function TopLevel(source: Flat): Entries {
    seq(|source|, i requires 0 <= i < |source| => Field(source[i].key, Leaf(source[i].value + "!")))
  }

  lemma {:induction false} FlattenTopLevel(source: Flat, k: nat, out: Flat)
    requires Distinct(source) && k <= |source|
    requires out == seq(k, i requires 0 <= i < |source| => Pair(source[i].key, source[i].value + "!"))
    ensures FlattenInto(TopLevel(source)[k..], "", out) ==
            seq(|source|, i requires 0 <= i < |source| => Pair(source[i].key, source[i].value + "!"))
    decreases |source| - k
  {
    if k < |source| {
      var p := Pair(source[k].key, source[k].value + "!");
      forall q | q in out ensures q.key != p.key {
        var i :| 0 <= i < k && out[i] == q;
        assert source[i].key != source[k].key;
      }
      PutNew(out, p.key, p.value);
      assert TopLevel(source)[k..][1..] == TopLevel(source)[k + 1..];
      FlattenTopLevel(source, k + 1, out + [p]);
    }
  }

  lemma ReadTopLevel(env: Env, source: Flat, i: nat)
    requires Distinct(source) && i < |source|
    ensures var disk := Disk(Some(TopLevel(source)), None, None, []);
            Get(Load(env, disk).existing, source[i].key) == Some(source[i].value + "!")
  {
    FlattenTopLevel(source, 0, []);
    assert TopLevel(source)[0..] == TopLevel(source);
    var flat := FlattenInto(TopLevel(source), "", []);
    assert Distinct(flat) by { assert forall j | 0 <= j < |flat| :: flat[j].key == source[j].key; }
    GetHere(flat, i);
  }

  ghost function TopLevelDisk(source: Flat): Disk {
    Disk(Some(TopLevel(source)), None, None, [])
  }

  lemma TopLevelIsKept(env: Env, source: Flat)
    requires CollisionFree(env) && Distinct(source)
    ensures var loaded := Load(env, TopLevelDisk(source));
            && loaded.tm == [] && Copies(env, loaded, source) == [] && PendingItems(env, loaded, source) == []
            && forall i | 0 <= i < |source| :: DecideFor(env, loaded, loaded.tm, source[i]) ==
                Keep(source[i].value + "!")
  {
    var loaded := Load(env, TopLevelDisk(source));
    forall i | 0 <= i < |source|
      ensures DecideFor(env, loaded, loaded.tm, source[i]) == Keep(source[i].value + "!")
    {
      ReadTopLevel(env, source, i);
    }
    ReusedOnly(env, loaded, source);
  }

  lemma {:induction false} NoFallbacks(env: Env, loaded: Loaded, source: Flat)
    requires forall i | 0 <= i < |source| :: !IsFallback(env, loaded, source[i])
    ensures FallbackKeys(env, loaded, source) == []
  {
    if source != [] {
      assert forall i | 0 <= i < |source| - 1 :: source[..|source| - 1][i] == source[i];
      NoFallbacks(env, loaded, source[..|source| - 1]);
    }
  }

  /** The first run translates nothing and remembers nothing. */
  lemma TopLevelLeavesNothing(env: Env, now: string, source: Flat)
    requires CollisionFree(env) && Distinct(source)
    requires PendingItems(env, Load(env, TopLevelDisk(source)), source) == []
    ensures var written := Expected(env, now, TopLevelDisk(source), map[], source);
            written.tm == [] && written.meta.value.fallbackKeys == []
  {
    var loaded := Load(env, TopLevelDisk(source));
    TopLevelIsKept(env, source);
    NoFallbacks(env, loaded, source);
    SortFacts(Values([]), CacheKeyOf);
    SortFacts(FallbackKeys(env, loaded, source), SameKey);
  }

  /** A key lost from the nested map is pending again in the next run. */
  lemma LostKeyIsPending(env: Env, now: string, source: Flat, i: nat)
    requires CollisionFree(env) && Distinct(source) && i < |source|
    requires PendingItems(env, Load(env, TopLevelDisk(source)), source) == []
    requires var flat := FinalFlat(env, Load(env, TopLevelDisk(source)), map[], source);
             Get(FlattenInto(Build(flat), "", []), source[i].key).None?
    ensures !IsStableFrom(env, now, source, TopLevelDisk(source), map[])
  {
    TopLevelLeavesNothing(env, now, source);
    var again := Load(env, Expected(env, now, TopLevelDisk(source), map[], source));
    assert DecideFor(env, again, again.tm, source[i]).Pending?;
    PendingMembers(env, again, source);
    assert ItemOf(env, source[i]) in PendingItems(env, again, source);
  }

  ghost predicate IsAlwaysStable(env: Env, now: string, source: Flat) {
    forall disk, translated | Covers(env, PendingItems(env, Load(env, disk), source), translated) ::
      IsStableFrom(env, now, source, disk, translated)
  }

  /** With a provider or without, the sync is a fixpoint from every state of the
      files exactly when the source keys are rebuildable: with other keys, writing
      the nested map drops a translation, and the next run has to ask for it
      again, or falls back to English. */
  lemma FixpointExactlyWhenRebuildable(env: Env, now: string, source: Flat)
    requires CollisionFree(env) && Distinct(source)
    ensures IsAlwaysStable(env, now, source) <==> IsRebuildable(source)
  {
    if IsRebuildable(source) {
      forall disk, translated | Covers(env, PendingItems(env, Load(env, disk), source), translated)
        ensures IsStableFrom(env, now, source, disk, translated)
      {
        SyncIsFixpoint(env, now, disk, translated, source, now, map[]);
      }
    } else {
      var disk := TopLevelDisk(source);
      TopLevelIsKept(env, source);
      var flat := FinalFlat(env, Load(env, disk), map[], source);
      assert forall i | 0 <= i < |flat| :: flat[i].key == source[i].key;
      SameKeysSameShape(source, flat);
      FlattenBuildExact(flat);
      var i :| 0 <= i < |flat| && Get(FlattenInto(Build(flat), "", []), flat[i].key).None?;
      LostKeyIsPending(env, now, source, i);
      assert Covers(env, PendingItems(env, Load(env, disk), source), map[]);
    }
  }

  lemma TwoStrings(a: string, x: string, b: string, y: string)
    requires a != b
    ensures FlattenInto([Field(a, Leaf(x)), Field(b, Leaf(y))], "", []) == [Pair(a, x), Pair(b, y)]
  {
    var tree := [Field(a, Leaf(x)), Field(b, Leaf(y))];
    var one := [Pair(a, x)];
    assert tree[1..] == [Field(b, Leaf(y))] && tree[1..][1..] == [] && one[1..] == [];
    assert FlattenInto(tree, "", []) == FlattenInto(tree[1..], "", one);
    assert FlattenInto(tree[1..], "", one) == Put(one, b, y);
    assert Put(one, b, y) == one + [Pair(b, y)];
  }

  /** A source for which it is none: the key "a.b" beside the string "a". */
  lemma DottedKeyIsUnstable(env: Env, now: string)
    requires CollisionFree(env)
    ensures var source := FlattenInto([Field("a", Leaf("x")), Field("a.b", Leaf("y"))], "", []);
            Distinct(source) && !IsRebuildable(source) && !IsAlwaysStable(env, now, source)
  {
    var tree := [Field("a", Leaf("x")), Field("a.b", Leaf("y"))];
    var source := FlattenInto(tree, "", []);
    TwoStrings("a", "x", "a.b", "y");
    assert source[0].key + "." <= source[1].key;
    FlattenDistinct(tree, "", []);
    FixpointExactlyWhenRebuildable(env, now, source);
  }

  lemma SameKeysSameShape(a: Flat, b: Flat)
    requires |a| == |b| && forall i | 0 <= i < |a| :: a[i].key == b[i].key
    ensures Distinct(a) <==> Distinct(b)
    ensures IsRebuildable(a) <==> IsRebuildable(b)
  {
  }
}
