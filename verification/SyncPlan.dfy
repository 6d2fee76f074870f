/** What one locale sync decides for every key, and the files it plans to write
    (`syncLocale`), as functions of the files it read. */
module SyncPlan {
  import opened JsText
  import opened Outcomes
  import opened OrderedMap
  import opened Sorting
  import opened TranslationTree
  import opened TranslationBatching
  import opened BatchTranslation

  const WORKFLOW := 1
  const SOURCE_LOCALE := "en"

  datatype TmEntry = TmEntry(
    cacheKey: string, model: string, provider: string, segmentId: string, sourcePath: string,
    srcLang: string, text: string, textHash: string, tgtLang: string, translated: string, updatedAt: string)

  /** The translation memory: entries under their cache keys. */
  type Memory = seq<Pair<string, TmEntry>>

  datatype GlossaryEntry = GlossaryEntry(source: string, target: string)

  datatype Meta = Meta(
    fallbackKeys: seq<string>, generatedAt: string, locale: string, model: string, provider: string,
    sourceHash: string, totalKeys: int, translatedKeys: int, workflow: int)

  /** The four files of a locale, by what they hold. */
  datatype Disk = Disk(tree: Option<Entries>, meta: Option<Meta>, glossary: Option<seq<GlossaryEntry>>,
      tm: seq<TmEntry>)

  /** What stays the same between runs with one source, provider and model. The
      two hashes stand for SHA-256 of their inputs. */
  datatype Env = Env(
    locale: string, sourcePath: string, provider: string, model: string, allowTranslate: bool,
    sourceHash: string, defaultGlossary: seq<GlossaryEntry>,
    hashText: string -> string, cacheKey: (string, string) -> string)

  /** SHA-256 digests are never empty, and cache keys of different segments differ. */
  ghost predicate CollisionFree(env: Env) {
    && env.defaultGlossary != []
    && (forall key, hash :: env.cacheKey(key, hash) != "")
    && (forall text :: env.hashText(text) != "")
    && (forall key, hash, key', hash' :: env.cacheKey(key, hash) == env.cacheKey(key', hash') ==> key == key')
  }

  // ---- translation memory --------------------------------------------------------

  function CacheKeyOf(e: TmEntry): string { e.cacheKey }

  function LoadMemory(lines: seq<TmEntry>): Memory {
    if lines == [] then []
    else
      var init, last := LoadMemory(lines[..|lines| - 1]), lines[|lines| - 1];
      if last.cacheKey != "" && !IsBlank(last.translated) then Put(init, last.cacheKey, last) else init
  }

  function Values(m: Memory): seq<TmEntry> {
    seq(|m|, i requires 0 <= i < |m| => m[i].value)
  }

  function RenderMemory(m: Memory): seq<TmEntry> {
    Sort(Values(m), CacheKeyOf)
  }

  predicate ServesText(e: TmEntry, locale: string) {
    e.tgtLang == locale && e.textHash != "" && !IsBlank(e.translated)
  }

  /** The memory by text hash; of several entries with one hash the last wins. */
  function ByTextHash(m: Memory, locale: string): Memory {
    if m == [] then []
    else
      var init, last := ByTextHash(m[..|m| - 1], locale), m[|m| - 1].value;
      if ServesText(last, locale) then Put(init, last.textHash, last) else init
  }

  ghost predicate MemoryOk(m: Memory) {
    Distinct(m) && forall p | p in m :: p.key == p.value.cacheKey && p.key != "" && !IsBlank(p.value.translated)
  }

  lemma {:induction false} LoadMemoryOk(lines: seq<TmEntry>)
    ensures MemoryOk(LoadMemory(lines))
  {
    if lines != [] {
      var last := lines[|lines| - 1];
      LoadMemoryOk(lines[..|lines| - 1]);
      PutAt(LoadMemory(lines[..|lines| - 1]), last.cacheKey, last);
    }
  }

  lemma {:induction false} PutNew<K, V>(m: seq<Pair<K, V>>, k: K, v: V)
    requires forall p | p in m :: p.key != k
    ensures Put(m, k, v) == m + [Pair(k, v)]
  {
    if m != [] {
      PutNew(m[1..], k, v);
    }
  }

  lemma {:induction false} LoadDistinctLines(lines: seq<TmEntry>)
    requires DistinctKeys(lines, CacheKeyOf)
    requires forall e | e in lines :: e.cacheKey != "" && !IsBlank(e.translated)
    ensures Values(LoadMemory(lines)) == lines
  {
    if lines != [] {
      var n := |lines| - 1;
      LoadDistinctLines(lines[..n]);
      var init := LoadMemory(lines[..n]);
      LoadMemoryOk(lines[..n]);
      forall p | p in init ensures p.key != lines[n].cacheKey {
        var i :| 0 <= i < |init| && init[i] == p;
        assert Values(init)[i] == lines[i];
        assert CacheKeyOf(lines[i]) != CacheKeyOf(lines[n]);
      }
      PutNew(init, lines[n].cacheKey, lines[n]);
      assert Values(init + [Pair(lines[n].cacheKey, lines[n])]) == Values(init) + [lines[n]];
    }
  }

  lemma ValuesOk(m: Memory)
    requires MemoryOk(m)
    ensures DistinctKeys(Values(m), CacheKeyOf)
    ensures forall e | e in Values(m) :: Pair(e.cacheKey, e) in m
    ensures forall p | p in m :: p.value in Values(m)
  {
    forall i, j | 0 <= i < j < |m| ensures CacheKeyOf(Values(m)[i]) != CacheKeyOf(Values(m)[j]) {
      assert m[i] in m && m[j] in m;
    }
    forall e | e in Values(m) ensures Pair(e.cacheKey, e) in m {
      var i :| 0 <= i < |m| && Values(m)[i] == e;
      assert m[i] in m;
    }
    forall p | p in m ensures p.value in Values(m) {
      var i :| 0 <= i < |m| && m[i] == p;
      assert Values(m)[i] == p.value;
    }
  }

  /** Saving a memory and loading it again keeps all of its entries, and a second
      save writes the same file. */
  lemma MemoryRoundTrip(m: Memory)
    requires MemoryOk(m)
    ensures var again := LoadMemory(RenderMemory(m));
            && MemoryOk(again)
            && (forall k :: Get(again, k) == Get(m, k))
            && (forall p | p in again :: p in m)
            && RenderMemory(again) == RenderMemory(m)
  {
    var lines := RenderMemory(m);
    var again := LoadMemory(lines);
    ValuesOk(m);
    SortFacts(Values(m), CacheKeyOf);
    SortCanonical(Values(m), Values(m), CacheKeyOf);
    forall e | e in lines ensures e.cacheKey != "" && !IsBlank(e.translated) {
      assert Pair(e.cacheKey, e) in m;
    }
    LoadMemoryOk(lines);
    LoadDistinctLines(lines);
    ValuesOk(again);
    SortOfSorted(Values(m), CacheKeyOf);
    assert Values(again) == lines;
    forall p | p in again ensures p in m { assert p.value in lines; }
    forall p | p in m ensures p in again { assert p.value in lines; }
    forall k ensures Get(again, k) == Get(m, k) { SameEntriesSameGet(again, m, k); }
  }

  lemma SameEntriesSameGet<K, V>(m: seq<Pair<K, V>>, n: seq<Pair<K, V>>, k: K)
    requires Distinct(m) && Distinct(n)
    requires (forall p | p in m :: p in n) && (forall p | p in n :: p in m)
    ensures Get(m, k) == Get(n, k)
  {
    if Get(m, k).Some? {
      var i := GetFound(m, k);
      assert m[i] in n;
      var j :| 0 <= j < |n| && n[j] == m[i];
      GetHere(n, j);
    } else if Get(n, k).Some? {
      var i := GetFound(n, k);
      assert n[i] in m;
      var j :| 0 <= j < |m| && m[j] == n[i];
      GetHere(m, j);
    }
  }

  /** Some entry of the memory serves the text hash. */
  ghost predicate HasText(m: Memory, locale: string, hash: string) {
    exists p | p in m :: ServesText(p.value, locale) && p.value.textHash == hash
  }

  lemma {:induction false} ByTextHashDomain(m: Memory, locale: string, hash: string)
    ensures Get(ByTextHash(m, locale), hash).Some? <==> HasText(m, locale, hash)
    ensures Get(ByTextHash(m, locale), hash).Some? ==>
              var e := Get(ByTextHash(m, locale), hash).value;
              ServesText(e, locale) && e.textHash == hash
  {
    if m != [] {
      var n := |m| - 1;
      var last := m[n].value;
      ByTextHashDomain(m[..n], locale, hash);
      GetPut(ByTextHash(m[..n], locale), last.textHash, last, hash);
      assert m == m[..n] + [m[n]];
      assert m[n] in m;
    }
  }

  // ---- the decision for one key --------------------------------------------------

  datatype Decision = Cached(value: string) | ByText(entry: TmEntry) | Keep(value: string) | Pending

  function Decide(cached: Option<TmEntry>, byText: Option<TmEntry>, existing: Option<string>,
                  wasFallback: bool, allowTranslate: bool): Decision
  {
    if cached.Some? && !(allowTranslate && wasFallback) then Cached(cached.value.translated)
    else if byText.Some? && (wasFallback || existing.None?) then ByText(byText.value)
    else if existing.Some? && !(allowTranslate && wasFallback) then Keep(existing.value)
    else Pending
  }

  /** What a run reads before it decides anything. */
  datatype Loaded = Loaded(tm: Memory, byText: Memory, existing: Flat, previousFallback: seq<string>)

  function Load(env: Env, disk: Disk): Loaded {
    var tm := LoadMemory(disk.tm);
    Loaded(tm,
           ByTextHash(tm, env.locale),
           if disk.tree.Some? then FlattenInto(disk.tree.value, "", []) else [],
           if disk.meta.Some? then disk.meta.value.fallbackKeys else [])
  }

  function KeyOf(env: Env, p: Pair<string, string>): string {
    env.cacheKey(p.key, env.hashText(p.value))
  }

  /** The decision for the source string `p`, given the memory at that moment. */
  function DecideFor(env: Env, loaded: Loaded, tm: Memory, p: Pair<string, string>): Decision {
    Decide(Get(tm, KeyOf(env, p)), Get(loaded.byText, env.hashText(p.value)), Get(loaded.existing, p.key),
           p.key in loaded.previousFallback, env.allowTranslate)
  }

  // ---- all keys --------------------------------------------------------------------

  function CopyFor(env: Env, e: TmEntry, p: Pair<string, string>): TmEntry {
    e.(cacheKey := KeyOf(env, p), segmentId := p.key, sourcePath := env.sourcePath)
  }

  /** The entries the first pass adds to the memory: copies of entries for the same text. */
  function Copies(env: Env, loaded: Loaded, source: Flat): Memory {
    if source == [] then []
    else
      var init, p := Copies(env, loaded, source[..|source| - 1]), source[|source| - 1];
      var d := DecideFor(env, loaded, loaded.tm, p);
      if d.ByText? then init + [Pair(KeyOf(env, p), CopyFor(env, d.entry, p))] else init
  }

  function PendingItems(env: Env, loaded: Loaded, source: Flat): seq<Item> {
    if source == [] then []
    else
      var init, p := PendingItems(env, loaded, source[..|source| - 1]), source[|source| - 1];
      if DecideFor(env, loaded, loaded.tm, p).Pending?
      then init + [Item(KeyOf(env, p), p.key, p.value, env.hashText(p.value))]
      else init
  }

  predicate IsReusedFallback(loaded: Loaded, d: Decision, key: string) {
    (d.Cached? || d.Keep?) && key in loaded.previousFallback
  }

  predicate IsFallback(env: Env, loaded: Loaded, p: Pair<string, string>) {
    var d := DecideFor(env, loaded, loaded.tm, p);
    IsReusedFallback(loaded, d, p.key) || (d.Pending? && !env.allowTranslate)
  }

  function FallbackKeys(env: Env, loaded: Loaded, source: Flat): seq<string> {
    if source == [] then []
    else
      var init, p := FallbackKeys(env, loaded, source[..|source| - 1]), source[|source| - 1];
      if IsFallback(env, loaded, p) then init + [p.key] else init
  }

  /** The value the run settles on for `p`; `translated` is what the agent delivered. */
  function FinalValue(env: Env, loaded: Loaded, translated: Translations, p: Pair<string, string>): string {
    match DecideFor(env, loaded, loaded.tm, p)
    case Cached(value) => value
    case ByText(entry) => entry.translated
    case Keep(value) => value
    case Pending =>
      if env.allowTranslate && p.key in translated then translated[p.key] else p.value
  }

  function FinalFlat(env: Env, loaded: Loaded, translated: Translations, source: Flat): Flat {
    seq(|source|, i requires 0 <= i < |source| => Pair(source[i].key, FinalValue(env, loaded, translated, source[i])))
  }

  /** The agent delivered every string it was asked for, none of them blank. */
  ghost predicate Covers(env: Env, items: seq<Item>, translated: Translations) {
    env.allowTranslate ==> forall i | 0 <= i < |items| :: IsUsable(translated, items[i].key)
  }

  function NewEntry(env: Env, now: string, item: Item, translated: string): TmEntry {
    TmEntry(item.cacheKey, env.model, env.provider, item.key, env.sourcePath, SOURCE_LOCALE, item.text,
            item.textHash, env.locale, translated, now)
  }

  function NewEntries(env: Env, now: string, items: seq<Item>, translated: Translations): Memory
    requires forall i | 0 <= i < |items| :: items[i].key in translated
  {
    seq(|items|, i requires 0 <= i < |items| =>
      Pair(items[i].cacheKey, NewEntry(env, now, items[i], translated[items[i].key])))
  }

  function FinalMemory(env: Env, now: string, loaded: Loaded, translated: Translations, source: Flat): Memory
    requires Covers(env, PendingItems(env, loaded, source), translated)
  {
    var copied := PutAll(loaded.tm, Copies(env, loaded, source));
    if env.allowTranslate then PutAll(copied, NewEntries(env, now, PendingItems(env, loaded, source), translated))
    else copied
  }

  // ---- placeholders ----------------------------------------------------------------

  predicate IsWordChar(c: char) {
    'a' <= c <= 'z' || 'A' <= c <= 'Z' || '0' <= c <= '9' || c == '_'
  }

  predicate IsPlaceholderAt(text: string, i: nat, j: nat)
    requires i < j < |text|
  {
    text[i] == '{' && text[j] == '}' && i + 1 < j && forall k | i < k < j :: IsWordChar(text[k])
  }

  function Placeholders(text: string): set<string> {
    set i, j | 0 <= i < |text| && i < j < |text| && IsPlaceholderAt(text, i, j) :: text[i + 1..j]
  }

  /** What global matching of a brace, word characters and a brace finds, from left to right
      and without overlaps. */
  function MatchedNames(text: string): set<string> {
    if text == "" then {}
    else
      var w := WordLength(text[1..]);
      if text[0] == '{' && w > 0 && 1 + w < |text| && text[1 + w] == '}'
      then {text[1..1 + w]} + MatchedNames(text[2 + w..])
      else MatchedNames(text[1..])
  }

  function WordLength(text: string): (n: nat)
    ensures n <= |text| && (forall i | 0 <= i < n :: IsWordChar(text[i])) && (n < |text| ==> !IsWordChar(text[n]))
  {
    if text != "" && IsWordChar(text[0]) then 1 + WordLength(text[1..]) else 0
  }

  ghost predicate IsNameIn(text: string, from: nat, name: string) {
    exists i, j :: from <= i < j < |text| && IsPlaceholderAt(text, i, j) && name == text[i + 1..j]
  }

  lemma NameInRest(text: string, from: nat, name: string)
    requires from <= |text|
    ensures IsNameIn(text, from, name) <==> name in Placeholders(text[from..])
  {
    var rest := text[from..];
    if IsNameIn(text, from, name) {
      var i, j :| from <= i < j < |text| && IsPlaceholderAt(text, i, j) && name == text[i + 1..j];
      assert IsPlaceholderAt(rest, i - from, j - from) && name == rest[i - from + 1..j - from];
    }
    if name in Placeholders(rest) {
      var i, j :| 0 <= i < j < |rest| && IsPlaceholderAt(rest, i, j) && name == rest[i + 1..j];
      assert IsPlaceholderAt(text, i + from, j + from) && name == text[i + from + 1..j + from];
    }
  }

  /** At the front stands at most one placeholder, and no other starts inside it. */
  lemma NameAtFront(text: string, name: string)
    requires text != ""
    ensures var w := WordLength(text[1..]);
            if text[0] == '{' && w > 0 && 1 + w < |text| && text[1 + w] == '}'
            then IsNameIn(text, 0, name) <==> name == text[1..1 + w] || IsNameIn(text, 2 + w, name)
            else IsNameIn(text, 0, name) <==> IsNameIn(text, 1, name)
  {
    var w := WordLength(text[1..]);
    assert forall k | 1 <= k <= w :: text[k] == text[1..][k - 1];
    assert 1 + w < |text| ==> text[1 + w] == text[1..][w];
    if IsNameIn(text, 0, name) {
      var i, j :| 0 <= i < j < |text| && IsPlaceholderAt(text, i, j) && name == text[i + 1..j];
      if i == 0 {
        assert j == 1 + w;
      }
    }
    if text[0] == '{' && w > 0 && 1 + w < |text| && text[1 + w] == '}' {
      assert IsPlaceholderAt(text, 0, 1 + w);
    }
  }

  /** Matching from left to right misses no placeholder: the matches cannot overlap. */
  lemma {:induction false} MatchingFindsAll(text: string)
    ensures MatchedNames(text) == Placeholders(text)
  {
    if text != "" {
      var w := WordLength(text[1..]);
      var n := if text[0] == '{' && w > 0 && 1 + w < |text| && text[1 + w] == '}' then 2 + w else 1;
      MatchingFindsAll(text[n..]);
      forall name ensures name in MatchedNames(text) <==> name in Placeholders(text) {
        assert text[0..] == text;
        NameInRest(text, 0, name);
        NameInRest(text, n, name);
        NameAtFront(text, name);
      }
    }
  }

  predicate HasParity(source: Flat, next: Flat) {
    |source| == |next| && forall i | 0 <= i < |source| :: Placeholders(source[i].value) == Placeholders(next[i].value)
  }

  // ---- the files -------------------------------------------------------------------

  function SameKey(key: string): string { key }

  function NextMeta(env: Env, now: string, previous: Option<Meta>, fallback: seq<string>, total: nat): Meta {
    var provider := if env.allowTranslate then env.provider else if previous.Some? then previous.value.provider else "";
    var model := if env.allowTranslate then env.model else if previous.Some? then previous.value.model else "";
    var translatedKeys := total - |fallback|;
    var semanticMetaChanged :=
      previous.None? || previous.value.locale != env.locale || previous.value.sourceHash != env.sourceHash ||
      previous.value.provider != provider || previous.value.model != model ||
      previous.value.totalKeys != total || previous.value.translatedKeys != translatedKeys ||
      previous.value.workflow != WORKFLOW || previous.value.fallbackKeys != fallback;
    Meta(fallback, if semanticMetaChanged then now else previous.value.generatedAt, env.locale, model, provider,
         env.sourceHash, total, translatedKeys, WORKFLOW)
  }

  /** The files a run plans to write. */
  function Expected(env: Env, now: string, disk: Disk, translated: Translations, source: Flat): Disk
    requires Covers(env, PendingItems(env, Load(env, disk), source), translated)
  {
    var loaded := Load(env, disk);
    var glossary := if disk.glossary.Some? then disk.glossary.value else [];
    Disk(Some(Build(FinalFlat(env, loaded, translated, source))),
         Some(NextMeta(env, now, disk.meta, Sort(FallbackKeys(env, loaded, source), SameKey), |source|)),
         Some(if glossary == [] then env.defaultGlossary else glossary),
         RenderMemory(FinalMemory(env, now, loaded, translated, source)))
  }
}
