/** Translating one batch with retries and splits (`translateBatch`), against an
    agent that may answer, fail or time out in any pattern. */
module BatchTranslation {
  import opened JsText
  import opened Outcomes
  import opened RpcClient
  import opened TranslationBatching

  const TRANSLATE_MAX_ATTEMPTS := 2

  /** What one attempt comes to, up to and including the parse of the reply:
      the reply with the string-valued fields of the JSON object it holds, an error
      after the prompt was written, or an error before anything was written. */
  datatype Exchange =
    | Replied(raw: string, fields: map<string, string>)
    | Broken(message: string)
    | Unstarted(message: string)

  type Script = nat -> Exchange

  type Translations = map<string, string>

  // ---- error classes -----------------------------------------------------------

  function LowerChar(c: char): char {
    if 'A' <= c <= 'Z' then (c as int + 32) as char else c
  }

  /** `needle`, already in lower case, occurs in `text` up to letter case. */
  predicate Mentions(text: string, needle: string) {
    exists i | 0 <= i <= |text| - |needle| :: MentionsAt(text, i, needle)
  }

  predicate MentionsAt(text: string, at: nat, needle: string)
    requires at + |needle| <= |text|
  {
    forall j | 0 <= j < |needle| :: LowerChar(text[at + j]) == needle[j]
  }

  predicate IsPromptTimeout(message: string) {
    Mentions(message, "timed out")
  }

  predicate IsProviderAuthError(message: string) {
    Mentions(message, "401") || Mentions(message, "authentication_error") ||
    Mentions(message, "incorrect api key") || Mentions(message, "invalid x-api-key")
  }

  function Lowered(text: string): string {
    seq(|text|, i requires 0 <= i < |text| => LowerChar(text[i]))
  }

  /** A text mentions what some part of it is, up to the case of its letters. */
  lemma MentionsExactly(text: string, needle: string)
    ensures Mentions(text, needle) <==>
            exists i, j :: 0 <= i <= j <= |text| && Lowered(text[i..j]) == needle
  {
    if Mentions(text, needle) {
      var i :| 0 <= i <= |text| - |needle| && MentionsAt(text, i, needle);
      assert Lowered(text[i..i + |needle|]) == needle;
    }
    if i, j :| 0 <= i <= j <= |text| && Lowered(text[i..j]) == needle {
      forall k | 0 <= k < |needle| ensures LowerChar(text[i + k]) == needle[k] {
        assert Lowered(text[i..j])[k] == LowerChar(text[i..j][k]);
      }
      assert MentionsAt(text, i, needle);
    }
  }

  /** Messages about a timeout, and two that are not. */
  lemma TimeoutClass(a: string, b: string)
    ensures IsPromptTimeout(a + "timed out" + b) && IsPromptTimeout(a + "Timed Out" + b)
    ensures !IsPromptTimeout("timeout") && !IsPromptTimeout("timed-out")
  {
    MentionedBetween(a, "timed out", b, "timed out");
    MentionedBetween(a, "Timed Out", b, "timed out");
    MissesChar("timed-out", "timed out", 5);
  }

  /** Messages about a refused login, and three that are not. */
  lemma AuthClass(a: string, b: string)
    ensures IsProviderAuthError(a + "401" + b) && IsProviderAuthError(a + "authentication_error" + b)
    ensures IsProviderAuthError(a + "Incorrect API key" + b) && IsProviderAuthError(a + "invalid x-api-key" + b)
    ensures !IsProviderAuthError("403") && !IsProviderAuthError("authentication") && !IsProviderAuthError("timed out")
  {
    MentionedBetween(a, "401", b, "401");
    MentionedBetween(a, "authentication_error", b, "authentication_error");
    AuthClassKeys(a, b);
    MentionsNoAuthError("403");
    MentionsNoAuthError("authentication");
    MentionsNoAuthError("timed out");
  }

  lemma AuthClassKeys(a: string, b: string)
    ensures IsProviderAuthError(a + "Incorrect API key" + b) && IsProviderAuthError(a + "invalid x-api-key" + b)
  {
    MentionedBetween(a, "Incorrect API key", b, "incorrect api key");
    MentionedBetween(a, "invalid x-api-key", b, "invalid x-api-key");
  }

  /** A text without the characters '1', '_', 'p' and 'x' is about no refused login. */
  lemma MentionsNoAuthError(text: string)
    requires forall i | 0 <= i < |text| :: LowerChar(text[i]) !in {'1', '_', 'p', 'x'}
    ensures !IsProviderAuthError(text)
  {
    MissesChar(text, "401", 2);
    MissesChar(text, "authentication_error", 14);
    MissesChar(text, "incorrect api key", 11);
    MissesChar(text, "invalid x-api-key", 8);
  }

  lemma MissesChar(text: string, needle: string, j: nat)
    requires j < |needle| && forall i | 0 <= i < |text| :: LowerChar(text[i]) != needle[j]
    ensures !Mentions(text, needle)
  {
    forall i | 0 <= i <= |text| - |needle| ensures !MentionsAt(text, i, needle) {
      assert LowerChar(text[i + j]) != needle[j];
    }
  }

  lemma MentionedBetween(a: string, part: string, b: string, needle: string)
    requires |part| == |needle| && forall j | 0 <= j < |part| :: LowerChar(part[j]) == needle[j]
    ensures Mentions(a + part + b, needle)
  {
    var text := a + part + b;
    forall j | 0 <= j < |needle| ensures LowerChar(text[|a| + j]) == needle[j] {
      assert text[|a| + j] == part[j];
    }
    assert MentionsAt(text, |a|, needle);
  }

  // ---- accepting a reply -------------------------------------------------------

  predicate IsUsable(fields: map<string, string>, key: string) {
    key in fields && !IsBlank(fields[key])
  }

  function Accept(items: seq<Item>, fields: map<string, string>): Result<Translations> {
    if items == [] then Ok(map[])
    else
      var init :- Accept(items[..|items| - 1], fields);
      var key := items[|items| - 1].key;
      if IsUsable(fields, key) then Ok(init[key := fields[key]])
      else Err("missing translation for " + key)
  }

  function Judge(items: seq<Item>, exchange: Exchange): Result<Translations> {
    match exchange
    case Replied(_, fields) => Accept(items, fields)
    case Broken(message) => Err(message)
    case Unstarted(message) => Err(message)
  }

  // ---- the whole batch as a function of the script -----------------------------

  /** How a batch ended, and the number of the next unused exchange. */
  datatype BatchRun = BatchRun(result: Result<Translations>, next: nat)

  function Midpoint(items: seq<Item>): nat {
    (|items| + 1) / 2
  }

  /** A batch whose next attempt is number `attempt` (from 0) and consumes
      exchange number `at`. */
  function RunBatch(script: Script, at: nat, items: seq<Item>, attempt: nat): BatchRun
    decreases |items|, 1, TRANSLATE_MAX_ATTEMPTS - attempt
  {
    match Judge(items, script(at))
    case Ok(translated) => BatchRun(Ok(translated), at + 1)
    case Err(message) =>
      if IsPromptTimeout(message) && |items| > 1 then RunHalves(script, at + 1, items)
      else if IsPromptTimeout(message) || attempt + 1 >= TRANSLATE_MAX_ATTEMPTS then BatchRun(Err(message), at + 1)
      else RunBatch(script, at + 1, items, attempt + 1)
  }

  function RunHalves(script: Script, at: nat, items: seq<Item>): BatchRun
    requires |items| > 1
    decreases |items|, 0
  {
    var left := RunBatch(script, at, items[..Midpoint(items)], 0);
    if left.result.Err? then left
    else
      var right := RunBatch(script, left.next, items[Midpoint(items)..], 0);
      if right.result.Err? then right
      else BatchRun(Ok(left.result.value + right.result.value), right.next)
  }

  // ---- the same without counting attempts -------------------------------------------

  /** What one exchange means for a batch. */
  datatype Verdict = Complete(texts: Translations) | TimedOut(message: string) | Failed(message: string)

  ghost predicate IsComplete(items: seq<Item>, e: Exchange) {
    e.Replied? && forall i | 0 <= i < |items| :: items[i].key in e.fields && !IsBlank(e.fields[items[i].key])
  }

  /** The first item that the reply leaves out, or answers with blank text. */
  ghost predicate IsFirstMissing(items: seq<Item>, fields: map<string, string>, n: nat) {
    && n < |items| && (items[n].key !in fields || IsBlank(fields[items[n].key]))
    && forall i | 0 <= i < n :: items[i].key in fields && !IsBlank(fields[items[i].key])
  }

  ghost predicate IsVerdict(items: seq<Item>, e: Exchange, v: Verdict) {
    && (IsComplete(items, e) <==> v.Complete?)
    && (v.Complete? ==>
          && (forall i | 0 <= i < |items| :: items[i].key in v.texts)
          && forall key | key in v.texts ::
               key in e.fields && v.texts[key] == e.fields[key] && exists i :: 0 <= i < |items| && items[i].key == key)
    && (!v.Complete? ==>
          && (v.TimedOut? <==> Mentions(v.message, "timed out"))
          && match e
             case Replied(_, fields) =>
               exists n: nat ::
                 IsFirstMissing(items, fields, n) && v.message == "missing translation for " + items[n].key
             case Broken(message) => v.message == message
             case Unstarted(message) => v.message == message)
  }

  ghost function VerdictOf(items: seq<Item>, e: Exchange): (v: Verdict)
    ensures IsVerdict(items, e, v)
  {
    JudgedVerdict(items, e);
    match Judge(items, e)
    case Ok(texts) => Complete(texts)
    case Err(message) => if IsPromptTimeout(message) then TimedOut(message) else Failed(message)
  }

  lemma JudgedVerdict(items: seq<Item>, e: Exchange)
    ensures Judge(items, e).Ok? <==> IsComplete(items, e)
    ensures Judge(items, e).Ok? ==> IsVerdict(items, e, Complete(Judge(items, e).value))
    ensures Judge(items, e).Err? && e.Replied? ==>
              exists n: nat :: IsFirstMissing(items, e.fields, n) &&
                Judge(items, e) == Err("missing translation for " + items[n].key)
  {
    if e.Replied? { AcceptsOrMisses(items, e.fields); }
  }

  lemma {:induction false} AcceptsOrMisses(items: seq<Item>, fields: map<string, string>)
    ensures Accept(items, fields).Ok? <==> forall i | 0 <= i < |items| :: IsUsable(fields, items[i].key)
    ensures Accept(items, fields).Ok? ==>
              var m := Accept(items, fields).value;
              && (forall i | 0 <= i < |items| :: items[i].key in m)
              && forall key | key in m ::
                   IsUsable(fields, key) && m[key] == fields[key] && exists i :: 0 <= i < |items| && items[i].key == key
    ensures Accept(items, fields).Err? ==>
              exists n: nat :: IsFirstMissing(items, fields, n) &&
                Accept(items, fields) == Err("missing translation for " + items[n].key)
  {
    if items != [] {
      var init, last := items[..|items| - 1], items[|items| - 1];
      AcceptsOrMisses(init, fields);
      if Accept(init, fields).Err? {
        var n: nat :| IsFirstMissing(init, fields, n) &&
                 Accept(init, fields) == Err("missing translation for " + init[n].key);
        assert IsFirstMissing(items, fields, n);
      } else if !IsUsable(fields, last.key) {
        assert IsFirstMissing(items, fields, |init|);
      }
    }
  }

  /** A batch by its first one or two exchanges: a complete reply ends it; a timeout
      ends it too, for a single item, or else has the first half, the larger one if
      they differ, translated and then the second; after any other failure one more
      exchange decides in the same way, but for a further failure, which is final. */
  ghost function ByExchanges(script: Script, at: nat, items: seq<Item>): BatchRun
    decreases |items|, 1
  {
    match VerdictOf(items, script(at))
    case Complete(texts) => BatchRun(Ok(texts), at + 1)
    case TimedOut(message) => AfterTimeOut(script, at + 1, items, message)
    case Failed(_) =>
      match VerdictOf(items, script(at + 1))
      case Complete(texts) => BatchRun(Ok(texts), at + 2)
      case TimedOut(message) => AfterTimeOut(script, at + 2, items, message)
      case Failed(message) => BatchRun(Err(message), at + 2)
  }

  ghost function AfterTimeOut(script: Script, at: nat, items: seq<Item>, message: string): BatchRun
    decreases |items|, 0
  {
    if |items| <= 1 then BatchRun(Err(message), at)
    else
      var rest := |items| / 2;
      var left := ByExchanges(script, at, items[..|items| - rest]);
      if left.result.Err? then left
      else
        var right := ByExchanges(script, left.next, items[|items| - rest..]);
        match right.result
        case Err(_) => right
        case Ok(texts) => BatchRun(Ok(left.result.value + texts), right.next)
  }

  lemma {:induction false} BatchByExchanges(script: Script, at: nat, items: seq<Item>)
    ensures RunBatch(script, at, items, 0) == ByExchanges(script, at, items)
    decreases |items|, 1
  {
    var first := Judge(items, script(at));
    if first.Err? {
      if IsPromptTimeout(first.message) {
        TimeOutByExchanges(script, at + 1, items, first.message);
      } else {
        var second := Judge(items, script(at + 1));
        assert RunBatch(script, at, items, 0) == RunBatch(script, at + 1, items, 1);
        if second.Err? && IsPromptTimeout(second.message) {
          TimeOutByExchanges(script, at + 2, items, second.message);
        }
      }
    }
  }

  lemma {:induction false} TimeOutByExchanges(script: Script, at: nat, items: seq<Item>, message: string)
    ensures AfterTimeOut(script, at, items, message) ==
            if |items| > 1 then RunHalves(script, at, items) else BatchRun(Err(message), at)
    decreases |items|, 0
  {
    if |items| > 1 {
      var mid := |items| - |items| / 2;
      var left := RunBatch(script, at, items[..mid], 0);
      assert Midpoint(items) == mid;
      BatchByExchanges(script, at, items[..mid]);
      if left.result.Ok? {
        BatchByExchanges(script, left.next, items[mid..]);
        assert RunHalves(script, at, items).result ==
               match RunBatch(script, left.next, items[mid..], 0).result
               case Err(error) => Err(error)
               case Ok(texts) => Ok(left.result.value + texts);
      }
    }
  }

  /** What the driver does for one attempt: a failure of any kind drops the client. */
  function AttemptLog(judged: Result<Translations>, exchange: Exchange): seq<DriverAction> {
    if judged.Ok? && exchange.Replied? then [PromptAccepted(exchange.raw)] else [PromptFailed, ClientReset]
  }

  /** The driver's log after a batch, if it is `log` before. */
  function LogAfterBatch(script: Script, at: nat, items: seq<Item>, attempt: nat, log: seq<DriverAction>)
    : seq<DriverAction>
    decreases |items|, 1, TRANSLATE_MAX_ATTEMPTS - attempt
  {
    var judged := Judge(items, script(at));
    var next := log + AttemptLog(judged, script(at));
    match judged
    case Ok(_) => next
    case Err(message) =>
      if IsPromptTimeout(message) && |items| > 1 then LogAfterHalves(script, at + 1, items, next)
      else if IsPromptTimeout(message) || attempt + 1 >= TRANSLATE_MAX_ATTEMPTS then next
      else LogAfterBatch(script, at + 1, items, attempt + 1, next)
  }

  function LogAfterHalves(script: Script, at: nat, items: seq<Item>, log: seq<DriverAction>): seq<DriverAction>
    requires |items| > 1
    decreases |items|, 0
  {
    var left := RunBatch(script, at, items[..Midpoint(items)], 0);
    var mid := LogAfterBatch(script, at, items[..Midpoint(items)], 0, log);
    if left.result.Err? then mid else LogAfterBatch(script, left.next, items[Midpoint(items)..], 0, mid)
  }

  /** Batches one after the other, up to the first that fails. */
  function RunBatches(script: Script, at: nat, batches: seq<seq<Item>>): BatchRun {
    if batches == [] then BatchRun(Ok(map[]), at)
    else
      var init := RunBatches(script, at, batches[..|batches| - 1]);
      if init.result.Err? then init
      else
        var last := RunBatch(script, init.next, batches[|batches| - 1], 0);
        if last.result.Err? then last
        else BatchRun(Ok(init.result.value + last.result.value), last.next)
  }

  /** How many of the exchanges `from..end` wrote a prompt. */
  function PromptsIn(script: Script, from: nat, end: nat): nat
    requires from <= end
  {
    if from == end then 0 else PromptsIn(script, from, end - 1) + if script(end - 1).Unstarted? then 0 else 1
  }

  lemma {:induction false} PromptsConcat(script: Script, from: nat, mid: nat, end: nat)
    requires from <= mid <= end
    ensures PromptsIn(script, from, end) == PromptsIn(script, from, mid) + PromptsIn(script, mid, end)
    decreases end
  {
    if mid < end { PromptsConcat(script, from, mid, end - 1); }
  }

  lemma {:induction false} PromptsAreExchanges(script: Script, from: nat, end: nat)
    requires from <= end
    ensures PromptsIn(script, from, end) <= end - from
    ensures PromptsIn(script, from, end) == end - from <==> forall i | from <= i < end :: !script(i).Unstarted?
  {
    if from < end { PromptsAreExchanges(script, from, end - 1); }
  }

  /** No more prompts are written in `from..end` than exchanges are used. */
  lemma PromptsBetween(script: Script, from: nat, end: nat)
    requires from <= end
    ensures PromptsIn(script, 0, from) <= PromptsIn(script, 0, end) <= PromptsIn(script, 0, from) + end - from
  {
    PromptsConcat(script, 0, from, end);
    PromptsAreExchanges(script, from, end);
  }

  // ---- the methods -------------------------------------------------------------

  class ClientAccess {
    const script: Script
    var attempts: nat            // exchanges consumed
    var prompts: nat             // prompts written
    var log: seq<DriverAction>

    /** The prompts written so far are those of the exchanges so far, and the driver
        has dropped every client whose prompt failed. */
    ghost predicate Valid()
      reads this
    {
      prompts == PromptsIn(script, 0, attempts) && IsDisciplined(log) && MayPrompt(log)
    }

    constructor (script: Script)
      ensures Valid() && this.script == script && attempts == 0 && prompts == 0 && log == []
    {
      this.script := script;
      attempts, prompts, log := 0, 0, [];
    }

    /** `getClient` and `prompt`. */
    method Exchange() returns (e: Exchange)
      requires MayPrompt(log)
      modifies this`attempts, this`prompts
      ensures e == script(old(attempts)) && attempts == old(attempts) + 1
      ensures prompts == old(prompts) + if e.Unstarted? then 0 else 1
    {
      e := script(attempts);
      attempts := attempts + 1;
      if !e.Unstarted? {
        prompts := prompts + 1;
      }
    }

    method Record(action: DriverAction)
      requires MayPrompt(log) || action == ClientReset
      requires IsDisciplined(log)
      modifies this`log
      ensures log == old(log) + [action] && IsDisciplined(log)
    {
      log := log + [action];
    }
  }

  method AcceptReply(items: seq<Item>, fields: map<string, string>) returns (r: Result<Translations>)
    ensures r == Accept(items, fields)
  {
    var translated := map[];
    for i := 0 to |items|
      invariant Accept(items[..i], fields) == Ok(translated)
    {
      assert items[..i + 1][..i] == items[..i];
      var key := items[i].key;
      if !IsUsable(fields, key) {
        RejectedByPrefix(items, i + 1, fields);
        return Err("missing translation for " + key);
      }
      translated := translated[key := fields[key]];
    }
    assert items[..|items|] == items;
    return Ok(translated);
  }

  lemma {:induction false} RejectedByPrefix(items: seq<Item>, n: nat, fields: map<string, string>)
    requires n <= |items| && Accept(items[..n], fields).Err?
    ensures Accept(items, fields) == Accept(items[..n], fields)
    decreases |items| - n
  {
    if n == |items| {
      assert items[..n] == items;
    } else {
      assert items[..n + 1][..n] == items[..n];
      RejectedByPrefix(items, n + 1, fields);
    }
  }

  /** The guarded part of an attempt: prompt, parse, check every key; a failure
      of any of them drops the client. */
  method TryOnce(access: ClientAccess, items: seq<Item>) returns (judged: Result<Translations>)
    requires access.Valid()
    modifies access
    ensures access.Valid()
    ensures judged == Judge(items, access.script(old(access.attempts)))
    ensures access.attempts == old(access.attempts) + 1
    ensures access.log == old(access.log) + AttemptLog(judged, access.script(old(access.attempts)))
  {
    var exchange := access.Exchange();
    match exchange {
      case Replied(_, fields) => judged := AcceptReply(items, fields);
      case Broken(message) => judged := Err(message);
      case Unstarted(message) => judged := Err(message);
    }
    if judged.Ok? {
      access.Record(PromptAccepted(exchange.raw));
    } else {
      access.Record(PromptFailed);
      access.Record(ClientReset);
    }
  }

  method TranslateBatch(access: ClientAccess, items: seq<Item>) returns (r: Result<Translations>)
    requires access.Valid()
    modifies access
    ensures access.Valid() && IsLogOfRun(access.log)
    ensures BatchRun(r, access.attempts) == RunBatch(access.script, old(access.attempts), items, 0)
    ensures access.log == LogAfterBatch(access.script, old(access.attempts), items, 0, old(access.log))
    ensures |items| >= 1 ==> access.prompts <= old(access.prompts) + 4 * |items| - 2
    decreases |items|, 1
  {
    ghost var expected := RunBatch(access.script, access.attempts, items, 0);
    ghost var expectedLog := LogAfterBatch(access.script, access.attempts, items, 0, access.log);
    AttemptsAreBounded(access.script, access.attempts, items, 0);
    PromptsBetween(access.script, access.attempts, expected.next);
    var lastError := "translation failed";
    var attempt := 0;
    while attempt < TRANSLATE_MAX_ATTEMPTS
      invariant 0 <= attempt <= TRANSLATE_MAX_ATTEMPTS
      invariant expected == if attempt < TRANSLATE_MAX_ATTEMPTS
                            then RunBatch(access.script, access.attempts, items, attempt)
                            else BatchRun(Err(lastError), access.attempts)
      invariant expectedLog == if attempt < TRANSLATE_MAX_ATTEMPTS
                               then LogAfterBatch(access.script, access.attempts, items, attempt, access.log)
                               else access.log
      invariant access.Valid()
    {
      var judged := TryOnce(access, items);
      if judged.Ok? {
        DisciplineSuffices(access.log);
        return judged;
      }
      lastError := judged.message;
      if IsPromptTimeout(lastError) && |items| > 1 {
        r := TranslateHalves(access, items);
        assert access.log == expectedLog;
        DisciplineSuffices(access.log);
        return;
      }
      if IsPromptTimeout(lastError) {
        break;
      }
      attempt := attempt + 1;
    }
    DisciplineSuffices(access.log);
    return Err(lastError);
  }

  method TranslateHalves(access: ClientAccess, items: seq<Item>) returns (r: Result<Translations>)
    requires access.Valid() && |items| > 1
    modifies access
    ensures access.Valid()
    ensures BatchRun(r, access.attempts) == RunHalves(access.script, old(access.attempts), items)
    ensures access.log == LogAfterHalves(access.script, old(access.attempts), items, old(access.log))
    decreases |items|, 0
  {
    var left := TranslateBatch(access, items[..Midpoint(items)]);
    if left.Err? { return left; }
    var right := TranslateBatch(access, items[Midpoint(items)..]);
    if right.Err? { return right; }
    return Ok(left.value + right.value);
  }

  // ---- what the function promises ----------------------------------------------

  ghost function KeysOf(items: seq<Item>): set<string> {
    set i | 0 <= i < |items| :: items[i].key
  }

  /** A batch of `n` items consumes at most `4n - 2` exchanges, whatever happens. */
  lemma {:induction false} AttemptsAreBounded(script: Script, at: nat, items: seq<Item>, attempt: nat)
    requires attempt < TRANSLATE_MAX_ATTEMPTS
    ensures at < RunBatch(script, at, items, attempt).next
    ensures |items| >= 1 ==> RunBatch(script, at, items, attempt).next <= at + 4 * |items| - 2 - attempt
    decreases |items|, TRANSLATE_MAX_ATTEMPTS - attempt
  {
    var judged := Judge(items, script(at));
    if judged.Err? {
      if IsPromptTimeout(judged.message) && |items| > 1 {
        var midpoint := Midpoint(items);
        AttemptsAreBounded(script, at + 1, items[..midpoint], 0);
        AttemptsAreBounded(script, RunBatch(script, at + 1, items[..midpoint], 0).next, items[midpoint..], 0);
      } else if !IsPromptTimeout(judged.message) && attempt + 1 < TRANSLATE_MAX_ATTEMPTS {
        AttemptsAreBounded(script, at + 1, items, attempt + 1);
      }
    }
  }

  lemma {:induction false} AcceptedReply(items: seq<Item>, fields: map<string, string>)
    ensures Accept(items, fields).Ok? <==> forall i | 0 <= i < |items| :: IsUsable(fields, items[i].key)
    ensures Accept(items, fields).Ok? ==>
              var m := Accept(items, fields).value;
              m.Keys == KeysOf(items) && forall key | key in m :: IsUsable(fields, key) && m[key] == fields[key]
  {
    if items != [] {
      var init := items[..|items| - 1];
      AcceptedReply(init, fields);
      KeysOfAppend(init, [items[|items| - 1]]);
      assert items == init + [items[|items| - 1]];
    }
  }

  lemma KeysOfAppend(a: seq<Item>, b: seq<Item>)
    ensures KeysOf(a + b) == KeysOf(a) + KeysOf(b)
  {
    forall key | key in KeysOf(a) ensures key in KeysOf(a + b) {
      var i :| 0 <= i < |a| && a[i].key == key;
      assert (a + b)[i].key == key;
    }
    forall key | key in KeysOf(b) ensures key in KeysOf(a + b) {
      var i :| 0 <= i < |b| && b[i].key == key;
      assert (a + b)[|a| + i].key == key;
    }
  }

  /** One of the exchanges `from..to` replied with this translation. */
  ghost predicate WasReplied(script: Script, from: nat, to: nat, key: string, text: string) {
    exists i | from <= i < to :: script(i).Replied? && key in script(i).fields && script(i).fields[key] == text
  }

  /** A batch that succeeds translates exactly the keys of its items, across all
      splits, each by a non-blank text that some reply gave for that very key. */
  lemma {:induction false} BatchIsComplete(script: Script, at: nat, items: seq<Item>, attempt: nat)
    requires RunBatch(script, at, items, attempt).result.Ok?
    ensures var BatchRun(result, next) := RunBatch(script, at, items, attempt);
            && at < next
            && result.value.Keys == KeysOf(items)
            && forall key | key in result.value ::
                 !IsBlank(result.value[key]) && WasReplied(script, at, next, key, result.value[key])
    decreases |items|, TRANSLATE_MAX_ATTEMPTS - attempt
  {
    var judged := Judge(items, script(at));
    if judged.Ok? {
      AcceptedReply(items, script(at).fields);
    } else if IsPromptTimeout(judged.message) && |items| > 1 {
      var midpoint := Midpoint(items);
      var mid := RunBatch(script, at + 1, items[..midpoint], 0).next;
      BatchIsComplete(script, at + 1, items[..midpoint], 0);
      BatchIsComplete(script, mid, items[midpoint..], 0);
      KeysOfAppend(items[..midpoint], items[midpoint..]);
      assert items == items[..midpoint] + items[midpoint..];
    } else {
      BatchIsComplete(script, at + 1, items, attempt + 1);
    }
  }

  /** The same over several batches. */
  lemma {:induction false} BatchesAreComplete(script: Script, at: nat, batches: seq<seq<Item>>)
    ensures at <= RunBatches(script, at, batches).next
    ensures RunBatches(script, at, batches).result.Ok? ==>
              var BatchRun(result, next) := RunBatches(script, at, batches);
              && result.value.Keys == KeysOf(Concat(batches))
              && forall key | key in result.value ::
                   !IsBlank(result.value[key]) && WasReplied(script, at, next, key, result.value[key])
  {
    if batches != [] {
      var n := |batches| - 1;
      var init := RunBatches(script, at, batches[..n]);
      BatchesAreComplete(script, at, batches[..n]);
      if init.result.Ok? {
        AttemptsAreBounded(script, init.next, batches[n], 0);
        if RunBatch(script, init.next, batches[n], 0).result.Ok? {
          BatchIsComplete(script, init.next, batches[n], 0);
          KeysOfAppend(Concat(batches[..n]), batches[n]);
        }
      }
    }
  }

  /** Several batches together consume at most four exchanges for each item less two for each batch. */
  lemma {:induction false} BatchesAreBounded(script: Script, at: nat, batches: seq<seq<Item>>)
    requires forall i | 0 <= i < |batches| :: |batches[i]| >= 1
    ensures RunBatches(script, at, batches).next <= at + 4 * |Concat(batches)| - 2 * |batches|
  {
    if batches != [] {
      var n := |batches| - 1;
      var init := RunBatches(script, at, batches[..n]);
      BatchesAreBounded(script, at, batches[..n]);
      if init.result.Ok? { AttemptsAreBounded(script, init.next, batches[n], 0); }
    }
  }

  // ---- the replies the driver accepts ----------------------------------------------

  /** From `log` to `after` the driver accepted replies of the exchanges `from..to` only. */
  ghost predicate AcceptsFrom(script: Script, from: nat, to: nat, log: seq<DriverAction>, after: seq<DriverAction>) {
    && Replies(log) <= Replies(after)
    && forall k | |Replies(log)| <= k < |Replies(after)| :: IsRawReply(script, from, to, Replies(after)[k])
  }

  ghost predicate IsRawReply(script: Script, from: nat, to: nat, raw: string) {
    exists i | from <= i < to :: script(i).Replied? && script(i).raw == raw
  }

  lemma AcceptsInTurn(script: Script, from: nat, mid: nat, to: nat,
                      log: seq<DriverAction>, between: seq<DriverAction>, after: seq<DriverAction>)
    requires from <= mid <= to
    requires AcceptsFrom(script, from, mid, log, between) && AcceptsFrom(script, mid, to, between, after)
    ensures AcceptsFrom(script, from, to, log, after)
  {
    forall k | |Replies(log)| <= k < |Replies(after)| ensures IsRawReply(script, from, to, Replies(after)[k]) {
      if k < |Replies(between)| {
        assert Replies(after)[k] == Replies(between)[k];
        assert IsRawReply(script, from, mid, Replies(after)[k]);
      } else {
        assert IsRawReply(script, mid, to, Replies(after)[k]);
      }
    }
  }

  lemma AttemptAccepts(script: Script, at: nat, items: seq<Item>, log: seq<DriverAction>)
    ensures var judged := Judge(items, script(at));
            var after := log + AttemptLog(judged, script(at));
            && AcceptsFrom(script, at, at + 1, log, after)
            && Replies(after) == Replies(log) + if judged.Ok? then [script(at).raw] else []
  {
    var judged := Judge(items, script(at));
    if judged.Ok? {
      RepliesAppend(log, PromptAccepted(script(at).raw));
      assert IsRawReply(script, at, at + 1, script(at).raw);
    } else {
      RepliesAppend(log, PromptFailed);
      RepliesAppend(log + [PromptFailed], ClientReset);
      assert log + [PromptFailed, ClientReset] == log + [PromptFailed] + [ClientReset];
    }
  }

  /** In a batch the driver accepts nothing but replies of its own exchanges. */
  lemma {:induction false} BatchAccepts(script: Script, at: nat, items: seq<Item>, attempt: nat,
                                        log: seq<DriverAction>)
    requires attempt < TRANSLATE_MAX_ATTEMPTS
    ensures AcceptsFrom(script, at, RunBatch(script, at, items, attempt).next, log,
                        LogAfterBatch(script, at, items, attempt, log))
    decreases |items|, 1, TRANSLATE_MAX_ATTEMPTS - attempt
  {
    var judged := Judge(items, script(at));
    var next := log + AttemptLog(judged, script(at));
    var end, after := RunBatch(script, at, items, attempt).next, LogAfterBatch(script, at, items, attempt, log);
    AttemptAccepts(script, at, items, log);
    if judged.Err? {
      if IsPromptTimeout(judged.message) && |items| > 1 {
        HalvesAccept(script, at + 1, items, next);
        AcceptsInTurn(script, at, at + 1, end, log, next, after);
      } else if !IsPromptTimeout(judged.message) && attempt + 1 < TRANSLATE_MAX_ATTEMPTS {
        AttemptsAreBounded(script, at + 1, items, attempt + 1);
        BatchAccepts(script, at + 1, items, attempt + 1, next);
        AcceptsInTurn(script, at, at + 1, end, log, next, after);
      }
    }
  }

  lemma {:induction false} HalvesAccept(script: Script, at: nat, items: seq<Item>, log: seq<DriverAction>)
    requires |items| > 1
    ensures at <= RunHalves(script, at, items).next
    ensures AcceptsFrom(script, at, RunHalves(script, at, items).next, log, LogAfterHalves(script, at, items, log))
    decreases |items|, 0
  {
    var front, rest := items[..Midpoint(items)], items[Midpoint(items)..];
    var left, mid := RunBatch(script, at, front, 0), LogAfterBatch(script, at, front, 0, log);
    AttemptsAreBounded(script, at, front, 0);
    BatchAccepts(script, at, front, 0, log);
    if left.result.Ok? {
      var right, after := RunBatch(script, left.next, rest, 0), LogAfterBatch(script, left.next, rest, 0, mid);
      AttemptsAreBounded(script, left.next, rest, 0);
      BatchAccepts(script, left.next, rest, 0, mid);
      AcceptsInTurn(script, at, left.next, right.next, log, mid, after);
    }
  }

  /** One of the exchanges `from..to` gave this translation in a reply that the driver accepted. */
  ghost predicate WasAccepted(script: Script, from: nat, to: nat, log: seq<DriverAction>, key: string, text: string) {
    exists i | from <= i < to :: HoldsText(script(i), log, key, text)
  }

  ghost predicate HoldsText(e: Exchange, log: seq<DriverAction>, key: string, text: string) {
    e.Replied? && e.raw in Replies(log) && key in e.fields && e.fields[key] == text
  }

  lemma TextStays(script: Script, from: nat, to: nat, log: seq<DriverAction>, from': nat, to': nat,
                  after: seq<DriverAction>, key: string, text: string)
    requires from' <= from && to <= to' && Replies(log) <= Replies(after)
    requires WasAccepted(script, from, to, log, key, text)
    ensures WasAccepted(script, from', to', after, key, text)
  {
    var i :| from <= i < to && HoldsText(script(i), log, key, text);
    assert script(i).raw in Replies(after);
    assert HoldsText(script(i), after, key, text);
  }

  lemma AcceptedStays(script: Script, from: nat, to: nat, log: seq<DriverAction>, from': nat, to': nat,
                      after: seq<DriverAction>, m: Translations)
    requires from' <= from && to <= to' && Replies(log) <= Replies(after)
    requires forall key | key in m :: WasAccepted(script, from, to, log, key, m[key])
    ensures forall key | key in m :: WasAccepted(script, from', to', after, key, m[key])
  {
    forall key | key in m ensures WasAccepted(script, from', to', after, key, m[key]) {
      TextStays(script, from, to, log, from', to', after, key, m[key]);
    }
  }

  /** Every text of a batch that succeeds stands in a reply that the driver accepted. */
  lemma {:induction false} BatchTextsAreAccepted(script: Script, at: nat, items: seq<Item>, attempt: nat,
                                                 log: seq<DriverAction>)
    requires attempt < TRANSLATE_MAX_ATTEMPTS && RunBatch(script, at, items, attempt).result.Ok?
    ensures var BatchRun(result, next) := RunBatch(script, at, items, attempt);
            forall key | key in result.value ::
              WasAccepted(script, at, next, LogAfterBatch(script, at, items, attempt, log), key, result.value[key])
    decreases |items|, 1, TRANSLATE_MAX_ATTEMPTS - attempt
  {
    var judged := Judge(items, script(at));
    var next := log + AttemptLog(judged, script(at));
    var run, after := RunBatch(script, at, items, attempt), LogAfterBatch(script, at, items, attempt, log);
    if judged.Ok? {
      AcceptedReply(items, script(at).fields);
      AttemptAccepts(script, at, items, log);
      assert script(at).raw in Replies(after);
      forall key | key in judged.value ensures WasAccepted(script, at, run.next, after, key, judged.value[key]) {
        assert HoldsText(script(at), after, key, judged.value[key]);
      }
    } else if IsPromptTimeout(judged.message) && |items| > 1 {
      HalvesTextsAreAccepted(script, at + 1, items, next);
      AcceptedStays(script, at + 1, run.next, after, at, run.next, after, run.result.value);
    } else {
      BatchTextsAreAccepted(script, at + 1, items, attempt + 1, next);
      AcceptedStays(script, at + 1, run.next, after, at, run.next, after, run.result.value);
    }
  }

  lemma {:induction false} HalvesTextsAreAccepted(script: Script, at: nat, items: seq<Item>, log: seq<DriverAction>)
    requires |items| > 1 && RunHalves(script, at, items).result.Ok?
    ensures var BatchRun(result, next) := RunHalves(script, at, items);
            forall key | key in result.value ::
              WasAccepted(script, at, next, LogAfterHalves(script, at, items, log), key, result.value[key])
    decreases |items|, 0
  {
    var front, rest := items[..Midpoint(items)], items[Midpoint(items)..];
    var left, mid := RunBatch(script, at, front, 0), LogAfterBatch(script, at, front, 0, log);
    var right, after := RunBatch(script, left.next, rest, 0), LogAfterBatch(script, left.next, rest, 0, mid);
    AttemptsAreBounded(script, at, front, 0);
    AttemptsAreBounded(script, left.next, rest, 0);
    BatchTextsAreAccepted(script, at, front, 0, log);
    BatchTextsAreAccepted(script, left.next, rest, 0, mid);
    BatchAccepts(script, left.next, rest, 0, mid);
    AcceptedStays(script, at, left.next, mid, at, right.next, after, left.result.value);
    AcceptedStays(script, left.next, right.next, after, at, right.next, after, right.result.value);
  }

  // ---- the bound is sharp ------------------------------------------------------

  /** Exchange `i` of the most expensive way to succeed: every segment fails once
      and then times out, until single items remain, which fail once and then succeed. */
  function WorstExchange(items: seq<Item>, i: nat): Exchange
    requires items != []
    decreases |items|
  {
    if i == 0 then Broken("x")
    else if |items| == 1 then Replied("", map[items[0].key := "ok"])
    else if i == 1 then Broken("timed out")
    else
      var left := items[..Midpoint(items)];
      if i - 2 < 4 * |left| - 2 then WorstExchange(left, i - 2)
      else WorstExchange(items[Midpoint(items)..], i - 4 * |left|)
  }

  ghost predicate GoesWorst(script: Script, at: nat, items: seq<Item>)
    requires items != []
  {
    forall i: nat | i < 4 * |items| - 2 :: script(at + i) == WorstExchange(items, i)
  }

  lemma TimeoutMessages()
    ensures IsPromptTimeout("timed out") && !IsPromptTimeout("x") && !IsBlank("ok")
  {
    assert MentionsAt("timed out", 0, "timed out");
    assert "ok"[0] == 'o';
  }

  lemma FailThenTimeOut(script: Script, at: nat, items: seq<Item>)
    requires |items| > 1 && script(at) == Broken("x") && script(at + 1) == Broken("timed out")
    ensures RunBatch(script, at, items, 0) == RunHalves(script, at + 2, items)
  {
    TimeoutMessages();
    assert RunBatch(script, at + 1, items, 1) == RunHalves(script, at + 2, items);
  }

  lemma FailThenSucceed(script: Script, at: nat, item: Item)
    requires script(at) == Broken("x") && script(at + 1) == Replied("", map[item.key := "ok"])
    ensures RunBatch(script, at, [item], 0).result.Ok? && RunBatch(script, at, [item], 0).next == at + 2
  {
    TimeoutMessages();
    AcceptedReply([item], script(at + 1).fields);
    assert RunBatch(script, at + 1, [item], 1).result.Ok?;
  }

  lemma HalvesGoWorst(script: Script, at: nat, items: seq<Item>)
    requires |items| > 1 && GoesWorst(script, at, items)
    ensures var left, right := items[..Midpoint(items)], items[Midpoint(items)..];
            GoesWorst(script, at + 2, left) && GoesWorst(script, at + 4 * |left|, right)
  {
    var left, right := items[..Midpoint(items)], items[Midpoint(items)..];
    forall i: nat | i < 4 * |left| - 2 ensures script(at + 2 + i) == WorstExchange(left, i) {
      assert script(at + (2 + i)) == WorstExchange(items, 2 + i);
    }
    forall i: nat | i < 4 * |right| - 2 ensures script(at + 4 * |left| + i) == WorstExchange(right, i) {
      assert script(at + (4 * |left| + i)) == WorstExchange(items, 4 * |left| + i);
    }
  }

  lemma {:induction false} WorstCaseRun(script: Script, at: nat, items: seq<Item>)
    requires |items| >= 1 && GoesWorst(script, at, items)
    ensures RunBatch(script, at, items, 0).result.Ok?
    ensures RunBatch(script, at, items, 0).next == at + 4 * |items| - 2
    decreases |items|
  {
    assert script(at + 0) == WorstExchange(items, 0) && script(at + 1) == WorstExchange(items, 1);
    if |items| == 1 {
      assert items == [items[0]];
      FailThenSucceed(script, at, items[0]);
    } else {
      HalvesGoWorst(script, at, items);
      WorstCaseRun(script, at + 2, items[..Midpoint(items)]);
      WorstCaseRun(script, at + 4 * Midpoint(items), items[Midpoint(items)..]);
      FailThenTimeOut(script, at, items);
    }
  }

  lemma {:induction false} WorstExchangeWrites(items: seq<Item>, i: nat)
    requires items != []
    ensures !WorstExchange(items, i).Unstarted?
    decreases |items|
  {
    if i >= 2 && |items| > 1 {
      if i - 2 < 4 * Midpoint(items) - 2 {
        WorstExchangeWrites(items[..Midpoint(items)], i - 2);
      } else {
        WorstExchangeWrites(items[Midpoint(items)..], i - 4 * Midpoint(items));
      }
    }
  }

  /** The batch succeeds, and only with prompt number `4n - 2`. */
  ghost predicate TakesAllPrompts(script: Script, items: seq<Item>)
    requires |items| >= 1
  {
    var run := RunBatch(script, 0, items, 0);
    run.result.Ok? && run.next == 4 * |items| - 2 == PromptsIn(script, 0, run.next)
  }

  /** The bound `4n - 2` on prompts is attained, by a batch that succeeds. */
  lemma BoundIsAttained(items: seq<Item>)
    requires |items| >= 1
    ensures exists script: Script :: TakesAllPrompts(script, items)
  {
    var script: Script := (i: nat) => WorstExchange(items, i);
    WorstCaseRun(script, 0, items);
    forall i: nat | i < 4 * |items| - 2 ensures !script(i).Unstarted? {
      WorstExchangeWrites(items, i);
    }
    PromptsAreExchanges(script, 0, 4 * |items| - 2);
    assert TakesAllPrompts(script, items);
  }

  /** What several batches cost in the worst case. */
  function WorstCost(batches: seq<seq<Item>>): nat
    requires forall i | 0 <= i < |batches| :: |batches[i]| >= 1
    ensures WorstCost(batches) == 4 * |Concat(batches)| - 2 * |batches|
  {
    if batches == [] then 0
    else WorstCost(batches[..|batches| - 1]) + 4 * |batches[|batches| - 1]| - 2
  }

  /** Exchange `i` if every batch in turn goes as badly as it can and still succeeds. */
  function WorstOfBatches(batches: seq<seq<Item>>, i: nat): Exchange
    requires forall b | 0 <= b < |batches| :: |batches[b]| >= 1
  {
    if batches == [] then Broken("x")
    else
      var init, last := batches[..|batches| - 1], batches[|batches| - 1];
      if i < WorstCost(init) then WorstOfBatches(init, i) else WorstExchange(last, i - WorstCost(init))
  }

  ghost predicate GoWorst(script: Script, at: nat, batches: seq<seq<Item>>)
    requires forall b | 0 <= b < |batches| :: |batches[b]| >= 1
  {
    forall i: nat | i < WorstCost(batches) :: script(at + i) == WorstOfBatches(batches, i)
  }

  lemma {:induction false} WorstOfBatchesWrites(batches: seq<seq<Item>>, i: nat)
    requires forall b | 0 <= b < |batches| :: |batches[b]| >= 1
    ensures !WorstOfBatches(batches, i).Unstarted?
  {
    if batches != [] {
      var init, last := batches[..|batches| - 1], batches[|batches| - 1];
      if i < WorstCost(init) {
        WorstOfBatchesWrites(init, i);
      } else {
        WorstExchangeWrites(last, i - WorstCost(init));
      }
    }
  }

  lemma {:induction false} BatchesGoWorst(script: Script, at: nat, batches: seq<seq<Item>>)
    requires forall b | 0 <= b < |batches| :: |batches[b]| >= 1
    requires GoWorst(script, at, batches)
    ensures RunBatches(script, at, batches).result.Ok?
    ensures RunBatches(script, at, batches).next == at + 4 * |Concat(batches)| - 2 * |batches|
  {
    if batches != [] {
      var init, last := batches[..|batches| - 1], batches[|batches| - 1];
      var cost := WorstCost(init);
      forall i: nat | i < cost ensures script(at + i) == WorstOfBatches(init, i) {
        assert script(at + i) == WorstOfBatches(batches, i);
      }
      BatchesGoWorst(script, at, init);
      forall i: nat | i < 4 * |last| - 2 ensures script(at + cost + i) == WorstExchange(last, i) {
        assert script(at + (cost + i)) == WorstOfBatches(batches, cost + i);
      }
      WorstCaseRun(script, at + cost, last);
    }
  }

  /** All batches succeed, and only with prompt number `4n - 2k` for `n` items in `k` batches. */
  ghost predicate TakeAllPrompts(script: Script, batches: seq<seq<Item>>) {
    var run := RunBatches(script, 0, batches);
    run.result.Ok? && run.next == 4 * |Concat(batches)| - 2 * |batches| && PromptsIn(script, 0, run.next) == run.next
  }

  lemma WorstBatchesWrite(script: Script, batches: seq<seq<Item>>)
    requires forall b | 0 <= b < |batches| :: |batches[b]| >= 1
    requires GoWorst(script, 0, batches)
    ensures PromptsIn(script, 0, WorstCost(batches)) == WorstCost(batches)
  {
    forall i: nat | i < WorstCost(batches) ensures !script(i).Unstarted? {
      assert script(0 + i) == WorstOfBatches(batches, i);
      WorstOfBatchesWrites(batches, i);
    }
    PromptsAreExchanges(script, 0, WorstCost(batches));
  }

  /** The bound on several batches is attained too. */
  lemma BatchesBoundIsAttained(batches: seq<seq<Item>>)
    requires forall b | 0 <= b < |batches| :: |batches[b]| >= 1
    ensures exists script: Script :: TakeAllPrompts(script, batches)
  {
    var script: Script := (i: nat) => WorstOfBatches(batches, i);
    assert GoWorst(script, 0, batches);
    BatchesGoWorst(script, 0, batches);
    WorstBatchesWrite(script, batches);
    assert TakeAllPrompts(script, batches);
  }
}
