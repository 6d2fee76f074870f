/** A whole locale sync as a function of the files, the options and the agent's
    behaviour (`syncLocale`), and what follows for single runs and for a run
    after another. */
module SyncRun {
  import opened JsText
  import opened Outcomes
  import opened OrderedMap
  import opened TranslationTree
  import opened TranslationBatching
  import opened BatchTranslation
  import opened SyncPlan
  import opened SyncLaws

  datatype Options = Options(checkOnly: bool, force: bool, write: bool, authOptional: bool)

  datatype Outcome = Outcome(changed: bool, fallbackCount: nat, wrote: bool)

  /** How a run ends: what it returns, the translations it used if it got that
      far, the files it leaves, and the number of the next unused exchange. */
  datatype Ending = Ending(result: Result<Outcome>, delivered: Option<Translations>, disk: Disk, next: nat)

  /** What the agent delivers for the pending items: all batches in turn, or the
      first error. Without a provider it is not asked. */
  ghost function Delivery(env: Env, script: Script, at: nat, budget: real, items: seq<Item>): BatchRun {
    if env.allowTranslate then RunBatches(script, at, Packed(items, budget)) else BatchRun(Ok(map[]), at)
  }

  function PreviousFallbacks(disk: Disk): nat {
    if disk.meta.Some? then |disk.meta.value.fallbackKeys| else 0
  }

  ghost function Synced(env: Env, options: Options, now: string, budget: real, script: Script, at: nat, disk: Disk,
                        source: Flat): Ending {
    var items := PendingItems(env, Load(env, disk), source);
    var run := Delivery(env, script, at, budget, items);
    match run.result
    case Err(message) =>
      if options.authOptional && IsProviderAuthError(message)
      then Ending(Ok(Outcome(false, PreviousFallbacks(disk), false)), None, disk, run.next)
      else Ending(Err(message), None, disk, run.next)
    case Ok(translated) =>
      DeliveryCovers(env, script, at, budget, items);
      if !HasParity(source, FinalFlat(env, Load(env, disk), translated, source))
      then Ending(Err("placeholder mismatch"), None, disk, run.next)
      else Finished(options, disk, Expected(env, now, disk, translated, source), translated, run.next)
  }

  /** The files are written if one of them is out of date and writing was asked for. */
  function Finished(options: Options, disk: Disk, expected: Disk, translated: Translations, next: nat): Ending
    requires expected.meta.Some?
  {
    var wrote := disk != expected && options.write && !options.checkOnly;
    Ending(Ok(Outcome(disk != expected, |expected.meta.value.fallbackKeys|, wrote)), Some(translated),
           if wrote then expected else disk, next)
  }

  // ---- what the agent delivers -------------------------------------------------------

  /** A delivery is complete: a non-blank text for exactly the pending keys, each
      of which some reply gave for that very key in one of the exchanges it took. */
  lemma DeliveryCovers(env: Env, script: Script, at: nat, budget: real, items: seq<Item>)
    ensures at <= Delivery(env, script, at, budget, items).next
    ensures Delivery(env, script, at, budget, items).result.Ok? ==>
              var BatchRun(result, next) := Delivery(env, script, at, budget, items);
              && Covers(env, items, result.value)
              && result.value.Keys == (if env.allowTranslate then KeysOf(items) else {})
              && forall key | key in result.value ::
                   !IsBlank(result.value[key]) && WasReplied(script, at, next, key, result.value[key])
  {
    if env.allowTranslate {
      BatchesAreComplete(script, at, Packed(items, budget));
      PackedIsGreedy(items, budget);
      assert forall i | 0 <= i < |items| :: items[i].key in KeysOf(items);
    }
  }

  /** A delivery takes at most four prompts for each item less two for each batch. */
  lemma DeliveryIsBounded(env: Env, script: Script, at: nat, budget: real, items: seq<Item>)
    ensures var next := Delivery(env, script, at, budget, items).next;
            && at <= next && PromptsIn(script, at, next) <= next - at
            && next - at <= if env.allowTranslate then 4 * |items| - 2 * |Packed(items, budget)| else 0
  {
    var next := Delivery(env, script, at, budget, items).next;
    DeliveryCovers(env, script, at, budget, items);
    if env.allowTranslate {
      PackedIsGreedy(items, budget);
      assert forall i | 0 <= i < |Packed(items, budget)| :: Fits(Packed(items, budget)[i], budget);
      BatchesAreBounded(script, at, Packed(items, budget));
    }
    PromptsAreExchanges(script, at, next);
  }

  /** A run takes at most four prompts for each pending item less two for each batch, and
      none without a provider. */
  lemma RunIsBounded(env: Env, options: Options, now: string, budget: real, script: Script, at: nat, disk: Disk,
                     source: Flat)
    ensures var next := Synced(env, options, now, budget, script, at, disk, source).next;
            var items := PendingItems(env, Load(env, disk), source);
            && at <= next && PromptsIn(script, at, next) <= next - at
            && next - at <= if env.allowTranslate then 4 * |items| - 2 * |Packed(items, budget)| else 0
  {
    DeliveryIsBounded(env, script, at, budget, PendingItems(env, Load(env, disk), source));
  }

  /** A run that does not get as far as the files leaves them alone; it succeeds
      only where the agent's refusal is excused. */
  lemma UnfinishedLeavesFiles(env: Env, options: Options, now: string, budget: real, script: Script, at: nat,
                              disk: Disk, source: Flat)
    ensures var run := Synced(env, options, now, budget, script, at, disk, source);
            && (run.result.Err? ==> run.delivered.None?)
            && (run.delivered.None? ==> run.disk == disk)
            && (run.delivered.None? && run.result.Ok? ==>
                  && env.allowTranslate && options.authOptional && !run.result.value.changed && !run.result.value.wrote
                  && run.result.value.fallbackCount ==
                     if disk.meta.Some? then |disk.meta.value.fallbackKeys| else 0)
  {
  }

  /** A run that gets there has a text for everything that was pending, keeps the
      placeholders of all values, and leaves the planned files if it was to write. */
  lemma FinishedAsPlanned(env: Env, options: Options, now: string, budget: real, script: Script, at: nat, disk: Disk,
                          source: Flat)
    requires Synced(env, options, now, budget, script, at, disk, source).delivered.Some?
    ensures var run := Synced(env, options, now, budget, script, at, disk, source);
            && Covers(env, PendingItems(env, Load(env, disk), source), run.delivered.value)
            && HasParity(source, FinalFlat(env, Load(env, disk), run.delivered.value, source))
            && var expected := Expected(env, now, disk, run.delivered.value, source);
               var writes := disk != expected && options.write && !options.checkOnly;
               && run.result == Ok(Outcome(disk != expected, |expected.meta.value.fallbackKeys|, writes))
               && run.disk == if writes then expected else disk
  {
    DeliveryCovers(env, script, at, budget, PendingItems(env, Load(env, disk), source));
  }

  /** With nothing to ask, nothing is asked, and only the placeholders can stop the run. */
  lemma NothingToAsk(env: Env, options: Options, now: string, budget: real, script: Script, at: nat, disk: Disk,
                     source: Flat)
    requires !env.allowTranslate || PendingItems(env, Load(env, disk), source) == []
    ensures var run := Synced(env, options, now, budget, script, at, disk, source);
            && run.next == at
            && (run.result.Ok? <==> HasParity(source, FinalFlat(env, Load(env, disk), map[], source)))
            && (run.result.Ok? ==> run.delivered == Some(map[]))
  {
  }

  /** A run fails exactly when the agent does, unless that is excused, or when the
      values it settles on do not keep the placeholders. */
  lemma FailsExactly(env: Env, options: Options, now: string, budget: real, script: Script, at: nat, disk: Disk,
                     source: Flat)
    ensures var run := Synced(env, options, now, budget, script, at, disk, source);
            var delivery := Delivery(env, script, at, budget, PendingItems(env, Load(env, disk), source));
            run.result.Err? <==>
            if delivery.result.Err? then !(options.authOptional && IsProviderAuthError(delivery.result.message))
            else !HasParity(source, FinalFlat(env, Load(env, disk), delivery.result.value, source))
    ensures var run := Synced(env, options, now, budget, script, at, disk, source);
            var delivery := Delivery(env, script, at, budget, PendingItems(env, Load(env, disk), source));
            run.result.Err? ==>
              run.result.message == if delivery.result.Err? then delivery.result.message else "placeholder mismatch"
  {
  }

  /** Every translation a run writes down was given by the agent for its key
      during this run. */
  lemma NothingIsInvented(env: Env, options: Options, now: string, budget: real, script: Script, at: nat, disk: Disk,
                          source: Flat, key: string)
    requires var run := Synced(env, options, now, budget, script, at, disk, source);
             run.delivered.Some? && key in run.delivered.value
    ensures var run := Synced(env, options, now, budget, script, at, disk, source);
            WasReplied(script, at, run.next, key, run.delivered.value[key]) && !IsBlank(run.delivered.value[key])
  {
    DeliveryCovers(env, script, at, budget, PendingItems(env, Load(env, disk), source));
  }

  // ---- a run after another -----------------------------------------------------------

  /** A run on the files that a finished run wrote, or found up to date, succeeds
      without asking anything, changes nothing and counts the same fallback keys,
      whatever its options and whatever the agent would say. */
  lemma SecondSyncIsIdle(
    env: Env, options: Options, now: string, budget: real, script: Script, at: nat, disk: Disk, source: Flat,
    options': Options, now': string, budget': real, script': Script, at': nat)
    requires CollisionFree(env) && Distinct(source) && IsRebuildable(source)
    requires var first := Synced(env, options, now, budget, script, at, disk, source);
             first.delivered.Some? && (first.result.value.wrote || !first.result.value.changed)
    ensures var first := Synced(env, options, now, budget, script, at, disk, source);
            Synced(env, options', now', budget', script', at', first.disk, source)
            == Ending(Ok(Outcome(false, first.result.value.fallbackCount, false)), Some(map[]), first.disk, at')
  {
    var first := Synced(env, options, now, budget, script, at, disk, source);
    var translated := first.delivered.value;
    DeliveryCovers(env, script, at, budget, PendingItems(env, Load(env, disk), source));
    assert first.disk == Expected(env, now, disk, translated, source);
    SyncIsFixpoint(env, now, disk, translated, source, now', map[]);
    NothingToAsk(env, options', now', budget', script', at', first.disk, source);
  }
}
