# Release and quality scripts: a verified model

A Dafny model of eight tooling scripts, with proofs of what their algorithms promise. Files, processes,
clocks and the network are replaced by parameters: a disk as a value, a script of adversarial outcomes,
a trace of events, a schedule. Whatever a script does with them is proved for every such parameter.

Run `dafny verify dfyconfig.toml` in this directory to check everything.

## What is modelled

**Locale sync** (`scripts/control-ui-i18n.ts`). `TranslationTree` flattens and rebuilds the nested
locale maps; `TranslationBatching` packs pending strings into prompts; `RpcClient` is the client with
one pending slot, alone as a class and inside a system of driver, agents, timers and processes that take
steps in any order; `BatchTranslation` is the recursive retry and split; `SyncPlan` says what a run
decides for every key and what it leaves on disk, `SyncLaws` proves the laws of that plan, `SyncRun` is
a whole run, failures included, as a function of the files, the options and the agent's behaviour,
`SyncTexts` tells from the files read and the replies what each file then holds (`TextOf` for the texts
themselves), and `LocaleSync` is the imperative run that is proved to end exactly so. Main results: the
sync is a fixpoint, the imperative run ends as specified for every behaviour of the agent and records
nothing the agent did not reply, fallback accounting is exact, the packing is optimal, the prompt bound
`4n-2` holds and is sharp, and every reply reaches its own prompt although it carries no id. The driver
log of every batch, accepted replies included, is the log of a run of the client system, so what holds
of all its runs holds of the batch: each accepted reply is the agent's own to its prompt.

The fixpoint, of the plan and of whole runs (`SecondSyncIsIdle`), needs source keys that survive being
written as a nested map. `FlattenBuildExact` and `FixpointExactlyWhenRebuildable` give the exact
condition, with a provider and without: no key starts with a dot, and none is an ancestor of another
(`DottedKeyIsUnstable` is a source for which it fails). A tree whose own keys have no dots, and no empty
key at its root, always meets it (`PlainTreeIsRebuildable`).

**OTLP decoder** (`scripts/qa-otel-smoke.ts`). `ProtoWire` is the cursor class over the wire format of
the Protocol Buffers encoding guide (sections "Base 128 Varints" and "Message Structure"); `OtlpDecoder`
holds the message decoders of traces, `OtlpSignals` those of metrics and logs, `OtlpTrace` what is
captured from a trace request, and `OtlpRoundTrip` and `SignalRoundTrip` encode message trees of all
three signals with unknown fields anywhere and decode them again (`Parts` does so once for every list of
embedded messages). `SpanCapture` and `SignalCapture` tell from the items that were sent what is
captured of them (`CapturedAsSent`). A value that sets several members keeps them all, so the guide's
rule "Last One Wins" does not always hold of what is reported; `OneofLastWinsExactly` says when it does,
and `LaterIntegerLoses` is a message of which it does not.

**Gateway restart benchmark** (`scripts/bench-gateway-restart.ts`). `LogLines` splits chunked output
into lines; the chunks are bytes, decoded one by one (`Utf8`, section 3 of RFC 3629), so the lines do
not depend on the cuts exactly when no cut goes through a character (`DecodedLinesExactly`,
`TornLetter`). `RestartProbe` condenses a trace of health polls into one result, `ProcessTree` sums CPU
time over a process listing that may contain cycles (with `Reachability`).

**Temp-path guardrails** (`scripts/check-temp-path-guardrails.ts`). `ArgumentScanner` finds the closing
parenthesis of a call and splits its arguments; `ArgumentGrammar` says by a grammar of its own which
texts and calls it reads as meant (`ClosedCallIsRead`). `ReaderPool` reads files with concurrent workers.

**Published package check** (`scripts/openclaw-npm-postpublish-verify.ts`). `ImportClosure` is the
worklist over relative imports.

**Issue labelling** (`scripts/label-open-issues.ts`). `LabelBatches` turns pages into work batches;
`LabelCheckpoints` works through them with a state file that a later run continues from; a run and a
later one both classify items of one batch at most (`AuditsRepeatOneBatch`). `LabelWork` says which
items a run asks about: it works through one list of issues and one of pull requests, whatever the
batches are (`AuditIsOneList`). The loops for issues and pull requests differ, apart from the labels
they add, only in the skill-label shortcut, so they are one method with a kind.

**Command runner** (`scripts/openclaw-cross-os-release-checks.ts`). `CommandSettlement` lets process
events race with timers. That no timer stays set after settling is not quite true of the code: when the
kill request itself emits an error, the command settles inside the timeout callback, which then sets the
kill-wait timer. `TimerOutlivesSettlementExactly` gives the exact condition and `FailedKillLeavesATimer`
a concrete run.

**Schema names** (`scripts/protocol-gen-swift.ts`). `SchemaRegistry` is the canonical form and the index
of names that are unique so far.

`Outcomes`, `Octets`, `JsText`, `OrderedMap` and `Sorting` hold optional values and thrown errors,
bytes, `trim`, insertion-ordered maps and `toSorted`.

## Model

| member | source | states |
|---|---|---|
| TranslationBatching.BuildTranslationBatches | scripts/control-ui-i18n.ts:1261-1285 | the loop builds the greedy packing; it concatenates to the items in order, each batch has 1 to 20 items and fits the budget unless it is a single item, and no legal packing of the same items uses fewer batches |
| TranslationBatching.PackOne | scripts/control-ui-i18n.ts:1266-1279 | one turn of the loop takes the greedy packing of the items so far to that of one item more |
| TranslationBatching.PackedIsGreedy | scripts/control-ui-i18n.ts:1261-1285 | the greedy packing is legal and concatenates to the items, whatever the budget |
| TranslationBatching.AddItem | scripts/control-ui-i18n.ts:1267-1270 | the two tests of the loop hold exactly when the item no longer fits the open batch, and the tracked size is the estimate plus 2 per item |
| TranslationBatching.CloseBatch | scripts/control-ui-i18n.ts:1271-1275 | closing the open batch keeps the packing legal and greedy |
| TranslationBatching.FullBatchReachesFurther | scripts/control-ui-i18n.ts:1269-1275 | a legal batch that starts no later than a full one ends no later |
| TranslationBatching.GreedyStaysAhead | scripts/control-ui-i18n.ts:1261-1285 | the first k greedy batches cover at least what the first k batches of any legal packing cover |
| TranslationBatching.GreedyUsesFewest | scripts/control-ui-i18n.ts:1261-1285 | a greedy packing has at most as many batches as any legal packing |
| TranslationBatching.FitsSlice | scripts/control-ui-i18n.ts:917-919 | every non-empty contiguous part of a legal batch is legal |
| TranslationBatching.EstimateIsSum | scripts/control-ui-i18n.ts:917-919 | the size of a batch is two characters and, for each item, the lengths of its key and text and eight more |
| TranslationBatching.FitsExactly | scripts/control-ui-i18n.ts:1261-1285 | a batch is legal exactly when it is a single item, or has 2 to 20 items and two characters, all keys and texts and ten characters for each item stay within the budget |
| TranslationTree.FlattenTranslations | scripts/control-ui-i18n.ts:331-341 | the recursive walk writes, in order, the dotted key of every string into the map it was given |
| TranslationTree.FlattenGet | scripts/control-ui-i18n.ts:331-341 | a key of the flat map has the value found by walking its dotted path in the tree, or what the map held before |
| TranslationTree.FlattenDistinct | scripts/control-ui-i18n.ts:331-341 | the flat map never holds a key twice |
| TranslationTree.FlattenNoLeadingDot | scripts/control-ui-i18n.ts:331-341 | a tree whose own keys have no dots yields no key with a leading dot |
| TranslationTree.SetNestedLookup | scripts/control-ui-i18n.ts:343-358 | after writing a dotted key its path has the value; paths above and below it have none; all others are unchanged |
| TranslationTree.SetNestedPlain | scripts/control-ui-i18n.ts:343-358 | writing a dotted key adds only dot-free keys to the tree |
| TranslationTree.BuildLookup | scripts/control-ui-i18n.ts:343-358 | in the tree built from a rebuildable flat map every path has the value of its key |
| TranslationTree.PrefixPaths | scripts/control-ui-i18n.ts:343-344 | one dotted key is an ancestor of another exactly when its path is a proper prefix |
| TranslationTree.FlattenBuildExact | scripts/control-ui-i18n.ts:331-358 | flattening the tree built from a flat map gives that map back, and keeps each of its keys, exactly when no key has a leading dot or is an ancestor of another |
| TranslationTree.PlainTreeIsRebuildable | scripts/control-ui-i18n.ts:331-358 | flattening a tree without dots in its own keys gives a rebuildable map, if no map at its root has an empty key |
| TranslationTree.EmptyRootCollides | scripts/control-ui-i18n.ts:331-341 | a concrete tree, with a map under an empty key at its root, that flattens to a key and its ancestor although no key has a dot |
| RpcClient.PiRpcClient.constructor | scripts/control-ui-i18n.ts:1287-1299 | a new client has nothing pending, nothing settled and is open |
| RpcClient.PiRpcClient.SettlePrompt | scripts/control-ui-i18n.ts:1430-1479 | a prompt keeps its first settlement, as a promise does |
| RpcClient.PiRpcClient.RejectPending | scripts/control-ui-i18n.ts:1363-1369 | the pending slot is emptied and its prompt, if any, rejected |
| RpcClient.PiRpcClient.HandleStdoutLine | scripts/control-ui-i18n.ts:1371-1417 | a response counts only under the pending id; an agent_end settles whatever is pending; anything else changes nothing |
| RpcClient.PiRpcClient.Prompt | scripts/control-ui-i18n.ts:1419-1479 | a closed client sends nothing; an open one takes the next id into the pending slot |
| RpcClient.PiRpcClient.OnTimeout | scripts/control-ui-i18n.ts:1439-1451 | a timeout rejects its prompt and closes the client only while that prompt is pending |
| RpcClient.PiRpcClient.OnWriteError | scripts/control-ui-i18n.ts:1468-1478 | a failed write rejects its prompt and frees the slot if it still holds it |
| RpcClient.PiRpcClient.OnProcessClose | scripts/control-ui-i18n.ts:1347-1352 | the end of the process closes the client and rejects the pending prompt |
| RpcClient.PiRpcClient.Close | scripts/control-ui-i18n.ts:1486-1497 | the client is closed |
| RpcClient.StepKeepsInv | scripts/control-ui-i18n.ts:1363-1497 | every enabled event of the driver, the agents, the timers and the processes keeps the system invariant |
| RpcClient.DriverStepKeepsInv | scripts/control-ui-i18n.ts:1678-1692 | creating a client (or failing to), prompting, observing and resetting keep the invariant |
| RpcClient.ClientStepKeepsInv | scripts/control-ui-i18n.ts:1371-1476 | every event at any client, retired ones included, keeps the invariant |
| RpcClient.Run | scripts/control-ui-i18n.ts:1363-1497 | every run of enabled events ends in a state with the invariant |
| RpcClient.ReplyReachesItsPrompt | scripts/control-ui-i18n.ts:1406-1415 | after any run, an agent_end settles the prompt it answers with its result, or finds nothing pending and changes nothing, although it carries no id |
| RpcClient.RunsAttributeReplies | scripts/control-ui-i18n.ts:1371-1417 | after any run, each settled reply is the one its own prompt was given, and at most one client has a prompt pending |
| RpcClient.RunsLogReplies | scripts/control-ui-i18n.ts:1371-1417 | in every run, the replies the driver accepted are, one by one and in order, the agents' own replies to different prompts |
| RpcClient.SettlementIsFinal | scripts/control-ui-i18n.ts:1430-1479 | no event changes how a prompt was settled |
| RpcClient.ResponseConcernsItsPrompt | scripts/control-ui-i18n.ts:1389-1404 | in every run, a response under any number but the pending one changes nothing at all; under the pending one a success is only noted, and a failure rejects exactly that prompt with its error |
| RpcClient.TimeoutConcernsItsPrompt | scripts/control-ui-i18n.ts:1439-1451 | in every run, a timer whose prompt is no longer pending changes nothing; otherwise that prompt is rejected and its client closed |
| RpcClient.WriteErrorConcernsItsPrompt | scripts/control-ui-i18n.ts:1468-1478 | in every run, a failed write frees the slot only of its own prompt, and changes nothing once that prompt is settled |
| RpcClient.ProcessRejectsPending | scripts/control-ui-i18n.ts:1347-1369 | in every run, a process that fails or ends rejects exactly what is pending at its client, if anything; its end also closes that client |
| RpcClient.PromptTakesTheSlot | scripts/control-ui-i18n.ts:1419-1436 | in every run, a prompt to an open client gets the next number and the slot, and one to a closed client sends nothing and is refused |
| RpcClient.ResetDropsTheClient | scripts/control-ui-i18n.ts:1684-1690 | in every run, a reset closes the current client, if there is one, and leaves the driver without |
| RpcClient.FailedClientIsNeverPrompted | scripts/control-ui-i18n.ts:1684-1690 | over all continuations of a run a retired client is never written to again |
| RpcClient.FailureRetires | scripts/control-ui-i18n.ts:1559-1562 | a prompt that ends badly, rejected, unusable or refused by a client that closed while it booted or waited, retires its client |
| RpcClient.DisciplinedLogIsOfRun | scripts/control-ui-i18n.ts:1678-1692 | for every disciplined log of driver actions, whatever replies it accepts, there is a run of the whole system with exactly that log: the discipline is all the system asks of the driver |
| RpcClient.NothingAnsweredYet | scripts/control-ui-i18n.ts:1406-1415 | in no run has an agent answered a prompt that was not written |
| RpcClient.WithoutResetRepliesGoAstray | scripts/control-ui-i18n.ts:1406-1415 | a client used again after a failed prompt gives the late reply to the wrong prompt: the reset is necessary |
| BatchTranslation.ClientAccess.Exchange | scripts/control-ui-i18n.ts:1545-1547 | one exchange is taken from the adversarial script and counted as a prompt unless the client could not start |
| BatchTranslation.ClientAccess.Record | scripts/control-ui-i18n.ts:1678-1692 | the log of driver actions stays disciplined: after a failure only a reset may follow |
| BatchTranslation.AcceptReply | scripts/control-ui-i18n.ts:1548-1558 | the loop over the items returns their texts or the error of the first item without one |
| BatchTranslation.AcceptedReply | scripts/control-ui-i18n.ts:1550-1556 | a reply is accepted exactly when every item has a non-blank text in it; the map then has the items keys and those texts |
| BatchTranslation.MentionsExactly | scripts/control-ui-i18n.ts:876-888 | a message mentions exactly what some part of it is, up to the case of letters |
| BatchTranslation.TimeoutClass | scripts/control-ui-i18n.ts:876-878 | messages that say timed out, in any case and anywhere, count as timeouts; two that nearly do, do not |
| BatchTranslation.AuthClass | scripts/control-ui-i18n.ts:880-888 | messages with one of the four marks of a refused login count as such, and three that have none do not |
| BatchTranslation.TryOnce | scripts/control-ui-i18n.ts:1544-1562 | one attempt sends at most one prompt, logs the reply it accepts, and resets the client exactly when it failed |
| BatchTranslation.TranslateBatch | scripts/control-ui-i18n.ts:1531-1593 | retries and splits as specified, for every script of failures; sends at most 4n-2 prompts for n items; its driver log is the specified one and the log of a run of the client system in which each accepted reply is the agent's own to its prompt |
| BatchTranslation.TranslateHalves | scripts/control-ui-i18n.ts:1565-1581 | a timed out batch is its two halves translated in order and merged |
| BatchTranslation.AttemptsAreBounded | scripts/control-ui-i18n.ts:1531-1593 | for every script of timeouts, errors and replies a batch of n items ends after at most 4n-2 exchanges |
| BatchTranslation.BatchIsComplete | scripts/control-ui-i18n.ts:1531-1593 | a successful batch has exactly the keys of its items, across all splits, each with a non-blank text that some reply gave for that key |
| BatchTranslation.BatchByExchanges | scripts/control-ui-i18n.ts:1531-1593 | how a batch ends, told by its exchanges: a reply with a usable text for each item ends it, a first failure is tried once more, a timeout splits several items at once into a first half, no smaller, and a second, and nothing else ends it well |
| BatchTranslation.BatchesAreComplete | scripts/control-ui-i18n.ts:1694-1721 | the same over all batches in turn: exactly the keys of all items, each with a non-blank text that some reply gave for that key |
| BatchTranslation.BatchesAreBounded | scripts/control-ui-i18n.ts:1694-1721 | k batches of n items in all end after at most 4n-2k exchanges, however they end |
| BatchTranslation.BatchAccepts | scripts/control-ui-i18n.ts:1531-1593 | across all retries and splits of a batch the driver accepts replies of its own exchanges only |
| BatchTranslation.BatchTextsAreAccepted | scripts/control-ui-i18n.ts:1531-1593 | every text of a batch that succeeds stands, under its key, in a reply that the driver accepted |
| BatchTranslation.PromptsAreExchanges | scripts/control-ui-i18n.ts:1544-1547 | there are as many prompts as exchanges exactly when the client could always be started |
| BatchTranslation.WorstCaseRun | scripts/control-ui-i18n.ts:1531-1593 | failing once and then timing out at every split takes exactly 4n-2 exchanges |
| BatchTranslation.BoundIsAttained | scripts/control-ui-i18n.ts:1531-1593 | for every batch there is a script under which it succeeds only at exchange 4n-2, each of them with a prompt: the bound on prompts is sharp |
| BatchTranslation.BatchesBoundIsAttained | scripts/control-ui-i18n.ts:1694-1721 | for every list of batches there is a script under which all succeed only at exchange 4n-2k, each of them with a prompt |
| SyncPlan.LoadMemoryOk | scripts/control-ui-i18n.ts:488-507 | the loaded memory has each cache key once, non-empty, with a non-blank translation |
| SyncPlan.MemoryRoundTrip | scripts/control-ui-i18n.ts:488-517 | rendering a memory and loading it again keeps every entry, and rendering once more gives the same lines |
| SyncPlan.ByTextHashDomain | scripts/control-ui-i18n.ts:519-531 | a text hash is served exactly when some entry of the locale has it with a non-blank translation, and by such an entry |
| SyncPlan.MatchingFindsAll | scripts/control-ui-i18n.ts:374-378 | global matching from left to right, without overlaps, finds exactly the placeholders that stand anywhere in the text |
| SyncTexts.LoadedIsLastLine | scripts/control-ui-i18n.ts:488-507 | what the memory says about a cache key stands in the last usable line for it |
| SyncTexts.LoadedInOrder | scripts/control-ui-i18n.ts:488-507 | the memory keeps its cache keys in the order of their first usable lines |
| SyncTexts.ServedByLast | scripts/control-ui-i18n.ts:519-531 | a text hash is served by the last entry of the locale that can |
| SyncTexts.ServedWhenOneCan | scripts/control-ui-i18n.ts:519-531 | a text hash is served exactly when an entry of the locale can |
| SyncLaws.KeysDiffer | scripts/control-ui-i18n.ts:297-299 | two source keys never share a cache key |
| SyncLaws.CopyAt | scripts/control-ui-i18n.ts:1644-1653 | an entry is copied for a key exactly when the text hash served it |
| SyncLaws.PendingMembers | scripts/control-ui-i18n.ts:1663-1668 | the items that wait are exactly those of the undecided keys, with distinct keys and cache keys |
| SyncLaws.NewEntryAt | scripts/control-ui-i18n.ts:1701-1720 | a new entry exists for a key exactly when it was pending, and holds its translation |
| SyncLaws.FinalMemoryAt | scripts/control-ui-i18n.ts:1628-1721 | after the run the memory answers for each key with its final value, or as before |
| SyncLaws.FinalMemoryOk | scripts/control-ui-i18n.ts:1628-1721 | the memory stays well-formed, and without a provider gains no new text hash |
| SyncLaws.MemoryGrowsOnly | scripts/control-ui-i18n.ts:1644-1721 | an entry that was not in the memory belongs to a key served by text hash or translated in this run |
| SyncLaws.FallbackExact | scripts/control-ui-i18n.ts:1636-1759 | a key is a fallback exactly when there is no provider and it was cached and a fallback before, or it was not cached, no text hash served it, and it was a fallback before or had no text |
| SyncLaws.FallbackMembers | scripts/control-ui-i18n.ts:1626-1759 | the fallback list has each fallback key once and nothing else |
| SyncLaws.MetaCountsExact | scripts/control-ui-i18n.ts:1777-1802 | translatedKeys plus the number of fallback keys is totalKeys, translatedKeys is not negative, and with a provider there are no fallback keys |
| SyncLaws.DecideAgain | scripts/control-ui-i18n.ts:1636-1668 | what one run leaves behind makes the next run reuse the value with the same fallback status |
| SyncLaws.LoadedAgain | scripts/control-ui-i18n.ts:1602-1622 | loading the written files gives the final memory, the final texts and the fallback list back |
| SyncLaws.KeyIsStable | scripts/control-ui-i18n.ts:1628-1669 | in a second run each key is served from the memory or the file, at its value and fallback status of the first |
| SyncLaws.SecondRunReuses | scripts/control-ui-i18n.ts:1602-1810 | a second run has nothing to translate and settles on the same texts, memory and fallback list |
| SyncLaws.SyncIsFixpoint | scripts/control-ui-i18n.ts:1602-1865 | with rebuildable source keys a second run on the written files asks nothing, settles on the same values and plans exactly the files that are there, with a provider or without |
| SyncLaws.FixpointExactlyWhenRebuildable | scripts/control-ui-i18n.ts:331-358 | with a provider or without, the sync is stable from every starting point exactly when the source keys are rebuildable |
| SyncLaws.DottedKeyIsUnstable | scripts/control-ui-i18n.ts:331-358 | a concrete source, a key with a dot beside the string it continues, for which the sync is not always stable |
| SyncLaws.LostKeyIsPending | scripts/control-ui-i18n.ts:331-358 | a key that is lost when the nested map is read back is pending again in the next run, although nothing was pending in the first |
| SyncRun.DeliveryCovers | scripts/control-ui-i18n.ts:1671-1721 | what the agent delivers covers the pending items: exactly their keys with a provider, each with a non-blank text that a reply gave for that key during these exchanges |
| SyncRun.RunIsBounded | scripts/control-ui-i18n.ts:1671-1721 | a run sends at most 4n-2k prompts for n pending items in k batches, and none without a provider |
| SyncRun.UnfinishedLeavesFiles | scripts/control-ui-i18n.ts:1722-1766 | an error or an excused refusal of the agent leaves all files alone; only the latter is reported as success, with the fallback count of the meta file |
| SyncRun.FinishedAsPlanned | scripts/control-ui-i18n.ts:1602-1865 | a run that gets as far as the files has a text for all that was pending, keeps the placeholders of every value, reports a change exactly when a file differs, and leaves the planned files exactly then, if it was to write and not only to check, and otherwise the files as they were |
| SyncRun.NothingToAsk | scripts/control-ui-i18n.ts:1671-1743 | without a provider, or with nothing pending, no exchange is used and the run succeeds exactly when the placeholders are kept |
| SyncRun.FailsExactly | scripts/control-ui-i18n.ts:1722-1766 | a run fails exactly when the agent does and that is not excused as an optional login, with its error, or when the values do not keep the placeholders |
| SyncRun.NothingIsInvented | scripts/control-ui-i18n.ts:1671-1721 | every translation a run records was given by the agent for its key in one of the exchanges of this run |
| SyncRun.SecondSyncIsIdle | scripts/control-ui-i18n.ts:1602-1865 | a run on the files that a finished run wrote or found up to date succeeds, asks nothing, changes nothing and reports the same fallback count, whatever its options and the agent |
| SyncTexts.TextOf | scripts/control-ui-i18n.ts:1628-1768 | after every run that gets as far as the files, each source key has at its path in the tree the text of the memory if it is cached and not being refreshed, else that of another string with the same text if it was a fallback or has no text, else its text in the locale file unless that is being refreshed, else what the agent delivered, else the source text |
| SyncTexts.PlannedTextOf | scripts/control-ui-i18n.ts:1628-1768 | the same of the tree that a run plans |
| SyncTexts.PlannedMemory | scripts/control-ui-i18n.ts:1644-1720 | the planned memory is sorted, each cache key once; under the key of a source string stands a copy of the entry that served its text, the new translation, or what was there, and all other keys stay |
| SyncTexts.PlannedMeta | scripts/control-ui-i18n.ts:1768-1815 | the meta file names locale, source hash, workflow and the provider of the last run that had one, and keeps its date exactly when nothing else in it changed |
| SyncTexts.PlannedFallbacks | scripts/control-ui-i18n.ts:1628-1815 | exactly which keys the meta file lists as fallbacks, each once and sorted, by what was cached, served by text and in the locale file |
| SyncTexts.PlannedGlossary | scripts/control-ui-i18n.ts:1768-1815 | a glossary that is there and not empty stays, otherwise the default one is written |
| LocaleSync.LocaleFiles.constructor | scripts/control-ui-i18n.ts:1610-1622 | the files of one locale |
| LocaleSync.LocaleFiles.Write | scripts/control-ui-i18n.ts:1846-1854 | all four files are replaced |
| LocaleSync.ResolveKeys | scripts/control-ui-i18n.ts:1628-1669 | the loop that consults the memory while it grows decides every key as the loaded memory does, and collects the copies, the pending items and the reused fallbacks |
| LocaleSync.ResolvedNext | scripts/control-ui-i18n.ts:1628-1669 | one turn of that loop, by the decision for its key |
| LocaleSync.MemorySoFar | scripts/control-ui-i18n.ts:1631-1652 | the copies made for earlier keys do not change what the memory says about a later one |
| LocaleSync.RecordBatch | scripts/control-ui-i18n.ts:1701-1720 | the texts of a batch become the values of its keys and one new entry each |
| LocaleSync.RecordMore | scripts/control-ui-i18n.ts:1694-1721 | recording batch after batch records the whole list |
| LocaleSync.RequestTranslations | scripts/control-ui-i18n.ts:1672-1721 | the loop delivers what the greedy batches one after the other deliver, or their first error; everything delivered is recorded |
| LocaleSync.RequestBatches | scripts/control-ui-i18n.ts:1694-1721 | the batches are asked for and recorded in turn; the first error ends the delivery and is returned |
| LocaleSync.RequestBatch | scripts/control-ui-i18n.ts:1694-1721 | one turn of that loop |
| LocaleSync.TranslateChecked | scripts/control-ui-i18n.ts:1695-1700 | the next batch takes the delivery to that of one batch more, or its error is the outcome of the whole delivery; a batch that succeeds brings a non-blank text for exactly its keys |
| LocaleSync.Translate | scripts/control-ui-i18n.ts:1671-1743 | the delivery for the pending items; without a provider, or with nothing pending, no prompt is sent and nothing changes |
| LocaleSync.LoadTranslationMemory | scripts/control-ui-i18n.ts:488-507 | the last usable line of a cache key wins; lines without key or text are skipped |
| LocaleSync.BuildTranslationMemoryByTextHash | scripts/control-ui-i18n.ts:519-531 | the last usable entry of the locale wins for each text hash |
| LocaleSync.ReadFiles | scripts/control-ui-i18n.ts:1610-1622 | what a run reads is the specified view of the files |
| LocaleSync.FallBackPending | scripts/control-ui-i18n.ts:1745-1759 | keys without a value take the source text and become fallbacks; the branch that would take an existing text is never entered |
| LocaleSync.PendingHasNoExisting | scripts/control-ui-i18n.ts:1749-1756 | without a provider a pending key has no existing text, which makes that branch unreachable |
| LocaleSync.Unique | scripts/control-ui-i18n.ts:1777 | the same keys, each once |
| LocaleSync.FallbackListsAgree | scripts/control-ui-i18n.ts:1636-1759 | the places that push fallback keys together push exactly the fallback keys |
| LocaleSync.ListFallbacks | scripts/control-ui-i18n.ts:1777-1779 | the sorted list of the fallback keys |
| LocaleSync.AllKeysFinal | scripts/control-ui-i18n.ts:1628-1759 | after both passes every source key has exactly its final value |
| LocaleSync.BuildNestedMap | scripts/control-ui-i18n.ts:1768-1771 | the locale tree is built from the final values in source order |
| LocaleSync.SettleKeys | scripts/control-ui-i18n.ts:1628-1779 | fails exactly as the delivery does; otherwise the values, the tree, the memory and the fallback list are the specified ones |
| LocaleSync.SyncLocale | scripts/control-ui-i18n.ts:1602-1865 | result, delivered texts, files and exchanges used are those of the specified run for every behaviour of the agent: when it fails, with which error, what is written, and that nothing is invented; the prompts counted are those of the exchanges used |
| LocaleSync.WriteBack | scripts/control-ui-i18n.ts:1819-1865 | the reported change is whether a file differs, and the files are replaced exactly when the outcome says they were written |
| ProtoWire.VarintExact | scripts/qa-otel-smoke.ts:266-278 | a varint is read as the number its base-128 digits stand for, the least significant first, also if it is longer than needed |
| ProtoWire.VarintTruncated | scripts/qa-otel-smoke.ts:266-278 | reading fails, with the truncation error, exactly when no byte ends the number |
| ProtoWire.ScanMessage | scripts/qa-otel-smoke.ts:252-318 | the fields of a message together are no larger than it: every tag and every nested message is strictly shorter |
| ProtoWire.ProtoReader.constructor | scripts/qa-otel-smoke.ts:253-255 | a reader starts at the front of its buffer |
| ProtoWire.ProtoReader.Done | scripts/qa-otel-smoke.ts:257-259 | done exactly when nothing is left, also after a skip past the end |
| ProtoWire.ProtoReader.Varint | scripts/qa-otel-smoke.ts:266-278 | the little-endian base-128 number at the cursor, or the truncation error |
| ProtoWire.ProtoReader.Tag | scripts/qa-otel-smoke.ts:261-264 | field number and wire type of the 32 low bits; the cursor moves strictly forward |
| ProtoWire.ProtoReader.Bytes | scripts/qa-otel-smoke.ts:280-289 | the length-delimited bytes, or the truncation error |
| ProtoWire.ProtoReader.Fixed64 | scripts/qa-otel-smoke.ts:295-303 | the eight bytes of a double, or the truncation error |
| ProtoWire.ProtoReader.Skip | scripts/qa-otel-smoke.ts:305-317 | exactly the bytes of an unknown field are skipped, without a bounds check for wire types 1 and 5 |
| ProtoWire.VarintRoundTrip | scripts/qa-otel-smoke.ts:266-278 | reading an encoded number gives it back with the bytes after it |
| ProtoWire.FieldRoundTrip | scripts/qa-otel-smoke.ts:261-317 | reading an encoded field of wire type 0, 1, 2 or 5 gives it back with the bytes after it |
| ProtoWire.TagKeepsLowBits | scripts/qa-otel-smoke.ts:250-253 | a tag is read from the low 32 bits of its number, whatever the bits beyond are |
| ProtoWire.FieldIsLocal | scripts/qa-otel-smoke.ts:261-317 | reading a whole field does not depend on what follows it |
| ProtoWire.ScanConcat | scripts/qa-otel-smoke.ts:320-326 | after a well-formed prefix the fields of a concatenation are those of both parts |
| ProtoWire.MessageRoundTrip | scripts/qa-otel-smoke.ts:252-318 | an encoded list of fields is well-formed and read back field by field |
| OtlpDecoder.DecodersAreFolds | scripts/qa-otel-smoke.ts:320-388 | the mutually recursive value decoders are left folds over the fields of the message |
| OtlpDecoder.DecodeAnyValue | scripts/qa-otel-smoke.ts:320-344 | terminates on every byte string with the fold over its fields, or its first error |
| OtlpDecoder.ReadAnyField | scripts/qa-otel-smoke.ts:323-342 | one turn of the loop handles one field; a later field of another kind does not clear an earlier one |
| OtlpDecoder.DecodeArrayValue | scripts/qa-otel-smoke.ts:346-358 | the decoded elements in order, or the first error |
| OtlpDecoder.DecodeKeyValue | scripts/qa-otel-smoke.ts:360-374 | last key and last value, or the first error |
| OtlpDecoder.DecodeKeyValueList | scripts/qa-otel-smoke.ts:376-388 | the decoded entries in order, or the first error |
| OtlpDecoder.DecodeSpanMessage | scripts/qa-otel-smoke.ts:390-407 | last parent and name, all attributes in order, or the first error |
| OtlpDecoder.DecodeScopeSpansMessage | scripts/qa-otel-smoke.ts:409-421 | the decoded spans in order, or the first error |
| OtlpDecoder.DecodeResourceSpansMessage | scripts/qa-otel-smoke.ts:423-435 | the decoded scopes in order, or the first error |
| OtlpDecoder.DecodeTraceMessage | scripts/qa-otel-smoke.ts:437-447 | the decoded resources in order, or the first error |
| OtlpDecoder.FoldMerges | scripts/qa-otel-smoke.ts:320-447 | decoding onto a value merges into it what decoding alone gives |
| OtlpDecoder.ValuesOfConcatenation | scripts/qa-otel-smoke.ts:320-388 | decoding a concatenation after a well-formed prefix merges both results: later scalars win, elements are appended, and an error in the second part is kept |
| OtlpDecoder.TraceOfConcatenation | scripts/qa-otel-smoke.ts:390-447 | the same for spans, scopes, resources and whole requests |
| OtlpTrace.SpanAttributes | scripts/qa-otel-smoke.ts:240-250 | the loop builds the specified attribute map |
| OtlpTrace.AttributesLastWins | scripts/qa-otel-smoke.ts:240-250 | an attribute is present exactly when some entry has that non-blank trimmed key, and holds the value of the last such entry |
| OtlpTrace.NestedTexts | scripts/qa-otel-smoke.ts:226-233 | an array is reported element by element, a list entry by entry as its key, or nothing, an equals sign and its text |
| OtlpTrace.JoinedTexts | scripts/qa-otel-smoke.ts:226-233 | nested lists are shown as their texts with one comma between each two |
| OtlpTrace.DecodeTraceRequest | scripts/qa-otel-smoke.ts:437-465 | a request gives the captured spans of all scopes of all resources in order, or the first error |
| OtlpTrace.CaptureResourceSpans | scripts/qa-otel-smoke.ts:448-451 | the captured spans of a resource in order |
| OtlpTrace.CaptureScopeSpans | scripts/qa-otel-smoke.ts:451-462 | the captured spans of a scope in order, without those of blank name |
| OtlpRoundTrip.AnyRoundTrip | scripts/qa-otel-smoke.ts:320-344 | encoding a value tree, with unknown fields anywhere, and decoding it gives the last setting of each member |
| OtlpRoundTrip.ArrayRoundTrip | scripts/qa-otel-smoke.ts:346-358 | an encoded array decodes to its elements in order, unknown fields ignored |
| OtlpRoundTrip.ListRoundTrip | scripts/qa-otel-smoke.ts:376-388 | an encoded list decodes to its entries in order, unknown fields ignored |
| OtlpRoundTrip.EntryRoundTrip | scripts/qa-otel-smoke.ts:360-374 | an encoded entry decodes to its last key and last value |
| OtlpRoundTrip.SpanRoundTrip | scripts/qa-otel-smoke.ts:390-407 | an encoded span decodes to its last parent and name and all its attributes |
| OtlpRoundTrip.ScopeRoundTrip | scripts/qa-otel-smoke.ts:409-421 | an encoded scope decodes to its spans in order |
| OtlpRoundTrip.ResourceRoundTrip | scripts/qa-otel-smoke.ts:423-435 | an encoded resource decodes to its scopes in order |
| OtlpRoundTrip.TraceRoundTrip | scripts/qa-otel-smoke.ts:437-447 | an encoded request is well-formed and decodes to its resources in order |
| OtlpRoundTrip.CapturedSpansRoundTrip | scripts/qa-otel-smoke.ts:252-465 | the spans captured from an encoded request are those of its span elements in order, names trimmed and blank ones dropped, whatever unknown fields surround them |
| SpanCapture.CapturedAsSent | scripts/qa-otel-smoke.ts:437-465 | from the bytes of an encoded request, unknown fields anywhere, the captured spans are those whose last name is not blank, in order, each with that name trimmed, parent true exactly when its last parent id is there and not empty, and under each key the value of the last attribute of that name |
| SpanCapture.SpanIsCaptured | scripts/qa-otel-smoke.ts:437-465 | the same of one span |
| SpanCapture.AttributesAreHeld | scripts/qa-otel-smoke.ts:240-250 | under every key the attributes of a span hold the value of the last attribute that was sent under it, and nothing if none was |
| SpanCapture.ValueTags | scripts/qa-otel-smoke.ts:322-389 | the first byte with which each member of a value, and each part of an entry, is encoded and recognized |
| SpanCapture.SpanTags | scripts/qa-otel-smoke.ts:391-465 | the same of the fields of a span and of the messages around it |
| OtlpRoundTrip.SelectedIsLeast | scripts/qa-otel-smoke.ts:210-238 | of several members set in a value, normalization selects the first in the order string, bool, double, int, array, list, bytes |
| OtlpRoundTrip.SelectedDecides | scripts/qa-otel-smoke.ts:210-238 | what normalization reports of a value is its selected member and nothing else |
| OtlpRoundTrip.NormalizationReports | scripts/qa-otel-smoke.ts:210-344 | of all members a value was sent with, the reported value is that of the last one of the kind that comes first in that order |
| OtlpRoundTrip.NormalizationReportsNothing | scripts/qa-otel-smoke.ts:210-344 | a value sent without any known member is reported as empty text |
| OtlpRoundTrip.EncodedValueReports | scripts/qa-otel-smoke.ts:210-344 | the same from the bytes on: encoding, decoding and normalizing reports that member |
| OtlpRoundTrip.LaterIntegerLoses | scripts/qa-otel-smoke.ts:210-344 | a concrete message, a string member followed by an integer, that is reported as the string |
| OtlpRoundTrip.OneofLastWinsExactly | scripts/qa-otel-smoke.ts:210-344 | the value of the last member set is the one reported, as the Protocol Buffers encoding guide (section "Last One Wins") asks, exactly when no earlier member comes before it in that order; otherwise the reported value is that of an earlier member of another kind |
| OtlpSignals.DecodeMetricMessage | scripts/qa-otel-smoke.ts:467-480 | the last name, trimmed, or nothing if it is blank |
| OtlpSignals.DecodeScopeMetricsMessage | scripts/qa-otel-smoke.ts:482-497 | the named metrics of a scope in order, or the first error |
| OtlpSignals.DecodeResourceMetricsMessage | scripts/qa-otel-smoke.ts:499-511 | the metrics of all scopes in order, or the first error |
| OtlpSignals.DecodeMetricRequest | scripts/qa-otel-smoke.ts:513-525 | the metrics of all resources in order, or the first error |
| OtlpSignals.DecodeLogRecord | scripts/qa-otel-smoke.ts:527-539 | the normalized last body, or the first error |
| OtlpSignals.DecodeScopeLogsMessage | scripts/qa-otel-smoke.ts:541-553 | the records of a scope in order, or the first error |
| OtlpSignals.DecodeResourceLogsMessage | scripts/qa-otel-smoke.ts:555-567 | the records of all scopes in order, or the first error |
| OtlpSignals.DecodeLogRequest | scripts/qa-otel-smoke.ts:569-581 | the records of all resources in order, or the first error |
| OtlpSignals.SignalsOfConcatenation | scripts/qa-otel-smoke.ts:482-581 | at every level of metrics and logs, a concatenation after a well-formed prefix decodes to the items of both parts |
| OtlpSignals.NameOfConcatenation | scripts/qa-otel-smoke.ts:467-480 | the later name of a metric wins |
| OtlpSignals.LogOfConcatenation | scripts/qa-otel-smoke.ts:527-539 | the later body of a log record wins exactly when the second part has one |
| Parts.PartsRoundTrip | scripts/qa-otel-smoke.ts:409-581 | a message of parts under one field number, with unknown fields anywhere, decodes to the items of its parts in order |
| SignalRoundTrip.MetricRoundTrip | scripts/qa-otel-smoke.ts:467-480 | an encoded metric decodes to its last name, trimmed, whatever unknown fields surround it |
| SignalRoundTrip.ScopeMetricsRoundTrip | scripts/qa-otel-smoke.ts:482-497 | an encoded scope decodes to the names of its metrics in order |
| SignalRoundTrip.ResourceMetricsRoundTrip | scripts/qa-otel-smoke.ts:499-511 | an encoded resource decodes to the metric names of its scopes in order |
| SignalRoundTrip.MetricsRoundTrip | scripts/qa-otel-smoke.ts:513-525 | an encoded metrics request decodes to all its metric names in order, unknown fields ignored at every level |
| SignalCapture.MetricsAsSent | scripts/qa-otel-smoke.ts:513-525 | from the bytes of an encoded metrics request, unknown fields anywhere, exactly the metrics whose last name is not blank are collected, in order, each by that name trimmed |
| SignalRoundTrip.LogRoundTrip | scripts/qa-otel-smoke.ts:527-539 | an encoded log record decodes to its last body, normalized |
| SignalRoundTrip.ScopeLogsRoundTrip | scripts/qa-otel-smoke.ts:541-553 | an encoded scope decodes to the bodies of its records in order |
| SignalRoundTrip.ResourceLogsRoundTrip | scripts/qa-otel-smoke.ts:555-567 | an encoded resource decodes to the bodies of its scopes in order |
| SignalRoundTrip.LogsRoundTrip | scripts/qa-otel-smoke.ts:569-581 | an encoded logs request decodes to all bodies in order, unknown fields ignored at every level |
| SignalCapture.LogsAsSent | scripts/qa-otel-smoke.ts:569-581 | from the bytes of an encoded logs request, unknown fields anywhere, every record is collected, in order, with what its last body reports, or empty text |
| LogLines.SplitJoins | scripts/bench-gateway-restart.ts:1126 | the parts hold no newline and join back to the text with its line ends normalized |
| LogLines.SplitExact | scripts/bench-gateway-restart.ts:1126 | the split at optional CR and LF is the only list of newline-free lines that joins back to the normalized text |
| LogLines.SplitAcross | scripts/bench-gateway-restart.ts:1125-1131 | splitting a concatenation is the finished lines of the first part and the split of its carry with the second, also between CR and LF |
| LogLines.ChunkContinues | scripts/bench-gateway-restart.ts:1125-1131 | lines so far, new lines and carry are the split of the text so far |
| LogLines.ChunkingIsInvisible | scripts/bench-gateway-restart.ts:1125-1131 | two ways of cutting the same text into chunks give the same lines and carry: one split of the whole text, without a newline in any of them |
| LogLines.OutputLines.constructor | scripts/bench-gateway-restart.ts:1316 | both buffers start empty |
| LogLines.OutputLines.OnLines | scripts/bench-gateway-restart.ts:1421-1423 | the lines of a chunk are handed on in order |
| LogLines.OutputLines.OnChunk | scripts/bench-gateway-restart.ts:1408-1424 | for byte chunks of both streams in any interleaving, the lines and the carry of each stream stay one split of all its chunks as they were decoded |
| LogLines.OutputLines.FlushStream | scripts/bench-gateway-restart.ts:1142-1149 | the carry of one stream becomes the last line, unless it is empty |
| LogLines.OutputLines.Flush | scripts/bench-gateway-restart.ts:1133-1150 | a partial flush completes the lines of both streams; any other flush changes nothing |
| LogLines.CompletedLines | scripts/bench-gateway-restart.ts:1142-1149 | a stream whose carry is handed on has all the lines of its text, without an empty last one |
| LogLines.AllLinesExact | scripts/bench-gateway-restart.ts:1142-1149 | those lines hold no newline and joined give the text back, but for a final line end; an empty text has none |
| Utf8.DecodeCut | scripts/bench-gateway-restart.ts:1415 | decoding two byte strings on their own is decoding their concatenation exactly when the cut goes through no UTF-8 sequence; otherwise there are more characters that are no line ends |
| Utf8.DecodeChunks | scripts/bench-gateway-restart.ts:1415 | the same for any number of cuts |
| Utf8.TextRoundTrip | scripts/bench-gateway-restart.ts:1415 | decoding the UTF-8 bytes of a text gives the text back |
| LogLines.DecodedLinesExactly | scripts/bench-gateway-restart.ts:1408-1424 | the lines and the carry of chunks decoded one by one are those of the decoded whole exactly when no cut goes through a character |
| LogLines.StreamLinesExactly | scripts/bench-gateway-restart.ts:1408-1424 | what is handed on of a stream is the split of all the bytes it wrote exactly when its chunks were cleanly cut |
| LogLines.TornLetter | scripts/bench-gateway-restart.ts:1415 | a concrete cut, through the two bytes of one letter, that gives two replacement characters |
| RestartProbe.RecordAttempt | scripts/bench-gateway-restart.ts:666-691 | one attempt extends the first failure, first error, transitions and last success to the longer trace |
| RestartProbe.AfterAttempt | scripts/bench-gateway-restart.ts:686-703 | the loop returns after an attempt exactly when a success follows a failure |
| RestartProbe.StopsWaiting | scripts/bench-gateway-restart.ts:648-662 | the process being gone, the deadline, or a restart known to be over without a failure ends the trace with the specified report |
| RestartProbe.WaitForRestartProbe | scripts/bench-gateway-restart.ts:630-715 | the result reports on exactly the attempts up to the first reason to stop: first failure, first error, times, status and changes of state |
| RestartProbe.RecoveryIsFirst | scripts/bench-gateway-restart.ts:686-703 | a recovery is the first success after the first failure, with only failures between them; the downtime is the difference of the two times |
| RestartProbe.DowntimeIsNotNegative | scripts/bench-gateway-restart.ts:695 | with times in order the downtime is not negative |
| RestartProbe.SteadyMeansAllUp | scripts/bench-gateway-restart.ts:652-714 | a time without an outage is reported exactly when there was an attempt and all succeeded; it is the time of the last one |
| RestartProbe.ReportIsUnique | scripts/bench-gateway-restart.ts:630-715 | a trace has only one result; the transitions are the run-length compression of the trace |
| RestartProbe.ChangesAreUnique | scripts/bench-gateway-restart.ts:667-682 | the places where the state changes, in order, are determined by the trace |
| RestartProbe.AttemptCountIsUnique | scripts/bench-gateway-restart.ts:648-705 | a trace has only one number of attempts |
| RestartProbe.AttemptsEnd | scripts/bench-gateway-restart.ts:630-715 | the attempts end at the first turn at which the process is gone, the last attempt was the first good one after a bad one, or the restart is known to be over and all attempts were good |
| RestartProbe.FirstDownSays | scripts/bench-gateway-restart.ts:630-715 | the time of an outage is that of the first attempt without status 200, and missing exactly when there is none |
| RestartProbe.FirstErrorSays | scripts/bench-gateway-restart.ts:630-715 | the error kind reported is the first that is not empty, and missing exactly when there is none |
| RestartProbe.TimesSay | scripts/bench-gateway-restart.ts:630-715 | status, recovery, downtime and time of the result, by the last attempt and whether there was an outage |
| RestartProbe.TransitionsCompress | scripts/bench-gateway-restart.ts:630-715 | the attempts are cut into runs of equal status and error kind, a missing kind reading as ok; each transition has the time, status and error kind of the first of its run |
| ProcessTree.IndexRows | scripts/bench-gateway-restart.ts:1007-1024 | the index holds every listed child under its parent, and for each pid the CPU time of its last row |
| ProcessTree.IndexRow | scripts/bench-gateway-restart.ts:1020-1023 | one row extends the index |
| ProcessTree.DescentIsListed | scripts/bench-gateway-restart.ts:1020-1023 | one process descends from another by one step exactly when a row lists it under that parent and its pid is not 0 |
| ProcessTree.LastRowCounts | scripts/bench-gateway-restart.ts:1020-1023 | a pid has a CPU time exactly when it is listed, that of its last row |
| ProcessTree.TotalCpuRemove | scripts/bench-gateway-restart.ts:1037-1038 | the sum over a set counts each of its pids once, in any order |
| ProcessTree.TurnKeepsSearch | scripts/bench-gateway-restart.ts:1032-1042 | one turn of the worklist keeps the search sound and closed over seen and waiting pids, and adds each new pid once to the sum |
| ProcessTree.SearchIsDone | scripts/bench-gateway-restart.ts:1032-1043 | with an empty worklist the seen pids are exactly the reachable ones |
| ProcessTree.SumTree | scripts/bench-gateway-restart.ts:1029-1043 | the worklist terminates, on cycles and duplicate rows too, with the sum over exactly the non-zero pids reachable from the root |
| ProcessTree.ReadProcessTreeCpuMs | scripts/bench-gateway-restart.ts:995-1043 | nothing for a missing root pid or listing or a root that is not listed, else the sum over its tree |
| ArgumentScanner.QuoteScanState.constructor | scripts/check-temp-path-guardrails.ts:74 | scanning starts outside quotes |
| ArgumentScanner.QuoteScanState.BeginQuotedSection | scripts/check-temp-path-guardrails.ts:46-52 | exactly the three quote characters begin a quoted section, in any state |
| ArgumentScanner.QuoteScanState.ConsumeQuotedChar | scripts/check-temp-path-guardrails.ts:54-70 | a character is consumed exactly inside quotes; an escape shields the next one |
| ArgumentScanner.FindMatchingParen | scripts/check-temp-path-guardrails.ts:72-95 | the result closes the parenthesis: the text between is balanced and outside quotes at its end; -1 only if no position closes it |
| ArgumentScanner.ClosingExact | scripts/check-temp-path-guardrails.ts:72-95 | a position closes the given depth exactly when it holds ) and the text before it is balanced to that depth |
| ArgumentScanner.PartnerIsUnique | scripts/check-temp-path-guardrails.ts:72-95 | a parenthesis has at most one partner |
| ArgumentScanner.TrackChar | scripts/check-temp-path-guardrails.ts:106-150 | one character moves quotes and depths as specified, with depths clamped at zero |
| ArgumentScanner.SplitTopLevelArguments | scripts/check-temp-path-guardrails.ts:97-162 | the text cut at its top-level commas, each part trimmed, without a blank last part |
| ArgumentScanner.PiecesConcat | scripts/check-temp-path-guardrails.ts:97-162 | the pieces of a concatenation glue together at the seam |
| ArgumentScanner.PiecesOfJoin | scripts/check-temp-path-guardrails.ts:97-162 | cutting comma-joined texts gives them back exactly when none of them has a top-level comma and all but the last leave quotes and brackets closed |
| ArgumentScanner.SplitInvertsPrinting | scripts/check-temp-path-guardrails.ts:97-162 | splitting the comma-join of arguments gives them back exactly when they are trimmed, separable and the last is not empty |
| ArgumentScanner.BalancedNeverClamps | scripts/check-temp-path-guardrails.ts:120-126 | on balanced text the parenthesis depth never falls below zero and ends at zero outside quotes |
| ArgumentScanner.CutTextNeverClamps | scripts/check-temp-path-guardrails.ts:72-122 | on text cut out by the matching parenthesis the clamp of the splitter never fires |
| ArgumentScanner.CallArgumentsAreFound | scripts/check-temp-path-guardrails.ts:72-162 | for a printed call the matching parenthesis is found and the text between splits into its arguments |
| ArgumentGrammar.ClosedIsClosed | scripts/check-temp-path-guardrails.ts:78-146 | text of a grammar of its own, of characters, quoted sections with escapes and nested pairs of brackets, leaves the scanner where it was, and has a cutting comma exactly if one stands outside all quotes and brackets |
| ArgumentGrammar.InnerCommasNeverCut | scripts/check-temp-path-guardrails.ts:78-146 | such text is one piece exactly when it has no comma outside quotes and brackets |
| ArgumentGrammar.ClosedArgumentsAreSplit | scripts/check-temp-path-guardrails.ts:112-162 | the comma-join of such arguments splits into those arguments, each trimmed, a last empty one dropped |
| ArgumentGrammar.ClosedIsBalanced | scripts/check-temp-path-guardrails.ts:46-76 | such text closes every parenthesis that it opens, and no other |
| ArgumentGrammar.ClosedCallIsRead | scripts/check-temp-path-guardrails.ts:46-162 | for a call with such arguments the parenthesis that closes it is found, and the text between splits into them |
| ArgumentGrammar.StrayClosersAreIgnored | scripts/check-temp-path-guardrails.ts:112-162 | a closing bracket that nothing opened is an ordinary character |
| ReaderPool.StepKeepsInv | scripts/check-temp-path-guardrails.ts:230-255 | every step of any worker keeps: each index claimed at most once, and each output slot the file of its own path |
| ReaderPool.StepMakesProgress | scripts/check-temp-path-guardrails.ts:230-255 | every step lowers the number of steps left |
| ReaderPool.FinishedIsInOrder | scripts/check-temp-path-guardrails.ts:257-262 | once all workers stopped, the defined outputs are the readable files in order and every non-empty path was read |
| ReaderPool.FileStandsAt | scripts/check-temp-path-guardrails.ts:257-262 | in the list of readable files each stands where the number of readable ones before it says, under its path relative to the repository and with what was read, and there are no others |
| ReaderPool.RunSchedule | scripts/check-temp-path-guardrails.ts:223-262 | every schedule of enabled workers ends in a state with the invariant |
| ReaderPool.SchedulesAreShort | scripts/check-temp-path-guardrails.ts:230-262 | a schedule has at most three steps per path and one per worker |
| ReaderPool.EveryScheduleReadsInOrder | scripts/check-temp-path-guardrails.ts:223-262 | under every interleaving no index is read twice, the pool stops, and the result is the in-order list of readable files |
| ReaderPool.WorkerPool.constructor | scripts/check-temp-path-guardrails.ts:227-260 | empty slots, the first index, and as many workers as the limit and the paths allow |
| ReaderPool.WorkerPool.Resume | scripts/check-temp-path-guardrails.ts:230-255 | resuming a worker is one step: claim, skip, store or stop |
| ReaderPool.ReadRuntimeSourceFiles | scripts/check-temp-path-guardrails.ts:223-262 | with any scheduling the result is the in-order list of readable files |
| Reachability.ClosedIsReachable | scripts/openclaw-npm-postpublish-verify.ts:262-315 | a set that holds the start, is closed under the edges and holds only reachable nodes is the reachable set |
| Reachability.PathStaysInside | scripts/openclaw-npm-postpublish-verify.ts:262-315 | a path that starts in a closed set ends in it |
| ImportClosure.ResolveInstalledDistRelativeImport | scripts/openclaw-npm-postpublish-verify.ts:226-260 | the first existing candidate inside dist, for relative specifiers only; a result is inside dist |
| ImportClosure.ZodSpecifiers | scripts/openclaw-npm-postpublish-verify.ts:226-315 | zod and its subpaths, and nothing else, count as zod; five specifiers that look alike do not |
| ImportClosure.InsideDist | scripts/openclaw-npm-postpublish-verify.ts:226-315 | a path is inside dist exactly when its relative path is not empty, not absolute and does not begin with two dots |
| ImportClosure.ResolvesInOrder | scripts/openclaw-npm-postpublish-verify.ts:226-315 | of the seven candidates of an import, as it stands, with three endings, and three index files, the first that exists inside dist is taken |
| ImportClosure.CollectImports | scripts/openclaw-npm-postpublish-verify.ts:296-311 | either the first zod specifier of a file is found, with all before it none, or all resolvable imports are pushed |
| ImportClosure.VisitFile | scripts/openclaw-npm-postpublish-verify.ts:262-315 | visiting a clean file keeps the search sound and closed |
| ImportClosure.SearchIsDone | scripts/openclaw-npm-postpublish-verify.ts:262-315 | with an empty worklist the visited files are exactly the reachable ones |
| ImportClosure.CollectInstalledPluginSdkZodArtifactErrors | scripts/openclaw-npm-postpublish-verify.ts:262-315 | no error exactly when every file reachable from the entry exists, is a regular file within the size cap, parses and imports no zod; an error names a real fault; every file reached by an import lies inside dist |
| LabelBatches.Receive | scripts/label-open-issues.ts:456-467 | one node goes into the open batch, which is yielded at 500 items |
| LabelBatches.ReceivePage | scripts/label-open-issues.ts:452-468 | the nodes of a page are taken in order until the limit |
| LabelBatches.YieldRest | scripts/label-open-issues.ts:478-485 | the rest becomes a last, shorter batch |
| LabelBatches.FetchPages | scripts/label-open-issues.ts:436-476 | pages are taken until one promises no other, the limit is reached or the query throws; it throws exactly when every page served promised another and the limit was not reached |
| LabelBatches.FetchOpenLabelItemBatches | scripts/label-open-issues.ts:426-486 | for every chain of pages and every limit the batches are the runs of 500 of the first items up to the limit, numbered from 1, with running totals; if the query gives out, exactly the whole batches so far were yielded |
| LabelBatches.BatchingIsUnique | scripts/label-open-issues.ts:426-486 | a list of items has only one division into numbered batches |
| LabelBatches.BatchIsSlice | scripts/label-open-issues.ts:426-486 | batch i is the i-th run of 500 items, whatever the pages were; only the last may be shorter, and none is empty |
| LabelBatches.ChainEndsAt | scripts/label-open-issues.ts:470-475 | the pages followed are those up to the first that promises no other |
| LabelBatches.NodesAt | scripts/label-open-issues.ts:470-475 | each node of each page has its place in the list of items, after all nodes of the pages before, and there are no others |
| LabelCheckpoints.AscendingFacts | scripts/label-open-issues.ts:304-310 | a checkpoint list is strictly ascending and holds exactly the numbers |
| LabelCheckpoints.SnapshotRoundTrip | scripts/label-open-issues.ts:268-310 | a checkpoint lists exactly what was done, each kind in its place, and loading it gives that back |
| LabelCheckpoints.PendingFacts | scripts/label-open-issues.ts:738-739 | the pending items are those not done, and with the done ones make up the batch |
| LabelCheckpoints.LabelRun.constructor | scripts/label-open-issues.ts:707-722 | a run starts from what the file holds; a missing or unreadable file means nothing is done |
| LabelCheckpoints.LabelRun.ProcessItem | scripts/label-open-issues.ts:746-784 | an item goes through exactly when it is answered or is a pull request with the skill label; it is then done, otherwise the state stays; all but those pull requests are asked about |
| LabelCheckpoints.LabelRun.ProcessNext | scripts/label-open-issues.ts:746-784 | the next pending item is done exactly when it goes through, and leaves the state alone otherwise |
| LabelCheckpoints.LabelRun.ProcessPending | scripts/label-open-issues.ts:746-784 | every item before the first that throws goes through and is done; an item throws exactly when it needs classifying and is not answered; with none such, all are done |
| LabelCheckpoints.LabelRun.ProcessBatch | scripts/label-open-issues.ts:733-790 | a batch ends at its first pending item that throws, or well; a completed batch is saved exactly when something was pending and this is no dry run; a crash saves nothing; processed and skipped make up the batch |
| LabelCheckpoints.LabelRun.NextBatch | scripts/label-open-issues.ts:733-790 | after each completed batch the file holds exactly what is done; otherwise the phase ends at the item of this batch that throws |
| LabelCheckpoints.LabelRun.ProcessBatches | scripts/label-open-issues.ts:733-862 | a phase ends well exactly when every item that needs classifying is answered, and otherwise in the first batch with one that is not; the file holds exactly the batches before; scanned is processed plus skipped is the number of items |
| LabelCheckpoints.LabelRun.RunPhase | scripts/label-open-issues.ts:724-862 | a phase goes well exactly when no page query gives out and every item that needs classifying is answered; what was fetched before is worked through; what it asks is determined by pages and answers |
| LabelCheckpoints.PhaseEndsWhereItThrows | scripts/label-open-issues.ts:733-862 | the number of completed batches and whether the phase ends well are determined by the items and the answers alone |
| LabelCheckpoints.RequestsAreNew | scripts/label-open-issues.ts:738 | a phase asks only about fetched numbers that were not done before it |
| LabelCheckpoints.CrashRepeatsOneBatch | scripts/label-open-issues.ts:733-862 | a phase, crashed or not, and one from what its completed batches left done, whatever it fetches, both classify only numbers of the one batch that was under way, at most 500, and none if none was |
| LabelCheckpoints.AskedAbout | scripts/label-open-issues.ts:733-862 | a phase asks only about numbers that were not done before and are in its completed batches or in the one that throws |
| LabelCheckpoints.AuditsRepeatOneBatch | scripts/label-open-issues.ts:680-862 | a whole run, however it ends, and a later one from the file it left: what both ask is of one kind and within one batch, at most 500 numbers; after a run in which nothing threw, nothing is asked again |
| LabelCheckpoints.DoneAsksNothing | scripts/label-open-issues.ts:738 | a phase whose items are all done asks nothing and changes nothing |
| LabelCheckpoints.AuditLabels | scripts/label-open-issues.ts:680-862 | the run succeeds exactly when no page query gives out and every item that needs classifying is answered; what it asks and the file it leaves, crash or not, are exactly the specified ones; a dry run leaves the file alone; no run takes anything out of it |
| LabelWork.AuditIsOneList | scripts/label-open-issues.ts:733-862 | a run asks what working through the list of all issues not yet done asks, one by one to the first that is not answered, and, if it gets through and no query throws, the list of pull requests |
| LabelWork.PhaseIsOneList | scripts/label-open-issues.ts:733-862 | the same of one phase, whatever its batches are |
| LabelWork.SkillPullRequestsAreNotAsked | scripts/label-open-issues.ts:827-832 | no run asks about a pull request with the skill label, whatever the answers are |
| LabelWork.ReachedIssuesAreAskedOnce | scripts/label-open-issues.ts:733-790 | every issue that is reached is asked about exactly once, whatever its labels |
| LabelWork.ReachedPullRequestsAreAskedOnce | scripts/label-open-issues.ts:812-862 | every pull request that is reached and lacks the skill label is asked about exactly once |
| LabelWork.UnansweredIsLast | scripts/label-open-issues.ts:733-862 | nothing is asked about after an item that is asked about and not answered |
| LabelWork.AllFetchedAreDone | scripts/label-open-issues.ts:733-862 | after a run in which nothing throws the file holds every number fetched, under its kind, and what it held before |
| CommandSettlement.CommandRun.constructor | scripts/openclaw-cross-os-release-checks.ts:3559-3637 | nothing settled; the timeout and heartbeat timers set as configured |
| CommandSettlement.CommandRun.ClearTimers | scripts/openclaw-cross-os-release-checks.ts:3568-3578 | no timer is set any more |
| CommandSettlement.CommandRun.Settle | scripts/openclaw-cross-os-release-checks.ts:3580-3588 | the first settlement is kept and clears the timers; later ones change nothing |
| CommandSettlement.CommandRun.OnData | scripts/openclaw-cross-os-release-checks.ts:3639-3648 | output is appended to its own stream |
| CommandSettlement.CommandRun.OnError | scripts/openclaw-cross-os-release-checks.ts:3650-3652 | a process error rejects unless settled |
| CommandSettlement.CommandRun.OnClose | scripts/openclaw-cross-os-release-checks.ts:3654-3676 | a close rejects after a timeout, or with check for a failing exit code, else resolves with the output |
| CommandSettlement.CommandRun.OnTimeout | scripts/openclaw-cross-os-release-checks.ts:3609-3625 | a timeout asks the child to stop and then sets the kill-wait timer |
| CommandSettlement.CommandRun.OnKillWait | scripts/openclaw-cross-os-release-checks.ts:3615-3623 | the kill-wait timer rejects unless settled |
| CommandSettlement.StepKeepsInv | scripts/openclaw-cross-os-release-checks.ts:3561-3677 | every event keeps: settled means no timeout or heartbeat timer, timed out and unsettled means the kill-wait timer is set, resolved means in time and, with check, exit code 0 |
| CommandSettlement.RunKeepsInv | scripts/openclaw-cross-os-release-checks.ts:3561-3677 | every state of every run has the invariant |
| CommandSettlement.SettlementIsFinal | scripts/openclaw-cross-os-release-checks.ts:3580-3588 | over every run the settlement, once made, never changes |
| CommandSettlement.ResolvesOnlyInTime | scripts/openclaw-cross-os-release-checks.ts:3654-3676 | the command never resolves once the timeout has fired, nor, with check, for a failing exit code |
| CommandSettlement.TimersAloneSettle | scripts/openclaw-cross-os-release-checks.ts:3609-3625 | a child that never closes still settles through the two timers alone |
| CommandSettlement.TimerOutlivesSettlementExactly | scripts/openclaw-cross-os-release-checks.ts:3580-3625 | a settled command leaves a timer set exactly when asking the child to stop failed on the spot and the kill-wait timer has not fired yet |
| CommandSettlement.FailedKillLeavesATimer | scripts/openclaw-cross-os-release-checks.ts:3612-3623 | an error of the kill itself settles the command before the kill-wait timer is set: a concrete run that leaves a timer behind |
| CommandSettlement.OutputIsWritten | scripts/openclaw-cross-os-release-checks.ts:3639-3648 | the collected output is everything each stream wrote |
| CommandSettlement.ResultIsWhatTheCloseSaw | scripts/openclaw-cross-os-release-checks.ts:3654-3676 | a result is the exit code of the close that settled it, with all output up to that close |
| CommandSettlement.FirstEventDecides | scripts/openclaw-cross-os-release-checks.ts:3654-3676 | in every run, the first event that can settles for good: an error of the child or of asking it to stop rejects with that error, the end of the kill wait as not terminated, a close as timed out if the timeout had fired, else with the output so far as failed, with check and a failing exit code, or as resolved |
| SchemaRegistry.SignatureExact | scripts/protocol-gen-swift.ts:112-129 | two schemas have the same signature exactly when they are equal up to the order of object keys at every depth |
| SchemaRegistry.SameOnceStable | scripts/protocol-gen-swift.ts:112-125 | equal canonical forms come only from schemas that are the same up to key order |
| SchemaRegistry.StableOnceSame | scripts/protocol-gen-swift.ts:112-125 | schemas that are the same up to key order have equal canonical forms |
| SchemaRegistry.StableKeepsMeaning | scripts/protocol-gen-swift.ts:112-125 | the canonical form is the schema itself up to key order, with its keys sorted |
| SchemaRegistry.StableIsIdempotent | scripts/protocol-gen-swift.ts:112-125 | a canonical form is its own canonical form |
| SchemaRegistry.Registry.constructor | scripts/protocol-gen-swift.ts:108-110 | an empty registry |
| SchemaRegistry.Registry.RegisterNamedSchema | scripts/protocol-gen-swift.ts:131-143 | after every sequence of registrations a signature is indexed exactly when one registration had it, is a duplicate exactly when more had it, and an object has its last name |
| SchemaRegistry.LastNameIsLast | scripts/protocol-gen-swift.ts:131-143 | an object has the name of its last registration, and none if it has no registration |
| SchemaRegistry.Registry.NamedSchema | scripts/protocol-gen-swift.ts:145-150 | the name of the object itself, else, if allowed, the name of the one registered schema with its signature |
| SchemaRegistry.RegisteredIndexes | scripts/protocol-gen-swift.ts:131-143 | one more registration keeps the index exact, a third or later duplicate included |
| SchemaRegistry.IndexIgnoresOrder | scripts/protocol-gen-swift.ts:131-143 | any order of the same registrations gives the same index and duplicates |
| SchemaRegistry.OnlyOneName | scripts/protocol-gen-swift.ts:138-142 | a signature registered once has one name |
| SchemaRegistry.CountIsCountSame | scripts/protocol-gen-swift.ts:131-150 | counting signatures is counting schemas equal up to key order |
| JsText.TrimFacts | scripts/check-temp-path-guardrails.ts:151-160 | trimming is idempotent, never lengthens, keeps the length only if it changes nothing, and leaves nothing exactly of blank text |
| JsText.SpaceTable | scripts/check-temp-path-guardrails.ts:151-160 | exactly the 25 characters that ECMAScript lists as white space and line ends, sections 12.2 and 12.3, are trimmed |
| OrderedMap.GetPutAll | scripts/control-ui-i18n.ts:1644-1721 | after a list of updates with distinct keys a key has its update, or its old value |
| OrderedMap.PutAllMembers | scripts/control-ui-i18n.ts:1644-1721 | updates add no entries but their own and keep keys distinct |
| Sorting.SortFacts | scripts/control-ui-i18n.ts:1777-1779 | sorting gives a sorted permutation |
| Sorting.SortCanonical | scripts/control-ui-i18n.ts:509-512 | lists with the same elements under distinct keys have one sorted form |

## Left out

- TranslationTree.SetNestedLookup: the walk of `setNestedValue` is a function on values; that the source moves a cursor through shared objects is not captured.
- BatchTranslation.TranslateBatch: retry delays and progress output are not modelled.
- RpcClient.PiRpcClient.Prompt: the promise chain that queues prompts is not modelled; the driver awaits each prompt, which the system of steps states. Timers and process events may come at any time, which covers more orders than the real ones.
- SyncLaws.SyncIsFixpoint: assumes that the hashes of different texts and cache keys differ, and compares files by their parsed content; the formatter, JSON and TypeScript rendering are taken to give the content back.
- Sorting.SortFacts: sorts by code units where the sync uses `localeCompare`; both are total orders on the keys that occur.
- Sorting.SortCanonical: speaks of the same code-unit order.
- OrderedMap.GetPutAll: maps keep insertion order for every key; the ascending order of integer-like keys and the special key `__proto__` of JavaScript objects are not modelled.
- ProtoWire.ProtoReader.Varint: numbers are exact; the rounding of JavaScript numbers from 2^53 on is not modelled, and encodable fields are below that limit.
- OtlpTrace.SpanAttributes: text decoding and the printing of numbers are parameters of the platform.
- LogLines.OutputLines.OnChunk: what is done with a line is left to the caller. A character is a code point where JavaScript strings hold one or two units; no line end is affected.
- RestartProbe.WaitForRestartProbe: the copy of each transition in the shared event list is not modelled; times are exact real numbers.
- ProcessTree.ReadProcessTreeCpuMs: parsing the listing into rows is not modelled; on Windows the listing is absent.
- ArgumentScanner.SplitTopLevelArguments: comment stripping and the regular expressions around the scanner are not modelled; expressions nested in template literals are plain quoted text, as in the source.
- ReaderPool.ReadRuntimeSourceFiles: reading a file is a parameter that gives its text or fails.
- ImportClosure.CollectInstalledPluginSdkZodArtifactErrors: path arithmetic, file attributes and the specifiers of a parsed file are parameters of the package.
- LabelBatches.FetchOpenLabelItemBatches: the generator is run to its end before its batches are used; `totalCount`, title and body of items, which are only printed or sent on, are not modelled.
- LabelCheckpoints.LabelRun.ProcessItem: which labels are added, and that labelling may have taken effect before it throws, is not modelled.
- CommandSettlement.CommandRun.OnTimeout: the log file, the console and the separate kill process of Windows are not modelled; an error of that process is an ordinary error event.
- SchemaRegistry.Registry.RegisterNamedSchema: a signature is the canonical value itself; `JSON.stringify` is taken to write different values differently.
- Starting processes, HTTP, GitHub and model requests, command-line parsing, help texts and console output.
- Provider selection, authentication and environment variables of the locale sync, and its scan for raw copy in sources.
- The parser behind the import specifiers, and the manifest check of root dependencies in the published package verification.
- `waitForChildExit`, a one-shot of the same shape as the command runner; summary statistics and the outer restart loop of the benchmark.
- `scripts/bench-gateway-startup.ts`, which repeats the process tree and the probe of the restart benchmark.
- The Swift source text that the schema generator writes.
