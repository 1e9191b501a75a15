# Verified models of the build and release tooling

This project models the parts of the repository's `scripts/` directory that hold
real state, interleaving or arithmetic, and proves what they are for:

* the **locale sync engine** of `scripts/control-ui-i18n.ts`: the greedy packer of
  prompts, the RPC client of one `pi` process, the conversation over many such
  clients, the retry-and-split recursion, the flattening and rebuilding of
  translation maps, and a whole run of `syncLocale`. The central results are that
  every text a run stores was given by a peer for that very key, and that syncing is
  a fixpoint;
* the **call scanner** and the **worker pool** of `scripts/check-temp-path-guardrails.ts`;
* the **process-tree walk** of `scripts/bench-gateway-startup.ts`;
* the **schema registry** of `scripts/protocol-gen-swift.ts`;
* the **command supervisor** of `scripts/openclaw-cross-os-release-checks.ts`;
* the **appcast check** of `scripts/release-check.ts` with the version arithmetic of
  `scripts/sparkle-build.ts`;
* the **block replacement** of `scripts/sync-moonshot-docs.ts`, the **literal repair**
  of `scripts/control-ui-i18n.ts` and the **paging** of `scripts/label-open-issues.ts`.

One module models one component. Code that works by changing things is an
imperative method or a class, proved equal to a function of its inputs or of its
old state; what the script promises is then proved about that function, about
every possible history of events, or about every schedule. `Options`, `Sequences`,
`Sorting` and `Text` hold the few operations of the scripts' language that the
modules share.

What comes from outside enters as a parameter: why a process could not be started
and which events reach each client, before and while it is prompted (a `World`), the
events of a supervised child and the times at which they happen, the order in which
workers are resumed, the pages of a listing, the text of files, the hash function
and the collation order. All theorems hold for every value of these.

`dafny verify dfyconfig.toml` checks the project.

## How the sync theorems fit together

`LocaleSync.SyncLocale` is the script. Its contract is an equation: outcome, files and
conversation after a run are what the function `RunOf` makes of the world, the
conversation so far and the files. `RunOf` joins two halves.

The conversation half is `TranslationSession` and `BatchTranslation`. A session holds
the history of every client and the log of every attempt, and each attempt names the
client and the ticket of its prompt. A session is traceable when the reply of every
attempt is the settlement under its own ticket, the message under that ticket is the
prompt for the attempt's items, no two attempts share a prompt, and every client was
asked again only after successes. Every attempt keeps sessions traceable
(`TryIsTraceable`), so does a whole batch (`BatchRan`), and in a traceable session the
protocol theorem `RpcClient.AnswersReachTheirPrompt` applies to every client. With it
`LocaleRun.WrittenTextsAreThePeers` says whose texts end up in the locale file.

The file half is the function `Sync` of the answers. `LocaleSyncFixpoint` proves that
every key is resolved, that the files then hold that resolution, and that any later
run finds nothing to do exactly under the condition of `LaterRunIsCleanIff`. Of the
collation the theorems ask only that it is a total preorder: `localeCompare` finds
different strings equal when they are canonically equivalent. For the run's own
settings the condition then says that recorded fallback keys that collate equal are
in source order (`SyncIsAFixpointIff`), which always holds with a provider and
otherwise when the collation tells the source keys apart (`SyncIsAFixpoint`). It all
rests on `TranslationTree`: reading a written locale file gives back the entries that
were written exactly when no key lies below another and none starts with a dot
(`FlattenUndoesRebuildIff`), and the keys of a source map with plain property names
are like that (`WellFormedIsAddressable`).

`SegmentIdentity` says what keeps the memory from mixing up texts: text hashes agree
exactly for the same words (`SameHashIff`), cache keys exactly for the same settings,
key and text (`CacheKeysAgreeIff`), and so every value of a run was recorded for the
same words, stood in the locale file, was answered for its key or is the source text
(`EveryValueHasAnOrigin`). `LocaleRecords` tells what each of the four files says
afterwards. `BatchCoverage` and `ClientLifetimes` follow the conversation: the good
attempts bring each item exactly once and in order, and every client is closed.

`LocaleRun` puts the halves together: `RunSucceedsIff` says when a run succeeds,
`RunIsFrugal` what it costs, and `SecondRunIsClean` that the second run succeeds,
asks nothing and changes nothing; `SyncTwice` is the two runs as code.
`FilesChangeIff` and `ChangedIffWritingWould` say when a run writes and what a check
reports.

## What the code does beyond its promises

* `ForceChangesNothing`: the `--force` branch of the fallback loop
  (`scripts/control-ui-i18n.ts:1559`) is never decisive, because a pending key that is
  still without a value has no existing value either.
* `SettlesAtOnceIff`: without a provider, a second run changes nothing, whatever files the
  first started from, exactly when the collation tells the source keys apart. Otherwise
  two keys that collate equal can be recorded in one order by the first run and in the
  other by the second. `SecondRunSettles`: a third run changes nothing in any case.
* `BarsCanCollide`: a cache key is the hash of its parts with bars between them, so a bar
  in the name of a provider or model can make different settings share their entries.
  Without one they never do (`CacheKeysAgreeIff`); keys may hold bars.
* `NextPromptIsUnsafeIff`: as `agent_end` carries no request id, the next prompt on a
  client can be given another prompt's answer exactly when the peer still owes one, as it
  does after a refusal. `TranslationSession.ClientOwesNothing`: the script never asks
  such a client, because it drops every client that has failed.
* `ClosedProcessCountsIff`: a process that closes is taken for a prompt that timed out,
  so that its batch is split instead of tried again, exactly when its error output says
  that something timed out.
* `TimersOutliveForTimeouts` and `TimerOutlivesIff`: the kill is requested before the
  15-second wait after it is armed, and a kill that fails settles the command at once.
  So a timer stays armed after the settlement in some run exactly when a timeout is set;
  in a given run, exactly when the kill failed and the wait has not run out. It
  changes nothing when it fires.
* `LateWritesAreForTimeouts`: output of a well-behaved child is written to a log stream
  that has been ended in some run exactly when a timeout is set, because a child that
  outlives the kill can still print.
* `DayCanMixIff`: an accepted feed can hold an old-style build and a lane build of the same
  day exactly when that day is before the year 1000.
* `EmptyStartMarkerGrows`: with an empty start marker, replacing a block again is like
  replacing it once exactly when the document starts with a newline and the first lines
  do not contain the end marker.

## Model

| member | source | states |
|---|---|---|
| TranslationBatches.BuildTranslationBatches | scripts/control-ui-i18n.ts:1085-1109 | the batches concatenate to the pending items in order, none is empty, none has more than 20 items, in each of two or more the keys and texts put together, with 10 characters per item and 2, stay within the budget, and no other partition within these limits has fewer batches |
| TranslationBatches.PackIsOptimal | scripts/control-ui-i18n.ts:1085-1109 | the same of the function that the sync theorems use for the packing |
| TranslationBatches.SaturatedStaysAhead | scripts/control-ui-i18n.ts:1092-1100 | a packing in which no batch could take the first item of the next never needs more batches than any packing of the same items with more in front |
| TranslationBatches.NoPartitionIsShorter | scripts/control-ui-i18n.ts:1085-1109 | such a packing is a shortest one |
| TranslationBatches.RunningCount | scripts/control-ui-i18n.ts:897-899 | the running count, kept per item, overflows exactly when the batch with the next item would exceed the limits, told by its keys and texts |
| TranslationBatches.EstimateIsSize | scripts/control-ui-i18n.ts:897-899 | the estimate of a batch is the length of its keys and of its texts, put together, with 8 characters per item and 2 |
| TranslationBatches.FitsPiece | scripts/control-ui-i18n.ts:897-899 | every contiguous piece of a batch within the limits is within them too |
| RpcClient.AlwaysInv | scripts/control-ui-i18n.ts:1111-1319 | the protocol invariant holds after every possible history of calls, answers, timers, write reports, process events and closes |
| RpcClient.SingleSlotInOrder | scripts/control-ui-i18n.ts:1240-1305 | at most one request is pending, it is the oldest unsettled one, requests settle in the order of the calls, and the only live timer and heartbeat are its own |
| RpcClient.SettlementsStand | scripts/control-ui-i18n.ts:1274-1299 | no later event changes or repeats a settlement |
| RpcClient.NothingStartsAfterClose | scripts/control-ui-i18n.ts:1242-1244 | once the client is closed no request is written or becomes pending |
| RpcClient.LateEventsAreHarmless | scripts/control-ui-i18n.ts:1260-1299 | a response, write report or timer of a request that is no longer pending changes nothing |
| RpcClient.TimersDrainTheQueue | scripts/control-ui-i18n.ts:1260-1272 | from every history the timeouts alone can settle every submitted request |
| RpcClient.AnswersReachTheirPrompt | scripts/control-ui-i18n.ts:1227-1236 | when a client is only asked again after successes and the peer ends its turns in order, every prompt that succeeds gets the answer given to that very prompt: the k-th answer goes to the k-th call, and the k-th message written is that call's |
| RpcClient.AlwaysWritesMessages | scripts/control-ui-i18n.ts:1274-1299 | every message written is the one its call was made with |
| RpcClient.NextPromptIsUnsafeIff | scripts/control-ui-i18n.ts:1192-1238 | for every history of an in-order peer after which the open client has nothing open, the next prompt can succeed with an answer that is not its own in some continuation exactly when fewer answers came than messages were written |
| RpcClient.OwedAnswerIsTaken | scripts/control-ui-i18n.ts:1192-1238 | any answer that is still owed is then taken for the next prompt's |
| RpcClient.DisciplineOwesNothing | scripts/control-ui-i18n.ts:1227-1236 | a client whose prompts all succeeded, each asked after the one before, is owed no answer |
| RpcClient.AnswersCanBeSwappedWithoutReset | scripts/control-ui-i18n.ts:1227-1236 | so after a refused prompt the next one can receive the refused one's answer |
| RpcClient.MatchedStep | scripts/control-ui-i18n.ts:1192-1238 | one event keeps answers and prompts matched under the discipline |
| RpcClient.TimeoutSettles | scripts/control-ui-i18n.ts:1260-1272 | the timeout of the open request rejects it and closes the client |
| RpcClient.PendingUntilEnded | scripts/control-ui-i18n.ts:1192-1305 | a prompt that starts on an open client keeps the slot, whatever else happens, until one of the events that end its request: a refusal, an `agent_end`, its timeout, its failed write, a process error or the process close; until then nothing settles, and an accepting response is only noted |
| RpcClient.FirstEndSettles | scripts/control-ui-i18n.ts:1192-1305 | the first such event settles it with its own outcome: the reply of the `agent_end`, the error of the refusal, the failed write or the process, or the stated reason of a timeout or close with the lines of error output received until then |
| RpcClient.PromptResolvesIff | scripts/control-ui-i18n.ts:1227-1238 | in every history a prompt succeeds with a text exactly when an `agent_end` that succeeds with this text is the first event to end its request |
| RpcClient.ClosedClientRejects | scripts/control-ui-i18n.ts:1242-1244 | a prompt that starts on a closed client is rejected as unavailable, with the error output so far |
| RpcClient.ClosedIff | scripts/control-ui-i18n.ts:1168-1173 | a client is closed exactly when it was closed, its process ended or the timeout of a request fired while it was open |
| RpcClient.ReasonsNameErrors | scripts/control-ui-i18n.ts:1171-1172 | a reason is followed, in parentheses, by the lines of error output, joined and trimmed, exactly if they are not blank |
| RpcClient.PiRpcClient.constructor | scripts/control-ui-i18n.ts:1111-1123 | a new client is in the initial state of the protocol |
| RpcClient.PiRpcClient.SettleIfPending | scripts/control-ui-i18n.ts:1184-1190 | the pending request is settled once, its slot freed and its clocks stopped |
| RpcClient.PiRpcClient.SubmitPrompt | scripts/control-ui-i18n.ts:1240-1241 | a call queues behind all earlier ones |
| RpcClient.PiRpcClient.StartPrompt | scripts/control-ui-i18n.ts:1242-1289 | the body of the oldest waiting call takes the slot under a new id, or is rejected when the client is closed, with the error output so far |
| RpcClient.PiRpcClient.HandleStdoutLine | scripts/control-ui-i18n.ts:1192-1238 | a refusal under the pending id rejects, an accepting response under it is noted, any other response changes nothing, and an `agent_end` settles whatever is pending; `PendingUntilEnded` and `FirstEndSettles` say what this means for a prompt |
| RpcClient.PiRpcClient.HandleTimer | scripts/control-ui-i18n.ts:1260-1272 | a timeout rejects, with the error output so far, and closes only if its own request is still pending |
| RpcClient.PiRpcClient.HandleHeartbeat | scripts/control-ui-i18n.ts:1252-1259 | the progress interval changes no state |
| RpcClient.PiRpcClient.HandleWriteDone | scripts/control-ui-i18n.ts:1289-1299 | a failed write rejects its own request and frees the slot only if that request holds it |
| RpcClient.PiRpcClient.HandleProcessError | scripts/control-ui-i18n.ts:1164-1166 | a process error rejects the pending request and leaves the client open |
| RpcClient.PiRpcClient.HandleProcessClose | scripts/control-ui-i18n.ts:1168-1173 | the end of the process closes the client and rejects the pending request with the error output so far |
| RpcClient.PiRpcClient.HandleStderrLine | scripts/control-ui-i18n.ts:1154-1157 | a line of error output is kept for later messages and changes nothing else |
| RpcClient.PiRpcClient.CloseClient | scripts/control-ui-i18n.ts:1307-1318 | closing marks the client closed and settles nothing by itself |
| TranslationSession.PromptedSettles | scripts/control-ui-i18n.ts:1240-1305 | whatever events arrive, one prompt on a client whose earlier prompts all succeeded adds exactly its own message and its own settlement, and keeps the discipline |
| TranslationSession.PromptIsWhatHappens | scripts/control-ui-i18n.ts:1240-1305 | everything that can happen to the client reaches it, in order: before the call, then after the start, and the timeout if the prompt is still open then |
| TranslationSession.ReadIff | scripts/control-ui-i18n.ts:1369-1379 | an answer is accepted exactly when it resolved to an object with a non-blank text for every key asked for, and is then read as those texts for those keys only |
| TranslationSession.FailureIsNamed | scripts/control-ui-i18n.ts:1369-1384 | an attempt that fails has the reason of the prompt, that of the parser, or names the first key without a text |
| TranslationSession.TryIsTraceable | scripts/control-ui-i18n.ts:1352-1382 | after any attempt every recorded reply is still the settlement of its own prompt, whose message was the prompt for its items, on a client that was never asked again after a failure |
| TranslationSession.ClientOwesNothing | scripts/control-ui-i18n.ts:1500-1512 | the client that is asked next, if its peer answers in order, owes no answer |
| TranslationSession.AskedIsTied | scripts/control-ui-i18n.ts:1500-1505 | the reply of a new attempt is the settlement of a prompt that no earlier attempt has, or the reason why no client could be started |
| TranslationSession.Prompt | scripts/control-ui-i18n.ts:1366-1368 | one prompt on the client, from the call to the settlement, gives the history that `Prompted` says and returns the settlement it added |
| TranslationSession.ReadAnswer | scripts/control-ui-i18n.ts:1369-1379 | the parse loop equals `Read`, reasons of failure included, and succeeds exactly with a non-blank text for every key |
| TranslationSession.ClientAccess.constructor | scripts/control-ui-i18n.ts:1498-1499 | a run starts without a client and with an empty session |
| TranslationSession.ClientAccess.GetClient | scripts/control-ui-i18n.ts:1500-1505 | reuses the open client or creates a fresh one, and fails exactly when none is open and none can be started |
| TranslationSession.ClientAccess.ResetClient | scripts/control-ui-i18n.ts:1506-1512 | closes and forgets the client, keeping its history |
| TranslationSession.ClientAccess.Ask | scripts/control-ui-i18n.ts:1365-1368 | gets a client and prompts it: session, prompt and reply are what `AskOf` makes of the world |
| TranslationSession.ClientAccess.TryOnce | scripts/control-ui-i18n.ts:1364-1382 | one pass through the `try` block and its reset: session and result are what `TryOf` makes of the world, and the session stays traceable |
| BatchTranslation.BatchRan | scripts/control-ui-i18n.ts:1352-1414 | for every world, the verdicts of a batch's prompts form a complete course that fits its result, no deeper than the rounded-up binary logarithm of n; a returned map has exactly the batch's keys, each with a non-blank text that a recorded reply has for it; the session stays traceable |
| BatchTranslation.BatchSucceedsIff | scripts/control-ui-i18n.ts:1352-1414 | a batch succeeds exactly when the answers its prompts received form a successful course |
| BatchTranslation.CoursesArePrefixFree | scripts/control-ui-i18n.ts:1360-1412 | no complete course is the beginning of another one, or ends in both ways |
| BatchTranslation.TimeoutsCount | scripts/control-ui-i18n.ts:871-873 | a prompt whose own timeout fires counts as timed out whatever the process has written |
| BatchTranslation.TimeoutErrorIff | scripts/control-ui-i18n.ts:871-873 | a message counts as a timeout exactly when the nine characters of "timed out" stand somewhere in it, each letter small or capital |
| BatchTranslation.ClosedProcessCountsIff | scripts/control-ui-i18n.ts:1168-1173 | a closed or unavailable process counts as a timeout exactly when its error output does, ASCII case aside |
| BatchTranslation.BatchIsShort | scripts/control-ui-i18n.ts:1352-1414 | a batch of n items costs between 1 and 4n - 2 prompts |
| BatchTranslation.CoursesAreWhatHappens | scripts/control-ui-i18n.ts:1352-1414 | the complete courses, with their endings, are exactly what some world makes of the batch |
| BatchTranslation.LongestRun | scripts/control-ui-i18n.ts:1352-1414 | for every batch some world makes the script issue exactly 4n - 2 prompts and still succeed |
| BatchTranslation.TranslateBatch | scripts/control-ui-i18n.ts:1352-1414 | terminates for every world; session and result are those of `BatchOf`, about which `BatchRan` speaks |
| BatchTranslation.TranslateHalves | scripts/control-ui-i18n.ts:1386-1402 | after a timeout the two halves are translated one level deeper, the second only if the first succeeded, and their maps are joined: session and result are those of `HalvesOf` |
| BatchTranslation.TryRepeatedly | scripts/control-ui-i18n.ts:1360-1412 | the loop of at most two attempts, ended early by a success or a timeout: session and result are those of `RepeatOf` |
| BatchTranslation.RepeatRan | scripts/control-ui-i18n.ts:1360-1412 | the attempts of the loop are a success, a timeout or two failures, with at most one failure before, and the verdicts are those of the replies received |
| BatchTranslation.CourseIsShort | scripts/control-ui-i18n.ts:1360-1412 | every complete course of prompts for n items has between 1 and 4n - 2 prompts |
| BatchTranslation.LongestCourse | scripts/control-ui-i18n.ts:1360-1412 | for every n a successful course of exactly 4n - 2 verdicts exists; `LongestRun` makes it happen |
| BatchTranslation.CeilLog2IsLeast | scripts/control-ui-i18n.ts:1387-1396 | the depth measure is the least k with n at most 2^k |
| BatchCoverage.AttemptsCoverBatch | scripts/control-ui-i18n.ts:1352-1414 | for every world: the first attempt asks for the whole batch, a failed one is followed by one for the same items, one that timed out by one for the first half of its items, rounded up; the attempts that got a good answer bring together exactly the items of the batch, each once and in order, if it succeeds, and otherwise only some of the first ones |
| ClientLifetimes.EveryClientIsClosed | scripts/control-ui-i18n.ts:1498-1545 | a run, successful or not, closes every client it starts and never uses it again, leaves earlier clients alone, starts at most one client more than it has failing attempts, and none without a provider or pending keys |
| ClientLifetimes.TryTends | scripts/control-ui-i18n.ts:1364-1384 | an attempt uses the open client, or a new one if there is none, and closes it exactly if it fails |
| TranslationTree.FlattenTranslations | scripts/control-ui-i18n.ts:326-336 | appends the flattened entries of a map to an accumulator, later keys replacing earlier values |
| TranslationTree.SetNestedValue | scripts/control-ui-i18n.ts:338-353 | walking and assigning through nested objects gives the tree that inserting the path gives, and keeps the objects a tree |
| TranslationTree.BuildMap | scripts/control-ui-i18n.ts:1577-1580 | building the next map object by object gives the rebuilt tree |
| TranslationTree.InsertAt | scripts/control-ui-i18n.ts:338-353 | after an insertion the path holds the text, and every path unrelated to it is as before |
| TranslationTree.FlattenUndoesRebuildIff | scripts/control-ui-i18n.ts:326-353 | for distinct keys, flattening the rebuilt map gives every entry back exactly when no key lies below another and none starts with a dot |
| TranslationTree.RebuiltHasNoOtherKeys | scripts/control-ui-i18n.ts:326-353 | flattening the rebuilt map gives no further keys |
| TranslationTree.RebuildUndoesFlatten | scripts/control-ui-i18n.ts:326-353 | for a map with non-empty dot-free names and no empty sub-map, inserting its flattened entries one by one gives the map back, order included |
| TranslationTree.WellFormedIsAddressable | scripts/control-ui-i18n.ts:326-336 | such a map flattens to distinct keys of which none lies below another |
| TranslationTree.NoStringIsReplaced | scripts/control-ui-i18n.ts:344-349 | for such keys the branch that replaces a string by a map is never taken |
| LocaleSync.LoadTranslationMemory | scripts/control-ui-i18n.ts:483-502 | the loop over the lines gives the memory specified by `LoadTm` |
| LocaleSyncFixpoint.LoadKeepsLast | scripts/control-ui-i18n.ts:490-499 | under each cache key but the empty one the memory has its last line with a non-blank text, and nothing exactly when there is none |
| LocaleSyncFixpoint.LoadKeepsOrder | scripts/control-ui-i18n.ts:490-499 | the keys of the loaded memory are those of such lines, in the order in which they first appear |
| LocaleSync.BuildTranslationMemoryByTextHash | scripts/control-ui-i18n.ts:514-526 | equals the index specified by `ByTextHash` |
| LocaleSync.ScanSource | scripts/control-ui-i18n.ts:1449-1490 | the loop over the source keys does what `Scan` says, in its four branches; `DecisionIs`, `RunFinishes` and `EveryValueHasAnOrigin` say what that means for a key |
| LocaleSync.BatchesAnswered | scripts/control-ui-i18n.ts:1516-1543 | for every world, the batches of a run answer each item with a non-blank text that a recorded reply of this run has for its key, at no more than four prompts per item, and keep the session traceable |
| LocaleSync.AnswersSucceedIff | scripts/control-ui-i18n.ts:1516-1543 | a run over the batches gets all its answers exactly when the answers its prompts received form a successful course of every batch in turn |
| LocaleSync.TranslatePending | scripts/control-ui-i18n.ts:1492-1545 | the loop over the batches stores the texts, in order, that `TranslationOf` makes of the world, and fails exactly when that does; no client stays open |
| LocaleSync.AddFallbacks | scripts/control-ui-i18n.ts:1554-1568 | gives every key still without a value one, as `FallBack` says |
| LocaleSync.PublishLocale | scripts/control-ui-i18n.ts:1577-1673 | renders, compares and writes the four files as `Publish` says, about which `FilesChangeIff`, `ChangedIffWritingWould` and the laws of `LocaleRecords` speak |
| LocaleSync.SyncLocale | scripts/control-ui-i18n.ts:1423-1674 | outcome, files and conversation after a run are what `RunOf` makes of the world, the conversation so far and the files, failures included; no client stays open |
| LocaleRun.WrittenTextsAreThePeers | scripts/control-ui-i18n.ts:1492-1663 | after a writing run with a provider the locale file has, under every key that was pending, a text that a reply of this run has for that key; if the peer of that attempt ends its turns in order, the reply is its answer to the very message the attempt wrote, which is the prompt for the attempt's items |
| LocaleRun.AnswersReachTheirPrompts | scripts/control-ui-i18n.ts:1498-1545 | over all clients of a traceable session, each answer that was read is the answer its peer gave to the prompt of its own attempt |
| LocaleRun.AnswersAreThePeers | scripts/control-ui-i18n.ts:1516-1543 | each text that translating the pending keys gives was given by a peer for its key |
| LocaleRun.AnswersAreResolved | scripts/control-ui-i18n.ts:1526-1568 | with a provider each pending key is resolved to the text it was answered, later answers and fallbacks notwithstanding |
| LocaleRun.RunIsFrugal | scripts/control-ui-i18n.ts:1492-1545 | a run asks at most four prompts per pending key and none without a provider or pending keys, keeps every earlier attempt, and leaves no client open |
| LocaleRun.RunSucceedsIff | scripts/control-ui-i18n.ts:1492-1575 | a run succeeds exactly when the answers that its prompts received form a successful course, if it has to ask at all, and the placeholders agree; a failed run changes no file and says what failed |
| LocaleRun.FilesChangeIff | scripts/control-ui-i18n.ts:1634-1673 | in every mode and world the files change exactly when the run succeeds, may write, is no check and reports a change, and the run says that it wrote exactly when they did |
| LocaleRun.ChangedIffWritingWould | scripts/control-ui-i18n.ts:1613-1673 | a run in any mode has the outcome of a writing run of the same inputs, and reports a change exactly when that run would not leave the files as they are |
| LocaleRun.SecondRunIsClean | scripts/control-ui-i18n.ts:1423-1674 | with a provider, or if the collation tells the source keys apart, a run after a successful writing run with the same source and settings succeeds in every mode and world, asks nothing, reports no change and the same number of fallbacks, and leaves files and conversation as they are |
| LocaleRun.SyncTwice | scripts/control-ui-i18n.ts:1423-1674 | the same of two calls of `SyncLocale` in a row |
| LocaleSyncFixpoint.SyncIsAFixpoint | scripts/control-ui-i18n.ts:1449-1632 | with a provider, or if the collation tells the source keys apart, a second run after a writing run with the same source and settings has nothing pending, reports no change and leaves all four files as they are, whatever the translator said and in whatever mode it runs |
| LocaleSyncFixpoint.SyncIsAFixpointIff | scripts/control-ui-i18n.ts:1449-1632 | for every collation the second run has nothing pending, and is clean exactly when the recorded fallback keys that collate equal are in source order |
| LocaleSyncFixpoint.SettlesAtOnceIff | scripts/control-ui-i18n.ts:1586-1611 | without a provider, second runs are clean from all files exactly when the collation tells the source keys apart |
| LocaleSyncFixpoint.TiedKeysDrift | scripts/control-ui-i18n.ts:1586-1611 | from files in which only the later of two such keys is there and has fallen back, the second run is not clean |
| LocaleSyncFixpoint.SecondRunSettles | scripts/control-ui-i18n.ts:1449-1632 | for every collation the second writing run returns, and a third run is clean |
| LocaleSyncFixpoint.LaterRunIsCleanIff | scripts/control-ui-i18n.ts:1449-1650 | a later run with any settings finds no change exactly when each cached text it would use is the one written, no fallback is due for a new try, the provider and model are the recorded ones, and recorded keys that collate equal are in source order |
| LocaleSyncFixpoint.ValidRunIsClean | scripts/control-ui-i18n.ts:1449-1650 | under that condition the later run asks for nothing and returns the disk unchanged |
| LocaleSyncFixpoint.RunIsComplete | scripts/control-ui-i18n.ts:1445-1589 | every source key and no other has a value, fallback keys are a duplicate-free subset of them, and with a provider there are none |
| LocaleSyncFixpoint.RunFinishes | scripts/control-ui-i18n.ts:1449-1568 | every key ends as the decision for it, taken from what was loaded, prescribes |
| LocaleSyncFixpoint.ScanDecides | scripts/control-ui-i18n.ts:1449-1490 | the first loop deals with each key as decided, although it changes the translation memory while it reads it |
| LocaleSyncFixpoint.RunHolds | scripts/control-ui-i18n.ts:1652-1663 | after a writing run the four files hold exactly its resolution |
| LocaleSyncFixpoint.RunBringsUpToDate | scripts/control-ui-i18n.ts:1577-1663 | what a writing run leaves meets that condition for its own settings, up to the order of keys that collate equal |
| LocaleSyncFixpoint.RecordStands | scripts/control-ui-i18n.ts:1586-1588 | sorting the fallback keys again, collected in source order, gives the record exactly when keys that collate equal are in source order in it |
| LocaleSyncFixpoint.FallbackCountIs | scripts/control-ui-i18n.ts:1586-1589 | the reported fallback count is the number of fallback keys, so translated and fallback keys add up to the total |
| LocaleSyncFixpoint.ForceChangesNothing | scripts/control-ui-i18n.ts:1554-1568 | the force option never changes the outcome or the files, in any mode |
| LocaleSyncFixpoint.RenderRoundTrip | scripts/control-ui-i18n.ts:483-512 | rendering and loading a translation memory again changes neither its entries nor its text |
| LocaleSyncFixpoint.ByTextHashMeans | scripts/control-ui-i18n.ts:514-526 | the index knows exactly the text hashes of the usable entries of the locale, each with a usable entry |
| LocaleSyncFixpoint.MetaIsReused | scripts/control-ui-i18n.ts:1590-1611 | metadata that says the same keeps its time stamp |
| LocaleSyncFixpoint.WellFormedRunIsGood | scripts/control-ui-i18n.ts:1430-1451 | a source map with plain names and a collision-free hash are all the sync theorems need |
| LocaleRecords.ByTextHashIsLast | scripts/control-ui-i18n.ts:514-526 | of the entries of one text that have a translation into the locale the last one counts |
| LocaleRecords.DecisionIs | scripts/control-ui-i18n.ts:1449-1490 | where a value is taken from, told on the files: from its own entry unless the key is refreshed, then from the last entry of the same text if the file has no value or the key fell back, then from the file unless the key is refreshed, and otherwise it is asked for; a key is refreshed when it fell back and there is a provider |
| LocaleRecords.AnswerIsRecorded | scripts/control-ui-i18n.ts:1526-1543 | the memory then has for every translated key the entry of this key, text, text hash, provider, model and locale, with the answer and its time |
| LocaleRecords.CopyIsRecorded | scripts/control-ui-i18n.ts:1467-1476 | a key that takes over a translation of the same text has a copy of that entry under its own key |
| LocaleRecords.OtherEntriesStay | scripts/control-ui-i18n.ts:1449-1568 | every entry that belongs to no source key under the settings of the run stays as it was |
| LocaleRecords.LocaleFileIs | scripts/control-ui-i18n.ts:1577-1580 | after a writing run the locale file has the resolved value of every source key, and no other key |
| LocaleRecords.MetaFileIs | scripts/control-ui-i18n.ts:1582-1611 | the metadata then has the sorted fallback keys, the counts, the locale, the source hash and the provider and model, those recorded before if there is no provider; it keeps the time stamp exactly if it says nothing new |
| LocaleRecords.GlossaryFileIs | scripts/control-ui-i18n.ts:134-145 | a glossary with terms stays, otherwise it lists the ten product names, each kept as it is |
| LocaleRecords.MemoryFileIs | scripts/control-ui-i18n.ts:504-512 | the memory file has the entries of the run in the order of their cache keys, and is absent exactly when it was and there are none |
| LocaleRecords.PlaceholdersMustAgree | scripts/control-ui-i18n.ts:1575-1575 | with all its answers a run fails exactly if the placeholders of some source text are not those of its value |
| SegmentIdentity.SameHashIff | scripts/control-ui-i18n.ts:271-281 | with a hash without collisions, two texts have the same text hash exactly when they have the same words, that is, agree up to outer white space and runs of it |
| SegmentIdentity.CacheKeysAgreeIff | scripts/control-ui-i18n.ts:283-294 | two cache keys are equal exactly for the same provider, model, locale, key and text hash, if provider, model and locale hold no bar |
| SegmentIdentity.BarsCanCollide | scripts/control-ui-i18n.ts:283-294 | with a bar in them, different providers and models can share a cache key |
| SegmentIdentity.CachedIsForSameWords | scripts/control-ui-i18n.ts:1451-1465 | an entry found under the cache key of a source key was recorded for that key and for a text of the same words |
| SegmentIdentity.SameTextIsForSameWords | scripts/control-ui-i18n.ts:1453-1476 | an entry found by the hash of a text was recorded for a text of the same words, in this locale |
| SegmentIdentity.EveryValueHasAnOrigin | scripts/control-ui-i18n.ts:1449-1568 | every value of a run was recorded for a text of the same words, stands under its key in the locale file, is the answer given for its key, or is the source text of a key that is marked as fallen back |
| SegmentIdentity.RunStaysHonest | scripts/control-ui-i18n.ts:1449-1543 | entries that carry the hash of their own text and the cache key of their own key stay like that through a run, and so do all that it adds |
| CallScanner.QuoteScanState.ConsumeQuotedChar | scripts/check-temp-path-guardrails.ts:55-70 | one character inside quotes changes the state as the lexer says |
| CallScanner.QuoteScanState.BeginQuotedSection | scripts/check-temp-path-guardrails.ts:46-52 | opens a section exactly at a single quote, a double quote or a backtick, and remembers which |
| CallScanner.FindMatchingParen | scripts/check-temp-path-guardrails.ts:72-98 | returns the first parenthesis outside quotes that closes the given one, and -1 exactly when there is none |
| CallScanner.SplitTopLevelArguments | scripts/check-temp-path-guardrails.ts:100-162 | equals the argument list specified by `TopLevelArguments`, about which `SplitCutsAtCommas` and `SplitUndoesJoin` speak |
| CallScanner.SplitUndoesJoin | scripts/check-temp-path-guardrails.ts:100-162 | splitting any self-contained arguments joined by ", " gives exactly those arguments |
| CallScanner.SplitCutsAtCommas | scripts/check-temp-path-guardrails.ts:100-162 | for every text: it is cut at exactly the commas outside string literals at which no bracket of any kind is open, closing brackets without a partner being passed over, and the arguments are the pieces in order, trimmed, blank ones included except a last one |
| CallScanner.CallIsFound | scripts/check-temp-path-guardrails.ts:72-98 | in any text, the parenthesis behind such a joined list is the first that closes the one before it |
| CallScanner.ReadCall | scripts/check-temp-path-guardrails.ts:72-162 | finding the parenthesis and splitting what it encloses reads back the arguments of any such call, whatever follows it |
| CallScanner.TokensAreSelfContained | scripts/check-temp-path-guardrails.ts:46-162 | text built of plain characters, closed quotes with escapes and nested closed brackets, without a comma at the top, is self-contained exactly when it is trimmed and not blank |
| WorkerPool.PoolReadsInOrder | scripts/check-temp-path-guardrails.ts:223-263 | for every schedule and worker count each index is claimed exactly once and the output is that of reading the paths in order and dropping the failures |
| WorkerPool.EveryFileIsRead | scripts/check-temp-path-guardrails.ts:228-263 | that reading gives, in order, exactly one file for each non-empty path that can be read, with its path and content |
| WorkerPool.NoFileIsSharedByReaders | scripts/check-temp-path-guardrails.ts:232-255 | in no schedule do two workers read the same file at a time |
| WorkerPool.SchedulesAreBounded | scripts/check-temp-path-guardrails.ts:232-255 | no schedule is longer than two steps per path and one per worker |
| WorkerPool.PoolNeverStalls | scripts/check-temp-path-guardrails.ts:257-261 | while a worker has not returned, the pool can go on |
| WorkerPool.StepKeepsInv | scripts/check-temp-path-guardrails.ts:232-255 | the pool's invariant survives the step of any worker |
| WorkerPool.TakeStep | scripts/check-temp-path-guardrails.ts:232-255 | one step on the shared counter and array is the step of the model |
| WorkerPool.ReadRuntimeSourceFiles | scripts/check-temp-path-guardrails.ts:223-263 | the pool returns the in-order reading of the paths whichever worker is resumed at each step, after a complete schedule of one worker per path, at least one and at most 24 |
| ProcessTree.ReadProcessTreeCpuMs | scripts/bench-gateway-startup.ts:624-673 | on any table, cyclic or repetitive, returns the sum of CPU times over exactly the pids reachable from the root without passing through pid 0, each once; nothing exactly when the root is absent |
| ProcessTree.ReadRows | scripts/bench-gateway-startup.ts:636-653 | the maps hold each pid's last time and each parent's children |
| ProcessTree.LastRowCounts | scripts/bench-gateway-startup.ts:636-653 | the time of a pid is that of its last readable row |
| ProcessTree.FinishedWalk | scripts/bench-gateway-startup.ts:661-671 | an empty stack means that the seen pids are the reachable ones |
| SchemaRegistry.SignatureIsCanonical | scripts/protocol-gen-swift.ts:102-119 | two schemas have the same signature exactly when they are equal up to the order of object keys |
| SchemaRegistry.SameUpToOrderIff | scripts/protocol-gen-swift.ts:102-119 | two values are equal up to key order exactly when every path of indices and keys finds the same in both: the same scalar, as many items, or the same set of keys |
| SchemaRegistry.StableKeysAreSorted | scripts/protocol-gen-swift.ts:107-112 | the canonical form of an object has the same keys, sorted |
| SchemaRegistry.LexLeIff | scripts/protocol-gen-swift.ts:110-110 | the order of keys is that of the first different character, a key before its continuations |
| SchemaRegistry.StableJsonKeepsContent | scripts/protocol-gen-swift.ts:102-115 | the canonical form of a value is equal to it up to key order |
| SchemaRegistry.StableJsonIsStable | scripts/protocol-gen-swift.ts:102-115 | the canonical form of a canonical form is itself |
| SchemaRegistry.OnlyNameIff | scripts/protocol-gen-swift.ts:121-133 | a schema has a structural name exactly when one registration, and no other, is of a schema equal to it, and the name is that registration's |
| SchemaRegistry.RegistrationIsOrderFree | scripts/protocol-gen-swift.ts:121-133 | the order of registrations does not change any structural name |
| SchemaRegistry.Registry.RegisterNamedSchema | scripts/protocol-gen-swift.ts:121-133 | after any sequence of registrations the maps hold exactly the once-registered signatures, and the duplicate set the others |
| SchemaRegistry.Registry.NamedSchema | scripts/protocol-gen-swift.ts:135-140 | the object's own name comes first; the fallback is the name of the one registered schema equal up to key order |
| CommandRun.FirstEndDecides | scripts/openclaw-cross-os-release-checks.ts:3453-3461 | in every run the first close, child error, failed kill or kill wait decides the only settlement, and comes within the timeout and 15 seconds |
| CommandRun.ResolvesIff | scripts/openclaw-cross-os-release-checks.ts:3531-3554 | the promise resolves exactly when the child closes before the deadline with exit code 0 or with the check off |
| CommandRun.SettlementStands | scripts/openclaw-cross-os-release-checks.ts:3453-3461 | nothing after the settlement changes it, and no timer is set that was not set when it was made |
| CommandRun.SettledInTime | scripts/openclaw-cross-os-release-checks.ts:3482-3500 | with a timeout set, the command has settled once the timeout and 15 seconds have passed |
| CommandRun.NextTimer | scripts/openclaw-cross-os-release-checks.ts:3482-3509 | until a command with a timeout settles, some timer can fire and brings the settlement nearer |
| CommandRun.TimersSettle | scripts/openclaw-cross-os-release-checks.ts:3482-3509 | from every run of a command with a timeout, firing timers alone, with a kill that does not fail, leads to a settlement |
| CommandRun.HeartbeatsAreBounded | scripts/openclaw-cross-os-release-checks.ts:3501-3510 | a command with a timeout logs at most one heartbeat per period until it settles |
| CommandRun.TimersAreDue | scripts/openclaw-cross-os-release-checks.ts:3482-3510 | in every run the deadline fires at the timeout, the wait after the kill 15 seconds later, and the n-th heartbeat after n periods |
| CommandRun.AlwaysInv | scripts/openclaw-cross-os-release-checks.ts:3434-3556 | after every run at most one settlement was made, no deadline or heartbeat is armed after it, and a kill wait only if the settlement is the error of the kill; a fired deadline excludes resolving |
| CommandRun.TimerOutlivesIff | scripts/openclaw-cross-os-release-checks.ts:3484-3499 | in every run, a timer is armed after the settlement exactly when the kill failed and the wait after it has not run out since |
| CommandRun.TimersOutliveForTimeouts | scripts/openclaw-cross-os-release-checks.ts:3482-3500 | some run keeps a timer armed past its settlement exactly when a timeout is set |
| CommandRun.FailedKillLeavesTimer | scripts/openclaw-cross-os-release-checks.ts:3484-3499 | for every timeout and heartbeat a kill that fails settles the command with its error and leaves the wait armed |
| CommandRun.LateWritesAreForTimeouts | scripts/openclaw-cross-os-release-checks.ts:3482-3525 | some run of a well-behaved child (no output after its close, or after an error before the deadline) writes to the ended log exactly when a timeout is set, whatever the heartbeat |
| CommandRun.LateWritesIff | scripts/openclaw-cross-os-release-checks.ts:3516-3525 | in any one run the ended log is written to exactly when output arrives after an ending event |
| CommandRun.ClosedChildWritesInTime | scripts/openclaw-cross-os-release-checks.ts:3516-3554 | a child that closes after its output has ended leaves no late write |
| CommandRun.SurvivorWritesLate | scripts/openclaw-cross-os-release-checks.ts:3490-3498 | with any timeout and any heartbeat, a child that outlives the kill wait can leave a late write |
| CommandRun.NoLateWriteWithoutTimeout | scripts/openclaw-cross-os-release-checks.ts:3516-3554 | without a timeout a well-behaved child never leaves one |
| CommandRun.Supervisor.constructor | scripts/openclaw-cross-os-release-checks.ts:3431-3510 | the initial variables and timers |
| CommandRun.Supervisor.FinalizeWith | scripts/openclaw-cross-os-release-checks.ts:3453-3461 | settles once, clears every timer and ends the log |
| CommandRun.Supervisor.KillChild | scripts/openclaw-cross-os-release-checks.ts:3463-3480 | a kill that fails at once settles the command with its error |
| CommandRun.Supervisor.HandleDeadline | scripts/openclaw-cross-os-release-checks.ts:3484-3499 | marks the timeout, requests the kill, which may settle the command, and arms the kill wait in either case |
| CommandRun.Supervisor.HandleKillWait | scripts/openclaw-cross-os-release-checks.ts:3490-3498 | rejects a command that could not be ended |
| CommandRun.Supervisor.HandleHeartbeat | scripts/openclaw-cross-os-release-checks.ts:3503-3509 | logs and re-arms |
| CommandRun.Supervisor.HandleData | scripts/openclaw-cross-os-release-checks.ts:3516-3525 | appends to the stream's text and to the log |
| CommandRun.Supervisor.HandleError | scripts/openclaw-cross-os-release-checks.ts:3527-3529 | rejects with the error of the child |
| CommandRun.Supervisor.HandleClose | scripts/openclaw-cross-os-release-checks.ts:3531-3554 | a timeout rejects, then a failed check, else the result resolves; a missing exit code counts as 1 |
| Appcast.CollectAppcastSparkleVersionErrors | scripts/release-check.ts:607-664 | reports the errors of every item in order, and none exactly when the feed has items, all are numbered and there is one day, no later than the adoption date, from which builds reach their lane floor and before which they stay between the legacy floor and the lane range |
| Appcast.ErrorsDescribeItems | scripts/release-check.ts:607-664 | an error is reported exactly when the feed is empty or it is true of an item: its title without a version, with that text for a version, or with that build below that floor, which is the lane floor of its date for builds of ten digits and dates from the effective adoption date on, and otherwise the legacy floor |
| Appcast.FloorErrorsComeLast | scripts/release-check.ts:616-661 | errors about floors come behind all others |
| Appcast.FloorsReachedIff | scripts/release-check.ts:642-661 | every item reaches the floor applied to it exactly when such a day exists |
| Appcast.AdoptionIsEarliest | scripts/release-check.ts:642-649 | the effective adoption date is the earliest of the constant and the dates of lane builds |
| Appcast.AcceptedFeedIsSplit | scripts/release-check.ts:642-661 | in an accepted feed, from the year 1000 on, every build below 1,000,000,000 is dated strictly before every build at or above it |
| Appcast.LaneItemsReachTheLaneFloor | scripts/release-check.ts:642-661 | in an accepted feed every lane build, and every item dated on or after the effective adoption date, is at least its canonical build |
| Appcast.DayCanMixIff | scripts/release-check.ts:642-661 | some accepted feed has an old-style build and a lane build on a given day exactly when the year of that day is before 1000 |
| Appcast.EarlyYearsCanMix | scripts/release-check.ts:651-661 | for every day before the year 1000 there is such a feed |
| Appcast.PublishingIsAcceptedIff | scripts/release-check.ts:607-664 | adding a release under its canonical build keeps an accepted feed accepted exactly when every old-style build in it is dated before the release |
| Appcast.CanonicalBuildsFollowTheCalendar | scripts/sparkle-build.ts:37-57 | canonical builds are ordered by calendar date whatever the suffixes, and by lane within a day |
| Appcast.CanonicalBuildNamesItsRelease | scripts/sparkle-build.ts:37-52 | year, month, day and lane can be read back from a canonical build, the lane being 90 without a suffix, the number of a suffix up to 89, and otherwise 1; the legacy floor is the date with a zero behind it |
| Appcast.PlainReleaseIsLast | scripts/sparkle-build.ts:40-51 | a release without suffix outranks every suffixed release of its day |
| BlockLines.LastReplacementWinsIff | scripts/sync-moonshot-docs.ts:15-51 | for non-empty newline-free markers, replacing again gives what replacing once would have given exactly when neither the start marker nor an indented line written first contains the end marker; with the same lines this is idempotence |
| BlockLines.ReplacementIsLocal | scripts/sync-moonshot-docs.ts:29-50 | the text before the start line and after the end line is unchanged, and between them stand the start marker, the lines and the end marker, each with the indentation of the start marker; a final newline with nothing behind it is dropped |
| BlockLines.ReplacesIff | scripts/sync-moonshot-docs.ts:21-29 | a block is replaced exactly when the end marker occurs at or after the start marker, and otherwise the error names the marker that is missing |
| BlockLines.ReplacedShape | scripts/sync-moonshot-docs.ts:21-50 | the replaced document has its markers where the original had them |
| BlockLines.EmptyStartMarkerGrows | scripts/sync-moonshot-docs.ts:15-51 | with an empty start marker, replacing again gives what replacing once would have given exactly when the document starts with a newline and no line written first contains the end marker; otherwise the document grows, by one newline if the lines are clean |
| LiteralRepair.RestoreReplacementCorruptedStringLiterals | scripts/control-ui-i18n.ts:1023-1049 | returns the formatted text when it is not damaged, the source is, or the numbers of literals differ; otherwise keeps every gap and every literal without U+FFFD and takes over the literal of the source for each other one |
| LiteralRepair.RepairTouchesOnlyLiterals | scripts/control-ui-i18n.ts:1038-1048 | scanning the result again finds the formatter's gaps unchanged and, at each place, the formatter's literal if it is free of U+FFFD and the source's literal otherwise; none is damaged |
| LiteralRepair.RepairLeavesAlone | scripts/control-ui-i18n.ts:1024-1036 | a text that is not damaged, whose source is, or that has another number of literals is left alone |
| LiteralRepair.RepairIsCompleteIff | scripts/control-ui-i18n.ts:1023-1049 | the result is free of U+FFFD exactly when the formatter's gaps are |
| LiteralRepair.RepairIsIdempotent | scripts/control-ui-i18n.ts:1023-1049 | repairing again changes nothing |
| LiteralRepair.RescanFindsExchanged | scripts/control-ui-i18n.ts:1028-1048 | exchanging literals for any others moves no literal boundary |
| LiteralRepair.LiteralIffPattern | scripts/control-ui-i18n.ts:1028-1028 | the scanner's literals are exactly the texts that match the pattern |
| LiteralRepair.FirstIsLeftmost | scripts/control-ui-i18n.ts:1029-1030 | no text before the first match found matches |
| LiteralRepair.ScanSplits | scripts/control-ui-i18n.ts:1029-1048 | gaps and literals together are the whole text |
| Paging.FetchOpenLabelItemBatches | scripts/label-open-issues.ts:426-486 | the batches hold the first min(limit rounded up, total) items in order, 500 in each but the last, number themselves and the items so far; pages are fetched by the cursors of their predecessors and only below the limit |
| Paging.TakeNodes | scripts/label-open-issues.ts:454-468 | the loop over one page takes nodes up to the limit and yields each full batch with the page's total |
| Paging.TotalIsLatest | scripts/label-open-issues.ts:441-452 | the total that a batch repeats is the last one that a page has stated |
| Paging.FetchedCountIsRunningTotal | scripts/label-open-issues.ts:460-465 | `fetchedCount` of a batch is the number of items in it and all before it |
| Paging.BatchesAreUnique | scripts/label-open-issues.ts:454-485 | the same items make the same batches however they are paged |
| Paging.QuotaIff | scripts/label-open-issues.ts:441-457 | the number of items taken is the least that reaches the limit, or all |

## Left out

- File, network, process, GitHub and `ps` calls: their outcomes are parameters, event histories or records. A kill fails at once or not at all; a `taskkill` that fails later is an error event.
- `oxfmt`, `JSON.parse`, `JSON.stringify` and module import: a file is absent, exactly what the script renders for a value, or some other text that reads as a value.
- SHA-256 is a function parameter; the sync theorems need only that the cache keys of one run differ, which follows from a hash without collisions and with hexadecimal output.
- `localeCompare` is any total preorder on keys: it may find different keys equal.
- Clock readings are opaque values; only the rule that reuses `generatedAt` matters.
- Timers fire at their due time and the clock does not pass it; the extra delay of a busy event loop is not modelled. A timeout is the delay the timer is armed with, so its clamping by the runtime is not modelled either.
- Strings are sequences of characters, not of UTF-16 code units; JavaScript's ordering of integer-like object keys and prototype key names are not modelled.
- Build numbers and totals are unbounded integers, so rounding above 2^53 is not modelled.
- Parsing: XML tags, `ps` columns and CPU times, calendar versions and `agent_end` messages enter as parsed records; dates and floors are decimal arithmetic instead of digit strings.
- The sync fixpoint is proved for sources whose keys are such that a written map reads back; `FlattenUndoesRebuildIff` shows that no other source keeps its entries.
- The label of a prompt and the duration in the text of its timeout. Lower-casing is that of ASCII letters.
- The delay before a second attempt and the time a client takes to start or stop: what happens meanwhile is among the events of the world.
- Placeholder extraction is a parameter; a mismatch is the error it is in the script.
- The relative path that the worker pool stores is the path itself.
- `buildBatchPrompt`, system prompts, glossary prompts, labels and progress output, usage text and command-line parsing.
- The runner matrices, locale lists and other fixed tables, and wrappers over code that is not part of this model: enumeration settles them.
