# thin-edge.io, modelled and proved in Dafny

thin-edge.io runs on a constrained device and connects it to a cloud over a local MQTT bus. This
project models the parts of it whose guarantees hold over whole runs, and proves those guarantees:

- the **event batcher**, which groups measurements into time windows, and the driver that runs it on timers
  (`Batch.dfy`, `Batcher.dfy`, `BatcherMeaning.dfy`, `BatchRuns.dfy`, `BatchDriver.dfy`);
- the **actor runtime**, which spawns, supervises and shuts down actors (`Runtime.dfy`);
- the **MQTT connection** and its graceful close (`MqttConnection.dfy`);
- the **topic filters** and their simplification (`TopicFilter.dfy`);
- the **keyed timers** over futures that cannot be cancelled (`Timers.dfy`);
- the **resumable download** (`Download.dfy`);
- the **aliases of configuration keys** (`ConfigAliases.dfy`);
- the **software update pipeline**: translation from Cumulocity (`C8yTranslation.dfy`), grouping by type
  (`Software.dfy`), plugin lookup and life cycle (`Plugins.dfy`, `PluginMeaning.dfy`), the files of the
  artefacts (`Artefacts.dfy`), processing (`UpdateProcessing.dfy`, `CommandMeaning.dfy`);
- the **JSON writer** (`JsonWriter.dfy`).

`Basics.dfy` holds `Option`, the splitting and joining of strings, and collecting from sequences.
`dafny verify dfyconfig.toml` checks the whole project.

Each stateful entity has a value-level description (what one call does to the state), a class whose methods and
loops are proved against that description, and theorems about every run of the description. The modules named
`…Meaning` say what an operation is for without naming the functions that compute it, and show that this leaves one
result only.

## What is assumed

- Times are integer nanoseconds, and the clock of the batch driver never goes backwards. Rust's division truncates
  towards zero, which is modelled explicitly in the midpoint of a split.
- Asynchronous environments are step lists, oracles or nondeterministic choices: any list of steps is a run, and a
  step that is not enabled does nothing. The order of a hash map and the order in which futures complete are arbitrary.
- The MQTT client takes requests from one queue in order. Topic matching is that of section 4.7 of MQTT Version 3.1.1,
  the rule for topics starting with `$` included. Where a pattern stands for the topic, a `#` level is matched by `#` only.
- The server of a download answers as sections 14.4 and 15.3.7 of RFC 9110 demand: a response covers the resource
  from the start it declares, which is at most the one requested. The resource does not change.
- Running a plugin, downloading and cleaning an artefact end as an arbitrary function of the calls made so far says.
- The distinct, dot-free names and aliases of a configuration level are what the configuration macros are given.

## What does not hold as such

- The batcher may lose an accepted event: the midpoint of two times one nanosecond apart does not separate them if
  the incoming one is the earlier. `ConservationIff` says exactly when.
- The stream of batches is chronological from step to step, but not within a step: the final flush sends the windows
  that are still open from the last opened to the first. `StreamChronologicalIff` says exactly when it is.
- A timer may be returned before its deadline if its key was started twice at the same instant. `NeverEarlyIff`
  says exactly when.
- `+/#` covers `#` and is not seen to. `MatchesIffIncludes` shows that there is no other such pair.
- The two Cumulocity translations differ on a delete that carries a URL. `TranslationsAgreeIff` says exactly when.
- The lookup of the default plugin does not end if the configured default is the literal `default`. `LookupEndsIff`
  says exactly when.
- Artefacts are downloaded to files named after module and version, so that an update may be installed from the
  artefact of another one. `OwnFileIff` says exactly when it is not.
- A request to disconnect that fails is not repeated: `DecisionIsFinal`. Until one fails, `CheckDecides` holds.

## Model

| member | source | states |
|---|---|---|
| Batches.Midpoint | crates/common/batcher/src/batch.rs:91-94 | halfway between the two times, rounded towards the incoming one; the times fall on different sides of it exactly when the incoming event is not one nanosecond the earlier |
| Batches.SplitTiles | crates/common/batcher/src/batch.rs:58-84 | a split gives two sound windows that meet at the midpoint and together span the old window |
| Batches.SplitHolds | crates/common/batcher/src/batch.rs:58-84 | after a split each event is in exactly one half: the new one and all the old ones, except the same-key event of a near miss |
| Batches.SplitAccounts | crates/common/batcher/src/batch.rs:58-84 | the halves plus what was overwritten are the old events plus the new one, as multisets |
| Batches.AddedAccounts | crates/common/batcher/src/batch.rs:41-56 | adding without a split keeps the bounds and soundness and adds exactly the event |
| Batches.Batch.constructor | crates/common/batcher/src/batch.rs:22-31 | a batch over the given window holding the given events |
| Batches.Batch.Add | crates/common/batcher/src/batch.rs:41-56 | added, refused as a duplicate, or split in place into the two halves, as `AddTo` says |
| Batches.Batch.SplitAt | crates/common/batcher/src/batch.rs:58-84 | the redistributing loop leaves the low side in place and returns the high side |
| Batches.Batch.IntoVec | crates/common/batcher/src/batch.rs:86-88 | the returned list holds the events of the window, each once |
| Batching.TimeKeepsWellFormed | crates/common/batcher/src/batcher.rs:81-98 | closing by time keeps the open windows sound and apart, and whatever is closed ends before whatever stays open starts |
| Batching.FilingKeepsWellFormed | crates/common/batcher/src/batcher.rs:46-58 | a new window, an addition or a split leaves all windows sound, at most an event jitter wide and meeting at most at an endpoint |
| Batching.EventAccounts | crates/common/batcher/src/batcher.rs:29-63 | one event: open plus closed plus overwritten afterwards are the open ones before plus the event if accepted |
| Batching.FlushAccounts | crates/common/batcher/src/batcher.rs:100-108 | flushing hands out exactly the pending events |
| Batching.Batcher.constructor | crates/common/batcher/src/batcher.rs:22-27 | no open batch |
| Batching.Batcher.Event | crates/common/batcher/src/batcher.rs:29-63 | the open windows and the outputs are those of `OnEvent`: too old and too futuristic events are dropped, others filed and settled |
| Batching.Batcher.OutputForBatchEnd | crates/common/batcher/src/batcher.rs:65-79 | a deadline still ahead becomes a timer; otherwise the windows due are closed and handed out |
| Batching.Batcher.Time | crates/common/batcher/src/batcher.rs:81-94 | windows past their deadline are handed out, the others stay, both in their old order |
| Batching.Batcher.Flush | crates/common/batcher/src/batcher.rs:100-108 | all windows are handed out, the last of the list first |
| Batching.Batcher.FindTargetBatch | crates/common/batcher/src/batcher.rs:110-114 | the first window that covers the time, or none |
| Batching.Batcher.MakeNewBatch | crates/common/batcher/src/batcher.rs:116-129 | the window of an event: an event jitter wide, clipped at the neighbouring windows |
| Batching.Batcher.PreviousBatch | crates/common/batcher/src/batcher.rs:131-136 | among the windows that end before the time, one that ends last |
| Batching.Batcher.NextBatch | crates/common/batcher/src/batcher.rs:138-143 | among the windows that start after the time, one that starts first |
| BatcherMeaning.AcceptsIff | crates/common/batcher/src/batcher.rs:29-63 | an event is accepted if and only if it is neither older than the delivery jitter nor beyond the leap limit, and the first window around its time holds no event of its key and time; stated on times, keys and windows alone |
| BatcherMeaning.EventMeansIt | crates/common/batcher/src/batcher.rs:29-79 | in sound windows: an event in time opens a window clipped at the next ones, joins the window around it, or halves it at the point halfway to its namesake, each old event staying on its side; if a window came out of it, its deadline becomes a timer or everything due is closed |
| BatcherMeaning.MeaningIsExact | crates/common/batcher/src/batcher.rs:29-79 | that description of windows and outputs has one solution only: what `OnEvent` computes |
| BatcherMeaning.TimeMeansIt | crates/common/batcher/src/batcher.rs:81-98 | by time exactly the windows whose end plus delivery jitter is reached are closed, and both lists are in their old order |
| BatchRuns.WindowsStaySound | crates/common/batcher/src/batcher.rs:29-143 | over every run: each open or emitted window is sound, at most an event jitter wide, with its events inside and under distinct keys, and open windows meet at most at an endpoint |
| BatchRuns.RunsStayInSequence | crates/common/batcher/src/batcher.rs:29-129 | over every run on a clock that never goes back: no window, open or sent later, starts before the end of one already sent |
| BatchRuns.ChronologicalEmission | crates/common/batcher/src/batcher.rs:29-129 | over every such run, the flush included: an event sent at one step is no later in event time than an event sent at a later step |
| BatchRuns.StreamChronologicalIff | crates/common/batcher/src/batcher.rs:65-108 | over every such run the stream of all batches sent is chronological if and only if the batches of each single step are |
| BatchRuns.FlushedBackwards | crates/common/batcher/src/batcher.rs:100-108 | two windows open in the end are flushed with the later one first, and the stream is not chronological |
| BatchRuns.EveryEventAccountedFor | crates/common/batcher/src/batcher.rs:29-108 | over every run: accepted events are the pending, the emitted and the overwritten ones, as multisets |
| BatchRuns.ConservationIff | crates/common/batcher/src/batch.rs:41-94 | over every run: nothing is lost if and only if no accepted event is one nanosecond earlier than the same-key event of its target window |
| BatchRuns.NearMissLosesAnEvent | crates/common/batcher/src/batch.rs:91-94 | three arrivals after which an accepted event is lost |
| BatcherMeaning.AcceptableAreAccepted | crates/common/batcher/src/batcher.rs:29-63 | over every run the accepted events are exactly the acceptable arrivals, as multisets |
| BatcherMeaning.AcceptableAreSentIff | crates/common/batcher/src/batcher.rs:29-108 | over every run exactly the acceptable arrivals are sent in the end if and only if there is no near miss |
| BatchDriving.DriveIsRun | crates/common/batcher/src/driver.rs:70-91 | any drive, whatever the timers and messages, is a run of the batcher on a clock that never goes back |
| BatchDriving.DriveIsChronological | crates/common/batcher/src/driver.rs:70-91 | emission is chronological over any drive, its final flush included |
| BatchDriving.TurnIs | crates/common/batcher/src/driver.rs:70-148 | a turn: if some timer is strictly past, an earliest one is used up and time passes; else a message that came goes to the batcher, and its timer, if any, is added; else nothing changes |
| BatchDriving.DeadlinesCovered | crates/common/batcher/src/driver.rs:133-148 | in every reachable state each open window has its end plus the delivery jitter among the timers |
| BatchDriving.TimeToNextTimer | crates/common/batcher/src/driver.rs:117-131 | past exactly when the earliest timer is, unbounded exactly without timers, else the whole seconds up to the earliest timer |
| BatchDriving.NothingOverdueWhenWaiting | crates/common/batcher/src/driver.rs:70-131 | whenever the driver waits no open window is past its deadline, the sleep ends no later than any deadline, and each pending event is due within an event jitter and a delivery jitter of its time |
| BatchDriving.WaitsSoon | crates/common/batcher/src/driver.rs:70-91 | from any point of any drive, whatever the clock does, the driver waits for a message within as many turns as it has timers |
| BatchDriving.BatchDriver.constructor | crates/common/batcher/src/driver.rs:96-105 | no timers and an empty batcher |
| BatchDriving.BatchDriver.Run | crates/common/batcher/src/driver.rs:70-91 | the batches of the drive are sent in order, then those of the flush and the flush mark; if the receiver is gone before, exactly as many as it takes are sent and the loop fails |
| BatchDriving.BatchDriver.TakeTurn | crates/common/batcher/src/driver.rs:70-91 | one turn of the loop takes the driver from one state of the drive to the next, or fails after the batches the receiver took |
| BatchDriving.BatchDriver.HandleEvent | crates/common/batcher/src/driver.rs:133-148 | the outputs of an event are sent, up to the first the receiver does not take, or become timers |
| BatchDriving.BatchDriver.HandleTime | crates/common/batcher/src/driver.rs:150-158 | the batches due are sent, up to the first the receiver does not take |
| BatchDriving.BatchDriver.Flush | crates/common/batcher/src/driver.rs:160-168 | the remaining batches are sent, then the flush mark, and it succeeds exactly if the receiver takes them all |
| ActorRuntime.RunningNamesDiffer | crates/core/tedge_actors/src/runtime.rs:187-197 | `name-count` determines both the name and the count, whatever dashes and digits the name holds |
| ActorRuntime.SpawnKeepsLedger | crates/core/tedge_actors/src/runtime.rs:187-197 | the running name of a new actor is not in the table, and spawning keeps the ledger |
| ActorRuntime.FinishKeepsLedger | crates/core/tedge_actors/src/runtime.rs:245-271 | an ending removes the actor and reports it once; a failed join leaves it in the table |
| ActorRuntime.RunKeepsLedger | crates/core/tedge_actors/src/runtime.rs:177-271 | over every run: each actor is started once under its name, reported stopped or aborted at most once, is in the table exactly in between, and the table is the pending tasks plus the unjoined ones |
| ActorRuntime.AllReportedOnceDrained | crates/core/tedge_actors/src/runtime.rs:223-243 | once the final wait has completed, each started actor was reported exactly once, unless its join failed |
| ActorRuntime.ExitStep | crates/core/tedge_actors/src/runtime.rs:198-219 | the main loop is left only by a shutdown, a closed channel or an actor failure, and then exactly the actors of the table are asked to shut down, once each |
| ActorRuntime.PhaseIs | crates/core/tedge_actors/src/runtime.rs:177-243 | the main loop goes on unless there is a shutdown, a closed channel or a pending task that ends with an error, its own or that of its join; the final wait ends by the timeout |
| ActorRuntime.TableIs | crates/core/tedge_actors/src/runtime.rs:187-271 | which tasks are pending, in the table and unjoined after a stimulus, and with which sender |
| ActorRuntime.ShutdownIsExact | crates/core/tedge_actors/src/runtime.rs:223-236 | whatever follows the exit: nobody else is asked, nothing is spawned and the recorded error stays |
| ActorRuntime.ErrorIffFailure | crates/core/tedge_actors/src/runtime.rs:233-236 | over every run: it ends with an error if and only if, in the main loop, a pending task ended with that error, its own or that of its join; and the main loop is left at every such stimulus |
| ActorRuntime.LogIsReports | crates/core/tedge_actors/src/runtime.rs:187-279 | over every run the log is the reports due: one start per spawn in the main loop, one stop or abort per pending task that ends before the end, none for a failed join |
| ActorRuntime.AbortedIff | crates/core/tedge_actors/src/runtime.rs:245-271 | over every run a task is logged as aborted with an error if and only if it was pending and ended with that error |
| ActorRuntime.SpawnedIsStarted | crates/core/tedge_actors/src/runtime.rs:187-197 | every actor spawned in the main loop is logged as started, under its name and the number of actors spawned before |
| ActorRuntime.RuntimeActor.constructor | crates/core/tedge_actors/src/runtime.rs:163-175 | nothing running, nothing reported |
| ActorRuntime.RuntimeActor.RunAll | crates/core/tedge_actors/src/runtime.rs:177-237 | the two loops take the actor to the state of the run and return its error |
| ActorRuntime.RuntimeActor.OnAction | crates/core/tedge_actors/src/runtime.rs:181-221 | each branch of the main select is a step of the run |
| ActorRuntime.RuntimeActor.HandleActorFinishing | crates/core/tedge_actors/src/runtime.rs:245-271 | the table, the log and the error to leave with are those of `Finish`, which `TableIs`, `AbortedIff` and `ErrorIffFailure` describe over runs |
| ActorRuntime.RuntimeActor.SendEvent | crates/core/tedge_actors/src/runtime.rs:273-279 | the event is appended to the log |
| ActorRuntime.RuntimeActor.ShutdownActors | crates/core/tedge_actors/src/runtime.rs:282-296 | the loop over the table asks each actor once |
| MqttConnection.RunKeepsInvariant | crates/common/mqtt_channel/src/connection.rs:205-351 | every interleaving keeps the permit hand-over, the order of the queue and the account of the messages |
| MqttConnection.GracefulClose | crates/common/mqtt_channel/src/connection.rs:205-351 | in every interleaving: at most one Disconnect, only after the sender loop is over and the receiver holds its permit; all publishes of the sender loop come before it in the queue, and at the end it has tried the submitted messages in order, then the last will |
| MqttConnection.EverythingQueuedUnlessErrors | crates/common/mqtt_channel/src/connection.rs:323-351 | without publish errors the queue holds the submitted messages in order, then the last will |
| MqttConnection.PublishesTakenBeforeDisconnect | crates/common/mqtt_channel/src/connection.rs:205-293 | once the client has taken the Disconnect it has taken every publish of the sender loop |
| MqttConnection.DisconnectDecidedWhenIdle | crates/common/mqtt_channel/src/connection.rs:217-228 | the disconnection is decided only by the check, with nothing in flight, the sender loop over and the permit taken; `DecidedIff` gives the converse |
| MqttConnection.DecidedIff | crates/common/mqtt_channel/src/connection.rs:214-228 | in every interleaving: a step decides to disconnect if and only if it is a check of the receiver loop with the permit taken and nothing in flight, and no earlier check decided |
| MqttConnection.CheckDecides | crates/common/mqtt_channel/src/connection.rs:214-228 | as long as no request to disconnect failed: such a check with no Disconnect queued or under way decides, with or without a last will |
| MqttConnection.DecisionIsFinal | crates/common/mqtt_channel/src/connection.rs:214-228 | no check decides a second time, even if the request failed |
| MqttConnection.ClosingIsPossible | crates/common/mqtt_channel/src/connection.rs:205-351 | from every reachable state in which the application closed its end, the receiver loop is not over and nothing is decided, some continuation queues exactly one Disconnect, for every last will |
| MqttConnection.SubmittedAreSubmissions | crates/common/mqtt_channel/src/connection.rs:323-351 | the messages taken in are those submitted before the inbox is closed, in order |
| MqttConnection.ReconnectionQueues | crates/common/mqtt_channel/src/connection.rs:257-287 | a reconnection queues the initial message, if any, and then the subscription, if needed |
| TopicFilters.MatchesReflexive | crates/common/mqtt_channel/src/topics.rs:160-164 | every pattern matches itself |
| TopicFilters.MatchesTransitive | crates/common/mqtt_channel/src/topics.rs:134-157 | what a pattern matches is matched by any pattern that matches the pattern, the `$` rule included |
| TopicFilters.MatchesIff | crates/common/mqtt_channel/src/topics.rs:120-124 | level by level: up to the first `#` of the filter each level is `+` or the same, only from a `#` on may the topic go on, and a leading wildcard does not meet a leading `$` |
| TopicFilters.MatchesIffIncludes | crates/common/mqtt_channel/src/topics.rs:160-164 | for valid filters a pattern accepts all the topics of another if and only if it matches it, or they are `+/#` and `#` |
| TopicFilters.UndetectedCover | crates/common/mqtt_channel/src/topics.rs:160-164 | `+/#` accepts whatever `#` accepts and is not seen to |
| TopicFilters.SimplifyPartitions | crates/common/mqtt_channel/src/topics.rs:134-157 | kept plus removed is the original list, as multisets |
| TopicFilters.SimplifyIsAntichain | crates/common/mqtt_channel/src/topics.rs:134-157 | no kept pattern matches another kept one |
| TopicFilters.SimplifyCovers | crates/common/mqtt_channel/src/topics.rs:134-157 | every original pattern is matched by a kept one |
| TopicFilters.SimplifyPreservesMeaning | crates/common/mqtt_channel/src/topics.rs:120-157 | for every list and topic the answer is the same before and after |
| TopicFilters.SimplifyKeepsSurvivors | crates/common/mqtt_channel/src/topics.rs:134-157 | kept are, in their order, exactly the patterns such that whatever matches them comes later and is matched by them too |
| TopicFilters.SimplifyStableIff | crates/common/mqtt_channel/src/topics.rs:134-157 | nothing is removed or reordered if and only if no pattern matches another |
| TopicFilters.SimplifyIdempotent | crates/common/mqtt_channel/src/topics.rs:134-157 | a second run removes nothing and keeps the order |
| TopicFilters.TopicFilter.RemoveOverlappingPatterns | crates/common/mqtt_channel/src/topics.rs:134-157 | the nested loops compute the simplification and change no answer of `accept_topic` |
| ConfigAliases.PathsSound | crates/common/tedge_config_macros/src/doku_aliases.rs:88-99 | every listed key is the dotted canonical path of a leaf |
| ConfigAliases.PathsComplete | crates/common/tedge_config_macros/src/doku_aliases.rs:88-99 | every leaf is listed under its canonical path |
| ConfigAliases.PathsExact | crates/common/tedge_config_macros/src/doku_aliases.rs:88-99 | the listed keys are exactly the dotted names of the leaves, each with the type of its leaf |
| ConfigAliases.AliasesSound | crates/common/tedge_config_macros/src/doku_aliases.rs:15-85 | every alias entry spells a canonical path with at least one alias and maps to that path |
| ConfigAliases.AliasesComplete | crates/common/tedge_config_macros/src/doku_aliases.rs:15-85 | every spelling that uses an alias has an entry |
| ConfigAliases.SpellingIsUnique | crates/common/tedge_config_macros/src/doku_aliases.rs:15-106 | with distinct names per level a spelling has one canonical path |
| ConfigAliases.PathInjective | crates/common/tedge_config_macros/src/doku_aliases.rs:4-12 | dot-free components can be read back from the dotted path, for every prefix |
| ConfigAliases.AliasMapExact | crates/common/tedge_config_macros/src/doku_aliases.rs:15-106 | the keys of the alias map are exactly the spellings with an alias, each mapped to its canonical path, which is a listed key |
| ConfigAliases.AliasesNeverShadowKeys | crates/common/tedge_config_macros/src/doku_aliases.rs:15-106 | no canonical key is in the alias map |
| KeyedTimers.StepRefines | crates/common/tedge_utils/src/timers.rs:39-84 | each operation on futures and status map is the same operation on a plain map from key to value and deadline |
| KeyedTimers.NeverEarlyIff | crates/common/tedge_utils/src/timers.rs:39-84 | in every run, no future could ever fire and return an entry before its deadline if and only if no start finds a pending future of its key, started at the same instant, with an earlier deadline |
| KeyedTimers.RunRefines | crates/common/tedge_utils/src/timers.rs:39-84 | over every run without such clashes the futures and status map refine the plain map |
| KeyedTimers.ReturnedIsLatestAndDue | crates/common/tedge_utils/src/timers.rs:69-84 | over every such run a returned entry is the latest of its key, is due, was not stopped, and is then gone |
| KeyedTimers.StartsAccountedFor | crates/common/tedge_utils/src/timers.rs:39-84 | in every run the starts of a key are its returns, its stops that found an entry, its replacements and the entry held |
| KeyedTimers.EachReturnHasItsOwnStart | crates/common/tedge_utils/src/timers.rs:69-84 | in every run a returned entry is that of the latest start of its key, not stopped since, and no start is returned twice |
| KeyedTimers.ClashReturnsEarly | crates/common/tedge_utils/src/timers.rs:69-84 | two starts of one key at one instant: the value is returned before its deadline |
| KeyedTimers.Timers.constructor | crates/common/tedge_utils/src/timers.rs:26-31 | no timer |
| KeyedTimers.Timers.StartTimer | crates/common/tedge_utils/src/timers.rs:39-45 | the entry is replaced and a future added |
| KeyedTimers.Timers.StopTimer | crates/common/tedge_utils/src/timers.rs:47-51 | the entry is dropped and its value returned, the future stays |
| KeyedTimers.Timers.CurrentValue | crates/common/tedge_utils/src/timers.rs:53-57 | the value of the plain map, whichever map is refined |
| KeyedTimers.Timers.NextTimedOutEntry | crates/common/tedge_utils/src/timers.rs:69-84 | futures complete in an order of the environment until one is live: the others returned nothing; none is returned only when all are gone and the plain map is empty; the loop ends |
| Downloading.WriteExtends | crates/common/download/src/download.rs:408-419 | writing a piece of the resource at the cursor extends the correct prefix, over preallocated space or not |
| Downloading.ResumeCorrectIff | crates/common/download/src/download.rs:201-268 | resuming at a position gives the resource if and only if the file, preallocated or not, holds the resource between what is known to be right and that position |
| Downloading.RangeStartIs | crates/common/download/src/download/partial_response.rs:14-34 | a partial response starts where its header says, any other success at the beginning, and there is no start exactly if that header is missing or the status is no success |
| Downloading.SaveChunksToFileAt | crates/common/download/src/download.rs:408-419 | saved means the file is the resource; a network error leaves a correct prefix up to the cursor, which is where the response broke off |
| Downloading.Downloader.RequestRangeFrom | crates/common/download/src/download.rs:364-391 | the first answer after transient failures only; it fails on a permanent failure, or when the backoff or patience gives up |
| Downloading.Downloader.Download | crates/common/download/src/download.rs:135-194 | for every pattern of failures: on success the destination is the resource, else it is untouched and the last request, its response or the disk is to blame; the requests start at the beginning, are repeated after transient failures, and after a response that broke off go on from there, or from the beginning if the first response does not offer byte ranges |
| Downloading.Downloader.SaveAll | crates/common/download/src/download.rs:160-181 | saves the first response and, after a network error, goes on by ranges if and only if it offers them |
| Downloading.Downloader.TryPreAllocateSpace | crates/common/download/src/download.rs:431-459 | fails if the disk fails or is too full, and otherwise at most extends the file with zeros |
| Downloading.Downloader.DownloadRemaining | crates/common/download/src/download.rs:201-238 | for every pattern of interruptions, resumes and restarts: on success the file is the resource; each request goes on where the last response broke off |
| Downloading.Downloader.Retry | crates/common/download/src/download.rs:245-268 | on success the file is the resource; each request starts at the beginning |
| JsonWriting.ParseOfPrint | crates/common/json_writer/src/lib.rs:32-80 | reading back what is printed for a tree of objects, strings and finite numbers gives the tree and what follows it |
| JsonWriting.PrintOfParse | crates/common/json_writer/src/lib.rs:32-80 | whatever the object grammar of section 4 of RFC 8259 accepts is what is printed for some tree: the output is exactly the grammar |
| JsonWriting.PrintIsPrefixFree | crates/common/json_writer/src/lib.rs:32-80 | two different trees never give the same tokens, whatever follows them |
| JsonWriting.JsonWriter.MaybeSeparate | crates/common/json_writer/src/lib.rs:75-80 | a comma if one is due, and then none is due |
| JsonWriting.JsonWriter.WriteKey | crates/common/json_writer/src/lib.rs:32-38 | the comma due, the key and a colon; no comma is due |
| JsonWriting.JsonWriter.WriteStr | crates/common/json_writer/src/lib.rs:40-45 | the comma due and the string; a comma is due |
| JsonWriting.JsonWriter.WriteF64 | crates/common/json_writer/src/lib.rs:47-59 | a finite number after the comma due; any other number is refused with its value, after the comma |
| JsonWriting.JsonWriter.WriteOpenObj | crates/common/json_writer/src/lib.rs:61-64 | the comma due and a brace; no comma is due |
| JsonWriting.JsonWriter.WriteCloseObj | crates/common/json_writer/src/lib.rs:66-69 | a brace; a comma is due |
| JsonWriting.JsonWriter.WriteValue | crates/common/json_writer/src/lib.rs:32-80 | driving the writer over any tree appends exactly its printed tokens, or fails if and only if a number is not finite |
| JsonWriting.JsonWriter.WriteMembers | crates/common/json_writer/src/lib.rs:32-80 | the same for the members of an object, with commas only between them |
| SoftwareUpdates.ItemRoundTrip | crates/core/tedge_api/src/software.rs:34-69 | an update that was normalised, stored as an item of its type and read back is the same, but for its file path |
| SoftwareUpdates.CommandReadBack | crates/core/tedge_api/src/commands.rs:450-530 | reading a command type by type and adding the updates to a new command builds the same command |
| SoftwareUpdates.UpdatesForAreRouted | crates/core/tedge_api/src/commands.rs:450-530 | in a command built by additions the updates of a type are exactly the normalised updates of that type, in request order, without file path |
| SoftwareUpdates.TypesListedOnce | crates/core/tedge_api/src/commands.rs:489-497 | the types listed are those of the updates, each once |
| SoftwareUpdates.NoUpdateLostOrRepeated | crates/core/tedge_api/src/commands.rs:450-530 | the updates of all listed types together are the added updates, as multisets |
| SoftwareUpdates.SoftwareUpdateCommand.AddUpdate | crates/core/tedge_api/src/commands.rs:450-474 | the normalised update joins the first group of its type, or starts one |
| SoftwareUpdates.SoftwareUpdateCommand.GetModuleTypes | crates/core/tedge_api/src/commands.rs:489-497 | the types in group order |
| SoftwareUpdates.SoftwareUpdateCommand.GetUpdatesFor | crates/core/tedge_api/src/commands.rs:499-530 | the updates of the first group of the type |
| SoftwareUpdates.SoftwareUpdateCommand.AddErrors | crates/core/tedge_api/src/commands.rs:532-543 | the type is reported with the words of its errors and the items they are about |
| SoftwareUpdates.FailedModuleIsReported | crates/core/tedge_api/src/commands.rs:622-638 | a failed installation or removal becomes one item with the name, version and URL of the module, its action and the reason |
| SoftwareUpdates.UnknownTypeIsReported | crates/core/tedge_api/src/commands.rs:639-659 | a type without plugin becomes one item per update, in order, with its action |
| SoftwareUpdates.ErrorsAreReportedInOrder | crates/core/tedge_api/src/commands.rs:532-543 | the items of several errors are those of each, in order |
| SoftwareUpdates.ActionlessIsSkipped | crates/core/tedge_api/src/commands.rs:515-526 | an item without action is no update |
| SoftwareUpdates.TrimIs | crates/core/c8y_api/src/json_c8y_deserializer.rs:338-366 | the trimmed text is the one part that has only white space around it and neither begins nor ends with white space |
| C8yTranslation.RSplitOnce | crates/core/c8y_api/src/json_c8y_deserializer.rs:338-366 | the parts around the last separator put together again give the string |
| C8yTranslation.SplitsAtTheLast | crates/core/c8y_api/src/json_c8y_deserializer.rs:338-366 | no separator starts later than the one split at, and there is none if there is no split |
| C8yTranslation.SplitVersionReadsBack | crates/core/c8y_api/src/json_c8y_deserializer.rs:350-365 | a version and a type around the last separator are read back, the empty ones as absent |
| C8yTranslation.VersionFormExact | crates/core/c8y_api/src/json_c8y_deserializer.rs:338-366 | the type a module comes with and its trimmed version; else exactly the parts around the last separator of the trimmed version, or a version only; `TranslationIsExact` says when a module comes with a type |
| C8yTranslation.DescriptionIs | crates/core/c8y_api/src/json_c8y_deserializer.rs:338-366 | if some character of the type a module comes with is not white space, that is its type and the trimmed version, unless empty, its version; else both come from the trimmed version, around its last separator |
| C8yTranslation.TranslationIsExact | crates/core/c8y_api/src/json_c8y_deserializer.rs:210-374 | the update, the type and the item that a module stands for are determined by its fields: type and version as described, the URL unless it is all white space, none for the removal of the command, and the action; both translations give just these |
| C8yTranslation.TranslatedIsNormalIff | crates/core/c8y_api/src/json_c8y_deserializer.rs:338-374 | a translated update has neither an empty version nor a blank URL: it is in normal form if and only if its type is not spelled `default` |
| C8yTranslation.ModuleAgreesIff | crates/core/c8y_api/src/json_c8y_deserializer.rs:210-366 | both translations give a module the same type, and the same item if and only if it is not a delete with a URL |
| C8yTranslation.SameFailure | crates/core/c8y_api/src/json_c8y_deserializer.rs:210-334 | both translations fail if and only if some action is invalid, and on the first such action |
| C8yTranslation.TranslationsAgreeIff | crates/core/c8y_api/src/json_c8y_deserializer.rs:210-374 | both give the same result if and only if some action is invalid or no delete carries a URL |
| C8yTranslation.DeleteWithUrlDiffers | crates/core/c8y_api/src/json_c8y_deserializer.rs:210-334 | a delete with a URL on which they differ |
| C8yTranslation.CommandIsBuilt | crates/core/c8y_api/src/json_c8y_deserializer.rs:301-334 | the software-update translation is a command built by additions |
| C8yTranslation.ToSoftwarePayload | crates/core/c8y_api/src/json_c8y_deserializer.rs:210-257 | the grouping loop of the device-profile translation computes `ProfileOf` |
| C8yTranslation.IntoSoftwareUpdateCommand | crates/core/c8y_api/src/json_c8y_deserializer.rs:301-334 | the loop of the software-update translation computes `CommandOf` |
| SoftwarePlugins.LookupEndsIff | crates/core/plugin_sm/src/plugin_manager.rs:55-76 | the lookup of a type ends if and only if it is not the default type with the literal `default` configured as default; three nested calls are then enough |
| SoftwarePlugins.ResolveIs | crates/core/plugin_sm/src/plugin_manager.rs:55-76 | the plugin of that name; for the default type the plugin with the configured name, or, without one configured, the only plugin there is; else none |
| SoftwarePlugins.RefusedIff | crates/core/plugin_sm/src/plugin.rs:357-367 | a module is refused if and only if it has a type that is neither the name of the plugin nor `default` |
| SoftwarePlugins.SmPathIs | crates/core/plugin_sm/src/plugin.rs:617-637 | the file of an artefact is the sanitized name and version around an underscore, and holds no slash |
| SoftwarePlugins.SanitizeCharIs | crates/core/plugin_sm/src/plugin.rs:627-637 | a letter, digit or one of four marks stays, and any other character becomes its lowest byte in hexadecimal |
| SoftwarePlugins.CircularLookupNeverEnds | crates/core/plugin_sm/src/plugin_manager.rs:55-76 | in that case no depth of recursion is enough |
| SoftwarePlugins.RoutedNeverRefused | crates/core/plugin_sm/src/plugin.rs:357-367 | no update routed to a plugin is refused for its type |
| SoftwarePlugins.FinalizeOnceIffPrepared | crates/core/plugin_sm/src/plugin.rs:93-168 | finalize is called once if prepare succeeded, else not at all |
| SoftwarePlugins.ArtefactsOnce | crates/core/plugin_sm/src/plugin.rs:93-168 | each artefact is downloaded at most once, only for an update with a URL, and cleaned at most once, only if downloaded |
| SoftwarePlugins.CleanedExactlyIfDownloaded | crates/core/plugin_sm/src/plugin.rs:93-168 | a download succeeded if and only if its artefact is cleaned, once |
| SoftwarePlugins.NoUpdateAfterFailedDownload | crates/core/plugin_sm/src/plugin.rs:93-168 | after a failed download nothing is installed, removed or updated |
| SoftwarePlugins.NothingAppliedUnlessReady | crates/core/plugin_sm/src/plugin.rs:93-168 | nothing is installed, removed or updated unless prepare and every attempted download succeeded |
| SoftwarePlugins.CallsOnceReady | crates/core/plugin_sm/src/plugin.rs:93-168 | once they did, the plugin is offered the whole list, each update with the file its download went to; if it does not support lists it gets the same updates one by one, in order; then come finalize and the cleanup of all that was downloaded |
| PluginMeaning.CallsMeanIt | crates/core/plugin_sm/src/plugin.rs:93-168 | whatever each call ends like: prepare; unless it fails, the downloads of the updates with a URL in order up to the first failure; if all succeed, one offer of the whole list with its files, and only if that is answered with not supported one install or remove per update, in order; finalize; and the cleanup of what was downloaded |
| PluginMeaning.MeaningIsExact | crates/core/plugin_sm/src/plugin.rs:93-168 | that description fits one list of calls only: the one made |
| PluginMeaning.NoErrorsMeansApplied | crates/core/plugin_sm/src/plugin.rs:93-168 | if no error is reported for a type, each of its updates was in a call that ended well |
| PluginMeaning.ErrorsTellIt | crates/core/plugin_sm/src/plugin.rs:93-168 | the errors reported are those of the calls that did not end well, in order, and no others |
| SoftwarePlugins.CleanupAfterFinalize | crates/core/plugin_sm/src/plugin.rs:93-168 | every cleanup comes after finalize |
| SoftwarePlugins.NoErrorsIff | crates/core/plugin_sm/src/plugin.rs:93-168 | no error is reported if and only if every call that counts ended well |
| SoftwarePlugins.Session.ApplyAll | crates/core/plugin_sm/src/plugin.rs:93-168 | for every outcome of the plugin calls the calls made are `Calls` and the errors returned those of the calls |
| SoftwarePlugins.Session.DownloadAll | crates/core/plugin_sm/src/plugin.rs:107-132 | downloads in order up to the first failure, each to the file of its module and version; the files are set if all succeed |
| SoftwarePlugins.Session.UpdateAll | crates/core/plugin_sm/src/plugin.rs:135-151 | the update list, and then one call per module if and only if the plugin answers that it does not support lists, as `MeaningIsExact` describes |
| SoftwarePlugins.Session.Apply | crates/core/plugin_sm/src/plugin.rs:60-88 | one call to the plugin, or an installation from the URL |
| SoftwarePlugins.FromUrlCleansUpIff | crates/core/plugin_sm/src/plugin.rs:170-192 | installing from a URL downloads the artefact once and cleans it up once, last, if and only if the download succeeded |
| SoftwarePlugins.FromUrlOkIff | crates/core/plugin_sm/src/plugin.rs:170-192 | it is reported as successful if and only if each of its calls succeeded |
| Artefacts.OwnFileIff | crates/core/plugin_sm/src/plugin.rs:194-241 | each update with a URL is handed the file its own artefact is in if and only if no later update with a URL goes to the same file |
| Artefacts.SharedFile | crates/core/plugin_sm/src/plugin.rs:617-637 | two modules with different names whose artefacts go to the same file |
| Artefacts.InstalledFromAnother | crates/core/plugin_sm/src/plugin.rs:107-132 | with these two, the first is handed the artefact of the second |
| Artefacts.NothingLeftBehind | crates/core/plugin_sm/src/plugin.rs:93-168 | whatever the calls end like, and even if files are shared, no artefact is left on disk |
| UpdateProcessing.RunsFollowTypes | crates/core/plugin_sm/src/plugin_manager.rs:251-287 | each listed type is looked up once, in order, with its own updates |
| UpdateProcessing.EachTypeGetsItsUpdates | crates/core/plugin_sm/src/plugin_manager.rs:245-287 | in a command built by additions each type gets exactly its updates, and its plugin refuses none of them |
| UpdateProcessing.SuccessfulIff | crates/core/plugin_sm/src/plugin_manager.rs:251-302 | the command is reported successful, and without failures, if and only if for each type a plugin was found and each of its calls that counts ended well |
| CommandMeaning.SuccessMeansApplied | crates/core/plugin_sm/src/plugin_manager.rs:245-287 | if a command built by additions is reported successful, each of its updates, normalised and with its file, was in a call to the plugin of its type, made for that type, that ended well |
| CommandMeaning.StatusIs | crates/core/plugin_sm/src/plugin_manager.rs:282-304 | successful if no type has errors; else failed with the errors of the only such type, or with the number of such types, and the log file if there is one |
| CommandMeaning.FailuresAreReported | crates/core/plugin_sm/src/plugin_manager.rs:270-280 | exactly the types with errors are reported, in order, each with its errors in words and their items |
| UpdateProcessing.UnknownTypeFailsAsAWhole | crates/core/plugin_sm/src/plugin_manager.rs:257-272 | a type without plugin is reported with all its updates, and no call is made for it |
| UpdateProcessing.CloudRequestReachesPlugins | crates/core/c8y_api/src/json_c8y_deserializer.rs:301-334 | for a Cumulocity list with valid actions each type of the translated command is looked up once, and its plugin gets exactly the modules of that type, in order, and refuses none |
| UpdateProcessing.Process | crates/core/plugin_sm/src/plugin_manager.rs:245-302 | the response keeps the request, reports each failing type with its errors, and is successful or says why it is not |

## Left out

- BatchDriving: a receiver that is gone stays gone, so that a parameter says how many messages it takes.
- Batching: events at the shared endpoint of two windows are filed in the first one; that a duplicate could be in the other one is not modelled as an error, because the source does not promise it.
- MqttConnection: the bias of the select and the second loop of the receiver are over-approximated by arbitrary interleavings; that closing implies delivery is not claimed, because a reconnection without subscriptions leaves the loop.
- ActorRuntime.RuntimeActor.SendEvent: does not model the optional event channel and its failures; the log is what would be sent.
- ActorRuntime: the loop that waits for actors is a list of stimuli of any length, with the clean-up timeout as one of them.
- Downloading.Downloader.RequestRangeFrom: bounds the number of requests by a patience that is a parameter; every finite run has such a bound. How long the backoff waits is not modelled, only that it may give up.
- Downloading: the flags of `Disk` and the list of requests of `Downloader` record what happened and have no counterpart in the source.
- SoftwareUpdates.UpdatesForAreRouted: does not cover commands received with several groups of one type; headers and authentication of a download URL are not modelled.
- UpdateProcessing.Process: requires that no listed type has a circular lookup, on which the source does not return. The words of an error are a parameter, and the command log is only named.
- SoftwarePlugins.Session.ApplyAll: does not model writing the command log; a failure to write it is one of the ways a call may end.
- Artefacts: a file that the operating system refuses to remove; the source ignores that.
- SoftwarePlugins: the lookup by file extension.
- TopicFilters.SimplifyPartitions: does not say in which order the removed patterns are returned.
- TopicFilters: the quality of service of a filter, and adding patterns one by one.
- JsonWriting: how a number or a string is rendered inside its token.
- The internals of rumqttc, tokio, reqwest and serde.
- TLS, certificates, the HTTPS acceptor, the uploader, remote access and the apt plugin: they are plumbing around foreign libraries.
- File permissions, atomic writes, lock files and file-system notification: the operating system carries their guarantees.
- Command lines, configuration loading, error texts, and the conversion of alarms, events and health messages: no guarantee of theirs spans more than one function.
