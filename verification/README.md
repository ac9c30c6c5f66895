# Temporal SDK: verified models of the stateful core

Dafny models of the parts of this repository (the Temporal Rust core and the native converter built on
it) whose correctness depends on more than one call, with proofs over every input, every sequence of
calls or every interleaving. `dafny verify dfyconfig.toml` checks all of it.

## What is modelled

- **Slot permits** (`PermitSteps`, `PermitCalls`, `PermitAtomicity`): the metered dealer that hands out
  task slots and counts them. `PermitSteps` takes one step per atomic access, with any number of named
  callers and permits; `PermitCalls` is the same code as objects whose calls are not interrupted;
  `PermitAtomicity` shows that uninterrupted steps are those calls.
- **Closing the dealer** (`CloseSteps`, `CloseThreads`): the shutdown protocol around a flag, a counter
  and a cancellation token. `CloseThreads` names every caller, `CloseSteps` only counts them, and each
  simulates the other.
- **Histories** (`HistoryEvents`, `HistoryInfo`, `HistoryPages`, `HistoryBuilder`): the validator that
  cuts a history at a workflow task, the incremental pages made from it, and the builder that scripts
  histories.
- **Internal flags** (`InternalFlags`): which behaviour flags a worker may use, recorded in task
  completions and recovered by replay. The model runs live workers, hand-offs and later replays.
- **Retries** (`ClientRetry`, `ActivityRetry`): the gRPC error handler as a state machine over the errors
  of a call, and the delay of a retried local activity with its overflows and casts.
- **Payload conversion** (`Base64`, `Json`, `Converter`): the chain of three converters, canonical JSON,
  and the depth limit.
- **Workflow cache** (`WorkflowCache`): the poll loop and the future joiner that share the cache and a
  notification.
- **Worker registry** (`WorkerRegistry`): two maps that must stay inverse to each other.

`Common` and `Census` hold an option type and a small theory of counting map entries.

## Where the code does less than it says

Each of these has a lemma that shows the failure and one that states exactly when it happens.

- The closable dealer's comment says that close completes when all permits have been returned, and that
  none is handed out afterwards. Both hold in every interleaving exactly when no acquire is between its
  check of the flag and its outcome when the flag is stored (`NamedCloseSoundIff`, `CloseCanBeLost`,
  `CloseCanBeEarly`).
- The comment on the permit limit calls it a maximum. The check and the count are separate steps, so with
  n callers the exact maximum is the limit plus n - 1 (`LimitUnderConcurrency`, `BoundIsReached`,
  `LimitHoldsIffSingleCaller`).
- Incremental pages rebuild the history exactly when no completion is stray (`PagesRebuildIff`, `PageLaw`,
  `StrayCompletionBreaksPages`); the validator does not reject stray completions.
- The end of the validator marked unreachable is never reached when event ids increase (`ValidatorSpec`),
  but a repeated last id reaches it (`UnreachableIff`, `UnreachableIsReachableWithoutIncreasingIds`).
- A builder read back from its events agrees with the one that wrote them as long as workflow task events
  go through the methods named after them (`RescanAgrees`); the generic call breaks the agreement
  (`RescanStep`, `UnnamedTaskEventBreaksTheCache`).
- The activity delay is the capped geometric one except where zero is multiplied by an overflowed power or
  the cap has cut into a shrinking delay (`CappedBackoffLaw`, `ZeroTimesInfinityHappens`,
  `ShrinkingCutHappens`), and except where the 32-bit exponent is negative or wraps before the maximum is
  reached (`NegativeExponentBreaksLaw`, `LawBeyond32Bits`, `AttemptZeroWaitsHalf`). The first delay is not
  capped, so the maximum holds for all attempts only if the initial interval respects it (`CapHoldsIff`,
  `InitialAboveMaximumHappens`).

## What is given from outside

Parameters of the model rather than part of it: the clock and the backoff library's answers
(`Answers`), whether the slot supplier has a slot (`hasSlot`), the caller's retry short-circuit
(`Predicate`), the standard library's lower-casing (`lower`), where the finite floating-point numbers
end (`Overflow`, anything from 2 to the 94 on, so that the laws hold of doubles), and the JSON printer and parser
(`Codec`). Of the last two nothing is supposed in general: results that depend on them say so of the
value at hand (`ReadsBack`).

## Model

| member | source | states |
|---|---|---|
| CloseThreads.NamedCloseSoundIff | sdk-core/core/src/abstractions.rs:265-316 | From every reachable state, a close is sound in every later interleaving of any number of named callers if and only if no acquire is in flight when the flag is stored. Sound: the token is cancelled only once no tracked permit is left, and always by the time every caller has finished and every permit is back. |
| CloseThreads.SafeRuns | sdk-core/core/src/abstractions.rs:276-316 | With no acquire in flight, every interleaving after the flag is stored is sound. |
| CloseThreads.LosingRun | sdk-core/core/src/abstractions.rs:276-316 | With an acquire in flight there is an interleaving that is not sound. |
| CloseThreads.NamedRunIsSound | sdk-core/core/src/abstractions.rs:276-316 | Every step after a safe close keeps it sound, over runs of any length. |
| CloseThreads.NamedStepIsCounted | sdk-core/core/src/abstractions.rs:276-316 | Forgetting which caller is where turns each step of the named machine into the same step of the counting machine. |
| CloseThreads.CountedStepIsNamed | sdk-core/core/src/abstractions.rs:276-316 | Each step the counting machine can take, some named caller can take: the two machines simulate each other. |
| CloseThreads.NameRun | sdk-core/core/src/abstractions.rs:276-316 | Every run of the counting machine is the shadow of a run of named callers. |
| CloseThreads.NamedCounts | sdk-core/core/src/abstractions.rs:289-316 | Over every run of named callers the count stays exact. |
| CloseSteps.CountIsExact | sdk-core/core/src/abstractions.rs:289-316 | Over every interleaving `outstanding_permits` equals the acquirers and tracked permits it stands for, so it never underflows; before a close nothing that only a close causes has happened. |
| CloseSteps.ClosingIsKept | sdk-core/core/src/abstractions.rs:276-316 | After a close with no acquire in flight: no new acquire starts, the token is cancelled only when no tracked permit is left, and a pending cancellation is never forgotten. |
| CloseSteps.CloseCanBeLost | sdk-core/core/src/abstractions.rs:289-316 | From every uncancelled closing state with an acquire in flight and no cancellation under way, an interleaving ends with every permit back, everyone finished and the token never cancelled. |
| CloseSteps.CloseCanBeEarly | sdk-core/core/src/abstractions.rs:276-304 | With an acquirer past the flag check and a count of 0, an interleaving cancels the token and then hands out a tracked permit. |
| CloseSteps.RunsAreBounded | sdk-core/core/src/abstractions.rs:276-316 | Calls in progress finish: the steps of a run without new calls are bounded by the work left at its start. |
| CloseSteps.CloseCompletes | sdk-core/core/src/abstractions.rs:276-316 | After a close with no acquire in flight, every run that can go no further has cancelled the token. |
| PermitSteps.PermitsAreConserved | sdk-core/core/src/abstractions.rs:90-162 | Over every interleaving of acquire, use and drop: both counters equal the permits in the phases they count, they never go negative, and each permit is released at most once. |
| PermitSteps.ConservedStep | sdk-core/core/src/abstractions.rs:120-162 | One atomic step of any caller or permit keeps the conservation law. |
| PermitSteps.CountersAtRest | sdk-core/core/src/abstractions.rs:354-382 | When no call is half way, `extant` counts exactly the live permits, `unused` those not yet used, and the releases the ones dropped. |
| PermitSteps.LimitUnderConcurrency | sdk-core/core/src/abstractions.rs:103-162 | Over every interleaving the permits in existence stay within the limit less one plus the number of callers. |
| PermitSteps.BoundIsReached | sdk-core/core/src/abstractions.rs:103-162 | For every positive limit and every non-empty set of callers an interleaving reaches that bound exactly. |
| PermitSteps.SingleCallerKeepsLimit | sdk-core/core/src/abstractions.rs:35-40 | With one caller the limit is never exceeded. |
| PermitSteps.LimitHoldsIffSingleCaller | sdk-core/core/src/abstractions.rs:35-40 | For a positive limit: it holds in every interleaving if and only if at most one caller acquires. |
| PermitCalls.MeteredPermitDealer.constructor | sdk-core/core/src/abstractions.rs:61-78 | A new dealer has no permits and satisfies the ledger invariant. |
| PermitCalls.MeteredPermitDealer.TryAcquireOwned | sdk-core/core/src/abstractions.rs:103-162 | Grants a fresh permit if and only if the supplier has a slot and there is no limit or fewer permits are live than it allows; otherwise nothing changes; the ledger invariant is kept. |
| PermitCalls.MeteredPermitDealer.IntoUsed | sdk-core/core/src/abstractions.rs:370-382 | The permit stops counting as unused, stays live and records its use; the invariant is kept. |
| PermitCalls.MeteredPermitDealer.DropPermit | sdk-core/core/src/abstractions.rs:354-361 | The permit is released and uncounted, whether used or not; the invariant is kept. |
| PermitCalls.ClosableMeteredPermitDealer.constructor | sdk-core/core/src/abstractions.rs:256-263 | The wrapper starts open with nothing tracked. |
| PermitCalls.ClosableMeteredPermitDealer.Close | sdk-core/core/src/abstractions.rs:276-281 | Stores the flag and cancels at once exactly when nothing is outstanding. |
| PermitCalls.ClosableMeteredPermitDealer.TryAcquireOwned | sdk-core/core/src/abstractions.rs:289-304 | Grants a fresh tracked permit if and only if close was not requested and the inner dealer has a slot and room; otherwise the count is back where it was. |
| PermitCalls.ClosableMeteredPermitDealer.OnPermitDropped | sdk-core/core/src/abstractions.rs:306-316 | Uncounts the permit; the last one back after a close cancels the token. |
| PermitCalls.ClosableMeteredPermitDealer.DropTracked | sdk-core/core/src/abstractions.rs:335-361 | Dropping a tracked permit uncounts it in the wrapper and releases it in the inner dealer. |
| PermitCalls.ClosableMeteredPermitDealer.IntoOwned | sdk-core/core/src/abstractions.rs:327-334 | Conversion to an owned permit uncounts it in the wrapper while the inner dealer keeps it live. |
| PermitCalls.CallKeepsOk | sdk-core/core/src/abstractions.rs:256-339 | Each call keeps the wrapper invariant: the count is the number of tracked permits, all live in the dealer, and after a close the token is cancelled exactly when none is left. |
| PermitCalls.CallsKeepOk | sdk-core/core/src/abstractions.rs:256-339 | So does every sequence of calls; a close is never undone, a cancelled token stays cancelled, and no permit is tracked anew after a close. |
| PermitCalls.GrantedIff | sdk-core/core/src/abstractions.rs:103-114 | The check passes if and only if there is a slot and the live permits are fewer than the limit. |
| PermitCalls.LimitIsReached | sdk-core/core/src/abstractions.rs:103-162 | For every limit some sequence of calls has exactly that many permits live, and the next acquire is refused. |
| PermitAtomicity.AcquireIsAtomic | sdk-core/core/src/abstractions.rs:103-162 | The steps of an acquire, taken without interruption, have the effect of the acquire call. |
| PermitAtomicity.CheckPassesIffGranted | sdk-core/core/src/abstractions.rs:103-114 | At rest a caller passes the limit check of the steps if and only if the call grants a permit. |
| PermitAtomicity.RefusalIsAtomic | sdk-core/core/src/abstractions.rs:103-114 | A caller that passes the check and gets no slot leaves everything as it was. |
| PermitAtomicity.UseIsAtomic | sdk-core/core/src/abstractions.rs:370-382 | The same for marking a permit as used. |
| PermitAtomicity.DropIsAtomic | sdk-core/core/src/abstractions.rs:354-361 | The same for dropping a permit. |
| PermitAtomicity.CloseIsAtomic | sdk-core/core/src/abstractions.rs:276-281 | The same for a close, in both outcomes of its count check. |
| PermitAtomicity.TrackedAcquireIsAtomic | sdk-core/core/src/abstractions.rs:289-304 | The same for a tracked acquire: turned away, refused or granted. |
| PermitAtomicity.UntrackIsAtomic | sdk-core/core/src/abstractions.rs:306-316 | The same for the return of a tracked permit, in all its branches. |
| HistoryInfo.NewFromHistory | sdk-core/sdk-core-protos/src/history_info.rs:29-120 | The loop over events, on every input, gives the outcome of the validator that the lemmas below characterize; every error and the unreachable end are outcomes. |
| HistoryInfo.ValidatorSpec | sdk-core/sdk-core-protos/src/history_info.rs:29-120 | On a history with increasing ids: accepted if and only if the requested task exists, or the history can be read to its end, with no broken started event before the cut; the unreachable line and the equal-ids error never happen. |
| HistoryInfo.CutAtNthTask | sdk-core/sdk-core-protos/src/history_info.rs:64-97 | Asking for task n gives the events up to the start of the n-th task that is completed or trailing, with that start's id and the id of the start numbered n - 1. |
| HistoryInfo.LastTaskIsPrevious | sdk-core/sdk-core-protos/src/history_info.rs:71-90 | The previous started id is that of task n - 1: abandoned tasks in between do not count. |
| HistoryInfo.ReadToTheEnd | sdk-core/sdk-core-protos/src/history_info.rs:99-117 | Without a task limit, or with one past the end, the history is accepted whole if it ends in a started event or a final event or no limit was given, and rejected otherwise. |
| HistoryInfo.BrokenIsRejected | sdk-core/sdk-core-protos/src/history_info.rs:64-97 | The first started event before the cut that is followed by anything but its completion, failure or timeout or the end of the execution is reported, with the event after it. |
| HistoryEvents.FinalTypes | sdk-core/sdk-core-protos/src/lib.rs:2246-2256 | Exactly six event types end an execution. |
| HistoryEvents.AbandoningTypes | sdk-core/sdk-core-protos/src/history_info.rs:61-69 | A started workflow task is given up by exactly four event types. |
| HistoryInfo.RepeatIsRejected | sdk-core/sdk-core-protos/src/history_info.rs:71-79 | A task that repeats the id of the one before it is rejected with that id. |
| HistoryInfo.HeaderIsDemanded | sdk-core/sdk-core-protos/src/history_info.rs:29-52 | An empty history, a first event that does not start an execution, and one without a workflow type are each rejected with their own error. |
| HistoryInfo.HeaderIsReported | sdk-core/sdk-core-protos/src/history_info.rs:39-52 | An accepted history reports the workflow type and the attributes of its first event. |
| HistoryInfo.TailIsIrrelevant | sdk-core/sdk-core-protos/src/history_info.rs:54-97 | The answer for task n depends on nothing after the event that follows its start. |
| HistoryInfo.UnreachableIsReachableWithoutIncreasingIds | sdk-core/sdk-core-protos/src/history_info.rs:74-119 | Without increasing ids the line marked unreachable is reached: a concrete history shows it. |
| HistoryInfo.UnreachableIff | sdk-core/sdk-core-protos/src/history_info.rs:99-119 | Whatever the ids, the line marked unreachable is reached if and only if an unbroken history without the requested task ends on neither a start nor a final event and its last id repeats that of its latest task. |
| HistoryInfo.NthTaskExists | sdk-core/sdk-core-protos/src/history_info.rs:54-118 | Every task number up to the count names an event. |
| HistoryInfo.NthTaskUnique | sdk-core/sdk-core-protos/src/history_info.rs:54-118 | It names only one. |
| HistoryPages.LastCompleted | sdk-core/sdk-core-protos/src/history_info.rs:125-130 | The position found is a completed event and no later one is. |
| HistoryPages.ValidatedHistory.constructor | sdk-core/sdk-core-protos/src/history_info.rs:13-27 | Holds the validated history it is given. |
| HistoryPages.ValidatedHistory.MakeIncremental | sdk-core/sdk-core-protos/src/history_info.rs:125-132 | Keeps only the events from the last completion on and nothing else changes; it fails, changing nothing, exactly when there is no completion. |
| HistoryPages.PageLaw | sdk-core/sdk-core-protos/src/history_info.rs:122-132 | The history up to task n - 1 followed by the incremental page of task n is the history up to task n if and only if no completion lies between the two tasks other than the one that completes the first. |
| HistoryPages.PageIsSlice | sdk-core/sdk-core-protos/src/history_info.rs:125-132 | The page of a workflow task is the slice from the completion of its predecessor to its own start. |
| HistoryPages.ConsecutiveTasks | sdk-core/sdk-core-protos/src/history_info.rs:122-132 | When every completion follows a start, no stray completion lies between consecutive tasks. |
| HistoryPages.AcceptedIsUnbroken | sdk-core/sdk-core-protos/src/history_info.rs:64-97 | Asking for an existing task is accepted exactly when no broken start comes before it. |
| HistoryPages.PagesLength | sdk-core/sdk-core-protos/src/history_info.rs:122-132 | By induction over tasks: the pages are never longer than the history, and as long exactly when nothing was lost to a stray completion. |
| HistoryPages.PagesRebuildIff | sdk-core/sdk-core-protos/src/history_info.rs:122-132 | For every task number the validator accepts: the pages put one after the other are the history up to it if and only if no stray completion lies between two consecutive tasks. |
| HistoryPages.PagesRebuildHistory | sdk-core/sdk-core-protos/src/history_info.rs:122-132 | Where each completion directly follows a start in the kept events, the pages of tasks 1 to n, put one after the other, are the history up to task n, for every n the validator accepts, whatever comes after the cut. |
| HistoryPages.LastPageCompletesHistory | sdk-core/sdk-core-protos/src/history_info.rs:99-132 | For a finished workflow one more page completes the whole history. |
| HistoryPages.StrayCompletionBreaksPages | sdk-core/sdk-core-protos/src/history_info.rs:125-132 | A concrete valid history whose pages do not add up. |
| HistoryBuilder.TestHistoryBuilder.constructor | sdk-core/sdk-core-protos/src/history_builder.rs:32-48 | An empty builder. |
| HistoryBuilder.TestHistoryBuilder.BuildAndPushEvent | sdk-core/sdk-core-protos/src/history_builder.rs:591-611 | Appends one event under the next id; a started execution also records the run id. |
| HistoryBuilder.TestHistoryBuilder.AddWorkflowTaskScheduled | sdk-core/sdk-core-protos/src/history_builder.rs:104-106 | Appends the event and remembers its id as the scheduled one. |
| HistoryBuilder.TestHistoryBuilder.AddWorkflowTaskStarted | sdk-core/sdk-core-protos/src/history_builder.rs:108-114 | Appends a start that refers to the remembered schedule. |
| HistoryBuilder.TestHistoryBuilder.AddWorkflowTaskCompleted | sdk-core/sdk-core-protos/src/history_builder.rs:116-122 | Appends a completion that refers to the remembered schedule. |
| HistoryBuilder.TestHistoryBuilder.AddWorkflowTaskTimedOut | sdk-core/sdk-core-protos/src/history_builder.rs:124-130 | Appends a timeout that refers to the remembered schedule. |
| HistoryBuilder.TestHistoryBuilder.AddWorkflowTaskFailed | sdk-core/sdk-core-protos/src/history_builder.rs:218-244 | Appends a failure that refers to the remembered schedule. |
| HistoryBuilder.TestHistoryBuilder.AddFullWfTask | sdk-core/sdk-core-protos/src/history_builder.rs:94-97 | The three calls leave the builder with one more completed task block. |
| HistoryBuilder.TestHistoryBuilder.AddWorkflowTaskScheduledAndStarted | sdk-core/sdk-core-protos/src/history_builder.rs:99-102 | The two calls leave the builder with one more trailing task. |
| HistoryBuilder.TestHistoryBuilder.GetHistoryInfo | sdk-core/sdk-core-protos/src/history_builder.rs:502-504 | What the validator says of the events so far. |
| HistoryBuilder.TestHistoryBuilder.GetOneWft | sdk-core/sdk-core-protos/src/history_builder.rs:512-517 | The validated history of a task, ids and attributes kept, with its events cut down to its page; the validator's refusal and the panic for want of a completion are told apart. |
| HistoryBuilder.RescanAgrees | sdk-core/sdk-core-protos/src/history_builder.rs:51-70 | A builder made by re-reading the events equals the builder that wrote them, cached ids and run id included, after every sequence of calls through the named methods. |
| HistoryBuilder.RescanStep | sdk-core/sdk-core-protos/src/history_builder.rs:51-92 | A call keeps that agreement if and only if it goes through a named method, or adds neither a scheduled, started or completed task event nor a start of another run. |
| HistoryBuilder.Begin | sdk-core/sdk-core-protos/src/history_builder.rs:51-70 | The agreement holds of a builder with only its first event. |
| HistoryBuilder.UnnamedTaskEventBreaksTheCache | sdk-core/sdk-core-protos/src/history_builder.rs:82-92 | The agreement fails once a scheduled event is added through the generic call, which does not update the cached id. |
| HistoryBuilder.ScriptsAreAccepted | sdk-core/sdk-core-protos/src/history_builder.rs:502-504 | For every script of blocks: ids are 1, 2, 3 and so on, and the validator accepts every task number, with exactly the start ids, events, workflow type and attributes the script gives. |
| HistoryBuilder.ScriptedTasks | sdk-core/sdk-core-protos/src/history_builder.rs:94-130 | The tasks of a scripted history are exactly at the positions computed from the script alone. |
| HistoryBuilder.ScriptedEvents | sdk-core/sdk-core-protos/src/history_builder.rs:94-130 | A scripted history event by event, computed from the script alone: types, ids, the schedule each task event refers to and the reported sizes. |
| HistoryBuilder.AcceptedAtStarts | sdk-core/sdk-core-protos/src/history_builder.rs:502-504 | The validator's answer in terms of those positions. |
| HistoryBuilder.OneWftOfScript | sdk-core/sdk-core-protos/src/history_builder.rs:512-517 | Task k is delivered with the start ids of tasks k - 1 and k and the slice of events between them, and all pages up to k rebuild the history. |
| HistoryBuilder.OneWftAtStarts | sdk-core/sdk-core-protos/src/history_builder.rs:512-517 | The same for any history with known task positions. |
| HistoryBuilder.TaskEventsReferToTheirSchedule | sdk-core/sdk-core-protos/src/history_builder.rs:108-130 | Over every script, with or without a trailing task, each started, completed, timed-out or failed event names the scheduled event of its own task. |
| InternalFlags.FromU32 | sdk-core/core/src/internal_flags.rs:208-215 | Numbers 1, 2 and 3 are the three known flags, inverting their numbering; any other number is too high. |
| InternalFlags.Recorder.constructor | sdk-core/core/src/internal_flags.rs:60-78 | A new record, or the disabled one when the server lacks the capability: replay may use no flag, and the first completion would say nothing but the worker's name and version. |
| InternalFlags.Recorder.AddCompleted | sdk-core/core/src/internal_flags.rs:80-104 | Takes in one completed task's metadata. |
| InternalFlags.Recorder.AddLang | sdk-core/core/src/internal_flags.rs:106-114 | Notes flags used by the language side since the last task. |
| InternalFlags.Recorder.TryUse | sdk-core/core/src/internal_flags.rs:119-137 | Answers and records a use: always while recording, only known flags on replay. |
| InternalFlags.Recorder.WriteAll | sdk-core/core/src/internal_flags.rs:141-149 | Notes every known core flag as used. |
| InternalFlags.Recorder.GatherForWftComplete | sdk-core/core/src/internal_flags.rs:154-197 | Returns only what is new and folds it into what is known. |
| InternalFlags.ReplaySeesWhatWasRecorded | sdk-core/core/src/internal_flags.rs:80-197 | For every run of workers, hand-offs and plain look-ups included, and every prefix of the history they wrote: a later worker that replays the prefix may use exactly the core flags recorded in those tasks, and knows exactly their language flags. |
| InternalFlags.HistoryRecords | sdk-core/core/src/internal_flags.rs:154-197 | What the first i metadata messages hold is exactly what was used in the first i tasks, computed from the actions alone. |
| InternalFlags.RecordedOncePerHistory | sdk-core/core/src/internal_flags.rs:154-177 | No flag appears in two metadata messages of a history. |
| InternalFlags.GatheredIsNew | sdk-core/core/src/internal_flags.rs:154-177 | A gathered message repeats nothing of any earlier one. |
| InternalFlags.CompletionRecords | sdk-core/core/src/internal_flags.rs:154-177 | A completion adds to the history exactly the uses since the last completion. |
| InternalFlags.WorkerInStep | sdk-core/core/src/internal_flags.rs:60-197 | Over every run the live worker agrees with a replay of the history so far. |
| InternalFlags.ReplayCollects | sdk-core/core/src/internal_flags.rs:80-104 | Replay gathers the union of all messages and leaves nothing pending. |
| InternalFlags.LastWorkerIsNamed | sdk-core/core/src/internal_flags.rs:97-102 | After a completion, replay remembers the name and version of the completing worker, or the last non-empty one before. |
| InternalFlags.CompletionNames | sdk-core/core/src/internal_flags.rs:178-193 | After a completion the history names the completing worker's name and version, or what it named before where those are empty. |
| InternalFlags.ShownIsUpToDate | sdk-core/core/src/internal_flags.rs:80-104 | Being shown the latest message, or replaying the history, brings the worker's last name and version in line with the history, whatever it did before. |
| InternalFlags.NamedExactlyWhenChanged | sdk-core/core/src/internal_flags.rs:178-193 | Over every run, the message of a worker that has been shown the latest one carries its name exactly when it differs from what the history last names, and likewise its version. |
| InternalFlags.SecondMessageIsBlank | sdk-core/core/src/internal_flags.rs:178-193 | Whatever came before, once a completion has been shown to its worker the next one carries neither name nor version. |
| InternalFlags.RecordingAllows | sdk-core/core/src/internal_flags.rs:119-137 | While recording any flag may be used, over every run. |
| InternalFlags.DisabledStaysDisabled | sdk-core/core/src/internal_flags.rs:60-197 | Without the server's capability nothing is ever recorded, usable or written. |
| ClientRetry.TonicErrorHandler.constructor | sdk-core/client/src/retry.rs:135-150 | A handler with the call's policy and its own throttle backoff. |
| ClientRetry.TonicErrorHandler.AskBackoff | sdk-core/client/src/retry.rs:261-281 | The retryable branch: both backoffs' new state and the wait, or the error when the backoff is exhausted. |
| ClientRetry.TonicErrorHandler.HandleError | sdk-core/client/src/retry.rs:204-291 | One error, in every branch: the new handler state and the answer are those of the step that the theorems on whole calls are about. |
| ClientRetry.AttemptsAreBounded | sdk-core/client/src/retry.rs:204-220 | With M > 0 retries configured a call makes at most M attempts, whatever the errors and the backoff answers. |
| ClientRetry.LastAttemptForwards | sdk-core/client/src/retry.rs:204-220 | Attempt M is always forwarded. |
| ClientRetry.ClientLimitGovernsOtherCalls | sdk-core/client/src/retry.rs:56-84 | The client's own limit bounds every call that is not a worker's task poll. |
| ClientRetry.OneCancelledRetry | sdk-core/client/src/retry.rs:247-259 | Outside task polls a call retries at most one cancelled error. |
| ClientRetry.GoAwayRemembered | sdk-core/client/src/retry.rs:247-259 | The flag is set exactly when an earlier error of the call was a go-away. |
| ClientRetry.OtherCallsForwardExactly | sdk-core/client/src/retry.rs:204-291 | When a call other than a task poll gives up, as an if and only if over all its errors so far: attempts used up, vetoed by the request, one of the three too-large messages, backoff exhausted, or a code that is none of the seven retryable ones and not the call's first go-away. |
| ClientRetry.TaskPollForwardsExactly | sdk-core/client/src/retry.rs:204-291 | When a task poll gives up, as an if and only if: vetoed by the request, one of the three too-large messages, or fatal more than 60 seconds after the start. |
| ClientRetry.FatalRetriesAreBounded | sdk-core/client/src/retry.rs:282-290 | All fatal retries of a task poll but the last fit, at one maximum interval each, in the grace period. |
| ClientRetry.FatalRetriesTakeTime | sdk-core/client/src/retry.rs:282-290 | The time since the start is at least one maximum interval per fatal retry so far. |
| ClientRetry.FatalWait | sdk-core/client/src/retry.rs:282-290 | A retried fatal error waits the maximum interval and happened within the grace period. |
| ClientRetry.AtMostSevenFatalRetries | sdk-core/client/src/lib.rs:239-248 | With the policy for task polls at most seven fatal errors are retried. |
| ClientRetry.SevenFatalRetriesHappen | sdk-core/client/src/lib.rs:239-248 | Seven is reached: a fatal error every ten seconds is retried seven times, then forwarded. |
| ClientRetry.ThrottleAdvancesExactly | sdk-core/client/src/retry.rs:268-277 | The throttle backoff advances once per retried resource-exhausted error and at no other time. |
| ClientRetry.WaitsAreExact | sdk-core/client/src/retry.rs:261-290 | Over the errors of a call so far: a retried error waits the longer of both backoffs if the server is exhausted, the ordinary backoff if it is worth retrying for its code, its call type or as the call's first go-away, and the maximum interval otherwise. |
| ClientRetry.ForwardedErrorIsGenuine | sdk-core/client/src/retry.rs:221-236 | The error that ends a call is its latest error itself; the marker is added exactly to a too-large one that neither the attempt limit nor the short circuit forwarded first. |
| ClientRetry.RetryableCodes | sdk-core/client/src/retry.rs:11-19 | The retryable codes are those seven. |
| ClientRetry.TooLargeIsSaid | sdk-core/client/src/retry.rs:221-229 | Too large means the exhausted-resource code and a message that starts in one of the three ways. |
| ClientRetry.ExhaustedIsThrottled | sdk-core/client/src/retry.rs:221-277 | An exhausted-resource error with one of the three too-large messages is forwarded with the marker; any other waits the longer of both backoffs, as long as attempts, veto and backoff allow it. |
| ClientRetry.ThrottleAdvancesWithoutBound | sdk-core/client/src/retry.rs:268-277 | For every n some call advances the throttle n times. |
| ClientRetry.BackoffAdvancesExactly | sdk-core/client/src/retry.rs:261-290 | Within a call the ordinary backoff advances once per error worth retrying and not for fatal ones. |
| ClientRetry.HandlerOfRequest | sdk-core/client/src/retry.rs:56-150 | How the handler of a request is set up: call type, both backoffs' configurations, attempt limit and veto, each from the request and the client's configuration. |
| ActivityRetry.RefusedExactly | sdk-core/core/src/retry_logic.rs:26-68 | `should_retry` answers no retry if and only if the failure forbids it, the attempts are used up, its type is listed (compared without case), or the delay it asks for is negative. |
| ActivityRetry.ExplicitDelayIsUsed | sdk-core/core/src/retry_logic.rs:49-51 | A delay that the failure asks for is what an unrefused retry waits. |
| ActivityRetry.ShouldRetryLaw | sdk-core/core/src/retry_logic.rs:26-77 | What `should_retry` itself answers where nothing refuses the retry or sets its delay: the capped recurrence over the policy's own fields, with their defaults of 1 second, 100 times the initial interval and 2.0, exactly under the condition of the capped backoff law. |
| ActivityRetry.FirstRetryWaitsInitial | sdk-core/core/src/retry_logic.rs:53-59 | At attempt 1 `should_retry` answers the policy's initial interval, 1 second where it has none. |
| ActivityRetry.FallbackIsExact | sdk-core/core/src/retry_logic.rs:66-91 | For every positive coefficient and every attempt whose cast exponent is not negative, the delay is the exact geometric one at that exponent under the cap, although products that overflow fall back to the maximum; the one exception is zero times infinity. |
| ActivityRetry.CappedBackoffLaw | sdk-core/core/src/retry_logic.rs:53-77 | For every positive coefficient, growing or shrinking: the delay equals the recurrence that multiplies and caps each round if and only if the maximum is zero, or it is neither zero times infinity nor a shrinking delay whose second value was capped. |
| ActivityRetry.CappedIsClosed | sdk-core/core/src/retry_logic.rs:71-73 | For any growth that enlarges, capping each round equals capping once at the end. |
| ActivityRetry.CappedIsGrown | sdk-core/core/src/retry_logic.rs:71-73 | For any growth that reduces, nothing is capped once it is under the cap. |
| ActivityRetry.CapHoldsIff | sdk-core/core/src/retry_logic.rs:53-77 | No attempt waits longer than the maximum if and only if the initial interval does not exceed it. |
| ActivityRetry.NegativeCoefficient | sdk-core/core/src/retry_logic.rs:66-91 | A negative coefficient waits the maximum at odd powers and what the coefficient without its sign waits at even ones. |
| ActivityRetry.DelaysAreMonotone | sdk-core/core/src/retry_logic.rs:53-77 | With a coefficient of at least 1, a delay is no shorter than the one before if and only if it is not the second after an initial interval above the maximum; a zero interval included. |
| ActivityRetry.DelayReachesMaximumAndStays | sdk-core/core/src/retry_logic.rs:53-77 | For every coefficient above 1 and positive initial interval: exact growth reaches the maximum; some attempt up to 2 to the 31 waits the maximum if and only if growth has reached it by the last of them; and from the first attempt that does, every later one does. |
| ActivityRetry.GrowthReaches | sdk-core/core/src/retry_logic.rs:71-73 | Exact growth with a coefficient above 1 passes every bound. |
| ActivityRetry.AtMaximumIff | sdk-core/core/src/retry_logic.rs:53-77 | An attempt waits the maximum if and only if exact growth has reached it. |
| ActivityRetry.MaximumLasts | sdk-core/core/src/retry_logic.rs:53-77 | An attempt at the maximum is followed only by attempts at the maximum. |
| ActivityRetry.Exponent | sdk-core/core/src/retry_logic.rs:70-72 | The exponent is the one 32-bit number congruent to the attempt less 1, and the attempt less 1 itself up to attempt 2 to the 31. |
| ActivityRetry.DurationEndsAtTwoTo64 | sdk-core/core/src/retry_logic.rs:81-91 | The limit of a `Duration` is 2 to the 64 seconds. |
| ActivityRetry.DoublesAreCovered | sdk-core/core/src/retry_logic.rs:81-91 | Every floating-point format whose numbers reach 2 to the 94 meets what the laws ask of it, doubles among them. |
| ActivityRetry.NegativeExponentBreaksLaw | sdk-core/core/src/retry_logic.rs:70-72 | At any attempt number, a growing policy waits at least its initial interval if and only if the 32-bit exponent is not negative. |
| ActivityRetry.WrappedAttempts | sdk-core/core/src/retry_logic.rs:71-74 | An attempt whose exponent wraps to a non-negative one waits what the attempt with that exponent waits, capped even where that is the first. |
| ActivityRetry.LawBeyond32Bits | sdk-core/core/src/retry_logic.rs:71-74 | At every attempt number, a growing policy follows the capped recurrence if and only if the cast kept the exponent or wrapped it to one at which the maximum has been reached. |
| ActivityRetry.AttemptZeroWaitsHalf | sdk-core/core/src/retry_logic.rs:71-74 | Attempt 0 of a doubling policy waits half the initial interval. |
| ActivityRetry.ZeroTimesInfinityHappens | sdk-core/core/src/retry_logic.rs:71-91 | A policy without an initial interval whose third attempt waits the maximum, in every floating-point format. |
| ActivityRetry.ShrinkingCutHappens | sdk-core/core/src/retry_logic.rs:71-74 | A shrinking policy whose third delay is twice what capping each round gives. |
| ActivityRetry.InitialAboveMaximumHappens | sdk-core/core/src/retry_logic.rs:57-59 | A policy whose first delay is above its maximum. |
| Base64.DecodeOfEncode | native/temporal_nif/src/converter.rs:106-141 | Decoding undoes encoding on every byte string. |
| Base64.EncodeOfDecode | native/temporal_nif/src/converter.rs:106-141 | What decodes at all is the encoding of what it decodes to. |
| Base64.SextetOf | native/temporal_nif/src/converter.rs:106-141 | A character decodes only to a value whose character it is, in the alphabet of section 4 of RFC 4648. |
| Base64.CharsAreTheAlphabet | native/temporal_nif/src/converter.rs:106-141 | The digits are written in the alphabet of table 1 of RFC 4648. |
| Base64.SextetsAreDigits | native/temporal_nif/src/converter.rs:106-141 | The four characters of a group are the base-64 digits, most significant first, of the number its bytes write. |
| Base64.EncodeConcatenates | native/temporal_nif/src/converter.rs:106-141 | Whole groups of three bytes are encoded one after the other. |
| Base64.PaddedEncoding | native/temporal_nif/src/converter.rs:106-141 | One or two bytes are encoded as with zero bytes behind them, with padding in place of the characters of those. |
| Json.NormalForm | native/temporal_nif/src/converter.rs:194-226 | Two JSON values have the same canonical form if and only if they differ only in the order of object members, at any depth. |
| Json.SameIsCanonicallyEqual | native/temporal_nif/src/converter.rs:194-226 | Order of members does not show in the canonical form. |
| Json.CanonicallyEqualIsSame | native/temporal_nif/src/converter.rs:194-226 | Nothing else is lost. |
| Json.SameAsCanonical | native/temporal_nif/src/converter.rs:194-226 | A value is the same as its canonical form. |
| Json.CanonicalizeIdempotent | native/temporal_nif/src/converter.rs:194-226 | Canonicalizing twice changes nothing more, and depth is kept. |
| Json.CanonicalIsWellFormed | native/temporal_nif/src/converter.rs:194-226 | Keys stay distinct at every level. |
| Json.SortSorts | native/temporal_nif/src/converter.rs:198-206 | Members end up in key order; that they are a permutation is the contract of the sort itself. |
| Json.LeIsAlphabetical | native/temporal_nif/src/converter.rs:198-206 | Key order is alphabetical: by the first difference, smaller characters first, and a beginning before its continuation. |
| Json.DepthOkIffHeight | native/temporal_nif/src/converter.rs:228-254 | The recursive check that stops early accepts exactly the values whose height fits the limit. |
| Json.SameHeight | native/temporal_nif/src/converter.rs:194-254 | Reordering members does not change the height. |
| Converter.RoundTrip | native/temporal_nif/src/converter.rs:371-407 | For every value up to depth 32 and every JSON printer and parser: the value comes back from its payload as its canonical form if and only if it is null, a small binary, or reproduced by that printer and parser. |
| Converter.PayloadsAreDeterministic | native/temporal_nif/src/converter.rs:371-381 | A convertible value shares its payload with another value if and only if they differ only in the order of object members, given that the JSON printer and parser reproduce those of the two that travel as JSON. |
| Converter.SamePayload | native/temporal_nif/src/converter.rs:371-381 | Values the same up to member order convert alike, failures included. |
| Converter.ConvertsIffShallow | native/temporal_nif/src/converter.rs:371-381 | Conversion succeeds if and only if the value is at most 32 deep, and fails only as no converter found. |
| Converter.ToPayloadCases | native/temporal_nif/src/converter.rs:371-381 | Which converter of the default chain takes a value, and the payload it makes, metadata included. |
| Converter.ConverterAnswers | native/temporal_nif/src/converter.rs:106-129 | What a single converter answers under any limits: payload, not its business, or which error. |
| Converter.FirstConverterWins | native/temporal_nif/src/converter.rs:371-381 | In any chain the first converter that takes a value converts it, and errors of earlier ones do not count; none found is the only failure. |
| Converter.FromPayloadCases | native/temporal_nif/src/converter.rs:384-407 | What the two-pass reader answers for every payload, its errors included. |
| Converter.NamedPassIsFirstPass | native/temporal_nif/src/converter.rs:384-407 | The pass that looks at converter names answers what the pass that asks each converter answers. |
| Converter.ChainSortsStably | native/temporal_nif/src/converter.rs:321-325 | For every list of converters the chain is a permutation of it in order of priority, and converters of one priority keep their order. |
| Converter.ChainOfDefaults | native/temporal_nif/src/converter.rs:321-335 | The three default converters end up in priority order, in whichever order they are given. |
| Converter.ReadBack | native/temporal_nif/src/converter.rs:384-407 | Each kind of payload is read by the converter that wrote it. |
| Converter.ToPayloads | native/temporal_nif/src/converter.rs:339-351 | All payloads in order, or the error of the first value that fails. |
| Converter.FromPayloads | native/temporal_nif/src/converter.rs:355-367 | All values in order, or the error of the first payload that fails. |
| Converter.RoundTripAll | native/temporal_nif/src/converter.rs:339-367 | A list of such values goes through both loops and comes back in order as canonical forms. |
| WorkflowCache.WorkflowHalf.constructor | sdk-core/sdk/src/lib.rs:280-300 | No runs, no futures, nothing waiting. |
| WorkflowCache.WorkflowHalf.HandleActivation | sdk-core/sdk/src/lib.rs:394-508 | One activation: a start of an unknown type is answered with a failure, any other start inserts or begins to wait, a known run is passed its activation, an eviction of an unknown run is answered, and anything else fails the poll loop. |
| WorkflowCache.WorkflowHalf.TryInsert | sdk-core/sdk/src/lib.rs:455-471 | Inserts into a free slot, or waits for the slot to be freed. |
| WorkflowCache.WorkflowHalf.RemoveJoined | sdk-core/sdk/src/lib.rs:252-273 | Removes a finished future's entry and notifies one waiter. |
| WorkflowCache.CacheAndFuturesAgree | sdk-core/sdk/src/lib.rs:252-320 | Over every run the cached runs and the futures being joined are one to one, and a waiting start has a future in its way or a notification stored. |
| WorkflowCache.AgreesStep | sdk-core/sdk/src/lib.rs:252-320 | One step of either task keeps that. |
| WorkflowCache.OneFuturePerRun | sdk-core/sdk/src/lib.rs:252-320 | From the start, no run id ever has two futures, and there are as many futures as entries. |
| WorkflowCache.EntriesAreNeverOverwritten | sdk-core/sdk/src/lib.rs:455-471 | An entry changes only by its own future's join, and a join removes only its own generation. |
| WorkflowCache.ActivationsAreConserved | sdk-core/sdk/src/lib.rs:394-508 | Over every run each activation is passed on, answered or held by the waiting loop, and exactly one of these, short of a failure that ends the worker. |
| WorkflowCache.DeliveredToLiveFuture | sdk-core/sdk/src/lib.rs:474-482 | An activation is passed only to the future of its own run that is cached and not yet joined. |
| WorkflowCache.CompletionsAreExact | sdk-core/sdk/src/lib.rs:421-496 | Over every run the completions sent by the handler are, in order, a failure for each start of an unregistered type and an answer for each eviction of a run not cached at that moment. |
| WorkflowCache.UnknownTypesAreExact | sdk-core/sdk/src/lib.rs:421-432 | Over every run the failures for an unknown type are, in order, the runs of the starts whose type is not registered. |
| WorkflowCache.DeliveriesAreExact | sdk-core/sdk/src/lib.rs:412-482 | Over every run the futures that got an activation, in order, are those the types and the cache at each moment call for. |
| WorkflowCache.OnlyKnownTypesRun | sdk-core/sdk/src/lib.rs:412-471 | Over every run the futures ever created, cached, waiting or delivered to are exactly numbered by the starts of registered types: the n-th such start makes the n-th future, of its own run. |
| WorkflowCache.KnownStartIsCached | sdk-core/sdk/src/lib.rs:412-471 | A start of a registered type is cached under its new future and delivered to if its run is not cached, and waits with that future otherwise. |
| WorkflowCache.FailsExactly | sdk-core/sdk/src/lib.rs:290-311 | The poll loop fails exactly on its own error, a failed future, or work for a run it does not have, and stops exactly on shutdown. |
| WorkflowCache.WaitCanEnd | sdk-core/sdk/src/lib.rs:455-465 | A waiting start is never stuck: it can wake, or the future in its way can be joined. |
| WorkflowCache.JoinReleases | sdk-core/sdk/src/lib.rs:262-268 | Joining the future in the way releases the waiting start. |
| WorkflowCache.JoinNotifies | sdk-core/sdk/src/lib.rs:262-268 | A join removes its run and wakes a waiting loop, or leaves a permit for the next wait. |
| WorkflowCache.ReleaseLasts | sdk-core/sdk/src/lib.rs:455-465 | A released start stays released through any steps until it wakes; the notification is not lost. |
| WorkflowCache.WaitIsServed | sdk-core/sdk/src/lib.rs:455-471 | Once the future in its way is joined, whatever happens in between, the start's own wake inserts it. |
| WorkerRegistry.SlotManagerImpl.constructor | sdk-core/client/src/worker_registry/mod.rs:54-68 | An empty registry, whose maps agree. |
| WorkerRegistry.SlotManagerImpl.TryReserveWftSlot | sdk-core/client/src/worker_registry/mod.rs:70-82 | Asks the provider registered for the namespace and queue, if any. |
| WorkerRegistry.SlotManagerImpl.RegisterProvider | sdk-core/client/src/worker_registry/mod.rs:84-96 | Registers under a fresh key, or changes nothing when the slot is taken; the maps keep agreeing. |
| WorkerRegistry.SlotManagerImpl.UnregisterWorker | sdk-core/client/src/worker_registry/mod.rs:98-104 | Removes the key and its provider from both maps; an unknown key changes nothing. |
| WorkerRegistry.IndexIsABijection | sdk-core/client/src/worker_registry/mod.rs:54-104 | After every sequence of calls the worker keys and the registered slots are one to one, and each provider is under its own slot. |
| WorkerRegistry.RunKeepsBijection | sdk-core/client/src/worker_registry/mod.rs:54-104 | Every sequence of calls keeps that. |
| WorkerRegistry.RegisterKeepsBijection | sdk-core/client/src/worker_registry/mod.rs:84-96 | A registration keeps it. |
| WorkerRegistry.UnregisterKeepsBijection | sdk-core/client/src/worker_registry/mod.rs:98-104 | So does a removal. |
| WorkerRegistry.KeyStandsForItsProvider | sdk-core/client/src/worker_registry/mod.rs:84-104 | Whatever happens after a registration, its key removes that very provider or nothing. |
| WorkerRegistry.StaleKeysStayStale | sdk-core/client/src/worker_registry/mod.rs:98-104 | A key once removed never removes anything again. |
| WorkerRegistry.UnregisterUndoesRegister | sdk-core/client/src/worker_registry/mod.rs:84-104 | Registering in a free slot and removing gives back the registry and the provider. |
| WorkerRegistry.UnregisterRemovesExactly | sdk-core/client/src/worker_registry/mod.rs:98-104 | Removing any key that holds a provider gives that provider back and frees its slot, and serves every other key and slot as before. |
| WorkerRegistry.RegisterAddsExactly | sdk-core/client/src/worker_registry/mod.rs:84-96 | Registering in a free slot takes an unused key and serves every other key and slot as before. |
| WorkerRegistry.FirstRegistrationWins | sdk-core/client/src/worker_registry/mod.rs:84-96 | Until the first provider's key is removed, and whatever else happens, every other registration for its slot is refused and every reservation goes to it. |

## Left out

- Memory orderings weaker than sequential consistency; the atomic accesses of the dealers interleave but are not reordered.
- Waiting inside `acquire_owned`: a blocked acquirer is a caller that has not yet taken its step; fairness of wake-ups is not modelled.
- Metrics, tracing and logging throughout, and the permit metadata that exists only for them.
- Floating-point rounding in the activity delay: arithmetic is exact, with overflow to infinity and zero times infinity as in the code; where the numbers end is a parameter.
- ActivityRetry.CappedBackoffLaw: is stated for positive coefficients; `NegativeCoefficient` says what negative ones wait.
- ActivityRetry.NegativeExponentBreaksLaw: models the wrap-around of a release build; a debug build panics instead at the one attempt number in 2 to the 32 whose subtraction overflows.
- The backoff library's schedule and jitter: each answer is arbitrary, so the bounds on calls hold for any schedule; its maximum elapsed time appears as the answer that there is no next wait.
- ClientRetry.TaskPollForwardsExactly: supposes that a backoff without a maximum elapsed time always answers.
- ClientRetry.AtMostSevenFatalRetries: supposes that an announced wait is waited before the next error.
- JSON text: its printer and parser are external, and number formatting and the parser's own depth limit are part of them.
- Converter.RoundTrip: gives back the canonical form, not the member order of the input, because that order is not kept by the code either; a string that is short valid Base64 travels as bytes and comes back as the same string.
- Converters registered by an application, and term decoding between the Erlang virtual machine and JSON.
- Invalid UTF-8 in a payload's encoding metadata, which the code replaces before comparing.
- Builder methods for activities, timers, child workflows and signals, which all go through the generic call, and those that rewrite events in place.
- HistoryBuilder.TestHistoryBuilder.BuildAndPushEvent: keeps of an event its type, id and the attributes that the validator or the builder reads.
- InternalFlags.Recorder.GatherForWftComplete: returns the flags as sets, since the order of the original's lists is that of a hash set.
- Event ids beyond 64 bits and counters beyond the machine word: numbers are unbounded except the exponent.
- The panic when an activation is sent to a workflow that has finished and is not yet joined.
- The rest of the repository: workflow state machines, pollers, sticky queues, the C bridge, environment configuration, TLS and proxy connection set-up, and the Elixir side.
