# Verified model of the agent's deterministic core

A Dafny model of the parts of the agent that do not depend on what a language model says:
who owns a task and for how long, how many decisions a task may cost, what may run behind
the approval gate and how often, when the number-adding bot refills, finishes or leaves a
country alone, which model provider is asked next, and a handful of small algorithms with
sharp corners. Database tables are maps and sequences; model answers, tool results, bot
replies, failures and clock readings are inputs, so every theorem holds for all of them.

Where the program changes things in place, a class with the same fields has methods that
are proved equal to a specification function of the old state; the theorems are about
those functions, over whole runs.

| module | what it models |
|---|---|
| `Tasks`, `ClaimProtocol`, `SafeConditions`, `StaleClaims`, `StepBudgets`, `Overspending`, `FinishedTasks`, `Engine` | task rows and their repository calls; workers interleaving on one table; when the unguarded steps are safe; what stale reads can do; the step counter over whole runs; when its budget is lost; when a cancellation is lost; one run of the agent loop |
| `Executor`, `OperationKeys`, `Ledger`, `Autonomy`, `ProtectedFiles` | approval gate and idempotency ledger; what keys, replays and gates mean; overlapping calls of one operation; learned trust and the policy; the text of a path and the file it leads to |
| `Clock`, `Schedule` | the fixed UTC+4 clock; per-country timers, start gates and finish lines |
| `OtpBot`, `OtpStart`, `OtpCycle`, `OwnSettings`, `OtpHistory`, `OtpLimit` | queue, active set, start, refill cycle; what a start does; what a cycle does; what each setting decides in both; whole histories; the refill limit over them |
| `Providers` | fallback order, cooldowns, one chat, many chats |
| `JsonScan`, `RateLimit`, `Turns`, `CountryNames`, `CountryWords`, `PhoneCountries`, `Durations`, `Amounts` | brace scanner, sliding window, turn alternation, country equivalence and what it comes to in letters and words, calling codes, run lengths, amounts with units |
| `Text`, `Options`, `Powers`, `FiniteSets` | the string operations, optional values and small facts they share |

## How to read it

`dafny verify dfyconfig.toml` checks everything. Each file opens with the model and its
class, then states the properties. A few proofs begin with `hide`, which only withholds
function bodies the proof does not need.

One-line updates (arming, forgetting or clearing one country, merging its settings,
clearing one cooldown, forgetting one pattern) are methods proved equal to the
specification's own expression; they have no row below.

Some properties one might expect are false of the program. Each of these is shown by a
lemma with the failing input or run, next to the exact condition under which the property
holds:

- The claim guard compares status and owner only. A stale candidate is taken before its
  retry delay is over (`StaleClaimIgnoresDelay`), which happens exactly when a model failure
  since the read requeued the task (`ClaimIsEarlyIff`, `UnrequeuedClaimIsNeverEarly`).
- A worker id that is used again too soon defeats the guard (`ReusedIdDefeatsTheLock`):
  exactly while something RUNNING is in its name, or is remembered so (`ReuseSafeIff`). The
  worker loop does use its id again, safely so after every claim it did not lose
  (`LoopReusesItsIdSafely`), and `MutualExclusion` covers it.
- Reopening a task, the start-up sweep and writing the step counter back do not look at the
  owner. They endanger exclusion exactly under the conditions of `ReopenSafeIff`,
  `SweepSafeIff` and `PersistSafeIff`; `SafeIff` has all of it in one, and an unsafe step
  endangers its own task only (`ExclusionIsPerTask`). Without exclusion the step budget is
  lost too (`TwoWorkersOverspend`): a step lets the limit be exceeded exactly when it is
  unsafe and leaves a step to take (`OverspendsIff`), and lets the counter go back exactly
  when it leaves two (`TurnsBackIff`).
- A cancelled task can come back by itself, exactly while a live worker has passed the top of
  its loop and not yet written back (`ComesBackIff`).
- An operation can succeed more often than its records were lost, namely when a lookup
  comes while another call of it is between lookup and record, and only then
  (`LookupSafeIff`); one call at a time is enough (`OneAtATimeIsEnough`).
- Two active files of one country undo "finished means finished"
  (`TwoFilesDefeatTheFinish`), exactly when the other one comes later and ran short as well
  (`RetirementIsUndoneIff`). A start keeps one file per country exactly under the condition
  of `StartKeepsOneEachIff`.
- "Three refills" does not mean three while a file still waits for its first add
  (`WaitingFileDefeatsTheLimit`, `LimitHoldsIffNotWaiting`): a first add that goes through
  late starts the counter again. The counter tells the truth exactly when none does
  (`LimitMeansThatMany`).
- The policy judges the text of a path, not the file it leads to
  (`TextIsNotAlwaysTheFile`); `TextIsTheFileIff` says when the text is the file's name. Even
  then it drops dots and slashes in front, so that `.env` itself is not protected
  (`EnvSlipsThrough`). `ProtectedFileIsAllowedIff` says exactly which protected files can be
  touched under their own names, and `NameSlipsThrough` what that comes to.
- A printed run length does not always read back: `PrintedLengthReadsBack` says for every
  integer what comes back.
- A provider that is cooling down is asked regardless when it is the last in the order and
  everybody else is cooling down too, and only then (`LastResortIsAskedAnyway`,
  `CoolingIsAskedIff`), so the cooldown bound is for a provider that is never that one.

Where comments and code differ, the model follows the code. `start_automation` is described
as replacing the active set (`app/automation/otp_bot.py:1602-1606`) but merges into it
(lines 1737-1747). The claim is described as safe under stale reads, and is, except that it
does not re-check the retry delay (`app/db/repo.py:117-158`). `run_task` answers FAILED also
when it has just put the task back in the queue (`app/agent/engine.py:325-354`). The fallback
order is described as ending with the local model, but providers without a rank come after
it (`app/llm/manager.py:448-463`).

## Model

| member | source | states |
|---|---|---|
| Tasks.SelectFacts | app/db/repo.py:117-136 | the claim query returns true snapshots of runnable rows in order of age: all of them, or the five oldest |
| Tasks.SelectOldest | app/db/repo.py:117-136 | the first candidate is the oldest runnable row, and there is none exactly when nothing is runnable |
| Tasks.WhoIsRunnable | app/db/repo.py:117-136 | once its delay is over, a queued or waiting row can be claimed, a running one when its lease is over, and no other |
| Tasks.BackoffDoubles | app/agent/engine.py:325-354 | the first retry waits 30 s, every further one twice the one before, up to half an hour |
| Tasks.BackoffShape | app/agent/engine.py:325-354 | retry delays never shrink and settle at half an hour from the seventh retry |
| Tasks.TaskTable.TryClaim | app/db/repo.py:138-155 | one guarded update: it takes the row exactly when status and owner are as read, and changes nothing else |
| Tasks.TaskTable.ClaimFrom | app/db/repo.py:136-158 | works down possibly stale candidates: claims the first whose guard still passes, having been refused by all before it, or changes nothing |
| Tasks.TaskTable.ClaimNextTask | app/db/repo.py:117-158 | undisturbed, takes exactly the oldest runnable row, and nothing only when none is runnable |
| Tasks.TaskTable.RenewLease | app/db/repo.py:161-166 | a dispossessed worker's renewal changes nothing; an owner's changes only the lease |
| Tasks.TaskTable.SetTaskStatus | app/db/repo.py:208-228 | writes the status unguarded, and clears owner and lease exactly on terminal ones |
| Tasks.TaskTable.RequeueTask | app/db/repo.py:243-255 | back in the queue, unowned, one retry used, runnable exactly from the end of the delay |
| Tasks.TaskTable.RecoverStaleRunning | app/db/repo.py:258-270 | every RUNNING row is queued and unowned afterwards, every other row is untouched, and the count is the number of rows swept |
| ClaimProtocol.ClaimKeepsInv | app/db/repo.py:117-158 | a guarded update on any stale snapshot keeps ownership exclusive and every snapshot sound |
| ClaimProtocol.ReadKeepsInv | app/db/repo.py:117-136 | a fresh read yields only snapshots whose owner, if any, has given up |
| ClaimProtocol.WorkKeepsInv | app/agent/engine.py:83-135 | renewals, loads, write-backs, results, endings and crashes of one worker keep everybody's ownership |
| ClaimProtocol.MutualExclusion | app/db/repo.py:117-166 | in every interleaving of reads, claims, renewals, loads, requeues, crashes, cancellations and ticks, with reopenings, sweeps, write-backs and the reuse of worker ids under their exact conditions, no two live workers are on one task |
| ClaimProtocol.ExclusionIsPerTask | app/db/repo.py:117-166 | exclusion on one task lasts over every run whose steps are safe for that task, whatever becomes of the others |
| ClaimProtocol.LoopReusesItsIdSafely | app/workers/task_worker.py:106-140 | after a claim that found nothing, met a finished row, or ended before its lease did, the loop may claim again under the same id |
| SafeConditions.SafeIff | app/db/repo.py:117-270 | any step can lead to two live workers on a task if and only if it is one of the four unguarded ones and its condition for that task fails |
| SafeConditions.ReuseSafeIff | app/workers/task_worker.py:106-120 | using an id again can lead to two live workers on a task if and only if its row is RUNNING in that name or a reader remembers that it was |
| SafeConditions.ReopenSafeIff | app/db/repo.py:208-228 | putting a task back without looking can lead to two live workers on it if and only if one is live on it now |
| SafeConditions.SweepSafeIff | app/db/repo.py:258-270 | the start-up sweep can lead to two live workers on a task if and only if its row is RUNNING and has a live one |
| SafeConditions.PersistSafeIff | app/agent/engine.py:83-106 | writing the loaded step back can lead to two live workers if and only if the row was finished meanwhile and a reader remembers it RUNNING |
| StaleClaims.AtMostOneClaimPerRead | app/db/repo.py:136-158 | when another worker has claimed a row it has read too, however many earlier candidates it still tries, its own claim changes no row while that one is RUNNING in the other's name, and also afterwards unless it read it in that very name |
| StaleClaims.StaleClaimIgnoresDelay | app/db/repo.py:138-155 | a run in which a stale candidate is claimed thirty seconds before its retry is due |
| StaleClaims.ClaimIsEarlyIff | app/db/repo.py:117-158 | whatever happens between reading a candidate and claiming it, the claim is early exactly when a requeue since the read set a delay that is not over and nothing dropped it |
| StaleClaims.UnrequeuedClaimIsNeverEarly | app/db/repo.py:117-158 | with no requeue of the task since the read, a claim respects the retry delay |
| StaleClaims.ReusedIdDefeatsTheLock | app/db/repo.py:138-155 | a run in which an id goes round again while its expired row is being read, and two workers end up on one task |
| StepBudgets.StepBudget | app/agent/engine.py:83-135 | over any run whose steps are safe for the task, with the counter loaded in one step and written back in another, it never goes back, and requeues <= decisions <= max_steps |
| Overspending.OverspendsIff | app/agent/engine.py:83-106 | a step lets a task be asked for more decisions than its limit exactly when it is unsafe for that task and leaves it a step to take |
| Overspending.TurnsBackIff | app/agent/engine.py:83-106 | a step lets the counter go back exactly when it is unsafe for the task and leaves it two steps to take |
| Overspending.TwoLiveWorkersOverspend | app/agent/engine.py:83-106 | any two live workers on a row with steps left can exceed its limit, wherever in the loop they are |
| Overspending.TwoWorkersOverspend | app/agent/engine.py:83-106 | from an empty table: a task is reopened under its worker, two workers make two decisions for its one step, and the limit is exceeded |
| Overspending.SlowWriterTurnsBack | app/agent/engine.py:83-106 | of two workers that hold the counter, one takes two steps and the other then writes back what it held |
| StepBudgets.StartHasBudget | app/db/repo.py:51-84 | a table nobody has claimed from meets the starting conditions of exclusion and budget |
| FinishedTasks.ComesBackIff | app/agent/engine.py:83-106 | a finished row that nobody gives back comes back to life, or costs one more decision, in some run exactly when a live worker has passed the status check below the step limit without having written back |
| FinishedTasks.ReadersNeverSeeFinished | app/db/repo.py:117-136 | through any run whatever, no reader comes to remember a row as finished, which the theorem above starts from |
| Engine.RunStaysWithinBudget | app/agent/engine.py:49-135 | one run asks the model once per persisted step, stops within the steps left, and adds at most one retry |
| Engine.OnlyTheLastDecisionEnds | app/agent/engine.py:192-287 | every decision before the last left the loop running, and at most one success claim was sent back by the self-check |
| Engine.EndingsAreEarned | app/agent/engine.py:83-135 | COMPLETED needs a success claim that holds up, or checking off, or one challenge spent; FAILED with the row queued means a model failure with retries left |
| Engine.EndingsAreGiven | app/agent/engine.py:83-135 | the last decision gives the ending: an accepted claim completes, a question or missing approval waits for the owner, a model failure fails and requeues while retries last, and anything else means cancelled or out of steps |
| Engine.AgentEngine.RunTask | app/agent/engine.py:49-135 | the loop over the persisted row computes exactly the specified run and terminates on max_steps - current_step |
| Executor.ToolExecutor.DecideApproval | app/db/repo.py:380-397 | an answer is recorded once; late ones expire the request; anything decided stays |
| Executor.ToolExecutor.ApprovalState | app/agent/executor.py:185-217 | answers from the newest matching requests, and files a new one exactly when nothing is known |
| Executor.ToolExecutor.RecordOperation | app/db/repo.py:599-615 | inserts exactly when the key is free, and says so |
| Executor.ToolExecutor.Perform | app/agent/executor.py:44-174 | the gate sequence equals the specified call: denied, invalid, gated, replayed, run |
| Executor.DecisionsAreFinal | app/db/repo.py:380-397 | in every trace requests are only added, never rewritten, and an answer is final |
| Executor.EveryGatedRunIsSanctioned | app/agent/executor.py:79-130 | every run behind the gate had an allowing verdict or an approved request with equal task, tool and arguments |
| Executor.AnswerIsHeeded | app/agent/executor.py:185-217 | a request filed by a stopped call and answered within twelve hours lets the same call through, or refuses it, as answered; a later answer expires it and the call asks again |
| Executor.AnswerStaysHeededIff | app/agent/executor.py:185-217 | over any trace, the newest answer for these arguments is heeded exactly until a request of the tool is the task's newest pending one or five of them are newer |
| Executor.RunsAreAccountedFor | app/agent/executor.py:131-174 | with calls that do not overlap, successful side-effecting runs of one key number exactly the lost records plus one once a record stands |
| Ledger.SuccessesAreAccountedFor | app/agent/executor.py:131-163 | with lookup, run and record apart and calls overlapping, successes of one key number the lost records, those that found the key taken, those still to come, and one once a record stands |
| Ledger.OneAtATimeIsEnough | app/agent/executor.py:131-163 | when no lookup of a key comes between the steps of another call of it, no record finds it taken, and successes exceed lost records by at most one |
| Ledger.LookupSafeIff | app/db/repo.py:595-615 | a lookup lets the tool run once too often exactly when the key has no record and another call of it is between its steps |
| Ledger.AloneIsOneStep | app/agent/executor.py:131-163 | the steps of an uninterrupted call come to what the one-step call does to ledger, successes and losses |
| Executor.RecordedIsReplayed | app/agent/executor.py:131-145 | once recorded, an operation never succeeds again and later calls get the recorded data |
| Executor.FromTheBeginning | app/agent/executor.py:79-174 | from an empty database, every gated run is sanctioned and a key has at most one successful run more than its records were lost |
| OperationKeys.KeysTellActionsApart | app/agent/executor.py:32-35 | two calls share a key exactly when task, tool and digest of the arguments are the same, a task named "adhoc" counting as none |
| OperationKeys.ReplayedIff | app/agent/executor.py:131-149 | over any trace from an empty database, a call is answered with recorded data exactly when an earlier call of the same task, tool and arguments succeeded and was recorded, and with its data; any other call runs |
| OperationKeys.RunsOnlyIf | app/agent/executor.py:44-130 | a tool runs only for a known, permitted, valid call that, if of high risk with the gate on, policy allowed or the owner approved; the run is recorded truly |
| OperationKeys.AnsweredBy | app/agent/executor.py:44-174 | which calls are refused, which are invalid, and that a call that needs nobody is replayed or run |
| OperationKeys.FiledIff | app/agent/executor.py:185-217 | a request is filed exactly when approval is needed and no request of the tool is waiting already, for this very call and for twelve hours; nobody is asked about a call that could not run or needs nobody |
| Autonomy.PatternStore.RecordDecision | app/db/repo.py:640-661 | approvals count up; a refusal counts and resets earned trust |
| Autonomy.StatsCountTheHistory | app/db/repo.py:640-661 | after any history, the counters of a shape are its refusals since it was last forgotten and its approvals since it was last refused or forgotten |
| Autonomy.LearnedTrustIsAFold | app/security/autonomy.py:125-138 | after any history, trusted exactly when since the last forget there were no refusals and at least three approvals; refused exactly when there was a refusal |
| Autonomy.OneRefusalOutweighsApprovals | app/security/autonomy.py:125-138 | after a refusal no number of approvals restores learned trust until the shape is forgotten |
| Autonomy.FileStandsInForPath | app/security/autonomy.py:141-175 | with a path the file argument makes no difference to the verdict; without one it stands in for it |
| Autonomy.ProtectedMeans | app/security/autonomy.py:57-63 | on the text without the dots and slashes in front, the protected patterns match exactly: below uploads/ or tasks/, ending in .env, or a named component below a directory |
| Autonomy.ProtectedIsNeverAllowed | app/security/autonomy.py:141-175 | with the gate on, an action whose path argument, or file argument when there is no path, has a protected text, dots and slashes in front left aside, is never auto-allowed, at any level, after any history |
| ProtectedFiles.TextIsTheFileIff | app/security/paths.py:25-49 | the file a path leads to has the very text of the path as its name exactly when there is no space around it and no empty or dot segment in it |
| ProtectedFiles.SlipsThroughIff | app/security/autonomy.py:57-63 | a text names something protected and is not judged so exactly when it is "env" behind dots and slashes ending in a dot, or a telling word that only a dropped slash was in front of |
| ProtectedFiles.NameSlipsThrough | app/security/autonomy.py:57-63 | for a file under its own name, that is dots and then "env", unless its first segment is three or more dots |
| ProtectedFiles.ProtectedFileIsAllowedIff | app/security/autonomy.py:141-175 | an action on a protected file under its own name can be auto-allowed at some level exactly when the name slips through |
| ProtectedFiles.ProtectedFileIsNeverAllowed | app/security/autonomy.py:141-175 | an action on a protected file under its own name is never auto-allowed when the name does not begin with a dot or a backslash |
| ProtectedFiles.EnvSlipsThrough | app/security/autonomy.py:57-63 | the file .env under its own name is allowed at the highest level, and at the middle one when asked for |
| ProtectedFiles.TextIsNotAlwaysTheFile | app/security/autonomy.py:141-175 | a path with a dot segment, and a file argument beside a path, are allowed although they lead to a protected file |
| Autonomy.AllowedExactly | app/security/autonomy.py:141-175 | exactly when an action is auto-allowed, at every level and after every history |
| Clock.IsNowIff | app/automation/otp_schedule.py:86-91 | "at once" is a blank value or one of three words, in any case and outer spacing |
| Clock.ParseStopTimeIsExact | app/automation/otp_schedule.py:94-117 | accepts exactly blank, a "now" word, or text naming a real time of day, which is stored as HH:MM; refuses exactly everything else |
| Clock.ParseStopTimeIdempotent | app/automation/otp_schedule.py:94-117 | parsing a stored value stores it again |
| Clock.ShorthandsRead | app/automation/otp_schedule.py:94-117 | HH.MM and HHMM read as HH:MM, for every time of day |
| Clock.NextAtIsLeast | app/automation/otp_schedule.py:148-166 | the next occurrence is the least instant after the anchor whose UTC+4 clock reads HH:MM:00, within a day |
| Clock.NextOccurrenceDefined | app/automation/otp_schedule.py:148-166 | defined exactly for usable clock strings |
| Clock.StopAgreesWithNextOccurrence | app/automation/otp_schedule.py:120-145 | a stop time has passed exactly when its next occurrence after the start is not in the future; it raises exactly on integers that are no time of day |
| Schedule.DuePassIsExact | app/automation/otp_schedule.py:386-435 | per country: which timers a pass arms, fires and leaves, and who is reported |
| Schedule.OnePassFiresOnce | app/automation/otp_schedule.py:386-435 | one pass never reports a country twice, however often and however spelled it is listed |
| Schedule.TimerSpacing | app/automation/otp_schedule.py:360-435 | over any mix of operations two firings of a country are a minute apart, and its own interval apart when nothing re-times it |
| Schedule.PausedAndWaitingTimersUntouched | app/automation/otp_schedule.py:399-415 | a pass neither moves nor fires the timer of a paused or not yet started country |
| Schedule.StartedStaysStarted | app/automation/otp_schedule.py:479-501 | once a recorded run has started, no time, settings, preset, pause, refill or configuration makes it wait again before it is begun anew or cleared |
| Schedule.UnanchoredGateNeverOpens | app/automation/otp_schedule.py:479-501 | without a run state a country has started exactly when its start time is no usable time of day |
| Schedule.FinishInstantIsExact | app/automation/otp_schedule.py:542-604 | the verdict on time equals "the finish instant has come", which lies after the clock's beginning and, with a usable stop time, within a day of it |
| Schedule.FinishIsPermanent | app/automation/otp_schedule.py:542-579 | under fixed settings a finished run stays finished |
| Schedule.Scheduler.SetCountryPaused | app/automation/otp_schedule.py:607-619 | pausing keeps the timer, resuming restarts it |
| Schedule.Scheduler.ApplyPresetTo | app/automation/otp_schedule.py:722-733 | writes the preset's fields and re-times only if it has an interval |
| Schedule.Scheduler.BeginCountryRun | app/automation/otp_schedule.py:452-476 | a new run: zero refills, its own gate, anchored now unless told otherwise |
| Schedule.Scheduler.RecordCountryRefill | app/automation/otp_schedule.py:517-529 | counts one refill, creating a run state if there was none |
| Schedule.Scheduler.DueCountries | app/automation/otp_schedule.py:386-435 | the loop equals the specified pass and reports no country twice |
| OtpBot.NumberBot.RemoveActiveFile | app/automation/otp_bot.py:1032-1048 | takes one file out, and switches monitoring off with the last |
| OtpBot.NumberBot.FinishCountry | app/automation/otp_bot.py:1377-1428 | takes the file out and clears the country's run |
| OtpBot.NumberBot.ClassifyQueue | app/automation/otp_bot.py:1642-1694 | decides for each queued file whether it waits, is held back or is to be sent |
| OtpBot.NumberBot.StartAutomation | app/automation/otp_bot.py:1601-1777 | equals the specified start, including every failure path |
| OtpBot.NumberBot.HandleResumeTrigger | app/automation/otp_bot.py:2287-2300 | overwrites the queue with the active files and starts |
| OtpBot.NumberBot.AddAfterWait | app/automation/otp_bot.py:1431-1492 | first adds one by one; a failure is noted and the rest go on |
| OtpBot.NumberBot.ReadyCountries | app/automation/otp_bot.py:2325-2347 | whose turn it is, by timers or by a person's check |
| OtpBot.NumberBot.RefillEach | app/automation/otp_bot.py:2443-2477 | refills in order, retiring the finished, until an error ends the cycle |
| OtpBot.NumberBot.RunCycle | app/automation/otp_bot.py:2307-2498 | equals the specified cycle, whatever fails and wherever |
| OtpStart.StartIsAllOrNothing | app/automation/otp_bot.py:1616-1766 | succeeds exactly when there is a queue, all tags are there and no bot call fails; otherwise nothing stored changes |
| OtpStart.StartMerges | app/automation/otp_bot.py:1653-1747 | afterwards the queue is empty and the active set is the old one without queued countries, in order, then the queue with only its markers changed; each file exactly one of waiting, held, sent |
| OtpStart.StartedWhenPlanned | app/automation/otp_bot.py:1656-1734 | a start arms and begins exactly the queued countries; a file that waits opens at the next showing of its time, any other at once |
| OtpStart.ArmLeavesOthers | app/automation/otp_bot.py:1716-1734 | countries that were not queued keep timer, run and settings |
| OtpStart.StartKeepsOneEachIff | app/automation/otp_bot.py:1740-1746 | one file per country is kept exactly when the queue has one each and respells no active country |
| OtpStart.ResumeDropsUploads | app/automation/otp_bot.py:2287-2300 | resuming discards queued uploads of countries that were not active, even when the start fails |
| OtpCycle.ReadyIsExact | app/automation/otp_bot.py:2325-2347 | ready means listed and started, and either forced or unpaused with an expired timer; a forced check ignores pause and timer |
| OtpCycle.DeedsAreWarranted | app/automation/otp_bot.py:2333-2477 | every add is of an active, started country whose turn had come; every re-add or retirement also of one that ran short (unlisted counts as 0), re-adds only while its run was not finished, retirements only when it was |
| OtpCycle.EveryShortFileIsHandled | app/automation/otp_bot.py:2419-2477 | when nothing goes wrong, exactly the due files that ran short are added again or retired |
| OtpCycle.FirstAddBegins | app/automation/otp_bot.py:1447-1492 | a first add that went through ends the wait and begins a run that is open at once; otherwise the file waits on, to be tried again |
| OtpCycle.RefusalEndsTheCycle | app/automation/otp_bot.py:2443-2490 | the first add the bot refuses is the last thing a cycle does |
| OtpCycle.TimersAdvanceAnyway | app/automation/otp_bot.py:2333-2355 | wherever an error ends the cycle, the timers are those the ready check set |
| OtpCycle.OnlyRetiredLeaveTheCycle | app/automation/otp_bot.py:2452-2456 | the active set loses exactly the retired files, and monitoring goes off exactly with the last |
| OtpCycle.FinishTakesItOut | app/automation/otp_bot.py:1377-1428 | with one active file, a retired country is out and nothing more is done for it in that cycle |
| OtpCycle.RetirementIsUndoneIff | app/automation/otp_bot.py:2443-2477 | with any number of files, when the refills behind it go through, a retired country is acted on again in the same cycle exactly when another due file of it that ran short stands later in the active set |
| OwnSettings.ChangeDecides | app/automation/otp_schedule.py:299-345 | after a change each field has the value put, the general one if cleared, and what it had if kept; nothing else changes |
| OwnSettings.PresetDecides | app/automation/otp_schedule.py:722-733 | a preset gives the fields it has and re-times only with an interval, by a minute at least |
| OwnSettings.PauseDecides | app/automation/otp_schedule.py:607-619 | pausing changes nothing else; resuming restarts the timer on the own interval or ten minutes |
| OwnSettings.ThresholdDecides | app/automation/otp_bot.py:2419-2438 | with a listing, a due file is acted on exactly when its stock, unlisted as zero, is at most its country's own threshold, or the general one when it has none |
| OwnSettings.QuotaDecides | app/automation/otp_bot.py:2419-2438 | without a listing, exactly when the one number is at most the general threshold |
| OwnSettings.StartDecides | app/automation/otp_bot.py:1642-1694 | a queued file waits for its own or the general start time, and is otherwise held back exactly when listed above its own or the general threshold |
| OwnSettings.TimersDecide | app/automation/otp_schedule.py:386-435 | a check by timers reports and re-times exactly by the own or general pause and interval, a minute at least |
| OwnSettings.ForcedCheckDecides | app/automation/otp_bot.py:2325-2347 | a check by hand takes every started country and re-times by the own or general interval |
| OwnSettings.StartTimersDecide | app/automation/otp_bot.py:1716-1734 | a start sets timers by the own or general interval |
| OwnSettings.StartTimeDecides | app/automation/otp_schedule.py:479-501 | a country without a run has started exactly by its own or the general start time |
| OwnSettings.GivenAnchorDecides | app/automation/otp_schedule.py:452-501 | a run begun at a given instant opens at the next showing of its start time after that |
| OwnSettings.RefillLimitDecides | app/automation/otp_schedule.py:542-562 | a started run is out of refills exactly at the own or general limit, if there is one |
| OwnSettings.StopAndLengthDecide | app/automation/otp_schedule.py:562-604 | with refills left, exactly when a started run is over for its own or general stop time, and when for its length |
| OtpHistory.NothingAfterFinish | app/automation/otp_bot.py:2307-2498 | over any history a country with no stored file is never sent by a start or a resume, and never added or retired by a cycle, until a file of it is uploaded |
| OtpHistory.TwoFilesDefeatTheFinish | app/automation/otp_bot.py:1425-1428 | with two active files, retiring one re-adds the other in the same cycle |
| OtpHistory.RefillCounterIsBounded | app/automation/otp_schedule.py:517-562 | with a fixed positive limit the refill counter never exceeds it in any history |
| OtpLimit.LimitMeansThatMany | app/automation/otp_bot.py:2362-2471 | with one active file, waiting or not, and no new run by hand, the stored counter tells all re-adds exactly when no first add went through after one, and then they stay within the limit |
| OtpLimit.FirstTryKeepsTheLimit | app/automation/otp_bot.py:1431-1492 | the limit holds over every history for a file that is not waiting, and for a waiting one whose first add goes through the first time its turn comes |
| OtpLimit.WaitingFileDefeatsTheLimit | app/automation/otp_bot.py:2362-2471 | a waiting file whose first adds are refused until the limit is reached and then accepted is re-added once more than the limit says |
| OtpLimit.LimitHoldsIffNotWaiting | app/automation/otp_bot.py:2362-2471 | for a file active alone without stop time or run length, the limit holds over all histories exactly when it is not waiting |
| Providers.OrderIsActiveThenRanked | app/llm/manager.py:448-463 | the active provider first, then exactly the other usable ones, anthropic before openai before omniroute before ollama before the rest, equals as configured, and nobody twice when no key is configured twice |
| Providers.LlmManager.InCooldown | app/llm/manager.py:488-495 | true exactly before the deadline; a passed deadline is dropped |
| Providers.LlmManager.RecordFailure | app/llm/manager.py:497-517 | one strike more and the wait that goes with it |
| Providers.LlmManager.LiveProviders | app/llm/manager.py:539-552 | the order without whoever is cooling down |
| Providers.LlmManager.AskEach | app/llm/manager.py:553-574 | asks in turn until one answers, recording every failure |
| Providers.LlmManager.Chat | app/llm/manager.py:539-574 | equals the specified chat, last resort included |
| Providers.LiveKeepsOrder | app/llm/manager.py:539-552 | the live list is the order without exactly those cooling down, everyone in place |
| Providers.AskedInOrder | app/llm/manager.py:553-574 | asked one after the other in order until one answers; nobody answers only when all were asked and failed |
| Providers.CoolingIsAskedIff | app/llm/manager.py:539-574 | a provider whose deadline is ahead is asked exactly when it is last in the order and everybody in the order is cooling down |
| Providers.ChatAsksAtMostOnce | app/llm/manager.py:539-574 | a failing provider that is not that last resort is asked at most once per chat, and only past its deadline |
| Providers.FailingProviderIsHeldBack | app/llm/manager.py:497-574 | over any serialised chats its n-th failure is followed by at least the n-th wait |
| Providers.DeadlineDoubles | app/llm/manager.py:497-517 | a failure puts the deadline off by 120, 300 or 3600 s by its kind, doubled for every strike before it, 7200 s at most, and touches nobody else |
| Providers.LeastWaitShape | app/llm/manager.py:497-517 | waits grow from two minutes to two hours, reached at the seventh strike |
| Providers.AtMostSevenPlus | app/llm/manager.py:497-517 | attempts kept that far apart number at most 7 + T / 2 h in any stretch T |
| Providers.CooldownBound | app/llm/manager.py:474-574 | over any chats the i-th failure is followed by at least 120 s doubled i times, or 7200 s, and any stretch T holds at most 7 + T / 2 h attempts, from any starting memory |
| Providers.OneSuccessResets | app/llm/manager.py:519-524 | after one success the next failure starts from the short wait |
| Providers.LastResortIsAskedAnyway | app/llm/manager.py:546-552 | with everyone cooling down the last in the order is asked at once |
| JsonScan.Scan | app/llm/base.py:138-169 | the loop equals the specified scan and records what it tried |
| JsonScan.ScanIsSound | app/llm/base.py:138-169 | every chunk decoded is a balanced object outside strings, in order, without overlap; the result is the decoding of the last (strings and escapes as in section 7 of RFC 8259) |
| JsonScan.TriedIff | app/llm/base.py:138-169 | a chunk is decoded exactly when it is a balanced object whose brace is outside strings, behind as many opened as closed braces, and no such object before it decodes |
| JsonScan.FindsIff | app/llm/base.py:138-169 | the scan finds an object exactly when some such chunk decodes |
| JsonScan.ScanIsComplete | app/llm/base.py:138-169 | prose without braces or quotes, then a decodable object, then anything: exactly that object is returned and nothing else is tried |
| RateLimit.Limiter.RateOk | app/telegram/bot.py:113-121 | prunes, compares and appends as specified |
| RateLimit.StoredCountsAreTrue | app/telegram/bot.py:113-121 | the pruned list holds as many live entries as messages were really accepted in the window |
| RateLimit.RefusedIffFull | app/telegram/bot.py:113-121 | a message is accepted exactly when fewer than the limit were in the preceding sixty seconds |
| RateLimit.WindowBound | app/telegram/bot.py:113-121 | every half-open sixty-second window holds at most the limit |
| Turns.SplitSystem | app/llm/anthropic_client.py:74-90 | non-empty, strictly alternating from the user, telling every non-system message in order; a filler exactly when needed |
| Turns.NothingIsLost | app/llm/anthropic_client.py:74-90 | each non-system message's text is part of a turn of its own side |
| CountryWords.SameCountryIff | app/automation/country_names.py:120-200 | two names match exactly when both have a letter or digit and: the letters are equal; or one touches a family and it lists both for one country; or else an alias has both, or significant words shared and all of one among the other's, or none shared and the letters of one begin with the other's |
| CountryWords.SameKeyIff | app/automation/country_names.py:203-212 | names share a key exactly when their words are the same, in any case and spacing |
| CountryNames.SameCountryIsSymmetric | app/automation/country_names.py:158-200 | the order of the names does not matter |
| CountryNames.SameCountryIsReflexive | app/automation/country_names.py:158-200 | a name is its own country exactly when it has a letter or digit |
| CountryNames.FamiliesMatchByCodeOnly | app/automation/country_names.py:135-182 | different spellings touching a colliding family match exactly when both are listed there under one country |
| CountryNames.DifferentFamiliesNeverMatch | app/automation/country_names.py:158-182 | names of two families never match |
| CountryNames.NormalisingMakesNoDifference | app/automation/country_names.py:203-212 | case and spacing never change the answer |
| CountryNames.FindIsExact | app/automation/country_names.py:203-212 | the exact entry if present, otherwise a matching one, and none only when nothing matches |
| PhoneCountries.LongestPrefixWins | app/automation/phone_countries.py:216-262 | the region of the one longest calling code the number starts with, and none exactly when it starts with none (clause 6.2 of ITU-T E.164) |
| PhoneCountries.CountryIs | app/automation/phone_countries.py:265-277 | the name, or else the region, of the longest calling code; a plus sign and up to three digits without one; unknown without a digit |
| PhoneCountries.SplitByCountry | app/automation/phone_countries.py:314-327 | each country that occurs has exactly its own non-blank lines, in order |
| PhoneCountries.CountByCountry | app/automation/phone_countries.py:330-337 | each country that occurs has the number of its lines |
| PhoneCountries.GroupsKeepFileOrder | app/automation/phone_countries.py:314-327 | a group is its country's lines at increasing places of the file, with none left out |
| PhoneCountries.GroupsPartitionTheFile | app/automation/phone_countries.py:314-327 | group sizes add up to the number of lines |
| PhoneCountries.SplitAndCountAgree | app/automation/phone_countries.py:314-337 | splitting and counting name the same countries with the same sizes, summing to the file |
| Durations.PrintedLengthReadsBack | app/automation/otp_bot.py:1132-1182 | for every integer, what its printed form reads back as |
| Durations.BareNumberReads | app/automation/otp_bot.py:1171-1178 | a number alone reads as that many minutes up to 100 000 and is refused above |
| Durations.NoLimitReads | app/automation/otp_bot.py:1155-1163 | text with one of the listed phrases anywhere in it, or that is one of the listed words, reads as no limit whatever else it says |
| Amounts.UnitsAre | app/automation/otp_caption.py:80-82 | which words are units, and of how many minutes |
| Amounts.EveryUnitReads | app/automation/otp_caption.py:72-82 | up to four digits, any space or none, and any listed unit in any case read as that many minutes; an amount of nothing is refused |
| Durations.NoPhraseIsPrinted | app/automation/otp_caption.py:98-103 | no printed amount contains a phrase for "no limit" |

## Left out

- Text is ASCII: case folding, digits and white space outside ASCII are not modelled.
- Time stamps are UTC instants; a stored stamp without a zone is not modelled.
- Each schedule operation, and the ready check of a cycle, sees one reading of the clock, where the program may read it several times.
- Entry ids are compared as numbers; the marker of a waiting file comes off every active file with its id, where the program takes the last one stored under it.
- OtpBot: uploading, tagging and removing by country are single-file steps of a history; splitting an upload is `PhoneCountries`; result messages, the add count and deleting on the bot after a finish, which cannot fail a cycle, are not modelled.
- OtpBot: the bot's texts are read by the caller: a stock report, a quota number, accepted or refused.
- ClaimProtocol.MutualExclusion: a worker stops at the end of the lease it believes in, where the program relies on its heartbeat to renew the lease in time; the four steps that do not look at the owner are taken under their exact conditions.
- ClaimProtocol: terminal statuses are not absorbing; see `ComesBackIff` and `PersistSafeIff`.
- Tasks: rows are in creation order, which settles ties of the creation time.
- Engine: planning, stored history, output files, notifications and learning; the "error" outcome, which no step returns. In the model of a single run nobody else writes the row between loading and writing the counter; `ClaimProtocol` has that.
- OtpHistory.RefillCounterIsBounded: the clock does not go back within a cycle, as `OtpLimit` assumes too.
- Executor: in `Executor` a call is one step; `Ledger` has its lookup, run and record apart, without the gate; the audit log and notifications are absent.
- Autonomy: whether the owner's words asked for an action, and the signature of an action, are inputs.
- ProtectedFiles.TextIsTheFileIff: symbolic links, absolute paths and paths that leave the workspace and come back are not followed.
- Providers: what kind of failure an error text means is an input; chats do not overlap; switching providers, presets and persistence are absent.
- Providers.CooldownBound: is for a provider that is never the last resort, in orders without a repeated key; for the last resort it is false, see `LastResortIsAskedAnyway`.
- JsonScan: trying the whole text and fenced blocks before the scan; the decoder is a parameter.
- JsonScan.ScanIsSound: the decoder never answers "not an object" on text that starts with a brace, as no JSON decoder does; `TriedIff` and `FindsIff` assume it too.
- PhoneCountries: the library lookup that comes before the table; the tables are parameters with distinct codes; the order in which counts are listed.
- Durations: the caption parser's other phrases, start and stop times.
- The web service, chat handlers, browser, speech, bridge clients, credentials, prompts, and path sandboxing beyond `ProtectedFiles`.
