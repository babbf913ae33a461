# cronsole, modelled in Dafny

A model of cronsole's scheduling core and proofs about it, for Dafny 4.11:
`dafny verify dfyconfig.toml` in this directory checks all of it.

The source is a Go service that fires HTTP jobs on cron expressions. Any number of
replicas share one PostgreSQL table of runs and no leader; the SQL statements are the
atomic steps. The model has these parts.

**Runs** (`exec_repo`, `run_protocol`, `run_safety`, `run_history`, `chain_fires`,
`chain_bounds`, `chain_loops`, `single_run`, `runner`, `runner_path`, `chain_timers`). `ExecRepo` gives every statement's effect on
the table, as a function and as a method of a class. `RunProtocol` is the state machine
of everybody at once: ticks, calls to the runner with their program counter, chain
steps, sweeps, crashes and configuration changes, in any order. The safety results hold
in every behaviour of it. `Runner` is the same call as imperative code, and
`RunnerPath` proves that it is one path of the machine.

**Ticks** (`dispatcher`, `tick`, `tick_laws`, `tick_path`, `catchup`). The loops that choose minutes, open rows
and hand pending rows over, with any statement failing (`TickPath` proves a tick to be a path
of the run machine); and a machine of replicas whose
pulse reads, pulse writes and inserts interleave and fail, for what an outage or a
failing tick loses.

**Cron expressions** (`text`, `calendar`, `cronexpr`, `search`, `cron_next`,
`cron_grammar`, `cron_texts`, `cron_laws`, `upcoming`, `next_runs`). Parsing on 64-bit integers, the proleptic Gregorian calendar,
the forward search against a minute-by-minute scan, and the merge of several
expressions by an in-place sort.

**The chain graph** (`chain_graph`, `chain_links`). Two reachability checks with a
depth bound, and every sequence of guarded insertions and deletions.

**Declarative sync** (`job_input`, `declared`, `registry`, `sync`, `sync_service`,
`sync_laws`). Set-or-keep,
defaults, validation, the two passes and the prune.

**Membership** (`members`, `member_laws`), **the logger** (`applog`) and **the limiter**
(`ratelimit`). A grant and revoke machine, the close protocol at lock granularity, and
the fixed window with its collection.

`domain`, `scope` and `common` hold what these share.

Beside each part stand laws that say what its operations do without naming the functions
the methods are proved against: which link fires after which outcome (`ChainFires`), what a
sweep closes (`RunHistory`), which minutes get rows in seconds of the clock (`TickLaws`), on
which minutes of which dates a text falls (`CronGrammar`, `CronLaws`), what a declared job
becomes (`Declared`, `SyncLaws`) and who may change a membership (`MemberLaws`).

## What the proofs say about the code

Where the code does less than its comments suggest, a lemma shows the input and another
says exactly when it does what is meant.

- The `single_run` check and the claim are two statements and race
  (`SingleRun.CheckAndClaimRace`); runs stay apart exactly when no claim takes a row while
  another, taken since that call's own check, is running (`SingleRun.NeverOverlapsIff`).
- A tick writes the pulse before it opens rows, so one that fails in between uses its
  minutes up (`CatchUp.FailedTickLoses`). Exactly what is lost: `CatchUp.SkippedLostIff`
  and `CatchUp.OwnMinuteLostIff` for ticks one after another, `CatchUp.ExactCatchUp` for
  any interleaving.
- The loop check of a chain link buys cycles of seven links and more, no shorter ones
  (`ChainLinks.CycleStorableIff`). With the depth bound that is enough while the links of
  all moments stay within one set without a shorter cycle: no chain comes back to a job it
  has run (`ChainLoops.NoJobComesBack`), and with a shorter one in the set some chain does
  (`ChainLoops.NoJobComesBackIff`). Links edited in between can pass the check at every
  moment and still let a chain come back (`ChainLoops.EditedLinksComeBack`).
- The comment on the default scan window says that what has not matched in a year never
  will. An expression for 29 February only is missed by it, and nothing else is
  (`CronNext.WindowCompleteIff`). A job with "0 0 29 2 *" alone gets wrong merged runs,
  however many are asked for (`JobNextRuns.LeapJobIsWrong`); the first n are right exactly
  when every firing on 29 February is also one of another kind of expression, or n of those
  come before it (`JobNextRuns.MergeRightIff`).
- A step so large that the loop counter wraps adds values outside the field, negative
  ones among them (`CronTexts.LargestStepField`, `CronExpr.FieldInBoundsIff`); and a bare
  value above the maximum is accepted next to other parts when it carries a step
  (`CronExpr.ValueAboveMaximum`, `CronExpr.FieldAcceptedIff`).
- With such values the forward search is no longer the least match: it may return a moment
  the membership test rejects (`Search.CarriedHourIsWrong`). It is the scan exactly for the
  texts whose minute and hour steps stay in range, or if no date matches at all
  (`CronNext.SearchIsScanIff`).
- A nil schedule list in a sync clears the stored ones although a comment says that it
  keeps them (`JobInput.EveryMinuteCleared`; `JobInput.OmittedSchedulesCleared` for every
  declaration).
- Validation has no upper limit for `max_duration_sec`; the table has
  (`JobInput.LongLimitAccepted`; no other check differs, `JobInput.SchemaAgreesIff`).
- A member held through a role over all projects is shown as removable and cannot be
  removed (`Members.RemovableYetRefused`, `Members.RevokeIff`). A granted role that is
  inactive cannot be revoked again (`Members.InactiveGrantStays`,
  `Members.RevokeUndoesGrantIff`).
- A chain timer whose callback has passed the closed check dispatches after the close
  returned (`ChainTimers.LateDispatch`); no other does (`ChainTimers.AfterClose`).
- The limiter reads the clock before it takes its lock; attempts counted in the other order
  can be told apart from those of a limiter that never collects
  (`RateLimit.ClockBackShows`), exactly when one falls in a window that has not expired at
  its moment and that an earlier collection had seen expired (`RateLimit.SameAnswersIff`).
- With a clock that never goes back and no reset the limiter's bound over a period is one
  attempt below twice the limit, and is reached (`RateLimit.AtMostInPeriod`,
  `RateLimit.BoundIsTight`). In the other order of lock and clock it does not hold
  (`RateLimit.ClockBackBreaks`), not even when no attempt is late in the sense above
  (`RateLimit.SwingsBreak`). It holds for every limit and every number of repeated
  attempts exactly when no interval as long as the period sees two windows of the key
  begin or has attempts of three (`RateLimit.AlwaysBoundedIff`).

A sweep can close a row whose runner is alive; that runner then writes over it. It is the
only way a closed row ever changes (`RunSafety.OnlyTheRunnerReopens`).

## Model

| member | source | states |
|---|---|---|
| `RunSafety.StatusOverTime` | internal/repository/exec_repo.go:195-305 | in every interleaving a row keeps its job, minute, delay and parent, and its status only moves pending to running or skipped, running to an outcome, timeout to success or failed; never back to pending |
| `RunSafety.ClaimedAtMostOnce` | internal/repository/exec_repo.go:272-284 | no behaviour, however its ticks, calls, sweeps and crashes interleave, takes the same row twice: one execution per row |
| `RunSafety.OneRowPerJobAndMinute` | internal/repository/exec_repo.go:132-138 | two rows of one job with the same planned minute are the same row, whatever raced to open it |
| `RunSafety.OwnOutcomeIsFinal` | internal/service/runner.go:154-173 | the outcome a row's own runner wrote is what every later state shows |
| `RunSafety.SkippedIsFinal` | internal/repository/exec_repo.go:195-200 | a skipped row never changes again |
| `RunSafety.OnlyTheRunnerReopens` | internal/repository/exec_repo.go:287-305 | the only change ever made to a closed row: a sweep had closed it as timeout while its runner, which had claimed it, was still out, and that runner writes success or failed over it |
| `RunSafety.ChildOrigin` | internal/service/runner.go:292-331 | every child row: its parent's runner wrote success or failed, later listed its job's links, and only then was the child inserted; the link was active, led from the parent's job to the child's, which was not deleted, and said always, or success after a success, or failure after a failure; the parent still shows that outcome |
| `ChainFires.ListsExactly` | internal/repository/exec_repo.go:330-345 | in every behaviour a link is in the listing of a finished run if and only if it is active, leaves the run's job for one that is not deleted, and says always, or success with the row in success, or failure with the row in failed |
| `ChainFires.ChildInserted` | internal/repository/exec_repo.go:384-402 | a chain step inserts one row for its target, under its run: pending and due after the link's delay, cut to 3600 seconds, if the target is active and the run has fewer than five ancestors; skipped otherwise |
| `ChainFires.EveryTargetHandled` | internal/service/runner.go:369-427 | no link that fires is passed over: a call that has listed its targets, lives and has none left took a step for it, which inserted its row or lost it to a failing statement |
| `RunSafety.NoChildrenUnlessEnded` | internal/service/runner.go:319-330 | a row that ended as timeout or skipped, or has not ended, has no child |
| `RunProtocol.InvAlways` | internal/service/runner.go:105-174 | in every reachable state ids come from the sequence, parents are ended and inserted earlier, running rows have a start, no two live calls own one row, and a call past its finish still finds its own outcome in its row |
| `ChainBounds.DepthBounded` | internal/service/runner.go:369-400 | whatever the link graph does, cycles included: at most five ancestors unless skipped, at most six in any case, and the walk cut at fifty computes the true depth |
| `ChainBounds.OpenedPendingDepth` | internal/repository/exec_repo.go:384-391 | a run that was ever pending has at most five ancestors, whatever became of it |
| `ChainBounds.ChainsEnd` | internal/domain/exec.go:34-35 | with out-degree at most d the executions one run causes, directly or not, number at most d + d^2 + d^3 + d^4 + d^5 over a whole behaviour |
| `ChainLoops.NoJobComesBack` | internal/service/runner.go:369-400 | while the links of all moments together stay within one set with no closed walk of six or fewer, longer cycles or not, no row, executed or skipped, has a row of its own job above it |
| `ChainLoops.NoJobComesBackIff` | internal/service/runner.go:369-400 | all behaviours with their links within a set keep chains from coming back if and only if the set has no closed walk of six or fewer |
| `ChainLoops.EditedLinksComeBack` | internal/service/runner.go:369-400 | a concrete behaviour: a link one way, then removed and put the other way; no moment's links have a closed walk of any length, and a row of job 1 has a row of job 1 above it |
| `SingleRun.NeverOverlapsIff` | internal/service/runner.go:116-143 | a job that is single_run whenever it is configured never has two running rows if and only if no claim takes a row of it while another one, taken between that call's own check and its claim, is running |
| `SingleRun.OwnCheck` | internal/service/runner.go:120-134 | a call about to claim a row of such a job has passed its own check, at which no other row of the job was running, and has done nothing since |
| `SingleRun.AtomicCheckKeepsApart` | internal/service/runner.go:120-134 | with the check and the claim taken as one step, no state has two running rows of the job |
| `SingleRun.CheckAndClaimRace` | internal/service/runner.go:120-134 | as the two statements they are, a concrete behaviour reaches two running rows of a single_run job |
| `SingleRun.SweepLeavesNothingStuck` | internal/repository/exec_repo.go:412-430 | right after a sweep no running row is older than its job's max_duration |
| `SingleRun.SweepUnblocks` | internal/repository/exec_repo.go:412-430 | a job whose running rows have all outlived max_duration is free after the next sweep: a waiting call's check passes |
| `RunHistory.SweepClosesIff` | internal/repository/exec_repo.go:412-430 | a sweep closes a running row as timeout if and only if the claim that took it lies more than its job's max_duration back, and changes no other row |
| `RunHistory.SkippedBecause` | internal/service/runner.go:116-134 | a call that skips its row began when the job was single_run and, later, saw another row of the job running |
| `RunHistory.LookThenClaim` | internal/service/runner.go:116-143 | a look that finds another row of the job running blocks the call; one that finds none leads to the claim, which makes a pending row running with the clock as its start |
| `ExecRepo.WalkIsDepth` | internal/repository/exec_repo.go:364-377 | the upward walk measures the number of ancestors, up to its limit of fifty |
| `ExecRepo.QueueRunTwice` | internal/repository/exec_repo.go:132-138 | queueing a minute any number of times leaves exactly one row for it |
| `ExecRepo.Repository.DoQueueRun` | internal/repository/exec_repo.go:132-138 | inserts a pending row unless the job has one for the minute |
| `ExecRepo.Repository.DoEnqueue` | internal/repository/memrepo/repos.go:929-940 | inserts a pending row for no minute, as often as it is asked for |
| `ExecRepo.Repository.DoSkipRun` | internal/repository/exec_repo.go:195-200 | closes a row as skipped only while it is pending |
| `ExecRepo.Repository.DoClaimRun` | internal/repository/exec_repo.go:272-284 | takes a pending row and says so; otherwise changes nothing |
| `ExecRepo.Repository.DoFinishRun` | internal/repository/exec_repo.go:287-305 | writes the outcome whatever the status was |
| `ExecRepo.Repository.DoCloseStuckRuns` | internal/repository/exec_repo.go:412-430 | closes exactly the running rows older than their job allows, and counts them |
| `ExecRepo.Repository.DoCreateChainRun` | internal/repository/exec_repo.go:384-391 | inserts a pending child due after its delay |
| `ExecRepo.Repository.DoCreateChainSkipped` | internal/repository/exec_repo.go:397-402 | inserts a child already skipped |
| `ExecRepo.Repository.DoChainStepCount` | internal/repository/exec_repo.go:364-377 | the loop up the parents equals the bounded walk |
| `ExecRepo.Repository.DoCountRunningForJob` | internal/repository/exec_repo.go:259-264 | the number of the job's running rows other than the excluded one |
| `Runner.Execute` | internal/service/runner.go:177-212 | the last attempt made decides; none follows a success, a timeout or a cancelled pause, and there are at most retries + 1 |
| `Runner.SucceedsIff` | internal/service/runner.go:186-211 | the run succeeds if and only if some request does after nothing but failures with an uncancelled pause |
| `Runner.TriggerChain` | internal/service/runner.go:369-427 | the rows inserted for the listed targets, and exactly which of them get a timer in this process |
| `Runner.ChainOne` | internal/service/runner.go:382-425 | one linked job: skipped when inactive or five steps deep, else queued, and handed over directly only with a delay of at most 120 seconds, no running row of a single_run target, and the timers open |
| `Runner.Finish` | internal/service/runner.go:292-331 | outcome first, chain after; a timeout or an unwritten outcome triggers nothing |
| `Runner.Run` | internal/service/runner.go:105-174 | read, check, claim, execute, close: exactly when this call executes the row, and the table it leaves, with any statement failing, the read of the row included, or the row gone |
| `RunnerPath.CallIsAPath` | internal/service/runner.go:105-174 | what the imperative call does alone, some sequence of protocol steps does: the machine the safety results are about allows it |
| `ChainTimers.InvAlways` | internal/service/runner.go:462-517 | in every order of schedule, callback and close each run is in one place, and no timer is armed once closed, or at all without a dispatch |
| `ChainTimers.CountsAddUp` | internal/service/runner.go:481-517 | scheduled runs are the dispatched, stopped, dropped and still waiting ones together, none counted twice |
| `ChainTimers.AfterClose` | internal/service/runner.go:488-500 | after the close only callbacks that had already found the timers open still dispatch |
| `ChainTimers.LateDispatch` | internal/service/runner.go:488-500 | one such callback exists: a dispatch after the close has returned |
| `ChainTimers.Timers.DoSchedule` | internal/service/runner.go:481-502 | refuses once closed or when there is nobody to dispatch to, else arms a timer |
| `ChainTimers.Timers.DoLook` | internal/service/runner.go:488-500 | the callback's section under the lock |
| `ChainTimers.Timers.DoClose` | internal/service/runner.go:504-517 | stops every armed timer and counts them |
| `Dispatch.MissedMinutes` | internal/service/dispatcher.go:256-270 | the loop lists the minutes after the last pulse, at most missScanMin back |
| `Dispatch.CandidateMinutes` | internal/service/dispatcher.go:319-331 | the current minute, and for a run_missed job the missed ones within max_delay_min |
| `Dispatch.CandidateIff` | internal/service/dispatcher.go:256-331 | a tick looks at its own minute and back to the last pulse exactly as far as both limits allow |
| `Dispatch.TickOpensFew` | internal/service/dispatcher.go:276-331 | however long the outage, one tick opens at most 1 + min(missScanMin, max_delay_min) rows of a job |
| `Dispatch.AttemptsIff` | internal/service/dispatcher.go:276-316 | the tick tries a row exactly when the job is listed, the minute is a candidate and one of its valid expressions falls on it |
| `Dispatch.QueueAllOpens` | internal/service/dispatcher.go:306-311 | afterwards a minute has a row exactly if it had one or one of the statements for it ran without error; other rows are untouched and new ones pending |
| `Tick.QueueDue` | internal/service/dispatcher.go:276-316 | the nested loops open the rows of every attempt in order, any of the statements failing; a dry run opens none; a broken expression skips only itself |
| `Dispatch.MinuteConservation` | internal/service/dispatcher.go:183-191 | over ticks with non-decreasing minutes the gaps add up to the span plus one minus the distinct minutes, and the repeats to the ticks minus the distinct minutes |
| `Tick.Dispatcher.AuditMinute` | internal/service/dispatcher.go:183-191 | gap and repeat against the previous tick's minute |
| `Tick.ListPending` | internal/repository/exec_repo.go:168-189 | the first eligible rows by priority and id, as many as the limit, or all |
| `Tick.HandOver` | internal/service/dispatcher.go:379-395 | each listed row is exactly one of dispatched, skipped and write error; every other row keeps its status |
| `Tick.DispatchPending` | internal/service/dispatcher.go:359-397 | nothing over the quota, else the listing handed over; exactly when it gets past its statements |
| `Tick.QuotaKept` | internal/service/dispatcher.go:365-397 | a tick touches at most max(0, maxConcurrent - running) rows, and dispatched, skipped and write errors add up to the rows listed |
| `Dispatch.SingleRunOnce` | internal/service/dispatcher.go:379-394 | a single_run row is dispatched if and only if its job was not running at the snapshot and no earlier row of it was dispatched in this tick |
| `Tick.Dispatcher.Body` | internal/service/dispatcher.go:151-248 | one tick with any statement failing: the minute that holds its second, pulse, audit, rows opened, rows handed over; the pulse is written before any row is opened |
| `Tick.Dispatcher.Run` | internal/service/dispatcher.go:151-155 | a tick that finds the previous one still going does nothing; any other leaves what its statements leave |
| `TickLaws.OpenedIff` | internal/service/dispatcher.go:167-316 | in seconds: after a tick a minute of a job has a row if and only if it had one or a statement for it did not fail; where none fails, if the job is listed, one of its expressions falls on it, and it is the minute the tick is in or, for a run_missed job, a whole minute between the pulse and that one within both limits |
| `TickLaws.ListedRows` | internal/repository/exec_repo.go:168-189 | the rows a tick deals with: pending and due ones, the smaller priority first and then the older, at most 500 and the quota, none left out that goes before a listed one or for which there is room |
| `TickLaws.Fates` | internal/service/dispatcher.go:379-395 | a listed row is dispatched if and only if it is not a single_run row whose job had a running row or a row dispatched earlier in the tick; else it is skipped, or left as it is where its statement fails |
| `TickLaws.WithinLimit` | internal/service/dispatcher.go:359-378 | running and listed rows together stay within maxConcurrent, and nothing is listed when the running ones fill it |
| `TickPath.TickIsAPath` | internal/service/dispatcher.go:151-248 | what a tick does to the table alone, whichever of its statements fail, some sequence of protocol steps does: one a successful insert and one a successful skip |
| `CatchUp.EveryMinuteOnce` | internal/service/dispatcher.go:198-242 | any replicas, statements interleaved and failing, any pulse and rows at the start, gaps no longer than both limits: some tick took up each due minute after the first pulse and up to the latest; it has its one row unless it had none and every tick that took it up failed it |
| `CatchUp.ExactCatchUp` | internal/service/dispatcher.go:198-242 | with the pulse written in minute order the rows are exactly those of the start and of the due minutes after the first pulse (its own only if a tick ran in it; from the first tick on if there was no pulse) up to the latest tick, but for the minutes that every tick that took them up failed |
| `CatchUp.RowIff` | internal/service/dispatcher.go:206-242 | once no tick has rows left to open a minute has a row if and only if it had one at the start or some tick took it up and did not fail it |
| `CatchUp.FailedTickLoses` | internal/service/dispatcher.go:206-236 | a concrete behaviour without a skipped minute: the tick of one minute fails after its pulse write and the minute never gets a row |
| `CatchUp.SkippedLostIff` | internal/service/dispatcher.go:206-331 | ticks one after another, each ending before its pulse, after it, or with some statements failing: a due minute between the pulse a tick reads and its own minute is lost if and only if the tick fails before listing, or every statement for it fails, or it is out of reach |
| `CatchUp.OwnMinuteLostIff` | internal/service/dispatcher.go:206-316 | a due minute in which a tick wrote the pulse is lost if and only if every tick of that minute fails it |
| `CatchUp.TodoIsAttempted` | internal/service/dispatcher.go:276-316 | the minutes the machine opens for a job are those the dispatcher tries for it |
| `CatchUp.TickIsRun` | internal/service/dispatcher.go:276-316 | the rows a tick's inserts leave, any of them failing, are those of one such run |
| `CatchUp.OtherStepsKeepMinutes` | internal/repository/exec_repo.go:195-430 | every step of the run protocol but queueing leaves the rows' minutes alone, so the machine's environment covers it |
| `CronExpr.ParseIff` | pkg/cronexpr/cronexpr.go:64-92 | exactly which texts are accepted, and what each set and star flag then is, with 7 folded into 0 after expansion |
| `CronLaws.MatchesIff` | pkg/cronexpr/cronexpr.go:176-212 | an accepted text without an overflowing step falls on a minute of a date if and only if its fields say so: minutes 0 to 59, hours 0 to 23, days 1 to 31, months 1 to 12, weekdays counted from a known Monday with 0 and 7 for Sunday, either day field when both are restricted |
| `CronGrammar.PartReadsIff` | pkg/cronexpr/cronexpr.go:117-166 | a part means start, end and step if and only if its text is a star, a number or two numbers around the first dash, with a step of at least one behind the first slash or none, inside the field's bounds |
| `CronExpr.ParseReadsFields` | pkg/cronexpr/cronexpr.go:65-73 | white space between fields does not matter |
| `CronExpr.ParseRaw` | pkg/cronexpr/cronexpr.go:283 | the normalised text of an expression parses to that expression, sets and star flags included |
| `CronExpr.FieldExactIff` | pkg/cronexpr/cronexpr.go:101-172 | a field's set is the union of its parts' progressions if and only if no part's step overflows 64 bits |
| `CronExpr.FieldInBoundsIff` | pkg/cronexpr/cronexpr.go:164-170 | a field's values lie within its bounds if and only if no step overflows |
| `CronExpr.FieldAcceptedIff` | pkg/cronexpr/cronexpr.go:101-115 | a field is accepted exactly when every part is and some part is not empty |
| `CronExpr.SpanForms` | pkg/cronexpr/cronexpr.go:117-166 | what each of the six forms of a part denotes |
| `CronExpr.ExpandIff` | pkg/cronexpr/cronexpr.go:168-170 | the stepping loop gives the progression if and only if start + step fits in 64 bits |
| `CronTexts.LargestStepField` | pkg/cronexpr/cronexpr.go:101-172 | the minute field "59/9223372036854775807" is accepted, and its set has 57, which it does not denote, and a negative value |
| `CronTexts.LargestStepText` | pkg/cronexpr/cronexpr.go:64-92 | that field and four stars parse, fire on minute 57 as well, and the search for them is not the scan |
| `CronTexts.LeapDayText` | pkg/cronexpr/cronexpr.go:64-92 | "0 0 29 2 *" parses to midnight on 29 February, whatever the weekday |
| `CronLaws.YearlyIff` | pkg/cronexpr/cronexpr.go:176-212 | an expression for one minute of one date falls exactly on that minute of that date in the years that have it |
| `CronLaws.WeeklyParses` | pkg/cronexpr/cronexpr.go:64-115 | a minute, an hour, two stars and a weekday from 0 to 7 parse to that expression, 7 meaning Sunday too |
| `CronLaws.WeeklyIff` | pkg/cronexpr/cronexpr.go:176-212 | an expression for one minute of one weekday falls exactly on the minutes whole weeks from its one in the week of 1 January 2024 |
| `CronLaws.MondayText` | pkg/cronexpr/cronexpr.go:64-212 | "0 0 * * 1" falls exactly on the midnights whole weeks from that of Monday 1 January 2024 |
| `CronLaws.LeapDayTextIff` | pkg/cronexpr/cronexpr.go:64-212 | "0 0 29 2 *" falls exactly on the midnights of 29 February in leap years |
| `CronExpr.ValueAboveMaximum` | pkg/cronexpr/cronexpr.go:149-166 | a bare value above the maximum is accepted when it carries a step, and denotes nothing |
| `CronExpr.ParseText` | pkg/cronexpr/cronexpr.go:64-92 | the parser's loops compute the parse the other statements are about |
| `CronExpr.ParseField` | pkg/cronexpr/cronexpr.go:101-115 | the loop over comma parts |
| `CronExpr.ParsePart` | pkg/cronexpr/cronexpr.go:117-172 | one part added to the field's set |
| `CronExpr.FillSpan` | pkg/cronexpr/cronexpr.go:168-170 | the stepping loop on 64-bit integers |
| `Calendar.DateOfDay` | pkg/cronexpr/cronexpr.go:176-187 | every day number is a valid date that counts back to it |
| `Calendar.DayOfDate` | pkg/cronexpr/cronexpr.go:241 | every valid date is read back from its day number |
| `Calendar.WeekdaysInTurn` | pkg/cronexpr/cronexpr.go:176-187 | 1 January 2024 is a Monday, and the weekdays come round from Sunday, 0, to Saturday, 6 |
| `Search.SearchDay` | pkg/cronexpr/cronexpr.go:239-246 | the hour and minute loops find the first hour and minute of the day, in their own order, whose moment is not before the start, also for values no clock has |
| `Search.FindNext` | pkg/cronexpr/cronexpr.go:224-254 | the first such day, hour and minute of the window; with clock values the search equals the minute-by-minute scan |
| `CronNext.FindNextRun` | pkg/cronexpr/cronexpr.go:224-254 | the same for an expression, with the default window for maxDays of zero or less; with clock values the minute-by-minute scan |
| `CronNext.FoundIsLeast` | pkg/cronexpr/cronexpr.go:176-254 | with clock values the search returns the least minute strictly after from that the membership test accepts, and nothing exactly when no minute up to the end of the maxDays-th following day is accepted |
| `CronNext.SearchIsScanIff` | pkg/cronexpr/cronexpr.go:224-254 | for every accepted text the search is the scan, from every moment, in every window and on every wall clock, if and only if no step of its minute and hour fields overflows or no date matches it |
| `Search.CarriedHourIsWrong` | pkg/cronexpr/cronexpr.go:239-246 | minute 0 of the hours -1 and 1, the former carried into the day before: the search returns a moment the membership test rejects |
| `CronNext.ClockValuesIff` | pkg/cronexpr/cronexpr.go:117-172 | the minute and hour sets hold clock values if and only if no step of those two fields overflows |
| `CronNext.WindowCompleteIff` | pkg/cronexpr/cronexpr.go:214-254 | with clock values the search's default window finds a firing from every moment if and only if the expression fires on some date other than 29 February |
| `JobNextRuns.NextRunsCompleteIff` | pkg/cronexpr/cronexpr.go:259-271 | with clock values what the chained searches list is the first n firings from every moment if and only if the expression does not fire on 29 February only |
| `Upcoming.FindNextRuns` | pkg/cronexpr/cronexpr.go:259-271 | the loop lists what the search finds after the one before, up to n; with clock values the next firings |
| `Upcoming.ChainedIff` | pkg/cronexpr/cronexpr.go:259-271 | with clock values, searching again and again gives the list of next firings and no other |
| `Upcoming.SortTimes` | internal/service/job_service.go:752-758 | the in-place insertion sort orders the times and keeps each as often as it was |
| `Upcoming.DedupeTimes` | internal/service/job_service.go:760-772 | the n least distinct times of an ordered list |
| `Upcoming.MergeIsFirst` | internal/service/job_service.go:477-492 | taking the n least distinct of every expression's first n gives the first n firings of the union when each is one of an expression whose window is complete, or inside the window of the start, or has n of the former before it |
| `JobNextRuns.MergedRuns` | internal/service/job_service.go:477-492 | the n least distinct of what the active valid expressions list; with clock values the first n firings of their union unless one is of expressions for 29 February only and fewer than n others come before it |
| `JobNextRuns.JobFiresIff` | internal/service/job_service.go:477-492 | a job fires on a minute if and only if an active schedule of it is well formed and falls on it |
| `JobNextRuns.MergeRightIff` | internal/service/job_service.go:477-492 | with clock values and for any n of at least one, a job's first n merged runs are right from every moment if and only if each of its firings is one of an expression that does not fire on 29 February only, or such expressions fire n times before it, counted from the last moment whose window misses its day |
| `JobNextRuns.CoveredForAllIff` | internal/service/job_service.go:444-492 | that condition holds for every n if and only if every firing is one of an expression that does not fire on 29 February only |
| `JobNextRuns.LeapJobIsWrong` | internal/service/job_service.go:477-492 | a job whose one active schedule is the text "0 0 29 2 *": however many runs are asked for, from a year and a day before any of its firings the merge lacks it and is wrong |
| `ChainGraph.ReachesQueryIff` | internal/repository/job_repo.go:530-544 | the recursive query finds a walk of 1 to maxDepth active links, or the job itself |
| `ChainGraph.SearchJobs` | internal/repository/memrepo/repos.go:797-823 | the breadth-first search with a seen set finds exactly a walk of 1 to maxDepth active links |
| `ChainGraph.ChecksAgreeIff` | internal/repository/memrepo/repos.go:794-823 | the two agree for distinct jobs, and part exactly at a job asked about itself that no short walk returns to |
| `ChainLinks.LoopRefusedIff` | internal/service/job_service.go:651-660 | the loop check refuses a link if and only if it would close a cycle of at most six links |
| `ChainLinks.LinkAddedIff` | internal/service/job_service.go:632-672 | a link is added if and only if it joins two different jobs in the caller's scope, says success, failure or always, waits 0 to 3600 seconds, is not there yet, and no walk of five active links or fewer leads back |
| `ChainLinks.LinkAddedIs` | internal/repository/memrepo/repos.go:759-780 | an added link is active and holds what was asked for, every other stays as it was; a refused one changes nothing |
| `ChainLinks.LinkRemovedIff` | internal/service/job_service.go:675-684 | exactly the link named goes, if it leaves a job in the caller's scope that asked for it; any other stays as it was |
| `ChainLinks.RunsStayValid` | internal/service/job_service.go:632-684 | every sequence of AddLink and RemoveLink, jobs coming and going, keeps the graph free of closed walks of six links or fewer, of self links, and of repeated links |
| `ChainLinks.CycleStorableIff` | internal/service/job_service.go:651-660 | some sequence of calls stores a cycle of n links if and only if n is at least seven |
| `ChainLinks.RefusedStaysRefused` | internal/service/job_service.go:632-672 | a refused link stays refused as links are added |
| `ChainLinks.LinkStore.CreateLink` | internal/repository/memrepo/repos.go:759-780 | inserts unless the same job, target and condition are there |
| `ChainLinks.LinkStore.DeleteLink` | internal/repository/memrepo/repos.go:782-792 | deletes a link of this job only |
| `ChainLinks.LinkStore.DoAddLink` | internal/service/job_service.go:632-672 | every check in its order, then the insert |
| `ChainLinks.LinkStore.DoRemoveLink` | internal/service/job_service.go:675-684 | deletes a link of an owned job, else not found |
| `Sync.SyncTwice` | internal/service/sync_service.go:99-365 | the same declaration a second time leaves every job, schedule, header and link as the first call left them, creates and deactivates nothing, and fails the same jobs |
| `Sync.RecordAfterFirstPass` | internal/service/sync_service.go:121-142 | one job failing does not touch another: a code's record afterwards is what its own declaration makes of it |
| `SyncLaws.DeclaredJobs` | internal/service/sync_service.go:99-295 | every declared job after the whole sync: a refused declaration leaves its record as it was; an accepted one leaves what it declares over what was stored, flags, limits, labels, request, schedules and headers |
| `SyncLaws.NewLinksAreDeclared` | internal/service/sync_service.go:297-342 | no link is invented: whatever a sync adds is a declared link of a job it did not fail, success and 15 seconds where not mentioned |
| `SyncLaws.DeclaredLinks` | internal/service/sync_service.go:297-342 | every declared link of a job that did not fail is there afterwards unless it names no target, no job of the project, or the link check refuses it |
| `SyncLaws.PruneIff` | internal/service/sync_service.go:348-365 | a prune switches a job off if and only if it is of the project, active, among its first 500 jobs by priority and code, and not declared; it changes nothing else |
| `SyncLaws.UndeclaredAreOff` | internal/service/sync_service.go:99-159 | after a sync that prunes, an undeclared active job of that page is off and among the reported ones |
| `JobInput.DeclareTwice` | internal/service/sync_service.go:208-279 | set-or-keep, defaults and replacement settle: declaring over what a declaration left leaves it |
| `Declared.DeclaredRecord` | internal/service/sync_service.go:208-295 | what an accepted declaration leaves: a mentioned flag as mentioned, another one as stored, a new job single_run, not catching up, active if it has a schedule; timeout, watchdog, priority, name and tag declared, else stored, else the default; the declared schedules and headers; the stored notification |
| `Declared.DeclareAcceptedIff` | internal/service/job_service.go:100-247 | exactly when a declaration is accepted, every bound written out: the code of a new job, the name, the method, the address, timeout 1 to 600, watchdog from the timeout to 86400, retries 0 to 5, delay 0 to 1440, statuses 100 to 599 in order, schedules that parse, good headers |
| `JobInput.EveryMinuteCleared` | internal/service/job_service.go:153-159 | a concrete accepted declaration that mentions no schedules empties those of a job that ran every minute |
| `JobInput.LongLimitAccepted` | internal/service/job_service.go:167-247 | a concrete input with a max_duration_sec of a day and a second passes validation, and the table refuses it |
| `JobInput.Validate` | internal/service/job_service.go:167-247 | defaults filled in, then every failure collected in order, an unknown project among them |
| `JobInput.CleanSchedules` | internal/service/job_service.go:153-159 | normalised expressions, empty ones dropped |
| `Registry.PruneAgain` | internal/service/sync_service.go:348-365 | a second prune finds nothing left to switch off, also beyond the first 500 jobs |
| `Registry.PruneKeeps` | internal/service/sync_service.go:348-365 | pruning leaves codes, links, declared jobs and the listed page alone |
| `Registry.LinkStaysSettled` | internal/service/sync_service.go:297-342 | a declared link that is there or refused stays so as links only grow |
| `SyncStore.SyncService.GetByCode` | internal/repository/job_repo.go:64-72 | the project's job of that code, found by its unique key |
| `SyncStore.SyncService.ApplyJob` | internal/service/sync_service.go:161-200 | one job created, updated or failed; a failed one writes nothing |
| `SyncStore.SyncService.ApplyLinks` | internal/service/sync_service.go:297-342 | the loop over declared links, those already listed passed over |
| `SyncStore.SyncService.PruneJobs` | internal/service/sync_service.go:348-365 | switches off exactly the listed active undeclared jobs |
| `SyncStore.SyncService.DoSync` | internal/service/sync_service.go:99-159 | jobs, then links, then the prune; pruning against an empty declaration is refused |
| `Members.RanksNeverRise` | internal/service/member_service.go:159-252 | no sequence of calls by callers who are not platform administrators raises the highest built-in rank anyone holds on any project |
| `MemberLaws.RunChangeIsByManager` | internal/service/member_service.go:142-252 | over any sequence of calls whatever changed goes back to a call of a platform administrator, or of the holder of an active role with members.manage whose scope has the project |
| `MemberLaws.DeniedIff` | internal/service/member_service.go:142-206 | each of the three calls denies exactly the callers without that, whatever else they say |
| `MemberLaws.GrantAcceptedIff` | internal/service/member_service.go:159-200 | a grant is accepted if and only if such a caller names an existing role and another account, neither deleted nor an administrator's; an ordinary caller one of the three built-in roles, none above the highest they hold there |
| `MemberLaws.GrantByEmailAcceptedIff` | internal/service/member_service.go:142-156 | by address: the account of the trimmed address in lower case, if there is one, as a grant to it |
| `MemberLaws.RevokeAcceptedIff` | internal/service/member_service.go:203-252 | a revoke is accepted if and only if such a caller names an active role that another account, not deleted, holds on named projects with this one among them; an ordinary caller no administrator's and no built-in role above their own |
| `Members.RunTouchesOnly` | internal/service/member_service.go:159-252 | over every sequence of calls by anybody a role held over all projects stays and none becomes one, reach on a project no call names stays, and whoever makes all the calls keeps their own assignments |
| `Members.RemovableYetRefused` | internal/service/member_service.go:86-92 | a concrete member shown as removable whose removal is refused |
| `Members.RevokeUndoesGrantIff` | internal/service/member_service.go:159-252 | after an accepted grant the same caller's revoke restores every assignment if and only if, for a role that did not reach the project before, it is active; for one that did, it covers every project or is inactive |
| `Members.InactiveGrantStays` | internal/service/member_service.go:159-252 | a concrete directory where a granted inactive role cannot be revoked |
| `Members.RevokeTakes` | internal/repository/authz_repo.go:316-341 | revoking takes this user, role and project away and nothing else |
| `Members.MemberService.RankOf` | internal/service/member_service.go:359-382 | the loop finds the highest built-in rank that reaches the project |
| `Members.MemberService.DoGrant` | internal/service/member_service.go:159-200 | every check in its order, then the grant |
| `Members.MemberService.DoGrantByEmail` | internal/service/member_service.go:142-156 | the permission check before the address is looked up |
| `Members.MemberService.DoRevoke` | internal/service/member_service.go:203-252 | every check in its order, then the revoke |
| `AppLog.NeverPanics` | internal/applog/applog.go:126-164 | in every interleaving of loggers, Attach, Close and the drainer nothing is sent on a closed queue and the queue is closed once |
| `AppLog.Conservation` | internal/applog/applog.go:143-164 | at any moment entries logged are those accepted, those dropped and those of calls still running, each counted once |
| `AppLog.LostBecause` | internal/applog/applog.go:143-164 | no entry is lost but to a logger that was closed when its call looked, or a queue that held 1024 entries when it sent |
| `AppLog.RoomAccepts` | internal/applog/applog.go:143-164 | a call that found the logger open and comes to a queue with room has its entry accepted as the last one |
| `AppLog.FirstInFirstOut` | internal/applog/applog.go:94-117 | entries are taken in the order they were accepted, none missed or repeated, by one drainer |
| `AppLog.DoneMeansDrained` | internal/applog/applog.go:94-141 | once done is closed every accepted entry has been taken and dealt with, and none is accepted any more |
| `AppLog.CloseReturnsDrained` | internal/applog/applog.go:136-140 | a Close that waited for done returns with every accepted entry dealt with |
| `AppLog.DrainsToTheEnd` | internal/applog/applog.go:94-117 | once the queue is closed and the lock not held for writing, a started drainer exits after at most four steps an entry, with every accepted entry dealt with |
| `RateLimit.SameAnswers` | pkg/auth/ratelimit.go:40-82 | with a clock that never goes back, any mix of attempts and resets gets the answers of a limiter that never collects |
| `RateLimit.SameAnswersIff` | pkg/auth/ratelimit.go:40-82 | any mix of attempts and resets at any moments: under every limit every answer is that of a limiter that never collects if and only if no attempt falls in a window, not expired at its moment, that an earlier collection had seen expired |
| `RateLimit.ClockBackShows` | pkg/auth/ratelimit.go:40-46 | with two attempts counted in the other order than they read the clock, a collection does change an answer |
| `RateLimit.AtMostInPeriod` | pkg/auth/ratelimit.go:40-82 | with a clock that never goes back and no reset the limiter, collections included, lets at most 2 * limit - 1 attempts of a key through in any closed interval as long as the period, none for a limit of zero or less |
| `RateLimit.AlwaysBoundedIff` | pkg/auth/ratelimit.go:40-82 | any operations at any moments: the bound holds for every limit, interval and number of repeats if and only if no closed interval as long as the period sees two windows of the key begin or has attempts of three |
| `RateLimit.AtMostByWindows` | pkg/auth/ratelimit.go:40-82 | any operations at any moments: every window of the key with an attempt in an interval lets limit - 1 through there, and one more if it begins there |
| `RateLimit.ClockBackBreaks` | pkg/auth/ratelimit.go:40-46 | with two attempts counted in the other order than they read the clock, two pass a limit of one in a period |
| `RateLimit.SwingsBreak` | pkg/auth/ratelimit.go:40-60 | six attempts whose moments swing back, none of which a collection makes late: four pass a limit of two in a period |
| `RateLimit.BoundIsTight` | pkg/auth/ratelimit.go:40-60 | that bound is reached, with a clock that never goes back, for every limit of at least one and every period of at least one |
| `RateLimit.Limiter.Collect` | pkg/auth/ratelimit.go:72-82 | deletes exactly the expired windows, once a period |
| `RateLimit.Limiter.DoAllow` | pkg/auth/ratelimit.go:40-60 | the window counted after collecting, and the answer |
| `RateLimit.Limiter.DoReset` | pkg/auth/ratelimit.go:64-68 | drops the key's window |

## Left out

- Search.FindNext: what the standard library makes of an hour or minute no clock has (only an overflowed step gives one, `CronNext.ClockValuesIff`) is a parameter, to the minute.
- CronLaws.MatchesIff: for texts none of whose steps overflows; with one that does the sets are those of `CronExpr.ParseIff`.
- SyncLaws.DeclaredLinks: a stored link stands for a declared one by the key target/condition the code compares; without a slash in the codes that is the target and the condition (`SyncLaws.KeyReadsBack`).
- Sync.SyncTwice: for codes declared once each; the same code declared twice in one payload is not covered.
- Members.RanksNeverRise: counts inactive roles as held, as the code's own rank does; callers are the ones the permission check sees, without staleness.
- RateLimit.AtMostInPeriod: for moments that never go back and without resets, as a reset forgives the attempts before it; the code reads the clock before its lock, so moments may go back, and `RateLimit.AlwaysBoundedIff` covers any.
- Tick.Dispatcher.AuditMinute: the drift figure and the tick's duration are not modelled.
- The HTTP request: an attempt is an oracle that answers success, failure or timeout. Response bodies, notes, notifications, metrics and the job summary are left out.
- SQL text, scanning, pagination and dashboard queries: only each statement's effect on rows, taken as atomic.
- Purging of old runs: it would lower the computed chain depth.
- Daylight saving: minutes count on a civil clock at a fixed offset, and one clock serves the start times and the sweep.
- The dispatcher's cache of parsed expressions: parsing is a function of the text.
- The grant library's cache, per-user exceptions, field restrictions, the singular scope form and unreadable scopes.
- Unicode: trimming and case mapping are those of ASCII; database collation is any order of codes.
- Error texts; validation errors are the names of the failing fields.
- Checks of target addresses and header text: any predicate. A declaration's header map stands as its entries in key order.
- Storage errors during a sync, 32-bit columns, and two syncs at once.
- Concurrent AddLink calls: check and insert are separate statements, and the graph results are about sequences of calls.
- CatchUp.EveryMinuteOnce: the job, its expressions and the scan limit stay as they are throughout; a failing minute counts as one event even when several expressions ask for it.
- The logger's goroutines are steps of a state machine, not objects; the database write of an entry either happens or not and is not observed.
- The worker pool, retention, authentication, transport, configuration and the user interface.
