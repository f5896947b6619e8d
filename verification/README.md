# A Dafny model of the cron engine, the message repair passes and history compaction

`dafny verify dfyconfig.toml` checks the whole project.

## What is modelled

**Cron engine** (`SortedKeys`, `Division`, `GoStrings`, `CronParse`, `Calendar`, `SkipSearch`, `CronNext`, `Reals`,
`CronTasks`).
Field texts have a grammar and a meaning as sets of integers; the branch cascade of `expandField` computes exactly that
meaning. The calendar search, which skips whole months, days and hours and has an iteration budget, is proved against a
minute-by-minute scan without any limit: it gives the first matching minute, and it gives nothing only if no minute ever
matches. The budget never hides a match, because every schedule that matches at all does so within nine years and the
skips get there in time. Whether a schedule ever runs is decided by a condition on its fields alone. The day rule is the
one of IEEE Std 1003.1-2017, `crontab` utility, section "INPUT FILES". Day numbers and weekdays are those of closed
formulas, Zeller's congruence for the weekday, so that the next run is stated in dates alone.

**Scheduler** (`CronRuns`, `CronRunLaws`, `FileTaskLaws`, `OneShotRefires`, `AgeLaws`, `CronScheduler`). `start`, ticks,
the ends of background file rewrites, additions, deletions and `stop` are the events of a state machine; the class refines it map by
map. Theorems are about all runs.

**Message repair** (`Messages`, `Preflight`, `ToolPairing`, `RepairPipeline`, `MessageSending`). The preflight pass is
pinned down without reference to its code. The pairing pass conserves messages, is idempotent and leaves only answered
calls; on what preflight produces, the fate of each message is a condition on its neighbours. The agent loop's use of
both passes comes with the exact condition under which what is sent answers every call.

**Compaction** (`Lists`, `Tokens`, `Rounds`, `RoundLaws`, `Compaction`, `SmartCompact`, `Pivot`, `PromptRetry`, `Dedup`,
`HashLaws`, `CompactorGate`). Grouping, safe cuts, pivots, turn collapsing, the prompt-too-long loop with an arbitrary API,
deduplication by reference, and the gate that decides when the LLM is called, as an object and over whole runs.

**Iteration budget** (`IterationBudget`). Load and compare-and-swap steps of any number of threads in any order;
every interleaving answers like the same operations done one at a time.

## What the model shows about the code

- A tool call without an id that is answered under the id the repair would give it is sent as it came, since the agent
  loop uses the repaired list only if something was dropped (`MessageSending.BlankCallIsSent`). What is sent answers
  every call exactly when some message does not survive the repair or no call came without an id
  (`MessageSending.SentIsAnsweredIff`).
- When the repaired list is used, assistant messages with tool calls keep the calls only; their text is gone
  (`ToolPairing.Kept`).
- A file-backed one-shot fires again once its removal from disk has completed, because the list that `start` loaded is
  never pruned: `OneShotRefires.SomeOneShotFiresTwice` is such a run, of an entry that the file can hold. It fires at
  a tick exactly when the lock is held, the scheduler is not stopped, its time has come and every firing so far has
  been followed by the end of a rewrite that had it in flight (`FileTaskLaws.OneShotFiresIff`). A recurring entry of
  the file that has aged out fires again under the same condition (`FileTaskLaws.EndedTaskFiresAgainIff`,
  `FileTaskLaws.EndedTaskOnForwardClock`).
- A search for the next run reaches years ahead, not 366 days as `cron_tasks.go:321` says: from March 1 the next
  February 29 is found in whatever leap year comes next, eight years later around 2100 (`CronNext.LeapDayRun`,
  `CronNext.NextRunYearsAhead`, `CronNext.NextRunEightYearsAhead`). Fields that name only days their months never have
  are the only ones without a next run (`CronNext.NoRunIff`).
- Two compactions in a row that save under a tenth, like three failures in a row, stop LLM compaction for the rest of
  the process (`CompactorGate.WedgedForever`, `CompactorGate.RefusedIff`).
- Deduplication hashes text only, so of two results without text the second is lost (`Dedup.ImagesAreLost`; the exact
  condition is `Dedup.LosslessIff`).
- "up_to" moves its cut at most once, past the first later entry that answers the call right before the pivot
  (`Pivot.AdjustUpTo`), so it can cut between a call and its result when several calls are open (`Pivot.UpToSplits`).
  It never does, at any pivot, exactly when whatever lies between a call and its result is answered together with it
  (`Pivot.UpToSoundIff`, `Pivot.UpToSoundForDistinctCalls`). The tail that "from" keeps can hold a result whose call
  is summarised (`Pivot.FromTailSplits`; exactly when is `Pivot.FromSeparatesNoneIff`). The comment at
  `compact.go:2025-2028` says "up_to" moves the pivot back and "from" forward; the code does the opposite.
- An ideograph or kana is estimated at one and a half tokens, not at about one as `compact_estimate.go:12` says, since two
  of its three bytes are counted again (`Tokens.EstimateIs`).
- With `KeepRounds` 0 and more than one round, `Compact` keeps nothing but the marker (`Compaction.Compact`).
- The comment at `agent_loop.go:89-90` speaks of the first grace call after exhaustion; the code grants the first call
  whether or not the budget is exhausted (`IterationBudget.GrantedIffFirst`; `IterationBudget.GrantedBeforeExhaustion`
  is a run that grants one with the whole budget left).

## Assumptions

Time is in milliseconds and minutes with the proleptic Gregorian calendar and one fixed offset of whole minutes. In runs
of the scheduler the clock may be set back but stays below the 64-bit maximum that stands for "never", `start` is called
once, ids are never issued twice, and the ids in the file are distinct. Integers are unbounded, floats are exact rationals
or reals. Jitter laws hold for every configuration with a fraction in [0, 1], a non-negative cap, 0 <= floor <= maximum
lead and a minute modulus other than 0; the default one is such. The API, the LLM, the token estimate of SDK messages,
the lock, the file contents, the order in which a Go map is walked and the text of markers are parameters.

## Model

| member | source | states |
|---|---|---|
| CronParse.ExpandPart | cron.go:39-115 | one comma part is rejected exactly when the grammar or the range rejects it; otherwise exactly the values it denotes are added |
| CronParse.AddProgression | cron.go:92-98 | the stepping loop adds the arithmetic progression from `lo` up to `hi`, 7 read as 0 in weekday ranges |
| CronParse.ProgressionIs | cron.go:53-55 | a value is in a stepped range iff it is at most the end and a whole number of steps from the start |
| CronParse.ExpandField | cron.go:35-126 | nil, or the strictly increasing in-range list of exactly the union of what the comma parts denote; one bad part rejects the field |
| CronParse.ExpandsUnique | cron.go:117-125 | that answer is unique |
| CronParse.DenotesInRange | cron.go:89-114 | every accepted field denotes a non-empty set inside its range |
| CronParse.ExpandAll | cron.go:140-147 | five lists, one per field in its own range, or a field that has no list |
| CronParse.ParseCronExpression | cron.go:130-156 | five words, each expanding in its own range, or nil; the answer is the only one these rules allow |
| CronParse.ParsesToUnique | cron.go:130-156 | an expression has one answer |
| CronParse.FormatListExpands | cron.go:35-126 | a strictly increasing in-range list written with commas expands to itself |
| CronParse.ParseFormat | cron.go:130-156 | formatting any valid five fields and parsing the text gives them back |
| GoStrings.FieldsJoin | cron.go:135-138 | words joined by spaces split into the same words |
| GoStrings.FieldsTrimSpace | cron.go:131-135 | trimming does not change the words |
| GoStrings.SplitJoin | cron.go:37-37 | splitting undoes joining |
| GoStrings.AtoiItoa | cron.go:103-106 | parsing the decimal text of a number in the 64-bit range gives the number back |
| GoStrings.AtoiSigned | cron.go:103-106 | a sign is read and the limits are those of 64 bits |
| GoStrings.AtoiRejects | cron.go:103-106 | no digits, or anything but a digit after the first character, is an error |
| GoStrings.FieldsSplit | cron.go:135-138 | any white space separates words |
| GoStrings.AsciiSpaces | cron.go:135-138 | which ASCII characters are white space |
| CronParse.ValidFieldsAre | cron.go:25-31 | the five lists of a parsed expression in numbers: non-empty, strictly increasing, each within its limits |
| CronParse.StarDenotes | cron.go:47-57 | `*/s` denotes every s-th value from the least one of the range; s = 0 is rejected |
| CronParse.RangeDenotes | cron.go:75-99 | `a-b` denotes the values from a to b, 7 read as 0 for weekdays, and is rejected outside the range or if a > b |
| CronParse.SteppedRangeDenotes | cron.go:60-99 | `a-b/s` denotes every s-th of them; s = 0 is rejected |
| SortedKeys.IncreasingUnique | cron.go:120-125 | a set of integers has one strictly increasing list |
| Calendar.CivilUnique | cron.go:191-199 | each day number has exactly one valid date, with the day number of that date |
| Calendar.ReadDate | cron.go:191-199 | reads off the valid date of a day number |
| Calendar.DayNumberClosed | cron.go:191-220 | the day number of every valid date in one formula |
| Calendar.WeekdayIsZeller | cron.go:199-199 | the weekday of every valid date is that of Zeller's congruence |
| Calendar.Doomsday | cron.go:199-199 | April 4, June 6, August 8, October 10 and December 12 of every year share a weekday, which the year gives |
| Calendar.GoDateNextMonth | cron.go:192-196 | day 1 of month + 1, month 13 included, is the minute right after the last day of the month |
| Calendar.GoDateNextDay | cron.go:211-214 | day + 1, past the end of the month or the year too, is the start of the following day |
| Calendar.GoDateNextHour | cron.go:216-220 | adding an hour and dropping the minutes is the start of the following hour |
| SkipSearch.SearchSound | cron.go:189-228 | with skips over non-matching minutes only, the result matches and no minute from the start to it does |
| SkipSearch.FindsTarget | cron.go:188-228 | a match is found if the budget covers one step for each hour up to it and the minutes of two hours |
| CronNext.TryMinute | cron.go:190-227 | the loop body: the minute matches, or where the search goes from it |
| CronNext.ComputeNextCronRun | cron.go:160-231 | the result is the answer of an unlimited minute-by-minute scan strictly after `from` |
| CronNext.SearchIsSound | cron.go:189-225 | each of the four skips moves forward over minutes none of which matches |
| CronNext.SearchComplete | cron.go:188-230 | the iteration budget is never what makes the search give up |
| CronNext.SearchIsFirstMatch | cron.go:188-230 | for a budget of nine leap years of hours or more, the skipping search equals the unlimited scan |
| CronNext.NextRunIsFirstMatch | cron.go:158-231 | the next run is the first matching minute, or there is none at all |
| CronNext.DayRule | cron.go:182-209 | for parsed fields the length tests are the standard's rule: both must hold, but either one is enough when both are restricted |
| CronNext.MatchesDate | cron.go:182-225 | a minute matches iff month, hour and minute are listed and the day of the month and Zeller's weekday meet that rule |
| CronNext.NextRunInDates | cron.go:158-231 | the next run is the first time on the schedule after `from`, in dates alone, or none is left |
| CronNext.NoRunIff | cron.go:160-231 | parsed fields have no next run iff they name only days of the month that none of their months ever has |
| CronNext.LeapDayRun | cron.go:188-230 | from March 1 of any year the next run for February 29 is in the first leap year after it |
| CronNext.NextRunYearsAhead | cron.go:188-230 | with no leap year among the next two, that is more than a thousand days ahead |
| CronNext.NextRunEightYearsAhead | cron.go:188-230 | around a century year that is no leap year it is 2920 days ahead |
| CronTasks.NextCronRunMs | cron_tasks.go:322-334 | the next slot in epoch milliseconds |
| CronTasks.NextSlot | cron_tasks.go:320-334 | it is a slot strictly after `fromMs`, none lies between, and nil means no later slot exists |
| CronTasks.SlotsEnumerate | cron_tasks.go:322-334 | iterating it lists every slot once, in order, missing none |
| CronTasks.JitterFracBound | cron_tasks.go:337-348 | the jitter fraction of every id is in [0, 1) |
| CronTasks.JitteredNextCronRunMs | cron_tasks.go:352-368 | the forward-jittered time |
| CronTasks.JitteredWithinGap | cron_tasks.go:350-368 | it is at or after its slot, within the cap of it and before every later slot |
| CronTasks.OneShotJitteredNextCronRunMs | cron_tasks.go:372-389 | the backward-jittered time |
| CronTasks.OneShotBeforeSlot | cron_tasks.go:370-389 | it lies between `fromMs` and the slot, and leads the slot by the configured maximum at most |
| CronTasks.RecurringDelay | cron_tasks.go:350-368 | the delay is the whole part of the configured part of the id's share of the gap, or the cap if that is less |
| CronTasks.OneShotLead | cron_tasks.go:370-389 | on multiples of the minute modulus the lead is the floor and the whole part of the id's share of the rest, not past `fromMs`; elsewhere it is 0 |
| CronTasks.JitterUnitsOfHex | cron_tasks.go:337-348 | the id's share is its first eight hexadecimal digits over 2^32 |
| CronTasks.NoJitterUnits | cron_tasks.go:337-348 | shorter ids and other characters there give 0 |
| CronTasks.DefaultDelay | cron_tasks.go:49-56 | as configured: at most 15 minutes and less than a tenth of any gap late |
| CronTasks.DefaultLead | cron_tasks.go:49-56 | as configured: at most 90 seconds early, and only at minutes 0 and 30 |
| CronTasks.FindMissedTasks | cron_tasks.go:392-401 | exactly the missed entries, in order |
| CronTasks.MissedIffSlotPassed | cron_tasks.go:391-401 | an entry is missed iff some slot lies strictly between its creation and now |
| CronTasks.SessionStore.Add | cron_tasks.go:64-68 | the store maps the id to the entry, all else unchanged |
| CronTasks.SessionStore.Remove | cron_tasks.go:80-95 | every listed id goes, nothing else, and the count is how many there were |
| CronRuns.StartAnnounces | cron_scheduler.go:59-81 | `start` announces once each one-shot of the file with a slot between creation and now, and nothing else |
| CronRuns.StartsNew | cron_scheduler.go:45-87 | `start` on a new scheduler gives the initial state of a run |
| CronRunLaws.TickFiresExactlyDue | cron_scheduler.go:137-269 | a tick fires an entry iff it may look at it, it is not in flight and its time has come |
| CronRunLaws.RecurringFiringsAreSpaced | cron_scheduler.go:234-249 | in every run, whatever the clock does, between two firings of an entry, none of them from the first up to the second ending it, there is a slot after the first and no later than the second |
| CronRunLaws.SpacedOnForwardClock | cron_scheduler.go:234-249 | on a clock that is never set back it is enough that the first of the two did not end the entry |
| CronRunLaws.SessionOneShotFiresOnce | cron_scheduler.go:254-257 | in every run a session one-shot fires at most once and then is in neither the store nor the schedule |
| CronRunLaws.MissedNeverFires | cron_scheduler.go:63-69 | in every run nothing that `start` announced as missed ever fires |
| CronRunLaws.StepInv | cron_scheduler.go:137-269 | every event keeps the invariant behind these theorems |
| CronRunLaws.FiringsUseDistinctSlots | cron_scheduler.go:207-249 | k such firings of a recurring entry use k slots in strictly increasing order: each no later than its firing and later than the firing before, the first later than the time the entry is anchored at |
| AgeLaws.SessionTaskGoesOn | cron_scheduler.go:237-257 | a recurring session entry that a tick fires stays in the store and the schedule iff it is permanent, ages are unlimited or it is younger than the maximum age; its fire time is then never, or behind a slot later than now |
| AgeLaws.FileTaskGoesOn | cron_scheduler.go:237-268 | a recurring file entry that a tick fires keeps a fire time iff the same holds |
| AgeLaws.YoungTaskStays | cron_scheduler.go:237-257 | from every point of every run on, a recurring session entry stays in the store while that holds and nobody deletes it |
| AgeLaws.EndedIff | cron_tasks.go:404-409 | in these laws a firing ends an entry iff it is a one-shot or that fails |
| FileTaskLaws.RunsAreRuns | cron_scheduler.go:137-269 | the runs that the next laws look at event by event are the runs of the state machine |
| FileTaskLaws.OneShotFiresIff | cron_scheduler.go:198-268 | in every run a file one-shot that was not missed fires at a tick iff the lock is held, nothing stopped the scheduler, its time has come and each of its firings was followed by the end of a rewrite that had it in flight |
| FileTaskLaws.EndedTaskFiresAgainIff | cron_scheduler.go:234-268 | in every run, whatever the clock does, a file entry whose latest firing was to be its last, as a one-shot or aged out, fires again at a tick iff nothing stopped the scheduler, its first time has come and a rewrite that had it in flight has ended since |
| FileTaskLaws.EndedTaskOnForwardClock | cron_scheduler.go:234-268 | on a clock that is never set back, once it has so fired it fires again at any later tick iff nothing stopped the scheduler and each of its firings was followed by such an end |
| FileTaskLaws.OneShotFiresTwice | cron_scheduler.go:258-267 | from every start with the lock and no session entries, two ticks around the end of the removal both fire a due file one-shot |
| OneShotRefires.SomeOneShotFiresTwice | cron_scheduler.go:258-267 | with any id and prompt, an entry that `readCronTasks` keeps, a start and the events of one such run |
| CronScheduler.CronScheduler.Start | cron_scheduler.go:45-87 | whatever the object went through before: a stopped one is left alone, and otherwise file list, lock, marks, store and announcement are as `start` makes them |
| CronScheduler.CronScheduler.MarkMissed | cron_scheduler.go:62-69 | missed one-shots not asked about before are marked and never fire, added to the marks already there |
| CronScheduler.CronScheduler.ProcessTask | cron_scheduler.go:198-269 | the object changes as the state machine says for one entry |
| CronScheduler.CronScheduler.Fire | cron_scheduler.go:234-268 | the firing half, for recurring, session and file entries |
| CronScheduler.CronScheduler.CheckFileTasks | cron_scheduler.go:151-170 | the file half of a tick, in-flight marks included |
| CronScheduler.CronScheduler.CheckSessionTasks | cron_scheduler.go:172-176 | the session half of a tick |
| CronScheduler.CronScheduler.Check | cron_scheduler.go:138-195 | one tick of the object is one tick of the state machine |
| CronScheduler.CronScheduler.Stop | cron_scheduler.go:90-104 | stopped, and no longer the owner |
| CronScheduler.CronScheduler.MarkDone | cron_scheduler.go:161-168 | the background rewrite ends: its ids are no longer in flight |
| CronScheduler.CronScheduler.RemoveDone | cron_scheduler.go:261-266 | the background removal ends |
| Preflight.PreflightValidateMessages | cache_optimizer.go:396-431 | the result strictly alternates, has no empty message, and carries the same blocks under the same roles in the same order |
| Preflight.AlternatingUnique | cache_optimizer.go:396-431 | no other list does |
| Preflight.PreflightIdempotent | cache_optimizer.go:396-431 | cleaning what was cleaned changes nothing |
| ToolPairing.StampMissingIds | cache_optimizer.go:135-142 | missing ids get numbered ones in order, all else unchanged |
| ToolPairing.MatchResults | cache_optimizer.go:166-176 | whether there are results, and which needed ids they answer |
| ToolPairing.ScanResults | cache_optimizer.go:152-192 | which following messages are taken as answers and what they leave unanswered |
| ToolPairing.MatchCalls | cache_optimizer.go:133-192 | one message's calls: what would be kept of it, where its answers end and what they leave unanswered |
| ToolPairing.IsStrayMessage | cache_optimizer.go:222-242 | a user message with results none of which has an id |
| ToolPairing.FixToolCallPairing | cache_optimizer.go:118-249 | the repaired list and both counts, refining the recursive definition the lemmas below are about |
| ToolPairing.FixConserves | cache_optimizer.go:118-249 | messages in = messages out + dropped calls + dropped strays |
| ToolPairing.FixKeepsText | cache_optimizer.go:118-249 | text-only messages all survive, in order |
| ToolPairing.FixIdempotent | cache_optimizer.go:118-249 | a second pass returns the same list and drops nothing |
| RepairPipeline.FixPairs | cache_optimizer.go:154-217 | for any list: each call left has ids, and the run of result messages right after it answers them all |
| RepairPipeline.CollectOne | cache_optimizer.go:154-192 | after preflight at most the next message is taken, and the call is answered iff that message answers all of it |
| RepairPipeline.FixIsLocal | cache_optimizer.go:118-249 | after preflight exactly these survive: calls answered wholly by the next message, and other messages that are neither stray nor a partial answer |
| RepairPipeline.DropsNothingIff | cache_optimizer.go:118-249 | both counts are 0 iff every message survives |
| RepairPipeline.FixAnswersNext | agent_loop.go:2603-2609 | after both passes every call has ids and the single next message is a user message that answers them all |
| MessageSending.PrepareMessages | agent_loop.go:2603-2609 | what is sent, and that it answers every call iff some message does not survive the repair or no call came without an id |
| MessageSending.SentIsAnsweredIff | agent_loop.go:2604-2609 | the same condition as a law about message lists |
| MessageSending.BlankCallIsSent | agent_loop.go:2604-2609 | a call without an id that is answered under its future id is sent unchanged, so what is sent does not answer every call |
| Tokens.EstimateSplits | compact_estimate.go:13-29 | cutting a text in two changes its estimate by one token at most; only the empty text costs nothing |
| Tokens.EstimateIs | compact_estimate.go:13-29 | four ASCII characters make a token; an ideograph or kana makes one and counts as two more characters |
| Rounds.GroupMessagesByRound | compact_round.go:20-62 | a grouping: the rounds join to the input, later rounds open with their only user message; the marks on rounds |
| Rounds.AddMessage | compact_round.go:29-38 | one message joins the current round, or opens the next one |
| Rounds.HasToolCallsIff | compact_round.go:85-90 | a message has tool calls iff it names a tool or a call or its text holds the mark of one |
| RoundLaws.GroupingUnique | compact_round.go:20-62 | no other grouping meets the definition |
| RoundLaws.RoundCountIs | compact_round.go:20-62 | there is one round per user message, and one more iff the first of them follows an assistant message |
| RoundLaws.RoundShape | compact_round.go:20-62 | no round is empty or has two user messages; all but the first start with their only one |
| RoundLaws.LastRounds | compact_round.go:192-198 | the last k rounds are the messages from the k-th last user message on |
| RoundLaws.StartsLastUnique | compact_round.go:192-198 | that position is unique |
| Compaction.FlattenRounds | compact_round.go:192-198 | the rounds joined end to end |
| Compaction.FindSafeCompactionBoundary | compact_round.go:127-161 | for arbitrary rounds: 0, or the greatest cut that keeps `keepN` rounds and separates no pair, or 1 for a leading system round |
| Compaction.LatestCutUnique | compact_round.go:137-150 | there is one such cut |
| Compaction.TotalTokens | compact_round.go:183-189 | the sum over the messages |
| Compaction.TokensConcat | compact_round.go:164-189 | token counts add up |
| Compaction.TokensAre | compact_round.go:164-189 | the estimates of the contents, three per message and ten per tool id |
| Compaction.Compact | compact.go:150-235 | an error iff there are no messages; otherwise unchanged, or the messages before the `KeepRounds`-th last user message give way to the marker; all counts, tokens saved and the archive path included |
| Compaction.Archive | compact.go:184-193 | the path of the archive of the omitted messages, or the note that archiving failed, or nothing without a directory |
| Compaction.CutInMessages | compact.go:161-182 | which cut of the rounds is which cut of the messages |
| SmartCompact.GroupTurns | compact.go:330-345 | turns begin at the first message and at each user message after an assistant one |
| SmartCompact.SmartCompact | compact.go:303-393 | the first and last turns around one marker; kept + collapsed = all turns; defaults for non-positive counts |
| SmartCompact.TurnStartUnique | compact.go:330-345 | each turn has one place to begin, so the output is determined |
| SmartCompact.SmartCompactKeepsAlternation | compact.go:303-393 | if no role repeats among non-system messages going in, none repeats among those coming out |
| SmartCompact.SystemsInOrder | compact.go:315-324 | every system message is taken, once and in order |
| SmartCompact.SystemsSurvive | compact.go:303-393 | the system messages that come out are those that went in, and the marker if turns were collapsed |
| Pivot.PullBack | compact.go:2077-2096 | one entry: the cut stays, or moves to it and every cut between splits a pair |
| Pivot.AdjustFrom | compact.go:2074-2098 | the greatest cut at or below the pivot with no call before it answered at or after it, for any history |
| Pivot.IndexCalls | compact.go:2034-2044 | the last entry that calls each id that is not blank |
| Pivot.AdjustUpTo | compact.go:2060-2073 | the cut stays at the pivot if no later entry answers the call right before it, and else is right after the first that does |
| Pivot.UpToCutUnique | compact.go:2060-2073 | there is one such cut |
| Pivot.UpToSoundIff | compact.go:2046-2073 | for every history: "up_to" separates no pair at any pivot iff each entry from a call up to its result is itself answered by that result, through ids that are not blank and not called again |
| Pivot.UpToSoundForDistinctCalls | compact.go:2046-2073 | if ids are not blank and not called twice: iff each call lying between a call and its result pairs with that result too |
| Pivot.ClosedUpToIsEarliest | compact.go:2046-2073 | where it separates no pair it is the least such cut at or above the pivot |
| Pivot.UpToIsEarliest | compact.go:2046-2073 | so it is that cut wherever every call is answered in the very next entry only and ids are unique and not blank |
| Pivot.UpToSplits | compact.go:2060-2073 | with two calls open it cuts between the second and its result |
| Pivot.AdjustPivotForToolPairs | compact.go:2029-2101 | both directions, and pivots at or outside the ends |
| Pivot.PartialCompact | compact.go:1890-2022 | clamping, the default tail, every error; otherwise the boundary, the summary and the kept entries in order, each entry kept or summarised once, and all counts reported |
| Pivot.ChosenInOrder | compact.go:1916-1950 | the entries are what is kept before, what is summarised and what is kept after, in this order |
| Pivot.FromSeparatesNoneIff | compact.go:1930-1948 | the "from" partition separates no pair iff the start of its tail splits none |
| Pivot.FromTailSplits | compact.go:1933-1948 | a history where it does separate one |
| PromptRetry.GroupMessageParamsByRound | compact_round.go:201-222 | rounds start at the first message and at each later user message, and join to the input |
| PromptRetry.GroupsUnique | compact_round.go:201-222 | only one list of rounds does |
| PromptRetry.RegroupsToKept | compact.go:1199-1247 | regrouping what was kept gives exactly the kept rounds |
| PromptRetry.CountDrops | compact.go:1205-1220 | the least number of rounds after the system round that hold `dropCount` messages, or all of them |
| PromptRetry.LeastDropUnique | compact.go:1205-1220 | there is one such number |
| PromptRetry.DropOldest | compact.go:1189-1247 | the rest without those rounds, or giving up iff fewer than two rounds would follow or there are at most three |
| PromptRetry.CompactConversationLLM | compact.go:1149-1251 | for any API: one to four attempts, each the one before less the rounds its error asks for, and the outcome is that of the last |
| PromptRetry.EnoughIff | compact.go:1172-1195 | the drop count in whole numbers: half of the messages, or one, a fifth and the tokens over the limit out of the total |
| PromptRetry.AttemptDropsJustEnough | compact.go:1172-1247 | each retry drops the rounds after the lead that hold that many messages, and one round fewer would not |
| PromptRetry.GivesUpOnlyIfStuck | compact.go:1198-1249 | the loop gives up on a length error only after the fourth attempt, with at most three rounds, or if no rounds that may go hold that many |
| PromptRetry.AttemptKeepsEnds | compact.go:1157-1248 | every attempt is the leading system round and a suffix of the original that holds its last two rounds, or the original |
| PromptRetry.AttemptsShrink | compact.go:1157-1248 | attempts get strictly shorter |
| Dedup.HashToolResultContent | compact.go:1627-1641 | FNV-1a of the joined text parts |
| HashLaws.OneCharacterSeparates | compact.go:1636-1640 | texts that differ in exactly one character never share a hash |
| HashLaws.KnownHashes | compact.go:1636-1640 | the published FNV-1a values of the empty text and of "a" |
| HashLaws.ApartIsKept | compact.go:1595-1641 | results whose texts differ in one character each are all left as they are |
| HashLaws.TwoResultsAreKept | compact.go:1595-1641 | so two such results with any ids are both kept |
| Dedup.DedupContent | compact.go:1599-1621 | one message's blocks, given what came before |
| Dedup.DedupToolResults | compact.go:1595-1624 | each non-error result refers to the first with its hash, if that has another id; nothing else changes |
| Dedup.ReferencesAreSound | compact.go:1613-1617 | each reference names an earlier, non-error, unreplaced result with the same hash |
| Dedup.LosslessIff | compact.go:1595-1624 | with distinct ids, references resolve to the original iff equal hashes mean equal contents |
| Dedup.CollisionFreeIsLossless | compact.go:1595-1624 | without collisions, results of one text each are never lost |
| Dedup.ImagesAreLost | compact.go:1629-1633 | of two results without text the second is lost |
| CompactorGate.Compactor.constructor | compact.go:992-1000 | the initial state |
| CompactorGate.Compactor.SetMaxTokens | compact.go:1010-1014 | sets the window only |
| CompactorGate.Compactor.SetPostCompactTokens | compact.go:1020-1024 | sets the cooldown count only |
| CompactorGate.Compactor.CompactThreshold | compact.go:1048-1052 | three quarters of the window, truncated |
| CompactorGate.Compactor.ShouldCompact | compact.go:1027-1045 | true iff the count reaches the threshold and half as much again as the last compaction left |
| CompactorGate.Compactor.Compact | compact.go:1058-1140 | when the LLM is called, the whole new state and what is returned |
| CompactorGate.ThreeFailuresAreLast | compact.go:1066-1112 | in every run three failures in a row are the last calls ever |
| CompactorGate.NeverThreeLow | compact.go:1081-1124 | in every run no three recorded compactions in a row save under a tenth |
| CompactorGate.TwoLowAreLast | compact.go:1081-1124 | two low ones in a row are the last ever recorded |
| CompactorGate.WedgedForever | compact.go:1066-1090 | after either, no event brings a call back |
| CompactorGate.RefusedIff | compact.go:1065-1090 | a due call is refused iff the answers so far end in three failures or their savings in two low ones |
| CompactorGate.InvokedIff | compact.go:1065-1090 | in every run a call reaches the LLM iff the window and the count set last are reached and the answers end in neither pattern |
| CompactorGate.CompactsIff | compact.go:1027-1095 | the same in token counts: three quarters of the window and p + p/2 are reached, and the answers end neither in three failures nor, of those that started from tokens, in two that left more than nine tenths |
| CompactorGate.NeverThreeSmallSavings | compact.go:1081-1124 | in every run no three such answers in a row left more than nine tenths |
| CompactorGate.CompactionsAreSpaced | compact.go:1027-1045 | every compaction starts from at least the threshold and, p > 0 being the count stored last by whatever stored it, from at least p + p/2 tokens |
| IterationBudget.Linearizable | agent_loop.go:63-93 | under every interleaving all answers are those of the operations done one at a time, and the counter is what they leave |
| IterationBudget.AnswersInProgramOrder | agent_loop.go:63-93 | at every moment each thread has been answered for the operations it began, in that order, all but one under way |
| IterationBudget.LegalLogs | agent_loop.go:63-93 | such answers never overdraw the budget, balance with the counter, and grant one grace call at most |
| IterationBudget.GrantedIffFirst | agent_loop.go:89-93 | a grace call is granted iff no grace call was made before |
| IterationBudget.GrantedBeforeExhaustion | agent_loop.go:89-93 | a run that grants one while the whole budget is left |
| IterationBudget.BudgetHolds | agent_loop.go:51-98 | in every run 0 <= consumed <= max, consumed = successes less effective refunds, one grace call at most |
| IterationBudget.GrantedIffLeft | agent_loop.go:63-87 | a unit is granted iff fewer than the maximum are in use, and a refund has an effect iff some unit is |
| IterationBudget.RetryMeansProgress | agent_loop.go:64-87 | a thread retries only if another changed the counter since its load |

## Left out

- ExpandField: does not model the 64-bit wrap of `i += step` for steps near the maximum; there the loop of the code would not end at the range's maximum.
- ComputeNextCronRun: does not model zone transitions; the offset is fixed.
- JitteredNextCronRunMs: does not model float rounding; fractions are exact.
- CompactConversationLLM: does not model the retries inside one attempt, the prompts or the recognition of length errors in error texts; an attempt has one outcome.
- PartialCompact: the texts are parameters, and the later `ValidateToolPairing` and `FixRoleAlternation` are not modelled.
- Compact: the writing of the archive is a parameter; negative `KeepRounds`, on which the code slices out of bounds, is excluded.
- DedupToolResults: returns new messages where the code edits the caller's blocks in place.
- PrepareMessages: does not claim role alternation after the repair, which dropping a message can break, nor the absence of extra results in kept messages.
- Linearizable: does not model 32-bit overflow of the counter.
- Calls of one `Compactor` are taken one at a time, although it releases its lock between its checks.
- At-most-once firing of file-backed one-shots and expiry of aged file-backed recurring entries: not laws, since the code breaks them; `FileTaskLaws` says exactly when.
- File and lock handling, JSON, HTTP, hooks, prompts, terminal output, the persisted compaction state and the text truncators.
- `ValidateToolPairing`, `FixRoleAlternation`, `KeepRecentMessagesAdaptive` and `BuildMessages`: not part of this model.
