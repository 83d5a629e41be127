# Verified model of the fleet backend

This project models the stateful protocols and exact data transformations of a motorbike-fleet
backend (an API, an edge gateway and a telemetry stream worker) in Dafny 4.11 and proves what they
promise, for every input and every run. `dafny verify dfyconfig.toml` checks all of it.

| part | files | what is proved |
|---|---|---|
| Device commands | `CommandModel`, `CommandTallies`, `CommandProofs`, `CommandTheorems`, `CommandCauses`, `CommandSms`, `CommandEffects`, `CommandRuns`, `CommandService` | a transition system of requests (TCP, SMS, MQTT, crash points), device acks, the expiry sweeper and the tracker adapter; finality, event replay, counters, debounce, causes, SMS accounts, lock safety |
| Stream processor | `StreamModel`, `StreamProofs`, `StreamTheorems`, `StreamEffects`, `StreamRecovery` | at-least-once processing for any number of workers, failures, deaths and claims; how many starts a backlog needs |
| Rate limiter | `RateLimiter`, `RateLimiterRuns`, `RateLimiterNoticing`, `RateLimiterBounds`, `RateLimiterRanks`, `RateLimiterEvictions` | exactly when a sweep can be noticed; the exact sliding bound for every window length, under the cap and with the sweep on its timer |
| Cookies | `Text`, `Cookies`, `CookieTheorems`, `CookieEncoding` | print/parse round trip; when the two readers agree; percent-decoding |
| ICO packer | `Ico` | byte-exact layout and round trip |
| Money | `Payments`, `PaymentTheorems`, `PaymentEffects`, `Summaries` | ledger refinement, arrears, conservation of breakdowns and payouts |
| Deliveries | `Deliveries`, `AutoAssign` | status machine over runs, audit replay, nearest-rider selection |
| Login, pages | `Lockout`, `Pagination` | lockout over runs; pages partition the list |

Each stateful service has two forms: a step function over a value (which the theorems about runs
use) and a class whose methods work step by step and are proved to compute that step. A third kind of
theorem, named `...IsExact`, says of every step what it does to each column, in so many words and
numbers and without the functions it is made of.

## Assumptions

- One handler is one atomic step of the command and delivery protocols, of a login (read the counter,
  compare the password, write the counter) and of a payment (find the day's row, write it); database,
  audit and metric calls succeed. The command protocol adds explicit points at which the process may die, all of
  them outside the block that writes a status, counts it and emits its event.
- Everything a handler learns from outside (lookups, channel results, which rows a query returns,
  which write of a stream worker fails and whether it took effect) is carried by the step.
- XAUTOCLAIM is taken as Redis documents it: from the start of the pending list, oldest first, it
  looks at no more than ten times its count and takes no more than its count.
- Times are integer milliseconds of one nondecreasing clock; money is in integer minor units;
  number parsing, JSON parsing and the distance function are parameters.

## Findings

- A finished command is not final. The tracker adapter's reconnect flush writes SENT without looking
  at the row (`FlushRevivesFinishedCommand`), although the service calls these statuses terminal.
  `StickyIffClean` gives the exact condition, and `QueueNamesRecentCommands` bounds the danger to ten
  minutes after the request.
- The debounce can be defeated (`FlushDefeatsDebounce`): exactly by a flush that finds its queued
  command finished while another unfinished one of that bike and type is within ten seconds of it
  (`SpacedIffUncrowded`).
- The sweeper's "SMS already attempted" case is live: exactly after a request that died right after
  recording its SMS, or a flush that reopened a command whose SMS was recorded (`AlreadySentCaseIff`).
  `FlushRevivesFinishedCommand` reaches it without any crash.
- A revived command can cost a third SMS attempt without any crash (`RevivalCostsThirdAttempt`), and
  never a fourth: a command is revived at most once (`RevivedAtMostOnce`), and more than two attempts
  mean exactly its request and two sweeps (`SmsEconomy`). A death can cost a second delivery
  (`CrashCostsSecondDelivery`). `SmsAccounts` accounts for every attempt and delivery of every run.
- The terminal counters drift from the table by exactly the reopened rows less the uncounted TCP
  acknowledgements (`CountersExact`).
- A worker's one claim at start reaches the fifty oldest lapsed entries among the five hundred oldest
  (`ClaimedIff`); an entry behind 50 k claimable ones is still pending after k starts
  (`StartsAreNeeded`), since nothing claims again while a worker runs.
- Two windows do not make 2 max: the exact bound is 2 max - 1 (`FixedWindowsBoundSlidingOnes`,
  `SlidingBoundIsAttained`). Each eviction of a running window is worth one more quota
  (`EvictionsLoosenTheBound`, `EvictionBoundIsAttained`). With the sweep on its one-minute timer the
  exact maximum for a window of W ms is (3 + (W - 1) / 60 000) max - 1, or (2 + (W - 1) / 60 000) max
  where 60 000 divides W - 1, whatever the cap (`TimerBoundsSlidingWindows`, `TimerBoundIsAttained`):
  3 max - 1 for the default window of a minute.
- The cookie readers differ on white space before `=`, on empty values and on decodable values
  (`SpaceHidesFromSocket`, `EmptyHidesFromSocket`, `EscapeSplitsTheReaders`), and on one occurrence
  only then (`ReadersAgreeIff`).
- A payment recorded on a day that already holds a row of that rider replaces it, commission rows
  included (`PaymentErasesCommission`; exactly then, by `PaymentAddsIff` and
  `PaymentKeepsCommissionsIff`), and a payout can put several rows on one day (`PayoutMergesDays`;
  exactly when, by `OneRowPerDayIff`). A paid-out commission counts as rent and lowers the rider's
  arrears (`PayoutCountsAsRent`). The summary's overdue and unpaid counts are always zero
  (`SummaryConserves`).
- A status update can make an order ASSIGNED with no rider (`AssignedWithoutRider`); an order on its
  way always has one exactly when no such update of a pending order is accepted (`CarriedIffNoOrphans`).

Of two bare functions alone, on values that do not reach them: a page size strictly between zero and
one would become zero (`ParamsUsableIff`), but the validated query object refuses it
(apps/api/src/common/dto/pagination-query.dto.ts:5-28); an icon side of zero would be packed and read
back as 256 (`RoundTrip`), but the script only packs 16, 32 and 48.

## Model

| member | source | states |
|---|---|---|
| CommandProofs.StepPath | apps/api/src/commands/commands.service.ts:139-867 | every step (request over either path, ack, sweep, flush, TCP ack) is a sequence of lawful row transitions: creations that pass the debounce, and moves that, at the chosen level, never leave a finished row and go PENDING to SENT to terminal |
| CommandProofs.PathKeeps | apps/api/src/commands/commands.service.ts:818-867 | such sequences keep the clock order of rows, event replay, debounce spacing, event trails, counters and column shapes, and never remove or re-address a row |
| CommandProofs.SweepAllExact | apps/api/src/commands/commands.service.ts:159-244 | a sweep gives each listed row exactly its escalated or expired form and leaves all others as they were |
| CommandTheorems.EventsRebuildStatuses | apps/api/src/commands/commands.service.ts:851-864 | in every run, adapter included, replaying the emitted events rebuilds the status column |
| CommandTheorems.OwnRunTrailsAndCounters | apps/api/src/commands/commands.service.ts:818-867 | in runs of the service's own steps each command emits at most one SENT, then at most one terminal status; terminal counters equal row counts per type; timestamps and messages fit the status |
| CommandTheorems.TerminalForever | apps/api/src/commands/commands.service.ts:381-383 | any two moments of a clean run agree on a finished command's status |
| CommandTheorems.StickyIffClean | apps/api/src/ingestion/sinotrack-adapter.service.ts:372-413 | a run never changes a finished command if and only if no flush in it finds its queued command finished |
| CommandTheorems.CountersExact | apps/api/src/ingestion/sinotrack-adapter.service.ts:372-413 | in every run, adapter included, a terminal counter plus the TCP acknowledgements nobody counted equals the rows in that state plus the flushes that reopened one |
| CommandTheorems.SpacedIffUncrowded | apps/api/src/ingestion/sinotrack-adapter.service.ts:372-413 | in every state of a run unfinished commands of one bike and type are more than 10 000 ms apart if and only if no flush finds its queued command finished while an unfinished one of that bike and type was created within 10 000 ms of it |
| CommandTheorems.DebounceSpacing | apps/api/src/commands/commands.service.ts:426-439 | as long as no flush has done so, two unfinished commands of one bike and type were created more than 10 000 ms apart, over fleet and HQ paths together |
| CommandTheorems.UnexpiredBound | apps/api/src/commands/commands.service.ts:426-453 | under the same condition, with lifetime T at most T/10001 + 1 of them are unexpired at any moment |
| CommandTheorems.SweepExact | apps/api/src/commands/commands.service.ts:142-244 | whichever rows the query returns, exactly min(100, n) of n stale commands become terminal and no other row is touched |
| CommandTheorems.SweepsClear | apps/api/src/commands/commands.service.ts:139-256 | k sweeps at one time leave max(0, n - 100 k) stale commands, so ceil(n / 100) clear them |
| CommandTheorems.SafeToLockMeansAtRest | apps/api/src/commands/commands.service.ts:910-946 | the check passes iff there is no live state, or ignition is not on, speed is within 0.5 and every stored moving point is at least 15 000 ms old |
| CommandTheorems.EveryLockWasSafe | apps/api/src/commands/commands.service.ts:415-453 | every LOCK row of every run was created by a request whose bike was at rest at that moment |
| CommandCauses.EveryEndHasACause | apps/api/src/commands/commands.service.ts:360-406 | every finished command was finished by an earlier step entitled to it: own device in time, late answer, sweep after expiry, delivered SMS |
| CommandEffects.AckIsExact | apps/api/src/commands/commands.service.ts:360-406 | for every store an acknowledgement ends a command iff it names one of its device and fleet that is PENDING or SENT: EXPIRED iff late, else ACKED or FAILED as the device says, with one event and count; otherwise only the clock moves |
| CommandEffects.RefusalsAreExact | apps/api/src/commands/commands.service.ts:415-453 | each refusal is given iff its reason is the first that applies; granted iff none does |
| CommandEffects.GrantIsExact | apps/api/src/commands/commands.service.ts:454-608 | a granted request adds exactly its row; unless the process dies it is ACKED by a delivered SMS and SENT otherwise, with the MQTT note iff MQTT was needed and failed, one event and count, and the provider and queue used exactly when due |
| CommandEffects.RefusedChangesNothing | apps/api/src/commands/commands.service.ts:415-453 | a refused request changes only the clock |
| CommandEffects.SweepIsExact | apps/api/src/commands/commands.service.ts:159-244 | each swept row is ACKED iff it had no SMS, has a SIM and is delivered now, else EXPIRED with the fitting message, with one event each in order; others stay |
| CommandEffects.SweepMissesNone | apps/api/src/commands/commands.service.ts:142-157 | a sweep is given only open commands past their expiry, at most a hundred, and given fewer leaves none |
| CommandEffects.FlushIsExact | apps/api/src/ingestion/sinotrack-adapter.service.ts:372-413 | a flush finds an entry for ten minutes, removes it, and makes its command SENT with an event and no count |
| CommandEffects.TcpAckIsExact | apps/api/src/ingestion/sinotrack-adapter.service.ts:431-457 | the device's latest open, unexpired command becomes ACKED with an event and no count, if there is one |
| CommandCauses.SweepCause | apps/api/src/commands/commands.service.ts:159-244 | a sweep acknowledges exactly the rows whose SMS was sent and delivered and expires the others |
| CommandCauses.QueueNamesRecentCommands | apps/api/src/commands/commands.service.ts:504-521 | the queue read on reconnect only names existing commands, each for ten minutes from its creation |
| CommandSms.SmsAccounts | apps/api/src/commands/commands.service.ts:522-565 | in every run a command's deliveries are exactly the one its flag records plus one per death between a delivery and its record; its attempts are exactly its request's call and the sweeps' calls for it; at most one such request, at most one revival, and sweeps, one ahead while it is open, at most one plus one per revival and per dying sweep |
| CommandSms.RevivedAtMostOnce | apps/api/src/commands/commands.service.ts:504-521 | in every run the queue entries naming a command and its revivals are together at most one |
| CommandSms.SmsEconomy | apps/api/src/commands/commands.service.ts:522-565 | in crash-free runs, adapter included, each command has at most one delivery and three attempts; more than two if and only if its request and two sweeps called the provider, which takes a revival; at most two if no flush finds its queued command finished |
| CommandSms.AlreadySentCaseIff | apps/api/src/commands/commands.service.ts:164-223 | some state of a run has a stale command with the SMS flag ahead of it if and only if a request of the run died right after recording its SMS or a flush reopened a finished command with the flag |
| CommandRuns.FlushRevivesFinishedCommand | apps/api/src/ingestion/sinotrack-adapter.service.ts:396-403 | for every bike and tracker a crash-free run turns an ACKED lock back to SENT and has it expire as already sent by SMS |
| CommandRuns.FlushDefeatsDebounce | apps/api/src/ingestion/sinotrack-adapter.service.ts:396-403 | and a run leaves two unfinished locks one millisecond apart |
| CommandRuns.RevivalCostsThirdAttempt | apps/api/src/commands/commands.service.ts:164-223 | and a crash-free run makes three SMS attempts for one command |
| CommandRuns.CrashCostsSecondDelivery | apps/api/src/commands/commands.service.ts:528-546 | a death between the provider call and the write costs a second delivered SMS |
| CommandService.CommandsService.RequestCommand | apps/api/src/commands/commands.service.ts:409-453 | refuses for the first failing reason in the code's order, else creates the row and dispatches: the protocol's request step |
| CommandService.CommandsService.DispatchCommand | apps/api/src/commands/commands.service.ts:469-608 | TCP, queue, SMS, MQTT in order, with the crash points: the protocol's dispatch |
| CommandService.CommandsService.AssertSafeToLock | apps/api/src/commands/commands.service.ts:910-946 | answers the lock-safety predicate |
| CommandService.CommandsService.FindLastMoving | apps/api/src/commands/commands.service.ts:927-939 | the latest stored moving point by one pass |
| CommandService.CommandsService.HandleCommandAck | apps/api/src/commands/commands.service.ts:360-406 | the protocol's ack step: unknown, mismatched and finished commands ignored, late answers expire |
| CommandService.CommandsService.SweepExpired | apps/api/src/commands/commands.service.ts:159-244 | the sweeper's loop is the protocol's sweep |
| CommandService.CommandsService.TransitionStatus | apps/api/src/commands/commands.service.ts:818-867 | row, metric and event written together |
| StreamTheorems.AtLeastOnce | apps/stream-processor/src/index.ts:85-199 | every delivered entry is pending or acknowledged, not both; an acknowledged one has every output its fields call for |
| StreamTheorems.OutputsAccounted | apps/stream-processor/src/index.ts:90-132 | no output without a delivered source that calls for it; enrichments of an entry are never fewer than its scores |
| StreamEffects.AckedEntriesHaveOutputs | apps/stream-processor/src/index.ts:85-135 | in every run an acknowledged entry whose kind is telemetry or not given has an enrichment and a score, and one of kind event and type CRASH, SOS or THEFT_SUSPECTED has a webhook |
| StreamEffects.RecordsSayWhat | apps/stream-processor/src/index.ts:58-131 | in every run every record comes from a delivered entry whose fields call for it and holds its device, fleet, bike, time, speed and band, a score delta of 0 to -3 by speed, or the alarm's type, severity and details |
| StreamEffects.OperateIsExact | apps/stream-processor/src/index.ts:90-135 | an operation writes the next record due, enrichment before score, and acknowledges once all are written |
| StreamEffects.ClaimIsExact | apps/stream-processor/src/index.ts:145-168 | a start gets the claimed entries in order as its own, as of now, and changes no other |
| StreamEffects.ReadIsExact | apps/stream-processor/src/index.ts:174-199 | a read gets the next entries, fifty or all there are, in order |
| StreamTheorems.IdenticalCopies | apps/stream-processor/src/index.ts:98-130 | all copies of an output of an entry that carries its time are identical |
| StreamTheorems.ReplayIdenticalIffTimed | apps/stream-processor/src/index.ts:98-130 | passes at different times write the same record iff the entry carries `ts` |
| StreamRecovery.ClaimedIff | apps/stream-processor/src/index.ts:145-168 | a start claims an entry if and only if it is pending and idle for 60 s, fewer than 500 pending entries are older and fewer than 50 of those are idle |
| StreamRecovery.StartsAreNeeded | apps/stream-processor/src/index.ts:145-174 | however a reachable group goes on, an abandoned entry with 50 k older claimable ones is still pending after k starts: one start never reaches the 51st |
| StreamRecovery.BacklogIsRecovered | apps/stream-processor/src/index.ts:145-168 | from every reachable state, once everything pending is idle, exactly ceil(n / 50) starts without failure get all n pending entries acknowledged, complete |
| StreamTheorems.HandlerIsProtocol | apps/stream-processor/src/index.ts:85-142 | a whole handler pass, through the acknowledgement or up to the operation that throws, is a run of the worker's operations ending in a failure step exactly when it throws, with the streams `HandleEntry` leaves |
| StreamTheorems.FieldMapLastWins | apps/stream-processor/src/index.ts:40-46 | a name's value is what follows its last occurrence, missing iff there is none or it has no value |
| StreamTheorems.PenaltyFollowsBand | apps/stream-processor/src/index.ts:58-96 | penalties grow with speed, only for medium and high bands, two or more iff high |
| StreamTheorems.StreamProcessor.ToFieldMap | apps/stream-processor/src/index.ts:40-46 | the loop computes the last-wins record, odd trailing names included |
| StreamTheorems.StreamProcessor.HandleEntry | apps/stream-processor/src/index.ts:85-142 | exactly the operations before the failure take effect, the in-flight counter is restored |
| StreamProofs.StepAccounted | apps/stream-processor/src/index.ts:145-199 | reads, claims, writes, failures and deaths keep the pending/acknowledged partition |
| StreamProofs.StepProgress | apps/stream-processor/src/index.ts:90-135 | what is behind a worker has been written, and acknowledged entries are complete |
| StreamProofs.StepPaid | apps/stream-processor/src/index.ts:98-115 | each score, and each worker about to score, is paid for by an enrichment |
| RateLimiter.Limiter.EnforceRateLimit | apps/gateway/src/index.ts:235-270 | admits iff unlimited, fresh window or room; the map changes as specified, keeping key positions |
| RateLimiter.Limiter.Sweep | apps/gateway/src/index.ts:42-59 | the two deletion loops prune the expired entries, then drop the oldest beyond the cap |
| RateLimiterRanks.RankDecides | apps/gateway/src/index.ts:235-270 | under the cap a request of an unlimited path is let through, and one of a limited path iff it is among the first max of its window, which a request opened one window length before its end |
| RateLimiter.SweepCaps | apps/gateway/src/index.ts:42-59 | over the cap exactly the cap remains, all unexpired, only a prefix dropped; under it exactly the expired go |
| RateLimiter.PruneKeepsOrder | apps/gateway/src/index.ts:44-48 | pruning keeps insertion order |
| RateLimiterRuns.SweepIsInvisible | apps/gateway/src/index.ts:42-59 | under the cap a limiter swept at any times decides every request as one never swept |
| RateLimiterRuns.SweptAsUnsweptIff | apps/gateway/src/index.ts:42-59 | over the cap or not, it treats every request of a run as one never swept (decision, count, window) if and only if no request comes while a window a sweep evicted from its key would still run |
| RateLimiterNoticing.SweepUnnoticedIff | apps/gateway/src/index.ts:50-58 | after any run, over the cap before or not, a sweep leaves every decision on every future sequence of requests unchanged if and only if it finds no more running windows than the cap |
| RateLimiterBounds.FixedWindowsBoundSlidingOnes | apps/gateway/src/index.ts:253-269 | under the cap windows of a key never overlap, each admits at most max, any half-open window-length interval at most 2 max - 1 |
| RateLimiterEvictions.SlidingBoundIsAttained | apps/gateway/src/index.ts:253-269 | for every limit some run under the cap admits exactly 2 max - 1 in one window length |
| RateLimiterBounds.EvictionsLoosenTheBound | apps/gateway/src/index.ts:50-58 | in every run, e evictions of the key's running window within a window length leave at most (e + 2) max - 1 admitted there, and at most (e + 1) max if one comes at its first instant |
| RateLimiterBounds.TimerBoundsSlidingWindows | apps/gateway/src/index.ts:42-59 | with sweeps at least 60 s apart, whatever the cap, at most (3 + (W - 1) / 60 000) max - 1, and (2 + (W - 1) / 60 000) max if 60 000 divides W - 1 |
| RateLimiterEvictions.EvictionBoundIsAttained | apps/gateway/src/index.ts:50-58 | for every cap and every e with 60 000 (e - 1) at most W - 2, that many newer clients before each of e sweeps let exactly (e + 2) max - 1 requests through in one window length |
| RateLimiterEvictions.TimerBoundIsAttained | apps/gateway/src/index.ts:42-59 | the timer's bound is reached, for every limit, cap and window length |
| Cookies.DecodeUriComponent | apps/gateway/src/index.ts:213-217 | decoding never grows a value, shrinks any value with an escape, and is the identity without one |
| Cookies.DecodingKeepsIff | apps/gateway/src/index.ts:213-217 | a value survives decoding iff it has no escape or is malformed |
| Cookies.HexDigitIsExact | apps/gateway/src/index.ts:213-217 | the hexadecimal digits in either case and nothing else |
| Cookies.ParseCookieHeader | apps/gateway/src/index.ts:196-220 | the fold over the parts, skipping parts without `=` or name |
| Cookies.ExtractCookieToken | apps/api/src/events/events.gateway.ts:259-276 | the search loop's first match, absent when empty |
| CookieTheorems.ParsePrinted | apps/gateway/src/index.ts:196-220 | parsing printed pairs gives their last-wins map |
| CookieTheorems.ParsePrintedRfc6265 | apps/gateway/src/index.ts:196-220 | in particular any cookie-pairs in the syntax of RFC 6265 |
| CookieTheorems.ReadersAgreeIff | apps/api/src/events/events.gateway.ts:259-276 | on any header where the name occurs once, both readers return the same iff no white space precedes `=`, the value is non-empty and decoding keeps it |
| CookieTheorems.GatewayReadsLast | apps/gateway/src/index.ts:201-219 | the gateway returns the last occurrence, nothing iff there is none |
| CookieTheorems.SocketReadsFirst | apps/api/src/events/events.gateway.ts:267-275 | the websocket reader returns the first occurrence |
| CookieTheorems.DuplicatesSplitTheReaders | apps/api/src/events/events.gateway.ts:267-275 | with duplicates the readers return the last and the first |
| CookieTheorems.GatewayHitIsSocketHitIff | apps/api/src/events/events.gateway.ts:269-271 | the gateway's matches the websocket reader misses are those with white space before `=` |
| CookieTheorems.LoneCookie | apps/api/src/events/events.gateway.ts:267-275 | on a header of one cookie the gateway returns the decoded value; the websocket reader the value as it stands, and nothing if it is empty or white space precedes `=` |
| CookieTheorems.SpaceHidesFromSocket | apps/api/src/events/events.gateway.ts:269-271 | for every name a header only the gateway reads, for the white space |
| CookieTheorems.EmptyHidesFromSocket | apps/api/src/events/events.gateway.ts:271-275 | for every name a header only the gateway reads, for the empty value |
| CookieTheorems.EscapeSplitsTheReaders | apps/gateway/src/index.ts:213-217 | for every name a header on which the readers return different tokens |
| CookieEncoding.DecodeEncode | apps/gateway/src/index.ts:213-217 | decoding undoes percent-encoding of every string |
| CookieEncoding.EscapesAreUtf8 | apps/gateway/src/index.ts:213-217 | an escape that decodes is the UTF-8 form of the character it decodes to: no overlong form, surrogate or stray octet gets through |
| CookieEncoding.EncodedTokenIsRead | apps/gateway/src/index.ts:222-232 | any token stored percent-encoded as the last cookie of its name is what the gateway reads |
| Ico.PackIco | apps/dashboard/scripts/generate-favicon.js:9-45 | fails iff some number does not fit its field; otherwise the buffer is the specified layout |
| Ico.WriteEntry | apps/dashboard/scripts/generate-favicon.js:29-37 | the sixteen directory bytes and nothing else |
| Ico.RegionsTile | apps/dashboard/scripts/generate-favicon.js:23-42 | data regions are contiguous, disjoint, end at the end of the file and hold the images' bytes |
| Ico.RoundTrip | apps/dashboard/scripts/generate-favicon.js:9-45 | a reader recovers every image, exactly iff no side is zero |
| Ico.FixedBytes | apps/dashboard/scripts/generate-favicon.js:18-35 | the header's zero, one and count, and in each entry no colours, a zero, one plane, 32 bits a pixel |
| PaymentTheorems.LedgerRefinement | apps/api/src/financials/financials.service.ts:82-176 | any run of recordPayment keeps one row per fleet, rider and UTC day and equals the last-write-wins map |
| PaymentTheorems.OneRowPerDayIff | apps/api/src/financials/financials.service.ts:663-688 | a run mixing payments and payouts keeps one row per fleet, rider and day throughout if and only if no payout moves a commission onto a day with another commission it moves or a row already there |
| PaymentTheorems.PayoutMergesDays | apps/api/src/financials/financials.service.ts:663-688 | for every rider a run of two commissions and a payout ends with two rows on one day |
| PaymentTheorems.PaymentErasesCommission | apps/api/src/financials/financials.service.ts:90-128 | for every rider a run of a commission and a rent payment ends without the commission |
| PaymentTheorems.TotalsComeFromTheLedger | apps/api/src/financials/financials.service.ts:489-495 | the lease totals are the map's PAID/PARTIAL totals |
| PaymentEffects.RecordIsExact | apps/api/src/financials/financials.service.ts:51-176 | a rider outside the fleet, or on a lease without a bike, changes nothing; else the row of the same UTC day, or a new one, holds exactly what the call says and no other row changes |
| PaymentEffects.LeaseIsExact | apps/api/src/financials/financials.service.ts:485-538 | paid totals count PAID and PARTIAL rows, rent without the deposit; arrears are the rate for whole days since assignment, none in maintenance, less rent paid, never negative, plus fines |
| PaymentTheorems.PaymentLowersRent | apps/api/src/financials/financials.service.ts:493-538 | a counted non-deposit payment a on a fresh day lowers the rent part by exactly min(a, rent part) and leaves fines |
| PaymentTheorems.PaymentAddsIff | apps/api/src/financials/financials.service.ts:90-128 | on any table, whichever row of the day the query returns, a payment adds its amount iff the row it replaces counted for nothing |
| PaymentTheorems.PaymentKeepsCommissionsIff | apps/api/src/financials/financials.service.ts:90-128 | it keeps the number of commissions iff the row it replaces is none |
| PaymentTheorems.OthersUnaffected | apps/api/src/financials/financials.service.ts:485-545 | other riders' totals and rent arrears do not move |
| PaymentTheorems.PayoutConserves | apps/api/src/financials/financials.service.ts:657-707 | a payout moves exactly what is owed from pending to paid, keeps sum, count, average and other rows, and leaves nothing for a second |
| PaymentEffects.PayOutIsExact | apps/api/src/financials/financials.service.ts:663-688 | exactly the rider's UNPAID rows whose notes begin with Delivery Commission become PAID by mobile money, now |
| PaymentEffects.CommissionsAreExact | apps/api/src/financials/financials.service.ts:587-619 | pending sums UNPAID, paid sums PAID, all commissions are counted, the average is their sum over the count |
| PaymentTheorems.PayoutLeavesOthers | apps/api/src/financials/financials.service.ts:663-688 | what other riders are owed is unchanged |
| PaymentTheorems.PayoutCountsAsRent | apps/api/src/financials/financials.service.ts:470-500 | a payout adds what was owed to the rider's paid total and lowers the rent arrears by the owed non-deposit part, as far as it reaches; other riders' do not move |
| Payments.FinancialsService.RecordPayment | apps/api/src/financials/financials.service.ts:51-194 | accepts iff the rider is in the fleet and, on a lease, has a bike; updates the row of the day the query returned or creates it |
| Payments.FinancialsService.RecordDeliveryPayout | apps/api/src/financials/financials.service.ts:657-707 | fails iff nothing is owed; reports the total owed and pays out exactly those rows |
| Payments.FinancialsService.DeliveryFinancialSummary | apps/api/src/financials/financials.service.ts:587-619 | the accumulator loop computes pending, paid, count and average |
| Summaries.SummaryConserves | apps/api/src/financials/financials.service.ts:282-375 | method, status and daily breakdowns each sum to the range total, days strictly increase, the outstanding sum is the lease arrears |
| Summaries.FiguresAreTableSums | apps/api/src/financials/financials.service.ts:282-345 | earned ever, earned in the range, and each bucket by method, status and UTC day are sums over the whole table of the fleet's PAID and PARTIAL rows |
| Summaries.GroupByConserves | apps/api/src/financials/financials.service.ts:311-338 | one bucket per group, each the group's exact sum, together everything |
| Summaries.DailyBucketsAreExact | apps/api/src/financials/financials.service.ts:331-345 | each daily bucket is what that day earned |
| Deliveries.StampsTellStatus | apps/api/src/deliveries/deliveries.service.ts:299-325 | deliveredAt iff DELIVERED, failedAt iff FAILED, pickedUpAt from PICKED_UP on, pickedUpAt at most deliveredAt |
| Deliveries.AuditRebuildsDeliveries | apps/api/src/deliveries/deliveries.service.ts:222-355 | replaying the audit log gives every status and rider, every recorded old status matching |
| Deliveries.ClosedForever | apps/api/src/deliveries/deliveries.service.ts:183-297 | DELIVERED and FAILED never change |
| Deliveries.UpdateIsExact | apps/api/src/deliveries/deliveries.service.ts:243-355 | staff update any order of their fleet and a courier only their own, along the ten moves of the table or to the same status: then status, stamp and audit change as stated and nothing else; otherwise nothing |
| Deliveries.CouriersUpdateTheirOwn | apps/api/src/deliveries/deliveries.service.ts:256-262 | in every run a courier's update leaves a mark only on an order the audit last gave to that courier |
| Deliveries.AssignIsExact | apps/api/src/deliveries/deliveries.service.ts:170-232 | an open order of the fleet goes to a rider of the fleet; otherwise nothing |
| Deliveries.AutoAssignIsExact | apps/api/src/deliveries/deliveries.service.ts:515-681 | a pending order goes to the rider found; otherwise nothing |
| Deliveries.CreateIsExact | apps/api/src/deliveries/deliveries.service.ts:49-82 | a delivery fleet gets a pending order without rider or stamps; other fleets nothing |
| Deliveries.CarriedIffNoOrphans | apps/api/src/deliveries/deliveries.service.ts:267-297 | throughout a run every ASSIGNED, PICKED_UP, IN_TRANSIT or DELIVERED order has a rider if and only if no accepted update to ASSIGNED hits a pending order without one |
| Deliveries.RiderIffGiven | apps/api/src/deliveries/deliveries.service.ts:201-232 | the rider column and the audit log agree: a rider is set iff the log records an assignment |
| Deliveries.AssignedWithoutRider | apps/api/src/deliveries/deliveries.service.ts:267-297 | a run reaches ASSIGNED with no rider |
| Deliveries.DeliveriesService.CreateDelivery | apps/api/src/deliveries/deliveries.service.ts:49-91 | the create step, refused outside delivery fleets |
| Deliveries.DeliveriesService.AssignDelivery | apps/api/src/deliveries/deliveries.service.ts:170-241 | the assign step with its refusals |
| Deliveries.DeliveriesService.UpdateDeliveryStatus | apps/api/src/deliveries/deliveries.service.ts:243-364 | the update step: ownership, transition table, stamps, audit |
| Deliveries.DeliveriesService.AutoAssignDelivery | apps/api/src/deliveries/deliveries.service.ts:515-690 | gives a pending order to the first nearest qualifying rider; fails, changing nothing, iff the order is unknown or not pending or nobody qualifies |
| AutoAssign.PickRider | apps/api/src/deliveries/deliveries.service.ts:532-646 | the pipeline picks the first rider of least distance among those who qualify and fails iff none does |
| AutoAssign.HeadIsNearest | apps/api/src/deliveries/deliveries.service.ts:645-646 | the head of any stable sort of the candidates belongs to that rider |
| AutoAssign.CollectCandidates | apps/api/src/deliveries/deliveries.service.ts:588-637 | the index-aligned lookup and filter loop yields exactly the qualifying riders in order |
| AutoAssign.NearestIsUnique | apps/api/src/deliveries/deliveries.service.ts:645-646 | there is only one such rider |
| AutoAssign.QualifiesIff | apps/api/src/deliveries/deliveries.service.ts:557-625 | who qualifies, in terms of cache entries, bikes and the battery limit of 42 |
| Lockout.AuthService.Login | apps/api/src/auth/auth.service.ts:111-157 | outcome and counter as specified; the password is compared iff not locked and the account is usable |
| Lockout.AuthService.RecordFailedLogin | apps/api/src/auth/auth.service.ts:265-280 | counts on a live key, starts over on an expired one, renews the expiry |
| Lockout.OutcomeIsExact | apps/api/src/auth/auth.service.ts:111-157 | in every run an attempt passes iff its password is right and no five live failures are counted, fails iff it has no account or a wrong password under the same guard; a pass removes the counter, a failure counts one more or starts at one, for 900 s |
| Lockout.AtMostFiveGuesses | apps/api/src/auth/auth.service.ts:240-333 | in any span under 900 s without a right password given unbarred, at most five attempts without one are looked at |
| Lockout.CountBounded | apps/api/src/auth/auth.service.ts:240-319 | the stored count stays within one to five |
| Lockout.AtMostFiveFailures | apps/api/src/auth/auth.service.ts:240-333 | any span shorter than 900 s without a right password records at most five failures |
| Lockout.FifthFailureLocks | apps/api/src/auth/auth.service.ts:240-262 | after the fifth failure every attempt of the next 900 s is turned away |
| Pagination.PagesPartition | apps/api/src/common/pagination.ts:31-53 | pages 1 to totalPages concatenate to the list; all but the last full, the last non-empty unless the list is empty, later ones empty |
| Pagination.ParamsUsableIff | apps/api/src/common/pagination.ts:19-37 | of the bare function: page and page size are at least one iff the value is not strictly between zero and one |
| Pagination.ParamsAreExact | apps/api/src/common/pagination.ts:19-37 | positive finite values round down, others give page 1 and size 20; limit serves only where pageSize is missing |
| Pagination.ParamsSelectThePage | apps/api/src/common/pagination.ts:19-37 | skip and take select exactly the page asked for |

## Left out

- Await-level interleavings inside one handler: the read, the external call and the unconditional write of a status are one step here.
- Failures of the database, the audit log or the metric inside a status write.
- Trimming of the source and output streams, and claims of entries that were trimmed away.
- Drift of the sweep timer: sweeps are taken to be at least its period apart where that matters.
- Record names that collide with JavaScript's object prototype, such as `__proto__`.
- The bearer-header branch of token extraction, CORS, path bypass and proxying in the gateway.
- MQTT payload signing, device secrets, OTP and token issuing after the password check, the second counter a user gets by writing a phone number differently.
- Message texts, notes, proofs of delivery and webhook notifications.
- Rows of the payment table written by other services (deposits, mobile-money callbacks) are not steps of the ledger run; the lemmas on arbitrary tables cover them.
- Lease status labels, lock state, month and year figures of the financial summary, and time zones.
- Haversine arithmetic, cached states without coordinates, and floating-point rounding.
- Authorization, HQ administration, bikes, devices, trips, incidents and user interfaces: single-branch facts or plumbing.
