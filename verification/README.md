# Verification models of the platform's stateful cores

This project models, in Dafny, the parts of the platform whose correctness depends on histories, interleavings
or formats, and proves what they guarantee over every run. It covers the IP and account rate limiter, the text
chunker and its concurrent map, the write-ahead log with replay and admission breaker, citation grounding, the
Argon2id hash string, refresh-token rotation, one-time codes, the bounded hashing pool and the Zoom circuit breaker.

`dafny verify dfyconfig.toml` checks everything.

## How the models are built

- **State machines.** Each protocol is a function `Step` over values and a function `After` over a whole run.
  Theorems quantify over all runs. Where the Go code mutates an object, a class with the same fields has methods
  that keep it equal to what its run so far makes of it, so that the theorems about runs are about the object.
- **Time** is an integer number of nanoseconds passed to each operation. A rate-limiter event that is a request is
  never earlier than the events before it. A sweep may use a time read earlier, because the loop reads the clock once.
- **Strings** are sequences of `char`, one `char` for one byte.
- **Foreign code** is a parameter: key derivation, keyed hash, token hash, the vector search, the result of a
  database statement, the outcome of a file write, the ending of an HTTP attempt.
- An event that is not possible when its turn comes in a run is skipped, so "every run" means every interleaving.

## What the proofs say about the code

- **The IP sweep is invisible** in every run. At most 9 requests of one IP are allowed in a closed minute, and 2000
  requests in a closed five minutes get it blocked. Both numbers are reached: 9 can be allowed within one clock
  tick, and 1999 requests within one tick can go unblocked. The two limits in the code, 5 and 1000, are per
  *window*, and a span of the same length may straddle two windows.
- **The account sweep is not invisible.** It ignores the lock flag. Limiters with and without the sweep agree on
  who is locked exactly until a sweep drops a locked tracker. The login reply promises "mandatory password
  recovery" (`services/platform-engine/auth_handler.go:76`), while the code unlocks the account between 1h and
  1h05m after the locking failure.
- **`Chunk` exceeds its limit.** Every piece is at most `MaxChunkSize + 2` bytes, unless it is one sentence that is
  longer by itself. A paragraph of exactly the maximum comes out two bytes longer. The documented limit is kept if and
  only if every piece leaves room for its two-byte delimiter. The terminator of an over-long
  paragraph is replaced by `". "`; nothing else is lost before the last piece is trimmed.
- **The log and the counter.** A failed write is only printed, so a request can be acknowledged and not be in the
  log. Ids are clock readings and may coincide. Whatever the ids, nothing is visible that was not submitted, and a
  crash recovers for each place what the last line for it says. An acknowledged request whose place no other request
  wrote to is recovered if and only if its write succeeded. For given requests, memory ends as the replay of the log
  under every schedule if and only if no two of them share kind and id with different payloads, or requests are
  admitted one at a time; the limit in the code is 500.
- **Grounding.** Verification means "cites only retrieved verses" for every response exactly when nothing but the
  printed citations can be read as a citation in the compiled context. Books without brackets and texts without `[`
  are enough. A citation of a numbered book such as `1 John` is not in the language of the pattern at all.
- **One-time codes.** From the second time step of the epoch on, accepted codes are exactly those of the current,
  the previous and the next step.

## Model

| member | source | states |
|---|---|---|
| `FixedWindow.AtMostIsSparse` | services/platform-engine/rate_limiter.go:87-97 | "at most l requests in every closed span of length d" is the same as "any l + 1 consecutive requests take longer than d" |
| `FixedWindow.OpenedAfterExpiry` | services/platform-engine/rate_limiter.go:87-97 | a window is reopened only by a request that comes more than its length after the previous opening |
| `FixedWindow.SparseNeverOverloads` | services/platform-engine/rate_limiter.go:87-106 | traffic with at most l requests in every closed span never drives the window counter past l |
| `FixedWindow.DenseOverloads` | services/platform-engine/rate_limiter.go:87-106 | 2l requests within one closed span drive the counter past l before the span ends, however windows fall |
| `FixedWindow.AdmittedInSpan` | services/platform-engine/rate_limiter.go:87-111 | at most 2l - 1 requests of a closed span find the counter within l, across window resets |
| `FixedWindow.StraddleAdmitted` | services/platform-engine/rate_limiter.go:87-111 | the bound 2l - 1 is reached, within one tick of the clock |
| `IPHistory.TrackerRefinesHistory` | services/platform-engine/rate_limiter.go:81-111 | counters, window starts, block flag and answer of a tracker are functions of the IP's request times: the loads of the two windows, and whether the five-minute load was ever exceeded |
| `IPHistory.RevivalIsFresh` | services/platform-engine/rate_limiter.go:41-52 | a tracker idle for over ten minutes and not blocked answers and changes exactly as a new one |
| `IPHistory.RunRefinesHistory` | services/platform-engine/rate_limiter.go:36-112 | simulation: after any run the table holds the tracker of each IP's whole history, or none, and then the IP is unblocked and has been idle for ten minutes |
| `IPHistory.AnswerRefinesHistory` | services/platform-engine/rate_limiter.go:69-112 | every answer, with sweeps or without, is the verdict on all requests this IP has ever made |
| `IPHistory.SweepInvisible` | services/platform-engine/rate_limiter.go:36-112 | in every timed run each request gets the same answer with sweeping and without |
| `IPHistory.EvictedExactlyWhenIdle` | services/platform-engine/rate_limiter.go:41-52 | after any timed run the sweep forgets the tracker of an IP if and only if the IP was never over 1000 and its last request is more than 600,000,000,000 ns old; the others stay |
| `IPHistory.SweepOneMore` | services/platform-engine/rate_limiter.go:41-52 | the per-key steps of a sweep compose to removal of exactly the evictable trackers |
| `IPGuarantees.ThrottleUpperBound` | services/platform-engine/rate_limiter.go:93-111 | in any closed minute of any run at most 9 requests of one IP are allowed |
| `IPGuarantees.NineIsReached` | services/platform-engine/rate_limiter.go:93-111 | a run in which 9 requests are allowed within one tick |
| `IPGuarantees.ModestIsNeverRefused` | services/platform-engine/rate_limiter.go:87-111 | an IP with at most 5 requests in every closed minute is never refused |
| `IPGuarantees.BusyIsNeverBlocked` | services/platform-engine/rate_limiter.go:87-106 | an IP with at most 1000 requests in every closed five minutes is never blocked |
| `IPGuarantees.FloodIsBlocked` | services/platform-engine/rate_limiter.go:87-106 | 2000 requests in one closed five-minute span: one of them, within the span, is answered as blocked |
| `IPGuarantees.OneLessIsNotBlocked` | services/platform-engine/rate_limiter.go:87-106 | a run in which 1999 requests within one tick do not block the IP |
| `IPGuarantees.BlockIsPermanent` | services/platform-engine/rate_limiter.go:41-52 | once an IP has been answered as blocked, its tracker is never swept and every later request is refused |
| `RateLimiting.IPRateTracker.Touch` | services/platform-engine/rate_limiter.go:78-111 | the in-place update of one tracker is the specification's step, with the text of the message for each of the three answers |
| `RateLimiting.IPTrackers.CheckIP` | services/platform-engine/rate_limiter.go:69-112 | blocked, throttled or allowed, each with its message, by the IP's whole history: ever over 1000 in a five-minute window, else over 5 in the one-minute window, else neither; the map stays what the run makes of it |
| `RateLimiting.IPTrackers.Sweep` | services/platform-engine/rate_limiter.go:41-52 | the sweep reaching one key removes it if and only if the tracker is not blocked and its last activity is more than 600,000,000,000 ns ago; all else stays |
| `RateLimiting.IPTrackers.SweepAll` | services/platform-engine/rate_limiter.go:38-52 | an undisturbed tick removes exactly the trackers that are not blocked and have been inactive for more than 600,000,000,000 ns, and keeps every other unchanged |
| `RateLimiting.RateLimiter.CleanupTick` | services/platform-engine/rate_limiter.go:36-67 | both maps after a tick: the IP trackers that are blocked or at most ten minutes idle, and the account trackers whose last failure is at most an hour old |
| `AccountLadder.StreakIsMaximal` | services/platform-engine/rate_limiter.go:142-151 | the streak is the longest trailing run of failures since the last success with gaps of at most an hour |
| `AccountLadder.LadderRefinesHistory` | services/platform-engine/rate_limiter.go:127-166 | without sweeps, an unlocked tracker's counter is the streak and the lock is set exactly if some streak reached 5 |
| `AccountLadder.ReplyRefinesHistory` | services/platform-engine/rate_limiter.go:138-166 | the reply as a function of the account's history: locked, or the warning that announces exactly 5 minus the streak |
| `AccountLadder.SweepKeepsAgreement` | services/platform-engine/rate_limiter.go:54-65 | simulation: as long as no lock is dropped, the limiter with sweeps and the one without cannot be told apart |
| `AccountLadder.SweepKeepsReplies` | services/platform-engine/rate_limiter.go:54-65 | until a lock is dropped every attempt gets the same reply with sweeps and without |
| `AccountLadder.DropIsVisible` | services/platform-engine/rate_limiter.go:54-65 | a sweep that drops a lock makes the two limiters disagree |
| `AccountLadder.SweepVisibleIffLockDropped` | services/platform-engine/rate_limiter.go:54-65 | the two limiters agree on who is locked throughout a run if and only if no sweep of it drops a lock |
| `AccountLadder.EvictedExactlyAfterAnHour` | services/platform-engine/rate_limiter.go:54-65 | the sweep forgets an account, locked or not, if and only if the attempt that set its clock is more than 3,600,000,000,000 ns old; that is the last one that found no tracker, or failed and found no lock |
| `AccountLadder.LockHasCause` | services/platform-engine/rate_limiter.go:150-156 | every lock in force was set by a failed attempt of that account, whose time the tracker still holds |
| `AccountLadder.LockLastsAnHour` | services/platform-engine/rate_limiter.go:54-65 | a sweep drops a lock only more than one hour after the failure that set it |
| `AccountLadder.LockedExactlyUntilSwept` | services/platform-engine/rate_limiter.go:54-65 | a lock set by an attempt is still in force if and only if every sweep of the account since then came within an hour of it |
| `AccountLadder.LockIsGoneAfterAnHourAndPeriod` | services/platform-engine/rate_limiter.go:37-65 | with a sweep reaching the account at least every period, each with a time that may have been read earlier, no account is still locked later than an hour and that period after the locking failure: 1h05m for the loop's five minutes |
| `AccountLadder.LockIsNotPermanent` | services/platform-engine/rate_limiter.go:54-65 | a concrete run that locks an account and then unlocks it by a sweep |
| `AccountLadder.FiveFailuresAnHour` | services/platform-engine/rate_limiter.go:134-156 | in any timed run, with sweeps or without, a closed hour without an accepted success sees at most five failures that found the account unlocked |
| `AccountLadder.FiveAreCounted` | services/platform-engine/rate_limiter.go:134-156 | five are reached |
| `RateLimiting.AccountTracker.Record` | services/platform-engine/rate_limiter.go:134-166 | the in-place update of one tracker is the specification's step, with its warning |
| `RateLimiting.AccountTrackers.RecordAccountAttempt` | services/platform-engine/rate_limiter.go:127-166 | the reply is what the run so far, sweeps included, makes it; the map stays what the run makes of it, with times in order |
| `RateLimiting.AccountTrackers.IsAccountLocked` | services/platform-engine/rate_limiter.go:115-124 | true exactly if the run so far has the account locked; nothing is changed |
| `RateLimiting.AccountTrackers.Sweep` | services/platform-engine/rate_limiter.go:54-65 | the sweep reaching one key removes it if and only if its last failure is more than 3,600,000,000,000 ns ago, locked or not; all else stays |
| `RateLimiting.AccountTrackers.SweepAll` | services/platform-engine/rate_limiter.go:54-65 | an undisturbed tick removes exactly the trackers whose last failure is more than 3,600,000,000,000 ns ago |
| `Strings.SplitTerminated` | internal/domain/ai/mapreduce.go:32-43 | the pieces of a split, each followed by the separator, spell the text and one more separator |
| `Strings.SplitParts` | internal/domain/ai/mapreduce.go:32-43 | no piece of a split contains the separator |
| `Strings.SplitIsLeftmost` | internal/domain/ai/mapreduce.go:32-43 | the first piece ends where the separator first occurs and the rest is split in the same way; without an occurrence the text is its only piece |
| `Strings.TrimSpaceSplits` | internal/domain/ai/mapreduce.go:55-57 | trimming removes only white space, at both ends, and all of it |
| `Chunking.ChunksLoseNothing` | internal/domain/ai/mapreduce.go:24-60 | the chunks, the last before trimming, spell the text and two more newlines, except that the terminator of an over-long paragraph becomes ". "; the total length is exactly the text's plus 2 |
| `Chunking.RetaggedIsInPlace` | internal/domain/ai/mapreduce.go:40-52 | that replacement only overwrites newline bytes, and happens only if some paragraph is over-long |
| `Chunking.ChunksAreBounded` | internal/domain/ai/mapreduce.go:34-57 | every chunk is at most max + 2 bytes, or is exactly one sentence of an over-long paragraph, itself longer than max, with its delimiter; and is cut right after a sentence or a paragraph |
| `Chunking.ChunksFitIffSentencesDo` | internal/domain/ai/mapreduce.go:34-57 | all pieces stay within max + 2 bytes if and only if no sentence of an over-long paragraph is longer than max |
| `Chunking.ChunksAreFew` | internal/domain/ai/mapreduce.go:34-57 | greedy packing: k chunks with L over-long paragraphs satisfy (k - 1 - L)(max + 3) <= 2(length + 2) |
| `Chunking.LimitIsKeptIff` | internal/domain/ai/mapreduce.go:34-57 | every chunk is within the documented limit if and only if, in a scan of the lengths of paragraphs and sentences, every flushed builder is and the last one is once trimmed; before trimming, if and only if every accepted piece left room for its delimiter |
| `Chunking.LimitIsExceeded` | internal/domain/ai/mapreduce.go:34-52 | for every max a text one of whose chunks is two bytes over the limit |
| `Chunking.SomeChunk` | internal/domain/ai/mapreduce.go:25-60 | a text within the limit is its own only chunk, untrimmed; every text has a chunk |
| `Chunking.MapReduceWorker.constructor` | internal/domain/ai/mapreduce.go:15-20 | a positive limit is kept, any other becomes 4000 |
| `Chunking.MapReduceWorker.Chunk` | internal/domain/ai/mapreduce.go:24-60 | the nested loops with their builder compute the chunks the theorems speak about; a text within the limit comes back whole and untrimmed, and there is always a chunk |
| `ForkJoin.SlotsArePrivate` | internal/domain/ai/mapreduce.go:70-89 | no step touches the slots of another goroutine |
| `ForkJoin.SlotFollowsFate` | internal/domain/ai/mapreduce.go:70-89 | at every point of every schedule a goroutine's slots are determined by what happened to that goroutine alone |
| `ForkJoin.FirstStepDecides` | internal/domain/ai/mapreduce.go:74-79 | a goroutine whose first step comes after the cancellation never calls the processor and reports the cancellation; one whose first step comes before always calls it |
| `ForkJoin.ReturnDecides` | internal/domain/ai/mapreduce.go:79-85 | a call ends at its first return, and finds the context done exactly if the cancellation came before that |
| `ForkJoin.JoinIsExact` | internal/domain/ai/mapreduce.go:91-102 | for every interleaving and moment of cancellation: no error if and only if every call went through, and then the results are the processor's in chunk order |
| `ForkJoin.ScheduleDoesNotMatter` | internal/domain/ai/mapreduce.go:63-102 | without cancellation any two schedules give the same outcome |
| `ForkJoin.WaitCanEnd` | internal/domain/ai/mapreduce.go:91 | from every reachable state the goroutines can all finish |
| `ForkJoin.ForkAndJoin` | internal/domain/ai/mapreduce.go:70-102 | the steps on shared slices updated in place, then the scan of the errors, yield the outcome the theorems are about |
| `ForkJoin.OnlyChunk` | internal/domain/ai/mapreduce.go:63-89 | the one goroutine of a text that fits calls the processor on the text itself, and without cancellation always does |
| `ForkJoin.Process` | internal/domain/ai/mapreduce.go:63-102 | on the chunks of the text, under any schedule that lets every goroutine finish: no error if and only if every call went through, and then result i is the processor's on chunk i; for a text that fits the one result is the processor's on the text itself, and without cancellation the outcome is exactly the processor's |
| `WriteAheadLog.PlanKeyInjective` | services/platform-engine/main.go:55 | distinct ids have distinct `plan:<id>` keys |
| `WriteAheadLog.ReplayIsLastLine` | services/platform-engine/main.go:47-67 | whatever the ids, replay puts into each place of each table what the last line for it says, and nothing else |
| `WriteAheadLog.LastLineIsLast` | services/platform-engine/main.go:47-67 | what the last line for a place says is the payload of a line for it after which no line is for it; or there is none |
| `WriteAheadLog.ReplayWithin` | services/platform-engine/main.go:47-67 | replay of any log holds nothing but its lines, exactly the keys of its generate lines, and their number |
| `WriteAheadLog.ReplayHolds` | services/platform-engine/main.go:47-67 | if no two lines share kind and id with different payloads, replay holds exactly the log in the three tables, exactly its keys, and its length |
| `WriteAheadLog.ReplayLinesIsReplay` | services/platform-engine/main.go:48-65 | lines that do not parse are passed over; lines of another type are counted and otherwise ignored |
| `WriteAheadLog.RecoveryReadsFile` | services/platform-engine/main.go:47-67 | from any file: study plans, sessions and searches hold for each id the payload of the last generate, zoom or search line for it and nothing else, the keys are exactly `plan:<id>` of the generate lines, set to `processing`, and the counter is the number of lines that parse |
| `WriteAheadLog.HoldsIsUnique` | services/platform-engine/main.go:47-67 | holding a set of entries determines the memory |
| `EngineRuns.BreakerCounts` | services/platform-engine/main.go:104-123 | in every interleaving the counter is the number of admitted, unfinished requests and never above the limit |
| `EngineRuns.CounterTrailsLog` | services/platform-engine/main.go:174-181 | the transaction counter plus the requests between append and count is the number of appends |
| `EngineRuns.LogIsAtMostMaxAhead` | services/platform-engine/main.go:104-123 | the log is never more than the breaker's limit ahead of the counter, and the gap closes when no request is in progress |
| `EngineRuns.ScriptIsApply` | services/platform-engine/main.go:163-226 | a handler run without interference does to log and memory what replay does for its entry |
| `Recovery.RunInvariant` | services/platform-engine/main.go:43-100 | in every run with any number of crashes and whatever the ids, memory holds nothing but what was submitted, and all its keys; and, unless two submitted entries clash, all its entries, except for what handlers are still about to store |
| `Recovery.VisibleIsSubmitted` | services/platform-engine/main.go:174-177 | in every run, whatever is visible in a table, or set as a key, went through the log's append with the same payload, at every step; after a crash it is in the log |
| `Recovery.QuiescentIsReplay` | services/platform-engine/main.go:43-100 | with no request in progress and no clash among what was submitted, memory is the replay of everything submitted, and the replay of the log itself if and only if no write failed since the last start |
| `Recovery.CrashRecoversExactlyTheLog` | services/platform-engine/main.go:43-76 | after a crash at any point of any run the log is untouched, the counter is its length, each place of each table holds what the last line for it says, the keys are exactly the log's, and an acknowledged request whose write succeeded is in the log |
| `Recovery.AcknowledgedIffWritten` | services/platform-engine/main.go:86-98 | an acknowledged request whose place no other request wrote to is recovered with its payload if and only if its write succeeded |
| `Recovery.AcknowledgedCanBeLost` | services/platform-engine/main.go:95-98 | a run in which a request is answered and is not there after a crash |
| `Recovery.AcknowledgedSurvives` | services/platform-engine/main.go:163-226 | if no write ever fails, an acknowledged request survives a crash at any point if and only if the last line for its place agrees with it; all do if no two lines clash |
| `Recovery.LogHasSource` | services/platform-engine/main.go:78-100 | every line of the log was written by a successful append of a request being served, in that position, and lines never go away |
| `Schedules.ReplayIsExact` | services/platform-engine/main.go:163-226 | for given entries, every schedule that serves exactly them without a failed write ends with memory equal to the replay of its log if and only if no two of them share kind and id with different payloads, or the breaker admits one request at a time |
| `Schedules.ClashBreaksReplay` | services/platform-engine/main.go:174-181 | for any clashing pair of any kind among any entries, a schedule without crash or failed write that ends otherwise |
| `Schedules.SerialRun` | services/platform-engine/main.go:104-123 | with at most one request at a time memory follows the log step by step, clash or not |
| `PlatformEngineState.PlatformEngine.InitWAL` | services/platform-engine/main.go:43-76 | the recovery loop over any file leaves memory equal to the replay of its readable entries; in the fields: the last line of each kind for each id, the keys of the generate lines, and the number of lines that parse |
| `PlatformEngineState.PlatformEngine.CrashAndRestart` | services/platform-engine/main.go:43-76 | whatever the handlers were doing, the new process holds nothing that is not in the log, and an acknowledged request whose place no other request wrote to exactly if its write succeeded; its fields are those the file says line by line |
| `PlatformEngineState.PlatformEngine.Enter` | services/platform-engine/main.go:106-113 | admission exactly if fewer than 500 requests are in progress |
| `PlatformEngineState.PlatformEngine.Leave` | services/platform-engine/main.go:115-119 | the counter is positive whenever an admitted request leaves, and goes down by one |
| `PlatformEngineState.PlatformEngine.EnterOther` | services/platform-engine/main.go:127-128 | the same admission for logins and registrations |
| `PlatformEngineState.PlatformEngine.LeaveOther` | services/platform-engine/main.go:115-119 | and the same release |
| `PlatformEngineState.PlatformEngine.AppendWAL` | services/platform-engine/main.go:78-100 | a successful write adds the line at the end, a failed one leaves the file alone and is not reported |
| `PlatformEngineState.PlatformEngine.StoreEntry` | services/platform-engine/main.go:176-219 | a generate entry goes into the study plans, a zoom entry into the sessions, a search entry into the searches, under its id, and nothing else changes |
| `PlatformEngineState.PlatformEngine.StoreKey` | services/platform-engine/main.go:177 | only a study plan gets a key: `plan:` and its id, set to `processing` |
| `PlatformEngineState.PlatformEngine.CountOne` | services/platform-engine/main.go:179-181 | the counter goes up by one |
| `PlatformEngineState.PlatformEngine.Answer` | services/platform-engine/main.go:183-225 | from here on the request counts as acknowledged |
| `PlatformEngineState.PlatformEngine.Handle` | services/platform-engine/main.go:163-226 | a whole request of any of the three kinds: if admitted, which is below 500, memory changes as replay of its entry would, field by field, whether or not its line was written |
| `PlatformEngineState.PlatformEngine.HandleStateHash` | services/platform-engine/main.go:228-239 | the reported count is never more than 500 behind the log, and exact with no request in progress and no failed write |
| `Citations.ClassesByCode` | internal/domain/ai/verification.go:12 | the three character classes of the pattern, by character code |
| `Citations.MatchIsCitation` | internal/domain/ai/verification.go:12 | the scanner matches s[i..j] if and only if that text is in the language of the pattern |
| `Citations.MatchesDoNotOverlap` | internal/domain/ai/verification.go:22 | no citation starts strictly inside a match |
| `Citations.FindAllIsComplete` | internal/domain/ai/verification.go:22 | the left-to-right, non-overlapping scan misses no citation occurring in the text |
| `Citations.FindAllIsSound` | internal/domain/ai/verification.go:22 | everything the scan returns is a citation occurring in the text |
| `Citations.FindAllInOrder` | internal/domain/ai/verification.go:22 | matches are returned in the order in which they occur in the text |
| `Citations.VerdictMeans` | internal/domain/ai/verification.go:21-52 | the three verdicts in terms of the citations of the text and the context, both directions; the reported citation is the first one in the text that is not in the context |
| `Grounding.CompileContext` | internal/domain/ai/rag.go:188-225 | the loop assembles the header and then, in order, each verse's citation with that verse's own text, at explicit offsets and nothing else; each failure has its own fault |
| `Grounding.ContextPrints` | internal/domain/ai/rag.go:213-222 | for all results: the literal header, then line i, at the offset that the lengths of what precedes it give, is the citation and the text of result i |
| `Grounding.ContextReadsBack` | internal/domain/ai/rag.go:213-222 | with books and texts free of line breaks, splitting the context at line breaks gives the lines of the results back, in order |
| `Grounding.ContextContains` | internal/domain/ai/rag.go:213-222 | with plain books and texts a bracketed text is contained in the context exactly if it is the printed citation of a retrieved verse |
| `Grounding.GroundingIsExact` | internal/domain/ai/verification.go:21-52 | verification means grounding for every response if and only if nothing but printed citations can be read as a citation in the context |
| `Grounding.StrayCitationIsVerified` | internal/domain/ai/verification.go:36-49 | otherwise there is a response that is verified and not grounded |
| `Grounding.QuotedCitationIsStray` | internal/domain/ai/verification.go:36-49 | one retrieved verse whose text is the citation of another is such a case |
| `Grounding.ActsQuotingJohn` | internal/domain/ai/rag.go:219-220 | the same for a concrete pair of verses |
| `Grounding.VerifiedIffGrounded` | internal/domain/ai/verification.go:21-52 | with plain books and texts: verified if and only if there is a citation and each one is exactly that of a retrieved verse |
| `Grounding.CiteIsCitation` | internal/domain/ai/rag.go:219 | a printed citation is in the pattern's language if and only if the book is letters and white space and the numbers are not negative |
| `Grounding.CiteInjective` | internal/domain/ai/rag.go:219 | distinct verses have distinct recognisable citations |
| `Grounding.CitedVerseWasRetrieved` | internal/domain/ai/verification.go:21-52 | where nothing but printed citations can be read in the context, a verified response that prints the citation of a verse was given that very verse |
| `Grounding.NumberedBookIsNotACitation` | internal/domain/ai/verification.go:12 | a response citing only a retrieved verse of 1 John is turned down as citing nothing |
| `Base64.SextetsRoundTrip` | internal/domain/auth/hash.go:49-50 | regrouping bytes into six bits and back is the identity, whatever the length modulo three |
| `Base64.CharsRoundTrip` | internal/domain/auth/hash.go:49-50 | the alphabet is decoded back |
| `Base64.RoundTrip` | internal/domain/auth/hash.go:49-85 | decoding undoes encoding for every byte string (sections 3.2 and 4 of RFC 4648) |
| `Base64.DecodeReads` | internal/domain/auth/hash.go:79-86 | decoding succeeds with given bytes if and only if, line breaks aside, the text is letters of the standard's alphabet that spell those bytes as one big-endian number up to unused bits; one letter in excess of groups of four is corrupt |
| `Base64.EncodingReadsAs` | internal/domain/auth/hash.go:49-50 | the printed text is only letters of that alphabet, has no padding, spells the bytes and has zeros for the unused bits |
| `Decimal.ShowValue` | internal/domain/auth/hash.go:52-53 | reading a printed number gives the number back |
| `Decimal.ShowInjective` | internal/domain/ai/rag.go:219 | distinct numbers print differently |
| `Decimal.ShowIntReads` | internal/domain/auth/hash.go:52-53 | %d prints an optional minus sign and the digits of the absolute value without leading zeros |
| `Decimal.ValueConcat` | internal/domain/auth/hash.go:52-53 | digits are read by place, the first the most significant |
| `PasswordHash.SixFields` | internal/domain/auth/hash.go:60-63 | splitting the printed string on `$` yields exactly the six printed fields |
| `PasswordHash.VersionRoundTrip` | internal/domain/auth/hash.go:65-69 | the printed version is scanned back |
| `PasswordHash.ParamsRoundTrip` | internal/domain/auth/hash.go:71-77 | every printed cost triple is scanned back, at the full width of its fields |
| `PasswordHash.HashRoundTrip` | internal/domain/auth/hash.go:40-97 | a printed hash is never rejected, and accepts a password exactly if it derives the same key; in particular its own |
| `PasswordHash.PrintedForm` | internal/domain/auth/hash.go:48-53 | the printed string, literally: algorithm, version 19, memory, time and threads in that order, salt, derived key |
| `PasswordHash.VerifyDecides` | internal/domain/auth/hash.go:59-97 | every stored string: not six fields or not `argon2id`, else no version 19, else no three costs within their widths, else a salt and then a key that is not base64 are rejected in this order, each with its own error; all others are compared with the key derived from the stored salt and costs |
| `RefreshTokens.RedeemableRow` | internal/ports/auth_http.go:325-341 | what the SELECT finds: a live, unexpired row of that token and organization if there is one |
| `RefreshTokens.IssueStep` | internal/ports/auth_http.go:125-163 | a login or registration is granted if and only if its transaction succeeds and its hash is new, and adds one live row good for thirty days at the head of a new chain |
| `RefreshTokens.RefreshStep` | internal/ports/auth_http.go:305-368 | a rotation is granted if and only if its transaction succeeds, it names a redeemable row and its hash is new; it revokes that row and adds the successor |
| `RefreshTokens.LogoutStep` | internal/ports/auth_http.go:370-394 | a logout stamps every row of the token in the organization, and no other |
| `RefreshTokens.RunGood` | internal/ports/auth_http.go:125-163 | in every run token hashes stay unique, rotation is acyclic within one user and organization, no token has two children, every token with a child is revoked, a chain has at most one live token |
| `RefreshTokens.OneLiveTokenPerSession` | internal/ports/auth_http.go:343-360 | two live tokens of one chain are the same token, and a chain has one user and organization |
| `RefreshTokens.ChainOwner` | internal/ports/auth_http.go:356 | a chain starts at a login or registration of the same user and organization |
| `RefreshTokens.RunGrows` | internal/ports/auth_http.go:343-392 | rows are never removed or altered and revocation is never undone |
| `RefreshTokens.RedeemedOnce` | internal/ports/auth_http.go:325-360 | a refresh token that was redeemed is refused ever after |
| `RefreshTokens.LoggedOutIsRefused` | internal/ports/auth_http.go:370-394 | a token that existed in the organization it was logged out of is refused ever after |
| `RefreshTokens.RowHasSource` | internal/ports/auth_http.go:125-144 | every row was minted by a granted login, registration or rotation, which fixed its owner, hash and expiry |
| `RefreshTokens.RedeemedWasMinted` | internal/ports/auth_http.go:325-360 | a rotation is granted only for a token minted less than thirty days before, and to the same user and organization |
| `RefreshTokens.LiveIfUnended` | internal/ports/auth_http.go:125-392 | a minted row is live exactly if no granted rotation and no committed logout of it has come since |
| `RefreshTokens.RedeemableIffGood` | internal/ports/auth_http.go:325-341 | in every run the SELECT finds a row if and only if some granted transaction minted that hash in that organization less than thirty days ago and nothing ended it since |
| `RefreshTokens.RotationIsGrantedIff` | internal/ports/auth_http.go:305-368 | a rotation is granted exactly for such a token, unless some granted transaction minted the new hash before or the transaction fails |
| `RefreshTokens.UsedIffMinted` | internal/ports/auth_http.go:125-144 | in every run a hash is in the table if and only if some granted transaction minted it |
| `RefreshTokens.IssueIsGrantedIff` | internal/ports/auth_http.go:146-163 | in every run a login or registration is granted if and only if its transaction succeeds and no granted transaction before it minted the same hash |
| `RefreshTokens.NewRowIsGood` | internal/ports/auth_http.go:125-163 | the token just minted can be redeemed in its organization at every time before its expiry and at no other |
| `RefreshTokens.LiveTokensAreConserved` | internal/ports/auth_http.go:125-392 | live tokens are the granted logins and registrations minus the logouts that hit a live token; rotation neither creates nor destroys one |
| `RefreshTokens.AuthHandler.StoreRefreshToken` | internal/ports/auth_http.go:125-144 | the insertion of a row that expires in thirty days, refused exactly on a repeated hash |
| `RefreshTokens.AuthHandler.IssueRefreshToken` | internal/ports/auth_http.go:146-163 | granted if and only if the commit succeeds and the hash is new; then one more live row, redeemable in that organization exactly until thirty days later; else no change |
| `RefreshTokens.AuthHandler.RefreshHandler` | internal/ports/auth_http.go:305-368 | granted if and only if the commit succeeds, a redeemable row is named and the hash is new, with the exact new table; refused once the token has been redeemed; the number of live tokens stays; a refusal changes nothing |
| `RefreshTokens.AuthHandler.LogoutHandler` | internal/ports/auth_http.go:370-394 | after a commit exactly the rows of the token in that organization are stamped, none of them is live, and every other row is as it was |
| `Totp.Offset` | internal/ports/auth_http.go:112 | the offset is the low half of the last of the twenty bytes, so the four bytes of the truncation lie within the MAC |
| `Totp.JoinIsBigEndian` | internal/ports/auth_http.go:113-116 | the masked shift-and-or is the big-endian number of 31 bits of section 5.3 of RFC 4226, by its bytes |
| `Totp.Truncate` | internal/ports/auth_http.go:112-117 | the code has six digits and their value is the standard's number, written out on the bytes of the MAC, modulo a million |
| `Totp.StandardExample` | internal/ports/auth_http.go:112-117 | for the MAC of the example in section 5.4 of RFC 4226 the code is 872921 and no other |
| `Totp.MessageIs` | internal/ports/auth_http.go:106-108 | what is hashed is eight bytes, the first the most significant, of the number of steps of thirty seconds plus the skew, modulo two to the sixty-four |
| `Totp.VerifyTOTP` | internal/ports/auth_http.go:97-123 | accepted if and only if there is a usable secret and the code is, by the bytes of its MAC, that of the current, the previous or the next step of thirty seconds |
| `Totp.AcceptedNearby` | internal/ports/auth_http.go:105-121 | a code of section 4.2 of RFC 6238 made at t is accepted at every t' at most 30 seconds away |
| `Totp.AcceptedOnlyNearby` | internal/ports/auth_http.go:105-121 | from the second step on, accepted codes are exactly those of the current, previous and next step |
| `HashingPool.RunInvariant` | services/platform-engine/auth_hashing.go:35-78 | in every interleaving no task is lost, duplicated or in two places, and results belong to their own tasks |
| `HashingPool.UnfinishedAreBounded` | services/platform-engine/auth_hashing.go:35-45 | accepted unfinished tasks never exceed queue size plus workers; accepted = queued + busy + hashed |
| `HashingPool.SendNeverBlocks` | services/platform-engine/auth_hashing.go:47-54 | a worker never blocks on a result channel, not even for a caller that has given up |
| `HashingPool.ReturnIsOwnHash` | services/platform-engine/auth_hashing.go:57-78 | a return without error is the hash of the caller's own password and salt |
| `HashingPool.FirstInFirstOut` | services/platform-engine/auth_hashing.go:35-48 | in every interleaving workers receive the accepted tasks in order of acceptance |
| `HashingPool.RefusedExactlyWhenFull` | services/platform-engine/auth_hashing.go:65-77 | in every reachable state a call gets the queue-full error if and only if the accepted tasks not yet hashed fill the queue on top of the busy workers or, without a queue, occupy every worker |
| `HashingPool.WorkerStepsLowerWork` | services/platform-engine/auth_hashing.go:47-54 | twice the queue plus the busy workers goes down with every worker step |
| `HashingPool.WorkGetsDone` | services/platform-engine/auth_hashing.go:47-54 | while there is work some worker can step; when there is none every accepted task has been hashed; none is hashed twice |
| `HashingPool.Drain` | services/platform-engine/auth_hashing.go:47-54 | from every reachable state the workers alone can hash every accepted task, in no more steps than there is work |
| `HashingPool.WorkerPool.Submit` | services/platform-engine/auth_hashing.go:57-77 | refused exactly if the channel cannot take the task; accepted tasks stay within queue and workers |
| `HashingPool.WorkerPool.Take` | services/platform-engine/auth_hashing.go:48 | a worker receives the oldest task |
| `HashingPool.WorkerPool.Finish` | services/platform-engine/auth_hashing.go:51-52 | the send goes through at once, into the channel of the task that was hashed |
| `HashingPool.WorkerPool.Receive` | services/platform-engine/auth_hashing.go:68-70 | the caller gets the hash of the password and salt it submitted |
| `HashingPool.WorkerPool.Timeout` | services/platform-engine/auth_hashing.go:71-72 | the caller gives up and its task goes on |
| `ZoomBreaker.OpenRefinesHistory` | internal/adapters/integration_zoom/zoom_client.go:37-55 | the circuit is open at t if and only if at least three failures trail the history and t is less than 60,000,000,000 ns after the last one |
| `ZoomBreaker.TrailingIsLongest` | internal/adapters/integration_zoom/zoom_client.go:43-55 | the failures counted are the longest trailing stretch of failures |
| `ZoomBreaker.AttemptsAreSpaced` | internal/adapters/integration_zoom/zoom_client.go:102-110 | in an outage, from the third attempt on sequential attempts are a minute apart |
| `ZoomBreaker.OutageAttempts` | internal/adapters/integration_zoom/zoom_client.go:102-110 | in a total outage sequential callers make at most 3 + T/60s attempts in any span of length T, after any history |
| `ZoomBreaker.ZoomClient.CircuitOpen` | internal/adapters/integration_zoom/zoom_client.go:37-41 | the reply in terms of the recorded history |
| `ZoomBreaker.ZoomClient.RecordResult` | internal/adapters/integration_zoom/zoom_client.go:43-55 | the two fields stay what the history makes of them |
| `ZoomBreaker.ZoomClient.CreateMeeting` | internal/adapters/integration_zoom/zoom_client.go:102-185 | for each ending of a call what is recorded (nothing for a mock token or a request that cannot be built, success for success, a failure for no token, a failed send, a bad status and a bad body) and what reaches the caller; nothing is attempted or recorded while the circuit is open |
| `ZoomBreaker.ZoomClient.TerminateMeeting` | internal/adapters/integration_zoom/zoom_client.go:187-230 | the same for ending a meeting: an open circuit looks like success, every recorded failure reaches the caller |
| `ZoomBreaker.ZoomClient.GetMeetingStatus` | internal/adapters/integration_zoom/zoom_client.go:232-276 | the same for the status: offline while the circuit is open, an error for every failure |

## Left out

- HTTP decoding and encoding, status codes, routing, logging, environment variables, graceful shutdown, and most error categories and messages.
- PostgreSQL, Redis, gRPC, OpenAI, the Zoom API and the JWT library: only their success, failure or returned values appear, as parameters.
- Cryptographic primitives (Argon2, HMAC-SHA1, SHA-256, random numbers): parameters with length facts only. Argon2's panic for zero time, threads or key length is not modelled.
- The gap between unlocking a tracker and deleting it in the sweep (rate_limiter.go:46-47), and between `LoadOrStore` and the lock in the operations: each is one atomic step here.
- Clock readings that go backwards between requests, and the saturation of `time.Duration` beyond 292 years.
- Goroutine memory effects and aliasing: `ForkJoin`, `EngineRuns` and `HashingPool` interleave atomic steps on values, and the methods of the classes beside them are those steps, one call at a time.
- Torn log lines and lines too long for the scanner: a log line is written whole or not at all. Recovery reads any file, but the runs start from an empty one and contain only lines the engine wrote.
- Payloads are maps from strings to strings standing for JSON values; the entry's timestamp is left out because replay ignores it.
- Database isolation: token transactions run one after the other. The join with the users table, the tenant context and row-level security appear only as a transaction that fails.
- `Strings.TrimSpaceSplits`: white space is an arbitrary predicate on bytes, so Unicode spaces are not told apart.
- `PasswordHash`: a scanned number skips ASCII blanks only.
- The similarity score of a search result and the call to the vector service.
- The contents of meetings and tokens: an attempt to reach Zoom is known only by how it ends.
- `ZoomBreaker.OutageAttempts`: is about callers one after another; calls in flight at the same time when the circuit opens still record their results.
- `HashingPool.WorkerPool.Submit`: with a queue size of zero a free worker counts as already waiting at the channel.
- Base32 decoding of the TOTP secret, enrolment, role checks, room and journal handlers, `SanitizeInput`, `executeReduce`, and the web and mobile code: one-branch facts or thin wrappers.
