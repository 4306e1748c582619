# A verified model of the repository crawler

The program lists the repositories of a GitHub organisation, fetches each through a bounded pool of workers, and
stores what it finds. The project models its hard parts and proves what they are for, over all inputs and all
interleavings.

* `Scheduler.dfy`: `App.Run` as a labelled step relation. One step is one atomic action of a goroutine: the dispatcher
  (page loop, archived filter, debug reservation, slot acquisition, spawn, join), the workers (fetch, import, slot
  release, leaving the errgroup), the shutdown signal and the cancellation of processing. Results of page listings,
  fetches and imports are labels, so every theorem about `Run` covers every interleaving and every answer. The
  specification is sequential: flatten the pages, drop archived repositories, take the debug limit (`Plan`).
  `RunHistory.dfy`: what the steps of a run, read off its labels alone, make of each worker and counter.
* `RateLimiter.dfy`: the class `ResourceRateLimiter`. Its methods are proved against a functional specification of one
  cooldown request, and the incremental counters are proved equal to the geometry of the cooldown intervals.
  `Herd.dfy`: the crawl of `Scheduler.dfy` and the limiter composed into one state machine, with the requests of the
  dispatcher and the workers, and how many of them can slip into a cooldown.
* `Retry.dfy`: the loops of `doRequestWithHeaders` and `FetchRepoGraphQL` over a script of everything the network, the
  timers and the contexts may do, and the int64 durations they wait. `RetryOutcomes.dfy`: when a reply is a rate limit, and
  how a request and a fetch end, read off the header fields and the turns.
* `DockerInstructions.dfy`, `DockerReferences.dfy`, `Dockerfile.dfy`: line joining, image references and ARG
  substitution, FROM instructions and stages.
* `RunLines.dfy`: the shell lines of a workflow's `run:` keys. `Shell.dfy`: shell segments and command detectors;
  `ShellCompounds.dfy`: lines composed of commands and operators. `ShellDetectors.dfy`: what each detector finds.
* `Paths.dfy`, `IgnoredPaths.dfy`, `Lockfiles.dfy`, `Ecosystems.dfy`, `EcosystemTable.dfy`: ignored directories, manifest
  and lockfile pairing, and the program's ecosystem table. `Strings.dfy`: the string functions they all use, on ASCII
  text. `Options.dfy`: the option type.

Code that works by changing things step by step is a method with loops (or, for the limiter, a class), proved equal to a
specification function; the lemmas are about that function. Maps are visited in arbitrary order, and such results
are stated as multisets.

Where the code does not do what its comments or names suggest, the model follows the code, and the exact condition is
proved:

* The select that acquires a slot may take one after shutdown was requested. In every reachable state after the signal,
  one more repository can be dispatched if and only if the dispatcher has passed its checks for one
  (`ShutdownLastDispatch`), and never more than one (`ShutdownStopsDispatch`).
* Run may return without joining its workers: it leaves a worker unfinished if and only if the returning step is a page
  or slot failure that shutdown does not excuse, taken while a worker is unfinished (`ReturnLeavesWorkers`;
  `MayLeaveWorkersExactly` says from which states that can happen).
* `BlockUntil` reads the clock inside the lock, after its caller computed the deadline. A deadline that has passed by
  then, and is still the latest, takes its lateness off the total wait; the total is right exactly when there is no
  such call (`TotalWaitExact`, `StaleCallShrinksTotal`).
* The fallback backoff doubles without a cap and leaves int64 nanoseconds after attempt 34 (`BackoffExact`). Later it is
  often negative, and from attempt 56 on zero; `BackoffPositive` lists the attempts for which `BlockFor` heeds it.
* A block scalar is recognised only by some headers: one like `|+`, `>2` or `| # note` is taken for a command and the
  lines under it are lost (`UnknownHeaderLosesCommand`). And any line deeper than its `run:` key belongs to a block
  scalar, a sibling key of a `- run:` step included (`SiblingIsSwallowed`). `ExtractionInvertsPrinting`: extraction is
  right if and only if neither happens.
* Operators are read greedily, so that `&` before `&&`, and bars that meet, change what is read. `CompoundCommands` says
  exactly when the commands of a compound are those of its parts, and `AmpersandHidesInstall` is a detector that fails.
* `containsCmd` looks at the first occurrence only (`ContainsCmdExactly`, `GluedCommandHides`, `LaterCommandIsMissed`).
* A comment or empty line is passed over if and only if no instruction is pending; after a continuation a comment is
  content, and an empty line ends the instruction (`SkippedExactly`, `CommentBecomesContent`).

## Model

| member | source | states |
|---|---|---|
| Scheduler.DispatchFollowsPlan | internal/runner/app.go:60-151 | In every state that any interleaving reaches, the dispatched repositories are a prefix of the sequential plan |
| Scheduler.CleanRunIsComplete | internal/runner/app.go:60-180 | A run that returns nil without graceful shutdown dispatched exactly the plan, and each planned repository was stored or counted as skipped, once and not both; both counters agree |
| Scheduler.Conservation | internal/runner/app.go:92-143 | In every reachable state the dispatched repositories are the disjoint sum of those in flight, stored, failed, skipped and interrupted; semaphore occupancy, skip counter and debug reservations agree with it and keep their bounds |
| RunHistory.StepsTellPhases | internal/runner/app.go:114-143 | For every run, read off its steps: a worker is interrupted if and only if its fetch failed by an interrupted wait after the shutdown signal; any other failed fetch makes it skipped; it is fetched, imported, failed, released and finished exactly by the steps that say so |
| RunHistory.StepsTellCounters | internal/runner/app.go:120-131 | skippedForGraphqlFailure is the number of skipping steps of the run, repoIndex the number of successful fetches |
| RunHistory.FirstErrorIsKept | internal/runner/app.go:133-151 | The error Run returns from the join is that of the first worker to leave with a failed import; there is none if and only if no worker left so |
| RunHistory.AnyAnswer | internal/runner/app.go:67-139 | No answer of the environment is excluded: pages, fetches and imports may succeed or fail in each way at any time, and signals may come |
| Scheduler.NilMeansJoined | internal/runner/app.go:114-151 | A nil result, with or without shutdown, means every worker has finished, no slot is taken, nothing failed, and repoIndex counts exactly what was stored |
| Scheduler.FailedImportIsReported | internal/runner/app.go:133-151 | One failed import forces a result other than nil in every interleaving, and a reported import error is that of a failed worker |
| Scheduler.ResultsHaveCauses | internal/runner/app.go:62-151 | Each result of Run has its step: nil and import errors the join, with the group error kept; a page error an unexcused page failure; a slot error the shutdown or group context whose error it is. A finished failed import has cancelled the group |
| Scheduler.ReturnLeavesWorkers | internal/runner/app.go:67-116 | Run returns with a worker unfinished if and only if the returning step is an unexcused page or slot failure while a worker is unfinished; every other return is the join |
| Scheduler.MayLeaveWorkersExactly | internal/runner/app.go:67-112 | State by state, the next step can return and leave a worker unfinished if and only if there is one and the dispatcher is requesting a page, or waits for a slot with shutdown past a deadline or the group done and not excused by shutdown |
| Scheduler.CalmRunReturnsNil | internal/runner/app.go:62-151 | If no import fails, processing is not cancelled and pages fail only because shutdown cancelled them, Run returns nil wherever the shutdown signal falls |
| Scheduler.ShutdownStopsDispatch | internal/runner/app.go:62-112 | After the shutdown signal at most one more repository is dispatched, and none unless the dispatcher had passed its shutdown and debug checks for it |
| Scheduler.ShutdownLastDispatch | internal/runner/app.go:79-112 | In every reachable state after the shutdown signal, one more dispatch is possible if and only if the dispatcher waits for a slot, holds one, or stands before a debug check that lets it through |
| Scheduler.ShutdownIsPrompt | internal/runner/app.go:62-112 | After the shutdown signal the dispatcher takes at most six more steps of its own, whatever is left to list |
| Scheduler.SelectMayTakeSlot | internal/runner/app.go:192-201 | An instance: a run in which the select takes a free slot although shutdown was requested |
| Scheduler.EarlyReturnLeavesWorkers | internal/runner/app.go:67-74 | An instance: a run that returns a page error while a repository is still being fetched |
| Scheduler.DeadlockFree | internal/runner/app.go:60-151 | With at least one slot (as internal/config/config.go:47-54 ensures) every reachable state before the return has an enabled step of the program itself |
| Scheduler.Terminates | internal/runner/app.go:60-151 | Every run takes at most eight steps per listed repository, four per page and five more |
| RateLimiter.ResourceRateLimiter.constructor | internal/fetcher/ratelimit.go:48-55 | A new limiter tracks the two GitHub resources, both fresh |
| RateLimiter.ResourceRateLimiter.State | internal/fetcher/ratelimit.go:152-159 | Looking up an unknown resource adds it fresh and changes no other |
| RateLimiter.ResourceRateLimiter.BlockUntil | internal/fetcher/ratelimit.go:87-122 | The new states are one application of the cooldown specification, other resources unchanged; the result reports start, extension, deadline and the non-negative remaining cooldown |
| RateLimiter.ResourceRateLimiter.BlockFor | internal/fetcher/ratelimit.go:78-83 | A positive wait is a deadline counted from the clock read outside the lock, and the resource is blocked at least so long; any other wait changes nothing |
| RateLimiter.ResourceRateLimiter.Wait | internal/fetcher/ratelimit.go:58-74 | With other goroutines' calls during each sleep as a script, the loop's result and final states are those of the specified run |
| RateLimiter.ResourceRateLimiter.GetStats | internal/fetcher/ratelimit.go:125-139 | The snapshot has exactly the tracked resources with their counters |
| RateLimiter.ResourceRateLimiter.Reset | internal/fetcher/ratelimit.go:142-150 | Reset makes the limiter new |
| RateLimiter.Accounting | internal/fetcher/ratelimit.go:94-115 | For every sequence of calls in clock order: total wait is the measure of the union of the cooldowns less what stale calls take off; hits is the number of components of the union of the open intervals; hits plus extensions is the number of calls that moved the deadline |
| RateLimiter.TotalWaitExact | internal/fetcher/ratelimit.go:101-107 | Total wait is the measure of the union if and only if no call's deadline had passed, while being the latest, when it took the lock |
| RateLimiter.StaleCallShrinksTotal | internal/fetcher/ratelimit.go:101-107 | A concrete call after which the total wait is smaller |
| RateLimiter.LatestDeadline | internal/fetcher/ratelimit.go:101-106 | The state's deadline is the maximum of all deadlines asked for |
| RateLimiter.CoveredMeaning | internal/fetcher/ratelimit.go:101-107 | The measured set is the union of the half-open cooldown intervals |
| RateLimiter.LimiterState | internal/fetcher/ratelimit.go:87-122 | After any interleaved calls each resource has the state that the calls on it alone make |
| RateLimiter.OnlyClocked | internal/fetcher/ratelimit.go:92-96 | The calls on one resource are still in clock order, so the accounting applies to each resource of a shared limiter |
| RateLimiter.WaitContract | internal/fetcher/ratelimit.go:58-74 | Wait returns nil only at an instant not before the deadline, sleeps at most once plus once per advance of the deadline, and changes nothing but the wait counter of its resource |
| RateLimiter.WaitEnds | internal/fetcher/ratelimit.go:58-74 | Wait is ready at once, or its timer's lateness after the last deadline it saw; it fails only when a sleep is interrupted; the calls it met are those of the sleeps it took |
| RateLimiter.WaitKeepsOthers | internal/fetcher/ratelimit.go:58-74 | Wait leaves every other resource as other goroutines' calls left it |
| RateLimiter.DeadlineGrows | internal/fetcher/ratelimit.go:101-106 | Deadlines only move forward, and stay where they are when no call is counted as an advance |
| Herd.HerdBound | internal/fetcher/github.go:292-327 | In the composed crawl, from any reachable state on for as long as a resource stays in cooldown, the requests sent on it are at most the goroutines that Wait had let through before, and at most Parallelism + 1 in total, whatever workers end and are replaced |
| Herd.OneRequestEach | internal/fetcher/github.go:292-327 | The dispatcher and each worker send at most one, and none unless it had been let through before; a worker that starts during the cooldown sends none |
| Herd.HerdBoundIsTight | internal/fetcher/github.go:296-312 | In every state all goroutines that have been let through can still send |
| Herd.GoroutinesMayMove | internal/fetcher/github.go:296-312 | Only the limiter holds a goroutine back: one that fetches may be let through outside a cooldown, one let through may send or give up |
| Herd.HerdBoundIsReached | internal/runner/app.go:57-115 | With any number of slots some crawl reaches a cooldown into which exactly Parallelism + 1 requests are sent |
| Herd.CooldownLasts | internal/fetcher/ratelimit.go:101-106 | A resource stays in cooldown at least up to the deadline it has, so the bound holds up to that deadline |
| Herd.HistoryMonotone | internal/fetcher/ratelimit.go:101-106 | Time and deadlines only move forward in every history |
| Retry.DoRequest | internal/fetcher/github.go:291-368 | The request loop computes the specified run: outcome, calls counted, time slept, cooldowns handed to the limiter |
| Retry.FetchRepoGraphQL | internal/fetcher/github.go:161-210 | The outer loop around it computes the specified fetch |
| Retry.RequestBounds | internal/fetcher/github.go:291-368 | For every response trace and starting attempt, calls and backoff are bounded by the number of rate-limited replies in the trace |
| Retry.CooldownsCountReplies | internal/fetcher/github.go:325-336 | The waits handed to the limiter are as many as the rate-limited replies in the trace, and each is positive |
| Retry.RetryBound | internal/fetcher/github.go:277-281 | A trace with R rate-limited replies: at most MaxAttempts*(R+1) calls and (R+1)*(2^(MaxAttempts-1)-1) seconds of backoff |
| Retry.RateLimitResets | internal/fetcher/github.go:325-336 | A request that meets a rate limit goes on exactly as a new request would, whatever went before |
| Retry.GivesUpAfterStreak | internal/fetcher/github.go:313-355 | Giving up on a transient error means the last MaxAttempts passes were all transient |
| Retry.SurvivesShortStreaks | internal/fetcher/github.go:313-355 | A request still going has had no MaxAttempts transient passes in a row |
| Retry.StreakEnds | internal/fetcher/github.go:313-355 | MaxAttempts transient passes in a row end the request |
| Retry.RequestOutcome | internal/fetcher/github.go:338-366 | A success is the last reply, with status 2xx; "not available" needs allow404; a request without outcome has consumed the whole trace |
| RetryOutcomes.RateLimitedExactly | internal/fetcher/github.go:450-498 | A reply is rate-limited with a given wait if and only if it has an error status and either Retry-After tells to wait so long, or it tells nothing, no quota remains, and the reset and a second more lies so far ahead, within int64 |
| RetryOutcomes.GraphQLWaitExactly | internal/fetcher/github.go:432-447 | After a rate-limited body: what Retry-After tells, else what the reset tells, whether or not quota remains, else the backoff of the attempt |
| RetryOutcomes.RetryAfterExactly | internal/fetcher/github.go:477-498 | Retry-After tells a wait if and only if it is an int64 in decimal whose nanoseconds are positive, or no such number but a date ahead |
| RetryOutcomes.ResetOfDecimal | internal/fetcher/github.go:463-473 | For a reset time in decimal the wait is the time until it and a second |
| RetryOutcomes.ParseIntExactly | internal/fetcher/github.go:464 | The numbers accepted are exactly int64 values in decimal, perhaps with a sign and leading zeros |
| RetryOutcomes.QuotaLeft | internal/fetcher/github.go:459-461 | A reply with quota left and no Retry-After is no rate limit; a 404 then ends an optional request as not available, after one call and without a wait |
| RetryOutcomes.RequestEnds | internal/fetcher/github.go:291-368 | Every request ends by its last turn, whose reply decides the outcome, and all turns before it are rate limits or transient errors with a finished sleep; a request without outcome has only such turns |
| RetryOutcomes.ThreeAttempts | internal/fetcher/github.go:277-281 | The documented schedule: call, one second, call, two seconds, call, give up |
| RetryOutcomes.FetchEnds | internal/fetcher/github.go:161-210 | A fetch gives the entry if and only if its last turn brings a decoded 2xx body with the repository, a GraphQL error if and only if it brings errors that are no rate limit, no repository if and only if it brings none, and else the failure of that turn |
| Retry.FetchBound | internal/fetcher/github.go:161-182 | A trace with R rate-limited replies and G rate-limited bodies: at most MaxAttempts*(R+G+1) calls, and exactly R+G waits handed to BlockFor |
| Retry.FallbackDoubles | internal/fetcher/github.go:161-180 | Without server hints the waits for successive rate-limited bodies are the backoffs of successive attempts |
| Retry.BackoffExact | internal/fetcher/github.go:58-60 | The int64 backoff of attempt n is 2^(n-1) seconds if and only if n <= 34, and is positive there |
| Retry.BackoffPositive | internal/fetcher/github.go:58-60 | The backoff is positive, so that BlockFor heeds it, exactly for attempts 1 to 34, 38, 42, 43, 46, 48, 51, 52 and 54 |
| Retry.BackoffVanishes | internal/fetcher/github.go:58-60 | From attempt 56 on the backoff is 0 |
| Retry.ParseDecimal | internal/fetcher/github.go:482 | Parsing the decimal form of n gives n exactly when it fits int64 |
| Retry.RetryAfterExact | internal/fetcher/github.go:477-488 | Retry-After in delay-seconds is honoured exactly if and only if it is 1 to 9223372036 |
| Retry.CooldownInRange | internal/fetcher/github.go:450-474 | A rate-limited reply has an error status and a positive int64 cooldown |
| DockerInstructions.FlushCurrent | internal/parser/dockerfileparser.go:187-206 | Flushing completes the pending instruction and clears it |
| DockerInstructions.ParseDockerInstructions | internal/parser/dockerfileparser.go:182-230 | The line loop computes the specified instruction list |
| DockerInstructions.LayoutInvariance | internal/parser/dockerfileparser.go:182-230 | Printing any instruction list with line breaks at single spaces, indentation, trailing blanks, capitalised keywords, comments and empty lines, and parsing it, gives the list back |
| DockerInstructions.TextsConcatenate | internal/parser/dockerfileparser.go:182-230 | Joining two texts where nothing is pending concatenates their instruction lists |
| DockerInstructions.InterpretSpelled | internal/parser/dockerfileparser.go:195-205 | A logical line in any capitalisation of its keyword reads as its instruction |
| DockerInstructions.SkippedExactly | internal/parser/dockerfileparser.go:208-226 | A comment or empty line is passed over if and only if nothing is pending; else a comment adds its text, without a final backslash, and ends the instruction unless it is continued, and an empty line ends the instruction |
| DockerInstructions.SkippedIs | internal/parser/dockerfileparser.go:208-212 | The lines passed over are exactly those of white space alone or white space and a number sign |
| DockerInstructions.TrailingIgnored | internal/parser/dockerfileparser.go:214-216 | Blanks, tabs and carriage returns at the end of a line change nothing |
| DockerInstructions.InsertSkipped | internal/parser/dockerfileparser.go:208-212 | A comment or empty line put in where nothing is pending changes no instruction |
| DockerInstructions.CommentBecomesContent | internal/parser/dockerfileparser.go:208-226 | A text whose comment after a continuation becomes part of the instruction |
| DockerReferences.SplitPrinted | internal/parser/dockerfileparser.go:315-340 | Splitting the printed form of any (name, tag, digest), registry port included, recovers the name and the tag, digest, tag@digest or latest |
| DockerReferences.SplitRebuilds | internal/parser/dockerfileparser.go:315-340 | Every reference is the printed form of the image read from it, and its split parts are that image's name and recorded tag |
| DockerReferences.TokensText | internal/parser/dockerfileparser.go:295-300 | The pieces found by the reference pattern make up the value |
| DockerReferences.TokensOfText | internal/parser/dockerfileparser.go:295-300 | Reading the text of any sequence of characters and references finds exactly those references |
| DockerReferences.ReferenceExactly | internal/parser/dockerfileparser.go:295 | A reference starts exactly at a dollar sign with a name behind it, as long as it goes, or with a name in closed braces |
| Strings.QuotesExactly | internal/parser/dockerfileparser.go:342-354 | Exactly one pair of equal quotes around the whole value is stripped |
| DockerReferences.StoredIsExpansion | internal/parser/dockerfileparser.go:72-86 | For every preamble each stored ARG is the full recursive expansion of the name's latest definition, quotes trimmed at each level |
| DockerReferences.PreambleResolves | internal/parser/dockerfileparser.go:281-313 | When every `$` belongs to a reference to an earlier ARG with a default, stored values hold no `$`, nothing is unresolved, and one substitution pass is the full expansion and a fixed point |
| DockerReferences.UnresolvedExactly | internal/parser/dockerfileparser.go:297-313 | Unresolved is reported if and only if a reference names an ARG without a default in the preamble |
| Dockerfile.ParseFromInstruction | internal/parser/dockerfileparser.go:232-279 | The flag loop and its returns compute the specified FROM |
| Dockerfile.ParseDockerfile | internal/parser/dockerfileparser.go:62-180 | The stages are the specified ones; BaseImage and BaseTag are the first stage's or empty; UsesLatestTag iff some stage has tag latest; UsesMultistage iff more than one stage |
| Dockerfile.StageLedger | internal/parser/dockerfileparser.go:87-110 | After any number of instructions: FROM instructions are stages plus alias-derived plus empty ones; the stages are exactly the external ones in order, numbered from 0 |
| Dockerfile.KnownAliases | internal/parser/dockerfileparser.go:87-92 | A name is known as an alias exactly when an earlier FROM declares it, case aside |
| Dockerfile.AliasExactly | internal/parser/dockerfileparser.go:251-254 | The alias is the second field behind the reference if the first one is AS in any capitalisation, and none otherwise |
| Dockerfile.StagesAreNotAliases | internal/parser/dockerfileparser.go:246-261 | A FROM is alias-derived if and only if its resolved reference names, case aside, an alias of an earlier FROM |
| Dockerfile.ParseArgPrinted | internal/parser/dockerfileparser.go:281-293 | Parsing a printed ARG recovers its name and the default up to the first white space, so all of it if and only if it holds none |
| Dockerfile.ParseArgBare | internal/parser/dockerfileparser.go:281-293 | An ARG without an equals sign in its first word has no default; an empty one has no name |
| Dockerfile.FromPrinted | internal/parser/dockerfileparser.go:232-279 | Parsing a printed FROM, with any flags and any capitalisation of AS, recovers its alias and, unless the reference names an alias, the image's name and recorded tag |
| Dockerfile.PreambleScope | internal/parser/dockerfileparser.go:72-89 | At every point of every Dockerfile the ARG defaults in force are those defined before the first FROM |
| Dockerfile.PreambleStage | internal/parser/dockerfileparser.go:62-110 | Every FROM of every Dockerfile that has a reference: derived from an alias if its full recursive expansion names an earlier one; else, if it names an ARG without a default, a stage with that expansion as image and no tag; else the stage of the expansion's image and tag |
| Dockerfile.ClosedStage | internal/parser/dockerfileparser.go:281-313 | With a closed preamble and reference the expansion holds no dollar sign and nothing is unknown |
| Dockerfile.FromWithoutReference | internal/parser/dockerfileparser.go:232-244 | A FROM of flags alone is empty and declares no alias |
| RunLines.ExtractRunLines | internal/parser/ciparser.go:37-87 | The line loop computes the specified extraction |
| RunLines.ExtractionInvertsPrinting | internal/parser/ciparser.go:37-87 | Printing inline, quoted and block-scalar run steps, with any block headers and with other lines between them, and extracting yields exactly the commands in order, if and only if no line stands deeper than the run key whose block it follows and every header is one the code knows |
| RunLines.KnownHeaders | internal/parser/ciparser.go:69-76 | The text under a block header is extracted if and only if the header is nothing, a lone bar or greater-than sign, one of them and a minus in front, or a bar and a 2 in front |
| RunLines.UnknownHeaderLosesCommand | internal/parser/ciparser.go:69-83 | Under a header made of a bar and a plus any command, unless it reads like a run key itself, is lost and the header is extracted |
| RunLines.HeaderIsMissed | internal/parser/ciparser.go:69-83 | An instance: a workflow with one such command, from which the header alone is extracted |
| RunLines.HeaderAsCommand | internal/parser/ciparser.go:69-83 | A command that reads like its unknown header: one mistake hides the other |
| RunLines.SiblingIsSwallowed | internal/parser/ciparser.go:48-59 | The key after a `- run:` block is extracted as a command |
| RunLines.CommonIndentFits | internal/parser/ciparser.go:48-59 | One common indentation meets that condition |
| Shell.SegmentsRebuildLine | internal/parser/shellparser.go:7-10 | Segments and separators interleaved rebuild the line |
| Shell.SeparatorsAreOperators | internal/parser/shellparser.go:7-10 | Without NUL each separator is `&&`, `;` or a single or double bar |
| Shell.SegmentsFreeOfOperators | internal/parser/shellparser.go:7-10 | No segment holds an operator |
| ShellCompounds.CompoundCommands | internal/parser/shellparser.go:7-10 | For all lines a and b and every operator, with blanks around it or without: the trimmed commands of the compound are those of a, then those of b, if and only if no unpaired ampersand stands before a double one and the bars that meet are read as many operators as written |
| ShellCompounds.SpacedCompound | internal/parser/shellparser.go:7-10 | With a blank on each side of the operator they always are |
| ShellCompounds.ProperCommands | internal/parser/shellparser.go:7-10 | Up to empty commands they are whatever bars meet, unless an unpaired ampersand stands before a double one |
| ShellCompounds.SegmentationInvertsPrinting | internal/parser/shellparser.go:7-10 | A line written as any operator-free commands with any operators between them, each read as written, splits into exactly those commands, trimmed |
| ShellCompounds.FullCommandsApart | internal/parser/shellparser.go:7-10 | For that it is enough that no command is the empty string or ends with an ampersand |
| ShellCompounds.DetectorsOfCompound | internal/parser/shellparser.go:43-143 | The npm-install, npx, sudo and publish detectors of a compound, with any operator and blanks or none, are the disjunction of those of its parts, unless an unpaired ampersand stands before a double one |
| ShellCompounds.MissingFlagOfCompound | internal/parser/shellparser.go:52-62 | For commandMissingFlag the first part of such a compound decides if it has a listed command, else the second; no listed command is empty, as in every call |
| ShellCompounds.AmpersandMovesOver | internal/parser/shellparser.go:7-10 | An unpaired ampersand before a double one is read with its first half, and its second half begins the next command |
| ShellCompounds.AmpersandHidesInstall | internal/parser/shellparser.go:43-50 | A compound whose npm install is missed for that reason |
| Shell.FirstCommandDecides | internal/parser/shellparser.go:52-62 | commandMissingFlag holds if and only if a listed command occurs and the first such segment lacks the flag |
| ShellDetectors.DetectorsExactly | internal/parser/shellparser.go:43-143 | On every line, what the npm-install, npx, sudo and publish detectors find in some trimmed segment |
| ShellDetectors.MissingFlagExactly | internal/parser/shellparser.go:52-62 | commandMissingFlag of a line holds if and only if some segment has a listed command and the first such segment lacks the flag |
| ShellDetectors.DetectorsOfPrinted | internal/parser/shellparser.go:43-143 | The same for a line written as commands with operators between them, in terms of those commands |
| ShellDetectors.NextCharacterDecides | internal/parser/shellparser.go:12-40 | A command with a character behind it is one if and only if that character cannot be part of a name |
| Shell.ContainsCmdExactly | internal/parser/shellparser.go:21-31 | containsCmd holds if and only if the command's first occurrence stands alone |
| Shell.GluedCommandHides | internal/parser/shellparser.go:21-31 | Any command whose first occurrence is glued to another character is missed where it stands alone |
| Shell.LaterCommandIsMissed | internal/parser/shellparser.go:21-50 | A line with a standalone npm install that the detector misses |
| Strings.SplitJoin | internal/parser/dockerfileparser.go:183 | Splitting undoes joining of parts without the separator |
| Paths.BesideIs | internal/parser/lockfileparser.go:156-167 | For a clean path, the base is its last component and a lockfile beside it has the same components but for the last |
| Paths.DotsResolve | internal/parser/lockfileparser.go:156-167 | Two dots take back the component before them unless it is two dots, stay where nothing can be taken back, are dropped at the root; empty and one-dot components count for nothing |
| Paths.NormaliseIsNormal | internal/parser/lockfileparser.go:156-167 | Cleaning leaves plain components after leading two-dot ones, of which a rooted path keeps none |
| Paths.BaseOf | internal/parser/lockfileparser.go:200 | The base is the last component that is not empty |
| Paths.BaseOfNothing | internal/parser/lockfileparser.go:200 | The base of slashes alone is a slash, of the empty path a dot |
| IgnoredPaths.GetAllIgnoredDirs | internal/parser/lockfileparser.go:250-265 | The directories that some ecosystem ignores, once each, in any order |
| IgnoredPaths.IsIgnoredPath | internal/parser/lockfileparser.go:273-296 | The loops decide whether some ignored directory passes the fast test |
| IgnoredPaths.IgnoredIsSublist | internal/parser/lockfileparser.go:278-292 | For every path the fast test holds if and only if the directory's components are a contiguous sublist of the path's |
| IgnoredPaths.IgnoredExactly | internal/parser/lockfileparser.go:273-296 | So a path is ignored if and only if some ignored directory's components are such a sublist |
| Lockfiles.FindFiles | internal/parser/lockfileparser.go:191-210 | As a multiset, exactly the paths outside ignored directories with one of the names |
| Lockfiles.LockfileFor | internal/parser/lockfileparser.go:156-174 | The first lockfile in priority order that stands beside the manifest, or empty |
| Lockfiles.DetectForEcosystem | internal/parser/lockfileparser.go:142-188 | As a multiset, one pairing per manifest of the ecosystem with that lockfile |
| Lockfiles.DetectLockfilePairings | internal/parser/lockfileparser.go:111-139 | In every map order, each pairing once for each ecosystem that has it |
| Lockfiles.FirstLockfileIsPreferred | internal/parser/lockfileparser.go:162-174 | The chosen lockfile stands beside the manifest, all earlier ones do not; empty means none does |
| Lockfiles.ExactlyOnePairing | internal/parser/lockfileparser.go:111-188 | Each path with the name of a manifest and no ignored directory among its components has exactly one pairing, with the preferred lockfile of its ecosystem; nothing else has one |
| Lockfiles.HasCompleteLockfiles | internal/parser/lockfileparser.go:213-225 | There is a pairing and no lockfile is blank |
| Lockfiles.CompleteExactly | internal/parser/lockfileparser.go:213-225 | Of the detected pairings this holds if and only if there is such a manifest path and beside every one stands a lockfile of its ecosystem |
| EcosystemTable.TableIsWellFormed | internal/parser/lockfileparser.go:20-108 | The program's table meets the conditions of these results: no manifest name in two ecosystems, plain lockfile names, no empty directory component |

## Left out

- HTTP, JSON, base64, App tokens and query texts are foreign calls: a reply is a datatype value, and the HTTP-date form
  of Retry-After is a parameter.
- Storage writers, SQL and SBOM fetching: an import is a step that succeeds or fails.
- File-tree fetching, monorepo heuristics and the extraction of GraphQL maps, which are single checks and field copies.
- YAML decoding and secret names, the workflow flags built from the detectors, the substring-only Dockerfile flags and
  `isCurlBashPipe`; the npm-ci, yarn and pip detectors are instances of `commandMissingFlag`.
- Logging, memory statistics, configuration parsing and message texts.
- Listings are finite: a listing whose pages never end has no place in `Crawl`. `Run` of the scheduler is a relation
  between states, not a method, because its interleavings cannot be one execution; Go's memory model and scheduler
  fairness are not modelled.
- A limiter method's concurrency is a script of the calls that others make while it sleeps; the mutex makes the rest
  atomic. Ticks of the clock are natural numbers, and counters and the total wait are unbounded, so overflow of
  `time.Duration` is modelled only in `Retry.dfy`.
- The request loop of `Retry.dfy` sees the limiter's `Wait` as one flag, and `Herd.dfy` sees a request as one send: the
  retry policy is not part of the composed state machine, which lets a goroutine make any number of requests.
- App token requests, which do not pass the limiter.
- Text is ASCII: Unicode spaces, case folding beyond A to Z and invalid UTF-8 are not modelled.
- The regular expression of ARG references is modelled by a scanner that finds its leftmost matches.
- `filepath` with '/' as separator only.
- RunLines.ExtractionInvertsPrinting: no command may equal an unknown block header of the same workflow, because the header
  extracted in its place can then hide the lost command (`HeaderAsCommand`).
