# Verification of the gorouter and spec-driven-llm-wiki cores

This project models the algorithmic core of two programs that share a repository and proves
properties of the model with Dafny 4.11. `dafny verify dfyconfig.toml` checks everything.

**The wiki's knowledge graph** (`spec-driven-llm-wiki/tools/src/lib`). `Walks` defines undirected
walks and connectivity. `Community` is the native community detection: breadth-first labelling,
proved to give two ids the same number exactly when a walk joins them, with numbers in order of
first appearance, which leaves only one possible result. `GraphBuilder` is `buildGraph`: link
resolution, deduplication by string key, degrees, groups, statistics, and the counting laws
between them. `Subgraph` is `componentSubgraph`; because its set grows while it is scanned, what
it keeps is bounded by the number of increasing runs of a walk, not by its length.

**The gateway's limits** (`gorouter/internal/middleware/ratelimit.go`). `RateLimitSpec` has the
pruned sliding windows beside a limiter that forgets nothing, and the runs of both;
`RateLimitSafety` what holds over whole runs; `RateLimiter` the mutable windows behind the map of
users, each method proved to take the specified step. `Quota` is the monthly quota for one
request and for any interleaving of reads, resets and charges on a user's row.

**Routing, fallback and cooldown.** `Router` chooses and ranks providers; `Cooldown` has every
writer of the cooldown fields as an atomic step of a timed state machine; `Combo` is the shared,
mutable provider repository and the fallback chain; `Direct` the request path without a combo.

**Streams** (`Text`, `EventStream`, `Translation`). Line splitting, the relay, the browser's
reassembly, and the translation of OpenAI chunks into Anthropic events. The framing is a
restriction of the HTML Living Standard (WHATWG), section 9.2.6: the space after `data:` is
required and every data line is an event of its own.

**Text compressors and model reconciliation** (`LogFolding`, `LineFilters`, `ModelSync`).

`Sequences` holds facts about filtering and mapping, with the positions a filter keeps, `Sets` about the sizes of sets.

## Modelling decisions

- Time is a whole number of seconds. Deadlines of combos and direct requests are whole seconds in
  the source too; health deadlines are rounded to the second here.
- A rate-limit call looks its window up, locks it and reads the clock in one step. The source reads
  the clock before taking the lock, and a sweep may delete the window in between.
- `checkLimits` is the quota check of `Quota` followed by the rate-limit part of `RateLimiter`.
- Limits may differ from call to call in the refinement; the safety and retry-after results assume
  fixed limits for the user, as they speak about one limit.
- Each repository read-modify-write is one atomic step, and so is a combo's cooldown check with
  the request it lets through. What an upstream answers is an arbitrary `Outcome`.
- The calls of the runtime whose answers the code cannot determine are parameters: the random
  draw, new identifiers (new and distinct), JSON parsing, string case and path functions, and
  whether a line fits the scanner's buffer.
- `sort.Slice` is modelled by its contract, a permutation in key order; nothing is claimed about
  the order of equal keys.
- The windows are closed intervals, so a minute window spans 61 whole seconds.
- A health probe starts when its provider is read as active. The time between that and the request
  of the probe is not modelled apart; the results about probes allow it 20 seconds beside the 10
  of the client's time limit.
- Administrators set a provider's status to active or disabled only
  (`gorouter/internal/handlers/admin/providers.go:517`, `:543`); the results about probes assume so.
- The marshalled text of a relay error is a parameter without line breaks.
- `executeItem` never returns an error in the source, so the error branch of `Execute` has no
  counterpart here.

## Where the code differs from what one may expect

The lemmas named with each say exactly what the code does instead and for which inputs the
expectation holds, most beside one input for which it fails.

- `componentSubgraph` can keep nodes farther away than its depth (`OnePassMayReachTwoHops`); it
  keeps exactly what walks of at most that many increasing runs reach (`KeptIsRunBounded`), and
  stays within the depth if and only if no id one hop farther ends such a walk
  (`DepthBoundsDistanceIff`).
- The edge key is ambiguous when a page id contains `->`, and then a link can lose its edge
  (`EdgeIdCollides`). Every link keeps its edge if and only if no page `u` links to `x->v` while
  `u->x` links to `v` (`EveryLinkKeptIff`); `EdgesAreLinks` is the case of ids without arrow.
- The retry-after of a request denial is one second short, except where it is clamped
  (`MinuteRetryIsExact`, `DayRetryIsExact`); that of a token denial can be too early
  (`TokenRetryMayBeEarly`, `TokenRetryIsExactWhen`).
- The weighted draw is proportional if and only if no weight is negative (`WeightedIsProportional`).
- The latency ranking puts unmeasured providers first while the single choice skips them
  (`LatencyRankingMayDiffer`, `LatencyHeadMatchesWhen`).
- The ranking has no case for the tier strategy and orders by priority (`TierRankingMayDiffer`).
  Its head is as good as the single choice if and only if it is of the same tier
  (`TierHeadMatchesWhen`), and this holds for every ranking if and only if all providers of the
  highest priority are of the first tier there is (`TierRankingsAgreeIff`).
- A combo's own deadline is kept if and only if no direct request on the provider fails more than
  a minute before it (`DeadlineIsKeptIff`, `NoCallBeforeDeadline`, `BackoffCanBeCutShort`); only
  the first 30 seconds are sure (`NoCallDuringBackoff`).
- The health monitor can never end a cooldown. It probes active providers only, its client gives
  up after 10 seconds, and every cooldown lasts at least 30, so the recovery branch of a good probe
  is never taken (`ProbesEndNoCooldown`) and a provider stays out of the router's reach until a
  combo success or an administrator (`CooldownLasts`, `StickyMeansUnroutable`). Thirty seconds is
  the exact bound for this (`ThirtySecondsIsExact`). If probes could take any time, a cooldown would
  outlast every such run if and only if no probe of the provider is running (`StickyIff`).
- A direct request falls back to the model's own provider even if that one
  is cooling down (`FallbackIgnoresCooldown`).
- The relay prints the `[DONE]` sentinel as a list of numbers, since a byte slice is passed to
  `Fprint`. The browser sees a sentinel if and only if some payload is one only after trimming
  (`SentinelSeenIff`, `SentinelIsLost`); the payload round trip holds all the same.
- In the streaming translation the break on a cancelled context leaves only the `select`:
  cancellation is a parameter of the loop, and the events do not depend on it (`TranslateLines`,
  `HandleStreaming`).
- Log folding can lose information (`FoldingMayLose`): two texts fold to the same if and only if
  their runs are pairwise equal up to one being a single line that reads like the other one folded
  (`FoldAlikeIff`, `SecondTextIff`, `FoldingIsLossless`).
- The summary of 21 or 22 lines repeats its own markers, because `append` writes into the array
  the last ten lines are read from (`SummaryIsHeadAndTail`).
- Reconciling a provider's models goes by rows whose provider id or provider name is the given id,
  so rows of other providers can be removed or overwritten (`OtherProviderMayLoseRow`,
  `OtherProviderMayBeOverwritten`), and a requested model can end without a row of the
  provider's own (`OwnedIff`, `OwnedIsRequestedIff`). `UntouchedIff` and `OtherProvidersSurviveWhen`
  say when not. The router reads enabled rows only, so a requested model that is not active is not
  found either (`InactiveIsNotFound`); `FoundIff` and `RoutableIff` say exactly what it finds.

## Model

| member | source | states |
|---|---|---|
| Community.Neighbors | spec-driven-llm-wiki/tools/src/lib/community.ts:3-10 | the ids adjacent to a node in either direction, each once |
| Community.NativeCommunities | spec-driven-llm-wiki/tools/src/lib/community.ts:12-33 | the result labels exactly the ids a node reaches; two ids share a number if and only if a walk joins them; numbers are 0..groups-1 in order of first appearance; there are at most groups + edges ids; the search terminates |
| Community.Search | spec-driven-llm-wiki/tools/src/lib/community.ts:18-30 | one root: everything it reaches gets the current group, nothing labelled before changes |
| Community.Discover | spec-driven-llm-wiki/tools/src/lib/community.ts:21-28 | after one dequeued id all its neighbours are seen, and what was queued is what became seen |
| Community.LabellingIsUnique | spec-driven-llm-wiki/tools/src/lib/community.ts:12-33 | the labelling property admits one map and one group count only |
| Walks.ClosedSeparates | spec-driven-llm-wiki/tools/src/lib/community.ts:20-29 | a set no edge leaves is a union of connected components |
| GraphBuilder.Index | spec-driven-llm-wiki/tools/src/lib/graph-builder.ts:75-80 | the maps by id and by stem return the last id filed under a key |
| GraphBuilder.Lookup | spec-driven-llm-wiki/tools/src/lib/graph-builder.ts:87-88 | the map of full ids first, then the map of base names; absent and empty both mean unresolved |
| GraphBuilder.TargetLeads | spec-driven-llm-wiki/tools/src/lib/graph-builder.ts:75-88 | a link leads to the last page whose lower-case id is the normalized link; if there is none, to the last whose lower-case base name is that of the link; otherwise nowhere |
| GraphBuilder.FiledIsAnId | spec-driven-llm-wiki/tools/src/lib/graph-builder.ts:75-88 | a successful lookup returns a page id filed under that very key; lookups fail only when nothing is filed there |
| GraphBuilder.CollectEdges | spec-driven-llm-wiki/tools/src/lib/graph-builder.ts:82-95 | the edges are the proposals of all links in order, keeping the first under each key |
| GraphBuilder.EdgesAreFirstLinks | spec-driven-llm-wiki/tools/src/lib/graph-builder.ts:82-95 | that is, by page and link number: exactly the links that lead to another page stand for an edge, in order of pages and links, and of each key the first is kept |
| GraphBuilder.DegreeCounts | spec-driven-llm-wiki/tools/src/lib/graph-builder.ts:98-102 | the degree of an id is the number of edges from it plus that of edges to it |
| GraphBuilder.EdgeProposed | spec-driven-llm-wiki/tools/src/lib/graph-builder.ts:84-93 | an edge is proposed if and only if some page links from its one end to its other, different, non-empty end |
| GraphBuilder.EdgesAreLinks | spec-driven-llm-wiki/tools/src/lib/graph-builder.ts:82-95 | with no arrow in page ids: there is an edge from one page to another exactly when a link joins them, and keys are distinct |
| GraphBuilder.DedupKeys | spec-driven-llm-wiki/tools/src/lib/graph-builder.ts:90-93 | deduplication invents no edge, leaves each key once and loses no key |
| GraphBuilder.BuiltEdgesAreSimple | spec-driven-llm-wiki/tools/src/lib/graph-builder.ts:84-94 | both ends of every edge are pages and differ |
| GraphBuilder.EdgeIdInjective | spec-driven-llm-wiki/tools/src/lib/graph-builder.ts:39-41 | the key determines both ends when no source id contains the arrow |
| GraphBuilder.EveryLinkKeptIff | spec-driven-llm-wiki/tools/src/lib/graph-builder.ts:82-95 | for all page ids: every link has its edge in the result if and only if there are no u, x, v such that u links to x->v and u->x links to v |
| GraphBuilder.EdgeIdCollides | spec-driven-llm-wiki/tools/src/lib/graph-builder.ts:82-95 | four pages on which a link from a->b to c exists and its edge is dropped, because the link from a to b->c has the same key |
| GraphBuilder.CountDegrees | spec-driven-llm-wiki/tools/src/lib/graph-builder.ts:98-102 | the degree map counts edge ends |
| GraphBuilder.Annotate | spec-driven-llm-wiki/tools/src/lib/graph-builder.ts:103-109 | every node gets its group and its degree plus one; the orphan count is the number of nodes of degree zero |
| GraphBuilder.DegreesSumToTwiceEdges | spec-driven-llm-wiki/tools/src/lib/graph-builder.ts:98-106 | the degrees over all nodes add up to twice the number of edges |
| GraphBuilder.OrphanIffAlone | spec-driven-llm-wiki/tools/src/lib/graph-builder.ts:109 | a node has no edge if and only if it is the only member of its community |
| GraphBuilder.OrphansAreSingletons | spec-driven-llm-wiki/tools/src/lib/graph-builder.ts:108-122 | the orphan count is the number of one-member communities |
| GraphBuilder.CountValues | spec-driven-llm-wiki/tools/src/lib/graph-builder.ts:108-119 | counting distinct group values counts the communities |
| GraphBuilder.CountingLaws | spec-driven-llm-wiki/tools/src/lib/graph-builder.ts:97-122 | handshake law, orphans = singleton communities, and communities >= nodes - edges |
| GraphBuilder.BuildGraph | spec-driven-llm-wiki/tools/src/lib/graph-builder.ts:57-126 | the whole build: nodes, edges as first links by position, labelling, annotations and statistics, with the counting laws for distinct page ids |
| Subgraph.ComponentSubgraph | spec-driven-llm-wiki/tools/src/lib/html-renderer.ts:118-131 | keeps the nodes in the scanned set, exactly the original edges between kept nodes, and their communities |
| Subgraph.KeptIsRunBounded | spec-driven-llm-wiki/tools/src/lib/html-renderer.ts:119-125 | an id is kept if and only if a walk from the focus crosses edges in at most depth increasing runs of list positions |
| Subgraph.DepthBoundsDistanceIff | spec-driven-llm-wiki/tools/src/lib/html-renderer.ts:119-125 | what is kept lies within depth hops if and only if no id exactly depth + 1 hops away ends a walk of at most depth runs |
| Subgraph.KeptBetweenBallAndComponent | spec-driven-llm-wiki/tools/src/lib/html-renderer.ts:119-125 | everything within depth hops is kept; nothing outside the connected component is |
| Subgraph.OnePassMayReachTwoHops | spec-driven-llm-wiki/tools/src/lib/html-renderer.ts:121-124 | one pass can keep a node at distance two |
| Subgraph.DeepKeepIsComponent | spec-driven-llm-wiki/tools/src/lib/html-renderer.ts:119-125 | with as many passes as there are other nodes, exactly the component is kept |
| Subgraph.DeepKeepIsCommunity | spec-driven-llm-wiki/tools/src/lib/html-renderer.ts:118-131 | at that depth a node is kept if and only if it has the community number of the focus |
| RateLimitSpec.CheckRefines | gorouter/internal/middleware/ratelimit.go:114-161 | one call on the pruned window answers as the full history does and keeps them in agreement |
| RateLimitSpec.RecordRefines | gorouter/internal/middleware/ratelimit.go:367-374 | recording tokens keeps window and history in agreement |
| RateLimitSpec.SweepRefines | gorouter/internal/middleware/ratelimit.go:297-309 | the eager sweep cannot be noticed by any later call |
| RateLimitSpec.CheckPrunes | gorouter/internal/middleware/ratelimit.go:121-158 | what a call leaves in each list of the window: pruned when its limit is positive and no earlier test denied, with the time added when the call is let through |
| RateLimitSpec.RecordPrunes | gorouter/internal/middleware/ratelimit.go:367-374 | recording keeps the tokens of the last minute and adds one entry at the end |
| RateLimitSpec.SweepMeans | gorouter/internal/middleware/ratelimit.go:297-310 | after a sweep exactly the users with a request of the last day or tokens of the last minute have a window, and it holds all of those and nothing older |
| RateLimitSpec.WindowsAgree | gorouter/internal/middleware/ratelimit.go:257-312 | after every run each window, deleted and re-created or not, agrees with the full history |
| RateLimitSpec.PrunedRefinesFull | gorouter/internal/middleware/ratelimit.go:105-161 | over every run the pruned limiter gives exactly the answers of one that forgets nothing |
| RateLimitSpec.DeniedCallIsInvisible | gorouter/internal/middleware/ratelimit.go:124-154 | leaving a denied call out of a run changes no other answer |
| RateLimitSafety.SlidingWindowsAreSafe | gorouter/internal/middleware/ratelimit.go:121-158 | over every run with fixed limits, no closed 60 s interval holds more admissions than the minute limit and no closed 86400 s interval more than the day limit |
| RateLimitSafety.RunsAreWellSpaced | gorouter/internal/middleware/ratelimit.go:121-158 | admissions stay in time order and any limit + 1 of them span more than the window |
| RateLimitSafety.DecisionMeans | gorouter/internal/middleware/ratelimit.go:121-160 | the whole answer to a call, with literal windows, limits, retry-after and limit type, from where the last minute and day begin in the earlier admissions and tokens |
| RateLimitSafety.OutputAt | gorouter/internal/middleware/ratelimit.go:105-161 | each answer of a run is the decision on what has happened before it |
| RateLimitSafety.HistoryMeans | gorouter/internal/middleware/ratelimit.go:157-161 | which is, by position in the run, exactly the calls of the user let through and the tokens recorded for it |
| RateLimitSafety.TokenSumAdds | gorouter/internal/middleware/ratelimit.go:356-365 | the token sum is additive and that of one entry is its count |
| RateLimitSafety.MinuteRetryIsExact | gorouter/internal/middleware/ratelimit.go:121-131 | on a minute denial the pruned list is not empty and starts with the oldest live entry; the answer lies in 1..60; the test denies exactly through that entry + 60; the true wait is one second longer unless clamped |
| RateLimitSafety.DayRetryIsExact | gorouter/internal/middleware/ratelimit.go:133-143 | the same for the day limit, whose clamp asks for 60 s where 1 s would do |
| RateLimitSafety.TokenRetryIsExactWhen | gorouter/internal/middleware/ratelimit.go:145-155 | a token denial answers 1..60, the time until the oldest entry leaves, one second short unless clamped; the test denies until then, and passes then if and only if the newer entries sum below the limit |
| RateLimitSafety.TokenRetryMayBeEarly | gorouter/internal/middleware/ratelimit.go:149 | after two records, a denied call is told to wait one second, and every call of the next fifty seconds is denied |
| RateLimiter.CountInWindow | gorouter/internal/middleware/ratelimit.go:335-344 | the number of entries at or after the cutoff |
| RateLimiter.FilterTimestamps | gorouter/internal/middleware/ratelimit.go:346-354 | the entries at or after the cutoff, in order |
| RateLimiter.SlidingWindow.CleanTokens | gorouter/internal/middleware/ratelimit.go:324-333 | drops the token entries before the cutoff and nothing else |
| RateLimiter.SlidingWindow.SumTokens | gorouter/internal/middleware/ratelimit.go:356-365 | the sum of the counts at or after the cutoff |
| RateLimiter.SlidingWindow.Check | gorouter/internal/middleware/ratelimit.go:121-160 | the decision and the new window of one call, test by test |
| RateLimiter.RateLimiter.GetWindow | gorouter/internal/middleware/ratelimit.go:257-281 | a user without a window gets an empty one; no other window changes |
| RateLimiter.RateLimiter.CheckLimits | gorouter/internal/middleware/ratelimit.go:114-161 | answer and new state are those of the specified step on the user, all other users unchanged |
| RateLimiter.RateLimiter.RecordTokenUsage | gorouter/internal/middleware/ratelimit.go:367-374 | adds one token entry for the user after pruning, all other users unchanged |
| RateLimiter.RateLimiter.Cleanup | gorouter/internal/middleware/ratelimit.go:297-310 | every window is swept and exactly the empty ones are deleted, whatever the order of the walk |
| RateLimiter.Serve | gorouter/internal/middleware/ratelimit.go:105-161 | the mutable limiter, run on any event sequence, answers as a limiter that forgets nothing |
| Quota.QuotaStore.CheckQuota | gorouter/internal/middleware/ratelimit.go:163-206 | an expired month is cleared, set to the next reset and never denies; otherwise nothing is written, and the verdict is spelled out: a used up positive token cap first, then the cost cap, with a wait until the reset of at least 60 s |
| Quota.QuotaStore.ResetMonthly | gorouter/internal/db/sqlite.go:1292-1298 | clears usage and sets the reset time of that user only |
| Quota.QuotaStore.IncrementUsage | gorouter/internal/db/sqlite.go:1284-1290 | adds tokens and cost to that user only |
| Quota.CheckIsReadAndReset | gorouter/internal/middleware/ratelimit.go:163-206 | a whole check is a read followed by a reset of the interleaving model, and admits exactly the requests it allows |
| Quota.NextKeepsRoom | gorouter/internal/middleware/ratelimit.go:163-206 | every atomic step keeps used + in-flight allowance under the bound |
| Quota.OvershootIsBounded | gorouter/internal/middleware/ratelimit.go:173-203 | with at most C admitted, unfinished requests charging at most M, and any number about to reset, usage never exceeds cap - 1 + C*M, and cost stays under its cap plus C*Mc, in every interleaving |
| Quota.OvershootIsReached | gorouter/internal/middleware/ratelimit.go:187-195 | the token bound is attained for every C and M |
| Quota.UsedIsCharged | gorouter/internal/handlers/v1/chat.go:442-445 | the stored tokens and cost are what was charged since the last reset |
| Router.FindActive | gorouter/internal/routing/router.go:53-98 | the eligible providers in listing order, and exactly when the lookup fails |
| Router.EligibleMeans | gorouter/internal/routing/router.go:59-95 | eligible are the active providers past any cooldown with an enabled row that bears the name as model id, model name or row id |
| Router.SelectProvidersForModel | gorouter/internal/routing/router.go:204-279 | the result is a permutation of the eligible providers; under latency and cost the smaller comes first, under every other strategy the greater priority |
| Router.RankingFollows | gorouter/internal/routing/router.go:252-276 | every list in key order is in that order |
| Router.ProviderCosts | gorouter/internal/routing/router.go:176-183 | the cost is input plus output cost of the first row of the provider with the name as model id or model name, else 0.1 |
| Router.RankingIsExact | gorouter/internal/routing/router.go:204-279 | a provider is in the result if and only if it is active, past any cooldown and serves the model, and then once |
| Router.SelectProviderForModel | gorouter/internal/routing/router.go:53-101 | a provider is found if and only if one is eligible, and it is as the strategy promises |
| Router.PickKeepsPromise | gorouter/internal/routing/router.go:126-202 | the promises without keys: no eligible provider has a greater priority, a smaller cost or an earlier tier (subscription, cheap, free) and then a greater priority; the least latency of the measured ones, or of all; the position where the weights exceed the draw |
| Router.SelectByStrategy | gorouter/internal/routing/router.go:103-124 | what each strategy guarantees of the provider it picks |
| Router.ByKey | gorouter/internal/routing/router.go:126-131 | the pick has the least key of all |
| Router.ByLatency | gorouter/internal/routing/router.go:151-161 | the fastest measured provider, or the least latency when none is measured |
| Router.ByTier | gorouter/internal/routing/router.go:192-202 | no provider comes before the pick in tier order, then priority |
| Router.ByWeighted | gorouter/internal/routing/router.go:133-149 | the pick is where the running total first exceeds the draw; the final fallthrough is unreachable |
| Router.DrawsAreWeight | gorouter/internal/routing/router.go:141-147 | with no negative weight, exactly weight many of the possible draws pick a provider |
| Router.WeightedIsProportional | gorouter/internal/routing/router.go:133-149 | the draw is exactly proportional if and only if no weight is negative |
| Router.HeadMatchesChoice | gorouter/internal/routing/router.go:163-190 | the head of the ranking has the same key as the single choice |
| Router.LatencyHeadMatchesWhen | gorouter/internal/routing/router.go:151-161 | under latency they agree if and only if measured and unmeasured providers do not mix |
| Router.LatencyRankingMayDiffer | gorouter/internal/routing/router.go:151-161 | two eligible providers of which the ranking puts the unmeasured one first and the single choice takes the measured one |
| Router.TierHeadMatchesWhen | gorouter/internal/routing/router.go:192-202 | under tier the head of a ranking is as good as the single choice, and could have been chosen, if and only if it is of the same tier |
| Router.TierRankingsAgreeIff | gorouter/internal/routing/router.go:204-279 | every ranking starts with a provider the single choice could return if and only if each provider of the highest priority is of the first tier present |
| Router.TierRankingMayDiffer | gorouter/internal/routing/router.go:204-279 | two eligible providers of which the ranking puts the free one first and the single choice takes the cheap one |
| Cooldown.ComboDeadline | gorouter/internal/combo/combo.go:297-311 | every combo deadline lies 30 to 600 s ahead |
| Cooldown.WritersMean | gorouter/internal/db/dbmanager.go:815-850 | what a cooldown, its end, a good and a bad probe leave of every field, and the backoff by level |
| Cooldown.HeldStep | gorouter/internal/db/dbmanager.go:815-850 | no step but a combo success or an administrator brings a cooldown that reaches t + 30 below it while t + 30 lies ahead |
| Cooldown.NoCallDuringBackoff | gorouter/internal/combo/combo.go:191-202 | after a combo failure at t no combo step calls the provider before t + 30, in every interleaving, unless a success or an administrator overrides it |
| Cooldown.DeadlineIsKeptIff | gorouter/internal/combo/combo.go:297-311 | over every run up to the deadline of the stored backoff level, without overrides, combo steps are refused until that deadline if and only if no direct request on the stored provider fails more than 60 s before it |
| Cooldown.NoCallBeforeDeadline | gorouter/internal/combo/combo.go:191-202 | at any place of any run, no combo step calls a provider between its failure and the deadline of its level, unless overridden or cut short |
| Cooldown.BackoffCanBeCutShort | gorouter/internal/handlers/v1/chat.go:380-387 | a run from a newly created provider in which a deadline at 100 is set and a combo step calls at 71, because a direct request failed at 11 |
| Cooldown.CooldownIsSticky | gorouter/internal/provider/health.go:66-71 | a provider in cooldown with no probe running stays so until a combo success or an administrator, however long probes may take |
| Cooldown.StickyIff | gorouter/internal/provider/health.go:126-130 | if probes may take any time, a cooldown outlasts every time-ordered run without override if and only if no probe of the provider is running |
| Cooldown.RunsOutlast | gorouter/internal/provider/health.go:66-71 | in every run of a server that starts without probes, the cooldown of a provider under a running probe ends no earlier than 30 s after the start of the probe |
| Cooldown.ProbesEndNoCooldown | gorouter/internal/provider/health.go:113-131 | when good probes come back within 30 s, no good probe of any such run changes anything but a latency |
| Cooldown.ThirtySecondsIsExact | gorouter/internal/provider/health.go:23-30 | good probes are harmless in every such run if and only if their time limit is at most 30 s |
| Cooldown.CooldownLasts | gorouter/internal/provider/health.go:113-131 | in every such run a provider in cooldown stays so, whatever probes are running, until a combo success or an administrator |
| Cooldown.StickyMeansUnroutable | gorouter/internal/routing/router.go:89-95 | and is out of the router's reach all that time |
| Combo.ProviderRepo.MarkCooldown | gorouter/internal/db/dbmanager.go:815-827 | sets status and deadline of that record only |
| Combo.ProviderRepo.ClearCooldown | gorouter/internal/db/dbmanager.go:829-840 | makes that record active with no deadline and no backoff |
| Combo.ProviderRepo.UpdateStatus | gorouter/internal/db/dbmanager.go:842-850 | changes the status of that record only |
| Combo.ProviderRepo.UpdateLatency | gorouter/internal/handlers/v1/chat.go:509-519 | changes the latency of that record only |
| Combo.ProviderRepo.RecordSuccess | gorouter/internal/provider/health.go:113-131 | a good probe ends a cooldown only past its deadline |
| Combo.ProviderRepo.RecordFailure | gorouter/internal/provider/health.go:138-158 | a bad probe raises the backoff and from the third on starts a cooldown of that many minutes |
| Combo.ComboManager.MarkCooldown | gorouter/internal/combo/combo.go:297-311 | the deadline follows the stored backoff level |
| Combo.ComboManager.ExecuteItem | gorouter/internal/combo/combo.go:170-295 | the result for every outcome, and the repository as the item's atomic steps leave it |
| Combo.ComboManager.Execute | gorouter/internal/combo/combo.go:90-161 | result and repository are those of the fallback chain |
| Combo.ChainTriesPrefix | gorouter/internal/combo/combo.go:106-160 | exactly the items up to FallbackCount are tried: all before it failed fallback-eligibly, that one succeeded, failed for good or was the last |
| Combo.ChainMeans | gorouter/internal/combo/combo.go:106-160 | by stored connections, start times and answers: a provider that is not stored or cooling down, or an answer that neither succeeds nor is a client error other than 429, is passed over; success and such an error end the chain at their own index; what each item writes, with the deadline by level |
| Combo.ItemIsARun | gorouter/internal/combo/combo.go:170-295 | what an item writes is what its atomic steps do |
| Combo.NoSecondCallInChain | gorouter/internal/combo/combo.go:191-202 | a provider listed twice is skipped as cooling down until the deadline of its level at its failure in the same chain |
| Combo.ChainIsARun | gorouter/internal/combo/combo.go:106-160 | the repository after any number of items is that of one cooldown run, the concatenation of their steps, whatever probes are going on |
| Combo.ChainIsInOrder | gorouter/internal/combo/combo.go:106-160 | and that run is in time order when the attempts are, so what holds over all runs holds over chains |
| Direct.ChatHandler.TryProvider | gorouter/internal/handlers/v1/chat.go:277-338 | when the next candidate is tried, and what the attempt writes |
| Direct.ChatHandler.ExecuteDirectRequest | gorouter/internal/handlers/v1/chat.go:231-378 | at most three candidates are tried in order, each only after all before it failed retriably; which answer is given and what the repository holds then |
| Direct.RelaysFromMeans | gorouter/internal/handlers/v1/chat.go:329-378 | an answer relayed is a client error as it is, or 200, and every earlier candidate could not be sent to, failed on the way, or answered 429 or a server error |
| Direct.DirectMeans | gorouter/internal/handlers/v1/chat.go:320-338 | what each candidate writes: nothing when not sent, else its latency, and a cooldown of 60 s after a failure that counts against it |
| Direct.TargetModelIsFirst | gorouter/internal/handlers/v1/chat.go:231-253 | the target model is the first row that answers to the name |
| Direct.FallbackIgnoresCooldown | gorouter/internal/handlers/v1/chat.go:254-269 | a provider that is not ready can be tried if and only if none is eligible and the model's own provider is not ready |
| Text.SplitCarries | gorouter/web/chat.js:107-109 | splitting with a carried-over tail equals splitting the whole text |
| Text.SplitJoin | gorouter/internal/rtk/gitdiff.go:14-35 | splitting undoes joining on lines without breaks |
| Text.JoinSplit | gorouter/internal/rtk/gitdiff.go:14-35 | joining undoes splitting on every text |
| Text.DecimalMeans | gorouter/internal/rtk/analysis.go:62-66 | a count is written as the decimal digits that stand for it, without leading zeros |
| EventStream.HandleLine | gorouter/web/chat.js:112-129 | what one line adds to reply, errors and usage |
| EventStream.HandleSse | gorouter/web/chat.js:93-138 | for every cutting into reads: the reply is the tokens of the terminated data lines one after the other, with their errors in order and the last usage |
| EventStream.ShowAllShows | gorouter/web/chat.js:112-129 | the view after any payloads: concatenated tokens, errors in order, last usage, sentinels skipped |
| EventStream.ReceivedMeans | gorouter/web/chat.js:112-114 | the payloads are the trimmed rests of the lines that start with the prefix, in order |
| EventStream.TrimMeans | gorouter/web/chat.js:113 | trimming takes away spaces at both ends, and all of them |
| EventStream.StreamResponse | gorouter/internal/streaming/stream.go:59-89 | the text written for the scanned lines, up to cancellation or the sentinel; it fails if and only if no sentinel ends it and it is cancelled, a line does not fit or reading fails |
| EventStream.SendStream | gorouter/internal/handlers/v1/chat.go:347-353 | the relayed text, followed by one error event exactly when the relay failed |
| EventStream.AllHandledIff | gorouter/internal/streaming/stream.go:65-73 | every line is handled if and only if all fit and the request is not cancelled meanwhile |
| EventStream.RelayedMeans | gorouter/internal/streaming/stream.go:74-87 | the text written, line by line up to the first sentinel: data lines with a blank line, breaks for empty lines, nothing for others, then the printed sentinel |
| EventStream.PayloadsMean | gorouter/internal/streaming/stream.go:75-80 | the payloads are those of the data lines before the first sentinel, in order |
| EventStream.RawLinesMean | gorouter/internal/streaming/stream.go:65-74 | the scanned lines are what the breaks of the body separate, without an empty last one |
| EventStream.ScannedMeans | gorouter/internal/streaming/stream.go:65-74 | scanning yields the lines before the first that does not fit, less a carriage return each |
| EventStream.RelayRoundTrip | gorouter/internal/streaming/stream.go:67-87 | the browser receives exactly the upstream payloads before the sentinel, in order, trimmed |
| EventStream.SentinelSeenIff | gorouter/internal/streaming/stream.go:76-79 | the browser receives [DONE] if and only if some earlier payload trims to it without being it |
| EventStream.SentinelIsLost | gorouter/internal/streaming/stream.go:76-79 | a stream of the sentinel alone brings nothing; with one more blank before it, it arrives |
| EventStream.SentIsReceived | gorouter/internal/handlers/v1/chat.go:347-353 | the browser receives the payloads before the sentinel, and then the error event if the relay failed |
| EventStream.StreamReachesBrowser | gorouter/internal/handlers/v1/chat.go:347-353 | end to end: any upstream body, relayed to its end, the sentinel, a cancellation, a line that does not fit or a read error, and cut in any way, shows what its payloads show, and then the error if the relay failed |
| Translation.MapFinishReason | gorouter/internal/handlers/v1/messages.go:533-544 | never empty; max_tokens exactly for length, tool_use exactly for tool_calls |
| Translation.EmitChoices | gorouter/internal/handlers/v1/messages.go:291-304 | one delta per non-empty choice, counted, and the last string finish reason noted |
| Translation.TranslateLines | gorouter/internal/handlers/v1/messages.go:269-305 | the choices of all parsable chunks before the first sentinel are translated, in order, whenever the request is cancelled |
| Translation.HandleStreaming | gorouter/internal/handlers/v1/messages.go:248-324 | the events of the success path are the translation of those choices, whenever the request is cancelled |
| Translation.TranslationKeepsMeaning | gorouter/internal/handlers/v1/messages.go:248-324 | fixed frame of six events around non-empty deltas; delta texts concatenate to the reply; output_tokens is the number of deltas; the stop reason is the last stated one |
| Translation.TranslationMeans | gorouter/internal/handlers/v1/messages.go:248-324 | all events: one delta with its index for each choice that has text, in order, between the frame; the stop reason is that of the last finish reason given as a string |
| Translation.ChoicesMean | gorouter/internal/handlers/v1/messages.go:286-291 | the choices are those of the parsable chunks, one chunk after the other |
| Translation.CutsDoNotMatter | gorouter/internal/handlers/v1/messages.go:291-304 | text and stop reason do not depend on how upstream cut the reply |
| Translation.FramesAreRecovered | gorouter/internal/handlers/v1/messages.go:546-549 | formatted events split back into one event line, one data line and one blank line each |
| LogFolding.ProcessLog | gorouter/internal/rtk/analysis.go:46-78 | the output is the formatted runs of the lines, with the characters saved |
| LogFolding.FoldedMeans | gorouter/internal/rtk/analysis.go:53-77 | the folded text joins one line for each canonical run: the line alone, or with its length after an x |
| LogFolding.RunsAreCanonical | gorouter/internal/rtk/analysis.go:53-74 | the runs expand back to the lines, none is empty and neighbours differ |
| LogFolding.RunsAreShortest | gorouter/internal/rtk/analysis.go:53-74 | no shorter run list expands to the same lines |
| LogFolding.RunsAreUnique | gorouter/internal/rtk/analysis.go:53-74 | no other canonical run list expands to the same lines |
| LogFolding.FoldAlikeIff | gorouter/internal/rtk/analysis.go:53-77 | two texts fold to the same if and only if they have equally many runs, pairwise equal or one folded and the other a single line that reads like it |
| LogFolding.SecondTextIff | gorouter/internal/rtk/analysis.go:62-66 | a text of one line folds to itself, and another text folds to it if and only if the line reads like a folded one |
| LogFolding.FoldingIsLossless | gorouter/internal/rtk/analysis.go:53-77 | texts without lines that read like folded ones fold to different texts |
| LogFolding.FoldingMayLose | gorouter/internal/rtk/analysis.go:62-66 | two different texts can fold to the same |
| LineFilters.ProcessDiff | gorouter/internal/rtk/gitdiff.go:12-37 | the output is the compressed lines, with the characters saved |
| LineFilters.HunkHeaderMeans | gorouter/internal/rtk/gitdiff.go:17 | a hunk header is two markers with one or more range characters between them, and anything after |
| LineFilters.FileHeaderMeans | gorouter/internal/rtk/gitdiff.go:20-24 | a file header starts with one of the four words |
| LineFilters.ElisionsAreSeparated | gorouter/internal/rtk/gitdiff.go:19-33 | the output is the surviving lines and elisions in the order of their positions; an elision stands where a hunk header was dropped, never first and never after a line reading so, and every hunk header not in such a place has one |
| LineFilters.DiffFilterIsIdempotent | gorouter/internal/rtk/gitdiff.go:12-37 | filtering a filtered diff changes nothing |
| LineFilters.ProcessTest | gorouter/internal/rtk/test.go:11-68 | exactly the empty, failing, summary and not passing lines stay |
| LineFilters.TestTextMeans | gorouter/internal/rtk/test.go:34-67 | by position: a line goes if and only if it is not empty, matches no failure and matches a pass |
| LineFilters.TestFilterIsIdempotent | gorouter/internal/rtk/test.go:34-67 | filtering filtered test output changes nothing, whatever the patterns |
| LineFilters.Append | gorouter/internal/rtk/analysis.go:119-120 | append writes in place while the capacity lasts, else into a fresh array |
| LineFilters.ProcessSummary | gorouter/internal/rtk/analysis.go:112-124 | short content is returned as it is; otherwise the lines joined are those the shared array holds |
| LineFilters.SummaryIsHeadAndTail | gorouter/internal/rtk/analysis.go:112-124 | first ten lines, markers and last ten original lines if and only if there are 23 lines or the overwritten ones read like the markers |
| ModelSync.ModelRepo.ListByProvider | gorouter/internal/db/dbmanager.go:905-914 | exactly the rows whose provider id or provider name is the given id, each once |
| ModelSync.ProviderHandler.Reconcile | gorouter/internal/handlers/admin/providers.go:326-386 | an empty request changes nothing; otherwise the whole store: rows go exactly when listed and not requested, of the others those listed last under their models get the last requested settings, and each request for a model without a row adds exactly one |
| ModelSync.AppliedMeans | gorouter/internal/handlers/admin/providers.go:337-352 | a request sets the settings, both prices as a thousand times the costs and whether the row is enabled, and nothing else |
| ModelSync.NewRowMeans | gorouter/internal/handlers/admin/providers.go:354-377 | every field of a new row |
| ModelSync.WinnersAreLast | gorouter/internal/handlers/admin/providers.go:328-331 | of several listed rows of one model the last is updated |
| ModelSync.StoredIsRequested | gorouter/internal/handlers/admin/providers.go:326-386 | afterwards a model is listed for the provider, by id or by name, if and only if it is requested |
| ModelSync.LastRequestIsCarried | gorouter/internal/handlers/admin/providers.go:334-379 | each requested model has a listed row with the settings of the last request for it |
| ModelSync.OwnedIff | gorouter/internal/handlers/admin/providers.go:326-386 | afterwards a row of a model bears the provider's id if and only if the model is requested and such a row was there before or none was listed |
| ModelSync.OwnedIsRequestedIff | gorouter/internal/handlers/admin/providers.go:326-386 | so the models of the rows with the provider's id, enabled or not, are the requested ones if and only if no requested model is listed by other providers' rows alone |
| ModelSync.FoundIff | gorouter/internal/handlers/admin/providers.go:326-386 | an enabled row of the provider's own exists for a model afterwards if and only if it is requested and an own row that stays ends up enabled, or, when none was listed, some request for it is active |
| ModelSync.RoutableIff | gorouter/internal/routing/router.go:54-64 | the router finds the provider under a name afterwards if and only if an own row that stays, with what it has become, or an added row answers to the name and is enabled |
| ModelSync.InactiveIsNotFound | gorouter/internal/handlers/admin/providers.go:346-370 | a requested model that is not active is stored for the provider and not found |
| ModelSync.OthersAreUntouched | gorouter/internal/handlers/admin/providers.go:381-385 | rows that do not list under the provider are neither changed nor removed nor added |
| ModelSync.UntouchedIff | gorouter/internal/handlers/admin/providers.go:334-385 | any row stays as it is if and only if it is not listed, or its model is requested and it is either not the last listed of its model or carries the last requested settings already |
| ModelSync.OtherProvidersSurviveWhen | gorouter/internal/db/dbmanager.go:905-914 | all rows of other providers survive if and only if none of them bears this provider's id as name under an unrequested model |
| ModelSync.OtherProviderMayLoseRow | gorouter/internal/db/dbmanager.go:905-914 | a row of another provider can be removed |
| ModelSync.OtherProviderMayBeOverwritten | gorouter/internal/db/dbmanager.go:905-914 | a row of another provider can be overwritten, and the provider itself then has no row of the requested model |

## Left out

- Clock and lock races in the limiter: the window lookup, the lock and the clock reading are one step here.
- The cached limits of `getLimit`: the limits a call uses are a parameter of the call.
- The quota check's branches on database errors, which allow the request, and the JSON quota repository, whose reset differs from the SQL meaning used here.
- Integer width: token sums, counters and durations are unbounded here.
- Character encoding: streams and compressed texts are sequences of characters, saved lengths count characters, and the cutting of a multi-byte character between reads is left to the decoder.
- Quota.QuotaStore.CheckQuota: the next reset time is a parameter, because calendar months are not modelled.
- Router.ByTier: picks a provider that may come first in the sort, by one pass instead of a sort, because only the first element is used.
- Router.ByWeighted: requires a total that is not negative, since the draw of the source panics otherwise.
- ModelSync.ModelRepo.ListByProvider: rows are values here; that the repository hands out the stored records themselves is not captured for models, as it is for providers.
- ModelSync.ProviderHandler.Reconcile: says nothing of timestamps, capabilities and tags. Which of several stored rows of one model is listed last is not determined, as the walk over the store has no fixed order; the contract holds for the order the call saw.
- Loading combos, models and providers: the error answers when the repository cannot be read.
- Combo.ComboManager.Execute: one execution is modelled with the answers it gets; other requests between its steps are the subject of `Cooldown`.
- The `jlouvain` community strategy, page colours, types and previews, and HTML rendering.
- The request path of `messages.go` for non-streaming calls, which repeats the one in `chat.go`.
- Token refresh, decryption, adapters and request translation: their failures are outcomes here.
- The error and JSON modes of the analysis filter, and the meaning of the patterns of the test filter.
- HTTP plumbing, metrics, audit logging and administration forms.
