# Redis-backed state machines of the video platform, verified

The platform keeps its fast state in Redis: rate-limiter keys, sessions, bounded ranking boards,
feeds, leases and counters. Each piece of code works on a small part of that state in place and
claims to agree with something simpler that it does not store: an unbounded log of admissions, a
tank that refills continuously, the top N of everything ever written, the true number of likes.
This project models those operations as they are written and proves the claims over all inputs and
all runs, or, where a claim fails, proves exactly when it holds and shows a run on which it does
not. Two event pipelines that sit beside Redis, the batcher of view events and the Kafka claim loop,
are treated the same way.

`dafny verify dfyconfig.toml` checks everything.

## How it is modelled

- A script or method that changes keys in place is a class with those keys as fields; its `ensures`
  equate the new state with a function of the old one, and the lemmas are about runs of that function.
- A run is a sequence of events. Clocks, tokens, ids, outcomes of handlers, session cancellation and the
  order in which concurrent parties move are inputs of the run, so a statement over all runs is one
  over all schedules.
- A Redis key that carries a time to live may be dropped by an event of its own. In the rate limiters and
  the lease lock that event is allowed from the key's deadline on, and need never come; the keys of
  boards, feeds and hashtag metadata and the like counter may be dropped at any time. A transaction
  that watches a metadata key is refused if the key is dropped, as it is since Redis 6.0.9. Session
  keys and the live-stream keys last up to and including their deadline.
- Scores of feeds and boards are integers, in whatever unit keeps them exact: sound scores are in
  thousandths of a point, feed scores in nanoseconds. Bucket tokens are real numbers.

| file | what it holds |
|---|---|
| `SortedSets.dfy` | Redis sorted sets: the rank order, trimming by rank, and when trimming at every write equals trimming once |
| `SlidingWindow.dfy`, `GatewayLimiter.dfy`, `TokenBucket.dfy` | the three rate-limiter scripts and their reference limiters |
| `RequestIds.dfy` | the request ids the rate limiter's own callers make from the clock |
| `Sessions.dfy`, `SessionRuns.dfy`, `SessionEffects.dfy`, `SessionGuarantees.dfy`, `SessionGrowth.dfy`, `SessionCache.dfy` | the session store: operations, the invariant of every run, what each operation leaves, what follows over runs, how many sessions there can be, and the imperative code |
| `Boards.dfy`, `TrendingCache.dfy`, `Leaderboard.dfy`, `LiveStreams.dfy` | boards trimmed at every write: trending tags and sounds under concurrency, gifters, live streams |
| `FeedCache.dfy`, `FeedPaging.dfy` | chunked fan-out, and paging by score cursor |
| `LeaseLock.dfy` | the lease lock |
| `Retries.dfy`, `ViewBatcher.dfy`, `ClaimConsumer.dfy` | bounded retry, the view batcher, the claim loop |
| `LikeCounter.dfy` | the like count kept in three places |

## Where the code and its own documentation disagree

The model follows the code. Each disagreement is a theorem below.

- `CreateSession` says that a session of the same device is replaced. No other is left on the device exactly
  if each live one there was the one the device is bound to or is evicted as surplus
  (`DeviceIsReplacedIff`). A session slides on use and its binding does not, so one device can end up
  with two live sessions (`TwoSessionsOnOneDevice`).
- `RevokeAllSessions` says that it invalidates every session of a user. It misses exactly those whose id is
  not in the index, which are those older than the present index key (`RevokeAllMissesTheUnindexed`,
  `SessionEscapesRevokeAll`).
- `MaxSessionsPerUser` is documented as the maximum number of sessions. It bounds the listed ones
  (`LiveBeyondTheCap`). `CreateSession` leaves at most that many live ones exactly if there are no more than
  that before it evicts, or it found none that it does not list: none older than the index key, or without
  one, but for the session it replaces (`CapHoldsIff`, `UnlistedAreLeftBehind`). A user can
  hold any number (`AnyNumberOfSessions`).
- The token bucket's key is said to outlive the time to fill. It does exactly if filling takes at least half
  a millisecond or the bucket holds nothing (`TwiceFillTimeOutlivesFill`). The rate bound needs less: it
  holds for every run exactly if filling takes that long or the bucket is smaller than one token, in which
  case nothing is granted at all; otherwise a burst in one millisecond exceeds it (`RateBoundIff`,
  `ShortLivedKeyBreaksBound`).
- The request id is said to prevent collisions within one millisecond. It is made from the clock, and so is
  the one of the global limit, so calls of one millisecond share a place: the limit is kept in all runs
  exactly if it is 1 or less (`ClockIdsKeepLimitIff`), and in any run whose admissions fall into
  different milliseconds (`SpacedRunsKeepLimit`).
- A live stream that stops reporting is said to drop off within the refresh interval. It stays for as
  long as any other stream reports (`ActiveIff`, `StaleStreamStays`).
- The gifter boards are said to hold the top 100. Throughout a history they do exactly if nobody who had been
  cut ever gives enough to belong there again (`BoardIsTopUntilComeback`); the highest total of all can be
  missing (`TopSenderUnseen`).
- `BatchSize` is documented as the maximum number of rows per batch. The batch sent at shutdown holds what
  was buffered and queued at the cancellation and all that is accepted until the loop returns, so a run
  keeps the limit exactly if that is no more than `BatchSize` rows (`ShutdownBatchIs`). While producers
  keep enqueuing nothing bounds it (`UnboundedShutdownBatch`); if they are quiet it stays below three times
  the limit, which it can reach but for one row (`ShutdownHandsOverEverything`, `WorstShutdownBatch`). It has
  one attempt only (`ShutdownBatchStoredIff`).
- A lock shorter than a millisecond is given up by `Extend`, which reports success (`ExtendKeepsIff`).
- Both retry loops are documented as making up to MaxRetries calls. They make one more exactly if all calls
  before the last fail and no wait is cut short (`AllCallsIff`, `OneMoreThanMaxRetries`, `AllAttemptsIff`).
- A next cursor of 0 is said to mean that no items remain. Following the cursor ends, having shown the whole
  feed, exactly if no page ends inside a tie and no score is negative (`PagingIsComplete`). Otherwise a tied
  entry is skipped (`TieIsSkipped`), a page that ends at score 0 hides what is below (`ZeroEndsTooEarly`),
  or the walk never ends (`WalkEndsIff`, `NegativeNeverEnds`). Of a feed within its window every walk ends
  exactly if no score is negative (`EveryWalkEndsIff`), and pages of every size show the whole exactly if
  besides no two scores are the same (`EveryPageSizeShowsAllIff`).
- `GetLikeCount` is wrong for good after Redis loses a key, unless a read brings it back or nobody
  liked the video at the time (`DriftIsConstant`, `CountCanBeNegative`).

## Model

| member | source | states |
|---|---|---|
| `SortedSets.Best` | database/redis/trending_cache.go:127 | a non-empty sorted set has exactly one highest entry under score, then byte order of members |
| `SortedSets.RankingIsRanking` | database/redis/feed_cache.go:183-188 | the rank order lists every member once, each outranking all that follow |
| `SortedSets.TopIsRankingPrefix` | database/redis/leaderboard_cache.go:144 | trimming by rank keeps exactly the first n positions of the rank order, min(n, size) entries |
| `SortedSets.TrimEachWriteExact` | database/redis/trending_cache.go:125-127 | trimming before and after a write equals trimming the untrimmed set once, if and only if the write does not drop a listed member below one cut earlier |
| `SortedSets.TrimEachWrite` | database/redis/trending_cache.go:333-334 | a write that lowers no score is always of that kind |
| `SortedSets.TopIdempotent` | database/redis/feed_cache.go:118 | trimming again to the same size removes nothing |
| `SlidingWindow.WindowKey.Attempt` | database/redis/rate_limit.go:36-67 | the script's new key and reply, both branches, as functions of the old key |
| `SlidingWindow.CallLeaves` | database/redis/rate_limit.go:45-66 | a call leaves the entries strictly inside the window, its own only if it was admitted, and a lifetime that only an admission renews |
| `SlidingWindow.LivesFromLastAdmission` | database/redis/rate_limit.go:54-57 | in every run the key may go exactly one lifetime after the latest admission |
| `SlidingWindow.NextIsGood` | database/redis/rate_limit.go:120-141 | every call and every key expiry keeps: the key counts what the full log counts over every window still of interest, and no window of the log is overfull |
| `SlidingWindow.WindowNeverOverfull` | database/redis/rate_limit.go:45-57 | in every run no interval (end - window, end] holds more than limit admissions |
| `SlidingWindow.ScriptRefinesLog` | database/redis/rate_limit.go:36-67 | eviction and expiry change no decision: the admissions are those of a log that never forgets |
| `SlidingWindow.RetryIsPositive` | database/redis/rate_limit.go:59-66 | a rejection under a positive limit is told a wait in (0, window] and the clamp at zero is unreachable |
| `SlidingWindow.RetryAfterIsExact` | database/redis/rate_limit.go:59-66 | after a rejection told to wait r, with any calls before now + r, a call at t is admitted if and only if t >= now + r |
| `SlidingWindow.PeekIsConservative` | database/redis/rate_limit.go:387-401 | the preview allows exactly if entries strictly inside plus those on the window's edge are below the limit; then the script admits |
| `GatewayLimiter.DecimalIsInjective` | backend/api-gateway/internal/middleware/rate_limiter.go:41 | different numbers are written differently |
| `GatewayLimiter.DecimalReadsBack` | backend/api-gateway/internal/middleware/rate_limiter.go:41 | reading the text of a number back gives the number, and it has digits only and no leading zero |
| `GatewayLimiter.MemberIsInjective` | backend/api-gateway/internal/middleware/rate_limiter.go:41 | the member now-count determines now and count |
| `GatewayLimiter.GatewayKey.Check` | backend/api-gateway/internal/middleware/rate_limiter.go:196-220 | the call is the sliding-window step with a key lifetime of two windows and its own member |
| `GatewayLimiter.CheckKeepsTwoWindows` | backend/api-gateway/internal/middleware/rate_limiter.go:25-47 | an admitted check adds the member now-count, for the number of calls the window held before, and the key stays for two windows |
| `GatewayLimiter.MemberIsFresh` | backend/api-gateway/internal/middleware/rate_limiter.go:39-42 | in every reachable key the member about to be added is not there |
| `GatewayLimiter.GatewayRunIsLegal` | backend/api-gateway/internal/middleware/rate_limiter.go:25-47 | every run with a clock that does not run back is a legal sliding-window run: no uniqueness assumption is left |
| `GatewayLimiter.GatewayRefinesLog` | backend/api-gateway/internal/middleware/rate_limiter.go:25-47 | so it admits exactly what the unbounded log admits and fills no window over the limit |
| `RequestIds.OwnIdTellsTimes` | database/redis/rate_limit.go:511 | ids of different milliseconds differ, for the per-user and for the global id |
| `RequestIds.SpacedRunsKeepLimit` | database/redis/rate_limit.go:509-525 | a run with the callers' own ids that admits no two calls in one millisecond keeps every window within the limit |
| `RequestIds.BurstPasses` | database/redis/rate_limit.go:599-607 | limit + 1 calls in one millisecond are all admitted, for every limit of 2 or more |
| `RequestIds.ClockIdsKeepLimitIff` | database/redis/rate_limit.go:593-607 | ids made from the clock keep every window of every run within the limit if and only if the limit is at most 1 or the window is empty |
| `TokenBucket.BucketKey.Take` | database/redis/rate_limit.go:79-114 | the script's new hash and reply, grant and refusal |
| `TokenBucket.RefillTwice` | database/redis/rate_limit.go:97-99 | two capped refills in a row equal one over the whole time |
| `TokenBucket.TokensAreConserved` | database/redis/rate_limit.go:97-113 | tokens granted in a stretch are at most the level at its start plus the refill, less the level at its end |
| `TokenBucket.RateBound` | database/redis/rate_limit.go:79-114 | over any stretch [t1, t2] of any run, grants are at most capacity + rate * (t2 - t1), key expiry included |
| `TokenBucket.ScriptRefinesTank` | database/redis/rate_limit.go:84-113 | from a new key, every decision of every run is that of a tank that starts full, refills continuously and never expires |
| `TokenBucket.RefusalsChangeNothing` | database/redis/rate_limit.go:108-113 | rejected calls, and expiry, never change the level at any later time |
| `TokenBucket.WaitIsExact` | database/redis/rate_limit.go:108-113 | after a rejection told to wait w, with no grant in between, a retry is granted from now + w on and at no earlier millisecond; it never is if the request exceeds the capacity |
| `TokenBucket.TwiceFillTimeOutlivesFill` | database/redis/rate_limit.go:560-563 | the key lifetime covers a full refill if and only if capacity is zero or filling takes at least half a millisecond |
| `TokenBucket.RateBoundIff` | database/redis/rate_limit.go:553-572 | with the lifetime the caller passes, every stretch of every run keeps to the rate bound if and only if the capacity is below one token or filling takes at least half a millisecond |
| `TokenBucket.ShortLivedKeyBreaksBound` | database/redis/rate_limit.go:101-105 | with a lifetime of zero and room for a token, some run grants more than the capacity in one millisecond |
| `SessionCache.Cache.GetSession` | database/redis/session_cache.go:176-206 | found, expired or not found, and the slide of a found session |
| `SessionCache.Cache.RefreshSession` | database/redis/session_cache.go:218-246 | rotation: new token stored, old one revoked to the new expiry |
| `SessionCache.Cache.RevokeSessionByID` | database/redis/session_cache.go:256-282 | session, index entry and binding go, token is revoked; a missing session only loses its key |
| `SessionCache.Cache.CollectSessions` | database/redis/session_cache.go:297-317 | the loop gathers exactly the keys and tokens of the sessions that exist and unbinds their devices |
| `SessionCache.Cache.RevokeAllSessions` | database/redis/session_cache.go:286-332 | every indexed session, the index and the bindings go and the tokens are revoked |
| `SessionCache.Cache.ListUserSessions` | database/redis/session_cache.go:414-468 | the listing holds exactly the live indexed sessions, and the rest is named stale |
| `SessionCache.Cache.EnforceSessionLimit` | database/redis/session_cache.go:537-558 | the surplus is evicted from the front of an order by creation time |
| `SessionCache.Cache.StoreSession` | database/redis/session_cache.go:142-168 | release of the bound session, then session, index and binding written together |
| `SessionCache.Cache.CreateSession` | database/redis/session_cache.go:124-171 | both halves of session creation, in order |
| `SessionCache.Cache.IsTokenRevoked` | database/redis/session_cache.go:373-387 | revoked exactly if listed and the expiry second has not passed |
| `SessionCache.Cache.PruneRevokedTokens` | database/redis/session_cache.go:394-401 | entries up to the present second go, and their number is returned |
| `SessionCache.SortByCreation` | database/redis/session_cache.go:546-549 | a permutation in order of creation |
| `SessionEffects.GetSlides` | database/redis/session_cache.go:196-203 | reading a live session gives it a full lifetime from now and changes nothing else; reading any other changes nothing |
| `SessionEffects.RefreshRotates` | database/redis/session_cache.go:218-246 | in every reachable store a refreshed session holds the new token for a full lifetime, its former token is reported revoked exactly until the second that lifetime ends in begins, the new one is not, and every other session, token, index and binding is as it was |
| `SessionEffects.RevokeEnds` | database/redis/session_cache.go:256-282 | a revoked session is gone, with its index entry, an index key left empty, and its device's binding; its token is reported revoked for a full lifetime; nothing else changes |
| `SessionEffects.RevokeAllEnds` | database/redis/session_cache.go:286-332 | exactly the sessions in the index go, with the index key and the bindings of their devices; each token is reported revoked until the end of the life its session had left; nothing else changes |
| `SessionEffects.PurgeUnlists` | database/redis/session_cache.go:455-465 | the clean-up takes exactly the stale ids from the index, and its key if nothing is left |
| `SessionEffects.PruneForgets` | database/redis/session_cache.go:394-401 | a prune forgets exactly the tokens whose recorded second has begun |
| `SessionEffects.TickDrops` | database/redis/session_cache.go:23-30 | as time passes exactly the keys past their deadline go, and no revoked token |
| `SessionEffects.CreateLeaves` | database/redis/session_cache.go:124-171 | the new session is there as asked for, listed and bound, each with its own lifetime; of what was there only the session bound to the device and the surplus, oldest first, are gone, with their index entries, bindings and tokens |
| `Sessions.GetKeeps` | database/redis/session_cache.go:176-206 | reading keeps the invariant of the four structures and every session and token |
| `Sessions.RefreshKeeps` | database/redis/session_cache.go:218-246 | rotation keeps the invariant and accounts for the old token |
| `Sessions.RevokeKeeps` | database/redis/session_cache.go:256-282 | revocation keeps the invariant and accounts for the token |
| `SessionRuns.RevokeAllKeeps` | database/redis/session_cache.go:286-332 | so does revoking all |
| `SessionRuns.CreateKeeps` | database/redis/session_cache.go:124-171 | so does creation with its evictions |
| `SessionRuns.PurgeKeeps` | database/redis/session_cache.go:455-465 | so does the background clean-up of stale index entries |
| `SessionRuns.RunIsGood` | database/redis/session_cache.go:124-401 | every run of create, get, refresh, revoke, revoke-all, purge, prune and clock steps keeps the invariant |
| `SessionGuarantees.BindingsNameLiveSessions` | database/redis/session_cache.go:146-158 | in every run a device binding names a live session of that user on that device, which outlives it |
| `SessionGuarantees.IndexFollowsAge` | database/redis/session_cache.go:155-157 | indexes hold live sessions of their own user only, and a live session is missing exactly if it is older than the present index key |
| `SessionGuarantees.LiveTokenIsNotRevoked` | database/redis/session_cache.go:373-387 | a live session's current token is never reported revoked |
| `SessionRuns.RetirementIsRecorded` | database/redis/session_cache.go:239-275 | a token that stops being current other than by expiry is recorded: until a whole lifetime from now, or, in a revocation of all, until the expiry its session had |
| `SessionGuarantees.RetiredTokenStaysRevoked` | database/redis/session_cache.go:239-275 | in every run such a token is reported revoked from then on until the second written for it, whatever comes after and whatever is pruned |
| `SessionGuarantees.PruneIsInvisible` | database/redis/session_cache.go:394-401 | a prune changes an answer at q >= p if and only if q = p and the expiry second begins then |
| `SessionGuarantees.SurvivorsAreTheNewest` | database/redis/session_cache.go:546-556 | the evicted are the front of the order by creation, the rest stays |
| `SessionGuarantees.EnforceCaps` | database/redis/session_cache.go:537-558 | at most ten stay, none goes needlessly, none that goes is newer than one that stays, and tokens of those that go are recorded as revoked for a whole lifetime |
| `SessionGuarantees.SessionCap` | database/redis/session_cache.go:124-171 | creation leaves such a set, with the new session in it unless another was created at the same instant |
| `SessionGuarantees.DeviceIsReplacedIff` | database/redis/session_cache.go:122-171 | creation leaves no other session on the device if and only if each live one there was the bound one or is among the surplus evicted |
| `SessionGuarantees.RevokeAllMissesTheUnindexed` | database/redis/session_cache.go:284-332 | a session survives if and only if its id is not in the index, that is, if its user has no index key or it is older than that key |
| `SessionGuarantees.CapHoldsIff` | database/redis/session_cache.go:32-34 | creation leaves at most ten live sessions if and only if there are at most ten before its eviction or all of those are listed |
| `SessionGuarantees.UnlistedAreLeftBehind` | database/redis/session_cache.go:146-157 | not listed after a creation are exactly the user's live sessions it found that it does not replace and that are older than the index key, or found without one; live are the new one and all it does not replace |
| `SessionGuarantees.LiveBeyondTheCap` | database/redis/session_cache.go:535-558 | the eviction leaves min(listed, ten) listed sessions and every one that is not listed, and the live ones are these two |
| `SessionGrowth.AnyNumberOfSessions` | database/redis/session_cache.go:155-157 | for every n some run ends with n live sessions of one user |
| `SessionGuarantees.TwoSessionsOnOneDevice` | database/redis/session_cache.go:146-158 | a run that ends with two live sessions on one device |
| `SessionGuarantees.SessionEscapesRevokeAll` | database/redis/session_cache.go:284-295 | a run in which signing out everywhere leaves a session live |
| `Boards.BoardIsExactIff` | database/redis/trending_cache.go:115-133 | a board trimmed at every write shows the top n of all latest scores throughout if and only if no write drops a listed member below one cut earlier |
| `Boards.GrowingBoardIsExact` | database/redis/trending_cache.go:125-127 | with scores that never fall it always does |
| `TrendingCache.Trending.Watch` | database/redis/trending_cache.go:314 | WATCH: the key's writes so far are what a later EXEC is compared with |
| `TrendingCache.Trending.Get` | database/redis/trending_cache.go:315-324 | a command of its own, after which the transaction holds what is stored by then plus its deltas |
| `TrendingCache.Trending.Exec` | database/redis/trending_cache.go:329-341 | the commit half: refused if the key was written meanwhile, otherwise counts and boards change together |
| `TrendingCache.Trending.UpsertAll` | database/redis/trending_cache.go:331-336 | all three boards get the score and are trimmed |
| `TrendingCache.CountsAreSums` | database/redis/trending_cache.go:311-342 | under every interleaving of WATCH, GET, EXEC and key lapses stored counts are the sums of the deltas committed since the tag's metadata was last lost: nothing lost, nothing aborted leaks in |
| `TrendingCache.CommitsIff` | database/redis/trending_cache.go:314-341 | over all interleavings a commit is let through if and only if since its own WATCH no commit of the same tag was and its metadata was not lost; it then adds its deltas to what is stored, and otherwise changes nothing |
| `TrendingCache.UninterruptedCommits` | database/redis/trending_cache.go:314-341 | from every reachable store WATCH, GET and EXEC with nothing in between add exactly the deltas |
| `TrendingCache.CommitKeepsExactIff` | database/redis/trending_cache.go:329-336 | a commit keeps a board exact if and only if its score does not drop the tag below one cut earlier |
| `TrendingCache.BoardIsExactIff` | database/redis/trending_cache.go:329-336 | under every interleaving, lapses of metadata and boards included, a board is the top of all latest scores throughout since its last drop if and only if no write since drops a listed tag below one cut |
| `TrendingCache.OnlyLapsedTagsDrop` | database/redis/trending_cache.go:315-324 | with non-negative deltas that takes a tag whose metadata lapsed while its old score stayed on the board |
| `TrendingCache.BoardsAreExact` | database/redis/trending_cache.go:412-445 | under every interleaving of non-negative updates without a metadata lapse, each board is the top 200 tags, or top 100 sounds, by true totals, of all updated since the board was last dropped |
| `TrendingCache.BoardCoversEverything` | database/redis/trending_cache.go:331-336 | for a board that never lapsed these are all tags ever updated |
| `Leaderboard.Gifters.RecordGift` | database/redis/leaderboard_cache.go:132-151 | every period's board is credited and trimmed; the scores returned are those before the trim |
| `Leaderboard.EachBoardIsItsGifts` | database/redis/leaderboard_cache.go:310-328 | each board depends only on the gifts since it was last dropped |
| `Leaderboard.NeverOverstated` | database/redis/leaderboard_cache.go:142-144 | at most 100 members; a score is the sender's total less what was given by the last absence from the board, so never above the total |
| `Leaderboard.ExactForAllIff` | database/redis/leaderboard_cache.go:132-151 | the board is the map of all true totals if and only if at most 100 people have sent anything |
| `Leaderboard.ShutOutIff` | database/redis/leaderboard_cache.go:142-144 | an unlisted sender's gift leaves a full board as it was if and only if every entry outranks that one gift |
| `Leaderboard.GivesUnseen` | database/redis/leaderboard_cache.go:142-144 | such a sender can reach any total without being listed |
| `Leaderboard.CreditExactIff` | database/redis/leaderboard_cache.go:142-144 | one gift keeps a board that is the top 100 of the true totals so, if and only if it lowers no listed sender below one cut and comes from no one whose cut score now counts |
| `Leaderboard.BoardIsTopIff` | database/redis/leaderboard_cache.go:132-151 | the board is the top 100 of the true totals throughout a history if and only if every gift of it is of that kind |
| `Leaderboard.BoardIsTopUntilComeback` | database/redis/leaderboard_cache.go:132-151 | for non-negative gifts: if and only if nobody cut with a positive total ever gives enough to belong in the top 100 again |
| `Leaderboard.TopSenderUnseen` | database/redis/leaderboard_cache.go:142-144 | a history after which the highest total of all is not on the board |
| `LiveStreams.Rankings.UpdateLiveStreamViewers` | database/redis/leaderboard_cache.go:430-447 | current count replaced, peak raised only, both lifetimes renewed |
| `LiveStreams.Rankings.EndLiveStream` | database/redis/leaderboard_cache.go:500-518 | the stream leaves the active board and keeps its peak |
| `LiveStreams.ActiveIff` | database/redis/leaderboard_cache.go:424-444 | a stream is shown, with its latest count, if and only if the reports of all streams together renewed the key in time ever since |
| `LiveStreams.EndedIsGone` | database/redis/leaderboard_cache.go:498-502 | an ended stream that does not report again is not shown |
| `LiveStreams.StaleStreamStays` | database/redis/leaderboard_cache.go:442-444 | a run in which a silent stream is still shown after the refresh interval |
| `LiveStreams.PeakIsHighest` | database/redis/leaderboard_cache.go:436-440 | over a stretch without a lapse the peak board holds exactly the streams that reported, each with its highest count |
| `LiveStreams.PeaksLastFromReports` | database/redis/leaderboard_cache.go:441-446 | the peak board lasts 26 hours from the latest report of any stream |
| `LiveStreams.ActiveWithinPeak` | database/redis/leaderboard_cache.go:430-447 | an active stream is on the peak board with at least its current count |
| `FeedCache.Feeds.FanOut` | database/redis/feed_cache.go:111-122 | each key of the chunk gets the video and is trimmed, in order |
| `FeedCache.Feeds.PushToFollowingFeed` | database/redis/feed_cache.go:234-267 | the chunk loop equals inserting for each follower one by one |
| `FeedCache.Feeds.AppendToForYouFeed` | database/redis/feed_cache.go:205-216 | one insertion and trim on one feed |
| `FeedCache.FanOutReachesEach` | database/redis/feed_cache.go:248-265 | however followers are ordered or repeated, each listed feed gets the video once and all others are untouched |
| `FeedCache.FeedIsTheLatest` | database/redis/feed_cache.go:111-122 | in every run each feed is the 200 latest of the videos pushed to it since it was last dropped |
| `FeedPaging.HydrateResults` | database/redis/feed_cache.go:574-606 | the items are the ids at exactly the positions whose metadata is there, in the order of the results, and the cursor is the last entry's score all the same |
| `FeedPaging.GetPage` | database/redis/feed_cache.go:171-200 | a page and its items, for any cursor and limit: the highest entries below the cursor, as many as the corrected limit, and of those the ones with metadata |
| `FeedPaging.PageIsPage` | database/redis/feed_cache.go:171-188 | a page holds entries of the feed below the cursor in rank order, at most 1 to 200 as asked for or else 20, and an entry is left out only if the page is full of higher ones |
| `FeedPaging.ItemsHaveMetadata` | database/redis/feed_cache.go:590-603 | an id is among the items if and only if it is the id of an entry of the page and its metadata is there |
| `FeedPaging.ItemsAreUnique` | database/redis/feed_cache.go:590-603 | which items these are, how often and in what order, is settled by the page and the metadata |
| `FeedPaging.PageAdvances` | database/redis/feed_cache.go:177-188 | a positive cursor admits strictly less than its page was taken from |
| `FeedPaging.FollowsCourse` | database/redis/feed_cache.go:273-303 | from any cursor and for any number of requests: the client is told to stop if and only if no page it reaches ends below zero, after as many requests as there are pages, having been shown them |
| `FeedPaging.WalkEndsIff` | database/redis/feed_cache.go:167-200 | a client that follows the cursor is ever told to stop if and only if no page it reaches ends below zero |
| `FeedPaging.NonNegativeEnds` | database/redis/feed_cache.go:167-200 | without negative scores, ties or not, every walk is told to stop |
| `FeedPaging.EveryWalkEndsIff` | database/redis/feed_cache.go:167-200 | of a feed within its window, walks of every page size end if and only if no score is negative |
| `FeedPaging.ItemsAreVisited` | database/redis/feed_cache.go:591-603 | missing metadata changes nothing about the course of a walk, and over the whole walk the items are the ids at exactly the positions shown whose metadata is there, in order |
| `FeedPaging.PagingIsComplete` | database/redis/feed_cache.go:167-200 | whatever the scores, a walk from 0 ends having shown the whole feed once in rank order if and only if no page ends inside a tie and no score is negative; a walk that ends otherwise has missed an entry |
| `FeedPaging.DistinctScoresCutCleanly` | database/redis/feed_cache.go:167-170 | distinct scores leave no tie to cut, whatever the page size |
| `FeedPaging.DistinctFeedIsShown` | database/redis/feed_cache.go:167-200 | a feed of distinct scores, none negative, is shown whole and in order by a walk of any page size |
| `FeedPaging.EveryPageSizeShowsAllIff` | database/redis/feed_cache.go:167-200 | of a feed within its window, walks of every page size show the whole if and only if no two scores are the same and none is negative |
| `FeedPaging.TieIsSkipped` | database/redis/feed_cache.go:178-181 | a feed of which a tied entry across a page's end is not shown |
| `FeedPaging.ZeroEndsTooEarly` | database/redis/feed_cache.go:590-592 | a feed with a page ending at score 0, after which an entry is left and the client told to stop |
| `FeedPaging.NegativeNeverEnds` | database/redis/feed_cache.go:177-181 | a feed with a page ending below zero, on which the walk never ends |
| `LeaseLock.LeaseMs` | shared/pkg/cache/redis.go:296 | a lease of whole milliseconds, never above the one asked for unless that is below one |
| `LeaseLock.Redis.AcquireLock` | shared/pkg/cache/redis.go:292-304 | set only if absent: for a positive lease with that lease, otherwise with one of 30 seconds, in the key's deadline and in the handle |
| `LeaseLock.Redis.Release` | shared/pkg/cache/redis.go:307-316 | deleted by its owner only, and the answer says so |
| `LeaseLock.Redis.Extend` | shared/pkg/cache/redis.go:320-330 | prolonged by its owner only, and the answer says so |
| `LeaseLock.MutualExclusion` | shared/pkg/cache/redis.go:292-330 | over all interleavings with unique tokens at most one handle holds an unexpired lease on a key |
| `LeaseLock.HeldExactlyUntil` | shared/pkg/cache/redis.go:292-304 | in every run a free key acquired at t is held while now < t + lease and no longer, unless its holder extends or releases it: until then the key is in Redis with its token, and from then on Redis may drop it |
| `LeaseLock.ExtendedExactlyUntil` | shared/pkg/cache/redis.go:320-330 | the same from the time of an extension by a holder whose key is still there |
| `LeaseLock.HolderIsServed` | shared/pkg/cache/redis.go:266-278 | while a lease is held its owner is recognised and every other handle's release or extension leaves the key as it is |
| `LeaseLock.ReleaseTwice` | shared/pkg/cache/redis.go:306-316 | releasing again is refused and changes nothing |
| `LeaseLock.ExtendKeepsIff` | shared/pkg/cache/redis.go:320-330 | an owner's extension keeps the key, for a full lease, if and only if the lease is at least a millisecond |
| `Retries.WithRetry` | database/clickhouse/client/clickhouse_client.go:169-200 | how many calls are made and why the loop stopped, and success exactly if the last call succeeded |
| `Retries.SuccessIsFound` | database/clickhouse/client/clickhouse_client.go:169-200 | work that succeeds within the limit is found to, after exactly the calls it took |
| `Retries.AllCallsIff` | database/clickhouse/client/clickhouse_client.go:171-188 | MaxRetries + 1 calls are made if and only if all before the last fail and no wait is cut short |
| `Retries.OneMoreThanMaxRetries` | database/clickhouse/client/clickhouse_client.go:171 | work that always fails is called MaxRetries + 1 times |
| `Retries.EndedContextAllowsOneCall` | database/clickhouse/client/clickhouse_client.go:183-187 | a context that has ended leaves one call, whatever the limit |
| `ViewBatcher.Batcher.Enqueue` | database/clickhouse/client/clickhouse_client.go:679-686 | accepted at the end of the channel, or shed exactly when the channel is full |
| `ViewBatcher.Batcher.Flush` | database/clickhouse/client/clickhouse_client.go:697-705 | a non-empty buffer is handed over as one batch, which is stored if the retry loop succeeds and gone otherwise |
| `ViewBatcher.Batcher.RunLoop` | database/clickhouse/client/clickhouse_client.go:707-721 | the select loop does, event by event, what the state machine does |
| `ViewBatcher.Batcher.Drain` | database/clickhouse/client/clickhouse_client.go:720-733 | so does the inner loop entered on cancellation |
| `ViewBatcher.Conservation` | database/clickhouse/client/clickhouse_client.go:679-733 | at every step accepted views = handed over ++ buffer ++ channel, in order |
| `ViewBatcher.BatchesAreBounded` | database/clickhouse/client/clickhouse_client.go:710-721 | batches hold 1 to BatchSize rows, the last one at shutdown excepted, and the channel never exceeds its capacity |
| `ViewBatcher.SentExactly` | database/clickhouse/client/clickhouse_client.go:710-719 | a running loop hands over what is buffered at a tick or a close, a batch of exactly BatchSize rows with the view that completes it, and nothing at any other time |
| `ViewBatcher.TickHandsOver` | database/clickhouse/client/clickhouse_client.go:718-719 | right after a tick, in any run, the buffer is empty and everything received so far has been handed over |
| `ViewBatcher.StaysHandedOver` | database/clickhouse/client/clickhouse_client.go:697-719 | so whatever was received before a tick is, in every continuation, in the batches, in the order it was accepted |
| `ViewBatcher.ShutdownBatchIs` | database/clickhouse/client/clickhouse_client.go:720-733 | whatever producers do during the drain, a run stopped by cancellation has sent since one batch of what was buffered and queued and what was accepted until the return, and keeps the batch size if and only if that batch does |
| `ViewBatcher.UnboundedShutdownBatch` | database/clickhouse/client/clickhouse_client.go:56-57 | for every batch size and every n a run whose batch at shutdown has n rows |
| `ViewBatcher.ShutdownHandsOverEverything` | database/clickhouse/client/clickhouse_client.go:720-733 | with quiet producers the loop can always go on, stops exactly one step after it has received what the channel held, and has handed everything over once, in one last batch of up to 3 * BatchSize - 1 rows |
| `ViewBatcher.WorstShutdownBatch` | database/clickhouse/client/clickhouse_client.go:671-672 | for every batch size a run with quiet producers whose last batch has 3 * BatchSize - 1 rows |
| `ViewBatcher.ShutdownBatchCanExceed` | database/clickhouse/client/clickhouse_client.go:56-57 | a run whose last batch is over the batch size |
| `ViewBatcher.AcceptedTooLate` | database/clickhouse/client/clickhouse_client.go:679-686 | views accepted after the loop returned are never handed over |
| `ViewBatcher.EveryViewOnce` | database/clickhouse/client/clickhouse_client.go:679-733 | at every step each accepted view is, as often as it was accepted, in a stored batch, in one whose insert failed, in the buffer or in the channel |
| `ViewBatcher.StoredAreThose` | database/clickhouse/client/clickhouse_client.go:697-705 | the batches stored are exactly those whose own insert succeeds, in the order they were sent |
| `ViewBatcher.ShutdownBatchStoredIff` | database/clickhouse/client/clickhouse_client.go:697-705 | the batch sent on a context that has ended is stored if and only if its one attempt succeeds |
| `ClaimConsumer.GroupHandler.ConsumeClaim` | shared/pkg/kafka/consumer.go:165-180 | the whole trace of a claim: per message its handler calls, its dead letter if owed, its mark and a commit |
| `ClaimConsumer.GroupHandler.ProcessWithRetry` | shared/pkg/kafka/consumer.go:183-203 | the calls made, whether one succeeded, and the reason otherwise |
| `ClaimConsumer.GroupHandler.SendToDLQ` | shared/pkg/kafka/consumer.go:206-224 | one letter with the original's coordinates, or nothing without a topic or producer |
| `ClaimConsumer.HandlerIsBounded` | shared/pkg/kafka/consumer.go:183-203 | at most MaxRetries + 1 calls, none after a success; it succeeds if and only if some reached attempt does; giving up early means the session ended during a wait |
| `ClaimConsumer.AllAttemptsIff` | shared/pkg/kafka/consumer.go:183-203 | MaxRetries + 1 calls are made if and only if all before the last fail and the session does not end during a wait |
| `ClaimConsumer.ClaimIsAccounted` | shared/pkg/kafka/consumer.go:165-180 | every message is marked exactly once, in order; handler calls and dead letters are exactly those owed |
| `ClaimConsumer.FailedAreRestored` | shared/pkg/kafka/consumer.go:206-224 | the dead letters give back, in order, exactly the messages none of whose attempts succeeded |
| `ClaimConsumer.MarkedIsSettled` | shared/pkg/kafka/consumer.go:169-178 | wherever the loop is cut off, what it marked is a prefix, each with all its calls made and its letter sent before |
| `ClaimConsumer.EachMarkIsCommitted` | shared/pkg/kafka/consumer.go:174-177 | every mark of a claim is followed by a commit at once, and there is no other commit |
| `ClaimConsumer.LetterTellsWhy` | shared/pkg/kafka/consumer.go:185-202 | a dead letter says that the session ended if it ended during a wait, and otherwise that MaxRetries + 1 attempts failed |
| `LikeCounter.LikeService.InsertLike` | backend/like-service/internal/repositories/like_repository.go:35-52 | a new like raises the row, a known one is refused and changes nothing |
| `LikeCounter.LikeService.DeleteLike` | backend/like-service/internal/repositories/like_repository.go:54-66 | a known like is deleted and the row lowered, clamped at zero |
| `LikeCounter.LikeService.LikeVideo` | backend/like-service/internal/services/like_service.go:49-67 | table, row and Redis counter after a like |
| `LikeCounter.LikeService.UnlikeVideo` | backend/like-service/internal/services/like_service.go:69-83 | table, row and Redis counter after an unlike |
| `LikeCounter.LikeService.GetLikeCount` | backend/like-service/internal/services/like_service.go:89-101 | the Redis value, filled from the row if absent |
| `LikeCounter.RowIsCardinality` | backend/like-service/internal/repositories/like_repository.go:35-66 | in every run, key loss included, the row is the number of likes and the clamp never fires |
| `LikeCounter.TableIsTheLastWord` | backend/like-service/internal/repositories/like_repository.go:35-66 | in every run the table holds exactly the likes given and not taken back since |
| `LikeCounter.ThreeWayAgreement` | backend/like-service/internal/services/like_service.go:49-101 | without key loss likes, row and Redis value agree and the count returned is the number of likes |
| `LikeCounter.DriftIsConstant` | backend/like-service/internal/services/like_service.go:89-101 | from the event that last created the Redis key the value is short by exactly the likes that event did not see, for good |
| `LikeCounter.CountCanBeNegative` | backend/like-service/internal/services/like_service.go:69-76 | a run after which the count returned is -1 with no likes |

## Left out

- Sliding-window `CheckN` with n > 1 (database/redis/rate_limit.go:513-517): it lowers the limit but records one entry, so n slots are not consumed.
- The token-bucket half of `Peek` and any claim that `Peek` equals the script: only the implication is true.
- Floating point: rounding of scores and tokens, and how Lua renders times of 10^14 milliseconds and more; tokens are reals, times and scores integers.
- Clocks that run backwards, and the several clock readings inside one session operation, which are one instant here.
- Interleaving inside one session, like or unlike operation: each call is one step. The session clean-up that runs in the background is its own step.
- SessionCache.Cache.EnforceSessionLimit: which of several sessions created at the same instant goes first is left open, as an unstable sort leaves it.
- `RevokeToken`, `RevokeSessionsByIP`, session statistics, and profile fields of sessions, which no modelled operation decides on.
- JSON encoding and the metadata keys of feeds, boards and streams. Feed metadata is written under the author's id and read under the viewer's (database/redis/feed_cache.go:152, 298), so its presence is an arbitrary set of ids.
- Video trend scores decay (database/redis/trending_cache.go:149-157), so their boards are not exact in general; `Boards.BoardIsExactIff` gives the condition for any scores.
- `BulkUpdateVideoScores`, `SetForYouFeed`, creator scores (`IncrCreatorScore` does not trim), removal of single entries, and the snapshot and reset of leaderboards except as the drop of a key.
- LeaseLock.LeaseMs: the rounding of a lease below a millisecond is done by the Redis driver, which is not part of this model; one millisecond is taken.
- Network errors and lost replies of Redis, Postgres, ClickHouse and Kafka: a call either has its effect or is not made.
- ViewBatcher.Batcher.Flush: an insert either stores the whole batch or nothing; a send that fails after storing rows, and is retried, stores them twice.
- ViewBatcher.BatchesAreBounded: a batch size of zero, which makes the channel unbuffered, is not covered; nor is a channel closed and cancelled at once, which no code does.
- ClaimConsumer.GroupHandler.SendToDLQ: whether the producer accepts the letter; a failure is logged and the message is marked all the same.
- HTTP handlers, routing, configuration, telemetry, storage, authentication, search queries and the mobile app: plumbing, or libraries whose code is not here.
