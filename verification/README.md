# DashKoda: verified model

A Dafny 4.11 model of the parts of DashKoda that are hardest to get right, with proofs of what
they promise. `dafny verify dfyconfig.toml` checks all of it.

**The archive backfill.** The Koda.ee consultation archive is a newest-first paginated listing. A
run walks it (an incremental walk stops after some pages it already knows), merges the walk with
the previous snapshot, carries detail pages already read forward, spends a request budget on ranked
priority candidates and then on a recent window, counts what is left with a separately written
walk, and publishes an immutable snapshot.
- `ArchiveListing`, `ListingWalk`, `ListingLaws`: the walk, what it collects from a consistent site, what it
  refuses, where it stops and which edits it notices.
- `ArchiveMerge`: merging and carrying forward; the incremental index equals the full one.
- `Hydration`, `BudgetLaws`, `WindowProgress`, `RecentWindow`, `BackfillProgress`, `BackfillLimits`: the two
  passes, greedy spending, agreement of the two window walks, the window they walk described without
  them, termination of the backfill, and two inputs that show where the guarantee ends.
- `ArchiveCounts`, `ArchiveFeed`, `FeedInvariants`, `FeedMeaning`, `FeedTracking`, `FeedLimits`: the counters, the
  run as a step of a state machine, what every run keeps, what it stores and reports, whole histories of a growing archive, and the pages
  that block it.

**The PIN rate limiter** (`PinRateLimit`): a fixed window, a counter and a lock, proved to give a
sliding bound over every run of every mix of clients.

**The two matchers.** `ArchiveScoring`, `ScoringLaws`, `ArchiveMatching`, `ArchiveMatchRun` (legal records against
archived consultations, and the publication verifier) and `EventMatching` (programme events against
public pages): sort-and-compare code equals "unique clear winner".

**Smaller cores.** `TrendBands` (hover strips as a Voronoi tiling), `AttentionWindows` (bucketed
window sums for a batch of events), `EventSitemap`, `EventKeys` and `EventDiscovery` (which pages a run
asks for, their keys, and a dry run that predicts the live one), `ProgrammeFilters` (a filter
state printed and parsed back), `LegalAnalytics` (conservation laws), `Redaction` (recursive masking).

`Basics`, `Sorting` and `Lexicographic` hold what these share.

Methods follow the source's loops and in-place updates; each is proved equal to a function, or to
satisfy a declarative contract, and the theorems are about those functions.

Findings where an expected property does not hold of the code as it stands, each with an input at which
it fails and the exact condition under which it holds:
- A live run that starts with recent work pending need not read a new page: retrying a failed
  candidate can close the recent window (`BackfillLimits.RetryCanCloseWindow`, an archive the table
  accepts and pages a fetch can return). `BackfillProgress.AlwaysShrinksIff` gives the condition; every
  run still reads a new page or ends with nothing pending, and fewer runs than there were unread pages
  end with work pending.
- A page that is read without text blocks the feed. `hydrate_detail` looks for markup before it strips it, so
  a page whose markup holds no text comes back as read with an empty body; the table refuses the whole run,
  the page stays unread, and the next run asks for it again. A live run that walks the archive publishes it
  iff no page it asks for is blank and every address fits the table, or nothing was added
  (`FeedTracking.RunTracks`); blank pages then fail every run for ever (`FeedLimits.BlankPagesBlock`, one page
  being enough: `FeedLimits.OneBlankPageBlocks`, and from an empty feed `FeedLimits.ColdStartBlocks`). Apart
  from the runs that ask for one, the backfill ends (`FeedTracking.FeedFinishes`).
- The limiter's counter passes five if the clock steps back between attempts, which is possible
  because it is read before the row is locked (`PinRateLimit.ClockMustNotStepBack`). For any clock the
  limit holds iff every failure that sets the lock is not before its window (`PinRateLimit.LimitHoldsIff`).
- A filter URL does not reproduce its state exactly when the hundred-character cut leaves the search
  text ending in a blank (`ProgrammeFilters.CutSearchLosesBlank`, `ProgrammeFilters.RoundTripIff`).
- A discovery dry run predicts the live run iff the table has room for every event page and no page that
  would be written is asked for twice (`EventDiscovery.DryPredictsLiveIff`). A list `[u, u]` is counted
  differently (`EventDiscovery.RepeatedPageMiscounted`), and a new page listed both with and without a trailing
  slash has one stable key, so the live run is refused where the dry run promises two pages
  (`EventDiscovery.TrailingSlashRefused`). Listed pages share a key iff their names agree in the first two
  hundred characters (`EventKeys.ListedClashIff`). `sitemap_event_urls` already
  removes duplicates, so a repeated list reaches the code only through the `urls` argument of
  `discover_public_events`; after a sitemap walk only the table matters (`EventDiscovery.SitemapRunPredicts`).
- The monthly sent figures exceed the annual one when an opinion is dated after the reporting year
  (`LegalAnalytics.FutureOpinionDisagrees`, `LegalAnalytics.MonthlyEqualsAnnualIff`).
- In double precision a page that scores 1.0 does not lead one that scores 0.8 by the 0.20 margin, because
  the difference is 0.19999999999999996: the event is ambiguous (`EventMatching.FifthIsNotEnough`). The
  matcher is therefore modelled over any order-preserving rounding, exact arithmetic being one.

## Model

| member | source | states |
|---|---|---|
| ArchiveListing.ReadPage | apps/legal_work/archived_topics.py:248-285 | the card loop: refuses a forbidden link, a repeated address or a missing title in that order, otherwise appends every card and says whether all were known and unchanged |
| ArchiveListing.CollectArchiveIndex | apps/legal_work/archived_topics.py:197-324 | the page loop with its fingerprint, volume, pager, early-stop and page-cap exits computes the walk function for every site, including failing fetches |
| ListingWalk.ReadsOnePage | apps/legal_work/archived_topics.py:248-285 | reading one page of a well-formed listing is never refused and indexes exactly its cards at their positions |
| ListingWalk.ReadAppends | apps/legal_work/archived_topics.py:264-285 | reading only appends, records the page number, and calls the page known exactly when every card on it is |
| ListingWalk.CollectsListing | apps/legal_work/archived_topics.py:223-306 | for every page size, with or without a pager, with any pages failing to answer, the walk is refused only when a page of the listing does not answer; otherwise it indexes a prefix: all of it when full, else ending at the end or on a page whose every card is known |
| ListingLaws.AcceptedIff | apps/legal_work/archived_topics.py:248-285 | a page is accepted iff every card is allowed, titled and new; otherwise the refusal names what is wrong with the first that is not |
| ListingLaws.WalkWithinLimits | apps/legal_work/archived_topics.py:223-324 | an accepted walk is not empty and within the item and page caps; a full one never stops early |
| ListingLaws.RepeatedPageRefused | apps/legal_work/archived_topics.py:238-247 | a site that answers every request with one page is refused as repeating it |
| ListingLaws.CappedWalk | apps/legal_work/archived_topics.py:223-324 | a walk cut off by the page cap does not claim the end |
| ListingLaws.EmptyPageEnds | apps/legal_work/archived_topics.py:230-237 | a page without cards is the end |
| ListingLaws.SignatureIff | apps/legal_work/archived_topics.py:327-329 | two listings have one signature iff title and summary agree, for titles without the separator |
| ListingLaws.SeparatorHidesEdit | apps/legal_work/archived_topics.py:327-329 | the separator inside a title hides an edit |
| ListingLaws.KnownIffUnedited | apps/legal_work/archived_topic_sync.py:175-185 | a card that has a row counts as known iff its title and summary are the stored ones |
| ListingLaws.EditedPageNotKnown | apps/legal_work/archived_topics.py:264-300 | a page with an edited card is not known and ends the run of known pages |
| ListingLaws.StandingWalkStops | apps/legal_work/archived_topics.py:286-300 | on an unedited archive with uncut titles the incremental walk reads exactly known_pages_before_stop pages, or all if fewer |
| ArchiveMerge.MergeWithPrevious | apps/legal_work/archived_topic_sync.py:371-395 | the append loop equals the merge function, full and incremental |
| ArchiveMerge.CarryForwardDetails | apps/legal_work/archived_topic_sync.py:398-416 | the carried dictionary holds exactly the stored non-pending details of the indexed addresses |
| ArchiveMerge.MergeKeepsIndex | apps/legal_work/archived_topic_sync.py:371-395 | an incremental merge has exactly the walked and the previous addresses, none twice, with source_order 0..n-1 |
| ArchiveMerge.StopsPastFresh | apps/legal_work/archived_topics.py:296-300 | a walk that stopped on known pages has passed every card added at the front |
| ArchiveMerge.IncrementalEqualsFull | apps/legal_work/archived_topic_sync.py:191-194 | after front growth the early-stopping walk merged with a complete index equals the full walk's index in every field but the page number; neither walk is refused while every listing page answers |
| Hydration.HydrationRun.PriorityReads | apps/legal_work/archived_topic_sync.py:489-501 | the first loop, changing the details in place, equals the priority-pass function and its request log |
| Hydration.HydrationRun.BackgroundReads | apps/legal_work/archived_topic_sync.py:503-532 | the second loop with its older-run counter equals the background-pass function |
| Hydration.HydrationRun.HydrateWithinBudget | apps/legal_work/archived_topic_sync.py:455-532 | both passes over one budget; nothing on a dry run or without budget |
| Hydration.RecentWindowPending | apps/legal_work/archived_topic_sync.py:535-558 | the counting loop equals the pending-count function |
| BudgetLaws.QueueIsRanked | apps/legal_work/archived_topic_sync.py:480-489 | the queue holds exactly the indexed candidates, once each, in rank order |
| BudgetLaws.QueueIgnoresEnumeration | apps/legal_work/archived_topic_sync.py:489-490 | the enumeration order of the candidate dictionary does not affect the queue |
| BudgetLaws.PriorityPassReads | apps/legal_work/archived_topic_sync.py:489-497 | pass one requests exactly the first budget-many queue members not already read |
| BudgetLaws.BackgroundReadsFresh | apps/legal_work/archived_topic_sync.py:503-532 | pass two requests only pages no run has asked for, each once, and overwrites nothing |
| BudgetLaws.NoRequestRepeats | apps/legal_work/archived_topic_sync.py:455-532 | requests stay within the budget and no address is requested twice in a run |
| BudgetLaws.SpendsGreedily | apps/legal_work/archived_topic_sync.py:475-532 | never-read candidates in decreasing overlap before failed ones, ties in archive order; no better candidate left behind; a background read implies every candidate is read or was asked for |
| RecentWindow.PendingIsOpen | apps/legal_work/archived_topic_sync.py:535-558 | recent pending is the number of unread positions not preceded by stop_after read pages dated before the cutoff with no other read page between them |
| RecentWindow.BackgroundReadsWindow | apps/legal_work/archived_topic_sync.py:503-532 | the background pass asks for a page iff it was never asked for and is not behind the window, in order while the budget lasts |
| RecentWindow.RunReadsWindow | apps/legal_work/archived_topic_sync.py:455-532 | a run asks for unread shortlisted pages first, all of them if the budget allows, and then reads the window |
| RecentWindow.LeftoverLeavesNoneOpen | apps/legal_work/archived_topic_sync.py:455-558 | a live run that stops with budget left leaves no candidate and no position of the window unread |
| RecentWindow.NothingAsked | apps/legal_work/archived_topic_sync.py:470-474 | a dry run and a run without budget ask for nothing |
| WindowProgress.IdleIffNothingPending | apps/legal_work/archived_topic_sync.py:503-558 | the counting walk reports zero exactly when the reading walk with any positive budget would issue no request |
| WindowProgress.PassLeavesNothingPending | apps/legal_work/archived_topic_sync.py:503-558 | a pass ending with budget left leaves a zero count, despite the different treatment of fresh failures and a later cutoff |
| WindowProgress.LeftoverBudgetMeansDone | apps/legal_work/archived_topic_sync.py:455-558 | a live run that stops with requests left has no pending candidate and no pending recent page |
| WindowProgress.UnreadAfter | apps/legal_work/archived_topic_sync.py:455-532 | the unread pages after a run are those before minus the requested ones |
| WindowProgress.UnreadCandidateFirst | apps/legal_work/archived_topic_sync.py:475-497 | while a candidate is unread, the first request of a run goes to an unread page |
| BackfillProgress.ProgressOrDone | apps/legal_work/archived_topic_sync.py:455-532 | with a budget above the shortlist every live run shrinks the unread pages or ends with nothing pending, whatever the fetches return |
| BackfillProgress.BackfillFinishes | apps/legal_work/archived_topic_sync.py:455-590 | with index, shortlist and cutoff fixed, of any number of runs, fewer end with work pending than there were unread pages, whatever the fetches return |
| BackfillProgress.FinishedRun | apps/legal_work/archived_topic_sync.py:455-590 | among the first as many runs as there are unread pages (the first, if there are none) one ends with nothing pending |
| BackfillProgress.AlwaysShrinksIff | apps/legal_work/archived_topic_sync.py:455-532 | a run shrinks the unread pages for all answers a page can give iff a candidate is unread or the window stays open even with every failed candidate read and old |
| BackfillLimits.RetryCanCloseWindow | apps/legal_work/archived_topic_sync.py:489-532 | for every window length and any addresses the table accepts: an archive it accepts, with recent work pending, and legible answers with which the run reads no new page |
| BackfillLimits.EqualBudgetStarves | apps/legal_work/archived_topic_sync.py:489-501 | on an archive the table accepts, a budget equal to the shortlist leaves a recent page pending for ever |
| BackfillLimits.ConsultationsAreAddresses | apps/legal_work/archived_topics.py:467-468 | addresses under the archive's own path, enough of them for the largest index, are such addresses |
| ArchiveCounts.CountProgress | apps/legal_work/archived_topic_sync.py:561-590 | the counting loop equals the tally over sets of addresses |
| ArchiveCounts.CountsPartition | apps/legal_work/archived_topic_sync.py:577-590 | hydrated, pending and failed sum to the index, the three priority counts to the shortlist; the pending counts are the numbers of unread pages and unread candidates |
| ArchiveCounts.CountsMean | apps/legal_work/archived_topic_sync.py:561-590 | each figure counts what it names: pages read, failed and never asked for, the same over the shortlist, pages read off it, and open positions of the window |
| ArchiveFeed.ArchivedTopicFeed.Synchronize | apps/legal_work/archived_topic_sync.py:149-365 | one run end to end changes the stored feed exactly as the step function says, including refusal, dry run, unchanged and failure |
| FeedInvariants.WalkBuilds | apps/legal_work/archived_topics.py:223-324 | any walk of any site that is not refused yields distinct addresses with source_order 0..n-1 |
| FeedInvariants.HydrateGrows | apps/legal_work/archived_topic_sync.py:455-532 | hydration drops no detail and alters no page already read |
| FeedInvariants.WorkIsSound | apps/legal_work/archived_topic_sync.py:191-226 | the rows a run would write hold exactly the merged index and the details, and pass the declared-count check |
| FeedInvariants.RunKeeps | apps/legal_work/archived_topic_sync.py:287-310 | every run keeps the feed well formed; an incremental one loses no address, demotes no read page and keeps index completeness; and exactly when a run fails to publish |
| FeedInvariants.LeftoverBudgetCompletes | apps/legal_work/archived_topic_sync.py:217-226 | with requests left, backfill_complete equals index_complete |
| FeedInvariants.RunsKeep | apps/legal_work/archived_topic_sync.py:218-225 | the same over any sequence of incremental runs |
| FeedInvariants.RepeatAddsNothing | apps/core/feed_sync.py:51-67 | bytes the registry already holds contain no address the current snapshot lacks, no page it has not asked for, and no read page it does not show alike |
| FeedInvariants.DominanceKept | apps/legal_work/archived_topic_sync.py:228-245 | every incremental run keeps the current snapshot ahead of everything ever published, in addresses, pages asked for and pages read |
| FeedMeaning.CompleteIff | apps/legal_work/archived_topic_sync.py:218-226 | the backfill is complete iff the index is, every shortlisted page was asked for and no position of the window is open; the index is iff this walk reached the end or the previous index was |
| FeedMeaning.SnapshotMeans | apps/legal_work/archived_topic_sync.py:289-310 | what a snapshot declares about itself, and its rows one by one |
| FeedMeaning.ReportMeans | apps/legal_work/archived_topic_sync.py:149-365 | which outcome a run answers with, when the feed changes, and what the report states |
| FeedMeaning.WrittenCheck | apps/legal_work/archived_topic_sync.py:616-624 | the publication check asks for as many rows as entries and for declared figures that add up |
| FeedMeaning.PayloadIff | apps/legal_work/archived_topics.py:400-434 | two sets of rows have the same bytes iff they say the same of every key, in whatever order and on whatever pages |
| FeedInvariants.RegisteredRowsFit | apps/legal_work/archive_models.py:208-217 | rows whose bytes are registered satisfy the table, so rows it refuses are never taken for a repeat |
| FeedTracking.RunTracks | apps/legal_work/archived_topic_sync.py:149-365 | after a live incremental run that walks a front-grown archive the current snapshot indexes exactly the archive iff every address fits and no page asked for is blank, or nothing was added and there is a snapshot; otherwise the run fails and changes nothing |
| FeedTracking.HistoryTracks | apps/legal_work/archived_topic_sync.py:149-365 | over every history of growth, fetch outcomes, dry runs and listing pages that fail to answer, the snapshot holds the archive minus exactly the cards added since the last run that landed; after such a run it holds all of it |
| FeedTracking.AnsweredReaches | apps/legal_work/archived_topics.py:226-306 | a live run walks the archive whenever every page of the listing answers |
| FeedTracking.SteadyRun | apps/legal_work/archived_topic_sync.py:217-245 | on a standing archive a live run that walks it and asks for no blank page reports the backfill complete or publishes fewer unread pages, and never more |
| FeedTracking.FeedFinishes | apps/legal_work/archived_topic_sync.py:149-365 | of any number of live runs that walk the standing archive without reporting backfill_complete, all but fewer than there were unread pages ask for a blank page, whatever else the fetches return and whichever walks fail |
| FeedTracking.BlankFails | apps/legal_work/archived_topic_sync.py:287-312 | a live run that asks for a blank page fails and changes nothing |
| FeedLimits.AsksUnread | apps/legal_work/archived_topic_sync.py:475-532 | when a candidate is unread, or the window stays open at worst, the run asks for an unread page whatever is answered |
| FeedLimits.BlankPagesBlock | apps/legal_work/archived_topics.py:354-370 | if the unread pages are blank and a run is bound to ask for one, every run fails and the snapshot never changes |
| FeedLimits.OneBlankPageBlocks | apps/legal_work/archived_topics.py:354-370 | the same for an archive of one unread page, no shortlist and any window |
| FeedLimits.ColdStartBlocks | apps/legal_work/archived_topics.py:354-370 | from an empty feed, blank pages keep a first snapshot from ever being published |
| PinRateLimit.RateLimiter.CheckPin | apps/access/rate_limit.py:24-60 | one attempt updates only its own client's row, as the step function says |
| PinRateLimit.AdmittedIff | apps/access/rate_limit.py:39-46 | an attempt is admitted iff the PIN is right and the client not locked out; it then leaves no row for its client and touches no other |
| PinRateLimit.AdmissionForgets | apps/access/rate_limit.py:43-46 | bucket and counted failures after an admission are those of the run that starts there |
| PinRateLimit.FailureKept | apps/access/rate_limit.py:47-60 | counting a failure keeps the bucket explained by the failure history, and the lock reply goes out exactly at the fifth failure of a window |
| PinRateLimit.RunExplained | apps/access/rate_limit.py:24-60 | in any run of any clients with a non-decreasing clock the bucket explains exactly the failures of a client since it was last let in |
| PinRateLimit.SlidingBound | apps/access/rate_limit.py:39-60 | at most eight compared-and-refused PINs of one client between two admissions in any half-open fifteen minutes |
| PinRateLimit.LockOnlyAtLimit | apps/access/rate_limit.py:52-60 | after an attempt that is not admitted failure_count is in 1..5, the lock runs from the fifth failure, and no lock reply comes from a stale lock |
| PinRateLimit.EightAttained | apps/access/rate_limit.py:47-54 | a run in which eight is reached |
| PinRateLimit.RetryAfterIsExact | apps/access/rate_limit.py:39-41 | a locked-out attempt changes nothing, and the stated wait is the least whole number of seconds after which a PIN is compared |
| PinRateLimit.LockReplyIsExact | apps/access/rate_limit.py:55-60 | the wait in the reply to the failure that locks is exact too |
| PinRateLimit.LimitHoldsIff | apps/access/rate_limit.py:39-54 | over any run with any clock, no wrong PIN at any point can push a client's counter past five iff every failure that locked the client out was not before its window |
| PinRateLimit.OrderedClockLocksInOrder | apps/access/rate_limit.py:39-54 | a clock that never steps back meets that condition for every client, admitted or not |
| PinRateLimit.ClockMustNotStepBack | apps/access/rate_limit.py:25-31 | a run with a backward clock that counts a sixth failure |
| ArchiveScoring.ArchiveRarityCoverage | apps/legal_work/archived_topic_matching.py:171-188 | the accumulation loop equals covered weight over total weight, in [0, 1] |
| ArchiveScoring.ScorePair | apps/legal_work/archived_topic_matching.py:191-277 | the renormalised, twice-rounded score lies in 0.00..100.00 |
| ArchiveScoring.UnblockedIff | apps/legal_work/archived_topic_matching.py:237-275 | a pair is unblocked iff deadlines, chronology and identifiers do not contradict, and a discriminating word is shared or else an identifier is shared, the bodies named are not different and the common words are not all generic |
| ScoringLaws.FullAndNone | apps/legal_work/archived_topic_matching.py:219-235 | full agreement is exactly a hundred points and none is nothing, whichever signals apply |
| ScoringLaws.WorthItsWeight | apps/legal_work/archived_topic_matching.py:219-235 | where both sides give all five signals the points are 26, 32, 24, 8 and 10 times them |
| ScoringLaws.AbsentDeadlineIsNeutral | apps/legal_work/archived_topic_matching.py:225-235 | without a deadline on one side the points are those with the deadline signal at the mean of the others |
| ScoringLaws.AbsentBodyIsNeutral | apps/legal_work/archived_topic_matching.py:225-235 | the same for a body not named |
| ScoringLaws.ScoreIsNearest | apps/legal_work/archived_topic_matching.py:233-235 | the score is the nearest hundredth, whole hundredths kept and halves rounded up |
| ScoringLaws.TextSignals | apps/legal_work/current_topic_matching.py:322-343 | the n-gram signals as shares of the sets compared |
| ScoringLaws.RarityEnds | apps/legal_work/archived_topic_matching.py:171-188 | wording covers everything iff every word is there and nothing iff none is |
| ScoringLaws.GenericWordsWeighLess | apps/legal_work/archived_topic_matching.py:171-188 | a generic word weighs fifteen hundredths of another and a repeated one counts once |
| ScoringLaws.UnknownWordsAreRare | apps/legal_work/archived_topic_matching.py:171-188 | a word the corpus does not know weighs as much as its rarest |
| ScoringLaws.DeadlineTable | apps/legal_work/current_topic_matching.py:393-412 | the deadline signal by the days between the two dates |
| ScoringLaws.BodyTable | apps/legal_work/current_topic_matching.py:413-430 | the signal of the named bodies |
| ScoringLaws.ScoreOfSignals | apps/legal_work/archived_topic_matching.py:191-235 | the score of a pair is the points of its five signals to the nearest hundredth |
| ScoringLaws.FullPair | apps/legal_work/archived_topic_matching.py:191-235 | a pair that agrees in full scores 100.00 with or without deadline and body |
| ScoringLaws.TextAlone | apps/legal_work/archived_topic_matching.py:219-235 | agreement in n-grams alone scores 31.71 |
| ScoringLaws.WordingAlone | apps/legal_work/archived_topic_matching.py:219-235 | agreement in wording alone scores 39.02 |
| ScoringLaws.OwnWordsAlone | apps/legal_work/archived_topic_matching.py:219-235 | three words nobody else uses alone score 29.27 |
| ScoringLaws.DeadlineAlone | apps/legal_work/archived_topic_matching.py:219-235 | the same deadline alone scores 8.89 |
| ScoringLaws.BodyAlone | apps/legal_work/archived_topic_matching.py:219-235 | the same body alone scores 10.87 |
| ScoringLaws.EvidenceFor | apps/legal_work/archived_topic_matching.py:193-245 | when each favourable evidence code is given |
| ArchiveMatching.MatchedIff | apps/legal_work/archived_topic_matching.py:280-328 | MATCHED with b iff b is unblocked, at least 72, and at least 18 ahead of every other unblocked candidate of any score; UNMATCHED iff nothing is plausible |
| ArchiveMatching.OrderIrrelevant | apps/legal_work/archived_topic_matching.py:294-303 | the order of the scored candidates affects no part of the outcome |
| ArchiveMatching.BlockedIrrelevant | apps/legal_work/archived_topic_matching.py:294-317 | removing blocked candidates leaves the decision, and every figure but the evidence when something is plausible |
| ArchiveMatching.OutcomeInRange | apps/legal_work/archived_topic_matching.py:300-328 | scores in range, runner-up not above best, exact margin, best taken from the candidates |
| ArchiveMatching.OutcomeReports | apps/legal_work/archived_topic_matching.py:294-328 | the best candidate tops the plausible ones, or all when none is; runner-up and count of the rest |
| ArchiveMatching.EvidenceReports | apps/legal_work/archived_topic_matching.py:300-328 | the evidence is the best candidate's and what the decision adds |
| ArchiveMatching.NobodyToMatch | apps/legal_work/archived_topic_matching.py:284-292 | with no candidates the record is unmatched and says so |
| ArchiveMatchRun.BuildOwners | apps/legal_work/archived_topic_matching.py:347-350 | the owners table counts, for each discriminating word, the candidates that use it |
| ArchiveMatchRun.OwnersAre | apps/legal_work/archived_topic_matching.py:347-350 | the words of the table and the number of candidates that use each |
| ArchiveMatchRun.UniqueHitsAre | apps/legal_work/archived_topic_matching.py:347-350 | a unique word is discriminating on both sides and in exactly one candidate |
| ArchiveMatchRun.UsableAre | apps/legal_work/archived_topic_matching.py:339-345 | the candidates offered are exactly the read rows off the current listing |
| ArchiveMatchRun.PopulationIs | apps/legal_work/archived_topic_match_sync.py:122-145 | the records considered are exactly the eligible ones not already matched |
| ArchiveMatchRun.MatchArchive | apps/legal_work/archived_topic_matching.py:331-359 | one decision per record, over the read rows off the current listing |
| ArchiveMatchRun.Verify | apps/legal_work/archived_topic_match_sync.py:241-271 | the verification loop accepts exactly the publishable outcomes |
| ArchiveMatchRun.DecisionAcceptable | apps/legal_work/archived_topic_matching.py:331-359 | each decision is acceptable and names only a read row off the current listing |
| ArchiveMatchRun.DecisionsPublishable | apps/legal_work/archived_topic_match_sync.py:241-271 | the matcher's outcomes always satisfy the publication verifier |
| ArchiveMatchRun.RunArchiveMatching | apps/legal_work/archived_topic_match_sync.py:122-204 | population, decisions, tallies and both checks: a run never refuses its own work |
| EventMatching.PagesByDate | apps/event_programme/event_match_sync.py:72-86 | the grouping dictionary gives for every date exactly the pages under the mark, in order |
| EventMatching.CandidatesFor | apps/event_programme/event_matching.py:162-169 | the offset loop concatenates the three days around the event |
| EventMatching.MatchedIff | apps/event_programme/event_matching.py:172-223 | for any order-preserving rounding: matched to p iff dated, two tokens, p in the window, at least 0.70 and 0.20 ahead of every other page of the window |
| EventMatching.MatchReports | apps/event_programme/event_matching.py:190-223 | score, runner-up and evidence of a match, from the top page of the window and the rest |
| EventMatching.NotCompared | apps/event_programme/event_matching.py:181-189 | an undated event, a thin name and an empty window are unmatched and say why |
| EventMatching.SimilarityIs | apps/event_programme/event_matching.py:139-159 | the similarity is the larger of the two rounded shares |
| EventMatching.SharesAre | apps/event_programme/event_matching.py:139-150 | common n-grams out of the shorter set and common tokens out of all |
| EventMatching.ExactThresholds | apps/event_programme/event_matching.py:197-214 | with exact arithmetic the comparisons are at least 0.70 and at least 0.20 ahead |
| EventMatching.FifthIsNotEnough | apps/event_programme/event_matching.py:207-214 | a title with all five words of the name against one with four, scoring 1.0 and 4/5: ambiguous under a rounding that agrees with double precision there, matched under exact arithmetic |
| EventMatching.OnlyWindowMatters | apps/event_programme/event_matching.py:162-223 | listing order, other days and pages above the mark have no influence on any part of the answer |
| EventMatching.RunEventMatching | apps/event_programme/event_match_sync.py:89-121 | one decision per event, tallies summing to considered, evidence counted as cited |
| EventMatching.HighWaterIs | apps/event_programme/event_match_sync.py:89-100 | the mark is the largest id, so no page listed is above it |
| TrendBands.BandIffNearest | apps/dashboard/sparkline.py:324-330 | a position lies in a band iff its observation is a nearest one, strictly inside iff the only one |
| TrendBands.BuildBands | apps/dashboard/sparkline.py:301-341 | bands tile [0, 100] with no gap or overlap, form the Voronoi tiling of points drawn to scale, and hold exactly the readings of their date |
| AttentionWindows.SumWindows | apps/event_programme/attention.py:182-213 | the bucketed sums equal the naive sum of every requested window |
| AttentionWindows.AttachAttention | apps/event_programme/attention.py:228-302 | for a batch of events, linked or not, several to a page: every id with a page gets exactly the figures a scan of all rows gives, ids without one are absent, and late <= pre-event <= total and recent <= total wherever shown |
| AttentionWindows.FiguresMean | apps/event_programme/attention.py:255-302 | the windows in days, and when each figure is shown |
| AttentionWindows.SumsAdd | apps/event_programme/attention.py:205-225 | window sums and totals add over the rows |
| AttentionWindows.PathsFor | apps/event_programme/attention.py:166-180 | the table from event id to the page it resolves to |
| AttentionWindows.TotalsFor | apps/event_programme/attention.py:216-225 | the totals table holds exactly the measured pages with the sum of all their rows |
| AttentionWindows.OwnPageOwnDate | apps/event_programme/attention.py:262-302 | with one event to an id, its row uses its own page and its own start date |
| EventDiscovery.PublicEventCatalogue.ObservePage | apps/events/public_discovery.py:258-342 | one observation counts and writes as the step function says; a dry run writes nothing |
| EventDiscovery.PublicEventCatalogue.DiscoverPublicEvents | apps/events/public_discovery.py:345-412 | a run over the caller's or the sitemap's addresses, by mode and page cap: its rows, counts, warnings and completeness, or its refusal |
| EventDiscovery.RunPreserves | apps/events/public_discovery.py:294-342 | no run removes a page or changes its address, key or first sighting |
| EventDiscovery.LiveRecords | apps/events/public_discovery.py:301-342 | after a live run every observed event page has, field by field, the row one observation leaves, however often it was asked for, and every other row is unchanged |
| EventDiscovery.LiveShowsFacts | apps/events/public_discovery.py:301-342 | the facts shown are the site's and the checksum stays theirs |
| EventDiscovery.DryPredictsLiveIff | apps/events/public_discovery.py:292-342 | the live run completes with the dry run's tally iff no event page is blocked by the table and no page that would be written is asked for twice |
| EventDiscovery.SelectedIff | apps/events/public_discovery.py:236-256 | a run asks for every new or stale page and no other, in order, up to the cap |
| EventDiscovery.DryCounts | apps/events/public_discovery.py:292-299 | what each figure of a dry run counts |
| EventDiscovery.DryFlags | apps/events/public_discovery.py:376-405 | when a run is incomplete and which warnings it gives, once each |
| EventDiscovery.CapAndList | apps/events/public_discovery.py:362-412 | the page cap, the mark of a run cut short, and a list given by the caller |
| EventDiscovery.LiveRefusedIff | apps/events/public_models.py:62-110 | the table refuses a live run iff an event page among its addresses is new and shares its key with another stored or observed event page or is too long an address, or its facts cannot be held |
| EventDiscovery.DistinctKeysPredict | apps/events/public_discovery.py:258-342 | with distinct addresses, keys distinct over the stored and requested pages, and facts that fit, dry and live tallies are equal |
| EventDiscovery.SitemapRunPredicts | apps/events/public_discovery.py:178-228 | after a sitemap walk the dry run predicts the live one iff no event page is blocked |
| EventKeys.KeyIsLastSegment | apps/events/collector.py:427-428 | the stable key of a path is its last non-empty segment cut to 200 characters |
| EventKeys.ListedClashIff | apps/events/public_discovery.py:159-174 | the key of a page the filter admits is its name, cut; two such pages share a key iff their names agree in the first 200 characters |
| EventKeys.ListedShape | apps/events/public_discovery.py:159-174 | an admitted path is the prefix and the name with slashes around it, so paths with one name differ only in slashes |
| EventDiscovery.RepeatedPageMiscounted | apps/events/public_discovery.py:292-325 | a list naming a new page twice: the dry run counts two created, the live run one created and one unchanged |
| EventDiscovery.SharedKeyRefused | apps/events/public_discovery.py:301-314 | two new pages under one key: the dry run counts both, the live run is refused |
| EventDiscovery.TrailingSlashRefused | apps/events/public_discovery.py:159-174 | a new page listed with and without a trailing slash passes the filter twice: the dry run counts two, the live run is refused |
| EventSitemap.SitemapEventUrls | apps/events/public_discovery.py:178-228 | the walk over the index and its children, with unreadable children, both limits and the tally, computes the list function |
| EventSitemap.SitemapNames | apps/events/public_discovery.py:178-228 | the list holds every event page of every readable child on an allowed host exactly once, and the tally counts the unreadable children |
| EventSitemap.RefusedIff | apps/events/public_discovery.py:186-226 | when the sitemap is refused, and why |
| ProgrammeFilters.ParsedIsValidated | apps/event_programme/page.py:244-296 | every parsed value is an offered one or "not filtered" |
| ProgrammeFilters.YearIs | apps/event_programme/page.py:277-287 | which year is filtered on, for every text given |
| ProgrammeFilters.LastOneCounts | apps/event_programme/page.py:244-262 | a parameter given twice counts as given last |
| ProgrammeFilters.StripIs | apps/event_programme/page.py:244-262 | stripping takes blanks off both ends and nothing else |
| ProgrammeFilters.FieldsAre | apps/event_programme/page.py:244-296 | every field is the parameter of its name where that is offered, and the search text the first hundred characters |
| ProgrammeFilters.PageComesBack | apps/event_programme/page.py:487-516 | the page number is printed from the second page on |
| ProgrammeFilters.WriteFields | apps/event_programme/page.py:494-515 | the append loop writes exactly the non-empty fields, in order |
| ProgrammeFilters.LookupWritten | apps/event_programme/page.py:494-515 | looking a printed parameter up returns what was written, or nothing |
| ProgrammeFilters.RoundTripIff | apps/event_programme/page.py:244-296 | printing and parsing, even in a later year, return the state exactly unless the cut left the search text ending in a blank |
| ProgrammeFilters.CutSearchLosesBlank | apps/event_programme/page.py:244-296 | ninety-nine letters, a blank and a letter: the printed state comes back without the blank |
| LegalAnalytics.BandFor | apps/legal_work/analytics.py:176-180 | the band whose bounds hold a non-negative number of days |
| LegalAnalytics.DeadlinePressure | apps/legal_work/analytics.py:815-854 | the counting loop equals direct counts per band and kind, which sum to the open records |
| LegalAnalytics.OpenConserved | apps/legal_work/analytics.py:833-854 | bands, both overdue kinds and no-deadline sum to the open records; due within seven days is a direct count |
| LegalAnalytics.BandsCount | apps/legal_work/analytics.py:71-77 | the bands in days, record by record |
| LegalAnalytics.CountByYear | apps/legal_work/analytics.py:641-668 | the per-year table equals a direct count by cohort year |
| LegalAnalytics.CohortsConserved | apps/legal_work/analytics.py:592-640 | eligible, missing and invalid over the cohort years sum to all records |
| LegalAnalytics.StandingsAre | apps/legal_work/analytics.py:575-625 | which records are eligible, missing a date or impossible, and their cohort year |
| LegalAnalytics.ResponseWindowByYear | apps/legal_work/analytics.py:592-638 | the rows are exactly the cohort years that occur, in order and once each, with direct counts, and together account for every record once |
| LegalAnalytics.MonthlyEqualsAnnualIff | apps/legal_work/analytics.py:404-526 | monthly sent counts sum to the annual figure iff the year is not after the reporting year or nothing is sent in it |
| LegalAnalytics.AnnualCounts | apps/legal_work/analytics.py:501-526 | the annual figure, record by record |
| LegalAnalytics.MonthCounts | apps/legal_work/analytics.py:404-486 | one month's bar, record by record, and the months shown |
| LegalAnalytics.FutureOpinionDisagrees | apps/legal_work/analytics.py:443-458 | one opinion dated in the year after the reporting year: one in the months, none in the annual figure |
| Redaction.RedactDict | apps/audit/redaction.py:49-56 | the loop into a fresh dictionary equals the recursive function |
| Redaction.RedactIdempotent | apps/audit/redaction.py:28-56 | redacting twice is redacting once, and the results are exactly the values in which, at every depth, each sensitive non-exempt key holds the mask |
| Redaction.KeysSurvive | apps/audit/redaction.py:49-56 | a redacted dictionary has exactly the original keys, as text |
| Redaction.HeldAfter | apps/audit/redaction.py:49-56 | under each key the last value given decides: the mask for a sensitive key that is not exempt, else that value redacted |
| Redaction.TruncateKeeps | apps/audit/redaction.py:33-34 | the first five hundred characters of a long text are kept, and a shorter one whole |
| Redaction.MembersKept | apps/audit/redaction.py:28-36 | lists and tuples become lists, member by member; other values stay |
| Redaction.RedactAccepted | apps/audit/redaction.py:38-56 | exactly a missing summary or a dictionary is accepted; the result is clean at every depth, keeps the keys, and is stored again unchanged |

## Left out

- Transport, HTML and sitemap parsing, text normalisation, regular expressions: fetched pages, token and n-gram sets, and the sensitive-key pattern are inputs.
- Digests: SHA-256 checksums, fingerprints and signatures are modelled by the text or content they are taken over.
- Django ORM, transactions and locks: a table is a sequence or map, an atomic block one step; concurrent limiter attempts are a sequence of steps.
- `apps/legal_work/shortlist.py`: the shortlist is any map from indexed addresses to overlaps.
- Column widths other than the address's, and the page-number column's range, in the archive table.
- Unexpected exceptions that abort an archive run: they leave the feed unchanged, as a refused walk does.
- `full=True` archive runs may drop entries by design, so the no-loss and tracking theorems are about incremental runs.
- `_publish_current` flag flips, audit events, log lines, report wording, chart ordinates, month ticks, medians and means: presentation or easy members.
- `apps/legal_work/current_topic_matching.py` beyond the signals the archive matcher imports: the idf logarithm enters as positive weights.
- ArchiveScoring.ScorePair: floating-point rounding inside the weighted sum is not modelled; arithmetic is over the reals with the two decimal roundings kept.
- EventDiscovery.PublicEventCatalogue.DiscoverPublicEvents: the pauses between requests and the log lines are not modelled.
- PinRateLimit.SlidingBound: assumes the clock readings of successive attempts do not decrease, and that the client is not admitted in between (a success deletes the bucket).
