# Gechu: recommendation, interaction and account logic, verified

This project models the stateful core of the Gechu game recommendation backend and proves what it
promises, for every input, every run of calls and every interleaving of job steps. The command
`dafny verify dfyconfig.toml` covers the whole project.

| area | modules | main results |
|---|---|---|
| Collaborative filtering | `Rounding`, `Similarity`, `SimilarityTasks`, `Ranking`, `SimilarityTable`, `TruncationBound`, `UserRefresh` | The counting loops compute the set definition; 50 rows per game always give the first 51 - s candidate scores of s seeds, and no later ones are guaranteed; a refresh heals any table a crash left behind |
| Job protocol | `JobProtocol`, `JobService` | At most one execution per job, at most one active job per key, phases only advance, FAILED exactly when the body raised |
| Interaction recorder | `InteractionLog`, `InteractionRecorder` | Weight law, cooldown spacing and window bound over whole runs |
| Accounts and codes | `Accounts`, `AccountCalls`, `AuthService`, `ResetCodes`, `CodeCalls` | Token conservation, final revocation, no session without a login, at most five wrong guesses per reset code, no reset without the code that was sent |
| Derived state | `Affinity`, `RecentSearches` | The mutable row is the fold of its log; the bounded list is a prefix of the unbounded one |
| Fetching and ranking | `IgdbClient`, `IgdbCache`, `Chosung`, `Autocomplete` | Complete pagination, cache transparency, best-first distinct results |

`Wrappers` and `Lists` hold the option and result types and the shared list lemmas. Code that updates
state in the source is a class or a loop here. Each such method is tied to a function of the old state,
and the results are proved about that function, over runs of it.

## Assumptions

- Scores, weights and preference scores are exact integers in units of 0.0001, rounded half to even.
  This replaces the floating-point square root and quotient and the 28-digit decimal context.
- A service call, or a row-locked transaction of a job, is one atomic step. Job ids and log rows are
  in creation order, and no two jobs of one key are created at the same instant.
- Any idle worker may receive any job message at any time. This covers at-least-once delivery, duplicates,
  Celery's retries, admin dispatch and delivery of jobs nobody claimed. `skip_locked` is an arbitrary set of locked rows.
- SimpleJWT: `for_user` records an outstanding token, a blacklisted or expired token fails verification,
  deleting a user clears the owner of its outstanding tokens. Rotation and blacklisting are settings;
  the results that need both on (`config/settings/base.py:169-177`) say so with `Configured`.
- Redis commands behave as documented, MULTI/EXEC is atomic, an entry is readable strictly before its expiry.
- IGDB is a stable list with distinct ids; which request fails, and how, is an arbitrary oracle.
- Passwords, validators, social accounts, preference searches, clock readings, lower-casing and the detail
  builder are inputs.
- A recorder call reads the clock before it writes its row. Nothing is assumed of the clocks of different calls,
  and calls of different users may overlap; the log lists rows in the order in which they were written.
- A token fault is isolated when the next request does not fail and a new token can be had.

The end-to-end results speak of a rebuilt table and of candidate lists (`AfterRebuild`). `RebuildExists` gives both for
every log and every set of seeds, and `StarInstance` cases, for s from 2 to 50 seeds, in which none of them is empty.

## Where the code and expectations differ

- FAILED is final: the retry that Celery schedules after a raised error finds a job that cannot be started
  and returns at once (`apps/recommendations/tasks.py:220-225`), so a body is never executed twice and
  `retry_count` never exceeds 1. `AtMostOnce` and `PhasesAdvance` prove this.
- The rule serializer accepts any positive repeat decay (`apps/interactions/serializers.py:136-137`), so weights can
  grow with repeats: `RepeatsCanGain` shows two views weighing 1.0000 and 1.0010. `NeverRisesIff` gives the exact
  condition on base, multiplier and decay.
- With a recent-search cap of 0 the trim keeps the whole list (`ZeroCapKeepsAll`); the cap is respected by every run
  exactly when it is at least 1 (`CapHoldsIff`).
- Wrong guesses are limited for reset codes and for no others: a sign-up compares the code without counting
  (`apps/users/services/auth_service.py:96-100`). `GuessLimitIff` states the split, and `SignUpGuessesAreUncounted`
  gives, for every n, a run in which one sign-up code meets n wrong guesses and stays valid.
- The block of 1200 s after five wrong guesses ends early when a new reset code is issued, because issuing one deletes
  the counter (`apps/users/services/auth_service.py:78`): `BlockLastsIff` and `BlockCanEndAfterAMinute`.
- A scheduled rebuild whose worker dies is never taken up again and keeps the scheduler from creating any other
  (`apps/recommendations/tasks.py:287-292`): `StrandedRebuildBlocks`.

A direct call of the affinity service with an unknown reaction leaves a row behind (`RefusalIsIdleIff`), because the row is
created before the transaction. No request gets there: the serializer refuses unknown reactions first
(`apps/preferences/serializers.py:77-80`).

## Model

| member | source | states |
|---|---|---|
| `SimilarityTasks.BuildSimilarityPairs` | apps/recommendations/tasks.py:139-173 | The streaming and counting loops return exactly the scores of the set definition: users in common over the root of the two user counts, whatever the order and repeats of the log and of the dictionaries |
| `SimilarityTasks.CollectUserGames` | apps/recommendations/tasks.py:141-149 | Every user is mapped to exactly the set of games of the user's rows; rows without a game are skipped |
| `SimilarityTasks.CountGames` | apps/recommendations/tasks.py:156-157 | Exactly the user's games gain one in the count, all others keep theirs |
| `SimilarityTasks.CountPairs` | apps/recommendations/tasks.py:158-160 | Exactly the ordered pairs of the user's games gain one co-occurrence |
| `SimilarityTasks.CountAll` | apps/recommendations/tasks.py:154-160 | The counts are the number of users having a game and, for ordered pairs, having both |
| `SimilarityTasks.ScorePairs` | apps/recommendations/tasks.py:162-171 | Every counted pair with a positive score is stored in both directions under that score, and nothing else |
| `SimilarityTasks.Sorted` | apps/recommendations/tasks.py:155 | Strictly ascending, and the same elements |
| `Similarity.StoredScores` | apps/recommendations/tasks.py:162-171 | A stored score is a nearest multiple of 0.0001 to overlap / sqrt(n_a * n_b), even on a tie; it lies in (0, 1.0000], is symmetric, has no self pair, and is 1.0000 when both games have the same users |
| `Similarity.ScoreNeedsOverlap` | apps/recommendations/tasks.py:163-169 | A positive score needs a common user |
| `Similarity.ScoreSymmetric` | apps/recommendations/tasks.py:170-171 | The score does not depend on the order of the pair |
| `Similarity.CosineFull` | apps/recommendations/tasks.py:164-167 | n common users out of n and n score exactly 1.0000 |
| `Similarity.CosineAtMostOne` | apps/recommendations/tasks.py:164-167 | No rounded score exceeds 1.0000 |
| `Similarity.CosineMonotone` | apps/recommendations/tasks.py:164-167 | A larger exact cosine never rounds to a smaller score |
| `Similarity.SimilarityEvolves` | apps/recommendations/tasks.py:139-173 | A new game b of user u never lowers score(a, b) if u has a, never raises it if not, and moves no pair without b |
| `Similarity.AppendedRow` | apps/recommendations/tasks.py:141-149 | A log row acts only through the (user, game) pair it adds |
| `Similarity.AppendedRowMovesScores` | apps/recommendations/tasks.py:139-173 | The same evolution stated for one appended log row; a repeated row changes no score |
| `Rounding.RootQuotientIsNearest` | apps/recommendations/tasks.py:164-167 | The integer computation meets the squared inequalities of half-even rounding of x / sqrt(n) |
| `Rounding.RootQuotientUnique` | apps/recommendations/tasks.py:164-167 | These inequalities determine the rounded score |
| `Rounding.RootQuotientMonotone` | apps/recommendations/tasks.py:164-167 | Rounding x / sqrt(n) keeps the order of the quotients |
| `Rounding.HalfEvenIsNearest` | apps/interactions/services/view_log_service.py:71-73 | Half-even rounding of a quotient is nearest, and even on a tie |
| `Rounding.HalfEvenUnique` | apps/interactions/services/view_log_service.py:71-73 | Nearest and even on a tie determine the rounded value |
| `Rounding.HalfEvenMonotone` | apps/interactions/services/view_log_service.py:71-73 | Rounding keeps the order of the quotients |
| `SimilarityTable.SimilarityStore.ReplaceGameSimilarities` | apps/recommendations/tasks.py:176-198 | Whatever was stored before, the table then holds, per game, the whole row or 50 pairs that no omitted pair beats, and returns their number |
| `SimilarityTable.GroupByGame` | apps/recommendations/tasks.py:177-179 | Every game lists exactly its partners and scores, each once |
| `SimilarityTable.BuildRecords` | apps/recommendations/tasks.py:181-191 | The records keep the top 50 of every game |
| `SimilarityTable.SimilarityStore.Rebuild` | apps/recommendations/tasks.py:328-330 | From the log to the table: the top 50 per game of the set-defined scores |
| `Ranking.RankItems` | apps/recommendations/tasks.py:183 | Sorting any listing by descending score and cutting it yields distinct entries, best first, nothing omitted beating anything kept |
| `Ranking.RankAt` | apps/recommendations/tasks.py:74-78 | Position i of a ranking reaches a score if and only if more than i entries do, so ranked scores do not depend on ties |
| `SimilarityTable.SimilarityStore.BuildSimilarityCandidates` | apps/recommendations/tasks.py:66-79 | The ranking, cut to 50, of the best stored score of every non-seed game paired with a seed |
| `SimilarityTable.TruncationLosesNothing` | apps/recommendations/tasks.py:66-198 | For s distinct seeds the first cap + 1 - s candidate scores from the truncated table equal those from the full matrix, for every tie-breaking |
| `SimilarityTable.RebuiltTableSuffices` | apps/recommendations/tasks.py:66-198 | The same for the table built from any log, with the bound 51 - s |
| `TruncationBound.TruncationBoundIsSharp` | apps/recommendations/tasks.py:18-79 | For every s from 2 to 51 a log with s seeds whose full matrix has 50 candidates while every stored table, however ties were broken, has only 51 - s |
| `TruncationBound.AgreesIff` | apps/recommendations/tasks.py:66-198 | For s from 1 to 51 seeds the i-th best candidate score from the stored table is that of the full matrix, for every log and tie-breaking, if and only if i < 51 - s |
| `TruncationBound.StarIsStar` | apps/recommendations/tasks.py:162-171 | The scores of that log: game 1 is paired with the further seeds at one score and with 50 other games at a lower positive one, and nothing else is paired |
| `TruncationBound.CutStarRow` | apps/recommendations/tasks.py:182-184 | The top 50 of the row of game 1 keep every further seed and so only 51 - s other games |
| `TruncationBound.RebuildExists` | apps/recommendations/tasks.py:66-198 | Every log and every set of seeds has a top-50 table and candidate lists in the full matrix and in the table |
| `TruncationBound.StarInstance` | apps/recommendations/tasks.py:66-198 | A log, table and candidate lists that meet the hypotheses of the end-to-end results, with 50 and 51 - s candidates |
| `UserRefresh.SeedsAreMostRecent` | apps/recommendations/tasks.py:51-58 | The seeds are a duplicate-free prefix of the deduplicated history, most recent first, shorter than 20 only if the scanned 200 rows hold no more games |
| `UserRefresh.SeedsAreTwentyOfTwoHundred` | apps/recommendations/tasks.py:51-58 | Exactly the first 20 different games of the 200 latest rows |
| `UserRefresh.RecentGamesAreOfRows` | apps/recommendations/tasks.py:52-56 | The scanned games are those of all rows of the user with a game, from the last to the first |
| `UserRefresh.SeedsFallBack` | apps/recommendations/tasks.py:60-61 | A user without any played game gets the preference seeds |
| `Lists.DedupPrefix` | apps/recommendations/tasks.py:57 | Deduplicating a scanned window gives a prefix of the deduplicated history |
| `Lists.DedupDistinct` | apps/recommendations/tasks.py:57 | Deduplication leaves no repeats |
| `Lists.DedupMembers` | apps/recommendations/tasks.py:57 | Deduplication keeps every element and adds none |
| `UserRefresh.PreferenceScoresFall` | apps/recommendations/tasks.py:106-107 | Preference scores never rise along the list and start at 1.0000 |
| `UserRefresh.PreferenceScoreOf` | apps/recommendations/tasks.py:106-107 | Entry i is game i with the score 1 - i/n rounded half to even to 0.0001 |
| `UserRefresh.PreferenceRowsShown` | apps/recommendations/tasks.py:106-136 | After a run the i-th preferred game stands at rank i + 1 with that score, for seven days, and no other game is listed under that reason |
| `UserRefresh.SimilarityRowsShown` | apps/recommendations/tasks.py:74-136 | After a run the i-th similarity candidate stands at rank i + 1 with its score, for seven days |
| `UserRefresh.WrittenRows` | apps/recommendations/tasks.py:120-132 | After n upserts a row is that of the last occurrence of its game, and every other row is as before |
| `UserRefresh.UpsertOutcome` | apps/recommendations/tasks.py:110-136 | With a generation new to the user and reason exactly the candidates remain for that reason, and nothing else changes |
| `UserRefresh.RanksCompleteIffDistinct` | apps/recommendations/tasks.py:120-136 | The ranks are exactly 1..n if and only if no candidate game is repeated |
| `UserRefresh.RecommendationTable.UpsertRecommendations` | apps/recommendations/tasks.py:110-136 | The loop and the deletion produce the specified table |
| `UserRefresh.RecommendationTable.NextGeneration` | apps/recommendations/tasks.py:239-245 | One more than the largest generation of the user, 1 if there is none |
| `UserRefresh.RecommendationTable.RefreshUser` | apps/recommendations/tasks.py:239-264 | Candidates ranked from the stored table and the seeds, the preferred games in their order with scores 1 - i/n beside them, both upserted under one new generation |
| `UserRefresh.RefreshOutcome` | apps/recommendations/tasks.py:239-264 | From any table a run leaves exactly the candidates per reason with the new generation, and touches no other user and no hybrid row |
| `UserRefresh.ScoresFallWithRank` | apps/recommendations/tasks.py:74-136 | After a run a better rank never shows a lower score |
| `UserRefresh.CrashStaysWithinUser` | apps/recommendations/tasks.py:110-136 | A run that dies at any write touches only its user's rows of the two reasons |
| `UserRefresh.CrashLeavesNoTrace` | apps/recommendations/tasks.py:206-264 | A successful run after a crash gives the table of an uncrashed run, generation number aside |
| `UserRefresh.ShownScoresAreFullScores` | apps/recommendations/tasks.py:66-136 | End to end: the row at rank i + 1 < 52 - s carries the i-th best score of the full matrix of the log that was rebuilt, for any seeds |
| `UserRefresh.FirstThirtyOneRanksAreExact` | apps/recommendations/tasks.py:51-136 | With seeds from the current history the first 31 similarity ranks carry full-matrix scores of the last rebuild, whatever was logged since |
| `JobProtocol.StepKeepsInv` | apps/recommendations/tasks.py:206-395 | Every creation, claim, delivery, completion, crash and user deletion keeps the protocol invariant |
| `JobProtocol.RunKeepsInv` | apps/recommendations/tasks.py:206-395 | The invariant holds along every interleaving |
| `JobProtocol.AtMostOnce` | apps/recommendations/tasks.py:206-342 | In every reachable state each body was entered at most once, no two workers execute one job, retry_count is 1 exactly for FAILED jobs and else 0, an error message is present exactly for FAILED jobs, and at most one job per type and target is active |
| `JobProtocol.StepAdvances` | apps/recommendations/tasks.py:206-277 | One step either leaves a job as it is or moves it to a later phase |
| `JobProtocol.PhasesAdvance` | apps/recommendations/tasks.py:206-342 | Along any run phases only advance, an unchanged phase means an unchanged job, and finished jobs never change |
| `JobProtocol.EndingIsRecorded` | apps/recommendations/tasks.py:266-277 | In every later state the row of a finished job says how its body ended, with time, count and message |
| `JobProtocol.FailedIffRaised` | apps/recommendations/tasks.py:266-277 | In every reachable state a finished job has a step that ended it, and is FAILED exactly if that step raised |
| `JobProtocol.CrashStrands` | apps/recommendations/tasks.py:228-277 | A crash leaves the job of its worker started, unfinished and with no worker |
| `JobProtocol.StrandedForever` | apps/recommendations/tasks.py:206-342 | Along every run such a job stays exactly as it is until its user is deleted, and is gone for good from then on |
| `JobProtocol.StrandedIsLatest` | apps/recommendations/tasks.py:285-299 | As long as it stays no job of its type and target is created |
| `JobProtocol.StrandedRebuildBlocks` | apps/recommendations/tasks.py:285-299 | A crashed rebuild without a target user, as the scheduler creates them, blocks the scheduler for good: whatever happens it creates no further one |
| `JobProtocol.LatestCheckSuffices` | apps/recommendations/services.py:51-60 | Looking at the latest refresh job of a user finds an active one if and only if there is any |
| `JobProtocol.ReadyMeansSettled` | apps/recommendations/services.py:22-71 | Ready means recommendations exist and no refresh is unfinished; the reported status is running exactly while one is running |
| `JobProtocol.RunningIsReported` | apps/recommendations/services.py:29-40 | The status is "running" if and only if some refresh of the user is running |
| `JobProtocol.StatusIsOfLatest` | apps/recommendations/services.py:29-40 | The report is failed, running, pending or success as the latest refresh is, and pending for a success without recommendations |
| `JobProtocol.StatusWithoutRefresh` | apps/recommendations/services.py:31-32 | Without any refresh it says whether there is a recommendation |
| `JobService.RecommendationJobs.GetLatestUserRefreshJob` | apps/recommendations/services.py:51-60 | Returns the most recently created refresh job of the user |
| `JobService.RecommendationJobs.EnqueueUserRefreshJobIfNeeded` | apps/recommendations/services.py:86-99 | Returns an unfinished refresh job of the user, new only if there was none; the invariant is kept |
| `JobService.RecommendationJobs.CreateRecommendationJob` | apps/recommendations/services.py:126-144 | Refuses if and only if any job of the type and target is unfinished |
| `JobService.RecommendationJobs.EnqueueSimilarityRebuildJobIfNeeded` | apps/recommendations/tasks.py:285-299 | Creates one job, if and only if no rebuild is unfinished |
| `JobService.RecommendationJobs.SelectPending` | apps/recommendations/tasks.py:347-357 | The oldest claimable unlocked jobs: one is passed over only when older ones fill the limit |
| `JobService.RecommendationJobs.ClaimPending` | apps/recommendations/tasks.py:347-366 | Exactly the selected jobs become RUNNING without a start time |
| `JobService.RecommendationJobs.ProcessPendingRecommendationJobs` | apps/recommendations/tasks.py:345-395 | Two claims in sequence, the rebuilds taking what the refreshes leave of the limit |
| `JobService.RecommendationJobs.BeginJob` | apps/recommendations/tasks.py:206-232 | Enters the body if and only if the job exists, has the type and, for a refresh, a target, and is pending or claimed but not started |
| `JobService.RecommendationJobs.EndJob` | apps/recommendations/tasks.py:266-277 | SUCCESS exactly when the body returned; on an error FAILED, the entry retry count plus one and the first 1000 characters of the text; finished now; every other row is unchanged and a deleted job stays deleted |
| `InteractionRecorder.Recorder.Record` | apps/interactions/services/view_log_service.py:44-83 | Errors without effect; an accepted call appends a row exactly if there is no cooldown or every weighted row of its key is older than it, and otherwise changes nothing and returns a row with the call's key |
| `InteractionRecorder.RecordCall` | apps/interactions/services/view_log_service.py:58-83 | The same on the log, with the fields of the new row; a suppressed call gets the latest row of its key |
| `InteractionRecorder.NewRowWeight` | apps/interactions/services/view_log_service.py:65-73 | The new row weighs base * multiplier * decay^min(r, 10), half-even to 0.0001, where r is the number of rows of the repeat key |
| `InteractionRecorder.RepeatCountCounts` | apps/interactions/services/view_log_service.py:65-69 | The repeat count is the number of rows with the repeat key |
| `InteractionRecorder.KeysPerAction` | apps/interactions/services/view_log_service.py:47-69 | The columns of the repeat key and the cooldown key of each action |
| `InteractionRecorder.ErrorsInOrder` | apps/interactions/services/view_log_service.py:27-42 | Which of the four errors a call meets, in the order of the checks |
| `InteractionRecorder.Recorder.RecordViewInteraction` | apps/interactions/services/view_log_service.py:20-83 | The recorder for views: the log and the reply |
| `InteractionRecorder.Recorder.RecordSearchInteraction` | apps/interactions/services/view_log_service.py:86-152 | The recorder for searches, whose cooldown key includes the query |
| `InteractionRecorder.Recorder.RecordStoreClickInteraction` | apps/interactions/services/view_log_service.py:155-226 | The recorder for store clicks, whose two keys include the store |
| `InteractionRecorder.NextKeepsLaw` | apps/interactions/services/view_log_service.py:44-83 | One call of any user, or a row of another service, keeps the weight law and the spacing, whatever the clocks of other calls |
| `InteractionRecorder.RunObeysLaw` | apps/interactions/services/view_log_service.py:44-226 | Over any run of calls of any users, mixed with rows of other services, with fixed rules: the i-th row of a repeat key has the weight of repeat i, and weighted rows of one cooldown key are more than the cooldown apart |
| `InteractionRecorder.LatestReusableIsLatest` | apps/interactions/services/view_log_service.py:47-57 | The row looked up has the cooldown key and no such row is later; none is found only if there is none |
| `InteractionRecorder.WeightIsRounded` | apps/interactions/services/view_log_service.py:70-73 | The weight of repeat n <= 10 is base * multiplier * decay^n rounded half to even to 0.0001 |
| `InteractionRecorder.WeightsMonotone` | apps/interactions/services/view_log_service.py:70-73 | Weights fall with a decay up to 1, rise from 1 on, and stand still from the tenth repeat |
| `InteractionRecorder.NeverRisesIff` | apps/interactions/services/view_log_service.py:70-73 | Repeats never gain weight if and only if the decay is at most 1, or unit * decay^10 is below unit + 1/2, or equal to it with an even unit, where unit is base * multiplier in 0.0001 |
| `InteractionRecorder.RepeatsCanGain` | apps/interactions/services/view_log_service.py:65-83 | A run under accepted rules in which a second view weighs 1.0010 after a first of 1.0000 |
| `InteractionRecorder.FirstElevenBounded` | apps/interactions/services/view_log_service.py:70-73 | With decay below 1 the first eleven weights sum to at most base * multiplier / (1 - decay) plus five units |
| `InteractionRecorder.LaterRowsWeighNoMore` | apps/interactions/services/view_log_service.py:65-83 | In the log of any run a later row of the same repeat key and source never weighs more, provided the decay is at most 1 or its growth is rounded away |
| `InteractionRecorder.SpacedSpan` | apps/interactions/services/view_log_service.py:58-63 | k rows of one cooldown key span at least (k - 1) * (cooldown + 1) |
| `InteractionRecorder.WindowHoldsFew` | apps/interactions/services/view_log_service.py:58-63 | A window of length L holds at most floor(L / cooldown) + 1 weighted rows of one key |
| `Accounts.StepKeepsInv` | apps/users/services/auth_service.py:118-234 | Every step, from sign-up to purge, keeps the account and token invariant |
| `Accounts.RunKeepsInv` | apps/users/services/auth_service.py:118-234 | The invariant holds along every run of calls |
| `Accounts.TokenConservation` | apps/users/services/auth_service.py:131-234 | In every reachable state the live tokens of a user number logins minus logouts since the last revocation, no token was accepted twice, deleted implies inactive, and no deleted, inactive or purged account has a live token |
| `Accounts.RunIsSafe` | apps/users/services/auth_service.py:131-234 | Under every token policy and in every reachable state deleted implies inactive, and no deleted, inactive or purged account has a live token |
| `Accounts.RotationKeepsCountIff` | apps/users/services/auth_service.py:222-225 | After any run under any policy a successful refresh keeps the number of live tokens if and only if it does not rotate or blacklists what it rotates |
| `Accounts.BlacklistedForever` | apps/users/services/auth_service.py:150-153 | A blacklisted token stays so through any run |
| `Accounts.RevocationIsFinal` | apps/users/services/auth_service.py:131-187 | After any run under any policy, once an account is deleted or restored, its password is changed or reset, or its status changes, no token the user held before is ever accepted again by a refresh or a logout |
| `Accounts.RestoreOrPurge` | apps/users/services/auth_service.py:137-142 | At any time a deleted account can be restored or may be purged, and both only at the deadline itself |
| `AccountCalls.LoginCall` | apps/users/services/auth_service.py:118-128 | When a login succeeds, which error each failed check gives, that a refusal changes nothing, and the one token a success adds |
| `AccountCalls.RefreshCall` | apps/users/services/auth_service.py:207-234 | When a refresh is accepted and which error each refusal gives; a refusal changes nothing |
| `AccountCalls.RefreshEffect` | apps/users/services/auth_service.py:222-234 | An accepted refresh adds one token of the same user and blacklists the presented one as the two settings say, and touches no other |
| `AccountCalls.LogoutCall` | apps/users/services/auth_service.py:196-204 | A logout succeeds exactly for a known, unexpired, live token, and blacklists exactly that one |
| `AccountCalls.SignUpCall` | apps/users/services/auth_service.py:107-112 | One new active account; all else is kept |
| `AccountCalls.DeleteMeCall` | apps/users/services/user_me_service.py:71-76 | Succeeds exactly for an active account, which is then deleted now and inactive with every session ended; others are kept |
| `AccountCalls.PasswordCalls` | apps/users/services/user_me_service.py:49-66 | Succeeds exactly for an active account and an accepted password; every session is ended and no account field changes |
| `AccountCalls.RestoreCall` | apps/users/services/auth_service.py:131-147 | Succeeds exactly with the right password for a deleted account up to the deadline; which error each refusal gives |
| `AccountCalls.SetStatusCall` | apps/users/services/admin_user_service.py:24-36 | The flag is set, activation undeletes, deactivation keeps the deletion mark, and sessions end exactly if a field changes |
| `AccountCalls.PurgeCall` | apps/users/tasks.py:12-18 | Exactly the accounts deleted at least the retention ago go, and only their tokens lose the owner |
| `AccountCalls.EveryTokenWasIssued` | apps/users/services/auth_service.py:190-234 | In every reachable state each token was made by a login with the right password or by a refresh of a live, unexpired token of the same user |
| `AccountCalls.NoSessionWithoutLogin` | apps/users/services/auth_service.py:118-234 | In every reachable state the user of each token logged in with the right password earlier |
| `AuthService.Service.RevokeAllRefreshTokens` | apps/users/services/auth_service.py:150-153 | The loop blacklists exactly the outstanding tokens of the user |
| `AuthService.Service.SignupUser` | apps/users/services/auth_service.py:90-115 | A confirmed code is consumed and one active account is created, or no account changes |
| `AuthService.Service.IssueAuthTokens` | apps/users/services/auth_service.py:190-193 | One new outstanding live token of the user |
| `AuthService.Service.Login` | apps/users/services/auth_service.py:118-128 | A token exactly for an existing, active account with the right password; a refusal changes nothing |
| `AuthService.Service.VerifyToken` | apps/users/services/auth_service.py:207-232 | Missing, unknown, expired and blacklisted tokens are told apart as the source reports them |
| `AuthService.Service.LogoutUser` | apps/users/services/auth_service.py:196-204 | Blacklists exactly the presented token; an expired or blacklisted one is invalid |
| `AuthService.Service.RefreshAccessToken` | apps/users/services/auth_service.py:207-234 | Account checks precede rotation; a refused call changes nothing |
| `AuthService.Service.ResetUserPassword` | apps/users/services/auth_service.py:156-187 | A reset needs an active account with a password and an accepted new one, consumes its code and ends every session, or leaves all accounts and tokens as they were |
| `AuthService.Service.RestoreUserAccount` | apps/users/services/auth_service.py:131-147 | Restores up to and including the deadline, and revokes every token |
| `AuthService.Service.DeleteUserMe` | apps/users/services/user_me_service.py:71-76 | Marks the account deleted and inactive, and revokes every token |
| `AuthService.Service.ChangePassword` | apps/users/services/user_me_service.py:49-66 | A changed password revokes every token |
| `AuthService.Service.UpdateAdminUserStatus` | apps/users/services/admin_user_service.py:24-36 | Activation also undeletes; tokens are revoked exactly when the status changed |
| `AuthService.Service.PurgeSoftDeletedUsers` | apps/users/tasks.py:12-18 | Removes exactly the accounts past retention and returns their number |
| `ResetCodes.StepKeepsInv` | apps/users/services/auth_service.py:54-187 | Sending, resetting, signing up and waiting keep the invariant that ties each reset code to its counter |
| `ResetCodes.GuessesBounded` | apps/users/services/auth_service.py:60-187 | In every reachable state at most 5 wrong guesses were compared with any one reset code, each code of either purpose authorised at most one call, and codes of one purpose and email were issued at least 60 s apart |
| `ResetCodes.CounterNeverLags` | apps/users/services/auth_service.py:22-187 | While a reset code is readable the counter equals the wrong guesses it has seen and is below 5, because the 1200 s counter outlives the 300 s code |
| `ResetCodes.BlockedIff` | apps/users/services/auth_service.py:158-160 | A reset is turned away with too many requests exactly while the readable counter is at least 5, whatever is guessed, and then changes nothing |
| `ResetCodes.FifthFailureBlocks` | apps/users/services/auth_service.py:163-168 | The fifth failure starts a block of 1200 s |
| `ResetCodes.BlockLastsIff` | apps/users/services/auth_service.py:60-168 | Within those 1200 s every reset of a run is turned away if and only if no new reset code is issued for the email meanwhile |
| `ResetCodes.BlockCanEndAfterAMinute` | apps/users/services/auth_service.py:60-168 | A run with five wrong guesses in which a code requested after 60 s ends the block |
| `ResetCodes.GuessLimitIff` | apps/users/services/auth_service.py:96-168 | The wrong guesses compared with one code are at most 5 in every run if and only if the purpose is a password reset |
| `ResetCodes.SignUpGuessesAreUncounted` | apps/users/services/auth_service.py:96-100 | For every n a run in which one sign-up code meets n wrong guesses and stays valid |
| `CodeCalls.ResetCall` | apps/users/services/auth_service.py:156-187 | When a reset succeeds, which error each case gives, and that a right code refused for another reason changes nothing |
| `CodeCalls.WrongResetCall` | apps/users/services/auth_service.py:162-168 | A wrong guess is counted for 1200 s more, and the fifth withdraws the code |
| `CodeCalls.SignUpCall` | apps/users/services/auth_service.py:90-115 | When a sign-up succeeds and which error each failed check gives; only success changes the cache |
| `CodeCalls.SendCall` | apps/users/services/auth_service.py:54-87 | When sending is refused; else a cooldown of 60 s, and a code readable for 300 s with a clean counter exactly where one is due |
| `CodeCalls.AcceptedIffPresented` | apps/users/services/auth_service.py:96-187 | Over any run a code counts as accepted if and only if a call presented its value in time and succeeded |
| `CodeCalls.StoredCodeWasSent` | apps/users/services/auth_service.py:75-78 | In every reachable state a stored code was sent to that address for that purpose |
| `CodeCalls.AcceptedCodeWasSent` | apps/users/services/auth_service.py:75-187 | Every accepted code was sent earlier, for the address and purpose of the call that presented it |
| `ResetCodes.EmailCodes.SignupUser` | apps/users/services/auth_service.py:90-115 | The errors in order; a wrong guess leaves the cache as it was, and success consumes the code and clears the counter |
| `ResetCodes.EmailCodes.SendEmailCode` | apps/users/services/auth_service.py:54-87 | The errors and the three cache writes of sending: cooldown always, code and cleared counter only where a code is due |
| `ResetCodes.EmailCodes.ResetUserPassword` | apps/users/services/auth_service.py:156-187 | Succeeds exactly below five readable failures with the readable code, for an ordinary account and an accepted password; the cache and the answer as the source orders the checks |
| `Affinity.AffinityService.UpdateGameInteraction` | apps/preferences/services.py:51-93 | The row and the appended log rows, also when the reaction is refused |
| `Affinity.UpdateCall` | apps/preferences/services.py:51-93 | An accepted call sets exactly what it was given, logs exactly what it changed with the reaction first, and moves the interaction time exactly then |
| `Affinity.ReactionNames` | apps/preferences/services.py:60-78 | like is 1, neutral 0, dislike -1, each logged under its own name, and nothing else is accepted |
| `Affinity.AffinityIsFoldOfLog` | apps/preferences/services.py:55-93 | Over any run is_saved is saves minus removals, like_state is the last reaction, saves and removals alternate starting with a save, and a reaction differs from the one before |
| `Affinity.ConsecutiveReactionsDiffer` | apps/preferences/services.py:70-78 | Two consecutive reaction rows of a key differ and the first is not neutral |
| `Affinity.RefusalIsIdleIff` | apps/preferences/services.py:56-68 | A refused call of the service changes nothing if and only if the row existed, logs nothing, and leaves a row |
| `Affinity.RefusalLeavesRow` | apps/preferences/services.py:56-68 | One refused direct call on an empty table leaves a row with no log row; the endpoint refuses unknown reactions earlier |
| `Affinity.RepeatedCallIsIdle` | apps/preferences/services.py:70-91 | A call repeated later changes neither the row, its interaction time nor the log |
| `RecentSearches.SearchHistory.SaveRecentSearchKeyword` | apps/users/services/search_recent_service.py:16-24 | Remove, push and trim for an active user; no other list changes |
| `RecentSearches.SearchHistory.GetRecentSearches` | apps/users/services/search_recent_service.py:27-32 | A prefix of the stored list: for a cap of at least 1 its first cap entries or all of a shorter list, for a lower cap all but the last -cap; refused exactly for an inactive account |
| `RecentSearches.SearchHistory.ClearRecentSearches` | apps/users/services/search_recent_service.py:35-39 | An empty list; no other list changes |
| `RecentSearches.SearchHistory.DeleteRecentSearchKeyword` | apps/users/services/search_recent_service.py:42-48 | Removes the keyword, or fails without effect if and only if it is not stored |
| `RecentSearches.StoredIsPrefix` | apps/users/services/search_recent_service.py:16-48 | For every run of saves, deletes and clears the stored list has no repeats, at most cap entries, is a prefix of the unbounded move-to-front list, and is read back whole |
| `RecentSearches.SavePutsFirst` | apps/users/services/search_recent_service.py:16-24 | Saving puts the keyword first, then the other entries in their order, as many as fit |
| `RecentSearches.DeleteTakesOne` | apps/users/services/search_recent_service.py:42-48 | Deleting takes out the one entry of the keyword and keeps the order of the rest |
| `RecentSearches.CapHoldsIff` | apps/users/services/search_recent_service.py:23 | The cap is respected by every run if and only if it is at least 1 |
| `RecentSearches.ZeroCapKeepsAll` | apps/users/services/search_recent_service.py:23 | With a cap of 0 the stored list is the unbounded one after every run |
| `RecentSearches.UnboundedIsDedup` | apps/users/services/search_recent_service.py:16-24 | Moving to the front is deduplicating the reversed history |
| `RecentSearches.SavedKeywordsAreMostRecent` | apps/users/services/search_recent_service.py:16-24 | After saves alone the list is the first cap entries of the deduplicated reversed history |
| `IgdbClient.Client.PostWithAuthRetry` | apps/games/igdb/client.py:169-176 | Succeeds if and only if the first request does, or it met an expired token, a new one was had and the second request succeeds |
| `IgdbClient.Client.FetchPage` | apps/games/igdb/client.py:202-207 | One page within four requests; isolated expired tokens that can be renewed, and isolated rate limits, are absorbed |
| `IgdbClient.Client.Paginate` | apps/games/igdb/client.py:192-218 | Ends within 500 pages, all but the last full; without an error they are the first 250000 items with no gap or repeat, with one a prefix; isolated renewable token and rate faults cause none |
| `IgdbClient.Client.GetGamesByIds` | apps/games/igdb/client.py:345-379 | Exactly the existing games among the ids, in chunks of 500; isolated expired tokens that can be renewed never fail it |
| `IgdbClient.LimitNeverCuts` | apps/games/igdb/client.py:369-374 | A limit of one row per requested id never cuts an answer, repeats in the request included |
| `IgdbCache.GameCache.GetGamesByIds` | apps/games/igdb/cache.py:211-234 | However entries are cached and expire the answer is the uncached one: existing requested games in request order with repeats; the cache stays coherent and gains what it lacked |
| `IgdbCache.ExistingLength` | apps/games/igdb/cache.py:234 | If every id exists the answer has one entry per id, in order |
| `IgdbCache.ExistingOne` | apps/games/igdb/cache.py:234 | A single id gives the detail of its game, or nothing if there is none |
| `IgdbCache.ExistingAppend` | apps/games/igdb/cache.py:234 | Splitting a request splits the answer; unknown ids leave no trace |
| `Autocomplete.NameMatchIsChosungMatch` | apps/games/views/autocomplete.py:101-105 | A Korean name-prefix match is always also an initials-prefix match |
| `Autocomplete.PriorityOfPrefix` | apps/games/views/autocomplete.py:101-119 | 3 for a prefix of the Korean name, else 2 for one of its initials, else 1 for one of the English name, else none |
| `Autocomplete.MatchesAreEarned` | apps/games/views/autocomplete.py:87-136 | A match is collected exactly if a scanned, fetched entry earns its priority, and it shows that entry |
| `Autocomplete.CollectBatch` | apps/games/views/autocomplete.py:87-136 | The matches of a batch in scan order, at their highest priority |
| `Autocomplete.ScanNames` | apps/games/views/autocomplete.py:76-139 | The matches of exactly the rounds up to 50, to the end of the cursor, or to the fiftieth match |
| `Autocomplete.ExtraAddsEachOnce` | apps/games/views/autocomplete.py:186-209 | Every matching cached game whose id is not yet taken is added once, at priority 1, and nothing else |
| `Autocomplete.EnrichWithIgdbCache` | apps/games/views/autocomplete.py:167-214 | The first matching cached game of every id not yet matched, over exactly the rounds up to 50, the end of the cursor, or the tenth addition |
| `Autocomplete.RankMatches` | apps/games/views/autocomplete.py:144-162 | Distinct ids, as many as there are up to 10, descending priority, each id at its best priority, and no omitted match above a shown one |
| `Autocomplete.EqualPrioritiesKeepOrder` | apps/games/views/autocomplete.py:145 | The sort keeps the order of collection among equal priorities |
| `Autocomplete.Search` | apps/games/views/autocomplete.py:65-164 | From the scans to the results: the top of everything the scanned rounds of both caches match |
| `Chosung.GetChosung` | apps/games/chosung.py:32-41 | The loop maps every syllable to its leading consonant and keeps the rest |
| `Chosung.GetChosungNormalized` | apps/games/chosung.py:44-48 | Initials without spaces |
| `Chosung.IndexInRange` | apps/games/chosung.py:36-38 | The computed index is in 0..18 |
| `Chosung.ListIsTheInitials` | apps/games/chosung.py:9-29 | The nineteen initial consonants in Unicode order: the compatibility consonants without the clusters |
| `Chosung.InitialsAt` | apps/games/chosung.py:34-41 | Every character is mapped in place |
| `Chosung.OtherCharacterStays` | apps/games/chosung.py:36-40 | A character that is no syllable stays as it is |
| `Chosung.NormalizedOne` | apps/games/chosung.py:44-48 | A space is dropped and any other character is mapped |
| `Chosung.ComposedInitial` | apps/games/chosung.py:36-38 | The syllable composed of (l, v, t), section 3.12 of the Unicode Standard, maps to leading consonant l |
| `Chosung.NormalizedAppend` | apps/games/chosung.py:44-48 | Normalisation distributes over concatenation |
| `Chosung.PrefixNormalizes` | apps/games/chosung.py:44-48 | A prefix normalises to a prefix |
| `Chosung.NormalizedIdempotent` | apps/games/chosung.py:44-48 | Normalising twice changes nothing, so a query typed in initials stands as it is |

## Left out

- Concurrent unlocked check-then-write calls (job creation, affinity updates, reset attempts, two refreshes of one user): each call is one step here.
- Liveness of jobs: nothing is proved about when a job finishes. What a crash leaves behind is (`StrandedForever`).
- Column limits of the database (a weight above 99.9999, a score's digits) and floating-point error in the cosine and the preference score.
- Social login, which ends in the same issuing step as a login.
- AuthService.Service.ResetUserPassword: takes the user of the email as an input instead of looking it up.
- AuthService.Service.SignupUser: takes the user of the email and whether the nickname is taken as inputs; the profile fields are left out.
- Access tokens, token strings and signatures, e-mail sending, metadata content.
- InteractionRecorder.LaterRowsWeighNoMore: assumes a non-negative base times multiplier, since a negative product reverses the order.
- The ghost counters of `Accounts` and `ResetCodes` (balance, uses, wrong guesses, accepted resets) are history, not stored state.
- IgdbCache.GameCache.GetGamesByIds: does not cover `get_game_detail`, which shares the cache key but requests other fields.
- IGDB, Wikidata, Kakao, Discord and Bbaton requests, back-off sleeps, the adapter's own retries of 5xx replies, S3 and images.
- Autocomplete.ScanNames: a SCAN is a sequence of batches; malformed keys, undecodable values and empty hashes are not part of it, and the one-minute result cache is left out.
- The Wikidata enqueue lock and its retries, views, serializers, admin lists, nickname and edition-suffix rules.
