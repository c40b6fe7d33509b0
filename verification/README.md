# Bookwyrm, modelled and verified

Bookwyrm fetches books: an indexer searches releases, a download queue hands them to download clients, an
importer files them in a library, and a metadata service merges provider records and recommends works. Most
of it is plumbing around a few stateful algorithms. This project models those algorithms in Dafny, in the form
the Go code has them (classes whose methods update maps, loops, pure text functions), and proves what they are
relied on for over all inputs, all runs and all map iteration orders.

`dafny verify dfyconfig.toml` checks the whole project.

## How the files fit together

| files | what they model |
|---|---|
| `FileSystems`, `MediaNames`, `Conservation`, `ImportEngine`, `ImportTheorems` | the import pipeline over a mutable file system whose operations may fail at any call |
| `LeaseMachine` | the lease discipline all three job stores share, as a machine for one job, and its run theorems |
| `DownloadStore`, `DownloadRuns`, `DownloadWorkers`, `Fallback` | the download queue, its interleaved workers, and candidate fallback |
| `IndexerStore`, `IndexerRuns` | search requests, candidates and grabs, against the SQL store as the simple specification |
| `ImportStore` | the import job store and the reconciliation of orphaned staging directories |
| `MergeSpec`, `Merger`, `MergeTheorems`, `MergeOrder`, `MergeTitle`, `MergeSubjects` | merging provider results: the loop, the fold it refines, closed forms, independence of arrival order and exactly where it ends |
| `Recommend`, `RecommendSources`, `RecommendCache`, `RecommendGaps` | the recommender, which works it can recommend and why, the soundness of its cache key, and what the key forgets |
| `Fingerprints`, `SearchPipeline` | dispatching one search and ranking what comes back |
| `Wanted`, `WantedRuns`, `WantedSteps` | the wanted lists and the scheduler's ticks, whole and lock by lock |
| `RestartPolicy`, `TokenBuckets`, `FixedWindows` | the three limiters over whole runs |
| `Isbn`, `SeriesOrder` | identifier checksums and series renumbering |
| `Paths`, `Sanitize`, `NamingPlan` | lexical path cleaning, sanitizing names, and where the renamer puts a file |
| `Wrappers`, `Text`, `Sorting` | shared vocabulary: options, sets and powers, ASCII text, stable sorting |

A store class is proved against step relations over snapshots of its fields; runs are sequences of such steps
with a clock, and the run theorems are lemmas over them. Iteration over a Go map is an arbitrary choice of the
next key, so every result here holds for each iteration order.

## What turned out false of the code

The code is modelled as it is. Where a tempting claim fails, a lemma shows the input and another says when it holds.

- A retry of an import can destroy a file staged by the failed attempt (`RetryCanLoseStagedFile`): the retry scans
  only the source, and the clean-up then removes the whole incoming directory. `ClearingKeepsExactlyTheProtected`
  is the exact condition, and `RetryGoesThrough` shows such an attempt.
- A review of more media files than the scan limit destroys those it did not scan (`LargeReviewLosesFile`,
  `LargeReviewGoesThrough`). When no two different files have one size and none under review has a copy elsewhere,
  everything survives if and only if the files under review fit the limit (`ReviewKeepsAllIffScanFits`).
- The rule "a file of the same size at the target is the same file" can drop the only copy of a different file
  (`MoveLosesExactly` says exactly when). Every move is therefore logged with the files before and after it, and a
  content counts as kept if it, or what a logged move took for it at its own destination, is still there;
  `DistinctSizesJudgeNothing` says when no content is ever taken for another.
- Canceling a download is not final (`CanceledJobCanRevive`). It is final if and only if no submission of the job is
  in flight and no poll worker has listed it (`CancelIsFinalIff`).
- The merged title can show the arrival order, and without scores, the default, it follows it (`TiedTitleShowsOrder`).
  It does not if and only if all highest-scored providers start the work with one title, and this is not blank or is
  the one every provider starts it with (`TitleIgnoresOrderIff`). The series does not if and only if all highest-scored
  providers naming one agree (`SeriesIgnoresOrderIff`).
- So can the subjects (`ManySubjectsShowOrder`). Their keys do not if and only if what each provider would show alone
  fits the cap together (`SubjectsIgnoreOrderIff`), as it does with at most twenty-five keys (`FewSubjectsIgnoreOrder`).
- The recommender's cache key forgets how often a seed is named, how seeds and exclusions are spelled, blank include
  types and the candidate limit, and for each of these two requests with one key have different answers
  (`RepetitionIsNotInKey`, `SeedSpellingIsNotInKey`, `ExclusionSpellingIsNotInKey`, `BlankTypeIsNotInKey`,
  `CandidateLimitIsNotInKey`). Requests with one key agree if the rounded totals do (`AgreeIfRounded`), and where
  nothing is cut off only then (`AgreeIff`, for seeds `SeedsAgreeIff`); `LimitsAgreeIff` settles the candidate limit.
- An entity can be taken for another in the grab index if and only if its type or ID holds a bar (`ConfusableIff`);
  `GrabsCanBeConfused` shows two grabs of one release.
- Two different identifiers of an edition can count as one when a kind holds a bar (`IdentifierKeyConfuses`); among
  kinds without one they count as one only if they agree but for case (`IdentifierKeyIff`).
- Pruning keeps the newest candidates, which are the worst-ranked ones of a search (`PruneKeepsRankingTail`). They are
  a best-scored choice if and only if nothing is dropped or all score the same (`PruneKeepsBestIff`).
- Restart delays stay between the base delay and the cap in every run if and only if the largest doubling fits an
  int64 (`DelaysInRangeIff`); with the default base the thirty-fourth restart of one run is granted with a negative
  delay (`DefaultDelayCanOverflow`).
- Sanitizing twice, under whatever limit, is sanitizing once if and only if the result is empty or no part of it is
  empty or ends in a dot or blank (`SanitizeIsIdempotentIff`). Cutting a long segment can leave a dot or blank, and
  cutting the path a separator, as the default limit of 240 does (`PathCutIsUnstable`, `DefaultLimitIsUnstable`).
- Cutting the whole path can leave `..`, which leads a single file out of its library. It does if and only if the
  limit cuts the name to two dots, behind which a backslash-style root trims a blank (`SinglePlanEscapesIff`).
- Below a backslash-style root an uncut book stays in the library if and only if cleaning leaves the root where it is
  (`SinglePlanStaysUnderRootIff`); for a root without spaces around it that means that no separator leads it
  (`RootKeepsPlaceIff`). A network share loses its books to a relative directory (`ShareIsLost`).

## Model

| member | source | states |
|---|---|---|
| ImportEngine.Engine.ScanMediaFiles | app/backend/internal/importer/filescan.go:36-74 | the media files found under a root are distinct and real, and complete unless the scan limit cut them |
| MediaNames.IsMediaIff | app/backend/internal/importer/filescan.go:14-61 | a media file is one of eight kinds by the end of its trimmed, lower-cased name, and no sample |
| ImportEngine.Engine.MoveOrCopy | app/backend/internal/importer/engine.go:711-742 | the whole effect of one move under every failure: an existing destination is never overwritten, and the source goes only once its content or a file of its size is there; when nothing fails, exactly when it succeeds and what it leaves |
| ImportEngine.Engine.NextKeepBothPath | app/backend/internal/importer/engine.go:636-651 | the first free copy name beside the original, unless all thousand are taken |
| MediaNames.CopiesDiffer | app/backend/internal/importer/engine.go:636-651 | no two copy names of a file are the same, nor is one its own name |
| MediaNames.CopyKeepsExt | app/backend/internal/importer/engine.go:636-651 | a copy has the extension of its original |
| ImportEngine.Engine.UniqueTrashPath | app/backend/internal/importer/engine.go:675-688 | a trash path that is free unless every numbered name is taken |
| MediaNames.TrashNamesDiffer | app/backend/internal/importer/engine.go:675-688 | no two trash names of one moment are the same |
| ImportEngine.Engine.MoveExistingToTrash | app/backend/internal/importer/engine.go:653-673 | a target is moved to the trash by one move, or nothing changes |
| ImportEngine.Engine.StageFiles | app/backend/internal/importer/engine.go:362-382 | every scanned file is moved to its path below incoming; when no operation fails only a file of another size already there stops it |
| ImportEngine.Engine.ApplyPlan | app/backend/internal/importer/engine.go:409-483 | a plan asks for a review if and only if its target holds a file of another size and the upgrade action is neither to replace nor to keep both; when no operation fails it is carried out unless its file or every free name is gone |
| ImportEngine.Engine.ProcessJob | app/backend/internal/importer/engine.go:332-509 | how an attempt ends: in review if and only if files were found and the match is not confident or the first plan not carried out meets a file of another size without a policy for it, imported if and only if all plans were carried out and the stores take the mark; when no operation fails, what else can end it early. At every exit a log of moves along the routes of the plan leads to the files left; every durable content, or what a logged move took for it, is durable (once cleared, if nothing else was in incoming); an import that stages no file where another still lies leaves each scanned content at its target, or beside it, unless a later plan replaced it |
| ImportEngine.StagingDoesNotClash | app/backend/internal/importer/engine.go:279-381 | no file is staged where another still lies, neither from a source outside incoming nor from an orphan, which is its own source |
| ImportEngine.IncomingIsApart | app/backend/internal/importer/engine.go:359-359 | the incoming directories of two downloads share nothing and neither lies in the other |
| ImportEngine.Engine.Decide | app/backend/internal/importer/engine.go:511-615 | a skip is a skip and an import happens if and only if every scanned file was settled and the stores take the mark; when no operation fails only a want of free names prevents that. Every durable content survives whenever the media under review fit the scan limit; keep_both touches nothing outside incoming; each staged content is at the path the decision gave it |
| ImportEngine.Engine.FinishImport | app/backend/internal/importer/engine.go:495-509 | the final removal of incoming loses nothing kept outside it and leaves nothing inside unless it fails; imported if and only if the stores take the mark |
| Conservation.MoveKeeps | app/backend/internal/importer/engine.go:711-742 | a move, failed or not, keeps every content of a set in the zone it has to stay in, itself or what the move took for it |
| Conservation.StandsOn | app/backend/internal/importer/engine.go:715-731 | standing in carries over from move to move |
| Conservation.StandInHasSize | app/backend/internal/importer/engine.go:715-731 | a stand-in has the size of the content it stands for |
| Conservation.MoveConserves | app/backend/internal/importer/engine.go:711-742 | a move preserves the import's conservation invariant while the set of pending staged files shrinks |
| ImportEngine.ExitKeepsDurableContents | app/backend/internal/importer/engine.go:332-615 | one exit, with no stray media in a cleared incoming directory, keeps every durable content or a stand-in for it at a durable path |
| ImportTheorems.JudgedAtItsPath | app/backend/internal/importer/engine.go:711-731 | whenever one content was taken for another, the files reached by the moves before held the lost one at the source and the kept one, of the same size, at the destination of a planned route |
| ImportTheorems.SurvivorHasSize | app/backend/internal/importer/engine.go:332-615 | whatever an exit lost has a survivor of its size at a durable path |
| ImportTheorems.RunKeepsDurableContents | app/backend/internal/importer/engine.go:332-615 | over any history of attempts and decisions a durable content stays durable, itself or what the moves of the history took it for |
| ImportTheorems.DistinctSizesJudgeNothing | app/backend/internal/importer/engine.go:715-731 | when sizes tell contents apart no content is ever taken for another |
| ImportTheorems.ClearingKeepsExactlyTheProtected | app/backend/internal/importer/engine.go:495-497 | after clearing, a content survives if and only if a handled path or a path outside incoming held it |
| ImportTheorems.RetryCanLoseStagedFile | app/backend/internal/importer/engine.go:332-381 | a concrete retry that destroys a file staged by the failed attempt |
| ImportTheorems.RetryGoesThrough | app/backend/internal/importer/engine.go:332-509 | such a retry exists: its log and the files it leaves |
| ImportTheorems.ReviewKeepsAllIffScanFits | app/backend/internal/importer/engine.go:528-581 | when no two different files have one size and none under review has a copy elsewhere, a decision that empties incoming keeps every durable content if and only if the media under review fit the scan limit |
| ImportTheorems.LargeReviewLosesFile | app/backend/internal/importer/engine.go:528-581 | a concrete review of two books under a limit of one that destroys one of them |
| ImportTheorems.LargeReviewGoesThrough | app/backend/internal/importer/engine.go:528-581 | such a review exists: its scan, its log and the files it leaves |
| ImportTheorems.AttemptPlacesEveryFile | app/backend/internal/importer/engine.go:415-491 | with distinct targets, and nothing to replace or everything, each scanned content is at its target or beside it |
| ImportTheorems.MoveLosesExactly | app/backend/internal/importer/engine.go:715-731 | a move loses a content if and only if the same-size rule drops its only copy for a different file |
| LeaseMachine.BackoffGrows | app/backend/internal/downloadqueue/store.go:363-372 | the recovery backoff never shrinks with the attempt and stays between 2 and 128 seconds |
| LeaseMachine.BackoffDoubles | app/backend/internal/downloadqueue/store.go:363-372 | two seconds at first and twice as long with each attempt up to the seventh |
| LeaseMachine.RunIsDisciplined | app/backend/internal/downloadqueue/store.go:150-229 | in every run, from before the job's creation, a lease is held exactly while leased and claims are paid for by attempts or retries |
| LeaseMachine.ClaimsAreBounded | app/backend/internal/downloadqueue/store.go:150-229 | any run of a job, from before its creation, has at most maxAttempts claims plus one per operator retry |
| LeaseMachine.ClaimsAreSpaced | app/backend/internal/downloadqueue/store.go:150-229 | two claims with no requeue or retry between are at least the lease and the recovery pause apart |
| DownloadStore.Store.Create | app/backend/internal/downloadqueue/store.go:85-104 | a job under a fresh ID, nothing else changed |
| DownloadStore.Store.ClaimNextQueued | app/backend/internal/downloadqueue/store.go:150-181 | claims an eligible job of minimal creation time whatever the map order, or there is none |
| DownloadStore.Store.RecoverExpiredLeases | app/backend/internal/downloadqueue/store.go:183-229 | recovers exactly min(limit, number expired) distinct expired jobs |
| DownloadStore.RecoveryPassJobs | app/backend/internal/downloadqueue/store.go:183-229 | a pass applies the recovery rule to the chosen jobs and to no other |
| DownloadStore.RecoveryPassLogs | app/backend/internal/downloadqueue/store.go:183-229 | a pass logs exactly one event per recovered job, under consecutive fresh IDs |
| DownloadStore.Store.Submit | app/backend/internal/downloadqueue/store.go:270-286 | marks a job submitted to the client and ends its lease |
| DownloadStore.Store.Update | app/backend/internal/downloadqueue/store.go:288-304 | records progress, even over a canceled job |
| DownloadStore.Store.Cancel | app/backend/internal/downloadqueue/store.go:341-343 | cancels like a progress update |
| DownloadStore.Store.SetImported | app/backend/internal/downloadqueue/store.go:306-317 | sets the imported mark and nothing else |
| DownloadStore.Store.RescheduleJob | app/backend/internal/downloadqueue/store.go:319-339 | requeues a job with attempts left, otherwise fails it |
| DownloadStore.Store.Retry | app/backend/internal/downloadqueue/store.go:345-361 | requeues without resetting attempts |
| DownloadStore.Store.LogEvent | app/backend/internal/downloadqueue/store.go:381-392 | appends an event under a fresh ID to the log of an existing job |
| DownloadRuns.StepRefinesLeaseMachine | app/backend/internal/downloadqueue/store.go:85-361 | every store step moves every job as the lease machine allows, and creates jobs fresh |
| DownloadRuns.RunRefinesLeaseMachine | app/backend/internal/downloadqueue/store.go:85-361 | seen from one job, created before or during it, a run of the store is a run of the lease machine |
| DownloadRuns.ClaimsAreBounded | app/backend/internal/downloadqueue/store.go:85-361 | in any run a job created in it, or fresh at its start, is claimed at most MaxAttempts times plus the number of retries |
| DownloadRuns.ClaimsAreSpaced | app/backend/internal/downloadqueue/store.go:150-229 | two claims of one job with no retry or reschedule between are the lease TTL plus the recovery backoff apart |
| DownloadWorkers.NormalizeState | app/backend/internal/downloadqueue/manager.go:505-522 | no client answer puts a job back in the queue; what each answer comes to is `StatusAfterStep` |
| DownloadWorkers.StatusAfterStep | app/backend/internal/downloadqueue/manager.go:155-287 | which status each step leads to, from the client's word itself: completed, failed, canceled and the rest if and only if it is the reported word, whatever its case and spaces, an unknown word means downloading, and only an answer with an output path changes the path |
| DownloadWorkers.ErrorAfterStep | app/backend/internal/downloadqueue/manager.go:155-287 | the error on record is that of the last failure, cleared by an answer, a cancel or a retry |
| DownloadWorkers.CompletedWasReported | app/backend/internal/downloadqueue/manager.go:235-287 | in every reachable state a completed job was reported completed by the client, nothing has happened to it since, and its output path is the one reported |
| DownloadWorkers.HandsAreExact | app/backend/internal/downloadqueue/manager.go:155-287 | in every run each claim has at most one outcome and each listing at most one answer |
| DownloadWorkers.StepStrandsNothing | app/backend/internal/downloadqueue/manager.go:155-287 | every submit, poll, recovery and API step keeps every unfinished job owned by some worker or timer |
| DownloadWorkers.NoJobIsStranded | app/backend/internal/downloadqueue/manager.go:155-287 | in every reachable state a non-terminal job is queued, submitted under a lease of lock time plus TTL, or active with a download ID |
| DownloadWorkers.CanceledJobCanRevive | app/backend/internal/downloadqueue/manager.go:155-233 | a run from the empty store in which a job canceled while its submission is in flight ends up downloading |
| DownloadWorkers.CancelIsFinalIff | app/backend/internal/downloadqueue/manager.go:125-287 | in every further run without a retry a canceled job stays canceled, if and only if no submission of it is in flight and no poll worker has it listed |
| DownloadWorkers.CanceledThroughoutIff | app/backend/internal/downloadqueue/store.go:270-361 | over any run a canceled job stays canceled as long as, and only as long as, no submission outcome, other poll answer or retry of it is recorded |
| DownloadWorkers.SystemRunIsStoreRun | app/backend/internal/downloadqueue/manager.go:155-344 | every run of the workers is a run of the store |
| DownloadWorkers.SubmissionsAreBounded | app/backend/internal/downloadqueue/manager.go:155-233 | over any run of the workers a job is submitted at most MaxAttempts times plus once per retry |
| DownloadWorkers.LogStaysInOrder | app/backend/internal/downloadqueue/store.go:381-392 | in every reachable state event IDs are unique over all jobs and each log ascends |
| Fallback.AppendAttempted | app/backend/internal/downloadqueue/manager.go:642-661 | the positive IDs once each, and the new one |
| Fallback.IDsFromSet | app/backend/internal/downloadqueue/manager.go:663-671 | exactly the positive members, in some order |
| Fallback.UsedForWork | app/backend/internal/downloadqueue/manager.go:673-689 | exactly what the jobs of the same work have chosen or attempted |
| Fallback.Manager.EnqueueGrab | app/backend/internal/downloadqueue/manager.go:380-436 | a fresh queued job for the candidate's uri and the grab's work, remembering the attempted candidates, and its event; or an error exactly when there is no URI or no client |
| Fallback.Manager.TryFallback | app/backend/internal/downloadqueue/manager.go:449-503 | there is a replacement if and only if some candidate with a grab is usable and there is a client; it takes the first such candidate, never one attempted by the job or used for its work, and leaves all other jobs alone |
| Fallback.ChainAttempts | app/backend/internal/downloadqueue/manager.go:449-503 | along a chain of replacements the attempted set grows by each candidate chosen |
| Fallback.ChainIsBounded | app/backend/internal/downloadqueue/manager.go:449-503 | no candidate is chosen twice and a chain is no longer than the untried part of the list |
| IndexerStore.Store.CreateOrGetSearchRequest | indexer-service/internal/indexer/store.go:257-281 | one request per key, forever the same |
| IndexerStore.Store.TryLockNextSearchRequest | indexer-service/internal/indexer/pgstore.go:263-300 | the in-memory lock does what the SQL statement selects: an eligible queued request of minimal creation time |
| IndexerStore.Store.RecoverExpiredSearchRequests | indexer-service/internal/indexer/store.go:364-397 | recovers exactly min(limit, number expired) requests and touches no other |
| IndexerStore.Store.RescheduleSearchRequest | indexer-service/internal/indexer/store.go:399-419 | requeues or fails one request, keeping running, locked and leased equivalent |
| IndexerStore.Store.MarkSearchRequestSucceeded | indexer-service/internal/indexer/store.go:421-436 | finishes one request and releases its lock |
| IndexerStore.Store.ReplaceCandidates | indexer-service/internal/indexer/store.go:438-461 | the listed candidates are the given ones under fresh IDs, in both indexes |
| IndexerStore.Store.PruneStaleCandidates | indexer-service/internal/indexer/store.go:705-729 | prunes every long list at once, removing the dropped from both indexes, and counts them |
| IndexerStore.KeptIsNewest | indexer-service/internal/indexer/store.go:711-724 | a pruned list keeps min(length, limit) candidates, each newer than any dropped |
| IndexerStore.PruneKeepsRankingTail | indexer-service/internal/indexer/store.go:447-459 | pruning the stored candidates of one search keeps the tail of its ranking, reversed |
| IndexerStore.PruneKeepsBestIff | indexer-service/internal/indexer/store.go:711-724 | what is kept is a best-scored choice if and only if nothing is dropped or all releases score the same |
| IndexerStore.PruneCanKeepWorse | indexer-service/internal/indexer/store.go:711-724 | of two releases the worse one is kept |
| IndexerStore.PruningConserves | indexer-service/internal/indexer/store.go:705-729 | total listed equals kept plus pruned, no dropped ID remains, no list exceeds the limit |
| IndexerStore.Store.CreateGrab | indexer-service/internal/indexer/store.go:489-521 | the indexed grab if there is one for the fingerprint and entity, else a new one |
| IndexerRuns.RunIsValid | indexer-service/internal/indexer/store.go:257-521 | in every reachable state keys and requests are in bijection, running, locked and leased coincide, and all indexes agree |
| IndexerRuns.RunRefinesLeaseMachine | indexer-service/internal/indexer/store.go:257-436 | seen from one request, created before or during it, a run of the indexer store is a run of the lease machine |
| IndexerRuns.LocksAreBounded | indexer-service/internal/indexer/store.go:257-436 | in any run a request created in it, or fresh at its start, is locked for a search at most maxAttempts times |
| IndexerRuns.LocksAreSpaced | indexer-service/internal/indexer/store.go:328-397 | two searches with no reschedule between are the lease and the backoff apart |
| IndexerRuns.RunKeepsIndexes | indexer-service/internal/indexer/store.go:257-521 | requests by key and grabs by key are never forgotten or redirected |
| IndexerRuns.SameGrabForever | indexer-service/internal/indexer/store.go:489-521 | grabbing a release for an entity again returns the same grab, at any later time |
| IndexerRuns.GrabKeyIsInjective | indexer-service/internal/indexer/store.go:496-503 | the joined key determines fingerprint and entity when entity type and ID hold no bar |
| IndexerRuns.TwoGrabsAreOneIff | indexer-service/internal/indexer/store.go:489-521 | two grabs return one record if and only if their joined keys agree |
| IndexerRuns.ConfusableIff | indexer-service/internal/indexer/store.go:496-503 | some other entity of the same release has the same key if and only if the type or ID holds a bar |
| IndexerRuns.GrabsCanBeConfused | indexer-service/internal/indexer/store.go:489-521 | two grabs of one release, for two entities, that return the first entity's record |
| ImportStore.Store.CreateOrGetFromDownload | app/backend/internal/importer/store_memory.go:37-64 | one import job per download |
| ImportStore.Store.ClaimNextQueued | app/backend/internal/importer/store_memory.go:66-98 | claims a queued job of minimal creation time whatever the map order, or none is queued |
| ImportStore.Store.RecoverExpiredLeases | app/backend/internal/importer/store_memory.go:100-145 | recovers exactly min(limit, number expired) jobs, all of them expired |
| ImportStore.Store.Finish | app/backend/internal/importer/store_memory.go:185-308 | every finishing, retrying, approving or skipping call releases lock and lease and changes one job |
| ImportStore.Store.ReconcileIncomingOrphans | app/backend/internal/importer/engine.go:279-330 | afterwards every numbered incoming directory belongs to a job, and the new jobs are exactly reviews of orphans, for the work and edition of their downloads |
| ImportStore.StepRefinesLeaseMachine | app/backend/internal/importer/store_memory.go:37-308 | every step moves every import job as the lease machine allows, and creates jobs fresh |
| ImportStore.ImportAttemptsAreBoundedAndSpaced | app/backend/internal/importer/store_memory.go:37-308 | in any run a job created in it, or fresh at its start, is claimed at most maxAttempts times plus once per retry or approval; claims without a requeue between are the lease apart |
| Merger.MergeWorksWeighted | metadata-service/internal/resolver/merge.go:47-155 | the nested loops return one finished fold per fingerprint, in first-seen order |
| Merger.ScoredMeans | metadata-service/internal/resolver/merge.go:58-77 | a work keeps its fingerprint or gets that of its title, first author and year; unknown providers score zero |
| Merger.AbsorbWork | metadata-service/internal/resolver/merge.go:82-127 | the branch for a known fingerprint performs one step of the fold |
| Merger.MergeSubjects | metadata-service/internal/resolver/merge.go:167-198 | the loop over a seen set merges the lists first come first served: trimmed, non-blank, one per key, at most the cap |
| Merger.MergeEditionIdentifiers | metadata-service/internal/resolver/merge.go:200-220 | each edition's identifiers normalised and kept once |
| MergeSpec.IdentifierKeyIff | metadata-service/internal/resolver/merge.go:200-220 | among kinds without a bar two identifiers count as one if and only if kind and value agree but for the value's case |
| MergeSpec.IdentifierKeyConfuses | metadata-service/internal/resolver/merge.go:200-220 | two identifiers with bars that count as one |
| Merger.PickBestYear | metadata-service/internal/resolver/merge.go:222-245 | the best-voted year under the tie rules, whatever the map order |
| MergeSpec.BestYearIsUnique | metadata-service/internal/resolver/merge.go:222-245 | the tie rules leave exactly one best year |
| MergeTheorems.FoldCollects | metadata-service/internal/resolver/merge.go:68-147 | incremental subject merging equals one capped merge of the concatenation, with unique keys; editions are all conserved, each cleaned once |
| MergeTheorems.WinnerWins | metadata-service/internal/resolver/merge.go:157-165 | the winner is the first item of highest score that qualifies |
| MergeTheorems.FoldPicksSeries | metadata-service/internal/resolver/merge.go:157-165 | the series is that of the first highest-scored work naming one |
| MergeTheorems.FoldKeepsLastRecord | metadata-service/internal/resolver/merge.go:88-102 | title and authors come from the last strict record of the score that supplies them |
| MergeTheorems.TitleOfWinner | metadata-service/internal/resolver/merge.go:88-102 | when the first highest-scored work has a title, that is the merged title |
| MergeTheorems.ConfidenceIff | metadata-service/internal/resolver/merge.go:247-262 | a merged work's confidence is full if and only if authors, year, editions and title are all there, and reaches 0.85 if and only if authors and two of the others are |
| MergeTheorems.MoreIsMoreConfident | metadata-service/internal/resolver/merge.go:247-262 | of two merged works the one with more parts has the higher confidence, authors counting twice |
| MergeOrder.FoldVotesYear | metadata-service/internal/resolver/merge.go:116-122 | the merged year is the best under votes and top scores counted over all works |
| MergeOrder.YearIgnoresOrder | metadata-service/internal/resolver/merge.go:222-245 | the year does not depend on the order of the works |
| MergeOrder.MergeIgnoresArrivalOrder | metadata-service/internal/resolver/resolver.go:187-198 | for every permutation of the batches: same fingerprints, same multiset of editions, same year |
| MergeOrder.WinnerIgnoresOrder | metadata-service/internal/resolver/merge.go:157-165 | with distinct provider scores the winning work does not depend on batch order |
| MergeOrder.DistinctScoresFixSeriesAndTitle | metadata-service/internal/resolver/merge.go:47-155 | with distinct scores the series is fixed, and the title too when the first highest-scored work has one |
| MergeTitle.TitleIgnoresOrderIff | metadata-service/internal/resolver/merge.go:88-102 | whatever the scores, the merged title is the same for every arrival order if and only if all highest-scored providers start the work with one title, which is not blank or is the one every provider starts it with |
| MergeTitle.DistinctTitleIgnoresOrderIff | metadata-service/internal/resolver/merge.go:88-102 | with distinct scores: if and only if the first highest-scored work has a title or all providers' first works carry the same one |
| MergeTitle.TiedTitleShowsOrder | metadata-service/internal/resolver/merge.go:58-65 | two providers without scores whose order of arrival decides the title |
| MergeTitle.TwoTitles | metadata-service/internal/resolver/resolver.go:187-198 | two orders of the batches with two merged titles, when the winning work has no title and some provider starts with another one |
| MergeTitle.TiedTitles | metadata-service/internal/resolver/resolver.go:187-198 | two orders with two titles, when two highest-scored providers start the work differently |
| MergeTitle.SeriesIgnoresOrderIff | metadata-service/internal/resolver/merge.go:157-165 | the merged series is the same for every arrival order if and only if all highest-scored providers naming one agree |
| MergeSubjectOrder.SubjectsIgnoreOrderIff | metadata-service/internal/resolver/merge.go:167-198 | the merged subject keys are the same for every arrival order if and only if the keys each provider would show alone fit the cap together |
| MergeSubjectOrder.AllAreShown | metadata-service/internal/resolver/merge.go:167-198 | then the merged work shows all of them |
| MergeSubjectOrder.FewSubjectsIgnoreOrder | metadata-service/internal/resolver/merge.go:167-198 | in particular with at most twenty-five different keys |
| MergeSubjectOrder.ManySubjectsShowOrder | metadata-service/internal/resolver/merge.go:167-198 | a provider with twenty-five subjects and one with another, whose order decides what is shown |
| MergeTitle.RecordIsBatchFirst | metadata-service/internal/resolver/merge.go:88-102 | in every order the first work and each later record start their batch |
| Recommend.Engine.Collect | metadata-service/internal/recommend/engine.go:122-241 | the candidate map is the sum of what all seeds suggest, less the excluded |
| RecommendSources.CandidateIff | metadata-service/internal/recommend/engine.go:122-241 | a work is a candidate if and only if it is neither blank, excluded nor a seed and, for some seed, the authors, series, subjects or relationships, as far as the request names them, name it with a positive weight |
| RecommendSources.AuthorsOnlyTotal | metadata-service/internal/recommend/engine.go:203-220 | asked for authors only, a work's total is the author weight for every time the seeds' author lists name it |
| Recommend.NormalizedMeans | metadata-service/internal/recommend/engine.go:99-107 | twenty works unless asked otherwise, never more than a hundred |
| Recommend.Engine.Rank | metadata-service/internal/recommend/engine.go:243-254 | every candidate once, by normalised score and then ID, whatever the map order |
| Recommend.NormalizeScoreMeans | metadata-service/internal/recommend/scoring.go:36-44 | a rounded score lies between nothing and one, half a ten-thousandth from the score at most |
| Recommend.Engine.Recommend | metadata-service/internal/recommend/engine.go:89-311 | an answer is one computed for a served request with the same key; a hit changes nothing and a miss caches its own answer |
| Recommend.Engine.ApplyPreferenceBoost | metadata-service/internal/recommend/engine.go:395-428 | boosts the works in a wanted format, leaving their order as it was |
| RecommendCache.SameKeySameSeeds | metadata-service/internal/recommend/engine.go:450-487 | canonical seed lists with one key are permutations of each other |
| RecommendCache.SuggestionsIgnoreOrder | metadata-service/internal/recommend/engine.go:126-241 | permuting seeds permutes the suggestions |
| RecommendCache.TotalsAreSums | metadata-service/internal/recommend/engine.go:344-355 | the map holds for each work the sum of its counted suggestions |
| RecommendCache.TotalsIgnoreOrder | metadata-service/internal/recommend/engine.go:344-355 | the summed map depends on the suggestions as a multiset only |
| RecommendCache.RankingIsUnique | metadata-service/internal/recommend/engine.go:243-254 | there is one ranking of a candidate map |
| RecommendCache.SameKeySameAnswer | metadata-service/internal/recommend/engine.go:450-487 | canonical requests with one key and one candidate limit have one answer |
| RecommendCache.CacheAgreesWithRecomputation | metadata-service/internal/recommend/engine.go:89-311 | a cache hit returns what a fresh computation would |
| RecommendGaps.AgreeIfRounded | metadata-service/internal/recommend/engine.go:89-311 | whatever the limits and preferences, two requests with one key and one candidate limit have one answer if their totals round alike |
| RecommendGaps.AgreeIff | metadata-service/internal/recommend/engine.go:243-311 | with room for all candidates, all known, and no preferences, two requests have one answer if and only if their totals round alike |
| RecommendCache.SameValuesSameKey | metadata-service/internal/recommend/engine.go:450-487 | lists with one set of normalised values have one sorted form, however often and in whatever spelling each is named |
| RecommendGaps.SeedsAgreeIfRounded | metadata-service/internal/recommend/engine.go:89-311 | any two seed lists naming the same works share their key, and whatever the limits and preferences their answers agree if the totals round alike |
| RecommendGaps.SeedsAgreeIff | metadata-service/internal/recommend/engine.go:89-311 | where nothing is cut off or hidden, they agree if and only if the totals round alike |
| RecommendGaps.RepeatedSeedAgreesIff | metadata-service/internal/recommend/engine.go:450-487 | in particular for one seed named twice: the answers agree if and only if doubling changes no total's rounding |
| RecommendGaps.RepetitionDoubles | metadata-service/internal/recommend/engine.go:126-241 | naming a seed twice doubles every total |
| RecommendGaps.RepetitionIsNotInKey | metadata-service/internal/recommend/engine.go:450-487 | a concrete catalog and two requests with one key and two answers |
| RecommendGaps.SeedSpellingIsNotInKey | metadata-service/internal/recommend/engine.go:450-487 | any other spelling of a seed shares its key; a concrete catalog with two answers |
| RecommendGaps.ExclusionSpellingIsNotInKey | metadata-service/internal/recommend/engine.go:450-487 | an exclusion in capitals shares the key of the small one; two answers |
| RecommendGaps.BlankTypeIsNotInKey | metadata-service/internal/recommend/engine.go:450-487 | a blank include type shares the key of no include type; two answers |
| RecommendGaps.LimitsAgreeIff | metadata-service/internal/recommend/engine.go:255-290 | requests that differ in the candidate limit share a key, and have one answer if and only if the shorter cut holds enough known works or no work between the limits is known |
| RecommendGaps.CandidateLimitIsNotInKey | metadata-service/internal/recommend/engine.go:450-466 | a concrete catalog and two requests with one key and two answers |
| RecommendGaps.AskingIsAnswered | metadata-service/internal/recommend/engine.go:89-311 | the two answers |
| Fingerprints.SortedIdentifiers | indexer-service/internal/indexer/scoring.go:97-114 | the identifier part is the same for every iteration order of the map |
| Fingerprints.SameValuesSamePart | indexer-service/internal/indexer/scoring.go:97-114 | it depends on the normalised values alone |
| Fingerprints.ReleaseFingerprint | indexer-service/internal/indexer/scoring.go:77-95 | the fingerprint is a function of the release, independent of map order |
| Fingerprints.SizeBucketIff | indexer-service/internal/indexer/scoring.go:81-85 | two sizes count as one if and only if they lie in the same megabyte |
| Fingerprints.TitleSpellingDoesNotMatter | indexer-service/internal/indexer/scoring.go:77-95 | without identifiers, titles of the same words share a fingerprint whatever their spacing and case |
| Fingerprints.IdentifiersOutweighTitles | indexer-service/internal/indexer/scoring.go:73-95 | releases with the same identifiers, protocol and size share a fingerprint whatever their titles |
| SearchPipeline.Orchestrator.ListBackends | indexer-service/internal/indexer/store.go:104-118 | every backend once, by priority and ID |
| SearchPipeline.Orchestrator.OrderedBackends | indexer-service/internal/indexer/orchestrator.go:273-309 | exactly the eligible backends in the dispatch order |
| SearchPipeline.DispatchSortIsLexicographic | indexer-service/internal/indexer/orchestrator.go:288-304 | the stable dispatch sort of the list by priority and ID is one sort by preferred, tier, score, priority, ID |
| SearchPipeline.DispatchMeans | indexer-service/internal/indexer/orchestrator.go:288-304 | of two backends the preferred one comes first, then the one of the better tier with quarantined ones near the end, then the more reliable, then by priority and ID |
| SearchPipeline.Orchestrator.Search | indexer-service/internal/indexer/orchestrator.go:123-174 | a search answers the ranked, cut list of the pipeline for the one dispatch order |
| SearchPipeline.DedupeCandidates | indexer-service/internal/indexer/scoring.go:59-75 | keeps the first candidate of every fingerprint |
| SearchPipeline.DedupedFacts | indexer-service/internal/indexer/scoring.go:59-75 | the kept fingerprints are pairwise distinct and none is missing |
| SearchPipeline.SurvivorsAreEarliest | indexer-service/internal/indexer/scoring.go:59-75 | a survivor comes from the earliest dispatched backend that returned its release |
| SearchPipeline.ApplyScoring | indexer-service/internal/indexer/scoring.go:8-57 | every candidate scored and the list stably sorted by score and ID |
| SearchPipeline.HasIdentifierIff | indexer-service/internal/indexer/scoring.go:116-127 | an identifier matches by its text, whatever the spaces around it and the case |
| SearchPipeline.MatchOutscores | indexer-service/internal/indexer/scoring.go:8-57 | a candidate matching more identifiers outscores any other of its backend or is at the cap |
| SearchPipeline.SourceOutscores | indexer-service/internal/indexer/scoring.go:8-57 | of two alike the one from the more reliable backend scores higher, being preferred counting as a fifth |
| SearchPipeline.TitleAndSeedersLift | indexer-service/internal/indexer/scoring.go:8-57 | a matching title and waiting seeders each lift the base score by a twentieth |
| SearchPipeline.RankedFacts | indexer-service/internal/indexer/orchestrator.go:153-158 | the ranking holds every survivor once, scored, and never descends |
| SearchPipeline.AnswerIsSound | indexer-service/internal/indexer/orchestrator.go:123-174 | at most the limit, distinct fingerprints, best first, scores at most 0.99, each from the earliest backend |
| SearchPipeline.AnswerIsTopK | indexer-service/internal/indexer/orchestrator.go:159-165 | a candidate is left out only by a full answer none of whose members it beats |
| SearchPipeline.AnswerIsDetermined | indexer-service/internal/indexer/orchestrator.go:123-174 | the answer does not depend on map iteration order |
| Wanted.Store.SetWantedWork | indexer-service/internal/indexer/store.go:533-556 | stores a record with its cadence defaulted, keeping when it was last enqueued |
| Wanted.Store.DeleteWantedWork | indexer-service/internal/indexer/store.go:574-582 | forgets one work |
| Wanted.Store.ListDueWantedWorks | indexer-service/internal/indexer/store.go:584-603 | exactly the due works, by priority and ID |
| Wanted.Store.ListDueWantedAuthors | indexer-service/internal/indexer/store.go:670-689 | exactly the due authors, by priority and ID |
| Wanted.DueListMeans | indexer-service/internal/indexer/store.go:595-602 | smaller priority numbers first, then smaller IDs |
| Wanted.Store.MarkWantedWorkEnqueued | indexer-service/internal/indexer/store.go:605-617 | marks one work and changes nothing else |
| Wanted.Store.EnqueueDueWanted | indexer-service/internal/indexer/orchestrator.go:236-271 | a tick enqueues and marks exactly the first of the due works and then of the due authors that the budget covers |
| Wanted.TickIsDetermined | indexer-service/internal/indexer/orchestrator.go:236-271 | a tick has one outcome whatever the map order |
| Wanted.TickDrains | indexer-service/internal/indexer/orchestrator.go:236-271 | after a tick exactly the due items beyond the budget are still due, in the same order |
| WantedRuns.TickMarks | indexer-service/internal/indexer/orchestrator.go:236-271 | a tick marks an item only if it is due and leaves the others alone |
| WantedRuns.SearchesAreSpaced | indexer-service/internal/indexer/store.go:584-617 | two searches for one item with no deletion or cadence change between are at least its cadence apart, whatever the clock does |
| WantedSteps.SearchesStaySpaced | indexer-service/internal/indexer/orchestrator.go:236-271 | the same when edits come between listing and marking, for an item that was there at the first search |
| WantedSteps.TraceIsOrderly | indexer-service/internal/indexer/orchestrator.go:236-271 | in every such run no tick lists an item twice |
| RestartPolicies.RestartPolicy.AllowRestart | launcher/internal/launcher/restart_policy.go:13-45 | one call performs one step of the sliding window, in int64 arithmetic |
| RestartPolicies.GrantedIffBudgetLeft | launcher/internal/launcher/restart_policy.go:27-37 | a restart is granted if and only if fewer than the limit of all earlier grants lie less than a window back |
| RestartPolicies.RestartsAreBounded | launcher/internal/launcher/restart_policy.go:27-37 | no half-open interval of one window's length holds more than the limit of grants |
| RestartPolicies.GrantHasDelay | launcher/internal/launcher/restart_policy.go:37-43 | in every run a granted restart gets the delay of its place among the grants of the last window |
| RestartPolicies.DelaysDoubleIff | launcher/internal/launcher/restart_policy.go:38-43 | every delay is the capped doubling if and only if the largest doubling fits an int64 |
| RestartPolicies.DelaysInRangeIff | launcher/internal/launcher/restart_policy.go:13-45 | in every run every granted delay lies between the base delay and the cap, if and only if the largest doubling fits an int64 |
| RestartPolicies.DefaultDelayCanOverflow | launcher/internal/launcher/restart_policy.go:13-45 | a run of thirty-four granted restarts whose last delay is negative |
| TokenBuckets.RateLimiter.Configure | metadata-service/internal/provider/ratelimiter.go:26-37 | a full bucket replaces the provider's old one |
| TokenBuckets.RateLimiter.Allow | metadata-service/internal/provider/ratelimiter.go:39-58 | a call refills and takes from its own bucket only, and is free without one |
| TokenBuckets.GrantsAreBounded | metadata-service/internal/provider/ratelimiter.go:39-58 | in any interval at most capacity plus rate times its length are allowed, whatever other providers do |
| TokenBuckets.RunIsSound | metadata-service/internal/provider/ratelimiter.go:26-58 | in every run of nonnegative configurations buckets hold between nothing and their capacity |
| TokenBuckets.SlowCallsAreAllowed | metadata-service/internal/provider/ratelimiter.go:39-58 | calls of a provider no faster than the refill are never refused, whatever other providers do meanwhile |
| TokenBuckets.EmptyBucketsAllowNothing | metadata-service/internal/provider/ratelimiter.go:39-58 | a bucket that cannot hold a token never allows a call |
| FixedWindows.ApiRateLimiter.constructor | metadata-service/internal/api/middleware.go:82-95 | an empty table with positive limits |
| FixedWindows.ApiRateLimiter.Allow | metadata-service/internal/api/middleware.go:97-123 | one call performs one step, sweeping first when a new minute starts |
| FixedWindows.SweepIsExact | metadata-service/internal/api/middleware.go:101-109 | the sweep never loses a grant of the current minute and leaves no stale counter |
| FixedWindows.RunIsExact | metadata-service/internal/api/middleware.go:97-123 | in every run the counters are exactly the grants of the current minute |
| FixedWindows.GrantedIffBelowLimit | metadata-service/internal/api/middleware.go:111-123 | a call is granted if and only if its client had fewer than the limit of grants in that minute, and the answer says how many are left |
| FixedWindows.GrantsAreBounded | metadata-service/internal/api/middleware.go:97-123 | no client gets more than perMinute plus burst in any minute |
| Isbn.VerifyIdentifier | metadata-service/internal/quality/isbn.go:5-26 | accepts exactly the non-blank values whose checksum matches their type, and otherwise says what is wrong |
| Isbn.SeparatorsDoNotMatter | metadata-service/internal/quality/isbn.go:28-31 | a hyphen or blank between groups changes nothing |
| Isbn.IsValidISBN10 | metadata-service/internal/quality/isbn.go:33-52 | accepts exactly ten fitting characters whose weighted sum is a multiple of eleven |
| Isbn.IsValidISBN13 | metadata-service/internal/quality/isbn.go:54-77 | accepts exactly thirteen digits whose 1-3 weighted sum is a multiple of ten |
| Isbn.SingleChange13 | metadata-service/internal/quality/isbn.go:54-77 | every single-character change of a valid ISBN-13 is rejected |
| Isbn.MistypedDigit13 | metadata-service/internal/quality/isbn.go:28-77 | so is every mistyped digit of an accepted text, however punctuated |
| Isbn.AdjacentSwap13 | metadata-service/internal/quality/isbn.go:54-77 | swapping different neighbouring digits is accepted if and only if they differ by five |
| Isbn.CheckDigit13IsUnique | metadata-service/internal/quality/isbn.go:66-69 | twelve digits have exactly one check digit |
| Isbn.SingleChange10 | metadata-service/internal/quality/isbn.go:33-52 | every single-character change of a valid ISBN-10 is rejected |
| Isbn.AnySwap10 | metadata-service/internal/quality/isbn.go:33-52 | every swap of two different characters, however far apart, is rejected |
| Isbn.MistypedCharacter10 | metadata-service/internal/quality/isbn.go:28-52 | every mistyped character of an accepted text is noticed, however punctuated |
| SeriesOrder.Repository.Query | metadata-service/internal/quality/repository.go:200-223 | exactly the series' entries in the query's order |
| SeriesOrder.ListingMeans | metadata-service/internal/quality/repository.go:200-206 | numbered entries before those without an index, by index, then age, then work |
| SeriesOrder.Repository.RepairSeriesOrder | metadata-service/internal/quality/repository.go:193-248 | renumbers the listed entries and nothing else, returns the number of rows changed, and rolls back if and only if a needed update or the commit fails |
| SeriesOrder.RepairKeepsOrder | metadata-service/internal/quality/repository.go:200-246 | querying again lists the same works in the same order |
| SeriesOrder.RepairNumbersInOrder | metadata-service/internal/quality/repository.go:229-241 | each index is within 0.0001 of its position, and is either the old one or the position itself |
| SeriesOrder.RepairEndsAnomaly | metadata-service/internal/quality/repository.go:42-46 | the repaired series is no anomaly, and no other series becomes or stops being one |
| SeriesOrder.RepairIsIdempotent | metadata-service/internal/quality/repository.go:193-248 | a second repair changes no row |
| SeriesOrder.NothingToRepair | metadata-service/internal/quality/repository.go:229-243 | nothing changes if and only if all entries were in place, and an anomaly always changes something |
| Paths.CleanKeepsParse | app/backend/internal/importer/renamer.go:72-101 | cleaning a path does not change where it leads |
| Paths.CleanOfOrdinary | app/backend/internal/importer/sanitize.go:37-40 | cleaning changes nothing about ordinary segments |
| Paths.SplitJoin | app/backend/internal/importer/sanitize.go:11-11 | splitting undoes joining |
| Sanitize.SanitizeRelativePath | app/backend/internal/importer/sanitize.go:10-45 | the loop yields the joined, cut segments, and cleaning the path is a no-op |
| Sanitize.TidyIsNeat | app/backend/internal/importer/sanitize.go:14-30 | a tidied part is empty or spaced by single blanks, without a forbidden character, and with no dot or blank at its end |
| Sanitize.SanitizedIsGood | app/backend/internal/importer/sanitize.go:31-44 | every segment is non-empty, at most 120 long and neither dot nor dot-dot; a positive limit is always respected |
| Sanitize.TidyOfNeat | app/backend/internal/importer/sanitize.go:14-30 | tidying a neat part only takes dots and blanks off its end |
| Sanitize.ColonBecomesDash | app/backend/internal/importer/sanitize.go:19-21 | a colon between two tidy texts becomes a dash |
| Sanitize.SanitizeKeepsSolids | app/backend/internal/importer/sanitize.go:10-45 | an uncut name keeps every letter, digit and other harmless character in order |
| Sanitize.SanitizeIsIdempotentIff | app/backend/internal/importer/sanitize.go:10-45 | under any limit, sanitizing twice is sanitizing once if and only if the result is empty or every part of it is non-empty and ends in neither dot nor blank |
| Sanitize.SanitizeIsIdempotent | app/backend/internal/importer/sanitize.go:10-45 | in particular when neither a segment nor the path has to be cut |
| Sanitize.PathCutIsUnstable | app/backend/internal/importer/sanitize.go:41-43 | a limit one longer than the first segments leaves a separator that the second pass takes off |
| Sanitize.DefaultLimitIsUnstable | app/backend/internal/importer/sanitize.go:41-43 | such a name for 240, the limit the engine uses by default |
| NamingPlan.SinglePlanStaysUnderRootIff | app/backend/internal/importer/renamer.go:37-51 | uncut, a single file lands below the root itself at exactly the segments of its name, if and only if the root is in slash style or cleaning leaves it where it is |
| NamingPlan.TrackPlanStaysUnderRootIff | app/backend/internal/importer/renamer.go:32-36 | uncut, a track lands below the root itself in its folder under its own name, under the same condition |
| NamingPlan.SinglePlanEscapesIff | app/backend/internal/importer/renamer.go:37-51 | whatever is cut, a single file's target leaves an ordinary root of either style if and only if the limit cuts the name to two dots: limit two, or in backslash style limit three with a blank behind them |
| NamingPlan.TargetIsAtIff | app/backend/internal/importer/renamer.go:72-101 | joining tight segments to a root leads to those segments below the root if and only if cleaning leaves the root where it is |
| NamingPlan.RootKeepsPlaceIff | app/backend/internal/importer/renamer.go:87-101 | a backslash-style root without spaces around it is left where it is if and only if no separator leads it |
| NamingPlan.TargetExtendsTextIff | app/backend/internal/importer/renamer.go:72-101 | the target is the root's own text with the name behind it if and only if that text is trimmed, without slashes and already clean |
| NamingPlan.ShareIsLost | app/backend/internal/importer/renamer.go:72-101 | a network share as root, whose books go to a relative directory |
| Sorting.StableSortIsLexicographic | indexer-service/internal/indexer/orchestrator.go:288-304 | a stable sort of an already sorted list is one lexicographic sort |

## Left out

- Imports: single-file sources, directories as targets, directory creation succeeding or failing beyond its error exit, library items, events, cleanup of old incoming and trash directories. Targets must lie outside incoming, and the trash directory must not be inside it.
- IndexerRuns.LocksAreBounded: for requests created with at least one attempt; the orchestrator always passes three.
- ImportEngine.Engine.ProcessJob: placement is stated when no file is staged where another still lies, which can only happen when the source contains the incoming directory or lies in it. Conservation over a clearing needs an incoming directory without media besides the handled files, which a retry does not check. The identity match, name hints and naming plans are arbitrary inputs (`confident`, `target`, `actions`); `NamingPlan` models the paths separately.
- ImportEngine.Engine.UniqueTrashPath: the time stamp in the name is an arbitrary text.
- FileSystems.FileSystem: rename, copy, remove, directory creation and the walk may fail at any call and a copy may leave a prefix; stat is faithful, links and permissions are not modelled.
- Fallback.Manager.TryFallback: the indexer's answers are arbitrary inputs; termination needs candidate IDs that are not negative, because the code does not remember negative ones.
- DownloadWorkers.NoJobIsStranded: assumes the client returns non-blank IDs, as its interface promises.
- ImportStore.Store.ReconcileIncomingOrphans: directory names are given already parsed, and reading the directory does not fail.
- ImportStore.Store.RecoverExpiredLeases: the event each recovered import job gets is not modelled; that of the download queue is.
- Client ordering, client metrics, reliability scores and tier thresholds: easy range facts.
- The SQL stores themselves: only the locking statement serves as a specification; Postgres locking, transactions and isolation are not modelled, except that a series repair commits or rolls back as a whole.
- Merger.MergeWorksWeighted: works are values, so in-place updates of shared edition slices are not visible; the running confidence, which the final pass overwrites, is omitted; the fingerprint generator and subject normalisation are arbitrary functions.
- MergeOrder.MergeIgnoresArrivalOrder: years and scores must not be negative. The spelling of a subject and the order of the list follow the arrival order; authors follow the rule for titles, which is stated for titles only.
- Recommend.Engine.Recommend: the work store is a fixed catalog that never fails, reasons and time-to-live are omitted, scores are reals rather than floats, and the key is the tuple of its parts (hashing is taken as injective).
- RecommendCache.SameKeySameAnswer: for distinct canonical seeds, canonical exclusions, no blank include types and one candidate limit; `RecommendGaps` shows for each of them two requests that differ in it, with one key and two answers.
- RecommendGaps.AgreeIff: needs room for all candidates, all of them known and no preferences; without them a difference can be cut off or hidden by the boost. `SeedsAgreeIff` and `RepeatedSeedAgreesIff` likewise.
- Fingerprints.ReleaseFingerprint: identifier values are texts; other values count as blank in the code and are left out here.
- SearchPipeline.Orchestrator.Search: timeouts, result recording and storing are left out (`IndexerStore` models the storing); reasons and normalised titles do not affect the order.
- Wanted.Store.EnqueueDueWanted: one atomic step; `WantedSteps` takes it apart for the spacing of searches. Creating the search request itself is `IndexerStore.Store.CreateOrGetSearchRequest`; formats, languages and profiles are omitted.
- TokenBuckets.GrantsAreBounded: over reals and a clock that does not go back, as Go's monotonic clock promises; float rounding is not modelled.
- FixedWindows.GrantedIffBelowLimit: for a clock that does not go back across calls.
- RestartPolicies.RestartsAreBounded: for a clock that does not go back; time arithmetic itself does not overflow.
- SeriesOrder.Repository.RepairSeriesOrder: the update time of a row is omitted, indices are reals.
- Sanitize.SanitizeRelativePath: characters are ASCII, so lengths in bytes and characters agree; blank, tab and line ends are the spaces.
- NamingPlan.TrackPlanStaysUnderRootIff: for uncut folder and name. The cut case is settled for single files only.
- NamingPlan.SinglePlanStaysUnderRootIff: drive letters count as ordinary segments. Template rendering and its values are arbitrary text; the file format field is omitted.
- Text handling everywhere is ASCII: no Unicode case folding, spaces or normalisation.
- HTTP handlers, provider scrapers, download clients, logging, metrics, worker restarts, ticker timing and the web application: no algorithm, or inputs to the ones modelled.
