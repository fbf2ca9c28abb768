# Verified models of the gateway's stateful engines

This project models the parts of OrionOmega in which a fast or stateful form has to agree with a
simple one, and proves that it does, or exactly when it does. `dafny verify dfyconfig.toml` checks
everything.

| files | what they model |
|---|---|
| `Similarity.dfy`, `BloomFilters.dfy`, `Dedup.dfy` | trigram similarity, the size band, the Bloom filter, batch and streaming near-duplicate removal |
| `Relevance.dfy` | relevance scores over exact reals |
| `TokenEstimates.dfy`, `SentenceSplit.dfy`, `Truncate.dfy`, `TruncateBudget.dfy` | token estimates, sentence splitting, budgeted truncation of texts and what it does to the budget |
| `SessionModel.dfy`, `SessionEffects.dfy`, `Sessions.dfy` | the session manager: debounced writes, throttled event counter, shutdown, restart; what each operation writes, field by field |
| `SchedulerModel.dfy`, `SchedulerEffects.dfy`, `Scheduler.dfy` | the cron scheduler as a state machine over its suspension points; which triggers start what, and what each step writes |
| `RateLimit.dfy` | token buckets with garbage collection, the auth cooldown |
| `CacheKeys.dfy`, `Tables.dfy`, `MessagePages.dfy`, `Persistence.dfy`, `PersistenceRuns.dfy` | event and message tables with their two caches, over whole runs; what a page holds and what paging reads |
| `JsonValues.dfy`, `JsonSchema.dfy`, `JsonSchemaProofs.dfy`, `SchemaErrors.dfy`, `SchemaValidator.dfy` | deep equality, the recursive schema validator, and exactly which errors it reports |
| `DraftSeven.dfy`, `SchemaWitnesses.dfy`, `SchemaAgreement.dfy`, `LeafAgreement.dfy`, `Settings.dfy` | JSON Schema draft-07 by itself, exactly for which schemas the validator agrees with it, and what that means for the settings of a skill |
| `Events.dfy`, `EventEffects.dfy` | event fan-out to connected clients |
| `StateStore.dfy`, `StateEffects.dfy` | the windowed event log, offset paging, pruning of workflow states |
| `BindRetry.dfy` | port binding with bounded retries |
| `Basics.dfy` | shared small types and list functions |

A stateful engine appears twice: as values, about which whole runs are proved, and as a class whose
methods update fields the way the source does. In `Sessions`, `Scheduler` and `Events` every method
states that it performs one transition (`Now() == Next(old(Now()), ...)`), so what is proved about
runs holds of the objects; the `...Effects` modules say what a transition does in terms of the stored
fields alone. The other classes tie their methods to specification functions and keep
an invariant. Some of the regular expressions (text normalisation, the high-signal keywords,
`pattern`, `format`) are function parameters: the results hold for all of them. Those of the token
estimate and of sentence splitting are written out.

## Where the code and its documentation disagree

- `deduplicateByContent` is documented as identical to the naive all-pairs scan, and a fingerprint
  repeat as similarity 1. Fingerprints are cut to 100 characters, so two long texts with a common
  beginning are merged whatever their similarity: `Dedup.CacheCanDropADistinctText` gives a pair
  with similarity 1/7. `Dedup.DedupIsBruteForceIff` says exactly when the promise holds,
  `Dedup.DistinctFingerprintsSuffice` gives a condition on the list alone, and
  `Dedup.BlockedMatchesReferenceIff` says what happens for thresholds of zero or less. There the
  loop over the size buckets runs to 2^53 - 1 unless it finds a hit, so on a miss it does not end
  in practice; the results about such thresholds are about what it would answer.
- `smartTruncate` promises a text within the token budget. The marker takes six tokens where five
  are reserved, blanks between sentences cost characters, and code in one sentence makes the whole
  text dense: `TruncateBudget.MarkerOverrunsBudget` is an input over its budget.
  `TruncateBudget.ExcerptEstimate` and `TruncateBudget.BudgetMetIff` give the exact estimate of the
  returned text and the exact condition. On the input alone: without a reserve the budget is never
  met (`TruncateBudget.NoReserveMissesBudget`), with one and room for the marker prose always meets it
  (`TruncateBudget.RoomMeetsBudget`), and when no inner sentence fits, or all do, there is an exact
  condition (`TruncateBudget.NothingFitsMetIff`, `TruncateBudget.EverythingFitsMetIff`). How far a text
  can be off: `TruncateBudget.EstimateIsBounded`, `TruncateBudget.ProseOvershootIsBounded`.
  A text too short to split is cut at 3.5 characters a token, too many for code:
  `TruncateBudget.HardCutMeetsBudgetIff`, `TruncateBudget.HardCutOfCodeMisses`.
- Reloading sessions after a shutdown changes those whose runs were still going, because the
  startup sweep turns them into errors: `SessionModel.RestartRestoresIff`,
  `SessionModel.RunThenRestart`.
- In the mode `sqlite` four mutators (messages, memory events, run summaries, session
  totals) change memory without scheduling a write of the file: `SessionModel.SqliteModeLosesTrack`.
  `SessionModel.StepKeepsTrackedIff` says exactly which operations do so; the next scheduled write of
  that session catches up (`SessionModel.NextWriteCatchesUp`).
- The scheduler's `stop()` forgets executions that are still in flight. It keeps memory and database
  coherent exactly with none in flight (`SchedulerModel.StepKeepsCoherentIff`), and the overlap policy
  of a task exactly if that task has none: `SchedulerModel.StopKeepsPolicyIff`,
  `SchedulerModel.RestartInProcessOverlaps`. A deleted one-shot task comes back as paused when its last
  execution ends: `SchedulerModel.DeletedTaskComesBack`, `SchedulerModel.DeletedStaysDeletedIff`.
- The message page cache uses one key for an omitted `before` cursor and for 0, which select
  different rows: `Tables.SharedKeyIsSoundIff`, `Tables.SharedKeyIsSoundOnAllTablesIff`,
  `Persistence.CachedPageIsRightIff`, `Persistence.ZeroCursorPoisonsPage`.
- The cleanup of auth failure trackers never deletes anything: `RateLimit.AuthLimiter.CleanupTrackers`.
- The buffering comment in `events.ts` says that events are not silently dropped. Clients that
  watch the session but not the workflow keep an event from being buffered without receiving
  it: `Events.DeliveredIff`, `Events.SubscriptionHidesEvent`.
- The cap of 100 workflow states per session can be exceeded by confirmations:
  `StateStore.ConfirmationKeepsTheCapIff`.
- The validator follows its own rules where draft-07 says otherwise. A required property may be
  neither null nor empty (`SchemaAgreement.EmptyRequired`), `additionalProperties` counts only beside
  `properties` (`SchemaAgreement.IgnoredRestriction`), a number close to a multiple passes
  (`DraftSeven.NearMultipleIsNotMultiple`), and lengths are counted in UTF-16 units
  (`LeafAgreement.TextsAgreeIff`). `SchemaAgreement.SchemaAgreesIff` says for every schema whether the
  two give all values one verdict, keyword by keyword and level by level; for the schemas built
  from a skill's settings it comes to whether required settings refuse the empty text by their own
  limits (`Settings.SettingsAgreeIff`), which a plain required text does not
  (`Settings.RequiredTextDisagrees`).

## Model

| member | source | states |
|---|---|---|
| Similarity.CollectTrigrams | packages/shared/src/similarity.ts:145-151 | the loop computes the trigram set of the text |
| Similarity.TrigramsAreWindows | packages/shared/src/similarity.ts:139-151 | the trigrams are exactly the three-character windows |
| Similarity.ShortIffNoTrigrams | packages/shared/src/similarity.ts:139-151 | the set is empty exactly for texts under three characters, and never larger than the text |
| Similarity.TrigramsAreTheWindows | packages/shared/src/similarity.ts:139-151 | a string is a trigram exactly if it is three characters of the text in a row |
| Similarity.PrepareTrigramProfile | packages/shared/src/similarity.ts:376-380 | a profile holds the content's normal form and trigram set, whichever branch built it |
| Similarity.CountShared | packages/shared/src/similarity.ts:163-166 | counting members of one set in the other gives the size of the intersection |
| Similarity.JaccardByCounts | packages/shared/src/similarity.ts:167 | the divisor (both sizes minus the shared count) is the size of the union, hence positive |
| Similarity.TrigramSimilarity | packages/shared/src/similarity.ts:153-168 | the score is 1 on equal normal forms, 0 if one is too short, the Jaccard index otherwise |
| Similarity.TrigramSimilarityPrepared | packages/shared/src/similarity.ts:386-397 | the prepared form, counting over the smaller set, gives the same score |
| Similarity.ScoreProperties | packages/shared/src/similarity.ts:153-168 | scores lie in [0,1], are symmetric, and 1 on a text with itself |
| Similarity.ScoreIsJaccard | packages/shared/src/similarity.ts:153-168 | with trigrams on both sides the equality shortcut agrees with the Jaccard index |
| Similarity.ScoreByWindows | packages/shared/src/similarity.ts:139-168 | so the score counts common and all windows of three characters of the normal forms |
| Similarity.BandAdmitsEveryMatch | packages/shared/src/similarity.ts:399-411 | for every positive threshold, two sets that reach it lie in each other's size band |
| Dedup.MatchIsCompared | packages/shared/src/similarity.ts:441-469 | a pair that reaches a positive threshold is among the pairs compared, short texts included |
| Dedup.BlockedVerdictIsReference | packages/shared/src/similarity.ts:441-469 | for a positive threshold the blocked verdict is the all-pairs verdict against any kept list |
| Dedup.BlockedKeepsReference | packages/shared/src/similarity.ts:415-484 | for every list and positive threshold, the same items are kept in the same order as by the all-pairs scan with fingerprints |
| Dedup.BlockedMatchesReferenceIff | packages/shared/src/similarity.ts:408-484 | blocked and all-pairs scan agree exactly if the threshold is positive or all items are in the first one's size class |
| Dedup.ReferenceKeepsFirst | packages/shared/src/similarity.ts:425-484 | with a threshold of zero or less the all-pairs scan keeps one item |
| Dedup.BlockedKeepsOneIffOneClass | packages/shared/src/similarity.ts:448-469 | with a threshold of zero or less the blocked scan keeps one item exactly for lists of one size class |
| Dedup.KeptAreSpread | packages/shared/src/similarity.ts:425-484 | no two kept items share a fingerprint or reach the threshold |
| Dedup.DroppedAreCovered | packages/shared/src/similarity.ts:425-484 | every item is kept or duplicates one kept before it |
| Dedup.FingerprintsAgreeIff | packages/shared/src/similarity.ts:442-443 | two fingerprints agree exactly if the collapsed texts agree on their first 100 characters, a shorter one being the whole other |
| Dedup.DuplicateRepeats | packages/shared/src/similarity.ts:441-469 | for positive thresholds a content is a duplicate exactly if a kept one has the same start or a score that reaches the threshold |
| Dedup.KeptIsSieve | packages/shared/src/similarity.ts:425-484 | what is kept are the items, in order, that repeat no item kept before them, and all of these |
| Dedup.SieveIsUnique | packages/shared/src/similarity.ts:425-484 | no other list of items is so |
| Dedup.PairIsKeptIff | packages/shared/src/similarity.ts:425-484 | two items are both kept exactly if their collapsed texts differ within 100 characters and the score is below the threshold |
| Dedup.DedupIsBruteForceIff | packages/shared/src/similarity.ts:415-424 | the promised identity with the all-pairs scan holds exactly if no fingerprint repeat hides a text below the threshold |
| Dedup.DistinctFingerprintsSuffice | packages/shared/src/similarity.ts:415-484 | the promise holds if equal fingerprints in the list mean a score of at least the positive threshold |
| Dedup.CacheCanDropADistinctText | packages/shared/src/similarity.ts:442-443 | two texts of similarity 1/7 of which the second is dropped |
| Dedup.FindInBand | packages/shared/src/similarity.ts:448-469 | walking the size buckets finds exactly the compared pairs that reach the threshold |
| Dedup.File | packages/shared/src/similarity.ts:471-481 | filing one more content keeps profiles, buckets and the zero-size list consistent |
| Dedup.DeduplicateByContent | packages/shared/src/similarity.ts:425-484 | the batch function computes the blocked scan; for positive thresholds it is the reference scan, and keeps exactly the items that repeat no item kept before: neither the same first 100 collapsed characters nor a score that reaches the threshold |
| Dedup.IsDuplicateInBatch | packages/shared/src/similarity.ts:492-504 | true exactly if some item of the batch reaches the threshold |
| Dedup.DedupIndex.Has | packages/shared/src/similarity.ts:583-606 | the verdict is the scan's verdict on all added contents, so the Bloom gate changes no answer; for positive thresholds true exactly if an added content has the same first 100 collapsed characters or a score that reaches the threshold |
| Dedup.DedupIndex.Add | packages/shared/src/similarity.ts:609-623 | the index holds one content more, with buckets, fingerprints and filter consistent |
| Dedup.DedupIndex.AddIfNew | packages/shared/src/similarity.ts:626-630 | adds exactly what repeats none of the contents so far |
| Dedup.StreamThroughIndex | packages/shared/src/similarity.ts:557-630 | streaming any list through an empty index accepts what the batch scan keeps |
| Dedup.BatchHitIsIndexHit | packages/shared/src/similarity.ts:492-606 | a batch hit is an index hit, however the index was filled |
| BloomFilters.Probe | packages/shared/src/similarity.ts:527-536 | every double-hashed index is in range, for negative sums too |
| BloomFilters.ProbeIsDoubleHash | packages/shared/src/similarity.ts:527-536 | the signed odd step makes no difference: the probes are h1 + i * (h2 or 1) in 32 bits, modulo the size |
| BloomFilters.HashesOfAb | packages/shared/src/similarity.ts:230-247 | both hashes have their published values on a text of two letters |
| BloomFilters.SettingOneBit | packages/shared/src/similarity.ts:538-549 | setting a bit changes that bit and no other |
| BloomFilters.RepresentsOneMore | packages/shared/src/similarity.ts:538-542 | after an addition a bit is set exactly if some added key probes it |
| BloomFilters.ComputeFold | packages/shared/src/similarity.ts:230-247 | the hashing loops compute the 32-bit folds |
| BloomFilters.BloomFilter.Indices | packages/shared/src/similarity.ts:527-536 | the list holds exactly the probes of the key |
| BloomFilters.BloomFilter.Add | packages/shared/src/similarity.ts:538-542 | one key more is represented, and bits are only ever set |
| BloomFilters.BloomFilter.Has | packages/shared/src/similarity.ts:544-549 | true exactly if all probes are claimed by added keys; never false for an added key |
| Relevance.ComputeKeywordScore | packages/shared/src/similarity.ts:181-190 | the fraction of distinct query words found, in [0,1], so the cap never bites |
| Relevance.ComputeClientRelevance | packages/shared/src/similarity.ts:206-225 | the weighted blend itself: the clamp never changes it |
| Relevance.KeywordsAreWords | packages/shared/src/similarity.ts:181-183 | the keywords are the runs of more than two characters between blanks |
| Relevance.RelevanceInFifths | packages/shared/src/similarity.ts:181-225 | three fifths of the share of query words found and two fifths of the trigram score, less a fifth for contents under 20 characters, nothing for empty normal forms |
| Relevance.PerfectMatchScoresOne | packages/shared/src/similarity.ts:206-225 | a long enough repetition of the query scores 1 |
| Relevance.CauchySchwarz | packages/shared/src/similarity.ts:304-317 | the squared dot product is at most the product of the squared lengths |
| Relevance.CosineInUnit | packages/shared/src/similarity.ts:304-317 | the cosine lies in [-1,1] and its divisor is positive |
| Relevance.CosineIsNormalisedDot | packages/shared/src/similarity.ts:304-317 | times both lengths the cosine is the dot product; it is 0 if one length is |
| Relevance.CosineSimilarity | packages/shared/src/similarity.ts:304-317 | one pass accumulates all three sums |
| Relevance.BlendIsConvex | packages/shared/src/similarity.ts:328-337 | the blend lies between its channels, equals them at weights 0 and 1, and needs no clamp |
| Relevance.BlendIsWeightedMean | packages/shared/src/similarity.ts:328-337 | for weights in [0,1] the weighted mean of the lexical score and the positive part of the cosine |
| Relevance.ComputeHybridRelevance | packages/shared/src/similarity.ts:345-360 | the hybrid score is that blend of the lexical score and the cosine, in [0,1] |
| TokenEstimates.CollapseOfJoin | packages/shared/src/similarity.ts:30-33 | collapsing whitespace in a text joined with a blank collapses the two parts and keeps one blank |
| TokenEstimates.BlanksThatStay | packages/shared/src/similarity.ts:33 | of the characters exactly the blanks and tabs behind another are dropped, and a tab that stays becomes a blank |
| TokenEstimates.NewlinesThatStay | packages/shared/src/similarity.ts:33 | of those exactly the newlines behind two others are dropped |
| TokenEstimates.EstimateIsLeast | packages/shared/src/similarity.ts:30-36 | the estimate is the least number of tokens of 3.2 characters for code, or 4, that hold the collapsed text |
| TokenEstimates.CodeOfJoinedTexts | packages/shared/src/similarity.ts:30-35 | a joined text looks like code exactly if one of its parts does |
| TokenEstimates.FitsIff | packages/shared/src/similarity.ts:34-35 | rounding up length over 3.2 or 4 stays within a budget exactly if the length is within its capacity |
| SentenceSplit.SentencesAreWellSplit | packages/shared/src/similarity.ts:54 | the pieces are not empty, begin solid, and all but the last end a sentence |
| SentenceSplit.SentencesAreCut | packages/shared/src/similarity.ts:54 | the pieces and the gaps between them are the whole text: a gap is all the white space behind a mark, and no piece holds a mark followed by white space |
| SentenceSplit.CutIsUnique | packages/shared/src/similarity.ts:54 | no other pieces are so |
| Truncate.PrioritisedIsTheSort | packages/shared/src/similarity.ts:68-77 | high-signal sentences first, each class in order, is the comparator's sorted permutation |
| Truncate.SortedIsUnique | packages/shared/src/similarity.ts:76-77 | no other permutation is sorted under the comparator |
| Truncate.GreedyFitsAndIsMaximal | packages/shared/src/similarity.ts:79-84 | what is kept fits or is empty, and nothing left out fits in what remains |
| Truncate.GreedyInTwoPasses | packages/shared/src/similarity.ts:79-84 | the low-signal pass works with what the high-signal pass left |
| Truncate.LowSignalNeverDisplacesHigh | packages/shared/src/similarity.ts:76-84 | which high-signal sentences survive does not depend on low-signal ones |
| Truncate.RestoredOrderKeepsChoice | packages/shared/src/similarity.ts:86-87 | restoring the order keeps exactly the chosen sentences at the same cost |
| Truncate.ExcerptIsBestEffort | packages/shared/src/similarity.ts:63-92 | the kept middle is an in-order selection that fits the reserve, and no dropped sentence would |
| Truncate.ExcerptIsExcerpt | packages/shared/src/similarity.ts:61-92 | the excerpt in terms of the sentences, their estimates and the keyword test alone: a sentence with a keyword is kept exactly if it fits what earlier kept ones leave of the reserve, one without exactly if it fits what is left by all kept ones with a keyword and the earlier ones without |
| Truncate.ChoiceIsUnique | packages/shared/src/similarity.ts:61-84 | only one choice of sentences is so |
| Truncate.CutIsBeginning | packages/shared/src/similarity.ts:57-58 | a hard cut leaves a beginning of the text, seven characters for two tokens |
| Truncate.SmartTruncate | packages/shared/src/similarity.ts:51-93 | returns the content unchanged if its estimate fits, the cut prefix with an ellipsis if it does not split, and otherwise the excerpt: first sentence, chosen ones in order, last, and the marker with the number left out; sentences with a keyword are chosen in order while they fit the reserve, the others from what those leave |
| TruncateBudget.ExcerptEstimate | packages/shared/src/similarity.ts:86-92 | the exact estimate of the returned text, from the lengths of its parts, the blanks and the marker |
| TruncateBudget.BudgetMetIff | packages/shared/src/similarity.ts:42-92 | the returned text meets its budget exactly if that length is within the budget's capacity, at the ratio for code if one part looks like code |
| TruncateBudget.OvershootIsBounded | packages/shared/src/similarity.ts:63-92 | with a reserve left for the middle, the returned text has at most 4 characters a token of the budget without marker, plus one for each kept sentence, the marker's digits and 24 |
| TruncateBudget.EstimateIsBounded | packages/shared/src/similarity.ts:42-92 | so its estimate is at most that of so many characters, at the ratio for code if one part looks like code |
| TruncateBudget.ProseOvershootIsBounded | packages/shared/src/similarity.ts:42-92 | prose exceeds the budget by at most a quarter, rounded up, of the number of inner sentences, its digits and 4 together |
| TruncateBudget.RoomMeetsBudget | packages/shared/src/similarity.ts:42-92 | prose with a reserve meets the budget if the last tokens of first and last sentence leave room for 4 characters, the digits of the number of inner sentences, and one blank for each inner sentence that fills its last token |
| TruncateBudget.NoReserveMissesBudget | packages/shared/src/similarity.ts:63-92 | without a reserve the budget is missed, code or not |
| TruncateBudget.NothingFitsMetIff | packages/shared/src/similarity.ts:63-92 | if no inner sentence fits the reserve, the budget is met exactly if first, last and marker fit it by length |
| TruncateBudget.EverythingFitsMetIff | packages/shared/src/similarity.ts:63-92 | if all inner sentences fit, exactly if all sentences do by length |
| TruncateBudget.MarkerOverrunsBudget | packages/shared/src/similarity.ts:66-92 | three sentences with budget 7 whose returned text is estimated at 8, though first, last and the flat 5 for the marker add up to 7 |
| TruncateBudget.HardCutMeetsBudgetIff | packages/shared/src/similarity.ts:55-59 | a text cut off by characters meets its budget exactly if the collapsed prefix leaves room for the ellipsis |
| TruncateBudget.HardCutOfProseFits | packages/shared/src/similarity.ts:55-59 | for every positive budget it does unless the prefix looks like code |
| TruncateBudget.HardCutOfCodeMisses | packages/shared/src/similarity.ts:55-59 | for every positive budget a prefix of full length that looks like code and has no runs of blanks misses it |
| TruncateBudget.BracesAreCutTooLong | packages/shared/src/similarity.ts:51-59 | eight braces cut to two tokens, say |
| SessionModel.StepKeepsTracked | packages/gateway/src/sessions.ts:570-1143 | every operation keeps: a session is pending, or on disk up to what its event counter admits |
| SessionModel.RunKeepsTracked | packages/gateway/src/sessions.ts:570-1143 | so does every run with JSON persistence |
| SessionModel.StepKeepsTrackedIff | packages/gateway/src/sessions.ts:570-1143 | in any persistence mode an operation keeps the invariant exactly if it writes the file, its session is unknown or already pending, or it changes nothing |
| SessionModel.NextWriteCatchesUp | packages/gateway/src/sessions.ts:1443-1521 | whatever was left behind, the next scheduled write of the session brings it back under the invariant |
| SessionModel.DirtyMeansPending | packages/gateway/src/sessions.ts:221-229 | after any run a session without a pending write differs from its file at most by fewer than 50 newest orchestration events, and then its counter is positive |
| SessionModel.SqliteModeLosesTrack | packages/gateway/src/sessions.ts:667-696 | without JSON persistence a run summary leaves a session that was not pending ahead of its file, with nothing scheduled |
| SessionModel.ShutdownWritesEverything | packages/gateway/src/sessions.ts:1352-1380 | after shutdown every session is on disk as it is in memory, and nothing else is |
| SessionModel.SweepIsIdentityIff | packages/gateway/src/sessions.ts:870-911 | the startup sweep changes a session exactly if one of its runs was going |
| SessionModel.SweepKeepsMessages | packages/gateway/src/sessions.ts:870-911 | a swept session keeps its messages, with one appended for each interrupted run, under the cap of 1000, unless such a message is there already |
| SessionModel.NotesAreAppended | packages/gateway/src/sessions.ts:570-911 | messages with new ids, added one after the other, follow the old ones under the cap |
| SessionModel.NoteIdTellsRun | packages/gateway/src/sessions.ts:883 | the id of such a message, with its time suffix, tells the run |
| SessionModel.Radix36Inverts | packages/gateway/src/sessions.ts:883 | the time suffix is the time in base 36 |
| SessionModel.SweptHasNoOrphans | packages/gateway/src/sessions.ts:870-911 | a second sweep finds nothing to do |
| SessionModel.RestartIsTracked | packages/gateway/src/sessions.ts:363-385 | the constructor leaves a tracked store behind |
| SessionModel.RestartRestoresIff | packages/gateway/src/sessions.ts:1352-1621 | shut down and reload: the same sessions, with the same contents exactly if no run was going and otherwise with those runs turned into errors and announced by a message each, without clients or buffers |
| SessionModel.RunThenRestart | packages/gateway/src/sessions.ts:363-1621 | so after every run with JSON persistence; the reloaded store is again one from which runs are tracked |
| SessionModel.OneEventMore | packages/gateway/src/sessions.ts:698-703 | one more capped event puts the file one event further behind |
| SessionModel.NoLagMeansEqual | packages/gateway/src/sessions.ts:921-935 | with nothing counted the file is the session |
| SessionModel.EntryChangeIsNext | packages/gateway/src/sessions.ts:345-361 | an operation is determined by what it does to the entry of its own session |
| SessionEffects.EditEffect | packages/gateway/src/sessions.ts:570-1105 | an edit changes the contents and time of its session as the edit says, field by field, with the write due; an edit that finds nothing to do changes nothing |
| SessionEffects.EditPerforms | packages/gateway/src/sessions.ts:570-1105 | messages are merged or appended under their cap, stubs merged, nodes updated and recounted, totals added, gates kept by id, a reset leaves name, run history and agent mode |
| SessionEffects.CompletionEffect | packages/gateway/src/sessions.ts:821-862 | a completed run is in memory and on disk as its completion says, and nothing of its session waits to be written |
| SessionEffects.EventEffect | packages/gateway/src/sessions.ts:921-935 | an orchestration event is appended under its cap; the fiftieth since the last write schedules one |
| SessionEffects.ConnectionEffect | packages/gateway/src/sessions.ts:710-1072 | connections and buffered events stay in memory |
| SessionEffects.CreateEffect | packages/gateway/src/sessions.ts:477-522 | a new session is blank and waits for its first write; creating needs a free place among fifty |
| SessionEffects.DeleteEffect | packages/gateway/src/sessions.ts:1120-1143 | session and file go, except those of the default session |
| SessionEffects.TimerEffect | packages/gateway/src/sessions.ts:1443-1521 | a timer writes the session as it then is, once |
| SessionEffects.ShutdownEffect | packages/gateway/src/sessions.ts:1352-1380 | shutting down writes the sessions with a pending write or events counted and no other |
| SessionEffects.SweepEffect | packages/gateway/src/sessions.ts:870-911 | a run that was going becomes an error with all of its work counted; other runs stay |
| SessionEffects.NoteSays | packages/gateway/src/sessions.ts:883-905 | the message about it announces the run as failed |
| Sessions.SessionManager.AddMessage | packages/gateway/src/sessions.ts:570-623 | performs the edit: a known id is merged in place, a new message goes to the end under the cap; schedules the write |
| Sessions.SessionManager.UpsertInlineDAG | packages/gateway/src/sessions.ts:775-794 | performs the edit: a new run is stored, a stub takes nothing from what is known of the run |
| Sessions.SessionManager.UpdateInlineDAGNode | packages/gateway/src/sessions.ts:799-816 | merges any partial update into the nodes of this id and into no other; recounts the settled nodes |
| Sessions.SessionManager.CompleteInlineDAG | packages/gateway/src/sessions.ts:821-862 | completes the run: superseded before failed, failed before stopped, stopped before complete, with the given result and error and all work counted; writes at once, cancels the pending write and resets the counter |
| Sessions.SessionManager.AddOrchestrationEvent | packages/gateway/src/sessions.ts:921-935 | appends the capped event; every fiftieth schedules a write |
| Sessions.SessionManager.ResetSession | packages/gateway/src/sessions.ts:1087-1105 | clears everything but name, run history and agent mode; schedules the write |
| Sessions.SessionManager.DrainEventBuffer | packages/gateway/src/sessions.ts:1067-1072 | returns the buffer and empties it |
| Sessions.SessionManager.CreateSession | packages/gateway/src/sessions.ts:477-522 | creates an empty session unless there are 50, and schedules its write |
| Sessions.SessionManager.DeleteSession | packages/gateway/src/sessions.ts:1120-1143 | removes session and file, never the default session |
| Sessions.SessionManager.FireTimer | packages/gateway/src/sessions.ts:1443-1453 | the debounce timer writes the session as it then is |
| Sessions.SessionManager.Shutdown | packages/gateway/src/sessions.ts:1352-1380 | writes the pending sessions, then those with events counted |
| Sessions.SessionManager.SweepOrphanedRuns | packages/gateway/src/sessions.ts:870-911 | turns every run that was going into an error, adds one message for each to the session's messages, schedules those sessions, touches no other |
| Sessions.SessionManager.LoadAllFromDisk | packages/gateway/src/sessions.ts:1527-1621 | loads every file and sweeps it, messages included |
| Sessions.SessionManager.EnsureDefaultSession | packages/gateway/src/sessions.ts:1751-1781 | adds the default session if it is missing |
| Sessions.SessionManager.Load | packages/gateway/src/sessions.ts:363-385 | a new manager on any set of files is in the state that the restart results start from |
| SchedulerModel.StepKeepsGood | packages/gateway/src/scheduler.ts:163-800 | every step but a start or stop with executions in flight keeps memory and database coherent and the records of starts and runs true |
| SchedulerModel.EveryRunIsSafe | packages/gateway/src/scheduler.ts:111-800 | over every run, crashes and restarts included, that never starts or stops the service with executions in flight: counters equal 'running' rows, their sum stays under the cap, only active tasks are mounted, starts are spaced, runCount counts finished executions |
| SchedulerModel.StepKeepsCoherentIff | packages/gateway/src/scheduler.ts:163-208 | that exception is exact: from a good state a step keeps memory and database coherent exactly if it is not a start or stop that touches executions in flight |
| SchedulerModel.FinalRowIsFinalInRun | packages/gateway/src/scheduler.ts:740-752 | over every such run an execution row that left 'running' never changes again |
| SchedulerModel.OneAtATime | packages/gateway/src/scheduler.ts:577-599 | over every run, a task whose policy is never 'allow' and that is never in flight when the service stops has at most one execution in flight |
| SchedulerModel.StopIsCrashIff | packages/gateway/src/scheduler.ts:194-208 | stop() leaves the state a crash would leave exactly if nothing is in flight |
| SchedulerModel.StopKeepsPolicyIff | packages/gateway/src/scheduler.ts:163-208 | after stop(), no continuation ever runs a task twice exactly if that task was not in flight, for every task whose policy is not 'allow' |
| SchedulerModel.CountsAfterAdmit | packages/gateway/src/scheduler.ts:601 | admission keeps each counter equal to the number of executions in flight |
| SchedulerModel.CountsAfterFinish | packages/gateway/src/scheduler.ts:733-737 | so does the end of an execution, deleting the entry at zero |
| SchedulerModel.TotalUpdate | packages/gateway/src/scheduler.ts:549-551 | the sum of all counters moves with one entry |
| SchedulerModel.SpacedAfterAdmit | packages/gateway/src/scheduler.ts:562-576 | the interval gate keeps all starts of a task apart |
| SchedulerModel.FinishedAfterFinish | packages/gateway/src/scheduler.ts:754-768 | finalising one row raises its task's number of finished executions by one, no other's |
| SchedulerModel.RestartInProcessOverlaps | packages/gateway/src/scheduler.ts:163-208 | stop, start and one trigger run a second execution of any task in flight whose policy is not 'allow' |
| SchedulerModel.DeletedStaysDeletedIff | packages/gateway/src/scheduler.ts:365-403 | over every run a task stays deleted throughout exactly if no step pauses or resumes it or ends a one-shot execution of it |
| SchedulerModel.DeletedTaskComesBack | packages/gateway/src/scheduler.ts:365-783 | from an empty database: a one-shot task is created, triggered and deleted, and is paused again when its execution ends |
| SchedulerModel.BackoffDoublesToCap | packages/gateway/src/scheduler.ts:101-107 | retry delays double up to 30 seconds, reached from the sixth attempt on |
| SchedulerEffects.TriggerIff | packages/gateway/src/scheduler.ts:513-621 | after every clean run, exactly which triggers start an execution (the task exists, is active or triggered by hand, a place is free under the cap, all its starts lie the interval back, and none of its rows runs or its policy is allow), which leave a skipped row, and which change nothing |
| SchedulerEffects.AttemptEffect | packages/gateway/src/scheduler.ts:656-783 | a failed attempt before the last is retried; otherwise the row gets the outcome, the task has run once more, and a one-shot task is paused without a job |
| SchedulerEffects.RetriesAreExhausted | packages/gateway/src/scheduler.ts:656-752 | an execution whose attempts all fail ends after exactly its number of attempts |
| SchedulerEffects.StartEffect | packages/gateway/src/scheduler.ts:163-191 | starting fails the rows a dead process left running and changes no other |
| SchedulerEffects.CreateEffect | packages/gateway/src/scheduler.ts:250-296 | a created task is active, has never run and is mounted if its schedule is accepted |
| SchedulerEffects.StatusEffect | packages/gateway/src/scheduler.ts:365-403 | pausing and deleting unmount, resuming mounts, unknown tasks are left alone |
| SchedulerEffects.UpdateEffect | packages/gateway/src/scheduler.ts:317-363 | updating changes what is given and remounts an active task whose schedule changes |
| SchedulerEffects.JobsAreTheActiveTasks | packages/gateway/src/scheduler.ts:163-509 | over every clean run in which schedules are accepted, a started service has jobs for exactly the active tasks |
| SchedulerEffects.RunKeepsLastIsStart | packages/gateway/src/scheduler.ts:601-621 | over every run a remembered last run is the start of an execution of that task |
| Scheduler.SchedulerService.StartService | packages/gateway/src/scheduler.ts:163-191 | fails rows left running and mounts all active tasks; a second call does nothing |
| Scheduler.SchedulerService.StopService | packages/gateway/src/scheduler.ts:194-208 | drops jobs and counters, leaves executions in flight and their rows |
| Scheduler.SchedulerService.MountJob | packages/gateway/src/scheduler.ts:443-509 | mounts exactly active, unmounted tasks whose schedule is accepted |
| Scheduler.SchedulerService.CreateTask | packages/gateway/src/scheduler.ts:250-296 | performs the creation step |
| Scheduler.SchedulerService.UpdateTask | packages/gateway/src/scheduler.ts:317-363 | performs the update step, remounting when the schedule changes |
| Scheduler.SchedulerService.PauseTask | packages/gateway/src/scheduler.ts:378-389 | performs the pause step |
| Scheduler.SchedulerService.ResumeTask | packages/gateway/src/scheduler.ts:391-403 | performs the resume step |
| Scheduler.SchedulerService.DeleteTask | packages/gateway/src/scheduler.ts:365-376 | performs the deletion step |
| Scheduler.SchedulerService.TotalRunning | packages/gateway/src/scheduler.ts:549-551 | the loop computes the sum of all counters |
| Scheduler.SchedulerService.ExecuteTask | packages/gateway/src/scheduler.ts:513-621 | everything before the first await: gates in order, then admission or a skip row, as SchedulerEffects.TriggerIff says of the transition |
| Scheduler.SchedulerService.EndAttempt | packages/gateway/src/scheduler.ts:656-783 | the end of an attempt: a retry, or counter, row, task and auto-pause in one step |
| RateLimit.TokensStayInRange | packages/gateway/src/rate-limit.ts:87-114 | over every run with a monotone clock tokens stay in [0, maxTokens] |
| RateLimit.IdleBucketIsFull | packages/gateway/src/rate-limit.ts:94-104 | a bucket idle beyond the TTL refills completely |
| RateLimit.SimulationGivesSameAnswers | packages/gateway/src/rate-limit.ts:30-44 | a collected table answers like the one that keeps every bucket, over every run |
| RateLimit.CleanupInvisibleForAllRates | packages/gateway/src/rate-limit.ts:16-44 | for the three rates no run can tell whether buckets were collected |
| RateLimit.CleanupInvisibleIff | packages/gateway/src/rate-limit.ts:22-44 | for any rate, collection is invisible exactly if a bucket refills completely within the TTL |
| RateLimit.BurstAnswers | packages/gateway/src/rate-limit.ts:87-114 | a burst is admitted up to the available tokens and no further |
| RateLimit.BurstIsMetered | packages/gateway/src/rate-limit.ts:87-114 | a burst on any bucket gets its tokens plus the refill of each whole window since the last one, up to the maximum; the bucket keeps the rest, and a refill, not a refusal, restarts its windows |
| RateLimit.AdmittedInWindow | packages/gateway/src/rate-limit.ts:87-114 | in any stretch of time a key is admitted at most maxTokens plus one refill per window touched |
| RateLimit.AdmissionBound | packages/gateway/src/rate-limit.ts:30-114 | the same bound for the limiter with collection, after any past |
| RateLimit.TokenBucket.Take | packages/gateway/src/rate-limit.ts:94-113 | refills, then takes a token if there is one |
| RateLimit.BucketTable.TryConsume | packages/gateway/src/rate-limit.ts:87-114 | answers and updates the table as the value model says; new keys get their own bucket |
| RateLimit.BucketTable.Sweep | packages/gateway/src/rate-limit.ts:30-40 | deletes exactly the buckets idle beyond the TTL |
| RateLimit.AuthLimiter.RateLimitAuth | packages/gateway/src/rate-limit.ts:128-146 | refuses during a cooldown without spending a token, otherwise asks the bucket |
| RateLimit.AuthLimiter.RecordAuthFailure | packages/gateway/src/rate-limit.ts:148-160 | counts one failure; from the fifth on each starts a full cooldown |
| RateLimit.AuthLimiter.ResetAuthFailures | packages/gateway/src/rate-limit.ts:162-165 | forgets one address and no other |
| RateLimit.AuthLimiter.CleanupTrackers | packages/gateway/src/rate-limit.ts:41-43 | deletes expired trackers without failures, of which there are never any |
| CacheKeys.ParseKeyInverts | packages/gateway/src/persistence.ts:558 | a cache key can be read back to session, cursors and limit, whatever colons the session id holds |
| CacheKeys.SameKeyIff | packages/gateway/src/persistence.ts:558 | two requests share a key exactly if they agree up to omitted cursors counting as 0 |
| CacheKeys.KeyStartsWithSession | packages/gateway/src/persistence.ts:558 | a session's keys carry its invalidation prefix |
| Tables.MaxSeqIsMax | packages/gateway/src/persistence.ts:383-400 | the value is the largest sequence number of the session's events, 0 without any |
| Tables.WithoutSessionKeepsOthers | packages/gateway/src/persistence.ts:273-288 | deleting a session leaves every other session's events |
| Tables.ReadsCoverTheLog | packages/gateway/src/persistence.ts:333-354 | any sequence of cursor reads, with appends in between and any limits, yields the events between first and last cursor once and in order |
| Tables.ReadsReach | packages/gateway/src/persistence.ts:333-354 | with positive limits such reads pass any target prefix of the log, or advance at least one event a read |
| Tables.PagesReachEveryEvent | packages/gateway/src/persistence.ts:333-354 | as many positive pages as the session had unread events contain all of these, in order, and nothing that was not unread, while the table grows by appends and loses other sessions |
| Tables.EventsOfGrow | packages/gateway/src/persistence.ts:299-331 | appending to the table appends to each session's events |
| Tables.FixedLogIsReadCompletely | packages/gateway/src/persistence.ts:333-354 | on a table that does not change the pages are exactly the unread events of the session |
| Tables.ShortPageMeansCaughtUp | packages/gateway/src/persistence.ts:333-354 | a page under its limit leaves nothing unread |
| Tables.SortIsSorted | packages/gateway/src/persistence.ts:563-583 | the rows of a page come from a sorted permutation of the matching rows |
| MessagePages.SelectIsPage | packages/gateway/src/persistence.ts:553-587 | a page holds rows of the session inside the cursors, ascending, at most the limit, and whatever is missing comes after a full page |
| MessagePages.PagingReadsEveryRow | packages/gateway/src/persistence.ts:553-587 | with distinct sequence numbers, paging behind the last row of each page reads every row behind the cursor, and no other |
| MessagePages.PagingIsInOrder | packages/gateway/src/persistence.ts:553-587 | once each, and in order |
| Tables.MatchingUpdate | packages/gateway/src/persistence.ts:409-548 | editing a row of one session changes no page of another |
| Tables.SameKeySameRows | packages/gateway/src/persistence.ts:553-587 | requests with one key select the same rows if both or neither use a zero cursor |
| Tables.SharedKeyIsSoundIff | packages/gateway/src/persistence.ts:558 | requests with one key are interchangeable on all tables of positive sequence numbers exactly if both or neither use a zero cursor, or ask for no rows |
| Tables.SharedKeyIsSoundOnAllTablesIff | packages/gateway/src/persistence.ts:558 | and on all tables exactly if they are the same request, or ask for no rows |
| Persistence.PagesSurvive | packages/gateway/src/persistence.ts:273-548 | cached pages of other sessions stay right under a change to one session's rows |
| Persistence.PersistenceService.InvalidatePages | packages/gateway/src/persistence.ts:273-288 | drops exactly the pages under the session's prefix and changes no other |
| Persistence.PersistenceService.Evict | packages/gateway/src/persistence.ts:147-162 | dropping any cache entries keeps the caches right |
| Persistence.PersistenceService.DeleteSession | packages/gateway/src/persistence.ts:273-288 | removes session, events and messages; both caches stay right |
| Persistence.PersistenceService.AppendEvent | packages/gateway/src/persistence.ts:299-331 | appends with the next sequence number or refuses an unknown session; the cached maximum stays true |
| Persistence.PersistenceService.GetLatestSeq | packages/gateway/src/persistence.ts:383-400 | always the true maximum, whatever was cached or evicted |
| Persistence.PersistenceService.GetEventsSince | packages/gateway/src/persistence.ts:336-354 | events of the session after the cursor, ascending, at most the limit, and whatever is not on the page comes after a full page |
| Persistence.PersistenceService.AppendMessage | packages/gateway/src/persistence.ts:409-548 | inserts under any sequence number, edits in place, or refuses a foreign id; caches stay right |
| Persistence.PersistenceService.UpdateMessageStatus | packages/gateway/src/persistence.ts:592-611 | edits one row's status and content; caches stay right |
| Persistence.PersistenceService.GetMessages | packages/gateway/src/persistence.ts:553-587 | the table's page of the request that filled the cache entry; on positive sequence numbers it is this request's page exactly if both or neither had a zero cursor, or the difference selects nothing; that page holds at most the limit of rows in range, ascending, and whatever is missing comes after a full page |
| Persistence.CachedPageIsRightIff | packages/gateway/src/persistence.ts:553-587 | exactly when the page of one request answers another with the same key |
| PersistenceRuns.ServeAll | packages/gateway/src/persistence.ts:147-611 | over every run of writes, deletions, reads and evictions without zero cursors and with positive sequence numbers, every answer and the final tables are those of the tables without caches |
| PersistenceRuns.Serve | packages/gateway/src/persistence.ts:147-611 | one request is answered as the tables alone answer it |
| Persistence.ZeroCursorPoisonsPage | packages/gateway/src/persistence.ts:558 | a request with a zero cursor makes the plain request return nothing from a non-empty session |
| JsonValues.DeepEqualIsStructural | packages/skills-sdk/src/json-schema.ts:87-100 | deepEqual holds exactly if both values denote the same, objects being maps |
| JsonValues.DeepEqualIsEquivalence | packages/skills-sdk/src/json-schema.ts:87-100 | deepEqual is reflexive, symmetric and transitive |
| JsonValues.Get | packages/skills-sdk/src/json-schema.ts:95-97 | finds a field of that name exactly if there is one |
| JsonSchemaProofs.NoErrorsIffValid | packages/skills-sdk/src/json-schema.ts:110-257 | no error is reported exactly if the value's meaning satisfies the declarative validity relation |
| JsonSchemaProofs.VerdictIgnoresKeyOrder | packages/skills-sdk/src/json-schema.ts:87-257 | deep-equal values get the same verdict under every schema |
| DraftSeven.ConformingSchemasAgree | packages/skills-sdk/src/json-schema.ts:153-257 | schemas of any keywords whose length limits let no text or every non-empty text pass, whose divisors stand beside type integer and are p/q with p under 10^9, whose required names refuse null and empty by type or length, and whose additionalProperties stand beside properties: the validator's relation is draft-07's |
| DraftSeven.IntegerNearMultipleIsMultiple | packages/skills-sdk/src/json-schema.ts:192-197 | an integer that passes for such a divisor is a multiple |
| DraftSeven.MinLengthAgreesIff | packages/skills-sdk/src/json-schema.ts:154-156 | a minLength counted in UTF-16 units means the same as one in characters exactly up to 1 |
| DraftSeven.MaxLengthAgreesIff | packages/skills-sdk/src/json-schema.ts:157-159 | a maxLength does exactly below 1 |
| DraftSeven.NearMultipleIsNotMultiple | packages/skills-sdk/src/json-schema.ts:192-197 | for every positive divisor some number that is no multiple passes |
| DraftSeven.MultiplesAreNear | packages/skills-sdk/src/json-schema.ts:192-197 | every multiple passes |
| SchemaAgreement.SchemaAgreesIff | packages/skills-sdk/src/json-schema.ts:110-257 | for every schema, the validator and draft-07 give all values one verdict exactly under a recursive condition: listed values agree; number and string keywords agree; item schemas agree or too few different items exist; objects are impossible on both sides, or every declared and additional schema agrees and required ones refuse null and empty; without properties nothing is required or restricted |
| SchemaAgreement.DisagreeingValue | packages/skills-sdk/src/json-schema.ts:110-257 | a value with two verdicts for every other schema |
| SchemaAgreement.AgreeingSchemasAgree | packages/skills-sdk/src/json-schema.ts:110-257 | one verdict for every value under the condition |
| SchemaAgreement.EmptyRequired | packages/skills-sdk/src/json-schema.ts:229-234 | in any object that satisfies draft-07, null or the empty string for a required property that allows it satisfies draft-07 and not the validator |
| SchemaAgreement.IgnoredRestriction | packages/skills-sdk/src/json-schema.ts:236-256 | without properties a value that additionalProperties refuses passes the validator and not draft-07 |
| SchemaAgreement.SomethingRefused | packages/skills-sdk/src/json-schema.ts:120-257 | a value that draft-07 refuses, for every schema that is not empty of restrictions |
| SchemaAgreement.NothingRefused | packages/skills-sdk/src/json-schema.ts:120-257 | a schema empty of restrictions, at every level, refuses no value |
| SchemaWitnesses.Witness | packages/skills-sdk/src/json-schema.ts:120-257 | a value for every schema said to be satisfiable, on either side, that may stand for a required property |
| SchemaWitnesses.WitnessedIsSatisfiable | packages/skills-sdk/src/json-schema.ts:120-257 | no other schema has such a value |
| SchemaWitnesses.ObjectBySlots | packages/skills-sdk/src/json-schema.ts:223-257 | with properties, an object is valid on either side exactly if required keys are there and each field fits what the schema says of its key |
| LeafAgreement.TextsAgreeIff | packages/skills-sdk/src/json-schema.ts:153-159 | without patterns, counting units or characters makes no difference exactly if every positive length is allowed or none |
| LeafAgreement.SomeStringIff | packages/skills-sdk/src/json-schema.ts:153-159 | without patterns, some text is allowed exactly if the least positive length is, or the empty text may do |
| LeafAgreement.EveryTextIff | packages/skills-sdk/src/json-schema.ts:153-159 | without patterns, every text is allowed exactly without effective length limits |
| LeafAgreement.NumbersAgreeWithoutDivisor | packages/skills-sdk/src/json-schema.ts:179-198 | without a positive divisor numbers get one verdict |
| LeafAgreement.DivisorOfNumbersDisagrees | packages/skills-sdk/src/json-schema.ts:179-198 | with a positive divisor, all numbers allowed and a side without bounds they do not |
| LeafAgreement.IntegerDivisorAgreesIff | packages/skills-sdk/src/json-schema.ts:179-198 | with integers only, a side without bounds and a divisor p/q in lowest terms they do exactly if p is under 10^9 |
| LeafAgreement.SomeNumberWithoutBounds | packages/skills-sdk/src/json-schema.ts:179-198 | without bounds some number passes exactly if numbers are allowed at all |
| LeafAgreement.SomeNumberIff | packages/skills-sdk/src/json-schema.ts:179-198 | without a divisor some number passes exactly if no two bounds exclude each other |
| Settings.SettingsAgreeIff | packages/skills-sdk/src/settings.ts:107-165 | for the schema built from a settings block, the validator's verdict is draft-07's on all settings exactly if no settings meet the required ones on either side, or every setting's schema agrees and every required one is declared and refuses the empty text |
| Settings.SettingAcceptsIff | packages/skills-sdk/src/settings.ts:124-165 | what the schema of a setting accepts: a value of one of its types, limits for the first type alone, options in place of choices except where several may be selected, and a URI unless a pattern of its own is given |
| Settings.BlockAcceptsIff | packages/skills-sdk/src/settings.ts:107-122 | a settings object is accepted exactly if required ones are there and not empty and declared ones are accepted |
| Settings.RequiredTextDisagrees | packages/skills-sdk/src/settings.ts:107-165 | a required text setting without limits, left empty, passes draft-07 and not the validator |
| JsonSchemaProofs.EveryErrorExtendsThePath | packages/skills-sdk/src/json-schema.ts:105-257 | every reported path extends the root path |
| SchemaErrors.ErrorIff | packages/skills-sdk/src/json-schema.ts:120-257 | an error is reported exactly if the value at its path breaks its keyword there, with no wrong type on the way; missing and unknown properties at the path of the property |
| SchemaErrors.SameErrorsInAnyKeyOrder | packages/skills-sdk/src/json-schema.ts:87-257 | so deep-equal values have the same errors, up to their order |
| JsonSchemaProofs.RoundingDecides | packages/skills-sdk/src/json-schema.ts:192-197 | the rounding test passes exactly if some integer is within the tolerance |
| JsonSchemaProofs.TypesAgree | packages/skills-sdk/src/json-schema.ts:68-85 | the type test decides the type of the denoted value, integers included |
| JsonSchemaProofs.CountVerdict | packages/skills-sdk/src/json-schema.ts:200-217 | item limits and uniqueness hold of the denoted items |
| JsonSchemaProofs.ObjectVerdict | packages/skills-sdk/src/json-schema.ts:223-257 | required, declared and additional properties are judged as the relation says |
| SchemaValidator.ValidateAgainstSchema | packages/skills-sdk/src/json-schema.ts:110-118 | an empty answer is exactly validity, and all paths extend the root's |
| SchemaValidator.ValidateNode | packages/skills-sdk/src/json-schema.ts:120-151 | appends exactly the errors of this value, stopping after a wrong type |
| SchemaValidator.ValidateString | packages/skills-sdk/src/json-schema.ts:153-177 | appends exactly the string errors, an invalid pattern being one |
| SchemaValidator.ValidateNumber | packages/skills-sdk/src/json-schema.ts:179-198 | appends exactly the number errors |
| SchemaValidator.FindDuplicate | packages/skills-sdk/src/json-schema.ts:207-217 | the pair loop finds a duplicate exactly if there is one |
| SchemaValidator.ValidateArray | packages/skills-sdk/src/json-schema.ts:200-221 | appends exactly the array errors, at most one for duplicates |
| SchemaValidator.ValidateObject | packages/skills-sdk/src/json-schema.ts:223-257 | appends exactly the object errors |
| Events.EmitReachesClientOnce | packages/gateway/src/events.ts:188-258 | each client is sent or queued an event exactly once if it accepts it, never both, and not at all otherwise |
| Events.DeliveredIff | packages/gateway/src/events.ts:199-221 | an event leaves a trace exactly if some client accepts it, or none watches its session and it can be buffered |
| EventEffects.EmissionEffect | packages/gateway/src/events.ts:188-316 | one entry with this event is added to the buffer of the session named, or the default one, if nobody watches; otherwise each client that wants it gets it at once or in its batch, and no buffer changes |
| EventEffects.ConnectionEffect | packages/gateway/src/events.ts:85-113 | terminals and throttled clients start with an empty batch and a timer; leaving takes both |
| EventEffects.ClientEffect | packages/gateway/src/websocket.ts:743-752 | subscribing adds one workflow, unsubscribing drops all |
| EventEffects.FlushEffect | packages/gateway/src/events.ts:342-355 | a flush sends what is queued as one message, in order, and empties the batch |
| Events.SubscriptionHidesEvent | packages/gateway/src/events.ts:223-231 | if some open client watches the session and every client of it watches other workflows, the emission changes nothing: nothing is sent, queued or buffered |
| Events.HiddenEventExists | packages/gateway/src/events.ts:199-231 | a state and an event for which this happens |
| Events.RunKeepsRegistered | packages/gateway/src/events.ts:85-113 | over every run each client that may queue has a batch and each batch a timer |
| Events.RunKeepsFaith | packages/gateway/src/events.ts:188-355 | for a client that stays connected, singles are the matching immediate events, and flushed plus current batch the other matching events, in order of emission |
| Events.EventStreamer.AddClient | packages/gateway/src/events.ts:85-93 | performs the registration step |
| Events.EventStreamer.RemoveClient | packages/gateway/src/events.ts:99-113 | performs the removal step, dropping the client's batch |
| Events.EventStreamer.EmitEvent | packages/gateway/src/events.ts:188-258 | performs the emission step |
| Events.EventStreamer.EmitDagMessage | packages/gateway/src/events.ts:270-316 | performs the emission step without batching |
| Events.EventStreamer.DeliverToAll | packages/gateway/src/events.ts:223-257 | the loop treats every client once, in any order |
| Events.EventStreamer.CountEligible | packages/gateway/src/events.ts:204-208 | positive exactly if some client passes the session filter |
| Events.EventStreamer.FlushBatch | packages/gateway/src/events.ts:342-355 | performs the flush step |
| StateStore.RefusedIff | packages/gateway/src/state-store.ts:140-153 | an event is refused exactly if its id was accepted among the last thousand |
| StateStore.AcceptAllKeepsSpaced | packages/gateway/src/state-store.ts:137-153 | over every run, accepted events with equal ids are more than a thousand apart |
| StateStore.LogIsSpaced | packages/gateway/src/state-store.ts:155-163 | the same holds in the visible log |
| StateStore.RememberedAreDistinct | packages/gateway/src/state-store.ts:140-153 | the remembered ids are distinct, so the set's size is the window's length |
| StateStore.PagesConcatenate | packages/gateway/src/state-store.ts:168-200 | reading while there is more gives the whole filtered list from the first offset, once and in order |
| StateStore.HasMoreIff | packages/gateway/src/state-store.ts:192-199 | hasMore is said exactly if the next page is not empty |
| StateStore.FilterKeepsWanted | packages/gateway/src/state-store.ts:173-189 | the filters keep exactly the wanted events |
| StateEffects.QueryEffect | packages/gateway/src/state-store.ts:168-200 | a query is answered with consecutive ones among the events that pass its filters, in the order of the log: default limit 100, at most 500, from the offset; the total counts all |
| StateEffects.LessIsPrecedes | packages/gateway/src/state-store.ts:183-189 | time stamps are compared code unit by code unit |
| StateEffects.AppendEffect | packages/gateway/src/state-store.ts:137-163 | an event with a remembered id changes nothing; another goes to the end of the log and its id to the ids, which lose their first if they were full |
| StateStore.PruningMeetsTheCap | packages/gateway/src/state-store.ts:395-409 | pruning leaves the session its states up to the cap |
| StateStore.PruningTakesTheOldest | packages/gateway/src/state-store.ts:395-409 | pruned states belong to the session and are no newer than any left |
| StateStore.PruningIsSortAndCut | packages/gateway/src/state-store.ts:395-409 | pruning deletes the prefix beyond the cap of the session's states sorted stably by age |
| StateStore.PruningCutsStableSort | packages/gateway/src/state-store.ts:395-409 | of any stable sort, that is |
| StateStore.ConfirmationKeepsTheCapIff | packages/gateway/src/state-store.ts:335-379 | a confirmation keeps the cap exactly if the workflow is known or the session below the cap |
| StateStore.ConfirmationExceedsTheCap | packages/gateway/src/state-store.ts:335-379 | any hundred dispatched workflows and one confirmation of another leave a hundred and one states |
| StateStore.DispatchedAreKept | packages/gateway/src/state-store.ts:214-247 | up to a hundred different workflows of a session are all kept |
| StateEffects.DispatchEffect | packages/gateway/src/state-store.ts:214-409 | a dispatched state takes the place of the workflow's former one or the last place; then the session's oldest beyond a hundred go, and all others stay in order |
| StateStore.ClearingTakesOneSession | packages/gateway/src/state-store.ts:587-600 | clearing removes exactly one session's states |
| StateEffects.ClearEffect | packages/gateway/src/state-store.ts:587-600 | what is left are the other sessions' states, in order |
| StateStore.ServerSessionStore.AppendEvent | packages/gateway/src/state-store.ts:137-163 | the log is the last 5000 and the id set the last 1000 accepted events, in every session |
| StateStore.ServerSessionStore.QueryEvents | packages/gateway/src/state-store.ts:168-200 | answers with the clamped page of the filtered log, which StateEffects.QueryEffect spells out |
| StateStore.ServerSessionStore.RecordDagDispatched | packages/gateway/src/state-store.ts:214-247 | records the state and prunes its session to the cap |
| StateStore.ServerSessionStore.RecordDagConfirm | packages/gateway/src/state-store.ts:335-379 | answers whether the workflow is known; marks a known one and changes no other, or appends one marked state, without pruning |
| StateStore.ServerSessionStore.ClearSession | packages/gateway/src/state-store.ts:587-603 | forgets one session and nothing of any other |
| BindRetry.BindWithRetry | packages/gateway/src/bind-retry.ts:136-219 | the account of a call: every listen, its time, every report with its delay, the reason and elapsed time at the end, attempts within budget / least time of a round + 2, delays that sum to at most the budget, no listen after an abort could be seen |
| BindRetry.AccountIsUnique | packages/gateway/src/bind-retry.ts:136-219 | what the port, the clock and the signal do leaves only one account: every call, time, report and the answer is determined |
| BindRetry.RoundKeepsSchedule | packages/gateway/src/bind-retry.ts:190-217 | one more failed round keeps delays inside budget and clock |

## Left out

- BindRetry.BindWithRetry: assumes that rounds take time: a failed listen and its delay together move the clock by at least the shortest delay or, where that is 0, a millisecond; on a clock that stands still the source's loop does not end either.
- SchedulerModel.EveryRunIsSafe: speaks of runs that start and stop the service with nothing in flight, the exact condition by SchedulerModel.StepKeepsCoherentIff; one step reads a clock that does not run backwards between its two readings.
- Sessions.SessionManager.CreateSession: the random identifier of a new session is not in use.
- Dedup.BlockedMatchesReferenceIff: the first text's normal form is at most 2^53 - 1 characters long, the size that the band for thresholds of zero or less stands for.
- BloomFilters.BloomFilter.constructor: takes any size up to 2^31 bits and any number of hashes; their derivation from load and error rate by logarithms, and the rate itself, are not modelled.
- Relevance.ComputeHybridRelevance: the square root is any function that squares back; NaN and rounding do not occur in exact reals.
- SchemaAgreement.SchemaAgreesIff: where a pattern or format stands, whether all texts agree and whether any text passes are conditions on that pattern; with a divisor and bounds on both sides, on the numbers between them; with uniqueItems and minItems above 1, on whether so many different items exist.
- DraftSeven.ConformingSchemasAgree: sufficient only, a condition that can be read off any schema; the exact one is SchemaAgreement.SchemaAgreesIff.
- TruncateBudget.OvershootIsBounded: speaks of a reserve that is not negative; without one TruncateBudget.NoReserveMissesBudget and TruncateBudget.NothingFitsMetIff are exact.
- TruncateBudget.RoomMeetsBudget: sufficient only; when some inner sentences fit and others do not, the exact condition depends on the selection itself (TruncateBudget.BudgetMetIff).
- Sessions.SessionManager.SweepOrphanedRuns: reads the clock once for all sessions, and the clock is not before 1970.
- PersistenceRuns.ServeAll: runs with zero cursors are left to the exact condition for each read, Persistence.CachedPageIsRightIff.
- Characters beyond the basic multilingual plane outside hashing and schema lengths: trigrams, fingerprints, estimates and cuts take one character for one unit.
- Floating-point rounding everywhere; thresholds, scores, costs and schema numbers are exact reals.
- The regular expressions of normalisation, high-signal keywords and schema patterns and formats (function parameters), `localEmbedding`, `compressMemoryContent`.
- Session creation times and memory scopes, hot-window files, the `.bak` protocol and failing writes, migration to SQLite, snapshots and activity queries. Message, plan and gate payloads are opaque strings.
- The cron and time zone libraries, attachments, next-run times, broadcasts and the agent's own behaviour; an attempt succeeds, fails or times out. A scheduler write that throws.
- Invalid input that create and update refuse before touching anything.
- Workflow, memory, run-history and client tables, transactions, the session cache, negative limits, and sharing of cached arrays with callers.
- Property names that JavaScript objects inherit (such as `toString` or `__proto__`), error texts and titles in the validator.
- Sequence numbers given by persistence before an event is emitted (they are part of the event), graph snapshots, `broadcast`, and the order in which clients are served.
- Costs, burn rates, pending actions, coding sessions and node progress in the state store.
- The pair of timers that start and stop the rate limiter's cleanup; when it happens is arbitrary in the model.
