# Verified models of the governance API's kernels

This project models five kernels of the governance API and proves what they are for:

1. **Survey tally.** Responses to a linked survey are validated, grouped by role, reduced to one
   response per voter, weighted, aggregated per question, and served as provisional, pending or
   final.
2. **Statistics and indexes.** The Gini coefficient, the correlation of two DReps, activity rates,
   and delegator counts rebuilt from the delegation log.
3. **Paging and batching.** Reading a growing list page by page under pressure, and splitting
   addresses into requests under a body limit.
4. **Resilience and concurrency.** The write semaphore, the retry loop, the circuit breaker, the
   Koios cooldown marks, and the lock and lane protocol of the ingestion jobs.
5. **Ledger vote math.** Stake buckets, percentages and the pass/fail verdict, in the two modules
   that compute them.

One module per source file or kernel. Code that updates state is a method or a class proved
against a specification function; what the source promises is proved about that function, in terms
of stored fields, events and counts. The protocols (`DbInterleavings`, `IngestionJob`) are state
machines whose theorems hold for every sequence of events.

| module | models |
|---|---|
| `SurveyTypes`, `SurveyValidation` | entities; validation of surveys and responses |
| `SurveyDedupe` | the order of votes and the one vote kept per voter |
| `SurveyResults`, `SurveyResultLaws`, `SurveyVoteEffects` | results per question, their laws, and what one vote adds to them |
| `SurveyTally`, `SurveyTallyLaws` | the whole tally and its laws |
| `SurveyFinalization`, `SurveyRows`, `SurveyFinalizationLaws`, `SurveyProvisional`, `SurveyServed` | which rows respond, evidence, weights, the phase, what a final tally promises and what others do not |
| `Gini`, `Correlation`, `CorrelationMeaning`, `ActivityRate`, `DelegatorCounts` | statistics and indexes |
| `Paging`, `AccountInfoChunks` | paging and batching |
| `FailureWindow`, `KoiosCooldown`, `DbResilience`, `DbInterleavings`, `DbRuns` | windows, marks, semaphore, retries, all interleavings, and runs read off their events |
| `IngestionJob`, `IngestionFirings` | the scheduled callback over lock, lane and exceptions |
| `VotePower`, `LedgerVoteMath`, `ProposalMapper`, `VoteStances` | stake-weighted votes in two implementations, and where each stance's power goes |
| `Common`, `Arithmetic`, `Sums`, `SortedSets` | shared definitions and facts |

## What the code does not promise

Some expected laws fail. Each has a lemma with a concrete input or run, and a lemma with the exact
condition.

- Not every accepted response adds to a result. A payload outside metadata label 17 is validated
  and counted as a unique responder, but no result reads it (`SurveyTallyLaws.CountedButUnread`).
  A multi-select answer that selects nothing is valid too, and adds nothing (`CountedButEmpty`).
  `AcceptedButSilentIff` has the exact condition for every weighting mode; `SilentResponder` shows
  what such a response does to a tally. Ingestion stores responses in the unread form
  (src/services/ingestion/vote.service.ts:933-952), and from such rows every result of every role
  in every phase is empty (`SurveyProvisional.ServedResultsAreEmpty`).
- Before a tally is final a vote is keyed by the first entry of its transaction, so two pools can
  count as one responder (`SurveyProvisional.TwoPoolsCountAsOne`; exactly when the tallies of any of
  the rows count one response per voter and role: `ProvisionalOnePerVoterIff`), and one key can be
  two unique responders (`SurveyProvisional.TwoRolesShareAKey`; exactly when:
  `SurveyTallyLaws.UniqueRespondersIff`).
- Reordering votes can change which are kept (`SurveyDedupe.OrderCanMatter`), exactly when one key
  has two different votes that compare equal at the top (`SurveyDedupe.OrderIrrelevantIff`).
- A pledge-based survey with one pool response can only become final in its end epoch itself
  (`SurveyProvisional.PledgeStaysPending`; `SurveyFinalizationLaws.PledgesNeverFinalLater`,
  `PhaseIff`).
- Delegation rows of unknown epoch make a stored delegator count wrong. The delegation sync writes
  them for every delegation that ends without a successor
  (src/services/ingestion/delegation-sync.service.ts:1544-1554), and each makes the count one too
  high (`DelegatorCounts.EndingIsMissed`, `EndingsAreOvercounted`; exactly when a count is right on
  any chained log: `StoredCountIsExact`).
- The since-registration denominator ignores the epoch bounds of the request
  (`ActivityRate.EpochFilterIsIgnored`; exactly when it matters: `DenominatorIff`).
- Jobs exclude each other in all runs if and only if no attempt of a release fails after it freed
  its lock (`IngestionJob.ExclusionIff`): the catch block releases by name a second time
  (`LossyReleaseBreaksExclusion`), and so does a retry, without an exception
  (`RepeatedReleaseBreaksExclusion`).
- A lock can outlive the firing that took it: a retried acquire leaves it behind
  (`IngestionJob.RepeatedAcquireOrphans`; exactly when: `NoLockOutlivesItsFiring`).
- The verdict reads rounded percentages, so a share just below a threshold passes
  (`ProposalMapper.BelowThresholdCanPass`; exactly when: `DrepsReachIff`).
- The two SPO computations differ on hard forks with inconsistent data
  (`ProposalMapper.HardForksCanDiffer`; exactly when: `SpoViewsAgreeIff`), and for other actions the
  ledger's yes and no do not make up the outcome denominator
  (`LedgerVoteMath.OutcomeCanBeUncovered`; exactly when: `SpoOutcomeIsCoveredIff`).

## Model

| member | source | states |
|---|---|---|
| SurveyValidation.ValidateQuestion | src/libs/surveyMetadata.ts:982-1063 | no error is reported exactly if the question is well-formed for its method |
| SurveyValidation.ValidateQuestions | src/libs/surveyMetadata.ts:493-506 | no error exactly if all questions are well-formed and no two share an id |
| SurveyValidation.ValidateModes | src/libs/surveyMetadata.ts:515-526 | no error exactly if every role's weighting mode is allowed for the role |
| SurveyValidation.ValidateSurveyDetails | src/libs/surveyMetadata.ts:466-558 | no error exactly if the survey is valid, with its end epoch and eligible roles |
| SurveyValidation.FilterRoles | src/libs/surveyMetadata.ts:1132-1147 | keeps exactly the weightings of the roles that may vote on the linked action |
| SurveyValidation.FilterKeepsOrder | src/libs/surveyMetadata.ts:1132-1147 | in the order in which the survey lists them |
| SurveyValidation.ValidateAnswer | src/libs/surveyMetadata.ts:1065-1130 | no error exactly if the answer fits its question: count, index range, numeric range and step; repeated indexes pass |
| SurveyValidation.ValidateAnswers | src/libs/surveyMetadata.ts:638-674 | no error exactly if every answer names a known question once and carries one fitting value |
| SurveyValidation.ValidateHeader | src/libs/surveyMetadata.ts:578-611 | no error exactly if version, survey, role and enforced voting entry match |
| SurveyValidation.ValidateSurveyResponse | src/libs/surveyMetadata.ts:560-677 | no error exactly if the response, wrapped or bare, is valid for the survey and the vote's role has a weighting mode |
| SurveyDedupe.CompareIsTotalPreorder | src/libs/surveyMetadata.ts:953-980 | comparing votes by slot, block index, metadata position, time and hash is a total preorder |
| SurveyDedupe.CompareMeansLater | src/libs/surveyMetadata.ts:953-980 | the comparison is positive exactly for the later vote: higher slot, else block index (unknown ones first), else metadata position, else time, else the hash that comes after |
| SurveyDedupe.SameKeyIff | src/libs/surveyMetadata.ts:942-944 | votes share a key exactly if they share a credential, or without one the voter and its type |
| SurveyDedupe.DedupeVotes | src/libs/surveyMetadata.ts:939-951 | the insertion-ordered Map keeps one vote per key, and no vote of that key is later |
| SurveyDedupe.DedupedKeepsLatest | src/libs/surveyMetadata.ts:939-951 | every key is kept once, with a vote of the list that no vote of that key is later than |
| SurveyDedupe.OneVotePerVoter | src/libs/surveyMetadata.ts:939-951 | as many votes are kept as there are distinct keys |
| SurveyDedupe.SameVotesKept | src/libs/surveyMetadata.ts:939-980 | if no key has two different latest votes, every reordering keeps the same votes |
| SurveyDedupe.OrderIrrelevantIff | src/libs/surveyMetadata.ts:939-980 | the order is irrelevant to what is kept if and only if no key has two different votes of which neither is later and no other is |
| SurveyDedupe.OrderCanMatter | src/libs/surveyMetadata.ts:953-980 | a concrete tie: two pools in one transaction, of whose votes the one listed first is kept |
| SurveyDedupe.OnePerVoterIff | src/libs/surveyMetadata.ts:943-947 | whichever of the votes are accepted, one per voter is kept if and only if equal keys are equal voters |
| SurveyDedupe.FirstOfTiesStays | src/libs/surveyMetadata.ts:945-948 | of tied votes the one that came first is kept |
| SurveyDedupe.RevoteReplaces | src/libs/surveyMetadata.ts:939-951 | appending a vote that is later than all votes of its key equals putting it in place of any one of them |
| SurveyResults.GetVoteWeight | src/libs/surveyMetadata.ts:904-937 | the weight per mode and the problems it reports |
| SurveyResults.WeighAnswer | src/libs/surveyMetadata.ts:826-836 | a vote is weighed only if its label-17 response has an answer of the right kind |
| SurveyResults.TallyOptions | src/libs/surveyMetadata.ts:820-849 | the totals array holds, per option, the sum over votes of weight times mentions |
| SurveyResults.AddSelection | src/libs/surveyMetadata.ts:836-840 | in-place update adds the weight once per mention of an option in range |
| SurveyResults.TallyNumbers | src/libs/surveyMetadata.ts:851-878 | count, minimum, maximum and weighted mean of the answers |
| SurveyResults.TallyCustom | src/libs/surveyMetadata.ts:880-900 | the weight per custom value |
| SurveyResults.BuildMethodResults | src/libs/surveyMetadata.ts:812-902 | one result per question in order, and the problems of all weights read |
| SurveyResultLaws.ResultPermutation | src/libs/surveyMetadata.ts:812-902 | reordering the votes changes no option total, count, minimum, maximum, mean or custom total |
| SurveyResultLaws.SingleChoiceAddsUp | src/libs/surveyMetadata.ts:820-849 | single-choice totals add up to the weight of the votes that answer |
| SurveyResultLaws.MultiSelectAddsUp | src/libs/surveyMetadata.ts:820-849 | multi-select totals add up to weight times options named |
| SurveyResultLaws.MultiSelectIsBounded | src/libs/surveyMetadata.ts:1080-1093 | that sum is at most maxSelections times the weight of the votes that answer |
| SurveyResultLaws.NoNumbersIff | src/libs/surveyMetadata.ts:869-877 | minimum and maximum are absent exactly if nobody answers; the mean exists exactly if the answers have positive weight |
| SurveyResultLaws.NumericInRange | src/libs/surveyMetadata.ts:851-878 | the mean lies between minimum and maximum, and these in the configured range |
| SurveyVoteEffects.SelectionCounts | src/libs/surveyMetadata.ts:826-840 | one vote more raises the total of each option by its weight times how often its first answer to the question names the option |
| SurveyVoteEffects.NumberCounts | src/libs/surveyMetadata.ts:851-877 | or raises the count by one and takes its number into minimum and maximum |
| SurveyVoteEffects.NumberWeighs | src/libs/surveyMetadata.ts:862-868 | and adds its weight, and weight times number, to the two sums of the mean |
| SurveyVoteEffects.MeanIsWeighted | src/libs/surveyMetadata.ts:869-877 | the mean times the first sum is the second |
| SurveyVoteEffects.CustomCounts | src/libs/surveyMetadata.ts:880-900 | or raises the total of exactly its custom value by its weight |
| SurveyVoteEffects.OthersDoNotCount | src/libs/surveyMetadata.ts:826-836 | a vote without an answer of the right kind changes nothing |
| SurveyVoteEffects.WeighsIff | src/libs/surveyMetadata.ts:904-937 | the weight is one, the snapshot, or the stored lovelace in ada |
| SurveyTally.FileVote | src/libs/surveyMetadata.ts:706-749 | one vote is validated, counted for its role, and filed if it is valid |
| SurveyTally.GroupVotes | src/libs/surveyMetadata.ts:705-749 | the groups are the accepted votes per role; the statistics count seen and rejected ones |
| SurveyTally.TallyRole | src/libs/surveyMetadata.ts:753-786 | a role's result is computed from its deduplicated accepted votes |
| SurveyTally.BuildSurveyTally | src/libs/surveyMetadata.ts:679-810 | the two loops compute the tally that filters, deduplication and sums define |
| SurveyTally.SumResponders | src/libs/surveyMetadata.ts:800-803 | the loop adds up the unique responders of the role results |
| SurveyTally.RoleSeen | src/libs/surveyMetadata.ts:705-735 | per role, votes seen are accepted or rejected |
| SurveyTally.NoVoteIsLost | src/libs/surveyMetadata.ts:618-623 | roles without a weighting mode are rejected, so the roles account for every vote |
| SurveyTally.VotesAreConserved | src/libs/surveyMetadata.ts:788-809 | seen = valid + invalid, deduplicated votes are among the invalid, and the unique responders are the valid votes and the sum over the roles of their distinct keys |
| SurveyTally.RoleVotesAreConserved | src/libs/surveyMetadata.ts:774-785 | the same per role: the votes of the role are all seen, unique responders are the distinct keys among validated votes, and the other validated votes are deduplicated |
| SurveyTallyLaws.TallyPermutation | src/libs/surveyMetadata.ts:679-810 | without ties every reordering of the votes gives the same whole tally |
| SurveyTallyLaws.UniqueRespondersIff | src/libs/surveyMetadata.ts:800-803 | the overall unique responders are the distinct keys among validated votes if and only if no key has validated votes in two roles, else they are more |
| SurveyTallyLaws.OneKeyInTwoRoles | src/libs/surveyMetadata.ts:800-803 | accepted votes of two roles with one key give two unique responders and one key |
| SurveyTallyLaws.RevoteCountsOnce | src/libs/surveyMetadata.ts:753-761 | in every role, a re-vote counts the same votes as replacing the earlier one |
| SurveyTallyLaws.RevoteTally | src/libs/surveyMetadata.ts:679-810 | a re-vote gives the results, valid votes and responders of a replacement, and one more seen, invalid and deduplicated vote |
| SurveyTallyLaws.SingleChoiceInTally | src/libs/surveyMetadata.ts:751-786 | in the tally of valid questions, single-choice totals equal the weight of the counted votes that answer |
| SurveyTallyLaws.MultiSelectInTally | src/libs/surveyMetadata.ts:751-786 | multi-select totals equal weight times options named and keep the maxSelections bound |
| SurveyTallyLaws.NumericInTally | src/libs/surveyMetadata.ts:751-786 | numeric summaries exist exactly if somebody answers and respect the configured range |
| SurveyVoteEffects.ChoiceRaisesTally | src/libs/surveyMetadata.ts:753-786 | a new voter's accepted choice raises exactly the totals of the options it names, in its role's results, by its weight |
| SurveyVoteEffects.CountedAreValid | src/libs/surveyMetadata.ts:560-677 | every counted vote was cast in its role, for this survey, in time, and answers questions of the survey once each |
| SurveyVoteEffects.CountedAnswersAreAllowed | src/libs/surveyMetadata.ts:1065-1130 | in a valid survey every such answer is one that its question allows: one option, at most maxSelections options, or a whole number in range and on step |
| SurveyVoteEffects.TallyErrorsIff | src/libs/surveyMetadata.ts:904-937 | the errors of a tally are exactly the complaints about weights of counted votes that answer |
| SurveyTallyLaws.AcceptedButSilentIff | src/libs/surveyMetadata.ts:819-902 | an accepted vote makes no difference to any result, whatever the other votes, if and only if it is bare or each of its answers adds nothing: a built-in value for a custom question, an empty multi-select, or a choice without weight |
| SurveyTallyLaws.SilentResponder | src/libs/surveyMetadata.ts:753-789 | such a vote of a new voter adds one unique responder to its role and changes no result |
| SurveyTallyLaws.CountedButUnread | src/libs/surveyMetadata.ts:1202-1211 | a concrete valid survey where a bare response is a unique responder with all totals zero |
| SurveyTallyLaws.CountedButEmpty | src/libs/surveyMetadata.ts:1080-1093 | the same for a response under the label whose multi-select answer is empty |
| SurveyTallyLaws.UnlabelledTally | src/libs/surveyMetadata.ts:812-902 | without payloads under the label every result of every role is empty |
| SurveyFinalization.BuildLinkedVoteEvidence | src/services/proposalSurveyTally.service.ts:292-356 | no error exactly if the transaction cannot be inspected or has one entry, of this voter and role, on the linked action; a warning exactly if it cannot be inspected |
| SurveyFinalization.EnrichSurveyTallyVotes | src/services/proposalSurveyTally.service.ts:45-81 | each vote gets its position, evidence and credential, from Koios or else from the transaction body |
| SurveyFinalization.LoadDrepWeights | src/services/proposalSurveyTally.service.ts:358-446 | for stake-based weighting exactly the DReps that responded get a weight: stored snapshot, else Koios history, else 0 with an error unless provisional |
| SurveyFinalization.LoadSpoWeights | src/services/proposalSurveyTally.service.ts:448-542 | the same for pools: history for stake, live pledge for pledge, an error for a pledge read outside the epoch |
| SurveyFinalization.ApplyEndEpochWeights | src/services/proposalSurveyTally.service.ts:83-124 | every vote carries its voter's own end-epoch weight and error |
| SurveyFinalization.ApplyProvisionalWeights | src/services/proposalSurveyTally.service.ts:126-174 | every vote carries the current weight or its own voting power, and no error |
| SurveyFinalization.CollectPendingFinalizationWarnings | src/services/proposalSurveyTally.service.ts:178-193 | a warning is collected exactly if some vote's evidence or weight gives it |
| SurveyFinalization.GetProposalSurveyTally | src/controllers/proposal/getProposalSurveyTally.ts:165-227 | serves the tally of the phase that the epoch and the pending warnings select, from the rows that respond |
| SurveyRows.SelectedOne | src/controllers/proposal/getProposalSurveyTally.ts:117-142 | a row gives a vote exactly if it stores a response to this survey and the first of DRep, pool and committee id that it stores is not empty; the vote has the row's fields |
| SurveyRows.SelectedInOrder | src/controllers/proposal/getProposalSurveyTally.ts:117-142 | the votes are those of the rows that respond, one each, in order |
| SurveyFinalizationLaws.PhaseIff | src/controllers/proposal/getProposalSurveyTally.ts:176-227 | provisional exactly before the end epoch; final exactly if of every row that responds the transaction's entries and the weight at the end epoch are known |
| SurveyFinalizationLaws.PledgesNeverFinalLater | src/services/proposalSurveyTally.service.ts:503-521 | after the end epoch one pool response keeps a pledge-based survey from being final |
| SurveyFinalizationLaws.FinalizedIsSafe | src/controllers/proposal/getProposalSurveyTally.ts:198-227 | in a final tally every counted vote is that of a stored row whose transaction has one entry, of the vote's own voter and role on the linked action; every weight is the recorded one in ada; no error or warning is left |
| SurveyFinalizationLaws.FinalizedOncePerVoter | src/services/proposalSurveyTally.service.ts:68-76 | in a final tally no voter is counted twice in a role |
| SurveyFinalizationLaws.FinalizedStays | src/controllers/proposal/getProposalSurveyTally.ts:190-226 | served later from the same records, a final tally stays final and the same |
| SurveyFinalizationLaws.ServedIsConserved | src/controllers/proposal/getProposalSurveyTally.ts:117-142 | in every phase the totals account for each row that responds |
| SurveyServed.LaterIffCastAfter | src/services/proposalSurveyTally.service.ts:55-66 | in every phase one response counts as later than another exactly if its row was cast after: by Koios' slot and block index, else by time and hash |
| SurveyServed.ProvisionalWeightIs | src/services/proposalSurveyTally.service.ts:126-174 | before a tally is final a response weighs the current stake or pledge in ada, or nothing if that cannot be fetched |
| SurveyServed.ProvisionalHasNoErrors | src/services/proposalSurveyTally.service.ts:126-174 | so a tally that is not final has no errors |
| SurveyServed.WarningsIff | src/services/proposalSurveyTally.service.ts:178-193 | from the end epoch on the warnings are exactly what the responses of the rows lack, and the tally is final exactly if there are none |
| SurveyProvisional.ProvisionalOnePerVoterIff | src/services/proposalSurveyTally.service.ts:318-355 | before the end epoch the served tally of any of the rows counts, in every weighted role, exactly one response of each voter with an accepted one, if and only if accepted responses of one role have the same signer exactly when they have the same voter |
| SurveyProvisional.TwoPoolsCountAsOne | src/services/proposalSurveyTally.service.ts:73-75 | a concrete transaction with two pools: one unique responder |
| SurveyProvisional.TwoRolesShareAKey | src/services/proposalSurveyTally.service.ts:73-75 | two concrete transactions of a DRep and a pool: two unique responders with one key |
| SurveyProvisional.PledgeStaysPending | src/services/proposalSurveyTally.service.ts:503-521 | a concrete proven pledge-based response: final in the end epoch, pending in the next |
| SurveyProvisional.ServedResultsAreEmpty | src/services/ingestion/vote.service.ts:933-952 | from rows stored as ingestion stores them every phase serves empty results |
| Gini.CalculateGini | src/controllers/analytics/getGiniCoefficient.ts:14-48 | the sorted rank-weighted form returns the clamped mean-difference coefficient |
| Gini.NumeratorIsPairDiff | src/controllers/analytics/getGiniCoefficient.ts:27-42 | the code's numerator is the sum of all pairwise differences |
| Gini.PairDiffPermutation | src/controllers/analytics/getGiniCoefficient.ts:18-23 | the pairwise sum does not depend on the order |
| Gini.PairDiffBounds | src/controllers/analytics/getGiniCoefficient.ts:41-48 | it lies between 0 and (n-1) times the sum |
| Gini.ClampIsNoOp | src/controllers/analytics/getGiniCoefficient.ts:41-48 | the clamp changes nothing and the coefficient is at most (n-1)/n |
| Gini.GiniPermutation | src/controllers/analytics/getGiniCoefficient.ts:14-48 | the coefficient does not depend on the order |
| Gini.GiniScaling | src/controllers/analytics/getGiniCoefficient.ts:14-48 | nor on a positive scale |
| Gini.TransferNeverRaisesGini | src/controllers/analytics/getGiniCoefficient.ts:14-48 | a transfer from a larger to a smaller value, of at most their gap, never raises it |
| Gini.GiniIsCut | src/controllers/analytics/getGiniCoefficient.ts:39-45 | it is the largest ten-thousandth not above the sum of pairwise differences over n times the sum |
| Gini.EqualityIsZero | src/controllers/analytics/getGiniCoefficient.ts:39-45 | equal powers have 0 |
| Gini.NoPairDiffIff | src/controllers/analytics/getGiniCoefficient.ts:39-40 | the pairwise sum is 0 exactly for equal powers |
| Gini.OneHolderIsTop | src/controllers/analytics/getGiniCoefficient.ts:39-45 | one holder of everything has (n-1)/n, cut to four decimals |
| DelegatorCounts.BuildDeltas | src/scripts/backfill-drep-snapshots.ts:349-364 | per epoch, the map holds arrivals minus departures, unknown epochs skipped |
| DelegatorCounts.RunningSums | src/scripts/backfill-drep-snapshots.ts:366-373 | the running sum at every epoch of a change |
| DelegatorCounts.LatestSum | src/scripts/backfill-drep-snapshots.ts:379-383 | the sum of exactly the changes up to the snapshot's epoch |
| DelegatorCounts.ReconstructCounts | src/scripts/backfill-drep-snapshots.ts:319-392 | every snapshot row gets the net count of its epoch in place; DReps without changes keep theirs |
| DelegatorCounts.PrefixIsNet | src/scripts/backfill-drep-snapshots.ts:366-383 | a prefix of sorted deltas sums to arrivals minus departures up to the epoch |
| DelegatorCounts.ReplayIsNet | src/scripts/backfill-drep-snapshots.ts:349-383 | on a chained log cut at any epoch, a step-by-step replay leaves on a DRep its arrivals minus its departures; rows of unknown epoch may stand anywhere |
| DelegatorCounts.NetWithoutSkipped | src/scripts/backfill-drep-snapshots.ts:350-364 | what the script adds up is that, less the rows of unknown epoch it skips |
| DelegatorCounts.CutsExistIff | src/scripts/backfill-drep-snapshots.ts:366-383 | a log can be cut at every epoch if and only if no address goes back in known epochs |
| DelegatorCounts.StoredCountIsExact | src/scripts/backfill-drep-snapshots.ts:349-392 | the stored count is the replayed one if and only if the skipped rows brought the DRep as many as they took, or brought more and nobody is on it |
| DelegatorCounts.PresentCountIsExact | src/scripts/backfill-drep-snapshots.ts:349-392 | the same for the present state of the log |
| DelegatorCounts.EndingsAreOvercounted | src/services/ingestion/delegation-sync.service.ts:1544-1554 | if exactly the endings of delegations have no epoch, the stored count is too high by one per ending |
| DelegatorCounts.EndingIsMissed | src/services/ingestion/delegation-sync.service.ts:1544-1554 | a concrete log: an address that came in epoch 5 and left is still counted in epoch 10 |
| DelegatorCounts.KnownEpochsAreExact | src/scripts/backfill-drep-snapshots.ts:349-392 | without such rows every count is exact and the clamp at 0 never fires |
| DelegatorCounts.CountsAddUp | src/scripts/backfill-drep-snapshots.ts:349-392 | the counts of all DReps add up to the delegated addresses |
| Correlation.CalculateCorrelation | src/controllers/analytics/getDRepCorrelation.ts:13-81 | the loops compute agreement and the rounded Pearson coefficient of the shared votes |
| Correlation.SharedProposals | src/controllers/analytics/getDRepCorrelation.ts:17-27 | the shared proposals in the first map's order, each voted on by both |
| Correlation.Deviations | src/controllers/analytics/getDRepCorrelation.ts:58-71 | one loop gives the covariance and both variances |
| Correlation.CauchySchwarz | src/controllers/analytics/getDRepCorrelation.ts:61-71 | numerator squared is at most the product of the denominators, for any two vectors |
| Correlation.PearsonInRange | src/controllers/analytics/getDRepCorrelation.ts:73-74 | the coefficient lies in [-1, 1] |
| Correlation.CorrelationInRange | src/controllers/analytics/getDRepCorrelation.ts:76-80 | and stays there when rounded |
| Correlation.NoVarianceIff | src/controllers/analytics/getDRepCorrelation.ts:65-71 | a side has no variance exactly if it votes the same throughout |
| Correlation.NoCorrelationIff | src/controllers/analytics/getDRepCorrelation.ts:53-80 | there is no coefficient exactly if fewer than two proposals are shared or a side is constant on them |
| Correlation.ComparisonIsSymmetric | src/controllers/analytics/getDRepCorrelation.ts:13-81 | swapping the DReps gives the same result, though proposals are listed in another order |
| Correlation.SelfComparison | src/controllers/analytics/getDRepCorrelation.ts:13-81 | a DRep agrees fully with itself and correlates by exactly 1 unless its vote never changes |
| CorrelationMeaning.PearsonByCounts | src/controllers/analytics/getDRepCorrelation.ts:42-74 | the coefficient's square times both variances is the covariance squared, with the covariance's sign, all three counted from the numbers of Yes, No, equal and opposite votes |
| CorrelationMeaning.CovarianceByMoments | src/controllers/analytics/getDRepCorrelation.ts:57-71 | the sum of products of deviations, from sums alone |
| CorrelationMeaning.MirrorNegates | src/controllers/analytics/getDRepCorrelation.ts:61-74 | if one side says the opposite throughout, the coefficient changes its sign |
| CorrelationMeaning.MirrorImage | src/controllers/analytics/getDRepCorrelation.ts:61-80 | a DRep and its mirror image correlate by exactly -1 unless the vote never changes |
| CorrelationMeaning.ComparisonSays | src/controllers/analytics/getDRepCorrelation.ts:18-80 | the shared proposals are counted, the agreement is the nearest hundredth of a percent and the correlation the nearest ten-thousandth |
| ActivityRate.SuffixCounts | src/controllers/analytics/getDRepActivityRate.ts:96-102 | the array holds the suffix sums |
| ActivityRate.CountProposalsFromEpoch | src/controllers/analytics/getDRepActivityRate.ts:103-113 | the binary search returns the sum of the counts at or after the epoch |
| ActivityRate.GroupsCountDirectly | src/controllers/analytics/getDRepActivityRate.ts:80-113 | which is the direct count of proposals that match the status and are new enough |
| ActivityRate.DenominatorIff | src/controllers/analytics/getDRepActivityRate.ts:82-89 | it is the count in scope if and only if the epoch bounds exclude none of those; otherwise larger |
| ActivityRate.EpochFilterIsIgnored | src/controllers/analytics/getDRepActivityRate.ts:84-87 | a concrete request whose end epoch does not bound the denominator |
| ActivityRate.AccumulateMetrics | src/controllers/analytics/getDRepActivityRate.ts:159-180 | per DRep, the eligible proposals voted on and the votes cast |
| ActivityRate.MetricsCount | src/controllers/analytics/getDRepActivityRate.ts:159-180 | these are the groups that count for the DRep and their rows: its own, on proposals not older than its registration |
| ActivityRate.NumeratorWithinDenominators | src/controllers/analytics/getDRepActivityRate.ts:163-191 | no DRep has voted on more proposals than either denominator counts |
| ActivityRate.Summarize | src/controllers/analytics/getDRepActivityRate.ts:183-210 | a row has the direct counts of proposals, countable groups and vote rows, and each rate is the nearest hundredth of its share, within 100 |
| ActivityRate.DRepActivity | src/controllers/analytics/getDRepActivityRate.ts:64-210 | so has every row of the answer |
| AccountInfoChunks.Unique | src/services/governanceProvider.ts:669-673 | the non-empty addresses, each once |
| AccountInfoChunks.UniqueKeepsOrder | src/services/governanceProvider.ts:669-673 | in order of first occurrence |
| AccountInfoChunks.ChunkStakeAddresses | src/services/governanceProvider.ts:665-696 | the chunks concatenate to those addresses, each fits or is a single address, and no other such batching has fewer |
| AccountInfoChunks.GreedyIsOptimal | src/services/governanceProvider.ts:678-695 | a chunking that closes a chunk only when the next address would not fit is minimal |
| Paging.CollectFrom | src/services/governanceProvider.ts:88-141 | against a list that only grows, one pass returns the list from its offset on as of the last fetch, whatever page sizes pressure dictates, and ends |
| Paging.LimitUnderPressure | src/services/governanceProvider.ts:103-107 | under pressure pages of 400 and more are halved, and smaller ones hold 200: pages below 200 grow |
| Paging.KoiosPass | src/services/koios.ts:1160-1214 | the same for the pass that may also stop on a Content-Range header |
| Paging.DedupeRowsByKey | src/services/governanceProvider.ts:143-149 | a Map in insertion order keeps first places and last rows |
| Paging.MergePasses | src/services/koios.ts:1283-1290 | the two merge loops do the same to both passes |
| Paging.OverlapIsWhole | src/services/governanceProvider.ts:171-213 | a prefix followed by everything from inside it on deduplicates to the whole, in order |
| Paging.MergeIsWhole | src/services/governanceProvider.ts:171-213 | also if the list has grown between the passes |
| Paging.CollectPaginatedWithOverlap | src/services/governanceProvider.ts:151-214 | the merged rows are exactly the list as of the last fetch |
| Paging.KoiosGetAll | src/services/koios.ts:1149-1291 | the same for koiosGetAll |
| FailureWindow.TrimFront | src/services/koios.ts:551-567 | shifting old entries off the front equals filtering the window |
| FailureWindow.PruneAgain | src/services/prisma.ts:124-126 | pruning twice at growing times is pruning once at the later time |
| FailureWindow.BurstCounts | src/services/prisma.ts:124-133 | a failure completes a burst exactly if at least the threshold of failures up to it are no older than the window |
| FailureWindow.MarkAfterFailure | src/services/koios.ts:647-688 | a failure moves the mark exactly if it completes a burst |
| FailureWindow.MarkMeaning | src/services/koios.ts:690-702 | the mark lies ahead exactly if a burst's cooldown or a pulled mark does |
| KoiosCooldown.BurstDetector.Trim | src/services/koios.ts:551-567 | the list becomes the in-window part of all recorded failures |
| KoiosCooldown.BurstDetector.Record | src/services/koios.ts:647-688 | the failure is recorded and a burst raises the mark, never lowers it |
| KoiosCooldown.BurstDetector.Pull | src/services/koios.ts:613-621 | another instance's mark is merged by maximum |
| KoiosCooldown.KoiosState.OnError | src/services/koios.ts:1011-1044 | a 429 moves the backoff, pressure and timeout signals their detectors; no mark decreases |
| KoiosCooldown.KoiosState.PullSharedCooldown | src/services/koios.ts:607-622 | all three marks become the maximum of own and shared |
| KoiosCooldown.KoiosState.PressureState | src/services/koios.ts:690-708 | pressure is active exactly if shedding is on and a burst's cooldown or a pulled mark has not passed |
| DbResilience.Semaphore.Acquire | src/services/prisma.ts:73-90 | keeps active the number of holders within the limit; the task gets a permit exactly if one is left, is turned away exactly if the queue is full too, and else waits last |
| DbResilience.Semaphore.Release | src/services/prisma.ts:92-96 | the task no longer holds a permit; it goes to the task that waited longest, or back if none waits |
| DbResilience.CircuitAfterFailure | src/services/prisma.ts:128-137 | after a failure the state is the one its whole history leads to |
| DbResilience.OpenMeansTripped | src/services/prisma.ts:128-137 | open at t exactly if some failure f with f <= t < f + cooldown had the threshold in its window |
| DbResilience.DbCircuit.PruneFailures | src/services/prisma.ts:124-126 | the list becomes the in-window part of the full history |
| DbResilience.DbCircuit.RecordDbFailure | src/services/prisma.ts:128-137 | pushes, prunes and opens on a burst |
| DbResilience.DbCircuit.PressureState | src/services/prisma.ts:148-161 | reports open exactly if tripped, what is left of the cooldown that ends last, and the failures in the window |
| DbResilience.ExecuteWithRetries | src/services/prisma.ts:186-205 | stops at the first outcome that is not transient or at the last attempt, records only a final transient failure, and never reaches the statement after the loop |
| DbResilience.StartOperation | src/services/prisma.ts:173-184 | nothing starts exactly while the breaker is tripped; a write then holds a permit, waits, or is turned away |
| DbResilience.RunOperation | src/services/prisma.ts:186-210 | the calls stop as the retry loop says, and the operation's permit is given back whatever they end with |
| DbInterleavings.RunKeeps | src/services/prisma.ts:164-211 | every event of every run keeps the invariant of operations, queue, permits and breaker |
| DbInterleavings.PermitsAreSafe | src/services/prisma.ts:68-105 | in every run active equals the holders and is within the limit; waiters exist only at the limit; the queue is bounded |
| DbInterleavings.WaitersAreServedInOrder | src/services/prisma.ts:84-96 | in every run the tasks served are a prefix of the tasks that queued |
| DbInterleavings.OperationsAreBounded | src/services/prisma.ts:181-210 | in every run an operation makes at most the configured calls and returns exactly the permits it took |
| DbInterleavings.ReleaseNeverUnderflows | src/services/prisma.ts:92-93 | whoever holds a permit finds active at least 1, so the guard at 0 never fires |
| DbInterleavings.CircuitFollowsHistory | src/services/prisma.ts:124-137 | in every run the breaker is open exactly if the recorded failures trip it, and pruning gives the in-window part of them |
| DbRuns.CallsFollowLoop | src/services/prisma.ts:186-205 | in every run each operation goes on after transient outcomes while attempts are left, and ends with the first other outcome or the last attempt |
| DbRuns.HistoryIsFailures | src/services/prisma.ts:190-195 | in every run the recorded failures are the times of exactly the events that end an operation's last attempt transiently |
| DbRuns.OneFailureEach | src/services/prisma.ts:190-195 | one for each operation that so ended |
| DbRuns.BreakerFollowsFailures | src/services/prisma.ts:124-137 | so the breaker is open exactly while those failures trip it |
| DbRuns.StartIff | src/services/prisma.ts:173-184 | a task that starts is refused exactly while they do, or if no permit and no place in the queue is left; it waits exactly if no permit is left; else its call runs |
| IngestionJob.FiringReleasesWhatItTook | src/jobs/runIngestionCronJob.ts:91-190 | however its awaits end, a firing tries to release exactly what it took and resets its flag |
| IngestionJob.EveryStepMovesForward | src/jobs/runIngestionCronJob.ts:105-190 | every step moves a callback to a later await or another of its bounded attempts and leaves the others where they are: nobody waits for the lane |
| IngestionFirings.CleanFiring | src/jobs/runIngestionCronJob.ts:105-148 | from every reachable state a firing whose awaits return gets into run() exactly if the locks it needs are free, and in the end is idle with the locks as it found them |
| IngestionFirings.SkippedFiring | src/jobs/runIngestionCronJob.ts:105-126 | a firing that a gate turns away changes nothing |
| IngestionJob.JobsExcludeEachOther | src/jobs/runIngestionCronJob.ts:127-148 | in every interleaving, retries included, at most one instance per job and one heavy job is inside run(), if no attempt of a release fails after it freed its lock |
| IngestionJob.ReleasesOnlyOwnLocks | src/jobs/runIngestionCronJob.ts:141-175 | then every attempt of a release names a lock that the callback holds at that moment |
| IngestionJob.LossyReleaseBreaksExclusion | src/jobs/runIngestionCronJob.ts:150-175 | if an attempt may fail after it freed the lock, a throwing release and the catch block let two instances into run() |
| IngestionJob.RepeatedReleaseBreaksExclusion | src/services/ingestion/syncLock.ts:188-207 | the same without any exception: a retried release frees the lock of whoever took it in between |
| IngestionJob.ExclusionIff | src/jobs/runIngestionCronJob.ts:91-190 | exclusion holds in all runs if and only if no attempt of a release fails after it freed its lock |
| IngestionJob.NoLockOutlivesItsFiring | src/jobs/runIngestionCronJob.ts:158-189 | in every run the holder of a lock is a firing that will still try to release it if and only if the lock is not an orphan: taken while free by a failing attempt to acquire, or not freed by its owner's last release, and not freed by anybody since |
| IngestionJob.RepeatedAcquireOrphans | src/services/ingestion/syncLock.ts:115-175 | a retried acquire finds its own lock taken and leaves it behind, without an exception |
| LedgerVoteMath.DrepBucketsCover | src/libs/ledgerVoteMath.ts:54-82 | DRep yes + no + abstain = total - inactive if and only if the raw not-voted power is not negative |
| LedgerVoteMath.SpoBucketsCover | src/libs/ledgerVoteMath.ts:141-211 | new-era SPO buckets sum to the effective total, less always-no-confidence for other actions, if and only if nothing is over-counted |
| LedgerVoteMath.CutPair | src/libs/ledgerVoteMath.ts:9-13 | two truncated parts of a whole lose 0 or 0.01, and 0 exactly if nothing is cut |
| LedgerVoteMath.CutParts | src/libs/ledgerVoteMath.ts:9-13 | three truncated parts lose at most 0.02 |
| LedgerVoteMath.CutMeaning | src/libs/ledgerVoteMath.ts:9-13 | a truncated percentage is the largest hundredth not above the share, and there is none without a whole |
| LedgerVoteMath.DrepOutcomeSums | src/libs/ledgerVoteMath.ts:71-97 | the two DRep outcome percentages sum to 99.99 or 100.00 |
| LedgerVoteMath.DrepDistributionSums | src/libs/ledgerVoteMath.ts:71-97 | the three-way DRep distribution sums to between 99.98 and 100.00 |
| LedgerVoteMath.DrepPercentagesAreCut | src/libs/ledgerVoteMath.ts:71-82 | each of the five DRep percentages truncates its own bucket over its own denominator |
| LedgerVoteMath.SpoDistributionSums | src/libs/ledgerVoteMath.ts:213-236 | the same for pools |
| LedgerVoteMath.SpoOutcomeIsCoveredIff | src/libs/ledgerVoteMath.ts:182-211 | pool yes + no makes up the outcome denominator if and only if the new formula leaves no always-no-confidence power out |
| LedgerVoteMath.OutcomeCanBeUncovered | src/libs/ledgerVoteMath.ts:195-204 | a concrete treasury withdrawal whose percentages are 60 and 30 of 100 |
| LedgerVoteMath.SpoOutcomeSums | src/libs/ledgerVoteMath.ts:204-214 | then the two percentages sum to 99.99 or 100.00 |
| LedgerVoteMath.SpoPercentagesAreCut | src/libs/ledgerVoteMath.ts:204-222 | so does each of the five pool percentages |
| VoteStances.DrepStanceLands | src/libs/ledgerVoteMath.ts:54-82 | more DRep power with a stance goes into the stance's bucket and no other; silence counts as No, no confidence as Yes only where it is the question |
| VoteStances.InactiveIsLeftOut | src/libs/ledgerVoteMath.ts:54-82 | inactive power goes nowhere |
| VoteStances.PoolStanceLands | src/libs/ledgerVoteMath.ts:141-211 | the same for pools under the old and the new formula |
| VoteStances.NothingLands | src/libs/ledgerVoteMath.ts:54-211 | without power every bucket is empty |
| ProposalMapper.RoundedShare | src/libs/proposalMapper.ts:246-270 | the rounded share in integers |
| ProposalMapper.DrepViewsAgree | src/libs/proposalMapper.ts:212-276 | both modules compute the same DRep powers; the rounded yes share is the truncated one or exactly 0.01 more, and when |
| ProposalMapper.DrepPercentagesAreNearest | src/libs/proposalMapper.ts:246-270 | each published DRep percentage is the nearest hundredth of the share of the ledger's bucket |
| ProposalMapper.SpoViewsAgreeIff | src/libs/proposalMapper.ts:347-489 | both modules compute the same SPO powers if and only if it is not a new-era hard fork with negative not-voted power and always stances |
| ProposalMapper.HardForksCanDiffer | src/libs/proposalMapper.ts:416-437 | a concrete hard fork with 55 against 60 |
| ProposalMapper.SpoPercentagesAreNearest | src/libs/proposalMapper.ts:449-484 | with consistent data so is each published pool percentage |
| ProposalMapper.SafetyNetsIdle | src/libs/proposalMapper.ts:449-465 | with consistent data the caps on the pool percentages change nothing |
| ProposalMapper.PassingIff | src/libs/proposalMapper.ts:874-940 | a proposal passes if and only if every body that takes part has a percentage that reaches its threshold |
| ProposalMapper.ThresholdsAre | src/libs/proposalMapper.ts:806-868 | which bodies take part in which action, and what each must reach |
| ProposalMapper.DrepsReachIff | src/libs/proposalMapper.ts:874-882 | the DReps reach their threshold if and only if any yes or no power counts and their exact share is at most half a hundredth of a percent below it |
| ProposalMapper.BelowThresholdCanPass | src/libs/proposalMapper.ts:268-268 | a concrete treasury withdrawal that passes with 66.996% against a threshold of 67% |
| ProposalMapper.PassingDependsOn | src/libs/proposalMapper.ts:874-940 | the verdict is monotone in both published yes percentages |
| ProposalMapper.MoreDrepYesNeverHurts | src/libs/proposalMapper.ts:212-276 | turning No, silent or Abstain DRep power to Yes never lowers the percentage nor turns a passing proposal into a failing one |
| ProposalMapper.MoreSpoYesNeverHurts | src/libs/proposalMapper.ts:347-489 | the same for pools |

## Left out

- HTTP, Prisma queries, SQL, cron scheduling, logging and delays: their results are parameters, maps or events.
- Parsing of JSON, metadata text, bech32 and CBOR: the model starts from parsed entities and says whether a payload is wrapped in label 17; a custom value is its JSON text.
- The texts and the order of error messages: validation errors are values and tally problems a set.
- IEEE floating point: weights, means and percentages are exact reals, mapper powers exact integers, and the square root any function that is one.
- SurveyDedupe.CompareIsTotalPreorder: compares transaction hashes by character code; the locale order of other text is not modelled.
- SurveyFinalization.GetProposalSurveyTally: an exception in fetching transactions or the epoch, and the answer for an unlinked or invalid survey, are not modelled.
- DbResilience.StartOperation: a parked task goes on in `DbInterleavings`, where a released waiter continues at once.
- DbInterleavings.RunKeeps: runs with resilience switched off, where calls pass straight through.
- KoiosCooldown.KoiosState.PullSharedCooldown: publishing marks to other instances and the interval between pulls; limiters and retry profiles.
- DelegatorCounts.StoredCountIsExact: needs a chained log; a row that the change table's unique key drops (prisma/schema.prisma:136) breaks the chain.
- IngestionJob.JobsExcludeEachOther: does not model the time-to-live of locks (a lock is held until it is released), nor an update that times out and commits only after its repetition has returned, which could free a later holder's lock.
- Paging.CollectFrom: a server that caps pages below the requested size; the answer then counts as the last page.
- Paging.KoiosPass: requests that fail, and answers that are not lists.
- CC votes and the tallies of raw votes that the mapper falls back on: sums of the same shape as those proved.
- The percentile, sorting and aggregate figures of the analytics endpoints: they would only add easy members.
- Request validation, response shaping and the other endpoints.
