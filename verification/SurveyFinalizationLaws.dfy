/** When a survey's tally is final, and what a final tally promises. */
module SurveyFinalizationLaws {
  import opened Common
  import opened SurveyTypes
  import opened SurveyValidation
  import opened SurveyDedupe
  import opened SurveyResults
  import opened SurveyTally
  import opened SurveyTallyLaws
  import opened SurveyFinalization
  import opened SurveyRows

  // ----- when it is final

  /** The history of a voter has an amount for the epoch. */
  predicate HasAmount(history: map<(string, int), Fetched>, id: string, epoch: int) {
    (id, epoch) in history && history[(id, epoch)].Amount?
  }

  /** The voter's weight at the end epoch is on record. A live pledge only counts as such
      while the end epoch lasts. */
  predicate WeightReady(o: World, l: Linked, again: int, v: Vote) {
    var endEpoch := l.survey.endEpoch;
    match (RoleOf(v.voterType), ModeOf(l.weighting, RoleOf(v.voterType)).GetOr(CredentialBased))
    case (DRep, StakeBased) => (v.voterId, endEpoch) in o.drepSnapshots || HasAmount(o.drepHistory, v.voterId, endEpoch)
    case (SPO, StakeBased) => HasAmount(o.poolHistory, v.voterId, endEpoch)
    case (SPO, PledgeBased) => v.voterId in o.livePledge && again == endEpoch
    case _ => true
  }

  /** The voting entries of a transaction: Koios' if it has any to tell, else those of its body. */
  ghost predicate HasEntries(o: World, txHash: string, entries: seq<VoteEntry>) {
    if txHash in o.txInfo && o.txInfo[txHash].entries.Some? then o.txInfo[txHash].entries == Some(entries)
    else txHash in o.cbor && o.cbor[txHash] == entries
  }

  /** The voting entries of the response's transaction are known, and so is the weight. */
  ghost predicate Ready(o: World, l: Linked, again: int, v: Vote) {
    (exists entries :: entries != [] && HasEntries(o, v.txHash, entries)) && WeightReady(o, l, again, v)
  }

  lemma EntriesIff(o: World, txHash: string)
    ensures forall entries :: HasEntries(o, txHash, entries) <==> EntriesOf(o, txHash) == Some(entries)
    ensures Inspected(EntriesOf(o, txHash)) <==> exists entries :: entries != [] && HasEntries(o, txHash, entries)
  {
    var known := EntriesOf(o, txHash);
    if Inspected(known) {
      assert known.value != [] && HasEntries(o, txHash, known.value);
    }
  }

  lemma SelectedAreFresh(votes: seq<OnchainVote>, surveyTxId: string, i: nat)
    requires i < |SelectVotes(votes, surveyTxId)|
    ensures var v := SelectVotes(votes, surveyTxId)[i];
            && v.voterId != "" && v.snapshotWeight == None && v.snapshotWeightError == None
            && exists row :: row in votes && IsResponse(row, surveyTxId, v)
  {
    var v := SelectVotes(votes, surveyTxId)[i];
    SelectedAre(votes, surveyTxId, v);
    var row :| row in votes && IsResponse(row, surveyTxId, v);
    SelectedOne(row, surveyTxId);
    OneResponse(row, surveyTxId, v);
  }

  function FinalResponse(o: World, l: Linked, again: int, v: Vote): Vote {
    FinalVote(o, l.weighting, l.survey.endEpoch, again, EnrichedVote(o, l.action, v))
  }

  lemma NothingPendingIff(o: World, l: Linked, again: int, v: Vote)
    requires v.snapshotWeightError == None
    ensures PendingOf(FinalResponse(o, l, again, v)) == {} <==> Ready(o, l, again, v)
  {
    var enriched := EnrichedVote(o, l.action, v);
    var final := FinalResponse(o, l, again, v);
    assert final.evidence.value.warnings == if Inspected(EntriesOf(o, v.txHash)) then {} else {NotInspected};
    assert final.snapshotWeightError == None <==> WeightReady(o, l, again, v);
    EntriesIff(o, v.txHash);
    if !Inspected(EntriesOf(o, v.txHash)) { assert NotInspected in PendingOf(final); }
    if final.snapshotWeightError.Some? { assert final.snapshotWeightError.value in PendingOf(final); }
  }

  /** The response of every row that responds is ready. */
  ghost predicate AllReady(o: World, l: Linked, votes: seq<OnchainVote>, again: int) {
    forall row, v :: row in votes && IsResponse(row, l.surveyTxId, v) ==> Ready(o, l, again, v)
  }

  lemma SelectedIsReady(o: World, l: Linked, votes: seq<OnchainVote>, again: int, i: nat)
    requires AllReady(o, l, votes, again) && i < |SelectVotes(votes, l.surveyTxId)|
    ensures Ready(o, l, again, SelectVotes(votes, l.surveyTxId)[i])
  {
    hide Ready, SelectVotes, IsResponse;
    var v := SelectVotes(votes, l.surveyTxId)[i];
    SelectedAre(votes, l.surveyTxId, v);
    var row :| row in votes && IsResponse(row, l.surveyTxId, v);
  }

  lemma ResponseIsSelected(votes: seq<OnchainVote>, surveyTxId: string, row: OnchainVote, v: Vote) returns (i: nat)
    requires row in votes && IsResponse(row, surveyTxId, v)
    ensures i < |SelectVotes(votes, surveyTxId)| && SelectVotes(votes, surveyTxId)[i] == v
  {
    hide SelectVotes, IsResponse;
    SelectedAre(votes, surveyTxId, v);
    assert v in SelectVotes(votes, surveyTxId);
    i :| 0 <= i < |SelectVotes(votes, surveyTxId)| && SelectVotes(votes, surveyTxId)[i] == v;
  }

  lemma AllReadyIff(o: World, l: Linked, votes: seq<OnchainVote>, again: int)
    ensures AllReady(o, l, votes, again) <==>
            forall i :: 0 <= i < |SelectVotes(votes, l.surveyTxId)| ==>
              Ready(o, l, again, SelectVotes(votes, l.surveyTxId)[i])
  {
    hide Ready, SelectVotes, IsResponse;
    if AllReady(o, l, votes, again) {
      forall i | 0 <= i < |SelectVotes(votes, l.surveyTxId)|
        ensures Ready(o, l, again, SelectVotes(votes, l.surveyTxId)[i])
      {
        SelectedIsReady(o, l, votes, again, i);
      }
    } else {
      var row, v :| row in votes && IsResponse(row, l.surveyTxId, v) && !Ready(o, l, again, v);
      var i := ResponseIsSelected(votes, l.surveyTxId, row, v);
    }
  }

  lemma PendingIff(o: World, l: Linked, votes: seq<OnchainVote>, e: Epochs)
    ensures PendingIn(FinalResponses(o, l, votes, e)) == {} <==> AllReady(o, l, votes, e.again)
  {
    var selected, final := SelectVotes(votes, l.surveyTxId), FinalResponses(o, l, votes, e);
    AllReadyIff(o, l, votes, e.again);
    hide Ready, AllReady, SelectVotes;
    forall i | 0 <= i < |selected|
      ensures final[i] == FinalResponse(o, l, e.again, selected[i])
      ensures PendingOf(final[i]) == {} <==> Ready(o, l, e.again, selected[i])
    {
      SelectedAreFresh(votes, l.surveyTxId, i);
      NothingPendingIff(o, l, e.again, selected[i]);
    }
    forall i, p | 0 <= i < |final| && p in PendingOf(final[i])
      ensures p in PendingIn(final)
    {
    }
  }

  /** The phase, exactly: final once the end epoch is reached, every response's transaction
      could be inspected and every weight at the end epoch is on record. */
  lemma {:induction false} PhaseIff(o: World, l: Linked, votes: seq<OnchainVote>, e: Epochs)
    ensures var phase := ServedTally(o, l, votes, e).phase;
            && (phase == Provisional <==> e.current < l.survey.endEpoch)
            && (phase == Finalized <==> e.current >= l.survey.endEpoch && AllReady(o, l, votes, e.again))
  {
    PendingIff(o, l, votes, e);
  }

  /** Pledges are read live, so one response of a pool keeps a pledge-based survey from ever
      being final after its end epoch, whatever the chain answers. */
  lemma {:induction false} PledgesNeverFinalLater(o: World, l: Linked, votes: seq<OnchainVote>, e: Epochs, i: nat)
    requires ModeOf(l.weighting, SPO) == Some(PledgeBased)
    requires i < |votes| && votes[i].voterType == SpoVoter && Responds(votes[i], l.surveyTxId)
    requires e.again > l.survey.endEpoch
    ensures ServedTally(o, l, votes, e).phase != Finalized
  {
    PhaseIff(o, l, votes, e);
    SelectedOne(votes[i], l.surveyTxId);
    var v := SelectVotes([votes[i]], l.surveyTxId)[0];
    hide SelectVotes, ServedTally, Responds;
    assert votes[i] in votes && IsResponse(votes[i], l.surveyTxId, v) && v.voterType == SpoVoter;
    assert !Ready(o, l, e.again, v);
  }

  // ----- what a final tally promises

  /** The stake or pledge that counts for a voter in a final tally. */
  function FinalWeight(o: World, l: Linked, mode: Mode, role: Role, voterId: string): real {
    var key := (voterId, l.survey.endEpoch);
    match mode
    case CredentialBased => 1.0
    case PledgeBased => if voterId in o.livePledge then o.livePledge[voterId] else 0.0
    case StakeBased =>
      if role == DRep && key in o.drepSnapshots then o.drepSnapshots[key] as real / 1000000.0
      else
        var history := if role == DRep then o.drepHistory else o.poolHistory;
        if key in history && history[key].Amount? then history[key].lovelace as real / 1000000.0 else 0.0
  }

  ghost predicate Trustworthy(o: World, l: Linked, again: int, rm: RoleMode, v: Vote) {
    && HasEntries(o, v.txHash, [VoteEntry(Some(Identity(rm.role, v.voterId)), Some(l.action))])
    && v.responseCredential == Some(v.voterId)
    && WeightReady(o, l, again, v)
    && Weight(rm.mode, v) == FinalWeight(o, l, rm.mode, rm.role, v.voterId)
  }

  /** The vote is that of a stored row: its voter, transaction, role and response. */
  ghost predicate FromRows(votes: seq<OnchainVote>, surveyTxId: string, v: Vote) {
    exists row :: row in votes && Responds(row, surveyTxId) && IsOf(row, v.voterId)
                  && v.txHash == row.txHash && v.voterType == row.voterType && Some(v.payload) == row.surveyResponse
  }

  lemma EnforcedProof(o: World, l: Linked, e: Epochs, v: Vote)
    requires Inspected(EntriesOf(o, v.txHash))
    requires Accepts(SettingFor(l, Finalized, e.current, {}), FinalResponse(o, l, e.again, v))
    ensures Proves(EntriesOf(o, v.txHash), l.action, RoleOf(v.voterType), v.voterId)
  {
    var entries := EntriesOf(o, v.txHash);
    var final := FinalResponse(o, l, e.again, v);
    assert ContextOf(SettingFor(l, Finalized, e.current, {}), final).evidence == final.evidence;
    assert final.evidence.value == EvidenceOf(entries, l.action, RoleOf(v.voterType), v.voterId);
    EvidenceErrorsIff(entries, l.action, RoleOf(v.voterType), v.voterId);
  }

  lemma RecordedWeight(o: World, l: Linked, again: int, rm: RoleMode, v: Vote)
    requires WeightReady(o, l, again, v) && v.snapshotWeight == None
    requires RoleOf(v.voterType) == rm.role && ModeOf(l.weighting, rm.role) == Some(rm.mode)
    requires Compatible(rm.role, rm.mode)
    ensures Weight(rm.mode, FinalResponse(o, l, again, v)) == FinalWeight(o, l, rm.mode, rm.role, v.voterId)
    ensures WeightProblems(rm.role, rm.mode, FinalResponse(o, l, again, v)) <= PendingOf(FinalResponse(o, l, again, v))
  {
  }

  lemma AcceptedIsTrustworthy(o: World, l: Linked, e: Epochs, rm: RoleMode, v: Vote)
    requires Ready(o, l, e.again, v) && v.snapshotWeight == None && v.snapshotWeightError == None
    requires RoleOf(v.voterType) == rm.role && ModeOf(l.weighting, rm.role) == Some(rm.mode)
    requires Compatible(rm.role, rm.mode)
    requires Accepts(SettingFor(l, Finalized, e.current, {}), FinalResponse(o, l, e.again, v))
    ensures Trustworthy(o, l, e.again, rm, FinalResponse(o, l, e.again, v))
    ensures WeightProblems(rm.role, rm.mode, FinalResponse(o, l, e.again, v)) == {}
  {
    var final := FinalResponse(o, l, e.again, v);
    EntriesIff(o, v.txHash);
    EnforcedProof(o, l, e, v);
    RecordedWeight(o, l, e.again, rm, v);
    NothingPendingIff(o, l, e.again, v);
    assert final.txHash == v.txHash && final.voterId == v.voterId && final.voterType == v.voterType;
    assert final.responseCredential == Some(v.voterId);
  }

  lemma FinalKeepsVote(o: World, l: Linked, again: int, v: Vote)
    ensures var w := FinalResponse(o, l, again, v);
            w.txHash == v.txHash && w.voterType == v.voterType && w.voterId == v.voterId && w.payload == v.payload
  {
  }

  lemma CountedIsFinal(o: World, l: Linked, votes: seq<OnchainVote>, e: Epochs, r: nat, k: nat)
    requires DistinctRoles(l.weighting) && CompatibleRoles(l.weighting)
    requires ServedTally(o, l, votes, e).phase == Finalized && r < |l.weighting|
    requires k < |CountedVotes(SettingFor(l, Finalized, e.current, {}), FinalResponses(o, l, votes, e),
                               l.weighting[r].role)|
    ensures var v :=
            CountedVotes(SettingFor(l, Finalized, e.current, {}), FinalResponses(o, l, votes, e),
                         l.weighting[r].role)[k];
            && Trustworthy(o, l, e.again, l.weighting[r], v) && FromRows(votes, l.surveyTxId, v)
            && WeightProblems(l.weighting[r].role, l.weighting[r].mode, v) == {}
  {
    hide Accepts, SelectVotes, EnrichedVote, FinalVote, Trustworthy, Weight, WeightProblems, ModeOf, Ready, Responds;
    var s, final, rm := SettingFor(l, Finalized, e.current, {}), FinalResponses(o, l, votes, e), l.weighting[r];
    var v := CountedVotes(s, final, rm.role)[k];
    PhaseIff(o, l, votes, e);
    CountedAreAccepted(s, final, rm.role, k);
    var i :| 0 <= i < |final| && final[i] == v;
    var selected := SelectVotes(votes, l.surveyTxId)[i];
    SelectedAreFresh(votes, l.surveyTxId, i);
    assert v == FinalResponse(o, l, e.again, selected);
    var row :| row in votes && IsResponse(row, l.surveyTxId, selected);
    AllReadyIff(o, l, votes, e.again);
    FinalKeepsVote(o, l, e.again, selected);
    ModeIsFound(l.weighting, r);
    AcceptedIsTrustworthy(o, l, e, rm, selected);
  }

  lemma {:induction false} NoProblems(role: Role, mode: Mode, q: Question, votes: seq<Vote>)
    requires forall k :: 0 <= k < |votes| ==> WeightProblems(role, mode, votes[k]) == {}
    ensures ProblemsOf(role, mode, q, votes) == {}
  {
    if votes == [] {
    } else {
      NoProblems(role, mode, q, votes[..|votes| - 1]);
    }
  }

  lemma {:induction false} NoProblemsAtAll(role: Role, mode: Mode, qs: seq<Question>, votes: seq<Vote>)
    requires forall k :: 0 <= k < |votes| ==> WeightProblems(role, mode, votes[k]) == {}
    ensures AllProblems(role, mode, qs, votes) == {}
  {
    if qs == [] {
    } else {
      NoProblemsAtAll(role, mode, qs[..|qs| - 1], votes);
      NoProblems(role, mode, qs[|qs| - 1], votes);
    }
  }

  lemma {:induction false} NoErrors(s: Setting, votes: seq<Vote>, w: Weighting)
    requires forall r :: 0 <= r < |w| ==> RoleProblems(s, votes, w[r]) == {}
    ensures ErrorsOf(s, votes, w) == {}
  {
    if w == [] {
    } else {
      assert forall r :: 0 <= r < |w| - 1 ==> w[..|w| - 1][r] == w[r];
      NoErrors(s, votes, w[..|w| - 1]);
    }
  }

  /** In a final tally every counted vote's transaction holds exactly one voting entry, which
      names the vote's own voter, in the vote's role, and the linked action; the vote weighs
      what the voter held at the end epoch; and no error or warning is left. */
  lemma {:induction false} FinalizedIsSafe(o: World, l: Linked, votes: seq<OnchainVote>, e: Epochs)
    requires DistinctRoles(l.weighting) && CompatibleRoles(l.weighting)
    requires ServedTally(o, l, votes, e).phase == Finalized
    ensures var s, final := SettingFor(l, Finalized, e.current, {}), FinalResponses(o, l, votes, e);
            && ServedTally(o, l, votes, e) == TallyOf(s, final)
            && forall r, k :: 0 <= r < |l.weighting| && 0 <= k < |CountedVotes(s, final, l.weighting[r].role)| ==>
                 && Trustworthy(o, l, e.again, l.weighting[r], CountedVotes(s, final, l.weighting[r].role)[k])
                 && FromRows(votes, l.surveyTxId, CountedVotes(s, final, l.weighting[r].role)[k])
    ensures ServedTally(o, l, votes, e).errors == {} && ServedTally(o, l, votes, e).warnings == {}
  {
    var s, final := SettingFor(l, Finalized, e.current, {}), FinalResponses(o, l, votes, e);
    forall r, k | 0 <= r < |l.weighting| && 0 <= k < |CountedVotes(s, final, l.weighting[r].role)|
      ensures Trustworthy(o, l, e.again, l.weighting[r], CountedVotes(s, final, l.weighting[r].role)[k])
      ensures FromRows(votes, l.surveyTxId, CountedVotes(s, final, l.weighting[r].role)[k])
      ensures WeightProblems(l.weighting[r].role, l.weighting[r].mode,
                             CountedVotes(s, final, l.weighting[r].role)[k]) == {}
    {
      CountedIsFinal(o, l, votes, e, r, k);
    }
    forall r | 0 <= r < |l.weighting|
      ensures RoleProblems(s, final, l.weighting[r]) == {}
    {
      var rm := l.weighting[r];
      NoProblemsAtAll(rm.role, rm.mode, l.survey.questions, CountedVotes(s, final, rm.role));
    }
    NoErrors(s, final, l.weighting);
  }

  /** So a voter is counted at most once per role. */
  lemma {:induction false} FinalizedOncePerVoter(o: World, l: Linked, votes: seq<OnchainVote>, e: Epochs, r: nat,
                                                 j: nat, k: nat)
    requires DistinctRoles(l.weighting) && CompatibleRoles(l.weighting)
    requires ServedTally(o, l, votes, e).phase == Finalized && r < |l.weighting|
    requires var counted :=
             CountedVotes(SettingFor(l, Finalized, e.current, {}), FinalResponses(o, l, votes, e), l.weighting[r].role);
             j < |counted| && k < |counted| && counted[j].voterId == counted[k].voterId
    ensures j == k
  {
    var s, final, role := SettingFor(l, Finalized, e.current, {}), FinalResponses(o, l, votes, e), l.weighting[r].role;
    CountedIsFinal(o, l, votes, e, r, j);
    CountedIsFinal(o, l, votes, e, r, k);
    DedupedKeepsLatest(Accepted(s, final, role));
  }

  // ----- a final tally does not change

  lemma {:induction false} LabelVotes(s: Setting, epoch: int, votes: seq<Vote>, role: Role)
    ensures var other := s.(asOfEpoch := epoch);
            && Accepted(other, votes, role) == Accepted(s, votes, role)
            && RejectedIn(other, votes, role) == RejectedIn(s, votes, role)
            && Rejected(other, votes) == Rejected(s, votes)
  {
    if votes == [] {
    } else {
      var v := votes[|votes| - 1];
      LabelVotes(s, epoch, votes[..|votes| - 1], role);
      assert ContextOf(s.(asOfEpoch := epoch), v) == ContextOf(s, v);
    }
  }

  lemma LabelRole(s: Setting, epoch: int, votes: seq<Vote>, rm: RoleMode)
    ensures RoleResultOf(s.(asOfEpoch := epoch), votes, rm) == RoleResultOf(s, votes, rm)
    ensures RoleProblems(s.(asOfEpoch := epoch), votes, rm) == RoleProblems(s, votes, rm)
  {
    LabelVotes(s, epoch, votes, rm.role);
  }

  lemma {:induction false} LabelRoles(s: Setting, epoch: int, votes: seq<Vote>, w: Weighting)
    ensures RoleResultsOf(s.(asOfEpoch := epoch), votes, w) == RoleResultsOf(s, votes, w)
    ensures ErrorsOf(s.(asOfEpoch := epoch), votes, w) == ErrorsOf(s, votes, w)
  {
    if w == [] {
    } else {
      LabelRoles(s, epoch, votes, w[..|w| - 1]);
      LabelRole(s, epoch, votes, w[|w| - 1]);
    }
  }

  lemma {:induction false} LabelTotals(s: Setting, epoch: int, votes: seq<Vote>, w: Weighting)
    ensures ValidTotal(s.(asOfEpoch := epoch), votes, w) == ValidTotal(s, votes, w)
    ensures DedupedTotal(s.(asOfEpoch := epoch), votes, w) == DedupedTotal(s, votes, w)
  {
    if w == [] {
    } else {
      LabelTotals(s, epoch, votes, w[..|w| - 1]);
      LabelVotes(s, epoch, votes, w[|w| - 1].role);
    }
  }

  /** The epoch of a tally is a label. */
  lemma EpochIsLabel(s: Setting, epoch: int, votes: seq<Vote>)
    ensures TallyOf(s.(asOfEpoch := epoch), votes) == TallyOf(s, votes).(asOfEpoch := epoch)
  {
    LabelVotes(s, epoch, votes, DRep);
    LabelRoles(s, epoch, votes, s.weighting);
    LabelTotals(s, epoch, votes, s.weighting);
  }

  lemma ReadyStays(o: World, l: Linked, again: int, later: int, v: Vote)
    requires Ready(o, l, again, v)
    requires ModeOf(l.weighting, SPO) == Some(PledgeBased) ==> later == again
    ensures Ready(o, l, later, v) && FinalResponse(o, l, later, v) == FinalResponse(o, l, again, v)
  {
  }

  lemma FinalResponsesStay(o: World, l: Linked, votes: seq<OnchainVote>, e: Epochs, later: Epochs)
    requires AllReady(o, l, votes, e.again)
    requires ModeOf(l.weighting, SPO) == Some(PledgeBased) ==> later.again == e.again
    ensures AllReady(o, l, votes, later.again)
    ensures FinalResponses(o, l, votes, later) == FinalResponses(o, l, votes, e)
  {
    var selected := SelectVotes(votes, l.surveyTxId);
    AllReadyIff(o, l, votes, e.again);
    AllReadyIff(o, l, votes, later.again);
    var final, again := FinalResponses(o, l, votes, e), FinalResponses(o, l, votes, later);
    forall i | 0 <= i < |selected|
      ensures Ready(o, l, later.again, selected[i]) && again[i] == final[i]
    {
      ReadyStays(o, l, e.again, later.again, selected[i]);
      assert final[i] == FinalResponse(o, l, e.again, selected[i]);
      assert again[i] == FinalResponse(o, l, later.again, selected[i]);
    }
  }

  lemma ServedWhenFinal(o: World, l: Linked, votes: seq<OnchainVote>, e: Epochs)
    requires ServedTally(o, l, votes, e).phase == Finalized
    ensures ServedTally(o, l, votes, e) ==
            TallyOf(SettingFor(l, Finalized, e.current, {}), FinalResponses(o, l, votes, e))
  {
  }

  /** Served again in a later epoch, a final tally is final and the same, unless its weights
      are pledges and the epoch they were read in has passed. */
  lemma {:induction false} FinalizedStays(o: World, l: Linked, votes: seq<OnchainVote>, e: Epochs, later: Epochs)
    requires ServedTally(o, l, votes, e).phase == Finalized && later.current >= e.current
    requires ModeOf(l.weighting, SPO) == Some(PledgeBased) ==> later.again == e.again
    ensures ServedTally(o, l, votes, later) == ServedTally(o, l, votes, e).(asOfEpoch := later.current)
  {
    PhaseIff(o, l, votes, e);
    PhaseIff(o, l, votes, later);
    FinalResponsesStay(o, l, votes, e, later);
    EpochIsLabel(SettingFor(l, Finalized, e.current, {}), later.current, FinalResponses(o, l, votes, e));
    ServedWhenFinal(o, l, votes, e);
    ServedWhenFinal(o, l, votes, later);
  }

  /** In every phase the tally accounts for the response of every row that responds. */
  lemma ServedIsConserved(o: World, l: Linked, votes: seq<OnchainVote>, e: Epochs)
    requires DistinctRoles(l.weighting)
    ensures var t := ServedTally(o, l, votes, e).totals;
            && t.totalSeen == |Responding(votes, l.surveyTxId)| == t.valid + t.invalid
            && t.deduped <= t.invalid && t.uniqueResponders == t.valid
  {
    var provisional := ProvisionalVotes(o, l.weighting, e.current, Responses(o, l, votes));
    SelectedCount(votes, l.surveyTxId);
    hide SelectVotes, Responding;
    VotesAreConserved(SettingFor(l, Provisional, e.current, {}), provisional);
    VotesAreConserved(SettingFor(l, FinalizationPending, e.current, PendingIn(FinalResponses(o, l, votes, e))),
                      provisional);
    VotesAreConserved(SettingFor(l, Finalized, e.current, {}), FinalResponses(o, l, votes, e));
  }
}
