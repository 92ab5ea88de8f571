/** What the served tally makes of its rows: which response of a voter is the last, what weighs
    before the tally is final, and what is still missing. */
module SurveyServed {
  import opened Common
  import opened SurveyTypes
  import opened SurveyValidation
  import opened SurveyDedupe
  import opened SurveyResults
  import opened SurveyTally
  import opened SurveyTallyLaws
  import opened SurveyFinalization
  import opened SurveyRows
  import opened SurveyFinalizationLaws
  import opened SurveyProvisional

  // ----- which response is the last

  /** Where Koios places a transaction; an unknown slot or index comes before all known ones. */
  ghost function SlotKnown(o: World, txHash: string): int {
    if txHash in o.txInfo && o.txInfo[txHash].absoluteSlot.Some? then o.txInfo[txHash].absoluteSlot.value else -1
  }

  ghost function IndexKnown(o: World, txHash: string): int {
    if txHash in o.txInfo && o.txInfo[txHash].txBlockIndex.Some? then o.txInfo[txHash].txBlockIndex.value else -1
  }

  /** A row is cast after another by slot, else by index in the block, else by time, else by hash. */
  ghost predicate CastAfter(o: World, a: OnchainVote, b: OnchainVote) {
    var slot := SlotKnown(o, a.txHash) - SlotKnown(o, b.txHash);
    var index := IndexKnown(o, a.txHash) - IndexKnown(o, b.txHash);
    var time := (if a.votedAt.Some? then a.votedAt.value else 0) - (if b.votedAt.Some? then b.votedAt.value else 0);
    || slot > 0
    || (slot == 0 && index > 0)
    || (slot == 0 && index == 0 && time > 0)
    || (slot == 0 && index == 0 && time == 0 && TextAfter(a.txHash, b.txHash))
  }

  /** In every phase the responses of two rows compare as the rows were cast. */
  lemma LaterIffCastAfter(o: World, l: Linked, epoch: int, a: OnchainVote, u: Vote, b: OnchainVote, v: Vote)
    requires IsResponse(a, l.surveyTxId, u) && IsResponse(b, l.surveyTxId, v)
    ensures Later(FinalResponse(o, l, epoch, u), FinalResponse(o, l, epoch, v)) <==> CastAfter(o, a, b)
    ensures Later(ProvisionalResponse(o, l, epoch, u), ProvisionalResponse(o, l, epoch, v)) <==> CastAfter(o, a, b)
  {
    hide TextAfter;
    PlaceIs(o, l, epoch, a, u);
    PlaceIs(o, l, epoch, b, v);
  }

  lemma PlaceIs(o: World, l: Linked, epoch: int, row: OnchainVote, v: Vote)
    requires IsResponse(row, l.surveyTxId, v)
    ensures forall w :: w == FinalResponse(o, l, epoch, v) || w == ProvisionalResponse(o, l, epoch, v) ==>
              && SlotOf(w) == SlotKnown(o, row.txHash) && IndexOf(w) == IndexKnown(o, row.txHash) && PositionOf(w) == 0
              && TimeOf(w) == (if row.votedAt.Some? then row.votedAt.value else 0) && w.txHash == row.txHash
  {
  }

  // ----- the weight before the tally is final

  /** A current stake or pledge in ada; what cannot be fetched weighs nothing. */
  ghost function CurrentWeight(o: World, rm: RoleMode, epoch: int, voterId: string): real {
    var key := (voterId, epoch);
    match (rm.role, rm.mode)
    case (DRep, StakeBased) =>
      if key in o.drepSnapshots then o.drepSnapshots[key] as real / 1000000.0
      else if key in o.drepHistory && o.drepHistory[key].Amount? then o.drepHistory[key].lovelace as real / 1000000.0
      else 0.0
    case (SPO, StakeBased) =>
      if key in o.poolHistory && o.poolHistory[key].Amount? then o.poolHistory[key].lovelace as real / 1000000.0
      else 0.0
    case (SPO, PledgeBased) => if voterId in o.livePledge then o.livePledge[voterId] else 0.0
    case _ => 1.0
  }

  /** Before it is final, a response weighs what its voter has in the current epoch, and nothing is
      wrong with that. */
  lemma ProvisionalWeightIs(o: World, l: Linked, epoch: int, rm: RoleMode, v: Vote)
    requires v.snapshotWeight == None && v.snapshotWeightError == None
    requires RoleOf(v.voterType) == rm.role && ModeOf(l.weighting, rm.role) == Some(rm.mode)
    requires Compatible(rm.role, rm.mode)
    ensures Weight(rm.mode, ProvisionalResponse(o, l, epoch, v)) == CurrentWeight(o, rm, epoch, v.voterId)
    ensures WeightProblems(rm.role, rm.mode, ProvisionalResponse(o, l, epoch, v)) == {}
  {
  }

  lemma CountedIsProvisional(o: World, l: Linked, rows: seq<OnchainVote>, phase: Phase, epoch: int,
                             warnings: set<Problem>, r: nat, k: nat)
    returns (u: Vote)
    requires DistinctRoles(l.weighting) && CompatibleRoles(l.weighting) && r < |l.weighting|
    requires k < |CountedVotes(SettingFor(l, phase, epoch, warnings), Served(o, l, epoch, rows), l.weighting[r].role)|
    ensures var v :=
            CountedVotes(SettingFor(l, phase, epoch, warnings), Served(o, l, epoch, rows), l.weighting[r].role)[k];
            && (exists row :: row in rows && IsResponse(row, l.surveyTxId, u))
            && v == ProvisionalResponse(o, l, epoch, u) && v.voterId == u.voterId
            && Weight(l.weighting[r].mode, v) == CurrentWeight(o, l.weighting[r], epoch, v.voterId)
            && WeightProblems(l.weighting[r].role, l.weighting[r].mode, v) == {}
  {
    hide Accepts, SelectVotes, EnrichedVote, ProvisionalVote, Weight, CurrentWeight, WeightProblems, ModeOf;
    var s, served, rm := SettingFor(l, phase, epoch, warnings), Served(o, l, epoch, rows), l.weighting[r];
    var v := CountedVotes(s, served, rm.role)[k];
    CountedAreAccepted(s, served, rm.role, k);
    var i :| 0 <= i < |served| && served[i] == v;
    u := SelectVotes(rows, l.surveyTxId)[i];
    SelectedAreFresh(rows, l.surveyTxId, i);
    assert v == ProvisionalResponse(o, l, epoch, u);
    KeyIsSigner(o, l, epoch, u);
    ModeIsFound(l.weighting, r);
    ProvisionalWeightIs(o, l, epoch, rm, u);
  }

  /** So a tally that is not final has no errors. */
  lemma ProvisionalHasNoErrors(o: World, l: Linked, rows: seq<OnchainVote>, e: Epochs)
    requires DistinctRoles(l.weighting) && CompatibleRoles(l.weighting)
    requires ServedTally(o, l, rows, e).phase != Finalized
    ensures ServedTally(o, l, rows, e).errors == {}
  {
    hide Served, Accepts, Weight, CurrentWeight, WeightProblems;
    var phase := ServedTally(o, l, rows, e).phase;
    var s := SettingFor(l, phase, e.current, ServedTally(o, l, rows, e).warnings);
    var served := Served(o, l, e.current, rows);
    forall r | 0 <= r < |l.weighting|
      ensures RoleProblems(s, served, l.weighting[r]) == {}
    {
      var rm := l.weighting[r];
      forall k | 0 <= k < |CountedVotes(s, served, rm.role)|
        ensures WeightProblems(rm.role, rm.mode, CountedVotes(s, served, rm.role)[k]) == {}
      {
        var u := CountedIsProvisional(o, l, rows, phase, e.current, s.warnings, r, k);
      }
      NoProblemsAtAll(rm.role, rm.mode, l.survey.questions, CountedVotes(s, served, rm.role));
    }
    NoErrors(s, served, l.weighting);
    ServedWhenOpen(o, l, rows, e);
  }

  lemma ServedWhenOpen(o: World, l: Linked, rows: seq<OnchainVote>, e: Epochs)
    requires ServedTally(o, l, rows, e).phase != Finalized
    ensures var t := ServedTally(o, l, rows, e);
            t == TallyOf(SettingFor(l, t.phase, e.current, t.warnings), Served(o, l, e.current, rows))
  {
  }

  // ----- what is still missing

  /** What keeps a response from being final: its transaction's entries, or its weight at the end
      epoch. */
  ghost predicate Lacks(o: World, l: Linked, again: int, v: Vote, p: Problem) {
    || (p == NotInspected && !exists entries :: entries != [] && HasEntries(o, v.txHash, entries))
    || LacksWeight(o, l, again, v, p)
  }

  ghost predicate LacksWeight(o: World, l: Linked, again: int, v: Vote, p: Problem) {
    var key := (v.voterId, l.survey.endEpoch);
    match (RoleOf(v.voterType), ModeOf(l.weighting, RoleOf(v.voterType)))
    case (DRep, Some(StakeBased)) => key !in o.drepSnapshots && LacksAmount(o.drepHistory, DRep, key, p)
    case (SPO, Some(StakeBased)) => LacksAmount(o.poolHistory, SPO, key, p)
    case (SPO, Some(PledgeBased)) =>
      if v.voterId in o.livePledge then again != l.survey.endEpoch && p == LivePledgeUsed
      else p == FetchFailed(SPO, v.voterId)
    case _ => false
  }

  /** The history has no amount for the voter and epoch, or could not be fetched. */
  ghost predicate LacksAmount(history: map<(string, int), Fetched>, role: Role, key: (string, int), p: Problem) {
    if key in history && history[key] != Failed then history[key] == NoAmount && p == MissingSnapshot(role, key.0)
    else p == FetchFailed(role, key.0)
  }

  lemma WeightErrorIs(o: World, l: Linked, again: int, v: Vote, p: Problem)
    requires v.snapshotWeightError == None
    ensures FinalResponse(o, l, again, v).snapshotWeightError == Some(p) <==> LacksWeight(o, l, again, v, p)
  {
    hide EvidenceOf, EntriesOf;
  }

  lemma PendingIsLacking(o: World, l: Linked, again: int, v: Vote, p: Problem)
    requires v.snapshotWeightError == None
    ensures p in PendingOf(FinalResponse(o, l, again, v)) <==> Lacks(o, l, again, v, p)
  {
    EntriesIff(o, v.txHash);
    WeightErrorIs(o, l, again, v, p);
    var final := FinalResponse(o, l, again, v);
    assert final.evidence.value.warnings == if Inspected(EntriesOf(o, v.txHash)) then {} else {NotInspected};
    hide FinalResponse, LacksWeight, HasEntries, EntriesOf, Inspected;
  }

  lemma PendingIffLacking(o: World, l: Linked, rows: seq<OnchainVote>, e: Epochs, p: Problem)
    ensures p in PendingIn(FinalResponses(o, l, rows, e)) <==>
            exists row, v :: row in rows && IsResponse(row, l.surveyTxId, v) && Lacks(o, l, e.again, v, p)
  {
    hide SelectVotes, Lacks, IsResponse, PendingOf, FinalVote, EnrichedVote;
    var selected, final := SelectVotes(rows, l.surveyTxId), FinalResponses(o, l, rows, e);
    forall i | 0 <= i < |selected|
      ensures selected[i] in selected && (p in PendingOf(final[i]) <==> Lacks(o, l, e.again, selected[i], p))
    {
      SelectedAreFresh(rows, l.surveyTxId, i);
      assert final[i] == FinalResponse(o, l, e.again, selected[i]);
      PendingIsLacking(o, l, e.again, selected[i], p);
    }
    forall v
      ensures v in selected <==> exists row :: row in rows && IsResponse(row, l.surveyTxId, v)
    {
      SelectedAre(rows, l.surveyTxId, v);
    }
    if row, v :| row in rows && IsResponse(row, l.surveyTxId, v) && Lacks(o, l, e.again, v, p) {
      assert v in selected;
      var i :| 0 <= i < |selected| && selected[i] == v;
      assert p in PendingOf(final[i]);
    }
    if p in PendingIn(final) {
      var i :| 0 <= i < |final| && p in PendingOf(final[i]);
      assert selected[i] in selected && Lacks(o, l, e.again, selected[i], p);
    }
  }

  /** From its end epoch on, the warnings of a tally are exactly what the responses of its rows
      lack, and the tally is final exactly if there are none. Every tally names its survey, the
      current epoch and the end epoch. */
  lemma WarningsIff(o: World, l: Linked, rows: seq<OnchainVote>, e: Epochs, p: Problem)
    ensures var t := ServedTally(o, l, rows, e);
            && (p in t.warnings <==>
                  e.current >= l.survey.endEpoch &&
                  exists row, v :: row in rows && IsResponse(row, l.surveyTxId, v) && Lacks(o, l, e.again, v, p))
            && (t.phase == Finalized <==> e.current >= l.survey.endEpoch && t.warnings == {})
            && t.surveyTxId == l.surveyTxId && t.asOfEpoch == e.current && t.finalizationEpoch == l.survey.endEpoch
  {
    hide Lacks, IsResponse, PendingIn, FinalResponses;
    PendingIffLacking(o, l, rows, e, p);
  }
}
