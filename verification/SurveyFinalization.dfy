/** From on-chain votes to the served tally: src/services/proposalSurveyTally.service.ts and
    the handler in src/controllers/proposal/getProposalSurveyTally.ts. */
module SurveyFinalization {
  import opened Common
  import opened SurveyTypes
  import opened SurveyTally

  // ----- what the database, Koios and Blockfrost answer

  datatype Identity = Identity(role: Role, credential: string)

  /** An entry of a transaction's voting procedures, as far as it can be parsed. */
  datatype VoteEntry = VoteEntry(voter: Option<Identity>, action: Option<ActionId>)

  datatype TxInfo = TxInfo(absoluteSlot: Option<int>, txBlockIndex: Option<int>, entries: Option<seq<VoteEntry>>)

  datatype Fetched = Amount(lovelace: nat) | NoAmount | Failed

  /** What is missing from a map could not be fetched. Snapshots and histories are per voter
      and epoch; the live pledge is that of the moment. */
  datatype World = World(
    txInfo: map<string, TxInfo>, cbor: map<string, seq<VoteEntry>>, drepSnapshots: map<(string, int), nat>,
    drepHistory: map<(string, int), Fetched>, poolHistory: map<(string, int), Fetched>, livePledge: map<string, real>)

  datatype OnchainVote = OnchainVote(
    txHash: string, voterType: VoterType, votingPower: Option<nat>, responseEpoch: Option<int>, votedAt: Option<int>,
    drepId: Option<string>, spoId: Option<string>, ccId: Option<string>, surveyResponse: Option<Payload>,
    surveyTxId: Option<string>)

  /** A linked survey that is valid, with the roles that count and the action it is linked to. */
  datatype Linked = Linked(surveyTxId: string, survey: Survey, weighting: Weighting, action: ActionId)

  // ----- the votes that respond to the survey

  function VoterIdOf(v: OnchainVote): Option<string> {
    if v.drepId.Some? then v.drepId else if v.spoId.Some? then v.spoId else v.ccId
  }

  function SelectVotes(votes: seq<OnchainVote>, surveyTxId: string): seq<Vote> {
    if votes == [] then []
    else
      var v := votes[0];
      var rest := SelectVotes(votes[1..], surveyTxId);
      if v.surveyResponse.Some? && v.surveyTxId == Some(surveyTxId) && VoterIdOf(v).GetOr("") != "" then
        [Vote(v.txHash, v.voterType, VoterIdOf(v).value, v.votingPower, v.responseEpoch, v.votedAt,
              v.surveyResponse.value,
              None, None, None, None, None, None, None)] + rest
      else rest
  }

  // ----- who signed

  /** Koios first, then the CBOR of the transaction. */
  function EntriesOf(o: World, txHash: string): Option<seq<VoteEntry>> {
    if txHash in o.txInfo && o.txInfo[txHash].entries.Some? then o.txInfo[txHash].entries
    else if txHash in o.cbor then Some(o.cbor[txHash])
    else None
  }

  predicate Inspected(entries: Option<seq<VoteEntry>>) {
    entries.GetOr([]) != []
  }

  /** The transaction has one entry: this voter's, on this action. */
  predicate Proves(entries: Option<seq<VoteEntry>>, action: ActionId, role: Role, voterId: string) {
    entries == Some([VoteEntry(Some(Identity(role, voterId)), Some(action))])
  }

  method BuildLinkedVoteEvidence(entries: Option<seq<VoteEntry>>, action: ActionId, voterType: VoterType,
                                 voterId: string)
    returns (e: Evidence)
    ensures e == EvidenceOf(entries, action, RoleOf(voterType), voterId)
    ensures e.errors == [] <==> !Inspected(entries) || Proves(entries, action, RoleOf(voterType), voterId)
    ensures e.warnings == {} <==> Inspected(entries)
  {
    var fallbackRole := RoleOf(voterType);
    if entries == None || |entries.value| == 0 {
      return Evidence([], {NotInspected}, Some(fallbackRole), Some(voterId), None);
    }
    var errors: seq<EvidenceError> := [];
    if |entries.value| != 1 {
      errors := errors + [NotExactlyOneEntry];
    }
    var voter, linked := entries.value[0].voter, entries.value[0].action;
    if voter == None {
      errors := errors + [NoVoter];
    }
    if linked == None {
      errors := errors + [NoAction];
    } else if linked.value.txId != action.txId || linked.value.govActionIx != action.govActionIx {
      errors := errors + [OtherAction];
    }
    if voter.Some? && (voter.value.role != fallbackRole || voter.value.credential != voterId) {
      errors := errors + [OtherVoter];
    }
    EvidenceErrorsIff(entries, action, fallbackRole, voterId);
    e := if voter.Some? then Evidence(errors, {}, Some(voter.value.role), Some(voter.value.credential), linked)
         else Evidence(errors, {}, Some(fallbackRole), Some(voterId), linked);
  }

  function EvidenceErrors(entries: seq<VoteEntry>, action: ActionId, role: Role, voterId: string): seq<EvidenceError>
    requires entries != []
  {
    var entry := entries[0];
    (if |entries| != 1 then [NotExactlyOneEntry] else []) +
    (if entry.voter == None then [NoVoter] else []) +
    (if entry.action == None then [NoAction] else if entry.action.value != action then [OtherAction] else []) +
    (if entry.voter.Some? && entry.voter.value != Identity(role, voterId) then [OtherVoter] else [])
  }

  function EvidenceOf(entries: Option<seq<VoteEntry>>, action: ActionId, role: Role, voterId: string): Evidence {
    if !Inspected(entries) then Evidence([], {NotInspected}, Some(role), Some(voterId), None)
    else
      var identity := entries.value[0].voter.GetOr(Identity(role, voterId));
      Evidence(EvidenceErrors(entries.value, action, role, voterId), {}, Some(identity.role), Some(identity.credential),
               entries.value[0].action)
  }

  lemma EvidenceErrorsIff(entries: Option<seq<VoteEntry>>, action: ActionId, role: Role, voterId: string)
    ensures Inspected(entries) ==>
              (EvidenceErrors(entries.value, action, role, voterId) == [] <==> Proves(entries, action, role, voterId))
  {
    if Inspected(entries) && EvidenceErrors(entries.value, action, role, voterId) == [] {
      assert entries.value[0] == VoteEntry(Some(Identity(role, voterId)), Some(action));
      assert entries.value == [entries.value[0]];
    }
  }

  function EnrichedVote(o: World, action: ActionId, v: Vote): Vote {
    var evidence := EvidenceOf(EntriesOf(o, v.txHash), action, RoleOf(v.voterType), v.voterId);
    var known := v.txHash in o.txInfo;
    v.(absoluteSlot :=
         if known && o.txInfo[v.txHash].absoluteSlot.Some? then o.txInfo[v.txHash].absoluteSlot else v.absoluteSlot,
       txBlockIndex :=
         if known && o.txInfo[v.txHash].txBlockIndex.Some? then o.txInfo[v.txHash].txBlockIndex else v.txBlockIndex,
       metadataPosition := Some(v.metadataPosition.GetOr(0)),
       responseCredential :=
         if evidence.responseCredential.Some? then evidence.responseCredential else v.responseCredential,
       evidence := Some(evidence))
  }

  function Enriched(o: World, action: ActionId, votes: seq<Vote>): seq<Vote> {
    seq(|votes|, i requires 0 <= i < |votes| => EnrichedVote(o, action, votes[i]))
  }

  method EnrichSurveyTallyVotes(o: World, action: ActionId, votes: seq<Vote>) returns (r: seq<Vote>)
    ensures r == Enriched(o, action, votes)
  {
    r := [];
    for i := 0 to |votes|
      invariant r == Enriched(o, action, votes)[..i]
    {
      var v := votes[i];
      var txInfo := if v.txHash in o.txInfo then Some(o.txInfo[v.txHash]) else None;
      var slot := if txInfo.Some? then txInfo.value.absoluteSlot else None;
      var index := if txInfo.Some? then txInfo.value.txBlockIndex else None;
      var evidence := BuildLinkedVoteEvidence(EntriesOf(o, v.txHash), action, v.voterType, v.voterId);
      r := r + [v.(absoluteSlot := if slot.Some? then slot else v.absoluteSlot,
                   txBlockIndex := if index.Some? then index else v.txBlockIndex,
                   metadataPosition := Some(v.metadataPosition.GetOr(0)),
                   responseCredential :=
                     if evidence.responseCredential.Some? then evidence.responseCredential else v.responseCredential,
                   evidence := Some(evidence))];
    }
  }

  // ----- weights

  datatype Loaded = Loaded(weight: real, error: Option<Problem>)

  function Ada(lovelace: nat): real {
    lovelace as real / 1000000.0
  }

  function FromHistory(history: map<(string, int), Fetched>, role: Role, id: string, epoch: int,
                       provisional: bool): Loaded {
    match (if (id, epoch) in history then history[(id, epoch)] else Failed)
    case Amount(lovelace) => Loaded(Ada(lovelace), None)
    case NoAmount => Loaded(0.0, if provisional then None else Some(MissingSnapshot(role, id)))
    case Failed => Loaded(0.0, if provisional then None else Some(FetchFailed(role, id)))
  }

  function DrepWeight(o: World, id: string, epoch: int, provisional: bool): Loaded {
    if (id, epoch) in o.drepSnapshots then Loaded(Ada(o.drepSnapshots[(id, epoch)]), None)
    else FromHistory(o.drepHistory, DRep, id, epoch, provisional)
  }

  function SpoWeight(o: World, mode: Mode, id: string, epoch: int, currentEpoch: int, provisional: bool): Loaded {
    if mode == StakeBased then FromHistory(o.poolHistory, SPO, id, epoch, provisional)
    else if id in o.livePledge then
      Loaded(o.livePledge[id], if provisional || currentEpoch == epoch then None else Some(LivePledgeUsed))
    else Loaded(0.0, if provisional then None else Some(FetchFailed(SPO, id)))
  }

  ghost function VoterIds(votes: seq<Vote>, role: Role): set<string> {
    set v | v in votes && RoleOf(v.voterType) == role :: v.voterId
  }

  method UniqueVoterIds(votes: seq<Vote>, role: Role) returns (ids: seq<string>)
    ensures forall id :: id in ids <==> id in VoterIds(votes, role)
  {
    ids := [];
    for i := 0 to |votes|
      invariant forall id :: id in ids <==> id in VoterIds(votes[..i], role)
    {
      assert votes[..i + 1] == votes[..i] + [votes[i]];
      if RoleOf(votes[i].voterType) == role && votes[i].voterId !in ids {
        ids := ids + [votes[i].voterId];
      }
    }
    assert votes[..|votes|] == votes;
  }

  method LoadDrepWeights(o: World, votes: seq<Vote>, w: Weighting, epoch: int, provisional: bool)
    returns (result: map<string, Loaded>)
    ensures result.Keys == if ModeOf(w, DRep) == Some(StakeBased) then VoterIds(votes, DRep) else {}
    ensures forall id :: id in result ==> result[id] == DrepWeight(o, id, epoch, provisional)
  {
    result := map[];
    if ModeOf(w, DRep) != Some(StakeBased) {
      return;
    }
    var drepIds := UniqueVoterIds(votes, DRep);
    var missingIds: seq<string> := [];
    for i := 0 to |drepIds|
      invariant forall id :: id in drepIds[..i] <==> id in result || id in missingIds
      invariant forall id :: id in missingIds ==> (id, epoch) !in o.drepSnapshots
      invariant forall id :: id in result ==> result[id] == DrepWeight(o, id, epoch, provisional)
    {
      assert drepIds[..i + 1] == drepIds[..i] + [drepIds[i]];
      if (drepIds[i], epoch) in o.drepSnapshots {
        result := result[drepIds[i] := Loaded(Ada(o.drepSnapshots[(drepIds[i], epoch)]), None)];
      } else {
        missingIds := missingIds + [drepIds[i]];
      }
    }
    assert drepIds[..|drepIds|] == drepIds;
    for i := 0 to |missingIds|
      invariant forall id :: id in drepIds <==> id in result || id in missingIds[i..]
      invariant forall id :: id in result ==> result[id] == DrepWeight(o, id, epoch, provisional)
    {
      assert missingIds[i..] == [missingIds[i]] + missingIds[i + 1..];
      result := result[missingIds[i] := FromHistory(o.drepHistory, DRep, missingIds[i], epoch, provisional)];
    }
  }

  method LoadSpoWeights(o: World, votes: seq<Vote>, w: Weighting, epoch: int, currentEpoch: int, provisional: bool)
    returns (result: map<string, Loaded>)
    ensures result.Keys == if ModeOf(w, SPO).GetOr(CredentialBased) != CredentialBased then VoterIds(votes, SPO) else {}
    ensures forall id :: id in result ==>
            result[id] == SpoWeight(o, ModeOf(w, SPO).value, id, epoch, currentEpoch, provisional)
  {
    result := map[];
    var mode := ModeOf(w, SPO).GetOr(CredentialBased);
    if mode == CredentialBased {
      return;
    }
    var spoIds := UniqueVoterIds(votes, SPO);
    for i := 0 to |spoIds|
      invariant forall id :: id in spoIds[..i] <==> id in result
      invariant forall id :: id in result ==> result[id] == SpoWeight(o, mode, id, epoch, currentEpoch, provisional)
    {
      assert spoIds[..i + 1] == spoIds[..i] + [spoIds[i]];
      result := result[spoIds[i] := SpoWeight(o, mode, spoIds[i], epoch, currentEpoch, provisional)];
    }
    assert spoIds[..|spoIds|] == spoIds;
  }

  /** The weight that a voter is given from outside, if the role's mode asks for one. */
  function WeightFor(o: World, w: Weighting, v: Vote, epoch: int, currentEpoch: int,
                     provisional: bool): Option<Loaded> {
    var role := RoleOf(v.voterType);
    var mode := ModeOf(w, role).GetOr(CredentialBased);
    if role == DRep && mode == StakeBased then Some(DrepWeight(o, v.voterId, epoch, provisional))
    else if role == SPO && mode != CredentialBased then
      Some(SpoWeight(o, mode, v.voterId, epoch, currentEpoch, provisional))
    else None
  }

  /** Whether the service replaces the weight fields of a vote. */
  predicate Weighed(w: Weighting, v: Vote) {
    ModeOf(w, RoleOf(v.voterType)).GetOr(CredentialBased) != CredentialBased && RoleOf(v.voterType) != CC
  }

  function FinalVote(o: World, w: Weighting, endEpoch: int, currentEpoch: int, v: Vote): Vote {
    var loaded := WeightFor(o, w, v, endEpoch, currentEpoch, false);
    if !Weighed(w, v) then v
    else if loaded == None then v.(snapshotWeight := None, snapshotWeightError := None)
    else v.(snapshotWeight := Some(loaded.value.weight), snapshotWeightError := loaded.value.error)
  }

  function FinalVotes(o: World, w: Weighting, endEpoch: int, currentEpoch: int, votes: seq<Vote>): seq<Vote> {
    seq(|votes|, i requires 0 <= i < |votes| => FinalVote(o, w, endEpoch, currentEpoch, votes[i]))
  }

  function OwnPower(v: Vote): Option<real> {
    if v.votingPower.GetOr(0) != 0 then Some(Ada(v.votingPower.value)) else None
  }

  function ProvisionalVote(o: World, w: Weighting, currentEpoch: int, v: Vote): Vote {
    var loaded := WeightFor(o, w, v, currentEpoch, currentEpoch, true);
    if !Weighed(w, v) then v
    else v.(snapshotWeight := if loaded.Some? then Some(loaded.value.weight) else OwnPower(v),
            snapshotWeightError := None)
  }

  function ProvisionalVotes(o: World, w: Weighting, currentEpoch: int, votes: seq<Vote>): seq<Vote> {
    seq(|votes|, i requires 0 <= i < |votes| => ProvisionalVote(o, w, currentEpoch, votes[i]))
  }

  function Lookup(v: Vote, dreps: map<string, Loaded>, spos: map<string, Loaded>): Option<Loaded> {
    var weights := if RoleOf(v.voterType) == DRep then dreps else spos;
    if v.voterId in weights then Some(weights[v.voterId]) else None
  }

  method ApplyEndEpochWeights(o: World, votes: seq<Vote>, w: Weighting, endEpoch: int, currentEpoch: int)
    returns (r: seq<Vote>)
    ensures r == FinalVotes(o, w, endEpoch, currentEpoch, votes)
  {
    var dreps := LoadDrepWeights(o, votes, w, endEpoch, false);
    var spos := LoadSpoWeights(o, votes, w, endEpoch, currentEpoch, false);
    r := [];
    for i := 0 to |votes|
      invariant r == FinalVotes(o, w, endEpoch, currentEpoch, votes)[..i]
    {
      var v := votes[i];
      assert RoleOf(v.voterType) in {DRep, SPO} ==> v.voterId in VoterIds(votes, RoleOf(v.voterType));
      if Weighed(w, v) {
        var weight := Lookup(v, dreps, spos);
        assert weight == WeightFor(o, w, v, endEpoch, currentEpoch, false);
        v := if weight.Some? then
          v.(snapshotWeight := Some(weight.value.weight), snapshotWeightError := weight.value.error)
             else v.(snapshotWeight := None, snapshotWeightError := None);
      }
      r := r + [v];
    }
  }

  method ApplyProvisionalWeights(o: World, votes: seq<Vote>, w: Weighting, currentEpoch: int) returns (r: seq<Vote>)
    ensures r == ProvisionalVotes(o, w, currentEpoch, votes)
  {
    var dreps := LoadDrepWeights(o, votes, w, currentEpoch, true);
    var spos := LoadSpoWeights(o, votes, w, currentEpoch, currentEpoch, true);
    r := [];
    for i := 0 to |votes|
      invariant r == ProvisionalVotes(o, w, currentEpoch, votes)[..i]
    {
      var v := votes[i];
      assert RoleOf(v.voterType) in {DRep, SPO} ==> v.voterId in VoterIds(votes, RoleOf(v.voterType));
      if Weighed(w, v) {
        var weight := Lookup(v, dreps, spos);
        assert weight == WeightFor(o, w, v, currentEpoch, currentEpoch, true);
        v := v.(snapshotWeight := if weight.Some? then Some(weight.value.weight) else OwnPower(v),
                snapshotWeightError := None);
      }
      r := r + [v];
    }
  }

  // ----- the phase

  /** What still keeps a vote from being final. */
  function PendingOf(v: Vote): set<Problem> {
    (if v.evidence.Some? then v.evidence.value.warnings else {}) +
    (if v.snapshotWeightError.Some? then {v.snapshotWeightError.value} else {})
  }

  method CollectPendingFinalizationWarnings(votes: seq<Vote>) returns (warnings: set<Problem>)
    ensures forall p :: p in warnings <==> exists i :: 0 <= i < |votes| && p in PendingOf(votes[i])
  {
    warnings := {};
    for i := 0 to |votes|
      invariant forall p :: p in warnings <==> exists k :: 0 <= k < i && p in PendingOf(votes[k])
    {
      warnings := warnings + PendingOf(votes[i]);
    }
  }

  ghost function PendingIn(votes: seq<Vote>): set<Problem> {
    set i, p | 0 <= i < |votes| && p in PendingOf(votes[i]) :: p
  }

  function SettingFor(l: Linked, phase: Phase, currentEpoch: int, warnings: set<Problem>): Setting {
    Setting(l.surveyTxId, l.survey, l.weighting, phase, currentEpoch, l.survey.endEpoch, warnings, phase == Finalized)
  }

  /** The handler asks for the current epoch; weighing at the end epoch asks again. */
  datatype Epochs = Epochs(current: int, again: int)

  ghost function Responses(o: World, l: Linked, votes: seq<OnchainVote>): seq<Vote> {
    Enriched(o, l.action, SelectVotes(votes, l.surveyTxId))
  }

  ghost function FinalResponses(o: World, l: Linked, votes: seq<OnchainVote>, e: Epochs): seq<Vote> {
    FinalVotes(o, l.weighting, l.survey.endEpoch, e.again, Responses(o, l, votes))
  }

  /** The tally that is served. */
  ghost function ServedTally(o: World, l: Linked, votes: seq<OnchainVote>, e: Epochs): Tally {
    var pending := PendingIn(FinalResponses(o, l, votes, e));
    var provisional := ProvisionalVotes(o, l.weighting, e.current, Responses(o, l, votes));
    if e.current < l.survey.endEpoch then TallyOf(SettingFor(l, Provisional, e.current, {}), provisional)
    else if pending != {} then TallyOf(SettingFor(l, FinalizationPending, e.current, pending), provisional)
    else TallyOf(SettingFor(l, Finalized, e.current, {}), FinalResponses(o, l, votes, e))
  }

  method GetProposalSurveyTally(o: World, l: Linked, votes: seq<OnchainVote>, e: Epochs) returns (tally: Tally)
    requires DistinctRoles(l.weighting)
    ensures tally == ServedTally(o, l, votes, e)
  {
    var enriched := EnrichSurveyTallyVotes(o, l.action, SelectVotes(votes, l.surveyTxId));
    var provisional := ApplyProvisionalWeights(o, enriched, l.weighting, e.current);
    if e.current < l.survey.endEpoch {
      tally := BuildSurveyTally(SettingFor(l, Provisional, e.current, {}), provisional);
    } else {
      var finalized := ApplyEndEpochWeights(o, enriched, l.weighting, l.survey.endEpoch, e.again);
      var pending := CollectPendingFinalizationWarnings(finalized);
      assert pending == PendingIn(finalized);
      if |pending| > 0 {
        tally := BuildSurveyTally(SettingFor(l, FinalizationPending, e.current, pending), provisional);
      } else {
        tally := BuildSurveyTally(SettingFor(l, Finalized, e.current, {}), finalized);
      }
    }
  }
}
