/** What a tally does not promise before it is final: votes are keyed by the first entry of
    their transaction (src/services/proposalSurveyTally.service.ts), whoever cast them, and
    payloads are read in one form only (src/libs/surveyMetadata.ts). */
module SurveyProvisional {
  import opened Common
  import opened SurveyTypes
  import opened SurveyValidation
  import opened SurveyDedupe
  import opened SurveyTally
  import opened SurveyTallyLaws
  import opened SurveyFinalization
  import opened SurveyRows
  import opened SurveyFinalizationLaws

  // ----- one response per voter

  /** The credential of the transaction's first entry if it can be read, else the voter's id. */
  function Signer(o: World, v: Vote): string {
    var entries := EntriesOf(o, v.txHash);
    if Inspected(entries) && entries.value[0].voter.Some? then entries.value[0].voter.value.credential else v.voterId
  }

  function ProvisionalResponse(o: World, l: Linked, epoch: int, v: Vote): Vote {
    ProvisionalVote(o, l.weighting, epoch, EnrichedVote(o, l.action, v))
  }

  lemma KeyIsSigner(o: World, l: Linked, epoch: int, v: Vote)
    ensures KeyOf(ProvisionalResponse(o, l, epoch, v)) == Signer(o, v)
    ensures ProvisionalResponse(o, l, epoch, v).voterId == v.voterId
    ensures ProvisionalResponse(o, l, epoch, v).voterType == v.voterType
  {
  }

  function ProvisionalSetting(l: Linked, epoch: int): Setting {
    SettingFor(l, Provisional, epoch, {})
  }

  ghost function Served(o: World, l: Linked, epoch: int, rows: seq<OnchainVote>): seq<Vote> {
    ProvisionalVotes(o, l.weighting, epoch, Responses(o, l, rows))
  }

  ghost predicate IsAccepted(o: World, l: Linked, epoch: int, v: Vote) {
    Accepts(ProvisionalSetting(l, epoch), ProvisionalResponse(o, l, epoch, v))
  }

  /** Two accepted responses of one role have the same signer exactly if they are of the same voter. */
  ghost predicate SignersAreVoters(o: World, l: Linked, epoch: int, responses: seq<Vote>) {
    forall u, v :: u in responses && v in responses && u.voterType == v.voterType
                   && IsAccepted(o, l, epoch, u) && IsAccepted(o, l, epoch, v) ==>
      (Signer(o, u) == Signer(o, v) <==> u.voterId == v.voterId)
  }

  ghost function Voters(votes: seq<Vote>): set<string> {
    set v | v in votes :: v.voterId
  }

  /** The accepted responses of a role. */
  ghost function AcceptedIn(o: World, l: Linked, epoch: int, rows: seq<OnchainVote>, role: Role): seq<Vote> {
    Accepted(ProvisionalSetting(l, epoch), Served(o, l, epoch, rows), role)
  }

  /** In a role the served tally counts one response of each voter with an accepted one. */
  ghost predicate OneForEachVoter(o: World, l: Linked, rows: seq<OnchainVote>, e: Epochs, r: nat)
    requires r < |l.weighting|
  {
    var t, accepted := ServedTally(o, l, rows, e), AcceptedIn(o, l, e.current, rows, l.weighting[r].role);
    && r < |t.roleResults|
    && t.roleResults[r].totals.uniqueResponders == |Voters(accepted)|
    && OnePerVoter(accepted)
  }

  ghost predicate ServesOnePerVoter(o: World, l: Linked, rows: seq<OnchainVote>, e: Epochs) {
    forall r :: 0 <= r < |l.weighting| ==> OneForEachVoter(o, l, rows, e, r)
  }

  lemma {:induction false} DistinctVoters(kept: seq<Vote>)
    requires forall i, j :: 0 <= i < j < |kept| ==> kept[i].voterId != kept[j].voterId
    ensures |Voters(kept)| == |kept|
  {
    if kept == [] {
      assert Voters(kept) == {};
    } else {
      var init, v := kept[..|kept| - 1], kept[|kept| - 1];
      DistinctVoters(init);
      assert kept == init + [v];
      assert v.voterId !in Voters(init);
      assert Voters(kept) == Voters(init) + {v.voterId};
    }
  }

  lemma KeptAreVotes(votes: seq<Vote>)
    ensures From(Deduped(votes), votes)
  {
    DedupedKeepsLatest(votes);
  }

  lemma OneForEach(votes: seq<Vote>)
    requires OnePerVoter(votes)
    ensures |Deduped(votes)| == |Voters(votes)|
  {
    KeptAreVotes(votes);
    DistinctVoters(Deduped(votes));
    hide Deduped;
    assert Voters(Deduped(votes)) == Voters(votes);
  }

  /** What is accepted comes from the rows. */
  lemma AcceptedFrom(o: World, l: Linked, epoch: int, rows: seq<OnchainVote>, some: seq<OnchainVote>, role: Role,
                     v: Vote)
    returns (u: Vote)
    requires From(some, rows) && v in AcceptedIn(o, l, epoch, some, role)
    ensures u in SelectVotes(rows, l.surveyTxId) && IsAccepted(o, l, epoch, u) && RoleOf(u.voterType) == role
    ensures v == ProvisionalResponse(o, l, epoch, u)
  {
    hide ProvisionalVote, EnrichedVote, Accepts;
    var served, selected := Served(o, l, epoch, some), SelectVotes(some, l.surveyTxId);
    AcceptedAre(ProvisionalSetting(l, epoch), served, role, v);
    var i :| 0 <= i < |served| && served[i] == v;
    u := selected[i];
    SelectedAre(some, l.surveyTxId, u);
    SelectedAre(rows, l.surveyTxId, u);
    assert v == ProvisionalResponse(o, l, epoch, u);
    KeyIsSigner(o, l, epoch, u);
  }

  lemma KeysTellVoters(o: World, l: Linked, rows: seq<OnchainVote>, epoch: int, some: seq<OnchainVote>, role: Role)
    requires SignersAreVoters(o, l, epoch, SelectVotes(rows, l.surveyTxId)) && From(some, rows)
    ensures OnePerVoter(AcceptedIn(o, l, epoch, some, role))
  {
    hide KeyOf, Signer, ProvisionalResponse, AcceptedIn, SelectVotes, IsAccepted, OnePerVoter;
    var accepted := AcceptedIn(o, l, epoch, some, role);
    forall u, v | u in accepted && v in accepted
      ensures KeyOf(u) == KeyOf(v) <==> u.voterId == v.voterId
    {
      var u' := AcceptedFrom(o, l, epoch, rows, some, role, u);
      var v' := AcceptedFrom(o, l, epoch, rows, some, role, v);
      KeyIsSigner(o, l, epoch, u');
      KeyIsSigner(o, l, epoch, v');
      assert u'.voterType == v'.voterType;
    }
    OnePerVoterIf(accepted);
  }

  lemma ServedBefore(o: World, l: Linked, rows: seq<OnchainVote>, e: Epochs)
    requires e.current < l.survey.endEpoch
    ensures ServedTally(o, l, rows, e) == TallyOf(ProvisionalSetting(l, e.current), Served(o, l, e.current, rows))
  {
    hide TallyOf, ProvisionalVotes;
  }

  lemma ServedRole(o: World, l: Linked, rows: seq<OnchainVote>, e: Epochs, r: nat)
    requires e.current < l.survey.endEpoch && r < |l.weighting|
    ensures var results := ServedTally(o, l, rows, e).roleResults;
            && |results| == |l.weighting|
            && results[r].totals.uniqueResponders == |Deduped(AcceptedIn(o, l, e.current, rows, l.weighting[r].role))|
  {
    hide Accepted, ProvisionalVotes, Deduped, SeenIn, RejectedIn;
    ServedBefore(o, l, rows, e);
    RoleResultAt(ProvisionalSetting(l, e.current), Served(o, l, e.current, rows), l.weighting, r);
  }

  lemma TellsVoters(o: World, l: Linked, rows: seq<OnchainVote>, e: Epochs, some: seq<OnchainVote>)
    requires e.current < l.survey.endEpoch
    requires SignersAreVoters(o, l, e.current, SelectVotes(rows, l.surveyTxId)) && From(some, rows)
    ensures ServesOnePerVoter(o, l, some, e)
  {
    hide OnePerVoter, SignersAreVoters, From, AcceptedIn, ServedTally, Voters, Deduped, SelectVotes;
    forall r | 0 <= r < |l.weighting|
      ensures OneForEachVoter(o, l, some, e, r)
    {
      KeysTellVoters(o, l, rows, e.current, some, l.weighting[r].role);
      OneForEach(AcceptedIn(o, l, e.current, some, l.weighting[r].role));
      ServedRole(o, l, some, e, r);
    }
  }

  lemma PairIsServed(o: World, l: Linked, epoch: int, a: OnchainVote, b: OnchainVote, u: Vote, v: Vote)
    requires SelectVotes([a], l.surveyTxId) == [u] && SelectVotes([b], l.surveyTxId) == [v]
    ensures Served(o, l, epoch, [a, b]) == [ProvisionalResponse(o, l, epoch, u), ProvisionalResponse(o, l, epoch, v)]
  {
    hide ProvisionalVote, EnrichedVote;
    SelectedCons(a, [b], l.surveyTxId);
    assert [a] + [b] == [a, b];
    hide SelectVotes;
    assert SelectVotes([a, b], l.surveyTxId) == [u, v];
  }

  /** Two of the rows, both accepted in one role. */
  lemma PairIsAccepted(o: World, l: Linked, epoch: int, a: OnchainVote, b: OnchainVote, u: Vote, v: Vote)
    requires SelectVotes([a], l.surveyTxId) == [u] && SelectVotes([b], l.surveyTxId) == [v]
    requires u.voterType == v.voterType && IsAccepted(o, l, epoch, u) && IsAccepted(o, l, epoch, v)
    ensures AcceptedIn(o, l, epoch, [a, b], RoleOf(u.voterType)) ==
            [ProvisionalResponse(o, l, epoch, u), ProvisionalResponse(o, l, epoch, v)]
  {
    KeyIsSigner(o, l, epoch, u);
    KeyIsSigner(o, l, epoch, v);
    PairIsServed(o, l, epoch, a, b, u, v);
    hide ProvisionalResponse, Accepts, Accepted, KeyOf, Signer, SelectVotes, Served;
    SameRolePair(ProvisionalSetting(l, epoch), ProvisionalResponse(o, l, epoch, u),
                 ProvisionalResponse(o, l, epoch, v));
  }

  lemma PairTellsVoters(o: World, l: Linked, rows: seq<OnchainVote>, e: Epochs, u: Vote, v: Vote)
    requires forall some :: From(some, rows) ==> ServesOnePerVoter(o, l, some, e)
    requires u in SelectVotes(rows, l.surveyTxId) && v in SelectVotes(rows, l.surveyTxId) && u.voterType == v.voterType
    requires IsAccepted(o, l, e.current, u) && IsAccepted(o, l, e.current, v)
    ensures Signer(o, u) == Signer(o, v) <==> u.voterId == v.voterId
  {
    KeyIsSigner(o, l, e.current, u);
    KeyIsSigner(o, l, e.current, v);
    assert ModeOf(l.weighting, RoleOf(u.voterType)).Some?;
    hide KeyOf, Signer, ProvisionalResponse, SelectVotes, IsAccepted, OnePerVoter, AcceptedIn, ServedTally;
    SelectedAre(rows, l.surveyTxId, u);
    SelectedAre(rows, l.surveyTxId, v);
    var a :| a in rows && IsResponse(a, l.surveyTxId, u);
    var b :| b in rows && IsResponse(b, l.surveyTxId, v);
    OneResponse(a, l.surveyTxId, u);
    OneResponse(b, l.surveyTxId, v);
    assert From([a, b], rows);
    RoleIsFound(l.weighting, RoleOf(u.voterType));
    var r :| 0 <= r < |l.weighting| && l.weighting[r].role == RoleOf(u.voterType);
    assert OneForEachVoter(o, l, [a, b], e, r);
    PairIsAccepted(o, l, e.current, a, b, u, v);
    PairNeedsKeys(ProvisionalResponse(o, l, e.current, u), ProvisionalResponse(o, l, e.current, v));
  }

  /** Whichever of the rows are there, a tally before the end epoch counts one response per voter
      in every role if and only if the first entries tell apart the voters of a role with accepted
      responses. */
  lemma ProvisionalOnePerVoterIff(o: World, l: Linked, rows: seq<OnchainVote>, e: Epochs)
    requires e.current < l.survey.endEpoch
    ensures SignersAreVoters(o, l, e.current, SelectVotes(rows, l.surveyTxId)) <==>
            forall some :: From(some, rows) ==> ServesOnePerVoter(o, l, some, e)
  {
    hide Signer, IsAccepted, ServesOnePerVoter, SelectVotes;
    var responses := SelectVotes(rows, l.surveyTxId);
    if SignersAreVoters(o, l, e.current, responses) {
      forall some | From(some, rows)
        ensures ServesOnePerVoter(o, l, some, e)
      {
        TellsVoters(o, l, rows, e, some);
      }
    }
    if forall some :: From(some, rows) ==> ServesOnePerVoter(o, l, some, e) {
      forall u, v | u in responses && v in responses && u.voterType == v.voterType
                    && IsAccepted(o, l, e.current, u) && IsAccepted(o, l, e.current, v)
        ensures Signer(o, u) == Signer(o, v) <==> u.voterId == v.voterId
      {
        PairTellsVoters(o, l, rows, e, u, v);
      }
    }
  }

  // ----- witnesses: rows as ingestion writes them, with the one bare response of their transaction

  function TwoRoles(spoMode: Mode): Linked {
    var w := [RoleMode(DRep, CredentialBased), RoleMode(SPO, spoMode)];
    Linked("survey", SomeSurvey(SingleChoice).(roleWeighting := w), w, ActionId("action", 0))
  }

  function Row(tx: string, voterType: VoterType, id: string): OnchainVote {
    OnchainVote(tx, voterType, None, None, None,
                if voterType == DrepVoter then Some(id) else None,
                if voterType == SpoVoter then Some(id) else None, None,
                Some(Bare(ResponseOf(RoleOf(voterType), [0]))), Some("survey"))
  }

  function VoteOfRow(tx: string, voterType: VoterType, id: string): Vote {
    Vote(tx, voterType, id, None, None, None, Bare(ResponseOf(RoleOf(voterType), [0])),
         None, None, None, None, None, None, None)
  }

  function EntryOf(role: Role, id: string, action: string): VoteEntry {
    VoteEntry(Some(Identity(role, id)), Some(ActionId(action, 0)))
  }

  /** All that is known are the entries of two transactions. */
  function TwoTransactions(first: seq<VoteEntry>, second: seq<VoteEntry>): World {
    World(map["tx1" := TxInfo(Some(7), Some(0), Some(first)), "tx2" := TxInfo(Some(8), Some(0), Some(second))],
          map[], map[], map[], map[], map[])
  }

  lemma RowIsSelected(tx: string, voterType: VoterType, id: string)
    requires voterType != CcVoter && id != ""
    ensures SelectVotes([Row(tx, voterType, id)], "survey") == [VoteOfRow(tx, voterType, id)]
  {
  }

  lemma TwoServed(o: World, a: OnchainVote, b: OnchainVote, u: Vote, v: Vote)
    requires SelectVotes([a], "survey") == [u] && SelectVotes([b], "survey") == [v]
    ensures var l := TwoRoles(CredentialBased);
            && Served(o, l, 400, [a, b]) == [ProvisionalResponse(o, l, 400, u), ProvisionalResponse(o, l, 400, v)]
            && ServedTally(o, l, [a, b], Epochs(400, 400)) ==
               TallyOf(ProvisionalSetting(l, 400), Served(o, l, 400, [a, b]))
  {
    hide TallyOf, ProvisionalVote, EnrichedVote, SelectVotes, ServedTally, Served;
    ServedBefore(o, TwoRoles(CredentialBased), [a, b], Epochs(400, 400));
    PairIsServed(o, TwoRoles(CredentialBased), 400, a, b, u, v);
  }

  lemma RowIsAccepted(o: World, tx: string, voterType: VoterType, id: string)
    requires voterType != CcVoter && tx != "survey"
    ensures IsAccepted(o, TwoRoles(CredentialBased), 400, VoteOfRow(tx, voterType, id))
  {
    var l := TwoRoles(CredentialBased);
    var v := VoteOfRow(tx, voterType, id);
    var served := ProvisionalResponse(o, l, 400, v);
    assert served.payload == v.payload && served.txHash == tx && served.voterType == voterType
      && served.responseEpoch == None;
    assert GoodAnswer(l.survey.questions, v.payload.response.answers[0]);
    assert ModeOf(l.weighting, RoleOf(voterType)).Some?;
  }

  /** Two pools with one signer are one responder before the tally is final. */
  lemma PoolsWithOneSigner(o: World, tx: string, x: string, y: string)
    requires x != "" && y != "" && tx != "survey"
    requires Signer(o, VoteOfRow(tx, SpoVoter, x)) == Signer(o, VoteOfRow(tx, SpoVoter, y))
    ensures var t :=
            ServedTally(o, TwoRoles(CredentialBased), [Row(tx, SpoVoter, x), Row(tx, SpoVoter, y)], Epochs(400, 400));
            t.phase == Provisional && t.totals.totalSeen == 2 && t.totals.uniqueResponders == 1
  {
    var l, u, v := TwoRoles(CredentialBased), VoteOfRow(tx, SpoVoter, x), VoteOfRow(tx, SpoVoter, y);
    RowIsSelected(tx, SpoVoter, x);
    RowIsSelected(tx, SpoVoter, y);
    RowIsAccepted(o, tx, SpoVoter, x);
    RowIsAccepted(o, tx, SpoVoter, y);
    KeyIsSigner(o, l, 400, u);
    KeyIsSigner(o, l, 400, v);
    hide Accepts, KeyOf, ProvisionalResponse, Row, Signer, ServedTally, SelectVotes, Served;
    TwoServed(o, Row(tx, SpoVoter, x), Row(tx, SpoVoter, y), u, v);
    OneKeyInOneRole(ProvisionalSetting(l, 400), ProvisionalResponse(o, l, 400, u), ProvisionalResponse(o, l, 400, v),
                    RoleMode(DRep, CredentialBased), CredentialBased);
  }

  /** One transaction votes on the action for two pools. */
  function TwoPools(): World {
    TwoTransactions([EntryOf(SPO, "pool1", "action"), EntryOf(SPO, "pool2", "action")], [])
  }

  lemma TwoPoolsCountAsOne()
    ensures var rows := [Row("tx1", SpoVoter, "pool1"), Row("tx1", SpoVoter, "pool2")];
            var t := ServedTally(TwoPools(), TwoRoles(CredentialBased), rows, Epochs(400, 400));
            t.phase == Provisional && t.totals.totalSeen == 2 && t.totals.uniqueResponders == 1
  {
    var o := TwoPools();
    assert Signer(o, VoteOfRow("tx1", SpoVoter, "pool1")) == Signer(o, VoteOfRow("tx1", SpoVoter, "pool2")) == "pool1";
    assert "tx1" != "survey";
    hide TwoPools, Row, VoteOfRow, Signer, ServedTally;
    PoolsWithOneSigner(o, "tx1", "pool1", "pool2");
  }

  /** A DRep and a pool with one signer are two unique responders with one voter key. */
  lemma RolesWithOneSigner(o: World, tx1: string, x: string, tx2: string, y: string)
    requires x != "" && y != "" && tx1 != "survey" && tx2 != "survey"
    requires Signer(o, VoteOfRow(tx1, DrepVoter, x)) == Signer(o, VoteOfRow(tx2, SpoVoter, y))
    ensures var l, rows := TwoRoles(CredentialBased), [Row(tx1, DrepVoter, x), Row(tx2, SpoVoter, y)];
            var t := ServedTally(o, l, rows, Epochs(400, 400));
            && t.phase == Provisional && t.totals.uniqueResponders == 2
            && |Keys(AllAccepted(ProvisionalSetting(l, 400), Served(o, l, 400, rows)))| == 1
  {
    var l, u, v := TwoRoles(CredentialBased), VoteOfRow(tx1, DrepVoter, x), VoteOfRow(tx2, SpoVoter, y);
    RowIsSelected(tx1, DrepVoter, x);
    RowIsSelected(tx2, SpoVoter, y);
    RowIsAccepted(o, tx1, DrepVoter, x);
    RowIsAccepted(o, tx2, SpoVoter, y);
    KeyIsSigner(o, l, 400, u);
    KeyIsSigner(o, l, 400, v);
    hide Accepts, KeyOf, ProvisionalResponse, Row, Signer, ServedTally, SelectVotes, Served, Keys, AllAccepted;
    TwoServed(o, Row(tx1, DrepVoter, x), Row(tx2, SpoVoter, y), u, v);
    OneKeyInTwoRoles(ProvisionalSetting(l, 400), ProvisionalResponse(o, l, 400, u), ProvisionalResponse(o, l, 400, v),
                     CredentialBased, CredentialBased);
  }

  /** A DRep votes on the action, and on another one in the transaction in which a pool does. */
  function DrepBeforePool(): World {
    TwoTransactions([EntryOf(DRep, "drep", "action")], [EntryOf(DRep, "drep", "other"), EntryOf(SPO, "pool", "action")])
  }

  lemma TwoRolesShareAKey()
    ensures var o, l, rows :=
            DrepBeforePool(), TwoRoles(CredentialBased), [Row("tx1", DrepVoter, "drep"), Row("tx2", SpoVoter, "pool")];
            var t := ServedTally(o, l, rows, Epochs(400, 400));
            && t.phase == Provisional && t.totals.uniqueResponders == 2
            && |Keys(AllAccepted(ProvisionalSetting(l, 400), Served(o, l, 400, rows)))| == 1
  {
    var o := DrepBeforePool();
    assert Signer(o, VoteOfRow("tx1", DrepVoter, "drep")) == Signer(o, VoteOfRow("tx2", SpoVoter, "pool")) == "drep";
    assert "tx1" != "survey" && "tx2" != "survey";
    hide DrepBeforePool, Row, VoteOfRow, Signer, ServedTally, Served, AllAccepted, Keys;
    RolesWithOneSigner(o, "tx1", "drep", "tx2", "pool");
  }

  /** With one response its readiness decides. */
  lemma PhaseOfOne(o: World, l: Linked, rows: seq<OnchainVote>, v: Vote, e: Epochs)
    requires SelectVotes(rows, l.surveyTxId) == [v] && e.current >= l.survey.endEpoch
    ensures ServedTally(o, l, rows, e).phase == if Ready(o, l, e.again, v) then Finalized else FinalizationPending
  {
    hide Ready, SelectVotes, ServedTally;
    PhaseIff(o, l, rows, e);
    AllReadyIff(o, l, rows, e.again);
    assert SelectVotes(rows, l.surveyTxId)[0] == v;
  }

  function PledgedPool(): World {
    TwoTransactions([EntryOf(SPO, "pool", "action")], []).(livePledge := map["pool" := 5.0])
  }

  lemma PledgeReadiness(again: int)
    ensures Ready(PledgedPool(), TwoRoles(PledgeBased), again, VoteOfRow("tx1", SpoVoter, "pool")) <==> again == 500
  {
    EntriesIff(PledgedPool(), "tx1");
    assert ModeOf(TwoRoles(PledgeBased).weighting, SPO) == Some(PledgeBased);
  }

  /** A pool's pledge-based response that its transaction proves: final in the end epoch 500,
      pending in 501. */
  lemma PledgeStaysPending()
    ensures var o, l, rows := PledgedPool(), TwoRoles(PledgeBased), [Row("tx1", SpoVoter, "pool")];
            && ServedTally(o, l, rows, Epochs(500, 500)).phase == Finalized
            && ServedTally(o, l, rows, Epochs(501, 501)).phase == FinalizationPending
  {
    var o, l, rows := PledgedPool(), TwoRoles(PledgeBased), [Row("tx1", SpoVoter, "pool")];
    var v := VoteOfRow("tx1", SpoVoter, "pool");
    RowIsSelected("tx1", SpoVoter, "pool");
    PledgeReadiness(500);
    PledgeReadiness(501);
    assert l.survey.endEpoch == 500 && l.surveyTxId == "survey";
    hide *;
    PhaseOfOne(o, l, rows, v, Epochs(500, 500));
    PhaseOfOne(o, l, rows, v, Epochs(501, 501));
  }

  // ----- what is read

  /** No stored response is wrapped in the label: ingestion stores the extracted response. */
  ghost predicate StoredUnwrapped(rows: seq<OnchainVote>) {
    forall i :: 0 <= i < |rows| && rows[i].surveyResponse.Some? ==> !rows[i].surveyResponse.value.Label17?
  }

  lemma {:induction false} SelectedUnwrapped(rows: seq<OnchainVote>, surveyTxId: string)
    requires StoredUnwrapped(rows)
    ensures NoneUnderLabel(SelectVotes(rows, surveyTxId))
  {
    if rows == [] {
    } else {
      assert forall i :: 0 <= i < |rows| - 1 ==> rows[1..][i] == rows[i + 1];
      SelectedUnwrapped(rows[1..], surveyTxId);
    }
  }

  lemma ServedUnwrapped(o: World, l: Linked, rows: seq<OnchainVote>, e: Epochs)
    requires StoredUnwrapped(rows)
    ensures NoneUnderLabel(ProvisionalVotes(o, l.weighting, e.current, Responses(o, l, rows)))
    ensures NoneUnderLabel(FinalResponses(o, l, rows, e))
  {
    SelectedUnwrapped(rows, l.surveyTxId);
    var selected := SelectVotes(rows, l.surveyTxId);
    var provisional, final :=
      ProvisionalVotes(o, l.weighting, e.current, Responses(o, l, rows)), FinalResponses(o, l, rows, e);
    forall i | 0 <= i < |selected|
      ensures provisional[i].payload == final[i].payload == selected[i].payload && selected[i] in selected
    {
    }
  }

  /** From such rows every phase serves empty results, in every role and for every question. */
  lemma ServedResultsAreEmpty(o: World, l: Linked, rows: seq<OnchainVote>, e: Epochs, r: nat, j: nat)
    requires StoredUnwrapped(rows) && r < |l.weighting| && j < |l.survey.questions|
    ensures var t := ServedTally(o, l, rows, e);
            && r < |t.roleResults| && j < |t.roleResults[r].results|
            && ResultIn(t, r, j) == EmptyResult(l.survey.questions[j])
  {
    ServedUnwrapped(o, l, rows, e);
    var provisional := ProvisionalVotes(o, l.weighting, e.current, Responses(o, l, rows));
    UnlabelledTally(SettingFor(l, Provisional, e.current, {}), provisional, r, j);
    UnlabelledTally(SettingFor(l, FinalizationPending, e.current, PendingIn(FinalResponses(o, l, rows, e))),
                    provisional, r, j);
    UnlabelledTally(SettingFor(l, Finalized, e.current, {}), FinalResponses(o, l, rows, e), r, j);
  }
}
