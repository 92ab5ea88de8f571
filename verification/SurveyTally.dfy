/** The tally of a survey: `buildSurveyTally` in src/libs/surveyMetadata.ts. */
module SurveyTally {
  import opened Common
  import opened SurveyTypes
  import opened SurveyValidation
  import opened SurveyDedupe
  import opened SurveyResults

  datatype Phase = Provisional | FinalizationPending | Finalized

  /** The arguments of one tally, apart from the votes. */
  datatype Setting = Setting(
    surveyTxId: string, survey: Survey, weighting: Weighting, phase: Phase, asOfEpoch: int, finalizationEpoch: int,
    warnings: set<Problem>, enforceEvidence: bool)

  datatype Totals = Totals(totalSeen: nat, valid: nat, invalid: nat, deduped: nat, uniqueResponders: nat)

  datatype RoleResult = RoleResult(role: Role, mode: Mode, totals: Totals, results: seq<QuestionResult>)

  datatype Tally = Tally(
    surveyTxId: string, phase: Phase, asOfEpoch: int, finalizationEpoch: int, totals: Totals,
    roleResults: seq<RoleResult>, errors: set<Problem>, warnings: set<Problem>)

  // ----- what is counted

  function ContextOf(s: Setting, v: Vote): Context {
    Context(RoleOf(v.voterType), s.surveyTxId, v.responseEpoch, s.weighting, v.txHash,
            if s.enforceEvidence then v.evidence else None)
  }

  ghost predicate Accepts(s: Setting, v: Vote) {
    ValidResponse(v.payload, Some(s.survey), ContextOf(s, v))
  }

  /** The validated votes of a role, in order. */
  ghost function Accepted(s: Setting, votes: seq<Vote>, role: Role): seq<Vote> {
    if votes == [] then []
    else
      var v := votes[|votes| - 1];
      Accepted(s, votes[..|votes| - 1], role) + if RoleOf(v.voterType) == role && Accepts(s, v) then [v] else []
  }

  ghost function SeenIn(votes: seq<Vote>, role: Role): nat {
    if votes == [] then 0
    else SeenIn(votes[..|votes| - 1], role) + if RoleOf(votes[|votes| - 1].voterType) == role then 1 else 0
  }

  ghost function RejectedIn(s: Setting, votes: seq<Vote>, role: Role): nat {
    if votes == [] then 0
    else
      var v := votes[|votes| - 1];
      RejectedIn(s, votes[..|votes| - 1], role) + if RoleOf(v.voterType) == role && !Accepts(s, v) then 1 else 0
  }

  ghost function Rejected(s: Setting, votes: seq<Vote>): nat {
    if votes == [] then 0
    else Rejected(s, votes[..|votes| - 1]) + if Accepts(s, votes[|votes| - 1]) then 0 else 1
  }

  /** The votes that a role's results are computed from. */
  ghost function CountedVotes(s: Setting, votes: seq<Vote>, role: Role): seq<Vote> {
    Deduped(Accepted(s, votes, role))
  }

  ghost function RoleResultOf(s: Setting, votes: seq<Vote>, rm: RoleMode): RoleResult {
    var accepted, counted := |Accepted(s, votes, rm.role)|, |CountedVotes(s, votes, rm.role)|;
    RoleResult(rm.role, rm.mode,
               Totals(SeenIn(votes, rm.role), counted,
                      RejectedIn(s, votes, rm.role) + SuperfluousIn(s, votes, rm.role),
                      SuperfluousIn(s, votes, rm.role), counted),
               ResultsOf(rm.mode, s.survey.questions, CountedVotes(s, votes, rm.role)))
  }

  /** How many validated votes of a role a later vote has replaced. */
  ghost function SuperfluousIn(s: Setting, votes: seq<Vote>, role: Role): nat {
    DedupedKeepsLatest(Accepted(s, votes, role));
    NotMoreKept(Accepted(s, votes, role));
    |Accepted(s, votes, role)| - |CountedVotes(s, votes, role)|
  }

  lemma {:induction false} NotMoreKept(votes: seq<Vote>)
    ensures |Deduped(votes)| <= |votes|
  {
    if votes == [] {
    } else {
      NotMoreKept(votes[..|votes| - 1]);
      OfferSize(Deduped(votes[..|votes| - 1]), votes[|votes| - 1]);
    }
  }

  lemma {:induction false} OfferSize(kept: seq<Vote>, v: Vote)
    ensures |kept| <= |Offer(kept, v)| <= |kept| + 1
    decreases |kept|
  {
    if kept != [] && KeyOf(kept[0]) != KeyOf(v) {
      OfferSize(kept[1..], v);
    }
  }

  ghost function RoleResultsOf(s: Setting, votes: seq<Vote>, w: Weighting): seq<RoleResult> {
    if w == [] then [] else RoleResultsOf(s, votes, w[..|w| - 1]) + [RoleResultOf(s, votes, w[|w| - 1])]
  }

  ghost function ValidTotal(s: Setting, votes: seq<Vote>, w: Weighting): nat {
    if w == [] then 0 else ValidTotal(s, votes, w[..|w| - 1]) + |CountedVotes(s, votes, w[|w| - 1].role)|
  }

  ghost function DedupedTotal(s: Setting, votes: seq<Vote>, w: Weighting): nat {
    if w == [] then 0 else DedupedTotal(s, votes, w[..|w| - 1]) + SuperfluousIn(s, votes, w[|w| - 1].role)
  }

  /** What a role's weights complain about. */
  ghost function RoleProblems(s: Setting, votes: seq<Vote>, rm: RoleMode): set<Problem> {
    AllProblems(rm.role, rm.mode, s.survey.questions, CountedVotes(s, votes, rm.role))
  }

  ghost function ErrorsOf(s: Setting, votes: seq<Vote>, w: Weighting): set<Problem> {
    if w == [] then {} else ErrorsOf(s, votes, w[..|w| - 1]) + RoleProblems(s, votes, w[|w| - 1])
  }

  /** The unique responders of all roles together. */
  ghost function Responders(results: seq<RoleResult>): nat {
    if results == [] then 0
    else Responders(results[..|results| - 1]) + results[|results| - 1].totals.uniqueResponders
  }

  /** The whole tally, from filters, the deduplication, counts and sums. */
  ghost function TallyOf(s: Setting, votes: seq<Vote>): Tally {
    var valid, deduped := ValidTotal(s, votes, s.weighting), DedupedTotal(s, votes, s.weighting);
    var roleResults := RoleResultsOf(s, votes, s.weighting);
    Tally(s.surveyTxId, s.phase, s.asOfEpoch, s.finalizationEpoch,
          Totals(|votes|, valid, Rejected(s, votes) + deduped, deduped, Responders(roleResults)),
          roleResults, ErrorsOf(s, votes, s.weighting), s.warnings)
  }

  // ----- the loops

  datatype RoleStats = RoleStats(totalSeen: nat, invalidValidation: nat)

  function Filed(groups: map<Role, seq<Vote>>, role: Role): seq<Vote> {
    if role in groups then groups[role] else []
  }

  function StatsOf(stats: map<Role, RoleStats>, role: Role): RoleStats {
    if role in stats then stats[role] else RoleStats(0, 0)
  }

  ghost predicate GroupsAre(s: Setting, votes: seq<Vote>, groups: map<Role, seq<Vote>>) {
    forall r :: Filed(groups, r) == Accepted(s, votes, r)
  }

  /** Statistics are kept for the roles that have a weighting mode. */
  ghost predicate StatsAre(s: Setting, votes: seq<Vote>, stats: map<Role, RoleStats>) {
    forall r :: ModeOf(s.weighting, r).Some? ==>
      StatsOf(stats, r) == RoleStats(SeenIn(votes, r), RejectedIn(s, votes, r))
  }

  lemma VoteStep(s: Setting, votes: seq<Vote>, i: nat, role: Role)
    requires i < |votes|
    ensures var v, init, more := votes[i], votes[..i], votes[..i + 1];
            && Accepted(s, more, role) ==
               Accepted(s, init, role) + (if RoleOf(v.voterType) == role && Accepts(s, v) then [v] else [])
            && SeenIn(more, role) == SeenIn(init, role) + (if RoleOf(v.voterType) == role then 1 else 0)
            && RejectedIn(s, more, role) ==
               RejectedIn(s, init, role) + (if RoleOf(v.voterType) == role && !Accepts(s, v) then 1 else 0)
            && Rejected(s, more) == Rejected(s, init) + if Accepts(s, v) then 0 else 1
  {
    assert votes[..i + 1][..i] == votes[..i];
  }

  ghost predicate FiledAfter(s: Setting, v: Vote, groups: map<Role, seq<Vote>>, groups': map<Role, seq<Vote>>) {
    forall r :: Filed(groups', r) == Filed(groups, r) + if RoleOf(v.voterType) == r && Accepts(s, v) then [v] else []
  }

  ghost predicate StatsAfter(s: Setting, v: Vote, stats: map<Role, RoleStats>, stats': map<Role, RoleStats>) {
    forall r :: ModeOf(s.weighting, r).Some? ==>
      var before := StatsOf(stats, r);
      StatsOf(stats', r) == if RoleOf(v.voterType) != r then before
                            else RoleStats(before.totalSeen + 1,
                                           before.invalidValidation + if Accepts(s, v) then 0 else 1)
  }

  lemma GroupsStep(s: Setting, votes: seq<Vote>, i: nat, groups: map<Role, seq<Vote>>, groups': map<Role, seq<Vote>>)
    requires i < |votes| && GroupsAre(s, votes[..i], groups) && FiledAfter(s, votes[i], groups, groups')
    ensures GroupsAre(s, votes[..i + 1], groups')
  {
    forall r
      ensures Filed(groups', r) == Accepted(s, votes[..i + 1], r)
    {
      VoteStep(s, votes, i, r);
      assert Filed(groups, r) == Accepted(s, votes[..i], r);
    }
  }

  lemma StatsStep(s: Setting, votes: seq<Vote>, i: nat, stats: map<Role, RoleStats>, stats': map<Role, RoleStats>)
    requires i < |votes| && StatsAre(s, votes[..i], stats) && StatsAfter(s, votes[i], stats, stats')
    ensures StatsAre(s, votes[..i + 1], stats')
  {
    forall r | ModeOf(s.weighting, r).Some?
      ensures StatsOf(stats', r) == RoleStats(SeenIn(votes[..i + 1], r), RejectedIn(s, votes[..i + 1], r))
    {
      VoteStep(s, votes, i, r);
      assert StatsOf(stats, r) == RoleStats(SeenIn(votes[..i], r), RejectedIn(s, votes[..i], r));
    }
  }

  /** One turn of the first loop. */
  method FileVote(s: Setting, vote: Vote, groups: map<Role, seq<Vote>>, stats: map<Role, RoleStats>)
    returns (groups': map<Role, seq<Vote>>, stats': map<Role, RoleStats>, invalid: bool)
    ensures invalid <==> !Accepts(s, vote)
    ensures FiledAfter(s, vote, groups, groups') && StatsAfter(s, vote, stats, stats')
  {
    groups', stats' := groups, stats;
    var role := RoleOf(vote.voterType);
    if ModeOf(s.weighting, role).Some? {
      var current := if role in stats then stats[role] else RoleStats(0, 0);
      stats' := stats'[role := current.(totalSeen := current.totalSeen + 1)];
    }
    var errors := ValidateSurveyResponse(vote.payload, Some(s.survey), ContextOf(s, vote));
    invalid := |errors| > 0;
    if invalid {
      if role in stats' {
        var current := stats'[role];
        stats' := stats'[role := current.(invalidValidation := current.invalidValidation + 1)];
      }
      return;
    }
    var roleVotes := if role in groups then groups[role] else [];
    groups' := groups[role := roleVotes + [vote]];
  }

  /** The first loop: every vote is validated and filed under its role. */
  method GroupVotes(s: Setting, votes: seq<Vote>)
    returns (groups: map<Role, seq<Vote>>, stats: map<Role, RoleStats>, totalInvalid: nat)
    ensures GroupsAre(s, votes, groups) && StatsAre(s, votes, stats) && totalInvalid == Rejected(s, votes)
  {
    groups, stats, totalInvalid := map[], map[], 0;
    for i := 0 to |votes|
      invariant GroupsAre(s, votes[..i], groups) && StatsAre(s, votes[..i], stats)
                && totalInvalid == Rejected(s, votes[..i])
    {
      var groups', stats', invalid := FileVote(s, votes[i], groups, stats);
      GroupsStep(s, votes, i, groups, groups');
      StatsStep(s, votes, i, stats, stats');
      VoteStep(s, votes, i, DRep);
      groups, stats := groups', stats';
      if invalid {
        totalInvalid := totalInvalid + 1;
      }
    }
    assert votes[..|votes|] == votes;
  }

  /** One turn of the second loop: a role's votes are deduplicated and weighed. */
  method TallyRole(s: Setting, ghost votes: seq<Vote>, groups: map<Role, seq<Vote>>, stats: map<Role, RoleStats>,
                   i: nat)
    returns (r: RoleResult, problems: set<Problem>)
    requires DistinctRoles(s.weighting) && i < |s.weighting|
    requires GroupsAre(s, votes, groups) && StatsAre(s, votes, stats)
    ensures r == RoleResultOf(s, votes, s.weighting[i]) && problems == RoleProblems(s, votes, s.weighting[i])
  {
    hide Accepted, Deduped, SeenIn, RejectedIn, ModeOf, ResultsOf, AllProblems;
    var role, mode := s.weighting[i].role, s.weighting[i].mode;
    ModeIsFound(s.weighting, i);
    RoleSeen(s, votes, role);
    var roleVotes := if role in groups then groups[role] else [];
    assert roleVotes == Filed(groups, role);
    var deduped := DedupeVotes(roleVotes);
    NotMoreKept(roleVotes);
    var invalid: nat := |roleVotes| - |deduped|;
    var current := if role in stats then stats[role] else RoleStats(|roleVotes|, 0);
    assert role in stats ==> current == StatsOf(stats, role);
    var results;
    results, problems := BuildMethodResults(role, mode, s.survey.questions, deduped);
    r := RoleResult(role, mode,
                    Totals(current.totalSeen, |deduped|, current.invalidValidation + invalid, invalid, |deduped|),
                    results);
  }

  method BuildSurveyTally(s: Setting, votes: seq<Vote>) returns (tally: Tally)
    requires DistinctRoles(s.weighting)
    ensures tally == TallyOf(s, votes)
  {
    hide RoleResultOf, RoleProblems;
    var groups, stats, totalInvalid := GroupVotes(s, votes);
    var roleResults: seq<RoleResult>, errors: set<Problem> := [], {};
    var totalValid, totalDeduped := 0, 0;
    ghost var w := s.weighting;
    for i := 0 to |s.weighting|
      invariant roleResults == RoleResultsOf(s, votes, w[..i]) && errors == ErrorsOf(s, votes, w[..i])
      invariant totalValid == ValidTotal(s, votes, w[..i]) && totalDeduped == DedupedTotal(s, votes, w[..i])
    {
      RoleStep(s, votes, i);
      var r, problems := TallyRole(s, votes, groups, stats, i);
      totalDeduped := totalDeduped + r.totals.deduped;
      totalValid := totalValid + r.totals.valid;
      errors := errors + problems;
      roleResults := roleResults + [r];
    }
    assert w[..|w|] == w;
    var uniqueResponders := SumResponders(roleResults);
    tally := Tally(s.surveyTxId, s.phase, s.asOfEpoch, s.finalizationEpoch,
                   Totals(|votes|, totalValid, totalInvalid + totalDeduped, totalDeduped, uniqueResponders),
                   roleResults, errors, s.warnings);
  }

  /** The `reduce` over the role results. */
  method SumResponders(roleResults: seq<RoleResult>) returns (count: nat)
    ensures count == Responders(roleResults)
  {
    count := 0;
    for i := 0 to |roleResults|
      invariant count == Responders(roleResults[..i])
    {
      assert roleResults[..i + 1][..i] == roleResults[..i];
      count := count + roleResults[i].totals.uniqueResponders;
    }
    assert roleResults[..|roleResults|] == roleResults;
  }

  lemma RoleStep(s: Setting, votes: seq<Vote>, i: nat)
    requires i < |s.weighting|
    ensures var rm, init, more := s.weighting[i], s.weighting[..i], s.weighting[..i + 1];
            && RoleResultsOf(s, votes, more) == RoleResultsOf(s, votes, init) + [RoleResultOf(s, votes, rm)]
            && ErrorsOf(s, votes, more) == ErrorsOf(s, votes, init) + RoleProblems(s, votes, rm)
            && ValidTotal(s, votes, more) == ValidTotal(s, votes, init) + RoleResultOf(s, votes, rm).totals.valid
            && DedupedTotal(s, votes, more) == DedupedTotal(s, votes, init) + RoleResultOf(s, votes, rm).totals.deduped
  {
    assert s.weighting[..i + 1][..i] == s.weighting[..i];
  }

  lemma {:induction false} ModeIsFound(w: Weighting, i: nat)
    requires DistinctRoles(w) && i < |w|
    ensures ModeOf(w, w[i].role) == Some(w[i].mode)
    decreases |w|
  {
    if i > 0 {
      ModeIsFound(w[1..], i - 1);
    }
  }

  lemma {:induction false} RoleIsFound(w: Weighting, role: Role)
    ensures ModeOf(w, role).Some? <==> exists i :: 0 <= i < |w| && w[i].role == role
    decreases |w|
  {
    if w == [] {
    } else {
      RoleIsFound(w[1..], role);
      if i :| 0 <= i < |w[1..]| && w[1..][i].role == role { assert w[i + 1].role == role; }
      if i :| 0 < i < |w| && w[i].role == role { assert w[1..][i - 1].role == role; }
    }
  }

  // ----- conservation

  /** Per role, every vote seen is counted, replaced, or rejected. */
  lemma {:induction false} RoleSeen(s: Setting, votes: seq<Vote>, role: Role)
    ensures SeenIn(votes, role) == |Accepted(s, votes, role)| + RejectedIn(s, votes, role)
  {
    if votes == [] {
    } else {
      RoleSeen(s, votes[..|votes| - 1], role);
    }
  }

  /** Validated votes, role by role. */
  ghost function AcceptedTotal(s: Setting, votes: seq<Vote>, w: Weighting): nat {
    if w == [] then 0 else AcceptedTotal(s, votes, w[..|w| - 1]) + |Accepted(s, votes, w[|w| - 1].role)|
  }

  lemma {:induction false} OneMoreVote(s: Setting, votes: seq<Vote>, v: Vote, w: Weighting)
    requires DistinctRoles(w)
    ensures AcceptedTotal(s, votes + [v], w) == AcceptedTotal(s, votes, w) +
            if Accepts(s, v) && exists i :: 0 <= i < |w| && w[i].role == RoleOf(v.voterType) then 1 else 0
  {
    if w == [] {
    } else {
      var init, last := w[..|w| - 1], w[|w| - 1];
      OneMoreVote(s, votes, v, init);
      assert (votes + [v])[..|votes|] == votes;
      var role := RoleOf(v.voterType);
      if i :| 0 <= i < |init| && init[i].role == role { assert w[i].role == role && last.role != role; }
      if i :| 0 <= i < |w| && w[i].role == role { assert i < |init| ==> init[i].role == role; }
      if last.role == role { assert w[|w| - 1].role == role; }
    }
  }

  /** Validation rejects every vote whose role has no weighting mode, so the roles account for
      all validated votes. */
  lemma {:induction false} NoVoteIsLost(s: Setting, votes: seq<Vote>)
    requires DistinctRoles(s.weighting)
    ensures |votes| == AcceptedTotal(s, votes, s.weighting) + Rejected(s, votes)
  {
    if votes == [] {
      NothingAccepted(s, s.weighting);
    } else {
      var init, v := votes[..|votes| - 1], votes[|votes| - 1];
      NoVoteIsLost(s, init);
      OneMoreVote(s, init, v, s.weighting);
      RoleIsFound(s.weighting, RoleOf(v.voterType));
      assert init + [v] == votes;
    }
  }

  lemma {:induction false} NothingAccepted(s: Setting, w: Weighting)
    ensures AcceptedTotal(s, [], w) == 0
  {
    if w == [] {
    } else {
      NothingAccepted(s, w[..|w| - 1]);
    }
  }

  lemma {:induction false} KeptAndReplaced(s: Setting, votes: seq<Vote>, w: Weighting)
    ensures ValidTotal(s, votes, w) + DedupedTotal(s, votes, w) == AcceptedTotal(s, votes, w)
  {
    if w == [] {
    } else {
      KeptAndReplaced(s, votes, w[..|w| - 1]);
    }
  }

  /** The distinct voter keys of each role's validated votes, added up over the roles. */
  ghost function KeysPerRole(s: Setting, votes: seq<Vote>, w: Weighting): nat {
    if w == [] then 0 else KeysPerRole(s, votes, w[..|w| - 1]) + |Keys(Accepted(s, votes, w[|w| - 1].role))|
  }

  lemma {:induction false} RespondersAreKeys(s: Setting, votes: seq<Vote>, w: Weighting)
    ensures Responders(RoleResultsOf(s, votes, w)) == KeysPerRole(s, votes, w) == ValidTotal(s, votes, w)
  {
    if w == [] {
    } else {
      var init, rm := w[..|w| - 1], w[|w| - 1];
      RespondersAreKeys(s, votes, init);
      OneVotePerVoter(Accepted(s, votes, rm.role));
      assert RoleResultsOf(s, votes, w)[..|RoleResultsOf(s, votes, init)|] == RoleResultsOf(s, votes, init);
    }
  }

  /** Overall, every vote seen is counted or invalid; replaced votes are among the invalid. */
  lemma VotesAreConserved(s: Setting, votes: seq<Vote>)
    requires DistinctRoles(s.weighting)
    ensures var t := TallyOf(s, votes).totals;
            && t.totalSeen == |votes| == t.valid + t.invalid
            && t.deduped <= t.invalid
            && t.uniqueResponders == t.valid == KeysPerRole(s, votes, s.weighting)
  {
    NoVoteIsLost(s, votes);
    KeptAndReplaced(s, votes, s.weighting);
    RespondersAreKeys(s, votes, s.weighting);
  }

  function OfRole(role: Role): Vote -> bool {
    (v: Vote) => RoleOf(v.voterType) == role
  }

  lemma {:induction false} SeenAreVotes(votes: seq<Vote>, role: Role)
    ensures SeenIn(votes, role) == |Places(votes, OfRole(role))|
  {
    if votes == [] {
      NoPlaces(OfRole(role));
    } else {
      var init, last := votes[..|votes| - 1], votes[|votes| - 1];
      SeenAreVotes(init, role);
      PlacesSnoc(init, last, OfRole(role));
      assert votes == init + [last];
    }
  }

  /** The same for each role: all its votes are seen, one per voter key is counted, and the others
      that were validated are deduplicated. */
  lemma RoleVotesAreConserved(s: Setting, votes: seq<Vote>, i: nat)
    requires i < |s.weighting|
    ensures |TallyOf(s, votes).roleResults| == |s.weighting|
    ensures var r, role := TallyOf(s, votes).roleResults[i], s.weighting[i].role;
            && r.role == role && r.mode == s.weighting[i].mode
            && r.totals.totalSeen == |Places(votes, OfRole(role))| == r.totals.valid + r.totals.invalid
            && r.totals.deduped == |Accepted(s, votes, role)| - |Keys(Accepted(s, votes, role))| <= r.totals.invalid
            && r.totals.uniqueResponders == r.totals.valid == |Keys(Accepted(s, votes, role))|
  {
    RoleResultAt(s, votes, s.weighting, i);
    RoleSeen(s, votes, s.weighting[i].role);
    SeenAreVotes(votes, s.weighting[i].role);
    OneVotePerVoter(Accepted(s, votes, s.weighting[i].role));
  }

  lemma {:induction false} RoleResultAt(s: Setting, votes: seq<Vote>, w: Weighting, i: nat)
    requires i < |w|
    ensures |RoleResultsOf(s, votes, w)| == |w| && RoleResultsOf(s, votes, w)[i] == RoleResultOf(s, votes, w[i])
  {
    if i < |w| - 1 {
      RoleResultAt(s, votes, w[..|w| - 1], i);
    } else {
      RoleResultsSize(s, votes, w);
    }
  }

  lemma {:induction false} RoleResultsSize(s: Setting, votes: seq<Vote>, w: Weighting)
    ensures |RoleResultsOf(s, votes, w)| == |w|
  {
    if w == [] {
    } else {
      RoleResultsSize(s, votes, w[..|w| - 1]);
    }
  }
}
