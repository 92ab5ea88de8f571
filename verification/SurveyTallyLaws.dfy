/** What a survey's tally promises as a whole: it depends on the votes and not on their order,
    a re-vote counts once, and each role's results account for the votes counted. */
module SurveyTallyLaws {
  import opened Common
  import opened Sums
  import opened SurveyTypes
  import opened SurveyValidation
  import opened SurveyDedupe
  import opened SurveyResults
  import opened SurveyResultLaws
  import opened SurveyTally

  // ----- the order of the votes

  lemma {:induction false} AcceptedCount(s: Setting, votes: seq<Vote>, role: Role, v: Vote)
    ensures multiset(Accepted(s, votes, role))[v] ==
            if RoleOf(v.voterType) == role && Accepts(s, v) then multiset(votes)[v] else 0
  {
    hide Accepts;
    if votes == [] {
    } else {
      var init, last := votes[..|votes| - 1], votes[|votes| - 1];
      AcceptedCount(s, init, role, v);
      assert votes == init + [last];
    }
  }

  lemma AcceptedPermutation(s: Setting, votes: seq<Vote>, other: seq<Vote>, role: Role)
    requires multiset(votes) == multiset(other)
    ensures multiset(Accepted(s, votes, role)) == multiset(Accepted(s, other, role))
    ensures |Accepted(s, votes, role)| == |Accepted(s, other, role)|
  {
    var a, b := Accepted(s, votes, role), Accepted(s, other, role);
    forall v
      ensures multiset(a)[v] == multiset(b)[v]
    {
      AcceptedCount(s, votes, role, v);
      AcceptedCount(s, other, role, v);
    }
    assert multiset(a) == multiset(b);
    assert |a| == |multiset(a)| == |multiset(b)| == |b|;
  }

  function OneIf(role: Role): Vote -> real {
    (v: Vote) => if RoleOf(v.voterType) == role then 1.0 else 0.0
  }

  lemma {:induction false} SeenIsSum(votes: seq<Vote>, role: Role)
    ensures SeenIn(votes, role) as real == Sum(votes, OneIf(role))
  {
    if votes == [] {
    } else {
      SeenIsSum(votes[..|votes| - 1], role);
    }
  }

  lemma SeenPermutation(s: Setting, votes: seq<Vote>, other: seq<Vote>, role: Role)
    requires multiset(votes) == multiset(other)
    ensures SeenIn(votes, role) == SeenIn(other, role) && RejectedIn(s, votes, role) == RejectedIn(s, other, role)
  {
    SeenIsSum(votes, role);
    SeenIsSum(other, role);
    SumPermutation(votes, other, OneIf(role));
    RoleSeen(s, votes, role);
    RoleSeen(s, other, role);
    AcceptedPermutation(s, votes, other, role);
  }

  /** No voter of a weighted role has two different accepted votes that compare equal at the top. */
  ghost predicate NoTies(s: Setting, votes: seq<Vote>, w: Weighting) {
    forall i :: 0 <= i < |w| ==> UniqueLatest(Accepted(s, votes, w[i].role))
  }

  lemma RolePermutation(s: Setting, votes: seq<Vote>, other: seq<Vote>, rm: RoleMode)
    requires multiset(votes) == multiset(other) && UniqueLatest(Accepted(s, votes, rm.role))
    ensures RoleResultOf(s, votes, rm) == RoleResultOf(s, other, rm)
    ensures RoleProblems(s, votes, rm) == RoleProblems(s, other, rm)
  {
    hide Accepted, Deduped, SeenIn, RejectedIn, ResultsOf, AllProblems, UniqueLatest;
    AcceptedPermutation(s, votes, other, rm.role);
    SeenPermutation(s, votes, other, rm.role);
    SameVotesKept(Accepted(s, votes, rm.role), Accepted(s, other, rm.role));
    var a, b := CountedVotes(s, votes, rm.role), CountedVotes(s, other, rm.role);
    assert |a| == |multiset(a)| == |multiset(b)| == |b|;
    ResultsPermutation(rm.mode, s.survey.questions, a, b);
    AllProblemsPermutation(rm.role, rm.mode, s.survey.questions, a, b);
  }

  lemma {:induction false} RolesPermutation(s: Setting, votes: seq<Vote>, other: seq<Vote>, w: Weighting)
    requires multiset(votes) == multiset(other) && NoTies(s, votes, w)
    ensures RoleResultsOf(s, votes, w) == RoleResultsOf(s, other, w) && ErrorsOf(s, votes, w) == ErrorsOf(s, other, w)
    ensures ValidTotal(s, votes, w) == ValidTotal(s, other, w) && DedupedTotal(s, votes, w) == DedupedTotal(s, other, w)
  {
    if w == [] {
    } else {
      var init, rm := w[..|w| - 1], w[|w| - 1];
      assert forall i :: 0 <= i < |init| ==> init[i] == w[i];
      RolesPermutation(s, votes, other, init);
      RolePermutation(s, votes, other, rm);
      assert RoleResultOf(s, votes, rm).totals == RoleResultOf(s, other, rm).totals;
    }
  }

  /** Every reordering of the votes gives the same tally: totals, results, errors and all. */
  lemma TallyPermutation(s: Setting, votes: seq<Vote>, other: seq<Vote>)
    requires DistinctRoles(s.weighting)
    requires multiset(votes) == multiset(other) && NoTies(s, votes, s.weighting)
    ensures TallyOf(s, votes) == TallyOf(s, other)
  {
    RolesPermutation(s, votes, other, s.weighting);
    NoVoteIsLost(s, votes);
    NoVoteIsLost(s, other);
    KeptAndReplaced(s, votes, s.weighting);
    KeptAndReplaced(s, other, s.weighting);
    assert |votes| == |multiset(votes)| == |multiset(other)| == |other|;
  }

  // ----- unique responders over all roles

  /** The validated votes, whatever their role. */
  ghost function AllAccepted(s: Setting, votes: seq<Vote>): seq<Vote> {
    if votes == [] then []
    else
      var v := votes[|votes| - 1];
      AllAccepted(s, votes[..|votes| - 1]) + if Accepts(s, v) then [v] else []
  }

  lemma {:induction false} AllAcceptedAre(s: Setting, votes: seq<Vote>, v: Vote)
    ensures v in AllAccepted(s, votes) <==> v in votes && Accepts(s, v)
  {
    hide Accepts;
    if votes == [] {
    } else {
      var init, last := votes[..|votes| - 1], votes[|votes| - 1];
      AllAcceptedAre(s, init, v);
      assert votes == init + [last];
    }
  }

  lemma {:induction false} AcceptedAre(s: Setting, votes: seq<Vote>, role: Role, v: Vote)
    ensures v in Accepted(s, votes, role) <==> v in votes && RoleOf(v.voterType) == role && Accepts(s, v)
  {
    hide Accepts;
    if votes == [] {
    } else {
      var init, last := votes[..|votes| - 1], votes[|votes| - 1];
      AcceptedAre(s, init, role, v);
      assert votes == init + [last];
    }
  }

  ghost function RoleKeys(s: Setting, votes: seq<Vote>, role: Role): set<string> {
    Keys(Accepted(s, votes, role))
  }

  ghost function RolesKeys(s: Setting, votes: seq<Vote>, w: Weighting): set<string> {
    if w == [] then {} else RolesKeys(s, votes, w[..|w| - 1]) + RoleKeys(s, votes, w[|w| - 1].role)
  }

  lemma {:induction false} RolesKeysAre(s: Setting, votes: seq<Vote>, w: Weighting, key: string)
    ensures key in RolesKeys(s, votes, w) <==> exists i :: 0 <= i < |w| && key in RoleKeys(s, votes, w[i].role)
  {
    hide RoleKeys;
    if w == [] {
    } else {
      var init := w[..|w| - 1];
      RolesKeysAre(s, votes, init, key);
      assert forall i :: 0 <= i < |init| ==> init[i] == w[i];
    }
  }

  /** Validation lets no vote through whose role is not weighted, so the roles have all keys. */
  lemma RolesHaveAllKeys(s: Setting, votes: seq<Vote>)
    ensures RolesKeys(s, votes, s.weighting) == Keys(AllAccepted(s, votes))
  {
    forall key
      ensures key in RolesKeys(s, votes, s.weighting) <==> key in Keys(AllAccepted(s, votes))
    {
      RolesKeysAre(s, votes, s.weighting, key);
      if i :| 0 <= i < |s.weighting| && key in RoleKeys(s, votes, s.weighting[i].role) {
        var v :| v in Accepted(s, votes, s.weighting[i].role) && KeyOf(v) == key;
        AcceptedAre(s, votes, s.weighting[i].role, v);
        AllAcceptedAre(s, votes, v);
      }
      if key in Keys(AllAccepted(s, votes)) {
        var v :| v in AllAccepted(s, votes) && KeyOf(v) == key;
        AllAcceptedAre(s, votes, v);
        RoleIsFound(s.weighting, RoleOf(v.voterType));
        var i :| 0 <= i < |s.weighting| && s.weighting[i].role == RoleOf(v.voterType);
        AcceptedAre(s, votes, s.weighting[i].role, v);
        assert key in RoleKeys(s, votes, s.weighting[i].role);
      }
    }
  }

  /** No voter key has validated votes in two weighted roles. */
  ghost predicate NoSharedKeys(s: Setting, votes: seq<Vote>, w: Weighting) {
    forall i, j :: 0 <= i < j < |w| ==> RoleKeys(s, votes, w[i].role) !! RoleKeys(s, votes, w[j].role)
  }

  lemma SharedWithLast(s: Setting, votes: seq<Vote>, w: Weighting)
    requires w != []
    ensures NoSharedKeys(s, votes, w) <==>
            && NoSharedKeys(s, votes, w[..|w| - 1])
            && RolesKeys(s, votes, w[..|w| - 1]) !! RoleKeys(s, votes, w[|w| - 1].role)
  {
    hide RoleKeys;
    var init, last := w[..|w| - 1], w[|w| - 1];
    assert forall i :: 0 <= i < |init| ==> init[i] == w[i];
    forall key
      ensures key in RolesKeys(s, votes, init) <==>
              exists i :: 0 <= i < |init| && key in RoleKeys(s, votes, init[i].role)
    {
      RolesKeysAre(s, votes, init, key);
    }
    if NoSharedKeys(s, votes, w) {
      assert forall i :: 0 <= i < |init| ==> RoleKeys(s, votes, init[i].role) !! RoleKeys(s, votes, last.role);
    } else if NoSharedKeys(s, votes, init) {
      var i, j :| 0 <= i < j < |w| && !(RoleKeys(s, votes, w[i].role) !! RoleKeys(s, votes, w[j].role));
      assert j == |init|;
      var key :| key in RoleKeys(s, votes, w[i].role) && key in RoleKeys(s, votes, w[j].role);
      assert key in RoleKeys(s, votes, init[i].role);
    }
  }

  lemma UnionSize<T>(a: set<T>, b: set<T>)
    ensures |a + b| <= |a| + |b|
    ensures |a + b| == |a| + |b| <==> a !! b
  {
    assert a + b == a + (b - a);
    assert b == (b - a) + (a * b);
    assert |b| == |b - a| + |a * b|;
    assert a !! b <==> a * b == {};
  }

  lemma {:induction false} KeysAddUpIff(s: Setting, votes: seq<Vote>, w: Weighting)
    ensures |RolesKeys(s, votes, w)| <= KeysPerRole(s, votes, w)
    ensures |RolesKeys(s, votes, w)| == KeysPerRole(s, votes, w) <==> NoSharedKeys(s, votes, w)
  {
    if w == [] {
    } else {
      var init, last := w[..|w| - 1], w[|w| - 1];
      KeysAddUpIff(s, votes, init);
      SharedWithLast(s, votes, w);
      UnionSize(RolesKeys(s, votes, init), RoleKeys(s, votes, last.role));
    }
  }

  /** The overall number of unique responders is the number of distinct voter keys among the
      validated votes if and only if no key has validated votes in two roles; else it is larger. */
  lemma {:induction false} UniqueRespondersIff(s: Setting, votes: seq<Vote>)
    requires DistinctRoles(s.weighting)
    ensures var unique, keys := TallyOf(s, votes).totals.uniqueResponders, Keys(AllAccepted(s, votes));
            && |keys| <= unique
            && (unique == |keys| <==> NoSharedKeys(s, votes, s.weighting))
  {
    VotesAreConserved(s, votes);
    RolesHaveAllKeys(s, votes);
    KeysAddUpIff(s, votes, s.weighting);
  }

  lemma AllAcceptedPair(s: Setting, u: Vote, v: Vote)
    requires Accepts(s, u) && Accepts(s, v)
    ensures AllAccepted(s, [u, v]) == [u, v]
  {
    hide Accepts;
    AllAcceptedSnoc(s, [], u);
    AllAcceptedSnoc(s, [u], v);
    hide AllAccepted;
    assert [] + [u] == [u] && [u] + [v] == [u, v];
  }

  lemma AllAcceptedSnoc(s: Setting, votes: seq<Vote>, v: Vote)
    requires Accepts(s, v)
    ensures AllAccepted(s, votes + [v]) == AllAccepted(s, votes) + [v]
    ensures AllAccepted(s, []) == []
  {
    hide Accepts;
    assert (votes + [v])[..|votes|] == votes;
  }

  lemma OneAcceptedEach(s: Setting, u: Vote, v: Vote)
    requires Accepts(s, u) && Accepts(s, v) && RoleOf(u.voterType) != RoleOf(v.voterType)
    ensures Accepted(s, [u, v], RoleOf(u.voterType)) == [u] && Accepted(s, [u, v], RoleOf(v.voterType)) == [v]
  {
    hide Accepts;
    assert [] + [u] == [u] && [u] + [v] == [u, v];
    AcceptedSnoc(s, [], RoleOf(u.voterType), u);
    AcceptedSnoc(s, [u], RoleOf(u.voterType), v);
    AcceptedSnoc(s, [], RoleOf(v.voterType), u);
    AcceptedSnoc(s, [u], RoleOf(v.voterType), v);
  }

  /** Accepted votes of two roles with one key are two unique responders with one voter key. */
  lemma OneKeyInTwoRoles(s: Setting, u: Vote, v: Vote, a: Mode, b: Mode)
    requires s.weighting == [RoleMode(RoleOf(u.voterType), a), RoleMode(RoleOf(v.voterType), b)]
    requires RoleOf(u.voterType) != RoleOf(v.voterType) && Accepts(s, u) && Accepts(s, v) && KeyOf(u) == KeyOf(v)
    ensures TallyOf(s, [u, v]).totals.uniqueResponders == 2
    ensures |Keys(AllAccepted(s, [u, v]))| == 1
  {
    AllAcceptedPair(s, u, v);
    OneAcceptedEach(s, u, v);
    VotesAreConserved(s, [u, v]);
    KeysOfPair(u, v);
    hide Accepts, Accepted, Keys, KeyOf, AllAccepted, TallyOf;
    var w := s.weighting;
    assert KeysPerRole(s, [u, v], w[..1]) == 1 by {
      assert w[..1] == [w[0]];
      assert KeysPerRole(s, [u, v], w[..1][..0]) == 0;
    }
  }

  /** Accepted votes of one role with one key are one unique responder, whoever cast them. */
  lemma OneKeyInOneRole(s: Setting, u: Vote, v: Vote, other: RoleMode, mode: Mode)
    requires s.weighting == [other, RoleMode(RoleOf(u.voterType), mode)] && other.role != RoleOf(u.voterType)
    requires u.voterType == v.voterType && Accepts(s, u) && Accepts(s, v) && KeyOf(u) == KeyOf(v)
    ensures TallyOf(s, [u, v]).totals.uniqueResponders == 1
    ensures AllAccepted(s, [u, v]) == [u, v]
  {
    AllAcceptedPair(s, u, v);
    SameRolePair(s, u, v);
    VotesAreConserved(s, [u, v]);
    KeysOfPair(u, v);
    hide Accepts, Accepted, Keys, KeyOf, AllAccepted, TallyOf;
    var w := s.weighting;
    assert KeysPerRole(s, [u, v], w[..1]) == |Keys([])| by {
      assert w[..1] == [w[0]];
      assert KeysPerRole(s, [u, v], w[..1][..0]) == 0;
    }
    NoKeys();
  }

  lemma NoKeys()
    ensures |Keys([])| == 0
  {
    assert Keys([]) == {};
  }

  lemma SameRolePair(s: Setting, u: Vote, v: Vote)
    requires u.voterType == v.voterType && Accepts(s, u) && Accepts(s, v)
    ensures Accepted(s, [u, v], RoleOf(u.voterType)) == [u, v]
    ensures forall other :: other != RoleOf(u.voterType) ==> Accepted(s, [u, v], other) == []
  {
    hide Accepts;
    assert [] + [u] == [u] && [u] + [v] == [u, v];
    forall role
      ensures Accepted(s, [u, v], role) == if role == RoleOf(u.voterType) then [u, v] else []
    {
      AcceptedSnoc(s, [], role, u);
      AcceptedSnoc(s, [u], role, v);
    }
  }

  lemma KeysOfPair(u: Vote, v: Vote)
    requires KeyOf(u) == KeyOf(v)
    ensures |Keys([u])| == |Keys([v])| == |Keys([u, v])| == 1
  {
    hide KeyOf;
    assert Keys([u]) == {KeyOf(u)} && Keys([v]) == {KeyOf(v)};
    assert Keys([u, v]) == {KeyOf(u)};
  }

  // ----- a vote that is cast again

  lemma {:induction false} AcceptedUpdate(s: Setting, votes: seq<Vote>, role: Role, i: nat, v: Vote) returns (k: nat)
    requires i < |votes| && RoleOf(votes[i].voterType) == role == RoleOf(v.voterType)
    requires Accepts(s, votes[i]) && Accepts(s, v)
    ensures k < |Accepted(s, votes, role)| && Accepted(s, votes, role)[k] == votes[i]
    ensures Accepted(s, votes[i := v], role) == Accepted(s, votes, role)[k := v]
  {
    hide Accepts;
    var init, last := votes[..|votes| - 1], votes[|votes| - 1];
    if i == |init| {
      k := |Accepted(s, init, role)|;
      assert votes[i := v][..|init|] == init;
    } else {
      k := AcceptedUpdate(s, init, role, i, v);
      assert votes[i := v][..|init|] == init[i := v];
    }
  }

  lemma {:induction false} AcceptedElsewhere(s: Setting, votes: seq<Vote>, role: Role, i: nat, v: Vote)
    requires i < |votes| && RoleOf(votes[i].voterType) != role && RoleOf(v.voterType) != role
    ensures Accepted(s, votes[i := v], role) == Accepted(s, votes, role)
  {
    hide Accepts;
    var init, last := votes[..|votes| - 1], votes[|votes| - 1];
    AcceptedSnoc(s, init, role, last);
    assert votes == init + [last];
    if i == |init| {
      AcceptedSnoc(s, init, role, v);
      assert votes[i := v] == init + [v];
    } else {
      AcceptedElsewhere(s, init, role, i, v);
      AcceptedSnoc(s, init[i := v], role, last);
      assert votes[i := v] == init[i := v] + [last];
    }
  }

  lemma AcceptedSnoc(s: Setting, votes: seq<Vote>, role: Role, v: Vote)
    ensures Accepted(s, votes + [v], role) ==
            Accepted(s, votes, role) + if RoleOf(v.voterType) == role && Accepts(s, v) then [v] else []
  {
    hide Accepts;
    assert (votes + [v])[..|votes|] == votes;
  }

  lemma RevoteOfRole(s: Setting, votes: seq<Vote>, i: nat, v: Vote)
    requires i < |votes| && RoleOf(votes[i].voterType) == RoleOf(v.voterType)
    requires Accepts(s, votes[i]) && Accepts(s, v)
    requires KeyOf(votes[i]) == KeyOf(v) && Beats(v, Accepted(s, votes, RoleOf(v.voterType)))
    ensures Deduped(Accepted(s, votes, RoleOf(v.voterType)) + [v]) ==
            Deduped(Accepted(s, votes[i := v], RoleOf(v.voterType)))
  {
    var accepted := Accepted(s, votes, RoleOf(v.voterType));
    var k := AcceptedUpdate(s, votes, RoleOf(v.voterType), i, v);
    RevoteReplaces(accepted, k, v);
  }

  /** Appending a voter's later vote counts the same votes as putting it in place of one of
      the voter's earlier votes. */
  lemma {:induction false} RevoteCountsOnce(s: Setting, votes: seq<Vote>, i: nat, v: Vote, role: Role)
    requires i < |votes| && RoleOf(votes[i].voterType) == RoleOf(v.voterType)
    requires Accepts(s, votes[i]) && Accepts(s, v)
    requires KeyOf(votes[i]) == KeyOf(v) && Beats(v, Accepted(s, votes, RoleOf(v.voterType)))
    ensures CountedVotes(s, votes + [v], role) == CountedVotes(s, votes[i := v], role)
  {
    var more, replaced := votes + [v], votes[i := v];
    AcceptedSnoc(s, votes, role, v);
    if RoleOf(v.voterType) == role {
      RevoteOfRole(s, votes, i, v);
    } else {
      AcceptedElsewhere(s, votes, role, i, v);
      assert Accepted(s, more, role) == Accepted(s, replaced, role);
    }
  }

  lemma {:induction false} RejectedUpdate(s: Setting, votes: seq<Vote>, i: nat, v: Vote)
    requires i < |votes| && Accepts(s, votes[i]) && Accepts(s, v)
    ensures Rejected(s, votes[i := v]) == Rejected(s, votes)
  {
    hide Accepts;
    var init := votes[..|votes| - 1];
    if i == |init| {
      assert votes[i := v][..|init|] == init;
    } else {
      RejectedUpdate(s, init, i, v);
      assert votes[i := v][..|init|] == init[i := v];
    }
  }

  lemma {:induction false} SameCountedSameRoles(s: Setting, votes: seq<Vote>, other: seq<Vote>, w: Weighting)
    requires forall role :: CountedVotes(s, votes, role) == CountedVotes(s, other, role)
    ensures ValidTotal(s, votes, w) == ValidTotal(s, other, w) && ErrorsOf(s, votes, w) == ErrorsOf(s, other, w)
  {
    if w == [] {
    } else {
      SameCountedSameRoles(s, votes, other, w[..|w| - 1]);
    }
  }

  /** So the tally has the same results, valid votes and responders; the replaced vote is one more
      seen, invalid and deduplicated vote. */
  lemma {:induction false} RevoteTally(s: Setting, votes: seq<Vote>, i: nat, v: Vote)
    requires DistinctRoles(s.weighting)
    requires i < |votes| && RoleOf(votes[i].voterType) == RoleOf(v.voterType)
    requires Accepts(s, votes[i]) && Accepts(s, v)
    requires KeyOf(votes[i]) == KeyOf(v) && Beats(v, Accepted(s, votes, RoleOf(v.voterType)))
    ensures var t, u := TallyOf(s, votes + [v]), TallyOf(s, votes[i := v]);
            && t.errors == u.errors
            && t.totals.totalSeen == u.totals.totalSeen + 1
            && t.totals.valid == u.totals.valid
            && t.totals.invalid == u.totals.invalid + 1
            && t.totals.deduped == u.totals.deduped + 1
            && t.totals.uniqueResponders == u.totals.uniqueResponders
            && |t.roleResults| == |u.roleResults| == |s.weighting|
            && forall r :: 0 <= r < |s.weighting| ==> t.roleResults[r].results == u.roleResults[r].results
  {
    var more, replaced := votes + [v], votes[i := v];
    forall role
      ensures CountedVotes(s, more, role) == CountedVotes(s, replaced, role)
    {
      RevoteCountsOnce(s, votes, i, v, role);
    }
    SameCountedSameRoles(s, more, replaced, s.weighting);
    VotesAreConserved(s, more);
    VotesAreConserved(s, replaced);
    RejectedUpdate(s, votes, i, v);
    assert more[..|votes|] == votes;
    RoleResultsSize(s, more, s.weighting);
    RoleResultsSize(s, replaced, s.weighting);
    forall r | 0 <= r < |s.weighting|
      ensures TallyOf(s, more).roleResults[r].results == TallyOf(s, replaced).roleResults[r].results
    {
      RoleResultAt(s, more, s.weighting, r);
      RoleResultAt(s, replaced, s.weighting, r);
    }
  }

  // ----- what the results account for

  lemma {:induction false} AcceptedAreAccepted(s: Setting, votes: seq<Vote>, role: Role, v: Vote)
    requires v in Accepted(s, votes, role)
    ensures Accepts(s, v) && RoleOf(v.voterType) == role && v in votes
  {
    hide Accepts;
    var init := votes[..|votes| - 1];
    if v in Accepted(s, init, role) {
      AcceptedAreAccepted(s, init, role, v);
    }
  }

  lemma CountedAreAccepted(s: Setting, votes: seq<Vote>, role: Role, i: nat)
    requires i < |CountedVotes(s, votes, role)|
    ensures var v := CountedVotes(s, votes, role)[i]; Accepts(s, v) && RoleOf(v.voterType) == role && v in votes
  {
    DedupedKeepsLatest(Accepted(s, votes, role));
    AcceptedAreAccepted(s, votes, role, CountedVotes(s, votes, role)[i]);
  }

  lemma CountedAreGood(s: Setting, votes: seq<Vote>, role: Role)
    ensures GoodVotes(s.survey.questions, CountedVotes(s, votes, role))
  {
    forall i | 0 <= i < |CountedVotes(s, votes, role)|
      ensures GoodVote(s.survey.questions, CountedVotes(s, votes, role)[i])
    {
      CountedAreAccepted(s, votes, role, i);
    }
  }

  function ResultIn(t: Tally, r: nat, j: nat): QuestionResult
    requires r < |t.roleResults| && j < |t.roleResults[r].results|
  {
    t.roleResults[r].results[j]
  }

  lemma ResultAt(s: Setting, votes: seq<Vote>, r: nat, j: nat)
    requires r < |s.weighting| && j < |s.survey.questions|
    ensures var t := TallyOf(s, votes);
            && r < |t.roleResults| && j < |t.roleResults[r].results|
            && ResultIn(t, r, j) ==
               ResultOf(s.weighting[r].mode, s.survey.questions[j], CountedVotes(s, votes, s.weighting[r].role))
  {
    RoleResultAt(s, votes, s.weighting, r);
  }

  /** In the tally of a valid survey a single choice adds up to the weight of the counted
      votes that answer. */
  lemma SingleChoiceInTally(s: Setting, votes: seq<Vote>, r: nat, j: nat)
    requires r < |s.weighting| && j < |s.survey.questions| && ValidQuestions(s.survey.questions)
    requires s.survey.questions[j].methodType == SingleChoice
    ensures var t, q, rm := TallyOf(s, votes), s.survey.questions[j], s.weighting[r];
            && r < |t.roleResults| && j < |t.roleResults[r].results| && ResultIn(t, r, j).OptionTotals?
            && Total(ResultIn(t, r, j).totals) == Sum(CountedVotes(s, votes, rm.role), WeightPart(rm.mode, q))
  {
    ResultAt(s, votes, r, j);
    CountedAreGood(s, votes, s.weighting[r].role);
    SingleChoiceAddsUp(s.weighting[r].mode, s.survey.questions, j, CountedVotes(s, votes, s.weighting[r].role));
  }

  ghost predicate MultiSelectHolds(mode: Mode, q: Question, votes: seq<Vote>, result: QuestionResult) {
    && result.OptionTotals? && q.maxSelections.Some?
    && Total(result.totals) == Sum(votes, SelectionPart(mode, q))
    && Total(result.totals) <= q.maxSelections.value as real * Sum(votes, WeightPart(mode, q))
  }

  lemma MultiSelectResult(mode: Mode, qs: seq<Question>, j: nat, votes: seq<Vote>)
    requires j < |qs| && ValidQuestions(qs) && GoodVotes(qs, votes) && qs[j].methodType == MultiSelect
    requires NonNegativeWeights(mode, votes)
    ensures MultiSelectHolds(mode, qs[j], votes, ResultOf(mode, qs[j], votes))
  {
    MultiSelectAddsUp(mode, qs, j, votes);
    MultiSelectIsBounded(mode, qs, j, votes);
  }

  /** A multi-select adds up to weight times options named, at most maxSelections times the
      weight of the votes that answer. */
  lemma MultiSelectInTally(s: Setting, votes: seq<Vote>, r: nat, j: nat)
    requires r < |s.weighting| && j < |s.survey.questions| && ValidQuestions(s.survey.questions)
    requires s.survey.questions[j].methodType == MultiSelect
    requires NonNegativeWeights(s.weighting[r].mode, CountedVotes(s, votes, s.weighting[r].role))
    ensures var t, q, counted := TallyOf(s, votes), s.survey.questions[j], CountedVotes(s, votes, s.weighting[r].role);
            && r < |t.roleResults| && j < |t.roleResults[r].results|
            && MultiSelectHolds(s.weighting[r].mode, q, counted, ResultIn(t, r, j))
  {
    ResultAt(s, votes, r, j);
    CountedAreGood(s, votes, s.weighting[r].role);
    MultiSelectResult(s.weighting[r].mode, s.survey.questions, j, CountedVotes(s, votes, s.weighting[r].role));
  }

  /** A numeric question that is answered has its mean between its minimum and its maximum,
      and these in the configured range. */
  lemma NumericInTally(s: Setting, votes: seq<Vote>, r: nat, j: nat)
    requires r < |s.weighting| && j < |s.survey.questions| && ValidQuestions(s.survey.questions)
    requires s.survey.questions[j].methodType == NumericRange
    requires NonNegativeWeights(s.weighting[r].mode, CountedVotes(s, votes, s.weighting[r].role))
    ensures var t, q := TallyOf(s, votes), s.survey.questions[j];
            && r < |t.roleResults| && j < |t.roleResults[r].results| && ResultIn(t, r, j).NumericSummary?
            && var x, c := ResultIn(t, r, j), q.numericConstraints.value;
               && (x.count > 0 <==>
                  exists k :: 0 <= k < |CountedVotes(s, votes, s.weighting[r].role)|
                    && Answers(q, CountedVotes(s, votes, s.weighting[r].role)[k]))
               && (x.count > 0 ==>
                  x.min.Some? && x.max.Some? && c.minValue as real <= x.min.value <= x.max.value <= c.maxValue as real)
               && (x.mean.Some? ==> x.count > 0 && x.min.value <= x.mean.value <= x.max.value)
  {
    ResultAt(s, votes, r, j);
    var q, mode, counted := s.survey.questions[j], s.weighting[r].mode, CountedVotes(s, votes, s.weighting[r].role);
    CountedAreGood(s, votes, s.weighting[r].role);
    NoNumbersIff(mode, q, counted);
    if Numbers(q, counted) != [] {
      NumericInRange(mode, s.survey.questions, j, counted);
    }
  }

  // ----- votes that are counted without adding to a result

  /** Whether a vote has something for a question's result: a number, a custom value, or an
      option and a weight to add to it. */
  predicate Contributes(mode: Mode, q: Question, v: Vote) {
    Answers(q, v)
      && (q.methodType.SingleChoice? || q.methodType.MultiSelect? ==> Selected(q, v) != [] && Weight(mode, v) != 0.0)
  }

  lemma NothingIsAdded(totals: seq<real>, selection: seq<int>, weight: real)
    requires selection == [] || weight == 0.0
    ensures Added(totals, selection, weight) == totals
  {
    forall j | 0 <= j < |totals|
      ensures Multiple(weight, Times(selection, j)) == 0.0
    {
    }
  }

  lemma NothingChanges(mode: Mode, q: Question, votes: seq<Vote>, v: Vote)
    requires !Contributes(mode, q, v)
    ensures ResultOf(mode, q, votes + [v]) == ResultOf(mode, q, votes)
  {
    var n, more := |votes|, votes + [v];
    assert more[..n + 1] == more && more[..n] == votes && more[n] == v;
    if q.methodType.SingleChoice? || q.methodType.MultiSelect? {
      OptionSumsStep(mode, q, more, n);
      NothingIsAdded(OptionSums(mode, q, votes), Selected(q, v), Weight(mode, v));
    } else if q.methodType.NumericRange? {
      NumbersStep(q, more, n);
      SumStep(more, n, WeightPart(mode, q));
      SumStep(more, n, NumberPart(mode, q));
      assert NumberPart(mode, q)(v) == WeightPart(mode, q)(v) == 0.0;
      assert Numbers(q, more) == Numbers(q, votes);
    } else {
      CustomStep(mode, q, more, n);
    }
  }

  lemma {:induction false} FirstIsNamed(selection: seq<int>)
    requires selection != []
    ensures Times(selection, selection[0]) >= 1
  {
    if |selection| > 1 {
      FirstIsNamed(selection[..|selection| - 1]);
    }
  }

  lemma SomethingIsAdded(totals: seq<real>, selection: seq<int>, weight: real)
    requires selection != [] && 0 <= selection[0] < |totals| && weight != 0.0
    ensures Added(totals, selection, weight) != totals
  {
    FirstIsNamed(selection);
    var n := Times(selection, selection[0]);
    assert Multiple(weight, n) != 0.0;
    assert Added(totals, selection, weight)[selection[0]] == totals[selection[0]] + Multiple(weight, n);
  }

  /** A contribution shows in the result when nobody else has voted. */
  lemma SomethingChanges(mode: Mode, qs: seq<Question>, i: nat, v: Vote)
    requires i < |qs| && ValidQuestions(qs) && GoodVote(qs, v) && Contributes(mode, qs[i], v)
    ensures ResultOf(mode, qs[i], [] + [v]) != ResultOf(mode, qs[i], [])
  {
    var q := qs[i];
    assert [] + [v] == [v] && [v][..1] == [v] && [v][..0] == [];
    AnswersAreValid(qs, i, v);
    if q.methodType.SingleChoice? || q.methodType.MultiSelect? {
      OptionSumsStep(mode, q, [v], 0);
      SomethingIsAdded(OptionSums(mode, q, []), Selected(q, v), Weight(mode, v));
    } else if q.methodType.NumericRange? {
      NumbersStep(q, [v], 0);
    } else {
      CustomStep(mode, q, [v], 0);
    }
  }

  /** Whatever the other votes are, the vote makes no difference to the results. */
  ghost predicate Silent(mode: Mode, qs: seq<Question>, v: Vote) {
    forall i, votes :: 0 <= i < |qs| ==> ResultOf(mode, qs[i], votes + [v]) == ResultOf(mode, qs[i], votes)
  }

  lemma SilentIff(mode: Mode, qs: seq<Question>, v: Vote)
    requires ValidQuestions(qs) && GoodVote(qs, v)
    ensures Silent(mode, qs, v) <==> forall i :: 0 <= i < |qs| ==> !Contributes(mode, qs[i], v)
  {
    hide ResultOf, Contributes, ValidQuestions, GoodVote;
    if i :| 0 <= i < |qs| && Contributes(mode, qs[i], v) {
      SomethingChanges(mode, qs, i, v);
    } else {
      forall i, votes | 0 <= i < |qs|
        ensures ResultOf(mode, qs[i], votes + [v]) == ResultOf(mode, qs[i], votes)
      {
        NothingChanges(mode, qs[i], votes, v);
      }
    }
  }

  /** An answer that adds nothing: a built-in value for a custom-method question, no option, or
      options without weight. */
  predicate AddsNothing(q: Question, a: Answer, weight: real) {
    match q.methodType
    case SingleChoice => weight == 0.0
    case MultiSelect => a.selection == Some([]) || weight == 0.0
    case NumericRange => false
    case Custom(_) => a.customValue == None
  }

  ghost predicate OnlyEmpty(mode: Mode, qs: seq<Question>, v: Vote)
    requires !v.payload.Missing?
  {
    forall a :: a in v.payload.response.answers ==>
      QuestionFor(qs, a.questionId).Some? && AddsNothing(QuestionFor(qs, a.questionId).value, a, Weight(mode, v))
  }

  lemma {:induction false} AnswerIsFound(answers: seq<Answer>, k: nat)
    requires k < |answers| && forall a, b :: 0 <= a < b < |answers| ==> answers[a].questionId != answers[b].questionId
    ensures FindAnswer(answers, answers[k].questionId) == Some(answers[k])
    decreases |answers|
  {
    if k > 0 {
      AnswerIsFound(answers[1..], k - 1);
    }
  }

  lemma {:induction false} QuestionIsOne(qs: seq<Question>, id: string) returns (i: nat)
    requires QuestionFor(qs, id).Some?
    ensures i < |qs| && qs[i] == QuestionFor(qs, id).value && qs[i].questionId == id
  {
    if qs[|qs| - 1].questionId == id {
      i := |qs| - 1;
    } else {
      i := QuestionIsOne(qs[..|qs| - 1], id);
    }
  }

  lemma {:induction false} FoundIsAnAnswer(answers: seq<Answer>, id: string)
    requires FindAnswer(answers, id).Some?
    ensures FindAnswer(answers, id).value in answers
    decreases |answers|
  {
    if answers[0].questionId != id {
      FoundIsAnAnswer(answers[1..], id);
    }
  }

  lemma AddsNothingIff(mode: Mode, q: Question, v: Vote)
    requires ExtractedAnswer(v, q.questionId).Some? && ValidAnswer(q, ExtractedAnswer(v, q.questionId).value)
    ensures AddsNothing(q, ExtractedAnswer(v, q.questionId).value, Weight(mode, v)) <==> !Contributes(mode, q, v)
  {
  }

  lemma EmptyIsSilent(mode: Mode, qs: seq<Question>, v: Vote, i: nat)
    requires ValidQuestions(qs) && v.payload.Label17? && GoodVote(qs, v) && OnlyEmpty(mode, qs, v) && i < |qs|
    ensures !Contributes(mode, qs[i], v)
  {
    if ExtractedAnswer(v, qs[i].questionId).Some? {
      FoundIsAnAnswer(v.payload.response.answers, qs[i].questionId);
      FoundIsGood(qs, v.payload.response.answers, qs[i].questionId);
      QuestionIsFound(qs, i);
      AnswersAreValid(qs, i, v);
      AddsNothingIff(mode, qs[i], v);
    }
  }

  lemma OtherwiseHeard(mode: Mode, qs: seq<Question>, v: Vote)
    requires ValidQuestions(qs) && v.payload.Label17? && GoodVote(qs, v) && !OnlyEmpty(mode, qs, v)
    ensures exists i :: 0 <= i < |qs| && Contributes(mode, qs[i], v)
  {
    var answers := v.payload.response.answers;
    assert forall k :: 0 <= k < |answers| ==> GoodAnswer(qs, answers[k]);
    var a :| a in answers && !AddsNothing(QuestionFor(qs, a.questionId).value, a, Weight(mode, v));
    var k :| 0 <= k < |answers| && answers[k] == a;
    AnswerIsFound(answers, k);
    var i := QuestionIsOne(qs, a.questionId);
    AnswersAreValid(qs, i, v);
    AddsNothingIff(mode, qs[i], v);
  }

  /** An accepted vote makes no difference to any result exactly when it is not wrapped in the
      label, or each of its answers adds nothing. */
  lemma AcceptedButSilentIff(s: Setting, mode: Mode, v: Vote)
    requires ValidQuestions(s.survey.questions) && Accepts(s, v)
    ensures Silent(mode, s.survey.questions, v) <==> v.payload.Bare? || OnlyEmpty(mode, s.survey.questions, v)
  {
    var qs := s.survey.questions;
    SilentIff(mode, qs, v);
    if v.payload.Label17? {
      hide Contributes, ValidQuestions;
      if OnlyEmpty(mode, qs, v) {
        forall i | 0 <= i < |qs|
          ensures !Contributes(mode, qs[i], v)
        {
          EmptyIsSilent(mode, qs, v, i);
        }
      } else {
        OtherwiseHeard(mode, qs, v);
      }
    }
  }

  lemma CountedSnoc(s: Setting, votes: seq<Vote>, role: Role, v: Vote)
    requires Accepts(s, v) && !HasKey(Accepted(s, votes, role), KeyOf(v))
    ensures CountedVotes(s, votes + [v], role) == CountedVotes(s, votes, role) +
            if RoleOf(v.voterType) == role then [v] else []
  {
    hide Accepts, KeyOf, CompareVotes;
    var accepted := Accepted(s, votes, role);
    AcceptedSnoc(s, votes, role, v);
    if RoleOf(v.voterType) == role {
      DedupedSnoc(accepted, v);
      DedupedKeepsLatest(accepted);
      forall k | 0 <= k < |Deduped(accepted)|
        ensures KeyOf(Deduped(accepted)[k]) != KeyOf(v)
      {
        assert Deduped(accepted)[k] in accepted;
      }
      OfferNew(Deduped(accepted), v);
    } else {
      assert Accepted(s, votes + [v], role) == accepted;
    }
  }

  lemma SilentResults(mode: Mode, qs: seq<Question>, votes: seq<Vote>, v: Vote)
    requires Silent(mode, qs, v)
    ensures ResultsOf(mode, qs, votes + [v]) == ResultsOf(mode, qs, votes)
  {
    hide ResultOf;
    assert forall j :: 0 <= j < |qs| ==> ResultOf(mode, qs[j], votes + [v]) == ResultOf(mode, qs[j], votes);
  }

  /** Such a vote of a new voter is one more unique responder of its role, and leaves the results
      of every role as they were. */
  lemma SilentResponder(s: Setting, votes: seq<Vote>, v: Vote, r: nat)
    requires r < |s.weighting| && Accepts(s, v) && Silent(s.weighting[r].mode, s.survey.questions, v)
    requires !HasKey(Accepted(s, votes, s.weighting[r].role), KeyOf(v))
    ensures var t, u := TallyOf(s, votes), TallyOf(s, votes + [v]);
            && |t.roleResults| == |u.roleResults| == |s.weighting|
            && u.roleResults[r].results == t.roleResults[r].results
            && u.roleResults[r].totals.uniqueResponders ==
               t.roleResults[r].totals.uniqueResponders + if RoleOf(v.voterType) == s.weighting[r].role then 1 else 0
  {
    hide Accepts, Accepted, Deduped, HasKey, KeyOf, ResultsOf, Silent, SeenIn, RejectedIn, AllProblems;
    var rm, before := s.weighting[r], CountedVotes(s, votes, s.weighting[r].role);
    CountedSnoc(s, votes, rm.role, v);
    SilentResults(rm.mode, s.survey.questions, before, v);
    RoleResultAt(s, votes, s.weighting, r);
    RoleResultAt(s, votes + [v], s.weighting, r);
    assert before + [] == before;
  }

  /** What a question's result is when nobody answers it. */
  function EmptyResult(q: Question): QuestionResult {
    match q.methodType
    case SingleChoice => OptionTotals(q.questionId, seq(OptionCount(q), _ => 0.0))
    case MultiSelect => OptionTotals(q.questionId, seq(OptionCount(q), _ => 0.0))
    case NumericRange => NumericSummary(q.questionId, 0, None, None, None)
    case Custom(_) => CustomTotals(q.questionId, map[])
  }

  ghost predicate NoneUnderLabel(votes: seq<Vote>) {
    forall v :: v in votes ==> !v.payload.Label17?
  }

  lemma NobodyAnswers(mode: Mode, q: Question)
    ensures ResultOf(mode, q, []) == EmptyResult(q)
  {
    assert OptionSums(mode, q, []) == seq(OptionCount(q), _ => 0.0);
  }

  lemma {:induction false} UnlabelledResult(mode: Mode, q: Question, votes: seq<Vote>)
    requires NoneUnderLabel(votes)
    ensures ResultOf(mode, q, votes) == EmptyResult(q)
  {
    if votes == [] {
      NobodyAnswers(mode, q);
    } else {
      var init, last := votes[..|votes| - 1], votes[|votes| - 1];
      assert last in votes;
      UnlabelledResult(mode, q, init);
      NothingChanges(mode, q, init, last);
      assert init + [last] == votes;
    }
  }

  /** Without a payload under the label every result of every role is empty, however many
      responses are accepted and counted. */
  lemma UnlabelledTally(s: Setting, votes: seq<Vote>, r: nat, j: nat)
    requires NoneUnderLabel(votes) && r < |s.weighting| && j < |s.survey.questions|
    ensures var t := TallyOf(s, votes);
            && r < |t.roleResults| && j < |t.roleResults[r].results|
            && ResultIn(t, r, j) == EmptyResult(s.survey.questions[j])
  {
    ResultAt(s, votes, r, j);
    var counted := CountedVotes(s, votes, s.weighting[r].role);
    forall v | v in counted
      ensures !v.payload.Label17?
    {
      var i :| 0 <= i < |counted| && counted[i] == v;
      CountedAreAccepted(s, votes, s.weighting[r].role, i);
    }
    UnlabelledResult(s.weighting[r].mode, s.survey.questions[j], counted);
  }

  /** One question with two options. */
  function SomeSurvey(m: Method): Survey {
    Survey(SURVEY_SPEC_VERSION, "title", "description",
           [Question("q", "question", m, Some(["yes", "no"]), Some(1), None, "", "")],
           [RoleMode(DRep, CredentialBased)], 500)
  }

  function ResponseOf(role: Role, selection: seq<int>): Response {
    Response(SURVEY_SPEC_VERSION, "survey", Some(role), [Answer("q", Some(selection), None, None)])
  }

  function DrepVote(payload: Payload): Vote {
    Vote("tx", DrepVoter, "drep", None, None, None, payload, None, None, None, None, None, None, None)
  }

  /** A tally of a survey with that question, before the end epoch. */
  ghost predicate TalliesSome(s: Setting, m: Method) {
    s.survey == SomeSurvey(m) && s.surveyTxId == "survey" && s.weighting == s.survey.roleWeighting && !s.enforceEvidence
  }

  lemma SurveyIsValid(m: Method)
    requires m.SingleChoice? || m.MultiSelect?
    ensures ValidSurvey(SomeSurvey(m), [], None)
  {
    assert ValidQuestion(SomeSurvey(m).questions[0]);
  }

  lemma SilentResult(mode: Mode, q: Question, v: Vote)
    requires Silent(mode, [q], v)
    ensures ResultsOf(mode, [q], [v]) == [EmptyResult(q)]
  {
    hide ResultOf, EmptyResult;
    NobodyAnswers(mode, q);
    assert ResultOf(mode, [q][0], [] + [v]) == ResultOf(mode, [q][0], []);
    assert [] + [v] == [v];
  }

  lemma OnlyVote(s: Setting, v: Vote, role: Role)
    requires Accepts(s, v) && RoleOf(v.voterType) == role
    ensures CountedVotes(s, [v], role) == [v]
  {
    hide Accepts, KeyOf;
    AcceptedSnoc(s, [], role, v);
    assert [] + [v] == [v];
    DedupedSnoc([], v);
  }

  lemma OnlyResponder(s: Setting, v: Vote, rm: RoleMode)
    requires s.weighting == [rm] && RoleOf(v.voterType) == rm.role && Accepts(s, v)
    ensures var t := TallyOf(s, [v]);
            && t.totals.valid == t.totals.uniqueResponders == 1 && t.totals.invalid == 0
            && |t.roleResults| == 1 && t.roleResults[0].results == ResultsOf(rm.mode, s.survey.questions, [v])
  {
    hide Accepts, Accepted, ResultsOf, AllProblems, Deduped, ErrorsOf, DedupedTotal, Rejected, KeysPerRole;
    OnlyVote(s, v, rm.role);
    VotesAreConserved(s, [v]);
    RoleResultAt(s, [v], s.weighting, 0);
    assert s.weighting[..0] == [];
  }

  lemma SilentAlone(s: Setting, v: Vote, rm: RoleMode, q: Question)
    requires s.weighting == [rm] && RoleOf(v.voterType) == rm.role && s.survey.questions == [q]
    requires Accepts(s, v) && Silent(rm.mode, [q], v)
    ensures var t := TallyOf(s, [v]);
            && t.totals.valid == t.totals.uniqueResponders == 1 && t.totals.invalid == 0
            && |t.roleResults| == 1 && t.roleResults[0].results == [EmptyResult(q)]
  {
    hide Accepts, TallyOf, EmptyResult, Silent, ResultsOf;
    OnlyResponder(s, v, rm);
    SilentResult(rm.mode, q, v);
  }

  lemma DrepVoteIsAccepted(s: Setting, m: Method, payload: Payload)
    requires TalliesSome(s, m)
    requires || (m == SingleChoice && payload == Bare(ResponseOf(DRep, [0])))
             || (m == MultiSelect && payload == Label17(ResponseOf(DRep, [])))
    ensures Accepts(s, DrepVote(payload)) && Silent(CredentialBased, s.survey.questions, DrepVote(payload))
  {
    SurveyIsValid(m);
    assert GoodAnswer(s.survey.questions, payload.response.answers[0]);
    assert "tx" != "survey";
    AcceptedButSilentIff(s, CredentialBased, DrepVote(payload));
  }

  lemma CountedExample(s: Setting, m: Method, payload: Payload)
    requires TalliesSome(s, m)
    requires || (m == SingleChoice && payload == Bare(ResponseOf(DRep, [0])))
             || (m == MultiSelect && payload == Label17(ResponseOf(DRep, [])))
    ensures ValidSurvey(s.survey, [], None)
    ensures var t := TallyOf(s, [DrepVote(payload)]);
            && t.totals.valid == t.totals.uniqueResponders == 1 && t.totals.invalid == 0
            && |t.roleResults| == 1 && t.roleResults[0].results == [OptionTotals("q", [0.0, 0.0])]
  {
    SurveyIsValid(m);
    DrepVoteIsAccepted(s, m, payload);
    var q := s.survey.questions[0];
    assert EmptyResult(q) == OptionTotals("q", [0.0, 0.0]) && s.survey.questions == [q];
    hide Accepts, Silent, ValidSurvey, TallyOf, EmptyResult, ResponseOf;
    SilentAlone(s, DrepVote(payload), RoleMode(DRep, CredentialBased), q);
  }

  /** A bare response to a valid survey is a unique responder with an empty result. */
  lemma CountedButUnread(s: Setting)
    requires TalliesSome(s, SingleChoice)
    ensures ValidSurvey(s.survey, [], None)
    ensures var t := TallyOf(s, [DrepVote(Bare(ResponseOf(DRep, [0])))]);
            && t.totals.valid == t.totals.uniqueResponders == 1 && t.totals.invalid == 0
            && |t.roleResults| == 1 && t.roleResults[0].results == [OptionTotals("q", [0.0, 0.0])]
  {
    hide *;
    CountedExample(s, SingleChoice, Bare(ResponseOf(DRep, [0])));
  }

  /** So is one under the label that selects none of the options of a multi-select question. */
  lemma CountedButEmpty(s: Setting)
    requires TalliesSome(s, MultiSelect)
    ensures ValidSurvey(s.survey, [], None)
    ensures var t := TallyOf(s, [DrepVote(Label17(ResponseOf(DRep, [])))]);
            && t.totals.valid == t.totals.uniqueResponders == 1 && t.totals.invalid == 0
            && |t.roleResults| == 1 && t.roleResults[0].results == [OptionTotals("q", [0.0, 0.0])]
  {
    hide *;
    CountedExample(s, MultiSelect, Label17(ResponseOf(DRep, [])));
  }
}
