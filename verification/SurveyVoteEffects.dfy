/** What one vote adds to a result, read off the answer it stores: `buildMethodResults` in
    src/libs/surveyMetadata.ts. With the result of no votes, this fixes every result. */
module SurveyVoteEffects {
  import opened Common
  import opened Sums
  import opened SurveyTypes
  import opened SurveyValidation
  import opened SurveyDedupe
  import opened SurveyResults
  import opened SurveyResultLaws
  import opened SurveyTally
  import opened SurveyTallyLaws

  // ----- what a vote says, and how much it counts

  /** The first answer that names a question is at k. */
  ghost predicate FirstAnswerAt(answers: seq<Answer>, id: string, k: nat) {
    k < |answers| && answers[k].questionId == id && forall j :: 0 <= j < k ==> answers[j].questionId != id
  }

  /** A vote answers a question by the first answer in its response under the label that names it. */
  ghost predicate GivesAnswer(v: Vote, id: string, a: Answer) {
    && v.payload.Label17?
    && exists k: nat :: FirstAnswerAt(v.payload.response.answers, id, k) && v.payload.response.answers[k] == a
  }

  lemma {:induction false} FirstIsFound(answers: seq<Answer>, id: string, k: nat)
    requires FirstAnswerAt(answers, id, k)
    ensures FindAnswer(answers, id) == Some(answers[k])
    decreases k
  {
    if k > 0 {
      assert forall j :: 0 <= j < k - 1 ==> answers[1..][j] == answers[j + 1];
      FirstIsFound(answers[1..], id, k - 1);
    }
  }

  lemma {:induction false} FoundIsFirst(answers: seq<Answer>, id: string) returns (k: nat)
    requires FindAnswer(answers, id).Some?
    ensures FirstAnswerAt(answers, id, k) && answers[k] == FindAnswer(answers, id).value
    decreases |answers|
  {
    if answers[0].questionId == id {
      k := 0;
    } else {
      var i := FoundIsFirst(answers[1..], id);
      k := i + 1;
      assert forall j :: 0 < j < k ==> answers[j] == answers[1..][j - 1];
    }
  }

  lemma GivenIsExtracted(v: Vote, id: string, a: Answer)
    ensures GivesAnswer(v, id, a) <==> ExtractedAnswer(v, id) == Some(a)
  {
    if v.payload.Label17? {
      var answers := v.payload.response.answers;
      if k: nat :| FirstAnswerAt(answers, id, k) && answers[k] == a {
        FirstIsFound(answers, id, k);
      }
      if ExtractedAnswer(v, id) == Some(a) {
        var k := FoundIsFirst(answers, id);
      }
    }
  }

  function Names(option: int): int -> bool {
    x => x == option
  }

  /** How often an option is named. */
  ghost function Mentions(selection: seq<int>, option: int): nat {
    |Places(selection, Names(option))|
  }

  lemma {:induction false} TimesIsMentions(selection: seq<int>, option: int)
    ensures Times(selection, option) == Mentions(selection, option)
  {
    if selection == [] {
      NoPlaces(Names(option));
    } else {
      var init, last := selection[..|selection| - 1], selection[|selection| - 1];
      TimesIsMentions(init, option);
      PlacesSnoc(init, last, Names(option));
      assert selection == init + [last];
    }
  }

  /** One vote counts one; else the snapshot counts, in ada; a stake without a snapshot is the
      stored voting power, in lovelace. */
  ghost predicate Weighs(mode: Mode, v: Vote, weight: real) {
    match (mode, v.snapshotWeight)
    case (CredentialBased, _) => weight == 1.0
    case (_, Some(snapshot)) => weight == snapshot
    case (PledgeBased, None) => weight == 0.0
    case (StakeBased, None) => weight * 1000000.0 == (match v.votingPower case Some(p) => p as real case None => 0.0)
  }

  lemma WeighsIff(mode: Mode, v: Vote, weight: real)
    ensures Weighs(mode, v, weight) <==> weight == Weight(mode, v)
  {
  }

  // ----- one vote more

  /** Each option total grows by the weight, once for each time the option is named. */
  ghost predicate OptionsGrow(q: Question, before: QuestionResult, after: QuestionResult, selection: seq<int>,
                              weight: real) {
    && before.OptionTotals? && after.OptionTotals? && after.questionId == q.questionId
    && |before.totals| == |after.totals| == OptionCount(q)
    && forall i :: 0 <= i < |after.totals| ==>
       after.totals[i] == before.totals[i] + weight * Mentions(selection, i) as real
  }

  lemma AddedIsMentions(totals: seq<real>, selection: seq<int>, weight: real, i: nat)
    requires i < |totals|
    ensures Added(totals, selection, weight)[i] == totals[i] + weight * Mentions(selection, i) as real
  {
    hide Mentions, Times;
    TimesIsMentions(selection, i);
  }

  lemma SumsAreAdded(mode: Mode, q: Question, votes: seq<Vote>, v: Vote, a: Answer)
    requires q.methodType.SingleChoice? || q.methodType.MultiSelect?
    requires GivesAnswer(v, q.questionId, a) && a.selection.Some?
    ensures OptionSums(mode, q, votes + [v]) ==
            Added(OptionSums(mode, q, votes), a.selection.value, Weight(mode, v))
  {
    GivenIsExtracted(v, q.questionId, a);
    assert Answers(q, v) && Selected(q, v) == a.selection.value;
    hide Weight, Answers, Selected, OptionSums, Added;
    var more := votes + [v];
    assert more[..|more|] == more && more[..|votes|] == votes;
    OptionSumsStep(mode, q, more, |votes|);
  }

  lemma SelectionCounts(mode: Mode, q: Question, votes: seq<Vote>, v: Vote, a: Answer, weight: real)
    requires q.methodType.SingleChoice? || q.methodType.MultiSelect?
    requires GivesAnswer(v, q.questionId, a) && a.selection.Some? && Weighs(mode, v, weight)
    ensures OptionsGrow(q, ResultOf(mode, q, votes), ResultOf(mode, q, votes + [v]), a.selection.value, weight)
  {
    WeighsIff(mode, v, weight);
    hide Weight, Weighs, GivesAnswer, Mentions, OptionSums, Added;
    SumsAreAdded(mode, q, votes, v, a);
    forall i | 0 <= i < OptionCount(q)
      ensures OptionSums(mode, q, votes + [v])[i] ==
              OptionSums(mode, q, votes)[i] + weight * Mentions(a.selection.value, i) as real
    {
      AddedIsMentions(OptionSums(mode, q, votes), a.selection.value, weight, i);
    }
  }

  /** The count grows by one, and minimum and maximum take the number in. */
  ghost predicate NumberJoins(q: Question, before: QuestionResult, after: QuestionResult, x: real) {
    && before.NumericSummary? && after.NumericSummary? && after.questionId == q.questionId
    && after.count == before.count + 1
    && after.min == Some(if before.min.Some? && before.min.value <= x then before.min.value else x)
    && after.max == Some(if before.max.Some? && before.max.value >= x then before.max.value else x)
  }

  lemma ExtremesSnoc(numbers: seq<real>, x: real)
    ensures MinOf(numbers + [x]) == if numbers != [] && MinOf(numbers) <= x then MinOf(numbers) else x
    ensures MaxOf(numbers + [x]) == if numbers != [] && MaxOf(numbers) >= x then MaxOf(numbers) else x
  {
    assert (numbers + [x])[..|numbers|] == numbers;
  }

  lemma NumbersSnoc(mode: Mode, q: Question, votes: seq<Vote>, v: Vote)
    requires q.methodType.NumericRange? && Answers(q, v)
    ensures NumberJoins(q, ResultOf(mode, q, votes), ResultOf(mode, q, votes + [v]), NumberOf(q, v))
  {
    hide Answers, NumberOf, MeanOf, MinOf, MaxOf, Sum;
    var more := votes + [v];
    assert more[..|more|] == more && more[..|votes|] == votes;
    NumbersStep(q, more, |votes|);
    var numbers, x := Numbers(q, votes), NumberOf(q, v);
    assert Numbers(q, more) == numbers + [x];
    hide Numbers;
    ExtremesSnoc(numbers, x);
  }

  lemma NumberParts(mode: Mode, q: Question, v: Vote)
    requires Answers(q, v)
    ensures WeightPart(mode, q)(v) == Weight(mode, v)
    ensures NumberPart(mode, q)(v) == Weighted(NumberOf(q, v), Weight(mode, v))
  {
    hide Answers, Weight, NumberOf, Weighted;
  }

  lemma WeightedIs(value: real, weight: real)
    ensures Weighted(value, weight) == weight * value
  {
  }

  lemma NumberCounts(mode: Mode, q: Question, votes: seq<Vote>, v: Vote, a: Answer)
    requires q.methodType.NumericRange? && GivesAnswer(v, q.questionId, a) && a.numericValue.Some?
    ensures NumberJoins(q, ResultOf(mode, q, votes), ResultOf(mode, q, votes + [v]), a.numericValue.value)
  {
    GivenIsExtracted(v, q.questionId, a);
    assert Answers(q, v) && NumberOf(q, v) == a.numericValue.value;
    hide *;
    NumbersSnoc(mode, q, votes, v);
  }

  lemma SumsSnoc(mode: Mode, q: Question, votes: seq<Vote>, v: Vote)
    requires Answers(q, v)
    ensures Sum(votes + [v], WeightPart(mode, q)) == Sum(votes, WeightPart(mode, q)) + Weight(mode, v)
    ensures Sum(votes + [v], NumberPart(mode, q)) ==
            Sum(votes, NumberPart(mode, q)) + Weighted(NumberOf(q, v), Weight(mode, v))
  {
    hide *;
    NumberParts(mode, q, v);
    SumSnoc(votes, v, WeightPart(mode, q));
    SumSnoc(votes, v, NumberPart(mode, q));
  }

  lemma NumberGiven(mode: Mode, q: Question, v: Vote, a: Answer, weight: real)
    requires q.methodType.NumericRange? && GivesAnswer(v, q.questionId, a) && a.numericValue.Some?
    requires Weighs(mode, v, weight)
    ensures Answers(q, v) && NumberOf(q, v) == a.numericValue.value && Weight(mode, v) == weight
  {
    GivenIsExtracted(v, q.questionId, a);
    WeighsIff(mode, v, weight);
  }

  /** Both sums that make up the mean take the vote in. */
  lemma NumberWeighs(mode: Mode, q: Question, votes: seq<Vote>, v: Vote, a: Answer, weight: real)
    requires q.methodType.NumericRange? && GivesAnswer(v, q.questionId, a) && a.numericValue.Some?
    requires Weighs(mode, v, weight)
    ensures Sum(votes + [v], WeightPart(mode, q)) == Sum(votes, WeightPart(mode, q)) + weight
    ensures Sum(votes + [v], NumberPart(mode, q)) == Sum(votes, NumberPart(mode, q)) + weight * a.numericValue.value
  {
    hide *;
    NumberGiven(mode, q, v, a, weight);
    SumsSnoc(mode, q, votes, v);
    WeightedIs(a.numericValue.value, weight);
  }

  lemma MeanTimesWeight(sum: real, weight: real)
    requires MeanOf(sum, weight).Some?
    ensures MeanOf(sum, weight).value * weight == sum
  {
  }

  /** The mean times the weight of the votes that answer is the weighted sum of their numbers. */
  lemma MeanIsWeighted(mode: Mode, q: Question, votes: seq<Vote>)
    requires q.methodType.NumericRange? && ResultOf(mode, q, votes).mean.Some?
    ensures ResultOf(mode, q, votes).mean.value * Sum(votes, WeightPart(mode, q)) == Sum(votes, NumberPart(mode, q))
  {
    hide MeanOf, MinOf, MaxOf, Numbers, Sum;
    MeanTimesWeight(Sum(votes, NumberPart(mode, q)), Sum(votes, WeightPart(mode, q)));
  }

  /** The total of the custom value grows by the weight. */
  lemma CustomCounts(mode: Mode, q: Question, votes: seq<Vote>, v: Vote, a: Answer, weight: real)
    requires q.methodType.Custom?
    requires GivesAnswer(v, q.questionId, a) && a.customValue.Some? && Weighs(mode, v, weight)
    ensures var before, after, c := ResultOf(mode, q, votes), ResultOf(mode, q, votes + [v]), a.customValue.value;
            && before.CustomTotals? && after.CustomTotals? && after.questionId == q.questionId
            && after.customTotals ==
               before.customTotals[c := (if c in before.customTotals then before.customTotals[c] else 0.0) + weight]
  {
    GivenIsExtracted(v, q.questionId, a);
    WeighsIff(mode, v, weight);
    var more := votes + [v];
    assert more[..|more|] == more && more[..|votes|] == votes;
    CustomStep(mode, q, more, |votes|);
  }

  /** Whether an answer has a value of the kind that a question asks for. */
  ghost predicate Fits(q: Question, a: Answer) {
    match q.methodType
    case SingleChoice => a.selection.Some?
    case MultiSelect => a.selection.Some?
    case NumericRange => a.numericValue.Some?
    case Custom(_) => a.customValue.Some?
  }

  /** A vote without such an answer changes nothing. */
  lemma OthersDoNotCount(mode: Mode, q: Question, votes: seq<Vote>, v: Vote)
    requires forall a :: GivesAnswer(v, q.questionId, a) ==> !Fits(q, a)
    ensures ResultOf(mode, q, votes + [v]) == ResultOf(mode, q, votes)
  {
    if Answers(q, v) {
      GivenIsExtracted(v, q.questionId, ExtractedAnswer(v, q.questionId).value);
    }
    NothingChanges(mode, q, votes, v);
  }

  // ----- in the tally

  /** The vote of a voter who has none yet joins those that its role's results are made of. */
  lemma NewVoteJoins(s: Setting, votes: seq<Vote>, v: Vote, r: nat, j: nat)
    requires r < |s.weighting| && j < |s.survey.questions|
    requires Accepts(s, v) && RoleOf(v.voterType) == s.weighting[r].role
    requires !HasKey(Accepted(s, votes, s.weighting[r].role), KeyOf(v))
    ensures var t, u, rm, q := TallyOf(s, votes), TallyOf(s, votes + [v]), s.weighting[r], s.survey.questions[j];
            && r < |t.roleResults| && j < |t.roleResults[r].results| && r < |u.roleResults|
               && j < |u.roleResults[r].results|
            && ResultIn(t, r, j) == ResultOf(rm.mode, q, CountedVotes(s, votes, rm.role))
            && ResultIn(u, r, j) == ResultOf(rm.mode, q, CountedVotes(s, votes, rm.role) + [v])
  {
    ResultAt(s, votes, r, j);
    ResultAt(s, votes + [v], r, j);
    CountedSnoc(s, votes, s.weighting[r].role, v);
  }

  /** So a new voter's choice raises exactly the totals of the options it names, in its own role,
      by its weight. */
  lemma ChoiceRaisesTally(s: Setting, votes: seq<Vote>, v: Vote, r: nat, j: nat, a: Answer, weight: real)
    requires r < |s.weighting| && j < |s.survey.questions|
    requires Accepts(s, v) && RoleOf(v.voterType) == s.weighting[r].role
    requires !HasKey(Accepted(s, votes, s.weighting[r].role), KeyOf(v))
    requires s.survey.questions[j].methodType.SingleChoice? || s.survey.questions[j].methodType.MultiSelect?
    requires GivesAnswer(v, s.survey.questions[j].questionId, a) && a.selection.Some?
    requires Weighs(s.weighting[r].mode, v, weight)
    ensures var t, u := TallyOf(s, votes), TallyOf(s, votes + [v]);
            && r < |t.roleResults| && j < |t.roleResults[r].results| && r < |u.roleResults|
               && j < |u.roleResults[r].results|
            && OptionsGrow(s.survey.questions[j], ResultIn(t, r, j), ResultIn(u, r, j), a.selection.value, weight)
  {
    NewVoteJoins(s, votes, v, r, j);
    hide *;
    SelectionCounts(s.weighting[r].mode, s.survey.questions[j], CountedVotes(s, votes, s.weighting[r].role), v, a,
                    weight);
  }

  // ----- which votes count, and what is wrong with their weights

  ghost predicate Asks(qs: seq<Question>, id: string) {
    exists k :: 0 <= k < |qs| && qs[k].questionId == id
  }

  /** Every vote that a role's results are made of was cast in that role, for this survey, not by
      the survey's own transaction, in time, and answers each of some of its questions once. */
  lemma CountedAreValid(s: Setting, votes: seq<Vote>, role: Role, v: Vote)
    requires v in CountedVotes(s, votes, role)
    ensures v in votes && RoleOf(v.voterType) == role
            && (exists i :: 0 <= i < |s.weighting| && s.weighting[i].role == role)
    ensures !v.payload.Missing?
    ensures var r := v.payload.response;
            && r.specVersion == "1.0.0" && r.surveyTxId == s.surveyTxId && r.responderRole == Some(role)
            && (v.txHash != "" ==> v.txHash != s.surveyTxId)
            && (v.responseEpoch.Some? ==> v.responseEpoch.value <= s.survey.endEpoch)
            && r.answers != []
            && (forall i, j :: 0 <= i < j < |r.answers| ==> r.answers[i].questionId != r.answers[j].questionId)
            && (forall i :: 0 <= i < |r.answers| ==> Asks(s.survey.questions, r.answers[i].questionId))
  {
    var counted := CountedVotes(s, votes, role);
    var i :| 0 <= i < |counted| && counted[i] == v;
    CountedAreAccepted(s, votes, role, i);
    RoleIsFound(s.weighting, role);
    var answers := v.payload.response.answers;
    forall i | 0 <= i < |answers|
      ensures Asks(s.survey.questions, answers[i].questionId)
    {
      assert GoodAnswer(s.survey.questions, answers[i]);
      var k := QuestionIsOne(s.survey.questions, answers[i].questionId);
    }
  }

  /** What a question allows: one option, some options but not too many, or a whole number in its
      range that lies on its step. */
  ghost predicate Allowed(q: Question, a: Answer) {
    match q.methodType
    case SingleChoice =>
      a.selection.Some? && |a.selection.value| == 1 && 0 <= a.selection.value[0] < OptionCount(q)
    case MultiSelect =>
      && a.selection.Some? && q.maxSelections.Some? && |a.selection.value| <= q.maxSelections.value
      && forall k :: 0 <= k < |a.selection.value| ==> 0 <= a.selection.value[k] < OptionCount(q)
    case NumericRange =>
      && a.numericValue.Some? && q.numericConstraints.Some?
      && exists n: int :: n as real == a.numericValue.value && OnScale(q.numericConstraints.value, n)
    case Custom(_) => true
  }

  ghost predicate OnScale(c: Constraints, n: int) {
    c.minValue <= n <= c.maxValue && (c.step.Some? ==> c.step.value > 0 && (n - c.minValue) % c.step.value == 0)
  }

  /** In a valid survey, every answer under the label of a counted vote is one that its question allows. */
  lemma CountedAnswersAreAllowed(s: Setting, votes: seq<Vote>, role: Role, v: Vote, j: nat, a: Answer)
    requires ValidQuestions(s.survey.questions) && v in CountedVotes(s, votes, role) && j < |s.survey.questions|
    requires GivesAnswer(v, s.survey.questions[j].questionId, a)
    ensures Allowed(s.survey.questions[j], a)
  {
    var counted, q := CountedVotes(s, votes, role), s.survey.questions[j];
    var i :| 0 <= i < |counted| && counted[i] == v;
    CountedAreGood(s, votes, role);
    GivenIsExtracted(v, q.questionId, a);
    AnswersAreValid(s.survey.questions, j, v);
    hide CountedVotes, GivesAnswer, GoodVotes;
    assert ValidQuestion(q) && ValidAnswer(q, a);
    ValidIsAllowed(q, a);
  }

  lemma ValidIsAllowed(q: Question, a: Answer)
    requires ValidQuestion(q) && ValidAnswer(q, a)
    ensures Allowed(q, a)
  {
    if q.methodType.NumericRange? {
      var n := a.numericValue.value.Floor;
      assert n as real == a.numericValue.value && OnScale(q.numericConstraints.value, n);
    }
  }

  /** What is wrong with the weight of a vote: an error noted with its snapshot, or no stake at all. */
  ghost predicate Complains(rm: RoleMode, v: Vote, p: Problem) {
    && rm.mode != CredentialBased
    && (|| v.snapshotWeightError == Some(p)
        || (&& rm.mode == StakeBased && v.snapshotWeight == None && (v.votingPower == None || v.votingPower == Some(0))
            && p == MissingVotingPower(rm.role, StakeBased)))
  }

  lemma {:induction false} QuestionProblems(role: Role, mode: Mode, qs: seq<Question>, votes: seq<Vote>, p: Problem)
    ensures p in AllProblems(role, mode, qs, votes) <==>
            exists j :: 0 <= j < |qs| && p in ProblemsOf(role, mode, qs[j], votes)
  {
    if qs == [] {
    } else {
      QuestionProblems(role, mode, qs[..|qs| - 1], votes, p);
      assert forall j :: 0 <= j < |qs| - 1 ==> qs[..|qs| - 1][j] == qs[j];
    }
  }

  lemma {:induction false} RoleProblemsMember(s: Setting, votes: seq<Vote>, w: Weighting, p: Problem)
    ensures p in ErrorsOf(s, votes, w) <==> exists r :: 0 <= r < |w| && p in RoleProblems(s, votes, w[r])
  {
    hide RoleProblems;
    if w == [] {
    } else {
      RoleProblemsMember(s, votes, w[..|w| - 1], p);
      assert forall r :: 0 <= r < |w| - 1 ==> w[..|w| - 1][r] == w[r];
    }
  }

  /** Counted vote i of weighted role r answers question j, and its weight complains. */
  ghost predicate ComplainsIn(s: Setting, votes: seq<Vote>, r: nat, j: nat, i: nat, p: Problem) {
    && r < |s.weighting| && j < |s.survey.questions| && i < |CountedVotes(s, votes, s.weighting[r].role)|
    && Answers(s.survey.questions[j], CountedVotes(s, votes, s.weighting[r].role)[i])
    && Complains(s.weighting[r], CountedVotes(s, votes, s.weighting[r].role)[i], p)
  }

  /** The errors of a tally are the complaints about the weights of counted votes that answer. */
  lemma TallyErrorsIff(s: Setting, votes: seq<Vote>, p: Problem)
    ensures p in TallyOf(s, votes).errors <==> exists r: nat, j: nat, i: nat :: ComplainsIn(s, votes, r, j, i, p)
  {
    hide CountedVotes, Answers;
    RoleProblemsMember(s, votes, s.weighting, p);
    forall r: nat | r < |s.weighting|
      ensures p in RoleProblems(s, votes, s.weighting[r]) <==>
              exists j: nat, i: nat :: ComplainsIn(s, votes, r, j, i, p)
    {
      RoleComplaints(s, votes, r, p);
    }
  }

  lemma RoleComplaints(s: Setting, votes: seq<Vote>, r: nat, p: Problem)
    requires r < |s.weighting|
    ensures p in RoleProblems(s, votes, s.weighting[r]) <==> exists j: nat, i: nat :: ComplainsIn(s, votes, r, j, i, p)
  {
    hide CountedVotes, Answers;
    var rm, qs, counted := s.weighting[r], s.survey.questions, CountedVotes(s, votes, s.weighting[r].role);
    QuestionProblems(rm.role, rm.mode, qs, counted, p);
    forall j: nat | j < |qs|
      ensures p in ProblemsOf(rm.role, rm.mode, qs[j], counted) <==> exists i: nat :: ComplainsIn(s, votes, r, j, i, p)
    {
      ProblemsMember(rm.role, rm.mode, qs[j], counted, p);
      forall i: nat
        ensures ComplainsIn(s, votes, r, j, i, p) <==>
                i < |counted| && Answers(qs[j], counted[i]) && p in WeightProblems(rm.role, rm.mode, counted[i])
      {
      }
    }
  }
}
