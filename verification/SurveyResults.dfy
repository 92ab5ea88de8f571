/** The results per question: `buildMethodResults` and `getVoteWeight` in
    src/libs/surveyMetadata.ts. */
module SurveyResults {
  import opened Common
  import opened Sums
  import opened SurveyTypes

  /** What the tally reads: only responses under label 17. */
  function ExtractedAnswer(v: Vote, questionId: string): Option<Answer> {
    if v.payload.Label17? then FindAnswer(v.payload.response.answers, questionId) else None
  }

  function FindAnswer(answers: seq<Answer>, questionId: string): Option<Answer> {
    if answers == [] then None
    else if answers[0].questionId == questionId then Some(answers[0])
    else FindAnswer(answers[1..], questionId)
  }

  // ----- weights

  function Weight(mode: Mode, v: Vote): real {
    match mode
    case CredentialBased => 1.0
    case PledgeBased => v.snapshotWeight.GetOr(0.0)
    case StakeBased =>
      if v.snapshotWeight.Some? then v.snapshotWeight.value
      else v.votingPower.GetOr(0) as real / 1000000.0
  }

  function WeightProblems(role: Role, mode: Mode, v: Vote): set<Problem> {
    if mode == CredentialBased then {}
    else
      (if v.snapshotWeightError.Some? then {v.snapshotWeightError.value} else {}) +
      (if mode == StakeBased && v.snapshotWeight == None && v.votingPower.GetOr(0) == 0
       then {MissingVotingPower(role, mode)} else {})
  }

  method GetVoteWeight(role: Role, mode: Mode, v: Vote, errors: set<Problem>)
    returns (weight: real, errors': set<Problem>)
    ensures weight == Weight(mode, v) && errors' == errors + WeightProblems(role, mode, v)
  {
    errors' := errors;
    if mode == CredentialBased {
      return 1.0, errors;
    }
    if v.snapshotWeightError.Some? {
      errors' := errors' + {v.snapshotWeightError.value};
    }
    if mode == PledgeBased {
      return v.snapshotWeight.GetOr(0.0), errors';
    }
    if v.snapshotWeight.Some? {
      return v.snapshotWeight.value, errors';
    }
    if v.votingPower == None || v.votingPower.value == 0 {
      errors' := errors' + {MissingVotingPower(role, mode)};
      return 0.0, errors';
    }
    return v.votingPower.value as real / 1000000.0, errors';
  }

  // ----- what the results mean

  function Times(selection: seq<int>, option: int): nat {
    if selection == [] then 0
    else Times(selection[..|selection| - 1], option) + if selection[|selection| - 1] == option then 1 else 0
  }

  /** Whether a vote has an answer of the kind the question asks for. */
  predicate Answers(q: Question, v: Vote) {
    var a := ExtractedAnswer(v, q.questionId);
    a.Some? &&
    match q.methodType
    case SingleChoice => a.value.selection.Some?
    case MultiSelect => a.value.selection.Some?
    case NumericRange => a.value.numericValue.Some?
    case Custom(_) => a.value.customValue.Some?
  }

  function Selected(q: Question, v: Vote): seq<int> {
    var a := ExtractedAnswer(v, q.questionId);
    if a.Some? then a.value.selection.GetOr([]) else []
  }

  function NumberOf(q: Question, v: Vote): real {
    var a := ExtractedAnswer(v, q.questionId);
    if a.Some? then a.value.numericValue.GetOr(0.0) else 0.0
  }

  function CustomOf(q: Question, v: Vote): string {
    var a := ExtractedAnswer(v, q.questionId);
    if a.Some? then a.value.customValue.GetOr("") else ""
  }

  function Multiple(weight: real, n: nat): real {
    weight * n as real
  }

  function Weighted(value: real, weight: real): real {
    value * weight
  }

  /** A vote's part in one option's total. */
  function OptionPart(mode: Mode, q: Question, option: int): Vote -> real {
    v => if Answers(q, v) then Multiple(Weight(mode, v), Times(Selected(q, v), option)) else 0.0
  }

  function WeightPart(mode: Mode, q: Question): Vote -> real {
    v => if Answers(q, v) then Weight(mode, v) else 0.0
  }

  function NumberPart(mode: Mode, q: Question): Vote -> real {
    v => if Answers(q, v) then Weighted(NumberOf(q, v), Weight(mode, v)) else 0.0
  }

  function CustomPart(mode: Mode, q: Question, value: string): Vote -> real {
    v => if Answers(q, v) && CustomOf(q, v) == value then Weight(mode, v) else 0.0
  }

  datatype QuestionResult =
    | OptionTotals(questionId: string, totals: seq<real>)
    | NumericSummary(questionId: string, count: nat, min: Option<real>, max: Option<real>, mean: Option<real>)
    | CustomTotals(questionId: string, customTotals: map<string, real>)

  function Numbers(q: Question, votes: seq<Vote>): seq<real> {
    if votes == [] then []
    else
      var v := votes[|votes| - 1];
      Numbers(q, votes[..|votes| - 1]) + if Answers(q, v) then [NumberOf(q, v)] else []
  }

  function MinOf(s: seq<real>): (m: real)
    requires s != []
    ensures m in s && forall i :: 0 <= i < |s| ==> m <= s[i]
  {
    var last := s[|s| - 1];
    if |s| == 1 then last
    else
      var m := MinOf(s[..|s| - 1]);
      assert m in s;
      if last < m then last else m
  }

  function MaxOf(s: seq<real>): (m: real)
    requires s != []
    ensures m in s && forall i :: 0 <= i < |s| ==> s[i] <= m
  {
    var last := s[|s| - 1];
    if |s| == 1 then last
    else
      var m := MaxOf(s[..|s| - 1]);
      assert m in s;
      if last > m then last else m
  }

  function CustomValues(q: Question, votes: seq<Vote>): set<string> {
    if votes == [] then {}
    else
      var v := votes[|votes| - 1];
      CustomValues(q, votes[..|votes| - 1]) + if Answers(q, v) then {CustomOf(q, v)} else {}
  }

  function OptionCount(q: Question): nat {
    |q.options.GetOr([])|
  }

  function OptionSums(mode: Mode, q: Question, votes: seq<Vote>): (sums: seq<real>)
    ensures |sums| == OptionCount(q)
  {
    seq(OptionCount(q), i requires 0 <= i < OptionCount(q) => Sum(votes, OptionPart(mode, q, i)))
  }

  function CustomSums(mode: Mode, q: Question, votes: seq<Vote>): map<string, real> {
    map c | c in CustomValues(q, votes) :: Sum(votes, CustomPart(mode, q, c))
  }

  function MeanOf(weighted: real, weight: real): Option<real> {
    if weight > 0.0 then Some(weighted / weight) else None
  }

  /** A question's result in terms of sums over the votes. */
  function ResultOf(mode: Mode, q: Question, votes: seq<Vote>): QuestionResult {
    match q.methodType
    case SingleChoice => OptionTotals(q.questionId, OptionSums(mode, q, votes))
    case MultiSelect => OptionTotals(q.questionId, OptionSums(mode, q, votes))
    case NumericRange =>
      var values, total := Numbers(q, votes), Sum(votes, WeightPart(mode, q));
      if values == [] then NumericSummary(q.questionId, 0, None, None, None)
      else NumericSummary(q.questionId, |values|, Some(MinOf(values)), Some(MaxOf(values)),
                          MeanOf(Sum(votes, NumberPart(mode, q)), total))
    case Custom(_) => CustomTotals(q.questionId, CustomSums(mode, q, votes))
  }

  /** What the weights of the answering votes complain about. */
  function ProblemsOf(role: Role, mode: Mode, q: Question, votes: seq<Vote>): set<Problem> {
    if votes == [] then {}
    else
      var v := votes[|votes| - 1];
      ProblemsOf(role, mode, q, votes[..|votes| - 1]) + if Answers(q, v) then WeightProblems(role, mode, v) else {}
  }

  // ----- the loops

  /** Looks for the vote's answer to a question; only an answer of the right kind is weighed. */
  method WeighAnswer(role: Role, mode: Mode, q: Question, v: Vote)
    returns (answers: bool, weight: real, errors: set<Problem>)
    ensures answers == Answers(q, v)
    ensures weight == (if answers then Weight(mode, v) else 0.0)
    ensures errors == if answers then WeightProblems(role, mode, v) else {}
  {
    answers, weight, errors := false, 0.0, {};
    var answer := ExtractedAnswer(v, q.questionId);
    if answer == None { return; }
    match q.methodType {
      case SingleChoice => answers := answer.value.selection.Some?;
      case MultiSelect => answers := answer.value.selection.Some?;
      case NumericRange => answers := answer.value.numericValue.Some?;
      case Custom(_) => answers := answer.value.customValue.Some?;
    }
    if answers {
      weight, errors := GetVoteWeight(role, mode, v, {});
    }
  }

  lemma ProblemsStep(role: Role, mode: Mode, q: Question, votes: seq<Vote>, i: nat)
    requires i < |votes|
    ensures ProblemsOf(role, mode, q, votes[..i + 1]) ==
            ProblemsOf(role, mode, q, votes[..i]) +
              if Answers(q, votes[i]) then WeightProblems(role, mode, votes[i]) else {}
  {
    assert votes[..i + 1][..i] == votes[..i];
  }

  lemma SumStep(votes: seq<Vote>, i: nat, f: Vote -> real)
    requires i < |votes|
    ensures Sum(votes[..i + 1], f) == Sum(votes[..i], f) + f(votes[i])
  {
    assert votes[..i + 1] == votes[..i] + [votes[i]];
    SumSnoc(votes[..i], votes[i], f);
  }

  /** Totals to which one vote adds its weight, once for each time it names an option. */
  function Added(totals: seq<real>, selection: seq<int>, weight: real): (r: seq<real>)
    ensures |r| == |totals|
  {
    seq(|totals|, j requires 0 <= j < |totals| => totals[j] + Multiple(weight, Times(selection, j)))
  }

  lemma OptionSumsStep(mode: Mode, q: Question, votes: seq<Vote>, i: nat)
    requires i < |votes|
    ensures OptionSums(mode, q, votes[..i + 1]) ==
            var before := OptionSums(mode, q, votes[..i]);
            if Answers(q, votes[i]) then Added(before, Selected(q, votes[i]), Weight(mode, votes[i])) else before
  {
    hide Answers, Weight, Selected, Sum, Multiple;
    var v := votes[i];
    var before, after := OptionSums(mode, q, votes[..i]), OptionSums(mode, q, votes[..i + 1]);
    var expected := if Answers(q, v) then Added(before, Selected(q, v), Weight(mode, v)) else before;
    forall j | 0 <= j < OptionCount(q)
      ensures after[j] == expected[j]
    {
      SumStep(votes, i, OptionPart(mode, q, j));
      assert before[j] == Sum(votes[..i], OptionPart(mode, q, j));
      assert after[j] == Sum(votes[..i + 1], OptionPart(mode, q, j));
    }
    assert after == expected;
  }

  method TallyOptions(role: Role, mode: Mode, q: Question, votes: seq<Vote>)
    returns (r: QuestionResult, errors: set<Problem>)
    requires q.methodType.SingleChoice? || q.methodType.MultiSelect?
    ensures r == ResultOf(mode, q, votes) && errors == ProblemsOf(role, mode, q, votes)
  {
    hide Answers, Weight, WeightProblems, Selected;
    errors := {};
    var optionTotals := new real[OptionCount(q)](_ => 0.0);
    assert optionTotals[..] == OptionSums(mode, q, votes[..0]);
    for i := 0 to |votes|
      invariant optionTotals[..] == OptionSums(mode, q, votes[..i])
      invariant errors == ProblemsOf(role, mode, q, votes[..i])
    {
      ProblemsStep(role, mode, q, votes, i);
      var answers, weight, more := WeighAnswer(role, mode, q, votes[i]);
      errors := errors + more;
      OptionSumsStep(mode, q, votes, i);
      if answers {
        AddSelection(optionTotals, Selected(q, votes[i]), weight);
      }
    }
    assert votes[..|votes|] == votes;
    r := OptionTotals(q.questionId, optionTotals[..]);
  }

  method AddSelection(optionTotals: array<real>, selection: seq<int>, weight: real)
    modifies optionTotals
    ensures optionTotals[..] == Added(old(optionTotals[..]), selection, weight)
  {
    ghost var before := optionTotals[..];
    NothingAdded(before, weight);
    assert selection[..0] == [];
    for k := 0 to |selection|
      invariant optionTotals[..] == Added(before, selection[..k], weight)
    {
      var s := selection[k];
      AddedStep(before, selection, k, weight);
      if s >= 0 && s < optionTotals.Length {
        optionTotals[s] := optionTotals[s] + weight;
      }
    }
    assert selection[..|selection|] == selection;
  }

  lemma NothingAdded(totals: seq<real>, weight: real)
    ensures Added(totals, [], weight) == totals
  {
    assert Multiple(weight, 0) == 0.0;
  }

  lemma MultipleStep(weight: real, n: nat)
    ensures Multiple(weight, n + 1) == Multiple(weight, n) + weight
  {
  }

  lemma AddedStep(totals: seq<real>, selection: seq<int>, k: nat, weight: real)
    requires k < |selection|
    ensures var s, added := selection[k], Added(totals, selection[..k], weight);
            Added(totals, selection[..k + 1], weight) ==
            if 0 <= s < |totals| then added[s := added[s] + weight] else added
  {
    hide Multiple;
    assert selection[..k + 1][..k] == selection[..k];
    var s, added, more :=
      selection[k], Added(totals, selection[..k], weight), Added(totals, selection[..k + 1], weight);
    var expected := if 0 <= s < |totals| then added[s := added[s] + weight] else added;
    forall j | 0 <= j < |totals|
      ensures more[j] == expected[j]
    {
      MultipleStep(weight, Times(selection[..k], j));
    }
    assert more == expected;
  }

  lemma NumbersStep(q: Question, votes: seq<Vote>, i: nat)
    requires i < |votes|
    ensures Numbers(q, votes[..i + 1]) ==
            Numbers(q, votes[..i]) + if Answers(q, votes[i]) then [NumberOf(q, votes[i])] else []
  {
    assert votes[..i + 1][..i] == votes[..i];
  }

  method TallyNumbers(role: Role, mode: Mode, q: Question, votes: seq<Vote>)
    returns (r: QuestionResult, errors: set<Problem>)
    requires q.methodType.NumericRange?
    ensures r == ResultOf(mode, q, votes) && errors == ProblemsOf(role, mode, q, votes)
  {
    hide Answers, Weight, WeightProblems, NumberOf, Weighted, MinOf, MaxOf, MeanOf;
    errors := {};
    var values: seq<real> := [];
    var weightedTotal, totalWeight := 0.0, 0.0;
    ghost var numberPart, weightPart := NumberPart(mode, q), WeightPart(mode, q);
    for i := 0 to |votes|
      invariant values == Numbers(q, votes[..i])
      invariant weightedTotal == Sum(votes[..i], numberPart) && totalWeight == Sum(votes[..i], weightPart)
      invariant errors == ProblemsOf(role, mode, q, votes[..i])
    {
      ProblemsStep(role, mode, q, votes, i);
      NumbersStep(q, votes, i);
      SumStep(votes, i, numberPart);
      SumStep(votes, i, weightPart);
      var answers, weight, more := WeighAnswer(role, mode, q, votes[i]);
      errors := errors + more;
      if answers {
        var value := NumberOf(q, votes[i]);
        values := values + [value];
        weightedTotal := weightedTotal + Weighted(value, weight);
        totalWeight := totalWeight + weight;
      }
    }
    assert votes[..|votes|] == votes;
    var count := |values|;
    r := if count > 0 then
           NumericSummary(q.questionId, count, Some(MinOf(values)), Some(MaxOf(values)),
                          MeanOf(weightedTotal, totalWeight))
         else NumericSummary(q.questionId, 0, None, None, None);
  }

  method TallyCustom(role: Role, mode: Mode, q: Question, votes: seq<Vote>)
    returns (r: QuestionResult, errors: set<Problem>)
    requires q.methodType.Custom?
    ensures r == ResultOf(mode, q, votes) && errors == ProblemsOf(role, mode, q, votes)
  {
    hide Answers, Weight, WeightProblems, CustomOf;
    errors := {};
    var totals: map<string, real> := map[];
    for i := 0 to |votes|
      invariant totals == CustomSums(mode, q, votes[..i])
      invariant errors == ProblemsOf(role, mode, q, votes[..i])
    {
      ProblemsStep(role, mode, q, votes, i);
      CustomStep(mode, q, votes, i);
      var answers, weight, more := WeighAnswer(role, mode, q, votes[i]);
      errors := errors + more;
      if answers {
        var key := CustomOf(q, votes[i]);
        totals := totals[key := (if key in totals then totals[key] else 0.0) + weight];
      }
    }
    assert votes[..|votes|] == votes;
    r := CustomTotals(q.questionId, totals);
  }

  lemma {:induction false} UnseenCustom(mode: Mode, q: Question, votes: seq<Vote>, c: string)
    requires c !in CustomValues(q, votes)
    ensures Sum(votes, CustomPart(mode, q, c)) == 0.0
  {
    if votes == [] {
    } else {
      UnseenCustom(mode, q, votes[..|votes| - 1], c);
    }
  }

  lemma CustomValueStep(mode: Mode, q: Question, votes: seq<Vote>, i: nat, c: string)
    requires i < |votes|
    ensures Sum(votes[..i + 1], CustomPart(mode, q, c)) ==
            (if c in CustomValues(q, votes[..i]) then Sum(votes[..i], CustomPart(mode, q, c)) else 0.0)
            + if Answers(q, votes[i]) && CustomOf(q, votes[i]) == c then Weight(mode, votes[i]) else 0.0
  {
    hide Answers, Weight, CustomOf, Sum;
    SumStep(votes, i, CustomPart(mode, q, c));
    if c !in CustomValues(q, votes[..i]) { UnseenCustom(mode, q, votes[..i], c); }
  }

  lemma CustomStep(mode: Mode, q: Question, votes: seq<Vote>, i: nat)
    requires i < |votes|
    ensures var before, c := CustomSums(mode, q, votes[..i]), CustomOf(q, votes[i]);
            CustomSums(mode, q, votes[..i + 1]) ==
            if Answers(q, votes[i]) then before[c := (if c in before then before[c] else 0.0) + Weight(mode, votes[i])]
            else before
  {
    hide Answers, Weight, CustomOf, Sum;
    var v := votes[i];
    var before, after := CustomSums(mode, q, votes[..i]), CustomSums(mode, q, votes[..i + 1]);
    assert votes[..i + 1][..i] == votes[..i];
    assert after.Keys == before.Keys + if Answers(q, v) then {CustomOf(q, v)} else {};
    forall c | c in after
      ensures after[c] == (if c in before then before[c] else 0.0) +
                          if Answers(q, v) && CustomOf(q, v) == c then Weight(mode, v) else 0.0
    {
      CustomValueStep(mode, q, votes, i, c);
    }
  }

  /** All questions, in order. */
  function ResultsOf(mode: Mode, qs: seq<Question>, votes: seq<Vote>): seq<QuestionResult> {
    seq(|qs|, i requires 0 <= i < |qs| => ResultOf(mode, qs[i], votes))
  }

  function AllProblems(role: Role, mode: Mode, qs: seq<Question>, votes: seq<Vote>): set<Problem> {
    if qs == [] then {}
    else AllProblems(role, mode, qs[..|qs| - 1], votes) + ProblemsOf(role, mode, qs[|qs| - 1], votes)
  }

  method TallyQuestion(role: Role, mode: Mode, q: Question, votes: seq<Vote>)
    returns (r: QuestionResult, errors: set<Problem>)
    ensures r == ResultOf(mode, q, votes) && errors == ProblemsOf(role, mode, q, votes)
  {
    if q.methodType.SingleChoice? || q.methodType.MultiSelect? {
      r, errors := TallyOptions(role, mode, q, votes);
    } else if q.methodType.NumericRange? {
      r, errors := TallyNumbers(role, mode, q, votes);
    } else {
      r, errors := TallyCustom(role, mode, q, votes);
    }
  }

  method BuildMethodResults(role: Role, mode: Mode, qs: seq<Question>, votes: seq<Vote>)
    returns (results: seq<QuestionResult>, errors: set<Problem>)
    ensures results == ResultsOf(mode, qs, votes) && errors == AllProblems(role, mode, qs, votes)
  {
    hide ResultOf, ProblemsOf;
    results, errors := [], {};
    for i := 0 to |qs|
      invariant |results| == i && forall j :: 0 <= j < i ==> results[j] == ResultOf(mode, qs[j], votes)
      invariant errors == AllProblems(role, mode, qs[..i], votes)
    {
      assert qs[..i + 1][..i] == qs[..i];
      var r, problems := TallyQuestion(role, mode, qs[i], votes);
      results := results + [r];
      errors := errors + problems;
    }
    assert qs[..|qs|] == qs;
  }
}
