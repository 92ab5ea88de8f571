/** What the results per question promise: they do not depend on the order of the votes,
    choices add up to the weight that was cast, and means lie between the extremes. */
module SurveyResultLaws {
  import opened Common
  import opened Arithmetic
  import opened Sums
  import opened SurveyTypes
  import opened SurveyValidation
  import opened SurveyResults

  // ----- order

  lemma NumbersSnoc(q: Question, votes: seq<Vote>, v: Vote)
    ensures Numbers(q, votes + [v]) == Numbers(q, votes) + if Answers(q, v) then [NumberOf(q, v)] else []
  {
    assert (votes + [v])[..|votes|] == votes;
  }

  function NumberBag(q: Question, v: Vote): multiset<real> {
    if Answers(q, v) then multiset{NumberOf(q, v)} else multiset{}
  }

  function Bag(q: Question, votes: seq<Vote>): multiset<real> {
    multiset(Numbers(q, votes))
  }

  lemma BagSnoc(q: Question, votes: seq<Vote>, v: Vote)
    ensures Bag(q, votes + [v]) == Bag(q, votes) + NumberBag(q, v)
  {
    NumbersSnoc(q, votes, v);
  }

  lemma {:induction false} BagRemove(q: Question, votes: seq<Vote>, i: nat)
    requires i < |votes|
    ensures Bag(q, votes) == Bag(q, Remove(votes, i)) + NumberBag(q, votes[i])
  {
    var init, last := votes[..|votes| - 1], votes[|votes| - 1];
    assert votes == init + [last];
    BagSnoc(q, init, last);
    RemoveSnoc(init, last, i);
    if i < |init| {
      BagRemove(q, init, i);
      BagSnoc(q, Remove(init, i), last);
    }
  }

  lemma {:induction false} NumbersPermutation(q: Question, votes: seq<Vote>, other: seq<Vote>)
    requires multiset(votes) == multiset(other)
    ensures Bag(q, votes) == Bag(q, other)
  {
    if votes == [] {
      assert |other| == |multiset(other)| == 0;
    } else {
      var last := votes[|votes| - 1];
      assert last in multiset(votes);
      assert last in other;
      var i :| 0 <= i < |other| && other[i] == last;
      RemoveMultiset(votes, |votes| - 1);
      RemoveMultiset(other, i);
      NumbersPermutation(q, Remove(votes, |votes| - 1), Remove(other, i));
      BagRemove(q, votes, |votes| - 1);
      BagRemove(q, other, i);
    }
  }

  lemma ExtremesPermutation(s: seq<real>, t: seq<real>)
    requires multiset(s) == multiset(t) && s != []
    ensures |t| == |s| && MinOf(s) == MinOf(t) && MaxOf(s) == MaxOf(t)
  {
    assert |s| == |multiset(s)| == |multiset(t)| == |t|;
    assert MinOf(s) in multiset(t) && MaxOf(s) in multiset(t);
    assert MinOf(t) in multiset(s) && MaxOf(t) in multiset(s);
  }

  lemma {:induction false} ProblemsMember(role: Role, mode: Mode, q: Question, votes: seq<Vote>, p: Problem)
    ensures p in ProblemsOf(role, mode, q, votes) <==>
            exists i :: 0 <= i < |votes| && Answers(q, votes[i]) && p in WeightProblems(role, mode, votes[i])
  {
    if votes == [] {
    } else {
      var init := votes[..|votes| - 1];
      ProblemsMember(role, mode, q, init, p);
      assert forall i :: 0 <= i < |init| ==> init[i] == votes[i];
    }
  }

  lemma {:induction false} CustomMember(q: Question, votes: seq<Vote>, c: string)
    ensures c in CustomValues(q, votes) <==>
            exists i :: 0 <= i < |votes| && Answers(q, votes[i]) && CustomOf(q, votes[i]) == c
  {
    if votes == [] {
    } else {
      var init := votes[..|votes| - 1];
      CustomMember(q, init, c);
      assert forall i :: 0 <= i < |init| ==> init[i] == votes[i];
    }
  }

  lemma IndexIn(votes: seq<Vote>, other: seq<Vote>, i: nat) returns (j: nat)
    requires i < |votes| && multiset(votes) == multiset(other)
    ensures j < |other| && other[j] == votes[i]
  {
    assert votes[i] in multiset(votes);
    assert votes[i] in other;
    j :| 0 <= j < |other| && other[j] == votes[i];
  }

  lemma ProblemsInOther(role: Role, mode: Mode, q: Question, votes: seq<Vote>, other: seq<Vote>)
    requires multiset(votes) == multiset(other)
    ensures ProblemsOf(role, mode, q, votes) <= ProblemsOf(role, mode, q, other)
  {
    forall p | p in ProblemsOf(role, mode, q, votes)
      ensures p in ProblemsOf(role, mode, q, other)
    {
      ProblemsMember(role, mode, q, votes, p);
      ProblemsMember(role, mode, q, other, p);
      var i :| 0 <= i < |votes| && Answers(q, votes[i]) && p in WeightProblems(role, mode, votes[i]);
      var j := IndexIn(votes, other, i);
    }
  }

  lemma CustomInOther(q: Question, votes: seq<Vote>, other: seq<Vote>)
    requires multiset(votes) == multiset(other)
    ensures CustomValues(q, votes) <= CustomValues(q, other)
  {
    forall c | c in CustomValues(q, votes)
      ensures c in CustomValues(q, other)
    {
      CustomMember(q, votes, c);
      CustomMember(q, other, c);
      var i :| 0 <= i < |votes| && Answers(q, votes[i]) && CustomOf(q, votes[i]) == c;
      var j := IndexIn(votes, other, i);
    }
  }

  lemma OptionSumsPermutation(mode: Mode, q: Question, votes: seq<Vote>, other: seq<Vote>)
    requires multiset(votes) == multiset(other)
    ensures OptionSums(mode, q, votes) == OptionSums(mode, q, other)
  {
    forall j | 0 <= j < OptionCount(q)
      ensures OptionSums(mode, q, votes)[j] == OptionSums(mode, q, other)[j]
    {
      SumPermutation(votes, other, OptionPart(mode, q, j));
    }
  }

  lemma CustomSumsPermutation(mode: Mode, q: Question, votes: seq<Vote>, other: seq<Vote>)
    requires multiset(votes) == multiset(other)
    ensures CustomSums(mode, q, votes) == CustomSums(mode, q, other)
  {
    CustomInOther(q, votes, other);
    CustomInOther(q, other, votes);
    forall c | c in CustomValues(q, votes)
      ensures CustomSums(mode, q, votes)[c] == CustomSums(mode, q, other)[c]
    {
      SumPermutation(votes, other, CustomPart(mode, q, c));
    }
  }

  lemma SummaryPermutation(mode: Mode, q: Question, votes: seq<Vote>, other: seq<Vote>)
    requires multiset(votes) == multiset(other) && q.methodType.NumericRange?
    ensures ResultOf(mode, q, votes) == ResultOf(mode, q, other)
  {
    NumbersPermutation(q, votes, other);
    SumPermutation(votes, other, NumberPart(mode, q));
    SumPermutation(votes, other, WeightPart(mode, q));
    var s, t := Numbers(q, votes), Numbers(q, other);
    assert |s| == |multiset(s)| == |multiset(t)| == |t|;
    if s != [] { ExtremesPermutation(s, t); }
  }

  /** Reordering the votes changes no result. */
  lemma ResultPermutation(mode: Mode, q: Question, votes: seq<Vote>, other: seq<Vote>)
    requires multiset(votes) == multiset(other)
    ensures ResultOf(mode, q, votes) == ResultOf(mode, q, other)
  {
    match q.methodType
    case SingleChoice => OptionSumsPermutation(mode, q, votes, other);
    case MultiSelect => OptionSumsPermutation(mode, q, votes, other);
    case NumericRange => SummaryPermutation(mode, q, votes, other);
    case Custom(_) => CustomSumsPermutation(mode, q, votes, other);
  }

  lemma {:induction false} AllProblemsPermutation(role: Role, mode: Mode, qs: seq<Question>, votes: seq<Vote>,
                                                  other: seq<Vote>)
    requires multiset(votes) == multiset(other)
    ensures AllProblems(role, mode, qs, votes) == AllProblems(role, mode, qs, other)
  {
    if qs == [] {
    } else {
      AllProblemsPermutation(role, mode, qs[..|qs| - 1], votes, other);
      ProblemsInOther(role, mode, qs[|qs| - 1], votes, other);
      ProblemsInOther(role, mode, qs[|qs| - 1], other, votes);
    }
  }

  lemma ResultsPermutation(mode: Mode, qs: seq<Question>, votes: seq<Vote>, other: seq<Vote>)
    requires multiset(votes) == multiset(other)
    ensures ResultsOf(mode, qs, votes) == ResultsOf(mode, qs, other)
  {
    forall i | 0 <= i < |qs|
      ensures ResultOf(mode, qs[i], votes) == ResultOf(mode, qs[i], other)
    {
      ResultPermutation(mode, qs[i], votes, other);
    }
  }

  // ----- choices add up

  function Total(s: seq<real>): real {
    if s == [] then 0.0 else Total(s[..|s| - 1]) + s[|s| - 1]
  }

  /** How often the options below n are named. */
  function Named(selection: seq<int>, n: nat): nat {
    if n == 0 then 0 else Named(selection, n - 1) + Times(selection, n - 1)
  }

  lemma {:induction false} NamedSnoc(selection: seq<int>, s: int, n: nat)
    ensures Named(selection + [s], n) == Named(selection, n) + if 0 <= s < n then 1 else 0
  {
    if n == 0 {
    } else {
      NamedSnoc(selection, s, n - 1);
      assert (selection + [s])[..|selection|] == selection;
    }
  }

  /** A selection in range names as many options as it is long, repetitions included. */
  lemma {:induction false} NamedIsLength(selection: seq<int>, n: nat)
    requires forall i :: 0 <= i < |selection| ==> 0 <= selection[i] < n
    ensures Named(selection, n) == |selection|
  {
    if selection == [] {
      NamedNothing(n);
    } else {
      var init, last := selection[..|selection| - 1], selection[|selection| - 1];
      NamedIsLength(init, n);
      NamedSnoc(init, last, n);
      assert init + [last] == selection;
    }
  }

  lemma {:induction false} NamedNothing(n: nat)
    ensures Named([], n) == 0
  {
    if n == 0 {
    } else {
      NamedNothing(n - 1);
    }
  }

  lemma {:induction false} TotalAdded(totals: seq<real>, selection: seq<int>, weight: real)
    ensures Total(Added(totals, selection, weight)) == Total(totals) + Multiple(weight, Named(selection, |totals|))
  {
    hide Multiple;
    if totals == [] {
      MultipleAdd(weight, 0, 0);
    } else {
      var init := totals[..|totals| - 1];
      TotalAdded(init, selection, weight);
      assert Added(totals, selection, weight)[..|totals| - 1] == Added(init, selection, weight);
      MultipleAdd(weight, Named(selection, |totals| - 1), Times(selection, |totals| - 1));
    }
  }

  lemma MultipleAdd(weight: real, a: nat, b: nat)
    ensures Multiple(weight, a + b) == Multiple(weight, a) + Multiple(weight, b)
    ensures Multiple(weight, 0) == 0.0
  {
    assert (a + b) as real == a as real + b as real;
  }

  /** A vote's weight once for every option it names. */
  function SelectionPart(mode: Mode, q: Question): Vote -> real {
    v => if Answers(q, v) then Multiple(Weight(mode, v), |Selected(q, v)|) else 0.0
  }

  lemma {:induction false} TotalOfZeros(s: seq<real>)
    requires forall i :: 0 <= i < |s| ==> s[i] == 0.0
    ensures Total(s) == 0.0
  {
    if s == [] {
    } else {
      TotalOfZeros(s[..|s| - 1]);
    }
  }

  lemma OneVoteAddsUp(mode: Mode, q: Question, votes: seq<Vote>, n: nat)
    requires n < |votes|
    requires Answers(q, votes[n]) ==> IsSelectionValid(Selected(q, votes[n]), q.options.GetOr([]))
    ensures Total(OptionSums(mode, q, votes[..n + 1])) ==
            Total(OptionSums(mode, q, votes[..n])) + SelectionPart(mode, q)(votes[n])
  {
    OptionSumsStep(mode, q, votes, n);
    var v := votes[n];
    if Answers(q, v) {
      TotalAdded(OptionSums(mode, q, votes[..n]), Selected(q, v), Weight(mode, v));
      NamedIsLength(Selected(q, v), OptionCount(q));
    }
  }

  lemma {:induction false} ChoicesAddUp(mode: Mode, q: Question, votes: seq<Vote>, n: nat)
    requires n <= |votes|
    requires forall i :: 0 <= i < |votes| && Answers(q, votes[i]) ==>
             IsSelectionValid(Selected(q, votes[i]), q.options.GetOr([]))
    ensures Total(OptionSums(mode, q, votes[..n])) == Sum(votes[..n], SelectionPart(mode, q))
  {
    if n == 0 {
      TotalOfZeros(OptionSums(mode, q, votes[..0]));
    } else {
      ChoicesAddUp(mode, q, votes, n - 1);
      OneVoteAddsUp(mode, q, votes, n - 1);
      SumStep(votes, n - 1, SelectionPart(mode, q));
    }
  }

  // ----- what validity gives

  /** A vote with a valid response to a valid survey answers each question as it asks. */
  ghost predicate GoodVote(qs: seq<Question>, v: Vote) {
    v.payload.Label17? ==> GoodAnswers(qs, v.payload.response.answers)
  }

  lemma {:induction false} FoundIsGood(qs: seq<Question>, answers: seq<Answer>, id: string)
    requires forall i :: 0 <= i < |answers| ==> GoodAnswer(qs, answers[i])
    requires FindAnswer(answers, id).Some?
    ensures GoodAnswer(qs, FindAnswer(answers, id).value) && FindAnswer(answers, id).value.questionId == id
    decreases |answers|
  {
    if answers[0].questionId != id {
      FoundIsGood(qs, answers[1..], id);
    }
  }

  lemma {:induction false} QuestionIsFound(qs: seq<Question>, i: nat)
    requires i < |qs| && forall a, b :: 0 <= a < b < |qs| ==> qs[a].questionId != qs[b].questionId
    ensures QuestionFor(qs, qs[i].questionId) == Some(qs[i])
  {
    if i < |qs| - 1 {
      QuestionIsFound(qs[..|qs| - 1], i);
    }
  }

  lemma AnswersAreValid(qs: seq<Question>, i: nat, v: Vote)
    requires i < |qs| && ValidQuestions(qs) && GoodVote(qs, v)
    requires ExtractedAnswer(v, qs[i].questionId).Some?
    ensures ValidAnswer(qs[i], ExtractedAnswer(v, qs[i].questionId).value)
  {
    QuestionIsFound(qs, i);
    FoundIsGood(qs, v.payload.response.answers, qs[i].questionId);
  }

  ghost predicate GoodVotes(qs: seq<Question>, votes: seq<Vote>) {
    forall i :: 0 <= i < |votes| ==> GoodVote(qs, votes[i])
  }

  /** Single choice: the option totals add up to the weight of the votes that answer. */
  lemma SingleChoiceAddsUp(mode: Mode, qs: seq<Question>, i: nat, votes: seq<Vote>)
    requires i < |qs| && ValidQuestions(qs) && GoodVotes(qs, votes) && qs[i].methodType == SingleChoice
    ensures ResultOf(mode, qs[i], votes).OptionTotals?
    ensures Total(ResultOf(mode, qs[i], votes).totals) == Sum(votes, WeightPart(mode, qs[i]))
  {
    var q := qs[i];
    forall k | 0 <= k < |votes| && Answers(q, votes[k])
      ensures IsSelectionValid(Selected(q, votes[k]), q.options.GetOr([])) && |Selected(q, votes[k])| == 1
    {
      AnswersAreValid(qs, i, votes[k]);
    }
    ChoicesAddUp(mode, q, votes, |votes|);
    assert votes[..|votes|] == votes;
    SumSame(votes, SelectionPart(mode, q), WeightPart(mode, q));
  }

  ghost predicate NonNegativeWeights(mode: Mode, votes: seq<Vote>) {
    forall i :: 0 <= i < |votes| ==> Weight(mode, votes[i]) >= 0.0
  }

  /** A multiple of the weight of an answering vote. */
  function BoundPart(mode: Mode, q: Question, bound: real): Vote -> real {
    v => if Answers(q, v) then Weighted(bound, Weight(mode, v)) else 0.0
  }

  lemma BoundSum(mode: Mode, q: Question, votes: seq<Vote>, bound: real)
    ensures Sum(votes, BoundPart(mode, q, bound)) == Weighted(bound, Sum(votes, WeightPart(mode, q)))
  {
    SumScale(votes, bound, WeightPart(mode, q), BoundPart(mode, q, bound));
  }

  lemma MultipleLe(weight: real, n: nat, k: nat)
    requires weight >= 0.0 && n <= k
    ensures Multiple(weight, n) <= Weighted(k as real, weight)
  {
    var d := (k - n) as real;
    assert d * weight >= 0.0;
    assert d * weight == k as real * weight - weight * n as real;
  }

  lemma SelectionBounded(mode: Mode, q: Question, v: Vote, k: nat)
    requires Weight(mode, v) >= 0.0 && (Answers(q, v) ==> |Selected(q, v)| <= k)
    ensures SelectionPart(mode, q)(v) <= BoundPart(mode, q, k as real)(v)
  {
    if Answers(q, v) {
      MultipleLe(Weight(mode, v), |Selected(q, v)|, k);
    }
  }

  lemma SelectionsBounded(mode: Mode, q: Question, votes: seq<Vote>, k: nat)
    requires NonNegativeWeights(mode, votes)
    requires forall j :: 0 <= j < |votes| && Answers(q, votes[j]) ==> |Selected(q, votes[j])| <= k
    ensures Sum(votes, SelectionPart(mode, q)) <= Sum(votes, BoundPart(mode, q, k as real))
  {
    forall j | 0 <= j < |votes|
      ensures SelectionPart(mode, q)(votes[j]) <= BoundPart(mode, q, k as real)(votes[j])
    {
      SelectionBounded(mode, q, votes[j], k);
    }
    SumLe(votes, SelectionPart(mode, q), BoundPart(mode, q, k as real));
  }

  lemma MultiSelections(mode: Mode, qs: seq<Question>, i: nat, votes: seq<Vote>)
    requires i < |qs| && ValidQuestions(qs) && GoodVotes(qs, votes) && qs[i].methodType == MultiSelect
    ensures qs[i].maxSelections.Some? && qs[i].maxSelections.value >= 1
    ensures forall j :: 0 <= j < |votes| && Answers(qs[i], votes[j]) ==>
              IsSelectionValid(Selected(qs[i], votes[j]), qs[i].options.GetOr([]))
                && |Selected(qs[i], votes[j])| <= qs[i].maxSelections.value
  {
    forall j | 0 <= j < |votes| && Answers(qs[i], votes[j])
      ensures IsSelectionValid(Selected(qs[i], votes[j]), qs[i].options.GetOr([]))
              && |Selected(qs[i], votes[j])| <= qs[i].maxSelections.value
    {
      AnswersAreValid(qs, i, votes[j]);
    }
  }

  /** Multi-select: they add up to weight times options named. */
  lemma MultiSelectAddsUp(mode: Mode, qs: seq<Question>, i: nat, votes: seq<Vote>)
    requires i < |qs| && ValidQuestions(qs) && GoodVotes(qs, votes) && qs[i].methodType == MultiSelect
    ensures ResultOf(mode, qs[i], votes).OptionTotals?
    ensures Total(ResultOf(mode, qs[i], votes).totals) == Sum(votes, SelectionPart(mode, qs[i]))
  {
    MultiSelections(mode, qs, i, votes);
    ChoicesAddUp(mode, qs[i], votes, |votes|);
    assert votes[..|votes|] == votes;
  }

  /** That is at most maxSelections times the weight of the votes that answer. */
  lemma MultiSelectIsBounded(mode: Mode, qs: seq<Question>, i: nat, votes: seq<Vote>)
    requires i < |qs| && ValidQuestions(qs) && GoodVotes(qs, votes) && qs[i].methodType == MultiSelect
    requires NonNegativeWeights(mode, votes)
    ensures Sum(votes, SelectionPart(mode, qs[i])) <=
            qs[i].maxSelections.value as real * Sum(votes, WeightPart(mode, qs[i]))
  {
    MultiSelections(mode, qs, i, votes);
    hide Answers, Selected, ValidQuestions, GoodVotes, Sum;
    var k := qs[i].maxSelections.value;
    SelectionsBounded(mode, qs[i], votes, k);
    BoundSum(mode, qs[i], votes, k as real);
  }

  // ----- numbers

  lemma {:induction false} NumbersAreAnswers(q: Question, votes: seq<Vote>, x: real)
    requires x in Numbers(q, votes)
    ensures exists i :: 0 <= i < |votes| && Answers(q, votes[i]) && NumberOf(q, votes[i]) == x
  {
    var init, v := votes[..|votes| - 1], votes[|votes| - 1];
    if x in Numbers(q, init) {
      NumbersAreAnswers(q, init, x);
      var i :| 0 <= i < |init| && Answers(q, init[i]) && NumberOf(q, init[i]) == x;
      assert votes[i] == init[i];
    } else {
      assert votes[|votes| - 1] == v && Answers(q, v);
    }
  }

  lemma {:induction false} AnswersAreNumbers(q: Question, votes: seq<Vote>, i: nat)
    requires i < |votes| && Answers(q, votes[i])
    ensures NumberOf(q, votes[i]) in Numbers(q, votes)
  {
    if i < |votes| - 1 {
      AnswersAreNumbers(q, votes[..|votes| - 1], i);
    }
  }

  lemma NumberBounded(mode: Mode, q: Question, v: Vote, lo: real, hi: real)
    requires Weight(mode, v) >= 0.0 && (Answers(q, v) ==> lo <= NumberOf(q, v) <= hi)
    ensures BoundPart(mode, q, lo)(v) <= NumberPart(mode, q)(v) <= BoundPart(mode, q, hi)(v)
  {
    hide Weighted;
    if Answers(q, v) {
      WeightedLe(lo, NumberOf(q, v), Weight(mode, v));
      WeightedLe(NumberOf(q, v), hi, Weight(mode, v));
    }
  }

  lemma WeightedLe(x: real, y: real, weight: real)
    requires x <= y && weight >= 0.0
    ensures Weighted(x, weight) <= Weighted(y, weight)
  {
    RealMulLe(x, y, weight);
  }

  /** A weighted sum of numbers lies between the extremes times the total weight. */
  lemma WeightedSumBetween(mode: Mode, q: Question, votes: seq<Vote>, lo: real, hi: real)
    requires NonNegativeWeights(mode, votes)
    requires forall i :: 0 <= i < |votes| && Answers(q, votes[i]) ==> lo <= NumberOf(q, votes[i]) <= hi
    ensures Between(Sum(votes, NumberPart(mode, q)), Sum(votes, WeightPart(mode, q)), lo, hi)
  {
    forall i | 0 <= i < |votes|
      ensures BoundPart(mode, q, lo)(votes[i]) <= NumberPart(mode, q)(votes[i]) <= BoundPart(mode, q, hi)(votes[i])
    {
      NumberBounded(mode, q, votes[i], lo, hi);
    }
    SumLe(votes, BoundPart(mode, q, lo), NumberPart(mode, q));
    SumLe(votes, NumberPart(mode, q), BoundPart(mode, q, hi));
    BoundSum(mode, q, votes, lo);
    BoundSum(mode, q, votes, hi);
  }

  ghost predicate Between(sum: real, weight: real, lo: real, hi: real) {
    lo * weight <= sum <= hi * weight
  }

  lemma MeanBetween(sum: real, weight: real, lo: real, hi: real)
    requires Between(sum, weight, lo, hi)
    ensures MeanOf(sum, weight).Some? ==> lo <= MeanOf(sum, weight).value <= hi
  {
    if weight > 0.0 {
      var q := sum / weight;
      assert q * weight == sum;
      RealMulLt(q, lo, weight);
      RealMulLt(hi, q, weight);
    }
  }

  lemma InConfiguredRange(qs: seq<Question>, i: nat, votes: seq<Vote>, x: real)
    requires i < |qs| && ValidQuestions(qs) && GoodVotes(qs, votes) && qs[i].methodType == NumericRange
    requires x in Numbers(qs[i], votes)
    ensures qs[i].numericConstraints.value.minValue as real <= x <= qs[i].numericConstraints.value.maxValue as real
  {
    NumbersAreAnswers(qs[i], votes, x);
    var k :| 0 <= k < |votes| && Answers(qs[i], votes[k]) && NumberOf(qs[i], votes[k]) == x;
    AnswersAreValid(qs, i, votes[k]);
  }

  /** Without an answer a numeric question has no minimum, maximum or mean. */
  lemma NoNumbersIff(mode: Mode, q: Question, votes: seq<Vote>)
    requires q.methodType == NumericRange
    ensures var r := ResultOf(mode, q, votes);
            && r.NumericSummary?
            && (r.count == 0 <==> forall k :: 0 <= k < |votes| ==> !Answers(q, votes[k]))
            && (r.count == 0 <==> r.min == None) && (r.count == 0 <==> r.max == None)
            && (r.mean.Some? <==> r.count > 0 && Sum(votes, WeightPart(mode, q)) > 0.0)
  {
    if k :| 0 <= k < |votes| && Answers(q, votes[k]) {
      AnswersAreNumbers(q, votes, k);
    }
    if Numbers(q, votes) != [] {
      NumbersAreAnswers(q, votes, Numbers(q, votes)[0]);
    }
  }

  /** With answers, the mean lies between the minimum and the maximum, and these lie in the
      configured range. */
  lemma NumericInRange(mode: Mode, qs: seq<Question>, i: nat, votes: seq<Vote>)
    requires i < |qs| && ValidQuestions(qs) && GoodVotes(qs, votes) && qs[i].methodType == NumericRange
    requires NonNegativeWeights(mode, votes)
    requires Numbers(qs[i], votes) != []
    ensures var r, c := ResultOf(mode, qs[i], votes), qs[i].numericConstraints.value;
            && r.NumericSummary? && r.min.Some? && r.max.Some?
            && c.minValue as real <= r.min.value <= r.max.value <= c.maxValue as real
            && (r.mean.Some? ==> r.min.value <= r.mean.value <= r.max.value)
  {
    var q := qs[i];
    var numbers := Numbers(q, votes);
    var lo, hi := MinOf(numbers), MaxOf(numbers);
    InConfiguredRange(qs, i, votes, lo);
    InConfiguredRange(qs, i, votes, hi);
    forall k | 0 <= k < |votes| && Answers(q, votes[k])
      ensures lo <= NumberOf(q, votes[k]) <= hi
    {
      AnswersAreNumbers(q, votes, k);
    }
    WeightedSumBetween(mode, q, votes, lo, hi);
    MeanBetween(Sum(votes, NumberPart(mode, q)), Sum(votes, WeightPart(mode, q)), lo, hi);
  }
}
