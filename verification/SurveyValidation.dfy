/** Which surveys and responses are valid: `validateSurveyDetails`, `validateSurveyResponse`,
    `validateQuestion` and `validateAnswer` in src/libs/surveyMetadata.ts. The code collects
    error messages; a survey or response is valid when it collects none. */
module SurveyValidation {
  import opened Common
  import opened SurveyTypes

  datatype SurveyError =
    | WrongSpecVersion | NoTitleOrDescription | NoQuestions | EmptyQuestion | DuplicateQuestion(id: string)
    | MissingSchema | TooFewOptions | BadMaxSelections | NoConstraints | BadRange | BadStep | UnexpectedOptions
    | NoRoles | BadMode(role: Role) | WrongEndEpoch | NoEligibleRole

  datatype ResponseError =
    | NoPayload | BadSpecVersion | OtherSurvey | RefersToItself | OtherRole | EvidenceProblem(e: EvidenceError)
    | EvidenceRole | NoCredential | NoSurvey | RoleNotEligible | TooLate | NoAnswers | AnswerWithoutQuestion
    | DuplicateAnswer(id: string) | UnknownQuestion(id: string) | NotExactlyOneValue(id: string) | BadAnswer(id: string)

  predicate Compatible(role: Role, mode: Mode) {
    match role
    case CC => mode == CredentialBased
    case DRep => mode == CredentialBased || mode == StakeBased
    case SPO => true
    case Stakeholder => mode == StakeBased
  }

  // ----- surveys

  ghost predicate ValidQuestion(q: Question) {
    match q.methodType
    case Custom(_) => q.methodSchemaUri != "" && q.methodSchemaHash != ""
    case SingleChoice =>
      && q.options.Some? && |q.options.value| >= 2
      && (q.maxSelections.Some? ==> q.maxSelections.value == 1)
    case MultiSelect =>
      && q.options.Some? && |q.options.value| >= 2
      && q.maxSelections.Some? && 1 <= q.maxSelections.value <= |q.options.value|
    case NumericRange =>
      && q.numericConstraints.Some?
      && q.numericConstraints.value.minValue <= q.numericConstraints.value.maxValue
      && (q.numericConstraints.value.step.Some? ==> q.numericConstraints.value.step.value > 0)
      && q.options == None && q.maxSelections == None
  }

  method ValidateQuestion(q: Question) returns (errors: seq<SurveyError>)
    ensures errors == [] <==> ValidQuestion(q)
  {
    errors := [];
    if q.methodType.Custom? {
      if q.methodSchemaUri == "" || q.methodSchemaHash == "" {
        errors := errors + [MissingSchema];
      }
      return;
    }
    if q.methodType.SingleChoice? || q.methodType.MultiSelect? {
      if q.options == None || |q.options.value| < 2 {
        errors := errors + [TooFewOptions];
      }
    }
    if q.methodType.SingleChoice? {
      if q.maxSelections.Some? && q.maxSelections.value != 1 {
        errors := errors + [BadMaxSelections];
      }
    }
    if q.methodType.MultiSelect? {
      if q.maxSelections == None || q.maxSelections.value < 1
         || (q.options.Some? && q.maxSelections.value > |q.options.value|) {
        errors := errors + [BadMaxSelections];
      }
    }
    if q.methodType.NumericRange? {
      if q.numericConstraints == None {
        errors := errors + [NoConstraints];
      } else {
        var c := q.numericConstraints.value;
        if c.minValue > c.maxValue {
          errors := errors + [BadRange];
        }
        if c.step.Some? && c.step.value <= 0 {
          errors := errors + [BadStep];
        }
      }
      if q.options.Some? || q.maxSelections.Some? {
        errors := errors + [UnexpectedOptions];
      }
    }
  }

  ghost predicate ValidQuestions(qs: seq<Question>) {
    && (forall i :: 0 <= i < |qs| ==> qs[i].questionId != "" && qs[i].question != "" && ValidQuestion(qs[i]))
    && (forall i, j :: 0 <= i < j < |qs| ==> qs[i].questionId != qs[j].questionId)
  }

  ghost function QuestionIds(qs: seq<Question>): set<string> {
    if qs == [] then {} else QuestionIds(qs[..|qs| - 1]) + {qs[|qs| - 1].questionId}
  }

  lemma {:induction false} QuestionIdsAre(qs: seq<Question>, id: string)
    ensures id in QuestionIds(qs) <==> exists k :: 0 <= k < |qs| && qs[k].questionId == id
  {
    if qs == [] {
    } else {
      QuestionIdsAre(qs[..|qs| - 1], id);
      assert forall k :: 0 <= k < |qs| - 1 ==> qs[..|qs| - 1][k] == qs[k];
    }
  }

  lemma OneMoreQuestion(qs: seq<Question>, q: Question)
    ensures ValidQuestions(qs + [q]) <==>
            ValidQuestions(qs) && q.questionId != "" && q.question != "" && ValidQuestion(q)
              && q.questionId !in QuestionIds(qs)
    ensures QuestionIds(qs + [q]) == QuestionIds(qs) + {q.questionId}
  {
    hide ValidQuestion;
    QuestionIdsAre(qs, q.questionId);
    var more := qs + [q];
    assert more[..|qs|] == qs && more[|qs|] == q;
    assert forall k :: 0 <= k < |qs| ==> more[k] == qs[k];
  }

  ghost predicate CompatibleRoles(w: Weighting) {
    forall i :: 0 <= i < |w| ==> Compatible(w[i].role, w[i].mode)
  }

  /** The roles that may vote on the linked governance action. */
  function FilterRoles(w: Weighting, eligible: seq<Role>): (r: Weighting)
    ensures forall rm :: rm in r <==> rm in w && rm.role in eligible
  {
    if w == [] then []
    else (if w[0].role in eligible then [w[0]] else []) + FilterRoles(w[1..], eligible)
  }

  lemma FilterCons(rm: RoleMode, rest: Weighting, eligible: seq<Role>)
    ensures FilterRoles([rm] + rest, eligible) ==
            (if rm.role in eligible then [rm] else []) + FilterRoles(rest, eligible)
  {
    assert ([rm] + rest)[1..] == rest;
  }

  lemma AppendIsAssociative<T>(a: seq<T>, b: seq<T>, c: seq<T>)
    ensures (a + b) + c == a + (b + c)
  {
  }

  /** The roles that are kept stay in order. */
  lemma {:induction false} FilterKeepsOrder(first: Weighting, second: Weighting, eligible: seq<Role>)
    ensures FilterRoles(first + second, eligible) == FilterRoles(first, eligible) + FilterRoles(second, eligible)
  {
    if first == [] {
      assert first + second == second;
    } else {
      hide FilterRoles;
      var rm, rest := first[0], first[1..];
      FilterKeepsOrder(rest, second, eligible);
      FilterCons(rm, rest, eligible);
      FilterCons(rm, rest + second, eligible);
      assert first == [rm] + rest;
      AppendIsAssociative([rm], rest, second);
      AppendIsAssociative(if rm.role in eligible then [rm] else [], FilterRoles(rest, eligible),
                          FilterRoles(second, eligible));
    }
  }

  /** `eligible` is empty when the caller does not filter roles. */
  ghost predicate ValidSurvey(s: Survey, eligible: seq<Role>, expirationEpoch: Option<int>) {
    && s.specVersion == SURVEY_SPEC_VERSION && s.title != "" && s.description != ""
    && s.questions != [] && ValidQuestions(s.questions)
    && s.roleWeighting != [] && CompatibleRoles(s.roleWeighting)
    && (expirationEpoch.Some? ==> s.endEpoch == expirationEpoch.value)
    && (eligible != [] ==> FilterRoles(s.roleWeighting, eligible) != [])
  }

  method ValidateSurveyDetails(s: Survey, eligible: seq<Role>, expirationEpoch: Option<int>)
    returns (errors: seq<SurveyError>)
    ensures errors == [] <==> ValidSurvey(s, eligible, expirationEpoch)
  {
    errors := ValidateQuestions(s.questions);
    if s.specVersion != SURVEY_SPEC_VERSION {
      errors := [WrongSpecVersion] + errors;
    }
    if s.title == "" || s.description == "" {
      errors := [NoTitleOrDescription] + errors;
    }
    if |s.questions| == 0 {
      errors := errors + [NoQuestions];
    }
    if |s.roleWeighting| == 0 {
      errors := errors + [NoRoles];
    } else {
      var modeErrors := ValidateModes(s.roleWeighting);
      errors := errors + modeErrors;
    }
    if expirationEpoch.Some? && s.endEpoch != expirationEpoch.value {
      errors := errors + [WrongEndEpoch];
    }
    if |eligible| > 0 && |FilterRoles(s.roleWeighting, eligible)| == 0 {
      errors := errors + [NoEligibleRole];
    }
  }

  method ValidateQuestions(qs: seq<Question>) returns (errors: seq<SurveyError>)
    ensures errors == [] <==> ValidQuestions(qs)
  {
    errors := [];
    var seen: set<string> := {};
    for i := 0 to |qs|
      invariant errors == [] <==> ValidQuestions(qs[..i])
      invariant errors == [] ==> seen == QuestionIds(qs[..i])
    {
      var q := qs[i];
      assert qs[..i + 1] == qs[..i] + [q];
      OneMoreQuestion(qs[..i], q);
      if q.questionId == "" || q.question == "" {
        errors := errors + [EmptyQuestion];
        continue;
      }
      if q.questionId in seen {
        errors := errors + [DuplicateQuestion(q.questionId)];
      }
      seen := seen + {q.questionId};
      var more := ValidateQuestion(q);
      errors := errors + more;
    }
    assert qs[..|qs|] == qs;
  }

  method ValidateModes(w: Weighting) returns (errors: seq<SurveyError>)
    ensures errors == [] <==> CompatibleRoles(w)
  {
    errors := [];
    for i := 0 to |w|
      invariant errors == [] <==> CompatibleRoles(w[..i])
    {
      assert w[..i + 1] == w[..i] + [w[i]];
      if !Compatible(w[i].role, w[i].mode) {
        errors := errors + [BadMode(w[i].role)];
      }
    }
    assert w[..|w|] == w;
  }

  // ----- answers

  predicate IsInteger(x: real) {
    x.Floor as real == x
  }

  predicate IsSelectionValid(selection: seq<int>, options: seq<string>) {
    forall i :: 0 <= i < |selection| ==> 0 <= selection[i] < |options|
  }

  ghost predicate ValidAnswer(q: Question, a: Answer) {
    match q.methodType
    case Custom(_) => true
    case SingleChoice =>
      a.selection.Some? && |a.selection.value| == 1 && IsSelectionValid(a.selection.value, q.options.GetOr([]))
    case MultiSelect =>
      && a.selection.Some? && IsSelectionValid(a.selection.value, q.options.GetOr([]))
      && (q.maxSelections.GetOr(0) > 0 ==> |a.selection.value| <= q.maxSelections.GetOr(0))
    case NumericRange =>
      && q.numericConstraints.Some? && a.numericValue.Some? && IsInteger(a.numericValue.value)
      && var c, v := q.numericConstraints.value, a.numericValue.value.Floor;
         && c.minValue <= v <= c.maxValue
         && (c.step.GetOr(0) != 0 ==> (v - c.minValue) % c.step.value == 0)
  }

  method ValidateAnswer(q: Question, a: Answer) returns (errors: seq<ResponseError>)
    ensures errors == [] <==> ValidAnswer(q, a)
  {
    errors := [];
    if q.methodType.SingleChoice? {
      if a.selection == None || |a.selection.value| != 1 {
        errors := errors + [BadAnswer(q.questionId)];
      } else if !IsSelectionValid(a.selection.value, q.options.GetOr([])) {
        errors := errors + [BadAnswer(q.questionId)];
      }
    }
    if q.methodType.MultiSelect? {
      if a.selection == None {
        errors := errors + [BadAnswer(q.questionId)];
      } else {
        if q.maxSelections.GetOr(0) > 0 && |a.selection.value| > q.maxSelections.GetOr(0) {
          errors := errors + [BadAnswer(q.questionId)];
        }
        if !IsSelectionValid(a.selection.value, q.options.GetOr([])) {
          errors := errors + [BadAnswer(q.questionId)];
        }
      }
    }
    if q.methodType.NumericRange? {
      if q.numericConstraints == None || a.numericValue == None || !IsInteger(a.numericValue.value) {
        errors := errors + [BadAnswer(q.questionId)];
      } else {
        var c, v := q.numericConstraints.value, a.numericValue.value.Floor;
        if v < c.minValue || v > c.maxValue {
          errors := errors + [BadAnswer(q.questionId)];
        }
        if c.step.GetOr(0) != 0 && (v - c.minValue) % c.step.value != 0 {
          errors := errors + [BadAnswer(q.questionId)];
        }
      }
    }
  }

  /** The question map: of questions with one id, the last. */
  function QuestionFor(qs: seq<Question>, id: string): Option<Question> {
    if qs == [] then None
    else if qs[|qs| - 1].questionId == id then Some(qs[|qs| - 1])
    else QuestionFor(qs[..|qs| - 1], id)
  }

  function ValueKinds(a: Answer): nat {
    (if a.selection.Some? then 1 else 0) + (if a.numericValue.Some? then 1 else 0)
      + (if a.customValue.Some? then 1 else 0)
  }

  ghost predicate GoodAnswer(qs: seq<Question>, a: Answer) {
    && a.questionId != "" && QuestionFor(qs, a.questionId).Some? && ValueKinds(a) == 1
    && ValidAnswer(QuestionFor(qs, a.questionId).value, a)
  }

  ghost predicate GoodAnswers(qs: seq<Question>, answers: seq<Answer>) {
    && (forall i :: 0 <= i < |answers| ==> GoodAnswer(qs, answers[i]))
    && (forall i, j :: 0 <= i < j < |answers| ==> answers[i].questionId != answers[j].questionId)
  }

  ghost function AnswerIds(answers: seq<Answer>): set<string> {
    if answers == [] then {} else AnswerIds(answers[..|answers| - 1]) + {answers[|answers| - 1].questionId}
  }

  lemma {:induction false} AnswerIdsAre(answers: seq<Answer>, id: string)
    ensures id in AnswerIds(answers) <==> exists k :: 0 <= k < |answers| && answers[k].questionId == id
  {
    if answers == [] {
    } else {
      AnswerIdsAre(answers[..|answers| - 1], id);
      assert forall k :: 0 <= k < |answers| - 1 ==> answers[..|answers| - 1][k] == answers[k];
    }
  }

  lemma OneMoreAnswer(qs: seq<Question>, answers: seq<Answer>, a: Answer)
    ensures GoodAnswers(qs, answers + [a]) <==>
            GoodAnswers(qs, answers) && GoodAnswer(qs, a) && a.questionId !in AnswerIds(answers)
    ensures AnswerIds(answers + [a]) == AnswerIds(answers) + {a.questionId}
  {
    hide GoodAnswer;
    AnswerIdsAre(answers, a.questionId);
    var more := answers + [a];
    assert more[..|answers|] == answers && more[|answers|] == a;
    assert forall k :: 0 <= k < |answers| ==> more[k] == answers[k];
  }

  method ValidateAnswers(qs: seq<Question>, answers: seq<Answer>) returns (errors: seq<ResponseError>)
    ensures errors == [] <==> GoodAnswers(qs, answers)
  {
    assert GoodAnswers(qs, answers[..0]) && AnswerIds(answers[..0]) == {};
    hide ValidAnswer, QuestionFor, ValueKinds, GoodAnswers, AnswerIds;
    errors := [];
    var seen: set<string> := {};
    for i := 0 to |answers|
      invariant errors == [] <==> GoodAnswers(qs, answers[..i])
      invariant errors == [] ==> seen == AnswerIds(answers[..i])
    {
      var a := answers[i];
      assert answers[..i + 1] == answers[..i] + [a];
      OneMoreAnswer(qs, answers[..i], a);
      if a.questionId == "" {
        errors := errors + [AnswerWithoutQuestion];
        continue;
      }
      if a.questionId in seen {
        errors := errors + [DuplicateAnswer(a.questionId)];
      }
      seen := seen + {a.questionId};
      var question := QuestionFor(qs, a.questionId);
      if question == None {
        errors := errors + [UnknownQuestion(a.questionId)];
        continue;
      }
      if ValueKinds(a) != 1 {
        errors := errors + [NotExactlyOneValue(a.questionId)];
        continue;
      }
      var more := ValidateAnswer(question.value, a);
      errors := errors + more;
    }
    assert answers[..|answers|] == answers;
  }

  // ----- responses

  /** What the tally passes along with a response: who voted, where, and when. `evidence`
      is only given when the voting entry of the transaction is enforced. */
  datatype Context = Context(
    role: Role, surveyTxId: string, responseEpoch: Option<int>, allowed: Weighting, responseTxHash: string,
    evidence: Option<Evidence>)

  ghost predicate EvidenceSupports(r: Response, e: Evidence) {
    && e.errors == [] && e.responseCredential.GetOr("") != ""
    && (e.responderRole.Some? ==> r.responderRole == e.responderRole)
  }

  ghost predicate ValidResponse(payload: Payload, survey: Option<Survey>, c: Context) {
    && !payload.Missing? && survey.Some?
    && var r, s := payload.response, survey.value;
       && r.specVersion == SURVEY_SPEC_VERSION && r.surveyTxId == c.surveyTxId
       && (c.responseTxHash != "" ==> r.surveyTxId != c.responseTxHash)
       && r.responderRole == Some(c.role)
       && (c.evidence.Some? ==> EvidenceSupports(r, c.evidence.value))
       && ModeOf(c.allowed, c.role).Some?
       && (c.responseEpoch.Some? ==> c.responseEpoch.value <= s.endEpoch)
       && r.answers != [] && GoodAnswers(s.questions, r.answers)
  }

  /** Wrapped or bare, any object that parses is validated as a response. */
  method ValidateSurveyResponse(payload: Payload, survey: Option<Survey>, c: Context)
    returns (errors: seq<ResponseError>)
    ensures errors == [] <==> ValidResponse(payload, survey, c)
  {
    if payload.Missing? {
      return [NoPayload];
    }
    var r := payload.response;
    errors := ValidateHeader(r, c);
    if survey == None {
      errors := errors + [NoSurvey];
      return;
    }
    if ModeOf(c.allowed, c.role) == None {
      errors := errors + [RoleNotEligible];
    }
    if c.responseEpoch.Some? && c.responseEpoch.value > survey.value.endEpoch {
      errors := errors + [TooLate];
    }
    if |r.answers| == 0 {
      errors := errors + [NoAnswers];
      return;
    }
    var more := ValidateAnswers(survey.value.questions, r.answers);
    errors := errors + more;
  }

  ghost predicate GoodHeader(r: Response, c: Context) {
    && r.specVersion == SURVEY_SPEC_VERSION && r.surveyTxId == c.surveyTxId
    && (c.responseTxHash != "" ==> r.surveyTxId != c.responseTxHash)
    && r.responderRole == Some(c.role)
    && (c.evidence.Some? ==> EvidenceSupports(r, c.evidence.value))
  }

  method ValidateHeader(r: Response, c: Context) returns (errors: seq<ResponseError>)
    ensures errors == [] <==> GoodHeader(r, c)
  {
    errors := [];
    if r.specVersion != SURVEY_SPEC_VERSION {
      errors := errors + [BadSpecVersion];
    }
    if r.surveyTxId != c.surveyTxId {
      errors := errors + [OtherSurvey];
    }
    if c.responseTxHash != "" && r.surveyTxId == c.responseTxHash {
      errors := errors + [RefersToItself];
    }
    if r.responderRole != Some(c.role) {
      errors := errors + [OtherRole];
    }
    if c.evidence.Some? {
      var e := c.evidence.value;
      errors := errors + seq(|e.errors|, i requires 0 <= i < |e.errors| => EvidenceProblem(e.errors[i]));
      if e.responderRole.Some? && r.responderRole != e.responderRole {
        errors := errors + [EvidenceRole];
      }
      if e.responseCredential.GetOr("") == "" {
        errors := errors + [NoCredential];
      }
    }
  }
}
