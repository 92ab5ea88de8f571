/** The entities of a linked survey, after parsing: src/types/survey.types.ts. */
module SurveyTypes {
  import opened Common

  datatype Role = DRep | SPO | CC | Stakeholder

  datatype VoterType = DrepVoter | SpoVoter | CcVoter

  datatype Mode = CredentialBased | StakeBased | PledgeBased

  function RoleOf(v: VoterType): Role {
    match v case DrepVoter => DRep case SpoVoter => SPO case CcVoter => CC
  }

  /** The roles with their weighting modes, in the order in which the survey lists them. */
  datatype RoleMode = RoleMode(role: Role, mode: Mode)

  type Weighting = seq<RoleMode>

  /** An object has each key once. */
  ghost predicate DistinctRoles(w: Weighting) {
    forall i, j :: 0 <= i < j < |w| ==> w[i].role != w[j].role
  }

  function ModeOf(w: Weighting, role: Role): Option<Mode> {
    if w == [] then None
    else if w[0].role == role then Some(w[0].mode)
    else ModeOf(w[1..], role)
  }

  datatype Method = SingleChoice | MultiSelect | NumericRange | Custom(urn: string)

  datatype Constraints = Constraints(minValue: int, maxValue: int, step: Option<int>)

  datatype Question = Question(
    questionId: string, question: string, methodType: Method, options: Option<seq<string>>, maxSelections: Option<int>,
    numericConstraints: Option<Constraints>, methodSchemaUri: string, methodSchemaHash: string)

  datatype Survey = Survey(
    specVersion: string, title: string, description: string, questions: seq<Question>, roleWeighting: Weighting,
    endEpoch: int)

  /** An answer; a custom value is represented by its JSON text. */
  datatype Answer = Answer(
    questionId: string, selection: Option<seq<int>>, numericValue: Option<real>, customValue: Option<string>)

  datatype Response = Response(specVersion: string, surveyTxId: string, responderRole: Option<Role>,
                               answers: seq<Answer>)

  /** What a vote carries: nothing usable, a response under metadata label 17, or an object
      that is not wrapped in the label. */
  datatype Payload = Missing | Label17(response: Response) | Bare(response: Response)

  datatype ActionId = ActionId(txId: string, govActionIx: int)

  /** Why a tally is not final, or not complete. */
  datatype Problem =
    | NotInspected
    | MissingSnapshot(role: Role, id: string)
    | FetchFailed(role: Role, id: string)
    | LivePledgeUsed
    | MissingVotingPower(role: Role, mode: Mode)

  datatype EvidenceError = NotExactlyOneEntry | NoVoter | NoAction | OtherAction | OtherVoter

  datatype Evidence = Evidence(
    errors: seq<EvidenceError>, warnings: set<Problem>, responderRole: Option<Role>, responseCredential: Option<string>,
    linkedActionId: Option<ActionId>)

  datatype Vote = Vote(
    txHash: string, voterType: VoterType, voterId: string, votingPower: Option<nat>, responseEpoch: Option<int>,
    votedAt: Option<int>, payload: Payload, absoluteSlot: Option<int>, txBlockIndex: Option<int>,
    metadataPosition: Option<int>, responseCredential: Option<string>, evidence: Option<Evidence>,
    snapshotWeight: Option<real>, snapshotWeightError: Option<Problem>)

  const SURVEY_SPEC_VERSION := "1.0.0"
}
