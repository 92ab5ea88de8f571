/** The stake-weighted votes of a governance action, as src/libs/ledgerVoteMath.ts and
    src/libs/proposalMapper.ts read them from a stored proposal. */
module VotePower {
  import opened Common

  datatype Action =
    | InfoAction | TreasuryWithdrawals | NewConstitution | HardForkInitiation
    | ProtocolParameterChange | NoConfidence | UpdateCommittee

  /** Powers in lovelace; a column may be empty. */
  datatype DrepPower = DrepPower(
    total: Option<int>, yes: Option<int>, no: Option<int>, abstain: Option<int>,
    alwaysAbstain: Option<int>, alwaysNoConfidence: Option<int>, inactive: Option<int>)

  /** `koiosNo` is Koios' own "no" figure: explicit No, always-no-confidence and not voted. */
  datatype SpoPower = SpoPower(
    total: Option<int>, yes: Option<int>, no: Option<int>, abstain: Option<int>,
    alwaysAbstain: Option<int>, alwaysNoConfidence: Option<int>, koiosNo: Option<int>)

  datatype Proposal = Proposal(
    proposalId: string, submissionEpoch: Option<int>, action: Option<Action>, drep: DrepPower, spo: SpoPower)

  function Or0(v: Option<int>): int {
    if v.Some? then v.value else 0
  }

  predicate IsWhole(x: real) {
    x.Floor as real == x
  }

  const SPO_FORMULA_TRANSITION_GOV_ACTION := "gov_action1pvv5wmjqhwa4u85vu9f4ydmzu2mgt8n7et967ph2urhx53r70xusqnmm525"
  const SPO_FORMULA_TRANSITION_EPOCH := 534

  predicate ShouldUseNewSpoFormula(p: Proposal) {
    || p.proposalId == SPO_FORMULA_TRANSITION_GOV_ACTION
    || (p.submissionEpoch.Some? && p.submissionEpoch.value >= SPO_FORMULA_TRANSITION_EPOCH)
  }

  ghost predicate NonNegative(v: Option<int>) {
    Or0(v) >= 0
  }

  ghost predicate GoodDrep(d: DrepPower) {
    && NonNegative(d.total) && NonNegative(d.yes) && NonNegative(d.no) && NonNegative(d.abstain)
    && NonNegative(d.alwaysAbstain) && NonNegative(d.alwaysNoConfidence) && NonNegative(d.inactive)
  }

  ghost predicate GoodSpo(s: SpoPower) {
    && NonNegative(s.total) && NonNegative(s.yes) && NonNegative(s.no) && NonNegative(s.abstain)
    && NonNegative(s.alwaysAbstain) && NonNegative(s.alwaysNoConfidence) && NonNegative(s.koiosNo)
  }

  /** The DRep power left over once every stance is taken off the total. Stale data can make
      it negative. */
  ghost function DrepNotVoted(d: DrepPower): int {
    Or0(d.total) - Or0(d.yes) - Or0(d.no) - Or0(d.abstain) - Or0(d.alwaysAbstain) - Or0(d.alwaysNoConfidence)
      - Or0(d.inactive)
  }

  /** The same for stake pools, from Koios' figure if there is one. */
  ghost function SpoNotVoted(s: SpoPower): int {
    if s.koiosNo.Some? then s.koiosNo.value - Or0(s.no) - Or0(s.alwaysNoConfidence)
    else
      var accounted := Or0(s.yes) + Or0(s.no) + Or0(s.abstain) + Or0(s.alwaysAbstain) + Or0(s.alwaysNoConfidence);
      Max(0, Or0(s.total) - accounted)
  }
}
