/** The published view of a vote and its pass/fail verdict: src/libs/proposalMapper.ts. The
    JavaScript numbers there are exact reals here. */
module ProposalMapper {
  import opened Common
  import opened Arithmetic
  import opened VotePower
  import Ledger = LedgerVoteMath

  datatype VoteInfo = VoteInfo(
    yesPercent: real, noPercent: real, abstainPercent: real, yes: int, no: int, abstain: int, notVoted: int)

  function NearestHundredth(x: real): int {
    (x * 100.0 + 0.5).Floor
  }

  /** Number(x.toFixed(2)): the nearest hundredth, halves away from zero. */
  function ToFixed2(x: real): real {
    if x < 0.0 then -(NearestHundredth(-x) as real / 100.0) else NearestHundredth(x) as real / 100.0
  }

  function Share(part: int, whole: int): real {
    if whole > 0 then part as real / whole as real * 100.0 else 0.0
  }

  function MinReal(a: real, b: real): real {
    if a < b then a else b
  }

  function BuildDrepVoteInfo(p: Proposal): VoteInfo {
    var d := p.drep;
    var total, yes, no, abstain := Or0(d.total), Or0(d.yes), Or0(d.no), Or0(d.abstain);
    var alwaysAbstain, alwaysNoConfidence, inactive := Or0(d.alwaysAbstain), Or0(d.alwaysNoConfidence), Or0(d.inactive);
    var notVoted := total - yes - no - abstain - alwaysAbstain - alwaysNoConfidence - inactive;
    var isNoConfidence := p.action == Some(NoConfidence);
    var yesTotal := if isNoConfidence then yes + alwaysNoConfidence else yes;
    var noTotal := if isNoConfidence then no + Max(0, notVoted) else no + alwaysNoConfidence + Max(0, notVoted);
    var denominator := yesTotal + noTotal;
    VoteInfo(ToFixed2(Share(yesTotal, denominator)), ToFixed2(Share(noTotal, denominator)),
             ToFixed2(Share(abstain + alwaysAbstain, total)),
             yesTotal, noTotal, abstain + alwaysAbstain, Max(0, notVoted))
  }

  datatype SpoTotals = SpoTotals(effectiveTotal: int, yes: int, no: int, abstain: int, denominator: int, notVoted: int)

  /** The total that keeps the parts consistent, whatever epoch they were read in. */
  function SpoEffectiveTotal(s: SpoPower): int {
    if s.koiosNo.Some? then Or0(s.yes) + s.koiosNo.value + Or0(s.abstain) + Or0(s.alwaysAbstain)
    else Max(Or0(s.total), Or0(s.yes) + Or0(s.no) + Or0(s.abstain) + Or0(s.alwaysAbstain) + Or0(s.alwaysNoConfidence))
  }

  function NotVotedFromKoios(s: SpoPower): int {
    if s.koiosNo.Some? then s.koiosNo.value - Or0(s.no) - Or0(s.alwaysNoConfidence)
    else
      SpoEffectiveTotal(s) - Or0(s.yes) - Or0(s.no) - Or0(s.abstain) - Or0(s.alwaysAbstain) - Or0(s.alwaysNoConfidence)
  }

  function SpoTotalsOf(p: Proposal): SpoTotals {
    var s := p.spo;
    TotalsFor(ShouldUseNewSpoFormula(p), p.action, Or0(s.yes), Or0(s.no), Or0(s.abstain), Or0(s.alwaysAbstain),
              Or0(s.alwaysNoConfidence), SpoEffectiveTotal(s), NotVotedFromKoios(s))
  }

  function TotalsFor(useNewFormula: bool, action: Option<Action>, yes: int, no: int, abstain: int, alwaysAbstain: int,
                     alwaysNoConfidence: int, effectiveTotal: int, notVoted: int): SpoTotals {
    if useNewFormula then
      var (yesTotal, abstainTotal, notVotedCalc) :=
        if action == Some(HardForkInitiation) then (yes, abstain, notVoted + alwaysNoConfidence + alwaysAbstain)
        else if action == Some(NoConfidence) then (yes + alwaysNoConfidence, abstain + alwaysAbstain, notVoted)
        else (yes, abstain + alwaysAbstain, notVoted);
      SpoTotals(effectiveTotal, yesTotal, no + Max(0, notVotedCalc), abstainTotal, effectiveTotal - abstainTotal,
                notVoted)
    else
      SpoTotals(effectiveTotal, yes, no + alwaysNoConfidence, abstain + alwaysAbstain,
                yes + no + alwaysNoConfidence, notVoted)
  }

  /** The two safety nets: each share is capped, then both are scaled back into 100. */
  function Capped(yes: real, no: real): (real, real) {
    var (y, n) := (MinReal(100.0, yes), MinReal(100.0, no));
    if y + n > 100.0 then (y * (100.0 / (y + n)), n * (100.0 / (y + n))) else (y, n)
  }

  function BuildSpoVoteInfo(p: Proposal): Option<VoteInfo> {
    if p.spo.total == None then None
    else
      var t := SpoTotalsOf(p);
      var (yesPercent, noPercent) := Capped(Share(t.yes, t.denominator), Share(t.no, t.denominator));
      Some(VoteInfo(ToFixed2(yesPercent), ToFixed2(noPercent), ToFixed2(Share(t.abstain, t.effectiveTotal)),
                    t.yes, t.no, t.abstain, Max(0, t.notVoted)))
  }

  // ----- the verdict

  datatype Threshold = Threshold(cc: Option<real>, drep: Option<real>, spo: Option<real>)

  function VotingThreshold(action: Option<Action>): Threshold {
    match action
    case None => Threshold(Some(0.67), Some(1.0), Some(1.0))
    case Some(a) =>
      match a
      case NoConfidence => Threshold(None, Some(0.67), Some(0.51))
      case UpdateCommittee => Threshold(None, Some(0.67), Some(0.51))
      case NewConstitution => Threshold(Some(0.67), Some(0.75), None)
      case HardForkInitiation => Threshold(Some(0.67), Some(0.60), Some(0.51))
      case ProtocolParameterChange => Threshold(Some(0.67), Some(0.67), None)
      case TreasuryWithdrawals => Threshold(Some(0.67), Some(0.67), None)
      case InfoAction => Threshold(Some(0.67), Some(1.0), Some(1.0))
  }

  /** None where the body does not take part. */
  function EvaluateThreshold(yesPercent: real, threshold: Option<real>): Option<bool> {
    if threshold == None then None else Some(yesPercent >= threshold.value * 100.0)
  }

  datatype VotingStatus = VotingStatus(ccPassing: Option<bool>, drepPassing: bool, spoPassing: Option<bool>)

  /** `ccYesPercent` is missing when no committee member has voted. */
  function DetermineVotingStatus(t: Threshold, drep: VoteInfo, spo: Option<VoteInfo>,
                                 ccYesPercent: Option<real>): VotingStatus {
    var drepPassing := EvaluateThreshold(drep.yesPercent, t.drep);
    VotingStatus(
      if t.cc == None then None
      else if ccYesPercent.Some? then EvaluateThreshold(ccYesPercent.value, t.cc)
      else Some(false),
      drepPassing.Some? && drepPassing.value,
      if t.spo == None then None else if spo.Some? then EvaluateThreshold(spo.value.yesPercent, t.spo) else Some(false))
  }

  predicate IsProposalPassing(s: VotingStatus) {
    s.drepPassing && s.spoPassing != Some(false) && s.ccPassing != Some(false)
  }

  /** The verdict on a proposal with stored DRep powers. `spoFallback` is the plain tally of
      pool votes, used when no pool power is stored. */
  predicate Passing(p: Proposal, spoFallback: Option<VoteInfo>, ccYesPercent: Option<real>) {
    var spo := BuildSpoVoteInfo(p);
    IsProposalPassing(DetermineVotingStatus(
      VotingThreshold(p.action), BuildDrepVoteInfo(p), if spo.Some? then spo else spoFallback, ccYesPercent))
  }

  // ----- rounding

  /** Cutting a quotient of integers is integer division. */
  lemma FloorIsDiv(a: int, d: int)
    requires d > 0
    ensures (a as real / d as real).Floor == a / d
  {
    var q := a / d;
    assert q * d <= a < (q + 1) * d;
    var x := a as real / d as real;
    assert (q * d) as real == q as real * d as real;
    assert ((q + 1) * d) as real == (q + 1) as real * d as real;
    QuotientBelow(a as real, d as real, (q + 1) as real);
    QuotientAbove(a as real, d as real, q as real);
  }

  lemma QuotientBelow(n: real, d: real, k: real)
    requires d > 0.0 && n < k * d
    ensures n / d < k
  {
    var q := n / d;
    assert q * d == n;
    RealMulLe(k, q, d);
  }

  lemma QuotientAbove(n: real, d: real, k: real)
    requires d > 0.0 && n >= k * d
    ensures n / d >= k
  {
    var q := n / d;
    assert q * d == n;
    RealMulLt(q, k, d);
  }

  /** Rounding a share to hundredths of a percent, in integers. */
  lemma RoundedShare(part: int, whole: int)
    requires 0 <= part && whole > 0
    ensures ToFixed2(Share(part, whole)) == ((part * 20000 + whole) / (2 * whole)) as real / 100.0
  {
    var x := Share(part, whole);
    var w := whole as real;
    var r := part as real / w;
    assert r * w == part as real;
    QuotientAbove(part as real, w, 0.0);
    assert x >= 0.0;
    var q := (part * 20000 + whole) as real / (2 * whole) as real;
    assert x * 100.0 + 0.5 == q by {
      assert q * (2.0 * w) == part as real * 20000.0 + w;
      assert (x * 100.0 + 0.5) * (2.0 * w) == (r * w) * 20000.0 + w;
      SameQuotient(x * 100.0 + 0.5, q, 2.0 * w);
    }
    FloorIsDiv(part * 20000 + whole, 2 * whole);
  }

  lemma SameQuotient(a: real, b: real, d: real)
    requires d > 0.0 && a * d == b * d
    ensures a == b
  {
    RealMulLt(a, b, d);
    RealMulLt(b, a, d);
  }

  // ----- the two modules agree

  lemma RoundedIsCutOrOneMore(a: int, d: int)
    requires a >= 0 && d > 0
    ensures (2 * a + d) / (2 * d) == a / d + if 2 * (a % d) >= d then 1 else 0
  {
    var q, r := a / d, a % d;
    assert a == q * d + r;
    var e := if 2 * r >= d then 1 else 0;
    var two := 2 * d;
    assert (q + e) * two == 2 * (q * d) + e * two;
    assert (q + e + 1) * two == (q + e) * two + two;
    DivIs(2 * a + d, two, q + e);
  }

  /** For DReps both modules count the same powers. Where there is a denominator the published
      yes percentage is the ledger's, or exactly 0.01 more: when at least half a hundredth was cut. */
  lemma DrepViewsAgree(p: Proposal)
    requires GoodDrep(p.drep)
    ensures var m, l := BuildDrepVoteInfo(p), Ledger.ComputeDrepLedgerBuckets(p);
            && m.yes == l.yes && m.no == l.no && m.abstain == l.abstain && m.notVoted == l.notVoted
            && (l.yes + l.no > 0 ==>
                  && l.yesOutcomePct.Some?
                  && m.yesPercent == l.yesOutcomePct.value
                       + if 2 * ((l.yes * 10000) % (l.yes + l.no)) >= l.yes + l.no then 0.01 else 0.0)
  {
    var l := Ledger.ComputeDrepLedgerBuckets(p);
    var d := l.yes + l.no;
    if d > 0 {
      RoundedShare(l.yes, d);
      RoundedIsCutOrOneMore(l.yes * 10000, d);
    }
  }

  /** For stake pools they do, too, except on a hard fork under the new formula when more
      power is counted than Koios reports and there is always-stance power to absorb it: one
      module clamps before adding the always stances, the other after. */
  lemma SpoViewsAgreeIff(p: Proposal)
    requires GoodSpo(p.spo) && p.spo.total.Some?
    ensures var m, l := BuildSpoVoteInfo(p), Ledger.ComputeSpoLedgerBuckets(p);
            && m.Some? && m.value.yes == l.yes && m.value.abstain == l.abstain && m.value.notVoted == l.notVoted
            && (m.value.no == l.no
                <==> || !ShouldUseNewSpoFormula(p) || p.action != Some(HardForkInitiation)
                     || SpoNotVoted(p.spo) >= 0
                     || Or0(p.spo.alwaysAbstain) + Or0(p.spo.alwaysNoConfidence) == 0)
  {
    hide Ledger.Pct2, ToFixed2, Share, Capped;
    var raw, always := SpoTotalsOf(p).notVoted, Or0(p.spo.alwaysAbstain) + Or0(p.spo.alwaysNoConfidence);
    assert raw == SpoNotVoted(p.spo);
  }

  /** A hard fork where 50 are counted as No and Koios reports 45: 55 against 60. */
  lemma HardForksCanDiffer()
    ensures var spo := SpoPower(Some(100), Some(10), Some(50), None, Some(10), None, Some(45));
            var p := Proposal("p", Some(600), Some(HardForkInitiation), Ledger.NO_DREPS, spo);
            && BuildSpoVoteInfo(p).Some? && BuildSpoVoteInfo(p).value.no == 55
            && Ledger.ComputeSpoLedgerBuckets(p).no == 60
  {
    var spo := SpoPower(Some(100), Some(10), Some(50), None, Some(10), None, Some(45));
    var p := Proposal("p", Some(600), Some(HardForkInitiation), Ledger.NO_DREPS, spo);
    SpoViewsAgreeIff(p);
  }

  // ----- what the published percentages mean

  /** No hundredth of a percent is nearer to the share. */
  ghost predicate Nearest(pct: real, part: int, whole: int)
    requires whole > 0
  {
    IsWhole(pct * 100.0) && -0.005 <= pct - part as real / whole as real * 100.0 <= 0.005
  }

  lemma RoundedIsNearest(part: int, whole: int)
    requires 0 <= part && whole > 0
    ensures Nearest(ToFixed2(Share(part, whole)), part, whole)
  {
    QuotientAbove(part as real, whole as real, 0.0);
    NearHundredth(Share(part, whole));
  }

  lemma NearHundredth(x: real)
    requires x >= 0.0
    ensures IsWhole(ToFixed2(x) * 100.0) && -0.005 <= ToFixed2(x) - x <= 0.005
  {
    assert ToFixed2(x) * 100.0 == NearestHundredth(x) as real;
  }

  /** Each DRep percentage is the nearest hundredth of the ledger's share. */
  lemma DrepPercentagesAreNearest(p: Proposal)
    requires GoodDrep(p.drep)
    ensures var m, l := BuildDrepVoteInfo(p), Ledger.ComputeDrepLedgerBuckets(p);
            && (l.yes + l.no > 0 ==>
               Nearest(m.yesPercent, l.yes, l.yes + l.no) && Nearest(m.noPercent, l.no, l.yes + l.no))
            && (l.total > 0 ==> Nearest(m.abstainPercent, l.abstain, l.total))
  {
    var l := Ledger.ComputeDrepLedgerBuckets(p);
    hide Nearest, ToFixed2, Share;
    if l.yes + l.no > 0 {
      RoundedIsNearest(l.yes, l.yes + l.no);
      RoundedIsNearest(l.no, l.yes + l.no);
    }
    if l.total > 0 {
      RoundedIsNearest(l.abstain, l.total);
    }
  }

  lemma SpoTotalsAreLedgers(p: Proposal)
    requires GoodSpo(p.spo) && p.spo.total.Some? && SpoNotVoted(p.spo) >= 0
    ensures var t, l := SpoTotalsOf(p), Ledger.ComputeSpoLedgerBuckets(p);
            && t.yes == l.yes && t.no == l.no && t.abstain == l.abstain && t.effectiveTotal == l.total
            && t.denominator == Ledger.SpoOutcomeDenominator(p)
  {
    hide Ledger.Pct2;
    SpoViewsAgreeIff(p);
  }

  /** So is each pool percentage, with consistent data. */
  lemma SpoPercentagesAreNearest(p: Proposal)
    requires GoodSpo(p.spo) && p.spo.total.Some? && SpoNotVoted(p.spo) >= 0
    ensures BuildSpoVoteInfo(p).Some?
    ensures var m, l := BuildSpoVoteInfo(p).value, Ledger.ComputeSpoLedgerBuckets(p);
            var d := Ledger.SpoOutcomeDenominator(p);
            && (d > 0 ==> Nearest(m.yesPercent, l.yes, d) && Nearest(m.noPercent, l.no, d))
            && (l.total > 0 ==> Nearest(m.abstainPercent, l.abstain, l.total))
  {
    SpoTotalsAreLedgers(p);
    SafetyNetsIdle(p);
    Ledger.SpoPercentages(p);
    var t := SpoTotalsOf(p);
    hide Nearest, ToFixed2, Share, Capped, SpoTotalsOf, Ledger.ComputeSpoLedgerBuckets, Ledger.SpoOutcomeDenominator;
    if t.denominator > 0 {
      RoundedIsNearest(t.yes, t.denominator);
      RoundedIsNearest(t.no, t.denominator);
    }
    if t.effectiveTotal > 0 {
      RoundedIsNearest(t.abstain, t.effectiveTotal);
    }
  }

  // ----- when a proposal passes

  /** A body that takes part needs a percentage, and it must reach the threshold. */
  ghost predicate Reaches(threshold: Option<real>, pct: Option<real>) {
    threshold.Some? ==> pct.Some? && pct.value >= threshold.value * 100.0
  }

  /** A proposal passes if and only if every body that takes part reaches its threshold. */
  lemma PassingIff(p: Proposal, spoFallback: Option<VoteInfo>, ccYesPercent: Option<real>)
    ensures var t, spo := VotingThreshold(p.action),
            if BuildSpoVoteInfo(p).Some? then BuildSpoVoteInfo(p) else spoFallback;
            Passing(p, spoFallback, ccYesPercent) <==> (
              && Reaches(t.drep, Some(BuildDrepVoteInfo(p).yesPercent))
              && Reaches(t.spo, if spo.Some? then Some(spo.value.yesPercent) else None)
              && Reaches(t.cc, ccYesPercent))
  {
    hide BuildSpoVoteInfo, BuildDrepVoteInfo;
  }

  /** Which bodies take part in an action, and what each must reach: the committee does not judge
      itself, pools have no say on a constitution, on parameters or on the treasury. */
  lemma ThresholdsAre(action: Option<Action>)
    ensures var t := VotingThreshold(action);
            && t.drep == Some(match action
                              case None => 1.0
                              case Some(InfoAction) => 1.0
                              case Some(NewConstitution) => 0.75
                              case Some(HardForkInitiation) => 0.60
                              case _ => 0.67)
            && (t.cc == None <==> action in {Some(NoConfidence), Some(UpdateCommittee)})
            && (t.cc.Some? ==> t.cc.value == 0.67)
            && (t.spo == None <==>
               action in {Some(NewConstitution), Some(ProtocolParameterChange), Some(TreasuryWithdrawals)})
            && (t.spo.Some? ==> t.spo.value == if action in {None, Some(InfoAction)} then 1.0 else 0.51)
  {
  }

  /** A threshold in hundredths of a percent. */
  function Hundredths(threshold: real): int {
    (threshold * 10000.0).Floor
  }

  /** At least t hundredths of a percent, less half a hundredth. */
  ghost predicate AtLeast(part: int, whole: int, t: int) {
    20000 * part + whole >= (2 * whole) * t
  }

  lemma RoundedReaches(part: int, whole: int, t: int)
    requires 0 <= part && whole > 0
    ensures ToFixed2(Share(part, whole)) >= t as real / 100.0 <==> AtLeast(part, whole, t)
  {
    RoundedShare(part, whole);
    hide ToFixed2, Share;
    DivReaches(part * 20000 + whole, 2 * whole, t);
  }

  lemma DivReaches(a: int, d: int, t: int)
    requires d > 0
    ensures a / d >= t <==> a >= d * t
  {
    var q := a / d;
    assert q * d <= a < (q + 1) * d;
    MulLe(t, q, d);
    MulLe(q + 1, t, d);
  }

  /** The verdict reads the rounded percentage: the DReps reach their threshold exactly if any
      DRep power counts and their exact share is at most half a hundredth of a percent below it. */
  lemma DrepsReachIff(p: Proposal)
    requires GoodDrep(p.drep)
    ensures var l, t := Ledger.ComputeDrepLedgerBuckets(p), VotingThreshold(p.action).drep;
            && t.Some?
            && (Reaches(t, Some(BuildDrepVoteInfo(p).yesPercent)) <==>
                  l.yes + l.no > 0 && AtLeast(l.yes, l.yes + l.no, Hundredths(t.value)))
  {
    hide Hundredths, ToFixed2, Share, AtLeast, BuildDrepVoteInfo, Ledger.ComputeDrepLedgerBuckets, VotingThreshold;
    DrepThresholdIs(p.action);
    DrepYesShare(p);
    var l, t := Ledger.ComputeDrepLedgerBuckets(p), VotingThreshold(p.action).drep.value;
    if l.yes + l.no > 0 {
      RoundedReaches(l.yes, l.yes + l.no, Hundredths(t));
    } else {
      NoShare(l.yes, l.yes + l.no);
    }
  }

  lemma NoShare(part: int, whole: int)
    requires whole <= 0
    ensures ToFixed2(Share(part, whole)) == 0.0
  {
  }

  lemma DrepThresholdIs(action: Option<Action>)
    ensures var t := VotingThreshold(action).drep;
            t.Some? && t.value > 0.0 && Hundredths(t.value) as real / 100.0 == t.value * 100.0
  {
  }

  lemma DrepYesShare(p: Proposal)
    requires GoodDrep(p.drep)
    ensures var l := Ledger.ComputeDrepLedgerBuckets(p);
            l.yes >= 0 && BuildDrepVoteInfo(p).yesPercent == ToFixed2(Share(l.yes, l.yes + l.no))
  {
    hide ToFixed2, Share, Ledger.Pct2;
  }

  /** 66.996% of the DRep power carries a treasury withdrawal whose threshold is 67%. */
  lemma BelowThresholdCanPass()
    ensures var drep := DrepPower(Some(100000), Some(66996), Some(33004), None, None, None, None);
            var spo := SpoPower(None, None, None, None, None, None, None);
            var p := Proposal("p", None, Some(TreasuryWithdrawals), drep, spo);
            && Passing(p, None, Some(100.0))
            && 66996 * 100 < 67 * 100000
            && Ledger.ComputeDrepLedgerBuckets(p).yesOutcomePct == Some(66.99)
  {
    var drep := DrepPower(Some(100000), Some(66996), Some(33004), None, None, None, None);
    var spo := SpoPower(None, None, None, None, None, None, None);
    var p := Proposal("p", None, Some(TreasuryWithdrawals), drep, spo);
    var l := Ledger.ComputeDrepLedgerBuckets(p);
    assert l.yes == 66996 && l.no == 33004 && l.yesOutcomePct == Some(66.99);
    assert BuildSpoVoteInfo(p) == None;
    hide BuildSpoVoteInfo, BuildDrepVoteInfo, Ledger.ComputeDrepLedgerBuckets, Passing;
    DrepsReachIff(p);
    PassingIff(p, None, Some(100.0));
  }

  // ----- more Yes never hurts

  /** Comparing two quotients by cross-multiplication. */
  lemma QuotientsInOrder(a: int, b: int, c: int, d: int)
    requires b > 0 && d > 0 && a * d <= c * b
    ensures a as real / b as real <= c as real / d as real
  {
    var q, r := a as real / b as real, c as real / d as real;
    var w := b as real * d as real;
    assert w > 0.0;
    assert q * w == (a * d) as real by {
      assert q * b as real == a as real;
      assert q * w == (q * b as real) * d as real;
    }
    assert r * w == (c * b) as real by {
      assert r * d as real == c as real;
      assert r * w == (r * d as real) * b as real;
    }
    RealMulLt(r, q, w);
  }

  lemma ShareGrows(yes: int, denominator: int, k: int, denominator': int)
    requires 0 <= yes <= denominator && 0 <= k && yes + k <= denominator'
    requires denominator' == denominator || denominator' == denominator + k
    ensures 0.0 <= Share(yes, denominator) <= Share(yes + k, denominator') <= 100.0
  {
    if denominator' > 0 {
      QuotientsInOrder(0, 1, yes + k, denominator');
      QuotientsInOrder(yes + k, denominator', 1, 1);
      if denominator > 0 {
        QuotientsInOrder(0, 1, yes, denominator);
        assert yes * denominator' <= (yes + k) * denominator by {
          MulLe(yes, denominator, k);
          assert yes * (denominator + k) == yes * denominator + yes * k;
          assert (yes + k) * denominator == yes * denominator + denominator * k;
          MulLe(0, k, denominator);
        }
        QuotientsInOrder(yes, denominator, yes + k, denominator');
      }
    }
  }

  lemma RoundingKeepsOrder(x: real, y: real)
    requires 0.0 <= x <= y
    ensures ToFixed2(x) <= ToFixed2(y)
  {
    assert NearestHundredth(x) <= NearestHundredth(y);
  }

  /** Where the power that turns to Yes comes from. */
  datatype Source = ExplicitNo | Silent | ExplicitAbstain

  function DrepToYes(d: DrepPower, from: Source, k: int): DrepPower {
    var d' := d.(yes := Some(Or0(d.yes) + k));
    match from
    case ExplicitNo => d'.(no := Some(Or0(d.no) - k))
    case Silent => d'
    case ExplicitAbstain => d'.(abstain := Some(Or0(d.abstain) - k))
  }

  ghost predicate DrepHas(d: DrepPower, from: Source, k: int) {
    0 <= k <= match from
              case ExplicitNo => Or0(d.no)
              case Silent => DrepNotVoted(d)
              case ExplicitAbstain => Or0(d.abstain)
  }

  lemma DrepYesPercentGrows(p: Proposal, from: Source, k: int)
    requires GoodDrep(p.drep) && DrepNotVoted(p.drep) >= 0 && DrepHas(p.drep, from, k)
    ensures BuildDrepVoteInfo(p.(drep := DrepToYes(p.drep, from, k))).yesPercent >= BuildDrepVoteInfo(p).yesPercent
  {
    var p' := p.(drep := DrepToYes(p.drep, from, k));
    var before, after := BuildDrepVoteInfo(p), BuildDrepVoteInfo(p');
    assert after.yes == before.yes + k;
    assert 0 <= before.yes && 0 <= before.no && 0 <= after.no;
    assert after.yes + after.no == before.yes + before.no + if from == ExplicitAbstain then k else 0;
    ShareGrows(before.yes, before.yes + before.no, k, after.yes + after.no);
    RoundingKeepsOrder(Share(before.yes, before.yes + before.no), Share(after.yes, after.yes + after.no));
  }

  /** Turning DRep power to Yes never lowers the yes percentage and never turns a passing
      proposal into a failing one, whatever the action and the other bodies' votes. */
  lemma MoreDrepYesNeverHurts(p: Proposal, from: Source, k: int, spoFallback: Option<VoteInfo>,
                              ccYesPercent: Option<real>)
    requires GoodDrep(p.drep) && DrepNotVoted(p.drep) >= 0 && DrepHas(p.drep, from, k)
    ensures var p' := p.(drep := DrepToYes(p.drep, from, k));
            && BuildDrepVoteInfo(p').yesPercent >= BuildDrepVoteInfo(p).yesPercent
            && (Passing(p, spoFallback, ccYesPercent) ==> Passing(p', spoFallback, ccYesPercent))
  {
    var p' := p.(drep := DrepToYes(p.drep, from, k));
    DrepYesPercentGrows(p, from, k);
    assert BuildSpoVoteInfo(p') == BuildSpoVoteInfo(p) by { SpoIgnoresDreps(p, p'); }
    PassingDependsOn(p, p', spoFallback, ccYesPercent);
  }

  lemma SpoIgnoresDreps(p: Proposal, p': Proposal)
    requires p' == p.(drep := p'.drep)
    ensures BuildSpoVoteInfo(p') == BuildSpoVoteInfo(p)
  {
    assert SpoTotalsOf(p') == SpoTotalsOf(p);
  }

  lemma PassingDependsOn(p: Proposal, p': Proposal, spoFallback: Option<VoteInfo>, ccYesPercent: Option<real>)
    requires p'.action == p.action
    requires BuildDrepVoteInfo(p').yesPercent >= BuildDrepVoteInfo(p).yesPercent
    requires var s, s' := BuildSpoVoteInfo(p), BuildSpoVoteInfo(p');
             s'.Some? == s.Some? && (s.Some? ==> s'.value.yesPercent >= s.value.yesPercent)
    ensures Passing(p, spoFallback, ccYesPercent) ==> Passing(p', spoFallback, ccYesPercent)
  {
  }

  function SpoToYes(s: SpoPower, from: Source, k: int): SpoPower {
    var s' := s.(yes := Some(Or0(s.yes) + k));
    var lessKoiosNo := if s.koiosNo.Some? then Some(s.koiosNo.value - k) else None;
    match from
    case ExplicitNo => s'.(no := Some(Or0(s.no) - k), koiosNo := lessKoiosNo)
    case Silent => s'.(koiosNo := lessKoiosNo)
    case ExplicitAbstain => s'.(abstain := Some(Or0(s.abstain) - k))
  }

  ghost predicate SpoHas(s: SpoPower, from: Source, k: int) {
    0 <= k <= match from
              case ExplicitNo => Or0(s.no)
              case Silent => SpoNotVoted(s)
              case ExplicitAbstain => Or0(s.abstain)
  }

  /** With consistent data the caps on the two pool percentages change nothing. */
  lemma SafetyNetsIdle(p: Proposal)
    requires GoodSpo(p.spo) && SpoNotVoted(p.spo) >= 0
    ensures var t := SpoTotalsOf(p);
            && 0 <= t.yes && 0 <= t.no && t.yes + t.no <= t.denominator
            && Capped(Share(t.yes, t.denominator), Share(t.no, t.denominator)) ==
               (Share(t.yes, t.denominator), Share(t.no, t.denominator))
  {
    var t := SpoTotalsOf(p);
    SpoTotalsFit(p);
    SharesFit(t.yes, t.no, t.denominator);
  }

  lemma SpoTotalsFit(p: Proposal)
    requires GoodSpo(p.spo) && SpoNotVoted(p.spo) >= 0
    ensures var t := SpoTotalsOf(p); 0 <= t.yes && 0 <= t.no && t.yes + t.no <= t.denominator
  {
  }

  lemma SharesFit(yes: int, no: int, whole: int)
    requires 0 <= yes && 0 <= no && yes + no <= whole
    ensures 0.0 <= Share(yes, whole) && 0.0 <= Share(no, whole) && Share(yes, whole) + Share(no, whole) <= 100.0
  {
    if whole > 0 {
      var w := whole as real;
      QuotientsInOrder(0, 1, yes, whole);
      QuotientsInOrder(0, 1, no, whole);
      QuotientsInOrder(yes + no, whole, 1, 1);
      assert yes as real / w + no as real / w == (yes + no) as real / w;
    }
  }

  lemma SpoMoveBase(s: SpoPower, from: Source, k: int)
    requires GoodSpo(s) && SpoNotVoted(s) >= 0 && SpoHas(s, from, k)
    ensures var s' := SpoToYes(s, from, k);
            && GoodSpo(s') && SpoNotVoted(s') >= 0
            && SpoEffectiveTotal(s') == SpoEffectiveTotal(s)
            && NotVotedFromKoios(s') == NotVotedFromKoios(s) - (if from == Silent then k else 0)
            && NotVotedFromKoios(s') == SpoNotVoted(s')
            && Or0(s'.yes) == Or0(s.yes) + k
            && Or0(s'.no) == Or0(s.no) - (if from == ExplicitNo then k else 0)
            && Or0(s'.abstain) == Or0(s.abstain) - (if from == ExplicitAbstain then k else 0)
            && s'.alwaysAbstain == s.alwaysAbstain && s'.alwaysNoConfidence == s.alwaysNoConfidence
  {
    match from
    case ExplicitNo =>
    case Silent =>
    case ExplicitAbstain =>
  }

  lemma SpoMoveTotals(p: Proposal, from: Source, k: int)
    requires GoodSpo(p.spo) && SpoNotVoted(p.spo) >= 0 && SpoHas(p.spo, from, k)
    ensures var p' := p.(spo := SpoToYes(p.spo, from, k));
            var t, t' := SpoTotalsOf(p), SpoTotalsOf(p');
            && t'.yes == t.yes + k
            && (t'.denominator == t.denominator || t'.denominator == t.denominator + k)
  {
    var s := p.spo;
    SpoMoveBase(s, from, k);
    hide TotalsFor, SpoEffectiveTotal, NotVotedFromKoios;
    TotalsMove(ShouldUseNewSpoFormula(p), p.action, Or0(s.yes), Or0(s.no), Or0(s.abstain), Or0(s.alwaysAbstain),
               Or0(s.alwaysNoConfidence), SpoEffectiveTotal(s), NotVotedFromKoios(s), from, k);
  }

  lemma TotalsMove(useNewFormula: bool, action: Option<Action>, yes: int, no: int, abstain: int, alwaysAbstain: int,
                   alwaysNoConfidence: int, effectiveTotal: int, notVoted: int, from: Source, k: int)
    ensures var t :=
            TotalsFor(useNewFormula, action, yes, no, abstain, alwaysAbstain, alwaysNoConfidence, effectiveTotal,
                      notVoted);
            var t' := TotalsFor(useNewFormula, action, yes + k, no - (if from == ExplicitNo then k else 0),
                                abstain - (if from == ExplicitAbstain then k else 0), alwaysAbstain, alwaysNoConfidence,
                                effectiveTotal, notVoted - if from == Silent then k else 0);
            && t'.yes == t.yes + k
            && (t'.denominator == t.denominator || t'.denominator == t.denominator + k)
  {
  }

  /** The percentage before rounding, with the idle safety nets taken away. */
  lemma SpoYesPercentIs(p: Proposal)
    requires GoodSpo(p.spo) && p.spo.total.Some? && SpoNotVoted(p.spo) >= 0
    ensures BuildSpoVoteInfo(p).Some?
    ensures BuildSpoVoteInfo(p).value.yesPercent == ToFixed2(Share(SpoTotalsOf(p).yes, SpoTotalsOf(p).denominator))
  {
    SafetyNetsIdle(p);
  }

  lemma SpoYesPercentGrows(p: Proposal, from: Source, k: int)
    requires GoodSpo(p.spo) && p.spo.total.Some? && SpoNotVoted(p.spo) >= 0 && SpoHas(p.spo, from, k)
    ensures var p' := p.(spo := SpoToYes(p.spo, from, k));
            BuildSpoVoteInfo(p').Some? && BuildSpoVoteInfo(p).Some?
            && BuildSpoVoteInfo(p').value.yesPercent >= BuildSpoVoteInfo(p).value.yesPercent
  {
    var p' := p.(spo := SpoToYes(p.spo, from, k));
    var t, t' := SpoTotalsOf(p), SpoTotalsOf(p');
    SpoMoveBase(p.spo, from, k);
    SpoMoveTotals(p, from, k);
    SpoTotalsFit(p);
    SpoTotalsFit(p');
    SpoYesPercentIs(p);
    SpoYesPercentIs(p');
    ShareGrows(t.yes, t.denominator, k, t'.denominator);
    RoundingKeepsOrder(Share(t.yes, t.denominator), Share(t'.yes, t'.denominator));
  }

  /** The same for stake pools. */
  lemma MoreSpoYesNeverHurts(p: Proposal, from: Source, k: int, spoFallback: Option<VoteInfo>,
                             ccYesPercent: Option<real>)
    requires GoodSpo(p.spo) && p.spo.total.Some? && SpoNotVoted(p.spo) >= 0 && SpoHas(p.spo, from, k)
    ensures var p' := p.(spo := SpoToYes(p.spo, from, k));
            && BuildSpoVoteInfo(p').Some? && BuildSpoVoteInfo(p).Some?
            && BuildSpoVoteInfo(p').value.yesPercent >= BuildSpoVoteInfo(p).value.yesPercent
            && (Passing(p, spoFallback, ccYesPercent) ==> Passing(p', spoFallback, ccYesPercent))
  {
    SpoYesPercentGrows(p, from, k);
    PassingDependsOn(p, p.(spo := SpoToYes(p.spo, from, k)), spoFallback, ccYesPercent);
  }
}
