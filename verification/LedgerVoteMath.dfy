/** The ledger's view of a vote: src/libs/ledgerVoteMath.ts. */
module LedgerVoteMath {
  import opened Common
  import opened Arithmetic
  import opened VotePower

  /** A share in percent, cut (not rounded) to two decimals. */
  function Pct2(numerator: int, denominator: int): Option<real> {
    if denominator <= 0 then None
    else Some(TruncDiv(numerator * 10000, denominator) as real / 100.0)
  }

  datatype Buckets = Buckets(
    total: int, yes: int, no: int, abstain: int, notVoted: int,
    yesOutcomePct: Option<real>, noOutcomePct: Option<real>,
    yesDistPct: Option<real>, noDistPct: Option<real>, abstainDistPct: Option<real>)

  function ComputeDrepLedgerBuckets(p: Proposal): Buckets {
    var d := p.drep;
    var total, inactive := Or0(d.total), Or0(d.inactive);
    var notVotedRaw :=
      total - Or0(d.yes) - Or0(d.no) - Or0(d.abstain) - Or0(d.alwaysAbstain) - Or0(d.alwaysNoConfidence) - inactive;
    var notVoted := if notVotedRaw > 0 then notVotedRaw else 0;
    var isNoConfidence := p.action == Some(NoConfidence);
    var yes := if isNoConfidence then Or0(d.yes) + Or0(d.alwaysNoConfidence) else Or0(d.yes);
    var no := if isNoConfidence then Or0(d.no) + notVoted else Or0(d.no) + Or0(d.alwaysNoConfidence) + notVoted;
    var abstain := Or0(d.abstain) + Or0(d.alwaysAbstain);
    var yesNoDenom, distDenom := yes + no, total - inactive;
    Buckets(total, yes, no, abstain, notVoted, Pct2(yes, yesNoDenom), Pct2(no, yesNoDenom),
            Pct2(yes, distDenom), Pct2(no, distDenom), Pct2(abstain, distDenom))
  }

  /** `total` is the effective total here. */
  function ComputeSpoLedgerBuckets(p: Proposal): Buckets {
    var s := p.spo;
    var yesActive, noActive, abstainActive := Or0(s.yes), Or0(s.no), Or0(s.abstain);
    var alwaysAbstain, alwaysNoConfidence := Or0(s.alwaysAbstain), Or0(s.alwaysNoConfidence);
    var breakdownSum := yesActive + noActive + abstainActive + alwaysAbstain + alwaysNoConfidence;
    var effectiveTotal := if s.koiosNo.Some? then yesActive + s.koiosNo.value + abstainActive + alwaysAbstain
                          else Max(Or0(s.total), breakdownSum);
    var notVotedRaw := if s.koiosNo.Some? then s.koiosNo.value - noActive - alwaysNoConfidence
                       else effectiveTotal - yesActive - noActive - abstainActive - alwaysAbstain - alwaysNoConfidence;
    var notVoted := if notVotedRaw > 0 then notVotedRaw else 0;
    var (yes, no, abstain, outcomeDenom) :=
      if ShouldUseNewSpoFormula(p) then
        var (yes, abstain, notVotedCalc) :=
          if p.action == Some(HardForkInitiation) then
            (yesActive, abstainActive, notVoted + alwaysNoConfidence + alwaysAbstain)
          else if p.action == Some(NoConfidence) then
            (yesActive + alwaysNoConfidence, abstainActive + alwaysAbstain, notVoted)
          else
            (yesActive, abstainActive + alwaysAbstain, notVoted);
        (yes, noActive + notVotedCalc, abstain, effectiveTotal - abstain)
      else
        (yesActive, noActive + alwaysNoConfidence, abstainActive + alwaysAbstain,
         yesActive + noActive + alwaysNoConfidence);
    var distDenom := yes + no + abstain;
    Buckets(effectiveTotal, yes, no, abstain, notVoted, Pct2(yes, outcomeDenom), Pct2(no, outcomeDenom),
            Pct2(yes, distDenom), Pct2(no, distDenom), Pct2(abstain, distDenom))
  }

  // ----- conservation

  /** Every counted lovelace of a DRep lands in exactly one bucket, exactly when the stored
      stances do not exceed the stored total. */
  lemma DrepBucketsCover(p: Proposal)
    requires GoodDrep(p.drep)
    ensures var b := ComputeDrepLedgerBuckets(p);
            b.yes + b.no + b.abstain == b.total - Or0(p.drep.inactive) <==> DrepNotVoted(p.drep) >= 0
  {
  }

  /** The part of the effective total that no bucket counts: for actions other than a hard
      fork or a motion of no confidence, always-no-confidence power is left out of "no". */
  ghost function UncountedSpo(p: Proposal): int {
    if p.action == Some(HardForkInitiation) || p.action == Some(NoConfidence) then 0
    else Or0(p.spo.alwaysNoConfidence)
  }

  lemma SpoBucketsCover(p: Proposal)
    requires GoodSpo(p.spo) && ShouldUseNewSpoFormula(p)
    ensures var b := ComputeSpoLedgerBuckets(p);
            b.yes + b.no + b.abstain == b.total - UncountedSpo(p) <==> SpoNotVoted(p.spo) >= 0
  {
  }

  // ----- percentages

  /** Hundredths of a percent lost by cutting: parts that make up the whole lose less than
      one each. */
  lemma CutParts(a: int, b: int, c: int, whole: int)
    requires a >= 0 && b >= 0 && c >= 0 && a + b + c == whole > 0
    ensures 9998 <= (a * 10000) / whole + (b * 10000) / whole + (c * 10000) / whole <= 10000
  {
    DivBounds(a * 10000, whole);
    DivBounds(b * 10000, whole);
    DivBounds(c * 10000, whole);
    ThreeCuts(a, b, c, whole, (a * 10000) / whole, (b * 10000) / whole, (c * 10000) / whole);
  }

  lemma ThreeCuts(a: int, b: int, c: int, whole: int, x: int, y: int, z: int)
    requires a + b + c == whole > 0
    requires x * whole <= a * 10000 < (x + 1) * whole
    requires y * whole <= b * 10000 < (y + 1) * whole
    requires z * whole <= c * 10000 < (z + 1) * whole
    ensures 9998 <= x + y + z <= 10000
  {
    assert (x + y + z) * whole == x * whole + y * whole + z * whole;
    assert (x + y + z + 3) * whole == (x + 1) * whole + (y + 1) * whole + (z + 1) * whole;
    MulLtCancel(x + y + z, 10000, whole);
    MulLe(x + y + z + 3, 10000, whole);
  }

  lemma SmallMultiple(k: int, whole: int)
    requires whole > 0 && 0 <= k * whole < 2 * whole
    ensures k == 0 || k == 1
  {
    MulLtCancel(2, k, whole);
    MulLtCancel(0, k, whole);
  }

  lemma CutPair(a: int, b: int, whole: int)
    requires a >= 0 && b >= 0 && a + b == whole > 0
    ensures 9999 <= (a * 10000) / whole + (b * 10000) / whole <= 10000
    ensures (a * 10000) / whole + (b * 10000) / whole == 10000 <==> (a * 10000) % whole == 0
  {
    var x, y := (a * 10000) / whole, (b * 10000) / whole;
    var r, t := (a * 10000) % whole, (b * 10000) % whole;
    SplitSum(a * 10000, b * 10000, whole, x, y, r, t);
    SmallMultiple(10000 - x - y, whole);
    assert 10000 - x - y == 0 ==> r + t == 0;
    assert 10000 - x - y == 1 ==> r + t == whole;
  }

  lemma SplitSum(a: int, b: int, whole: int, x: int, y: int, r: int, t: int)
    requires whole > 0 && a + b == 10000 * whole
    requires a == x * whole + r && b == y * whole + t
    ensures (10000 - x - y) * whole == r + t
  {
    assert (10000 - x - y) * whole == 10000 * whole - x * whole - y * whole;
  }

  /** The largest hundredth of a percent not above the share; none without a whole. */
  ghost predicate IsCut(pct: Option<real>, part: int, whole: int) {
    if whole <= 0 then pct == None
    else
      && pct.Some? && IsWhole(pct.value * 100.0)
      && pct.value * whole as real <= 100.0 * part as real < (pct.value + 0.01) * whole as real
  }

  lemma CutMeaning(part: int, whole: int)
    requires part >= 0
    ensures IsCut(Pct2(part, whole), part, whole)
  {
    if whole > 0 {
      DivBounds(part * 10000, whole);
      var q := (part * 10000) / whole;
      CutBounds(part, whole, q);
      assert Pct2(part, whole) == Some(q as real / 100.0);
      hide Pct2;
      assert q as real / 100.0 * 100.0 == q as real;
    }
  }

  lemma DivBounds(a: int, whole: int)
    requires whole > 0
    ensures (a / whole) * whole <= a < (a / whole + 1) * whole
  {
  }

  lemma CutBounds(part: int, whole: int, q: int)
    requires whole > 0 && q * whole <= part * 10000 < (q + 1) * whole
    ensures q as real / 100.0 * whole as real <= 100.0 * part as real < (q as real / 100.0 + 0.01) * whole as real
  {
    var w, r := whole as real, q as real;
    assert (q * whole) as real == r * w;
    assert ((q + 1) * whole) as real == (r + 1.0) * w;
    assert r / 100.0 * w == (r * w) / 100.0;
    assert (r / 100.0 + 0.01) * w == ((r + 1.0) * w) / 100.0;
  }

  /** The two outcome percentages of DReps add up to 99.99 or 100.00; to 100.00 exactly when
      nothing is cut off. */
  lemma DrepOutcomeSums(p: Proposal)
    requires GoodDrep(p.drep)
    requires var b := ComputeDrepLedgerBuckets(p); b.yes + b.no > 0
    ensures var b := ComputeDrepLedgerBuckets(p);
            && b.yesOutcomePct.Some? && b.noOutcomePct.Some?
            && (b.yesOutcomePct.value + b.noOutcomePct.value == 100.00
                || b.yesOutcomePct.value + b.noOutcomePct.value == 99.99)
            && (b.yesOutcomePct.value + b.noOutcomePct.value == 100.00 <==> (b.yes * 10000) % (b.yes + b.no) == 0)
  {
    var b := ComputeDrepLedgerBuckets(p);
    CutPair(b.yes, b.no, b.yes + b.no);
  }

  /** The three-way distribution of DReps adds up to between 99.98 and 100.00. */
  lemma DrepDistributionSums(p: Proposal)
    requires GoodDrep(p.drep) && DrepNotVoted(p.drep) >= 0 && Or0(p.drep.total) > Or0(p.drep.inactive)
    ensures var b := ComputeDrepLedgerBuckets(p);
            && b.yesDistPct.Some? && b.noDistPct.Some? && b.abstainDistPct.Some?
            && 99.98 <= b.yesDistPct.value + b.noDistPct.value + b.abstainDistPct.value <= 100.00
  {
    var b := ComputeDrepLedgerBuckets(p);
    CutParts(b.yes, b.no, b.abstain, b.total - Or0(p.drep.inactive));
  }

  lemma SpoDistributionSums(p: Proposal)
    requires GoodSpo(p.spo)
    requires var b := ComputeSpoLedgerBuckets(p); b.yes + b.no + b.abstain > 0
    ensures var b := ComputeSpoLedgerBuckets(p);
            && b.yesDistPct.Some? && b.noDistPct.Some? && b.abstainDistPct.Some?
            && 99.98 <= b.yesDistPct.value + b.noDistPct.value + b.abstainDistPct.value <= 100.00
  {
    var b := ComputeSpoLedgerBuckets(p);
    CutParts(b.yes, b.no, b.abstain, b.yes + b.no + b.abstain);
  }

  /** Which share each DRep percentage is. */
  lemma DrepPercentagesAreCut(p: Proposal)
    requires GoodDrep(p.drep)
    ensures var b := ComputeDrepLedgerBuckets(p);
            var outcome, distribution := b.yes + b.no, b.total - Or0(p.drep.inactive);
            && IsCut(b.yesOutcomePct, b.yes, outcome) && IsCut(b.noOutcomePct, b.no, outcome)
            && IsCut(b.yesDistPct, b.yes, distribution) && IsCut(b.noDistPct, b.no, distribution)
            && IsCut(b.abstainDistPct, b.abstain, distribution)
  {
    var b := ComputeDrepLedgerBuckets(p);
    hide Pct2, IsCut;
    CutMeaning(b.yes, b.yes + b.no);
    CutMeaning(b.no, b.yes + b.no);
    CutMeaning(b.yes, b.total - Or0(p.drep.inactive));
    CutMeaning(b.no, b.total - Or0(p.drep.inactive));
    CutMeaning(b.abstain, b.total - Or0(p.drep.inactive));
  }

  /** The outcome denominator of stake pools, read back from the buckets. */
  ghost function SpoOutcomeDenominator(p: Proposal): int {
    var b := ComputeSpoLedgerBuckets(p);
    if ShouldUseNewSpoFormula(p) then b.total - b.abstain
    else Or0(p.spo.yes) + Or0(p.spo.no) + Or0(p.spo.alwaysNoConfidence)
  }

  /** With nothing over-counted, the yes and no powers of stake pools make up the outcome
      denominator exactly when the new formula leaves no always-no-confidence power out. */
  lemma SpoOutcomeIsCoveredIff(p: Proposal)
    requires GoodSpo(p.spo) && SpoNotVoted(p.spo) >= 0
    ensures var b := ComputeSpoLedgerBuckets(p);
            b.yes + b.no == SpoOutcomeDenominator(p) <==> !ShouldUseNewSpoFormula(p) || UncountedSpo(p) == 0
  {
  }

  const NO_DREPS := DrepPower(None, None, None, None, None, None, None)

  /** Ten of a hundred are always-no-confidence: a treasury withdrawal counts them neither as
      yes nor as no, but in the denominator. */
  lemma OutcomeCanBeUncovered()
    ensures var spo := SpoPower(Some(100), Some(60), Some(30), None, None, Some(10), None);
            var p := Proposal("p", Some(600), Some(TreasuryWithdrawals), NO_DREPS, spo);
            var b := ComputeSpoLedgerBuckets(p);
            && SpoOutcomeDenominator(p) == 100 && b.yes == 60 && b.no == 30
            && b.yesOutcomePct == Some(60.0) && b.noOutcomePct == Some(30.0)
  {
    var spo := SpoPower(Some(100), Some(60), Some(30), None, None, Some(10), None);
    var p := Proposal("p", Some(600), Some(TreasuryWithdrawals), NO_DREPS, spo);
    SpoOutcomeIsCoveredIff(p);
  }

  /** Then, and if there is a denominator, the two percentages add up to 99.99 or 100.00. */
  lemma SpoOutcomeSums(p: Proposal)
    requires GoodSpo(p.spo) && SpoOutcomeDenominator(p) > 0
    requires var b := ComputeSpoLedgerBuckets(p); b.yes + b.no == SpoOutcomeDenominator(p)
    ensures var b := ComputeSpoLedgerBuckets(p);
            && b.yesOutcomePct == Pct2(b.yes, b.yes + b.no) && b.noOutcomePct == Pct2(b.no, b.yes + b.no)
            && (b.yesOutcomePct.value + b.noOutcomePct.value == 100.00
                || b.yesOutcomePct.value + b.noOutcomePct.value == 99.99)
  {
    SpoPercentages(p);
    var b := ComputeSpoLedgerBuckets(p);
    CutPair(b.yes, b.no, b.yes + b.no);
  }

  /** Which quotients the outcome percentages are, and that no bucket is negative. */
  lemma SpoPercentages(p: Proposal)
    requires GoodSpo(p.spo)
    ensures var b := ComputeSpoLedgerBuckets(p);
            && b.yes >= 0 && b.no >= 0 && b.abstain >= 0
            && b.yesOutcomePct == Pct2(b.yes, SpoOutcomeDenominator(p))
            && b.noOutcomePct == Pct2(b.no, SpoOutcomeDenominator(p))
  {
  }

  /** Which share each pool percentage is. */
  lemma SpoPercentagesAreCut(p: Proposal)
    requires GoodSpo(p.spo)
    ensures var b := ComputeSpoLedgerBuckets(p);
            var outcome, distribution := SpoOutcomeDenominator(p), b.yes + b.no + b.abstain;
            && IsCut(b.yesOutcomePct, b.yes, outcome) && IsCut(b.noOutcomePct, b.no, outcome)
            && IsCut(b.yesDistPct, b.yes, distribution) && IsCut(b.noDistPct, b.no, distribution)
            && IsCut(b.abstainDistPct, b.abstain, distribution)
  {
    var b := ComputeSpoLedgerBuckets(p);
    SpoPercentages(p);
    SpoDistribution(p);
    hide Pct2, IsCut, ComputeSpoLedgerBuckets, SpoOutcomeDenominator;
    CutMeaning(b.yes, SpoOutcomeDenominator(p));
    CutMeaning(b.no, SpoOutcomeDenominator(p));
    CutMeaning(b.yes, b.yes + b.no + b.abstain);
    CutMeaning(b.no, b.yes + b.no + b.abstain);
    CutMeaning(b.abstain, b.yes + b.no + b.abstain);
  }

  lemma SpoDistribution(p: Proposal)
    ensures var b := ComputeSpoLedgerBuckets(p);
            var whole := b.yes + b.no + b.abstain;
            && b.yesDistPct == Pct2(b.yes, whole) && b.noDistPct == Pct2(b.no, whole)
            && b.abstainDistPct == Pct2(b.abstain, whole)
  {
    hide Pct2;
  }
}
