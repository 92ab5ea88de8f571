/** Where each stance's power goes, stated one lovelace at a time: with nothing to begin with,
    this fixes the buckets of src/libs/ledgerVoteMath.ts. */
module VoteStances {
  import opened Common
  import opened VotePower
  import opened LedgerVoteMath

  datatype Stance = SaysYes | SaysNo | Abstains | AlwaysAbstains | AlwaysNoConfidence | Silent

  datatype Bucket = InYes | InNo | InAbstain | InNone

  function More(v: Option<int>, k: int): Option<int> {
    Some(Or0(v) + k)
  }

  // ----- DReps

  /** DReps with a stance and k more lovelace. */
  function DrepWith(d: DrepPower, stance: Stance, k: int): DrepPower {
    var d' := d.(total := More(d.total, k));
    match stance
    case SaysYes => d'.(yes := More(d.yes, k))
    case SaysNo => d'.(no := More(d.no, k))
    case Abstains => d'.(abstain := More(d.abstain, k))
    case AlwaysAbstains => d'.(alwaysAbstain := More(d.alwaysAbstain, k))
    case AlwaysNoConfidence => d'.(alwaysNoConfidence := More(d.alwaysNoConfidence, k))
    case Silent => d'
  }

  /** Silence counts as No, and so does no confidence unless it is what the action is about. */
  function DrepBucket(action: Option<Action>, stance: Stance): Bucket {
    match stance
    case SaysYes => InYes
    case SaysNo => InNo
    case Abstains => InAbstain
    case AlwaysAbstains => InAbstain
    case AlwaysNoConfidence => if action == Some(NoConfidence) then InYes else InNo
    case Silent => InNo
  }

  /** The bucket grows by k, and the others stay. */
  ghost predicate Lands(b: Buckets, b': Buckets, bucket: Bucket, k: int) {
    && b'.yes == b.yes + (if bucket == InYes then k else 0)
    && b'.no == b.no + (if bucket == InNo then k else 0)
    && b'.abstain == b.abstain + (if bucket == InAbstain then k else 0)
    && b'.total == b.total + k
  }

  /** k more lovelace with a stance go into the stance's bucket and into no other. */
  lemma DrepStanceLands(p: Proposal, stance: Stance, k: int)
    requires GoodDrep(p.drep) && DrepNotVoted(p.drep) >= 0 && k >= 0
    ensures var b, b' := ComputeDrepLedgerBuckets(p), ComputeDrepLedgerBuckets(p.(drep := DrepWith(p.drep, stance, k)));
            && Lands(b, b', DrepBucket(p.action, stance), k)
            && b'.notVoted == b.notVoted + if stance == Silent then k else 0
  {
  }

  /** Inactive power goes nowhere. */
  lemma InactiveIsLeftOut(p: Proposal, k: int)
    requires GoodDrep(p.drep) && DrepNotVoted(p.drep) >= 0 && k >= 0
    ensures var d := p.drep.(total := More(p.drep.total, k), inactive := More(p.drep.inactive, k));
            Lands(ComputeDrepLedgerBuckets(p), ComputeDrepLedgerBuckets(p.(drep := d)), InNone, k)
  {
  }

  // ----- stake pools

  /** Koios' own "no" figure contains whatever is neither Yes nor abstaining. */
  function PoolsWith(s: SpoPower, stance: Stance, k: int): SpoPower {
    var inKoiosNo := stance in {SaysNo, AlwaysNoConfidence, Silent};
    var s' := s.(total := More(s.total, k),
                 koiosNo := if s.koiosNo.Some? && inKoiosNo then Some(s.koiosNo.value + k) else s.koiosNo);
    match stance
    case SaysYes => s'.(yes := More(s.yes, k))
    case SaysNo => s'.(no := More(s.no, k))
    case Abstains => s'.(abstain := More(s.abstain, k))
    case AlwaysAbstains => s'.(alwaysAbstain := More(s.alwaysAbstain, k))
    case AlwaysNoConfidence => s'.(alwaysNoConfidence := More(s.alwaysNoConfidence, k))
    case Silent => s'
  }

  /** Under the new formula silent pools say No, a hard fork needs every pool but those that
      abstain by vote, and no confidence only counts where it is the question. Under the old one
      only pools that take a stand count. */
  function PoolBucket(useNewFormula: bool, action: Option<Action>, stance: Stance): Bucket {
    match stance
    case SaysYes => InYes
    case SaysNo => InNo
    case Abstains => InAbstain
    case AlwaysAbstains => if useNewFormula && action == Some(HardForkInitiation) then InNo else InAbstain
    case AlwaysNoConfidence =>
      if !useNewFormula || action == Some(HardForkInitiation) then InNo
      else if action == Some(NoConfidence) then InYes
      else InNone
    case Silent => if useNewFormula then InNo else InNone
  }

  /** The stored total covers the stances; with Koios' figure the total is not read. */
  ghost predicate TotalCovers(s: SpoPower) {
    s.koiosNo == None ==>
      Or0(s.total) >= Or0(s.yes) + Or0(s.no) + Or0(s.abstain) + Or0(s.alwaysAbstain) + Or0(s.alwaysNoConfidence)
  }

  /** What stays silent, with the others: every bucket as a sum. */
  lemma PoolBuckets(p: Proposal)
    requires GoodSpo(p.spo) && SpoNotVoted(p.spo) >= 0
    ensures var b, s, silent := ComputeSpoLedgerBuckets(p), p.spo, SpoNotVoted(p.spo);
            var newEra, fork := ShouldUseNewSpoFormula(p), p.action == Some(HardForkInitiation);
            var always, never := Or0(s.alwaysAbstain), Or0(s.alwaysNoConfidence);
            && b.yes == Or0(s.yes) + (if newEra && p.action == Some(NoConfidence) then never else 0)
            && b.no == Or0(s.no) + (if newEra then silent else never) + (if newEra && fork then always + never else 0)
            && b.abstain == Or0(s.abstain) + (if newEra && fork then 0 else always)
            && b.total == Or0(s.yes) + Or0(s.no) + Or0(s.abstain) + always + never + silent
            && b.notVoted == silent
  {
    hide Pct2, ShouldUseNewSpoFormula;
  }

  lemma MoreSilence(s: SpoPower, stance: Stance, k: int)
    requires GoodSpo(s) && SpoNotVoted(s) >= 0 && k >= 0 && (stance == Silent ==> TotalCovers(s))
    ensures GoodSpo(PoolsWith(s, stance, k))
    ensures SpoNotVoted(PoolsWith(s, stance, k)) == SpoNotVoted(s) + if stance == Silent then k else 0
  {
  }

  /** k more lovelace with a stance go into the stance's bucket and into no other. */
  lemma PoolStanceLands(p: Proposal, stance: Stance, k: int)
    requires GoodSpo(p.spo) && SpoNotVoted(p.spo) >= 0 && k >= 0 && (stance == Silent ==> TotalCovers(p.spo))
    ensures var b, b' := ComputeSpoLedgerBuckets(p), ComputeSpoLedgerBuckets(p.(spo := PoolsWith(p.spo, stance, k)));
            && Lands(b, b', PoolBucket(ShouldUseNewSpoFormula(p), p.action, stance), k)
            && b'.notVoted == b.notVoted + if stance == Silent then k else 0
  {
    var p' := p.(spo := PoolsWith(p.spo, stance, k));
    MoreSilence(p.spo, stance, k);
    assert ShouldUseNewSpoFormula(p') == ShouldUseNewSpoFormula(p);
    hide ComputeSpoLedgerBuckets, SpoNotVoted, ShouldUseNewSpoFormula, GoodSpo;
    PoolBuckets(p);
    PoolBuckets(p');
  }

  /** To begin with there is nothing anywhere. */
  lemma NothingLands(p: Proposal)
    requires p.drep == DrepPower(None, None, None, None, None, None, None)
    requires p.spo == SpoPower(None, None, None, None, None, None, None)
    ensures var d, s := ComputeDrepLedgerBuckets(p), ComputeSpoLedgerBuckets(p);
            && d.total == d.yes == d.no == d.abstain == d.notVoted == 0
            && s.total == s.yes == s.no == s.abstain == s.notVoted == 0
  {
  }
}
