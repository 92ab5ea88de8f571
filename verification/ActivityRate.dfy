/** The activity rate of DReps: `getDRepActivityRate` in
    src/controllers/analytics/getDRepActivityRate.ts. */
module ActivityRate {
  import opened Common
  import opened SortedSets

  datatype Proposal = Proposal(id: string, submissionEpoch: Option<int>, status: string)

  /** The query's filters; an empty status list means any status. */
  datatype Filter = Filter(epochStart: Option<int>, epochEnd: Option<int>, statuses: seq<string>)

  /** The votes of one DRep on one proposal, with the number of vote rows. */
  datatype VoteGroup = VoteGroup(drepId: string, proposalId: string, rows: nat)

  datatype Metrics = Metrics(uniqueProposalsVoted: nat, totalVotesCast: nat)

  datatype EpochCount = EpochCount(epoch: int, count: nat)

  predicate StatusMatches(f: Filter, p: Proposal) {
    f.statuses == [] || p.status in f.statuses
  }

  /** The epoch bounds leave out proposals without a submission epoch. */
  predicate EpochMatches(f: Filter, p: Proposal) {
    && (f.epochStart.Some? ==> p.submissionEpoch.Some? && f.epochStart.value <= p.submissionEpoch.value)
    && (f.epochEnd.Some? ==> p.submissionEpoch.Some? && p.submissionEpoch.value <= f.epochEnd.value)
  }

  predicate InScope(f: Filter, p: Proposal) {
    StatusMatches(f, p) && EpochMatches(f, p)
  }

  predicate Since(p: Proposal, epoch: int) {
    p.submissionEpoch.Some? && epoch <= p.submissionEpoch.value
  }

  function Count(ps: seq<Proposal>, keep: Proposal -> bool): nat {
    if ps == [] then 0 else Count(ps[..|ps| - 1], keep) + if keep(ps[|ps| - 1]) then 1 else 0
  }

  // ----- counts by epoch

  function EpochsOf(ps: seq<Proposal>, keep: Proposal -> bool): (epochs: set<int>)
    ensures forall i :: 0 <= i < |ps| && keep(ps[i]) && ps[i].submissionEpoch.Some? ==>
            ps[i].submissionEpoch.value in epochs
  {
    if ps == [] then {}
    else
      var p := ps[|ps| - 1];
      EpochsOf(ps[..|ps| - 1], keep) + if keep(p) && p.submissionEpoch.Some? then {p.submissionEpoch.value} else {}
  }

  function AtEpoch(keep: Proposal -> bool, epoch: int): Proposal -> bool {
    p => keep(p) && p.submissionEpoch == Some(epoch)
  }

  function FromEpoch(keep: Proposal -> bool, epoch: int): Proposal -> bool {
    p => keep(p) && Since(p, epoch)
  }

  /** The grouping the database returns, sorted by epoch. The grouped query replaces the
      epoch bounds of the filter by "has an epoch", so only the status is filtered. */
  function GroupByEpoch(ps: seq<Proposal>, f: Filter): (groups: seq<EpochCount>)
    ensures Ascending(groups)
    ensures forall i :: 0 <= i < |groups| ==>
              groups[i].count == Count(ps, AtEpoch(p => StatusMatches(f, p), groups[i].epoch))
  {
    var epochs := SortedKeys(EpochsOf(ps, p => StatusMatches(f, p)));
    seq(|epochs|, i requires 0 <= i < |epochs| =>
      EpochCount(epochs[i], Count(ps, AtEpoch(p => StatusMatches(f, p), epochs[i]))))
  }

  ghost predicate Ascending(groups: seq<EpochCount>) {
    forall i, j :: 0 <= i < j < |groups| ==> groups[i].epoch < groups[j].epoch
  }

  /** The direct sum: all groups at or after an epoch. */
  ghost function SumFrom(groups: seq<EpochCount>, epoch: int): nat {
    if groups == [] then 0
    else (if groups[0].epoch >= epoch then groups[0].count else 0) + SumFrom(groups[1..], epoch)
  }

  ghost function Total(groups: seq<EpochCount>): nat {
    if groups == [] then 0 else groups[0].count + Total(groups[1..])
  }

  ghost predicate AreSuffixSums(suffixCounts: array<int>, groups: seq<EpochCount>)
    reads suffixCounts
  {
    suffixCounts.Length == |groups| && forall i :: 0 <= i < |groups| ==> suffixCounts[i] == Total(groups[i..])
  }

  /** Fills the suffix sums from the back. */
  method SuffixCounts(groups: seq<EpochCount>) returns (suffixCounts: array<int>)
    ensures fresh(suffixCounts) && AreSuffixSums(suffixCounts, groups)
  {
    suffixCounts := new int[|groups|];
    var running := 0;
    var i := |groups| - 1;
    while i >= 0
      invariant -1 <= i < |groups|
      invariant running == Total(groups[i + 1..])
      invariant forall k :: i < k < |groups| ==> suffixCounts[k] == Total(groups[k..])
    {
      assert groups[i..][1..] == groups[i + 1..];
      running := running + groups[i].count;
      suffixCounts[i] := running;
      i := i - 1;
    }
  }

  /** Binary search for the first group at or after an epoch, answered by its suffix sum. */
  method CountProposalsFromEpoch(groups: seq<EpochCount>, suffixCounts: array<int>, startEpoch: int)
    returns (count: int)
    requires Ascending(groups) && AreSuffixSums(suffixCounts, groups)
    ensures count == SumFrom(groups, startEpoch)
  {
    if |groups| == 0 { return 0; }
    var lo, hi := 0, |groups|;
    while lo < hi
      invariant 0 <= lo <= hi <= |groups|
      invariant forall k :: 0 <= k < lo ==> groups[k].epoch < startEpoch
      invariant forall k :: hi <= k < |groups| ==> groups[k].epoch >= startEpoch
    {
      var mid := (lo + hi) / 2;
      if groups[mid].epoch < startEpoch { lo := mid + 1; } else { hi := mid; }
    }
    SumFromSplit(groups, startEpoch, lo);
    count := if lo >= suffixCounts.Length then 0 else suffixCounts[lo];
  }

  lemma {:induction false} SumFromSplit(groups: seq<EpochCount>, epoch: int, n: nat)
    requires n <= |groups|
    requires forall k :: 0 <= k < n ==> groups[k].epoch < epoch
    requires forall k :: n <= k < |groups| ==> groups[k].epoch >= epoch
    ensures SumFrom(groups, epoch) == Total(groups[n..])
    decreases |groups|
  {
    if groups == [] {
    } else if n > 0 {
      SumFromSplit(groups[1..], epoch, n - 1);
      assert groups[1..][n - 1..] == groups[n..];
    } else {
      SumFromSplit(groups[1..], epoch, 0);
      assert groups[1..][0..] == groups[1..] && groups[0..] == groups;
    }
  }

  // ----- the grouped counts are the direct count

  /** One more proposal adds one to the sum over its epoch's group, if it is late enough. */
  ghost function SumOver(epochs: seq<int>, ps: seq<Proposal>, keep: Proposal -> bool, start: int): nat {
    if epochs == [] then 0
    else (if epochs[0] >= start then Count(ps, AtEpoch(keep, epochs[0])) else 0) + SumOver(epochs[1..], ps, keep, start)
  }

  lemma {:induction false} SumOverStep(epochs: seq<int>, ps: seq<Proposal>, p: Proposal, keep: Proposal -> bool,
                                       start: int)
    requires StrictlyAscending(epochs)
    ensures SumOver(epochs, ps + [p], keep, start) == SumOver(epochs, ps, keep, start) +
            if keep(p) && Since(p, start) && p.submissionEpoch.value in epochs then 1 else 0
  {
    if epochs == [] {
    } else {
      SumOverStep(epochs[1..], ps, p, keep, start);
      assert (ps + [p])[..|ps|] == ps;
      if p.submissionEpoch.Some? {
        var e := p.submissionEpoch.value;
        assert e in epochs <==> e == epochs[0] || e in epochs[1..];
      }
    }
  }

  lemma {:induction false} SumOverIsCount(epochs: seq<int>, ps: seq<Proposal>, keep: Proposal -> bool, start: int)
    requires StrictlyAscending(epochs)
    requires forall i :: 0 <= i < |ps| && keep(ps[i]) && ps[i].submissionEpoch.Some? ==>
             ps[i].submissionEpoch.value in epochs
    ensures SumOver(epochs, ps, keep, start) == Count(ps, FromEpoch(keep, start))
  {
    if ps == [] {
      SumOverNothing(epochs, keep, start);
    } else {
      var init, p := ps[..|ps| - 1], ps[|ps| - 1];
      SumOverIsCount(epochs, init, keep, start);
      SumOverStep(epochs, init, p, keep, start);
      assert init + [p] == ps;
    }
  }

  lemma {:induction false} SumOverNothing(epochs: seq<int>, keep: Proposal -> bool, start: int)
    ensures SumOver(epochs, [], keep, start) == 0
  {
    if epochs == [] {
    } else {
      SumOverNothing(epochs[1..], keep, start);
    }
  }

  lemma {:induction false} SumFromIsSumOver(groups: seq<EpochCount>, epochs: seq<int>, ps: seq<Proposal>,
                                            keep: Proposal -> bool, start: int)
    requires |groups| == |epochs|
    requires forall i :: 0 <= i < |groups| ==> groups[i] == EpochCount(epochs[i], Count(ps, AtEpoch(keep, epochs[i])))
    ensures SumFrom(groups, start) == SumOver(epochs, ps, keep, start)
  {
    if groups == [] {
    } else {
      SumFromIsSumOver(groups[1..], epochs[1..], ps, keep, start);
    }
  }

  /** The grouped sum counts the proposals that match the status and are new enough. */
  lemma GroupsCountDirectly(ps: seq<Proposal>, f: Filter, start: int)
    ensures SumFrom(GroupByEpoch(ps, f), start) == Count(ps, FromEpoch(p => StatusMatches(f, p), start))
  {
    var keep := p => StatusMatches(f, p);
    var epochs := SortedKeys(EpochsOf(ps, keep));
    SumFromIsSumOver(GroupByEpoch(ps, f), epochs, ps, keep, start);
    SumOverIsCount(epochs, ps, keep, start);
  }

  // ----- the denominators

  lemma {:induction false} CountCompared(ps: seq<Proposal>, narrow: Proposal -> bool, wide: Proposal -> bool)
    requires forall i :: 0 <= i < |ps| && narrow(ps[i]) ==> wide(ps[i])
    ensures Count(ps, narrow) <= Count(ps, wide)
    ensures Count(ps, narrow) == Count(ps, wide) <==> forall i :: 0 <= i < |ps| && wide(ps[i]) ==> narrow(ps[i])
  {
    if ps == [] {
    } else {
      var init := ps[..|ps| - 1];
      CountCompared(init, narrow, wide);
      assert forall i :: 0 <= i < |init| ==> init[i] == ps[i];
    }
  }

  /** The documented denominator is the number of proposals in scope since registration. The
      computed one is that number exactly when the epoch bounds shut out no proposal that
      matches the status and is new enough; otherwise it is larger. */
  lemma DenominatorIff(ps: seq<Proposal>, f: Filter, registration: int)
    ensures var documented := Count(ps, FromEpoch(p => InScope(f, p), registration));
            var computed := SumFrom(GroupByEpoch(ps, f), registration);
            && documented <= computed
            && (documented == computed <==>
                  forall i :: 0 <= i < |ps| && StatusMatches(f, ps[i]) && Since(ps[i], registration) ==>
                    EpochMatches(f, ps[i]))
  {
    GroupsCountDirectly(ps, f, registration);
    CountCompared(ps, FromEpoch(p => InScope(f, p), registration), FromEpoch(p => StatusMatches(f, p), registration));
  }

  /** With an end epoch of 10, a proposal of epoch 20 is still counted. */
  lemma EpochFilterIsIgnored()
    ensures var ps := [Proposal("p", Some(20), "ACTIVE")];
            var f := Filter(None, Some(10), []);
            && SumFrom(GroupByEpoch(ps, f), 0) == 1
            && Count(ps, FromEpoch(p => InScope(f, p), 0)) == 0
  {
    var ps := [Proposal("p", Some(20), "ACTIVE")];
    var f := Filter(None, Some(10), []);
    GroupsCountDirectly(ps, f, 0);
    assert ps[..0] == [];
  }

  // ----- the numerators

  /** A vote group counts unless its DRep registered after the proposal, as far as known. */
  predicate Eligible(g: VoteGroup, registrations: map<string, int>, epochOf: map<string, Option<int>>) {
    && g.drepId != ""
    && var epoch := if g.proposalId in epochOf then epochOf[g.proposalId] else None;
       (g.drepId in registrations ==> epoch.Some? && registrations[g.drepId] <= epoch.value)
  }

  ghost function MetricsOf(groups: seq<VoteGroup>, drep: string, registrations: map<string, int>,
                           epochOf: map<string, Option<int>>): Metrics {
    if groups == [] then Metrics(0, 0)
    else
      var m, g := MetricsOf(groups[..|groups| - 1], drep, registrations, epochOf), groups[|groups| - 1];
      if g.drepId == drep && Eligible(g, registrations, epochOf)
      then Metrics(m.uniqueProposalsVoted + 1, m.totalVotesCast + g.rows)
      else m
  }

  function MetricsIn(m: map<string, Metrics>, drep: string): Metrics {
    if drep in m then m[drep] else Metrics(0, 0)
  }

  method AccumulateMetrics(groups: seq<VoteGroup>, registrations: map<string, int>, epochOf: map<string, Option<int>>)
    returns (m: map<string, Metrics>)
    ensures forall d :: MetricsIn(m, d) == MetricsOf(groups, d, registrations, epochOf)
  {
    m := map[];
    for i := 0 to |groups|
      invariant forall d :: MetricsIn(m, d) == MetricsOf(groups[..i], d, registrations, epochOf)
    {
      assert groups[..i + 1][..i] == groups[..i];
      var g := groups[i];
      if g.drepId == "" { continue; }
      var epoch := if g.proposalId in epochOf then epochOf[g.proposalId] else None;
      if g.drepId in registrations && (epoch == None || epoch.value < registrations[g.drepId]) { continue; }
      var existing := MetricsIn(m, g.drepId);
      m := m[g.drepId := Metrics(existing.uniqueProposalsVoted + 1, existing.totalVotesCast + g.rows)];
    }
    assert groups[..|groups|] == groups;
  }

  /** What the queries return: proposals once each, one group per DRep and proposal, votes
      on proposals in scope only. */
  ghost predicate QueryResults(ps: seq<Proposal>, f: Filter, groups: seq<VoteGroup>,
                               epochOf: map<string, Option<int>>) {
    && (forall i, j :: 0 <= i < j < |ps| ==> ps[i].id != ps[j].id)
    && (forall i, j :: 0 <= i < j < |groups| ==>
       groups[i].drepId != groups[j].drepId || groups[i].proposalId != groups[j].proposalId)
    && (forall i :: 0 <= i < |groups| ==> groups[i].proposalId in epochOf)
    && (forall id :: id in epochOf ==>
       exists i :: 0 <= i < |ps| && ps[i].id == id && InScope(f, ps[i]) && epochOf[id] == ps[i].submissionEpoch)
  }

  ghost function Ids(ps: seq<Proposal>, keep: Proposal -> bool): set<string> {
    set i | 0 <= i < |ps| && keep(ps[i]) :: ps[i].id
  }

  lemma {:induction false} CountIsIds(ps: seq<Proposal>, keep: Proposal -> bool)
    requires forall i, j :: 0 <= i < j < |ps| ==> ps[i].id != ps[j].id
    ensures Count(ps, keep) == |Ids(ps, keep)|
  {
    if ps == [] {
      assert Ids(ps, keep) == {};
    } else {
      var init, p := ps[..|ps| - 1], ps[|ps| - 1];
      CountIsIds(init, keep);
      assert p.id !in Ids(init, keep);
      assert Ids(ps, keep) == Ids(init, keep) + if keep(p) then {p.id} else {};
    }
  }

  ghost predicate Voted(g: VoteGroup, drep: string, registrations: map<string, int>,
                        epochOf: map<string, Option<int>>) {
    g.drepId == drep && Eligible(g, registrations, epochOf)
  }

  ghost function VotedIds(groups: seq<VoteGroup>, drep: string, registrations: map<string, int>,
                          epochOf: map<string, Option<int>>): (ids: set<string>)
    ensures forall id :: id in ids ==>
              exists i :: 0 <= i < |groups| && groups[i].proposalId == id
                && Voted(groups[i], drep, registrations, epochOf)
  {
    if groups == [] then {}
    else
      var init, g := groups[..|groups| - 1], groups[|groups| - 1];
      assert forall i :: 0 <= i < |init| ==> init[i] == groups[i];
      VotedIds(init, drep, registrations, epochOf) +
      if Voted(g, drep, registrations, epochOf) then {g.proposalId} else {}
  }

  lemma LastGroupIsNew(groups: seq<VoteGroup>, drep: string, registrations: map<string, int>,
                       epochOf: map<string, Option<int>>)
    requires forall i, j :: 0 <= i < j < |groups| ==>
             groups[i].drepId != groups[j].drepId || groups[i].proposalId != groups[j].proposalId
    requires groups != []
    ensures Voted(groups[|groups| - 1], drep, registrations, epochOf) ==>
              groups[|groups| - 1].proposalId !in VotedIds(groups[..|groups| - 1], drep, registrations, epochOf)
  {
    var init := groups[..|groups| - 1];
    forall i | 0 <= i < |init| && Voted(init[i], drep, registrations, epochOf)
      && Voted(groups[|groups| - 1], drep, registrations, epochOf)
      ensures init[i].proposalId != groups[|groups| - 1].proposalId
    {
      assert init[i] == groups[i];
    }
  }

  lemma {:induction false} VotedIsIds(groups: seq<VoteGroup>, drep: string, registrations: map<string, int>,
                                      epochOf: map<string, Option<int>>)
    requires forall i, j :: 0 <= i < j < |groups| ==>
             groups[i].drepId != groups[j].drepId || groups[i].proposalId != groups[j].proposalId
    ensures MetricsOf(groups, drep, registrations, epochOf).uniqueProposalsVoted ==
            |VotedIds(groups, drep, registrations, epochOf)|
  {
    if groups == [] {
    } else {
      var init, g := groups[..|groups| - 1], groups[|groups| - 1];
      VotedIsIds(init, drep, registrations, epochOf);
      LastGroupIsNew(groups, drep, registrations, epochOf);
    }
  }

  lemma SubsetSize<T>(a: set<T>, b: set<T>)
    requires a <= b
    ensures |a| <= |b|
  {
    assert b == a + (b - a);
  }

  /** No DRep has voted on more proposals than its denominators count. */
  lemma {:induction false} NumeratorWithinDenominators(ps: seq<Proposal>, f: Filter, groups: seq<VoteGroup>,
                                                       drep: string, registrations: map<string, int>,
                                                       epochOf: map<string, Option<int>>)
    requires QueryResults(ps, f, groups, epochOf)
    ensures var voted := MetricsOf(groups, drep, registrations, epochOf).uniqueProposalsVoted;
            && voted <= Count(ps, p => InScope(f, p))
            && (drep in registrations ==> voted <= SumFrom(GroupByEpoch(ps, f), registrations[drep]))
  {
    VotedIsIds(groups, drep, registrations, epochOf);
    var ids := VotedIds(groups, drep, registrations, epochOf);
    CountIsIds(ps, p => InScope(f, p));
    SubsetSize(ids, Ids(ps, p => InScope(f, p)));
    if drep in registrations {
      var since := FromEpoch(p => StatusMatches(f, p), registrations[drep]);
      GroupsCountDirectly(ps, f, registrations[drep]);
      CountIsIds(ps, since);
      SubsetSize(ids, Ids(ps, since));
    }
  }

  // ----- the rates

  datatype Summary = Summary(drepId: string, proposalsVoted: nat, totalVotesCast: nat, totalProposals: nat,
                             totalProposalsSinceRegistration: nat, activityRatePct: real, activityRateAllTimePct: real)

  /** Math.round(part / whole * 10000) / 100, or 0 without a whole. */
  function RatePct(part: nat, whole: nat): real {
    if whole > 0 then (part as real / whole as real * 10000.0 + 0.5).Floor as real / 100.0 else 0.0
  }

  /** No hundredth of a percent is nearer to the share; without a whole it is 0. */
  ghost predicate IsRate(pct: real, part: nat, whole: nat) {
    if whole == 0 then pct == 0.0
    else
      && (pct * 100.0).Floor as real == pct * 100.0
      && -0.005 <= pct - 100.0 * (part as real / whole as real) <= 0.005
  }

  lemma RateAtMost100(part: nat, whole: nat)
    requires part <= whole
    ensures 0.0 <= RatePct(part, whole) <= 100.0 && IsRate(RatePct(part, whole), part, whole)
  {
    if whole > 0 {
      var r := part as real / whole as real;
      assert 0.0 <= r <= 1.0;
      var n := (r * 10000.0 + 0.5).Floor;
      assert RatePct(part, whole) == n as real / 100.0 && n as real / 100.0 * 100.0 == n as real;
    }
  }

  /** A group counts for a DRep if it is its own, on a proposal that came no earlier than its
      registration, if that is known. */
  ghost predicate CountsFor(g: VoteGroup, drep: string, registrations: map<string, int>,
                            epochOf: map<string, Option<int>>) {
    && g.drepId == drep && drep != ""
    && (drep in registrations ==>
          && g.proposalId in epochOf && epochOf[g.proposalId].Some?
          && epochOf[g.proposalId].value >= registrations[drep])
  }

  ghost function CountingFor(drep: string, registrations: map<string, int>, epochOf: map<string, Option<int>>):
    VoteGroup -> bool
  {
    g => CountsFor(g, drep, registrations, epochOf)
  }

  ghost function CountedGroups(groups: seq<VoteGroup>, drep: string, registrations: map<string, int>,
                               epochOf: map<string, Option<int>>): set<int> {
    Places(groups, CountingFor(drep, registrations, epochOf))
  }

  lemma CountsForIff(g: VoteGroup, drep: string, registrations: map<string, int>, epochOf: map<string, Option<int>>)
    ensures CountsFor(g, drep, registrations, epochOf) <==> Voted(g, drep, registrations, epochOf)
  {
  }

  /** The vote rows of the groups that count. */
  ghost function RowsCounted(groups: seq<VoteGroup>, drep: string, registrations: map<string, int>,
                             epochOf: map<string, Option<int>>): nat {
    if groups == [] then 0
    else
      RowsCounted(groups[1..], drep, registrations, epochOf) +
      if CountsFor(groups[0], drep, registrations, epochOf) then groups[0].rows else 0
  }

  lemma {:induction false} RowsSnoc(groups: seq<VoteGroup>, g: VoteGroup, drep: string, registrations: map<string, int>,
                                    epochOf: map<string, Option<int>>)
    ensures RowsCounted(groups + [g], drep, registrations, epochOf) ==
            RowsCounted(groups, drep, registrations, epochOf) +
              if CountsFor(g, drep, registrations, epochOf) then g.rows else 0
  {
    hide CountsFor;
    if groups == [] {
      assert groups + [g] == [g] && [g][1..] == [];
    } else {
      RowsSnoc(groups[1..], g, drep, registrations, epochOf);
      assert (groups + [g])[1..] == groups[1..] + [g];
    }
  }

  /** The metrics of a DRep are the number of groups that count for it, and their vote rows. */
  lemma {:induction false} MetricsCount(groups: seq<VoteGroup>, drep: string, registrations: map<string, int>,
                                        epochOf: map<string, Option<int>>)
    ensures MetricsOf(groups, drep, registrations, epochOf) ==
            Metrics(|CountedGroups(groups, drep, registrations, epochOf)|,
                    RowsCounted(groups, drep, registrations, epochOf))
  {
    if groups == [] {
      NoPlaces(CountingFor(drep, registrations, epochOf));
    } else {
      var init, g := groups[..|groups| - 1], groups[|groups| - 1];
      MetricsCount(init, drep, registrations, epochOf);
      CountsForIff(g, drep, registrations, epochOf);
      hide CountsFor, Eligible, Places, RowsCounted;
      PlacesSnoc(init, g, CountingFor(drep, registrations, epochOf));
      RowsSnoc(init, g, drep, registrations, epochOf);
      assert groups == init + [g];
    }
  }

  /** The row of one DRep; both rates stay within 100. */
  ghost predicate IsSummary(s: Summary, drep: string, ps: seq<Proposal>, f: Filter, groups: seq<VoteGroup>,
                            registrations: map<string, int>, epochOf: map<string, Option<int>>) {
    && s.drepId == drep && s.proposalsVoted == |CountedGroups(groups, drep, registrations, epochOf)|
    && s.totalVotesCast == RowsCounted(groups, drep, registrations, epochOf)
    && s.totalProposals == Count(ps, p => InScope(f, p))
    && s.totalProposalsSinceRegistration == (if drep in registrations
         then Count(ps, FromEpoch(p => StatusMatches(f, p), registrations[drep])) else s.totalProposals)
    && IsRate(s.activityRatePct, s.proposalsVoted, s.totalProposalsSinceRegistration) && s.activityRatePct <= 100.0
    && IsRate(s.activityRateAllTimePct, s.proposalsVoted, s.totalProposals) && s.activityRateAllTimePct <= 100.0
  }

  method Summarize(ps: seq<Proposal>, f: Filter, groups: seq<VoteGroup>, registrations: map<string, int>,
                   epochOf: map<string, Option<int>>, epochCounts: seq<EpochCount>, suffixCounts: array<int>,
                   total: nat, m: Metrics, drep: string)
    returns (s: Summary)
    requires QueryResults(ps, f, groups, epochOf)
    requires epochCounts == GroupByEpoch(ps, f) && AreSuffixSums(suffixCounts, epochCounts)
    requires total == Count(ps, p => InScope(f, p)) && m == MetricsOf(groups, drep, registrations, epochOf)
    ensures IsSummary(s, drep, ps, f, groups, registrations, epochOf)
  {
    NumeratorWithinDenominators(ps, f, groups, drep, registrations, epochOf);
    MetricsCount(groups, drep, registrations, epochOf);
    var since := total;
    if drep in registrations {
      since := CountProposalsFromEpoch(epochCounts, suffixCounts, registrations[drep]);
      GroupsCountDirectly(ps, f, registrations[drep]);
    }
    RateAtMost100(m.uniqueProposalsVoted, since);
    RateAtMost100(m.uniqueProposalsVoted, total);
    s := Summary(drep, m.uniqueProposalsVoted, m.totalVotesCast, total, since,
                 RatePct(m.uniqueProposalsVoted, since), RatePct(m.uniqueProposalsVoted, total));
  }

  method DRepActivity(ps: seq<Proposal>, f: Filter, groups: seq<VoteGroup>, registrations: map<string, int>,
                      epochOf: map<string, Option<int>>, dreps: seq<string>)
    returns (summaries: seq<Summary>)
    requires QueryResults(ps, f, groups, epochOf)
    ensures |summaries| == |dreps|
    ensures forall i :: 0 <= i < |dreps| ==> IsSummary(summaries[i], dreps[i], ps, f, groups, registrations, epochOf)
  {
    var total := Count(ps, p => InScope(f, p));
    var epochCounts := GroupByEpoch(ps, f);
    var suffixCounts := SuffixCounts(epochCounts);
    var metrics := AccumulateMetrics(groups, registrations, epochOf);
    summaries := [];
    for i := 0 to |dreps|
      invariant |summaries| == i && AreSuffixSums(suffixCounts, epochCounts)
      invariant forall k :: 0 <= k < i ==> IsSummary(summaries[k], dreps[k], ps, f, groups, registrations, epochOf)
    {
      var s := Summarize(ps, f, groups, registrations, epochOf, epochCounts, suffixCounts, total,
                         MetricsIn(metrics, dreps[i]), dreps[i]);
      summaries := summaries + [s];
    }
  }
}
