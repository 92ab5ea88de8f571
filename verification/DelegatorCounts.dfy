/** Exact delegator counts: `phase3ExactDelegatorCounts` in src/scripts/backfill-drep-snapshots.ts.

    The script never replays the delegation log. For one DRep it adds up +1 for every
    change to it and -1 for every change away from it, epoch by epoch. `Replay` below is
    the direct meaning: follow every stake address through the log. */
module DelegatorCounts {
  import opened SortedSets

  type DRep = string
  type Stake = string

  /** A row of the change log. The empty string stands for "no DRep", a negative epoch
      for "epoch unknown". */
  datatype Change = Change(stake: Stake, fromDrep: DRep, toDrep: DRep, epoch: int)

  /** A stored snapshot row of one DRep. */
  datatype Snapshot = Snapshot(epoch: int, delegatorCount: int)

  const NO_DREP: DRep := ""

  // ----- what the script computes

  function Unit(b: bool): int {
    if b then 1 else 0
  }

  /** The epochs of the rows with the given destination (or origin), in log order. */
  function EpochsTo(log: seq<Change>, drep: DRep): seq<int> {
    if log == [] then []
    else
      var c := log[|log| - 1];
      EpochsTo(log[..|log| - 1], drep) + if c.toDrep == drep then [c.epoch] else []
  }

  function EpochsFrom(log: seq<Change>, drep: DRep): seq<int> {
    if log == [] then []
    else
      var c := log[|log| - 1];
      EpochsFrom(log[..|log| - 1], drep) + if c.fromDrep == drep then [c.epoch] else []
  }

  /** Arrivals minus departures of a DRep over the rows with an epoch in lo..hi. */
  ghost function Net(log: seq<Change>, drep: DRep, lo: int, hi: int): int {
    if log == [] then 0
    else
      var c := log[|log| - 1];
      Net(log[..|log| - 1], drep, lo, hi) +
      if lo <= c.epoch <= hi then Unit(c.toDrep == drep) - Unit(c.fromDrep == drep) else 0
  }

  function Max0(n: int): nat {
    if n < 0 then 0 else n
  }

  /** The count the script stores for a snapshot epoch. */
  ghost function StoredCount(log: seq<Change>, drep: DRep, epoch: int): nat {
    Max0(Net(log, drep, 0, epoch))
  }

  ghost function Occurrences(s: seq<int>, x: int): int {
    if s == [] then 0 else Occurrences(s[..|s| - 1], x) + Unit(s[|s| - 1] == x)
  }

  ghost function CountIn(s: seq<int>, lo: int, hi: int): int {
    if s == [] then 0 else CountIn(s[..|s| - 1], lo, hi) + Unit(lo <= s[|s| - 1] <= hi)
  }

  /** The total of a map over a list of keys. */
  ghost function Total(m: map<int, int>, ks: seq<int>): int {
    if ks == [] then 0 else Total(m, ks[..|ks| - 1]) + Get(m, ks[|ks| - 1])
  }

  function Get(m: map<int, int>, k: int): int {
    if k in m then m[k] else 0
  }

  /** One DRep's part of phase 3: `snapshots` are its stored rows. A DRep that no row
      mentions keeps the counts it had. */
  method ReconstructCounts(log: seq<Change>, drep: DRep, snapshots: array<Snapshot>)
    modifies snapshots
    ensures forall i :: 0 <= i < snapshots.Length ==>
              snapshots[i] == if EpochsTo(log, drep) == [] && EpochsFrom(log, drep) == []
                              then old(snapshots[i])
                              else Snapshot(old(snapshots[i]).epoch, StoredCount(log, drep, old(snapshots[i]).epoch))
  {
    var incoming := EpochsTo(log, drep);
    var outgoing := EpochsFrom(log, drep);
    if |incoming| == 0 && |outgoing| == 0 {
      return;
    }
    var deltaByEpoch := BuildDeltas(incoming, outgoing);
    var sortedEpochs := SortedKeys(deltaByEpoch.Keys);
    var cumulativeAtEpoch := RunningSums(deltaByEpoch, sortedEpochs);
    for s := 0 to snapshots.Length
      invariant forall i :: s <= i < snapshots.Length ==> snapshots[i] == old(snapshots[i])
      invariant forall i :: 0 <= i < s ==>
                  snapshots[i] == Snapshot(old(snapshots[i]).epoch, StoredCount(log, drep, old(snapshots[i]).epoch))
    {
      var epoch := snapshots[s].epoch;
      var count := LatestSum(deltaByEpoch, sortedEpochs, cumulativeAtEpoch, epoch);
      LatestIsNet(log, drep, deltaByEpoch, sortedEpochs, epoch);
      count := Max0(count);
      snapshots[s] := Snapshot(epoch, count);
    }
  }

  /** The running sum at every epoch of a change. */
  method RunningSums(deltas: map<int, int>, sorted: seq<int>) returns (sums: map<int, int>)
    requires StrictlyAscending(sorted) && forall i :: 0 <= i < |sorted| ==> sorted[i] in deltas
    ensures AreRunningSums(sums, deltas, sorted)
  {
    sums := map[];
    var running := 0;
    for i := 0 to |sorted|
      invariant running == Total(deltas, sorted[..i])
      invariant forall j :: 0 <= j < i ==> sorted[j] in sums && sums[sorted[j]] == Total(deltas, sorted[..j + 1])
    {
      assert sorted[..i + 1][..i] == sorted[..i];
      running := running + deltas[sorted[i]];
      sums := sums[sorted[i] := running];
    }
  }

  ghost predicate AreRunningSums(sums: map<int, int>, deltas: map<int, int>, sorted: seq<int>) {
    forall j :: 0 <= j < |sorted| ==> sorted[j] in sums && sums[sorted[j]] == Total(deltas, sorted[..j + 1])
  }

  /** How many epochs come before the first one that is later than the given epoch. */
  ghost function UpTo(sorted: seq<int>, epoch: int): (n: nat)
    ensures n <= |sorted|
    ensures forall k :: 0 <= k < n ==> sorted[k] <= epoch
    ensures n < |sorted| ==> sorted[n] > epoch
  {
    if sorted == [] || sorted[0] > epoch then 0 else 1 + UpTo(sorted[1..], epoch)
  }

  /** The running sum at the last change no later than an epoch. */
  method LatestSum(ghost deltas: map<int, int>, sorted: seq<int>, sums: map<int, int>, epoch: int)
    returns (count: int)
    requires AreRunningSums(sums, deltas, sorted)
    ensures count == Total(deltas, sorted[..UpTo(sorted, epoch)])
  {
    count := 0;
    var j := 0;
    while j < |sorted|
      invariant 0 <= j <= |sorted|
      invariant count == Total(deltas, sorted[..j])
      invariant forall k :: 0 <= k < j ==> sorted[k] <= epoch
    {
      if sorted[j] > epoch { break; }
      count := sums[sorted[j]];
      j := j + 1;
    }
  }

  /** The net change per epoch; rows with an unknown epoch are skipped. */
  method BuildDeltas(incoming: seq<int>, outgoing: seq<int>) returns (m: map<int, int>)
    ensures IsDelta(m, incoming, outgoing)
  {
    m := map[];
    for i := 0 to |incoming|
      invariant IsDelta(m, incoming[..i], [])
    {
      assert incoming[..i + 1][..i] == incoming[..i];
      if incoming[i] < 0 { continue; }
      m := m[incoming[i] := Get(m, incoming[i]) + 1];
    }
    assert incoming[..|incoming|] == incoming;
    for i := 0 to |outgoing|
      invariant IsDelta(m, incoming, outgoing[..i])
    {
      assert outgoing[..i + 1][..i] == outgoing[..i];
      if outgoing[i] < 0 { continue; }
      m := m[outgoing[i] := Get(m, outgoing[i]) - 1];
    }
    assert outgoing[..|outgoing|] == outgoing;
  }

  ghost predicate IsDelta(m: map<int, int>, incoming: seq<int>, outgoing: seq<int>) {
    && (forall k :: k in m ==> k >= 0)
    && (forall i :: 0 <= i < |incoming| && incoming[i] >= 0 ==> incoming[i] in m)
    && (forall i :: 0 <= i < |outgoing| && outgoing[i] >= 0 ==> outgoing[i] in m)
    && (forall k :: k >= 0 ==> Get(m, k) == Occurrences(incoming, k) - Occurrences(outgoing, k))
  }

  // ----- the running sum over sorted epochs is the net change up to an epoch

  /** Occurrences summed over a list of keys. */
  ghost function TotalOccurrences(s: seq<int>, ks: seq<int>): int {
    if ks == [] then 0 else TotalOccurrences(s, ks[..|ks| - 1]) + Occurrences(s, ks[|ks| - 1])
  }

  lemma {:induction false} TotalOccurrencesStep(s: seq<int>, x: int, ks: seq<int>)
    requires StrictlyAscending(ks)
    ensures TotalOccurrences(s + [x], ks) == TotalOccurrences(s, ks) + Unit(x in ks)
  {
    if ks == [] {
    } else {
      var init, last := ks[..|ks| - 1], ks[|ks| - 1];
      TotalOccurrencesStep(s, x, init);
      assert (s + [x])[..|s|] == s;
      assert x in ks <==> x in init || x == last;
    }
  }

  /** Over distinct keys that include every value of s in 0..hi and nothing else. */
  lemma {:induction false} TotalOccurrencesIsCount(s: seq<int>, ks: seq<int>, hi: int)
    requires StrictlyAscending(ks)
    requires forall i :: 0 <= i < |ks| ==> 0 <= ks[i] <= hi
    requires forall i :: 0 <= i < |s| && 0 <= s[i] <= hi ==> s[i] in ks
    ensures TotalOccurrences(s, ks) == CountIn(s, 0, hi)
  {
    if s == [] {
      NoOccurrences(ks);
    } else {
      var init, last := s[..|s| - 1], s[|s| - 1];
      TotalOccurrencesIsCount(init, ks, hi);
      TotalOccurrencesStep(init, last, ks);
      assert init + [last] == s;
    }
  }

  lemma {:induction false} NoOccurrences(ks: seq<int>)
    ensures TotalOccurrences([], ks) == 0
  {
    if ks == [] {
    } else {
      NoOccurrences(ks[..|ks| - 1]);
    }
  }

  lemma {:induction false} TotalIsDifference(m: map<int, int>, ks: seq<int>, incoming: seq<int>, outgoing: seq<int>)
    requires forall i :: 0 <= i < |ks| ==> ks[i] >= 0
    requires IsDelta(m, incoming, outgoing)
    ensures Total(m, ks) == TotalOccurrences(incoming, ks) - TotalOccurrences(outgoing, ks)
  {
    if ks == [] {
    } else {
      TotalIsDifference(m, ks[..|ks| - 1], incoming, outgoing);
    }
  }

  lemma {:induction false} NetIsCountDifference(log: seq<Change>, drep: DRep, lo: int, hi: int)
    ensures Net(log, drep, lo, hi) == CountIn(EpochsTo(log, drep), lo, hi) - CountIn(EpochsFrom(log, drep), lo, hi)
  {
    if log == [] {
    } else {
      var init, c := log[..|log| - 1], log[|log| - 1];
      NetIsCountDifference(init, drep, lo, hi);
      EpochsStep(init, c, drep, lo, hi);
      assert init + [c] == log;
    }
  }

  lemma EpochsStep(init: seq<Change>, c: Change, drep: DRep, lo: int, hi: int)
    ensures CountIn(EpochsTo(init + [c], drep), lo, hi) ==
            CountIn(EpochsTo(init, drep), lo, hi) + Unit(c.toDrep == drep && lo <= c.epoch <= hi)
    ensures CountIn(EpochsFrom(init + [c], drep), lo, hi) ==
            CountIn(EpochsFrom(init, drep), lo, hi) + Unit(c.fromDrep == drep && lo <= c.epoch <= hi)
  {
    assert (init + [c])[..|init|] == init;
    CountInAppend(EpochsTo(init, drep), c.epoch, lo, hi);
    CountInAppend(EpochsFrom(init, drep), c.epoch, lo, hi);
    assert EpochsTo(init, drep) + [] == EpochsTo(init, drep);
    assert EpochsFrom(init, drep) + [] == EpochsFrom(init, drep);
  }

  lemma CountInAppend(s: seq<int>, x: int, lo: int, hi: int)
    ensures CountIn(s + [x], lo, hi) == CountIn(s, lo, hi) + Unit(lo <= x <= hi)
  {
    assert (s + [x])[..|s|] == s;
  }

  lemma PrefixHas(sorted: seq<int>, j: nat, epoch: int, k: int)
    requires StrictlyAscending(sorted) && j <= |sorted|
    requires j < |sorted| ==> sorted[j] > epoch
    requires k in sorted && k <= epoch
    ensures k in sorted[..j]
  {
    var i :| 0 <= i < |sorted| && sorted[i] == k;
    assert i < j;
    assert sorted[..j][i] == k;
  }

  lemma PrefixIsNet(log: seq<Change>, drep: DRep, m: map<int, int>, sorted: seq<int>, j: nat, epoch: int)
    requires IsDelta(m, EpochsTo(log, drep), EpochsFrom(log, drep))
    requires StrictlyAscending(sorted)
    requires forall i :: 0 <= i < |sorted| ==> sorted[i] in m
    requires forall k :: k in m ==> k in sorted
    requires j <= |sorted|
    requires forall k :: 0 <= k < j ==> sorted[k] <= epoch
    requires j < |sorted| ==> sorted[j] > epoch
    ensures Total(m, sorted[..j]) == Net(log, drep, 0, epoch)
  {
    NetIsCountDifference(log, drep, 0, epoch);
    CountsAgree(m, EpochsTo(log, drep), EpochsFrom(log, drep), sorted, j, epoch);
  }

  lemma LatestIsNet(log: seq<Change>, drep: DRep, m: map<int, int>, sorted: seq<int>, epoch: int)
    requires IsDelta(m, EpochsTo(log, drep), EpochsFrom(log, drep))
    requires StrictlyAscending(sorted)
    requires forall i :: 0 <= i < |sorted| ==> sorted[i] in m
    requires forall k :: k in m ==> k in sorted
    ensures Total(m, sorted[..UpTo(sorted, epoch)]) == Net(log, drep, 0, epoch)
  {
    PrefixIsNet(log, drep, m, sorted, UpTo(sorted, epoch), epoch);
  }

  lemma CountsAgree(m: map<int, int>, incoming: seq<int>, outgoing: seq<int>, sorted: seq<int>, j: nat, epoch: int)
    requires IsDelta(m, incoming, outgoing)
    requires StrictlyAscending(sorted)
    requires forall i :: 0 <= i < |sorted| ==> sorted[i] in m
    requires forall k :: k in m ==> k in sorted
    requires j <= |sorted|
    requires forall k :: 0 <= k < j ==> sorted[k] <= epoch
    requires j < |sorted| ==> sorted[j] > epoch
    ensures Total(m, sorted[..j]) == CountIn(incoming, 0, epoch) - CountIn(outgoing, 0, epoch)
  {
    var ks := sorted[..j];
    forall i | 0 <= i < |incoming| && 0 <= incoming[i] <= epoch
      ensures incoming[i] in ks
    {
      PrefixHas(sorted, j, epoch, incoming[i]);
    }
    forall i | 0 <= i < |outgoing| && 0 <= outgoing[i] <= epoch
      ensures outgoing[i] in ks
    {
      PrefixHas(sorted, j, epoch, outgoing[i]);
    }
    TotalIsDifference(m, ks, incoming, outgoing);
    TotalOccurrencesIsCount(incoming, ks, epoch);
    TotalOccurrencesIsCount(outgoing, ks, epoch);
  }

  // ----- the meaning: a step-by-step replay

  /** Who is delegated where; an address without a DRep is absent. */
  type Delegations = map<Stake, DRep>

  ghost function Where(d: Delegations, stake: Stake): DRep {
    if stake in d then d[stake] else NO_DREP
  }

  ghost function Apply(d: Delegations, c: Change): Delegations {
    if c.toDrep == NO_DREP then d - {c.stake} else d[c.stake := c.toDrep]
  }

  ghost function ReplayAll(log: seq<Change>): Delegations {
    if log == [] then map[] else Apply(ReplayAll(log[..|log| - 1]), log[|log| - 1])
  }

  /** The delegations that the rows up to an epoch leave behind. */
  ghost function Replay(log: seq<Change>, epoch: int): Delegations {
    if log == [] then map[]
    else
      var c := log[|log| - 1];
      var before := Replay(log[..|log| - 1], epoch);
      if c.epoch <= epoch then Apply(before, c) else before
  }

  ghost function Delegators(d: Delegations, drep: DRep): set<Stake> {
    set s | s in d && d[s] == drep
  }

  /** Each row starts where the previous row of its address ended. */
  ghost predicate Chained(log: seq<Change>) {
    log != [] ==>
      var init, c := log[..|log| - 1], log[|log| - 1];
      Chained(init) && c.fromDrep == Where(ReplayAll(init), c.stake)
  }

  // ----- the rows up to an epoch, in log order

  /** The delegations that the kept rows leave behind; rows are kept by their position. */
  ghost function ReplayKept(log: seq<Change>, kept: set<nat>): Delegations {
    if log == [] then map[]
    else
      var before := ReplayKept(log[..|log| - 1], kept);
      if |log| - 1 in kept then Apply(before, log[|log| - 1]) else before
  }

  /** A cut of the log at an epoch. It keeps a row of known epoch exactly if the epoch has been
      reached, and with a row every earlier row of the same address. Rows of unknown epoch fall
      where their position in the log puts them. */
  ghost predicate IsCut(log: seq<Change>, kept: set<nat>, epoch: int) {
    && (forall i: nat :: i < |log| && log[i].epoch >= 0 ==> (i in kept <==> log[i].epoch <= epoch))
    && (forall i: nat, j: nat :: i < j < |log| && log[i].stake == log[j].stake && j in kept ==> i in kept)
  }

  /** The known epochs of one address never go back. */
  ghost predicate EpochsInOrder(log: seq<Change>) {
    forall i, j :: 0 <= i < j < |log| && log[i].stake == log[j].stake && log[i].epoch >= 0 && log[j].epoch >= 0
                   ==> log[i].epoch <= log[j].epoch
  }

  /** Keeps as few rows of unknown epoch as possible. */
  ghost function LeastCut(log: seq<Change>, epoch: int): set<nat> {
    set i: nat | i < |log| && ReachedAt(log, i, epoch)
  }

  /** This row or a later one of its address is known to have happened by the epoch. */
  ghost predicate ReachedAt(log: seq<Change>, i: nat, epoch: int)
    requires i < |log|
  {
    exists j :: i <= j < |log| && log[j].stake == log[i].stake && 0 <= log[j].epoch <= epoch
  }

  ghost predicate CanBeCut(log: seq<Change>, epoch: int) {
    exists kept :: IsCut(log, kept, epoch)
  }

  lemma NoCutBetween(log: seq<Change>, i: nat, j: nat)
    requires i < j < |log| && log[i].stake == log[j].stake && log[i].epoch > log[j].epoch >= 0
    ensures !CanBeCut(log, log[j].epoch)
  {
    forall kept
      ensures !IsCut(log, kept, log[j].epoch)
    {
      CutKeepsOrder(log, kept, i, j);
    }
  }

  lemma CutKeepsOrder(log: seq<Change>, kept: set<nat>, i: nat, j: nat)
    requires i < j < |log| && log[i].stake == log[j].stake && log[i].epoch >= 0 && log[j].epoch >= 0
    ensures IsCut(log, kept, log[j].epoch) ==> log[i].epoch <= log[j].epoch
  {
    if IsCut(log, kept, log[j].epoch) {
      assert j in kept;
      assert i in kept;
    }
  }

  lemma ReachedIff(log: seq<Change>, i: nat, epoch: int)
    requires EpochsInOrder(log) && i < |log| && log[i].epoch >= 0
    ensures ReachedAt(log, i, epoch) <==> log[i].epoch <= epoch
  {
  }

  lemma ReachedBefore(log: seq<Change>, i: nat, j: nat, epoch: int)
    requires i < j < |log| && log[i].stake == log[j].stake && ReachedAt(log, j, epoch)
    ensures ReachedAt(log, i, epoch)
  {
  }

  lemma LeastCutIsCut(log: seq<Change>, epoch: int)
    requires EpochsInOrder(log) && epoch >= 0
    ensures IsCut(log, LeastCut(log, epoch), epoch)
  {
    var kept := LeastCut(log, epoch);
    assert forall i: nat :: i in kept <==> i < |log| && ReachedAt(log, i, epoch);
    forall i: nat | i < |log| && log[i].epoch >= 0
      ensures i in kept <==> log[i].epoch <= epoch
    {
      ReachedIff(log, i, epoch);
    }
    hide ReachedAt, EpochsInOrder;
    forall i: nat, j: nat | i < j < |log| && log[i].stake == log[j].stake && j in kept
      ensures i in kept
    {
      ReachedBefore(log, i, j, epoch);
    }
  }

  /** A log can be cut at every epoch if and only if known epochs never go back. */
  lemma CutsExistIff(log: seq<Change>)
    ensures EpochsInOrder(log) <==> forall epoch :: epoch >= 0 ==> CanBeCut(log, epoch)
  {
    if EpochsInOrder(log) {
      forall epoch | epoch >= 0
        ensures CanBeCut(log, epoch)
      {
        LeastCutIsCut(log, epoch);
      }
    } else {
      var i, j :| 0 <= i < j < |log| && log[i].stake == log[j].stake && log[i].epoch > log[j].epoch >= 0;
      NoCutBetween(log, i, j);
    }
  }

  /** Arrivals minus departures of a DRep over the kept rows. */
  ghost function NetKept(log: seq<Change>, kept: set<nat>, drep: DRep): int {
    if log == [] then 0
    else
      var c := log[|log| - 1];
      NetKept(log[..|log| - 1], kept, drep) +
        if |log| - 1 in kept then Unit(c.toDrep == drep) - Unit(c.fromDrep == drep) else 0
  }

  /** The part of it that rows of unknown epoch make up, and that the script skips. */
  ghost function Skipped(log: seq<Change>, kept: set<nat>, drep: DRep): int {
    if log == [] then 0
    else
      var c := log[|log| - 1];
      Skipped(log[..|log| - 1], kept, drep) +
      if |log| - 1 in kept && c.epoch < 0 then Unit(c.toDrep == drep) - Unit(c.fromDrep == drep) else 0
  }

  lemma CutOfPrefix(log: seq<Change>, kept: set<nat>, epoch: int)
    requires log != [] && IsCut(log, kept, epoch)
    ensures IsCut(log[..|log| - 1], kept, epoch)
  {
    var init := log[..|log| - 1];
    assert forall i :: 0 <= i < |init| ==> init[i] == log[i];
  }

  lemma {:induction false} KeptAgrees(log: seq<Change>, kept: set<nat>, stake: Stake)
    requires forall i: nat :: i < |log| && log[i].stake == stake ==> i in kept
    ensures Where(ReplayKept(log, kept), stake) == Where(ReplayAll(log), stake)
  {
    if log == [] {
    } else {
      KeptAgrees(log[..|log| - 1], kept, stake);
    }
  }

  lemma ApplyCounts(d: Delegations, c: Change, drep: DRep)
    requires drep != NO_DREP
    ensures |Delegators(Apply(d, c), drep)| ==
            |Delegators(d, drep)| + Unit(c.toDrep == drep) - Unit(Where(d, c.stake) == drep)
  {
    var before, after := Delegators(d, drep), Delegators(Apply(d, c), drep);
    if c.toDrep == drep {
      assert after == before + {c.stake};
    } else {
      assert after == before - {c.stake};
    }
  }

  /** The delegators that a cut leaves on a DRep are its arrivals minus its departures there. */
  lemma {:induction false} ReplayIsNet(log: seq<Change>, kept: set<nat>, drep: DRep, epoch: int)
    requires Chained(log) && IsCut(log, kept, epoch) && drep != NO_DREP
    ensures |Delegators(ReplayKept(log, kept), drep)| == NetKept(log, kept, drep)
  {
    if log == [] {
    } else {
      var init, c := log[..|log| - 1], log[|log| - 1];
      CutOfPrefix(log, kept, epoch);
      ReplayIsNet(init, kept, drep, epoch);
      if |log| - 1 in kept {
        assert forall i: nat :: i < |init| ==> init[i] == log[i];
        KeptAgrees(init, kept, c.stake);
        ApplyCounts(ReplayKept(init, kept), c, drep);
      }
    }
  }

  /** What the script adds up is that, less the rows it skips. */
  lemma {:induction false} NetWithoutSkipped(log: seq<Change>, kept: set<nat>, drep: DRep, epoch: int)
    requires IsCut(log, kept, epoch)
    ensures Net(log, drep, 0, epoch) == NetKept(log, kept, drep) - Skipped(log, kept, drep)
  {
    if log == [] {
    } else {
      CutOfPrefix(log, kept, epoch);
      NetWithoutSkipped(log[..|log| - 1], kept, drep, epoch);
    }
  }

  /** On a chained log, cut anywhere, the stored count is the number of delegators if and only
      if the skipped rows brought the DRep as many as they took, or they brought more and
      nobody is on the DRep. */
  lemma StoredCountIsExact(log: seq<Change>, kept: set<nat>, drep: DRep, epoch: int)
    requires Chained(log) && IsCut(log, kept, epoch) && drep != NO_DREP
    ensures var skipped, delegators := Skipped(log, kept, drep), Delegators(ReplayKept(log, kept), drep);
            && Net(log, drep, 0, epoch) == |delegators| - skipped
            && (StoredCount(log, drep, epoch) == |delegators| <==> skipped == 0 || (skipped > 0 && delegators == {}))
  {
    ReplayIsNet(log, kept, drep, epoch);
    NetWithoutSkipped(log, kept, drep, epoch);
  }

  lemma {:induction false} KeptIsAll(log: seq<Change>, kept: set<nat>)
    requires forall i: nat :: i < |log| ==> i in kept
    ensures ReplayKept(log, kept) == ReplayAll(log)
  {
    if log == [] {
    } else {
      KeptIsAll(log[..|log| - 1], kept);
    }
  }

  /** The same for the present, where no row is later than the epoch and all are kept. */
  lemma PresentCountIsExact(log: seq<Change>, kept: set<nat>, drep: DRep, epoch: int)
    requires Chained(log) && drep != NO_DREP
    requires forall i: nat :: i < |log| ==> i in kept && log[i].epoch <= epoch
    ensures var skipped, delegators := Skipped(log, kept, drep), Delegators(ReplayAll(log), drep);
            StoredCount(log, drep, epoch) == |delegators| <==> skipped == 0 || (skipped > 0 && delegators == {})
  {
    StoredCountIsExact(log, kept, drep, epoch);
    KeptIsAll(log, kept);
  }

  /** The delegation sync leaves the epoch open exactly on the rows that end a delegation. */
  ghost predicate OnlyEndingsAreUnknown(log: seq<Change>) {
    forall i :: 0 <= i < |log| ==> (log[i].epoch < 0 <==> log[i].toDrep == NO_DREP)
  }

  /** How many kept rows end a delegation to a DRep. */
  ghost function Endings(log: seq<Change>, kept: set<nat>, drep: DRep): nat {
    if log == [] then 0
    else
      var c := log[|log| - 1];
      Endings(log[..|log| - 1], kept, drep) +
        if |log| - 1 in kept && c.fromDrep == drep && c.toDrep == NO_DREP then 1 else 0
  }

  lemma {:induction false} SkippedEndings(log: seq<Change>, kept: set<nat>, drep: DRep)
    requires OnlyEndingsAreUnknown(log) && drep != NO_DREP
    ensures Skipped(log, kept, drep) + Endings(log, kept, drep) == 0
  {
    if log == [] {
    } else {
      assert forall i :: 0 <= i < |log| - 1 ==> log[..|log| - 1][i] == log[i];
      SkippedEndings(log[..|log| - 1], kept, drep);
    }
  }

  /** On such a log the stored count is too high by one for every delegation to the DRep that
      has ended without a successor. */
  lemma EndingsAreOvercounted(log: seq<Change>, kept: set<nat>, drep: DRep, epoch: int)
    requires Chained(log) && IsCut(log, kept, epoch) && OnlyEndingsAreUnknown(log) && drep != NO_DREP
    ensures StoredCount(log, drep, epoch) == |Delegators(ReplayKept(log, kept), drep)| + Endings(log, kept, drep)
  {
    SkippedEndings(log, kept, drep);
    StoredCountIsExact(log, kept, drep, epoch);
  }

  /** An address that came in epoch 5 and has left since is still counted in epoch 10. */
  lemma EndingIsMissed()
    ensures var log := [Change("s", "", "d", 5), Change("s", "d", "", -1)];
            && Chained(log) && EpochsInOrder(log) && OnlyEndingsAreUnknown(log)
            && Delegators(ReplayAll(log), "d") == {}
            && StoredCount(log, "d", 10) == 1
  {
    var a, b := Change("s", "", "d", 5), Change("s", "d", "", -1);
    var log := [a, b];
    assert log[..1] == [a] && [a][..0] == [];
    assert ReplayAll([]) == map[];
    assert ReplayAll([a]) == map["s" := "d"];
    assert ReplayAll(log) == map[];
    assert Chained([]) && Chained([a]);
    assert Net([], "d", 0, 10) == 0;
    assert Net([a], "d", 0, 10) == 1;
    assert Net(log, "d", 0, 10) == 1;
  }

  // ----- logs without rows of unknown epoch

  lemma {:induction false} ReplayIsKept(log: seq<Change>, kept: set<nat>, epoch: int)
    requires forall i: nat :: i < |log| ==> (i in kept <==> log[i].epoch <= epoch)
    ensures Replay(log, epoch) == ReplayKept(log, kept)
  {
    if log == [] {
    } else {
      var init := log[..|log| - 1];
      assert forall i: nat :: i < |init| ==> init[i] == log[i];
      ReplayIsKept(init, kept, epoch);
    }
  }

  lemma {:induction false} NothingSkipped(log: seq<Change>, kept: set<nat>, drep: DRep)
    requires forall i :: 0 <= i < |log| ==> log[i].epoch >= 0
    ensures Skipped(log, kept, drep) == 0
  {
    if log == [] {
    } else {
      NothingSkipped(log[..|log| - 1], kept, drep);
    }
  }

  /** Without rows of unknown epoch every count is exact and the clamp at 0 never fires. */
  lemma KnownEpochsAreExact(log: seq<Change>, drep: DRep, epoch: int)
    requires Chained(log) && EpochsInOrder(log)
    requires forall i :: 0 <= i < |log| ==> log[i].epoch >= 0
    requires drep != NO_DREP && epoch >= 0
    ensures StoredCount(log, drep, epoch) == Net(log, drep, 0, epoch) == |Delegators(Replay(log, epoch), drep)|
  {
    var kept := set i: nat | i < |log| && log[i].epoch <= epoch;
    ReplayIsKept(log, kept, epoch);
    NothingSkipped(log, kept, drep);
    StoredCountIsExact(log, kept, drep, epoch);
  }

  // ----- conservation over all DReps

  ghost function SumOfCounts(log: seq<Change>, dreps: seq<DRep>, epoch: int): int {
    if dreps == [] then 0
    else SumOfCounts(log, dreps[..|dreps| - 1], epoch) + StoredCount(log, dreps[|dreps| - 1], epoch)
  }

  ghost predicate Distinct(dreps: seq<DRep>) {
    forall i, j :: 0 <= i < j < |dreps| ==> dreps[i] != dreps[j]
  }

  lemma {:induction false} SumIsDelegatedTo(log: seq<Change>, dreps: seq<DRep>, epoch: int)
    requires Chained(log) && EpochsInOrder(log)
    requires forall i :: 0 <= i < |log| ==> log[i].epoch >= 0
    requires Distinct(dreps) && NO_DREP !in dreps && epoch >= 0
    ensures SumOfCounts(log, dreps, epoch) ==
            |set s | s in Replay(log, epoch) && Replay(log, epoch)[s] in dreps|
  {
    var d := Replay(log, epoch);
    var on := set s | s in d && d[s] in dreps;
    if dreps == [] {
      assert on == {};
    } else {
      var init, last := dreps[..|dreps| - 1], dreps[|dreps| - 1];
      SumIsDelegatedTo(log, init, epoch);
      KnownEpochsAreExact(log, last, epoch);
      var onInit := set s | s in d && d[s] in init;
      assert last !in init;
      assert forall x :: x in dreps <==> x in init || x == last;
      assert on == onInit + Delegators(d, last);
      assert onInit !! Delegators(d, last);
    }
  }

  /** The counts of all DReps add up to the number of delegated addresses. */
  lemma CountsAddUp(log: seq<Change>, dreps: seq<DRep>, epoch: int)
    requires Chained(log) && EpochsInOrder(log)
    requires forall i :: 0 <= i < |log| ==> log[i].epoch >= 0
    requires Distinct(dreps) && NO_DREP !in dreps && epoch >= 0
    requires forall i :: 0 <= i < |log| && log[i].toDrep != NO_DREP ==> log[i].toDrep in dreps
    ensures SumOfCounts(log, dreps, epoch) == |Replay(log, epoch)|
  {
    SumIsDelegatedTo(log, dreps, epoch);
    ReplayValues(log, dreps, epoch);
    var d := Replay(log, epoch);
    assert (set s | s in d && d[s] in dreps) == d.Keys;
  }

  lemma {:induction false} ReplayValues(log: seq<Change>, dreps: seq<DRep>, epoch: int)
    requires forall i :: 0 <= i < |log| && log[i].toDrep != NO_DREP ==> log[i].toDrep in dreps
    ensures forall s :: s in Replay(log, epoch) ==> Replay(log, epoch)[s] in dreps
  {
    if log == [] {
    } else {
      ReplayValues(log[..|log| - 1], dreps, epoch);
    }
  }
}
