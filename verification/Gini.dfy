/** The Gini coefficient of voting power: `calculateGini` in src/controllers/analytics/getGiniCoefficient.ts.

    The code sorts the values and combines a plain and a rank-weighted sum. What it
    is meant to measure is the mean absolute difference, `PairDiff` below, which
    needs neither the order nor the ranks. */
module Gini {
  import opened Common
  import opened Arithmetic

  function Sum(s: seq<int>): int {
    if s == [] then 0 else Sum(s[..|s| - 1]) + s[|s| - 1]
  }

  /** The rank-weighted sum 1*s[0] + 2*s[1] + ... */
  function WeightedSum(s: seq<int>): int {
    if s == [] then 0 else WeightedSum(s[..|s| - 1]) + |s| * s[|s| - 1]
  }

  /** The total distance from x to the elements of s. */
  function DistanceTo(s: seq<int>, x: int): int {
    if s == [] then 0 else DistanceTo(s[..|s| - 1], x) + Abs(s[|s| - 1] - x)
  }

  /** The sum of |s[i] - s[j]| over all unordered pairs of positions. */
  function PairDiff(s: seq<int>): int {
    if s == [] then 0 else PairDiff(s[..|s| - 1]) + DistanceTo(s[..|s| - 1], s[|s| - 1])
  }

  ghost predicate Ascending(s: seq<int>) {
    forall i, j :: 0 <= i < j < |s| ==> s[i] <= s[j]
  }

  ghost predicate NonNegative(s: seq<int>) {
    forall i :: 0 <= i < |s| ==> 0 <= s[i]
  }

  // ----- sorting

  ghost predicate NoneAbove(s: seq<int>, x: int) {
    forall i :: 0 <= i < |s| ==> s[i] <= x
  }

  lemma StillNoneAbove(r: seq<int>, s: seq<int>, x: int, last: int)
    requires multiset(r) == multiset(s) + multiset{x} && NoneAbove(s, last) && x <= last
    ensures NoneAbove(r, last)
  {
    forall i | 0 <= i < |r|
      ensures r[i] <= last
    {
      assert r[i] in multiset(r);
      assert r[i] == x || r[i] in s;
    }
  }

  lemma AppendBag(s: seq<int>, x: int)
    ensures multiset(s + [x]) == multiset(s) + multiset{x}
  {
  }

  function Insert(s: seq<int>, x: int): (r: seq<int>)
    requires Ascending(s)
    ensures Ascending(r) && multiset(r) == multiset(s) + multiset{x}
  {
    if s == [] || s[|s| - 1] <= x then s + [x]
    else
      var init, last := s[..|s| - 1], s[|s| - 1];
      var r := Insert(init, x);
      StillNoneAbove(r, init, x, last);
      AppendBag(init, last);
      assert s == init + [last];
      AppendBag(r, last);
      r + [last]
  }

  function Sorted(s: seq<int>): (r: seq<int>)
    ensures Ascending(r) && multiset(r) == multiset(s)
  {
    if s == [] then []
    else
      AppendBag(s[..|s| - 1], s[|s| - 1]);
      assert s == s[..|s| - 1] + [s[|s| - 1]];
      Insert(Sorted(s[..|s| - 1]), s[|s| - 1])
  }

  // ----- the pairwise sum does not depend on the order

  lemma Append(s: seq<int>, x: int, y: int)
    ensures DistanceTo(s + [x], y) == DistanceTo(s, y) + Abs(x - y)
    ensures PairDiff(s + [x]) == PairDiff(s) + DistanceTo(s, x)
    ensures Sum(s + [x]) == Sum(s) + x
  {
    assert (s + [x])[..|s|] == s;
  }

  lemma {:induction false} DistanceRemove(s: seq<int>, i: nat, x: int)
    requires i < |s|
    ensures DistanceTo(s, x) == DistanceTo(Remove(s, i), x) + Abs(s[i] - x)
  {
    hide Remove, Abs;
    var init, last := s[..|s| - 1], s[|s| - 1];
    assert s == init + [last];
    RemoveSnoc(init, last, i);
    if i < |init| {
      DistanceRemove(init, i, x);
      Append(Remove(init, i), last, x);
    }
  }

  lemma {:induction false} PairDiffRemove(s: seq<int>, i: nat)
    requires i < |s|
    ensures PairDiff(s) == PairDiff(Remove(s, i)) + DistanceTo(Remove(s, i), s[i])
  {
    hide Remove;
    var init, last := s[..|s| - 1], s[|s| - 1];
    assert s == init + [last];
    RemoveSnoc(init, last, i);
    if i < |init| {
      PairDiffRemove(init, i);
      DistanceRemove(init, i, last);
      Append(Remove(init, i), last, s[i]);
    }
  }

  lemma {:induction false} SumRemove(s: seq<int>, i: nat)
    requires i < |s|
    ensures Sum(s) == Sum(Remove(s, i)) + s[i]
  {
    hide Remove;
    var init, last := s[..|s| - 1], s[|s| - 1];
    assert s == init + [last];
    RemoveSnoc(init, last, i);
    if i < |init| {
      SumRemove(init, i);
      Append(Remove(init, i), last, 0);
    }
  }

  lemma {:induction false} SameMultisetSameDistance(s: seq<int>, t: seq<int>, x: int)
    requires multiset(s) == multiset(t)
    ensures DistanceTo(s, x) == DistanceTo(t, x)
  {
    if s == [] {
      assert |t| == |multiset(t)| == 0;
    } else {
      var i := IndexIn(s, t);
      RemoveMultiset(s, |s| - 1);
      RemoveMultiset(t, i);
      SameMultisetSameDistance(Remove(s, |s| - 1), Remove(t, i), x);
      DistanceRemove(s, |s| - 1, x);
      DistanceRemove(t, i, x);
    }
  }

  /** Where the last element of s occurs in a rearrangement of s. */
  lemma IndexIn(s: seq<int>, t: seq<int>) returns (i: nat)
    requires s != [] && multiset(s) == multiset(t)
    ensures i < |t| && t[i] == s[|s| - 1]
  {
    assert s[|s| - 1] in multiset(s);
    assert s[|s| - 1] in t;
    i :| i < |t| && t[i] == s[|s| - 1];
  }

  lemma {:induction false} PairDiffPermutation(s: seq<int>, t: seq<int>)
    requires multiset(s) == multiset(t)
    ensures PairDiff(s) == PairDiff(t) && Sum(s) == Sum(t) && |s| == |t|
  {
    if s == [] {
      assert |t| == |multiset(t)| == 0;
    } else {
      var i := IndexIn(s, t);
      var l := |s| - 1;
      RemoveMultiset(s, l);
      RemoveMultiset(t, i);
      PairDiffPermutation(Remove(s, l), Remove(t, i));
      SameMultisetSameDistance(Remove(s, l), Remove(t, i), s[l]);
      PairDiffRemove(s, l);
      PairDiffRemove(t, i);
      SumRemove(s, l);
      SumRemove(t, i);
    }
  }

  // ----- the sorted, weighted form computes the pairwise sum

  lemma {:induction false} DistanceFromAbove(s: seq<int>, x: int)
    requires forall i :: 0 <= i < |s| ==> s[i] <= x
    ensures DistanceTo(s, x) == |s| * x - Sum(s)
  {
    if s == [] {
    } else {
      DistanceFromAbove(s[..|s| - 1], x);
      assert (|s| - 1) * x + x == |s| * x;
    }
  }

  /** For ascending values, the code's numerator is the sum of all pairwise differences. */
  lemma {:induction false} NumeratorIsPairDiff(s: seq<int>)
    requires Ascending(s)
    ensures 2 * WeightedSum(s) - (|s| + 1) * Sum(s) == PairDiff(s)
  {
    if s == [] {
    } else {
      var init, last := s[..|s| - 1], s[|s| - 1];
      NumeratorIsPairDiff(init);
      DistanceFromAbove(init, last);
      RankStep(|s|, Sum(init), last);
    }
  }

  lemma RankStep(n: int, sum: int, last: int)
    ensures 2 * (n * last) - (n + 1) * (sum + last) == (n - 1) * last - sum - n * sum
  {
  }

  // ----- bounds

  lemma {:induction false} DistanceBounds(s: seq<int>, x: int)
    requires NonNegative(s) && 0 <= x
    ensures 0 <= DistanceTo(s, x) <= Sum(s) + |s| * x
    ensures 0 <= Sum(s)
  {
    if s == [] {
    } else {
      DistanceBounds(s[..|s| - 1], x);
      assert (|s| - 1) * x + x == |s| * x;
    }
  }

  lemma {:induction false} PairDiffBounds(s: seq<int>)
    requires NonNegative(s) && s != []
    ensures 0 <= PairDiff(s) <= (|s| - 1) * Sum(s)
    ensures 0 <= Sum(s)
  {
    var init, last := s[..|s| - 1], s[|s| - 1];
    DistanceBounds(init, last);
    if init == [] {
    } else {
      PairDiffBounds(init);
      BoundStep(|s|, Sum(init), last);
    }
  }

  lemma BoundStep(n: int, sum: int, last: int)
    ensures (n - 1) * (sum + last) == (n - 2) * sum + sum + (n - 1) * last
  {
  }

  // ----- the coefficient

  function Clamp01(g: real): real {
    if g < 0.0 then 0.0 else if g > 1.0 then 1.0 else g
  }

  /** What the coefficient means: the mean absolute difference over twice the mean,
      cut to four decimals. No order and no rank appears here. */
  function MeanDifferenceGini(values: seq<int>): real {
    if |values| <= 1 || Sum(values) == 0 then 0.0
    else TruncDiv(PairDiff(values) * 10000, |values| * Sum(values)) as real / 10000.0
  }

  method SumUp(sorted: seq<int>) returns (sum: int, weightedSum: int)
    ensures sum == Sum(sorted) && weightedSum == WeightedSum(sorted)
  {
    sum, weightedSum := 0, 0;
    for i := 0 to |sorted|
      invariant sum == Sum(sorted[..i]) && weightedSum == WeightedSum(sorted[..i])
    {
      assert sorted[..i + 1][..i] == sorted[..i];
      sum := sum + sorted[i];
      weightedSum := weightedSum + (i + 1) * sorted[i];
    }
    assert sorted[..|sorted|] == sorted;
  }

  method CalculateGini(values: seq<int>) returns (gini: real)
    ensures gini == Clamp01(MeanDifferenceGini(values))
  {
    if |values| == 0 { return 0.0; }
    if |values| == 1 { return 0.0; }
    var sorted := Sorted(values);
    var n := |sorted|;
    PairDiffPermutation(sorted, values);
    var sum, weightedSum := SumUp(sorted);
    if sum == 0 { return 0.0; }
    var numerator := 2 * weightedSum - (n + 1) * sum;
    var denominator := n * sum;
    NumeratorIsPairDiff(sorted);
    hide Clamp01, PairDiff, TruncDiv, WeightedSum, Sum, Sorted;
    gini := TruncDiv(numerator * 10000, denominator) as real / 10000.0;
    gini := Clamp01(gini);
  }

  /** For voting powers, which are not negative, the final clamp changes nothing and the
      coefficient never exceeds (n-1)/n. */
  lemma ClampIsNoOp(values: seq<int>)
    requires NonNegative(values)
    ensures Clamp01(MeanDifferenceGini(values)) == MeanDifferenceGini(values)
    ensures 0.0 <= MeanDifferenceGini(values) <= 1.0
    ensures values != [] ==> MeanDifferenceGini(values) * (|values| as real) <= (|values| - 1) as real
  {
    if |values| > 1 && Sum(values) != 0 {
      PairDiffBounds(values);
      QuotientBound(PairDiff(values), |values|, Sum(values));
    }
  }

  lemma QuotientBound(p: int, n: int, sum: int)
    requires n > 1 && sum > 0 && 0 <= p <= (n - 1) * sum
    ensures n * sum > 0 && 0 <= (p * 10000) / (n * sum) <= 10000
    ensures ((p * 10000) / (n * sum)) * n <= 10000 * (n - 1)
  {
    MulLe(1, n, sum);
    var q := (p * 10000) / (n * sum);
    DivFloor(p * 10000, n * sum);
    Regroup(q, n, sum);
    Regroup(10000, n - 1, sum);
    MulLtCancel(q * n, 10000 * (n - 1), sum);
    MulLtCancel(q, 10000, n);
  }

  lemma DivFloor(a: int, d: int)
    requires a >= 0 && d > 0
    ensures 0 <= a / d && (a / d) * d <= a
  {
  }

  lemma Regroup(a: int, b: int, c: int)
    ensures a * (b * c) == (a * b) * c
  {
  }

  lemma GiniPermutation(s: seq<int>, t: seq<int>)
    requires multiset(s) == multiset(t)
    ensures MeanDifferenceGini(s) == MeanDifferenceGini(t)
  {
    PairDiffPermutation(s, t);
  }

  function Scaled(s: seq<int>, k: int): seq<int> {
    seq(|s|, i requires 0 <= i < |s| => k * s[i])
  }

  lemma {:induction false} ScaledSum(s: seq<int>, k: int)
    ensures Sum(Scaled(s, k)) == k * Sum(s)
  {
    if s == [] {
    } else {
      ScaledSum(s[..|s| - 1], k);
      assert Scaled(s, k)[..|s| - 1] == Scaled(s[..|s| - 1], k);
    }
  }

  lemma {:induction false} ScaledDistance(s: seq<int>, k: int, x: int)
    requires k > 0
    ensures DistanceTo(Scaled(s, k), k * x) == k * DistanceTo(s, x)
  {
    if s == [] {
    } else {
      var init, last := s[..|s| - 1], s[|s| - 1];
      ScaledDistance(init, k, x);
      assert Scaled(s, k)[..|s| - 1] == Scaled(init, k);
      AbsScale(k, last, x);
      Distribute(k, DistanceTo(init, x), Abs(last - x));
    }
  }

  lemma Distribute(k: int, a: int, b: int)
    ensures k * (a + b) == k * a + k * b
  {
  }

  lemma {:induction false} ScaledPairDiff(s: seq<int>, k: int)
    requires k > 0
    ensures PairDiff(Scaled(s, k)) == k * PairDiff(s)
  {
    if s == [] {
    } else {
      var init, last := s[..|s| - 1], s[|s| - 1];
      ScaledPairDiff(init, k);
      ScaledDistance(init, k, last);
      assert Scaled(s, k)[..|s| - 1] == Scaled(init, k);
      assert k * (PairDiff(init) + DistanceTo(init, last)) == k * PairDiff(init) + k * DistanceTo(init, last);
    }
  }

  lemma AbsScale(k: int, a: int, b: int)
    requires k > 0
    ensures Abs(k * a - k * b) == k * Abs(a - b)
  {
    var d := a - b;
    assert k * a - k * b == k * d;
    MulLe(d, 0, k);
    MulLe(0, d, k);
  }

  /** Measuring power in another unit changes nothing. */
  lemma GiniScaling(values: seq<int>, k: int)
    requires NonNegative(values) && k > 0
    ensures MeanDifferenceGini(Scaled(values, k)) == MeanDifferenceGini(values)
  {
    ScaledSum(values, k);
    ScaledPairDiff(values, k);
    var n, p, sum := |values|, PairDiff(values), Sum(values);
    if n > 1 {
      PairDiffBounds(values);
      MulLe(0, sum - 1, k);
      if sum != 0 {
        ScaledQuotient(n, p, sum, k);
      }
    }
  }

  lemma ScaledQuotient(n: int, p: int, sum: int, k: int)
    requires n > 1 && p >= 0 && sum > 0 && k > 0
    ensures k * sum > 0 && n * (k * sum) > 0 && n * sum > 0 && k * p >= 0
    ensures ((k * p) * 10000) / (n * (k * sum)) == (p * 10000) / (n * sum)
  {
    var d := n * sum;
    assert d > 0;
    assert n * (k * sum) == k * d;
    assert (k * p) * 10000 == k * (p * 10000);
    DivCancel(k, p * 10000, d);
  }

  /** Moves t from the holder at position hi to the one at lo. */
  function Transfer(s: seq<int>, hi: nat, lo: nat, t: int): seq<int>
    requires hi < |s| && lo < |s| && hi != lo
  {
    s[hi := s[hi] - t][lo := s[lo] + t]
  }

  lemma {:induction false} DistanceTransfer(rest: seq<int>, a: int, b: int, t: int)
    requires 0 <= t <= a - b
    ensures DistanceTo(rest, a - t) + DistanceTo(rest, b + t) <= DistanceTo(rest, a) + DistanceTo(rest, b)
  {
    if rest == [] {
    } else {
      DistanceTransfer(rest[..|rest| - 1], a, b, t);
    }
  }

  /** What two holders with a and b add to the pairwise sum of the others. */
  function PairCost(rest: seq<int>, a: int, b: int): int {
    DistanceTo(rest, a) + DistanceTo(rest, b) + Abs(a - b)
  }

  lemma TransferLowersPairCost(rest: seq<int>, a: int, b: int, t: int)
    requires 0 <= t <= a - b
    ensures PairCost(rest, a - t, b + t) <= PairCost(rest, a, b)
    ensures PairCost(rest, b + t, a - t) <= PairCost(rest, b, a)
  {
    DistanceTransfer(rest, a, b, t);
  }

  /** The pairwise sum with two positions taken out. */
  lemma PairDiffTakeTwo(s: seq<int>, i: nat, j: nat, rest: seq<int>)
    requires i < j < |s| && rest == Remove(Remove(s, j), i)
    ensures PairDiff(s) == PairDiff(rest) + PairCost(rest, s[i], s[j])
    ensures Sum(s) == Sum(rest) + s[i] + s[j]
  {
    var one := Remove(s, j);
    PairDiffRemove(s, j);
    SumRemove(s, j);
    PairDiffRemove(one, i);
    SumRemove(one, i);
    DistanceRemove(one, i, s[j]);
  }

  lemma RestUnchanged(s: seq<int>, s': seq<int>, i: nat, j: nat)
    requires i < j < |s| == |s'|
    requires forall k :: 0 <= k < |s| && k != i && k != j ==> s'[k] == s[k]
    ensures Remove(Remove(s', j), i) == Remove(Remove(s, j), i)
  {
    assert Remove(s, j)[..i] == Remove(s', j)[..i];
    assert Remove(s, j)[i + 1..] == Remove(s', j)[i + 1..];
  }

  /** Two sequences that differ at i and j only, with those positions taken out. */
  lemma CommonRest(s: seq<int>, s': seq<int>, i: nat, j: nat) returns (rest: seq<int>)
    requires i < j < |s| == |s'|
    requires forall k :: 0 <= k < |s| && k != i && k != j ==> s'[k] == s[k]
    ensures PairDiff(s) == PairDiff(rest) + PairCost(rest, s[i], s[j])
    ensures PairDiff(s') == PairDiff(rest) + PairCost(rest, s'[i], s'[j])
  {
    rest := Remove(Remove(s, j), i);
    RestUnchanged(s, s', i, j);
    PairDiffTakeTwo(s, i, j, rest);
    PairDiffTakeTwo(s', i, j, rest);
  }

  lemma {:induction false} SumUpdate(s: seq<int>, i: nat, x: int)
    requires i < |s|
    ensures Sum(s[i := x]) == Sum(s) - s[i] + x
  {
    SumRemove(s, i);
    SumRemove(s[i := x], i);
    assert Remove(s[i := x], i) == Remove(s, i);
  }

  lemma PairDiffTransfer(s: seq<int>, s': seq<int>, i: nat, j: nat, t: int)
    requires i < j < |s| == |s'|
    requires forall k :: 0 <= k < |s| && k != i && k != j ==> s'[k] == s[k]
    requires s'[i] == s[i] - t && s'[j] == s[j] + t
    requires 0 <= t <= s[i] - s[j] || s[i] - s[j] <= t <= 0
    ensures PairDiff(s') <= PairDiff(s)
  {
    var rest := CommonRest(s, s', i, j);
    if s[j] <= s[i] {
      TransferLowersPairCost(rest, s[i], s[j], t);
    } else {
      TransferLowersPairCost(rest, s[j], s[i], -t);
    }
  }

  /** The Pigou-Dalton principle: a transfer from a larger to a smaller holder of at most
      the gap between them never raises the coefficient. */
  lemma TransferNeverRaisesGini(values: seq<int>, hi: nat, lo: nat, t: int)
    requires NonNegative(values)
    requires hi < |values| && lo < |values| && hi != lo
    requires 0 <= t <= values[hi] - values[lo]
    ensures MeanDifferenceGini(Transfer(values, hi, lo, t)) <= MeanDifferenceGini(values)
  {
    var after := Transfer(values, hi, lo, t);
    var i, j := if hi < lo then hi else lo, if hi < lo then lo else hi;
    PairDiffTransfer(values, after, i, j, if hi < lo then t else -t);
    SumUpdate(values, hi, values[hi] - t);
    SumUpdate(values[hi := values[hi] - t], lo, values[lo] + t);
    assert NonNegative(after);
    PairDiffBounds(values);
    PairDiffBounds(after);
    if Sum(values) != 0 {
      TruncDivMonotone(PairDiff(after), PairDiff(values), |values|, Sum(values));
    }
  }

  lemma TruncDivMonotone(p: int, p': int, n: int, sum: int)
    requires 0 <= p <= p' && n > 0 && sum > 0
    ensures n * sum > 0 && TruncDiv(p * 10000, n * sum) <= TruncDiv(p' * 10000, n * sum)
  {
    MulLe(1, n, sum);
    DivMonotone(p * 10000, p' * 10000, n * sum);
  }

  // ----- what the coefficient is

  /** The largest ten-thousandth not above the mean absolute difference over twice the mean. */
  lemma GiniIsCut(values: seq<int>)
    requires NonNegative(values) && |values| > 1 && Sum(values) > 0
    ensures var g, share := MeanDifferenceGini(values), PairDiff(values) as real / (|values| * Sum(values)) as real;
            |values| * Sum(values) > 0 && g <= share < g + 0.0001
  {
    PairDiffBounds(values);
    MulLe(1, |values|, Sum(values));
    CutQuotient(PairDiff(values), |values| * Sum(values));
  }

  lemma CutQuotient(p: int, d: int)
    requires p >= 0 && d > 0
    ensures var g := TruncDiv(p * 10000, d) as real / 10000.0; g <= p as real / d as real < g + 0.0001
  {
    var q, w := (p * 10000) / d, d as real;
    DivFloor(p * 10000, d);
    assert p * 10000 < (q + 1) * d;
    var g := q as real / 10000.0;
    assert (q * d) as real == q as real * w && ((q + 1) * d) as real == (q as real + 1.0) * w;
    assert g * w == (q as real * w) / 10000.0 && (g + 0.0001) * w == ((q as real + 1.0) * w) / 10000.0;
    QuotientAtLeast(p as real, w, g);
    QuotientLess(p as real, w, g + 0.0001);
  }

  lemma QuotientAtLeast(n: real, d: real, k: real)
    requires d > 0.0 && k * d <= n
    ensures k <= n / d
  {
    var q := n / d;
    assert q * d == n;
    RealMulLt(q, k, d);
  }

  lemma QuotientLess(n: real, d: real, k: real)
    requires d > 0.0 && n < k * d
    ensures n / d < k
  {
    var q := n / d;
    assert q * d == n;
    RealMulLe(k, q, d);
  }

  /** All powers are the same. */
  ghost predicate Equal(values: seq<int>) {
    forall i, j :: 0 <= i < |values| && 0 <= j < |values| ==> values[i] == values[j]
  }

  lemma {:induction false} NoDistance(s: seq<int>, x: int)
    ensures DistanceTo(s, x) >= 0
    ensures DistanceTo(s, x) == 0 <==> forall i :: 0 <= i < |s| ==> s[i] == x
  {
    if s == [] {
    } else {
      var init := s[..|s| - 1];
      NoDistance(init, x);
      assert forall i :: 0 <= i < |init| ==> init[i] == s[i];
    }
  }

  /** The pairwise sum is 0 exactly for equal powers. */
  lemma {:induction false} NoPairDiffIff(s: seq<int>)
    ensures PairDiff(s) >= 0 && (PairDiff(s) == 0 <==> Equal(s))
  {
    if s == [] {
    } else {
      var init, last := s[..|s| - 1], s[|s| - 1];
      NoPairDiffIff(init);
      NoDistance(init, last);
      assert forall i :: 0 <= i < |init| ==> init[i] == s[i];
    }
  }

  /** Equal powers have the coefficient 0. */
  lemma EqualityIsZero(values: seq<int>)
    requires Equal(values)
    ensures MeanDifferenceGini(values) == 0.0
  {
    NoPairDiffIff(values);
  }

  /** One holder of everything has the largest coefficient there is, (n-1)/n cut to four decimals. */
  lemma OneHolderIsTop(values: seq<int>, k: nat)
    requires k < |values| && |values| > 1 && values[k] > 0
    requires forall i :: 0 <= i < |values| && i != k ==> values[i] == 0
    ensures MeanDifferenceGini(values) == ((|values| - 1) * 10000 / |values|) as real / 10000.0
  {
    var n, x, rest := |values|, values[k], Remove(values, k);
    assert forall i :: 0 <= i < |rest| ==> rest[i] == 0;
    PairDiffRemove(values, k);
    SumRemove(values, k);
    NoPairDiffIff(rest);
    DistanceFromAbove(rest, x);
    NoSum(rest);
    assert PairDiff(values) == (n - 1) * x && Sum(values) == x;
    assert PairDiff(values) * 10000 == x * ((n - 1) * 10000);
    DivCancel(x, (n - 1) * 10000, n);
    MulLe(1, n, x);
    assert n * x == x * n > 0;
  }

  lemma {:induction false} NoSum(s: seq<int>)
    requires forall i :: 0 <= i < |s| ==> s[i] == 0
    ensures Sum(s) == 0
  {
    if s == [] {
    } else {
      NoSum(s[..|s| - 1]);
    }
  }
}
