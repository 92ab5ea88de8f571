/** How alike two DReps vote: `calculateCorrelation` in
    src/controllers/analytics/getDRepCorrelation.ts. */
module Correlation {
  import opened Common
  import opened Arithmetic
  import opened Sums

  datatype Vote = Yes | No | Abstain

  /** A JavaScript Map: the votes by proposal, and the keys in insertion order. */
  datatype VoteMap = VoteMap(order: seq<string>, votes: map<string, Vote>) {
    ghost predicate Valid() {
      && (forall i, j :: 0 <= i < j < |order| ==> order[i] != order[j])
      && (forall p :: p in order <==> p in votes)
    }
  }

  datatype Comparison = Comparison(sharedProposals: nat, agreementPct: real, correlation: Option<real>)

  function Num(v: Vote): real {
    match v case Yes => 1.0 case No => -1.0 case Abstain => 0.0
  }

  function Shared(order: seq<string>, other: map<string, Vote>): seq<string> {
    if order == [] then []
    else
      var p := order[|order| - 1];
      Shared(order[..|order| - 1], other) + if p in other then [p] else []
  }

  function Value(m: VoteMap): string -> real {
    p => if p in m.votes then Num(m.votes[p]) else 0.0
  }

  function Agrees(a: VoteMap, b: VoteMap): string -> real {
    p => if p in a.votes && p in b.votes && a.votes[p] == b.votes[p] then 1.0 else 0.0
  }

  function Mean(shared: seq<string>, f: string -> real): real
    requires shared != []
  {
    Sum(shared, f) / |shared| as real
  }

  /** The sum of the products of two deviations. */
  function ProductSum(shared: seq<string>, f: string -> real, mf: real, g: string -> real, mg: real): real {
    if shared == [] then 0.0
    else
      var p := shared[|shared| - 1];
      ProductSum(shared[..|shared| - 1], f, mf, g, mg) + (f(p) - mf) * (g(p) - mg)
  }

  /** The unscaled covariance of two vote vectors; a vector with itself gives its variance. */
  function Covariance(shared: seq<string>, f: string -> real, g: string -> real): real
    requires shared != []
  {
    ProductSum(shared, f, Mean(shared, f), g, Mean(shared, g))
  }

  /** Math.round. */
  function Round(x: real): int {
    (x + 0.5).Floor
  }

  ghost predicate IsSqrt(sqrt: real -> real) {
    forall r :: r >= 0.0 ==> sqrt(r) >= 0.0 && sqrt(r) * sqrt(r) == r
  }

  function Coefficient(numerator: real, denomX: real, denomY: real, sqrt: real -> real): Option<real> {
    var denom := sqrt(denomX * denomY);
    if denom > 0.0 then Some(numerator / denom) else None
  }

  /** The Pearson coefficient before rounding; there is none for fewer than two shared
      proposals or if one side never changes its vote. */
  function Pearson(a: VoteMap, b: VoteMap, sqrt: real -> real): Option<real> {
    var shared := Shared(a.order, b.votes);
    if |shared| < 2 then None
    else
      var x, y := Value(a), Value(b);
      Coefficient(Covariance(shared, x, y), Covariance(shared, x, x), Covariance(shared, y, y), sqrt)
  }

  function AgreementPct(agreements: real, n: nat): real
    requires n > 0
  {
    Round(agreements / n as real * 10000.0) as real / 100.0
  }

  function Rounded(r: Option<real>): Option<real> {
    match r
    case None => None
    case Some(c) => Some(Round(c * 10000.0) as real / 10000.0)
  }

  function Compare(a: VoteMap, b: VoteMap, sqrt: real -> real): Comparison {
    var shared := Shared(a.order, b.votes);
    if shared == [] then Comparison(0, 0.0, None)
    else Comparison(|shared|, AgreementPct(Sum(shared, Agrees(a, b)), |shared|), Rounded(Pearson(a, b, sqrt)))
  }

  method CalculateCorrelation(votes1: VoteMap, votes2: VoteMap, sqrt: real -> real) returns (r: Comparison)
    requires votes1.Valid() && votes2.Valid()
    ensures r == Compare(votes1, votes2, sqrt)
  {
    var shared := SharedProposals(votes1, votes2);
    if |shared| == 0 {
      return Comparison(0, 0.0, None);
    }
    var n := |shared|;
    var agreements := CountAgreements(votes1, votes2, shared);
    var agreementPct := AgreementPct(agreements, n);
    var x := Vector(votes1, shared);
    var y := Vector(votes2, shared);
    if n < 2 {
      return Comparison(n, agreementPct, None);
    }
    var numerator, denomX, denomY := Deviations(shared, Value(votes1), Value(votes2), x, y);
    var correlation := Coefficient(numerator, denomX, denomY, sqrt);
    r := Comparison(n, agreementPct, Rounded(correlation));
  }

  method SharedProposals(votes1: VoteMap, votes2: VoteMap) returns (shared: seq<string>)
    requires votes1.Valid() && votes2.Valid()
    ensures shared == Shared(votes1.order, votes2.votes)
    ensures forall i :: 0 <= i < |shared| ==> shared[i] in votes1.votes && shared[i] in votes2.votes
  {
    shared := [];
    for i := 0 to |votes1.order|
      invariant shared == Shared(votes1.order[..i], votes2.votes)
      invariant forall k :: 0 <= k < |shared| ==> shared[k] in votes1.votes && shared[k] in votes2.votes
    {
      assert votes1.order[..i + 1][..i] == votes1.order[..i];
      assert votes1.order[i] in votes1.order;
      if votes1.order[i] in votes2.votes {
        shared := shared + [votes1.order[i]];
      }
    }
    assert votes1.order[..|votes1.order|] == votes1.order;
  }

  method CountAgreements(votes1: VoteMap, votes2: VoteMap, shared: seq<string>) returns (agreements: real)
    requires forall i :: 0 <= i < |shared| ==> shared[i] in votes1.votes && shared[i] in votes2.votes
    ensures agreements == Sum(shared, Agrees(votes1, votes2))
  {
    agreements := 0.0;
    for i := 0 to |shared|
      invariant agreements == Sum(shared[..i], Agrees(votes1, votes2))
    {
      assert shared[..i + 1] == shared[..i] + [shared[i]];
      SumSnoc(shared[..i], shared[i], Agrees(votes1, votes2));
      if votes1.votes[shared[i]] == votes2.votes[shared[i]] {
        agreements := agreements + 1.0;
      }
    }
    assert shared[..|shared|] == shared;
  }

  method Vector(m: VoteMap, shared: seq<string>) returns (x: seq<real>)
    requires forall i :: 0 <= i < |shared| ==> shared[i] in m.votes
    ensures |x| == |shared| && forall i :: 0 <= i < |x| ==> x[i] == Value(m)(shared[i])
  {
    x := [];
    for i := 0 to |shared|
      invariant |x| == i && forall k :: 0 <= k < i ==> x[k] == Value(m)(shared[k])
    {
      x := x + [Num(m.votes[shared[i]])];
    }
  }

  method SumVector(shared: seq<string>, ghost f: string -> real, x: seq<real>) returns (sum: real)
    requires |x| == |shared| && forall i :: 0 <= i < |x| ==> x[i] == f(shared[i])
    ensures sum == Sum(shared, f)
  {
    sum := 0.0;
    for i := 0 to |x|
      invariant sum == Sum(shared[..i], f)
    {
      assert shared[..i + 1] == shared[..i] + [shared[i]];
      SumSnoc(shared[..i], shared[i], f);
      sum := sum + x[i];
    }
    assert shared[..|shared|] == shared;
  }

  lemma DeviationStep(shared: seq<string>, i: nat, f: string -> real, mf: real, g: string -> real, mg: real, dx: real,
                      dy: real)
    requires i < |shared| && dx == f(shared[i]) - mf && dy == g(shared[i]) - mg
    ensures ProductSum(shared[..i + 1], f, mf, g, mg) == ProductSum(shared[..i], f, mf, g, mg) + dx * dy
  {
    assert shared[..i + 1][..i] == shared[..i];
  }

  method Deviations(shared: seq<string>, ghost f: string -> real, ghost g: string -> real, x: seq<real>, y: seq<real>)
    returns (numerator: real, denomX: real, denomY: real)
    requires |x| == |y| == |shared| && shared != []
    requires forall i :: 0 <= i < |x| ==> x[i] == f(shared[i]) && y[i] == g(shared[i])
    ensures numerator == Covariance(shared, f, g)
    ensures denomX == Covariance(shared, f, f) && denomY == Covariance(shared, g, g)
  {
    var n := |x|;
    var sumX := SumVector(shared, f, x);
    var sumY := SumVector(shared, g, y);
    var meanX, meanY := sumX / n as real, sumY / n as real;
    numerator, denomX, denomY := 0.0, 0.0, 0.0;
    for i := 0 to n
      invariant numerator == ProductSum(shared[..i], f, meanX, g, meanY)
      invariant denomX == ProductSum(shared[..i], f, meanX, f, meanX)
      invariant denomY == ProductSum(shared[..i], g, meanY, g, meanY)
    {
      var dx, dy := x[i] - meanX, y[i] - meanY;
      DeviationStep(shared, i, f, meanX, g, meanY, dx, dy);
      DeviationStep(shared, i, f, meanX, f, meanX, dx, dx);
      DeviationStep(shared, i, g, meanY, g, meanY, dy, dy);
      numerator := numerator + dx * dy;
      denomX := denomX + dx * dx;
      denomY := denomY + dy * dy;
    }
    assert shared[..n] == shared;
  }

  // ----- Cauchy-Schwarz

  /** The inequality between a covariance and the two variances. */
  ghost predicate Bounded(n: real, a: real, b: real) {
    a >= 0.0 && b >= 0.0 && n * n <= a * b
  }

  lemma CauchyStep(n: real, a: real, b: real, u: real, v: real, n': real, a': real, b': real)
    requires Bounded(n, a, b)
    requires n' == n + u * v && a' == a + u * u && b' == b + v * v
    ensures Bounded(n', a', b')
  {
    var uu, vv, uv := u * u, v * v, u * v;
    SquareIsZero(u);
    SquareIsZero(v);
    var s, t, r := a * vv, b * uu, n * uv;
    assert s >= 0.0 && t >= 0.0;
    CrossTerms(n, a, b, u, v);
    assert n' * n' == n * n + 2.0 * r + uu * vv by {
      assert (n + uv) * (n + uv) == n * n + 2.0 * (n * uv) + uv * uv;
      assert uv * uv == uu * vv;
    }
    assert a' * b' == a * b + s + t + uu * vv by {
      assert (a + uu) * (b + vv) == a * b + a * vv + uu * b + uu * vv;
    }
  }

  lemma CrossTerms(n: real, a: real, b: real, u: real, v: real)
    requires Bounded(n, a, b)
    ensures 2.0 * (n * (u * v)) <= a * (v * v) + b * (u * u)
  {
    var s, t, q := a * (v * v), b * (u * u), 2.0 * (n * (u * v));
    var w := (u * v) * (u * v);
    SquareIsZero(u);
    SquareIsZero(v);
    SquareIsZero(u * v);
    SquareIsZero(s - t);
    assert s >= 0.0 && t >= 0.0;
    assert s * t == (a * b) * w by {
      assert s * t == a * b * ((v * v) * (u * u));
    }
    assert q * q == 4.0 * ((n * n) * w);
    RealMulLe(n * n, a * b, w);
    assert (s + t) * (s + t) == (s - t) * (s - t) + 4.0 * (s * t);
    SquareCompare(s + t, q);
  }

  lemma {:induction false} CauchySchwarz(shared: seq<string>, f: string -> real, mf: real, g: string -> real, mg: real)
    ensures Bounded(ProductSum(shared, f, mf, g, mg), ProductSum(shared, f, mf, f, mf),
                    ProductSum(shared, g, mg, g, mg))
  {
    if shared == [] {
    } else {
      var init, p := shared[..|shared| - 1], shared[|shared| - 1];
      CauchySchwarz(init, f, mf, g, mg);
      CauchyStep(ProductSum(init, f, mf, g, mg), ProductSum(init, f, mf, f, mf), ProductSum(init, g, mg, g, mg),
                 f(p) - mf, g(p) - mg,
                 ProductSum(shared, f, mf, g, mg), ProductSum(shared, f, mf, f, mf), ProductSum(shared, g, mg, g, mg));
    }
  }

  /** The coefficient lies between -1 and 1. */
  lemma PearsonInRange(a: VoteMap, b: VoteMap, sqrt: real -> real)
    requires IsSqrt(sqrt) && Pearson(a, b, sqrt).Some?
    ensures -1.0 <= Pearson(a, b, sqrt).value <= 1.0
  {
    var shared, x, y := Shared(a.order, b.votes), Value(a), Value(b);
    CauchySchwarz(shared, x, Mean(shared, x), y, Mean(shared, y));
    QuotientInRange(Covariance(shared, x, y), Covariance(shared, x, x), Covariance(shared, y, y), sqrt);
  }

  /** Rounding to four decimals keeps it there. */
  lemma CorrelationInRange(a: VoteMap, b: VoteMap, sqrt: real -> real)
    requires IsSqrt(sqrt) && Compare(a, b, sqrt).correlation.Some?
    ensures Pearson(a, b, sqrt).Some?
    ensures -1.0 <= Compare(a, b, sqrt).correlation.value <= 1.0
  {
    PearsonInRange(a, b, sqrt);
    var r := Pearson(a, b, sqrt).value;
    assert -10000 <= Round(r * 10000.0) <= 10000;
  }

  lemma QuotientInRange(n: real, dx: real, dy: real, sqrt: real -> real)
    requires IsSqrt(sqrt) && Bounded(n, dx, dy)
    requires Coefficient(n, dx, dy, sqrt).Some?
    ensures -1.0 <= Coefficient(n, dx, dy, sqrt).value <= 1.0
  {
    ProductIsZero(dx, dy);
    var d := sqrt(dx * dy);
    assert d * d == dx * dy;
    SquareCompare(d, n);
    QuotientLe(n, d, 1.0);
    QuotientLe(-n, d, 1.0);
    assert (-n) / d == -(n / d);
  }

  // ----- when there is a coefficient

  ghost predicate Constant(shared: seq<string>, f: string -> real) {
    forall i, j :: 0 <= i < |shared| && 0 <= j < |shared| ==> f(shared[i]) == f(shared[j])
  }

  lemma {:induction false} NoDeviations(shared: seq<string>, f: string -> real, m: real)
    ensures ProductSum(shared, f, m, f, m) >= 0.0
    ensures ProductSum(shared, f, m, f, m) == 0.0 <==> forall i :: 0 <= i < |shared| ==> f(shared[i]) == m
  {
    if shared == [] {
    } else {
      var init := shared[..|shared| - 1];
      NoDeviations(init, f, m);
      SquareIsZero(f(shared[|shared| - 1]) - m);
      assert forall i :: 0 <= i < |init| ==> init[i] == shared[i];
    }
  }

  /** A vector has no variance exactly when it never changes. */
  lemma NoVarianceIff(shared: seq<string>, f: string -> real)
    requires shared != []
    ensures Covariance(shared, f, f) >= 0.0
    ensures Covariance(shared, f, f) == 0.0 <==> Constant(shared, f)
  {
    NoDeviations(shared, f, Mean(shared, f));
    if Constant(shared, f) {
      SumConst(shared, f(shared[0]), f);
      assert Mean(shared, f) == f(shared[0]);
    }
  }

  /** There is no coefficient exactly when fewer than two proposals are shared, or one side
      votes the same on all of them. */
  lemma {:induction false} NoCorrelationIff(a: VoteMap, b: VoteMap, sqrt: real -> real)
    requires IsSqrt(sqrt)
    ensures var shared := Shared(a.order, b.votes);
            Compare(a, b, sqrt).correlation == None
            <==> |shared| < 2 || Constant(shared, Value(a)) || Constant(shared, Value(b))
  {
    var shared, x, y := Shared(a.order, b.votes), Value(a), Value(b);
    if |shared| >= 2 {
      NoVarianceIff(shared, x);
      NoVarianceIff(shared, y);
      var dx, dy := Covariance(shared, x, x), Covariance(shared, y, y);
      CoefficientIff(Covariance(shared, x, y), dx, dy, sqrt);
    }
  }

  lemma CoefficientIff(n: real, dx: real, dy: real, sqrt: real -> real)
    requires IsSqrt(sqrt) && dx >= 0.0 && dy >= 0.0
    ensures Coefficient(n, dx, dy, sqrt) == None <==> dx == 0.0 || dy == 0.0
  {
    ProductIsZero(dx, dy);
    var d := sqrt(dx * dy);
    assert d * d == dx * dy;
    SquareIsZero(d);
  }

  // ----- the order of the arguments does not matter

  lemma {:induction false} SharedMultiset(order: seq<string>, other: map<string, Vote>)
    requires forall i, j :: 0 <= i < j < |order| ==> order[i] != order[j]
    ensures forall p :: multiset(Shared(order, other))[p] == if p in order && p in other then 1 else 0
  {
    if order == [] {
    } else {
      var init, last := order[..|order| - 1], order[|order| - 1];
      SharedMultiset(init, other);
      assert last !in init;
      assert forall p :: p in order <==> p in init || p == last;
    }
  }

  lemma SharedIsSymmetric(a: VoteMap, b: VoteMap)
    requires a.Valid() && b.Valid()
    ensures multiset(Shared(a.order, b.votes)) == multiset(Shared(b.order, a.votes))
    ensures |Shared(a.order, b.votes)| == |Shared(b.order, a.votes)|
  {
    SharedMultiset(a.order, b.votes);
    SharedMultiset(b.order, a.votes);
    var s, t := Shared(a.order, b.votes), Shared(b.order, a.votes);
    assert forall p :: multiset(s)[p] == multiset(t)[p];
    assert |s| == |multiset(s)| && |t| == |multiset(t)|;
  }

  function Product(f: string -> real, mf: real, g: string -> real, mg: real): string -> real {
    p => (f(p) - mf) * (g(p) - mg)
  }

  lemma {:induction false} ProductSumIsSum(s: seq<string>, f: string -> real, mf: real, g: string -> real, mg: real)
    ensures ProductSum(s, f, mf, g, mg) == Sum(s, Product(f, mf, g, mg))
    ensures ProductSum(s, f, mf, g, mg) == ProductSum(s, g, mg, f, mf)
  {
    if s == [] {
    } else {
      ProductSumIsSum(s[..|s| - 1], f, mf, g, mg);
    }
  }

  lemma CovarianceIsSymmetric(s: seq<string>, t: seq<string>, f: string -> real, g: string -> real)
    requires multiset(s) == multiset(t) && |s| == |t| && s != []
    ensures Covariance(s, f, g) == Covariance(t, g, f)
  {
    SumPermutation(s, t, f);
    SumPermutation(s, t, g);
    var mf, mg := Mean(s, f), Mean(s, g);
    ProductSumIsSum(s, f, mf, g, mg);
    ProductSumIsSum(t, f, mf, g, mg);
    SumPermutation(s, t, Product(f, mf, g, mg));
  }

  /** Either DRep may come first, although the shared proposals are then listed in another order. */
  lemma ComparisonIsSymmetric(a: VoteMap, b: VoteMap, sqrt: real -> real)
    requires a.Valid() && b.Valid()
    ensures Compare(a, b, sqrt) == Compare(b, a, sqrt)
  {
    hide Pearson, Shared, Rounded, Round;
    SharedIsSymmetric(a, b);
    var s, t := Shared(a.order, b.votes), Shared(b.order, a.votes);
    if s != [] {
      SumPermutation(s, t, Agrees(a, b));
      SumSame(t, Agrees(a, b), Agrees(b, a));
      PearsonIsSymmetric(a, b, sqrt);
    }
  }

  lemma PearsonIsSymmetric(a: VoteMap, b: VoteMap, sqrt: real -> real)
    requires multiset(Shared(a.order, b.votes)) == multiset(Shared(b.order, a.votes))
    requires |Shared(a.order, b.votes)| == |Shared(b.order, a.votes)|
    ensures Pearson(a, b, sqrt) == Pearson(b, a, sqrt)
  {
    var s, t, x, y := Shared(a.order, b.votes), Shared(b.order, a.votes), Value(a), Value(b);
    if |s| >= 2 {
      CovarianceIsSymmetric(s, t, x, y);
      CovarianceIsSymmetric(s, t, x, x);
      CovarianceIsSymmetric(s, t, y, y);
      CoefficientIsSymmetric(Covariance(s, x, y), Covariance(s, x, x), Covariance(s, y, y), sqrt);
    }
  }

  lemma CoefficientIsSymmetric(n: real, dx: real, dy: real, sqrt: real -> real)
    ensures Coefficient(n, dx, dy, sqrt) == Coefficient(n, dy, dx, sqrt)
  {
    assert dx * dy == dy * dx;
  }

  // ----- a DRep compared with itself

  lemma {:induction false} AllShared(order: seq<string>, votes: map<string, Vote>)
    requires forall i :: 0 <= i < |order| ==> order[i] in votes
    ensures Shared(order, votes) == order
  {
    if order == [] {
    } else {
      AllShared(order[..|order| - 1], votes);
      assert order == order[..|order| - 1] + [order[|order| - 1]];
    }
  }

  lemma EqualSides(c: real, sqrt: real -> real)
    requires IsSqrt(sqrt) && c > 0.0
    ensures Coefficient(c, c, c, sqrt) == Some(1.0)
  {
    ProductIsZero(c, c);
    var d := sqrt(c * c);
    assert d * d == c * c;
    SquareCompare(d, c);
    SquareCompare(c, d);
    assert c / c == 1.0;
  }

  /** A DRep agrees fully with itself, and correlates fully unless its vote never changes. */
  lemma SelfComparison(a: VoteMap, sqrt: real -> real)
    requires IsSqrt(sqrt) && a.Valid() && a.order != []
    ensures var r := Compare(a, a, sqrt);
            && r.sharedProposals == |a.order| && r.agreementPct == 100.0
            && r.correlation == if |a.order| < 2 || Constant(a.order, Value(a)) then None else Some(1.0)
  {
    SelfShared(a);
    NoCorrelationIff(a, a, sqrt);
    SelfPearson(a, sqrt);
    SelfAgreement(a);
    OneIsRounded();
    hide Shared, Pearson, Constant, AgreementPct, Round, Rounded, IsSqrt, Sum, Value, Agrees;
  }

  lemma OneIsRounded()
    ensures Rounded(Some(1.0)) == Some(1.0) && Rounded(None) == None
  {
    assert Round(10000.0) == 10000;
  }

  lemma SelfShared(a: VoteMap)
    requires a.Valid()
    ensures Shared(a.order, a.votes) == a.order
  {
    assert forall i :: 0 <= i < |a.order| ==> a.order[i] in a.order;
    AllShared(a.order, a.votes);
  }

  lemma SelfAgreement(a: VoteMap)
    requires a.Valid() && a.order != []
    ensures AgreementPct(Sum(a.order, Agrees(a, a)), |a.order|) == 100.0
  {
    assert forall i :: 0 <= i < |a.order| ==> a.order[i] in a.order;
    SumConst(a.order, 1.0, Agrees(a, a));
    FullAgreement(|a.order|);
  }

  lemma FullAgreement(n: nat)
    requires n > 0
    ensures AgreementPct(n as real, n) == 100.0
  {
    assert n as real / n as real == 1.0;
    assert Round(10000.0) == 10000;
  }

  lemma SelfPearson(a: VoteMap, sqrt: real -> real)
    requires IsSqrt(sqrt) && a.Valid()
    ensures Pearson(a, a, sqrt).Some? ==> Pearson(a, a, sqrt) == Some(1.0)
  {
    SelfShared(a);
    if |a.order| >= 2 {
      var c := Covariance(a.order, Value(a), Value(a));
      NoVarianceIff(a.order, Value(a));
      CoefficientIff(c, c, c, sqrt);
      if c > 0.0 { EqualSides(c, sqrt); }
    }
  }
}
