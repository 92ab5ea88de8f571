/** What the comparison of two DReps says, in terms of the votes they share: `calculateCorrelation`
    in src/controllers/analytics/getDRepCorrelation.ts. */
module CorrelationMeaning {
  import opened Common
  import opened Arithmetic
  import opened Sums
  import opened Correlation

  // ----- counting votes

  /** The proposals both voted on. */
  ghost function Both(a: VoteMap, b: VoteMap): set<string> {
    set p | p in a.votes && p in b.votes
  }

  /** Those of them on which the first voted so. */
  ghost function Voting(a: VoteMap, b: VoteMap, v: Vote): set<string> {
    set p | p in Both(a, b) && a.votes[p] == v
  }

  ghost function Agreeing(a: VoteMap, b: VoteMap): set<string> {
    set p | p in Both(a, b) && a.votes[p] == b.votes[p]
  }

  /** Those on which one said Yes and the other No. */
  ghost function Opposing(a: VoteMap, b: VoteMap): set<string> {
    set p | p in Both(a, b) && a.votes[p] != b.votes[p] && a.votes[p] != Abstain && b.votes[p] != Abstain
  }

  ghost predicate Distinct(s: seq<string>) {
    forall i, j :: 0 <= i < j < |s| ==> s[i] != s[j]
  }

  /** A sequence with each element once. */
  lemma {:induction false} OnceEach(s: seq<string>)
    requires forall p :: multiset(s)[p] <= 1
    ensures Distinct(s) && |set p | p in s| == |s|
  {
    var all := set p | p in s;
    if s == [] {
      assert all == {};
    } else {
      var init, last := s[..|s| - 1], s[|s| - 1];
      assert s == init + [last];
      assert forall p :: multiset(s)[p] == multiset(init)[p] + if p == last then 1 else 0;
      OnceEach(init);
      assert multiset(init)[last] == 0;
      assert last !in init;
      assert all == (set p | p in init) + {last};
    }
  }

  lemma {:induction false} SharedMembers(order: seq<string>, other: map<string, Vote>, p: string)
    ensures p in Shared(order, other) <==> p in order && p in other
  {
    if order == [] {
    } else {
      var init, last := order[..|order| - 1], order[|order| - 1];
      SharedMembers(init, other, p);
      assert order == init + [last];
    }
  }

  lemma SharedFacts(a: VoteMap, b: VoteMap)
    requires a.Valid()
    ensures var s := Shared(a.order, b.votes);
            Distinct(s) && (forall p :: p in s <==> p in Both(a, b)) && |s| == |Both(a, b)|
  {
    var s := Shared(a.order, b.votes);
    SharedMultiset(a.order, b.votes);
    forall p
      ensures p in s <==> p in Both(a, b)
    {
      SharedMembers(a.order, b.votes, p);
    }
    hide Shared, Distinct, Both;
    OnceEach(s);
    assert (set p | p in s) == Both(a, b);
  }

  ghost function Where(s: seq<string>, f: string -> real, x: real): set<string> {
    set p | p in s && f(p) == x
  }

  /** A sum of ones, zeros and minus ones is a difference of counts. */
  lemma {:induction false} SumOfSigns(s: seq<string>, f: string -> real)
    requires Distinct(s) && forall i :: 0 <= i < |s| ==> f(s[i]) in {1.0, 0.0, -1.0}
    ensures Sum(s, f) == (|Where(s, f, 1.0)| - |Where(s, f, -1.0)|) as real
  {
    if s == [] {
      assert Where(s, f, 1.0) == {} && Where(s, f, -1.0) == {};
    } else {
      var init, last := s[..|s| - 1], s[|s| - 1];
      SumOfSigns(init, f);
      WhereSnoc(init, last, f, 1.0);
      WhereSnoc(init, last, f, -1.0);
      assert s == init + [last];
    }
  }

  lemma WhereSnoc(s: seq<string>, last: string, f: string -> real, x: real)
    requires last !in s
    ensures |Where(s + [last], f, x)| == |Where(s, f, x)| + if f(last) == x then 1 else 0
  {
    assert Where(s + [last], f, x) == Where(s, f, x) + if f(last) == x then {last} else {};
  }

  /** The same with the two sets given. */
  lemma SignsCounted(s: seq<string>, f: string -> real, plus: set<string>, minus: set<string>)
    requires Distinct(s) && plus !! minus && (forall p :: p in plus || p in minus ==> p in s)
    requires forall p :: p in s ==> f(p) == if p in plus then 1.0 else if p in minus then -1.0 else 0.0
    ensures Sum(s, f) == (|plus| - |minus|) as real
  {
    assert forall i :: 0 <= i < |s| ==> s[i] in s;
    SumOfSigns(s, f);
    assert Where(s, f, 1.0) == plus && Where(s, f, -1.0) == minus;
  }

  // ----- the covariance by counts

  function Times(f: string -> real, g: string -> real): string -> real {
    p => f(p) * g(p)
  }

  lemma MomentStep(sum: real, moment: real, sf: real, sg: real, n: real, x: real, y: real, mf: real, mg: real)
    requires sum == moment - mf * sg - mg * sf + n * (mf * mg)
    ensures sum + (x - mf) * (y - mg) == (moment + x * y) - mf * (sg + y) - mg * (sf + x) + (n + 1.0) * (mf * mg)
  {
    assert (x - mf) * (y - mg) == x * y - mf * y - mg * x + mf * mg;
    assert mf * (sg + y) == mf * sg + mf * y;
    assert mg * (sf + x) == mg * sf + mg * x;
    assert (n + 1.0) * (mf * mg) == n * (mf * mg) + mf * mg;
  }

  /** A sum of products of deviations, without the deviations. */
  ghost predicate ByMoments(sum: real, moment: real, sf: real, sg: real, n: real, mf: real, mg: real) {
    sum == moment - mf * sg - mg * sf + n * (mf * mg)
  }

  lemma MomentStepHolds(sum: real, moment: real, sf: real, sg: real, n: real, mf: real, mg: real,
                        f: string -> real, g: string -> real, p: string)
    requires ByMoments(sum, moment, sf, sg, n, mf, mg)
    ensures ByMoments(sum + Product(f, mf, g, mg)(p), moment + Times(f, g)(p), sf + f(p), sg + g(p), n + 1.0, mf, mg)
  {
    MomentStep(sum, moment, sf, sg, n, f(p), g(p), mf, mg);
  }

  lemma {:induction false} SumByMoments(s: seq<string>, f: string -> real, mf: real, g: string -> real, mg: real)
    ensures ByMoments(Sum(s, Product(f, mf, g, mg)), Sum(s, Times(f, g)), Sum(s, f), Sum(s, g), |s| as real, mf, mg)
  {
    if s == [] {
    } else {
      hide ByMoments, Product, Times;
      var init, p := s[..|s| - 1], s[|s| - 1];
      SumByMoments(init, f, mf, g, mg);
      MomentStepHolds(Sum(init, Product(f, mf, g, mg)), Sum(init, Times(f, g)), Sum(init, f), Sum(init, g),
                      |init| as real, mf, mg, f, g, p);
      assert |s| as real == |init| as real + 1.0;
    }
  }

  lemma ProductSumByMoments(s: seq<string>, f: string -> real, mf: real, g: string -> real, mg: real)
    ensures ByMoments(ProductSum(s, f, mf, g, mg), Sum(s, Times(f, g)), Sum(s, f), Sum(s, g), |s| as real, mf, mg)
  {
    SumByMoments(s, f, mf, g, mg);
    hide ByMoments, Sum, Times;
    ProductSumIsSum(s, f, mf, g, mg);
  }

  ghost predicate IsMean(mean: real, sum: real, n: real) {
    n * mean == sum
  }

  lemma MeanTimes(s: seq<string>, f: string -> real)
    requires s != []
    ensures IsMean(Mean(s, f), Sum(s, f), |s| as real)
  {
  }

  /** A covariance times the number of its terms, from sums alone. */
  ghost predicate FromSums(n: real, cov: real, moment: real, sf: real, sg: real) {
    n * cov == n * moment - sf * sg
  }

  /** The covariance without means. */
  lemma CovarianceByMoments(s: seq<string>, f: string -> real, g: string -> real)
    requires s != []
    ensures FromSums(|s| as real, Covariance(s, f, g), Sum(s, Times(f, g)), Sum(s, f), Sum(s, g))
  {
    ProductSumByMoments(s, f, Mean(s, f), g, Mean(s, g));
    hide Mean, Sum, ProductSum, ByMoments, FromSums, Times, IsMean;
    MeanTimes(s, f);
    MeanTimes(s, g);
    MeansCancel(|s| as real, Mean(s, f), Mean(s, g), Covariance(s, f, g), Sum(s, Times(f, g)), Sum(s, f), Sum(s, g));
  }

  lemma MeansCancel(n: real, mf: real, mg: real, cov: real, moment: real, sf: real, sg: real)
    requires IsMean(mf, sf, n) && IsMean(mg, sg, n) && ByMoments(cov, moment, sf, sg, n, mf, mg)
    ensures FromSums(n, cov, moment, sf, sg)
  {
    assert n * (mf * sg) == sf * sg;
    assert n * (mg * sf) == sf * sg;
    assert n * (n * (mf * mg)) == sf * sg;
    assert n * cov == n * moment - n * (mf * sg) - n * (mg * sf) + n * (n * (mf * mg));
  }

  /** How often the two took the same side, less how often opposite sides. */
  ghost function Affinity(a: VoteMap, b: VoteMap): int {
    |Agreeing(a, b) - Voting(a, b, Abstain)| - |Opposing(a, b)|
  }

  /** How often the first took a side. */
  ghost function Firm(a: VoteMap, b: VoteMap): int {
    |Both(a, b) - Voting(a, b, Abstain)|
  }

  /** How much more often it said Yes than No. */
  ghost function Lean(a: VoteMap, b: VoteMap): int {
    |Voting(a, b, Yes)| - |Voting(a, b, No)|
  }

  lemma ValueIs(a: VoteMap, p: string)
    requires p in a.votes
    ensures Value(a)(p) == if a.votes[p] == Yes then 1.0 else if a.votes[p] == No then -1.0 else 0.0
  {
  }

  lemma ValuesAreSigns(a: VoteMap, b: VoteMap)
    requires a.Valid() && b.Valid()
    ensures Sum(Shared(a.order, b.votes), Value(a)) == Lean(a, b) as real
  {
    hide Shared, Sum, Value, Distinct;
    var s := Shared(a.order, b.votes);
    SharedFacts(a, b);
    forall p | p in s
      ensures Value(a)(p) == if p in Voting(a, b, Yes) then 1.0 else if p in Voting(a, b, No) then -1.0 else 0.0
    {
      ValueIs(a, p);
    }
    SignsCounted(s, Value(a), Voting(a, b, Yes), Voting(a, b, No));
  }

  /** The same for the second side, although the shared proposals stand in the first side's order. */
  lemma OtherValues(a: VoteMap, b: VoteMap)
    requires a.Valid() && b.Valid()
    ensures Sum(Shared(a.order, b.votes), Value(b)) == Lean(b, a) as real
  {
    SharedIsSymmetric(a, b);
    SumPermutation(Shared(a.order, b.votes), Shared(b.order, a.votes), Value(b));
    ValuesAreSigns(b, a);
  }

  lemma SignTimes(v: Vote, w: Vote)
    ensures Num(v) * Num(w) == if v == Abstain || w == Abstain then 0.0 else if v == w then 1.0 else -1.0
  {
  }

  lemma ProductIs(a: VoteMap, b: VoteMap, p: string)
    requires p in a.votes && p in b.votes
    ensures Times(Value(a), Value(b))(p) ==
            if a.votes[p] == Abstain || b.votes[p] == Abstain then 0.0
            else if a.votes[p] == b.votes[p] then 1.0
            else -1.0
  {
    SignTimes(a.votes[p], b.votes[p]);
  }

  lemma ProductsAreSigns(a: VoteMap, b: VoteMap)
    requires a.Valid() && b.Valid()
    ensures Sum(Shared(a.order, b.votes), Times(Value(a), Value(b))) ==
            Affinity(a, b) as real
  {
    hide Shared, Sum, Times, Value, Distinct;
    var s, f := Shared(a.order, b.votes), Times(Value(a), Value(b));
    var same, opposite := Agreeing(a, b) - Voting(a, b, Abstain), Opposing(a, b);
    SharedFacts(a, b);
    forall p | p in s
      ensures f(p) == if p in same then 1.0 else if p in opposite then -1.0 else 0.0
    {
      ProductIs(a, b, p);
    }
    SignsCounted(s, f, same, opposite);
  }

  lemma SquaresAreSigns(a: VoteMap, b: VoteMap)
    requires a.Valid() && b.Valid()
    ensures Sum(Shared(a.order, b.votes), Times(Value(a), Value(a))) == Firm(a, b) as real
  {
    hide Shared, Sum, Times, Value, Distinct;
    var s, f, firm := Shared(a.order, b.votes), Times(Value(a), Value(a)), Both(a, b) - Voting(a, b, Abstain);
    SharedFacts(a, b);
    forall p | p in s
      ensures f(p) == if p in firm then 1.0 else 0.0
    {
      ProductIs(a, a, p);
    }
    SignsCounted(s, f, firm, {});
  }

  /** Covariance and variances in counts of votes, times the number of shared proposals. */
  ghost function CovarianceCount(a: VoteMap, b: VoteMap): int {
    |Both(a, b)| * Affinity(a, b) - Lean(a, b) * Lean(b, a)
  }

  ghost function VarianceCount(a: VoteMap, b: VoteMap): int {
    |Both(a, b)| * Firm(a, b) - Lean(a, b) * Lean(a, b)
  }

  /** A count of votes is n times a covariance. */
  ghost predicate Counts(n: int, cov: real, count: int) {
    n as real * cov == count as real
  }

  lemma FromCounts(n: int, cov: real, m: int, x: int, y: int)
    requires FromSums(n as real, cov, m as real, x as real, y as real)
    ensures Counts(n, cov, n * m - x * y)
  {
    assert n as real * m as real - x as real * y as real == (n * m - x * y) as real;
  }

  lemma CovarianceCounts(a: VoteMap, b: VoteMap)
    requires a.Valid() && b.Valid() && Shared(a.order, b.votes) != []
    ensures Counts(|Both(a, b)|, Covariance(Shared(a.order, b.votes), Value(a), Value(b)), CovarianceCount(a, b))
  {
    var s := Shared(a.order, b.votes);
    SharedFacts(a, b);
    hide Shared, Covariance, Sum, Times, Value, Distinct, Both, Affinity, Firm, Lean, FromSums, Counts;
    ProductsAreSigns(a, b);
    ValuesAreSigns(a, b);
    OtherValues(a, b);
    CovarianceByMoments(s, Value(a), Value(b));
    FromCounts(|Both(a, b)|, Covariance(s, Value(a), Value(b)), Affinity(a, b), Lean(a, b), Lean(b, a));
  }

  lemma VarianceCounts(a: VoteMap, b: VoteMap)
    requires a.Valid() && b.Valid() && Shared(a.order, b.votes) != []
    ensures Counts(|Both(a, b)|, Covariance(Shared(a.order, b.votes), Value(a), Value(a)), VarianceCount(a, b))
  {
    var s := Shared(a.order, b.votes);
    SharedFacts(a, b);
    hide Shared, Covariance, Sum, Times, Value, Distinct, Both, Affinity, Firm, Lean, FromSums, Counts;
    SquaresAreSigns(a, b);
    ValuesAreSigns(a, b);
    CovarianceByMoments(s, Value(a), Value(a));
    FromCounts(|Both(a, b)|, Covariance(s, Value(a), Value(a)), Firm(a, b), Lean(a, b), Lean(a, b));
  }

  /** The second side's variance, although the shared proposals stand in the first side's order. */
  lemma OtherVarianceCounts(a: VoteMap, b: VoteMap)
    requires a.Valid() && b.Valid() && Shared(a.order, b.votes) != []
    ensures Counts(|Both(a, b)|, Covariance(Shared(a.order, b.votes), Value(b), Value(b)), VarianceCount(b, a))
  {
    SharedIsSymmetric(a, b);
    CovarianceIsSymmetric(Shared(a.order, b.votes), Shared(b.order, a.votes), Value(b), Value(b));
    assert Both(b, a) == Both(a, b);
    hide Shared, Covariance, Value, Counts, VarianceCount;
    VarianceCounts(b, a);
  }

  // ----- the coefficient

  /** The square of r times both variances is the square of the covariance, and r has its sign. */
  ghost predicate IsPearson(r: real, cov: real, varX: real, varY: real) {
    && r * r * (varX * varY) == cov * cov
    && (r > 0.0 <==> cov > 0.0) && (r < 0.0 <==> cov < 0.0)
  }

  lemma CoefficientIs(n: real, dx: real, dy: real, sqrt: real -> real)
    requires IsSqrt(sqrt) && dx >= 0.0 && dy >= 0.0 && Coefficient(n, dx, dy, sqrt).Some?
    ensures IsPearson(Coefficient(n, dx, dy, sqrt).value, n, dx, dy)
  {
    ProductIsZero(dx, dy);
    var d, r := sqrt(dx * dy), Coefficient(n, dx, dy, sqrt).value;
    assert d * d == dx * dy && r * d == n;
    assert r * r * (d * d) == (r * d) * (r * d);
    RealMulLt(0.0, r, d);
    RealMulLt(r, 0.0, d);
  }

  lemma PearsonScaled(n: int, r: real, c: real, dx: real, dy: real, cov: int, varX: int, varY: int)
    requires n > 0 && IsPearson(r, c, dx, dy) && Counts(n, c, cov) && Counts(n, dx, varX) && Counts(n, dy, varY)
    ensures IsPearson(r, cov as real, varX as real, varY as real)
  {
    var k := n as real;
    assert (k * dx) * (k * dy) == (k * k) * (dx * dy);
    assert r * r * ((k * k) * (dx * dy)) == (k * k) * (r * r * (dx * dy));
    assert (k * c) * (k * c) == (k * k) * (c * c);
    RealMulLt(0.0, c, k);
    RealMulLt(c, 0.0, k);
  }

  /** The coefficient, counted from the votes: its square times both variances is the square of
      the covariance, and it has the sign of the covariance. */
  lemma PearsonByCounts(a: VoteMap, b: VoteMap, sqrt: real -> real)
    requires IsSqrt(sqrt) && a.Valid() && b.Valid() && Pearson(a, b, sqrt).Some?
    ensures IsPearson(Pearson(a, b, sqrt).value, CovarianceCount(a, b) as real,
                      VarianceCount(a, b) as real, VarianceCount(b, a) as real)
  {
    var s := Shared(a.order, b.votes);
    SharedFacts(a, b);
    CovarianceCounts(a, b);
    VarianceCounts(a, b);
    OtherVarianceCounts(a, b);
    NoVarianceIff(s, Value(a));
    NoVarianceIff(s, Value(b));
    hide Covariance, Coefficient, IsPearson, Counts, Value, IsSqrt, CovarianceCount, VarianceCount, Distinct;
    var c, dx, dy :=
      Covariance(s, Value(a), Value(b)), Covariance(s, Value(a), Value(a)), Covariance(s, Value(b), Value(b));
    CoefficientIs(c, dx, dy, sqrt);
    PearsonScaled(|Both(a, b)|, Pearson(a, b, sqrt).value, c, dx, dy,
                  CovarianceCount(a, b), VarianceCount(a, b), VarianceCount(b, a));
  }

  // ----- the other side

  function Opposite(v: Vote): Vote {
    match v case Yes => No case No => Yes case Abstain => Abstain
  }

  /** Every Yes a No, and every No a Yes. */
  function Mirror(m: VoteMap): VoteMap {
    VoteMap(m.order, map p | p in m.votes :: Opposite(m.votes[p]))
  }

  lemma MirrorFacts(a: VoteMap, b: VoteMap)
    requires a.Valid() && b.Valid()
    ensures Mirror(b).Valid() && Both(a, Mirror(b)) == Both(a, b)
            && Shared(a.order, Mirror(b).votes) == Shared(a.order, b.votes)
    ensures forall p :: p in Shared(a.order, b.votes) ==> Value(Mirror(b))(p) == -Value(b)(p)
  {
    SameShared(a.order, b.votes, Mirror(b).votes);
    SharedFacts(a, b);
  }

  lemma {:induction false} SameShared(order: seq<string>, votes: map<string, Vote>, other: map<string, Vote>)
    requires votes.Keys == other.Keys
    ensures Shared(order, votes) == Shared(order, other)
  {
    if order == [] {
    } else {
      SameShared(order[..|order| - 1], votes, other);
    }
  }

  lemma {:induction false} NegatedSum(s: seq<string>, g: string -> real, h: string -> real)
    requires forall p :: p in s ==> h(p) == -g(p)
    ensures Sum(s, h) == -Sum(s, g)
  {
    if s == [] {
    } else {
      NegatedSum(s[..|s| - 1], g, h);
    }
  }

  lemma NegatedTerm(x: real, y: real, mf: real, mg: real)
    ensures (x - mf) * (-y - -mg) == -((x - mf) * (y - mg))
    ensures (-x - -mf) * (-y - -mg) == (x - mf) * (y - mg)
  {
  }

  lemma ProductNegated(f: string -> real, mf: real, g: string -> real, mg: real, h: string -> real, p: string)
    requires h(p) == -g(p)
    ensures Product(f, mf, h, -mg)(p) == -Product(f, mf, g, mg)(p)
    ensures Product(h, -mg, h, -mg)(p) == Product(g, mg, g, mg)(p)
  {
    NegatedTerm(f(p), g(p), mf, mg);
    NegatedTerm(g(p), g(p), mg, mg);
  }

  lemma NegatedProducts(s: seq<string>, f: string -> real, mf: real, g: string -> real, mg: real, h: string -> real)
    requires forall p :: p in s ==> h(p) == -g(p)
    ensures ProductSum(s, f, mf, h, -mg) == -ProductSum(s, f, mf, g, mg)
    ensures ProductSum(s, h, -mg, h, -mg) == ProductSum(s, g, mg, g, mg)
  {
    hide ProductSum, Product;
    ProductSumIsSum(s, f, mf, h, -mg);
    ProductSumIsSum(s, f, mf, g, mg);
    ProductSumIsSum(s, h, -mg, h, -mg);
    ProductSumIsSum(s, g, mg, g, mg);
    forall p | p in s
      ensures Product(f, mf, h, -mg)(p) == -Product(f, mf, g, mg)(p)
      ensures Product(h, -mg, h, -mg)(p) == Product(g, mg, g, mg)(p)
    {
      ProductNegated(f, mf, g, mg, h, p);
    }
    NegatedSum(s, Product(f, mf, g, mg), Product(f, mf, h, -mg));
    SumSame(s, Product(h, -mg, h, -mg), Product(g, mg, g, mg));
  }

  lemma NegatedQuotient(x: real, n: real)
    requires n > 0.0
    ensures (-x) / n == -(x / n)
  {
    var q, r := x / n, (-x) / n;
    assert (q + r) * n == 0.0;
    RealMulLt(0.0, q + r, n);
    RealMulLt(q + r, 0.0, n);
  }

  lemma NegatedMean(s: seq<string>, g: string -> real, h: string -> real)
    requires s != [] && forall p :: p in s ==> h(p) == -g(p)
    ensures Mean(s, h) == -Mean(s, g)
  {
    NegatedSum(s, g, h);
    NegatedQuotient(Sum(s, g), |s| as real);
  }

  lemma NegatedCovariance(s: seq<string>, f: string -> real, g: string -> real, h: string -> real)
    requires s != [] && forall p :: p in s ==> h(p) == -g(p)
    ensures Covariance(s, f, h) == -Covariance(s, f, g) && Covariance(s, h, h) == Covariance(s, g, g)
  {
    hide Mean, ProductSum;
    NegatedMean(s, g, h);
    NegatedProducts(s, f, Mean(s, f), g, Mean(s, g), h);
  }

  lemma NegatedCoefficient(n: real, dx: real, dy: real, sqrt: real -> real)
    ensures Coefficient(n, dx, dy, sqrt).Some? <==> Coefficient(-n, dx, dy, sqrt).Some?
    ensures Coefficient(n, dx, dy, sqrt).Some? ==>
            Coefficient(-n, dx, dy, sqrt).value == -Coefficient(n, dx, dy, sqrt).value
  {
    var d := sqrt(dx * dy);
    if d > 0.0 {
      NegatedQuotient(n, d);
    }
  }

  /** If one side says the opposite throughout, the coefficient changes its sign. */
  lemma MirrorNegates(a: VoteMap, b: VoteMap, sqrt: real -> real)
    requires a.Valid() && b.Valid()
    ensures Pearson(a, Mirror(b), sqrt) ==
            (match Pearson(a, b, sqrt) case Some(r) => Some(-r) case None => None)
  {
    var s, x, y, z := Shared(a.order, b.votes), Value(a), Value(b), Value(Mirror(b));
    MirrorFacts(a, b);
    if |s| >= 2 {
      hide Shared, Value, Covariance, Coefficient;
      NegatedCovariance(s, x, y, z);
      NegatedCoefficient(Covariance(s, x, y), Covariance(s, x, x), Covariance(s, y, y), sqrt);
    }
  }

  /** A DRep compared with its mirror image: -1, unless its vote never changes. */
  lemma MirrorImage(a: VoteMap, sqrt: real -> real)
    requires IsSqrt(sqrt) && a.Valid() && a.order != []
    ensures Compare(a, Mirror(a), sqrt).correlation ==
            if |a.order| < 2 || Constant(a.order, Value(a)) then None else Some(-1.0)
  {
    MirrorNegates(a, a, sqrt);
    MirrorFacts(a, a);
    SelfShared(a);
    NoCorrelationIff(a, a, sqrt);
    SelfPearson(a, sqrt);
    assert Round(-10000.0) == -10000;
    hide Shared, Pearson, Constant, Round, IsSqrt, Value, AgreementPct, Mirror;
  }

  // ----- what is published

  lemma RoundIsNear(x: real)
    ensures -0.5 <= Round(x) as real - x <= 0.5
  {
  }

  lemma AgreementsAre(a: VoteMap, b: VoteMap)
    requires a.Valid()
    ensures Sum(Shared(a.order, b.votes), Agrees(a, b)) == |Agreeing(a, b)| as real
  {
    SharedFacts(a, b);
    hide Shared, Sum, Distinct;
    SignsCounted(Shared(a.order, b.votes), Agrees(a, b), Agreeing(a, b), {});
  }

  /** Counted, the share and the coefficient: the shared proposals, the nearest hundredth of the
      percentage on which both voted the same, and the nearest ten-thousandth of the coefficient. */
  lemma ComparisonSays(a: VoteMap, b: VoteMap, sqrt: real -> real)
    requires a.Valid() && b.Valid()
    ensures var r, n := Compare(a, b, sqrt), |Both(a, b)|;
            && r.sharedProposals == n
            && (n > 0 ==> -0.005 <= r.agreementPct - 100.0 * (|Agreeing(a, b)| as real / n as real) <= 0.005)
            && (r.correlation.Some? <==> Pearson(a, b, sqrt).Some?)
            && (r.correlation.Some? ==> -0.00005 <= r.correlation.value - Pearson(a, b, sqrt).value <= 0.00005)
  {
    var s := Shared(a.order, b.votes);
    SharedFacts(a, b);
    AgreementsAre(a, b);
    if s != [] {
      RoundIsNear(|Agreeing(a, b)| as real / |s| as real * 10000.0);
      if Pearson(a, b, sqrt).Some? {
        RoundIsNear(Pearson(a, b, sqrt).value * 10000.0);
      }
    }
    hide Shared, Sum, Agrees, Pearson, Round, Both, Agreeing, Distinct;
  }
}
