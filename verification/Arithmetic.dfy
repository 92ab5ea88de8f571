/** Facts about products and quotients of integers that several modules use. */
module Arithmetic {

  function Abs(x: int): nat {
    if x < 0 then -x else x
  }

  /** Division of two BigInts: it drops the fraction, toward zero. */
  function TruncDiv(a: int, b: int): int
    requires b != 0
  {
    if (a < 0) == (b < 0) then Abs(a) / Abs(b) else -(Abs(a) / Abs(b))
  }

  lemma MulLe(x: int, y: int, c: int)
    requires c >= 0
    ensures x <= y ==> x * c <= y * c
  {
    assert x <= y ==> (y - x) * c >= 0;
  }

  lemma MulLtCancel(x: int, y: int, c: int)
    requires c > 0
    ensures x * c <= y * c ==> x <= y
  {
    MulLe(y + 1, x, c);
  }

  /** A quotient is known once the remainder is in range. */
  lemma DivIs(a: int, b: int, q: int)
    requires b > 0 && q * b <= a < (q + 1) * b
    ensures a / b == q
  {
    var d := a / b;
    assert d * b <= a < (d + 1) * b;
    MulLe(d + 1, q, b);
    MulLe(q + 1, d, b);
  }

  lemma DivMonotone(a: int, a': int, b: int)
    requires b > 0 && a <= a'
    ensures a / b <= a' / b
  {
    var d, d' := a / b, a' / b;
    assert d * b <= a && a' < (d' + 1) * b;
    MulLe(d' + 1, d, b);
  }

  lemma DivCancel(k: int, a: int, b: int)
    requires k > 0 && b > 0
    ensures k * b > 0 && (k * a) / (k * b) == a / b
  {
    var q, r := a / b, a % b;
    assert a == q * b + r;
    var kb := k * b;
    assert kb > 0;
    assert k * a == q * kb + k * r by {
      assert k * (q * b + r) == k * (q * b) + k * r;
      assert k * (q * b) == q * kb;
    }
    MulLe(r + 1, b, k);
    assert 0 <= k * r < kb;
    assert (q + 1) * kb == q * kb + kb;
    DivIs(k * a, kb, q);
  }

  // ----- the same for reals

  lemma RealMulLe(x: real, y: real, c: real)
    requires c >= 0.0
    ensures x <= y ==> x * c <= y * c
  {
    assert x <= y ==> (y - x) * c >= 0.0;
  }

  lemma RealMulLt(x: real, y: real, c: real)
    requires c > 0.0
    ensures x < y ==> x * c < y * c
  {
    assert x < y ==> (y - x) * c > 0.0;
  }

  lemma SquareGrows(p: real, q: real)
    requires p >= 0.0
    ensures p < q ==> p * p < q * q
  {
    var d, t := q - p, q + p;
    assert d > 0.0 && t > 0.0 ==> d * t > 0.0;
    assert d * t == q * q - p * p;
  }

  lemma SquareCompare(p: real, q: real)
    requires p >= 0.0 && q * q <= p * p
    ensures -p <= q <= p
  {
    SquareGrows(p, q);
    SquareGrows(p, -q);
    assert (-q) * (-q) == q * q;
  }

  lemma SquareIsZero(d: real)
    ensures d * d >= 0.0 && (d * d == 0.0 <==> d == 0.0)
  {
    SquareGrows(0.0, d);
    SquareGrows(0.0, -d);
    assert (-d) * (-d) == d * d;
  }

  lemma QuotientLe(n: real, d: real, k: real)
    requires d > 0.0
    ensures n <= k * d <==> n / d <= k
  {
    var q := n / d;
    assert q * d == n;
    RealMulLe(q, k, d);
    RealMulLt(k, q, d);
    assert q <= k || k < q;
  }

  lemma ProductIsZero(a: real, b: real)
    requires a >= 0.0 && b >= 0.0
    ensures a * b >= 0.0 && (a * b == 0.0 <==> a == 0.0 || b == 0.0)
  {
    if a > 0.0 && b > 0.0 { RealMulLt(0.0, a, b); }
  }
}
