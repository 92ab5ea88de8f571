/** Sums of a real-valued function over a sequence. */
module Sums {
  import opened Common

  function Sum<T>(s: seq<T>, f: T -> real): real {
    if s == [] then 0.0 else Sum(s[..|s| - 1], f) + f(s[|s| - 1])
  }

  lemma SumSnoc<T>(s: seq<T>, x: T, f: T -> real)
    ensures Sum(s + [x], f) == Sum(s, f) + f(x)
  {
    assert (s + [x])[..|s|] == s;
  }

  lemma {:induction false} SumRemove<T>(s: seq<T>, i: nat, f: T -> real)
    requires i < |s|
    ensures Sum(s, f) == Sum(Remove(s, i), f) + f(s[i])
  {
    var init, last := s[..|s| - 1], s[|s| - 1];
    if i == |s| - 1 {
      assert Remove(s, i) == init;
    } else {
      SumRemove(init, i, f);
      SumSnoc(Remove(init, i), last, f);
      assert Remove(s, i) == Remove(init, i) + [last];
    }
  }

  /** The order does not matter. */
  lemma {:induction false} SumPermutation<T>(s: seq<T>, t: seq<T>, f: T -> real)
    requires multiset(s) == multiset(t)
    ensures Sum(s, f) == Sum(t, f)
  {
    if s == [] {
      assert |t| == |multiset(t)| == 0;
    } else {
      var last := s[|s| - 1];
      assert last in multiset(s);
      assert last in t;
      var i :| 0 <= i < |t| && t[i] == last;
      RemoveMultiset(s, |s| - 1);
      RemoveMultiset(t, i);
      SumPermutation(Remove(s, |s| - 1), Remove(t, i), f);
      SumRemove(s, |s| - 1, f);
      SumRemove(t, i, f);
    }
  }

  lemma {:induction false} SumLe<T>(s: seq<T>, f: T -> real, g: T -> real)
    requires forall i :: 0 <= i < |s| ==> f(s[i]) <= g(s[i])
    ensures Sum(s, f) <= Sum(s, g)
  {
    if s == [] {
    } else {
      SumLe(s[..|s| - 1], f, g);
    }
  }

  lemma SumSame<T>(s: seq<T>, f: T -> real, g: T -> real)
    requires forall i :: 0 <= i < |s| ==> f(s[i]) == g(s[i])
    ensures Sum(s, f) == Sum(s, g)
  {
    SumLe(s, f, g);
    SumLe(s, g, f);
  }

  lemma {:induction false} SumAdd<T>(s: seq<T>, f: T -> real, g: T -> real, h: T -> real)
    requires forall i :: 0 <= i < |s| ==> h(s[i]) == f(s[i]) + g(s[i])
    ensures Sum(s, h) == Sum(s, f) + Sum(s, g)
  {
    if s == [] {
    } else {
      SumAdd(s[..|s| - 1], f, g, h);
    }
  }

  lemma {:induction false} SumScale<T>(s: seq<T>, k: real, f: T -> real, g: T -> real)
    requires forall i :: 0 <= i < |s| ==> g(s[i]) == k * f(s[i])
    ensures Sum(s, g) == k * Sum(s, f)
  {
    if s == [] {
    } else {
      SumScale(s[..|s| - 1], k, f, g);
    }
  }

  lemma {:induction false} SumNonNegative<T>(s: seq<T>, f: T -> real)
    requires forall i :: 0 <= i < |s| ==> 0.0 <= f(s[i])
    ensures 0.0 <= Sum(s, f)
    ensures Sum(s, f) == 0.0 <==> forall i :: 0 <= i < |s| ==> f(s[i]) == 0.0
  {
    if s == [] {
    } else {
      SumNonNegative(s[..|s| - 1], f);
      assert forall i :: 0 <= i < |s| - 1 ==> s[..|s| - 1][i] == s[i];
    }
  }

  lemma {:induction false} SumConst<T>(s: seq<T>, k: real, f: T -> real)
    requires forall i :: 0 <= i < |s| ==> f(s[i]) == k
    ensures Sum(s, f) == k * |s| as real
  {
    if s == [] {
    } else {
      SumConst(s[..|s| - 1], k, f);
    }
  }
}
