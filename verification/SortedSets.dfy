/** The elements of a finite set of integers in ascending order, as a sort of Map keys gives them. */
module SortedSets {
  import opened Common

  ghost predicate StrictlyAscending(s: seq<int>) {
    forall i, j :: 0 <= i < j < |s| ==> s[i] < s[j]
  }

  predicate IsMin(m: int, s: set<int>) {
    m in s && forall y :: y in s ==> m <= y
  }

  lemma MinExists(s: set<int>)
    requires s != {}
    ensures exists m :: IsMin(m, s)
    decreases |s|
  {
    var m := Pick(s);
    var rest := s - {m};
    if rest != {} {
      MinExists(rest);
      var m' :| IsMin(m', rest);
      if m' < m { m := m'; }
    }
    forall y | y in s
      ensures m <= y
    {
      assert y in rest || y !in rest;
    }
    assert IsMin(m, s);
  }

  function Min(s: set<int>): (m: int)
    requires s != {}
    ensures IsMin(m, s)
  {
    MinExists(s);
    assert forall x, y :: IsMin(x, s) && IsMin(y, s) ==> x == y;
    var m :| m in s && IsMin(m, s);
    m
  }

  /** The keys of a map in ascending order. */
  function SortedKeys(keys: set<int>): (r: seq<int>)
    ensures StrictlyAscending(r)
    ensures forall k :: k in keys ==> k in r
    ensures forall i :: 0 <= i < |r| ==> r[i] in keys
  {
    if keys == {} then []
    else
      var m := Min(keys);
      var rest := SortedKeys(keys - {m});
      assert forall k :: k in keys ==> k == m || k in keys - {m};
      [m] + rest
  }
}
