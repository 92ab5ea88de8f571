/** What several modules share: optional values, the larger of two numbers, picking from a
    set, taking one element out of a sequence, and counting its elements. */
module Common {

  datatype Option<+T> = None | Some(value: T) {
    function GetOr(default: T): T {
      if Some? then value else default
    }
  }

  function Max(a: int, b: int): int {
    if a < b then b else a
  }

  lemma Pick<T>(s: set<T>) returns (x: T)
    requires s != {}
    ensures x in s
  {
    x :| x in s;
  }

  function Remove<T>(s: seq<T>, i: nat): seq<T>
    requires i < |s|
  {
    s[..i] + s[i + 1..]
  }

  lemma RemoveSnoc<T>(init: seq<T>, last: T, i: nat)
    requires i <= |init|
    ensures Remove(init + [last], i) == if i == |init| then init else Remove(init, i) + [last]
  {
  }

  lemma RemoveMultiset<T>(s: seq<T>, i: nat)
    requires i < |s|
    ensures multiset(Remove(s, i)) == multiset(s) - multiset{s[i]}
  {
    assert s == s[..i] + [s[i]] + s[i + 1..];
  }

  /** Where in a sequence something holds. */
  ghost function Places<T>(s: seq<T>, holds: T -> bool): set<int> {
    set i | 0 <= i < |s| && holds(s[i])
  }

  lemma PlacesSnoc<T>(s: seq<T>, x: T, holds: T -> bool)
    ensures |Places(s + [x], holds)| == |Places(s, holds)| + if holds(x) then 1 else 0
  {
    var more, n := s + [x], |s|;
    forall i
      ensures i in Places(more, holds) <==> i in Places(s, holds) || (holds(x) && i == n)
    {
      assert 0 <= i < n ==> more[i] == s[i];
    }
    assert Places(more, holds) == if holds(x) then Places(s, holds) + {n} else Places(s, holds);
  }

  lemma NoPlaces<T>(holds: T -> bool)
    ensures |Places([], holds)| == 0
  {
    assert Places([], holds) == {};
  }
}
