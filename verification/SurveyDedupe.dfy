/** One response per voter: `compareVotes` and `dedupeVotes` in src/libs/surveyMetadata.ts. */
module SurveyDedupe {
  import opened Common
  import opened SurveyTypes

  // ----- the order of votes

  /** Comparing transaction hashes. For lower-case hexadecimal text, comparing character
      codes is the locale's order. */
  function CompareText(a: string, b: string): int {
    if a == [] || b == [] then |a| - |b|
    else if a[0] != b[0] then a[0] as int - b[0] as int
    else CompareText(a[1..], b[1..])
  }

  /** Positive when the left vote came later: by slot, by index in the block, by position in
      the metadata, by time, by transaction hash. */
  function CompareVotes(left: Vote, right: Vote): int {
    if left.absoluteSlot.GetOr(-1) != right.absoluteSlot.GetOr(-1) then
      left.absoluteSlot.GetOr(-1) - right.absoluteSlot.GetOr(-1)
    else if left.txBlockIndex.GetOr(-1) != right.txBlockIndex.GetOr(-1) then
      left.txBlockIndex.GetOr(-1) - right.txBlockIndex.GetOr(-1)
    else if left.metadataPosition.GetOr(0) != right.metadataPosition.GetOr(0) then
      left.metadataPosition.GetOr(0) - right.metadataPosition.GetOr(0)
    else if left.votedAt.GetOr(0) != right.votedAt.GetOr(0) then
      left.votedAt.GetOr(0) - right.votedAt.GetOr(0)
    else
      CompareText(left.txHash, right.txHash)
  }

  lemma {:induction false} TextOrder(a: string, b: string, c: string)
    ensures CompareText(a, b) < 0 <==> CompareText(b, a) > 0
    ensures CompareText(a, b) == 0 <==> a == b
    ensures CompareText(a, b) <= 0 && CompareText(b, c) <= 0 ==> CompareText(a, c) <= 0
  {
    if a != [] && b != [] && a[0] == b[0] {
      assert a == [a[0]] + a[1..] && b == [b[0]] + b[1..];
      if c != [] {
        TextOrder(a[1..], b[1..], c[1..]);
      } else {
        TextOrder(a[1..], b[1..], []);
      }
    }
  }

  /** A total preorder: votes are always comparable, and "no later than" is transitive. */
  lemma CompareIsTotalPreorder(a: Vote, b: Vote, c: Vote)
    ensures CompareVotes(a, b) < 0 <==> CompareVotes(b, a) > 0
    ensures CompareVotes(a, b) <= 0 && CompareVotes(b, c) <= 0 ==> CompareVotes(a, c) <= 0
    ensures CompareVotes(a, b) == 0 ==> a.txHash == b.txHash
  {
    TextOrder(a.txHash, b.txHash, c.txHash);
  }

  // ----- which vote is later

  /** One text comes after another: at the first place where they differ, or by going on longer. */
  ghost predicate TextAfter(a: string, b: string) {
    exists k: nat :: k < |a| && k <= |b| && a[..k] == b[..k] && (k < |b| ==> a[k] > b[k])
  }

  /** A vote is later by slot, else by index in the block, else by position in the metadata, else
      by time, else by transaction hash; an unknown slot or index comes before all known ones. */
  ghost predicate Later(u: Vote, v: Vote) {
    || SlotOf(u) > SlotOf(v)
    || (SlotOf(u) == SlotOf(v) && IndexOf(u) > IndexOf(v))
    || (SlotOf(u) == SlotOf(v) && IndexOf(u) == IndexOf(v) && PositionOf(u) > PositionOf(v))
    || (SamePlace(u, v) && TimeOf(u) > TimeOf(v))
    || (SamePlace(u, v) && TimeOf(u) == TimeOf(v) && TextAfter(u.txHash, v.txHash))
  }

  ghost predicate SamePlace(u: Vote, v: Vote) {
    SlotOf(u) == SlotOf(v) && IndexOf(u) == IndexOf(v) && PositionOf(u) == PositionOf(v)
  }

  ghost function SlotOf(v: Vote): int {
    match v.absoluteSlot case Some(slot) => slot case None => -1
  }

  ghost function IndexOf(v: Vote): int {
    match v.txBlockIndex case Some(index) => index case None => -1
  }

  ghost function PositionOf(v: Vote): int {
    match v.metadataPosition case Some(position) => position case None => 0
  }

  ghost function TimeOf(v: Vote): int {
    match v.votedAt case Some(time) => time case None => 0
  }

  lemma {:induction false} TextAfterIff(a: string, b: string)
    ensures CompareText(a, b) > 0 <==> TextAfter(a, b)
  {
    if a == [] {
    } else if b == [] {
      assert a[..0] == b[..0];
    } else if a[0] != b[0] {
      assert a[..0] == b[..0];
      if k: nat :| k < |a| && k <= |b| && a[..k] == b[..k] && (k < |b| ==> a[k] > b[k]) {
        assert k > 0 ==> a[..k][0] == b[..k][0];
      }
    } else {
      TextAfterIff(a[1..], b[1..]);
      TextAfterTail(a, b);
    }
  }

  lemma TextAfterTail(a: string, b: string)
    requires a != [] && b != [] && a[0] == b[0]
    ensures TextAfter(a, b) <==> TextAfter(a[1..], b[1..])
  {
    if k: nat :| k < |a| && k <= |b| && a[..k] == b[..k] && (k < |b| ==> a[k] > b[k]) {
      assert k > 0;
      assert a[1..][..k - 1] == a[..k][1..] == b[..k][1..] == b[1..][..k - 1];
    }
    var c, d := a[1..], b[1..];
    if k: nat :| k < |c| && k <= |d| && c[..k] == d[..k] && (k < |d| ==> c[k] > d[k]) {
      assert a[..k + 1] == [a[0]] + c[..k] == [b[0]] + d[..k] == b[..k + 1];
    }
  }

  /** The comparison is positive exactly for the later vote, and zero exactly if neither is later. */
  lemma CompareMeansLater(u: Vote, v: Vote)
    ensures CompareVotes(u, v) > 0 <==> Later(u, v)
    ensures CompareVotes(u, v) < 0 <==> Later(v, u)
  {
    TextAfterIff(u.txHash, v.txHash);
    TextAfterIff(v.txHash, u.txHash);
    TextOrder(u.txHash, v.txHash, v.txHash);
  }

  lemma CompareMeansLaterAll()
    ensures forall u, v :: Later(u, v) <==> CompareVotes(u, v) > 0
  {
    forall u, v
      ensures Later(u, v) <==> CompareVotes(u, v) > 0
    {
      CompareMeansLater(u, v);
    }
  }

  // ----- the deduplication

  function TypeName(v: VoterType): string {
    match v case DrepVoter => "DREP" case SpoVoter => "SPO" case CcVoter => "CC"
  }

  /** Who answers: the credential if known, else the voter. */
  function KeyOf(v: Vote): string {
    v.responseCredential.GetOr(TypeName(v.voterType) + ":" + v.voterId)
  }

  /** Offers a vote to the kept ones, which stand in the order in which their voters first came. */
  function Offer(kept: seq<Vote>, v: Vote): seq<Vote> {
    if kept == [] then [v]
    else if KeyOf(kept[0]) == KeyOf(v) then (if CompareVotes(v, kept[0]) > 0 then [v] + kept[1..] else kept)
    else [kept[0]] + Offer(kept[1..], v)
  }

  function Deduped(votes: seq<Vote>): seq<Vote> {
    if votes == [] then [] else Offer(Deduped(votes[..|votes| - 1]), votes[|votes| - 1])
  }

  /** The kept votes as a Map in insertion order. */
  ghost predicate Represents(order: seq<string>, latest: map<string, Vote>, kept: seq<Vote>) {
    && |order| == |kept|
    && (forall i :: 0 <= i < |order| ==>
       order[i] in latest && latest[order[i]] == kept[i] && KeyOf(kept[i]) == order[i])
    && (forall i, j :: 0 <= i < j < |order| ==> order[i] != order[j])
    && (forall k :: k in latest ==> k in order)
  }

  lemma {:induction false} OfferAt(kept: seq<Vote>, v: Vote, i: nat)
    requires i < |kept| && KeyOf(kept[i]) == KeyOf(v)
    requires forall k :: 0 <= k < i ==> KeyOf(kept[k]) != KeyOf(v)
    ensures Offer(kept, v) == if CompareVotes(v, kept[i]) > 0 then kept[i := v] else kept
  {
    hide KeyOf, CompareVotes, Later;
    if i > 0 {
      OfferAt(kept[1..], v, i - 1);
      assert kept == [kept[0]] + kept[1..];
      assert kept[i := v] == [kept[0]] + kept[1..][i - 1 := v];
    } else {
      assert kept[0 := v] == [v] + kept[1..];
    }
  }

  lemma {:induction false} OfferNew(kept: seq<Vote>, v: Vote)
    requires forall k :: 0 <= k < |kept| ==> KeyOf(kept[k]) != KeyOf(v)
    ensures Offer(kept, v) == kept + [v]
  {
    if kept != [] {
      OfferNew(kept[1..], v);
      assert kept + [v] == [kept[0]] + (kept[1..] + [v]);
    }
  }

  lemma RepresentsNew(order: seq<string>, latest: map<string, Vote>, kept: seq<Vote>, v: Vote)
    requires Represents(order, latest, kept) && KeyOf(v) !in latest
    ensures Represents(order + [KeyOf(v)], latest[KeyOf(v) := v], Offer(kept, v))
  {
    hide KeyOf, CompareVotes, Later;
    assert forall k :: 0 <= k < |kept| ==> KeyOf(kept[k]) == order[k] && order[k] in latest;
    OfferNew(kept, v);
    var order' := order + [KeyOf(v)];
    assert order'[|order|] == KeyOf(v);
    forall k | k in latest[KeyOf(v) := v]
      ensures k in order'
    {
      assert k == KeyOf(v) || k in order;
    }
  }

  lemma RepresentsReplaced(order: seq<string>, latest: map<string, Vote>, kept: seq<Vote>, v: Vote, i: nat)
    requires Represents(order, latest, kept) && i < |order| && order[i] == KeyOf(v)
    ensures Represents(order, latest[KeyOf(v) := v], kept[i := v])
  {
    hide KeyOf;
  }

  lemma RepresentsKnown(order: seq<string>, latest: map<string, Vote>, kept: seq<Vote>, v: Vote)
    requires Represents(order, latest, kept) && KeyOf(v) in latest
    ensures var latest' := if CompareVotes(v, latest[KeyOf(v)]) > 0 then latest[KeyOf(v) := v] else latest;
            Represents(order, latest', Offer(kept, v))
  {
    hide KeyOf, CompareVotes, Later;
    assert KeyOf(v) in order;
    var i :| 0 <= i < |order| && order[i] == KeyOf(v);
    assert KeyOf(kept[i]) == order[i] && latest[order[i]] == kept[i];
    assert forall k :: 0 <= k < i ==> KeyOf(kept[k]) == order[k] != order[i];
    OfferAt(kept, v, i);
    RepresentsReplaced(order, latest, kept, v, i);
  }

  method DedupeVotes(votes: seq<Vote>) returns (deduped: seq<Vote>)
    ensures deduped == Deduped(votes) && KeepsLatest(deduped, votes)
  {
    hide KeyOf, CompareVotes, KeepsLatest;
    DedupedKeepsLatest(votes);
    var order: seq<string> := [];
    var latest: map<string, Vote> := map[];
    for i := 0 to |votes|
      invariant Represents(order, latest, Deduped(votes[..i]))
    {
      assert votes[..i + 1][..i] == votes[..i];
      var v := votes[i];
      var key := KeyOf(v);
      if key !in latest {
        RepresentsNew(order, latest, Deduped(votes[..i]), v);
        order := order + [key];
        latest := latest[key := v];
      } else {
        RepresentsKnown(order, latest, Deduped(votes[..i]), v);
        if CompareVotes(v, latest[key]) > 0 {
          latest := latest[key := v];
        }
      }
    }
    assert votes[..|votes|] == votes;
    deduped := seq(|order|, i requires 0 <= i < |order| && order[i] in latest => latest[order[i]]);
  }

  /** Votes have the same key if they carry the same credential; without one, if they are of the
      same voter in the same role. */
  lemma SameKeyIff(u: Vote, v: Vote)
    requires u.responseCredential.Some? == v.responseCredential.Some?
    ensures KeyOf(u) == KeyOf(v) <==>
            if u.responseCredential.Some? then u.responseCredential == v.responseCredential
            else u.voterType == v.voterType && u.voterId == v.voterId
  {
    if u.responseCredential == None {
      var a, b := TypeName(u.voterType) + ":", TypeName(v.voterType) + ":";
      assert KeyOf(u) == a + u.voterId && KeyOf(v) == b + v.voterId;
      if a + u.voterId == b + v.voterId {
        assert (a + u.voterId)[0] == a[0] && (b + v.voterId)[0] == b[0];
        assert u.voterId == (a + u.voterId)[|a|..] && v.voterId == (b + v.voterId)[|b|..];
      }
    }
  }

  // ----- what is kept: each key's latest vote, once

  ghost predicate DistinctKeys(kept: seq<Vote>) {
    forall i, j :: 0 <= i < j < |kept| ==> KeyOf(kept[i]) != KeyOf(kept[j])
  }

  /** No vote of the same voter came later. */
  ghost predicate Latest(v: Vote, votes: seq<Vote>) {
    forall i :: 0 <= i < |votes| && KeyOf(votes[i]) == KeyOf(v) ==> !Later(votes[i], v)
  }

  ghost predicate HasKey(kept: seq<Vote>, key: string) {
    exists j :: 0 <= j < |kept| && KeyOf(kept[j]) == key
  }

  ghost predicate AllLatest(kept: seq<Vote>, votes: seq<Vote>) {
    forall i :: 0 <= i < |kept| ==> kept[i] in votes && Latest(kept[i], votes)
  }

  ghost predicate Covers(kept: seq<Vote>, votes: seq<Vote>) {
    forall i :: 0 <= i < |votes| ==> HasKey(kept, KeyOf(votes[i]))
  }

  ghost predicate KeepsLatest(kept: seq<Vote>, votes: seq<Vote>) {
    DistinctKeys(kept) && AllLatest(kept, votes) && Covers(kept, votes)
  }

  lemma LatestAfter(u: Vote, votes: seq<Vote>, v: Vote)
    requires Latest(u, votes)
    requires KeyOf(v) == KeyOf(u) ==> CompareVotes(v, u) <= 0
    ensures Latest(u, votes + [v])
  {
    CompareMeansLaterAll();
    hide KeyOf, CompareVotes, Later;
  }

  /** A vote that beats the latest so far is the latest. */
  lemma BeatsLatest(u: Vote, votes: seq<Vote>, v: Vote)
    requires Latest(u, votes) && KeyOf(v) == KeyOf(u) && CompareVotes(v, u) > 0
    ensures Latest(v, votes + [v])
  {
    CompareMeansLaterAll();
    hide KeyOf, CompareVotes, Later;
    CompareIsTotalPreorder(v, v, v);
    CompareIsTotalPreorder(u, v, v);
    forall i | 0 <= i < |votes| && KeyOf(votes[i]) == KeyOf(v)
      ensures !Later(votes[i], v)
    {
      CompareIsTotalPreorder(votes[i], u, v);
    }
  }

  lemma CoversAfter(kept: seq<Vote>, kept': seq<Vote>, votes: seq<Vote>, v: Vote)
    requires Covers(kept, votes) && |kept| <= |kept'| && HasKey(kept', KeyOf(v))
    requires forall i :: 0 <= i < |kept| ==> KeyOf(kept'[i]) == KeyOf(kept[i])
    ensures Covers(kept', votes + [v])
  {
    forall i | 0 <= i < |votes|
      ensures HasKey(kept', KeyOf(votes[i]))
    {
      assert HasKey(kept, KeyOf(votes[i]));
      var j :| 0 <= j < |kept| && KeyOf(kept[j]) == KeyOf(votes[i]);
      assert KeyOf(kept'[j]) == KeyOf(votes[i]);
    }
  }

  lemma KnownVoterKeeps(kept: seq<Vote>, votes: seq<Vote>, v: Vote, i: nat)
    requires KeepsLatest(kept, votes) && i < |kept| && KeyOf(kept[i]) == KeyOf(v)
    ensures KeepsLatest(if CompareVotes(v, kept[i]) > 0 then kept[i := v] else kept, votes + [v])
  {
    hide KeyOf, CompareVotes, Later;
    var kept' := if CompareVotes(v, kept[i]) > 0 then kept[i := v] else kept;
    assert KeyOf(kept'[i]) == KeyOf(v);
    CoversAfter(kept, kept', votes, v);
    forall j | 0 <= j < |kept'|
      ensures kept'[j] in votes + [v] && Latest(kept'[j], votes + [v])
    {
      assert kept[j] in votes && Latest(kept[j], votes);
      if j != i || CompareVotes(v, kept[i]) <= 0 {
        LatestAfter(kept[j], votes, v);
      } else {
        BeatsLatest(kept[i], votes, v);
        assert (votes + [v])[|votes|] == v;
      }
    }
  }

  lemma NewVoterKeeps(kept: seq<Vote>, votes: seq<Vote>, v: Vote)
    requires KeepsLatest(kept, votes) && !HasKey(kept, KeyOf(v))
    ensures KeepsLatest(kept + [v], votes + [v])
  {
    CompareMeansLaterAll();
    hide KeyOf, CompareVotes, Later;
    var kept' := kept + [v];
    assert KeyOf(kept'[|kept|]) == KeyOf(v);
    CoversAfter(kept, kept', votes, v);
    forall i | 0 <= i < |votes|
      ensures KeyOf(votes[i]) != KeyOf(v)
    {
      assert HasKey(kept, KeyOf(votes[i]));
    }
    CompareIsTotalPreorder(v, v, v);
    forall j | 0 <= j < |kept'|
      ensures kept'[j] in votes + [v] && Latest(kept'[j], votes + [v])
    {
      if j < |kept| {
        assert kept[j] in votes && Latest(kept[j], votes);
        LatestAfter(kept[j], votes, v);
      } else {
        assert (votes + [v])[|votes|] == v;
      }
    }
  }

  lemma OfferKeepsLatest(kept: seq<Vote>, votes: seq<Vote>, v: Vote)
    requires KeepsLatest(kept, votes)
    ensures KeepsLatest(Offer(kept, v), votes + [v])
  {
    if HasKey(kept, KeyOf(v)) {
      var i :| 0 <= i < |kept| && KeyOf(kept[i]) == KeyOf(v);
      OfferAt(kept, v, i);
      KnownVoterKeeps(kept, votes, v, i);
    } else {
      OfferNew(kept, v);
      NewVoterKeeps(kept, votes, v);
    }
  }

  lemma {:induction false} DedupedKeepsLatest(votes: seq<Vote>)
    ensures KeepsLatest(Deduped(votes), votes)
  {
    hide KeyOf, CompareVotes, Later;
    if votes == [] {
    } else {
      var init, v := votes[..|votes| - 1], votes[|votes| - 1];
      DedupedKeepsLatest(init);
      OfferKeepsLatest(Deduped(init), init, v);
      assert votes == init + [v];
      assert Deduped(votes) == Offer(Deduped(init), v);
    }
  }

  function Keys(votes: seq<Vote>): set<string> {
    set v | v in votes :: KeyOf(v)
  }

  lemma {:induction false} DistinctSize(kept: seq<Vote>)
    requires DistinctKeys(kept)
    ensures |Keys(kept)| == |kept|
  {
    hide KeyOf, CompareVotes, Later;
    if kept == [] {
      assert Keys(kept) == {};
    } else {
      var init, v := kept[..|kept| - 1], kept[|kept| - 1];
      DistinctSize(init);
      assert kept == init + [v];
      assert KeyOf(v) !in Keys(init);
      assert Keys(kept) == Keys(init) + {KeyOf(v)};
    }
  }

  lemma SameKeys(kept: seq<Vote>, votes: seq<Vote>)
    requires KeepsLatest(kept, votes)
    ensures Keys(kept) == Keys(votes)
  {
    hide KeyOf, CompareVotes, Later;
    forall k | k in Keys(votes)
      ensures k in Keys(kept)
    {
      var v :| v in votes && KeyOf(v) == k;
      var i :| 0 <= i < |votes| && votes[i] == v;
      assert HasKey(kept, KeyOf(votes[i]));
      var j :| 0 <= j < |kept| && KeyOf(kept[j]) == KeyOf(votes[i]);
      assert kept[j] in kept;
    }
  }

  /** As many votes are kept as there are keys. */
  lemma OneVotePerVoter(votes: seq<Vote>)
    ensures |Deduped(votes)| == |Keys(votes)|
  {
    DedupedKeepsLatest(votes);
    DistinctSize(Deduped(votes));
    SameKeys(Deduped(votes), votes);
  }

  // ----- keys and voters

  /** Two votes have the same key exactly if they are of the same voter. */
  ghost predicate KeysAreVoters(votes: seq<Vote>) {
    forall u, v :: u in votes && v in votes ==> (KeyOf(u) == KeyOf(v) <==> u.voterId == v.voterId)
  }

  /** No voter is kept twice, and none is lost. */
  ghost predicate OnePerVoter(votes: seq<Vote>) {
    var kept := Deduped(votes);
    && (forall i, j :: 0 <= i < j < |kept| ==> kept[i].voterId != kept[j].voterId)
    && (forall v :: v in votes ==> exists k :: k in kept && k.voterId == v.voterId)
  }

  ghost predicate From<T>(some: seq<T>, all: seq<T>) {
    forall x :: x in some ==> x in all
  }

  lemma OnePerVoterIf(votes: seq<Vote>)
    requires KeysAreVoters(votes)
    ensures OnePerVoter(votes)
  {
    hide KeyOf, CompareVotes, Later;
    var kept := Deduped(votes);
    DedupedKeepsLatest(votes);
    forall i, j | 0 <= i < j < |kept|
      ensures kept[i].voterId != kept[j].voterId
    {
      assert kept[i] in votes && kept[j] in votes && KeyOf(kept[i]) != KeyOf(kept[j]);
    }
    forall v | v in votes
      ensures exists k :: k in kept && k.voterId == v.voterId
    {
      var i :| 0 <= i < |votes| && votes[i] == v;
      assert HasKey(kept, KeyOf(votes[i]));
      var j :| 0 <= j < |kept| && KeyOf(kept[j]) == KeyOf(v);
      assert kept[j] in kept && kept[j] in votes;
    }
  }

  lemma PairKept(u: Vote, v: Vote)
    ensures Deduped([u, v]) == if KeyOf(u) != KeyOf(v) then [u, v] else if CompareVotes(v, u) > 0 then [v] else [u]
  {
    hide KeyOf, CompareVotes, Later;
    assert [] + [u] == [u] && [u] + [v] == [u, v];
    DedupedSnoc([], u);
    DedupedSnoc([u], v);
    if KeyOf(u) != KeyOf(v) {
      OfferNew([u], v);
    } else {
      OfferAt([u], v, 0);
    }
  }

  lemma PairNeedsKeys(u: Vote, v: Vote)
    requires OnePerVoter([u, v])
    ensures KeyOf(u) == KeyOf(v) <==> u.voterId == v.voterId
  {
    hide KeyOf, CompareVotes, Later;
    PairKept(u, v);
    var kept := Deduped([u, v]);
    if KeyOf(u) == KeyOf(v) {
      assert u in [u, v] && v in [u, v];
      assert forall k :: k in kept ==> k == kept[0];
    } else {
      assert kept[0] == u && kept[1] == v;
    }
  }

  /** Whichever of the votes are accepted, one per voter is kept if and only if keys are voters. */
  lemma OnePerVoterIff(votes: seq<Vote>)
    ensures KeysAreVoters(votes) <==> forall some :: From(some, votes) ==> OnePerVoter(some)
  {
    if KeysAreVoters(votes) {
      forall some | From(some, votes)
        ensures OnePerVoter(some)
      {
        assert KeysAreVoters(some);
        OnePerVoterIf(some);
      }
    }
    if forall some :: From(some, votes) ==> OnePerVoter(some) {
      forall u, v | u in votes && v in votes && u != v
        ensures KeyOf(u) == KeyOf(v) <==> u.voterId == v.voterId
      {
        assert From([u, v], votes);
        PairNeedsKeys(u, v);
      }
    }
  }

  // ----- when the order of the votes does not matter

  /** No voter has two different votes that both came last. */
  ghost predicate UniqueLatest(votes: seq<Vote>) {
    forall v, w :: v in votes && w in votes && KeyOf(v) == KeyOf(w) && Latest(v, votes) && Latest(w, votes) ==> v == w
  }

  lemma SameMembers(votes: seq<Vote>, other: seq<Vote>)
    requires multiset(votes) == multiset(other)
    ensures forall v :: v in votes <==> v in other
    ensures forall v :: Latest(v, votes) <==> Latest(v, other)
  {
    forall v
      ensures v in votes <==> v in other
    {
      assert v in votes <==> v in multiset(votes);
      assert v in other <==> v in multiset(other);
    }
    forall v
      ensures Latest(v, votes) <==> Latest(v, other)
    {
      assert forall i :: 0 <= i < |votes| ==> votes[i] in other;
      assert forall i :: 0 <= i < |other| ==> other[i] in votes;
    }
  }

  lemma {:induction false} DistinctMultiset(kept: seq<Vote>, v: Vote)
    requires DistinctKeys(kept)
    ensures multiset(kept)[v] == if v in kept then 1 else 0
  {
    if kept == [] {
    } else {
      var init, last := kept[..|kept| - 1], kept[|kept| - 1];
      DistinctMultiset(init, v);
      assert kept == init + [last];
      assert forall i :: 0 <= i < |init| ==> init[i] == kept[i];
    }
  }

  lemma KeptByBoth(votes: seq<Vote>, other: seq<Vote>, v: Vote)
    requires multiset(votes) == multiset(other) && UniqueLatest(votes)
    requires v in Deduped(votes)
    ensures v in Deduped(other)
  {
    SameMembers(votes, other);
    DedupedKeepsLatest(votes);
    DedupedKeepsLatest(other);
    var d := Deduped(other);
    assert v in votes && Latest(v, votes);
    assert v in other;
    var i :| 0 <= i < |other| && other[i] == v;
    assert HasKey(d, KeyOf(other[i]));
    var j :| 0 <= j < |d| && KeyOf(d[j]) == KeyOf(v);
    assert d[j] in other && Latest(d[j], other);
    assert d[j] in votes && Latest(d[j], votes);
  }

  /** If no voter has a tie at the top, every reordering of the votes keeps the same votes. */
  lemma {:induction false} SameVotesKept(votes: seq<Vote>, other: seq<Vote>)
    requires multiset(votes) == multiset(other) && UniqueLatest(votes)
    ensures multiset(Deduped(votes)) == multiset(Deduped(other))
  {
    SameMembers(votes, other);
    DedupedKeepsLatest(votes);
    DedupedKeepsLatest(other);
    forall v
      ensures multiset(Deduped(votes))[v] == multiset(Deduped(other))[v]
    {
      DistinctMultiset(Deduped(votes), v);
      DistinctMultiset(Deduped(other), v);
      if v in Deduped(votes) { KeptByBoth(votes, other, v); }
      if v in Deduped(other) { KeptByBoth(other, votes, v); }
    }
  }

  /** Of tied votes, the one that comes first is kept. */
  lemma {:induction false} FirstOfTiesStays(v: Vote, rest: seq<Vote>)
    requires Latest(v, rest)
    ensures Deduped([v] + rest) != [] && Deduped([v] + rest)[0] == v
  {
    CompareMeansLaterAll();
    hide KeyOf, CompareVotes, Later;
    if rest == [] {
      assert [v] + rest == [v];
      assert [v][..0] == [];
    } else {
      var init, last := rest[..|rest| - 1], rest[|rest| - 1];
      FirstOfTiesStays(v, init);
      assert ([v] + rest)[..|rest|] == [v] + init;
      assert ([v] + rest)[|rest|] == last;
    }
  }

  lemma VoteFirst(votes: seq<Vote>, v: Vote) returns (rest: seq<Vote>)
    requires v in votes && Latest(v, votes)
    ensures multiset([v] + rest) == multiset(votes) && Latest(v, rest)
  {
    hide KeyOf, CompareVotes, Later;
    var i :| 0 <= i < |votes| && votes[i] == v;
    rest := votes[..i] + votes[i + 1..];
    assert votes == votes[..i] + [v] + votes[i + 1..];
    assert forall j :: 0 <= j < |rest| ==> rest[j] == votes[if j < i then j else j + 1];
  }

  ghost predicate SameKeptAnyOrder(votes: seq<Vote>) {
    forall other :: multiset(other) == multiset(votes) ==> multiset(Deduped(other)) == multiset(Deduped(votes))
  }

  lemma KeptInOther(votes: seq<Vote>, other: seq<Vote>, v: Vote)
    requires SameKeptAnyOrder(votes) && multiset(other) == multiset(votes)
    requires v in Deduped(other)
    ensures v in Deduped(votes)
  {
    assert v in multiset(Deduped(other));
  }

  lemma LatestIsKept(votes: seq<Vote>, v: Vote)
    requires v in votes && Latest(v, votes) && SameKeptAnyOrder(votes)
    ensures v in Deduped(votes)
  {
    var rest := VoteFirst(votes, v);
    FirstOfTiesStays(v, rest);
    KeptInOther(votes, [v] + rest, v);
  }

  lemma NeverKeptTwice(votes: seq<Vote>, v: Vote, w: Vote)
    requires v in Deduped(votes) && w in Deduped(votes) && KeyOf(v) == KeyOf(w)
    ensures v == w
  {
    hide KeyOf, CompareVotes, Later;
    DedupedKeepsLatest(votes);
  }

  lemma AnyOrderMeansNoTies(votes: seq<Vote>)
    requires SameKeptAnyOrder(votes)
    ensures UniqueLatest(votes)
  {
    forall v, w | v in votes && w in votes && KeyOf(v) == KeyOf(w) && Latest(v, votes) && Latest(w, votes)
      ensures v == w
    {
      LatestIsKept(votes, v);
      LatestIsKept(votes, w);
      NeverKeptTwice(votes, v, w);
    }
  }

  /** The order of the votes is irrelevant to what is kept exactly when no voter has two
      different votes that compare equal at the top. */
  lemma OrderIrrelevantIff(votes: seq<Vote>)
    ensures SameKeptAnyOrder(votes) <==> UniqueLatest(votes)
  {
    if SameKeptAnyOrder(votes) {
      AnyOrderMeansNoTies(votes);
    } else if UniqueLatest(votes) {
      forall other | multiset(other) == multiset(votes)
        ensures multiset(Deduped(other)) == multiset(Deduped(votes))
      {
        SameVotesKept(votes, other);
      }
    }
  }

  /** What ingestion stores for each pool that votes in one transaction: the transaction's response. */
  function PoolVote(voterId: string): Vote {
    var response := Response(SURVEY_SPEC_VERSION, "survey", Some(SPO), [Answer("q", Some([0]), None, None)]);
    Vote("tx", SpoVoter, voterId, None, Some(400), Some(1000), Bare(response), Some(7), Some(0), Some(0), Some("first"),
         None, None, None)
  }

  /** Two pools that vote in one transaction carry the credential of its first entry: of their
      two votes the one that is listed first is kept. */
  lemma OrderCanMatter()
    ensures var a, b := PoolVote("pool1"), PoolVote("pool2");
            && multiset([a, b]) == multiset([b, a])
            && Deduped([a, b]) == [a] && Deduped([b, a]) == [b] && a != b
  {
    var a, b := PoolVote("pool1"), PoolVote("pool2");
    CompareIsTotalPreorder(a, b, a);
    TextOrder("tx", "tx", "tx");
    PairKept(a, b);
    PairKept(b, a);
  }

  // ----- a later vote replaces an earlier one

  /** Offering v after u, or before it, is the same if v beats every rival with its key. */
  lemma {:induction false} OffersCommute(kept: seq<Vote>, u: Vote, v: Vote)
    requires HasKey(kept, KeyOf(v))
    requires forall i :: 0 <= i < |kept| && KeyOf(kept[i]) == KeyOf(v) ==> Later(v, kept[i])
    requires KeyOf(u) == KeyOf(v) ==> Later(v, u)
    ensures Offer(Offer(kept, u), v) == Offer(Offer(kept, v), u)
    decreases |kept|
  {
    CompareMeansLaterAll();
    hide KeyOf, CompareVotes, Later;
    if KeyOf(kept[0]) == KeyOf(v) {
      CompareIsTotalPreorder(u, v, v);
    } else {
      var i :| 0 <= i < |kept| && KeyOf(kept[i]) == KeyOf(v);
      assert KeyOf(kept[1..][i - 1]) == KeyOf(v);
      OffersCommute(kept[1..], u, v);
    }
  }

  /** The votes that are kept when more are offered. */
  function OfferAll(kept: seq<Vote>, votes: seq<Vote>): seq<Vote>
    decreases |votes|
  {
    if votes == [] then kept else OfferAll(Offer(kept, votes[0]), votes[1..])
  }

  lemma DedupedSnoc(votes: seq<Vote>, v: Vote)
    ensures Deduped(votes + [v]) == Offer(Deduped(votes), v)
  {
    assert (votes + [v])[..|votes|] == votes;
  }

  lemma ShiftOne<T>(first: seq<T>, second: seq<T>)
    requires second != []
    ensures (first + [second[0]]) + second[1..] == first + second
  {
  }

  lemma {:induction false} DedupedInTwo(first: seq<Vote>, second: seq<Vote>)
    ensures Deduped(first + second) == OfferAll(Deduped(first), second)
    decreases |second|
  {
    if second == [] {
      assert first + second == first;
    } else {
      DedupedInTwo(first + [second[0]], second[1..]);
      ShiftOne(first, second);
      DedupedSnoc(first, second[0]);
    }
  }

  ghost predicate Beats(v: Vote, votes: seq<Vote>) {
    forall i :: 0 <= i < |votes| && KeyOf(votes[i]) == KeyOf(v) ==> Later(v, votes[i])
  }

  lemma {:induction false} BeatsKept(v: Vote, kept: seq<Vote>, u: Vote)
    requires Beats(v, kept) && (KeyOf(u) == KeyOf(v) ==> Later(v, u))
    ensures Beats(v, Offer(kept, u))
    ensures HasKey(kept, KeyOf(v)) || KeyOf(u) == KeyOf(v) ==> HasKey(Offer(kept, u), KeyOf(v))
    decreases |kept|
  {
    CompareMeansLaterAll();
    hide KeyOf, CompareVotes, Later;
    if kept == [] {
      assert KeyOf(Offer(kept, u)[0]) == KeyOf(u);
    } else {
      var offered := Offer(kept, u);
      assert KeyOf(offered[0]) == KeyOf(kept[0]);
      if KeyOf(kept[0]) != KeyOf(u) {
        var tail := kept[1..];
        assert forall i :: 0 <= i < |tail| ==> tail[i] == kept[i + 1];
        BeatsKept(v, tail, u);
        assert offered == [kept[0]] + Offer(tail, u);
        HasKeyCons(kept[0], tail, KeyOf(v));
        HasKeyCons(kept[0], Offer(tail, u), KeyOf(v));
        assert kept == [kept[0]] + tail;
      } else {
        HasKeyCons(kept[0], kept[1..], KeyOf(v));
        HasKeyCons(offered[0], kept[1..], KeyOf(v));
        assert kept == [kept[0]] + kept[1..] && offered == [offered[0]] + kept[1..];
      }
    }
  }

  lemma HasKeyCons(head: Vote, tail: seq<Vote>, key: string)
    ensures HasKey([head] + tail, key) <==> KeyOf(head) == key || HasKey(tail, key)
  {
    var all := [head] + tail;
    assert KeyOf(all[0]) == KeyOf(head);
    assert forall i :: 0 <= i < |tail| ==> all[i + 1] == tail[i];
    if HasKey(all, key) && KeyOf(head) != key {
      var i :| 0 <= i < |all| && KeyOf(all[i]) == key;
      assert KeyOf(tail[i - 1]) == key;
    }
    if HasKey(tail, key) {
      var i :| 0 <= i < |tail| && KeyOf(tail[i]) == key;
      assert KeyOf(all[i + 1]) == key;
    }
  }

  lemma {:induction false} LastOfferCommutes(kept: seq<Vote>, votes: seq<Vote>, v: Vote)
    requires HasKey(kept, KeyOf(v)) && Beats(v, kept) && Beats(v, votes)
    ensures Offer(OfferAll(kept, votes), v) == OfferAll(Offer(kept, v), votes)
    decreases |votes|
  {
    CompareMeansLaterAll();
    hide KeyOf, CompareVotes, Later;
    if votes != [] {
      OffersCommute(kept, votes[0], v);
      BeatsKept(v, kept, votes[0]);
      assert forall i :: 0 <= i < |votes| - 1 ==> votes[1..][i] == votes[i + 1];
      LastOfferCommutes(Offer(kept, votes[0]), votes[1..], v);
    }
  }

  /** A vote that beats the one offered before it makes that one count for nothing. */
  lemma {:induction false} OfferTwice(kept: seq<Vote>, u: Vote, v: Vote)
    requires KeyOf(u) == KeyOf(v) && Beats(v, kept) && Later(v, u)
    ensures Offer(Offer(kept, u), v) == Offer(kept, v)
    decreases |kept|
  {
    CompareMeansLaterAll();
    hide KeyOf, CompareVotes, Later;
    if kept != [] && KeyOf(kept[0]) != KeyOf(u) {
      assert forall i :: 0 <= i < |kept| - 1 ==> kept[1..][i] == kept[i + 1];
      OfferTwice(kept[1..], u, v);
      assert Offer(kept, u) == [kept[0]] + Offer(kept[1..], u);
    }
  }

  lemma BeatsWhatIsKept(v: Vote, votes: seq<Vote>)
    requires Beats(v, votes)
    ensures Beats(v, Deduped(votes))
  {
    hide KeyOf, CompareVotes, Later;
    DedupedKeepsLatest(votes);
    forall i | 0 <= i < |Deduped(votes)| && KeyOf(Deduped(votes)[i]) == KeyOf(v)
      ensures Later(v, Deduped(votes)[i])
    {
      assert Deduped(votes)[i] in votes;
    }
  }

  lemma RevoteInThreeParts(before: seq<Vote>, u: Vote, after: seq<Vote>, v: Vote)
    requires KeyOf(u) == KeyOf(v) && Beats(v, before) && Beats(v, after) && Later(v, u)
    ensures Deduped(((before + [u]) + after) + [v]) == Deduped((before + [v]) + after)
  {
    var d := Deduped(before);
    DedupedSnoc(before, u);
    DedupedSnoc(before, v);
    DedupedInTwo(before + [u], after);
    DedupedInTwo(before + [v], after);
    DedupedSnoc((before + [u]) + after, v);
    BeatsWhatIsKept(v, before);
    OfferTwice(d, u, v);
    BeatsKept(v, d, u);
    LastOfferCommutes(Offer(d, u), after, v);
  }

  lemma ThreeParts<T>(s: seq<T>, i: nat, x: T)
    requires i < |s|
    ensures (s[..i] + [s[i]]) + s[i + 1..] == s
    ensures (s[..i] + [x]) + s[i + 1..] == s[i := x]
  {
  }

  /** Appending a later vote of a voter is the same as putting it in place of any one of that
      voter's earlier votes: the same votes are kept, in the same order. */
  lemma {:induction false} RevoteReplaces(votes: seq<Vote>, i: nat, v: Vote)
    requires i < |votes| && KeyOf(votes[i]) == KeyOf(v) && Beats(v, votes)
    ensures Deduped(votes + [v]) == Deduped(votes[i := v])
  {
    CompareMeansLaterAll();
    hide KeyOf, CompareVotes, Later;
    var before, u, after := votes[..i], votes[i], votes[i + 1..];
    ThreeParts(votes, i, v);
    assert Beats(v, before) && Beats(v, after) by {
      assert forall k :: 0 <= k < |after| ==> after[k] == votes[k + i + 1];
    }
    RevoteInThreeParts(before, u, after, v);
  }
}
