/** Batching stake addresses under a request body limit: `chunkStakeAddressesForAccountInfo`
    in src/services/governanceProvider.ts. */
module AccountInfoChunks {

  type Address = string

  /** How many bytes an address takes in the JSON body, quotes and escapes included, is left
      open; `frame` is the rest of the body of an empty list. */
  datatype BodySize = BodySize(frame: nat, width: Address -> nat) {
    function Items(addresses: seq<Address>): nat {
      if addresses == [] then 0
      else Items(addresses[..|addresses| - 1]) + width(addresses[|addresses| - 1])
    }

    /** The body's length: the frame, the items, and a comma between two items. */
    function Bytes(addresses: seq<Address>): nat {
      frame + Items(addresses) + if addresses == [] then 0 else |addresses| - 1
    }
  }

  // ----- what a good batching is

  function Concat(chunks: seq<seq<Address>>): seq<Address> {
    if chunks == [] then [] else Concat(chunks[..|chunks| - 1]) + chunks[|chunks| - 1]
  }

  /** A chunk may be sent: it is not empty, and it fits or cannot be made smaller. */
  predicate Sendable(b: BodySize, chunk: seq<Address>, limit: nat) {
    chunk != [] && (|chunk| == 1 || b.Bytes(chunk) <= limit)
  }

  ghost predicate Batching(b: BodySize, chunks: seq<seq<Address>>, addresses: seq<Address>, limit: nat) {
    && Concat(chunks) == addresses
    && forall i :: 0 <= i < |chunks| ==> Sendable(b, chunks[i], limit)
  }

  /** The non-empty addresses in order of first occurrence. */
  function Unique(addresses: seq<Address>): (r: seq<Address>)
    ensures forall i, j :: 0 <= i < j < |r| ==> r[i] != r[j]
    ensures forall a :: a in r <==> a in addresses && a != ""
  {
    if addresses == [] then []
    else
      var init, last := addresses[..|addresses| - 1], addresses[|addresses| - 1];
      var r := Unique(init);
      assert addresses == init + [last];
      if last == "" || last in r then r else r + [last]
  }

  /** First occurrences come first: the kept addresses of a prefix are a prefix of the kept ones. */
  lemma {:induction false} UniqueKeepsOrder(addresses: seq<Address>, n: nat)
    requires n <= |addresses|
    ensures Unique(addresses[..n]) <= Unique(addresses)
    decreases |addresses|
  {
    if n < |addresses| {
      UniqueKeepsOrder(addresses[..|addresses| - 1], n);
      assert addresses[..|addresses| - 1][..n] == addresses[..n];
    } else {
      assert addresses[..n] == addresses;
    }
  }

  /** The chunk that follows a closed chunk starts with an address that no longer fitted it. */
  ghost predicate ClosedLate(b: BodySize, chunks: seq<seq<Address>>, limit: nat) {
    forall i :: 0 <= i < |chunks| - 1 && chunks[i + 1] != [] ==> b.Bytes(chunks[i] + [chunks[i + 1][0]]) > limit
  }

  lemma ConcatSnoc(chunks: seq<seq<Address>>, chunk: seq<Address>)
    ensures Concat(chunks + [chunk]) == Concat(chunks) + chunk
  {
    assert (chunks + [chunk])[..|chunks|] == chunks;
  }

  /** The closed chunks and the open one after the first addresses were handled. */
  ghost predicate Building(b: BodySize, chunks: seq<seq<Address>>, current: seq<Address>, handled: seq<Address>,
                           limit: nat) {
    && Batching(b, chunks + [current], handled, limit)
    && ClosedLate(b, chunks + [current], limit)
  }

  lemma OpenFirst(b: BodySize, addr: Address, limit: nat)
    ensures Building(b, [], [addr], [addr], limit)
  {
    ConcatSnoc([], [addr]);
  }

  lemma CloseChunk(b: BodySize, chunks: seq<seq<Address>>, current: seq<Address>, handled: seq<Address>, addr: Address,
                   limit: nat)
    requires Building(b, chunks, current, handled, limit) && b.Bytes(current + [addr]) > limit
    ensures Building(b, chunks + [current], [addr], handled + [addr], limit)
  {
    var before, after := chunks + [current], chunks + [current] + [[addr]];
    ConcatSnoc(before, [addr]);
    forall i | 0 <= i < |after| - 1 && after[i + 1] != []
      ensures b.Bytes(after[i] + [after[i + 1][0]]) > limit
    {
      assert after[i] == before[i];
      assert i < |before| - 1 ==> after[i + 1] == before[i + 1];
    }
  }

  lemma GrowChunk(b: BodySize, chunks: seq<seq<Address>>, current: seq<Address>, handled: seq<Address>, addr: Address,
                  limit: nat)
    requires Building(b, chunks, current, handled, limit) && b.Bytes(current + [addr]) <= limit
    ensures Building(b, chunks, current + [addr], handled + [addr], limit)
  {
    var before, after := chunks + [current], chunks + [current + [addr]];
    ConcatSnoc(chunks, current);
    ConcatSnoc(chunks, current + [addr]);
    assert before[|chunks|] == current && current != [];
    forall i | 0 <= i < |after|
      ensures Sendable(b, after[i], limit)
    {
      assert i < |chunks| ==> after[i] == before[i];
    }
    forall i | 0 <= i < |after| - 1 && after[i + 1] != []
      ensures b.Bytes(after[i] + [after[i + 1][0]]) > limit
    {
      assert after[i] == before[i] && after[i + 1][0] == before[i + 1][0];
    }
  }

  /** No other batching under the limit needs fewer requests. */
  method ChunkStakeAddresses(b: BodySize, stakeAddresses: seq<Address>, maxBodyBytes: nat)
    returns (chunks: seq<seq<Address>>)
    ensures Batching(b, chunks, Unique(stakeAddresses), maxBodyBytes)
    ensures forall other :: Batching(b, other, Unique(stakeAddresses), maxBodyBytes) ==> |chunks| <= |other|
  {
    var unique := Unique(stakeAddresses);
    if |unique| == 0 {
      return [];
    }
    chunks := [];
    var current: seq<Address> := [];
    for i := 0 to |unique|
      invariant i == 0 ==> chunks == [] && current == []
      invariant i > 0 ==> current != [] && Building(b, chunks, current, unique[..i], maxBodyBytes)
    {
      var addr := unique[i];
      assert unique[..i + 1] == unique[..i] + [addr];
      var candidate := if |current| == 0 then [addr] else current + [addr];
      if |current| > 0 && b.Bytes(candidate) > maxBodyBytes {
        CloseChunk(b, chunks, current, unique[..i], addr, maxBodyBytes);
        chunks := chunks + [current];
        current := [addr];
      } else {
        if i == 0 {
          OpenFirst(b, addr, maxBodyBytes);
        } else {
          GrowChunk(b, chunks, current, unique[..i], addr, maxBodyBytes);
        }
        current := candidate;
      }
    }
    assert unique[..|unique|] == unique;
    if |current| > 0 {
      chunks := chunks + [current];
    }
    GreedyIsOptimal(b, chunks, unique, maxBodyBytes);
  }

  // ----- no batching uses fewer chunks

  lemma {:induction false} ItemsOfPart(b: BodySize, s: seq<Address>, lo: nat, hi: nat)
    requires lo <= hi <= |s|
    ensures b.Items(s[lo..hi]) <= b.Items(s)
    decreases |s|
  {
    if hi < |s| {
      ItemsOfPart(b, s[..|s| - 1], lo, hi);
      assert s[..|s| - 1][lo..hi] == s[lo..hi];
    } else if lo < hi {
      ItemsOfPart(b, s[..|s| - 1], lo, hi - 1);
      assert s[lo..hi][..hi - lo - 1] == s[lo..hi - 1];
      assert s[..|s| - 1][lo..hi - 1] == s[lo..hi - 1];
    }
  }

  /** A longer stretch of addresses never needs fewer bytes. */
  lemma BytesOfPart(b: BodySize, s: seq<Address>, lo: nat, hi: nat)
    requires lo < hi <= |s|
    ensures b.Bytes(s[lo..hi]) <= b.Bytes(s)
  {
    ItemsOfPart(b, s, lo, hi);
  }

  lemma {:induction false} ConcatHead(chunks: seq<seq<Address>>)
    requires chunks != []
    ensures Concat(chunks) == chunks[0] + Concat(chunks[1..])
  {
    if |chunks| == 1 {
      assert chunks[..0] == [] && chunks[1..] == [];
    } else {
      var init, last := chunks[..|chunks| - 1], chunks[|chunks| - 1];
      ConcatHead(init);
      ConcatSnoc(init[1..], last);
      assert init[1..] + [last] == chunks[1..];
      assert (chunks[0] + Concat(init[1..])) + last == chunks[0] + (Concat(init[1..]) + last);
    }
  }

  lemma AfterCut(front: seq<Address>, rest: seq<Address>, n: nat)
    requires n <= |front|
    ensures (front + rest)[n..] == (front + rest)[n..|front|] + rest
  {
  }

  lemma FirstIsClosedLate(b: BodySize, greedy: seq<seq<Address>>, limit: nat)
    requires ClosedLate(b, greedy, limit) && |greedy| > 1 && greedy[1] != []
    ensures b.Bytes(greedy[0] + [greedy[1][0]]) > limit
  {
    var i := 0;
    assert greedy[i + 1] != [];
  }

  /** The greedy chunks stay ahead: even if the other batching still has `lead` to send
      first, it needs at least as many chunks. */
  lemma {:induction false} StaysAhead(b: BodySize, greedy: seq<seq<Address>>, other: seq<seq<Address>>,
                                      lead: seq<Address>, limit: nat)
    requires ClosedLate(b, greedy, limit)
    requires forall i :: 0 <= i < |greedy| ==> greedy[i] != []
    requires forall i :: 0 <= i < |other| ==> Sendable(b, other[i], limit)
    requires Concat(other) == lead + Concat(greedy)
    ensures |greedy| <= |other|
    decreases |greedy|
  {
    hide ClosedLate;
    if greedy != [] {
      ConcatHead(greedy);
      assert other != [];
      ConcatHead(other);
      var g, o := greedy[0], other[0];
      var rest := Concat(greedy[1..]);
      var all := lead + (g + rest);
      assert all == o + Concat(other[1..]);
      if |o| <= |lead| + |g| {
        var lead' := all[|o|..|lead| + |g|];
        assert Concat(other[1..]) == all[|o|..];
        AfterCut(lead + g, rest, |o|);
        assert all == (lead + g) + rest;
        TailClosedLate(b, greedy, limit);
        StaysAhead(b, greedy[1..], other[1..], lead', limit);
      } else {
        assert |rest| > 0;
        FirstAddress(greedy[1..]);
        assert greedy[1..][0] == greedy[1];
        FirstIsClosedLate(b, greedy, limit);
        OverfullChunk(b, g, rest, o, lead, limit);
      }
    }
  }

  lemma TailClosedLate(b: BodySize, greedy: seq<seq<Address>>, limit: nat)
    requires ClosedLate(b, greedy, limit) && greedy != []
    ensures ClosedLate(b, greedy[1..], limit)
  {
    forall i | 0 <= i < |greedy[1..]| - 1 && greedy[1..][i + 1] != []
      ensures b.Bytes(greedy[1..][i] + [greedy[1..][i + 1][0]]) > limit
    {
      assert greedy[1..][i] == greedy[i + 1] && greedy[1..][i + 1] == greedy[i + 2];
    }
  }

  lemma FirstAddress(chunks: seq<seq<Address>>)
    requires forall i :: 0 <= i < |chunks| ==> chunks[i] != []
    requires Concat(chunks) != []
    ensures chunks != [] && Concat(chunks)[0] == chunks[0][0]
  {
    ConcatHead(chunks);
  }

  /** A chunk that covers a whole greedy chunk and the next address cannot be sent. */
  lemma OverfullChunk(b: BodySize, g: seq<Address>, tail: seq<Address>, o: seq<Address>, lead: seq<Address>, limit: nat)
    requires g != [] && |tail| > 0 && b.Bytes(g + [tail[0]]) > limit
    requires o <= lead + (g + tail) && |o| > |lead| + |g|
    ensures !Sendable(b, o, limit)
  {
    NextAddressCovered(o, lead, g, tail);
    BytesOfPart(b, o, |lead|, |lead| + |g| + 1);
  }

  lemma NextAddressCovered(o: seq<Address>, lead: seq<Address>, g: seq<Address>, tail: seq<Address>)
    requires |tail| > 0 && o <= lead + (g + tail) && |o| > |lead| + |g|
    ensures o[|lead|..|lead| + |g| + 1] == g + [tail[0]]
  {
    var all := lead + (g + tail);
    assert o == all[..|o|];
  }

  lemma GreedyIsOptimal(b: BodySize, greedy: seq<seq<Address>>, addresses: seq<Address>, limit: nat)
    requires Batching(b, greedy, addresses, limit) && ClosedLate(b, greedy, limit)
    ensures forall other :: Batching(b, other, addresses, limit) ==> |greedy| <= |other|
  {
    forall other | Batching(b, other, addresses, limit)
      ensures |greedy| <= |other|
    {
      assert [] + Concat(greedy) == Concat(greedy);
      StaysAhead(b, greedy, other, [], limit);
    }
  }
}
