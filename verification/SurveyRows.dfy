/** Which stored votes respond to a survey, read off the rows: the filter at the head of
    src/controllers/proposal/getProposalSurveyTally.ts. */
module SurveyRows {
  import opened Common
  import opened SurveyTypes
  import opened SurveyFinalization

  /** A row is of the DRep, pool or committee member whose id it stores, looked for in that order. */
  ghost predicate IsOf(row: OnchainVote, id: string) {
    || row.drepId == Some(id)
    || (row.drepId == None && row.spoId == Some(id))
    || (row.drepId == None && row.spoId == None && row.ccId == Some(id))
  }

  /** It stores a response, to this survey, of a voter with an id. */
  ghost predicate Responds(row: OnchainVote, surveyTxId: string) {
    && row.surveyResponse.Some? && row.surveyTxId == Some(surveyTxId)
    && exists id :: id != "" && IsOf(row, id)
  }

  /** The vote has the row's fields, and nothing else is known of it yet. */
  ghost predicate IsResponse(row: OnchainVote, surveyTxId: string, v: Vote) {
    && Responds(row, surveyTxId)
    && IsOf(row, v.voterId) && v.txHash == row.txHash && v.voterType == row.voterType
    && v.votingPower == row.votingPower && v.responseEpoch == row.responseEpoch && v.votedAt == row.votedAt
    && Some(v.payload) == row.surveyResponse
    && v.absoluteSlot == None && v.txBlockIndex == None && v.metadataPosition == None
    && v.responseCredential == None && v.evidence == None
    && v.snapshotWeight == None && v.snapshotWeightError == None
  }

  lemma IsOfIff(row: OnchainVote, id: string)
    ensures IsOf(row, id) <==> VoterIdOf(row) == Some(id)
  {
  }

  /** A row that responds gives its one vote, any other row none. */
  lemma SelectedOne(row: OnchainVote, surveyTxId: string)
    ensures var selected := SelectVotes([row], surveyTxId);
            if Responds(row, surveyTxId) then |selected| == 1 && IsResponse(row, surveyTxId, selected[0])
            else selected == []
  {
    if VoterIdOf(row).Some? {
      IsOfIff(row, VoterIdOf(row).value);
    }
    if id :| id != "" && IsOf(row, id) {
      IsOfIff(row, id);
    }
  }

  lemma OneResponse(row: OnchainVote, surveyTxId: string, v: Vote)
    ensures IsResponse(row, surveyTxId, v) <==> SelectVotes([row], surveyTxId) == [v]
  {
    SelectedOne(row, surveyTxId);
    if IsResponse(row, surveyTxId, v) {
      assert SelectVotes([row], surveyTxId)[0] == v;
    }
  }

  lemma SelectedCons(row: OnchainVote, rest: seq<OnchainVote>, surveyTxId: string)
    ensures SelectVotes([row] + rest, surveyTxId) == SelectVotes([row], surveyTxId) + SelectVotes(rest, surveyTxId)
    ensures |SelectVotes([row], surveyTxId)| <= 1
  {
    assert ([row] + rest)[1..] == rest;
  }

  lemma {:induction false} SelectedSnoc(rows: seq<OnchainVote>, row: OnchainVote, surveyTxId: string)
    ensures SelectVotes(rows + [row], surveyTxId) == SelectVotes(rows, surveyTxId) + SelectVotes([row], surveyTxId)
  {
    if rows == [] {
      assert rows + [row] == [row];
    } else {
      SelectedSnoc(rows[1..], row, surveyTxId);
      SelectedCons(rows[0], rows[1..], surveyTxId);
      SelectedCons(rows[0], rows[1..] + [row], surveyTxId);
      assert rows == [rows[0]] + rows[1..] && rows + [row] == [rows[0]] + (rows[1..] + [row]);
    }
  }

  /** The k-th vote is the response of the row at places[k]. */
  ghost predicate InOrder(rows: seq<OnchainVote>, surveyTxId: string, votes: seq<Vote>, places: seq<nat>) {
    && |places| == |votes|
    && (forall j, k :: 0 <= j < k < |places| ==> places[j] < places[k])
    && (forall k :: 0 <= k < |places| ==> places[k] < |rows| && IsResponse(rows[places[k]], surveyTxId, votes[k]))
    && (forall i :: 0 <= i < |rows| && Responds(rows[i], surveyTxId) ==> i in places)
  }

  lemma InOrderSnoc(rows: seq<OnchainVote>, row: OnchainVote, surveyTxId: string, votes: seq<Vote>, places: seq<nat>)
    returns (more: seq<nat>)
    requires InOrder(rows, surveyTxId, votes, places)
    ensures InOrder(rows + [row], surveyTxId, votes + SelectVotes([row], surveyTxId), more)
  {
    hide SelectVotes;
    SelectedOne(row, surveyTxId);
    hide Responds, IsResponse;
    var all := rows + [row];
    assert all[|rows|] == row && forall i :: 0 <= i < |rows| ==> all[i] == rows[i];
    if Responds(row, surveyTxId) {
      more := places + [|rows|];
      assert more[|places|] == |rows|;
      forall i | 0 <= i < |rows| && Responds(all[i], surveyTxId)
        ensures i in more
      {
        assert i in places;
      }
    } else {
      more := places;
      assert votes + [] == votes;
    }
  }

  /** The votes selected are the responses of the rows that respond, one each, in order. */
  lemma {:induction false} SelectedInOrder(rows: seq<OnchainVote>, surveyTxId: string) returns (places: seq<nat>)
    ensures InOrder(rows, surveyTxId, SelectVotes(rows, surveyTxId), places)
  {
    if rows == [] {
      places := [];
    } else {
      var init, last := rows[..|rows| - 1], rows[|rows| - 1];
      places := SelectedInOrder(init, surveyTxId);
      places := InOrderSnoc(init, last, surveyTxId, SelectVotes(init, surveyTxId), places);
      SelectedSnoc(init, last, surveyTxId);
      assert rows == init + [last];
    }
  }

  lemma SelectedAre(rows: seq<OnchainVote>, surveyTxId: string, v: Vote)
    ensures v in SelectVotes(rows, surveyTxId) <==> exists row :: row in rows && IsResponse(row, surveyTxId, v)
  {
    var selected := SelectVotes(rows, surveyTxId);
    var places := SelectedInOrder(rows, surveyTxId);
    hide SelectVotes;
    if v in selected {
      var k :| 0 <= k < |selected| && selected[k] == v;
      assert rows[places[k]] in rows;
    }
    if row :| row in rows && IsResponse(row, surveyTxId, v) {
      var i :| 0 <= i < |rows| && rows[i] == row;
      var k :| 0 <= k < |places| && places[k] == i;
      OneResponse(row, surveyTxId, v);
      OneResponse(row, surveyTxId, selected[k]);
    }
  }

  ghost function RespondsTo(surveyTxId: string): OnchainVote -> bool {
    row => Responds(row, surveyTxId)
  }

  /** Which rows respond. */
  ghost function Responding(rows: seq<OnchainVote>, surveyTxId: string): set<int> {
    Places(rows, RespondsTo(surveyTxId))
  }

  lemma {:induction false} SelectedCount(rows: seq<OnchainVote>, surveyTxId: string)
    ensures |SelectVotes(rows, surveyTxId)| == |Responding(rows, surveyTxId)|
  {
    if rows == [] {
      NoPlaces(RespondsTo(surveyTxId));
    } else {
      var init, last := rows[..|rows| - 1], rows[|rows| - 1];
      SelectedCount(init, surveyTxId);
      SelectedOne(last, surveyTxId);
      hide Responds, SelectVotes, Places;
      SelectedSnoc(init, last, surveyTxId);
      PlacesSnoc(init, last, RespondsTo(surveyTxId));
      assert rows == init + [last];
    }
  }
}
