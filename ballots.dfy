// Ballot casting: validate every selection, then insert one vote row per
// selection inside one transaction.
module Ballots {
  import opened Wrappers
  import opened EvotingTables

  datatype Selection = Selection(positionId: int, candidateId: int)

  datatype BallotInput = BallotInput(voter: string, electionId: int, ballot: seq<Selection>)

  datatype BallotError =
    | VoterAndElectionRequired
    | BallotEmpty
    | ElectionMissing
    | ElectionNotActive
    | PositionNotInElection
    | DuplicatePositionPick
    | CandidateNotInPosition
    | DuplicateVote
    | ForeignKeyFailed

  /** posInElection: the ids of the election's positions. */
  function ElectionPositionIds(ps: seq<Position>, electionId: int): set<int>
  {
    set k | 0 <= k < |ps| && ps[k].electionId == electionId :: ps[k].id
  }

  /** The verdict of the selection loop on `sels`, given the positions
      already picked earlier on the ballot. */
  function SelectionError(posIds: set<int>, cs: seq<Candidate>, sels: seq<Selection>, seen: set<int>): Option<BallotError>
    decreases |sels|
  {
    if |sels| == 0 then None
    else
      var s := sels[0];
      if s.positionId !in posIds then Some(PositionNotInElection)
      else if s.positionId in seen then Some(DuplicatePositionPick)
      else if !CandidateInPosition(cs, s.candidateId, s.positionId) then Some(CandidateNotInPosition)
      else SelectionError(posIds, cs, sels[1..], seen + {s.positionId})
  }

  /** Every selection names a position of the election and a candidate of
      that position, and no position is picked twice. */
  predicate WellFormedSelections(posIds: set<int>, cs: seq<Candidate>, sels: seq<Selection>)
  {
    (forall k :: 0 <= k < |sels| ==> sels[k].positionId in posIds)
    && (forall k :: 0 <= k < |sels| ==> CandidateInPosition(cs, sels[k].candidateId, sels[k].positionId))
    && (forall i, j :: 0 <= i < j < |sels| ==> sels[i].positionId != sels[j].positionId)
  }

  /** The selection loop accepts exactly the well-formed selections that
      avoid the positions already seen. */
  lemma {:induction false} SelectionErrorNoneIff(posIds: set<int>, cs: seq<Candidate>, sels: seq<Selection>, seen: set<int>)
    ensures SelectionError(posIds, cs, sels, seen).None? <==>
      WellFormedSelections(posIds, cs, sels) && forall k :: 0 <= k < |sels| ==> sels[k].positionId !in seen
    decreases |sels|
  {
    if |sels| > 0 {
      var s := sels[0];
      SelectionErrorNoneIff(posIds, cs, sels[1..], seen + {s.positionId});
      if SelectionError(posIds, cs, sels, seen).None? {
        forall i, j | 0 <= i < j < |sels| ensures sels[i].positionId != sels[j].positionId {
          if i > 0 { assert sels[1..][i - 1] == sels[i]; }
          assert sels[1..][j - 1] == sels[j];
        }
        forall k | 0 <= k < |sels| ensures sels[k].positionId in posIds && sels[k].positionId !in seen
          && CandidateInPosition(cs, sels[k].candidateId, sels[k].positionId)
        {
          if k > 0 { assert sels[1..][k - 1] == sels[k]; }
        }
      }
      if WellFormedSelections(posIds, cs, sels) && forall k :: 0 <= k < |sels| ==> sels[k].positionId !in seen {
        forall k | 0 <= k < |sels[1..]| ensures sels[1..][k].positionId !in seen + {s.positionId} {
          assert sels[1..][k] == sels[k + 1];
        }
      }
    }
  }

  /** Validation before the transaction (the checks of CastBallot up to the
      selection loop). */
  function ValidateBallot(es: seq<Election>, ps: seq<Position>, cs: seq<Candidate>, input: BallotInput): Option<BallotError>
  {
    if input.electionId == 0 || input.voter == "" then Some(VoterAndElectionRequired)
    else if |input.ballot| == 0 then Some(BallotEmpty)
    else match ElectionIndex(es, input.electionId)
      case None => Some(ElectionMissing)
      case Some(k) =>
        if es[k].status != Active then Some(ElectionNotActive)
        else SelectionError(ElectionPositionIds(ps, input.electionId), cs, input.ballot, {})
  }

  /** A ballot passes validation iff voter and election are given, it is
      non-empty, the election exists and is active, and its selections are
      well formed. */
  lemma ValidateBallotNoneIff(es: seq<Election>, ps: seq<Position>, cs: seq<Candidate>, input: BallotInput)
    ensures ValidateBallot(es, ps, cs, input).None? <==>
      input.electionId != 0 && input.voter != "" && |input.ballot| > 0
      && ElectionIndex(es, input.electionId).Some?
      && es[ElectionIndex(es, input.electionId).value].status == Active
      && WellFormedSelections(ElectionPositionIds(ps, input.electionId), cs, input.ballot)
  {
    SelectionErrorNoneIff(ElectionPositionIds(ps, input.electionId), cs, input.ballot, {});
  }

  /** The rows the transaction inserts, one per selection, in ballot order. */
  function NewVotes(voter: string, sels: seq<Selection>, firstId: int): seq<Vote>
  {
    seq(|sels|, k requires 0 <= k < |sels| => Vote(firstId + k, voter, sels[k].positionId, sels[k].candidateId))
  }

  /** The insert loop's verdict, stated without the loop: for a validated
      ballot, a voter who is not a user fails the foreign key, and a
      position the voter already voted for fails UNIQUE(voter, position). */
  function InsertError(users: seq<User>, vs: seq<Vote>, input: BallotInput): Option<BallotError>
  {
    if !IsUser(users, input.voter) then Some(ForeignKeyFailed)
    else if exists k :: 0 <= k < |input.ballot| && HasVoted(vs, input.voter, input.ballot[k].positionId) then Some(DuplicateVote)
    else None
  }

  /** CastBallot: validation errors insert nothing; otherwise all votes are
      inserted in one transaction, which is rolled back on a duplicate
      (voter, position) or a dangling voter reference. On success the count
      is the number of selections, each selection has its vote row, and the
      database invariants (one vote per voter and position, the candidate
      belongs to the position) still hold. */
  method CastBallot(db: Database, input: BallotInput) returns (count: int, err: Option<BallotError>)
    requires db.Valid()
    modifies db
    ensures db.Valid()
    ensures db.elections == old(db.elections) && db.positions == old(db.positions)
    ensures db.candidates == old(db.candidates) && db.users == old(db.users) && db.credentials == old(db.credentials)
    ensures db.nextElectionId == old(db.nextElectionId) && db.nextPositionId == old(db.nextPositionId)
    ensures db.nextCandidateId == old(db.nextCandidateId)
    ensures var v := ValidateBallot(db.elections, db.positions, db.candidates, input);
      if v.Some? then
        err == v && count == 0 && db.votes == old(db.votes) && db.nextVoteId == old(db.nextVoteId)
      else if InsertError(db.users, old(db.votes), input).Some? then
        err == InsertError(db.users, old(db.votes), input) && count == 0
        && db.votes == old(db.votes) && db.nextVoteId == old(db.nextVoteId)
      else
        err == None && count == |input.ballot|
        && db.votes == old(db.votes) + NewVotes(input.voter, input.ballot, old(db.nextVoteId))
        && db.nextVoteId == old(db.nextVoteId) + |input.ballot|
    ensures err.None? ==> forall k :: 0 <= k < |input.ballot| ==> HasVoted(db.votes, input.voter, input.ballot[k].positionId)
  {
    if input.electionId == 0 || input.voter == "" {
      return 0, Some(VoterAndElectionRequired);
    }
    if |input.ballot| == 0 {
      return 0, Some(BallotEmpty);
    }
    var ek := ElectionIndex(db.elections, input.electionId);
    if ek.None? {
      return 0, Some(ElectionMissing);
    }
    if db.elections[ek.value].status != Active {
      return 0, Some(ElectionNotActive);
    }
    var posIds := ElectionPositionIds(db.positions, input.electionId);
    var seen: set<int> := {};
    var i := 0;
    while i < |input.ballot|
      invariant 0 <= i <= |input.ballot|
      invariant SelectionError(posIds, db.candidates, input.ballot, {})
                == SelectionError(posIds, db.candidates, input.ballot[i..], seen)
    {
      var sel := input.ballot[i];
      assert input.ballot[i..][1..] == input.ballot[i + 1..];
      if sel.positionId !in posIds {
        return 0, Some(PositionNotInElection);
      }
      if sel.positionId in seen {
        return 0, Some(DuplicatePositionPick);
      }
      seen := seen + {sel.positionId};
      if !CandidateInPosition(db.candidates, sel.candidateId, sel.positionId) {
        return 0, Some(CandidateNotInPosition);
      }
      i := i + 1;
    }
    SelectionErrorNoneIff(posIds, db.candidates, input.ballot, {});
    err, count := InsertVotes(db, input);
  }

  /** The transaction of CastBallot, for a ballot that passed validation. */
  method InsertVotes(db: Database, input: BallotInput) returns (err: Option<BallotError>, count: int)
    requires db.Valid()
    requires |input.ballot| > 0
    requires WellFormedSelections(ElectionPositionIds(db.positions, input.electionId), db.candidates, input.ballot)
    modifies db
    ensures db.Valid()
    ensures db.elections == old(db.elections) && db.positions == old(db.positions)
    ensures db.candidates == old(db.candidates) && db.users == old(db.users) && db.credentials == old(db.credentials)
    ensures db.nextElectionId == old(db.nextElectionId) && db.nextPositionId == old(db.nextPositionId)
    ensures db.nextCandidateId == old(db.nextCandidateId)
    ensures if InsertError(db.users, old(db.votes), input).Some? then
        err == InsertError(db.users, old(db.votes), input) && count == 0
        && db.votes == old(db.votes) && db.nextVoteId == old(db.nextVoteId)
      else
        err == None && count == |input.ballot|
        && db.votes == old(db.votes) + NewVotes(input.voter, input.ballot, old(db.nextVoteId))
        && db.nextVoteId == old(db.nextVoteId) + |input.ballot|
    ensures err.None? ==> forall k :: 0 <= k < |input.ballot| ==> HasVoted(db.votes, input.voter, input.ballot[k].positionId)
  {
    var ok, votes, next, inserted := InsertLoop(db.votes, db.users, db.nextVoteId, input);
    if !ok.None? {
      return ok, 0;
    }
    InsertKeepsInvariants(db.votes, db.users, db.candidates, db.nextVoteId, input);
    db.votes, db.nextVoteId := votes, next;
    err, count := None, inserted;
  }

  /** The insert loop over the transaction's copy of the votes table. */
  method InsertLoop(vs: seq<Vote>, users: seq<User>, nextId: int, input: BallotInput)
    returns (err: Option<BallotError>, votes: seq<Vote>, next: int, inserted: int)
    requires |input.ballot| > 0
    requires forall k :: 0 <= k < |vs| ==> IsUser(users, vs[k].voter)
    requires forall i, j :: 0 <= i < j < |input.ballot| ==> input.ballot[i].positionId != input.ballot[j].positionId
    ensures err == InsertError(users, vs, input)
    ensures err.None? ==> votes == vs + NewVotes(input.voter, input.ballot, nextId)
                          && next == nextId + |input.ballot| && inserted == |input.ballot|
  {
    votes, next, inserted := vs, nextId, 0;
    var i := 0;
    while i < |input.ballot|
      invariant 0 <= i <= |input.ballot|
      invariant votes == vs + NewVotes(input.voter, input.ballot[..i], nextId)
      invariant next == nextId + i && inserted == i
      invariant forall j :: 0 <= j < i ==> !HasVoted(vs, input.voter, input.ballot[j].positionId)
      invariant i > 0 ==> IsUser(users, input.voter)
    {
      var sel := input.ballot[i];
      var added := NewVotes(input.voter, input.ballot[..i], nextId);
      assert forall k :: 0 <= k < |added| ==> added[k].positionId != sel.positionId;
      if HasVoted(votes, input.voter, sel.positionId) {
        assert HasVoted(vs, input.voter, sel.positionId);
        return Some(DuplicateVote), votes, next, inserted;
      }
      if !IsUser(users, input.voter) {
        return Some(ForeignKeyFailed), votes, next, inserted;
      }
      assert forall k :: 0 <= k < |vs| ==> votes[k] == vs[k];
      assert !HasVoted(vs, input.voter, sel.positionId);
      assert NewVotes(input.voter, input.ballot[..i + 1], nextId)
             == added + [Vote(next, input.voter, sel.positionId, sel.candidateId)];
      votes := votes + [Vote(next, input.voter, sel.positionId, sel.candidateId)];
      next, inserted := next + 1, inserted + 1;
      i := i + 1;
    }
    assert input.ballot[..i] == input.ballot;
    err := None;
  }

  /** Appending the new rows keeps every invariant of the votes table. */
  lemma InsertKeepsInvariants(vs: seq<Vote>, users: seq<User>, cs: seq<Candidate>, nextId: int, input: BallotInput)
    requires VoteIdsIncreasing(vs) && forall k :: 0 <= k < |vs| ==> vs[k].id < nextId
    requires forall i, j :: 0 <= i < j < |vs| ==> !(vs[i].voter == vs[j].voter && vs[i].positionId == vs[j].positionId)
    requires forall k :: 0 <= k < |vs| ==> IsUser(users, vs[k].voter)
    requires forall k :: 0 <= k < |vs| ==> CandidateInPosition(cs, vs[k].candidateId, vs[k].positionId)
    requires forall k :: 0 <= k < |input.ballot| ==> CandidateInPosition(cs, input.ballot[k].candidateId, input.ballot[k].positionId)
    requires forall i, j :: 0 <= i < j < |input.ballot| ==> input.ballot[i].positionId != input.ballot[j].positionId
    requires InsertError(users, vs, input).None?
    ensures var all := vs + NewVotes(input.voter, input.ballot, nextId);
      VoteIdsIncreasing(all)
      && (forall k :: 0 <= k < |all| ==> all[k].id < nextId + |input.ballot|)
      && (forall i, j :: 0 <= i < j < |all| ==> !(all[i].voter == all[j].voter && all[i].positionId == all[j].positionId))
      && (forall k :: 0 <= k < |all| ==> IsUser(users, all[k].voter))
      && (forall k :: 0 <= k < |all| ==> CandidateInPosition(cs, all[k].candidateId, all[k].positionId))
      && (forall k :: 0 <= k < |input.ballot| ==> HasVoted(all, input.voter, input.ballot[k].positionId))
  {
    var added := NewVotes(input.voter, input.ballot, nextId);
    var all := vs + added;
    forall i, j | 0 <= i < j < |all|
      ensures !(all[i].voter == all[j].voter && all[i].positionId == all[j].positionId)
    {
      if j >= |vs| && i < |vs| {
        var k := j - |vs|;
        assert !HasVoted(vs, input.voter, input.ballot[k].positionId);
      }
    }
    forall k | 0 <= k < |input.ballot| ensures HasVoted(all, input.voter, input.ballot[k].positionId) {
      assert all[|vs| + k] == added[k];
    }
  }
}
