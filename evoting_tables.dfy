// The e-voting server's SQLite tables, held in memory. Each table is a
// sequence of rows in insertion order; ids come from a per-table counter,
// so table order is ascending id order (what `ORDER BY id` returns).
module EvotingTables {
  import opened Wrappers

  const NotStarted: string := "not_started"
  const Active: string := "active"
  const Closed: string := "closed"

  /** A row of `elections`; the dates are Unix seconds once set. */
  datatype Election = Election(id: int, name: string, district: string, officialId: string,
                               status: string, startDate: Option<int>, endDate: Option<int>)

  /** A row of `positions`; `winner` is the nullable winner_candidate_id. */
  datatype Position = Position(id: int, name: string, electionId: int, winner: Option<int>)

  /** A row of `candidates`. */
  datatype Candidate = Candidate(id: int, name: string, party: string, positionId: int)

  /** A row of `votes`. */
  datatype Vote = Vote(id: int, voter: string, positionId: int, candidateId: int)

  /** A row of `users`. */
  datatype User = User(id: string, firstName: string, lastName: string, dob: string)

  /** A row of `credentials`. */
  datatype Credential = Credential(userId: string, passwordHash: string, role: string)

  predicate ElectionIdsIncreasing(es: seq<Election>)
  {
    forall i, j :: 0 <= i < j < |es| ==> es[i].id < es[j].id
  }

  predicate PositionIdsIncreasing(ps: seq<Position>)
  {
    forall i, j :: 0 <= i < j < |ps| ==> ps[i].id < ps[j].id
  }

  predicate CandidateIdsIncreasing(cs: seq<Candidate>)
  {
    forall i, j :: 0 <= i < j < |cs| ==> cs[i].id < cs[j].id
  }

  predicate VoteIdsIncreasing(vs: seq<Vote>)
  {
    forall i, j :: 0 <= i < j < |vs| ==> vs[i].id < vs[j].id
  }

  /** The row `SELECT ... FROM elections WHERE id = ?` finds, by index. */
  function ElectionIndex(es: seq<Election>, id: int): (r: Option<nat>)
    ensures r.Some? ==> r.value < |es| && es[r.value].id == id
    ensures r.None? ==> forall k :: 0 <= k < |es| ==> es[k].id != id
  {
    if |es| == 0 then None
    else if es[|es| - 1].id == id then Some(|es| - 1)
    else ElectionIndex(es[..|es| - 1], id)
  }

  predicate IsUser(users: seq<User>, id: string)
  {
    exists k :: 0 <= k < |users| && users[k].id == id
  }

  /** `SELECT 1 FROM candidates WHERE id = ? AND position_id = ?` finds a row. */
  predicate CandidateInPosition(cs: seq<Candidate>, candidateId: int, positionId: int)
  {
    exists k :: 0 <= k < |cs| && cs[k].id == candidateId && cs[k].positionId == positionId
  }

  /** Some vote of `voter` for `positionId` exists: the UNIQUE(voter_user_id,
      position_id) constraint would reject another. */
  predicate HasVoted(vs: seq<Vote>, voter: string, positionId: int)
  {
    exists k :: 0 <= k < |vs| && vs[k].voter == voter && vs[k].positionId == positionId
  }

  /** Vote rows that name one of the given candidates. */
  function VotesFor(vs: seq<Vote>, candidateId: int): (n: nat)
    ensures n <= |vs|
    ensures n == 0 <==> forall k :: 0 <= k < |vs| ==> vs[k].candidateId != candidateId
  {
    if |vs| == 0 then 0
    else VotesFor(vs[..|vs| - 1], candidateId) + (if vs[|vs| - 1].candidateId == candidateId then 1 else 0)
  }

  /** Primary keys ascend in table order and stay below their counters;
      positions and candidates only refer to rows that were created;
      votes satisfy UNIQUE(voter, position), their voter is a user and
      their candidate belongs to their position; every credentials row
      belongs to a user. */
  ghost predicate TablesValid(elections: seq<Election>, positions: seq<Position>, candidates: seq<Candidate>,
                              votes: seq<Vote>, users: seq<User>, credentials: seq<Credential>,
                              nextElectionId: int, nextPositionId: int, nextCandidateId: int, nextVoteId: int)
  {
    ElectionIdsIncreasing(elections) && PositionIdsIncreasing(positions)
    && CandidateIdsIncreasing(candidates) && VoteIdsIncreasing(votes)
    && (forall k :: 0 <= k < |elections| ==> elections[k].id < nextElectionId)
    && (forall k :: 0 <= k < |positions| ==> positions[k].id < nextPositionId)
    && (forall k :: 0 <= k < |candidates| ==> candidates[k].id < nextCandidateId)
    && (forall k :: 0 <= k < |votes| ==> votes[k].id < nextVoteId)
    && (forall k :: 0 <= k < |positions| ==> positions[k].electionId < nextElectionId)
    && (forall k :: 0 <= k < |candidates| ==> candidates[k].positionId < nextPositionId)
    && (forall i, j :: 0 <= i < j < |votes| ==>
          !(votes[i].voter == votes[j].voter && votes[i].positionId == votes[j].positionId))
    && (forall k :: 0 <= k < |votes| ==> IsUser(users, votes[k].voter))
    && (forall k :: 0 <= k < |votes| ==>
          CandidateInPosition(candidates, votes[k].candidateId, votes[k].positionId))
    && (forall k :: 0 <= k < |credentials| ==> IsUser(users, credentials[k].userId))
  }

  class Database {
    var elections: seq<Election>
    var positions: seq<Position>
    var candidates: seq<Candidate>
    var votes: seq<Vote>
    var users: seq<User>
    var credentials: seq<Credential>
    var nextElectionId: int
    var nextPositionId: int
    var nextCandidateId: int
    var nextVoteId: int

    /** The tables' invariants hold of the current contents. */
    ghost predicate Valid()
      reads this
    {
      TablesValid(elections, positions, candidates, votes, users, credentials,
                  nextElectionId, nextPositionId, nextCandidateId, nextVoteId)
    }

    /** An empty database. */
    constructor ()
      ensures Valid()
      ensures elections == [] && positions == [] && candidates == [] && votes == []
      ensures users == [] && credentials == []
    {
      elections, positions, candidates, votes := [], [], [], [];
      users, credentials := [], [];
      nextElectionId, nextPositionId, nextCandidateId, nextVoteId := 1, 1, 1, 1;
    }
  }
}
