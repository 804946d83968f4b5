// CreateElectionWithStructure: validate an election's structure, then insert
// the election, its positions and their candidates as one transaction.
module ElectionCreation {
  import opened Wrappers
  import opened Text
  import opened EvotingTables
  import ElectionManagement
  import GetElection

  datatype CandidateInput = CandidateInput(name: string, party: string)

  datatype PositionInput = PositionInput(name: string, candidates: seq<CandidateInput>)

  datatype ElectionInput = ElectionInput(name: string, district: string, officialId: string, positions: seq<PositionInput>)

  datatype CreationError =
    | TooFewPositions
    | PositionNameRequired
    | TooFewCandidates(position: string)
    | CandidateNameRequired(position: string)
    | CandidatePartyRequired(position: string)
    | ForeignKeyFailed

  const MinPositions := 3
  const MinCandidates := 2

  /** Nothing but white space: what `strings.TrimSpace(s) == ""` tests. */
  predicate Blank(s: string)
  {
    forall k :: 0 <= k < |s| ==> IsSpace(s[k])
  }

  /** Blank is the trimmed-empty test. */
  lemma BlankIsTrimmedEmpty(s: string)
    ensures Blank(s) <==> TrimSpace(s) == ""
  {
    TrimSpaceEmptyIff(s);
  }

  /** The first candidate check that fails for a position, in input order. */
  function CandidateError(position: string, cands: seq<CandidateInput>): Option<CreationError>
    decreases |cands|
  {
    if |cands| == 0 then None
    else if Blank(cands[0].name) then Some(CandidateNameRequired(position))
    else if Blank(cands[0].party) then Some(CandidatePartyRequired(position))
    else CandidateError(position, cands[1..])
  }

  /** The first position check that fails, in input order. */
  function PositionError(ps: seq<PositionInput>): Option<CreationError>
    decreases |ps|
  {
    if |ps| == 0 then None
    else if Blank(ps[0].name) then Some(PositionNameRequired)
    else if |ps[0].candidates| < MinCandidates then Some(TooFewCandidates(ps[0].name))
    else match CandidateError(ps[0].name, ps[0].candidates)
      case Some(e) => Some(e)
      case None => PositionError(ps[1..])
  }

  /** The validation that runs before the transaction opens. */
  function ValidateElection(input: ElectionInput): Option<CreationError>
  {
    if |input.positions| < MinPositions then Some(TooFewPositions)
    else PositionError(input.positions)
  }

  predicate WellFormedCandidate(c: CandidateInput)
  {
    !Blank(c.name) && !Blank(c.party)
  }

  predicate WellFormedPosition(p: PositionInput)
  {
    !Blank(p.name) && |p.candidates| >= MinCandidates
    && forall j :: 0 <= j < |p.candidates| ==> WellFormedCandidate(p.candidates[j])
  }

  /** At least 3 positions, each named, each with at least 2 candidates that
      have a name and a party. */
  predicate WellFormedElection(input: ElectionInput)
  {
    |input.positions| >= MinPositions
    && forall k :: 0 <= k < |input.positions| ==> WellFormedPosition(input.positions[k])
  }

  lemma {:induction false} CandidateErrorNoneIff(position: string, cands: seq<CandidateInput>)
    ensures CandidateError(position, cands).None? <==> forall j :: 0 <= j < |cands| ==> WellFormedCandidate(cands[j])
    decreases |cands|
  {
    if |cands| > 0 {
      var rest := cands[1..];
      CandidateErrorNoneIff(position, rest);
      if forall j :: 0 <= j < |rest| ==> WellFormedCandidate(rest[j]) {
        if WellFormedCandidate(cands[0]) {
          forall j | 0 <= j < |cands| ensures WellFormedCandidate(cands[j]) {
            if j > 0 { assert cands[j] == rest[j - 1]; }
          }
        }
      } else {
        var j :| 0 <= j < |rest| && !WellFormedCandidate(rest[j]);
        assert cands[j + 1] == rest[j];
      }
    }
  }

  lemma {:induction false} PositionErrorNoneIff(ps: seq<PositionInput>)
    ensures PositionError(ps).None? <==> forall k :: 0 <= k < |ps| ==> WellFormedPosition(ps[k])
    decreases |ps|
  {
    if |ps| > 0 {
      CandidateErrorNoneIff(ps[0].name, ps[0].candidates);
      PositionErrorNoneIff(ps[1..]);
      AllPositionsSplit(ps);
    }
  }

  /** Every position is well formed exactly when the first one and all the
      rest are. */
  lemma AllPositionsSplit(ps: seq<PositionInput>)
    requires |ps| > 0
    ensures (forall k :: 0 <= k < |ps| ==> WellFormedPosition(ps[k]))
            <==> WellFormedPosition(ps[0]) && forall k :: 0 <= k < |ps[1..]| ==> WellFormedPosition(ps[1..][k])
  {
    var rest := ps[1..];
    if WellFormedPosition(ps[0]) && forall k :: 0 <= k < |rest| ==> WellFormedPosition(rest[k]) {
      forall k | 0 <= k < |ps| ensures WellFormedPosition(ps[k]) {
        if k > 0 { assert ps[k] == rest[k - 1]; }
      }
    }
  }

  /** Validation passes exactly for well-formed elections. */
  lemma ValidateElectionNoneIff(input: ElectionInput)
    ensures ValidateElection(input).None? <==> WellFormedElection(input)
  {
    PositionErrorNoneIff(input.positions);
  }

  /** Candidate rows of one position, ids counting up from `firstId`. */
  function CandidateRowsFor(cands: seq<CandidateInput>, positionId: int, firstId: int): seq<Candidate>
  {
    seq(|cands|, j requires 0 <= j < |cands| => Candidate(firstId + j, cands[j].name, cands[j].party, positionId))
  }

  function CandidateCount(ps: seq<PositionInput>): nat
  {
    if |ps| == 0 then 0 else CandidateCount(ps[..|ps| - 1]) + |ps[|ps| - 1].candidates|
  }

  /** The position rows the transaction inserts, in input order. */
  function NewPositions(ps: seq<PositionInput>, electionId: int, firstId: int): seq<Position>
  {
    seq(|ps|, k requires 0 <= k < |ps| => Position(firstId + k, ps[k].name, electionId, None))
  }

  /** The candidate rows the transaction inserts: position by position, in
      input order. */
  function NewCandidates(ps: seq<PositionInput>, firstPositionId: int, firstId: int): seq<Candidate>
  {
    if |ps| == 0 then []
    else
      var init := ps[..|ps| - 1];
      NewCandidates(init, firstPositionId, firstId)
      + CandidateRowsFor(ps[|ps| - 1].candidates, firstPositionId + |init|, firstId + CandidateCount(init))
  }

  /** The inserted candidate rows have ascending ids from `firstId` and name
      one of the inserted positions. */
  lemma {:induction false} NewCandidatesBounds(ps: seq<PositionInput>, firstPositionId: int, firstId: int)
    ensures var rows := NewCandidates(ps, firstPositionId, firstId);
      |rows| == CandidateCount(ps)
      && CandidateIdsIncreasing(rows)
      && (forall k :: 0 <= k < |rows| ==> firstId <= rows[k].id < firstId + CandidateCount(ps))
      && (forall k :: 0 <= k < |rows| ==> firstPositionId <= rows[k].positionId < firstPositionId + |ps|)
  {
    if |ps| > 0 {
      NewCandidatesBounds(ps[..|ps| - 1], firstPositionId, firstId);
    }
  }

  /** The transaction's inserts, on copies of the position and candidate
      tables: one position row per input position, and after each its
      candidate rows. */
  method InsertStructure(ps: seq<PositionInput>, electionId: int, firstPositionId: int, firstCandidateId: int)
    returns (positionRows: seq<Position>, candidateRows: seq<Candidate>, nextPositionId: int, nextCandidateId: int)
    ensures positionRows == NewPositions(ps, electionId, firstPositionId)
    ensures candidateRows == NewCandidates(ps, firstPositionId, firstCandidateId)
    ensures nextPositionId == firstPositionId + |ps|
    ensures nextCandidateId == firstCandidateId + CandidateCount(ps)
  {
    positionRows, candidateRows := [], [];
    nextPositionId, nextCandidateId := firstPositionId, firstCandidateId;
    var i := 0;
    while i < |ps|
      invariant 0 <= i <= |ps|
      invariant positionRows == NewPositions(ps[..i], electionId, firstPositionId)
      invariant candidateRows == NewCandidates(ps[..i], firstPositionId, firstCandidateId)
      invariant nextPositionId == firstPositionId + i
      invariant nextCandidateId == firstCandidateId + CandidateCount(ps[..i])
    {
      var p := ps[i];
      var positionId := nextPositionId;
      positionRows := positionRows + [Position(positionId, p.name, electionId, None)];
      nextPositionId := nextPositionId + 1;
      var base := candidateRows;
      var j := 0;
      while j < |p.candidates|
        invariant 0 <= j <= |p.candidates|
        invariant candidateRows == base + CandidateRowsFor(p.candidates[..j], positionId, firstCandidateId + CandidateCount(ps[..i]))
        invariant nextCandidateId == firstCandidateId + CandidateCount(ps[..i]) + j
      {
        var c := p.candidates[j];
        assert CandidateRowsFor(p.candidates[..j + 1], positionId, firstCandidateId + CandidateCount(ps[..i]))
               == CandidateRowsFor(p.candidates[..j], positionId, firstCandidateId + CandidateCount(ps[..i]))
                  + [Candidate(nextCandidateId, c.name, c.party, positionId)];
        candidateRows := candidateRows + [Candidate(nextCandidateId, c.name, c.party, positionId)];
        nextCandidateId := nextCandidateId + 1;
        j := j + 1;
      }
      assert p.candidates[..j] == p.candidates;
      assert ps[..i + 1][..i] == ps[..i];
      assert NewPositions(ps[..i + 1], electionId, firstPositionId)
             == NewPositions(ps[..i], electionId, firstPositionId) + [Position(positionId, p.name, electionId, None)];
      i := i + 1;
    }
    assert ps[..i] == ps;
  }

  /** Appending the new rows keeps the tables' key and reference
      invariants. */
  lemma CreationKeepsInvariants(es: seq<Election>, ps: seq<Position>, cs: seq<Candidate>, vs: seq<Vote>,
                                users: seq<User>, creds: seq<Credential>, nextE: int, nextP: int, nextC: int, nextV: int,
                                input: ElectionInput)
    requires TablesValid(es, ps, cs, vs, users, creds, nextE, nextP, nextC, nextV)
    ensures TablesValid(es + [Election(nextE, input.name, input.district, input.officialId, NotStarted, None, None)],
                        ps + NewPositions(input.positions, nextE, nextP),
                        cs + NewCandidates(input.positions, nextP, nextC),
                        vs, users, creds, nextE + 1, nextP + |input.positions|, nextC + CandidateCount(input.positions), nextV)
  {
    NewCandidatesBounds(input.positions, nextP, nextC);
    var cs' := cs + NewCandidates(input.positions, nextP, nextC);
    forall i, j | 0 <= i < j < |cs'| ensures cs'[i].id < cs'[j].id {
    }
    forall k | 0 <= k < |vs| ensures CandidateInPosition(cs', vs[k].candidateId, vs[k].positionId) {
      var m :| 0 <= m < |cs| && cs[m].id == vs[k].candidateId && cs[m].positionId == vs[k].positionId;
      assert cs'[m] == cs[m];
    }
  }

  /** CreateElectionWithStructure: a structural error or a district official
      who is not a user (the election row's foreign key) leaves the database
      unchanged; otherwise the election is created `not_started` with its
      positions linked to it and its candidates linked to their positions,
      in input order, and its new id is returned. */
  method CreateElectionWithStructure(db: Database, input: ElectionInput) returns (id: int, err: Option<CreationError>)
    requires db.Valid()
    modifies db
    ensures db.Valid()
    ensures db.votes == old(db.votes) && db.users == old(db.users) && db.credentials == old(db.credentials)
    ensures db.nextVoteId == old(db.nextVoteId)
    ensures ValidateElection(input).Some? ==>
      err == ValidateElection(input) && id == 0 && unchanged(db)
    ensures ValidateElection(input).None? && !IsUser(old(db.users), input.officialId) ==>
      err == Some(ForeignKeyFailed) && id == 0 && unchanged(db)
    ensures ValidateElection(input).None? && IsUser(old(db.users), input.officialId) ==>
      err == None && id == old(db.nextElectionId)
      && db.elections == old(db.elections) + [Election(id, input.name, input.district, input.officialId, NotStarted, None, None)]
      && db.positions == old(db.positions) + NewPositions(input.positions, id, old(db.nextPositionId))
      && db.candidates == old(db.candidates) + NewCandidates(input.positions, old(db.nextPositionId), old(db.nextCandidateId))
      && db.nextElectionId == id + 1
      && db.nextPositionId == old(db.nextPositionId) + |input.positions|
      && db.nextCandidateId == old(db.nextCandidateId) + CandidateCount(input.positions)
      && Shape(GetElection.BallotPositions(db.positions, db.candidates, id)) == input.positions
  {
    var invalid := ValidateElection(input);
    if invalid.Some? {
      return 0, invalid;
    }
    if !IsUser(db.users, input.officialId) {
      return 0, Some(ForeignKeyFailed);
    }
    id := InsertElection(db, input);
    err := None;
  }

  /** The transaction of CreateElectionWithStructure, for validated input
      whose official is a user: insert the election, then its positions and
      candidates, and commit. */
  method InsertElection(db: Database, input: ElectionInput) returns (id: int)
    requires db.Valid()
    modifies db
    ensures db.Valid()
    ensures db.votes == old(db.votes) && db.users == old(db.users) && db.credentials == old(db.credentials)
    ensures db.nextVoteId == old(db.nextVoteId)
    ensures id == old(db.nextElectionId)
    ensures db.elections == old(db.elections) + [Election(id, input.name, input.district, input.officialId, NotStarted, None, None)]
    ensures db.positions == old(db.positions) + NewPositions(input.positions, id, old(db.nextPositionId))
    ensures db.candidates == old(db.candidates) + NewCandidates(input.positions, old(db.nextPositionId), old(db.nextCandidateId))
    ensures db.nextElectionId == id + 1
    ensures db.nextPositionId == old(db.nextPositionId) + |input.positions|
    ensures db.nextCandidateId == old(db.nextCandidateId) + CandidateCount(input.positions)
    ensures Shape(GetElection.BallotPositions(db.positions, db.candidates, id)) == input.positions
  {
    id := db.nextElectionId;
    var positionRows, candidateRows, nextP, nextC :=
      InsertStructure(input.positions, id, db.nextPositionId, db.nextCandidateId);
    CreationKeepsInvariants(db.elections, db.positions, db.candidates, db.votes, db.users, db.credentials,
                            id, db.nextPositionId, db.nextCandidateId, db.nextVoteId, input);
    CreatedBallotRoundTrip(db.positions, db.candidates, id, db.nextPositionId, db.nextCandidateId, input);
    Commit(db, db.elections + [Election(id, input.name, input.district, input.officialId, NotStarted, None, None)],
           db.positions + positionRows, db.candidates + candidateRows, id + 1, nextP, nextC);
  }

  /** The transaction's commit: the election, position and candidate tables
      and their counters take their new contents together. */
  method Commit(db: Database, elections: seq<Election>, positions: seq<Position>, candidates: seq<Candidate>,
                nextElectionId: int, nextPositionId: int, nextCandidateId: int)
    requires TablesValid(elections, positions, candidates, db.votes, db.users, db.credentials,
                         nextElectionId, nextPositionId, nextCandidateId, db.nextVoteId)
    modifies db
    ensures db.Valid()
    ensures db.elections == elections && db.positions == positions && db.candidates == candidates
    ensures db.nextElectionId == nextElectionId && db.nextPositionId == nextPositionId
    ensures db.nextCandidateId == nextCandidateId
    ensures db.votes == old(db.votes) && db.users == old(db.users) && db.credentials == old(db.credentials)
    ensures db.nextVoteId == old(db.nextVoteId)
  {
    db.elections, db.positions, db.candidates := elections, positions, candidates;
    db.nextElectionId, db.nextPositionId, db.nextCandidateId := nextElectionId, nextPositionId, nextCandidateId;
  }

  // Reading a created election back.

  /** The structure a ballot describes, without ids: the inverse of the
      creation's input. */
  function Shape(b: seq<GetElection.PositionForBallot>): seq<PositionInput>
  {
    seq(|b|, k requires 0 <= k < |b| =>
      PositionInput(b[k].positionName,
        seq(|b[k].candidates|, j requires 0 <= j < |b[k].candidates| =>
          CandidateInput(b[k].candidates[j].name, b[k].candidates[j].party))))
  }

  lemma {:induction false} PositionsOfAppend(a: seq<Position>, b: seq<Position>, electionId: int)
    ensures ElectionManagement.PositionsOf(a + b, electionId)
            == ElectionManagement.PositionsOf(a, electionId) + ElectionManagement.PositionsOf(b, electionId)
    decreases |b|
  {
    if |b| == 0 {
      assert a + b == a;
    } else {
      assert (a + b)[..|a + b| - 1] == a + b[..|b| - 1];
      PositionsOfAppend(a, b[..|b| - 1], electionId);
    }
  }

  lemma {:induction false} PositionsOfNone(a: seq<Position>, electionId: int)
    requires forall k :: 0 <= k < |a| ==> a[k].electionId != electionId
    ensures ElectionManagement.PositionsOf(a, electionId) == []
  {
    if |a| > 0 {
      PositionsOfNone(a[..|a| - 1], electionId);
    }
  }

  lemma {:induction false} PositionsOfAll(a: seq<Position>, electionId: int)
    requires forall k :: 0 <= k < |a| ==> a[k].electionId == electionId
    ensures ElectionManagement.PositionsOf(a, electionId) == a
  {
    if |a| > 0 {
      PositionsOfAll(a[..|a| - 1], electionId);
    }
  }

  lemma {:induction false} CandidatesOfAppend(a: seq<Candidate>, b: seq<Candidate>, positionId: int)
    ensures ElectionManagement.CandidatesOf(a + b, positionId)
            == ElectionManagement.CandidatesOf(a, positionId) + ElectionManagement.CandidatesOf(b, positionId)
    decreases |b|
  {
    if |b| == 0 {
      assert a + b == a;
    } else {
      assert (a + b)[..|a + b| - 1] == a + b[..|b| - 1];
      CandidatesOfAppend(a, b[..|b| - 1], positionId);
    }
  }

  lemma {:induction false} CandidatesOfNone(a: seq<Candidate>, positionId: int)
    requires forall k :: 0 <= k < |a| ==> a[k].positionId != positionId
    ensures ElectionManagement.CandidatesOf(a, positionId) == []
  {
    if |a| > 0 {
      CandidatesOfNone(a[..|a| - 1], positionId);
    }
  }

  lemma {:induction false} CandidatesOfAll(a: seq<Candidate>, positionId: int)
    requires forall k :: 0 <= k < |a| ==> a[k].positionId == positionId
    ensures ElectionManagement.CandidatesOf(a, positionId) == a
  {
    if |a| > 0 {
      CandidatesOfAll(a[..|a| - 1], positionId);
    }
  }

  /** The inserted candidates of the k-th new position are exactly that
      position's input candidates. */
  lemma {:induction false} CandidatesOfNewPosition(ps: seq<PositionInput>, firstPositionId: int, firstId: int, k: nat)
    requires k < |ps|
    ensures ElectionManagement.CandidatesOf(NewCandidates(ps, firstPositionId, firstId), firstPositionId + k)
            == CandidateRowsFor(ps[k].candidates, firstPositionId + k, firstId + CandidateCount(ps[..k]))
    decreases |ps|
  {
    if k < |ps| - 1 {
      CandidatesOfNewPosition(ps[..|ps| - 1], firstPositionId, firstId, k);
      EarlierPosition(ps, firstPositionId, firstId, k);
    } else {
      LastPosition(ps, firstPositionId, firstId);
    }
  }

  /** A position before the last keeps the candidates it had before the
      last position's rows were appended. */
  lemma EarlierPosition(ps: seq<PositionInput>, firstPositionId: int, firstId: int, k: nat)
    requires k < |ps| - 1
    requires var init := ps[..|ps| - 1];
      ElectionManagement.CandidatesOf(NewCandidates(init, firstPositionId, firstId), firstPositionId + k)
      == CandidateRowsFor(init[k].candidates, firstPositionId + k, firstId + CandidateCount(init[..k]))
    ensures ElectionManagement.CandidatesOf(NewCandidates(ps, firstPositionId, firstId), firstPositionId + k)
            == CandidateRowsFor(ps[k].candidates, firstPositionId + k, firstId + CandidateCount(ps[..k]))
  {
    var init := ps[..|ps| - 1];
    var front := NewCandidates(init, firstPositionId, firstId);
    var last := CandidateRowsFor(ps[|ps| - 1].candidates, firstPositionId + |init|, firstId + CandidateCount(init));
    assert NewCandidates(ps, firstPositionId, firstId) == front + last;
    AppendOtherRows(front, last, firstPositionId + k);
    assert init[..k] == ps[..k];
    assert init[k] == ps[k];
  }

  /** The last position's candidates are exactly the rows appended for it. */
  lemma LastPosition(ps: seq<PositionInput>, firstPositionId: int, firstId: int)
    requires |ps| > 0
    ensures var k := |ps| - 1;
      ElectionManagement.CandidatesOf(NewCandidates(ps, firstPositionId, firstId), firstPositionId + k)
      == CandidateRowsFor(ps[k].candidates, firstPositionId + k, firstId + CandidateCount(ps[..k]))
  {
    var init := ps[..|ps| - 1];
    var pid := firstPositionId + |init|;
    var front := NewCandidates(init, firstPositionId, firstId);
    var last := CandidateRowsFor(ps[|ps| - 1].candidates, pid, firstId + CandidateCount(init));
    assert NewCandidates(ps, firstPositionId, firstId) == front + last;
    NoCandidatesYet(init, firstPositionId, firstId);
    AppendOwnRows(front, last, pid);
  }

  /** Rows of other positions appended at the end leave a position's
      candidate list as it was. */
  lemma AppendOtherRows(front: seq<Candidate>, last: seq<Candidate>, positionId: int)
    requires forall k :: 0 <= k < |last| ==> last[k].positionId != positionId
    ensures ElectionManagement.CandidatesOf(front + last, positionId) == ElectionManagement.CandidatesOf(front, positionId)
  {
    CandidatesOfAppend(front, last, positionId);
    CandidatesOfNone(last, positionId);
    assert ElectionManagement.CandidatesOf(front, positionId) + [] == ElectionManagement.CandidatesOf(front, positionId);
  }

  /** Rows of a position appended after rows with none of its candidates
      are exactly its candidate list. */
  lemma AppendOwnRows(front: seq<Candidate>, last: seq<Candidate>, positionId: int)
    requires ElectionManagement.CandidatesOf(front, positionId) == []
    requires forall k :: 0 <= k < |last| ==> last[k].positionId == positionId
    ensures ElectionManagement.CandidatesOf(front + last, positionId) == last
  {
    CandidatesOfAppend(front, last, positionId);
    CandidatesOfAll(last, positionId);
    assert [] + last == last;
  }

  /** The rows inserted for the first positions name none of the later
      positions. */
  lemma NoCandidatesYet(ps: seq<PositionInput>, firstPositionId: int, firstId: int)
    ensures ElectionManagement.CandidatesOf(NewCandidates(ps, firstPositionId, firstId), firstPositionId + |ps|) == []
  {
    NewCandidatesBounds(ps, firstPositionId, firstId);
    CandidatesOfNone(NewCandidates(ps, firstPositionId, firstId), firstPositionId + |ps|);
  }

  /** Candidate rows of other positions in front do not change a
      position's candidate list. */
  lemma {:induction false} SkipOthers(a: seq<Candidate>, b: seq<Candidate>, positionId: int)
    requires forall m :: 0 <= m < |a| ==> a[m].positionId != positionId
    ensures ElectionManagement.CandidatesOf(a + b, positionId) == ElectionManagement.CandidatesOf(b, positionId)
    decreases |b|
  {
    if |b| == 0 {
      assert a + b == a;
      CandidatesOfNone(a, positionId);
    } else {
      assert (a + b)[..|a + b| - 1] == a + b[..|b| - 1];
      SkipOthers(a, b[..|b| - 1], positionId);
    }
  }

  lemma SkipOldCandidates(cs: seq<Candidate>, ps: seq<PositionInput>, nextP: int, nextC: int, k: nat)
    requires forall m :: 0 <= m < |cs| ==> cs[m].positionId < nextP
    ensures ElectionManagement.CandidatesOf(cs + NewCandidates(ps, nextP, nextC), nextP + k)
            == ElectionManagement.CandidatesOf(NewCandidates(ps, nextP, nextC), nextP + k)
  {
    SkipOthers(cs, NewCandidates(ps, nextP, nextC), nextP + k);
  }

  lemma CandidatesOfCreated(cs: seq<Candidate>, ps: seq<PositionInput>, nextP: int, nextC: int, k: nat)
    requires k < |ps|
    requires forall m :: 0 <= m < |cs| ==> cs[m].positionId < nextP
    ensures ElectionManagement.CandidatesOf(cs + NewCandidates(ps, nextP, nextC), nextP + k)
            == CandidateRowsFor(ps[k].candidates, nextP + k, nextC + CandidateCount(ps[..k]))
  {
    SkipOldCandidates(cs, ps, nextP, nextC, k);
    CandidatesOfNewPosition(ps, nextP, nextC, k);
  }

  /** Reading back a freshly created election gives exactly the positions
      and candidates (names and parties, in input order) it was created
      with. */
  lemma CreatedBallotRoundTrip(ps: seq<Position>, cs: seq<Candidate>, nextE: int, nextP: int, nextC: int,
                               input: ElectionInput)
    requires forall k :: 0 <= k < |ps| ==> ps[k].electionId < nextE
    requires forall k :: 0 <= k < |cs| ==> cs[k].positionId < nextP
    ensures Shape(GetElection.BallotPositions(ps + NewPositions(input.positions, nextE, nextP),
                                              cs + NewCandidates(input.positions, nextP, nextC), nextE))
            == input.positions
  {
    var newPs := NewPositions(input.positions, nextE, nextP);
    var allCs := cs + NewCandidates(input.positions, nextP, nextC);
    PositionsOfAppend(ps, newPs, nextE);
    PositionsOfNone(ps, nextE);
    PositionsOfAll(newPs, nextE);
    assert ElectionManagement.PositionsOf(ps + newPs, nextE) == [] + newPs == newPs;
    var b := GetElection.Entries(newPs, allCs);
    assert GetElection.BallotPositions(ps + newPs, allCs, nextE) == b;
    forall k | 0 <= k < |b| ensures Shape(b)[k] == input.positions[k] {
      EntryOfCreated(cs, input.positions, nextE, nextP, nextC, k);
    }
  }

  /** The k-th ballot entry of a created election shows the k-th input
      position. */
  lemma EntryOfCreated(cs: seq<Candidate>, positions: seq<PositionInput>, nextE: int, nextP: int, nextC: int, k: nat)
    requires k < |positions|
    requires forall m :: 0 <= m < |cs| ==> cs[m].positionId < nextP
    ensures var b := GetElection.Entries(NewPositions(positions, nextE, nextP), cs + NewCandidates(positions, nextP, nextC));
      |b| == |positions| && Shape(b)[k] == positions[k]
  {
    var newPs := NewPositions(positions, nextE, nextP);
    var allCs := cs + NewCandidates(positions, nextP, nextC);
    var b := GetElection.Entries(newPs, allCs);
    var pin := positions[k];
    var rows := CandidateRowsFor(pin.candidates, nextP + k, nextC + CandidateCount(positions[..k]));
    CandidatesOfCreated(cs, positions, nextP, nextC, k);
    assert b[k] == GetElection.Entry(newPs[k], rows);
    assert Shape(b)[k].candidates == pin.candidates;
  }
}
