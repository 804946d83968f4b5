// Election lifecycle (open, close), tallying and result reporting of the
// e-voting server.
module ElectionManagement {
  import opened Wrappers
  import opened EvotingTables
  import Sorting

  datatype LifecycleError =
    | ElectionNotFound
    | NotAuthorized
    | InvalidStatus(reason: string)
    | ElectionAlreadyActive
    | ElectionAlreadyClosed
    | ElectionNotClosed
    | StoreFailure(reason: string)

  datatype ElectionInfo = ElectionInfo(name: string, status: string)

  datatype CandidateResult = CandidateResult(candidateId: int, name: string, party: string, voteCount: int)

  /** One position of a result sheet; `winnerId` is the optional winner. */
  datatype PositionResult = PositionResult(positionId: int, positionName: string,
                                           candidates: seq<CandidateResult>, winnerId: Option<int>)

  datatype ElectionResults = ElectionResults(electionName: string, isActive: bool, positions: seq<PositionResult>)

  /** getElectionInfo: the election must exist and belong to the requesting
      official; only then are its name and status disclosed. */
  function GetElectionInfo(es: seq<Election>, electionId: int, officialId: string): (r: Result<ElectionInfo, LifecycleError>)
    ensures r == Err(ElectionNotFound) <==> ElectionIndex(es, electionId).None?
    ensures r == Err(NotAuthorized) <==>
      ElectionIndex(es, electionId).Some? && es[ElectionIndex(es, electionId).value].officialId != officialId
    ensures r.Ok? ==> exists k :: 0 <= k < |es| && es[k].id == electionId && es[k].officialId == officialId
                                   && r.value == ElectionInfo(es[k].name, es[k].status)
  {
    match ElectionIndex(es, electionId)
    case None => Err(ElectionNotFound)
    case Some(k) =>
      if es[k].officialId != officialId then Err(NotAuthorized)
      else Ok(ElectionInfo(es[k].name, es[k].status))
  }

  /** Lifecycle stage of a status: not_started < active < closed; any other
      text is outside the lifecycle. */
  function Stage(status: string): int
  {
    if status == NotStarted then 0
    else if status == Active then 1
    else if status == Closed then 2
    else -1
  }

  /** The status OpenElection moves an owned election to, or its refusal. */
  function OpenTransition(status: string): (r: Result<string, LifecycleError>)
    ensures r.Ok? <==> status == NotStarted
    ensures r.Ok? ==> Stage(r.value) == Stage(status) + 1
    ensures r == Err(ElectionAlreadyActive) <==> status == Active
    ensures r.Err? && status != Active ==> r.error.InvalidStatus?
  {
    match status
    case "active" => Err(ElectionAlreadyActive)
    case "closed" => Err(InvalidStatus("cannot reopen a closed election"))
    case "not_started" => Ok(Active)
    case _ => Err(InvalidStatus("unknown status '" + status + "'"))
  }

  /** The status CloseElection moves an owned election to, or its refusal. */
  function CloseTransition(status: string): (r: Result<string, LifecycleError>)
    ensures r.Ok? <==> status == Active
    ensures r.Ok? ==> Stage(r.value) == Stage(status) + 1
    ensures r == Err(ElectionAlreadyClosed) <==> status == Closed
    ensures r.Err? && status != Closed ==> r.error.InvalidStatus?
  {
    match status
    case "closed" => Err(ElectionAlreadyClosed)
    case "not_started" => Err(InvalidStatus("cannot close an election that was never opened"))
    case "active" => Ok(Closed)
    case _ => Err(InvalidStatus("unknown status '" + status + "'"))
  }

  datatype LifecycleAction = Open | Close

  /** The status after a sequence of open/close requests by the owner; a
      refused request leaves the status as it was. */
  function RunLifecycle(status: string, actions: seq<LifecycleAction>): string
    decreases |actions|
  {
    if |actions| == 0 then status
    else
      var step := if actions[0] == Open then OpenTransition(status) else CloseTransition(status);
      RunLifecycle(if step.Ok? then step.value else status, actions[1..])
  }

  /** No sequence of requests moves an election backwards, and a closed
      election stays closed forever. */
  lemma {:induction false} NoTransitionReverses(status: string, actions: seq<LifecycleAction>)
    ensures Stage(RunLifecycle(status, actions)) >= Stage(status)
    ensures status == Closed ==> RunLifecycle(status, actions) == Closed
    ensures Stage(status) >= 0 ==> Stage(RunLifecycle(status, actions)) >= 0
    decreases |actions|
  {
    if |actions| > 0 {
      var step := if actions[0] == Open then OpenTransition(status) else CloseTransition(status);
      NoTransitionReverses(if step.Ok? then step.value else status, actions[1..]);
    }
  }

  /** OpenElection: the owner moves a not_started election to active and
      stamps its start date; every refusal leaves the database unchanged. */
  method OpenElection(db: Database, electionId: int, officialId: string, now: int)
    returns (err: Option<LifecycleError>)
    requires db.Valid()
    modifies db
    ensures db.Valid()
    ensures db.positions == old(db.positions) && db.candidates == old(db.candidates)
    ensures db.votes == old(db.votes) && db.users == old(db.users) && db.credentials == old(db.credentials)
    ensures db.nextElectionId == old(db.nextElectionId) && db.nextPositionId == old(db.nextPositionId)
    ensures db.nextCandidateId == old(db.nextCandidateId) && db.nextVoteId == old(db.nextVoteId)
    ensures var info := GetElectionInfo(old(db.elections), electionId, officialId);
      if info.Err? then err == Some(info.error) && db.elections == old(db.elections)
      else if OpenTransition(info.value.status).Err? then
        err == Some(OpenTransition(info.value.status).error) && db.elections == old(db.elections)
      else
        var k := ElectionIndex(old(db.elections), electionId).value;
        err == None && db.elections == old(db.elections)[k := old(db.elections)[k].(status := Active, startDate := Some(now))]
  {
    var info := GetElectionInfo(db.elections, electionId, officialId);
    if info.Err? {
      return Some(info.error);
    }
    var next := OpenTransition(info.value.status);
    if next.Err? {
      return Some(next.error);
    }
    var k := ElectionIndex(db.elections, electionId).value;
    db.elections := db.elections[k := db.elections[k].(status := Active, startDate := Some(now))];
    err := None;
  }

  /** CloseElection: the owner moves an active election to closed and stamps
      its end date; every refusal leaves the database unchanged. */
  method CloseElection(db: Database, electionId: int, officialId: string, now: int)
    returns (err: Option<LifecycleError>)
    requires db.Valid()
    modifies db
    ensures db.Valid()
    ensures db.positions == old(db.positions) && db.candidates == old(db.candidates)
    ensures db.votes == old(db.votes) && db.users == old(db.users) && db.credentials == old(db.credentials)
    ensures db.nextElectionId == old(db.nextElectionId) && db.nextPositionId == old(db.nextPositionId)
    ensures db.nextCandidateId == old(db.nextCandidateId) && db.nextVoteId == old(db.nextVoteId)
    ensures var info := GetElectionInfo(old(db.elections), electionId, officialId);
      if info.Err? then err == Some(info.error) && db.elections == old(db.elections)
      else if CloseTransition(info.value.status).Err? then
        err == Some(CloseTransition(info.value.status).error) && db.elections == old(db.elections)
      else
        var k := ElectionIndex(old(db.elections), electionId).value;
        err == None && db.elections == old(db.elections)[k := old(db.elections)[k].(status := Closed, endDate := Some(now))]
  {
    var info := GetElectionInfo(db.elections, electionId, officialId);
    if info.Err? {
      return Some(info.error);
    }
    var next := CloseTransition(info.value.status);
    if next.Err? {
      return Some(next.error);
    }
    var k := ElectionIndex(db.elections, electionId).value;
    db.elections := db.elections[k := db.elections[k].(status := Closed, endDate := Some(now))];
    err := None;
  }

  /** getPositions: the election's positions, in table (= id) order. */
  function PositionsOf(ps: seq<Position>, electionId: int): seq<Position>
  {
    if |ps| == 0 then []
    else if ps[|ps| - 1].electionId == electionId then PositionsOf(ps[..|ps| - 1], electionId) + [ps[|ps| - 1]]
    else PositionsOf(ps[..|ps| - 1], electionId)
  }

  /** getPositions returns exactly the election's positions, in ascending
      id order. */
  lemma {:induction false} PositionsOfSpec(ps: seq<Position>, electionId: int)
    ensures forall p :: p in PositionsOf(ps, electionId) <==> p in ps && p.electionId == electionId
    ensures PositionIdsIncreasing(ps) ==> PositionIdsIncreasing(PositionsOf(ps, electionId))
  {
    PositionsOfMembers(ps, electionId);
    if PositionIdsIncreasing(ps) {
      PositionsOfOrdered(ps, electionId);
    }
  }

  lemma {:induction false} PositionsOfMembers(ps: seq<Position>, electionId: int)
    ensures forall p :: p in PositionsOf(ps, electionId) <==> p in ps && p.electionId == electionId
  {
    if |ps| > 0 {
      var init := ps[..|ps| - 1];
      PositionsOfMembers(init, electionId);
      assert ps == init + [ps[|ps| - 1]];
    }
  }

  lemma {:induction false} PositionsOfOrdered(ps: seq<Position>, electionId: int)
    requires PositionIdsIncreasing(ps)
    ensures PositionIdsIncreasing(PositionsOf(ps, electionId))
  {
    if |ps| > 0 {
      var init := ps[..|ps| - 1];
      var last := ps[|ps| - 1];
      PositionsOfOrdered(init, electionId);
      PositionsOfMembers(init, electionId);
      var front := PositionsOf(init, electionId);
      if last.electionId == electionId {
        var r := front + [last];
        forall i, j | 0 <= i < j < |r| ensures r[i].id < r[j].id {
          if j == |front| {
            assert r[i] in front;
            var k :| 0 <= k < |init| && init[k] == r[i];
          } else {
            assert r[i] == front[i] && r[j] == front[j];
          }
        }
      }
    }
  }

  /** The candidates of one position, in table (= id) order. */
  function CandidatesOf(cs: seq<Candidate>, positionId: int): seq<Candidate>
  {
    if |cs| == 0 then []
    else if cs[|cs| - 1].positionId == positionId then CandidatesOf(cs[..|cs| - 1], positionId) + [cs[|cs| - 1]]
    else CandidatesOf(cs[..|cs| - 1], positionId)
  }

  /** CandidatesOf returns exactly the position's candidates, in ascending
      id order. */
  lemma {:induction false} CandidatesOfSpec(cs: seq<Candidate>, positionId: int)
    ensures forall c :: c in CandidatesOf(cs, positionId) <==> c in cs && c.positionId == positionId
    ensures CandidateIdsIncreasing(cs) ==> CandidateIdsIncreasing(CandidatesOf(cs, positionId))
  {
    CandidatesOfMembers(cs, positionId);
    if CandidateIdsIncreasing(cs) {
      CandidatesOfOrdered(cs, positionId);
    }
  }

  lemma {:induction false} CandidatesOfMembers(cs: seq<Candidate>, positionId: int)
    ensures forall c :: c in CandidatesOf(cs, positionId) <==> c in cs && c.positionId == positionId
  {
    if |cs| > 0 {
      var init := cs[..|cs| - 1];
      CandidatesOfMembers(init, positionId);
      assert cs == init + [cs[|cs| - 1]];
    }
  }

  lemma {:induction false} CandidatesOfOrdered(cs: seq<Candidate>, positionId: int)
    requires CandidateIdsIncreasing(cs)
    ensures CandidateIdsIncreasing(CandidatesOf(cs, positionId))
  {
    if |cs| > 0 {
      var init := cs[..|cs| - 1];
      var last := cs[|cs| - 1];
      CandidatesOfOrdered(init, positionId);
      CandidatesOfMembers(init, positionId);
      var front := CandidatesOf(init, positionId);
      if last.positionId == positionId {
        var r := front + [last];
        forall i, j | 0 <= i < j < |r| ensures r[i].id < r[j].id {
          if j == |front| {
            assert r[i] in front;
            var k :| 0 <= k < |init| && init[k] == r[i];
          } else {
            assert r[i] == front[i] && r[j] == front[j];
          }
        }
      }
    }
  }

  /** A candidate with the number of vote rows that name it (the LEFT JOIN
      gives 0 when there are none). */
  function Counted(c: Candidate, vs: seq<Vote>): CandidateResult
  {
    CandidateResult(c.id, c.name, c.party, VotesFor(vs, c.id))
  }

  /** The grouped rows of queryCandidateVotes before ordering. */
  function CountedCandidates(cs: seq<Candidate>, vs: seq<Vote>, positionId: int): seq<CandidateResult>
  {
    var own := CandidatesOf(cs, positionId);
    seq(|own|, k requires 0 <= k < |own| => Counted(own[k], vs))
  }

  /** ORDER BY vote_count DESC, c.id */
  function RankKey(c: CandidateResult): (int, int)
  {
    (-c.voteCount, c.candidateId)
  }

  /** queryCandidateVotes: the counted candidates of a position, ranked. */
  function CandidateVotes(cs: seq<Candidate>, vs: seq<Vote>, positionId: int): seq<CandidateResult>
  {
    Sorting.SortBy(CountedCandidates(cs, vs, positionId), RankKey)
  }

  /** The ranking orders the counted candidates by vote count descending
      and then by candidate id ascending. */
  lemma CandidateVotesRanked(cs: seq<Candidate>, vs: seq<Vote>, positionId: int)
    ensures multiset(CandidateVotes(cs, vs, positionId)) == multiset(CountedCandidates(cs, vs, positionId))
    ensures var r := CandidateVotes(cs, vs, positionId);
      forall i, j :: 0 <= i < j < |r| ==>
        r[i].voteCount > r[j].voteCount || (r[i].voteCount == r[j].voteCount && r[i].candidateId <= r[j].candidateId)
  {
    var r := CandidateVotes(cs, vs, positionId);
    Sorting.SortByCorrect(CountedCandidates(cs, vs, positionId), RankKey);
    assert forall i, j :: 0 <= i < j < |r| ==> Sorting.KeyLe(RankKey(r[i]), RankKey(r[j]));
  }

  /** Every candidate of the position appears in the ranking exactly once,
      with its vote count (0 when no vote names it), and nothing else does. */
  lemma CandidateVotesComplete(cs: seq<Candidate>, vs: seq<Vote>, positionId: int)
    requires CandidateIdsIncreasing(cs)
    ensures var r := CandidateVotes(cs, vs, positionId);
      |r| == |CandidatesOf(cs, positionId)|
      && (forall c :: c in CandidatesOf(cs, positionId) ==> multiset(r)[Counted(c, vs)] == 1)
      && (forall x :: x in r ==> exists c :: c in CandidatesOf(cs, positionId) && x == Counted(c, vs))
  {
    var r := CandidateVotes(cs, vs, positionId);
    var counted := CountedCandidates(cs, vs, positionId);
    var own := CandidatesOf(cs, positionId);
    CandidateVotesRanked(cs, vs, positionId);
    CandidatesOfSpec(cs, positionId);
    assert |r| == |multiset(r)| == |multiset(counted)| == |counted|;
    forall x | x in r ensures exists c :: c in own && x == Counted(c, vs) {
      assert x in multiset(counted);
      var k :| 0 <= k < |counted| && counted[k] == x;
      assert own[k] in own;
    }
    forall c | c in own ensures multiset(counted)[Counted(c, vs)] == 1 {
      var k :| 0 <= k < |own| && own[k] == c;
      CountOnce(own, vs, k);
    }
  }

  /** In a list of candidates with ascending ids, each counted candidate
      occurs once. */
  lemma {:induction false} CountOnce(own: seq<Candidate>, vs: seq<Vote>, k: nat)
    requires CandidateIdsIncreasing(own) && k < |own|
    ensures multiset(seq(|own|, i requires 0 <= i < |own| => Counted(own[i], vs)))[Counted(own[k], vs)] == 1
    decreases |own|
  {
    var counted := seq(|own|, i requires 0 <= i < |own| => Counted(own[i], vs));
    var n := |own| - 1;
    var init := own[..n];
    var initCounted := seq(|init|, i requires 0 <= i < |init| => Counted(init[i], vs));
    assert counted == initCounted + [Counted(own[n], vs)];
    if k == n {
      forall i | 0 <= i < |init| ensures initCounted[i] != Counted(own[k], vs) {
        assert init[i].id < own[n].id;
      }
      assert Counted(own[k], vs) !in multiset(initCounted);
    } else {
      CountOnce(init, vs, k);
      assert own[k].id < own[n].id;
    }
  }

  /** The ranking is fully determined: any ordering of the counted
      candidates by (count descending, id ascending) is this one. */
  lemma CandidateOrderIsUnique(cs: seq<Candidate>, vs: seq<Vote>, positionId: int, other: seq<CandidateResult>)
    requires CandidateIdsIncreasing(cs)
    requires multiset(other) == multiset(CountedCandidates(cs, vs, positionId))
    requires Sorting.SortedBy(other, RankKey)
    ensures other == CandidateVotes(cs, vs, positionId)
  {
    var counted := CountedCandidates(cs, vs, positionId);
    var own := CandidatesOf(cs, positionId);
    var r := Sorting.SortBy(counted, RankKey);
    CandidatesOfSpec(cs, positionId);
    Sorting.SortByCorrect(counted, RankKey);
    forall x, y | x in other && y in other && RankKey(x) == RankKey(y) ensures x == y {
      assert x in multiset(counted) && y in multiset(counted);
      var i :| 0 <= i < |counted| && counted[i] == x;
      var j :| 0 <= j < |counted| && counted[j] == y;
      assert own[i].id == own[j].id;
    }
    Sorting.SortedUnique(other, r, RankKey);
  }

  /** The winner rule of TallyResults: the first ranked candidate, but only
      when it received at least one vote. */
  function TallyWinner(ranked: seq<CandidateResult>): Option<int>
  {
    if |ranked| > 0 && ranked[0].voteCount > 0 then Some(ranked[0].candidateId) else None
  }

  /** The members of the ranking are the counted candidates. */
  lemma RankedMembers(cs: seq<Candidate>, vs: seq<Vote>, positionId: int)
    ensures forall c :: c in CandidatesOf(cs, positionId) ==> Counted(c, vs) in CandidateVotes(cs, vs, positionId)
    ensures forall x :: x in CandidateVotes(cs, vs, positionId) ==>
      exists c :: c in CandidatesOf(cs, positionId) && x == Counted(c, vs)
  {
    var r := CandidateVotes(cs, vs, positionId);
    var own := CandidatesOf(cs, positionId);
    var counted := CountedCandidates(cs, vs, positionId);
    CandidateVotesRanked(cs, vs, positionId);
    forall c | c in own ensures Counted(c, vs) in r {
      var k :| 0 <= k < |own| && own[k] == c;
      assert counted[k] == Counted(c, vs);
      assert Counted(c, vs) in multiset(r);
    }
    forall x | x in r ensures exists c :: c in own && x == Counted(c, vs) {
      assert x in multiset(counted);
      var k :| 0 <= k < |counted| && counted[k] == x;
      assert own[k] in own;
    }
  }

  /** A position has a tallied winner iff one of its candidates got a vote. */
  lemma WinnerExistsIff(cs: seq<Candidate>, vs: seq<Vote>, positionId: int)
    ensures TallyWinner(CandidateVotes(cs, vs, positionId)).Some? <==>
      exists c :: c in CandidatesOf(cs, positionId) && VotesFor(vs, c.id) > 0
  {
    var r := CandidateVotes(cs, vs, positionId);
    RankedMembers(cs, vs, positionId);
    CandidateVotesRanked(cs, vs, positionId);
    if c :| c in CandidatesOf(cs, positionId) && VotesFor(vs, c.id) > 0 {
      var i :| 0 <= i < |r| && r[i] == Counted(c, vs);
      assert i == 0 || r[0].voteCount >= r[i].voteCount;
    }
    if |r| > 0 && r[0].voteCount > 0 {
      assert r[0] in r;
    }
  }

  /** The tallied winner, stated without the ranking: it is a candidate of
      the position with the most votes, the lowest id breaking a tie. */
  lemma WinnerIsTop(cs: seq<Candidate>, vs: seq<Vote>, positionId: int, w: int)
    requires TallyWinner(CandidateVotes(cs, vs, positionId)) == Some(w)
    ensures exists c :: (c in CandidatesOf(cs, positionId) && c.id == w && VotesFor(vs, c.id) > 0
      && forall d :: d in CandidatesOf(cs, positionId) ==>
           VotesFor(vs, d.id) < VotesFor(vs, c.id) || (VotesFor(vs, d.id) == VotesFor(vs, c.id) && c.id <= d.id))
  {
    var r := CandidateVotes(cs, vs, positionId);
    var own := CandidatesOf(cs, positionId);
    RankedMembers(cs, vs, positionId);
    CandidateVotesRanked(cs, vs, positionId);
    assert r[0] in r;
    var c :| c in own && r[0] == Counted(c, vs);
    forall d | d in own
      ensures VotesFor(vs, d.id) < VotesFor(vs, c.id) || (VotesFor(vs, d.id) == VotesFor(vs, c.id) && c.id <= d.id)
    {
      var j :| 0 <= j < |r| && r[j] == Counted(d, vs);
      assert j == 0 || r[0].voteCount > r[j].voteCount
        || (r[0].voteCount == r[j].voteCount && r[0].candidateId <= r[j].candidateId);
    }
  }

  /** A position's result as TallyResults computes it. */
  function ComputedResult(p: Position, cs: seq<Candidate>, vs: seq<Vote>): PositionResult
  {
    var ranked := CandidateVotes(cs, vs, p.id);
    PositionResult(p.id, p.name, ranked, TallyWinner(ranked))
  }

  /** A position's result as GetResults reports it: the stored winner. */
  function StoredResult(p: Position, cs: seq<Candidate>, vs: seq<Vote>): PositionResult
  {
    PositionResult(p.id, p.name, CandidateVotes(cs, vs, p.id), p.winner)
  }

  function ComputedResults(ps: seq<Position>, cs: seq<Candidate>, vs: seq<Vote>): seq<PositionResult>
  {
    seq(|ps|, k requires 0 <= k < |ps| => ComputedResult(ps[k], cs, vs))
  }

  function StoredResults(ps: seq<Position>, cs: seq<Candidate>, vs: seq<Vote>): seq<PositionResult>
  {
    seq(|ps|, k requires 0 <= k < |ps| => StoredResult(ps[k], cs, vs))
  }

  /** Result sheets grow one position at a time. */
  lemma ResultsSnoc(ps: seq<Position>, i: nat, cs: seq<Candidate>, vs: seq<Vote>)
    requires i < |ps|
    ensures ComputedResults(ps[..i + 1], cs, vs) == ComputedResults(ps[..i], cs, vs) + [ComputedResult(ps[i], cs, vs)]
    ensures StoredResults(ps[..i + 1], cs, vs) == StoredResults(ps[..i], cs, vs) + [StoredResult(ps[i], cs, vs)]
  {
    var a := ComputedResults(ps[..i + 1], cs, vs);
    var b := ComputedResults(ps[..i], cs, vs) + [ComputedResult(ps[i], cs, vs)];
    assert |a| == |b|;
    forall k | 0 <= k < |a| ensures a[k] == b[k] {
      if k < i { assert ps[..i + 1][k] == ps[..i][k]; }
    }
    var c := StoredResults(ps[..i + 1], cs, vs);
    var d := StoredResults(ps[..i], cs, vs) + [StoredResult(ps[i], cs, vs)];
    assert |c| == |d|;
    forall k | 0 <= k < |c| ensures c[k] == d[k] {
      if k < i { assert ps[..i + 1][k] == ps[..i][k]; }
    }
  }

  /** A positions row after tallying `electionId`: the winner column is
      written only for that election's positions that have a winner. */
  function TalliedPosition(p: Position, cs: seq<Candidate>, vs: seq<Vote>, electionId: int): Position
  {
    var w := TallyWinner(CandidateVotes(cs, vs, p.id));
    if p.electionId == electionId && w.Some? then p.(winner := w) else p
  }

  /** A winner UPDATE that the store rejects (`failing` lists the position
      ids whose update fails). */
  predicate UpdateFails(p: Position, cs: seq<Candidate>, vs: seq<Vote>, failing: set<int>)
  {
    TallyWinner(CandidateVotes(cs, vs, p.id)).Some? && p.id in failing
  }

  /** UPDATE positions SET winner_candidate_id = w WHERE id = positionId */
  function SetWinner(ps: seq<Position>, positionId: int, w: int): (r: seq<Position>)
    ensures |r| == |ps|
    ensures forall k :: 0 <= k < |ps| ==> r[k] == if ps[k].id == positionId then ps[k].(winner := Some(w)) else ps[k]
  {
    seq(|ps|, k requires 0 <= k < |ps| => if ps[k].id == positionId then ps[k].(winner := Some(w)) else ps[k])
  }

  /** The positions table after a committed tally of `electionId`. */
  function TalliedTable(ps: seq<Position>, cs: seq<Candidate>, vs: seq<Vote>, electionId: int): seq<Position>
  {
    seq(|ps|, k requires 0 <= k < |ps| => TalliedPosition(ps[k], cs, vs, electionId))
  }

  /** Some winner UPDATE among the given positions is rejected. */
  predicate SomeUpdateFails(own: seq<Position>, cs: seq<Candidate>, vs: seq<Vote>, failing: set<int>)
  {
    exists j :: 0 <= j < |own| && UpdateFails(own[j], cs, vs, failing)
  }

  /** The transaction's copy of the positions table after the winner
      updates for the positions whose ids are in `done`. */
  ghost predicate TalliedFor(table: seq<Position>, ps: seq<Position>, done: set<int>,
                             cs: seq<Candidate>, vs: seq<Vote>, electionId: int)
  {
    |table| == |ps|
    && forall k :: 0 <= k < |ps| ==>
         table[k] == if ps[k].id in done then TalliedPosition(ps[k], cs, vs, electionId) else ps[k]
  }

  /** One iteration of the tally loop: writing (or not writing) the winner
      of position `p` extends the tallied part of the table by `p`. */
  lemma TallyStep(table: seq<Position>, ps: seq<Position>, done: set<int>, p: Position,
                  cs: seq<Candidate>, vs: seq<Vote>, electionId: int)
    requires PositionIdsIncreasing(ps) && p in ps && p.electionId == electionId
    requires TalliedFor(table, ps, done, cs, vs, electionId)
    ensures var w := TallyWinner(CandidateVotes(cs, vs, p.id));
      TalliedFor(if w.Some? then SetWinner(table, p.id, w.value) else table, ps, done + {p.id}, cs, vs, electionId)
  {
    forall k | 0 <= k < |ps| && ps[k].id == p.id ensures ps[k] == p {
      var m :| 0 <= m < |ps| && ps[m] == p;
      assert !(m < k) && !(k < m);
    }
  }

  /** Once every position of the election is done, the copy is the
      tallied table. */
  lemma TallyComplete(table: seq<Position>, ps: seq<Position>, done: set<int>,
                      cs: seq<Candidate>, vs: seq<Vote>, electionId: int)
    requires TalliedFor(table, ps, done, cs, vs, electionId)
    requires forall k :: 0 <= k < |ps| && ps[k].electionId == electionId ==> ps[k].id in done
    ensures table == TalliedTable(ps, cs, vs, electionId)
  {
  }

  /** The tally writes only the winner column, so keys and links stay. */
  lemma TalliedTableKeepsKeys(ps: seq<Position>, cs: seq<Candidate>, vs: seq<Vote>, electionId: int)
    ensures |TalliedTable(ps, cs, vs, electionId)| == |ps|
    ensures forall k :: 0 <= k < |ps| ==>
      TalliedTable(ps, cs, vs, electionId)[k].id == ps[k].id
      && TalliedTable(ps, cs, vs, electionId)[k].electionId == ps[k].electionId
  {
  }

  /** One position of the tally: rank its candidates and, when there is a
      winner, UPDATE its row; the update fails for the ids in `failing`. */
  method WriteWinner(table: seq<Position>, ps: seq<Position>, ghost done: set<int>, p: Position,
                     cs: seq<Candidate>, vs: seq<Vote>, electionId: int, failing: set<int>)
    returns (failed: bool, table': seq<Position>)
    requires PositionIdsIncreasing(ps) && p in ps && p.electionId == electionId
    requires TalliedFor(table, ps, done, cs, vs, electionId)
    ensures failed <==> UpdateFails(p, cs, vs, failing)
    ensures !failed ==> TalliedFor(table', ps, done + {p.id}, cs, vs, electionId)
  {
    var w := TallyWinner(CandidateVotes(cs, vs, p.id));
    TallyStep(table, ps, done, p, cs, vs, electionId);
    failed, table' := false, table;
    if w.Some? {
      if p.id in failing {
        return true, table;
      }
      table' := SetWinner(table, p.id, w.value);
    }
  }

  /** The body of the tally transaction: for each of the election's
      positions in id order, rank the candidates and write the winner into
      the transaction's copy of the positions table. A rejected update
      abandons the copy. */
  method WriteWinners(ps: seq<Position>, cs: seq<Candidate>, vs: seq<Vote>, electionId: int, failing: set<int>)
    returns (ok: bool, table: seq<Position>, results: seq<PositionResult>)
    requires PositionIdsIncreasing(ps)
    ensures ok <==> !SomeUpdateFails(PositionsOf(ps, electionId), cs, vs, failing)
    ensures ok ==> table == TalliedTable(ps, cs, vs, electionId)
                   && results == ComputedResults(PositionsOf(ps, electionId), cs, vs)
  {
    var own := PositionsOf(ps, electionId);
    PositionsOfSpec(ps, electionId);
    table := ps;
    results := [];
    ghost var done: set<int> := {};
    var i := 0;
    while i < |own|
      invariant 0 <= i <= |own|
      invariant results == ComputedResults(own[..i], cs, vs)
      invariant forall j :: 0 <= j < i ==> own[j].id in done
      invariant forall j :: 0 <= j < i ==> !UpdateFails(own[j], cs, vs, failing)
      invariant TalliedFor(table, ps, done, cs, vs, electionId)
    {
      var p := own[i];
      var failed;
      failed, table := WriteWinner(table, ps, done, p, cs, vs, electionId, failing);
      if failed {
        assert UpdateFails(own[i], cs, vs, failing);
        return false, table, results;
      }
      ResultsSnoc(own, i, cs, vs);
      results := results + [ComputedResult(p, cs, vs)];
      done := done + {p.id};
      i := i + 1;
    }
    assert own[..i] == own;
    OwnPositionsDone(ps, done, electionId);
    TallyComplete(table, ps, done, cs, vs, electionId);
    ok := true;
  }

  /** Once every position the election read back is done, every position
      of the election in the table is. */
  lemma OwnPositionsDone(ps: seq<Position>, done: set<int>, electionId: int)
    requires forall j :: 0 <= j < |PositionsOf(ps, electionId)| ==> PositionsOf(ps, electionId)[j].id in done
    ensures forall k :: 0 <= k < |ps| && ps[k].electionId == electionId ==> ps[k].id in done
  {
    var own := PositionsOf(ps, electionId);
    PositionsOfSpec(ps, electionId);
    forall k | 0 <= k < |ps| && ps[k].electionId == electionId
      ensures ps[k].id in done
    {
      assert ps[k] in own;
      var j :| 0 <= j < |own| && own[j] == ps[k];
    }
  }

  /** TallyResults: only the owner may tally, only a closed election; every
      position gets its ranked candidates and, when someone got a vote, a
      stored winner. All winner updates commit together or not at all. */
  method TallyResults(db: Database, electionId: int, officialId: string, failing: set<int>)
    returns (r: Result<ElectionResults, LifecycleError>)
    requires db.Valid()
    modifies db
    ensures db.Valid()
    ensures db.elections == old(db.elections) && db.candidates == old(db.candidates)
    ensures db.votes == old(db.votes) && db.users == old(db.users) && db.credentials == old(db.credentials)
    ensures db.nextElectionId == old(db.nextElectionId) && db.nextPositionId == old(db.nextPositionId)
    ensures db.nextCandidateId == old(db.nextCandidateId) && db.nextVoteId == old(db.nextVoteId)
    ensures var info := GetElectionInfo(old(db.elections), electionId, officialId);
      var own := PositionsOf(old(db.positions), electionId);
      if info.Err? then r == Err(info.error) && db.positions == old(db.positions)
      else if info.value.status != Closed then r == Err(ElectionNotClosed) && db.positions == old(db.positions)
      else if SomeUpdateFails(own, db.candidates, db.votes, failing) then
        r.Err? && r.error.StoreFailure? && db.positions == old(db.positions)
      else
        r == Ok(ElectionResults(info.value.name, false, ComputedResults(own, db.candidates, db.votes)))
        && db.positions == TalliedTable(old(db.positions), db.candidates, db.votes, electionId)
  {
    var info := GetElectionInfo(db.elections, electionId, officialId);
    if info.Err? {
      return Err(info.error);
    }
    if info.value.status != Closed {
      return Err(ElectionNotClosed);
    }
    var ok, table, results := WriteWinners(db.positions, db.candidates, db.votes, electionId, failing);
    if !ok {
      return Err(StoreFailure("failed to update position winner"));
    }
    TalliedTableKeepsKeys(db.positions, db.candidates, db.votes, electionId);
    db.positions := table;
    r := Ok(ElectionResults(info.value.name, false, results));
  }

  /** GetResults: the read-only report. It writes nothing, reports the
      stored winners (not recomputed ones) and whether voting is open. */
  method GetResults(db: Database, electionId: int, officialId: string)
    returns (r: Result<ElectionResults, LifecycleError>)
    requires db.Valid()
    ensures var info := GetElectionInfo(db.elections, electionId, officialId);
      if info.Err? then r == Err(info.error)
      else r == Ok(ElectionResults(info.value.name, info.value.status == Active,
                                   StoredResults(PositionsOf(db.positions, electionId), db.candidates, db.votes)))
    ensures r.Ok? ==> forall i, j :: 0 <= i < j < |r.value.positions| ==>
                        r.value.positions[i].positionId < r.value.positions[j].positionId
  {
    var info := GetElectionInfo(db.elections, electionId, officialId);
    if info.Err? {
      return Err(info.error);
    }
    var own := PositionsOf(db.positions, electionId);
    PositionsOfSpec(db.positions, electionId);
    var results: seq<PositionResult> := [];
    var i := 0;
    while i < |own|
      invariant 0 <= i <= |own|
      invariant results == StoredResults(own[..i], db.candidates, db.votes)
    {
      var p := own[i];
      ResultsSnoc(own, i, db.candidates, db.votes);
      results := results + [PositionResult(p.id, p.name, CandidateVotes(db.candidates, db.votes, p.id), p.winner)];
      i := i + 1;
    }
    assert own[..i] == own;
    r := Ok(ElectionResults(info.value.name, info.value.status == Active, results));
  }

  /** Reading results right after a tally of positions that had no stored
      winner reports exactly the tallied sheet. */
  lemma {:induction false} ResultsAfterTallyAgree(ps: seq<Position>, cs: seq<Candidate>, vs: seq<Vote>, electionId: int)
    requires forall k :: 0 <= k < |ps| ==> ps[k].electionId == electionId && ps[k].winner.None?
    ensures StoredResults(seq(|ps|, k requires 0 <= k < |ps| => TalliedPosition(ps[k], cs, vs, electionId)), cs, vs)
            == ComputedResults(ps, cs, vs)
  {
    var tallied := seq(|ps|, k requires 0 <= k < |ps| => TalliedPosition(ps[k], cs, vs, electionId));
    forall k | 0 <= k < |ps| ensures StoredResult(tallied[k], cs, vs) == ComputedResult(ps[k], cs, vs) {
      assert tallied[k].id == ps[k].id;
    }
  }

  /** Tallying twice writes nothing new: the winner column is a function of
      the (unchanged) candidates and votes. */
  lemma TallyIdempotent(p: Position, cs: seq<Candidate>, vs: seq<Vote>, electionId: int)
    ensures TalliedPosition(TalliedPosition(p, cs, vs, electionId), cs, vs, electionId)
            == TalliedPosition(p, cs, vs, electionId)
  {
  }
}
