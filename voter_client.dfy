// The voter's terminal client: reading the election list, building a
// ballot from the server's election detail, toggling candidate choices and
// submitting the chosen ones.
module VoterClient {
  import opened Wrappers
  import opened EvotingTables
  import ListElections
  import GetElection
  import ElectionManagement
  import Ballots

  /** The client's view of an election's stage. */
  datatype ActiveEnum = PreElection | ActiveElection | PostElection

  datatype ClientElection = ClientElection(electionId: int, officialId: string, name: string,
                                           district: string, isActive: ActiveEnum)

  datatype ClientCandidate = ClientCandidate(candidateId: int, userId: string, positionId: int,
                                             name: string, party: string)

  datatype ClientPosition = ClientPosition(positionId: int, positionName: string, electionId: int, winnerId: int)

  /** One line of the ballot; `chosen` is an index into `candidates`, or -1
      for no choice. */
  datatype BallotSelection = BallotSelection(position: ClientPosition, candidates: seq<ClientCandidate>, chosen: int)

  datatype FetchError = HttpStatus(code: int) | UnknownActiveState(index: nat) | NilElection

  const NoChoice := -1

  /** The status map of fetchElections: 0, 1 and 2 only. */
  function StatusEnum(code: int): (r: Option<ActiveEnum>)
    ensures r.Some? <==> 0 <= code <= 2
    ensures r == Some(PreElection) <==> code == 0
    ensures r == Some(ActiveElection) <==> code == 1
    ensures r == Some(PostElection) <==> code == 2
  {
    if code == 0 then Some(PreElection)
    else if code == 1 then Some(ActiveElection)
    else if code == 2 then Some(PostElection)
    else None
  }

  /** Read through the corrected listing code, the client sees each
      election in the stage the server has it in. */
  lemma ClientSeesStage(status: string)
    requires status in {NotStarted, Active, Closed}
    ensures StatusEnum(ListElections.StatusCode(status)) ==
      (if status == NotStarted then Some(PreElection)
       else if status == Active then Some(ActiveElection) else Some(PostElection))
  {
  }

  function ClientElectionOf(row: ListElections.ElectionListRow, stage: ActiveEnum): ClientElection
  {
    ClientElection(row.electionId, row.officialId, row.electionName, row.districtName, stage)
  }

  /** fetchElections after the request: anything but 200 is an error;
      otherwise the rows are converted in order, failing at the first row
      with an unknown activation code. */
  method FetchElections(status: int, rows: seq<ListElections.ElectionListRow>)
    returns (r: Result<seq<ClientElection>, FetchError>)
    ensures status != 200 ==> r == Err(HttpStatus(status))
    ensures status == 200 && r.Ok? ==>
      |r.value| == |rows|
      && forall k :: 0 <= k < |rows| ==>
           StatusEnum(rows[k].isActive).Some?
           && r.value[k] == ClientElectionOf(rows[k], StatusEnum(rows[k].isActive).value)
    ensures status == 200 && r.Err? ==>
      r.error.UnknownActiveState? && r.error.index < |rows|
      && StatusEnum(rows[r.error.index].isActive).None?
      && forall k :: 0 <= k < r.error.index ==> StatusEnum(rows[k].isActive).Some?
    ensures status == 200 ==> (r.Ok? <==> forall k :: 0 <= k < |rows| ==> StatusEnum(rows[k].isActive).Some?)
  {
    if status != 200 {
      return Err(HttpStatus(status));
    }
    var list: seq<ClientElection> := [];
    var i := 0;
    while i < |rows|
      invariant 0 <= i <= |rows| && |list| == i
      invariant forall k :: 0 <= k < i ==>
        StatusEnum(rows[k].isActive).Some?
        && list[k] == ClientElectionOf(rows[k], StatusEnum(rows[k].isActive).value)
    {
      var stage := StatusEnum(rows[i].isActive);
      if stage.None? {
        return Err(UnknownActiveState(i));
      }
      list := list + [ClientElectionOf(rows[i], stage.value)];
      i := i + 1;
    }
    r := Ok(list);
  }

  /** The ballot line fetchBallot makes for one position: no winner yet
      (-1), no choice yet, and the position's candidates in server order. */
  function SelectionOf(p: GetElection.PositionForBallot, electionId: int): BallotSelection
  {
    BallotSelection(ClientPosition(p.positionId, p.positionName, electionId, -1),
                    seq(|p.candidates|, j requires 0 <= j < |p.candidates| =>
                      ClientCandidate(p.candidates[j].id, "", p.positionId, p.candidates[j].name, p.candidates[j].party)),
                    NoChoice)
  }

  function SelectionsOf(response: GetElection.ElectionForBallot): seq<BallotSelection>
  {
    seq(|response.positions|, k requires 0 <= k < |response.positions| =>
      SelectionOf(response.positions[k], response.electionId))
  }

  /** Every choice is -1 or an index of a candidate of its line. */
  predicate ChoicesInRange(sels: seq<BallotSelection>)
  {
    forall k :: 0 <= k < |sels| ==> NoChoice <= sels[k].chosen < |sels[k].candidates|
  }

  /** The loops of fetchBallot that copy the response into ballot lines. */
  method BuildSelections(response: GetElection.ElectionForBallot) returns (sels: seq<BallotSelection>)
    ensures sels == SelectionsOf(response)
    ensures ChoicesInRange(sels)
  {
    sels := [];
    var i := 0;
    while i < |response.positions|
      invariant 0 <= i <= |response.positions|
      invariant sels == SelectionsOf(response)[..i]
    {
      var pos := response.positions[i];
      var cands: seq<ClientCandidate> := [];
      var j := 0;
      while j < |pos.candidates|
        invariant 0 <= j <= |pos.candidates|
        invariant cands == SelectionOf(pos, response.electionId).candidates[..j]
      {
        var c := pos.candidates[j];
        cands := cands + [ClientCandidate(c.id, "", pos.positionId, c.name, c.party)];
        j := j + 1;
      }
      assert cands == SelectionOf(pos, response.electionId).candidates;
      sels := sels + [BallotSelection(ClientPosition(pos.positionId, pos.positionName, response.electionId, -1),
                                      cands, NoChoice)];
      i := i + 1;
    }
  }

  /** What selecting candidate `i` does to the current choice: picking the
      chosen candidate again clears it; any other index becomes the choice. */
  function Toggle(chosen: int, i: int): (r: int)
    ensures r == NoChoice <==> chosen == i || i == NoChoice
    ensures r != NoChoice ==> r == i
  {
    if chosen == i then NoChoice else i
  }

  /** Picking the same candidate twice from no choice leaves no choice. */
  lemma ToggleTwice(i: int)
    ensures Toggle(Toggle(NoChoice, i), i) == NoChoice
  {
  }

  /** One answer of the candidate menu: the index of the item, and whether
      the prompt failed. The menu lists the candidates, then "return to
      positions", then "exit". */
  datatype PromptResult = PromptResult(index: int, failed: bool)

  /** How the candidate loop ends. */
  datatype MenuExit = BackToPositions | ExitProgram | OutOfInput

  /** The choice after the candidate loop has read `prompts` on a line with
      `n` candidates, and why it stopped: a failed prompt is not checked for
      "return" or "exit" and goes on to the toggle with whatever index came
      back. */
  function ChoiceAfter(chosen: int, n: nat, prompts: seq<PromptResult>): (r: (int, MenuExit))
    decreases |prompts|
  {
    if |prompts| == 0 then (chosen, OutOfInput)
    else
      var p := prompts[0];
      if !p.failed && p.index == n + 1 then (chosen, ExitProgram)
      else if !p.failed && p.index == n then (chosen, BackToPositions)
      else ChoiceAfter(Toggle(chosen, p.index), n, prompts[1..])
  }

  /** The menu only answers with its own items; a failed prompt answers with
      -1 or a candidate's index. */
  predicate PromptsInMenu(n: nat, prompts: seq<PromptResult>)
  {
    forall k :: 0 <= k < |prompts| ==>
      (if prompts[k].failed then NoChoice <= prompts[k].index < n else 0 <= prompts[k].index < n + 2)
  }

  /** The candidate loop keeps the choice -1 or a candidate's index. */
  lemma {:induction false} ChoiceAfterInRange(chosen: int, n: nat, prompts: seq<PromptResult>)
    requires NoChoice <= chosen < n
    requires PromptsInMenu(n, prompts)
    ensures NoChoice <= ChoiceAfter(chosen, n, prompts).0 < n
    decreases |prompts|
  {
    if |prompts| > 0 {
      var p := prompts[0];
      if !(!p.failed && p.index == n + 1) && !(!p.failed && p.index == n) {
        assert PromptsInMenu(n, prompts[1..]) by {
          forall k | 0 <= k < |prompts[1..]| ensures prompts[1..][k] == prompts[k + 1] { }
        }
        ChoiceAfterInRange(Toggle(chosen, p.index), n, prompts[1..]);
      }
    }
  }

  /** The vote submitted for a line with a choice. */
  function VoteOf(s: BallotSelection): Ballots.Selection
    requires 0 <= s.chosen < |s.candidates|
  {
    Ballots.Selection(s.position.positionId, s.candidates[s.chosen].candidateId)
  }

  /** The payload of SubmitBallot: one vote per line with a choice, in
      ballot order. */
  function PayloadOf(sels: seq<BallotSelection>): (p: seq<Ballots.Selection>)
    requires ChoicesInRange(sels)
    ensures |p| <= |sels|
  {
    if |sels| == 0 then []
    else
      var last := sels[|sels| - 1];
      var init := PayloadOf(sels[..|sels| - 1]);
      if last.chosen != NoChoice then init + [VoteOf(last)] else init
  }

  /** Each vote in the payload is the vote of some chosen line, and every
      chosen line's vote is in the payload. */
  lemma {:induction false} PayloadMembers(sels: seq<BallotSelection>)
    requires ChoicesInRange(sels)
    ensures forall v :: v in PayloadOf(sels) <==>
      exists k :: 0 <= k < |sels| && sels[k].chosen != NoChoice && v == VoteOf(sels[k])
  {
    if |sels| > 0 {
      var init := sels[..|sels| - 1];
      PayloadMembers(init);
      forall v ensures v in PayloadOf(sels) <==>
        exists k :: 0 <= k < |sels| && sels[k].chosen != NoChoice && v == VoteOf(sels[k])
      {
        if v in PayloadOf(init) {
          var k :| 0 <= k < |init| && init[k].chosen != NoChoice && v == VoteOf(init[k]);
          assert sels[k] == init[k];
        }
        if exists k :: 0 <= k < |sels| && sels[k].chosen != NoChoice && v == VoteOf(sels[k]) {
          var k :| 0 <= k < |sels| && sels[k].chosen != NoChoice && v == VoteOf(sels[k]);
          if k < |init| {
            assert init[k] == sels[k];
          }
        }
      }
    }
  }

  /** Lines in ascending position order give votes in ascending position
      order, so no position is voted twice. */
  lemma {:induction false} PayloadAscending(sels: seq<BallotSelection>)
    requires ChoicesInRange(sels)
    requires forall i, j :: 0 <= i < j < |sels| ==> sels[i].position.positionId < sels[j].position.positionId
    ensures var p := PayloadOf(sels);
      forall i, j :: 0 <= i < j < |p| ==> p[i].positionId < p[j].positionId
  {
    if |sels| > 0 {
      var init := sels[..|sels| - 1];
      var last := sels[|sels| - 1];
      PayloadAscending(init);
      PayloadMembers(init);
      if last.chosen != NoChoice {
        var p := PayloadOf(sels);
        forall i | 0 <= i < |PayloadOf(init)| ensures PayloadOf(init)[i].positionId < last.position.positionId {
          var v := PayloadOf(init)[i];
          assert v in PayloadOf(init);
          var k :| 0 <= k < |init| && init[k].chosen != NoChoice && v == VoteOf(init[k]);
          assert init[k] == sels[k];
        }
        assert p == PayloadOf(init) + [VoteOf(last)];
        forall i, j | 0 <= i < j < |p| ensures p[i].positionId < p[j].positionId {
          if j < |p| - 1 {
            assert p[i] == PayloadOf(init)[i] && p[j] == PayloadOf(init)[j];
          } else {
            assert p[i] == PayloadOf(init)[i];
          }
        }
      }
    }
  }

  /** The lines of a ballot built from this election detail, with any
      choices made on them. */
  predicate BuiltFrom(sels: seq<BallotSelection>, response: GetElection.ElectionForBallot)
  {
    |sels| == |response.positions|
    && forall k :: 0 <= k < |sels| ==>
         sels[k] == SelectionOf(response.positions[k], response.electionId).(chosen := sels[k].chosen)
  }

  /** A payload made from a ballot of the server's own election detail
      passes the server's selection checks: each vote names a position of
      the election and a candidate of that position, and no position twice. */
  lemma FetchedBallotPayloadWellFormed(ps: seq<Position>, cs: seq<Candidate>, electionId: int,
                                       sels: seq<BallotSelection>)
    requires PositionIdsIncreasing(ps) && CandidateIdsIncreasing(cs)
    requires BuiltFrom(sels, GetElection.ElectionForBallot(electionId, "", GetElection.BallotPositions(ps, cs, electionId)))
    requires ChoicesInRange(sels)
    ensures Ballots.WellFormedSelections(Ballots.ElectionPositionIds(ps, electionId), cs, PayloadOf(sels))
  {
    var b := GetElection.BallotPositions(ps, cs, electionId);
    GetElection.BallotPositionsOrdered(ps, cs, electionId);
    var own := ElectionManagement.PositionsOf(ps, electionId);
    ElectionManagement.PositionsOfSpec(ps, electionId);
    PayloadAscending(sels);
    PayloadMembers(sels);
    var p := PayloadOf(sels);
    var posIds := Ballots.ElectionPositionIds(ps, electionId);
    forall i | 0 <= i < |p|
      ensures p[i].positionId in posIds
      ensures CandidateInPosition(cs, p[i].candidateId, p[i].positionId)
    {
      assert p[i] in p;
      var k :| 0 <= k < |sels| && sels[k].chosen != NoChoice && p[i] == VoteOf(sels[k]);
      assert own[k] in ps;
      var m :| 0 <= m < |ps| && ps[m] == own[k];
      assert p[i].positionId == ps[m].id;
      var bc := b[k].candidates[sels[k].chosen];
      assert GetElection.BelongsTo(cs, bc, b[k].positionId);
      var c :| c in cs && c.positionId == b[k].positionId && GetElection.BallotCandidate(c) == bc;
      var n :| 0 <= n < |cs| && cs[n] == c;
    }
  }

  /** fetchBallot after the request: a missing election or a status other
      than 200 is an error; otherwise a new ballot for `username` with one
      line per position of the response. */
  method FetchBallot(election: Option<ClientElection>, status: int, response: GetElection.ElectionForBallot,
                     username: string)
    returns (ballot: Ballot?, err: Option<FetchError>)
    ensures election.None? ==> err == Some(NilElection) && ballot == null
    ensures election.Some? && status != 200 ==> err == Some(HttpStatus(status)) && ballot == null
    ensures election.Some? && status == 200 ==>
      err.None? && ballot != null && fresh(ballot) && ballot.Valid()
      && ballot.electionId == response.electionId && ballot.userId == username
      && ballot.selections == SelectionsOf(response)
  {
    if election.None? {
      return null, Some(NilElection);
    }
    if status != 200 {
      return null, Some(HttpStatus(status));
    }
    var sels := BuildSelections(response);
    ballot := new Ballot(response.electionId, username, sels);
    err := None;
  }

  /** Submission counts as done only when the server answers 201. */
  predicate SubmitAccepted(status: int) { status == 201 }

  /** The voter's ballot, changed in place as candidates are chosen. */
  class Ballot {
    var electionId: int
    var userId: string
    var selections: seq<BallotSelection>

    ghost predicate Valid()
      reads this
    {
      ChoicesInRange(selections)
    }

    constructor (electionId: int, userId: string, selections: seq<BallotSelection>)
      requires ChoicesInRange(selections)
      ensures Valid()
      ensures this.electionId == electionId && this.userId == userId && this.selections == selections
    {
      this.electionId := electionId;
      this.userId := userId;
      this.selections := selections;
    }

    /** selectCandidate on line `pos`: read menu answers until "return" or
        "exit", toggling the choice for each other answer. Only that line's
        choice changes. */
    method SelectCandidate(pos: nat, prompts: seq<PromptResult>) returns (how: MenuExit)
      requires Valid() && pos < |selections|
      requires PromptsInMenu(|selections[pos].candidates|, prompts)
      modifies this
      ensures Valid()
      ensures electionId == old(electionId) && userId == old(userId) && |selections| == |old(selections)|
      ensures var after := ChoiceAfter(old(selections)[pos].chosen, |old(selections)[pos].candidates|, prompts);
        selections == old(selections)[pos := old(selections)[pos].(chosen := after.0)] && how == after.1
    {
      var n := |selections[pos].candidates|;
      ghost var start := selections[pos].chosen;
      var chosen := selections[pos].chosen;
      var i := 0;
      ChoiceAfterInRange(start, n, prompts);
      while i < |prompts|
        invariant 0 <= i <= |prompts|
        invariant NoChoice <= chosen < n
        invariant ChoiceAfter(start, n, prompts) == ChoiceAfter(chosen, n, prompts[i..])
      {
        assert prompts[i..][1..] == prompts[i + 1..];
        var p := prompts[i];
        if !p.failed && p.index == n + 1 {
          how := ExitProgram;
          break;
        } else if !p.failed && p.index == n {
          how := BackToPositions;
          break;
        }
        chosen := Toggle(chosen, p.index);
        i := i + 1;
      }
      if i == |prompts| {
        how := OutOfInput;
      }
      selections := selections[pos := selections[pos].(chosen := chosen)];
    }

    /** The payload loop of SubmitBallot. */
    method Payload() returns (payload: seq<Ballots.Selection>)
      requires Valid()
      ensures payload == PayloadOf(selections)
    {
      payload := [];
      var i := 0;
      while i < |selections|
        invariant 0 <= i <= |selections|
        invariant payload == PayloadOf(selections[..i])
      {
        assert selections[..i + 1][..i] == selections[..i];
        var s := selections[i];
        if s.chosen != NoChoice {
          payload := payload + [VoteOf(s)];
        }
        i := i + 1;
      }
      assert selections[..i] == selections;
    }
  }
}
