// The district official's terminal client: the one forward action offered
// for each election stage, the request it sends, how the answer is judged,
// and the winners display.
module OfficialClient {
  import opened Wrappers
  import opened EvotingTables
  import ElectionManagement
  import ServerRoutes
  import opened VoterClient

  /** The forward action offered for an election: open, close, or show
      the winners. */
  datatype OfficialAction = OpenVoting | CloseVoting | ShowWinners

  /** next_map: one forward action per stage. */
  function NextAction(stage: ActiveEnum): (a: OfficialAction)
    ensures a == OpenVoting <==> stage == PreElection
    ensures a == CloseVoting <==> stage == ActiveElection
    ensures a == ShowWinners <==> stage == PostElection
  {
    match stage
    case PreElection => OpenVoting
    case ActiveElection => CloseVoting
    case PostElection => ShowWinners
  }

  /** The last path segment executeNextElectionState posts to. */
  function ActionSuffix(stage: ActiveEnum): (s: string)
    ensures s in {"open", "close", "tally"}
  {
    match stage
    case PreElection => "open"
    case ActiveElection => "close"
    case PostElection => "tally"
  }

  /** Distinct stages post to distinct actions, and each request reaches the
      server's official action of that name. */
  lemma ActionSuffixRoutes(stage: ActiveEnum, other: ActiveEnum, id: string)
    requires forall i :: 0 <= i < |id| ==> id[i] != '/'
    ensures stage != other ==> ActionSuffix(stage) != ActionSuffix(other)
    ensures ServerRoutes.RouteElections("POST", "/elections/" + id + "/" + ActionSuffix(stage))
            == ServerRoutes.OfficialAction(id, ActionSuffix(stage))
  {
    var s := ActionSuffix(stage);
    assert forall i :: 0 <= i < |s| ==> s[i] != '/';
    ServerRoutes.RouteElectionsParses("POST", id, s);
  }

  /** executeNextElectionState as written: only 200 is success. */
  predicate AcceptedAsWritten(status: int) { status == ServerRoutes.StatusOK }

  /** A successful open or close is answered 204 by the server, which the
      client as written reports as an error. */
  lemma SuccessfulOpenCloseReportedAsError(stage: ActiveEnum)
    requires stage != PostElection
    ensures !AcceptedAsWritten(ServerRoutes.ActionStatus(ActionSuffix(stage), None))
  {
  }

  /** The success status the server gives each action: 204 for open and
      close, 200 for tally and results. */
  predicate Accepted(suffix: string, status: int)
  {
    status == (if suffix == "open" || suffix == "close" then ServerRoutes.StatusNoContent else ServerRoutes.StatusOK)
  }

  /** With the corrected check, the client reports success exactly when the
      server's action succeeded. */
  lemma AcceptedIffSucceeded(stage: ActiveEnum, outcome: Option<ElectionManagement.LifecycleError>)
    ensures Accepted(ActionSuffix(stage), ServerRoutes.ActionStatus(ActionSuffix(stage), outcome)) <==> outcome.None?
  {
    if outcome.Some? {
      var code := ServerRoutes.LifecycleStatus(outcome.value);
      assert code in {404, 403, 409, 400, 500};
    }
  }

  /** The action menu: the forward action, "return", "exit". */
  datatype MenuChoice = Forward | ReturnToList | Exit

  /** The election the official picked, changed in place when closing
      forces it to the post-election stage. */
  class SelectedElection {
    var electionId: int
    var stage: ActiveEnum

    constructor (electionId: int, stage: ActiveEnum)
      ensures this.electionId == electionId && this.stage == stage
    {
      this.electionId := electionId;
      this.stage := stage;
    }

    /** selectElectionActions: the requests sent for the chosen menu item
        (`answer` stands for the server's status for an action). For each
        request, `reported` is whether the client as written takes it for a
        success (executeNextElectionState and fetchElectionResults accept
        200 only) and `succeeded` whether the server's action did succeed.
        Closing is followed by a tally whatever the close's answer, after
        the stage has been forced to post-election. */
    method RunAction(choice: MenuChoice, answer: string -> int)
      returns (requests: seq<string>, reported: seq<bool>, succeeded: seq<bool>)
      modifies this
      ensures electionId == old(electionId)
      ensures |requests| == |reported| == |succeeded|
      ensures forall k :: 0 <= k < |requests| ==> reported[k] == AcceptedAsWritten(answer(requests[k]))
      ensures forall k :: 0 <= k < |requests| ==> succeeded[k] == Accepted(requests[k], answer(requests[k]))
      ensures forall k :: 0 <= k < |requests| && (requests[k] == "open" || requests[k] == "close") ==>
        (succeeded[k] ==> !reported[k])
      ensures choice != Forward ==> requests == [] && stage == old(stage)
      ensures choice == Forward ==> match old(stage)
        case PreElection => requests == ["open"] && stage == PreElection
        case ActiveElection => requests == ["close", "tally"] && stage == PostElection
        case PostElection => requests == ["results"] && stage == PostElection
    {
      requests, reported, succeeded := [], [], [];
      if choice != Forward {
        return;
      }
      match NextAction(stage)
      case OpenVoting =>
        var s := ActionSuffix(stage);
        requests := [s];
        reported, succeeded := [AcceptedAsWritten(answer(s))], [Accepted(s, answer(s))];
      case CloseVoting =>
        var s := ActionSuffix(stage);
        requests := [s];
        reported, succeeded := [AcceptedAsWritten(answer(s))], [Accepted(s, answer(s))];
        stage := PostElection;
        var t := ActionSuffix(stage);
        requests := requests + [t];
        reported, succeeded := reported + [AcceptedAsWritten(answer(t))], succeeded + [Accepted(t, answer(t))];
      case ShowWinners =>
        requests := ["results"];
        reported, succeeded := [AcceptedAsWritten(answer("results"))], [Accepted("results", answer("results"))];
    }
  }

  // The winners display.

  /** One line of the winners display. */
  datatype WinnerLine = WinnerLine(positionName: string, candidateName: string, votes: int)

  /** The first listed candidate with this id. */
  function FirstWithId(cands: seq<ElectionManagement.CandidateResult>, id: int): (r: Option<ElectionManagement.CandidateResult>)
    ensures r.Some? ==> r.value in cands && r.value.candidateId == id
    ensures r.None? ==> forall k :: 0 <= k < |cands| ==> cands[k].candidateId != id
  {
    if |cands| == 0 then None
    else if cands[0].candidateId == id then Some(cands[0])
    else FirstWithId(cands[1..], id)
  }

  /** The line shown for a position: its winner among its candidates, if
      a winner is recorded and listed. */
  function LineOf(p: ElectionManagement.PositionResult): Option<WinnerLine>
  {
    if p.winnerId.None? then None
    else match FirstWithId(p.candidates, p.winnerId.value)
      case None => None
      case Some(c) => Some(WinnerLine(p.positionName, c.name, c.voteCount))
  }

  /** The display: the lines of the positions that have one, in order. */
  function Lines(ps: seq<ElectionManagement.PositionResult>): seq<WinnerLine>
  {
    if |ps| == 0 then []
    else
      var init := Lines(ps[..|ps| - 1]);
      match LineOf(ps[|ps| - 1])
      case None => init
      case Some(l) => init + [l]
  }

  /** `l` is the line of position `p`, which has a recorded winner. */
  predicate ShownFor(p: ElectionManagement.PositionResult, l: WinnerLine)
  {
    p.winnerId.Some? && p.positionName == l.positionName && LineOf(p) == Some(l)
  }

  /** The display names only recorded winners: each line is the winner of
      some position, with that candidate's name and votes. */
  lemma {:induction false} LinesAreWinners(ps: seq<ElectionManagement.PositionResult>)
    ensures |Lines(ps)| <= |ps|
    ensures forall l :: l in Lines(ps) ==> exists k :: 0 <= k < |ps| && ShownFor(ps[k], l)
  {
    if |ps| > 0 {
      var init := ps[..|ps| - 1];
      LinesAreWinners(init);
      forall l | l in Lines(ps) ensures exists k :: 0 <= k < |ps| && ShownFor(ps[k], l) {
        if l in Lines(init) {
          var k :| 0 <= k < |init| && ShownFor(init[k], l);
          assert ps[k] == init[k];
        } else {
          assert LineOf(ps[|ps| - 1]) == Some(l);
        }
      }
    }
  }

  /** Every position that lists a candidate has a recorded winner: what the
      display as written relies on, since it reads the winner of every such
      position without checking that there is one. */
  predicate WinnersRecorded(ps: seq<ElectionManagement.PositionResult>)
  {
    forall k :: 0 <= k < |ps| && |ps[k].candidates| > 0 ==> ps[k].winnerId.Some?
  }

  /** fetchElectionResults as written: the winner of each position with
      candidates is read unconditionally. */
  method WinnerLinesAsWritten(ps: seq<ElectionManagement.PositionResult>) returns (lines: seq<WinnerLine>)
    requires WinnersRecorded(ps)
    ensures lines == Lines(ps)
  {
    lines := [];
    var i := 0;
    while i < |ps|
      invariant 0 <= i <= |ps|
      invariant lines == Lines(ps[..i])
    {
      assert ps[..i + 1][..i] == ps[..i];
      var p := ps[i];
      var j := 0;
      var found: Option<WinnerLine> := None;
      while j < |p.candidates|
        invariant 0 <= j <= |p.candidates|
        invariant |p.candidates| > 0 ==> p.winnerId.Some?
        invariant found.None? && |p.candidates| > 0 ==>
          FirstWithId(p.candidates, p.winnerId.value) == FirstWithId(p.candidates[j..], p.winnerId.value)
        invariant found.Some? ==> found == LineOf(p)
      {
        assert p.candidates[j..][1..] == p.candidates[j + 1..];
        var c := p.candidates[j];
        if p.winnerId.value == c.candidateId {
          found := Some(WinnerLine(p.positionName, c.name, c.voteCount));
          break;
        }
        j := j + 1;
      }
      if found.Some? {
        lines := lines + [found.value];
      }
      i := i + 1;
    }
    assert ps[..i] == ps;
  }

  /** A position whose candidates got no votes is tallied without a winner,
      so a tallied sheet can break the display's assumption. */
  lemma TallyWithoutVotesBreaksDisplay(p: Position, cs: seq<Candidate>)
    requires exists c :: c in cs && c.positionId == p.id
    ensures !WinnersRecorded([ElectionManagement.ComputedResult(p, cs, [])])
  {
    var c :| c in cs && c.positionId == p.id;
    ElectionManagement.CandidatesOfSpec(cs, p.id);
    ElectionManagement.RankedMembers(cs, [], p.id);
    ElectionManagement.WinnerExistsIff(cs, [], p.id);
    var r := ElectionManagement.ComputedResult(p, cs, []);
    assert ElectionManagement.Counted(c, []) in r.candidates;
    assert forall d: Candidate :: VotesFor([], d.id) == 0;
    assert r.winnerId.None?;
    assert [r][0] == r;
  }

  /** The display with the missing-winner case handled: a position without
      a recorded winner gets no line. */
  method WinnerLines(ps: seq<ElectionManagement.PositionResult>) returns (lines: seq<WinnerLine>)
    ensures lines == Lines(ps)
  {
    lines := [];
    var i := 0;
    while i < |ps|
      invariant 0 <= i <= |ps|
      invariant lines == Lines(ps[..i])
    {
      assert ps[..i + 1][..i] == ps[..i];
      var p := ps[i];
      if p.winnerId.Some? {
        var j := 0;
        var found: Option<WinnerLine> := None;
        while j < |p.candidates|
          invariant 0 <= j <= |p.candidates|
          invariant found.None? ==> FirstWithId(p.candidates, p.winnerId.value) == FirstWithId(p.candidates[j..], p.winnerId.value)
          invariant found.Some? ==> found == LineOf(p)
        {
          assert p.candidates[j..][1..] == p.candidates[j + 1..];
          var c := p.candidates[j];
          if p.winnerId.value == c.candidateId {
            found := Some(WinnerLine(p.positionName, c.name, c.voteCount));
            break;
          }
          j := j + 1;
        }
        if found.Some? {
          lines := lines + [found.value];
        }
      }
      i := i + 1;
    }
    assert ps[..i] == ps;
  }
}
