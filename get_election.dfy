// GetElectionForBallot: the ballot structure of one election, built by
// grouping the rows of a positions-LEFT-JOIN-candidates query.
module GetElection {
  import opened Wrappers
  import opened EvotingTables
  import ElectionManagement

  datatype CandidateForBallot = CandidateForBallot(id: int, name: string, party: string)

  datatype PositionForBallot = PositionForBallot(positionId: int, positionName: string, candidates: seq<CandidateForBallot>)

  datatype ElectionForBallot = ElectionForBallot(electionId: int, electionName: string, positions: seq<PositionForBallot>)

  datatype BallotError = ElectionNotFound

  /** One row of the join; `candidate` is None when the candidate columns
      are NULL (a position without candidates). */
  datatype JoinRow = JoinRow(positionId: int, positionName: string, candidate: Option<CandidateForBallot>)

  function BallotCandidate(c: Candidate): CandidateForBallot
  {
    CandidateForBallot(c.id, c.name, c.party)
  }

  /** The join rows of one position: one per candidate, or a single row
      with NULL candidate columns. */
  function PositionRows(p: Position, cands: seq<Candidate>): seq<JoinRow>
  {
    if |cands| == 0 then [JoinRow(p.id, p.name, None)]
    else CandidateRows(p, cands)
  }

  function CandidateRows(p: Position, cands: seq<Candidate>): seq<JoinRow>
  {
    seq(|cands|, k requires 0 <= k < |cands| => JoinRow(p.id, p.name, Some(BallotCandidate(cands[k]))))
  }

  /** The join over the given positions, ORDER BY p.id, c.id. */
  function JoinRowsOf(own: seq<Position>, cs: seq<Candidate>): seq<JoinRow>
  {
    if |own| == 0 then []
    else JoinRowsOf(own[..|own| - 1], cs)
         + PositionRows(own[|own| - 1], ElectionManagement.CandidatesOf(cs, own[|own| - 1].id))
  }

  /** The query of GetElectionForBallot for one election. */
  function JoinRows(ps: seq<Position>, cs: seq<Candidate>, electionId: int): seq<JoinRow>
  {
    JoinRowsOf(ElectionManagement.PositionsOf(ps, electionId), cs)
  }

  /** One ballot entry: the position with its candidates in id order. */
  function Entry(p: Position, cands: seq<Candidate>): PositionForBallot
  {
    PositionForBallot(p.id, p.name, seq(|cands|, k requires 0 <= k < |cands| => BallotCandidate(cands[k])))
  }

  function Entries(own: seq<Position>, cs: seq<Candidate>): seq<PositionForBallot>
  {
    seq(|own|, k requires 0 <= k < |own| => Entry(own[k], ElectionManagement.CandidatesOf(cs, own[k].id)))
  }

  /** What the ballot should hold: every position of the election, in id
      order, each with all of its candidates in id order. */
  function BallotPositions(ps: seq<Position>, cs: seq<Candidate>, electionId: int): seq<PositionForBallot>
  {
    Entries(ElectionManagement.PositionsOf(ps, electionId), cs)
  }

  /** The grouping loop's variables: the finished entries and `cur`
      (None while `haveCur` is false). */
  datatype GroupState = GroupState(positions: seq<PositionForBallot>, cur: Option<PositionForBallot>)

  const Start := GroupState([], None)

  /** One iteration of the row loop: a new position id pushes the previous
      entry and starts a new one; a non-NULL candidate is appended to the
      current entry. */
  function Step(st: GroupState, r: JoinRow): GroupState
  {
    var boundary := st.cur.None? || st.cur.value.positionId != r.positionId;
    var pushed := if boundary && st.cur.Some? then st.positions + [st.cur.value] else st.positions;
    var cur := if boundary then PositionForBallot(r.positionId, r.positionName, []) else st.cur.value;
    var cur' := if r.candidate.Some? then cur.(candidates := cur.candidates + [r.candidate.value]) else cur;
    GroupState(pushed, Some(cur'))
  }

  function Fold(st: GroupState, rows: seq<JoinRow>): GroupState
    decreases |rows|
  {
    if |rows| == 0 then st else Fold(Step(st, rows[0]), rows[1..])
  }

  /** The final push after the loop. */
  function Finish(st: GroupState): seq<PositionForBallot>
  {
    st.positions + (if st.cur.Some? then [st.cur.value] else [])
  }

  lemma {:induction false} FoldAppend(st: GroupState, a: seq<JoinRow>, b: seq<JoinRow>)
    ensures Fold(st, a + b) == Fold(Fold(st, a), b)
    decreases |a|
  {
    if |a| == 0 {
      assert a + b == b;
    } else {
      assert (a + b)[1..] == a[1..] + b;
      FoldAppend(Step(st, a[0]), a[1..], b);
    }
  }

  /** Rows of the current position only append candidates to `cur`. */
  lemma {:induction false} FoldSamePosition(done: seq<PositionForBallot>, p: Position, pre: seq<Candidate>, cands: seq<Candidate>)
    ensures Fold(GroupState(done, Some(Entry(p, pre))), CandidateRows(p, cands))
            == GroupState(done, Some(Entry(p, pre + cands)))
    decreases |cands|
  {
    if |cands| == 0 {
      assert pre + cands == pre;
    } else {
      var rows := CandidateRows(p, cands);
      assert rows[1..] == CandidateRows(p, cands[1..]);
      var pre' := pre + [cands[0]];
      assert Entry(p, pre').candidates == Entry(p, pre).candidates + [BallotCandidate(cands[0])];
      assert Step(GroupState(done, Some(Entry(p, pre))), rows[0]) == GroupState(done, Some(Entry(p, pre')));
      FoldSamePosition(done, p, pre', cands[1..]);
      assert pre' + cands[1..] == pre + cands;
    }
  }

  /** The rows of a position that differs from `cur` close `cur` and leave
      that position's complete entry as the new `cur`. */
  lemma FoldPositionRows(st: GroupState, p: Position, cands: seq<Candidate>)
    requires st.cur.None? || st.cur.value.positionId != p.id
    ensures Fold(st, PositionRows(p, cands)) == GroupState(Finish(st), Some(Entry(p, cands)))
  {
    var rows := PositionRows(p, cands);
    if |cands| == 0 {
      assert Entry(p, cands).candidates == [];
      assert Step(st, rows[0]) == GroupState(Finish(st), Some(Entry(p, cands)));
    } else {
      assert rows[1..] == CandidateRows(p, cands[1..]);
      assert Entry(p, [cands[0]]).candidates == [] + [BallotCandidate(cands[0])];
      assert Step(st, rows[0]) == GroupState(Finish(st), Some(Entry(p, [cands[0]])));
      FoldSamePosition(Finish(st), p, [cands[0]], cands[1..]);
      assert [cands[0]] + cands[1..] == cands;
    }
  }

  /** Folding the join over positions with distinct, ascending ids leaves
      one complete entry per position. */
  lemma {:induction false} FoldJoin(own: seq<Position>, cs: seq<Candidate>)
    requires PositionIdsIncreasing(own)
    ensures |own| == 0 ==> Fold(Start, JoinRowsOf(own, cs)) == Start
    ensures |own| > 0 ==>
      Fold(Start, JoinRowsOf(own, cs))
      == GroupState(Entries(own[..|own| - 1], cs), Some(Entry(own[|own| - 1], ElectionManagement.CandidatesOf(cs, own[|own| - 1].id))))
  {
    if |own| > 0 {
      var init := own[..|own| - 1];
      var p := own[|own| - 1];
      var cands := ElectionManagement.CandidatesOf(cs, p.id);
      assert PositionIdsIncreasing(init);
      FoldJoin(init, cs);
      assert JoinRowsOf(own, cs) == JoinRowsOf(init, cs) + PositionRows(p, cands);
      FoldAppend(Start, JoinRowsOf(init, cs), PositionRows(p, cands));
      var mid := Fold(Start, JoinRowsOf(init, cs));
      if |init| > 0 {
        assert own[|init| - 1] == init[|init| - 1];
        assert mid.cur.value.positionId == init[|init| - 1].id < p.id;
        EntriesSnoc(init, cs);
      } else {
        assert Entries(init, cs) == [];
      }
      assert Finish(mid) == Entries(init, cs);
      FoldPositionRows(mid, p, cands);
    }
  }

  /** The entries grow one position at a time. */
  lemma EntriesSnoc(own: seq<Position>, cs: seq<Candidate>)
    requires |own| > 0
    ensures Entries(own, cs)
            == Entries(own[..|own| - 1], cs) + [Entry(own[|own| - 1], ElectionManagement.CandidatesOf(cs, own[|own| - 1].id))]
  {
    var a := Entries(own, cs);
    var b := Entries(own[..|own| - 1], cs) + [Entry(own[|own| - 1], ElectionManagement.CandidatesOf(cs, own[|own| - 1].id))];
    assert |a| == |b|;
    forall k | 0 <= k < |a| ensures a[k] == b[k] {
      if k < |own| - 1 {
        assert own[..|own| - 1][k] == own[k];
      }
    }
  }

  /** Grouping the join rows yields exactly the election's ballot: each
      position once, in id order, with all its candidates and only them. */
  lemma GroupJoinRows(ps: seq<Position>, cs: seq<Candidate>, electionId: int)
    requires PositionIdsIncreasing(ps)
    ensures Finish(Fold(Start, JoinRows(ps, cs, electionId))) == BallotPositions(ps, cs, electionId)
  {
    var own := ElectionManagement.PositionsOf(ps, electionId);
    ElectionManagement.PositionsOfSpec(ps, electionId);
    FoldJoin(own, cs);
  }

  /** GetElectionForBallot: ErrElectionNotFound for a missing election,
      otherwise its id, name and ballot structure. */
  method GetElectionForBallot(db: Database, electionId: int) returns (r: Result<ElectionForBallot, BallotError>)
    requires db.Valid()
    ensures ElectionIndex(db.elections, electionId).None? <==> r == Err(ElectionNotFound)
    ensures r.Ok? ==>
      var e := db.elections[ElectionIndex(db.elections, electionId).value];
      r.value == ElectionForBallot(electionId, e.name, BallotPositions(db.positions, db.candidates, electionId))
  {
    var ek := ElectionIndex(db.elections, electionId);
    if ek.None? {
      return Err(ElectionNotFound);
    }
    var rows := JoinRows(db.positions, db.candidates, electionId);
    var positions: seq<PositionForBallot> := [];
    var cur := PositionForBallot(0, "", []);
    var haveCur := false;
    var i := 0;
    while i < |rows|
      invariant 0 <= i <= |rows|
      invariant Fold(Start, rows) == Fold(GroupState(positions, if haveCur then Some(cur) else None), rows[i..])
    {
      var row := rows[i];
      assert rows[i..][1..] == rows[i + 1..];
      if !haveCur || cur.positionId != row.positionId {
        if haveCur {
          positions := positions + [cur];
        }
        cur := PositionForBallot(row.positionId, row.positionName, []);
        haveCur := true;
      }
      if row.candidate.Some? {
        cur := cur.(candidates := cur.candidates + [row.candidate.value]);
      }
      i := i + 1;
    }
    if haveCur {
      positions := positions + [cur];
    }
    GroupJoinRows(db.positions, db.candidates, electionId);
    r := Ok(ElectionForBallot(electionId, db.elections[ek.value].name, positions));
  }

  /** The listed candidate is a row of `candidates` of that position. */
  predicate BelongsTo(cs: seq<Candidate>, bc: CandidateForBallot, positionId: int)
  {
    exists c :: c in cs && c.positionId == positionId && BallotCandidate(c) == bc
  }

  /** The ballot lists positions in strictly ascending id order (so each
      position once) and candidates in strictly ascending id order, each
      under the position it belongs to. */
  lemma BallotPositionsOrdered(ps: seq<Position>, cs: seq<Candidate>, electionId: int)
    requires PositionIdsIncreasing(ps) && CandidateIdsIncreasing(cs)
    ensures var b := BallotPositions(ps, cs, electionId);
      (forall i, j :: 0 <= i < j < |b| ==> b[i].positionId < b[j].positionId)
      && (forall i :: 0 <= i < |b| ==>
            forall x, y :: 0 <= x < y < |b[i].candidates| ==> b[i].candidates[x].id < b[i].candidates[y].id)
      && (forall i :: 0 <= i < |b| ==>
            forall x :: 0 <= x < |b[i].candidates| ==>
              BelongsTo(cs, b[i].candidates[x], b[i].positionId))
  {
    var own := ElectionManagement.PositionsOf(ps, electionId);
    ElectionManagement.PositionsOfSpec(ps, electionId);
    var b := BallotPositions(ps, cs, electionId);
    forall i | 0 <= i < |b|
      ensures (forall x, y :: 0 <= x < y < |b[i].candidates| ==> b[i].candidates[x].id < b[i].candidates[y].id)
      ensures (forall x :: 0 <= x < |b[i].candidates| ==> BelongsTo(cs, b[i].candidates[x], b[i].positionId))
    {
      var cands := ElectionManagement.CandidatesOf(cs, own[i].id);
      ElectionManagement.CandidatesOfSpec(cs, own[i].id);
      assert b[i] == Entry(own[i], cands);
      forall x | 0 <= x < |b[i].candidates|
        ensures BelongsTo(cs, b[i].candidates[x], b[i].positionId)
      {
        assert b[i].candidates[x] == BallotCandidate(cands[x]);
        assert cands[x] in cands;
        assert cands[x] in cs && cands[x].positionId == b[i].positionId;
      }
    }
  }
}
