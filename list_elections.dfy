// The two election listings: open elections only, and all elections with
// an activation code; both newest first.
module ListElections {
  import opened EvotingTables
  import ElectionManagement

  const NotActive: string := "not_active"

  datatype ElectionListRow = ElectionListRow(electionId: int, officialId: string, electionName: string,
                                             districtName: string, isActive: int)

  function ListRow(e: Election, code: int): ElectionListRow
  {
    ElectionListRow(e.id, e.officialId, e.name, e.district, code)
  }

  /** The rows last first, as `ORDER BY id DESC` gives them from a table
      kept in id order. */
  function Reverse<T>(s: seq<T>): (r: seq<T>)
    ensures |r| == |s|
    ensures forall i :: 0 <= i < |s| ==> r[i] == s[|s| - 1 - i]
  {
    seq(|s|, i requires 0 <= i < |s| => s[|s| - 1 - i])
  }

  /** The active elections' rows, in table order. */
  function ActiveRows(es: seq<Election>): seq<ElectionListRow>
  {
    if |es| == 0 then []
    else if es[|es| - 1].status == Active then ActiveRows(es[..|es| - 1]) + [ListRow(es[|es| - 1], 1)]
    else ActiveRows(es[..|es| - 1])
  }

  /** ListOpenElections: WHERE status = 'active' ORDER BY id DESC, with
      is_active = 1 on every row. */
  function ListOpenElections(es: seq<Election>): seq<ElectionListRow>
  {
    Reverse(ActiveRows(es))
  }

  lemma {:induction false} ActiveRowsSpec(es: seq<Election>)
    ensures forall r :: r in ActiveRows(es) <==> exists e :: e in es && e.status == Active && r == ListRow(e, 1)
    ensures ElectionIdsIncreasing(es) ==>
      forall i, j :: 0 <= i < j < |ActiveRows(es)| ==> ActiveRows(es)[i].electionId < ActiveRows(es)[j].electionId
  {
    if |es| > 0 {
      var init := es[..|es| - 1];
      ActiveRowsSpec(init);
      assert es == init + [es[|es| - 1]];
      if ElectionIdsIncreasing(es) {
        forall r | r in ActiveRows(init) ensures r.electionId < es[|es| - 1].id {
          var e :| e in init && e.status == Active && r == ListRow(e, 1);
        }
      }
    }
  }

  /** The open listing holds exactly the active elections, each flagged 1,
      newest (highest id) first. */
  lemma ListOpenElectionsSpec(es: seq<Election>)
    ensures forall r :: r in ListOpenElections(es) <==> exists e :: e in es && e.status == Active && r == ListRow(e, 1)
    ensures forall r :: r in ListOpenElections(es) ==> r.isActive == 1
    ensures ElectionIdsIncreasing(es) ==>
      forall i, j :: 0 <= i < j < |ListOpenElections(es)| ==>
        ListOpenElections(es)[i].electionId > ListOpenElections(es)[j].electionId
  {
    ActiveRowsSpec(es);
    var a := ActiveRows(es);
    var l := ListOpenElections(es);
    forall r ensures r in l <==> r in a {
      if r in l {
        var i :| 0 <= i < |l| && l[i] == r;
        assert a[|a| - 1 - i] == r;
      }
      if r in a {
        var i :| 0 <= i < |a| && a[i] == r;
        assert l[|a| - 1 - i] == r;
      }
    }
  }

  /** The activation_status CASE of ListAllElections. */
  function ActivationCode(status: string): int
  {
    if status == Active then 1 else if status == NotActive then 0 else 2
  }

  /** ListAllElections: every election, ORDER BY id DESC, with its
      activation code. */
  function ListAllElections(es: seq<Election>): seq<ElectionListRow>
  {
    Reverse(seq(|es|, i requires 0 <= i < |es| => ListRow(es[i], ActivationCode(es[i].status))))
  }

  /** The full listing has one row per election, in descending id order. */
  lemma ListAllElectionsSpec(es: seq<Election>)
    ensures |ListAllElections(es)| == |es|
    ensures forall i :: 0 <= i < |es| ==>
      ListAllElections(es)[i] == ListRow(es[|es| - 1 - i], ActivationCode(es[|es| - 1 - i].status))
    ensures ElectionIdsIncreasing(es) ==>
      forall i, j :: 0 <= i < j < |es| ==> ListAllElections(es)[i].electionId > ListAllElections(es)[j].electionId
  {
  }

  /** As written, the CASE looks for 'not_active', a status no election
      ever has: a freshly created `not_started` election gets code 2, the
      same as a `closed` one. */
  lemma NotStartedListedAsClosed()
    ensures ActivationCode(NotStarted) == ActivationCode(Closed) == 2
  {
  }

  /** The intended code: 0 before opening, 1 while active, 2 once closed
      (the lifecycle stage, which clients read as PRE/ACTIVE/POST). */
  function StatusCode(status: string): int
  {
    if status == Active then 1 else if status == Closed then 2 else 0
  }

  function ListAllElectionsCorrected(es: seq<Election>): seq<ElectionListRow>
  {
    Reverse(seq(|es|, i requires 0 <= i < |es| => ListRow(es[i], StatusCode(es[i].status))))
  }

  /** The corrected code tells the three lifecycle states apart and equals
      the lifecycle stage, so it only ever moves forward. */
  lemma StatusCodeIsStage(status: string)
    ensures status in {NotStarted, Active, Closed} ==> StatusCode(status) == ElectionManagement.Stage(status)
    ensures StatusCode(NotStarted) < StatusCode(Active) < StatusCode(Closed)
  {
  }

  /** The corrected listing has the same rows as the original except for the
      code, which is the lifecycle stage. */
  lemma ListAllElectionsCorrectedSpec(es: seq<Election>)
    ensures |ListAllElectionsCorrected(es)| == |es|
    ensures forall i :: 0 <= i < |es| ==>
      var e := es[|es| - 1 - i];
      ListAllElectionsCorrected(es)[i] == ListRow(e, StatusCode(e.status))
      && ListAllElectionsCorrected(es)[i].(isActive := 0) == ListAllElections(es)[i].(isActive := 0)
  {
  }
}
