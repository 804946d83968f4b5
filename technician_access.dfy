// The technician access table: windows during which a homeowner lets a
// technician sign in on their behalf.
module TechnicianAccess {
  import opened Wrappers
  import opened Seqs
  import Sorting

  /** A row of `technician_access`; times are instants on one integer
      clock. */
  datatype Access = Access(id: int, homeownerId: int, technicianId: int, start: int, end: int)

  /** The row lets that technician act for that homeowner at `now`: the
      window includes both of its ends. */
  predicate Allows(a: Access, homeownerId: int, technicianId: int, now: int)
  {
    a.homeownerId == homeownerId && a.technicianId == technicianId && a.start <= now && now <= a.end
  }

  /** The rows DeleteExpired keeps: those whose end is not before `now`. */
  function Unexpired(rows: seq<Access>, now: int): (r: seq<Access>)
    ensures forall a :: a in r <==> a in rows && a.end >= now
  {
    Filter(rows, (a: Access) => a.end >= now)
  }

  /** `SELECT COUNT(1) ... WHERE homeowner_id = ? AND technician_id = ? AND
      start_time <= ? AND end_time >= ?`. */
  function CountAllowing(rows: seq<Access>, homeownerId: int, technicianId: int, now: int): nat
  {
    Count(rows, (a: Access) => Allows(a, homeownerId, technicianId, now))
  }

  /** Some row of the table allows the pair at `now`. */
  predicate AllowedAt(rows: seq<Access>, homeownerId: int, technicianId: int, now: int)
  {
    exists a :: a in rows && Allows(a, homeownerId, technicianId, now)
  }

  /** The count is positive exactly when some window allows the pair. */
  lemma CountAllowingIff(rows: seq<Access>, homeownerId: int, technicianId: int, now: int)
    ensures CountAllowing(rows, homeownerId, technicianId, now) > 0 <==> AllowedAt(rows, homeownerId, technicianId, now)
  {
    var p := (a: Access) => Allows(a, homeownerId, technicianId, now);
    CountPositiveIff(rows, p);
    if Any(rows, p) {
      var i :| 0 <= i < |rows| && p(rows[i]);
      assert rows[i] in rows;
    }
    if AllowedAt(rows, homeownerId, technicianId, now) {
      var a :| a in rows && Allows(a, homeownerId, technicianId, now);
      var i :| 0 <= i < |rows| && rows[i] == a;
      assert p(rows[i]);
    }
  }

  /** Purging the expired rows first never changes whether the pair is
      allowed at that same instant: a purged row ends before `now`. */
  lemma PurgeKeepsAllowed(rows: seq<Access>, homeownerId: int, technicianId: int, now: int)
    ensures AllowedAt(Unexpired(rows, now), homeownerId, technicianId, now) <==> AllowedAt(rows, homeownerId, technicianId, now)
  {
    if AllowedAt(rows, homeownerId, technicianId, now) {
      var a :| a in rows && Allows(a, homeownerId, technicianId, now);
      assert a in Unexpired(rows, now);
    }
  }

  /** The rows of one homeowner. */
  function OfHomeowner(rows: seq<Access>, homeownerId: int): (r: seq<Access>)
    ensures forall a :: a in r <==> a in rows && a.homeownerId == homeownerId
  {
    Filter(rows, (a: Access) => a.homeownerId == homeownerId)
  }

  /** Sort key for `ORDER BY start_time DESC`; rows with the same start
      follow id order. */
  function LatestFirst(a: Access): (int, int) { (-a.start, a.id) }

  /** ListForHomeowner's answer. */
  function Listing(rows: seq<Access>, homeownerId: int): seq<Access>
  {
    Sorting.SortBy(OfHomeowner(rows, homeownerId), LatestFirst)
  }

  /** The listing holds exactly that homeowner's rows, each once, latest
      start first. */
  lemma ListingCorrect(rows: seq<Access>, homeownerId: int)
    ensures multiset(Listing(rows, homeownerId)) == multiset(OfHomeowner(rows, homeownerId))
    ensures forall a :: a in Listing(rows, homeownerId) <==> a in rows && a.homeownerId == homeownerId
    ensures forall i, j :: 0 <= i < j < |Listing(rows, homeownerId)| ==>
      Listing(rows, homeownerId)[i].start >= Listing(rows, homeownerId)[j].start
  {
    var l := Listing(rows, homeownerId);
    Sorting.SortByCorrect(OfHomeowner(rows, homeownerId), LatestFirst);
    forall a ensures a in l <==> a in OfHomeowner(rows, homeownerId) {
      assert a in l <==> a in multiset(l);
    }
    forall i, j | 0 <= i < j < |l| ensures l[i].start >= l[j].start {
      assert Sorting.KeyLe(LatestFirst(l[i]), LatestFirst(l[j]));
    }
  }

  /** The rows other than the one with id `id`. */
  function WithoutAccess(rows: seq<Access>, id: int): (r: seq<Access>)
    ensures forall a :: a in r <==> a in rows && a.id != id
  {
    Filter(rows, (a: Access) => a.id != id)
  }

  /** `SELECT ... WHERE id = ?`. */
  function AccessById(rows: seq<Access>, id: int): (r: Option<Access>)
    ensures r.Some? ==> r.value in rows && r.value.id == id
    ensures r.None? <==> forall a :: a in rows ==> a.id != id
  {
    if |rows| == 0 then None
    else if rows[0].id == id then Some(rows[0])
    else AccessById(rows[1..], id)
  }

  class TechnicianAccessRepository {
    var rows: seq<Access>
    var nextId: int

    /** Ids are positive and below the counter, so a new id is fresh. */
    ghost predicate Valid()
      reads this
    {
      nextId >= 1 && forall a :: a in rows ==> 0 < a.id < nextId
    }

    constructor ()
      ensures rows == [] && nextId == 1 && Valid()
    {
      rows := [];
      nextId := 1;
    }

    /** Grant adds one row and returns its new id. */
    method Grant(homeownerId: int, technicianId: int, start: int, end: int) returns (id: int)
      requires Valid()
      modifies this
      ensures Valid()
      ensures id == old(nextId) && nextId == old(nextId) + 1
      ensures rows == old(rows) + [Access(id, homeownerId, technicianId, start, end)]
      ensures forall a :: a in old(rows) ==> a.id != id
    {
      id := nextId;
      rows := rows + [Access(id, homeownerId, technicianId, start, end)];
      nextId := nextId + 1;
    }

    /** DeleteExpired removes exactly the rows that ended before `now`. */
    method DeleteExpired(now: int)
      requires Valid()
      modifies this
      ensures Valid()
      ensures rows == Unexpired(old(rows), now) && nextId == old(nextId)
    {
      rows := Unexpired(rows, now);
    }

    /** IsAllowedNow purges the expired rows of every homeowner, then asks
        whether a window of the pair includes `now`. */
    method IsAllowedNow(homeownerId: int, technicianId: int, now: int) returns (allowed: bool)
      requires Valid()
      modifies this
      ensures Valid()
      ensures rows == Unexpired(old(rows), now) && nextId == old(nextId)
      ensures allowed <==> AllowedAt(old(rows), homeownerId, technicianId, now)
    {
      DeleteExpired(now);
      allowed := CountAllowing(rows, homeownerId, technicianId, now) > 0;
      CountAllowingIff(rows, homeownerId, technicianId, now);
      PurgeKeepsAllowed(old(rows), homeownerId, technicianId, now);
    }

    /** ListForHomeowner: that homeowner's rows, latest start first. */
    method ListForHomeowner(homeownerId: int) returns (list: seq<Access>)
      ensures list == Listing(rows, homeownerId)
    {
      list := Listing(rows, homeownerId);
    }

    method GetById(id: int) returns (r: Option<Access>)
      ensures r == AccessById(rows, id)
    {
      r := AccessById(rows, id);
    }

    /** Revoke deletes the row with that id and no other. */
    method Revoke(id: int)
      requires Valid()
      modifies this
      ensures Valid()
      ensures rows == WithoutAccess(old(rows), id) && nextId == old(nextId)
    {
      rows := WithoutAccess(rows, id);
    }
  }
}
