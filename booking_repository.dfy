/** The booking table and the repository's queries over it.  The relational
    store is replaced by an in-memory sequence of rows; each query scans it. */
module BookingRepository {
  import opened Wrappers

  /** One row of the Booking table (timestamps are not modelled). */
  datatype Booking = Booking(id: int, userId: int, roomId: int)

  /** The `where` clauses the repository's queries use. */
  datatype Where = Id(id: int) | UserId(userId: int) | RoomId(roomId: int)

  predicate Matches(b: Booking, w: Where)
  {
    match w
    case Id(id) => b.id == id
    case UserId(userId) => b.userId == userId
    case RoomId(roomId) => b.roomId == roomId
  }

  /** 1 when the row books the room, 0 otherwise. */
  function Seat(b: Booking, roomId: int): nat
  {
    if b.roomId == roomId then 1 else 0
  }

  // ---------------------------------------------------------------------
  // Specification of the queries
  // ---------------------------------------------------------------------

  /** The position of the first row the clause selects. */
  function FirstIndex(rows: seq<Booking>, w: Where): (r: Option<nat>)
    ensures r.Some? ==> r.value < |rows| && Matches(rows[r.value], w)
    ensures r.Some? ==> forall j :: 0 <= j < r.value ==> !Matches(rows[j], w)
    ensures r.None? ==> forall j :: 0 <= j < |rows| ==> !Matches(rows[j], w)
  {
    if rows == [] then None
    else if Matches(rows[0], w) then Some(0)
    else match FirstIndex(rows[1..], w)
      case None =>
        assert forall j :: 1 <= j < |rows| ==> rows[j] == rows[1..][j - 1];
        None
      case Some(k) =>
        assert forall j :: 1 <= j <= k ==> rows[j] == rows[1..][j - 1];
        Some(k + 1)
  }

  /** `findFirst`: the first row the clause selects, or nothing when no row
      does. */
  function Find(rows: seq<Booking>, w: Where): (r: Option<Booking>)
    ensures r.Some? ==> r.value in rows && Matches(r.value, w)
    ensures r.None? <==> forall j :: 0 <= j < |rows| ==> !Matches(rows[j], w)
  {
    match FirstIndex(rows, w)
    case None => None
    case Some(i) => Some(rows[i])
  }

  /** `count({ where: { roomId } })`: the number of rows booking the room. */
  function Count(rows: seq<Booking>, roomId: int): (n: nat)
    ensures n <= |rows|
    ensures n == 0 <==> Find(rows, RoomId(roomId)).None?
  {
    if rows == [] then 0
    else
      assert forall j :: 1 <= j < |rows| ==> rows[j] == rows[1..][j - 1];
      Seat(rows[0], roomId) + Count(rows[1..], roomId)
  }

  /** No two rows share an id (the primary key). */
  ghost predicate UniqueIds(rows: seq<Booking>)
  {
    forall i, j :: 0 <= i < j < |rows| ==> rows[i].id != rows[j].id
  }

  /** The table after `update({ where: { id: bookingId }, data: { roomId } })`;
      unchanged when no row has that id. */
  function Moved(rows: seq<Booking>, bookingId: int, roomId: int): seq<Booking>
  {
    match FirstIndex(rows, Id(bookingId))
    case None => rows
    case Some(i) => rows[i := rows[i].(roomId := roomId)]
  }

  /** The table after `delete({ where: { id: bookingId } })`; unchanged when
      no row has that id. */
  function Removed(rows: seq<Booking>, bookingId: int): seq<Booking>
  {
    match FirstIndex(rows, Id(bookingId))
    case None => rows
    case Some(i) => rows[..i] + rows[i + 1..]
  }

  // ---------------------------------------------------------------------
  // Properties of the queries
  // ---------------------------------------------------------------------

  /** Appending one row raises the occupancy of its room by one and leaves
      every other room's occupancy as it was. */
  lemma {:induction false} CountAppend(rows: seq<Booking>, b: Booking, roomId: int)
    ensures Count(rows + [b], roomId) == Count(rows, roomId) + Seat(b, roomId)
  {
    if rows == [] {
      assert rows + [b] == [b];
      assert [b][1..] == [];
    } else {
      assert (rows + [b])[1..] == rows[1..] + [b];
      CountAppend(rows[1..], b, roomId);
    }
  }

  /** Replacing one row changes an occupancy by what the old row and the new
      row contribute, and by nothing else. */
  lemma {:induction false} CountReplace(rows: seq<Booking>, i: nat, x: Booking, roomId: int)
    requires i < |rows|
    ensures Count(rows[i := x], roomId) == Count(rows, roomId) - Seat(rows[i], roomId) + Seat(x, roomId)
  {
    if i == 0 {
      assert rows[i := x][1..] == rows[1..];
    } else {
      assert rows[i := x][1..] == rows[1..][i - 1 := x];
      CountReplace(rows[1..], i - 1, x, roomId);
    }
  }

  /** After an append, the first row a clause selects is the old first one if
      there was one, else the new row if the clause selects it. */
  lemma FindAppend(rows: seq<Booking>, b: Booking, w: Where)
    ensures Find(rows + [b], w) ==
              if Find(rows, w).Some? then Find(rows, w)
              else if Matches(b, w) then Some(b)
              else None
  {
    var s := rows + [b];
    assert forall j :: 0 <= j < |rows| ==> s[j] == rows[j];
    match FirstIndex(rows, w)
    case Some(i) =>
      assert FirstIndex(s, w) == Some(i);
    case None =>
      if Matches(b, w) {
        assert s[|rows|] == b;
        assert FirstIndex(s, w) == Some(|rows|);
      }
  }

  /** `update` on a unique id changes the roomId of that one row and nothing
      else: every row keeps its position, id and userId. */
  lemma MovedChangesOnlyThatRoom(rows: seq<Booking>, bookingId: int, roomId: int)
    requires UniqueIds(rows)
    ensures |Moved(rows, bookingId, roomId)| == |rows|
    ensures forall k :: 0 <= k < |rows| ==>
              Moved(rows, bookingId, roomId)[k] ==
                if rows[k].id == bookingId then rows[k].(roomId := roomId) else rows[k]
    ensures UniqueIds(Moved(rows, bookingId, roomId))
  {
  }

  /** `delete` on a unique id removes exactly the row with that id: every
      other row stays, in order, and the table shrinks by one exactly when
      the id existed. */
  lemma RemovedDropsOnlyThatRow(rows: seq<Booking>, bookingId: int)
    requires UniqueIds(rows)
    ensures forall b :: b in Removed(rows, bookingId) <==> b in rows && b.id != bookingId
    ensures |Removed(rows, bookingId)| ==
              if Find(rows, Id(bookingId)).Some? then |rows| - 1 else |rows|
    ensures UniqueIds(Removed(rows, bookingId))
  {
  }

  // ---------------------------------------------------------------------
  // The table
  // ---------------------------------------------------------------------

  /** The Booking table together with the counter that hands out
      auto-incremented ids. */
  class BookingTable {
    var rows: seq<Booking>
    var nextId: int

    /** Ids are unique and every id in use is below the counter. */
    ghost predicate Valid()
      reads this
    {
      && 0 < nextId
      && UniqueIds(rows)
      && forall i :: 0 <= i < |rows| ==> 0 < rows[i].id < nextId
    }

    constructor ()
      ensures Valid() && rows == [] && nextId == 1
    {
      rows := [];
      nextId := 1;
    }

    /** The scan behind `findFirst`. */
    method Locate(w: Where) returns (k: Option<nat>)
      ensures k == FirstIndex(rows, w)
    {
      var i := 0;
      while i < |rows|
        invariant 0 <= i <= |rows|
        invariant forall j :: 0 <= j < i ==> !Matches(rows[j], w)
      {
        if Matches(rows[i], w) {
          return Some(i);
        }
        i := i + 1;
      }
      return None;
    }

    /** `findFirst({ where: { userId } })`. */
    method FindByUserId(userId: int) returns (found: Option<Booking>)
      ensures found == Find(rows, UserId(userId))
      ensures found.Some? ==> found.value in rows && found.value.userId == userId
      ensures found.None? <==> forall j :: 0 <= j < |rows| ==> rows[j].userId != userId
    {
      var k := Locate(UserId(userId));
      found := if k.Some? then Some(rows[k.value]) else None;
    }

    /** `findFirst({ where: { id: bookingId } })`. */
    method FindById(bookingId: int) returns (found: Option<Booking>)
      ensures found == Find(rows, Id(bookingId))
      ensures found.Some? ==> found.value in rows && found.value.id == bookingId
      ensures found.None? <==> forall j :: 0 <= j < |rows| ==> rows[j].id != bookingId
    {
      var k := Locate(Id(bookingId));
      found := if k.Some? then Some(rows[k.value]) else None;
    }

    /** `count({ where: { roomId } })`: the occupancy of a room. */
    method CountBookingForRoom(roomId: int) returns (n: nat)
      ensures n == Count(rows, roomId)
    {
      var rs := rows;
      n := 0;
      var i := 0;
      while i < |rs|
        invariant 0 <= i <= |rs|
        invariant n == Count(rs[..i], roomId)
      {
        assert rs[..i + 1] == rs[..i] + [rs[i]];
        CountAppend(rs[..i], rs[i], roomId);
        n := n + Seat(rs[i], roomId);
        i := i + 1;
      }
      assert rs[..i] == rs;
    }

    /** `create({ data: { userId, roomId } })`: appends one row under a fresh
        id.  Nothing is checked about the user, so one user may end up with
        several rows. */
    method InsertBooking(userId: int, roomId: int) returns (b: Booking)
      requires Valid()
      modifies this
      ensures Valid()
      ensures b == Booking(old(nextId), userId, roomId)
      ensures forall i :: 0 <= i < |old(rows)| ==> old(rows)[i].id != b.id
      ensures rows == old(rows) + [b] && nextId == old(nextId) + 1
    {
      b := Booking(nextId, userId, roomId);
      rows := rows + [b];
      nextId := nextId + 1;
    }

    /** `delete({ where: { id: bookingId } })`: answers the deleted row, or
        nothing (the table unchanged) when no row has that id. */
    method DeleteBooking(bookingId: int) returns (deleted: Option<Booking>)
      requires Valid()
      modifies this
      ensures Valid()
      ensures deleted == Find(old(rows), Id(bookingId))
      ensures rows == Removed(old(rows), bookingId) && nextId == old(nextId)
    {
      RemovedDropsOnlyThatRow(rows, bookingId);
      var k := Locate(Id(bookingId));
      if k.Some? {
        var i := k.value;
        deleted := Some(rows[i]);
        rows := rows[..i] + rows[i + 1..];
      } else {
        deleted := None;
      }
      forall j | 0 <= j < |rows|
        ensures 0 < rows[j].id < nextId
      {
        assert rows[j] in rows;
      }
    }

    /** `update({ where: { id: bookingId }, data: { roomId } })`: answers the
        updated row, or nothing (the table unchanged) when no row has that id.
        The repository file exports no such operation; the service calls it. */
    method UpdateBooking(bookingId: int, roomId: int) returns (updated: Option<Booking>)
      requires Valid()
      modifies this
      ensures Valid()
      ensures updated.None? <==> Find(old(rows), Id(bookingId)).None?
      ensures updated.Some? ==> updated.value == Find(old(rows), Id(bookingId)).value.(roomId := roomId)
      ensures rows == Moved(old(rows), bookingId, roomId) && nextId == old(nextId)
    {
      MovedChangesOnlyThatRoom(rows, bookingId, roomId);
      var k := Locate(Id(bookingId));
      if k.Some? {
        var i := k.value;
        updated := Some(rows[i].(roomId := roomId));
        rows := rows[i := updated.value];
      } else {
        updated := None;
      }
      assert forall j :: 0 <= j < |rows| ==> rows[j].id == old(rows)[j].id;
    }
  }
}
