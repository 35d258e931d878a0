/** The booking endpoints: a booking holds a room for the half-open time
    range [start, end); create and update refuse a booking that overlaps a
    booking of the same room still in force. Times are integers. */
module Bookings {
  import opened Wrappers

  /** A row of the `Booking` table; `status` is NULL when `None`. */
  datatype Booking = Booking(playerId: int, roomId: int, start: int, end: int, status: Option<string>)

  /** An `HTTPException` with its status code and detail. */
  datatype HttpError = HttpError(code: int, detail: string)

  const PLAYER_NOT_FOUND := HttpError(400, "Player not found")
  const ROOM_NOT_FOUND := HttpError(400, "Room not found")
  const ALREADY_BOOKED := HttpError(400, "Room already booked for this time range")
  const BOOKING_NOT_FOUND := HttpError(404, "Booking not found")

  /** The column default of `Booking.status`. */
  const DEFAULT_COLUMN_STATUS := "pending"

  /** The row an ORM insert of booking `n` stores: an attribute that is
      `None` is left out of the INSERT, so the column default fills it. */
  function Inserted(n: Booking): (s: Booking)
    ensures s.status == (if n.status.None? then Some(DEFAULT_COLUMN_STATUS) else n.status)
    ensures s.playerId == n.playerId && s.roomId == n.roomId && s.start == n.start && s.end == n.end
  {
    if n.status.None? then n.(status := Some(DEFAULT_COLUMN_STATUS)) else n
  }

  /** `status != 'cancelled'` in SQL: a NULL status compares unknown, so the
      row is not selected. */
  predicate Blocks(status: Option<string>) {
    status.Some? && status.value != "cancelled"
  }

  /** Same room, and the two half-open ranges share an instant. */
  predicate Overlaps(e: Booking, n: Booking) {
    e.roomId == n.roomId && e.end > n.start && e.start < n.end
  }

  /** The filter of the overlap query: existing booking `e` stands in the
      way of booking `n`. */
  predicate Conflicts(e: Booking, n: Booking) {
    Overlaps(e, n) && Blocks(e.status)
  }

  /** The overlap query is non-empty: some booking other than `exclude`
      conflicts with `n`. */
  predicate Clash(bookings: map<int, Booking>, n: Booking, exclude: Option<int>) {
    exists k | k in bookings && exclude != Some(k) :: Conflicts(bookings[k], n)
  }

  /** The table invariant: no two bookings in force share a room at the
      same instant. */
  ghost predicate NoDoubleBooking(bookings: map<int, Booking>) {
    forall a, b | a in bookings && b in bookings && a != b ::
      !(Blocks(bookings[a].status) && Blocks(bookings[b].status) && Overlaps(bookings[a], bookings[b]))
  }

  /** The error `create_item` raises, if any: the player first, then the
      room, then the overlap query. */
  function CreateError(bookings: map<int, Booking>, players: set<int>, rooms: set<int>, n: Booking): (r: Option<HttpError>)
    ensures n.playerId !in players ==> r == Some(PLAYER_NOT_FOUND)
    ensures n.playerId in players && n.roomId !in rooms ==> r == Some(ROOM_NOT_FOUND)
    ensures r.None? <==> n.playerId in players && n.roomId in rooms && !Clash(bookings, n, None)
    ensures r.Some? ==> r.value.code == 400
  {
    if n.playerId !in players then Some(PLAYER_NOT_FOUND)
    else if n.roomId !in rooms then Some(ROOM_NOT_FOUND)
    else if Clash(bookings, n, None) then Some(ALREADY_BOOKED)
    else None
  }

  /** The error `update_item` raises, if any: a missing booking, then the
      overlap query without the booking itself. Player and room are not
      looked up again. */
  function UpdateError(bookings: map<int, Booking>, id: int, n: Booking): (r: Option<HttpError>)
    ensures id !in bookings ==> r == Some(BOOKING_NOT_FOUND)
    ensures r.None? <==> id in bookings && !Clash(bookings, n, Some(id))
  {
    if id !in bookings then Some(BOOKING_NOT_FOUND)
    else if Clash(bookings, n, Some(id)) then Some(ALREADY_BOOKED)
    else None
  }

  // ---------------------------------------------------------------------
  // Properties of the rule

  /** Ranges that only touch never conflict, whatever their status. */
  lemma BackToBack(e: Booking, n: Booking)
    requires e.end <= n.start || n.end <= e.start
    ensures !Conflicts(e, n) && !Conflicts(n, e)
  {
  }

  /** A cancelled booking, or one whose status is NULL, never blocks. */
  lemma CancelledNeverBlocks(e: Booking, n: Booking)
    requires e.status == Some("cancelled") || e.status.None?
    ensures !Conflicts(e, n)
  {
  }

  /** A non-empty booking in force conflicts with itself, so an update that
      did not leave the booking out of its query would refuse to save an
      unchanged booking. */
  lemma SelfConflict(n: Booking)
    requires n.start < n.end && Blocks(n.status)
    ensures Conflicts(n, n)
  {
  }

  /** A successful create keeps the table invariant: the query looked at
      the payload, the table holds the inserted row, and the two differ in
      the status only. */
  lemma CreateKeepsInvariant(bookings: map<int, Booking>, players: set<int>, rooms: set<int>, id: int, n: Booking)
    requires NoDoubleBooking(bookings) && id !in bookings
    requires CreateError(bookings, players, rooms, n).None?
    ensures NoDoubleBooking(bookings[id := Inserted(n)])
  {
    var t := bookings[id := Inserted(n)];
    forall a, b | a in t && b in t && a != b
      ensures !(Blocks(t[a].status) && Blocks(t[b].status) && Overlaps(t[a], t[b]))
    {
      if a == id {
        assert !Conflicts(bookings[b], n);
      } else if b == id {
        assert !Conflicts(bookings[a], n);
      }
    }
  }

  /** A booking created without a status is in force: a later create of an
      overlapping booking of the same room is refused. */
  lemma CreatedWithoutStatusBlocks(bookings: map<int, Booking>, players: set<int>, rooms: set<int>, id: int, n: Booking, m: Booking)
    requires n.status.None? && n.roomId == m.roomId && n.end > m.start && n.start < m.end
    requires m.playerId in players && m.roomId in rooms
    ensures CreateError(bookings[id := Inserted(n)], players, rooms, m) == Some(ALREADY_BOOKED)
  {
    assert Conflicts(bookings[id := Inserted(n)][id], m);
  }

  /** A successful update keeps the table invariant. */
  lemma UpdateKeepsInvariant(bookings: map<int, Booking>, id: int, n: Booking)
    requires NoDoubleBooking(bookings)
    requires UpdateError(bookings, id, n).None?
    ensures NoDoubleBooking(bookings[id := n])
  {
    var t := bookings[id := n];
    forall a, b | a in t && b in t && a != b
      ensures !(Blocks(t[a].status) && Blocks(t[b].status) && Overlaps(t[a], t[b]))
    {
      if a == id {
        assert !Conflicts(bookings[b], n);
      } else if b == id {
        assert !Conflicts(bookings[a], n);
      }
    }
  }

  /** On a table that keeps the invariant, saving a booking in force
      unchanged always succeeds. */
  lemma ResaveSucceeds(bookings: map<int, Booking>, id: int)
    requires NoDoubleBooking(bookings) && id in bookings && Blocks(bookings[id].status)
    ensures UpdateError(bookings, id, bookings[id]).None?
  {
    forall k | k in bookings && Some(id) != Some(k)
      ensures !Conflicts(bookings[k], bookings[id])
    {
      assert k != id;
    }
  }

  /** Removing a booking keeps the table invariant. */
  lemma DeleteKeepsInvariant(bookings: map<int, Booking>, id: int)
    requires NoDoubleBooking(bookings)
    ensures NoDoubleBooking(bookings - {id})
  {
  }

  // ---------------------------------------------------------------------
  // The tables

  /** The `Booking`, `Player` and `Room` tables as the endpoints see them. */
  class BookingTable {
    var bookings: map<int, Booking>
    var players: set<int>
    var rooms: set<int>
    var nextId: int

    ghost predicate Valid()
      reads this
    {
      NoDoubleBooking(bookings) && forall k | k in bookings :: k < nextId
    }

    constructor (players: set<int>, rooms: set<int>)
      ensures Valid() && bookings == map[] && this.players == players && this.rooms == rooms
    {
      bookings := map[];
      this.players := players;
      this.rooms := rooms;
      nextId := 1;
    }

    /** `create_item`: the new booking gets a key no booking has, and a
        missing status is stored as the column default. */
    method CreateItem(n: Booking) returns (r: Result<int, HttpError>)
      requires Valid()
      modifies this
      ensures Valid() && players == old(players) && rooms == old(rooms)
      ensures var e := CreateError(old(bookings), players, rooms, n);
              && (e.Some? ==> r == Err(e.value) && bookings == old(bookings))
              && (e.None? ==> r == Ok(old(nextId)) && old(nextId) !in old(bookings)
                              && bookings == old(bookings)[old(nextId) := Inserted(n)])
    {
      if n.playerId !in players {
        return Err(PLAYER_NOT_FOUND);
      }
      if n.roomId !in rooms {
        return Err(ROOM_NOT_FOUND);
      }
      var overlapping := exists k | k in bookings :: Conflicts(bookings[k], n);
      if overlapping {
        return Err(ALREADY_BOOKED);
      }
      CreateKeepsInvariant(bookings, players, rooms, nextId, n);
      bookings := bookings[nextId := Inserted(n)];
      r := Ok(nextId);
      nextId := nextId + 1;
    }

    /** `update_item`: every field of the payload replaces the stored one. */
    method UpdateItem(id: int, n: Booking) returns (r: Result<Booking, HttpError>)
      requires Valid()
      modifies this
      ensures Valid() && players == old(players) && rooms == old(rooms) && nextId == old(nextId)
      ensures var e := UpdateError(old(bookings), id, n);
              && (e.Some? ==> r == Err(e.value) && bookings == old(bookings))
              && (e.None? ==> r == Ok(n) && bookings == old(bookings)[id := n])
    {
      if id !in bookings {
        return Err(BOOKING_NOT_FOUND);
      }
      var overlapping := exists k | k in bookings && k != id :: Conflicts(bookings[k], n);
      if overlapping {
        return Err(ALREADY_BOOKED);
      }
      UpdateKeepsInvariant(bookings, id, n);
      bookings := bookings[id := n];
      r := Ok(n);
    }

    /** `delete_item`. */
    method DeleteItem(id: int) returns (r: Result<string, HttpError>)
      requires Valid()
      modifies this
      ensures Valid() && players == old(players) && rooms == old(rooms) && nextId == old(nextId)
      ensures id !in old(bookings) ==> r == Err(BOOKING_NOT_FOUND) && bookings == old(bookings)
      ensures id in old(bookings) ==> r == Ok("deleted") && bookings == old(bookings) - {id}
    {
      if id !in bookings {
        return Err(BOOKING_NOT_FOUND);
      }
      DeleteKeepsInvariant(bookings, id);
      bookings := bookings - {id};
      r := Ok("deleted");
    }
  }

  /** Deleting leaves every other booking as it was. */
  lemma DeleteLeavesOthers(bookings: map<int, Booking>, id: int, k: int)
    requires k in bookings && k != id
    ensures k in bookings - {id} && (bookings - {id})[k] == bookings[k]
    ensures id !in bookings - {id}
  {
  }
}
