/** The request schemas' field checks: length bounds on strings, sign checks
    on numbers and order checks between two instants. A check either passes
    the value on or raises the error the request is refused with. Dates and
    instants are integers, floats are reals; a field that may be `None` is an
    `Option`, and one with a default, which the client may leave out, is an
    `Option` of what the client sent. */
module Schemas {
  import opened Wrappers
  import opened Bookings
  import Text

  /** The message of pydantic's `string_too_long` error for a `max_length`
      bound; the noun is singular for a bound of one. */
  function TooLong(limit: nat): string {
    "String should have at most " + Text.NatToString(limit) + (if limit == 1 then " character" else " characters")
  }

  /** `Field(..., max_length=limit)` on a required string. */
  function MaxLength(v: string, limit: nat): (r: Result<string, string>)
    ensures r.Ok? <==> |v| <= limit
    ensures r.Ok? ==> r.value == v
    ensures r.Err? ==> r.error == TooLong(limit)
  {
    if |v| <= limit then Ok(v) else Err(TooLong(limit))
  }

  /** `Field(None, max_length=limit)` on an optional string: `None` passes. */
  function OptionalMaxLength(v: Option<string>, limit: nat): (r: Result<Option<string>, string>)
    ensures r.Ok? <==> v.None? || |v.value| <= limit
    ensures r.Ok? ==> r.value == v
  {
    if v.None? then Ok(None)
    else match MaxLength(v.value, limit)
      case Ok(s) => Ok(Some(s))
      case Err(e) => Err(e)
  }

  // ---------------------------------------------------------------------
  // ClubBase

  const CLUB_NAME_MAX: nat := 200
  const CLUB_ADDRESS_MAX: nat := 300
  const CLUB_CITY_MAX: nat := 100
  const CLUB_PHONE_MAX: nat := 30

  datatype Club = Club(name: string, address: Option<string>, city: Option<string>, contactPhone: Option<string>)

  /** The fields of a club that break their bound, in field order, each named
      with its error. */
  function ClubErrors(c: Club): (errors: seq<(string, string)>)
    ensures errors == [] <==> ClubFits(c)
    ensures forall i | 0 <= i < |errors| :: errors[i].0 in {"name", "address", "city", "contact_phone"}
  {
    FieldError("name", MaxLength(c.name, CLUB_NAME_MAX).Err?, CLUB_NAME_MAX)
      + FieldError("address", OptionalMaxLength(c.address, CLUB_ADDRESS_MAX).Err?, CLUB_ADDRESS_MAX)
      + FieldError("city", OptionalMaxLength(c.city, CLUB_CITY_MAX).Err?, CLUB_CITY_MAX)
      + FieldError("contact_phone", OptionalMaxLength(c.contactPhone, CLUB_PHONE_MAX).Err?, CLUB_PHONE_MAX)
  }

  function FieldError(field: string, failed: bool, limit: nat): seq<(string, string)> {
    if failed then [(field, TooLong(limit))] else []
  }

  predicate Within(v: Option<string>, limit: nat) {
    v.None? || |v.value| <= limit
  }

  /** Every field of the club within its bound. */
  predicate ClubFits(c: Club) {
    |c.name| <= CLUB_NAME_MAX && Within(c.address, CLUB_ADDRESS_MAX)
    && Within(c.city, CLUB_CITY_MAX) && Within(c.contactPhone, CLUB_PHONE_MAX)
  }

  /** `ClubCreate(**fields)`: the club, or every error pydantic collects. */
  function ValidateClub(c: Club): (r: Result<Club, seq<(string, string)>>)
    ensures r.Ok? <==> ClubFits(c)
    ensures r.Ok? ==> r.value == c
    ensures r.Err? ==> r.error != [] && r.error == ClubErrors(c)
  {
    var errors := ClubErrors(c);
    if errors == [] then Ok(c) else Err(errors)
  }

  /** A club that passed validation passes again unchanged. */
  lemma ClubRevalidates(c: Club)
    requires ValidateClub(c).Ok?
    ensures ValidateClub(ValidateClub(c).value) == ValidateClub(c)
  {
  }

  // ---------------------------------------------------------------------
  // ArenaCreate, RoomCreate, StationCreate

  const ARENA_NAME_MAX: nat := 200
  const ROOM_NAME_MAX: nat := 100
  const ROOM_TYPE_MAX: nat := 50
  const STATION_LABEL_MAX: nat := 50

  /** `capacity_positive`: a negative capacity is refused, `None` and zero
      pass. */
  function CapacityCheck(v: Option<int>): (r: Result<Option<int>, string>)
    ensures r.Ok? <==> v.None? || v.value >= 0
    ensures r.Ok? ==> r.value == v
    ensures r.Err? ==> r.error == "capacity must be non-negative"
  {
    if v.Some? && v.value < 0 then Err("capacity must be non-negative") else Ok(v)
  }

  const DEFAULT_MAX_PLAYERS: int := 10

  /** `max_players: Optional[int] = 10` with `max_players_positive`: left out,
      the field is the default and the check does not run; sent, zero and
      negative values are refused and `None` passes. */
  function MaxPlayersCheck(sent: Option<Option<int>>): (r: Result<Option<int>, string>)
    ensures sent.None? ==> r == Ok(Some(DEFAULT_MAX_PLAYERS))
    ensures sent.Some? ==> (r.Ok? <==> sent.value.None? || sent.value.value > 0)
    ensures sent.Some? && r.Ok? ==> r.value == sent.value
    ensures r.Err? ==> r.error == "max_players must be positive"
  {
    if sent.None? then Ok(Some(DEFAULT_MAX_PLAYERS))
    else if sent.value.Some? && sent.value.value <= 0 then Err("max_players must be positive")
    else Ok(sent.value)
  }

  /** The default passes the check that a client's value must pass. */
  lemma DefaultMaxPlayersPasses()
    ensures MaxPlayersCheck(Some(Some(DEFAULT_MAX_PLAYERS))) == MaxPlayersCheck(None)
  {
  }

  /** Zero is a capacity but not a number of players. */
  lemma ZeroBoundaries()
    ensures CapacityCheck(Some(0)).Ok? && MaxPlayersCheck(Some(Some(0))).Err?
  {
  }

  /** A value a check accepts, sent again, is accepted unchanged: the checks
      are idempotent. */
  lemma ChecksIdempotent(capacity: Option<int>, sent: Option<int>)
    requires CapacityCheck(capacity).Ok? && MaxPlayersCheck(Some(sent)).Ok?
    ensures CapacityCheck(CapacityCheck(capacity).value) == CapacityCheck(capacity)
    ensures MaxPlayersCheck(Some(MaxPlayersCheck(Some(sent)).value)) == MaxPlayersCheck(Some(sent))
  {
  }

  // ---------------------------------------------------------------------
  // Order checks between two instants

  /** `end_must_be_after_start` and `ended_after_started`: `v` is refused
      only when both instants are present and `v` is strictly earlier; a
      start that failed its own check is missing from `values`. */
  function NotBefore(v: Option<int>, start: Option<int>, message: string): (r: Result<Option<int>, string>)
    ensures r.Ok? <==> v.None? || start.None? || v.value >= start.value
    ensures r.Ok? ==> r.value == v
    ensures r.Err? ==> r.error == message
  {
    if v.Some? && start.Some? && v.value < start.value then Err(message) else Ok(v)
  }

  function MembershipEndCheck(endDate: Option<int>, startDate: Option<int>): Result<Option<int>, string> {
    NotBefore(endDate, startDate, "end_date must be after start_date")
  }

  function SessionEndCheck(endedAt: Option<int>, startedAt: Option<int>): Result<Option<int>, string> {
    NotBefore(endedAt, startedAt, "ended_at must be after started_at")
  }

  /** A membership may end on the day it starts; a session may end the
      instant it starts. */
  lemma SameInstantPasses(t: int)
    ensures MembershipEndCheck(Some(t), Some(t)).Ok? && SessionEndCheck(Some(t), Some(t)).Ok?
    ensures MembershipEndCheck(Some(t - 1), Some(t)).Err?
  {
  }

  /** `end_after_start` on the required `end_time`: refused unless strictly
      after a present `start_time`. */
  function BookingEndCheck(v: int, start: Option<int>): (r: Result<int, string>)
    ensures r.Ok? <==> start.None? || v > start.value
    ensures r.Ok? ==> r.value == v
    ensures r.Err? ==> r.error == "end_time must be after start_time"
  {
    if start.Some? && v <= start.value then Err("end_time must be after start_time") else Ok(v)
  }

  /** Unlike the membership and session checks, a booking may not end the
      instant it starts. */
  lemma BookingStrict(t: int)
    ensures BookingEndCheck(t, Some(t)).Err? && SessionEndCheck(Some(t), Some(t)).Ok?
  {
  }

  /** `BookingCreate`: the fields a client sends; `status` may be left out. */
  datatype BookingPayload = BookingPayload(playerId: int, roomId: int, start: int, end: int, status: Option<Option<string>>)

  const DEFAULT_STATUS := "pending"

  /** The booking a payload becomes: the end checked against the start, the
      status `'pending'` when left out. */
  function ValidateBooking(p: BookingPayload): (r: Result<Booking, string>)
    ensures r.Ok? <==> p.start < p.end
    ensures r.Ok? ==> && r.value.playerId == p.playerId && r.value.roomId == p.roomId
                      && r.value.start == p.start && r.value.end == p.end
                      && r.value.status == (if p.status.None? then Some(DEFAULT_STATUS) else p.status.value)
  {
    match BookingEndCheck(p.end, Some(p.start))
    case Err(e) => Err(e)
    case Ok(end) => Ok(Booking(p.playerId, p.roomId, p.start, end, if p.status.None? then Some(DEFAULT_STATUS) else p.status.value))
  }

  /** A booking that passed the schema and was left with its default status
      is in force and conflicts with itself: it is the one the update query
      has to leave out. */
  lemma ValidatedBookingBlocks(p: BookingPayload)
    requires ValidateBooking(p).Ok? && p.status.None?
    ensures Blocks(ValidateBooking(p).value.status)
    ensures Conflicts(ValidateBooking(p).value, ValidateBooking(p).value)
  {
    SelfConflict(ValidateBooking(p).value);
  }

  // ---------------------------------------------------------------------
  // Sign checks on floats

  /** `prize_non_negative`. */
  function PrizeCheck(v: Option<real>): (r: Result<Option<real>, string>)
    ensures r.Ok? <==> v.None? || v.value >= 0.0
    ensures r.Ok? ==> r.value == v
    ensures r.Err? ==> r.error == "prize_pool must be non-negative"
  {
    if v.Some? && v.value < 0.0 then Err("prize_pool must be non-negative") else Ok(v)
  }

  /** `price_positive`: despite its name, zero passes; the field is required
      so there is no `None`. */
  function PriceCheck(v: real): (r: Result<real, string>)
    ensures r.Ok? <==> v >= 0.0
    ensures r.Ok? ==> r.value == v
    ensures r.Err? ==> r.error == "price_value must be non-negative"
  {
    if v < 0.0 then Err("price_value must be non-negative") else Ok(v)
  }

  /** Of the sign checks, a larger value passes whenever a smaller one does. */
  lemma SignChecksUpwardClosed(a: real, b: real, m: int, n: int)
    requires a <= b && m <= n
    ensures PrizeCheck(Some(a)).Ok? ==> PrizeCheck(Some(b)).Ok?
    ensures PriceCheck(a).Ok? ==> PriceCheck(b).Ok?
    ensures CapacityCheck(Some(m)).Ok? ==> CapacityCheck(Some(n)).Ok?
    ensures MaxPlayersCheck(Some(Some(m))).Ok? ==> MaxPlayersCheck(Some(Some(n))).Ok?
  {
  }

  // ---------------------------------------------------------------------
  // Required names

  function ArenaNameCheck(name: string): Result<string, string> {
    MaxLength(name, ARENA_NAME_MAX)
  }

  function RoomNameCheck(name: string): Result<string, string> {
    MaxLength(name, ROOM_NAME_MAX)
  }

  function RoomTypeCheck(roomType: Option<string>): Result<Option<string>, string> {
    OptionalMaxLength(roomType, ROOM_TYPE_MAX)
  }

  function StationLabelCheck(stationLabel: string): Result<string, string> {
    MaxLength(stationLabel, STATION_LABEL_MAX)
  }

  /** A name at the bound passes and one character more is refused. */
  lemma LengthBoundsExact(s: string, c: char)
    requires |s| == ROOM_NAME_MAX
    ensures RoomNameCheck(s).Ok? && RoomNameCheck(s + [c]).Err?
    ensures ArenaNameCheck(s + [c]).Ok?
  {
  }
}
