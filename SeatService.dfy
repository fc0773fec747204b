/** Seat availability for one showing, split into the seats still free and
    the seats taken. `down` is the set of statements the database rejects
    during the call. */
module SeatService {
  import opened Wrappers
  import opened Dates
  import opened Models
  import opened Rows
  import opened Store
  import opened SeatRepository

  function RowAvailable(a: AvailabilityRow): bool { a.availability.isAvailable }

  function RowTaken(a: AvailabilityRow): bool { !a.availability.isAvailable }

  /** Parses the date, lists the showing's rows and sorts each row into the
      available or the unavailable list, keeping the listing's order in both.
      Every row lands in exactly one list, and the totals are the lists'
      lengths. */
  method GetSeatAvailability(db: Database, cinemaId: int, dateStr: string, timeStr: string, down: set<Call>)
    returns (r: Result<SeatAvailabilityResponse, Error>)
    ensures ParseDate(dateStr).None? ==> r == Err(InvalidDateFormat)
    ensures ParseDate(dateStr).Some? && AvailabilityListing in down ==> r == Err(Storage(AvailabilityListing))
    ensures ParseDate(dateStr).Some? && AvailabilityListing !in down ==>
      (var rows := ShowingRows(db.availability, db.seats, cinemaId, ParseDate(dateStr).value, timeStr);
       r.Ok? && r.value.cinemaId == cinemaId && r.value.date == dateStr && r.value.time == timeStr
       && r.value.availableSeats == Filter(rows, RowAvailable)
       && r.value.unavailableSeats == Filter(rows, RowTaken)
       && multiset(r.value.availableSeats) + multiset(r.value.unavailableSeats) == multiset(rows)
       && r.value.totalAvailable == |r.value.availableSeats|
       && r.value.totalUnavailable == |r.value.unavailableSeats|
       && r.value.totalAvailable + r.value.totalUnavailable == |rows|)
  {
    var parsed := ParseDate(dateStr);
    if parsed.None? { return Err(InvalidDateFormat); }

    var listed := SeatRepository.GetSeatAvailability(db, cinemaId, parsed.value, timeStr, AvailabilityListing !in down);
    if listed.Err? { return Err(listed.error); }
    var rows := listed.value;

    var available, unavailable := Partition(rows);
    FilterPartition(rows, RowAvailable, RowTaken);

    return Ok(SeatAvailabilityResponse(cinemaId, dateStr, timeStr, available, unavailable,
                                       |available|, |unavailable|));
  }

  /** The loop that sorts the listed rows into the two lists. */
  method Partition(rows: seq<AvailabilityRow>) returns (available: seq<AvailabilityRow>, unavailable: seq<AvailabilityRow>)
    ensures available == Filter(rows, RowAvailable) && unavailable == Filter(rows, RowTaken)
  {
    available, unavailable := [], [];
    var i := 0;
    while i < |rows|
      invariant 0 <= i <= |rows|
      invariant available == Filter(rows[..i], RowAvailable)
      invariant unavailable == Filter(rows[..i], RowTaken)
    {
      assert rows[..i + 1][..i] == rows[..i];
      if rows[i].availability.isAvailable {
        available := available + [rows[i]];
      } else {
        unavailable := unavailable + [rows[i]];
      }
      i := i + 1;
    }
    assert rows[..i] == rows;
  }

  /** A missing seat is `Ok(None)`. */
  method GetSeatByID(db: Database, id: int, down: set<Call>) returns (r: Result<Option<Seat>, Error>)
    ensures SeatLookup !in down ==> r == Ok(FindSeat(db.seats, id))
    ensures SeatLookup in down ==> r == Err(Storage(SeatLookup))
  {
    r := SeatRepository.GetSeatByID(db, id, SeatLookup !in down);
  }
}
