/** The booking workflow: the guards a reservation must pass, the two
    writes that record it, the user's enriched booking listing and the
    pass-through lookups. `down` is the set of statements the database
    rejects during the call. */
module BookingService {
  import opened Wrappers
  import opened Dates
  import opened Models
  import opened Rows
  import opened Store
  import opened SeatRepository
  import opened CinemaRepository
  import opened BookingRepository
  import opened Pagination

  // ---------------------------------------------------------------------
  // CreateBooking

  /** The guards of `CreateBooking`, in the order the service runs them:
      the parsed date and the seat when every one passes, otherwise the
      error of the first that fails. */
  function Admission(bs: seq<Booking>, ss: seq<Seat>, cs: seq<Cinema>, req: BookingRequest, down: set<Call>)
    : (r: Result<(Date, Seat), Error>)
    ensures ParseDate(req.date).None? ==> r == Err(InvalidDateFormat)
    ensures r == Err(SeatNotFound) <==>
      ParseDate(req.date).Some? && SeatLookup !in down && FindSeat(ss, req.seatId).None?
    ensures r == Err(Storage(SeatLookup)) <==> ParseDate(req.date).Some? && SeatLookup in down
    ensures r == Err(Storage(CinemaLookup)) <==>
      ParseDate(req.date).Some? && SeatLookup !in down && FindSeat(ss, req.seatId).Some? && CinemaLookup in down
    ensures r == Err(CinemaNotFound) <==>
      ParseDate(req.date).Some? && SeatLookup !in down && FindSeat(ss, req.seatId).Some?
      && CinemaLookup !in down && FindCinema(cs, req.cinemaId).None?
    ensures r == Err(SeatNotInCinema) <==>
      ParseDate(req.date).Some? && SeatLookup !in down && FindSeat(ss, req.seatId).Some?
      && CinemaLookup !in down && FindCinema(cs, req.cinemaId).Some?
      && FindSeat(ss, req.seatId).value.cinemaId != req.cinemaId
    ensures r == Err(Storage(ConflictCheck)) <==>
      ParseDate(req.date).Some? && SeatLookup !in down && FindSeat(ss, req.seatId).Some?
      && CinemaLookup !in down && FindCinema(cs, req.cinemaId).Some?
      && FindSeat(ss, req.seatId).value.cinemaId == req.cinemaId && ConflictCheck in down
    ensures r == Err(SeatAlreadyBooked) <==>
      ParseDate(req.date).Some? && SeatLookup !in down && FindSeat(ss, req.seatId).Some?
      && CinemaLookup !in down && FindCinema(cs, req.cinemaId).Some?
      && FindSeat(ss, req.seatId).value.cinemaId == req.cinemaId && ConflictCheck !in down
      && CountClaims(bs, req.seatId, ParseDate(req.date).value, req.time) > 0
    ensures r.Ok? <==>
      ParseDate(req.date).Some? && SeatLookup !in down && CinemaLookup !in down && ConflictCheck !in down
      && FindSeat(ss, req.seatId).Some? && FindCinema(cs, req.cinemaId).Some?
      && FindSeat(ss, req.seatId).value.cinemaId == req.cinemaId
      && CountClaims(bs, req.seatId, ParseDate(req.date).value, req.time) == 0
    ensures r.Ok? ==> r.value == (ParseDate(req.date).value, FindSeat(ss, req.seatId).value)
  {
    match ParseDate(req.date)
    case None => Err(InvalidDateFormat)
    case Some(date) =>
      if SeatLookup in down then Err(Storage(SeatLookup)) else
      match FindSeat(ss, req.seatId)
      case None => Err(SeatNotFound)
      case Some(seat) =>
        if CinemaLookup in down then Err(Storage(CinemaLookup))
        else if FindCinema(cs, req.cinemaId).None? then Err(CinemaNotFound)
        else if seat.cinemaId != req.cinemaId then Err(SeatNotInCinema)
        else if ConflictCheck in down then Err(Storage(ConflictCheck))
        else if CountClaims(bs, req.seatId, date, req.time) > 0 then Err(SeatAlreadyBooked)
        else Ok((date, seat))
  }

  /** A seat held by a booking that is not cancelled is never admitted again:
      once the lookups pass, the refusal is "already booked". A cancelled
      booking does not block the seat. */
  lemma AdmissionRefusesTakenSeat(bs: seq<Booking>, ss: seq<Seat>, cs: seq<Cinema>, req: BookingRequest,
                                  down: set<Call>, date: Date)
    requires ParseDate(req.date) == Some(date)
    ensures (exists i :: 0 <= i < |bs| && Claims(bs[i], req.seatId, date, req.time)) ==>
      Admission(bs, ss, cs, req, down).Err?
    ensures ((exists i :: 0 <= i < |bs| && Claims(bs[i], req.seatId, date, req.time))
             && SeatLookup !in down && CinemaLookup !in down && ConflictCheck !in down
             && FindSeat(ss, req.seatId).Some? && FindCinema(cs, req.cinemaId).Some?
             && FindSeat(ss, req.seatId).value.cinemaId == req.cinemaId)
      ==> Admission(bs, ss, cs, req, down) == Err(SeatAlreadyBooked)
    ensures (forall i :: 0 <= i < |bs| && SameShowing(bs[i], req.seatId, date, req.time) ==> !Active(bs[i])) ==>
      Admission(bs, ss, cs, req, down) != Err(SeatAlreadyBooked)
  {
  }

  /** The row `CreateBooking` inserts, before the database assigns its id
      and booking date. */
  function NewBooking(userId: int, req: BookingRequest, date: Date, seat: Seat): Booking
  {
    Booking(0, userId, req.cinemaId, req.seatId, date, req.time, 0, Pending, seat.price,
            req.paymentMethod, Pending)
  }

  /** The response of a stored booking. Its `created_at` is the booking
      date: both are stamped at insert by the one clock of the model. */
  function BookingResponseOf(b: Booking): BookingResponse
  {
    BookingResponse(b.id, b.cinemaId, b.seatId, b.showDate, b.showTime, b.totalPrice,
                    b.paymentMethod, b.status, b.paymentStatus, b.bookingDate)
  }

  /** The guard sequence as the service runs it, one repository call at a
      time; it writes nothing. */
  method Admit(db: Database, req: BookingRequest, down: set<Call>) returns (a: Result<(Date, Seat), Error>)
    ensures a == Admission(db.bookings, db.seats, db.cinemas, req, down)
  {
    var parsed := ParseDate(req.date);
    if parsed.None? { return Err(InvalidDateFormat); }
    var date := parsed.value;

    var seatFound := GetSeatByID(db, req.seatId, SeatLookup !in down);
    if seatFound.Err? { return Err(seatFound.error); }
    if seatFound.value.None? { return Err(SeatNotFound); }
    var seat := seatFound.value.value;

    var cinemaFound := GetCinemaByID(db, req.cinemaId, CinemaLookup !in down);
    if cinemaFound.Err? { return Err(cinemaFound.error); }
    if cinemaFound.value.None? { return Err(CinemaNotFound); }

    if seat.cinemaId != req.cinemaId { return Err(SeatNotInCinema); }

    var booked := CheckSeatBooked(db, req.seatId, date, req.time, ConflictCheck !in down);
    if booked.Err? { return Err(booked.error); }
    if booked.value { return Err(SeatAlreadyBooked); }
    return Ok((date, seat));
  }

  /** Reserves a seat for a showing. A refused request changes nothing; an
      admitted one inserts one pending booking priced at the seat's price and
      then marks the seat taken for that showing. If that second write
      fails the booking stays and the error is reported. Either way the table
      never acquires a double booking. */
  method CreateBooking(db: Database, userId: int, req: BookingRequest, down: set<Call>)
    returns (r: Result<BookingResponse, Error>)
    requires db.BookingsValid() && db.AvailabilityValid()
    modifies db`bookings, db`nextBookingId, db`availability
    ensures db.BookingsValid() && db.AvailabilityValid()
    ensures NoDoubleBooking(old(db.bookings)) ==> NoDoubleBooking(db.bookings)
    ensures var a := Admission(old(db.bookings), db.seats, db.cinemas, req, down);
      a.Err? || BookingInsert in down ==>
      (r == Err(if a.Err? then a.error else Storage(BookingInsert))
       && db.bookings == old(db.bookings) && db.nextBookingId == old(db.nextBookingId)
       && db.availability == old(db.availability))
    ensures var a := Admission(old(db.bookings), db.seats, db.cinemas, req, down);
      a.Ok? && BookingInsert !in down ==>
      (var (date, seat) := a.value;
       var b := NewBooking(userId, req, date, seat).(id := old(db.nextBookingId), bookingDate := db.now);
       db.bookings == old(db.bookings) + [b] && db.nextBookingId == old(db.nextBookingId) + 1
       && b.status == Pending && b.paymentStatus == Pending && b.totalPrice == seat.price
       && b.userId == userId && b.cinemaId == req.cinemaId && b.seatId == req.seatId
       && b.showDate == date && b.showTime == req.time && b.paymentMethod == req.paymentMethod
       && (AvailabilityUpdate in down ==>
             r == Err(Storage(AvailabilityUpdate)) && db.availability == old(db.availability))
       && (AvailabilityUpdate !in down ==>
             r == Ok(BookingResponseOf(b))
             && db.availability == SetAvailable(old(db.availability), req.seatId, date, req.time, false)))
  {
    var admitted := Admit(db, req, down);
    if admitted.Err? { return Err(admitted.error); }
    r := Record(db, userId, req, admitted.value.0, admitted.value.1, down);
    assert admitted == Admission(old(db.bookings), db.seats, db.cinemas, req, down);
  }

  /** The two writes of an admitted reservation: the pending booking, then
      the seat marked taken for the showing. A booking for a seat no active
      booking holds cannot create a double booking. */
  method Record(db: Database, userId: int, req: BookingRequest, date: Date, seat: Seat, down: set<Call>)
    returns (r: Result<BookingResponse, Error>)
    requires db.BookingsValid() && db.AvailabilityValid()
    requires CountClaims(db.bookings, req.seatId, date, req.time) == 0
    modifies db`bookings, db`nextBookingId, db`availability
    ensures db.BookingsValid() && db.AvailabilityValid()
    ensures NoDoubleBooking(old(db.bookings)) ==> NoDoubleBooking(db.bookings)
    ensures BookingInsert in down ==>
      (r == Err(Storage(BookingInsert)) && db.bookings == old(db.bookings)
       && db.nextBookingId == old(db.nextBookingId) && db.availability == old(db.availability))
    ensures BookingInsert !in down ==>
      (var b := NewBooking(userId, req, date, seat).(id := old(db.nextBookingId), bookingDate := db.now);
       db.bookings == old(db.bookings) + [b] && db.nextBookingId == old(db.nextBookingId) + 1
       && (AvailabilityUpdate in down ==>
             r == Err(Storage(AvailabilityUpdate)) && db.availability == old(db.availability))
       && (AvailabilityUpdate !in down ==>
             r == Ok(BookingResponseOf(b))
             && db.availability == SetAvailable(old(db.availability), req.seatId, date, req.time, false)))
  {
    if NoDoubleBooking(db.bookings) {
      AppendKeepsNoDoubleBooking(db.bookings,
        NewBooking(userId, req, date, seat).(id := db.nextBookingId, bookingDate := db.now));
    }
    var created := BookingRepository.CreateBooking(db, NewBooking(userId, req, date, seat), BookingInsert !in down);
    if created.Err? { return Err(created.error); }
    var booking := created.value;

    var updated := UpdateSeatAvailability(db, req.seatId, date, req.time, false, AvailabilityUpdate !in down);
    if updated.Some? { return Err(updated.value); }

    return Ok(BookingResponseOf(booking));
  }

  // ---------------------------------------------------------------------
  // GetUserBookings

  /** Each booking of the page with its cinema and seat, in page order; a
      booking whose joined lookup finds nothing is skipped. */
  function EnrichAll(bs: seq<Booking>, cs: seq<Cinema>, ss: seq<Seat>, page: seq<Booking>): (r: seq<BookingDetails>)
    ensures |r| <= |page|
  {
    if page == [] then [] else
      var rest := EnrichAll(bs, cs, ss, page[..|page| - 1]);
      match Details(bs, cs, ss, page[|page| - 1].id)
      case None => rest
      case Some(d) => rest + [d]
  }

  /** Every enriched entry is the details of a booking of the page. */
  lemma {:induction false} EnrichAllMembers(bs: seq<Booking>, cs: seq<Cinema>, ss: seq<Seat>, page: seq<Booking>)
    ensures forall x :: x in EnrichAll(bs, cs, ss, page) ==>
      exists i :: 0 <= i < |page| && Details(bs, cs, ss, page[i].id) == Some(x)
  {
    if page != [] {
      var init := page[..|page| - 1];
      EnrichAllMembers(bs, cs, ss, init);
      forall x | x in EnrichAll(bs, cs, ss, page)
        ensures exists i :: 0 <= i < |page| && Details(bs, cs, ss, page[i].id) == Some(x)
      {
        if x in EnrichAll(bs, cs, ss, init) {
          var i :| 0 <= i < |init| && Details(bs, cs, ss, init[i].id) == Some(x);
          assert page[i] == init[i];
        } else {
          assert Details(bs, cs, ss, page[|page| - 1].id) == Some(x);
        }
      }
    }
  }

  /** When every booking of the page has its details, the list has one entry
      per booking, in page order. */
  lemma {:induction false} EnrichAllComplete(bs: seq<Booking>, cs: seq<Cinema>, ss: seq<Seat>, page: seq<Booking>)
    requires forall i :: 0 <= i < |page| ==> Details(bs, cs, ss, page[i].id).Some?
    ensures |EnrichAll(bs, cs, ss, page)| == |page|
    ensures forall k :: 0 <= k < |page| ==> EnrichAll(bs, cs, ss, page)[k] == Details(bs, cs, ss, page[k].id).value
  {
    if page != [] {
      var init := page[..|page| - 1];
      assert forall i :: 0 <= i < |init| ==> init[i] == page[i];
      EnrichAllComplete(bs, cs, ss, init);
      var rest := EnrichAll(bs, cs, ss, init);
      var d := Details(bs, cs, ss, page[|page| - 1].id).value;
      assert EnrichAll(bs, cs, ss, page) == rest + [d];
      forall k | 0 <= k < |page|
        ensures EnrichAll(bs, cs, ss, page)[k] == Details(bs, cs, ss, page[k].id).value
      {
        if k < |init| {
          assert EnrichAll(bs, cs, ss, page)[k] == rest[k];
        }
      }
    }
  }

  /** One more booking of the page: its details are added when they exist. */
  lemma EnrichStep(bs: seq<Booking>, cs: seq<Cinema>, ss: seq<Seat>, rows: seq<Booking>, i: int)
    requires 0 <= i < |rows|
    ensures Details(bs, cs, ss, rows[i].id).None? ==>
      EnrichAll(bs, cs, ss, rows[..i + 1]) == EnrichAll(bs, cs, ss, rows[..i])
    ensures Details(bs, cs, ss, rows[i].id).Some? ==>
      EnrichAll(bs, cs, ss, rows[..i + 1])
      == EnrichAll(bs, cs, ss, rows[..i]) + [Details(bs, cs, ss, rows[i].id).value]
  {
    assert rows[..i + 1][..i] == rows[..i];
  }

  /** With distinct booking ids, enriching keeps each booking itself: the
      page's bookings come back in page order, each with its cinema and seat,
      when all of those exist. */
  lemma EnrichAllKeepsBookings(bs: seq<Booking>, next: int, cs: seq<Cinema>, ss: seq<Seat>, page: seq<Booking>)
    requires Keyed(bs, BookingId, next)
    requires forall i :: 0 <= i < |page| ==> page[i] in bs
    requires forall i :: 0 <= i < |page| ==> Details(bs, cs, ss, page[i].id).Some?
    ensures |EnrichAll(bs, cs, ss, page)| == |page|
    ensures forall k :: 0 <= k < |page| ==> EnrichAll(bs, cs, ss, page)[k].booking == page[k]
  {
    EnrichAllComplete(bs, cs, ss, page);
    forall k | 0 <= k < |page| ensures Details(bs, cs, ss, page[k].id).value.booking == page[k] {
      var d := Details(bs, cs, ss, page[k].id).value;
      var i :| 0 <= i < |bs| && bs[i] == d.booking;
      var j :| 0 <= j < |bs| && bs[j] == page[k];
      KeyedUnique(bs, BookingId, next, i, j);
    }
  }

  /** The user's page of bookings with their details. The limits are clamped
      first, so the listing statement sees a positive LIMIT; the OFFSET is
      negative, and the listing fails, only when the page is so large that
      Go's 64-bit offset wraps below zero. One failed detail lookup fails the
      whole call. */
  method GetUserBookings(db: Database, userId: int, page: int, limit: int, down: set<Call>)
    returns (r: Result<Paginated<BookingDetails>, Error>)
    ensures var p, l := ClampPage(page), ClampLimit(limit);
      var total := |Filter(db.bookings, OfUser(userId))|;
      r == if BookingListing in down || Offset(p, l) < 0 then Err(Storage(BookingListing))
           else
             var rows := Window(UserBookings(db.bookings, userId), Offset(p, l), l);
             if DetailsLookup in down && rows != [] then Err(Storage(DetailsLookup))
             else Ok(Paginated(EnrichAll(db.bookings, db.cinemas, db.seats, rows), p, l, total, TotalPages(total, l)))
  {
    var p, l := page, limit;
    if p < 1 { p := 1; }
    if l < 1 || l > 100 { l := 10; }
    assert p == ClampPage(page) && l == ClampLimit(limit);
    ClampedPagingAccepted(page, limit);

    var listed := BookingRepository.GetUserBookings(db, userId, p, l, BookingListing !in down);
    if listed.Err? { return Err(listed.error); }
    var rows, total := listed.value.0, listed.value.1;

    var enriched := Enrich(db, rows, down);
    if enriched.Err? { return Err(enriched.error); }
    return Ok(Paginated(enriched.value, p, l, total, TotalPages(total, l)));
  }

  /** The enrichment loop: one joined lookup per row, in order, keeping the
      rows it finds. */
  method Enrich(db: Database, rows: seq<Booking>, down: set<Call>) returns (r: Result<seq<BookingDetails>, Error>)
    ensures r == if DetailsLookup in down && rows != [] then Err(Storage(DetailsLookup))
                 else Ok(EnrichAll(db.bookings, db.cinemas, db.seats, rows))
  {
    var enriched: seq<BookingDetails> := [];
    var i := 0;
    while i < |rows|
      invariant 0 <= i <= |rows|
      invariant DetailsLookup in down ==> i == 0
      invariant enriched == EnrichAll(db.bookings, db.cinemas, db.seats, rows[..i])
    {
      var full := GetBookingWithDetails(db, rows[i].id, DetailsLookup !in down);
      if full.Err? { return Err(full.error); }
      EnrichStep(db.bookings, db.cinemas, db.seats, rows, i);
      if full.value.Some? {
        enriched := enriched + [full.value.value];
      }
      i := i + 1;
    }
    assert rows[..i] == rows;
    return Ok(enriched);
  }

  /** The booking with its cinema and seat; a missing one is `Ok(None)`. */
  method GetBookingByID(db: Database, id: int, down: set<Call>) returns (r: Result<Option<BookingDetails>, Error>)
    ensures DetailsLookup !in down ==> r == Ok(Details(db.bookings, db.cinemas, db.seats, id))
    ensures DetailsLookup in down ==> r == Err(Storage(DetailsLookup))
  {
    r := GetBookingWithDetails(db, id, DetailsLookup !in down);
  }

  /** Any status string is written, whatever the booking's current status. */
  method UpdateBookingStatus(db: Database, id: int, status: string, down: set<Call>) returns (err: Option<Error>)
    requires db.BookingsValid()
    modifies db`bookings
    ensures db.BookingsValid()
    ensures StatusUpdate !in down ==> err == None && db.bookings == SetStatus(old(db.bookings), id, status)
    ensures StatusUpdate in down ==> err == Some(Storage(StatusUpdate)) && db.bookings == old(db.bookings)
  {
    err := BookingRepository.UpdateBookingStatus(db, id, status, StatusUpdate !in down);
  }
}
