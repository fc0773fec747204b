/** The `bookings` table: the insert, the lookups, the two single-column
    updates, the conflict count behind double-booking protection and the
    lookup joined to the cinema and seat rows. `up` says whether the database
    accepts the call's statements; when it does not, the call reports
    `Storage(call)` and changes nothing. */
module BookingRepository {
  import opened Wrappers
  import opened Dates
  import opened Models
  import opened Rows
  import opened Store
  import opened SeatRepository
  import opened CinemaRepository
  import opened Pagination
  import opened Text

  /** `status != 'cancelled'`: the booking still holds its seat. */
  predicate Active(b: Booking) { b.status != Cancelled }

  predicate SameShowing(b: Booking, seatId: int, date: Date, time: string)
  {
    b.seatId == seatId && b.showDate == date && b.showTime == time
  }

  /** The booking holds that seat for that showing. */
  predicate Claims(b: Booking, seatId: int, date: Date, time: string)
  {
    SameShowing(b, seatId, date, time) && Active(b)
  }

  /** The property the booking workflow exists to keep: no two bookings that
      are not cancelled hold the same seat for the same showing. */
  predicate NoDoubleBooking(bs: seq<Booking>)
  {
    forall i, j :: 0 <= i < j < |bs| && Active(bs[i]) && Active(bs[j]) ==>
      !SameShowing(bs[i], bs[j].seatId, bs[j].showDate, bs[j].showTime)
  }

  // ---------------------------------------------------------------------
  // SELECT COUNT(*) FROM bookings WHERE seat_id = $1 AND show_date = $2
  //   AND show_time = $3 AND status != 'cancelled'

  function ClaimsOn(seatId: int, date: Date, time: string): Booking -> bool
  {
    (b: Booking) => Claims(b, seatId, date, time)
  }

  /** The number of bookings holding the seat for the showing; it is
      positive exactly when some booking holds it. */
  function CountClaims(bs: seq<Booking>, seatId: int, date: Date, time: string): (n: nat)
    ensures n > 0 <==> exists i :: 0 <= i < |bs| && Claims(bs[i], seatId, date, time)
  {
    var rows := Filter(bs, ClaimsOn(seatId, date, time));
    FilterMembers(bs, ClaimsOn(seatId, date, time));
    assert |rows| > 0 <==> exists i :: 0 <= i < |bs| && Claims(bs[i], seatId, date, time) by {
      if |rows| > 0 {
        assert rows[0] in rows;
      }
      if exists i :: 0 <= i < |bs| && Claims(bs[i], seatId, date, time) {
        var i :| 0 <= i < |bs| && Claims(bs[i], seatId, date, time);
        assert bs[i] in bs && ClaimsOn(seatId, date, time)(bs[i]);
      }
    }
    |rows|
  }

  /** Without double bookings the count never exceeds one. */
  lemma {:induction false} CountClaimsAtMostOne(bs: seq<Booking>, seatId: int, date: Date, time: string)
    requires NoDoubleBooking(bs)
    ensures CountClaims(bs, seatId, date, time) <= 1
  {
    if bs != [] {
      var init := bs[..|bs| - 1];
      assert NoDoubleBooking(init);
      CountClaimsAtMostOne(init, seatId, date, time);
      assert bs == init + [bs[|bs| - 1]];
    }
  }

  // ---------------------------------------------------------------------
  // Lookups

  /** `SELECT … FROM bookings WHERE id = $1`. */
  function FindBooking(bs: seq<Booking>, id: int): (r: Option<Booking>)
    ensures r.Some? ==> r.value in bs && r.value.id == id
    ensures r.None? <==> forall i :: 0 <= i < |bs| ==> bs[i].id != id
  {
    First(bs, (b: Booking) => b.id == id)
  }

  /** The booking with that id and the cinema and seat it references; the
      inner joins drop a booking whose cinema or seat row is missing. */
  function Details(bs: seq<Booking>, cs: seq<Cinema>, ss: seq<Seat>, id: int): (r: Option<BookingDetails>)
    ensures r.Some? ==> (r.value.booking in bs && r.value.booking.id == id
      && r.value.cinema in cs && r.value.cinema.id == r.value.booking.cinemaId
      && r.value.seat in ss && r.value.seat.id == r.value.booking.seatId)
  {
    match FindBooking(bs, id)
    case None => None
    case Some(b) =>
      match (FindCinema(cs, b.cinemaId), FindSeat(ss, b.seatId))
      case (Some(c), Some(s)) => Some(BookingDetails(b, c, s))
      case _ => None
  }

  /** With distinct booking ids, the joined lookup finds nothing exactly when
      no booking has that id or its cinema or seat row is missing. */
  lemma DetailsComplete(bs: seq<Booking>, next: int, cs: seq<Cinema>, ss: seq<Seat>, id: int)
    requires Keyed(bs, BookingId, next)
    ensures Details(bs, cs, ss, id).None? <==>
      forall i :: 0 <= i < |bs| && bs[i].id == id ==>
        (forall k :: 0 <= k < |cs| ==> cs[k].id != bs[i].cinemaId)
        || (forall k :: 0 <= k < |ss| ==> ss[k].id != bs[i].seatId)
  {
    var found := FindBooking(bs, id);
    if found.Some? {
      var j :| 0 <= j < |bs| && bs[j] == found.value;
      forall i | 0 <= i < |bs| && bs[i].id == id ensures bs[i] == found.value {
        KeyedUnique(bs, BookingId, next, i, j);
      }
    }
  }

  function OfUser(userId: int): Booking -> bool
  {
    (b: Booking) => b.userId == userId
  }

  /** `WHERE user_id = $1 ORDER BY booking_date DESC`, before LIMIT/OFFSET:
      exactly the user's bookings, newest first. */
  function UserBookings(bs: seq<Booking>, userId: int): (r: seq<Booking>)
    ensures |r| == |Filter(bs, OfUser(userId))|
    ensures forall b :: b in r <==> b in bs && b.userId == userId
  {
    NewestFirstMembers(bs, OfUser(userId));
    NewestFirst(bs, OfUser(userId))
  }

  /** Bookings are stamped when inserted, so newest first is `booking_date DESC`. */
  lemma UserBookingsDescending(bs: seq<Booking>, now: int, userId: int)
    requires Stamped(bs, BookingDate, now)
    ensures Descending(UserBookings(bs, userId), BookingDate)
  {
    NewestFirstDescending(bs, OfUser(userId), BookingDate);
  }

  // ---------------------------------------------------------------------
  // UPDATE bookings SET status = $1 WHERE id = $2
  // UPDATE bookings SET payment_status = $1 WHERE id = $2

  /** Every row with that id takes the status; nothing else changes. */
  function SetStatus(bs: seq<Booking>, id: int, status: string): (r: seq<Booking>)
    ensures |r| == |bs|
    ensures forall i :: 0 <= i < |bs| ==> r[i].(status := bs[i].status) == bs[i]
    ensures forall i :: 0 <= i < |bs| ==> r[i].status == (if bs[i].id == id then status else bs[i].status)
  {
    if bs == [] then [] else
      var b := bs[|bs| - 1];
      SetStatus(bs[..|bs| - 1], id, status) + [if b.id == id then b.(status := status) else b]
  }

  /** Every row with that id takes the payment status; nothing else changes. */
  function SetPaymentStatus(bs: seq<Booking>, id: int, paymentStatus: string): (r: seq<Booking>)
    ensures |r| == |bs|
    ensures forall i :: 0 <= i < |bs| ==> r[i].(paymentStatus := bs[i].paymentStatus) == bs[i]
    ensures forall i :: 0 <= i < |bs| ==>
      r[i].paymentStatus == (if bs[i].id == id then paymentStatus else bs[i].paymentStatus)
  {
    if bs == [] then [] else
      var b := bs[|bs| - 1];
      SetPaymentStatus(bs[..|bs| - 1], id, paymentStatus)
      + [if b.id == id then b.(paymentStatus := paymentStatus) else b]
  }

  /** Neither update touches an id or a booking date. */
  lemma UpdatesKeepValid(bs: seq<Booking>, next: int, now: int, id: int, s: string)
    requires Keyed(bs, BookingId, next) && Stamped(bs, BookingDate, now)
    ensures Keyed(SetStatus(bs, id, s), BookingId, next) && Stamped(SetStatus(bs, id, s), BookingDate, now)
    ensures Keyed(SetPaymentStatus(bs, id, s), BookingId, next)
      && Stamped(SetPaymentStatus(bs, id, s), BookingDate, now)
  {
    var r1, r2 := SetStatus(bs, id, s), SetPaymentStatus(bs, id, s);
    forall i | 0 <= i < |bs|
      ensures r1[i].id == bs[i].id && r1[i].bookingDate == bs[i].bookingDate
      ensures r2[i].id == bs[i].id && r2[i].bookingDate == bs[i].bookingDate
    {
      assert r1[i].(status := bs[i].status) == bs[i];
      assert r2[i].(paymentStatus := bs[i].paymentStatus) == bs[i];
    }
    SameKeysValid(bs, r1, next, now);
    SameKeysValid(bs, r2, next, now);
  }

  /** A table whose rows keep their ids and booking dates stays valid. */
  lemma SameKeysValid(bs: seq<Booking>, r: seq<Booking>, next: int, now: int)
    requires Keyed(bs, BookingId, next) && Stamped(bs, BookingDate, now)
    requires |r| == |bs|
    requires forall i :: 0 <= i < |bs| ==> r[i].id == bs[i].id && r[i].bookingDate == bs[i].bookingDate
    ensures Keyed(r, BookingId, next) && Stamped(r, BookingDate, now)
  {
  }

  // ---------------------------------------------------------------------
  // How the writes affect double booking

  /** Inserting a booking the conflict count found no rival for keeps the
      table free of double bookings. */
  lemma AppendKeepsNoDoubleBooking(bs: seq<Booking>, b: Booking)
    requires NoDoubleBooking(bs)
    requires CountClaims(bs, b.seatId, b.showDate, b.showTime) == 0
    ensures NoDoubleBooking(bs + [b])
  {
    var r := bs + [b];
    forall i, j | 0 <= i < j < |r| && Active(r[i]) && Active(r[j])
      ensures !SameShowing(r[i], r[j].seatId, r[j].showDate, r[j].showTime)
    {
      assert r[i] == bs[i];
      if j == |bs| {
        assert !Claims(bs[i], b.seatId, b.showDate, b.showTime);
      } else {
        assert r[j] == bs[j];
      }
    }
  }

  /** A status update keeps the table free of double bookings when it cancels,
      or when every row it touches already holds its seat. */
  lemma SetStatusKeepsNoDoubleBooking(bs: seq<Booking>, id: int, status: string)
    requires NoDoubleBooking(bs)
    requires status == Cancelled || forall i :: 0 <= i < |bs| && bs[i].id == id ==> Active(bs[i])
    ensures NoDoubleBooking(SetStatus(bs, id, status))
  {
    var r := SetStatus(bs, id, status);
    forall i | 0 <= i < |bs|
      ensures SameShowing(r[i], bs[i].seatId, bs[i].showDate, bs[i].showTime)
      ensures Active(r[i]) ==> Active(bs[i])
    {
      assert r[i].(status := bs[i].status) == bs[i];
    }
  }

  /** The payment status plays no part in double booking. */
  lemma SetPaymentStatusKeepsNoDoubleBooking(bs: seq<Booking>, id: int, paymentStatus: string)
    requires NoDoubleBooking(bs)
    ensures NoDoubleBooking(SetPaymentStatus(bs, id, paymentStatus))
  {
    var r := SetPaymentStatus(bs, id, paymentStatus);
    forall i | 0 <= i < |bs|
      ensures SameShowing(r[i], bs[i].seatId, bs[i].showDate, bs[i].showTime)
      ensures Active(r[i]) == Active(bs[i])
    {
      assert r[i].(paymentStatus := bs[i].paymentStatus) == bs[i];
    }
  }

  /** Reopening a cancelled booking whose seat has since been taken again
      produces a double booking. */
  lemma ReopenBreaksNoDoubleBooking(bs: seq<Booking>, i: int, j: int, status: string)
    requires 0 <= i < |bs| && 0 <= j < |bs| && i != j
    requires bs[i].status == Cancelled && Active(bs[j]) && status != Cancelled
    requires SameShowing(bs[j], bs[i].seatId, bs[i].showDate, bs[i].showTime)
    requires bs[j].id != bs[i].id
    ensures !NoDoubleBooking(SetStatus(bs, bs[i].id, status))
  {
    var r := SetStatus(bs, bs[i].id, status);
    assert r[i].(status := bs[i].status) == bs[i];
    assert r[j].(status := bs[j].status) == bs[j];
    if i < j {
      assert Active(r[i]) && Active(r[j]) && SameShowing(r[i], r[j].seatId, r[j].showDate, r[j].showTime);
    } else {
      assert Active(r[j]) && Active(r[i]) && SameShowing(r[j], r[i].seatId, r[i].showDate, r[i].showTime);
    }
  }

  // ---------------------------------------------------------------------
  // The repository's methods

  /** `INSERT INTO bookings … RETURNING id, booking_date`: the booking as
      stored, with a fresh id and the current time as its booking date. */
  method CreateBooking(db: Database, booking: Booking, up: bool) returns (r: Result<Booking, Error>)
    requires db.BookingsValid()
    modifies db`bookings, db`nextBookingId
    ensures db.BookingsValid()
    ensures up ==> (r == Ok(booking.(id := old(db.nextBookingId), bookingDate := db.now))
      && db.bookings == old(db.bookings) + [r.value] && db.nextBookingId == old(db.nextBookingId) + 1)
    ensures !up ==> (r == Err(Storage(BookingInsert)) && db.bookings == old(db.bookings)
      && db.nextBookingId == old(db.nextBookingId))
  {
    if !up { return Err(Storage(BookingInsert)); }
    var row := booking.(id := db.nextBookingId, bookingDate := db.now);
    KeyedAppend(db.bookings, BookingId, db.nextBookingId, row);
    StampedAppend(db.bookings, BookingDate, db.now, row);
    db.bookings := db.bookings + [row];
    db.nextBookingId := db.nextBookingId + 1;
    return Ok(row);
  }

  /** A missing booking is no error: `Ok(None)`. */
  method GetBookingByID(db: Database, id: int, up: bool) returns (r: Result<Option<Booking>, Error>)
    ensures up ==> r == Ok(FindBooking(db.bookings, id))
    ensures !up ==> r == Err(Storage(BookingLookup))
  {
    if !up { return Err(Storage(BookingLookup)); }
    return Ok(FindBooking(db.bookings, id));
  }

  /** The user's page of bookings, newest first, from the row offset
      `(page-1)*limit` as Go's 64-bit `int` computes it, with at most `limit`
      rows, and how many bookings the user has. PostgreSQL rejects a
      negative LIMIT or OFFSET, which fails the data statement. */
  method GetUserBookings(db: Database, userId: int, page: int, limit: int, up: bool)
    returns (r: Result<(seq<Booking>, int), Error>)
    ensures var offset := Offset(page, limit);
      up && limit >= 0 && offset >= 0 ==>
      r == Ok((Window(UserBookings(db.bookings, userId), offset, limit), |Filter(db.bookings, OfUser(userId))|))
    ensures !up || limit < 0 || Offset(page, limit) < 0 ==> r == Err(Storage(BookingListing))
  {
    var offset := Wrap64((page - 1) * limit);
    if !up { return Err(Storage(BookingListing)); }
    var total := |Filter(db.bookings, OfUser(userId))|;
    if limit < 0 || offset < 0 { return Err(Storage(BookingListing)); }
    return Ok((Window(UserBookings(db.bookings, userId), offset, limit), total));
  }

  /** Any status string is accepted. */
  method UpdateBookingStatus(db: Database, id: int, status: string, up: bool) returns (err: Option<Error>)
    requires db.BookingsValid()
    modifies db`bookings
    ensures db.BookingsValid()
    ensures up ==> err == None && db.bookings == SetStatus(old(db.bookings), id, status)
    ensures !up ==> err == Some(Storage(StatusUpdate)) && db.bookings == old(db.bookings)
  {
    if !up { return Some(Storage(StatusUpdate)); }
    UpdatesKeepValid(db.bookings, db.nextBookingId, db.now, id, status);
    db.bookings := SetStatus(db.bookings, id, status);
    return None;
  }

  method UpdateBookingPaymentStatus(db: Database, id: int, paymentStatus: string, up: bool)
    returns (err: Option<Error>)
    requires db.BookingsValid()
    modifies db`bookings
    ensures db.BookingsValid()
    ensures up ==> err == None && db.bookings == SetPaymentStatus(old(db.bookings), id, paymentStatus)
    ensures !up ==> err == Some(Storage(PaymentStatusUpdate)) && db.bookings == old(db.bookings)
  {
    if !up { return Some(Storage(PaymentStatusUpdate)); }
    UpdatesKeepValid(db.bookings, db.nextBookingId, db.now, id, paymentStatus);
    db.bookings := SetPaymentStatus(db.bookings, id, paymentStatus);
    return None;
  }

  /** Whether a booking that is not cancelled holds the seat for the showing. */
  method CheckSeatBooked(db: Database, seatId: int, date: Date, time: string, up: bool)
    returns (r: Result<bool, Error>)
    ensures up ==> (r.Ok? && (r.value <==>
      exists i :: 0 <= i < |db.bookings| && Claims(db.bookings[i], seatId, date, time)))
    ensures !up ==> r == Err(Storage(ConflictCheck))
  {
    if !up { return Err(Storage(ConflictCheck)); }
    var count := CountClaims(db.bookings, seatId, date, time);
    return Ok(count > 0);
  }

  /** A missing booking, cinema or seat is no error: `Ok(None)`. */
  method GetBookingWithDetails(db: Database, id: int, up: bool) returns (r: Result<Option<BookingDetails>, Error>)
    ensures up ==> r == Ok(Details(db.bookings, db.cinemas, db.seats, id))
    ensures !up ==> r == Err(Storage(DetailsLookup))
  {
    if !up { return Err(Storage(DetailsLookup)); }
    return Ok(Details(db.bookings, db.cinemas, db.seats, id));
  }
}
