/** The payment workflow: the guards a payment must pass, then three writes
    (the payment row, the booking's payment status, the booking's status) with
    no rollback when a later one fails. `down` is the set of statements the
    database rejects during the call. */
module PaymentService {
  import opened Wrappers
  import opened Text
  import opened Models
  import opened Rows
  import opened Store
  import opened BookingRepository
  import opened PaymentRepository

  /** `fmt.Sprintf("TXN-%d-%d", bookingID, userID)`. */
  function TransactionId(bookingId: int, userId: int): string
  {
    "TXN-" + IntToDecimal(bookingId) + "-" + IntToDecimal(userId)
  }

  /** Ids handed out by SERIAL columns are never negative, and for those the
      transaction id splits back into its booking and user ids. */
  lemma TransactionIdParts(bookingId: nat, userId: nat)
    ensures Split(TransactionId(bookingId, userId), '-') == ["TXN", NatToDecimal(bookingId), NatToDecimal(userId)]
  {
    var d1, d2 := NatToDecimal(bookingId), NatToDecimal(userId);
    assert '-' !in d1 by { forall i | 0 <= i < |d1| ensures d1[i] != '-' { assert IsDigit(d1[i]); } }
    assert '-' !in d2 by { forall i | 0 <= i < |d2| ensures d2[i] != '-' { assert IsDigit(d2[i]); } }
    assert '-' !in "TXN";
    SplitNoSeparator(d2, '-');
    SplitPrefix(d1, d2, '-');
    SplitPrefix("TXN", d1 + ['-'] + d2, '-');
    assert TransactionId(bookingId, userId) == "TXN" + ['-'] + (d1 + ['-'] + d2);
  }

  /** Different bookings or payers never share a transaction id. */
  lemma TransactionIdInjective(b1: nat, u1: nat, b2: nat, u2: nat)
    requires TransactionId(b1, u1) == TransactionId(b2, u2)
    ensures b1 == b2 && u1 == u2
  {
    TransactionIdParts(b1, u1);
    TransactionIdParts(b2, u2);
    NatToDecimalValue(b1);
    NatToDecimalValue(b2);
    NatToDecimalValue(u1);
    NatToDecimalValue(u2);
  }

  // ---------------------------------------------------------------------
  // The guards

  /** The guards of `ProcessPayment`, in the order the service runs them: the
      booking when every one passes, otherwise the error of the first that
      fails. The booking's own status is not among them. */
  function PaymentChecks(bs: seq<Booking>, ms: seq<PaymentMethod>, userId: int, req: PaymentRequest, down: set<Call>)
    : (r: Result<Booking, Error>)
    ensures BookingLookup in down ==> r == Err(Storage(BookingLookup))
    ensures r == Err(BookingNotFound) <==> BookingLookup !in down && FindBooking(bs, req.bookingId).None?
    ensures r == Err(NotBookingOwner) <==>
      BookingLookup !in down && FindBooking(bs, req.bookingId).Some?
      && FindBooking(bs, req.bookingId).value.userId != userId
    ensures r.Err? && r.error.AmountMismatch? <==>
      BookingLookup !in down && FindBooking(bs, req.bookingId).Some?
      && FindBooking(bs, req.bookingId).value.userId == userId
      && req.amount != FindBooking(bs, req.bookingId).value.totalPrice
    ensures r == Err(InvalidPaymentMethod) <==>
      BookingLookup !in down && FindBooking(bs, req.bookingId).Some?
      && FindBooking(bs, req.bookingId).value.userId == userId
      && req.amount == FindBooking(bs, req.bookingId).value.totalPrice
      && MethodLookup !in down && FindActiveMethod(ms, req.paymentMethod).None?
    ensures r.Ok? <==>
      BookingLookup !in down && MethodLookup !in down && FindBooking(bs, req.bookingId).Some?
      && FindBooking(bs, req.bookingId).value.userId == userId
      && req.amount == FindBooking(bs, req.bookingId).value.totalPrice
      && FindActiveMethod(ms, req.paymentMethod).Some?
    ensures r.Ok? ==> Some(r.value) == FindBooking(bs, req.bookingId)
  {
    if BookingLookup in down then Err(Storage(BookingLookup)) else
    match FindBooking(bs, req.bookingId)
    case None => Err(BookingNotFound)
    case Some(booking) =>
      if booking.userId != userId then Err(NotBookingOwner)
      else if req.amount != booking.totalPrice then Err(AmountMismatch(booking.totalPrice, req.amount))
      else if MethodLookup in down then Err(Storage(MethodLookup))
      else if FindActiveMethod(ms, req.paymentMethod).None? then Err(InvalidPaymentMethod)
      else Ok(booking)
  }

  /** The guard sequence as the service runs it; it writes nothing. */
  method Check(db: Database, userId: int, req: PaymentRequest, down: set<Call>) returns (r: Result<Booking, Error>)
    ensures r == PaymentChecks(db.bookings, db.methods, userId, req, down)
  {
    var found := GetBookingByID(db, req.bookingId, BookingLookup !in down);
    if found.Err? { return Err(found.error); }
    if found.value.None? { return Err(BookingNotFound); }
    var booking := found.value.value;

    if booking.userId != userId { return Err(NotBookingOwner); }

    if req.amount != booking.totalPrice { return Err(AmountMismatch(booking.totalPrice, req.amount)); }

    var active := GetPaymentMethodByName(db, req.paymentMethod, MethodLookup !in down);
    if active.Err? { return Err(active.error); }
    if active.value.None? { return Err(InvalidPaymentMethod); }

    return Ok(booking);
  }

  // ---------------------------------------------------------------------
  // The writes

  /** The payment row the service inserts, before the database assigns its
      id and creation time. */
  function NewPayment(userId: int, req: PaymentRequest, booking: Booking): Payment
  {
    Payment(0, req.bookingId, userId, req.amount, req.paymentMethod, Success,
            TransactionId(booking.id, booking.userId), 0)
  }

  function PaymentResponseOf(p: Payment): PaymentResponse
  {
    PaymentResponse(p.id, p.bookingId, p.amount, p.paymentMethod, p.status, p.transactionId, p.createdAt)
  }

  /** The bookings table after the two booking writes, the second only if
      the first went through. */
  function SettledBookings(bs: seq<Booking>, id: int, down: set<Call>): seq<Booking>
  {
    if PaymentStatusUpdate in down then bs
    else
      var paid := SetPaymentStatus(bs, id, Paid);
      if StatusUpdate in down then paid else SetStatus(paid, id, Confirmed)
  }

  /** Settling cannot create a double booking when every row with that id
      still holds its seat. */
  lemma SettledKeepsNoDoubleBooking(bs: seq<Booking>, id: int, down: set<Call>)
    requires NoDoubleBooking(bs)
    requires forall i :: 0 <= i < |bs| && bs[i].id == id ==> Active(bs[i])
    ensures NoDoubleBooking(SettledBookings(bs, id, down))
  {
    var paid := SetPaymentStatus(bs, id, Paid);
    SetPaymentStatusKeepsNoDoubleBooking(bs, id, Paid);
    forall i | 0 <= i < |paid| && paid[i].id == id ensures Active(paid[i]) {
      assert paid[i].(paymentStatus := bs[i].paymentStatus) == bs[i];
    }
    SetStatusKeepsNoDoubleBooking(paid, id, Confirmed);
  }

  /** The three writes: the payment row, then `payment_status = 'paid'`, then
      `status = 'confirmed'`. A failed write stops the sequence and is
      reported, and the writes before it stay. */
  method Settle(db: Database, userId: int, req: PaymentRequest, booking: Booking, down: set<Call>)
    returns (r: Result<PaymentResponse, Error>)
    requires db.BookingsValid() && db.PaymentsValid()
    modifies db`payments, db`nextPaymentId, db`bookings
    ensures db.BookingsValid() && db.PaymentsValid()
    ensures PaymentInsert in down ==> (r == Err(Storage(PaymentInsert))
      && db.payments == old(db.payments) && db.nextPaymentId == old(db.nextPaymentId)
      && db.bookings == old(db.bookings))
    ensures PaymentInsert !in down ==>
      (var p := NewPayment(userId, req, booking).(id := old(db.nextPaymentId), createdAt := db.now);
       db.payments == old(db.payments) + [p] && db.nextPaymentId == old(db.nextPaymentId) + 1
       && db.bookings == SettledBookings(old(db.bookings), req.bookingId, down)
       && r == if PaymentStatusUpdate in down then Err(Storage(PaymentStatusUpdate))
               else if StatusUpdate in down then Err(Storage(StatusUpdate))
               else Ok(PaymentResponseOf(p)))
  {
    var created := CreatePayment(db, NewPayment(userId, req, booking), PaymentInsert !in down);
    if created.Err? { return Err(created.error); }
    var payment := created.value;

    var err := UpdateBookingPaymentStatus(db, req.bookingId, Paid, PaymentStatusUpdate !in down);
    if err.Some? { return Err(err.value); }

    err := UpdateBookingStatus(db, req.bookingId, Confirmed, StatusUpdate !in down);
    if err.Some? { return Err(err.value); }

    return Ok(PaymentResponseOf(payment));
  }

  // ---------------------------------------------------------------------
  // ProcessPayment as written, and corrected

  /** `ProcessPayment` as the service is written: a payment that passes the
      guards confirms the booking, whatever its status was, so a cancelled
      booking is reopened. */
  method ProcessPayment(db: Database, userId: int, req: PaymentRequest, down: set<Call>)
    returns (r: Result<PaymentResponse, Error>)
    requires db.BookingsValid() && db.PaymentsValid()
    modifies db`payments, db`nextPaymentId, db`bookings
    ensures db.BookingsValid() && db.PaymentsValid()
    ensures var c := PaymentChecks(old(db.bookings), db.methods, userId, req, down);
      c.Err? ==> (r == Err(c.error) && db.payments == old(db.payments)
        && db.nextPaymentId == old(db.nextPaymentId) && db.bookings == old(db.bookings))
    ensures var c := PaymentChecks(old(db.bookings), db.methods, userId, req, down);
      c.Ok? && PaymentInsert !in down ==>
      (var p := NewPayment(userId, req, c.value).(id := old(db.nextPaymentId), createdAt := db.now);
       db.payments == old(db.payments) + [p] && db.nextPaymentId == old(db.nextPaymentId) + 1
       && db.bookings == SettledBookings(old(db.bookings), req.bookingId, down)
       && p.status == Success && p.amount == req.amount && p.paymentMethod == req.paymentMethod
       && p.transactionId == TransactionId(req.bookingId, userId)
       && r == if PaymentStatusUpdate in down then Err(Storage(PaymentStatusUpdate))
               else if StatusUpdate in down then Err(Storage(StatusUpdate))
               else Ok(PaymentResponseOf(p)))
    ensures var c := PaymentChecks(old(db.bookings), db.methods, userId, req, down);
      c.Ok? && PaymentInsert in down ==> (r == Err(Storage(PaymentInsert))
        && db.payments == old(db.payments) && db.nextPaymentId == old(db.nextPaymentId)
        && db.bookings == old(db.bookings))
  {
    var checked := Check(db, userId, req, down);
    if checked.Err? { return Err(checked.error); }
    r := Settle(db, userId, req, checked.value, down);
  }

  /** A concrete run of the written workflow that double-books a seat: a
      cancelled booking whose seat has since been booked by another user is
      paid for by its owner and comes back as confirmed. */
  lemma ProcessPaymentReopensCancelled()
    ensures var date := Dates.Date(2026, 1, 1);
      var cancelled := Booking(1, 7, 1, 5, date, "19:00", 0, Cancelled, 50000, "cash", Pending);
      var rival := Booking(2, 8, 1, 5, date, "19:00", 0, Pending, 50000, "cash", Pending);
      var bs := [cancelled, rival];
      var ms := [PaymentMethod(1, "cash", "cash", true)];
      var req := PaymentRequest(1, "cash", 50000);
      NoDoubleBooking(bs) && Keyed(bs, BookingId, 3)
      && PaymentChecks(bs, ms, 7, req, {}) == Ok(cancelled)
      && !NoDoubleBooking(SettledBookings(bs, 1, {}))
  {
    var date := Dates.Date(2026, 1, 1);
    var cancelled := Booking(1, 7, 1, 5, date, "19:00", 0, Cancelled, 50000, "cash", Pending);
    var rival := Booking(2, 8, 1, 5, date, "19:00", 0, Pending, 50000, "cash", Pending);
    var bs := [cancelled, rival];
    var ms := [PaymentMethod(1, "cash", "cash", true)];
    var req := PaymentRequest(1, "cash", 50000);
    assert FindBooking(bs, 1) == Some(cancelled);
    assert FindActiveMethod(ms, "cash").Some?;
    var paid := SetPaymentStatus(bs, 1, Paid);
    assert paid[0].(paymentStatus := bs[0].paymentStatus) == bs[0];
    assert paid[1].(paymentStatus := bs[1].paymentStatus) == bs[1];
    assert paid[0].status == Cancelled && paid[1] == rival;
    ReopenBreaksNoDoubleBooking(paid, 0, 1, Confirmed);
  }

  /** The guards with the missing one added: a cancelled booking cannot be
      paid for. */
  function PayableChecks(bs: seq<Booking>, ms: seq<PaymentMethod>, userId: int, req: PaymentRequest, down: set<Call>)
    : (r: Result<Booking, Error>)
    ensures r.Ok? <==> PaymentChecks(bs, ms, userId, req, down).Ok? && PaymentChecks(bs, ms, userId, req, down).value.status != Cancelled
    ensures r.Ok? ==> Some(r.value) == FindBooking(bs, req.bookingId) && Active(r.value)
  {
    match PaymentChecks(bs, ms, userId, req, down)
    case Err(e) => Err(e)
    case Ok(booking) => if booking.status == Cancelled then Err(BookingNotPayable) else Ok(booking)
  }

  /** The guard sequence with the status guard last; it writes nothing. */
  method CheckPayable(db: Database, userId: int, req: PaymentRequest, down: set<Call>) returns (r: Result<Booking, Error>)
    ensures r == PayableChecks(db.bookings, db.methods, userId, req, down)
  {
    r := Check(db, userId, req, down);
    if r.Ok? && r.value.status == Cancelled { r := Err(BookingNotPayable); }
  }

  /** With distinct ids, the booking a lookup finds is the only row with that id. */
  lemma OnlyRowWithId(bs: seq<Booking>, next: int, id: int)
    requires Keyed(bs, BookingId, next)
    ensures FindBooking(bs, id).Some? ==> forall i :: 0 <= i < |bs| && bs[i].id == id ==> bs[i] == FindBooking(bs, id).value
  {
    if FindBooking(bs, id).Some? {
      var b := FindBooking(bs, id).value;
      var j :| 0 <= j < |bs| && bs[j] == b;
      forall i | 0 <= i < |bs| && bs[i].id == id ensures bs[i] == b {
        KeyedUnique(bs, BookingId, next, i, j);
      }
    }
  }

  /** When the corrected guards pass, every row carrying the booking's id is
      active, so settling it cannot double-book. */
  lemma PayableRowsActive(bs: seq<Booking>, next: int, ms: seq<PaymentMethod>, userId: int,
                          req: PaymentRequest, down: set<Call>)
    requires Keyed(bs, BookingId, next)
    requires PayableChecks(bs, ms, userId, req, down).Ok?
    ensures forall i :: 0 <= i < |bs| && bs[i].id == req.bookingId ==> Active(bs[i])
  {
    OnlyRowWithId(bs, next, req.bookingId);
  }

  /** Settling a booking whose rows are all active: the writes of `Settle`,
      which cannot create a double booking. */
  method SettleActive(db: Database, userId: int, req: PaymentRequest, booking: Booking, down: set<Call>)
    returns (r: Result<PaymentResponse, Error>)
    requires db.BookingsValid() && db.PaymentsValid()
    requires forall i :: 0 <= i < |db.bookings| && db.bookings[i].id == req.bookingId ==> Active(db.bookings[i])
    modifies db`payments, db`nextPaymentId, db`bookings
    ensures db.BookingsValid() && db.PaymentsValid()
    ensures NoDoubleBooking(old(db.bookings)) ==> NoDoubleBooking(db.bookings)
    ensures PaymentInsert in down ==> (r == Err(Storage(PaymentInsert))
      && db.payments == old(db.payments) && db.nextPaymentId == old(db.nextPaymentId)
      && db.bookings == old(db.bookings))
    ensures PaymentInsert !in down ==>
      (var p := NewPayment(userId, req, booking).(id := old(db.nextPaymentId), createdAt := db.now);
       db.payments == old(db.payments) + [p] && db.nextPaymentId == old(db.nextPaymentId) + 1
       && db.bookings == SettledBookings(old(db.bookings), req.bookingId, down)
       && r == if PaymentStatusUpdate in down then Err(Storage(PaymentStatusUpdate))
               else if StatusUpdate in down then Err(Storage(StatusUpdate))
               else Ok(PaymentResponseOf(p)))
  {
    if NoDoubleBooking(db.bookings) {
      SettledKeepsNoDoubleBooking(db.bookings, req.bookingId, down);
    }
    r := Settle(db, userId, req, booking, down);
  }

  /** `ProcessPayment` with the status guard: the same writes, and a table
      free of double bookings stays free of them whichever writes fail. */
  method ProcessPaymentGuarded(db: Database, userId: int, req: PaymentRequest, down: set<Call>)
    returns (r: Result<PaymentResponse, Error>)
    requires db.BookingsValid() && db.PaymentsValid()
    modifies db`payments, db`nextPaymentId, db`bookings
    ensures db.BookingsValid() && db.PaymentsValid()
    ensures NoDoubleBooking(old(db.bookings)) ==> NoDoubleBooking(db.bookings)
    ensures var c := PayableChecks(old(db.bookings), db.methods, userId, req, down);
      c.Err? ==> (r == Err(c.error) && db.payments == old(db.payments)
        && db.nextPaymentId == old(db.nextPaymentId) && db.bookings == old(db.bookings))
    ensures var c := PayableChecks(old(db.bookings), db.methods, userId, req, down);
      c.Ok? && PaymentInsert !in down ==>
      (var p := NewPayment(userId, req, c.value).(id := old(db.nextPaymentId), createdAt := db.now);
       db.payments == old(db.payments) + [p] && db.nextPaymentId == old(db.nextPaymentId) + 1
       && db.bookings == SettledBookings(old(db.bookings), req.bookingId, down)
       && r == if PaymentStatusUpdate in down then Err(Storage(PaymentStatusUpdate))
               else if StatusUpdate in down then Err(Storage(StatusUpdate))
               else Ok(PaymentResponseOf(p)))
    ensures var c := PayableChecks(old(db.bookings), db.methods, userId, req, down);
      c.Ok? && PaymentInsert in down ==> (r == Err(Storage(PaymentInsert))
        && db.payments == old(db.payments) && db.nextPaymentId == old(db.nextPaymentId)
        && db.bookings == old(db.bookings))
  {
    var checked := CheckPayable(db, userId, req, down);
    if checked.Err? { return Err(checked.error); }
    ghost var c := PayableChecks(db.bookings, db.methods, userId, req, down);
    PayableRowsActive(db.bookings, db.nextBookingId, db.methods, userId, req, down);
    r := SettleActive(db, userId, req, checked.value, down);
    assert c == PayableChecks(old(db.bookings), db.methods, userId, req, down) && c.Ok? && c.value == checked.value;
  }

  method GetPaymentMethods(db: Database, down: set<Call>) returns (r: Result<seq<PaymentMethod>, Error>)
    ensures MethodListing !in down ==> r == Ok(ActiveMethods(db.methods))
    ensures MethodListing in down ==> r == Err(Storage(MethodListing))
  {
    r := PaymentRepository.GetPaymentMethods(db, MethodListing !in down);
  }

  /** A missing payment is `Ok(None)`. */
  method GetPaymentByID(db: Database, id: int, down: set<Call>) returns (r: Result<Option<Payment>, Error>)
    ensures PaymentLookup !in down ==> r == Ok(FindPayment(db.payments, id))
    ensures PaymentLookup in down ==> r == Err(Storage(PaymentLookup))
  {
    r := PaymentRepository.GetPaymentByID(db, id, PaymentLookup !in down);
  }
}
