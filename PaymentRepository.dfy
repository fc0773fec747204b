/** The `payments` and `payment_methods` tables and the statements the
    payment repository issues against them. `up` says whether the database
    accepts the call's statements; when it does not, the call reports
    `Storage(call)` and changes nothing. */
module PaymentRepository {
  import opened Wrappers
  import opened Models
  import opened Rows
  import opened Store

  /** `SELECT … FROM payments WHERE id = $1`. */
  function FindPayment(ps: seq<Payment>, id: int): (r: Option<Payment>)
    ensures r.Some? ==> r.value in ps && r.value.id == id
    ensures r.None? <==> forall i :: 0 <= i < |ps| ==> ps[i].id != id
  {
    First(ps, (p: Payment) => p.id == id)
  }

  /** `SELECT … FROM payments WHERE booking_id = $1`: the first such row. */
  function PaymentForBooking(ps: seq<Payment>, bookingId: int): (r: Option<Payment>)
    ensures r.Some? ==> r.value in ps && r.value.bookingId == bookingId
    ensures r.None? <==> forall i :: 0 <= i < |ps| ==> ps[i].bookingId != bookingId
  {
    First(ps, (p: Payment) => p.bookingId == bookingId)
  }

  /** `ORDER BY name`. */
  function MethodKey(m: PaymentMethod): SortKey { SortKey(0, m.name) }

  function IsActive(m: PaymentMethod): bool { m.isActive }

  /** `WHERE is_active = TRUE ORDER BY name`: every active method as often
      as the table holds it, no inactive one, by name. */
  function ActiveMethods(ms: seq<PaymentMethod>): (r: seq<PaymentMethod>)
    ensures SortedBy(r, MethodKey)
    ensures forall m :: multiset(r)[m] == if m.isActive then multiset(ms)[m] else 0
  {
    var rows := Filter(ms, IsActive);
    FilterCount(ms, IsActive);
    SortBySorted(rows, MethodKey);
    SortBy(rows, MethodKey)
  }

  /** `WHERE name = $1 AND is_active = TRUE`: an inactive method is as good
      as a missing one. */
  function FindActiveMethod(ms: seq<PaymentMethod>, name: string): (r: Option<PaymentMethod>)
    ensures r.Some? ==> r.value in ms && r.value.name == name && r.value.isActive
    ensures r.None? <==> forall i :: 0 <= i < |ms| ==> !(ms[i].name == name && ms[i].isActive)
  {
    First(ms, (m: PaymentMethod) => m.name == name && m.isActive)
  }

  function OfPayer(userId: int): Payment -> bool
  {
    (p: Payment) => p.userId == userId
  }

  /** `WHERE user_id = $1 ORDER BY created_at DESC`: exactly the user's
      payments, newest first. */
  function UserPayments(ps: seq<Payment>, userId: int): (r: seq<Payment>)
    ensures |r| == |Filter(ps, OfPayer(userId))|
    ensures forall p :: p in r <==> p in ps && p.userId == userId
  {
    NewestFirstMembers(ps, OfPayer(userId));
    NewestFirst(ps, OfPayer(userId))
  }

  /** Payments are stamped when inserted, so newest first is `created_at DESC`. */
  lemma UserPaymentsDescending(ps: seq<Payment>, now: int, userId: int)
    requires Stamped(ps, PaymentCreated, now)
    ensures Descending(UserPayments(ps, userId), PaymentCreated)
  {
    NewestFirstDescending(ps, OfPayer(userId), PaymentCreated);
  }

  /** `UPDATE payments SET status = $1 WHERE id = $2`: every row with that id
      takes the status; nothing else changes. */
  function SetPaymentRowStatus(ps: seq<Payment>, id: int, status: string): (r: seq<Payment>)
    ensures |r| == |ps|
    ensures forall i :: 0 <= i < |ps| ==> r[i].(status := ps[i].status) == ps[i]
    ensures forall i :: 0 <= i < |ps| ==> r[i].status == (if ps[i].id == id then status else ps[i].status)
  {
    if ps == [] then [] else
      var p := ps[|ps| - 1];
      SetPaymentRowStatus(ps[..|ps| - 1], id, status) + [if p.id == id then p.(status := status) else p]
  }

  lemma SetPaymentRowStatusValid(ps: seq<Payment>, next: int, now: int, id: int, status: string)
    requires Keyed(ps, PaymentId, next) && Stamped(ps, PaymentCreated, now)
    ensures var r := SetPaymentRowStatus(ps, id, status);
      Keyed(r, PaymentId, next) && Stamped(r, PaymentCreated, now)
  {
    var r := SetPaymentRowStatus(ps, id, status);
    forall i | 0 <= i < |ps| ensures r[i].id == ps[i].id && r[i].createdAt == ps[i].createdAt {
      assert r[i].(status := ps[i].status) == ps[i];
    }
  }

  // ---------------------------------------------------------------------
  // The repository's methods

  /** `INSERT INTO payments … RETURNING id, created_at`: the payment as
      stored, with a fresh id and the current time. */
  method CreatePayment(db: Database, payment: Payment, up: bool) returns (r: Result<Payment, Error>)
    requires db.PaymentsValid()
    modifies db`payments, db`nextPaymentId
    ensures db.PaymentsValid()
    ensures up ==> (r == Ok(payment.(id := old(db.nextPaymentId), createdAt := db.now))
      && db.payments == old(db.payments) + [r.value] && db.nextPaymentId == old(db.nextPaymentId) + 1)
    ensures !up ==> (r == Err(Storage(PaymentInsert)) && db.payments == old(db.payments)
      && db.nextPaymentId == old(db.nextPaymentId))
  {
    if !up { return Err(Storage(PaymentInsert)); }
    var row := payment.(id := db.nextPaymentId, createdAt := db.now);
    KeyedAppend(db.payments, PaymentId, db.nextPaymentId, row);
    StampedAppend(db.payments, PaymentCreated, db.now, row);
    db.payments := db.payments + [row];
    db.nextPaymentId := db.nextPaymentId + 1;
    return Ok(row);
  }

  /** A missing payment is no error: `Ok(None)`. */
  method GetPaymentByID(db: Database, id: int, up: bool) returns (r: Result<Option<Payment>, Error>)
    ensures up ==> r == Ok(FindPayment(db.payments, id))
    ensures !up ==> r == Err(Storage(PaymentLookup))
  {
    if !up { return Err(Storage(PaymentLookup)); }
    return Ok(FindPayment(db.payments, id));
  }

  /** A booking without a payment is no error: `Ok(None)`. */
  method GetPaymentByBookingID(db: Database, bookingId: int, up: bool) returns (r: Result<Option<Payment>, Error>)
    ensures up ==> r == Ok(PaymentForBooking(db.payments, bookingId))
    ensures !up ==> r == Err(Storage(PaymentLookup))
  {
    if !up { return Err(Storage(PaymentLookup)); }
    return Ok(PaymentForBooking(db.payments, bookingId));
  }

  method UpdatePaymentStatus(db: Database, id: int, status: string, up: bool) returns (err: Option<Error>)
    requires db.PaymentsValid()
    modifies db`payments
    ensures db.PaymentsValid()
    ensures up ==> err == None && db.payments == SetPaymentRowStatus(old(db.payments), id, status)
    ensures !up ==> err == Some(Storage(PaymentUpdate)) && db.payments == old(db.payments)
  {
    if !up { return Some(Storage(PaymentUpdate)); }
    SetPaymentRowStatusValid(db.payments, db.nextPaymentId, db.now, id, status);
    db.payments := SetPaymentRowStatus(db.payments, id, status);
    return None;
  }

  method GetPaymentMethods(db: Database, up: bool) returns (r: Result<seq<PaymentMethod>, Error>)
    ensures up ==> r == Ok(ActiveMethods(db.methods))
    ensures !up ==> r == Err(Storage(MethodListing))
  {
    if !up { return Err(Storage(MethodListing)); }
    return Ok(ActiveMethods(db.methods));
  }

  /** An unknown or inactive method is no error: `Ok(None)`. */
  method GetPaymentMethodByName(db: Database, name: string, up: bool) returns (r: Result<Option<PaymentMethod>, Error>)
    ensures up ==> r == Ok(FindActiveMethod(db.methods, name))
    ensures !up ==> r == Err(Storage(MethodLookup))
  {
    if !up { return Err(Storage(MethodLookup)); }
    return Ok(FindActiveMethod(db.methods, name));
  }

  method GetUserPayments(db: Database, userId: int, up: bool) returns (r: Result<seq<Payment>, Error>)
    ensures up ==> r == Ok(UserPayments(db.payments, userId))
    ensures !up ==> r == Err(Storage(PaymentListing))
  {
    if !up { return Err(Storage(PaymentListing)); }
    return Ok(UserPayments(db.payments, userId));
  }
}
