/** The PostgreSQL database the repositories talk to, as one object holding
    every table the core touches. Each table is a sequence of rows in
    insertion order; each SERIAL column is a counter; `now` is the clock read
    by `CURRENT_TIMESTAMP`, `NOW()` and the application's `time.Now()`. */
module Store {
  import opened Models
  import opened Rows

  // Column accessors, as function values for the generic table predicates.
  function CinemaId(c: Cinema): int { c.id }
  function SeatId(s: Seat): int { s.id }
  function AvailabilityId(a: SeatAvailability): int { a.id }
  function BookingId(b: Booking): int { b.id }
  function BookingDate(b: Booking): int { b.bookingDate }
  function PaymentId(p: Payment): int { p.id }
  function PaymentCreated(p: Payment): int { p.createdAt }
  function UserId(u: User): int { u.id }
  function SessionId(s: UserSession): int { s.id }
  function SessionCreated(s: UserSession): int { s.createdAt }
  function VerificationId(v: EmailVerification): int { v.id }
  function VerificationCreated(v: EmailVerification): int { v.createdAt }

  /** The `seat_availability` uniqueness that `ON CONFLICT DO NOTHING` relies
      on: at most one row per (seat, show date, show time). */
  predicate OneRowPerShowing(av: seq<SeatAvailability>)
  {
    forall i, j :: 0 <= i < j < |av| ==>
      !(av[i].seatId == av[j].seatId && av[i].showDate == av[j].showDate
        && av[i].showTime == av[j].showTime)
  }

  class Database {
    var cinemas: seq<Cinema>
    var seats: seq<Seat>
    var availability: seq<SeatAvailability>
    var bookings: seq<Booking>
    var methods: seq<PaymentMethod>
    var payments: seq<Payment>
    var users: seq<User>
    var sessions: seq<UserSession>
    var verifications: seq<EmailVerification>

    var nextCinemaId: int
    var nextSeatId: int
    var nextAvailabilityId: int
    var nextBookingId: int
    var nextPaymentId: int
    var nextUserId: int
    var nextSessionId: int
    var nextVerificationId: int

    var now: Timestamp

    predicate CinemasValid()
      reads this`cinemas, this`nextCinemaId
    {
      Keyed(cinemas, CinemaId, nextCinemaId)
    }

    predicate SeatsValid()
      reads this`seats, this`nextSeatId
    {
      Keyed(seats, SeatId, nextSeatId)
    }

    predicate AvailabilityValid()
      reads this`availability, this`nextAvailabilityId
    {
      Keyed(availability, AvailabilityId, nextAvailabilityId) && OneRowPerShowing(availability)
    }

    predicate BookingsValid()
      reads this`bookings, this`nextBookingId, this`now
    {
      Keyed(bookings, BookingId, nextBookingId) && Stamped(bookings, BookingDate, now)
    }

    predicate PaymentsValid()
      reads this`payments, this`nextPaymentId, this`now
    {
      Keyed(payments, PaymentId, nextPaymentId) && Stamped(payments, PaymentCreated, now)
    }

    predicate UsersValid()
      reads this`users, this`nextUserId
    {
      Keyed(users, UserId, nextUserId)
    }

    predicate SessionsValid()
      reads this`sessions, this`nextSessionId, this`now
    {
      Keyed(sessions, SessionId, nextSessionId) && Stamped(sessions, SessionCreated, now)
    }

    predicate VerificationsValid()
      reads this`verifications, this`nextVerificationId, this`now
    {
      Keyed(verifications, VerificationId, nextVerificationId)
      && Stamped(verifications, VerificationCreated, now)
    }

    predicate Valid()
      reads this
    {
      CinemasValid() && SeatsValid() && AvailabilityValid() && BookingsValid()
      && PaymentsValid() && UsersValid() && SessionsValid() && VerificationsValid()
    }
  }
}
