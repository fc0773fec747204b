/** The records the booking system stores and exchanges. Prices and amounts
    are whole numbers of rupiah (the source keeps them in float64 but only ever
    copies and compares them for equality); timestamps are seconds on the one
    clock shared by the application and the database. */
module Models {
  import opened Dates

  type Timestamp = int

  // Booking.status values
  const Pending: string := "pending"
  const Confirmed: string := "confirmed"
  const Cancelled: string := "cancelled"
  // Booking.payment_status values besides "pending"
  const Paid: string := "paid"
  // Payment.status written by the payment workflow
  const Success: string := "success"

  datatype Cinema = Cinema(
    id: int, name: string, location: string, city: string, address: string,
    totalSeats: int, imageUrl: string)

  datatype Seat = Seat(
    id: int, cinemaId: int, seatNumber: string, rowNumber: int, seatType: string, price: int)

  /** One row of `seat_availability`: whether a seat is still free for one showing. */
  datatype SeatAvailability = SeatAvailability(
    id: int, cinemaId: int, seatId: int, showDate: Date, showTime: string, isAvailable: bool)

  /** An availability row with the seat the listing query joins to it. */
  datatype AvailabilityRow = AvailabilityRow(availability: SeatAvailability, seat: Seat)

  /** One row of `bookings`; `bookingDate` is also the row's `created_at`. */
  datatype Booking = Booking(
    id: int, userId: int, cinemaId: int, seatId: int, showDate: Date, showTime: string,
    bookingDate: Timestamp, status: string, totalPrice: int, paymentMethod: string,
    paymentStatus: string)

  /** A booking with the cinema and seat rows joined to it. */
  datatype BookingDetails = BookingDetails(booking: Booking, cinema: Cinema, seat: Seat)

  datatype PaymentMethod = PaymentMethod(id: int, name: string, kind: string, isActive: bool)

  datatype Payment = Payment(
    id: int, bookingId: int, userId: int, amount: int, paymentMethod: string, status: string,
    transactionId: string, createdAt: Timestamp)

  datatype User = User(id: int, username: string, email: string, password: string, isVerified: bool)

  datatype UserSession = UserSession(
    id: int, userId: int, token: string, createdAt: Timestamp, expiresAt: Timestamp)

  datatype EmailVerification = EmailVerification(
    id: int, userId: int, email: string, otpCode: string, expiresAt: Timestamp,
    isVerified: bool, createdAt: Timestamp)

  datatype BookingRequest = BookingRequest(
    cinemaId: int, seatId: int, date: string, time: string, paymentMethod: string)

  datatype BookingResponse = BookingResponse(
    id: int, cinemaId: int, seatId: int, showDate: Date, showTime: string, totalPrice: int,
    paymentMethod: string, status: string, paymentStatus: string, createdAt: Timestamp)

  datatype PaymentRequest = PaymentRequest(bookingId: int, paymentMethod: string, amount: int)

  datatype PaymentResponse = PaymentResponse(
    id: int, bookingId: int, amount: int, paymentMethod: string, status: string,
    transactionId: string, createdAt: Timestamp)

  datatype SeatAvailabilityResponse = SeatAvailabilityResponse(
    cinemaId: int, date: string, time: string,
    availableSeats: seq<AvailabilityRow>, unavailableSeats: seq<AvailabilityRow>,
    totalAvailable: int, totalUnavailable: int)

  datatype CinemaFilters = CinemaFilters(city: string, name: string)

  /** `models.PaginatedResponse`. */
  datatype Paginated<T> = Paginated(data: seq<T>, page: int, limit: int, total: int, totalPages: int)

  datatype UserRegisterRequest = UserRegisterRequest(username: string, email: string, password: string)

  datatype UserLoginRequest = UserLoginRequest(username: string, password: string)

  datatype UserLoginResponse = UserLoginResponse(id: int, username: string, email: string, token: string)

  /** The database statements a workflow issues; a failing one is reported as
      `Storage(call)`, the model's stand-in for the wrapped driver error. */
  datatype Call =
    | SeatLookup | CinemaLookup | ConflictCheck | BookingInsert | AvailabilityUpdate
    | BookingListing | DetailsLookup | BookingLookup | StatusUpdate | PaymentStatusUpdate
    | MethodLookup | PaymentInsert | AvailabilityListing | SeatInsert | AvailabilityInsert
    | CinemaListing | CinemaInsert | PaymentLookup | PaymentUpdate | PaymentListing | MethodListing
    | UserByName | UserByEmail | UserInsert | SessionInsert | SessionLookup | SessionDelete | UserById
    | VerificationInsert | VerificationLookup | VerificationMark | UserVerify | VerificationCleanup

  /** The errors the services return, one per distinct message in the source;
      `BookingNotPayable` belongs to the corrected payment workflow only. */
  datatype Error =
    | Storage(call: Call)
    | InvalidDateFormat | SeatNotFound | CinemaNotFound | SeatNotInCinema | SeatAlreadyBooked
    | BookingNotFound | NotBookingOwner | AmountMismatch(expected: int, got: int)
    | InvalidPaymentMethod
    | UsernameTaken | EmailTaken | HashFailed | InvalidCredentials | TokenSigningFailed
    | InvalidSession | SessionExpired | InvalidToken | InvalidSubject
    | OtpGenerationFailed | OtpSaveFailed | VerificationNotFound | NoOtpForEmail
    | EmailAlreadyVerified | OtpExpired | InvalidOtpCode | MarkVerifiedFailed
    | UserStatusFailed | NoRegistration | ResendTooSoon
    | NewOtpGenerationFailed | NewOtpSaveFailed
    | BookingNotPayable
}
