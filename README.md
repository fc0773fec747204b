# Cinema seat booking, modelled in Dafny

A model of the backend of a cinema seat-booking service written in Go. It covers:

- **Cinemas and seats.** Users list cinemas, look up a cinema's seats, and ask which seats are still free for a showing. A showing is a date plus a show time.
- **Bookings.** A user reserves a seat for a showing and pays for the booking. A paid booking is confirmed.
- **Accounts.** Accounts are verified by a six-digit one-time code sent by e-mail. Requests are authenticated by a bearer token that is backed by a stored session.
- **The seeding program.** It fills a fresh database with five cinemas, a 5 × 30 seat grid per cinema and ten days of showings.

The PostgreSQL database is one `Database` object (module `Store`). It holds every table as a sequence, one id counter per table (the `SERIAL` columns) and the clock that stamps rows. Each repository is a module of methods over that object. Their contracts give the meaning of the repository's SQL as functions on the tables:

- `WHERE` is a filter.
- `ORDER BY … DESC` on an insertion timestamp is newest-first order.
- `LIMIT`/`OFFSET` is a window.
- `ON CONFLICT DO NOTHING` skips rows that already exist.
- `UPDATE … WHERE id = $n` rewrites one column of the matching rows.

The services are methods over the same object. Each guard sequence is a pure verdict function that names every outcome, and the method that writes is proved against it.

A statement that can fail is modelled as a failure flag:

- A repository method takes `up: bool`.
- A service takes `down: set<Call>`, the set of statements that fail in this run.

Outside effects are parameters:

- **Clock:** the database's `now`.
- **bcrypt:** the hash result `hashed` and the comparison `matches`.
- **JWT:** signing is `sign` and parsing is `subject`.
- **Random source:** `failsAt`, the position of the digit whose draw fails. The digits themselves are chosen nondeterministically.
- **ILIKE matching:** `ilike`.
- **Seeder inserts:** the sets of inserts that fail.

The central invariant is `BookingRepository.NoDoubleBooking`: at most one booking that is not cancelled per seat and showing.

- Creating a booking keeps this invariant.
- A status update keeps it when it cancels, or when it writes to a booking that is still active.
- Paying for a booking as the source is written does not keep it. See Findings.

## Model

| member | source | states |
|---|---|---|
| BookingRepository.CountClaims | internal/repositories/booking_repository.go:117-127 | the conflict count is positive exactly when some booking that is not cancelled holds the seat for that date and time |
| BookingRepository.CountClaimsAtMostOne | internal/repositories/booking_repository.go:117-127 | in a table without double bookings the conflict count is at most one |
| BookingRepository.FindBooking | internal/repositories/booking_repository.go:38-56 | a booking is found only with the requested id; none is found exactly when no row has that id |
| BookingRepository.Details | internal/repositories/booking_repository.go:130-162 | a joined result holds a stored booking with the id, and the cinema and seat rows whose ids the booking references |
| BookingRepository.DetailsComplete | internal/repositories/booking_repository.go:130-162 | with distinct ids, the join finds nothing exactly when the booking is missing or its cinema or seat row is missing |
| BookingRepository.UserBookings | internal/repositories/booking_repository.go:64-73 | the listing holds exactly the user's bookings, as many as the count query counts |
| BookingRepository.UserBookingsDescending | internal/repositories/booking_repository.go:73 | since bookings are stamped at insert, the listing is in descending booking_date order |
| BookingRepository.SetStatus | internal/repositories/booking_repository.go:97-104 | the row with the id takes the new status; every other field of that row and every other row is unchanged |
| BookingRepository.SetPaymentStatus | internal/repositories/booking_repository.go:107-114 | the row with the id takes the new payment status; nothing else changes |
| BookingRepository.UpdatesKeepValid | internal/repositories/booking_repository.go:97-114 | the two updates keep ids unique and increasing and booking dates ordered |
| BookingRepository.AppendKeepsNoDoubleBooking | internal/repositories/booking_repository.go:23-35 | inserting a booking for which the conflict count is zero keeps the table free of double bookings |
| BookingRepository.SetStatusKeepsNoDoubleBooking | internal/repositories/booking_repository.go:97-104 | a status update keeps the table free of double bookings when it cancels or when the booking it rewrites is still active |
| BookingRepository.SetPaymentStatusKeepsNoDoubleBooking | internal/repositories/booking_repository.go:107-114 | the payment status plays no part in double booking |
| BookingRepository.ReopenBreaksNoDoubleBooking | internal/repositories/booking_repository.go:97-104 | reopening a cancelled booking whose seat another active booking holds creates a double booking, because any status string is accepted |
| BookingRepository.CreateBooking | internal/repositories/booking_repository.go:23-35 | one row is appended with the given fields, a fresh id and the current booking date; a failed insert changes nothing |
| BookingRepository.GetBookingByID | internal/repositories/booking_repository.go:38-56 | the booking with the id, or no booking and no error when none exists |
| BookingRepository.GetUserBookings | internal/repositories/booking_repository.go:59-94 | the window of the user's bookings, newest first, from the offset (page-1)*limit as Go's 64-bit int computes it, of at most limit rows, together with the count of all the user's bookings; a negative limit or wrapped-negative offset fails the listing |
| BookingRepository.UpdateBookingStatus | internal/repositories/booking_repository.go:97-104 | the table becomes the status update of the old table |
| BookingRepository.UpdateBookingPaymentStatus | internal/repositories/booking_repository.go:107-114 | the table becomes the payment-status update of the old table |
| BookingRepository.CheckSeatBooked | internal/repositories/booking_repository.go:117-127 | true exactly when a booking that is not cancelled holds that seat, date and time |
| BookingRepository.GetBookingWithDetails | internal/repositories/booking_repository.go:130-162 | the booking joined to its cinema and seat, or no result and no error |
| BookingService.Admission | internal/services/booking_service.go:31-66 | the guards in order: an unparseable date, a failed seat lookup, a missing seat, a failed cinema lookup, a missing cinema, a seat of another cinema, a failed conflict check, a seat already held; each error exactly under its condition and the earlier guards passing, acceptance exactly when all pass |
| BookingService.AdmissionRefusesTakenSeat | internal/services/booking_service.go:59-66 | when the earlier guards pass and an active booking holds the seat at that showing, the request is refused as already booked; when every booking of that showing is cancelled, the refusal is never "already booked" |
| BookingService.Admit | internal/services/booking_service.go:31-66 | the guard sequence, one repository call at a time, reaches the verdict of Admission |
| BookingService.Record | internal/services/booking_service.go:69-90 | for an admitted request with no rival claim on the seat: a failed insert writes nothing; otherwise the pending booking is appended and the availability update's outcome follows; the table stays free of double bookings |
| BookingService.CreateBooking | internal/services/booking_service.go:29-106 | a refused request writes nothing; an accepted one appends a pending booking priced at the seat's price that copies the request, and then marks that seat and showing unavailable; a failed availability update leaves the booking in place; the table stays free of double bookings |
| BookingService.EnrichAll | internal/services/booking_service.go:123-132 | the enriched list never has more entries than the page has bookings |
| BookingService.EnrichAllMembers | internal/services/booking_service.go:123-132 | every enriched entry is the details of some page row |
| BookingService.EnrichAllComplete | internal/services/booking_service.go:123-132 | when every page row has its details, the list has the page's length and order, entry k being row k's details |
| BookingService.EnrichAllKeepsBookings | internal/services/booking_service.go:123-132 | with distinct ids, each enriched entry carries the very booking of its page row |
| BookingService.GetUserBookings | internal/services/booking_service.go:109-143 | the page and limit are clamped; the result holds the enriched window at the 64-bit offset, the clamped page and limit, the total and the page count; a listing failure, an offset wrapped below zero or a detail failure fails the call |
| BookingService.Enrich | internal/services/booking_service.go:123-132 | the enrichment loop returns EnrichAll, or fails on the first detail lookup that fails |
| BookingService.GetBookingByID | internal/services/booking_service.go:146-152 | the joined booking, or no booking and no error |
| BookingService.UpdateBookingStatus | internal/services/booking_service.go:155-161 | any status string is written to the rows with that id |
| CinemaRepository.BuildWhere | internal/repositories/cinema_repository.go:24-43 | the filter-by-filter clause, argument list and next placeholder number equal the reference WHERE clause and arguments, whichever filters are set |
| CinemaRepository.BuildQueries | internal/repositories/cinema_repository.go:22-57 | the step-by-step builder yields the count statement and the data statement with their argument lists: city first, name joined with WHERE or AND, then limit and offset |
| CinemaRepository.WhereClauseCount | internal/repositories/cinema_repository.go:25-44 | the WHERE clause holds one placeholder per filter argument |
| CinemaRepository.CountQueryPlaceholders | internal/repositories/cinema_repository.go:47-49 | the count statement's placeholders match its arguments in number |
| CinemaRepository.DataQueryPlaceholders | internal/repositories/cinema_repository.go:55-57 | the data statement's placeholders match its arguments in number, the filters followed by limit and offset |
| CinemaRepository.MatchingCinemas | internal/repositories/cinema_repository.go:55-56 | the cinemas that match the filters, each as often as the table holds it, ordered by name |
| CinemaRepository.FindCinema | internal/repositories/cinema_repository.go:79-95 | a cinema is found only with that id; none is found exactly when no row has the id |
| CinemaRepository.GetAllCinemas | internal/repositories/cinema_repository.go:22-76 | the window of matching cinemas from the offset (page-1)*limit as Go's 64-bit int computes it, and the number that match in all; a negative limit or wrapped-negative offset fails the listing |
| CinemaRepository.GetCinemaByID | internal/repositories/cinema_repository.go:79-95 | the cinema with the id, or no cinema and no error |
| CinemaRepository.CreateCinema | internal/repositories/cinema_repository.go:98-109 | one row is appended with a fresh id; a failed insert changes nothing |
| CinemaService.GetAllCinemas | internal/services/cinema_service.go:21-43 | the page and limit are clamped; the response carries the window at the 64-bit offset, the clamped page and limit, the total and the page count; a listing failure or an offset wrapped below zero fails the call |
| CinemaService.GetCinemaByID | internal/services/cinema_service.go:46-52 | the cinema with the id, or no cinema and no error |
| Dates.ParseDate | internal/services/booking_service.go:31 | every accepted date has a four-digit year and a real month and day |
| Dates.FormatDate | internal/repositories/booking_repository.go:121 | the layout renders a date in ten characters |
| Dates.ParseFormat | internal/repositories/seat_repository.go:88 | a formatted date parses back to the same date |
| Dates.FormatParse | internal/services/seat_service.go:24 | an accepted text is the layout's rendering of its date |
| Dates.AddDays | cmd/seeder/main.go:166 | adding days to a real date gives a real date |
| Dates.AddDaysIncreasing | cmd/seeder/main.go:165-166 | adding more days gives a strictly later date |
| EmailService.GenerateOTP | internal/services/email_service.go:38-48 | a failure of the random source fails the call; otherwise the code is six decimal digits |
| EmailService.SendOTP | internal/services/email_service.go:51-84 | a generation or save failure stores nothing; otherwise one unverified record for the user, address and code is appended, expiring five minutes later |
| EmailService.OtpVerdict | internal/services/email_service.go:140-163 | the checks in order: lookup failure, no record, already verified, expired, wrong code; each outcome exactly under its condition; success on the latest record |
| EmailService.CheckOtp | internal/services/email_service.go:140-163 | the checks as run reach OtpVerdict |
| EmailService.VerifyOTP | internal/services/email_service.go:138-181 | a failed check writes nothing; on success the record is marked verified, then the user's verified flag is set; each write's failure has its own error |
| EmailService.LatestAfterSetVerified | internal/repositories/email_verification_repository.go:65-69 | marking a record verified leaves the latest record for an address the same record |
| EmailService.VerifiedOnce | internal/services/email_service.go:150-153 | once a code is accepted, any later check for the address answers "already verified" |
| EmailService.SentCodeVerifies | internal/services/email_service.go:51-181 | a freshly sent code is accepted exactly while unexpired and only when it is the code that was sent |
| EmailService.ResendVerdict | internal/services/email_service.go:186-198 | the checks in order: no registration, already verified, less than a minute since the latest record; success on the latest record |
| EmailService.CheckResend | internal/services/email_service.go:186-198 | the checks as run reach ResendVerdict |
| EmailService.ResendOTP | internal/services/email_service.go:184-232 | a failed check or failure writes nothing; on success a new unverified record for the same user and address is appended, expiring five minutes later |
| EmailService.ResendRateLimited | internal/services/email_service.go:195-198 | right after a code is stored, a resend is refused for exactly one minute |
| EmailService.ResendSupersedes | internal/services/email_service.go:207-218 | after a resend, any other code is refused |
| EmailVerificationRepository.Latest | internal/repositories/email_verification_repository.go:39-62 | a record for the address is found exactly when the address has one |
| EmailVerificationRepository.LatestIsNewest | internal/repositories/email_verification_repository.go:44 | the record found has the greatest created_at among the address's records |
| EmailVerificationRepository.SetVerified | internal/repositories/email_verification_repository.go:65-69 | only the record with the id becomes verified; nothing else changes |
| EmailVerificationRepository.SetVerifiedValid | internal/repositories/email_verification_repository.go:65-69 | the update keeps ids and timestamps in order |
| EmailVerificationRepository.SetUserVerified | internal/repositories/email_verification_repository.go:72-76 | only the user with the id becomes verified; nothing else changes |
| EmailVerificationRepository.SetUserVerifiedValid | internal/repositories/email_verification_repository.go:72-76 | the update keeps user ids in order |
| EmailVerificationRepository.WithoutExpired | internal/repositories/email_verification_repository.go:79-83 | exactly the unverified records that expired before now are removed; every other record stays as often as it was |
| EmailVerificationRepository.Create | internal/repositories/email_verification_repository.go:21-36 | one unverified record is appended with a fresh id and the current time; a failed insert changes nothing |
| EmailVerificationRepository.GetByEmail | internal/repositories/email_verification_repository.go:39-62 | the latest record for the address, or none and no error |
| EmailVerificationRepository.MarkAsVerified | internal/repositories/email_verification_repository.go:65-69 | the table becomes SetVerified of the old one |
| EmailVerificationRepository.UpdateUserVerification | internal/repositories/email_verification_repository.go:72-76 | the users table becomes SetUserVerified of the old one |
| EmailVerificationRepository.DeleteExpired | internal/repositories/email_verification_repository.go:79-83 | the table becomes WithoutExpired of the old one |
| Pagination.ClampPage | internal/services/booking_service.go:110-112 | the page is at least 1: unchanged when it already is, 1 otherwise |
| Pagination.ClampLimit | internal/services/booking_service.go:113-115 | the limit lies in 1..100: unchanged when it already does, 10 otherwise |
| Pagination.GoDiv | internal/services/booking_service.go:134 | integer division truncating toward zero |
| Pagination.TotalPagesCeiling | internal/services/cinema_service.go:34 | the page count is the ceiling of total over limit |
| Pagination.Offset | internal/repositories/booking_repository.go:60 | the offset lies in Go's int range and equals (page-1)*limit whenever that product does |
| Pagination.OffsetWraps | internal/repositories/cinema_repository.go:23 | a large page wraps the offset: page 2^62+1 with limit 4 gives offset 0, page MaxInt64 with limit 10 gives -20 |
| Pagination.ClampedPagingAccepted | internal/services/booking_service.go:110-115 | for any requested page and limit, the clamped limit is positive, and while (page-1)*limit fits in a Go int the offset is that product and not negative |
| PaymentRepository.FindPayment | internal/repositories/payment_repository.go:37-54 | a payment is found only with the id; none exactly when no row has it |
| PaymentRepository.PaymentForBooking | internal/repositories/payment_repository.go:57-74 | a payment is found only for the booking; none exactly when no row references it |
| PaymentRepository.ActiveMethods | internal/repositories/payment_repository.go:87-107 | exactly the active methods, each as often as the table holds it, ordered by name |
| PaymentRepository.FindActiveMethod | internal/repositories/payment_repository.go:110-125 | a method is found only when its name matches and it is active |
| PaymentRepository.UserPayments | internal/repositories/payment_repository.go:128-150 | exactly the user's payments |
| PaymentRepository.UserPaymentsDescending | internal/repositories/payment_repository.go:130 | the user's payments in descending created_at order |
| PaymentRepository.SetPaymentRowStatus | internal/repositories/payment_repository.go:77-84 | only that payment's status changes |
| PaymentRepository.SetPaymentRowStatusValid | internal/repositories/payment_repository.go:77-84 | the update keeps ids and timestamps in order |
| PaymentRepository.CreatePayment | internal/repositories/payment_repository.go:22-34 | one row is appended with a fresh id and the current time; a failed insert changes nothing |
| PaymentRepository.GetPaymentByID | internal/repositories/payment_repository.go:37-54 | the payment with the id, or none and no error |
| PaymentRepository.GetPaymentByBookingID | internal/repositories/payment_repository.go:57-74 | the booking's payment, or none and no error |
| PaymentRepository.UpdatePaymentStatus | internal/repositories/payment_repository.go:77-84 | the table becomes SetPaymentRowStatus of the old one |
| PaymentRepository.GetPaymentMethods | internal/repositories/payment_repository.go:87-107 | the active methods by name |
| PaymentRepository.GetPaymentMethodByName | internal/repositories/payment_repository.go:110-125 | the active method with that name, or none and no error |
| PaymentRepository.GetUserPayments | internal/repositories/payment_repository.go:128-150 | the user's payments, newest first |
| PaymentService.TransactionIdParts | internal/services/payment_service.go:62 | the transaction id splits on '-' into "TXN", the booking id and the user id |
| PaymentService.TransactionIdInjective | internal/services/payment_service.go:62 | different (booking, user) pairs never share a transaction id |
| PaymentService.PaymentChecks | internal/services/payment_service.go:28-53 | the guards in order: missing booking, not the owner, amount not exactly the price, unknown or inactive method; each error exactly under its condition; success on the booking looked up |
| PaymentService.Check | internal/services/payment_service.go:28-53 | the guards as run reach PaymentChecks |
| PaymentService.SettledKeepsNoDoubleBooking | internal/services/payment_service.go:70-80 | paying an active booking keeps the table free of double bookings |
| PaymentService.PayableRowsActive | internal/services/payment_service.go:28-53 | when the corrected guards pass, every row with the booking's id is active |
| PaymentService.SettleActive | internal/services/payment_service.go:55-92 | settling an active booking performs Settle's writes and keeps the table free of double bookings |
| PaymentService.Settle | internal/services/payment_service.go:55-92 | the payment row is appended; then payment_status is set to "paid", then status to "confirmed", with no rollback when a later write fails |
| PaymentService.ProcessPayment | internal/services/payment_service.go:26-93 | a failed guard writes nothing; a failed payment insert writes nothing further; otherwise a successful payment of the requested amount and method with the TXN id is stored under the next id, and the result is the payment response, or the storage error of the first booking write that fails |
| PaymentService.ProcessPaymentReopensCancelled | internal/services/payment_service.go:26-80 | a concrete table with no double booking in which paying a cancelled booking passes every guard and creates a double booking |
| PaymentService.PayableChecks | internal/services/payment_service.go:28-53 | the guards plus a status guard: success exactly when the original guards pass and the booking is not cancelled |
| PaymentService.CheckPayable | internal/services/payment_service.go:28-53 | the guards as run reach PayableChecks |
| PaymentService.ProcessPaymentGuarded | internal/services/payment_service.go:26-93 | the corrected workflow: the same writes and the same exact result, and a table without double bookings stays without them |
| PaymentService.GetPaymentMethods | internal/services/payment_service.go:96-102 | the active methods by name |
| PaymentService.GetPaymentByID | internal/services/payment_service.go:105-111 | the payment with the id, or none and no error |
| Rows.Filter | internal/repositories/booking_repository.go:64 | a WHERE clause never yields more rows than the table |
| Rows.FilterMembers | internal/repositories/booking_repository.go:73 | a row is selected exactly when it is in the table and matches |
| Rows.FilterCount | internal/repositories/seat_repository.go:25 | every matching row is kept as often as the table holds it, and no other row |
| Rows.FilterPartition | internal/services/seat_service.go:39-45 | splitting on a condition and its negation puts every row in exactly one half |
| Rows.First | internal/repositories/user_repository.go:46-61 | QueryRow returns a matching row, or none exactly when no row matches |
| Rows.KeyedAppend | internal/repositories/booking_repository.go:24-28 | inserting with the counter's next id keeps ids increasing |
| Rows.StampedAppend | internal/repositories/booking_repository.go:24-28 | inserting with the current time keeps timestamps ordered |
| Rows.FilterKeyed | internal/repositories/email_verification_repository.go:80 | a DELETE keeps ids increasing |
| Rows.FilterStamped | internal/repositories/email_verification_repository.go:80 | a DELETE keeps timestamps ordered |
| Rows.KeyedUnique | internal/repositories/booking_repository.go:41 | with increasing ids, a lookup by id matches one row at most |
| Rows.NewestFirst | internal/repositories/booking_repository.go:73 | newest first holds as many rows as the filter |
| Rows.NewestFirstMembers | internal/repositories/booking_repository.go:73 | newest first holds exactly the matching rows |
| Rows.NewestFirstDescending | internal/repositories/payment_repository.go:130 | when rows are inserted in timestamp order, newest first is descending by timestamp |
| Rows.Window | internal/repositories/booking_repository.go:73-75 | LIMIT/OFFSET gives the rows from the offset on, at most limit of them, in order |
| Rows.InsertBy | internal/repositories/seat_repository.go:25 | insertion into a sorted run adds exactly the new row |
| Rows.SortBy | internal/repositories/seat_repository.go:25 | ORDER BY yields a permutation of the rows |
| Rows.SortBySorted | internal/repositories/seat_repository.go:25 | ORDER BY yields the rows sorted by the key |
| SeatRepository.FindSeat | internal/repositories/seat_repository.go:47-63 | a seat is found only with that id; none exactly when no row has the id |
| SeatRepository.CinemaSeats | internal/repositories/seat_repository.go:23-44 | exactly the cinema's seats, each as often as the table holds it, ordered by row then seat number |
| SeatRepository.JoinSeats | internal/repositories/seat_repository.go:84 | each availability row paired with the seat it references, as often as the table holds the row; rows whose seat is missing drop out, and the length is the number of rows with a seat |
| SeatRepository.ShowingRows | internal/repositories/seat_repository.go:80-110 | exactly the rows of that cinema, date and time whose seat exists, each as often as the table holds it, joined to their seats and ordered by row then seat number; the length is their number |
| Rows.FilterFilter | internal/repositories/seat_repository.go:80-110 | two conditions applied in turn select what their conjunction selects |
| SeatRepository.Seed | internal/repositories/seat_repository.go:113-131 | after seeding, every seat has a row for the showing; existing rows stay; new rows are available, of that cinema and showing, with fresh ids; the sequence advances once per seat, skipped or not |
| SeatRepository.SeedValid | internal/repositories/seat_repository.go:121-122 | seeding keeps ids increasing and one row per seat and showing |
| SeatRepository.SeedCovered | internal/repositories/seat_repository.go:121-122 | when every seat already has its row, seeding inserts nothing and only the sequence advances, once per seat |
| SeatRepository.SeedIdempotent | internal/repositories/seat_repository.go:113-131 | seeding the same showing twice leaves the table as seeding it once; the sequence advances by one value per seat |
| SeatRepository.SetAvailable | internal/repositories/seat_repository.go:139-149 | every row of that seat, date and time takes the flag, in any cinema; nothing else changes |
| SeatRepository.SetAvailableValid | internal/repositories/seat_repository.go:139-149 | the update keeps ids increasing and one row per seat and showing |
| SeatRepository.GetSeatsByCinema | internal/repositories/seat_repository.go:23-44 | the cinema's seats in row and seat order |
| SeatRepository.GetSeatByID | internal/repositories/seat_repository.go:47-63 | the seat with the id, or none and no error |
| SeatRepository.CreateSeat | internal/repositories/seat_repository.go:66-77 | one row is appended with a fresh id; a failed insert changes nothing |
| SeatRepository.GetSeatAvailability | internal/repositories/seat_repository.go:80-110 | the showing's rows joined to their seats |
| SeatRepository.CreateSeatAvailability | internal/repositories/seat_repository.go:113-131 | a failed seat lookup writes nothing; otherwise the table becomes Seed of the old one over the cinema's seats up to the first failing insert, and a failing insert is reported as an error |
| SeatRepository.InsertAll | internal/repositories/seat_repository.go:120-128 | the per-seat loop seeds the seats before the first failing insert and reports that failure; with none, it seeds them all |
| SeatRepository.InsertKeepsValid | internal/repositories/seat_repository.go:121-122 | an insert that finds no row for its seat and showing keeps ids increasing and one row per seat and showing |
| SeatRepository.InsertIfAbsent | internal/repositories/seat_repository.go:120-128 | one loop step extends the seeding by one seat; the sequence advances whether or not the row is inserted |
| SeatRepository.UpdateSeatAvailability | internal/repositories/seat_repository.go:139-149 | the table becomes SetAvailable of the old one; no matching row is a successful no-op |
| SeatService.GetSeatAvailability | internal/services/seat_service.go:22-58 | an unparseable date or listing failure is an error; otherwise the available list holds exactly the free rows and the other list the taken rows, both in listing order; each count is its list's length, and the two sum to the number of rows; the inputs are echoed |
| SeatService.Partition | internal/services/seat_service.go:39-45 | the loop puts the free rows in one list and the taken rows in the other, keeping their order |
| SeatService.GetSeatByID | internal/services/seat_service.go:61-67 | the seat with the id, or none and no error |
| Seeder.SeatClass | cmd/seeder/main.go:130-143 | rows 1-2 are standard at 50000, rows 3-4 premium at 70000, row 5 VIP at 100000 |
| Seeder.SeatPricesRise | cmd/seeder/main.go:130-143 | a seat further back never costs less |
| Seeder.SeatLetter | cmd/seeder/main.go:145 | seats 1-26 get a capital letter; seats 27-30 do not |
| Seeder.SeatLabelInjective | cmd/seeder/main.go:145-148 | two places with the same seat number are the same row and place |
| Seeder.RowPlan | cmd/seeder/main.go:129-160 | a row plans at most as many seats as places |
| Seeder.RowPlanMembers | cmd/seeder/main.go:129-152 | a row's planned seats are exactly those of its places whose insert succeeds |
| Seeder.GridPlanMembers | cmd/seeder/main.go:128-152 | the grid is exactly the seats of rows 1..5, places 1..30, whose insert succeeds, with their type, price and number |
| Seeder.GridPlanFull | cmd/seeder/main.go:128-129 | with no failure a cinema gets 5 × 30 seats |
| Seeder.Numbered | internal/repositories/seat_repository.go:66-77 | numbering by the database keeps the number of rows |
| Seeder.NumberedIds | internal/repositories/seat_repository.go:66-77 | the i-th row inserted gets the counter's value plus i |
| Seeder.SeedPlace | cmd/seeder/main.go:130-159 | placing one more seat of a row extends the stored seats by that seat with the next id when its insert succeeds, and by nothing when it fails |
| Seeder.SeedRow | cmd/seeder/main.go:129-160 | one row: the seats whose insert succeeds are appended in order with consecutive ids, and the counter counts them |
| Seeder.SeedGridRow | cmd/seeder/main.go:128-161 | one more row extends the stored grid |
| Seeder.SeedSeats | cmd/seeder/main.go:127-162 | the grid's seats are appended in order with consecutive ids, and the counter equals their number |
| Seeder.SeededFromListing | internal/repositories/seat_repository.go:113-131 | the seats the seeding lists are all of the cinema's seats, so each has a row |
| Seeder.SeedDatesDistinct | cmd/seeder/main.go:165-166 | the ten seeding days are ten different dates |
| Seeder.SeedShowing | cmd/seeder/main.go:169-172 | a showing whose seat listing and inserts all succeed gives every seat of the cinema a row; a failure keeps the rows inserted before it; new rows are free rows of that cinema |
| Seeder.SeedDay | cmd/seeder/main.go:167-173 | every show time of the day with no failing statement is seeded for all the cinema's seats |
| Seeder.SeedShowings | cmd/seeder/main.go:165-174 | every (day, time) with no failing statement, over ten days and five times, is seeded for all the cinema's seats |
| Seeder.SeedNextDay | cmd/seeder/main.go:165-174 | one step of the day loop: the days before and the new day are seeded, and every new row is a free row of the cinema |
| Seeder.DaysKept | cmd/seeder/main.go:165-174 | showings seeded on earlier days stay seeded when a later day adds rows |
| Seeder.KeptCinemas | cmd/seeder/main.go:112-121 | at most as many cinemas are kept as the catalogue lists |
| Seeder.KeptCinemasMembers | cmd/seeder/main.go:113-121 | a cinema is kept exactly when its insert succeeds |
| Seeder.CreatedIdFresh | cmd/seeder/main.go:113-120 | the created cinemas have distinct ids: the k-th differs from every one before it |
| Seeder.SeedOneCinema | cmd/seeder/main.go:114-120 | one insert extends the created list when it succeeds and leaves it alone when it fails |
| Seeder.SeedCinemas | cmd/seeder/main.go:112-121 | the created cinemas are the kept ones with consecutive ids, appended to the table |
| Seeder.SeedCinema | cmd/seeder/main.go:125-175 | a cinema's grid is stored and counted, and every showing with no failing statement is seeded |
| Seeder.GridSeatsOfCinema | cmd/seeder/main.go:146-148 | the seats stored for a cinema's grid belong to that cinema |
| Seeder.SeededKept | cmd/seeder/main.go:125-176 | a seeded showing stays seeded while later cinemas add their seats |
| Seeder.SeedNext | cmd/seeder/main.go:124-176 | one step of the per-cinema loop: seeding the next created cinema keeps the seats stored so far and extends the seeded showings to one more cinema |
| Seeder.SeedCreated | cmd/seeder/main.go:125-176 | seeding one more cinema keeps the showings of the cinemas before it |
| Seeder.CreatedIdsDistinct | cmd/seeder/main.go:114-119 | created cinemas get distinct ids |
| Seeder.SeedDatabase | cmd/seeder/main.go:67-176 | the created cinemas are appended with consecutive ids; every created cinema ends with a row for each of its seats in each showing with no failing statement; existing rows stay |
| Text.NatToDecimal | cmd/seeder/main.go:148 | %d of a natural number is a non-empty run of digits |
| Text.NatToDecimalValue | cmd/seeder/main.go:148 | the rendered digits read back as the number |
| Text.IntToDecimal | internal/services/user_service.go:191 | %d of an int is non-empty |
| Text.PaddedDecimal | internal/repositories/booking_repository.go:121 | a zero-padded field has exactly its width, all digits |
| Text.ScanInt | internal/services/user_service.go:179-183 | Sscanf %d into an int yields a value within 64 bits |
| Text.Wrap64 | internal/repositories/booking_repository.go:60 | Go's int arithmetic: the result lies in the 64-bit range, is congruent to the exact value modulo 2^64, and is the exact value when that fits |
| Text.ScanIntOfDecimal | internal/services/user_service.go:180-191 | the subject written with %d reads back with %d as the same id |
| Text.Split | internal/middleware/auth.go:24 | splitting on a character gives one more piece than separators, none holding the separator |
| Text.JoinSplit | internal/middleware/auth.go:24 | joining the pieces back gives the header |
| UserRepository.FindUserByName | internal/repositories/user_repository.go:46-61 | a user is found only with the username; none exactly when no row has it |
| UserRepository.FindUserByEmail | internal/repositories/user_repository.go:64-79 | a user is found only with the address; none exactly when no row has it |
| UserRepository.FindUser | internal/repositories/user_repository.go:82-97 | a user is found only with the id; none exactly when no row has it |
| UserRepository.FindSession | internal/repositories/user_repository.go:114-129 | a session is found only with the token; none exactly when no row has it |
| UserRepository.WithoutToken | internal/repositories/user_repository.go:132-139 | every session with the token is removed; every other session stays |
| UserRepository.CreateUser | internal/repositories/user_repository.go:32-43 | one unverified user is appended with a fresh id; a failed insert changes nothing |
| UserRepository.GetUserByUsername | internal/repositories/user_repository.go:46-61 | the user with the username, or none and no error |
| UserRepository.GetUserByEmail | internal/repositories/user_repository.go:64-79 | the user with the address, or none and no error |
| UserRepository.GetUserByID | internal/repositories/user_repository.go:82-97 | the user with the id, or none and no error |
| UserRepository.CreateSession | internal/repositories/user_repository.go:100-111 | one session (user, token, expiry) is appended with a fresh id; a failed insert changes nothing |
| UserRepository.GetSessionByToken | internal/repositories/user_repository.go:114-129 | the session with the token, or none and no error |
| UserRepository.DeleteSession | internal/repositories/user_repository.go:132-139 | the table becomes WithoutToken of the old one |
| UserService.RegistrationVerdict | internal/services/user_service.go:48-64 | the username is checked before the address; each failure has its own error; acceptance exactly when both are free |
| UserService.RegistrationKeepsUnique | internal/services/user_service.go:48-81 | an account that passed the checks keeps usernames and addresses unique |
| UserService.CheckRegistration | internal/services/user_service.go:48-64 | the checks as run reach RegistrationVerdict |
| UserService.RegisterUser | internal/services/user_service.go:47-94 | a failed check, hash or insert creates no account and no code, with its own error; otherwise an unverified account with the hash is appended under the next id and returned without its password, whatever happens to the code's e-mail; the code record is stored under the next id exactly when its digits and its insert succeed; accounts stay unique |
| UserService.LoginVerdict | internal/services/user_service.go:99-111 | an unknown username and a wrong password give the same error; success on the account with that username |
| UserService.CheckLogin | internal/services/user_service.go:99-111 | the checks as run reach LoginVerdict |
| UserService.LoginUser | internal/services/user_service.go:97-136 | on success a session for the account's token, expiring 24 hours later, is stored and the token returned; every failure stores nothing |
| UserService.LogoutUser | internal/services/user_service.go:139-145 | the sessions with the token are deleted |
| UserService.TokenVerdict | internal/services/user_service.go:150-183 | the checks in order: lookup failure, no session, session expired, token not valid, subject not an integer; each exactly under its condition; success with the subject's id |
| UserService.VerifyToken | internal/services/user_service.go:148-186 | the checks as run reach TokenVerdict and write nothing |
| UserService.LoginThenVerify | internal/services/user_service.go:114-186 | a stored session's token verifies to its user until it expires, and as expired afterwards |
| UserService.LogoutRevokes | internal/services/user_service.go:139-161 | after logout the token is refused as an invalid session |
| UserService.GetUserByID | internal/services/user_service.go:206-215 | the account with its password emptied, or none and no error |
| Auth.BearerToken | internal/middleware/auth.go:17-30 | an empty header, and only that, is refused as missing; an accepted token holds no space |
| Auth.BearerTokenExact | internal/middleware/auth.go:24-30 | a header is accepted with token t exactly when it is "Bearer", one space and t, and t holds no space |
| Auth.WithIdentity | internal/middleware/auth.go:39-41 | the context gains the user id and token keys; other keys are unchanged |
| Auth.Authenticate | internal/middleware/auth.go:13-45 | a bad header is refused with its own message; a token that fails verification is refused; otherwise the next handler gets the context with the verified user id and token |
| Auth.UserIdOf | internal/middleware/auth.go:48-54 | a user id is found exactly when an int is stored under its key |
| Auth.TokenOf | internal/middleware/auth.go:57-63 | a token is found exactly when a string is stored under its key |
| Auth.IdentityReadBack | internal/middleware/auth.go:39-63 | handlers read back exactly the identity the check stored |

## Left out

- HTTP handlers, routing, configuration, process start-up and the seeder's connection and logging code are not modelled.
- The notification service is left out. So are the goroutines that send e-mails and notifications (`sendEmailViaAPI`), since their point is concurrency and an HTTP call. The user name that `SendOTP` receives only goes into that e-mail's text, so it has no effect in the model.
- The `emailService != nil` check in `RegisterUser` is left out: the model always has the e-mail service. A failure inside `SendOTP` leaves the account in place, as in the source.
- bcrypt, JWT, `crypto/rand`, `time.Now`, PostgreSQL's `ILIKE` and the failure of a statement are parameters (see above). Their internals are not modelled.
- Concurrency and transactions are not modelled. The check-then-insert race in `CreateBooking` is out of scope, since every operation runs alone.
- Prices and amounts are whole numbers. The source's `float64` values are only copied and compared for equality.
- The `updated_at` columns are not modelled, and neither is the failure of a single row scan within a listing. A listing either fails as a whole or returns every row.
- The `created_at` columns of users, cinemas, seats and bookings are not modelled either. A booking's `booking_date` and `created_at` are both set by the database at insert (`RETURNING id, booking_date, created_at`, internal/repositories/booking_repository.go:25), and the model's one clock gives them the same value. So `BookingService.BookingResponseOf` fills the response's `created_at` (internal/services/booking_service.go:100) with the booking date.
- A negative `LIMIT` or `OFFSET` is modelled as a failure of the statement, which is how PostgreSQL answers one. The services clamp the limit to 1..100 and the page to at least 1. The offset `(page - 1) * limit` is computed with Go's 64-bit wrap-around (`Pagination.Offset`), so a page large enough wraps it: back to the first rows, or below zero, which fails the listing. The handlers pass on any positive page that `strconv.Atoi` accepts, up to MaxInt64. The model takes the page as an unbounded integer, since the handlers are not part of it.
- Rows with equal `ORDER BY` keys come back in an order SQL leaves open. The model fixes one, and the contracts that name an exact result (`CinemaRepository.GetAllCinemas`, `PaymentRepository.ActiveMethods`, the listings of bookings and payments and the services over them) promise it, which PostgreSQL does not:
  - `Rows.SortBy` puts rows with equal keys in reverse table order.
  - `Rows.NewestFirst` and `EmailVerificationRepository.Latest` put rows with equal timestamps newest-inserted first.
  - `PaymentRepository.PaymentForBooking` and the other single-row lookups take the first matching row in table order.
- Text columns are ordered code point by code point (`Text.StrLE`), which is PostgreSQL's "C" collation. A database with a locale collation orders names differently.
- The clock is a single whole number of seconds, `Database.now`, shared by the application's `time.Now()` and the database's `NOW()`/`CURRENT_TIMESTAMP`. Sub-second precision and any skew between the two clocks are not modelled, so rows written in the same second get equal timestamps.
- `SERIAL` ids are modelled as gap-free, in the following ways:
  - A failed insert does not consume a sequence value (the `Create*` contracts leave the counter unchanged on failure). PostgreSQL's `nextval` is not rolled back, so a real failed insert leaves a gap.
  - The seeder's ids are therefore consecutive (`Seeder.SeedDatabase` and the seeding lemmas). In PostgreSQL they are only increasing.
  - One exception is the availability inserts. There every `INSERT … ON CONFLICT DO NOTHING` draws a value, also when the conflict skips its row (`SeatRepository.Seed`). The value drawn by the insert that fails is still not modelled.
- The `seat_availability` uniqueness that `ON CONFLICT DO NOTHING` relies on is taken to be one row per seat, show date and show time. The schema is not part of this model.
- `GetSeatsBycinema` (internal/repositories/seat_repository.go:134-136) only calls `GetSeatsByCinema`, so `SeatRepository.GetSeatsByCinema` stands for both.
- PaymentService.TransactionIdInjective: stated for non-negative ids only. Ids come from `SERIAL` columns, and a negative id's minus sign would clash with the separator.
- EmailService.GenerateOTP: states that the code is six digits and when generation fails. It does not state that the digits are uniformly random.
- Seeder.SeedDatabase: states the final seats table only as an extension of the old one, plus the seeded-showings property. The exact seats stored for each cinema are stated by Seeder.SeedCinema.
- The seeder's `time.Now().AddDate(0, 0, i)` is the calendar date `i` days after `today`. The time of day is not modelled.

## Findings

| source | as written | input that shows it | evidently intended | confidence | as-written member | corrected member |
|---|---|---|---|---|---|---|
| internal/services/payment_service.go:26-80 | `ProcessPayment` never looks at the booking's status. It sets a cancelled booking to "paid" and "confirmed". | The payer's cancelled booking 1 and another user's pending booking 2 for the same seat 5 on 2026-01-01 at 19:00, paid in full with an active method. Every guard passes, and afterwards two active bookings hold the seat. | A cancelled booking cannot be paid, so payment keeps at most one active booking per seat and showing. | not executed; follows from the guards at lines 28-53 and the writes at lines 71-80 | PaymentService.ProcessPaymentReopensCancelled | PaymentService.ProcessPaymentGuarded |
