/** The `seats` and `seat_availability` tables and the statements the seat
    repository issues against them. `up` says whether the database accepts
    the call's statements; when it does not, the call reports
    `Storage(call)` and changes nothing. */
module SeatRepository {
  import opened Wrappers
  import opened Dates
  import opened Models
  import opened Rows
  import opened Store

  /** `ORDER BY row_number, seat_number`. */
  function SeatKey(s: Seat): SortKey { SortKey(s.rowNumber, s.seatNumber) }

  function RowKey(a: AvailabilityRow): SortKey { SeatKey(a.seat) }

  /** `SELECT … FROM seats WHERE id = $1`. */
  function FindSeat(ss: seq<Seat>, id: int): (r: Option<Seat>)
    ensures r.Some? ==> r.value in ss && r.value.id == id
    ensures r.None? <==> forall i :: 0 <= i < |ss| ==> ss[i].id != id
  {
    First(ss, (s: Seat) => s.id == id)
  }

  /** `SELECT … FROM seats WHERE cinema_id = $1 ORDER BY row_number, seat_number`:
      every seat of the cinema as often as the table holds it, no other seat,
      in seat order. */
  function CinemaSeats(ss: seq<Seat>, cinemaId: int): (r: seq<Seat>)
    ensures SortedBy(r, SeatKey)
    ensures forall s :: multiset(r)[s] == if s.cinemaId == cinemaId then multiset(ss)[s] else 0
  {
    var rows := Filter(ss, (s: Seat) => s.cinemaId == cinemaId);
    FilterCount(ss, (s: Seat) => s.cinemaId == cinemaId);
    SortBySorted(rows, SeatKey);
    SortBy(rows, SeatKey)
  }

  // ---------------------------------------------------------------------
  // Availability listing: rows of one showing joined to their seats

  predicate ForShowing(a: SeatAvailability, cinemaId: int, date: Date, time: string)
  {
    a.cinemaId == cinemaId && a.showDate == date && a.showTime == time
  }

  /** `JOIN seats s ON sa.seat_id = s.id`: each availability row with its
      seat; a row whose seat is missing drops out. Seat ids are unique, so a
      row joins at most one seat, the one `FindSeat` finds. */
  function JoinSeats(av: seq<SeatAvailability>, ss: seq<Seat>): (r: seq<AvailabilityRow>)
    ensures forall x :: x in r ==>
      x.availability in av && x.seat in ss && x.seat.id == x.availability.seatId
    ensures forall a :: a in av && FindSeat(ss, a.seatId).Some? ==>
      AvailabilityRow(a, FindSeat(ss, a.seatId).value) in r
    ensures forall x :: multiset(r)[x] ==
                        if FindSeat(ss, x.availability.seatId) == Some(x.seat)
                        then multiset(av)[x.availability] else 0
    ensures |r| == |Filter(av, (a: SeatAvailability) => FindSeat(ss, a.seatId).Some?)|
  {
    if av == [] then [] else
      var init, last := av[..|av| - 1], av[|av| - 1];
      assert av == init + [last];
      assert multiset(av) == multiset(init) + multiset{last};
      var rest := JoinSeats(init, ss);
      match FindSeat(ss, last.seatId)
      case Some(s) => rest + [AvailabilityRow(last, s)]
      case None => rest
  }

  /** The listing query of `GetSeatAvailability`: the rows of one showing of
      one cinema, each with its seat, in seat order. Every such row whose
      seat exists appears exactly as often as the table holds it, so the
      listing has one entry per joinable row of the showing. */
  function ShowingRows(av: seq<SeatAvailability>, ss: seq<Seat>, cinemaId: int, date: Date, time: string)
    : (r: seq<AvailabilityRow>)
    ensures SortedBy(r, RowKey)
    ensures forall x :: x in r ==>
      x.availability in av && ForShowing(x.availability, cinemaId, date, time)
      && x.seat in ss && x.seat.id == x.availability.seatId
    ensures forall a :: a in av && ForShowing(a, cinemaId, date, time) && FindSeat(ss, a.seatId).Some? ==>
      AvailabilityRow(a, FindSeat(ss, a.seatId).value) in r
    ensures forall x :: multiset(r)[x] ==
                        if ForShowing(x.availability, cinemaId, date, time)
                           && FindSeat(ss, x.availability.seatId) == Some(x.seat)
                        then multiset(av)[x.availability] else 0
    ensures |r| == |Filter(av, (a: SeatAvailability) => ForShowing(a, cinemaId, date, time) && FindSeat(ss, a.seatId).Some?)|
  {
    var showing := Filter(av, (a: SeatAvailability) => ForShowing(a, cinemaId, date, time));
    FilterMembers(av, (a: SeatAvailability) => ForShowing(a, cinemaId, date, time));
    FilterCount(av, (a: SeatAvailability) => ForShowing(a, cinemaId, date, time));
    FilterFilter(av, (a: SeatAvailability) => ForShowing(a, cinemaId, date, time),
                 (a: SeatAvailability) => FindSeat(ss, a.seatId).Some?,
                 (a: SeatAvailability) => ForShowing(a, cinemaId, date, time) && FindSeat(ss, a.seatId).Some?);
    var joined := JoinSeats(showing, ss);
    SortBySorted(joined, RowKey);
    var r := SortBy(joined, RowKey);
    assert forall x :: x in r <==> x in joined by {
      forall x ensures x in r <==> x in joined {
        assert x in r <==> multiset(r)[x] > 0;
        assert x in joined <==> multiset(joined)[x] > 0;
      }
    }
    r
  }

  // ---------------------------------------------------------------------
  // Seeding availability: INSERT … ON CONFLICT DO NOTHING, seat by seat

  /** Some row already holds this seat for this showing. */
  predicate HasShowing(av: seq<SeatAvailability>, seatId: int, date: Date, time: string)
  {
    exists i :: 0 <= i < |av| && av[i].seatId == seatId && av[i].showDate == date && av[i].showTime == time
  }

  /** One `INSERT … VALUES (cinema, seat, date, time, true) ON CONFLICT DO NOTHING`
      per seat, in order, starting from `av` with `next` as the next id. Every
      statement draws an id from the sequence, also when the conflict skips
      its row, since the id default is evaluated before the conflict check. */
  function Seed(av: seq<SeatAvailability>, next: int, cinemaId: int, seats: seq<Seat>, date: Date, time: string)
    : (r: (seq<SeatAvailability>, int))
    ensures av <= r.0 && r.1 == next + |seats|
    ensures forall k :: 0 <= k < |seats| ==> HasShowing(r.0, seats[k].id, date, time)
    ensures forall i :: |av| <= i < |r.0| ==>
      r.0[i].isAvailable && r.0[i].cinemaId == cinemaId && r.0[i].showDate == date && r.0[i].showTime == time
      && next <= r.0[i].id < r.1
  {
    if seats == [] then (av, next) else
      var prev := Seed(av, next, cinemaId, seats[..|seats| - 1], date, time);
      var s := seats[|seats| - 1];
      if HasShowing(prev.0, s.id, date, time) then (prev.0, prev.1 + 1)
      else
        var row := SeatAvailability(prev.1, cinemaId, s.id, date, time, true);
        var rows := prev.0 + [row];
        assert forall i :: 0 <= i < |prev.0| ==> rows[i] == prev.0[i];
        assert forall k :: 0 <= k < |seats| - 1 ==> HasShowing(rows, seats[k].id, date, time);
        assert HasShowing(rows, s.id, date, time) by { assert rows[|prev.0|] == row; }
        (rows, prev.1 + 1)
  }

  /** One insert that found no row for its seat and showing keeps the ids
      increasing and one row per seat and showing. */
  lemma InsertKeepsValid(av: seq<SeatAvailability>, next: int, row: SeatAvailability)
    requires Keyed(av, AvailabilityId, next) && OneRowPerShowing(av)
    requires row.id == next && !HasShowing(av, row.seatId, row.showDate, row.showTime)
    ensures Keyed(av + [row], AvailabilityId, next + 1) && OneRowPerShowing(av + [row])
  {
    KeyedAppend(av, AvailabilityId, next, row);
    var rows := av + [row];
    forall i, j | 0 <= i < j < |rows|
      ensures !(rows[i].seatId == rows[j].seatId && rows[i].showDate == rows[j].showDate
                && rows[i].showTime == rows[j].showTime)
    {
      if j == |av| {
        assert rows[i] == av[i];
      }
    }
  }

  /** Seeding never breaks the table's id or uniqueness constraints. */
  lemma {:induction false} SeedValid(av: seq<SeatAvailability>, next: int, cinemaId: int, seats: seq<Seat>, date: Date, time: string)
    requires Keyed(av, AvailabilityId, next) && OneRowPerShowing(av)
    ensures var r := Seed(av, next, cinemaId, seats, date, time);
      Keyed(r.0, AvailabilityId, r.1) && OneRowPerShowing(r.0)
  {
    if seats != [] {
      var prev := Seed(av, next, cinemaId, seats[..|seats| - 1], date, time);
      SeedValid(av, next, cinemaId, seats[..|seats| - 1], date, time);
      var s := seats[|seats| - 1];
      if !HasShowing(prev.0, s.id, date, time) {
        InsertKeepsValid(prev.0, prev.1, SeatAvailability(prev.1, cinemaId, s.id, date, time, true));
      }
    }
  }

  /** When every seat already has its row, seeding inserts nothing; the
      sequence still advances once per statement. */
  lemma {:induction false} SeedCovered(av: seq<SeatAvailability>, next: int, cinemaId: int, seats: seq<Seat>, date: Date, time: string)
    requires forall k :: 0 <= k < |seats| ==> HasShowing(av, seats[k].id, date, time)
    ensures Seed(av, next, cinemaId, seats, date, time) == (av, next + |seats|)
  {
    if seats != [] {
      SeedCovered(av, next, cinemaId, seats[..|seats| - 1], date, time);
    }
  }

  /** Seeding the same showing twice leaves the table as seeding it once;
      only the sequence moves on, by one value per seat. */
  lemma {:induction false} SeedIdempotent(av: seq<SeatAvailability>, next: int, cinemaId: int, seats: seq<Seat>, date: Date, time: string)
    ensures var once := Seed(av, next, cinemaId, seats, date, time);
      Seed(once.0, once.1, cinemaId, seats, date, time) == (once.0, once.1 + |seats|)
  {
    var once := Seed(av, next, cinemaId, seats, date, time);
    SeedCovered(once.0, once.1, cinemaId, seats, date, time);
  }

  // ---------------------------------------------------------------------
  // UPDATE seat_availability SET is_available = $1 WHERE seat_id = $2 AND show_date = $3 AND show_time = $4

  /** The flag of every row of that seat and showing is set, in any cinema;
      nothing else about any row changes. */
  function SetAvailable(av: seq<SeatAvailability>, seatId: int, date: Date, time: string, flag: bool)
    : (r: seq<SeatAvailability>)
    ensures |r| == |av|
    ensures forall i :: 0 <= i < |av| ==> r[i].(isAvailable := av[i].isAvailable) == av[i]
    ensures forall i :: 0 <= i < |av| ==>
      r[i].isAvailable == (if av[i].seatId == seatId && av[i].showDate == date && av[i].showTime == time
                           then flag else av[i].isAvailable)
  {
    if av == [] then [] else
      var a := av[|av| - 1];
      var rest := SetAvailable(av[..|av| - 1], seatId, date, time, flag);
      rest + [if a.seatId == seatId && a.showDate == date && a.showTime == time
              then a.(isAvailable := flag) else a]
  }

  lemma SetAvailableValid(av: seq<SeatAvailability>, next: int, seatId: int, date: Date, time: string, flag: bool)
    requires Keyed(av, AvailabilityId, next) && OneRowPerShowing(av)
    ensures var r := SetAvailable(av, seatId, date, time, flag);
      Keyed(r, AvailabilityId, next) && OneRowPerShowing(r)
  {
    var r := SetAvailable(av, seatId, date, time, flag);
    assert forall i :: 0 <= i < |av| ==>
      r[i].id == av[i].id && r[i].seatId == av[i].seatId && r[i].showDate == av[i].showDate
      && r[i].showTime == av[i].showTime by {
      forall i | 0 <= i < |av| ensures r[i].id == av[i].id && r[i].seatId == av[i].seatId
        && r[i].showDate == av[i].showDate && r[i].showTime == av[i].showTime
      {
        assert r[i].(isAvailable := av[i].isAvailable) == av[i];
      }
    }
  }

  // ---------------------------------------------------------------------
  // The repository's methods

  method GetSeatsByCinema(db: Database, cinemaId: int, up: bool) returns (r: Result<seq<Seat>, Error>)
    ensures up ==> r == Ok(CinemaSeats(db.seats, cinemaId))
    ensures !up ==> r == Err(Storage(SeatLookup))
  {
    if !up { return Err(Storage(SeatLookup)); }
    return Ok(CinemaSeats(db.seats, cinemaId));
  }

  /** A missing seat is no error: `Ok(None)`. */
  method GetSeatByID(db: Database, id: int, up: bool) returns (r: Result<Option<Seat>, Error>)
    ensures up ==> r == Ok(FindSeat(db.seats, id))
    ensures !up ==> r == Err(Storage(SeatLookup))
  {
    if !up { return Err(Storage(SeatLookup)); }
    return Ok(FindSeat(db.seats, id));
  }

  /** `INSERT INTO seats … RETURNING id`: the seat as stored, with a fresh id. */
  method CreateSeat(db: Database, seat: Seat, up: bool) returns (r: Result<Seat, Error>)
    requires db.SeatsValid()
    modifies db`seats, db`nextSeatId
    ensures db.SeatsValid()
    ensures up ==> (r == Ok(seat.(id := old(db.nextSeatId)))
      && db.seats == old(db.seats) + [r.value] && db.nextSeatId == old(db.nextSeatId) + 1)
    ensures !up ==> (r == Err(Storage(SeatInsert)) && db.seats == old(db.seats)
      && db.nextSeatId == old(db.nextSeatId))
  {
    if !up { return Err(Storage(SeatInsert)); }
    var row := seat.(id := db.nextSeatId);
    KeyedAppend(db.seats, SeatId, db.nextSeatId, row);
    db.seats := db.seats + [row];
    db.nextSeatId := db.nextSeatId + 1;
    return Ok(row);
  }

  method GetSeatAvailability(db: Database, cinemaId: int, date: Date, time: string, up: bool)
    returns (r: Result<seq<AvailabilityRow>, Error>)
    ensures up ==> r == Ok(ShowingRows(db.availability, db.seats, cinemaId, date, time))
    ensures !up ==> r == Err(Storage(AvailabilityListing))
  {
    if !up { return Err(Storage(AvailabilityListing)); }
    return Ok(ShowingRows(db.availability, db.seats, cinemaId, date, time));
  }

  /** One available row per seat of the cinema for that showing; a seat that
      already has a row for it keeps that row untouched. `up` says whether
      the seat listing succeeds and `failsAt` is the position, among the
      listed seats, of the insert that fails (`None`: none fails). A failed
      insert ends the call with an error; the rows inserted before it stay. */
  method CreateSeatAvailability(db: Database, cinemaId: int, date: Date, time: string, up: bool, failsAt: Option<nat>)
    returns (err: Option<Error>)
    requires db.AvailabilityValid()
    modifies db`availability, db`nextAvailabilityId
    ensures db.AvailabilityValid()
    ensures up ==> (var seats := CinemaSeats(db.seats, cinemaId);
      var stop := if failsAt.Some? && failsAt.value < |seats| then failsAt.value else |seats|;
      (db.availability, db.nextAvailabilityId)
        == Seed(old(db.availability), old(db.nextAvailabilityId), cinemaId, seats[..stop], date, time)
      && err == if stop < |seats| then Some(Storage(AvailabilityInsert)) else None)
    ensures !up ==> (err == Some(Storage(SeatLookup))
      && db.availability == old(db.availability) && db.nextAvailabilityId == old(db.nextAvailabilityId))
  {
    var listed := GetSeatsByCinema(db, cinemaId, up);
    if listed.Err? { return Some(listed.error); }
    err := InsertAll(db, cinemaId, listed.value, date, time, failsAt);
  }

  /** The loop over the listed seats: one insert each, in order, until the
      one at `failsAt` fails. */
  method InsertAll(db: Database, cinemaId: int, seats: seq<Seat>, date: Date, time: string, failsAt: Option<nat>)
    returns (err: Option<Error>)
    requires db.AvailabilityValid()
    modifies db`availability, db`nextAvailabilityId
    ensures db.AvailabilityValid()
    ensures var stop := if failsAt.Some? && failsAt.value < |seats| then failsAt.value else |seats|;
      (db.availability, db.nextAvailabilityId)
        == Seed(old(db.availability), old(db.nextAvailabilityId), cinemaId, seats[..stop], date, time)
      && err == if stop < |seats| then Some(Storage(AvailabilityInsert)) else None
  {
    ghost var av0, next0 := db.availability, db.nextAvailabilityId;
    var i := 0;
    while i < |seats| && failsAt != Some(i)
      invariant 0 <= i <= |seats|
      invariant failsAt.Some? ==> failsAt.value >= i
      invariant db.availability == Seed(av0, next0, cinemaId, seats[..i], date, time).0
      invariant db.nextAvailabilityId == Seed(av0, next0, cinemaId, seats[..i], date, time).1
    {
      InsertIfAbsent(db, av0, next0, cinemaId, seats, i, date, time);
      i := i + 1;
    }
    SeedValid(av0, next0, cinemaId, seats[..i], date, time);
    if i < |seats| { return Some(Storage(AvailabilityInsert)); }
    assert seats[..i] == seats;
    return None;
  }

  /** The insert of the loop's `i`-th seat, `ON CONFLICT DO NOTHING`. */
  method InsertIfAbsent(db: Database, ghost av0: seq<SeatAvailability>, ghost next0: int, cinemaId: int, seats: seq<Seat>,
                        i: int, date: Date, time: string)
    requires 0 <= i < |seats|
    requires db.availability == Seed(av0, next0, cinemaId, seats[..i], date, time).0
    requires db.nextAvailabilityId == Seed(av0, next0, cinemaId, seats[..i], date, time).1
    modifies db`availability, db`nextAvailabilityId
    ensures db.availability == Seed(av0, next0, cinemaId, seats[..i + 1], date, time).0
    ensures db.nextAvailabilityId == Seed(av0, next0, cinemaId, seats[..i + 1], date, time).1
  {
    assert seats[..i + 1][..i] == seats[..i];
    var s := seats[i];
    var row := SeatAvailability(db.nextAvailabilityId, cinemaId, s.id, date, time, true);
    if !HasShowing(db.availability, s.id, date, time) {
      db.availability := db.availability + [row];
    }
    db.nextAvailabilityId := db.nextAvailabilityId + 1;
  }

  /** Every row of that seat and showing takes the flag; no matching row is
      a successful no-op. */
  method UpdateSeatAvailability(db: Database, seatId: int, date: Date, time: string, flag: bool, up: bool)
    returns (err: Option<Error>)
    requires db.AvailabilityValid()
    modifies db`availability
    ensures db.AvailabilityValid()
    ensures up ==> err == None && db.availability == SetAvailable(old(db.availability), seatId, date, time, flag)
    ensures !up ==> err == Some(Storage(AvailabilityUpdate)) && db.availability == old(db.availability)
  {
    if !up { return Some(Storage(AvailabilityUpdate)); }
    SetAvailableValid(db.availability, db.nextAvailabilityId, seatId, date, time, flag);
    db.availability := SetAvailable(db.availability, seatId, date, time, flag);
    return None;
  }
}
