/** The seeding program: five cinemas, then for every cinema that could be
    created a grid of 5 rows by 30 seats, then one availability row per seat
    for each of five show times on ten consecutive days. A failed insert is
    reported and skipped; seeding goes on. Which inserts fail is given as
    parameters: `cinemaFails` holds the catalogue positions whose insert
    fails, `seatFails(c)` the (row, seat) positions of cinema `c` whose insert
    fails, and `showFails(c)` maps each (day, time) position of cinema `c`
    whose availability call fails to the statement that fails in it: 0 for
    the seat listing, k + 1 for the insert of the k-th listed seat. */
module Seeder {
  import opened Wrappers
  import opened Text
  import opened Dates
  import opened Models
  import opened Rows
  import opened Store
  import opened SeatRepository
  import CinemaRepository

  const Standard: string := "standard"
  const Premium: string := "premium"
  const Vip: string := "vip"

  const RowCount: nat := 5
  const SeatsPerRow: nat := 30
  const SeedDays: nat := 10
  const ShowTimes: seq<string> := ["10:00", "13:00", "16:00", "19:00", "21:00"]

  /** The cinemas the program inserts, before the database numbers them. */
  const Catalogue: seq<Cinema> := [
    Cinema(0, "CGV Cinemas - Jakarta", "Blok M Plaza", "Jakarta",
           "Jl. Melawai No. 1, Blok M, Jakarta Selatan", 150,
           "https://via.placeholder.com/300x200?text=CGV+Jakarta"),
    Cinema(0, "Cinemaxx - Surabaya", "Pakuwon Indah", "Surabaya",
           "Jl. Raya Pakuwon Indah, Surabaya", 200,
           "https://via.placeholder.com/300x200?text=Cinemaxx+Surabaya"),
    Cinema(0, "Premiere Cinema - Bandung", "Bandung Indah Plaza", "Bandung",
           "Jl. Ir. H. Juanda No. 1, Bandung", 120,
           "https://via.placeholder.com/300x200?text=Premiere+Bandung"),
    Cinema(0, "TheScreen Cinemas - Medan", "Medan Fair", "Medan",
           "Jl. Jend. Gatot Subroto No. 1, Medan", 180,
           "https://via.placeholder.com/300x200?text=TheScreen+Medan"),
    Cinema(0, "Studio 21 - Bali", "Denpasar", "Bali",
           "Jl. Raya Puputan No. 1, Denpasar", 160,
           "https://via.placeholder.com/300x200?text=Studio21+Bali")
  ]

  // ---------------------------------------------------------------------
  // The seat plan

  /** Type and price of every seat in a row: standard by default, premium
      for rows 3 and 4, VIP for row 5. */
  function SeatClass(row: int): (c: (string, int))
    ensures 1 <= row <= 2 ==> c == (Standard, 50000)
    ensures 3 <= row <= 4 ==> c == (Premium, 70000)
    ensures row == 5 ==> c == (Vip, 100000)
  {
    var standard := (Standard, 50000);
    var byRow := if 3 <= row <= 4 then (Premium, 70000) else standard;
    if row == 5 then (Vip, 100000) else byRow
  }

  /** Rows further back never cost less. */
  lemma SeatPricesRise(r1: int, r2: int)
    requires 1 <= r1 <= r2 <= RowCount
    ensures SeatClass(r1).1 <= SeatClass(r2).1
  {
  }

  /** `'A' + seatNum - 1`: a capital letter for the first 26 seats of a row;
      seats 27 to 30 get the four characters after `Z`. */
  function SeatLetter(n: int): (c: char)
    requires 1 <= n <= SeatsPerRow
    ensures n <= 26 <==> 'A' <= c <= 'Z'
  {
    ('A' as int + n - 1) as char
  }

  /** `fmt.Sprintf("%d%s", row, seatLetter)`. */
  function SeatLabel(row: nat, n: int): string
    requires 1 <= n <= SeatsPerRow
  {
    NatToDecimal(row) + [SeatLetter(n)]
  }

  /** A label names one seat: it gives back its row and its place in the row. */
  lemma SeatLabelInjective(r1: nat, n1: int, r2: nat, n2: int)
    requires 1 <= n1 <= SeatsPerRow && 1 <= n2 <= SeatsPerRow
    requires SeatLabel(r1, n1) == SeatLabel(r2, n2)
    ensures r1 == r2 && n1 == n2
  {
    var l := SeatLabel(r1, n1);
    assert l[|l| - 1] == SeatLetter(n1) == SeatLetter(n2);
    assert l[..|l| - 1] == NatToDecimal(r1) == NatToDecimal(r2);
    NatToDecimalValue(r1);
    NatToDecimalValue(r2);
  }

  /** The seat the program inserts at row `row`, place `n`, before the
      database numbers it. */
  function PlannedSeat(cinemaId: int, row: nat, n: int): Seat
    requires 1 <= n <= SeatsPerRow
  {
    Seat(0, cinemaId, SeatLabel(row, n), row, SeatClass(row).0, SeatClass(row).1)
  }

  /** The seats of places 1..m of a row whose insert succeeds, in order. */
  function RowPlan(cinemaId: int, row: nat, m: nat, fails: set<(int, int)>): (r: seq<Seat>)
    requires m <= SeatsPerRow
    ensures |r| <= m
  {
    if m == 0 then []
    else RowPlan(cinemaId, row, m - 1, fails)
         + (if (row, m) in fails then [] else [PlannedSeat(cinemaId, row, m)])
  }

  /** The seats of rows 1..rows whose insert succeeds, row by row. */
  function GridPlan(cinemaId: int, rows: nat, fails: set<(int, int)>): (r: seq<Seat>)
  {
    if rows == 0 then []
    else GridPlan(cinemaId, rows - 1, fails) + RowPlan(cinemaId, rows, SeatsPerRow, fails)
  }

  lemma {:induction false} RowPlanMembers(cinemaId: int, row: nat, m: nat, fails: set<(int, int)>)
    requires m <= SeatsPerRow
    ensures forall s :: s in RowPlan(cinemaId, row, m, fails) <==>
      exists n :: 1 <= n <= m && (row, n) !in fails && s == PlannedSeat(cinemaId, row, n)
  {
    if m > 0 {
      RowPlanMembers(cinemaId, row, m - 1, fails);
    }
  }

  /** The plan holds exactly the seats of rows 1..rows, places 1..30, whose
      insert succeeds. */
  lemma {:induction false} GridPlanMembers(cinemaId: int, rows: nat, fails: set<(int, int)>)
    ensures forall s :: s in GridPlan(cinemaId, rows, fails) <==>
      exists row: nat, n :: 1 <= row <= rows && 1 <= n <= SeatsPerRow && (row, n) !in fails
        && s == PlannedSeat(cinemaId, row, n)
  {
    if rows > 0 {
      GridPlanMembers(cinemaId, rows - 1, fails);
      RowPlanMembers(cinemaId, rows, SeatsPerRow, fails);
    }
  }

  lemma {:induction false} RowPlanFull(cinemaId: int, row: nat, m: nat)
    requires m <= SeatsPerRow
    ensures |RowPlan(cinemaId, row, m, {})| == m
  {
    if m > 0 {
      RowPlanFull(cinemaId, row, m - 1);
    }
  }

  /** With no failure, every cinema gets `rows` times 30 seats. */
  lemma {:induction false} GridPlanFull(cinemaId: int, rows: nat)
    ensures |GridPlan(cinemaId, rows, {})| == rows * SeatsPerRow
  {
    if rows > 0 {
      GridPlanFull(cinemaId, rows - 1);
      RowPlanFull(cinemaId, rows, SeatsPerRow);
    }
  }

  // ---------------------------------------------------------------------
  // Numbering by the database

  /** The rows as stored: the i-th gets the id `next + i`. */
  function Numbered<T>(xs: seq<T>, next: int, withId: (T, int) -> T): (r: seq<T>)
    ensures |r| == |xs|
  {
    if xs == [] then []
    else Numbered(xs[..|xs| - 1], next, withId) + [withId(xs[|xs| - 1], next + |xs| - 1)]
  }

  /** The i-th row stored gets the id `next + i`. */
  lemma {:induction false} NumberedIds<T>(xs: seq<T>, next: int, withId: (T, int) -> T)
    ensures forall i :: 0 <= i < |xs| ==> Numbered(xs, next, withId)[i] == withId(xs[i], next + i)
  {
    if xs != [] {
      NumberedIds(xs[..|xs| - 1], next, withId);
    }
  }

  lemma {:induction false} NumberedAppend<T>(xs: seq<T>, ys: seq<T>, next: int, withId: (T, int) -> T)
    ensures Numbered(xs + ys, next, withId) == Numbered(xs, next, withId) + Numbered(ys, next + |xs|, withId)
  {
    if ys != [] {
      var init := ys[..|ys| - 1];
      NumberedAppend(xs, init, next, withId);
      assert (xs + ys)[..|xs + ys| - 1] == xs + init;
      assert ys[..|ys| - 1] == init;
    } else {
      assert xs + ys == xs;
    }
  }

  lemma NumberedSnoc<T>(xs: seq<T>, x: T, next: int, withId: (T, int) -> T)
    ensures Numbered(xs + [x], next, withId) == Numbered(xs, next, withId) + [withId(x, next + |xs|)]
  {
    assert (xs + [x])[..|xs|] == xs;
  }

  lemma AppendAssoc<T>(a: seq<T>, b: seq<T>, c: seq<T>)
    ensures a + b + c == a + (b + c)
  {
  }

  lemma SnocAssoc<T>(a: seq<T>, b: seq<T>, x: T)
    ensures a + b + [x] == a + (b + [x])
  {
  }

  function WithSeatId(s: Seat, id: int): Seat { s.(id := id) }

  /** One place of a row: its seat is stored after the places before it, or
      nothing is when its insert fails. */
  lemma RowStep(cinemaId: int, row: nat, n: int, fails: set<(int, int)>, next: int, at: int)
    requires 1 <= n <= SeatsPerRow && at == next + |RowPlan(cinemaId, row, n - 1, fails)|
    ensures (row, n) in fails ==> RowPlan(cinemaId, row, n, fails) == RowPlan(cinemaId, row, n - 1, fails)
    ensures (row, n) !in fails ==>
      Numbered(RowPlan(cinemaId, row, n, fails), next, WithSeatId)
      == Numbered(RowPlan(cinemaId, row, n - 1, fails), next, WithSeatId)
         + [PlannedSeat(cinemaId, row, n).(id := at)]
      && |RowPlan(cinemaId, row, n, fails)| == |RowPlan(cinemaId, row, n - 1, fails)| + 1
  {
    NumberedSnoc(RowPlan(cinemaId, row, n - 1, fails), PlannedSeat(cinemaId, row, n), next, WithSeatId);
  }

  function WithCinemaId(c: Cinema, id: int): Cinema { c.(id := id) }

  // ---------------------------------------------------------------------
  // Inserting the seats

  /** Place `n` of a row: its seat is stored after the places before it
      when its insert succeeds, and nothing changes when it fails. */
  method SeedPlace(db: Database, cinemaId: int, row: nat, n: int, fails: set<(int, int)>,
                   ghost seats0: seq<Seat>, ghost next0: int, count: nat)
    returns (count': nat)
    requires 1 <= n <= SeatsPerRow && db.SeatsValid()
    requires count == |RowPlan(cinemaId, row, n - 1, fails)|
    requires db.seats == seats0 + Numbered(RowPlan(cinemaId, row, n - 1, fails), next0, WithSeatId)
    requires db.nextSeatId == next0 + count
    modifies db`seats, db`nextSeatId
    ensures db.SeatsValid()
    ensures count' == |RowPlan(cinemaId, row, n, fails)|
    ensures db.seats == seats0 + Numbered(RowPlan(cinemaId, row, n, fails), next0, WithSeatId)
    ensures db.nextSeatId == next0 + count'
  {
    ghost var before := db.seats;
    ghost var placed := Numbered(RowPlan(cinemaId, row, n - 1, fails), next0, WithSeatId);
    RowStep(cinemaId, row, n, fails, next0, db.nextSeatId);
    var created := SeatRepository.CreateSeat(db, PlannedSeat(cinemaId, row, n), (row, n) !in fails);
    if created.Ok? {
      count' := count + 1;
      SnocAssoc(seats0, placed, created.value);
    } else {
      count' := count;
    }
  }

  /** One row, place by place; `count` counts only the inserts that succeed. */
  method SeedRow(db: Database, cinemaId: int, row: nat, fails: set<(int, int)>) returns (count: nat)
    requires db.SeatsValid()
    modifies db`seats, db`nextSeatId
    ensures db.SeatsValid()
    ensures count == |RowPlan(cinemaId, row, SeatsPerRow, fails)|
    ensures db.seats == old(db.seats) + Numbered(RowPlan(cinemaId, row, SeatsPerRow, fails), old(db.nextSeatId), WithSeatId)
    ensures db.nextSeatId == old(db.nextSeatId) + count
  {
    count := 0;
    for n := 1 to SeatsPerRow + 1
      invariant db.SeatsValid()
      invariant count == |RowPlan(cinemaId, row, n - 1, fails)|
      invariant db.seats == old(db.seats) + Numbered(RowPlan(cinemaId, row, n - 1, fails), old(db.nextSeatId), WithSeatId)
      invariant db.nextSeatId == old(db.nextSeatId) + count
    {
      count := SeedPlace(db, cinemaId, row, n, fails, old(db.seats), old(db.nextSeatId), count);
    }
  }

  /** One more row: its seats are stored after the rows before it. */
  lemma GridStep(cinemaId: int, row: nat, fails: set<(int, int)>, next: int, at: int)
    requires row >= 1 && at == next + |GridPlan(cinemaId, row - 1, fails)|
    ensures |GridPlan(cinemaId, row, fails)| == |GridPlan(cinemaId, row - 1, fails)| + |RowPlan(cinemaId, row, SeatsPerRow, fails)|
    ensures Numbered(GridPlan(cinemaId, row, fails), next, WithSeatId)
      == Numbered(GridPlan(cinemaId, row - 1, fails), next, WithSeatId)
         + Numbered(RowPlan(cinemaId, row, SeatsPerRow, fails), at, WithSeatId)
  {
    NumberedAppend(GridPlan(cinemaId, row - 1, fails), RowPlan(cinemaId, row, SeatsPerRow, fails), next, WithSeatId);
  }

  /** Row `row` of the grid, stored after the rows before it. */
  method SeedGridRow(db: Database, cinemaId: int, row: nat, fails: set<(int, int)>,
                     ghost seats0: seq<Seat>, ghost next0: int, count: nat)
    returns (count': nat)
    requires row >= 1 && db.SeatsValid()
    requires count == |GridPlan(cinemaId, row - 1, fails)|
    requires db.seats == seats0 + Numbered(GridPlan(cinemaId, row - 1, fails), next0, WithSeatId)
    requires db.nextSeatId == next0 + count
    modifies db`seats, db`nextSeatId
    ensures db.SeatsValid()
    ensures count' == |GridPlan(cinemaId, row, fails)|
    ensures db.seats == seats0 + Numbered(GridPlan(cinemaId, row, fails), next0, WithSeatId)
    ensures db.nextSeatId == next0 + count'
  {
    ghost var before := db.seats;
    ghost var grid := Numbered(GridPlan(cinemaId, row - 1, fails), next0, WithSeatId);
    ghost var rowSeats := Numbered(RowPlan(cinemaId, row, SeatsPerRow, fails), db.nextSeatId, WithSeatId);
    GridStep(cinemaId, row, fails, next0, db.nextSeatId);
    var n := SeedRow(db, cinemaId, row, fails);
    count' := count + n;
    AppendAssoc(seats0, grid, rowSeats);
  }

  /** The whole grid, row by row; `count` is the number of seats created. */
  method SeedSeats(db: Database, cinemaId: int, fails: set<(int, int)>) returns (count: nat)
    requires db.SeatsValid()
    modifies db`seats, db`nextSeatId
    ensures db.SeatsValid()
    ensures count == |GridPlan(cinemaId, RowCount, fails)|
    ensures db.seats == old(db.seats) + Numbered(GridPlan(cinemaId, RowCount, fails), old(db.nextSeatId), WithSeatId)
  {
    count := 0;
    for row := 1 to RowCount + 1
      invariant db.SeatsValid()
      invariant count == |GridPlan(cinemaId, row - 1, fails)|
      invariant db.seats == old(db.seats) + Numbered(GridPlan(cinemaId, row - 1, fails), old(db.nextSeatId), WithSeatId)
      invariant db.nextSeatId == old(db.nextSeatId) + count
    {
      count := SeedGridRow(db, cinemaId, row, fails, old(db.seats), old(db.nextSeatId), count);
    }
  }

  // ---------------------------------------------------------------------
  // Inserting the availability rows

  /** Every seat of the cinema in `ss` has a row for the showing. */
  predicate Seeded(av: seq<SeatAvailability>, ss: seq<Seat>, cinemaId: int, date: Date, time: string)
  {
    forall k :: 0 <= k < |ss| && ss[k].cinemaId == cinemaId ==> HasShowing(av, ss[k].id, date, time)
  }

  /** Adding rows never takes a showing away. */
  lemma SeededGrows(av: seq<SeatAvailability>, av': seq<SeatAvailability>, ss: seq<Seat>, cinemaId: int, date: Date, time: string)
    requires av <= av' && Seeded(av, ss, cinemaId, date, time)
    ensures Seeded(av', ss, cinemaId, date, time)
  {
    forall k | 0 <= k < |ss| && ss[k].cinemaId == cinemaId ensures HasShowing(av', ss[k].id, date, time) {
      var i :| 0 <= i < |av| && av[i].seatId == ss[k].id && av[i].showDate == date && av[i].showTime == time;
      assert av'[i] == av[i];
    }
  }

  /** The seats the listing query returns are all the cinema's seats. */
  lemma SeededFromListing(av: seq<SeatAvailability>, ss: seq<Seat>, cinemaId: int, date: Date, time: string)
    requires var listed := CinemaSeats(ss, cinemaId);
      forall k :: 0 <= k < |listed| ==> HasShowing(av, listed[k].id, date, time)
    ensures Seeded(av, ss, cinemaId, date, time)
  {
    var listed := CinemaSeats(ss, cinemaId);
    forall k | 0 <= k < |ss| && ss[k].cinemaId == cinemaId ensures HasShowing(av, ss[k].id, date, time) {
      assert ss[k] in multiset(ss);
      assert multiset(listed)[ss[k]] == multiset(ss)[ss[k]];
      assert ss[k] in listed;
      var m :| 0 <= m < |listed| && listed[m] == ss[k];
    }
  }

  /** The ten seeding days are ten different dates. */
  lemma SeedDatesDistinct(today: Date, i: nat, j: nat)
    requires ValidDate(today) && i != j
    ensures AddDays(today, i) != AddDays(today, j)
  {
    if i < j { AddDaysIncreasing(today, i, j); } else { AddDaysIncreasing(today, j, i); }
  }

  /** New availability rows are free seats of the cinema. */
  predicate NewRowsFree(av0: seq<SeatAvailability>, av: seq<SeatAvailability>, cinemaId: int)
  {
    av0 <= av && forall j :: |av0| <= j < |av| ==> av[j].isAvailable && av[j].cinemaId == cinemaId
  }

  /** One showing. `fail` is the statement of the call that fails, if one
      does: 0 for the seat listing, k + 1 for the insert of the k-th listed
      seat. The error is reported and skipped; rows inserted before it stay. */
  method SeedShowing(db: Database, cinemaId: int, date: Date, time: string, fail: Option<nat>)
    requires db.AvailabilityValid()
    modifies db`availability, db`nextAvailabilityId
    ensures db.AvailabilityValid()
    ensures NewRowsFree(old(db.availability), db.availability, cinemaId)
    ensures fail.None? ==> Seeded(db.availability, db.seats, cinemaId, date, time)
  {
    var failsAt := if fail.Some? && fail.value > 0 then Some(fail.value - 1) else None;
    var _ := SeatRepository.CreateSeatAvailability(db, cinemaId, date, time, fail != Some(0), failsAt);
    if fail.None? {
      ghost var seats := CinemaSeats(db.seats, cinemaId);
      assert seats[..|seats|] == seats;
      SeededFromListing(db.availability, db.seats, cinemaId, date, time);
    }
  }

  /** The five show times of one day. */
  method SeedDay(db: Database, cinemaId: int, date: Date, day: nat, fails: map<(int, int), nat>)
    requires db.AvailabilityValid()
    modifies db`availability, db`nextAvailabilityId
    ensures db.AvailabilityValid()
    ensures NewRowsFree(old(db.availability), db.availability, cinemaId)
    ensures forall t :: 0 <= t < |ShowTimes| && (day, t) !in fails ==>
      Seeded(db.availability, db.seats, cinemaId, date, ShowTimes[t])
  {
    for t := 0 to |ShowTimes|
      invariant db.AvailabilityValid()
      invariant NewRowsFree(old(db.availability), db.availability, cinemaId)
      invariant forall t' :: 0 <= t' < t && (day, t') !in fails ==>
        Seeded(db.availability, db.seats, cinemaId, date, ShowTimes[t'])
    {
      ghost var before := db.availability;
      SeedShowing(db, cinemaId, date, ShowTimes[t], if (day, t) in fails then Some(fails[(day, t)]) else None);
      forall t' | 0 <= t' < t && (day, t') !in fails
        ensures Seeded(db.availability, db.seats, cinemaId, date, ShowTimes[t'])
      {
        SeededGrows(before, db.availability, db.seats, cinemaId, date, ShowTimes[t']);
      }
    }
  }

  /** Ten days from `today`, five show times each: every seat of the cinema
      is seeded for every showing whose insert succeeds. */
  method SeedShowings(db: Database, cinemaId: int, today: Date, fails: map<(int, int), nat>)
    requires db.AvailabilityValid() && ValidDate(today)
    modifies db`availability, db`nextAvailabilityId
    ensures db.AvailabilityValid()
    ensures NewRowsFree(old(db.availability), db.availability, cinemaId)
    ensures forall i, t :: 0 <= i < SeedDays && 0 <= t < |ShowTimes| && (i, t) !in fails ==>
      Seeded(db.availability, db.seats, cinemaId, AddDays(today, i), ShowTimes[t])
  {
    for i := 0 to SeedDays
      invariant db.AvailabilityValid()
      invariant NewRowsFree(old(db.availability), db.availability, cinemaId)
      invariant forall i', t :: 0 <= i' < i && 0 <= t < |ShowTimes| && (i', t) !in fails ==>
        Seeded(db.availability, db.seats, cinemaId, AddDays(today, i'), ShowTimes[t])
    {
      SeedNextDay(db, cinemaId, today, i, fails, old(db.availability));
    }
  }

  /** Day `i` of the ten: the days before it stay seeded and its own
      successful showings join them. */
  method SeedNextDay(db: Database, cinemaId: int, today: Date, i: nat, fails: map<(int, int), nat>,
                     ghost av0: seq<SeatAvailability>)
    requires db.AvailabilityValid() && ValidDate(today)
    requires NewRowsFree(av0, db.availability, cinemaId)
    requires forall i', t :: 0 <= i' < i && 0 <= t < |ShowTimes| && (i', t) !in fails ==>
      Seeded(db.availability, db.seats, cinemaId, AddDays(today, i'), ShowTimes[t])
    modifies db`availability, db`nextAvailabilityId
    ensures db.AvailabilityValid()
    ensures NewRowsFree(av0, db.availability, cinemaId)
    ensures forall i', t :: 0 <= i' < i + 1 && 0 <= t < |ShowTimes| && (i', t) !in fails ==>
      Seeded(db.availability, db.seats, cinemaId, AddDays(today, i'), ShowTimes[t])
  {
    ghost var before := db.availability;
    SeedDay(db, cinemaId, AddDays(today, i), i, fails);
    DaysKept(before, db.availability, db.seats, cinemaId, today, i, fails);
    NewRowsFreeTrans(av0, before, db.availability, cinemaId);
  }

  /** Rows added in two steps are free rows of the cinema when each step's are. */
  lemma NewRowsFreeTrans(av0: seq<SeatAvailability>, av1: seq<SeatAvailability>, av2: seq<SeatAvailability>, cinemaId: int)
    requires NewRowsFree(av0, av1, cinemaId) && NewRowsFree(av1, av2, cinemaId)
    ensures NewRowsFree(av0, av2, cinemaId)
  {
    forall j | |av0| <= j < |av2| ensures av2[j].isAvailable && av2[j].cinemaId == cinemaId {
      if j < |av1| { assert av2[j] == av1[j]; }
    }
  }

  /** The showings of the first `i` days stay seeded when rows are added,
      and with day `i` seeded in the new rows the first `i + 1` days are. */
  lemma DaysKept(av: seq<SeatAvailability>, av': seq<SeatAvailability>, ss: seq<Seat>, cinemaId: int,
                 today: Date, i: nat, fails: map<(int, int), nat>)
    requires av <= av' && ValidDate(today)
    requires forall i', t :: 0 <= i' < i && 0 <= t < |ShowTimes| && (i', t) !in fails ==>
      Seeded(av, ss, cinemaId, AddDays(today, i'), ShowTimes[t])
    requires forall t :: 0 <= t < |ShowTimes| && (i, t) !in fails ==>
      Seeded(av', ss, cinemaId, AddDays(today, i), ShowTimes[t])
    ensures forall i', t :: 0 <= i' < i + 1 && 0 <= t < |ShowTimes| && (i', t) !in fails ==>
      Seeded(av', ss, cinemaId, AddDays(today, i'), ShowTimes[t])
  {
    forall i', t | 0 <= i' < i + 1 && 0 <= t < |ShowTimes| && (i', t) !in fails
      ensures Seeded(av', ss, cinemaId, AddDays(today, i'), ShowTimes[t])
    {
      if i' < i {
        SeededGrows(av, av', ss, cinemaId, AddDays(today, i'), ShowTimes[t]);
      }
    }
  }

  // ---------------------------------------------------------------------
  // The program

  /** The first `k` cinemas of a catalogue whose insert succeeds, in order. */
  function KeptCinemas(catalogue: seq<Cinema>, k: nat, fails: set<nat>): (r: seq<Cinema>)
    requires k <= |catalogue|
    ensures |r| <= k
  {
    if k == 0 then []
    else KeptCinemas(catalogue, k - 1, fails) + (if k - 1 in fails then [] else [catalogue[k - 1]])
  }

  /** A cinema the catalogue lists is kept exactly when its insert succeeds. */
  lemma {:induction false} KeptCinemasMembers(catalogue: seq<Cinema>, k: nat, fails: set<nat>)
    requires k <= |catalogue|
    ensures forall c :: c in KeptCinemas(catalogue, k, fails) <==>
      exists i :: 0 <= i < k && i !in fails && c == catalogue[i]
  {
    if k > 0 {
      KeptCinemasMembers(catalogue, k - 1, fails);
    }
  }

  lemma CinemaStep(catalogue: seq<Cinema>, k: nat, fails: set<nat>, next: int, at: int)
    requires k < |catalogue| && at == next + |KeptCinemas(catalogue, k, fails)|
    ensures k in fails ==> KeptCinemas(catalogue, k + 1, fails) == KeptCinemas(catalogue, k, fails)
    ensures k !in fails ==>
      Numbered(KeptCinemas(catalogue, k + 1, fails), next, WithCinemaId)
      == Numbered(KeptCinemas(catalogue, k, fails), next, WithCinemaId) + [catalogue[k].(id := at)]
  {
    NumberedSnoc(KeptCinemas(catalogue, k, fails), catalogue[k], next, WithCinemaId);
  }

  /** The insert of the k-th cinema of the catalogue: on success it is
      stored and added to the created ones, on failure nothing changes. */
  method SeedOneCinema(db: Database, catalogue: seq<Cinema>, k: nat, fails: set<nat>,
                       ghost cinemas0: seq<Cinema>, ghost next0: int, created: seq<Cinema>)
    returns (created': seq<Cinema>)
    requires k < |catalogue| && db.CinemasValid()
    requires created == Numbered(KeptCinemas(catalogue, k, fails), next0, WithCinemaId)
    requires db.cinemas == cinemas0 + created && db.nextCinemaId == next0 + |created|
    modifies db`cinemas, db`nextCinemaId
    ensures db.CinemasValid()
    ensures created' == Numbered(KeptCinemas(catalogue, k + 1, fails), next0, WithCinemaId)
    ensures db.cinemas == cinemas0 + created' && db.nextCinemaId == next0 + |created'|
  {
    CinemaStep(catalogue, k, fails, next0, db.nextCinemaId);
    var made := CinemaRepository.CreateCinema(db, catalogue[k], k !in fails);
    if made.Ok? {
      created' := created + [made.value];
      SnocAssoc(cinemas0, created, made.value);
    } else {
      created' := created;
    }
  }

  /** Inserts the catalogue; a cinema whose insert fails is skipped and the
      others are numbered in order. */
  method SeedCinemas(db: Database, catalogue: seq<Cinema>, fails: set<nat>) returns (created: seq<Cinema>)
    requires db.CinemasValid()
    modifies db`cinemas, db`nextCinemaId
    ensures db.CinemasValid()
    ensures created == Numbered(KeptCinemas(catalogue, |catalogue|, fails), old(db.nextCinemaId), WithCinemaId)
    ensures db.cinemas == old(db.cinemas) + created
  {
    created := [];
    for k := 0 to |catalogue|
      invariant db.CinemasValid()
      invariant created == Numbered(KeptCinemas(catalogue, k, fails), old(db.nextCinemaId), WithCinemaId)
      invariant db.cinemas == old(db.cinemas) + created
      invariant db.nextCinemaId == old(db.nextCinemaId) + |created|
    {
      created := SeedOneCinema(db, catalogue, k, fails, old(db.cinemas), old(db.nextCinemaId), created);
    }
  }

  /** One created cinema's seats, then its showings. */
  method SeedCinema(db: Database, cinemaId: int, today: Date, seatFails: set<(int, int)>, showFails: map<(int, int), nat>)
    returns (count: nat)
    requires db.SeatsValid() && db.AvailabilityValid() && ValidDate(today)
    modifies db`seats, db`nextSeatId, db`availability, db`nextAvailabilityId
    ensures db.SeatsValid() && db.AvailabilityValid()
    ensures count == |GridPlan(cinemaId, RowCount, seatFails)|
    ensures db.seats == old(db.seats) + Numbered(GridPlan(cinemaId, RowCount, seatFails), old(db.nextSeatId), WithSeatId)
    ensures NewRowsFree(old(db.availability), db.availability, cinemaId)
    ensures forall i, t :: 0 <= i < SeedDays && 0 <= t < |ShowTimes| && (i, t) !in showFails ==>
      Seeded(db.availability, db.seats, cinemaId, AddDays(today, i), ShowTimes[t])
  {
    count := SeedSeats(db, cinemaId, seatFails);
    SeedShowings(db, cinemaId, today, showFails);
  }

  /** The seats stored for one cinema's grid all belong to that cinema. */
  lemma GridSeatsOfCinema(cinemaId: int, fails: set<(int, int)>, next: int)
    ensures forall j :: 0 <= j < |GridPlan(cinemaId, RowCount, fails)| ==>
      Numbered(GridPlan(cinemaId, RowCount, fails), next, WithSeatId)[j].cinemaId == cinemaId
  {
    var plan := GridPlan(cinemaId, RowCount, fails);
    NumberedIds(plan, next, WithSeatId);
    GridPlanMembers(cinemaId, RowCount, fails);
    forall j | 0 <= j < |plan| ensures plan[j].cinemaId == cinemaId {
      assert plan[j] in plan;
    }
  }

  /** A showing stays seeded for a cinema while rows are only added and the
      seats added belong to other cinemas. */
  lemma SeededKept(av: seq<SeatAvailability>, av': seq<SeatAvailability>, ss: seq<Seat>, ss': seq<Seat>,
                   cinemaId: int, date: Date, time: string)
    requires av <= av' && ss <= ss' && Seeded(av, ss, cinemaId, date, time)
    requires forall j :: |ss| <= j < |ss'| ==> ss'[j].cinemaId != cinemaId
    ensures Seeded(av', ss', cinemaId, date, time)
  {
    SeededGrows(av, av', ss, cinemaId, date, time);
    forall k | 0 <= k < |ss'| && ss'[k].cinemaId == cinemaId ensures HasShowing(av', ss'[k].id, date, time) {
      assert ss'[k] == ss[k];
    }
  }

  /** Every showing of cinema `c` whose insert succeeds has a row for each of
      the cinema's seats. */
  ghost predicate ShowingsSeeded(db: Database, c: Cinema, today: Date, showFails: int -> map<(int, int), nat>)
    reads db
  {
    ValidDate(today) &&
    forall i, t :: 0 <= i < SeedDays && 0 <= t < |ShowTimes| && (i, t) !in showFails(c.id) ==>
      Seeded(db.availability, db.seats, c.id, AddDays(today, i), ShowTimes[t])
  }

  /** The seats and showings of one more created cinema, keeping those of
      the cinemas seeded before it. */
  method SeedCreated(db: Database, today: Date, c: Cinema, ghost done: seq<Cinema>,
                     seatFails: int -> set<(int, int)>, showFails: int -> map<(int, int), nat>)
    requires db.SeatsValid() && db.AvailabilityValid() && ValidDate(today)
    requires forall d :: d in done ==> d.id != c.id && ShowingsSeeded(db, d, today, showFails)
    modifies db`seats, db`nextSeatId, db`availability, db`nextAvailabilityId
    ensures db.SeatsValid() && db.AvailabilityValid()
    ensures old(db.seats) <= db.seats && old(db.availability) <= db.availability
    ensures forall d :: d in done + [c] ==> ShowingsSeeded(db, d, today, showFails)
  {
    ghost var ss, av := db.seats, db.availability;
    GridSeatsOfCinema(c.id, seatFails(c.id), db.nextSeatId);
    var _ := SeedCinema(db, c.id, today, seatFails(c.id), showFails(c.id));
    forall d, i, t | d in done && 0 <= i < SeedDays && 0 <= t < |ShowTimes| && (i, t) !in showFails(d.id)
      ensures Seeded(db.availability, db.seats, d.id, AddDays(today, i), ShowTimes[t])
    {
      SeededKept(av, db.availability, ss, db.seats, d.id, AddDays(today, i), ShowTimes[t]);
    }
  }

  /** The created cinemas get the ids `next`, `next + 1`, ... in order. */
  lemma CreatedIdsDistinct(catalogue: seq<Cinema>, fails: set<nat>, next: int, j: nat, k: nat)
    requires j < k < |Numbered(KeptCinemas(catalogue, |catalogue|, fails), next, WithCinemaId)|
    ensures Numbered(KeptCinemas(catalogue, |catalogue|, fails), next, WithCinemaId)[j].id
         != Numbered(KeptCinemas(catalogue, |catalogue|, fails), next, WithCinemaId)[k].id
  {
    NumberedIds(KeptCinemas(catalogue, |catalogue|, fails), next, WithCinemaId);
  }

  /** The cinema created k-th has an id none of the cinemas before it has. */
  lemma CreatedIdFresh(catalogue: seq<Cinema>, fails: set<nat>, next: int, k: nat)
    requires k < |Numbered(KeptCinemas(catalogue, |catalogue|, fails), next, WithCinemaId)|
    ensures var created := Numbered(KeptCinemas(catalogue, |catalogue|, fails), next, WithCinemaId);
      forall d :: d in created[..k] ==> d.id != created[k].id
  {
    var created := Numbered(KeptCinemas(catalogue, |catalogue|, fails), next, WithCinemaId);
    forall d | d in created[..k] ensures d.id != created[k].id {
      var j :| 0 <= j < k && created[j] == d;
      CreatedIdsDistinct(catalogue, fails, next, j, k);
    }
  }

  /** The cinema created k-th is seeded after the ones before it, which
      stay seeded. */
  method SeedNext(db: Database, today: Date, catalogue: seq<Cinema>, ghost cinemaFails: set<nat>,
                  ghost next: int, created: seq<Cinema>, k: nat,
                  seatFails: int -> set<(int, int)>, showFails: int -> map<(int, int), nat>,
                  ghost seats0: seq<Seat>, ghost av0: seq<SeatAvailability>)
    requires created == Numbered(KeptCinemas(catalogue, |catalogue|, cinemaFails), next, WithCinemaId)
    requires k < |created|
    requires db.SeatsValid() && db.AvailabilityValid() && ValidDate(today)
    requires seats0 <= db.seats && av0 <= db.availability
    requires forall c :: c in created[..k] ==> ShowingsSeeded(db, c, today, showFails)
    modifies db`seats, db`nextSeatId, db`availability, db`nextAvailabilityId
    ensures db.SeatsValid() && db.AvailabilityValid()
    ensures seats0 <= db.seats && av0 <= db.availability
    ensures forall c :: c in created[..k + 1] ==> ShowingsSeeded(db, c, today, showFails)
  {
    CreatedIdFresh(catalogue, cinemaFails, next, k);
    SeedCreated(db, today, created[k], created[..k], seatFails, showFails);
    assert created[..k + 1] == created[..k] + [created[k]];
  }

  /** The seeding program after connecting: the cinemas, then each created
      cinema's seats and showings. Rows already in the tables stay; every
      created cinema ends up with a row for each of its seats in each
      showing whose insert succeeds. */
  method SeedDatabase(db: Database, today: Date, cinemaFails: set<nat>,
                      seatFails: int -> set<(int, int)>, showFails: int -> map<(int, int), nat>)
    returns (created: seq<Cinema>)
    requires db.CinemasValid() && db.SeatsValid() && db.AvailabilityValid() && ValidDate(today)
    modifies db`cinemas, db`nextCinemaId, db`seats, db`nextSeatId, db`availability, db`nextAvailabilityId
    ensures db.CinemasValid() && db.SeatsValid() && db.AvailabilityValid()
    ensures created == Numbered(KeptCinemas(Catalogue, |Catalogue|, cinemaFails), old(db.nextCinemaId), WithCinemaId)
    ensures db.cinemas == old(db.cinemas) + created
    ensures old(db.seats) <= db.seats && old(db.availability) <= db.availability
    ensures forall c :: c in created ==> ShowingsSeeded(db, c, today, showFails)
  {
    created := SeedCinemas(db, Catalogue, cinemaFails);
    ghost var cinemas, nextCinema := db.cinemas, db.nextCinemaId;
    for k := 0 to |created|
      invariant db.cinemas == cinemas && db.nextCinemaId == nextCinema
      invariant db.SeatsValid() && db.AvailabilityValid()
      invariant old(db.seats) <= db.seats && old(db.availability) <= db.availability
      invariant forall c :: c in created[..k] ==> ShowingsSeeded(db, c, today, showFails)
    {
      SeedNext(db, today, Catalogue, cinemaFails, old(db.nextCinemaId), created, k,
               seatFails, showFails, old(db.seats), old(db.availability));
    }
    assert created[..|created|] == created;
  }
}
