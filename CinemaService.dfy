/** The paginated cinema listing and the lookup by id. `down` is the set of
    statements the database rejects during the call. */
module CinemaService {
  import opened Wrappers
  import opened Models
  import opened Rows
  import opened Store
  import opened CinemaRepository
  import opened Pagination

  /** One page of the matching cinemas. `page` and `limit` are clamped first,
      so the listing statement sees a positive LIMIT; the OFFSET is negative,
      and the listing fails, only when the page is so large that Go's 64-bit
      offset wraps below zero. The response carries the clamped values, the
      number of matches and the number of pages they fill. */
  method GetAllCinemas(db: Database, page: int, limit: int, filters: CinemaFilters,
                       ilike: (string, string) -> bool, down: set<Call>)
    returns (r: Result<Paginated<Cinema>, Error>)
    ensures CinemaListing in down || Offset(ClampPage(page), ClampLimit(limit)) < 0 ==>
      r == Err(Storage(CinemaListing))
    ensures CinemaListing !in down && Offset(ClampPage(page), ClampLimit(limit)) >= 0 ==>
      (var p, l := ClampPage(page), ClampLimit(limit);
       var matching := MatchingCinemas(db.cinemas, filters, ilike);
       r == Ok(Paginated(Window(matching, Offset(p, l), l), p, l, |matching|, TotalPages(|matching|, l))))
  {
    var p, l := page, limit;
    if p < 1 { p := 1; }
    if l < 1 || l > 100 { l := 10; }
    assert p == ClampPage(page) && l == ClampLimit(limit);
    ClampedPagingAccepted(page, limit);

    var listed := CinemaRepository.GetAllCinemas(db, p, l, filters, ilike, CinemaListing !in down);
    if listed.Err? { return Err(listed.error); }
    var cinemas, total := listed.value.0, listed.value.1;

    return Ok(Paginated(cinemas, p, l, total, TotalPages(total, l)));
  }

  /** A missing cinema is `Ok(None)`. */
  method GetCinemaByID(db: Database, id: int, down: set<Call>) returns (r: Result<Option<Cinema>, Error>)
    ensures CinemaLookup !in down ==> r == Ok(FindCinema(db.cinemas, id))
    ensures CinemaLookup in down ==> r == Err(Storage(CinemaLookup))
  {
    r := CinemaRepository.GetCinemaByID(db, id, CinemaLookup !in down);
  }
}
