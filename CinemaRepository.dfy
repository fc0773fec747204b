/** The `cinemas` table: the paginated, filtered listing whose SQL text and
    argument list are assembled piece by piece, the lookup by id and the
    insert used by the seeder. */
module CinemaRepository {
  import opened Wrappers
  import opened Text
  import opened Models
  import opened Rows
  import opened Store
  import opened Pagination

  /** A bound query argument. */
  datatype Arg = Text(text: string) | Int(value: int)

  /** The two statements of the listing and the arguments bound to each. */
  datatype CinemaQueries = CinemaQueries(
    countQuery: string, countArgs: seq<Arg>, dataQuery: string, dataArgs: seq<Arg>)

  // The fixed pieces of the statements' text.
  const CountSelect: string := "SELECT COUNT(*) FROM cinemas"
  const Columns1: string := "SELECT id, name, location, "
  const Columns2: string := "city, address, total_seats, "
  const Columns3: string := "image_url, created_at, "
  const Columns4: string := "updated_at FROM cinemas"
  const DataSelect: string := Columns1 + Columns2 + Columns3 + Columns4
  const CityCond: string := " WHERE city ILIKE "
  const NameCondWhere: string := " WHERE name ILIKE "
  const NameCondAnd: string := " AND name ILIKE "
  const OrderLimit: string := " ORDER BY name ASC LIMIT "
  const OffsetKw: string := " OFFSET "

  /** `$%d`. */
  function Placeholder(n: nat): string { "$" + NatToDecimal(n) }

  /** The `ILIKE` pattern that matches any text containing `s`. */
  function Contains(s: string): string { "%" + s + "%" }

  // ---------------------------------------------------------------------
  // The reference shape of the listing's statements, case by case

  function WhereClause(f: CinemaFilters): string
  {
    if f.city != "" && f.name != "" then CityCond + Placeholder(1) + NameCondAnd + Placeholder(2)
    else if f.city != "" then CityCond + Placeholder(1)
    else if f.name != "" then NameCondWhere + Placeholder(1)
    else ""
  }

  function FilterArgs(f: CinemaFilters): (args: seq<Arg>)
  {
    (if f.city != "" then [Text(Contains(f.city))] else [])
    + (if f.name != "" then [Text(Contains(f.name))] else [])
  }

  function DataQuery(f: CinemaFilters): string
  {
    DataSelect + WhereClause(f) + OrderLimit + Placeholder(|FilterArgs(f)| + 1)
    + OffsetKw + Placeholder(|FilterArgs(f)| + 2)
  }

  /** Builds the listing's statements the way the repository does: a WHERE
      clause, an argument list and the next placeholder number, extended
      filter by filter. The result has the reference shape above. */
  method BuildQueries(page: int, limit: int, filters: CinemaFilters) returns (q: CinemaQueries)
    ensures q.countQuery == CountSelect + WhereClause(filters)
    ensures q.countArgs == FilterArgs(filters)
    ensures q.dataQuery == DataQuery(filters)
    ensures q.dataArgs == FilterArgs(filters) + [Int(limit), Int(Offset(page, limit))]
  {
    var offset := Wrap64((page - 1) * limit);
    var whereClause, args, argIndex := BuildWhere(filters);
    var countQuery := CountSelect + whereClause;
    var dataQuery := DataSelect + whereClause + OrderLimit + Placeholder(argIndex)
      + OffsetKw + Placeholder(argIndex + 1);
    q := CinemaQueries(countQuery, args, dataQuery, args + [Int(limit), Int(offset)]);
  }

  /** The filter-by-filter part: each non-empty filter adds a condition,
      joined by `WHERE` or `AND`, with the next placeholder number. */
  method BuildWhere(filters: CinemaFilters) returns (whereClause: string, args: seq<Arg>, argIndex: nat)
    ensures whereClause == WhereClause(filters)
    ensures args == FilterArgs(filters) && argIndex == |args| + 1
  {
    whereClause := "";
    args := [];
    argIndex := 1;
    if filters.city != "" {
      whereClause := whereClause + CityCond + Placeholder(argIndex);
      assert whereClause == CityCond + Placeholder(1);
      args := args + [Text(Contains(filters.city))];
      argIndex := argIndex + 1;
    }
    if filters.name != "" {
      if whereClause == "" {
        whereClause := whereClause + NameCondWhere + Placeholder(argIndex);
      } else {
        whereClause := whereClause + NameCondAnd + Placeholder(argIndex);
      }
      args := args + [Text(Contains(filters.name))];
      argIndex := argIndex + 1;
    }
  }

  // ---------------------------------------------------------------------
  // Placeholders line up with arguments

  lemma {:induction false} CountCharConcat(a: string, b: string, c: char)
    ensures CountChar(a + b, c) == CountChar(a, c) + CountChar(b, c)
  {
    if a == [] {
      assert a + b == b;
    } else {
      assert (a + b)[0] == a[0] && (a + b)[1..] == a[1..] + b;
      CountCharConcat(a[1..], b, c);
    }
  }

  lemma {:induction false} CountCharAbsent(s: string, c: char)
    requires c !in s
    ensures CountChar(s, c) == 0
  {
    if s != [] {
      assert s[0] in s;
      CountCharAbsent(s[1..], c);
    }
  }

  lemma PlaceholderCount(n: nat)
    ensures CountChar(Placeholder(n), '$') == 1
  {
    var d := NatToDecimal(n);
    assert '$' !in d by {
      forall i | 0 <= i < |d| ensures d[i] != '$' { assert IsDigit(d[i]); }
    }
    CountCharAbsent(d, '$');
    assert Placeholder(n)[1..] == d;
  }

  /** None of the fixed pieces of text holds a `$`. */
  lemma CountSelectCount() ensures CountChar(CountSelect, '$') == 0
  {
    assert '$' !in CountSelect;
    CountCharAbsent(CountSelect, '$');
  }

  lemma Columns1Count() ensures CountChar(Columns1, '$') == 0
  {
    assert '$' !in Columns1;
    CountCharAbsent(Columns1, '$');
  }

  lemma Columns2Count() ensures CountChar(Columns2, '$') == 0
  {
    assert '$' !in Columns2;
    CountCharAbsent(Columns2, '$');
  }

  lemma Columns3Count() ensures CountChar(Columns3, '$') == 0
  {
    assert '$' !in Columns3;
    CountCharAbsent(Columns3, '$');
  }

  lemma Columns4Count() ensures CountChar(Columns4, '$') == 0
  {
    assert '$' !in Columns4;
    CountCharAbsent(Columns4, '$');
  }

  lemma ColumnsCount() ensures CountChar(Columns1 + Columns2, '$') == 0
  {
    Columns1Count();
    Columns2Count();
    CountCharConcat(Columns1, Columns2, '$');
  }

  lemma MoreColumnsCount() ensures CountChar(Columns3 + Columns4, '$') == 0
  {
    Columns3Count();
    Columns4Count();
    CountCharConcat(Columns3, Columns4, '$');
  }

  lemma DataSelectCount() ensures CountChar(DataSelect, '$') == 0
  {
    ColumnsCount();
    MoreColumnsCount();
    CountCharConcat(Columns1 + Columns2, Columns3 + Columns4, '$');
    assert DataSelect == (Columns1 + Columns2) + (Columns3 + Columns4);
  }

  lemma ConditionsCount()
    ensures CountChar(CityCond, '$') == 0 && CountChar(NameCondWhere, '$') == 0
    ensures CountChar(NameCondAnd, '$') == 0
  {
    assert '$' !in CityCond && '$' !in NameCondWhere && '$' !in NameCondAnd;
    CountCharAbsent(CityCond, '$');
    CountCharAbsent(NameCondWhere, '$');
    CountCharAbsent(NameCondAnd, '$');
  }

  lemma PagingCount() ensures CountChar(OrderLimit, '$') == 0 && CountChar(OffsetKw, '$') == 0
  {
    assert '$' !in OrderLimit && '$' !in OffsetKw;
    CountCharAbsent(OrderLimit, '$');
    CountCharAbsent(OffsetKw, '$');
  }

  lemma WhereClauseCount(f: CinemaFilters)
    ensures CountChar(WhereClause(f), '$') == |FilterArgs(f)|
  {
    ConditionsCount();
    PlaceholderCount(1);
    PlaceholderCount(2);
    if f.city != "" && f.name != "" {
      CountCharConcat(CityCond, Placeholder(1), '$');
      CountCharConcat(CityCond + Placeholder(1), NameCondAnd, '$');
      CountCharConcat(CityCond + Placeholder(1) + NameCondAnd, Placeholder(2), '$');
    } else if f.city != "" {
      CountCharConcat(CityCond, Placeholder(1), '$');
    } else if f.name != "" {
      CountCharConcat(NameCondWhere, Placeholder(1), '$');
    }
  }

  /** Counting over a statement's six pieces. */
  lemma {:induction false} CountSix(a: string, b: string, c: string, d: string, e: string, f: string)
    ensures CountChar(a + b + c + d + e + f, '$')
      == CountChar(a, '$') + CountChar(b, '$') + CountChar(c, '$') + CountChar(d, '$')
         + CountChar(e, '$') + CountChar(f, '$')
  {
    CountCharConcat(a, b, '$');
    CountCharConcat(a + b, c, '$');
    CountCharConcat(a + b + c, d, '$');
    CountCharConcat(a + b + c + d, e, '$');
    CountCharConcat(a + b + c + d + e, f, '$');
  }

  /** The count statement carries one `$n` per filter argument. */
  lemma CountQueryPlaceholders(f: CinemaFilters)
    ensures CountChar(CountSelect + WhereClause(f), '$') == |FilterArgs(f)|
  {
    CountSelectCount();
    WhereClauseCount(f);
    CountCharConcat(CountSelect, WhereClause(f), '$');
  }

  /** The data statement carries one `$n` per argument: the filters', then
      LIMIT's and OFFSET's. */
  lemma DataQueryPlaceholders(page: int, limit: int, f: CinemaFilters)
    ensures CountChar(DataQuery(f), '$') == |FilterArgs(f) + [Int(limit), Int(Offset(page, limit))]|
  {
    var n := |FilterArgs(f)|;
    DataSelectCount();
    PagingCount();
    WhereClauseCount(f);
    PlaceholderCount(n + 1);
    PlaceholderCount(n + 2);
    CountSix(DataSelect, WhereClause(f), OrderLimit, Placeholder(n + 1), OffsetKw, Placeholder(n + 2));
  }

  // ---------------------------------------------------------------------
  // What the statements select

  /** The WHERE clause's condition; `ilike(text, pattern)` is PostgreSQL's
      case-insensitive pattern match. */
  predicate Matches(c: Cinema, f: CinemaFilters, ilike: (string, string) -> bool)
  {
    (f.city == "" || ilike(c.city, Contains(f.city))) && (f.name == "" || ilike(c.name, Contains(f.name)))
  }

  /** `ORDER BY name ASC`. */
  function NameKey(c: Cinema): SortKey { SortKey(0, c.name) }

  /** The matching cinemas, every one as often as the table holds it, by name. */
  function MatchingCinemas(cs: seq<Cinema>, f: CinemaFilters, ilike: (string, string) -> bool): (r: seq<Cinema>)
    ensures SortedBy(r, NameKey)
    ensures forall c :: multiset(r)[c] == if Matches(c, f, ilike) then multiset(cs)[c] else 0
  {
    var rows := Filter(cs, (c: Cinema) => Matches(c, f, ilike));
    FilterCount(cs, (c: Cinema) => Matches(c, f, ilike));
    SortBySorted(rows, NameKey);
    SortBy(rows, NameKey)
  }

  /** `SELECT … FROM cinemas WHERE id = $1`. */
  function FindCinema(cs: seq<Cinema>, id: int): (r: Option<Cinema>)
    ensures r.Some? ==> r.value in cs && r.value.id == id
    ensures r.None? <==> forall i :: 0 <= i < |cs| ==> cs[i].id != id
  {
    First(cs, (c: Cinema) => c.id == id)
  }

  /** One page of the matching cinemas and how many match in all: the result
      of running the two statements `BuildQueries` writes, whose text is
      proved about there. PostgreSQL rejects a negative LIMIT or OFFSET,
      which fails the data statement. */
  method GetAllCinemas(db: Database, page: int, limit: int, filters: CinemaFilters,
                       ilike: (string, string) -> bool, up: bool)
    returns (r: Result<(seq<Cinema>, int), Error>)
    ensures var offset := Offset(page, limit);
      up && limit >= 0 && offset >= 0 ==>
      r == Ok((Window(MatchingCinemas(db.cinemas, filters, ilike), offset, limit),
               |MatchingCinemas(db.cinemas, filters, ilike)|))
    ensures !up || limit < 0 || Offset(page, limit) < 0 ==> r == Err(Storage(CinemaListing))
  {
    if !up { return Err(Storage(CinemaListing)); }
    var matching := MatchingCinemas(db.cinemas, filters, ilike);
    var total := |matching|;
    var offset := Wrap64((page - 1) * limit);
    if limit < 0 || offset < 0 { return Err(Storage(CinemaListing)); }
    return Ok((Window(matching, offset, limit), total));
  }

  /** A missing cinema is no error: `Ok(None)`. */
  method GetCinemaByID(db: Database, id: int, up: bool) returns (r: Result<Option<Cinema>, Error>)
    ensures up ==> r == Ok(FindCinema(db.cinemas, id))
    ensures !up ==> r == Err(Storage(CinemaLookup))
  {
    if !up { return Err(Storage(CinemaLookup)); }
    return Ok(FindCinema(db.cinemas, id));
  }

  /** `INSERT INTO cinemas … RETURNING id`: the cinema as stored, with a fresh id. */
  method CreateCinema(db: Database, cinema: Cinema, up: bool) returns (r: Result<Cinema, Error>)
    requires db.CinemasValid()
    modifies db`cinemas, db`nextCinemaId
    ensures db.CinemasValid()
    ensures up ==> (r == Ok(cinema.(id := old(db.nextCinemaId)))
      && db.cinemas == old(db.cinemas) + [r.value] && db.nextCinemaId == old(db.nextCinemaId) + 1)
    ensures !up ==> (r == Err(Storage(CinemaInsert)) && db.cinemas == old(db.cinemas)
      && db.nextCinemaId == old(db.nextCinemaId))
  {
    if !up { return Err(Storage(CinemaInsert)); }
    var row := cinema.(id := db.nextCinemaId);
    KeyedAppend(db.cinemas, CinemaId, db.nextCinemaId, row);
    db.cinemas := db.cinemas + [row];
    db.nextCinemaId := db.nextCinemaId + 1;
    return Ok(row);
  }
}
