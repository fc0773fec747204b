/** The page arithmetic shared by the booking and cinema listings: the
    defaults for out-of-range `page` and `limit`, and the page count. */
module Pagination {
  import Text
  /** `if page < 1 { page = 1 }`. */
  function ClampPage(page: int): (p: int)
    ensures p >= 1
    ensures page >= 1 ==> p == page
    ensures page < 1 ==> p == 1
  {
    if page < 1 then 1 else page
  }

  /** `if limit < 1 || limit > 100 { limit = 10 }`. */
  function ClampLimit(limit: int): (l: int)
    ensures 1 <= l <= 100
    ensures 1 <= limit <= 100 ==> l == limit
    ensures !(1 <= limit <= 100) ==> l == 10
  {
    if limit < 1 || limit > 100 then 10 else limit
  }

  /** Go's integer division, which truncates toward zero (Dafny's `/`
      rounds toward negative infinity for a positive divisor). */
  function GoDiv(a: int, b: int): (q: int)
    requires b > 0
    ensures a >= 0 ==> q * b <= a < q * b + b
    ensures a < 0 ==> q * b - b < a <= q * b
  {
    if a >= 0 then a / b else -((-a) / b)
  }

  /** `(total + limit - 1) / limit`. */
  function TotalPages(total: int, limit: int): int
    requires limit > 0
  {
    GoDiv(total + limit - 1, limit)
  }

  /** The page count is the ceiling of `total / limit`: the pages hold every
      row, and one page fewer would not. */
  lemma TotalPagesCeiling(total: int, limit: int)
    requires total >= 0 && limit > 0
    ensures TotalPages(total, limit) * limit >= total
    ensures (TotalPages(total, limit) - 1) * limit < total
    ensures TotalPages(total, limit) >= 0
  {
    var q := TotalPages(total, limit);
    assert q * limit <= total + limit - 1 < q * limit + limit;
  }

  /** `offset := (page - 1) * limit` in the repositories, computed in Go's
      64-bit `int`: a product outside its range wraps around. */
  function Offset(page: int, limit: int): (o: int)
    ensures Text.MinInt64 <= o <= Text.MaxInt64
    ensures Text.MinInt64 <= (page - 1) * limit <= Text.MaxInt64 ==> o == (page - 1) * limit
  {
    Text.Wrap64((page - 1) * limit)
  }

  /** A page far enough out wraps the offset: back to the first row, or
      below zero, which the listing statement refuses. */
  lemma OffsetWraps()
    ensures Offset(0x4000_0000_0000_0001, 4) == 0
    ensures Offset(Text.MaxInt64, 10) == -20
  {
    assert (0x4000_0000_0000_0001 - 1) * 4 == 0x1_0000_0000_0000_0000;
    assert (Text.MaxInt64 - 1) * 10 == 5 * 0x1_0000_0000_0000_0000 - 20;
  }

  /** The clamped page and limit reach the listing statements, which fail on
      a negative LIMIT or OFFSET, with a positive limit; and while the
      product `(page - 1) * limit` fits in a Go `int` the offset is that
      product and not negative. Only a page beyond that range wraps. */
  lemma ClampedPagingAccepted(page: int, limit: int)
    ensures var p, l := ClampPage(page), ClampLimit(limit);
      l > 0 && ((p - 1) * l <= Text.MaxInt64 ==> Offset(p, l) == (p - 1) * l >= 0)
  {
    var p, l := ClampPage(page), ClampLimit(limit);
    assert p - 1 >= 0 && l > 0;
    assert (p - 1) * l >= 0;
  }
}
