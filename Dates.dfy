/** Show dates at day granularity. Every date the system stores or compares
    goes through Go's layout "2006-01-02" (`time.Parse` on input, `Format` when
    it is handed to PostgreSQL), so a date is a (year, month, day) triple and
    the layout is a fixed-width YYYY-MM-DD text. */
module Dates {
  import opened Wrappers
  import opened Text

  datatype Date = Date(year: int, month: int, day: int)

  /** Gregorian leap years, as Go's `isLeap`. */
  predicate IsLeap(y: int) { y % 4 == 0 && (y % 100 != 0 || y % 400 == 0) }

  function DaysIn(year: int, month: int): (n: int)
    requires 1 <= month <= 12
    ensures 28 <= n <= 31
  {
    if month == 2 then (if IsLeap(year) then 29 else 28)
    else if month == 4 || month == 6 || month == 9 || month == 11 then 30
    else 31
  }

  predicate ValidDate(d: Date)
  {
    1 <= d.month <= 12 && 1 <= d.day <= DaysIn(d.year, d.month)
  }

  /** Dates the four-digit layout can represent. */
  predicate Representable(d: Date)
  {
    ValidDate(d) && 0 <= d.year <= 9999
  }

  /** `time.Parse("2006-01-02", s)` cut to the date: exactly four year digits,
      '-', two month digits, '-', two day digits, nothing after; the month must
      lie in 1..12 and the day within that month of that year. */
  function ParseDate(s: string): (r: Option<Date>)
    ensures r.Some? ==> Representable(r.value)
  {
    if |s| == 10 && AllDigits(s[0..4]) && s[4] == '-' && AllDigits(s[5..7]) && s[7] == '-'
       && AllDigits(s[8..10])
    then
      DecimalValueBound(s[0..4]);
      var d := Date(DecimalValue(s[0..4]), DecimalValue(s[5..7]), DecimalValue(s[8..10]));
      if ValidDate(d) then Some(d) else None
    else None
  }

  /** `t.Format("2006-01-02")`. */
  function FormatDate(d: Date): (s: string)
    requires Representable(d)
    ensures |s| == 10
  {
    PaddedDecimal(d.year, 4) + "-" + PaddedDecimal(d.month, 2) + "-" + PaddedDecimal(d.day, 2)
  }

  /** Every date the layout can hold is read back unchanged. */
  lemma ParseFormat(d: Date)
    requires Representable(d)
    ensures ParseDate(FormatDate(d)) == Some(d)
  {
    var s := FormatDate(d);
    assert s[0..4] == PaddedDecimal(d.year, 4);
    assert s[5..7] == PaddedDecimal(d.month, 2);
    assert s[8..10] == PaddedDecimal(d.day, 2);
    assert Pow10(4) == 10000 && Pow10(2) == 100;
    PaddedDecimalValue(d.year, 4);
    PaddedDecimalValue(d.month, 2);
    PaddedDecimalValue(d.day, 2);
  }

  /** Every text ParseDate accepts is the canonical rendering of its date, so
      two accepted strings denote the same day exactly when they are equal. */
  lemma FormatParse(s: string)
    requires ParseDate(s).Some?
    ensures FormatDate(ParseDate(s).value) == s
  {
    var d := ParseDate(s).value;
    var y, m, dd := s[0..4], s[5..7], s[8..10];
    assert AllDigits(y) && AllDigits(m) && AllDigits(dd);
    assert d == Date(DecimalValue(y), DecimalValue(m), DecimalValue(dd));
    PaddedDecimalOfValue(y);
    PaddedDecimalOfValue(m);
    PaddedDecimalOfValue(dd);
    calc {
      FormatDate(d);
      PaddedDecimal(d.year, 4) + "-" + PaddedDecimal(d.month, 2) + "-" + PaddedDecimal(d.day, 2);
      y + "-" + m + "-" + dd;
      s;
    }
  }

  // ---------------------------------------------------------------------
  // Calendar arithmetic used by the seeder (`time.Now().AddDate(0, 0, i)`)

  predicate Before(a: Date, b: Date)
  {
    a.year < b.year
    || (a.year == b.year && (a.month < b.month || (a.month == b.month && a.day < b.day)))
  }

  function NextDay(d: Date): (r: Date)
    requires ValidDate(d)
    ensures ValidDate(r) && Before(d, r)
  {
    if d.day < DaysIn(d.year, d.month) then d.(day := d.day + 1)
    else if d.month < 12 then Date(d.year, d.month + 1, 1)
    else Date(d.year + 1, 1, 1)
  }

  /** The calendar day `n` days after `d`, normalised across month and year
      ends as `AddDate` does. */
  function AddDays(d: Date, n: nat): (r: Date)
    requires ValidDate(d)
    ensures ValidDate(r)
  {
    if n == 0 then d else NextDay(AddDays(d, n - 1))
  }

  lemma {:induction false} BeforeTransitive(a: Date, b: Date, c: Date)
    requires Before(a, b) && Before(b, c)
    ensures Before(a, c)
  {
  }

  /** Adding more days gives a strictly later date; in particular the ten
      seeding days are ten different dates. */
  lemma {:induction false} AddDaysIncreasing(d: Date, i: nat, j: nat)
    requires ValidDate(d) && i < j
    ensures Before(AddDays(d, i), AddDays(d, j))
  {
    if j == i + 1 {
    } else {
      AddDaysIncreasing(d, i, j - 1);
      BeforeTransitive(AddDays(d, i), AddDays(d, j - 1), AddDays(d, j));
    }
  }
}
