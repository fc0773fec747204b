/** Character-level helpers shared by the model: decimal rendering as done by
    Go's `%d` verb, the integer scan behind `fmt.Sscanf("%d")`, `strings.Split`
    on a one-character separator, and byte-wise string ordering. */
module Text {
  import opened Wrappers

  predicate IsDigit(c: char) { '0' <= c <= '9' }

  predicate AllDigits(s: string) { forall i :: 0 <= i < |s| ==> IsDigit(s[i]) }

  function DigitChar(d: nat): (c: char)
    requires d < 10
    ensures IsDigit(c) && DigitValue(c) == d
  {
    ('0' as int + d) as char
  }

  function DigitValue(c: char): nat
    requires IsDigit(c)
  {
    c as int - '0' as int
  }

  /** The value of a string of decimal digits, most significant first. */
  function DecimalValue(s: string): nat
    requires AllDigits(s)
  {
    if s == [] then 0 else DecimalValue(s[..|s| - 1]) * 10 + DigitValue(s[|s| - 1])
  }

  /** Decimal rendering of a natural number without leading zeros (`%d`). */
  function NatToDecimal(n: nat): (s: string)
    ensures |s| >= 1 && AllDigits(s)
    ensures n < 10 ==> |s| == 1
  {
    if n < 10 then [DigitChar(n)] else NatToDecimal(n / 10) + [DigitChar(n % 10)]
  }

  /** `%d` of a Go int: a minus sign for negative values. */
  function IntToDecimal(i: int): (s: string)
    ensures |s| >= 1
  {
    if i < 0 then "-" + NatToDecimal(-i) else NatToDecimal(i)
  }

  lemma {:induction false} NatToDecimalValue(n: nat)
    ensures DecimalValue(NatToDecimal(n)) == n
  {
    if n >= 10 {
      var s := NatToDecimal(n);
      assert s[..|s| - 1] == NatToDecimal(n / 10);
      NatToDecimalValue(n / 10);
    }
  }

  /** Exactly `width` digits of `n`, zero-padded on the left (Go's `01`/`2006` layouts). */
  function PaddedDecimal(n: nat, width: nat): (s: string)
    ensures |s| == width && AllDigits(s)
  {
    if width == 0 then [] else PaddedDecimal(n / 10, width - 1) + [DigitChar(n % 10)]
  }

  function Pow10(k: nat): (p: nat)
    ensures p >= 1
  {
    if k == 0 then 1 else 10 * Pow10(k - 1)
  }

  lemma {:induction false} PaddedDecimalValue(n: nat, width: nat)
    requires n < Pow10(width)
    ensures DecimalValue(PaddedDecimal(n, width)) == n
  {
    if width > 0 {
      var s := PaddedDecimal(n, width);
      assert s[..|s| - 1] == PaddedDecimal(n / 10, width - 1);
      assert n / 10 < Pow10(width - 1);
      PaddedDecimalValue(n / 10, width - 1);
    } else {
      assert n == 0;
    }
  }

  lemma {:induction false} PaddedDecimalOfValue(s: string)
    requires AllDigits(s)
    ensures PaddedDecimal(DecimalValue(s), |s|) == s
  {
    if s != [] {
      var init := s[..|s| - 1];
      var v := DecimalValue(s);
      assert v / 10 == DecimalValue(init) && v % 10 == DigitValue(s[|s| - 1]);
      PaddedDecimalOfValue(init);
      assert s == init + [s[|s| - 1]];
    }
  }

  lemma {:induction false} DecimalValueBound(s: string)
    requires AllDigits(s)
    ensures DecimalValue(s) < Pow10(|s|)
  {
    if s != [] {
      DecimalValueBound(s[..|s| - 1]);
    }
  }

  // ---------------------------------------------------------------------
  // fmt.Sscanf(s, "%d", &id)

  const MinInt64: int := -0x8000_0000_0000_0000
  const MaxInt64: int := 0x7FFF_FFFF_FFFF_FFFF

  /** Go's 64-bit `int` arithmetic: the exact value taken back into
      MinInt64..MaxInt64 modulo 2^64, as an overflowing product wraps. */
  function Wrap64(x: int): (w: int)
    ensures MinInt64 <= w <= MaxInt64
    ensures (x - w) % 0x1_0000_0000_0000_0000 == 0
    ensures MinInt64 <= x <= MaxInt64 ==> w == x
  {
    var m := 0x1_0000_0000_0000_0000;
    var w := (x - MinInt64) % m + MinInt64;
    assert x - w == (x - MinInt64) / m * m;
    w
  }

  /** Length of the run of characters at the start of `s` that `%d` accepts
      as part of a number: decimal digits and the underscore. */
  function TokenLength(s: string): (n: nat)
    ensures n <= |s|
    ensures forall i :: 0 <= i < n ==> IsDigit(s[i]) || s[i] == '_'
    ensures n < |s| ==> !IsDigit(s[n]) && s[n] != '_'
  {
    if s != [] && (IsDigit(s[0]) || s[0] == '_') then 1 + TokenLength(s[1..]) else 0
  }

  /** `fmt.Sscanf(s, "%d", &v)` into a Go int: leading spaces are skipped (only
      ' ' here; Go's scanner also skips the other white space but newlines), an
      optional sign is accepted, then the maximal run of digits and underscores
      is handed to `strconv.ParseInt(tok, 10, 64)`, which rejects an empty run,
      an underscore and a value outside int64. Text after the number is ignored. */
  function ScanInt(s: string): (r: Option<int>)
    ensures r.Some? ==> MinInt64 <= r.value <= MaxInt64
  {
    if s != [] && s[0] == ' ' then ScanInt(s[1..])
    else
      var neg := s != [] && s[0] == '-';
      var body := if s != [] && (s[0] == '-' || s[0] == '+') then s[1..] else s;
      var tok := body[..TokenLength(body)];
      if tok == [] || !AllDigits(tok) then None
      else
        var v: int := if neg then 0 - DecimalValue(tok) else DecimalValue(tok);
        if MinInt64 <= v <= MaxInt64 then Some(v) else None
  }

  lemma TokenOfDecimal(n: nat, rest: string)
    requires rest == [] || (!IsDigit(rest[0]) && rest[0] != '_')
    ensures var s := NatToDecimal(n) + rest; s[..TokenLength(s)] == NatToDecimal(n)
  {
    var d := NatToDecimal(n);
    var s := d + rest;
    var k := 0;
    while k < |d|
      invariant 0 <= k <= |d|
      invariant TokenLength(s[|d| - k..]) == k
      decreases |d| - k
    {
      assert s[|d| - k - 1..][1..] == s[|d| - k..];
      k := k + 1;
    }
    assert s[0..] == s;
  }

  /** What `%d` prints, `%d` reads back: the user id a session token carries
      as its subject survives the round trip. */
  lemma ScanIntOfDecimal(i: int)
    requires MinInt64 <= i <= MaxInt64
    ensures ScanInt(IntToDecimal(i)) == Some(i)
  {
    var d := NatToDecimal(if i < 0 then -i else i);
    TokenOfDecimal(if i < 0 then -i else i, []);
    assert d + [] == d;
    NatToDecimalValue(if i < 0 then -i else i);
    if i < 0 {
      assert IntToDecimal(i)[1..] == d;
    }
  }

  // ---------------------------------------------------------------------
  // strings.Split with a one-character separator

  function CountChar(s: string, c: char): (n: nat)
    ensures n <= |s|
  {
    if s == [] then 0 else (if s[0] == c then 1 else 0) + CountChar(s[1..], c)
  }

  /** `strings.Split(s, string(c))`: the pieces between successive occurrences
      of `c`, empty pieces included; the empty string splits into one empty piece. */
  function Split(s: string, c: char): (parts: seq<string>)
    ensures |parts| == CountChar(s, c) + 1
    ensures forall i :: 0 <= i < |parts| ==> c !in parts[i]
  {
    if s == [] then [[]]
    else
      var rest := Split(s[1..], c);
      if s[0] == c then [[]] + rest else [[s[0]] + rest[0]] + rest[1..]
  }

  /** `strings.Join(parts, string(c))`, the inverse of Split. */
  function Join(parts: seq<string>, c: char): string
    requires |parts| >= 1
  {
    if |parts| == 1 then parts[0] else parts[0] + [c] + Join(parts[1..], c)
  }

  lemma {:induction false} JoinSplit(s: string, c: char)
    ensures Join(Split(s, c), c) == s
  {
    if s != [] {
      var rest := Split(s[1..], c);
      JoinSplit(s[1..], c);
      if s[0] != c {
        var parts := Split(s, c);
        if |rest| == 1 {
          assert parts == [[s[0]] + rest[0]];
        } else {
          assert parts[1..] == rest[1..];
          assert Join(parts, c) == [s[0]] + rest[0] + [c] + Join(rest[1..], c);
        }
      } else {
        assert Split(s, c)[1..] == rest;
      }
    }
  }

  lemma {:induction false} SplitNoSeparator(s: string, c: char)
    requires c !in s
    ensures Split(s, c) == [s]
  {
    if s != [] {
      assert s[0] in s;
      SplitNoSeparator(s[1..], c);
      assert [s[0]] + s[1..] == s;
    }
  }

  lemma {:induction false} SplitPrefix(p: string, s: string, c: char)
    requires c !in p
    ensures Split(p + [c] + s, c) == [p] + Split(s, c)
  {
    if p == [] {
      assert ([] + [c] + s)[1..] == s;
    } else {
      assert p[0] in p;
      assert (p + [c] + s)[1..] == p[1..] + [c] + s;
      SplitPrefix(p[1..], s, c);
      assert [p[0]] + p[1..] == p;
    }
  }

  // ---------------------------------------------------------------------
  // Byte-wise string order (PostgreSQL's "C" collation)

  predicate StrLE(a: string, b: string)
  {
    if a == [] then true
    else if b == [] then false
    else if a[0] != b[0] then a[0] < b[0]
    else StrLE(a[1..], b[1..])
  }

  lemma {:induction false} StrLETotal(a: string, b: string)
    ensures StrLE(a, b) || StrLE(b, a)
  {
    if a != [] && b != [] && a[0] == b[0] {
      StrLETotal(a[1..], b[1..]);
    }
  }

  lemma {:induction false} StrLETransitive(a: string, b: string, c: string)
    requires StrLE(a, b) && StrLE(b, c)
    ensures StrLE(a, c)
  {
    if a != [] && b != [] && c != [] && a[0] == b[0] && b[0] == c[0] {
      StrLETransitive(a[1..], b[1..], c[1..]);
    }
  }
}
