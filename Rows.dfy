/** What the repositories' SELECT statements do to a table, as functions on
    sequences of rows: `WHERE` (Filter), `ORDER BY <insertion time> DESC`
    (NewestFirst), `ORDER BY <int>, <text>` (SortBy) and `LIMIT/OFFSET` (Window).
    Each is defined by peeling the LAST row, so that a loop scanning a table
    from the front extends the definition one row at a time. */
module Rows {
  import opened Wrappers
  import opened Text

  // ---------------------------------------------------------------------
  // WHERE

  function Filter<T>(s: seq<T>, keep: T -> bool): (r: seq<T>)
    ensures |r| <= |s|
  {
    if s == [] then [] else
      var init := Filter(s[..|s| - 1], keep);
      if keep(s[|s| - 1]) then init + [s[|s| - 1]] else init
  }

  lemma {:induction false} FilterMembers<T>(s: seq<T>, keep: T -> bool)
    ensures forall x :: x in Filter(s, keep) <==> x in s && keep(x)
  {
    if s != [] {
      FilterMembers(s[..|s| - 1], keep);
      assert s == s[..|s| - 1] + [s[|s| - 1]];
    }
  }

  /** `WHERE` keeps every matching row as often as the table holds it, and no other row. */
  lemma {:induction false} FilterCount<T>(s: seq<T>, keep: T -> bool)
    ensures forall x :: multiset(Filter(s, keep))[x] == if keep(x) then multiset(s)[x] else 0
  {
    if s != [] {
      FilterCount(s[..|s| - 1], keep);
      assert s == s[..|s| - 1] + [s[|s| - 1]];
    }
  }

  lemma {:induction false} FilterAll<T>(s: seq<T>, keep: T -> bool)
    requires forall i :: 0 <= i < |s| ==> keep(s[i])
    ensures Filter(s, keep) == s
  {
    if s != [] {
      FilterAll(s[..|s| - 1], keep);
      assert s == s[..|s| - 1] + [s[|s| - 1]];
    }
  }

  /** Two `WHERE` conditions applied one after the other select what their
      conjunction selects. */
  lemma {:induction false} FilterFilter<T>(s: seq<T>, first: T -> bool, second: T -> bool, both: T -> bool)
    requires forall x :: both(x) == (first(x) && second(x))
    ensures Filter(Filter(s, first), second) == Filter(s, both)
  {
    if s != [] {
      var init, last := s[..|s| - 1], s[|s| - 1];
      FilterFilter(init, first, second, both);
      var once := Filter(init, first);
      if first(last) {
        assert (once + [last])[..|once + [last]| - 1] == once;
      }
    }
  }

  /** A row is kept or dropped, never both: the two halves of a table split
      by a test and its negation add up to the table. */
  lemma {:induction false} FilterPartition<T>(s: seq<T>, keep: T -> bool, drop: T -> bool)
    requires forall x :: drop(x) == !keep(x)
    ensures multiset(Filter(s, keep)) + multiset(Filter(s, drop)) == multiset(s)
    ensures |Filter(s, keep)| + |Filter(s, drop)| == |s|
  {
    if s != [] {
      var init, last := s[..|s| - 1], s[|s| - 1];
      FilterPartition(init, keep, drop);
      assert s == init + [last];
      assert multiset(s) == multiset(init) + multiset{last};
    }
  }

  /** `QueryRow` on a `WHERE` query: the first matching row, or no row. */
  function First<T>(s: seq<T>, keep: T -> bool): (r: Option<T>)
    ensures r.Some? ==> r.value in s && keep(r.value)
    ensures r.None? ==> forall i :: 0 <= i < |s| ==> !keep(s[i])
  {
    if s == [] then None
    else if keep(s[0]) then Some(s[0])
    else First(s[1..], keep)
  }

  // ---------------------------------------------------------------------
  // Table integrity: SERIAL ids and insertion timestamps

  /** Ids are handed out by a counter: strictly increasing in insertion
      order and below the counter's next value. */
  predicate Keyed<T>(s: seq<T>, id: T -> int, next: int)
  {
    (forall i, j :: 0 <= i < j < |s| ==> id(s[i]) < id(s[j]))
    && (forall i :: 0 <= i < |s| ==> id(s[i]) < next)
  }

  /** Rows are stamped with the clock when inserted: never decreasing in
      insertion order and never ahead of the clock. */
  predicate Stamped<T>(s: seq<T>, stamp: T -> int, now: int)
  {
    Ascending(s, stamp) && forall i :: 0 <= i < |s| ==> stamp(s[i]) <= now
  }

  lemma KeyedAppend<T>(s: seq<T>, id: T -> int, next: int, x: T)
    requires Keyed(s, id, next) && id(x) == next
    ensures Keyed(s + [x], id, next + 1)
  {
    assert forall i :: 0 <= i < |s| ==> (s + [x])[i] == s[i];
  }

  lemma StampedAppend<T>(s: seq<T>, stamp: T -> int, now: int, x: T)
    requires Stamped(s, stamp, now) && stamp(x) == now
    ensures Stamped(s + [x], stamp, now)
  {
    assert forall i :: 0 <= i < |s| ==> (s + [x])[i] == s[i];
  }

  /** `DELETE … WHERE` keeps a subsequence, so the ids stay increasing. */
  lemma {:induction false} FilterKeyed<T>(s: seq<T>, keep: T -> bool, id: T -> int, next: int)
    requires Keyed(s, id, next)
    ensures Keyed(Filter(s, keep), id, next)
  {
    if s != [] {
      var init, last := s[..|s| - 1], s[|s| - 1];
      FilterKeyed(init, keep, id, id(last));
      var f := Filter(init, keep);
      if keep(last) {
        assert forall i :: 0 <= i < |f| ==> (f + [last])[i] == f[i];
      }
    }
  }

  /** … and the timestamps stay ascending. */
  lemma {:induction false} FilterStamped<T>(s: seq<T>, keep: T -> bool, stamp: T -> int, now: int)
    requires Stamped(s, stamp, now)
    ensures Stamped(Filter(s, keep), stamp, now)
  {
    if s != [] {
      var init, last := s[..|s| - 1], s[|s| - 1];
      FilterStamped(init, keep, stamp, stamp(last));
      var f := Filter(init, keep);
      if keep(last) {
        assert forall i :: 0 <= i < |f| ==> (f + [last])[i] == f[i];
      }
    }
  }

  /** With distinct ids, the row a lookup by id returns is the only one. */
  lemma KeyedUnique<T>(s: seq<T>, id: T -> int, next: int, i: int, j: int)
    requires Keyed(s, id, next)
    requires 0 <= i < |s| && 0 <= j < |s| && id(s[i]) == id(s[j])
    ensures i == j
  {
  }

  // ---------------------------------------------------------------------
  // ORDER BY <insertion timestamp> DESC

  /** The kept rows, most recently inserted first. */
  function NewestFirst<T>(s: seq<T>, keep: T -> bool): (r: seq<T>)
    ensures |r| == |Filter(s, keep)|
  {
    if s == [] then [] else
      var rest := NewestFirst(s[..|s| - 1], keep);
      if keep(s[|s| - 1]) then [s[|s| - 1]] + rest else rest
  }

  lemma {:induction false} NewestFirstMembers<T>(s: seq<T>, keep: T -> bool)
    ensures forall x :: x in NewestFirst(s, keep) <==> x in s && keep(x)
  {
    if s != [] {
      NewestFirstMembers(s[..|s| - 1], keep);
      assert s == s[..|s| - 1] + [s[|s| - 1]];
    }
  }

  predicate Ascending<T>(s: seq<T>, stamp: T -> int)
  {
    forall i, j :: 0 <= i < j < |s| ==> stamp(s[i]) <= stamp(s[j])
  }

  predicate Descending<T>(s: seq<T>, stamp: T -> int)
  {
    forall i, j :: 0 <= i < j < |s| ==> stamp(s[i]) >= stamp(s[j])
  }

  lemma {:induction false} NewestFirstBounded<T>(s: seq<T>, keep: T -> bool, stamp: T -> int, bound: int)
    requires forall i :: 0 <= i < |s| ==> stamp(s[i]) <= bound
    ensures forall i :: 0 <= i < |NewestFirst(s, keep)| ==> stamp(NewestFirst(s, keep)[i]) <= bound
  {
    if s != [] {
      NewestFirstBounded(s[..|s| - 1], keep, stamp, bound);
    }
  }

  /** When rows are inserted with non-decreasing timestamps, newest-first
      order is `ORDER BY timestamp DESC`. */
  lemma {:induction false} NewestFirstDescending<T>(s: seq<T>, keep: T -> bool, stamp: T -> int)
    requires Ascending(s, stamp)
    ensures Descending(NewestFirst(s, keep), stamp)
  {
    if s != [] {
      var init := s[..|s| - 1];
      NewestFirstDescending(init, keep, stamp);
      NewestFirstBounded(init, keep, stamp, stamp(s[|s| - 1]));
    }
  }

  // ---------------------------------------------------------------------
  // LIMIT limit OFFSET offset

  function Window<T>(s: seq<T>, offset: nat, limit: nat): (r: seq<T>)
    ensures |r| == if offset >= |s| then 0 else if |s| - offset < limit then |s| - offset else limit
    ensures forall k :: 0 <= k < |r| ==> r[k] == s[offset + k]
  {
    if offset >= |s| then []
    else if offset + limit >= |s| then s[offset..]
    else s[offset..offset + limit]
  }

  // ---------------------------------------------------------------------
  // ORDER BY <int column>, <text column>

  /** The sort key of a row: an integer column, then a text column compared
      byte by byte. */
  datatype SortKey = SortKey(major: int, minor: string)

  predicate KeyLE(a: SortKey, b: SortKey)
  {
    a.major < b.major || (a.major == b.major && StrLE(a.minor, b.minor))
  }

  lemma KeyLETotal(a: SortKey, b: SortKey)
    ensures KeyLE(a, b) || KeyLE(b, a)
  {
    StrLETotal(a.minor, b.minor);
  }

  lemma KeyLETransitive(a: SortKey, b: SortKey, c: SortKey)
    requires KeyLE(a, b) && KeyLE(b, c)
    ensures KeyLE(a, c)
  {
    if a.major == b.major == c.major {
      StrLETransitive(a.minor, b.minor, c.minor);
    }
  }

  predicate SortedBy<T>(s: seq<T>, key: T -> SortKey)
  {
    forall i, j :: 0 <= i < j < |s| ==> KeyLE(key(s[i]), key(s[j]))
  }

  /** Insertion into a sorted run: before the first row it does not exceed. */
  function InsertBy<T>(x: T, s: seq<T>, key: T -> SortKey): (r: seq<T>)
    ensures multiset(r) == multiset(s) + multiset{x}
  {
    if s == [] || KeyLE(key(x), key(s[0])) then [x] + s
    else
      assert s == [s[0]] + s[1..];
      [s[0]] + InsertBy(x, s[1..], key)
  }

  lemma {:induction false} InsertBySorted<T>(x: T, s: seq<T>, key: T -> SortKey)
    requires SortedBy(s, key)
    ensures SortedBy(InsertBy(x, s, key), key)
  {
    var r := InsertBy(x, s, key);
    if s == [] {
    } else if KeyLE(key(x), key(s[0])) {
      forall j | 1 <= j < |r| ensures KeyLE(key(x), key(r[j])) {
        if j > 1 { KeyLETransitive(key(x), key(s[0]), key(s[j - 1])); }
      }
    } else {
      KeyLETotal(key(x), key(s[0]));
      var tail := InsertBy(x, s[1..], key);
      InsertBySorted(x, s[1..], key);
      forall j | 0 <= j < |tail| ensures KeyLE(key(s[0]), key(tail[j])) {
        assert tail[j] in multiset(tail);
        assert tail[j] == x || tail[j] in multiset(s[1..]);
        if tail[j] != x {
          var k :| 1 <= k < |s| && s[k] == tail[j] by {
            assert tail[j] in s[1..];
            var m :| 0 <= m < |s[1..]| && s[1..][m] == tail[j];
            assert s[m + 1] == tail[j];
          }
        }
      }
      assert r == [s[0]] + tail;
    }
  }

  /** `ORDER BY key` of a whole sequence, by insertion sort. Rows with equal
      keys come out in reverse table order: SQL leaves that order open, and
      this is the one the model picks. */
  function SortBy<T>(s: seq<T>, key: T -> SortKey): (r: seq<T>)
    ensures multiset(r) == multiset(s)
  {
    if s == [] then [] else
      assert s == s[..|s| - 1] + [s[|s| - 1]];
      InsertBy(s[|s| - 1], SortBy(s[..|s| - 1], key), key)
  }

  lemma {:induction false} SortBySorted<T>(s: seq<T>, key: T -> SortKey)
    ensures SortedBy(SortBy(s, key), key)
  {
    if s != [] {
      SortBySorted(s[..|s| - 1], key);
      InsertBySorted(s[|s| - 1], SortBy(s[..|s| - 1], key), key);
    }
  }
}
