/**
 * The row selections the dashboard applies before charting (app.py:50-65
 * and the comparison gate at app.py:117), over readings whose timestamps
 * have already been parsed.  Times are abstract instants ordered as
 * integers; year and day of year are given with each reading.
 */
module Selection {

  import opened Wrappers
  import opened Sequences

  /** One row of the ingested table; `None` stands for an empty (NaN) cell. */
  datatype Reading = Reading(
    time: int,
    year: int,
    day: int,
    pm25: real,
    city: Option<string>,
    name: Option<string>,
    lon: Option<real>,
    lat: Option<real>)

  /** The selector entry that leaves the rows unfiltered. */
  const All: string := "All"

  /**
   * The city selector: with no "City" column, or with "All" chosen, nothing
   * is filtered; otherwise exactly the readings of the chosen city remain.
   */
  function SelectCity(rows: seq<Reading>, hasCity: bool, choice: string): (r: seq<Reading>)
    ensures !hasCity || choice == All ==> r == rows
    ensures hasCity && choice != All ==> forall x :: x in r <==> x in rows && x.city == Some(choice)
    ensures hasCity && choice != All ==>
      forall x :: multiset(r)[x] == if x.city == Some(choice) then multiset(rows)[x] else 0
  {
    if !hasCity || choice == All then rows
    else
      var p := (x: Reading) => x.city == Some(choice);
      forall x ensures multiset(Filter(rows, p))[x] == if p(x) then multiset(rows)[x] else 0 {
        FilterMultiset(rows, p, x);
      }
      Filter(rows, p)
  }

  /** The monitor selector, the same rule over the "Name" column. */
  function SelectMonitor(rows: seq<Reading>, hasName: bool, choice: string): (r: seq<Reading>)
    ensures !hasName || choice == All ==> r == rows
    ensures hasName && choice != All ==> forall x :: x in r <==> x in rows && x.name == Some(choice)
    ensures hasName && choice != All ==>
      forall x :: multiset(r)[x] == if x.name == Some(choice) then multiset(rows)[x] else 0
  {
    if !hasName || choice == All then rows
    else
      var p := (x: Reading) => x.name == Some(choice);
      forall x ensures multiset(Filter(rows, p))[x] == if p(x) then multiset(rows)[x] else 0 {
        FilterMultiset(rows, p, x);
      }
      Filter(rows, p)
  }

  /** Both selectors keep the surviving readings in their original order. */
  lemma SelectionKeepsOrder(a: seq<Reading>, b: seq<Reading>, has: bool, choice: string)
    ensures SelectCity(a + b, has, choice) == SelectCity(a, has, choice) + SelectCity(b, has, choice)
    ensures SelectMonitor(a + b, has, choice) == SelectMonitor(a, has, choice) + SelectMonitor(b, has, choice)
  {
    FilterConcat(a, b, (x: Reading) => x.city == Some(choice));
    FilterConcat(a, b, (x: Reading) => x.name == Some(choice));
  }

  /** The readings from `start` to `end`, both included, in their original order. */
  function Window(rows: seq<Reading>, start: int, end: int): (r: seq<Reading>)
    ensures forall x :: multiset(r)[x] == if start <= x.time <= end then multiset(rows)[x] else 0
  {
    var p := (x: Reading) => start <= x.time <= end;
    forall x ensures multiset(Filter(rows, p))[x] == if p(x) then multiset(rows)[x] else 0 {
      FilterMultiset(rows, p, x);
    }
    Filter(rows, p)
  }

  predicate SortedByTime(s: seq<Reading>)
  {
    forall i, j :: 0 <= i < j < |s| ==> s[i].time <= s[j].time
  }

  /** Places `x` before the first later reading of a time-sorted list. */
  function InsertByTime(x: Reading, s: seq<Reading>): (r: seq<Reading>)
    requires SortedByTime(s)
    ensures SortedByTime(r)
    ensures multiset(r) == multiset(s) + multiset{x}
  {
    if s == [] then [x]
    else if x.time <= s[0].time then [x] + s
    else
      var rest := InsertByTime(x, s[1..]);
      BelowAll(s, x, rest);
      ConsSorted(s[0], rest);
      assert s == [s[0]] + s[1..];
      [s[0]] + rest
  }

  /** The head of a sorted list is no later than anything in its tail, nor than a later `x`. */
  lemma BelowAll(s: seq<Reading>, x: Reading, rest: seq<Reading>)
    requires SortedByTime(s) && |s| > 0 && s[0].time < x.time
    requires multiset(rest) == multiset(s[1..]) + multiset{x}
    ensures forall y :: y in rest ==> s[0].time <= y.time
  {
    forall y | y in rest ensures s[0].time <= y.time {
      assert y in multiset(rest);
      if y != x {
        assert y in multiset(s[1..]);
        var k :| 0 <= k < |s[1..]| && s[1..][k] == y;
        assert s[k + 1] == y;
      }
    }
  }

  /** A reading no later than everything in a sorted list can go in front of it. */
  lemma ConsSorted(h: Reading, rest: seq<Reading>)
    requires SortedByTime(rest)
    requires forall y :: y in rest ==> h.time <= y.time
    ensures SortedByTime([h] + rest)
  {
    var r := [h] + rest;
    forall i, j | 0 <= i < j < |r| ensures r[i].time <= r[j].time {
      assert r[j] == rest[j - 1];
      if i > 0 {
        assert r[i] == rest[i - 1];
      } else {
        assert rest[j - 1] in rest;
      }
    }
  }

  /** `sort_index`: the same readings, ordered by time. */
  function SortByTime(s: seq<Reading>): (r: seq<Reading>)
    ensures SortedByTime(r)
    ensures multiset(r) == multiset(s)
  {
    if s == [] then []
    else
      assert s == [s[0]] + s[1..];
      InsertByTime(s[0], SortByTime(s[1..]))
  }

  /**
   * The date-range filter and the sort after it: readings from `start` to
   * `end`, both included, each with its multiplicity, in ascending time.
   */
  function DateRange(rows: seq<Reading>, start: int, end: int): (r: seq<Reading>)
    ensures SortedByTime(r)
    ensures forall x :: multiset(r)[x] == if start <= x.time <= end then multiset(rows)[x] else 0
    ensures forall x :: x in r <==> x in rows && start <= x.time <= end
  {
    SortByTime(Window(rows, start, end))
  }

  /**
   * The rows of the time-series view: the city selector, then the monitor
   * selector, then the date range and the sort: exactly the readings in the
   * range that match every selector that is set, in ascending time.
   */
  function SeriesRows(rows: seq<Reading>, hasCity: bool, city: string, hasName: bool, name: string, start: int, end: int): (r: seq<Reading>)
    ensures SortedByTime(r)
    ensures forall x :: x in r <==>
      x in rows && start <= x.time <= end &&
      (hasCity && city != All ==> x.city == Some(city)) &&
      (hasName && name != All ==> x.name == Some(name))
    ensures forall x ::
      multiset(r)[x] ==
        if start <= x.time <= end &&
           (hasCity && city != All ==> x.city == Some(city)) &&
           (hasName && name != All ==> x.name == Some(name))
        then multiset(rows)[x] else 0
  {
    DateRange(SelectMonitor(SelectCity(rows, hasCity, city), hasName, name), start, end)
  }

  /** The distinct cities present: `df['City'].unique()` without the empty cells. */
  function Cities(rows: seq<Reading>): set<string>
  {
    set x | x in rows && x.city.Some? :: x.city.value
  }

  /** `df['City'].nunique() > 1`: the gate of the comparison view. */
  predicate MoreThanOneCity(rows: seq<Reading>)
  {
    |Cities(rows)| > 1
  }

  /** The comparison view opens exactly when two readings name different cities. */
  lemma MoreThanOneCityIff(rows: seq<Reading>)
    ensures MoreThanOneCity(rows) <==>
      exists x, y :: x in rows && y in rows && x.city.Some? && y.city.Some? && x.city != y.city
  {
    var cs := Cities(rows);
    if |cs| > 1 {
      var a :| a in cs;
      assert |cs - {a}| == |cs| - 1;
      var b :| b in cs - {a};
      var x :| x in rows && x.city == Some(a);
      var y :| y in rows && y.city == Some(b);
      assert x.city != y.city;
    }
    if exists x, y :: x in rows && y in rows && x.city.Some? && y.city.Some? && x.city != y.city {
      var x, y :| x in rows && y in rows && x.city.Some? && y.city.Some? && x.city != y.city;
      assert {x.city.value, y.city.value} <= cs;
      assert |{x.city.value, y.city.value}| == 2;
      SubsetSize({x.city.value, y.city.value}, cs);
    }
  }

  lemma {:induction false} SubsetSize<T>(a: set<T>, b: set<T>)
    requires a <= b
    ensures |a| <= |b|
  {
    assert b == a + (b - a);
  }
}
