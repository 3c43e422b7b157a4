/**
 * The group-by-mean aggregations behind the stripes grid (app.py:87-93), the
 * comparison table (app.py:118-120) and the map points (app.py:144-147,
 * 174-175).  A group exists only for a key some reading has, so a missing
 * cell is an absent entry, never a zero.
 */
module Aggregate {

  import opened Wrappers
  import opened Sequences
  import opened Selection
  import Severity

  /** Some pair of `ps` has key `k`. */
  ghost predicate HasKey<K>(ps: seq<(K, real)>, k: K)
  {
    exists x: real :: (k, x) in ps
  }

  /** The distinct keys of a list of (key, value) pairs. */
  function KeysOf<K(==,!new)>(ps: seq<(K, real)>): (r: set<K>)
    ensures forall k :: k in r <==> HasKey(ps, k)
  {
    if ps == [] then {}
    else
      var r := {ps[0].0} + KeysOf(ps[1..]);
      forall k | k in r ensures HasKey(ps, k) {
        KeyWitness(ps, k);
      }
      forall k, x | (k, x) in ps ensures k in r {
        if (k, x) != ps[0] {
          assert (k, x) in ps[1..];
        }
      }
      r
  }

  lemma KeyWitness<K>(ps: seq<(K, real)>, k: K)
    requires |ps| > 0
    requires k == ps[0].0 || HasKey(ps[1..], k)
    ensures HasKey(ps, k)
  {
    if k == ps[0].0 {
      var x: real := ps[0].1;
      assert ps[0] == (k, x);
      assert (k, x) in ps;
    } else {
      var x: real :| (k, x) in ps[1..];
      assert (k, x) in ps;
    }
  }

  /** The values paired with key `k`, in their original order. */
  function Group<K(==,!new)>(ps: seq<(K, real)>, k: K): (r: seq<real>)
    ensures forall x :: x in r <==> (k, x) in ps
  {
    if ps == [] then []
    else
      assert forall p :: p in ps <==> p == ps[0] || p in ps[1..];
      (if ps[0].0 == k then [ps[0].1] else []) + Group(ps[1..], k)
  }

  /** `v` lies between two of the values paired with `k`. */
  ghost predicate Between<K>(ps: seq<(K, real)>, k: K, v: real)
  {
    exists x, y :: (k, x) in ps && (k, y) in ps && x <= v <= y
  }

  /** The mean of the group of a key that occurs; it lies between two of the group's values. */
  function GroupMeanAt<K(==,!new)>(ps: seq<(K, real)>, k: K): (r: real)
    requires k in KeysOf(ps)
    ensures Between(ps, k, r)
  {
    var x :| (k, x) in ps;
    var g := Group(ps, k);
    assert x in g;
    assert Min(g) in g && Max(g) in g;
    Mean(g)
  }

  /**
   * `groupby(key)[value].mean()`: exactly one entry per distinct key present,
   * each between the smallest and the largest value of its group.
   */
  function GroupMean<K(==,!new)>(ps: seq<(K, real)>): (m: map<K, real>)
    ensures m.Keys == KeysOf(ps)
    ensures forall k :: k in m ==> Between(ps, k, m[k])
  {
    map k | k in KeysOf(ps) :: GroupMeanAt(ps, k)
  }

  /** Some reading has key `k` and concentration `v`. */
  ghost predicate Produces<K>(rows: seq<Reading>, key: Reading -> Option<K>, k: K, v: real)
  {
    exists x :: x in rows && key(x) == Some(k) && x.pm25 == v
  }

  /** Every pair of `ps` comes from a reading. */
  ghost predicate FromReadings<K(!new)>(rows: seq<Reading>, key: Reading -> Option<K>, ps: seq<(K, real)>)
  {
    forall k, v :: (k, v) in ps ==> Produces(rows, key, k, v)
  }

  /** One (key, concentration) pair per reading whose key is present: pandas drops rows with a missing key. */
  function Pairs<K(==,!new)>(rows: seq<Reading>, key: Reading -> Option<K>): (ps: seq<(K, real)>)
    ensures forall k, v :: (k, v) in ps <==> Produces(rows, key, k, v)
    ensures FromReadings(rows, key, ps)
  {
    if rows == [] then []
    else
      assert forall x :: x in rows <==> x == rows[0] || x in rows[1..];
      PairOf(rows[0], key) + Pairs(rows[1..], key)
  }

  /** The pair one reading contributes: none when its key is missing. */
  function PairOf<K>(x: Reading, key: Reading -> Option<K>): seq<(K, real)>
  {
    match key(x)
    case Some(k) => [(k, x.pm25)]
    case None => []
  }

  /** Some reading has key `k`. */
  ghost predicate HasReading<K>(rows: seq<Reading>, key: Reading -> Option<K>, k: K)
  {
    exists x :: x in rows && key(x) == Some(k)
  }

  /** `v` lies between the concentrations of two readings with key `k`. */
  ghost predicate BetweenReadings<K>(rows: seq<Reading>, key: Reading -> Option<K>, k: K, v: real)
  {
    exists x, y :: x in rows && y in rows && key(x) == Some(k) && key(y) == Some(k) && x.pm25 <= v <= y.pm25
  }

  /** A key has a group exactly when some reading has that key. */
  lemma GroupedKeys<K(!new)>(rows: seq<Reading>, key: Reading -> Option<K>, ps: seq<(K, real)>, m: map<K, real>, k: K)
    requires ps == Pairs(rows, key)
    requires m == GroupMean(ps)
    ensures k in m <==> HasReading(rows, key, k)
  {
    if HasReading(rows, key, k) {
      var x :| x in rows && key(x) == Some(k);
      assert Produces(rows, key, k, x.pm25);
      assert (k, x.pm25) in ps;
    }
    if k in m {
      var v :| (k, v) in ps;
      assert Produces(rows, key, k, v);
    }
  }

  /** A group's mean lies between two readings that have its key. */
  lemma GroupedBounds<K(!new)>(rows: seq<Reading>, key: Reading -> Option<K>, ps: seq<(K, real)>, v: real, k: K)
    requires FromReadings(rows, key, ps)
    requires Between(ps, k, v)
    ensures BetweenReadings(rows, key, k, v)
  {
    var a, b :| (k, a) in ps && (k, b) in ps && a <= v <= b;
    assert Produces(rows, key, k, a) && Produces(rows, key, k, b);
    var x :| x in rows && key(x) == Some(k) && x.pm25 == a;
    var y :| y in rows && key(y) == Some(k) && y.pm25 == b;
  }

  /**
   * Grouping readings by a key: an entry exactly for the keys some reading
   * has, and each entry's mean between two readings of that key.
   */
  lemma GroupedReadings<K(!new)>(rows: seq<Reading>, key: Reading -> Option<K>, ps: seq<(K, real)>, m: map<K, real>, k: K)
    requires ps == Pairs(rows, key)
    requires m == GroupMean(ps)
    ensures k in m <==> HasReading(rows, key, k)
    ensures k in m ==> BetweenReadings(rows, key, k, m[k])
  {
    GroupedKeys(rows, key, ps, m, k);
    if k in m {
      GroupedBounds(rows, key, ps, m[k], k);
    }
  }

  /** The test "this reading has key `k`". */
  function KeyIs<K(==)>(key: Reading -> Option<K>, k: K): Reading -> bool
  {
    (x: Reading) => key(x) == Some(k)
  }

  /** The concentrations of a list of readings, in order. */
  function Concentrations(rows: seq<Reading>): (r: seq<real>)
    ensures |r| == |rows|
    ensures forall j :: 0 <= j < |rows| ==> r[j] == rows[j].pm25
  {
    seq(|rows|, j requires 0 <= j < |rows| => rows[j].pm25)
  }

  /** Grouping distributes over concatenation. */
  lemma {:induction false} GroupConcat<K(!new)>(a: seq<(K, real)>, b: seq<(K, real)>, k: K)
    ensures Group(a + b, k) == Group(a, k) + Group(b, k)
  {
    if a == [] {
      assert a + b == b;
    } else {
      assert (a + b)[0] == a[0];
      assert (a + b)[1..] == a[1..] + b;
      GroupConcat(a[1..], b, k);
    }
  }

  /**
   * The group of key `k` is exactly the concentrations of the readings with
   * that key, in their original order and with their repeats: two equal
   * readings count twice in the mean.
   */
  lemma {:induction false} PairsGroup<K(!new)>(rows: seq<Reading>, key: Reading -> Option<K>, k: K)
    ensures Group(Pairs(rows, key), k) == Concentrations(Filter(rows, KeyIs(key, k)))
  {
    if rows != [] {
      var p := KeyIs(key, k);
      var first := if p(rows[0]) then [rows[0]] else [];
      assert Pairs(rows, key) == PairOf(rows[0], key) + Pairs(rows[1..], key);
      assert Filter(rows, p) == first + Filter(rows[1..], p);
      GroupConcat(PairOf(rows[0], key), Pairs(rows[1..], key), k);
      PairOfGroup(rows[0], key, k);
      PairsGroup(rows[1..], key, k);
      ConcentrationsConcat(first, Filter(rows[1..], p));
    }
  }

  /** The group of one reading's pair: its concentration when its key is `k`, else nothing. */
  lemma PairOfGroup<K(!new)>(x: Reading, key: Reading -> Option<K>, k: K)
    ensures Group(PairOf(x, key), k) == Concentrations(if KeyIs(key, k)(x) then [x] else [])
  {
    if key(x).Some? {
      assert PairOf(x, key)[1..] == [];
    }
  }

  /** Concentrations distribute over concatenation. */
  lemma ConcentrationsConcat(a: seq<Reading>, b: seq<Reading>)
    ensures Concentrations(a + b) == Concentrations(a) + Concentrations(b)
  {
  }

  /**
   * A group's mean is the plain mean of the concentrations of all readings
   * with that key, each reading counted once, repeats included.
   */
  lemma GroupMeanIs<K(!new)>(rows: seq<Reading>, key: Reading -> Option<K>, k: K)
    requires k in GroupMean(Pairs(rows, key))
    ensures |Filter(rows, KeyIs(key, k))| > 0
    ensures GroupMean(Pairs(rows, key))[k] == Mean(Concentrations(Filter(rows, KeyIs(key, k))))
  {
    var ps := Pairs(rows, key);
    PairsGroup(rows, key, k);
    var x :| (k, x) in ps;
    assert x in Group(ps, k);
  }

  /** The year × day-of-year grid: the years and days that occur, and the cells that have data. */
  datatype Grid = Grid(years: set<int>, days: set<int>, cells: map<(int, int), real>)

  /** `pivot(index='year', columns='day_of_year')`: rows and columns only for values that occur. */
  function Pivot(m: map<(int, int), real>): Grid
  {
    Grid(set k | k in m :: k.0, set k | k in m :: k.1, m)
  }

  /** A grid cell; `None` is the "no data" cell (NaN), distinct from a zero reading. */
  function CellAt(g: Grid, year: int, day: int): Option<real>
  {
    if (year, day) in g.cells then Some(g.cells[(year, day)]) else None
  }

  /** The stripes key: (year, day of year) for the readings of the chosen city. */
  function StripesKey(city: string): Reading -> Option<(int, int)>
  {
    (x: Reading) => if x.city == Some(city) then Some((x.year, x.day)) else None
  }

  /** The stripes grid for one city. */
  function Stripes(rows: seq<Reading>, city: string): Grid
  {
    Pivot(GroupMean(Pairs(rows, StripesKey(city))))
  }

  /** The city has a reading on that day of that year. */
  ghost predicate HasDay(rows: seq<Reading>, city: string, year: int, day: int)
  {
    exists x :: x in rows && x.city == Some(city) && x.year == year && x.day == day
  }

  /** `v` lies between two readings of the city on that day of that year. */
  ghost predicate DayBounds(rows: seq<Reading>, city: string, year: int, day: int, v: real)
  {
    exists x, y :: x in rows && y in rows &&
      x.city == Some(city) && x.year == year && x.day == day &&
      y.city == Some(city) && y.year == year && y.day == day &&
      x.pm25 <= v <= y.pm25
  }

  /** The stripes key of a reading, spelled out. */
  lemma StripesReadings(rows: seq<Reading>, city: string, year: int, day: int, v: real)
    ensures HasReading(rows, StripesKey(city), (year, day)) <==> HasDay(rows, city, year, day)
    ensures BetweenReadings(rows, StripesKey(city), (year, day), v) ==> DayBounds(rows, city, year, day, v)
  {
    var key := StripesKey(city);
    if HasDay(rows, city, year, day) {
      var x :| x in rows && x.city == Some(city) && x.year == year && x.day == day;
      assert key(x) == Some((year, day));
    }
    if BetweenReadings(rows, key, (year, day), v) {
      var x, y :| x in rows && y in rows && key(x) == Some((year, day)) && key(y) == Some((year, day)) && x.pm25 <= v <= y.pm25;
      assert x.city == Some(city) && x.year == year && x.day == day;
      assert y.city == Some(city) && y.year == year && y.day == day;
    }
  }

  /** A key occurs in the stripes grouping exactly when the city has a reading with that year and day. */
  lemma StripesKeys(rows: seq<Reading>, city: string, m: map<(int, int), real>, year: int, day: int)
    requires m == GroupMean(Pairs(rows, StripesKey(city)))
    ensures (year, day) in m <==> HasDay(rows, city, year, day)
  {
    GroupedKeys(rows, StripesKey(city), Pairs(rows, StripesKey(city)), m, (year, day));
    StripesReadings(rows, city, year, day, 0.0);
  }

  /** A stripes mean lies between two readings of the city on that day of that year. */
  lemma StripesBounds(rows: seq<Reading>, city: string, m: map<(int, int), real>, year: int, day: int)
    requires m == GroupMean(Pairs(rows, StripesKey(city)))
    requires (year, day) in m
    ensures DayBounds(rows, city, year, day, m[(year, day)])
  {
    GroupedBounds(rows, StripesKey(city), Pairs(rows, StripesKey(city)), m[(year, day)], (year, day));
    StripesReadings(rows, city, year, day, m[(year, day)]);
  }

  /** A pivot cell is the grouping's entry for that key, if any. */
  lemma CellOfPivot(m: map<(int, int), real>, year: int, day: int)
    ensures CellAt(Pivot(m), year, day) == if (year, day) in m then Some(m[(year, day)]) else None
  {
  }

  /**
   * A stripes cell has data exactly when the city has a reading on that day
   * of that year, and then lies between two of those readings.
   */
  lemma StripesCells(rows: seq<Reading>, city: string, year: int, day: int)
    ensures CellAt(Stripes(rows, city), year, day).Some? <==> HasDay(rows, city, year, day)
    ensures CellAt(Stripes(rows, city), year, day).Some? ==>
      DayBounds(rows, city, year, day, CellAt(Stripes(rows, city), year, day).value)
  {
    var m := GroupMean(Pairs(rows, StripesKey(city)));
    CellOfPivot(m, year, day);
    StripesKeys(rows, city, m, year, day);
    if (year, day) in m {
      StripesBounds(rows, city, m, year, day);
    }
  }

  /**
   * A stripes cell with data is the plain mean of the concentrations of all
   * the city's readings on that day of that year, repeats included.
   */
  lemma StripesMean(rows: seq<Reading>, city: string, year: int, day: int)
    requires HasDay(rows, city, year, day)
    ensures |Filter(rows, KeyIs(StripesKey(city), (year, day)))| > 0
    ensures CellAt(Stripes(rows, city), year, day) ==
      Some(Mean(Concentrations(Filter(rows, KeyIs(StripesKey(city), (year, day))))))
  {
    var m := GroupMean(Pairs(rows, StripesKey(city)));
    assert (year, day) in m by {
      StripesKeys(rows, city, m, year, day);
    }
    assert CellAt(Stripes(rows, city), year, day) == Some(m[(year, day)]) by {
      CellOfPivot(m, year, day);
    }
    GroupMeanIs(rows, StripesKey(city), (year, day));
  }

  /**
   * A worked example: two readings of one city on the same day and a third
   * reading of another city.  The day's stripes cell is the mean of the two,
   * so 10 and 21 (10.2 and 20.6 after rounding) give 15.5; the other city's
   * reading does not count.
   */
  lemma StripesExample(a: Reading, b: Reading, c: Reading, city: string)
    requires a.city == Some(city) && b.city == Some(city) && c.city != Some(city)
    requires a.year == b.year && a.day == b.day
    ensures CellAt(Stripes([a, b, c], city), a.year, a.day) == Some((a.pm25 + b.pm25) / 2.0)
    ensures a.pm25 == 10.0 && b.pm25 == 21.0 ==> CellAt(Stripes([a, b, c], city), a.year, a.day) == Some(15.5)
  {
    var rows := [a, b, c];
    assert HasDay(rows, city, a.year, a.day) by {
      assert a in rows;
    }
    FilterTwoOfThree(a, b, c, KeyIs(StripesKey(city), (a.year, a.day)));
    StripesOfTwo(rows, city, a.year, a.day, a, b);
  }

  /** A stripes cell whose day has exactly two of the city's readings is their midpoint. */
  lemma StripesOfTwo(rows: seq<Reading>, city: string, year: int, day: int, a: Reading, b: Reading)
    requires HasDay(rows, city, year, day)
    requires Filter(rows, KeyIs(StripesKey(city), (year, day))) == [a, b]
    ensures CellAt(Stripes(rows, city), year, day) == Some((a.pm25 + b.pm25) / 2.0)
  {
    StripesMean(rows, city, year, day);
    MeanOfTwo(Concentrations([a, b]));
  }

  /** A three-element filter that keeps the first two. */
  lemma FilterTwoOfThree<T(!new)>(a: T, b: T, c: T, p: T -> bool)
    requires p(a) && p(b) && !p(c)
    ensures Filter([a, b, c], p) == [a, b]
  {
    assert [a, b, c] == [a] + ([b] + [c]);
    FilterConcat([a], [b] + [c], p);
    FilterConcat([b], [c], p);
    FilterSingleton(a, p);
    FilterSingleton(b, p);
    FilterSingleton(c, p);
  }

  /** The mean of two values is their midpoint. */
  lemma MeanOfTwo(xs: seq<real>)
    requires |xs| == 2
    ensures Mean(xs) == (xs[0] + xs[1]) / 2.0
  {
    assert xs[1..][1..] == [];
    assert Sum(xs[1..]) == xs[1];
    assert Sum(xs) == xs[0] + xs[1];
  }

  /** The pivot has a row for each first component and a column for each second one. */
  lemma PivotAxes(m: map<(int, int), real>, year: int, day: int)
    ensures year in Pivot(m).years <==> exists d :: (year, d) in m
    ensures day in Pivot(m).days <==> exists y :: (y, day) in m
  {
    if exists d :: (year, d) in m {
      var d :| (year, d) in m;
      assert (year, d).0 == year;
    }
    if exists y :: (y, day) in m {
      var y :| (y, day) in m;
      assert (y, day).1 == day;
    }
  }

  /** The pivot of the stripes grouping has a row for a year exactly when the city has a reading then. */
  lemma PivotYears(rows: seq<Reading>, city: string, m: map<(int, int), real>, year: int)
    requires m == GroupMean(Pairs(rows, StripesKey(city)))
    ensures year in Pivot(m).years <==> exists x :: x in rows && x.city == Some(city) && x.year == year
  {
    PivotAxes(m, year, 0);
    if exists x :: x in rows && x.city == Some(city) && x.year == year {
      var x :| x in rows && x.city == Some(city) && x.year == year;
      StripesKeys(rows, city, m, year, x.day);
    }
    if exists d :: (year, d) in m {
      var d :| (year, d) in m;
      StripesKeys(rows, city, m, year, d);
    }
  }

  /** The pivot of the stripes grouping has a column for a day exactly when the city has a reading then. */
  lemma PivotDays(rows: seq<Reading>, city: string, m: map<(int, int), real>, day: int)
    requires m == GroupMean(Pairs(rows, StripesKey(city)))
    ensures day in Pivot(m).days <==> exists x :: x in rows && x.city == Some(city) && x.day == day
  {
    PivotAxes(m, 0, day);
    if exists x :: x in rows && x.city == Some(city) && x.day == day {
      var x :| x in rows && x.city == Some(city) && x.day == day;
      StripesKeys(rows, city, m, x.year, day);
    }
    if exists y :: (y, day) in m {
      var y :| (y, day) in m;
      StripesKeys(rows, city, m, y, day);
    }
  }

  /**
   * The grid has a row for a year, and a column for a day of the year, exactly
   * when the city has a reading then; no other rows or columns are reserved.
   */
  lemma StripesAxes(rows: seq<Reading>, city: string, year: int, day: int)
    ensures year in Stripes(rows, city).years <==> exists x :: x in rows && x.city == Some(city) && x.year == year
    ensures day in Stripes(rows, city).days <==> exists x :: x in rows && x.city == Some(city) && x.day == day
  {
    PivotYears(rows, city, GroupMean(Pairs(rows, StripesKey(city))), year);
    PivotDays(rows, city, GroupMean(Pairs(rows, StripesKey(city))), day);
  }

  /** The comparison key: (time, city) for every reading whose city is among those chosen. */
  function CityKey(chosen: set<string>): Reading -> Option<(int, string)>
  {
    (x: Reading) => if x.city.Some? && x.city.value in chosen then Some((x.time, x.city.value)) else None
  }

  /**
   * `pivot_table(index='datetime', columns='City', aggfunc='mean')` followed by
   * the choice of city columns: the mean per instant and city, for the chosen
   * cities.  Grouping only the chosen cities' readings gives the same cells as
   * grouping all and then cutting the table down, since the city is part of the key.
   */
  function CityTable(rows: seq<Reading>, chosen: set<string>): map<(int, string), real>
  {
    GroupMean(Pairs(rows, CityKey(chosen)))
  }

  /** The city has a reading at that instant. */
  ghost predicate HasInstant(rows: seq<Reading>, time: int, city: string)
  {
    exists x :: x in rows && x.time == time && x.city == Some(city)
  }

  /** `v` lies between two readings of the city at that instant. */
  ghost predicate InstantBounds(rows: seq<Reading>, time: int, city: string, v: real)
  {
    exists x, y :: x in rows && y in rows &&
      x.time == time && x.city == Some(city) && y.time == time && y.city == Some(city) &&
      x.pm25 <= v <= y.pm25
  }

  /** The comparison key of a reading, spelled out. */
  lemma CityReadings(rows: seq<Reading>, chosen: set<string>, time: int, city: string, v: real)
    ensures HasReading(rows, CityKey(chosen), (time, city)) <==> city in chosen && HasInstant(rows, time, city)
    ensures BetweenReadings(rows, CityKey(chosen), (time, city), v) ==> InstantBounds(rows, time, city, v)
  {
    var key := CityKey(chosen);
    if city in chosen && HasInstant(rows, time, city) {
      var x :| x in rows && x.time == time && x.city == Some(city);
      assert key(x) == Some((time, city));
    }
    if HasReading(rows, key, (time, city)) {
      var x :| x in rows && key(x) == Some((time, city));
      assert city in chosen && x.time == time && x.city == Some(city);
    }
    if BetweenReadings(rows, key, (time, city), v) {
      var x, y :| x in rows && y in rows && key(x) == Some((time, city)) && key(y) == Some((time, city)) && x.pm25 <= v <= y.pm25;
      assert x.time == time && x.city == Some(city);
      assert y.time == time && y.city == Some(city);
    }
  }

  /** A comparison key is grouped exactly for a chosen city with a reading at that instant. */
  lemma CityKeys(rows: seq<Reading>, chosen: set<string>, m: map<(int, string), real>, time: int, city: string)
    requires m == GroupMean(Pairs(rows, CityKey(chosen)))
    ensures (time, city) in m <==> city in chosen && HasInstant(rows, time, city)
  {
    GroupedKeys(rows, CityKey(chosen), Pairs(rows, CityKey(chosen)), m, (time, city));
    CityReadings(rows, chosen, time, city, 0.0);
  }

  /** A comparison mean lies between two readings of that city at that instant. */
  lemma CityBounds(rows: seq<Reading>, chosen: set<string>, m: map<(int, string), real>, time: int, city: string)
    requires m == GroupMean(Pairs(rows, CityKey(chosen)))
    requires (time, city) in m
    ensures InstantBounds(rows, time, city, m[(time, city)])
  {
    GroupedBounds(rows, CityKey(chosen), Pairs(rows, CityKey(chosen)), m[(time, city)], (time, city));
    CityReadings(rows, chosen, time, city, m[(time, city)]);
  }

  /**
   * A comparison cell exists exactly for a chosen city with a reading at that
   * instant, and lies between two of those readings.
   */
  lemma CityTableCells(rows: seq<Reading>, chosen: set<string>, time: int, city: string)
    ensures (time, city) in CityTable(rows, chosen) <==> city in chosen && HasInstant(rows, time, city)
    ensures (time, city) in CityTable(rows, chosen) ==>
      InstantBounds(rows, time, city, CityTable(rows, chosen)[(time, city)])
  {
    var m := CityTable(rows, chosen);
    CityKeys(rows, chosen, m, time, city);
    if (time, city) in m {
      CityBounds(rows, chosen, m, time, city);
    }
  }

  /** The map key: (Name, longitude, latitude), for readings where all three are present. */
  function MapKey(x: Reading): Option<(string, real, real)>
  {
    if x.name.Some? && x.lon.Some? && x.lat.Some? then Some((x.name.value, x.lon.value, x.lat.value)) else None
  }

  /** The map points: the mean concentration per monitor over the chosen window. */
  function MapPoints(rows: seq<Reading>, start: int, end: int): map<(string, real, real), real>
  {
    GroupMean(Pairs(Window(rows, start, end), MapKey))
  }

  /** The monitor has a reading from `start` to `end`. */
  ghost predicate HasWindowReading(rows: seq<Reading>, start: int, end: int, k: (string, real, real))
  {
    exists x :: x in rows && start <= x.time <= end && MapKey(x) == Some(k)
  }

  /** `v` lies between two readings of the monitor from `start` to `end`. */
  ghost predicate WindowBounds(rows: seq<Reading>, start: int, end: int, k: (string, real, real), v: real)
  {
    exists x, y :: x in rows && y in rows &&
      start <= x.time <= end && MapKey(x) == Some(k) &&
      start <= y.time <= end && MapKey(y) == Some(k) &&
      x.pm25 <= v <= y.pm25
  }

  /** The readings of the window, by membership. */
  lemma WindowMembers(rows: seq<Reading>, start: int, end: int, x: Reading)
    ensures x in Window(rows, start, end) <==> x in rows && start <= x.time <= end
  {
    var w := Window(rows, start, end);
    assert x in w <==> multiset(w)[x] > 0;
    assert x in rows <==> multiset(rows)[x] > 0;
  }

  /** The map key over the window, spelled out. */
  lemma MapReadings(rows: seq<Reading>, start: int, end: int, k: (string, real, real), v: real)
    ensures HasReading(Window(rows, start, end), MapKey, k) <==> HasWindowReading(rows, start, end, k)
    ensures BetweenReadings(Window(rows, start, end), MapKey, k, v) ==> WindowBounds(rows, start, end, k, v)
  {
    var w := Window(rows, start, end);
    if HasWindowReading(rows, start, end, k) {
      var x :| x in rows && start <= x.time <= end && MapKey(x) == Some(k);
      WindowMembers(rows, start, end, x);
    }
    if HasReading(w, MapKey, k) {
      var x :| x in w && MapKey(x) == Some(k);
      WindowMembers(rows, start, end, x);
    }
    if BetweenReadings(w, MapKey, k, v) {
      var x, y :| x in w && y in w && MapKey(x) == Some(k) && MapKey(y) == Some(k) && x.pm25 <= v <= y.pm25;
      WindowMembers(rows, start, end, x);
      WindowMembers(rows, start, end, y);
    }
  }

  /** A monitor is grouped exactly when it has a reading in the window. */
  lemma MapKeys(rows: seq<Reading>, start: int, end: int, m: map<(string, real, real), real>, k: (string, real, real))
    requires m == GroupMean(Pairs(Window(rows, start, end), MapKey))
    ensures k in m <==> HasWindowReading(rows, start, end, k)
  {
    var w := Window(rows, start, end);
    GroupedKeys(w, MapKey, Pairs(w, MapKey), m, k);
    MapReadings(rows, start, end, k, 0.0);
  }

  /** A map mean lies between two readings of the monitor in the window. */
  lemma MapBounds(rows: seq<Reading>, start: int, end: int, m: map<(string, real, real), real>, k: (string, real, real))
    requires m == GroupMean(Pairs(Window(rows, start, end), MapKey))
    requires k in m
    ensures WindowBounds(rows, start, end, k, m[k])
  {
    var w := Window(rows, start, end);
    GroupedBounds(w, MapKey, Pairs(w, MapKey), m[k], k);
    MapReadings(rows, start, end, k, m[k]);
  }

  /**
   * A monitor has a map point exactly when it has a reading in the window, and
   * the point's value lies between two of those readings.
   */
  lemma MapPointsCells(rows: seq<Reading>, start: int, end: int, k: (string, real, real))
    ensures k in MapPoints(rows, start, end) <==> HasWindowReading(rows, start, end, k)
    ensures k in MapPoints(rows, start, end) ==> WindowBounds(rows, start, end, k, MapPoints(rows, start, end)[k])
  {
    var m := MapPoints(rows, start, end);
    MapKeys(rows, start, end, m, k);
    if k in m {
      MapBounds(rows, start, end, m, k);
    }
  }

  /**
   * With ingested readings (every concentration at least 5), a map point is
   * drawn gray exactly when its mean is above the top breakpoint 500.4.
   */
  lemma MapPointColor(rows: seq<Reading>, start: int, end: int, k: (string, real, real))
    requires forall x :: x in rows ==> x.pm25 >= 5.0
    requires k in MapPoints(rows, start, end)
    ensures Severity.Pm25Color(MapPoints(rows, start, end)[k]) == Severity.Gray <==>
      MapPoints(rows, start, end)[k] > 500.4
  {
    MapPointFloor(rows, start, end, MapPoints(rows, start, end), k);
    GrayAboveRange(MapPoints(rows, start, end)[k]);
  }

  /** With every concentration at least 5, so is every map mean. */
  lemma MapPointFloor(rows: seq<Reading>, start: int, end: int, m: map<(string, real, real), real>, k: (string, real, real))
    requires forall x :: x in rows ==> x.pm25 >= 5.0
    requires m == GroupMean(Pairs(Window(rows, start, end), MapKey))
    requires k in m
    ensures m[k] >= 5.0
  {
    MapBounds(rows, start, end, m, k);
    BoundsFloor(rows, start, end, k, m[k]);
  }

  /** Above the noise floor, gray means above the top breakpoint. */
  lemma GrayAboveRange(v: real)
    requires v >= 5.0
    ensures Severity.Pm25Color(v) == Severity.Gray <==> v > 500.4
  {
    Severity.ColorInRange(v);
  }

  /** A value between two readings is at least as large as every reading's lower bound. */
  lemma BoundsFloor(rows: seq<Reading>, start: int, end: int, k: (string, real, real), v: real)
    requires forall x :: x in rows ==> x.pm25 >= 5.0
    requires WindowBounds(rows, start, end, k, v)
    ensures v >= 5.0
  {
  }
}
