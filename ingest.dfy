/**
 * Ingestion of the uploaded table (app.py:24-38): locate the concentration
 * column by substring, drop readings at or below the noise floor, round the
 * rest, locate the timestamp column by substring, and project the columns the
 * dashboard uses.  A table is a list of column names and rows of cells, as
 * the CSV reader delivers it; timestamp parsing is not part of this model.
 */
module Ingest {

  import opened Wrappers
  import opened Sequences

  /** One cell of the uploaded table: a number, a piece of text, or an empty (NaN) cell. */
  datatype Cell = Num(x: real) | Text(s: string) | Missing

  datatype Frame = Frame(columns: seq<string>, rows: seq<seq<Cell>>)

  /** Every row has `w` cells. */
  predicate Width(rows: seq<seq<Cell>>, w: nat)
  {
    forall k :: 0 <= k < |rows| ==> |rows[k]| == w
  }

  /** Every row has one cell per column. */
  predicate WellFormed(f: Frame)
  {
    Width(f.rows, |f.columns|)
  }

  datatype IngestError =
    | NoPm25Column          // no column name contains "PM2.5": `.columns[0]` of an empty index
    | NonNumericPm25        // the concentration column holds text: the comparison with 5 fails
    | NoDatetimeColumn      // no column name contains "Datetime"
    | MissingColumns(names: seq<string>)  // the projection names columns the table lacks

  const Pm25: string := "PM2.5"
  const DatetimeLike: string := "Datetime"
  const DatetimeName: string := "datetime"

  /** Readings at or below this concentration are discarded as sensor noise. */
  const NoiseFloor: real := 5.0

  const CityLayout: seq<string> := ["datetime", "City", "Name", "PM2.5", "longitude", "latitude"]
  const PlainLayout: seq<string> := ["datetime", "PM2.5", "longitude", "latitude"]

  /** Python's `pat in s` on strings, by scanning the start positions. */
  function Contains(s: string, pat: string): bool
    decreases |s|
  {
    if |s| < |pat| then false
    else if s[..|pat|] == pat then true
    else Contains(s[1..], pat)
  }

  /** `pat` occurs in `s` starting at position `k`. */
  predicate OccursAt(s: string, pat: string, k: int)
  {
    0 <= k && k + |pat| <= |s| && s[k..k + |pat|] == pat
  }

  /** The scan finds `pat` exactly when `pat` occurs somewhere in `s`. */
  lemma {:induction false} ContainsIff(s: string, pat: string)
    ensures Contains(s, pat) <==> exists k :: OccursAt(s, pat, k)
    decreases |s|
  {
    if |s| < |pat| {
    } else if s[..|pat|] == pat {
      assert OccursAt(s, pat, 0);
    } else {
      ContainsIff(s[1..], pat);
      if exists k :: OccursAt(s, pat, k) {
        var k :| OccursAt(s, pat, k);
        assert k != 0;
        assert s[1..][k - 1..k - 1 + |pat|] == s[k..k + |pat|];
        assert OccursAt(s[1..], pat, k - 1);
      }
      if exists k :: OccursAt(s[1..], pat, k) {
        var k :| OccursAt(s[1..], pat, k);
        assert s[k + 1..k + 1 + |pat|] == s[1..][k..k + |pat|];
        assert OccursAt(s, pat, k + 1);
      }
    }
  }

  /** `df.filter(like=pat).columns[0]`: the first column, in column order, whose name contains `pat`. */
  function ColumnLike(cols: seq<string>, pat: string): Option<nat>
  {
    FirstIndex(cols, (c: string) => Contains(c, pat))
  }

  /** `rename(columns={from: to})`: every column called `from` is called `to` afterwards. */
  function Rename(cols: seq<string>, from: string, to: string): seq<string>
  {
    seq(|cols|, k requires 0 <= k < |cols| => if cols[k] == from then to else cols[k])
  }

  /** Renaming leaves the presence of every other name as it was. */
  lemma RenameKeeps(cols: seq<string>, from: string, to: string, name: string)
    requires name != from && name != to
    ensures name in Rename(cols, from, to) <==> name in cols
  {
    var r := Rename(cols, from, to);
    if name in cols {
      var k :| 0 <= k < |cols| && cols[k] == name;
      assert r[k] == name;
    }
    if name in r {
      var k :| 0 <= k < |r| && r[k] == name;
      assert cols[k] == name;
    }
  }

  /** No cell of column `i` is text. */
  predicate NumericAt(rows: seq<seq<Cell>>, i: nat)
  {
    forall k :: 0 <= k < |rows| && i < |rows[k]| ==> !rows[k][i].Text?
  }

  /** The row's concentration is a number strictly above the noise floor (a NaN cell is not). */
  predicate Keep(row: seq<Cell>, i: nat)
  {
    i < |row| && row[i].Num? && row[i].x > NoiseFloor
  }

  /** `df[df['PM2.5'] > 5]`: exactly the rows whose concentration exceeds the floor. */
  function DropLow(rows: seq<seq<Cell>>, i: nat): (r: seq<seq<Cell>>)
    ensures forall row :: row in r <==> row in rows && Keep(row, i)
    ensures forall row :: multiset(r)[row] == if Keep(row, i) then multiset(rows)[row] else 0
  {
    var p := (row: seq<Cell>) => Keep(row, i);
    forall row ensures multiset(Filter(rows, p))[row] == if p(row) then multiset(rows)[row] else 0 {
      FilterMultiset(rows, p, row);
    }
    Filter(rows, p)
  }

  /** The kept rows stay in their original relative order. */
  lemma DropLowOrder(a: seq<seq<Cell>>, b: seq<seq<Cell>>, i: nat)
    ensures DropLow(a + b, i) == DropLow(a, i) + DropLow(b, i)
  {
    FilterConcat(a, b, (row: seq<Cell>) => Keep(row, i));
  }

  /**
   * Rounding to a whole unit, ties to the even neighbour (numpy's rule,
   * which `round(series, 0)` applies).
   */
  function RoundHalfEven(x: real): (r: int)
    ensures x - 0.5 <= r as real <= x + 0.5
    ensures (r as real - x == 0.5 || x - r as real == 0.5) ==> r % 2 == 0
  {
    var f := x.Floor;
    var d := x - f as real;
    if d < 0.5 then f
    else if d > 0.5 then f + 1
    else if f % 2 == 0 then f
    else f + 1
  }

  /** Ties go to the even neighbour; other values to the nearest whole number. */
  lemma RoundingExamples()
    ensures RoundHalfEven(2.5) == 2 && RoundHalfEven(3.5) == 4 && RoundHalfEven(-0.5) == 0
    ensures RoundHalfEven(10.2) == 10 && RoundHalfEven(20.6) == 21
  {
  }

  /** Rounding applies to numbers; NaN and text stay as they are. */
  function RoundCell(c: Cell): Cell
  {
    match c
    case Num(x) => Num(RoundHalfEven(x) as real)
    case _ => c
  }

  /** `df['PM2.5'] = round(df['PM2.5'], 0)`: column `i` rounded, every other cell untouched. */
  function RoundColumn(rows: seq<seq<Cell>>, i: nat): (r: seq<seq<Cell>>)
    ensures |r| == |rows|
    ensures forall k :: 0 <= k < |rows| ==> |r[k]| == |rows[k]|
    ensures forall k, j :: 0 <= k < |rows| && 0 <= j < |rows[k]| && j != i ==> r[k][j] == rows[k][j]
    ensures forall k :: 0 <= k < |rows| && i < |rows[k]| && rows[k][i].Num? ==>
      r[k][i].Num? && r[k][i].x == r[k][i].x.Floor as real &&
      rows[k][i].x - 0.5 <= r[k][i].x <= rows[k][i].x + 0.5
    ensures forall k :: 0 <= k < |rows| && i < |rows[k]| && !rows[k][i].Num? ==> r[k][i] == rows[k][i]
  {
    seq(|rows|, k requires 0 <= k < |rows| =>
      if i < |rows[k]| then rows[k][i := RoundCell(rows[k][i])] else rows[k])
  }

  /** The position of the first column called `n`. */
  function FirstNamed(cols: seq<string>, n: string): (r: nat)
    requires n in cols
    ensures r < |cols| && cols[r] == n
    ensures forall j :: 0 <= j < r ==> cols[j] != n
  {
    var named := (c: string) => c == n;
    var found := FirstIndex(cols, named);
    assert found.Some? by {
      var k :| 0 <= k < |cols| && cols[k] == n;
      assert named(cols[k]);
    }
    found.value
  }

  /** The position of each of `names` in `cols`: the first column so called. */
  function Positions(cols: seq<string>, names: seq<string>): (r: seq<nat>)
    requires forall n :: n in names ==> n in cols
    ensures |r| == |names|
    ensures forall m :: 0 <= m < |names| ==>
      r[m] < |cols| && cols[r[m]] == names[m] &&
      forall j :: 0 <= j < r[m] ==> cols[j] != names[m]
  {
    seq(|names|, m requires 0 <= m < |names| => FirstNamed(cols, names[m]))
  }

  /** `df[names]`: the positions of the names, or the error listing every name the table lacks. */
  function Resolve(cols: seq<string>, names: seq<string>): (r: Result<seq<nat>, IngestError>)
    ensures r.Ok? <==> forall n :: n in names ==> n in cols
    ensures r.Ok? ==> r.value == Positions(cols, names)
    ensures r.Err? ==>
      r.error.MissingColumns? && forall n :: n in r.error.names <==> n in names && n !in cols
  {
    var missing := Filter(names, (n: string) => n !in cols);
    if missing != [] then
      assert missing[0] in missing;
      Err(MissingColumns(missing))
    else
      Ok(Positions(cols, names))
  }

  /** Keeps, in every row, the cells at positions `idx`, in that order. */
  function Project(rows: seq<seq<Cell>>, w: nat, idx: seq<nat>): (r: seq<seq<Cell>>)
    requires Width(rows, w)
    requires forall m :: 0 <= m < |idx| ==> idx[m] < w
    ensures |r| == |rows| && Width(r, |idx|)
  {
    seq(|rows|, k requires 0 <= k < |rows| =>
      seq(|idx|, m requires 0 <= m < |idx| => rows[k][idx[m]]))
  }

  /** Steps 26-27: drop the rows at or below the floor, then round column `i`. */
  function Clean(rows: seq<seq<Cell>>, i: nat): seq<seq<Cell>>
  {
    RoundColumn(DropLow(rows, i), i)
  }

  /**
   * The cleaned rows are the kept rows, one for one, with the concentration
   * rounded to a whole number within 0.5 of the original and so at least 5.
   */
  lemma CleanValues(rows: seq<seq<Cell>>, i: nat)
    ensures |Clean(rows, i)| == |DropLow(rows, i)|
    ensures forall k :: 0 <= k < |DropLow(rows, i)| ==>
      Keep(DropLow(rows, i)[k], i) && i < |Clean(rows, i)[k]| &&
      var x := DropLow(rows, i)[k][i]; var v := Clean(rows, i)[k][i];
      v.Num? && x.x - 0.5 <= v.x <= x.x + 0.5 && v.x == v.x.Floor as real && v.x >= NoiseFloor
  {
    var kept := DropLow(rows, i);
    forall k | 0 <= k < |kept| ensures Keep(kept[k], i) {
      assert kept[k] in kept;
    }
  }

  lemma CleanWidth(rows: seq<seq<Cell>>, i: nat, w: nat)
    requires Width(rows, w)
    ensures Width(DropLow(rows, i), w)
    ensures Width(Clean(rows, i), w)
  {
    var kept := DropLow(rows, i);
    forall k | 0 <= k < |kept| ensures |kept[k]| == w {
      assert kept[k] in kept;
    }
  }

  /** Python's `a and b` on strings: `a` when it is empty (falsy), otherwise `b`. */
  function PyAnd(a: string, b: string): string
  {
    if a == "" then a else b
  }

  /** The test `('Name' and 'City') in df.columns`. */
  predicate CityGate(cols: seq<string>)
  {
    PyAnd("Name", "City") in cols
  }

  /** The test `('latitude' and 'longitude') in df.columns` guarding the map. */
  predicate MapGate(cols: seq<string>)
  {
    PyAnd("latitude", "longitude") in cols
  }

  /** The two gates each test only their second name. */
  lemma GatesTestSecondName(cols: seq<string>)
    ensures CityGate(cols) <==> "City" in cols
    ensures MapGate(cols) <==> "longitude" in cols
  {
  }

  function Layout(cols: seq<string>): seq<string>
  {
    if CityGate(cols) then CityLayout else PlainLayout
  }

  /** Where the concentration column sits in a layout the projection produces. */
  function Pm25Position(layout: seq<string>): nat
  {
    if layout == CityLayout then 3 else 1
  }

  /** The whole ingestion step, failing where the script would raise. */
  function Ingest(t: Frame): Result<Frame, IngestError>
    requires WellFormed(t)
  {
    match ColumnLike(t.columns, Pm25)
    case None => Err(NoPm25Column)
    case Some(i) =>
      if !NumericAt(t.rows, i) then Err(NonNumericPm25)
      else
        CleanWidth(t.rows, i, |t.columns|);
        Finish(Rename(t.columns, t.columns[i], Pm25), Clean(t.rows, i))
  }

  /** Steps 29-35 on the cleaned rows: find and rename the timestamp column, then project. */
  function Finish(cols: seq<string>, rows: seq<seq<Cell>>): Result<Frame, IngestError>
    requires Width(rows, |cols|)
  {
    match ColumnLike(cols, DatetimeLike)
    case None => Err(NoDatetimeColumn)
    case Some(j) =>
      var cols2 := Rename(cols, cols[j], DatetimeName);
      var layout := Layout(cols2);
      match Resolve(cols2, layout)
      case Err(e) => Err(e)
      case Ok(idx) => Ok(Frame(layout, Project(rows, |cols2|, idx)))
  }

  /** Ingestion fails for want of a concentration column exactly when no column name contains "PM2.5". */
  lemma IngestNeedsPm25Column(t: Frame)
    requires WellFormed(t)
    ensures Ingest(t) == Err(NoPm25Column) <==>
      forall k :: 0 <= k < |t.columns| ==> !Contains(t.columns[k], Pm25)
  {
    match ColumnLike(t.columns, Pm25)
    case None =>
    case Some(i) =>
      if NumericAt(t.rows, i) {
        CleanWidth(t.rows, i, |t.columns|);
        FinishErrors(Rename(t.columns, t.columns[i], Pm25), Clean(t.rows, i));
      }
  }

  /** The timestamp and projection steps only ever fail with their own two errors. */
  lemma FinishErrors(cols: seq<string>, rows: seq<seq<Cell>>)
    requires Width(rows, |cols|)
    ensures Finish(cols, rows).Err? ==>
      Finish(cols, rows).error.NoDatetimeColumn? || Finish(cols, rows).error.MissingColumns?
  {
  }

  /** With a concentration column, ingestion fails on its contents exactly when one of its cells is text. */
  lemma IngestNeedsNumbers(t: Frame, i: nat)
    requires WellFormed(t) && ColumnLike(t.columns, Pm25) == Some(i)
    ensures Ingest(t) == Err(NonNumericPm25) <==> exists k :: 0 <= k < |t.rows| && t.rows[k][i].Text?
  {
    if NumericAt(t.rows, i) {
      CleanWidth(t.rows, i, |t.columns|);
      FinishErrors(Rename(t.columns, t.columns[i], Pm25), Clean(t.rows, i));
    }
  }

  /** Facts about the fixed names, by evaluating the substring scan. */
  lemma NameFacts()
    ensures Contains(Pm25, Pm25)
    ensures !Contains(Pm25, DatetimeLike)
    ensures !Contains("City", Pm25) && !Contains("City", DatetimeLike)
    ensures !Contains("Name", Pm25) && !Contains("Name", DatetimeLike)
  {
    assert Pm25[..|Pm25|] == Pm25;
  }

  /** Neither search can match the map's coordinate columns. */
  lemma CoordinateNameFacts()
    ensures !Contains("longitude", Pm25) && !Contains("longitude", DatetimeLike)
    ensures !Contains("latitude", Pm25) && !Contains("latitude", DatetimeLike)
  {
    LacksFirstChar("longitude", Pm25);
    LacksFirstChar("longitude", DatetimeLike);
    LacksFirstChar("latitude", Pm25);
    LacksFirstChar("latitude", DatetimeLike);
  }

  /** A name without the pattern's first character does not contain the pattern. */
  lemma {:induction false} LacksFirstChar(s: string, pat: string)
    requires |pat| > 0 && pat[0] !in s
    ensures !Contains(s, pat)
    decreases |s|
  {
    if |s| >= |pat| {
      assert s[..|pat|][0] == s[0];
      LacksFirstChar(s[1..], pat);
    }
  }

  /** The concentration column, renamed, is found again by the timestamp search only if its old name was one. */
  lemma AfterPm25Rename(cols: seq<string>, i: nat, k: nat)
    requires ColumnLike(cols, Pm25) == Some(i) && k < |cols|
    ensures Rename(cols, cols[i], Pm25)[k] == if cols[k] == cols[i] then Pm25 else cols[k]
    ensures Contains(Rename(cols, cols[i], Pm25)[k], DatetimeLike) <==>
      cols[k] != cols[i] && Contains(cols[k], DatetimeLike)
  {
    NameFacts();
  }

  /**
   * With a numeric concentration column, the timestamp search fails exactly when
   * every name containing "Datetime" is the concentration column's own name,
   * which was renamed away beforehand.
   */
  lemma IngestNeedsDatetimeColumn(t: Frame, i: nat)
    requires WellFormed(t) && ColumnLike(t.columns, Pm25) == Some(i) && NumericAt(t.rows, i)
    ensures Ingest(t) == Err(NoDatetimeColumn) <==>
      forall k :: 0 <= k < |t.columns| ==> t.columns[k] == t.columns[i] || !Contains(t.columns[k], DatetimeLike)
  {
    var cols1 := Rename(t.columns, t.columns[i], Pm25);
    CleanWidth(t.rows, i, |t.columns|);
    forall k | 0 <= k < |t.columns|
      ensures Contains(cols1[k], DatetimeLike) <==> t.columns[k] != t.columns[i] && Contains(t.columns[k], DatetimeLike)
    {
      AfterPm25Rename(t.columns, i, k);
    }
  }

  /** A successful ingestion is the timestamp and projection steps applied to the cleaned rows. */
  lemma IngestUnfold(t: Frame, i: nat)
    requires WellFormed(t) && ColumnLike(t.columns, Pm25) == Some(i) && Ingest(t).Ok?
    ensures NumericAt(t.rows, i) && Width(Clean(t.rows, i), |t.columns|)
    ensures Ingest(t) == Finish(Rename(t.columns, t.columns[i], Pm25), Clean(t.rows, i))
  {
    CleanWidth(t.rows, i, |t.columns|);
  }

  /** A successful finish found a timestamp column and every name of the layout it chose. */
  lemma FinishUnfold(cols: seq<string>, rows: seq<seq<Cell>>)
    requires Width(rows, |cols|) && Finish(cols, rows).Ok?
    ensures ColumnLike(cols, DatetimeLike).Some?
    ensures var cols2 := Rename(cols, cols[ColumnLike(cols, DatetimeLike).value], DatetimeName);
      Resolve(cols2, Layout(cols2)).Ok? &&
      Finish(cols, rows).value == Frame(Layout(cols2), Project(rows, |cols2|, Positions(cols2, Layout(cols2))))
  {
  }

  /** Both renames leave the presence of a name that neither search can match as it was. */
  lemma NameSurvivesRenames(cols: seq<string>, i: nat, j: nat, name: string)
    requires ColumnLike(cols, Pm25) == Some(i)
    requires ColumnLike(Rename(cols, cols[i], Pm25), DatetimeLike) == Some(j)
    requires !Contains(name, Pm25) && !Contains(name, DatetimeLike) && name != DatetimeName
    ensures var cols1 := Rename(cols, cols[i], Pm25);
      name in Rename(cols1, cols1[j], DatetimeName) <==> name in cols
  {
    NameFacts();
    var cols1 := Rename(cols, cols[i], Pm25);
    RenameKeeps(cols, cols[i], Pm25, name);
    RenameKeeps(cols1, cols1[j], DatetimeName, name);
  }

  /**
   * The shape of a successful ingestion: the City/Name layout exactly when the
   * upload has a column called "City" (whether or not it has "Name"), and the
   * map's gate then always passes.
   */
  lemma IngestLayout(t: Frame, f: Frame)
    requires WellFormed(t) && Ingest(t) == Ok(f)
    ensures f.columns == if "City" in t.columns then CityLayout else PlainLayout
    ensures MapGate(f.columns) && "latitude" in f.columns
  {
    var i := ColumnLike(t.columns, Pm25).value;
    IngestUnfold(t, i);
    var cols1 := Rename(t.columns, t.columns[i], Pm25);
    var j := FinishLayout(cols1, Clean(t.rows, i), f);
    NameFacts();
    NameSurvivesRenames(t.columns, i, j, "City");
    LayoutFacts();
  }

  /** A successful finish lays its columns out by the gate applied to the renamed names. */
  lemma FinishLayout(cols: seq<string>, rows: seq<seq<Cell>>, f: Frame) returns (j: nat)
    requires Width(rows, |cols|) && Finish(cols, rows) == Ok(f)
    ensures ColumnLike(cols, DatetimeLike) == Some(j) && j < |cols|
    ensures f.columns == Layout(Rename(cols, cols[j], DatetimeName))
  {
    FinishUnfold(cols, rows);
    j := ColumnLike(cols, DatetimeLike).value;
  }

  /** Both layouts carry the map's columns. */
  lemma LayoutFacts()
    ensures MapGate(CityLayout) && "latitude" in CityLayout
    ensures MapGate(PlainLayout) && "latitude" in PlainLayout
  {
    assert CityLayout[4] == "longitude" && PlainLayout[2] == "longitude";
    assert CityLayout[5] == "latitude" && PlainLayout[3] == "latitude";
  }

  /**
   * An upload with "City" but no "Name" column fails at the projection, naming
   * "Name" among the missing columns, because the gate only looked for "City".
   */
  lemma IngestCityWithoutName(t: Frame, i: nat)
    requires WellFormed(t) && ColumnLike(t.columns, Pm25) == Some(i) && NumericAt(t.rows, i)
    requires exists k :: 0 <= k < |t.columns| && t.columns[k] != t.columns[i] && Contains(t.columns[k], DatetimeLike)
    requires "City" in t.columns && "Name" !in t.columns
    ensures Ingest(t).Err? && Ingest(t).error.MissingColumns? && "Name" in Ingest(t).error.names
  {
    IngestNeedsDatetimeColumn(t, i);
    var cols1 := Rename(t.columns, t.columns[i], Pm25);
    CleanWidth(t.rows, i, |t.columns|);
    var j := ColumnLike(cols1, DatetimeLike).value;
    var cols2 := Rename(cols1, cols1[j], DatetimeName);
    NameFacts();
    NameSurvivesRenames(t.columns, i, j, "City");
    NameSurvivesRenames(t.columns, i, j, "Name");
    assert Layout(cols2) == CityLayout;
    assert "Name" in CityLayout;
  }

  /**
   * When ingestion gets past the concentration and timestamp steps, it
   * succeeds exactly when the upload has "longitude" and "latitude" and, if it
   * has "City", also "Name"; otherwise the KeyError of the projection lists
   * exactly the layout's names that the upload lacks ("datetime" and "PM2.5"
   * are always present by then).
   */
  lemma IngestSucceeds(t: Frame, i: nat)
    requires WellFormed(t) && ColumnLike(t.columns, Pm25) == Some(i) && NumericAt(t.rows, i)
    requires exists k :: 0 <= k < |t.columns| && t.columns[k] != t.columns[i] && Contains(t.columns[k], DatetimeLike)
    ensures Ingest(t).Ok? <==>
      "longitude" in t.columns && "latitude" in t.columns && ("City" in t.columns ==> "Name" in t.columns)
    ensures Ingest(t).Err? ==>
      Ingest(t).error.MissingColumns? &&
      var layout := if "City" in t.columns then CityLayout else PlainLayout;
      forall n :: n in Ingest(t).error.names <==>
        n in layout && n != DatetimeName && n != Pm25 && n !in t.columns
  {
    IngestNeedsDatetimeColumn(t, i);
    CleanWidth(t.rows, i, |t.columns|);
    var cols1 := Rename(t.columns, t.columns[i], Pm25);
    var j := ColumnLike(cols1, DatetimeLike).value;
    var cols2 := Rename(cols1, cols1[j], DatetimeName);
    assert Ingest(t) == Finish(cols1, Clean(t.rows, i));
    FinishResolves(cols1, Clean(t.rows, i));
    RenamedNames(t.columns, i, j);
    LayoutResolves(cols2, t.columns);
  }

  /** Past the timestamp step, the finish succeeds or fails exactly as the projection's lookup does. */
  lemma FinishResolves(cols: seq<string>, rows: seq<seq<Cell>>)
    requires Width(rows, |cols|) && ColumnLike(cols, DatetimeLike).Some?
    ensures var cols2 := Rename(cols, cols[ColumnLike(cols, DatetimeLike).value], DatetimeName);
      (Finish(cols, rows).Ok? <==> Resolve(cols2, Layout(cols2)).Ok?) &&
      (Finish(cols, rows).Err? ==> Finish(cols, rows).error == Resolve(cols2, Layout(cols2)).error)
  {
  }

  /**
   * The lookup of the chosen layout in the renamed columns, given which of
   * its names the renamed columns have.
   */
  lemma LayoutResolves(cols2: seq<string>, cols: seq<string>)
    requires DatetimeName in cols2 && Pm25 in cols2
    requires ("City" in cols2 <==> "City" in cols) && ("Name" in cols2 <==> "Name" in cols)
    requires ("longitude" in cols2 <==> "longitude" in cols) && ("latitude" in cols2 <==> "latitude" in cols)
    ensures Resolve(cols2, Layout(cols2)).Ok? <==>
      "longitude" in cols && "latitude" in cols && ("City" in cols ==> "Name" in cols)
    ensures Resolve(cols2, Layout(cols2)).Err? ==>
      Resolve(cols2, Layout(cols2)).error.MissingColumns? &&
      var layout := if "City" in cols then CityLayout else PlainLayout;
      forall n :: n in Resolve(cols2, Layout(cols2)).error.names <==>
        n in layout && n != DatetimeName && n != Pm25 && n !in cols
  {
    var layout := Layout(cols2);
    assert layout == if "City" in cols then CityLayout else PlainLayout;
    assert forall n :: n in layout ==> (n in cols2 <==> n == DatetimeName || n == Pm25 || n in cols);
    if "City" in cols {
      assert CityLayout[2] == "Name" && CityLayout[4] == "longitude" && CityLayout[5] == "latitude";
    } else {
      assert PlainLayout[2] == "longitude" && PlainLayout[3] == "latitude";
    }
  }

  /**
   * After both renames "datetime" and "PM2.5" are columns, and every other
   * name of either layout is a column exactly when it was one in the upload.
   */
  lemma RenamedNames(cols: seq<string>, i: nat, j: nat)
    requires ColumnLike(cols, Pm25) == Some(i)
    requires ColumnLike(Rename(cols, cols[i], Pm25), DatetimeLike) == Some(j)
    ensures var cols1 := Rename(cols, cols[i], Pm25);
      var cols2 := Rename(cols1, cols1[j], DatetimeName);
      DatetimeName in cols2 && Pm25 in cols2 &&
      ("City" in cols2 <==> "City" in cols) && ("Name" in cols2 <==> "Name" in cols) &&
      ("longitude" in cols2 <==> "longitude" in cols) && ("latitude" in cols2 <==> "latitude" in cols)
  {
    NameFacts();
    CoordinateNameFacts();
    var cols1 := Rename(cols, cols[i], Pm25);
    var cols2 := Rename(cols1, cols1[j], DatetimeName);
    Pm25FirstAfterRename(cols, i);
    Pm25FirstAfterDatetimeRename(cols1, i, j);
    assert cols2[j] == DatetimeName;
    assert cols2[i] == Pm25;
    NameSurvivesRenames(cols, i, j, "City");
    NameSurvivesRenames(cols, i, j, "Name");
    NameSurvivesRenames(cols, i, j, "longitude");
    NameSurvivesRenames(cols, i, j, "latitude");
  }

  /** After the first rename, the concentration column is the first column called "PM2.5". */
  lemma Pm25FirstAfterRename(cols: seq<string>, i: nat)
    requires ColumnLike(cols, Pm25) == Some(i)
    ensures Rename(cols, cols[i], Pm25)[i] == Pm25
    ensures forall k :: 0 <= k < i ==> Rename(cols, cols[i], Pm25)[k] != Pm25
  {
    NameFacts();
    forall k | 0 <= k < i ensures Rename(cols, cols[i], Pm25)[k] != Pm25 {
      assert !Contains(cols[k], Pm25);
    }
  }

  /** The timestamp rename leaves the first "PM2.5" column where it was. */
  lemma Pm25FirstAfterDatetimeRename(cols: seq<string>, i: nat, j: nat)
    requires i < |cols| && cols[i] == Pm25 && forall k :: 0 <= k < i ==> cols[k] != Pm25
    requires ColumnLike(cols, DatetimeLike) == Some(j)
    ensures Rename(cols, cols[j], DatetimeName)[i] == Pm25
    ensures forall k :: 0 <= k < i ==> Rename(cols, cols[j], DatetimeName)[k] != Pm25
  {
    NameFacts();
    assert cols[j] != Pm25;
  }

  /** A name's position is the column `i` that is the first so called. */
  lemma PositionIsFirst(cols: seq<string>, names: seq<string>, m: nat, i: nat)
    requires forall n :: n in names ==> n in cols
    requires m < |names| && i < |cols| && cols[i] == names[m]
    requires forall k :: 0 <= k < i ==> cols[k] != names[m]
    ensures Positions(cols, names)[m] == i
  {
  }

  /**
   * If column `i` is the first called "PM2.5" when the timestamp step starts,
   * the projection's concentration column is column `i` of the input rows.
   */
  lemma FinishRows(cols: seq<string>, rows: seq<seq<Cell>>, i: nat, f: Frame)
    requires Width(rows, |cols|) && Finish(cols, rows) == Ok(f)
    requires i < |cols| && cols[i] == Pm25 && forall k :: 0 <= k < i ==> cols[k] != Pm25
    ensures WellFormed(f) && |f.rows| == |rows|
    ensures Pm25Position(f.columns) < |f.columns| && f.columns[Pm25Position(f.columns)] == Pm25
    ensures forall k :: 0 <= k < |rows| ==> f.rows[k][Pm25Position(f.columns)] == rows[k][i]
  {
    FinishUnfold(cols, rows);
    var j := ColumnLike(cols, DatetimeLike).value;
    var cols2 := Rename(cols, cols[j], DatetimeName);
    var layout := Layout(cols2);
    LayoutPm25(layout);
    Pm25FirstAfterDatetimeRename(cols, i, j);
    PositionIsFirst(cols2, layout, Pm25Position(layout), i);
    ProjectColumn(rows, |cols2|, Positions(cols2, layout), Pm25Position(layout));
  }

  /** Each layout has "PM2.5" at its concentration position. */
  lemma LayoutPm25(layout: seq<string>)
    requires layout == CityLayout || layout == PlainLayout
    ensures Pm25Position(layout) < |layout| && layout[Pm25Position(layout)] == Pm25
  {
  }

  /**
   * Every cell of a finished table is the input cell under the first column
   * of its name, once the timestamp column has been renamed.
   */
  lemma FinishCells(cols: seq<string>, rows: seq<seq<Cell>>, f: Frame)
    requires Width(rows, |cols|) && Finish(cols, rows) == Ok(f)
    ensures ColumnLike(cols, DatetimeLike).Some?
    ensures |f.rows| == |rows|
    ensures var cols2 := Rename(cols, cols[ColumnLike(cols, DatetimeLike).value], DatetimeName);
      f.columns == Layout(cols2) &&
      (forall n :: n in f.columns ==> n in cols2) &&
      forall k, m :: 0 <= k < |rows| && 0 <= m < |f.columns| ==>
        |f.rows[k]| == |f.columns| && f.rows[k][m] == rows[k][Positions(cols2, f.columns)[m]]
  {
    FinishUnfold(cols, rows);
    var cols2 := Rename(cols, cols[ColumnLike(cols, DatetimeLike).value], DatetimeName);
    var idx := Positions(cols2, Layout(cols2));
    forall m | 0 <= m < |idx| {
      ProjectColumn(rows, |cols2|, idx, m);
    }
  }

  /** Each layout names "PM2.5" only at its concentration position. */
  lemma LayoutOthers(layout: seq<string>)
    requires layout == CityLayout || layout == PlainLayout
    ensures forall m :: 0 <= m < |layout| && m != Pm25Position(layout) ==> layout[m] != Pm25
  {
  }

  /** Column `m` of a projection is column `idx[m]` of the input. */
  lemma ProjectColumn(rows: seq<seq<Cell>>, w: nat, idx: seq<nat>, m: nat)
    requires Width(rows, w)
    requires forall m :: 0 <= m < |idx| ==> idx[m] < w
    requires m < |idx|
    ensures forall k :: 0 <= k < |rows| ==> Project(rows, w, idx)[k][m] == rows[k][idx[m]]
  {
  }

  /**
   * A successful ingestion keeps exactly the rows whose concentration is a
   * number above 5, in order (see `DropLow` and `DropLowOrder`); the k-th
   * output row carries the k-th kept concentration rounded to a whole number
   * within 0.5 of it, hence at least 5.
   */
  lemma IngestRows(t: Frame, i: nat, f: Frame)
    requires WellFormed(t) && ColumnLike(t.columns, Pm25) == Some(i) && Ingest(t) == Ok(f)
    ensures WellFormed(f)
    ensures Pm25Position(f.columns) < |f.columns| && f.columns[Pm25Position(f.columns)] == Pm25
    ensures |f.rows| == |DropLow(t.rows, i)|
    ensures forall k :: 0 <= k < |f.rows| ==>
      Keep(DropLow(t.rows, i)[k], i) &&
      var x := DropLow(t.rows, i)[k][i]; var v := f.rows[k][Pm25Position(f.columns)];
      v.Num? && x.x - 0.5 <= v.x <= x.x + 0.5 && v.x == v.x.Floor as real && v.x >= NoiseFloor
  {
    IngestUnfold(t, i);
    Pm25FirstAfterRename(t.columns, i);
    FinishRows(Rename(t.columns, t.columns[i], Pm25), Clean(t.rows, i), i, f);
    CleanValues(t.rows, i);
  }

  /**
   * A successful ingestion keeps every other cell as it was: outside the
   * concentration column, cell m of output row k is cell k of the kept rows
   * under the first column named `f.columns[m]` once both renames are done.
   */
  lemma IngestCells(t: Frame, i: nat, f: Frame)
    requires WellFormed(t) && ColumnLike(t.columns, Pm25) == Some(i) && Ingest(t) == Ok(f)
    ensures Width(DropLow(t.rows, i), |t.columns|)
    ensures var cols1 := Rename(t.columns, t.columns[i], Pm25);
      ColumnLike(cols1, DatetimeLike).Some? &&
      var cols2 := Rename(cols1, cols1[ColumnLike(cols1, DatetimeLike).value], DatetimeName);
      |f.rows| == |DropLow(t.rows, i)| &&
      (forall n :: n in f.columns ==> n in cols2) &&
      forall k, m :: 0 <= k < |f.rows| && 0 <= m < |f.columns| && m != Pm25Position(f.columns) ==>
        |f.rows[k]| == |f.columns| &&
        f.rows[k][m] == DropLow(t.rows, i)[k][Positions(cols2, f.columns)[m]]
  {
    IngestUnfold(t, i);
    Pm25FirstAfterRename(t.columns, i);
    CleanWidth(t.rows, i, |t.columns|);
    var cols1 := Rename(t.columns, t.columns[i], Pm25);
    FinishOtherCells(cols1, DropLow(t.rows, i), Clean(t.rows, i), i, f);
  }

  /**
   * When column `i` is the first called "PM2.5" and only it is rounded, every
   * finished cell outside the concentration column is the unrounded cell
   * under the first column of its name.
   */
  lemma FinishOtherCells(cols: seq<string>, kept: seq<seq<Cell>>, rows: seq<seq<Cell>>, i: nat, f: Frame)
    requires Width(kept, |cols|) && rows == RoundColumn(kept, i)
    requires Width(rows, |cols|) && Finish(cols, rows) == Ok(f)
    requires i < |cols| && cols[i] == Pm25 && forall k :: 0 <= k < i ==> cols[k] != Pm25
    ensures ColumnLike(cols, DatetimeLike).Some? &&
      var cols2 := Rename(cols, cols[ColumnLike(cols, DatetimeLike).value], DatetimeName);
      |f.rows| == |kept| &&
      (forall n :: n in f.columns ==> n in cols2) &&
      forall k, m :: 0 <= k < |f.rows| && 0 <= m < |f.columns| && m != Pm25Position(f.columns) ==>
        |f.rows[k]| == |f.columns| &&
        f.rows[k][m] == kept[k][Positions(cols2, f.columns)[m]]
  {
    FinishCells(cols, rows, f);
    var j := ColumnLike(cols, DatetimeLike).value;
    var cols2 := Rename(cols, cols[j], DatetimeName);
    Pm25FirstAfterDatetimeRename(cols, i, j);
    LayoutOthers(f.columns);
    forall k, m | 0 <= k < |f.rows| && 0 <= m < |f.columns| && m != Pm25Position(f.columns)
      ensures f.rows[k][m] == kept[k][Positions(cols2, f.columns)[m]]
    {
      var q := Positions(cols2, f.columns)[m];
      assert cols2[q] == f.columns[m] != Pm25;
      assert rows[k][q] == kept[k][q];
    }
  }
}
