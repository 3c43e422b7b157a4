/**
 * The map-marker severity colour (app.py, `get_pm25_color` and the
 * missing-value guard beside its call).  The breakpoints are the US EPA
 * PM2.5 AQI breakpoints in µg/m³ as they stood before 2024, with the two
 * Hazardous rows merged into one band that the code closes at 500.4.
 * Concentrations are exact reals.
 */
module Severity {

  import opened Wrappers

  const Breakpoints: seq<real> := [0.0, 12.0, 35.4, 55.4, 150.4, 250.4, 500.4]

  /** Good, Moderate, Unhealthy for Sensitive Groups, Unhealthy, Very Unhealthy, Hazardous. */
  const Colors: seq<string> := ["#00E400", "#FFFF00", "#FF7E00", "#FF0000", "#8F3F97", "#7E0023"]

  const Gray: string := "gray"

  /** Number of bands: one fewer than the breakpoints. */
  const Bands: nat := 6

  /** Band `i` is the closed interval between breakpoints `i` and `i + 1`. */
  predicate InBand(v: real, i: nat)
    requires i < Bands
  {
    Breakpoints[i] <= v <= Breakpoints[i + 1]
  }

  /** The first band at or after `i` whose closed interval holds `v`: the scan of the source's loop. */
  function FirstBand(v: real, i: nat): (r: Option<nat>)
    requires i <= Bands
    ensures r.Some? ==> i <= r.value < Bands && InBand(v, r.value)
    decreases Bands - i
  {
    if i == Bands then None
    else if InBand(v, i) then Some(i)
    else FirstBand(v, i + 1)
  }

  /** The band the source's scan selects for `v`. */
  function Band(v: real): Option<nat>
  {
    FirstBand(v, 0)
  }

  /** The colour the source returns for `v`. */
  function Pm25Color(v: real): string
  {
    match Band(v)
    case Some(b) => Colors[b]
    case None => Gray
  }

  /** `get_pm25_color`: a scan over the breakpoint pairs, returning at the first that holds `value`. */
  method GetPm25Color(value: real) returns (color: string)
    ensures color == Pm25Color(value)
  {
    var i := 0;
    while i < |Breakpoints| - 1
      invariant 0 <= i <= Bands
      invariant FirstBand(value, i) == Band(value)
    {
      if Breakpoints[i] <= value <= Breakpoints[i + 1] {
        return Colors[i];
      }
      i := i + 1;
    }
    return Gray;
  }

  /**
   * The colour given to a map point: a missing (NaN) mean is gray without
   * consulting the breakpoints, any other value gets `get_pm25_color`.
   */
  method MarkerColor(value: Option<real>) returns (color: string)
    ensures value.None? ==> color == Gray
    ensures value.Some? ==> color == Pm25Color(value.value)
  {
    if value.None? {
      color := Gray;
    } else {
      color := GetPm25Color(value.value);
    }
  }

  /**
   * An independent statement of the bands: the first closed on both ends,
   * every later one open below, so that a boundary value belongs to the
   * lower band; nothing outside `[0, 500.4]`.
   */
  function ByRange(v: real): Option<nat>
  {
    if v < 0.0 || v > 500.4 then None
    else if v <= 12.0 then Some(0)
    else if v <= 35.4 then Some(1)
    else if v <= 55.4 then Some(2)
    else if v <= 150.4 then Some(3)
    else if v <= 250.4 then Some(4)
    else Some(5)
  }

  /** The first-match scan agrees with the interval table everywhere. */
  lemma BandIsByRange(v: real)
    ensures Band(v) == ByRange(v)
  {
    assert FirstBand(v, 6) == None;
    assert FirstBand(v, 5) == if InBand(v, 5) then Some(5) else None;
    assert FirstBand(v, 4) == if InBand(v, 4) then Some(4) else FirstBand(v, 5);
    assert FirstBand(v, 3) == if InBand(v, 3) then Some(3) else FirstBand(v, 4);
    assert FirstBand(v, 2) == if InBand(v, 2) then Some(2) else FirstBand(v, 3);
    assert FirstBand(v, 1) == if InBand(v, 1) then Some(1) else FirstBand(v, 2);
  }

  /**
   * The bands partition `[0, 500.4]`: `v` is given band `b` exactly when it lies
   * in band `b`'s interval and in no earlier one.
   */
  lemma BandCharacterised(v: real, b: nat)
    requires b < Bands
    ensures Band(v) == Some(b) <==> InBand(v, b) && forall j :: 0 <= j < b ==> !InBand(v, j)
  {
    BandIsByRange(v);
  }

  /** Every value in `[0, 500.4]` gets one of the six colours; every value outside gets gray. */
  lemma ColorInRange(v: real)
    ensures 0.0 <= v <= 500.4 ==> Band(v).Some? && Band(v).value < Bands && Pm25Color(v) == Colors[Band(v).value]
    ensures Pm25Color(v) == Gray <==> v < 0.0 || v > 500.4
  {
    BandIsByRange(v);
    assert forall i :: 0 <= i < Bands ==> Colors[i] != Gray;
  }

  /** A value exactly on an inner breakpoint gets the colour of the band below it. */
  lemma BoundaryTakesLowerBand(i: nat)
    requires 1 <= i < Bands
    ensures Band(Breakpoints[i]) == Some(i - 1)
    ensures Pm25Color(Breakpoints[i]) == Colors[i - 1]
  {
    BandIsByRange(Breakpoints[i]);
  }

  /** Concrete readings either side of the Moderate and Hazardous lower edges. */
  lemma EdgeExamples()
    ensures Pm25Color(12.0) == Colors[0] && Pm25Color(12.01) == Colors[1]
    ensures Pm25Color(250.4) == Colors[4] && Pm25Color(250.41) == Colors[5]
    ensures Pm25Color(-0.1) == Gray && Pm25Color(500.5) == Gray
  {
    BandIsByRange(12.0);
    BandIsByRange(12.01);
    BandIsByRange(250.4);
    BandIsByRange(250.41);
    BandIsByRange(-0.1);
    BandIsByRange(500.5);
  }

  /** On `[0, 500.4]` a larger value never gets a lower band. */
  lemma BandMonotone(v: real, w: real)
    requires 0.0 <= v <= w <= 500.4
    ensures Band(v).Some? && Band(w).Some? && Band(v).value <= Band(w).value
  {
    BandIsByRange(v);
    BandIsByRange(w);
  }
}
