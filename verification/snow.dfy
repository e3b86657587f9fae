/** The hour-by-hour snow-depth simulation run over the hourly table
    (ai-main.py:228-246). The state is the depth in millimetres; each hour adds
    fresh snow, subtracts melt and clamps the result to [0, 1000]. The value
    recorded for the hour is the state rounded to 2 decimals, while the state
    carried into the next hour stays unrounded. */
module Snow {
  import opened Wrappers
  import Stats
  import Units

  /** Below this hourly mean temperature (deg C) precipitation falls as snow. */
  const SnowTemperature: real := 0.5
  /** Millimetres of snow per millimetre of water. */
  const WaterToSnowRatio: real := 10.0
  /** Millimetres of water melted per hour and degree above 0 deg C. */
  const MeltRatePerDegree: real := 1.0
  const MaxDepth: real := 1000.0

  /** Fresh snow of one hour; a missing temperature compares false, so it
      brings none. */
  function FreshSnow(prcp: real, temp: Option<real>): (f: real)
    ensures f >= 0.0
    ensures f > 0.0 <==> prcp > 0.0 && temp.Some? && temp.value < SnowTemperature
    ensures f > 0.0 ==> f == prcp * WaterToSnowRatio
  {
    if prcp > 0.0 && temp.Some? && temp.value < SnowTemperature then prcp * WaterToSnowRatio else 0.0
  }

  /** Snow depth melted in one hour from a cover of `depth` millimetres. */
  function Melt(depth: real, temp: Option<real>): (m: real)
    ensures m >= 0.0
    ensures m > 0.0 <==> depth > 0.0 && temp.Some? && temp.value > 0.0
    ensures m > 0.0 ==> m == temp.value * WaterToSnowRatio
  {
    if depth > 0.0 && temp.Some? && temp.value > 0.0 then MeltRatePerDegree * temp.value * WaterToSnowRatio else 0.0
  }

  /** One hour of the simulation. */
  function Step(depth: real, prcp: real, temp: Option<real>): (d: real)
    ensures 0.0 <= d <= MaxDepth
  {
    var withFresh := depth + FreshSnow(prcp, temp);
    Stats.Clip(withFresh - Melt(withFresh, temp), 0.0, MaxDepth)
  }

  /** Growth needs precipitation below 0.5 deg C; shrinking needs a cover and
      a temperature above 0 deg C; at or below 0 deg C the cover never
      shrinks. */
  lemma StepDirection(depth: real, prcp: real, temp: Option<real>)
    requires 0.0 <= depth <= MaxDepth
    ensures Step(depth, prcp, temp) > depth ==> prcp > 0.0 && temp.Some? && temp.value < SnowTemperature
    ensures Step(depth, prcp, temp) < depth ==> depth > 0.0 && temp.Some? && temp.value > 0.0
    ensures temp.None? || temp.value <= 0.0 ==> Step(depth, prcp, temp) >= depth
  {
  }

  /** Closed forms of the two ordinary hours: snowfall in the cold and melt
      in a dry warm hour. */
  lemma StepCases(depth: real, prcp: real, temp: real)
    requires 0.0 <= depth <= MaxDepth
    ensures prcp > 0.0 && temp <= 0.0 ==>
      Step(depth, prcp, Some(temp)) == Stats.Clip(depth + WaterToSnowRatio * prcp, 0.0, MaxDepth)
    ensures prcp <= 0.0 && temp > 0.0 ==>
      Step(depth, prcp, Some(temp)) == Stats.Clip(depth - WaterToSnowRatio * temp, 0.0, MaxDepth)
  {
  }

  /** The unrounded states after each hour, starting from `depth`. */
  function States(rows: seq<Units.HourlyRow>, depth: real): (s: seq<real>)
    ensures |s| == |rows|
    ensures forall i | 0 <= i < |s| :: 0.0 <= s[i] <= MaxDepth
    ensures |rows| > 0 ==> s[0] == Step(depth, rows[0].prcp, rows[0].temp)
    ensures forall i | 0 < i < |s| :: s[i] == Step(s[i - 1], rows[i].prcp, rows[i].temp)
    decreases |rows|
  {
    if |rows| == 0 then []
    else
      var d := Step(depth, rows[0].prcp, rows[0].temp);
      [d] + States(rows[1..], d)
  }

  /** The `snow` column: every hour records its state rounded to 2 decimals;
      the simulation starts from bare ground. */
  function Simulate(rows: seq<Units.HourlyRow>): (snow: seq<real>)
    ensures |snow| == |rows|
    ensures forall i | 0 <= i < |snow| :: snow[i] == Stats.Round2(States(rows, 0.0)[i])
    ensures forall i | 0 <= i < |snow| :: 0.0 <= snow[i] <= MaxDepth
  {
    var s := States(rows, 0.0);
    seq(|s|, i requires 0 <= i < |s| => RecordedDepth(s[i]))
  }

  /** The rounded value of one state stays within [0, 1000]. */
  function RecordedDepth(d: real): (r: real)
    requires 0.0 <= d <= MaxDepth
    ensures 0.0 <= r <= MaxDepth
    ensures -0.005 <= r - d <= 0.005
  {
    Stats.Round2Facts(d);
    Stats.Round2Within(d, 0, 100000);
    Stats.Round2(d)
  }

  /** With every hour at or below 0 deg C (or missing) the simulated cover
      never shrinks. */
  lemma {:induction false} ColdNeverShrinks(rows: seq<Units.HourlyRow>, depth: real)
    requires 0.0 <= depth <= MaxDepth
    requires forall i | 0 <= i < |rows| :: rows[i].temp.None? || rows[i].temp.value <= 0.0
    ensures forall i | 0 <= i < |rows| :: States(rows, depth)[i] >= depth
    ensures forall i, j | 0 <= i <= j < |rows| :: States(rows, depth)[i] <= States(rows, depth)[j]
    decreases |rows|
  {
    if |rows| > 0 {
      var d := Step(depth, rows[0].prcp, rows[0].temp);
      StepDirection(depth, rows[0].prcp, rows[0].temp);
      ColdNeverShrinks(rows[1..], d);
      assert States(rows, depth) == [d] + States(rows[1..], d);
    }
  }

  /** Every hour at 1 deg C or warmer melts at least 10 mm, so a thaw of
      `i + 1` such hours leaves at most `depth - 10 (i + 1)`. */
  lemma {:induction false} ThawBound(rows: seq<Units.HourlyRow>, depth: real)
    requires 0.0 <= depth <= MaxDepth
    requires forall i | 0 <= i < |rows| :: rows[i].temp.Some? && rows[i].temp.value >= 1.0
    ensures forall i | 0 <= i < |rows| :: States(rows, depth)[i] <= Max0(depth - 10.0 * (i + 1) as real)
    decreases |rows|
  {
    if |rows| > 0 {
      var d := Step(depth, rows[0].prcp, rows[0].temp);
      assert d <= Max0(depth - 10.0);
      ThawBound(rows[1..], d);
      assert States(rows, depth) == [d] + States(rows[1..], d);
      forall i | 1 <= i < |rows|
        ensures States(rows, depth)[i] <= Max0(depth - 10.0 * (i + 1) as real)
      {
        assert States(rows, depth)[i] == States(rows[1..], d)[i - 1];
      }
    }
  }

  function Max0(x: real): real {
    if x < 0.0 then 0.0 else x
  }

  /** One hundred thawing hours clear even the deepest cover. */
  lemma HundredHoursThaw(rows: seq<Units.HourlyRow>, depth: real)
    requires 0.0 <= depth <= MaxDepth
    requires |rows| >= 100
    requires forall i | 0 <= i < |rows| :: rows[i].temp.Some? && rows[i].temp.value >= 1.0
    ensures forall i | 99 <= i < |rows| :: States(rows, depth)[i] == 0.0
  {
    ThawBound(rows, depth);
  }

  /** An hour at -3 deg C with 5 mm of water: 50 mm of snow per hour. */
  function ColdWetHour(h: int): Units.HourlyRow {
    Units.HourlyRow(h, Some(-3.0), None, None, None, None, 0.0, 5.0)
  }

  lemma SnowfallScenario()
    ensures Simulate([ColdWetHour(0), ColdWetHour(1), ColdWetHour(2)]) == [50.0, 100.0, 150.0]
  {
    var rows := [ColdWetHour(0), ColdWetHour(1), ColdWetHour(2)];
    var s := States(rows, 0.0);
    assert s[0] == 50.0 && s[1] == 100.0 && s[2] == 150.0;
    Stats.Round2Facts(50.0);
    Stats.Round2Facts(100.0);
    Stats.Round2Facts(150.0);
  }

  /** An hour at -3 deg C whose water is 125/3600 mm (one sample at full
      intensity): 0.3472... mm of snow. */
  function DustingHour(h: int): Units.HourlyRow {
    Units.HourlyRow(h, Some(-3.0), None, None, None, None, 0.0, 125.0 / 3600.0)
  }

  /** Rounding is applied to the record only: two dustings record 0.35 and
      then 0.69, not 0.35 + 0.35. */
  lemma RoundingNotCarried()
    ensures Simulate([DustingHour(0), DustingHour(1)]) == [0.35, 0.69]
  {
    var rows := [DustingHour(0), DustingHour(1)];
    var s := States(rows, 0.0);
    assert s[0] == 1250.0 / 3600.0;
    assert s[1] == 2500.0 / 3600.0;
    assert (s[0] * 100.0 + 0.5).Floor == 35;
    assert (s[1] * 100.0 + 0.5).Floor == 69;
  }
}
