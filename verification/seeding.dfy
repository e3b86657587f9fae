/** The sample-data seeder (test.py): it parses the transcribed half-hourly
    observations (test.py:151-182), maps a condition text to sunshine and
    precipitation (test.py:184-221) and expands every observation into
    5-second measurement records (test.py:336-379). Date parsing is a
    parameter that yields seconds since a midnight, and every random draw is
    a parameter in [0, 1]. */
module Seeding {
  import opened Wrappers
  import opened Text
  import Stats

  // ---------------------------------------------------------------------
  // Parsing the transcribed observations
  // ---------------------------------------------------------------------

  /** One transcribed entry; the temperature is already an integer. */
  datatype RawPoint = RawPoint(datetime: string, temp: int, conditions: string,
                               wind: string, humidity: string, pressure: string)

  /** One parsed observation; `time` is in seconds. */
  datatype Point = Point(time: int, temp: int, conditions: string,
                         wind: int, humidity: int, pressure: int)

  /** `int(s.lower().replace(" km/h", "").strip())`, or 0 when the text says
      "no wind" in any case. */
  function ParseWind(s: string): (r: Option<int>)
    ensures Contains(ToLower(s), "no wind") ==> r == Some(0)
  {
    var w := ToLower(s);
    if Contains(w, "no wind") then Some(0)
    else ParseInt(Strip(ReplaceAll(w, " km/h", "")))
  }

  /** `int(s.replace("%", "").strip())`. */
  function ParseHumidity(s: string): Option<int> {
    ParseInt(Strip(ReplaceAll(s, "%", "")))
  }

  /** `int(s.replace(" mbar", "").strip())`. */
  function ParsePressure(s: string): Option<int> {
    ParseInt(Strip(ReplaceAll(s, " mbar", "")))
  }

  predicate NoUpper(s: string) {
    forall i | 0 <= i < |s| :: !('A' <= s[i] <= 'Z')
  }

  lemma LowerFixed(s: string)
    requires NoUpper(s)
    ensures ToLower(s) == s
  {
  }

  /** The characters of a rendered integer: digits and a leading minus. */
  lemma IntStringChars(n: int)
    ensures |IntToString(n)| > 0
    ensures forall i | 0 <= i < |IntToString(n)| :: IsDigit(IntToString(n)[i]) || IntToString(n)[i] == '-'
  {
  }

  /** Removing a unit that follows a rendered integer leaves the integer's
      text. */
  lemma StripUnit(n: int, unit: string)
    requires |unit| > 0 && !IsDigit(unit[0]) && unit[0] != '-'
    ensures ReplaceAll(IntToString(n) + unit, unit, "") == IntToString(n)
  {
    var a := IntToString(n);
    IntStringChars(n);
    assert a + unit == a + unit + "";
    ReplaceAfterPlainPrefix(a, unit, "", "");
    assert ReplaceAll("", unit, "") == "";
  }

  lemma ParseRendered(n: int)
    ensures ParseInt(Strip(IntToString(n))) == Some(n)
  {
    IntStringChars(n);
    StripDigits(IntToString(n));
    ParseIntRoundTrip(n);
  }

  /** "N km/h" parses to N. */
  lemma WindRoundTrip(n: int)
    ensures ParseWind(IntToString(n) + " km/h") == Some(n)
  {
    var s := IntToString(n) + " km/h";
    IntStringChars(n);
    LowerFixed(s);
    NotContainsWithoutFirst(s, "no wind");
    StripUnit(n, " km/h");
    ParseRendered(n);
  }

  /** "P%" parses to P. */
  lemma HumidityRoundTrip(n: int)
    ensures ParseHumidity(IntToString(n) + "%") == Some(n)
  {
    StripUnit(n, "%");
    ParseRendered(n);
  }

  /** "V mbar" parses to V. */
  lemma PressureRoundTrip(n: int)
    ensures ParsePressure(IntToString(n) + " mbar") == Some(n)
  {
    StripUnit(n, " mbar");
    ParseRendered(n);
  }

  /** "No wind" in the transcription's own capitalisation parses to 0. */
  lemma CalmParsesToZero()
    ensures ParseWind("No wind") == Some(0)
  {
    assert ToLower("No wind") == "no wind";
    assert StartsWith("no wind", "no wind");
  }

  /** One entry: any field that fails to parse makes the whole entry fail. */
  function ParseEntry(raw: RawPoint, parseTime: string -> Option<int>): (r: Option<Point>)
    ensures r.Some? <==> (parseTime(raw.datetime).Some? && ParseWind(raw.wind).Some?
                          && ParseHumidity(raw.humidity).Some? && ParsePressure(raw.pressure).Some?)
    ensures r.Some? ==> (r.value.time == parseTime(raw.datetime).value && r.value.temp == raw.temp
                         && r.value.conditions == raw.conditions && r.value.wind == ParseWind(raw.wind).value
                         && r.value.humidity == ParseHumidity(raw.humidity).value
                         && r.value.pressure == ParsePressure(raw.pressure).value)
  {
    var time := parseTime(raw.datetime);
    var wind := ParseWind(raw.wind);
    var humidity := ParseHumidity(raw.humidity);
    var pressure := ParsePressure(raw.pressure);
    if time.None? || wind.None? || humidity.None? || pressure.None? then None
    else Some(Point(time.value, raw.temp, raw.conditions, wind.value, humidity.value, pressure.value))
  }

  /** `x` is the parse of one of the entries. */
  predicate ParsedFrom(x: Point, raws: seq<RawPoint>, parseTime: string -> Option<int>) {
    exists j | 0 <= j < |raws| :: ParseEntry(raws[j], parseTime) == Some(x)
  }

  /** The positions, from `from` on, of the entries that parse, ascending. */
  function ParsingFrom(raws: seq<RawPoint>, parseTime: string -> Option<int>, from: nat): (idx: seq<nat>)
    requires from <= |raws|
    ensures |idx| <= |raws| - from
    ensures forall k | 0 <= k < |idx| :: from <= idx[k] < |raws| && ParseEntry(raws[idx[k]], parseTime).Some?
    ensures forall j | from <= j < |raws| && ParseEntry(raws[j], parseTime).Some? :: j in idx
    ensures forall a, b | 0 <= a < b < |idx| :: idx[a] < idx[b]
    decreases |raws| - from
  {
    if from == |raws| then []
    else
      var rest := ParsingFrom(raws, parseTime, from + 1);
      if ParseEntry(raws[from], parseTime).Some? then [from] + rest else rest
  }

  /** `ps` holds the parses of the entries at positions `idx`, one each and
      in the same order. */
  predicate ParsesAt(raws: seq<RawPoint>, parseTime: string -> Option<int>, idx: seq<nat>, ps: seq<Point>) {
    |ps| == |idx| && forall k | 0 <= k < |ps| :: idx[k] < |raws| && ParseEntry(raws[idx[k]], parseTime) == Some(ps[k])
  }

  /** The parses of the entries from `from` on that parse: one point per
      such entry, in the order of `ParsingFrom`. */
  function ParseFrom(raws: seq<RawPoint>, parseTime: string -> Option<int>, from: nat): (r: seq<Point>)
    requires from <= |raws|
    ensures ParsesAt(raws, parseTime, ParsingFrom(raws, parseTime, from), r)
    decreases |raws| - from
  {
    if from == |raws| then []
    else
      var rest := ParseFrom(raws, parseTime, from + 1);
      match ParseEntry(raws[from], parseTime)
      case Some(p) => [p] + rest
      case None => rest
  }

  /** The entries that parse, in input order, one point each; the others
      are skipped. */
  function ParseEach(raws: seq<RawPoint>, parseTime: string -> Option<int>): (r: seq<Point>)
    ensures ParsesAt(raws, parseTime, ParsingFrom(raws, parseTime, 0), r)
    ensures |r| <= |raws|
    ensures forall x | x in r :: ParsedFrom(x, raws, parseTime)
    ensures forall j | 0 <= j < |raws| && ParseEntry(raws[j], parseTime).Some? :: ParseEntry(raws[j], parseTime).value in r
  {
    var idx := ParsingFrom(raws, parseTime, 0);
    var r := ParseFrom(raws, parseTime, 0);
    forall j | 0 <= j < |raws| && ParseEntry(raws[j], parseTime).Some?
      ensures ParseEntry(raws[j], parseTime).value in r
    {
      var k :| 0 <= k < |idx| && idx[k] == j;
      assert ParseEntry(raws[idx[k]], parseTime) == Some(r[k]);
    }
    r
  }

  /** Ascending by time. */
  predicate SortedByTime(ps: seq<Point>) {
    forall a, b | 0 <= a < b < |ps| :: ps[a].time <= ps[b].time
  }

  /** Places `p` before the first point that is not earlier. */
  function Insert(p: Point, ps: seq<Point>): (r: seq<Point>)
    requires SortedByTime(ps)
    ensures |r| == |ps| + 1
    ensures r[0] == p || (|ps| > 0 && r[0] == ps[0])
    ensures SortedByTime(r)
    ensures multiset(r) == multiset{p} + multiset(ps)
    decreases |ps|
  {
    if |ps| == 0 || p.time <= ps[0].time then [p] + ps
    else
      var rest := Insert(p, ps[1..]);
      assert ps == [ps[0]] + ps[1..];
      assert ps[0].time <= rest[0].time;
      assert forall k | 0 <= k < |rest| :: rest[0].time <= rest[k].time;
      SortedCons(ps[0], rest);
      [ps[0]] + rest
  }

  lemma SortedCons(x: Point, ps: seq<Point>)
    requires SortedByTime(ps)
    requires forall k | 0 <= k < |ps| :: x.time <= ps[k].time
    ensures SortedByTime([x] + ps)
  {
    var r := [x] + ps;
    forall a, b | 0 <= a < b < |r|
      ensures r[a].time <= r[b].time
    {
      assert r[b] == ps[b - 1];
      if a > 0 {
        assert r[a] == ps[a - 1];
      }
    }
  }

  /** `list.sort(key = time)`: a permutation of the input in ascending time. */
  function SortByTime(ps: seq<Point>): (r: seq<Point>)
    ensures |r| == |ps|
    ensures SortedByTime(r)
    ensures multiset(r) == multiset(ps)
    decreases |ps|
  {
    if |ps| == 0 then []
    else
      var rest := SortByTime(ps[1..]);
      assert ps == [ps[0]] + ps[1..];
      Insert(ps[0], rest)
  }

  lemma SameMembers<T>(a: seq<T>, b: seq<T>)
    requires multiset(a) == multiset(b)
    ensures forall x :: x in a <==> x in b
  {
    forall x
      ensures x in a <==> x in b
    {
      assert x in a <==> x in multiset(a);
      assert x in b <==> x in multiset(b);
    }
  }

  /** `parse_transcribed_data`: the entries that parse, sorted by time. */
  function ParseTranscribed(raws: seq<RawPoint>, parseTime: string -> Option<int>): (r: seq<Point>)
    ensures |r| <= |raws|
    ensures SortedByTime(r)
    ensures forall x | x in r :: ParsedFrom(x, raws, parseTime)
    ensures forall j | 0 <= j < |raws| && ParseEntry(raws[j], parseTime).Some? :: ParseEntry(raws[j], parseTime).value in r
    ensures multiset(r) == multiset(ParseEach(raws, parseTime))
  {
    var parsed := ParseEach(raws, parseTime);
    var r := SortByTime(parsed);
    SameMembers(r, parsed);
    r
  }

  /** An entry whose wind cannot be parsed is skipped, and the others are
      kept. */
  lemma BadEntrySkipped(good: RawPoint, bad: RawPoint, parseTime: string -> Option<int>)
    requires ParseEntry(good, parseTime).Some?
    requires ParseWind(bad.wind).None?
    ensures ParseTranscribed([bad, good], parseTime) == [ParseEntry(good, parseTime).value]
  {
    var p := ParseEntry(good, parseTime).value;
    assert [bad, good][1..] == [good];
    assert ParseEach([good], parseTime) == [p] by {
      assert [good][1..] == [];
    }
    assert ParseEach([bad, good], parseTime) == [p];
  }

  // ---------------------------------------------------------------------
  // Condition text to sunshine and precipitation
  // ---------------------------------------------------------------------

  /** The random draws one call can consume, each a fraction of its range:
      `uniform(a, b)` is `a + (b - a) * u`. `fogChance` is `random()`. */
  datatype Draws = Draws(precip: real, sun: real, nightSun: real,
                         fogChance: real, fogPrecip: real, cap: real)

  predicate ValidDraws(d: Draws) {
    0.0 <= d.precip <= 1.0 && 0.0 <= d.sun <= 1.0 && 0.0 <= d.nightSun <= 1.0
    && 0.0 <= d.fogChance < 1.0 && 0.0 <= d.fogPrecip <= 1.0 && 0.0 <= d.cap <= 1.0
  }

  function Uniform(a: real, b: real, u: real): real {
    a + (b - a) * u
  }

  /** The condition text, lower-cased, contains `kw`. */
  predicate Has(text: string, kw: string) {
    Contains(ToLower(text), kw)
  }

  /** The night hours. */
  predicate Night(hour: int) {
    hour < 6 || hour >= 21
  }

  predicate LightRain(text: string) {
    Has(text, "light rain") || Has(text, "drizzle")
  }

  predicate RainWords(text: string) {
    LightRain(text) || Has(text, "rain") || Has(text, "showers")
  }

  predicate Broken(text: string) {
    Has(text, "partly sunny") || Has(text, "scattered clouds")
    || Has(text, "passing clouds") || Has(text, "broken clouds")
  }

  predicate Overcast(text: string) {
    Has(text, "cloudy") || Has(text, "overcast")
  }

  predicate Foggy(text: string) {
    Has(text, "fog") || Has(text, "mist")
  }

  /** The precipitation set by the rain keywords, before the fog branch. */
  function RainAmount(text: string, d: Draws): (mm: real)
    requires ValidDraws(d)
    ensures LightRain(text) ==> 0.1 <= mm <= 0.3
    ensures !LightRain(text) && Has(text, "rain") ==> 0.4 <= mm <= 1.5
    ensures !LightRain(text) && !Has(text, "rain") && Has(text, "showers") ==> 0.5 <= mm <= 2.0
    ensures !RainWords(text) ==> mm == 0.0
  {
    if LightRain(text) then
      Stats.Round2Within(Uniform(0.1, 0.3, d.precip), 10, 30);
      Stats.Round2(Uniform(0.1, 0.3, d.precip))
    else if Has(text, "rain") then
      Stats.Round2Within(Uniform(0.4, 1.5, d.precip), 40, 150);
      Stats.Round2(Uniform(0.4, 1.5, d.precip))
    else if Has(text, "showers") then
      Stats.Round2Within(Uniform(0.5, 2.0, d.precip), 50, 200);
      Stats.Round2(Uniform(0.5, 2.0, d.precip))
    else 0.0
  }

  lemma NonNegProduct(x: real, y: real)
    requires x >= 0.0 && y >= 0.0
    ensures x * y >= 0.0
  {
  }

  /** A sunshine draw over `[lo, hi]` tenths rounded to one decimal. */
  function SunDraw(lo: int, hi: int, u: real): (pct: real)
    requires 0 <= lo <= hi && 0.0 <= u <= 1.0
    ensures lo as real / 10.0 <= pct <= hi as real / 10.0
  {
    var a := lo as real / 10.0;
    var b := hi as real / 10.0;
    assert a <= Uniform(a, b, u) <= b by {
      assert a <= b;
      NonNegProduct(b - a, u);
      NonNegProduct(b - a, 1.0 - u);
    }
    Stats.Round1Within(Uniform(a, b, u), lo, hi);
    Stats.Round1(Uniform(a, b, u))
  }

  /** `map_conditions_to_db_schema`: (sunshine %, precipitation mm). */
  function MapConditions(text: string, hour: int, d: Draws): (r: (real, real))
    requires ValidDraws(d)
    ensures 0.0 <= r.0 <= 100.0 && 0.0 <= r.1 <= 2.0
    // precipitation, by the first rain keyword that matches
    ensures LightRain(text) ==> 0.1 <= r.1 <= 0.3
    ensures !LightRain(text) && Has(text, "rain") ==> 0.4 <= r.1 <= 1.5
    ensures !LightRain(text) && !Has(text, "rain") && Has(text, "showers") ==> 0.5 <= r.1 <= 2.0
    ensures !RainWords(text) ==> r.1 <= 0.1
    ensures !RainWords(text) && r.1 > 0.0 ==>
      !Has(text, "clear") && !Has(text, "sunny") && !Broken(text) && !Overcast(text) && Foggy(text) && d.fogChance < 0.05
    // precipitation caps the sunshine
    ensures r.1 > 0.0 ==> r.0 <= 25.0
    // sunshine, by the first sky keyword that matches
    ensures Night(hour) && Has(text, "clear") ==> r.0 == 0.0
    ensures !Night(hour) && Has(text, "clear") && !RainWords(text) ==> 85.0 <= r.0 <= 100.0
    ensures !Has(text, "clear") && Has(text, "sunny") && !RainWords(text) ==>
      if Night(hour) then r.0 <= 10.0 else 80.0 <= r.0
    ensures !Has(text, "clear") && !Has(text, "sunny") && Broken(text) && !RainWords(text) ==>
      if Night(hour) then r.0 == 0.0 else 30.0 <= r.0 <= 70.0
    ensures !Has(text, "clear") && !Has(text, "sunny") && !Broken(text) && Overcast(text) && !RainWords(text) ==>
      if Night(hour) then r.0 == 0.0 else 10.0 <= r.0 <= 30.0
    ensures !Has(text, "clear") && !Has(text, "sunny") && !Broken(text) && !Overcast(text) && Foggy(text) ==>
      r.0 <= 15.0
    ensures (!Has(text, "clear") && !Has(text, "sunny") && !Broken(text) && !Overcast(text) && !Foggy(text)
             && !RainWords(text)) ==> r == (50.0, 0.0)
  {
    var rain := RainAmount(text, d);
    var sky: (real, real) :=
      if Has(text, "clear") then
        (if Night(hour) then 0.0 else SunDraw(850, 1000, d.sun), rain)
      else if Has(text, "sunny") then
        (if Night(hour) then SunDraw(0, 100, d.nightSun) else SunDraw(800, 1000, d.sun), rain)
      else if Broken(text) then
        (if Night(hour) then 0.0 else SunDraw(300, 700, d.sun), rain)
      else if Overcast(text) then
        (if Night(hour) then 0.0 else SunDraw(100, 300, d.sun), rain)
      else if Foggy(text) then
        var mm := if d.fogChance < 0.05 && rain == 0.0 then
          Stats.Round2Within(Uniform(0.0, 0.1, d.fogPrecip), 0, 10);
          Stats.Round2(Uniform(0.0, 0.1, d.fogPrecip))
        else rain;
        (SunDraw(0, 150, d.sun), mm)
      else (50.0, rain);
    if sky.1 > 0.0 then
      var cap := SunDraw(0, 250, d.cap);
      (if sky.0 <= cap then sky.0 else cap, sky.1)
    else sky
  }

  /** "light rain" is also "rain", so the light-rain test must come first. */
  lemma LightRainIsRain(text: string)
    requires Has(text, "light rain")
    ensures Has(text, "rain")
  {
    assert "light " + "rain" == "light rain";
    ContainsSuffix(ToLower(text), "light ", "rain");
  }

  /** "partly sunny" contains "sunny", so such a text always takes the sunny
      branch: its `partly sunny` test is never reached. By day without rain
      its sunshine is in [80, 100] rather than [30, 70]. */
  lemma PartlySunnyTakesSunnyBranch(text: string, hour: int, d: Draws)
    requires ValidDraws(d)
    requires Has(text, "partly sunny") && !Has(text, "clear") && !RainWords(text) && !Night(hour)
    ensures 80.0 <= MapConditions(text, hour, d).0 <= 100.0
    ensures MapConditions(text, hour, d).1 == 0.0
  {
    assert "partly " + "sunny" == "partly sunny";
    ContainsSuffix(ToLower(text), "partly ", "sunny");
  }

  // ---------------------------------------------------------------------
  // Expanding the observations into 5-second records
  // ---------------------------------------------------------------------

  /** Seconds between two records. */
  const Step: nat := 5

  /** How long the last observation holds: 30 minutes. */
  const LastSpan: nat := 1800

  /** The hour of day of a time counted in seconds from a midnight. */
  function HourOfDay(t: int): (h: int)
    ensures 0 <= h < 24
  {
    (t / 3600) % 24
  }

  /** The record times `t, t + 5, ...` strictly before `next`. */
  function Ticks(t: int, next: int): (r: seq<int>)
    ensures |r| == if t < next then (next - t + Step - 1) / Step else 0
    ensures forall k | 0 <= k < |r| :: r[k] == t + Step * k && r[k] < next
    decreases next - t
  {
    if t < next then [t] + Ticks(t + Step, next) else []
  }

  /** Two consecutive runs of ticks on the same 5-second grid make one run. */
  lemma {:induction false} TicksAppend(a: int, b: int, c: int)
    requires a <= b <= c && (b - a) % Step == 0
    ensures Ticks(a, b) + Ticks(b, c) == Ticks(a, c)
    decreases b - a
  {
    if a < b {
      TicksAppend(a + Step, b, c);
      assert Ticks(a, b) == [a] + Ticks(a + Step, b);
      assert Ticks(a, c) == [a] + Ticks(a + Step, c);
    }
  }

  /** One stored measurement. */
  datatype Record = Record(time: int, temperature: real, pressure: real, humidity: real,
                           sunshine: real, wind: real, precipitation: real)

  /** The record of observation `p` at time `t`: humidity as a fraction
      rounded to two decimals, sunshine and precipitation from the condition
      text at that hour. */
  function MakeRecord(p: Point, t: int, d: Draws): (r: Record)
    requires ValidDraws(d)
    ensures r.time == t && r.temperature == p.temp as real && r.pressure == p.pressure as real
    ensures r.wind == p.wind as real && r.humidity == p.humidity as real / 100.0
    ensures (r.sunshine, r.precipitation) == MapConditions(p.conditions, HourOfDay(t), d)
  {
    HumidityExact(p.humidity);
    var sp := MapConditions(p.conditions, HourOfDay(t), d);
    Record(t, p.temp as real, p.pressure as real, Stats.Round2(p.humidity as real / 100.0),
           sp.0, p.wind as real, sp.1)
  }

  /** `round(pct / 100, 2)` of a whole percentage is exact. */
  lemma HumidityExact(pct: int)
    ensures Stats.Round2(pct as real / 100.0) == pct as real / 100.0
  {
    var x := pct as real / 100.0;
    assert x * 100.0 + 0.5 == pct as real + 0.5;
    assert (pct as real + 0.5).Floor == pct;
  }

  /** The time the records of observation `i` run up to. */
  function NextTime(points: seq<Point>, i: nat): int
    requires i < |points|
  {
    if i + 1 < |points| then points[i + 1].time else points[i].time + LastSpan
  }

  ghost predicate ValidDrawing(draw: int -> Draws) {
    forall t :: ValidDraws(draw(t))
  }

  /** The records of observation `i`, one per tick up to the next
      observation. */
  function Span(points: seq<Point>, i: nat, draw: int -> Draws): (r: seq<Record>)
    requires i < |points| && ValidDrawing(draw)
    ensures |r| == |Ticks(points[i].time, NextTime(points, i))|
    ensures forall k | 0 <= k < |r| :: r[k] == MakeRecord(points[i], points[i].time + Step * k, draw(points[i].time + Step * k))
  {
    var ticks := Ticks(points[i].time, NextTime(points, i));
    seq(|ticks|, k requires 0 <= k < |ticks| => MakeRecord(points[i], ticks[k], draw(ticks[k])))
  }

  /** The records of observations `i..` in order. */
  function ExpandFrom(points: seq<Point>, i: nat, draw: int -> Draws): (r: seq<Record>)
    requires i <= |points| && ValidDrawing(draw)
    decreases |points| - i
  {
    if i == |points| then [] else Span(points, i, draw) + ExpandFrom(points, i + 1, draw)
  }

  function Times(rs: seq<Record>): (ts: seq<int>)
    ensures |ts| == |rs| && forall k | 0 <= k < |rs| :: ts[k] == rs[k].time
  {
    seq(|rs|, k requires 0 <= k < |rs| => rs[k].time)
  }

  /** Consecutive observations lie a whole number of steps apart. */
  predicate OnGrid(points: seq<Point>) {
    forall i | 0 <= i < |points| - 1 :: (points[i + 1].time - points[i].time) % Step == 0
  }

  /** The records of one observation fall on its own ticks. */
  lemma SpanTimes(points: seq<Point>, i: nat, draw: int -> Draws)
    requires i < |points| && ValidDrawing(draw)
    ensures Times(Span(points, i, draw)) == Ticks(points[i].time, NextTime(points, i))
  {
  }

  /** From observation `i` on, the records of sorted observations on a
      5-second grid are one record every 5 seconds from the observation's
      time to 30 minutes after the last one. */
  lemma {:induction false} ExpandFromGrid(points: seq<Point>, i: nat, draw: int -> Draws)
    requires i < |points| && ValidDrawing(draw)
    requires SortedByTime(points) && OnGrid(points)
    ensures Times(ExpandFrom(points, i, draw)) == Ticks(points[i].time, points[|points| - 1].time + LastSpan)
    decreases |points| - i
  {
    var span := Span(points, i, draw);
    var rest := ExpandFrom(points, i + 1, draw);
    var end := points[|points| - 1].time + LastSpan;
    assert ExpandFrom(points, i, draw) == span + rest;
    TimesAppend(span, rest);
    SpanTimes(points, i, draw);
    if i + 1 == |points| {
      assert Times(rest) == [];
      assert Times(span) + [] == Times(span);
    } else {
      ExpandFromGrid(points, i + 1, draw);
      GridSpan(points, i, i + 1);
      GridSpan(points, i + 1, |points| - 1);
      TicksAppend(points[i].time, points[i + 1].time, end);
    }
  }

  lemma TimesAppend(a: seq<Record>, b: seq<Record>)
    ensures Times(a + b) == Times(a) + Times(b)
  {
  }

  /** The expansion loop of the seeder. For sorted observations on a
      5-second grid the records are one every 5 seconds from the first
      observation to 30 minutes after the last, `(last - first) / 5 + 360`
      of them. */
  function Expand(points: seq<Point>, draw: int -> Draws): (r: seq<Record>)
    requires ValidDrawing(draw)
    ensures |points| > 0 && SortedByTime(points) && OnGrid(points) ==>
      Times(r) == Ticks(points[0].time, points[|points| - 1].time + LastSpan)
      && |r| == (points[|points| - 1].time - points[0].time) / Step + 360
  {
    if |points| > 0 && SortedByTime(points) && OnGrid(points) then
      ExpandFromGrid(points, 0, draw);
      GridSpan(points, 0, |points| - 1);
      ExpandFrom(points, 0, draw)
    else ExpandFrom(points, 0, draw)
  }

  /** On the grid, the first and last observations lie a whole number of
      steps apart. */
  lemma {:induction false} GridSpan(points: seq<Point>, i: nat, j: nat)
    requires i <= j < |points| && SortedByTime(points) && OnGrid(points)
    ensures points[i].time <= points[j].time && (points[j].time - points[i].time) % Step == 0
    decreases j - i
  {
    if i < j {
      GridSpan(points, i + 1, j);
      assert (points[i + 1].time - points[i].time) % Step == 0;
    }
  }

  /** The last observation spans 30 minutes: 360 records. */
  lemma LastPointRecords(points: seq<Point>, draw: int -> Draws)
    requires |points| > 0 && ValidDrawing(draw)
    ensures |Span(points, |points| - 1, draw)| == 360
  {
  }

  /** A record's values are those of its observation, with humidity as a
      fraction. */
  lemma RecordValues(points: seq<Point>, i: nat, draw: int -> Draws, k: nat)
    requires i < |points| && ValidDrawing(draw)
    requires k < |Span(points, i, draw)|
    ensures Span(points, i, draw)[k].humidity == points[i].humidity as real / 100.0
    ensures Span(points, i, draw)[k].time == points[i].time + Step * k < NextTime(points, i)
    ensures Span(points, i, draw)[k].precipitation > 0.0 ==> Span(points, i, draw)[k].sunshine <= 25.0
  {
    var t := points[i].time + Step * k;
    assert t == Ticks(points[i].time, NextTime(points, i))[k];
    var sp := MapConditions(points[i].conditions, HourOfDay(t), draw(t));
  }
}
