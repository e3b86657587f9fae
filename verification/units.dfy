/** Unit conversion of the raw 5-second sensor samples and their hourly
    aggregation (ai-main.py:184-226). */
module Units {
  import opened Wrappers
  import Stats

  const SunshineThreshold: real := 30.0
  const MaxPrecipRatePerHour: real := 25.0
  /** Sampling interval of the sensor board, in seconds. */
  const SampleSeconds: int := 5
  /** Sunshine minutes contributed by one sunny sample. */
  const SunnyMinutesPerSample: real := 5.0 / 60.0
  /** Precipitation (mm) of one sample at intensity 1.0. */
  const PrecipMmPerSample: real := (MaxPrecipRatePerHour / 3600.0) * 5.0

  /** One row of the `measurements` table; timestamps are whole seconds. */
  datatype RawSample = RawSample(
    ts: int,
    temperature: Option<real>,
    pressure: Option<real>,
    humidity: Option<real>,
    sunshine: Option<real>,
    windSpeed: Option<real>,
    precipitation: Option<real>)

  /** A converted sample after missing values were replaced by 0. */
  datatype Interval = Interval(
    temp: real,
    pres: real,
    rhum: real,
    wspd: real,
    sunMinutes: real,
    prcpMm: real)

  /** Converts one sample to physical units and fills missing values with 0. */
  function Convert(s: RawSample): (r: Interval)
    ensures s.humidity.Some? ==> r.rhum / 100.0 == s.humidity.value
    ensures s.windSpeed.Some? ==> r.wspd * 3.6 == s.windSpeed.value
    ensures s.precipitation.Some? ==> r.prcpMm * 144.0 == 5.0 * s.precipitation.value
    ensures r.sunMinutes == SunnyMinutesPerSample <==> s.sunshine.Some? && s.sunshine.value > SunshineThreshold
    ensures r.sunMinutes == 0.0 || r.sunMinutes == SunnyMinutesPerSample
    ensures s.temperature.Some? ==> r.temp == s.temperature.value
    ensures s.pressure.Some? ==> r.pres == s.pressure.value
    ensures s.temperature.None? ==> r.temp == 0.0
    ensures s.pressure.None? ==> r.pres == 0.0
    ensures s.humidity.None? ==> r.rhum == 0.0
    ensures s.windSpeed.None? ==> r.wspd == 0.0
    ensures s.precipitation.None? ==> r.prcpMm == 0.0
  {
    var sunny := s.sunshine.Some? && s.sunshine.value > SunshineThreshold;
    Interval(
      s.temperature.GetOr(0.0),
      s.pressure.GetOr(0.0),
      if s.humidity.Some? then s.humidity.value * 100.0 else 0.0,
      if s.windSpeed.Some? then s.windSpeed.value / 3.6 else 0.0,
      if sunny then SunnyMinutesPerSample else 0.0,
      if s.precipitation.Some? then s.precipitation.value * PrecipMmPerSample else 0.0)
  }

  /** The hourly bin of a timestamp (`resample('H')` bins to the hour's start). */
  function HourOf(ts: int): int {
    ts / 3600
  }

  /** One resampled hour. Mean and max of an empty hour are NaN (`None`);
      sums of an empty hour are 0. */
  datatype HourlyRow = HourlyRow(
    hour: int,
    temp: Option<real>,
    pres: Option<real>,
    rhum: Option<real>,
    wspd: Option<real>,
    wpgt: Option<real>,
    tsun: real,
    prcp: real)

  /** The converted samples of hour `h`, in input order. */
  function Bucket(xs: seq<RawSample>, h: int): (b: seq<Interval>)
    ensures |b| <= |xs|
    decreases |xs|
  {
    if |xs| == 0 then []
    else (if HourOf(xs[0].ts) == h then [Convert(xs[0])] else []) + Bucket(xs[1..], h)
  }

  function Temps(b: seq<Interval>): seq<real> { seq(|b|, i requires 0 <= i < |b| => b[i].temp) }
  function Pressures(b: seq<Interval>): seq<real> { seq(|b|, i requires 0 <= i < |b| => b[i].pres) }
  function Humidities(b: seq<Interval>): seq<real> { seq(|b|, i requires 0 <= i < |b| => b[i].rhum) }
  function Winds(b: seq<Interval>): seq<real> { seq(|b|, i requires 0 <= i < |b| => b[i].wspd) }
  function Sunshine(b: seq<Interval>): seq<real> { seq(|b|, i requires 0 <= i < |b| => b[i].sunMinutes) }
  function Precipitation(b: seq<Interval>): seq<real> { seq(|b|, i requires 0 <= i < |b| => b[i].prcpMm) }

  function MeanOf(vs: seq<real>): Option<real> {
    if |vs| == 0 then None else Some(Stats.Mean(vs))
  }

  function MaxOf(vs: seq<real>): Option<real> {
    if |vs| == 0 then None else Some(Stats.Max(vs))
  }

  /** One hour of `resample('H').agg(...)` followed by the two clips. */
  function HourRow(xs: seq<RawSample>, h: int): (r: HourlyRow)
    ensures r.hour == h
    ensures 0.0 <= r.tsun <= 60.0
    ensures r.rhum.Some? ==> 0.0 <= r.rhum.value <= 100.0
    ensures r.temp.Some? <==> |Bucket(xs, h)| > 0
    ensures r.wspd.Some? <==> r.wpgt.Some?
  {
    var b := Bucket(xs, h);
    var rhum := MeanOf(Humidities(b));
    HourlyRow(
      h,
      MeanOf(Temps(b)),
      MeanOf(Pressures(b)),
      if rhum.Some? then Some(Stats.Clip(rhum.value, 0.0, 100.0)) else None,
      MeanOf(Winds(b)),
      MaxOf(Winds(b)),
      Stats.Clip(Stats.Sum(Sunshine(b)), 0.0, 60.0),
      Stats.Sum(Precipitation(b)))
  }

  function MinHour(xs: seq<RawSample>): (h: int)
    requires |xs| > 0
    ensures forall i | 0 <= i < |xs| :: h <= HourOf(xs[i].ts)
    ensures exists i | 0 <= i < |xs| :: h == HourOf(xs[i].ts)
    decreases |xs|
  {
    if |xs| == 1 then HourOf(xs[0].ts)
    else
      var rest := MinHour(xs[1..]);
      if HourOf(xs[0].ts) <= rest then HourOf(xs[0].ts) else rest
  }

  function MaxHour(xs: seq<RawSample>): (h: int)
    requires |xs| > 0
    ensures forall i | 0 <= i < |xs| :: HourOf(xs[i].ts) <= h
    ensures exists i | 0 <= i < |xs| :: h == HourOf(xs[i].ts)
    decreases |xs|
  {
    if |xs| == 1 then HourOf(xs[0].ts)
    else
      var rest := MaxHour(xs[1..]);
      if HourOf(xs[0].ts) >= rest then HourOf(xs[0].ts) else rest
  }

  /** The hourly table: one row per hour from the first to the last sample's
      hour, gaps included. An empty input aborts the run. */
  function AggregateHourly(xs: seq<RawSample>): (r: Result<seq<HourlyRow>>)
    ensures r.Failure? <==> |xs| == 0
    ensures r.Success? ==> |r.value| == MaxHour(xs) - MinHour(xs) + 1
    ensures r.Success? ==> forall k | 0 <= k < |r.value| :: r.value[k] == HourRow(xs, MinHour(xs) + k)
  {
    if |xs| == 0 then Failure("no samples to aggregate")
    else
      var lo, hi := MinHour(xs), MaxHour(xs);
      assert lo <= HourOf(xs[0].ts) <= hi;
      Success(Rows(xs, lo, hi))
  }

  /** Sample `i` lands in a row of the hourly table, and that row is not
      empty (its mean temperature is defined). */
  predicate Covered(xs: seq<RawSample>, i: nat)
    requires i < |xs|
  {
    var table := AggregateHourly(xs);
    && table.Success?
    && 0 <= HourOf(xs[i].ts) - MinHour(xs) < |table.value|
    && table.value[HourOf(xs[i].ts) - MinHour(xs)].temp.Some?
  }

  /** Every sample lands in a non-empty row of the hourly table. */
  lemma AggregateCoversSamples(xs: seq<RawSample>)
    ensures forall i: nat | i < |xs| :: Covered(xs, i)
  {
    forall i: nat | i < |xs|
      ensures Covered(xs, i)
    {
      SampleHasRow(xs, i);
    }
  }

  lemma SampleHasRow(xs: seq<RawSample>, i: nat)
    requires i < |xs|
    ensures Covered(xs, i)
  {
    var h := HourOf(xs[i].ts);
    TableAt(xs, h);
    BucketHasSample(xs, i);
  }

  lemma TableAt(xs: seq<RawSample>, h: int)
    requires |xs| > 0 && MinHour(xs) <= h <= MaxHour(xs)
    ensures AggregateHourly(xs).Success?
    ensures 0 <= h - MinHour(xs) < |AggregateHourly(xs).value|
    ensures AggregateHourly(xs).value[h - MinHour(xs)] == HourRow(xs, h)
  {
    var k := h - MinHour(xs);
    assert MinHour(xs) + k == h;
  }

  /** The rows of hours `lo` to `hi`, inclusive. */
  function Rows(xs: seq<RawSample>, lo: int, hi: int): (rows: seq<HourlyRow>)
    requires lo <= hi + 1
    ensures |rows| == hi - lo + 1
    ensures forall h | lo <= h <= hi :: rows[h - lo] == HourRow(xs, h)
    decreases hi - lo + 1
  {
    if lo > hi then []
    else
      var rest := Rows(xs, lo + 1, hi);

      [HourRow(xs, lo)] + rest
  }

  lemma {:induction false} BucketHasSample(xs: seq<RawSample>, i: nat)
    requires i < |xs|
    ensures Convert(xs[i]) in Bucket(xs, HourOf(xs[i].ts))
    decreases i
  {
    if i > 0 {
      BucketHasSample(xs[1..], i - 1);
    }
  }

  /** The number of samples in a bucket whose sensor reported sun. */
  function SunnyCount(b: seq<Interval>): nat
    decreases |b|
  {
    if |b| == 0 then 0 else (if b[0].sunMinutes > 0.0 then 1 else 0) + SunnyCount(b[1..])
  }

  /** The hour's sunshine is 5/60 minute per sunny sample, capped at 60 minutes. */
  lemma {:induction false} SunshineMinutes(xs: seq<RawSample>, h: int)
    ensures HourRow(xs, h).tsun == Stats.Clip(SunnyMinutesPerSample * SunnyCount(Bucket(xs, h)) as real, 0.0, 60.0)
  {
    BucketSunshineValues(xs, h);
    SunnySum(Bucket(xs, h));
  }

  lemma {:induction false} BucketSunshineValues(xs: seq<RawSample>, h: int)
    ensures forall i | 0 <= i < |Bucket(xs, h)| ::
      Bucket(xs, h)[i].sunMinutes == 0.0 || Bucket(xs, h)[i].sunMinutes == SunnyMinutesPerSample
    decreases |xs|
  {
    if |xs| > 0 {
      BucketSunshineValues(xs[1..], h);
    }
  }

  lemma {:induction false} SunnySum(b: seq<Interval>)
    requires forall i | 0 <= i < |b| :: b[i].sunMinutes == 0.0 || b[i].sunMinutes == SunnyMinutesPerSample
    ensures Stats.Sum(Sunshine(b)) == SunnyMinutesPerSample * SunnyCount(b) as real
    decreases |b|
  {
    if |b| > 0 {
      SunnySum(b[1..]);
      assert Sunshine(b)[1..] == Sunshine(b[1..]);
    }
  }

  /** The raw precipitation intensities of hour `h`, in input order, a
      missing intensity counting as 0 (the `fillna(0)`). */
  function Intensities(xs: seq<RawSample>, h: int): (vs: seq<real>)
    decreases |xs|
  {
    if |xs| == 0 then []
    else (if HourOf(xs[0].ts) == h then [xs[0].precipitation.GetOr(0.0)] else []) + Intensities(xs[1..], h)
  }

  /** The hour's precipitation is the sum of its samples' raw intensities
      times 25/3600*5 mm. */
  lemma PrecipitationTotal(xs: seq<RawSample>, h: int)
    ensures HourRow(xs, h).prcp == Stats.Sum(Intensities(xs, h)) * PrecipMmPerSample
  {
    BucketIntensities(xs, h);
    PrecipSumScales(Bucket(xs, h), Intensities(xs, h));
  }

  /** Each converted sample of the hour carries its raw intensity times the
      per-sample amount. */
  lemma {:induction false} BucketIntensities(xs: seq<RawSample>, h: int)
    ensures |Intensities(xs, h)| == |Bucket(xs, h)|
    ensures forall i | 0 <= i < |Bucket(xs, h)| :: Bucket(xs, h)[i].prcpMm == Intensities(xs, h)[i] * PrecipMmPerSample
    decreases |xs|
  {
    if |xs| > 0 {
      BucketIntensities(xs[1..], h);
    }
  }

  lemma {:induction false} PrecipSumScales(b: seq<Interval>, intensities: seq<real>)
    requires |intensities| == |b|
    requires forall i | 0 <= i < |b| :: b[i].prcpMm == intensities[i] * PrecipMmPerSample
    ensures Stats.Sum(Precipitation(b)) == Stats.Sum(intensities) * PrecipMmPerSample
    decreases |b|
  {
    if |b| > 0 {
      PrecipSumScales(b[1..], intensities[1..]);
      assert Precipitation(b)[1..] == Precipitation(b[1..]);
    }
  }

  /** The hourly mean temperature lies between the hour's coldest and warmest
      sample; the gust is the strongest sample wind of the hour, and at least
      the mean wind. */
  lemma HourBounds(xs: seq<RawSample>, h: int)
    requires |Bucket(xs, h)| > 0
    ensures Stats.Min(Temps(Bucket(xs, h))) <= HourRow(xs, h).temp.value <= Stats.Max(Temps(Bucket(xs, h)))
    ensures forall i | 0 <= i < |Bucket(xs, h)| :: Bucket(xs, h)[i].wspd <= HourRow(xs, h).wpgt.value
    ensures exists i | 0 <= i < |Bucket(xs, h)| :: Bucket(xs, h)[i].wspd == HourRow(xs, h).wpgt.value
    ensures HourRow(xs, h).wspd.value <= HourRow(xs, h).wpgt.value
  {
    var b := Bucket(xs, h);
    Stats.MeanBetweenMinMax(Temps(b));
    Stats.MeanBetweenMinMax(Winds(b));
    assert forall i | 0 <= i < |b| :: Winds(b)[i] == b[i].wspd;
    var m := Stats.Max(Winds(b));
    var j :| 0 <= j < |Winds(b)| && Winds(b)[j] == m;
    assert b[j].wspd == HourRow(xs, h).wpgt.value;
  }
}
