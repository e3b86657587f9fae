# Weather classification pipeline and sample-data seeder — a Dafny model

This project models the deterministic data pipeline of the weather-classification
scripts `ai-main.py` and `ai-old.py`, and the sample-data seeder `test.py`.
Properties of the model are proved with Dafny.

In the scripts:

- Raw 5-second sensor samples are converted to physical units and resampled into an
  hourly table.
- A snow cover is simulated hour by hour.
- Meteostat condition codes are folded into six weather categories.
- A feature engine adds differences, lags, rolling statistics, lagged category
  indicators and threshold flags that depend on one another.
- Incomplete rows are dropped, and the feature list of each of the four classifiers is
  filtered to the columns that exist.
- A four-stage cascade of classifiers labels every row:
  - M1: precipitation or not;
  - M2: fog among the rest;
  - M3: the precipitation type;
  - M4: clear or cloudy.

The seeder parses half-hourly weather observations transcribed from screenshots. It
maps each observation's condition text to sunshine and precipitation, and expands
every observation into 5-second measurement records.

Everything the scripts delegate to libraries or the outside world becomes a parameter:

- The classifiers' outputs are per-row input sequences.
- M3's label decoding is a class table.
- The random draws of the seeder are fractions in [0, 1].
- Date parsing yields seconds since a midnight.
- The Magnus formula of the dew point is an opaque function.

Missing values (NaN) are `None` in an `Option<real>`. Integers are unbounded and reals
are exact. Python's `round` is modelled as rounding half up on exact reals.

Modules, one per file:

| file | module | what it is |
|---|---|---|
| wrappers.dfy | `Wrappers` | `Option` and `Result` |
| text.dfy | `Text` | ASCII lower-casing, `in`, `replace`, `strip` over ASCII whitespace, `int()` over ASCII digits, `str()` and string order |
| stats.dfy | `Stats` | sum, mean, min, max, `np.clip`, `round(x, 1)` and `round(x, 2)` |
| taxonomy.dfy | `Taxonomy` | the condition-code taxonomy |
| units.dfy | `Units` | unit conversion and the hourly resampling |
| snow.dfy | `Snow` | the snow-cover simulation |
| tables.dfy | `Tables` | a table of named columns of equal length |
| series.dfy | `Series` | diff, lag, rolling windows and the dew point |
| catflags.dfy | `CategoryFlags` | lagged category indicator columns |
| resolver.dfy | `FlagResolver` | the threshold-flag resolver |
| selection.dfy | `Selection` | category preprocessing, the final drop of incomplete rows, feature lists, the split by year |
| cascade.dfy | `Cascade` | the four-stage prediction cascade |
| seeding.dfy | `Seeding` | the seeder's parser, condition mapping and 5-second expansion |

## Model

| member | source | states |
|---|---|---|
| Taxonomy.Truncate | ai-main.py:113 | `int()` of a float truncates toward zero: the result is within one of the value, on the side of zero |
| Taxonomy.CategoryOfCode | ai-main.py:115-121 | a code maps to a category other than Unknown exactly when it lies in 1..27 |
| Taxonomy.CodeTableExact | ai-main.py:115-120 | a code maps to a known category exactly when it is one of that category's listed codes |
| Taxonomy.Aggregate | ai-main.py:111-121 | a missing or non-numeric cell maps to Unknown; a number maps through the code table after truncation |
| Taxonomy.AggregateInTaxonomy | ai-main.py:111-126 | every category the mapping produces is Unknown or one of the six categories |
| Taxonomy.GroupsPartition | ai-main.py:124-126 | the precipitation and non-precipitation groups split the six categories, and Unknown is in neither |
| Taxonomy.FromName | ai-main.py:115-120 | looking a name up in the category list returns a category with that name |
| Taxonomy.NameRoundTrip | ai-main.py:115-121 | a category's name leads back to the same category |
| Taxonomy.AllCategoriesSortedByName | ai-main.py:126 | `sorted()` of the category names is the order of the six categories, and "Unknown" sorts after all of them |
| Units.Convert | ai-main.py:184-210 | temperature and pressure pass through unchanged; humidity is the fraction times 100; wind is km/h divided by 3.6; precipitation is intensity times 25/3600*5 mm; a sample gives 5/60 sunshine minute iff its analog value exceeds 30; missing values become 0 |
| Units.HourRow | ai-main.py:202-225 | one resampled hour: the mean temperature is defined iff the hour has samples; sunshine is in [0, 60]; humidity is in [0, 100]; mean wind and gust are defined together |
| Units.AggregateHourly | ai-main.py:211-225 | no samples is an error; otherwise there is one row per hour from the first to the last sample's hour, gaps included, and row k is the aggregate of hour first+k |
| Units.TableAt | ai-main.py:212-222 | every hour between the first and the last has its row in the table |
| Units.SampleHasRow | ai-main.py:212-222 | a given sample's hour has a row in the table, and that row's mean temperature is defined |
| Units.AggregateCoversSamples | ai-main.py:212-222 | every sample lands in a row of the hourly table whose mean temperature is defined |
| Units.BucketHasSample | ai-main.py:212 | the converted sample is among the samples of its own hour |
| Units.SunshineMinutes | ai-main.py:188-224 | an hour's sunshine is 5/60 minute per sunny sample, clipped to [0, 60] |
| Units.PrecipitationTotal | ai-main.py:190-222 | the hourly table's precipitation for an hour is the sum of that hour's raw intensities, missing ones counting as 0, times 25/3600*5 mm |
| Units.HourBounds | ai-main.py:202-220 | the hourly mean temperature lies between the hour's coldest and warmest sample; the gust is the strongest sample wind of the hour, and at least the mean wind |
| Snow.FreshSnow | ai-main.py:234-236 | fresh snow is positive iff precipitation > 0 and temperature < 0.5, and then it is precipitation times 10 |
| Snow.Melt | ai-main.py:238-242 | melt is positive iff there is a cover and temperature > 0, and then it is temperature times 10 |
| Snow.Step | ai-main.py:233-244 | after every hour the depth lies in [0, 1000] |
| Snow.StepDirection | ai-main.py:233-244 | the cover grows only with precipitation below 0.5 deg C, shrinks only with a cover and temperature above 0, and never shrinks at or below 0 deg C |
| Snow.StepCases | ai-main.py:233-244 | the closed forms of a cold wet hour (depth + 10*prcp) and a dry warm hour (depth - 10*temp), both clamped |
| Snow.States | ai-main.py:229-244 | the unrounded state of each hour is one step from the state of the hour before, starting from the given depth |
| Snow.Simulate | ai-main.py:228-246 | the snow column records, for every hour, the unrounded state rounded to 2 decimals, within [0, 1000] |
| Snow.RecordedDepth | ai-main.py:245 | rounding a state moves it by at most 0.005 and keeps it within [0, 1000] |
| Snow.ColdNeverShrinks | ai-main.py:233-244 | over hours at or below 0 deg C the cover never decreases |
| Snow.ThawBound | ai-main.py:238-244 | every hour at 1 deg C or warmer removes at least 10 mm of cover |
| Snow.HundredHoursThaw | ai-main.py:238-244 | one hundred thawing hours clear even the deepest cover |
| Snow.SnowfallScenario | ai-main.py:229-246 | three hours at -3 deg C with 5 mm of water record 50, 100 and 150 mm |
| Snow.RoundingNotCarried | ai-main.py:237-245 | rounding affects only the record: two dustings record 0.35 and then 0.69 |
| Series.Lag | ai-main.py:374 | `shift(n)`: the first n rows are missing, and row i holds row i-n |
| Series.Diff | ai-main.py:353 | `diff(n)`: row i is defined iff i >= n and both operands are present, and then it is x[i] - x[i-n] |
| Series.AbsDiff | ai-main.py:354 | `abs()` of a difference is defined on the same rows, is non-negative and equals the difference up to sign |
| Series.DiffIsMinusLag | ai-main.py:353-374 | a difference is the column minus its lag |
| Series.LagCompose | ai-main.py:374 | lagging by a and then by b is lagging by a + b |
| Series.LagDiffCommute | ai-main.py:364-374 | the lags of a `_diff_1h` column are the one-hour differences of the lagged column |
| Series.DiffTelescopes | ai-main.py:345-353 | with no gap, the n-hour difference is the sum of the one-hour differences it spans |
| Series.RollOps | ai-main.py:428-431 | mean, min and max are computed for every column, and sum only for prcp and tsun |
| Series.MinPeriods | ai-main.py:427 | `max(1, w // 2)` lies between 1 and w |
| Series.Window | ai-main.py:427 | the trailing window closing at row i has min(w, i+1) rows, the last of which is row i |
| Series.Rolling | ai-main.py:424-434 | a rolling value is defined iff its window holds at least `max(1, w // 2)` present values, and then it is the statistic of those values |
| Series.RollingOrder | ai-main.py:427-434 | the rolling mean, min, max and sum are defined on the same rows, and there min <= mean <= max |
| Series.RollingMeanIsSumOverCount | ai-main.py:427-434 | where defined, the rolling mean is the rolling sum divided by the number of present values |
| Series.RollingStartsMissing | ai-main.py:427 | rows whose window is shorter than the minimum period count are missing |
| Series.RollingUnitWindow | ai-main.py:427 | a window of one row reproduces the column |
| Series.DewPoint | ai-main.py:102-108 | a missing input or a humidity outside (0, 100] gives NaN, and so does a Magnus value whose `ValueError`/`OverflowError` the script catches; a Magnus value above temp + 0.5 is replaced by the temperature; one below -80 (and not above temp + 0.5) gives NaN; any other Magnus value is the result |
| Series.DewPointClampBeatsFloor | ai-main.py:106-107 | the clamp to the temperature runs before the -80 floor, so a temperature below -80 can come back |
| CategoryFlags.WasCategory | ai-main.py:400-410 | an indicator is 0 or 1, and it is 1 iff the row `lag` hours earlier exists and has that category |
| CategoryFlags.WasPrecip | ai-main.py:414-416 | the precipitation indicator is 1 iff the row `lag` hours earlier exists and is in a precipitation category |
| CategoryFlags.LagFlags | ai-main.py:399-411 | one indicator column per category, in category order |
| CategoryFlags.FlagsOnCount | ai-main.py:403-410 | over distinct categories, at most one indicator is set: the one of the lagged row's category |
| CategoryFlags.ExactlyOneCategory | ai-main.py:399-410 | exactly one of the six indicators of a lag is 1 iff the lagged row exists and its category is known; otherwise none is |
| CategoryFlags.LeadingRowsZero | ai-main.py:400-416 | rows before the lag have every indicator at 0 |
| CategoryFlags.PrecipIsSumOfPrecipCategories | ai-main.py:400-416 | the precipitation indicator is the sum of the three precipitation-category indicators |
| CategoryFlags.ActiveCategories | ai-old.py:169 | `sorted(unique())` holds each category of the data once and nothing else |
| CategoryFlags.ActiveCategoriesSorted | ai-old.py:169 | the active categories are in strictly increasing name order |
| CategoryFlags.AbsentCategoryAllZero | ai-old.py:169-172 | a category absent from the data would only add a column of zeros, so the older variant leaves out no information |
| Tables.AddColumn | ai-main.py:611 | `df[name] = col` sets that column and leaves every other column as it was |
| FlagResolver.Compare | ai-main.py:593-597 | a comparison with a missing value holds only for `!=`, and an unknown operator gives false |
| FlagResolver.CompareComplements | ai-main.py:593-597 | on a present value `<` and `>=` (and `>` and `<=`) are complements; on a missing one all four are false |
| FlagResolver.FlagColumn | ai-main.py:599-611 | a flag column is 1 on exactly the rows where every condition holds, and 0 elsewhere |
| FlagResolver.FlagColumnConjunction | ai-main.py:601-604 | folding `&=`: the flag of two condition lists is the AND of their flags |
| FlagResolver.FlagColumnFrame | ai-main.py:599-611 | a flag's column depends only on the columns its conditions read |
| FlagResolver.Check | ai-main.py:576-584 | the dependency scan says ready iff every feature is available; blocked iff the first unavailable feature is an uncomputed flag; missing-base iff it is an absent base column |
| FlagResolver.RunPass | ai-main.py:561-625 | a pass keeps the table valid and puts every flag in exactly one of the computed, dropped and pending lists |
| FlagResolver.Loop | ai-main.py:557-640 | the loop runs at most five passes, stops at once with nothing to do, and reports a stall only with flags left |
| FlagResolver.Resolve | ai-main.py:550-644 | at most five passes, and none iff the threshold table is empty |
| FlagResolver.ProcessAppends | ai-main.py:586-616 | a flag is appended to the computed list or not at all, and is postponed only while it waits on an uncomputed flag |
| FlagResolver.ProcessKeepsInv | ai-main.py:561-625 | processing one flag keeps the resolver invariant (conservation, table shape, dependency order, values, dropped flags miss a base column) |
| FlagResolver.RunPassKeepsInv | ai-main.py:561-625 | a whole pass keeps the resolver invariant |
| FlagResolver.RunPassAppends | ai-main.py:561-627 | a pass only appends to the computed and pending lists, and after a pass that computes nothing, every newly pending flag waits on an uncomputed flag |
| FlagResolver.LoopKeepsInv | ai-main.py:557-640 | the resolver invariant holds from pass to pass up to the end of the loop |
| FlagResolver.StallWaits | ai-main.py:629-640 | after an early stop every unresolved flag waits on a flag that was never computed |
| FlagResolver.ResolveInv | ai-main.py:550-644 | the resolver invariant holds at the end |
| FlagResolver.ResolveConserves | ai-main.py:550-644 | every flag ends up computed, dropped or unresolved exactly once, and each computed name appears once in `threshold_flags_names` |
| FlagResolver.ResolveOrdersDependencies | ai-main.py:576-612 | a flag is computed only after every `flag_` feature it reads, and its other features are columns of the original table |
| FlagResolver.ResolveValues | ai-main.py:599-611 | each computed flag's column is the AND of its comparisons on the final table |
| FlagResolver.ResolveKeepsBase | ai-main.py:599-613 | the original non-flag columns are unchanged, and the only new columns are the computed flags |
| FlagResolver.ResolveDropsOnlyMissingBase | ai-main.py:576-584 | only flags with an absent base column are dropped, and such a flag is never computed |
| FlagResolver.ResolveStops | ai-old.py:255-336 | unresolved flags remain only after an early stop, each waiting on an uncomputed flag, or after all five passes |
| FlagResolver.UnresolvedOnlyAtLimit | ai-main.py:557-643 | without an early stop, flags remain pending only after the fifth pass |
| Selection.IndicesWhere | ai-old.py:144-147 | a boolean-mask selection: exactly the positions that satisfy the mask, in ascending order |
| Selection.Preprocess | ai-old.py:144-148 | the kept rows are exactly those with a known category that are not precipitation rows with prcp 0, in order; fewer than two distinct categories among them is an error |
| Selection.PreprocessRemovesOnly | ai-old.py:144-147 | a removed row was Unknown, or a precipitation row with zero precipitation |
| Selection.KeptRows | ai-old.py:344-345 | the kept rows are exactly the complete ones, in order |
| Selection.SelectRows | ai-old.py:345 | selecting rows keeps every column and takes the selected cells in order |
| Selection.DropIncomplete | ai-old.py:344-347 | after the drop no kept row has a missing value outside `coco` and `year`; rows keep their order; no complete row is an error |
| Selection.DropKeepsExactlyComplete | ai-main.py:657-668 | a row is kept iff it is complete |
| Selection.DropIdempotent | ai-old.py:344-347 | dropping incomplete rows a second time changes nothing |
| Selection.Available | ai-old.py:407 | the filtered list holds exactly the declared features that are columns |
| Selection.AvailableKeepsOrder | ai-old.py:407 | the filtered list keeps the declared order |
| Selection.StageFeatures | ai-old.py:406-434 | a stage's final list is the declared list filtered to the columns, whether or not something was missing |
| Selection.AvailableIdempotent | ai-old.py:407 | filtering twice is filtering once |
| Selection.SortedSet | ai-old.py:437 | `sorted(set(xs))` is strictly sorted and holds exactly the members of xs |
| Selection.SortedDistinct | ai-old.py:437 | a strictly sorted list has no repeated entry |
| Selection.NeededFeatures | ai-old.py:406-437 | the combined list is sorted, free of repeats, and holds exactly the columns that some stage declares |
| Selection.SplitByYear | ai-old.py:443-447 | training rows are those of 2018 to 2023 and test rows those of 2024, all of them and in order; an empty side is an error |
| Selection.SplitDisjoint | ai-old.py:443-444 | no row is both a training and a test row |
| Cascade.Put | ai-main.py:958 | `series.loc[mask] = vals` writes exactly the masked rows |
| Cascade.Run | ai-main.py:934-1002 | the four stages write their labels over one label series |
| Cascade.RunMatchesTree | ai-main.py:934-1002 | each row's label is the one the decision tree gives: M3's class when M1 says precipitation and M3 can decode, otherwise fog by M2, otherwise clear or cloudy by M4 |
| Cascade.CascadeLabels | ai-main.py:934-1002 | every row carries exactly the decision tree's label, or none |
| Cascade.M1Partition | ai-main.py:938-963 | the precipitation and dry rows are disjoint and cover every row; fog and other split the dry rows; without M1 features every row is dry |
| Cascade.FogOnlyFromM2 | ai-main.py:950-963 | with precipitation classes only, a row is Fog iff M1 says dry and M2 says fog |
| Cascade.ClearCloudyOnlyFromM4 | ai-main.py:989-1000 | a row is Clear/Fair (Cloudy/Overcast) iff M1 says dry, M2 says not fog and M4 says 0 (1) |
| Cascade.PrecipOnlyFromM3 | ai-main.py:969-977 | a precipitation label goes only to a row with M1 = 1, and it is that row's decoded M3 class |
| Cascade.DecodeErrorLeavesUnlabelled | ai-main.py:974-980 | an index outside the encoder's classes leaves every precipitation row unlabelled |
| Cascade.LabelledFrom | ai-old.py:774 | the labelled rows with their labels, all of them and in order |
| Cascade.DropUnlabelled | ai-old.py:772-779 | `dropna()` keeps exactly the labelled rows in order; an empty result stops the run |
| Cascade.CascadeOld | ai-old.py:715-779 | in the older script a decoding error ends the run; otherwise the kept predictions are exactly the labelled rows of the cascade |
| Cascade.OldKeepsOnlyCategories | ai-old.py:743-774 | every prediction the older script keeps is one of the six categories |
| Seeding.ParseWind | test.py:160-164 | text containing "no wind" in any case parses to 0 |
| Seeding.WindRoundTrip | test.py:160-164 | "N km/h" parses to N |
| Seeding.CalmParsesToZero | test.py:160-162 | "No wind" parses to 0 |
| Seeding.HumidityRoundTrip | test.py:166 | "P%" parses to P |
| Seeding.PressureRoundTrip | test.py:167 | "V mbar" parses to V |
| Seeding.ParseEntry | test.py:155-176 | an entry parses iff its date, wind, humidity and pressure all parse, and then it carries exactly those values |
| Seeding.ParsingFrom | test.py:153-179 | the positions of the entries that parse: strictly ascending, each one parses, and none that parses is missing |
| Seeding.ParseEach | test.py:153-179 | one point per entry that parses, in input order (point k is the parse of the k-th parsing position); the others are skipped |
| Seeding.Insert | test.py:181 | inserting into a time-sorted list keeps it sorted and adds exactly one element |
| Seeding.SortByTime | test.py:181 | the sort is a permutation in ascending time order |
| Seeding.ParseTranscribed | test.py:151-182 | the result is sorted by time and is a permutation of the per-entry parses: each entry that parses contributes exactly one point, the others none |
| Seeding.BadEntrySkipped | test.py:177-179 | an entry whose wind does not parse is skipped, and the good entry is kept |
| Seeding.RainAmount | test.py:192-197 | "light rain" or "drizzle" gives [0.1, 0.3]; other "rain" gives [0.4, 1.5]; "showers" gives [0.5, 2.0]; no rain keyword gives 0 |
| Seeding.SunDraw | test.py:200 | a sunshine draw rounded to one decimal stays within its bounds |
| Seeding.MapConditions | test.py:184-221 | sunshine in [0, 100] and precipitation in [0, 2]; precipitation by the first rain keyword; without rain keywords precipitation is at most 0.1, and positive only in the fog branch; sunshine by the first sky keyword, with night (hour < 6 or >= 21) giving 0 for clear, broken and overcast skies; precipitation caps sunshine at 25; no keyword gives (50, 0) |
| Seeding.LightRainIsRain | test.py:192-194 | "light rain" also contains "rain", so the light-rain test has to come first |
| Seeding.PartlySunnyTakesSunnyBranch | test.py:201-210 | "partly sunny" takes the sunny branch: by day without rain its sunshine is in [80, 100], not [30, 70] |
| Seeding.HourOfDay | test.py:357 | the hour of day lies in 0..23 |
| Seeding.Ticks | test.py:348-379 | the record times t, t+5, ... strictly before the next time, ceil((next - t) / 5) of them |
| Seeding.TicksAppend | test.py:348-379 | two runs of ticks on one 5-second grid join into one run |
| Seeding.MakeRecord | test.py:350-369 | a record carries the observation's temperature, pressure and wind, humidity pct/100 (the rounding to 2 decimals is exact), and the mapped sunshine and precipitation at that hour |
| Seeding.HumidityExact | test.py:352 | `round(pct / 100, 2)` of a whole percentage is pct/100 |
| Seeding.Span | test.py:336-379 | observation i gives one record per tick up to the next observation, or 30 minutes for the last |
| Seeding.ExpandFromGrid | test.py:336-379 | for sorted observations on a 5-second grid, the records from observation i on come every 5 seconds until 30 minutes after the last |
| Seeding.Expand | test.py:336-379 | sorted observations on a 5-second grid expand to one record every 5 seconds, (last - first)/5 + 360 records |
| Seeding.LastPointRecords | test.py:340-344 | the last observation spans 30 minutes: 360 records |
| Seeding.RecordValues | test.py:348-369 | each record has its observation's humidity as a fraction, lies on its tick before the next observation, and has sunshine at most 25 when it has precipitation |
| Stats.MeanBetweenMinMax | ai-main.py:202-216 | the mean of a non-empty sample lies between its minimum and maximum |
| Stats.Round2Facts | ai-main.py:245 | `round(x, 2)` moves a value by at most half a hundredth |
| Stats.Round1Within | test.py:200 | `round(x, 1)` of a value between two tenths stays between them |
| Stats.Clip | ai-main.py:224-225 | `np.clip` returns the value when inside the bounds and the nearer bound otherwise |
| Stats.Present | ai-main.py:427 | the present values of a column are exactly the non-missing ones |
| Text.ParseIntRoundTrip | test.py:164-167 | parsing the decimal rendering of an integer gives the integer back |
| Text.ToLower | test.py:160 | ASCII lower-casing: 'A'..'Z' become 'a'..'z', every other character is kept, and so is the length |

## Left out

- I/O is not modelled: database access, Meteostat downloads, logging, plots, reports, CSV export and the Flask routes.
- Training, loading and `predict` of the XGBoost classifiers, SMOTE, and the label encoder's internals are library calls. Each stage's predictions are given per row, and M3's decoding is a class table.
- The cascade is modelled over per-row predictions for all rows. The script predicts only on the subset a stage receives; the labels come out the same.
- Rolling standard deviation and median, the sine/cosine calendar encodings, and the other calendar fields need floating-point or calendar functions and are left out. So is the Magnus core of the dew point, which is a parameter.
- Series.DewPoint: the Magnus formula divides by `b + temperature` and by `a - gamma`. Both divisors can be zero only at a temperature at or below -237.7 deg C. The resulting `ZeroDivisionError` is not caught, and the feature engine's `apply` has no `try`, so the script stops. The model has no such outcome: the parameter `core` gives a value or `None` (NaN).
- Floating-point rounding is not modelled. Reals are exact, and `round` rounds halves up instead of to even.
- FlagResolver: the main and old variants are one model. They differ in two ways, and neither shows on a table of numeric columns whose threshold entries all have conditions. First, the main script also drops a flag whose base column is not numeric (`is_numeric_dtype`); every column of a `Table` is numeric. Second, the main script scans the dependencies outside its `try` and the old script inside it; the scan raises only on an empty condition list (see the next line). Both scripts also retry a flag after an exception other than `KeyError`. Comparisons on numeric columns raise none, so that retry path is not modelled.
- FlagResolver.Resolve: an entry with an empty condition list is computed as an all-ones column. The scripts fail on `conditions[0]`. The main script stops with an `IndexError`. The old script catches the error and keeps the flag pending. The stall report then raises the error again and stops the script; if every pass makes progress, the flag is left unresolved after five passes instead. The scripts' threshold table has no empty entry.
- FlagResolver.Resolve: requires nothing of the threshold table. The properties about dependency order and uniqueness require distinct names, the `flag_` prefix and non-empty condition lists, which the scripts' constant threshold table has.
- Text.ToLower, Text.ParseInt: case mapping, `strip` whitespace and `int()` digits are ASCII-only. Python's `str.lower` also maps non-ASCII letters (the Kelvin sign becomes 'k'; 'İ' becomes two characters), `strip` also removes non-ASCII whitespace, and `int()` also accepts `_` separators and non-ASCII digits. Condition texts, wind, humidity and pressure strings that rely on these are parsed or mapped differently by the model.
- Seeding.SortByTime: stability is not stated. Entries with equal times may come out in any order.
- Seeding.ParseEntry: the temperature is already an integer, as in the transcribed data; date parsing is a parameter.
- Seeding.MapConditions: each random draw is a parameter. Draws outside [0, 1] are excluded by `ValidDraws`.
- Seeding.Expand: the timestamp formatting, the `mac_address` field and the `float()` conversions of the stored packet are not modelled.
- Units.AggregateHourly: the timestamps are whole seconds. Hours are `ts / 3600` counted from the epoch, so time zones are not modelled.
