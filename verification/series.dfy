/** Column operators of the feature engine over columns with missing values
    (`None` plays the part of NaN): `diff`, `abs`, `shift` (ai-main.py:345-375),
    trailing rolling windows (ai-main.py:421-435) and the dew-point guard
    (ai-main.py:102-108, identical in ai-old.py:74-80). */
module Series {
  import opened Wrappers
  import opened Tables
  import Stats

  /** Subtraction that propagates a missing operand. */
  function Sub(a: Option<real>, b: Option<real>): Option<real> {
    if a.Some? && b.Some? then Some(a.value - b.value) else None
  }

  /** `shift(periods = n)`: every value moves `n` rows down; the first `n`
      rows are missing. */
  function Lag(x: Column, n: nat): (r: Column)
    ensures |r| == |x|
    ensures forall i | 0 <= i < |x| && i < n :: r[i].None?
    ensures forall i {:trigger r[i]} | n <= i < |x| :: r[i] == x[i - n]
  {
    seq(|x|, i requires 0 <= i < |x| => if i < n then None else x[i - n])
  }

  /** `diff(periods = n)`: the change against the value `n` rows earlier. */
  function Diff(x: Column, n: nat): (r: Column)
    ensures |r| == |x|
    ensures forall i {:trigger r[i]} | 0 <= i < |x| :: r[i].Some? <==> i >= n && x[i].Some? && x[i - n].Some?
    ensures forall i {:trigger r[i]} | n <= i < |x| :: r[i].Some? ==> x[i - n].value + r[i].value == x[i].value
  {
    seq(|x|, i requires 0 <= i < |x| => if i < n then None else Sub(x[i], x[i - n]))
  }

  /** `abs()` of a difference column. */
  function AbsDiff(x: Column, n: nat): (r: Column)
    ensures |r| == |x|
    ensures forall i {:trigger r[i]} | 0 <= i < |x| :: r[i].Some? <==> Diff(x, n)[i].Some?
    ensures forall i {:trigger r[i]} | 0 <= i < |x| :: r[i].Some? ==>
      r[i].value >= 0.0 && (r[i].value == Diff(x, n)[i].value || r[i].value == -Diff(x, n)[i].value)
  {
    var d := Diff(x, n);
    seq(|d|, i requires 0 <= i < |d| =>
      if d[i].None? then None else if d[i].value < 0.0 then Some(-d[i].value) else d[i])
  }

  /** A difference is the column minus its lag. */
  lemma DiffIsMinusLag(x: Column, n: nat)
    ensures forall i | 0 <= i < |x| :: Diff(x, n)[i] == Sub(x[i], Lag(x, n)[i])
  {
  }

  /** Lagging twice lags by the sum. */
  lemma LagCompose(x: Column, a: nat, b: nat)
    ensures Lag(Lag(x, a), b) == Lag(x, a + b)
  {
  }

  /** The lags of a `_diff_1h` column are the differences of the lagged
      column: lag and diff commute. */
  lemma LagDiffCommute(x: Column, m: nat, n: nat)
    ensures Lag(Diff(x, m), n) == Diff(Lag(x, n), m)
  {
  }

  /** The sum of the last `n` one-hour differences ending at row `i`. */
  function HourlySteps(x: Column, i: nat, n: nat): real
    requires n <= i < |x|
    decreases n
  {
    if n == 0 then 0.0 else Diff(x, 1)[i].GetOr(0.0) + HourlySteps(x, i - 1, n - 1)
  }

  /** With no gap in rows `i - n .. i`, the `n`-hour difference is the sum of
      the one-hour differences it spans. */
  lemma {:induction false} DiffTelescopes(x: Column, n: nat, i: nat)
    requires n <= i < |x|
    requires forall k | i - n <= k <= i :: x[k].Some?
    ensures Diff(x, n)[i] == Some(HourlySteps(x, i, n))
    decreases n
  {
    assert Diff(x, n)[i] == Some(x[i].value - x[i - n].value);
    StepsTelescope(x, n, i);
  }

  lemma {:induction false} StepsTelescope(x: Column, n: nat, i: nat)
    requires n <= i < |x|
    requires forall k | i - n <= k <= i :: x[k].Some?
    ensures HourlySteps(x, i, n) == x[i].value - x[i - n].value
    decreases n
  {
    if n > 0 {
      StepsTelescope(x, n - 1, i - 1);
      assert Diff(x, 1)[i] == Some(x[i].value - x[i - 1].value);
    }
  }

  /** The statistics the rolling windows compute (the standard deviation and
      the median are not part of this model). */
  datatype RollOp = RollMean | RollMin | RollMax | RollSum

  /** The statistics computed for a column: `sum` only for `prcp` and `tsun`. */
  function RollOps(col: string): (ops: seq<RollOp>)
    ensures RollMean in ops && RollMin in ops && RollMax in ops
    ensures RollSum in ops <==> col == "prcp" || col == "tsun"
  {
    [RollMean, RollMin, RollMax] + (if col == "prcp" || col == "tsun" then [RollSum] else [])
  }

  /** `min_periods = max(1, window // 2)`. */
  function MinPeriods(w: nat): (m: nat)
    ensures m >= 1 && (w >= 1 ==> m <= w)
  {
    if w / 2 < 1 then 1 else w / 2
  }

  /** The trailing window of size `w` closing at row `i`, cut at the start. */
  function Window(x: Column, w: nat, i: nat): (win: Column)
    requires 1 <= w && i < |x|
    ensures |win| == if i + 1 < w then i + 1 else w
    ensures forall k | 0 <= k < |win| :: win[k] == x[i + 1 - |win| + k]
  {
    x[(if i + 1 < w then 0 else i + 1 - w)..i + 1]
  }

  function Stat(op: RollOp, vs: seq<real>): real
    requires |vs| > 0
  {
    match op
    case RollMean => Stats.Mean(vs)
    case RollMin => Stats.Min(vs)
    case RollMax => Stats.Max(vs)
    case RollSum => Stats.Sum(vs)
  }

  /** `rolling(window = w, min_periods = max(1, w // 2)).op()`: a row is
      defined iff its window holds enough present values, and then it is the
      statistic of those values. */
  function Rolling(x: Column, w: nat, op: RollOp): (r: Column)
    requires w >= 1
    ensures |r| == |x|
    ensures forall i {:trigger r[i]} | 0 <= i < |x| :: r[i].Some? <==> |Stats.Present(Window(x, w, i))| >= MinPeriods(w)
    ensures forall i {:trigger r[i]} | 0 <= i < |x| :: |Stats.Present(Window(x, w, i))| >= MinPeriods(w) ==>
      r[i] == Some(Stat(op, Stats.Present(Window(x, w, i))))
  {
    seq(|x|, i requires 0 <= i < |x| =>
      var vs := Stats.Present(Window(x, w, i));
      if |vs| >= MinPeriods(w) then Some(Stat(op, vs)) else None)
  }

  /** The four statistics are defined on the same rows, and there
      min <= mean <= max. */
  lemma RollingOrder(x: Column, w: nat, i: nat)
    requires w >= 1 && i < |x|
    ensures Rolling(x, w, RollMean)[i].Some? <==> Rolling(x, w, RollMin)[i].Some?
    ensures Rolling(x, w, RollMean)[i].Some? <==> Rolling(x, w, RollMax)[i].Some?
    ensures Rolling(x, w, RollMean)[i].Some? <==> Rolling(x, w, RollSum)[i].Some?
    ensures Rolling(x, w, RollMean)[i].Some? ==>
      Rolling(x, w, RollMin)[i].value <= Rolling(x, w, RollMean)[i].value <= Rolling(x, w, RollMax)[i].value
  {
    var vs := Stats.Present(Window(x, w, i));
    if |vs| >= MinPeriods(w) {
      Stats.MeanBetweenMinMax(vs);
    }
  }

  /** Where defined, the rolling mean is the rolling sum divided by the
      number of present values in the window. */
  lemma RollingMeanIsSumOverCount(x: Column, w: nat, i: nat)
    requires w >= 1 && i < |x|
    requires Rolling(x, w, RollMean)[i].Some?
    ensures Rolling(x, w, RollSum)[i].Some?
    ensures |Stats.Present(Window(x, w, i))| > 0
    ensures Rolling(x, w, RollMean)[i].value == Rolling(x, w, RollSum)[i].value / |Stats.Present(Window(x, w, i))| as real
  {
    var vs := Stats.Present(Window(x, w, i));
    assert Rolling(x, w, RollMean)[i] == Some(Stats.Mean(vs));
    assert Rolling(x, w, RollSum)[i] == Some(Stats.Sum(vs));
  }

  /** The first rows whose window is shorter than the minimum period count
      are always missing. */
  lemma RollingStartsMissing(x: Column, w: nat, op: RollOp, i: nat)
    requires w >= 1 && i < |x|
    requires i + 1 < MinPeriods(w)
    ensures Rolling(x, w, op)[i].None?
  {
  }

  /** A window of one row reproduces the column. */
  lemma RollingUnitWindow(x: Column, op: RollOp)
    ensures Rolling(x, 1, op) == x
  {
    forall i | 0 <= i < |x|
      ensures Rolling(x, 1, op)[i] == x[i]
    {
      UnitWindowAt(x, op, i);
    }
  }

  lemma UnitWindowAt(x: Column, op: RollOp, i: nat)
    requires i < |x|
    ensures Rolling(x, 1, op)[i] == x[i]
  {
    assert Window(x, 1, i) == [x[i]];
    PresentSingleton(x[i]);
    if x[i].Some? {
      StatSingleton(op, x[i].value);
    }
  }

  lemma PresentSingleton(o: Option<real>)
    ensures Stats.Present([o]) == if o.Some? then [o.value] else []
  {
    assert [o][1..] == [];
  }

  lemma StatSingleton(op: RollOp, v: real)
    ensures Stat(op, [v]) == v
  {
    assert [v][1..] == [];
    assert Stats.Sum([v]) == v;
  }

  /** `calculateDewPoint`: missing inputs or a humidity outside (0, 100]
      give NaN; otherwise the Magnus value `core(temp, hum)`, where `None`
      stands for the caught ValueError/OverflowError, is replaced by the
      temperature when it exceeds it by more than 0.5 and dropped when it is
      below -80. The uncaught division by zero, possible only at or below
      -237.7 degrees, is not part of this model. */
  function DewPoint(temp: Option<real>, hum: Option<real>, core: (real, real) -> Option<real>): (r: Option<real>)
    ensures temp.None? || hum.None? || hum.value <= 0.0 || hum.value > 100.0 ==> r.None?
    ensures r.Some? ==> r.value <= temp.value + 0.5
    ensures r.Some? ==> r.value >= -80.0 || r.value == temp.value
    ensures r.Some? ==> core(temp.value, hum.value).Some?
    ensures r.Some? && r.value != temp.value ==> r == core(temp.value, hum.value)
    ensures temp.Some? && hum.Some? && 0.0 < hum.value <= 100.0 && core(temp.value, hum.value).Some?
      && -80.0 <= core(temp.value, hum.value).value <= temp.value + 0.5
      ==> r == core(temp.value, hum.value)
    ensures temp.Some? && hum.Some? && 0.0 < hum.value <= 100.0 && core(temp.value, hum.value).Some?
      && core(temp.value, hum.value).value > temp.value + 0.5
      ==> r == temp
    ensures temp.Some? && hum.Some? && 0.0 < hum.value <= 100.0 && core(temp.value, hum.value).Some?
      && core(temp.value, hum.value).value < -80.0 && core(temp.value, hum.value).value <= temp.value + 0.5
      ==> r.None?
  {
    if temp.None? || hum.None? || hum.value <= 0.0 || hum.value > 100.0 then None
    else
      var raw := core(temp.value, hum.value);
      if raw.None? then None
      else if raw.value > temp.value + 0.5 then temp
      else if raw.value < -80.0 then None
      else raw
  }

  /** The clamp to the temperature is tried before the -80 floor, so a raw
      value above the temperature returns the temperature even when that is
      below -80. */
  lemma DewPointClampBeatsFloor()
    ensures DewPoint(Some(-300.0), Some(50.0), (t: real, h: real) => Some(0.0)) == Some(-300.0)
  {
  }
}
