/** Row and feature selection around the feature engine: the category
    preprocessing (ai-old.py:144-148, ai-main.py:293-302), the final drop of
    incomplete rows (ai-old.py:344-347, ai-main.py:651-668), the per-stage
    feature lists (ai-old.py:406-437, ai-main.py:729-760) and the
    train/test split by year (ai-old.py:443-444). */
module Selection {
  import opened Wrappers
  import opened Tables
  import opened Taxonomy
  import Text

  /** The positions below `n` that satisfy `p`, in ascending order: the
      index of a boolean-mask selection `df[mask]`. */
  function IndicesWhere(n: nat, p: nat -> bool): (r: seq<nat>)
    ensures forall k | 0 <= k < |r| :: r[k] < n && p(r[k])
    ensures forall i | 0 <= i < n && p(i) :: i in r
    ensures forall a, b | 0 <= a < b < |r| :: r[a] < r[b]
    ensures |r| <= n
    decreases n
  {
    if n == 0 then []
    else
      var r := IndicesWhere(n - 1, p);
      if p(n - 1) then r + [n - 1] else r
  }

  // ----- Category preprocessing -----

  /** An hourly observation as the preprocessing sees it: its aggregated
      category and its precipitation, missing values already set to 0. */
  datatype Observation = Observation(category: Category, prcp: real)

  /** A row survives when its category is known and it is not a
      precipitation row without precipitation. */
  predicate Keep(o: Observation) {
    o.category != Unknown && !(o.prcp == 0.0 && IsPrecip(o.category))
  }

  /** The categories of the rows at `idx`. */
  function CategoriesAt(obs: seq<Observation>, idx: seq<nat>): set<Category>
    requires forall k | 0 <= k < |idx| :: idx[k] < |obs|
  {
    set k | 0 <= k < |idx| :: obs[idx[k]].category
  }

  /** The surviving rows, or the error raised when they hold fewer than two
      distinct categories (`nunique() < 2`). */
  function Preprocess(obs: seq<Observation>): (r: Result<seq<nat>>)
    ensures r.Success? ==> forall k | 0 <= k < |r.value| :: r.value[k] < |obs| && Keep(obs[r.value[k]])
    ensures r.Success? ==> forall i | 0 <= i < |obs| && Keep(obs[i]) :: i in r.value
    ensures r.Success? ==> forall a, b | 0 <= a < b < |r.value| :: r.value[a] < r.value[b]
    ensures r.Failure? <==> forall i, j | 0 <= i < |obs| && 0 <= j < |obs| && Keep(obs[i]) && Keep(obs[j]) ::
      obs[i].category == obs[j].category
  {
    var idx := IndicesWhere(|obs|, (i: nat) => i < |obs| && Keep(obs[i]));
    var cats := CategoriesAt(obs, idx);
    TwoDistinct(cats);
    if |cats| < 2 then
      assert forall i, j | 0 <= i < |obs| && 0 <= j < |obs| && Keep(obs[i]) && Keep(obs[j]) ::
        obs[i].category == obs[j].category by {
        forall i, j | 0 <= i < |obs| && 0 <= j < |obs| && Keep(obs[i]) && Keep(obs[j])
          ensures obs[i].category == obs[j].category
        {
          InCategoriesAt(obs, idx, i);
          InCategoriesAt(obs, idx, j);
        }
      }
      Failure("fewer than 2 categories after filtering")
    else
      Success(idx)
  }

  lemma InCategoriesAt(obs: seq<Observation>, idx: seq<nat>, i: nat)
    requires forall k | 0 <= k < |idx| :: idx[k] < |obs|
    requires i in idx
    ensures i < |obs| && obs[i].category in CategoriesAt(obs, idx)
  {
    var k :| 0 <= k < |idx| && idx[k] == i;
  }

  /** A set has fewer than two elements iff all its elements are equal. */
  lemma TwoDistinct<T>(s: set<T>)
    ensures |s| < 2 <==> forall x, y | x in s && y in s :: x == y
  {
    if |s| >= 2 {
      var x :| x in s;
      var rest := s - {x};
      assert |rest| >= 1;
      var y :| y in rest;
      assert x in s && y in s && x != y;
    } else {
      forall x, y | x in s && y in s
        ensures x == y
      {
        if x != y {
          assert {x, y} <= s;
          assert |{x, y}| == 2;
          SubsetCard({x, y}, s);
        }
      }
    }
  }

  lemma SubsetCard<T>(a: set<T>, b: set<T>)
    requires a <= b
    ensures |a| <= |b|
  {
    assert b == a + (b - a);
  }

  /** Every observation outside the result was `Unknown`, or a precipitation
      row with zero precipitation. */
  lemma PreprocessRemovesOnly(obs: seq<Observation>, i: nat)
    requires i < |obs| && Preprocess(obs).Success?
    requires i !in Preprocess(obs).value
    ensures obs[i].category == Unknown || (IsPrecip(obs[i].category) && obs[i].prcp == 0.0)
  {
  }

  // ----- The final drop of incomplete rows -----

  /** The numeric columns that are not features and do not count. */
  const NotFeatures: set<string> := {"coco", "year"}

  /** Row `i` has a value in every feature column. */
  predicate Complete(t: Table, i: nat) {
    i < t.rows && forall key | key in t.cols && key !in NotFeatures :: i < |t.cols[key]| && t.cols[key][i].Some?
  }

  /** The rows kept by the drop, in order. */
  function KeptRows(t: Table): (idx: seq<nat>)
    ensures forall k | 0 <= k < |idx| :: idx[k] < t.rows && Complete(t, idx[k])
    ensures forall i | 0 <= i < t.rows && Complete(t, i) :: i in idx
    ensures forall a, b | 0 <= a < b < |idx| :: idx[a] < idx[b]
  {
    IndicesWhere(t.rows, (i: nat) => Complete(t, i))
  }

  /** The table restricted to the rows at `idx`, in that order. */
  function SelectRows(t: Table, idx: seq<nat>): (r: Table)
    requires Valid(t)
    requires forall k | 0 <= k < |idx| :: idx[k] < t.rows
    ensures Valid(r) && r.rows == |idx|
    ensures r.cols.Keys == t.cols.Keys
    ensures forall key, j | key in r.cols && 0 <= j < |idx| :: r.cols[key][j] == t.cols[key][idx[j]]
  {
    Table(|idx|, map key | key in t.cols :: seq(|idx|, j requires 0 <= j < |idx| => t.cols[key][idx[j]]))
  }

  /** `df.dropna(subset = features)` followed by the check that rows remain.
      With no feature column at all every row counts as complete, which is
      the newer variant's skip of the drop. */
  function DropIncomplete(t: Table): (r: Result<Table>)
    requires Valid(t)
    ensures r.Failure? <==> forall i | 0 <= i < t.rows :: !Complete(t, i)
    ensures r.Success? ==> Valid(r.value) && r.value.cols.Keys == t.cols.Keys && r.value.rows > 0
    ensures r.Success? ==> forall key, j | key in r.value.cols && key !in NotFeatures && 0 <= j < r.value.rows ::
      r.value.cols[key][j].Some?
    ensures r.Success? ==> r.value.rows == |KeptRows(t)|
    ensures r.Success? ==> forall key, j | key in r.value.cols && 0 <= j < r.value.rows ::
      j < |KeptRows(t)| && r.value.cols[key][j] == t.cols[key][KeptRows(t)[j]]
  {
    var idx := KeptRows(t);
    if |idx| == 0 then
      assert forall i | 0 <= i < t.rows :: !Complete(t, i);
      Failure("no data left after removing missing values")
    else
      assert Complete(t, idx[0]);
      Success(SelectRows(t, idx))
  }

  /** A row with a missing feature is never kept, and a complete row always
      is. */
  lemma DropKeepsExactlyComplete(t: Table, i: nat)
    requires Valid(t) && i < t.rows
    ensures i in KeptRows(t) <==> Complete(t, i)
  {
  }

  /** Dropping again changes nothing. */
  lemma DropIdempotent(t: Table)
    requires Valid(t) && DropIncomplete(t).Success?
    ensures DropIncomplete(DropIncomplete(t).value) == DropIncomplete(t)
  {
    var u := DropIncomplete(t).value;
    assert forall i | 0 <= i < u.rows :: Complete(u, i);
    AllCompleteKeptRows(u);
    SelectAllRows(u);
  }

  /** Selecting every row in order gives the table back. */
  lemma SelectAllRows(t: Table)
    requires Valid(t)
    ensures SelectRows(t, seq(t.rows, i => i)) == t
  {
    var v := SelectRows(t, seq(t.rows, i => i));
    forall key | key in t.cols
      ensures v.cols[key] == t.cols[key]
    {
    }
    assert v.cols == t.cols;
  }

  lemma {:induction false} AllCompleteKeptRows(t: Table)
    requires forall i | 0 <= i < t.rows :: Complete(t, i)
    ensures KeptRows(t) == seq(t.rows, i => i)
  {
    AllIndices(t.rows, (i: nat) => Complete(t, i));
  }

  lemma {:induction false} AllIndices(n: nat, p: nat -> bool)
    requires forall i | 0 <= i < n :: p(i)
    ensures IndicesWhere(n, p) == seq(n, i => i)
    decreases n
  {
    if n > 0 {
      AllIndices(n - 1, p);
      assert seq(n, i => i) == seq(n - 1, i => i) + [n - 1];
    }
  }

  // ----- Feature lists -----

  /** `[f for f in declared if f in columns]`. */
  function Available(declared: seq<string>, columns: set<string>): (r: seq<string>)
    ensures |r| <= |declared|
    ensures forall f :: f in r <==> f in declared && f in columns
    decreases |declared|
  {
    if |declared| == 0 then []
    else if declared[0] in columns then [declared[0]] + Available(declared[1..], columns)
    else Available(declared[1..], columns)
  }

  /** `r` is `s` with some entries left out and the rest in order. */
  predicate Subsequence(r: seq<string>, s: seq<string>)
    decreases |s|
  {
    if |r| == 0 then true
    else if |s| == 0 then false
    else if r[0] == s[0] then Subsequence(r[1..], s[1..])
    else Subsequence(r, s[1..])
  }

  /** The filtered list keeps the declared order. */
  lemma {:induction false} AvailableKeepsOrder(declared: seq<string>, columns: set<string>)
    ensures Subsequence(Available(declared, columns), declared)
    decreases |declared|
  {
    if |declared| > 0 {
      AvailableKeepsOrder(declared[1..], columns);
      var r := Available(declared, columns);
      if declared[0] in columns {
        assert r[1..] == Available(declared[1..], columns);
      } else if |r| > 0 {
        assert r[0] in columns;
      }
    }
  }

  /** A stage's final list: the declared list when nothing is missing,
      the filtered one otherwise; both are the filtered list. */
  function StageFeatures(declared: seq<string>, columns: set<string>): (r: seq<string>)
    ensures r == Available(declared, columns)
  {
    if forall k | 0 <= k < |declared| :: declared[k] in columns then
      AllAvailable(declared, columns);
      declared
    else Available(declared, columns)
  }

  lemma {:induction false} AllAvailable(declared: seq<string>, columns: set<string>)
    requires forall k | 0 <= k < |declared| :: declared[k] in columns
    ensures Available(declared, columns) == declared
    decreases |declared|
  {
    if |declared| > 0 {
      AllAvailable(declared[1..], columns);
    }
  }

  /** Filtering twice is filtering once. */
  lemma AvailableIdempotent(declared: seq<string>, columns: set<string>)
    ensures Available(Available(declared, columns), columns) == Available(declared, columns)
  {
    var r := Available(declared, columns);
    assert forall k | 0 <= k < |r| :: r[k] in columns;
    AllAvailable(r, columns);
  }

  /** Strictly increasing in code-point order: sorted and without repeats. */
  predicate Sorted(s: seq<string>) {
    forall a, b | 0 <= a < b < |s| :: Text.LexLess(s[a], s[b])
  }

  /** Adds `x` to a sorted list unless it is already there. */
  function Insert(x: string, s: seq<string>): (r: seq<string>)
    requires Sorted(s)
    ensures Sorted(r)
    ensures forall y :: y in r <==> y == x || y in s
    decreases |s|
  {
    if |s| == 0 then [x]
    else if x == s[0] then s
    else if Text.LexLess(x, s[0]) then
      assert forall k | 0 < k < |s| :: Text.LexLess(x, s[k]) by {
        forall k | 0 < k < |s|
          ensures Text.LexLess(x, s[k])
        {
          Text.LexLessTransitive(x, s[0], s[k]);
        }
      }
      [x] + s
    else
      Text.LexLessTotal(x, s[0]);
      var rest := Insert(x, s[1..]);
      assert forall y | y in rest :: Text.LexLess(s[0], y);
      [s[0]] + rest
  }

  /** `sorted(set(xs))`. */
  function SortedSet(xs: seq<string>): (r: seq<string>)
    ensures Sorted(r)
    ensures forall y :: y in r <==> y in xs
    decreases |xs|
  {
    if |xs| == 0 then []
    else Insert(xs[|xs| - 1], SortedSet(xs[..|xs| - 1]))
  }

  /** A sorted list has no repeated entry. */
  lemma SortedDistinct(s: seq<string>)
    requires Sorted(s)
    ensures forall a, b | 0 <= a < b < |s| :: s[a] != s[b]
  {
    forall a, b | 0 <= a < b < |s|
      ensures s[a] != s[b]
    {
      Text.LexLessIrreflexive(s[a]);
    }
  }

  function Concat(lists: seq<seq<string>>): (r: seq<string>)
    ensures forall f :: f in r <==> exists k | 0 <= k < |lists| :: f in lists[k]
    decreases |lists|
  {
    if |lists| == 0 then []
    else
      var rest := Concat(lists[1..]);
      assert forall k | 1 <= k < |lists| :: lists[k] == lists[1..][k - 1];
      lists[0] + rest
  }

  /** The features the stages need together: the sorted union of the final
      lists, each listed once, every one a column. */
  function NeededFeatures(declared: seq<seq<string>>, columns: set<string>): (r: seq<string>)
    ensures Sorted(r)
    ensures forall f :: f in r <==> f in columns && exists k | 0 <= k < |declared| :: f in declared[k]
  {
    var finals := seq(|declared|, k requires 0 <= k < |declared| => StageFeatures(declared[k], columns));
    assert forall k | 0 <= k < |declared| :: finals[k] == Available(declared[k], columns);
    SortedSet(Concat(finals))
  }

  // ----- Train/test split -----

  const TrainStartYear: int := 2018
  const TrainEndYear: int := 2023
  const TestYear: int := 2024

  /** The training rows (years 2018 to 2023) and the test rows (2024) by
      position; an empty side stops the run. */
  function SplitByYear(years: seq<int>): (r: Result<(seq<nat>, seq<nat>)>)
    ensures r.Failure? <==>
      (forall i | 0 <= i < |years| :: !(TrainStartYear <= years[i] <= TrainEndYear))
      || (forall i | 0 <= i < |years| :: years[i] != TestYear)
    ensures r.Success? ==> forall k | 0 <= k < |r.value.0| ::
      r.value.0[k] < |years| && TrainStartYear <= years[r.value.0[k]] <= TrainEndYear
    ensures r.Success? ==> forall k | 0 <= k < |r.value.1| :: r.value.1[k] < |years| && years[r.value.1[k]] == TestYear
    ensures r.Success? ==> forall i | 0 <= i < |years| && TrainStartYear <= years[i] <= TrainEndYear :: i in r.value.0
    ensures r.Success? ==> forall i | 0 <= i < |years| && years[i] == TestYear :: i in r.value.1
    ensures r.Success? ==> forall a, b | 0 <= a < b < |r.value.0| :: r.value.0[a] < r.value.0[b]
    ensures r.Success? ==> forall a, b | 0 <= a < b < |r.value.1| :: r.value.1[a] < r.value.1[b]
  {
    var train := IndicesWhere(|years|, (i: nat) => i < |years| && TrainStartYear <= years[i] <= TrainEndYear);
    var test := IndicesWhere(|years|, (i: nat) => i < |years| && years[i] == TestYear);
    forall i | 0 <= i < |years| && TrainStartYear <= years[i] <= TrainEndYear
      ensures i in train
    {
    }
    forall i | 0 <= i < |years| && years[i] == TestYear
      ensures i in test
    {
    }
    if |train| == 0 || |test| == 0 then Failure("training or test set is empty")
    else
      assert TrainStartYear <= years[train[0]] <= TrainEndYear && years[test[0]] == TestYear;
      Success((train, test))
  }

  /** No row is in both sets. */
  lemma SplitDisjoint(years: seq<int>)
    requires SplitByYear(years).Success?
    ensures forall i | i in SplitByYear(years).value.0 :: i !in SplitByYear(years).value.1
  {
  }
}
