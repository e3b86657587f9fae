/** Lagged weather-category indicator columns (ai-main.py:394-417), and the
    older variant that creates them only for the categories present in the
    data (ai-old.py:169-173). */
module CategoryFlags {
  import opened Taxonomy
  import Text

  /** The lags (in hours) for which indicator columns are created. */
  const Lags: seq<nat> := [1, 2, 3, 6]

  /** `(weather_category.shift(lag) == c).astype(int)`: the shifted-in
      rows are NaN, which equals no category. */
  function WasCategory(cats: seq<Category>, c: Category, lag: nat): (f: seq<int>)
    ensures |f| == |cats|
    ensures forall i | 0 <= i < |cats| :: f[i] == 0 || f[i] == 1
    ensures forall i {:trigger f[i]} | 0 <= i < |cats| :: f[i] == 1 <==> i >= lag && cats[i - lag] == c
  {
    seq(|cats|, i requires 0 <= i < |cats| => if i >= lag && cats[i - lag] == c then 1 else 0)
  }

  /** `weather_category.shift(lag).isin(precip_categories).astype(int)`. */
  function WasPrecip(cats: seq<Category>, lag: nat): (f: seq<int>)
    ensures |f| == |cats|
    ensures forall i | 0 <= i < |cats| :: f[i] == 0 || f[i] == 1
    ensures forall i {:trigger f[i]} | 0 <= i < |cats| :: f[i] == 1 <==> i >= lag && IsPrecip(cats[i - lag])
  {
    seq(|cats|, i requires 0 <= i < |cats| => if i >= lag && IsPrecip(cats[i - lag]) then 1 else 0)
  }

  /** The six category columns of one lag, in the order of `AllCategories`. */
  function LagFlags(cats: seq<Category>, lag: nat): (cols: seq<seq<int>>)
    ensures |cols| == |AllCategories|
    ensures forall k | 0 <= k < |cols| :: cols[k] == WasCategory(cats, AllCategories[k], lag)
  {
    seq(|AllCategories|, k requires 0 <= k < |AllCategories| => WasCategory(cats, AllCategories[k], lag))
  }

  /** How many of the columns for the categories `cs` are 1 at row `i`. */
  function FlagsOn(cs: seq<Category>, cats: seq<Category>, lag: nat, i: nat): int
    requires i < |cats|
    decreases |cs|
  {
    if |cs| == 0 then 0 else WasCategory(cats, cs[0], lag)[i] + FlagsOn(cs[1..], cats, lag, i)
  }

  predicate Distinct(cs: seq<Category>) {
    forall a, b | 0 <= a < b < |cs| :: cs[a] != cs[b]
  }

  /** Over distinct categories, at most one column is set: the one of the
      lagged category, if it is among them. */
  lemma {:induction false} FlagsOnCount(cs: seq<Category>, cats: seq<Category>, lag: nat, i: nat)
    requires i < |cats|
    requires Distinct(cs)
    ensures FlagsOn(cs, cats, lag, i) == if i >= lag && cats[i - lag] in cs then 1 else 0
    decreases |cs|
  {
    if |cs| > 0 {
      FlagsOnCount(cs[1..], cats, lag, i);
      if i >= lag && cats[i - lag] == cs[0] {
        assert cs[0] !in cs[1..];
      }
    }
  }

  /** For every row, exactly one of the six columns of a lag is 1 iff the
      lagged row exists and its category is not `Unknown`; otherwise none is. */
  lemma ExactlyOneCategory(cats: seq<Category>, lag: nat, i: nat)
    requires i < |cats|
    ensures FlagsOn(AllCategories, cats, lag, i) == 1 <==> i >= lag && cats[i - lag] != Unknown
    ensures FlagsOn(AllCategories, cats, lag, i) == 0 <==> !(i >= lag && cats[i - lag] != Unknown)
  {
    FlagsOnCount(AllCategories, cats, lag, i);
    if i >= lag {
      GroupsPartition(cats[i - lag]);
    }
  }

  /** Rows before the lag have every indicator at 0. */
  lemma LeadingRowsZero(cats: seq<Category>, lag: nat, i: nat)
    requires i < |cats| && i < lag
    ensures forall c :: WasCategory(cats, c, lag)[i] == 0
    ensures WasPrecip(cats, lag)[i] == 0
  {
  }

  /** The precipitation indicator is the sum of the three precipitation
      category indicators. */
  lemma PrecipIsSumOfPrecipCategories(cats: seq<Category>, lag: nat, i: nat)
    requires i < |cats|
    ensures WasPrecip(cats, lag)[i] == FlagsOn(PrecipCategories, cats, lag, i)
  {
    FlagsOnCount(PrecipCategories, cats, lag, i);
  }

  /** The seven category values in `sorted()` order of their names. */
  const SortedCategories: seq<Category> := AllCategories + [Unknown]

  function Rank(c: Category): (r: nat)
    ensures r < |SortedCategories| && SortedCategories[r] == c
  {
    match c
    case ClearFair => 0
    case CloudyOvercast => 1
    case Fog => 2
    case Rain => 3
    case SnowSleetFreezing => 4
    case ThunderstormSevere => 5
    case Unknown => 6
  }

  /** The categories of rank `from` and above that occur in `cats`, in rank
      order. */
  function ActiveFrom(cats: seq<Category>, from: nat): (r: seq<Category>)
    requires from <= |SortedCategories|
    ensures forall c :: c in r <==> c in cats && Rank(c) >= from
    ensures forall a, b | 0 <= a < b < |r| :: Rank(r[a]) < Rank(r[b])
    decreases |SortedCategories| - from
  {
    if from == |SortedCategories| then []
    else
      var c := SortedCategories[from];
      var rest := ActiveFrom(cats, from + 1);
      if c in cats then [c] + rest else rest
  }

  /** `sorted(df['weather_category'].unique())`. */
  function ActiveCategories(cats: seq<Category>): (r: seq<Category>)
    ensures forall c :: c in r <==> c in cats
    ensures Distinct(r)
  {
    ActiveFrom(cats, 0)
  }

  /** The active categories are listed in strictly increasing name order. */
  lemma ActiveCategoriesSorted(cats: seq<Category>)
    ensures forall a, b | 0 <= a < b < |ActiveCategories(cats)| ::
      Text.LexLess(Name(ActiveCategories(cats)[a]), Name(ActiveCategories(cats)[b]))
  {
    var r := ActiveCategories(cats);
    AllCategoriesSortedByName();
    forall a, b | 0 <= a < b < |r|
      ensures Text.LexLess(Name(r[a]), Name(r[b]))
    {
      var p, q := Rank(r[a]), Rank(r[b]);
      assert p < q;
      if q < 6 {
        assert r[a] == AllCategories[p] && r[b] == AllCategories[q];
      } else {
        assert r[b] == Unknown && r[a] == AllCategories[p];
      }
    }
  }

  /** The older variant leaves out only columns that the newer one would
      fill with zeros: a category absent from the data never matches. */
  lemma AbsentCategoryAllZero(cats: seq<Category>, c: Category, lag: nat)
    requires c !in ActiveCategories(cats)
    ensures forall i | 0 <= i < |cats| :: WasCategory(cats, c, lag)[i] == 0
  {
  }
}
