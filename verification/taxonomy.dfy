/** The weather-category taxonomy: Meteostat condition codes (`coco`) are
    folded into six categories, split into a precipitation and a
    non-precipitation group (ai-main.py:111-126, ai-old.py:83-94, 145). */
module Taxonomy {
  import opened Wrappers
  import Text

  datatype Category =
    | ClearFair
    | CloudyOvercast
    | Fog
    | Rain
    | SnowSleetFreezing
    | ThunderstormSevere
    | Unknown

  /** A `coco` cell as it reaches the mapping: missing, a number (Meteostat
      delivers floats), or a value `int()` rejects. */
  datatype CocoValue = Missing | Number(x: real) | NotNumber

  /** Python `int(x)` on a float: truncation toward zero. */
  function Truncate(x: real): (k: int)
    ensures x >= 0.0 ==> k as real <= x < k as real + 1.0
    ensures x < 0.0 ==> k as real - 1.0 < x <= k as real
  {
    if x >= 0.0 then x.Floor else -((-x).Floor)
  }

  /** The code table of `aggregate_coco_FINAL_user_v2`. */
  function CategoryOfCode(code: int): (c: Category)
    ensures c == Unknown <==> !(1 <= code <= 27)
  {
    if code in {1, 2} then ClearFair
    else if code in {3, 4} then CloudyOvercast
    else if code in {5, 6} then Fog
    else if code in {7, 8, 9, 17, 18} then Rain
    else if code in {10, 11, 12, 13, 14, 15, 16, 19, 20, 21, 22} then SnowSleetFreezing
    else if code in {23, 24, 25, 26, 27} then ThunderstormSevere
    else Unknown
  }

  /** `aggregate_coco_FINAL_user_v2` on any cell value. */
  function Aggregate(v: CocoValue): (c: Category)
    ensures v.Missing? || v.NotNumber? ==> c == Unknown
    ensures v.Number? ==> c == CategoryOfCode(Truncate(v.x))
  {
    match v
    case Missing => Unknown
    case NotNumber => Unknown
    case Number(x) => CategoryOfCode(Truncate(x))
  }

  /** The codes each category is made of: an independent statement of the table. */
  function CodesOf(c: Category): set<int> {
    match c
    case ClearFair => {1, 2}
    case CloudyOvercast => {3, 4}
    case Fog => {5, 6}
    case Rain => {7, 8, 9, 17, 18}
    case SnowSleetFreezing => {10, 11, 12, 13, 14, 15, 16, 19, 20, 21, 22}
    case ThunderstormSevere => {23, 24, 25, 26, 27}
    case Unknown => {}
  }

  /** A code maps to a known category exactly when it is one of that
      category's codes; every code from 1 to 27 is used exactly once. */
  lemma CodeTableExact(code: int, c: Category)
    requires c != Unknown
    ensures CategoryOfCode(code) == c <==> code in CodesOf(c)
  {
  }

  /** The six categories in `sorted()` order of their names. */
  const AllCategories: seq<Category> :=
    [ClearFair, CloudyOvercast, Fog, Rain, SnowSleetFreezing, ThunderstormSevere]
  const NoPrecipCategories: seq<Category> := [ClearFair, CloudyOvercast, Fog]
  const PrecipCategories: seq<Category> := [Rain, SnowSleetFreezing, ThunderstormSevere]

  predicate IsPrecip(c: Category) {
    c in PrecipCategories
  }

  /** The two groups partition the six categories, and `Unknown` is in neither. */
  lemma GroupsPartition(c: Category)
    ensures c in AllCategories <==> c != Unknown
    ensures c in AllCategories <==> (c in PrecipCategories) != (c in NoPrecipCategories)
    ensures !(c in PrecipCategories && c in NoPrecipCategories)
  {
  }

  /** Every value the mapping produces is `Unknown` or one of the six. */
  lemma AggregateInTaxonomy(v: CocoValue)
    ensures Aggregate(v) != Unknown ==> Aggregate(v) in AllCategories
  {
  }

  function Name(c: Category): string {
    match c
    case ClearFair => "Clear/Fair"
    case CloudyOvercast => "Cloudy/Overcast"
    case Fog => "Fog"
    case Rain => "Rain"
    case SnowSleetFreezing => "Snow/Sleet/Freezing"
    case ThunderstormSevere => "Thunderstorm/Severe"
    case Unknown => "Unknown"
  }

  /** Looks a category up by its name in the fixed category list. */
  function FromName(s: string): (r: Option<Category>)
    ensures r.Some? ==> Name(r.value) == s
  {
    if s == "Clear/Fair" then Some(ClearFair)
    else if s == "Cloudy/Overcast" then Some(CloudyOvercast)
    else if s == "Fog" then Some(Fog)
    else if s == "Rain" then Some(Rain)
    else if s == "Snow/Sleet/Freezing" then Some(SnowSleetFreezing)
    else if s == "Thunderstorm/Severe" then Some(ThunderstormSevere)
    else if s == "Unknown" then Some(Unknown)
    else None
  }

  /** Mapping a code to a category and that category's name back through
      the category list gives the same category. */
  lemma NameRoundTrip(code: int)
    ensures FromName(Name(CategoryOfCode(code))) == Some(CategoryOfCode(code))
  {
  }

  /** `sorted(no_precip + precip)` yields exactly the order of `AllCategories`,
      and `Unknown` sorts after all six. */
  lemma AllCategoriesSortedByName()
    ensures forall i, j | 0 <= i < j < |AllCategories| :: Text.LexLess(Name(AllCategories[i]), Name(AllCategories[j]))
    ensures forall i | 0 <= i < |AllCategories| :: Text.LexLess(Name(AllCategories[i]), Name(Unknown))
  {
    var s := AllCategories + [Unknown];
    AdjacentNamesLess();
    forall i, j | 0 <= i < j <= 6
      ensures Text.LexLess(Name(s[i]), Name(s[j]))
    {
      ChainLess(i, j);
    }
    assert forall i | 0 <= i < 6 :: s[i] == AllCategories[i];
    assert s[6] == Unknown;
  }

  /** Neighbouring names in the list are in order. */
  lemma AdjacentNamesLess()
    ensures forall k | 0 <= k < 6 :: Text.LexLess(Name((AllCategories + [Unknown])[k]), Name((AllCategories + [Unknown])[k + 1]))
  {
    var s := AllCategories + [Unknown];
    assert Text.LexLess("Clear/Fair", "Cloudy/Overcast") by {
      assert "Clear/Fair"[2..] == "ear/Fair" && "Cloudy/Overcast"[2..] == "oudy/Overcast";
      assert Text.LexLess("ear/Fair", "oudy/Overcast");
      assert Text.LexLess("lear/Fair", "loudy/Overcast");
    }
    assert Text.LexLess("Cloudy/Overcast", "Fog");
    assert Text.LexLess("Fog", "Rain");
    assert Text.LexLess("Rain", "Snow/Sleet/Freezing");
    assert Text.LexLess("Snow/Sleet/Freezing", "Thunderstorm/Severe");
    assert Text.LexLess("Thunderstorm/Severe", "Unknown");
    assert s[0] == ClearFair && s[1] == CloudyOvercast && s[2] == Fog && s[3] == Rain;
    assert s[4] == SnowSleetFreezing && s[5] == ThunderstormSevere && s[6] == Unknown;
  }

  lemma ChainLess(i: nat, j: nat)
    requires i < j <= 6
    requires forall k | 0 <= k < 6 :: Text.LexLess(Name((AllCategories + [Unknown])[k]), Name((AllCategories + [Unknown])[k + 1]))
    ensures Text.LexLess(Name((AllCategories + [Unknown])[i]), Name((AllCategories + [Unknown])[j]))
    decreases j - i
  {
    if j > i + 1 {
      ChainLess(i + 1, j);
      Text.LexLessTransitive(Name((AllCategories + [Unknown])[i]), Name((AllCategories + [Unknown])[i + 1]), Name((AllCategories + [Unknown])[j]));
    }
  }
}
