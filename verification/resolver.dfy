/** The threshold-flag resolver (ai-main.py:550-644; the older variant
    ai-old.py:250-336 behaves the same on a table of numeric columns when
    every threshold entry has at least one condition; an empty condition
    list, which this model computes as an all-ones column, makes both
    scripts fail, the older one when a pass stalls).
    Each flag is the AND of (feature, operator, threshold) comparisons; a
    feature whose name starts with `flag_` is another flag, which must have
    been computed first. Passes over the pending flags repeat at most five
    times and stop early after a pass that computes nothing. */
module FlagResolver {
  import opened Wrappers
  import opened Tables
  import Text

  const MaxIterations: nat := 5

  /** The comparison operators of the threshold table; any other operator
      string selects the all-false fallback. */
  datatype Op = Lt | Gt | Le | Ge | Eq | Ne | Unsupported

  datatype Cond = Cond(feature: string, op: Op, threshold: real)

  /** One entry of the threshold table. A single-condition entry is a list of
      one condition. */
  datatype FlagDef = FlagDef(name: string, conds: seq<Cond>)

  predicate IsFlagName(f: string) {
    Text.StartsWith(f, "flag_")
  }

  /** A pandas comparison of one cell with a threshold: every comparison with
      NaN is false except `!=`. */
  function Compare(v: Option<real>, op: Op, t: real): (b: bool)
    ensures v.None? ==> (b <==> op == Ne)
    ensures op == Unsupported ==> !b
  {
    match op
    case Lt => v.Some? && v.value < t
    case Gt => v.Some? && v.value > t
    case Le => v.Some? && v.value <= t
    case Ge => v.Some? && v.value >= t
    case Eq => v.Some? && v.value == t
    case Ne => v.None? || v.value != t
    case Unsupported => false
  }

  /** On a present value the operators pair up as complements; on a missing
      one only `!=` holds, so `<` and `>=` are then both false. */
  lemma CompareComplements(v: Option<real>, t: real)
    ensures Compare(v, Ne, t) == !Compare(v, Eq, t)
    ensures v.Some? ==> (Compare(v, Lt, t) <==> !Compare(v, Ge, t))
    ensures v.Some? ==> (Compare(v, Gt, t) <==> !Compare(v, Le, t))
    ensures v.None? ==> !Compare(v, Lt, t) && !Compare(v, Ge, t) && !Compare(v, Gt, t) && !Compare(v, Le, t)
  {
  }

  predicate FeaturesIn(conds: seq<Cond>, t: Table) {
    forall k | 0 <= k < |conds| :: conds[k].feature in t.cols
  }

  /** Row `i` satisfies every condition. */
  predicate AllHold(conds: seq<Cond>, t: Table, i: nat)
    requires Valid(t) && FeaturesIn(conds, t) && i < t.rows
  {
    forall k | 0 <= k < |conds| :: Compare(t.cols[conds[k].feature][i], conds[k].op, conds[k].threshold)
  }

  /** `final_condition.astype(int)`: 1 on the rows where every condition
      holds, 0 elsewhere. */
  function FlagColumn(conds: seq<Cond>, t: Table): (col: Column)
    requires Valid(t) && FeaturesIn(conds, t)
    ensures |col| == t.rows
    ensures forall i | 0 <= i < t.rows :: col[i] == Some(1.0) || col[i] == Some(0.0)
    ensures forall i | 0 <= i < t.rows :: col[i] == Some(1.0) <==>
      forall k | 0 <= k < |conds| :: Compare(t.cols[conds[k].feature][i], conds[k].op, conds[k].threshold)
  {
    seq(t.rows, i requires 0 <= i < t.rows => if AllHold(conds, t, i) then Some(1.0) else Some(0.0))
  }

  /** Folding `&=` over the conditions: the flag of a concatenation is the
      AND of the two flags. */
  lemma FlagColumnConjunction(a: seq<Cond>, b: seq<Cond>, t: Table, i: nat)
    requires Valid(t) && FeaturesIn(a + b, t) && i < t.rows
    ensures FeaturesIn(a, t) && FeaturesIn(b, t)
    ensures FlagColumn(a + b, t)[i] == Some(1.0) <==>
      FlagColumn(a, t)[i] == Some(1.0) && FlagColumn(b, t)[i] == Some(1.0)
  {
    assert forall k | 0 <= k < |a| :: (a + b)[k] == a[k];
    assert forall k | 0 <= k < |b| :: (a + b)[|a| + k] == b[k];
    if FlagColumn(a, t)[i] == Some(1.0) && FlagColumn(b, t)[i] == Some(1.0) {
      forall k | 0 <= k < |a + b|
        ensures Compare(t.cols[(a + b)[k].feature][i], (a + b)[k].op, (a + b)[k].threshold)
      {
        if k >= |a| {
          assert (a + b)[k] == b[k - |a|];
        }
      }
    }
  }

  /** A flag's column depends only on the columns its conditions read. */
  lemma FlagColumnFrame(conds: seq<Cond>, t: Table, u: Table)
    requires Valid(t) && Valid(u) && t.rows == u.rows
    requires FeaturesIn(conds, t) && FeaturesIn(conds, u)
    requires forall k | 0 <= k < |conds| :: t.cols[conds[k].feature] == u.cols[conds[k].feature]
    ensures FlagColumn(conds, t) == FlagColumn(conds, u)
  {
    assert forall i | 0 <= i < t.rows :: AllHold(conds, t, i) == AllHold(conds, u, i);
  }

  /** A feature is usable when it is a computed flag or, for any other name,
      an existing column. */
  predicate Available(f: string, t: Table, done: seq<string>) {
    if IsFlagName(f) then f in done else f in t.cols
  }

  datatype Verdict = Ready | Blocked | MissingBase

  /** The dependency check of one flag, scanning its features in order and
      stopping at the first that is not available. */
  function Check(conds: seq<Cond>, t: Table, done: seq<string>): (v: Verdict)
    ensures v == Ready <==> forall k | 0 <= k < |conds| :: Available(conds[k].feature, t, done)
    ensures v == Blocked <==> exists k | 0 <= k < |conds| ::
      IsFlagName(conds[k].feature) && conds[k].feature !in done
      && forall j | 0 <= j < k :: Available(conds[j].feature, t, done)
    ensures v == MissingBase <==> exists k | 0 <= k < |conds| ::
      !IsFlagName(conds[k].feature) && conds[k].feature !in t.cols
      && forall j | 0 <= j < k :: Available(conds[j].feature, t, done)
  {
    CheckFrom(conds, t, done, 0)
  }

  /** The scan from position `i`, every earlier feature being available. */
  function CheckFrom(conds: seq<Cond>, t: Table, done: seq<string>, i: nat): (v: Verdict)
    requires i <= |conds|
    requires forall j | 0 <= j < i :: Available(conds[j].feature, t, done)
    ensures v == Ready <==> forall k | 0 <= k < |conds| :: Available(conds[k].feature, t, done)
    ensures v == Blocked <==> exists k | 0 <= k < |conds| ::
      IsFlagName(conds[k].feature) && conds[k].feature !in done
      && forall j | 0 <= j < k :: Available(conds[j].feature, t, done)
    ensures v == MissingBase <==> exists k | 0 <= k < |conds| ::
      !IsFlagName(conds[k].feature) && conds[k].feature !in t.cols
      && forall j | 0 <= j < k :: Available(conds[j].feature, t, done)
    decreases |conds| - i
  {
    if i == |conds| then Ready
    else
      var f := conds[i].feature;
      if IsFlagName(f) && f !in done then Blocked
      else if !IsFlagName(f) && f !in t.cols then MissingBase
      else CheckFrom(conds, t, done, i + 1)
  }

  function Names(ds: seq<FlagDef>): (ns: seq<string>)
    ensures |ns| == |ds|
    ensures forall i | 0 <= i < |ds| :: ns[i] == ds[i].name
  {
    seq(|ds|, i requires 0 <= i < |ds| => ds[i].name)
  }

  /** The resolver's variables inside one pass: the table, the flags computed
      so far in order (`threshold_flags_names`), the flags dropped for a
      missing base column and the flags left for the next pass. */
  datatype State = State(table: Table, computed: seq<FlagDef>, dropped: seq<FlagDef>, pending: seq<FlagDef>)

  /** One flag of a pass. A flag whose features all check out but are not
      all columns is dropped, as the `KeyError` of the second check does. */
  function Process(d: FlagDef, s: State): State
    requires Valid(s.table)
  {
    match Check(d.conds, s.table, Names(s.computed))
    case Ready =>
      if FeaturesIn(d.conds, s.table) then
        s.(table := AddColumn(s.table, d.name, FlagColumn(d.conds, s.table)), computed := s.computed + [d])
      else s.(dropped := s.dropped + [d])
    case MissingBase => s.(dropped := s.dropped + [d])
    case Blocked => s.(pending := s.pending + [d])
  }

  /** A pass over `todo`, in order. */
  function RunPass(todo: seq<FlagDef>, s: State): (r: State)
    requires Valid(s.table)
    ensures Valid(r.table)
    ensures |r.computed| + |r.dropped| + |r.pending| == |s.computed| + |s.dropped| + |s.pending| + |todo|
    ensures |r.computed| >= |s.computed| && |r.dropped| >= |s.dropped| && |r.pending| >= |s.pending|
    decreases |todo|
  {
    if |todo| == 0 then s
    else RunPass(todo[1..], Process(todo[0], s))
  }

  /** What the resolver leaves behind: the table, the computed flags in
      order, the dropped flags, the flags still pending, the number of passes
      run and whether the loop stopped early for lack of progress. */
  datatype Resolution = Resolution(
    table: Table,
    computed: seq<FlagDef>,
    dropped: seq<FlagDef>,
    unresolved: seq<FlagDef>,
    passes: nat,
    stalled: bool)

  /** The `while flags_to_calculate and iteration < max_iterations` loop. */
  function Loop(todo: seq<FlagDef>, t: Table, computed: seq<FlagDef>, dropped: seq<FlagDef>, iteration: nat): (r: Resolution)
    requires Valid(t) && iteration <= MaxIterations
    ensures iteration <= r.passes <= MaxIterations
    ensures r.passes == iteration <==> |todo| == 0 || iteration == MaxIterations
    ensures r.stalled ==> |r.unresolved| > 0
    decreases MaxIterations - iteration
  {
    if |todo| == 0 || iteration == MaxIterations then
      Resolution(t, computed, dropped, todo, iteration, false)
    else
      var next := RunPass(todo, State(t, computed, dropped, []));
      if |next.computed| == |computed| && |next.pending| > 0 then
        Resolution(next.table, next.computed, next.dropped, next.pending, iteration + 1, true)
      else
        Loop(next.pending, next.table, next.computed, next.dropped, iteration + 1)
  }

  /** Resolves the threshold table `defs` against the feature table `t`. */
  function Resolve(defs: seq<FlagDef>, t: Table): (r: Resolution)
    requires Valid(t)
    ensures r.passes <= MaxIterations
    ensures r.passes == 0 <==> |defs| == 0
  {
    Loop(defs, t, [], [], 0)
  }

  /** The flag names of the threshold table are distinct, all start with
      `flag_`, and every entry has at least one condition. */
  predicate WellFormed(defs: seq<FlagDef>) {
    (forall n | n in Names(defs) :: multiset(Names(defs))[n] <= 1)
    && (forall k | 0 <= k < |defs| :: IsFlagName(defs[k].name) && |defs[k].conds| > 0)
  }

  /** Every flag dependency of the flag at `k` is computed before it, and
      every other feature is a column of the original table. */
  predicate DependenciesBefore(computed: seq<FlagDef>, k: nat, t0: Table)
    requires k < |computed|
  {
    forall j | 0 <= j < |computed[k].conds| ::
      var f := computed[k].conds[j].feature;
      (IsFlagName(f) ==> f in Names(computed[..k])) && (!IsFlagName(f) ==> f in t0.cols)
  }

  /** Some base feature of `d` is not a column of `t0`. */
  predicate MissesBase(d: FlagDef, t0: Table) {
    exists j | 0 <= j < |d.conds| :: !IsFlagName(d.conds[j].feature) && d.conds[j].feature !in t0.cols
  }

  /** Some flag dependency of `d` is not among `done`. */
  predicate WaitsOnFlag(d: FlagDef, done: seq<string>) {
    exists j | 0 <= j < |d.conds| :: IsFlagName(d.conds[j].feature) && d.conds[j].feature !in done
  }

  /** Every flag is in exactly one of the lists. */
  ghost predicate Counts(defs: seq<FlagDef>, s: State, rest: seq<FlagDef>) {
    multiset(s.computed) + multiset(s.dropped) + multiset(s.pending) + multiset(rest) == multiset(defs)
    && multiset(Names(s.computed)) + multiset(Names(s.dropped)) + multiset(Names(s.pending)) + multiset(Names(rest))
       == multiset(Names(defs))
  }

  /** The table keeps the original columns, with the non-flag ones
      unchanged, and adds exactly the computed flags. */
  ghost predicate Shape(t0: Table, s: State) {
    Valid(t0) && Valid(s.table) && s.table.rows == t0.rows
    && (forall key :: key in s.table.cols <==> key in t0.cols || key in Names(s.computed))
    && (forall key | key in t0.cols && !IsFlagName(key) :: s.table.cols[key] == t0.cols[key])
    && (forall k | 0 <= k < |s.computed| :: IsFlagName(s.computed[k].name))
  }

  ghost predicate Ordered(t0: Table, computed: seq<FlagDef>) {
    forall k | 0 <= k < |computed| :: DependenciesBefore(computed, k, t0)
  }

  /** Every computed flag's column is its condition column on the table. */
  ghost predicate Values(t: Table, computed: seq<FlagDef>)
    requires Valid(t)
  {
    forall k | 0 <= k < |computed| ::
      FeaturesIn(computed[k].conds, t) && computed[k].name in t.cols
      && t.cols[computed[k].name] == FlagColumn(computed[k].conds, t)
  }

  ghost predicate DroppedMissBase(t0: Table, dropped: seq<FlagDef>) {
    forall k | 0 <= k < |dropped| :: MissesBase(dropped[k], t0)
  }

  ghost predicate Inv(defs: seq<FlagDef>, t0: Table, s: State, rest: seq<FlagDef>) {
    WellFormed(defs) && Counts(defs, s, rest) && Shape(t0, s) && Ordered(t0, s.computed)
    && Values(s.table, s.computed) && DroppedMissBase(t0, s.dropped)
  }

  lemma NamesAppend(a: seq<FlagDef>, b: seq<FlagDef>)
    ensures Names(a + b) == Names(a) + Names(b)
  {
  }

  /** The flag at the head of `rest` is one of `defs`, so its name is a
      flag name that is not among the computed ones. */
  lemma {:induction false} HeadFacts(defs: seq<FlagDef>, s: State, rest: seq<FlagDef>)
    requires WellFormed(defs) && Counts(defs, s, rest) && |rest| > 0
    ensures IsFlagName(rest[0].name) && |rest[0].conds| > 0
    ensures rest[0].name !in Names(s.computed)
  {
    var d := rest[0];
    assert d in multiset(rest);
    assert d in multiset(defs);
    var k :| 0 <= k < |defs| && defs[k] == d;
    assert Names(defs)[k] == d.name;
    assert multiset(Names(defs))[d.name] <= 1;
    assert Names(rest)[0] == d.name;
    assert multiset(Names(rest))[d.name] >= 1;
  }

  /** Moving the head of `rest` to one of the three lists keeps the counts. */
  lemma {:induction false} CountsMove(defs: seq<FlagDef>, s: State, rest: seq<FlagDef>, s': State)
    requires Counts(defs, s, rest) && |rest| > 0
    requires multiset(s'.computed) + multiset(s'.dropped) + multiset(s'.pending)
      == multiset(s.computed) + multiset(s.dropped) + multiset(s.pending) + multiset{rest[0]}
    requires multiset(Names(s'.computed)) + multiset(Names(s'.dropped)) + multiset(Names(s'.pending))
      == multiset(Names(s.computed)) + multiset(Names(s.dropped)) + multiset(Names(s.pending)) + multiset{rest[0].name}
    ensures Counts(defs, s', rest[1..])
  {
    MoveOne(multiset(s.computed) + multiset(s.dropped) + multiset(s.pending), rest, multiset(defs));
    NamesAppend([rest[0]], rest[1..]);
    assert Names(rest) == [rest[0].name] + Names(rest[1..]);
    MoveOne(multiset(Names(s.computed)) + multiset(Names(s.dropped)) + multiset(Names(s.pending)), Names(rest), multiset(Names(defs)));
  }

  lemma MoveOne<T>(a: multiset<T>, rest: seq<T>, total: multiset<T>)
    requires |rest| > 0 && a + multiset(rest) == total
    ensures (a + multiset{rest[0]}) + multiset(rest[1..]) == total
  {
    assert rest == [rest[0]] + rest[1..];
    assert multiset(rest) == multiset{rest[0]} + multiset(rest[1..]);
  }

  lemma {:induction false} MultisetAppend(xs: seq<FlagDef>, d: FlagDef)
    ensures multiset(xs + [d]) == multiset(xs) + multiset{d}
    ensures multiset(Names(xs + [d])) == multiset(Names(xs)) + multiset{d.name}
  {
    NamesAppend(xs, [d]);
  }

  /** Adding a flag column keeps the table's shape. */
  lemma ShapeAdd(t0: Table, s: State, d: FlagDef, col: Column)
    requires Shape(t0, s) && IsFlagName(d.name) && |col| == s.table.rows
    ensures Shape(t0, s.(table := AddColumn(s.table, d.name, col), computed := s.computed + [d]))
  {
    var s' := s.(table := AddColumn(s.table, d.name, col), computed := s.computed + [d]);
    NamesAppend(s.computed, [d]);
    assert Names(s'.computed)[|s.computed|] == d.name;
    forall key
      ensures key in s'.table.cols <==> key in t0.cols || key in Names(s'.computed)
    {
      if key != d.name {
        assert key in Names(s'.computed) <==> key in Names(s.computed);
      }
    }
  }

  /** Under the invariant a flag that passes the dependency check has all its
      features as columns. */
  lemma ReadyFeaturesIn(t0: Table, s: State, d: FlagDef)
    requires Shape(t0, s)
    requires Check(d.conds, s.table, Names(s.computed)) == Ready
    ensures FeaturesIn(d.conds, s.table)
  {
    forall j | 0 <= j < |d.conds|
      ensures d.conds[j].feature in s.table.cols
    {
      assert Available(d.conds[j].feature, s.table, Names(s.computed));
    }
  }

  lemma {:induction false} OrderedAdd(t0: Table, s: State, d: FlagDef)
    requires Shape(t0, s) && Ordered(t0, s.computed)
    requires Check(d.conds, s.table, Names(s.computed)) == Ready
    ensures Ordered(t0, s.computed + [d])
  {
    var c := s.computed + [d];
    forall k | 0 <= k < |c|
      ensures DependenciesBefore(c, k, t0)
    {
      if k == |s.computed| {
        assert c[..k] == s.computed;
        forall j | 0 <= j < |d.conds|
          ensures !IsFlagName(d.conds[j].feature) ==> d.conds[j].feature in t0.cols
        {
          var f := d.conds[j].feature;
          assert Available(f, s.table, Names(s.computed));
        }
      } else {
        assert c[..k] == s.computed[..k];
        assert DependenciesBefore(s.computed, k, t0);
      }
    }
  }

  /** A flag dependency of an earlier flag is an earlier flag's name. */
  lemma EarlierName(computed: seq<FlagDef>, k: nat, f: string)
    requires k < |computed| && f in Names(computed[..k])
    ensures f in Names(computed)
  {
    var m :| 0 <= m < k && Names(computed[..k])[m] == f;
    assert Names(computed)[m] == f;
  }

  lemma {:induction false} ValuesAdd(t0: Table, s: State, d: FlagDef)
    requires Shape(t0, s) && Ordered(t0, s.computed) && Values(s.table, s.computed)
    requires IsFlagName(d.name) && d.name !in Names(s.computed)
    requires FeaturesIn(d.conds, s.table)
    requires Check(d.conds, s.table, Names(s.computed)) == Ready
    ensures Values(AddColumn(s.table, d.name, FlagColumn(d.conds, s.table)), s.computed + [d])
  {
    var t := s.table;
    var t' := AddColumn(t, d.name, FlagColumn(d.conds, t));
    var c := s.computed + [d];
    forall k | 0 <= k < |c|
      ensures FeaturesIn(c[k].conds, t') && c[k].name in t'.cols && t'.cols[c[k].name] == FlagColumn(c[k].conds, t')
    {
      if k == |s.computed| {
        forall j | 0 <= j < |d.conds|
          ensures d.conds[j].feature != d.name
        {
          assert Available(d.conds[j].feature, t, Names(s.computed));
        }
        FlagColumnFrame(d.conds, t, t');
      } else {
        var e := s.computed[k];
        assert c[k] == e;
        assert Names(s.computed)[k] == e.name;
        assert DependenciesBefore(s.computed, k, t0);
        forall j | 0 <= j < |e.conds|
          ensures e.conds[j].feature != d.name
        {
          if IsFlagName(e.conds[j].feature) {
            EarlierName(s.computed, k, e.conds[j].feature);
          }
        }
        FlagColumnFrame(e.conds, t, t');
      }
    }
  }

  lemma {:induction false} DroppedAdd(t0: Table, s: State, d: FlagDef)
    requires Shape(t0, s) && DroppedMissBase(t0, s.dropped)
    requires Check(d.conds, s.table, Names(s.computed)) == MissingBase
    ensures DroppedMissBase(t0, s.dropped + [d])
  {
    var j :| 0 <= j < |d.conds| && !IsFlagName(d.conds[j].feature) && d.conds[j].feature !in s.table.cols;
    assert MissesBase(d, t0);
  }

  lemma {:induction false} BlockedWaits(s: State, d: FlagDef)
    requires Check(d.conds, s.table, Names(s.computed)) == Blocked
    ensures WaitsOnFlag(d, Names(s.computed))
  {
    var j :| 0 <= j < |d.conds| && IsFlagName(d.conds[j].feature) && d.conds[j].feature !in Names(s.computed);
  }

  /** Processing one flag keeps the invariant, and only appends to the
      three lists. */
  lemma {:induction false} ProcessKeepsInv(defs: seq<FlagDef>, t0: Table, s: State, rest: seq<FlagDef>)
    requires |rest| > 0
    requires Inv(defs, t0, s, rest)
    ensures Inv(defs, t0, Process(rest[0], s), rest[1..])
  {
    var d := rest[0];
    HeadFacts(defs, s, rest);
    match Check(d.conds, s.table, Names(s.computed))
    case Ready =>
      ReadyFeaturesIn(t0, s, d);
      ComputeKeepsInv(defs, t0, s, rest);
    case MissingBase =>
      DropKeepsInv(defs, t0, s, rest);
    case Blocked =>
      PostponeKeepsInv(defs, t0, s, rest);
  }

  /** Processing one flag appends it to exactly one of the three lists; it
      is postponed only while it waits on a flag not yet computed. */
  lemma ProcessAppends(d: FlagDef, s: State)
    requires Valid(s.table)
    ensures Process(d, s).computed == s.computed || Process(d, s).computed == s.computed + [d]
    ensures Process(d, s).pending == s.pending
      || (Process(d, s).pending == s.pending + [d] && Process(d, s).computed == s.computed
          && WaitsOnFlag(d, Names(s.computed)))
  {
    if Check(d.conds, s.table, Names(s.computed)) == Blocked {
      BlockedWaits(s, d);
    }
  }

  lemma {:induction false} ComputeKeepsInv(defs: seq<FlagDef>, t0: Table, s: State, rest: seq<FlagDef>)
    requires |rest| > 0
    requires Inv(defs, t0, s, rest)
    requires IsFlagName(rest[0].name) && rest[0].name !in Names(s.computed)
    requires Check(rest[0].conds, s.table, Names(s.computed)) == Ready
    requires FeaturesIn(rest[0].conds, s.table)
    ensures Process(rest[0], s) == s.(table := AddColumn(s.table, rest[0].name, FlagColumn(rest[0].conds, s.table)),
                                       computed := s.computed + [rest[0]])
    ensures Inv(defs, t0, Process(rest[0], s), rest[1..])
  {
    var d := rest[0];
    var s' := s.(table := AddColumn(s.table, d.name, FlagColumn(d.conds, s.table)), computed := s.computed + [d]);
    ShapeAdd(t0, s, d, FlagColumn(d.conds, s.table));
    OrderedAdd(t0, s, d);
    ValuesAdd(t0, s, d);
    MultisetAppend(s.computed, d);
    CountsMove(defs, s, rest, s');
  }

  lemma {:induction false} DropKeepsInv(defs: seq<FlagDef>, t0: Table, s: State, rest: seq<FlagDef>)
    requires |rest| > 0
    requires Inv(defs, t0, s, rest)
    requires Check(rest[0].conds, s.table, Names(s.computed)) == MissingBase
    ensures Process(rest[0], s) == s.(dropped := s.dropped + [rest[0]])
    ensures Inv(defs, t0, Process(rest[0], s), rest[1..])
  {
    var d := rest[0];
    var s' := s.(dropped := s.dropped + [d]);
    DroppedAdd(t0, s, d);
    MultisetAppend(s.dropped, d);
    CountsMove(defs, s, rest, s');
  }

  lemma {:induction false} PostponeKeepsInv(defs: seq<FlagDef>, t0: Table, s: State, rest: seq<FlagDef>)
    requires |rest| > 0
    requires Inv(defs, t0, s, rest)
    requires Check(rest[0].conds, s.table, Names(s.computed)) == Blocked
    ensures Process(rest[0], s) == s.(pending := s.pending + [rest[0]])
    ensures Inv(defs, t0, Process(rest[0], s), rest[1..])
  {
    var d := rest[0];
    var s' := s.(pending := s.pending + [d]);
    MultisetAppend(s.pending, d);
    CountsMove(defs, s, rest, s');
  }

  /** A whole pass keeps the invariant. */
  lemma {:induction false} RunPassKeepsInv(defs: seq<FlagDef>, t0: Table, s: State, rest: seq<FlagDef>)
    requires Inv(defs, t0, s, rest)
    ensures Inv(defs, t0, RunPass(rest, s), [])
    decreases |rest|
  {
    if |rest| > 0 {
      ProcessKeepsInv(defs, t0, s, rest);
      RunPassKeepsInv(defs, t0, Process(rest[0], s), rest[1..]);
    }
  }

  /** A pass only appends to the computed and pending lists, and a pass that
      computes nothing leaves pending only flags that wait on a flag not
      computed before it. */
  lemma {:induction false} RunPassAppends(s: State, rest: seq<FlagDef>)
    requires Valid(s.table)
    ensures RunPass(rest, s).computed[..|s.computed|] == s.computed
    ensures RunPass(rest, s).pending[..|s.pending|] == s.pending
    ensures |RunPass(rest, s).computed| == |s.computed| ==>
      forall k | |s.pending| <= k < |RunPass(rest, s).pending| :: WaitsOnFlag(RunPass(rest, s).pending[k], Names(s.computed))
    decreases |rest|
  {
    if |rest| > 0 {
      var s1 := Process(rest[0], s);
      ProcessAppends(rest[0], s);
      RunPassAppends(s1, rest[1..]);
      var r := RunPass(rest, s);
      assert r == RunPass(rest[1..], s1);
      assert r.computed[..|s.computed|] == r.computed[..|s1.computed|][..|s.computed|];
      assert r.pending[..|s.pending|] == r.pending[..|s1.pending|][..|s.pending|];
      if |r.computed| == |s.computed| {
        assert s1.computed == s.computed;
        forall k | |s.pending| <= k < |r.pending|
          ensures WaitsOnFlag(r.pending[k], Names(s.computed))
        {
          if k < |s1.pending| {
            assert r.pending[k] == s1.pending[k];
          }
        }
      }
    }
  }

  /** The state a resolution leaves, as the invariant sees it. */
  function Final(r: Resolution): State {
    State(r.table, r.computed, r.dropped, [])
  }

  /** Turning the pending flags into the next pass's work list keeps the
      invariant. */
  lemma PendingToTodo(defs: seq<FlagDef>, t0: Table, s: State)
    requires Inv(defs, t0, s, [])
    ensures Inv(defs, t0, State(s.table, s.computed, s.dropped, []), s.pending)
  {
    var none: seq<FlagDef> := [];
    assert multiset(none) == multiset{};
    assert Names(none) == [];
  }

  /** The state after a pass, with its pending flags as the next work list,
      keeps the invariant. */
  lemma NextPassInv(defs: seq<FlagDef>, t0: Table, s: State, todo: seq<FlagDef>)
    requires Inv(defs, t0, s, todo)
    ensures var next := RunPass(todo, s);
      Inv(defs, t0, State(next.table, next.computed, next.dropped, []), next.pending)
  {
    RunPassKeepsInv(defs, t0, s, todo);
    PendingToTodo(defs, t0, RunPass(todo, s));
  }

  /** One turn of the loop from a state with nothing pending. */
  lemma LoopUnfold(todo: seq<FlagDef>, s: State, iteration: nat)
    requires iteration < MaxIterations && s.pending == [] && |todo| > 0 && Valid(s.table)
    ensures var next := RunPass(todo, s);
      Loop(todo, s.table, s.computed, s.dropped, iteration)
      == if |next.computed| == |s.computed| && |next.pending| > 0
         then Resolution(next.table, next.computed, next.dropped, next.pending, iteration + 1, true)
         else Loop(next.pending, next.table, next.computed, next.dropped, iteration + 1)
  {
    assert State(s.table, s.computed, s.dropped, []) == s;
  }

  /** The loop keeps the invariant between passes. */
  lemma {:induction false} LoopKeepsInv(defs: seq<FlagDef>, t0: Table, todo: seq<FlagDef>, s: State, iteration: nat)
    requires iteration <= MaxIterations && s.pending == []
    requires Inv(defs, t0, s, todo)
    ensures Inv(defs, t0, Final(Loop(todo, s.table, s.computed, s.dropped, iteration)),
                Loop(todo, s.table, s.computed, s.dropped, iteration).unresolved)
    decreases MaxIterations - iteration, 1
  {
    if |todo| == 0 || iteration == MaxIterations {
      LoopDoneInv(defs, t0, todo, s, iteration);
    } else if |RunPass(todo, s).computed| == |s.computed| && |RunPass(todo, s).pending| > 0 {
      LoopStallInv(defs, t0, todo, s, iteration);
    } else {
      LoopNextKeepsInv(defs, t0, todo, s, iteration);
      LoopStepInv(defs, t0, todo, s, iteration);
    }
  }

  /** A pass that makes progress hands the invariant on to the rest of the
      loop. */
  lemma {:induction false} LoopNextKeepsInv(defs: seq<FlagDef>, t0: Table, todo: seq<FlagDef>, s: State, iteration: nat)
    requires iteration < MaxIterations && s.pending == [] && |todo| > 0
    requires Inv(defs, t0, s, todo)
    ensures var next := RunPass(todo, s);
      var r := Loop(next.pending, next.table, next.computed, next.dropped, iteration + 1);
      Inv(defs, t0, Final(r), r.unresolved)
    decreases MaxIterations - iteration, 0
  {
    var next := RunPass(todo, s);
    NextPassInv(defs, t0, s, todo);
    LoopKeepsInv(defs, t0, next.pending, State(next.table, next.computed, next.dropped, []), iteration + 1);
  }

  lemma LoopStepInv(defs: seq<FlagDef>, t0: Table, todo: seq<FlagDef>, s: State, iteration: nat)
    requires iteration < MaxIterations && s.pending == [] && |todo| > 0 && Valid(s.table)
    requires !(|RunPass(todo, s).computed| == |s.computed| && |RunPass(todo, s).pending| > 0)
    requires var next := RunPass(todo, s);
      var r := Loop(next.pending, next.table, next.computed, next.dropped, iteration + 1);
      Inv(defs, t0, Final(r), r.unresolved)
    ensures Inv(defs, t0, Final(Loop(todo, s.table, s.computed, s.dropped, iteration)),
                Loop(todo, s.table, s.computed, s.dropped, iteration).unresolved)
  {
    LoopUnfold(todo, s, iteration);
  }

  lemma LoopDoneInv(defs: seq<FlagDef>, t0: Table, todo: seq<FlagDef>, s: State, iteration: nat)
    requires iteration <= MaxIterations && s.pending == []
    requires |todo| == 0 || iteration == MaxIterations
    requires Inv(defs, t0, s, todo)
    ensures Inv(defs, t0, Final(Loop(todo, s.table, s.computed, s.dropped, iteration)),
                Loop(todo, s.table, s.computed, s.dropped, iteration).unresolved)
  {
    assert Loop(todo, s.table, s.computed, s.dropped, iteration)
      == Resolution(s.table, s.computed, s.dropped, todo, iteration, false);
    assert Final(Resolution(s.table, s.computed, s.dropped, todo, iteration, false)) == s;
  }

  lemma LoopStallInv(defs: seq<FlagDef>, t0: Table, todo: seq<FlagDef>, s: State, iteration: nat)
    requires iteration < MaxIterations && s.pending == [] && |todo| > 0
    requires Inv(defs, t0, s, todo)
    requires |RunPass(todo, s).computed| == |s.computed| && |RunPass(todo, s).pending| > 0
    ensures Inv(defs, t0, Final(Loop(todo, s.table, s.computed, s.dropped, iteration)),
                Loop(todo, s.table, s.computed, s.dropped, iteration).unresolved)
  {
    var next := RunPass(todo, s);
    NextPassInv(defs, t0, s, todo);
    LoopUnfold(todo, s, iteration);
    assert Final(Resolution(next.table, next.computed, next.dropped, next.pending, iteration + 1, true))
      == State(next.table, next.computed, next.dropped, []);
  }

  /** After a pass that computes nothing from a state with nothing pending,
      every pending flag waits on a flag that is still not computed. */
  lemma StalledPassWaits(s: State, todo: seq<FlagDef>)
    requires Valid(s.table) && s.pending == []
    requires |RunPass(todo, s).computed| == |s.computed|
    ensures forall k | 0 <= k < |RunPass(todo, s).pending| ::
      WaitsOnFlag(RunPass(todo, s).pending[k], Names(RunPass(todo, s).computed))
  {
    RunPassAppends(s, todo);
    assert RunPass(todo, s).computed == s.computed;
  }

  /** After an early stop every unresolved flag waits on a flag that was
      never computed. */
  lemma {:induction false} StallWaits(todo: seq<FlagDef>, t: Table, computed: seq<FlagDef>, dropped: seq<FlagDef>, iteration: nat)
    requires Valid(t) && iteration <= MaxIterations
    ensures StallExplained(Loop(todo, t, computed, dropped, iteration))
    decreases MaxIterations - iteration
  {
    if |todo| > 0 && iteration < MaxIterations {
      var s := State(t, computed, dropped, []);
      var next := RunPass(todo, s);
      if |next.computed| == |computed| && |next.pending| > 0 {
        StallNowExplained(todo, s, iteration);
      } else {
        StallWaits(next.pending, next.table, next.computed, next.dropped, iteration + 1);
        LoopStepSame(todo, s, iteration);
      }
    }
  }

  /** A pass that computes nothing ends the loop with an explained stall. */
  lemma StallNowExplained(todo: seq<FlagDef>, s: State, iteration: nat)
    requires iteration < MaxIterations && s.pending == [] && |todo| > 0 && Valid(s.table)
    requires |RunPass(todo, s).computed| == |s.computed| && |RunPass(todo, s).pending| > 0
    ensures StallExplained(Loop(todo, s.table, s.computed, s.dropped, iteration))
  {
    LoopUnfold(todo, s, iteration);
    StalledPassWaits(s, todo);
  }

  /** After a pass that makes progress the loop goes on from the pending
      flags. */
  lemma LoopStepSame(todo: seq<FlagDef>, s: State, iteration: nat)
    requires iteration < MaxIterations && s.pending == [] && |todo| > 0 && Valid(s.table)
    requires !(|RunPass(todo, s).computed| == |s.computed| && |RunPass(todo, s).pending| > 0)
    ensures var next := RunPass(todo, s);
      Loop(todo, s.table, s.computed, s.dropped, iteration)
      == Loop(next.pending, next.table, next.computed, next.dropped, iteration + 1)
  {
    LoopUnfold(todo, s, iteration);
  }

  /** An early stop leaves only flags that wait on a flag never computed. */
  predicate StallExplained(r: Resolution) {
    r.stalled ==> forall k | 0 <= k < |r.unresolved| :: WaitsOnFlag(r.unresolved[k], Names(r.computed))
  }

  /** The invariant holds at the end of the resolution. */
  lemma ResolveInv(defs: seq<FlagDef>, t0: Table)
    requires WellFormed(defs) && Valid(t0)
    ensures Inv(defs, t0, Final(Resolve(defs, t0)), Resolve(defs, t0).unresolved)
  {
    var s := State(t0, [], [], []);
    assert Names([]) == [];
    assert Inv(defs, t0, s, defs);
    LoopKeepsInv(defs, t0, defs, s, 0);
  }

  /** Every flag of a well-formed threshold table ends up computed, dropped
      or unresolved, exactly once, and no flag column is computed twice. */
  lemma ResolveConserves(defs: seq<FlagDef>, t0: Table)
    requires WellFormed(defs) && Valid(t0)
    ensures var r := Resolve(defs, t0);
      multiset(r.computed) + multiset(r.dropped) + multiset(r.unresolved) == multiset(defs)
    ensures var r := Resolve(defs, t0);
      forall n | n in Names(r.computed) :: multiset(Names(r.computed))[n] == 1
  {
    ResolveInv(defs, t0);
    var r := Resolve(defs, t0);
    assert Counts(defs, Final(r), r.unresolved);
    var none: seq<FlagDef> := [];
    assert multiset(none) == multiset{};
    assert Names(none) == [];
    UniqueInPart(Names(r.computed), multiset(Names(r.dropped)) + multiset(Names(r.unresolved)), Names(defs));
  }

  /** A part of a list without repetitions has none either. */
  lemma UniqueInPart(part: seq<string>, others: multiset<string>, all: seq<string>)
    requires multiset(part) + others == multiset(all)
    requires forall n | n in all :: multiset(all)[n] <= 1
    ensures forall n | n in part :: multiset(part)[n] == 1
  {
    forall n | n in part
      ensures multiset(part)[n] == 1
    {
      assert n in multiset(all);
    }
  }

  /** Each computed flag's flag dependencies were computed before it, and
      its other features are columns of the original table. */
  lemma ResolveOrdersDependencies(defs: seq<FlagDef>, t0: Table)
    requires WellFormed(defs) && Valid(t0)
    ensures var r := Resolve(defs, t0);
      forall k | 0 <= k < |r.computed| :: DependenciesBefore(r.computed, k, t0)
  {
    ResolveInv(defs, t0);
    assert Ordered(t0, Final(Resolve(defs, t0)).computed);
  }

  /** Each computed flag's column is the AND of its comparisons on the final
      table. */
  lemma ResolveValues(defs: seq<FlagDef>, t0: Table)
    requires WellFormed(defs) && Valid(t0)
    ensures Valid(Resolve(defs, t0).table)
    ensures var r := Resolve(defs, t0);
      forall k | 0 <= k < |r.computed| ::
        FeaturesIn(r.computed[k].conds, r.table) && r.computed[k].name in r.table.cols
        && r.table.cols[r.computed[k].name] == FlagColumn(r.computed[k].conds, r.table)
  {
    ResolveInv(defs, t0);
    var r := Resolve(defs, t0);
    assert Values(Final(r).table, Final(r).computed);
  }

  /** The original non-flag columns are unchanged, and the only new columns
      are the computed flags. */
  lemma ResolveKeepsBase(defs: seq<FlagDef>, t0: Table)
    requires WellFormed(defs) && Valid(t0)
    ensures var r := Resolve(defs, t0);
      forall key | key in t0.cols && !IsFlagName(key) :: key in r.table.cols && r.table.cols[key] == t0.cols[key]
    ensures var r := Resolve(defs, t0);
      forall key :: key in r.table.cols <==> key in t0.cols || key in Names(r.computed)
  {
    ResolveInv(defs, t0);
    var r := Resolve(defs, t0);
    assert Shape(t0, Final(r));
  }

  /** Only flags that lack a base column are dropped, and such a flag is
      never computed. */
  lemma ResolveDropsOnlyMissingBase(defs: seq<FlagDef>, t0: Table)
    requires WellFormed(defs) && Valid(t0)
    ensures var r := Resolve(defs, t0);
      forall k | 0 <= k < |r.dropped| :: MissesBase(r.dropped[k], t0)
    ensures var r := Resolve(defs, t0);
      forall k | 0 <= k < |r.computed| :: !MissesBase(r.computed[k], t0)
  {
    ResolveInv(defs, t0);
    var r := Resolve(defs, t0);
    assert DroppedMissBase(t0, Final(r).dropped);
    assert Ordered(t0, Final(r).computed);
    forall k | 0 <= k < |r.computed|
      ensures !MissesBase(r.computed[k], t0)
    {
      assert DependenciesBefore(r.computed, k, t0);
    }
  }

  /** Flags stay unresolved only when the loop stops early, each then
      waiting on a flag that was never computed, or when all five passes
      ran. */
  lemma ResolveStops(defs: seq<FlagDef>, t0: Table)
    requires Valid(t0)
    ensures var r := Resolve(defs, t0);
      r.stalled ==> forall k | 0 <= k < |r.unresolved| :: WaitsOnFlag(r.unresolved[k], Names(r.computed))
    ensures var r := Resolve(defs, t0);
      |r.unresolved| > 0 && !r.stalled ==> r.passes == MaxIterations
  {
    StallWaits(defs, t0, [], [], 0);
    assert StallExplained(Resolve(defs, t0));
    UnresolvedOnlyAtLimit(defs, t0, [], [], 0);
  }

  /** Without an early stop the loop only ends with flags pending after the
      fifth pass. */
  lemma {:induction false} UnresolvedOnlyAtLimit(todo: seq<FlagDef>, t: Table, computed: seq<FlagDef>, dropped: seq<FlagDef>, iteration: nat)
    requires Valid(t) && iteration <= MaxIterations
    ensures var r := Loop(todo, t, computed, dropped, iteration);
      |r.unresolved| > 0 && !r.stalled ==> r.passes == MaxIterations
    decreases MaxIterations - iteration
  {
    if |todo| > 0 && iteration < MaxIterations {
      var next := RunPass(todo, State(t, computed, dropped, []));
      if |next.computed| == |computed| && |next.pending| > 0 {
        assert Loop(todo, t, computed, dropped, iteration).stalled;
      } else {
        assert Loop(todo, t, computed, dropped, iteration)
          == Loop(next.pending, next.table, next.computed, next.dropped, iteration + 1);
        UnresolvedOnlyAtLimit(next.pending, next.table, next.computed, next.dropped, iteration + 1);
      }
    }
  }
}
