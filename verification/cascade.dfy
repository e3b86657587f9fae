/** The hierarchical prediction cascade (ai-main.py:934-1003; the older
    variant ai-old.py:715-774). The four classifiers are not modelled: each
    stage's predictions are given per row, M3's as class indices decoded by
    the label encoder's class table. M1 splits precipitation from the rest,
    M2 picks fog among the rest, M3 names the precipitation type and M4 tells
    clear from cloudy among the remaining rows. */
module Cascade {
  import opened Wrappers
  import opened Taxonomy

  /** Which stages can run: a stage whose feature list came out empty is
      skipped, and M3 also needs its label encoder. */
  datatype Stages = Stages(m1: bool, m2: bool, m3: bool, m4: bool, encoder: bool)

  /** The classifiers' outputs, one per row: M1, M2 and M4 are binary, M3 is
      a class index. */
  datatype Predictions = Predictions(m1: seq<bool>, m2: seq<bool>, m3: seq<int>, m4: seq<bool>)

  predicate Fits(p: Predictions, n: nat) {
    |p.m1| == n && |p.m2| == n && |p.m3| == n && |p.m4| == n
  }

  /** `index[pred_m1 == 1]` as a row mask: no row when M1 cannot run. */
  function PrecipMask(s: Stages, p: Predictions, n: nat): seq<bool>
    requires Fits(p, n)
  {
    seq(n, i requires 0 <= i < n => s.m1 && p.m1[i])
  }

  /** `index[pred_m1 == 0]`, or every row when M1 cannot run. */
  function DryMask(s: Stages, p: Predictions, n: nat): seq<bool>
    requires Fits(p, n)
  {
    seq(n, i requires 0 <= i < n => if s.m1 then !p.m1[i] else true)
  }

  /** The fog rows among the dry ones; none when M2 cannot run. */
  function FogMask(s: Stages, p: Predictions, n: nat): seq<bool>
    requires Fits(p, n)
  {
    var dry := DryMask(s, p, n);
    seq(n, i requires 0 <= i < n => if s.m2 then dry[i] && p.m2[i] else false)
  }

  /** The dry rows handed to M4: the non-fog ones, or all of them when M2
      cannot run. */
  function OtherMask(s: Stages, p: Predictions, n: nat): seq<bool>
    requires Fits(p, n)
  {
    var dry := DryMask(s, p, n);
    seq(n, i requires 0 <= i < n => if s.m2 then dry[i] && !p.m2[i] else dry[i])
  }

  /** `inverse_transform` succeeds on the precipitation batch: the class
      index of every precipitation row is one of the encoder's classes. */
  predicate DecodeOk(s: Stages, p: Predictions, n: nat, classes: seq<Category>)
    requires Fits(p, n)
  {
    forall i | 0 <= i < n && s.m1 && p.m1[i] :: 0 <= p.m3[i] < |classes|
  }

  /** M3 labels the precipitation rows only when it can run and the decoding
      raises no error. */
  predicate M3Labels(s: Stages, p: Predictions, n: nat, classes: seq<Category>)
    requires Fits(p, n)
  {
    s.m3 && s.encoder && DecodeOk(s, p, n, classes)
  }

  /** `series.loc[mask] = vals` on a label series. */
  function Put(labels: seq<Option<Category>>, mask: seq<bool>, vals: nat -> Category): (r: seq<Option<Category>>)
    requires |mask| == |labels|
    ensures |r| == |labels|
    ensures forall i {:trigger r[i]} | 0 <= i < |labels| && mask[i] :: r[i] == Some(vals(i))
    ensures forall i {:trigger r[i]} | 0 <= i < |labels| && !mask[i] :: r[i] == labels[i]
  {
    seq(|labels|, i requires 0 <= i < |labels| => if mask[i] then Some(vals(i)) else labels[i])
  }

  /** The class of M3's index, when it is one. */
  function Decode(classes: seq<Category>, k: int): Category {
    if 0 <= k < |classes| then classes[k] else Unknown
  }

  /** The four stages in the main script's order, each writing its labels
      over the label series; M4 writes clear where it says 0 and cloudy
      where it says 1. */
  function Run(s: Stages, p: Predictions, n: nat, classes: seq<Category>): (labels: seq<Option<Category>>)
    requires Fits(p, n)
    ensures |labels| == n
  {
    var start: seq<Option<Category>> := seq(n, i => None);
    var afterM2 := Put(start, FogMask(s, p, n), (i: nat) => Fog);
    var afterM3 :=
      if M3Labels(s, p, n, classes) then Put(afterM2, PrecipMask(s, p, n), (i: nat) => if i < n then Decode(classes, p.m3[i]) else Unknown)
      else afterM2;
    if s.m4 then
      var other := OtherMask(s, p, n);
      var clear := seq(n, i requires 0 <= i < n => other[i] && !p.m4[i]);
      var cloudy := seq(n, i requires 0 <= i < n => other[i] && p.m4[i]);
      Put(Put(afterM3, clear, (i: nat) => ClearFair), cloudy, (i: nat) => CloudyOvercast)
    else afterM3
  }

  /** The label of one row read off the decision tree directly. */
  function Expected(s: Stages, p: Predictions, n: nat, classes: seq<Category>, i: nat): Option<Category>
    requires Fits(p, n) && i < n
  {
    if s.m1 && p.m1[i] then
      if M3Labels(s, p, n, classes) then Some(classes[p.m3[i]]) else None
    else if s.m2 && p.m2[i] then Some(Fog)
    else if s.m4 then Some(if p.m4[i] then CloudyOvercast else ClearFair)
    else None
  }

  /** The staged masked writes label every row as the tree says. */
  lemma RunMatchesTree(s: Stages, p: Predictions, n: nat, classes: seq<Category>, i: nat)
    requires Fits(p, n) && i < n
    ensures Run(s, p, n, classes)[i] == Expected(s, p, n, classes, i)
  {
  }

  /** The main script's result: the label of every row, `None` where no
      stage labelled it. */
  function CascadeLabels(s: Stages, p: Predictions, n: nat, classes: seq<Category>): (labels: seq<Option<Category>>)
    requires Fits(p, n)
    ensures |labels| == n
    ensures forall i | 0 <= i < n :: labels[i] == Expected(s, p, n, classes, i)
  {
    forall i | 0 <= i < n
      ensures Run(s, p, n, classes)[i] == Expected(s, p, n, classes, i)
    {
      RunMatchesTree(s, p, n, classes, i);
    }
    Run(s, p, n, classes)
  }

  /** M1 splits the rows: the precipitation and dry index sets are disjoint
      and cover every row; without M1 every row is dry. */
  lemma M1Partition(s: Stages, p: Predictions, n: nat, i: nat)
    requires Fits(p, n) && i < n
    ensures PrecipMask(s, p, n)[i] != DryMask(s, p, n)[i]
    ensures DryMask(s, p, n)[i] <==> FogMask(s, p, n)[i] || OtherMask(s, p, n)[i]
    ensures !(FogMask(s, p, n)[i] && OtherMask(s, p, n)[i])
    ensures !s.m1 ==> !PrecipMask(s, p, n)[i] && DryMask(s, p, n)[i]
    ensures !s.m2 ==> !FogMask(s, p, n)[i]
  {
  }

  /** Fog comes only from M2 on a dry row, or from M3 when its classes
      include it; with precipitation classes only, fog means M1 = 0 and
      M2 = 1. */
  lemma FogOnlyFromM2(s: Stages, p: Predictions, n: nat, classes: seq<Category>, i: nat)
    requires Fits(p, n) && i < n
    requires forall k | 0 <= k < |classes| :: IsPrecip(classes[k])
    ensures CascadeLabels(s, p, n, classes)[i] == Some(Fog) <==> !(s.m1 && p.m1[i]) && s.m2 && p.m2[i]
  {
  }

  /** Clear and cloudy go only to dry non-fog rows, by M4's output. */
  lemma ClearCloudyOnlyFromM4(s: Stages, p: Predictions, n: nat, classes: seq<Category>, i: nat)
    requires Fits(p, n) && i < n
    requires forall k | 0 <= k < |classes| :: IsPrecip(classes[k])
    ensures CascadeLabels(s, p, n, classes)[i] == Some(ClearFair) <==>
      !(s.m1 && p.m1[i]) && !(s.m2 && p.m2[i]) && s.m4 && !p.m4[i]
    ensures CascadeLabels(s, p, n, classes)[i] == Some(CloudyOvercast) <==>
      !(s.m1 && p.m1[i]) && !(s.m2 && p.m2[i]) && s.m4 && p.m4[i]
  {
  }

  /** A precipitation label goes only to a row with M1 = 1, and is its
      decoded M3 class. */
  lemma PrecipOnlyFromM3(s: Stages, p: Predictions, n: nat, classes: seq<Category>, i: nat)
    requires Fits(p, n) && i < n
    requires forall k | 0 <= k < |classes| :: IsPrecip(classes[k])
    requires CascadeLabels(s, p, n, classes)[i].Some? && IsPrecip(CascadeLabels(s, p, n, classes)[i].value)
    ensures s.m1 && p.m1[i] && 0 <= p.m3[i] < |classes|
    ensures CascadeLabels(s, p, n, classes)[i] == Some(classes[p.m3[i]])
  {
  }

  /** One class index outside the encoder's classes leaves every
      precipitation row unlabelled. */
  lemma DecodeErrorLeavesUnlabelled(s: Stages, p: Predictions, n: nat, classes: seq<Category>, i: nat)
    requires Fits(p, n) && i < n
    requires !DecodeOk(s, p, n, classes)
    requires s.m1 && p.m1[i]
    ensures CascadeLabels(s, p, n, classes)[i].None?
  {
  }

  /** The labelled rows from row `from` on, with their labels, in order. */
  function LabelledFrom(labels: seq<Option<Category>>, from: nat): (r: seq<(nat, Category)>)
    requires from <= |labels|
    ensures forall k | 0 <= k < |r| :: from <= r[k].0 < |labels| && labels[r[k].0] == Some(r[k].1)
    ensures forall i | from <= i < |labels| && labels[i].Some? :: (i, labels[i].value) in r
    ensures forall a, b | 0 <= a < b < |r| :: r[a].0 < r[b].0
    decreases |labels| - from
  {
    if from == |labels| then []
    else
      var rest := LabelledFrom(labels, from + 1);
      if labels[from].Some? then [(from, labels[from].value)] + rest else rest
  }

  /** `dropna()` on a label series: the labelled rows with their labels,
      in order; an empty result is an error. */
  function DropUnlabelled(labels: seq<Option<Category>>): (r: Result<seq<(nat, Category)>>)
    ensures r.Failure? <==> forall i | 0 <= i < |labels| :: labels[i].None?
    ensures r.Success? ==> forall k | 0 <= k < |r.value| ::
      r.value[k].0 < |labels| && labels[r.value[k].0] == Some(r.value[k].1)
    ensures r.Success? ==> forall i | 0 <= i < |labels| && labels[i].Some? :: (i, labels[i].value) in r.value
    ensures r.Success? ==> forall a, b | 0 <= a < b < |r.value| :: r.value[a].0 < r.value[b].0
  {
    var pairs := LabelledFrom(labels, 0);
    if |pairs| == 0 then
      Failure("no final predictions")
    else
      assert labels[pairs[0].0].Some?;
      Success(pairs)
  }

  /** The older script: a decoding error is not caught and ends the run;
      otherwise the unlabelled rows are dropped, and an empty result ends
      the run too. */
  function CascadeOld(s: Stages, p: Predictions, n: nat, classes: seq<Category>): (r: Result<seq<(nat, Category)>>)
    requires Fits(p, n)
    ensures s.m3 && s.encoder && !DecodeOk(s, p, n, classes) ==> r.Failure?
    ensures r.Failure? && !(s.m3 && s.encoder && !DecodeOk(s, p, n, classes)) ==>
      forall i | 0 <= i < n :: CascadeLabels(s, p, n, classes)[i].None?
    ensures r.Success? ==> forall k | 0 <= k < |r.value| ::
      r.value[k].0 < n && CascadeLabels(s, p, n, classes)[r.value[k].0] == Some(r.value[k].1)
    ensures r.Success? ==> forall i | 0 <= i < n && CascadeLabels(s, p, n, classes)[i].Some? ::
      (i, CascadeLabels(s, p, n, classes)[i].value) in r.value
    ensures r.Success? ==> forall a, b | 0 <= a < b < |r.value| :: r.value[a].0 < r.value[b].0
  {
    if s.m3 && s.encoder && !DecodeOk(s, p, n, classes) then
      Failure("label decoding failed")
    else
      DropUnlabelled(CascadeLabels(s, p, n, classes))
  }

  /** Every prediction the older script keeps is one of the six categories,
      given an encoder fitted on precipitation categories. */
  lemma OldKeepsOnlyCategories(s: Stages, p: Predictions, n: nat, classes: seq<Category>)
    requires Fits(p, n)
    requires forall k | 0 <= k < |classes| :: IsPrecip(classes[k])
    requires CascadeOld(s, p, n, classes).Success?
    ensures forall k | 0 <= k < |CascadeOld(s, p, n, classes).value| ::
      CascadeOld(s, p, n, classes).value[k].1 in AllCategories
  {
    var r := CascadeOld(s, p, n, classes).value;
    forall k | 0 <= k < |r|
      ensures r[k].1 in AllCategories
    {
      var i := r[k].0;
      assert CascadeLabels(s, p, n, classes)[i] == Some(r[k].1);
      if s.m1 && p.m1[i] {
        assert IsPrecip(classes[p.m3[i]]);
      }
    }
  }
}
