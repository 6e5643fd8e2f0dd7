/** exploratory_data_analysis (eda.py): the mean outcome of every group of three
    grouping columns, and the guards that decide which comparison each insight
    states. The writing of the insight files is not part of this model; what is
    modelled is the content they are computed from and the lookups that can
    abort the analysis. */
module Insights {
  import opened Wrappers
  import opened Frame
  import opened Order
  import opened Stats

  /** One group of `groupby(key)['Survived'].mean()`: its key and the mean
      outcome of its rows (None, NaN in pandas, when none of them has one). */
  datatype Group = Group(key: Cell, rate: Option<real>)

  function KeysOf(gs: seq<Group>): (ks: seq<Cell>)
    ensures |ks| == |gs| && forall i :: 0 <= i < |gs| ==> ks[i] == gs[i].key
  {
    seq(|gs|, i requires 0 <= i < |gs| => gs[i].key)
  }

  /** The outcomes of the rows whose key is k. */
  function Outcomes(keys: Column, ys: seq<Option<real>>, k: Cell): (r: seq<Option<real>>)
    requires keys.Len() == |ys|
    ensures |r| == Occurrences(Cells(keys), Some(k))
    ensures forall i :: 0 <= i < |ys| && keys.At(i) == Some(k) ==> ys[i] in r
    ensures forall v :: v in r ==> v in ys
    // exactly the outcomes of the rows holding k, each as often as it occurs there
    ensures forall v :: v in r ==> exists i :: 0 <= i < |ys| && keys.At(i) == Some(k) && ys[i] == v
    ensures forall v :: multiset(r)[v] == Occurrences(Rows(ys, Cells(keys)), (v, Some(k)))
  {
    OutcomesFromKey(keys, ys, k);
    Where(ys, Cells(keys), Some(k))
  }

  /** Every outcome picked for k comes from a row whose key is k. */
  lemma OutcomesFromKey(keys: Column, ys: seq<Option<real>>, k: Cell)
    requires keys.Len() == |ys|
    ensures forall v :: v in Where(ys, Cells(keys), Some(k)) ==>
      exists i :: 0 <= i < |ys| && keys.At(i) == Some(k) && ys[i] == v
  {
    forall v | v in Where(ys, Cells(keys), Some(k))
      ensures exists i :: 0 <= i < |ys| && keys.At(i) == Some(k) && ys[i] == v
    {
      WhereFromKey(ys, Cells(keys), Some(k), v);
    }
  }

  /** groupby drops the rows with a missing key, sorts the keys that occur and
      averages the present outcomes of each group. */
  function GroupRates(keys: Column, ys: seq<Option<real>>): (r: seq<Group>)
    requires keys.Len() == |ys|
    ensures StrictlySorted(KeysOf(r))
    ensures forall c :: c in KeysOf(r) <==> c in Present(keys)
    ensures forall i :: 0 <= i < |r| ==> r[i].rate == MeanOf(Outcomes(keys, ys, r[i].key))
  {
    var ks := SortedDistinct(Present(keys));
    var r := seq(|ks|, i requires 0 <= i < |ks| => Group(ks[i], MeanOf(Outcomes(keys, ys, ks[i]))));
    assert KeysOf(r) == ks;
    r
  }

  /** No group is empty: every reported key labels at least one row. */
  lemma GroupsOccur(keys: Column, ys: seq<Option<real>>, i: nat)
    requires keys.Len() == |ys| && i < |GroupRates(keys, ys)|
    ensures Occurrences(Cells(keys), Some(GroupRates(keys, ys)[i].key)) > 0
  {
    var gs := GroupRates(keys, ys);
    var k := gs[i].key;
    assert k in KeysOf(gs);
    var row :| 0 <= row < keys.Len() && keys.At(row) == Some(k);
    assert ys[row] in Outcomes(keys, ys, k);
  }

  /** With 0/1 outcomes every group rate is a probability. */
  lemma GroupRateIsProbability(keys: Column, ys: seq<Option<real>>, i: nat)
    requires keys.Len() == |ys| && i < |GroupRates(keys, ys)|
    requires forall j :: 0 <= j < |ys| && ys[j].Some? ==> ys[j].value == 0.0 || ys[j].value == 1.0
    requires GroupRates(keys, ys)[i].rate.Some?
    ensures 0.0 <= GroupRates(keys, ys)[i].rate.value <= 1.0
  {
    var xs := Outcomes(keys, ys, GroupRates(keys, ys)[i].key);
    forall v | Some(v) in xs ensures v == 0.0 || v == 1.0 {
      assert Some(v) in ys;
    }
    MeanOfOutcomes(xs);
  }

  /** How `k in rates`, `rates.get(k)` and `rates[k]` match a group key: an
      equal value, where a bool key also matches the number 0 or 1. */
  predicate Matches(c: Cell, k: Cell) {
    c == k || (c.FlagCell? && k.NumCell? && k.x == (if c.b then 1.0 else 0.0))
  }

  /** The position of the first group whose key matches k. */
  function Find(gs: seq<Group>, k: Cell): (r: Option<nat>)
    ensures r.Some? ==> r.value < |gs| && Matches(gs[r.value].key, k)
                        && forall j :: 0 <= j < r.value ==> !Matches(gs[j].key, k)
    ensures r.None? <==> forall j :: 0 <= j < |gs| ==> !Matches(gs[j].key, k)
  {
    if gs == [] then None
    else if Matches(gs[0].key, k) then Some(0)
    else match Find(gs[1..], k)
      case None =>
        assert forall j :: 1 <= j < |gs| ==> gs[j] == gs[1..][j - 1];
        None
      case Some(j) =>
        assert forall m :: 1 <= m <= j ==> gs[m] == gs[1..][m - 1];
        Some(j + 1)
  }

  /** The rate of the group with key k, or None when there is no such group. */
  function RateOf(gs: seq<Group>, k: Cell): (r: Option<Option<real>>)
    ensures r.None? <==> forall j :: 0 <= j < |gs| ==> !Matches(gs[j].key, k)
    ensures r.Some? ==> exists j :: 0 <= j < |gs| && Matches(gs[j].key, k) && gs[j].rate == r.value
  {
    match Find(gs, k)
    case None => None
    case Some(j) => Some(gs[j].rate)
  }

  /** `a > b` on floats: false when either side is NaN. */
  predicate Above(a: Option<real>, b: Option<real>) {
    a.Some? && b.Some? && a.value > b.value
  }

  /** The factor by which a rate exceeds another; None when the smaller rate is
      zero, where no finite factor exists. */
  function Ratio(a: real, b: real): (r: Option<real>)
    ensures r.Some? <==> b != 0.0
    ensures r.Some? ==> r.value * b == a
  {
    if b == 0.0 then None else Some(a / b)
  }

  /** Behind every guard of the analysis the numerator exceeds the
      denominator, so a positive denominator gives a factor above one. */
  lemma RatioExceedsOne(a: real, b: real)
    requires a > b > 0.0
    ensures Ratio(a, b).Some? && Ratio(a, b).value > 1.0
  {
  }

  /** The outcome of numpy's float division a / b when a > b, as eda.py writes
      it: a zero denominator gives +inf. */
  datatype Quotient = Finite(q: real) | PlusInfinity

  function RatioAsWritten(a: real, b: real): (r: Quotient)
    requires a > b
    ensures r.PlusInfinity? <==> b == 0.0
    ensures r.Finite? ==> r.q * b == a
  {
    if b == 0.0 then PlusInfinity else Finite(a / b)
  }

  /** The comparison of the gender insight: the ratio of the two rates when
      the female rate is above the male one. */
  function GenderRatioAsWritten(gs: seq<Group>): (r: Option<Quotient>)
    ensures r.Some? <==>
      RateOf(gs, NumCell(0.0)).Some? && RateOf(gs, NumCell(1.0)).Some?
      && Above(RateOf(gs, NumCell(0.0)).value, RateOf(gs, NumCell(1.0)).value)
  {
    var f, m := RateOf(gs, NumCell(0.0)), RateOf(gs, NumCell(1.0));
    if f.Some? && m.Some? && Above(f.value, m.value) then Some(RatioAsWritten(f.value.value, m.value.value))
    else None
  }

  /** When no man survived and some woman did, the guard lets the division
      through and the report states an infinite factor; the corrected Gender
      states no factor. */
  lemma GenderRatioUnbounded()
    ensures var gs := [Group(NumCell(0.0), Some(0.5)), Group(NumCell(1.0), Some(0.0))];
      && GenderRatioAsWritten(gs) == Some(PlusInfinity)
      && Gender(gs).Ok? && Gender(gs).value.times.None?
  {
    var gs := [Group(NumCell(0.0), Some(0.5)), Group(NumCell(1.0), Some(0.0))];
    assert Find(gs, NumCell(0.0)) == Some(0);
    assert !Matches(gs[0].key, NumCell(1.0));
    assert Find(gs[1..], NumCell(1.0)) == Some(0);
    assert Find(gs, NumCell(1.0)) == Some(1);
  }

  /** A factor stated only when both rates are present, the numerator rate is
      above the denominator rate and the denominator is not zero. */
  function Comparison(a: Option<real>, b: Option<real>): (r: Option<real>)
    ensures r.Some? <==> Above(a, b) && b.value != 0.0
    ensures r.Some? ==> r.value * b.value == a.value
  {
    if Above(a, b) then Ratio(a.value, b.value) else None
  }

  /** With rates that are not negative, a stated factor is above one. */
  lemma ComparisonExceedsOne(a: Option<real>, b: Option<real>)
    requires b.Some? ==> b.value >= 0.0
    requires Comparison(a, b).Some?
    ensures Comparison(a, b).value > 1.0
  {
    RatioExceedsOne(a.value, b.value);
  }

  /** Insight 1: the female (key 0) and male (key 1) rates, and the factor when
      the female rate is higher. */
  datatype GenderInsight = GenderInsight(female: Option<real>, male: Option<real>, times: Option<real>)

  /** A missing key leaves the placeholder 'N/A', which the percentage format
      rejects, and the analysis stops. */
  function Gender(gs: seq<Group>): (r: Result<GenderInsight, Error>)
    ensures r.Ok? <==> RateOf(gs, NumCell(0.0)).Some? && RateOf(gs, NumCell(1.0)).Some?
    ensures r.Err? ==> r.error == MissingGroup("Sex_male")
    ensures r.Ok? ==>
      && r.value.female == RateOf(gs, NumCell(0.0)).value
      && r.value.male == RateOf(gs, NumCell(1.0)).value
      && r.value.times == Comparison(r.value.female, r.value.male)
  {
    var f, m := RateOf(gs, NumCell(0.0)), RateOf(gs, NumCell(1.0));
    if f.None? || m.None? then Err(MissingGroup("Sex_male"))
    else Ok(GenderInsight(f.value, m.value, Comparison(f.value, m.value)))
  }

  /** Insight 2: the rate of every class in ascending class order, and the
      factor between first and third class. */
  datatype ClassInsight = ClassInsight(rates: seq<Group>, times: Option<real>)

  /** The guard looks classes 1 and 3 up only when there are at least three
      classes; a missing one of them stops the analysis. */
  function Class(gs: seq<Group>): (r: Result<ClassInsight, Error>)
    ensures r.Err? <==> |gs| >= 3 && (RateOf(gs, NumCell(1.0)).None? || RateOf(gs, NumCell(3.0)).None?)
    ensures r.Err? ==> r.error == MissingGroup("Pclass")
    ensures r.Ok? ==> r.value.rates == gs
    ensures r.Ok? ==> (r.value.times.Some? ==> |gs| >= 3)
    ensures r.Ok? && |gs| >= 3 ==>
      r.value.times == Comparison(RateOf(gs, NumCell(1.0)).value, RateOf(gs, NumCell(3.0)).value)
    ensures r.Ok? && |gs| < 3 ==> r.value.times.None?
  {
    if |gs| < 3 then Ok(ClassInsight(gs, None))
    else
      var first, third := RateOf(gs, NumCell(1.0)), RateOf(gs, NumCell(3.0));
      if first.None? || third.None? then Err(MissingGroup("Pclass"))
      else Ok(ClassInsight(gs, Comparison(first.value, third.value)))
  }

  /** The age comparison: not made unless both Child and Adult occur; otherwise
      children fare better (with a factor when one exists) or they do not. */
  datatype AgeComparison = NotCompared | ChildrenHigher(times: Option<real>) | ChildrenNotHigher

  /** Insight 3: the rate of every age group and the comparison of children
      with adults. */
  datatype AgeInsight = AgeInsight(rates: seq<Group>, comparison: AgeComparison)

  function Age(gs: seq<Group>): (r: AgeInsight)
    ensures r.rates == gs
    ensures var c, a := RateOf(gs, StrCell("Child")), RateOf(gs, StrCell("Adult"));
      && (r.comparison.NotCompared? <==> c.None? || a.None?)
      && (r.comparison.ChildrenHigher? <==> c.Some? && a.Some? && Above(c.value, a.value))
      && (r.comparison.ChildrenHigher? ==> r.comparison.times == Comparison(c.value, a.value))
  {
    var c, a := RateOf(gs, StrCell("Child")), RateOf(gs, StrCell("Adult"));
    if c.None? || a.None? then AgeInsight(gs, NotCompared)
    else if Above(c.value, a.value) then AgeInsight(gs, ChildrenHigher(Comparison(c.value, a.value)))
    else AgeInsight(gs, ChildrenNotHigher)
  }

  /** The comparison of the class insight as eda.py writes it: with at least
      three classes, the ratio of the first-class rate to the third-class rate
      when the former is higher. */
  function ClassRatioAsWritten(gs: seq<Group>): (r: Option<Quotient>)
    ensures r.Some? <==>
      |gs| >= 3 && RateOf(gs, NumCell(1.0)).Some? && RateOf(gs, NumCell(3.0)).Some?
      && Above(RateOf(gs, NumCell(1.0)).value, RateOf(gs, NumCell(3.0)).value)
  {
    var first, third := RateOf(gs, NumCell(1.0)), RateOf(gs, NumCell(3.0));
    if |gs| >= 3 && first.Some? && third.Some? && Above(first.value, third.value) then
      Some(RatioAsWritten(first.value.value, third.value.value))
    else None
  }

  /** When no third-class passenger survived and some first-class passenger
      did, the guard lets the division through and the factor is infinite; the
      corrected Class states no factor. */
  lemma ClassRatioUnbounded()
    ensures var gs := [Group(NumCell(1.0), Some(0.5)), Group(NumCell(2.0), Some(0.25)), Group(NumCell(3.0), Some(0.0))];
      && ClassRatioAsWritten(gs) == Some(PlusInfinity)
      && Class(gs).Ok? && Class(gs).value.times.None?
  {
    var gs := [Group(NumCell(1.0), Some(0.5)), Group(NumCell(2.0), Some(0.25)), Group(NumCell(3.0), Some(0.0))];
    assert Find(gs, NumCell(1.0)) == Some(0);
    assert !Matches(gs[0].key, NumCell(3.0)) && !Matches(gs[1].key, NumCell(3.0));
    assert Find(gs[2..], NumCell(3.0)) == Some(0);
    assert gs[1..][1..] == gs[2..];
    assert Find(gs[1..], NumCell(3.0)) == Some(1);
    assert Find(gs, NumCell(3.0)) == Some(2);
  }

  /** The comparison of the age insight as eda.py writes it: the ratio of the
      Child rate to the Adult rate when the former is higher. */
  function AgeRatioAsWritten(gs: seq<Group>): (r: Option<Quotient>)
    ensures r.Some? <==>
      RateOf(gs, StrCell("Child")).Some? && RateOf(gs, StrCell("Adult")).Some?
      && Above(RateOf(gs, StrCell("Child")).value, RateOf(gs, StrCell("Adult")).value)
  {
    var c, a := RateOf(gs, StrCell("Child")), RateOf(gs, StrCell("Adult"));
    if c.Some? && a.Some? && Above(c.value, a.value) then Some(RatioAsWritten(c.value.value, a.value.value))
    else None
  }

  /** When no adult survived and some child did, the guard lets the division
      through and the factor is infinite; the corrected Age states that
      children fared better, without a factor. */
  lemma AgeRatioUnbounded()
    ensures var gs := [Group(StrCell("Adult"), Some(0.0)), Group(StrCell("Child"), Some(0.5))];
      && AgeRatioAsWritten(gs) == Some(PlusInfinity)
      && Age(gs).comparison == ChildrenHigher(None)
  {
    var gs := [Group(StrCell("Adult"), Some(0.0)), Group(StrCell("Child"), Some(0.5))];
    assert Find(gs, StrCell("Adult")) == Some(0);
    assert !Matches(gs[0].key, StrCell("Child"));
    assert Find(gs[1..], StrCell("Child")) == Some(0);
    assert Find(gs, StrCell("Child")) == Some(1);
  }

  /** The three insights; each is present exactly when its grouping column and
      the outcome column are. */
  datatype Report = Report(gender: Option<GenderInsight>, passengerClass: Option<ClassInsight>, age: Option<AgeInsight>)

  /** Whether an insight grouped by g is computed. */
  predicate Grouped(t: Table, g: string) {
    g in t.cols && "Survived" in t.cols
  }

  /** The groups of column g, once the outcome column is known to be numeric. */
  function RatesBy(t: Table, g: string): (r: seq<Group>)
    requires Valid(t) && Grouped(t, g) && t.cols["Survived"].Nums?
  {
    GroupRates(t.cols[g], t.cols["Survived"].xs)
  }

  /** Whether the analysis stops at the outcome column: an insight is due and
      the outcome column cannot be averaged. */
  predicate OutcomeUnusable(t: Table) {
    (Grouped(t, "Sex_male") || Grouped(t, "Pclass") || Grouped(t, "AgeGroup"))
    && !t.cols["Survived"].Nums?
  }

  /** exploratory_data_analysis over the table it reads. The analysis stops at
      the first failure; the insight files written before it are outside this
      model. */
  function Analyze(t: Table): (r: Result<Report, Error>)
    requires Valid(t)
    ensures OutcomeUnusable(t) ==> r == Err(WrongType("Survived"))
    ensures !OutcomeUnusable(t) ==>
      && (r.Ok? <==>
            && (Grouped(t, "Sex_male") ==> Gender(RatesBy(t, "Sex_male")).Ok?)
            && (Grouped(t, "Pclass") ==> Class(RatesBy(t, "Pclass")).Ok?))
      // a failed gender lookup stops first; otherwise the failure is the class lookup
      && (r.Err? ==> r.error == (if Grouped(t, "Sex_male") && Gender(RatesBy(t, "Sex_male")).Err?
                                 then MissingGroup("Sex_male") else MissingGroup("Pclass")))
      && (r.Err? && Grouped(t, "Sex_male") && Gender(RatesBy(t, "Sex_male")).Err? ==> r.error == MissingGroup("Sex_male"))
    ensures r.Ok? ==>
      && (r.value.gender.Some? <==> Grouped(t, "Sex_male"))
      && (r.value.passengerClass.Some? <==> Grouped(t, "Pclass"))
      && (r.value.age.Some? <==> Grouped(t, "AgeGroup"))
    ensures r.Ok? && r.value.gender.Some? ==> r.value.gender.value == Gender(RatesBy(t, "Sex_male")).value
    ensures r.Ok? && r.value.passengerClass.Some? ==> r.value.passengerClass.value == Class(RatesBy(t, "Pclass")).value
    ensures r.Ok? && r.value.age.Some? ==> r.value.age.value == Age(RatesBy(t, "AgeGroup"))
  {
    if OutcomeUnusable(t) then Err(WrongType("Survived"))
    else
      var gender := if Grouped(t, "Sex_male") then Some(Gender(RatesBy(t, "Sex_male"))) else None;
      var classes := if Grouped(t, "Pclass") then Some(Class(RatesBy(t, "Pclass"))) else None;
      if gender.Some? && gender.value.Err? then Err(gender.value.error)
      else if classes.Some? && classes.value.Err? then Err(classes.value.error)
      else
        var age := if Grouped(t, "AgeGroup") then Some(Age(RatesBy(t, "AgeGroup"))) else None;
        Ok(Report(
          if gender.Some? then Some(gender.value.value) else None,
          if classes.Some? then Some(classes.value.value) else None,
          age))
  }

  /** Outcome columns whose present cells are all 0 or 1. */
  predicate ZeroOneOutcomes(t: Table) {
    "Survived" in t.cols && t.cols["Survived"].Nums? &&
    var ys := t.cols["Survived"].xs;
    forall j :: 0 <= j < |ys| && ys[j].Some? ==> ys[j].value == 0.0 || ys[j].value == 1.0
  }

  /** With 0/1 outcomes every factor the report states is above one. */
  lemma ReportedFactorsExceedOne(t: Table)
    requires Valid(t) && Analyze(t).Ok?
    requires "Survived" in t.cols && t.cols["Survived"].Nums?
    requires var ys := t.cols["Survived"].xs;
      forall j :: 0 <= j < |ys| && ys[j].Some? ==> ys[j].value == 0.0 || ys[j].value == 1.0
    ensures var g := Analyze(t).value.gender; g.Some? && g.value.times.Some? ==> g.value.times.value > 1.0
    ensures var c := Analyze(t).value.passengerClass; c.Some? && c.value.times.Some? ==> c.value.times.value > 1.0
    ensures var a := Analyze(t).value.age;
      a.Some? && a.value.comparison.ChildrenHigher? && a.value.comparison.times.Some? ==>
        a.value.comparison.times.value > 1.0
  {
    assert ZeroOneOutcomes(t);
    GenderFactorExceedsOne(t);
    ClassFactorExceedsOne(t);
    AgeFactorExceedsOne(t);
  }

  lemma GenderFactorExceedsOne(t: Table)
    requires Valid(t) && Analyze(t).Ok? && ZeroOneOutcomes(t)
    ensures var g := Analyze(t).value.gender; g.Some? && g.value.times.Some? ==> g.value.times.value > 1.0
  {
    var g := Analyze(t).value.gender;
    if g.Some? && g.value.times.Some? {
      var gs := RatesBy(t, "Sex_male");
      assert g.value == Gender(gs).value;
      RateIsNonNegative(t, "Sex_male", NumCell(1.0));
      ComparisonExceedsOne(RateOf(gs, NumCell(0.0)).value, RateOf(gs, NumCell(1.0)).value);
    }
  }

  lemma ClassFactorExceedsOne(t: Table)
    requires Valid(t) && Analyze(t).Ok? && ZeroOneOutcomes(t)
    ensures var c := Analyze(t).value.passengerClass; c.Some? && c.value.times.Some? ==> c.value.times.value > 1.0
  {
    var c := Analyze(t).value.passengerClass;
    if c.Some? && c.value.times.Some? {
      var gs := RatesBy(t, "Pclass");
      assert c.value == Class(gs).value;
      RateIsNonNegative(t, "Pclass", NumCell(3.0));
      ComparisonExceedsOne(RateOf(gs, NumCell(1.0)).value, RateOf(gs, NumCell(3.0)).value);
    }
  }

  lemma AgeFactorExceedsOne(t: Table)
    requires Valid(t) && Analyze(t).Ok? && ZeroOneOutcomes(t)
    ensures var a := Analyze(t).value.age;
      a.Some? && a.value.comparison.ChildrenHigher? && a.value.comparison.times.Some? ==>
        a.value.comparison.times.value > 1.0
  {
    var a := Analyze(t).value.age;
    if a.Some? && a.value.comparison.ChildrenHigher? && a.value.comparison.times.Some? {
      var gs := RatesBy(t, "AgeGroup");
      assert a.value == Age(gs);
      RateIsNonNegative(t, "AgeGroup", StrCell("Adult"));
      ComparisonExceedsOne(RateOf(gs, StrCell("Child")).value, RateOf(gs, StrCell("Adult")).value);
    }
  }

  /** A looked-up rate of 0/1 outcomes is not negative. */
  lemma RateIsNonNegative(t: Table, g: string, k: Cell)
    requires Valid(t) && g in t.cols && ZeroOneOutcomes(t)
    requires RateOf(RatesBy(t, g), k).Some? && RateOf(RatesBy(t, g), k).value.Some?
    ensures RateOf(RatesBy(t, g), k).value.value >= 0.0
  {
    var gs := RatesBy(t, g);
    var j :| 0 <= j < |gs| && Matches(gs[j].key, k) && gs[j].rate == RateOf(gs, k).value;
    GroupRateIsProbability(t.cols[g], t.cols["Survived"].xs, j);
  }
}
