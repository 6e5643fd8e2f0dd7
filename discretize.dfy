/** discretize_data (dpre.py): AgeGroup, FareCategory and FamilySizeCategory
    appended beside the columns they are computed from. */
module Discretize {
  import opened Wrappers
  import opened Frame
  import opened Order
  import opened Stats

  /** Bin edges that strictly increase. */
  predicate Increasing(e: seq<real>) {
    forall i, j :: 0 <= i < j < |e| ==> e[i] < e[j]
  }

  /** x lies in band k of the edges: the right-closed interval (e[k], e[k+1]],
      widened so that e[0] falls in the first band when the lowest edge counts. */
  predicate InBand(e: seq<real>, k: nat, x: real, lowest: bool)
    requires k + 1 < |e|
  {
    (e[k] < x <= e[k + 1]) || (lowest && k == 0 && x == e[0])
  }

  /** The first index from i on whose edge is at least x (numpy searchsorted,
      side left), or |e| when there is none. */
  function FirstAtLeast(e: seq<real>, x: real, i: nat): (r: nat)
    requires i <= |e|
    ensures i <= r <= |e|
    ensures forall k :: i <= k < r ==> e[k] < x
    ensures r < |e| ==> x <= e[r]
    decreases |e| - i
  {
    if i == |e| || x <= e[i] then i else FirstAtLeast(e, x, i + 1)
  }

  /** The band pandas cut assigns to x, or None outside the edges. */
  function Bin(e: seq<real>, x: real, lowest: bool): (r: Option<nat>)
    requires |e| >= 2 && Increasing(e)
    ensures r.Some? ==> r.value + 1 < |e| && InBand(e, r.value, x, lowest)
    ensures r.None? <==> x < e[0] || x > e[|e| - 1] || (x == e[0] && !lowest)
  {
    var i := FirstAtLeast(e, x, 0);
    if i == 0 then (if lowest && x == e[0] then Some(0) else None)
    else if i == |e| then None
    else Some(i - 1)
  }

  /** Bands do not overlap: x is in band k exactly when cut assigns band k. */
  lemma BinUnique(e: seq<real>, x: real, k: nat, lowest: bool)
    requires |e| >= 2 && Increasing(e) && k + 1 < |e|
    ensures Bin(e, x, lowest) == Some(k) <==> InBand(e, k, x, lowest)
  {
    if InBand(e, k, x, lowest) {
      var b := Bin(e, x, lowest);
      BandsDisjoint(e, x, b.value, k, lowest);
    }
  }

  /** Two bands that both hold x are the same band. */
  lemma BandsDisjoint(e: seq<real>, x: real, m: nat, k: nat, lowest: bool)
    requires Increasing(e) && m + 1 < |e| && k + 1 < |e|
    requires InBand(e, m, x, lowest) && InBand(e, k, x, lowest)
    ensures m == k
  {
    if m != 0 {
      IncreasingIndex(e, m, k + 1);
    }
    if k != 0 {
      IncreasingIndex(e, k, m + 1);
    }
  }

  /** Of two edges, the smaller one comes first. */
  lemma IncreasingIndex(e: seq<real>, i: nat, j: nat)
    requires Increasing(e) && i < |e| && j < |e| && e[i] < e[j]
    ensures i < j
  {
  }

  /** One labelled band per cell; missing values and values outside the edges
      give a missing label. */
  function CutColumn(col: Column, e: seq<real>, labels: seq<string>, lowest: bool): (r: Column)
    requires col.Nums? && |e| >= 2 && Increasing(e) && |labels| == |e| - 1
    ensures r.Strs? && r.Len() == col.Len()
    ensures forall i :: 0 <= i < col.Len() ==>
      (r.ss[i].None? <==> col.xs[i].None? || Bin(e, col.xs[i].value, lowest).None?)
    ensures forall i, k :: 0 <= i < col.Len() && 0 <= k < |labels| && col.xs[i].Some? && InBand(e, k, col.xs[i].value, lowest) ==>
      r.ss[i] == Some(labels[k])
  {
    var r := Strs(seq(col.Len(), i requires 0 <= i < col.Len() =>
      if col.xs[i].Some? && Bin(e, col.xs[i].value, lowest).Some? then Some(labels[Bin(e, col.xs[i].value, lowest).value])
      else None));
    forall i, k | 0 <= i < col.Len() && 0 <= k < |labels| && col.xs[i].Some? && InBand(e, k, col.xs[i].value, lowest)
      ensures r.ss[i] == Some(labels[k])
    {
      BinUnique(e, col.xs[i].value, k, lowest);
    }
    r
  }

  const AgeEdges: seq<real> := [0.0, 12.0, 18.0, 35.0, 60.0, 100.0]
  const AgeLabels: seq<string> := ["Child", "Teenager", "Young Adult", "Adult", "Senior"]
  const FamilyEdges: seq<real> := [0.0, 1.0, 3.0, 10.0]
  const FamilyLabels: seq<string> := ["Alone", "Small", "Large"]
  const FareLabels: seq<string> := ["Low", "Medium-Low", "Medium-High", "High"]

  lemma EdgesIncrease()
    ensures Increasing(AgeEdges) && Increasing(FamilyEdges)
  {
  }

  /** pandas cut with the Age bins: an age in (0, 100] gets its band, 0 and
      everything outside the bins get NaN. */
  function AgeGroups(age: Column): (r: Column)
    requires age.Nums?
    ensures r.Strs? && r.Len() == age.Len()
  {
    EdgesIncrease();
    CutColumn(age, AgeEdges, AgeLabels, false)
  }

  /** pandas cut with the FamilySize bins. */
  function FamilyGroups(size: Column): (r: Column)
    requires size.Nums?
    ensures r.Strs? && r.Len() == size.Len()
  {
    EdgesIncrease();
    CutColumn(size, FamilyEdges, FamilyLabels, false)
  }

  /** The Age bands written out: (0, 12] Child, (12, 18] Teenager, (18, 35] Young
      Adult, (35, 60] Adult, (60, 100] Senior, and NaN for a missing age or one
      outside (0, 100]. */
  lemma AgeGroupOf(age: Column, i: nat)
    requires age.Nums? && i < age.Len()
    ensures var g, a := AgeGroups(age).ss[i], age.xs[i];
      && (g.None? <==> a.None? || a.value <= 0.0 || a.value > 100.0)
      && (a.Some? && 0.0 < a.value <= 12.0 ==> g == Some("Child"))
      && (a.Some? && 12.0 < a.value <= 18.0 ==> g == Some("Teenager"))
      && (a.Some? && 18.0 < a.value <= 35.0 ==> g == Some("Young Adult"))
      && (a.Some? && 35.0 < a.value <= 60.0 ==> g == Some("Adult"))
      && (a.Some? && 60.0 < a.value <= 100.0 ==> g == Some("Senior"))
  {
    EdgesIncrease();
    var e := AgeEdges;
    assert e[0] == 0.0 && e[1] == 12.0 && e[2] == 18.0 && e[3] == 35.0 && e[4] == 60.0 && e[5] == 100.0;
    assert AgeLabels[0] == "Child" && AgeLabels[1] == "Teenager" && AgeLabels[2] == "Young Adult";
    assert AgeLabels[3] == "Adult" && AgeLabels[4] == "Senior";
  }

  /** The FamilySize bands written out: (0, 1] Alone, (1, 3] Small, (3, 10]
      Large, and NaN for a missing size or one outside (0, 10]. */
  lemma FamilyGroupOf(size: Column, i: nat)
    requires size.Nums? && i < size.Len()
    ensures var g, s := FamilyGroups(size).ss[i], size.xs[i];
      && (g.None? <==> s.None? || s.value <= 0.0 || s.value > 10.0)
      && (s.Some? && 0.0 < s.value <= 1.0 ==> g == Some("Alone"))
      && (s.Some? && 1.0 < s.value <= 3.0 ==> g == Some("Small"))
      && (s.Some? && 3.0 < s.value <= 10.0 ==> g == Some("Large"))
  {
    EdgesIncrease();
    var e := FamilyEdges;
    assert e[0] == 0.0 && e[1] == 1.0 && e[2] == 3.0 && e[3] == 10.0;
    assert FamilyLabels[0] == "Alone" && FamilyLabels[1] == "Small" && FamilyLabels[2] == "Large";
  }

  /** The quartile edges of the present fares have no repeated value. */
  predicate DistinctEdges(q: seq<real>) {
    |q| == 5 && q[0] < q[1] && q[1] < q[2] && q[2] < q[3] && q[3] < q[4]
  }

  /** pandas qcut with four quantiles: the edges are the quartiles of the present
      fares, the lowest edge belongs to the first band, and repeated edges (also those of a
      column with no fare at all) are an error. */
  function FareGroups(fare: Column): (r: Result<Column, Error>)
    requires fare.Nums?
    ensures r.Ok? <==> Somes(fare.xs) != [] && DistinctEdges(Quartiles(Somes(fare.xs)))
    ensures r.Err? ==> r.error == DuplicateEdges("Fare")
    ensures r.Ok? ==> r.value.Strs? && r.value.Len() == fare.Len()
    // a missing fare stays missing; a fare in quartile band k gets the label of band k
    ensures r.Ok? ==> forall i :: 0 <= i < fare.Len() && fare.xs[i].None? ==> r.value.ss[i].None?
    ensures r.Ok? ==> forall i, k ::
      (0 <= i < fare.Len() && 0 <= k < 4 && fare.xs[i].Some? && InBand(Quartiles(Somes(fare.xs)), k, fare.xs[i].value, true))
      ==> r.value.ss[i] == Some(FareLabels[k])
  {
    var present := Somes(fare.xs);
    if present == [] then Err(DuplicateEdges("Fare"))
    else
      var q := Quartiles(present);
      if DistinctEdges(q) then
        DistinctEdgesIncrease(q);
        Ok(CutColumn(fare, q, FareLabels, true))
      else Err(DuplicateEdges("Fare"))
  }

  lemma DistinctEdgesIncrease(q: seq<real>)
    requires DistinctEdges(q)
    ensures |q| == 5 && Increasing(q) && |FareLabels| == |q| - 1
  {
  }

  /** When the lowest edge belongs to the first band every value between the outer edges gets a
      label: the lowest edge the first one and the highest edge the last one. */
  lemma CutSpans(col: Column, e: seq<real>, labels: seq<string>, i: nat)
    requires col.Nums? && |e| >= 2 && Increasing(e) && |labels| == |e| - 1
    requires i < col.Len() && col.xs[i].Some? && e[0] <= col.xs[i].value <= e[|e| - 1]
    ensures CutColumn(col, e, labels, true).ss[i].Some?
    ensures col.xs[i].value == e[0] ==> CutColumn(col, e, labels, true).ss[i] == Some(labels[0])
    ensures col.xs[i].value == e[|e| - 1] ==> CutColumn(col, e, labels, true).ss[i] == Some(labels[|labels| - 1])
  {
    var v := col.xs[i].value;
    if v == e[0] { assert InBand(e, 0, v, true); }
    if v == e[|e| - 1] { assert InBand(e, |e| - 2, v, true); }
  }

  /** Every present fare gets one of the four labels, as the quartile edges span
      the smallest to the largest fare and the lowest edge belongs to the first band; the
      smallest fare is Low and the largest is High. */
  lemma EveryFareBanded(fare: Column, i: nat)
    requires fare.Nums? && FareGroups(fare).Ok? && i < fare.Len() && fare.xs[i].Some?
    ensures FareGroups(fare).value.ss[i].Some? && FareGroups(fare).value.ss[i].value in FareLabels
    ensures fare.xs[i].value == Min(Somes(fare.xs)) ==> FareGroups(fare).value.ss[i] == Some("Low")
    ensures fare.xs[i].value == Max(Somes(fare.xs)) ==> FareGroups(fare).value.ss[i] == Some("High")
  {
    var present := Somes(fare.xs);
    var q := Quartiles(present);
    var v := fare.xs[i].value;
    assert v in present by { assert Some(v) in fare.xs; }
    assert Min(present) <= v <= Max(present);
    DistinctEdgesIncrease(q);
    CutSpans(fare, q, FareLabels, i);
  }

  /** The Fare bands written out: up to the first quartile Low, then Medium-Low
      up to the median, Medium-High up to the third quartile and High above it. */
  lemma FareBandOf(fare: Column, i: nat)
    requires fare.Nums? && FareGroups(fare).Ok? && i < fare.Len() && fare.xs[i].Some?
    ensures var present := Somes(fare.xs);
      var q, v, g := Quartiles(present), fare.xs[i].value, FareGroups(fare).value.ss[i];
      && q[2] == Median(present)
      && (v <= q[1] ==> g == Some("Low"))
      && (q[1] < v <= q[2] ==> g == Some("Medium-Low"))
      && (q[2] < v <= q[3] ==> g == Some("Medium-High"))
      && (q[3] < v ==> g == Some("High"))
  {
    var present := Somes(fare.xs);
    var q, v := Quartiles(present), fare.xs[i].value;
    MiddleQuartileIsMedian(present);
    assert v in present by { assert Some(v) in fare.xs; }
    var k: nat := if v <= q[1] then 0 else if v <= q[2] then 1 else if v <= q[3] then 2 else 3;
    assert InBand(q, k, v, true);
    FareInBand(fare, i, k);
    FareLabelNames();
  }

  lemma FareLabelNames()
    ensures FareLabels[0] == "Low" && FareLabels[1] == "Medium-Low"
    ensures FareLabels[2] == "Medium-High" && FareLabels[3] == "High"
  {
  }

  /** A present fare in quartile band k carries the label of band k. */
  lemma FareInBand(fare: Column, i: nat, k: nat)
    requires fare.Nums? && FareGroups(fare).Ok? && i < fare.Len() && fare.xs[i].Some? && k < 4
    requires InBand(Quartiles(Somes(fare.xs)), k, fare.xs[i].value, true)
    ensures FareGroups(fare).value.ss[i] == Some(FareLabels[k])
  {
  }

  /** A fare equal to an inner quartile goes to the lower of the two bands it
      bounds. */
  lemma FareAtEdgeGoesLow(fare: Column, i: nat, k: nat)
    requires fare.Nums? && FareGroups(fare).Ok? && i < fare.Len() && fare.xs[i].Some?
    requires 1 <= k <= 3 && fare.xs[i].value == Quartiles(Somes(fare.xs))[k]
    ensures FareGroups(fare).value.ss[i] == Some(FareLabels[k - 1])
  {
    var q := Quartiles(Somes(fare.xs));
    assert Increasing(q);
    assert InBand(q, k - 1, fare.xs[i].value, true);
  }

  /** Ages by their band: a few concrete cases, with the open lower end at 0. */
  lemma AgeBandExamples()
    ensures Bin(AgeEdges, 10.0, false) == Some(0)
    ensures Bin(AgeEdges, 12.0, false) == Some(0)
    ensures Bin(AgeEdges, 70.0, false) == Some(4)
    ensures Bin(AgeEdges, 0.0, false).None?
    ensures Bin(FamilyEdges, 1.0, false) == Some(0)
  {
    EdgesIncrease();
    BinUnique(AgeEdges, 10.0, 0, false);
    BinUnique(AgeEdges, 12.0, 0, false);
    BinUnique(AgeEdges, 70.0, 4, false);
    BinUnique(FamilyEdges, 1.0, 0, false);
  }

  /** The three new column names. */
  lemma NewNames()
    ensures "AgeGroup" != "FareCategory" && "AgeGroup" != "FamilySizeCategory" && "FareCategory" != "FamilySizeCategory"
    ensures "Fare" != "AgeGroup" && "FamilySize" != "AgeGroup" && "FamilySize" != "FareCategory"
  {
  }

  /** Three columns stored one after another under three different names. */
  function SetThree(t: Table, a: string, ca: Column, b: string, cb: Column, c: string, cc: Column): (r: Table)
    requires Valid(t) && ca.Len() == t.height && cb.Len() == t.height && cc.Len() == t.height
    requires a != b && a != c && b != c
    ensures Valid(r) && r.height == t.height
    ensures forall n :: n in r.cols <==> n in t.cols || n == a || n == b || n == c
    ensures a in r.cols && r.cols[a] == ca && b in r.cols && r.cols[b] == cb && c in r.cols && r.cols[c] == cc
    ensures forall n :: n in t.cols && n != a && n != b && n != c ==> n in r.cols && r.cols[n] == t.cols[n]
  {
    SetColumn(SetColumn(SetColumn(t, a, ca), b, cb), c, cc)
  }

  /** The three band columns stored, in the order discretize_data assigns them. */
  function AddBands(t: Table, ages: Column, fares: Column, sizes: Column): (r: Table)
    requires Valid(t) && ages.Len() == t.height && fares.Len() == t.height && sizes.Len() == t.height
    ensures Valid(r) && r.height == t.height
    ensures forall n :: n in r.cols <==> n in t.cols || n == "AgeGroup" || n == "FareCategory" || n == "FamilySizeCategory"
    ensures "AgeGroup" in r.cols && r.cols["AgeGroup"] == ages
    ensures "FareCategory" in r.cols && r.cols["FareCategory"] == fares
    ensures "FamilySizeCategory" in r.cols && r.cols["FamilySizeCategory"] == sizes
    ensures forall n :: n in t.cols && n != "AgeGroup" && n != "FareCategory" && n != "FamilySizeCategory" ==>
      n in r.cols && r.cols[n] == t.cols[n]
  {
    NewNames();
    SetThree(t, "AgeGroup", ages, "FareCategory", fares, "FamilySizeCategory", sizes)
  }

  /** discretize_data. A KeyError or TypeError names Age, Fare or FamilySize, in
      the order the statements read them; repeated quartile edges stop it too.
      Every column of the caller is kept. The band columns written before a
      column is read have other names, so each column is read as the caller
      passed it. */
  function DiscretizeData(t: Table): (r: Result<Table, Error>)
    requires Valid(t)
    ensures "Age" !in t.cols ==> r == Err(MissingColumn("Age"))
    ensures "Age" in t.cols && !t.cols["Age"].Nums? ==> r == Err(WrongType("Age"))
    ensures "Age" in t.cols && t.cols["Age"].Nums? ==>
      && ("Fare" !in t.cols ==> r == Err(MissingColumn("Fare")))
      && ("Fare" in t.cols && !t.cols["Fare"].Nums? ==> r == Err(WrongType("Fare")))
      && ("Fare" in t.cols && t.cols["Fare"].Nums? && FareGroups(t.cols["Fare"]).Err? ==> r == Err(DuplicateEdges("Fare")))
    ensures r.Ok? <==>
      && "Age" in t.cols && t.cols["Age"].Nums?
      && "Fare" in t.cols && t.cols["Fare"].Nums? && FareGroups(t.cols["Fare"]).Ok?
      && "FamilySize" in t.cols && t.cols["FamilySize"].Nums?
    ensures r.Err? && "Age" in t.cols && t.cols["Age"].Nums? && "Fare" in t.cols && t.cols["Fare"].Nums?
                   && FareGroups(t.cols["Fare"]).Ok? ==>
      r.error == (if "FamilySize" in t.cols then WrongType("FamilySize") else MissingColumn("FamilySize"))
    ensures r.Ok? ==> "Age" in t.cols && "Fare" in t.cols && "FamilySize" in t.cols
    ensures r.Ok? ==>
      var c := r.value;
      && Valid(c) && c.height == t.height
      && (forall n :: n in c.cols <==> n in t.cols || n == "AgeGroup" || n == "FareCategory" || n == "FamilySizeCategory")
      && "AgeGroup" in c.cols && c.cols["AgeGroup"] == AgeGroups(t.cols["Age"])
      && "FareCategory" in c.cols && c.cols["FareCategory"] == FareGroups(t.cols["Fare"]).value
      && "FamilySizeCategory" in c.cols && c.cols["FamilySizeCategory"] == FamilyGroups(t.cols["FamilySize"])
      && (forall n :: n in t.cols && n != "AgeGroup" && n != "FareCategory" && n != "FamilySizeCategory" ==>
            n in c.cols && c.cols[n] == t.cols[n])
  {
    if "Age" !in t.cols then Err(MissingColumn("Age"))
    else if !t.cols["Age"].Nums? then Err(WrongType("Age"))
    else if "Fare" !in t.cols then Err(MissingColumn("Fare"))
    else if !t.cols["Fare"].Nums? then Err(WrongType("Fare"))
    else if FareGroups(t.cols["Fare"]).Err? then Err(FareGroups(t.cols["Fare"]).error)
    else if "FamilySize" !in t.cols then Err(MissingColumn("FamilySize"))
    else if !t.cols["FamilySize"].Nums? then Err(WrongType("FamilySize"))
    else Ok(AddBands(t, AgeGroups(t.cols["Age"]), FareGroups(t.cols["Fare"]).value, FamilyGroups(t.cols["FamilySize"])))
  }
}
