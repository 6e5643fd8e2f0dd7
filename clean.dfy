/** clean_data (dpre.py): fill missing Age with the median, fill missing Embarked
    with the mode, drop Cabin. */
module Clean {
  import opened Wrappers
  import opened Frame
  import opened Order
  import opened Stats

  /** The Age column with its missing cells set to the median of its present
      cells; with no present cell the median is NaN and nothing changes. */
  function ImputeMedian(age: Column): (r: Column)
    requires age.Nums?
    ensures r.Nums? && r.Len() == age.Len()
    ensures Somes(age.xs) == [] ==> r == age
    ensures Somes(age.xs) != [] ==> forall i :: 0 <= i < age.Len() ==>
      r.At(i) == if age.At(i).Some? then age.At(i) else Some(NumCell(Median(Somes(age.xs))))
  {
    var present := Somes(age.xs);
    if present == [] then age else Fill(age, NumCell(Median(present)))
  }

  /** The Embarked column with its missing cells set to its mode. */
  function ImputeMode(e: Column): (r: Column)
    requires Present(e) != []
    ensures r.Len() == e.Len() && (forall d :: r.Admits(d) == e.Admits(d))
    ensures forall i :: 0 <= i < e.Len() ==>
      r.At(i) == if e.At(i).Some? then e.At(i) else Some(Mode(Present(e)))
  {
    Fill(e, Mode(Present(e)))
  }

  function CleanData(t: Table): (r: Result<Table, Error>)
    requires Valid(t)
    // the KeyError / TypeError paths, in the order the statements raise them
    ensures "Age" !in t.cols ==> r == Err(MissingColumn("Age"))
    ensures "Age" in t.cols && !t.cols["Age"].Nums? ==> r == Err(WrongType("Age"))
    ensures "Age" in t.cols && t.cols["Age"].Nums? && "Embarked" !in t.cols ==>
      r == Err(MissingColumn("Embarked"))
    ensures ("Age" in t.cols && t.cols["Age"].Nums? && "Embarked" in t.cols
             && Present(t.cols["Embarked"]) == []) ==> r == Err(EmptyMode("Embarked"))
    ensures ("Age" in t.cols && t.cols["Age"].Nums? && "Embarked" in t.cols
             && Present(t.cols["Embarked"]) != [] && "Cabin" !in t.cols) ==> r == Err(MissingColumn("Cabin"))
    ensures r.Ok? <==> ("Age" in t.cols && t.cols["Age"].Nums? && "Embarked" in t.cols
                        && Present(t.cols["Embarked"]) != [] && "Cabin" in t.cols)
    // the cleaned table: no Cabin, the same rows, the other columns untouched
    ensures r.Ok? ==>
      var c := r.value;
      && Valid(c) && c.height == t.height
      && c.names == Exclude(t.names, ["Cabin"])
      && (forall n :: n in c.cols <==> n in t.cols && n != "Cabin")
      && forall n :: n in t.cols && n !in {"Age", "Embarked", "Cabin"} ==> n in c.cols && c.cols[n] == t.cols[n]
    // Age: present cells kept, missing cells get the median of the present ones
    ensures r.Ok? ==> "Age" in t.cols && "Age" in r.value.cols
    ensures r.Ok? ==>
      var a, a' := t.cols["Age"], r.value.cols["Age"];
      var present := Somes(a.xs);
      && a'.Nums? && a'.Len() == a.Len()
      && (present == [] ==> a' == a)
      && (present != [] ==> forall i :: 0 <= i < a.Len() ==>
            a'.At(i) == if a.At(i).Some? then a.At(i) else Some(NumCell(Median(present))))
    // Embarked: present cells kept, missing cells get a most frequent value
    ensures r.Ok? ==> "Embarked" in t.cols && "Embarked" in r.value.cols
    ensures r.Ok? ==>
      var e, e' := t.cols["Embarked"], r.value.cols["Embarked"];
      && e'.Len() == e.Len() && (forall d :: e'.Admits(d) == e.Admits(d))
      && forall i :: 0 <= i < e.Len() ==>
           e'.At(i) == if e.At(i).Some? then e.At(i) else Some(Mode(Present(e)))
  {
    if "Age" !in t.cols then Err(MissingColumn("Age"))
    else if !t.cols["Age"].Nums? then Err(WrongType("Age"))
    else if "Embarked" !in t.cols then Err(MissingColumn("Embarked"))
    else
      var e := t.cols["Embarked"];
      if Present(e) == [] then Err(EmptyMode("Embarked"))
      else
        Assemble(t, ImputeMedian(t.cols["Age"]), ImputeMode(e))
  }

  /** The last three statements of clean_data once both filled columns are known:
      store them over Age and Embarked, then drop Cabin. */
  function Assemble(t: Table, a: Column, e: Column): (r: Result<Table, Error>)
    requires Valid(t) && "Age" in t.cols && "Embarked" in t.cols
    requires a.Len() == t.height && e.Len() == t.height
    ensures r.Ok? <==> "Cabin" in t.cols
    ensures r.Err? ==> r == Err(MissingColumn("Cabin"))
    ensures r.Ok? ==>
      var c := r.value;
      && Valid(c) && c.height == t.height
      && c.names == Exclude(t.names, ["Cabin"])
      && (forall n :: n in c.cols <==> n in t.cols && n != "Cabin")
      && "Age" in c.cols && c.cols["Age"] == a
      && "Embarked" in c.cols && c.cols["Embarked"] == e
      && forall n :: n in t.cols && n !in {"Age", "Embarked", "Cabin"} ==> n in c.cols && c.cols[n] == t.cols[n]
  {
    var t1 := SetColumn(t, "Age", a);
    var t2 := SetColumn(t1, "Embarked", e);
    Drop(t2, "Cabin")
  }

  /** After cleaning no Age is missing once at least one Age was present, and no
      Embarked is missing at all. */
  lemma CleanedHasNoMissing(t: Table)
    requires Valid(t) && CleanData(t).Ok?
    requires Somes(t.cols["Age"].xs) != []
    ensures var c := CleanData(t).value;
      && (forall i :: 0 <= i < c.height ==> c.cols["Age"].At(i).Some?)
      && (forall i :: 0 <= i < c.height ==> c.cols["Embarked"].At(i).Some?)
  {
    var c := CleanData(t).value;
    var a, a' := t.cols["Age"], c.cols["Age"];
    var e, e' := t.cols["Embarked"], c.cols["Embarked"];
    assert a.Len() == c.height && e.Len() == c.height;
    forall i | 0 <= i < c.height ensures a'.At(i).Some? && e'.At(i).Some? {
      assert a'.At(i) == if a.At(i).Some? then a.At(i) else Some(NumCell(Median(Somes(a.xs))));
      assert e'.At(i) == if e.At(i).Some? then e.At(i) else Some(Mode(Present(e)));
    }
  }
}
