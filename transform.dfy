/** transform_data (dpre.py): adds FamilySize and IsAlone, adds the remapped Title,
    one-hot encodes Sex, Embarked and Title, and drops Name, Ticket and PassengerId. */
module Transform {
  import opened Wrappers
  import opened Frame
  import opened Titles
  import opened Encode

  /** A count cell read as a number; a bool cell added to a number counts as
      0 / 1 (numpy promotes bool + int to int). */
  function NumAt(c: Column, i: nat): Option<real>
    requires i < c.Len() && !c.Strs?
  {
    match c
    case Nums(xs) => xs[i]
    case Flags(bs) => Some(if bs[i] then 1.0 else 0.0)
  }

  /** SibSp + Parch + 1 for one row; NaN propagates. */
  function FamilySizeOf(sib: Option<real>, parch: Option<real>): (r: Option<real>)
    ensures r.Some? <==> sib.Some? && parch.Some?
    ensures r.Some? && sib.value >= 0.0 && parch.value >= 0.0 ==> r.value >= 1.0
    ensures r.Some? ==> r.value - 1.0 == sib.value + parch.value
  {
    if sib.Some? && parch.Some? then Some(sib.value + parch.value + 1.0) else None
  }

  /** SibSp + Parch + 1 for one row when both count columns are bool: numpy adds
      two bools as a logical or, and only then adds the 1. */
  function FlagFamilySizeOf(sib: bool, parch: bool): (r: real)
    ensures r == 1.0 || r == 2.0
    ensures r == 2.0 <==> sib || parch
  {
    (if sib || parch then 1.0 else 0.0) + 1.0
  }

  /** Two true bool counts give 2, where the same counts as numbers give 3. */
  lemma FlagSizeIsNotSum()
    ensures FlagFamilySizeOf(true, true) == 2.0
    ensures FamilySizeOf(Some(1.0), Some(1.0)) == Some(3.0)
  {
  }

  /** `(FamilySize == 1).astype(int)` for one row: NaN compares unequal to 1. */
  function IsAloneOf(size: Option<real>): (r: real)
    ensures r == 1.0 <==> size == Some(1.0)
    ensures r == 0.0 || r == 1.0
  {
    if size == Some(1.0) then 1.0 else 0.0
  }

  /** With counts that are not negative, a passenger is alone exactly when both
      counts are zero. */
  lemma AloneIffNoRelatives(sib: real, parch: real)
    requires sib >= 0.0 && parch >= 0.0
    ensures IsAloneOf(FamilySizeOf(Some(sib), Some(parch))) == 1.0 <==> sib == 0.0 && parch == 0.0
  {
  }

  /** The same for bool counts: alone exactly when both are false. */
  lemma FlagAloneIffNoRelatives(sib: bool, parch: bool)
    ensures IsAloneOf(Some(FlagFamilySizeOf(sib, parch))) == 1.0 <==> !sib && !parch
  {
  }

  /** The FamilySize cell of row i. */
  function FamilySizeAt(sib: Column, parch: Column, i: nat): Option<real>
    requires !sib.Strs? && !parch.Strs? && i < sib.Len() && i < parch.Len()
  {
    if sib.Flags? && parch.Flags? then Some(FlagFamilySizeOf(sib.bs[i], parch.bs[i]))
    else FamilySizeOf(NumAt(sib, i), NumAt(parch, i))
  }

  function FamilySizeColumn(sib: Column, parch: Column): (r: Column)
    requires !sib.Strs? && !parch.Strs? && sib.Len() == parch.Len()
    ensures r.Nums? && r.Len() == sib.Len()
    ensures sib.Flags? && parch.Flags? ==>
      forall i :: 0 <= i < sib.Len() ==> r.xs[i] == Some(FlagFamilySizeOf(sib.bs[i], parch.bs[i]))
    ensures !(sib.Flags? && parch.Flags?) ==>
      forall i :: 0 <= i < sib.Len() ==> r.xs[i] == FamilySizeOf(NumAt(sib, i), NumAt(parch, i))
  {
    Nums(seq(sib.Len(), i requires 0 <= i < sib.Len() => FamilySizeAt(sib, parch, i)))
  }

  function IsAloneColumn(size: Column): (r: Column)
    requires size.Nums?
    ensures r.Nums? && r.Len() == size.Len()
    ensures forall i :: 0 <= i < size.Len() ==> r.xs[i] == Some(IsAloneOf(size.xs[i]))
  {
    Nums(seq(size.Len(), i requires 0 <= i < size.Len() => Some(IsAloneOf(size.xs[i]))))
  }

  /** Every IsAlone cell is present and is 1 exactly where the family size is 1. */
  lemma IsAloneMatchesFamilySize(size: Column, i: nat)
    requires size.Nums? && i < size.Len()
    ensures IsAloneColumn(size).xs[i].Some?
    ensures IsAloneColumn(size).xs[i] == Some(1.0) <==> size.xs[i] == Some(1.0)
    ensures IsAloneColumn(size).xs[i] == Some(1.0) || IsAloneColumn(size).xs[i] == Some(0.0)
  {
  }

  lemma FamilyNames()
    ensures "FamilySize" != "IsAlone"
  {
  }

  /** The first two statements of transform_data. A KeyError names the first count
      column that is absent, a TypeError one that holds strings. */
  function AddFamily(t: Table): (r: Result<Table, Error>)
    requires Valid(t)
    ensures "SibSp" !in t.cols ==> r == Err(MissingColumn("SibSp"))
    ensures "SibSp" in t.cols && "Parch" !in t.cols ==> r == Err(MissingColumn("Parch"))
    ensures r.Ok? <==> "SibSp" in t.cols && "Parch" in t.cols && !t.cols["SibSp"].Strs? && !t.cols["Parch"].Strs?
    ensures r.Err? && "SibSp" in t.cols && "Parch" in t.cols ==>
      r.error.WrongType? && r.error.name in {"SibSp", "Parch"} && t.cols[r.error.name].Strs?
    ensures r.Ok? ==>
      var c, size := r.value, FamilySizeColumn(t.cols["SibSp"], t.cols["Parch"]);
      && Valid(c) && c.height == t.height
      && (forall n :: n in c.cols <==> n in t.cols || n == "FamilySize" || n == "IsAlone")
      && "FamilySize" in c.cols && c.cols["FamilySize"] == size
      && "IsAlone" in c.cols && c.cols["IsAlone"] == IsAloneColumn(size)
      && (forall n :: n in t.cols && n != "FamilySize" && n != "IsAlone" ==> n in c.cols && c.cols[n] == t.cols[n])
  {
    if "SibSp" !in t.cols then Err(MissingColumn("SibSp"))
    else if "Parch" !in t.cols then Err(MissingColumn("Parch"))
    else if t.cols["SibSp"].Strs? then Err(WrongType("SibSp"))
    else if t.cols["Parch"].Strs? then Err(WrongType("Parch"))
    else
      // IsAlone is computed from the FamilySize column just stored.
      var size := FamilySizeColumn(t.cols["SibSp"], t.cols["Parch"]);
      FamilyNames();
      Ok(SetTwo(t, "FamilySize", size, "IsAlone", IsAloneColumn(size)))
  }

  /** `Name.str.extract(...)`: the captured title of each name, NaN where the
      name is missing or the pattern does not occur. */
  function ExtractColumn(name: Column): (r: Column)
    requires name.Strs?
    ensures r.Strs? && r.Len() == name.Len()
    ensures forall i :: 0 <= i < name.Len() ==>
      r.ss[i] == if name.ss[i].Some? then ExtractTitle(name.ss[i].value) else None
  {
    Strs(seq(name.Len(), i requires 0 <= i < name.Len() =>
      if name.ss[i].Some? then ExtractTitle(name.ss[i].value) else None))
  }

  /** `Title.map(lambda x: title_mapping.get(x, 'Rare'))`: every cell becomes one of
      the five groups, and none is missing. */
  function RemapColumn(title: Column): (r: Column)
    requires title.Strs?
    ensures r.Strs? && r.Len() == title.Len()
    ensures forall i :: 0 <= i < title.Len() ==> r.ss[i].Some? && r.ss[i].value in Groups
    ensures forall i :: 0 <= i < title.Len() ==> r.ss[i] == Some(MapTitle(title.ss[i]))
  {
    Strs(seq(title.Len(), i requires 0 <= i < title.Len() => Some(MapTitle(title.ss[i]))))
  }

  /** Remapping an already remapped column changes nothing. */
  lemma RemapIdempotent(title: Column)
    requires title.Strs?
    ensures RemapColumn(RemapColumn(title)) == RemapColumn(title)
  {
    var once := RemapColumn(title);
    forall i | 0 <= i < title.Len() ensures RemapColumn(once).ss[i] == once.ss[i] {
      MapTitleIdempotent(title.ss[i]);
    }
  }

  /** The Title column transform_data builds from the names. */
  function TitleColumn(name: Column): (r: Column)
    requires name.Strs?
    ensures r.Strs? && r.Len() == name.Len()
    ensures forall i :: 0 <= i < name.Len() ==> r.ss[i].Some? && r.ss[i].value in Groups
  {
    RemapColumn(ExtractColumn(name))
  }

  /** The two Title statements: the extracted titles are stored, then overwritten by
      their remapping. Name must exist and hold strings (the .str accessor). */
  function AddTitle(t: Table): (r: Result<Table, Error>)
    requires Valid(t)
    ensures "Name" !in t.cols ==> r == Err(MissingColumn("Name"))
    ensures "Name" in t.cols && !t.cols["Name"].Strs? ==> r == Err(WrongType("Name"))
    ensures r.Ok? <==> "Name" in t.cols && t.cols["Name"].Strs?
    ensures r.Ok? ==>
      var c := r.value;
      && Valid(c) && c.height == t.height
      && (forall n :: n in c.cols <==> n in t.cols || n == "Title")
      && "Title" in c.cols && c.cols["Title"] == TitleColumn(t.cols["Name"])
      && (forall n :: n in t.cols && n != "Title" ==> n in c.cols && c.cols[n] == t.cols[n])
  {
    if "Name" !in t.cols then Err(MissingColumn("Name"))
    else if !t.cols["Name"].Strs? then Err(WrongType("Name"))
    else
      var t1 := SetColumn(t, "Title", ExtractColumn(t.cols["Name"]));
      Ok(SetColumn(t1, "Title", RemapColumn(t1.cols["Title"])))
  }

  /** The identifier and free-text columns removed at the end. */
  const Dropped: seq<string> := ["Name", "Ticket", "PassengerId"]

  /** What transform_data needs of its input to finish. */
  predicate Transformable(t: Table) {
    && "SibSp" in t.cols && !t.cols["SibSp"].Strs?
    && "Parch" in t.cols && !t.cols["Parch"].Strs?
    && "Name" in t.cols && t.cols["Name"].Strs?
    && "Sex" in t.cols && !t.cols["Sex"].Nums?
    && "Embarked" in t.cols && !t.cols["Embarked"].Nums?
    && "Ticket" in t.cols && "PassengerId" in t.cols
  }

  /** Facts about the fixed column names that the solver does not see unaided. */
  lemma TransformNames()
    ensures forall n :: n in Dropped <==> n == "Name" || n == "Ticket" || n == "PassengerId"
    ensures forall n :: n in Encoded <==> n == "Sex" || n == "Embarked" || n == "Title"
    ensures '_' !in "Name" && '_' !in "Ticket" && '_' !in "PassengerId"
    ensures '_' !in "FamilySize" && '_' !in "IsAlone"
    ensures "FamilySize" !in Encoded && "IsAlone" !in Encoded
    ensures "FamilySize" !in Dropped && "IsAlone" !in Dropped
    ensures "Name" !in Encoded && "Ticket" !in Encoded && "PassengerId" !in Encoded
    ensures "Title" != "Name" && "Title" != "Ticket" && "Title" != "PassengerId"
    ensures "FamilySize" != "Name" && "IsAlone" != "Name" && "FamilySize" != "Title" && "IsAlone" != "Title"
    ensures "FamilySize" != "Ticket" && "IsAlone" != "Ticket" && "FamilySize" != "PassengerId" && "IsAlone" != "PassengerId"
    ensures "FamilySize" != "Sex" && "IsAlone" != "Sex" && "FamilySize" != "Embarked" && "IsAlone" != "Embarked"
    ensures "Title" != "Sex" && "Title" != "Embarked"
    ensures "SibSp" != "FamilySize" && "SibSp" != "IsAlone" && "Parch" != "FamilySize" && "Parch" != "IsAlone"
    ensures "Name" != "FamilySize" && "Name" != "IsAlone"
    ensures "Sex" != "Title" && "Embarked" != "Title"
  {
  }

  /** The table after the FamilySize, IsAlone and Title statements. */
  function Featured(t: Table): (r: Table)
    requires Valid(t) && AddFamily(t).Ok? && "Name" in t.cols && t.cols["Name"].Strs?
    ensures Valid(r) && r.height == t.height
  {
    TransformNames();
    AddTitle(AddFamily(t).value).value
  }

  /** What the new features are, and that the columns get_dummies and drop read
      are the caller's. */
  lemma FeaturedColumns(t: Table)
    requires Valid(t) && AddFamily(t).Ok? && "Name" in t.cols && t.cols["Name"].Strs?
    ensures var f, size := Featured(t), FamilySizeColumn(t.cols["SibSp"], t.cols["Parch"]);
      && "FamilySize" in f.cols && f.cols["FamilySize"] == size
      && "IsAlone" in f.cols && f.cols["IsAlone"] == IsAloneColumn(size)
      && "Title" in f.cols && f.cols["Title"] == TitleColumn(t.cols["Name"])
      && (forall n :: n in f.cols <==> n in t.cols || n == "FamilySize" || n == "IsAlone" || n == "Title")
      && (forall n :: n in t.cols && n != "FamilySize" && n != "IsAlone" && n != "Title" ==>
            n in f.cols && f.cols[n] == t.cols[n])
  {
    TransformNames();
  }

  /** Sex and Embarked reach get_dummies unchanged and Title is the built one,
      so the encoding succeeds exactly when Sex and Embarked can be encoded. */
  lemma FeaturedEncoding(t: Table)
    requires Valid(t) && AddFamily(t).Ok? && "Name" in t.cols && t.cols["Name"].Strs?
    ensures var f := Featured(t);
      && (Encodable(f) <==> "Sex" in t.cols && !t.cols["Sex"].Nums? && "Embarked" in t.cols && !t.cols["Embarked"].Nums?)
      && (Encodable(f) ==> f.cols["Sex"] == t.cols["Sex"] && f.cols["Embarked"] == t.cols["Embarked"]
                           && f.cols["Title"] == TitleColumn(t.cols["Name"]))
  {
    TransformNames();
    FeaturedColumns(t);
  }

  /** The table get_dummies returns inside transform_data. */
  function Encoded3(t: Table): (r: Table)
    requires Valid(t) && AddFamily(t).Ok? && "Name" in t.cols && t.cols["Name"].Strs?
    requires "Sex" in t.cols && !t.cols["Sex"].Nums? && "Embarked" in t.cols && !t.cols["Embarked"].Nums?
    ensures Valid(r) && r.height == t.height
  {
    FeaturedEncoding(t);
    GetDummies(Featured(t)).value
  }

  /** The new features and the columns drop reads survive get_dummies. */
  lemma EncodedColumns(t: Table)
    requires Valid(t) && AddFamily(t).Ok? && "Name" in t.cols && t.cols["Name"].Strs?
    requires "Sex" in t.cols && !t.cols["Sex"].Nums? && "Embarked" in t.cols && !t.cols["Embarked"].Nums?
    ensures var e, size := Encoded3(t), FamilySizeColumn(t.cols["SibSp"], t.cols["Parch"]);
      && "FamilySize" in e.cols && e.cols["FamilySize"] == size
      && "IsAlone" in e.cols && e.cols["IsAlone"] == IsAloneColumn(size)
      && "Name" in e.cols
      && ("Ticket" in e.cols <==> "Ticket" in t.cols)
      && ("PassengerId" in e.cols <==> "PassengerId" in t.cols)
  {
    TransformNames();
    FeaturedColumns(t);
    FeaturedEncoding(t);
    var f := Featured(t);
    PlainNameKept(f, "FamilySize");
    PlainNameKept(f, "IsAlone");
    PlainNameKept(f, "Name");
    PlainNameKept(f, "Ticket");
    PlainNameKept(f, "PassengerId");
  }

  /** Sex, Embarked and Title are gone after get_dummies. */
  lemma EncodedGone(t: Table)
    requires Valid(t) && AddFamily(t).Ok? && "Name" in t.cols && t.cols["Name"].Strs?
    requires "Sex" in t.cols && !t.cols["Sex"].Nums? && "Embarked" in t.cols && !t.cols["Embarked"].Nums?
    ensures forall n :: n in Encoded ==> n !in Encoded3(t).cols
  {
    FeaturedEncoding(t);
    forall n | n in Encoded ensures n !in Encoded3(t).cols {
      EncodedNameGone(Featured(t), n);
    }
  }

  /** Every plain column of the caller that transform_data does not name passes
      get_dummies unchanged. */
  lemma EncodedKeepsPlain(t: Table)
    requires Valid(t) && AddFamily(t).Ok? && "Name" in t.cols && t.cols["Name"].Strs?
    requires "Sex" in t.cols && !t.cols["Sex"].Nums? && "Embarked" in t.cols && !t.cols["Embarked"].Nums?
    ensures var e := Encoded3(t);
      forall n :: n in t.cols && '_' !in n && n !in Encoded && n != "FamilySize" && n != "IsAlone" ==>
        n in e.cols && e.cols[n] == t.cols[n]
  {
    FeaturedColumns(t);
    FeaturedEncoding(t);
    forall n | n in t.cols && '_' !in n && n !in Encoded && n != "FamilySize" && n != "IsAlone"
      ensures n in Encoded3(t).cols && Encoded3(t).cols[n] == t.cols[n]
    {
      EncodedNames();
      PlainNameKept(Featured(t), n);
    }
  }

  /** The dummy columns get_dummies stores, stated against the caller's table. */
  lemma EncodedDummyColumns(t: Table)
    requires Valid(t) && AddFamily(t).Ok? && "Name" in t.cols && t.cols["Name"].Strs?
    requires "Sex" in t.cols && !t.cols["Sex"].Nums? && "Embarked" in t.cols && !t.cols["Embarked"].Nums?
    ensures var e := Encoded3(t);
      && Holds(e, Dummies("Sex", t.cols["Sex"]))
      && Holds(e, Dummies("Embarked", t.cols["Embarked"]))
      && Holds(e, Dummies("Title", TitleColumn(t.cols["Name"])))
  {
    FeaturedEncoding(t);
  }

  /** The dummy columns transform_data appends: those of Sex, of Embarked and of
      the built Title column, in that order. */
  function TransformDummies(t: Table): (r: seq<(string, Column)>)
    requires "Sex" in t.cols && !t.cols["Sex"].Nums? && "Embarked" in t.cols && !t.cols["Embarked"].Nums?
    requires "Name" in t.cols && t.cols["Name"].Strs?
    ensures forall n :: n in NamesOf(r) ==> '_' in n
  {
    var r := Dummies("Sex", t.cols["Sex"]) + Dummies("Embarked", t.cols["Embarked"])
             + Dummies("Title", TitleColumn(t.cols["Name"]));
    DummiesHaveUnderscores(t.cols["Sex"], t.cols["Embarked"], TitleColumn(t.cols["Name"]));
    r
  }

  /** Every name of the three dummy groups contains an underscore. */
  lemma DummiesHaveUnderscores(s: Column, e: Column, n: Column)
    requires !s.Nums? && !e.Nums? && !n.Nums?
    ensures forall m :: m in NamesOf(Dummies("Sex", s) + Dummies("Embarked", e) + Dummies("Title", n)) ==> '_' in m
  {
    var ds, de, dt := Dummies("Sex", s), Dummies("Embarked", e), Dummies("Title", n);
    NamesOfConcat(ds, de);
    NamesOfConcat(ds + de, dt);
    DummyNamesJoined("Sex", s);
    DummyNamesJoined("Embarked", e);
    DummyNamesJoined("Title", n);
  }

  /** Where the columns after get_dummies come from. */
  lemma EncodedKeysOf(t: Table)
    requires Valid(t) && AddFamily(t).Ok? && "Name" in t.cols && t.cols["Name"].Strs?
    requires "Sex" in t.cols && !t.cols["Sex"].Nums? && "Embarked" in t.cols && !t.cols["Embarked"].Nums?
    ensures forall n :: n in Encoded3(t).cols <==>
      (n in t.cols && n !in Encoded) || n == "FamilySize" || n == "IsAlone" || n in NamesOf(TransformDummies(t))
  {
    TransformNames();
    FeaturedColumns(t);
    FeaturedEncoding(t);
    assert AllDummies(Featured(t)) == TransformDummies(t);
  }

  /** A table whose columns hold the given dummies still holds them after columns
      with other names are dropped. */
  lemma DropKeepsHolds(t: Table, gone: seq<string>, ps: seq<(string, Column)>)
    requires Valid(t) && DropAll(t, gone).Ok? && Holds(t, ps)
    requires forall n :: n in NamesOf(ps) ==> n !in gone
    ensures Holds(DropAll(t, gone).value, ps)
  {
    var c := DropAll(t, gone).value;
    forall k | 0 <= k < |ps| ensures ps[k].0 in c.cols && c.cols[ps[k].0] == ps[k].1 {
      assert NamesOf(ps)[k] == ps[k].0;
    }
  }

  /** Why transform_data stops: a KeyError for a column it reads, or a TypeError
      for a count column holding strings, a Name column that does not, or a numeric
      Sex or Embarked column. */
  predicate TransformFailure(t: Table, e: Error) {
    || (e.MissingColumn? && e.name !in t.cols
        && (e.name == "SibSp" || e.name == "Parch" || e.name == "Name" || e.name == "Sex"
            || e.name == "Embarked" || e.name == "Ticket" || e.name == "PassengerId"))
    || (e.WrongType? && e.name in t.cols
        && (|| ((e.name == "SibSp" || e.name == "Parch") && t.cols[e.name].Strs?)
            || (e.name == "Name" && !t.cols[e.name].Strs?)
            || ((e.name == "Sex" || e.name == "Embarked") && t.cols[e.name].Nums?)))
  }

  /** A failure of the first two statements is one of transform_data's failures. */
  lemma FamilyFailure(t: Table)
    requires Valid(t) && AddFamily(t).Err?
    ensures TransformFailure(t, AddFamily(t).error) && !Transformable(t)
  {
  }

  /** A failure of the Title statements names the Name column. */
  lemma TitleFailure(t: Table)
    requires Valid(t) && AddFamily(t).Ok? && AddTitle(AddFamily(t).value).Err?
    ensures TransformFailure(t, AddTitle(AddFamily(t).value).error) && !Transformable(t)
  {
    assert "Name" != "FamilySize" && "Name" != "IsAlone";
  }

  /** A failed get_dummies inside transform_data names Sex or Embarked: absent from
      the caller's table, or numeric there. */
  lemma FeaturedFailure(t: Table)
    requires Valid(t) && AddFamily(t).Ok? && "Name" in t.cols && t.cols["Name"].Strs?
    requires GetDummies(Featured(t)).Err?
    ensures TransformFailure(t, GetDummies(Featured(t)).error) && !Transformable(t)
  {
    FeaturedEncoding(t);
    var f := Featured(t);
    var e := GetDummies(f).error;
    EncodedNames();
    assert "Sex" != "FamilySize" && "Sex" != "IsAlone" && "Sex" != "Title";
    assert "Embarked" != "FamilySize" && "Embarked" != "IsAlone" && "Embarked" != "Title";
    FeaturedColumns(t);
    if exists n :: n in Encoded && n !in f.cols {
      assert e.MissingColumn? && e.name in Encoded && e.name !in f.cols;
    } else {
      assert e.WrongType? && e.name in Encoded && f.cols[e.name].Nums?;
    }
  }

  /** Facts about the dropped names that the solver does not see unaided. */
  lemma DroppedNames()
    ensures forall n :: n in Dropped <==> n == "Name" || n == "Ticket" || n == "PassengerId"
    ensures "FamilySize" !in Dropped && "IsAlone" !in Dropped
    ensures '_' !in "Name" && '_' !in "Ticket" && '_' !in "PassengerId"
  {
  }

  /** Dropping three columns fails exactly when one of them is absent, and
      then names an absent one. */
  lemma DropThree(t: Table, a: string, b: string, c: string)
    requires Valid(t)
    ensures var r := DropAll(t, [a, b, c]);
      && (r.Ok? <==> a in t.cols && b in t.cols && c in t.cols)
      && (r.Err? ==> r.error.MissingColumn? && (r.error.name == a || r.error.name == b || r.error.name == c)
                     && r.error.name !in t.cols)
  {
    assert forall n :: n in [a, b, c] <==> n == a || n == b || n == c;
  }

  /** Dropping Name, Ticket and PassengerId from a table that has Name fails
      exactly when Ticket or PassengerId is absent, naming one that is. */
  lemma DropOutcome(e: Table)
    requires Valid(e) && "Name" in e.cols
    ensures var r := DropAll(e, Dropped);
      && (r.Ok? <==> "Ticket" in e.cols && "PassengerId" in e.cols)
      && (r.Err? ==> r.error.MissingColumn? && (r.error.name == "Ticket" || r.error.name == "PassengerId")
                     && r.error.name !in e.cols)
  {
    DropThree(e, "Name", "Ticket", "PassengerId");
  }

  /** The final drop inside transform_data fails exactly when Ticket or
      PassengerId is absent, naming one that is. */
  lemma DroppedOutcome(t: Table)
    requires Valid(t) && AddFamily(t).Ok? && "Name" in t.cols && t.cols["Name"].Strs?
    requires "Sex" in t.cols && !t.cols["Sex"].Nums? && "Embarked" in t.cols && !t.cols["Embarked"].Nums?
    ensures var r := DropAll(Encoded3(t), Dropped);
      && (r.Ok? <==> "Ticket" in t.cols && "PassengerId" in t.cols)
      && (r.Err? ==> r.error.MissingColumn? && (r.error.name == "Ticket" || r.error.name == "PassengerId")
                     && r.error.name !in t.cols)
  {
    EncodedColumns(t);
    DropOutcome(Encoded3(t));
  }

  /** The new features survive the final drop. */
  lemma DroppedFeatures(t: Table)
    requires Valid(t) && AddFamily(t).Ok? && "Name" in t.cols && t.cols["Name"].Strs?
    requires "Sex" in t.cols && !t.cols["Sex"].Nums? && "Embarked" in t.cols && !t.cols["Embarked"].Nums?
    requires "Ticket" in t.cols && "PassengerId" in t.cols
    ensures DropAll(Encoded3(t), Dropped).Ok?
    ensures var c, size := DropAll(Encoded3(t), Dropped).value, FamilySizeColumn(t.cols["SibSp"], t.cols["Parch"]);
      && "FamilySize" in c.cols && c.cols["FamilySize"] == size
      && "IsAlone" in c.cols && c.cols["IsAlone"] == IsAloneColumn(size)
  {
    DroppedOutcome(t);
    DroppedNames();
    EncodedColumns(t);
  }

  /** The columns left by the final drop, and the dummies they hold. */
  lemma DroppedKeys(t: Table)
    requires Valid(t) && AddFamily(t).Ok? && "Name" in t.cols && t.cols["Name"].Strs?
    requires "Sex" in t.cols && !t.cols["Sex"].Nums? && "Embarked" in t.cols && !t.cols["Embarked"].Nums?
    requires "Ticket" in t.cols && "PassengerId" in t.cols
    ensures DropAll(Encoded3(t), Dropped).Ok?
    ensures var c := DropAll(Encoded3(t), Dropped).value;
      && (forall n :: n in c.cols <==>
            (n in t.cols && n !in Encoded && n !in Dropped) || n == "FamilySize" || n == "IsAlone"
            || n in NamesOf(TransformDummies(t)))
      && (forall n :: n in t.cols && '_' !in n && n !in Encoded && n !in Dropped && n != "FamilySize" && n != "IsAlone" ==>
            n in c.cols && c.cols[n] == t.cols[n])
  {
    DroppedOutcome(t);
    DroppedNames();
    EncodedKeysOf(t);
    EncodedKeepsPlain(t);
  }

  /** The dummies survive the final drop. */
  lemma DroppedDummies(t: Table)
    requires Valid(t) && AddFamily(t).Ok? && "Name" in t.cols && t.cols["Name"].Strs?
    requires "Sex" in t.cols && !t.cols["Sex"].Nums? && "Embarked" in t.cols && !t.cols["Embarked"].Nums?
    requires "Ticket" in t.cols && "PassengerId" in t.cols
    ensures DropAll(Encoded3(t), Dropped).Ok?
    ensures var c := DropAll(Encoded3(t), Dropped).value;
      && Holds(c, Dummies("Sex", t.cols["Sex"]))
      && Holds(c, Dummies("Embarked", t.cols["Embarked"]))
      && Holds(c, Dummies("Title", TitleColumn(t.cols["Name"])))
  {
    DroppedOutcome(t);
    EncodedDummyColumns(t);
    var e := Encoded3(t);
    DummyNamesJoined("Sex", t.cols["Sex"]);
    DummyNamesJoined("Embarked", t.cols["Embarked"]);
    DummyNamesJoined("Title", TitleColumn(t.cols["Name"]));
    DropKeepsJoined(e, Dummies("Sex", t.cols["Sex"]));
    DropKeepsJoined(e, Dummies("Embarked", t.cols["Embarked"]));
    DropKeepsJoined(e, Dummies("Title", TitleColumn(t.cols["Name"])));
  }

  /** Columns whose names contain an underscore are not among the dropped ones. */
  lemma DropKeepsJoined(e: Table, ps: seq<(string, Column)>)
    requires Valid(e) && DropAll(e, Dropped).Ok? && Holds(e, ps)
    requires forall n :: n in NamesOf(ps) ==> '_' in n
    ensures Holds(DropAll(e, Dropped).value, ps)
  {
    forall n | n in NamesOf(ps) ensures n !in Dropped {
      DroppedNames();
    }
    DropKeepsHolds(e, Dropped, ps);
  }

  /** transform_data: FamilySize and IsAlone, the remapped Title, the dummies of
      Sex, Embarked and Title, and Name, Ticket and PassengerId dropped. */
  function TransformData(t: Table): (r: Result<Table, Error>)
    requires Valid(t)
    ensures "SibSp" !in t.cols ==> r == Err(MissingColumn("SibSp"))
    ensures r.Ok? <==> Transformable(t)
    ensures r.Err? ==> TransformFailure(t, r.error)
    // the derived features, over the caller's counts
    ensures r.Ok? ==>
      var c, size := r.value, FamilySizeColumn(t.cols["SibSp"], t.cols["Parch"]);
      && Valid(c) && c.height == t.height
      && "FamilySize" in c.cols && c.cols["FamilySize"] == size
      && "IsAlone" in c.cols && c.cols["IsAlone"] == IsAloneColumn(size)
    // the indicator columns of Sex, Embarked and the built Title
    ensures r.Ok? ==>
      && Holds(r.value, Dummies("Sex", t.cols["Sex"]))
      && Holds(r.value, Dummies("Embarked", t.cols["Embarked"]))
      && Holds(r.value, Dummies("Title", TitleColumn(t.cols["Name"])))
    // which columns there are, and that the caller's other plain columns are untouched
    ensures r.Ok? ==>
      && (forall n :: n in r.value.cols <==>
            (n in t.cols && n !in Encoded && n !in Dropped) || n == "FamilySize" || n == "IsAlone"
            || n in NamesOf(TransformDummies(t)))
      && (forall n :: n in t.cols && '_' !in n && n !in Encoded && n !in Dropped && n != "FamilySize" && n != "IsAlone" ==>
            n in r.value.cols && r.value.cols[n] == t.cols[n])
  {
    if AddFamily(t).Err? then
      FamilyFailure(t);
      AddFamily(t)
    else if AddTitle(AddFamily(t).value).Err? then
      TitleFailure(t);
      AddTitle(AddFamily(t).value)
    else
      assert "Name" != "FamilySize" && "Name" != "IsAlone";
      if GetDummies(Featured(t)).Err? then
        FeaturedFailure(t);
        GetDummies(Featured(t))
      else
        FeaturedEncoding(t);
        DroppedOutcome(t);
        if "Ticket" in t.cols && "PassengerId" in t.cols then
          TransformedTable(t);
          DropAll(Encoded3(t), Dropped)
        else
          DropAll(Encoded3(t), Dropped)
  }

  /** The failures of the family statements, in the order they are raised:
      KeyError on SibSp, then on Parch, then a string count. */
  lemma FamilyErrorOrder(t: Table)
    requires Valid(t)
    ensures "SibSp" in t.cols && "Parch" !in t.cols ==> TransformData(t) == Err(MissingColumn("Parch"))
    ensures "SibSp" in t.cols && "Parch" in t.cols && t.cols["SibSp"].Strs? ==>
      TransformData(t) == Err(WrongType("SibSp"))
    ensures "SibSp" in t.cols && "Parch" in t.cols && !t.cols["SibSp"].Strs? && t.cols["Parch"].Strs? ==>
      TransformData(t) == Err(WrongType("Parch"))
  {
  }

  /** Once the counts are usable, the Title statements fail next: KeyError on
      Name, then a Name column without strings. */
  lemma TitleErrorOrder(t: Table)
    requires Valid(t) && AddFamily(t).Ok?
    ensures "Name" !in t.cols ==> TransformData(t) == Err(MissingColumn("Name"))
    ensures "Name" in t.cols && !t.cols["Name"].Strs? ==> TransformData(t) == Err(WrongType("Name"))
  {
    TransformNames();
  }

  /** Once Title is built, transform_data returns what get_dummies returns when
      that fails. */
  lemma StageAtEncode(t: Table)
    requires Valid(t) && AddFamily(t).Ok? && "Name" in t.cols && t.cols["Name"].Strs?
    requires GetDummies(Featured(t)).Err?
    ensures TransformData(t) == GetDummies(Featured(t))
  {
    assert AddTitle(AddFamily(t).value).Ok?;
  }

  /** Once Title is built, get_dummies fails next: KeyError on Sex, then on
      Embarked, then a numeric Sex, then a numeric Embarked. */
  lemma EncodeErrorOrder(t: Table)
    requires Valid(t) && AddFamily(t).Ok? && "Name" in t.cols && t.cols["Name"].Strs?
    ensures "Sex" !in t.cols ==> TransformData(t) == Err(MissingColumn("Sex"))
    ensures "Sex" in t.cols && "Embarked" !in t.cols ==> TransformData(t) == Err(MissingColumn("Embarked"))
    ensures "Sex" in t.cols && "Embarked" in t.cols && t.cols["Sex"].Nums? ==>
      TransformData(t) == Err(WrongType("Sex"))
    ensures "Sex" in t.cols && "Embarked" in t.cols && !t.cols["Sex"].Nums? && t.cols["Embarked"].Nums? ==>
      TransformData(t) == Err(WrongType("Embarked"))
  {
    FeaturedColumns(t);
    var f := Featured(t);
    TransformNames();
    assert ("Sex" in f.cols <==> "Sex" in t.cols) && ("Embarked" in f.cols <==> "Embarked" in t.cols);
    assert "Sex" in t.cols ==> f.cols["Sex"] == t.cols["Sex"];
    assert "Embarked" in t.cols ==> f.cols["Embarked"] == t.cols["Embarked"];
    GetDummiesErrorOrder(f);
    if GetDummies(f).Err? {
      StageAtEncode(t);
    }
  }

  /** Everything the final table holds, once every statement succeeds. */
  lemma TransformedTable(t: Table)
    requires Valid(t) && AddFamily(t).Ok? && "Name" in t.cols && t.cols["Name"].Strs?
    requires "Sex" in t.cols && !t.cols["Sex"].Nums? && "Embarked" in t.cols && !t.cols["Embarked"].Nums?
    requires "Ticket" in t.cols && "PassengerId" in t.cols
    ensures DropAll(Encoded3(t), Dropped).Ok?
    ensures var c, size := DropAll(Encoded3(t), Dropped).value, FamilySizeColumn(t.cols["SibSp"], t.cols["Parch"]);
      && "FamilySize" in c.cols && c.cols["FamilySize"] == size
      && "IsAlone" in c.cols && c.cols["IsAlone"] == IsAloneColumn(size)
    ensures var c := DropAll(Encoded3(t), Dropped).value;
      && Holds(c, Dummies("Sex", t.cols["Sex"]))
      && Holds(c, Dummies("Embarked", t.cols["Embarked"]))
      && Holds(c, Dummies("Title", TitleColumn(t.cols["Name"])))
    ensures var c := DropAll(Encoded3(t), Dropped).value;
      && (forall n :: n in c.cols <==>
            (n in t.cols && n !in Encoded && n !in Dropped) || n == "FamilySize" || n == "IsAlone"
            || n in NamesOf(TransformDummies(t)))
      && (forall n :: n in t.cols && '_' !in n && n !in Encoded && n !in Dropped && n != "FamilySize" && n != "IsAlone" ==>
            n in c.cols && c.cols[n] == t.cols[n])
  {
    DroppedFeatures(t);
    DroppedKeys(t);
    DroppedDummies(t);
  }
}
