/** `pd.get_dummies(df, columns=[...], drop_first=True)` (dpre.py): each encoded
    column is removed and replaced, at the end of the table, by one bool column per
    observed category except the first in sorted order. */
module Encode {
  import opened Wrappers
  import opened Frame
  import opened Order

  /** The text of a category in a dummy column's name: a string as it is, a bool
      as Python renders it. */
  function LevelText(c: Cell): string
    requires !c.NumCell?
  {
    match c
    case StrCell(s) => s
    case FlagCell(b) => if b then "True" else "False"
  }

  /** `<prefix>_<category>`. */
  function DummyName(prefix: string, c: Cell): (r: string)
    requires !c.NumCell?
    ensures |r| > |prefix| && r[..|prefix| + 1] == prefix + "_"
  {
    assert (prefix + "_" + LevelText(c))[..|prefix| + 1] == prefix + "_";
    prefix + "_" + LevelText(c)
  }

  /** Two categories of one column never share a dummy name. */
  lemma DummyNameInjective(prefix: string, a: Cell, b: Cell)
    requires !a.NumCell? && !b.NumCell? && a.StrCell? == b.StrCell?
    requires DummyName(prefix, a) == DummyName(prefix, b)
    ensures a == b
  {
    var k := |prefix| + 1;
    assert LevelText(a) == DummyName(prefix, a)[k..];
    assert LevelText(b) == DummyName(prefix, b)[k..];
    assert "True"[0] != "False"[0];
  }

  /** Two different categories of one dtype get different dummy names. */
  lemma DummyNamesDiffer(prefix: string, a: Cell, b: Cell)
    requires !a.NumCell? && !b.NumCell? && a.StrCell? == b.StrCell? && a != b
    ensures DummyName(prefix, a) != DummyName(prefix, b)
  {
    if DummyName(prefix, a) == DummyName(prefix, b) {
      DummyNameInjective(prefix, a, b);
    }
  }

  /** The observed categories in ascending order. */
  function Levels(col: Column): (r: seq<Cell>)
    ensures StrictlySorted(r)
    ensures forall c :: c in r <==> c in Present(col)
  {
    SortedDistinct(Present(col))
  }

  /** The bool column that is true exactly in the rows holding c. */
  function Indicator(col: Column, c: Cell): (r: Column)
    ensures r.Flags? && r.Len() == col.Len()
    ensures forall i :: 0 <= i < col.Len() ==> (r.bs[i] <==> col.At(i) == Some(c))
  {
    Flags(seq(col.Len(), i requires 0 <= i < col.Len() => col.At(i) == Some(c)))
  }

  /** Levels a dummy column can be named after: none is a number, and all are
      strings or all are bools. */
  predicate TextLevels(lv: seq<Cell>, strs: bool) {
    forall k :: 0 <= k < |lv| ==> !lv[k].NumCell? && lv[k].StrCell? == strs
  }

  /** The categories of a column that is not numeric are not numbers, and have
      the column's dtype. */
  lemma LevelsAreText(col: Column)
    requires !col.Nums?
    ensures TextLevels(Levels(col), col.Strs?)
  {
    forall k | 0 <= k < |Levels(col)| ensures !Levels(col)[k].NumCell? && Levels(col)[k].StrCell? == col.Strs? {
      assert Levels(col)[k] in Present(col);
    }
  }

  /** One dummy column per level after the first: its name and its indicator. */
  function DummiesOf(prefix: string, col: Column, lv: seq<Cell>, strs: bool): (r: seq<(string, Column)>)
    requires TextLevels(lv, strs)
    ensures |r| == if |lv| == 0 then 0 else |lv| - 1
    ensures forall k :: 0 <= k < |r| ==> r[k] == (DummyName(prefix, lv[k + 1]), Indicator(col, lv[k + 1]))
  {
    if |lv| <= 1 then []
    else seq(|lv| - 1, k requires 0 <= k < |lv| - 1 => (DummyName(prefix, lv[k + 1]), Indicator(col, lv[k + 1])))
  }

  /** The dummy columns of one encoded column, named and in category order: one
      fewer than the categories (none when there is at most one). */
  function Dummies(prefix: string, col: Column): (r: seq<(string, Column)>)
    requires !col.Nums?
    ensures |r| == if |Levels(col)| == 0 then 0 else |Levels(col)| - 1
    ensures forall k :: 0 <= k < |r| ==> r[k].1.Flags? && r[k].1.Len() == col.Len()
  {
    LevelsAreText(col);
    DummiesOf(prefix, col, Levels(col), col.Strs?)
  }

  /** The k-th dummy column stands for the (k+1)-th category: it carries its name
      and is true exactly in that category's rows. */
  lemma DummyIsIndicator(prefix: string, col: Column, k: nat)
    requires !col.Nums? && k < |Dummies(prefix, col)|
    ensures Levels(col)[k + 1] in Levels(col) && !Levels(col)[k + 1].NumCell?
    ensures Dummies(prefix, col)[k].0 == DummyName(prefix, Levels(col)[k + 1])
    ensures forall i :: 0 <= i < col.Len() ==>
      (Dummies(prefix, col)[k].1.bs[i] <==> col.At(i) == Some(Levels(col)[k + 1]))
  {
    LevelsAreText(col);
  }

  lemma OneIndicatorOf(prefix: string, col: Column, lv: seq<Cell>, strs: bool, i: nat)
    requires TextLevels(lv, strs) && StrictlySorted(lv) && i < col.Len()
    ensures var d := DummiesOf(prefix, col, lv, strs);
      forall k, l :: 0 <= k < l < |d| ==> !(d[k].1.bs[i] && d[l].1.bs[i])
  {
    var d := DummiesOf(prefix, col, lv, strs);
    forall k, l | 0 <= k < l < |d| ensures !(d[k].1.bs[i] && d[l].1.bs[i]) {
      StrictlySortedDistinct(lv, k + 1, l + 1);
    }
  }

  /** No row has two indicators set. */
  lemma AtMostOneDummy(prefix: string, col: Column, i: nat)
    requires !col.Nums? && i < col.Len()
    ensures var d := Dummies(prefix, col);
      forall k, l :: 0 <= k < l < |d| ==> !(d[k].1.bs[i] && d[l].1.bs[i])
  {
    LevelsAreText(col);
    assert Dummies(prefix, col) == DummiesOf(prefix, col, Levels(col), col.Strs?);
    OneIndicatorOf(prefix, col, Levels(col), col.Strs?, i);
  }

  lemma ZeroIndicatorsOf(prefix: string, col: Column, lv: seq<Cell>, strs: bool, i: nat)
    requires TextLevels(lv, strs) && StrictlySorted(lv) && i < col.Len()
    requires col.At(i).Some? ==> col.At(i).value in lv
    ensures var d := DummiesOf(prefix, col, lv, strs);
      (forall k :: 0 <= k < |d| ==> !d[k].1.bs[i])
      <==> (col.At(i).None? || (|lv| > 0 && col.At(i) == Some(lv[0])))
  {
    var d := DummiesOf(prefix, col, lv, strs);
    if col.At(i).Some? {
      var m :| 0 <= m < |lv| && lv[m] == col.At(i).value;
      if m == 0 {
        forall k | 0 <= k < |d| ensures !d[k].1.bs[i] {
          StrictlySortedDistinct(lv, 0, k + 1);
        }
      } else {
        assert d[m - 1].1.bs[i];
        StrictlySortedDistinct(lv, 0, m);
      }
    }
  }

  /** A row has no indicator set exactly when it is missing or holds the first
      (dropped) category. */
  lemma AllZeroDummies(prefix: string, col: Column, i: nat)
    requires !col.Nums? && i < col.Len()
    ensures var d := Dummies(prefix, col);
      (forall k :: 0 <= k < |d| ==> !d[k].1.bs[i])
      <==> (col.At(i).None? || (|Levels(col)| > 0 && col.At(i) == Some(Levels(col)[0])))
  {
    LevelsAreText(col);
    assert Dummies(prefix, col) == DummiesOf(prefix, col, Levels(col), col.Strs?);
    if col.At(i).Some? {
      assert col.At(i).value in Present(col);
    }
    ZeroIndicatorsOf(prefix, col, Levels(col), col.Strs?, i);
  }

  function NamesOf(ps: seq<(string, Column)>): (r: seq<string>)
    ensures |r| == |ps| && forall k :: 0 <= k < |ps| ==> r[k] == ps[k].0
  {
    if ps == [] then [] else [ps[0].0] + NamesOf(ps[1..])
  }

  lemma DistinctDummiesOf(prefix: string, col: Column, lv: seq<Cell>, strs: bool)
    requires TextLevels(lv, strs) && StrictlySorted(lv)
    ensures Distinct(NamesOf(DummiesOf(prefix, col, lv, strs)))
  {
    var d := DummiesOf(prefix, col, lv, strs);
    var ns := NamesOf(d);
    forall k, l | 0 <= k < l < |ns| ensures ns[k] != ns[l] {
      StrictlySortedDistinct(lv, k + 1, l + 1);
      DummyNamesDiffer(prefix, lv[k + 1], lv[l + 1]);
      assert ns[k] == d[k].0 == DummyName(prefix, lv[k + 1]);
      assert ns[l] == d[l].0 == DummyName(prefix, lv[l + 1]);
    }
  }

  lemma PrefixedDummiesOf(prefix: string, col: Column, lv: seq<Cell>, strs: bool)
    requires TextLevels(lv, strs)
    ensures forall n :: n in NamesOf(DummiesOf(prefix, col, lv, strs)) ==>
      |n| > |prefix| && n[..|prefix| + 1] == prefix + "_"
  {
    var ns := NamesOf(DummiesOf(prefix, col, lv, strs));
    forall n | n in ns ensures |n| > |prefix| && n[..|prefix| + 1] == prefix + "_" {
      var k :| 0 <= k < |ns| && ns[k] == n;
      assert n == DummyName(prefix, lv[k + 1]);
    }
  }

  /** The dummy columns of one encoded column have pairwise different names, each
      starting with the prefix and an underscore. */
  lemma DummyNames(prefix: string, col: Column)
    requires !col.Nums?
    ensures Distinct(NamesOf(Dummies(prefix, col)))
    ensures forall n :: n in NamesOf(Dummies(prefix, col)) ==>
      |n| > |prefix| && n[..|prefix| + 1] == prefix + "_"
  {
    LevelsAreText(col);
    assert Dummies(prefix, col) == DummiesOf(prefix, col, Levels(col), col.Strs?);
    DistinctDummiesOf(prefix, col, Levels(col), col.Strs?);
    PrefixedDummiesOf(prefix, col, Levels(col), col.Strs?);
  }

  /** Every dummy name contains the underscore that joins prefix and level. */
  lemma DummyNamesJoined(prefix: string, col: Column)
    requires !col.Nums?
    ensures forall m :: m in NamesOf(Dummies(prefix, col)) ==> '_' in m
  {
    DummyNames(prefix, col);
    forall m | m in NamesOf(Dummies(prefix, col)) ensures '_' in m {
      PrefixedName(prefix, m);
    }
  }

  /** A name without an underscore is never a dummy column's name. */
  lemma PlainNameIsNoDummy(prefix: string, col: Column, n: string)
    requires !col.Nums? && '_' !in n
    ensures n !in NamesOf(Dummies(prefix, col))
  {
    DummyNames(prefix, col);
    forall m | m in NamesOf(Dummies(prefix, col)) ensures m[0] == (prefix + "_")[0] && '_' in m {
      PrefixedName(prefix, m);
    }
  }

  lemma PrefixedName(prefix: string, m: string)
    requires |m| > |prefix| && m[..|prefix| + 1] == prefix + "_"
    ensures m[0] == (prefix + "_")[0] && '_' in m
  {
    assert m[|prefix|] == m[..|prefix| + 1][|prefix|];
  }

  /** Dummy columns of two prefixes that differ in their first letter never share a name. */
  lemma DummiesOfOtherPrefix(p: string, q: string, colp: Column, colq: Column)
    requires !colp.Nums? && !colq.Nums? && |p| > 0 && |q| > 0 && p[0] != q[0]
    ensures forall n :: n in NamesOf(Dummies(p, colp)) ==> n !in NamesOf(Dummies(q, colq))
  {
    DummyNames(p, colp);
    DummyNames(q, colq);
    forall n | n in NamesOf(Dummies(p, colp)) ensures n[0] == p[0] {
      PrefixedName(p, n);
    }
    forall n | n in NamesOf(Dummies(q, colq)) ensures n[0] == q[0] {
      PrefixedName(q, n);
    }
  }

  /** Stores the named columns one after another, as `df[name] = col` would: a new
      name is appended, an existing one replaced where it stands. */
  function AppendAll(t: Table, ps: seq<(string, Column)>): (r: Table)
    requires Valid(t) && forall k :: 0 <= k < |ps| ==> ps[k].1.Len() == t.height
    ensures Valid(r) && r.height == t.height
    ensures |r.names| >= |t.names| && r.names[..|t.names|] == t.names
    ensures forall n :: n in r.cols <==> n in t.cols || n in NamesOf(ps)
    ensures forall n :: n in t.cols && n !in NamesOf(ps) ==> n in r.cols && r.cols[n] == t.cols[n]
    decreases |ps|
  {
    if ps == [] then t
    else
      var t1 := SetColumn(t, ps[0].0, ps[0].1);
      var r := AppendAll(t1, ps[1..]);
      assert r.names[..|t.names|] == r.names[..|t1.names|][..|t.names|];
      r
  }

  /** With distinct names every stored column is found under its name afterwards. */
  lemma {:induction false} AppendAllStores(t: Table, ps: seq<(string, Column)>)
    requires Valid(t) && forall k :: 0 <= k < |ps| ==> ps[k].1.Len() == t.height
    requires Distinct(NamesOf(ps))
    ensures forall k :: 0 <= k < |ps| ==>
      ps[k].0 in AppendAll(t, ps).cols && AppendAll(t, ps).cols[ps[k].0] == ps[k].1
    decreases |ps|
  {
    if ps != [] {
      var t1 := SetColumn(t, ps[0].0, ps[0].1);
      var rest := ps[1..];
      assert NamesOf(ps) == [ps[0].0] + NamesOf(rest);
      assert Distinct(NamesOf(rest)) by {
        forall i, j | 0 <= i < j < |rest| ensures NamesOf(rest)[i] != NamesOf(rest)[j] {
          assert NamesOf(rest)[i] == NamesOf(ps)[i + 1] && NamesOf(rest)[j] == NamesOf(ps)[j + 1];
        }
      }
      AppendAllStores(t1, rest);
      assert ps[0].0 !in NamesOf(rest) by {
        forall j | 0 <= j < |rest| ensures NamesOf(rest)[j] != ps[0].0 {
          assert NamesOf(rest)[j] == NamesOf(ps)[j + 1] && ps[0].0 == NamesOf(ps)[0];
        }
      }
      var r := AppendAll(t1, rest);
      assert r == AppendAll(t, ps);
      forall k | 0 <= k < |ps| ensures ps[k].0 in r.cols && r.cols[ps[k].0] == ps[k].1 {
        if k > 0 {
          assert ps[k] == rest[k - 1];
        }
      }
    }
  }

  /** One column of get_dummies: the column is removed and its dummy columns are
      appended. */
  function EncodeColumn(t: Table, name: string): (r: Table)
    requires Valid(t) && name in t.cols && !t.cols[name].Nums?
    ensures Valid(r) && r.height == t.height
    ensures var d := Dummies(name, t.cols[name]);
      && (forall n :: n in r.cols <==> (n in t.cols && n != name) || n in NamesOf(d))
      && (forall n :: n in t.cols && n != name && n !in NamesOf(d) ==> n in r.cols && r.cols[n] == t.cols[n])
      && (forall k :: 0 <= k < |d| ==> d[k].0 in r.cols && r.cols[d[k].0] == d[k].1)
  {
    var d := Dummies(name, t.cols[name]);
    DummyNames(name, t.cols[name]);
    assert name !in NamesOf(d);
    AppendAllStores(Drop(t, name).value, d);
    AppendAll(Drop(t, name).value, d)
  }

  lemma {:induction false} NamesOfConcat(a: seq<(string, Column)>, b: seq<(string, Column)>)
    ensures NamesOf(a + b) == NamesOf(a) + NamesOf(b)
    decreases |a|
  {
    if a != [] {
      assert (a + b)[1..] == a[1..] + b;
      NamesOfConcat(a[1..], b);
    }
  }

  /** The columns get_dummies encodes, in order. */
  const Encoded: seq<string> := ["Sex", "Embarked", "Title"]

  /** Every encoded column exists and has a dtype this model encodes. */
  predicate Encodable(t: Table) {
    && "Sex" in t.cols && !t.cols["Sex"].Nums?
    && "Embarked" in t.cols && !t.cols["Embarked"].Nums?
    && "Title" in t.cols && !t.cols["Title"].Nums?
  }

  /** All dummy columns get_dummies appends, Sex's first, then Embarked's, then Title's. */
  function AllDummies(t: Table): seq<(string, Column)>
    requires Encodable(t)
  {
    Dummies("Sex", t.cols["Sex"]) + Dummies("Embarked", t.cols["Embarked"]) + Dummies("Title", t.cols["Title"])
  }

  /** get_dummies over Sex, Embarked and Title. A KeyError names an absent encoded
      column; otherwise the encoded columns are gone, the dummy columns are stored
      under their names and every other column is unchanged. */
  function GetDummies(t: Table): (r: Result<Table, Error>)
    requires Valid(t)
    ensures r.Ok? <==> Encodable(t)
    ensures r.Err? && (exists n :: n in Encoded && n !in t.cols) ==>
      r.error == MissingColumn(FirstAbsent(Encoded, t.cols.Keys))
    ensures r.Err? && (forall n :: n in Encoded ==> n in t.cols) ==>
      r.error.WrongType? && r.error.name in Encoded && t.cols[r.error.name].Nums?
    ensures r.Ok? ==>
      var c, d := r.value, AllDummies(t);
      && Valid(c) && c.height == t.height
      && (forall n :: n in c.cols <==> (n in t.cols && n !in Encoded) || n in NamesOf(d))
      && Holds(c, Dummies("Sex", t.cols["Sex"]))
      && Holds(c, Dummies("Embarked", t.cols["Embarked"]))
      && Holds(c, Dummies("Title", t.cols["Title"]))
      && (forall n :: n in t.cols && n !in Encoded && n !in NamesOf(d) ==> n in c.cols && c.cols[n] == t.cols[n])
  {
    if exists n :: n in Encoded && n !in t.cols then Err(MissingColumn(FirstAbsent(Encoded, t.cols.Keys)))
    else if t.cols["Sex"].Nums? then Err(WrongType("Sex"))
    else if t.cols["Embarked"].Nums? then Err(WrongType("Embarked"))
    else if t.cols["Title"].Nums? then Err(WrongType("Title"))
    else
      EncodeThree(t);
      Ok(EncodeAll(t))
  }

  /** With Title present and not numeric, get_dummies fails on Sex, then on
      Embarked: first for an absent column, then for a numeric one. */
  lemma GetDummiesErrorOrder(t: Table)
    requires Valid(t) && "Title" in t.cols && !t.cols["Title"].Nums?
    ensures "Sex" !in t.cols ==> GetDummies(t) == Err(MissingColumn("Sex"))
    ensures "Sex" in t.cols && "Embarked" !in t.cols ==> GetDummies(t) == Err(MissingColumn("Embarked"))
    ensures "Sex" in t.cols && "Embarked" in t.cols && t.cols["Sex"].Nums? ==> GetDummies(t) == Err(WrongType("Sex"))
    ensures "Sex" in t.cols && "Embarked" in t.cols && !t.cols["Sex"].Nums? && t.cols["Embarked"].Nums? ==>
      GetDummies(t) == Err(WrongType("Embarked"))
  {
    EncodedNames();
    assert Encoded[0] == "Sex" && Encoded[1..] == ["Embarked", "Title"];
    if "Sex" in t.cols && "Embarked" in t.cols {
      assert forall n :: n in Encoded ==> n in t.cols;
    }
  }

  /** Facts about the three encoded names that the solver does not see unaided. */
  lemma EncodedNames()
    ensures "Sex" != "Embarked" && "Sex" != "Title" && "Embarked" != "Title"
    ensures '_' !in "Sex" && '_' !in "Embarked" && '_' !in "Title"
    ensures "Sex"[0] == 'S' && "Embarked"[0] == 'E' && "Title"[0] == 'T'
    ensures forall n :: n in Encoded <==> n == "Sex" || n == "Embarked" || n == "Title"
  {
  }

  /** The Embarked and Title columns survive the encoding of the columns before them. */
  lemma EncodeKeepsLater(t: Table)
    requires Valid(t) && Encodable(t)
    ensures "Embarked" in EncodeColumn(t, "Sex").cols
    ensures EncodeColumn(t, "Sex").cols["Embarked"] == t.cols["Embarked"]
    ensures "Title" in EncodeColumn(EncodeColumn(t, "Sex"), "Embarked").cols
    ensures EncodeColumn(EncodeColumn(t, "Sex"), "Embarked").cols["Title"] == t.cols["Title"]
  {
    EncodedNames();
    PlainNameIsNoDummy("Sex", t.cols["Sex"], "Embarked");
    PlainNameIsNoDummy("Sex", t.cols["Sex"], "Title");
    PlainNameIsNoDummy("Embarked", t.cols["Embarked"], "Title");
  }

  /** Where the names of all dummy columns can come from. */
  lemma AllDummyNames(t: Table)
    requires Valid(t) && Encodable(t)
    ensures var ds, de, dt := Dummies("Sex", t.cols["Sex"]), Dummies("Embarked", t.cols["Embarked"]), Dummies("Title", t.cols["Title"]);
      NamesOf(AllDummies(t)) == NamesOf(ds) + NamesOf(de) + NamesOf(dt)
  {
    var ds, de, dt := Dummies("Sex", t.cols["Sex"]), Dummies("Embarked", t.cols["Embarked"]), Dummies("Title", t.cols["Title"]);
    NamesOfConcat(ds, de);
    NamesOfConcat(ds + de, dt);
  }

  /** Sex, then Embarked, then Title encoded one after another. */
  function EncodeAll(t: Table): (r: Table)
    requires Valid(t) && Encodable(t)
    ensures Valid(r) && r.height == t.height
  {
    EncodeKeepsLater(t);
    EncodeColumn(EncodeColumn(EncodeColumn(t, "Sex"), "Embarked"), "Title")
  }

  lemma EncodeThree(t: Table)
    requires Valid(t) && Encodable(t)
    ensures var c, d := EncodeAll(t), AllDummies(t);
      && (forall n :: n in c.cols <==> (n in t.cols && n !in Encoded) || n in NamesOf(d))
      && Holds(c, Dummies("Sex", t.cols["Sex"]))
      && Holds(c, Dummies("Embarked", t.cols["Embarked"]))
      && Holds(c, Dummies("Title", t.cols["Title"]))
      && (forall n :: n in t.cols && n !in Encoded && n !in NamesOf(d) ==> n in c.cols && c.cols[n] == t.cols[n])
  {
    EncodedKeys(t);
    EncodedOthers(t);
    KeptSex(t);
    KeptEmbarked(t);
    KeptTitle(t);
  }

  /** A name without an underscore is the name of none of the dummy columns. */
  lemma PlainNameIsNoneOfAllDummies(t: Table)
    requires Valid(t) && Encodable(t)
    ensures forall n :: '_' !in n ==> n !in NamesOf(AllDummies(t))
  {
    AllDummyNames(t);
    forall n | '_' !in n ensures n !in NamesOf(AllDummies(t)) {
      PlainNameIsNoDummy("Sex", t.cols["Sex"], n);
      PlainNameIsNoDummy("Embarked", t.cols["Embarked"], n);
      PlainNameIsNoDummy("Title", t.cols["Title"], n);
    }
  }

  /** A name without an underscore that get_dummies does not encode is present
      afterwards exactly when it was before, with the same cells. */
  lemma PlainNameKept(t: Table, n: string)
    requires Valid(t) && Encodable(t) && '_' !in n && n !in Encoded
    ensures var c := GetDummies(t).value;
      && (n in c.cols <==> n in t.cols)
      && (n in t.cols ==> c.cols[n] == t.cols[n])
  {
    PlainNameIsNoneOfAllDummies(t);
  }

  /** No encoded column is left after get_dummies. */
  lemma EncodedNameGone(t: Table, n: string)
    requires Valid(t) && Encodable(t) && n in Encoded
    ensures n !in GetDummies(t).value.cols
  {
    EncodedNames();
    PlainNameIsNoneOfAllDummies(t);
  }

  /** Dummy names never clash with an encoded name or with the dummies of another prefix. */
  lemma NamesApart(t: Table)
    requires Valid(t) && Encodable(t)
    ensures var ns, ne, nt := NamesOf(Dummies("Sex", t.cols["Sex"])), NamesOf(Dummies("Embarked", t.cols["Embarked"])), NamesOf(Dummies("Title", t.cols["Title"]));
      && (forall n :: n in ns ==> n !in Encoded && n !in ne && n !in nt)
      && (forall n :: n in ne ==> n !in Encoded && n !in nt)
      && (forall n :: n in nt ==> n !in Encoded)
  {
    EncodedNames();
    var sex, emb, tit := t.cols["Sex"], t.cols["Embarked"], t.cols["Title"];
    PlainNameIsNoDummy("Sex", sex, "Sex");
    PlainNameIsNoDummy("Sex", sex, "Embarked");
    PlainNameIsNoDummy("Sex", sex, "Title");
    PlainNameIsNoDummy("Embarked", emb, "Sex");
    PlainNameIsNoDummy("Embarked", emb, "Embarked");
    PlainNameIsNoDummy("Embarked", emb, "Title");
    PlainNameIsNoDummy("Title", tit, "Sex");
    PlainNameIsNoDummy("Title", tit, "Embarked");
    PlainNameIsNoDummy("Title", tit, "Title");
    DummiesOfOtherPrefix("Sex", "Embarked", sex, emb);
    DummiesOfOtherPrefix("Sex", "Title", sex, tit);
    DummiesOfOtherPrefix("Embarked", "Title", emb, tit);
  }
  lemma EncodedKeys(t: Table)
    requires Valid(t) && Encodable(t)
    ensures var c := EncodeAll(t);
      forall n :: n in c.cols <==> (n in t.cols && n !in Encoded) || n in NamesOf(AllDummies(t))
  {
    EncodedNames();
    EncodeKeepsLater(t);
    AllDummyNames(t);
    NamesApart(t);
  }

  lemma EncodedOthers(t: Table)
    requires Valid(t) && Encodable(t)
    ensures var c := EncodeAll(t);
      forall n :: n in t.cols && n !in Encoded && n !in NamesOf(AllDummies(t)) ==> n in c.cols && c.cols[n] == t.cols[n]
  {
    EncodedNames();
    EncodeKeepsLater(t);
    AllDummyNames(t);
  }

  /** The table stores every named column of ps under its name. */
  predicate Holds(c: Table, ps: seq<(string, Column)>) {
    forall k :: 0 <= k < |ps| ==> ps[k].0 in c.cols && c.cols[ps[k].0] == ps[k].1
  }

  /** Columns that already hold given dummies keep them when a column whose dummy
      names differ from theirs is encoded. */
  lemma KeptThrough(t: Table, name: string, d: seq<(string, Column)>)
    requires Valid(t) && name in t.cols && !t.cols[name].Nums?
    requires forall k :: 0 <= k < |d| ==> d[k].0 in t.cols && t.cols[d[k].0] == d[k].1
    requires forall n :: n in NamesOf(d) ==> n != name && n !in NamesOf(Dummies(name, t.cols[name]))
    ensures Holds(EncodeColumn(t, name), d)
  {
    forall k | 0 <= k < |d| ensures d[k].0 in EncodeColumn(t, name).cols && EncodeColumn(t, name).cols[d[k].0] == d[k].1 {
      assert NamesOf(d)[k] == d[k].0;
    }
  }

  /** The dummy columns of Sex, Embarked and Title are all still there at the end. */
  lemma KeptSex(t: Table)
    requires Valid(t) && Encodable(t)
    ensures Holds(EncodeAll(t), Dummies("Sex", t.cols["Sex"]))
  {
    EncodeKeepsLater(t);
    NamesApart(t);
    var t1 := EncodeColumn(t, "Sex");
    var t2 := EncodeColumn(t1, "Embarked");
    var ds := Dummies("Sex", t.cols["Sex"]);
    assert forall k :: 0 <= k < |ds| ==> ds[k].0 in t1.cols && t1.cols[ds[k].0] == ds[k].1;
    KeptThrough(t1, "Embarked", ds);
    KeptThrough(t2, "Title", ds);
  }

  lemma KeptEmbarked(t: Table)
    requires Valid(t) && Encodable(t)
    ensures Holds(EncodeAll(t), Dummies("Embarked", t.cols["Embarked"]))
  {
    EncodeKeepsLater(t);
    NamesApart(t);
    var t2 := EncodeColumn(EncodeColumn(t, "Sex"), "Embarked");
    var de := Dummies("Embarked", t.cols["Embarked"]);
    assert forall k :: 0 <= k < |de| ==> de[k].0 in t2.cols && t2.cols[de[k].0] == de[k].1;
    KeptThrough(t2, "Title", de);
  }

  lemma KeptTitle(t: Table)
    requires Valid(t) && Encodable(t)
    ensures Holds(EncodeAll(t), Dummies("Title", t.cols["Title"]))
  {
    EncodeKeepsLater(t);
  }
}
