/** The in-memory table every stage consumes and produces: an ordered list of
    column names, one typed column per name, and a row count. Each stage returns
    a new table, so the caller's table is never changed. */
module Frame {
  import opened Wrappers

  /** A value a cell holds when it is not missing (NaN / None). */
  datatype Cell = NumCell(x: real) | StrCell(s: string) | FlagCell(b: bool)

  /** A column of one dtype: a numeric column (int64 / float64, possibly NaN),
      an object column of strings (possibly None) or a bool column (never missing). */
  datatype Column =
    | Nums(xs: seq<Option<real>>)
    | Strs(ss: seq<Option<string>>)
    | Flags(bs: seq<bool>)
  {
    function Len(): nat {
      match this
      case Nums(xs) => |xs|
      case Strs(ss) => |ss|
      case Flags(bs) => |bs|
    }

    /** The cell in row i, or None when it is missing. */
    function At(i: nat): Option<Cell>
      requires i < Len()
    {
      match this
      case Nums(xs) => if xs[i].Some? then Some(NumCell(xs[i].value)) else None
      case Strs(ss) => if ss[i].Some? then Some(StrCell(ss[i].value)) else None
      case Flags(bs) => Some(FlagCell(bs[i]))
    }

    /** Whether a cell has this column's dtype, so that it can be stored in it. */
    predicate Admits(c: Cell) {
      match this
      case Nums(_) => c.NumCell?
      case Strs(_) => c.StrCell?
      case Flags(_) => c.FlagCell?
    }
  }

  /** Why a stage stops: a KeyError for an absent column, a TypeError for a column
      of the wrong dtype, and the data-dependent failures of the later stages. */
  datatype Error =
    | MissingColumn(name: string)
    | WrongType(name: string)
    | EmptyMode(name: string)
    | DuplicateEdges(name: string)
    | NoFeatures
    | NotFinite(name: string)
    | TooFewRows
    | EmptyCluster(id: nat)
    | MissingGroup(name: string)

  /** The values of the present cells, in order. */
  function Somes<T(!new)>(xs: seq<Option<T>>): (r: seq<T>)
    ensures |r| <= |xs|
    ensures forall v :: v in r <==> Some(v) in xs
    ensures (forall i :: 0 <= i < |xs| ==> xs[i].Some?) ==> |r| == |xs|
  {
    if xs == [] then []
    else (if xs[0].Some? then [xs[0].value] else []) + Somes(xs[1..])
  }

  /** The cells of a column, row by row. */
  function Cells(col: Column): (r: seq<Option<Cell>>)
    ensures |r| == col.Len()
    ensures forall i :: 0 <= i < col.Len() ==> r[i] == col.At(i)
  {
    seq(col.Len(), i requires 0 <= i < col.Len() => col.At(i))
  }

  /** The present cells of a column, in row order. */
  function Present(col: Column): (r: seq<Cell>)
    ensures forall c :: c in r ==> col.Admits(c)
    ensures forall c :: c in r <==> exists i :: 0 <= i < col.Len() && col.At(i) == Some(c)
  {
    var cs := Cells(col);
    assert forall c :: Some(c) in cs <==> exists i :: 0 <= i < col.Len() && col.At(i) == Some(c) by {
      forall c ensures Some(c) in cs <==> exists i :: 0 <= i < col.Len() && col.At(i) == Some(c) {
        if Some(c) in cs {
          var i :| 0 <= i < |cs| && cs[i] == Some(c);
          assert col.At(i) == Some(c);
        }
      }
    }
    Somes(cs)
  }

  /** The column with every missing cell replaced by c (pandas fillna). */
  function Fill(col: Column, c: Cell): (r: Column)
    requires col.Admits(c)
    ensures r.Len() == col.Len()
    ensures forall i :: 0 <= i < col.Len() ==>
      r.At(i) == if col.At(i).Some? then col.At(i) else Some(c)
    ensures forall d :: r.Admits(d) == col.Admits(d)
  {
    match col
    case Nums(xs) => Nums(seq(|xs|, i requires 0 <= i < |xs| => if xs[i].Some? then xs[i] else Some(c.x)))
    case Strs(ss) => Strs(seq(|ss|, i requires 0 <= i < |ss| => if ss[i].Some? then ss[i] else Some(c.s)))
    case Flags(bs) => col
  }

  datatype Table = Table(names: seq<string>, cols: map<string, Column>, height: nat)

  predicate Distinct(ns: seq<string>) {
    forall i, j :: 0 <= i < j < |ns| ==> ns[i] != ns[j]
  }

  /** Column names are distinct, name exactly the stored columns, and every column
      has one cell per row. */
  ghost predicate Valid(t: Table) {
    && Distinct(t.names)
    && (forall n :: n in t.names <==> n in t.cols)
    && (forall n :: n in t.cols ==> t.cols[n].Len() == t.height)
  }

  /** `df[name] = c`: an existing column is replaced where it stands, a new one is
      appended at the end. */
  function SetColumn(t: Table, name: string, c: Column): (r: Table)
    requires Valid(t) && c.Len() == t.height
    ensures Valid(r) && r.height == t.height
    ensures r.cols == t.cols[name := c]
    ensures r.names == if name in t.cols then t.names else t.names + [name]
  {
    Table(if name in t.cols then t.names else t.names + [name], t.cols[name := c], t.height)
  }

  /** Two columns stored one after another under two different names. */
  function SetTwo(t: Table, a: string, ca: Column, b: string, cb: Column): (r: Table)
    requires Valid(t) && ca.Len() == t.height && cb.Len() == t.height && a != b
    ensures Valid(r) && r.height == t.height
    ensures forall n :: n in r.cols <==> n in t.cols || n == a || n == b
    ensures a in r.cols && r.cols[a] == ca && b in r.cols && r.cols[b] == cb
    ensures forall n :: n in t.cols && n != a && n != b ==> n in r.cols && r.cols[n] == t.cols[n]
  {
    SetColumn(SetColumn(t, a, ca), b, cb)
  }

  /** The names not in `gone`, in their original order. */
  function Exclude(ns: seq<string>, gone: seq<string>): (r: seq<string>)
    ensures forall n :: n in r <==> n in ns && n !in gone
    ensures Distinct(ns) ==> Distinct(r)
  {
    if ns == [] then []
    else (if ns[0] in gone then [] else [ns[0]]) + Exclude(ns[1..], gone)
  }

  /** `df.drop(gone, axis=1)`: a KeyError unless every listed column exists;
      otherwise the other columns, in their order, with their cells. */
  function DropAll(t: Table, gone: seq<string>): (r: Result<Table, Error>)
    requires Valid(t)
    ensures r.Ok? <==> forall n :: n in gone ==> n in t.cols
    ensures r.Err? ==> r.error.MissingColumn? && r.error.name in gone && r.error.name !in t.cols
    ensures r.Ok? ==> && Valid(r.value) && r.value.height == t.height
                      && r.value.names == Exclude(t.names, gone)
                      && (forall n :: n in r.value.cols <==> n in t.cols && n !in gone)
                      && (forall n :: n in r.value.cols ==> r.value.cols[n] == t.cols[n])
  {
    if forall n :: n in gone ==> n in t.cols then
      Ok(Table(Exclude(t.names, gone), map n | n in t.cols && n !in gone :: t.cols[n], t.height))
    else
      Err(MissingColumn(FirstAbsent(gone, t.cols.Keys)))
  }

  /** `df.drop(name, axis=1)`: a KeyError when the column does not exist. */
  function Drop(t: Table, name: string): (r: Result<Table, Error>)
    requires Valid(t)
    ensures r.Ok? <==> name in t.cols
    ensures r.Err? ==> r.error == MissingColumn(name)
    ensures r.Ok? ==> && Valid(r.value) && r.value.height == t.height
                      && r.value.names == Exclude(t.names, [name])
                      && r.value.cols == t.cols - {name}
  {
    if name in t.cols then Ok(Table(Exclude(t.names, [name]), t.cols - {name}, t.height))
    else Err(MissingColumn(name))
  }

  /** The first name of ns that is not in have. */
  function FirstAbsent(ns: seq<string>, have: set<string>): (m: string)
    requires exists n :: n in ns && n !in have
    ensures m in ns && m !in have
  {
    if ns[0] !in have then ns[0] else FirstAbsent(ns[1..], have)
  }

  /** `df[ns]` for names that all exist: those columns, in the order of ns. */
  function Project(t: Table, ns: seq<string>): (r: Table)
    requires Valid(t) && Distinct(ns) && forall n :: n in ns ==> n in t.cols
    ensures Valid(r) && r.height == t.height && r.names == ns
    ensures forall n :: n in r.cols ==> n in t.cols && r.cols[n] == t.cols[n]
  {
    Table(ns, map n | n in ns :: t.cols[n], t.height)
  }

  /** Splitting the head off a concatenation. */
  lemma TailOfConcat<T>(a: seq<T>, b: seq<T>)
    requires a != []
    ensures (a + b)[0] == a[0] && (a + b)[1..] == a[1..] + b
    ensures forall x :: x in a[1..] ==> x in a
  {
  }

  lemma AppendAssoc<T>(a: seq<T>, b: seq<T>, c: seq<T>)
    ensures a + (b + c) == (a + b) + c
  {
  }

  /** Projecting a table onto its own column list gives the table back. */
  lemma ProjectAll(t: Table)
    requires Valid(t)
    ensures Project(t, t.names) == t
  {
    var p := Project(t, t.names);
    assert p.cols.Keys == t.cols.Keys;
    assert p.cols == t.cols;
  }
}
