/** The orders pandas sorts by: strings by code point, lexicographically (Python's
    `<` on str), numbers by value, False before True. Used for the sorted category
    list of get_dummies, the tie-break of mode() and the group keys of groupby. */
module Order {
  import opened Frame

  /** Python's `a < b` on strings. */
  predicate StrLess(a: string, b: string)
    decreases |a|
  {
    if a == [] then b != []
    else if b == [] then false
    else if a[0] != b[0] then a[0] < b[0]
    else StrLess(a[1..], b[1..])
  }

  lemma {:induction false} StrLessIrreflexive(a: string)
    ensures !StrLess(a, a)
    decreases |a|
  {
    if a != [] { StrLessIrreflexive(a[1..]); }
  }

  lemma {:induction false} StrLessTransitive(a: string, b: string, c: string)
    requires StrLess(a, b) && StrLess(b, c)
    ensures StrLess(a, c)
    decreases |a|
  {
    if a != [] && a[0] == b[0] && b[0] == c[0] {
      StrLessTransitive(a[1..], b[1..], c[1..]);
    }
  }

  lemma {:induction false} StrLessTotal(a: string, b: string)
    ensures a == b || StrLess(a, b) || StrLess(b, a)
    decreases |a|
  {
    if a != [] && b != [] && a[0] == b[0] {
      StrLessTotal(a[1..], b[1..]);
      if a[1..] == b[1..] {
        assert a == [a[0]] + a[1..] && b == [b[0]] + b[1..];
      }
    }
  }

  /** Cells of different dtypes never share a column; any fixed order among the
      dtypes keeps CellLess total. */
  function Rank(c: Cell): nat {
    match c
    case NumCell(_) => 0
    case StrCell(_) => 1
    case FlagCell(_) => 2
  }

  predicate CellLess(a: Cell, b: Cell) {
    match (a, b)
    case (NumCell(x), NumCell(y)) => x < y
    case (StrCell(s), StrCell(t)) => StrLess(s, t)
    case (FlagCell(p), FlagCell(q)) => !p && q
    case _ => Rank(a) < Rank(b)
  }

  lemma CellLessIrreflexive(a: Cell)
    ensures !CellLess(a, a)
  {
    if a.StrCell? { StrLessIrreflexive(a.s); }
  }

  lemma CellLessTransitive(a: Cell, b: Cell, c: Cell)
    requires CellLess(a, b) && CellLess(b, c)
    ensures CellLess(a, c)
  {
    if a.StrCell? && b.StrCell? && c.StrCell? { StrLessTransitive(a.s, b.s, c.s); }
  }

  lemma CellLessTotal(a: Cell, b: Cell)
    ensures a == b || CellLess(a, b) || CellLess(b, a)
  {
    if a.StrCell? && b.StrCell? { StrLessTotal(a.s, b.s); }
  }

  predicate StrictlySorted(cs: seq<Cell>) {
    forall i, j :: 0 <= i < j < |cs| ==> CellLess(cs[i], cs[j])
  }

  /** Adds x to a strictly sorted list unless it is already there. */
  function InsertCell(x: Cell, s: seq<Cell>): (r: seq<Cell>)
    requires StrictlySorted(s)
    ensures StrictlySorted(r)
    ensures forall c :: c in r <==> c == x || c in s
  {
    if s == [] then [x]
    else if x == s[0] then s
    else if CellLess(x, s[0]) then
      assert forall j :: 0 <= j < |s| ==> CellLess(x, s[j]) by {
        forall j | 0 <= j < |s| ensures CellLess(x, s[j]) {
          if j > 0 { CellLessTransitive(x, s[0], s[j]); }
        }
      }
      [x] + s
    else
      CellLessTotal(x, s[0]);
      var rest := InsertCell(x, s[1..]);
      assert forall c :: c in rest ==> CellLess(s[0], c);
      [s[0]] + rest
  }

  /** The distinct values of cs in ascending order (the categories pandas
      factorises with sort=True). */
  function SortedDistinct(cs: seq<Cell>): (r: seq<Cell>)
    ensures StrictlySorted(r)
    ensures forall c :: c in r <==> c in cs
    ensures |r| <= |cs|
  {
    if cs == [] then []
    else
      var rest := SortedDistinct(cs[1..]);
      var r := InsertCell(cs[0], rest);
      assert |r| <= |rest| + 1 by { InsertCellLength(cs[0], rest); }
      r
  }

  lemma {:induction false} InsertCellLength(x: Cell, s: seq<Cell>)
    requires StrictlySorted(s)
    ensures |InsertCell(x, s)| <= |s| + 1
    decreases |s|
  {
    if s != [] && x != s[0] && !CellLess(x, s[0]) {
      InsertCellLength(x, s[1..]);
    }
  }

  /** A strictly sorted list holds no value twice. */
  lemma StrictlySortedDistinct(cs: seq<Cell>, i: int, j: int)
    requires StrictlySorted(cs) && 0 <= i < |cs| && 0 <= j < |cs| && i != j
    ensures cs[i] != cs[j]
  {
    if i < j { CellLessIrreflexive(cs[i]); } else { CellLessIrreflexive(cs[j]); }
  }

  predicate Sorted(s: seq<real>) {
    forall i, j :: 0 <= i < j < |s| ==> s[i] <= s[j]
  }

  /** The head of a non-empty sorted list is its least value. */
  lemma SortedHeadLeast(s: seq<real>)
    requires Sorted(s)
    ensures forall v :: v in s ==> s[0] <= v
  {
    forall v | v in s ensures s[0] <= v {
      var k :| 0 <= k < |s| && s[k] == v;
    }
  }

  /** A multiset has exactly one ascending arrangement. */
  lemma {:induction false} SortedUnique(a: seq<real>, b: seq<real>)
    requires Sorted(a) && Sorted(b) && multiset(a) == multiset(b)
    ensures a == b
  {
    assert |a| == |multiset(a)| == |multiset(b)| == |b|;
    if a != [] {
      SortedHead(a);
      SortedHead(b);
      var x, y := a[0], b[0];
      assert x <= y by { assert y in multiset(a); }
      assert y <= x by { assert x in multiset(b); }
      var ta, tb := a[1..], b[1..];
      assert multiset(ta) == multiset(tb);
      SortedUnique(ta, tb);
      assert a == [x] + ta;
      assert b == [y] + tb;
    }
  }

  /** The head of a sorted list is at most every value, and the rest is a
      sorted list of the remaining values. */
  lemma SortedHead(s: seq<real>)
    requires Sorted(s) && s != []
    ensures forall v :: v in multiset(s) ==> s[0] <= v
    ensures Sorted(s[1..]) && multiset(s[1..]) == multiset(s) - multiset{s[0]}
  {
    forall v | v in multiset(s) ensures s[0] <= v {
      assert v in s;
      var k :| 0 <= k < |s| && s[k] == v;
    }
    assert s == [s[0]] + s[1..];
  }

  /** Putting a lower bound of a sorted list in front keeps it sorted. */
  lemma SortedCons(x: real, s: seq<real>)
    requires Sorted(s) && forall v :: v in s ==> x <= v
    ensures Sorted([x] + s)
  {
    var r := [x] + s;
    forall i, j | 0 <= i < j < |r| ensures r[i] <= r[j] {
      assert r[j] == s[j - 1] && s[j - 1] in s;
      if i > 0 { assert r[i] == s[i - 1]; }
    }
  }

  function InsertReal(x: real, s: seq<real>): (r: seq<real>)
    requires Sorted(s)
    ensures Sorted(r)
    ensures |r| == |s| + 1
    ensures forall v :: v in r <==> v == x || v in s
    ensures multiset(r) == multiset(s) + multiset{x}
  {
    if s == [] || x <= s[0] then
      SortedHeadLeast(s);
      SortedCons(x, s);
      [x] + s
    else
      var rest := InsertReal(x, s[1..]);
      assert s == [s[0]] + s[1..];
      SortedHeadLeast(s);
      SortedCons(s[0], rest);
      [s[0]] + rest
  }

  /** The values of xs in ascending order (insertion sort). */
  function SortReals(xs: seq<real>): (r: seq<real>)
    ensures Sorted(r)
    ensures |r| == |xs|
    ensures multiset(r) == multiset(xs)
  {
    if xs == [] then []
    else
      assert xs == [xs[0]] + xs[1..];
      InsertReal(xs[0], SortReals(xs[1..]))
  }
}
