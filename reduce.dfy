/** reduce_data (dpre.py): keep the allow-listed features that exist, in the
    order of the allow-list. */
module Reduce {
  import opened Frame

  /** The thirteen features a reduced table may hold. */
  const Important: seq<string> := [
    "Survived", "Pclass", "Age", "Fare", "FamilySize", "IsAlone",
    "Sex_male", "Embarked_Q", "Embarked_S", "Title_Miss", "Title_Mr", "Title_Mrs", "Title_Rare"]

  /** `[col for col in ns if col in have]`. */
  function Keep(ns: seq<string>, have: set<string>): (r: seq<string>)
    ensures |r| <= |ns|
    ensures forall n :: n in r <==> n in ns && n in have
    ensures Distinct(ns) ==> Distinct(r)
  {
    if ns == [] then []
    else (if ns[0] in have then [ns[0]] else []) + Keep(ns[1..], have)
  }

  /** Keeping distributes over concatenation, so the kept names of an earlier
      part of the list come before those of a later part. */
  lemma {:induction false} KeepConcat(a: seq<string>, b: seq<string>, have: set<string>)
    ensures Keep(a + b, have) == Keep(a, have) + Keep(b, have)
  {
    if a != [] {
      assert (a + b)[0] == a[0] && (a + b)[1..] == a[1..] + b;
      KeepConcat(a[1..], b, have);
    } else {
      assert a + b == b;
    }
  }

  /** Keeping what is kept again changes nothing. */
  lemma {:induction false} KeepIdempotent(ns: seq<string>, have: set<string>)
    ensures Keep(Keep(ns, have), have) == Keep(ns, have)
  {
    if ns != [] {
      KeepIdempotent(ns[1..], have);
      var rest := Keep(ns[1..], have);
      if ns[0] in have {
        var k := [ns[0]] + rest;
        assert Keep(ns, have) == k;
        assert k[0] == ns[0] && k[1..] == rest;
        assert Keep(k, have) == [ns[0]] + Keep(rest, have);
      } else {
        assert Keep(ns, have) == rest;
      }
    }
  }

  /** When every listed name is available all of them are kept, in order. */
  lemma {:induction false} KeepAll(ns: seq<string>, have: set<string>)
    requires forall n :: n in ns ==> n in have
    ensures Keep(ns, have) == ns
  {
    if ns != [] {
      assert forall n :: n in ns[1..] ==> n in ns;
      KeepAll(ns[1..], have);
      assert ns == [ns[0]] + ns[1..];
    }
  }

  lemma ImportantDistinct()
    ensures Distinct(Important)
  {
  }

  /** The allow-listed columns the table has, in allow-list order. */
  function Selected(t: Table): (r: seq<string>)
    ensures forall n :: n in r <==> n in Important && n in t.cols
    ensures Distinct(r)
  {
    ImportantDistinct();
    Keep(Important, t.cols.Keys)
  }

  /** reduce_data never fails: it keeps exactly the allow-listed columns that
      exist, in allow-list order, with their cells and all rows. */
  function ReduceData(t: Table): (r: Table)
    requires Valid(t)
    ensures Valid(r) && r.height == t.height
    ensures r.names == Keep(Important, t.cols.Keys)
    ensures forall n :: n in r.cols <==> n in Important && n in t.cols
    ensures forall n :: n in r.cols ==> r.cols[n] == t.cols[n]
  {
    Project(t, Selected(t))
  }

  /** Reducing a reduced table changes nothing. */
  lemma ReduceIdempotent(t: Table)
    requires Valid(t)
    ensures ReduceData(ReduceData(t)) == ReduceData(t)
  {
    var r := ReduceData(t);
    KeepSameMembers(Important, r.cols.Keys, t.cols.Keys);
    assert Selected(r) == r.names;
    ProjectAll(r);
  }

  /** Keep depends only on which listed names are available. */
  lemma {:induction false} KeepSameMembers(ns: seq<string>, a: set<string>, b: set<string>)
    requires forall n :: n in ns ==> (n in a <==> n in b)
    ensures Keep(ns, a) == Keep(ns, b)
  {
    if ns != [] {
      assert forall n :: n in ns[1..] ==> n in ns;
      KeepSameMembers(ns[1..], a, b);
    }
  }

  /** A table with every allow-listed feature is reduced to exactly the
      allow-list. */
  lemma ReduceFull(t: Table)
    requires Valid(t) && forall n :: n in Important ==> n in t.cols
    ensures ReduceData(t).names == Important
  {
    KeepAll(Important, t.cols.Keys);
  }
}
