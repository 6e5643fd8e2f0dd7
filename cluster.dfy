/** The stateable steps of implement_kmeans (model.py) around the scaler and
    k-means calls: the choice of features, the mean imputation of the feature
    matrix, and the per-cluster summary for cluster labels that k-means returns. */
module Cluster {
  import opened Wrappers
  import opened Frame
  import opened Stats

  /** The number of clusters k-means is asked for. */
  const K: nat := 3

  /** A column name that may be a clustering feature: not the outcome and not an
      indicator column (those carry an underscore). */
  predicate FeatureName(n: string) {
    n != "Survived" && '_' !in n
  }

  /** The numeric columns in table order, minus Survived and minus every name
      with an underscore (the two list comprehensions). */
  function Features(t: Table): (fs: seq<string>)
    requires Valid(t)
    ensures forall n :: n in fs <==> n in t.cols && t.cols[n].Nums? && FeatureName(n)
    ensures Distinct(fs)
  {
    Candidates(t.names, t.cols)
  }

  /** The candidates among ns, in the order of ns. */
  function Candidates(ns: seq<string>, cols: map<string, Column>): (fs: seq<string>)
    requires forall n :: n in ns ==> n in cols
    ensures forall n :: n in fs <==> n in ns && cols[n].Nums? && FeatureName(n)
    ensures Distinct(ns) ==> Distinct(fs)
    ensures |fs| <= |ns|
  {
    if ns == [] then []
    else
      (if cols[ns[0]].Nums? && FeatureName(ns[0]) then [ns[0]] else []) + Candidates(ns[1..], cols)
  }

  /** Candidates keep the order of the table: they distribute over a split of
      the names. */
  lemma {:induction false} CandidatesConcat(a: seq<string>, b: seq<string>, cols: map<string, Column>)
    requires forall n :: n in a ==> n in cols
    requires forall n :: n in b ==> n in cols
    ensures Candidates(a + b, cols) == Candidates(a, cols) + Candidates(b, cols)
  {
    if a == [] {
      assert a + b == b;
    } else {
      TailOfConcat(a, b);
      CandidatesConcat(a[1..], b, cols);
      var h := if cols[a[0]].Nums? && FeatureName(a[0]) then [a[0]] else [];
      assert Candidates(a, cols) == h + Candidates(a[1..], cols);
      AppendAssoc(h, Candidates(a[1..], cols), Candidates(b, cols));
    }
  }

  /** Neither the outcome nor any indicator column is ever a feature. */
  lemma FeaturesExclude(t: Table)
    requires Valid(t)
    ensures "Survived" !in Features(t)
    ensures forall n :: n in Features(t) ==> '_' !in n && n in t.cols
  {
  }

  /** The feature matrix X: the feature columns with each missing cell set to the
      column's mean over its present cells (X.fillna(X.mean())). A column without
      any present cell has a NaN mean and stays as it is. */
  function ImputeMean(col: Column): (r: Column)
    requires col.Nums?
    ensures r.Nums? && r.Len() == col.Len()
    ensures Somes(col.xs) == [] ==> r == col
    ensures Somes(col.xs) != [] ==> forall i :: 0 <= i < col.Len() ==>
      r.xs[i] == if col.xs[i].Some? then col.xs[i] else Some(Mean(Somes(col.xs)))
  {
    var present := Somes(col.xs);
    if present == [] then col else Fill(col, NumCell(Mean(present)))
  }

  /** After imputation a column with at least one present value has no missing
      value, and every filled cell lies between the smallest and largest present
      value. */
  lemma ImputedComplete(col: Column, i: nat)
    requires col.Nums? && Somes(col.xs) != [] && i < col.Len()
    ensures ImputeMean(col).xs[i].Some?
    ensures col.xs[i].None? ==>
      Min(Somes(col.xs)) <= ImputeMean(col).xs[i].value <= Max(Somes(col.xs))
  {
  }

  /** X = df[features] with its missing values imputed. */
  function FeatureMatrix(t: Table, fs: seq<string>): (r: Table)
    requires Valid(t) && Distinct(fs) && forall n :: n in fs ==> n in t.cols && t.cols[n].Nums?
    ensures Valid(r) && r.height == t.height && r.names == fs
    ensures forall n :: n in r.cols <==> n in fs
    ensures forall n :: n in fs ==> r.cols[n] == ImputeMean(t.cols[n])
  {
    Table(fs, map n | n in fs :: ImputeMean(t.cols[n]), t.height)
  }

  /** Why the scaler and k-means reject X: no rows, a feature that is still NaN
      after imputation (it had no value at all), or fewer rows than clusters. */
  function CheckMatrix(t: Table, fs: seq<string>): (r: Option<Error>)
    requires Valid(t) && forall n :: n in fs ==> n in t.cols && t.cols[n].Nums?
    ensures r.None? <==> t.height >= K && forall n :: n in fs ==> Somes(t.cols[n].xs) != []
    ensures r.Some? && t.height > 0 && (exists n :: n in fs && Somes(t.cols[n].xs) == []) ==>
      r.value.NotFinite? && r.value.name in fs && Somes(t.cols[r.value.name].xs) == []
    ensures r.Some? && (t.height == 0 || forall n :: n in fs ==> Somes(t.cols[n].xs) != []) ==> r == Some(TooFewRows)
  {
    if t.height == 0 then Some(TooFewRows)
    else if exists n :: n in fs && Somes(t.cols[n].xs) == [] then
      Some(NotFinite(FirstUnfilled(t, fs)))
    else if t.height < K then Some(TooFewRows)
    else None
  }

  /** The first feature without any present value: it stays NaN after imputation. */
  function FirstUnfilled(t: Table, fs: seq<string>): (n: string)
    requires Valid(t) && forall n :: n in fs ==> n in t.cols && t.cols[n].Nums?
    requires exists n :: n in fs && Somes(t.cols[n].xs) == []
    ensures n in fs && Somes(t.cols[n].xs) == []
  {
    if Somes(t.cols[fs[0]].xs) == [] then fs[0] else FirstUnfilled(t, fs[1..])
  }

  /** A matrix that passes the check has no missing cell at all. */
  lemma CheckedMatrixComplete(t: Table, fs: seq<string>)
    requires Valid(t) && Distinct(fs) && forall n :: n in fs ==> n in t.cols && t.cols[n].Nums?
    requires CheckMatrix(t, fs).None?
    ensures forall n, i :: n in fs && 0 <= i < t.height ==> FeatureMatrix(t, fs).cols[n].xs[i].Some?
  {
    forall n, i | n in fs && 0 <= i < t.height ensures FeatureMatrix(t, fs).cols[n].xs[i].Some? {
      ImputedComplete(t.cols[n], i);
    }
  }

  /** Cluster labels as k-means returns them: one per row, each below K. */
  predicate IsLabelling(labels: seq<nat>, height: nat) {
    |labels| == height && forall i :: 0 <= i < |labels| ==> labels[i] < K
  }

  /** Every row is counted in exactly one cluster, so the cluster sizes add up to
      the number of rows. */
  lemma {:induction false} SizesAddUp(labels: seq<nat>)
    requires forall i :: 0 <= i < |labels| ==> labels[i] < K
    ensures Occurrences<nat>(labels, 0) + Occurrences<nat>(labels, 1) + Occurrences<nat>(labels, 2) == |labels|
  {
    if labels != [] {
      assert forall i :: 0 <= i < |labels[1..]| ==> labels[1..][i] == labels[i + 1];
      SizesAddUp(labels[1..]);
    }
  }

  /** The mean of one numeric column over the rows of cluster c; it lies between
      the smallest and the largest present value of that cluster. */
  function ClusterMean(col: Column, labels: seq<nat>, c: nat): (r: Option<real>)
    requires col.Nums? && |labels| == col.Len()
    ensures r.None? <==> Somes(Where(col.xs, labels, c)) == []
    ensures r.Some? ==>
      var vs := Somes(Where(col.xs, labels, c));
      Min(vs) <= r.value <= Max(vs)
  {
    MeanOf(Where(col.xs, labels, c))
  }

  /** The outcome rate of a cluster lies in [0, 1] when every outcome is 0 or 1. */
  lemma RateIsProbability(col: Column, labels: seq<nat>, c: nat)
    requires col.Nums? && |labels| == col.Len()
    requires forall i :: 0 <= i < col.Len() && col.xs[i].Some? ==> col.xs[i].value == 0.0 || col.xs[i].value == 1.0
    requires ClusterMean(col, labels, c).Some?
    ensures 0.0 <= ClusterMean(col, labels, c).value <= 1.0
  {
    var xs := Where(col.xs, labels, c);
    forall v | Some(v) in xs ensures v == 0.0 || v == 1.0 {
      assert Some(v) in col.xs;
    }
    MeanOfOutcomes(xs);
  }

  /** What k.txt reports: the size of every cluster, the mean of every feature in
      every cluster (over the table as read, not the imputed matrix), and the
      outcome rate of every cluster when there is an outcome column. */
  datatype Summary = Summary(
    features: seq<string>,
    sizes: seq<nat>,
    means: seq<seq<Option<real>>>,
    rates: Option<seq<Option<real>>>)

  /** Every cluster has at least one row. */
  predicate NoneEmpty(labels: seq<nat>) {
    forall c: nat :: c < K ==> Occurrences<nat>(labels, c) > 0
  }

  /** The lowest cluster without a row, the first lookup of the per-cluster loop
      that fails. */
  function FirstEmpty(labels: seq<nat>): (r: Option<nat>)
    ensures r.None? <==> NoneEmpty(labels)
    ensures r.Some? ==> r.value < K && Occurrences<nat>(labels, r.value) == 0
                        && forall c: nat :: c < r.value ==> Occurrences<nat>(labels, c) > 0
  {
    var s0, s1, s2 := Occurrences<nat>(labels, 0), Occurrences<nat>(labels, 1), Occurrences<nat>(labels, 2);
    if s0 == 0 then Some(0)
    else if s1 == 0 then Some(1)
    else if s2 == 0 then Some(2)
    else None
  }

  /** implement_kmeans from the feature choice to the summary, with the labels
      k-means would assign as a parameter. NoFeatures when no column qualifies;
      the rejections of the scaler and k-means; an empty cluster makes the
      per-cluster lookup fail; an outcome column that is not numeric cannot be
      averaged. */
  function Summarize(t: Table, labels: seq<nat>): (r: Result<Summary, Error>)
    requires Valid(t) && IsLabelling(labels, t.height)
    ensures Features(t) == [] ==> r == Err(NoFeatures)
    ensures Features(t) != [] && CheckMatrix(t, Features(t)).Some? ==> r == Err(CheckMatrix(t, Features(t)).value)
    ensures r.Err? && Features(t) != [] && CheckMatrix(t, Features(t)).None? ==>
      || (r.error.EmptyCluster? && r.error.id < K && Occurrences<nat>(labels, r.error.id) == 0)
      || (r.error == WrongType("Survived") && "Survived" in t.cols && !t.cols["Survived"].Nums?)
    ensures Features(t) != [] && CheckMatrix(t, Features(t)).None? && !NoneEmpty(labels) ==>
      r == Err(EmptyCluster(FirstEmpty(labels).value))
    ensures r.Ok? <==>
      && Features(t) != [] && CheckMatrix(t, Features(t)).None?
      && NoneEmpty(labels)
      && ("Survived" in t.cols ==> t.cols["Survived"].Nums?)
    ensures r.Ok? ==>
      var s, fs := r.value, Features(t);
      && s.features == fs
      && |s.sizes| == K && (forall c :: 0 <= c < K ==> s.sizes[c] == Occurrences<nat>(labels, c))
      && |s.means| == K
      && (forall c :: 0 <= c < K ==> |s.means[c]| == |fs|)
      && (forall c, j :: 0 <= c < K && 0 <= j < |fs| ==> s.means[c][j] == ClusterMean(t.cols[fs[j]], labels, c))
      && (s.rates.Some? <==> "Survived" in t.cols)
      && (s.rates.Some? ==>
            && |s.rates.value| == K
            && forall c :: 0 <= c < K ==> s.rates.value[c] == ClusterMean(t.cols["Survived"], labels, c))
  {
    var fs := Features(t);
    if fs == [] then Err(NoFeatures)
    else match CheckMatrix(t, fs)
      case Some(e) => Err(e)
      case None =>
        match FirstEmpty(labels)
        case Some(c) => Err(EmptyCluster(c))
        case None =>
          var sizes := seq(K, c requires 0 <= c => Occurrences<nat>(labels, c));
          var means := seq(K, c requires 0 <= c < K => seq(|fs|, j requires 0 <= j < |fs| => ClusterMean(t.cols[fs[j]], labels, c)));
          if "Survived" !in t.cols then Ok(Summary(fs, sizes, means, None))
          else if !t.cols["Survived"].Nums? then Err(WrongType("Survived"))
          else Ok(Summary(fs, sizes, means, Some(seq(K, c requires 0 <= c < K => ClusterMean(t.cols["Survived"], labels, c)))))
  }

  /** The reported cluster sizes add up to the number of rows. */
  lemma SummarySizesAddUp(t: Table, labels: seq<nat>)
    requires Valid(t) && IsLabelling(labels, t.height) && Summarize(t, labels).Ok?
    ensures var s := Summarize(t, labels).value.sizes; s[0] + s[1] + s[2] == t.height
  {
    SizesAddUp(labels);
  }
}
