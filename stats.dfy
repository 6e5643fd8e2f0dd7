/** The statistics the stages compute over the present values of a column: sum,
    mean, median, mode and the linear-interpolation quantiles of numpy/pandas,
    all exact over the reals. */
module Stats {
  import opened Wrappers
  import opened Frame
  import opened Order

  function Sum(xs: seq<real>): real {
    if xs == [] then 0.0 else xs[0] + Sum(xs[1..])
  }

  function Min(xs: seq<real>): (m: real)
    requires xs != []
    ensures m in xs && forall x :: x in xs ==> m <= x
  {
    if |xs| == 1 then xs[0]
    else
      var r := Min(xs[1..]);
      assert xs == [xs[0]] + xs[1..];
      if xs[0] <= r then xs[0] else r
  }

  function Max(xs: seq<real>): (m: real)
    requires xs != []
    ensures m in xs && forall x :: x in xs ==> x <= m
  {
    if |xs| == 1 then xs[0]
    else
      var r := Max(xs[1..]);
      assert xs == [xs[0]] + xs[1..];
      if xs[0] >= r then xs[0] else r
  }

  lemma {:induction false} SumBounds(xs: seq<real>, lo: real, hi: real)
    requires forall x :: x in xs ==> lo <= x <= hi
    ensures |xs| as real * lo <= Sum(xs) <= |xs| as real * hi
  {
    if xs != [] {
      assert forall x :: x in xs[1..] ==> x in xs;
      assert xs[0] in xs;
      SumBounds(xs[1..], lo, hi);
      var k, s := |xs[1..]| as real, Sum(xs[1..]);
      assert Sum(xs) == xs[0] + s;
      assert k * lo <= s <= k * hi && lo <= xs[0] <= hi;
      assert |xs| as real == k + 1.0;
      AddOne(k, lo);
      AddOne(k, hi);
      assert (k + 1.0) * lo <= xs[0] + s <= (k + 1.0) * hi;
    }
  }

  lemma AddOne(k: real, v: real)
    ensures (k + 1.0) * v == k * v + v
  {
  }

  /** The arithmetic mean (pandas mean over the non-missing values). */
  function Mean(xs: seq<real>): (m: real)
    requires xs != []
    ensures Min(xs) <= m <= Max(xs)
  {
    var n := |xs| as real;
    SumBounds(xs, Min(xs), Max(xs));
    DivisionBounds(Min(xs), Sum(xs), Max(xs), n);
    Sum(xs) / n
  }

  lemma DivisionBounds(lo: real, x: real, hi: real, n: real)
    requires n > 0.0 && n * lo <= x <= n * hi
    ensures lo <= x / n <= hi
  {
    var q := x / n;
    assert x == n * q;
    if q < lo { MulStrict(q, lo, n); }
    if q > hi { MulStrict(hi, q, n); }
  }

  lemma MulStrict(a: real, b: real, n: real)
    requires a < b && n > 0.0
    ensures n * a < n * b
  {
  }

  lemma MulMonotone(a: real, b: real, d: real)
    requires a <= b && 0.0 <= d
    ensures a * d <= b * d
  {
  }

  /** A mean of values that all lie in [0, 1] (a rate of 0/1 outcomes) lies in [0, 1]. */
  lemma MeanOfUnitValues(xs: seq<real>)
    requires xs != [] && forall x :: x in xs ==> 0.0 <= x <= 1.0
    ensures 0.0 <= Mean(xs) <= 1.0
  {
    assert Min(xs) in xs && Max(xs) in xs;
  }

  function CountAtMost(xs: seq<real>, m: real): nat {
    if xs == [] then 0 else (if xs[0] <= m then 1 else 0) + CountAtMost(xs[1..], m)
  }

  function CountAtLeast(xs: seq<real>, m: real): nat {
    if xs == [] then 0 else (if xs[0] >= m then 1 else 0) + CountAtLeast(xs[1..], m)
  }

  lemma {:induction false} CountsOfInsert(x: real, s: seq<real>, m: real)
    requires Sorted(s)
    ensures CountAtMost(InsertReal(x, s), m) == CountAtMost(s, m) + (if x <= m then 1 else 0)
    ensures CountAtLeast(InsertReal(x, s), m) == CountAtLeast(s, m) + (if x >= m then 1 else 0)
    decreases |s|
  {
    if s == [] || x <= s[0] {
      assert ([x] + s)[1..] == s;
    } else {
      CountsOfInsert(x, s[1..], m);
      assert ([s[0]] + InsertReal(x, s[1..]))[1..] == InsertReal(x, s[1..]);
    }
  }

  /** Sorting does not change how many values lie on either side of m. */
  lemma {:induction false} CountsOfSort(xs: seq<real>, m: real)
    ensures CountAtMost(SortReals(xs), m) == CountAtMost(xs, m)
    ensures CountAtLeast(SortReals(xs), m) == CountAtLeast(xs, m)
    decreases |xs|
  {
    if xs != [] {
      CountsOfSort(xs[1..], m);
      CountsOfInsert(xs[0], SortReals(xs[1..]), m);
    }
  }

  lemma {:induction false} CountAtMostPrefix(s: seq<real>, v: real, j: nat)
    requires j <= |s| && forall i :: 0 <= i < j ==> s[i] <= v
    ensures CountAtMost(s, v) >= j
    decreases |s|
  {
    if j > 0 { CountAtMostPrefix(s[1..], v, j - 1); }
  }

  lemma {:induction false} CountAtLeastSuffix(s: seq<real>, v: real, j: nat)
    requires j <= |s| && forall i :: j <= i < |s| ==> v <= s[i]
    ensures CountAtLeast(s, v) >= |s| - j
    decreases |s|
  {
    if s != [] {
      if j > 0 {
        CountAtLeastSuffix(s[1..], v, j - 1);
      } else {
        CountAtLeastSuffix(s[1..], v, 0);
      }
    }
  }

  /** The middle value of a sorted list, or the mean of its two middle values
      when its length is even. */
  function Middle(s: seq<real>): real
    requires s != []
  {
    var n := |s|;
    if n % 2 == 1 then s[n / 2] else (s[n / 2 - 1] + s[n / 2]) / 2.0
  }

  lemma MiddleSplits(s: seq<real>)
    requires Sorted(s) && s != []
    ensures s[0] <= Middle(s) <= s[|s| - 1]
    ensures 2 * CountAtMost(s, Middle(s)) >= |s|
    ensures 2 * CountAtLeast(s, Middle(s)) >= |s|
  {
    var n := |s|;
    var m := Middle(s);
    var k := if n % 2 == 1 then n / 2 + 1 else n / 2;
    assert forall i :: 0 <= i < k ==> s[i] <= m by {
      forall i | 0 <= i < k ensures s[i] <= m {
        if n % 2 == 0 { assert s[i] <= s[n / 2 - 1] <= s[n / 2]; } else { assert s[i] <= s[n / 2]; }
      }
    }
    assert forall i :: n / 2 <= i < n ==> m <= s[i] by {
      forall i | n / 2 <= i < n ensures m <= s[i] {
        if n % 2 == 0 { assert s[n / 2 - 1] <= s[n / 2] <= s[i]; } else { assert s[n / 2] <= s[i]; }
      }
    }
    CountAtMostPrefix(s, m, k);
    CountAtLeastSuffix(s, m, n / 2);
    assert s[0] <= m <= s[n - 1] by {
      if n % 2 == 0 { assert s[0] <= s[n / 2 - 1] && s[n / 2] <= s[n - 1]; }
      else { assert s[0] <= s[n / 2] <= s[n - 1]; }
    }
  }

  lemma SortedLastGreatest(s: seq<real>)
    requires Sorted(s)
    ensures forall v :: v in s ==> v <= s[|s| - 1]
  {
    forall v | v in s ensures v <= s[|s| - 1] {
      var k :| 0 <= k < |s| && s[k] == v;
    }
  }

  /** The first and last values of the sorted values are the least and greatest. */
  lemma SortedEnds(xs: seq<real>)
    requires xs != []
    ensures SortReals(xs)[0] == Min(xs)
    ensures SortReals(xs)[|xs| - 1] == Max(xs)
  {
    var s := SortReals(xs);
    var n := |s|;
    SortedHeadLeast(s);
    SortedLastGreatest(s);
    assert multiset(s) == multiset(xs);
    assert s[0] in multiset(s) && s[n - 1] in multiset(s);
    assert s[0] in xs && s[n - 1] in xs;
    assert Min(xs) in multiset(xs) && Max(xs) in multiset(xs);
    assert Min(xs) in s && Max(xs) in s;
  }

  /** pandas Series.median over the non-missing values: the middle value of the
      sorted values, or the mean of the two middle values when their number is even. */
  function Median(xs: seq<real>): (m: real)
    requires xs != []
    ensures Min(xs) <= m <= Max(xs)
  {
    var s := SortReals(xs);
    MiddleSplits(s);
    SortedEnds(xs);
    Middle(s)
  }

  /** The median is the middle value of the values in ascending order, or the
      mean of the two middle values when their number is even. */
  lemma MedianOfSorted(xs: seq<real>, s: seq<real>)
    requires xs != [] && Sorted(s) && multiset(s) == multiset(xs)
    ensures |s| == |xs|
    ensures |s| % 2 == 1 ==> Median(xs) == s[|s| / 2]
    ensures |s| % 2 == 0 ==> Median(xs) == (s[|s| / 2 - 1] + s[|s| / 2]) / 2.0
  {
    SortedUnique(SortReals(xs), s);
  }

  /** The median splits the values in halves: at least half of them are at most
      the median and at least half are at least the median. */
  lemma MedianSplits(xs: seq<real>)
    requires xs != []
    ensures 2 * CountAtMost(xs, Median(xs)) >= |xs|
    ensures 2 * CountAtLeast(xs, Median(xs)) >= |xs|
  {
    var s := SortReals(xs);
    assert Median(xs) == Middle(s);
    MiddleSplits(s);
    CountsOfSort(xs, Middle(s));
  }

  /** How often c occurs in cs. */
  function Count(cs: seq<Cell>, c: Cell): nat {
    multiset(cs)[c]
  }

  /** The earliest of a sorted list of candidates among those that occur most often in cs. */
  function Best(cats: seq<Cell>, cs: seq<Cell>): (b: Cell)
    requires cats != [] && StrictlySorted(cats)
    ensures b in cats
    ensures forall c :: c in cats ==> Count(cs, c) <= Count(cs, b)
    ensures forall c :: c in cats && Count(cs, c) == Count(cs, b) ==> c == b || CellLess(b, c)
  {
    if |cats| == 1 then cats[0]
    else
      var rest := cats[1..];
      var b := Best(rest, cs);
      assert forall c :: c in cats ==> c == cats[0] || c in rest;
      if Count(cs, cats[0]) >= Count(cs, b) then
        assert forall c :: c in rest ==> CellLess(cats[0], c);
        cats[0]
      else b
  }

  /** pandas `mode()[0]`: a most frequent value, and the least of them in sort order
      when several are equally frequent. */
  function Mode(cs: seq<Cell>): (m: Cell)
    requires cs != []
    ensures m in cs
    ensures forall c :: Count(cs, c) <= Count(cs, m)
    ensures forall c :: Count(cs, c) == Count(cs, m) ==> c == m || CellLess(m, c)
  {
    var cats := SortedDistinct(cs);
    assert cs[0] in cats;
    var m := Best(cats, cs);
    assert Count(cs, m) >= 1;
    m
  }

  /** The value at position h/4 of a sorted list, interpolating linearly between
      neighbours (numpy's "linear" method; h counts quarter positions). */
  function Interp(s: seq<real>, h: nat): real
    requires s != [] && h <= 4 * (|s| - 1)
  {
    var lo := h / 4;
    if h % 4 == 0 then s[lo] else s[lo] + ((h % 4) as real / 4.0) * (s[lo + 1] - s[lo])
  }

  /** Interpolation lies between the two neighbours it interpolates. */
  lemma InterpBetween(s: seq<real>, h: nat)
    requires Sorted(s) && s != [] && h <= 4 * (|s| - 1)
    ensures s[h / 4] <= Interp(s, h)
    ensures h % 4 != 0 ==> h / 4 + 1 < |s| && Interp(s, h) <= s[h / 4 + 1]
  {
    var lo := h / 4;
    assert h == 4 * lo + h % 4;
    if h % 4 != 0 {
      assert lo + 1 < |s|;
      var f := (h % 4) as real / 4.0;
      var d := s[lo + 1] - s[lo];
      assert 0.0 <= f <= 1.0 && 0.0 <= d;
      assert Interp(s, h) == s[lo] + f * d;
      MulMonotone(f, 1.0, d);
      MulMonotone(0.0, f, d);
      assert f * d <= d;
    }
  }

  /** Quantiles of a sorted list never decrease with the position. */
  lemma InterpMonotone(s: seq<real>, h1: nat, h2: nat)
    requires Sorted(s) && s != [] && h1 <= h2 <= 4 * (|s| - 1)
    ensures Interp(s, h1) <= Interp(s, h2)
  {
    InterpBetween(s, h1);
    InterpBetween(s, h2);
    var lo1, lo2 := h1 / 4, h2 / 4;
    assert h1 == 4 * lo1 + h1 % 4 && h2 == 4 * lo2 + h2 % 4;
    if lo1 == lo2 {
      if h1 % 4 != 0 {
        assert h1 % 4 <= h2 % 4;
        var f1, f2 := (h1 % 4) as real / 4.0, (h2 % 4) as real / 4.0;
        var d := s[lo1 + 1] - s[lo1];
        assert f1 <= f2 && 0.0 <= d;
        MulMonotone(f1, f2, d);
        assert Interp(s, h1) == s[lo1] + f1 * d;
        assert Interp(s, h2) == s[lo1] + f2 * d;
      }
    } else {
      assert lo1 < lo2;
      if h1 % 4 != 0 {
        assert lo1 + 1 <= lo2;
        assert Interp(s, h1) <= s[lo1 + 1] <= s[lo2] <= Interp(s, h2);
      } else {
        assert Interp(s, h1) == s[lo1] <= s[lo2] <= Interp(s, h2);
      }
    }
  }

  /** pandas `Series.quantile([0, .25, .5, .75, 1])` over the non-missing values:
      the five quartile cut points a quantile cut into four bands starts from. */
  function Quartiles(xs: seq<real>): (q: seq<real>)
    requires xs != []
    ensures |q| == 5 && q[0] == Min(xs) && q[4] == Max(xs)
    ensures forall i, j :: 0 <= i <= j < 5 ==> q[i] <= q[j]
  {
    var s := SortReals(xs);
    SortedEnds(xs);
    QuarterPointEnds(s);
    QuarterPointsMonotone(s);
    seq(5, k requires 0 <= k < 5 => QuarterPoint(s, k))
  }

  /** The middle quartile is the median. */
  lemma {:induction false} MiddleQuartileIsMedian(xs: seq<real>)
    requires xs != []
    ensures Quartiles(xs)[2] == Median(xs)
  {
    var s := SortReals(xs);
    var n, j := |s|, |s| / 2;
    assert Quartiles(xs)[2] == QuarterPoint(s, 2) == Interp(s, (n - 1) * 2);
    assert Median(xs) == Middle(s);
    if n % 2 == 1 {
      assert (n - 1) * 2 == 4 * j;
      MiddleOdd(s, j);
    } else {
      assert (n - 1) * 2 == 4 * (j - 1) + 2;
      MiddleEven(s, j);
    }
  }

  lemma MiddleOdd(s: seq<real>, j: nat)
    requires |s| == 2 * j + 1
    ensures Interp(s, 4 * j) == s[j] == Middle(s)
  {
    assert (4 * j) / 4 == j && (4 * j) % 4 == 0;
  }

  lemma MiddleEven(s: seq<real>, j: nat)
    requires |s| == 2 * j && j >= 1
    ensures Interp(s, 4 * (j - 1) + 2) == (s[j - 1] + s[j]) / 2.0 == Middle(s)
  {
    var h := 4 * (j - 1) + 2;
    assert h / 4 == j - 1 && h % 4 == 2;
    assert Interp(s, h) == s[j - 1] + (2 as real / 4.0) * (s[j] - s[j - 1]);
  }

  lemma QuarterPointEnds(s: seq<real>)
    requires Sorted(s) && s != []
    ensures QuarterPoint(s, 0) == s[0] && QuarterPoint(s, 4) == s[|s| - 1]
  {
    assert (|s| - 1) * 4 / 4 == |s| - 1;
  }

  lemma QuarterPointsMonotone(s: seq<real>)
    requires Sorted(s) && s != []
    ensures forall i, j :: 0 <= i <= j <= 4 ==> QuarterPoint(s, i) <= QuarterPoint(s, j)
  {
    forall i, j | 0 <= i <= j <= 4 ensures QuarterPoint(s, i) <= QuarterPoint(s, j) {
      QuarterPointMonotone(s, i, j);
    }
  }

  /** The k-th quartile (k = 0..4) of a sorted list. */
  function QuarterPoint(s: seq<real>, k: nat): real
    requires Sorted(s) && s != [] && k <= 4
  {
    assert (|s| - 1) * k <= 4 * (|s| - 1);
    Interp(s, (|s| - 1) * k)
  }

  lemma QuarterPointMonotone(s: seq<real>, i: nat, j: nat)
    requires Sorted(s) && s != [] && i <= j <= 4
    ensures QuarterPoint(s, i) <= QuarterPoint(s, j)
  {
    assert (|s| - 1) * i <= (|s| - 1) * j <= 4 * (|s| - 1);
    InterpMonotone(s, (|s| - 1) * i, (|s| - 1) * j);
  }

  /** The number of positions of keys holding k. */
  function Occurrences<K(==)>(keys: seq<K>, k: K): (n: nat)
    ensures n <= |keys|
  {
    if keys == [] then 0 else (if keys[0] == k then 1 else 0) + Occurrences(keys[1..], k)
  }

  /** The values of xs at the positions where keys holds k, in order (the rows
      of one group of a pandas groupby). */
  function Where<T(==,!new), K(==)>(xs: seq<T>, keys: seq<K>, k: K): (r: seq<T>)
    requires |xs| == |keys|
    ensures |r| == Occurrences(keys, k)
    ensures forall v :: v in r ==> v in xs
    ensures forall i :: 0 <= i < |xs| && keys[i] == k ==> xs[i] in r
    // each value is picked as many times as there are rows holding it with key k
    ensures forall v :: multiset(r)[v] == Occurrences(Rows(xs, keys), (v, k))
  {
    if xs == [] then []
    else
      var rest := Where(xs[1..], keys[1..], k);
      assert forall i :: 1 <= i < |xs| ==> xs[i] == xs[1..][i - 1] && keys[i] == keys[1..][i - 1];
      assert Rows(xs, keys)[1..] == Rows(xs[1..], keys[1..]);
      assert Rows(xs, keys)[0] == (xs[0], keys[0]);
      (if keys[0] == k then [xs[0]] else []) + rest
  }

  /** The rows as (value, key) pairs. */
  function Rows<T, K>(xs: seq<T>, keys: seq<K>): (r: seq<(T, K)>)
    requires |xs| == |keys|
    ensures |r| == |xs| && forall i :: 0 <= i < |xs| ==> r[i] == (xs[i], keys[i])
  {
    seq(|xs|, i requires 0 <= i < |xs| => (xs[i], keys[i]))
  }

  /** Every value picked for key k sits at a position holding k. */
  lemma {:induction false} WhereFromKey<T(!new), K>(xs: seq<T>, keys: seq<K>, k: K, v: T)
    requires |xs| == |keys| && v in Where(xs, keys, k)
    ensures exists i :: 0 <= i < |xs| && keys[i] == k && xs[i] == v
  {
    var rest := Where(xs[1..], keys[1..], k);
    if keys[0] == k && v == xs[0] {
    } else {
      assert v in rest;
      WhereFromKey(xs[1..], keys[1..], k, v);
      var i :| 0 <= i < |xs[1..]| && keys[1..][i] == k && xs[1..][i] == v;
      assert keys[i + 1] == k && xs[i + 1] == v;
    }
  }

  /** pandas mean over the present values: None (NaN) when there is none; it lies
      between the smallest and the largest present value. */
  function MeanOf(xs: seq<Option<real>>): (r: Option<real>)
    ensures r.None? <==> Somes(xs) == []
    ensures r.Some? ==> Min(Somes(xs)) <= r.value <= Max(Somes(xs))
  {
    if Somes(xs) == [] then None else Some(Mean(Somes(xs)))
  }

  /** The mean of present values that are all 0 or 1 is a rate in [0, 1]. */
  lemma MeanOfOutcomes(xs: seq<Option<real>>)
    requires forall v :: Some(v) in xs ==> v == 0.0 || v == 1.0
    requires MeanOf(xs).Some?
    ensures 0.0 <= MeanOf(xs).value <= 1.0
  {
    var vs := Somes(xs);
    forall v | v in vs ensures 0.0 <= v <= 1.0 {
      assert Some(v) in xs;
    }
    MeanOfUnitValues(vs);
  }
}
