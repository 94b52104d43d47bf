/** The robust statistics of the metrics engine, in exact arithmetic:
    numpy's default ("linear") percentile, the median, the mean, and the
    inter-quartile-range outlier trim. Values are integers (the only inputs
    the dashboard passes are per-vacancy event counts); percentiles, means
    and fences are `real`. */
module Stats {

  import opened Seqs

  /** Non-decreasing order. */
  predicate Ascending(s: seq<int>)
  {
    forall i, j :: 0 <= i < j < |s| ==> s[i] <= s[j]
  }

  /** The values of `data` in ascending order. */
  function Sorted(data: seq<int>): (s: seq<int>)
    ensures Ascending(s)
    ensures multiset(s) == multiset(data)
    ensures |s| == |data|
  {
    SortBy(data, x => x)
  }

  /** Two ascending sequences with the same elements are equal. */
  lemma {:induction false} AscendingUnique(a: seq<int>, b: seq<int>)
    requires Ascending(a) && Ascending(b)
    requires multiset(a) == multiset(b)
    ensures a == b
    decreases |a|
  {
    if a != [] {
      AscendingSameHead(a, b);
      AscendingUnique(a[1..], b[1..]);
      assert a == [a[0]] + a[1..];
      assert b == [b[0]] + b[1..];
    }
  }

  /** Two non-empty ascending sequences with the same elements share their
      head, and their tails are again ascending with the same elements. */
  lemma {:induction false} AscendingSameHead(a: seq<int>, b: seq<int>)
    requires Ascending(a) && Ascending(b) && a != []
    requires multiset(a) == multiset(b)
    ensures b != [] && a[0] == b[0]
    ensures Ascending(a[1..]) && Ascending(b[1..])
    ensures multiset(a[1..]) == multiset(b[1..])
  {
    assert |a| == |multiset(a)| && |b| == |multiset(b)|;
    AscendingHead(a, b);
    AscendingHead(b, a);
    DropHead(a);
    DropHead(b);
    AscendingTail(a);
    AscendingTail(b);
  }

  /** The head of an ascending sequence is its least element. */
  lemma {:induction false} AscendingHead(a: seq<int>, b: seq<int>)
    requires Ascending(b) && a != [] && b != []
    requires multiset(a) == multiset(b)
    ensures b[0] <= a[0]
  {
    assert a[0] in multiset(b);
    var j :| 0 <= j < |b| && b[j] == a[0];
    if j > 0 {
      assert b[0] <= b[j];
    }
  }

  lemma {:induction false} DropHead(a: seq<int>)
    requires a != []
    ensures multiset(a[1..]) == multiset(a) - multiset{a[0]}
  {
    assert a == [a[0]] + a[1..];
  }

  lemma {:induction false} AscendingTail(a: seq<int>)
    requires Ascending(a) && a != []
    ensures Ascending(a[1..])
  {
    var a' := a[1..];
    forall i, i' | 0 <= i < i' < |a'| ensures a'[i] <= a'[i'] {
      assert a'[i] == a[i + 1] && a'[i'] == a[i' + 1];
    }
  }

  /** An already ascending sequence sorts to itself. */
  lemma {:induction false} SortedAscending(data: seq<int>)
    requires Ascending(data)
    ensures Sorted(data) == data
  {
    AscendingUnique(Sorted(data), data);
  }

  /** The value at the virtual position `m / 4` of the ascending sequence `s`,
      interpolated linearly between its two neighbouring order statistics
      (numpy's default percentile method, with positions in quarter steps). */
  function Interp(s: seq<int>, m: nat): (v: real)
    requires m <= 4 * (|s| - 1)
  {
    var i := m / 4;
    var r := m % 4;
    if r == 0 then s[i] as real
    else s[i] as real + (r as real / 4.0) * ((s[i + 1] - s[i]) as real)
  }

  /** An interpolated value lies between the order statistics on either side
      of its position. */
  lemma {:induction false} InterpBetween(s: seq<int>, m: nat)
    requires Ascending(s)
    requires m <= 4 * (|s| - 1)
    ensures (m + 3) / 4 < |s|
    ensures s[m / 4] as real <= Interp(s, m) <= s[(m + 3) / 4] as real
  {
    var i := m / 4;
    var r := m % 4;
    if r != 0 {
      assert (m + 3) / 4 == i + 1;
      var d := (s[i + 1] - s[i]) as real;
      assert s[i] <= s[i + 1];
      assert d >= 0.0;
      assert Interp(s, m) == s[i] as real + (r as real / 4.0) * d;
      assert 0.0 < r as real / 4.0 < 1.0;
      assert (r as real / 4.0) * d <= d;
    }
  }

  lemma {:induction false} ScaleMonotone(a: real, b: real, d: real)
    requires 0.0 <= a <= b && d >= 0.0
    ensures 0.0 <= a * d <= b * d
  {
    assert b * d - a * d == (b - a) * d;
  }

  /** Interpolation is monotone in the position. */
  lemma {:induction false} InterpMonotone(s: seq<int>, m1: nat, m2: nat)
    requires Ascending(s)
    requires m1 <= m2 <= 4 * (|s| - 1)
    ensures Interp(s, m1) <= Interp(s, m2)
  {
    var i1, i2 := m1 / 4, m2 / 4;
    if i1 == i2 {
      var r1, r2 := m1 % 4, m2 % 4;
      assert r1 <= r2;
      if r2 != 0 {
        var i := i1;
        assert i + 1 < |s|;
        assert s[i] <= s[i + 1];
        var d := (s[i + 1] - s[i]) as real;
        var a1, a2 := r1 as real / 4.0, r2 as real / 4.0;
        assert Interp(s, m2) == s[i] as real + a2 * d;
        ScaleMonotone(a1, a2, d);
        if r1 != 0 {
          assert Interp(s, m1) == s[i] as real + a1 * d;
        } else {
          assert Interp(s, m1) == s[i] as real;
        }
      } else {
        assert r1 == 0;
        assert Interp(s, m1) == s[i1] as real && Interp(s, m2) == s[i2] as real;
      }
    } else {
      InterpBetween(s, m1);
      InterpBetween(s, m2);
      var j1 := (m1 + 3) / 4;
      assert j1 <= i2;
      assert s[j1] <= s[i2] by {
        if j1 < i2 {
          assert s[j1] <= s[i2];
        }
      }
      assert Interp(s, m1) <= s[j1] as real && s[i2] as real <= Interp(s, m2);
    }
  }

  /** numpy's `percentile(data, 25 * k)`: k = 1 is the first quartile, k = 2
      the median, k = 3 the third quartile. */
  function Percentile(data: seq<int>, k: nat): (v: real)
    requires |data| > 0 && k <= 4
  {
    QuarterStepBound(|data| - 1, k);
    Interp(Sorted(data), (|data| - 1) * k)
  }

  /** The position of a quartile lies within the sequence. */
  lemma {:induction false} QuarterStepBound(n: nat, k: nat)
    requires k <= 4
    ensures 0 <= n * k <= 4 * n
  {
    assert 4 * n - n * k == n * (4 - k);
  }

  /** A percentile depends only on the values, not on their order. */
  lemma {:induction false} PercentilePermutation(a: seq<int>, b: seq<int>, k: nat)
    requires |a| > 0 && k <= 4
    requires multiset(a) == multiset(b)
    ensures |b| == |a|
    ensures Percentile(a, k) == Percentile(b, k)
  {
    assert |a| == |multiset(a)| && |b| == |multiset(b)|;
    AscendingUnique(Sorted(a), Sorted(b));
  }

  /** Lower quartiles never exceed higher ones. */
  lemma {:induction false} PercentileMonotone(data: seq<int>, k1: nat, k2: nat)
    requires |data| > 0 && k1 <= k2 <= 4
    ensures Percentile(data, k1) <= Percentile(data, k2)
  {
    var n := |data|;
    assert (n - 1) * k1 <= (n - 1) * k2 <= 4 * (n - 1) by {
      assert (n - 1) * k2 - (n - 1) * k1 == (n - 1) * (k2 - k1);
      assert 4 * (n - 1) - (n - 1) * k2 == (n - 1) * (4 - k2);
    }
    InterpMonotone(Sorted(data), (n - 1) * k1, (n - 1) * k2);
  }

  lemma {:induction false} MiddlePosition(n: nat)
    requires n > 0
    ensures n % 2 == 0 ==> (n - 1) * 2 == 4 * (n / 2 - 1) + 2
    ensures n % 2 == 1 ==> (n - 1) * 2 == 4 * (n / 2)
  {
  }

  /** `np.median(data)`. */
  function Median(data: seq<int>): (v: real)
    requires |data| > 0
    ensures v == Percentile(data, 2)
    ensures |data| % 2 == 1 ==> v == Sorted(data)[|data| / 2] as real
    ensures |data| % 2 == 0 ==>
      v == (Sorted(data)[|data| / 2 - 1] + Sorted(data)[|data| / 2]) as real / 2.0
  {
    MiddlePosition(|data|);
    Percentile(data, 2)
  }

  /** `np.mean(data)`. */
  function Mean(data: seq<int>): (v: real)
    requires |data| > 0
    ensures v * (|data| as real) == Sum(data) as real
  {
    Sum(data) as real / (|data| as real)
  }

  /** The first and third quartiles. */
  function Q1(data: seq<int>): real
    requires |data| > 0
  {
    Percentile(data, 1)
  }

  function Q3(data: seq<int>): real
    requires |data| > 0
  {
    Percentile(data, 3)
  }

  /** The Tukey fences Q1 - 1.5 IQR and Q3 + 1.5 IQR of `data`. */
  function LowerFence(data: seq<int>): real
    requires |data| > 0
  {
    Q1(data) - 1.5 * (Q3(data) - Q1(data))
  }

  function UpperFence(data: seq<int>): real
    requires |data| > 0
  {
    Q3(data) + 1.5 * (Q3(data) - Q1(data))
  }

  /** The values of `s` within [lo, hi], in their order (the list
      comprehension of `remove_outliers_iqr`). */
  function KeepBetween(s: seq<int>, lo: real, hi: real): (r: seq<int>)
    ensures forall x :: x in r <==> x in s && lo <= x as real <= hi
    ensures |r| <= |s|
  {
    Filter(s, (x: int) => lo <= x as real <= hi)
  }

  /** The kept values are in their original order, with every copy of a
      value inside the range and none of a value outside it. */
  lemma {:induction false} KeepBetweenCounts(s: seq<int>, lo: real, hi: real)
    ensures Subsequence(KeepBetween(s, lo, hi), s)
    ensures forall x :: Count(KeepBetween(s, lo, hi), x) == (if lo <= x as real <= hi then Count(s, x) else 0)
  {
    var inRange := (x: int) => lo <= x as real <= hi;
    assert KeepBetween(s, lo, hi) == Filter(s, inRange);
    FilterSubsequence(s, inRange);
    FilterCountAll(s, inRange);
  }

  /** `remove_outliers_iqr`: fewer than four values are returned as they are;
      otherwise exactly the values within the fences are kept, in their order. */
  function RemoveOutliersIqr(data: seq<int>): (r: seq<int>)
    ensures |data| < 4 ==> r == data
    ensures |r| <= |data|
  {
    if |data| < 4 then data
    else KeepBetween(data, LowerFence(data), UpperFence(data))
  }

  /** From four values on, the trim keeps the input's order, and keeps every
      copy of a value within the fences and none of a value outside them. */
  lemma {:induction false} RemoveOutliersKeepsBetween(data: seq<int>)
    requires |data| >= 4
    ensures Subsequence(RemoveOutliersIqr(data), data)
    ensures forall x :: Count(RemoveOutliersIqr(data), x) ==
                        (if LowerFence(data) <= x as real <= UpperFence(data) then Count(data, x) else 0)
  {
    RemoveOutliersUnfold(data);
    KeepBetweenCounts(data, LowerFence(data), UpperFence(data));
  }

  /** From four values on, a value survives the trim exactly when it is in
      the input and within the fences. */
  lemma {:induction false} RemoveOutliersMembers(data: seq<int>, x: int)
    requires |data| >= 4
    ensures x in RemoveOutliersIqr(data) <==> x in data && LowerFence(data) <= x as real <= UpperFence(data)
  {
    RemoveOutliersUnfold(data);
  }

  /** Every value between the first and third quartile survives the trim. */
  lemma {:induction false} RemoveOutliersKeepsMiddle(data: seq<int>, x: int)
    requires x in data
    requires Q1(data) <= x as real <= Q3(data)
    ensures x in RemoveOutliersIqr(data)
  {
    PercentileMonotone(data, 1, 3);
    if |data| >= 4 {
      RemoveOutliersMembers(data, x);
    }
  }

  /** Some value lies between the first and third quartile once there are at
      least four values. */
  lemma {:induction false} MiddleValueExists(data: seq<int>) returns (x: int)
    requires |data| >= 4
    ensures x in data
    ensures Q1(data) <= x as real <= Q3(data)
  {
    var j := QuartileGap(|data|);
    QuartilesAround(data, j);
    var s := Sorted(data);
    x := s[j];
    assert x in multiset(s);
    assert x in multiset(data);
  }

  /** The order statistic at a whole position between the quartile positions
      lies between the quartiles. */
  lemma {:induction false} QuartilesAround(data: seq<int>, j: nat)
    requires |data| > 0 && j < |data| && |data| - 1 <= 4 * j <= 3 * (|data| - 1)
    ensures Q1(data) <= Sorted(data)[j] as real <= Q3(data)
  {
    var s := Sorted(data);
    var n := |data|;
    assert Q1(data) == Interp(s, n - 1);
    assert Q3(data) == Interp(s, 3 * (n - 1)) by {
      assert (n - 1) * 3 == 3 * (n - 1);
    }
    InterpMonotone(s, n - 1, 4 * j);
    InterpMonotone(s, 4 * j, 3 * (n - 1));
    InterpWhole(s, j);
  }

  /** At a whole position the interpolation is the order statistic itself. */
  lemma {:induction false} InterpWhole(s: seq<int>, j: nat)
    requires j < |s|
    ensures Interp(s, 4 * j) == s[j] as real
  {
    assert (4 * j) / 4 == j && (4 * j) % 4 == 0;
  }

  /** With at least four values, some whole position lies between the
      quartile positions n - 1 and 3 (n - 1), counted in quarters. */
  lemma {:induction false} QuartileGap(n: nat) returns (j: nat)
    requires n >= 4
    ensures j < n && n - 1 <= 4 * j <= 3 * (n - 1)
  {
    j := (n + 2) / 4;
  }

  /** The trim never empties a non-empty input. */
  lemma {:induction false} RemoveOutliersNonEmpty(data: seq<int>)
    requires |data| > 0
    ensures |RemoveOutliersIqr(data)| > 0
  {
    if |data| >= 4 {
      var x := MiddleValueExists(data);
      RemoveOutliersKeepsMiddle(data, x);
    }
  }

  /** The mean of the trimmed values; the trim always leaves something to
      average. */
  function TrimmedMean(data: seq<int>): (v: real)
    requires |data| > 0
    ensures |data| < 4 ==> v == Mean(data)
  {
    RemoveOutliersNonEmpty(data);
    Mean(RemoveOutliersIqr(data))
  }

  /** [1, 2, 3, 4, 100]: Q1 = 2 and Q3 = 4, so the fences are [-1, 7], the
      value 100 is dropped. */
  lemma {:induction false} OutlierExampleQuartiles()
    ensures Q1([1, 2, 3, 4, 100]) == 2.0 && Q3([1, 2, 3, 4, 100]) == 4.0
  {
    var d := [1, 2, 3, 4, 100];
    assert Ascending(d) by {
      forall i, j | 0 <= i < j < 5 ensures d[i] <= d[j] {
      }
    }
    SortedAscending(d);
    assert Q1(d) == Interp(d, 4) == d[1] as real;
    assert Q3(d) == Interp(d, 12) == d[3] as real;
  }

  lemma {:induction false} OutlierExampleKeep(d: seq<int>)
    requires d == [1, 2, 3, 4, 100]
    ensures KeepBetween(d, -1.0, 7.0) == [1, 2, 3, 4]
  {
    var front := d[..4];
    assert forall x :: x in front ==> -1.0 <= x as real <= 7.0;
    FilterKeepsAll(front, (x: int) => -1.0 <= x as real <= 7.0);
    assert KeepBetween(front, -1.0, 7.0) == front;
    KeepBetweenSnoc(front, d[4], d, -1.0, 7.0);
  }

  /** One more value is kept at the end exactly when it is in range. */
  lemma {:induction false} KeepBetweenSnoc(s: seq<int>, x: int, t: seq<int>, lo: real, hi: real)
    requires t == s + [x]
    ensures KeepBetween(t, lo, hi) == KeepBetween(s, lo, hi) + (if lo <= x as real <= hi then [x] else [])
  {
    assert t[..|s|] == s;
  }

  lemma {:induction false} OutlierExample()
    ensures RemoveOutliersIqr([1, 2, 3, 4, 100]) == [1, 2, 3, 4]
  {
    var d := [1, 2, 3, 4, 100];
    OutlierExampleQuartiles();
    FencesOfQuartiles(d);
    OutlierExampleKeep(d);
    RemoveOutliersUnfold(d);
  }

  /** From four values on, the trim is the filter between the fences. */
  lemma {:induction false} RemoveOutliersUnfold(data: seq<int>)
    requires |data| >= 4
    ensures RemoveOutliersIqr(data) == KeepBetween(data, LowerFence(data), UpperFence(data))
  {
  }

  /** Quartiles 2 and 4 give the fences -1 and 7. */
  lemma {:induction false} FencesOfQuartiles(d: seq<int>)
    requires |d| > 0 && Q1(d) == 2.0 && Q3(d) == 4.0
    ensures LowerFence(d) == -1.0 && UpperFence(d) == 7.0
  {
  }
}
