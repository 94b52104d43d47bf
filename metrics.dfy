/** The metrics engine of the dashboard: vacancy, click and apply counts,
    the per-vacancy count vectors with their medians and trimmed means, the
    three-way quartile bucketing of vacancies by clicks, and the colour
    indicator that compares a value with an average. */
module Metrics {

  import opened Seqs
  import opened Frames
  import opened Stats

  // ---------------------------------------------------------------------------
  // Columns as sequences
  // ---------------------------------------------------------------------------

  /** The vacancy-id column, row by row. */
  function EntityIds(rows: seq<Row>): (ids: seq<string>)
    ensures |ids| == |rows|
    ensures forall i :: 0 <= i < |rows| ==> ids[i] == rows[i].entityId
  {
    if rows == [] then [] else EntityIds(rows[..|rows| - 1]) + [rows[|rows| - 1].entityId]
  }

  /** The event-name column, row by row. */
  function EventNames(rows: seq<Row>): (names: seq<string>)
    ensures |names| == |rows|
    ensures forall i :: 0 <= i < |rows| ==> names[i] == rows[i].eventName
  {
    if rows == [] then [] else EventNames(rows[..|rows| - 1]) + [rows[|rows| - 1].eventName]
  }

  /** `df[entity_col].unique()`: the vacancies in order of first appearance. */
  function Vacancies(rows: seq<Row>): seq<string>
  {
    Distinct(EntityIds(rows))
  }

  /** `nunique()` is the number of distinct vacancy ids. */
  lemma {:induction false} VacancyCount(rows: seq<Row>)
    ensures |Vacancies(rows)| == |set r | r in rows :: r.entityId|
  {
    DistinctCardinality(EntityIds(rows));
    assert (set x | x in EntityIds(rows)) == (set r | r in rows :: r.entityId) by {
      forall x | x in EntityIds(rows) ensures x in (set r | r in rows :: r.entityId) {
        var i :| 0 <= i < |rows| && EntityIds(rows)[i] == x;
        assert rows[i] in rows;
      }
      forall x | x in (set r | r in rows :: r.entityId) ensures x in EntityIds(rows) {
        var r :| r in rows && r.entityId == x;
        var i :| 0 <= i < |rows| && rows[i] == r;
        assert EntityIds(rows)[i] == x;
      }
    }
  }

  /** `value_counts().get(name, 0)`: the number of rows with event `name`. */
  function CountEvent(rows: seq<Row>, name: string): nat
  {
    Count(EventNames(rows), name)
  }

  /** The vacancy ids of the rows with event `name`, in row order. */
  function IdsOfEvent(rows: seq<Row>, name: string): (ids: seq<string>)
    ensures |ids| == CountEvent(rows, name)
    ensures forall x :: x in ids ==> x in Vacancies(rows)
  {
    if rows == [] then []
    else
      var rows' := rows[..|rows| - 1];
      var row := rows[|rows| - 1];
      assert EventNames(rows) == EventNames(rows') + [row.eventName];
      CountSnoc(EventNames(rows'), row.eventName, name);
      assert forall x :: x in EntityIds(rows') ==> x in EntityIds(rows) by {
        assert EntityIds(rows) == EntityIds(rows') + [row.entityId];
      }
      assert row.entityId in EntityIds(rows);
      IdsOfEvent(rows', name) + (if row.eventName == name then [row.entityId] else [])
  }

  /** `df[df.event_name == name].groupby(entity_col).size()` reindexed over all
      vacancies with 0 for the missing ones. */
  function PerVacancy(rows: seq<Row>, name: string): (v: seq<int>)
    ensures |v| == |Vacancies(rows)|
  {
    CountsOf(IdsOfEvent(rows, name), Vacancies(rows))
  }

  /** A per-vacancy vector covers every vacancy once, so it adds up to the
      number of rows with that event. */
  lemma {:induction false} PerVacancySum(rows: seq<Row>, name: string)
    ensures Sum(PerVacancy(rows, name)) == CountEvent(rows, name)
  {
    SumCountsOf(IdsOfEvent(rows, name), Vacancies(rows));
  }

  /** A vacancy id occurs among the ids of event `name` once for each row
      that carries both that id and that event. */
  lemma {:induction false} IdsOfEventCount(rows: seq<Row>, name: string, x: string)
    ensures Count(IdsOfEvent(rows, name), x) == |Filter(rows, (r: Row) => r.entityId == x && r.eventName == name)|
    decreases |rows|
  {
    if rows != [] {
      var rows', row := rows[..|rows| - 1], rows[|rows| - 1];
      IdsOfEventCount(rows', name, x);
      var ids' := IdsOfEvent(rows', name);
      if row.eventName == name {
        CountSnoc(ids', row.entityId, x);
      } else {
        assert IdsOfEvent(rows, name) == ids';
      }
    }
  }

  /** A vacancy id occurs in the id column once for each row that carries it. */
  lemma {:induction false} EntityIdsCount(rows: seq<Row>, x: string)
    ensures Count(EntityIds(rows), x) == |Filter(rows, (r: Row) => r.entityId == x)|
    decreases |rows|
  {
    if rows != [] {
      var rows', row := rows[..|rows| - 1], rows[|rows| - 1];
      EntityIdsCount(rows', x);
      CountSnoc(EntityIds(rows'), row.entityId, x);
    }
  }

  /** Each entry of a per-vacancy vector is the number of that vacancy's
      rows with the event, and is 0 exactly when it has none. */
  lemma {:induction false} PerVacancyEntry(rows: seq<Row>, name: string, i: nat)
    requires i < |Vacancies(rows)|
    ensures PerVacancy(rows, name)[i]
      == |Filter(rows, (r: Row) => r.entityId == Vacancies(rows)[i] && r.eventName == name)|
    ensures PerVacancy(rows, name)[i] == 0 <==>
      forall k :: 0 <= k < |rows| ==> !(rows[k].entityId == Vacancies(rows)[i] && rows[k].eventName == name)
  {
    var x := Vacancies(rows)[i];
    IdsOfEventCount(rows, name, x);
    FilterEmpty(rows, (r: Row) => r.entityId == x && r.eventName == name);
  }

  function ClickVector(rows: seq<Row>): seq<int>
  {
    PerVacancy(rows, JobVisit)
  }

  function ApplyVector(rows: seq<Row>): seq<int>
  {
    PerVacancy(rows, JobApplyStart)
  }

  // ---------------------------------------------------------------------------
  // Guarded divisions
  // ---------------------------------------------------------------------------

  /** `applies / clicks * 100 if clicks > 0 else 0`. */
  function Ratio(applies: int, clicks: int): (r: real)
    ensures clicks > 0 ==> r * (clicks as real) == 100.0 * (applies as real)
    ensures clicks <= 0 ==> r == 0.0
  {
    if clicks > 0 then applies as real / clicks as real * 100.0 else 0.0
  }

  /** `total / n if n > 0 else 0`. */
  function PerUnit(total: int, n: int): (r: real)
    ensures n > 0 ==> r * (n as real) == total as real
    ensures n <= 0 ==> r == 0.0
  {
    if n > 0 then total as real / n as real else 0.0
  }

  // ---------------------------------------------------------------------------
  // calculate_metrics
  // ---------------------------------------------------------------------------

  datatype VacancyMetrics = VacancyMetrics(
    numVacancies: nat,
    totalClicks: nat,
    totalApplies: nat,
    applyClickRatio: real,
    medianClicksPerVacancy: real,
    medianAppliesPerVacancy: real,
    meanClicksPerVacancy: real,
    meanAppliesPerVacancy: real,
    clicksPerVacancy: real,
    appliesPerVacancy: real)

  /** `calculate_metrics`: the vacancy count, the event totals (every row is
      a click when there is no event-name column), the guarded ratio, and,
      when there are vacancies and event names, the medians and IQR-trimmed
      means of the per-vacancy vectors; otherwise every per-vacancy figure
      is 0. */
  method CalculateMetrics(t: Table) returns (m: VacancyMetrics)
    requires EntityIdCol in t.columns || |t.columns| > 0
    ensures m.numVacancies == |Vacancies(t.rows)|
    ensures EventNameCol in t.columns ==>
      m.totalClicks == CountEvent(t.rows, JobVisit) && m.totalApplies == CountEvent(t.rows, JobApplyStart)
    ensures EventNameCol !in t.columns ==> m.totalClicks == |t.rows| && m.totalApplies == 0
    ensures m.applyClickRatio == Ratio(m.totalApplies, m.totalClicks)
    ensures m.numVacancies > 0 && EventNameCol in t.columns ==>
      && m.medianClicksPerVacancy == Median(ClickVector(t.rows))
      && m.medianAppliesPerVacancy == Median(ApplyVector(t.rows))
      && m.meanClicksPerVacancy == TrimmedMean(ClickVector(t.rows))
      && m.meanAppliesPerVacancy == TrimmedMean(ApplyVector(t.rows))
    ensures !(m.numVacancies > 0 && EventNameCol in t.columns) ==>
      && m.medianClicksPerVacancy == 0.0 && m.medianAppliesPerVacancy == 0.0
      && m.meanClicksPerVacancy == 0.0 && m.meanAppliesPerVacancy == 0.0
    ensures m.clicksPerVacancy == m.medianClicksPerVacancy
    ensures m.appliesPerVacancy == m.medianAppliesPerVacancy
  {
    var numVacancies := |Vacancies(t.rows)|;
    var totalClicks, totalApplies;
    if EventNameCol in t.columns {
      totalClicks := CountEvent(t.rows, JobVisit);
      totalApplies := CountEvent(t.rows, JobApplyStart);
    } else {
      totalClicks := |t.rows|;
      totalApplies := 0;
    }
    var ratio := Ratio(totalApplies, totalClicks);
    var medianClicks, medianApplies, meanClicks, meanApplies := 0.0, 0.0, 0.0, 0.0;
    if numVacancies > 0 && EventNameCol in t.columns {
      var clicks := ClickVector(t.rows);
      var applies := ApplyVector(t.rows);
      medianClicks := Median(clicks);
      medianApplies := Median(applies);
      meanClicks := TrimmedMean(clicks);
      meanApplies := TrimmedMean(applies);
    }
    m := VacancyMetrics(numVacancies, totalClicks, totalApplies, ratio,
                        medianClicks, medianApplies, meanClicks, meanApplies,
                        medianClicks, medianApplies);
  }

  /** With an event-name column the click and apply vectors have one entry
      per vacancy and add up to the click and apply totals. */
  lemma {:induction false} MetricsVectors(rows: seq<Row>)
    ensures |ClickVector(rows)| == |ApplyVector(rows)| == |Vacancies(rows)|
    ensures Sum(ClickVector(rows)) == CountEvent(rows, JobVisit)
    ensures Sum(ApplyVector(rows)) == CountEvent(rows, JobApplyStart)
  {
    PerVacancySum(rows, JobVisit);
    PerVacancySum(rows, JobApplyStart);
  }

  /** The median of a per-vacancy vector lies between its smallest and
      largest entries. */
  lemma {:induction false} MedianWithinRange(v: seq<int>)
    requires |v| > 0
    ensures Sorted(v)[0] as real <= Median(v) <= Sorted(v)[|v| - 1] as real
  {
    var s := Sorted(v);
    var n := |v|;
    InterpMonotone(s, 0, (n - 1) * 2);
    InterpMonotone(s, (n - 1) * 2, 4 * (n - 1));
  }

  // ---------------------------------------------------------------------------
  // calculate_quartile_metrics
  // ---------------------------------------------------------------------------

  datatype Tier = Top | Middle | Bottom

  /** The bucket masks: top is `c >= Q3`, middle `Q1 <= c < Q3`, bottom `c < Q1`. */
  predicate InTier(tier: Tier, x: int, q1: real, q3: real)
  {
    match tier
    case Top => x as real >= q3
    case Middle => q1 <= x as real < q3
    case Bottom => x as real < q1
  }

  /** Every value falls in exactly one bucket. */
  lemma {:induction false} TierExclusive(x: int, q1: real, q3: real)
    ensures InTier(Top, x, q1, q3) || InTier(Middle, x, q1, q3) || InTier(Bottom, x, q1, q3)
    ensures !(InTier(Top, x, q1, q3) && InTier(Middle, x, q1, q3))
    ensures q1 <= q3 ==> !(InTier(Top, x, q1, q3) && InTier(Bottom, x, q1, q3))
    ensures !(InTier(Middle, x, q1, q3) && InTier(Bottom, x, q1, q3))
  {
  }

  /** The number of vacancies whose clicks fall in `tier`. */
  function TierCount(c: seq<int>, q1: real, q3: real, tier: Tier): nat
  {
    if c == [] then 0
    else TierCount(c[..|c| - 1], q1, q3, tier) + (if InTier(tier, c[|c| - 1], q1, q3) then 1 else 0)
  }

  /** The sum of `v` over the vacancies whose clicks fall in `tier`. */
  function TierSum(v: seq<int>, c: seq<int>, q1: real, q3: real, tier: Tier): int
    requires |v| == |c|
  {
    if c == [] then 0
    else TierSum(v[..|v| - 1], c[..|c| - 1], q1, q3, tier) + (if InTier(tier, c[|c| - 1], q1, q3) then v[|v| - 1] else 0)
  }

  /** The three buckets partition the vacancies: their counts add up to the
      number of vacancies and their sums to the total. */
  lemma {:induction false} TierPartition(v: seq<int>, c: seq<int>, q1: real, q3: real)
    requires |v| == |c|
    requires q1 <= q3
    ensures TierCount(c, q1, q3, Top) + TierCount(c, q1, q3, Middle) + TierCount(c, q1, q3, Bottom) == |c|
    ensures TierSum(v, c, q1, q3, Top) + TierSum(v, c, q1, q3, Middle) + TierSum(v, c, q1, q3, Bottom) == Sum(v)
    decreases |c|
  {
    if c != [] {
      TierPartition(v[..|v| - 1], c[..|c| - 1], q1, q3);
      TierExclusive(c[|c| - 1], q1, q3);
    }
  }

  /** A value in `tier` makes its count positive. */
  lemma {:induction false} TierCountPositive(c: seq<int>, q1: real, q3: real, tier: Tier, i: nat)
    requires i < |c| && InTier(tier, c[i], q1, q3)
    ensures TierCount(c, q1, q3, tier) > 0
    decreases |c|
  {
    if i < |c| - 1 {
      TierCountPositive(c[..|c| - 1], q1, q3, tier, i);
    }
  }

  /** When every value is in `tier`, the count is the length. */
  lemma {:induction false} TierCountAll(c: seq<int>, q1: real, q3: real, tier: Tier)
    requires forall i :: 0 <= i < |c| ==> InTier(tier, c[i], q1, q3)
    ensures TierCount(c, q1, q3, tier) == |c|
    decreases |c|
  {
    if c != [] {
      TierCountAll(c[..|c| - 1], q1, q3, tier);
    }
  }

  datatype Bucket = Bucket(
    numVacancies: nat,
    totalClicks: int,
    totalApplies: int,
    applyClickRatio: real,
    clicksPerVacancy: real,
    appliesPerVacancy: real)

  /** One entry of `quartiles`: the counts and their guarded ratios. */
  function MakeBucket(n: nat, clicks: int, applies: int): (b: Bucket)
    ensures b.numVacancies == n && b.totalClicks == clicks && b.totalApplies == applies
    ensures b.applyClickRatio == Ratio(applies, clicks)
    ensures b.clicksPerVacancy == PerUnit(clicks, n) && b.appliesPerVacancy == PerUnit(applies, n)
  {
    Bucket(n, clicks, applies, Ratio(applies, clicks), PerUnit(clicks, n), PerUnit(applies, n))
  }

  /** The bucket `tier` for click vector `c` and apply vector `a`, with the
      thresholds taken from `c`'s quartiles. */
  function TierBucket(c: seq<int>, a: seq<int>, tier: Tier): Bucket
    requires |c| > 0 && |a| == |c|
  {
    var q1 := Percentile(c, 1);
    var q3 := Percentile(c, 3);
    MakeBucket(TierCount(c, q1, q3, tier), TierSum(c, c, q1, q3, tier), TierSum(a, c, q1, q3, tier))
  }

  /** `calculate_quartile_metrics`: None without an event-name column or with
      fewer than four vacancies; otherwise the top, middle and bottom
      buckets of the vacancies by clicks. */
  method CalculateQuartileMetrics(t: Table) returns (q: Option<map<Tier, Bucket>>)
    requires EntityIdCol in t.columns || |t.columns| > 0
    ensures q.None? <==> EventNameCol !in t.columns || |Vacancies(t.rows)| < 4
    ensures q.Some? ==> q.value.Keys == {Top, Middle, Bottom}
    ensures q.Some? ==> forall tier :: tier in q.value ==>
      q.value[tier] == TierBucket(ClickVector(t.rows), ApplyVector(t.rows), tier)
  {
    if EventNameCol !in t.columns {
      return None;
    }
    var clicks := ClickVector(t.rows);
    var applies := ApplyVector(t.rows);
    if |clicks| < 4 {
      return None;
    }
    var quartiles := Buckets(clicks, applies);
    q := Some(quartiles);
  }

  /** The loop over the three bucket masks. */
  method Buckets(clicks: seq<int>, applies: seq<int>) returns (quartiles: map<Tier, Bucket>)
    requires |clicks| > 0 && |applies| == |clicks|
    ensures quartiles.Keys == {Top, Middle, Bottom}
    ensures forall tier :: tier in quartiles ==> quartiles[tier] == TierBucket(clicks, applies, tier)
  {
    var q1 := Percentile(clicks, 1);
    var q3 := Percentile(clicks, 3);
    var tiers := [Top, Middle, Bottom];
    quartiles := map[];
    for k := 0 to 3
      invariant forall j :: 0 <= j < k ==> tiers[j] in quartiles
      invariant forall tier :: tier in quartiles ==> tier in tiers[..k]
      invariant forall tier :: tier in quartiles ==> quartiles[tier] == TierBucket(clicks, applies, tier)
    {
      var tier := tiers[k];
      var bucket := MakeBucket(TierCount(clicks, q1, q3, tier), TierSum(clicks, clicks, q1, q3, tier),
                               TierSum(applies, clicks, q1, q3, tier));
      quartiles := quartiles[tier := bucket];
    }
    assert Top in quartiles && Middle in quartiles && Bottom in quartiles by {
      assert tiers[0] == Top && tiers[1] == Middle && tiers[2] == Bottom;
    }
    forall tier | tier in quartiles ensures tier in {Top, Middle, Bottom} {
      assert tier.Top? || tier.Middle? || tier.Bottom?;
    }
  }

  /** The buckets account for every vacancy, click and apply. */
  lemma {:induction false} QuartilesConserve(rows: seq<Row>)
    requires |Vacancies(rows)| >= 4
    ensures var c, a := ClickVector(rows), ApplyVector(rows);
      && TierBucket(c, a, Top).numVacancies + TierBucket(c, a, Middle).numVacancies
         + TierBucket(c, a, Bottom).numVacancies == |Vacancies(rows)|
      && TierBucket(c, a, Top).totalClicks + TierBucket(c, a, Middle).totalClicks
         + TierBucket(c, a, Bottom).totalClicks == CountEvent(rows, JobVisit)
      && TierBucket(c, a, Top).totalApplies + TierBucket(c, a, Middle).totalApplies
         + TierBucket(c, a, Bottom).totalApplies == CountEvent(rows, JobApplyStart)
  {
    var c, a := ClickVector(rows), ApplyVector(rows);
    PercentileMonotone(c, 1, 3);
    var q1, q3 := Percentile(c, 1), Percentile(c, 3);
    TierPartition(c, c, q1, q3);
    TierPartition(a, c, q1, q3);
    MetricsVectors(rows);
  }

  /** The top bucket is never empty: the largest click count reaches Q3. */
  lemma {:induction false} TopNonEmpty(c: seq<int>, a: seq<int>)
    requires |c| >= 4 && |a| == |c|
    ensures TierBucket(c, a, Top).numVacancies > 0
  {
    var s := Sorted(c);
    var n := |c|;
    InterpMonotone(s, 3 * (n - 1), 4 * (n - 1));
    assert Interp(s, 4 * (n - 1)) == s[n - 1] as real;
    assert s[n - 1] in multiset(c);
    var i :| 0 <= i < n && c[i] == s[n - 1];
    TierCountPositive(c, Percentile(c, 1), Percentile(c, 3), Top, i);
  }

  /** Interpolating between equal values gives that value. */
  lemma {:induction false} InterpConstant(s: seq<int>, m: nat, x: int)
    requires m <= 4 * (|s| - 1)
    requires forall i :: 0 <= i < |s| ==> s[i] == x
    ensures Interp(s, m) == x as real
  {
  }

  /** When every vacancy has the same click count, all of them are in the
      top bucket. */
  lemma {:induction false} AllEqualTop(c: seq<int>, a: seq<int>, x: int)
    requires |c| >= 4 && |a| == |c|
    requires forall i :: 0 <= i < |c| ==> c[i] == x
    ensures TierBucket(c, a, Top).numVacancies == |c|
    ensures TierBucket(c, a, Middle).numVacancies == 0
    ensures TierBucket(c, a, Bottom).numVacancies == 0
  {
    var s := Sorted(c);
    forall i | 0 <= i < |s| ensures s[i] == x {
      assert s[i] in multiset(c);
    }
    InterpConstant(s, |c| - 1, x);
    InterpConstant(s, 3 * (|c| - 1), x);
    var q1, q3 := Percentile(c, 1), Percentile(c, 3);
    TierCountAll(c, q1, q3, Top);
    TierPartition(c, c, q1, q3);
  }

  // ---------------------------------------------------------------------------
  // get_performance_color
  // ---------------------------------------------------------------------------

  datatype Indicator = White | Green | Red | Yellow

  /** `get_performance_color`: white when either value is missing or the
      average is 0; otherwise green above +10 %, red below -10 % and yellow
      in between, measured relative to the average. */
  function PerformanceColor(value: Option<real>, avg: Option<real>): (c: Indicator)
    ensures c == White <==> value.None? || avg.None? || avg.value == 0.0
  {
    if value.None? || avg.None? || avg.value == 0.0 then White
    else
      var diffPct := (value.value - avg.value) / avg.value * 100.0;
      if diffPct > 10.0 then Green
      else if diffPct < -10.0 then Red
      else Yellow
  }

  /** For a positive average the colour compares the value with 110 % and
      90 % of the average. */
  lemma {:induction false} PerformanceColorPositive(value: real, avg: real)
    requires avg > 0.0
    ensures PerformanceColor(Some(value), Some(avg)) == Green <==> value > 1.1 * avg
    ensures PerformanceColor(Some(value), Some(avg)) == Red <==> value < 0.9 * avg
    ensures PerformanceColor(Some(value), Some(avg)) == Yellow <==> 0.9 * avg <= value <= 1.1 * avg
  {
    var d := (value - avg) / avg * 100.0;
    assert d * avg == (value - avg) * 100.0;
    assert d > 10.0 <==> d * avg > 10.0 * avg;
    assert d < -10.0 <==> d * avg < -10.0 * avg;
  }

  /** For a negative average the comparison flips: a value further below
      zero than 110 % of the average is green. */
  lemma {:induction false} PerformanceColorNegative(value: real, avg: real)
    requires avg < 0.0
    ensures PerformanceColor(Some(value), Some(avg)) == Green <==> value < 1.1 * avg
    ensures PerformanceColor(Some(value), Some(avg)) == Red <==> value > 0.9 * avg
  {
    var d := (value - avg) / avg * 100.0;
    assert d * avg == (value - avg) * 100.0;
    assert d > 10.0 <==> d * avg < 10.0 * avg;
    assert d < -10.0 <==> d * avg > -10.0 * avg;
  }

  // ---------------------------------------------------------------------------
  // A worked example
  // ---------------------------------------------------------------------------

  /** A row that carries only a vacancy id and an event name. */
  function EventRow(id: string, name: string): Row
  {
    Row(id, name, None, None, None, "", "", "", "", "", None, None, None, "", None, "", None, [])
  }

  predicate IsExampleRows(rows: seq<Row>)
  {
    rows == [EventRow("V1", JobVisit), EventRow("V1", JobVisit),
             EventRow("V1", JobApplyStart), EventRow("V2", JobVisit)]
  }

  lemma {:induction false} ExampleVacancies(rows: seq<Row>)
    requires IsExampleRows(rows)
    ensures Vacancies(rows) == ["V1", "V2"]
  {
    var e := EntityIds(rows);
    assert e == ["V1", "V1", "V1", "V2"];
    assert "V1" != "V2" by { assert "V1"[1] != "V2"[1]; }
    assert e[..1][..0] == [] && e[..2][..1] == e[..1] && e[..3][..2] == e[..2] && e[..4] == e;
    assert Distinct(e[..1]) == ["V1"];
    assert Distinct(e[..2]) == ["V1"];
    assert Distinct(e[..3]) == ["V1"];
  }

  lemma {:induction false} ExampleTotals(rows: seq<Row>)
    requires IsExampleRows(rows)
    ensures CountEvent(rows, JobVisit) == 3 && CountEvent(rows, JobApplyStart) == 1
  {
    var n := EventNames(rows);
    assert n == [JobVisit, JobVisit, JobApplyStart, JobVisit];
    assert JobVisit != JobApplyStart by { assert JobVisit[4] != JobApplyStart[4]; }
    assert n[..1][..0] == [] && n[..2][..1] == n[..1] && n[..3][..2] == n[..2];
    assert Count(n[..1], JobVisit) == 1 && Count(n[..1], JobApplyStart) == 0;
    assert Count(n[..2], JobVisit) == 2 && Count(n[..2], JobApplyStart) == 0;
    assert Count(n[..3], JobVisit) == 2 && Count(n[..3], JobApplyStart) == 1;
  }

  lemma {:induction false} ExampleVisitIds(rows: seq<Row>)
    requires IsExampleRows(rows)
    ensures IdsOfEvent(rows, JobVisit) == ["V1", "V1", "V2"]
  {
    assert JobVisit != JobApplyStart by { assert JobVisit[4] != JobApplyStart[4]; }
    IdsOfFourRows(rows, JobVisit);
  }

  /** The ids of four rows with an event name, spelt out row by row. */
  lemma {:induction false} IdsOfFourRows(rows: seq<Row>, name: string)
    requires |rows| == 4
    ensures IdsOfEvent(rows, name)
      == (if rows[0].eventName == name then [rows[0].entityId] else [])
       + (if rows[1].eventName == name then [rows[1].entityId] else [])
       + (if rows[2].eventName == name then [rows[2].entityId] else [])
       + (if rows[3].eventName == name then [rows[3].entityId] else [])
  {
    var r1, r2, r3 := rows[..1], rows[..2], rows[..3];
    assert r1[..0] == [] && r2[..1] == r1 && r3[..2] == r2 && rows[..3] == r3;
    IdsOfEventSnoc(r1, name);
    IdsOfEventSnoc(r2, name);
    IdsOfEventSnoc(r3, name);
    IdsOfEventSnoc(rows, name);
  }

  /** One more row adds its id when it has the event name. */
  lemma {:induction false} IdsOfEventSnoc(rows: seq<Row>, name: string)
    requires rows != []
    ensures IdsOfEvent(rows, name)
      == IdsOfEvent(rows[..|rows| - 1], name) + (if rows[|rows| - 1].eventName == name then [rows[|rows| - 1].entityId] else [])
  {
  }

  lemma {:induction false} ExampleClicks(rows: seq<Row>)
    requires IsExampleRows(rows)
    ensures ClickVector(rows) == [2, 1]
  {
    ExampleVacancies(rows);
    ExampleVisitIds(rows);
    var ids := IdsOfEvent(rows, JobVisit);
    assert "V1" != "V2" by { assert "V1"[1] != "V2"[1]; }
    assert ids[..2] == ["V1", "V1"] && ids[..2][..1] == ["V1"];
    assert Count(ids[..2][..1], "V1") == 1 && Count(ids[..2][..1], "V2") == 0;
    assert Count(ids[..2], "V1") == 2 && Count(ids[..2], "V2") == 0;
    assert Count(ids, "V1") == 2;
    assert Count(ids, "V2") == 1;
  }

  /** Rows (V1, visit), (V1, visit), (V1, apply), (V2, visit): two vacancies,
      three clicks, one apply, click vector [2, 1] and median clicks 1.5. */
  lemma {:induction false} MetricsExample(rows: seq<Row>)
    requires IsExampleRows(rows)
    ensures Vacancies(rows) == ["V1", "V2"]
    ensures CountEvent(rows, JobVisit) == 3 && CountEvent(rows, JobApplyStart) == 1
    ensures ClickVector(rows) == [2, 1]
    ensures Median(ClickVector(rows)) == 1.5
  {
    ExampleVacancies(rows);
    ExampleTotals(rows);
    ExampleClicks(rows);
    var v := ClickVector(rows);
    assert Ascending([1, 2]);
    assert multiset([1, 2]) == multiset(v);
    AscendingUnique(Sorted(v), [1, 2]);
  }
}
