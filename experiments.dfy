/** The A/B experiment engine (`ABTestManager`): a table of two-arm tests between two
    registered versions of one model type, per-arm running statistics while a test runs,
    a one-shot end that freezes the statistics and picks a winner from the first tracked
    metric, and promotion of the winner to the active version. */
module Experiments {
  import opened Common
  import opened Metrics
  import opened Statistics
  import opened Registry

  datatype Arm = VersionA | VersionB

  /** The `'status'` of a test: `'running'` or `'completed'`. */
  datatype Status = Running | Completed

  /** `{'sum', 'sum_squared', 'count'}` of one metric in one arm. */
  datatype MetricSums = MetricSums(sum: real, sumSquared: real, count: int)

  /** `test['results'][arm]`: `{'samples', 'metrics'}`. */
  datatype ArmStats = ArmStats(samples: int, metrics: map<string, MetricSums>)


  /** `test['final_metrics']`. */
  datatype FinalMetrics = FinalMetrics(
    versionA: map<string, Summary>,
    versionB: map<string, Summary>,
    comparisons: map<string, Difference>,
    winner: Option<Arm>)

  /** One entry of `tests`. */
  datatype Test = Test(
    id: string,
    name: string,
    modelType: string,
    versionA: string,
    versionB: string,
    trafficSplit: real,
    metrics: seq<string>,
    startDate: string,
    endDate: Option<string>,
    status: Status,
    resultsA: ArmStats,
    resultsB: ArmStats,
    finalMetrics: Option<FinalMetrics>)

  const DefaultMetrics: seq<string> := ["accuracy", "f1_score"]

  /** The percent change of the primary metric beyond which an arm wins. */
  const Threshold: real := 5.0

  const NoSamples: ArmStats := ArmStats(0, map[])

  const FreshSums: MetricSums := MetricSums(0.0, 0.0, 0)

  // ---------------------------------------------------------------- creation

  /** The flags that the validation loop of `create_test` leaves: the `elif` only looks
      for `b` in versions that are not `a`. */
  function Scan(s: seq<ModelVersion>, a: string, b: string): (bool, bool) {
    if |s| == 0 then (false, false)
    else
      var flags := Scan(s[..|s| - 1], a, b);
      var v := s[|s| - 1].version;
      if v == a then (true, flags.1)
      else if v == b then (flags.0, true)
      else flags
  }

  /** The loop finds `a` exactly when it is registered, and finds `b` exactly when it is
      registered and differs from `a`. */
  lemma {:induction false} ScanFinds(s: seq<ModelVersion>, a: string, b: string)
    ensures Scan(s, a, b).0 <==> exists i :: 0 <= i < |s| && s[i].version == a
    ensures Scan(s, a, b).1 <==> a != b && exists i :: 0 <= i < |s| && s[i].version == b
  {
    if |s| > 0 {
      var init := s[..|s| - 1];
      ScanFinds(init, a, b);
      assert forall i :: 0 <= i < |init| ==> init[i] == s[i];
    }
  }

  /** The error `create_test` reports, if any. */
  function Validate(versions: map<string, seq<ModelVersion>>, modelType: string, a: string, b: string): Option<Error> {
    if modelType !in versions then Some(ModelTypeNotFound(modelType))
    else
      var flags := Scan(versions[modelType], a, b);
      if !flags.0 then Some(VersionNotFound(a))
      else if !flags.1 then Some(VersionNotFound(b))
      else None
  }

  /** A test is created exactly when the model type is registered, both versions are
      registered under it, and the two versions differ. */
  lemma CreateAccepts(versions: map<string, seq<ModelVersion>>, modelType: string, a: string, b: string)
    ensures Validate(versions, modelType, a, b).None? <==>
      modelType in versions && a != b &&
      FirstIndex(versions[modelType], a).Some? && FirstIndex(versions[modelType], b).Some?
    ensures modelType in versions && a == b ==> Validate(versions, modelType, a, b).Some?
  {
    if modelType in versions {
      var s := versions[modelType];
      ScanFinds(s, a, b);
      if FirstIndex(s, a).None? {
        assert forall i :: 0 <= i < |s| ==> s[i].version != a;
      }
      if FirstIndex(s, b).None? {
        assert forall i :: 0 <= i < |s| ==> s[i].version != b;
      }
    }
  }

  /** The configuration `create_test` stores. */
  function NewTest(id: string, name: string, modelType: string, a: string, b: string,
                   split: real, metrics: seq<string>, startDate: string): (t: Test)
    ensures t.status == Running && t.endDate.None? && t.finalMetrics.None?
    ensures t.resultsA.samples == 0 && t.resultsB.samples == 0
    ensures |t.metrics| > 0
  {
    Test(id, name, modelType, a, b, split, if |metrics| == 0 then DefaultMetrics else metrics,
         startDate, None, Running, NoSamples, NoSamples, None)
  }

  // ---------------------------------------------------------------- recording

  function AddSamples(m: MetricSums, value: real, n: int): MetricSums {
    MetricSums(m.sum + value * (n as real), m.sumSquared + value * value * (n as real), m.count + n)
  }

  function SumsOf(metrics: map<string, MetricSums>, name: string): MetricSums {
    if name in metrics then metrics[name] else FreshSums
  }

  /** An arm after one `update_test_metrics` call with `sample_count = n`. */
  function Recorded(stats: ArmStats, values: map<string, real>, n: int): ArmStats {
    ArmStats(stats.samples + n,
             map k | k in stats.metrics.Keys + values.Keys ::
               if k in values then AddSamples(SumsOf(stats.metrics, k), values[k], n) else stats.metrics[k])
  }

  /** An arm after `n` calls with `sample_count = 1`. */
  function RecordedTimes(stats: ArmStats, values: map<string, real>, n: nat): ArmStats {
    if n == 0 then stats else Recorded(RecordedTimes(stats, values, n - 1), values, 1)
  }

  lemma AddSamplesSplit(m: MetricSums, value: real, a: int, b: int)
    ensures AddSamples(AddSamples(m, value, a), value, b) == AddSamples(m, value, a + b)
  {
    var ra, rb := a as real, b as real;
    assert (a + b) as real == ra + rb;
    Distribute(value, ra, rb);
    Distribute(value * value, ra, rb);
  }

  lemma Distribute(w: real, x: real, y: real)
    ensures w * x + w * y == w * (x + y)
  {
  }

  /** Two consecutive batches of the same values amount to one batch of the combined size. */
  lemma RecordedSplits(stats: ArmStats, values: map<string, real>, a: int, b: int)
    ensures Recorded(Recorded(stats, values, a), values, b) == Recorded(stats, values, a + b)
  {
    var once := Recorded(stats, values, a);
    var twice := Recorded(once, values, b);
    var whole := Recorded(stats, values, a + b);
    assert twice.metrics.Keys == whole.metrics.Keys;
    forall k | k in whole.metrics
      ensures twice.metrics[k] == whole.metrics[k]
    {
      if k in values {
        AddSamplesSplit(SumsOf(stats.metrics, k), values[k], a, b);
      }
    }
  }

  /** One call with `sample_count = n` equals `n` calls with `sample_count = 1`. */
  lemma {:induction false} BatchIsRepeatedUnits(stats: ArmStats, values: map<string, real>, n: nat)
    requires n >= 1
    ensures Recorded(stats, values, n) == RecordedTimes(stats, values, n)
  {
    if n > 1 {
      var prev := RecordedTimes(stats, values, n - 1);
      BatchIsRepeatedUnits(stats, values, n - 1);
      assert prev == Recorded(stats, values, n - 1);
      assert RecordedTimes(stats, values, n) == Recorded(prev, values, 1);
      RecordedSplits(stats, values, n - 1, 1);
    }
  }

  /** A call with `sample_count = 0` leaves the arm as it was exactly when it reports no
      metric that the arm has not seen: unseen metrics still get zero entries. */
  lemma ZeroBatch(stats: ArmStats, values: map<string, real>)
    ensures Recorded(stats, values, 0) == stats <==> values.Keys <= stats.metrics.Keys
  {
    var r := Recorded(stats, values, 0);
    if values.Keys <= stats.metrics.Keys {
      assert r.metrics.Keys == stats.metrics.Keys;
      forall k | k in stats.metrics
        ensures r.metrics[k] == stats.metrics[k]
      {
        if k in values {
          assert values[k] * (0 as real) == 0.0;
        }
      }
    } else {
      var k :| k in values.Keys && k !in stats.metrics.Keys;
      assert k in r.metrics;
    }
  }

  /** The sums of one metric over the unit samples `xs`. */
  function SamplesOf(xs: seq<real>): MetricSums {
    MetricSums(Sum(xs), SumSquares(xs), |xs|)
  }

  /** Recording one more unit sample `x` extends the sample sums by `x`. */
  lemma RecordSample(xs: seq<real>, x: real)
    ensures AddSamples(SamplesOf(xs), x, 1) == SamplesOf(xs + [x])
  {
    SumsAppend(xs, x);
  }

  // ---------------------------------------------------------------- ending

  /** Mean and clamped variance of one metric with a positive count. */
  function Summarize(m: MetricSums): (s: Summary)
    requires m.count > 0
    ensures s.variance >= 0.0
    ensures s.mean * (m.count as real) == m.sum
  {
    Moments(m.sum, m.sumSquared, m.count)
  }

  /** The mean of unit samples lies between the smallest and the largest sample. */
  lemma SummaryMeanBounds(xs: seq<real>, lo: real, hi: real)
    requires |xs| > 0
    requires forall i :: 0 <= i < |xs| ==> lo <= xs[i] <= hi
    ensures lo <= Summarize(SamplesOf(xs)).mean <= hi
  {
    MeanBounds(xs, lo, hi);
  }

  /** The variance of unit samples is their population variance: times the count it is
      the sum of squared deviations from the mean, so the clamp at zero never fires. */
  lemma {:induction false} SummaryVariance(xs: seq<real>)
    requires |xs| > 0
    ensures var s := Summarize(SamplesOf(xs));
      s.variance * (|xs| as real) == Deviations(xs, s.mean)
  {
    VarianceOfSamples(xs);
  }

  /** A batch of `n` samples of one value `v` has mean `v` and variance zero. */
  lemma SummaryOfConstant(v: real, n: int)
    requires n > 0
    ensures Summarize(MetricSums(v * (n as real), v * v * (n as real), n)) == Summary(v, 0.0)
  {
    var k := n as real;
    assert (v * k) / k == v;
    assert (v * v * k) / k == v * v;
  }

  /** The per-metric summaries of one arm: metrics with a positive count. */
  function ArmSummary(stats: ArmStats): map<string, Summary> {
    map k | k in stats.metrics && stats.metrics[k].count > 0 :: Summarize(stats.metrics[k])
  }

  /** The comparisons of the tracked metrics summarized in both arms. */
  function Comparisons(tracked: seq<string>, a: map<string, Summary>, b: map<string, Summary>): map<string, Difference> {
    map k | k in tracked && k in a && k in b :: Compare(a[k].mean, b[k].mean)
  }

  /** The ±5% rule; an infinite change (a baseline mean that is not positive) counts as an
      improvement. */
  function Decide(p: Percent): Option<Arm> {
    match p
    case Infinite => Some(VersionB)
    case Finite(x) => if x > Threshold then Some(VersionB) else if x < -Threshold then Some(VersionA) else None
  }

  /** The winner is decided by the first tracked metric alone. */
  function Winner(tracked: seq<string>, comparisons: map<string, Difference>): Option<Arm> {
    if |tracked| > 0 && tracked[0] in comparisons then Decide(comparisons[tracked[0]].percentChange) else None
  }

  function FinalOf(t: Test): FinalMetrics {
    var a := ArmSummary(t.resultsA);
    var b := ArmSummary(t.resultsB);
    var c := Comparisons(t.metrics, a, b);
    FinalMetrics(a, b, c, Winner(t.metrics, c))
  }

  /** A test after `end_test` at time `now`. */
  function Ended(t: Test, now: string): Test {
    t.(status := Completed, endDate := Some(now), finalMetrics := Some(FinalOf(t)))
  }

  /** Both arms have samples of the metric `k`. */
  predicate Compared(t: Test, k: string) {
    k in t.resultsA.metrics && t.resultsA.metrics[k].count > 0 &&
    k in t.resultsB.metrics && t.resultsB.metrics[k].count > 0
  }

  /** Without samples of the first tracked metric in both arms there is no winner. */
  lemma NoPrimaryNoWinner(t: Test)
    requires |t.metrics| == 0 || !Compared(t, t.metrics[0])
    ensures FinalOf(t).winner.None?
  {
  }

  /** With samples of the first tracked metric in both arms, with means `ma` and `mb`,
      B wins exactly when `ma` is not positive or `mb` exceeds `ma` by more than 5%,
      and A wins exactly when `ma` is positive and `mb` falls short of it by more than 5%. */
  lemma WinnerRule(t: Test)
    requires |t.metrics| > 0 && Compared(t, t.metrics[0])
    ensures var k := t.metrics[0];
      var ma := Summarize(t.resultsA.metrics[k]).mean;
      var mb := Summarize(t.resultsB.metrics[k]).mean;
      && (FinalOf(t).winner == Some(VersionB) <==> ma <= 0.0 || mb * 100.0 > ma * (100.0 + Threshold))
      && (FinalOf(t).winner == Some(VersionA) <==> ma > 0.0 && mb * 100.0 < ma * (100.0 - Threshold))
  {
    var k := t.metrics[0];
    var ma := Summarize(t.resultsA.metrics[k]).mean;
    var mb := Summarize(t.resultsB.metrics[k]).mean;
    var f := FinalOf(t);
    assert k in f.comparisons && f.comparisons[k] == Compare(ma, mb);
    if ma > 0.0 {
      PercentChangeThreshold(ma, mb, Threshold);
    }
  }

  /** Two tests with the same first tracked metric and the same sums for it in both arms
      have the same winner, whatever else they track or record. */
  lemma WinnerIgnoresOtherMetrics(t: Test, u: Test)
    requires |t.metrics| > 0 && |u.metrics| > 0 && t.metrics[0] == u.metrics[0]
    requires SumsOf(t.resultsA.metrics, t.metrics[0]) == SumsOf(u.resultsA.metrics, u.metrics[0])
    requires SumsOf(t.resultsB.metrics, t.metrics[0]) == SumsOf(u.resultsB.metrics, u.metrics[0])
    ensures FinalOf(t).winner == FinalOf(u).winner
  {
    var k := t.metrics[0];
    assert Compared(t, k) <==> Compared(u, k);
    if Compared(t, k) {
      WinnerRule(t);
      WinnerRule(u);
    }
  }

  /** Accuracy means 0.70 against 0.78 over 100 samples each: B wins. */
  lemma ClearImprovementScenario(t: Test)
    requires |t.metrics| > 0 && t.metrics[0] == "accuracy"
    requires "accuracy" in t.resultsA.metrics && t.resultsA.metrics["accuracy"] == MetricSums(70.0, 49.0, 100)
    requires "accuracy" in t.resultsB.metrics && t.resultsB.metrics["accuracy"] == MetricSums(78.0, 60.84, 100)
    ensures FinalOf(t).winner == Some(VersionB)
  {
    WinnerRule(t);
    assert Summarize(t.resultsA.metrics["accuracy"]).mean == 0.7;
    assert Summarize(t.resultsB.metrics["accuracy"]).mean == 0.78;
  }

  /** Accuracy means 0.75 against 0.76: a change of about 1.3%, so no winner. */
  lemma SmallChangeScenario(t: Test)
    requires |t.metrics| > 0 && t.metrics[0] == "accuracy"
    requires "accuracy" in t.resultsA.metrics && t.resultsA.metrics["accuracy"] == MetricSums(75.0, 56.25, 100)
    requires "accuracy" in t.resultsB.metrics && t.resultsB.metrics["accuracy"] == MetricSums(76.0, 57.76, 100)
    ensures FinalOf(t).winner.None?
  {
    WinnerRule(t);
    assert Summarize(t.resultsA.metrics["accuracy"]).mean == 0.75;
    assert Summarize(t.resultsB.metrics["accuracy"]).mean == 0.76;
  }

  // ---------------------------------------------------------------- results

  /** The fields that `get_test_results` copies from the test. */
  datatype Header = Header(
    id: string, name: string, status: Status, startDate: string,
    modelType: string, versionA: string, versionB: string)

  datatype TestResults =
    | Frozen(header: Header, endDate: Option<string>, final: FinalMetrics)
    | Live(header: Header, versionA: map<string, Summary>, versionB: map<string, Summary>,
           samplesA: int, samplesB: int)

  function HeaderOf(t: Test): Header {
    Header(t.id, t.name, t.status, t.startDate, t.modelType, t.versionA, t.versionB)
  }

  /** `get_test_results`: the frozen final metrics of a completed test, otherwise the
      current summaries and sample counts. */
  function ResultsOf(t: Test): TestResults {
    if t.status == Completed && t.finalMetrics.Some? then Frozen(HeaderOf(t), t.endDate, t.finalMetrics.value)
    else Live(HeaderOf(t), ArmSummary(t.resultsA), ArmSummary(t.resultsB), t.resultsA.samples, t.resultsB.samples)
  }

  /** After `end_test` the results are the final metrics computed from the statistics the
      test had when it was ended, and they are the summaries it showed just before. */
  lemma EndedResultsFrozen(t: Test, now: string)
    requires t.status == Running
    ensures ResultsOf(Ended(t, now)) == Frozen(HeaderOf(t).(status := Completed), Some(now), FinalOf(t))
    ensures ResultsOf(t).Live? && ResultsOf(t).versionA == FinalOf(t).versionA && ResultsOf(t).versionB == FinalOf(t).versionB
  {
  }

  // ---------------------------------------------------------------- promotion

  /** The version `promote_winner` makes active, if the test has a winner. */
  function PromotionTarget(t: Test): Option<string> {
    if t.status != Completed || t.finalMetrics.None? then None
    else match t.finalMetrics.value.winner
      case None => None
      case Some(VersionA) => Some(t.versionA)
      case Some(VersionB) => Some(t.versionB)
  }

  /** An ended test promotes exactly the version of the arm that won. */
  lemma PromoteAfterEnd(t: Test, now: string)
    ensures PromotionTarget(Ended(t, now)).Some? <==> FinalOf(t).winner.Some?
    ensures FinalOf(t).winner == Some(VersionA) ==> PromotionTarget(Ended(t, now)) == Some(t.versionA)
    ensures FinalOf(t).winner == Some(VersionB) ==> PromotionTarget(Ended(t, now)) == Some(t.versionB)
  {
  }

  // ---------------------------------------------------------------- the table

  /** A test updated by `update_test_metrics` for the arm of `version`. */
  function RecordArm(t: Test, version: string, values: map<string, real>, n: int): Test
    requires version == t.versionA || version == t.versionB
  {
    if version == t.versionA then t.(resultsA := Recorded(t.resultsA, values, n))
    else t.(resultsB := Recorded(t.resultsB, values, n))
  }

  /** Batches into one arm combine as in `RecordedSplits`; nothing but that arm changes. */
  lemma RecordArmSplits(t: Test, version: string, values: map<string, real>, a: int, b: int)
    requires version == t.versionA || version == t.versionB
    ensures RecordArm(RecordArm(t, version, values, a), version, values, b) == RecordArm(t, version, values, a + b)
    ensures var u := RecordArm(t, version, values, a);
      u.status == t.status && u.metrics == t.metrics && u.finalMetrics == t.finalMetrics
  {
    if version == t.versionA {
      RecordedSplits(t.resultsA, values, a, b);
    } else {
      RecordedSplits(t.resultsB, values, a, b);
    }
  }

  predicate Matches(t: Test, status: Option<Status>) {
    status.None? || t.status == status.value
  }

  /** The tests in table order, filtered by status. */
  function Listing(ids: seq<string>, tests: map<string, Test>, status: Option<Status>): (r: seq<Test>)
    requires forall i :: 0 <= i < |ids| ==> ids[i] in tests
    ensures |r| <= |ids|
  {
    if |ids| == 0 then []
    else
      var t := tests[ids[|ids| - 1]];
      Listing(ids[..|ids| - 1], tests, status) + if Matches(t, status) then [t] else []
  }

  /** A listed test is a test of the table with the requested status, and every such
      test is listed. */
  lemma {:induction false} ListingMembers(ids: seq<string>, tests: map<string, Test>, status: Option<Status>, t: Test)
    requires forall i :: 0 <= i < |ids| ==> ids[i] in tests
    ensures t in Listing(ids, tests, status) <==>
      Matches(t, status) && exists i :: 0 <= i < |ids| && tests[ids[i]] == t
  {
    if |ids| > 0 {
      var init := ids[..|ids| - 1];
      ListingMembers(init, tests, status, t);
      assert forall i :: 0 <= i < |init| ==> init[i] == ids[i];
      if Matches(t, status) && tests[ids[|ids| - 1]] != t {
        if exists i :: 0 <= i < |ids| && tests[ids[i]] == t {
          var i :| 0 <= i < |ids| && tests[ids[i]] == t;
          assert i < |init|;
        }
      }
    }
  }

  /** Without a filter every test is listed, in table order. */
  lemma {:induction false} ListingUnfiltered(ids: seq<string>, tests: map<string, Test>)
    requires forall i :: 0 <= i < |ids| ==> ids[i] in tests
    ensures |Listing(ids, tests, None)| == |ids|
    ensures forall i :: 0 <= i < |ids| ==> Listing(ids, tests, None)[i] == tests[ids[i]]
  {
    if |ids| > 0 {
      ListingUnfiltered(ids[..|ids| - 1], tests);
    }
  }

  /** `tests` as a Python dictionary: `order` lists its keys once each, in insertion order. */
  ghost predicate InsertionOrder(order: seq<string>, tests: map<string, Test>) {
    (forall i, j :: 0 <= i < j < |order| ==> order[i] != order[j]) &&
    (forall k :: k in tests <==> k in order)
  }

  lemma InsertionOrderPut(order: seq<string>, tests: map<string, Test>, id: string, t: Test)
    requires InsertionOrder(order, tests)
    ensures InsertionOrder(if id in tests then order else order + [id], tests[id := t])
  {
  }

  class ABTestManager {
    const registry: ModelManager
    var tests: map<string, Test>
    var order: seq<string>

    ghost predicate Valid()
      reads this
    {
      InsertionOrder(order, tests)
    }

    /** `__init__` with `load_tests`: `saved` is the stored table, `savedOrder` its key order. */
    constructor (registry: ModelManager, savedOrder: seq<string>, saved: map<string, Test>)
      requires InsertionOrder(savedOrder, saved)
      ensures Valid()
      ensures this.registry == registry && tests == saved && order == savedOrder
    {
      this.registry := registry;
      tests := saved;
      order := savedOrder;
    }

    /** `create_test` at the moment whose `'%Y%m%d%H%M%S'` rendering is `stamp` and whose ISO
        rendering is `startDate`; an empty `metrics` stands for the default. */
    method CreateTest(name: string, modelType: string, versionA: string, versionB: string,
                      stamp: string, startDate: string, trafficSplit: real := 0.5, metrics: seq<string> := [])
      returns (r: Result<Test>)
      requires Valid()
      modifies this`tests, this`order
      ensures Valid()
      ensures var e := Validate(registry.versions, modelType, versionA, versionB);
        && (r.Err? <==> e.Some?)
        && (r.Err? ==> r.error == e.value && tests == old(tests) && order == old(order))
      ensures r.Ok? ==> r.value == NewTest("test_" + stamp, name, modelType, versionA, versionB,
                                           trafficSplit, metrics, startDate)
      ensures r.Ok? ==> tests == old(tests)[r.value.id := r.value]
      ensures r.Ok? ==> order == if r.value.id in old(tests) then old(order) else old(order) + [r.value.id]
      ensures r.Ok? ==> GetTest(r.value.id) == Ok(r.value)
    {
      if modelType !in registry.versions {
        return Err(ModelTypeNotFound(modelType));
      }
      var s := registry.versions[modelType];
      var foundA, foundB := false, false;
      var i := 0;
      while i < |s|
        invariant 0 <= i <= |s|
        invariant (foundA, foundB) == Scan(s[..i], versionA, versionB)
      {
        assert s[..i + 1][..i] == s[..i];
        if s[i].version == versionA {
          foundA := true;
        } else if s[i].version == versionB {
          foundB := true;
        }
        i := i + 1;
      }
      assert s[..i] == s;
      if !foundA {
        return Err(VersionNotFound(versionA));
      }
      if !foundB {
        return Err(VersionNotFound(versionB));
      }
      var t := NewTest("test_" + stamp, name, modelType, versionA, versionB, trafficSplit, metrics, startDate);
      InsertionOrderPut(order, tests, t.id, t);
      if t.id !in tests {
        order := order + [t.id];
      }
      tests := tests[t.id := t];
      r := Ok(t);
    }

    /** `get_test`. */
    function GetTest(id: string): (r: Result<Test>)
      reads this
      ensures r.Ok? <==> id in tests
      ensures r.Ok? ==> r.value == tests[id]
      ensures r.Err? ==> r.error == TestNotFound(id)
    {
      if id in tests then Ok(tests[id]) else Err(TestNotFound(id))
    }

    /** `list_tests`, with `None` for "no filter". */
    function ListTests(status: Option<Status>): (r: seq<Test>)
      reads this
      requires Valid()
      ensures |r| <= |tests|
    {
      assert forall i :: 0 <= i < |order| ==> order[i] in tests;
      ListingLength(order, tests);
      Listing(order, tests, status)
    }

    /** `update_test_metrics` with `sample_count = n`. */
    method UpdateTestMetrics(id: string, version: string, values: map<string, real>, n: int := 1)
      returns (ok: bool)
      requires Valid()
      modifies this`tests
      ensures Valid()
      ensures ok <==> id in old(tests) && old(tests)[id].status == Running &&
                      (version == old(tests)[id].versionA || version == old(tests)[id].versionB)
      ensures ok ==> tests == old(tests)[id := RecordArm(old(tests)[id], version, values, n)]
      ensures !ok ==> tests == old(tests)
    {
      if id !in tests {
        return false;
      }
      var t := tests[id];
      if t.status != Running {
        return false;
      }
      if version == t.versionA {
        var arm := RecordAll(t.resultsA, values, n);
        t := t.(resultsA := arm);
      } else if version == t.versionB {
        var arm := RecordAll(t.resultsB, values, n);
        t := t.(resultsB := arm);
      } else {
        return false;
      }
      tests := tests[id := t];
      return true;
    }

    /** The loop of `update_test_metrics` over the reported metrics. */
    static method RecordAll(stats: ArmStats, values: map<string, real>, n: int) returns (r: ArmStats)
      ensures r == Recorded(stats, values, n)
    {
      var metrics := stats.metrics;
      var rest := values.Keys;
      while rest != {}
        invariant rest <= values.Keys
        invariant metrics.Keys == stats.metrics.Keys + (values.Keys - rest)
        invariant forall k :: k in metrics ==>
          metrics[k] == if k in values && k !in rest then AddSamples(SumsOf(stats.metrics, k), values[k], n) else stats.metrics[k]
        decreases rest
      {
        var k :| k in rest;
        var m := if k in metrics then metrics[k] else FreshSums;
        metrics := metrics[k := AddSamples(m, values[k], n)];
        rest := rest - {k};
      }
      r := ArmStats(stats.samples + n, metrics);
    }

    /** `end_test` at the moment whose ISO rendering is `now`. */
    method EndTest(id: string, now: string) returns (r: Result<Test>)
      requires Valid()
      modifies this`tests
      ensures Valid()
      ensures id !in old(tests) ==> r == Err(TestNotFound(id))
      ensures id in old(tests) && old(tests)[id].status != Running ==> r == Err(TestNotRunning(id))
      ensures id in old(tests) && old(tests)[id].status == Running ==> r == Ok(Ended(old(tests)[id], now))
      ensures r.Ok? ==> tests == old(tests)[id := r.value]
      ensures r.Err? ==> tests == old(tests)
    {
      if id !in tests {
        return Err(TestNotFound(id));
      }
      var t := tests[id];
      if t.status != Running {
        return Err(TestNotRunning(id));
      }
      var a := SummarizeArm(t.resultsA);
      var b := SummarizeArm(t.resultsB);
      var c := CompareArms(t.metrics, a, b);
      var final := FinalMetrics(a, b, c, Winner(t.metrics, c));
      t := t.(status := Completed, endDate := Some(now), finalMetrics := Some(final));
      tests := tests[id := t];
      return Ok(t);
    }

    /** The per-arm loop of `end_test` and `get_test_results`. */
    static method SummarizeArm(stats: ArmStats) returns (r: map<string, Summary>)
      ensures r == ArmSummary(stats)
    {
      r := map[];
      var rest := stats.metrics.Keys;
      while rest != {}
        invariant rest <= stats.metrics.Keys
        invariant forall k :: k in r <==> k in stats.metrics && k !in rest && stats.metrics[k].count > 0
        invariant forall k :: k in r ==> r[k] == Summarize(stats.metrics[k])
        decreases rest
      {
        var k :| k in rest;
        if stats.metrics[k].count > 0 {
          r := r[k := Summarize(stats.metrics[k])];
        }
        rest := rest - {k};
      }
    }

    /** The comparison loop of `end_test` over the tracked metrics. */
    static method CompareArms(tracked: seq<string>, a: map<string, Summary>, b: map<string, Summary>)
      returns (c: map<string, Difference>)
      ensures c == Comparisons(tracked, a, b)
    {
      c := map[];
      for i := 0 to |tracked|
        invariant forall k :: k in c <==> k in tracked[..i] && k in a && k in b
        invariant forall k :: k in c ==> c[k] == Compare(a[k].mean, b[k].mean)
      {
        var k := tracked[i];
        assert tracked[..i + 1] == tracked[..i] + [k];
        if k in a && k in b {
          c := c[k := Compare(a[k].mean, b[k].mean)];
        }
      }
      assert tracked[..|tracked|] == tracked;
    }

    /** `get_test_results`. */
    function GetTestResults(id: string): (r: Result<TestResults>)
      reads this
      ensures r.Err? <==> id !in tests
      ensures r.Ok? && tests[id].status == Completed && tests[id].finalMetrics.Some? ==>
        r.value.Frozen? && r.value.final == tests[id].finalMetrics.value
      ensures r.Ok? && tests[id].status == Running ==>
        (r.value.Live? && r.value.versionA == FinalOf(tests[id]).versionA && r.value.versionB == FinalOf(tests[id]).versionB)
    {
      if id in tests then Ok(ResultsOf(tests[id])) else Err(TestNotFound(id))
    }

    /** `promote_winner`. */
    method PromoteWinner(id: string) returns (ok: bool)
      requires registry.Valid()
      modifies registry`active, registry`pointers
      ensures registry.Valid()
      ensures ok <==> (id in tests && PromotionTarget(tests[id]).Some? &&
        tests[id].modelType in registry.versions &&
        FirstIndex(registry.versions[tests[id].modelType], PromotionTarget(tests[id]).value).Some?)
      ensures ok ==> (registry.GetActiveVersion(tests[id].modelType).Some? &&
        registry.GetActiveVersion(tests[id].modelType).value.version == PromotionTarget(tests[id]).value)
      ensures ok ==> registry.active == old(registry.active)[tests[id].modelType :=
        registry.versions[tests[id].modelType][FirstIndex(registry.versions[tests[id].modelType], PromotionTarget(tests[id]).value).value]]
      ensures ok ==> registry.pointers == old(registry.pointers)[tests[id].modelType := PromotionTarget(tests[id]).value]
      ensures !ok ==> registry.active == old(registry.active) && registry.pointers == old(registry.pointers)
    {
      if id !in tests {
        return false;
      }
      var t := tests[id];
      if t.status != Completed {
        return false;
      }
      if t.finalMetrics.None? || t.finalMetrics.value.winner.None? {
        return false;
      }
      var version := if t.finalMetrics.value.winner == Some(VersionA) then t.versionA else t.versionB;
      ok := registry.SetActiveVersion(t.modelType, version);
    }
  }

  lemma {:induction false} ListingLength(ids: seq<string>, tests: map<string, Test>)
    requires InsertionOrder(ids, tests)
    ensures |ids| == |tests|
  {
    assert tests.Keys == set i | 0 <= i < |ids| :: ids[i];
    DistinctCard(ids);
  }

  lemma {:induction false} DistinctCard(ids: seq<string>)
    requires forall i, j :: 0 <= i < j < |ids| ==> ids[i] != ids[j]
    ensures |set i | 0 <= i < |ids| :: ids[i]| == |ids|
  {
    if |ids| > 0 {
      var init := ids[..|ids| - 1];
      DistinctCard(init);
      var s := set i | 0 <= i < |init| :: init[i];
      assert (set i | 0 <= i < |ids| :: ids[i]) == s + {ids[|ids| - 1]};
    }
  }
}
