/** `ScoreNormalizer`: running statistics over added grades, and three list transforms
    that rescale, curve and letter-grade a list of scores against the normalizer's range
    `[minScore, maxScore]` and passing threshold. */
module Scoring {
  import opened Common
  import opened Sorting
  import opened Statistics

  /** A running minimum or maximum; it starts at plus or minus infinity. */
  datatype Extreme = NegInf | Finite(value: real) | PosInf

  /** Python's `min(b, x)`: `x` replaces `b` only when it is smaller. */
  function Lower(b: Extreme, x: real): (r: Extreme)
    ensures r == b || r == Finite(x)
    ensures r.Finite? ==> r.value <= x
    ensures b.Finite? ==> r.Finite? && r.value <= b.value
  {
    match b
    case NegInf => NegInf
    case Finite(y) => if x < y then Finite(x) else b
    case PosInf => Finite(x)
  }

  /** Python's `max(b, x)`: `x` replaces `b` only when it is larger. */
  function Upper(b: Extreme, x: real): (r: Extreme)
    ensures r == b || r == Finite(x)
    ensures r.Finite? ==> x <= r.value
    ensures b.Finite? ==> r.Finite? && b.value <= r.value
  {
    match b
    case NegInf => Finite(x)
    case Finite(y) => if x > y then Finite(x) else b
    case PosInf => PosInf
  }

  /** Python's `min(xs)` of a non-empty list. */
  function Min(xs: seq<real>): (m: real)
    requires |xs| > 0
    ensures m in xs
    ensures forall i :: 0 <= i < |xs| ==> m <= xs[i]
  {
    if |xs| == 1 then xs[0]
    else
      var rest := Min(xs[..|xs| - 1]);
      if xs[|xs| - 1] < rest then xs[|xs| - 1] else rest
  }

  /** Python's `max(xs)` of a non-empty list. */
  function Max(xs: seq<real>): (m: real)
    requires |xs| > 0
    ensures m in xs
    ensures forall i :: 0 <= i < |xs| ==> xs[i] <= m
  {
    if |xs| == 1 then xs[0]
    else
      var rest := Max(xs[..|xs| - 1]);
      if xs[|xs| - 1] > rest then xs[|xs| - 1] else rest
  }

  /** The running extremes of a list: infinite while it is empty. */
  function LowestOf(xs: seq<real>): Extreme {
    if |xs| == 0 then PosInf else Finite(Min(xs))
  }

  function HighestOf(xs: seq<real>): Extreme {
    if |xs| == 0 then NegInf else Finite(Max(xs))
  }

  /** Folding one more score into the running extremes. */
  lemma ExtremesAppend(xs: seq<real>, x: real)
    ensures LowestOf(xs + [x]) == Lower(LowestOf(xs), x)
    ensures HighestOf(xs + [x]) == Upper(HighestOf(xs), x)
  {
    if |xs| > 0 {
      assert (xs + [x])[..|xs|] == xs;
    }
  }

  /** The dictionary returned by `get_statistics`, with the standard deviation kept as
      its square. */
  datatype ScoreStats = ScoreStats(count: int, sum: real, sumSquared: real, min: Extreme, max: Extreme,
                                   mean: real, variance: real)

  // ---------------------------------------------------------------- normalizing

  /** One score of `normalize_scores` when the scores span `[lo, hi]`, `lo < hi`. */
  function Rescale(x: real, lo: real, hi: real, low: real, high: real): real
    requires lo < hi
  {
    ((x - lo) / (hi - lo)) * (high - low) + low
  }

  /** `normalize_scores`: empty stays empty, an all-equal list becomes all `high`, and
      otherwise every score is rescaled linearly from the list's range onto `[low, high]`. */
  function Normalized(scores: seq<real>, low: real, high: real): (r: seq<real>)
    ensures |r| == |scores|
  {
    if |scores| == 0 then []
    else if Min(scores) == Max(scores) then seq(|scores|, i => high)
    else seq(|scores|, i requires 0 <= i < |scores| => Rescale(scores[i], Min(scores), Max(scores), low, high))
  }

  /** The share of the range below `x` is a fraction in `[0, 1]`, growing with `x`. */
  lemma FractionBounds(x: real, y: real, lo: real, hi: real)
    requires lo < hi && lo <= x <= y <= hi
    ensures 0.0 <= (x - lo) / (hi - lo) <= (y - lo) / (hi - lo) <= 1.0
  {
    var d := hi - lo;
    assert (x - lo) / d * d == x - lo;
    assert (y - lo) / d * d == y - lo;
  }

  /** A fraction in `[0, 1]` of a non-negative width stays within that width, in order. */
  lemma ScaleBounds(f: real, g: real, w: real)
    requires 0.0 <= f <= g <= 1.0 && w >= 0.0
    ensures 0.0 <= f * w <= g * w <= w
  {
    assert g * w - f * w == (g - f) * w;
    assert w - g * w == (1.0 - g) * w;
  }

  /** A rescaled score lies in `[low, high]`, and rescaling keeps the order of scores. */
  lemma RescaleMonotone(x: real, y: real, lo: real, hi: real, low: real, high: real)
    requires lo < hi && lo <= x <= y <= hi && low <= high
    ensures low <= Rescale(x, lo, hi, low, high) <= Rescale(y, lo, hi, low, high) <= high
  {
    FractionBounds(x, y, lo, hi);
    ScaleBounds((x - lo) / (hi - lo), (y - lo) / (hi - lo), high - low);
  }

  /** The ends of the range map to the ends of the target range. */
  lemma RescaleEnds(lo: real, hi: real, low: real, high: real)
    requires lo < hi
    ensures Rescale(lo, lo, hi, low, high) == low
    ensures Rescale(hi, lo, hi, low, high) == high
  {
    assert (hi - lo) / (hi - lo) == 1.0;
  }

  /** Every normalized score lies in `[low, high]`, the smallest input becomes `low` and
      the largest `high` (unless all inputs are equal, when every output is `high`),
      and the order of the inputs is kept. */
  lemma NormalizedRange(scores: seq<real>, low: real, high: real, i: int, j: int)
    requires 0 <= i < |scores| && 0 <= j < |scores| && low <= high
    ensures low <= Normalized(scores, low, high)[i] <= high
    ensures scores[i] == Max(scores) ==> Normalized(scores, low, high)[i] == high
    ensures scores[i] == Min(scores) && Min(scores) != Max(scores) ==> Normalized(scores, low, high)[i] == low
    ensures scores[i] <= scores[j] ==> Normalized(scores, low, high)[i] <= Normalized(scores, low, high)[j]
  {
    var lo, hi := Min(scores), Max(scores);
    if lo != hi {
      RescaleEnds(lo, hi, low, high);
      if scores[i] <= scores[j] {
        RescaleMonotone(scores[i], scores[j], lo, hi, low, high);
      } else {
        RescaleMonotone(scores[j], scores[i], lo, hi, low, high);
      }
    }
  }

  /** Normalizing a list of equal scores gives `high` everywhere. */
  lemma NormalizedConstant(scores: seq<real>, low: real, high: real)
    requires |scores| > 0 && forall i :: 0 <= i < |scores| ==> scores[i] == scores[0]
    ensures Normalized(scores, low, high) == seq(|scores|, i => high)
  {
    assert Min(scores) == scores[0] == Max(scores);
  }

  // ---------------------------------------------------------------- curving

  /** `min(high, max(low, x))`. */
  function Clamp(x: real, low: real, high: real): (r: real)
    ensures r <= high
    ensures low <= high ==> low <= r
    ensures low <= x <= high ==> r == x
  {
    var m := if x > low then x else low;
    if m < high then m else high
  }

  lemma ClampMonotone(x: real, y: real, low: real, high: real)
    requires x <= y
    ensures Clamp(x, low, high) <= Clamp(y, low, high)
  {
  }

  /** The mean `sum(scores) / len(scores)` of a non-empty list. */
  function Mean(scores: seq<real>): real
    requires |scores| > 0
  {
    Sum(scores) / (|scores| as real)
  }

  /** Every score moved by `shift`, then clamped into `[low, high]`. */
  function Shifted(scores: seq<real>, low: real, high: real, shift: real): (r: seq<real>)
    ensures |r| == |scores|
    ensures forall i :: 0 <= i < |r| ==> r[i] <= high
    ensures low <= high ==> forall i :: 0 <= i < |r| ==> low <= r[i]
  {
    seq(|scores|, i requires 0 <= i < |scores| => Clamp(scores[i] + shift, low, high))
  }

  /** `apply_curve` with an explicit target: every score moves by the distance from the
      list's mean to the target, then is clamped into `[low, high]`. */
  function Curved(scores: seq<real>, low: real, high: real, target: real): (r: seq<real>)
    ensures |r| == |scores|
    ensures forall i :: 0 <= i < |r| ==> r[i] <= high
    ensures low <= high ==> forall i :: 0 <= i < |r| ==> low <= r[i]
  {
    if |scores| == 0 then [] else Shifted(scores, low, high, target - Mean(scores))
  }

  /** Curving keeps the order of the scores. */
  lemma CurvedKeepsOrder(scores: seq<real>, low: real, high: real, target: real, i: int, j: int)
    requires 0 <= i < |scores| && 0 <= j < |scores| && scores[i] <= scores[j]
    ensures Curved(scores, low, high, target)[i] <= Curved(scores, low, high, target)[j]
  {
    var shift := target - Mean(scores);
    assert Curved(scores, low, high, target) == Shifted(scores, low, high, shift);
    ClampMonotone(scores[i] + shift, scores[j] + shift, low, high);
  }

  /** Adding the same amount to every element adds `n` times it to the sum. */
  lemma {:induction false} SumShift(xs: seq<real>, ys: seq<real>, c: real)
    requires |xs| == |ys|
    requires forall i :: 0 <= i < |xs| ==> ys[i] == xs[i] + c
    ensures Sum(ys) == Sum(xs) + (|xs| as real) * c
  {
    if |xs| > 0 {
      var n := |xs| - 1;
      SumShift(xs[..n], ys[..n], c);
      assert (n as real) * c + c == (|xs| as real) * c;
    }
  }

  /** Scores that stay inside the range after the shift are only shifted. */
  lemma ShiftedUnclamped(scores: seq<real>, low: real, high: real, shift: real)
    requires forall i :: 0 <= i < |scores| ==> low <= scores[i] + shift <= high
    ensures forall i :: 0 <= i < |scores| ==> Shifted(scores, low, high, shift)[i] == scores[i] + shift
  {
  }

  /** When no curved score needs clamping, the curved list has exactly the target mean. */
  lemma CurvedHitsTarget(scores: seq<real>, low: real, high: real, target: real)
    requires |scores| > 0
    requires forall i :: 0 <= i < |scores| ==> low <= scores[i] + (target - Mean(scores)) <= high
    ensures Mean(Curved(scores, low, high, target)) == target
  {
    var shift := target - Mean(scores);
    var r := Shifted(scores, low, high, shift);
    assert Curved(scores, low, high, target) == r;
    ShiftedUnclamped(scores, low, high, shift);
    SumShift(scores, r, shift);
    ShiftedMean(Sum(scores), |scores| as real, target);
  }

  /** Shifting every sample by the distance from their mean to `t` gives mean `t`. */
  lemma ShiftedMean(s: real, n: real, t: real)
    requires n > 0.0
    ensures (s + n * (t - s / n)) / n == t
  {
    assert n * (s / n) == s;
    assert s + n * (t - s / n) == n * t;
  }

  // ---------------------------------------------------------------- percentile grading

  /** One entry of the grade-to-minimum-percentile dictionary, in its insertion order. */
  datatype Threshold = Threshold(grade: string, minPercentile: real)

  /** `{'A': 90, 'B': 80, 'C': 70, 'D': 60, 'F': 0}`. */
  const DefaultPercentiles: seq<Threshold> :=
    [Threshold("A", 90.0), Threshold("B", 80.0), Threshold("C", 70.0), Threshold("D", 60.0), Threshold("F", 0.0)]

  /** The result list's `(score, letter_grade)` pairs. */
  datatype GradedScore = GradedScore(score: real, letter: string)

  function Identity(x: real): real { x }

  function Descending(t: Threshold): real { -t.minPercentile }

  /** `sorted(percentiles.items(), key=..., reverse=True)`: highest threshold first,
      equal thresholds in insertion order. */
  function ByThreshold(ps: seq<Threshold>): (r: seq<Threshold>)
    ensures multiset(r) == multiset(ps)
    ensures forall t :: t in r <==> t in ps
    ensures forall i, j :: 0 <= i < j < |r| ==> r[j].minPercentile <= r[i].minPercentile
    ensures forall k :: WithKey(r, k, Descending) == WithKey(ps, k, Descending)
  {
    var r := SortAsc(ps, Descending);
    SortAscSorted(ps, Descending);
    SortAscPermutes(ps, Descending);
    forall t ensures t in r <==> t in ps {
      SortedElement(ps, Descending, t);
    }
    forall k ensures WithKey(r, k, Descending) == WithKey(ps, k, Descending) {
      SortAscStable(ps, k, Descending);
    }
    assert forall i, j :: 0 <= i < j < |r| ==> Descending(r[i]) <= Descending(r[j]);
    r
  }

  /** `{'A': 90, 'A+': 90}`: equal thresholds keep their insertion order, so a percentile
      reaching both gets the grade listed first. */
  lemma TiedThresholdsKeepOrder()
    ensures ByThreshold([Threshold("A", 90.0), Threshold("A+", 90.0)]) == [Threshold("A", 90.0), Threshold("A+", 90.0)]
    ensures Letter(ByThreshold([Threshold("A", 90.0), Threshold("A+", 90.0)]), 95.0) == "A"
  {
    var ps := [Threshold("A", 90.0), Threshold("A+", 90.0)];
    assert Ascending(ps, Descending);
    SortAscOfSorted(ps, Descending);
  }

  /** The first grade in `ordered` whose threshold `p` reaches, else `"F"`. */
  function Letter(ordered: seq<Threshold>, p: real): string {
    if |ordered| == 0 then "F"
    else if p >= ordered[0].minPercentile then ordered[0].grade
    else Letter(ordered[1..], p)
  }

  /** Over thresholds in descending order, the letter is the grade of the largest
      threshold that `p` reaches; when `p` reaches none it is `"F"`. */
  lemma {:induction false} LetterIsLargestReached(ordered: seq<Threshold>, p: real)
    requires forall i, j :: 0 <= i < j < |ordered| ==> ordered[j].minPercentile <= ordered[i].minPercentile
    ensures (forall i :: 0 <= i < |ordered| ==> p < ordered[i].minPercentile) ==> Letter(ordered, p) == "F"
    ensures (exists i :: 0 <= i < |ordered| && ordered[i].minPercentile <= p) ==>
      exists k :: 0 <= k < |ordered| && Letter(ordered, p) == ordered[k].grade
        && ordered[k].minPercentile <= p
        && forall i :: 0 <= i < |ordered| && ordered[i].minPercentile <= p ==> ordered[i].minPercentile <= ordered[k].minPercentile
  {
    if |ordered| > 0 && p < ordered[0].minPercentile {
      var rest := ordered[1..];
      LetterIsLargestReached(rest, p);
      if exists i :: 0 <= i < |ordered| && ordered[i].minPercentile <= p {
        var i :| 0 <= i < |ordered| && ordered[i].minPercentile <= p;
        assert rest[i - 1] == ordered[i];
        var k :| 0 <= k < |rest| && Letter(rest, p) == rest[k].grade
          && rest[k].minPercentile <= p
          && forall i :: 0 <= i < |rest| && rest[i].minPercentile <= p ==> rest[i].minPercentile <= rest[k].minPercentile;
        assert ordered[k + 1] == rest[k];
        forall i | 0 <= i < |ordered| && ordered[i].minPercentile <= p
          ensures ordered[i].minPercentile <= ordered[k + 1].minPercentile
        {
          assert rest[i - 1] == ordered[i];
        }
      }
    } else if |ordered| > 0 {
      assert Letter(ordered, p) == ordered[0].grade;
    }
  }

  /** `(rank / (n - 1)) * 100` for more than one score, else 100. */
  function Percentile(rank: nat, n: nat): (p: real)
    ensures n > 1 && rank <= n - 1 ==> 0.0 <= p <= 100.0
    ensures n <= 1 ==> p == 100.0
  {
    if n > 1 then (rank as real / (n - 1) as real) * 100.0 else 100.0
  }

  /** `sorted_scores.index(x)`: the first position of `x`. */
  function IndexOf(s: seq<real>, x: real): (k: nat)
    requires x in s
    ensures k < |s| && s[k] == x
    ensures forall i :: 0 <= i < k ==> s[i] != x
  {
    if s[0] == x then 0 else 1 + IndexOf(s[1..], x)
  }

  /** The number of scores strictly below `x`. */
  function CountBelow(s: seq<real>, x: real): (c: nat)
    ensures c <= |s|
  {
    if |s| == 0 then 0 else CountBelow(s[..|s| - 1], x) + (if s[|s| - 1] < x then 1 else 0)
  }

  /** The percentile rank of `x` among `scores`: its first position in the sorted list. */
  function Rank(scores: seq<real>, x: real): nat
    requires x in scores
  {
    SortedElement(scores, Identity, x);
    IndexOf(SortAsc(scores, Identity), x)
  }

  /** The letter `apply_percentile_based_grading` gives score `x` of `scores`: its
      percentile counts the scores strictly below it, which is where the sorted list
      first holds it (`RankIsCountBelow`). */
  function GradeOf(scores: seq<real>, ordered: seq<Threshold>, x: real): string {
    Letter(ordered, Percentile(CountBelow(scores, x), |scores|))
  }

  /** The result of grading `scores` against `ordered`. */
  function Grades(scores: seq<real>, ordered: seq<Threshold>): (r: seq<GradedScore>)
    ensures |r| == |scores|
  {
    seq(|scores|, i requires 0 <= i < |scores| => GradedScore(scores[i], GradeOf(scores, ordered, scores[i])))
  }

  /** The thresholds used: the given dictionary, or the defaults when none is given. */
  function ThresholdsOf(percentiles: Option<seq<Threshold>>): seq<Threshold> {
    if percentiles.None? then DefaultPercentiles else percentiles.value
  }

  lemma {:induction false} CountBelowAppend(a: seq<real>, b: seq<real>, x: real)
    ensures CountBelow(a + b, x) == CountBelow(a, x) + CountBelow(b, x)
  {
    if |b| > 0 {
      var n := |b| - 1;
      CountBelowAppend(a, b[..n], x);
      assert (a + b)[..|a + b| - 1] == a + b[..n];
    } else {
      assert a + b == a;
    }
  }

  lemma {:induction false} CountBelowAll(s: seq<real>, x: real)
    requires forall i :: 0 <= i < |s| ==> s[i] < x
    ensures CountBelow(s, x) == |s|
  {
    if |s| > 0 {
      CountBelowAll(s[..|s| - 1], x);
    }
  }

  lemma {:induction false} CountBelowNone(s: seq<real>, x: real)
    requires forall i :: 0 <= i < |s| ==> x <= s[i]
    ensures CountBelow(s, x) == 0
  {
    if |s| > 0 {
      CountBelowNone(s[..|s| - 1], x);
    }
  }

  /** The list without its element at `j`. */
  function Without(s: seq<real>, j: int): (r: seq<real>)
    requires 0 <= j < |s|
    ensures |r| == |s| - 1
  {
    s[..j] + s[j + 1..]
  }

  /** Removing one element takes its share out of the count. */
  lemma CountBelowRemove(s: seq<real>, j: int, x: real)
    requires 0 <= j < |s|
    ensures CountBelow(s, x) == CountBelow(Without(s, j), x) + (if s[j] < x then 1 else 0)
  {
    assert s == s[..j] + ([s[j]] + s[j + 1..]);
    CountBelowAppend(s[..j], [s[j]] + s[j + 1..], x);
    CountBelowAppend([s[j]], s[j + 1..], x);
    CountBelowAppend(s[..j], s[j + 1..], x);
    assert [s[j]][..0] == [];
  }

  /** The count does not depend on the order of the scores. */
  lemma {:induction false} CountBelowPermutation(a: seq<real>, b: seq<real>, x: real)
    requires multiset(a) == multiset(b)
    ensures CountBelow(a, x) == CountBelow(b, x)
  {
    if |a| == 0 {
      assert |b| == |multiset(b)| == 0;
    } else {
      var n := |a| - 1;
      var e := a[n];
      assert a == a[..n] + [e];
      assert e in multiset(b);
      var j :| 0 <= j < |b| && b[j] == e;
      var b' := b[..j] + b[j + 1..];
      assert b == b[..j] + [e] + b[j + 1..];
      assert multiset(b) == multiset(b') + multiset{e};
      assert multiset(a) == multiset(a[..n]) + multiset{e};
      assert multiset(a[..n]) == multiset(a) - multiset{e} == multiset(b');
      CountBelowPermutation(a[..n], b', x);
      CountBelowRemove(b, j, x);
    }
  }

  /** In an ascending list the first position of `x` is the number of elements below it. */
  lemma SortedIndexIsCount(s: seq<real>, x: real)
    requires Ascending(s, Identity) && x in s
    ensures IndexOf(s, x) == CountBelow(s, x)
  {
    var k := IndexOf(s, x);
    SortedPrefixBelow(s, x);
    SortedSuffixAbove(s, x);
    CountSplit(s, k, x);
  }

  lemma SortedPrefixBelow(s: seq<real>, x: real)
    requires Ascending(s, Identity) && x in s
    ensures forall i :: 0 <= i < IndexOf(s, x) ==> s[i] < x
  {
    var k := IndexOf(s, x);
    forall i | 0 <= i < k ensures s[i] < x {
      assert Identity(s[i]) <= Identity(s[k]);
    }
  }

  lemma SortedSuffixAbove(s: seq<real>, x: real)
    requires Ascending(s, Identity) && x in s
    ensures forall i :: IndexOf(s, x) <= i < |s| ==> x <= s[i]
  {
    var k := IndexOf(s, x);
    forall i | k < i < |s| ensures x <= s[i] {
      assert Identity(s[k]) <= Identity(s[i]);
    }
  }

  /** A list whose first `k` elements lie below `x` and the rest not has `k` below `x`. */
  lemma CountSplit(s: seq<real>, k: int, x: real)
    requires 0 <= k <= |s|
    requires forall i :: 0 <= i < k ==> s[i] < x
    requires forall i :: k <= i < |s| ==> x <= s[i]
    ensures CountBelow(s, x) == k
  {
    assert s == s[..k] + s[k..];
    CountBelowAll(s[..k], x);
    CountBelowNone(s[k..], x);
    CountBelowAppend(s[..k], s[k..], x);
  }

  /** The rank of a score is the number of scores strictly below it. */
  lemma RankIsCountBelow(scores: seq<real>, x: real)
    requires x in scores
    ensures Rank(scores, x) == CountBelow(scores, x)
  {
    var sorted := SortAsc(scores, Identity);
    SortedElement(scores, Identity, x);
    SortAscSorted(scores, Identity);
    SortAscPermutes(scores, Identity);
    SortedIndexIsCount(sorted, x);
    CountBelowPermutation(sorted, scores, x);
  }

  /** The smallest score has rank 0. */
  lemma MinRank(scores: seq<real>, i: int)
    requires 0 <= i < |scores| && scores[i] == Min(scores)
    ensures Rank(scores, scores[i]) == 0
  {
    RankIsCountBelow(scores, scores[i]);
    CountBelowNone(scores, scores[i]);
  }

  /** A largest score that no other score equals has rank `n - 1`. */
  lemma UniqueMaxRank(scores: seq<real>, i: int)
    requires 0 <= i < |scores|
    requires forall j :: 0 <= j < |scores| && j != i ==> scores[j] < scores[i]
    ensures Rank(scores, scores[i]) == |scores| - 1
  {
    RankIsCountBelow(scores, scores[i]);
    UniqueMaxCount(scores, i);
  }

  lemma UniqueMaxCount(scores: seq<real>, i: int)
    requires 0 <= i < |scores|
    requires forall j :: 0 <= j < |scores| && j != i ==> scores[j] < scores[i]
    ensures CountBelow(scores, scores[i]) == |scores| - 1
  {
    var x := scores[i];
    CountBelowRemove(scores, i, x);
    OthersBelow(scores, i);
    CountBelowAll(Without(scores, i), x);
  }

  lemma OthersBelow(scores: seq<real>, i: int)
    requires 0 <= i < |scores|
    requires forall j :: 0 <= j < |scores| && j != i ==> scores[j] < scores[i]
    ensures forall j :: 0 <= j < |scores| - 1 ==> Without(scores, i)[j] < scores[i]
  {
    var rest := Without(scores, i);
    forall j | 0 <= j < |rest| ensures rest[j] < scores[i] {
      if j < i {
        assert rest[j] == scores[j];
      } else {
        assert rest[j] == scores[j + 1];
      }
    }
  }

  /** A score is below at least as many scores as any score it is at least. */
  lemma {:induction false} CountBelowMonotone(s: seq<real>, x: real, y: real)
    requires x <= y
    ensures CountBelow(s, x) <= CountBelow(s, y)
  {
    if |s| > 0 {
      CountBelowMonotone(s[..|s| - 1], x, y);
    }
  }

  lemma PercentileMonotone(a: nat, b: nat, n: nat)
    requires a <= b
    ensures Percentile(a, n) <= Percentile(b, n)
  {
    if n > 1 {
      var d := (n - 1) as real;
      assert a as real / d <= b as real / d by {
        assert (a as real / d) * d == a as real;
        assert (b as real / d) * d == b as real;
      }
    }
  }

  /** A higher score never has a lower percentile. */
  lemma HigherScoreHigherPercentile(scores: seq<real>, x: real, y: real)
    requires x <= y
    ensures Percentile(CountBelow(scores, x), |scores|) <= Percentile(CountBelow(scores, y), |scores|)
  {
    CountBelowMonotone(scores, x, y);
    PercentileMonotone(CountBelow(scores, x), CountBelow(scores, y), |scores|);
  }

  /** The default dictionary is already in descending order of threshold. */
  lemma DefaultsOrdered()
    ensures ByThreshold(DefaultPercentiles) == DefaultPercentiles
  {
    assert Ascending(DefaultPercentiles, Descending);
    SortAscOfSorted(DefaultPercentiles, Descending);
  }

  class ScoreNormalizer {
    const minScore: real
    const maxScore: real
    const passingThreshold: real

    /** `score_statistics`. */
    var count: int
    var sum: real
    var sumSquared: real
    var min: Extreme
    var max: Extreme

    /** The scores added so far. */
    ghost var scores: seq<real>

    ghost predicate Valid()
      reads this
    {
      && count == |scores|
      && sum == Sum(scores)
      && sumSquared == SumSquares(scores)
      && min == LowestOf(scores)
      && max == HighestOf(scores)
    }

    constructor (minScore: real := 0.0, maxScore: real := 10.0, passingThreshold: real := 6.0)
      ensures Valid() && scores == []
      ensures this.minScore == minScore && this.maxScore == maxScore && this.passingThreshold == passingThreshold
      ensures count == 0 && sum == 0.0 && sumSquared == 0.0 && min == PosInf && max == NegInf
    {
      this.minScore := minScore;
      this.maxScore := maxScore;
      this.passingThreshold := passingThreshold;
      count := 0;
      sum := 0.0;
      sumSquared := 0.0;
      min := PosInf;
      max := NegInf;
      scores := [];
    }

    /** `add_score`: every statistic takes in one more score. */
    method AddScore(score: real)
      requires Valid()
      modifies this
      ensures Valid() && scores == old(scores) + [score]
      ensures count == old(count) + 1
      ensures sum == old(sum) + score && sumSquared == old(sumSquared) + score * score
      ensures min == Lower(old(min), score) && max == Upper(old(max), score)
    {
      SumsAppend(scores, score);
      ExtremesAppend(scores, score);
      count := count + 1;
      sum := sum + score;
      sumSquared := sumSquared + score * score;
      min := Lower(min, score);
      max := Upper(max, score);
      scores := scores + [score];
    }

    /** `get_statistics`: a copy of the running statistics with mean and clamped variance,
        both zero while no score has been added. */
    function GetStatistics(): (r: ScoreStats)
      reads this
      ensures r.count == count && r.sum == sum && r.sumSquared == sumSquared && r.min == min && r.max == max
      ensures count <= 0 ==> r.mean == 0.0 && r.variance == 0.0
      ensures count > 0 ==> r.mean * (count as real) == sum && r.variance >= 0.0
    {
      if count > 0 then
        var m := Moments(sum, sumSquared, count);
        ScoreStats(count, sum, sumSquared, min, max, m.mean, m.variance)
      else ScoreStats(count, sum, sumSquared, min, max, 0.0, 0.0)
    }

    /** Once a score has been added, the mean lies between the smallest and the largest. */
    lemma MeanWithinExtremes()
      requires Valid() && count > 0
      ensures GetStatistics().min.Finite? && GetStatistics().max.Finite?
      ensures GetStatistics().min.value <= GetStatistics().mean <= GetStatistics().max.value
    {
      MeanBounds(scores, Min(scores), Max(scores));
    }

    /** Once a score has been added, the variance is the population variance of the scores:
        times the count it is the sum of squared deviations from the mean. */
    lemma VarianceOfScores()
      requires Valid() && count > 0
      ensures GetStatistics().variance * (count as real) == Deviations(scores, GetStatistics().mean)
    {
      var r := GetStatistics();
      VarianceOfSums(scores, sum, sumSquared, count, r.mean, r.variance);
    }

    /** `normalize_scores`. */
    method NormalizeScores(scores: seq<real>) returns (r: seq<real>)
      ensures r == Normalized(scores, minScore, maxScore)
    {
      if |scores| == 0 {
        return [];
      }
      var lo := Min(scores);
      var hi := Max(scores);
      if lo == hi {
        return seq(|scores|, i => maxScore);
      }
      ghost var all := Normalized(scores, minScore, maxScore);
      r := [];
      var i := 0;
      while i < |scores|
        invariant 0 <= i <= |scores| && r == all[..i]
      {
        var normalized := ((scores[i] - lo) / (hi - lo)) * (maxScore - minScore) + minScore;
        assert all[i] == normalized;
        assert all[..i + 1] == all[..i] + [normalized];
        r := r + [normalized];
        i := i + 1;
      }
      assert r == all[..|scores|] == all;
    }

    /** `apply_curve`: with no target the curve aims at one point above the passing
        threshold. */
    function ApplyCurve(scores: seq<real>, targetMean: Option<real>): (r: seq<real>)
      ensures |r| == |scores|
      ensures forall i :: 0 <= i < |r| ==> r[i] <= maxScore
      ensures minScore <= maxScore ==> forall i :: 0 <= i < |r| ==> minScore <= r[i]
      ensures targetMean.None? ==> r == Curved(scores, minScore, maxScore, passingThreshold + 1.0)
      ensures targetMean.Some? ==> r == Curved(scores, minScore, maxScore, targetMean.value)
    {
      var target := if targetMean.None? then passingThreshold + 1.0 else targetMean.value;
      Curved(scores, minScore, maxScore, target)
    }

    /** `apply_percentile_based_grading`: every score paired with itself and a letter, in
        input order. */
    method ApplyPercentileBasedGrading(scores: seq<real>, percentiles: Option<seq<Threshold>>)
      returns (r: seq<GradedScore>)
      ensures r == Grades(scores, ByThreshold(ThresholdsOf(percentiles)))
    {
      if |scores| == 0 {
        NothingToGrade(scores, ByThreshold(ThresholdsOf(percentiles)));
        return [];
      }
      var ps := if percentiles.None? then DefaultPercentiles else percentiles.value;
      assert ps == ThresholdsOf(percentiles);
      var sorted := SortAsc(scores, Identity);
      r := GradeEach(scores, sorted, ByThreshold(ps));
    }

    /** The grading loop: each score in input order, paired with its letter. */
    static method GradeEach(scores: seq<real>, sorted: seq<real>, ordered: seq<Threshold>)
      returns (r: seq<GradedScore>)
      requires sorted == SortAsc(scores, Identity)
      ensures r == Grades(scores, ordered)
    {
      ghost var all := Grades(scores, ordered);
      r := [];
      var i := 0;
      while i < |scores|
        invariant 0 <= i <= |scores| && r == all[..i]
      {
        var score := scores[i];
        RankInSorted(scores, score);
        RankIsCountBelow(scores, score);
        var letter := GradeScore(sorted, ordered, score);
        GradeStep(scores, ordered, all, r, i, letter);
        r := r + [GradedScore(score, letter)];
        i := i + 1;
      }
      assert r == all[..|scores|] == all;
    }

    /** The body of the grading loop for one score: its rank and percentile in the sorted
        list, then the first threshold reached in `ordered`, `"F"` when none is. */
    static method GradeScore(sorted: seq<real>, ordered: seq<Threshold>, score: real) returns (letter: string)
      requires score in sorted
      ensures letter == Letter(ordered, Percentile(IndexOf(sorted, score), |sorted|))
    {
      var rank := IndexOf(sorted, score);
      var percentile := if |sorted| > 1 then (rank as real / (|sorted| - 1) as real) * 100.0 else 100.0;
      letter := "F";
      var j := 0;
      while j < |ordered|
        invariant 0 <= j <= |ordered|
        invariant Letter(ordered, percentile) == Letter(ordered[j..], percentile)
      {
        if percentile >= ordered[j].minPercentile {
          letter := ordered[j].grade;
          return;
        }
        assert ordered[j..][1..] == ordered[j + 1..];
        j := j + 1;
      }
    }
  }

  /** Where a score stands in the sorted list is its rank. */
  lemma RankInSorted(scores: seq<real>, x: real)
    requires x in scores
    ensures x in SortAsc(scores, Identity) && |SortAsc(scores, Identity)| == |scores|
    ensures IndexOf(SortAsc(scores, Identity), x) == Rank(scores, x)
  {
    SortedElement(scores, Identity, x);
  }

  lemma NothingToGrade(scores: seq<real>, ordered: seq<Threshold>)
    requires |scores| == 0
    ensures Grades(scores, ordered) == []
  {
  }

  /** One more graded score extends the graded prefix. */
  lemma GradeStep(scores: seq<real>, ordered: seq<Threshold>, all: seq<GradedScore>, r: seq<GradedScore>,
                  i: int, letter: string)
    requires all == Grades(scores, ordered) && 0 <= i < |scores| && r == all[..i]
    requires letter == GradeOf(scores, ordered, scores[i])
    ensures r + [GradedScore(scores[i], letter)] == all[..i + 1]
  {
    assert all[i] == GradedScore(scores[i], letter);
    assert all[..i + 1] == all[..i] + [all[i]];
  }

  /** Grading pairs each score with itself in input order. */
  lemma GradesKeepScores(scores: seq<real>, ordered: seq<Threshold>)
    ensures |Grades(scores, ordered)| == |scores|
    ensures forall i :: 0 <= i < |scores| ==> Grades(scores, ordered)[i].score == scores[i]
  {
  }

  /** With the default dictionary and more than one score, a smallest score gets `"F"`
      and a largest score that no other score equals gets `"A"`. */
  lemma DefaultExtremeGrades(scores: seq<real>, i: int)
    requires |scores| > 1 && 0 <= i < |scores|
    ensures scores[i] == Min(scores) ==> GradeOf(scores, ByThreshold(DefaultPercentiles), scores[i]) == "F"
    ensures (forall j :: 0 <= j < |scores| && j != i ==> scores[j] < scores[i]) ==>
      GradeOf(scores, ByThreshold(DefaultPercentiles), scores[i]) == "A"
  {
    if scores[i] == Min(scores) {
      DefaultMinGrade(scores, i);
    }
    if forall j :: 0 <= j < |scores| && j != i ==> scores[j] < scores[i] {
      DefaultMaxGrade(scores, i);
    }
  }

  lemma DefaultMinGrade(scores: seq<real>, i: int)
    requires |scores| > 1 && 0 <= i < |scores| && scores[i] == Min(scores)
    ensures GradeOf(scores, ByThreshold(DefaultPercentiles), scores[i]) == "F"
  {
    CountBelowNone(scores, scores[i]);
    ZeroPercentile(|scores|);
    DefaultsOrdered();
    DefaultLetters();
  }

  lemma DefaultMaxGrade(scores: seq<real>, i: int)
    requires |scores| > 1 && 0 <= i < |scores|
    requires forall j :: 0 <= j < |scores| && j != i ==> scores[j] < scores[i]
    ensures GradeOf(scores, ByThreshold(DefaultPercentiles), scores[i]) == "A"
  {
    UniqueMaxCount(scores, i);
    FullPercentile(|scores|);
    DefaultsOrdered();
    DefaultLetters();
  }

  lemma DefaultLetters()
    ensures Letter(DefaultPercentiles, 0.0) == "F"
    ensures Letter(DefaultPercentiles, 100.0) == "A"
  {
    var d := DefaultPercentiles;
    assert d[1..][1..][1..][1..] == [Threshold("F", 0.0)];
  }

  lemma ZeroPercentile(n: nat)
    requires n > 1
    ensures Percentile(0, n) == 0.0
  {
    var d := (n - 1) as real;
    assert 0.0 / d == 0.0;
  }

  lemma FullPercentile(n: nat)
    requires n > 1
    ensures Percentile(n - 1, n) == 100.0
  {
    var d := (n - 1) as real;
    assert d / d == 1.0;
  }
}
