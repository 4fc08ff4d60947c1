/** The metric difference record that the model manager builds both when it compares two
    registered versions and when it compares the two arms of an A/B test. */
module Metrics {

  /** A percentage change: a number, or the `float('inf')` stored when the baseline is not positive. */
  datatype Percent = Finite(value: real) | Infinite

  /** `{'version1'|'version_a': first, 'version2'|'version_b': second, 'difference', 'percent_change'}`. */
  datatype Difference = Difference(first: real, second: real, difference: real, percentChange: Percent)

  /** `(other - base) / base * 100` when `base > 0`, otherwise infinity. */
  function PercentChange(base: real, other: real): (p: Percent)
    ensures p.Infinite? <==> base <= 0.0
    ensures p.Finite? ==> p.value * base == (other - base) * 100.0
  {
    if base > 0.0 then Finite((other - base) / base * 100.0) else Infinite
  }

  function Compare(first: real, second: real): (d: Difference)
    ensures d.difference == d.second - d.first
    ensures d.percentChange.Finite? <==> d.first > 0.0
  {
    Difference(first, second, second - first, PercentChange(first, second))
  }

  /** With a positive baseline, the change exceeds `t` percent exactly when `other` is
      more than `base * (1 + t/100)`, and falls below `-t` percent exactly when `other`
      is less than `base * (1 - t/100)`. */
  lemma PercentChangeThreshold(base: real, other: real, t: real)
    requires base > 0.0
    ensures PercentChange(base, other).value > t <==> other * 100.0 > base * (100.0 + t)
    ensures PercentChange(base, other).value < -t <==> other * 100.0 < base * (100.0 - t)
  {
    var p := PercentChange(base, other).value;
    assert p * base == (other - base) * 100.0;
    ScaleCompare(p, t, base);
    ScaleCompare(-t, p, base);
  }

  lemma ScaleCompare(a: real, b: real, c: real)
    requires c > 0.0
    ensures a > b <==> a * c > b * c
  {
    if a > b {
      assert (a - b) * c > 0.0;
    } else {
      assert (b - a) * c >= 0.0;
    }
  }
}
