/**
 _percentile and _stats of src/clients/metrics_repository.py: linear interpolation
 between the two nearest ranks, and average, extremes and 95th percentile, over reals.
 */
module Percentiles {
  import opened Common
  import opened Sorting

  predicate AtMost(x: real, y: real) {
    x <= y
  }

  function Times(c: real, x: real): real {
    c * x
  }

  /** The fractional rank: a fraction of the last rank of n values. */
  function Rank(n: nat, pct: real): (k: real)
    requires n > 0 && 0.0 <= pct <= 1.0
    ensures 0.0 <= k <= (n - 1) as real
  {
    TimesWithin((n - 1) as real, pct);
    Times((n - 1) as real, pct)
  }

  lemma RankMonotone(n: nat, p: real, q: real)
    requires n > 0 && 0.0 <= p <= q <= 1.0
    ensures Rank(n, p) <= Rank(n, q)
  {
    TimesMonotone((n - 1) as real, p, q);
  }

  /** math.ceil */
  function Ceiling(k: real): int {
    if k.Floor as real == k then k.Floor else k.Floor + 1
  }

  lemma RankInRange(n: nat, pct: real)
    requires n > 0 && 0.0 <= pct <= 1.0
    ensures 0 <= Rank(n, pct).Floor <= Ceiling(Rank(n, pct)) <= n - 1
  {
    RoundsWithin(Rank(n, pct), n - 1);
  }

  lemma RoundsWithin(k: real, top: nat)
    requires 0.0 <= k <= top as real
    ensures 0 <= k.Floor <= Ceiling(k) <= top
  {
    assert k < k.Floor as real + 1.0;
  }

  lemma TimesMonotone(c: real, x: real, y: real)
    requires c >= 0.0 && x <= y
    ensures Times(c, x) <= Times(c, y)
  {
    assert c * y - c * x == c * (y - x);
  }

  lemma TimesWithin(c: real, x: real)
    requires c >= 0.0 && 0.0 <= x <= 1.0
    ensures 0.0 <= Times(c, x) <= c
  {
    TimesMonotone(c, 0.0, x);
    TimesMonotone(c, x, 1.0);
    assert Times(c, 0.0) == 0.0 && Times(c, 1.0) == c;
  }

  /** The weighted sum of two values. */
  function Mix(x: real, y: real, wx: real, wy: real): real {
    x * wx + y * wy
  }

  /** The interpolated value at fractional rank k of a sorted list. */
  function At(ordered: seq<real>, k: real): real
    requires 0 <= k.Floor <= Ceiling(k) < |ordered|
  {
    var lo, hi := k.Floor, Ceiling(k);
    if lo == hi then ordered[lo]
    else Mix(ordered[lo], ordered[hi], hi as real - k, k - lo as real)
  }

  function Percentile(values: seq<real>, pct: real): real
    requires values != [] && 0.0 <= pct <= 1.0
  {
    var ordered := Sort(values, AtMost);
    RankInRange(|ordered|, pct);
    if |ordered| == 1 then ordered[0] else At(ordered, Rank(|ordered|, pct))
  }

  // ------------------------------------------------------------------ interpolation

  /** A weighted mean lies between its ends and moves towards the end whose weight grows. */
  lemma MixGrows(x: real, y: real, f: real, g: real)
    requires x <= y && 0.0 <= f <= g <= 1.0
    ensures x <= Mix(x, y, 1.0 - f, f) <= Mix(x, y, 1.0 - g, g) <= y
  {
    assert Mix(x, y, 1.0 - f, f) == x + (y - x) * f;
    assert Mix(x, y, 1.0 - g, g) == x + (y - x) * g;
    TimesMonotone(y - x, 0.0, f);
    TimesMonotone(y - x, f, g);
    TimesMonotone(y - x, g, 1.0);
  }

  /** Between two ranks the value is the mix of their entries. */
  lemma AtBetweenRanks(ordered: seq<real>, k: real)
    requires 0 <= k.Floor < Ceiling(k) < |ordered|
    ensures Ceiling(k) == k.Floor + 1 && 0.0 <= k - k.Floor as real <= 1.0
    ensures At(ordered, k) ==
            Mix(ordered[k.Floor], ordered[k.Floor + 1], 1.0 - (k - k.Floor as real), k - k.Floor as real)
  {
    assert (k.Floor + 1) as real - k == 1.0 - (k - k.Floor as real);
  }

  lemma AtBetweenNeighbours(ordered: seq<real>, k: real)
    requires 0 <= k.Floor <= Ceiling(k) < |ordered| && Ordered(ordered, AtMost)
    ensures ordered[k.Floor] <= At(ordered, k) <= ordered[Ceiling(k)]
  {
    var lo := k.Floor;
    if lo != Ceiling(k) {
      AtBetweenRanks(ordered, k);
      assert AtMost(ordered[lo], ordered[lo + 1]);
      MixGrows(ordered[lo], ordered[lo + 1], k - lo as real, k - lo as real);
    }
  }

  lemma AtIsMonotone(ordered: seq<real>, k: real, m: real)
    requires 0 <= k.Floor && k <= m && Ceiling(k) < |ordered| && Ceiling(m) < |ordered|
    requires Ordered(ordered, AtMost)
    ensures 0 <= m.Floor && At(ordered, k) <= At(ordered, m)
  {
    AtBetweenNeighbours(ordered, k);
    AtBetweenNeighbours(ordered, m);
    var lo := k.Floor;
    if lo != m.Floor {
      assert Ceiling(k) <= m.Floor;
      if Ceiling(k) < m.Floor {
        assert AtMost(ordered[Ceiling(k)], ordered[m.Floor]);
      }
    } else if lo != Ceiling(k) && lo != Ceiling(m) {
      AtBetweenRanks(ordered, k);
      AtBetweenRanks(ordered, m);
      assert AtMost(ordered[lo], ordered[lo + 1]);
      MixGrows(ordered[lo], ordered[lo + 1], k - lo as real, m - lo as real);
    }
  }

  lemma RealsSort()
    ensures TotalPreorder(AtMost)
  {
  }

  /** The percentile lies between the smallest and the largest value, and reaches both. */
  lemma PercentileInRange(values: seq<real>, pct: real, v: real)
    requires values != [] && 0.0 <= pct <= 1.0 && v in values
    ensures Percentile(values, 0.0) <= v <= Percentile(values, 1.0)
    ensures Percentile(values, 0.0) in values && Percentile(values, 1.0) in values
    ensures Percentile(values, 0.0) <= Percentile(values, pct) <= Percentile(values, 1.0)
  {
    var ordered := Sort(values, AtMost);
    RealsSort();
    SortOrders(values, AtMost);
    SortKeepsElements(values, AtMost, v);
    Ends(values);
    SortKeepsElements(values, AtMost, ordered[0]);
    SortKeepsElements(values, AtMost, ordered[|ordered| - 1]);
    var i :| 0 <= i < |ordered| && ordered[i] == v;
    assert i > 0 ==> AtMost(ordered[0], ordered[i]);
    assert i < |ordered| - 1 ==> AtMost(ordered[i], ordered[|ordered| - 1]);
    PercentileIsMonotone(values, 0.0, pct);
    PercentileIsMonotone(values, pct, 1.0);
  }

  lemma Ends(values: seq<real>)
    requires values != []
    ensures Percentile(values, 0.0) == Sort(values, AtMost)[0]
    ensures Percentile(values, 1.0) == Sort(values, AtMost)[|values| - 1]
  {
    var n := |Sort(values, AtMost)|;
    assert Rank(n, 0.0) == 0.0;
    assert Rank(n, 1.0) == (n - 1) as real;
    assert Rank(n, 1.0).Floor == n - 1;
  }

  /** A higher percentage never gives a lower value. */
  lemma PercentileIsMonotone(values: seq<real>, p: real, q: real)
    requires values != [] && 0.0 <= p <= q <= 1.0
    ensures Percentile(values, p) <= Percentile(values, q)
  {
    var ordered := Sort(values, AtMost);
    RealsSort();
    SortOrders(values, AtMost);
    RankInRange(|ordered|, p);
    RankInRange(|ordered|, q);
    RankMonotone(|ordered|, p, q);
    if |ordered| > 1 {
      AtIsMonotone(ordered, Rank(|ordered|, p), Rank(|ordered|, q));
    }
  }

  /** The order in which the values were read does not matter. */
  lemma PercentileIgnoresOrder(values: seq<real>, shuffled: seq<real>, pct: real)
    requires values != [] && multiset(values) == multiset(shuffled) && 0.0 <= pct <= 1.0
    ensures shuffled != [] && Percentile(shuffled, pct) == Percentile(values, pct)
  {
    assert |multiset(shuffled)| == |values|;
    RealsSort();
    SortOrders(values, AtMost);
    SortOrders(shuffled, AtMost);
    OrderedIsUnique(Sort(values, AtMost), Sort(shuffled, AtMost), AtMost);
  }

  /** The value at fractional rank k of an ordered list: the floor's entry, and the fraction of the way to the next. */
  ghost predicate Interpolates(value: real, ordered: seq<real>, k: real) {
    && 0 <= k.Floor < |ordered|
    && value == ordered[k.Floor] + if k.Floor == |ordered| - 1 then 0.0
                                   else Times(ordered[k.Floor + 1] - ordered[k.Floor], k - k.Floor as real)
  }

  /** The percentile is interpolated at rank (n - 1) * pct of the sorted values, counted from zero. */
  lemma PercentileInterpolates(values: seq<real>, pct: real)
    requires values != [] && 0.0 <= pct <= 1.0
    ensures Interpolates(Percentile(values, pct), Sort(values, AtMost), Times((|values| - 1) as real, pct))
  {
    var ordered := Sort(values, AtMost);
    RankInRange(|ordered|, pct);
    AtInterpolates(ordered, Rank(|ordered|, pct));
  }

  lemma AtInterpolates(ordered: seq<real>, k: real)
    requires 0 <= k.Floor <= Ceiling(k) < |ordered|
    ensures Interpolates(At(ordered, k), ordered, k)
  {
    if k.Floor == Ceiling(k) {
      assert k - k.Floor as real == 0.0;
    } else {
      AtBetweenRanks(ordered, k);
      MixIsLinear(ordered[k.Floor], ordered[k.Floor + 1], k - k.Floor as real);
    }
  }

  lemma MixIsLinear(x: real, y: real, f: real)
    ensures Mix(x, y, 1.0 - f, f) == x + Times(y - x, f)
  {
  }

  // --------------------------------------------------------------------- statistics

  datatype Stats = NoStats | Stats(avg: real, least: real, greatest: real, p95: real)

  function Present(values: seq<Option<real>>): seq<real> {
    if values == [] then []
    else (if values[0].Some? then [values[0].value] else []) + Present(values[1..])
  }

  function Sum(nums: seq<real>): real {
    if nums == [] then 0.0 else nums[0] + Sum(nums[1..])
  }

  function Average(nums: seq<real>): real
    requires nums != []
  {
    Sum(nums) / |nums| as real
  }

  function Least(nums: seq<real>): (x: real)
    requires nums != []
    ensures x in nums && forall y :: y in nums ==> x <= y
  {
    assert nums == [nums[0]] + nums[1..];
    if |nums| == 1 then nums[0] else
    var x := Least(nums[1..]);
    if nums[0] <= x then nums[0] else x
  }

  function Greatest(nums: seq<real>): (x: real)
    requires nums != []
    ensures x in nums && forall y :: y in nums ==> y <= x
  {
    assert nums == [nums[0]] + nums[1..];
    if |nums| == 1 then nums[0] else
    var x := Greatest(nums[1..]);
    if x <= nums[0] then nums[0] else x
  }

  /** _stats: over the values that are present, if there are any. */
  function StatsOf(values: seq<Option<real>>): Stats {
    var nums := Present(values);
    if nums == [] then NoStats
    else Stats(Average(nums), Least(nums), Greatest(nums), Percentile(nums, 0.95))
  }

  lemma {:induction false} SumSnoc(nums: seq<real>, x: real)
    ensures Sum(nums + [x]) == Sum(nums) + x
  {
    if nums == [] {
      assert [] + [x] == [x];
    } else {
      assert (nums + [x])[1..] == nums[1..] + [x];
      SumSnoc(nums[1..], x);
    }
  }

  lemma OneMoreTime(n: nat, x: real)
    ensures Times((n + 1) as real, x) == Times(n as real, x) + x
  {
    var k := n as real;
    assert (n + 1) as real == k + 1.0;
    assert (k + 1.0) * x == k * x + x;
  }

  lemma {:induction false} SumBetween(nums: seq<real>, lo: real, hi: real)
    requires forall i :: 0 <= i < |nums| ==> lo <= nums[i] <= hi
    ensures Times(|nums| as real, lo) <= Sum(nums) <= Times(|nums| as real, hi)
  {
    if nums != [] {
      SumBetween(nums[1..], lo, hi);
      OneMoreTime(|nums| - 1, lo);
      OneMoreTime(|nums| - 1, hi);
    }
  }

  lemma QuotientBetween(s: real, n: real, lo: real, hi: real)
    requires n > 0.0 && Times(n, lo) <= s <= Times(n, hi)
    ensures lo <= s / n <= hi
  {
    var q := s / n;
    assert Times(n, q) == s;
    if q < lo { StrictTimes(n, q, lo); }
    if hi < q { StrictTimes(n, hi, q); }
  }

  lemma StrictTimes(n: real, x: real, y: real)
    requires n > 0.0 && x < y
    ensures Times(n, x) < Times(n, y)
  {
    assert n * y - n * x == n * (y - x);
  }

  /** An average lies between the extremes. */
  lemma AverageInRange(nums: seq<real>)
    requires nums != []
    ensures Least(nums) <= Average(nums) <= Greatest(nums)
  {
    assert forall i :: 0 <= i < |nums| ==> nums[i] in nums;
    SumBetween(nums, Least(nums), Greatest(nums));
    QuotientBetween(Sum(nums), |nums| as real, Least(nums), Greatest(nums));
  }

  lemma PercentileInExtremes(nums: seq<real>, pct: real)
    requires nums != [] && 0.0 <= pct <= 1.0
    ensures Least(nums) <= Percentile(nums, pct) <= Greatest(nums)
  {
    PercentileInRange(nums, pct, Least(nums));
    PercentileInRange(nums, pct, Greatest(nums));
  }

  /** Average and percentile lie between the extremes, which are values that occur. */
  lemma StatsInOrder(values: seq<Option<real>>)
    ensures StatsOf(values).Stats? <==> exists i :: 0 <= i < |values| && values[i].Some?
    ensures var st := StatsOf(values);
            st.Stats? ==>
              && st.least <= st.avg <= st.greatest && st.least <= st.p95 <= st.greatest
              && st.least in Present(values) && st.greatest in Present(values)
  {
    PresentHas(values);
    if Present(values) != [] {
      AverageInRange(Present(values));
      PercentileInExtremes(Present(values), 0.95);
    }
  }

  lemma StatsOfOne(x: real)
    ensures StatsOf([Some(x)]) == Stats(x, x, x, x)
  {
    assert [Some(x)][1..] == [] && [x][1..] == [];
    assert Present([Some(x)]) == [x] && Sum([x]) == x;
    assert Sort([x], AtMost) == [x];
  }

  /** Two values and a gap: their mean, the smaller, the larger, and 95 percent of the way between them. */
  lemma StatsOfTwo(x: real, y: real)
    requires x <= y
    ensures StatsOf([Some(y), None, Some(x)]) == Stats((x + y) / 2.0, x, y, x + Times(y - x, 0.95))
  {
    PresentOfTwo(x, y);
    ExtremesOfTwo(x, y);
    PercentileOfTwo(x, y);
    hide Percentile, Present, Least, Greatest, Sum;
    assert StatsOf([Some(y), None, Some(x)]).avg == (y + x) / 2.0;
  }

  lemma PresentOfTwo(x: real, y: real)
    ensures Present([Some(y), None, Some(x)]) == [y, x] && Sum([y, x]) == y + x
  {
    assert [Some(y), None, Some(x)][1..] == [None, Some(x)] && [None, Some(x)][1..] == [Some(x)];
    assert Present([Some(x)]) == [x] && Present([None, Some(x)]) == [x];
    assert [y, x][1..] == [x] && Sum([x]) == x;
  }

  lemma ExtremesOfTwo(x: real, y: real)
    requires x <= y
    ensures Least([y, x]) == x && Greatest([y, x]) == y
  {
    assert [y, x][1..] == [x];
  }

  lemma PercentileOfTwo(x: real, y: real)
    requires x <= y
    ensures Percentile([y, x], 0.95) == x + Times(y - x, 0.95)
  {
    assert [y, x][1..] == [x] && [x][1..] == [];
    assert Sort([x], AtMost) == [x] && Sort([y, x], AtMost) == [x, y];
    assert Times(1.0, 0.95) == 0.95 && 0.95.Floor == 0;
    PercentileInterpolates([y, x], 0.95);
  }

  lemma {:induction false} PresentHas(values: seq<Option<real>>)
    ensures Present(values) != [] <==> exists i :: 0 <= i < |values| && values[i].Some?
  {
    if values != [] {
      PresentHas(values[1..]);
      if i :| 0 <= i < |values[1..]| && values[1..][i].Some? {
        assert values[i + 1].Some?;
      }
      if i :| 0 < i < |values| && values[i].Some? {
        assert values[1..][i - 1].Some?;
      }
    }
  }
}
