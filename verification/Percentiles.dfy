// usageMetrics, distributions: nearest-rank percentiles, intensity bands and the median.
module Percentiles {
  import opened Options
  import opened Sorting

  function Ceil(x: real): (n: int)
    ensures (n - 1) as real < x <= n as real
  {
    -((-x).Floor)
  }

  ghost predicate Ordered(s: seq<real>) {
    forall i, j :: 0 <= i <= j < |s| ==> s[i] <= s[j]
  }

  function Clamped(p: real): real {
    var low := if p > 0.0 then p else 0.0;
    if low < 1.0 then low else 1.0
  }

  lemma ClampedTimes(p: real, n: nat)
    ensures 0.0 <= Clamped(p) * n as real <= n as real
  {
    var c := Clamped(p);
    assert c * n as real >= 0.0;
    assert (1.0 - c) * n as real >= 0.0;
  }

  function RankOf(p: real, n: nat): (r: nat)
    requires n > 0
    ensures 1 <= r <= n
  {
    ClampedTimes(p, n);
    var r := Ceil(Clamped(p) * n as real);
    if r > 1 then r else 1
  }

  function PercentileValue(sortedAsc: seq<real>, p: real): real {
    if sortedAsc == [] then 0.0 else sortedAsc[RankOf(p, |sortedAsc|) - 1]
  }

  datatype Band = POWER | REGULAR | LIGHT | INACTIVE

  function IntensityBand(score: real, sortedNonZero: seq<real>, power: real, regular: real): Band {
    if score <= 0.0 then INACTIVE
    else if sortedNonZero == [] then LIGHT
    else
      var powerCut := PercentileValue(sortedNonZero, power);
      var regularCut := PercentileValue(sortedNonZero, regular);
      if score >= powerCut then POWER
      else if score >= regularCut then REGULAR
      else LIGHT
  }

  // ----- percentiles -----

  function CountAtMost(s: seq<real>, v: real): (n: nat)
    ensures n <= |s|
  {
    if s == [] then 0 else CountAtMost(s[..|s| - 1], v) + if s[|s| - 1] <= v then 1 else 0
  }

  lemma {:induction false} CountIsPosition(s: seq<real>, v: real, i: nat)
    requires Ordered(s) && i <= |s|
    ensures i > 0 && s[i - 1] <= v ==> CountAtMost(s, v) >= i
    ensures i < |s| && v < s[i] ==> CountAtMost(s, v) <= i
  {
    if s != [] {
      var n := |s| - 1;
      if i <= n {
        CountIsPosition(s[..n], v, i);
      } else {
        CountIsPosition(s[..n], v, n);
      }
    }
  }

  // The share of the population asked for: p itself up to 1, and everyone above.
  function Share(p: real, n: nat): real {
    (if p < 1.0 then p else 1.0) * n as real
  }

  lemma BelowRankIsShort(s: seq<real>, r: nat, j: nat, share: real)
    requires Ordered(s) && 1 <= r <= |s| && j < |s|
    requires r > 1 ==> (r - 1) as real < share
    requires CountAtMost(s, s[j]) as real >= share
    ensures s[r - 1] <= s[j]
  {
    if s[j] < s[r - 1] {
      assert r > 1;
      CountIsPosition(s, s[j], r - 1);
    }
  }

  // The least member of the population with at least the asked share of it at or below.
  lemma PercentileIsLeast(s: seq<real>, p: real)
    requires Ordered(s) && s != []
    ensures PercentileValue(s, p) in s
    ensures CountAtMost(s, PercentileValue(s, p)) as real >= Share(p, |s|)
    ensures forall j :: 0 <= j < |s| && CountAtMost(s, s[j]) as real >= Share(p, |s|) ==> PercentileValue(s, p) <= s[j]
  {
    ShareRank(p, |s|);
    hide Share;
    hide RankOf;
    hide Ordered;
    var r := RankOf(p, |s|);
    CountIsPosition(s, s[r - 1], r);
    forall j | 0 <= j < |s| && CountAtMost(s, s[j]) as real >= Share(p, |s|)
      ensures s[r - 1] <= s[j]
    {
      BelowRankIsShort(s, r, j, Share(p, |s|));
    }
  }

  lemma ShareRank(p: real, n: nat)
    requires n > 0
    ensures Share(p, n) <= RankOf(p, n) as real
    ensures RankOf(p, n) > 1 ==> (RankOf(p, n) - 1) as real < Share(p, n)
  {
    ClampedTimes(p, n);
    if p < 0.0 {
      assert p * n as real <= 0.0;
    }
  }

  lemma RankMonotone(p: real, q: real, n: nat)
    requires p <= q && n > 0
    ensures RankOf(p, n) <= RankOf(q, n)
  {
    var c, d := Clamped(p), Clamped(q);
    assert (d - c) * n as real >= 0.0;
    assert c * n as real <= d * n as real;
  }

  lemma PercentileMonotone(s: seq<real>, p: real, q: real)
    requires Ordered(s) && p <= q
    ensures PercentileValue(s, p) <= PercentileValue(s, q)
  {
    if s != [] {
      RankMonotone(p, q, |s|);
    }
  }

  // ----- bands -----

  function Strength(b: Band): nat {
    match b
    case INACTIVE => 0
    case LIGHT => 1
    case REGULAR => 2
    case POWER => 3
  }

  lemma BandMonotone(a: real, b: real, s: seq<real>, power: real, regular: real)
    requires a <= b
    ensures Strength(IntensityBand(a, s, power, regular)) <= Strength(IntensityBand(b, s, power, regular))
  {
    hide PercentileValue;
  }

  // Nobody without a score is in a band; with nobody to compare with, everyone else is LIGHT.
  lemma BandEdges(score: real, s: seq<real>, power: real, regular: real)
    ensures IntensityBand(score, s, power, regular) == INACTIVE <==> score <= 0.0
    ensures score > 0.0 && s == [] ==> IntensityBand(score, s, power, regular) == LIGHT
    ensures PercentileValue([], power) == 0.0
  {
  }

  // Members of the population in a band at least as strong as `least`.
  function CountBand(members: seq<real>, s: seq<real>, power: real, regular: real, least: nat): (n: nat)
    ensures n <= |members|
  {
    if members == [] then 0
    else
      var n := |members| - 1;
      CountBand(members[..n], s, power, regular, least)
      + if Strength(IntensityBand(members[n], s, power, regular)) >= least then 1 else 0
  }

  function CountFrom(s: seq<real>, cut: real): (n: nat)
    ensures n <= |s|
  {
    if s == [] then 0 else CountFrom(s[..|s| - 1], cut) + if s[|s| - 1] >= cut then 1 else 0
  }

  lemma {:induction false} BandIsCut(members: seq<real>, s: seq<real>, power: real, regular: real)
    requires s != [] && forall i :: 0 <= i < |members| ==> members[i] > 0.0
    ensures CountBand(members, s, power, regular, 3) == CountFrom(members, PercentileValue(s, power))
    ensures PercentileValue(s, regular) <= PercentileValue(s, power) ==>
      CountBand(members, s, power, regular, 2) == CountFrom(members, PercentileValue(s, regular))
  {
    hide PercentileValue;
    if members != [] {
      var n := |members| - 1;
      BandIsCut(members[..n], s, power, regular);
    }
  }

  // From the cut up: all members from its rank on, and before it exactly those equal to it.
  lemma {:induction false} CountFromRank(s: seq<real>, i: nat, cut: real)
    requires Ordered(s) && i < |s| && s[i] == cut
    ensures CountFrom(s, cut) >= |s| - i
    ensures CountFrom(s, cut) == |s| - i <==> (i == 0 || s[i - 1] < cut)
  {
    var n := |s| - 1;
    if i < n {
      CountFromRank(s[..n], i, cut);
    } else {
      NoneFrom(s[..n], cut);
    }
  }

  lemma {:induction false} NoneFrom(s: seq<real>, cut: real)
    requires Ordered(s)
    ensures CountFrom(s, cut) == 0 <==> (s == [] || s[|s| - 1] < cut)
  {
    if s != [] {
      var n := |s| - 1;
      NoneFrom(s[..n], cut);
    }
  }

  // In the day's own population, the members from the percentile's rank on are POWER, and no others exactly when the
  // member before that rank scores less; with the power cut at or above the regular one, likewise for REGULAR or
  // better.
  lemma BandShares(s: seq<real>, power: real, regular: real)
    requires Ordered(s) && s != [] && forall i :: 0 <= i < |s| ==> s[i] > 0.0
    ensures var r := RankOf(power, |s|);
            && CountBand(s, s, power, regular, 3) >= |s| - r + 1
            && (CountBand(s, s, power, regular, 3) == |s| - r + 1 <==> (r == 1 || s[r - 2] < s[r - 1]))
    ensures regular <= power ==>
              var r := RankOf(regular, |s|);
              && CountBand(s, s, power, regular, 2) >= |s| - r + 1
              && (CountBand(s, s, power, regular, 2) == |s| - r + 1 <==> (r == 1 || s[r - 2] < s[r - 1]))
  {
    BandIsCut(s, s, power, regular);
    CountFromRank(s, RankOf(power, |s|) - 1, PercentileValue(s, power));
    CountFromRank(s, RankOf(regular, |s|) - 1, PercentileValue(s, regular));
    if regular <= power {
      PercentileMonotone(s, regular, power);
    }
  }

  // ----- median -----

  function Median(values: seq<int>): Option<real> {
    if values == [] then None
    else
      var sorted := Sorted(values);
      var mid := |sorted| / 2;
      if |sorted| % 2 == 1 then Some(sorted[mid] as real)
      else Some((sorted[mid - 1] + sorted[mid]) as real / 2.0)
  }

  function AtMost(s: seq<int>, v: real): nat {
    if s == [] then 0 else (if s[0] as real <= v then 1 else 0) + AtMost(s[1..], v)
  }

  function AtLeast(s: seq<int>, v: real): nat {
    if s == [] then 0 else (if s[0] as real >= v then 1 else 0) + AtLeast(s[1..], v)
  }

  lemma {:induction false} InsertCounts(x: int, s: seq<int>, v: real)
    ensures AtMost(Insert(x, s), v) == AtMost(s, v) + if x as real <= v then 1 else 0
    ensures AtLeast(Insert(x, s), v) == AtLeast(s, v) + if x as real >= v then 1 else 0
  {
    if s == [] || x <= s[0] {
      assert ([x] + s)[1..] == s;
    } else {
      InsertCounts(x, s[1..], v);
      var r := Insert(x, s[1..]);
      assert ([s[0]] + r)[1..] == r;
    }
  }

  lemma {:induction false} SortedCounts(s: seq<int>, v: real)
    ensures AtMost(Sorted(s), v) == AtMost(s, v) && AtLeast(Sorted(s), v) == AtLeast(s, v)
  {
    if s != [] {
      SortedCounts(s[1..], v);
      InsertCounts(s[0], Sorted(s[1..]), v);
    }
  }

  lemma {:induction false} AscendingCounts(s: seq<int>, v: real, i: nat)
    requires Ascending(s) && i < |s|
    ensures s[i] as real <= v ==> AtMost(s, v) >= i + 1
    ensures s[i] as real >= v ==> AtLeast(s, v) >= |s| - i
  {
    if i > 0 {
      AscendingCounts(s[1..], v, i - 1);
    } else if |s| > 1 {
      AscendingCounts(s[1..], v, 0);
    }
  }

  // At least half of the sample is at or below the median, and at least half at or above.
  lemma MedianHalves(values: seq<int>)
    requires values != []
    ensures Median(values).Some?
    ensures 2 * AtMost(values, Median(values).value) >= |values|
    ensures 2 * AtLeast(values, Median(values).value) >= |values|
  {
    var sorted := Sorted(values);
    var m := Median(values).value;
    hide Ascending;
    SortedCounts(values, m);
    MiddleIsMiddle(sorted, m);
  }

  // At most a and at least b, for a below b, are no value's two sides.
  lemma {:induction false} ApartCounts(values: seq<int>, a: int, b: int)
    requires a < b
    ensures AtMost(values, a as real) + AtLeast(values, b as real) <= |values|
  {
    if values != [] {
      ApartCounts(values[1..], a, b);
    }
  }

  lemma MiddleMean(sorted: seq<int>) returns (lo: int, hi: int)
    requires sorted != []
    ensures lo == sorted[(|sorted| - 1) / 2] && hi == sorted[|sorted| / 2]
    ensures |sorted| % 2 == 1 ==> sorted[|sorted| / 2] as real == (lo + hi) as real / 2.0
    ensures |sorted| % 2 == 0 ==> (|sorted| - 1) / 2 == |sorted| / 2 - 1
  {
    lo, hi := sorted[(|sorted| - 1) / 2], sorted[|sorted| / 2];
  }

  lemma MedianMiddles(values: seq<int>) returns (lo: int, hi: int)
    requires values != []
    ensures Median(values) == Some((lo + hi) as real / 2.0)
    ensures 2 * AtMost(values, lo as real) >= |values| && 2 * AtLeast(values, lo as real) > |values|
    ensures 2 * AtMost(values, hi as real) > |values| && 2 * AtLeast(values, hi as real) >= |values|
  {
    hide AtMost;
    hide AtLeast;
    hide Ascending;
    var sorted := Sorted(values);
    hide Sorted;
    lo, hi := MiddleMean(sorted);
    SortedCounts(values, lo as real);
    SortedCounts(values, hi as real);
    AscendingCounts(sorted, lo as real, (|values| - 1) / 2);
    AscendingCounts(sorted, hi as real, |values| / 2);
  }

  // For an odd number of values that is the middle one; in general, with a the value that at least half are not above and
  // more than half are not below, and b the other way round, it is their mean.
  lemma MedianIsMidpoint(values: seq<int>, a: int, b: int)
    requires values != []
    requires 2 * AtMost(values, a as real) >= |values| && 2 * AtLeast(values, a as real) > |values|
    requires 2 * AtMost(values, b as real) > |values| && 2 * AtLeast(values, b as real) >= |values|
    ensures Median(values) == Some((a + b) as real / 2.0)
  {
    hide Median;
    hide AtMost;
    hide AtLeast;
    var lo, hi := MedianMiddles(values);
    if a < lo {
      ApartCounts(values, a, lo);
    } else if lo < a {
      ApartCounts(values, lo, a);
    }
    if b < hi {
      ApartCounts(values, b, hi);
    } else if hi < b {
      ApartCounts(values, hi, b);
    }
  }

  lemma MiddleIsMiddle(sorted: seq<int>, m: real)
    requires sorted != [] && Ascending(sorted)
    requires var mid := |sorted| / 2;
             m == if |sorted| % 2 == 1 then sorted[mid] as real else (sorted[mid - 1] + sorted[mid]) as real / 2.0
    ensures 2 * AtMost(sorted, m) >= |sorted| && 2 * AtLeast(sorted, m) >= |sorted|
  {
    var mid := |sorted| / 2;
    AscendingCounts(sorted, m, mid);
    if |sorted| % 2 == 0 {
      assert sorted[mid - 1] <= sorted[mid];
      AscendingCounts(sorted, m, mid - 1);
    }
  }
}
