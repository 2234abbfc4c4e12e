/** Response-time percentiles read off merged duration histograms, against the exact nearest-rank percentile. */
module ResponseTime {
  import opened Sequences
  import opened Aggregates

  /** The bands in order: [0, 100), [100, 300), ... and [10000, ...). */
  function Lo(band: nat): int {
    match band case 0 => 0 case 1 => 100 case 2 => 300 case 3 => 1000 case 4 => 3000 case _ => 10000
  }

  const LAST := 5

  /** The last band has no upper end. */
  function Hi(band: nat): int
    requires band < LAST
  {
    Lo(band + 1)
  }

  function Bands(h: Histogram): (counts: seq<int>)
    ensures |counts| == 6
  {
    [h.lt100, h.lt300, h.lt1000, h.lt3000, h.lt10000, h.gte10000]
  }

  /** The first `n` counts added up. */
  function Cum(counts: seq<int>, n: nat): int
    requires n <= |counts|
  {
    if n == 0 then 0 else Cum(counts, n - 1) + counts[n - 1]
  }

  function Sum(counts: seq<int>): int { Cum(counts, |counts|) }

  predicate IsHist(counts: seq<int>) { |counts| == 6 && forall i :: 0 <= i < 6 ==> counts[i] >= 0 }

  function Ceil(x: real): int { -(-x).Floor }

  /** round(x, 1) in exact arithmetic: to the nearest tenth, ties to even. */
  function Round1(x: real): real { RoundHalfEven(x * 10.0) as real / 10.0 }

  function RoundHalfEven(y: real): int {
    var f := y.Floor;
    var rest := y - f as real;
    if rest < 0.5 || (rest == 0.5 && f % 2 == 0) then f else f + 1
  }

  /** `rank` places into a band that holds `count` durations, spread evenly. */
  function Interpolated(band: nat, rank: int, count: int): real
    requires band <= LAST && count > 0
  {
    if band == LAST then Lo(band) as real
    else Round1(Lo(band) as real + Part(Hi(band) - Lo(band), rank, count))
  }

  function Part(width: int, rank: int, count: int): real
    requires count > 0
  {
    width as real * (rank as real / count as real)
  }

  function FromBand(counts: seq<int>, target: int, band: nat, cum: int): real
    requires IsHist(counts) && band <= 6
    decreases 6 - band
  {
    if band == 6 then Lo(LAST) as real
    else if counts[band] != 0 && cum + counts[band] >= target then Interpolated(band, target - cum, counts[band])
    else FromBand(counts, target, band + 1, cum + counts[band])
  }

  /** The least whole number that is at least `p` per cent of the total. */
  function Target(p: real, total: int): (t: int)
    ensures (t - 1) as real < p / 100.0 * total as real <= t as real
  {
    Ceil(p / 100.0 * total as real)
  }

  function Percentile(counts: seq<int>, p: real): real
    requires IsHist(counts)
  {
    if Sum(counts) == 0 then 0.0 else FromBand(counts, Target(p, Sum(counts)), 0, 0)
  }

  method PercentileFromHist(counts: seq<int>, p: real) returns (value: real)
    requires IsHist(counts)
    ensures value == Percentile(counts, p)
    ensures Sum(counts) == 0 ==> value == 0.0
  {
    var total := Sum(counts);
    if total == 0 { return 0.0; }
    var target := Target(p, total);
    var cum := 0;
    for band := 0 to 6
      invariant Percentile(counts, p) == FromBand(counts, target, band, cum)
    {
      if counts[band] == 0 { continue; }
      if cum + counts[band] >= target {
        return Interpolated(band, target - cum, counts[band]);
      }
      cum := cum + counts[band];
    }
    return Lo(LAST) as real;
  }

  /** Column `i` of the first `n` rows added up. */
  function Column(rows: seq<seq<int>>, n: nat, i: nat): int
    requires n <= |rows| && forall k :: 0 <= k < n ==> i < |rows[k]|
  {
    if n == 0 then 0 else Column(rows, n - 1, i) + rows[n - 1][i]
  }

  /** The bands of all buckets added up, column by column. */
  method OverallBands(rows: seq<seq<int>>) returns (overall: seq<int>)
    requires forall k :: 0 <= k < |rows| ==> |rows[k]| == 6
    ensures |overall| == 6 && forall i :: 0 <= i < 6 ==> overall[i] == Column(rows, |rows|, i)
  {
    overall := [0, 0, 0, 0, 0, 0];
    for k := 0 to |rows|
      invariant |overall| == 6 && forall i :: 0 <= i < 6 ==> overall[i] == Column(rows, k, i)
    {
      var bands := rows[k];
      for i := 0 to 6
        invariant |overall| == 6
        invariant forall j :: 0 <= j < 6 ==> overall[j] == Column(rows, k, j) + if j < i then bands[j] else 0
      {
        overall := overall[i := overall[i] + bands[i]];
      }
    }
  }

  // ---- Durations and their exact percentile ---------------------------------

  /** What AddDuration leaves in a bucket after these durations. */
  function Collected(durations: seq<nat>): Histogram {
    if durations == [] then NO_DURATIONS
    else HistogramPlus(Collected(durations[..|durations| - 1]), DurationShare(durations[|durations| - 1]))
  }

  /** How many durations are shorter than `x`. */
  function Shorter(durations: seq<nat>, x: int): nat {
    if durations == [] then 0
    else Shorter(durations[..|durations| - 1], x) + if durations[|durations| - 1] < x then 1 else 0
  }

  /** `x` is the duration at position `rank`, counting from 1, once the durations are sorted. */
  predicate AtRank(durations: seq<nat>, rank: int, x: int) {
    Shorter(durations, x) < rank <= Shorter(durations, x + 1)
  }

  lemma {:induction false} ShorterMonotone(durations: seq<nat>, x: int, y: int)
    requires x <= y
    ensures Shorter(durations, x) <= Shorter(durations, y) <= |durations|
  {
    if durations != [] { ShorterMonotone(durations[..|durations| - 1], x, y); }
  }

  lemma {:induction false} ShorterExtremes(durations: seq<nat>, top: nat)
    requires forall d :: d in durations ==> d < top
    ensures Shorter(durations, 0) == 0 && Shorter(durations, top) == |durations|
  {
    if durations != [] {
      var n := |durations| - 1;
      assert forall d :: d in durations[..n] ==> d in durations;
      ShorterExtremes(durations[..n], top);
      assert durations[n] in durations;
    }
  }

  /** No rank has two. */
  lemma AtRankUnique(durations: seq<nat>, rank: int, x: int, y: int)
    requires AtRank(durations, rank, x) && AtRank(durations, rank, y)
    ensures x == y
  {
    if x < y { ShorterMonotone(durations, x + 1, y); }
    if y < x { ShorterMonotone(durations, y + 1, x); }
  }

  /** Every rank has a duration, one of those measured. */
  lemma AtRankExists(durations: seq<nat>, rank: int) returns (x: int)
    requires 1 <= rank <= |durations|
    ensures AtRank(durations, rank, x) && x in durations
  {
    var top := Longest(durations);
    ShorterExtremes(durations, top);
    x := 0;
    while Shorter(durations, x + 1) < rank
      invariant x < top && Shorter(durations, x) < rank
      decreases top - x
    {
      x := x + 1;
    }
    AtRankOccurs(durations, rank, x);
  }

  function Longest(durations: seq<nat>): (top: nat)
    ensures forall d :: d in durations ==> d < top
  {
    if durations == [] then 0
    else
      var rest := Longest(durations[..|durations| - 1]);
      var d := durations[|durations| - 1];
      assert forall e :: e in durations ==> e in durations[..|durations| - 1] || e == d;
      if d < rest then rest else d + 1
  }

  lemma AtRankOccurs(durations: seq<nat>, rank: int, x: int)
    requires AtRank(durations, rank, x)
    ensures x in durations
  {
    if x !in durations { NoneBetween(durations, x); }
  }

  lemma {:induction false} NoneBetween(durations: seq<nat>, x: int)
    requires x !in durations
    ensures Shorter(durations, x) == Shorter(durations, x + 1)
  {
    if durations != [] {
      var n := |durations| - 1;
      assert forall d :: d in durations[..n] ==> d in durations;
      NoneBetween(durations[..n], x);
      assert durations[n] in durations;
    }
  }

  // ---- Histograms of split durations ----------------------------------------

  /** Cumulative band counts are counts of shorter durations. */
  lemma {:induction false} BandsCount(durations: seq<nat>)
    ensures var h := Collected(durations);
            && Shorter(durations, 0) == 0
            && Shorter(durations, 100) == h.lt100
            && Shorter(durations, 300) == h.lt100 + h.lt300
            && Shorter(durations, 1000) == h.lt100 + h.lt300 + h.lt1000
            && Shorter(durations, 3000) == h.lt100 + h.lt300 + h.lt1000 + h.lt3000
            && Shorter(durations, 10000) == h.lt100 + h.lt300 + h.lt1000 + h.lt3000 + h.lt10000
            && |durations| == h.lt100 + h.lt300 + h.lt1000 + h.lt3000 + h.lt10000 + h.gte10000
            && h.lt100 >= 0 && h.lt300 >= 0 && h.lt1000 >= 0 && h.lt3000 >= 0 && h.lt10000 >= 0 && h.gte10000 >= 0
  {
    if durations != [] { BandsCount(durations[..|durations| - 1]); }
  }

  lemma HistogramPlusAssociative(a: Histogram, b: Histogram, c: Histogram)
    ensures HistogramPlus(HistogramPlus(a, b), c) == HistogramPlus(a, HistogramPlus(b, c))
    ensures HistogramPlus(a, NO_DURATIONS) == a
  {}

  lemma {:induction false} CollectedConcat(a: seq<nat>, b: seq<nat>)
    ensures Collected(a + b) == HistogramPlus(Collected(a), Collected(b))
  {
    if b == [] {
      assert a + b == a;
      HistogramPlusAssociative(Collected(a), NO_DURATIONS, NO_DURATIONS);
    } else {
      var n := |b| - 1;
      CollectedConcat(a, b[..n]);
      assert (a + b)[..|a| + n] == a + b[..n] && (a + b)[|a| + n] == b[n];
      HistogramPlusAssociative(Collected(a), Collected(b[..n]), DurationShare(b[n]));
      hide HistogramPlus, DurationShare;
    }
  }

  predicate RowsOf(rows: seq<seq<int>>, buckets: seq<seq<nat>>) {
    |rows| == |buckets| && forall k :: 0 <= k < |rows| ==> |rows[k]| == 6 && rows[k] == Bands(Collected(buckets[k]))
  }

  lemma BandsAdd(a: Histogram, b: Histogram, i: nat)
    requires i < 6
    ensures Bands(HistogramPlus(a, b))[i] == Bands(a)[i] + Bands(b)[i]
  {}

  lemma NothingCollected(i: nat)
    requires i < 6
    ensures Bands(Collected([]))[i] == 0
  {}

  lemma {:induction false} MergedIsCollected(rows: seq<seq<int>>, buckets: seq<seq<nat>>, n: nat, i: nat)
    requires RowsOf(rows, buckets) && i < 6 && n <= |rows|
    ensures Column(rows, n, i) == Bands(Collected(Flatten(buckets[..n])))[i]
    decreases n
  {
    hide Collected, HistogramPlus, Bands;
    if n == 0 {
      NothingCollected(i);
    } else {
      MergedIsCollected(rows, buckets, n - 1, i);
      assert buckets[..n][..n - 1] == buckets[..n - 1];
      CollectedConcat(Flatten(buckets[..n - 1]), buckets[n - 1]);
      BandsAdd(Collected(Flatten(buckets[..n - 1])), Collected(buckets[n - 1]), i);
    }
  }

  // ---- Picking the band -----------------------------------------------------

  function BandOf(d: nat): nat {
    if d < 100 then 0 else if d < 300 then 1 else if d < 1000 then 2
    else if d < 3000 then 3 else if d < 10000 then 4 else 5
  }

  lemma {:induction false} PicksBand(counts: seq<int>, target: int, i: nat, band: nat)
    requires IsHist(counts) && i <= band <= LAST && Cum(counts, band) < target <= Cum(counts, band) + counts[band]
    ensures FromBand(counts, target, i, Cum(counts, i)) == Interpolated(band, target - Cum(counts, band), counts[band])
    decreases band - i
  {
    hide Interpolated;
    if i < band {
      CumMonotone(counts, i + 1, band);
      PicksBand(counts, target, i + 1, band);
    }
  }

  lemma {:induction false} CumMonotone(counts: seq<int>, i: nat, j: nat)
    requires IsHist(counts) && i <= j <= 6
    ensures Cum(counts, i) <= Cum(counts, j)
    decreases j
  {
    if i < j { CumMonotone(counts, i, j - 1); }
  }

  lemma RoundMonotone(y: real, z: real)
    requires y <= z
    ensures RoundHalfEven(y) <= RoundHalfEven(z)
  {
    assert y.Floor <= z.Floor;
  }

  lemma Round1Within(x: real, a: int, b: int)
    requires a as real <= x <= b as real
    ensures a as real <= Round1(x) <= b as real
  {
    RoundMonotone((10 * a) as real, x * 10.0);
    RoundMonotone(x * 10.0, (10 * b) as real);
  }

  lemma Round1Monotone(x: real, y: real)
    requires x <= y
    ensures Round1(x) <= Round1(y)
  {
    RoundMonotone(x * 10.0, y * 10.0);
  }

  lemma PartBounds(width: nat, rank: int, count: int)
    requires count > 0 && 0 <= rank <= count
    ensures 0.0 <= Part(width, rank, count) <= width as real
  {
    var f := rank as real / count as real;
    assert f * count as real == rank as real;
    assert 0.0 <= f <= 1.0;
  }

  lemma PartMonotone(width: nat, rank: int, rank': int, count: int)
    requires count > 0 && rank <= rank'
    ensures Part(width, rank, count) <= Part(width, rank', count)
  {
    var f, f' := rank as real / count as real, rank' as real / count as real;
    assert f * count as real == rank as real && f' * count as real == rank' as real;
    assert f <= f';
  }

  lemma InterpolatedWithin(band: nat, rank: int, count: int)
    requires band <= LAST && 0 <= rank <= count && count > 0
    ensures Lo(band) as real <= Interpolated(band, rank, count)
    ensures band < LAST ==> Interpolated(band, rank, count) <= Hi(band) as real
    ensures band == LAST ==> Interpolated(band, rank, count) == Lo(LAST) as real
  {
    hide Part, Round1;
    if band < LAST {
      PartBounds(Hi(band) - Lo(band), rank, count);
      Round1Within(Lo(band) as real + Part(Hi(band) - Lo(band), rank, count), Lo(band), Hi(band));
    }
  }

  lemma InterpolatedMonotone(band: nat, rank: int, rank': int, count: int)
    requires band <= LAST && count > 0 && rank <= rank'
    ensures Interpolated(band, rank, count) <= Interpolated(band, rank', count)
  {
    hide Part, Round1;
    if band < LAST {
      var lo, width := Lo(band), Hi(band) - Lo(band);
      PartMonotone(width, rank, rank', count);
      Round1Monotone(lo as real + Part(width, rank, count), lo as real + Part(width, rank', count));
    }
  }

  // ---- Within a band --------------------------------------------------------

  /** `value` has one decimal and is within half a tenth of `exact`. */
  predicate NearestTenth(value: real, exact: real) {
    (value * 10.0).Floor as real == value * 10.0 && exact - 0.05 <= value <= exact + 0.05
  }

  lemma RoundsToTenth(x: real)
    ensures NearestTenth(Round1(x), x)
  {
    hide RoundHalfEven;
    var tenths := RoundHalfEven(x * 10.0);
    HalfEvenIsNear(x * 10.0);
    WholeFloor(tenths);
    var value := Round1(x);
    assert value * 10.0 == tenths as real;
  }

  /** To the nearest whole number, and to the even one of two equally near. */
  lemma HalfEvenIsNear(y: real)
    ensures y - 0.5 <= RoundHalfEven(y) as real <= y + 0.5
    ensures y == y.Floor as real + 0.5 ==> RoundHalfEven(y) % 2 == 0
  {}

  lemma WholeFloor(n: int)
    ensures (n as real).Floor == n
  {}

  /**
   * The percentile is read off the band in which its target falls, as far into
   * it as the target is into the band's count, to the nearest tenth; in the
   * last band it is the lower end.
   */
  lemma PercentileInterpolates(counts: seq<int>, p: real, band: nat)
    requires IsHist(counts) && band <= LAST && Sum(counts) > 0
    requires Cum(counts, band) < Target(p, Sum(counts)) <= Cum(counts, band) + counts[band]
    ensures var lo := [0, 100, 300, 1000, 3000, 10000];
            var into := (Target(p, Sum(counts)) - Cum(counts, band)) as real / counts[band] as real;
            if band == LAST then Percentile(counts, p) == 10000.0
            else NearestTenth(Percentile(counts, p), lo[band] as real + (lo[band + 1] - lo[band]) as real * into)
  {
    hide Round1, NearestTenth, Cum;
    PicksBand(counts, Target(p, Sum(counts)), 0, band);
    assert Cum(counts, 0) == 0 by { CumOfSix(counts); }
    var target := Target(p, Sum(counts));
    if band < LAST {
      RoundsToTenth(Lo(band) as real + Part(Hi(band) - Lo(band), target - Cum(counts, band), counts[band]));
    }
  }

  // ---- Main results ---------------------------------------------------------

  /** `x` is the exact nearest-rank percentile. */
  predicate NearestRank(durations: seq<nat>, p: real, x: int) { AtRank(durations, Target(p, |durations|), x) }

  /** In the closed band of `x`, hence no further from it than the band is wide; the last band reports its lower end. */
  predicate Close(value: real, x: nat) {
    var band := BandOf(x);
    && Lo(band) as real <= value
    && (band < LAST ==> value <= Hi(band) as real
                        && -((Hi(band) - Lo(band)) as real) <= value - x as real <= (Hi(band) - Lo(band)) as real)
    && (band == LAST ==> value == 10000.0)
  }

  /**
   * However the durations are spread over buckets, the percentile of the
   * merged histogram lies in the closed band of the exact one.
   */
  lemma PercentileInBand(rows: seq<seq<int>>, buckets: seq<seq<nat>>, counts: seq<int>, p: real, x: nat)
    requires RowsOf(rows, buckets) && |counts| == 6 && forall i :: 0 <= i < 6 ==> counts[i] == Column(rows, |rows|, i)
    ensures IsHist(counts)
    ensures 0.0 < p <= 100.0 && NearestRank(Flatten(buckets), p, x) ==> Close(Percentile(counts, p), x)
  {
    hide Percentile, NearestRank, Close, Collected, Flatten, Bands;
    var all := Flatten(buckets);
    assert buckets[..|rows|] == buckets;
    forall i | 0 <= i < 6 ensures counts[i] == Bands(Collected(all))[i] {
      MergedIsCollected(rows, buckets, |rows|, i);
    }
    assert counts == Bands(Collected(all));
    BandsAreHist(all);
    if 0.0 < p <= 100.0 && NearestRank(all, p, x) { CollectedInBand(all, p, x); }
  }

  lemma BandsAreHist(all: seq<nat>)
    ensures IsHist(Bands(Collected(all)))
  {
    BandsCount(all);
  }

  lemma CollectedInBand(all: seq<nat>, p: real, x: nat)
    requires NearestRank(all, p, x) && 0.0 < p <= 100.0
    ensures IsHist(Bands(Collected(all))) && Close(Percentile(Bands(Collected(all)), p), x)
  {
    hide Shorter, Collected, Interpolated, Target, Bands, FromBand, Cum, Percentile;
    var counts, target, band := Bands(Collected(all)), Target(p, |all|), BandOf(x);
    RankInBand(all, target, x);
    PercentileOfRank(counts, p, band);
  }

  lemma PercentileOfRank(counts: seq<int>, p: real, band: nat)
    requires IsHist(counts) && band <= LAST
    requires Cum(counts, band) < Target(p, Sum(counts)) <= Cum(counts, band) + counts[band]
    requires Sum(counts) != 0
    ensures Lo(band) as real <= Percentile(counts, p)
    ensures band < LAST ==> Percentile(counts, p) <= Hi(band) as real
    ensures band == LAST ==> Percentile(counts, p) == 10000.0
  {
    var target := Target(p, Sum(counts));
    hide Interpolated, Target;
    PicksBand(counts, target, 0, band);
    InterpolatedWithin(band, target - Cum(counts, band), counts[band]);
  }

  lemma RankInBand(all: seq<nat>, rank: int, x: nat)
    requires AtRank(all, rank, x)
    ensures var counts, band := Bands(Collected(all)), BandOf(x);
            IsHist(counts) && Sum(counts) == |all| > 0 && Cum(counts, band) < rank <= Cum(counts, band) + counts[band]
  {
    var counts, band := Bands(Collected(all)), BandOf(x);
    BandsCount(all);
    hide Shorter, Collected, Cum;
    CumOfSix(counts);
    ShorterMonotone(all, Lo(band), x);
    ShorterMonotone(all, x + 1, if band < LAST then Hi(band) else x + 1);
  }

  lemma CumOfSix(counts: seq<int>)
    requires |counts| == 6
    ensures Cum(counts, 0) == 0 && Cum(counts, 1) == counts[0] && Cum(counts, 2) == counts[0] + counts[1]
    ensures Cum(counts, 3) == counts[0] + counts[1] + counts[2]
    ensures Cum(counts, 4) == counts[0] + counts[1] + counts[2] + counts[3]
    ensures Cum(counts, 5) == counts[0] + counts[1] + counts[2] + counts[3] + counts[4]
    ensures Cum(counts, 6) == counts[0] + counts[1] + counts[2] + counts[3] + counts[4] + counts[5]
  {}

  /** The target of a percentile is always a rank, so the exact percentile exists. */
  lemma TargetIsRank(p: real, total: nat)
    requires 0.0 < p <= 100.0 && total > 0
    ensures 1 <= Target(p, total) <= total
  {
    var q := p / 100.0;
    assert 0.0 < q * total as real <= total as real;
  }

  lemma {:induction false} FromBandAtLeast(counts: seq<int>, target: int, band: nat, cum: int)
    requires IsHist(counts) && band <= 6 && cum < target
    ensures Lo(band) as real <= FromBand(counts, target, band, cum)
    decreases 6 - band
  {
    if band < 6 {
      if counts[band] != 0 && cum + counts[band] >= target {
        InterpolatedWithin(band, target - cum, counts[band]);
      } else {
        hide Interpolated;
        FromBandAtLeast(counts, target, band + 1, cum + counts[band]);
      }
    }
  }

  lemma {:induction false} FromBandMonotone(counts: seq<int>, t: int, u: int, band: nat, cum: int)
    requires IsHist(counts) && band <= 6 && t <= u
    ensures FromBand(counts, t, band, cum) <= FromBand(counts, u, band, cum)
    decreases 6 - band
  {
    hide Interpolated;
    if band < 6 {
      var count := counts[band];
      if count != 0 && cum + count >= u {
        InterpolatedMonotone(band, t - cum, u - cum, count);
      } else if count != 0 && cum + count >= t {
        InterpolatedMonotone(band, t - cum, count, count);
        InterpolatedWithin(band, count, count);
        FromBandAtLeast(counts, u, band + 1, cum + count);
      } else {
        FromBandMonotone(counts, t, u, band + 1, cum + count);
      }
    }
  }

  /** A higher percentile is never reported lower. */
  lemma PercentileMonotone(counts: seq<int>, p: real, q: real)
    requires IsHist(counts) && p <= q
    ensures Percentile(counts, p) <= Percentile(counts, q)
  {
    var total := Sum(counts);
    CumMonotone(counts, 0, 6);
    TargetMonotone(p, q, total);
    hide Target;
    FromBandMonotone(counts, Target(p, total), Target(q, total), 0, 0);
  }

  lemma TargetMonotone(p: real, q: real, total: int)
    requires p <= q && total >= 0
    ensures Target(p, total) <= Target(q, total)
  {
    var a, b := p / 100.0, q / 100.0;
    assert a <= b;
    assert a * total as real <= b * total as real;
  }
}
