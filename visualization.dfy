/**
 * Terminal charts for the report: the sparkline of a latency series, the histogram of
 * its distribution, the nearest-rank percentile and the box drawn around a panel of text.
 */
module Visualization {
  import opened Basics
  import opened Numeric
  import opened Statistics

  // ---------------------------------------------------------------- sparkline

  /** The eight bar glyphs of a sparkline, lowest first. */
  const Blocks: seq<char> :=
    ['\U{2581}', '\U{2582}', '\U{2583}', '\U{2584}', '\U{2585}', '\U{2586}', '\U{2587}', '\U{2588}']

  /**
   * `chunks(size)`: consecutive runs of `size` elements, the last one possibly shorter;
   * there are `ceil(|s| / size)` of them.
   */
  function Chunks(s: seq<real>, size: nat): (cs: seq<seq<real>>)
    requires 0 < size
    ensures |cs| == (|s| + size - 1) / size
    ensures forall i :: 0 <= i < |cs| ==> 0 < |cs[i]| <= size
    decreases |s|
  {
    if s == [] then
      DivUnique(size - 1, size, 0, size - 1);
      []
    else if |s| <= size then
      CeilingStep(|s| - 1, size);
      DivUnique(|s| - 1, size, 0, |s| - 1);
      [s]
    else
      CeilingStep(|s| - 1, size);
      [s[..size]] + Chunks(s[size..], size)
  }

  /** Every chunk but the last holds exactly `size` values. */
  lemma {:induction false} ChunksFull(s: seq<real>, size: nat)
    requires 0 < size
    ensures var cs := Chunks(s, size);
      forall i :: 0 <= i < |cs| - 1 ==> |cs[i]| == size
    decreases |s|
  {
    if |s| > size {
      ChunksFull(s[size..], size);
      var cs := Chunks(s, size);
      assert cs[1..] == Chunks(s[size..], size);
      forall i | 0 < i < |cs| - 1
        ensures |cs[i]| == size
      {
        assert cs[i] == cs[1..][i - 1];
      }
    }
  }

  /** `ceil((n + size) / size) == ceil(n / size) + 1`, written with the `+ size - 1` form. */
  lemma CeilingStep(m: nat, size: nat)
    requires 0 < size
    ensures (m + 1 + size - 1) / size == m / size + 1
  {
    DivStep(m, size);
  }

  function Flatten(cs: seq<seq<real>>): seq<real>
  {
    if cs == [] then [] else cs[0] + Flatten(cs[1..])
  }

  /** The chunks, put back together, are the series: nothing is dropped or reordered. */
  lemma {:induction false} ChunksPartition(s: seq<real>, size: nat)
    requires 0 < size
    ensures Flatten(Chunks(s, size)) == s
    decreases |s|
  {
    if |s| > size {
      var cs := Chunks(s, size);
      assert cs[1..] == Chunks(s[size..], size);
      ChunksPartition(s[size..], size);
      assert s == s[..size] + s[size..];
    } else if s != [] {
      assert Flatten([s]) == s + Flatten([]);
    }
  }

  /** Every element of every chunk of a constant series is that constant. */
  lemma {:induction false} ChunksOfConstant(s: seq<real>, size: nat, c: real)
    requires 0 < size
    requires forall k :: 0 <= k < |s| ==> s[k] == c
    ensures forall i, j :: 0 <= i < |Chunks(s, size)| && 0 <= j < |Chunks(s, size)[i]| ==>
      Chunks(s, size)[i][j] == c
    decreases |s|
  {
    if |s| > size {
      ChunksOfConstant(s[size..], size, c);
      var cs := Chunks(s, size);
      assert cs[1..] == Chunks(s[size..], size);
      forall i, j | 0 <= i < |cs| && 0 <= j < |cs[i]|
        ensures cs[i][j] == c
      {
        if 0 < i {
          assert cs[i] == cs[1..][i - 1];
        }
      }
    }
  }

  /**
   * The points a sparkline shows: the series itself when it fits the width, otherwise
   * the means of its chunks of `len / width` values. The number of chunks can exceed
   * the width.
   */
  function Downsample(data: seq<real>, width: nat): (samples: seq<real>)
    requires 0 < width
    ensures |data| <= width ==> samples == data
    ensures width < |data| ==> |samples| == (|data| + |data| / width - 1) / (|data| / width)
    ensures data != [] ==> samples != []
  {
    if |data| > width then
      DivAtLeastOne(|data|, width);
      var size := |data| / width;
      var cs := Chunks(data, size);
      DivAtLeastOne(|data| + size - 1, size);
      seq(|cs|, i requires 0 <= i < |cs| => Mean(cs[i]))
    else
      data
  }

  /**
   * A series longer than the width becomes the means of its chunks of `len / width`
   * values, one point per chunk, in order.
   */
  lemma DownsampleIsChunkMeans(data: seq<real>, width: nat)
    requires 0 < width < |data|
    ensures var size := |data| / width;
      0 < size && var cs := Chunks(data, size);
      |Downsample(data, width)| == |cs| &&
      forall i :: 0 <= i < |cs| ==> Downsample(data, width)[i] == Mean(cs[i])
  {
    DivAtLeastOne(|data|, width);
  }

  /**
   * The glyph index of a value: its position between the minimum and the maximum,
   * scaled to 0..7, rounded half away from zero and clamped to 7.
   */
  function Level(v: real, lo: real, range: real): (level: nat)
    requires 0.0 < range
    ensures level <= 7
  {
    var r := RoundHalfAway((v - lo) / range * 7.0);
    Min(if r < 0 then 0 else r, 7)
  }

  /**
   * The glyph index of one point, given the extrema of the series: the middle glyph when
   * they coincide, otherwise the point's level between them.
   */
  function LevelOrMiddle(v: real, lo: real, hi: real): (level: nat)
    requires lo <= hi
    ensures level <= 7
  {
    if hi - lo == 0.0 then 4 else Level(v, lo, hi - lo)
  }

  /** The glyph indices of a series of points whose extrema are `lo` and `hi`. */
  function Levels(samples: seq<real>, lo: real, hi: real): (levels: seq<nat>)
    requires lo <= hi
    ensures |levels| == |samples|
    ensures forall i :: 0 <= i < |levels| ==> levels[i] <= 7
  {
    seq(|samples|, i requires 0 <= i < |samples| => LevelOrMiddle(samples[i], lo, hi))
  }

  /**
   * The glyph indices of `sparkline`. None stands for the division by zero of a zero
   * width with a non-empty series.
   */
  function SparkLevels(data: seq<real>, width: nat): (r: Option<seq<nat>>)
    ensures r.None? <==> data != [] && width == 0
    ensures data == [] ==> r == Some([])
    ensures r.Some? && data != [] ==>
      && |r.value| == |Downsample(data, width)|
      && forall i :: 0 <= i < |r.value| ==> r.value[i] <= 7
  {
    if data == [] then Some([])
    else if width == 0 then None
    else
      var samples := Downsample(data, width);
      Some(Levels(samples, MinOf(samples), MaxOf(samples)))
  }

  /** `sparkline`: one glyph per point. */
  function Sparkline(data: seq<real>, width: nat): (r: Option<string>)
    ensures r.None? <==> data != [] && width == 0
    ensures r.Some? ==> forall i :: 0 <= i < |r.value| ==> r.value[i] in Blocks
    ensures r.Some? ==> var levels := SparkLevels(data, width).value;
      |r.value| == |levels| && forall i :: 0 <= i < |levels| ==> r.value[i] == Blocks[levels[i]]
  {
    match SparkLevels(data, width)
    case None => None
    case Some(levels) => Some(seq(|levels|, i requires 0 <= i < |levels| => Blocks[levels[i]]))
  }

  /** The minimum maps to the lowest glyph and the maximum to the highest. */
  lemma LevelExtremes(lo: real, range: real)
    requires 0.0 < range
    ensures Level(lo, lo, range) == 0
    ensures Level(lo + range, lo, range) == 7
  {
    assert (lo + range - lo) / range == 1.0;
  }

  /** A larger value never gets a lower glyph. */
  lemma LevelMonotone(v: real, w: real, lo: real, range: real)
    requires 0.0 < range && v <= w
    ensures Level(v, lo, range) <= Level(w, lo, range)
  {
    DivideMonotone(v - lo, w - lo, range);
    RoundMonotone((v - lo) / range * 7.0, (w - lo) / range * 7.0);
  }

  lemma DivideMonotone(x: real, y: real, d: real)
    requires 0.0 < d && x <= y
    ensures x / d * 7.0 <= y / d * 7.0
  {
    assert y / d - x / d == (y - x) / d;
  }

  /** In a non-constant series the lowest point gets the lowest glyph. */
  lemma SparklineReachesBottom(data: seq<real>, width: nat)
    requires data != [] && 0 < width
    requires var s := Downsample(data, width); MinOf(s) != MaxOf(s)
    ensures 0 in SparkLevels(data, width).value
  {
    var s := Downsample(data, width);
    var i := IndexOf(s, MinOf(s));
    LevelsReachBottom(s, MinOf(s), MaxOf(s), i);
  }

  /** In a non-constant series the highest point gets the highest glyph. */
  lemma SparklineReachesTop(data: seq<real>, width: nat)
    requires data != [] && 0 < width
    requires var s := Downsample(data, width); MinOf(s) != MaxOf(s)
    ensures 7 in SparkLevels(data, width).value
  {
    var s := Downsample(data, width);
    var i := IndexOf(s, MaxOf(s));
    LevelsReachTop(s, MinOf(s), MaxOf(s), i);
  }

  /**
   * In a series that is not constant after downsampling, the glyph of each point is its
   * level between the least point `lo` and the greatest point `hi`.
   */
  lemma {:induction false} SparkLevelIsLevel(data: seq<real>, width: nat, i: nat, lo: real, hi: real)
    requires data != [] && 0 < width
    requires var s := Downsample(data, width); i < |s| && lo == MinOf(s) && hi == MaxOf(s)
    requires lo < hi
    ensures SparkLevels(data, width).value[i] == Level(Downsample(data, width)[i], lo, hi - lo)
  {
    SparkLevelsOfSeries(data, width);
    LevelsAt(Downsample(data, width), lo, hi, i);
  }

  /** The glyph indices of a non-empty series are the levels of its downsampled points. */
  lemma SparkLevelsOfSeries(data: seq<real>, width: nat)
    requires data != [] && 0 < width
    ensures var s := Downsample(data, width);
      SparkLevels(data, width) == Some(Levels(s, MinOf(s), MaxOf(s)))
  {
  }

  lemma LevelsAt(s: seq<real>, lo: real, hi: real, i: nat)
    requires lo < hi && i < |s|
    ensures Levels(s, lo, hi)[i] == Level(s[i], lo, hi - lo)
  {
  }

  lemma LevelsReachBottom(s: seq<real>, lo: real, hi: real, i: nat)
    requires lo < hi && i < |s| && s[i] == lo
    ensures 0 in Levels(s, lo, hi)
  {
    LevelExtremes(lo, hi - lo);
    assert Levels(s, lo, hi)[i] == LevelOrMiddle(lo, lo, hi);
  }

  lemma LevelsReachTop(s: seq<real>, lo: real, hi: real, i: nat)
    requires lo < hi && i < |s| && s[i] == hi
    ensures 7 in Levels(s, lo, hi)
  {
    LevelExtremes(lo, hi - lo);
    assert lo + (hi - lo) == hi;
    assert Levels(s, lo, hi)[i] == LevelOrMiddle(hi, lo, hi);
  }

  lemma IndexOf(s: seq<real>, v: real) returns (i: nat)
    requires v in s
    ensures i < |s| && s[i] == v
  {
    i :| 0 <= i < |s| && s[i] == v;
  }

  /** A constant series renders the middle glyph (index 4) once per point. */
  lemma ConstantSparkline(data: seq<real>, width: nat, c: real)
    requires data != [] && 0 < width
    requires forall k :: 0 <= k < |data| ==> data[k] == c
    ensures var levels := SparkLevels(data, width).value;
      |levels| == |Downsample(data, width)| && forall i :: 0 <= i < |levels| ==> levels[i] == 4
  {
    var s := Downsample(data, width);
    DownsampleConstant(data, width, c);
    ConstantExtremes(s, c);
    assert SparkLevels(data, width).value == Levels(s, c, c);
  }

  /** Every point of a downsampled constant series is that constant. */
  lemma DownsampleConstant(data: seq<real>, width: nat, c: real)
    requires 0 < width
    requires forall k :: 0 <= k < |data| ==> data[k] == c
    ensures forall i :: 0 <= i < |Downsample(data, width)| ==> Downsample(data, width)[i] == c
  {
    if |data| > width {
      DivAtLeastOne(|data|, width);
      var size := |data| / width;
      var cs := Chunks(data, size);
      ChunksOfConstant(data, size, c);
      forall i | 0 <= i < |cs|
        ensures Mean(cs[i]) == c
      {
        assert forall j :: 0 <= j < |cs[i]| ==> cs[i][j] == c;
        ConstantExtremes(cs[i], c);
      }
    }
  }

  lemma ConstantExtremes(s: seq<real>, c: real)
    requires s != []
    requires forall i :: 0 <= i < |s| ==> s[i] == c
    ensures MinOf(s) == c && MaxOf(s) == c
  {
  }

  /**
   * Downsampling can yield more points than the width: seven values at width 3 are cut
   * into chunks of two, which gives four points.
   */
  lemma SparklineCanExceedWidth(data: seq<real>)
    requires |data| == 7
    ensures |Sparkline(data, 3).value| == 4
  {
  }

  /** The unit-test example: five values at width 10 give five glyphs, not an empty line. */
  lemma SparklineOfShortSeries()
    ensures |Sparkline([1.0, 2.0, 3.0, 4.0, 5.0], 10).value| == 5
  {
  }

  /** Every value is at most every later one (the order `sort_by` with `partial_cmp` gives). */
  predicate Sorted(s: seq<real>)
  {
    forall k, l :: 0 <= k < l < |s| ==> s[k] <= s[l]
  }

  /** A lower bound of every value is a lower bound of every chunk element. */
  lemma {:induction false} ChunksAbove(s: seq<real>, size: nat, lo: real)
    requires 0 < size
    requires forall k :: 0 <= k < |s| ==> lo <= s[k]
    ensures forall i :: 0 <= i < |Chunks(s, size)| ==> lo <= MinOf(Chunks(s, size)[i])
    decreases |s|
  {
    var cs := Chunks(s, size);
    if |s| > size {
      ChunksAbove(s[size..], size, lo);
      assert cs[1..] == Chunks(s[size..], size);
      forall i | 0 <= i < |cs|
        ensures lo <= MinOf(cs[i])
      {
        if 0 < i {
          assert cs[i] == cs[1..][i - 1];
        } else {
          var k := IndexOf(cs[0], MinOf(cs[0]));
          assert cs[0][k] == s[k];
        }
      }
    } else if s != [] {
      var k := IndexOf(s, MinOf(s));
    }
  }

  /** The chunks of an ascending series are ordered: each lies wholly below the next. */
  lemma {:induction false} ChunksAscending(s: seq<real>, size: nat)
    requires 0 < size && Sorted(s)
    ensures forall i, j :: 0 <= i < j < |Chunks(s, size)| ==>
      MaxOf(Chunks(s, size)[i]) <= MinOf(Chunks(s, size)[j])
    decreases |s|
  {
    var cs := Chunks(s, size);
    if |s| > size {
      var rest := s[size..];
      ChunksAscending(rest, size);
      assert cs[1..] == Chunks(rest, size);
      var p := IndexOf(cs[0], MaxOf(cs[0]));
      assert cs[0][p] == s[p];
      assert forall k :: 0 <= k < |rest| ==> s[p] <= rest[k] by {
        forall k | 0 <= k < |rest|
          ensures s[p] <= rest[k]
        {
          assert rest[k] == s[size + k];
        }
      }
      ChunksAbove(rest, size, s[p]);
      forall i, j | 0 <= i < j < |cs|
        ensures MaxOf(cs[i]) <= MinOf(cs[j])
      {
        assert cs[j] == cs[1..][j - 1];
        if 0 < i {
          assert cs[i] == cs[1..][i - 1];
        }
      }
    }
  }

  /** Downsampling an ascending series keeps it ascending. */
  lemma DownsampleAscending(data: seq<real>, width: nat)
    requires 0 < width && Sorted(data)
    ensures Sorted(Downsample(data, width))
  {
    if |data| > width {
      DivAtLeastOne(|data|, width);
      var size := |data| / width;
      var cs := Chunks(data, size);
      ChunksAscending(data, size);
      var samples := Downsample(data, width);
      forall i, j | 0 <= i < j < |samples|
        ensures samples[i] <= samples[j]
      {
        assert samples[i] == Mean(cs[i]) && samples[j] == Mean(cs[j]);
      }
    }
  }

  /**
   * The sparkline of an ascending series never steps down: its glyph indices are
   * ascending too.
   */
  lemma SparklineFollowsOrder(data: seq<real>, width: nat)
    requires data != [] && 0 < width && Sorted(data)
    ensures var levels := SparkLevels(data, width).value;
      forall i, j :: 0 <= i < j < |levels| ==> levels[i] <= levels[j]
  {
    var s := Downsample(data, width);
    DownsampleAscending(data, width);
    assert MinOf(s) <= s[0] <= MaxOf(s);
    LevelsAscending(s, MinOf(s), MaxOf(s));
  }

  /** The glyph indices of an ascending series are ascending. */
  lemma LevelsAscending(s: seq<real>, lo: real, hi: real)
    requires lo <= hi && Sorted(s)
    ensures forall i, j :: 0 <= i < j < |s| ==> Levels(s, lo, hi)[i] <= Levels(s, lo, hi)[j]
  {
    if hi - lo != 0.0 {
      forall i, j | 0 <= i < j < |s|
        ensures Levels(s, lo, hi)[i] <= Levels(s, lo, hi)[j]
      {
        LevelMonotone(s[i], s[j], lo, hi - lo);
      }
    }
  }

  // ---------------------------------------------------------------- histogram

  /**
   * The bin of a value: `((v - lo) / range * (bins - 0.001)) as usize`. A value between
   * the minimum and the maximum always lands in one of the `bins` bins, so the
   * increment of `bin_counts[bin_idx]` never indexes out of bounds.
   */
  function BinIndex(v: real, lo: real, range: real, bins: nat): (b: nat)
    requires 0.0 < range && 0 < bins
    ensures lo <= v <= lo + range ==> b < bins
  {
    var x := (v - lo) / range;
    if lo <= v <= lo + range then
      UnitScale(x, bins as real - 0.001);
      ToUsize(x * (bins as real - 0.001))
    else
      ToUsize(x * (bins as real - 0.001))
  }

  /** A fraction in `[0, 1]` scales `y >= 0` to at most `y`. */
  lemma UnitScale(x: real, y: real)
    requires 0.0 <= x <= 1.0 && 0.0 <= y
    ensures 0.0 <= x * y <= y
  {
    assert y - x * y == (1.0 - x) * y;
  }

  /** Every value lies between the minimum and the maximum of its series. */
  predicate WithinRange(data: seq<real>, lo: real, range: real)
  {
    forall k :: 0 <= k < |data| ==> lo <= data[k] <= lo + range
  }

  /** The bin counts the loop of `histogram` accumulates, one value at a time. */
  function BinCounts(data: seq<real>, lo: real, range: real, bins: nat): (counts: seq<nat>)
    requires 0.0 < range && 0 < bins && WithinRange(data, lo, range)
    ensures |counts| == bins
  {
    if data == [] then seq(bins, _ => 0)
    else
      var counts := BinCounts(data[..|data| - 1], lo, range, bins);
      var b := BinIndex(data[|data| - 1], lo, range, bins);
      counts[b := counts[b] + 1]
  }

  function SumNat(s: seq<nat>): nat
  {
    if s == [] then 0 else SumNat(s[..|s| - 1]) + s[|s| - 1]
  }

  /** Adding one to a single entry adds one to the total. */
  lemma {:induction false} SumNatIncrement(s: seq<nat>, b: nat)
    requires b < |s|
    ensures SumNat(s[b := s[b] + 1]) == SumNat(s) + 1
  {
    var t := s[b := s[b] + 1];
    if b < |s| - 1 {
      assert t[..|t| - 1] == s[..|s| - 1][b := s[b] + 1];
      SumNatIncrement(s[..|s| - 1], b);
    } else {
      assert t[..|t| - 1] == s[..|s| - 1];
    }
  }

  /** A run of zeros adds up to zero. */
  lemma {:induction false} SumNatZeros(s: seq<nat>)
    requires forall i :: 0 <= i < |s| ==> s[i] == 0
    ensures SumNat(s) == 0
  {
    if s != [] {
      SumNatZeros(s[..|s| - 1]);
    }
  }

  /** Every value is counted exactly once: the counts add up to the number of values. */
  lemma {:induction false} BinCountsTotal(data: seq<real>, lo: real, range: real, bins: nat)
    requires 0.0 < range && 0 < bins && WithinRange(data, lo, range)
    ensures SumNat(BinCounts(data, lo, range, bins)) == |data|
  {
    if data == [] {
      SumNatZeros(seq(bins, _ => 0));
    } else {
      var init := data[..|data| - 1];
      BinCountsTotal(init, lo, range, bins);
      SumNatIncrement(BinCounts(init, lo, range, bins), BinIndex(data[|data| - 1], lo, range, bins));
    }
  }

  /**
   * The counting loop of `histogram`: a zeroed array of `bins` counters, one increment
   * per value, at the value's bin.
   */
  method CountBins(data: seq<real>, lo: real, range: real, bins: nat) returns (counts: seq<nat>)
    requires 0.0 < range && 0 < bins && WithinRange(data, lo, range)
    ensures counts == BinCounts(data, lo, range, bins)
  {
    var binCounts := new nat[bins](_ => 0);
    assert binCounts[..] == BinCounts(data[..0], lo, range, bins);
    for i := 0 to |data|
      invariant binCounts[..] == BinCounts(data[..i], lo, range, bins)
    {
      assert data[..i + 1][..i] == data[..i];
      var b := BinIndex(data[i], lo, range, bins);
      binCounts[b] := binCounts[b] + 1;
    }
    assert data[..|data|] == data;
    counts := binCounts[..];
  }

  /** `*bin_counts.iter().max().unwrap_or(&1)`. */
  function MaxCount(counts: seq<nat>): (m: nat)
    ensures counts == [] ==> m == 1
    ensures counts != [] ==> m in counts && forall i :: 0 <= i < |counts| ==> counts[i] <= m
  {
    if counts == [] then 1
    else if |counts| == 1 then counts[0]
    else
      var m' := MaxCount(counts[..|counts| - 1]);
      assert m' in counts[..|counts| - 1];
      if m' < counts[|counts| - 1] then counts[|counts| - 1] else m'
  }

  /**
   * The length of a bar: `(count / max_count * width) as usize`, and 0 when the largest
   * count is 0. A bar never exceeds the width, and the largest count fills it.
   */
  function BarWidth(count: nat, maxCount: nat, width: nat): (w: nat)
    ensures count <= maxCount ==> w <= width
    ensures 0 < maxCount == count ==> w == width
  {
    if maxCount > 0 then
      BarBounds(count, maxCount, width);
      ToUsize(count as real / maxCount as real * width as real)
    else 0
  }

  lemma BarBounds(count: nat, maxCount: nat, width: nat)
    requires 0 < maxCount
    ensures var y := count as real / maxCount as real * width as real;
      (count <= maxCount ==> y <= width as real) && (count == maxCount ==> y == width as real)
  {
    var x := count as real / maxCount as real;
    if count <= maxCount {
      UnitScale(x, width as real);
    }
    if count == maxCount {
      SelfRatio(maxCount as real);
    }
  }

  lemma SelfRatio(d: real)
    requires 0.0 < d
    ensures d / d == 1.0
  {
  }

  /** One line of the histogram, before its numbers are formatted. */
  datatype HistogramRow =
    | AllIdentical
    | Bar(binStart: real, binEnd: real, barWidth: nat)

  /** The boundary below bin `i`: `lo + i * range / bins`. */
  function BinBound(i: nat, lo: real, range: real, bins: nat): (b: real)
    requires 0 < bins
    ensures i == 0 ==> b == lo
    ensures i == bins ==> b == lo + range
  {
    Cancel(bins as real, range);
    lo + i as real * range / bins as real
  }

  /** The row of bin `i`, from the boundary below it to the boundary below the next bin. */
  function BarRow(i: nat, count: nat, maxCount: nat, lo: real, range: real, bins: nat, width: nat): HistogramRow
    requires 0 < bins
  {
    Bar(BinBound(i, lo, range, bins), BinBound(i + 1, lo, range, bins), BarWidth(count, maxCount, width))
  }

  /** The rows `histogram` renders from the counts: one per bin, in bin order. */
  function Bars(counts: seq<nat>, lo: real, range: real, width: nat): (rows: seq<HistogramRow>)
    requires counts != []
    ensures |rows| == |counts|
  {
    var m := MaxCount(counts);
    seq(|counts|, i requires 0 <= i < |counts| => BarRow(i, counts[i], m, lo, range, |counts|, width))
  }

  /**
   * `histogram`: no rows for an empty series or zero bins, one `All values identical`
   * row for a constant series, and otherwise one bar per bin over the counts of the
   * values in each bin.
   */
  method Histogram(data: seq<real>, bins: nat, width: nat) returns (rows: seq<HistogramRow>)
    ensures data == [] || bins == 0 ==> rows == []
    ensures data != [] && 0 < bins && MinOf(data) == MaxOf(data) ==> rows == [AllIdentical]
    ensures data != [] && 0 < bins && MinOf(data) != MaxOf(data) ==>
      var lo := MinOf(data);
      var range := MaxOf(data) - lo;
      && WithinRange(data, lo, range)
      && rows == Bars(BinCounts(data, lo, range, bins), lo, range, width)
  {
    if data == [] || bins == 0 {
      return [];
    }
    var lo := MinOf(data);
    var hi := MaxOf(data);
    var range := hi - lo;
    if range == 0.0 {
      return [AllIdentical];
    }
    var counts := CountBins(data, lo, range, bins);
    rows := Bars(counts, lo, range, width);
  }

  /** No bar is wider than the requested width. */
  lemma BarsFitWidth(counts: seq<nat>, lo: real, range: real, width: nat)
    requires counts != []
    ensures forall i :: 0 <= i < |counts| ==> Bars(counts, lo, range, width)[i].barWidth <= width
  {
  }

  /**
   * When some value was counted, the fullest bin draws a bar of exactly the requested
   * width.
   */
  lemma FullestBarFillsWidth(data: seq<real>, lo: real, range: real, bins: nat, width: nat)
    requires 0.0 < range && 0 < bins && WithinRange(data, lo, range) && data != []
    ensures var rows := Bars(BinCounts(data, lo, range, bins), lo, range, width);
      exists i :: 0 <= i < |rows| && rows[i].barWidth == width
  {
    var counts := BinCounts(data, lo, range, bins);
    var m := MaxCount(counts);
    BinCountsTotal(data, lo, range, bins);
    if m == 0 {
      SumNatZeros(counts);
      assert false;
    }
    var i :| 0 <= i < |counts| && counts[i] == m;
    assert Bars(counts, lo, range, width)[i].barWidth == width;
  }

  /** The bins span the range: the first starts at the minimum and the last ends at the maximum. */
  lemma BarsSpanRange(counts: seq<nat>, lo: real, range: real, width: nat)
    requires counts != []
    ensures var rows := Bars(counts, lo, range, width);
      rows[0].binStart == lo && rows[|rows| - 1].binEnd == lo + range
  {
    var rows := Bars(counts, lo, range, width);
    var n := |counts|;
    var m := MaxCount(counts);
    assert rows[0] == BarRow(0, counts[0], m, lo, range, n, width);
    assert rows[n - 1] == BarRow(n - 1, counts[n - 1], m, lo, range, n, width);
  }

  /** The bins do not overlap or leave gaps: each ends where the next one starts. */
  lemma BarsAdjacent(counts: seq<nat>, lo: real, range: real, width: nat)
    requires counts != []
    ensures var rows := Bars(counts, lo, range, width);
      forall i :: 0 <= i < |rows| - 1 ==> rows[i].binEnd == rows[i + 1].binStart
  {
    var rows := Bars(counts, lo, range, width);
    var n := |counts|;
    forall i | 0 <= i < |rows| - 1
      ensures rows[i].binEnd == rows[i + 1].binStart
    {
      var k := i + 1;
      assert rows[i] == BarRow(i, counts[i], MaxCount(counts), lo, range, n, width);
      assert rows[k] == BarRow(k, counts[k], MaxCount(counts), lo, range, n, width);
    }
  }

  lemma Cancel(n: real, r: real)
    requires 0.0 < n
    ensures n * r / n == r
  {
  }

  /** A value is never counted in a bin that starts above it. */
  lemma BinStartsAtOrBelow(v: real, lo: real, range: real, bins: nat)
    requires 0.0 < range && 0 < bins && lo <= v <= lo + range
    ensures BinBound(BinIndex(v, lo, range, bins), lo, range, bins) <= v
  {
    var x := (v - lo) / range;
    var b := BinIndex(v, lo, range, bins) as real;
    var n := bins as real;
    assert b / n <= x by {
      UnitScale(x, n - 0.001);
      MarginBelow(x, n);
      QuotientBelow(b, x, n);
    }
    assert b * range / n <= x * range by {
      ScaleBelow(b / n, x, range);
      assert b * range / n == b / n * range;
    }
    assert x * range == v - lo;
  }

  lemma MarginBelow(x: real, n: real)
    requires 0.0 <= x
    ensures x * (n - 0.001) <= x * n
  {
    assert x * n - x * (n - 0.001) == x * 0.001;
  }

  lemma QuotientBelow(b: real, x: real, n: real)
    requires 0.0 < n && b <= x * n
    ensures b / n <= x
  {
    assert b / n * n == b;
  }

  lemma ScaleBelow(a: real, x: real, r: real)
    requires a <= x && 0.0 < r
    ensures a * r <= x * r
  {
    assert x * r - a * r == (x - a) * r;
  }

  /**
   * The 0.001 margin of the bin index lets a value just above a bin boundary fall in the
   * bin below it: with two bins over `[0, 1]`, the value 0.5001 is counted in the first
   * bin, whose label ends at 0.5.
   */
  lemma BinCanOverrunItsEnd()
    ensures BinIndex(0.5001, 0.0, 1.0, 2) == 0
    ensures BinBound(1, 0.0, 1.0, 2) < 0.5001
  {
  }

  // ---------------------------------------------------------------- percentile

  /**
   * `sort_by(|a, b| a.partial_cmp(b).unwrap())` on the copied series: the values end up
   * in ascending order and none is lost or added. Written as an insertion sort that
   * swaps each new value down into place; every ascending arrangement of the same values
   * is the same sequence (`SortedUnique`), so the sorting algorithm does not matter.
   */
  method SortAscending(a: array<real>)
    modifies a
    ensures Sorted(a[..])
    ensures multiset(a[..]) == multiset(old(a[..]))
  {
    for i := 0 to a.Length
      invariant AscendingUpTo(a[..], i)
      invariant multiset(a[..]) == multiset(old(a[..]))
    {
      SwapDown(a, i);
    }
  }

  /** The first `n` values are in ascending order. */
  predicate AscendingUpTo(s: seq<real>, n: nat)
    requires n <= |s|
  {
    forall k, l :: 0 <= k < l < n ==> s[k] <= s[l]
  }

  /**
   * One pass of the insertion sort: the value at `i` is swapped down past every larger
   * value before it, which extends the ascending prefix by one.
   */
  method SwapDown(a: array<real>, i: nat)
    requires i < a.Length && AscendingUpTo(a[..], i)
    modifies a
    ensures AscendingUpTo(a[..], i + 1)
    ensures multiset(a[..]) == multiset(old(a[..]))
  {
    var j := i;
    Unsettled(a[..], i);
    while 0 < j && a[j] < a[j - 1]
      invariant 0 <= j <= i < a.Length
      invariant SortedExcept(a[..], i, j) && BelowLater(a[..], i, j)
      invariant multiset(a[..]) == multiset(old(a[..]))
    {
      SwapBack(a, i, j);
      j := j - 1;
    }
    Settled(a[..], i, j);
  }

  /** One step of the pass: the moving value changes places with its larger predecessor. */
  method SwapBack(a: array<real>, i: nat, j: nat)
    requires 0 < j <= i < a.Length && a[j] < a[j - 1]
    requires SortedExcept(a[..], i, j) && BelowLater(a[..], i, j)
    modifies a
    ensures SortedExcept(a[..], i, j - 1) && BelowLater(a[..], i, j - 1)
    ensures multiset(a[..]) == multiset(old(a[..]))
  {
    ghost var before := a[..];
    Swap(a, j - 1, j);
    SwapStep(before, i, j);
  }

  /** Exchanges two elements of the array. */
  method Swap(a: array<real>, i: nat, j: nat)
    requires i < j < a.Length
    modifies a
    ensures a[..] == old(a[..])[i := old(a[..])[j]][j := old(a[..])[i]]
    ensures multiset(a[..]) == multiset(old(a[..]))
  {
    a[i], a[j] := a[j], a[i];
  }

  /** Positions `0..=i` other than `j` are in ascending order. */
  predicate SortedExcept(s: seq<real>, i: nat, j: nat)
    requires i < |s|
  {
    forall k, l :: 0 <= k < l <= i && k != j && l != j ==> s[k] <= s[l]
  }

  /** The value at `j` is at most every value after it up to `i`. */
  predicate BelowLater(s: seq<real>, i: nat, j: nat)
    requires j <= i < |s|
  {
    forall l :: j < l <= i ==> s[j] <= s[l]
  }

  /** Swapping the moving value with a larger predecessor keeps both invariants of the pass. */
  lemma SwapStep(s: seq<real>, i: nat, j: nat)
    requires 0 < j <= i < |s| && s[j] < s[j - 1]
    requires SortedExcept(s, i, j) && BelowLater(s, i, j)
    ensures var t := s[j - 1 := s[j]][j := s[j - 1]];
      SortedExcept(t, i, j - 1) && BelowLater(t, i, j - 1)
  {
  }

  /** Before the pass the value at `i` is the moving one and everything before it is in order. */
  lemma Unsettled(s: seq<real>, i: nat)
    requires i < |s| && AscendingUpTo(s, i)
    ensures SortedExcept(s, i, i) && BelowLater(s, i, i)
  {
  }

  /** Once the moving value is not below its predecessor, the prefix is ascending. */
  lemma Settled(s: seq<real>, i: nat, j: nat)
    requires j <= i < |s|
    requires SortedExcept(s, i, j) && BelowLater(s, i, j)
    requires j == 0 || s[j - 1] <= s[j]
    ensures AscendingUpTo(s, i + 1)
  {
    forall k, l | 0 <= k < l <= i
      ensures s[k] <= s[l]
    {
      if l == j && k < j - 1 {
        assert s[k] <= s[j - 1];
      }
    }
  }

  /** Inserting a value into an ascending sequence, before the first value not below it. */
  function Insert(x: real, s: seq<real>): (r: seq<real>)
    ensures |r| == |s| + 1
    ensures multiset(r) == multiset(s) + multiset{x}
  {
    if s == [] then [x]
    else if x <= s[0] then [x] + s
    else
      assert s == [s[0]] + s[1..];
      [s[0]] + Insert(x, s[1..])
  }

  /** Insertion keeps an ascending sequence ascending. */
  lemma {:induction false} InsertSorted(x: real, s: seq<real>)
    requires Sorted(s)
    ensures Sorted(Insert(x, s))
  {
    if s != [] && s[0] < x {
      var rest := Insert(x, s[1..]);
      InsertSorted(x, s[1..]);
      InsertAbove(x, s[1..], s[0]);
      ConsSorted(s[0], rest);
    } else if s != [] {
      ConsSorted(x, s);
    }
  }

  /** A value at most every element of an ascending sequence can go in front of it. */
  lemma ConsSorted(h: real, s: seq<real>)
    requires Sorted(s) && forall k :: 0 <= k < |s| ==> h <= s[k]
    ensures Sorted([h] + s)
  {
    var r := [h] + s;
    forall k, l | 0 <= k < l < |r|
      ensures r[k] <= r[l]
    {
      assert r[l] == s[l - 1];
      if 0 < k {
        assert r[k] == s[k - 1];
      }
    }
  }

  /** A lower bound of the value and of the sequence bounds the result of the insertion. */
  lemma {:induction false} InsertAbove(x: real, s: seq<real>, b: real)
    requires b <= x && forall k :: 0 <= k < |s| ==> b <= s[k]
    ensures forall k :: 0 <= k < |Insert(x, s)| ==> b <= Insert(x, s)[k]
  {
    if s != [] && s[0] < x {
      InsertAbove(x, s[1..], b);
      assert Insert(x, s) == [s[0]] + Insert(x, s[1..]);
    }
  }

  /** The ascending arrangement of a series: a reference definition of sorting. */
  function SortedOf(s: seq<real>): (r: seq<real>)
    ensures |r| == |s|
    ensures multiset(r) == multiset(s)
  {
    if s == [] then []
    else
      assert s == [s[0]] + s[1..];
      Insert(s[0], SortedOf(s[1..]))
  }

  /** The reference arrangement is ascending. */
  lemma {:induction false} SortedOfSorted(s: seq<real>)
    ensures Sorted(SortedOf(s))
  {
    if s != [] {
      SortedOfSorted(s[1..]);
      InsertSorted(s[0], SortedOf(s[1..]));
    }
  }

  /** Two ascending sequences with the same values are the same sequence. */
  lemma {:induction false} SortedUnique(a: seq<real>, b: seq<real>)
    requires Sorted(a) && Sorted(b) && multiset(a) == multiset(b)
    ensures a == b
  {
    if a != [] {
      LeastComesFirst(a, b);
      LeastComesFirst(b, a);
      TailsAgree(a, b);
      SortedUnique(a[1..], b[1..]);
      assert a == [a[0]] + a[1..] && b == [b[0]] + b[1..];
    } else {
      assert |b| == |multiset(b)| == 0;
    }
  }

  /** The first value of an ascending arrangement is at most the first value of any other. */
  lemma LeastComesFirst(a: seq<real>, b: seq<real>)
    requires a != [] && Sorted(b) && multiset(a) == multiset(b)
    ensures b != [] && b[0] <= a[0]
  {
    assert a[0] in multiset(a);
    var k := IndexOf(b, a[0]);
  }

  /** Two arrangements of the same values that start alike have tails of the same values. */
  lemma TailsAgree(a: seq<real>, b: seq<real>)
    requires a != [] && b != [] && a[0] == b[0] && multiset(a) == multiset(b)
    ensures multiset(a[1..]) == multiset(b[1..])
  {
    assert a == [a[0]] + a[1..] && b == [b[0]] + b[1..];
    var ta, tb := multiset(a[1..]), multiset(b[1..]);
    assert multiset{a[0]} + ta == multiset{a[0]} + tb;
    forall y
      ensures ta[y] == tb[y]
    {
      assert (multiset{a[0]} + ta)[y] == (multiset{a[0]} + tb)[y];
    }
  }

  /**
   * The index `percentile` reads: `((n - 1) * p / 100).round() as usize`, half away
   * from zero, a negative rank saturating at 0.
   */
  function NearestRank(n: nat, p: real): (idx: nat)
    ensures var x := RankPosition(n, p);
      && (0.0 <= x ==> idx as real - 0.5 <= x < idx as real + 0.5)
      && (x < 0.0 ==> idx == 0)
  {
    RankAt(RankPosition(n, p))
  }

  /** `(sorted.len() - 1) as f64 * p / 100.0`. */
  function RankPosition(n: nat, p: real): real
  {
    (n - 1) as real * p / 100.0
  }

  /** A fractional position rounded to an index, negative positions saturating at 0. */
  function RankAt(x: real): (idx: nat)
    ensures 0.0 <= x ==> idx as real - 0.5 <= x < idx as real + 0.5
    ensures x < 0.0 ==> idx == 0
  {
    var r := RoundHalfAway(x);
    if r < 0 then 0 else r
  }

  /**
   * `percentile`: 0 for an empty series, otherwise the value at the nearest rank of the
   * ascending copy. None stands for the index-out-of-bounds panic of a rank past the
   * end, which only a percentage above 100 reaches.
   */
  method Percentile(data: seq<real>, p: real) returns (r: Option<real>)
    ensures data == [] ==> r == Some(0.0)
    ensures data != [] ==> (r.Some? <==> NearestRank(|data|, p) < |data|)
    ensures data != [] && r.Some? ==> r.value == SortedOf(data)[NearestRank(|data|, p)]
  {
    if data == [] {
      return Some(0.0);
    }
    var sorted := new real[|data|](i requires 0 <= i < |data| => data[i]);
    assert sorted[..] == data;
    SortAscending(sorted);
    var idx := NearestRank(|data|, p);
    if idx >= sorted.Length {
      return None;
    }
    SortedOfSorted(data);
    SortedUnique(sorted[..], SortedOf(data));
    r := Some(sorted[idx]);
  }

  /** A percentage between 0 and 100 picks a rank inside the series. */
  lemma NearestRankInRange(n: nat, p: real)
    requires 0 < n && 0.0 <= p <= 100.0
    ensures NearestRank(n, p) <= n - 1
  {
    PositionWithin(n, p);
    var x := RankPosition(n, p);
    assert RankAt(x) as real < (n - 1) as real + 1.0;
  }

  lemma PositionWithin(n: nat, p: real)
    requires 0 < n && 0.0 <= p <= 100.0
    ensures 0.0 <= RankPosition(n, p) <= (n - 1) as real
  {
    var m := (n - 1) as real;
    assert RankPosition(n, p) == (m * p) / 100.0;
    ProductBounds(m, p);
  }

  lemma ProductBounds(m: real, p: real)
    requires 0.0 <= m && 0.0 <= p <= 100.0
    ensures 0.0 <= m * p <= m * 100.0
  {
    assert m * 100.0 - m * p == m * (100.0 - p);
  }

  /** A larger percentage never picks a lower rank. */
  lemma NearestRankMonotone(n: nat, p: real, q: real)
    requires 0 < n && p <= q
    ensures NearestRank(n, p) <= NearestRank(n, q)
  {
    PositionMonotone(n, p, q);
    RankAtMonotone(RankPosition(n, p), RankPosition(n, q));
  }

  lemma PositionMonotone(n: nat, p: real, q: real)
    requires 0 < n && p <= q
    ensures RankPosition(n, p) <= RankPosition(n, q)
  {
    var m := (n - 1) as real;
    if 0.0 < m {
      ScaleBelow(p, q, m);
    }
  }

  lemma RankAtMonotone(x: real, y: real)
    requires x <= y
    ensures RankAt(x) <= RankAt(y)
  {
    RoundMonotone(x, y);
  }

  /** A larger percentage never yields a smaller value. */
  lemma PercentileMonotone(data: seq<real>, p: real, q: real)
    requires p <= q && NearestRank(|data|, p) < |data| && NearestRank(|data|, q) < |data|
    ensures SortedOf(data)[NearestRank(|data|, p)] <= SortedOf(data)[NearestRank(|data|, q)]
  {
    NearestRankMonotone(|data|, p, q);
    SortedOfSorted(data);
    AscendingAt(SortedOf(data), NearestRank(|data|, p), NearestRank(|data|, q));
  }

  lemma AscendingAt(s: seq<real>, i: nat, j: nat)
    requires Sorted(s) && i <= j < |s|
    ensures s[i] <= s[j]
  {
  }

  /** The percentile is one of the series' own values. */
  lemma PercentileIsAValue(data: seq<real>, p: real)
    requires data != [] && NearestRank(|data|, p) < |data|
    ensures SortedOf(data)[NearestRank(|data|, p)] in data
  {
    var s := SortedOf(data);
    assert s[NearestRank(|data|, p)] in multiset(s);
  }

  /** Above 100 percent the rank can run past the end: `percentile([1, 2], 200)` panics. */
  lemma PercentileCanOverrun()
    ensures NearestRank(2, 200.0) == 2
  {
  }

  /**
   * The unit-test examples: over the values 1, 2, ..., 10 the median is 6 and the 95th
   * percentile is 10.
   */
  lemma PercentileExamples()
    ensures var data := seq(10, k => (k + 1) as real);
      && NearestRank(10, 50.0) == 5 && SortedOf(data)[5] == 6.0
      && NearestRank(10, 95.0) == 9 && SortedOf(data)[9] == 10.0
  {
    var data := seq(10, k => (k + 1) as real);
    assert Sorted(data);
    SortedOfSorted(data);
    SortedUnique(data, SortedOf(data));
  }

  // ---------------------------------------------------------------- box

  /** The box-drawing glyphs: double-line corners, bars and the tees of the separator. */
  const TopLeft := '\U{2554}'
  const TopRight := '\U{2557}'
  const BottomLeft := '\U{255A}'
  const BottomRight := '\U{255D}'
  const Horizontal := '\U{2550}'
  const Vertical := '\U{2551}'
  const TeeLeft := '\U{2560}'
  const TeeRight := '\U{2563}'

  /** `c.repeat(n)`: `n` copies of one character. */
  function Repeat(c: char, n: nat): (r: string)
    ensures |r| == n
    ensures forall i :: 0 <= i < n ==> r[i] == c
  {
    seq(n, _ => c)
  }

  /** `usize::saturating_sub`. */
  function SaturatingSub(a: nat, b: nat): (d: nat)
    ensures a <= b ==> d == 0
    ensures b <= a ==> d + b == a
  {
    if a < b then 0 else a - b
  }

  /** A horizontal border: a corner, `width - 2` double bars and another corner. */
  function Border(left: char, width: nat, right: char): (b: string)
    requires 2 <= width
    ensures |b| == width && b[0] == left && b[width - 1] == right
    ensures forall k :: 0 < k < width - 1 ==> b[k] == Horizontal
  {
    [left] + Repeat(Horizontal, width - 2) + [right]
  }

  /**
   * The title line: `(width - 4 - |title|) / 2` spaces before the title and the rest of
   * the width after it.
   */
  function TitleLine(title: string, width: nat): (t: string)
    requires 4 + |title| <= width
    ensures |t| == width && t[0] == Vertical && t[width - 1] == Vertical
    ensures t[1 + (width - 4 - |title|) / 2..][..|title|] == title
  {
    var padding := (width - 4 - |title|) / 2;
    [Vertical] + Repeat(' ', padding) + title + Repeat(' ', width - 2 - padding - |title|) + [Vertical]
  }

  /** A content line: a bar, a space, the text, padding up to the width and a bar. */
  function ContentLine(line: string, width: nat): (c: string)
    ensures |line| + 3 <= |c| && c[0] == Vertical && c[1] == ' ' && c[|c| - 1] == Vertical
    ensures c[2..2 + |line|] == line
  {
    [Vertical] + [' '] + line + Repeat(' ', SaturatingSub(width, |line| + 3)) + [Vertical]
  }

  function ContentLines(content: seq<string>, width: nat): (lines: seq<string>)
    ensures |lines| == |content|
  {
    seq(|content|, i requires 0 <= i < |content| => ContentLine(content[i], width))
  }

  /**
   * The widths `draw_box` can draw without an unsigned underflow: at least the two
   * corners, and room for the title with two columns on either side.
   */
  predicate BoxFits(title: string, width: nat)
  {
    2 <= width && (title != [] ==> 4 + |title| <= width)
  }

  /** The top of the box: its border, then the title and a separator when there is a title. */
  function BoxHeader(title: string, width: nat): seq<string>
    requires BoxFits(title, width)
  {
    [Border(TopLeft, width, TopRight)]
      + (if title != [] then [TitleLine(title, width), Border(TeeLeft, width, TeeRight)] else [])
  }

  /** The lines of the box, top to bottom. */
  function BoxLines(title: string, content: seq<string>, width: nat): (lines: seq<string>)
    requires BoxFits(title, width)
    ensures var skip := if title != [] then 3 else 1;
      && |lines| == skip + |content| + 1
      && lines[0] == Border(TopLeft, width, TopRight)
      && (title != [] ==> lines[1] == TitleLine(title, width) && lines[2] == Border(TeeLeft, width, TeeRight))
      && (forall i :: 0 <= i < |content| ==> lines[skip + i] == ContentLine(content[i], width))
      && lines[|lines| - 1] == Border(BottomLeft, width, BottomRight)
  {
    BoxHeader(title, width) + ContentLines(content, width) + [Border(BottomLeft, width, BottomRight)]
  }

  /** Each line followed by a line feed. */
  function Terminated(lines: seq<string>): string
  {
    if lines == [] then [] else Terminated(lines[..|lines| - 1]) + lines[|lines| - 1] + ['\n']
  }

  /** The lines separated by line feeds, with none after the last. */
  function Join(lines: seq<string>): string
    requires lines != []
  {
    Terminated(lines[..|lines| - 1]) + lines[|lines| - 1]
  }

  /**
   * `draw_box`: the box around the title and the content lines. None stands for the
   * panic of `width - 2` below 2 and of `width - 4 - title.len()` with a title too wide.
   */
  method DrawBox(title: string, content: seq<string>, width: nat) returns (r: Option<string>)
    ensures r.None? <==> !BoxFits(title, width)
    ensures r.Some? ==> r.value == Join(BoxLines(title, content, width))
  {
    if width < 2 || (title != [] && width < 4 + |title|) {
      return None;
    }
    var output := PushHeader(title, width);
    var header := BoxHeader(title, width);
    output := PushContent(output, header, content, width);
    output := PushBorder(output, BottomLeft, width, BottomRight);
    var lines := BoxLines(title, content, width);
    assert lines[..|lines| - 1] == header + ContentLines(content, width);
    r := Some(output);
  }

  /** The top border, then the title and the separator when there is a title, each ended by a newline. */
  method PushHeader(title: string, width: nat) returns (output: string)
    requires BoxFits(title, width)
    ensures output == Terminated(BoxHeader(title, width))
  {
    var top := Border(TopLeft, width, TopRight);
    output := PushBorder([], TopLeft, width, TopRight);
    output := output + ['\n'];
    TerminatedSnoc([], top);
    assert [] + [top] == [top];
    if title != [] {
      var line := TitleLine(title, width);
      var sep := Border(TeeLeft, width, TeeRight);
      output := PushTitle(output, title, width);
      output := output + ['\n'];
      TerminatedSnoc([top], line);
      assert [top] + [line] == [top, line];
      output := PushBorder(output, TeeLeft, width, TeeRight);
      output := output + ['\n'];
      TerminatedSnoc([top, line], sep);
      assert [top, line] + [sep] == [top, line, sep] == BoxHeader(title, width);
    } else {
      assert BoxHeader(title, width) == [top];
    }
  }

  /** One framed line per content line, each ended by a newline. */
  method PushContent(output: string, header: seq<string>, content: seq<string>, width: nat)
    returns (o: string)
    requires output == Terminated(header)
    ensures o == Terminated(header + ContentLines(content, width))
  {
    o := output;
    assert header + ContentLines(content[..0], width) == header;
    for i := 0 to |content|
      invariant o == Terminated(header + ContentLines(content[..i], width))
    {
      o := PushContentLine(o, content[i], width);
      o := o + ['\n'];
      ContentStep(header, content, i, width);
    }
    assert content[..|content|] == content;
  }

  /** The text of the lines up to content line `i + 1`: the text up to `i`, then that line. */
  lemma ContentStep(header: seq<string>, content: seq<string>, i: nat, width: nat)
    requires i < |content|
    ensures Terminated(header + ContentLines(content[..i + 1], width))
      == Terminated(header + ContentLines(content[..i], width)) + ContentLine(content[i], width) + ['\n']
  {
    var before := header + ContentLines(content[..i], width);
    assert header + ContentLines(content[..i + 1], width) == before + [ContentLine(content[i], width)];
    TerminatedSnoc(before, ContentLine(content[i], width));
  }

  /** The pushes of a border line: a corner, `width - 2` bars, the other corner. */
  method PushBorder(output: string, left: char, width: nat, right: char) returns (o: string)
    requires 2 <= width
    ensures o == output + Border(left, width, right)
  {
    o := output + [left];
    o := o + Repeat(Horizontal, width - 2);
    o := o + [right];
    Pushed3(output, [left], Repeat(Horizontal, width - 2), [right]);
  }

  /** The pushes of the title line: a bar, the left padding, the title, the rest, a bar. */
  method PushTitle(output: string, title: string, width: nat) returns (o: string)
    requires 4 + |title| <= width
    ensures o == output + TitleLine(title, width)
  {
    var padding := (width - 4 - |title|) / 2;
    o := output + [Vertical];
    o := o + Repeat(' ', padding);
    o := o + title;
    o := o + Repeat(' ', width - 2 - padding - |title|);
    o := o + [Vertical];
    Pushed5(output, [Vertical], Repeat(' ', padding), title, Repeat(' ', width - 2 - padding - |title|), [Vertical]);
  }

  /** The pushes of one content line: a bar, a space, the text, the padding, a bar. */
  method PushContentLine(output: string, line: string, width: nat) returns (o: string)
    ensures o == output + ContentLine(line, width)
  {
    o := output + [Vertical];
    o := o + [' '];
    o := o + line;
    o := o + Repeat(' ', SaturatingSub(width, |line| + 3));
    o := o + [Vertical];
    Pushed5(output, [Vertical], [' '], line, Repeat(' ', SaturatingSub(width, |line| + 3)), [Vertical]);
  }

  /** Pushing the pieces of a line one at a time appends the whole line. */
  lemma Pushed3(o: string, a: string, b: string, c: string)
    ensures o + a + b + c == o + (a + b + c)
  {
    calc {
      o + a + b + c;
      { AppendAssociates(o, a, b); }
      o + (a + b) + c;
      { AppendAssociates(o, a + b, c); }
      o + (a + b + c);
    }
  }

  lemma Pushed5(o: string, a: string, b: string, c: string, d: string, e: string)
    ensures o + a + b + c + d + e == o + (a + b + c + d + e)
  {
    Pushed3(o, a, b, c);
    Pushed3(o, a + b + c, d, e);
    assert a + b + c + d + e == (a + b + c) + d + e;
  }

  lemma TerminatedSnoc(lines: seq<string>, line: string)
    ensures Terminated(lines + [line]) == Terminated(lines) + line + ['\n']
  {
    assert (lines + [line])[..|lines|] == lines;
  }

  /** The box has two borders, two title lines when titled, and one line per content line. */
  lemma BoxLineCount(title: string, content: seq<string>, width: nat)
    requires BoxFits(title, width)
    ensures |BoxLines(title, content, width)| == 2 + (if title != [] then 2 else 0) + |content|
  {
  }

  /** Borders and the title line are exactly as wide as the box. */
  lemma FrameLinesHaveWidth(title: string, width: nat)
    requires BoxFits(title, width)
    ensures forall i :: 0 <= i < |BoxHeader(title, width)| ==> |BoxHeader(title, width)[i]| == width
    ensures |Border(BottomLeft, width, BottomRight)| == width
  {
  }

  /** A content line is as wide as the box, or wider when its text does not fit. */
  lemma ContentLineWidth(line: string, width: nat)
    ensures |ContentLine(line, width)| == if width < |line| + 3 then |line| + 3 else width
  {
  }

  /**
   * The title is not centred: two or three more spaces follow it than precede it, so it
   * sits one column (or one and a half) left of centre.
   */
  lemma TitleSitsLeftOfCentre(title: string, width: nat)
    requires title != [] && 4 + |title| <= width
    ensures var padding := (width - 4 - |title|) / 2;
      var after := width - 2 - padding - |title|;
      after - padding == 2 + (width - 4 - |title|) % 2
  {
  }

  function CountOf(s: string, c: char): nat
  {
    if s == [] then 0 else CountOf(s[..|s| - 1], c) + (if s[|s| - 1] == c then 1 else 0)
  }

  lemma {:induction false} CountOfConcat(a: string, b: string, c: char)
    ensures CountOf(a + b, c) == CountOf(a, c) + CountOf(b, c)
    decreases |b|
  {
    if b != [] {
      var b' := b[..|b| - 1];
      assert (a + b)[..|a + b| - 1] == a + b';
      CountOfConcat(a, b', c);
    } else {
      assert a + b == a;
    }
  }

  predicate SingleLine(s: string)
  {
    forall i :: 0 <= i < |s| ==> s[i] != '\n'
  }

  lemma {:induction false} SingleLineHasNoFeed(s: string)
    requires SingleLine(s)
    ensures CountOf(s, '\n') == 0
  {
    if s != [] {
      SingleLineHasNoFeed(s[..|s| - 1]);
    }
  }

  /** Joining lines that hold no line feed puts exactly one feed between neighbours. */
  lemma {:induction false} TerminatedFeeds(lines: seq<string>)
    requires forall i :: 0 <= i < |lines| ==> SingleLine(lines[i])
    ensures CountOf(Terminated(lines), '\n') == |lines|
  {
    if lines != [] {
      var init, last := lines[..|lines| - 1], lines[|lines| - 1];
      TerminatedFeeds(init);
      SingleLineHasNoFeed(last);
      CountOfConcat(Terminated(init), last, '\n');
      CountOfConcat(Terminated(init) + last, ['\n'], '\n');
      assert CountOf(['\n'], '\n') == CountOf([], '\n') + 1;
    }
  }

  /**
   * With no line feed inside the title or the content, the drawn box holds one feed
   * fewer than it has lines: none trails the bottom border.
   */
  lemma BoxFeeds(title: string, content: seq<string>, width: nat)
    requires BoxFits(title, width) && SingleLine(title)
    requires forall i :: 0 <= i < |content| ==> SingleLine(content[i])
    ensures CountOf(Join(BoxLines(title, content, width)), '\n')
      == 1 + (if title != [] then 2 else 0) + |content|
  {
    var lines := BoxLines(title, content, width);
    var init := lines[..|lines| - 1];
    BoxLinesAreSingle(title, content, width);
    assert forall i :: 0 <= i < |init| ==> SingleLine(init[i]);
    TerminatedFeeds(init);
    SingleLineHasNoFeed(lines[|lines| - 1]);
    CountOfConcat(Terminated(init), lines[|lines| - 1], '\n');
  }

  /** No line of the box holds a line feed when neither the title nor the content does. */
  lemma BoxLinesAreSingle(title: string, content: seq<string>, width: nat)
    requires BoxFits(title, width) && SingleLine(title)
    requires forall i :: 0 <= i < |content| ==> SingleLine(content[i])
    ensures forall i :: 0 <= i < |BoxLines(title, content, width)| ==> SingleLine(BoxLines(title, content, width)[i])
  {
    var header := BoxHeader(title, width);
    var body := ContentLines(content, width);
    var bottom := Border(BottomLeft, width, BottomRight);
    BorderIsSingle(TopLeft, width, TopRight);
    BorderIsSingle(BottomLeft, width, BottomRight);
    if title != [] {
      BorderIsSingle(TeeLeft, width, TeeRight);
      TitleIsSingle(title, width);
    }
    assert forall i :: 0 <= i < |header| ==> SingleLine(header[i]);
    forall i | 0 <= i < |body|
      ensures SingleLine(body[i])
    {
      ContentIsSingle(content[i], width);
    }
    var lines := header + body + [bottom];
    forall i | 0 <= i < |lines|
      ensures SingleLine(lines[i])
    {
      if i < |header| {
        assert lines[i] == header[i];
      } else if i < |header| + |body| {
        assert lines[i] == body[i - |header|];
      }
    }
  }

  lemma BothSingle(a: string, b: string)
    requires SingleLine(a) && SingleLine(b)
    ensures SingleLine(a + b)
  {
  }

  lemma BorderIsSingle(left: char, width: nat, right: char)
    requires 2 <= width && left != '\n' && right != '\n'
    ensures SingleLine(Border(left, width, right))
  {
    BothSingle([left], Repeat(Horizontal, width - 2));
    BothSingle([left] + Repeat(Horizontal, width - 2), [right]);
  }

  lemma TitleIsSingle(title: string, width: nat)
    requires 4 + |title| <= width && SingleLine(title)
    ensures SingleLine(TitleLine(title, width))
  {
    var padding := (width - 4 - |title|) / 2;
    var before := Repeat(' ', padding);
    var after := Repeat(' ', width - 2 - padding - |title|);
    BothSingle([Vertical], before);
    BothSingle([Vertical] + before, title);
    BothSingle([Vertical] + before + title, after);
    BothSingle([Vertical] + before + title + after, [Vertical]);
  }

  lemma ContentIsSingle(line: string, width: nat)
    requires SingleLine(line)
    ensures SingleLine(ContentLine(line, width))
  {
    var pad := Repeat(' ', SaturatingSub(width, |line| + 3));
    BothSingle([Vertical], [' ']);
    BothSingle([Vertical] + [' '], line);
    BothSingle([Vertical] + [' '] + line, pad);
    BothSingle([Vertical] + [' '] + line + pad, [Vertical]);
  }
}
