/**
 The geometry of the stacked bar chart (plugins/autonomous-dev-portal/server/charts/stacked_bar_chart.ts):
 scale set-up and the cumulative segment loop, in unrounded coordinates. Pixels grow downwards.
 */
module StackedBars {
  import opened Scales

  datatype Segment = Segment(name: string, value: real)

  datatype Series = Series(date: string, segments: seq<Segment>)

  /** The plot inside the margins. */
  datatype Plot = Plot(left: real, right: real, top: real, bottom: real)

  datatype Rect = Rect(x: real, top: real, width: real, height: real)

  const PADDING := 0.2

  // ---------------------------------------------------------------- the vertical scale

  function Total(segments: seq<Segment>): real {
    if segments == [] then 0.0 else Total(segments[..|segments| - 1]) + segments[|segments| - 1].value
  }

  /** `Math.max(...totals, 0)`. */
  function MaxTotal(series: seq<Series>): (m: real)
    ensures m >= 0.0 && forall i :: 0 <= i < |series| ==> Total(series[i].segments) <= m
  {
    if series == [] then 0.0
    else Max(MaxTotal(series[..|series| - 1]), Total(series[|series| - 1].segments))
  }

  function YMax(series: seq<Series>): real {
    var m := MaxTotal(series);
    if m > 0.0 then m * 1.1 else 1.0
  }

  /** The value at the top of the plot. */
  function YTop(series: seq<Series>): real {
    var yMax := YMax(series);
    var ticks := Ticks(0.0, yMax, 6.0);
    if |ticks| > 0 then Max(yMax, ticks[|ticks| - 1]) else yMax
  }

  function YScale(series: seq<Series>, plot: Plot): real -> real {
    LinearScaleY(0.0, YTop(series), plot.bottom, plot.top)
  }

  // ---------------------------------------------------------------- the bars

  /** The rectangle of a segment that starts at the value `from`. */
  function RectOf(y: real -> real, x: real, width: real, from: real, value: real): Rect {
    var top, bottom := y(from + value), y(from);
    Rect(x, top, width, Max(0.0, bottom - top))
  }

  function Stack(y: real -> real, x: real, width: real, segments: seq<Segment>): (rects: seq<Rect>)
    ensures |rects| == |segments|
  {
    if segments == [] then []
    else
      var init, seg := segments[..|segments| - 1], segments[|segments| - 1];
      Stack(y, x, width, init) + [RectOf(y, x, width, Total(init), seg.value)]
  }

  /** The inner loop: one rectangle per segment, on top of what has accumulated. */
  method RenderBar(y: real -> real, x0: real, bandWidth: real, segments: seq<Segment>) returns (rects: seq<Rect>)
    ensures rects == Stack(y, x0, bandWidth, segments)
  {
    var cumulative := 0.0;
    rects := [];
    for i := 0 to |segments|
      invariant cumulative == Total(segments[..i]) && rects == Stack(y, x0, bandWidth, segments[..i])
    {
      assert segments[..i + 1][..i] == segments[..i];
      var seg := segments[i];
      var segTop := cumulative + seg.value;
      var yTopPx := y(segTop);
      var yBotPx := y(cumulative);
      var segHeight := Max(0.0, yBotPx - yTopPx);
      cumulative := segTop;
      rects := rects + [Rect(x0, yTopPx, bandWidth, segHeight)];
    }
    assert segments[..|segments|] == segments;
  }

  method Totals(series: seq<Series>) returns (max: real)
    ensures max == MaxTotal(series)
  {
    max := 0.0;
    for i := 0 to |series|
      invariant max == MaxTotal(series[..i])
    {
      assert series[..i + 1][..i] == series[..i];
      var total := 0.0;
      var segments := series[i].segments;
      for j := 0 to |segments|
        invariant total == Total(segments[..j])
      {
        assert segments[..j + 1][..j] == segments[..j];
        total := total + segments[j].value;
      }
      assert segments[..|segments|] == segments;
      max := Max(max, total);
    }
    assert series[..|series|] == series;
  }

  function Dates(series: seq<Series>): (dates: seq<string>)
    ensures |dates| == |series| && forall i :: 0 <= i < |dates| ==> dates[i] == series[i].date
  {
    seq(|series|, i requires 0 <= i < |series| => series[i].date)
  }

  /** Where the bar of a date goes, and how wide bars are. */
  function BarLeft(series: seq<Series>, plot: Plot, date: string): real
    requires date in Dates(series)
  {
    if plot.right - plot.left <= 0.0 then plot.left
    else Left(plot.left, BandStep(|series|, plot.left, plot.right, PADDING), PADDING, LastIndex(Dates(series), date))
  }

  function BarWidth(series: seq<Series>, plot: Plot): real
    requires series != []
  {
    if plot.right - plot.left <= 0.0 then 0.0
    else BandStep(|series|, plot.left, plot.right, PADDING) * (1.0 - PADDING)
  }

  /** The bar of the `i`th series. */
  function Bar(series: seq<Series>, plot: Plot, i: nat): seq<Rect>
    requires i < |series|
  {
    assert Dates(series)[i] == series[i].date;
    Stack(YScale(series, plot), BarLeft(series, plot, series[i].date), BarWidth(series, plot), series[i].segments)
  }

  /** The band scale puts every bar where it belongs. */
  ghost predicate Fits(band: BandScale, series: seq<Series>, plot: Plot)
    requires series != []
  {
    band.bandWidth == BarWidth(series, plot)
    && forall date :: date in Dates(series) ==> BandAt(band, date) == BarLeft(series, plot, date)
  }

  method SetUpY(series: seq<Series>, plot: Plot) returns (y: real -> real)
    ensures y == YScale(series, plot)
  {
    var maxTotal := Totals(series);
    var yMax := if maxTotal > 0.0 then maxTotal * 1.1 else 1.0;
    assert yMax == YMax(series);
    var ticks := NiceTicks(0.0, yMax, 6.0);
    var yTop := if |ticks| > 0 then Max(yMax, ticks[|ticks| - 1]) else yMax;
    assert yTop == YTop(series);
    y := LinearScaleY(0.0, yTop, plot.bottom, plot.top);
  }

  method SetUpX(series: seq<Series>, plot: Plot) returns (band: BandScale)
    requires series != []
    ensures Fits(band, series, plot)
  {
    band := BandScaleX(Dates(series), plot.left, plot.right, PADDING);
  }

  /** The outer loop: one bar per series. */
  method RenderStackedBars(series: seq<Series>, plot: Plot) returns (bars: seq<seq<Rect>>)
    ensures |bars| == |series|
    ensures forall i :: 0 <= i < |series| ==> bars[i] == Bar(series, plot, i)
  {
    if |series| == 0 { return []; }
    var y := SetUpY(series, plot);
    var band := SetUpX(series, plot);
    bars := [];
    for i := 0 to |series|
      invariant |bars| == i && forall k :: 0 <= k < i ==> bars[k] == Bar(series, plot, k)
    {
      assert Dates(series)[i] == series[i].date;
      var x0 := BandAt(band, series[i].date);
      var rects := RenderBar(y, x0, band.bandWidth, series[i].segments);
      bars := bars + [rects];
    }
  }

  // ---------------------------------------------------------------- geometry

  predicate NonNegative(segments: seq<Segment>) { forall i :: 0 <= i < |segments| ==> segments[i].value >= 0.0 }

  predicate Sensible(series: seq<Series>, plot: Plot) {
    && plot.top <= plot.bottom && plot.left < plot.right
    && forall i :: 0 <= i < |series| ==> NonNegative(series[i].segments)
  }

  lemma {:induction false} TotalsAscend(segments: seq<Segment>, i: nat)
    requires NonNegative(segments) && i <= |segments|
    ensures 0.0 <= Total(segments[..i]) <= Total(segments)
  {
    if i == |segments| {
      assert segments[..i] == segments;
      if segments != [] {
        TotalsAscend(segments[..i - 1], i - 1);
        assert segments[..i - 1][..i - 1] == segments[..i - 1];
      }
    } else {
      TotalsAscend(segments[..|segments| - 1], i);
      assert segments[..|segments| - 1][..i] == segments[..i];
    }
  }

  /** From zero to `t` the axis falls from the bottom of the plot by `k` pixels a unit, inside the plot. */
  ghost predicate Axis(y: real -> real, t: real, k: real, plot: Plot) {
    && t >= 0.0 && k >= 0.0 && y(0.0) == plot.bottom
    && (forall u, v :: 0.0 <= u <= v <= t ==> Falls(y(u), y(v), v - u, k, plot))
  }

  predicate Falls(lower: real, upper: real, d: real, k: real, plot: Plot) {
    plot.top <= upper <= lower <= plot.bottom && lower - upper == d * k
  }

  /** Pixels per unit of value. */
  function Scale(series: seq<Series>, plot: Plot): real {
    var t := YTop(series);
    if t > 0.0 then (plot.bottom - plot.top) / t else 0.0
  }

  /** The chart's axis reaches above every bar's total. */
  lemma ChartAxis(series: seq<Series>, plot: Plot, i: nat)
    requires plot.top <= plot.bottom && i < |series|
    ensures Axis(YScale(series, plot), YTop(series), Scale(series, plot), plot)
    ensures Total(series[i].segments) <= YTop(series)
  {
    AxisFrom(YTop(series), plot);
  }

  lemma AxisFrom(t: real, plot: Plot)
    requires t > 0.0 && plot.top <= plot.bottom
    ensures Axis(LinearScaleY(0.0, t, plot.bottom, plot.top), t, (plot.bottom - plot.top) / t, plot)
  {
    var k, y := (plot.bottom - plot.top) / t, LinearScaleY(0.0, t, plot.bottom, plot.top);
    PerUnit(plot.bottom - plot.top, t);
    AxisOf(y, t, k, plot);
  }

  lemma PerUnit(h: real, t: real)
    requires t > 0.0 && h >= 0.0
    ensures h / t >= 0.0 && t * (h / t) == h
  {
    Quotient(h, t);
    Cancel(0.0, h / t, t);
  }

  lemma AxisOf(y: real -> real, t: real, k: real, plot: Plot)
    requires t > 0.0 && k >= 0.0 && t * k == plot.bottom - plot.top && k == (plot.bottom - plot.top) / t
    requires y == LinearScaleY(0.0, t, plot.bottom, plot.top)
    ensures Axis(y, t, k, plot)
  {
    Unclamped(t, plot, k, 0.0);
    forall u, v | 0.0 <= u <= v <= t ensures Falls(y(u), y(v), v - u, k, plot) {
      Unclamped(t, plot, k, u);
      Unclamped(t, plot, k, v);
      var a, b, c, d := Products(t, k, u, v);
      Drop(a, b, c, d, y(u), y(v), plot);
    }
  }

  lemma Drop(a: real, b: real, c: real, d: real, lower: real, upper: real, plot: Plot)
    requires 0.0 <= a <= b <= c && c == plot.bottom - plot.top && d == b - a
    requires lower == plot.bottom - a && upper == plot.bottom - b
    ensures plot.top <= upper <= lower <= plot.bottom && lower - upper == d
  {
  }

  /** Between the ends of its domain the clamp never bites. */
  lemma Unclamped(t: real, plot: Plot, k: real, v: real)
    requires t > 0.0 && k == (plot.bottom - plot.top) / t && 0.0 <= v <= t
    ensures LinearScaleY(0.0, t, plot.bottom, plot.top)(v) == plot.bottom - v * k
  {
    Negated(plot.bottom - plot.top, t);
    assert plot.top - plot.bottom == -(plot.bottom - plot.top);
    NegatedTimes(v, k);
  }

  lemma Negated(h: real, t: real)
    requires t > 0.0
    ensures -h / t == -(h / t)
  {
  }

  lemma NegatedTimes(v: real, k: real)
    ensures v * -k == -(v * k)
  {
  }

  lemma Products(t: real, k: real, u: real, v: real) returns (a: real, b: real, c: real, d: real)
    requires 0.0 <= u <= v <= t && k >= 0.0
    ensures a == u * k && b == v * k && c == t * k && d == (v - u) * k
    ensures 0.0 <= a <= b <= c && d == b - a
  {
    a, b, c, d := u * k, v * k, t * k, (v - u) * k;
    assert u * k <= v * k by { assert (v - u) * k >= 0.0; }
    assert v * k <= t * k by { assert (t - v) * k >= 0.0; }
  }

  lemma {:induction false} RectAt(y: real -> real, x: real, width: real, segments: seq<Segment>, j: nat)
    requires j < |segments|
    ensures Stack(y, x, width, segments)[j] == RectOf(y, x, width, Total(segments[..j]), segments[j].value)
  {
    if j < |segments| - 1 {
      RectAt(y, x, width, segments[..|segments| - 1], j);
      assert segments[..|segments| - 1][..j] == segments[..j];
    }
  }

  /** A rectangle spans its segment's share of the axis. */
  lemma Spans(y: real -> real, t: real, k: real, plot: Plot, x: real, width: real, segments: seq<Segment>, j: nat)
    requires Axis(y, t, k, plot) && NonNegative(segments) && Total(segments) <= t && j < |segments|
    ensures var r, lower, upper := Stack(y, x, width, segments)[j], y(Total(segments[..j])), y(Total(segments[..j + 1]));
            && r.top == upper && r.top + r.height == lower && r.height == segments[j].value * k
            && plot.top <= upper <= lower <= plot.bottom
  {
    assert segments[..j + 1][..j] == segments[..j];
    TotalsAscend(segments, j);
    TotalsAscend(segments, j + 1);
    RectAt(y, x, width, segments, j);
    assert Falls(y(Total(segments[..j])), y(Total(segments[..j + 1])), segments[j].value, k, plot);
  }

  function HeightSum(rects: seq<Rect>): real {
    if rects == [] then 0.0 else HeightSum(rects[..|rects| - 1]) + rects[|rects| - 1].height
  }

  /** Heights telescope. */
  lemma {:induction false} Heights(y: real -> real, t: real, k: real, plot: Plot, x: real, width: real,
                                   segments: seq<Segment>, n: nat)
    requires Axis(y, t, k, plot) && NonNegative(segments) && Total(segments) <= t && n <= |segments|
    ensures HeightSum(Stack(y, x, width, segments)[..n]) == plot.bottom - y(Total(segments[..n]))
  {
    if n > 0 {
      var bar := Stack(y, x, width, segments);
      Heights(y, t, k, plot, x, width, segments, n - 1);
      Spans(y, t, k, plot, x, width, segments, n - 1);
      assert bar[..n][..n - 1] == bar[..n - 1] && segments[..n][..n - 1] == segments[..n - 1];
    }
  }

  /** What `BarGeometry` says, on any axis that reaches the total. */
  predicate WellStacked(bar: seq<Rect>, segments: seq<Segment>, k: real, plot: Plot)
    requires |bar| == |segments|
  {
    && (forall j :: 0 <= j < |bar| ==> Resting(bar, j, plot))
    && (forall j :: 0 <= j < |bar| ==> bar[j].height == segments[j].value * k)
    && HeightSum(bar) == Total(segments) * k
  }

  /** The rectangle stands on the baseline or on the one before, inside the plot. */
  predicate Resting(bar: seq<Rect>, j: nat, plot: Plot)
    requires j < |bar|
  {
    && bar[j].top + bar[j].height == (if j == 0 then plot.bottom else bar[j - 1].top)
    && plot.top <= bar[j].top <= bar[j].top + bar[j].height <= plot.bottom
  }

  lemma StackGeometry(y: real -> real, t: real, k: real, plot: Plot, x: real, width: real, segments: seq<Segment>)
    requires Axis(y, t, k, plot) && NonNegative(segments) && Total(segments) <= t
    ensures WellStacked(Stack(y, x, width, segments), segments, k, plot)
  {
    var bar := Stack(y, x, width, segments);
    forall j | 0 <= j < |bar| ensures Resting(bar, j, plot) && bar[j].height == segments[j].value * k {
      Rests(y, t, k, plot, x, width, segments, j);
    }
    WholeHeight(y, t, k, plot, x, width, segments);
  }

  lemma Rests(y: real -> real, t: real, k: real, plot: Plot, x: real, width: real, segments: seq<Segment>, j: nat)
    requires Axis(y, t, k, plot) && NonNegative(segments) && Total(segments) <= t && j < |segments|
    ensures var bar := Stack(y, x, width, segments); Resting(bar, j, plot) && bar[j].height == segments[j].value * k
  {
    Spans(y, t, k, plot, x, width, segments, j);
    if j > 0 { Spans(y, t, k, plot, x, width, segments, j - 1); }
  }

  lemma AxisDrop(y: real -> real, t: real, k: real, plot: Plot, v: real) returns (d: real)
    requires Axis(y, t, k, plot) && 0.0 <= v <= t
    ensures d == v * k && plot.bottom - y(v) == d
  {
    d := v * k;
    assert Falls(y(0.0), y(v), v - 0.0, k, plot);
  }

  lemma AllHeights(y: real -> real, t: real, k: real, plot: Plot, x: real, width: real, segments: seq<Segment>)
    requires Axis(y, t, k, plot) && NonNegative(segments) && Total(segments) <= t
    ensures HeightSum(Stack(y, x, width, segments)) == plot.bottom - y(Total(segments))
  {
    var bar := Stack(y, x, width, segments);
    Heights(y, t, k, plot, x, width, segments, |segments|);
    assert bar[..|segments|] == bar && segments[..|segments|] == segments;
  }

  lemma WholeHeight(y: real -> real, t: real, k: real, plot: Plot, x: real, width: real, segments: seq<Segment>)
    requires Axis(y, t, k, plot) && NonNegative(segments) && Total(segments) <= t
    ensures HeightSum(Stack(y, x, width, segments)) == Total(segments) * k
  {
    AllHeights(y, t, k, plot, x, width, segments);
    TotalDrop(y, t, k, plot, segments);
  }

  lemma TotalDrop(y: real -> real, t: real, k: real, plot: Plot, segments: seq<Segment>)
    requires Axis(y, t, k, plot) && NonNegative(segments) && Total(segments) <= t
    ensures plot.bottom - y(Total(segments)) == Total(segments) * k
  {
    TotalsAscend(segments, 0);
    var d := AxisDrop(y, t, k, plot, Total(segments));
  }

  /**
   The `i`th bar: its segments stand on the baseline and on one another, are as high as their
   values, add up to the bar's total and stay inside the plot.
   */
  lemma BarGeometry(series: seq<Series>, plot: Plot, i: nat)
    requires Sensible(series, plot) && i < |series|
    ensures WellStacked(Bar(series, plot, i), series[i].segments, Scale(series, plot), plot)
  {
    assert Dates(series)[i] == series[i].date;
    ChartAxis(series, plot, i);
    StackGeometry(YScale(series, plot), YTop(series), Scale(series, plot), plot,
                  BarLeft(series, plot, series[i].date), BarWidth(series, plot), series[i].segments);
  }

  /** Bars lie inside the plot; bars of different dates do not overlap, and bars of the same date coincide. */
  lemma BarsApart(series: seq<Series>, plot: Plot, i: nat, j: nat)
    requires Sensible(series, plot) && i < |series| && j < |series|
    ensures var d, e := series[i].date, series[j].date;
            && d in Dates(series) && e in Dates(series)
            && var w, x, z := BarWidth(series, plot), BarLeft(series, plot, d), BarLeft(series, plot, e);
               && plot.left <= x <= x + w <= plot.right
               && (if d == e then x == z else x + w <= z || z + w <= x)
  {
    var d, e := Dates(series)[i], Dates(series)[j];
    var p, q := LastIndex(Dates(series), d), LastIndex(Dates(series), e);
    Scales.BandsApart(|series|, plot.left, plot.right, PADDING, p, q);
    Scales.BandsApart(|series|, plot.left, plot.right, PADDING, q, p);
  }

  /** Gridlines and tick labels stay inside the plot as well. */
  lemma TicksInside(series: seq<Series>, plot: Plot, v: real)
    requires plot.top <= plot.bottom
    ensures plot.top <= YScale(series, plot)(v) <= plot.bottom
  {
    ScaleStays(0.0, YTop(series), plot.bottom, plot.top, v);
  }

  /** Whatever the values, no rectangle has a negative height, and one of a negative value none at all. */
  lemma NeverNegative(series: seq<Series>, plot: Plot, i: nat, j: nat)
    requires plot.top <= plot.bottom && i < |series| && j < |series[i].segments|
    ensures Bar(series, plot, i)[j].height >= 0.0
    ensures series[i].segments[j].value <= 0.0 ==> Bar(series, plot, i)[j].height == 0.0
  {
    assert Dates(series)[i] == series[i].date;
    var segments, y, t := series[i].segments, YScale(series, plot), YTop(series);
    RectAt(y, BarLeft(series, plot, series[i].date), BarWidth(series, plot), segments, j);
    if segments[j].value <= 0.0 {
      var from := Total(segments[..j]);
      NeverRises(t, plot, from + segments[j].value, from);
    }
  }

  /** The axis never rises. */
  lemma NeverRises(t: real, plot: Plot, u: real, v: real)
    requires t > 0.0 && plot.top <= plot.bottom && u <= v
    ensures var y := LinearScaleY(0.0, t, plot.bottom, plot.top); y(u) >= y(v)
  {
    var c, d := Clamp(u, 0.0, t), Clamp(v, 0.0, t);
    PerUnit(plot.bottom - plot.top, t);
    Unclamped(t, plot, (plot.bottom - plot.top) / t, c);
    Unclamped(t, plot, (plot.bottom - plot.top) / t, d);
    var e, f, g, h := Products(t, (plot.bottom - plot.top) / t, c, d);
  }

  /** The largest of the bars' totals, or zero. */
  ghost predicate Largest(series: seq<Series>, m: real) {
    && m >= 0.0 && (forall i :: 0 <= i < |series| ==> Total(series[i].segments) <= m)
    && (m > 0.0 ==> exists i :: 0 <= i < |series| && Total(series[i].segments) == m)
  }

  lemma {:induction false} MaxIsLargest(series: seq<Series>)
    ensures Largest(series, MaxTotal(series))
  {
    if series != [] {
      var init, last := series[..|series| - 1], series[|series| - 1];
      MaxIsLargest(init);
      if Total(last.segments) > MaxTotal(init) {
        assert series[|series| - 1] == last;
      } else if MaxTotal(init) > 0.0 {
        var i :| 0 <= i < |init| && Total(init[i].segments) == MaxTotal(init);
        assert series[i] == init[i];
      }
    }
  }

  /**
   The top of the plot is the first tick that is not below 110 per cent of the largest total, or
   below one where there is nothing to show; a bar fills its total's share of the height.
   */
  lemma TopOfPlot(series: seq<Series>, plot: Plot, m: real) returns (aim: real, ticks: seq<real>, top: real)
    requires Largest(series, m) && plot.top <= plot.bottom
    ensures aim == (if m > 0.0 then m * 1.1 else 1.0) && ticks == Ticks(0.0, aim, 6.0)
    ensures |ticks| >= 2 && top == ticks[|ticks| - 1] && aim <= top && ticks[|ticks| - 2] < aim
    ensures YScale(series, plot)(0.0) == plot.bottom && YScale(series, plot)(top) == plot.top
    ensures Scale(series, plot) * top == plot.bottom - plot.top
  {
    LargestIs(series, m);
    aim := YMax(series);
    ticks := Ticks(0.0, aim, 6.0);
    top := LastTick(aim);
    TopIs(series, plot, aim, top);
  }

  lemma TopIs(series: seq<Series>, plot: Plot, aim: real, top: real)
    requires 0.0 < aim <= top && aim == YMax(series)
    requires var ticks := Ticks(0.0, aim, 6.0); |ticks| > 0 && ticks[|ticks| - 1] == top
    ensures YScale(series, plot)(0.0) == plot.bottom && YScale(series, plot)(top) == plot.top
    ensures Scale(series, plot) * top == plot.bottom - plot.top
  {
    assert YTop(series) == top;
    ScaleEnds(top, plot);
  }

  lemma LargestIs(series: seq<Series>, m: real)
    requires Largest(series, m)
    ensures m == MaxTotal(series)
  {
    MaxIsLargest(series);
  }

  lemma LastTick(aim: real) returns (last: real)
    requires aim > 0.0
    ensures var ticks := Ticks(0.0, aim, 6.0);
            && |ticks| >= 2 && last == ticks[|ticks| - 1] && aim <= last && ticks[|ticks| - 2] < aim
  {
    var ticks := Ticks(0.0, aim, 6.0);
    TicksCover(0.0, aim, 6.0, 0);
    TicksCover(0.0, aim, 6.0, |ticks| - 2);
    last := ticks[|ticks| - 1];
  }

  lemma ScaleEnds(t: real, plot: Plot)
    requires t > 0.0
    ensures LinearScaleY(0.0, t, plot.bottom, plot.top)(0.0) == plot.bottom
    ensures LinearScaleY(0.0, t, plot.bottom, plot.top)(t) == plot.top
    ensures (plot.bottom - plot.top) / t * t == plot.bottom - plot.top
  {
    ScaleStays(0.0, t, plot.bottom, plot.top, 0.0);
    ScaleStays(0.0, t, plot.bottom, plot.top, t);
    Quotient(plot.bottom - plot.top, t);
  }
}
