/**
 Chart scales (plugins/autonomous-dev-portal/server/charts/scales.ts) over exact reals: tick
 ladders, the clamped linear scale and the band scale.
 */
module Scales {
  import opened Numerals
  import opened Rounding

  // ---------------------------------------------------------------- products

  lemma Cancel(a: real, b: real, m: real)
    requires m > 0.0
    ensures a * m < b * m <==> a < b
    ensures a * m <= b * m <==> a <= b
  {
    var d := b - a;
    assert b * m == a * m + d * m;
    if d > 0.0 { assert d * m > 0.0; }
    if d < 0.0 { assert -d * m > 0.0; }
  }

  lemma Quotient(a: real, b: real)
    requires b > 0.0
    ensures a / b * b == a && (a > 0.0 ==> a / b > 0.0)
  {
    Cancel(0.0, a / b, b);
  }

  // ---------------------------------------------------------------- powers of ten

  /** `Math.pow(10, k)`. */
  function Pow10(k: int): (p: real)
    ensures p > 0.0
  {
    if k >= 0 then Power10(k) as real else 1.0 / Power10(-k) as real
  }

  lemma Pow10Step(k: int)
    ensures Pow10(k + 1) == 10.0 * Pow10(k)
  {
    if k < 0 {
      var p := Power10(-k - 1) as real;
      assert Power10(-k) as real == 10.0 * p;
      assert 1.0 / p == 10.0 * (1.0 / (10.0 * p));
    }
  }

  lemma {:induction false} Pow10Ascends(j: int, k: int)
    requires j < k
    ensures 10.0 * Pow10(j) <= Pow10(k)
    decreases k - j
  {
    Pow10Step(k - 1);
    if j < k - 1 { Pow10Ascends(j, k - 1); }
  }

  /** `Math.floor(Math.log10(x))`, by moving the decimal point. */
  function FloorLog10(x: real): int
    requires x > 0.0
    decreases if x < 1.0 then 1 else 0, if x < 1.0 then (1.0 / x).Floor else x.Floor
  {
    if x >= 10.0 then FloorLog10(x / 10.0) + 1
    else if x >= 1.0 then 0
    else
      Tenfold(x);
      FloorLog10(x * 10.0) - 1
  }

  lemma Tenfold(x: real)
    requires 0.0 < x < 1.0
    ensures x * 10.0 < 1.0 ==> (1.0 / (x * 10.0)).Floor < (1.0 / x).Floor
  {
    var y := 1.0 / x;
    assert y * x == 1.0;
    assert y > 1.0;
    if x * 10.0 < 1.0 {
      Cancel(10.0, y, x);
      assert 1.0 / (x * 10.0) == y / 10.0;
    }
  }

  /** A number lies from its power of ten to below the next. */
  lemma {:induction false} LogLies(x: real)
    requires x > 0.0
    ensures var p := Pow10(FloorLog10(x)); p <= x < 10.0 * p
    decreases if x < 1.0 then 1 else 0, if x < 1.0 then (1.0 / x).Floor else x.Floor
  {
    if x >= 10.0 {
      LogLies(x / 10.0);
      Pow10Step(FloorLog10(x / 10.0));
    } else if x < 1.0 {
      Tenfold(x);
      LogLies(x * 10.0);
      Pow10Step(FloorLog10(x * 10.0) - 1);
    }
  }

  lemma LogUnique(x: real, k: int)
    requires x > 0.0 && Pow10(k) <= x < 10.0 * Pow10(k)
    ensures FloorLog10(x) == k
  {
    var j := FloorLog10(x);
    LogLies(x);
    if j < k { Pow10Ascends(j, k); }
    if k < j { Pow10Ascends(k, j); }
  }

  // ---------------------------------------------------------------- ticks

  /** The 1/2/5 ladder. */
  function Rung(norm: real): (s: int)
    ensures s == 1 || s == 2 || s == 5 || s == 10
  {
    if norm < 1.5 then 1 else if norm < 3.5 then 2 else if norm < 7.5 then 5 else 10
  }

  function Step(min: real, max: real, count: real): (step: real)
    requires min < max && count > 0.0
    ensures step > 0.0
  {
    var rough := (max - min) / count;
    Quotient(max - min, count);
    var mag := Pow10(FloorLog10(rough));
    Rung(rough / mag) as real * mag
  }

  /**
   The step: one, two, five or ten times the power of ten just below the range's share of one
   tick, whichever that share is nearest to on the thresholds 1.5, 3.5 and 7.5.
   */
  lemma StepIs(min: real, max: real, count: real) returns (k: int)
    requires min < max && count > 0.0
    ensures StepAt((max - min) / count, Step(min, max, count), k)
  {
    var rough := (max - min) / count;
    Quotient(max - min, count);
    k := FloorLog10(rough);
    LogLies(rough);
    RungAt(rough, Pow10(k), rough / Pow10(k));
  }

  predicate StepAt(rough: real, step: real, k: int) {
    && Pow10(k) <= rough < 10.0 * Pow10(k)
    && (rough < 1.5 * Pow10(k) ==> step == Pow10(k))
    && (1.5 * Pow10(k) <= rough < 3.5 * Pow10(k) ==> step == 2.0 * Pow10(k))
    && (3.5 * Pow10(k) <= rough < 7.5 * Pow10(k) ==> step == 5.0 * Pow10(k))
    && (7.5 * Pow10(k) <= rough ==> step == 10.0 * Pow10(k))
  }

  lemma RungAt(rough: real, mag: real, norm: real)
    requires mag > 0.0 && rough > 0.0 && norm == rough / mag
    ensures Rung(norm) == if rough < 1.5 * mag then 1 else if rough < 3.5 * mag then 2 else if rough < 7.5 * mag then 5 else 10
  {
    Quotient(rough, mag);
    assert norm * mag == rough;
    Compared(norm, 1.5, mag, rough);
    Compared(norm, 3.5, mag, rough);
    Compared(norm, 7.5, mag, rough);
  }

  lemma Compared(norm: real, c: real, mag: real, rough: real)
    requires mag > 0.0 && norm * mag == rough
    ensures norm < c <==> rough < c * mag
  {
    Cancel(norm, c, mag);
  }

  function Ceil(x: real): int { -((-x).Floor) }

  /** `k * step`, added up. */
  function Multiple(step: real, k: int): real
    decreases if k < 0 then -k else k
  {
    if k == 0 then 0.0 else if k > 0 then Multiple(step, k - 1) + step else Multiple(step, k + 1) - step
  }

  lemma {:induction false} MultipleIs(step: real, k: int)
    ensures Multiple(step, k) == k as real * step
    decreases if k < 0 then -k else k
  {
    if k > 0 {
      MultipleIs(step, k - 1);
      assert (k - 1) as real * step + step == k as real * step;
    } else if k < 0 {
      MultipleIs(step, k + 1);
      assert (k + 1) as real * step - step == k as real * step;
    }
  }

  lemma MultiplesAscend(step: real, j: int, k: int)
    requires step > 0.0
    ensures Multiple(step, j) <= Multiple(step, k) <==> j <= k
  {
    if j < k { Climbing(step, j, k); }
    if k < j { Climbing(step, k, j); }
  }

  lemma {:induction false} Climbing(step: real, j: int, k: int)
    requires step > 0.0 && j < k
    ensures Multiple(step, j) + step <= Multiple(step, k)
    decreases k - j
  {
    NextMultiple(step, k - 1);
    if j < k - 1 { Climbing(step, j, k - 1); }
  }

  lemma NextMultiple(step: real, k: int)
    ensures Multiple(step, k) + step == Multiple(step, k + 1)
  {
  }

  /** The multiples `a * step` to `b * step`. */
  function Multiples(step: real, a: int, b: int): (ts: seq<real>)
    ensures |ts| == if a <= b then b - a + 1 else 0
    ensures forall i :: 0 <= i < |ts| ==> ts[i] == Multiple(step, a + i)
    decreases b - a
  {
    if b < a then [] else Multiples(step, a, b - 1) + [Multiple(step, b)]
  }

  /** From the last multiple not above `min` to the first not below `max`. */
  function Ladder(min: real, max: real, step: real): seq<real>
    requires step > 0.0
  {
    Multiples(step, (min / step).Floor, Ceil(max / step))
  }

  /** `Number(v.toFixed(d))`. */
  function ToFixed(v: real, d: nat): real { Round(v * Pow10(d)) as real / Pow10(d) }

  function Decimals(step: real): nat
    requires step > 0.0
  {
    if step < 1.0 && FloorLog10(step) < 0 then -FloorLog10(step) else 0
  }

  /** The tick ladder for a range: what `NiceTicks` returns. */
  function Ticks(min: real, max: real, count: real): seq<real> {
    if max <= min then [min]
    else if count <= 0.0 then []
    else
      var step := Step(min, max, count);
      Ladder(min, max, step)
  }

  method NiceTicks(min: real, max: real, count: real) returns (ticks: seq<real>)
    ensures ticks == Ticks(min, max, count)
  {
    if max <= min { return [min]; }
    if count <= 0.0 { return []; }
    var step := Step(min, max, count);
    var a, b := (min / step).Floor, Ceil(max / step);
    FloorBelowCeil(min, max, step);
    forall k: int ensures Unrounded(step, k) { TickIsFixed(min, max, count, k); }
    ticks := Climb(step, a, b);
  }

  /** A tick as it is pushed: rounded to the step's decimals when it has some. */
  function Pushed(step: real, v: real): real
    requires step > 0.0
  {
    if Decimals(step) > 0 then ToFixed(v, Decimals(step)) else v
  }

  /** Rounding leaves the step's `k`th multiple alone. */
  predicate Unrounded(step: real, k: int)
    requires step > 0.0
  {
    Pushed(step, Multiple(step, k)) == Multiple(step, k)
  }

  /** From `start`, a step at a time, to `end`, with a tolerance of a billionth of a step. */
  method Climb(step: real, a: int, b: int) returns (ticks: seq<real>)
    requires step > 0.0 && a <= b && forall k :: Unrounded(step, k)
    ensures ticks == Multiples(step, a, b)
  {
    MultipleIs(step, a);
    MultipleIs(step, b);
    var v, end := a as real * step, b as real * step;
    var limit := end + step * 0.000000001;
    ticks := [];
    ghost var k := a;
    Guard(step, k, b, limit);
    while v <= limit
      invariant a <= k <= b + 1 && v == Multiple(step, k)
      invariant v <= limit <==> k <= b
      invariant ticks == Multiples(step, a, k - 1)
      decreases b - k
    {
      assert Unrounded(step, k);
      ticks := ticks + [Pushed(step, v)];
      NextMultiple(step, k);
      v := v + step;
      k := k + 1;
      Guard(step, k, b, limit);
    }
  }

  /** The loop's tolerance admits no further tick. */
  lemma Guard(step: real, k: int, b: int, limit: real)
    requires step > 0.0 && limit == Multiple(step, b) + step * 0.000000001
    ensures Multiple(step, k) <= limit <==> k <= b
  {
    if k <= b {
      MultiplesAscend(step, k, b);
    } else {
      MultiplesAscend(step, b + 1, k);
      NextMultiple(step, b);
    }
  }

  lemma FloorBelowCeil(min: real, max: real, step: real)
    requires min < max && step > 0.0
    ensures (min / step).Floor <= Ceil(max / step)
  {
    assert min / step < max / step;
  }

  /** The power of ten of a step: rung 10 carries into the next. */
  lemma StepLog(rung: int, e: int)
    requires rung == 1 || rung == 2 || rung == 5 || rung == 10
    ensures rung as real * Pow10(e) > 0.0
    ensures FloorLog10(rung as real * Pow10(e)) == if rung == 10 then e + 1 else e
  {
    Pow10Step(e);
    LogUnique(rung as real * Pow10(e), if rung == 10 then e + 1 else e);
  }

  lemma Pow10Inverse(d: int)
    requires d >= 0
    ensures Pow10(-d) * Pow10(d) == 1.0
  {
    if d > 0 { Quotient(1.0, Power10(d) as real); }
  }

  /** Rounding a multiple of the step to the step's decimals changes nothing. */
  lemma TickIsFixed(min: real, max: real, count: real, k: int)
    requires min < max && count > 0.0
    ensures Unrounded(Step(min, max, count), k)
  {
    Quotient(max - min, count);
    var rough := (max - min) / count;
    var e := FloorLog10(rough);
    RungIsFixed(Rung(rough / Pow10(e)), e, k);
  }

  lemma RungIsFixed(rung: int, e: int, k: int)
    requires rung == 1 || rung == 2 || rung == 5 || rung == 10
    ensures rung as real * Pow10(e) > 0.0 && Unrounded(rung as real * Pow10(e), k)
  {
    var step := rung as real * Pow10(e);
    StepLog(rung, e);
    Pow10Step(e);
    if rung == 10 {
      StepIsFixed(step, 1, e + 1, k);
    } else {
      StepIsFixed(step, rung, e, k);
    }
  }

  lemma StepIsFixed(step: real, n: int, f: int, k: int)
    requires step > 0.0 && FloorLog10(step) == f && step == n as real * Pow10(f)
    ensures Unrounded(step, k)
  {
    MultipleIs(step, k);
    if Decimals(step) > 0 { FixedMultiple(n, k, -f, step); }
  }

  lemma FixedMultiple(n: int, k: int, d: int, step: real)
    requires d >= 0 && step == n as real * Pow10(-d)
    ensures ToFixed(k as real * step, d) == k as real * step
  {
    Pow10Inverse(d);
    Regroup(k, n, Pow10(-d), Pow10(d));
    FixedWhole(k as real * step, k * n, d);
  }

  lemma Regroup(k: int, n: int, p: real, q: real)
    requires p * q == 1.0
    ensures k as real * (n as real * p) * q == (k * n) as real
  {
    var x, y := k as real, n as real;
    assert (k * n) as real == x * y;
    assert x * (y * p) * q == x * y * (p * q);
  }

  lemma FixedWhole(v: real, n: int, d: int)
    requires d >= 0 && v * Pow10(d) == n as real
    ensures ToFixed(v, d) == v
  {
    assert Round(n as real) == n;
    DivideOut(v, Pow10(d), n as real);
  }

  lemma DivideOut(v: real, q: real, x: real)
    requires q > 0.0 && v * q == x
    ensures x / q == v
  {
    var y := x / q;
    assert y * q == x;
    Unique(y, v, q);
  }

  lemma Unique(y: real, v: real, q: real)
    requires q > 0.0 && y * q == v * q
    ensures y == v
  {
    Cancel(y, v, q);
  }

  /** The ticks are evenly spaced, cover the range, and overshoot it by less than a step on either side. */
  lemma TicksCover(min: real, max: real, count: real, i: nat)
    requires min < max && count > 0.0
    ensures var ts, step := Ticks(min, max, count), Step(min, max, count);
            && |ts| >= 2 && min - step < ts[0] <= min && max <= ts[|ts| - 1] < max + step
            && (i + 1 < |ts| ==> ts[i + 1] - ts[i] == step)
  {
    LadderCovers(min, max, Step(min, max, count), i);
  }

  lemma LadderCovers(min: real, max: real, step: real, i: nat)
    requires min < max && step > 0.0
    ensures var ts := Ladder(min, max, step);
            && |ts| >= 2 && min - step < ts[0] <= min && max <= ts[|ts| - 1] < max + step
            && (i + 1 < |ts| ==> ts[i + 1] - ts[i] == step)
  {
    SpreadFrom(min, max, step, (min / step).Floor, Ceil(max / step), i);
  }

  lemma SpreadFrom(min: real, max: real, step: real, a: int, b: int, i: nat)
    requires min < max && step > 0.0 && a == (min / step).Floor && b == Ceil(max / step)
    ensures var ts := Multiples(step, a, b);
            && |ts| >= 2 && min - step < ts[0] <= min && max <= ts[|ts| - 1] < max + step
            && (i + 1 < |ts| ==> ts[i + 1] - ts[i] == step)
  {
    FloorLies(min, step, a);
    CeilLies(max, step, b);
    MultipleIs(step, a);
    MultipleIs(step, b);
    Spread(min, max, step, a, b, i);
  }

  lemma Spread(min: real, max: real, step: real, a: int, b: int, i: nat)
    requires min < max && step > 0.0
    requires JustBelow(Multiple(step, a), step, min) && JustAbove(Multiple(step, b), step, max)
    ensures var ts := Multiples(step, a, b);
            && |ts| >= 2 && min - step < ts[0] <= min && max <= ts[|ts| - 1] < max + step
            && (i + 1 < |ts| ==> ts[i + 1] - ts[i] == step)
  {
    MultiplesAscend(step, b, a);
    NextMultiple(step, a + i);
    var ts := Multiples(step, a, b);
    assert a < b;
    assert a + (|ts| - 1) == b;
    assert ts[0] == Multiple(step, a + 0);
  }

  /** `z` is the last step up to `x`, or the first from `x` on. */
  predicate JustBelow(z: real, step: real, x: real) { x - step < z <= x }

  predicate JustAbove(z: real, step: real, x: real) { x <= z < x + step }

  lemma FloorLies(x: real, step: real, a: int)
    requires step > 0.0 && a == (x / step).Floor
    ensures JustBelow(a as real * step, step, x)
  {
    Quotient(x, step);
    Within(x, x / step, a as real, step);
  }

  lemma CeilLies(x: real, step: real, b: int)
    requires step > 0.0 && b == Ceil(x / step)
    ensures JustAbove(b as real * step, step, x)
  {
    Quotient(x, step);
    Above(x, x / step, b as real, step);
  }

  lemma Within(x: real, q: real, f: real, step: real)
    requires step > 0.0 && q * step == x && q - 1.0 < f <= q
    ensures JustBelow(f * step, step, x)
  {
    Below(q, f, step);
  }

  lemma Above(x: real, q: real, c: real, step: real)
    requires step > 0.0 && q * step == x && q <= c < q + 1.0
    ensures JustAbove(c * step, step, x)
  {
    Beyond(q, c, step);
  }

  lemma Below(q: real, f: real, step: real)
    requires step > 0.0 && q - 1.0 < f <= q
    ensures JustBelow(f * step, step, q * step)
  {
    var p := q - 1.0;
    Cancel(p, f, step);
    Cancel(f, q, step);
    assert p * step == q * step - step;
  }

  lemma Beyond(q: real, c: real, step: real)
    requires step > 0.0 && q <= c < q + 1.0
    ensures JustAbove(c * step, step, q * step)
  {
    var p := q + 1.0;
    Cancel(q, c, step);
    Cancel(c, p, step);
    assert p * step == q * step + step;
  }

  /** How far the ladder's step is from the ideal one. */
  lemma RungRatio(norm: real)
    requires 1.0 <= norm < 10.0
    ensures var s := Rung(norm) as real; 0.7 * s <= norm < 1.75 * s
  {
  }

  lemma StepRatio(min: real, max: real, count: real)
    requires min < max && count > 0.0
    ensures var step := Step(min, max, count); 0.7 * count <= (max - min) / step < 1.75 * count
  {
    var rough := (max - min) / count;
    Quotient(max - min, count);
    LogLies(rough);
    RungRatioOf(max - min, count, rough, Pow10(FloorLog10(rough)));
  }

  lemma RungRatioOf(range: real, count: real, rough: real, mag: real)
    requires count > 0.0 && mag > 0.0 && rough * count == range && mag <= rough < 10.0 * mag
    ensures var step := Rung(rough / mag) as real * mag;
            step > 0.0 && 0.7 * count <= range / step < 1.75 * count
  {
    var norm := rough / mag;
    Quotient(rough, mag);
    NormLies(norm, mag, rough);
    RungRatio(norm);
    Ratio(norm, Rung(norm) as real, mag, count, range);
  }

  lemma NormLies(norm: real, mag: real, rough: real)
    requires mag > 0.0 && norm * mag == rough && mag <= rough < 10.0 * mag
    ensures 1.0 <= norm < 10.0
  {
    Cancel(1.0, norm, mag);
    Cancel(norm, 10.0, mag);
  }

  lemma Ratio(norm: real, s: real, mag: real, count: real, range: real)
    requires s >= 1.0 && mag > 0.0 && count > 0.0 && range == norm * mag * count && 0.7 * s <= norm < 1.75 * s
    ensures s * mag > 0.0 && 0.7 * count <= range / (s * mag) < 1.75 * count
  {
    var q := norm / s;
    Quotient(norm, s);
    Cancel(0.7, q, s);
    Cancel(q, 1.75, s);
    assert range == (q * count) * (s * mag);
    DivideOut(q * count, s * mag, range);
    Cancel(0.7, q, count);
    Cancel(q, 1.75, count);
  }

  /** There are about as many ticks as asked for. */
  lemma TickCount(min: real, max: real, count: real)
    requires min < max && count > 0.0
    ensures var n := |Ticks(min, max, count)| as real; 0.7 * count + 1.0 <= n < 1.75 * count + 3.0
  {
    StepRatio(min, max, count);
    LadderCount(min, max, Step(min, max, count));
  }

  lemma LadderCount(min: real, max: real, step: real)
    requires min < max && step > 0.0
    ensures var n, r := |Ladder(min, max, step)| as real, (max - min) / step;
            r + 1.0 <= n < r + 3.0
  {
    FloorBelowCeil(min, max, step);
    assert max / step - min / step == (max - min) / step;
  }

  /** An endpoint that is a multiple of the step is itself a tick. */
  lemma RoundEnds(min: real, max: real, step: real, k: int)
    requires min < max && step > 0.0
    ensures |Ladder(min, max, step)| >= 2
    ensures min == k as real * step ==> Ladder(min, max, step)[0] == min
    ensures max == k as real * step ==> Ladder(min, max, step)[|Ladder(min, max, step)| - 1] == max
  {
    LadderCovers(min, max, step, 0);
    MultipleIs(step, k);
    RoundQuotient(min, step, k);
    RoundQuotient(max, step, k);
  }

  lemma RoundQuotient(x: real, step: real, k: int)
    requires step > 0.0
    ensures x == k as real * step ==> (x / step).Floor == k && Ceil(x / step) == k
  {
    if x == k as real * step { DivideOut(k as real, step, x); }
  }

  // ---------------------------------------------------------------- the linear scale

  /** A constant for an empty domain, else a clamped line. */
  datatype LinearScale = Flat(mid: real) | Sloped(d0: real, d1: real, r0: real, slope: real)

  function Line(d0: real, d1: real, r0: real, r1: real): LinearScale {
    if d1 - d0 == 0.0 then Flat((r0 + r1) / 2.0) else Sloped(d0, d1, r0, (r1 - r0) / (d1 - d0))
  }

  function LinearScaleY(d0: real, d1: real, r0: real, r1: real): real -> real {
    v => At(Line(d0, d1, r0, r1), v)
  }

  function Min(a: real, b: real): real { if a < b then a else b }

  function Max(a: real, b: real): real { if a > b then a else b }

  function Clamp(v: real, d0: real, d1: real): real {
    if v < Min(d0, d1) then Min(d0, d1) else if v > Max(d0, d1) then Max(d0, d1) else v
  }

  function At(s: LinearScale, v: real): real {
    match s
    case Flat(mid) => mid
    case Sloped(d0, d1, r0, slope) => r0 + (Clamp(v, d0, d1) - d0) * slope
  }

  /** Whatever the value, the scaled one lies between the ends of the range, which the ends of the domain hit. */
  lemma ScaleStays(d0: real, d1: real, r0: real, r1: real, v: real)
    ensures var y := LinearScaleY(d0, d1, r0, r1)(v);
            && Min(r0, r1) <= y <= Max(r0, r1)
            && (d0 != d1 && v == d0 ==> y == r0) && (d0 != d1 && v == d1 ==> y == r1)
  {
    if d0 != d1 {
      var f := (Clamp(v, d0, d1) - d0) / (d1 - d0);
      Fraction(Clamp(v, d0, d1) - d0, d1 - d0);
      Mix(f, r1 - r0);
      SlopeIs(Clamp(v, d0, d1) - d0, d1 - d0, r1 - r0);
    }
  }

  /** Between the ends of its domain the scale is linear, beyond them it stays at the nearer end; no domain is shown in the middle. */
  lemma ScaleIsLinear(d0: real, d1: real, r0: real, r1: real, v: real)
    requires d0 <= d1
    ensures var y := LinearScaleY(d0, d1, r0, r1)(v);
            && (d0 == d1 ==> y == (r0 + r1) / 2.0)
            && (d0 < d1 && v <= d0 ==> y == r0) && (d0 < d1 && v >= d1 ==> y == r1)
            && (d0 < d1 && d0 <= v <= d1 ==> (y - r0) * (d1 - d0) == (v - d0) * (r1 - r0))
  {
    if d0 < d1 {
      ScaleStays(d0, d1, r0, r1, Clamp(v, d0, d1));
      Quotient(r1 - r0, d1 - d0);
      Reordered(v - d0, (r1 - r0) / (d1 - d0), d1 - d0);
    }
  }

  lemma Reordered(a: real, b: real, c: real)
    ensures a * b * c == a * (b * c)
  {
  }

  /** A part of a whole of either sign. */
  lemma Fraction(part: real, whole: real)
    requires whole != 0.0 && (0.0 <= part <= whole || whole <= part <= 0.0)
    ensures 0.0 <= part / whole <= 1.0
    ensures part == 0.0 ==> part / whole == 0.0
    ensures part == whole ==> part / whole == 1.0
  {
    if whole > 0.0 {
      Portion(part, whole);
    } else {
      Portion(-part, -whole);
      assert -part / -whole == part / whole;
    }
  }

  lemma Portion(part: real, whole: real)
    requires 0.0 <= part <= whole && whole > 0.0
    ensures 0.0 <= part / whole <= 1.0
  {
    Quotient(part, whole);
    Cancel(0.0, part / whole, whole);
    Cancel(part / whole, 1.0, whole);
  }

  lemma Mix(f: real, r: real)
    requires 0.0 <= f <= 1.0
    ensures Min(0.0, r) <= f * r <= Max(0.0, r)
    ensures f == 0.0 ==> f * r == 0.0
    ensures f == 1.0 ==> f * r == r
  {
    if r > 0.0 {
      Cancel(0.0, f, r);
      Cancel(f, 1.0, r);
    } else if r < 0.0 {
      Cancel(0.0, f, -r);
      Cancel(f, 1.0, -r);
    }
  }

  lemma SlopeIs(x: real, d: real, r: real)
    requires d != 0.0
    ensures x * (r / d) == x / d * r
  {
  }

  // ---------------------------------------------------------------- the band scale

  /** What `bandScaleX` returns. */
  datatype BandScale = BandScale(offsets: map<string, real>, r0: real, bandWidth: real)

  function BandAt(b: BandScale, key: string): real { if key in b.offsets then b.offsets[key] else b.r0 }

  function LastIndex(domain: seq<string>, key: string): (i: nat)
    requires key in domain
    ensures i < |domain| && domain[i] == key && forall j :: i < j < |domain| ==> domain[j] != key
  {
    if domain[|domain| - 1] == key then |domain| - 1 else LastIndex(domain[..|domain| - 1], key)
  }

  /** Where the `i`th band starts. */
  function Left(r0: real, step: real, padding: real, i: int): real {
    r0 + step * (padding + i as real) + (step - step * (1.0 - padding)) / 2.0
  }

  function BandStep(n: nat, r0: real, r1: real, padding: real): real
    requires n as real + padding * 2.0 != 0.0
  {
    (r1 - r0) / (n as real + padding * 2.0)
  }

  method BandScaleX(domain: seq<string>, r0: real, r1: real, padding: real) returns (b: BandScale)
    requires |domain| > 0 ==> |domain| as real + padding * 2.0 != 0.0
    ensures |domain| == 0 || r1 - r0 <= 0.0 ==> b == BandScale(map[], r0, 0.0)
    ensures |domain| > 0 && r1 - r0 > 0.0 ==>
              var step := BandStep(|domain|, r0, r1, padding);
              b.bandWidth == step * (1.0 - padding) && b.r0 == r0 && Placed(b.offsets, domain, r0, step, padding)
  {
    var totalSpan, n := r1 - r0, |domain|;
    if n == 0 || totalSpan <= 0.0 { return BandScale(map[], r0, 0.0); }
    var step := BandStep(n, r0, r1, padding);
    var offsets := Offsets(domain, r0, step, padding);
    b := BandScale(offsets, r0, step * (1.0 - padding));
  }

  /** Each key is where its last place in the domain puts it. */
  ghost predicate Placed(offsets: map<string, real>, domain: seq<string>, r0: real, step: real, padding: real) {
    && (forall key :: key in offsets <==> key in domain)
    && (forall key :: key in domain ==> offsets[key] == Left(r0, step, padding, LastIndex(domain, key)))
  }

  method Offsets(domain: seq<string>, r0: real, step: real, padding: real) returns (offsets: map<string, real>)
    ensures Placed(offsets, domain, r0, step, padding)
  {
    offsets := map[];
    for i := 0 to |domain|
      invariant Placed(offsets, domain[..i], r0, step, padding)
    {
      var key := domain[i];
      PlaceNext(offsets, domain[..i], key, r0, step, padding);
      assert domain[..i + 1] == domain[..i] + [key];
      offsets := offsets[key := Left(r0, step, padding, i)];
    }
    assert domain[..|domain|] == domain;
  }

  lemma PlaceNext(offsets: map<string, real>, domain: seq<string>, key: string, r0: real, step: real, padding: real)
    requires Placed(offsets, domain, r0, step, padding)
    ensures Placed(offsets[key := Left(r0, step, padding, |domain|)], domain + [key], r0, step, padding)
  {
    forall k | k in domain + [key]
      ensures LastIndex(domain + [key], k) == if k == key then |domain| else LastIndex(domain, k)
    {
      assert (domain + [key])[..|domain|] == domain;
    }
  }

  /** Bands lie inside the range, and an earlier band ends before a later one starts. */
  lemma BandsApart(n: nat, r0: real, r1: real, padding: real, i: nat, j: nat)
    requires i < n && j < n && r0 < r1 && 0.0 <= padding <= 1.0
    ensures var step := BandStep(n, r0, r1, padding);
            && r0 <= Left(r0, step, padding, i) <= Left(r0, step, padding, i) + step * (1.0 - padding) <= r1
            && (i < j ==> Left(r0, step, padding, i) + step * (1.0 - padding) <= Left(r0, step, padding, j))
  {
    var m := n as real + padding * 2.0;
    var step := (r1 - r0) / m;
    Quotient(r1 - r0, m);
    BandInside(r0, step, padding, i, n, m, r1);
    if i < j { BandBefore(r0, step, padding, i, j); }
  }

  lemma BandInside(r0: real, step: real, padding: real, i: nat, n: nat, m: real, r1: real)
    requires step > 0.0 && 0.0 <= padding <= 1.0 && i < n && m == n as real + padding * 2.0 && step * m == r1 - r0
    ensures r0 <= Left(r0, step, padding, i) <= Left(r0, step, padding, i) + step * (1.0 - padding) <= r1
  {
    var a, w := padding + i as real + padding / 2.0, 1.0 - padding;
    LeftIs(r0, step, padding, i);
    Cancel(0.0, a, step);
    Cancel(0.0, w, step);
    Cancel(a + w, m, step);
    assert (a + w) * step == a * step + w * step;
  }

  lemma LeftIs(r0: real, step: real, padding: real, i: int)
    ensures Left(r0, step, padding, i) == r0 + (padding + i as real + padding / 2.0) * step
  {
    var p := padding + i as real;
    assert (step - step * (1.0 - padding)) / 2.0 == padding / 2.0 * step;
    assert step * p + padding / 2.0 * step == (p + padding / 2.0) * step;
  }

  lemma BandBefore(r0: real, step: real, padding: real, i: int, j: int)
    requires step > 0.0 && 0.0 <= padding && i < j
    ensures Left(r0, step, padding, i) + step * (1.0 - padding) <= Left(r0, step, padding, j)
  {
    var a, b, w := padding + i as real + padding / 2.0, padding + j as real + padding / 2.0, 1.0 - padding;
    LeftIs(r0, step, padding, i);
    LeftIs(r0, step, padding, j);
    Cancel(a + w, b, step);
    assert (a + w) * step == a * step + w * step;
  }

  /** Bands are spread evenly: the same gap between neighbours, and the same margin at both ends. */
  lemma BandsEven(n: nat, r0: real, r1: real, padding: real, i: nat)
    requires i < n && r0 < r1 && 0.0 <= padding <= 1.0
    ensures var step := BandStep(n, r0, r1, padding); var width, margin := step * (1.0 - padding), step * padding * 1.5;
            && Left(r0, step, padding, 0) == r0 + margin && Left(r0, step, padding, n - 1) + width == r1 - margin
            && (i + 1 < n ==> Left(r0, step, padding, i) + width + step * padding == Left(r0, step, padding, i + 1))
  {
    var m := n as real + padding * 2.0;
    var step := (r1 - r0) / m;
    Quotient(r1 - r0, m);
    LeftIs(r0, step, padding, 0);
    LeftIs(r0, step, padding, n - 1);
    LeftIs(r0, step, padding, i);
    LeftIs(r0, step, padding, i + 1);
    EvenAt(r0, step, padding, i as real, n as real);
  }

  lemma EvenAt(r0: real, step: real, padding: real, i: real, n: real)
    ensures (padding + 0.0 + padding / 2.0) * step == step * padding * 1.5
    ensures (padding + (n - 1.0) + padding / 2.0) * step + step * (1.0 - padding) + step * padding * 1.5 == step * (n + padding * 2.0)
    ensures (padding + i + padding / 2.0) * step + step * (1.0 - padding) + step * padding == (padding + (i + 1.0) + padding / 2.0) * step
  {
  }
}
