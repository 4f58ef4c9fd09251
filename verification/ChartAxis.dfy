/** The scales of the latency chart over exact reals
    (frontend/src/features/monitors/history/chart-geometry.ts). */
module ChartAxis {
  import opened Arithmetic

  // ----- Powers of ten -----

  function Pow10(k: int): (p: real)
    ensures p > 0.0
    decreases if k < 0 then -k else k
  {
    if k == 0 then 1.0 else if k > 0 then 10.0 * Pow10(k - 1) else Pow10(k + 1) / 10.0
  }

  lemma NextPower(k: int)
    ensures Pow10(k + 1) == 10.0 * Pow10(k)
  {
  }

  lemma {:induction false} PowersGrow(j: int, k: int)
    requires j <= k
    ensures Pow10(j) <= Pow10(k)
    decreases k - j
  {
    if j < k {
      PowersGrow(j, k - 1);
      NextPower(k - 1);
    }
  }

  predicate IsFloorLog10(x: real, k: int) { Pow10(k) <= x < Pow10(k + 1) }

  /** Math.floor(Math.log10(x)) */
  function FloorLog10(x: real): (k: int)
    requires x > 0.0
    ensures IsFloorLog10(x, k)
    decreases if x >= 1.0 then x else 20.0 / x
  {
    if x >= 10.0 then
      var k := FloorLog10(x / 10.0);
      NextPower(k); NextPower(k + 1);
      k + 1
    else if x < 1.0 then
      InverseShrinks(x);
      var k := FloorLog10(10.0 * x);
      NextPower(k - 1); NextPower(k);
      k - 1
    else
      0
  }

  lemma InverseShrinks(x: real)
    requires 0.0 < x < 1.0
    ensures 20.0 / x >= 20.0 && 20.0 / (10.0 * x) <= 20.0 / x - 1.0
  {
    var y := 1.0 / x;
    assert y * x == 1.0;
    assert y >= 1.0;
    assert 20.0 / x == 20.0 * y;
    assert 20.0 / (10.0 * x) == 2.0 * y;
  }

  lemma FloorLog10Unique(x: real, j: int, k: int)
    requires IsFloorLog10(x, j) && IsFloorLog10(x, k)
    ensures j == k
  {
    if j < k { PowersGrow(j + 1, k); }
    if k < j { PowersGrow(k + 1, j); }
  }

  // ----- The step of the latency axis -----

  /** 1, 2, 5 or 10 times `p`. */
  predicate IsNiceAt(v: real, p: real) { v == p || v == 2.0 * p || v == 5.0 * p || v == 10.0 * p }

  ghost predicate IsNice(v: real) { exists k :: IsNiceAt(v, Pow10(k)) }

  function Parts(targetCount: int): real {
    (if targetCount - 1 > 1 then targetCount - 1 else 1) as real
  }

  function Rough(range: real, targetCount: int): real { range / Parts(targetCount) }

  function NiceStep(range: real, targetCount: int): (step: real)
    ensures step > 0.0
  {
    if !(range > 0.0) then 1.0
    else
      var rough := Rough(range, targetCount);
      PositiveQuotient(range, Parts(targetCount));
      var power := Pow10(FloorLog10(rough));
      var fraction := rough / power;
      (if fraction <= 1.0 then 1.0 else if fraction <= 2.0 then 2.0 else if fraction <= 5.0 then 5.0 else 10.0) * power
  }

  lemma PositiveQuotient(a: real, b: real)
    requires a > 0.0 && b > 0.0
    ensures a / b > 0.0
  {
    assert (a / b) * b == a;
  }

  lemma QuotientAtMost(x: real, p: real, c: real)
    requires p > 0.0
    ensures x / p <= c <==> x <= c * p
  {
    assert (c - x / p) * p == c * p - x;
  }

  /** The step without the division. */
  function StepFor(rough: real, p: real): real {
    if rough <= p then p else if rough <= 2.0 * p then 2.0 * p else if rough <= 5.0 * p then 5.0 * p else 10.0 * p
  }

  lemma NiceStepIs(range: real, targetCount: int) returns (rough: real, k: int)
    requires range > 0.0
    ensures rough == Rough(range, targetCount) && rough > 0.0 && IsFloorLog10(rough, k)
    ensures NiceStep(range, targetCount) == StepFor(rough, Pow10(k))
  {
    rough := Rough(range, targetCount);
    PositiveQuotient(range, Parts(targetCount));
    k := FloorLog10(rough);
    QuotientAtMost(rough, Pow10(k), 1.0);
    QuotientAtMost(rough, Pow10(k), 2.0);
    QuotientAtMost(rough, Pow10(k), 5.0);
  }

  /** The step is the least nice number that is at least the rough one, and less than 2.5 times it. */
  lemma NiceStepIsLeast(range: real, targetCount: int)
    requires range > 0.0
    ensures var step, rough := NiceStep(range, targetCount), Rough(range, targetCount);
      && rough == range / (if targetCount > 2 then targetCount - 1 else 1) as real
      && IsNice(step) && rough <= step < 2.5 * rough
      && forall v :: IsNice(v) && rough <= v ==> step <= v
  {
    var rough, k := NiceStepIs(range, targetCount);
    NextPower(k);
    assert IsNiceAt(StepFor(rough, Pow10(k)), Pow10(k));
    forall v | IsNice(v) && rough <= v ensures StepFor(rough, Pow10(k)) <= v {
      var j :| IsNiceAt(v, Pow10(j));
      NoneBelow(rough, k, j, v);
    }
  }

  lemma NoneBelow(rough: real, k: int, j: int, v: real)
    requires IsFloorLog10(rough, k) && IsNiceAt(v, Pow10(j)) && rough <= v
    ensures StepFor(rough, Pow10(k)) <= v
  {
    NextPower(j);
    NextPower(k);
    if j < k {
      PowersGrow(j + 1, k);
    } else if j > k {
      PowersGrow(k + 1, j);
    }
  }

  // ----- The latency axis -----

  function Max0(values: seq<real>): (max: real)
    ensures max >= 0.0 && forall i :: 0 <= i < |values| ==> values[i] <= max
    ensures max == 0.0 || max in values
  {
    if values == [] then 0.0
    else
      var rest, v := Max0(values[..|values| - 1]), values[|values| - 1];
      if v > rest then v else rest
  }

  function Ceil(x: real): int { -((-x).Floor) }

  function StepOf(max: real): (step: real)
    ensures step > 0.0
  {
    NiceStep(if max == 0.0 then 1.0 else max, 4)
  }

  /** The end of the axis for a given step. */
  function EndFor(max: real, step: real): (end: real)
    requires step > 0.0
    ensures end > 0.0
  {
    var multiple := Ceil(max / step) as real * step;
    if multiple > step then multiple else step
  }

  /** How many steps that is. */
  function CountFor(max: real, step: real): int
    requires step > 0.0
  {
    var k := Ceil(max / step);
    if k < 1 then 1 else k
  }

  function YMax(max: real): (yMax: real)
    ensures yMax > 0.0
  {
    EndFor(max, StepOf(max))
  }

  function StepCount(max: real): int { CountFor(max, StepOf(max)) }

  lemma CeilBounds(x: real)
    ensures x <= Ceil(x) as real < x + 1.0
  {
  }

  function Times(n: nat, step: real): real {
    if n == 0 then 0.0 else Times(n - 1, step) + step
  }

  lemma {:induction false} TimesIsProduct(n: nat, step: real)
    ensures Times(n, step) == n as real * step
  {
    if n > 0 {
      TimesIsProduct(n - 1, step);
      var r := n as real;
      assert (r - 1.0) * step == r * step - step;
    }
  }

  lemma {:induction false} TimesGrows(i: nat, n: nat, step: real)
    requires step > 0.0 && i <= n
    ensures Times(i, step) <= Times(n, step)
  {
    if i < n { TimesGrows(i, n - 1, step); }
  }

  /** The least multiple of `step` that is at least `x`. */
  lemma Multiples(x: real, step: real) returns (k: nat)
    requires step > 0.0 && 0.0 <= x
    ensures k == Ceil(x / step) && k as real * step == Times(k, step) && x <= Times(k, step) < x + step
  {
    var q := x / step;
    assert q * step == x;
    CeilBounds(q);
    Scaled(0.0, q, step, 0.0, x);
    k := Ceil(q);
    var r, top := k as real, Times(k, step);
    TimesIsProduct(k, step);
    Scaled(q, r, step, x, top);
    assert (q + 1.0) * step == x + step;
    Scaled(q + 1.0, r, step, x + step, top);
  }

  /** The axis ends at a multiple of its step, on or above the largest latency and less than a
      step above it unless there is only one step; the step is the least nice number that is a third
      of the largest latency or more, and there are 2 or 3, when that is positive, and one of 0.5
      otherwise. */
  lemma AxisCovers(max: real)
    requires max >= 0.0
    ensures var step, n := StepOf(max), StepCount(max);
      && n >= 0 && YMax(max) == Times(n, step)
      && max <= YMax(max)
      && (max > 0.0 ==> (n == 2 || n == 3) && YMax(max) < max + step)
      && (max > 0.0 ==> IsNice(step) && max / 3.0 <= step && forall v :: IsNice(v) && max / 3.0 <= v ==> step <= v)
      && (max == 0.0 ==> n == 1 && step == 0.5)
  {
    var step := StepOf(max);
    var k := EndIsMultiple(max, step);
    if max > 0.0 {
      NiceStepIsLeast(max, 4);
      TwoOrThree(k, max, step, Rough(max, 4));
    } else {
      StepOfOne();
    }
  }

  lemma EndIsMultiple(max: real, step: real) returns (k: nat)
    requires max >= 0.0 && step > 0.0
    ensures max <= Times(k, step) < max + step && CountFor(max, step) == (if k < 1 then 1 else k)
    ensures EndFor(max, step) == Times(CountFor(max, step), step) && max <= EndFor(max, step)
    ensures k >= 1 ==> step <= Times(k, step)
  {
    k := Multiples(max, step);
    assert Times(1, step) == step;
    if k >= 1 { TimesGrows(1, k, step); }
  }

  lemma TwoOrThree(k: nat, max: real, step: real, rough: real)
    requires step > 0.0 && 0.0 < max && rough == max / 3.0 && rough <= step < 2.5 * rough
    requires max <= Times(k, step) < max + step
    ensures k == 2 || k == 3
  {
    assert Times(1, step) == step && Times(4, step) == 4.0 * step by {
      TimesIsProduct(4, step);
    }
    if k >= 4 { TimesGrows(4, k, step); }
  }

  lemma StepOfOne()
    ensures NiceStep(1.0, 4) == 0.5
  {
    var rough, k := NiceStepIs(1.0, 4);
    assert Pow10(-1) == Pow10(0) / 10.0;
    assert rough * 3.0 == 1.0;
    FloorLog10Unique(rough, k, -1);
  }

  // ----- Coordinates -----

  const TOP: real := 14.0
  const BOTTOM: real := 180.0
  const LEFT: real := 54.0

  function Right(width: real): real {
    if width - 12.0 > LEFT + 1.0 then width - 12.0 else LEFT + 1.0
  }

  function Y(value: real, yMax: real): real
    requires yMax > 0.0
  {
    BOTTOM - (value / yMax) * (BOTTOM - TOP)
  }

  /** Latencies map onto the plot upside down: strictly decreasing, zero at the bottom and the end
      of the axis at the top, so a latency is inside the plot exactly when the axis covers it. */
  lemma YIsAntitone(u: real, v: real, yMax: real)
    requires yMax > 0.0
    ensures u < v <==> Y(u, yMax) > Y(v, yMax)
    ensures Y(0.0, yMax) == BOTTOM && Y(yMax, yMax) == TOP
    ensures 0.0 <= v <= yMax <==> TOP <= Y(v, yMax) <= BOTTOM
  {
    QuotientsCompare(u, v, yMax);
    QuotientsCompare(0.0, v, yMax);
    QuotientsCompare(v, yMax, yMax);
  }

  /** Latencies divide the plot from the bottom up as they divide the axis. */
  lemma YIsLinear(v: real, yMax: real)
    requires yMax > 0.0
    ensures (180.0 - Y(v, yMax)) * yMax == v * 166.0
  {
    var q := v / yMax;
    assert q * yMax == v;
    assert Y(v, yMax) == 180.0 - q * 166.0;
    assert (q * 166.0) * yMax == (q * yMax) * 166.0;
  }

  lemma QuotientsCompare(u: real, v: real, p: real)
    requires p > 0.0
    ensures u < v <==> u / p < v / p
    ensures 0.0 / p == 0.0 && p / p == 1.0
  {
    var a, b := u / p, v / p;
    assert a * p == u && b * p == v;
    Scaled(b, a, p, v, u);
  }

  /** Every measured latency that is not negative is inside the plot. */
  lemma MeasuredIsInside(measured: seq<real>, i: nat)
    requires i < |measured| && measured[i] >= 0.0
    ensures TOP <= Y(measured[i], YMax(Max0(measured))) <= BOTTOM
  {
    AxisCovers(Max0(measured));
    YIsAntitone(0.0, measured[i], YMax(Max0(measured)));
  }

  function Across(share: real, width: real): real { LEFT + share * width }

  /** Times are in milliseconds. */
  function X(t: int, first: int, last: int, right: real): real {
    if last - first > 0 then Across((t - first) as real / (last - first) as real, right - LEFT)
    else (LEFT + right) / 2.0
  }

  /** Valid times stay within the plot and keep their order, strictly unless all are the same. */
  lemma XIsMonotone(s: int, t: int, first: int, last: int, right: real)
    requires first <= s <= t <= last && right > LEFT
    ensures LEFT <= X(s, first, last, right) <= X(t, first, last, right) <= right
    ensures s < t ==> X(s, first, last, right) < X(t, first, last, right)
    ensures first < last ==> X(first, first, last, right) == LEFT && X(last, first, last, right) == right
  {
    if first < last {
      var span, a, b := (last - first) as real, (s - first) as real, (t - first) as real;
      QuotientsCompare(a, b, span);
      QuotientsCompare(b, a, span);
      QuotientsCompare(a, 0.0, span);
      QuotientsCompare(span, b, span);
      AcrossIsMonotone(a / span, b / span, right - LEFT);
    }
  }

  /** Times divide the plot from left to right as they divide the time from the first to the last. */
  lemma XIsLinear(t: int, first: int, last: int, right: real)
    requires first < last
    ensures (X(t, first, last, right) - 54.0) * (last - first) as real == (t - first) as real * (right - 54.0)
  {
    var span, a, w := (last - first) as real, (t - first) as real, right - 54.0;
    var q := a / span;
    assert q * span == a;
    assert X(t, first, last, right) - 54.0 == q * w;
    assert (q * w) * span == (q * span) * w;
  }

  lemma AcrossIsMonotone(a: real, b: real, width: real)
    requires 0.0 <= a <= b <= 1.0 && width > 0.0
    ensures LEFT <= Across(a, width) <= Across(b, width) <= LEFT + width
    ensures a < b ==> Across(a, width) < Across(b, width)
    ensures Across(0.0, width) == LEFT && Across(1.0, width) == LEFT + width
  {
    var x, y := a * width, b * width;
    Scaled(0.0, a, width, 0.0, x);
    Scaled(a, b, width, x, y);
    Scaled(b, 1.0, width, y, width);
  }

  // ----- Ticks -----

  datatype Tick = Tick(value: real, position: real)

  /** Multiples of the step, each where its latency is. */
  ghost predicate ArePlaced(ticks: seq<Tick>, step: real, yMax: real)
    requires yMax > 0.0
  {
    forall i :: 0 <= i < |ticks| ==> ticks[i] == Tick(Times(i, step), Y(Times(i, step), yMax))
  }

  lemma PlacedMore(ticks: seq<Tick>, step: real, yMax: real)
    requires yMax > 0.0 && ArePlaced(ticks, step, yMax)
    ensures ArePlaced(ticks + [Tick(Times(|ticks|, step), Y(Times(|ticks|, step), yMax))], step, yMax)
  {
  }

  /** The loop: every multiple of the step from zero up to the end of the axis. */
  method PlaceTicks(step: real, yMax: real, ghost n: nat) returns (ticks: seq<Tick>)
    requires step > 0.0 && yMax > 0.0 && yMax == Times(n, step)
    ensures |ticks| == n + 1
    ensures forall i :: 0 <= i <= n ==> ticks[i] == Tick(Times(i, step), Y(Times(i, step), yMax))
  {
    ticks := [];
    var value := 0.0;
    while value <= yMax
      invariant |ticks| <= n + 1 && value == Times(|ticks|, step) && ArePlaced(ticks, step, yMax)
      decreases n + 1 - |ticks|
    {
      assert Times(n + 1, step) > yMax;
      PlacedMore(ticks, step, yMax);
      ticks := ticks + [Tick(value, Y(value, yMax))];
      value := value + step;
    }
    if |ticks| <= n { TimesGrows(|ticks|, n, step); }
  }

  /** Multiples of the step from zero at the bottom to the end of the axis at the top: 3 or 4
      ticks, or 2 when no latency is positive. */
  ghost predicate AreYTicks(measured: seq<real>, ticks: seq<Tick>) {
    if measured == [] then ticks == []
    else
      var max := Max0(measured);
      && (if max > 0.0 then |ticks| == 3 || |ticks| == 4 else |ticks| == 2)
      && ticks[0] == Tick(0.0, BOTTOM) && ticks[|ticks| - 1] == Tick(YMax(max), TOP)
      && forall i :: 0 <= i < |ticks| ==>
          ticks[i] == Tick(Times(i, StepOf(max)), Y(Times(i, StepOf(max)), YMax(max)))
  }

  method YTicks(measured: seq<real>) returns (ticks: seq<Tick>)
    ensures AreYTicks(measured, ticks)
  {
    if measured == [] { return []; }
    var max := Max0(measured);
    AxisCovers(max);
    YIsAntitone(0.0, 0.0, YMax(max));
    ticks := PlaceTicks(StepOf(max), YMax(max), StepCount(max));
  }

  // ----- Time ticks -----

  /** One tick for every 110 pixels, and two at least. */
  function TickCount(right: real): (n: int)
    ensures n >= 2
  {
    if ((right - LEFT) / 110.0).Floor > 2 then ((right - LEFT) / 110.0).Floor else 2
  }

  /** The tick at a share of the extent. */
  function TimeTick(ratio: real, first: int, last: int, right: real): Tick {
    Tick(first as real + (last - first) as real * ratio, LEFT + (right - LEFT) * ratio)
  }

  function Share(i: int, n: int): real
    requires n >= 2
  {
    i as real / (n - 1) as real
  }

  /** A tick is where a point of its time would be. */
  ghost predicate OnTimeScale(tick: Tick, first: int, last: int, right: real)
    requires first < last
  {
    tick.position == Across((tick.value - first as real) / (last - first) as real, right - LEFT)
  }

  ghost predicate IsTimeTick(tick: Tick, ratio: real, first: int, last: int, right: real)
    requires first < last
  {
    tick == TimeTick(ratio, first, last, right) && OnTimeScale(tick, first, last, right)
  }

  /** Evenly spaced from the first time at the left end to the last at the right end, each on the
      scale of the points; one in the middle when all times are the same. */
  ghost predicate AreXTicks(times: bool, first: int, last: int, right: real, ticks: seq<Tick>) {
    if !times then ticks == []
    else if first >= last then ticks == [Tick(first as real, (LEFT + right) / 2.0)]
    else
      && |ticks| == TickCount(right)
      && ticks[0] == Tick(first as real, LEFT) && ticks[|ticks| - 1] == Tick(last as real, right)
      && forall i :: 0 <= i < |ticks| ==> IsTimeTick(ticks[i], Share(i, |ticks|), first, last, right)
  }

  /** There is one tick for every 110 pixels of the plot, two at least, and they divide both the plot
      and the time evenly. */
  lemma TicksAreEven(first: int, last: int, right: real, ticks: seq<Tick>, i: nat)
    requires AreXTicks(true, first, last, right, ticks) && first < last && i < |ticks|
    ensures |ticks| == if ((right - 54.0) / 110.0).Floor > 2 then ((right - 54.0) / 110.0).Floor else 2
    ensures var n := (|ticks| - 1) as real;
      && (ticks[i].value - first as real) * n == i as real * (last - first) as real
      && (ticks[i].position - 54.0) * n == i as real * (right - 54.0)
  {
    var n, r, w := (|ticks| - 1) as real, Share(i, |ticks|), right - 54.0;
    var span := (last - first) as real;
    assert IsTimeTick(ticks[i], r, first, last, right);
    Rescaled(r, n, i as real, span, ticks[i].value - first as real);
    Rescaled(r, n, i as real, w, ticks[i].position - 54.0);
  }

  lemma Rescaled(r: real, n: real, i: real, span: real, x: real)
    requires n > 0.0 && r == i / n && x == span * r
    ensures x * n == i * span
  {
    assert r * n == i;
    assert (span * r) * n == span * (r * n);
  }

  lemma EndShares(n: int)
    requires n >= 2
    ensures Share(0, n) == 0.0 && Share(n - 1, n) == 1.0
  {
  }

  lemma TickOnScale(ratio: real, first: int, last: int, right: real)
    requires first < last
    ensures OnTimeScale(TimeTick(ratio, first, last, right), first, last, right)
  {
    var span := (last - first) as real;
    var x := span * ratio;
    assert x / span == ratio by { QuotientOfProduct(span, ratio); }
    assert TimeTick(ratio, first, last, right).value - first as real == x;
  }

  lemma QuotientOfProduct(p: real, r: real)
    requires p > 0.0
    ensures p * r / p == r
  {
    var q := p * r / p;
    assert q * p == p * r;
    Scaled(q, r, p, p * r, p * r);
  }

  method XTicks(times: bool, first: int, last: int, right: real) returns (ticks: seq<Tick>)
    requires first <= last && right > LEFT
    ensures AreXTicks(times, first, last, right, ticks)
  {
    ticks := [];
    if !times { return; }
    if last - first == 0 { return [Tick(first as real, (LEFT + right) / 2.0)]; }
    var tickCount := TickCount(right);
    var index := 0;
    while index < tickCount
      invariant 0 <= index <= tickCount && |ticks| == index
      invariant forall i :: 0 <= i < index ==> IsTimeTick(ticks[i], Share(i, tickCount), first, last, right)
    {
      TickOnScale(Share(index, tickCount), first, last, right);
      ticks := ticks + [TimeTick(Share(index, tickCount), first, last, right)];
      index := index + 1;
    }
    EndShares(tickCount);
    EndTicks(first, last, right);
  }

  lemma EndTicks(first: int, last: int, right: real)
    ensures TimeTick(0.0, first, last, right) == Tick(first as real, LEFT)
    ensures TimeTick(1.0, first, last, right) == Tick(last as real, right)
  {
  }
}
