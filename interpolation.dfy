/** Clamped piecewise-linear interpolation over a breakpoint/output table, the map that
    framer-motion's `useTransform(value, breakpoints, outputs)` applies by default. */
module Interpolation {

  predicate StrictlyIncreasing(xs: seq<real>) {
    forall k :: 0 <= k < |xs| - 1 ==> xs[k] < xs[k + 1]
  }

  predicate NonDecreasing(ys: seq<real>) {
    forall k :: 0 <= k < |ys| - 1 ==> ys[k] <= ys[k + 1]
  }

  /** A keyframe table: progress breakpoints and the value taken at each. */
  datatype Table = Table(breakpoints: seq<real>, outputs: seq<real>)

  predicate WellFormed(t: Table) {
    |t.breakpoints| == |t.outputs| >= 2 && StrictlyIncreasing(t.breakpoints)
  }

  /** Linear blend between `a` and `b` at the point `v` of the segment `[x0, x1]`. */
  function Lerp(x0: real, x1: real, a: real, b: real, v: real): real
    requires x0 < x1
  {
    a + (b - a) * ((v - x0) / (x1 - x0))
  }

  /** Within its segment the blend lies between the two end values. */
  lemma LerpBetween(x0: real, x1: real, a: real, b: real, v: real)
    requires x0 < x1 && x0 <= v <= x1
    ensures a <= b ==> a <= Lerp(x0, x1, a, b, v) <= b
    ensures b <= a ==> b <= Lerp(x0, x1, a, b, v) <= a
    ensures v == x0 ==> Lerp(x0, x1, a, b, v) == a
    ensures v == x1 ==> Lerp(x0, x1, a, b, v) == b
  {
    var d := x1 - x0;
    var t := (v - x0) / d;
    assert t * d == v - x0;
    assert t < 0.0 ==> t * d < 0.0;
    assert t > 1.0 ==> t * d > d;
    if a <= b {
      assert 0.0 <= (b - a) * t <= b - a;
    } else {
      assert b - a <= (b - a) * t <= 0.0;
    }
  }

  lemma LerpMonotone(x0: real, x1: real, a: real, b: real, v: real, w: real)
    requires x0 < x1 && v <= w && a <= b
    ensures Lerp(x0, x1, a, b, v) <= Lerp(x0, x1, a, b, w)
  {
    var d := x1 - x0;
    var tv := (v - x0) / d;
    var tw := (w - x0) / d;
    assert tv * d == v - x0 && tw * d == w - x0;
    assert tv > tw ==> (tv - tw) * d > 0.0;
    assert (b - a) * tv <= (b - a) * tw;
  }

  /** The table restricted to what follows its first breakpoint. */
  function Tail(t: Table): (r: Table)
    requires WellFormed(t) && |t.breakpoints| > 2
    ensures WellFormed(r)
  {
    Table(t.breakpoints[1..], t.outputs[1..])
  }

  /** Segment search: the first segment `[bp[0], bp[1]]` when `v` lies before `bp[1]` or
      there is no other, otherwise the search goes on in the rest of the table. */
  function Piecewise(t: Table, v: real): real
    requires WellFormed(t)
    decreases |t.breakpoints|
  {
    var bp, out := t.breakpoints, t.outputs;
    if |bp| == 2 || v < bp[1] then Lerp(bp[0], bp[1], out[0], out[1], v)
    else Piecewise(Tail(t), v)
  }

  /** The value of the table at progress `p`: `p` is first clamped to the table's range, so
      values outside it hold at the nearest end. */
  function Interpolate(t: Table, p: real): real
    requires WellFormed(t)
  {
    var last := |t.breakpoints| - 1;
    var v := if p < t.breakpoints[0] then t.breakpoints[0]
             else if p > t.breakpoints[last] then t.breakpoints[last]
             else p;
    Piecewise(t, v)
  }

  /** Reference reading: on any segment `[bp[k], bp[k+1]]` the search gives the linear blend
      between that segment's two outputs. */
  lemma {:induction false} PiecewiseOnSegment(t: Table, k: nat, v: real)
    requires WellFormed(t) && k < |t.breakpoints| - 1
    requires t.breakpoints[k] <= v <= t.breakpoints[k + 1]
    ensures Piecewise(t, v) == Lerp(t.breakpoints[k], t.breakpoints[k + 1], t.outputs[k], t.outputs[k + 1], v)
    decreases |t.breakpoints|
  {
    var bp, out := t.breakpoints, t.outputs;
    if k == 0 {
      if |bp| > 2 && v >= bp[1] {
        // v is the common end of the first two segments: both blends give out[1].
        assert v == bp[1];
        PiecewiseOnSegment(Tail(t), 0, v);
        LerpBetween(bp[0], bp[1], out[0], out[1], v);
        LerpBetween(bp[1], bp[2], out[1], out[2], v);
      }
    } else {
      assert bp[0] < bp[1] <= bp[k] by { IncreasingFrom(bp, 1, k); }
      PiecewiseOnSegment(Tail(t), k - 1, v);
    }
  }

  lemma {:induction false} IncreasingFrom(xs: seq<real>, i: nat, j: nat)
    requires StrictlyIncreasing(xs) && i <= j < |xs|
    ensures xs[i] <= xs[j]
    decreases j - i
  {
    if i < j {
      IncreasingFrom(xs, i + 1, j);
    }
  }

  /** The interpolated curve passes through every keyframe. */
  lemma InterpolateAtBreakpoint(t: Table, k: nat)
    requires WellFormed(t) && k < |t.breakpoints|
    ensures Interpolate(t, t.breakpoints[k]) == t.outputs[k]
  {
    var bp, out := t.breakpoints, t.outputs;
    IncreasingFrom(bp, 0, k);
    IncreasingFrom(bp, k, |bp| - 1);
    if k < |bp| - 1 {
      PiecewiseOnSegment(t, k, bp[k]);
      LerpBetween(bp[k], bp[k + 1], out[k], out[k + 1], bp[k]);
    } else {
      PiecewiseOnSegment(t, k - 1, bp[k]);
      LerpBetween(bp[k - 1], bp[k], out[k - 1], out[k], bp[k]);
    }
  }

  /** Outside the table's range the value holds at the nearest end output. */
  lemma InterpolateHolds(t: Table, p: real)
    requires WellFormed(t)
    ensures p <= t.breakpoints[0] ==> Interpolate(t, p) == t.outputs[0]
    ensures p >= t.breakpoints[|t.breakpoints| - 1] ==> Interpolate(t, p) == t.outputs[|t.outputs| - 1]
  {
    var last := |t.breakpoints| - 1;
    IncreasingFrom(t.breakpoints, 0, last);
    if p <= t.breakpoints[0] {
      InterpolateAtBreakpoint(t, 0);
    }
    if p >= t.breakpoints[last] {
      InterpolateAtBreakpoint(t, last);
    }
  }

  /** Inside a segment, the value is the blend of that segment's outputs. */
  lemma InterpolateOnSegment(t: Table, k: nat, p: real)
    requires WellFormed(t) && k < |t.breakpoints| - 1
    requires t.breakpoints[k] <= p <= t.breakpoints[k + 1]
    ensures Interpolate(t, p) == Lerp(t.breakpoints[k], t.breakpoints[k + 1], t.outputs[k], t.outputs[k + 1], p)
  {
    IncreasingFrom(t.breakpoints, 0, k);
    IncreasingFrom(t.breakpoints, k + 1, |t.breakpoints| - 1);
    PiecewiseOnSegment(t, k, p);
  }

  /** Between two equal consecutive outputs the value is held constant. */
  lemma InterpolateFlat(t: Table, k: nat, p: real)
    requires WellFormed(t) && k < |t.breakpoints| - 1
    requires t.breakpoints[k] <= p <= t.breakpoints[k + 1]
    requires t.outputs[k] == t.outputs[k + 1]
    ensures Interpolate(t, p) == t.outputs[k]
  {
    InterpolateOnSegment(t, k, p);
  }

  /** With non-decreasing outputs the segment search stays between the first and last
      outputs and never decreases. */
  lemma {:induction false} PiecewiseMonotone(t: Table, v: real, w: real)
    requires WellFormed(t) && NonDecreasing(t.outputs)
    requires t.breakpoints[0] <= v <= w <= t.breakpoints[|t.breakpoints| - 1]
    ensures t.outputs[0] <= Piecewise(t, v) <= Piecewise(t, w) <= t.outputs[|t.outputs| - 1]
    decreases |t.breakpoints|
  {
    var bp, out := t.breakpoints, t.outputs;
    if |bp| == 2 {
      LerpBetween(bp[0], bp[1], out[0], out[1], v);
      LerpBetween(bp[0], bp[1], out[0], out[1], w);
      LerpMonotone(bp[0], bp[1], out[0], out[1], v, w);
    } else {
      IncreasingFrom(bp, 1, |bp| - 1);
      if w < bp[1] {
        LerpBetween(bp[0], bp[1], out[0], out[1], v);
        LerpBetween(bp[0], bp[1], out[0], out[1], w);
        LerpMonotone(bp[0], bp[1], out[0], out[1], v, w);
        assert out[1] <= out[|out| - 1] by { NonDecreasingFrom(out, 1, |out| - 1); }
      } else if v < bp[1] {
        LerpBetween(bp[0], bp[1], out[0], out[1], v);
        PiecewiseMonotone(Tail(t), bp[1], w);
      } else {
        PiecewiseMonotone(Tail(t), v, w);
      }
    }
  }

  lemma {:induction false} NonDecreasingFrom(ys: seq<real>, i: nat, j: nat)
    requires NonDecreasing(ys) && i <= j < |ys|
    ensures ys[i] <= ys[j]
    decreases j - i
  {
    if i < j {
      NonDecreasingFrom(ys, i + 1, j);
    }
  }

  /** A table with non-decreasing outputs gives a non-decreasing curve. */
  lemma InterpolateMonotone(t: Table, p: real, q: real)
    requires WellFormed(t) && NonDecreasing(t.outputs) && p <= q
    ensures t.outputs[0] <= Interpolate(t, p) <= Interpolate(t, q) <= t.outputs[|t.outputs| - 1]
  {
    IncreasingFrom(t.breakpoints, 0, |t.breakpoints| - 1);
    var last := |t.breakpoints| - 1;
    var v := if p < t.breakpoints[0] then t.breakpoints[0] else if p > t.breakpoints[last] then t.breakpoints[last] else p;
    var w := if q < t.breakpoints[0] then t.breakpoints[0] else if q > t.breakpoints[last] then t.breakpoints[last] else q;
    PiecewiseMonotone(t, v, w);
  }
}
