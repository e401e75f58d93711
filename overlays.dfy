/** The text overlays laid over the scrubbed frames: each animated style property is a
    keyframe table over the same scroll progress. */
module Overlays {
  import opened Options
  import opened Interpolation

  const HeroOpacity: Table := Table([0.0, 0.15], [1.0, 0.0])
  const HeroY: Table := Table([0.0, 0.15], [0.0, -50.0])
  const Feature1Opacity: Table := Table([0.2, 0.3, 0.4, 0.5], [0.0, 1.0, 1.0, 0.0])
  const Feature1X: Table := Table([0.2, 0.3, 0.4, 0.5], [-50.0, 0.0, 0.0, -50.0])
  const Feature2Opacity: Table := Table([0.5, 0.6, 0.7, 0.8], [0.0, 1.0, 1.0, 0.0])
  const Feature2X: Table := Table([0.5, 0.6, 0.7, 0.8], [50.0, 0.0, 0.0, 50.0])
  const CtaOpacity: Table := Table([0.8, 0.9, 1.0], [0.0, 1.0, 1.0])
  const CtaY: Table := Table([0.8, 0.9], [50.0, 0.0])
  const CtaScale: Table := Table([0.8, 0.9], [0.95, 1.0])

  function AllTables(): seq<Table> {
    [HeroOpacity, HeroY, Feature1Opacity, Feature1X, Feature2Opacity, Feature2X, CtaOpacity, CtaY, CtaScale]
  }

  /** Every table pairs each breakpoint with one output, and its breakpoints increase
      strictly, within [0, 1]. */
  lemma TablesWellFormed()
    ensures forall k :: 0 <= k < |AllTables()| ==> WellFormed(AllTables()[k])
    ensures forall k, i :: 0 <= k < |AllTables()| && 0 <= i < |AllTables()[k].breakpoints| ==>
      0.0 <= AllTables()[k].breakpoints[i] <= 1.0
  {
  }

  /** The style values of every overlay, all read from one progress sample. */
  datatype Styles = Styles(
    heroOpacity: real, heroY: real,
    feature1Opacity: real, feature1X: real,
    feature2Opacity: real, feature2X: real,
    ctaOpacity: real, ctaY: real, ctaScale: real)

  /** `TextOverlays`: nothing is rendered while the frames load; afterwards each property is
      its table's value at the progress. */
  function OverlayStyles(progress: real, isLoading: bool): (r: Option<Styles>)
    ensures isLoading <==> r.None?
    ensures r.Some? ==> 0.0 <= r.value.heroOpacity <= 1.0 && 0.0 <= r.value.feature1Opacity <= 1.0
    ensures r.Some? ==> 0.0 <= r.value.feature2Opacity <= 1.0 && 0.0 <= r.value.ctaOpacity <= 1.0
    ensures r.Some? ==> 0.95 <= r.value.ctaScale <= 1.0 && 0.0 <= r.value.ctaY <= 50.0
  {
    if isLoading then None
    else
      OpacityBounds(progress);
      Some(Styles(
        Interpolate(HeroOpacity, progress), Interpolate(HeroY, progress),
        Interpolate(Feature1Opacity, progress), Interpolate(Feature1X, progress),
        Interpolate(Feature2Opacity, progress), Interpolate(Feature2X, progress),
        Interpolate(CtaOpacity, progress), Interpolate(CtaY, progress), Interpolate(CtaScale, progress)))
  }

  /** Opacities stay within [0, 1], and the call to action scales between 0.95 and 1 while
      sliding from 50 to 0. */
  lemma OpacityBounds(p: real)
    ensures 0.0 <= Interpolate(HeroOpacity, p) <= 1.0
    ensures 0.0 <= Interpolate(Feature1Opacity, p) <= 1.0
    ensures 0.0 <= Interpolate(Feature2Opacity, p) <= 1.0
    ensures 0.0 <= Interpolate(CtaOpacity, p) <= 1.0
    ensures 0.95 <= Interpolate(CtaScale, p) <= 1.0
    ensures 0.0 <= Interpolate(CtaY, p) <= 50.0
  {
    Within(HeroOpacity, p, 0.0, 1.0);
    Within(Feature1Opacity, p, 0.0, 1.0);
    Within(Feature2Opacity, p, 0.0, 1.0);
    InterpolateMonotone(CtaOpacity, p, p);
    InterpolateMonotone(CtaScale, p, p);
    Within(CtaY, p, 0.0, 50.0);
  }

  /** When every output of a table lies in [lo, hi], so does every interpolated value. */
  lemma Within(t: Table, p: real, lo: real, hi: real)
    requires WellFormed(t)
    requires forall i :: 0 <= i < |t.outputs| ==> lo <= t.outputs[i] <= hi
    ensures lo <= Interpolate(t, p) <= hi
  {
    var bp := t.breakpoints;
    var last := |bp| - 1;
    IncreasingFrom(bp, 0, last);
    if p <= bp[0] || p >= bp[last] {
      InterpolateHolds(t, p);
    } else {
      var k := SegmentOf(bp, p);
      InterpolateOnSegment(t, k, p);
      LerpBetween(bp[k], bp[k + 1], t.outputs[k], t.outputs[k + 1], p);
    }
  }

  /** The segment of an increasing breakpoint list that holds an in-range point. */
  function SegmentOf(bp: seq<real>, p: real): (k: nat)
    requires |bp| >= 2 && StrictlyIncreasing(bp) && bp[0] <= p <= bp[|bp| - 1]
    ensures k < |bp| - 1 && bp[k] <= p <= bp[k + 1]
    decreases |bp|
  {
    if |bp| == 2 || p <= bp[1] then 0
    else 1 + SegmentOf(bp[1..], p)
  }

  /** The first feature fades in over [0.2, 0.3], holds at 1 through [0.3, 0.4], fades out
      over [0.4, 0.5] and is invisible outside [0.2, 0.5]. */
  lemma Feature1OpacityProfile(p: real)
    ensures p <= 0.2 ==> Interpolate(Feature1Opacity, p) == 0.0
    ensures 0.3 <= p <= 0.4 ==> Interpolate(Feature1Opacity, p) == 1.0
    ensures p >= 0.5 ==> Interpolate(Feature1Opacity, p) == 0.0
  {
    InterpolateHolds(Feature1Opacity, p);
    if 0.3 <= p <= 0.4 {
      InterpolateFlat(Feature1Opacity, 1, p);
    }
  }

  /** Sample values of the first feature's opacity. */
  lemma Feature1OpacitySamples()
    ensures Interpolate(Feature1Opacity, 0.1) == 0.0
    ensures Interpolate(Feature1Opacity, 0.25) == 0.5
    ensures Interpolate(Feature1Opacity, 0.35) == 1.0
    ensures Interpolate(Feature1Opacity, 0.45) == 0.5
    ensures Interpolate(Feature1Opacity, 0.6) == 0.0
  {
    Feature1OpacityProfile(0.1);
    Feature1OpacityProfile(0.35);
    Feature1OpacityProfile(0.6);
    InterpolateOnSegment(Feature1Opacity, 0, 0.25);
    InterpolateOnSegment(Feature1Opacity, 2, 0.45);
  }

  /** The second feature follows the same profile 0.3 later. */
  lemma Feature2OpacityProfile(p: real)
    ensures p <= 0.5 ==> Interpolate(Feature2Opacity, p) == 0.0
    ensures 0.6 <= p <= 0.7 ==> Interpolate(Feature2Opacity, p) == 1.0
    ensures p >= 0.8 ==> Interpolate(Feature2Opacity, p) == 0.0
  {
    InterpolateHolds(Feature2Opacity, p);
    if 0.6 <= p <= 0.7 {
      InterpolateFlat(Feature2Opacity, 1, p);
    }
  }

  /** The two features are never both visible. */
  lemma FeaturesNeverOverlap(p: real)
    ensures Interpolate(Feature1Opacity, p) == 0.0 || Interpolate(Feature2Opacity, p) == 0.0
  {
    Feature1OpacityProfile(p);
    Feature2OpacityProfile(p);
  }

  /** The call to action is fully shown from 0.9 on, and hidden up to 0.8. */
  lemma CtaOpacityProfile(p: real)
    ensures p >= 0.9 ==> Interpolate(CtaOpacity, p) == 1.0
    ensures p <= 0.8 ==> Interpolate(CtaOpacity, p) == 0.0
  {
    InterpolateHolds(CtaOpacity, p);
    if 0.9 <= p <= 1.0 {
      InterpolateFlat(CtaOpacity, 1, p);
    }
  }

  /** The hero is gone from progress 0.15 on. */
  lemma HeroOpacityProfile(p: real)
    ensures p <= 0.0 ==> Interpolate(HeroOpacity, p) == 1.0
    ensures p >= 0.15 ==> Interpolate(HeroOpacity, p) == 0.0
  {
    InterpolateHolds(HeroOpacity, p);
  }
}
