/** The scroll-scrubbed frame renderer: 26 still frames are preloaded, and the page's scroll
    progress picks the frame that is painted, "contain"-fitted, on a canvas whose backing store
    follows the device pixel ratio. */
module ScrollCanvas {
  import opened Options
  import opened Numbers
  import opened Strings
  import opened Interpolation

  const TotalFrames: nat := 26
  const FramePath: string := "/iphone_banner/ezgif-frame-"

  /** A canvas element's backing store before anything sets it (300 by 150 in HTML). */
  const DefaultCanvasWidth: nat := 300
  const DefaultCanvasHeight: nat := 150

  /** A canvas dimension is a WebIDL `unsigned long`: assignments wrap modulo 2^32. */
  const Uint32Range: int := 0x1_0000_0000

  // ---------------------------------------------------------------------------------------
  // Frame names

  /** `String(i).padStart(3, "0")`. */
  function FrameNumber(i: nat): string {
    PadStart(NatToString(i), 3, '0')
  }

  /** The resource name of frame `i` (1-based). */
  function FrameName(i: nat): string {
    FramePath + FrameNumber(i) + ".jpg"
  }

  /** Below 1000 the padded number is three digits that read back as `i`. */
  lemma FrameNumberIsThreeDigits(i: nat)
    requires i < 1000
    ensures |FrameNumber(i)| == 3 && AllDigits(FrameNumber(i))
    ensures DigitsValue(FrameNumber(i)) == i
  {
    var s := NatToString(i);
    NatToStringLength(i);
    NatToStringRoundTrip(i);
    LeadingZeros(3 - |s|, s);
    assert FrameNumber(i) == Repeat('0', 3 - |s|) + s;
  }

  /** Distinct frames are requested under distinct names. */
  lemma FrameNamesDistinct(i: nat, j: nat)
    requires i < 1000 && j < 1000 && i != j
    ensures FrameName(i) != FrameName(j)
  {
    FrameNumberIsThreeDigits(i);
    FrameNumberIsThreeDigits(j);
    var n := |FramePath|;
    assert FrameName(i)[n..n + 3] == FrameNumber(i);
    assert FrameName(j)[n..n + 3] == FrameNumber(j);
  }

  lemma FirstAndLastFrameNames()
    ensures FrameName(1) == "/iphone_banner/ezgif-frame-001.jpg"
    ensures FrameName(TotalFrames) == "/iphone_banner/ezgif-frame-026.jpg"
  {
    assert NatToString(1) == "1";
    assert NatToString(26) == "26";
  }

  /** The loader's loop: one request per frame, for i = 1 to 26, in order. */
  method FrameSources() returns (srcs: seq<string>)
    ensures |srcs| == TotalFrames
    ensures forall k :: 0 <= k < TotalFrames ==> srcs[k] == FrameName(k + 1)
  {
    srcs := [];
    var i := 1;
    while i <= TotalFrames
      invariant 1 <= i <= TotalFrames + 1
      invariant |srcs| == i - 1
      invariant forall k :: 0 <= k < i - 1 ==> srcs[k] == FrameName(k + 1)
    {
      srcs := srcs + [FrameName(i)];
      i := i + 1;
    }
  }

  // ---------------------------------------------------------------------------------------
  // Frame selection

  /** `Math.min(Math.max(Math.round(index), 0), count - 1)`: the frame painted for a
      continuous frame index. */
  function FrameIndex(index: real, count: nat): (k: nat)
    requires count > 0
    ensures k < count
    ensures 0 <= Round(index) < count ==> k == Round(index)
    ensures Round(index) < 0 ==> k == 0
    ensures Round(index) >= count ==> k == count - 1
  {
    Min(Max(Round(index), 0), count - 1)
  }

  /** The picked frame is the nearest frame to the index, moved into range. */
  lemma FrameIndexNearest(index: real, count: nat)
    requires count > 0 && 0.0 <= index <= (count - 1) as real
    ensures var k := FrameIndex(index, count); k as real - 0.5 <= index < k as real + 0.5 || k == count - 1
  {
  }

  /** framer-motion's `useTransform(scrollYProgress, [0, 1], [0, TOTAL_FRAMES - 1])`. */
  const FrameIndexTable: Table := Table([0.0, 1.0], [0.0, (TotalFrames - 1) as real])

  function FrameValue(progress: real): real {
    Interpolate(FrameIndexTable, progress)
  }

  /** The frame painted for a scroll progress once the frames are loaded. */
  function FrameForProgress(progress: real): nat {
    FrameIndex(FrameValue(progress), TotalFrames)
  }

  /** The top of the section shows the first frame and the bottom the last. */
  lemma FrameForProgressEnds()
    ensures FrameForProgress(0.0) == 0
    ensures FrameForProgress(1.0) == TotalFrames - 1
  {
    InterpolateAtBreakpoint(FrameIndexTable, 0);
    InterpolateAtBreakpoint(FrameIndexTable, 1);
  }

  /** Scrolling further never shows an earlier frame, and every progress, however far out of
      [0, 1], shows a frame within range. */
  lemma FrameForProgressMonotone(p: real, q: real)
    requires p <= q
    ensures FrameForProgress(p) <= FrameForProgress(q) < TotalFrames
  {
    InterpolateMonotone(FrameIndexTable, p, q);
    RoundMonotone(FrameValue(p), FrameValue(q));
  }

  /** Inside [0, 1] the frame is the progress scaled to 0..25 and rounded. */
  lemma FrameForProgressInRange(p: real)
    requires 0.0 <= p <= 1.0
    ensures FrameForProgress(p) == Round(p * (TotalFrames - 1) as real)
  {
    InterpolateOnSegment(FrameIndexTable, 0, p);
    InterpolateMonotone(FrameIndexTable, p, p);
  }

  // ---------------------------------------------------------------------------------------
  // Canvas geometry

  /** A decoded frame's intrinsic size. */
  datatype Image = Image(width: real, height: real)

  predicate Decoded(img: Image) {
    img.width > 0.0 && img.height > 0.0
  }

  /** Where the frame is drawn, in CSS pixels: `drawImage(img, offsetX, offsetY, drawWidth, drawHeight)`. */
  datatype DrawRect = DrawRect(offsetX: real, offsetY: real, drawWidth: real, drawHeight: real)

  /** The "contain" fit of an image into a `w` by `h` container: the whole image visible,
      its aspect kept, centred, touching two opposite sides. */
  function ContainFit(w: real, h: real, img: Image): (r: DrawRect)
    requires w > 0.0 && h > 0.0 && Decoded(img)
    ensures 0.0 <= r.offsetX && r.offsetX + r.drawWidth <= w
    ensures 0.0 <= r.offsetY && r.offsetY + r.drawHeight <= h
    ensures r.drawWidth > 0.0 && r.drawHeight > 0.0
    ensures r.drawWidth == w || r.drawHeight == h
    ensures r.drawWidth * img.height == r.drawHeight * img.width
    ensures 2.0 * r.offsetX + r.drawWidth == w && 2.0 * r.offsetY + r.drawHeight == h
  {
    var imgAspect := img.width / img.height;
    var canvasAspect := w / h;
    AspectFacts(w, h, img);
    if imgAspect > canvasAspect then
      var drawHeight := w / imgAspect;
      DrawRect(0.0, (h - drawHeight) / 2.0, w, drawHeight)
    else
      var drawWidth := h * imgAspect;
      DrawRect((w - drawWidth) / 2.0, 0.0, drawWidth, h)
  }

  /** The arithmetic behind the fit: the wider of the two aspects decides the filled axis. */
  lemma AspectFacts(w: real, h: real, img: Image)
    requires w > 0.0 && h > 0.0 && Decoded(img)
    ensures var a := img.width / img.height;
      && a > 0.0
      && (a > w / h ==> 0.0 < w / a < h && w / a * img.width == w * img.height)
      && (a <= w / h ==> 0.0 < h * a <= w && h * a * img.height == h * img.width)
  {
    var a := img.width / img.height;
    assert a * img.height == img.width;
    var c := w / h;
    assert c * h == w;
    if a > c {
      var d := w / a;
      assert d * a == w;
      assert d * a < h * a;
      assert d < h;
      assert d * img.width == d * a * img.height;
    } else {
      assert h * a <= h * c;
    }
  }

  /** The backing-store size for a CSS size and device pixel ratio: the product, truncated
      to an integer and wrapped to 32 bits as canvas dimensions are. */
  function BackingSize(css: nat, dpr: real): (n: nat)
    requires dpr > 0.0
    ensures n < Uint32Range
    ensures css as real * dpr < Uint32Range as real ==> n as real <= css as real * dpr < n as real + 1.0
  {
    var product := css as real * dpr;
    assert product >= 0.0;
    product.Floor % Uint32Range
  }

  /** With a whole-number pixel ratio the backing store is exactly ratio times the CSS size. */
  lemma BackingSizeWholeRatio(css: nat, ratio: nat)
    requires ratio > 0 && css * ratio < Uint32Range
    ensures BackingSize(css, ratio as real) == css * ratio
  {
    assert css as real * ratio as real == (css * ratio) as real;
  }

  /** `window.devicePixelRatio || 1`. */
  function EffectiveDpr(reported: real): (d: real)
    requires reported >= 0.0
    ensures d > 0.0
    ensures reported == 0.0 ==> d == 1.0
    ensures reported > 0.0 ==> d == reported
  {
    if reported == 0.0 then 1.0 else reported
  }

  // ---------------------------------------------------------------------------------------
  // Loader bookkeeping

  /** The settled state of one frame's load promise. */
  datatype Slot = Pending | Loaded(img: Image) | Errored

  function LoadedCount(slots: seq<Slot>): (n: nat)
    ensures n <= |slots|
    ensures n == |slots| <==> AllLoaded(slots)
  {
    if slots == [] then 0
    else (if slots[|slots| - 1].Loaded? then 1 else 0) + LoadedCount(slots[..|slots| - 1])
  }

  predicate AllLoaded(slots: seq<Slot>) {
    forall k :: 0 <= k < |slots| ==> slots[k].Loaded?
  }

  predicate AnyErrored(slots: seq<Slot>) {
    exists k :: 0 <= k < |slots| && slots[k].Errored?
  }

  /** What `Promise.all` resolves with: the images in frame order, not arrival order. */
  function ImagesOf(slots: seq<Slot>): (images: seq<Image>)
    requires AllLoaded(slots)
    ensures |images| == |slots| && forall k :: 0 <= k < |slots| ==> slots[k] == Loaded(images[k])
  {
    seq(|slots|, k requires 0 <= k < |slots| => slots[k].img)
  }

  /** Settling one pending promise by a load adds exactly one to the loaded count;
      settling it by an error adds nothing. */
  lemma {:induction false} LoadedCountSettle(slots: seq<Slot>, i: nat, s: Slot)
    requires i < |slots| && slots[i].Pending?
    ensures LoadedCount(slots[i := s]) == LoadedCount(slots) + (if s.Loaded? then 1 else 0)
    decreases |slots|
  {
    var last := |slots| - 1;
    assert slots[i := s][..last] == if i == last then slots[..last] else slots[..last][i := s];
    if i < last {
      LoadedCountSettle(slots[..last], i, s);
    }
  }

  /** A pending slot that loads neither adds nor removes a failure. */
  lemma LoadKeepsErrors(slots: seq<Slot>, i: nat, img: Image)
    requires i < |slots| && slots[i].Pending?
    ensures AnyErrored(slots[i := Loaded(img)]) == AnyErrored(slots)
  {
    if AnyErrored(slots) {
      var k :| 0 <= k < |slots| && slots[k].Errored?;
      assert slots[i := Loaded(img)][k].Errored?;
    }
  }

  /** While loading, the indicator shows `Math.round(loaded / 26 * 100)` percent. */
  function LoadPercent(loaded: nat): int {
    Round(loaded as real / TotalFrames as real * 100.0)
  }

  /** The percentage stays within 0..100 and reads 100 only once every frame has loaded. */
  lemma LoadPercentRange(loaded: nat)
    requires loaded <= TotalFrames
    ensures 0 <= LoadPercent(loaded) <= 100
    ensures LoadPercent(loaded) == 100 <==> loaded == TotalFrames
  {
    var x := loaded as real / TotalFrames as real * 100.0;
    assert x == loaded as real * 100.0 / 26.0;
    if loaded < TotalFrames {
      assert x <= 2500.0 / 26.0;
      assert x < 99.5;
    }
  }

  /** One image's completion, as the browser delivers it. */
  datatype LoadEvent = ImageLoaded(index: nat, img: Image) | ImageFailed(index: nat)

  function Settled(e: LoadEvent): Slot {
    if e.ImageLoaded? then Loaded(e.img) else Errored
  }

  /** The slots after a sequence of completions, applied in order. */
  function Apply(slots: seq<Slot>, events: seq<LoadEvent>): (r: seq<Slot>)
    requires forall k :: 0 <= k < |events| ==> events[k].index < |slots|
    ensures |r| == |slots|
  {
    if events == [] then slots
    else
      var e := events[|events| - 1];
      Apply(slots, events[..|events| - 1])[e.index := Settled(e)]
  }

  predicate DistinctIndices(events: seq<LoadEvent>) {
    forall a, b :: 0 <= a < b < |events| ==> events[a].index != events[b].index
  }

  function LoadCount(events: seq<LoadEvent>): nat {
    if events == [] then 0
    else (if events[|events| - 1].ImageLoaded? then 1 else 0) + LoadCount(events[..|events| - 1])
  }

  /** A slot no event names is left as it was; a slot some event names holds that event's
      outcome. */
  lemma {:induction false} ApplyAt(slots: seq<Slot>, events: seq<LoadEvent>, j: nat)
    requires forall k :: 0 <= k < |events| ==> events[k].index < |slots|
    requires DistinctIndices(events) && j < |slots|
    ensures (forall k :: 0 <= k < |events| ==> events[k].index != j) ==> Apply(slots, events)[j] == slots[j]
    ensures forall k :: 0 <= k < |events| && events[k].index == j ==> Apply(slots, events)[j] == Settled(events[k])
    decreases |events|
  {
    if events != [] {
      ApplyAt(slots, events[..|events| - 1], j);
    }
  }

  /** One more completion in the sequence settles a frame that was still pending, and counts
      when it is a load. */
  lemma DeliverStep(slots: seq<Slot>, events: seq<LoadEvent>, n: nat)
    requires forall k :: 0 <= k < |events| ==> events[k].index < |slots|
    requires forall k :: 0 <= k < |events| ==> slots[events[k].index].Pending?
    requires DistinctIndices(events) && n < |events|
    ensures Apply(slots, events[..n])[events[n].index].Pending?
    ensures Apply(slots, events[..n + 1]) == Apply(slots, events[..n])[events[n].index := Settled(events[n])]
    ensures LoadCount(events[..n + 1]) == LoadCount(events[..n]) + (if events[n].ImageLoaded? then 1 else 0)
  {
    ApplySnoc(slots, events, n);
    LoadCountSnoc(events, n);
    PendingBefore(slots, events, n);
  }

  lemma ApplySnoc(slots: seq<Slot>, events: seq<LoadEvent>, n: nat)
    requires forall k :: 0 <= k < |events| ==> events[k].index < |slots|
    requires n < |events|
    ensures Apply(slots, events[..n + 1]) == Apply(slots, events[..n])[events[n].index := Settled(events[n])]
  {
    var next := events[..n + 1];
    assert next[..|next| - 1] == events[..n] && next[|next| - 1] == events[n];
  }

  lemma LoadCountSnoc(events: seq<LoadEvent>, n: nat)
    requires n < |events|
    ensures LoadCount(events[..n + 1]) == LoadCount(events[..n]) + (if events[n].ImageLoaded? then 1 else 0)
  {
    var next := events[..n + 1];
    assert next[..|next| - 1] == events[..n] && next[|next| - 1] == events[n];
  }

  /** No earlier completion names the frame of completion `n`, so it is still pending. */
  lemma PendingBefore(slots: seq<Slot>, events: seq<LoadEvent>, n: nat)
    requires forall k :: 0 <= k < |events| ==> events[k].index < |slots|
    requires forall k :: 0 <= k < |events| ==> slots[events[k].index].Pending?
    requires DistinctIndices(events) && n < |events|
    ensures Apply(slots, events[..n])[events[n].index].Pending?
  {
    var prefix, j := events[..n], events[n].index;
    forall k | 0 <= k < |prefix| ensures prefix[k].index < |slots| && prefix[k].index != j {
      assert prefix[k] == events[k];
    }
    assert DistinctIndices(prefix) by {
      forall a, b | 0 <= a < b < |prefix| ensures prefix[a].index != prefix[b].index {
        assert prefix[a] == events[a] && prefix[b] == events[b];
      }
    }
    ApplyAt(slots, prefix, j);
  }

  /** A completion sequence that can arrive at `slots`: at most one completion per frame,
      each for a frame that is pending there, and every loaded image decoded. */
  predicate Deliverable(slots: seq<Slot>, events: seq<LoadEvent>) {
    && DistinctIndices(events)
    && (forall k :: 0 <= k < |events| ==> events[k].index < |slots|)
    && (forall k :: 0 <= k < |events| ==> slots[events[k].index].Pending?)
    && (forall k :: 0 <= k < |events| && events[k].ImageLoaded? ==> Decoded(events[k].img))
  }

  /** The next completion of a deliverable sequence, seen from the slots reached so far. */
  lemma NextEvent(slots: seq<Slot>, events: seq<LoadEvent>, n: nat, cur: seq<Slot>)
    requires Deliverable(slots, events) && n < |events| && cur == Apply(slots, events[..n])
    ensures events[n].index < |slots| && (events[n].ImageLoaded? ==> Decoded(events[n].img))
    ensures cur[events[n].index].Pending?
    ensures Apply(slots, events[..n + 1]) == cur[events[n].index := Settled(events[n])]
    ensures LoadCount(events[..n + 1]) == LoadCount(events[..n]) + (if events[n].ImageLoaded? then 1 else 0)
  {
    DeliverStep(slots, events, n);
  }

  /** A failed completion leaves its frame errored for good. */
  lemma FailureStays(slots: seq<Slot>, events: seq<LoadEvent>)
    requires forall k :: 0 <= k < |events| ==> events[k].index < |slots|
    requires DistinctIndices(events)
    ensures (exists k :: 0 <= k < |events| && events[k].ImageFailed?) ==> AnyErrored(Apply(slots, events))
  {
    if exists k :: 0 <= k < |events| && events[k].ImageFailed? {
      var k :| 0 <= k < |events| && events[k].ImageFailed?;
      ApplyAt(slots, events, events[k].index);
      assert Apply(slots, events)[events[k].index].Errored?;
    }
  }

  /** Twenty-six loads of distinct frames leave every frame loaded. */
  lemma AllDelivered(slots: seq<Slot>, events: seq<LoadEvent>)
    requires |slots| == TotalFrames && DistinctIndices(events)
    requires forall k :: 0 <= k < |events| ==> events[k].index < TotalFrames
    ensures |events| == TotalFrames && (forall k :: 0 <= k < |events| ==> events[k].ImageLoaded?) ==>
      AllLoaded(Apply(slots, events))
  {
    if |events| == TotalFrames && (forall k :: 0 <= k < |events| ==> events[k].ImageLoaded?) {
      forall j | 0 <= j < TotalFrames ensures Apply(slots, events)[j].Loaded? {
        EveryFrameNamed(events, j);
        ApplyAt(slots, events, j);
      }
    }
  }

  /** The frames named by a sequence of completions. */
  function Named(events: seq<LoadEvent>): set<nat> {
    if events == [] then {} else Named(events[..|events| - 1]) + {events[|events| - 1].index}
  }

  /** The frames 0..n-1. */
  function Frames(n: nat): (r: set<nat>)
    ensures forall k: nat :: k in r <==> k < n
  {
    if n == 0 then {} else Frames(n - 1) + {n - 1}
  }

  lemma {:induction false} NamedMembers(events: seq<LoadEvent>)
    ensures forall j :: j in Named(events) <==> exists k :: 0 <= k < |events| && events[k].index == j
  {
    if events != [] {
      var init := events[..|events| - 1];
      NamedMembers(init);
      forall j | j in Named(events) ensures exists k :: 0 <= k < |events| && events[k].index == j {
        if j in Named(init) {
          var k :| 0 <= k < |init| && init[k].index == j;
          assert events[k].index == j;
        } else {
          assert events[|events| - 1].index == j;
        }
      }
      forall j | exists k :: 0 <= k < |events| && events[k].index == j ensures j in Named(events) {
        var k :| 0 <= k < |events| && events[k].index == j;
        if k < |events| - 1 {
          assert init[k].index == j;
        }
      }
    }
  }

  lemma {:induction false} NamedSize(events: seq<LoadEvent>)
    requires DistinctIndices(events)
    ensures |Named(events)| == |events|
  {
    if events != [] {
      var init := events[..|events| - 1];
      NamedSize(init);
      NamedMembers(init);
      assert events[|events| - 1].index !in Named(init);
    }
  }

  lemma {:induction false} FramesSize(n: nat)
    ensures |Frames(n)| == n
  {
    if n > 0 {
      FramesSize(n - 1);
    }
  }

  lemma {:induction false} NamedBounded(events: seq<LoadEvent>, n: nat)
    requires forall k :: 0 <= k < |events| ==> events[k].index < n
    ensures Named(events) <= Frames(n)
  {
    if events != [] {
      NamedBounded(events[..|events| - 1], n);
    }
  }

  /** 26 completions for 26 distinct frames name every frame (pigeonhole). */
  lemma NamedAll(events: seq<LoadEvent>)
    requires |events| == TotalFrames && DistinctIndices(events)
    requires forall k :: 0 <= k < |events| ==> events[k].index < TotalFrames
    ensures Named(events) == Frames(TotalFrames)
  {
    NamedBounded(events, TotalFrames);
    NamedSize(events);
    FramesSize(TotalFrames);
    SubsetSameSize(Named(events), Frames(TotalFrames));
  }

  lemma EveryFrameNamed(events: seq<LoadEvent>, j: nat)
    requires |events| == TotalFrames && DistinctIndices(events)
    requires forall k :: 0 <= k < |events| ==> events[k].index < TotalFrames
    requires j < TotalFrames
    ensures exists k :: 0 <= k < |events| && events[k].index == j
  {
    NamedAll(events);
    assert j in Named(events);
    NamedMembers(events);
  }

  lemma SubsetSameSize(a: set<nat>, b: set<nat>)
    requires a <= b && |a| == |b|
    ensures b - a == {}
  {
    assert b == a + (b - a);
    assert |b| == |a| + |b - a|;
  }

  // ---------------------------------------------------------------------------------------
  // The component

  /** One paint of the canvas: which frame, and where. */
  datatype Draw = Draw(frame: nat, rect: DrawRect)

  class Component {
    /** The image sources the loader requested, in loop order. */
    const sources: seq<string>
    /** The 26 load promises. */
    var slots: seq<Slot>
    /** `loadProgress`: the number of successful loads so far. */
    var loadProgress: nat
    /** `Promise.all` rejected (logged to the console; nothing else happens). */
    var rejected: bool
    /** `images`: empty until every frame has loaded. */
    var images: seq<Image>
    var isLoading: bool
    /** How many times `onLoadComplete` has been called. */
    var loadCompleteCalls: nat
    /** The canvas's CSS size (`clientWidth`, `clientHeight`). */
    var clientWidth: nat
    var clientHeight: nat
    /** The canvas backing store and the context's scale. */
    var canvasWidth: nat
    var canvasHeight: nat
    var scale: real
    /** Every paint so far, oldest first. */
    var draws: seq<Draw>
    /** `scrollYProgress`. */
    var progress: real

    ghost predicate Valid()
      reads this
    {
      && LoaderValid()
      && CanvasValid()
      && DrawHistoryValid()
    }

    /** What the loader keeps: the counter is the number of loaded frames, the frames are
        stored (in order) exactly when all have loaded, and `onLoadComplete` fired at most once. */
    ghost predicate LoaderValid()
      reads this`slots, this`loadProgress, this`rejected, this`isLoading, this`images
      reads this`loadCompleteCalls
    {
      && SlotsValid()
      && isLoading == !AllLoaded(slots)
      && images == (if AllLoaded(slots) then ImagesOf(slots) else [])
      && (|images| == 0 || |images| == TotalFrames)
      && loadCompleteCalls == (if isLoading then 0 else 1)
    }

    /** The requests and what has settled of them: the counter and the rejection flag
        follow the slots. */
    ghost predicate SlotsValid()
      reads this`slots, this`loadProgress, this`rejected
    {
      && |sources| == TotalFrames
      && (forall k :: 0 <= k < TotalFrames ==> sources[k] == FrameName(k + 1))
      && |slots| == TotalFrames
      && (forall k :: 0 <= k < |slots| && slots[k].Loaded? ==> Decoded(slots[k].img))
      && loadProgress == LoadedCount(slots)
      && rejected == AnyErrored(slots)
    }

    ghost predicate CanvasValid()
      reads this`clientWidth, this`clientHeight, this`scale, this`draws, this`images
    {
      && clientWidth > 0 && clientHeight > 0 && scale > 0.0
      && (forall k :: 0 <= k < |draws| ==> draws[k].frame < |images|)
    }

    /** Nothing is painted before the frames are ready, and the first paint is frame 0. */
    ghost predicate DrawHistoryValid()
      reads this`images, this`draws
    {
      && (images == [] ==> draws == [])
      && (images != [] ==> draws != [] && draws[0].frame == 0)
    }

    /** The canvas right after `Promise.all` resolved: sized for the pixel ratio, with
        frame 0 as its one paint. */
    ghost predicate FirstPaint(reportedDpr: real)
      requires reportedDpr >= 0.0
      reads this`images, this`draws, this`clientWidth, this`clientHeight
      reads this`canvasWidth, this`canvasHeight, this`scale
    {
      var dpr := EffectiveDpr(reportedDpr);
      && clientWidth > 0 && clientHeight > 0 && |images| > 0 && Decoded(images[0])
      && canvasWidth == BackingSize(clientWidth, dpr) && canvasHeight == BackingSize(clientHeight, dpr)
      && scale == dpr
      && draws == [Draw(0, ContainFit(clientWidth as real, clientHeight as real, images[0]))]
    }

    /** Every frame request is issued, none has settled, nothing is drawn. */
    constructor (width: nat, height: nat, initialProgress: real)
      requires width > 0 && height > 0
      ensures Valid()
      ensures slots == seq(TotalFrames, _ => Pending)
      ensures loadProgress == 0 && !rejected && isLoading && images == [] && loadCompleteCalls == 0
      ensures clientWidth == width && clientHeight == height
      ensures canvasWidth == DefaultCanvasWidth && canvasHeight == DefaultCanvasHeight && scale == 1.0
      ensures draws == [] && progress == initialProgress
    {
      var srcs := FrameSources();
      sources := srcs;
      slots := seq(TotalFrames, _ => Pending);
      loadProgress := 0;
      rejected := false;
      images := [];
      isLoading := true;
      loadCompleteCalls := 0;
      clientWidth, clientHeight := width, height;
      canvasWidth, canvasHeight := DefaultCanvasWidth, DefaultCanvasHeight;
      scale := 1.0;
      draws := [];
      progress := initialProgress;
      new;
      assert LoadedCount(slots) == 0 by { NoneLoaded(slots); }
      assert !AllLoaded(slots) by { assert !slots[0].Loaded?; }
    }

    static lemma {:induction false} NoneLoaded(s: seq<Slot>)
      requires forall k :: 0 <= k < |s| ==> s[k].Pending?
      ensures LoadedCount(s) == 0
      decreases |s|
    {
      if s != [] {
        NoneLoaded(s[..|s| - 1]);
      }
    }

    /** `drawFrame(index)`: nothing happens while no frames are loaded; otherwise the backing
        store is resized to the CSS size times the pixel ratio (which also resets the context),
        the context is scaled by the ratio, and the picked frame is painted contain-fitted. */
    method DrawFrame(index: real, reportedDpr: real)
      requires LoaderValid() && CanvasValid() && reportedDpr >= 0.0
      modifies this
      ensures LoaderValid() && CanvasValid()
      ensures old(DrawHistoryValid()) ==> DrawHistoryValid()
      ensures old(images) == [] ==> unchanged(this)
      ensures old(images) != [] ==>
        var frame := FrameIndex(index, |old(images)|);
        var dpr := EffectiveDpr(reportedDpr);
        && canvasWidth == BackingSize(clientWidth, dpr)
        && canvasHeight == BackingSize(clientHeight, dpr)
        && scale == dpr
        && draws == old(draws) + [Draw(frame, ContainFit(clientWidth as real, clientHeight as real, old(images)[frame]))]
      ensures slots == old(slots) && loadProgress == old(loadProgress) && rejected == old(rejected)
      ensures images == old(images) && isLoading == old(isLoading) && loadCompleteCalls == old(loadCompleteCalls)
      ensures clientWidth == old(clientWidth) && clientHeight == old(clientHeight) && progress == old(progress)
    {
      if |images| == 0 {
        return;
      }
      var frame := FrameIndex(index, |images|);
      var img := images[frame];
      // The guard `if (!img) return;` never fires: the clamped index is always in range.
      var dpr := EffectiveDpr(reportedDpr);
      canvasWidth := BackingSize(clientWidth, dpr);
      canvasHeight := BackingSize(clientHeight, dpr);
      scale := dpr;
      assert Decoded(img) by { assert slots[frame] == Loaded(img); }
      var rect := ContainFit(clientWidth as real, clientHeight as real, img);
      draws := draws + [Draw(frame, rect)];
    }

    /** An image's `onload`: the counter goes up, and when this was the last frame
        `Promise.all` resolves, the frames are stored, loading ends, `onLoadComplete` is
        called, and the subscription effect draws frame 0. */
    method OnLoad(i: nat, img: Image, reportedDpr: real)
      requires Valid() && i < TotalFrames && slots[i].Pending? && Decoded(img) && reportedDpr >= 0.0
      modifies this
      ensures Valid()
      ensures slots == old(slots)[i := Loaded(img)]
      ensures loadProgress == old(loadProgress) + 1
      ensures rejected == old(rejected)
      ensures clientWidth == old(clientWidth) && clientHeight == old(clientHeight) && progress == old(progress)
      ensures AllLoaded(slots) ==>
        var dpr := EffectiveDpr(reportedDpr);
        && !isLoading && images == ImagesOf(slots) && loadCompleteCalls == 1
        && canvasWidth == BackingSize(clientWidth, dpr) && canvasHeight == BackingSize(clientHeight, dpr)
        && scale == dpr
        && draws == [Draw(0, ContainFit(clientWidth as real, clientHeight as real, images[0]))]
      ensures !AllLoaded(slots) ==>
        && isLoading && images == [] && loadCompleteCalls == 0 && draws == []
        && canvasWidth == old(canvasWidth) && canvasHeight == old(canvasHeight) && scale == old(scale)
    {
      LoadedCountSettle(slots, i, Loaded(img));
      LoadKeepsErrors(slots, i, img);
      slots := slots[i := Loaded(img)];
      loadProgress := loadProgress + 1;
      if AllLoaded(slots) {
        Resolve(reportedDpr);
      }
    }

    /** `Promise.all` resolves once the last frame has loaded: the frames are stored in
        order, loading ends, `onLoadComplete` is called, and frame 0 is drawn. */
    method Resolve(reportedDpr: real)
      requires SlotsValid() && CanvasValid() && AllLoaded(slots) && reportedDpr >= 0.0
      requires draws == [] && loadCompleteCalls == 0
      modifies this
      ensures Valid()
      ensures !isLoading && images == ImagesOf(slots) && loadCompleteCalls == 1
      ensures var dpr := EffectiveDpr(reportedDpr);
        && canvasWidth == BackingSize(clientWidth, dpr) && canvasHeight == BackingSize(clientHeight, dpr)
        && scale == dpr
        && draws == [Draw(0, ContainFit(clientWidth as real, clientHeight as real, images[0]))]
      ensures slots == old(slots) && loadProgress == old(loadProgress) && rejected == old(rejected)
      ensures clientWidth == old(clientWidth) && clientHeight == old(clientHeight) && progress == old(progress)
    {
      images := ImagesOf(slots);
      isLoading := false;
      loadCompleteCalls := loadCompleteCalls + 1;
      DrawFrame(0.0, reportedDpr);
    }

    /** An image's `onerror`: its promise rejects, and with it `Promise.all`; loading never
        ends after that. */
    method OnError(i: nat)
      requires Valid() && i < TotalFrames && slots[i].Pending?
      modifies this
      ensures Valid()
      ensures slots == old(slots)[i := Errored]
      ensures rejected && isLoading && loadCompleteCalls == 0
      ensures loadProgress == old(loadProgress) && images == old(images) == []
      ensures draws == old(draws) && canvasWidth == old(canvasWidth) && canvasHeight == old(canvasHeight)
      ensures scale == old(scale) && clientWidth == old(clientWidth) && clientHeight == old(clientHeight)
      ensures progress == old(progress)
    {
      LoadedCountSettle(slots, i, Errored);
      slots := slots[i := Errored];
      assert slots[i].Errored?;
      rejected := true;
      assert !AllLoaded(slots) by { assert !slots[i].Loaded?; }
      assert !AllLoaded(old(slots)) by { assert !old(slots)[i].Loaded?; }
    }

    /** One completion, whichever kind it is. */
    method Settle(e: LoadEvent, reportedDpr: real)
      requires Valid() && e.index < TotalFrames && slots[e.index].Pending? && reportedDpr >= 0.0
      requires e.ImageLoaded? ==> Decoded(e.img)
      modifies this
      ensures Valid()
      ensures slots == old(slots)[e.index := Settled(e)]
      ensures loadProgress == old(loadProgress) + (if e.ImageLoaded? then 1 else 0)
      ensures clientWidth == old(clientWidth) && clientHeight == old(clientHeight) && progress == old(progress)
      ensures !AllLoaded(slots) ==>
        && draws == old(draws) && canvasWidth == old(canvasWidth) && canvasHeight == old(canvasHeight)
        && scale == old(scale)
      ensures AllLoaded(slots) ==> FirstPaint(reportedDpr)
    {
      if e.ImageLoaded? {
        OnLoad(e.index, e.img, reportedDpr);
      } else {
        OnError(e.index);
      }
    }

    /** The completions arriving one at a time, each for a frame still pending. */
    method Deliver(events: seq<LoadEvent>, reportedDpr: real)
      requires Valid() && reportedDpr >= 0.0 && DistinctIndices(events)
      requires forall k :: 0 <= k < |events| ==> events[k].index < TotalFrames
      requires forall k :: 0 <= k < |events| ==> slots[events[k].index].Pending?
      requires forall k :: 0 <= k < |events| && events[k].ImageLoaded? ==> Decoded(events[k].img)
      modifies this
      ensures Valid()
      ensures slots == Apply(old(slots), events)
      ensures loadProgress == old(loadProgress) + LoadCount(events)
      ensures clientWidth == old(clientWidth) && clientHeight == old(clientHeight) && progress == old(progress)
      ensures AllLoaded(old(slots)) || !AllLoaded(slots) ==>
        && isLoading == old(isLoading) && images == old(images) && loadCompleteCalls == old(loadCompleteCalls)
        && draws == old(draws) && canvasWidth == old(canvasWidth) && canvasHeight == old(canvasHeight)
        && scale == old(scale)
      ensures (exists k :: 0 <= k < |events| && events[k].ImageFailed?) ==>
        !AllLoaded(slots) && isLoading && loadCompleteCalls == 0
      ensures |events| == TotalFrames && (forall k :: 0 <= k < |events| ==> events[k].ImageLoaded?) ==>
        var dpr := EffectiveDpr(reportedDpr);
        && !isLoading && images == ImagesOf(slots) && loadCompleteCalls == 1
        && canvasWidth == BackingSize(clientWidth, dpr) && canvasHeight == BackingSize(clientHeight, dpr)
        && scale == dpr
        && draws == [Draw(0, ContainFit(clientWidth as real, clientHeight as real, images[0]))]
    {
      ghost var before := slots;
      assert Deliverable(slots, events);
      SettleEach(events, reportedDpr);
      FailureStays(before, events);
      AllDelivered(before, events);
      if |events| > 0 {
        assert !before[events[0].index].Loaded?;
      }
    }

    /** The loop of `Deliver`: each completion settled in arrival order. */
    method SettleEach(events: seq<LoadEvent>, reportedDpr: real)
      requires Valid() && reportedDpr >= 0.0 && Deliverable(slots, events)
      modifies this
      ensures Valid()
      ensures slots == Apply(old(slots), events)
      ensures loadProgress == old(loadProgress) + LoadCount(events)
      ensures clientWidth == old(clientWidth) && clientHeight == old(clientHeight) && progress == old(progress)
      ensures AllLoaded(old(slots)) || !AllLoaded(slots) ==>
        && draws == old(draws) && canvasWidth == old(canvasWidth) && canvasHeight == old(canvasHeight)
        && scale == old(scale)
      ensures !AllLoaded(old(slots)) && AllLoaded(slots) ==> FirstPaint(reportedDpr)
    {
      if |events| > 0 {
        assert !slots[events[0].index].Loaded?;
      }
      var n := 0;
      while n < |events|
        invariant Valid() && 0 <= n <= |events|
        invariant slots == Apply(old(slots), events[..n])
        invariant loadProgress == old(loadProgress) + LoadCount(events[..n])
        invariant clientWidth == old(clientWidth) && clientHeight == old(clientHeight) && progress == old(progress)
        invariant AllLoaded(old(slots)) || !AllLoaded(slots) ==>
          && draws == old(draws) && canvasWidth == old(canvasWidth) && canvasHeight == old(canvasHeight)
          && scale == old(scale)
        invariant !AllLoaded(old(slots)) && AllLoaded(slots) ==> FirstPaint(reportedDpr)
      {
        NextEvent(old(slots), events, n, slots);
        Settle(events[n], reportedDpr);
        n := n + 1;
      }
      assert events[..n] == events;
    }

    /** A scroll sample: the progress is replaced, and when the frame index value changes
        (framer-motion notifies only changes) a loaded component redraws at the new value. */
    method OnScroll(p: real, reportedDpr: real)
      requires Valid() && reportedDpr >= 0.0
      modifies this
      ensures Valid()
      ensures slots == old(slots) && images == old(images) && isLoading == old(isLoading)
      ensures loadProgress == old(loadProgress) && rejected == old(rejected)
      ensures loadCompleteCalls == old(loadCompleteCalls)
      ensures progress == p
      ensures old(images) != [] && FrameValue(p) != FrameValue(old(progress)) ==>
        var frame := FrameForProgress(p);
        var dpr := EffectiveDpr(reportedDpr);
        && draws == old(draws) + [Draw(frame, ContainFit(clientWidth as real, clientHeight as real, images[frame]))]
        && canvasWidth == BackingSize(clientWidth, dpr) && canvasHeight == BackingSize(clientHeight, dpr)
        && scale == dpr
      ensures old(images) == [] || FrameValue(p) == FrameValue(old(progress)) ==>
        && draws == old(draws) && canvasWidth == old(canvasWidth) && canvasHeight == old(canvasHeight)
        && scale == old(scale)
      ensures clientWidth == old(clientWidth) && clientHeight == old(clientHeight)
    {
      var before := FrameValue(progress);
      progress := p;
      var after := FrameValue(p);
      if |images| > 0 && after != before {
        DrawFrame(after, reportedDpr);
      }
    }

    /** A window resize: the canvas takes its new CSS size and, once loaded, the frame of the
        current progress is redrawn against it (not frame 0). */
    method OnResize(width: nat, height: nat, reportedDpr: real)
      requires Valid() && width > 0 && height > 0 && reportedDpr >= 0.0
      modifies this
      ensures Valid()
      ensures slots == old(slots) && images == old(images) && isLoading == old(isLoading)
      ensures loadProgress == old(loadProgress) && rejected == old(rejected)
      ensures loadCompleteCalls == old(loadCompleteCalls)
      ensures clientWidth == width && clientHeight == height && progress == old(progress)
      ensures old(images) != [] ==>
        var frame := FrameForProgress(progress);
        var dpr := EffectiveDpr(reportedDpr);
        && draws == old(draws) + [Draw(frame, ContainFit(width as real, height as real, images[frame]))]
        && canvasWidth == BackingSize(width, dpr) && canvasHeight == BackingSize(height, dpr)
        && scale == dpr
      ensures old(images) == [] ==>
        && draws == old(draws) && canvasWidth == old(canvasWidth) && canvasHeight == old(canvasHeight)
        && scale == old(scale)
    {
      clientWidth, clientHeight := width, height;
      if |images| > 0 {
        DrawFrame(FrameValue(progress), reportedDpr);
      }
    }

    /** The percentage the loading indicator shows. */
    function ShownPercent(): (percent: int)
      requires Valid()
      reads this
      ensures 0 <= percent <= 100
      ensures percent == 100 <==> !isLoading
    {
      LoadPercentRange(loadProgress);
      LoadPercent(loadProgress)
    }
  }

  /** An error is terminal: no later completion makes the frames ready. */
  lemma ErrorIsTerminal(slots: seq<Slot>, events: seq<LoadEvent>)
    requires AnyErrored(slots) && DistinctIndices(events)
    requires forall k :: 0 <= k < |events| ==> events[k].index < |slots|
    requires forall k :: 0 <= k < |events| ==> slots[events[k].index].Pending?
    ensures !AllLoaded(Apply(slots, events))
  {
    var j :| 0 <= j < |slots| && slots[j].Errored?;
    ApplyAt(slots, events, j);
    assert !Apply(slots, events)[j].Loaded?;
  }
}
