// The scan for satellite passes (src/trx-core/src/geo.rs:489-556), over any sky: what the
// propagator and the observer's geometry say of each scan instant, if anything.
module PassScan {
  import opened Basics

  const STEP_MS := 30_000
  const U64 := 0x1_0000_0000_0000_0000

  datatype Look = Look(el: real, az: real)

  // By the number of the scan instant. Propagation may fail.
  type Sky = nat -> Option<Look>

  datatype Pass = Pass(aosMs: int, losMs: int, maxElevation: real, azimuthAos: real, azimuthLos: real, durationS: int)

  // To one decimal, half away from zero.
  function Tenths(x: real): real {
    (if x >= 0.0 then (10.0 * x + 0.5).Floor else -((0.5 - 10.0 * x).Floor)) as real / 10.0
  }

  predicate Visible(sky: Sky, i: nat) {
    sky(i).Some? && sky(i).value.el > 0.0
  }

  // Propagated, and not above the horizon.
  predicate Set(sky: Sky, i: nat) {
    sky(i).Some? && sky(i).value.el <= 0.0
  }

  // ---- what the passes are ------------------------------------------------------------------

  // Scan instants from the first visible one up to, not including, `end`.
  datatype Span = Span(first: nat, end: nat)

  // The number of scan instants in a window; a negative one has none.
  function Instants(windowMs: int): nat {
    if windowMs < 0 then 0 else windowMs / STEP_MS + 1
  }

  // A span starts visible and has no propagated instant at or below the horizon. It ends with
  // the first such instant, or with the window.
  ghost predicate IsSpan(sky: Sky, n: nat, s: Span) {
    && s.first < s.end <= n
    && Visible(sky, s.first)
    && (forall i :: s.first <= i < s.end ==> !Set(sky, i))
    && (s.end < n ==> Set(sky, s.end))
  }

  ghost predicate InSpan(s: Span, i: nat) {
    s.first <= i < s.end
  }

  ghost predicate Ordered(spans: seq<Span>) {
    forall j, k :: 0 <= j < k < |spans| ==> spans[j].end < spans[k].first
  }

  ghost predicate Covered(sky: Sky, spans: seq<Span>, n: nat) {
    forall i :: 0 <= i < n && Visible(sky, i) ==> exists k :: 0 <= k < |spans| && InSpan(spans[k], i)
  }

  // All passes: in order and apart, and every visible instant is in one of them.
  ghost predicate AllSpans(sky: Sky, n: nat, spans: seq<Span>) {
    && (forall k :: 0 <= k < |spans| ==> IsSpan(sky, n, spans[k]))
    && Ordered(spans)
    && Covered(sky, spans, n)
  }

  // The greatest elevation among the visible instants of a span.
  function MaxElevation(sky: Sky, first: nat, end: nat): real
    requires first < end && Visible(sky, first)
  {
    if end == first + 1 then sky(first).value.el
    else
      var before := MaxElevation(sky, first, end - 1);
      if Visible(sky, end - 1) && sky(end - 1).value.el > before then sky(end - 1).value.el else before
  }

  // The azimuth of the last instant that was propagated.
  function LastAzimuth(sky: Sky, end: nat): real {
    if end == 0 then 0.0 else if sky(end - 1).Some? then sky(end - 1).value.az else LastAzimuth(sky, end - 1)
  }

  function PassOf(sky: Sky, startMs: int, windowMs: int, s: Span): Pass
    requires s.first < s.end && Visible(sky, s.first)
  {
    var aos := startMs + s.first * STEP_MS;
    var los := if s.end < Instants(windowMs) then startMs + s.end * STEP_MS else startMs + windowMs;
    Pass(aos, los, Tenths(MaxElevation(sky, s.first, s.end)), Tenths(sky(s.first).value.az),
         Tenths(LastAzimuth(sky, s.end)), (los - aos) / 1000)
  }

  ghost predicate PassesOf(sky: Sky, startMs: int, windowMs: int, spans: seq<Span>, passes: seq<Pass>) {
    && |passes| == |spans|
    && forall k :: 0 <= k < |spans| ==> spans[k].first < spans[k].end && Visible(sky, spans[k].first)
                                        && passes[k] == PassOf(sky, startMs, windowMs, spans[k])
  }

  // The passes of a window: those of the one division of the sky into spans.
  ghost predicate ArePasses(sky: Sky, startMs: int, windowMs: int, passes: seq<Pass>) {
    exists spans :: AllSpans(sky, Instants(windowMs), spans) && PassesOf(sky, startMs, windowMs, spans, passes)
  }

  // ---- the scan ---------------------------------------------------------------------------------

  lemma InstantRange(windowMs: int, i: nat)
    ensures i * STEP_MS <= windowMs <==> i < Instants(windowMs)
  {
  }

  lemma CoveredMore(sky: Sky, spans: seq<Span>, s: Span, n: nat)
    requires Covered(sky, spans, s.first) && s.first <= n && forall i :: s.end <= i < n ==> !Visible(sky, i)
    ensures Covered(sky, spans + [s], n)
  {
    forall i | 0 <= i < n && Visible(sky, i) ensures exists k :: 0 <= k < |spans + [s]| && InSpan((spans + [s])[k], i) {
      if i < s.first {
        var k :| 0 <= k < |spans| && InSpan(spans[k], i);
        assert InSpan((spans + [s])[k], i);
      } else {
        assert InSpan((spans + [s])[|spans|], i);
      }
    }
  }

  // The passes that have ended before an instant, with nothing visible left out.
  ghost predicate Scanned(sky: Sky, startMs: int, windowMs: int, spans: seq<Span>, passes: seq<Pass>, upTo: nat) {
    && upTo <= Instants(windowMs)
    && (forall k :: 0 <= k < |spans| ==> IsSpan(sky, Instants(windowMs), spans[k]) && spans[k].end < upTo)
    && Ordered(spans)
    && Covered(sky, spans, upTo)
    && PassesOf(sky, startMs, windowMs, spans, passes)
  }

  lemma ScannedDark(sky: Sky, startMs: int, windowMs: int, spans: seq<Span>, passes: seq<Pass>, i: nat)
    requires Scanned(sky, startMs, windowMs, spans, passes, i) && i < Instants(windowMs) && !Visible(sky, i)
    ensures Scanned(sky, startMs, windowMs, spans, passes, i + 1)
  {
  }

  // A pass that ends at a scan instant, or with the window.
  lemma ScannedPass(sky: Sky, startMs: int, windowMs: int, spans: seq<Span>, passes: seq<Pass>, s: Span)
    requires IsSpan(sky, Instants(windowMs), s) && Scanned(sky, startMs, windowMs, spans, passes, s.first)
    ensures s.end < Instants(windowMs)
            ==> Scanned(sky, startMs, windowMs, spans + [s], passes + [PassOf(sky, startMs, windowMs, s)], s.end + 1)
    ensures s.end == Instants(windowMs) ==> AllSpans(sky, Instants(windowMs), spans + [s])
                                            && PassesOf(sky, startMs, windowMs, spans + [s],
                                                        passes + [PassOf(sky, startMs, windowMs, s)])
  {
    hide PassOf, MaxElevation, Instants, Covered;
    var n := Instants(windowMs);
    CoveredMore(sky, spans, s, if s.end < n then s.end + 1 else n);
  }

  // The pass that a scan is in.
  ghost predicate Tracked(sky: Sky, startMs: int, first: nat, i: nat, aosMs: int, aosAz: real, maxEl: real) {
    && first < i && Visible(sky, first)
    && (forall j :: first <= j < i ==> !Set(sky, j))
    && aosMs == startMs + first * STEP_MS && aosAz == sky(first).value.az && maxEl == MaxElevation(sky, first, i)
  }

  lemma PassEnds(sky: Sky, startMs: int, windowMs: int, first: nat, i: nat, aosMs: int, aosAz: real, maxEl: real,
                 losMs: int)
    requires Tracked(sky, startMs, first, i, aosMs, aosAz, maxEl) && i <= Instants(windowMs)
    requires i < Instants(windowMs) ==> Set(sky, i) && losMs == startMs + i * STEP_MS
    requires i == Instants(windowMs) ==> losMs == startMs + windowMs
    ensures IsSpan(sky, Instants(windowMs), Span(first, i))
    ensures PassOf(sky, startMs, windowMs, Span(first, i))
            == Pass(aosMs, losMs, Tenths(maxEl), Tenths(aosAz), Tenths(LastAzimuth(sky, i)), (losMs - aosMs) / 1000)
  {
    hide Tenths, MaxElevation, LastAzimuth;
  }

  lemma TrackedOn(sky: Sky, startMs: int, first: nat, i: nat, aosMs: int, aosAz: real, maxEl: real)
    requires Tracked(sky, startMs, first, i, aosMs, aosAz, maxEl) && !Set(sky, i)
    ensures Tracked(sky, startMs, first, i + 1, aosMs, aosAz,
                    if Visible(sky, i) && sky(i).value.el > maxEl then sky(i).value.el else maxEl)
  {
  }

  // The bound on the number of steps: a quotient cut to zero, cast to 64 bits, and two more.
  method StepBound(windowMs: int) returns (nSteps: nat)
    requires -0x8000_0000_0000_0000 <= windowMs < 0x8000_0000_0000_0000
    ensures windowMs >= 0 ==> nSteps == Instants(windowMs) + 1
  {
    var quotient := if windowMs >= 0 then windowMs / STEP_MS else -(-windowMs / STEP_MS);
    nSteps := (quotient % U64 + 2) % U64;
  }

  // The window is a signed 64-bit number.
  method FindPasses(sky: Sky, startMs: int, windowMs: int) returns (passes: seq<Pass>)
    requires -0x8000_0000_0000_0000 <= windowMs < 0x8000_0000_0000_0000
    ensures ArePasses(sky, startMs, windowMs, passes)
  {
    hide Scanned, Tracked, Tenths, LastAzimuth, PassOf, IsSpan, AllSpans, PassesOf;
    var nSteps := StepBound(windowMs);
    ghost var n := Instants(windowMs);
    passes := [];
    ghost var spans: seq<Span> := [];
    var inPass, aosMs, aosAz, maxEl, prevAz := false, 0, 0.0, 0.0, 0.0;
    ghost var first: nat := 0;
    NothingScanned(sky, startMs, windowMs);
    var i := 0;
    while i < nSteps
      invariant 0 <= i <= n
      invariant Scanned(sky, startMs, windowMs, spans, passes, if inPass then first else i)
      invariant inPass ==> Tracked(sky, startMs, first, i, aosMs, aosAz, maxEl)
      invariant prevAz == LastAzimuth(sky, i)
    {
      InstantRange(windowMs, i);
      var tMs := startMs + i * STEP_MS;
      if tMs > startMs + windowMs {
        break;
      }
      AzimuthOn(sky, i);
      var look := sky(i);
      if look.Some? {
        var el, az := look.value.el, look.value.az;
        if el > 0.0 {
          if !inPass {
            inPass, aosMs, aosAz, maxEl := true, tMs, az, el;
            first := i;
            TrackedFirst(sky, startMs, i);
          } else {
            TrackedOn(sky, startMs, first, i, aosMs, aosAz, maxEl);
            if el > maxEl {
              maxEl := el;
            }
          }
        } else if inPass {
          PassEnds(sky, startMs, windowMs, first, i, aosMs, aosAz, maxEl, tMs);
          ScannedPass(sky, startMs, windowMs, spans, passes, Span(first, i));
          passes := passes + [Pass(aosMs, tMs, Tenths(maxEl), Tenths(aosAz), Tenths(prevAz), (tMs - aosMs) / 1000)];
          spans := spans + [Span(first, i)];
          inPass, maxEl := false, 0.0;
        } else {
          ScannedDark(sky, startMs, windowMs, spans, passes, i);
        }
        prevAz := az;
      } else if inPass {
        TrackedOn(sky, startMs, first, i, aosMs, aosAz, maxEl);
      } else {
        ScannedDark(sky, startMs, windowMs, spans, passes, i);
      }
      i := i + 1;
    }
    if inPass {
      var losMs := startMs + windowMs;
      PassEnds(sky, startMs, windowMs, first, n, aosMs, aosAz, maxEl, losMs);
      ScannedPass(sky, startMs, windowMs, spans, passes, Span(first, n));
      passes := passes + [Pass(aosMs, losMs, Tenths(maxEl), Tenths(aosAz), Tenths(prevAz), (losMs - aosMs) / 1000)];
      spans := spans + [Span(first, n)];
    } else {
      AllScanned(sky, startMs, windowMs, spans, passes);
    }
  }

  lemma NothingScanned(sky: Sky, startMs: int, windowMs: int)
    ensures Scanned(sky, startMs, windowMs, [], [], 0) && LastAzimuth(sky, 0) == 0.0
  {
  }

  lemma AllScanned(sky: Sky, startMs: int, windowMs: int, spans: seq<Span>, passes: seq<Pass>)
    requires Scanned(sky, startMs, windowMs, spans, passes, Instants(windowMs))
    ensures AllSpans(sky, Instants(windowMs), spans) && PassesOf(sky, startMs, windowMs, spans, passes)
  {
  }

  lemma AzimuthOn(sky: Sky, i: nat)
    ensures LastAzimuth(sky, i + 1) == if sky(i).Some? then sky(i).value.az else LastAzimuth(sky, i)
  {
  }

  lemma TrackedFirst(sky: Sky, startMs: int, i: nat)
    requires Visible(sky, i)
    ensures Tracked(sky, startMs, i, i + 1, startMs + i * STEP_MS, sky(i).value.az, sky(i).value.el)
  {
  }

  // ---- what follows for the passes ---------------------------------------------------------------

  // The elevation of a pass is reached, and nowhere exceeded.
  lemma {:induction false} MaxElevationIs(sky: Sky, first: nat, end: nat)
    requires first < end && Visible(sky, first)
    ensures exists i :: first <= i < end && Visible(sky, i) && sky(i).value.el == MaxElevation(sky, first, end)
    ensures forall i :: first <= i < end && Visible(sky, i) ==> sky(i).value.el <= MaxElevation(sky, first, end)
    decreases end
  {
    if end == first + 1 {
    } else {
      MaxElevationIs(sky, first, end - 1);
    }
  }

  // The pass that an instant visible in the k-th pass of one list belongs to in another one
  // that agrees up to there.
  lemma LaterSpan(sky: Sky, n: nat, a: seq<Span>, b: seq<Span>, k: nat)
    requires AllSpans(sky, n, a) && AllSpans(sky, n, b) && k < |a| && k <= |b| && a[..k] == b[..k]
    ensures k < |b| && b[k].first <= a[k].first
  {
    forall j | 0 <= j < k ensures !InSpan(b[j], a[k].first) {
      assert a[j] == a[..k][j] == b[..k][j] == b[j];
    }
    var m :| 0 <= m < |b| && InSpan(b[m], a[k].first);
    assert m > k ==> b[k].end < b[m].first && IsSpan(sky, n, b[k]);
  }

  lemma SameEnd(sky: Sky, n: nat, s: Span, t: Span)
    requires IsSpan(sky, n, s) && IsSpan(sky, n, t) && s.first == t.first
    ensures s == t
  {
    assert s.end < t.end ==> Set(sky, s.end);
    assert t.end < s.end ==> Set(sky, t.end);
  }

  // There is only one way to divide a sky into passes.
  lemma {:induction false} SpansAreUnique(sky: Sky, n: nat, a: seq<Span>, b: seq<Span>, k: nat)
    requires AllSpans(sky, n, a) && AllSpans(sky, n, b) && k <= |a| && k <= |b|
    requires a[..k] == b[..k]
    ensures a == b
    decreases |a| - k
  {
    hide IsSpan, Ordered, Covered;
    if k < |a| {
      LaterSpan(sky, n, a, b, k);
      LaterSpan(sky, n, b, a, k);
      SameEnd(sky, n, a[k], b[k]);
      assert a[..k + 1] == a[..k] + [a[k]] && b[..k + 1] == b[..k] + [b[k]];
      SpansAreUnique(sky, n, a, b, k + 1);
    } else if k < |b| {
      LaterSpan(sky, n, b, a, k);
    } else {
      assert a[..k] == a && b[..k] == b;
    }
  }

  // So there is only one list of passes, the one that FindPasses returns.
  lemma PassesAreUnique(sky: Sky, startMs: int, windowMs: int, a: seq<Pass>, b: seq<Pass>)
    requires ArePasses(sky, startMs, windowMs, a) && ArePasses(sky, startMs, windowMs, b)
    ensures a == b
  {
    hide AllSpans, PassOf;
    var n := Instants(windowMs);
    var s :| AllSpans(sky, n, s) && PassesOf(sky, startMs, windowMs, s, a);
    var t :| AllSpans(sky, n, t) && PassesOf(sky, startMs, windowMs, t, b);
    SpansAreUnique(sky, n, s, t, 0);
  }

  // ---- what a pass reports -----------------------------------------------------------------------

  // That many tenths are nearest, halves away from zero.
  ghost predicate Nearest(x: real, n: int) {
    if x >= 0.0 then n as real - 0.5 <= 10.0 * x < n as real + 0.5 else n as real - 0.5 < 10.0 * x <= n as real + 0.5
  }

  ghost predicate NearestTenth(x: real, reported: real) {
    exists n :: Nearest(x, n) && reported == n as real / 10.0
  }

  lemma TenthsIs(x: real)
    ensures NearestTenth(x, Tenths(x)) && -0.05 <= Tenths(x) - x <= 0.05
  {
    var n := if x >= 0.0 then (10.0 * x + 0.5).Floor else -((0.5 - 10.0 * x).Floor);
    assert Nearest(x, n);
  }

  // An elevation of the span that is nowhere exceeded.
  ghost predicate Culminates(sky: Sky, s: Span, el: real) {
    && (exists i :: s.first <= i < s.end && Visible(sky, i) && sky(i).value.el == el)
    && forall i :: s.first <= i < s.end && sky(i).Some? ==> sky(i).value.el <= el
  }

  // The azimuth of the last propagated instant of the span.
  ghost predicate LeavesAt(sky: Sky, s: Span, az: real) {
    exists i :: s.first <= i < s.end && sky(i).Some? && sky(i).value.az == az
                && forall j :: i < j < s.end ==> sky(j).None?
  }

  // A pass from the first instant of its span to the scan instant that ends it, or to the end of the
  // window: its greatest elevation, and the azimuths with which it comes and goes.
  ghost predicate Reports(sky: Sky, startMs: int, windowMs: int, s: Span, p: Pass) {
    && Visible(sky, s.first)
    && p.aosMs == startMs + 30_000 * s.first
    && p.losMs == startMs + (if 30_000 * s.end <= windowMs then 30_000 * s.end else windowMs)
    && 1000 * p.durationS <= p.losMs - p.aosMs < 1000 * (p.durationS + 1)
    && (exists el :: Culminates(sky, s, el) && NearestTenth(el, p.maxElevation))
    && NearestTenth(sky(s.first).value.az, p.azimuthAos)
    && (exists az :: LeavesAt(sky, s, az) && NearestTenth(az, p.azimuthLos))
  }

  lemma {:induction false} LastAzimuthIs(sky: Sky, s: Span)
    requires s.first < s.end && Visible(sky, s.first)
    ensures LeavesAt(sky, s, LastAzimuth(sky, s.end))
    decreases s.end
  {
    if sky(s.end - 1).None? {
      var shorter := Span(s.first, s.end - 1);
      LastAzimuthIs(sky, shorter);
    }
  }

  lemma PassReports(sky: Sky, startMs: int, windowMs: int, s: Span)
    requires IsSpan(sky, Instants(windowMs), s)
    ensures Reports(sky, startMs, windowMs, s, PassOf(sky, startMs, windowMs, s))
  {
    hide Tenths, NearestTenth, LeavesAt, LastAzimuth, MaxElevation;
    var el, az := MaxElevation(sky, s.first, s.end), LastAzimuth(sky, s.end);
    MaxElevationIs(sky, s.first, s.end);
    TenthsIs(el);
    TenthsIs(az);
    TenthsIs(sky(s.first).value.az);
    LastAzimuthIs(sky, s);
    assert Culminates(sky, s, el);
    InstantRange(windowMs, s.end);
  }

  // So every pass that FindPasses returns is the report of one span, in their order.
  lemma PassesReport(sky: Sky, startMs: int, windowMs: int, passes: seq<Pass>)
    requires ArePasses(sky, startMs, windowMs, passes)
    ensures exists spans :: AllSpans(sky, Instants(windowMs), spans)
                            && ReportsAll(sky, startMs, windowMs, spans, passes)
  {
    var spans :| AllSpans(sky, Instants(windowMs), spans) && PassesOf(sky, startMs, windowMs, spans, passes);
    SpansReport(sky, startMs, windowMs, spans, passes);
  }

  ghost predicate During(startMs: int, p: Pass, i: nat) {
    p.aosMs <= startMs + 30_000 * i < p.losMs
  }

  ghost predicate InSome(startMs: int, passes: seq<Pass>, i: nat) {
    exists k :: 0 <= k < |passes| && During(startMs, passes[k], i)
  }

  // In the returned list itself: the passes follow one another, and an instant inside the window
  // that could be propagated is in one of them exactly if the satellite is above the horizon; if
  // it is there at the end of the window, the last pass lasts until then.
  lemma PassesCover(sky: Sky, startMs: int, windowMs: int, passes: seq<Pass>, i: nat)
    requires ArePasses(sky, startMs, windowMs, passes)
    ensures forall j, k :: 0 <= j < k < |passes| ==> passes[j].losMs < passes[k].aosMs
    ensures 30_000 * i < windowMs && sky(i).Some? ==> (sky(i).value.el > 0.0 <==> InSome(startMs, passes, i))
    ensures 30_000 * i == windowMs && sky(i).Some? && sky(i).value.el > 0.0
            ==> passes != [] && passes[|passes| - 1].losMs == startMs + windowMs
  {
    hide PassOf, AllSpans;
    var n := Instants(windowMs);
    var spans: seq<Span> :| AllSpans(sky, n, spans) && PassesOf(sky, startMs, windowMs, spans, passes);
    SpansReport(sky, startMs, windowMs, spans, passes);
    SpansOrder(sky, startMs, windowMs, spans, passes);
    InstantRange(windowMs, i);
    if 30_000 * i < windowMs && sky(i).Some? {
      SpansCover(sky, startMs, windowMs, spans, passes, i);
    }
    if 30_000 * i == windowMs && Visible(sky, i) {
      LastSpan(sky, n, spans);
    }
  }

  ghost predicate ReportsAll(sky: Sky, startMs: int, windowMs: int, spans: seq<Span>, passes: seq<Pass>) {
    |spans| == |passes| && forall k :: 0 <= k < |spans| ==> Reports(sky, startMs, windowMs, spans[k], passes[k])
  }

  lemma SpansReport(sky: Sky, startMs: int, windowMs: int, spans: seq<Span>, passes: seq<Pass>)
    requires AllSpans(sky, Instants(windowMs), spans) && PassesOf(sky, startMs, windowMs, spans, passes)
    ensures ReportsAll(sky, startMs, windowMs, spans, passes)
  {
    hide Reports, PassOf, IsSpan;
    forall k | 0 <= k < |spans| ensures Reports(sky, startMs, windowMs, spans[k], passes[k]) {
      PassReports(sky, startMs, windowMs, spans[k]);
    }
  }

  lemma SpansOrder(sky: Sky, startMs: int, windowMs: int, spans: seq<Span>, passes: seq<Pass>)
    requires AllSpans(sky, Instants(windowMs), spans) && ReportsAll(sky, startMs, windowMs, spans, passes)
    ensures forall j, k :: 0 <= j < k < |passes| ==> passes[j].losMs < passes[k].aosMs
  {
    forall j, k | 0 <= j < k < |passes| ensures passes[j].losMs < passes[k].aosMs {
      assert Reports(sky, startMs, windowMs, spans[j], passes[j]);
      assert Reports(sky, startMs, windowMs, spans[k], passes[k]);
      assert spans[j].end < spans[k].first;
      assert IsSpan(sky, Instants(windowMs), spans[k]);
      InstantRange(windowMs, spans[j].end);
    }
  }

  lemma SpansCover(sky: Sky, startMs: int, windowMs: int, spans: seq<Span>, passes: seq<Pass>, i: nat)
    requires AllSpans(sky, Instants(windowMs), spans) && ReportsAll(sky, startMs, windowMs, spans, passes)
    requires 30_000 * i < windowMs && sky(i).Some?
    ensures sky(i).value.el > 0.0 <==> InSome(startMs, passes, i)
  {
    hide Reports, IsSpan;
    InstantRange(windowMs, i);
    forall k | 0 <= k < |spans| ensures During(startMs, passes[k], i) <==> InSpan(spans[k], i) {
      assert IsSpan(sky, Instants(windowMs), spans[k]) && Reports(sky, startMs, windowMs, spans[k], passes[k]);
      DuringSpan(sky, startMs, windowMs, spans[k], passes[k], i);
    }
    if Visible(sky, i) {
      var k :| 0 <= k < |spans| && InSpan(spans[k], i);
      assert During(startMs, passes[k], i);
    } else if InSome(startMs, passes, i) {
      var k :| 0 <= k < |passes| && During(startMs, passes[k], i);
      NotVisible(sky, Instants(windowMs), spans[k], i);
    }
  }

  lemma NotVisible(sky: Sky, n: nat, s: Span, i: nat)
    requires IsSpan(sky, n, s) && InSpan(s, i) && sky(i).Some?
    ensures Visible(sky, i)
  {
    assert !Set(sky, i);
  }

  lemma DuringSpan(sky: Sky, startMs: int, windowMs: int, s: Span, p: Pass, i: nat)
    requires IsSpan(sky, Instants(windowMs), s) && Reports(sky, startMs, windowMs, s, p) && 30_000 * i < windowMs
    ensures During(startMs, p, i) <==> InSpan(s, i)
  {
    InstantRange(windowMs, s.end);
    InstantRange(windowMs, i);
  }

  // A satellite above the horizon at the last instant is in the last pass.
  lemma LastSpan(sky: Sky, n: nat, spans: seq<Span>)
    requires AllSpans(sky, n, spans) && n > 0 && Visible(sky, n - 1)
    ensures spans != [] && spans[|spans| - 1].end == n
  {
    var k :| 0 <= k < |spans| && InSpan(spans[k], n - 1);
    assert IsSpan(sky, n, spans[k]) && IsSpan(sky, n, spans[|spans| - 1]);
  }
}
