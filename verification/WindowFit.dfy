/** Fitting a stored window rectangle to one of the displays that are connected now. */
module WindowFit {

  datatype Rect = Rect(x: real, y: real, width: real, height: real)

  datatype Size = Size(width: real, height: real)

  const MINIMUM := Size(480.0, 320.0)

  function Min(a: real, b: real): real {
    if a < b then a else b
  }

  function Max(a: real, b: real): real {
    if a < b then b else a
  }

  /** The length two intervals share. */
  function Shared(a: real, aLength: real, b: real, bLength: real): (shared: real)
    ensures shared >= 0.0
  {
    Max(0.0, Min(a + aLength, b + bLength) - Max(a, b))
  }

  function Overlap(rect: Rect, m: Rect): real {
    Shared(rect.x, rect.width, m.x, m.width) * Shared(rect.y, rect.height, m.y, m.height)
  }

  /** The index of the first monitor of greatest overlap. */
  function BestIndex(rect: Rect, monitors: seq<Rect>): (best: nat)
    requires monitors != []
    ensures best < |monitors|
    ensures forall k :: 0 <= k < |monitors| ==> Overlap(rect, monitors[k]) <= Overlap(rect, monitors[best])
    ensures forall k :: 0 <= k < best ==> Overlap(rect, monitors[k]) < Overlap(rect, monitors[best])
  {
    if |monitors| == 1 then 0
    else
      var front := monitors[..|monitors| - 1];
      var best := BestIndex(rect, front);
      assert forall k :: 0 <= k < |front| ==> monitors[k] == front[k];
      if Overlap(rect, monitors[|monitors| - 1]) > Overlap(rect, monitors[best]) then |monitors| - 1 else best
  }

  function Best(rect: Rect, monitors: seq<Rect>): Rect
    requires monitors != []
  {
    monitors[BestIndex(rect, monitors)]
  }

  function FitTo(rect: Rect, monitor: Rect, minimum: Size): Rect {
    var width := Min(monitor.width, Max(minimum.width, rect.width));
    var height := Min(monitor.height, Max(minimum.height, rect.height));
    Rect(
      Max(monitor.x, Min(rect.x, monitor.x + monitor.width - width)),
      Max(monitor.y, Min(rect.y, monitor.y + monitor.height - height)),
      width, height)
  }

  function FitWindowRect(rect: Rect, monitors: seq<Rect>, minimum: Size := MINIMUM): Rect {
    if monitors == [] then rect else FitTo(rect, Best(rect, monitors), minimum)
  }

  predicate Inside(rect: Rect, m: Rect) {
    && m.x <= rect.x && rect.x + rect.width <= m.x + m.width
    && m.y <= rect.y && rect.y + rect.height <= m.y + m.height
  }

  predicate AtLeast(rect: Rect, minimum: Size) {
    rect.width >= minimum.width && rect.height >= minimum.height
  }

  /** The length is the old one, or as near to it as the minimum and then the monitor allow. */
  ghost predicate LengthFits(before: real, minimum: real, monitor: real, length: real) {
    && (minimum <= before <= monitor ==> length == before)
    && (before <= minimum <= monitor ==> length == minimum)
    && (monitor <= before || monitor <= minimum ==> length == monitor)
  }

  function Distance(a: real, b: real): real {
    if a < b then b - a else a - b
  }

  /** The start is inside the monitor, and no other start inside it is nearer to the old one. */
  ghost predicate StartFits(before: real, length: real, m: real, mLength: real, start: real) {
    && m <= start && start + length <= m + mLength
    && forall other: real :: m <= other && other + length <= m + mLength ==> Distance(before, start) <= Distance(before, other)
  }

  /** Size and place of a fitted rectangle, in each direction: the size changes only as far as the minimum and the
      monitor demand, and the rectangle moves as little as it can. */
  lemma FitMeaning(rect: Rect, m: Rect, minimum: Size)
    requires m.width > 0.0 && m.height > 0.0
    ensures var fitted := FitTo(rect, m, minimum);
            && LengthFits(rect.width, minimum.width, m.width, fitted.width)
            && LengthFits(rect.height, minimum.height, m.height, fitted.height)
            && StartFits(rect.x, fitted.width, m.x, m.width, fitted.x)
            && StartFits(rect.y, fitted.height, m.y, m.height, fitted.y)
  {
  }

  /** The result lies inside a monitor that the rectangle overlaps at least as much as any other. */
  lemma FitsInsideBest(rect: Rect, monitors: seq<Rect>, minimum: Size)
    requires monitors != []
    ensures exists m :: m in monitors && Inside(FitWindowRect(rect, monitors, minimum), m)
              && forall n :: n in monitors ==> Overlap(rect, n) <= Overlap(rect, m)
  {
    var best := Best(rect, monitors);
    assert Inside(FitTo(rect, best, minimum), best);
  }

  lemma SharedAtMost(a: real, aLength: real, b: real, bLength: real)
    requires aLength > 0.0
    ensures 0.0 <= Shared(a, aLength, b, bLength) <= aLength
    ensures Shared(a, aLength, b, bLength) == aLength <==> b <= a && a + aLength <= b + bLength
  {
  }

  lemma MulGrows(a: real, b: real, c: real)
    requires a <= b && c >= 0.0
    ensures a * c <= b * c
  {
    assert (b - a) * c >= 0.0;
  }

  lemma MulPositive(a: real, b: real)
    requires a > 0.0 && b > 0.0
    ensures a * b > 0.0
  {
  }

  lemma NoFactor(a: real, b: real)
    requires a >= 0.0 && b > 0.0 && a * b <= 0.0
    ensures a == 0.0
  {
    if a > 0.0 {
      MulPositive(a, b);
    }
  }

  lemma OneSideFull(x: real, y: real, w: real, h: real)
    requires 0.0 <= x <= w && 0.0 <= y <= h && h > 0.0
    requires x * y >= w * h
    ensures x == w
  {
    assert (w - x) * h == w * h - x * h;
    assert x * (h - y) == x * h - x * y;
    MulGrows(0.0, h - y, x);
    NoFactor(w - x, h);
  }

  lemma ProductIsFull(x: real, y: real, w: real, h: real)
    requires 0.0 <= x <= w && 0.0 <= y <= h && w > 0.0 && h > 0.0
    requires x * y >= w * h
    ensures x == w && y == h
  {
    assert y * x == x * y && h * w == w * h;
    OneSideFull(x, y, w, h);
    OneSideFull(y, x, h, w);
  }

  /** A monitor overlaps a proper rectangle by the whole of its area exactly when it contains it. */
  lemma FullOverlapIsContainment(rect: Rect, m: Rect)
    requires rect.width > 0.0 && rect.height > 0.0
    ensures Overlap(rect, m) >= rect.width * rect.height <==> Inside(rect, m)
  {
    SharedAtMost(rect.x, rect.width, m.x, m.width);
    SharedAtMost(rect.y, rect.height, m.y, m.height);
    var x, y := Shared(rect.x, rect.width, m.x, m.width), Shared(rect.y, rect.height, m.y, m.height);
    if x * y >= rect.width * rect.height {
      ProductIsFull(x, y, rect.width, rect.height);
    }
  }

  /** A rectangle of at least the minimum size that already lies inside a monitor stays where it is. */
  lemma FittingIsStable(rect: Rect, monitors: seq<Rect>, minimum: Size)
    requires minimum.width > 0.0 && minimum.height > 0.0 && AtLeast(rect, minimum)
    requires exists m :: m in monitors && Inside(rect, m)
    ensures FitWindowRect(rect, monitors, minimum) == rect
  {
    var m :| m in monitors && Inside(rect, m);
    FullOverlapIsContainment(rect, m);
    FullOverlapIsContainment(rect, Best(rect, monitors));
  }

  // ----- Fitting twice -----

  /** One dimension of the fitted rectangle: its length and its start. */
  function FitLength(length: real, mLength: real, minimum: real): real {
    Min(mLength, Max(minimum, length))
  }

  function FitStart(start: real, m: real, mLength: real, fitted: real): real {
    Max(m, Min(start, m + mLength - fitted))
  }

  /** The fitted interval covers everything the original shares with the monitor, so another interval that
      contains the fitted one shares at least as much with the original. */
  lemma CoveringSharesMore(a: real, aLength: real, m: real, mLength: real, minimum: real, n: real, nLength: real)
    requires mLength > 0.0 && minimum > 0.0
    requires var length := FitLength(aLength, mLength, minimum);
             var start := FitStart(a, m, mLength, length);
             n <= start && start + length <= n + nLength
    ensures Shared(a, aLength, n, nLength) >= Shared(a, aLength, m, mLength)
  {
  }

  lemma ProductGrows(x: real, y: real, x': real, y': real)
    requires 0.0 <= x <= x' && 0.0 <= y <= y'
    ensures x * y <= x' * y'
  {
    MulGrows(x, x', y);
    MulGrows(y, y', x');
  }

  lemma OverlapGrows(rect: Rect, m: Rect, n: Rect)
    requires Shared(rect.x, rect.width, m.x, m.width) <= Shared(rect.x, rect.width, n.x, n.width)
    requires Shared(rect.y, rect.height, m.y, m.height) <= Shared(rect.y, rect.height, n.y, n.height)
    ensures Overlap(rect, m) <= Overlap(rect, n)
  {
    hide Shared;
    ProductGrows(Shared(rect.x, rect.width, m.x, m.width), Shared(rect.y, rect.height, m.y, m.height),
                 Shared(rect.x, rect.width, n.x, n.width), Shared(rect.y, rect.height, n.y, n.height));
  }

  lemma OverlapAtMostArea(rect: Rect, m: Rect)
    requires rect.width > 0.0 && rect.height > 0.0
    ensures Overlap(rect, m) <= rect.width * rect.height
  {
    SharedAtMost(rect.x, rect.width, m.x, m.width);
    SharedAtMost(rect.y, rect.height, m.y, m.height);
    ProductGrows(Shared(rect.x, rect.width, m.x, m.width), Shared(rect.y, rect.height, m.y, m.height), rect.width, rect.height);
  }

  /** A monitor that contains the fitted rectangle overlaps the original at least as much as the chosen one. */
  lemma ContainingOverlapsMore(rect: Rect, chosen: Rect, minimum: Size, n: Rect)
    requires chosen.width > 0.0 && chosen.height > 0.0 && minimum.width > 0.0 && minimum.height > 0.0
    requires Inside(FitTo(rect, chosen, minimum), n)
    ensures Overlap(rect, chosen) <= Overlap(rect, n)
  {
    hide Overlap, Shared;
    CoveringSharesMore(rect.x, rect.width, chosen.x, chosen.width, minimum.width, n.x, n.width);
    CoveringSharesMore(rect.y, rect.height, chosen.y, chosen.height, minimum.height, n.y, n.height);
    OverlapGrows(rect, chosen, n);
  }

  lemma FitIsProper(rect: Rect, m: Rect, minimum: Size)
    requires m.width > 0.0 && m.height > 0.0 && minimum.width > 0.0 && minimum.height > 0.0
    ensures var once := FitTo(rect, m, minimum);
            once.width > 0.0 && once.height > 0.0 && Inside(once, m) && FitTo(once, m, minimum) == once
  {
  }

  /** The fitted rectangle chooses the same monitor again. */
  lemma SameMonitorAgain(rect: Rect, monitors: seq<Rect>, minimum: Size)
    requires monitors != [] && minimum.width > 0.0 && minimum.height > 0.0
    requires forall m :: m in monitors ==> m.width > 0.0 && m.height > 0.0
    ensures BestIndex(FitWindowRect(rect, monitors, minimum), monitors) == BestIndex(rect, monitors)
  {
    hide Overlap, Shared, FitTo, Inside;
    var i := BestIndex(rect, monitors);
    assert monitors[i] in monitors;
    var once := FitTo(rect, monitors[i], minimum);
    FitIsProper(rect, monitors[i], minimum);
    var j := BestIndex(once, monitors);
    FullOverlapIsContainment(once, monitors[i]);
    FullOverlapIsContainment(once, monitors[j]);
    OverlapAtMostArea(once, monitors[j]);
    ContainingOverlapsMore(rect, monitors[i], minimum, monitors[j]);
  }

  /** Fitting twice is fitting once, also on monitors smaller than the minimum. */
  lemma FittingIsIdempotent(rect: Rect, monitors: seq<Rect>, minimum: Size)
    requires minimum.width > 0.0 && minimum.height > 0.0
    requires forall m :: m in monitors ==> m.width > 0.0 && m.height > 0.0
    ensures var once := FitWindowRect(rect, monitors, minimum);
            FitWindowRect(once, monitors, minimum) == once
  {
    if monitors != [] {
      hide Overlap, Shared, FitTo, Inside;
      var best := Best(rect, monitors);
      assert best in monitors;
      FitIsProper(rect, best, minimum);
      SameMonitorAgain(rect, monitors, minimum);
    }
  }
}
