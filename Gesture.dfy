/**
 * The pure decisions of the drag handlers in src/composables/useSwipeCards.js:
 * which pointer coordinates an event supplies, the live drag rotation, the
 * direction indicator on the container, the removal threshold and the exit
 * trajectories of a drag removal and of a programmatic swipe.
 */
module Gesture {
  import opened Wrappers

  datatype Point = Point(clientX: real, clientY: real)

  /**
   * A mouse event carries its own coordinates; a touch event carries the list
   * of active touches and the list of touches that changed with this event.
   */
  datatype PointerEvent =
    | Mouse(clientX: real, clientY: real)
    | Touch(touches: seq<Point>, changedTouches: seq<Point>)

  /**
   * `event.touches ? event.touches[0] : event`, read on pointer-down and
   * pointer-move. A touch list is present (and truthy) on every touch event;
   * when it is empty, `touches[0]` is undefined and reading its coordinates
   * throws, which is `None` here.
   */
  function TrackedPoint(ev: PointerEvent): (p: Option<Point>)
    ensures ev.Mouse? ==> p == Some(Point(ev.clientX, ev.clientY))
    ensures ev.Touch? ==> (p.Some? <==> ev.touches != []) && (p.Some? ==> p.value == ev.touches[0])
  {
    match ev
    case Mouse(x, y) => Some(Point(x, y))
    case Touch(touches, _) => if touches == [] then None else Some(touches[0])
  }

  /** `event.changedTouches ? event.changedTouches[0] : event`, read on pointer-up. */
  function ReleasedPoint(ev: PointerEvent): (p: Option<Point>)
    ensures ev.Mouse? ==> p == Some(Point(ev.clientX, ev.clientY))
    ensures ev.Touch? ==> (p.Some? <==> ev.changedTouches != []) && (p.Some? ==> p.value == ev.changedTouches[0])
  {
    match ev
    case Mouse(x, y) => Some(Point(x, y))
    case Touch(_, changed) => if changed == [] then None else Some(changed[0])
  }

  function Abs(v: real): (r: real)
    ensures r >= 0.0 && (r == v || r == -v)
  {
    if v < 0.0 then -v else v
  }

  /**
   * Rotation while dragging: `(dx * 0.04) * (dy / 100)`. It vanishes exactly
   * for purely horizontal or purely vertical motion, and tilts clockwise
   * exactly when both displacements have the same sign.
   */
  function DragRotation(dx: real, dy: real): (r: real)
    ensures r == 0.0 <==> dx == 0.0 || dy == 0.0
    ensures r > 0.0 <==> (dx > 0.0 && dy > 0.0) || (dx < 0.0 && dy < 0.0)
  {
    var r := (dx * 0.04) * (dy / 100.0);
    assert r == dx * dy / 2500.0;
    r
  }

  /** Mirroring the drag horizontally mirrors the rotation. */
  lemma DragRotationOdd(dx: real, dy: real)
    ensures DragRotation(-dx, dy) == -DragRotation(dx, dy)
  {
  }

  const SwipeRight: string := "swipe-right"
  const SwipeLeft: string := "swipe-left"

  /**
   * The container's class list after a drag move by `dx`: exactly the right
   * indicator beyond +30, exactly the left one beyond -30, neither in the band
   * between; every other class is kept.
   */
  function Indicated(classes: set<string>, dx: real): (r: set<string>)
    ensures SwipeRight in r <==> dx > 30.0
    ensures SwipeLeft in r <==> dx < -30.0
    ensures r - {SwipeRight, SwipeLeft} == classes - {SwipeRight, SwipeLeft}
  {
    if dx > 30.0 then classes + {SwipeRight} - {SwipeLeft}
    else if dx < -30.0 then classes + {SwipeLeft} - {SwipeRight}
    else classes - {SwipeRight, SwipeLeft}
  }

  /** `Math.abs(deltaX) > threshold`: a drag removes the card only strictly past the threshold. */
  function ShouldRemove(dx: real, threshold: real): (b: bool)
    ensures b <==> dx > threshold || dx < -threshold
    ensures threshold >= 0.0 && b ==> dx != 0.0
  {
    Abs(dx) > threshold
  }

  /** A drag exactly as far as the threshold snaps back; any farther removes. */
  lemma ThresholdIsStrict(threshold: real, overshoot: real)
    requires threshold >= 0.0
    ensures !ShouldRemove(threshold, threshold) && !ShouldRemove(-threshold, threshold)
    ensures overshoot > 0.0 ==> ShouldRemove(threshold + overshoot, threshold) && ShouldRemove(-threshold - overshoot, threshold)
  {
  }

  /** Target of an exit tween. */
  datatype Exit = Exit(x: real, y: real, rotation: real)

  /**
   * Exit pose of a drag removal: translated 1.5 viewport widths towards the
   * side of the drag, dropped by 30% of the horizontal distance, and the drag
   * rotation plus a 25 degree kick towards the side of the drag.
   */
  function DragExit(dx: real, dy: real, viewportWidth: nat): (e: Exit)
    ensures Abs(e.x) == 1.5 * viewportWidth as real
    ensures viewportWidth > 0 ==> (e.x > 0.0 <==> dx > 0.0)
    ensures e.y - dy == 0.3 * Abs(dx)
    ensures e.rotation - DragRotation(dx, dy) == if dx > 0.0 then 25.0 else -25.0
  {
    var moveOutWidth := viewportWidth as real * 1.5;
    Exit(
      x := if dx > 0.0 then moveOutWidth else -moveOutWidth,
      y := dy + Abs(dx) * 0.3,
      rotation := DragRotation(dx, dy) + (if dx > 0.0 then 25.0 else -25.0))
  }

  /** A card that is thrown out leaves strictly below where it was released. */
  lemma RemovedCardDrops(dx: real, dy: real, threshold: real, viewportWidth: nat)
    requires threshold >= 0.0 && ShouldRemove(dx, threshold)
    ensures DragExit(dx, dy, viewportWidth).y > dy
  {
  }

  /**
   * Exit pose of a programmatic swipe: the same horizontal translation, chosen by
   * whether the direction is exactly "right", a fixed lift of 100 and a fixed
   * 30 degree rotation towards that side.
   */
  function SwipeExit(direction: string, viewportWidth: nat): (e: Exit)
    ensures Abs(e.x) == 1.5 * viewportWidth as real
    ensures viewportWidth > 0 ==> (e.x > 0.0 <==> direction == "right")
    ensures e.y == -100.0
    ensures e.rotation == 30.0 || e.rotation == -30.0
    ensures e.rotation > 0.0 <==> direction == "right"
  {
    var moveOutWidth := viewportWidth as real * 1.5;
    Exit(
      x := if direction == "right" then moveOutWidth else -moveOutWidth,
      y := -100.0,
      rotation := if direction == "right" then 30.0 else -30.0)
  }
}
