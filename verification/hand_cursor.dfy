/**
 * Small helpers of the main loop about tracked hand positions: the
 * same-position test and the choice of which index finger drives the
 * on-screen cursor.
 */
module HandCursor {
  import opened Wrappers
  import opened Geometry
  import Lifecycle

  /** The threshold the same-position test uses when none is given. */
  const SamePositionThreshold: int := 80

  function Abs(n: int): nat {
    if n < 0 then -n else n
  }

  /** The larger of the two axis offsets (the chessboard distance). */
  function AxisDistance(p: Point, q: Point): nat {
    var dx := Abs(p.x - q.x);
    var dy := Abs(p.y - q.y);
    if dx < dy then dy else dx
  }

  /** Two positions match when both axis offsets are strictly below the threshold. */
  function IsSamePosition(p1: Option<Point>, p2: Option<Point>, threshold: int): (r: bool)
    ensures p1.None? || p2.None? ==> !r
    ensures p1.Some? && p2.Some? ==> (r <==> AxisDistance(p1.value, p2.value) < threshold)
  {
    if p1.None? || p2.None? then false
    else Abs(p1.value.x - p2.value.x) < threshold && Abs(p1.value.y - p2.value.y) < threshold
  }

  /** The test does not depend on argument order, and a present point matches itself. */
  lemma IsSamePositionSymmetric(p1: Option<Point>, p2: Option<Point>, threshold: int)
    ensures IsSamePosition(p1, p2, threshold) == IsSamePosition(p2, p1, threshold)
    ensures p1.Some? && threshold > 0 ==> IsSamePosition(p1, p1, threshold)
  {
  }

  /**
   * The cursor hand: a hovering right finger, else a hovering left finger,
   * else whichever finger is tracked, right first. `hovers` is the menu's
   * button hit test; it is not consulted during play.
   */
  function ActiveHand(
    state: Lifecycle.GameState, tracked: bool,
    right: Option<Point>, left: Option<Point>,
    hovers: Option<Point> -> bool): (r: Option<Point>)
    ensures !tracked ==> r.None?
    ensures tracked ==> r == right || r == left
    ensures tracked && state == Lifecycle.Play ==> r == (if right.Some? then right else left)
    ensures tracked && state != Lifecycle.Play && hovers(right) ==> r == right
    ensures tracked && state != Lifecycle.Play && !hovers(right) && hovers(left) ==> r == left
    ensures tracked && state != Lifecycle.Play && !hovers(right) && !hovers(left) ==>
      r == (if right.Some? then right else left)
  {
    if !tracked then
      None
    else
      var hoverRight := state != Lifecycle.Play && hovers(right);
      var hoverLeft := state != Lifecycle.Play && hovers(left);
      if hoverRight then right
      else if hoverLeft then left
      else if right.Some? then right
      else left
  }

  /** Outside play, once no finger hovers a button, the right finger is preferred. */
  lemma RightFingerPreferred(
    state: Lifecycle.GameState, right: Point, left: Option<Point>, hovers: Option<Point> -> bool)
    requires !hovers(left)
    ensures ActiveHand(state, true, Some(right), left, hovers) == Some(right)
  {
  }
}
