/**
 * The collision detector: stateless per-frame queries deciding whether a
 * tracked landmark, a hand, a set of body points or a forearm segment
 * touches a circular game object. The detector's own collision radius is
 * added to every object's radius.
 */
module Collision {
  import opened Wrappers
  import opened Geometry

  /** The collision radius a detector gets when none is given. */
  const DefaultCollisionRadius: int := 30

  datatype Detector = Detector(collisionRadius: int)

  /** The distance below which a landmark touches an object of the given radius. */
  function Reach(d: Detector, objectRadius: int): int {
    d.collisionRadius + objectRadius
  }

  /** Point-versus-circle: an absent landmark never collides. */
  function CheckCollision(d: Detector, landmark: Option<Point>, obj: Point, objectRadius: int): (r: bool)
    ensures landmark.None? ==> !r
    ensures r ==> Reach(d, objectRadius) > 0
    ensures r ==> landmark.Some? && DistSq(landmark.value, obj) < Reach(d, objectRadius) * Reach(d, objectRadius)
  {
    match landmark
    case None => false
    case Some(p) => WithinReach(DistSq(p, obj), Reach(d, objectRadius))
  }

  /**
   * CheckCollision is the detector's float test `distance < reach`, where
   * `distance` is the Euclidean distance: for the true root of the squared
   * distance, the two answers agree, boundary included.
   */
  lemma CheckCollisionIsStrictDistance(d: Detector, p: Point, obj: Point, objectRadius: int, distance: real)
    requires distance >= 0.0 && distance * distance == DistSq(p, obj) as real
    ensures CheckCollision(d, Some(p), obj, objectRadius) <==> distance < Reach(d, objectRadius) as real
  {
    WithinReachMatchesRoot(DistSq(p, obj), Reach(d, objectRadius), distance);
  }

  /** A landmark exactly one reach away touches the rim and does not collide. */
  lemma RimDoesNotCollide(d: Detector, obj: Point, objectRadius: int)
    requires Reach(d, objectRadius) >= 0
    ensures !CheckCollision(d, Some(Point(obj.x + Reach(d, objectRadius), obj.y)), obj, objectRadius)
  {
  }

  /** A landmark one pixel inside the rim collides. */
  lemma InsideRimCollides(d: Detector, obj: Point, objectRadius: int)
    requires Reach(d, objectRadius) > 0
    ensures CheckCollision(d, Some(Point(obj.x + Reach(d, objectRadius) - 1, obj.y)), obj, objectRadius)
  {
    var k := Reach(d, objectRadius);
    assert (k - 1) * (k - 1) < k * k;
  }

  /** A landmark at least as close as a colliding one collides too. */
  lemma CollisionMonotone(d: Detector, p: Point, q: Point, obj: Point, objectRadius: int)
    requires DistSq(p, obj) <= DistSq(q, obj)
    requires CheckCollision(d, Some(q), obj, objectRadius)
    ensures CheckCollision(d, Some(p), obj, objectRadius)
  {
  }

  /** The side a hand query reports; `Tag` is the string the detector returns. */
  datatype Side = NoSide | LeftSide | RightSide {
    function Tag(): string {
      match this
      case NoSide => ""
      case LeftSide => "left"
      case RightSide => "right"
    }
  }

  /** A hand counts when it collides and, if a fist is required, is closed. */
  predicate Qualifies(d: Detector, pos: Option<Point>, isFist: bool, obj: Point, objectRadius: int, requireFist: bool) {
    CheckCollision(d, pos, obj, objectRadius) && (isFist || !requireFist)
  }

  /** Two-hand query: the left hand is tried first and wins whenever it qualifies. */
  function CheckHandCollision(
    d: Detector,
    leftPos: Option<Point>, rightPos: Option<Point>,
    leftIsFist: bool, rightIsFist: bool,
    obj: Point, objectRadius: int,
    requireFist: bool): (r: Side)
    ensures r == LeftSide <==> Qualifies(d, leftPos, leftIsFist, obj, objectRadius, requireFist)
    ensures r == RightSide <==>
      !Qualifies(d, leftPos, leftIsFist, obj, objectRadius, requireFist)
      && Qualifies(d, rightPos, rightIsFist, obj, objectRadius, requireFist)
    ensures r == NoSide <==>
      !Qualifies(d, leftPos, leftIsFist, obj, objectRadius, requireFist)
      && !Qualifies(d, rightPos, rightIsFist, obj, objectRadius, requireFist)
  {
    if leftPos.Some? && CheckCollision(d, leftPos, obj, objectRadius) && (if requireFist then leftIsFist else true) then
      LeftSide
    else if rightPos.Some? && CheckCollision(d, rightPos, obj, objectRadius) && (if requireFist then rightIsFist else true) then
      RightSide
    else
      NoSide
  }

  /**
   * When a fist is required, an open hand is never reported, however far it
   * overlaps the object; and the answer is always one of the three tags.
   */
  lemma FistRequiredIgnoresOpenHands(
    d: Detector,
    leftPos: Option<Point>, rightPos: Option<Point>,
    leftIsFist: bool, rightIsFist: bool,
    obj: Point, objectRadius: int)
    ensures var r := CheckHandCollision(d, leftPos, rightPos, leftIsFist, rightIsFist, obj, objectRadius, true);
      && (!leftIsFist ==> r != LeftSide)
      && (!rightIsFist ==> r != RightSide)
      && (!leftIsFist && !rightIsFist ==> r == NoSide)
      && r.Tag() in {"left", "right", ""}
      && (r.Tag() == "" <==> r == NoSide)
  {
  }

  /** Left priority: a qualifying left hand is reported whatever the right hand does. */
  lemma LeftHandPriority(
    d: Detector,
    leftPos: Option<Point>, rightPos: Option<Point>, rightPos': Option<Point>,
    leftIsFist: bool, rightIsFist: bool, rightIsFist': bool,
    obj: Point, objectRadius: int, requireFist: bool)
    requires Qualifies(d, leftPos, leftIsFist, obj, objectRadius, requireFist)
    ensures CheckHandCollision(d, leftPos, rightPos, leftIsFist, rightIsFist, obj, objectRadius, requireFist)
         == CheckHandCollision(d, leftPos, rightPos', leftIsFist, rightIsFist', obj, objectRadius, requireFist)
         == LeftSide
  {
  }

  /** Without the fist requirement, any contact is enough and the fist flags are irrelevant. */
  lemma ContactSufficesWithoutFist(
    d: Detector,
    leftPos: Option<Point>, rightPos: Option<Point>,
    leftIsFist: bool, rightIsFist: bool, leftIsFist': bool, rightIsFist': bool,
    obj: Point, objectRadius: int)
    ensures CheckHandCollision(d, leftPos, rightPos, leftIsFist, rightIsFist, obj, objectRadius, false)
         == CheckHandCollision(d, leftPos, rightPos, leftIsFist', rightIsFist', obj, objectRadius, false)
    ensures CheckHandCollision(d, leftPos, rightPos, leftIsFist, rightIsFist, obj, objectRadius, false) != NoSide
        <==> CheckCollision(d, leftPos, obj, objectRadius) || CheckCollision(d, rightPos, obj, objectRadius)
  {
  }

  /** Any-body-point query: scans the points in order and stops at the first hit. */
  method CheckBodyCollision(d: Detector, bodyPoints: seq<Option<Point>>, obj: Point, objectRadius: int) returns (hit: bool)
    ensures hit <==> exists i :: 0 <= i < |bodyPoints| && CheckCollision(d, bodyPoints[i], obj, objectRadius)
    ensures |bodyPoints| == 0 ==> !hit
  {
    var i := 0;
    while i < |bodyPoints|
      invariant 0 <= i <= |bodyPoints|
      invariant forall j :: 0 <= j < i ==> !CheckCollision(d, bodyPoints[j], obj, objectRadius)
    {
      var point := bodyPoints[i];
      if point.Some? && CheckCollision(d, point, obj, objectRadius) {
        return true;
      }
      i := i + 1;
    }
    return false;
  }

  /**
   * The pixel the forearm query measures from: the nearest point of the
   * wrist-elbow segment with each coordinate truncated toward zero, which
   * stays inside the box spanned by the two joints.
   */
  function ArmProbe(obj: Point, wrist: Point, elbow: Point): (q: Point)
    requires wrist != elbow
    ensures (wrist.x <= q.x <= elbow.x) || (elbow.x <= q.x <= wrist.x)
    ensures (wrist.y <= q.y <= elbow.y) || (elbow.y <= q.y <= wrist.y)
  {
    var t := Clamp01(ProjectionParam(obj, wrist, elbow));
    var closest := SegmentPoint(wrist, elbow, t);
    SegmentPointInBox(wrist, elbow, t);
    assert (wrist.x <= Trunc(closest.x) <= elbow.x) || (elbow.x <= Trunc(closest.x) <= wrist.x) by {
      if wrist.x <= elbow.x {
        TruncBetween(closest.x, wrist.x, elbow.x);
      } else {
        TruncBetween(closest.x, elbow.x, wrist.x);
      }
    }
    assert (wrist.y <= Trunc(closest.y) <= elbow.y) || (elbow.y <= Trunc(closest.y) <= wrist.y) by {
      if wrist.y <= elbow.y {
        TruncBetween(closest.y, wrist.y, elbow.y);
      } else {
        TruncBetween(closest.y, elbow.y, wrist.y);
      }
    }
    Point(Trunc(closest.x), Trunc(closest.y))
  }

  /** Forearm query: either joint touching, or the segment between them passing within reach. */
  function CheckArmCollision(d: Detector, wrist: Option<Point>, elbow: Option<Point>, obj: Point, objectRadius: int): (r: bool)
    ensures wrist.None? || elbow.None? ==> !r
    ensures (wrist.Some? && elbow.Some?
      && (CheckCollision(d, wrist, obj, objectRadius) || CheckCollision(d, elbow, obj, objectRadius))) ==> r
    ensures r ==> Reach(d, objectRadius) > 0
  {
    if wrist.None? || elbow.None? then
      false
    else if CheckCollision(d, wrist, obj, objectRadius) || CheckCollision(d, elbow, obj, objectRadius) then
      true
    else if DistSq(elbow.value, wrist.value) == 0 then
      CheckCollision(d, wrist, obj, objectRadius)
    else
      WithinReach(DistSq(obj, ArmProbe(obj, wrist.value, elbow.value)), Reach(d, objectRadius))
  }

  /** A zero-length forearm behaves exactly like a single landmark at the wrist. */
  lemma ArmDegenerateIsPointQuery(d: Detector, wrist: Option<Point>, obj: Point, objectRadius: int)
    ensures CheckArmCollision(d, wrist, wrist, obj, objectRadius) == CheckCollision(d, wrist, obj, objectRadius)
  {
  }

  /** Truncation moves the nearest point by less than a pixel on each axis. */
  lemma ArmProbeWithinPixel(obj: Point, wrist: Point, elbow: Point)
    requires wrist != elbow
    ensures -1.0 < ClosestOnSegment(obj, wrist, elbow).x - ArmProbe(obj, wrist, elbow).x as real < 1.0
    ensures -1.0 < ClosestOnSegment(obj, wrist, elbow).y - ArmProbe(obj, wrist, elbow).y as real < 1.0
  {
  }

  /**
   * The measured pixel is within one pixel per axis of a nearest point of the
   * segment, which no other point of the segment beats.
   */
  lemma ArmProbeNearSegment(obj: Point, wrist: Point, elbow: Point, s: real)
    requires wrist != elbow
    requires 0.0 <= s <= 1.0
    ensures var closest := ClosestOnSegment(obj, wrist, elbow);
      var q := ArmProbe(obj, wrist, elbow);
      && -1.0 < closest.x - q.x as real < 1.0
      && -1.0 < closest.y - q.y as real < 1.0
      && RealDistSq(ToReal(obj), closest) <= RealDistSq(ToReal(obj), SegmentPoint(wrist, elbow, s))
  {
    ClosestIsNearest(obj, wrist, elbow, s);
  }

  /** The answer does not depend on which joint is called the wrist. */
  lemma {:induction false} ArmCollisionSymmetric(d: Detector, wrist: Option<Point>, elbow: Option<Point>, obj: Point, objectRadius: int)
    ensures CheckArmCollision(d, wrist, elbow, obj, objectRadius) == CheckArmCollision(d, elbow, wrist, obj, objectRadius)
  {
    if wrist.Some? && elbow.Some? && wrist != elbow {
      ClosestOnSegmentSymmetric(obj, wrist.value, elbow.value);
      assert ArmProbe(obj, wrist.value, elbow.value) == ArmProbe(obj, elbow.value, wrist.value);
      DistSqSymmetric(wrist.value, elbow.value);
    }
  }

  /**
   * An object centred on a whole pixel of the forearm is hit whenever the
   * reach is positive.
   */
  lemma {:induction false} ObjectOnForearmCollides(d: Detector, wrist: Point, elbow: Point, obj: Point, objectRadius: int, s: real)
    requires 0.0 <= s <= 1.0
    requires ToReal(obj) == SegmentPoint(wrist, elbow, s)
    requires Reach(d, objectRadius) > 0
    ensures CheckArmCollision(d, Some(wrist), Some(elbow), obj, objectRadius)
  {
    if wrist == elbow {
      assert obj == wrist;
    } else if !CheckCollision(d, Some(wrist), obj, objectRadius) && !CheckCollision(d, Some(elbow), obj, objectRadius) {
      ClosestOfPointOnSegment(obj, wrist, elbow, s);
      TruncOfInt(obj.x);
      TruncOfInt(obj.y);
      assert ArmProbe(obj, wrist, elbow) == obj;
    }
  }

  /**
   * An object whose centre lies more than two pixels of reach inside the
   * forearm segment is hit: truncating the nearest point to a pixel cannot
   * move it out of reach.
   */
  lemma {:induction false} ArmHitsWellInsideReach(d: Detector, wrist: Point, elbow: Point, obj: Point, objectRadius: int)
    requires wrist != elbow
    requires Reach(d, objectRadius) >= 2
    requires RealDistSq(ToReal(obj), ClosestOnSegment(obj, wrist, elbow))
           < (Reach(d, objectRadius) - 2) as real * (Reach(d, objectRadius) - 2) as real
    ensures CheckArmCollision(d, Some(wrist), Some(elbow), obj, objectRadius)
  {
    ArmProbeWithinPixel(obj, wrist, elbow);
    GapGivesPixelNear(obj, ClosestOnSegment(obj, wrist, elbow), ArmProbe(obj, wrist, elbow), Reach(d, objectRadius));
    assert DistSq(elbow, wrist) != 0;
  }

  /**
   * Conversely, the forearm query never reports a hit on an object whose
   * centre is two pixels of reach or more away from every point of the
   * segment.
   */
  lemma {:induction false} ArmHitOnlyNearSegment(d: Detector, wrist: Point, elbow: Point, obj: Point, objectRadius: int)
    requires wrist != elbow
    requires CheckArmCollision(d, Some(wrist), Some(elbow), obj, objectRadius)
    ensures RealDistSq(ToReal(obj), ClosestOnSegment(obj, wrist, elbow))
          < (Reach(d, objectRadius) as real + 2.0) * (Reach(d, objectRadius) as real + 2.0)
  {
    ClosestBeatsEndpoints(obj, wrist, elbow);
    if CheckCollision(d, Some(wrist), obj, objectRadius) {
      JointHitNearSegment(d, wrist, elbow, obj, objectRadius, wrist);
    } else if CheckCollision(d, Some(elbow), obj, objectRadius) {
      JointHitNearSegment(d, wrist, elbow, obj, objectRadius, elbow);
    } else {
      assert DistSq(elbow, wrist) != 0;
      ProbeHitNearSegment(d, wrist, elbow, obj, objectRadius);
    }
  }

  /** A hit measured from the truncated pixel puts the object's centre within reach of the segment. */
  lemma ProbeHitNearSegment(d: Detector, wrist: Point, elbow: Point, obj: Point, objectRadius: int)
    requires wrist != elbow
    requires WithinReach(DistSq(obj, ArmProbe(obj, wrist, elbow)), Reach(d, objectRadius))
    ensures RealDistSq(ToReal(obj), ClosestOnSegment(obj, wrist, elbow))
          < (Reach(d, objectRadius) as real + 2.0) * (Reach(d, objectRadius) as real + 2.0)
  {
    ArmProbeWithinPixel(obj, wrist, elbow);
    PixelNearGivesGap(obj, ClosestOnSegment(obj, wrist, elbow), ArmProbe(obj, wrist, elbow), Reach(d, objectRadius));
  }

  /** A colliding joint puts the object's centre within reach of the segment. */
  lemma JointHitNearSegment(d: Detector, wrist: Point, elbow: Point, obj: Point, objectRadius: int, joint: Point)
    requires wrist != elbow
    requires RealDistSq(ToReal(obj), ClosestOnSegment(obj, wrist, elbow)) <= RealDistSq(ToReal(obj), ToReal(joint))
    requires CheckCollision(d, Some(joint), obj, objectRadius)
    ensures RealDistSq(ToReal(obj), ClosestOnSegment(obj, wrist, elbow))
          < (Reach(d, objectRadius) as real + 2.0) * (Reach(d, objectRadius) as real + 2.0)
  {
    DistSqSymmetric(joint, obj);
    CloserThanPixelGivesGap(obj, ClosestOnSegment(obj, wrist, elbow), joint, Reach(d, objectRadius));
  }

  /**
   * The forearm query as written can miss an object that the segment
   * overlaps: with a reach of one pixel, the segment from (0, 10) to (10, 0)
   * passes about 0.71 pixels from (6, 5), but the truncated pixel (5, 4) is
   * about 1.41 pixels away.
   */
  lemma ArmMissesNearRim()
    ensures var wrist := Point(0, 10);
      var elbow := Point(10, 0);
      var obj := Point(6, 5);
      && ClosestOnSegment(obj, wrist, elbow) == RealPoint(5.5, 4.5)
      && RealDistSq(ToReal(obj), ClosestOnSegment(obj, wrist, elbow)) < 1.0
      && !CheckArmCollision(Detector(1), Some(wrist), Some(elbow), obj, 0)
  {
    var wrist := Point(0, 10);
    var elbow := Point(10, 0);
    var obj := Point(6, 5);
    assert ProjectionParam(obj, wrist, elbow) == 0.55;
    assert ClosestOnSegment(obj, wrist, elbow) == RealPoint(5.5, 4.5);
    assert ArmProbe(obj, wrist, elbow) == Point(5, 4);
  }
}
