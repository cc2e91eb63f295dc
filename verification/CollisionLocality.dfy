/** The simulated collision time depends only on points near the robot, and only in one direction. */
module CollisionLocality {
  import opened RealProducts
  import opened Polygons
  import opened PolygonGeometry
  import opened CollisionTime

  // ---------- lengths without square roots ----------

  /** The vector (x, y) is at most r long. */
  predicate AtMost(x: real, y: real, r: real) {
    r >= 0.0 && Times(x, x) + Times(y, y) <= Times(r, r)
  }

  lemma SquareOrder(a: real, b: real)
    requires a >= 0.0 && b >= 0.0
    ensures Times(a, a) <= Times(b, b) <==> a <= b
  {
    if a <= b {
      assert Times(a, a) <= Times(b, a) <= Times(b, b);
    } else {
      assert Times(b, b) <= Times(a, b) && Times(a, b) < Times(a, a);
    }
  }

  /** Lagrange's identity in the plane. */
  lemma DotAndCross(x: real, y: real, u: real, v: real)
    ensures var dot, cross := Times(x, u) + Times(y, v), Times(x, v) - Times(y, u);
      Times(dot, dot) + Times(cross, cross) == Times(Times(x, x) + Times(y, y), Times(u, u) + Times(v, v))
  {
  }

  lemma ProductOfSquares(r: real, q: real)
    ensures Times(Times(r, r), Times(q, q)) == Times(Times(r, q), Times(r, q))
  {
  }

  lemma TimesBothMonotone(a: real, b: real, c: real, d: real)
    requires 0.0 <= a <= b && 0.0 <= c <= d
    ensures 0.0 <= Times(a, c) <= Times(b, d)
  {
    hide Times;
    TimesNonNegative(a, c);
    TimesNonNegative(b - a, c);
    TimesNonNegative(b, d - c);
    TimesAdds(a, b - a, c);
    TimesSplits(b, c, d - c);
  }

  /** Cauchy-Schwarz. */
  lemma DotBound(x: real, y: real, u: real, v: real, r: real, q: real)
    requires AtMost(x, y, r) && AtMost(u, v, q)
    ensures Times(x, u) + Times(y, v) <= Times(r, q)
  {
    hide Times;
    var dot, cross := Times(x, u) + Times(y, v), Times(x, v) - Times(y, u);
    DotAndCross(x, y, u, v);
    SquareNonNegative(x);
    SquareNonNegative(y);
    SquareNonNegative(u);
    SquareNonNegative(v);
    SquareNonNegative(cross);
    TimesBothMonotone(Times(x, x) + Times(y, y), Times(r, r), Times(u, u) + Times(v, v), Times(q, q));
    ProductOfSquares(r, q);
    TimesBothMonotone(0.0, r, 0.0, q);
    if dot >= 0.0 {
      SquareOrder(dot, Times(r, q));
    }
  }

  lemma SquareOfSum(a: real, b: real)
    ensures Times(a + b, a + b) == Times(a, a) + 2.0 * Times(a, b) + Times(b, b)
  {
  }

  /** The triangle inequality. */
  lemma SumAtMost(x: real, y: real, u: real, v: real, r: real, q: real)
    requires AtMost(x, y, r) && AtMost(u, v, q)
    ensures AtMost(x + u, y + v, r + q)
  {
    hide Times;
    SquareOfSum(x, u);
    SquareOfSum(y, v);
    SquareOfSum(r, q);
    DotBound(x, y, u, v, r, q);
  }

  // ---------- what each step keeps ----------

  lemma RotationKeepsLength(x: real, y: real, r: Rotation)
    requires IsRotation(r)
    ensures var u, v := Times(x, r.c) - Times(y, r.s), Times(x, r.s) + Times(y, r.c);
      Times(u, u) + Times(v, v) == Times(x, x) + Times(y, y)
    ensures var u, v := Times(x, r.c) + Times(y, r.s), -Times(x, r.s) + Times(y, r.c);
      Times(u, u) + Times(v, v) == Times(x, x) + Times(y, y)
  {
    DotAndCross(x, y, r.c, r.s);
    assert Times(Times(x, x) + Times(y, y), 1.0) == Times(x, x) + Times(y, y);
    CrossAlternatives(x, y, r.c, r.s);
  }

  lemma CrossAlternatives(x: real, y: real, c: real, s: real)
    ensures var u, v := Times(x, c) - Times(y, s), Times(x, s) + Times(y, c);
      Times(u, u) + Times(v, v) == Times(Times(x, x) + Times(y, y), Times(c, c) + Times(s, s))
    ensures var u, v := Times(x, c) + Times(y, s), -Times(x, s) + Times(y, c);
      Times(u, u) + Times(v, v) == Times(Times(x, x) + Times(y, y), Times(c, c) + Times(s, s))
  {
    hide Times;
    var xc, ys, xs, yc := Times(x, c), Times(y, s), Times(x, s), Times(y, c);
    SquareOfSum(xc, ys);
    SquareOfDifference(xc, ys);
    SquareOfSum(yc, xs);
    SquareOfDifference(yc, xs);
    CrossedProducts(x, c, y, s);
    ProductOfSquares(x, c);
    ProductOfSquares(x, s);
    ProductOfSquares(y, c);
    ProductOfSquares(y, s);
    TimesAdds(Times(x, x), Times(y, y), Times(c, c) + Times(s, s));
    TimesSplits(Times(x, x), Times(c, c), Times(s, s));
    TimesSplits(Times(y, y), Times(c, c), Times(s, s));
  }

  lemma SquareOfDifference(a: real, b: real)
    ensures Times(a - b, a - b) == Times(a, a) - 2.0 * Times(a, b) + Times(b, b)
  {
  }

  lemma CrossedProducts(x: real, c: real, y: real, s: real)
    ensures Times(Times(x, c), Times(y, s)) == Times(Times(y, c), Times(x, s))
  {
  }

  /** Looking from the pose keeps distances: p is as far from the frame's origin as from the pose. */
  lemma FrameKeepsLength(r: Rotation, pose: Pose, p: Point)
    requires IsRotation(r)
    ensures Length2(ToFrame(r, pose, p)) == Length2(Point(p.x - pose.x, p.y - pose.y))
  {
    hide Times;
    RotationKeepsLength(p.x - pose.x, p.y - pose.y, r);
  }

  /** Changing frames is an isometry. */
  lemma FrameIsIsometry(r: Rotation, pose: Pose, p: Point, q: Point)
    requires IsRotation(r)
    ensures var a, b := ToFrame(r, pose, p), ToFrame(r, pose, q);
      Length2(Point(a.x - b.x, a.y - b.y)) == Length2(Point(p.x - q.x, p.y - q.y))
  {
    hide Times;
    var a, b := ToFrame(r, pose, p), ToFrame(r, pose, q);
    RotationKeepsLength(p.x - q.x, p.y - q.y, r);
    TimesDiffer(p.x - pose.x, q.x - pose.x, r.c);
    TimesDiffer(p.y - pose.y, q.y - pose.y, r.s);
    TimesDiffer(p.x - pose.x, q.x - pose.x, r.s);
    TimesDiffer(p.y - pose.y, q.y - pose.y, r.c);
  }

  lemma TimesDiffer(a: real, b: real, k: real)
    ensures Times(a, k) - Times(b, k) == Times(a - b, k)
  {
  }

  /** Every step keeps the linear speed. */
  lemma {:induction false} SpeedKept(turn: real -> Rotation, dt: real, velocity: Velocity, n: nat)
    requires Trigonometry(turn)
    ensures var v := After(turn, dt, velocity, n).vel;
      v.tw == velocity.tw && Times(v.x, v.x) + Times(v.y, v.y) ==
        Times(velocity.x, velocity.x) + Times(velocity.y, velocity.y)
  {
    hide Times, IsRotation;
    if n > 0 {
      SpeedKept(turn, dt, velocity, n - 1);
      var v := After(turn, dt, velocity, n - 1).vel;
      RotationKeepsLength(v.x, v.y, turn(Times(v.tw, dt)));
    }
  }

  lemma ScaledAtMost(x: real, y: real, r: real, dt: real)
    requires AtMost(x, y, r) && dt >= 0.0
    ensures AtMost(Times(x, dt), Times(y, dt), Times(r, dt))
  {
    ProductOfSquares(x, dt);
    ProductOfSquares(y, dt);
    ProductOfSquares(r, dt);
    hide Times;
    SquareNonNegative(dt);
    TimesBothMonotone(0.0, r, 0.0, dt);
    SquareNonNegative(x);
    SquareNonNegative(y);
    TimesBothMonotone(Times(x, x) + Times(y, y), Times(r, r), Times(dt, dt), Times(dt, dt));
    TimesAdds(Times(x, x), Times(y, y), Times(dt, dt));
  }

  /** After n steps the robot is within n step lengths of where it started. */
  lemma {:induction false} Displacement(turn: real -> Rotation, dt: real, velocity: Velocity, speed: real, n: nat)
    requires Trigonometry(turn) && dt > 0.0 && AtMost(velocity.x, velocity.y, speed)
    ensures var pose := After(turn, dt, velocity, n).pose; AtMost(pose.x, pose.y, Times(speed, Times(n as real, dt)))
  {
    hide Times, IsRotation, AtMost;
    if n == 0 {
      ZeroAtMost(speed, dt);
    } else {
      var st := After(turn, dt, velocity, n - 1);
      Displacement(turn, dt, velocity, speed, n - 1);
      SpeedKept(turn, dt, velocity, n - 1);
      SpeedAtMost(velocity.x, velocity.y, st.vel.x, st.vel.y, speed);
      ScaledAtMost(st.vel.x, st.vel.y, speed, dt);
      SumAtMost(st.pose.x, st.pose.y, Times(st.vel.x, dt), Times(st.vel.y, dt),
                Times(speed, Times((n - 1) as real, dt)), Times(speed, dt));
      OneStepMore(speed, dt, n);
    }
  }

  lemma ZeroAtMost(speed: real, dt: real)
    ensures AtMost(0.0, 0.0, Times(speed, Times(0 as real, dt)))
  {
  }

  lemma SpeedAtMost(x: real, y: real, u: real, v: real, speed: real)
    requires AtMost(x, y, speed) && Times(u, u) + Times(v, v) == Times(x, x) + Times(y, y)
    ensures AtMost(u, v, speed)
  {
  }

  lemma OneStepMore(speed: real, dt: real, n: nat)
    requires n > 0
    ensures Times(speed, Times(n as real, dt)) == Times(speed, Times((n - 1) as real, dt)) + Times(speed, dt)
  {
    assert n as real == (n - 1) as real + 1.0;
    var m := (n - 1) as real;
    assert Times(m + 1.0, dt) == Times(m, dt) + dt;
    assert Times(speed, Times(m, dt) + dt) == Times(speed, Times(m, dt)) + Times(speed, dt);
  }

  // ---------- locality ----------

  /**
   * p is too far to matter: beyond the polygon's reach plus the way the robot can go within the horizon and one step.
   */
  predicate OutOfReach(p: Point, reach: real, speed: real, dt: real, horizon: real) {
    !AtMost(p.x, p.y, reach + Times(speed, horizon + dt))
  }

  /** The whole zone lies within reach of the robot. */
  ghost predicate Reaches(shape: Shape, reach: real) {
    && reach >= 0.0
    && match shape
       case PolygonShape(vertices) => (forall k :: 0 <= k < |vertices| ==> Length2(vertices[k]) <= Times(reach, reach))
       case CircleShape(radiusSquared) => radiusSquared <= Times(reach, reach)
  }

  lemma HeldIsInReach(shape: Shape, p: Point, reach: real)
    requires Reaches(shape, reach) && Holds(shape, p)
    ensures Length2(p) <= Times(reach, reach)
  {
    hide Times, Inside, Length2;
    if shape.PolygonShape? { InsideIsInReach(shape.vertices, p, Times(reach, reach)); }
  }

  lemma WidenAtMost(x: real, y: real, r: real, q: real)
    requires AtMost(x, y, r) && r <= q
    ensures AtMost(x, y, q)
  {
    hide Times;
    SquareOrder(r, q);
  }

  lemma AtMostByLength(p: Point, r: real)
    ensures AtMost(p.x, p.y, r) <==> r >= 0.0 && Length2(p) <= Times(r, r)
  {
  }

  /** A point out of reach is outside the polygon at every simulated pose. */
  lemma FarPointNeverInside(turn: real -> Rotation, dt: real, velocity: Velocity, shape: Shape, p: Point,
                            reach: real, speed: real, horizon: real, n: nat)
    requires Trigonometry(turn) && dt > 0.0 && AtMost(velocity.x, velocity.y, speed) && Reaches(shape, reach)
    requires OutOfReach(p, reach, speed, dt, horizon) && n <= Steps(horizon, dt) && horizon + dt >= 0.0
    ensures var pose := After(turn, dt, velocity, n).pose; !Holds(shape, ToFrame(turn(pose.theta), pose, p))
  {
    hide Times, Holds, Length2, AtMost, IsRotation, Steps, ToFrame, After;
    var pose := After(turn, dt, velocity, n).pose;
    var r := turn(pose.theta);
    var seen := ToFrame(r, pose, p);
    if Holds(shape, seen) {
      HeldIsInReach(shape, seen, reach);
      FrameKeepsLength(r, pose, p);
      AtMostByLength(Point(p.x - pose.x, p.y - pose.y), reach);
      Displacement(turn, dt, velocity, speed, n);
      StepTimes(horizon, dt, n);
      AtMostRadius(velocity.x, velocity.y, speed);
      ScaleBySpeed(speed, Times(n as real, dt), horizon + dt);
      SumAtMost(p.x - pose.x, p.y - pose.y, pose.x, pose.y, reach, Times(speed, Times(n as real, dt)));
      WidenAtMost(p.x, p.y, reach + Times(speed, Times(n as real, dt)), reach + Times(speed, horizon + dt));
      assert false;
    }
  }

  lemma AtMostRadius(x: real, y: real, r: real)
    requires AtMost(x, y, r)
    ensures r >= 0.0
  {
  }

  lemma ScaleBySpeed(speed: real, t: real, u: real)
    requires speed >= 0.0 && t <= u
    ensures Times(speed, t) <= Times(speed, u)
  {
  }

  /** Step n is reached no later than one step after the horizon. */
  lemma StepTimes(horizon: real, dt: real, n: nat)
    requires dt > 0.0 && n <= Steps(horizon, dt) && horizon + dt >= 0.0
    ensures Times(n as real, dt) <= horizon + dt
  {
    hide Times, Steps;
    TimesAdds(0.0, 0.0, dt);
    if n > 0 {
      StepsWithinHorizon(horizon, dt, n - 1);
      TimesAdds((n - 1) as real, 1.0, dt);
      assert n as real == (n - 1) as real + 1.0;
    }
  }

  /** The points that may matter. */
  function NearPoints(points: seq<Point>, reach: real, speed: real, dt: real, horizon: real): seq<Point> {
    if points == [] then []
    else
      var near := NearPoints(points[..|points| - 1], reach, speed, dt, horizon);
      if OutOfReach(points[|points| - 1], reach, speed, dt, horizon) then near else near + [points[|points| - 1]]
  }

  lemma AllToFrameAppend(r: Rotation, pose: Pose, points: seq<Point>, p: Point)
    ensures AllToFrame(r, pose, points + [p]) == AllToFrame(r, pose, points) + [ToFrame(r, pose, p)]
  {
  }

  lemma PointsInsideAppend(shape: Shape, points: seq<Point>, p: Point)
    ensures PointsInside(shape, points + [p]) == PointsInside(shape, points) + (if Holds(shape, p) then 1 else 0)
  {
    assert (points + [p])[..|points|] == points;
  }

  /** Dropping the far points changes no count. */
  lemma {:induction false} NearPointsSameHits(turn: real -> Rotation, dt: real, velocity: Velocity, shape: Shape,
                                              points: seq<Point>,
                                              reach: real, speed: real, horizon: real, n: nat)
    requires Trigonometry(turn) && dt > 0.0 && AtMost(velocity.x, velocity.y, speed) && Reaches(shape, reach)
    requires n <= Steps(horizon, dt) && horizon + dt >= 0.0
    ensures HitsAfter(turn, dt, velocity, shape, NearPoints(points, reach, speed, dt, horizon), n) ==
            HitsAfter(turn, dt, velocity, shape, points, n)
    decreases |points|
  {
    hide Times, Holds, AtMost, Steps, ToFrame, After, PointsInside, AllToFrame, Reaches, OutOfReach, Trigonometry;
    if points != [] {
      var init, p := points[..|points| - 1], points[|points| - 1];
      NearPointsSameHits(turn, dt, velocity, shape, init, reach, speed, horizon, n);
      var pose := After(turn, dt, velocity, n).pose;
      var r := turn(pose.theta);
      assert points == init + [p];
      AllToFrameAppend(r, pose, init, p);
      PointsInsideAppend(shape, AllToFrame(r, pose, init), ToFrame(r, pose, p));
      if OutOfReach(p, reach, speed, dt, horizon) {
        FarPointNeverInside(turn, dt, velocity, shape, p, reach, speed, horizon, n);
      } else {
        var near := NearPoints(init, reach, speed, dt, horizon);
        AllToFrameAppend(r, pose, near, p);
        PointsInsideAppend(shape, AllToFrame(r, pose, near), ToFrame(r, pose, p));
      }
    }
  }

  lemma {:induction false} SameHitsSameTime(turn: real -> Rotation, dt: real, velocity: Velocity, shape: Shape,
                                            points: seq<Point>, points': seq<Point>, maxPoints: int, horizon: real,
                                              k: nat)
    requires dt > 0.0
    requires forall n: nat :: n <= Steps(horizon, dt) ==>
      HitsAfter(turn, dt, velocity, shape, points, n) == HitsAfter(turn, dt, velocity, shape, points', n)
    ensures FirstHit(turn, dt, velocity, shape, points, maxPoints, horizon, k) ==
            FirstHit(turn, dt, velocity, shape, points', maxPoints, horizon, k)
    decreases Steps(horizon, dt) - k
  {
    hide Times, HitsAfter, Steps;
    if k < Steps(horizon, dt) {
      SameHitsSameTime(turn, dt, velocity, shape, points, points', maxPoints, horizon, k + 1);
    }
  }

  /** Before the robot moves, the far points are outside as well. */
  lemma {:induction false} StaticNearPoints(shape: Shape, points: seq<Point>, reach: real, speed: real, dt: real,
                                            horizon: real)
    requires Reaches(shape, reach) && speed >= 0.0 && dt > 0.0 && horizon + dt >= 0.0
    ensures PointsInside(shape, NearPoints(points, reach, speed, dt, horizon)) == PointsInside(shape, points)
    decreases |points|
  {
    hide Times, Holds, PointsInside, OutOfReach;
    if points != [] {
      var init, p := points[..|points| - 1], points[|points| - 1];
      StaticNearPoints(shape, init, reach, speed, dt, horizon);
      assert points == init + [p];
      PointsInsideAppend(shape, init, p);
      if OutOfReach(p, reach, speed, dt, horizon) {
        if Holds(shape, p) {
          InsideNotOutOfReach(shape, p, reach, speed, dt, horizon);
          assert false;
        }
      } else {
        PointsInsideAppend(shape, NearPoints(init, reach, speed, dt, horizon), p);
      }
    }
  }

  lemma InsideNotOutOfReach(shape: Shape, p: Point, reach: real, speed: real, dt: real, horizon: real)
    requires Reaches(shape, reach) && speed >= 0.0 && dt > 0.0 && horizon + dt >= 0.0 && Holds(shape, p)
    ensures !OutOfReach(p, reach, speed, dt, horizon)
  {
    hide Times, Holds, Length2, AtMost;
    HeldIsInReach(shape, p, reach);
    AtMostByLength(p, reach);
    TimesBothMonotone(0.0, speed, 0.0, horizon + dt);
    WidenAtMost(p.x, p.y, reach, reach + Times(speed, horizon + dt));
  }

  /**
   Locality: deleting every point farther than the polygon's reach plus speed times (horizon + one step) never
   changes the returned time.
   */
  lemma CollisionTimeIsLocal(turn: real -> Rotation, dt: real, velocity: Velocity, shape: Shape, points: seq<Point>,
                             maxPoints: int, reach: real, speed: real, horizon: real)
    requires Trigonometry(turn) && dt > 0.0 && AtMost(velocity.x, velocity.y, speed) && Reaches(shape, reach)
    requires horizon + dt >= 0.0
    ensures CollisionTimeOf(turn, dt, velocity, shape, NearPoints(points, reach, speed, dt, horizon), maxPoints,
                            horizon) ==
            CollisionTimeOf(turn, dt, velocity, shape, points, maxPoints, horizon)
  {
    hide Times, HitsAfter, Steps, AtMost, Reaches, FirstHit, PointsInside, Trigonometry;
    var near := NearPoints(points, reach, speed, dt, horizon);
    AtMostRadius(velocity.x, velocity.y, speed);
    StaticNearPoints(shape, points, reach, speed, dt, horizon);
    forall n: nat | n <= Steps(horizon, dt)
      ensures HitsAfter(turn, dt, velocity, shape, near, n) == HitsAfter(turn, dt, velocity, shape, points, n)
    {
      NearPointsSameHits(turn, dt, velocity, shape, points, reach, speed, horizon, n);
    }
    SameHitsSameTime(turn, dt, velocity, shape, near, points, maxPoints, horizon, 0);
  }

  // ---------- the returned time ----------

  /** Step j, from time j * dt, ends with more than maxPoints points inside. */
  ghost predicate CollidesIn(turn: real -> Rotation, dt: real, velocity: Velocity, shape: Shape, points: seq<Point>,
                             maxPoints: int, j: nat)
  {
    HitsAfter(turn, dt, velocity, shape, points, j + 1) > maxPoints
  }

  /** The time found is the start of the first colliding step within the horizon, or -1 when there is none. */
  lemma {:induction false} FirstHitIsFirst(turn: real -> Rotation, dt: real, velocity: Velocity, shape: Shape,
                                           points: seq<Point>,
                                           maxPoints: int, horizon: real, k: nat)
      returns (j: nat)
    requires dt > 0.0
    ensures k <= j && forall i: nat :: k <= i < j && i < Steps(horizon, dt) ==>
      !CollidesIn(turn, dt, velocity, shape, points, maxPoints, i)
    ensures var t := FirstHit(turn, dt, velocity, shape, points, maxPoints, horizon, k);
      if j < Steps(horizon, dt)
      then CollidesIn(turn, dt, velocity, shape, points, maxPoints, j) && t == Times(j as real, dt) &&
        0.0 <= t <= horizon
      else t == -1.0
    decreases Steps(horizon, dt) - k
  {
    hide Times, HitsAfter, Steps;
    j := k;
    if k < Steps(horizon, dt) {
      StepsWithinHorizon(horizon, dt, k);
      TimesAdds(0.0, 0.0, dt);
      TimesMonotone(0.0, k as real, dt);
      if !CollidesIn(turn, dt, velocity, shape, points, maxPoints, k) {
        j := FirstHitIsFirst(turn, dt, velocity, shape, points, maxPoints, horizon, k + 1);
      }
    }
  }

  /**
   Without any points a collision is reported exactly when none is tolerated: the test at rest then holds already for no
   points inside.
   */
  lemma NoPointsNoCollision(turn: real -> Rotation, dt: real, velocity: Velocity, shape: Shape, maxPoints: int,
                            horizon: real)
    requires dt > 0.0
    ensures CollisionTimeOf(turn, dt, velocity, shape, [], maxPoints, horizon) == (if maxPoints > 0 then -1.0 else 0.0)
  {
    hide Times, Steps, ToFrame, After, Holds;
    var j := FirstHitIsFirst(turn, dt, velocity, shape, [], maxPoints, horizon, 0);
    assert HitsAfter(turn, dt, velocity, shape, [], j + 1) == 0;
  }

  /** The time if the zone at rest were judged as it is while moving: more than maxPoints points inside. */
  function UniformTime(turn: real -> Rotation, dt: real, velocity: Velocity, shape: Shape, points: seq<Point>,
                       maxPoints: int, horizon: real): real
    requires dt > 0.0
  {
    if PointsInside(shape, points) > maxPoints then 0.0
    else FirstHit(turn, dt, velocity, shape, points, maxPoints, horizon, 0)
  }

  /**
   The test at rest counts maxPoints points as a collision and the one while moving does not. This changes the time
   exactly when just maxPoints points are inside at rest and the first step does not already collide.
   */
  lemma RestTestMatters(turn: real -> Rotation, dt: real, velocity: Velocity, shape: Shape, points: seq<Point>,
                        maxPoints: int, horizon: real)
    requires dt > 0.0
    ensures CollisionTimeOf(turn, dt, velocity, shape, points, maxPoints, horizon) !=
            UniformTime(turn, dt, velocity, shape, points, maxPoints, horizon) <==>
      && PointsInside(shape, points) == maxPoints
      && !(0 < Steps(horizon, dt) && CollidesIn(turn, dt, velocity, shape, points, maxPoints, 0))
  {
    hide Times, Steps, HitsAfter, PointsInside;
    var j := FirstHitIsFirst(turn, dt, velocity, shape, points, maxPoints, horizon, 0);
    TimesAdds(0.0, 0.0, dt);
    TimesMonotone(0.0, j as real, dt);
  }

  /** More points never make a collision come later, or vanish. */
  lemma {:induction false} MorePointsSooner(turn: real -> Rotation, dt: real, velocity: Velocity, shape: Shape,
                                            points: seq<Point>, more: seq<Point>, maxPoints: int, horizon: real)
    requires dt > 0.0
    ensures var t, t' := CollisionTimeOf(turn, dt, velocity, shape, points, maxPoints, horizon),
                         CollisionTimeOf(turn, dt, velocity, shape, points + more, maxPoints, horizon);
      t >= 0.0 ==> 0.0 <= t' <= t
    decreases |more|
  {
    hide Times, HitsAfter, Steps, PointsInside, FirstHit;
    if more == [] {
      assert points + more == points;
    } else {
      var init, p := more[..|more| - 1], more[|more| - 1];
      MorePointsSooner(turn, dt, velocity, shape, points, init, maxPoints, horizon);
      assert points + more == (points + init) + [p];
      OnePointMore(turn, dt, velocity, shape, points + init, p, maxPoints, horizon, 0);
      PointsInsideAppend(shape, points + init, p);
    }
  }

  lemma {:induction false} OnePointMore(turn: real -> Rotation, dt: real, velocity: Velocity, shape: Shape,
                                        points: seq<Point>, p: Point, maxPoints: int, horizon: real, k: nat)
    requires dt > 0.0
    ensures var t, t' := FirstHit(turn, dt, velocity, shape, points, maxPoints, horizon, k),
                         FirstHit(turn, dt, velocity, shape, points + [p], maxPoints, horizon, k);
      && (t >= 0.0 ==> Times(k as real, dt) <= t && Times(k as real, dt) <= t' <= t)
      && Times(k as real, dt) >= 0.0
    decreases Steps(horizon, dt) - k
  {
    hide Times, Steps, After, ToFrame, PointsInside, AllToFrame;
    TimesAdds(0.0, 0.0, dt);
    TimesMonotone(0.0, k as real, dt);
    TimesMonotone(k as real, (k + 1) as real, dt);
    if k < Steps(horizon, dt) {
      OnePointMore(turn, dt, velocity, shape, points, p, maxPoints, horizon, k + 1);
      var pose := After(turn, dt, velocity, k + 1).pose;
      AllToFrameAppend(turn(pose.theta), pose, points, p);
      PointsInsideAppend(shape, AllToFrame(turn(pose.theta), pose, points), ToFrame(turn(pose.theta), pose, p));
    }
  }
}
