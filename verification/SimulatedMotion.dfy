/** What the simulated motion is: the robot keeps driving its command as it sees it, and sees the points from there. */
module SimulatedMotion {
  import opened RealProducts
  import opened Polygons
  import opened PolygonGeometry
  import opened CollisionTime
  import opened CollisionLocality

  // ---------- the robot's frame ----------

  /** What the robot at the pose, turned by r, sees at q is p. */
  predicate SeenAt(r: Rotation, pose: Pose, q: Point, p: Point) {
    && p.x == pose.x + Times(q.x, r.c) - Times(q.y, r.s)
    && p.y == pose.y + Times(q.x, r.s) + Times(q.y, r.c)
  }

  /** Turned forth and back. */
  lemma TurnedBack(r: Rotation, x: real, y: real)
    requires IsRotation(r)
    ensures Times(Times(x, r.c) - Times(y, r.s), r.c) + Times(Times(x, r.s) + Times(y, r.c), r.s) == x
    ensures -Times(Times(x, r.c) - Times(y, r.s), r.s) + Times(Times(x, r.s) + Times(y, r.c), r.c) == y
    ensures Times(Times(x, r.c) + Times(y, r.s), r.c) - Times(-Times(x, r.s) + Times(y, r.c), r.s) == x
    ensures Times(Times(x, r.c) + Times(y, r.s), r.s) + Times(-Times(x, r.s) + Times(y, r.c), r.c) == y
  {
    TurnProducts(x, y, r.c, r.s);
    assert Times(x, 1.0) == x && Times(y, 1.0) == y;
  }

  lemma TurnProducts(x: real, y: real, c: real, s: real)
    ensures var one := Times(c, c) + Times(s, s);
      && Times(Times(x, c) - Times(y, s), c) + Times(Times(x, s) + Times(y, c), s) == Times(x, one)
      && -Times(Times(x, c) - Times(y, s), s) + Times(Times(x, s) + Times(y, c), c) == Times(y, one)
      && Times(Times(x, c) + Times(y, s), c) - Times(-Times(x, s) + Times(y, c), s) == Times(x, one)
      && Times(Times(x, c) + Times(y, s), s) + Times(-Times(x, s) + Times(y, c), c) == Times(y, one)
  {
  }

  /** The transformed point is where the robot sees the point, and nowhere else. */
  lemma FrameIsView(r: Rotation, pose: Pose, q: Point, p: Point)
    requires IsRotation(r)
    ensures SeenAt(r, pose, q, p) <==> q == ToFrame(r, pose, p)
  {
    hide Times, IsRotation;
    TurnedBack(r, q.x, q.y);
    TurnedBack(r, p.x - pose.x, p.y - pose.y);
  }

  // ---------- the motion ----------

  /** The angles' cosines and sines add up as angles do. */
  ghost predicate AnglesAdd(turn: real -> Rotation) {
    && turn(0.0) == Rotation(1.0, 0.0)
    && forall a, b :: turn(a + b) == Rotation(Times(turn(a).c, turn(b).c) - Times(turn(a).s, turn(b).s),
                                              Times(turn(a).c, turn(b).s) + Times(turn(a).s, turn(b).c))
  }

  lemma TurnTwice(a: Rotation, b: Rotation, x: real, y: real)
    ensures var u, v := Times(x, a.c) - Times(y, a.s), Times(x, a.s) + Times(y, a.c);
      var c, s := Times(a.c, b.c) - Times(a.s, b.s), Times(a.c, b.s) + Times(a.s, b.c);
      && Times(u, b.c) - Times(v, b.s) == Times(x, c) - Times(y, s)
      && Times(u, b.s) + Times(v, b.c) == Times(x, s) + Times(y, c)
  {
  }

  lemma AnglesAddAt(turn: real -> Rotation, a: real, b: real)
    requires AnglesAdd(turn)
    ensures turn(a + b) == Rotation(Times(turn(a).c, turn(b).c) - Times(turn(a).s, turn(b).s),
                                    Times(turn(a).c, turn(b).s) + Times(turn(a).s, turn(b).c))
    ensures turn(0.0) == Rotation(1.0, 0.0)
  {
    hide Times;
  }

  /** At every step the heading is the turning speed times the time, and the velocity is the command turned by it. */
  lemma {:induction false} VelocityTurnsAlong(turn: real -> Rotation, dt: real, cmd: Velocity, n: nat)
    requires AnglesAdd(turn)
    ensures var st := After(turn, dt, cmd, n);
      var r := turn(st.pose.theta);
      && st.pose.theta == Times(n as real, Times(cmd.tw, dt)) && st.vel.tw == cmd.tw
      && st.vel.x == Times(cmd.x, r.c) - Times(cmd.y, r.s)
      && st.vel.y == Times(cmd.x, r.s) + Times(cmd.y, r.c)
  {
    hide Times, AnglesAdd;
    var step := Times(cmd.tw, dt);
    TimesAdds((n - 1) as real, 1.0, step);
    if n == 0 {
      TimesAdds(0.0, 0.0, step);
      AnglesAddAt(turn, 0.0, 0.0);
      UnitTurn(cmd.x, cmd.y);
    } else {
      VelocityTurnsAlong(turn, dt, cmd, n - 1);
      assert n as real == (n - 1) as real + 1.0;
      var before := After(turn, dt, cmd, n - 1);
      AnglesAddAt(turn, before.pose.theta, step);
      TurnTwice(turn(before.pose.theta), turn(step), cmd.x, cmd.y);
    }
  }

  lemma UnitTurn(x: real, y: real)
    ensures Times(x, 1.0) - Times(y, 0.0) == x && Times(x, 0.0) + Times(y, 1.0) == y
  {
  }

  /** In each step the robot moves, as it sees it, by its command for the time of the step. */
  lemma StepDrivesCommand(turn: real -> Rotation, dt: real, cmd: Velocity, n: nat)
    requires AnglesAdd(turn)
    ensures var here, next := After(turn, dt, cmd, n).pose, After(turn, dt, cmd, n + 1).pose;
      && SeenAt(turn(here.theta), here, Point(Times(cmd.x, dt), Times(cmd.y, dt)), Point(next.x, next.y))
      && next.theta == here.theta + Times(cmd.tw, dt)
  {
    hide Times;
    VelocityTurnsAlong(turn, dt, cmd, n);
    var r := turn(After(turn, dt, cmd, n).pose.theta);
    ScaleTurned(cmd.x, cmd.y, r.c, r.s, dt);
  }

  lemma ScaleTurned(x: real, y: real, c: real, s: real, dt: real)
    ensures Times(Times(x, c) - Times(y, s), dt) == Times(Times(x, dt), c) - Times(Times(y, dt), s)
    ensures Times(Times(x, s) + Times(y, c), dt) == Times(Times(x, dt), s) + Times(Times(y, dt), c)
  {
  }

  /** Without turning the robot drives straight on. */
  lemma {:induction false} StraightOn(turn: real -> Rotation, dt: real, cmd: Velocity, n: nat)
    requires cmd.tw == 0.0 && turn(0.0) == Rotation(1.0, 0.0)
    ensures After(turn, dt, cmd, n) ==
      State(Pose(Times(n as real, Times(cmd.x, dt)), Times(n as real, Times(cmd.y, dt)), 0.0), cmd)
  {
    hide Times;
    TimesAdds((n - 1) as real, 1.0, Times(cmd.x, dt));
    TimesAdds((n - 1) as real, 1.0, Times(cmd.y, dt));
    TimesAdds(0.0, 0.0, dt);
    if n > 0 {
      StraightOn(turn, dt, cmd, n - 1);
      assert n as real == (n - 1) as real + 1.0;
      UnitTurn(cmd.x, cmd.y);
    }
  }

  // ---------- the points the robot has in its zone ----------

  /** A circle of the given radius holds the points nearer than that. */
  lemma CircleHolds(radius: real, p: Point, distance: real)
    requires radius >= 0.0 && distance >= 0.0 && Times(distance, distance) == Times(p.x, p.x) + Times(p.y, p.y)
    ensures Holds(CircleShape(Times(radius, radius)), p) <==> distance < radius
  {
    hide Times;
    SquareOrder(radius, distance);
  }

  /** Which of the points the robot at the pose has in its zone. */
  ghost function InZone(r: Rotation, pose: Pose, shape: Shape, points: seq<Point>): set<nat> {
    set k: nat | k < |points| && exists q :: SeenAt(r, pose, q, points[k]) && Holds(shape, q)
  }

  /** Which of the points lie in a zone around the origin. */
  ghost function Held(shape: Shape, points: seq<Point>): set<nat> {
    set k: nat | k < |points| && Holds(shape, points[k])
  }

  /** The count of points inside is the number of those that are. */
  lemma {:induction false} CountsHeld(shape: Shape, points: seq<Point>)
    ensures PointsInside(shape, points) == |Held(shape, points)|
  {
    hide Holds;
    if points != [] {
      var n := |points| - 1;
      CountsHeld(shape, points[..n]);
      if Holds(shape, points[n]) {
        assert Held(shape, points) == Held(shape, points[..n]) + {n};
      } else {
        assert Held(shape, points) == Held(shape, points[..n]);
      }
    }
  }

  lemma ZoneIsHeld(r: Rotation, pose: Pose, shape: Shape, points: seq<Point>)
    requires IsRotation(r)
    ensures InZone(r, pose, shape, points) == Held(shape, AllToFrame(r, pose, points))
  {
    hide SeenAt, Holds, ToFrame, IsRotation;
    forall k: nat | k < |points|
      ensures (exists q :: SeenAt(r, pose, q, points[k]) && Holds(shape, q)) <==>
        Holds(shape, ToFrame(r, pose, points[k]))
    {
      var seen := ToFrame(r, pose, points[k]);
      FrameIsView(r, pose, seen, points[k]);
      forall q ensures SeenAt(r, pose, q, points[k]) <==> q == seen { FrameIsView(r, pose, q, points[k]); }
    }
  }

  /** Step j, which begins at j * dt, ends with more than maxPoints points in the zone of the moved robot. */
  ghost predicate EndsInCollision(turn: real -> Rotation, dt: real, cmd: Velocity, shape: Shape, points: seq<Point>,
                                  maxPoints: int, j: nat)
  {
    var pose := After(turn, dt, cmd, j + 1).pose;
    |InZone(turn(pose.theta), pose, shape, points)| > maxPoints
  }

  lemma CollidesInZone(turn: real -> Rotation, dt: real, cmd: Velocity, shape: Shape, points: seq<Point>,
                       maxPoints: int, j: nat)
    requires Trigonometry(turn)
    ensures CollidesIn(turn, dt, cmd, shape, points, maxPoints, j) <==>
            EndsInCollision(turn, dt, cmd, shape, points, maxPoints, j)
  {
    hide After, Holds, ToFrame, IsRotation;
    var pose := After(turn, dt, cmd, j + 1).pose;
    ZoneIsHeld(turn(pose.theta), pose, shape, points);
    CountsHeld(shape, AllToFrame(turn(pose.theta), pose, points));
  }

  /** j is the first step, among those beginning within the horizon, that ends in a collision. */
  ghost predicate FirstCollision(turn: real -> Rotation, dt: real, cmd: Velocity, shape: Shape, points: seq<Point>,
                                 maxPoints: int, horizon: real, j: nat)
  {
    && Times(j as real, dt) <= horizon && EndsInCollision(turn, dt, cmd, shape, points, maxPoints, j)
    && forall i: nat :: i < j ==> !EndsInCollision(turn, dt, cmd, shape, points, maxPoints, i)
  }

  /**
   The returned time: 0 when maxPoints or more points are in the zone at rest, otherwise the start of the first step
   within the horizon that ends with more than maxPoints in the zone of the moved robot, and -1 when there is none.
   */
  lemma CollisionTimeExactly(turn: real -> Rotation, dt: real, cmd: Velocity, shape: Shape, points: seq<Point>,
                             maxPoints: int, horizon: real)
    requires dt > 0.0 && Trigonometry(turn)
    ensures var t := CollisionTimeOf(turn, dt, cmd, shape, points, maxPoints, horizon);
      if |Held(shape, points)| >= maxPoints then t == 0.0
      else
        || (t == -1.0 && forall j: nat :: EndsInCollision(turn, dt, cmd, shape, points, maxPoints, j) ==>
             Times(j as real, dt) > horizon)
        || (exists j: nat ::
             FirstCollision(turn, dt, cmd, shape, points, maxPoints, horizon, j) && t == Times(j as real, dt))
  {
    hide Times, HitsAfter, Steps, PointsInside, Held, EndsInCollision, Trigonometry, CollidesIn;
    CountsHeld(shape, points);
    var j := FirstHitIsFirst(turn, dt, cmd, shape, points, maxPoints, horizon, 0);
    forall i: nat
      ensures CollidesIn(turn, dt, cmd, shape, points, maxPoints, i) <==>
              EndsInCollision(turn, dt, cmd, shape, points, maxPoints, i)
      ensures EndsInCollision(turn, dt, cmd, shape, points, maxPoints, i) ==>
              (i < Steps(horizon, dt) <==> Times(i as real, dt) <= horizon)
    {
      CollidesInZone(turn, dt, cmd, shape, points, maxPoints, i);
      StepsWithinHorizon(horizon, dt, i);
    }
    StepsWithinHorizon(horizon, dt, j);
    if j < Steps(horizon, dt) {
      assert FirstCollision(turn, dt, cmd, shape, points, maxPoints, horizon, j);
    }
  }
}
