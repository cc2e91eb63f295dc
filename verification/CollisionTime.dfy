/** Forward simulation of the moving, turning robot, and the time until points enter its polygon. */
module CollisionTime {
  import opened RealProducts
  import opened Polygons
  import opened PolygonGeometry

  /** Cosine and sine of an angle. */
  datatype Rotation = Rotation(c: real, s: real)

  datatype Pose = Pose(x: real, y: real, theta: real)

  datatype Velocity = Velocity(x: real, y: real, tw: real)

  predicate IsRotation(r: Rotation) {
    Times(r.c, r.c) + Times(r.s, r.s) == 1.0
  }

  /** The library's cosine and sine; all that is used of them is that they lie on the unit circle. */
  ghost predicate Trigonometry(turn: real -> Rotation) {
    forall angle :: IsRotation(turn(angle))
  }

  /** p in the frame of the pose. */
  function ToFrame(r: Rotation, pose: Pose, p: Point): Point {
    var mulX, mulY := p.x - pose.x, p.y - pose.y;
    Point(Times(mulX, r.c) + Times(mulY, r.s), -Times(mulX, r.s) + Times(mulY, r.c))
  }

  method TransformPoints(turn: real -> Rotation, pose: Pose, points: array<Point>)
    modifies points
    ensures forall k :: 0 <= k < points.Length ==> points[k] == ToFrame(turn(pose.theta), pose, old(points[k]))
  {
    var rotation := turn(pose.theta);
    var k := 0;
    while k < points.Length
      invariant 0 <= k <= points.Length
      invariant forall j :: 0 <= j < k ==> points[j] == ToFrame(rotation, pose, old(points[j]))
      invariant forall j :: k <= j < points.Length ==> points[j] == old(points[j])
    {
      var mulX := points[k].x - pose.x;
      var mulY := points[k].y - pose.y;
      points[k] := Point(Times(mulX, rotation.c) + Times(mulY, rotation.s),
                         -Times(mulX, rotation.s) + Times(mulY, rotation.c));
      k := k + 1;
    }
  }

  datatype State = State(pose: Pose, vel: Velocity)

  /** One simulation step: move along the velocity, turn the pose and the velocity. */
  function Project(turn: real -> Rotation, dt: real, st: State): State {
    var theta := Times(st.vel.tw, dt);
    var r := turn(theta);
    State(Pose(st.pose.x + Times(st.vel.x, dt), st.pose.y + Times(st.vel.y, dt), st.pose.theta + theta),
          Velocity(Times(st.vel.x, r.c) - Times(st.vel.y, r.s), Times(st.vel.x, r.s) + Times(st.vel.y, r.c), st.vel.tw))
  }

  /** The state after n steps from the robot's own frame. */
  function After(turn: real -> Rotation, dt: real, velocity: Velocity, n: nat): State {
    if n == 0 then State(Pose(0.0, 0.0, 0.0), velocity) else Project(turn, dt, After(turn, dt, velocity, n - 1))
  }

  /** Pose and velocity of the simulated robot, overwritten step by step. */
  class Simulation {
    var pose: Pose
    var vel: Velocity

    constructor (velocity: Velocity)
      ensures pose == Pose(0.0, 0.0, 0.0) && vel == velocity
    {
      pose, vel := Pose(0.0, 0.0, 0.0), velocity;
    }

    method ProjectState(turn: real -> Rotation, dt: real)
      modifies this
      ensures State(pose, vel) == Project(turn, dt, old(State(pose, vel)))
    {
      var theta := Times(vel.tw, dt);
      var rotation := turn(theta);
      pose := pose.(x := pose.x + Times(vel.x, dt), y := pose.y + Times(vel.y, dt));
      pose := pose.(theta := pose.theta + theta);
      var velX := Times(vel.x, rotation.c) - Times(vel.y, rotation.s);
      var velY := Times(vel.x, rotation.s) + Times(vel.y, rotation.c);
      vel := vel.(x := velX);
      vel := vel.(y := velY);
    }
  }

  // ---------- counting points ----------

  /** What a safety zone is made of; a circle is kept as the square of its radius. */
  datatype Shape = PolygonShape(vertices: seq<Point>) | CircleShape(radiusSquared: real)

  predicate Holds(shape: Shape, p: Point) {
    match shape
    case PolygonShape(vertices) => Inside(vertices, p)
    case CircleShape(radiusSquared) => Length2(p) < radiusSquared
  }

  function PointsInside(shape: Shape, points: seq<Point>): nat {
    if points == [] then 0
    else PointsInside(shape, points[..|points| - 1]) + (if Holds(shape, points[|points| - 1]) then 1 else 0)
  }

  method PolygonPointsInside(vertices: seq<Point>, points: array<Point>) returns (num: nat)
    ensures num == PointsInside(PolygonShape(vertices), points[..])
  {
    hide Inside;
    num := 0;
    var k := 0;
    while k < points.Length
      invariant 0 <= k <= points.Length
      invariant num == PointsInside(PolygonShape(vertices), points[..k])
    {
      assert points[..k + 1][..k] == points[..k];
      var inside := IsPointInside(vertices, points[k]);
      if inside {
        num := num + 1;
      }
      k := k + 1;
    }
    assert points[..k] == points[..];
  }

  method CirclePointsInside(radiusSquared: real, points: array<Point>) returns (num: nat)
    ensures num == PointsInside(CircleShape(radiusSquared), points[..])
  {
    hide Times;
    num := 0;
    var k := 0;
    while k < points.Length
      invariant 0 <= k <= points.Length
      invariant num == PointsInside(CircleShape(radiusSquared), points[..k])
    {
      assert points[..k + 1][..k] == points[..k];
      if Times(points[k].x, points[k].x) + Times(points[k].y, points[k].y) < radiusSquared {
        num := num + 1;
      }
      k := k + 1;
    }
    assert points[..k] == points[..];
  }

  /** The count of the zone's own class. */
  method GetPointsInside(shape: Shape, points: array<Point>) returns (num: nat)
    ensures num == PointsInside(shape, points[..])
  {
    match shape
    case PolygonShape(vertices) => num := PolygonPointsInside(vertices, points);
    case CircleShape(radiusSquared) => num := CirclePointsInside(radiusSquared, points);
  }

  function AllToFrame(r: Rotation, pose: Pose, points: seq<Point>): (moved: seq<Point>)
    ensures |moved| == |points|
  {
    seq(|points|, k requires 0 <= k < |points| => ToFrame(r, pose, points[k]))
  }

  // ---------- the simulated time ----------

  /** Number of steps whose start time is within the horizon. */
  function Steps(horizon: real, dt: real): nat
    requires dt > 0.0
  {
    if horizon < 0.0 then 0 else
      QuotientOrder(horizon, dt, 0.0);
      assert Times(0.0, dt) == 0.0;
      (horizon / dt).Floor + 1
  }

  lemma StepsWithinHorizon(horizon: real, dt: real, k: nat)
    requires dt > 0.0
    ensures k < Steps(horizon, dt) <==> Times(k as real, dt) <= horizon
  {
    hide Times;
    QuotientOrder(horizon, dt, k as real);
    TimesAdds(0.0, 0.0, dt);
    TimesMonotone(0.0, k as real, dt);
  }

  function HitsAfter(turn: real -> Rotation, dt: real, velocity: Velocity, shape: Shape, points: seq<Point>,
                     n: nat): nat {
    var pose := After(turn, dt, velocity, n).pose;
    PointsInside(shape, AllToFrame(turn(pose.theta), pose, points))
  }

  /** Start time of the first step from k on that ends with more than maxPoints points inside; -1 if there is none. */
  function FirstHit(turn: real -> Rotation, dt: real, velocity: Velocity, shape: Shape, points: seq<Point>,
                    maxPoints: int, horizon: real, k: nat): real
    requires dt > 0.0
    decreases Steps(horizon, dt) - k
  {
    if k >= Steps(horizon, dt) then -1.0
    else if HitsAfter(turn, dt, velocity, shape, points, k + 1) > maxPoints then Times(k as real, dt)
    else FirstHit(turn, dt, velocity, shape, points, maxPoints, horizon, k + 1)
  }

  function CollisionTimeOf(turn: real -> Rotation, dt: real, velocity: Velocity, shape: Shape, points: seq<Point>,
                           maxPoints: int, horizon: real): real
    requires dt > 0.0
  {
    if PointsInside(shape, points) >= maxPoints then 0.0
    else FirstHit(turn, dt, velocity, shape, points, maxPoints, horizon, 0)
  }

  method GetCollisionTime(turn: real -> Rotation, dt: real, velocity: Velocity, shape: Shape,
                          collisionPoints: array<Point>,
                          maxPoints: int, timeBeforeCollision: real) returns (result: real)
    requires dt > 0.0
    ensures result == CollisionTimeOf(turn, dt, velocity, shape, collisionPoints[..], maxPoints, timeBeforeCollision)
  {
    hide Times, ToFrame, Project, PointsInside, Steps;
    var sim := new Simulation(velocity);
    var num := GetPointsInside(shape, collisionPoints);
    if num >= maxPoints {
      return 0.0;
    }
    ghost var points := collisionPoints[..];
    ghost var k := 0;
    var time := 0.0;
    TimesAdds(0.0, 0.0, dt);
    StepsWithinHorizon(timeBeforeCollision, dt, k);
    while time <= timeBeforeCollision
      invariant time == Times(k as real, dt) && (k < Steps(timeBeforeCollision, dt) <==> time <= timeBeforeCollision)
      invariant State(sim.pose, sim.vel) == After(turn, dt, velocity, k)
      invariant FirstHit(turn, dt, velocity, shape, points, maxPoints, timeBeforeCollision, k) ==
                FirstHit(turn, dt, velocity, shape, points, maxPoints, timeBeforeCollision, 0)
      invariant fresh(sim) && collisionPoints[..] == points
      decreases Steps(timeBeforeCollision, dt) - k
    {
      sim.ProjectState(turn, dt);
      var pointsTransformed := new Point[collisionPoints.Length](
        j requires 0 <= j < collisionPoints.Length reads collisionPoints => collisionPoints[j]);
      TransformPoints(turn, sim.pose, pointsTransformed);
      assert pointsTransformed[..] == AllToFrame(turn(sim.pose.theta), sim.pose, points);
      num := GetPointsInside(shape, pointsTransformed);
      if num > maxPoints {
        return time;
      }
      TimesAdds(k as real, 1.0, dt);
      assert (k + 1) as real == k as real + 1.0;
      StepsWithinHorizon(timeBeforeCollision, dt, k + 1);
      time := time + dt;
      k := k + 1;
    }
    return -1.0;
  }
}
