/** When the polygons of the collision monitor are triggered, in terms of the points in their zones. */
module SafetyZones {
  import opened RealProducts
  import opened Polygons
  import opened PolygonGeometry
  import opened CollisionTime
  import opened CollisionLocality
  import opened CollisionMonitor
  import opened SimulatedMotion

  /** The polygon is enabled, and more points than it tolerates are in its zone. */
  ghost predicate Triggered(p: SafetyPolygon, points: seq<Point>) {
    p.enabled && |Held(p.shape, points)| > p.maxPoints
  }

  lemma StopsWhenTriggered(p: SafetyPolygon, scene: Scene, cmd: Velocity)
    requires Configured(p)
    ensures Stops(p, scene, cmd) <==> p.kind == Stop && Triggered(p, scene.points)
  {
    hide Held, CollisionTimeOf;
    CountsHeld(p.shape, scene.points);
  }

  /** The robot is stopped exactly when the zone of some enabled stop polygon holds more points than it tolerates. */
  lemma StoppedExactly(polygons: seq<SafetyPolygon>, scene: Scene, cmd: Velocity)
    requires AllConfigured(polygons)
    ensures Decide(polygons, scene, cmd).kind == Stop <==>
      exists p :: p in polygons && p.kind == Stop && Triggered(p, scene.points)
    ensures Decide(polygons, scene, cmd).kind == Stop ==>
      var v := Decide(polygons, scene, cmd).reqVel; v.x == 0.0 && v.y == 0.0 && v.tw == 0.0
  {
    hide Decide, Stops, Triggered, Configured;
    StopWins(polygons, scene, cmd);
    forall p | p in polygons
      ensures Configured(p) && (Stops(p, scene, cmd) <==> p.kind == Stop && Triggered(p, scene.points))
    {
      StopsWhenTriggered(p, scene, cmd);
    }
  }

  lemma HeldGrows(shape: Shape, points: seq<Point>, more: seq<Point>)
    ensures |Held(shape, points)| <= |Held(shape, points + more)|
  {
    hide Holds;
    SubsetIsSmaller(Held(shape, points), Held(shape, points + more));
  }

  lemma {:induction false} SubsetIsSmaller(a: set<nat>, b: set<nat>)
    requires a <= b
    ensures |a| <= |b|
  {
    if a != {} {
      var x :| x in a;
      SubsetIsSmaller(a - {x}, b - {x});
    }
  }

  /** More points never take a stop away, wherever they are and whatever the command. */
  lemma MorePointsStillStop(polygons: seq<SafetyPolygon>, scene: Scene, more: seq<Point>, cmd: Velocity, cmd': Velocity)
    requires AllConfigured(polygons) && Decide(polygons, scene, cmd).kind == Stop
    ensures Decide(polygons, scene.(points := scene.points + more), cmd').kind == Stop
  {
    hide Decide, Held;
    StoppedExactly(polygons, scene, cmd);
    StoppedExactly(polygons, scene.(points := scene.points + more), cmd');
    var p :| p in polygons && p.kind == Stop && Triggered(p, scene.points);
    HeldGrows(p.shape, scene.points, more);
  }

  /** A slowdown polygon asks for its ratio exactly when triggered. */
  lemma SlowsWhenTriggered(p: SafetyPolygon, scene: Scene, cmd: Velocity, ratio: real)
    requires Configured(p) && p.kind == Slowdown
    ensures Limits(p, scene, cmd, ratio) <==> Triggered(p, scene.points) && ratio == p.slowdownRatio
  {
    hide Held;
    CountsHeld(p.shape, scene.points);
  }

  /**
   An approach polygon asks for no motion when it holds maxPoints or more points at rest; otherwise for the share of its
   horizon that the first collision of the simulated robot is away; and for nothing when there is none within it.
   */
  lemma ApproachesBefore(p: SafetyPolygon, scene: Scene, cmd: Velocity, ratio: real)
    requires Configured(p) && p.kind == Approach && Trigonometry(scene.turn)
    ensures Limits(p, scene, cmd, ratio) <==>
      p.enabled &&
      if |Held(p.shape, scene.points)| >= p.maxPoints then ratio == 0.0
      else exists j: nat ::
        && FirstCollision(scene.turn, p.simulationTimeStep, cmd, p.shape, scene.points, p.maxPoints,
                          p.timeBeforeCollision, j)
        && Times(ratio, p.timeBeforeCollision) == Times(j as real, p.simulationTimeStep)
  {
    hide Times, Held, CollisionTimeOf, EndsInCollision, Trigonometry;
    var dt, horizon := p.simulationTimeStep, p.timeBeforeCollision;
    CollisionTimeExactly(scene.turn, dt, cmd, p.shape, scene.points, p.maxPoints, horizon);
    var t := CollisionTimeOf(scene.turn, dt, cmd, p.shape, scene.points, p.maxPoints, horizon);
    TimesQuotient(t, horizon);
    TimesAdds(0.0, 0.0, horizon);
    TimesAdds(0.0, 0.0, dt);
    forall j: nat | FirstCollision(scene.turn, dt, cmd, p.shape, scene.points, p.maxPoints, horizon, j)
      ensures Times(j as real, dt) >= 0.0
    {
      TimesMonotone(0.0, j as real, dt);
    }
    SameFactor(ratio, t / horizon, horizon);
    SameFactor(0.0, t / horizon, horizon);
  }

  lemma SameFactor(a: real, b: real, k: real)
    requires k > 0.0
    ensures Times(a, k) == Times(b, k) <==> a == b
  {
    hide Times;
    TimesMonotone(a, b, k);
    TimesMonotone(b, a, k);
  }

  /** The kind of the action says who decided: nobody changed the command, or a polygon of that kind asked for it. */
  lemma {:induction false} KindTells(polygons: seq<SafetyPolygon>, scene: Scene, cmd: Velocity)
    requires AllConfigured(polygons)
    ensures var action := Decide(polygons, scene, cmd);
      match action.kind
      case DoNothing => action.reqVel == cmd
      case Stop => action.reqVel == ZERO
      case _ => exists p, ratio ::
        && p in polygons && p.kind == action.kind && Configured(p) && Limits(p, scene, cmd, ratio)
        && action.reqVel == Velocity(Times(cmd.x, ratio), Times(cmd.y, ratio), Times(cmd.tw, ratio))
        && Speed2(action.reqVel) < Speed2(cmd)
  {
    hide Respond, Times, Speed2, Configured;
    if polygons != [] {
      var init, last := polygons[..|polygons| - 1], polygons[|polygons| - 1];
      assert polygons == init + [last] && last in polygons;
      KindTells(init, scene, cmd);
      NeverFaster(init, scene, cmd);
      HaltOnlyStops(last, scene, cmd);
      if last.enabled && Respond(last, scene, cmd).Limit? {
        assert Limits(last, scene, cmd, Respond(last, scene, cmd).ratio);
      }
    }
  }
}
