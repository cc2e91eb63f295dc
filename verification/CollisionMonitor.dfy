/** The collision monitor: combining the safety polygons into one velocity, and publishing it. */
module CollisionMonitor {
  import opened RealProducts
  import opened Polygons
  import opened PolygonGeometry
  import opened CollisionTime
  import opened CollisionLocality

  datatype ActionType = DoNothing | Stop | Slowdown | Approach

  datatype Action = Action(kind: ActionType, reqVel: Velocity)

  datatype SafetyPolygon = SafetyPolygon(enabled: bool, kind: ActionType, shape: Shape, maxPoints: int,
                                         slowdownRatio: real, timeBeforeCollision: real, simulationTimeStep: real)

  const ZERO := Velocity(0.0, 0.0, 0.0)

  /** What orders velocities: rotation in place counts like motion. */
  function Speed2(v: Velocity): real {
    Times(v.x, v.x) + Times(v.y, v.y) + Times(v.tw, v.tw)
  }

  function Scaled(v: Velocity, k: real): Velocity {
    Velocity(Times(v.x, k), Times(v.y, k), Times(v.tw, k))
  }

  predicate IsZero(v: Velocity) {
    v.x == 0.0 && v.y == 0.0 && v.tw == 0.0
  }

  /** What the configuration demands: a positive step, and a positive horizon to divide by. */
  predicate Configured(p: SafetyPolygon) {
    p.kind == Approach ==> p.simulationTimeStep > 0.0 && p.timeBeforeCollision > 0.0
  }

  /** Everything one call sees besides the command. */
  datatype Scene = Scene(turn: real -> Rotation, points: seq<Point>)

  datatype Response = Ignore | Halt | Limit(ratio: real)

  /** What a polygon asks for, whatever the other polygons do. */
  function Respond(p: SafetyPolygon, scene: Scene, cmd: Velocity): Response
    requires Configured(p)
  {
    match p.kind
    case Stop => if PointsInside(p.shape, scene.points) > p.maxPoints then Halt else Ignore
    case Slowdown => if PointsInside(p.shape, scene.points) > p.maxPoints then Limit(p.slowdownRatio) else Ignore
    case Approach =>
      var t := CollisionTimeOf(scene.turn, p.simulationTimeStep, cmd, p.shape, scene.points, p.maxPoints,
                               p.timeBeforeCollision);
      if t >= 0.0 then Limit(t / p.timeBeforeCollision) else Ignore
    case DoNothing => Ignore
  }

  /** The action after one more polygon; a stop already decided stays. */
  function Combine(p: SafetyPolygon, scene: Scene, cmd: Velocity, action: Action): Action
    requires Configured(p)
  {
    if !p.enabled || action.kind == Stop then action
    else match Respond(p, scene, cmd)
      case Ignore => action
      case Halt => Action(Stop, ZERO)
      case Limit(ratio) =>
        if Speed2(Scaled(cmd, ratio)) < Speed2(action.reqVel) then Action(p.kind, Scaled(cmd, ratio)) else action
  }

  ghost predicate AllConfigured(polygons: seq<SafetyPolygon>) {
    forall k :: 0 <= k < |polygons| ==> Configured(polygons[k])
  }

  /** The action after all polygons. */
  function Decide(polygons: seq<SafetyPolygon>, scene: Scene, cmd: Velocity): Action
    requires AllConfigured(polygons)
  {
    if polygons == [] then Action(DoNothing, cmd)
    else Combine(polygons[|polygons| - 1], scene, cmd, Decide(polygons[..|polygons| - 1], scene, cmd))
  }

  // ---------- the loop of process ----------

  method ProcessStopSlowdown(p: SafetyPolygon, points: array<Point>, velocity: Velocity, action: Action)
      returns (changed: bool, result: Action)
    requires p.enabled && action.kind != Stop && (p.kind == Stop || p.kind == Slowdown)
    ensures forall scene: Scene :: scene.points == points[..] ==> result == Combine(p, scene, velocity, action)
    ensures changed <==> result != action || (p.kind == Stop && result.kind == Stop)
  {
    hide PointsInside, Times;
    result, changed := action, false;
    var num := GetPointsInside(p.shape, points);
    if num > p.maxPoints {
      if p.kind == Stop {
        return true, Action(Stop, ZERO);
      }
      var safeVel := Scaled(velocity, p.slowdownRatio);
      if Speed2(safeVel) < Speed2(action.reqVel) {
        return true, Action(Slowdown, safeVel);
      }
    }
  }

  method ProcessApproach(p: SafetyPolygon, turn: real -> Rotation, points: array<Point>, velocity: Velocity,
                         action: Action)
      returns (changed: bool, result: Action)
    requires p.enabled && action.kind != Stop && p.kind == Approach && Configured(p)
    ensures result == Combine(p, Scene(turn, points[..]), velocity, action)
    ensures changed <==> result != action
  {
    hide CollisionTimeOf, Times;
    result, changed := action, false;
    var collisionTime := GetCollisionTime(turn, p.simulationTimeStep, velocity, p.shape, points, p.maxPoints,
                                          p.timeBeforeCollision);
    if collisionTime >= 0.0 {
      var changeRatio := collisionTime / p.timeBeforeCollision;
      var safeVel := Scaled(velocity, changeRatio);
      if Speed2(safeVel) < Speed2(action.reqVel) {
        return true, Action(Approach, safeVel);
      }
    }
  }

  /** The loop over the polygons, with its early exit. */
  method DecideAction(polygons: seq<SafetyPolygon>, turn: real -> Rotation, points: array<Point>, cmd: Velocity)
      returns (action: Action)
    requires AllConfigured(polygons)
    ensures action == Decide(polygons, Scene(turn, points[..]), cmd)
  {
    hide Combine;
    ghost var scene := Scene(turn, points[..]);
    action := Action(DoNothing, cmd);
    var k := 0;
    while k < |polygons|
      invariant 0 <= k <= |polygons|
      invariant action == Decide(polygons[..k], scene, cmd)
    {
      var p := polygons[k];
      assert polygons[..k + 1][..k] == polygons[..k];
      if action.kind == Stop && p.enabled {
        StopStays(polygons, scene, cmd, k);
        return;
      }
      SkipDisabled(p, scene, cmd, action);
      if p.enabled {
        var changed;
        if p.kind == Stop || p.kind == Slowdown {
          changed, action := ProcessStopSlowdown(p, points, cmd, action);
        } else if p.kind == Approach {
          changed, action := ProcessApproach(p, turn, points, cmd, action);
        } else {
          OtherKindsIgnored(p, scene, cmd, action);
        }
      }
      k := k + 1;
    }
    assert polygons[..k] == polygons;
  }

  lemma SkipDisabled(p: SafetyPolygon, scene: Scene, cmd: Velocity, action: Action)
    requires Configured(p)
    ensures !p.enabled ==> Combine(p, scene, cmd, action) == action
  {
  }

  lemma OtherKindsIgnored(p: SafetyPolygon, scene: Scene, cmd: Velocity, action: Action)
    requires p.kind == DoNothing
    ensures Combine(p, scene, cmd, action) == action
  {
  }

  /** The early exit is harmless: after a stop the remaining polygons change nothing. */
  lemma {:induction false} StopStays(polygons: seq<SafetyPolygon>, scene: Scene, cmd: Velocity, k: nat)
    requires AllConfigured(polygons) && k <= |polygons| && Decide(polygons[..k], scene, cmd).kind == Stop
    ensures Decide(polygons, scene, cmd) == Decide(polygons[..k], scene, cmd)
    decreases |polygons| - k
  {
    hide Respond;
    if k < |polygons| {
      var init := polygons[..|polygons| - 1];
      assert init[..k] == polygons[..k];
      StopStays(init, scene, cmd, k);
    } else {
      assert polygons[..k] == polygons;
    }
  }

  // ---------- order independence ----------

  /** p is enabled, stops, and is triggered. */
  predicate Stops(p: SafetyPolygon, scene: Scene, cmd: Velocity)
    requires Configured(p)
  {
    p.enabled && Respond(p, scene, cmd) == Halt
  }

  /** p is enabled and asks for cmd scaled by ratio. */
  predicate Limits(p: SafetyPolygon, scene: Scene, cmd: Velocity, ratio: real)
    requires Configured(p)
  {
    p.enabled && Respond(p, scene, cmd) == Limit(ratio)
  }

  /** A triggered, enabled stop polygon, wherever it stands, forces a stop at zero; without one there is no stop. */
  lemma {:induction false} StopWins(polygons: seq<SafetyPolygon>, scene: Scene, cmd: Velocity)
    requires AllConfigured(polygons)
    ensures (exists p :: p in polygons && Configured(p) && Stops(p, scene, cmd)) <==>
      Decide(polygons, scene, cmd).kind == Stop
    ensures Decide(polygons, scene, cmd).kind == Stop ==> Decide(polygons, scene, cmd).reqVel == ZERO
  {
    hide Times;
    if polygons != [] {
      var init, last := polygons[..|polygons| - 1], polygons[|polygons| - 1];
      StopWins(init, scene, cmd);
      assert polygons == init + [last];
      assert last in polygons;
      HaltOnlyStops(last, scene, cmd);
    }
  }

  lemma HaltOnlyStops(p: SafetyPolygon, scene: Scene, cmd: Velocity)
    requires Configured(p)
    ensures Respond(p, scene, cmd) == Halt ==> p.kind == Stop
    ensures Respond(p, scene, cmd).Limit? ==> p.kind == Slowdown || p.kind == Approach
  {
  }

  /** Without a stop the velocity is the command or one asked for by a polygon, and the slowest of them. */
  lemma {:induction false} SlowestWins(polygons: seq<SafetyPolygon>, scene: Scene, cmd: Velocity)
    requires AllConfigured(polygons) && Decide(polygons, scene, cmd).kind != Stop
    ensures var v := Decide(polygons, scene, cmd).reqVel;
      && Speed2(v) <= Speed2(cmd)
      && (forall p, ratio :: p in polygons && Configured(p) && Limits(p, scene, cmd, ratio) ==>
        Speed2(v) <= Speed2(Scaled(cmd, ratio)))
      && (v == cmd ||
          exists p, ratio :: p in polygons && Configured(p) && Limits(p, scene, cmd, ratio) && v == Scaled(cmd, ratio))
  {
    hide Times, Speed2, Scaled;
    if polygons != [] {
      var init, last := polygons[..|polygons| - 1], polygons[|polygons| - 1];
      assert polygons == init + [last];
      assert last in polygons;
      HaltOnlyStops(last, scene, cmd);
      SlowestWins(init, scene, cmd);
      var v := Decide(polygons, scene, cmd).reqVel;
      if last.enabled && Respond(last, scene, cmd).Limit? {
        assert Limits(last, scene, cmd, Respond(last, scene, cmd).ratio);
      }
    }
  }

  /** The published velocity is never faster than the command. */
  lemma NeverFaster(polygons: seq<SafetyPolygon>, scene: Scene, cmd: Velocity)
    requires AllConfigured(polygons)
    ensures Speed2(Decide(polygons, scene, cmd).reqVel) <= Speed2(cmd)
  {
    hide Times, Decide;
    if Decide(polygons, scene, cmd).kind == Stop {
      StopWins(polygons, scene, cmd);
      SquareNonNegative(cmd.x);
      SquareNonNegative(cmd.y);
      SquareNonNegative(cmd.tw);
      TimesAdds(0.0, 0.0, 0.0);
    } else {
      SlowestWins(polygons, scene, cmd);
    }
  }

  /** Scaling multiplies the squared speed by the square of the factor. */
  lemma RatioOfSpeeds(cmd: Velocity, k: real)
    ensures Speed2(Scaled(cmd, k)) == Times(Speed2(cmd), Times(k, k))
  {
    ScaledSquare(cmd.x, k);
    ScaledSquare(cmd.y, k);
    ScaledSquare(cmd.tw, k);
    hide Times;
    TimesAdds(Times(cmd.x, cmd.x), Times(cmd.y, cmd.y), Times(k, k));
    TimesAdds(Times(cmd.x, cmd.x) + Times(cmd.y, cmd.y), Times(cmd.tw, cmd.tw), Times(k, k));
  }

  lemma ScaledSquare(a: real, k: real)
    ensures Times(Times(a, k), Times(a, k)) == Times(Times(a, a), Times(k, k))
  {
  }

  lemma ZeroScales(k: real)
    ensures Scaled(ZERO, k) == ZERO
  {
  }

  lemma SpeedOfZero(v: Velocity)
    requires Speed2(v) == 0.0
    ensures v == ZERO
  {
    hide Times;
    SquareZero(v.x);
    SquareZero(v.y);
    SquareZero(v.tw);
    SquareNonNegative(v.x);
    SquareNonNegative(v.y);
    SquareNonNegative(v.tw);
  }

  lemma SquareZero(a: real)
    ensures Times(a, a) == 0.0 <==> a == 0.0
  {
    hide Times;
    TimesAdds(0.0, 0.0, a);
    if a > 0.0 { TimesMonotone(0.0, a, a); }
    if a < 0.0 { TimesNegative(a, 0.0, a); }
  }

  lemma TimesCommutes(a: real, b: real)
    ensures Times(a, b) == Times(b, a)
  {
  }

  lemma SpeedNonNegative(v: Velocity)
    ensures Speed2(v) >= 0.0
  {
    hide Times;
    SquareNonNegative(v.x);
    SquareNonNegative(v.y);
    SquareNonNegative(v.tw);
  }

  /** Every limit asked for is a non-negative multiple of the command. */
  ghost predicate RatiosNonNegative(polygons: seq<SafetyPolygon>) {
    forall p :: p in polygons && p.kind == Slowdown ==> p.slowdownRatio >= 0.0
  }

  lemma LimitsNonNegative(polygons: seq<SafetyPolygon>, p: SafetyPolygon, scene: Scene, cmd: Velocity, ratio: real)
    requires RatiosNonNegative(polygons) && p in polygons && Configured(p) && Limits(p, scene, cmd, ratio)
    ensures ratio >= 0.0
  {
    hide CollisionTimeOf, Times;
    if p.kind == Approach {
      var t := CollisionTimeOf(scene.turn, p.simulationTimeStep, cmd, p.shape, scene.points, p.maxPoints,
                               p.timeBeforeCollision);
      QuotientOrder(t, p.timeBeforeCollision, 0.0);
      TimesAdds(0.0, 0.0, p.timeBeforeCollision);
    }
  }

  // ---------- when the order decides ----------

  /** Some enabled, triggered polygon asks for cmd scaled by ratio. */
  ghost predicate AsksFor(polygons: seq<SafetyPolygon>, scene: Scene, cmd: Velocity, ratio: real) {
    exists p :: p in polygons && Configured(p) && Limits(p, scene, cmd, ratio)
  }

  ghost predicate SomeStops(polygons: seq<SafetyPolygon>, scene: Scene, cmd: Velocity) {
    exists p :: p in polygons && Configured(p) && Stops(p, scene, cmd)
  }

  /** Both r and -r are asked for, slower than the command, and nothing slower is. */
  ghost predicate OppositeSlowest(polygons: seq<SafetyPolygon>, scene: Scene, cmd: Velocity, r: real) {
    && 0.0 < r < 1.0 && AsksFor(polygons, scene, cmd, r) && AsksFor(polygons, scene, cmd, -r)
    && forall k :: AsksFor(polygons, scene, cmd, k) ==> r <= k || r <= -k
  }

  /** A moving command, nobody stops it, and the slowest limits point in opposite directions. */
  ghost predicate Ambiguous(polygons: seq<SafetyPolygon>, scene: Scene, cmd: Velocity) {
    && cmd != ZERO && !SomeStops(polygons, scene, cmd)
    && exists r :: OppositeSlowest(polygons, scene, cmd, r)
  }

  /** The same polygons, in any order. */
  ghost predicate Reordered(a: seq<SafetyPolygon>, b: seq<SafetyPolygon>) {
    multiset(a) == multiset(b)
  }

  lemma ReorderedMembers(a: seq<SafetyPolygon>, b: seq<SafetyPolygon>)
    requires Reordered(a, b)
    ensures forall p :: p in a <==> p in b
    ensures AllConfigured(a) ==> AllConfigured(b)
  {
    forall p ensures p in a <==> p in b {
      assert p in multiset(a) <==> p in multiset(b);
    }
    if AllConfigured(a) {
      forall k | 0 <= k < |b| ensures Configured(b[k]) {
        assert b[k] in a;
      }
    }
  }

  /** The velocity is the command itself, or strictly slower and asked for by a polygon. */
  lemma {:induction false} CommandOrSlower(polygons: seq<SafetyPolygon>, scene: Scene, cmd: Velocity)
    requires AllConfigured(polygons) && Decide(polygons, scene, cmd).kind != Stop
    ensures var v := Decide(polygons, scene, cmd).reqVel;
      v == cmd || (Speed2(v) < Speed2(cmd) && exists k :: AsksFor(polygons, scene, cmd, k) && v == Scaled(cmd, k))
  {
    hide Times, Speed2, Scaled, Respond;
    if polygons != [] {
      var init, last := polygons[..|polygons| - 1], polygons[|polygons| - 1];
      assert polygons == init + [last] && last in polygons;
      CommandOrSlower(init, scene, cmd);
      MoreAsked(init, last, scene, cmd);
      var v := Decide(polygons, scene, cmd).reqVel;
      SlowestWins(polygons, scene, cmd);
      if last.enabled && Respond(last, scene, cmd).Limit? {
        assert Limits(last, scene, cmd, Respond(last, scene, cmd).ratio);
      }
    }
  }

  lemma MoreAsked(init: seq<SafetyPolygon>, last: SafetyPolygon, scene: Scene, cmd: Velocity)
    requires Configured(last)
    ensures forall k :: AsksFor(init, scene, cmd, k) ==> AsksFor(init + [last], scene, cmd, k)
    ensures forall k :: Limits(last, scene, cmd, k) ==> AsksFor(init + [last], scene, cmd, k)
  {
    hide Limits, Configured;
    assert last in init + [last];
  }

  lemma SpeedOfRatio(cmd: Velocity, a: real, b: real)
    requires cmd != ZERO
    ensures Speed2(Scaled(cmd, a)) <= Speed2(Scaled(cmd, b)) <==> Times(a, a) <= Times(b, b)
    ensures Speed2(Scaled(cmd, a)) < Speed2(cmd) <==> Times(a, a) < 1.0
  {
    hide Times, Speed2, Scaled;
    RatioOfSpeeds(cmd, a);
    RatioOfSpeeds(cmd, b);
    SpeedNonNegative(cmd);
    if Speed2(cmd) == 0.0 { SpeedOfZero(cmd); }
    TimesCommutes(Speed2(cmd), Times(a, a));
    TimesCommutes(Speed2(cmd), Times(b, b));
    TimesMonotone(Times(a, a), Times(b, b), Speed2(cmd));
    TimesMonotone(Times(b, b), Times(a, a), Speed2(cmd));
    TimesAdds(0.0, 0.0, Speed2(cmd));
    TimesMonotone(Times(a, a), 1.0, Speed2(cmd));
    TimesMonotone(1.0, Times(a, a), Speed2(cmd));
  }

  lemma SquaresByMagnitude(a: real, r: real)
    requires r >= 0.0
    ensures Times(r, r) <= Times(a, a) <==> r <= a || r <= -a
    ensures Times(a, a) == Times(r, r) <==> a == r || a == -r
    ensures Times(a, a) == Times(-a, -a)
  {
    assert Times(a, a) == Times(-a, -a);
    hide Times;
    var m := if a >= 0.0 then a else -a;
    SquareOrder(r, m);
    SquareOrder(m, r);
  }

  /** A limit at the front that nobody undercuts is the one taken. */
  lemma {:induction false} FrontWins(polygons: seq<SafetyPolygon>, scene: Scene, cmd: Velocity, a: real)
    requires AllConfigured(polygons) && polygons != [] && Limits(polygons[0], scene, cmd, a)
    requires !SomeStops(polygons, scene, cmd) && Speed2(Scaled(cmd, a)) < Speed2(cmd)
    requires forall k :: AsksFor(polygons, scene, cmd, k) ==> Speed2(Scaled(cmd, a)) <= Speed2(Scaled(cmd, k))
    ensures Decide(polygons, scene, cmd).reqVel == Scaled(cmd, a) && Decide(polygons, scene, cmd).kind != Stop
    decreases |polygons|
  {
    hide Times, Speed2, Scaled, Respond;
    StopWins(polygons, scene, cmd);
    var init, last := polygons[..|polygons| - 1], polygons[|polygons| - 1];
    assert polygons == init + [last] && last in polygons;
    MoreAsked(init, last, scene, cmd);
    if init != [] {
      assert !SomeStops(init, scene, cmd) by {
        assert forall p :: p in init ==> p in polygons;
      }
      FrontWins(init, scene, cmd, a);
      if last.enabled && Respond(last, scene, cmd).Limit? {
        assert Limits(last, scene, cmd, Respond(last, scene, cmd).ratio);
      }
    }
  }

  /** A polygon moved to the front. */
  lemma MoveToFront(polygons: seq<SafetyPolygon>, p: SafetyPolygon) returns (reordered: seq<SafetyPolygon>)
    requires p in polygons
    ensures Reordered(polygons, reordered) && reordered != [] && reordered[0] == p
  {
    var i :| 0 <= i < |polygons| && polygons[i] == p;
    reordered := [p] + polygons[..i] + polygons[i + 1..];
    assert polygons == polygons[..i] + [p] + polygons[i + 1..];
  }

  lemma SameMembersSameAnswers(a: seq<SafetyPolygon>, b: seq<SafetyPolygon>, scene: Scene, cmd: Velocity)
    requires forall p :: p in a <==> p in b
    ensures SomeStops(a, scene, cmd) == SomeStops(b, scene, cmd)
    ensures forall k :: AsksFor(a, scene, cmd, k) == AsksFor(b, scene, cmd, k)
    ensures Ambiguous(a, scene, cmd) == Ambiguous(b, scene, cmd)
  {
    hide Limits, Stops, Configured;
    forall k ensures AsksFor(a, scene, cmd, k) == AsksFor(b, scene, cmd, k) {
    }
    assert forall r :: OppositeSlowest(a, scene, cmd, r) == OppositeSlowest(b, scene, cmd, r);
  }

  /** With ratio asked for among the slowest, some order takes it. */
  lemma SomeOrderTakes(polygons: seq<SafetyPolygon>, scene: Scene, cmd: Velocity, r: real, a: real)
      returns (reordered: seq<SafetyPolygon>)
    requires AllConfigured(polygons) && cmd != ZERO && !SomeStops(polygons, scene, cmd)
    requires OppositeSlowest(polygons, scene, cmd, r) && (a == r || a == -r)
    ensures Reordered(polygons, reordered) && AllConfigured(reordered)
    ensures Decide(reordered, scene, cmd).reqVel == Scaled(cmd, a)
  {
    hide Times, Speed2, Scaled, Decide, Limits, Stops, Configured;
    var p :| p in polygons && Configured(p) && Limits(p, scene, cmd, a);
    reordered := MoveToFront(polygons, p);
    ReorderedMembers(polygons, reordered);
    SameMembersSameAnswers(polygons, reordered, scene, cmd);
    SquaresByMagnitude(a, r);
    SquaresByMagnitude(1.0, r);
    TimesAdds(1.0, 0.0, 1.0);
    SquareOrder(1.0, r);
    SpeedOfRatio(cmd, a, a);
    forall k | AsksFor(reordered, scene, cmd, k) ensures Speed2(Scaled(cmd, a)) <= Speed2(Scaled(cmd, k)) {
      SquaresByMagnitude(k, r);
      SpeedOfRatio(cmd, a, k);
    }
    FrontWins(reordered, scene, cmd, a);
  }

  /** Where two orders differ, the two velocities are opposite and the slowest asked for. */
  lemma DifferenceIsAmbiguous(polygons: seq<SafetyPolygon>, reordered: seq<SafetyPolygon>, scene: Scene, cmd: Velocity)
    requires AllConfigured(polygons) && AllConfigured(reordered)
    requires forall p :: p in polygons <==> p in reordered
    requires Decide(polygons, scene, cmd).reqVel != Decide(reordered, scene, cmd).reqVel
    ensures Ambiguous(polygons, scene, cmd)
  {
    hide Times, Speed2, Scaled, Decide, Limits, Stops, Configured;
    StopWins(polygons, scene, cmd);
    StopWins(reordered, scene, cmd);
    SameMembersSameAnswers(polygons, reordered, scene, cmd);
    assert !SomeStops(polygons, scene, cmd);
    SlowestWins(polygons, scene, cmd);
    SlowestWins(reordered, scene, cmd);
    CommandOrSlower(polygons, scene, cmd);
    CommandOrSlower(reordered, scene, cmd);
    var v, w := Decide(polygons, scene, cmd).reqVel, Decide(reordered, scene, cmd).reqVel;
    assert Speed2(v) == Speed2(w);
    var a :| AsksFor(polygons, scene, cmd, a) && v == Scaled(cmd, a);
    var b :| AsksFor(polygons, scene, cmd, b) && w == Scaled(cmd, b);
    if cmd == ZERO {
      ZeroScales(a);
      ZeroScales(b);
      assert false;
    }
    SpeedOfRatio(cmd, a, b);
    SpeedOfRatio(cmd, b, a);
    var r := if a >= 0.0 then a else -a;
    SquaresByMagnitude(a, r);
    SquaresByMagnitude(b, r);
    SquareOrder(1.0, r);
    TimesAdds(1.0, 0.0, 1.0);
    assert a == -b && r > 0.0;
    forall k | AsksFor(polygons, scene, cmd, k) ensures r <= k || r <= -k {
      SpeedOfRatio(cmd, a, k);
      SquaresByMagnitude(k, r);
    }
    assert OppositeSlowest(polygons, scene, cmd, r);
  }

  /**
   Some order of the polygons changes the velocity exactly when the command moves, no polygon stops it, and the
   slowest limits asked for are slower than the command and opposite to each other.
   */
  lemma OrderMattersExactly(polygons: seq<SafetyPolygon>, scene: Scene, cmd: Velocity)
    requires AllConfigured(polygons)
    ensures Ambiguous(polygons, scene, cmd) <==>
      exists reordered :: Reordered(polygons, reordered) && AllConfigured(reordered) &&
                          Decide(reordered, scene, cmd).reqVel != Decide(polygons, scene, cmd).reqVel
  {
    hide Times, Scaled, Decide, Configured, AllConfigured, AsksFor, SomeStops, Reordered;
    if Ambiguous(polygons, scene, cmd) {
      var r :| OppositeSlowest(polygons, scene, cmd, r);
      var forward := SomeOrderTakes(polygons, scene, cmd, r, r);
      var backward := SomeOrderTakes(polygons, scene, cmd, r, -r);
      OppositesDiffer(cmd, r);
    }
    forall reordered | Reordered(polygons, reordered) && AllConfigured(reordered) &&
                       Decide(reordered, scene, cmd).reqVel != Decide(polygons, scene, cmd).reqVel
      ensures Ambiguous(polygons, scene, cmd)
    {
      ReorderedMembers(polygons, reordered);
      DifferenceIsAmbiguous(polygons, reordered, scene, cmd);
    }
  }

  /**
   * Unless the slowest limits are opposite, any order gives the same velocity; with no negative ratio they never are.
   */
  lemma OrderIrrelevant(polygons: seq<SafetyPolygon>, reordered: seq<SafetyPolygon>, scene: Scene, cmd: Velocity)
    requires AllConfigured(polygons) && AllConfigured(reordered)
    requires forall p :: p in polygons <==> p in reordered
    ensures RatiosNonNegative(polygons) ==> !Ambiguous(polygons, scene, cmd)
    ensures !Ambiguous(polygons, scene, cmd) ==>
      Decide(polygons, scene, cmd).reqVel == Decide(reordered, scene, cmd).reqVel
    ensures Decide(polygons, scene, cmd).kind == Stop <==> Decide(reordered, scene, cmd).kind == Stop
  {
    hide Times, Speed2, Scaled, Decide, Limits, Stops, Configured, RatiosNonNegative, Ambiguous;
    StopWins(polygons, scene, cmd);
    StopWins(reordered, scene, cmd);
    if RatiosNonNegative(polygons) { NonNegativeUnambiguous(polygons, scene, cmd); }
    if Decide(polygons, scene, cmd).reqVel != Decide(reordered, scene, cmd).reqVel {
      DifferenceIsAmbiguous(polygons, reordered, scene, cmd);
    }
  }

  lemma NonNegativeUnambiguous(polygons: seq<SafetyPolygon>, scene: Scene, cmd: Velocity)
    requires RatiosNonNegative(polygons)
    ensures !Ambiguous(polygons, scene, cmd)
  {
    hide Limits, Stops, Configured, RatiosNonNegative;
    forall k | AsksFor(polygons, scene, cmd, k) ensures k >= 0.0 {
      var p :| p in polygons && Configured(p) && Limits(p, scene, cmd, k);
      LimitsNonNegative(polygons, p, scene, cmd, k);
    }
  }

  /** Of two equally slow limits the earlier polygon's is taken. */
  lemma TieKeepsFirst(p: SafetyPolygon, q: SafetyPolygon, scene: Scene, cmd: Velocity, a: real, b: real)
    requires AllConfigured([p, q]) && Configured(p) && Configured(q) && Limits(p, scene, cmd, a) &&
      Limits(q, scene, cmd, b)
    requires Speed2(Scaled(cmd, a)) == Speed2(Scaled(cmd, b)) < Speed2(cmd)
    ensures Decide([p, q], scene, cmd).reqVel == Scaled(cmd, a)
  {
    hide Speed2, Scaled, Respond;
    HaltOnlyStops(p, scene, cmd);
    assert [p, q][..1] == [p] && [p][..0] == [];
    assert Decide([p], scene, cmd) == Action(p.kind, Scaled(cmd, a));
  }

  /**
   Two triggered limits, of any kind, to r and -r of a moving command: the first polygon wins, so the robot goes
   forward or backward by the order of the two.
   */
  lemma OppositeRatiosOrderMatters(p: SafetyPolygon, q: SafetyPolygon, scene: Scene, cmd: Velocity, r: real)
    requires Configured(p) && Configured(q) && Limits(p, scene, cmd, r) && Limits(q, scene, cmd, -r)
    requires cmd != ZERO && 0.0 < r < 1.0
    ensures AllConfigured([p, q]) && AllConfigured([q, p])
    ensures Decide([p, q], scene, cmd).reqVel == Scaled(cmd, r)
    ensures Decide([q, p], scene, cmd).reqVel == Scaled(cmd, -r) != Scaled(cmd, r)
  {
    hide Speed2, Scaled, Times, Limits, Configured, Decide;
    SpeedOfRatio(cmd, r, -r);
    SpeedOfRatio(cmd, -r, r);
    SquaresByMagnitude(r, r);
    TimesAdds(1.0, 0.0, 1.0);
    SquareOrder(1.0, r);
    TieKeepsFirst(p, q, scene, cmd, r, -r);
    TieKeepsFirst(q, p, scene, cmd, -r, r);
    OppositesDiffer(cmd, r);
  }

  /**
   * A slowdown to minus the share of the horizon left to an approach polygon's collision conflicts with that polygon.
   */
  lemma SlowdownAgainstApproach(p: SafetyPolygon, q: SafetyPolygon, scene: Scene, cmd: Velocity, t: real)
    requires p.enabled && p.kind == Approach && Configured(p) && q.enabled && q.kind == Slowdown
    requires t == CollisionTimeOf(scene.turn, p.simulationTimeStep, cmd, p.shape, scene.points, p.maxPoints,
                                  p.timeBeforeCollision)
    requires 0.0 < t < p.timeBeforeCollision && q.slowdownRatio == -(t / p.timeBeforeCollision)
    requires PointsInside(q.shape, scene.points) > q.maxPoints && cmd != ZERO
    ensures AllConfigured([p, q]) && AllConfigured([q, p])
    ensures Decide([p, q], scene, cmd).reqVel != Decide([q, p], scene, cmd).reqVel
  {
    hide Scaled, Times, CollisionTimeOf, PointsInside, Decide;
    var r := t / p.timeBeforeCollision;
    TimesAdds(1.0, 0.0, p.timeBeforeCollision);
    QuotientOrder(t, p.timeBeforeCollision, 0.0);
    QuotientOrder(t, p.timeBeforeCollision, 1.0);
    OppositeRatiosOrderMatters(p, q, scene, cmd, r);
  }

  lemma OppositesDiffer(cmd: Velocity, r: real)
    requires cmd != ZERO && r != 0.0
    ensures Scaled(cmd, r) != Scaled(cmd, -r)
  {
    OppositeTimes(cmd.x, r);
    OppositeTimes(cmd.y, r);
    OppositeTimes(cmd.tw, r);
  }

  lemma OppositeTimes(a: real, r: real)
    requires r != 0.0
    ensures Times(a, r) == Times(a, -r) ==> a == 0.0
  {
    assert Times(a, r) - Times(a, -r) == 2.0 * Times(a, r);
    if a != 0.0 {
      assert Times(a, r) != 0.0;
    }
  }
}
