/** Angles modulo a full turn, and the distance between two directions. */
module Circle {
  import opened RealProducts

  /** (angle + pi) % (2 pi) - pi with the remainder of a floored division; pi is any positive number here. */
  function NormalizeAngle(pi: real, angle: real): real
    requires pi > 0.0
  {
    angle + pi - Times(Turns(pi, angle) as real, 2.0 * pi) - pi
  }

  /** Full turns taken off an angle. */
  function Turns(pi: real, angle: real): int
    requires pi > 0.0
  {
    ((angle + pi) / (2.0 * pi)).Floor
  }

  function ShortestAngularDistance(pi: real, start: real, end: real): real
    requires pi > 0.0
  {
    NormalizeAngle(pi, end - start)
  }

  function AbsReal(x: real): real {
    if x < 0.0 then -x else x
  }

  /** How far apart two directions are. */
  function AngleBetween(pi: real, a: real, b: real): real
    requires pi > 0.0
  {
    AbsReal(ShortestAngularDistance(pi, a, b))
  }

  /** The result lies in [-pi, pi). */
  lemma NormalizedRange(pi: real, angle: real)
    requires pi > 0.0
    ensures -pi <= NormalizeAngle(pi, angle) < pi
  {
    hide Times;
    var k := Turns(pi, angle) as real;
    var q := (angle + pi) / (2.0 * pi);
    assert k <= q < k + 1.0;
    QuotientOrder(angle + pi, 2.0 * pi, k);
    QuotientOrder(angle + pi, 2.0 * pi, k + 1.0);
    TimesAdds(k, 1.0, 2.0 * pi);
  }

  /** It is the same direction, a whole number of turns away, and the only one such in its range. */
  lemma NormalizedIsSame(pi: real, angle: real, k: int)
    requires pi > 0.0
    ensures NormalizeAngle(pi, angle) == angle - Times(Turns(pi, angle) as real, 2.0 * pi)
    ensures var same := angle - Times(k as real, 2.0 * pi);
      -pi <= same < pi ==> same == NormalizeAngle(pi, angle)
  {
    hide Times;
    NormalizedRange(pi, angle);
    var d := Turns(pi, angle) - k;
    assert Turns(pi, angle) as real == k as real + d as real;
    TimesAdds(k as real, d as real, 2.0 * pi);
    TimesAdds(0.0, 1.0, 2.0 * pi);
    TimesAdds(-1.0, 1.0, 2.0 * pi);
    if d > 1 { TimesMonotone(1.0, d as real, 2.0 * pi); }
    if d < -1 { TimesMonotone(d as real, -1.0, 2.0 * pi); }
  }

  /** No other representative of the direction is nearer to zero. */
  lemma NormalizedIsNearest(pi: real, angle: real, k: int)
    requires pi > 0.0
    ensures AbsReal(NormalizeAngle(pi, angle)) <= AbsReal(angle - Times(k as real, 2.0 * pi))
  {
    hide Times;
    var t := Turns(pi, angle);
    NormalizedRange(pi, angle);
    var d := (t - k) as real;
    assert t as real == k as real + d;
    TimesAdds(k as real, d, 2.0 * pi);
    TimesAdds(0.0, 1.0, 2.0 * pi);
    TimesAdds(-1.0, 1.0, 2.0 * pi);
    if t > k {
      TimesMonotone(1.0, d, 2.0 * pi);
    } else if t < k {
      TimesMonotone(d, -1.0, 2.0 * pi);
    }
  }

  /** Directions obey the triangle inequality. */
  lemma AngleTriangle(pi: real, a: real, b: real, c: real)
    requires pi > 0.0
    ensures AngleBetween(pi, a, c) <= AngleBetween(pi, a, b) + AngleBetween(pi, b, c)
  {
    hide Times;
    var i, j := Turns(pi, b - a), Turns(pi, c - b);
    TimesAdds(i as real, j as real, 2.0 * pi);
    assert (i + j) as real == i as real + j as real;
    NormalizedIsNearest(pi, c - a, i + j);
  }
}
