/** What the parity test says geometrically: no point outside the convex hull of the vertices passes. */
module PolygonGeometry {
  import opened RealProducts
  import opened Polygons

  // ---------- signs and balances ----------

  /** The orientations against p, as weights of the opposite vertices, balance in y. */
  lemma OrientsBalance(a: Point, b: Point, c: Point, p: Point)
    ensures Times(Orient(b, c, p), a.y - p.y) + Times(Orient(c, a, p), b.y - p.y) +
      Times(Orient(a, b, p), c.y - p.y) == 0.0
  {
  }

  lemma SignOfTimes(a: real, b: real)
    ensures a > 0.0 && b > 0.0 ==> Times(a, b) > 0.0
    ensures a >= 0.0 && b >= 0.0 ==> Times(a, b) >= 0.0
    ensures a > 0.0 && b < 0.0 ==> Times(a, b) < 0.0
    ensures a <= 0.0 && b >= 0.0 ==> Times(a, b) <= 0.0
    ensures a < 0.0 && b > 0.0 ==> Times(a, b) < 0.0
    ensures a < 0.0 && b < 0.0 ==> Times(a, b) > 0.0
  {
  }

  // ---------- the convex hull ----------

  /** The linear form (u, v) at p. */
  function Form(u: real, v: real, p: Point): real {
    Times(u, p.x) + Times(v, p.y)
  }

  predicate HalfPlane(u: real, v: real, bound: real, points: seq<Point>) {
    forall k :: 0 <= k < |points| ==> Form(u, v, points[k]) <= bound
  }

  lemma BlendBelow(t: real, a: real, b: real, bound: real)
    requires 0.0 <= t <= 1.0 && a <= bound && b <= bound
    ensures a + Times(t, b - a) <= bound
  {
    SignOfTimes(t, bound - b);
    SignOfTimes(1.0 - t, bound - a);
    assert Times(t, b - a) == Times(t, bound - a) - Times(t, bound - b);
    assert Times(1.0 - t, bound - a) == bound - a - Times(t, bound - a);
  }

  /** How far along the edge the height of p is reached. */
  function Fraction(a: Point, b: Point, p: Point): real
    requires Straddles(a, b, p)
  {
    (p.y - a.y) / (b.y - a.y)
  }

  lemma FractionInUnit(a: Point, b: Point, p: Point)
    requires Straddles(a, b, p)
    ensures 0.0 <= Fraction(a, b, p) <= 1.0
    ensures p.y == a.y + Times(Fraction(a, b, p), b.y - a.y)
    ensures CrossingX(a, b, p) == a.x + Times(Fraction(a, b, p), b.x - a.x)
  {
    hide Times;
    var d := b.y - a.y;
    TimesAdds(0.0, 1.0, d);
    if d > 0.0 {
      TimesQuotient(p.y - a.y, d);
      QuotientOrder(p.y - a.y, d, 0.0);
      QuotientOrder(p.y - a.y, d, 1.0);
    } else {
      NegativeQuotient(p.y - a.y, d);
      NegativeQuotientOrder(p.y - a.y, d, 0.0);
      NegativeQuotientOrder(p.y - a.y, d, 1.0);
    }
    QuotientOfTimes(p.y - a.y, b.x - a.x, d);
  }

  lemma QuotientOfTimes(n: real, m: real, d: real)
    requires d != 0.0
    ensures Times(n, m) / d == Times(n / d, m)
  {
    var q := n / d;
    assert q * d == n;
    assert Times(q, m) * d == Times(n, m) by { assert q * m * d == q * d * m; }
    DivideBack(Times(q, m), d);
  }

  lemma DivideBack(x: real, d: real)
    requires d != 0.0
    ensures x * d / d == x
  {
  }

  /** Where a straddling edge of a half-plane's points meets the height of p, the half-plane still holds. */
  lemma CrossingInHalfPlane(u: real, v: real, bound: real, a: Point, b: Point, p: Point)
    requires Straddles(a, b, p) && Form(u, v, a) <= bound && Form(u, v, b) <= bound
    ensures Form(u, v, Point(CrossingX(a, b, p), p.y)) <= bound
  {
    hide Times;
    var t := Fraction(a, b, p);
    FractionInUnit(a, b, p);
    FormBlends(u, v, a, b, t, CrossingX(a, b, p), p.y);
    BlendBelow(t, Form(u, v, a), Form(u, v, b), bound);
  }

  lemma FormBlends(u: real, v: real, a: Point, b: Point, t: real, x: real, y: real)
    requires x == a.x + Times(t, b.x - a.x) && y == a.y + Times(t, b.y - a.y)
    ensures Form(u, v, Point(x, y)) == Form(u, v, a) + Times(t, Form(u, v, b) - Form(u, v, a))
  {
    assert Times(u, x) == Times(u, a.x) + Times(t, Times(u, b.x) - Times(u, a.x));
    assert Times(v, y) == Times(v, a.y) + Times(t, Times(v, b.y) - Times(v, a.y));
    assert Times(t, Form(u, v, b) - Form(u, v, a)) ==
      Times(t, Times(u, b.x) - Times(u, a.x)) + Times(t, Times(v, b.y) - Times(v, a.y));
  }

  /** Between two points of a half-plane at its own height, p lies in the half-plane. */
  lemma BetweenInHalfPlane(u: real, v: real, bound: real, left: real, right: real, p: Point)
    requires left <= p.x <= right
    requires Form(u, v, Point(left, p.y)) <= bound && Form(u, v, Point(right, p.y)) <= bound
    ensures Form(u, v, p) <= bound
  {
    if u >= 0.0 {
      assert Times(u, right - p.x) >= 0.0 by { SignOfTimes(u, right - p.x); }
      assert Times(u, right - p.x) == Times(u, right) - Times(u, p.x);
    } else {
      assert Times(u, left - p.x) >= 0.0 by {
        SignOfTimes(-u, p.x - left);
        assert Times(-u, p.x - left) == Times(u, left - p.x);
      }
      assert Times(u, left - p.x) == Times(u, left) - Times(u, p.x);
    }
  }

  /** Parity of the edges of the path that straddle p: the ends lie on different sides. */
  lemma {:induction false} OnlyStraddling(path: seq<Point>, p: Point)
    requires path != []
    requires forall k :: 0 <= k < |path| - 1 && Straddles(path[k], path[k + 1], p) ==> Crosses(path[k], path[k + 1], p)
    ensures PathParity(path, p) == ((path[0].y < p.y) != (path[|path| - 1].y < p.y))
  {
    hide CrossingX;
    if |path| >= 2 {
      var rest := path[1..];
      forall k | 0 <= k < |rest| - 1 && Straddles(rest[k], rest[k + 1], p) ensures Crosses(rest[k], rest[k + 1], p) {
        assert rest[k] == path[k + 1] && rest[k + 1] == path[k + 2];
      }
      OnlyStraddling(rest, p);
      assert Straddles(path[0], path[1], p) <==> Crosses(path[0], path[1], p);
    }
  }

  lemma {:induction false} SomeCrossing(path: seq<Point>, p: Point) returns (k: nat)
    requires PathParity(path, p)
    ensures k + 1 < |path| && Crosses(path[k], path[k + 1], p)
  {
    hide Crosses;
    if Crosses(path[0], path[1], p) {
      k := 0;
    } else {
      var j := SomeCrossing(path[1..], p);
      k := j + 1;
    }
  }

  /**
   * A closed path straddles every height an even number of times: an odd number of crossings leaves one to the left.
   */
  lemma SomeCrossingLeft(path: seq<Point>, p: Point) returns (k: nat)
    requires PathParity(path, p) && path[0] == path[|path| - 1]
    ensures k + 1 < |path| && Straddles(path[k], path[k + 1], p) && CrossingX(path[k], path[k + 1], p) <= p.x
  {
    if forall k :: 0 <= k < |path| - 1 && Straddles(path[k], path[k + 1], p) ==> Crosses(path[k], path[k + 1], p) {
      OnlyStraddling(path, p);
      assert false;
    }
    k :| 0 <= k < |path| - 1 && Straddles(path[k], path[k + 1], p) && !Crosses(path[k], path[k + 1], p);
  }

  /** Every half-plane that holds the vertices holds each inside point: inside is within the convex hull. */
  lemma InsideIsInHull(poly: seq<Point>, p: Point, u: real, v: real, bound: real)
    requires Inside(poly, p) && HalfPlane(u, v, bound, poly)
    ensures Form(u, v, p) <= bound
  {
    hide Form, CrossingX, Straddles;
    var path := [poly[|poly| - 1]] + poly;
    assert forall k :: 0 <= k < |path| ==> path[k] in poly;
    var r := SomeCrossing(path, p);
    var l := SomeCrossingLeft(path, p);
    HalfPlaneMember(u, v, bound, poly, path[r]);
    HalfPlaneMember(u, v, bound, poly, path[r + 1]);
    HalfPlaneMember(u, v, bound, poly, path[l]);
    HalfPlaneMember(u, v, bound, poly, path[l + 1]);
    CrossingInHalfPlane(u, v, bound, path[r], path[r + 1], p);
    CrossingInHalfPlane(u, v, bound, path[l], path[l + 1], p);
    BetweenInHalfPlane(u, v, bound, CrossingX(path[l], path[l + 1], p), CrossingX(path[r], path[r + 1], p), p);
  }

  lemma HalfPlaneMember(u: real, v: real, bound: real, points: seq<Point>, q: Point)
    requires HalfPlane(u, v, bound, points) && q in points
    ensures Form(u, v, q) <= bound
  {
    hide Form;
  }

  // ---------- bounding box and reach ----------

  /** Outside the bounding box nothing is inside. */
  lemma InsideIsInBox(poly: seq<Point>, p: Point, minX: real, maxX: real, minY: real, maxY: real)
    requires Inside(poly, p)
    requires forall k :: 0 <= k < |poly| ==> minX <= poly[k].x <= maxX && minY <= poly[k].y <= maxY
    ensures minX <= p.x <= maxX && minY <= p.y <= maxY
  {
    hide Inside;
    InsideIsInHull(poly, p, 1.0, 0.0, maxX);
    InsideIsInHull(poly, p, -1.0, 0.0, -minX);
    InsideIsInHull(poly, p, 0.0, 1.0, maxY);
    InsideIsInHull(poly, p, 0.0, -1.0, -minY);
  }

  /** Squared distance from the origin. */
  function Length2(p: Point): real {
    Times(p.x, p.x) + Times(p.y, p.y)
  }

  lemma SquareNonNegative(a: real)
    ensures Times(a, a) >= 0.0
  {
  }

  lemma FormOfMiddle(p: Point, q: Point)
    ensures 2.0 * Form(p.x, p.y, q) <= Length2(p) + Length2(q)
    ensures Form(p.x, p.y, p) == Length2(p)
  {
    SquareNonNegative(p.x - q.x);
    SquareNonNegative(p.y - q.y);
    assert Times(p.x - q.x, p.x - q.x) == Times(p.x, p.x) - 2.0 * Times(p.x, q.x) + Times(q.x, q.x);
    assert Times(p.y - q.y, p.y - q.y) == Times(p.y, p.y) - 2.0 * Times(p.y, q.y) + Times(q.y, q.y);
  }

  /** No point farther out than every vertex is inside. */
  lemma InsideIsInReach(poly: seq<Point>, p: Point, reach2: real)
    requires Inside(poly, p)
    requires forall k :: 0 <= k < |poly| ==> Length2(poly[k]) <= reach2
    ensures Length2(p) <= reach2
  {
    hide Inside, Form, Length2;
    var bound := (Length2(p) + reach2) / 2.0;
    forall k | 0 <= k < |poly| ensures Form(p.x, p.y, poly[k]) <= bound {
      FormOfMiddle(p, poly[k]);
    }
    InsideIsInHull(poly, p, p.x, p.y, bound);
    FormOfMiddle(p, p);
  }
}
