/** Convex polygons: the parity test passes exactly the points left of every edge. */
module ConvexPolygons {
  import opened RealProducts
  import opened Polygons
  import opened PolygonGeometry

  /** Any three vertices in order turn left or not at all: counter-clockwise, convex, once around. */
  ghost predicate LeftTurns(path: seq<Point>) {
    forall i, j, k :: 0 <= i < j < k < |path| ==> Orient(path[i], path[j], path[k]) >= 0.0
  }

  function Closed(poly: seq<Point>): seq<Point>
    requires poly != []
  {
    poly + [poly[0]]
  }

  ghost predicate LeftOfEdges(path: seq<Point>, p: Point) {
    forall k :: 0 <= k < |path| - 1 ==> Orient(path[k], path[k + 1], p) > 0.0
  }

  ghost predicate OffEdgeLines(path: seq<Point>, p: Point) {
    forall k :: 0 <= k < |path| - 1 ==> Orient(path[k], path[k + 1], p) != 0.0
  }

  lemma OrientRotates(a: Point, b: Point, c: Point)
    ensures Orient(b, c, a) == Orient(a, b, c)
  {
  }

  lemma OrientOfTwo(a: Point, b: Point)
    ensures Orient(a, b, a) == 0.0 && Orient(a, b, b) == 0.0 && Orient(a, a, b) == 0.0
  {
  }

  lemma ClosedTurns(poly: seq<Point>)
    requires poly != [] && LeftTurns(poly)
    ensures LeftTurns(Closed(poly))
  {
    hide Orient;
    var path := Closed(poly);
    forall i, j, k | 0 <= i < j < k < |path| ensures Orient(path[i], path[j], path[k]) >= 0.0 {
      if k == |poly| {
        OrientRotates(poly[0], path[i], path[j]);
        OrientOfTwo(poly[0], path[j]);
      }
    }
  }

  lemma InsideOnClosed(poly: seq<Point>, p: Point)
    requires poly != []
    ensures Inside(poly, p) == PathParity(Closed(poly), p)
  {
    hide Crosses, Inside, PathParity;
    InsideByClosing(poly, p);
    PathParityAppend(poly, poly[0], p);
  }

  // ---------- inside is left of every edge ----------

  lemma EdgeForm(a: Point, b: Point, q: Point)
    ensures Orient(a, b, q) == Form(b.y - a.y, a.x - b.x, a) - Form(b.y - a.y, a.x - b.x, q)
  {
  }

  lemma VertexLeft(path: seq<Point>, k: nat, m: nat)
    requires LeftTurns(path) && k + 1 < |path| && m < |path|
    ensures Orient(path[k], path[k + 1], path[m]) >= 0.0
  {
    hide Orient;
    OrientOfTwo(path[k], path[k + 1]);
    OrientRotates(path[m], path[k], path[k + 1]);
  }

  lemma InsideIsLeft(poly: seq<Point>, p: Point, k: nat)
    requires Inside(poly, p) && LeftTurns(Closed(poly)) && k < |poly|
    ensures Orient(Closed(poly)[k], Closed(poly)[k + 1], p) >= 0.0
  {
    hide Inside, Orient, Form, LeftTurns;
    var path := Closed(poly);
    var a, b := path[k], path[k + 1];
    var u, v := b.y - a.y, a.x - b.x;
    forall m | 0 <= m < |poly| ensures Form(u, v, poly[m]) <= Form(u, v, a) {
      VertexLeft(path, k, m);
      EdgeForm(a, b, path[m]);
    }
    InsideIsInHull(poly, p, u, v, Form(u, v, a));
    EdgeForm(a, b, p);
  }

  // ---------- the vertices lie on both sides of the height of p ----------

  /** The cross product of the directions to a and to b. */
  lemma OrientFrom(a: Point, b: Point, p: Point)
    ensures Orient(a, b, p) == Times(a.x - p.x, b.y - p.y) - Times(a.y - p.y, b.x - p.x)
  {
  }

  /** b is reached from a by a left turn of at most half a circle, of a full half circle only along the height of p. */
  predicate Turned(a: Point, b: Point, p: Point) {
    && Orient(a, b, p) >= 0.0
    && (Orient(a, b, p) == 0.0 ==> a.y == p.y && b.y == p.y && b.x < p.x < a.x)
  }

  /** One more left turn without leaving the upper half plane. */
  lemma TurnOn(a: Point, b: Point, c: Point, p: Point)
    requires a.y >= p.y && b.y >= p.y && c.y >= p.y && Turned(a, b, p) && Orient(b, c, p) > 0.0
    ensures Turned(a, c, p)
  {
    hide Orient, Times;
    OrientsBalance(a, b, c, p);
    OrientFlips(a, c, p);
    var ya, yb, yc := a.y - p.y, b.y - p.y, c.y - p.y;
    SignOfTimes(Orient(b, c, p), ya);
    SignOfTimes(Orient(a, b, p), yc);
    SignOfTimes(Orient(a, c, p), yb);
    SignOfTimes(Orient(c, a, p), yb);
    if Orient(a, b, p) == 0.0 || yb == 0.0 {
      LevelTurn(a, b, c, p);
    } else if yc == 0.0 && ya == 0.0 {
      LevelStart(a, b, c, p);
    }
  }

  lemma LevelTurn(a: Point, b: Point, c: Point, p: Point)
    requires a.y >= p.y && b.y == p.y && c.y >= p.y && Orient(b, c, p) > 0.0
    ensures b.x > p.x && c.y > p.y
    ensures Orient(a, b, p) <= 0.0
    ensures Orient(a, b, p) == 0.0 ==> a.y == p.y
  {
    hide Orient, Times;
    OrientFrom(a, b, p);
    OrientFrom(b, c, p);
    TimesAdds(0.0, 0.0, c.x - p.x);
    TimesSplits(a.x - p.x, 0.0, 0.0);
    TimesSplits(b.x - p.x, 0.0, 0.0);
    SignOfTimes(b.x - p.x, c.y - p.y);
    SignOfTimes(a.y - p.y, b.x - p.x);
  }

  lemma LevelStart(a: Point, b: Point, c: Point, p: Point)
    requires a.y == p.y && b.y > p.y && c.y == p.y && Orient(a, b, p) > 0.0 && Orient(b, c, p) > 0.0
    ensures c.x < p.x < a.x
  {
    hide Orient, Times;
    OrientFrom(a, b, p);
    OrientFrom(b, c, p);
    TimesAdds(0.0, 0.0, b.x - p.x);
    TimesSplits(b.x - p.x, 0.0, 0.0);
    SignOfTimes(a.x - p.x, b.y - p.y);
    SignOfTimes(b.y - p.y, c.x - p.x);
  }

  /** A walk with p on its left cannot come back to where it started without going below p. */
  lemma {:induction false} AllTurned(path: seq<Point>, p: Point)
    requires |path| >= 2 && LeftOfEdges(path, p) && forall k :: 0 <= k < |path| ==> path[k].y >= p.y
    ensures Turned(path[0], path[|path| - 1], p)
  {
    hide Orient, Turned;
    var init := path[..|path| - 1];
    if |path| == 2 {
      FirstTurn(path[0], path[1], p);
    } else {
      forall k | 0 <= k < |init| - 1 ensures Orient(init[k], init[k + 1], p) > 0.0 {
        assert init[k] == path[k] && init[k + 1] == path[k + 1];
      }
      AllTurned(init, p);
      TurnOn(path[0], path[|path| - 2], path[|path| - 1], p);
    }
  }

  lemma FirstTurn(a: Point, b: Point, p: Point)
    requires Orient(a, b, p) > 0.0
    ensures Turned(a, b, p)
  {
  }

  function HalfTurn(q: Point): Point {
    Point(-q.x, -q.y)
  }

  lemma OrientHalfTurn(a: Point, b: Point, p: Point)
    ensures Orient(HalfTurn(a), HalfTurn(b), HalfTurn(p)) == Orient(a, b, p)
  {
  }

  lemma NotTurnedBack(a: Point, p: Point)
    ensures !Turned(a, a, p)
  {
  }

  /** A closed polygon with p left of every edge has a vertex below p and one not below it. */
  lemma BothSides(path: seq<Point>, p: Point) returns (i: nat, j: nat)
    requires |path| >= 2 && path[0] == path[|path| - 1] && LeftOfEdges(path, p)
    ensures i < |path| && j < |path| && path[i].y < p.y <= path[j].y
  {
    hide Orient, Turned, HalfTurn;
    NotTurnedBack(path[0], p);
    if forall k :: 0 <= k < |path| ==> path[k].y >= p.y {
      AllTurned(path, p);
      assert false;
    }
    if forall k :: 0 <= k < |path| ==> path[k].y < p.y {
      TurnedRound(path, p);
      assert false;
    }
    i :| 0 <= i < |path| && path[i].y < p.y;
    j :| 0 <= j < |path| && path[j].y >= p.y;
  }

  lemma TurnedRound(path: seq<Point>, p: Point)
    requires |path| >= 2 && path[0] == path[|path| - 1] && LeftOfEdges(path, p)
    ensures exists k :: 0 <= k < |path| && path[k].y >= p.y
  {
    hide Orient, Turned;
    if forall k :: 0 <= k < |path| ==> path[k].y < p.y {
      var round := seq(|path|, i requires 0 <= i < |path| => HalfTurn(path[i]));
      forall k | 0 <= k < |round| - 1 ensures Orient(round[k], round[k + 1], HalfTurn(p)) > 0.0 {
        OrientHalfTurn(path[k], path[k + 1], p);
      }
      AllTurned(round, HalfTurn(p));
      NotTurnedBack(round[0], HalfTurn(p));
    }
  }

  /** Somewhere such a polygon goes up past the height of p. */
  lemma {:induction false} SomeUpward(path: seq<Point>, p: Point, i: nat, j: nat) returns (k: nat)
    requires i < j < |path| && path[i].y < p.y <= path[j].y
    ensures i <= k < j && path[k].y < p.y <= path[k + 1].y
    decreases j
  {
    if path[j - 1].y < p.y { k := j - 1; } else { k := SomeUpward(path, p, i, j - 1); }
  }

  lemma {:induction false} SomeDownward(path: seq<Point>, p: Point, i: nat, j: nat) returns (k: nat)
    requires i < j < |path| && path[j].y < p.y <= path[i].y
    ensures i <= k < j && path[k + 1].y < p.y <= path[k].y
    decreases j
  {
    if path[j - 1].y >= p.y { k := j - 1; } else { k := SomeDownward(path, p, i, j - 1); }
  }

  // ---------- no second upward edge ----------

  /** Where two upward edges pass the height h, one of them is to the left or both meet there. */
  lemma UpwardBalance(a: Point, b: Point, c: Point, d: Point, h: real)
    ensures Times(d.y - h, Orient(a, b, c)) + Times(h - c.y, Orient(a, b, d)) +
      Times(b.y - h, Orient(c, d, a)) + Times(h - a.y, Orient(c, d, b)) == 0.0
  {
  }

  /** Two upward edges of a convex polygon past one height lie on one line. */
  lemma UpwardAligned(a: Point, b: Point, c: Point, d: Point, h: real)
    requires a.y < h <= b.y && c.y < h <= d.y
    requires Orient(a, b, c) >= 0.0 && Orient(a, b, d) >= 0.0 && Orient(c, d, a) >= 0.0 && Orient(c, d, b) >= 0.0
    ensures Orient(a, b, d) == 0.0
  {
    hide Orient, Times;
    UpwardBalance(a, b, c, d, h);
    TimesNonNegative(d.y - h, Orient(a, b, c));
    TimesNonNegative(b.y - h, Orient(c, d, a));
    TimesNonNegative(h - a.y, Orient(c, d, b));
    SignOfTimes(h - c.y, Orient(a, b, d));
  }

  lemma ChordBalance(a: Point, b: Point, d: Point, p: Point)
    ensures Times(b.y - a.y, Orient(a, d, p)) == Times(d.y - a.y, Orient(a, b, p)) - Times(p.y - a.y, Orient(a, b, d))
  {
  }

  /** Left of an upward edge is left of the chord on the same line. */
  lemma LeftOfChord(a: Point, b: Point, d: Point, p: Point)
    requires a.y < p.y <= b.y && p.y <= d.y && Orient(a, b, d) == 0.0 && Orient(a, b, p) > 0.0
    ensures Orient(a, d, p) > 0.0
  {
    hide Orient, Times;
    ChordBalance(a, b, d, p);
    TimesPositive(d.y - a.y, Orient(a, b, p));
    TimesSplits(p.y - a.y, 0.0, 0.0);
    TimesSplits(b.y - a.y, 0.0, 0.0);
    SignOfTimes(b.y - a.y, Orient(a, d, p));
  }

  lemma DownwardBalance(a: Point, d: Point, e: Point, f: Point, p: Point)
    ensures Times(e.y - f.y, Orient(a, d, p)) + Times(d.y - a.y, Orient(e, f, p)) ==
      Times(e.y - p.y, Orient(a, d, f)) + Times(p.y - f.y, Orient(a, d, e))
  {
  }

  /** A downward edge right of an upward chord has no point between them on its left. */
  lemma NotBetween(a: Point, d: Point, e: Point, f: Point, p: Point)
    requires a.y < p.y <= d.y && f.y < p.y <= e.y && Orient(a, d, e) <= 0.0 && Orient(a, d, f) <= 0.0
    requires Orient(a, d, p) > 0.0
    ensures Orient(e, f, p) <= 0.0
  {
    hide Orient, Times;
    DownwardBalance(a, d, e, f, p);
    TimesPositive(e.y - f.y, Orient(a, d, p));
    SignOfTimes(d.y - a.y, Orient(e, f, p));
    TimesNonNegative(e.y - p.y, -Orient(a, d, f));
    TimesNonNegative(p.y - f.y, -Orient(a, d, e));
    TimesSplits(e.y - p.y, Orient(a, d, f), -Orient(a, d, f));
    TimesSplits(p.y - f.y, Orient(a, d, e), -Orient(a, d, e));
  }

  /** With p left of every edge, a convex polygon goes up past its height once. */
  lemma OneUpward(path: seq<Point>, p: Point, i: nat, j: nat)
    requires LeftTurns(path) && LeftOfEdges(path, p) && i <= j && j + 1 < |path|
    requires path[i].y < p.y <= path[i + 1].y && path[j].y < p.y <= path[j + 1].y
    ensures i == j
  {
    hide Orient;
    if i < j {
      var a, b, c, d := path[i], path[i + 1], path[j], path[j + 1];
      OrientRotates(a, c, d);
      OrientRotates(b, c, d);
      UpwardAligned(a, b, c, d, p.y);
      LeftOfChord(a, b, d, p);
      var k := SomeDownward(path, p, i + 1, j);
      RightOfChord(path, i, k, j + 1);
      RightOfChord(path, i, k + 1, j + 1);
      NotBetween(a, d, path[k], path[k + 1], p);
    }
  }

  lemma RightOfChord(path: seq<Point>, i: nat, k: nat, j: nat)
    requires LeftTurns(path) && i < k < j < |path|
    ensures Orient(path[i], path[j], path[k]) <= 0.0
  {
    hide Orient;
    OrientRotates(path[i], path[k], path[j]);
    OrientRotates(path[k], path[j], path[i]);
    OrientFlips(path[i], path[j], path[k]);
    OrientRotates(path[j], path[i], path[k]);
  }

  // ---------- counting ----------

  lemma {:induction false} NoCrossing(path: seq<Point>, p: Point)
    requires forall k :: 0 <= k < |path| - 1 ==> !Crosses(path[k], path[k + 1], p)
    ensures !PathParity(path, p)
  {
    hide Crosses;
    if |path| >= 2 {
      var rest := path[1..];
      forall k | 0 <= k < |rest| - 1 ensures !Crosses(rest[k], rest[k + 1], p) {
        assert rest[k] == path[k + 1] && rest[k + 1] == path[k + 2];
      }
      NoCrossing(rest, p);
    }
  }

  lemma {:induction false} OneCrossing(path: seq<Point>, p: Point, k: nat)
    requires k + 1 < |path| && Crosses(path[k], path[k + 1], p)
    requires forall i :: 0 <= i < |path| - 1 && i != k ==> !Crosses(path[i], path[i + 1], p)
    ensures PathParity(path, p)
  {
    hide Crosses;
    var rest := path[1..];
    forall i | 0 <= i < |rest| - 1 && i != k - 1 ensures !Crosses(rest[i], rest[i + 1], p) {
      assert rest[i] == path[i + 1] && rest[i + 1] == path[i + 2];
    }
    if k == 0 {
      NoCrossing(rest, p);
    } else {
      OneCrossing(rest, p, k - 1);
    }
  }

  lemma UpwardCrosses(a: Point, b: Point, p: Point)
    requires Orient(a, b, p) > 0.0
    ensures Crosses(a, b, p) <==> a.y < p.y <= b.y
  {
    hide Crosses, Orient;
    CrossesByOrient(a, b, p);
  }

  lemma SomeUpwardEdge(path: seq<Point>, p: Point) returns (k: nat)
    requires |path| >= 2 && path[0] == path[|path| - 1] && LeftOfEdges(path, p)
    ensures k + 1 < |path| && path[k].y < p.y <= path[k + 1].y
  {
    hide LeftOfEdges;
    var i, j := BothSides(path, p);
    if i < j {
      k := SomeUpward(path, p, i, j);
    } else if path[0].y < p.y {
      k := SomeUpward(path, p, 0, j);
    } else {
      k := SomeUpward(path, p, i, |path| - 1);
    }
  }

  lemma LeftIsInside(path: seq<Point>, p: Point)
    requires |path| >= 2 && path[0] == path[|path| - 1] && LeftTurns(path) && LeftOfEdges(path, p)
    ensures PathParity(path, p)
  {
    hide Crosses, Orient, LeftTurns, PathParity;
    var k := SomeUpwardEdge(path, p);
    UpwardCrosses(path[k], path[k + 1], p);
    forall i | 0 <= i < |path| - 1 && i != k ensures !Crosses(path[i], path[i + 1], p) {
      UpwardCrosses(path[i], path[i + 1], p);
      if path[i].y < p.y <= path[i + 1].y {
        if i < k { OneUpward(path, p, i, k); } else { OneUpward(path, p, k, i); }
      }
    }
    OneCrossing(path, p, k);
  }

  /** For a convex counter-clockwise polygon and a point off its edge lines, inside means left of every edge. */
  lemma ConvexTest(poly: seq<Point>, p: Point)
    requires poly != [] && LeftTurns(poly) && OffEdgeLines(Closed(poly), p)
    ensures Inside(poly, p) <==> LeftOfEdges(Closed(poly), p)
  {
    hide Inside, Orient, LeftTurns, PathParity;
    var path := Closed(poly);
    ClosedTurns(poly);
    InsideOnClosed(poly, p);
    if Inside(poly, p) {
      forall k | 0 <= k < |path| - 1 ensures Orient(path[k], path[k + 1], p) > 0.0 {
        InsideIsLeft(poly, p, k);
      }
    } else if LeftOfEdges(path, p) {
      LeftIsInside(path, p);
    }
  }

  /** In particular for a triangle. */
  lemma TriangleTest(a: Point, b: Point, c: Point, p: Point)
    requires Orient(a, b, c) >= 0.0
    requires Orient(a, b, p) != 0.0 && Orient(b, c, p) != 0.0 && Orient(c, a, p) != 0.0
    ensures Inside([a, b, c], p) <==> Orient(a, b, p) > 0.0 && Orient(b, c, p) > 0.0 && Orient(c, a, p) > 0.0
  {
    hide Inside, Orient;
    var path := Closed([a, b, c]);
    assert path[0] == a && path[1] == b && path[2] == c && path[3] == a;
    ConvexTest([a, b, c], p);
    if LeftOfEdges(path, p) {
      assert Orient(path[0], path[1], p) > 0.0 && Orient(path[1], path[2], p) > 0.0 &&
        Orient(path[2], path[3], p) > 0.0;
    }
  }
}
