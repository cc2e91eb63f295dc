/** Ray-crossing point-in-polygon test of the collision monitor, and what it decides. */
module Polygons {
  import opened RealProducts

  datatype Point = Point(x: real, y: real)

  /** The given point lies between the ends of the edge in y; one end counts, the other does not. */
  predicate Straddles(a: Point, b: Point, p: Point) {
    (p.y <= a.y) == (p.y > b.y)
  }

  /** Where the edge meets the horizontal line through p. */
  function CrossingX(a: Point, b: Point, p: Point): real
    requires Straddles(a, b, p)
  {
    a.x + Times(p.y - a.y, b.x - a.x) / (b.y - a.y)
  }

  /** The edge meets the ray from p along +x. */
  predicate Crosses(a: Point, b: Point, p: Point) {
    Straddles(a, b, p) && CrossingX(a, b, p) > p.x
  }

  predicate Xor(a: bool, b: bool) {
    a != b
  }

  /** Parity of the edges of the open path that meet the ray. */
  predicate PathParity(path: seq<Point>, p: Point) {
    if |path| < 2 then false
    else Xor(Crosses(path[0], path[1], p), PathParity(path[1..], p))
  }

  /** Parity over the closed polygon, beginning with the edge from the last vertex to the first. */
  predicate Inside(poly: seq<Point>, p: Point) {
    poly != [] && PathParity([poly[|poly| - 1]] + poly, p)
  }

  /** The ray-crossing loop. */
  method IsPointInside(poly: seq<Point>, p: Point) returns (res: bool)
    ensures res == Inside(poly, p)
  {
    hide Times, PathParity;
    res := false;
    if poly == [] {
      return;
    }
    var i := |poly| - 1;
    ghost var path := [poly[i]] + poly;
    var j := 0;
    assert path[..1] == [poly[i]];
    SingleVertexPath(poly[i], p);
    while j < |poly|
      invariant 0 <= j <= |poly|
      invariant i == if j == 0 then |poly| - 1 else j - 1
      invariant res == PathParity(path[..j + 1], p)
    {
      PathParityAppend(path[..j + 1], path[j + 1], p);
      assert path[..j + 2] == path[..j + 1] + [path[j + 1]];
      if (p.y <= poly[i].y) == (p.y > poly[j].y) {
        var xInter := poly[i].x + Times(p.y - poly[i].y, poly[j].x - poly[i].x) / (poly[j].y - poly[i].y);
        if xInter > p.x {
          res := !res;
        }
      }
      i := j;
      j := j + 1;
    }
    assert path[..j + 1] == path;
  }

  // ---------- paths ----------

  lemma SingleVertexPath(v: Point, p: Point)
    ensures !PathParity([v], p)
  {
  }

  lemma {:induction false} PathParityAppend(path: seq<Point>, v: Point, p: Point)
    requires path != []
    ensures PathParity(path + [v], p) == Xor(PathParity(path, p), Crosses(path[|path| - 1], v, p))
  {
    hide Crosses;
    if |path| >= 2 {
      assert (path + [v])[1..] == path[1..] + [v];
      PathParityAppend(path[1..], v, p);
    } else {
      assert (path + [v])[1..] == [v];
    }
  }

  /** A path through v is as even or odd as its two parts together. */
  lemma {:induction false} PathParityThrough(first: seq<Point>, v: Point, rest: seq<Point>, p: Point)
    ensures PathParity(first + [v] + rest, p) == Xor(PathParity(first + [v], p), PathParity([v] + rest, p))
    decreases |rest|
  {
    hide Crosses;
    if rest == [] {
      assert first + [v] + rest == first + [v] && [v] + rest == [v];
    } else {
      var init, last := rest[..|rest| - 1], rest[|rest| - 1];
      PathParityThrough(first, v, init, p);
      PathParityAppend(first + [v] + init, last, p);
      PathParityAppend([v] + init, last, p);
      assert first + [v] + rest == (first + [v] + init) + [last] && [v] + rest == ([v] + init) + [last];
      assert (first + [v] + init)[|first + [v] + init| - 1] == ([v] + init)[|[v] + init| - 1];
    }
  }

  /** Twice the signed area of the triangle a, b, p: positive when p lies left of the edge from a to b. */
  function Orient(a: Point, b: Point, p: Point): real {
    Times(p.y - a.y, b.x - a.x) - Times(p.x - a.x, b.y - a.y)
  }

  /** Crossing without division: an upward edge with p on its left, or a downward edge with p on its right. */
  lemma CrossesByOrient(a: Point, b: Point, p: Point)
    ensures Crosses(a, b, p) <==>
      (a.y < p.y <= b.y && Orient(a, b, p) > 0.0) || (b.y < p.y <= a.y && Orient(a, b, p) < 0.0)
  {
    hide Times;
    if a.y < p.y <= b.y {
      QuotientOrder(Times(p.y - a.y, b.x - a.x), b.y - a.y, p.x - a.x);
    } else if b.y < p.y <= a.y {
      NegativeQuotientOrder(Times(p.y - a.y, b.x - a.x), b.y - a.y, p.x - a.x);
    }
  }

  lemma OrientFlips(a: Point, b: Point, p: Point)
    ensures Orient(a, b, p) == -Orient(b, a, p)
  {
  }

  /** An edge is crossed or not whichever way it is walked. */
  lemma CrossesEitherWay(a: Point, b: Point, p: Point)
    ensures Crosses(a, b, p) == Crosses(b, a, p)
  {
    hide Crosses, Orient;
    CrossesByOrient(a, b, p);
    CrossesByOrient(b, a, p);
    OrientFlips(a, b, p);
  }

  lemma InsideByClosing(poly: seq<Point>, p: Point)
    requires poly != []
    ensures Inside(poly, p) == Xor(Crosses(poly[|poly| - 1], poly[0], p), PathParity(poly, p))
  {
    hide Crosses;
    var path := [poly[|poly| - 1]] + poly;
    assert path[1..] == poly && path[1] == poly[0];
  }

  lemma {:induction false} PathParityJoin(a: seq<Point>, b: seq<Point>, p: Point)
    requires a != [] && b != []
    ensures PathParity(a + b, p) == Xor(Xor(PathParity(a, p), Crosses(a[|a| - 1], b[0], p)), PathParity(b, p))
  {
    hide Crosses;
    var v := a[|a| - 1];
    var init := a[..|a| - 1];
    assert a == init + [v] && a + b == init + [v] + b;
    PathParityThrough(init, v, b, p);
    assert ([v] + b)[1..] == b && ([v] + b)[1] == b[0];
  }

  // ---------- independence of start vertex and direction ----------

  /** Starting the walk at another vertex changes nothing. */
  lemma InsideRotates(poly: seq<Point>, k: nat, p: Point)
    requires k <= |poly|
    ensures Inside(poly[k..] + poly[..k], p) == Inside(poly, p)
  {
    hide Crosses, PathParity, Inside;
    var a, b := poly[..k], poly[k..];
    assert poly == a + b;
    if a == [] || b == [] {
      assert b + a == poly;
    } else {
      InsideByClosing(a + b, p);
      InsideByClosing(b + a, p);
      PathParityJoin(a, b, p);
      PathParityJoin(b, a, p);
    }
  }

  function Reverse<T>(s: seq<T>): (r: seq<T>)
    ensures |r| == |s|
    ensures s != [] ==> r[0] == s[|s| - 1] && r[|r| - 1] == s[0]
  {
    if s == [] then [] else Reverse(s[1..]) + [s[0]]
  }

  lemma {:induction false} PathParityReverses(path: seq<Point>, p: Point)
    ensures PathParity(Reverse(path), p) == PathParity(path, p)
  {
    hide Crosses;
    if |path| >= 2 {
      PathParityReverses(path[1..], p);
      PathParityAppend(Reverse(path[1..]), path[0], p);
      CrossesEitherWay(path[0], path[1], p);
    } else if |path| == 1 {
      assert Reverse(path) == path;
    }
  }

  /** Walking the polygon the other way round changes nothing. */
  lemma InsideReverses(poly: seq<Point>, p: Point)
    ensures Inside(Reverse(poly), p) == Inside(poly, p)
  {
    hide Crosses, PathParity;
    if poly != [] {
      InsideByClosing(poly, p);
      InsideByClosing(Reverse(poly), p);
      PathParityReverses(poly, p);
      CrossesEitherWay(poly[|poly| - 1], poly[0], p);
    }
  }

  // ---------- cutting ----------

  /**
   * Cutting along the chord between vertices i and j: every point is in exactly one part, or in both or neither
   * alike.
   */
  lemma InsideCuts(poly: seq<Point>, i: nat, j: nat, p: Point)
    requires i < j < |poly|
    ensures Inside(poly, p) == Xor(Inside(poly[i..j + 1], p), Inside(poly[j..] + poly[..i + 1], p))
  {
    hide Crosses, PathParity, Inside;
    var a, b, c := poly[..i + 1], poly[i..j + 1], poly[j..];
    InsideByClosing(poly, p);
    InsideByClosing(b, p);
    InsideByClosing(c + a, p);
    PathParityJoin(c, a, p);
    CrossesEitherWay(poly[i], poly[j], p);
    assert poly == poly[..i] + [poly[i]] + poly[i + 1..] && a == poly[..i] + [poly[i]];
    PathParityThrough(poly[..i], poly[i], poly[i + 1..], p);
    assert [poly[i]] + poly[i + 1..] == poly[i..j] + [poly[j]] + poly[j + 1..];
    PathParityThrough(poly[i..j], poly[j], poly[j + 1..], p);
    assert b == poly[i..j] + [poly[j]] && c == [poly[j]] + poly[j + 1..];
  }

  /** Parity of the triangles, of the fan from the first vertex, that hold p. */
  predicate FanParity(poly: seq<Point>, p: Point)
    decreases |poly|
  {
    if |poly| < 3 then false
    else Xor(Inside(poly[..3], p), FanParity([poly[0]] + poly[2..], p))
  }

  /** The test on any polygon is the test on the triangles of its fan, combined by parity. */
  lemma {:induction false} InsideByTriangles(poly: seq<Point>, p: Point)
    ensures Inside(poly, p) == FanParity(poly, p)
    decreases |poly|
  {
    hide Crosses, PathParity, Inside;
    if |poly| >= 3 {
      var rest := [poly[0]] + poly[2..];
      InsideCuts(poly, 0, 2, p);
      assert poly[0..3] == poly[..3];
      InsideRotates(rest, 1, p);
      assert rest[1..] + rest[..1] == poly[2..] + poly[..1];
      InsideByTriangles(rest, p);
    } else {
      NoTwoSidedPolygon(poly, p);
    }
  }

  lemma NoTwoSidedPolygon(poly: seq<Point>, p: Point)
    requires |poly| < 3
    ensures !Inside(poly, p)
  {
    if |poly| == 1 {
      InsideByClosing(poly, p);
      assert !Straddles(poly[0], poly[0], p);
    } else if |poly| == 2 {
      hide Crosses;
      InsideByClosing(poly, p);
      CrossesEitherWay(poly[0], poly[1], p);
      assert poly[1..] == [poly[1]];
    }
  }
}
