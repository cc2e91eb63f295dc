/** The filled cells of a polygon against its convex hull: what is filled for certain, and how far beyond it may go. */
module FillGeometry {
  import opened GridGeometry
  import opened IntProducts
  import opened Bresenham
  import opened ConvexFill

  // ---------- where an edge passes a column ----------

  lemma CrossMoves(from: Cell, to: Cell, c: Cell, x: int, y: int)
    ensures Cross(from, to, Cell(c.x + x, c.y + y)) ==
            Cross(from, to, c) + Mul(x, to.y - from.y) - Mul(y, to.x - from.x)
  {
  }

  lemma CrossOfStart(from: Cell, to: Cell)
    ensures Cross(from, to, from) == 0
  {
  }

  lemma {:induction false} Divide(n: nat, w: nat) returns (q: nat, rem: nat)
    requires w > 0
    ensures n == Mul(q, w) + rem && rem < w
  {
    hide Mul;
    if n < w {
      q, rem := 0, n;
      MulNext(0, w);
    } else {
      q, rem := Divide(n - w, w);
      MulNext(q, w);
      q := q + 1;
    }
  }

  /** The part s of w, out of d rows: whole rows and a remainder. */
  lemma Share(s: nat, w: nat, d: nat) returns (q: nat, rem: nat)
    requires s <= w && w > 0
    ensures Mul(s, d) == Mul(q, w) + rem && rem < w && q <= d && (rem > 0 ==> q < d)
  {
    hide Mul;
    MulOrder(0, s, d);
    MulNext(0, d);
    q, rem := Divide(Mul(s, d), w);
    MulOrder(s, w, d);
    MulCommutes(w, d);
    if q > d {
      MulOrder(d + 1, q, w);
      MulNext(d, w);
    }
  }

  /** Of the cells of two rows around the crossing, both within half a cell of the line, one is in the column. */
  lemma OneOfTwo(w: nat, d: nat, rem: nat, e0: int, e1: int)
    requires rem < w < d
    requires 2 * Abs(rem + Mul(e0, d)) <= d && (rem > 0 ==> 2 * Abs(rem - w + Mul(e1, d)) <= d)
    ensures e0 == 0 || (rem > 0 && e1 == 0)
  {
    hide Mul;
    MulNext(0, d);
    MulNext(-1, d);
    MulNext(-2, d);
    if e0 >= 1 { MulOrder(1, e0, d); }
    if e0 <= -2 { MulOrder(e0, -2, d); }
    if e1 >= 1 { MulOrder(1, e1, d); }
    if e1 <= -1 { MulOrder(e1, -1, d); }
  }

  /** A cell given by steps from the start along both directions of the line. */
  function Ahead(from: Cell, to: Cell, s: int, q: int): Cell {
    Cell(from.x + Mul(Sign(to.x - from.x), s), from.y + Mul(Sign(to.y - from.y), q))
  }

  lemma CrossAhead(from: Cell, to: Cell, s: int, q: int)
    requires from.x != to.x && from.y != to.y
    ensures Abs(Cross(from, to, Ahead(from, to, s, q))) == Abs(Mul(s, Abs(to.y - from.y)) - Mul(q, Abs(to.x - from.x)))
  {
    hide Mul;
    var dx, dy := to.x - from.x, to.y - from.y;
    CrossMoves(from, to, from, Mul(Sign(dx), s), Mul(Sign(dy), q));
    CrossOfStart(from, to);
    MulCommutes(Sign(dx), s);
    MulCommutes(Sign(dy), q);
    MulUnits(s);
    MulUnits(q);
    MulSigns(s, Abs(dy));
    MulSigns(q, Abs(dx));
  }

  lemma CellOfColumn(from: Cell, to: Cell, x: int) returns (c: Cell)
    requires Between(from.x, x, to.x)
    ensures c in LineCells(from, to) && c.x == x && CloseTo(from, to, c)
  {
    hide LineCells, Between, CloseTo, AllRows;
    LineVisits(from, to);
    var cells := LineCells(from, to);
    var k :| 0 <= k < |cells| && cells[k].x == x;
    c := cells[k];
  }

  lemma CellAtRow(from: Cell, to: Cell, y: int) returns (c: Cell)
    requires Between(from.y, y, to.y)
    ensures c in LineCells(from, to) && c.y == y && CloseTo(from, to, c)
  {
    hide LineCells, Between, CloseTo, AllColumns;
    LineVisits(from, to);
    var cells := LineCells(from, to);
    var k :| 0 <= k < |cells| && cells[k].y == y;
    c := cells[k];
  }

  /** The cell of row from.y ahead by q, written by its distance e from column x. */
  lemma CellOfRow(from: Cell, to: Cell, s: nat, q: nat) returns (c: Cell, e: int)
    requires from.x != to.x && from.y != to.y && q <= Abs(to.y - from.y)
    ensures c in LineCells(from, to) && c == Ahead(from, to, s + e, q)
    ensures Abs(to.y - from.y) > Abs(to.x - from.x) ==>
      2 * Abs(Mul(s, Abs(to.y - from.y)) + Mul(e, Abs(to.y - from.y)) - Mul(q, Abs(to.x - from.x))) <=
        Abs(to.y - from.y)
  {
    hide Mul, LineCells, Cross, Between;
    AheadBetween(from, to, s, q);
    c := CellAtRow(from, to, Ahead(from, to, s, q).y);
    var sign := Sign(to.x - from.x);
    e := Mul(sign, c.x - from.x) - s;
    TwiceSigned(sign, c.x - from.x);
    CrossAhead(from, to, s + e, q);
    MulAdds(s, e, Abs(to.y - from.y));
  }

  lemma TwiceSigned(sign: int, n: int)
    requires sign == 1 || sign == -1
    ensures Mul(sign, Mul(sign, n)) == n
  {
  }

  lemma MulAdds(a: int, b: int, k: int)
    ensures Mul(a + b, k) == Mul(a, k) + Mul(b, k)
  {
  }

  lemma AheadBetween(from: Cell, to: Cell, s: nat, q: nat)
    requires q <= Abs(to.y - from.y) && from.y != to.y
    ensures Between(from.y, Ahead(from, to, s, q).y, to.y)
  {
    hide Mul;
    MulUnits(q);
    MulCommutes(Sign(to.y - from.y), q);
  }

  /** In every column an edge passes, some cell of it is less than one cell off in height. */
  lemma NearCrossing(from: Cell, to: Cell, x: int) returns (c: Cell)
    requires from.x != to.x && Between(from.x, x, to.x)
    ensures c in LineCells(from, to) && c.x == x && Abs(Cross(from, to, c)) < Abs(to.x - from.x)
  {
    hide Mul, LineCells, Cross, Ahead;
    var w, d := Abs(to.x - from.x), Abs(to.y - from.y);
    if w >= d {
      c := CellOfColumn(from, to, x);
    } else {
      c := SteepCrossing(from, to, x);
    }
  }

  lemma SteepCrossing(from: Cell, to: Cell, x: int) returns (c: Cell)
    requires from.x != to.x && Between(from.x, x, to.x) && Abs(to.x - from.x) < Abs(to.y - from.y)
    ensures c in LineCells(from, to) && c.x == x && Abs(Cross(from, to, c)) < Abs(to.x - from.x)
  {
    hide Mul, LineCells, Cross, Ahead;
    var w, d := Abs(to.x - from.x), Abs(to.y - from.y);
    var s := Abs(x - from.x);
    var q, rem := Share(s, w, d);
    var c0, e0 := CellOfRow(from, to, s, q);
    MulNext(q, w);
    MulNext(0, d);
    AheadColumn(from, to, x, q);
    if e0 == 0 {
      c := c0;
      CrossAhead(from, to, s, q);
    } else {
      var c1, e1 := CellOfRow(from, to, s, if rem > 0 then q + 1 else q);
      OneOfTwo(w, d, rem, e0, e1);
      c := c1;
      AheadColumn(from, to, x, q + 1);
      CrossAhead(from, to, s, q + 1);
    }
  }

  lemma AheadColumn(from: Cell, to: Cell, x: int, q: nat)
    requires Between(from.x, x, to.x)
    ensures Ahead(from, to, Abs(x - from.x), q).x == x
  {
    hide Mul;
    MulUnits(Abs(x - from.x));
    MulCommutes(Sign(to.x - from.x), Abs(x - from.x));
  }

  // ---------- between two edges ----------

  /** The edge passes the column of c, at its height or lower. */
  predicate PassesBelow(from: Cell, to: Cell, c: Cell) {
    && from.x != to.x && Between(from.x, c.x, to.x)
    && if from.x < to.x then Cross(from, to, c) <= 0 else Cross(from, to, c) >= 0
  }

  /** The edge passes the column of c, at its height or higher. */
  predicate PassesAbove(from: Cell, to: Cell, c: Cell) {
    && from.x != to.x && Between(from.x, c.x, to.x)
    && if from.x < to.x then Cross(from, to, c) >= 0 else Cross(from, to, c) <= 0
  }

  lemma CrossAlongColumn(from: Cell, to: Cell, a: Cell, c: Cell)
    requires a.x == c.x && from.x != to.x
    ensures Cross(from, to, a) == Cross(from, to, c) - Mul(a.y - c.y, to.x - from.x)
    ensures a.y > c.y && from.x < to.x ==> Mul(a.y - c.y, to.x - from.x) >= to.x - from.x
    ensures a.y > c.y && from.x > to.x ==> Mul(a.y - c.y, to.x - from.x) <= to.x - from.x
    ensures a.y < c.y && from.x < to.x ==> Mul(a.y - c.y, to.x - from.x) <= from.x - to.x
    ensures a.y < c.y && from.x > to.x ==> Mul(a.y - c.y, to.x - from.x) >= from.x - to.x
  {
    hide Mul, Cross;
    var h, w := a.y - c.y, to.x - from.x;
    CrossMoves(from, to, c, 0, h);
    MulNext(0, to.y - from.y);
    MulNext(0, Abs(w));
    MulNext(-1, Abs(w));
    MulSigns(h, Abs(w));
    if h >= 1 { MulOrder(1, h, Abs(w)); }
    if h <= -1 { MulOrder(h, -1, Abs(w)); }
  }

  lemma CellBelow(from: Cell, to: Cell, c: Cell) returns (a: Cell)
    requires PassesBelow(from, to, c)
    ensures a in LineCells(from, to) && a.x == c.x && a.y <= c.y
  {
    hide Mul, Cross, LineCells;
    a := NearCrossing(from, to, c.x);
    CrossAlongColumn(from, to, a, c);
  }

  lemma CellAbove(from: Cell, to: Cell, c: Cell) returns (a: Cell)
    requires PassesAbove(from, to, c)
    ensures a in LineCells(from, to) && a.x == c.x && a.y >= c.y
  {
    hide Mul, Cross, LineCells;
    a := NearCrossing(from, to, c.x);
    CrossAlongColumn(from, to, a, c);
  }

  lemma {:induction false} EdgeInPath(path: seq<Cell>, k: nat, c: Cell)
    requires k + 1 < |path| && c in LineCells(path[k], path[k + 1])
    ensures c in PathCells(path)
  {
    hide LineCells;
    if k + 2 < |path| {
      EdgeInPath(path[..|path| - 1], k, c);
    }
  }

  /** Any cell of a column with an edge of the polygon below it and one above it is filled. */
  lemma BetweenEdgesFilled(polygon: seq<Cell>, c: Cell, i: nat, j: nat)
    requires polygon != [] && i < |polygon| && j < |polygon|
    requires var path := polygon + [polygon[0]];
      PassesBelow(path[i], path[i + 1], c) && PassesAbove(path[j], path[j + 1], c)
    ensures InColumnHull(Outline(polygon), c)
  {
    hide LineCells, PathCells, PassesBelow, PassesAbove;
    var path := polygon + [polygon[0]];
    var a := CellBelow(path[i], path[i + 1], c);
    var b := CellAbove(path[j], path[j + 1], c);
    EdgeInPath(path, i, a);
    EdgeInPath(path, j, b);
  }

  // ---------- the convex hull ----------

  /** The linear form (u, v) at c. */
  function Form(u: int, v: int, c: Cell): int {
    Mul(u, c.x) + Mul(v, c.y)
  }

  ghost predicate HalfPlane(u: int, v: int, bound: int, points: seq<Cell>) {
    forall k :: 0 <= k < |points| ==> Form(u, v, points[k]) <= bound
  }

  /** Every half-plane that holds the points holds c; for integer points integer half-planes are enough. */
  ghost predicate InHull(points: seq<Cell>, c: Cell) {
    forall u, v, bound :: HalfPlane(u, v, bound, points) ==> Form(u, v, c) <= bound
  }

  /** All vertices lie left of every edge or on it, or all right of every edge or on it. */
  ghost predicate Convex(polygon: seq<Cell>, sense: int) {
    && polygon != [] && (sense == 1 || sense == -1)
    && var path := polygon + [polygon[0]];
      forall k, m :: 0 <= k < |polygon| && 0 <= m < |polygon| ==>
        Mul(sense, Cross(path[k], path[k + 1], polygon[m])) <= 0
  }

  lemma CrossForm(from: Cell, to: Cell, c: Cell, sense: int)
    ensures var u, v := Mul(sense, to.y - from.y), Mul(sense, from.x - to.x);
      Mul(sense, Cross(from, to, c)) == Form(u, v, c) - Form(u, v, from)
  {
  }

  /** A cell of the hull lies on the same side of every edge. */
  lemma HullSide(polygon: seq<Cell>, sense: int, c: Cell, k: nat)
    requires Convex(polygon, sense) && InHull(polygon, c) && k < |polygon|
    ensures sense == 1 || sense == -1
    ensures var path := polygon + [polygon[0]]; Mul(sense, Cross(path[k], path[k + 1], c)) <= 0
  {
    hide Mul, Cross, Form;
    var path := polygon + [polygon[0]];
    var from, to := path[k], path[k + 1];
    var u, v := Mul(sense, to.y - from.y), Mul(sense, from.x - to.x);
    forall m | 0 <= m < |polygon| ensures Form(u, v, polygon[m]) <= Form(u, v, from) {
      CrossForm(from, to, polygon[m], sense);
    }
    assert HalfPlane(u, v, Form(u, v, from), polygon);
    CrossForm(from, to, c, sense);
  }

  /** In no direction along an axis does the hull reach beyond all vertices. */
  lemma HullSpan(polygon: seq<Cell>, c: Cell, u: int, v: int) returns (m: nat)
    requires InHull(polygon, c)
    ensures m < |polygon| && Form(u, v, c) <= Form(u, v, polygon[m])
  {
    hide Form;
    assert !HalfPlane(u, v, Form(u, v, c) - 1, polygon);
    m :| 0 <= m < |polygon| && Form(u, v, polygon[m]) > Form(u, v, c) - 1;
  }

  lemma AxisForms(c: Cell)
    ensures Form(1, 0, c) == c.x && Form(-1, 0, c) == -c.x && Form(0, 1, c) == c.y && Form(0, -1, c) == -c.y
  {
  }

  /** A closed path with vertices on both sides of a column changes sides in either direction. */
  lemma {:induction false} SideChange(path: seq<Cell>, x: int, strict: bool, i: nat, j: nat) returns (k: nat)
    requires i < j < |path| && Low(strict, path[i], x) != Low(strict, path[j], x)
    ensures i <= k < j && Low(strict, path[k], x) == Low(strict, path[i], x) != Low(strict, path[k + 1], x)
    decreases j
  {
    if Low(strict, path[j - 1], x) == Low(strict, path[i], x) {
      k := j - 1;
    } else {
      k := SideChange(path, x, strict, i, j - 1);
    }
  }

  lemma ClosedSideChange(path: seq<Cell>, x: int, strict: bool, i: nat, j: nat) returns (k: nat)
    requires i < |path| && j < |path| && path[0] == path[|path| - 1]
    requires Low(strict, path[i], x) != Low(strict, path[j], x)
    ensures k + 1 < |path| && Low(strict, path[k], x) == Low(strict, path[i], x) != Low(strict, path[k + 1], x)
  {
    hide Low;
    if i < j {
      k := SideChange(path, x, strict, i, j);
    } else if Low(strict, path[0], x) == Low(strict, path[i], x) {
      k := SideChange(path, x, strict, 0, j);
    } else {
      k := SideChange(path, x, strict, i, |path| - 1);
    }
  }

  lemma PassesBySide(from: Cell, to: Cell, c: Cell, sense: int)
    requires from.x != to.x && Between(from.x, c.x, to.x) && Mul(sense, Cross(from, to, c)) <= 0
    requires sense == 1 || sense == -1
    ensures if (from.x < to.x) == (sense == 1) then PassesBelow(from, to, c) else PassesAbove(from, to, c)
  {
    hide Cross;
  }

  /** With vertices on both sides of its column a cell of the hull is filled. */
  lemma SpannedFilled(polygon: seq<Cell>, sense: int, c: Cell, strict: bool, i: nat, j: nat)
    requires Convex(polygon, sense) && InHull(polygon, c)
    requires i < |polygon| && j < |polygon| && Low(strict, polygon[i], c.x) && !Low(strict, polygon[j], c.x)
    ensures InColumnHull(Outline(polygon), c)
  {
    hide Cross, Mul, Convex, InHull, InColumnHull, Outline, PassesBelow, PassesAbove;
    var path := polygon + [polygon[0]];
    var right := ClosedSideChange(path, c.x, strict, i, j);
    var left := ClosedSideChange(path, c.x, strict, j, i);
    HullSide(polygon, sense, c, right);
    HullSide(polygon, sense, c, left);
    PassesBySide(path[right], path[right + 1], c, sense);
    PassesBySide(path[left], path[left + 1], c, sense);
    if sense == 1 {
      BetweenEdgesFilled(polygon, c, right, left);
    } else {
      BetweenEdgesFilled(polygon, c, left, right);
    }
  }

  lemma VertexInOutline(polygon: seq<Cell>, k: nat)
    requires k < |polygon|
    ensures polygon[k] in Outline(polygon)
  {
    hide LineCells, PathCells;
    var path := polygon + [polygon[0]];
    assert LineCells(path[k], path[k + 1])[0] == path[k];
    EdgeInPath(path, k, path[k]);
  }

  /** Every cell in the convex hull of a convex polygon, whichever way round it is given, is filled. */
  lemma HullFilled(polygon: seq<Cell>, sense: int, c: Cell)
    requires Convex(polygon, sense) && InHull(polygon, c)
    ensures InColumnHull(Outline(polygon), c)
  {
    hide Form, Convex, InHull, Outline;
    var right := HullSpan(polygon, c, 1, 0);
    var left := HullSpan(polygon, c, -1, 0);
    AxisForms(c);
    AxisForms(polygon[right]);
    AxisForms(polygon[left]);
    if exists k :: 0 <= k < |polygon| && polygon[k].x < c.x {
      var k :| 0 <= k < |polygon| && polygon[k].x < c.x;
      SpannedFilled(polygon, sense, c, true, k, right);
    } else if exists k :: 0 <= k < |polygon| && polygon[k].x > c.x {
      var k :| 0 <= k < |polygon| && polygon[k].x > c.x;
      SpannedFilled(polygon, sense, c, false, left, k);
    } else {
      var high := HullSpan(polygon, c, 0, 1);
      var low := HullSpan(polygon, c, 0, -1);
      AxisForms(polygon[high]);
      AxisForms(polygon[low]);
      VertexInOutline(polygon, high);
      VertexInOutline(polygon, low);
      assert polygon[low].x == c.x == polygon[high].x;
    }
  }

  // ---------- no farther than half a cell ----------

  lemma SpanBlend(from: Cell, to: Cell, c: Cell, u: int, v: int)
    ensures Mul(to.x - from.x, Form(u, v, c)) ==
      Mul(to.x - c.x, Form(u, v, from)) + Mul(c.x - from.x, Form(u, v, to)) - Mul(v, Cross(from, to, c))
  {
  }

  lemma TimesBounded(v: int, e: int, w: int)
    requires 2 * Abs(e) <= w
    ensures -2 * Mul(v, e) <= Mul(w, Abs(v))
  {
    hide Mul;
    MulCommutes(v, e);
    MulSigns(e, Abs(v));
    MulOrder(2 * e, w, Abs(v));
    MulOrder(-2 * e, w, Abs(v));
    MulAdds(e, e, Abs(v));
    MulAdds(-e, -e, Abs(v));
  }

  /** Half a cell off a rightward edge in height: hardly beyond any half-plane that holds its ends. */
  lemma OffRightward(from: Cell, to: Cell, c: Cell, u: int, v: int, bound: int)
    requires from.x < to.x && from.x <= c.x <= to.x && 2 * Abs(Cross(from, to, c)) <= to.x - from.x
    requires Form(u, v, from) <= bound && Form(u, v, to) <= bound
    ensures 2 * Form(u, v, c) <= 2 * bound + Abs(v)
  {
    hide Mul, Form, Cross;
    var w := to.x - from.x;
    SpanBlend(from, to, c, u, v);
    TimesBounded(v, Cross(from, to, c), w);
    MulCommutes(to.x - c.x, Form(u, v, from));
    MulCommutes(c.x - from.x, Form(u, v, to));
    MulOrder(Form(u, v, from), bound, to.x - c.x);
    MulOrder(Form(u, v, to), bound, c.x - from.x);
    MulCommutes(bound, to.x - c.x);
    MulCommutes(bound, c.x - from.x);
    MulAdds(to.x - c.x, c.x - from.x, bound);
    var over := 2 * Form(u, v, c) - 2 * bound - Abs(v);
    Collect(w, Form(u, v, c), bound, Abs(v));
    if over > 0 {
      MulOrder(1, over, w);
      MulNext(0, w);
    }
  }

  lemma Collect(w: int, f: int, bound: int, v: int)
    ensures Mul(2 * f - 2 * bound - v, w) == 2 * Mul(w, f) - 2 * Mul(w, bound) - Mul(w, v)
  {
  }

  lemma CrossSwaps(from: Cell, to: Cell, c: Cell)
    ensures Cross(to, from, c) == -Cross(from, to, c)
  {
  }

  /** Rows and columns exchanged. */
  function Transposed(c: Cell): Cell {
    Cell(c.y, c.x)
  }

  lemma TransposedCross(from: Cell, to: Cell, c: Cell)
    ensures Cross(Transposed(from), Transposed(to), Transposed(c)) == -Cross(from, to, c)
  {
  }

  lemma TransposedForm(u: int, v: int, c: Cell)
    ensures Form(v, u, Transposed(c)) == Form(u, v, c)
  {
  }

  lemma OffFlat(from: Cell, to: Cell, c: Cell, u: int, v: int, bound: int)
    requires from.x != to.x && Between(from.x, c.x, to.x) && 2 * Abs(Cross(from, to, c)) <= Abs(to.x - from.x)
    requires Form(u, v, from) <= bound && Form(u, v, to) <= bound
    ensures 2 * Form(u, v, c) <= 2 * bound + Abs(v)
  {
    hide Form, Cross;
    CrossSwaps(from, to, c);
    if from.x < to.x {
      OffRightward(from, to, c, u, v, bound);
    } else {
      OffRightward(to, from, c, u, v, bound);
    }
  }

  function Max(a: int, b: int): int {
    if a < b then b else a
  }

  lemma OffLine(from: Cell, to: Cell, c: Cell, u: int, v: int, bound: int)
    requires CloseTo(from, to, c) && Between(from.x, c.x, to.x) && Between(from.y, c.y, to.y)
    requires Form(u, v, from) <= bound && Form(u, v, to) <= bound
    ensures 2 * Form(u, v, c) <= 2 * bound + Max(Abs(u), Abs(v))
  {
    hide Form, Cross, Transposed;
    if from == to {
      assert c == from;
    } else if Abs(to.x - from.x) >= Abs(to.y - from.y) {
      OffFlat(from, to, c, u, v, bound);
    } else {
      TransposedCross(from, to, c);
      TransposedForm(u, v, from);
      TransposedForm(u, v, to);
      TransposedForm(u, v, c);
      TransposedIs(from);
      TransposedIs(to);
      TransposedIs(c);
      OffFlat(Transposed(from), Transposed(to), Transposed(c), v, u, bound);
    }
  }

  lemma TransposedIs(c: Cell)
    ensures Transposed(c).x == c.y && Transposed(c).y == c.x
  {
  }

  lemma {:induction false} OffPath(path: seq<Cell>, c: Cell, u: int, v: int, bound: int)
    requires c in PathCells(path) && HalfPlane(u, v, bound, path)
    ensures 2 * Form(u, v, c) <= 2 * bound + Max(Abs(u), Abs(v))
  {
    hide LineCells, Form, Max, CloseTo, Between, AllColumns, AllRows;
    var init, from, to := path[..|path| - 1], path[|path| - 2], path[|path| - 1];
    if c in PathCells(init) {
      OffPath(init, c, u, v, bound);
    } else {
      LineVisits(from, to);
      OffLine(from, to, c, u, v, bound);
    }
  }

  lemma ColumnForm(a: Cell, b: Cell, c: Cell, u: int, v: int)
    requires a.x == c.x == b.x && a.y <= c.y <= b.y
    ensures Form(u, v, c) <= Max(Form(u, v, a), Form(u, v, b))
  {
    hide Mul;
    MulCommutes(v, a.y);
    MulCommutes(v, b.y);
    MulCommutes(v, c.y);
    MulSigns(a.y, Abs(v));
    MulSigns(b.y, Abs(v));
    MulSigns(c.y, Abs(v));
    MulOrder(a.y, c.y, Abs(v));
    MulOrder(c.y, b.y, Abs(v));
  }

  /**
   * No filled cell is more than half a cell, along an axis, outside the convex hull of the vertices, whatever the
   * polygon: no half-plane that holds them is passed by more.
   */
  lemma FilledNearHull(polygon: seq<Cell>, c: Cell, u: int, v: int, bound: int)
    requires polygon != [] && InColumnHull(Outline(polygon), c) && HalfPlane(u, v, bound, polygon)
    ensures 2 * Form(u, v, c) <= 2 * bound + Max(Abs(u), Abs(v))
  {
    hide PathCells, Form;
    var cells := Outline(polygon);
    var a, b :| a in cells && b in cells && a.x == c.x && b.x == c.x && a.y <= c.y <= b.y;
    OffPath(polygon + [polygon[0]], a, u, v, bound);
    OffPath(polygon + [polygon[0]], b, u, v, bound);
    ColumnForm(a, b, c, u, v);
  }
}
