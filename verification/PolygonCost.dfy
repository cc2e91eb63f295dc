/** Writing one cost over a polygon given in world coordinates. */
module PolygonCost {
  import opened GridGeometry
  import opened RowMajor
  import opened Bresenham
  import opened ConvexFill
  import FillGeometry
  import opened Costmap
  import opened RealProducts

  datatype WorldPoint = WorldPoint(x: real, y: real)

  /** Placement and size of a map. */
  datatype Frame = Frame(originX: real, originY: real, resolution: real, width: nat, height: nat)

  function MapPointOf(f: Frame, p: WorldPoint): MapPoint
    requires f.resolution > 0.0
  {
    WorldToMap(p.x, p.y, f.originX, f.originY, f.resolution, f.width, f.height)
  }

  /** Every vertex lies on the map. */
  predicate AllOnMap(f: Frame, polygon: seq<WorldPoint>)
    requires f.resolution > 0.0
  {
    forall k :: 0 <= k < |polygon| ==> MapPointOf(f, polygon[k]).OnMap?
  }

  function CellOfPoint(f: Frame, p: WorldPoint): Cell
    requires f.resolution > 0.0
  {
    match MapPointOf(f, p)
    case OnMap(x, y) => Cell(x, y)
    case Outside => Cell(0, 0)
  }

  function MapPolygon(f: Frame, polygon: seq<WorldPoint>): (cells: seq<Cell>)
    requires f.resolution > 0.0
    ensures |cells| == |polygon|
  {
    seq(|polygon|, k requires 0 <= k < |polygon| => CellOfPoint(f, polygon[k]))
  }

  predicate AllInside(width: nat, height: nat, cells: seq<Cell>) {
    forall k :: 0 <= k < |cells| ==> RowMajor.Inside(width, height, cells[k].x, cells[k].y)
  }

  lemma {:induction false} PathCellsInside(path: seq<Cell>, width: nat, height: nat, c: Cell)
    requires AllInside(width, height, path) && c in PathCells(path)
    ensures RowMajor.Inside(width, height, c.x, c.y)
  {
    hide LineCells;
    var init, from, to := path[..|path| - 1], path[|path| - 2], path[|path| - 1];
    if c in PathCells(init) {
      PathCellsInside(init, width, height, c);
    } else {
      LineSpans(from, to);
      assert Between(from.x, c.x, to.x) && Between(from.y, c.y, to.y);
    }
  }

  /** The filled cells of a polygon on the map are on the map. */
  lemma HullInside(polygon: seq<Cell>, width: nat, height: nat, c: Cell)
    requires polygon != [] && AllInside(width, height, polygon) && InColumnHull(Outline(polygon), c)
    ensures RowMajor.Inside(width, height, c.x, c.y)
  {
    hide PathCells;
    var a, b :| a in Outline(polygon) && b in Outline(polygon) && a.x == c.x && b.x == c.x && a.y <= c.y <= b.y;
    PathCellsInside(polygon + [polygon[0]], width, height, a);
    PathCellsInside(polygon + [polygon[0]], width, height, b);
  }

  lemma WorldToMapInside(f: Frame, p: WorldPoint)
    requires f.resolution > 0.0 && MapPointOf(f, p).OnMap?
    ensures RowMajor.Inside(f.width, f.height, CellOfPoint(f, p).x, CellOfPoint(f, p).y)
  {
    hide MovedOrigin, WorldToMap;
    var c := CellOfPoint(f, p);
    WorldToMapIsCell(p.x, p.y, f.originX, f.originY, f.resolution, f.width, f.height, c.x, c.y);
  }

  /** A polygon is accepted when every vertex lies in the map's rectangle, its upper and right sides not included. */
  lemma AcceptedExactly(f: Frame, polygon: seq<WorldPoint>)
    requires f.resolution > 0.0
    ensures AllOnMap(f, polygon) <==> forall k :: 0 <= k < |polygon| ==>
      && f.originX <= polygon[k].x < MovedOrigin(f.originX, f.resolution, f.width)
      && f.originY <= polygon[k].y < MovedOrigin(f.originY, f.resolution, f.height)
  {
    hide MovedOrigin, WorldToMap;
    forall k | 0 <= k < |polygon|
      ensures MapPointOf(f, polygon[k]).OnMap? <==>
        && f.originX <= polygon[k].x < MovedOrigin(f.originX, f.resolution, f.width)
        && f.originY <= polygon[k].y < MovedOrigin(f.originY, f.resolution, f.height)
    {
      OnMapExactly(f, polygon[k]);
    }
  }

  lemma OnMapExactly(f: Frame, p: WorldPoint)
    requires f.resolution > 0.0
    ensures MapPointOf(f, p).OnMap? <==>
      && f.originX <= p.x < MovedOrigin(f.originX, f.resolution, f.width)
      && f.originY <= p.y < MovedOrigin(f.originY, f.resolution, f.height)
  {
    if p.x >= f.originX { WithinAxis(p.x, f.originX, f.resolution, f.width); }
    if p.y >= f.originY { WithinAxis(p.y, f.originY, f.resolution, f.height); }
    hide MovedOrigin, Truncate;
  }

  lemma WithinAxis(w: real, origin: real, resolution: real, size: nat)
    requires resolution > 0.0 && w >= origin
    ensures Truncate((w - origin) / resolution) < size <==> w < MovedOrigin(origin, resolution, size)
  {
    hide Times, Truncate;
    var q := (w - origin) / resolution;
    QuotientOrder(w - origin, resolution, size as real);
    QuotientOrder(w - origin, resolution, 0.0);
    TimesAdds(0.0, 0.0, resolution);
    TruncateBounds(q);
  }

  /** Each vertex is taken to the cell whose square holds it, both axes alike. */
  lemma VertexCell(f: Frame, polygon: seq<WorldPoint>, k: nat)
    requires f.resolution > 0.0 && AllOnMap(f, polygon) && k < |polygon|
    ensures var c := MapPolygon(f, polygon)[k];
      && MovedOrigin(f.originX, f.resolution, c.x) <= polygon[k].x < MovedOrigin(f.originX, f.resolution, c.x + 1)
      && MovedOrigin(f.originY, f.resolution, c.y) <= polygon[k].y < MovedOrigin(f.originY, f.resolution, c.y + 1)
  {
    hide MovedOrigin, WorldToMap;
    var p, c := polygon[k], MapPolygon(f, polygon)[k];
    WorldToMapIsCell(p.x, p.y, f.originX, f.originY, f.resolution, f.width, f.height, c.x, c.y);
  }

  /** The cells a polygon covers: none below three vertices, else the column hull of its outline. */
  ghost predicate Covered(polygon: seq<Cell>, c: Cell) {
    |polygon| >= 3 && InColumnHull(Outline(polygon), c)
  }

  /**
   * Fewer than three vertices cover nothing. A convex polygon covers every cell of the hull of its vertices; and no
   * polygon covers a cell more than half a cell, along an axis, beyond a half-plane that holds its vertices.
   */
  lemma CoversHull(polygon: seq<Cell>, c: Cell, sense: int, u: int, v: int, bound: int)
    ensures |polygon| < 3 ==> !Covered(polygon, c)
    ensures |polygon| >= 3 && FillGeometry.Convex(polygon, sense) && FillGeometry.InHull(polygon, c) ==>
      Covered(polygon, c)
    ensures Covered(polygon, c) && FillGeometry.HalfPlane(u, v, bound, polygon) ==>
      2 * FillGeometry.Form(u, v, c) <= 2 * bound + FillGeometry.Max(Abs(u), Abs(v))
  {
    hide InColumnHull, Outline;
    if FillGeometry.Convex(polygon, sense) && FillGeometry.InHull(polygon, c) {
      FillGeometry.HullFilled(polygon, sense, c);
    }
    if Covered(polygon, c) && FillGeometry.HalfPlane(u, v, bound, polygon) {
      FillGeometry.FilledNearHull(polygon, c, u, v, bound);
    }
  }

  /** Refuses a polygon that leaves the map; otherwise sets the covered cells and no others. */
  method SetConvexPolygonCost(m: Costmap2D, polygon: seq<WorldPoint>, value: Cost) returns (ok: bool)
    requires m.Valid()
    modifies m.costmap
    ensures m.Valid() && ok == AllOnMap(Frame(m.originX, m.originY, m.resolution, m.sizeX, m.sizeY), polygon)
    ensures !ok ==> m.costmap[..] == old(m.costmap[..])
    ensures ok ==> forall x, y :: RowMajor.Inside(m.sizeX, m.sizeY, x, y) ==>
      At(m.costmap[..], m.sizeX, m.sizeY, x, y) ==
        if Covered(MapPolygon(Frame(m.originX, m.originY, m.resolution, m.sizeX, m.sizeY), polygon), Cell(x, y))
          then value
        else At(old(m.costmap[..]), m.sizeX, m.sizeY, x, y)
  {
    hide At, Index, Area, Outline, InColumnHull, MapPointOf;
    var mapPolygon: seq<Cell> := [];
    var f := Frame(m.originX, m.originY, m.resolution, m.sizeX, m.sizeY);
    ghost var before := m.costmap[..];
    var i := 0;
    while i < |polygon|
      invariant 0 <= i <= |polygon| && mapPolygon == MapPolygon(f, polygon[..i])
      invariant forall k :: 0 <= k < i ==> MapPointOf(f, polygon[k]).OnMap?
      invariant AllInside(m.sizeX, m.sizeY, mapPolygon)
      invariant m.costmap[..] == before
    {
      var loc := MapPointOf(f, polygon[i]);
      if loc == Outside {
        return false;
      }
      WorldToMapInside(f, polygon[i]);
      assert polygon[..i + 1] == polygon[..i] + [polygon[i]];
      mapPolygon := mapPolygon + [Cell(loc.x, loc.y)];
      i := i + 1;
    }
    assert polygon[..i] == polygon;
    var polygonCells := ConvexFillCells(m.sizeX, mapPolygon);
    forall c | c in polygonCells ensures RowMajor.Inside(m.sizeX, m.sizeY, c.x, c.y) {
      HullInside(mapPolygon, m.sizeX, m.sizeY, c);
    }
    PaintCells(m, polygonCells, value);
    ok := true;
  }

  /** Sets the cost of every listed cell. */
  method PaintCells(m: Costmap2D, cells: seq<Cell>, value: Cost)
    requires m.Valid() && forall c :: c in cells ==> RowMajor.Inside(m.sizeX, m.sizeY, c.x, c.y)
    modifies m.costmap
    ensures forall x, y :: RowMajor.Inside(m.sizeX, m.sizeY, x, y) ==>
      At(m.costmap[..], m.sizeX, m.sizeY, x, y) ==
        if Cell(x, y) in cells then value else At(old(m.costmap[..]), m.sizeX, m.sizeY, x, y)
  {
    hide At, Index, Area;
    ghost var before := m.costmap[..];
    var i := 0;
    while i < |cells|
      invariant 0 <= i <= |cells|
      invariant forall x, y :: RowMajor.Inside(m.sizeX, m.sizeY, x, y) ==>
        At(m.costmap[..], m.sizeX, m.sizeY, x, y) ==
          if Cell(x, y) in cells[..i] then value else At(before, m.sizeX, m.sizeY, x, y)
    {
      var c := cells[i];
      assert c in cells;
      ghost var now := m.costmap[..];
      AtUpdate(now, m.sizeX, m.sizeY, c.x, c.y, value);
      var index := Index(m.sizeX, c.x, c.y);
      m.costmap[index] := value;
      assert m.costmap[..] == now[index := value];
      assert cells[..i + 1] == cells[..i] + [c];
      i := i + 1;
    }
    assert cells[..i] == cells;
  }
}
