/** The two-dimensional costmap: world and map coordinates, and the rolling window. */
module Costmap {
  import opened RealProducts
  import opened RowMajor

  type Cost = c: int | 0 <= c < 256

  const NO_INFORMATION: Cost := 255
  const LETHAL_OBSTACLE: Cost := 254
  const INSCRIBED_INFLATED_OBSTACLE: Cost := 253
  const FREE_SPACE: Cost := 0

  /** The C++ cast from double to int: truncation toward zero. */
  function Truncate(r: real): int {
    if r >= 0.0 then r.Floor else -((-r).Floor)
  }

  /** World coordinate of the centre of cell m. */
  function CellCentre(origin: real, resolution: real, m: int): real {
    origin + Times(m as real + 0.5, resolution)
  }

  /** Offset in cells from a grid at origin to a requested new origin. */
  function CellOffset(origin: real, resolution: real, requested: real): int
    requires resolution > 0.0
  {
    Truncate((requested - origin) / resolution)
  }

  /** The grid-aligned origin a whole number of cells away. */
  function MovedOrigin(origin: real, resolution: real, cells: int): real {
    origin + Times(cells as real, resolution)
  }

  /** shifted is old seen through a window moved by (ox, oy); uncovered cells hold fill. */
  ghost predicate Shifted<T(!new)>(shifted: seq<T>, old_: seq<T>, width: nat, height: nat, ox: int, oy: int, fill: T) {
    && Fits(shifted, width, height) && Fits(old_, width, height)
    && forall x, y :: Inside(width, height, x, y) ==>
         At(shifted, width, height, x, y) ==
           if Inside(width, height, x + ox, y + oy) then At(old_, width, height, x + ox, y + oy) else fill
  }

  function Min(a: int, b: int): int { if a < b then a else b }
  function Max(a: int, b: int): int { if a > b then a else b }

  /** The part of the old window that is still visible, along one axis: first cell and size. */
  function Lower(offset: int, size: nat): int { Min(Max(offset, 0), size) }
  function Upper(offset: int, size: nat): int { Min(Max(offset + size, 0), size) }

  function Visible(offset: int, size: nat): nat { Upper(offset, size) - Lower(offset, size) }

  /** The visible part lies in the old window, and in the new one when it is not empty. */
  lemma VisibleRange(offset: int, size: nat)
    ensures 0 <= Lower(offset, size) <= Upper(offset, size) <= size
    ensures Lower(offset, size) < Upper(offset, size) ==>
      0 <= Lower(offset, size) - offset && Upper(offset, size) - offset <= size
  {
  }

  method Fill<T>(a: array<T>, value: T)
    modifies a
    ensures forall i :: 0 <= i < a.Length ==> a[i] == value
  {
    var i := 0;
    while i < a.Length
      invariant 0 <= i <= a.Length
      invariant forall j :: 0 <= j < i ==> a[j] == value
    {
      a[i] := value;
      i := i + 1;
    }
  }

  /** window holds the visible part of old_. */
  ghost predicate WindowOf<T(!new)>(window: seq<T>, old_: seq<T>, width: nat, height: nat, ox: int, oy: int)
    requires Fits(old_, width, height)
  {
    var sizeX, sizeY := Visible(ox, width), Visible(oy, height);
    && Fits(window, sizeX, sizeY)
    && forall x, y :: Inside(sizeX, sizeY, x, y) ==>
         At(window, sizeX, sizeY, x, y) == VisibleAt(old_, width, height, ox, oy, x, y)
  }

  /** Cell (x, y) of the visible part of old_. */
  ghost function VisibleAt<T(!new)>(old_: seq<T>, width: nat, height: nat, ox: int, oy: int, x: int, y: int): T
    requires Fits(old_, width, height) && Inside(Visible(ox, width), Visible(oy, height), x, y)
  {
    At(old_, width, height, x + Lower(ox, width), y + Lower(oy, height))
  }

  /** Copies the visible part of data into a temporary array of its own size. */
  method TakeWindow<T(0, !new)>(data: array<T>, width: nat, height: nat, ox: int, oy: int) returns (local: array<T>)
    requires data.Length == Area(width, height)
    ensures fresh(local) && WindowOf(local[..], data[..], width, height, ox, oy)
  {
    var lowerX, lowerY := Lower(ox, width), Lower(oy, height);
    var sizeX, sizeY := Visible(ox, width), Visible(oy, height);
    VisibleRange(ox, width);
    VisibleRange(oy, height);
    local := new T[Area(sizeX, sizeY)];
    CopyMapRegion(data, lowerX, lowerY, width, height, local, 0, 0, sizeX, sizeY, sizeX, sizeY);
    hide At, Area, Index;
  }

  /** Copies a window taken earlier to its new place in a cleared array: together with the clearing, the shift. */
  method PutWindow<T(!new)>(local: array<T>, data: array<T>, width: nat, height: nat, ox: int, oy: int,
                            fill: T, ghost before: seq<T>)
    requires local != data && data.Length == Area(width, height) && Fits(before, width, height)
    requires WindowOf(local[..], before, width, height, ox, oy)
    requires forall i :: 0 <= i < data.Length ==> data[i] == fill
    modifies data
    ensures Shifted(data[..], before, width, height, ox, oy, fill)
  {
    var startX, startY := Lower(ox, width) - ox, Lower(oy, height) - oy;
    var sizeX, sizeY := Visible(ox, width), Visible(oy, height);
    VisibleRange(ox, width);
    VisibleRange(oy, height);
    ghost var blank, window := data[..], local[..];
    CopyMapRegion(local, 0, 0, sizeX, sizeY, data, startX, startY, width, height, sizeX, sizeY);
    WindowPlaced(before, window, blank, data[..], width, height, ox, oy, sizeX, sizeY, startX, startY, fill);
  }

  lemma WindowPlaced<T(!new)>(before: seq<T>, window: seq<T>, blank: seq<T>, after: seq<T>,
                              width: nat, height: nat, ox: int, oy: int,
                              sizeX: nat, sizeY: nat, startX: int, startY: int, fill: T)
    requires sizeX == Visible(ox, width) && sizeY == Visible(oy, height)
    requires startX == Lower(ox, width) - ox && startY == Lower(oy, height) - oy
    requires Fits(before, width, height) && Fits(blank, width, height) && Fits(after, width, height)
    requires WindowOf(window, before, width, height, ox, oy)
    requires forall i :: 0 <= i < |blank| ==> blank[i] == fill
    requires Overlaid(after, blank, startX, startY, width, height, window, 0, 0, sizeX, sizeY, sizeX, sizeY)
    ensures Shifted(after, before, width, height, ox, oy, fill)
  {
    hide At, Index;
    forall x, y | Inside(width, height, x, y)
      ensures At(after, width, height, x, y) ==
        if Inside(width, height, x + ox, y + oy) then At(before, width, height, x + ox, y + oy) else fill
    {
      AtIndex(blank, width, height, x, y);
      if Inside(sizeX, sizeY, x - startX, y - startY) {
        assert At(window, sizeX, sizeY, x - startX, y - startY) ==
          VisibleAt(before, width, height, ox, oy, x - startX, y - startY);
      }
    }
  }

  // ---------- what a shift means in the world ----------

  /** A surviving cell keeps its world position. */
  lemma ShiftKeepsWorld(origin: real, resolution: real, offset: int, m: int)
    ensures CellCentre(MovedOrigin(origin, resolution, offset), resolution, m) ==
      CellCentre(origin, resolution, m + offset)
  {
    hide Times;
    TimesAdds(offset as real, m as real + 0.5, resolution);
    assert (m + offset) as real + 0.5 == offset as real + (m as real + 0.5);
  }

  lemma TruncateBounds(r: real)
    ensures r >= 0.0 ==> 0.0 <= Truncate(r) as real <= r < Truncate(r) as real + 1.0
    ensures r < 0.0 ==> Truncate(r) as real - 1.0 < r <= Truncate(r) as real <= 0.0
  {
  }

  /** The new origin lies between the old one and the requested one, less than a cell short of it. */
  lemma OriginStopsShort(origin: real, resolution: real, requested: real)
    requires resolution > 0.0
    ensures var moved := MovedOrigin(origin, resolution, CellOffset(origin, resolution, requested));
      if origin <= requested then origin <= moved <= requested < moved + resolution
      else moved - resolution < requested <= moved <= origin
  {
    hide Times, Truncate;
    var a := requested - origin;
    var t := CellOffset(origin, resolution, requested) as real;
    TruncateBounds(a / resolution);
    TimesAdds(t, 1.0, resolution);
    TimesAdds(t - 1.0, 1.0, resolution);
    TimesAdds(0.0, 0.0, resolution);
    QuotientOrder(a, resolution, 0.0);
    QuotientOrder(a, resolution, t);
    QuotientOrder(a, resolution, t + 1.0);
    QuotientOrder(a, resolution, t - 1.0);
    TimesMonotone(0.0, t, resolution);
    TimesMonotone(t, 0.0, resolution);
  }

  datatype MapPoint = Outside | OnMap(x: int, y: int)

  /** World to map coordinates; the cast truncates, so points below the origin are refused first. */
  function WorldToMap(wx: real, wy: real, originX: real, originY: real, resolution: real, width: nat,
                      height: nat): MapPoint
    requires resolution > 0.0
  {
    if wx < originX || wy < originY then Outside
    else
      var mx, my := Truncate((wx - originX) / resolution), Truncate((wy - originY) / resolution);
      if mx < width && my < height then OnMap(mx, my) else Outside
  }

  /** Points map to the cell whose square contains them, and only points of the map's rectangle map at all. */
  lemma WorldToMapIsCell(wx: real, wy: real, originX: real, originY: real, resolution: real, width: nat, height: nat,
                         x: int, y: int)
    requires resolution > 0.0
    ensures WorldToMap(wx, wy, originX, originY, resolution, width, height) == OnMap(x, y) <==>
      && Inside(width, height, x, y)
      && MovedOrigin(originX, resolution, x) <= wx < MovedOrigin(originX, resolution, x + 1)
      && MovedOrigin(originY, resolution, y) <= wy < MovedOrigin(originY, resolution, y + 1)
  {
    CellContains(wx, originX, resolution, x);
    CellContains(wy, originY, resolution, y);
    CellContains(wx, originX, resolution, Truncate((wx - originX) / resolution));
    CellContains(wy, originY, resolution, Truncate((wy - originY) / resolution));
  }

  lemma CellContains(w: real, origin: real, resolution: real, m: int)
    requires resolution > 0.0
    ensures w >= origin && Truncate((w - origin) / resolution) == m <==>
      0 <= m && MovedOrigin(origin, resolution, m) <= w < MovedOrigin(origin, resolution, m + 1)
  {
    hide Times, Truncate;
    var a, t := w - origin, m as real;
    TruncateBounds(a / resolution);
    TimesAdds(0.0, 0.0, resolution);
    QuotientOrder(a, resolution, 0.0);
    QuotientOrder(a, resolution, t);
    QuotientOrder(a, resolution, t + 1.0);
    assert (m + 1) as real == t + 1.0;
    if 0 <= m { TimesMonotone(0.0, t, resolution); }
  }

  // ---------- shifts as window moves ----------

  /** Two shifts in a row show what both windows show. */
  lemma ShiftsCompose<T(!new)>(a: seq<T>, b: seq<T>, c: seq<T>, width: nat, height: nat,
                               ox: int, oy: int, px: int, py: int, fill: T, x: int, y: int)
    requires Shifted(b, a, width, height, ox, oy, fill) && Shifted(c, b, width, height, px, py, fill)
    requires Inside(width, height, x, y)
    ensures At(c, width, height, x, y) ==
      if Inside(width, height, x + px, y + py) && Inside(width, height, x + px + ox, y + py + oy)
      then At(a, width, height, x + px + ox, y + py + oy) else fill
  {
    hide At;
    if Inside(width, height, x + px, y + py) {
      assert At(c, width, height, x, y) == At(b, width, height, x + px, y + py);
    }
  }

  lemma CentreInCell(origin: real, resolution: real, m: int)
    requires resolution > 0.0
    ensures MovedOrigin(origin, resolution, m) <= CellCentre(origin, resolution, m) <
            MovedOrigin(origin, resolution, m + 1)
    ensures m < 0 ==> CellCentre(origin, resolution, m) < origin
  {
    hide Times;
    var half := 0.5;
    assert (m + 1) as real == m as real + 1.0;
    TimesMonotone(m as real, m as real + half, resolution);
    TimesMonotone(m as real + half, m as real + 1.0, resolution);
    TimesMonotone(m as real + half, 0.0, resolution);
    TimesAdds(0.0, 0.0, resolution);
  }

  /** A place on a map of one axis: its centre is found in its own cell and nowhere else. */
  lemma CentreFound(origin: real, resolution: real, m: int, i: int)
    requires resolution > 0.0
    ensures var w := CellCentre(origin, resolution, m);
      w >= origin && Truncate((w - origin) / resolution) == i <==> 0 <= m && i == m
  {
    hide MovedOrigin, Truncate, CellCentre;
    CentreInCell(origin, resolution, m);
    var w := CellCentre(origin, resolution, m);
    CellContains(w, origin, resolution, m);
    CellContains(w, origin, resolution, i);
  }

  lemma CentreMapped(originX: real, originY: real, resolution: real, width: nat, height: nat, x: int, y: int)
    requires resolution > 0.0
    ensures WorldToMap(CellCentre(originX, resolution, x), CellCentre(originY, resolution, y), originX, originY,
                       resolution, width, height) ==
            if Inside(width, height, x, y) then OnMap(x, y) else MapPoint.Outside
  {
    hide Truncate, CellCentre, MovedOrigin;
    var wx, wy := CellCentre(originX, resolution, x), CellCentre(originY, resolution, y);
    CentreFound(originX, resolution, x, x);
    CentreFound(originY, resolution, y, y);
    CentreFound(originX, resolution, x, Truncate((wx - originX) / resolution));
    CentreFound(originY, resolution, y, Truncate((wy - originY) / resolution));
  }

  /**
   The shift seen in the world: the cell at a place of the moved map holds what the map before held at that place, and
   the default where that map did not reach.
   */
  lemma ShiftKeepsPlaces<T(!new)>(before: seq<T>, after: seq<T>, width: nat, height: nat, originX: real, originY: real,
                                  resolution: real, ox: int, oy: int, fill: T, x: int, y: int)
    requires resolution > 0.0 && Shifted(after, before, width, height, ox, oy, fill) && Inside(width, height, x, y)
    ensures var wx := CellCentre(MovedOrigin(originX, resolution, ox), resolution, x);
      var wy := CellCentre(MovedOrigin(originY, resolution, oy), resolution, y);
      match WorldToMap(wx, wy, originX, originY, resolution, width, height)
      case OnMap(i, j) => Inside(width, height, i, j) &&
        At(after, width, height, x, y) == At(before, width, height, i, j)
      case Outside => At(after, width, height, x, y) == fill
  {
    hide At, Truncate, CellCentre, MovedOrigin;
    ShiftKeepsWorld(originX, resolution, ox, x);
    ShiftKeepsWorld(originY, resolution, oy, y);
    CentreMapped(originX, originY, resolution, width, height, x + ox, y + oy);
  }

  lemma AddressesOrdered(width: nat, x: int, y: nat, y': nat)
    ensures Index(width, x, y) < Index(width, x, y') <==> width > 0 && y < y'
  {
    if y < y' && width > 0 {
      RowsApart(width, y, y');
    } else if y' <= y {
      RowsNotBelow(width, y', y);
    }
  }

  lemma RowsNotBelow(width: nat, y: nat, y': nat)
    requires y <= y'
    ensures y * width <= y' * width
  {
  }

  /** One memset: count elements from the given address on. */
  method FillRow(a: array<Cost>, ghost width: nat, ghost height: nat, ghost x0: nat, ghost row: nat, address: int,
                 count: nat, value: Cost)
    requires a.Length == Area(width, height) && x0 + count <= width && row < height && address == Index(width, x0, row)
    modifies a
    ensures forall x, y :: Inside(width, height, x, y) ==>
      At(a[..], width, height, x, y) ==
        if y == row && x0 <= x < x0 + count then value else At(old(a[..]), width, height, x, y)
  {
    hide At, Index, Area;
    ghost var before := a[..];
    var j := 0;
    while j < count
      invariant 0 <= j <= count
      invariant forall x, y :: Inside(width, height, x, y) ==>
        At(a[..], width, height, x, y) ==
          if y == row && x0 <= x < x0 + j then value else At(before, width, height, x, y)
    {
      IndexAlongRow(width, x0, row, j);
      ghost var now := a[..];
      AtUpdate(now, width, height, x0 + j, row, value);
      a[address + j] := value;
      assert a[..] == now[Index(width, x0 + j, row) := value];
      j := j + 1;
    }
  }

  class Costmap2D {
    var sizeX: nat
    var sizeY: nat
    var resolution: real
    var originX: real
    var originY: real
    var costmap: array<Cost>
    var defaultValue: Cost

    ghost predicate Valid()
      reads this
    {
      resolution > 0.0 && costmap.Length == Area(sizeX, sizeY)
    }

    /** Cost of cell (x, y). */
    ghost function CostAt(x: int, y: int): Cost
      requires Valid() && Inside(sizeX, sizeY, x, y)
      reads this, costmap
    {
      At(costmap[..], sizeX, sizeY, x, y)
    }

    constructor (cellsX: nat, cellsY: nat, resolution: real, originX: real, originY: real, defaultValue: Cost)
      requires resolution > 0.0
      ensures Valid() && fresh(costmap)
      ensures sizeX == cellsX && sizeY == cellsY && this.resolution == resolution
      ensures this.originX == originX && this.originY == originY && this.defaultValue == defaultValue
      ensures forall x, y :: Inside(sizeX, sizeY, x, y) ==> CostAt(x, y) == defaultValue
    {
      sizeX, sizeY := cellsX, cellsY;
      this.resolution, this.originX, this.originY := resolution, originX, originY;
      this.defaultValue := defaultValue;
      costmap := new Cost[Area(cellsX, cellsY)];
      new;
      ResetMaps();
    }

    method ResetMaps()
      requires Valid()
      modifies costmap
      ensures forall i :: 0 <= i < costmap.Length ==> costmap[i] == defaultValue
      ensures forall x, y :: Inside(sizeX, sizeY, x, y) ==> CostAt(x, y) == defaultValue
    {
      Fill(costmap, defaultValue);
      forall x, y | Inside(sizeX, sizeY, x, y) ensures CostAt(x, y) == defaultValue {
        AtIndex(costmap[..], sizeX, sizeY, x, y);
      }
    }

    /** Sets the cells of columns x0 to xn and rows y0 to yn, the ends not included, and no others. */
    method ResetMapToValue(x0: nat, y0: nat, xn: nat, yn: nat, value: Cost)
      requires Valid() && x0 <= xn <= sizeX && yn <= sizeY
      modifies costmap
      ensures forall x, y :: Inside(sizeX, sizeY, x, y) ==>
        CostAt(x, y) == if x0 <= x < xn && y0 <= y < yn then value else old(CostAt(x, y))
    {
      hide Index, Area;
      ghost var before := costmap[..];
      var length := xn - x0;
      var address := Index(sizeX, x0, y0);
      ghost var row: nat := y0;
      AddressesOrdered(sizeX, x0, row, yn);
      while address < Index(sizeX, x0, yn)
        invariant address == Index(sizeX, x0, row) && (row <= yn || row == y0)
        invariant address < Index(sizeX, x0, yn) <==> sizeX > 0 && row < yn
        invariant forall x, y :: Inside(sizeX, sizeY, x, y) ==>
          At(costmap[..], sizeX, sizeY, x, y) ==
            if x0 <= x < xn && y0 <= y < row then value else At(before, sizeX, sizeY, x, y)
        decreases yn - row
      {
        FillRow(costmap, sizeX, sizeY, x0, row, address, length, value);
        IndexNeighbours(sizeX, x0, row);
        address := address + sizeX;
        row := row + 1;
        AddressesOrdered(sizeX, x0, row, yn);
      }
    }

    /** Moves the origin by whole cells toward the requested point and keeps what stays visible. */
    method UpdateOrigin(newOriginX: real, newOriginY: real)
      requires Valid()
      modifies this`originX, this`originY, costmap
      ensures Valid()
      ensures originX == MovedOrigin(old(originX), resolution, CellOffset(old(originX), resolution, newOriginX))
      ensures originY == MovedOrigin(old(originY), resolution, CellOffset(old(originY), resolution, newOriginY))
      ensures Shifted(costmap[..], old(costmap[..]), sizeX, sizeY,
                      CellOffset(old(originX), resolution, newOriginX),
                      CellOffset(old(originY), resolution, newOriginY), defaultValue)
    {
      var cellOx := CellOffset(originX, resolution, newOriginX);
      var cellOy := CellOffset(originY, resolution, newOriginY);
      var newGridOx := MovedOrigin(originX, resolution, cellOx);
      var newGridOy := MovedOrigin(originY, resolution, cellOy);
      hide Shifted, CellOffset, MovedOrigin, WindowOf;
      ghost var before := costmap[..];
      var localMap := TakeWindow(costmap, sizeX, sizeY, cellOx, cellOy);
      ghost var window := localMap[..];
      ResetMaps();
      originX, originY := newGridOx, newGridOy;
      assert localMap[..] == window;
      PutWindow(localMap, costmap, sizeX, sizeY, cellOx, cellOy, defaultValue, before);
    }
  }
}
