/** Row-major addressing of a width-by-height grid in one array. */
module RowMajor {
  import opened IntProducts

  function Index(width: int, x: int, y: int): int {
    y * width + x
  }

  /** Number of cells. */
  function Area(width: nat, height: nat): nat {
    assert 0 <= width * height;
    width * height
  }

  lemma IndexInRange(width: nat, height: nat, x: int, y: int)
    requires 0 <= x < width && 0 <= y < height
    ensures 0 <= Index(width, x, y) < Area(width, height)
  {
    MulOrder(y + 1, height, width);
    MulNext(y, width);
    MulOrder(0, y, width);
    MulCommutes(width, height);
  }

  /** Different cells have different addresses. */
  lemma IndexInjective(width: nat, x: int, y: int, x': int, y': int)
    requires 0 <= x < width && 0 <= x' < width
    ensures Index(width, x, y) == Index(width, x', y') <==> x == x' && y == y'
  {
    if y < y' {
      RowsApart(width, y, y');
    } else if y' < y {
      RowsApart(width, y', y);
    }
  }

  lemma RowsApart(width: nat, y: int, y': int)
    requires y < y'
    ensures y * width + width <= y' * width
  {
    MulOrder(y + 1, y', width);
    MulNext(y, width);
  }

  /** Neighbouring cells are one apart along x and one row apart along y. */
  lemma IndexNeighbours(width: int, x: int, y: int)
    ensures Index(width, x + 1, y) == Index(width, x, y) + 1
    ensures Index(width, x - 1, y) == Index(width, x, y) - 1
    ensures Index(width, x, y + 1) == Index(width, x, y) + width
    ensures Index(width, x, y - 1) == Index(width, x, y) - width
  {
    assert (y + 1) * width == y * width + width;
    assert (y - 1) * width == y * width - width;
  }

  lemma RowBelow(width: nat, y: int, y': int)
    requires y * width < y' * width
    ensures y < y'
  {
    if y' < y {
      RowsApart(width, y', y);
    }
  }

  /** Every address below width * height belongs to a cell. */
  lemma CellOfIndex(width: nat, height: nat, i: int) returns (x: int, y: int)
    requires 0 <= i < Area(width, height)
    ensures 0 <= x < width && 0 <= y < height && Index(width, x, y) == i
  {
    if width == 0 { assert false; }
    x, y := i % width, i / width;
    assert y * width + x == i;
    RowBelow(width, y, height);
    assert (y + 1) * width == y * width + width;
    RowBelow(width, -1, y);
  }

  lemma IndexAlongRow(width: int, x: int, y: int, j: int)
    ensures Index(width, x + j, y) == Index(width, x, y) + j
  {
  }

  /** A step by one cell along each axis moves the address by one and by one row. */
  lemma IndexStep(width: int, x: int, y: int, a: int, b: int)
    requires -1 <= b <= 1
    ensures Index(width, x + a, y + b) == Index(width, x, y) + a +
      (if b == 1 then width else if b == -1 then -width else 0)
  {
    IndexNeighbours(width, x + a, y);
    IndexAlongRow(width, x, y, a);
  }

  /** The cell of an address, as the source computes it. */
  function IndexToCell(width: int, index: int): (int, int)
    requires width > 0
  {
    var y := index / width;
    (index - y * width, y)
  }

  lemma IndexToCellInverts(width: nat, x: int, y: int)
    requires 0 <= x < width && 0 <= y
    ensures IndexToCell(width, Index(width, x, y)) == (x, y)
  {
    var index := Index(width, x, y);
    var (x', y') := IndexToCell(width, index);
    assert 0 <= x' < width && Index(width, x', y') == index;
    IndexInjective(width, x, y, x', y');
  }

  /** s holds one element per cell. */
  predicate Fits<T>(s: seq<T>, width: nat, height: nat) {
    |s| == Area(width, height)
  }

  predicate Inside(width: int, height: int, x: int, y: int) {
    0 <= x < width && 0 <= y < height
  }

  /** The element of cell (x, y). */
  function At<T>(s: seq<T>, width: nat, height: nat, x: int, y: int): T
    requires Fits(s, width, height) && Inside(width, height, x, y)
  {
    IndexInRange(width, height, x, y);
    s[Index(width, x, y)]
  }

  /** Two grids that agree on every cell are the same. */
  lemma SameCells<T>(s: seq<T>, t: seq<T>, width: nat, height: nat)
    requires Fits(s, width, height) && Fits(t, width, height)
    requires forall x, y :: Inside(width, height, x, y) ==> At(s, width, height, x, y) == At(t, width, height, x, y)
    ensures s == t
  {
    forall i | 0 <= i < |s| ensures s[i] == t[i] {
      var x, y := CellOfIndex(width, height, i);
      assert At(s, width, height, x, y) == At(t, width, height, x, y);
    }
  }

  /** Overwriting the address of one cell changes that cell only. */
  lemma AtUpdate<T>(s: seq<T>, width: nat, height: nat, x: int, y: int, v: T)
    requires Fits(s, width, height) && Inside(width, height, x, y)
    ensures 0 <= Index(width, x, y) < |s| && Fits(s[Index(width, x, y) := v], width, height)
    ensures forall x', y' :: Inside(width, height, x', y') ==>
      At(s[Index(width, x, y) := v], width, height, x', y') ==
        if x' == x && y' == y then v else At(s, width, height, x', y')
  {
    hide Index;
    IndexInRange(width, height, x, y);
    forall x', y' | Inside(width, height, x', y')
      ensures At(s[Index(width, x, y) := v], width, height, x', y') ==
        if x' == x && y' == y then v else At(s, width, height, x', y')
    {
      IndexInRange(width, height, x', y');
      IndexInjective(width, x, y, x', y');
    }
  }

  lemma AtIndex<T>(s: seq<T>, width: nat, height: nat, x: int, y: int)
    requires Fits(s, width, height) && Inside(width, height, x, y)
    ensures 0 <= Index(width, x, y) < |s| && s[Index(width, x, y)] == At(s, width, height, x, y)
  {
    IndexInRange(width, height, x, y);
  }

  /** after is before with the window of source at (sx, sy) laid over it at (dx, dy). */
  ghost predicate Overlaid<T(!new)>(after: seq<T>, before: seq<T>, dx: int, dy: int, dWidth: nat, dHeight: nat,
                                    source: seq<T>, sx: int, sy: int, sWidth: nat, sHeight: nat,
                                    regionX: nat, regionY: nat)
    requires Fits(after, dWidth, dHeight) && Fits(before, dWidth, dHeight) && Fits(source, sWidth, sHeight)
    requires regionX > 0 && regionY > 0 ==> 0 <= sx <= sWidth - regionX && 0 <= sy <= sHeight - regionY
  {
    forall x, y :: Inside(dWidth, dHeight, x, y) ==>
      At(after, dWidth, dHeight, x, y) ==
        if Inside(regionX, regionY, x - dx, y - dy)
        then At(source, sWidth, sHeight, x - dx + sx, y - dy + sy)
        else At(before, dWidth, dHeight, x, y)
  }

  /** Copies the region-sized window of source at (sx, sy) to dest at (dx, dy), row by row. */
  method CopyMapRegion<T(!new)>(source: array<T>, sx: int, sy: int, sWidth: nat, ghost sHeight: nat,
                          dest: array<T>, dx: int, dy: int, dWidth: nat, ghost dHeight: nat,
                          regionX: nat, regionY: nat)
    requires source != dest && source.Length == Area(sWidth, sHeight) && dest.Length == Area(dWidth, dHeight)
    requires regionX > 0 && regionY > 0 ==> 0 <= sx <= sWidth - regionX && 0 <= sy <= sHeight - regionY
    requires regionX > 0 && regionY > 0 ==> 0 <= dx <= dWidth - regionX && 0 <= dy <= dHeight - regionY
    modifies dest
    ensures Overlaid(dest[..], old(dest[..]), dx, dy, dWidth, dHeight,
                     old(source[..]), sx, sy, sWidth, sHeight, regionX, regionY)
  {
    var sIndex := Index(sWidth, sx, sy);
    var dIndex := Index(dWidth, dx, dy);
    ghost var before := dest[..];
    var i := 0;
    while i < regionY
      invariant 0 <= i <= regionY
      invariant sIndex == Index(sWidth, sx, sy + i) && dIndex == Index(dWidth, dx, dy + i)
      invariant forall x, y :: Inside(dWidth, dHeight, x, y) ==>
        At(dest[..], dWidth, dHeight, x, y) ==
          if Inside(regionX, i, x - dx, y - dy)
          then At(source[..], sWidth, sHeight, x - dx + sx, y - dy + sy)
          else At(before, dWidth, dHeight, x, y)
    {
      CopyRow(source, sx, sy + i, sWidth, sHeight, sIndex, dest, dx, dy + i, dWidth, dHeight, dIndex, regionX);
      IndexNeighbours(sWidth, sx, sy + i);
      IndexNeighbours(dWidth, dx, dy + i);
      sIndex := sIndex + sWidth;
      dIndex := dIndex + dWidth;
      i := i + 1;
    }
  }

  /** One memcpy: count elements from address sIndex to address dIndex. */
  method CopyRow<T(!new)>(source: array<T>, ghost sx: int, ghost sy: int, ghost sWidth: nat, ghost sHeight: nat,
                          sIndex: int,
                    dest: array<T>, ghost dx: int, ghost dy: int, ghost dWidth: nat, ghost dHeight: nat, dIndex: int,
                    count: nat)
    requires source != dest && source.Length == Area(sWidth, sHeight) && dest.Length == Area(dWidth, dHeight)
    requires count > 0 ==> 0 <= sx <= sWidth - count && 0 <= sy < sHeight
    requires count > 0 ==> 0 <= dx <= dWidth - count && 0 <= dy < dHeight
    requires sIndex == Index(sWidth, sx, sy) && dIndex == Index(dWidth, dx, dy)
    modifies dest
    ensures forall x, y :: Inside(dWidth, dHeight, x, y) ==>
      At(dest[..], dWidth, dHeight, x, y) ==
        if y == dy && 0 <= x - dx < count
        then At(source[..], sWidth, sHeight, x - dx + sx, sy)
        else At(old(dest[..]), dWidth, dHeight, x, y)
  {
    var j := 0;
    while j < count
      invariant 0 <= j <= count
      invariant forall x, y :: Inside(dWidth, dHeight, x, y) ==>
        At(dest[..], dWidth, dHeight, x, y) ==
          if y == dy && 0 <= x - dx < j
          then At(source[..], sWidth, sHeight, x - dx + sx, sy)
          else At(old(dest[..]), dWidth, dHeight, x, y)
    {
      hide Index, At;
      IndexAlongRow(sWidth, sx, sy, j);
      IndexAlongRow(dWidth, dx, dy, j);
      AtIndex(source[..], sWidth, sHeight, sx + j, sy);
      AtUpdate(dest[..], dWidth, dHeight, dx + j, dy, source[sIndex + j]);
      ghost var before := dest[..];
      dest[dIndex + j] := source[sIndex + j];
      assert dest[..] == before[Index(dWidth, dx + j, dy) := source[sIndex + j]];
      j := j + 1;
    }
  }
}
