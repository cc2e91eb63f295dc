/** The voxel layer's rolling window: a cost grid and a grid of voxel columns, moved together. */
module VoxelLayers {
  import opened RowMajor
  import opened Costmap

  type Column = n: int | 0 <= n < 0x1_0000_0000

  /** ~((uint32_t)0) >> 16: every voxel of the column unknown. */
  const UNKNOWN_COLUMN: Column := 0xFFFF

  /** The low half marks each of the sixteen voxels as seen or unknown, the high half none as occupied. */
  lemma UnknownColumn()
    ensures UNKNOWN_COLUMN % 0x1_0000 == 0xFFFF && UNKNOWN_COLUMN / 0x1_0000 == 0
  {
  }

  /** A cost grid and a grid of voxel columns over the same cells. */
  class VoxelLayer {
    var sizeX: nat
    var sizeY: nat
    var resolution: real
    var originX: real
    var originY: real
    var costmap: array<Cost>
    var voxels: array<Column>
    var defaultValue: Cost

    ghost predicate Valid()
      reads this
    {
      && resolution > 0.0 && costmap.Length == Area(sizeX, sizeY) && voxels.Length == Area(sizeX, sizeY)
      && (costmap as object) != voxels
    }

    method ResetMaps()
      requires Valid()
      modifies costmap, voxels
      ensures forall i :: 0 <= i < costmap.Length ==> costmap[i] == defaultValue
      ensures forall i :: 0 <= i < voxels.Length ==> voxels[i] == UNKNOWN_COLUMN
    {
      Fill(costmap, defaultValue);
      Fill(voxels, UNKNOWN_COLUMN);
    }

    /** Shifts both grids by one and the same offset, so every column stays with its cell. */
    method UpdateOrigin(newOriginX: real, newOriginY: real)
      requires Valid()
      modifies this`originX, this`originY, costmap, voxels
      ensures Valid()
      ensures originX == MovedOrigin(old(originX), resolution, CellOffset(old(originX), resolution, newOriginX))
      ensures originY == MovedOrigin(old(originY), resolution, CellOffset(old(originY), resolution, newOriginY))
      ensures Shifted(costmap[..], old(costmap[..]), sizeX, sizeY,
                      CellOffset(old(originX), resolution, newOriginX),
                      CellOffset(old(originY), resolution, newOriginY), defaultValue)
      ensures Shifted(voxels[..], old(voxels[..]), sizeX, sizeY,
                      CellOffset(old(originX), resolution, newOriginX),
                      CellOffset(old(originY), resolution, newOriginY), UNKNOWN_COLUMN)
    {
      var cellOx := CellOffset(originX, resolution, newOriginX);
      var cellOy := CellOffset(originY, resolution, newOriginY);
      var newGridOx := MovedOrigin(originX, resolution, cellOx);
      var newGridOy := MovedOrigin(originY, resolution, cellOy);
      hide Shifted, CellOffset, MovedOrigin, WindowOf;
      ghost var before, beforeV := costmap[..], voxels[..];
      var localMap := TakeWindow(costmap, sizeX, sizeY, cellOx, cellOy);
      var localVoxels := TakeWindow(voxels, sizeX, sizeY, cellOx, cellOy);
      ghost var window, windowV := localMap[..], localVoxels[..];
      ResetMaps();
      originX, originY := newGridOx, newGridOy;
      assert localMap[..] == window && localVoxels[..] == windowV;
      PutWindow(localMap, costmap, sizeX, sizeY, cellOx, cellOy, defaultValue, before);
      ghost var after := costmap[..];
      assert localVoxels[..] == windowV;
      PutWindow(localVoxels, voxels, sizeX, sizeY, cellOx, cellOy, UNKNOWN_COLUMN, beforeV);
      assert costmap[..] == after;
    }
  }

  /** Whatever relates each cost to its column before a common shift, and the two defaults, relates them after it. */
  lemma ShiftKeepsColumns(costs: seq<Cost>, columns: seq<Column>, costs': seq<Cost>, columns': seq<Column>,
                          width: nat, height: nat, ox: int, oy: int, fill: Cost, related: (Cost, Column) -> bool)
    requires Shifted(costs', costs, width, height, ox, oy, fill)
    requires Shifted(columns', columns, width, height, ox, oy, UNKNOWN_COLUMN)
    requires related(fill, UNKNOWN_COLUMN)
    requires forall x, y :: Inside(width, height, x, y) ==>
      related(At(costs, width, height, x, y), At(columns, width, height, x, y))
    ensures forall x, y :: Inside(width, height, x, y) ==>
      related(At(costs', width, height, x, y), At(columns', width, height, x, y))
  {
    hide At;
    forall x, y | Inside(width, height, x, y)
      ensures related(At(costs', width, height, x, y), At(columns', width, height, x, y))
    {
      if Inside(width, height, x + ox, y + oy) {
        assert related(At(costs, width, height, x + ox, y + oy), At(columns, width, height, x + ox, y + oy));
      }
    }
  }
}
