/** The inflation layer of the costmap: caches, level bins, and the pass over the master grid. */
module InflationLayers {
  import opened GridGeometry
  import opened InflationLevels
  import opened InflationWave
  import opened InflationOrder
  import opened InflationCosts
  import opened RowMajor
  import opened Costmap

  datatype CellData = CellData(index: int, x: int, y: int, srcX: int, srcY: int)

  function EntryOf(d: CellData): Entry {
    Entry(Cell(d.x, d.y), Cell(d.srcX, d.srcY))
  }

  function EntriesOf(s: seq<CellData>): (r: seq<Entry>)
    ensures |r| == |s|
  {
    seq(|s|, i requires 0 <= i < |s| => EntryOf(s[i]))
  }

  /** The address kept with each queued cell is the address of that cell. */
  ghost predicate Addressed(g: Grid, s: seq<CellData>) {
    forall i :: 0 <= i < |s| ==> s[i].index == Index(g.width, s[i].x, s[i].y)
  }

  /** The bins and the seen flags of the layer at entry i of bin k stand for the wave w. */
  ghost predicate Tracks(g: Grid, w: Wave, k: nat, i: nat, cells: seq<seq<CellData>>, seen: seq<bool>) {
    && |cells| == |w.bins| && GridFits(g, seen) && k < |cells| && i <= |cells[k]|
    && EntriesOf(cells[k][i..]) == w.bins[k] && Addressed(g, cells[k][i..])
    && (forall j :: k < j < |cells| ==> EntriesOf(cells[j]) == w.bins[j] && Addressed(g, cells[j]))
    && SeenTracks(g, w, seen)
  }

  ghost predicate SeenTracks(g: Grid, w: Wave, seen: seq<bool>)
    requires GridFits(g, seen)
  {
    forall c :: InMap(g, c) ==> (At(seen, g.width, g.height, c.x, c.y) <==> c in w.source)
  }

  /** The bins after enqueue is called for a cell of the map. */
  ghost function Enqueued(g: Grid, cells: seq<seq<CellData>>, seen: seq<bool>, c: Cell, s: Cell): seq<seq<CellData>>
    requires GridFits(g, seen) && InMap(g, c)
  {
    if At(seen, g.width, g.height, c.x, c.y) || !WithinRadius(g, c, s) || Level(c, s) >= |cells| then cells
    else cells[Level(c, s) := cells[Level(c, s)] + [CellData(Index(g.width, c.x, c.y), c.x, c.y, s.x, s.y)]]
  }

  lemma EntriesAppend(s: seq<CellData>, d: CellData)
    ensures EntriesOf(s + [d]) == EntriesOf(s) + [EntryOf(d)]
  {
  }

  /** Enqueueing into a later bin keeps the correspondence. */
  lemma TracksEnqueue(g: Grid, w: Wave, k: nat, i: nat, cells: seq<seq<CellData>>, seen: seq<bool>, c: Cell, s: Cell)
    requires Tracks(g, w, k, i, cells, seen) && InMap(g, c)
    requires Offered(g, w, c, s) ==> k < Level(c, s)
    ensures Tracks(g, Enqueue(g, w, c, s), k, i, Enqueued(g, cells, seen, c, s), seen)
  {
    hide Level, At, Index, WithinRadius, EntriesOf;
    if Offered(g, w, c, s) {
      var d := CellData(Index(g.width, c.x, c.y), c.x, c.y, s.x, s.y);
      EntriesAppend(cells[Level(c, s)], d);
      assert EntryOf(d) == Entry(c, s);
    }
  }

  lemma EntriesDrop(s: seq<CellData>)
    requires s != []
    ensures EntriesOf(s)[0] == EntryOf(s[0]) && EntriesOf(s[1..]) == EntriesOf(s)[1..]
  {
  }

  /** Stepping past the next entry is popping it. */
  lemma TracksPop(g: Grid, w: Wave, k: nat, i: nat, cells: seq<seq<CellData>>, seen: seq<bool>)
    requires Tracks(g, w, k, i, cells, seen) && i < |cells[k]|
    ensures w.bins[k] != [] && w.bins[k][0] == EntryOf(cells[k][i])
    ensures cells[k][i].index == Index(g.width, cells[k][i].x, cells[k][i].y)
    ensures Tracks(g, Pop(w, k), k, i + 1, cells, seen)
  {
    hide Level, At, Index, WithinRadius, EntriesOf;
    var rest := cells[k][i..];
    assert rest[0] == cells[k][i] && rest[1..] == cells[k][i + 1..];
    EntriesDrop(rest);
  }

  /** Setting the seen flag of the popped cell is marking it. */
  lemma TracksMark(g: Grid, w: Wave, k: nat, i: nat, cells: seq<seq<CellData>>, seen: seq<bool>, e: Entry)
    requires Tracks(g, w, k, i, cells, seen) && InMap(g, e.cell)
    ensures 0 <= Index(g.width, e.cell.x, e.cell.y) < |seen|
    ensures Tracks(g, Mark(w, e), k, i, cells, seen[Index(g.width, e.cell.x, e.cell.y) := true])
  {
    hide Level, At, Index, WithinRadius, EntriesOf;
    AtUpdate(seen, g.width, g.height, e.cell.x, e.cell.y, true);
  }

  /** At the end of a bin the next one takes over. */
  lemma TracksAdvance(g: Grid, w: Wave, k: nat, cells: seq<seq<CellData>>, seen: seq<bool>)
    requires k < |cells| && Tracks(g, w, k, |cells[k]|, cells, seen)
    ensures w.bins[k] == []
    ensures k + 1 < |cells| ==> Tracks(g, w, k + 1, 0, cells, seen)
  {
    hide Level, At, Index, WithinRadius;
    if k + 1 < |cells| {
      assert cells[k + 1][0..] == cells[k + 1];
    }
  }

  // ---------- one step of the pass, on values ----------

  lemma CostOfUpdate(g: Grid, now: seq<Cost>, c: Cell, value: Cost)
    requires GridFits(g, now) && InMap(g, c)
    ensures var i := Index(g.width, c.x, c.y);
      && 0 <= i < |now| && now[i] == CostOf(g, now, c) && GridFits(g, now[i := value])
      && forall c' :: InMap(g, c') ==> CostOf(g, now[i := value], c') == if c' == c then value else CostOf(g, now, c')
  {
    hide Index, Area;
    AtIndex(now, g.width, g.height, c.x, c.y);
    AtUpdate(now, g.width, g.height, c.x, c.y, value);
  }

  /** Costs of the map while the cells of w are handled: writing the popped cell is marking it. */
  lemma MarkCosts(g: Grid, st: Settings, before: seq<Cost>, b: Box, w: Wave, e: Entry, now: seq<Cost>, cost: Cost,
                  next: seq<Cost>)
    requires GridFits(g, before) && CostsAfter(g, st, before, b, w, now) && InMap(g, e.cell) && e.cell !in w.source
    requires cost == ComputeCost(st.model, Distance2(e.cell, e.src))
    requires GridFits(g, next)
    requires forall c :: InMap(g, c) ==>
      CostOf(g, next, c) ==
        (if c == e.cell && InBox(b, c) then Blend(st, CostOf(g, now, c), cost) else CostOf(g, now, c))
    ensures CostsAfter(g, st, before, b, Mark(w, e), next)
  {
    hide ComputeCost, Blend, Distance2, CostOf, GridFits, InMap;
    forall c | InMap(g, c) ensures CostOf(g, next, c) == CostAfter(g, st, before, b, Mark(w, e), c) {
      assert CostOf(g, now, c) == CostAfter(g, st, before, b, w, c);
    }
  }

  /** Costs depend on the recorded sources only. */
  lemma SameSourcesSameCosts(g: Grid, st: Settings, before: seq<Cost>, b: Box, w: Wave, w': Wave, now: seq<Cost>)
    requires GridFits(g, before) && CostsAfter(g, st, before, b, w, now) && w'.source == w.source
    ensures CostsAfter(g, st, before, b, w', now)
  {
    hide ComputeCost, Blend, Distance2, At, Index, CostOf;
    forall c | InMap(g, c) ensures CostOf(g, now, c) == CostAfter(g, st, before, b, w', c) {
      assert CostOf(g, now, c) == CostAfter(g, st, before, b, w, c);
    }
  }

  /** A queued cell lies within the caches of its obstacle, and so do its neighbours. */
  lemma QueuedInCache(g: Grid, obstacles: seq<Cell>, w: Wave, k: nat, e: Entry)
    requires WaveInvariant(g, obstacles, w, k) && k < |w.bins| && e in w.bins[k]
    ensures InMap(g, e.cell) && Abs(e.cell.x - e.src.x) <= g.radius && Abs(e.cell.y - e.src.y) <= g.radius
  {
    hide Square, Level;
    assert EntryOk(g, obstacles, w, k, e);
    SquareReflectsOrder(e.cell.x - e.src.x, g.radius);
    SquareReflectsOrder(e.cell.y - e.src.y, g.radius);
  }

  // ---------- start and progress of the pass ----------

  function SeedData(g: Grid, o: Cell): CellData {
    CellData(Index(g.width, o.x, o.y), o.x, o.y, o.x, o.y)
  }

  function SeedList(g: Grid, obstacles: seq<Cell>): (r: seq<CellData>)
    ensures |r| == |obstacles|
  {
    seq(|obstacles|, j requires 0 <= j < |obstacles| => SeedData(g, obstacles[j]))
  }

  lemma SeedListAppend(g: Grid, obstacles: seq<Cell>, o: Cell)
    ensures SeedList(g, obstacles + [o]) == SeedList(g, obstacles) + [SeedData(g, o)]
  {
    hide Index;
  }

  /** After the scan, with nothing seen, the layer stands for the start of the wave. */
  lemma TracksStart(g: Grid, obstacles: seq<Cell>, cells: seq<seq<CellData>>, seen: seq<bool>)
    requires |cells| == BinCount(g) && cells[0] == SeedList(g, obstacles)
    requires forall j :: 0 < j < |cells| ==> cells[j] == []
    requires GridFits(g, seen) && forall i :: 0 <= i < |seen| ==> !seen[i]
    ensures Tracks(g, Start(g, obstacles), 0, 0, cells, seen)
  {
    hide Index, At, Rank, Area;
    var w := Start(g, obstacles);
    assert cells[0][0..] == cells[0];
    forall j | 0 <= j < |cells| ensures EntriesOf(cells[j]) == w.bins[j] && Addressed(g, cells[j]) {
      assert |EntriesOf(cells[j])| == |w.bins[j]|;
    }
    forall c | InMap(g, c) ensures !At(seen, g.width, g.height, c.x, c.y) {
      InMapInside(g, c);
      AtIndex(seen, g.width, g.height, c.x, c.y);
    }
  }

  lemma InMapInside(g: Grid, c: Cell)
    ensures InMap(g, c) == Inside(g.width, g.height, c.x, c.y)
  {
  }

  lemma StartCosts(g: Grid, st: Settings, obstacles: seq<Cell>, before: seq<Cost>, b: Box)
    requires GridFits(g, before)
    ensures CostsAfter(g, st, before, b, Start(g, obstacles), before)
  {
  }

  /** A turn of the inner loop is a step of the run and leaves the bin one entry shorter. */
  lemma DrainStep(g: Grid, obstacles: seq<Cell>, w: Wave, k: nat)
    requires WaveInvariant(g, obstacles, w, k) && EntriesInMap(g, w) && k < |w.bins| && w.bins[k] != []
    ensures WaveInvariant(g, obstacles, Handle(g, w, k), k) && EntriesInMap(g, Handle(g, w, k))
    ensures Drain(g, w, k) == Drain(g, Handle(g, w, k), k)
    ensures |Handle(g, w, k).bins[k]| == |w.bins[k]| - 1
  {
    hide WaveInvariant, EntriesInMap, Handle, AllCells, Pop;
    HandleInMap(g, w, k);
    BinOnlyShrinks(g, obstacles, w, k);
    if w.bins[k][0].cell in w.source {
      PopKeeps(g, obstacles, w, k);
      HandleSeen(g, w, k);
    } else {
      HandleKeeps(g, obstacles, w, k);
      HandleShrinks(g, w, k);
    }
  }

  lemma DrainNext(g: Grid, obstacles: seq<Cell>, w: Wave, k: nat)
    requires WaveInvariant(g, obstacles, w, k) && EntriesInMap(g, w) && k < |w.bins| && w.bins[k] == []
    ensures WaveInvariant(g, obstacles, w, k + 1) && Drain(g, w, k) == Drain(g, w, k + 1)
  {
    AdvanceKeeps(g, obstacles, w, k);
  }

  lemma TracksLengths(g: Grid, w: Wave, k: nat, i: nat, cells: seq<seq<CellData>>, seen: seq<bool>)
    requires Tracks(g, w, k, i, cells, seen)
    ensures |cells| == |w.bins| && k < |cells| && i <= |cells[k]| && |cells[k]| - i == |w.bins[k]|
  {
    hide At, Index;
  }

  // ---------- caches ----------

  ghost predicate CostCacheOk(cache: seq<Cost>, length: nat, m: CostModel) {
    Fits(cache, length, length) &&
    forall dx, dy :: Inside(length, length, dy, dx) ==>
      At(cache, length, length, dy, dx) == ComputeCost(m, Norm(dx, dy))
  }

  /** The distance cache, kept as squared distances. */
  ghost predicate DistanceCacheOk(cache: seq<nat>, length: nat) {
    Fits(cache, length, length) &&
    forall dx, dy :: Inside(length, length, dy, dx) ==> At(cache, length, length, dy, dx) == Norm(dx, dy)
  }

  lemma NormOfAbs(dx: int, dy: int)
    ensures Norm(Abs(dx), Abs(dy)) == Norm(dx, dy)
  {
  }

  method FillDistances(length: nat) returns (cache: seq<nat>)
    ensures DistanceCacheOk(cache, length)
  {
    hide Norm, At, Index, Area;
    cache := seq(Area(length, length), _ => 0);
    var i := 0;
    while i < length
      invariant 0 <= i <= length && Fits(cache, length, length)
      invariant forall dx, dy :: Inside(length, length, dy, dx) && dx < i ==>
        At(cache, length, length, dy, dx) == Norm(dx, dy)
    {
      var j := 0;
      while j < length
        invariant 0 <= j <= length && Fits(cache, length, length)
        invariant forall dx, dy :: Inside(length, length, dy, dx) && (dx < i || (dx == i && dy < j)) ==>
          At(cache, length, length, dy, dx) == Norm(dx, dy)
      {
        AtUpdate(cache, length, length, j, i, Norm(i, j));
        cache := cache[Index(length, j, i) := Norm(i, j)];
        j := j + 1;
      }
      i := i + 1;
    }
  }

  method FillCosts(length: nat, distances: seq<nat>, m: CostModel) returns (cache: seq<Cost>)
    requires DistanceCacheOk(distances, length)
    ensures CostCacheOk(cache, length, m)
  {
    hide Norm, At, Index, Area, ComputeCost;
    cache := seq(Area(length, length), _ => 0);
    var i := 0;
    while i < length
      invariant 0 <= i <= length && Fits(cache, length, length)
      invariant forall dx, dy :: Inside(length, length, dy, dx) && dx < i ==>
        At(cache, length, length, dy, dx) == ComputeCost(m, Norm(dx, dy))
    {
      var j := 0;
      while j < length
        invariant 0 <= j <= length && Fits(cache, length, length)
        invariant forall dx, dy :: Inside(length, length, dy, dx) && (dx < i || (dx == i && dy < j)) ==>
          At(cache, length, length, dy, dx) == ComputeCost(m, Norm(dx, dy))
      {
        AtIndex(distances, length, length, j, i);
        AtUpdate(cache, length, length, j, i, ComputeCost(m, distances[Index(length, j, i)]));
        cache := cache[Index(length, j, i) := ComputeCost(m, distances[Index(length, j, i)])];
        j := j + 1;
      }
      i := i + 1;
    }
  }

  // ---------- the layer ----------

  class InflationLayer {
    var enabled: bool
    var settings: Settings
    var cellInflationRadius: nat
    var cachedCellInflationRadius: nat
    var cacheLength: nat
    var cachedDistances: seq<nat>
    var cachedCosts: seq<Cost>
    var distanceMatrix: array2<int>
    var inflationCells: seq<seq<CellData>>
    var seen: seq<bool>

    /** The caches belong to the current radius and cost curve; the bins are as many as the levels. */
    ghost predicate CachesOk()
      reads this, distanceMatrix
    {
      && cacheLength == cellInflationRadius + 2
      && DistanceCacheOk(cachedDistances, cacheLength) && CostCacheOk(cachedCosts, cacheLength, settings.model)
      && IsLevelTable(distanceMatrix, cacheLength) && |inflationCells| == Rank(Square(cacheLength)) + 1
    }

    /** Between passes: caches in place unless inflation is off, and every bin empty. */
    ghost predicate Valid()
      reads this, distanceMatrix
    {
      && CostModelOk(settings.model)
      && (cellInflationRadius > 0 ==> CachesOk() && forall j :: 0 <= j < |inflationCells| ==> inflationCells[j] == [])
      && (cachedCellInflationRadius > 0 ==> DistanceCacheOk(cachedDistances, cachedCellInflationRadius + 2))
    }

    constructor (settings: Settings, cellInflationRadius: nat)
      requires CostModelOk(settings.model)
      ensures Valid() && fresh(distanceMatrix) && enabled
      ensures this.settings == settings && this.cellInflationRadius == cellInflationRadius
    {
      enabled := true;
      this.settings := settings;
      this.cellInflationRadius := cellInflationRadius;
      cachedCellInflationRadius := 0;
      cacheLength := 0;
      cachedDistances, cachedCosts, inflationCells, seen := [], [], [], [];
      distanceMatrix := new int[0, 0];
      new;
      ComputeCaches();
    }

    /** Rebuilds the caches for the current radius; distances only when the radius changed. */
    method ComputeCaches()
      requires CostModelOk(settings.model)
      requires cachedCellInflationRadius > 0 ==> DistanceCacheOk(cachedDistances, cachedCellInflationRadius + 2)
      modifies this`cacheLength, this`cachedDistances, this`cachedCosts, this`cachedCellInflationRadius,
               this`distanceMatrix, this`inflationCells
      ensures Valid()
      ensures distanceMatrix == old(distanceMatrix) || fresh(distanceMatrix)
    {
      hide DistanceCacheOk, CostCacheOk, IsLevelTable, Square, CostModelOk;
      if cellInflationRadius == 0 {
        return;
      }
      cacheLength := cellInflationRadius + 2;
      if cellInflationRadius != cachedCellInflationRadius {
        cachedDistances := FillDistances(cacheLength);
        cachedCellInflationRadius := cellInflationRadius;
      }
      cachedCosts := FillCosts(cacheLength, cachedDistances, settings.model);
      var maxDist;
      maxDist, distanceMatrix := GenerateIntegerDistances(cellInflationRadius);
      inflationCells := seq(maxDist + 1, _ => []);
    }

    method DistanceLookup(mx: int, my: int, srcX: int, srcY: int) returns (distance2: nat)
      requires CachesOk() && Abs(mx - srcX) < cacheLength && Abs(my - srcY) < cacheLength
      ensures distance2 == Distance2(Cell(mx, my), Cell(srcX, srcY))
    {
      hide Norm, At, Index, IsLevelTable, CostCacheOk, Rank;
      var dx := if mx > srcX then mx - srcX else srcX - mx;
      var dy := if my > srcY then my - srcY else srcY - my;
      AtIndex(cachedDistances, cacheLength, cacheLength, dy, dx);
      NormOfAbs(mx - srcX, my - srcY);
      assert dx == Abs(mx - srcX) && dy == Abs(my - srcY);
      distance2 := cachedDistances[Index(cacheLength, dy, dx)];
    }

    method CostLookup(mx: int, my: int, srcX: int, srcY: int) returns (cost: Cost)
      requires CachesOk() && Abs(mx - srcX) < cacheLength && Abs(my - srcY) < cacheLength
      ensures cost == ComputeCost(settings.model, Distance2(Cell(mx, my), Cell(srcX, srcY)))
    {
      hide Norm, At, Index, IsLevelTable, DistanceCacheOk, Rank, ComputeCost;
      var dx := if mx > srcX then mx - srcX else srcX - mx;
      var dy := if my > srcY then my - srcY else srcY - my;
      AtIndex(cachedCosts, cacheLength, cacheLength, dy, dx);
      NormOfAbs(mx - srcX, my - srcY);
      assert dx == Abs(mx - srcX) && dy == Abs(my - srcY);
      cost := cachedCosts[Index(cacheLength, dy, dx)];
    }

    /** Queues an unseen cell of the map within the radius of the obstacle, in the bin of its distance. */
    method Enqueue(ghost g: Grid, index: int, mx: int, my: int, srcX: int, srcY: int)
      requires CachesOk() && g.radius == cellInflationRadius && GridFits(g, seen)
      requires InMap(g, Cell(mx, my)) && index == Index(g.width, mx, my)
      requires Abs(mx - srcX) < cacheLength && Abs(my - srcY) < cacheLength
      modifies this`inflationCells
      ensures CachesOk()
      ensures inflationCells == Enqueued(g, old(inflationCells), seen, Cell(mx, my), Cell(srcX, srcY))
    {
      hide Norm, At, Index, DistanceCacheOk, CostCacheOk, Rank, Square, Area;
      AtIndex(seen, g.width, g.height, mx, my);
      if !seen[index] {
        var distance2 := DistanceLookup(mx, my, srcX, srcY);
        if distance2 > Square(cellInflationRadius) {
          return;
        }
        var r := cellInflationRadius + 2;
        LevelInRange(g, Cell(mx, my), Cell(srcX, srcY));
        SquareMonotone(cellInflationRadius, r);
        var level := distanceMatrix[mx - srcX + r, my - srcY + r];
        assert level == Level(Cell(mx, my), Cell(srcX, srcY));
        inflationCells := inflationCells[level := inflationCells[level] + [CellData(index, mx, my, srcX, srcY)]];
      }
    }

    /** Enqueue under the guard that (mx, my) is on the map, as the pass calls it for each neighbour. */
    method Offer(ghost g: Grid, ghost obstacles: seq<Cell>, ghost w: Wave, ghost v: Wave, ghost k: nat, ghost i: nat,
                 index: int, mx: int, my: int, srcX: int, srcY: int, onMap: bool)
      requires CachesOk() && g.radius == cellInflationRadius && onMap == InMap(g, Cell(mx, my))
      requires index == Index(g.width, mx, my)
      requires WaveInvariant(g, obstacles, w, k) && k < |w.bins| && w.bins[k] != []
      requires v.source == Marked(w, k).source && |v.bins| == |w.bins|
      requires Adjacent(Cell(mx, my), w.bins[k][0].cell) && Cell(srcX, srcY) == w.bins[k][0].src
      requires Abs(mx - srcX) < cacheLength && Abs(my - srcY) < cacheLength
      requires Tracks(g, v, k, i, inflationCells, seen)
      modifies this`inflationCells
      ensures CachesOk() && Tracks(g, InflationWave.Enqueue(g, v, Cell(mx, my), Cell(srcX, srcY)), k, i,
                                   inflationCells, seen)
    {
      hide *;
      TracksFits(g, v, k, i, inflationCells, seen);
      if onMap {
        ghost var cells := inflationCells;
        Enqueue(g, index, mx, my, srcX, srcY);
        OfferKeepsBin(g, obstacles, w, k, v, Cell(mx, my));
        TracksEnqueue(g, v, k, i, cells, seen, Cell(mx, my), Cell(srcX, srcY));
      } else {
        EnqueueOffMap(g, v, Cell(mx, my), Cell(srcX, srcY));
      }
    }

    /** Marks the popped cell as seen and writes its cost if it lies in the update box. */
    method MarkAndCost(master: Costmap2D, base: Box, d: CellData, ghost g: Grid, ghost obstacles: seq<Cell>,
                       ghost before: seq<Cost>, ghost w: Wave, ghost k: nat, ghost i: nat)
      requires CachesOk() && master.Valid() && g == Grid(master.sizeX, master.sizeY, cellInflationRadius)
      requires WaveInvariant(g, obstacles, w, k) && Tracks(g, w, k, i, inflationCells, seen)
      requires i < |inflationCells[k]| && d == inflationCells[k][i] && EntryOf(d).cell !in w.source
      requires GridFits(g, before) && CostsAfter(g, settings, before, base, w, master.costmap[..])
      modifies this`seen, master.costmap
      ensures w.bins[k] != [] && w.bins[k][0] == EntryOf(d)
      ensures CachesOk() && Tracks(g, Marked(w, k), k, i + 1, inflationCells, seen)
      ensures CostsAfter(g, settings, before, base, Marked(w, k), master.costmap[..])
    {
      hide DistanceCacheOk, CostCacheOk, IsLevelTable, Rank, Square, Index, At, Area, WaveInvariant, Tracks,
           ComputeCost, Distance2, CostsAfter, GridFits, InMap, Abs, CostOf, Pop;
      ghost var e := EntryOf(d);
      TracksFits(g, w, k, i, inflationCells, seen);
      TracksPop(g, w, k, i, inflationCells, seen);
      FirstInBin(w, k);
      QueuedInCache(g, obstacles, w, k, e);
      TracksMark(g, Pop(w, k), k, i + 1, inflationCells, seen, e);
      PopKeepsRest(w, k);
      CostsFit(g, settings, before, base, w, master.costmap[..]);
      ghost var now := master.costmap[..];
      var index := d.index;
      seen := seen[index := true];
      var cost := CostLookup(d.x, d.y, d.srcX, d.srcY);
      CostOfUpdate(g, now, e.cell, 0);
      var oldCost := master.costmap[index];
      if base.minI <= d.x && base.minJ <= d.y && d.x < base.maxI && d.y < base.maxJ {
        if oldCost == NO_INFORMATION &&
           (if settings.inflateUnknown then cost > FREE_SPACE else cost >= INSCRIBED_INFLATED_OBSTACLE) {
          master.costmap[index] := cost;
        } else {
          master.costmap[index] := Max(oldCost, cost);
        }
        CostOfUpdate(g, now, e.cell, Blend(settings, oldCost, cost));
        assert master.costmap[..] == now[index := Blend(settings, oldCost, cost)];
      } else {
        assert master.costmap[..] == now;
      }
      SameSourcesSameCosts(g, settings, before, base, w, Pop(w, k), now);
      MarkCosts(g, settings, before, base, Pop(w, k), e, now, cost, master.costmap[..]);
    }

    /** One turn of the inner loop: handles entry i of bin k as the wave handles the head of that bin. */
    method ProcessEntry(master: Costmap2D, base: Box, k: nat, i: nat, ghost g: Grid, ghost obstacles: seq<Cell>,
                        ghost before: seq<Cost>, ghost w: Wave)
      requires CachesOk() && master.Valid() && g == Grid(master.sizeX, master.sizeY, cellInflationRadius)
      requires WaveInvariant(g, obstacles, w, k) && Tracks(g, w, k, i, inflationCells, seen) && i < |inflationCells[k]|
      requires GridFits(g, before) && CostsAfter(g, settings, before, base, w, master.costmap[..])
      modifies this`inflationCells, this`seen, master.costmap
      ensures k < |w.bins| && w.bins[k] != []
      ensures CachesOk() && Tracks(g, Handle(g, w, k), k, i + 1, inflationCells, seen)
      ensures CostsAfter(g, settings, before, base, Handle(g, w, k), master.costmap[..])
    {
      hide DistanceCacheOk, CostCacheOk, IsLevelTable, Rank, Square, Index, At, Area, WaveInvariant, Tracks,
           ComputeCost, Distance2, CostsAfter, GridFits, InMap, Abs, CostOf, Pop, Handle, Marked,
           InflationWave.Enqueue, Adjacent, SeenTracks;
      TracksFits(g, w, k, i, inflationCells, seen);
      TracksPop(g, w, k, i, inflationCells, seen);
      var d := inflationCells[k][i];
      ghost var c, s := Cell(d.x, d.y), Cell(d.srcX, d.srcY);
      FirstInBin(w, k);
      QueuedInCache(g, obstacles, w, k, EntryOf(d));
      SeenAt(g, w, k, i, inflationCells, seen, c);
      if seen[d.index] {
        HandleSeen(g, w, k);
        SameSourcesSameCosts(g, settings, before, base, w, Pop(w, k), master.costmap[..]);
        return;
      }
      MarkAndCost(master, base, d, g, obstacles, before, w, k, i);
      ghost var v := Marked(w, k);
      HandleUnseen(g, w, k);
      NeighbourGuards(g, c, s);
      IndexNeighbours(g.width, d.x, d.y);
      ghost var left := InflationWave.Enqueue(g, v, Cell(d.x - 1, d.y), s);
      ghost var down := InflationWave.Enqueue(g, left, Cell(d.x, d.y - 1), s);
      ghost var right := InflationWave.Enqueue(g, down, Cell(d.x + 1, d.y), s);
      Offer(g, obstacles, w, v, k, i + 1, d.index - 1, d.x - 1, d.y, d.srcX, d.srcY, d.x > 0);
      Offer(g, obstacles, w, left, k, i + 1, d.index - master.sizeX, d.x, d.y - 1, d.srcX, d.srcY, d.y > 0);
      Offer(g, obstacles, w, down, k, i + 1, d.index + 1, d.x + 1, d.y, d.srcX, d.srcY, d.x < master.sizeX - 1);
      Offer(g, obstacles, w, right, k, i + 1, d.index + master.sizeX, d.x, d.y + 1, d.srcX, d.srcY,
            d.y < master.sizeY - 1);
      SameSourcesSameCosts(g, settings, before, base, v, Handle(g, w, k), master.costmap[..]);
    }

    /** Queues every source cell of the scan box at level 0, row by row. */
    method ScanObstacles(master: Costmap2D, scan: Box, ghost g: Grid)
      requires CachesOk() && master.Valid() && g == Grid(master.sizeX, master.sizeY, cellInflationRadius)
      requires 0 <= scan.minI && 0 <= scan.minJ && scan.maxI <= g.width && scan.maxJ <= g.height
      requires forall j :: 0 <= j < |inflationCells| ==> inflationCells[j] == []
      modifies this`inflationCells
      ensures CachesOk()
      ensures inflationCells == old(inflationCells)[0 :=
        SeedList(g, ScanFrom(g, settings, master.costmap[..], scan, scan.minI, scan.minJ))]
    {
      hide DistanceCacheOk, CostCacheOk, IsLevelTable, Rank, Square, Index, At, Area, IsSource, ScanFrom, SeedList,
        CostOf;
      ghost var costs := master.costmap[..];
      ghost var bins := inflationCells;
      ghost var found: seq<Cell> := [];
      ghost var all := ScanFrom(g, settings, costs, scan, scan.minI, scan.minJ);
      SeedListEmpty(g);
      assert bins[0 := []] == bins;
      var j := scan.minJ;
      while j < scan.maxJ
        invariant scan.minJ <= j && |inflationCells| == |bins| && CachesOk()
        invariant found + ScanFrom(g, settings, costs, scan, scan.minI, j) == all
        invariant inflationCells == bins[0 := SeedList(g, found)]
      {
        var i := scan.minI;
        while i < scan.maxI
          invariant scan.minI <= i && |inflationCells| == |bins| && CachesOk()
          invariant found + ScanFrom(g, settings, costs, scan, i, j) == all
          invariant inflationCells == bins[0 := SeedList(g, found)]
        {
          ScanCell(g, settings, costs, scan, i, j, found);
          var index := Index(master.sizeX, i, j);
          var cost := master.costmap[index];
          if cost == LETHAL_OBSTACLE || (settings.inflateAroundUnknown && cost == NO_INFORMATION) {
            SeedListAppend(g, found, Cell(i, j));
            inflationCells := inflationCells[0 := inflationCells[0] + [CellData(index, i, j, i, j)]];
            found := found + [Cell(i, j)];
          }
          i := i + 1;
        }
        ScanRowEnd(g, settings, costs, scan, i, j);
        j := j + 1;
      }
      ScanEnd(g, settings, costs, scan, j, found);
    }

    /** Drains the bins in level order; the seeded bins become the finished wave, written to the master grid. */
    method DrainBins(master: Costmap2D, base: Box, ghost g: Grid, ghost obstacles: seq<Cell>, ghost before: seq<Cost>)
      requires CachesOk() && master.Valid() && g == Grid(master.sizeX, master.sizeY, cellInflationRadius)
      requires ObstaclesInMap(g, obstacles) && GridFits(g, before) && before == master.costmap[..]
      requires Tracks(g, Start(g, obstacles), 0, 0, inflationCells, seen)
      modifies this`inflationCells, this`seen, master.costmap
      ensures CachesOk() && CostsAfter(g, settings, before, base, Inflate(g, obstacles), master.costmap[..])
    {
      hide *;
      ghost var w := Start(g, obstacles);
      StartInvariant(g, obstacles);
      InvariantInMap(g, obstacles, w, 0);
      StartCosts(g, settings, obstacles, before, base);
      TracksLengths(g, w, 0, 0, inflationCells, seen);
      InflateIs(g, obstacles);
      ghost var n := |w.bins|;
      var k := 0;
      while k < |inflationCells|
        invariant 0 <= k <= |inflationCells| && CachesOk() && |w.bins| == |inflationCells| == n
        invariant WaveInvariant(g, obstacles, w, k) && EntriesInMap(g, w)
        invariant k < |inflationCells| ==> Tracks(g, w, k, 0, inflationCells, seen)
        invariant Drain(g, w, k) == Inflate(g, obstacles)
        invariant CostsAfter(g, settings, before, base, w, master.costmap[..])
        decreases n - k
      {
        var i := 0;
        TracksLengths(g, w, k, i, inflationCells, seen);
        while i < |inflationCells[k]|
          invariant k < |inflationCells| && CachesOk() && |w.bins| == |inflationCells| == n
          invariant 0 <= i && |inflationCells[k]| - i == |w.bins[k]|
          invariant WaveInvariant(g, obstacles, w, k) && EntriesInMap(g, w)
          invariant Tracks(g, w, k, i, inflationCells, seen)
          invariant Drain(g, w, k) == Inflate(g, obstacles)
          invariant CostsAfter(g, settings, before, base, w, master.costmap[..])
          decreases |w.bins[k]|
        {
          ProcessEntry(master, base, k, i, g, obstacles, before, w);
          DrainStep(g, obstacles, w, k);
          w := Handle(g, w, k);
          i := i + 1;
          TracksLengths(g, w, k, i, inflationCells, seen);
        }
        TracksAdvance(g, w, k, inflationCells, seen);
        DrainNext(g, obstacles, w, k);
        k := k + 1;
      }
      DrainEnd(g, w);
    }

    /** Scans, drains and clears: the pass proper. */
    method InflateMaster(master: Costmap2D, base: Box, scan: Box, ghost g: Grid)
      requires CachesOk() && master.Valid() && g == Grid(master.sizeX, master.sizeY, cellInflationRadius)
      requires forall j :: 0 <= j < |inflationCells| ==> inflationCells[j] == []
      requires scan == ScanBox(g, base)
      requires GridFits(g, seen) && forall i :: 0 <= i < |seen| ==> !seen[i]
      modifies this`inflationCells, this`seen, master.costmap
      ensures CachesOk() && forall j :: 0 <= j < |inflationCells| ==> inflationCells[j] == []
      ensures Inflated(g, settings, old(master.costmap[..]), base, master.costmap[..])
    {
      hide ScanBox, Scan, ScanFrom, Inflated, Tracks, DistanceCacheOk, CostCacheOk, IsLevelTable, Rank, Square, Index,
        At, Area, Start;
      ghost var before := master.costmap[..];
      ghost var obstacles := Scan(g, settings, before, base);
      ScanIs(g, settings, before, base, scan);
      ScanInMap(g, settings, before, base);
      ScanObstacles(master, scan, g);
      TracksStart(g, obstacles, inflationCells, seen);
      DrainBins(master, base, g, obstacles, before);
      inflationCells := seq(|inflationCells|, _ => []);
      InflatedIs(g, settings, before, base, Inflate(g, obstacles), master.costmap[..]);
    }

    /** One inflation pass over the box of the master grid. */
    method UpdateCosts(master: Costmap2D, minI: int, minJ: int, maxI: int, maxJ: int)
      requires Valid() && master.Valid()
      modifies this`inflationCells, this`seen, master.costmap
      ensures Valid()
      ensures var g := Grid(master.sizeX, master.sizeY, cellInflationRadius);
        if enabled && cellInflationRadius > 0
        then Inflated(g, settings, old(master.costmap[..]), Box(minI, minJ, maxI, maxJ), master.costmap[..])
        else master.costmap[..] == old(master.costmap[..])
    {
      hide Inflated, DistanceCacheOk, CostCacheOk, IsLevelTable, Rank, Square, Area, At, Index, CostModelOk;
      if !enabled || cellInflationRadius == 0 {
        return;
      }
      ghost var g := Grid(master.sizeX, master.sizeY, cellInflationRadius);
      if |seen| != Area(master.sizeX, master.sizeY) {
        seen := seq(Area(master.sizeX, master.sizeY), _ => false);
      }
      seen := seq(|seen|, _ => false);
      var base := Box(minI, minJ, maxI, maxJ);
      var scan := Box(Max(0, minI - cellInflationRadius), Max(0, minJ - cellInflationRadius),
                      Min(master.sizeX, maxI + cellInflationRadius), Min(master.sizeY, maxJ + cellInflationRadius));
      InflateMaster(master, base, scan, g);
    }
  }

  lemma SeedListEmpty(g: Grid)
    ensures SeedList(g, []) == []
  {
  }

  /** Scanning one cell moves it from the rest of the scan to the found obstacles if it is a source. */
  lemma ScanCell(g: Grid, st: Settings, costs: seq<Cost>, b: Box, i: int, j: int, found: seq<Cell>)
    requires GridFits(g, costs) && b.minI <= i < b.maxI && 0 <= b.minI && 0 <= b.minJ <= j < b.maxJ
    requires b.maxI <= g.width && b.maxJ <= g.height
    ensures 0 <= Index(g.width, i, j) < |costs|
    ensures var cost := costs[Index(g.width, i, j)];
      found + ScanFrom(g, st, costs, b, i, j) ==
        (if cost == LETHAL_OBSTACLE || (st.inflateAroundUnknown && cost == NO_INFORMATION)
         then found + [Cell(i, j)] else found)
        + ScanFrom(g, st, costs, b, i + 1, j)
  {
    hide Index, At;
    AtIndex(costs, g.width, g.height, i, j);
    assert costs[Index(g.width, i, j)] == CostOf(g, costs, Cell(i, j));
  }

  lemma ScanRowEnd(g: Grid, st: Settings, costs: seq<Cost>, b: Box, i: int, j: int)
    requires GridFits(g, costs) && b.minI <= i && b.maxI <= i && 0 <= b.minI && 0 <= b.minJ <= j < b.maxJ
    requires b.maxI <= g.width && b.maxJ <= g.height
    ensures ScanFrom(g, st, costs, b, i, j) == ScanFrom(g, st, costs, b, b.minI, j + 1)
  {
  }

  lemma ScanEnd(g: Grid, st: Settings, costs: seq<Cost>, b: Box, j: int, found: seq<Cell>)
    requires GridFits(g, costs) && 0 <= b.minI && 0 <= b.minJ <= j && b.maxJ <= j
    requires b.maxI <= g.width && b.maxJ <= g.height
    ensures found + ScanFrom(g, st, costs, b, b.minI, j) == found
  {
  }

  lemma ScanIs(g: Grid, st: Settings, costs: seq<Cost>, b: Box, scan: Box)
    requires GridFits(g, costs)
    requires scan == ScanBox(g, b)
    ensures 0 <= scan.minI && 0 <= scan.minJ && scan.maxI <= g.width && scan.maxJ <= g.height
    ensures Scan(g, st, costs, b) == ScanFrom(g, st, costs, scan, scan.minI, scan.minJ)
  {
  }

  lemma DrainEnd(g: Grid, w: Wave)
    requires EntriesInMap(g, w)
    ensures Drain(g, w, |w.bins|) == w
  {
  }

  lemma InflateIs(g: Grid, obstacles: seq<Cell>)
    requires ObstaclesInMap(g, obstacles)
    ensures Inflate(g, obstacles) == Drain(g, Start(g, obstacles), 0)
  {
  }

  lemma InflatedIs(g: Grid, st: Settings, before: seq<Cost>, b: Box, w: Wave, now: seq<Cost>)
    requires GridFits(g, before) && CostsAfter(g, st, before, b, w, now)
    requires ObstaclesInMap(g, Scan(g, st, before, b)) && w == Inflate(g, Scan(g, st, before, b))
    ensures Inflated(g, st, before, b, now)
  {
  }


  lemma SeenAt(g: Grid, w: Wave, k: nat, i: nat, cells: seq<seq<CellData>>, seen: seq<bool>, c: Cell)
    requires Tracks(g, w, k, i, cells, seen) && InMap(g, c)
    ensures 0 <= Index(g.width, c.x, c.y) < |seen|
    ensures seen[Index(g.width, c.x, c.y)] <==> c in w.source
  {
    hide Index, At, Level;
    AtIndex(seen, g.width, g.height, c.x, c.y);
  }

  lemma HandleUnseen(g: Grid, w: Wave, k: nat)
    requires k < |w.bins| && w.bins[k] != [] && w.bins[k][0].cell !in w.source
    ensures Handle(g, w, k) == EnqueueNeighbours(g, Marked(w, k), w.bins[k][0].cell, w.bins[k][0].src)
    ensures Handle(g, w, k).source == Marked(w, k).source && |Marked(w, k).bins| == |w.bins|
  {
  }

  /** The guards of the four neighbour calls are exactly "on the map", and the caches reach one cell further. */
  lemma NeighbourGuards(g: Grid, c: Cell, s: Cell)
    requires InMap(g, c) && Abs(c.x - s.x) <= g.radius && Abs(c.y - s.y) <= g.radius
    ensures InMap(g, Cell(c.x - 1, c.y)) == (c.x > 0) && Adjacent(Cell(c.x - 1, c.y), c) &&
      Abs(c.x - 1 - s.x) < g.radius + 2
    ensures InMap(g, Cell(c.x, c.y - 1)) == (c.y > 0) && Adjacent(Cell(c.x, c.y - 1), c) &&
      Abs(c.y - 1 - s.y) < g.radius + 2
    ensures InMap(g, Cell(c.x + 1, c.y)) == (c.x < g.width - 1) && Adjacent(Cell(c.x + 1, c.y), c) &&
      Abs(c.x + 1 - s.x) < g.radius + 2
    ensures InMap(g, Cell(c.x, c.y + 1)) == (c.y < g.height - 1) && Adjacent(Cell(c.x, c.y + 1), c) &&
      Abs(c.y + 1 - s.y) < g.radius + 2
  {
  }


  lemma FirstInBin(w: Wave, k: nat)
    requires k < |w.bins| && w.bins[k] != []
    ensures w.bins[k][0] in w.bins[k]
  {
  }

  lemma CostsFit(g: Grid, st: Settings, before: seq<Cost>, b: Box, w: Wave, now: seq<Cost>)
    requires GridFits(g, before) && CostsAfter(g, st, before, b, w, now)
    ensures GridFits(g, now)
  {
  }


  lemma TracksFits(g: Grid, w: Wave, k: nat, i: nat, cells: seq<seq<CellData>>, seen: seq<bool>)
    requires Tracks(g, w, k, i, cells, seen)
    ensures GridFits(g, seen) && |cells| == |w.bins| && k < |cells| && i <= |cells[k]|
  {
  }

  lemma EnqueueOffMap(g: Grid, w: Wave, c: Cell, s: Cell)
    requires !InMap(g, c)
    ensures InflationWave.Enqueue(g, w, c, s) == w
  {
  }
}
