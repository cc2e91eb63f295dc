/** What inflation writes: the costs as a function of the finished wave, and what a pass means for the map. */
module InflationCosts {
  import opened GridGeometry
  import opened InflationWave
  import opened InflationOrder
  import opened InflationCoverage
  import opened RealProducts
  import opened RowMajor
  import opened Costmap

  /**
   The cost curve. Beyond the inscribed radius the source takes an exponential of the distance; here any
   function of the squared distance that CostModelOk admits.
   */
  datatype CostModel = CostModel(resolution: real, inscribedRadius: real, falloff: nat -> Cost)

  function ComputeCost(m: CostModel, distance2: nat): Cost {
    if distance2 == 0 then LETHAL_OBSTACLE
    else if Times(Times(distance2 as real, m.resolution), m.resolution) <= Times(m.inscribedRadius, m.inscribedRadius)
      then INSCRIBED_INFLATED_OBSTACLE
    else m.falloff(distance2)
  }

  /** The falloff stays below the inscribed cost and does not grow with distance. */
  ghost predicate CostModelOk(m: CostModel) {
    && m.resolution > 0.0 && m.inscribedRadius >= 0.0
    && (forall d :: m.falloff(d) < INSCRIBED_INFLATED_OBSTACLE)
    && (forall d, e :: d <= e ==> m.falloff(e) <= m.falloff(d))
  }

  lemma CostFalls(m: CostModel, d: nat, e: nat)
    requires CostModelOk(m) && d <= e
    ensures ComputeCost(m, e) <= ComputeCost(m, d)
    ensures ComputeCost(m, d) == LETHAL_OBSTACLE <==> d == 0
    ensures ComputeCost(m, d) <= LETHAL_OBSTACLE
  {
    hide Times;
    TimesMonotone(d as real, e as real, m.resolution);
    TimesMonotone(Times(d as real, m.resolution), Times(e as real, m.resolution), m.resolution);
  }

  // ---------- the exponential falloff ----------

  /** The library's exponential and square root, as far as the cost curve needs them. */
  datatype Curve = Curve(exp: real -> real, root: nat -> real, scaling: real)

  ghost predicate CurveOk(c: Curve) {
    && c.scaling >= 0.0 && c.exp(0.0) == 1.0
    && (forall x, y :: x <= y ==> 0.0 <= c.exp(x) <= c.exp(y))
    && (forall d: nat :: c.root(d) >= 0.0 && Times(c.root(d), c.root(d)) == d as real)
  }

  /** The exponent at a squared distance. */
  function Exponent(c: Curve, resolution: real, inscribedRadius: real, d: nat): real {
    -Times(Times(c.root(d), resolution) - inscribedRadius, c.scaling)
  }

  /** 252 times the exponential, cut to a whole number. */
  function ExponentialCost(c: Curve, resolution: real, inscribedRadius: real, d: nat): int {
    (252.0 * c.exp(Exponent(c, resolution, inscribedRadius, d))).Floor
  }

  lemma RootGrows(c: Curve, d: nat, e: nat)
    requires CurveOk(c) && d <= e
    ensures c.root(d) <= c.root(e)
  {
    hide Times;
    var a, b := c.root(d), c.root(e);
    if b < a {
      TimesMonotone(b, a, a);
      if b > 0.0 { TimesMonotone(b, a, b); }
      TimesSplits(b, b, a - b);
      TimesNonNegative(b, a - b);
    }
  }

  /** The branch on the squared distance is the branch on the distance. */
  lemma InscribedByRoot(c: Curve, m: CostModel, d: nat)
    requires CurveOk(c) && m.resolution > 0.0 && m.inscribedRadius >= 0.0
    ensures Times(Times(d as real, m.resolution), m.resolution) <= Times(m.inscribedRadius, m.inscribedRadius) <==>
            Times(c.root(d), m.resolution) <= m.inscribedRadius
  {
    var x := Times(c.root(d), m.resolution);
    ScaleSquare(c.root(d), m.resolution);
    hide Times;
    TimesNonNegative(c.root(d), m.resolution);
    var r := m.inscribedRadius;
    if x <= r {
      TimesSplits(x, x, r - x);
      TimesNonNegative(x, r - x);
      TimesAdds(x, r - x, r);
      TimesNonNegative(r - x, r);
    } else {
      TimesMonotone(r, x, x);
      TimesSplits(r, r, x - r);
      TimesNonNegative(r, x - r);
    }
  }

  lemma ScaleSquare(a: real, k: real)
    ensures Times(Times(a, k), Times(a, k)) == Times(Times(Times(a, a), k), k)
  {
  }

  /** The exponential is a falloff: below the inscribed cost, not negative, and never growing with distance. */
  lemma ExponentialFalls(c: Curve, resolution: real, inscribedRadius: real, d: nat, e: nat)
    requires CurveOk(c) && resolution > 0.0 && d <= e && Times(c.root(d), resolution) >= inscribedRadius
    ensures 0 <= ExponentialCost(c, resolution, inscribedRadius, e) <=
      ExponentialCost(c, resolution, inscribedRadius, d) <= 252
  {
    hide Times;
    RootGrows(c, d, e);
    TimesMonotone(c.root(d), c.root(e), resolution);
    var x, y := Times(c.root(d), resolution) - inscribedRadius, Times(c.root(e), resolution) - inscribedRadius;
    TimesNonNegative(x, c.scaling);
    TimesNonNegative(y - x, c.scaling);
    TimesAdds(x, y - x, c.scaling);
  }

  /** It starts at 252 where the inscribed radius ends. */
  lemma ExponentialStarts(c: Curve, resolution: real, inscribedRadius: real, d: nat)
    requires CurveOk(c) && Times(c.root(d), resolution) == inscribedRadius
    ensures ExponentialCost(c, resolution, inscribedRadius, d) == 252
  {
    hide Times;
    TimesAdds(0.0, 0.0, c.scaling);
  }

  /** The cost of the source's own formula, by distance. */
  function SourceCost(c: Curve, resolution: real, inscribedRadius: real, d: nat): int {
    if d == 0 then LETHAL_OBSTACLE
    else if Times(c.root(d), resolution) <= inscribedRadius then INSCRIBED_INFLATED_OBSTACLE
    else ExponentialCost(c, resolution, inscribedRadius, d)
  }

  /**
   * A model with this falloff, constant within the inscribed radius where it is not used, computes the source's
   * costs.
   */
  function ExponentialModel(c: Curve, resolution: real, inscribedRadius: real): CostModel {
    CostModel(resolution, inscribedRadius, d =>
      var cost := ExponentialCost(c, resolution, inscribedRadius, d);
      if Times(c.root(d), resolution) <= inscribedRadius || cost > 252 then 252 else if cost < 0 then 0 else cost)
  }

  /** For the exponential curve the cost model admits its falloff and computes exactly the source's formula. */
  lemma SourceCostModelled(c: Curve, resolution: real, inscribedRadius: real)
    requires CurveOk(c) && resolution > 0.0 && inscribedRadius >= 0.0
    ensures var m := ExponentialModel(c, resolution, inscribedRadius);
      CostModelOk(m) && forall d: nat :: ComputeCost(m, d) as int == SourceCost(c, resolution, inscribedRadius, d)
  {
    hide Times, ExponentialCost, CurveOk;
    var m := ExponentialModel(c, resolution, inscribedRadius);
    forall d: nat ensures ComputeCost(m, d) as int == SourceCost(c, resolution, inscribedRadius, d) {
      InscribedByRoot(c, m, d);
      if Times(c.root(d), resolution) > inscribedRadius { ExponentialFalls(c, resolution, inscribedRadius, d, d); }
    }
    forall d: nat, e: nat | d <= e ensures m.falloff(e) <= m.falloff(d) {
      RootGrows(c, d, e);
      TimesMonotone(c.root(d), c.root(e), resolution);
      if Times(c.root(d), resolution) > inscribedRadius { ExponentialFalls(c, resolution, inscribedRadius, d, e); }
    }
  }

  datatype Settings = Settings(inflateUnknown: bool, inflateAroundUnknown: bool, model: CostModel)

  datatype Box = Box(minI: int, minJ: int, maxI: int, maxJ: int)

  predicate InBox(b: Box, c: Cell) {
    b.minI <= c.x < b.maxI && b.minJ <= c.y < b.maxJ
  }

  /** The update box grown by the radius and clipped to the map: where obstacles are looked for. */
  function ScanBox(g: Grid, b: Box): Box {
    Box(Max(0, b.minI - g.radius), Max(0, b.minJ - g.radius),
        Min(g.width, b.maxI + g.radius), Min(g.height, b.maxJ + g.radius))
  }

  predicate IsSource(st: Settings, cost: Cost) {
    cost == LETHAL_OBSTACLE || (st.inflateAroundUnknown && cost == NO_INFORMATION)
  }

  predicate GridFits<T>(g: Grid, s: seq<T>) {
    Fits(s, g.width, g.height)
  }

  /** Cost of a cell of the map. */
  function CostOf(g: Grid, costs: seq<Cost>, c: Cell): Cost
    requires GridFits(g, costs) && InMap(g, c)
  {
    At(costs, g.width, g.height, c.x, c.y)
  }

  /** The obstacles of a box from (i, j) on, row by row. */
  function ScanFrom(g: Grid, st: Settings, costs: seq<Cost>, b: Box, i: int, j: int): seq<Cell>
    requires GridFits(g, costs) && b.minI <= i && 0 <= b.minI && 0 <= b.minJ <= j && b.maxI <= g.width &&
      b.maxJ <= g.height
    decreases b.maxJ - j, b.maxI - i
  {
    if j >= b.maxJ then []
    else if i >= b.maxI then ScanFrom(g, st, costs, b, b.minI, j + 1)
    else (if IsSource(st, CostOf(g, costs, Cell(i, j))) then [Cell(i, j)] else []) + ScanFrom(g, st, costs, b, i + 1, j)
  }

  /** The obstacles one pass starts from. */
  function Scan(g: Grid, st: Settings, costs: seq<Cost>, b: Box): seq<Cell>
    requires GridFits(g, costs)
  {
    var s := ScanBox(g, b);
    ScanFrom(g, st, costs, s, s.minI, s.minJ)
  }

  lemma ScanFromStep(g: Grid, st: Settings, costs: seq<Cost>, b: Box, i: int, j: int, c: Cell)
    requires GridFits(g, costs) && b.minI <= i && 0 <= b.minI && 0 <= b.minJ <= j && b.maxI <= g.width &&
      b.maxJ <= g.height
    ensures c in ScanFrom(g, st, costs, b, i, j) <==>
      j < b.maxJ &&
      if i >= b.maxI then c in ScanFrom(g, st, costs, b, b.minI, j + 1)
      else (c == Cell(i, j) && IsSource(st, CostOf(g, costs, c))) || c in ScanFrom(g, st, costs, b, i + 1, j)
  {
    hide IsSource, CostOf, GridFits;
  }

  /** The scan finds exactly the source cells of the rows and columns still ahead of it. */
  lemma {:induction false} ScanFromFinds(g: Grid, st: Settings, costs: seq<Cost>, b: Box, i: int, j: int, c: Cell)
    requires GridFits(g, costs) && b.minI <= i && 0 <= b.minI && 0 <= b.minJ <= j && b.maxI <= g.width &&
      b.maxJ <= g.height
    ensures c in ScanFrom(g, st, costs, b, i, j) <==>
      && InBox(b, c) && InMap(g, c) && IsSource(st, CostOf(g, costs, c))
      && (c.y > j || (c.y == j && c.x >= i))
    decreases b.maxJ - j, b.maxI - i
  {
    hide IsSource, CostOf, GridFits, ScanFrom;
    ScanFromStep(g, st, costs, b, i, j, c);
    if j < b.maxJ {
      if i >= b.maxI {
        ScanFromFinds(g, st, costs, b, b.minI, j + 1, c);
      } else {
        ScanFromFinds(g, st, costs, b, i + 1, j, c);
        assert c == Cell(c.x, c.y);
      }
    }
  }

  lemma ScanFinds(g: Grid, st: Settings, costs: seq<Cost>, b: Box, c: Cell)
    requires GridFits(g, costs)
    ensures c in Scan(g, st, costs, b) <==> InMap(g, c) && InBox(ScanBox(g, b), c) && IsSource(st, CostOf(g, costs, c))
  {
    var s := ScanBox(g, b);
    ScanFromFinds(g, st, costs, s, s.minI, s.minJ, c);
  }

  lemma ScanInMap(g: Grid, st: Settings, costs: seq<Cost>, b: Box)
    requires GridFits(g, costs)
    ensures ObstaclesInMap(g, Scan(g, st, costs, b))
  {
    hide Scan, ScanBox, InMap, IsSource, CostOf, GridFits;
    forall j | 0 <= j < |Scan(g, st, costs, b)| ensures InMap(g, Scan(g, st, costs, b)[j]) {
      ScanFinds(g, st, costs, b, Scan(g, st, costs, b)[j]);
    }
  }

  /** Two maps with the same source cells are scanned alike. */
  lemma {:induction false} SameScan(g: Grid, st: Settings, costs: seq<Cost>, costs': seq<Cost>, b: Box, i: int, j: int)
    requires GridFits(g, costs) && GridFits(g, costs')
    requires b.minI <= i && 0 <= b.minI && 0 <= b.minJ <= j && b.maxI <= g.width && b.maxJ <= g.height
    requires forall c :: InMap(g, c) ==> (IsSource(st, CostOf(g, costs, c)) <==> IsSource(st, CostOf(g, costs', c)))
    ensures ScanFrom(g, st, costs, b, i, j) == ScanFrom(g, st, costs', b, i, j)
    decreases b.maxJ - j, b.maxI - i
  {
    hide IsSource, CostOf, GridFits;
    if j < b.maxJ {
      if i >= b.maxI {
        SameScan(g, st, costs, costs', b, b.minI, j + 1);
      } else {
        SameScan(g, st, costs, costs', b, i + 1, j);
        assert InMap(g, Cell(i, j));
      }
    }
  }

  /** How an inflation cost meets the cost already there. */
  function Blend(st: Settings, was: Cost, cost: Cost): Cost {
    if was == NO_INFORMATION &&
       (if st.inflateUnknown then cost > FREE_SPACE else cost >= INSCRIBED_INFLATED_OBSTACLE)
    then cost
    else Max(was, cost)
  }

  /** Cost of c once the cells of w are handled. */
  ghost function CostAfter(g: Grid, st: Settings, costs: seq<Cost>, b: Box, w: Wave, c: Cell): Cost
    requires GridFits(g, costs) && InMap(g, c)
  {
    if c in w.source && InBox(b, c)
    then Blend(st, CostOf(g, costs, c), ComputeCost(st.model, Recorded(w, c)))
    else CostOf(g, costs, c)
  }

  ghost predicate CostsAfter(g: Grid, st: Settings, costs: seq<Cost>, b: Box, w: Wave, result: seq<Cost>)
    requires GridFits(g, costs)
  {
    GridFits(g, result) && forall c :: InMap(g, c) ==> CostOf(g, result, c) == CostAfter(g, st, costs, b, w, c)
  }

  /** result is costs after one inflation pass over box b. */
  ghost predicate Inflated(g: Grid, st: Settings, costs: seq<Cost>, b: Box, result: seq<Cost>)
    requires GridFits(g, costs)
  {
    ScanInMap(g, st, costs, b);
    CostsAfter(g, st, costs, b, Inflate(g, Scan(g, st, costs, b)), result)
  }

  // ---------- what one pass does to the map ----------

  /**
   Cells outside the box keep their cost, known cells never get cheaper, and an unknown cell stays unknown or
   takes a cost its flag allows.
   */
  lemma PassIsConservative(g: Grid, st: Settings, costs: seq<Cost>, b: Box, result: seq<Cost>, c: Cell)
    requires GridFits(g, costs) && Inflated(g, st, costs, b, result) && InMap(g, c) && CostModelOk(st.model)
    ensures !InBox(b, c) ==> CostOf(g, result, c) == CostOf(g, costs, c)
    ensures CostOf(g, costs, c) != NO_INFORMATION ==> CostOf(g, costs, c) <= CostOf(g, result, c) <= LETHAL_OBSTACLE
    ensures CostOf(g, costs, c) == NO_INFORMATION ==>
      || CostOf(g, result, c) == NO_INFORMATION
      || (CostOf(g, result, c) <= LETHAL_OBSTACLE &&
          if st.inflateUnknown then CostOf(g, result, c) > FREE_SPACE
          else CostOf(g, result, c) >= INSCRIBED_INFLATED_OBSTACLE)
  {
    hide CostOf, Inflate, InMap, Recorded, ComputeCost, GridFits;
    ScanInMap(g, st, costs, b);
    var w := Inflate(g, Scan(g, st, costs, b));
    assert CostOf(g, result, c) == CostAfter(g, st, costs, b, w, c);
    if c in w.source {
      CostFalls(st.model, Recorded(w, c), Recorded(w, c));
    }
  }

  /** What a cell is inflated by: lethal cost, and unknown cost where the flag says so. */
  lemma SourceIs(st: Settings, cost: Cost)
    ensures IsSource(st, cost) <==> cost == LETHAL_OBSTACLE || (st.inflateAroundUnknown && cost == NO_INFORMATION)
  {
  }

  /** Every source of the map that reaches into the box lies in the scanned box. */
  lemma InReachIsScanned(g: Grid, st: Settings, costs: seq<Cost>, b: Box, o: Cell, c: Cell)
    requires GridFits(g, costs) && InMap(g, o) && IsSource(st, CostOf(g, costs, o))
    requires InBox(b, c) && Abs(c.x - o.x) <= g.radius && Abs(c.y - o.y) <= g.radius
    ensures o in Scan(g, st, costs, b)
  {
    hide Scan, IsSource, CostOf, GridFits;
    ScanFinds(g, st, costs, b, o);
  }

  /** The cost is high enough for a cell that was unknown. */
  predicate Tells(st: Settings, cost: Cost) {
    cost >= INSCRIBED_INFLATED_OBSTACLE || (st.inflateUnknown && cost > FREE_SPACE)
  }

  /** Known cells take the larger cost, unknown ones any that tells. */
  lemma BlendIs(st: Settings, was: Cost, cost: Cost)
    requires cost <= LETHAL_OBSTACLE
    ensures was != NO_INFORMATION ==> Blend(st, was, cost) == if was < cost then cost else was
    ensures was == NO_INFORMATION ==> Blend(st, was, cost) == if Tells(st, cost) then cost else NO_INFORMATION
  {
  }

  /**
   Safety: whatever source lies within Manhattan distance m <= radius, a known cell of the box ends at least as
   expensive as a cell at Euclidean distance m; so does an unknown one, which becomes known, if that cost tells.
   */
  lemma PassCovers(g: Grid, st: Settings, costs: seq<Cost>, b: Box, result: seq<Cost>, o: Cell, c: Cell)
    requires GridFits(g, costs) && Inflated(g, st, costs, b, result) && CostModelOk(st.model)
    requires InMap(g, o) && IsSource(st, CostOf(g, costs, o))
    requires InMap(g, c) && InBox(b, c) && Manhattan(c, o) <= g.radius
    ensures var cost := ComputeCost(st.model, Square(Manhattan(c, o)));
      CostOf(g, costs, c) != NO_INFORMATION || Tells(st, cost) ==> cost <= CostOf(g, result, c) <= LETHAL_OBSTACLE
  {
    hide CostOf, Inflate, InMap, Recorded, ComputeCost, GridFits, Square, Scan, IsSource, Blend;
    InReachIsScanned(g, st, costs, b, o, c);
    var obstacles := Scan(g, st, costs, b);
    ScanInMap(g, st, costs, b);
    var w := Inflate(g, obstacles);
    ManhattanCovered(g, obstacles, o, c);
    CostFalls(st.model, Recorded(w, c), Square(Manhattan(c, o)));
    CostFalls(st.model, Recorded(w, c), Recorded(w, c));
    BlendIs(st, CostOf(g, costs, c), ComputeCost(st.model, Recorded(w, c)));
    KnownCost(CostOf(g, costs, c));
    assert CostOf(g, result, c) == CostAfter(g, st, costs, b, w, c);
  }

  lemma KnownCost(cost: Cost)
    ensures cost != NO_INFORMATION ==> cost <= LETHAL_OBSTACLE
  {
  }

  /** No cell gets a cost but its old one or that at its distance from some source within the radius. */
  lemma PassComesFromSource(g: Grid, st: Settings, costs: seq<Cost>, b: Box, result: seq<Cost>, c: Cell)
    requires GridFits(g, costs) && Inflated(g, st, costs, b, result) && CostModelOk(st.model) && InMap(g, c)
    ensures CostOf(g, result, c) == CostOf(g, costs, c) ||
      exists o :: InMap(g, o) && IsSource(st, CostOf(g, costs, o)) && Distance2(c, o) <= Square(g.radius) &&
                  CostOf(g, result, c) == ComputeCost(st.model, Distance2(c, o))
  {
    hide CostOf, Inflate, InMap, ComputeCost, GridFits, Square, Scan, IsSource, Blend, WaveInvariant, OrderOk,
      Distance2;
    var obstacles := Scan(g, st, costs, b);
    ScanInMap(g, st, costs, b);
    var w := Inflate(g, obstacles);
    assert CostOf(g, result, c) == CostAfter(g, st, costs, b, w, c);
    if c in w.source && InBox(b, c) {
      InflateSound(g, obstacles);
      ScanFinds(g, st, costs, b, w.source[c]);
      CostFalls(st.model, Recorded(w, c), Recorded(w, c));
      BlendIs(st, CostOf(g, costs, c), ComputeCost(st.model, Recorded(w, c)));
    }
  }

  /**
   With a single source on the map the result is exact: in the part of the box within the radius of it each known cell
   takes the larger of its cost and that at its distance, each unknown one the latter if it tells; nothing else changes.
   */
  lemma SingleSourceExact(g: Grid, st: Settings, costs: seq<Cost>, b: Box, result: seq<Cost>, o: Cell, c: Cell)
    requires GridFits(g, costs) && Inflated(g, st, costs, b, result) && CostModelOk(st.model)
    requires InMap(g, o) && InMap(g, c)
    requires forall a :: InMap(g, a) ==> (IsSource(st, CostOf(g, costs, a)) <==> a == o)
    ensures var was, cost := CostOf(g, costs, c), ComputeCost(st.model, Distance2(c, o));
      CostOf(g, result, c) ==
        if !(b.minI <= c.x < b.maxI && b.minJ <= c.y < b.maxJ) || Distance2(c, o) > Square(g.radius) then was
        else if was == NO_INFORMATION then (if Tells(st, cost) then cost else NO_INFORMATION)
        else if was < cost then cost else was
  {
    hide CostOf, Inflate, InMap, ComputeCost, GridFits, Square, Scan, IsSource, Blend, Distance2, WaveInvariant,
      OrderOk;
    var obstacles := Scan(g, st, costs, b);
    ScanInMap(g, st, costs, b);
    var w := Inflate(g, obstacles);
    assert CostOf(g, result, c) == CostAfter(g, st, costs, b, w, c);
    OnlyObstacle(g, st, costs, b, o);
    if InBox(b, c) && o in obstacles {
      SingleObstacleExact(g, obstacles, o, c);
      CostFalls(st.model, Distance2(c, o), Distance2(c, o));
      BlendIs(st, CostOf(g, costs, c), ComputeCost(st.model, Distance2(c, o)));
    } else if InBox(b, c) {
      NothingHandled(g, obstacles);
    }
    if InBox(b, c) && Distance2(c, o) <= Square(g.radius) {
      InReach(c, o, g.radius);
      InReachIsScanned(g, st, costs, b, o, c);
    }
  }

  lemma OnlyObstacle(g: Grid, st: Settings, costs: seq<Cost>, b: Box, o: Cell)
    requires GridFits(g, costs) && forall a :: InMap(g, a) ==> (IsSource(st, CostOf(g, costs, a)) <==> a == o)
    ensures forall a :: a in Scan(g, st, costs, b) ==> a == o
    ensures o !in Scan(g, st, costs, b) ==> Scan(g, st, costs, b) == []
  {
    hide Scan, CostOf, GridFits, InMap, IsSource;
    var obstacles := Scan(g, st, costs, b);
    forall a | a in obstacles ensures a == o {
      ScanFinds(g, st, costs, b, a);
    }
    if obstacles != [] {
      assert obstacles[0] in obstacles;
    }
  }

  lemma NothingHandled(g: Grid, obstacles: seq<Cell>)
    requires obstacles == []
    ensures ObstaclesInMap(g, obstacles) && Inflate(g, obstacles).source == map[]
  {
    hide Inflate, WaveInvariant, OrderOk;
    InflateSound(g, obstacles);
    var w := Inflate(g, obstacles);
    assert forall u :: u !in w.source;
  }

  lemma InReach(c: Cell, o: Cell, radius: nat)
    requires Distance2(c, o) <= Square(radius)
    ensures Abs(c.x - o.x) <= radius && Abs(c.y - o.y) <= radius
  {
    hide Square;
    SquareReflectsOrder(c.x - o.x, radius);
    SquareReflectsOrder(c.y - o.y, radius);
  }

  /** An inflation pass neither creates nor removes sources. */
  lemma PassKeepsSources(g: Grid, st: Settings, costs: seq<Cost>, b: Box, result: seq<Cost>, c: Cell)
    requires GridFits(g, costs) && Inflated(g, st, costs, b, result) && CostModelOk(st.model) && InMap(g, c)
    ensures IsSource(st, CostOf(g, costs, c)) <==> IsSource(st, CostOf(g, result, c))
  {
    hide CostOf, Inflate, InMap, Recorded, ComputeCost, GridFits, Scan, WaveInvariant, OrderOk, WithinRadius;
    var obstacles := Scan(g, st, costs, b);
    ScanInMap(g, st, costs, b);
    var w := Inflate(g, obstacles);
    assert CostOf(g, result, c) == CostAfter(g, st, costs, b, w, c);
    if c in w.source && InBox(b, c) {
      CostFalls(st.model, Recorded(w, c), Recorded(w, c));
      InflateSound(g, obstacles);
      RecordedZero(w, c);
      ScanFinds(g, st, costs, b, w.source[c]);
      InBoxIsScanned(g, b, c);
      ScanFinds(g, st, costs, b, c);
      if c in obstacles {
        ObstacleReached(g, obstacles, c);
      }
    }
  }

  lemma RecordedZero(w: Wave, c: Cell)
    requires c in w.source
    ensures Recorded(w, c) == 0 <==> w.source[c] == c
  {
    ZeroDistance(c, w.source[c]);
  }

  lemma InBoxIsScanned(g: Grid, b: Box, c: Cell)
    requires InMap(g, c) && InBox(b, c)
    ensures InBox(ScanBox(g, b), c)
  {
  }

  /** Inflating twice is inflating once: a second pass over the same box changes nothing. */
  lemma PassIsIdempotent(g: Grid, st: Settings, costs: seq<Cost>, b: Box, once: seq<Cost>, twice: seq<Cost>)
    requires GridFits(g, costs) && Inflated(g, st, costs, b, once) && CostModelOk(st.model)
    requires Inflated(g, st, once, b, twice)
    ensures twice == once
  {
    hide Inflate, InMap, Recorded, ComputeCost, GridFits, Scan, WaveInvariant, OrderOk, CostOf, IsSource;
    forall c | InMap(g, c) ensures IsSource(st, CostOf(g, costs, c)) <==> IsSource(st, CostOf(g, once, c)) {
      PassKeepsSources(g, st, costs, b, once, c);
    }
    SameObstacles(g, st, costs, once, b);
    ScanInMap(g, st, costs, b);
    var w := Inflate(g, Scan(g, st, costs, b));
    forall c | InMap(g, c) ensures CostOf(g, twice, c) == CostOf(g, once, c) {
      assert CostOf(g, once, c) == CostAfter(g, st, costs, b, w, c);
      assert CostOf(g, twice, c) == CostAfter(g, st, once, b, w, c);
      if c in w.source {
        CostFalls(st.model, Recorded(w, c), Recorded(w, c));
      }
    }
    SameCosts(g, twice, once);
  }

  lemma SameObstacles(g: Grid, st: Settings, costs: seq<Cost>, costs': seq<Cost>, b: Box)
    requires GridFits(g, costs) && GridFits(g, costs')
    requires forall c :: InMap(g, c) ==> (IsSource(st, CostOf(g, costs, c)) <==> IsSource(st, CostOf(g, costs', c)))
    ensures Scan(g, st, costs, b) == Scan(g, st, costs', b)
  {
    var s := ScanBox(g, b);
    SameScan(g, st, costs, costs', s, s.minI, s.minJ);
  }

  lemma SameCosts(g: Grid, costs: seq<Cost>, costs': seq<Cost>)
    requires GridFits(g, costs) && GridFits(g, costs')
    requires forall c :: InMap(g, c) ==> CostOf(g, costs, c) == CostOf(g, costs', c)
    ensures costs == costs'
  {
    forall x, y | Inside(g.width, g.height, x, y)
      ensures At(costs, g.width, g.height, x, y) == At(costs', g.width, g.height, x, y)
    {
      assert CostOf(g, costs, Cell(x, y)) == CostOf(g, costs', Cell(x, y));
    }
    SameCells(costs, costs', g.width, g.height);
  }
}
