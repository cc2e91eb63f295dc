/** What the finished wave has reached, and from where. */
module InflationCoverage {
  import opened GridGeometry
  import opened InflationWave
  import opened InflationOrder

  /**
   The run ends with every bin empty. The handled cells are listed once each, by non-decreasing distance from
   the obstacle recorded for them, and that obstacle is a scanned one within the inflation radius.
   */
  lemma InflateSound(g: Grid, obstacles: seq<Cell>)
    requires ObstaclesInMap(g, obstacles)
    ensures var w := Inflate(g, obstacles);
      && WaveInvariant(g, obstacles, w, |w.bins|)
      && (forall k :: 0 <= k < |w.bins| ==> w.bins[k] == [])
      && OrderOk(w)
      && (forall u :: u in w.source ==> InMap(g, u) && w.source[u] in obstacles && WithinRadius(g, u, w.source[u]))
  {
    hide WithinRadius, Drain, Start, EntriesInMap;
    var start := Start(g, obstacles);
    StartInvariant(g, obstacles);
    InvariantInMap(g, obstacles, start, 0);
    DrainKeeps(g, obstacles, start, 0);
  }

  /** In the finished wave a handled cell serves each neighbour within the radius of its own source. */
  lemma NeighbourReached(g: Grid, obstacles: seq<Cell>, u: Cell, v: Cell)
    requires ObstaclesInMap(g, obstacles)
    requires u in Inflate(g, obstacles).source && Adjacent(u, v) && InMap(g, v)
    requires WithinRadius(g, v, Inflate(g, obstacles).source[u])
    ensures Settled(Inflate(g, obstacles), v, Inflate(g, obstacles).source[u])
  {
    hide WithinRadius, Inflate, Adjacent, InMap, Level, Distance2;
    InflateSound(g, obstacles);
    var w := Inflate(g, obstacles);
    assert Settled(w, v, w.source[u]) || Queued(w, v, w.source[u]);
  }

  lemma ObstacleReached(g: Grid, obstacles: seq<Cell>, o: Cell)
    requires ObstaclesInMap(g, obstacles) && o in obstacles
    ensures o in Inflate(g, obstacles).source && Inflate(g, obstacles).source[o] == o
  {
    hide Inflate, InMap, Level, WithinRadius;
    InflateSound(g, obstacles);
    var w := Inflate(g, obstacles);
    assert (o in w.source && w.source[o] == o) || Queued(w, o, o);
  }

  /** A neighbour of v one step closer to o. */
  function Toward(v: Cell, o: Cell): Cell {
    if v.x < o.x then Cell(v.x + 1, v.y)
    else if v.x > o.x then Cell(v.x - 1, v.y)
    else if v.y < o.y then Cell(v.x, v.y + 1)
    else Cell(v.x, v.y - 1)
  }

  lemma TowardIsCloser(g: Grid, v: Cell, o: Cell)
    requires InMap(g, v) && InMap(g, o) && v != o
    ensures var u := Toward(v, o);
      InMap(g, u) && Adjacent(u, v) && Manhattan(u, o) + 1 == Manhattan(v, o) && Distance2(u, o) < Distance2(v, o)
  {
    hide Square;
    var u := Toward(v, o);
    if v.x != o.x {
      SquareMonotone(u.x - o.x, v.x - o.x);
    } else {
      SquareMonotone(u.y - o.y, v.y - o.y);
    }
  }

  /**
   Coverage: every cell of the map whose Manhattan distance m from a scanned obstacle is within the radius is
   handled, from an obstacle no farther than m.
   */
  lemma {:induction false} ManhattanCovered(g: Grid, obstacles: seq<Cell>, o: Cell, v: Cell)
    requires ObstaclesInMap(g, obstacles) && o in obstacles && InMap(g, v)
    requires Manhattan(v, o) <= g.radius
    ensures v in Inflate(g, obstacles).source
    ensures Recorded(Inflate(g, obstacles), v) <= Square(Manhattan(v, o))
    decreases Manhattan(v, o)
  {
    hide Inflate, Square, Distance2, InMap, Adjacent, Manhattan;
    var w := Inflate(g, obstacles);
    if v == o {
      ObstacleReached(g, obstacles, o);
      ObstacleDistance(o);
    } else {
      var u := Toward(v, o);
      TowardIsCloser(g, v, o);
      ManhattanCovered(g, obstacles, o, u);
      StepDistance(u, v, w.source[u], Manhattan(u, o));
      SquareMonotone(Manhattan(v, o), g.radius);
      NeighbourReached(g, obstacles, u, v);
    }
  }

  /** Around a single obstacle the wave is exact: precisely the Euclidean disc, each cell at its true distance. */
  lemma {:induction false} SingleObstacleExact(g: Grid, obstacles: seq<Cell>, o: Cell, v: Cell)
    requires ObstaclesInMap(g, obstacles) && o in obstacles && (forall a :: a in obstacles ==> a == o) && InMap(g, v)
    ensures v in Inflate(g, obstacles).source <==> Distance2(v, o) <= Square(g.radius)
    ensures Distance2(v, o) <= Square(g.radius) ==> Inflate(g, obstacles).source[v] == o
    decreases Manhattan(v, o)
  {
    hide Inflate, Square, Distance2, InMap, Adjacent, Manhattan;
    InflateSound(g, obstacles);
    if Distance2(v, o) <= Square(g.radius) {
      if v == o {
        ObstacleReached(g, obstacles, o);
      } else {
        var u := Toward(v, o);
        TowardIsCloser(g, v, o);
        SingleObstacleExact(g, obstacles, o, u);
        NeighbourReached(g, obstacles, u, v);
      }
    }
  }
}
