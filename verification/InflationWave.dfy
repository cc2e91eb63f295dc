/**
 The inflation wavefront on values: cells leave the level bins one by one, each handled cell records
 the obstacle it was reached from, and offers that obstacle to its four neighbours.
 */
module InflationWave {
  import opened GridGeometry
  import opened InflationLevels

  /** Map size in cells and the inflation radius in cells. */
  datatype Grid = Grid(width: nat, height: nat, radius: nat)

  /** A queued cell with the obstacle it would be inflated from. */
  datatype Entry = Entry(cell: Cell, src: Cell)

  /** Sources of the handled cells, the order they were handled in, and the entries still queued per level. */
  datatype Wave = Wave(source: map<Cell, Cell>, order: seq<Cell>, bins: seq<seq<Entry>>)

  predicate InMap(g: Grid, c: Cell) {
    0 <= c.x < g.width && 0 <= c.y < g.height
  }

  predicate WithinRadius(g: Grid, c: Cell, s: Cell) {
    Distance2(c, s) <= Square(g.radius)
  }

  /** The bin of cell c for obstacle s. */
  ghost function Level(c: Cell, s: Cell): nat {
    Rank(Distance2(c, s))
  }

  ghost function BinCount(g: Grid): nat {
    Rank(Square(g.radius + 2)) + 1
  }

  ghost function Enqueue(g: Grid, w: Wave, c: Cell, s: Cell): (r: Wave)
    ensures r.source == w.source && r.order == w.order && |r.bins| == |w.bins|
  {
    if !InMap(g, c) || c in w.source || !WithinRadius(g, c, s) || Level(c, s) >= |w.bins| then w
    else w.(bins := w.bins[Level(c, s) := w.bins[Level(c, s)] + [Entry(c, s)]])
  }

  ghost function EnqueueNeighbours(g: Grid, w: Wave, c: Cell, s: Cell): (r: Wave)
    ensures r.source == w.source && r.order == w.order && |r.bins| == |w.bins|
  {
    var left := Enqueue(g, w, Cell(c.x - 1, c.y), s);
    var down := Enqueue(g, left, Cell(c.x, c.y - 1), s);
    var right := Enqueue(g, down, Cell(c.x + 1, c.y), s);
    Enqueue(g, right, Cell(c.x, c.y + 1), s)
  }

  ghost function Mark(w: Wave, e: Entry): Wave {
    w.(source := w.source[e.cell := e.src], order := w.order + [e.cell])
  }

  /** Takes the first entry of bin k away. */
  ghost function Pop(w: Wave, k: nat): Wave
    requires k < |w.bins| && w.bins[k] != []
  {
    w.(bins := w.bins[k := w.bins[k][1..]])
  }

  /** Takes the next entry of bin k and handles it unless its cell was handled before. */
  ghost function Handle(g: Grid, w: Wave, k: nat): (r: Wave)
    requires k < |w.bins| && w.bins[k] != []
    ensures |r.bins| == |w.bins|
    ensures w.bins[k][0].cell in r.source
  {
    var e := w.bins[k][0];
    if e.cell in w.source then Pop(w, k)
    else EnqueueNeighbours(g, Mark(Pop(w, k), e), e.cell, e.src)
  }

  ghost function AllCells(g: Grid): set<Cell> {
    set x, y | 0 <= x < g.width && 0 <= y < g.height :: Cell(x, y)
  }

  // ---------- what a step does to the bins ----------

  /** Offering s to c puts an entry into the bins. */
  ghost predicate Offered(g: Grid, w: Wave, c: Cell, s: Cell) {
    InMap(g, c) && c !in w.source && WithinRadius(g, c, s) && Level(c, s) < |w.bins|
  }

  lemma EnqueueEntries(g: Grid, w: Wave, c: Cell, s: Cell)
    ensures forall k, e :: 0 <= k < |w.bins| ==>
      (e in Enqueue(g, w, c, s).bins[k] <==>
       e in w.bins[k] || (Offered(g, w, c, s) && e == Entry(c, s) && k == Level(c, s)))
  {
  }

  lemma AdjacentCells(c: Cell, v: Cell)
    ensures Adjacent(v, c) <==>
      v in [Cell(c.x - 1, c.y), Cell(c.x, c.y - 1), Cell(c.x + 1, c.y), Cell(c.x, c.y + 1)]
  {
    assert v == Cell(v.x, v.y);
  }

  /** Offering s to the neighbours of c adds exactly one entry per open neighbour, in the bin of its distance. */
  lemma NeighbourEntries(g: Grid, w: Wave, c: Cell, s: Cell, k: nat, e: Entry)
    requires k < |w.bins|
    ensures e in EnqueueNeighbours(g, w, c, s).bins[k] <==>
      e in w.bins[k] || (Adjacent(e.cell, c) && e.src == s && Offered(g, w, e.cell, s) && k == Level(e.cell, s))
  {
    hide Adjacent, Enqueue, InMap, Level, WithinRadius;
    var left := Enqueue(g, w, Cell(c.x - 1, c.y), s);
    var down := Enqueue(g, left, Cell(c.x, c.y - 1), s);
    var right := Enqueue(g, down, Cell(c.x + 1, c.y), s);
    EnqueueEntries(g, w, Cell(c.x - 1, c.y), s);
    EnqueueEntries(g, left, Cell(c.x, c.y - 1), s);
    EnqueueEntries(g, down, Cell(c.x + 1, c.y), s);
    EnqueueEntries(g, right, Cell(c.x, c.y + 1), s);
    AdjacentCells(c, e.cell);
  }

  lemma PopEntries(w: Wave, k: nat)
    requires k < |w.bins| && w.bins[k] != []
    ensures forall j, e :: 0 <= j < |w.bins| ==>
      (e in w.bins[j] <==> e in Pop(w, k).bins[j] || (j == k && e == w.bins[k][0]))
  {
    assert w.bins[k] == [w.bins[k][0]] + w.bins[k][1..];
  }

  ghost predicate EntriesInMap(g: Grid, w: Wave) {
    forall k, e :: 0 <= k < |w.bins| && e in w.bins[k] ==> InMap(g, e.cell)
  }

  lemma HandleInMap(g: Grid, w: Wave, k: nat)
    requires EntriesInMap(g, w) && k < |w.bins| && w.bins[k] != []
    ensures EntriesInMap(g, Handle(g, w, k))
  {
    hide EnqueueNeighbours, Pop, InMap, Adjacent, Level;
    var e := w.bins[k][0];
    PopEntries(w, k);
    forall j, f | 0 <= j < |w.bins| && f in Handle(g, w, k).bins[j] ensures InMap(g, f.cell) {
      NeighbourEntries(g, Mark(Pop(w, k), e), e.cell, e.src, j, f);
    }
  }

  /** A newly handled cell shrinks the set of unhandled cells: what bounds the run. */
  lemma HandleShrinks(g: Grid, w: Wave, k: nat)
    requires EntriesInMap(g, w) && k < |w.bins| && w.bins[k] != []
    requires w.bins[k][0].cell !in w.source
    ensures AllCells(g) - Handle(g, w, k).source.Keys < AllCells(g) - w.source.Keys
  {
    var c := w.bins[k][0].cell;
    assert c in AllCells(g) by {
      assert InMap(g, c);
      assert c == Cell(c.x, c.y);
    }
    assert c in AllCells(g) - w.source.Keys && c !in AllCells(g) - Handle(g, w, k).source.Keys;
  }

  /** Runs the wave from bin k to the last bin. */
  ghost function Drain(g: Grid, w: Wave, k: nat): Wave
    requires EntriesInMap(g, w) && k <= |w.bins|
    decreases AllCells(g) - w.source.Keys, |w.bins| - k, if k < |w.bins| then |w.bins[k]| else 0
  {
    if k == |w.bins| then w
    else if w.bins[k] == [] then Drain(g, w, k + 1)
    else
      HandleInMap(g, w, k);
      if w.bins[k][0].cell !in w.source then
        HandleShrinks(g, w, k);
        Drain(g, Handle(g, w, k), k)
      else
        Drain(g, Handle(g, w, k), k)
  }

  /** Every obstacle queued at level 0 as its own source, in scan order. */
  ghost function Start(g: Grid, obstacles: seq<Cell>): (w: Wave)
    ensures |w.bins| == BinCount(g)
  {
    var seeds := seq(|obstacles|, (j: nat) requires j < |obstacles| => Entry(obstacles[j], obstacles[j]));
    Wave(map[], [], seq(BinCount(g), k => if k == 0 then seeds else []))
  }

  ghost predicate ObstaclesInMap(g: Grid, obstacles: seq<Cell>) {
    forall j :: 0 <= j < |obstacles| ==> InMap(g, obstacles[j])
  }

  /** The finished wave. */
  ghost function Inflate(g: Grid, obstacles: seq<Cell>): Wave
    requires ObstaclesInMap(g, obstacles)
  {
    Drain(g, Start(g, obstacles), 0)
  }
}
