/**
 What every step of the wave keeps: nothing is ever put into a bin at or below the one being drained,
 and every handled cell has settled its neighbours at least as well as its own source would.
 */
module InflationOrder {
  import opened GridGeometry
  import opened InflationLevels
  import opened InflationWave

  // ---------- distances of neighbouring cells ----------

  /** Offset of n from m along direction e (1 or -1). */
  function Along(e: int, n: int, m: int): int {
    if e == 1 then n - m else m - n
  }

  lemma AlongStep(e: int, n: int, m: int)
    requires e == 1 || e == -1
    ensures Square(n - m) == Square(Along(e, n, m))
    ensures Square(n + e - m) == Square(n - m) + 2 * Along(e, n, m) + 1
  {
    SquareNext(Along(e, n, m));
    assert Along(e, n + e, m) == Along(e, n, m) + 1;
  }

  /** Neighbours lie one step apart along one axis. */
  lemma AdjacentStep(u: Cell, v: Cell)
    requires Adjacent(u, v)
    ensures v == Cell(u.x - 1, u.y) || v == Cell(u.x + 1, u.y) || v == Cell(u.x, u.y - 1) || v == Cell(u.x, u.y + 1)
  {
  }

  lemma StepAdjacent(u: Cell, v: Cell)
    ensures (v == Cell(u.x - 1, u.y) || v == Cell(u.x + 1, u.y) || v == Cell(u.x, u.y - 1) ||
      v == Cell(u.x, u.y + 1)) ==>
      Adjacent(v, u)
  {
  }

  lemma DistanceX(u: Cell, v: Cell, s: Cell)
    requires v.y == u.y && (v.x == u.x + 1 || v.x == u.x - 1)
    ensures Distance2(v, s) == Distance2(u, s) + 2 * Along(v.x - u.x, u.x, s.x) + 1
  {
    hide Square;
    AlongStep(v.x - u.x, u.x, s.x);
  }

  lemma DistanceY(u: Cell, v: Cell, s: Cell)
    requires v.x == u.x && (v.y == u.y + 1 || v.y == u.y - 1)
    ensures Distance2(v, s) == Distance2(u, s) + 2 * Along(v.y - u.y, u.y, s.y) + 1
  {
    hide Square;
    AlongStep(v.y - u.y, u.y, s.y);
  }

  /** Neighbours are never equally far from an obstacle. */
  lemma NeighbourDistance(u: Cell, v: Cell, s: Cell)
    requires Adjacent(u, v)
    ensures Distance2(u, s) != Distance2(v, s)
  {
    hide Distance2;
    AdjacentStep(u, v);
    if v.y == u.y { DistanceX(u, v, s); } else { DistanceY(u, v, s); }
  }

  /** One step adds at most one to the distance. */
  lemma StepDistance(u: Cell, v: Cell, s: Cell, k: nat)
    requires Adjacent(u, v) && Distance2(u, s) <= Square(k)
    ensures Distance2(v, s) <= Square(k + 1)
  {
    hide Square;
    AdjacentStep(u, v);
    SquareNext(k);
    SquareReflectsOrder(u.x - s.x, k);
    SquareReflectsOrder(u.y - s.y, k);
    if v.y == u.y { DistanceX(u, v, s); } else { DistanceY(u, v, s); }
  }

  /** If (a', b') is no longer than (a, b) and b' >= b >= 0, then a' does not exceed a >= 0. */
  lemma ShorterLeg(a: nat, b: nat, a': int, b': int)
    requires Square(a') + Square(b') <= Square(a) + Square(b) && b <= b'
    ensures a' <= a
  {
    hide Square;
    SquareMonotone(b, b');
    if a < a' {
      SquareMonotone(a, a');
    }
  }

  /**
   The comparison of two adjacent rows. Cells d, p, c, q form a unit square with d opposite c; seen from s,
   d is nearest and c farthest. If t serves d at least as well as s but p no better than s, then t serves q
   at least as well as s.
   */
  lemma AdjacentRows(c: Cell, p: Cell, q: Cell, s: Cell, t: Cell)
    requires Adjacent(p, c) && Adjacent(q, c) && p != q
    requires Distance2(p, s) < Distance2(c, s) && Distance2(q, s) < Distance2(c, s)
    ensures var d := Cell(p.x + q.x - c.x, p.y + q.y - c.y);
      && Adjacent(d, p) && Adjacent(d, q) && Distance2(d, s) < Distance2(p, s)
      && (Distance2(d, t) <= Distance2(d, s) && Distance2(p, s) <= Distance2(p, t) ==>
          Distance2(q, t) <= Distance2(q, s))
  {
    hide Distance2, Adjacent, Along;
    AdjacentStep(p, c);
    AdjacentStep(q, c);
    var d := Cell(p.x + q.x - c.x, p.y + q.y - c.y);
    StepAdjacent(p, d);
    StepAdjacent(q, d);
    if p.y == c.y {
      DistanceX(p, c, s);
      OneSideNearer(c, p, q, s);
      DistanceY(q, c, s);
      AlongFlips(p, q, d, c, s);
      RowsByAxis(d, p, q, s, t, q.x - d.x, p.y - d.y);
    } else {
      DistanceY(p, c, s);
      OneSideNearer(c, p, q, s);
      DistanceX(q, c, s);
      AlongFlips(q, p, d, c, s);
      ColumnsByAxis(d, p, q, s, t, q.y - d.y, p.x - d.x);
    }
  }

  /** Of two opposite neighbours at most one is nearer. */
  lemma OneSideNearer(c: Cell, p: Cell, q: Cell, s: Cell)
    requires Adjacent(p, c) && Adjacent(q, c) && p != q
    requires Distance2(p, s) < Distance2(c, s) && Distance2(q, s) < Distance2(c, s)
    ensures (p.x == c.x) != (q.x == c.x)
  {
    hide Distance2, Adjacent;
    AdjacentStep(p, c);
    AdjacentStep(q, c);
    if p.x == c.x && q.x == c.x {
      DistanceY(p, c, s);
      DistanceY(q, c, s);
    }
    if p.x != c.x && q.x != c.x {
      DistanceX(p, c, s);
      DistanceX(q, c, s);
    }
  }

  lemma AlongFlips(p: Cell, q: Cell, d: Cell, c: Cell, s: Cell)
    requires p.y == c.y && q.x == c.x && d == Cell(p.x, q.y)
    ensures Along(c.x - p.x, p.x, s.x) == Along(q.x - d.x, d.x, s.x)
    ensures Along(c.y - q.y, q.y, s.y) == Along(p.y - d.y, d.y, s.y)
  {
  }

  lemma RowsByAxis(d: Cell, p: Cell, q: Cell, s: Cell, t: Cell, e: int, f: int)
    requires (e == 1 || e == -1) && (f == 1 || f == -1)
    requires p == Cell(d.x, d.y + f) && q == Cell(d.x + e, d.y)
    requires 0 <= Along(e, d.x, s.x) && 0 <= Along(f, d.y, s.y)
    ensures Distance2(d, s) < Distance2(p, s)
    ensures Distance2(d, t) <= Distance2(d, s) && Distance2(p, s) <= Distance2(p, t) ==>
            Distance2(q, t) <= Distance2(q, s)
  {
    hide Square;
    DistanceY(d, p, s);
    DistanceY(d, p, t);
    DistanceX(d, q, s);
    DistanceX(d, q, t);
    AlongStep(e, d.x, s.x); AlongStep(e, d.x, t.x); AlongStep(f, d.y, s.y); AlongStep(f, d.y, t.y);
    if Distance2(d, t) <= Distance2(d, s) && Distance2(p, s) <= Distance2(p, t) {
      ShorterLeg(Along(e, d.x, s.x), Along(f, d.y, s.y), Along(e, d.x, t.x), Along(f, d.y, t.y));
    }
  }

  lemma ColumnsByAxis(d: Cell, p: Cell, q: Cell, s: Cell, t: Cell, e: int, f: int)
    requires (e == 1 || e == -1) && (f == 1 || f == -1)
    requires p == Cell(d.x + f, d.y) && q == Cell(d.x, d.y + e)
    requires 0 <= Along(e, d.y, s.y) && 0 <= Along(f, d.x, s.x)
    ensures Distance2(d, s) < Distance2(p, s)
    ensures Distance2(d, t) <= Distance2(d, s) && Distance2(p, s) <= Distance2(p, t) ==>
            Distance2(q, t) <= Distance2(q, s)
  {
    hide Square;
    DistanceX(d, p, s);
    DistanceX(d, p, t);
    DistanceY(d, q, s);
    DistanceY(d, q, t);
    AlongStep(e, d.y, s.y); AlongStep(e, d.y, t.y); AlongStep(f, d.x, s.x); AlongStep(f, d.x, t.x);
    if Distance2(d, t) <= Distance2(d, s) && Distance2(p, s) <= Distance2(p, t) {
      ShorterLeg(Along(e, d.y, s.y), Along(f, d.x, s.x), Along(e, d.y, t.y), Along(f, d.x, t.x));
    }
  }

  // ---------- the invariant ----------

  /** Squared distance of a handled cell from the obstacle recorded for it. */
  ghost function Recorded(w: Wave, u: Cell): nat
    requires u in w.source
  {
    Distance2(u, w.source[u])
  }

  /** v is handled at least as well as obstacle s would serve it. */
  ghost predicate Settled(w: Wave, v: Cell, s: Cell) {
    v in w.source && Recorded(w, v) <= Distance2(v, s)
  }

  ghost predicate Queued(w: Wave, v: Cell, s: Cell) {
    Level(v, s) < |w.bins| && Entry(v, s) in w.bins[Level(v, s)]
  }

  /** Bins below k are empty: drained and never refilled. */
  ghost predicate DrainedBelow(w: Wave, k: nat) {
    forall j :: 0 <= j < k && j < |w.bins| ==> w.bins[j] == []
  }

  /** e was put there by a handled neighbour nearer to e's obstacle, or is an obstacle itself. */
  ghost predicate HasParent(w: Wave, e: Entry) {
    e.cell == e.src ||
    exists p :: p in w.source && w.source[p] == e.src && Adjacent(p, e.cell) &&
      Distance2(p, e.src) < Distance2(e.cell, e.src)
  }

  ghost predicate EntryOk(g: Grid, obstacles: seq<Cell>, w: Wave, j: nat, e: Entry) {
    && InMap(g, e.cell) && e.src in obstacles && WithinRadius(g, e.cell, e.src)
    && j == Level(e.cell, e.src) && HasParent(w, e)
  }

  ghost predicate EntriesOk(g: Grid, obstacles: seq<Cell>, w: Wave) {
    forall j, e :: 0 <= j < |w.bins| && e in w.bins[j] ==> EntryOk(g, obstacles, w, j, e)
  }

  /** Handled cells are in the map, within the radius of a scanned obstacle, and not above level k. */
  ghost predicate HandledOk(g: Grid, obstacles: seq<Cell>, w: Wave, k: nat) {
    forall u :: u in w.source ==>
      InMap(g, u) && w.source[u] in obstacles && WithinRadius(g, u, w.source[u]) && Level(u, w.source[u]) <= k
  }

  /** The source of u reaches every neighbour within the radius: settled already, or still queued. */
  ghost predicate Forwarded(g: Grid, w: Wave) {
    forall u, v :: u in w.source && Adjacent(u, v) && InMap(g, v) && WithinRadius(g, v, w.source[u]) ==>
      Settled(w, v, w.source[u]) || Queued(w, v, w.source[u])
  }

  /** Neighbours of u nearer to u's source were settled before u. */
  ghost predicate BackSettled(g: Grid, w: Wave) {
    forall u, v :: u in w.source && Adjacent(u, v) && InMap(g, v) && Distance2(v, w.source[u]) < Recorded(w, u) ==>
      Settled(w, v, w.source[u])
  }

  /** Every obstacle is its own source, or still waits at level 0. */
  ghost predicate SeedsOk(obstacles: seq<Cell>, w: Wave) {
    forall o :: o in obstacles ==> (o in w.source && w.source[o] == o) || Queued(w, o, o)
  }

  ghost predicate WaveInvariant(g: Grid, obstacles: seq<Cell>, w: Wave, k: nat) {
    && ObstaclesInMap(g, obstacles) && |w.bins| == BinCount(g)
    && DrainedBelow(w, k) && EntriesOk(g, obstacles, w) && HandledOk(g, obstacles, w, k)
    && Forwarded(g, w) && BackSettled(g, w) && SeedsOk(obstacles, w)
  }

  // ---------- levels of cells ----------

  lemma DistanceIsNorm(c: Cell, s: Cell)
    ensures IsNorm(Distance2(c, s))
  {
  }

  /** Bins are in distance order. */
  lemma LevelOrder(a: Cell, s: Cell, b: Cell, t: Cell)
    ensures Level(a, s) < Level(b, t) <==> Distance2(a, s) < Distance2(b, t)
    ensures Level(a, s) == Level(b, t) <==> Distance2(a, s) == Distance2(b, t)
  {
    DistanceIsNorm(a, s);
    DistanceIsNorm(b, t);
    RankOrdersNorms(Distance2(a, s), Distance2(b, t));
  }

  /** A cell within the radius always has a bin. */
  lemma LevelInRange(g: Grid, c: Cell, s: Cell)
    requires WithinRadius(g, c, s)
    ensures Level(c, s) < BinCount(g)
  {
    hide Square, Distance2;
    SquareMonotone(g.radius, g.radius + 2);
    RankGrows(Distance2(c, s), Square(g.radius + 2));
  }

  // ---------- preservation ----------

  /** The heart of the ordering proof: the cells nearer to s than a cell popped for s are all settled. */
  lemma NearerSettled(g: Grid, obstacles: seq<Cell>, w: Wave, k: nat, e: Entry, q: Cell)
    requires WaveInvariant(g, obstacles, w, k) && k < |w.bins| && e in w.bins[k]
    requires Adjacent(q, e.cell) && InMap(g, q) && Distance2(q, e.src) < Distance2(e.cell, e.src)
    ensures Settled(w, q, e.src)
  {
    hide Distance2, Level, Adjacent;
    var c, s := e.cell, e.src;
    assert EntryOk(g, obstacles, w, k, e);
    ObstacleDistance(s);
    var p :| p in w.source && w.source[p] == s && Adjacent(p, c) && Distance2(p, s) < Distance2(c, s);
    if p != q {
      var d := Cell(p.x + q.x - c.x, p.y + q.y - c.y);
      AdjacentSymmetric(p, d);
      AdjacentRows(c, p, q, s, s);
      AdjacentSymmetric(p, c);
      AdjacentSymmetric(q, c);
      assert InMap(g, p);
      SquareInMap(g, c, p, q);
      assert Settled(w, d, s);
      var t := w.source[d];
      AdjacentRows(c, p, q, s, t);
      SourceNoBetter(g, obstacles, w, k, d, p);
      assert Distance2(q, t) <= Distance2(q, s);
      assert WithinRadius(g, q, t);
      LevelOrder(q, t, c, s);
      assert Settled(w, q, t) || Queued(w, q, t);
    }
  }

  lemma ObstacleDistance(s: Cell)
    ensures Distance2(s, s) == 0
  {
  }

  lemma AdjacentSymmetric(u: Cell, v: Cell)
    ensures Adjacent(u, v) == Adjacent(v, u)
  {
  }

  /** The fourth corner of a unit square with three corners in the map is in the map. */
  lemma SquareInMap(g: Grid, c: Cell, p: Cell, q: Cell)
    requires InMap(g, c) && InMap(g, p) && InMap(g, q)
    requires Adjacent(p, c) && Adjacent(q, c)
    requires p != q
    ensures InMap(g, Cell(p.x + q.x - c.x, p.y + q.y - c.y))
  {
    AdjacentStep(c, p);
    AdjacentStep(c, q);
  }

  /** A handled cell p is served at least as well by its own source as by the source of a handled neighbour d. */
  lemma SourceNoBetter(g: Grid, obstacles: seq<Cell>, w: Wave, k: nat, d: Cell, p: Cell)
    requires WaveInvariant(g, obstacles, w, k)
    requires d in w.source && p in w.source && Adjacent(d, p)
    ensures Recorded(w, p) <= Distance2(p, w.source[d])
  {
    hide Distance2, Level, Adjacent;
    var t := w.source[d];
    if WithinRadius(g, p, t) {
      assert InMap(g, p);
      LevelOrder(p, t, p, w.source[p]);
      assert Settled(w, p, t) || Queued(w, p, t);
    }
  }

  /** Dropping an entry whose cell is already handled keeps the invariant. */
  lemma PopKeeps(g: Grid, obstacles: seq<Cell>, w: Wave, k: nat)
    requires WaveInvariant(g, obstacles, w, k) && k < |w.bins| && w.bins[k] != []
    requires w.bins[k][0].cell in w.source
    ensures WaveInvariant(g, obstacles, Pop(w, k), k)
  {
    hide Distance2, Level, Adjacent, InMap, WithinRadius, Pop;
    var e := w.bins[k][0];
    var w' := Pop(w, k);
    PopKeepsRest(w, k);
    PopEntries(w, k);
    assert EntryOk(g, obstacles, w, k, e);
    LevelOrder(e.cell, w.source[e.cell], e.cell, e.src);
    ObstacleDistance(e.src);
    ObstacleDistance(e.cell);
    assert Settled(w, e.cell, e.src);
    assert EntriesOk(g, obstacles, w') by {
      forall j, f | 0 <= j < |w'.bins| && f in w'.bins[j] ensures EntryOk(g, obstacles, w', j, f) {
        assert EntryOk(g, obstacles, w, j, f);
      }
    }
    assert SeedsOk(obstacles, w') by {
      ZeroDistance(e.cell, w.source[e.cell]);
    }
  }

  lemma PopKeepsRest(w: Wave, k: nat)
    requires k < |w.bins| && w.bins[k] != []
    ensures Pop(w, k).source == w.source && |Pop(w, k).bins| == |w.bins|
    ensures forall j :: 0 <= j < |w.bins| && j != k ==> Pop(w, k).bins[j] == w.bins[j]
  {
  }

  lemma ZeroDistance(a: Cell, b: Cell)
    ensures Distance2(a, b) == 0 <==> a == b
  {
    hide Square;
    SquareIsZero(a.x - b.x);
    SquareIsZero(a.y - b.y);
  }

  /** The wave after handling e, before its neighbours are offered e's obstacle. */
  ghost function Marked(w: Wave, k: nat): Wave
    requires k < |w.bins| && w.bins[k] != []
  {
    Mark(Pop(w, k), w.bins[k][0])
  }

  /** e is offered to a neighbour of the cell handled from bin k. */
  ghost predicate NewEntry(g: Grid, w: Wave, k: nat, f: Entry)
    requires k < |w.bins| && w.bins[k] != []
  {
    var e := w.bins[k][0];
    Adjacent(f.cell, e.cell) && f.src == e.src && Offered(g, Marked(w, k), f.cell, e.src)
  }

  /** The bins after a step: one entry gone, the offered neighbours added in the bins of their distances. */
  lemma HandledEntries(g: Grid, w: Wave, k: nat)
    requires k < |w.bins| && w.bins[k] != [] && w.bins[k][0].cell !in w.source
    ensures Handle(g, w, k).source == w.source[w.bins[k][0].cell := w.bins[k][0].src]
    ensures |Handle(g, w, k).bins| == |w.bins|
    ensures forall j, f :: 0 <= j < |w.bins| && f in Handle(g, w, k).bins[j] ==>
      f in w.bins[j] || (NewEntry(g, w, k, f) && j == Level(f.cell, f.src))
    ensures forall j, f :: 0 <= j < |w.bins| && f in w.bins[j] ==>
      f in Handle(g, w, k).bins[j] || (j == k && f == w.bins[k][0])
    ensures forall f :: NewEntry(g, w, k, f) ==>
      Level(f.cell, f.src) < |w.bins| && f in Handle(g, w, k).bins[Level(f.cell, f.src)]
  {
    hide Distance2, Level, Adjacent, InMap, WithinRadius, Pop, EnqueueNeighbours;
    var e := w.bins[k][0];
    PopKeepsRest(w, k);
    PopEntries(w, k);
    var handled := Handle(g, w, k);
    assert handled == EnqueueNeighbours(g, Marked(w, k), e.cell, e.src);
    forall j, f | 0 <= j < |w.bins|
      ensures f in handled.bins[j] ==> f in w.bins[j] || (NewEntry(g, w, k, f) && j == Level(f.cell, f.src))
      ensures NewEntry(g, w, k, f) && j == Level(f.cell, f.src) ==> f in handled.bins[j]
    {
      NeighbourEntries(g, Marked(w, k), e.cell, e.src, j, f);
    }
    forall j, f | 0 <= j < |w.bins| && f in w.bins[j]
      ensures f in handled.bins[j] || (j == k && f == e)
    {
      NeighbourEntries(g, Marked(w, k), e.cell, e.src, j, f);
    }
  }

  /** Offered neighbours are farther from the obstacle than the cell just handled: they go into a later bin. */
  lemma NewEntriesAreLater(g: Grid, obstacles: seq<Cell>, w: Wave, k: nat, f: Entry)
    requires WaveInvariant(g, obstacles, w, k) && k < |w.bins| && w.bins[k] != []
    requires NewEntry(g, w, k, f)
    ensures Distance2(w.bins[k][0].cell, f.src) < Distance2(f.cell, f.src)
    ensures k < Level(f.cell, f.src)
    ensures EntryOk(g, obstacles, Marked(w, k), Level(f.cell, f.src), f)
  {
    hide Distance2, Level, Adjacent, InMap, WithinRadius, Pop;
    var e := w.bins[k][0];
    PopKeepsRest(w, k);
    assert EntryOk(g, obstacles, w, k, e);
    AdjacentSymmetric(e.cell, f.cell);
    NeighbourDistance(e.cell, f.cell, e.src);
    if Distance2(f.cell, e.src) < Distance2(e.cell, e.src) {
      NearerSettled(g, obstacles, w, k, e, f.cell);
      assert false;
    }
    LevelOrder(e.cell, e.src, f.cell, e.src);
    assert e.cell in Marked(w, k).source;
  }

  lemma MarkKeepsSettled(w: Wave, k: nat, v: Cell, s: Cell)
    requires k < |w.bins| && w.bins[k] != [] && w.bins[k][0].cell !in w.source
    ensures Settled(w, v, s) ==> Settled(Marked(w, k), v, s)
    ensures v == w.bins[k][0].cell && s == w.bins[k][0].src ==> Settled(Marked(w, k), v, s)
  {
    hide Distance2;
  }

  lemma HandleKeepsEntries(g: Grid, obstacles: seq<Cell>, w: Wave, k: nat)
    requires WaveInvariant(g, obstacles, w, k) && k < |w.bins| && w.bins[k] != []
    requires w.bins[k][0].cell !in w.source
    ensures DrainedBelow(Handle(g, w, k), k) && EntriesOk(g, obstacles, Handle(g, w, k))
    ensures HandledOk(g, obstacles, Handle(g, w, k), k)
  {
    hide Distance2, Level, Adjacent, InMap, WithinRadius, Pop, EnqueueNeighbours, Handle, NewEntry;
    var e := w.bins[k][0];
    var w' := Handle(g, w, k);
    HandledEntries(g, w, k);
    PopKeepsRest(w, k);
    assert EntryOk(g, obstacles, w, k, e);
    assert w'.source == Marked(w, k).source;
    forall j, f | 0 <= j < |w'.bins| && f in w'.bins[j]
      ensures k <= j && EntryOk(g, obstacles, w', j, f)
    {
      if f in w.bins[j] {
        assert EntryOk(g, obstacles, w, j, f);
        ParentStays(w, w', e, f);
      } else {
        NewEntriesAreLater(g, obstacles, w, k, f);
        ParentStays(Marked(w, k), w', e, f);
      }
    }
    forall j | 0 <= j < k ensures w'.bins[j] == [] {
      HasMember(w'.bins[j]);
    }
  }

  lemma HasMember<T>(s: seq<T>)
    ensures s != [] ==> exists f :: f in s
  {
    if s != [] {
      assert s[0] in s;
    }
  }

  lemma ParentStays(w: Wave, w': Wave, e: Entry, f: Entry)
    requires HasParent(w, f)
    requires w'.source == w.source || (e.cell !in w.source && w'.source == w.source[e.cell := e.src])
    ensures HasParent(w', f)
  {
    hide Distance2, Adjacent;
  }

  lemma HandleKeepsForwarded(g: Grid, obstacles: seq<Cell>, w: Wave, k: nat)
    requires WaveInvariant(g, obstacles, w, k) && k < |w.bins| && w.bins[k] != []
    requires w.bins[k][0].cell !in w.source
    ensures Forwarded(g, Handle(g, w, k))
  {
    hide Distance2, Level, Adjacent, InMap, WithinRadius, Pop, EnqueueNeighbours, Handle;
    var e := w.bins[k][0];
    var c, s := e.cell, e.src;
    var w' := Handle(g, w, k);
    HandledEntries(g, w, k);
    PopKeepsRest(w, k);
    assert w'.source == Marked(w, k).source;
    forall u, v | u in w'.source && Adjacent(u, v) && InMap(g, v) && WithinRadius(g, v, w'.source[u])
      ensures Settled(w', v, w'.source[u]) || Queued(w', v, w'.source[u])
    {
      if u == c {
        NewSourceForwarded(g, obstacles, w, k, v);
      } else {
        assert Settled(w, v, w.source[u]) || Queued(w, v, w.source[u]);
        MarkKeepsSettled(w, k, v, w.source[u]);
      }
    }
  }

  lemma NewSourceForwarded(g: Grid, obstacles: seq<Cell>, w: Wave, k: nat, v: Cell)
    requires WaveInvariant(g, obstacles, w, k) && k < |w.bins| && w.bins[k] != []
    requires w.bins[k][0].cell !in w.source
    requires Adjacent(w.bins[k][0].cell, v) && InMap(g, v) && WithinRadius(g, v, w.bins[k][0].src)
    ensures Settled(Handle(g, w, k), v, w.bins[k][0].src) || Queued(Handle(g, w, k), v, w.bins[k][0].src)
  {
    hide Distance2, Level, Adjacent, InMap, WithinRadius, Pop, EnqueueNeighbours, Handle;
    var e := w.bins[k][0];
    var c, s := e.cell, e.src;
    HandledEntries(g, w, k);
    PopKeepsRest(w, k);
    assert EntryOk(g, obstacles, w, k, e);
    AdjacentSymmetric(c, v);
    MarkKeepsSettled(w, k, v, s);
    NotOwnNeighbour(c);
    if v in w.source {
      if Distance2(v, s) < Distance2(c, s) {
        NearerSettled(g, obstacles, w, k, e, v);
      } else {
        LevelOrder(v, w.source[v], c, s);
        assert Settled(w, v, s);
      }
    } else {
      LevelInRange(g, v, s);
      assert NewEntry(g, w, k, Entry(v, s));
    }
  }

  lemma NotOwnNeighbour(c: Cell)
    ensures !Adjacent(c, c)
  {
  }

  lemma HandleKeepsBack(g: Grid, obstacles: seq<Cell>, w: Wave, k: nat)
    requires WaveInvariant(g, obstacles, w, k) && k < |w.bins| && w.bins[k] != []
    requires w.bins[k][0].cell !in w.source
    ensures BackSettled(g, Handle(g, w, k))
  {
    hide Distance2, Level, Adjacent, InMap, WithinRadius, Pop, EnqueueNeighbours, Handle;
    var e := w.bins[k][0];
    var w' := Handle(g, w, k);
    HandledEntries(g, w, k);
    PopKeepsRest(w, k);
    assert w'.source == Marked(w, k).source;
    forall u, v | u in w'.source && Adjacent(u, v) && InMap(g, v) && Distance2(v, w'.source[u]) < Recorded(w', u)
      ensures Settled(w', v, w'.source[u])
    {
      if u == e.cell {
        AdjacentSymmetric(u, v);
        NearerSettled(g, obstacles, w, k, e, v);
      }
      MarkKeepsSettled(w, k, v, w'.source[u]);
      assert Settled(w, v, w'.source[u]);
    }
  }

  /** Handling a cell keeps the invariant; in particular no bin up to k gains an entry. */
  lemma HandleKeeps(g: Grid, obstacles: seq<Cell>, w: Wave, k: nat)
    requires WaveInvariant(g, obstacles, w, k) && k < |w.bins| && w.bins[k] != []
    requires w.bins[k][0].cell !in w.source
    ensures WaveInvariant(g, obstacles, Handle(g, w, k), k)
  {
    hide Distance2, Level, Adjacent, InMap, WithinRadius, Pop, EnqueueNeighbours, Handle;
    var e := w.bins[k][0];
    var c, s := e.cell, e.src;
    var w' := Handle(g, w, k);
    HandledEntries(g, w, k);
    assert EntryOk(g, obstacles, w, k, e);
    forall f | NewEntry(g, w, k, f)
      ensures k < Level(f.cell, f.src) && Distance2(c, s) < Distance2(f.cell, s)
      ensures EntryOk(g, obstacles, Marked(w, k), Level(f.cell, f.src), f)
    {
      NewEntriesAreLater(g, obstacles, w, k, f);
    }
    PopKeepsRest(w, k);
    assert w'.source == Marked(w, k).source;
    HandleKeepsEntries(g, obstacles, w, k);
    HandleKeepsForwarded(g, obstacles, w, k);
    HandleKeepsBack(g, obstacles, w, k);
    ObstacleDistance(c);
    assert SeedsOk(obstacles, w') by {
      forall o | o in obstacles ensures (o in w'.source && w'.source[o] == o) || Queued(w', o, o) {
        assert (o in w.source && w.source[o] == o) || Queued(w, o, o);
      }
    }
  }

  lemma OfferKeepsBin(g: Grid, obstacles: seq<Cell>, w: Wave, k: nat, v: Wave, c: Cell)
    requires WaveInvariant(g, obstacles, w, k) && k < |w.bins| && w.bins[k] != []
    requires v.source == Marked(w, k).source && |v.bins| == |w.bins|
    requires Adjacent(c, w.bins[k][0].cell)
    ensures Offered(g, v, c, w.bins[k][0].src) ==> k < Level(c, w.bins[k][0].src)
    ensures Enqueue(g, v, c, w.bins[k][0].src).bins[k] == v.bins[k]
  {
    hide Level, Adjacent, WithinRadius, InMap;
    PopKeepsRest(w, k);
    if Offered(g, v, c, w.bins[k][0].src) {
      NewEntriesAreLater(g, obstacles, w, k, Entry(c, w.bins[k][0].src));
    }
  }

  /** The bin being drained never grows: a step only takes its first entry away. */
  lemma BinOnlyShrinks(g: Grid, obstacles: seq<Cell>, w: Wave, k: nat)
    requires WaveInvariant(g, obstacles, w, k) && k < |w.bins| && w.bins[k] != []
    ensures Handle(g, w, k).bins[k] == w.bins[k][1..]
  {
    hide Level, Adjacent, Enqueue, WaveInvariant;
    var e := w.bins[k][0];
    if e.cell !in w.source {
      var c, s, v := e.cell, e.src, Marked(w, k);
      var left := Enqueue(g, v, Cell(c.x - 1, c.y), s);
      var down := Enqueue(g, left, Cell(c.x, c.y - 1), s);
      var right := Enqueue(g, down, Cell(c.x + 1, c.y), s);
      AdjacentCells(c, Cell(c.x - 1, c.y));
      AdjacentCells(c, Cell(c.x, c.y - 1));
      AdjacentCells(c, Cell(c.x + 1, c.y));
      AdjacentCells(c, Cell(c.x, c.y + 1));
      OfferKeepsBin(g, obstacles, w, k, v, Cell(c.x - 1, c.y));
      OfferKeepsBin(g, obstacles, w, k, left, Cell(c.x, c.y - 1));
      OfferKeepsBin(g, obstacles, w, k, down, Cell(c.x + 1, c.y));
      OfferKeepsBin(g, obstacles, w, k, right, Cell(c.x, c.y + 1));
    }
  }

  // ---------- over the whole run ----------

  lemma StartInvariant(g: Grid, obstacles: seq<Cell>)
    requires ObstaclesInMap(g, obstacles)
    ensures WaveInvariant(g, obstacles, Start(g, obstacles), 0)
    ensures OrderOk(Start(g, obstacles))
  {
    hide Distance2, Rank, InMap, Adjacent;
    var w := Start(g, obstacles);
    forall o ensures Level(o, o) == 0 && WithinRadius(g, o, o) {
      ObstacleDistance(o);
      RankOfZero();
    }
    forall o | o in obstacles ensures Queued(w, o, o) {
      var j :| 0 <= j < |obstacles| && obstacles[j] == o;
      assert w.bins[0][j] == Entry(o, o);
    }
  }

  lemma RankOfZero()
    ensures Rank(0) == 0
  {
  }

  lemma AdvanceKeeps(g: Grid, obstacles: seq<Cell>, w: Wave, k: nat)
    requires WaveInvariant(g, obstacles, w, k) && k < |w.bins| && w.bins[k] == []
    ensures WaveInvariant(g, obstacles, w, k + 1)
  {
    hide Distance2, Level, Adjacent, InMap, WithinRadius;
  }

  lemma InvariantInMap(g: Grid, obstacles: seq<Cell>, w: Wave, k: nat)
    requires WaveInvariant(g, obstacles, w, k)
    ensures EntriesInMap(g, w)
  {
    hide Distance2, Level, Adjacent, InMap, WithinRadius;
    forall j, e | 0 <= j < |w.bins| && e in w.bins[j] ensures InMap(g, e.cell) {
      assert EntryOk(g, obstacles, w, j, e);
    }
  }

  /** Handling order: each handled cell once, by non-decreasing distance from its own source. */
  ghost predicate OrderOk(w: Wave) {
    && (forall u :: u in w.order <==> u in w.source)
    && (forall i, j :: 0 <= i < j < |w.order| ==> w.order[i] != w.order[j])
    && (forall i, j :: 0 <= i <= j < |w.order| ==>
          w.order[i] in w.source && w.order[j] in w.source && Recorded(w, w.order[i]) <= Recorded(w, w.order[j]))
  }

  lemma HandleKeepsOrder(g: Grid, obstacles: seq<Cell>, w: Wave, k: nat)
    requires WaveInvariant(g, obstacles, w, k) && OrderOk(w) && k < |w.bins| && w.bins[k] != []
    ensures OrderOk(Handle(g, w, k))
  {
    hide Distance2, Level, Adjacent, InMap, WithinRadius, EnqueueNeighbours;
    var e := w.bins[k][0];
    assert EntryOk(g, obstacles, w, k, e);
    if e.cell !in w.source {
      forall u | u in w.source ensures Recorded(w, u) <= Distance2(e.cell, e.src) {
        LevelOrder(u, w.source[u], e.cell, e.src);
      }
      AppendKeepsOrder(w, Handle(g, w, k), e);
    }
  }

  lemma AppendKeepsOrder(w: Wave, w': Wave, e: Entry)
    requires OrderOk(w) && e.cell !in w.source
    requires w'.order == w.order + [e.cell] && w'.source == w.source[e.cell := e.src]
    requires forall u :: u in w.source ==> Recorded(w, u) <= Distance2(e.cell, e.src)
    ensures OrderOk(w')
  {
    hide Distance2;
    assert forall u :: u in w.source ==> Recorded(w', u) == Recorded(w, u);
  }

  /** The run from bin k keeps the invariant and the order, and ends with every bin empty. */
  lemma {:induction false} DrainKeeps(g: Grid, obstacles: seq<Cell>, w: Wave, k: nat)
    requires WaveInvariant(g, obstacles, w, k) && OrderOk(w) && k <= |w.bins| && EntriesInMap(g, w)
    ensures var r := Drain(g, w, k);
      WaveInvariant(g, obstacles, r, |r.bins|) && OrderOk(r)
    decreases AllCells(g) - w.source.Keys, |w.bins| - k, if k < |w.bins| then |w.bins[k]| else 0
  {
    hide WaveInvariant, OrderOk, Handle, EntriesInMap, AllCells;
    if k < |w.bins| {
      if w.bins[k] == [] {
        AdvanceKeeps(g, obstacles, w, k);
        DrainKeeps(g, obstacles, w, k + 1);
      } else {
        HandleKeepsOrder(g, obstacles, w, k);
        HandleInMap(g, w, k);
        if w.bins[k][0].cell in w.source {
          PopKeeps(g, obstacles, w, k);
          HandleSeen(g, w, k);
        } else {
          HandleKeeps(g, obstacles, w, k);
          HandleShrinks(g, w, k);
        }
        DrainKeeps(g, obstacles, Handle(g, w, k), k);
      }
    }
  }

  lemma HandleSeen(g: Grid, w: Wave, k: nat)
    requires k < |w.bins| && w.bins[k] != [] && w.bins[k][0].cell in w.source
    ensures Handle(g, w, k) == Pop(w, k) && Pop(w, k).source == w.source
    ensures |Pop(w, k).bins| == |w.bins| && |Pop(w, k).bins[k]| < |w.bins[k]|
  {
  }
}
