/** Filling a polygon: trace the outline, sort it by column, fill each column between its lowest and highest cell. */
module ConvexFill {
  import opened GridGeometry
  import opened Bresenham

  // ---------- the outline ----------

  /** Cells of the lines between consecutive vertices. */
  function PathCells(path: seq<Cell>): seq<Cell> {
    if |path| < 2 then []
    else PathCells(path[..|path| - 1]) + LineCells(path[|path| - 2], path[|path| - 1])
  }

  /** Cells of the closed polygon. */
  function Outline(polygon: seq<Cell>): seq<Cell>
    requires polygon != []
  {
    PathCells(polygon + [polygon[0]])
  }

  predicate OnGrid(width: nat, polygon: seq<Cell>) {
    forall k :: 0 <= k < |polygon| ==> 0 <= polygon[k].x < width && 0 <= polygon[k].y
  }

  method PolygonOutlineCells(width: nat, polygon: seq<Cell>) returns (cells: seq<Cell>)
    requires polygon != [] && OnGrid(width, polygon)
    ensures cells == Outline(polygon)
  {
    hide LineCells;
    cells := [];
    var i := 0;
    assert polygon[..1] == [polygon[0]];
    while i < |polygon| - 1
      invariant 0 <= i <= |polygon| - 1
      invariant cells == PathCells(polygon[..i + 1])
    {
      cells := RaytraceLine(cells, width, polygon[i].x, polygon[i].y, polygon[i + 1].x, polygon[i + 1].y);
      assert polygon[..i + 2][..i + 1] == polygon[..i + 1];
      i := i + 1;
    }
    var lastIndex := |polygon| - 1;
    assert polygon[..i + 1] == polygon && (polygon + [polygon[0]])[..|polygon|] == polygon;
    cells := RaytraceLine(cells, width, polygon[lastIndex].x, polygon[lastIndex].y, polygon[0].x, polygon[0].y);
  }

  // ---------- columns of a list of cells ----------

  function ColumnCount(cells: seq<Cell>, x: int): nat {
    if cells == [] then 0
    else ColumnCount(cells[..|cells| - 1], x) + (if cells[|cells| - 1].x == x then 1 else 0)
  }

  lemma {:induction false} ColumnCountAdds(a: seq<Cell>, b: seq<Cell>, x: int)
    ensures ColumnCount(a + b, x) == ColumnCount(a, x) + ColumnCount(b, x)
    decreases |b|
  {
    if b == [] {
      assert a + b == a;
    } else {
      assert (a + b)[..|a + b| - 1] == a + b[..|b| - 1];
      ColumnCountAdds(a, b[..|b| - 1], x);
    }
  }

  lemma {:induction false} ColumnCountZero(cells: seq<Cell>, x: int)
    ensures ColumnCount(cells, x) == 0 <==> forall k :: 0 <= k < |cells| ==> cells[k].x != x
  {
    if cells != [] {
      ColumnCountZero(cells[..|cells| - 1], x);
    }
  }

  /** Number of edges of the path whose column range holds x. */
  function EdgeHits(path: seq<Cell>, x: int): nat {
    if |path| < 2 then 0
    else EdgeHits(path[..|path| - 1], x) + (if Between(path[|path| - 2].x, x, path[|path| - 1].x) then 1 else 0)
  }

  lemma {:induction false} HitsAreCells(path: seq<Cell>, x: int)
    ensures EdgeHits(path, x) <= ColumnCount(PathCells(path), x)
  {
    hide LineCells, Between;
    if |path| >= 2 {
      var init, from, to := path[..|path| - 1], path[|path| - 2], path[|path| - 1];
      HitsAreCells(init, x);
      ColumnCountAdds(PathCells(init), LineCells(from, to), x);
      ColumnCountZero(LineCells(from, to), x);
      LineSpans(from, to);
    }
  }

  /** Left of column x, or not right of it. */
  predicate Low(strict: bool, v: Cell, x: int) {
    if strict then v.x < x else v.x <= x
  }

  /** A path that changes sides of a column has an edge over it, and a second one if it comes back. */
  lemma {:induction false} SideChangesHit(path: seq<Cell>, x: int, strict: bool, j: nat)
    requires j < |path| && Low(strict, path[j], x) != Low(strict, path[0], x)
    ensures EdgeHits(path, x) >= (if Low(strict, path[|path| - 1], x) == Low(strict, path[0], x) then 2 else 1)
  {
    if |path| >= 2 {
      var init := path[..|path| - 1];
      if j < |init| {
        SideChangesHit(init, x, strict, j);
      } else if Low(strict, init[|init| - 1], x) != Low(strict, path[0], x) {
        SideChangesHit(init, x, strict, |init| - 1);
      }
    }
  }

  lemma {:induction false} SameColumnHits(path: seq<Cell>, x: int)
    requires forall k :: 0 <= k < |path| ==> path[k].x == x
    ensures path != [] ==> EdgeHits(path, x) == |path| - 1
  {
    if |path| >= 2 {
      SameColumnHits(path[..|path| - 1], x);
    }
  }

  /** A closed polygon of two or more vertices passes over every column it spans at least twice. */
  lemma ClosedPathHitsTwice(polygon: seq<Cell>, x: int, a: nat, b: nat)
    requires |polygon| >= 2 && a < |polygon| && b < |polygon| && polygon[a].x <= x <= polygon[b].x
    ensures EdgeHits(polygon + [polygon[0]], x) >= 2
  {
    var path := polygon + [polygon[0]];
    if exists j :: 0 <= j < |path| && Low(true, path[j], x) != Low(true, path[0], x) {
      var j :| 0 <= j < |path| && Low(true, path[j], x) != Low(true, path[0], x);
      SideChangesHit(path, x, true, j);
    } else if exists j :: 0 <= j < |path| && Low(false, path[j], x) != Low(false, path[0], x) {
      var j :| 0 <= j < |path| && Low(false, path[j], x) != Low(false, path[0], x);
      SideChangesHit(path, x, false, j);
    } else {
      assert path[a] == polygon[a] && path[b] == polygon[b];
      SameColumnHits(path, x);
    }
  }

  lemma {:induction false} PathCellsBetweenVertices(path: seq<Cell>, c: Cell)
    requires c in PathCells(path)
    ensures exists a, b :: 0 <= a < |path| && 0 <= b < |path| && path[a].x <= c.x <= path[b].x
  {
    hide LineCells;
    var init, from, to := path[..|path| - 1], path[|path| - 2], path[|path| - 1];
    if c in PathCells(init) {
      PathCellsBetweenVertices(init, c);
      var a, b :| 0 <= a < |init| && 0 <= b < |init| && init[a].x <= c.x <= init[b].x;
      assert path[a].x <= c.x <= path[b].x;
    } else {
      LineSpans(from, to);
      assert Between(from.x, c.x, to.x);
      assert path[|path| - 2] == from && path[|path| - 1] == to;
    }
  }

  /** Every column between two cells of the list holds at least two cells of it. */
  ghost predicate CoversTwice(cells: seq<Cell>) {
    forall a, b, x :: a in cells && b in cells && a.x <= x <= b.x ==> ColumnCount(cells, x) >= 2
  }

  /** The outline of a polygon passes every column it spans at least twice. */
  lemma OutlineCoversTwice(polygon: seq<Cell>)
    requires |polygon| >= 2
    ensures CoversTwice(Outline(polygon))
  {
    hide ColumnCount, PathCells, EdgeHits;
    var path := polygon + [polygon[0]];
    forall a, b, x | a in Outline(polygon) && b in Outline(polygon) && a.x <= x <= b.x
      ensures ColumnCount(Outline(polygon), x) >= 2
    {
      PathCellsBetweenVertices(path, a);
      PathCellsBetweenVertices(path, b);
      var i, i' :| 0 <= i < |path| && 0 <= i' < |path| && path[i].x <= a.x <= path[i'].x;
      var j, j' :| 0 <= j < |path| && 0 <= j' < |path| && path[j].x <= b.x <= path[j'].x;
      ClosedPathHitsTwice(polygon, x, if i < |polygon| then i else 0, if j' < |polygon| then j' else 0);
      HitsAreCells(path, x);
    }
  }

  // ---------- sorting by column ----------

  ghost predicate SortedByColumn(cells: seq<Cell>) {
    forall i, j :: 0 <= i < j < |cells| ==> cells[i].x <= cells[j].x
  }

  function SumX(cells: seq<Cell>): int {
    if cells == [] then 0 else SumX(cells[..|cells| - 1]) + cells[|cells| - 1].x
  }

  /** Sum of the sums of all prefixes: falls whenever a larger column moves one place to the right. */
  function PrefixSums(cells: seq<Cell>): int {
    if cells == [] then 0 else PrefixSums(cells[..|cells| - 1]) + SumX(cells)
  }

  lemma {:induction false} SwapLowers(a: seq<Cell>, p: Cell, q: Cell, b: seq<Cell>)
    ensures SumX(a + [q, p] + b) == SumX(a + [p, q] + b)
    ensures PrefixSums(a + [q, p] + b) == PrefixSums(a + [p, q] + b) - (p.x - q.x)
    decreases |b|
  {
    if b == [] {
      TwoMore(a, p, q);
      TwoMore(a, q, p);
      assert a + [q, p] + b == a + [q, p] && a + [p, q] + b == a + [p, q];
    } else {
      var init := b[..|b| - 1];
      SwapLowers(a, p, q, init);
      assert (a + [q, p] + b)[..|a + [q, p] + b| - 1] == a + [q, p] + init;
      assert (a + [p, q] + b)[..|a + [p, q] + b| - 1] == a + [p, q] + init;
    }
  }

  lemma TwoMore(a: seq<Cell>, p: Cell, q: Cell)
    ensures SumX(a + [p, q]) == SumX(a) + p.x + q.x
    ensures PrefixSums(a + [p, q]) == PrefixSums(a) + (SumX(a) + p.x) + (SumX(a) + p.x + q.x)
  {
    assert (a + [p, q])[..|a| + 1] == a + [p] && (a + [p])[..|a|] == a;
  }

  lemma {:induction false} SumsNonNegative(cells: seq<Cell>)
    requires forall c :: c in cells ==> c.x >= 0
    ensures SumX(cells) >= 0 && PrefixSums(cells) >= 0
  {
    if cells != [] {
      SumsNonNegative(cells[..|cells| - 1]);
    }
  }

  /** Swapping two neighbours: what it keeps, and how far it lowers the prefix sums. */
  lemma SwapNeighbours(a: seq<Cell>, p: Cell, q: Cell, b: seq<Cell>)
    ensures multiset(a + [q, p] + b) == multiset(a + [p, q] + b)
    ensures PrefixSums(a + [q, p] + b) == PrefixSums(a + [p, q] + b) - (p.x - q.x)
    ensures forall x :: ColumnCount(a + [q, p] + b, x) == ColumnCount(a + [p, q] + b, x)
  {
    hide PrefixSums, SumX, ColumnCount;
    SwapLowers(a, p, q, b);
    assert multiset([p, q]) == multiset([q, p]);
    forall x ensures ColumnCount(a + [q, p] + b, x) == ColumnCount(a + [p, q] + b, x) {
      ColumnCountAdds(a + [q, p], b, x);
      ColumnCountAdds(a + [p, q], b, x);
      ColumnCountAdds(a, [q, p], x);
      ColumnCountAdds(a, [p, q], x);
      ColumnCountAdds([p], [q], x);
      ColumnCountAdds([q], [p], x);
      assert [p] + [q] == [p, q] && [q] + [p] == [q, p];
    }
  }

  /** The same cells in another order. */
  ghost predicate Rearranged(a: seq<Cell>, b: seq<Cell>) {
    multiset(a) == multiset(b) && forall x :: ColumnCount(a, x) == ColumnCount(b, x)
  }

  function Swapped(cells: seq<Cell>, i: nat): seq<Cell>
    requires i + 1 < |cells|
  {
    cells[i := cells[i + 1]][i + 1 := cells[i]]
  }

  lemma SplitAt(cells: seq<Cell>, i: nat)
    requires i + 1 < |cells|
    ensures cells == cells[..i] + [cells[i], cells[i + 1]] + cells[i + 2..]
    ensures Swapped(cells, i) == cells[..i] + [cells[i + 1], cells[i]] + cells[i + 2..]
  {
  }

  /** A swap of the loop: still the same cells, and closer to the end. */
  lemma SwapStep(sorted: seq<Cell>, cells: seq<Cell>, i: nat)
    requires i + 1 < |sorted| && Rearranged(sorted, cells) && forall c :: c in cells ==> c.x >= 0
    ensures |sorted| == |cells| && Rearranged(Swapped(sorted, i), cells)
    ensures 0 <= PrefixSums(Swapped(sorted, i)) == PrefixSums(sorted) - (sorted[i].x - sorted[i + 1].x)
  {
    hide PrefixSums, ColumnCount;
    hide Swapped;
    var swapped := Swapped(sorted, i);
    SplitAt(sorted, i);
    SwapNeighbours(sorted[..i], sorted[i], sorted[i + 1], sorted[i + 2..]);
    SameMembers(sorted, cells);
    SameMembers(swapped, cells);
    SumsNonNegative(swapped);
  }

  lemma SameMembers(a: seq<Cell>, b: seq<Cell>)
    requires multiset(a) == multiset(b)
    ensures |a| == |b| && forall c :: c in a <==> c in b
  {
    assert |multiset(a)| == |multiset(b)|;
    forall c ensures c in a <==> c in b {
      assert c in a <==> c in multiset(a);
      assert c in b <==> c in multiset(b);
    }
  }

  /** The backtracking swap loop: it stops, and leaves a permutation sorted by column. */
  method SortByColumn(cells: seq<Cell>) returns (sorted: seq<Cell>)
    requires forall c :: c in cells ==> c.x >= 0
    ensures Rearranged(sorted, cells) && SortedByColumn(sorted)
  {
    hide PrefixSums, Rearranged;
    sorted := cells;
    var i := 0;
    Unchanged(cells);
    while i < |sorted| - 1
      invariant 0 <= i && (i < |sorted| || i == 0)
      invariant Rearranged(sorted, cells)
      invariant forall j, k :: 0 <= j < k <= i && k < |sorted| ==> sorted[j].x <= sorted[k].x
      decreases PrefixSums(sorted), |sorted| - i
    {
      SwapStep(sorted, cells, i);
      if sorted[i].x > sorted[i + 1].x {
        var swap := sorted[i];
        sorted := sorted[i := sorted[i + 1]];
        sorted := sorted[i + 1 := swap];
        if i > 0 {
          i := i - 1;
        }
      } else {
        i := i + 1;
      }
    }
  }

  lemma Unchanged(cells: seq<Cell>)
    ensures Rearranged(cells, cells)
  {
  }

  // ---------- filling the columns ----------

  /** c lies in the column-wise hull of the cells: between two of them in its own column. */
  ghost predicate InColumnHull(cells: seq<Cell>, c: Cell) {
    exists a, b :: a in cells && b in cells && a.x == c.x && b.x == c.x && a.y <= c.y <= b.y
  }

  /** The sorted cells from i on are those of columns x and beyond. */
  ghost predicate ColumnStarts(sorted: seq<Cell>, x: int, i: nat) {
    && i <= |sorted|
    && (forall k :: 0 <= k < i ==> sorted[k].x < x)
    && (forall k :: i <= k < |sorted| ==> sorted[k].x >= x)
  }

  /** Where a column with two or more cells starts, two of them stand next to each other. */
  lemma TwoAtStart(sorted: seq<Cell>, x: int, i: nat)
    requires SortedByColumn(sorted) && ColumnStarts(sorted, x, i) && ColumnCount(sorted, x) >= 2
    ensures i + 1 < |sorted| && sorted[i].x == x && sorted[i + 1].x == x
  {
    hide ColumnCount;
    var before, after := sorted[..i], sorted[i..];
    assert sorted == before + after;
    ColumnCountAdds(before, after, x);
    ColumnCountZero(before, x);
    if |after| < 2 || after[1].x != x {
      AtMostOne(after, x);
    }
  }

  lemma AtMostOne(cells: seq<Cell>, x: int)
    requires SortedByColumn(cells) && forall k :: 0 <= k < |cells| ==> cells[k].x >= x
    requires |cells| < 2 || cells[1].x != x
    ensures ColumnCount(cells, x) <= 1
  {
    hide ColumnCount;
    if cells == [] {
      ColumnCountZero(cells, x);
    } else {
      var first, rest := cells[..1], cells[1..];
      assert cells == first + rest;
      ColumnCountAdds(first, rest, x);
      forall k | 0 <= k < |rest| ensures rest[k].x != x {
        assert rest[k] == cells[k + 1] && cells[1].x <= cells[k + 1].x;
      }
      ColumnCountZero(rest, x);
      ColumnCountOfOne(first[0], x);
      assert first == [first[0]];
    }
  }

  lemma ColumnCountOfOne(c: Cell, x: int)
    ensures ColumnCount([c], x) <= 1
  {
    assert [c][..0] == [] && ColumnCount([], x) == 0;
  }

  /** Lowest and highest cell of column x among sorted[start..i]. */
  ghost predicate Extremes(sorted: seq<Cell>, x: int, start: nat, i: nat, minPt: Cell, maxPt: Cell) {
    && start < i <= |sorted|
    && (exists k :: start <= k < i && sorted[k] == minPt) && (exists k :: start <= k < i && sorted[k] == maxPt)
    && forall k :: start <= k < i ==> sorted[k].x == x && minPt.y <= sorted[k].y <= maxPt.y
  }

  /** With the column at its end, its hull is the cells from the lowest to the highest. */
  lemma ColumnHull(sorted: seq<Cell>, x: int, start: nat, i: nat, minPt: Cell, maxPt: Cell, c: Cell)
    requires ColumnStarts(sorted, x, start) && ColumnStarts(sorted, x + 1, i)
    requires Extremes(sorted, x, start, i, minPt, maxPt) && c.x == x
    ensures InColumnHull(sorted, c) <==> minPt.y <= c.y <= maxPt.y
  {
    var k :| start <= k < i && sorted[k] == minPt;
    var l :| start <= l < i && sorted[l] == maxPt;
    assert minPt in sorted && maxPt in sorted;
    if InColumnHull(sorted, c) {
      var a, b :| a in sorted && b in sorted && a.x == c.x && b.x == c.x && a.y <= c.y <= b.y;
      var m :| 0 <= m < |sorted| && sorted[m] == a;
      var n :| 0 <= n < |sorted| && sorted[n] == b;
    }
  }

  /** added holds exactly the hull of the columns from minX up to x, x not included. */
  ghost predicate FilledTo(sorted: seq<Cell>, added: seq<Cell>, minX: int, x: int) {
    forall c :: c in added <==> minX <= c.x < x && InColumnHull(sorted, c)
  }

  /** Scans column x from its first two cells on; the list may already have grown by the columns filled before. */
  method ScanColumn(cells: seq<Cell>, start: nat, x: int, ghost sorted: seq<Cell>)
      returns (minPt: Cell, maxPt: Cell, i: nat)
    requires SortedByColumn(sorted) && ColumnStarts(sorted, x, start) && start + 1 < |sorted|
    requires sorted[start].x == x && sorted[start + 1].x == x
    requires sorted <= cells && (|cells| > |sorted| ==> cells[|sorted|].x < x)
    ensures ColumnStarts(sorted, x + 1, i) && Extremes(sorted, x, start, i, minPt, maxPt)
  {
    hide SortedByColumn, ColumnStarts, Extremes;
    i := start;
    assert sorted[start] == cells[start] && sorted[start + 1] == cells[start + 1];
    if cells[i].y < cells[i + 1].y {
      minPt, maxPt := cells[i], cells[i + 1];
    } else {
      minPt, maxPt := cells[i + 1], cells[i];
    }
    i := i + 2;
    ExtremesOfTwo(sorted, x, start);
    while i < |cells| && cells[i].x == x
      invariant start + 2 <= i <= |sorted|
      invariant Extremes(sorted, x, start, i, minPt, maxPt)
    {
      assert i < |sorted| && cells[i] == sorted[i];
      ExtremesExtend(sorted, x, start, i, minPt, maxPt);
      if cells[i].y < minPt.y {
        minPt := cells[i];
      } else if cells[i].y > maxPt.y {
        maxPt := cells[i];
      }
      i := i + 1;
    }
    assert i < |sorted| ==> cells[i] == sorted[i];
    ColumnEnds(sorted, x, start, i, minPt, maxPt);
  }

  lemma ExtremesOfTwo(sorted: seq<Cell>, x: int, start: nat)
    requires start + 1 < |sorted| && sorted[start].x == x && sorted[start + 1].x == x
    ensures var a, b := sorted[start], sorted[start + 1];
      Extremes(sorted, x, start, start + 2, if a.y < b.y then a else b, if a.y < b.y then b else a)
  {
  }

  /** One more cell of the column, lower, higher or in between; extremes are in order. */
  lemma ExtremesExtend(sorted: seq<Cell>, x: int, start: nat, i: nat, minPt: Cell, maxPt: Cell)
    requires Extremes(sorted, x, start, i, minPt, maxPt) && i < |sorted| && sorted[i].x == x
    ensures var c := sorted[i];
      Extremes(sorted, x, start, i + 1, if c.y < minPt.y then c else minPt,
               if c.y >= minPt.y && c.y > maxPt.y then c else maxPt)
  {
    assert minPt.y <= maxPt.y;
  }

  lemma ColumnEnds(sorted: seq<Cell>, x: int, start: nat, i: nat, minPt: Cell, maxPt: Cell)
    requires SortedByColumn(sorted) && ColumnStarts(sorted, x, start) && Extremes(sorted, x, start, i, minPt, maxPt)
    requires i == |sorted| || sorted[i].x != x
    ensures ColumnStarts(sorted, x + 1, i)
  {
  }

  /** Pushes the cells of column x from y0 to y1. */
  method PushColumn(cells: seq<Cell>, x: int, y0: int, y1: int) returns (grown: seq<Cell>, ghost column: seq<Cell>)
    requires y0 <= y1
    ensures grown == cells + column && column != []
    ensures forall c: Cell :: c in column <==> c.x == x && y0 <= c.y <= y1
  {
    grown, column := cells, [];
    var y := y0;
    while y <= y1
      invariant y0 <= y <= y1 + 1 && grown == cells + column
      invariant forall c :: c in column <==> c.x == x && y0 <= c.y < y
    {
      grown := grown + [Cell(x, y)];
      column := column + [Cell(x, y)];
      y := y + 1;
    }
    assert Cell(x, y0) in column;
  }

  /** The columns of the sorted outline filled one after the other, while the list being read grows. */
  method FillColumns(sorted: seq<Cell>) returns (cells: seq<Cell>)
    requires sorted != [] && SortedByColumn(sorted) && CoversTwice(sorted)
    ensures sorted <= cells
    ensures forall c :: c in cells <==> InColumnHull(sorted, c)
  {
    hide ColumnCount, InColumnHull, Extremes, SortedByColumn, CoversTwice, ColumnStarts, FilledTo;
    FillStarts(sorted);
    cells := sorted;
    ghost var added: seq<Cell> := [];
    var i: nat := 0;
    var minX, maxX := cells[0].x, cells[|cells| - 1].x;
    var x := minX;
    while x <= maxX
      invariant minX <= x <= maxX + 1 && cells == sorted + added
      invariant ColumnStarts(sorted, x, i)
      invariant FilledTo(sorted, added, minX, x)
      invariant if x == minX then added == [] else added != [] && added[0].x == minX
    {
      SpannedTwice(sorted, x);
      TwoAtStart(sorted, x, i);
      if i >= |cells| - 1 {
        break;
      }
      var start := i;
      var minPt, maxPt;
      minPt, maxPt, i := ScanColumn(cells, start, x, sorted);
      ExtremesInOrder(sorted, x, start, i, minPt, maxPt);
      ghost var column;
      cells, column := PushColumn(cells, x, minPt.y, maxPt.y);
      forall c: Cell | c.x == x ensures InColumnHull(sorted, c) <==> minPt.y <= c.y <= maxPt.y {
        ColumnHull(sorted, x, start, i, minPt, maxPt, c);
      }
      assert sorted + added + column == sorted + (added + column);
      FilledOneMore(sorted, added, column, minX, x);
      assert column[0] in column;
      added := added + column;
      x := x + 1;
    }
    forall c ensures c in cells <==> InColumnHull(sorted, c) {
      HullColumns(sorted, minX, maxX, c);
      FilledIs(sorted, added, minX, maxX + 1, c);
    }
  }

  lemma FillStarts(sorted: seq<Cell>)
    requires sorted != [] && SortedByColumn(sorted)
    ensures ColumnStarts(sorted, sorted[0].x, 0) && FilledTo(sorted, [], sorted[0].x, sorted[0].x)
  {
  }

  lemma SpannedTwice(sorted: seq<Cell>, x: int)
    requires sorted != [] && CoversTwice(sorted) && sorted[0].x <= x <= sorted[|sorted| - 1].x
    ensures ColumnCount(sorted, x) >= 2
  {
    hide ColumnCount;
    assert sorted[0] in sorted && sorted[|sorted| - 1] in sorted;
  }

  lemma FilledIs(sorted: seq<Cell>, added: seq<Cell>, minX: int, x: int, c: Cell)
    requires FilledTo(sorted, added, minX, x)
    ensures c in added <==> minX <= c.x < x && InColumnHull(sorted, c)
  {
  }

  lemma ExtremesInOrder(sorted: seq<Cell>, x: int, start: nat, i: nat, minPt: Cell, maxPt: Cell)
    requires Extremes(sorted, x, start, i, minPt, maxPt)
    ensures minPt.y <= maxPt.y
  {
  }

  lemma FilledOneMore(sorted: seq<Cell>, added: seq<Cell>, column: seq<Cell>, minX: int, x: int)
    requires FilledTo(sorted, added, minX, x) && minX <= x
    requires forall c :: c in column <==> c.x == x && InColumnHull(sorted, c)
    ensures FilledTo(sorted, added + column, minX, x + 1)
  {
    hide InColumnHull;
  }

  /** Hull cells lie in the spanned columns, and every cell is in the hull. */
  lemma HullColumns(sorted: seq<Cell>, minX: int, maxX: int, c: Cell)
    requires sorted != [] && SortedByColumn(sorted) && minX == sorted[0].x && maxX == sorted[|sorted| - 1].x
    ensures InColumnHull(sorted, c) ==> minX <= c.x <= maxX
    ensures c in sorted ==> InColumnHull(sorted, c)
  {
    if InColumnHull(sorted, c) {
      var a, b :| a in sorted && b in sorted && a.x == c.x && b.x == c.x && a.y <= c.y <= b.y;
      var m :| 0 <= m < |sorted| && sorted[m] == a;
    }
  }

  lemma CoversTwicePermutes(a: seq<Cell>, b: seq<Cell>)
    requires Rearranged(b, a) && CoversTwice(a)
    ensures multiset(a) == multiset(b) && CoversTwice(b)
  {
    hide ColumnCount;
    SameMembers(a, b);
  }

  lemma HullPermutes(a: seq<Cell>, b: seq<Cell>, c: Cell)
    requires multiset(a) == multiset(b)
    ensures InColumnHull(a, c) == InColumnHull(b, c)
  {
    SameMembers(a, b);
  }

  lemma OutlineOnGrid(width: nat, polygon: seq<Cell>, c: Cell)
    requires polygon != [] && OnGrid(width, polygon) && c in Outline(polygon)
    ensures 0 <= c.x < width
  {
    hide PathCells;
    PathCellsBetweenVertices(polygon + [polygon[0]], c);
  }

  lemma OutlineNotEmpty(polygon: seq<Cell>)
    requires polygon != []
    ensures Outline(polygon) != []
  {
    hide LineCells;
    var path := polygon + [polygon[0]];
    assert |LineCells(path[|path| - 2], path[|path| - 1])| > 0;
  }

  /**
   The cells of a polygon: nothing below three vertices, otherwise exactly the cells between the lowest and the
   highest outline cell of each column.
   */
  method ConvexFillCells(width: nat, polygon: seq<Cell>) returns (cells: seq<Cell>)
    requires OnGrid(width, polygon)
    ensures |polygon| < 3 ==> cells == []
    ensures |polygon| >= 3 ==> forall c :: c in cells <==> InColumnHull(Outline(polygon), c)
  {
    hide Outline, InColumnHull, CoversTwice, Rearranged;
    if |polygon| < 3 {
      return [];
    }
    var outline := PolygonOutlineCells(width, polygon);
    OutlineCoversTwice(polygon);
    OutlineNotEmpty(polygon);
    forall c | c in outline ensures c.x >= 0 {
      OutlineOnGrid(width, polygon, c);
    }
    var sorted := SortByColumn(outline);
    CoversTwicePermutes(outline, sorted);
    SameMembers(sorted, outline);
    cells := FillColumns(sorted);
    forall c ensures InColumnHull(sorted, c) <==> InColumnHull(outline, c) {
      HullPermutes(sorted, outline, c);
    }
  }
}
