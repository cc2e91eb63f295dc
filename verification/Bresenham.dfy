/** The line tracer of the costmap, on addresses as the source walks it and on cells as it is meant. */
module Bresenham {
  import opened GridGeometry
  import opened IntProducts
  import opened RealProducts
  import opened RowMajor

  /** Direction of a coordinate difference; zero counts as backward, which no step ever uses. */
  function Sign(d: int): int {
    if d > 0 then 1 else -1
  }

  /** A line to walk: dominant and minor lengths, and the cell steps along each. */
  datatype Line = Line(da: nat, db: nat, majorX: int, majorY: int, minorX: int, minorY: int)

  function LineTo(from: Cell, to: Cell): Line {
    var dx, dy := to.x - from.x, to.y - from.y;
    if Abs(dx) >= Abs(dy) then Line(Abs(dx), Abs(dy), Sign(dx), 0, 0, Sign(dy))
    else Line(Abs(dy), Abs(dx), 0, Sign(dy), Sign(dx), 0)
  }

  /** Whether the minor coordinate moves in this step, and the error carried on. */
  predicate Carries(l: Line, error: nat) {
    error + l.db >= l.da
  }

  function NextError(l: Line, error: nat): nat {
    if Carries(l, error) then error + l.db - l.da else error + l.db
  }

  function NextCell(l: Line, c: Cell, error: nat): Cell {
    if Carries(l, error) then Cell(c.x + l.majorX + l.minorX, c.y + l.majorY + l.minorY)
    else Cell(c.x + l.majorX, c.y + l.majorY)
  }

  /** The cells visited from c in n more steps, c included. */
  function Walk(l: Line, c: Cell, error: nat, n: nat): (cells: seq<Cell>)
    ensures |cells| == n + 1 && cells[0] == c
    decreases n
  {
    if n == 0 then [c] else [c] + Walk(l, NextCell(l, c, error), NextError(l, error), n - 1)
  }

  lemma WalkStep(l: Line, c: Cell, error: nat, n: nat)
    requires n > 0
    ensures Walk(l, c, error, n) == [c] + Walk(l, NextCell(l, c, error), NextError(l, error), n - 1)
  {
  }

  /** The cells of the line between two cells. */
  function LineCells(from: Cell, to: Cell): (cells: seq<Cell>)
    ensures cells != [] && cells[0] == from
  {
    var l := LineTo(from, to);
    Walk(l, from, l.da / 2, l.da)
  }

  lemma LineCellsIs(from: Cell, to: Cell)
    ensures var l := LineTo(from, to);
      LineCells(from, to) == Walk(l, from, l.da / 2, l.da)
  {
  }

  // ---------- where the walk goes ----------

  /** After i steps the minor coordinate has moved m times; the error keeps the books. */
  ghost predicate OnLine(l: Line, from: Cell, c: Cell, error: nat, i: nat, m: nat) {
    && c == Cell(from.x + Mul(i, l.majorX) + Mul(m, l.minorX), from.y + Mul(i, l.majorY) + Mul(m, l.minorY))
    && error + Mul(m, l.da) == l.da / 2 + Mul(i, l.db)
    && (if l.da > 0 then error < l.da else m == 0)
  }

  lemma StepOnLine(l: Line, from: Cell, c: Cell, error: nat, i: nat, m: nat) returns (m': nat)
    requires OnLine(l, from, c, error, i, m) && l.db <= l.da && i < l.da
    ensures m' == if Carries(l, error) then m + 1 else m
    ensures OnLine(l, from, NextCell(l, c, error), NextError(l, error), i + 1, m')
  {
    hide Mul;
    m' := if Carries(l, error) then m + 1 else m;
    MulNext(i, l.majorX);
    MulNext(i, l.majorY);
    MulNext(i, l.db);
    MulNext(m, l.minorX);
    MulNext(m, l.minorY);
    MulNext(m, l.da);
  }

  /** The minor coordinate never moves more than its full length, and exactly that by the last step. */
  lemma MinorBound(l: Line, from: Cell, c: Cell, error: nat, i: nat, m: nat)
    requires OnLine(l, from, c, error, i, m) && l.db <= l.da && i <= l.da && l.da > 0
    ensures m <= l.db
    ensures i == l.da ==> m == l.db
  {
    hide Mul;
    MulOrder(i, l.da, l.db);
    MulCommutes(l.da, l.db);
    MulNext(l.db, l.da);
    MulNext(l.db - 1, l.da);
    if m > l.db { MulOrder(l.db + 1, m, l.da); }
    if m < l.db { MulOrder(m, l.db - 1, l.da); }
  }

  // ---------- columns ----------

  predicate Between(a: int, x: int, b: int) {
    a <= x <= b || b <= x <= a
  }

  /** Two different cells that touch at an edge or a corner. */
  predicate Touching(a: Cell, b: Cell) {
    a != b && Abs(b.x - a.x) <= 1 && Abs(b.y - a.y) <= 1
  }

  /** Twice the area of the triangle from, to, c, signed: its size says how far c is off the line. */
  function Cross(from: Cell, to: Cell, c: Cell): int {
    Mul(c.x - from.x, to.y - from.y) - Mul(c.y - from.y, to.x - from.x)
  }

  /** Across the dominant direction c is at most half a cell off the ideal line between the two cells. */
  predicate CloseTo(from: Cell, to: Cell, c: Cell) {
    2 * Abs(Cross(from, to, c)) <= LineTo(from, to).da
  }

  /** Some cell lies in every column between a and b. */
  ghost predicate AllColumns(cells: seq<Cell>, a: int, b: int) {
    forall x :: Between(a, x, b) ==> exists k :: 0 <= k < |cells| && cells[k].x == x
  }

  ghost predicate AllRows(cells: seq<Cell>, a: int, b: int) {
    forall y :: Between(a, y, b) ==> exists k :: 0 <= k < |cells| && cells[k].y == y
  }

  lemma StillBetween(a: int, next: int, b: int, x: int)
    requires Between(a, x, b) && x != a && Between(a, next, b) && Abs(next - a) <= 1
    ensures Between(next, x, b)
  {
  }

  lemma ColumnsExtend(cells: seq<Cell>, c: Cell, next: Cell, to: Cell)
    requires AllColumns(cells, next.x, to.x) && Between(c.x, next.x, to.x) && Abs(next.x - c.x) <= 1
    ensures AllColumns([c] + cells, c.x, to.x)
  {
    hide Between;
    var all := [c] + cells;
    forall x | Between(c.x, x, to.x) ensures exists k :: 0 <= k < |all| && all[k].x == x {
      if x == c.x {
        assert all[0].x == x;
      } else {
        StillBetween(c.x, next.x, to.x, x);
        var k :| 0 <= k < |cells| && cells[k].x == x;
        assert all[k + 1].x == x;
      }
    }
  }

  lemma RowsExtend(cells: seq<Cell>, c: Cell, next: Cell, to: Cell)
    requires AllRows(cells, next.y, to.y) && Between(c.y, next.y, to.y) && Abs(next.y - c.y) <= 1
    ensures AllRows([c] + cells, c.y, to.y)
  {
    hide Between;
    var all := [c] + cells;
    forall y | Between(c.y, y, to.y) ensures exists k :: 0 <= k < |all| && all[k].y == y {
      if y == c.y {
        assert all[0].y == y;
      } else {
        StillBetween(c.y, next.y, to.y, y);
        var k :| 0 <= k < |cells| && cells[k].y == y;
        assert all[k + 1].y == y;
      }
    }
  }

  /** What holds for a walk that starts at c on the line. */
  ghost predicate Traces(cells: seq<Cell>, from: Cell, to: Cell, c: Cell) {
    && cells != [] && cells[0] == c && cells[|cells| - 1] == to
    && (forall k :: 0 <= k < |cells| ==> Between(from.x, cells[k].x, to.x) && Between(from.y, cells[k].y, to.y))
    && (forall k :: 0 <= k < |cells| ==> CloseTo(from, to, cells[k]))
    && (forall k :: 0 < k < |cells| ==> Touching(cells[k - 1], cells[k]))
    && AllColumns(cells, c.x, to.x) && AllRows(cells, c.y, to.y)
  }

  /** One more cell in front, touching the first and not beyond it as seen from the end. */
  lemma TracesExtends(cells: seq<Cell>, from: Cell, to: Cell, c: Cell, next: Cell)
    requires Traces(cells, from, to, next) && CloseTo(from, to, c) && Touching(c, next)
    requires Between(from.x, c.x, to.x) && Between(from.y, c.y, to.y)
    requires Between(c.x, next.x, to.x) && Between(c.y, next.y, to.y)
    ensures Traces([c] + cells, from, to, c)
  {
    hide CloseTo, Between, AllColumns, AllRows;
    ColumnsExtend(cells, c, next, to);
    RowsExtend(cells, c, next, to);
    var all := [c] + cells;
    assert forall k :: 0 < k < |all| ==> all[k] == cells[k - 1];
  }

  lemma TracesEnd(from: Cell, to: Cell)
    requires CloseTo(from, to, to)
    ensures Traces([to], from, to, to)
  {
    hide CloseTo;
    assert [to][0].x == to.x && [to][0].y == to.y;
  }

  /** A walk of the remaining steps traces the rest of the line. */
  lemma {:induction false} WalkVisits(l: Line, from: Cell, to: Cell, c: Cell, error: nat, i: nat, m: nat)
    requires l == LineTo(from, to) && OnLine(l, from, c, error, i, m) && i <= l.da
    ensures Traces(Walk(l, c, error, l.da - i), from, to, c)
    decreases l.da - i
  {
    hide Mul, Carries, NextCell, NextError, OnLine, LineTo, Traces, CloseTo, Touching, Between;
    LineLengths(from, to);
    CellOnLine(l, from, to, c, error, i, m);
    CellIsClose(l, from, to, c, error, i, m);
    if i == l.da {
      TracesEnd(from, to);
    } else {
      var next, nextError := NextCell(l, c, error), NextError(l, error);
      var m' := StepOnLine(l, from, c, error, i, m);
      WalkVisits(l, from, to, next, nextError, i + 1, m');
      CellOnLine(l, from, to, next, nextError, i + 1, m');
      StepIsForward(l, from, to, c, error);
      NextBetween(from, to, c, next);
      TracesExtends(Walk(l, next, nextError, l.da - i - 1), from, to, c, next);
    }
  }

  /** A step is to a touching cell, along the line. */
  lemma StepIsForward(l: Line, from: Cell, to: Cell, c: Cell, error: nat)
    requires l == LineTo(from, to) && l.da > 0
    ensures var next := NextCell(l, c, error);
      Touching(c, next) && Forward(from.x, to.x, c.x, next.x) && Forward(from.y, to.y, c.y, next.y)
  {
  }

  predicate Forward(a: int, b: int, x: int, x': int) {
    if b > a then x <= x' else x' <= x
  }

  lemma NextBetween(from: Cell, to: Cell, c: Cell, next: Cell)
    requires Between(from.x, c.x, to.x) && Between(from.y, c.y, to.y)
    requires Between(from.x, next.x, to.x) && Between(from.y, next.y, to.y)
    requires Forward(from.x, to.x, c.x, next.x) && Forward(from.y, to.y, c.y, next.y)
    ensures Between(c.x, next.x, to.x) && Between(c.y, next.y, to.y)
  {
  }

  /** The error is the distance off the line, kept within half a cell. */
  lemma CellIsClose(l: Line, from: Cell, to: Cell, c: Cell, error: nat, i: nat, m: nat)
    requires l == LineTo(from, to) && OnLine(l, from, c, error, i, m) && i <= l.da
    ensures CloseTo(from, to, c)
  {
    hide Mul;
    var dx, dy := to.x - from.x, to.y - from.y;
    MulUnits(i);
    MulUnits(m);
    MulSigns(i, l.db);
    MulSigns(m, l.da);
    MulNext(m, l.da);
    MulNext(0, l.db);
    if l.da == 0 { MulZero(i, m); }
  }

  lemma MulSigns(a: int, k: int)
    ensures Mul(-a, k) == -Mul(a, k) && Mul(a, -k) == -Mul(a, k) && Mul(-a, -k) == Mul(a, k)
  {
  }

  lemma MulZero(a: int, b: int)
    ensures Mul(a, 0) == 0 && Mul(b, 0) == 0
  {
  }

  lemma LineLengths(from: Cell, to: Cell)
    ensures LineTo(from, to).db <= LineTo(from, to).da
  {
  }

  lemma MulUnits(i: int)
    ensures Mul(i, 1) == i && Mul(i, -1) == -i && Mul(i, 0) == 0
  {
  }

  /** A cell on the line lies in the line's box; at the last step it is the end. */
  lemma CellOnLine(l: Line, from: Cell, to: Cell, c: Cell, error: nat, i: nat, m: nat)
    requires l == LineTo(from, to) && OnLine(l, from, c, error, i, m) && i <= l.da
    ensures Between(from.x, c.x, to.x) && Between(from.y, c.y, to.y)
    ensures i == l.da ==> c == to
  {
    hide Mul;
    LineLengths(from, to);
    if l.da > 0 { MinorBound(l, from, c, error, i, m); }
    MulUnits(i);
    MulUnits(m);
  }

  /**
   * The traced cells run from end to end through touching cells, stay in the line's box and within half a cell of the
   * ideal line, and skip no column and no row.
   */
  lemma LineVisits(from: Cell, to: Cell)
    ensures Traces(LineCells(from, to), from, to, from)
  {
    LineStarts(from, to);
    WalkVisits(LineTo(from, to), from, to, from, LineTo(from, to).da / 2, 0, 0);
  }

  /** The part of it that column-wise filling uses. */
  lemma LineSpans(from: Cell, to: Cell)
    ensures var cells := LineCells(from, to);
      && (forall k :: 0 <= k < |cells| ==> Between(from.x, cells[k].x, to.x) && Between(from.y, cells[k].y, to.y))
      && (forall x :: Between(from.x, x, to.x) ==> exists k :: 0 <= k < |cells| && cells[k].x == x)
  {
    hide Between, LineCells, CloseTo;
    LineVisits(from, to);
  }

  lemma LineStarts(from: Cell, to: Cell)
    ensures OnLine(LineTo(from, to), from, from, LineTo(from, to).da / 2, 0, 0)
  {
    MulUnits(0);
    hide Mul;
    MulNext(0, LineTo(from, to).majorX);
    MulNext(0, LineTo(from, to).majorY);
    MulNext(0, LineTo(from, to).minorX);
    MulNext(0, LineTo(from, to).minorY);
    MulNext(0, LineTo(from, to).da);
    MulNext(0, LineTo(from, to).db);
  }

  // ---------- the tracer of the source ----------

  function CellAt(width: nat, offset: int): Cell
    requires width > 0
  {
    var (x, y) := IndexToCell(width, offset);
    Cell(x, y)
  }

  /** Steps of the line as address offsets. */
  function OffsetOf(width: int, a: int, b: int): int {
    a + if b == 1 then width else if b == -1 then -width else 0
  }

  lemma OffsetOfStep(width: int, c: Cell, a: int, b: int)
    requires -1 <= b <= 1
    ensures Index(width, c.x + a, c.y + b) == Index(width, c.x, c.y) + OffsetOf(width, a, b)
  {
    IndexStep(width, c.x, c.y, a, b);
  }

  function MinNat(a: nat, b: nat): nat { if b < a then b else a }

  /** The inner tracer: walks addresses, at most maxLength steps, and pushes the cell of each. */
  method Bresenham2D(pushed: seq<Cell>, width: nat, absDa: nat, absDb: nat, errorStart: int, offsetA: int, offsetB: int,
                     offsetStart: int, maxLength: nat, ghost l: Line, ghost from: Cell, ghost to: Cell)
      returns (cells: seq<Cell>)
    requires l == LineTo(from, to) && absDa == l.da && absDb == l.db && errorStart == l.da / 2
    requires offsetA == OffsetOf(width, l.majorX, l.majorY) && offsetB == OffsetOf(width, l.minorX, l.minorY)
    requires offsetStart == Index(width, from.x, from.y)
    requires 0 <= from.x < width && 0 <= to.x < width && 0 <= from.y && 0 <= to.y
    ensures cells == pushed + LineCells(from, to)[..MinNat(maxLength, l.da) + 1]
  {
    hide Mul, OnLine, Index, IndexToCell, OffsetOf, LineTo, Walk, LineCells;
    cells := pushed;
    LineCellsIs(from, to);
    var errorB: int, offset: int := errorStart, offsetStart;
    ghost var c, m := from, 0;
    LineStarts(from, to);
    LineLengths(from, to);
    var end := MinNat(maxLength, absDa);
    var i := 0;
    while i < end
      invariant 0 <= i <= end && 0 <= errorB
      invariant OnLine(l, from, c, errorB, i, m) && offset == Index(width, c.x, c.y)
      invariant cells + Walk(l, c, errorB, l.da - i)[..end - i + 1] == pushed + LineCells(from, to)[..end + 1]
    {
      CellOnLine(l, from, to, c, errorB, i, m);
      IndexToCellInverts(width, c.x, c.y);
      ghost var next, nextError := NextCell(l, c, errorB), NextError(l, errorB);
      ghost var rest := Walk(l, next, nextError, l.da - i - 1);
      WalkStep(l, c, errorB, l.da - i);
      assert ([c] + rest)[..end - i + 1] == [c] + rest[..end - i];
      assert (cells + [c]) + rest[..end - i] == cells + ([c] + rest[..end - i]);
      m := StepOnLine(l, from, c, errorB, i, m);
      TwoSteps(l, from, to, width, c);
      cells := cells + [CellAt(width, offset)];
      offset := offset + offsetA;
      errorB := errorB + absDb;
      if errorB >= absDa {
        offset := offset + offsetB;
        errorB := errorB - absDa;
      }
      c := next;
      i := i + 1;
    }
    CellOnLine(l, from, to, c, errorB, i, m);
    IndexToCellInverts(width, c.x, c.y);
    assert Walk(l, c, errorB, l.da - i)[..end - i + 1] == [c];
    cells := cells + [CellAt(width, offset)];
  }

  lemma TwoSteps(l: Line, from: Cell, to: Cell, width: int, c: Cell)
    requires l == LineTo(from, to)
    ensures Index(width, c.x + l.majorX, c.y + l.majorY) == Index(width, c.x, c.y) + OffsetOf(width, l.majorX, l.majorY)
    ensures Index(width, c.x + l.majorX + l.minorX, c.y + l.majorY + l.minorY) ==
      Index(width, c.x, c.y) + OffsetOf(width, l.majorX, l.majorY) + OffsetOf(width, l.minorX, l.minorY)
  {
    hide Index;
    OffsetOfStep(width, c, l.majorX, l.majorY);
    OffsetOfStep(width, Cell(c.x + l.majorX, c.y + l.majorY), l.minorX, l.minorY);
  }

  /** Traces from a cell of the map along the line to another, at most the given share of it. */
  method TraceFrom(pushed: seq<Cell>, width: nat, start: Cell, to: Cell, steps: nat) returns (cells: seq<Cell>)
    requires 0 <= start.x < width && 0 <= to.x < width && 0 <= start.y && 0 <= to.y
    ensures cells == pushed + LineCells(start, to)[..MinNat(steps, LineTo(start, to).da) + 1]
  {
    hide LineCells, Index;
    var offset := Index(width, start.x, start.y);
    var dx, dy := to.x - start.x, to.y - start.y;
    var absDx, absDy := Abs(dx), Abs(dy);
    var offsetDx := Sign(dx);
    var offsetDy := if Sign(dy) == 1 then width as int else -(width as int);
    ghost var l := LineTo(start, to);
    if absDx >= absDy {
      cells := Bresenham2D(pushed, width, absDx, absDy, absDx / 2, offsetDx, offsetDy, offset, steps, l, start, to);
      return;
    }
    cells := Bresenham2D(pushed, width, absDy, absDx, absDy / 2, offsetDy, offsetDx, offset, steps, l, start, to);
  }

  /** Traces the line between two cells of the map, pushing every cell: neither a shortest nor a longest length. */
  method RaytraceLine(pushed: seq<Cell>, width: nat, x0: nat, y0: nat, x1: nat, y1: nat) returns (cells: seq<Cell>)
    requires x0 < width && x1 < width
    ensures cells == pushed + LineCells(Cell(x0, y0), Cell(x1, y1))
  {
    hide LineCells;
    var from, to := Cell(x0, y0), Cell(x1, y1);
    cells := TraceFrom(pushed, width, from, to, LineTo(from, to).da);
    LineCount(from, to);
  }

  lemma LineCount(from: Cell, to: Cell)
    ensures |LineCells(from, to)| == LineTo(from, to).da + 1
  {
  }

  // ---------- a shortest and a longest length ----------

  /** Where a coordinate stands after minLength of the way from a to b. */
  function Advanced(a: nat, b: nat, dist: real, minLength: nat): int
    requires dist > 0.0
  {
    (a as real + Times((b - a) as real / dist, minLength as real)).Floor
  }

  function StartCell(from: Cell, to: Cell, dist: real, minLength: nat): Cell
    requires 0 <= from.x && 0 <= from.y && 0 <= to.x && 0 <= to.y && dist >= 0.0
  {
    if dist > 0.0 then Cell(Advanced(from.x, to.x, dist, minLength), Advanced(from.y, to.y, dist, minLength)) else from
  }

  /** Steps along the dominant direction: the share of maxLength in the whole distance. */
  function StepLimit(da: nat, dist: real, maxLength: nat): (n: nat)
    requires dist >= 0.0
  {
    if dist == 0.0 || maxLength as real >= dist then da
    else
      ShareInRange(da, dist, maxLength);
      Times(maxLength as real / dist, da as real).Floor
  }

  lemma ShareInRange(da: nat, dist: real, maxLength: nat)
    requires dist > 0.0
    ensures Times(maxLength as real / dist, da as real) >= 0.0
  {
    hide Times;
    QuotientOrder(maxLength as real, dist, 0.0);
    TimesAdds(0.0, 0.0, dist);
    TimesNonNegative(maxLength as real / dist, da as real);
  }

  /** The start moved along the line lies between its ends. */
  lemma AdvancedBetween(a: nat, b: nat, dist: real, minLength: nat)
    requires dist > 0.0 && minLength as real <= dist
    ensures Between(a, Advanced(a, b, dist, minLength), b)
  {
    hide Times;
    var d := (b - a) as real;
    var f := d / dist;
    var l := minLength as real;
    TimesQuotient(d, dist);
    TimesSplits(f, l, dist - l);
    TimesAdds(0.0, 0.0, dist);
    QuotientOrder(d, dist, 0.0);
    if d >= 0.0 {
      TimesNonNegative(f, l);
      TimesNonNegative(f, dist - l);
    } else {
      NegativeShare(d, dist, l);
    }
  }

  /** The start is moved by the share of minLength in the distance, cut to a whole cell. */
  lemma AdvancedShare(a: nat, b: nat, dist: real, minLength: nat)
    requires dist > 0.0
    ensures var cells := (Advanced(a, b, dist, minLength) - a) as real;
      Times(cells, dist) <= Times((b - a) as real, minLength as real) < Times(cells + 1.0, dist)
  {
    hide Times;
    var f, l := (b - a) as real / dist, minLength as real;
    var cells := (Advanced(a, b, dist, minLength) - a) as real;
    TimesMonotone(cells, Times(f, l), dist);
    TimesMonotone(Times(f, l), cells + 1.0, dist);
    TimesSwap(f, l, dist);
    TimesQuotient((b - a) as real, dist);
  }

  lemma TimesSwap(f: real, l: real, d: real)
    ensures Times(Times(f, l), d) == Times(Times(f, d), l)
  {
  }

  /** The number of steps is the share of maxLength in the distance, cut to a whole number, but never beyond the end. */
  lemma StepShare(da: nat, dist: real, maxLength: nat)
    requires dist > 0.0
    ensures var n := StepLimit(da, dist, maxLength);
      && n <= da && Times(n as real, dist) <= Times(maxLength as real, da as real)
      && (n == da || Times(maxLength as real, da as real) < Times(n as real + 1.0, dist))
  {
    hide Times;
    var n := StepLimit(da, dist, maxLength);
    LimitWithin(da, dist, maxLength);
    var f, l := maxLength as real / dist, da as real;
    TimesSwap(f, l, dist);
    TimesQuotient(maxLength as real, dist);
    TimesMonotone(n as real, Times(f, l), dist);
    TimesMonotone(Times(f, l), n as real + 1.0, dist);
    if maxLength as real >= dist {
      ProductsOrder(l, dist, maxLength as real);
    }
  }

  lemma ProductsOrder(l: real, a: real, b: real)
    requires l >= 0.0 && a <= b
    ensures Times(l, a) <= Times(b, l)
  {
    hide Times;
    TimesSplits(l, a, b - a);
    TimesNonNegative(l, b - a);
    RealCommutes(l, b);
  }

  lemma RealCommutes(a: real, b: real)
    ensures Times(a, b) == Times(b, a)
  {
  }

  lemma NegativeShare(d: real, dist: real, l: real)
    requires dist > 0.0 && d < 0.0 && 0.0 <= l <= dist
    ensures d <= Times(d / dist, l) <= 0.0
  {
    hide Times;
    var f := d / dist;
    TimesQuotient(d, dist);
    TimesSplits(f, l, dist - l);
    TimesAdds(0.0, 0.0, dist);
    QuotientOrder(d, dist, 0.0);
    TimesAdds(f, -f, l);
    TimesAdds(f, -f, dist - l);
    TimesAdds(0.0, 0.0, l);
    TimesAdds(0.0, 0.0, dist - l);
    assert f + -f == 0.0;
    TimesNonNegative(-f, l);
    TimesNonNegative(-f, dist - l);
  }

  /**
   * The tracer with its two lengths, dist being the distance of the cells: nothing below the shortest; otherwise it
   * starts that far along and traces the line from there, no longer than the share of the longest in the distance.
   */
  method RaytraceLimited(pushed: seq<Cell>, width: nat, x0: nat, y0: nat, x1: nat, y1: nat,
                         dist: real, maxLength: nat, minLength: nat) returns (cells: seq<Cell>)
    requires x0 < width && x1 < width && dist >= 0.0
    ensures dist < minLength as real ==> cells == pushed
    ensures dist >= minLength as real ==>
      var from, to := Cell(x0, y0), Cell(x1, y1);
      var start := StartCell(from, to, dist, minLength);
      var n := StepLimit(LineTo(start, to).da, dist, maxLength);
      && Between(x0, start.x, x1) && Between(y0, start.y, y1) && n <= LineTo(start, to).da
      && cells == pushed + LineCells(start, to)[..n + 1]
  {
    hide LineCells, Times;
    if dist < minLength as real {
      return pushed;
    }
    var from, to := Cell(x0, y0), Cell(x1, y1);
    if dist > 0.0 {
      AdvancedBetween(x0, x1, dist, minLength);
      AdvancedBetween(y0, y1, dist, minLength);
    }
    var start := StartCell(from, to, dist, minLength);
    var n := StepLimit(LineTo(start, to).da, dist, maxLength);
    LimitWithin(LineTo(start, to).da, dist, maxLength);
    cells := TraceFrom(pushed, width, start, to, n);
  }

  lemma LimitWithin(da: nat, dist: real, maxLength: nat)
    requires dist >= 0.0
    ensures StepLimit(da, dist, maxLength) <= da
  {
    hide Times;
    if dist > 0.0 {
      var f := maxLength as real / dist;
      TimesAdds(1.0, 0.0, dist);
      TimesAdds(1.0, 0.0, da as real);
      QuotientOrder(maxLength as real, dist, 1.0);
      TimesAdds(f, 1.0 - f, da as real);
      if f < 1.0 { TimesNonNegative(1.0 - f, da as real); }
    }
  }

  /** Without a shortest length and with a longest one that does not bind it is the whole line. */
  lemma LimitsDefault(from: Cell, to: Cell, dist: real, maxLength: nat)
    requires 0 <= from.x && 0 <= from.y && 0 <= to.x && 0 <= to.y && 0.0 <= dist <= maxLength as real
    ensures StartCell(from, to, dist, 0) == from
    ensures LineCells(from, to)[..StepLimit(LineTo(from, to).da, dist, maxLength) + 1] == LineCells(from, to)
  {
    hide LineCells;
    LineCount(from, to);
    if dist > 0.0 {
      TimesSplits((to.x - from.x) as real / dist, 0.0, 0.0);
      TimesSplits((to.y - from.y) as real / dist, 0.0, 0.0);
    }
  }
}
