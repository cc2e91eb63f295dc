/** The rank table behind the inflation bins: offsets numbered by squared distance. */
module InflationLevels {
  import opened GridGeometry
  import opened Sorting

  datatype Offset = Offset(x: int, y: int)

  function Length2(p: Offset): nat {
    Norm(p.x, p.y)
  }

  /** m is the squared length of some integer offset. */
  ghost predicate IsNorm(m: int) {
    exists x, y :: Norm(x, y) == m
  }

  /** Number of distinct squared lengths below n: the level a bin of squared distance n must have. */
  ghost function Rank(n: nat): nat {
    if n == 0 then 0 else Rank(n - 1) + (if IsNorm(n - 1) then 1 else 0)
  }

  lemma {:induction false} RankGrows(m: nat, n: nat)
    requires m <= n
    ensures Rank(m) <= Rank(n)
    ensures IsNorm(m) && m < n ==> Rank(m) < Rank(n)
    decreases n - m
  {
    if m < n {
      RankGrows(m + 1, n);
    }
  }

  /** On lengths that occur, levels and squared distances are ordered alike. */
  lemma RankOrdersNorms(m: nat, n: nat)
    requires IsNorm(m) && IsNorm(n)
    ensures m < n <==> Rank(m) < Rank(n)
    ensures m == n <==> Rank(m) == Rank(n)
  {
    if m <= n { RankGrows(m, n); }
    if n <= m { RankGrows(n, m); }
  }

  /** Without a length in between, the next length has the next level. */
  lemma {:induction false} RankStep(m: nat, n: nat)
    requires m < n && IsNorm(m)
    requires forall k :: m < k < n ==> !IsNorm(k)
    ensures Rank(n) == Rank(m) + 1
    decreases n - m
  {
    if m + 1 < n {
      RankSkip(m + 1, n);
    }
  }

  lemma {:induction false} RankSkip(m: nat, n: nat)
    requires m <= n
    requires forall k :: m <= k < n ==> !IsNorm(k)
    ensures Rank(n) == Rank(m)
    decreases n - m
  {
    if m < n {
      assert !IsNorm(m);
      RankSkip(m + 1, n);
    }
  }

  lemma OffsetHasNorm(p: Offset)
    ensures IsNorm(Length2(p))
  {
  }

  const BY_LENGTH: Offset -> int := p => Length2(p)

  ghost predicate SortedByLength(points: seq<Offset>) {
    SortedBy(BY_LENGTH, points)
  }

  // ---------- building the table ----------

  predicate InDisc(x: int, y: int, r: nat) {
    Norm(x, y) <= Square(r)
  }

  lemma DiscInBox(x: int, y: int, r: nat)
    requires InDisc(x, y, r)
    ensures Abs(x) <= r && Abs(y) <= r
  {
    SquareReflectsOrder(x, r);
    SquareReflectsOrder(y, r);
  }

  /** points lists the offsets of the disc of radius r, and nothing else. */
  ghost predicate ListsDisc(points: seq<Offset>, r: nat) {
    && (forall p :: p in points ==> InDisc(p.x, p.y, r))
    && (forall x, y :: InDisc(x, y, r) ==> Offset(x, y) in points)
  }

  method DiscOffsets(r: int) returns (points: seq<Offset>)
    requires 0 <= r
    ensures ListsDisc(points, r)
  {
    hide Square;
    points := [];
    var y := -r;
    while y <= r
      invariant -r <= y <= r + 1
      invariant forall p :: p in points ==> InDisc(p.x, p.y, r)
      invariant forall a, b :: -r <= a <= r && -r <= b < y && InDisc(a, b, r) ==> Offset(a, b) in points
    {
      var x := -r;
      while x <= r
        invariant -r <= x <= r + 1
        invariant forall p :: p in points ==> InDisc(p.x, p.y, r)
        invariant forall a, b :: -r <= a <= r && -r <= b < y && InDisc(a, b, r) ==> Offset(a, b) in points
        invariant forall a :: -r <= a < x && InDisc(a, y, r) ==> Offset(a, y) in points
      {
        if InDisc(x, y, r) {
          points := points + [Offset(x, y)];
        }
        x := x + 1;
      }
      y := y + 1;
    }
    forall a, b | InDisc(a, b, r) ensures Offset(a, b) in points {
      DiscInBox(a, b, r);
    }
  }

  lemma SortedDisc(points: seq<Offset>, r: int)
    requires 0 <= r && ListsDisc(points, r)
    ensures ListsDisc(SortBy(BY_LENGTH, points), r) && SortedByLength(SortBy(BY_LENGTH, points))
  {
    SortSorts(BY_LENGTH, points);
    var sorted := SortBy(BY_LENGTH, points);
    forall p ensures p in sorted <==> p in points {
      assert p in multiset(sorted) <==> p in multiset(points);
    }
  }

  /** The table numbers every offset of the disc by its rank and leaves level 0 elsewhere. */
  ghost predicate IsLevelTable(table: array2<int>, r: int)
    reads table
  {
    && table.Length0 == 2 * r + 1 && table.Length1 == 2 * r + 1
    && forall i, j :: 0 <= i < table.Length0 && 0 <= j < table.Length1 ==>
         table[i, j] == if InDisc(i - r, j - r, r) then Rank(Norm(i - r, j - r)) else 0
  }

  lemma LengthsAreSorted(points: seq<Offset>, k: nat)
    requires SortedByLength(points) && k < |points|
    ensures Before(points, k) <= Length2(points[k]) && IsNorm(Before(points, k))
  {
    OffsetHasNorm(if k == 0 then Offset(0, 0) else points[k - 1]);
  }

  /** No length lies strictly between consecutive entries of the sorted disc. */
  lemma NoLengthBetween(points: seq<Offset>, k: nat, m: nat, r: int)
    requires 0 <= r && SortedByLength(points) && ListsDisc(points, r) && k < |points|
    requires IsNorm(m)
    ensures Length2(points[k]) <= m || m <= Before(points, k)
  {
    hide Square;
    var x, y :| Norm(x, y) == m;
    assert points[k] in points;
    if m <= Square(r) {
      assert InDisc(x, y, r);
      var i :| 0 <= i < |points| && points[i] == Offset(x, y);
    }
  }

  /** The length before position k of the walk over the sorted disc; the walk starts at (0, 0). */
  function Before(points: seq<Offset>, k: nat): nat
    requires k <= |points|
  {
    if k == 0 then Length2(Offset(0, 0)) else Length2(points[k - 1])
  }

  /** The next point of the sorted disc has the level of the previous one or the next level. */
  lemma NextLevel(points: seq<Offset>, k: nat, r: int)
    requires 0 <= r && SortedByLength(points) && ListsDisc(points, r) && k < |points|
    ensures Rank(Length2(points[k])) ==
            Rank(Before(points, k)) + (if Length2(points[k]) != Before(points, k) then 1 else 0)
  {
    var low, high := Before(points, k), Length2(points[k]);
    LengthsAreSorted(points, k);
    if low < high {
      forall m | low < m < high ensures !IsNorm(m) {
        if IsNorm(m) { NoLengthBetween(points, k, m, r); }
      }
      RankStep(low, high);
    }
  }

  lemma NormOnAxis(r: int)
    ensures Norm(r, 0) == Square(r)
  {
  }

  lemma LastLevel(points: seq<Offset>, r: nat)
    requires SortedByLength(points) && ListsDisc(points, r)
    ensures Before(points, |points|) == Square(r)
  {
    hide Square, Norm;
    NormOnAxis(r);
    assert InDisc(r, 0, r);
    var i :| 0 <= i < |points| && points[i] == Offset(r, 0);
    var last := points[|points| - 1];
    assert last in points && InDisc(last.x, last.y, r);
    assert i < |points| - 1 ==> Length2(points[i]) <= Length2(last);
  }

  /** Table entry of offset p once the first k points are numbered. */
  ghost function LevelAfter(points: seq<Offset>, k: nat, p: Offset): nat
    requires k <= |points|
  {
    if p in points[..k] then Rank(Length2(p)) else 0
  }

  lemma LevelAfterStep(points: seq<Offset>, k: nat, p: Offset)
    requires k < |points|
    ensures LevelAfter(points, k + 1, p) ==
            if p == points[k] then Rank(Length2(p)) else LevelAfter(points, k, p)
  {
    assert points[..k + 1] == points[..k] + [points[k]];
  }

  lemma LevelAfterAll(points: seq<Offset>, p: Offset, r: int)
    requires 0 <= r && ListsDisc(points, r)
    ensures LevelAfter(points, |points|, p) == if InDisc(p.x, p.y, r) then Rank(Norm(p.x, p.y)) else 0
  {
    assert points[..|points|] == points;
    assert p == Offset(p.x, p.y);
  }

  /** Numbers the sorted offsets in one pass, one level up whenever the length changes. */
  method NumberLevels(points: seq<Offset>, r: int) returns (level: nat, table: array2<int>)
    requires 0 <= r && SortedByLength(points) && ListsDisc(points, r)
    ensures fresh(table) && IsLevelTable(table, r)
    ensures level == Rank(Square(r))
  {
    LevelsStart(points);
    hide *;
    table := new int[2 * r + 1, 2 * r + 1]((i, j) => 0);
    var last := Offset(0, 0);
    level := 0;
    var k := 0;
    while k < |points|
      invariant 0 <= k <= |points|
      invariant Length2(last) == Before(points, k)
      invariant level == Rank(Before(points, k))
      invariant fresh(table) && table.Length0 == 2 * r + 1 && table.Length1 == 2 * r + 1
      invariant forall i, j :: 0 <= i < table.Length0 && 0 <= j < table.Length1 ==>
        table[i, j] == LevelAfter(points, k, Offset(i - r, j - r))
    {
      var p := points[k];
      NextLevel(points, k, r);
      PointInBox(points, k, r);
      if Length2(p) != Length2(last) {
        level := level + 1;
      }
      forall q { LevelAfterStep(points, k, q); }
      table[p.x + r, p.y + r] := level;
      last := p;
      k := k + 1;
      BeforeNext(points, k);
    }
    TableComplete(table, points, r);
    LastLevel(points, r);
  }

  lemma TableComplete(table: array2<int>, points: seq<Offset>, r: int)
    requires 0 <= r && ListsDisc(points, r)
    requires table.Length0 == 2 * r + 1 && table.Length1 == 2 * r + 1
    requires forall i, j :: 0 <= i < table.Length0 && 0 <= j < table.Length1 ==>
      table[i, j] == LevelAfter(points, |points|, Offset(i - r, j - r))
    ensures IsLevelTable(table, r)
  {
    hide Square;
    forall i, j | 0 <= i < table.Length0 && 0 <= j < table.Length1
      ensures table[i, j] == if InDisc(i - r, j - r, r) then Rank(Norm(i - r, j - r)) else 0
    {
      LevelAfterAll(points, Offset(i - r, j - r), r);
    }
  }

  lemma LevelsStart(points: seq<Offset>)
    ensures Length2(Offset(0, 0)) == Before(points, 0) && Rank(Before(points, 0)) == 0
    ensures forall p :: LevelAfter(points, 0, p) == 0
  {
  }

  lemma PointInBox(points: seq<Offset>, k: nat, r: int)
    requires 0 <= r && ListsDisc(points, r) && k < |points|
    ensures -r <= points[k].x <= r && -r <= points[k].y <= r
  {
    assert points[k] in points;
    DiscInBox(points[k].x, points[k].y, r);
  }

  lemma BeforeNext(points: seq<Offset>, k: nat)
    requires 0 < k <= |points|
    ensures Before(points, k) == Length2(points[k - 1])
  {
  }

  method GenerateIntegerDistances(cellInflationRadius: nat) returns (level: nat, table: array2<int>)
    ensures fresh(table) && IsLevelTable(table, cellInflationRadius + 2)
    ensures level == Rank(Square(cellInflationRadius + 2))
  {
    var r := cellInflationRadius + 2;
    var points := DiscOffsets(r);
    SortedDisc(points, r);
    level, table := NumberLevels(SortBy(BY_LENGTH, points), r);
  }
}
