/** Cells of a costmap and exact (squared) Euclidean distance between them. */
module GridGeometry {

  datatype Cell = Cell(x: int, y: int)

  function Abs(n: int): nat {
    if n < 0 then -n else n
  }

  /** The sum of the first n odd numbers. */
  function OddSum(n: nat): nat {
    if n == 0 then 0 else OddSum(n - 1) + 2 * n - 1
  }

  /** n * n, written so that one step along an axis stays linear; see SquareIsProduct. */
  function Square(n: int): nat {
    OddSum(Abs(n))
  }

  lemma {:induction false} OddSumIsProduct(n: nat)
    ensures OddSum(n) == n * n
  {
    if n != 0 {
      OddSumIsProduct(n - 1);
      assert OddSum(n) == (n - 1) * (n - 1) + 2 * n - 1;
    }
  }

  lemma SquareIsProduct(n: int)
    ensures Square(n) == n * n
  {
    OddSumIsProduct(Abs(n));
  }

  /** One step along an axis. */
  lemma SquareNext(n: int)
    ensures Square(n + 1) == Square(n) + 2 * n + 1
  {
    SquareIsProduct(n);
    SquareIsProduct(n + 1);
  }

  lemma {:induction false} SquareMonotone(a: int, b: int)
    requires Abs(a) <= Abs(b)
    ensures Square(a) <= Square(b)
    ensures Abs(a) < Abs(b) ==> Square(a) < Square(b)
    decreases Abs(b)
  {
    if Abs(a) < Abs(b) {
      SquareMonotone(a, Abs(b) - 1);
    }
  }

  lemma SquareIsZero(n: int)
    ensures Square(n) == 0 <==> n == 0
  {
  }

  lemma SquareReflectsOrder(a: int, b: int)
    requires Square(a) <= Square(b)
    ensures Abs(a) <= Abs(b)
  {
    if Abs(b) < Abs(a) {
      SquareMonotone(b, a);
    }
  }

  /** Squared norm of the offset (x, y). */
  function Norm(x: int, y: int): nat {
    Square(x) + Square(y)
  }

  /** Squared Euclidean distance. */
  function Distance2(a: Cell, b: Cell): nat {
    Norm(a.x - b.x, a.y - b.y)
  }

  function Manhattan(a: Cell, b: Cell): nat {
    Abs(a.x - b.x) + Abs(a.y - b.y)
  }

  /** The two cells share an edge. */
  predicate Adjacent(a: Cell, b: Cell) {
    Manhattan(a, b) == 1
  }
}
