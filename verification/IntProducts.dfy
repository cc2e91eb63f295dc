/** Products of integers behind a name, with the few facts the other proofs use about them. */
module IntProducts {

  function Mul(a: int, k: int): int {
    a * k
  }

  lemma MulNext(a: int, k: int)
    ensures Mul(a + 1, k) == Mul(a, k) + k && Mul(0, k) == 0
  {
  }

  lemma MulCommutes(a: int, k: int)
    ensures Mul(a, k) == Mul(k, a)
  {
  }

  lemma {:induction false} MulOrder(a: int, b: int, k: int)
    requires k >= 0 && a <= b
    ensures Mul(a, k) <= Mul(b, k)
    ensures k > 0 && a < b ==> Mul(a, k) < Mul(b, k)
    decreases b - a
  {
    hide Mul;
    if a < b {
      MulNext(b - 1, k);
      MulOrder(a, b - 1, k);
    }
  }
}
