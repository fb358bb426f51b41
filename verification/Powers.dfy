/** Powers of two. */
module Powers {
  /** `q` times the `k`-th power of two. */
  function Shift(q: nat, k: nat): (r: nat)
    ensures q > 0 ==> r > 0
  {
    if k == 0 then q else 2 * Shift(q, k - 1)
  }

  function Pow2(k: nat): nat {
    Shift(1, k)
  }

  lemma {:induction false} PowLess(k: nat, n: nat)
    requires k < n
    ensures Pow2(k) < Pow2(n)
    decreases n
  {
    if k < n - 1 {
      PowLess(k, n - 1);
    }
  }
}
