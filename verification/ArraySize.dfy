/** The growth of the loop's dynamic arrays (`array_nextsize`). */
module ArraySize {
  const MALLOC_ROUND := 4096
  const POINTER_SIZE := 8

  /** Rounds down to a multiple of MALLOC_ROUND: masks the low bits. */
  function MaskRound(x: nat): (r: nat)
    ensures r <= x < r + MALLOC_ROUND && r % MALLOC_ROUND == 0
  {
    x - x % MALLOC_ROUND
  }

  /** A size that holds `cnt` elements and is larger than `cur`, so that growth ends. */
  method NextSize(elem: nat, cur: nat, cnt: nat) returns (n: nat)
    requires elem > 0
    ensures n >= cnt && n > cur
  {
    n := 2 * (cur + 1);
    while cnt > n
      invariant n > cur
      decreases cnt - n
    {
      n := 2 * n;
    }
    if elem * n > MALLOC_ROUND - POINTER_SIZE * 4 {
      var bytes := MaskRound(elem * n + elem + (MALLOC_ROUND - 1) + POINTER_SIZE * 4) - POINTER_SIZE * 4;
      DivAtLeast(bytes, elem, n);
      n := bytes / elem;
    }
  }

  lemma DivAtLeast(x: nat, d: nat, q: nat)
    requires d > 0 && x >= d * q
    ensures x / d >= q
  {
    if x / d < q {
      assert x == d * (x / d) + x % d;
      MulMono(d, x / d + 1, q);
    }
  }

  lemma MulMono(d: nat, a: nat, b: nat)
    requires a <= b
    ensures d * a <= d * b
  {
  }
}
