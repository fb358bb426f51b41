/** Rounding an address up with the bit mask of a power of two. */
module Alignment {
  import opened Powers

  const WORD_BITS := 64

  /** The bitwise `&` of two unsigned numbers. */
  function And(x: nat, y: nat): nat {
    if x == 0 || y == 0 then 0
    else 2 * And(x / 2, y / 2) + if x % 2 == 1 && y % 2 == 1 then 1 else 0
  }

  /** The low `k` bits, and the number above them. */
  function Low(x: nat, k: nat): (r: nat)
    ensures r < Pow2(k)
    decreases k
  {
    if k == 0 then 0 else 2 * Low(x / 2, k - 1) + x % 2
  }

  function High(x: nat, k: nat): nat
    decreases k
  {
    if k == 0 then x else High(x / 2, k - 1)
  }

  /** A multiple of the `k`-th power of two. */
  ghost predicate Aligned(x: nat, k: nat) {
    exists q: nat :: x == Shift(q, k)
  }

  lemma {:induction false} LowOfNothing(k: nat)
    ensures Low(0, k) == 0
  {
    if k > 0 {
      LowOfNothing(k - 1);
    }
  }

  /** Masking with a power of two less one leaves the low bits. */
  lemma {:induction false} MaskIsLow(x: nat, k: nat)
    ensures And(x, Pow2(k) - 1) == Low(x, k)
    decreases k
  {
    if x == 0 {
      LowOfNothing(k);
    } else if k > 0 {
      MaskIsLow(x / 2, k - 1);
      var half := Pow2(k - 1);
      assert (2 * half - 1) / 2 == half - 1 && (2 * half - 1) % 2 == 1;
    }
  }

  lemma {:induction false} ShiftAdd(a: nat, b: nat, k: nat)
    ensures Shift(a + b, k) == Shift(a, k) + Shift(b, k)
  {
    if k > 0 {
      ShiftAdd(a, b, k - 1);
    }
  }

  lemma {:induction false} ShiftTwice(q: nat, k: nat, n: nat)
    ensures Shift(q, k + n) == Shift(Shift(q, n), k)
    decreases k
  {
    if k > 0 {
      ShiftTwice(q, k - 1, n);
    }
  }

  lemma {:induction false} ShiftNothing(k: nat)
    ensures Shift(0, k) == 0
  {
    if k > 0 {
      ShiftNothing(k - 1);
    }
  }

  lemma {:induction false} HighLow(x: nat, k: nat)
    ensures x == Shift(High(x, k), k) + Low(x, k)
    decreases k
  {
    if k > 0 {
      HighLow(x / 2, k - 1);
    }
  }

  lemma {:induction false} LowUnique(x: nat, k: nat, q: nat, r: nat)
    requires x == Shift(q, k) + r && r < Pow2(k)
    ensures Low(x, k) == r
    decreases k
  {
    if k > 0 {
      var t := Shift(q, k - 1);
      assert x / 2 == t + r / 2 && x % 2 == r % 2;
      LowUnique(x / 2, k - 1, q, r / 2);
    }
  }

  /** `a - b` on unsigned words. */
  function WrapSub(a: nat, b: nat): nat
    requires a < Pow2(WORD_BITS) && b < Pow2(WORD_BITS)
  {
    if b <= a then a - b else Pow2(WORD_BITS) + a - b
  }

  /** How far the code moves an address on. */
  function Padding(mem: nat, alignment: nat): nat
    requires 0 < alignment < Pow2(WORD_BITS) && mem < Pow2(WORD_BITS)
  {
    if And(mem, alignment - 1) != 0 then And(WrapSub(alignment, mem), alignment - 1) else 0
  }

  lemma Distance(mem: nat, k: nat)
    requires k < WORD_BITS && mem < Pow2(WORD_BITS) && Pow2(k) < Pow2(WORD_BITS) && Low(mem, k) != 0
    ensures Low(WrapSub(Pow2(k), mem), k) == Pow2(k) - Low(mem, k)
  {
    hide Low, High, Shift;
    var a, q, r, w := Pow2(k), High(mem, k), Low(mem, k), Pow2(WORD_BITS - k);
    var d := WrapSub(a, mem);
    HighLow(mem, k);
    ShiftTwice(1, k, WORD_BITS - k);
    if mem <= a {
      ShiftNothing(k);
      if q > 0 {
        ShiftAdd(1, q - 1, k);
      }
      LowUnique(d, k, 0, a - r);
    } else {
      if w < q {
        ShiftAdd(w, q - w, k);
      }
      ShiftAdd(w - q, q, k);
      LowUnique(d, k, w - q, a - r);
    }
  }

  /** The address moves to the next multiple of the alignment. */
  lemma PaddingAligns(mem: nat, k: nat)
    requires k < WORD_BITS && mem < Pow2(WORD_BITS)
    ensures Pow2(k) < Pow2(WORD_BITS) && Padding(mem, Pow2(k)) < Pow2(k)
    ensures Aligned(mem + Padding(mem, Pow2(k)), k)
  {
    PowLess(k, WORD_BITS);
    hide Low, And, High, Shift;
    var a, q, r := Pow2(k), High(mem, k), Low(mem, k);
    HighLow(mem, k);
    MaskIsLow(mem, k);
    if r != 0 {
      MaskIsLow(WrapSub(a, mem), k);
      Distance(mem, k);
      ShiftAdd(q, 1, k);
      assert mem + (a - r) == Shift(q + 1, k);
    } else {
      assert mem == Shift(q, k);
    }
  }
}
