/** Bit vectors stored as byte sequences: the character classes of the regex compiler. */
module Bitops {

  /** The mask `1 << k` of one byte. */
  function Mask(k: nat): bv8
    requires k < 8
  {
    if k == 0 then 1 else if k == 1 then 2 else if k == 2 then 4 else if k == 3 then 8 else
    if k == 4 then 16 else if k == 5 then 32 else if k == 6 then 64 else 128
  }

  predicate Bit(b: bv8, k: nat)
    requires k < 8
  {
    b & Mask(k) != 0
  }

  predicate IsSet(v: seq<bv8>, bit: nat)
    requires bit < 8 * |v|
  {
    Bit(v[bit / 8], bit % 8)
  }

  /** The entry of `bit_table`: one more than the index of the least set bit, 0 for an empty byte. */
  function BitTable(b: bv8): (r: nat)
    ensures r <= 8
    ensures r == 0 ==> forall k: nat | k < 8 :: !Bit(b, k)
    ensures r > 0 ==> Bit(b, r - 1) && forall k: nat | k < r - 1 :: !Bit(b, k)
  {
    if b & 1 != 0 then 1 else if b & 2 != 0 then 2 else if b & 4 != 0 then 3 else
    if b & 8 != 0 then 4 else if b & 16 != 0 then 5 else if b & 32 != 0 then 6 else
    if b & 64 != 0 then 7 else if b & 128 != 0 then 8 else assert b == 0; 0
  }

  lemma ClearBit(b: bv8, k: nat, j: nat)
    requires k < 8 && j < 8
    ensures Bit(b & !Mask(k), j) == (j != k && Bit(b, j))
  {
  }

  /** Clears the bits below `t` one at a time, as the inner loop of `bitops_next_set` does. */
  method FirstFrom(b: bv8, t: nat) returns (idx: nat)
    requires t <= 8
    ensures idx <= 8
    ensures idx == 0 ==> forall k: nat | t <= k < 8 :: !Bit(b, k)
    ensures idx > 0 ==> t < idx && Bit(b, idx - 1) && forall k: nat | t <= k < idx - 1 :: !Bit(b, k)
  {
    var c := b;
    idx := BitTable(c);
    while idx != 0 && idx <= t
      invariant idx == BitTable(c)
      invariant forall k: nat | t <= k < 8 :: Bit(c, k) == Bit(b, k)
      decreases if idx == 0 then 0 else 9 - idx
    {
      var i := idx;
      var c' := c & !Mask(idx - 1);
      forall k: nat | k < 8 ensures Bit(c', k) == (k != i - 1 && Bit(c, k)) {
        ClearBit(c, i - 1, k);
      }
      c := c';
      idx := BitTable(c);
    }
  }

  method NextSet(v: seq<bv8>, offset: int) returns (r: int)
    requires -1 <= offset < 8 * |v|
    ensures r == -1 || offset < r < 8 * |v|
    ensures r != -1 ==> IsSet(v, r)
    ensures forall b: nat | offset < b < (if r == -1 then 8 * |v| else r) :: !IsSet(v, b)
  {
    var p: nat := if offset < 0 then 0 else offset / 8;
    var t: nat := if offset < 0 then 0 else offset % 8 + 1;
    while p < |v|
      invariant p <= |v| && t <= 8
      invariant 8 * p + t > offset
      invariant t > 0 ==> offset == 8 * p + t - 1
      invariant forall b: nat | offset < b < 8 * p && b < 8 * |v| :: !IsSet(v, b)
    {
      var idx := FirstFrom(v[p], t);
      if idx != 0 {
        r := 8 * p + idx - 1;
        assert r / 8 == p && r % 8 == idx - 1;
        return;
      }
      p, t := p + 1, 0;
    }
    r := -1;
  }

  /** The set bits below `m`. */
  ghost function BitsBelow(v: seq<bv8>, m: nat): set<nat>
    requires m <= 8 * |v|
  {
    set b: nat | 0 <= b < m && IsSet(v, b)
  }

  /** The entry of `bit_count_table`. */
  function BitCount(b: bv8): nat {
    BitCountFrom(b, 8)
  }

  function BitCountFrom(b: bv8, k: nat): nat
    requires k <= 8
  {
    if k == 0 then 0 else BitCountFrom(b, k - 1) + (if Bit(b, k - 1) then 1 else 0)
  }

  lemma OneMoreBit(v: seq<bv8>, m: nat)
    requires m < 8 * |v|
    ensures |BitsBelow(v, m + 1)| == |BitsBelow(v, m)| + (if IsSet(v, m) then 1 else 0)
  {
    assert BitsBelow(v, m + 1) == BitsBelow(v, m) + (if IsSet(v, m) then {m} else {});
  }

  lemma {:induction false} ByteBits(v: seq<bv8>, i: nat, k: nat)
    requires i < |v| && k <= 8
    ensures |BitsBelow(v, 8 * i + k)| == |BitsBelow(v, 8 * i)| + BitCountFrom(v[i], k)
  {
    if k > 0 {
      ByteBits(v, i, k - 1);
      OneMoreBit(v, 8 * i + (k - 1));
      assert (8 * i + (k - 1)) / 8 == i && (8 * i + (k - 1)) % 8 == k - 1;
    }
  }

  /** `bitops_count`: the number of set bits. */
  method Count(v: seq<bv8>) returns (n: nat)
    ensures n == |BitsBelow(v, 8 * |v|)|
  {
    n := 0;
    var i := 0;
    while i < |v|
      invariant i <= |v| && n == |BitsBelow(v, 8 * i)|
    {
      n := n + BitCount(v[i]);
      ByteBits(v, i, 8);
      i := i + 1;
    }
  }
}
