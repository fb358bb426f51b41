/** Words in memory: aligned loads, and the words at odd addresses put together from two loads. */
module MmhWords {
  type Memory = nat -> bv8

  function Little(x0: bv8, x1: bv8, x2: bv8, x3: bv8): bv32 {
    (x0 as bv32) | ((x1 as bv32) << 8) | ((x2 as bv32) << 16) | ((x3 as bv32) << 24)
  }

  function Big(x0: bv8, x1: bv8, x2: bv8, x3: bv8): bv32 {
    ((x0 as bv32) << 24) | ((x1 as bv32) << 16) | ((x2 as bv32) << 8) | (x3 as bv32)
  }

  /** Four bytes as the machine loads them. */
  function Word(big: bool, x0: bv8, x1: bv8, x2: bv8, x3: bv8): bv32 {
    if big then Big(x0, x1, x2, x3) else Little(x0, x1, x2, x3)
  }

  function Load(mem: Memory, p: nat, big: bool): bv32 {
    Word(big, mem(p), mem(p + 1), mem(p + 2), mem(p + 3))
  }

  // The six unaligned variants of the update, by byte order and offset.
  function L1(x: bv32, y: bv32): bv32 {
    (x >> 8) + (y << 24)
  }

  function L2(x: bv32, y: bv32): bv32 {
    (x >> 16) + (y << 16)
  }

  function L3(x: bv32, y: bv32): bv32 {
    (x >> 24) + (y << 8)
  }

  function B1(x: bv32, y: bv32): bv32 {
    (x << 8) + (y >> 24)
  }

  function B2(x: bv32, y: bv32): bv32 {
    (x << 16) + (y >> 16)
  }

  function B3(x: bv32, y: bv32): bv32 {
    (x << 24) + (y >> 8)
  }

  /** The combination of two neighbouring loads. */
  function Combine(big: bool, alignment: nat, x: bv32, y: bv32): bv32
    requires 1 <= alignment <= 3
  {
    match alignment
    case 1 => if big then B1(x, y) else L1(x, y)
    case 2 => if big then B2(x, y) else L2(x, y)
    case 3 => if big then B3(x, y) else L3(x, y)
  }

  lemma Little1(a: bv8, x0: bv8, x1: bv8, x2: bv8, x3: bv8, b: bv8, c: bv8, d: bv8)
    ensures L1(Little(a, x0, x1, x2), Little(x3, b, c, d)) == Little(x0, x1, x2, x3)
  {
  }

  lemma Little2(a: bv8, b: bv8, x0: bv8, x1: bv8, x2: bv8, x3: bv8, c: bv8, d: bv8)
    ensures L2(Little(a, b, x0, x1), Little(x2, x3, c, d)) == Little(x0, x1, x2, x3)
  {
  }

  lemma Little3(a: bv8, b: bv8, c: bv8, x0: bv8, x1: bv8, x2: bv8, x3: bv8, d: bv8)
    ensures L3(Little(a, b, c, x0), Little(x1, x2, x3, d)) == Little(x0, x1, x2, x3)
  {
  }

  lemma Big1(a: bv8, x0: bv8, x1: bv8, x2: bv8, x3: bv8, b: bv8, c: bv8, d: bv8)
    ensures B1(Big(a, x0, x1, x2), Big(x3, b, c, d)) == Big(x0, x1, x2, x3)
  {
  }

  lemma Big2(a: bv8, b: bv8, x0: bv8, x1: bv8, x2: bv8, x3: bv8, c: bv8, d: bv8)
    ensures B2(Big(a, b, x0, x1), Big(x2, x3, c, d)) == Big(x0, x1, x2, x3)
  {
  }

  lemma Big3(a: bv8, b: bv8, c: bv8, x0: bv8, x1: bv8, x2: bv8, x3: bv8, d: bv8)
    ensures B3(Big(a, b, c, x0), Big(x1, x2, x3, d)) == Big(x0, x1, x2, x3)
  {
  }

  /** The two loads around an unaligned address give its word, whatever the bytes beside it. */
  lemma CombineIsLoad(mem: Memory, p: nat, big: bool, alignment: nat)
    requires 1 <= alignment <= 3 && alignment <= p
    ensures Combine(big, alignment, Load(mem, p - alignment, big), Load(mem, p - alignment + 4, big)) == Load(mem, p, big)
  {
    hide Big, Little, L1, L2, L3, B1, B2, B3;
    if alignment == 1 {
      Little1(mem(p - 1), mem(p), mem(p + 1), mem(p + 2), mem(p + 3), mem(p + 4), mem(p + 5), mem(p + 6));
      Big1(mem(p - 1), mem(p), mem(p + 1), mem(p + 2), mem(p + 3), mem(p + 4), mem(p + 5), mem(p + 6));
    } else if alignment == 2 {
      Little2(mem(p - 2), mem(p - 1), mem(p), mem(p + 1), mem(p + 2), mem(p + 3), mem(p + 4), mem(p + 5));
      Big2(mem(p - 2), mem(p - 1), mem(p), mem(p + 1), mem(p + 2), mem(p + 3), mem(p + 4), mem(p + 5));
    } else {
      Little3(mem(p - 3), mem(p - 2), mem(p - 1), mem(p), mem(p + 1), mem(p + 2), mem(p + 3), mem(p + 4));
      Big3(mem(p - 3), mem(p - 2), mem(p - 1), mem(p), mem(p + 1), mem(p + 2), mem(p + 3), mem(p + 4));
    }
  }
}
