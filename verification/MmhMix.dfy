/** The last step of the hash: the residues are scrambled reversibly. */
module MmhMix {
  datatype Quad = Quad(b0: bv32, b1: bv32, b2: bv32, b3: bv32)

  function R8(x: bv32): bv32 {
    (x >> 24) ^ (x << 8)
  }

  function R16(x: bv32): bv32 {
    (x >> 16) ^ (x << 16)
  }

  function R24(x: bv32): bv32 {
    (x >> 8) ^ (x << 24)
  }

  function Xor(x: bv32, y: bv32): bv32 {
    x ^ y
  }

  /** The upward phase, all four results from the old values. */
  function Up(q: Quad): Quad {
    Quad(q.b0,
         Xor(q.b1, R8(q.b0)),
         Xor(Xor(q.b2, R16(q.b1)), R8(q.b0)),
         Xor(Xor(Xor(q.b3, R24(q.b1)), R16(q.b2)), R8(q.b0)))
  }

  /** The downward phase. */
  function Down(q: Quad): Quad {
    Quad(Xor(Xor(Xor(q.b0, R24(q.b3)), R16(q.b2)), R8(q.b1)),
         Xor(Xor(q.b1, R16(q.b2)), R8(q.b3)),
         Xor(q.b2, R8(q.b3)),
         q.b3)
  }

  function Scramble(q: Quad): Quad {
    Down(Up(q))
  }

  function UnUp(q: Quad): Quad {
    var b1 := Xor(q.b1, R8(q.b0));
    var b2 := Xor(Xor(q.b2, R8(q.b0)), R16(b1));
    Quad(q.b0, b1, b2, Xor(Xor(Xor(q.b3, R8(q.b0)), R16(b2)), R24(b1)))
  }

  function UnDown(q: Quad): Quad {
    var b2 := Xor(q.b2, R8(q.b3));
    var b1 := Xor(Xor(q.b1, R8(q.b3)), R16(b2));
    Quad(Xor(Xor(Xor(q.b0, R8(b1)), R16(b2)), R24(q.b3)), b1, b2, q.b3)
  }

  function Unscramble(q: Quad): Quad {
    UnUp(UnDown(q))
  }

  lemma Cancel()
    ensures forall x: bv32, y: bv32 :: Xor(Xor(x, y), y) == x
  {
  }

  lemma UpInverse(q: Quad)
    ensures UnUp(Up(q)) == q && Up(UnUp(q)) == q
  {
    hide R8, R16, R24, Xor;
    Cancel();
  }

  lemma DownInverse(q: Quad)
    ensures UnDown(Down(q)) == q && Down(UnDown(q)) == q
  {
    hide R8, R16, R24, Xor;
    Cancel();
  }

  /** The scrambling loses nothing and reaches everything. */
  lemma ScrambleIsBijective(q: Quad)
    ensures Unscramble(Scramble(q)) == q
    ensures Scramble(Unscramble(q)) == q
  {
    hide Up, UnUp, Down, UnDown;
    UpInverse(q);
    DownInverse(Up(q));
    DownInverse(q);
    UpInverse(UnDown(q));
  }

  lemma ScrambleInjective(p: Quad, q: Quad)
    requires Scramble(p) == Scramble(q)
    ensures p == q
  {
    hide Scramble, Unscramble;
    ScrambleIsBijective(p);
    ScrambleIsBijective(q);
  }
}
